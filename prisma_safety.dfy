/**
 * The current variant of the check: models are identified by the database
 * table they map to (`@@map(name: ...)`, else the declared name), the
 * policy runs over that diff, and the issues are rendered one per line.
 */
module PrismaSafety {
  import opened Wrappers
  import opened SchemaAst
  import opened OrderedMaps
  import opened Extract
  import opened SchemaDiff
  import opened SafetyPolicy
  import opened Text

  // ---------------------------------------------------------------------------
  // Table identity.

  /**
   * `getMappedTableName`: the first argument of the model's first `@@map`
   * block attribute, when that argument is a key-value pair; its value is
   * the table name.
   */
  function MappedTableName(model: Model): (r: Option<string>)
    ensures r.Some? ==> exists a :: a in BlockAttributes(model.properties) && a.name == "map"
  {
    match FindAttribute(BlockAttributes(model.properties), "map")
    case None => None
    case Some(dbMapping) =>
      if |dbMapping.args| == 0 then None
      else
        match dbMapping.args[0].value
        case KeyValue(_, value) => Some(value)
        case _ => None
  }

  /** The key a model is diffed under: its mapped table name, else its declared name. */
  function TableName(model: Model): string
  {
    match MappedTableName(model)
    case Some(name) => name
    case None => model.name
  }

  /** Without a `@@map` block attribute a model is keyed by its declared name. */
  lemma UnmappedModelKeepsName(model: Model)
    requires forall a :: a in BlockAttributes(model.properties) ==> a.name != "map"
    ensures MappedTableName(model) == None
    ensures TableName(model) == model.name
  {
  }

  /**
   * With a `@@map` block attribute, only the first one counts: a key-value
   * first argument gives the table name, and any other first argument
   * (such as the positional `@@map("t")`) or none at all falls back to the
   * declared name.
   */
  lemma {:induction false} FirstMapDecides(model: Model, i: nat)
    requires i < |BlockAttributes(model.properties)|
    requires BlockAttributes(model.properties)[i].name == "map"
    requires forall j :: 0 <= j < i ==> BlockAttributes(model.properties)[j].name != "map"
    ensures var args := BlockAttributes(model.properties)[i].args;
            MappedTableName(model) ==
              if |args| > 0 && args[0].value.KeyValue? then Some(args[0].value.value) else None
    ensures var args := BlockAttributes(model.properties)[i].args;
            TableName(model) ==
              if |args| > 0 && args[0].value.KeyValue? then args[0].value.value else model.name
  {
    var attrs := BlockAttributes(model.properties);
    var r := FindAttribute(attrs, "map");
    assert r.Some?;
    var i' :| 0 <= i' < |attrs| && attrs[i'] == r.value && r.value.name == "map" &&
              forall j :: 0 <= j < i' ==> attrs[j].name != "map";
    assert i' == i;
  }

  /**
   * `tablesFromSchema`: the loop over the schema's blocks that stores every
   * model under its table name.
   */
  method TablesFromSchema(schema: Schema) returns (tables: OrderedMap<Model>)
    ensures tables == Tables(schema)
  {
    tables := Empty();
    for i := 0 to |schema.list|
      invariant tables == Index(schema.list[..i], TableName)
    {
      assert schema.list[..i + 1][..i] == schema.list[..i];
      var block := schema.list[i];
      if block.ModelBlock? {
        var mappedName := MappedTableName(block.model);
        var tableName := if mappedName.Some? then mappedName.value else block.model.name;
        tables := tables.Set(tableName, block.model);
      }
    }
    assert schema.list[..|schema.list|] == schema.list;
  }

  /** `diffModels`: the diff of the two schemas' models keyed by table name. */
  method DiffModels(previousSchema: Schema, currentSchema: Schema) returns (d: Diff<Model>)
    ensures d == DiffOf(Tables(previousSchema), Tables(currentSchema))
  {
    var previousTables := TablesFromSchema(previousSchema);
    var currentTables := TablesFromSchema(currentSchema);
    d := DiffMaps(previousTables, currentTables);
  }

  // ---------------------------------------------------------------------------
  // The policy over two schemas.

  /** A schema's models keyed by table name, as `tablesFromSchema` builds them. */
  function Tables(schema: Schema): (m: OrderedMap<Model>)
    ensures m.Valid()
  {
    Index(schema.list, TableName)
  }

  /** The issues the policy raises for a previous and a current schema. */
  function SafetyIssues(previousSchema: Schema, currentSchema: Schema): seq<SafetyIssue>
  {
    Issues(DiffOf(Tables(previousSchema), Tables(currentSchema)), Models(currentSchema))
  }

  /** `listSafetyIssuesBasedOnSchemas`. */
  method ListSafetyIssuesBasedOnSchemas(previousSchema: Schema, currentSchema: Schema)
    returns (issues: seq<SafetyIssue>)
    ensures issues == SafetyIssues(previousSchema, currentSchema)
  {
    var currentModels := ModelsFromSchema(currentSchema);
    assert currentModels == Models(currentSchema);
    var tableChanges := DiffModels(previousSchema, currentSchema);
    issues := CollectIssues(tableChanges, currentModels);
  }

  /**
   * A model-level issue is raised exactly for a table of the previous schema
   * that no model of the current schema maps to, when the model stored for
   * it lacked `@@ignore`.
   */
  lemma DroppedTableIssues(previousSchema: Schema, currentSchema: Schema, issue: SafetyIssue)
    ensures (issue in SafetyIssues(previousSchema, currentSchema) && issue.field.None?) <==>
            exists t :: t in Tables(previousSchema).values && t !in Tables(currentSchema).values &&
                        !IgnoredModel(Tables(previousSchema).values[t]) &&
                        issue == TableIssue(Tables(previousSchema).values[t])
  {
    ModelLevelIssuesExactly(Tables(previousSchema), Tables(currentSchema), Models(currentSchema), issue);
  }

  /**
   * A field-level issue is raised exactly for a field removed unsafely from
   * a model whose table is in both schemas; relations are judged against the
   * current schema's models by declared name.
   */
  lemma DroppedFieldIssues(previousSchema: Schema, currentSchema: Schema, issue: SafetyIssue)
    ensures (issue in SafetyIssues(previousSchema, currentSchema) && issue.field.Some?) <==>
            exists t, f :: t in Tables(previousSchema).values && t in Tables(currentSchema).values &&
                           UnsafeFieldRemoval(Tables(previousSchema).values[t], Tables(currentSchema).values[t], f,
                                              Models(currentSchema)) &&
                           issue == SafetyIssue(Tables(currentSchema).values[t].name, Some(f), DeletedFieldMessage)
  {
    FieldLevelIssuesExactly(Tables(previousSchema), Tables(currentSchema), Models(currentSchema), issue);
  }

  /**
   * The change is safe exactly when every dropped table was marked
   * `@@ignore` and no kept table lost a flagged field; renaming a model
   * while keeping its `@@map` table name is therefore not a deletion.
   */
  lemma SafeExactly(previousSchema: Schema, currentSchema: Schema)
    ensures SafetyIssues(previousSchema, currentSchema) == [] <==>
            (forall t :: t in Tables(previousSchema).values && t !in Tables(currentSchema).values ==>
                         IgnoredModel(Tables(previousSchema).values[t])) &&
            (forall t, f :: t in Tables(previousSchema).values && t in Tables(currentSchema).values ==>
                            !UnsafeFieldRemoval(Tables(previousSchema).values[t], Tables(currentSchema).values[t], f,
                                                Models(currentSchema)))
  {
    NoIssuesExactly(Tables(previousSchema), Tables(currentSchema), Models(currentSchema));
  }

  /**
   * Renaming a model while keeping its `@@map` table name is not a deletion:
   * the previous and the current model, each the last one declared for that
   * table, are diffed as a retained pair, and every issue about their fields
   * is reported.
   */
  lemma MappedRenameKeepsPair(previousSchema: Schema, currentSchema: Schema, i: nat, j: nat)
    requires i < |previousSchema.list| && previousSchema.list[i].ModelBlock?
    requires j < |currentSchema.list| && currentSchema.list[j].ModelBlock?
    requires TableName(previousSchema.list[i].model) == TableName(currentSchema.list[j].model)
    requires forall b :: i < b < |previousSchema.list| && previousSchema.list[b].ModelBlock? ==>
               TableName(previousSchema.list[b].model) != TableName(previousSchema.list[i].model)
    requires forall b :: j < b < |currentSchema.list| && currentSchema.list[b].ModelBlock? ==>
               TableName(currentSchema.list[b].model) != TableName(currentSchema.list[j].model)
    ensures TableName(previousSchema.list[i].model) in Tables(currentSchema).values
    ensures Pair(previousSchema.list[i].model, currentSchema.list[j].model) in
              DiffOf(Tables(previousSchema), Tables(currentSchema)).remaining
    ensures forall issue :: issue in PairIssues(Pair(previousSchema.list[i].model, currentSchema.list[j].model),
                                                Models(currentSchema)) ==>
              issue in SafetyIssues(previousSchema, currentSchema)
  {
    var p := previousSchema.list[i].model;
    var c := currentSchema.list[j].model;
    var t := TableName(p);
    IndexLastWins(previousSchema.list, TableName, i);
    IndexLastWins(currentSchema.list, TableName, j);
    var d := DiffOf(Tables(previousSchema), Tables(currentSchema));
    var r := RemainingIndex(Tables(previousSchema), Tables(currentSchema), t);
    assert d.remaining[r] == Pair(p, c);
    forall issue | issue in PairIssues(Pair(p, c), Models(currentSchema))
      ensures issue in SafetyIssues(previousSchema, currentSchema)
    {
      RemainingIssuesHas(d.remaining, Models(currentSchema), issue);
    }
  }

  /**
   * Where no model yields a mapped table name, keying by table name and by
   * declared name build the same map, so both variants see the same diff.
   */
  lemma {:induction false} UnmappedTablesAreModels(blocks: seq<Block>)
    requires forall b :: 0 <= b < |blocks| && blocks[b].ModelBlock? ==> MappedTableName(blocks[b].model).None?
    ensures Index(blocks, TableName) == Index(blocks, DeclaredName)
  {
    if |blocks| > 0 {
      var init := blocks[..|blocks| - 1];
      UnmappedTablesAreModels(init);
    }
  }

  // ---------------------------------------------------------------------------
  // Rendering.

  /** The line rendered for one issue. */
  function IssueLine(issue: SafetyIssue): string
  {
    "Unsafe change to \"" + Label(issue) + "\": " + issue.message
  }

  /** The rendered lines, one per issue, in order. */
  function IssueLines(issues: seq<SafetyIssue>): (r: seq<string>)
    ensures |r| == |issues|
    ensures forall i :: 0 <= i < |issues| ==> r[i] == IssueLine(issues[i])
  {
    if |issues| == 0 then [] else [IssueLine(issues[0])] + IssueLines(issues[1..])
  }

  /** `renderSafetyIssues`: the lines joined with newlines. */
  function RenderSafetyIssues(issues: seq<SafetyIssue>): (r: string)
    ensures |issues| == 0 ==> r == ""
    ensures |issues| == 1 ==> r == IssueLine(issues[0])
  {
    Join("\n", IssueLines(issues))
  }

  /** A newline-free issue renders to a single line. */
  lemma IssueLineOneLine(issue: SafetyIssue)
    requires '\n' !in issue.model && '\n' !in issue.message
    requires issue.field.Some? ==> '\n' !in issue.field.value
    ensures '\n' !in IssueLine(issue)
  {
    LabelOneLine(issue);
  }

  /**
   * The rendered text splits back at newlines into exactly one line per
   * issue, in order, when no issue's text contains a newline.
   */
  lemma RenderSplitsIntoIssueLines(issues: seq<SafetyIssue>)
    requires |issues| >= 1
    requires forall i :: 0 <= i < |issues| ==>
               '\n' !in issues[i].model && '\n' !in issues[i].message &&
               (issues[i].field.Some? ==> '\n' !in issues[i].field.value)
    ensures Split(RenderSafetyIssues(issues), '\n') == IssueLines(issues)
  {
    forall i | 0 <= i < |issues| ensures '\n' !in IssueLines(issues)[i] {
      IssueLineOneLine(issues[i]);
    }
    SplitJoin(IssueLines(issues), '\n');
  }
}
