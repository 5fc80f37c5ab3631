/**
 * The two-pass safety policy shared by both variants of the check: a deleted
 * model must have carried `@@ignore`; a field deleted from a retained model
 * must have carried `@ignore` unless it is a relation to a model that is
 * still declared.
 */
module SafetyPolicy {
  import opened Wrappers
  import opened SchemaAst
  import opened OrderedMaps
  import opened Extract
  import opened SchemaDiff
  import opened Sequences
  import opened Text

  /** A reported unsafe change; `field` is absent for a model-level issue. */
  datatype SafetyIssue = SafetyIssue(model: string, field: Option<string>, message: string)

  const DeletedTableMessage := "Expected a deleted table to be marked with @@ignore prior to deletion."
  const DeletedFieldMessage := "Expected deleted field to have been marked with @ignore prior to delete."

  /** The issue raised for a deleted model, under its declared name. */
  function TableIssue(model: Model): SafetyIssue
  {
    SafetyIssue(model.name, None, DeletedTableMessage)
  }

  /** The issue raised for a field deleted from a retained model, under the current model's name. */
  function FieldIssue(currentModel: Model, field: Field): SafetyIssue
  {
    SafetyIssue(currentModel.name, Some(field.name), DeletedFieldMessage)
  }

  /** `filter(Boolean)` on strings: drops the empty ones. */
  function NonEmpty(parts: seq<string>): (r: seq<string>)
    ensures forall p :: p in r <==> p in parts && p != ""
  {
    if |parts| == 0 then []
    else (if parts[0] == "" then [] else [parts[0]]) + NonEmpty(parts[1..])
  }

  /** One string is kept exactly when it is non-empty. */
  lemma NonEmptyOne(p: string)
    ensures NonEmpty([p]) == if p == "" then [] else [p]
  {
    assert [p][1..] == [];
  }

  /** `filter` keeps the order and the repeats of what it keeps: it distributes over concatenation. */
  lemma {:induction false} NonEmptyAppend(xs: seq<string>, ys: seq<string>)
    ensures NonEmpty(xs + ys) == NonEmpty(xs) + NonEmpty(ys)
  {
    if |xs| == 0 {
      assert xs + ys == ys;
    } else {
      assert (xs + ys)[1..] == xs[1..] + ys;
      NonEmptyAppend(xs[1..], ys);
    }
  }

  /**
   * The dotted label both variants print for an issue,
   * `[model, field].filter(Boolean).join('.')`: `model.field`, or `model` alone.
   */
  function Label(issue: SafetyIssue): (r: string)
    ensures issue.model != "" && issue.field.None? ==> r == issue.model
    ensures issue.model != "" && issue.field.Some? && issue.field.value != "" ==>
            r == issue.model + "." + issue.field.value
  {
    var named := [issue.model] + (if issue.field.Some? then [issue.field.value] else []);
    assert NonEmpty([]) == [];
    assert issue.field.Some? ==> NonEmpty(named) == NonEmpty([issue.model]) + NonEmpty([issue.field.value]) by {
      if issue.field.Some? {
        assert named[1..] == [issue.field.value];
        assert [issue.field.value][1..] == [];
      }
    }
    assert [issue.model][1..] == [];
    assert issue.model != "" && issue.field.Some? && issue.field.value != "" ==>
           Join(".", NonEmpty(named)) == issue.model + "." + issue.field.value by {
      if issue.model != "" && issue.field.Some? && issue.field.value != "" {
        assert NonEmpty(named) == [issue.model, issue.field.value];
        assert NonEmpty(named)[1..] == [issue.field.value];
      }
    }
    Join(".", NonEmpty(named))
  }

  /** The label of an issue whose names hold no newline holds none either. */
  lemma LabelOneLine(issue: SafetyIssue)
    requires '\n' !in issue.model
    requires issue.field.Some? ==> '\n' !in issue.field.value
    ensures '\n' !in Label(issue)
  {
    var named := [issue.model] + (if issue.field.Some? then [issue.field.value] else []);
    var parts := NonEmpty(named);
    assert forall i :: 0 <= i < |parts| ==> parts[i] in named;
    JoinAvoids(".", parts, '\n');
  }

  /** A model marked `@@ignore` may be deleted. */
  predicate IgnoredModel(model: Model)
  {
    HasIgnore(BlockAttributes(model.properties))
  }

  /**
   * `isFieldARelation`: the field's type is a plain type name under which the
   * current schema declares a model (looked up by declared name).
   */
  predicate IsFieldARelation(field: Field, currentModels: OrderedMap<Model>)
  {
    field.fieldType.TypeName? && field.fieldType.name in currentModels.values
  }

  /** A deleted field is flagged unless it is a relation or was marked `@ignore`. */
  predicate FlaggedField(field: Field, currentModels: OrderedMap<Model>)
  {
    !IsFieldARelation(field, currentModels) && !HasIgnore(field.attributes)
  }

  /** The issues one deleted model contributes: the callback of pass A's `flatMap`. */
  function DeletedModelIssues(model: Model): seq<SafetyIssue>
  {
    if IgnoredModel(model) then [] else [TableIssue(model)]
  }

  /** The issues one deleted field contributes: the callback of the inner `flatMap` of pass B. */
  function DeletedFieldIssues(currentModel: Model, currentModels: OrderedMap<Model>, field: Field): seq<SafetyIssue>
  {
    if FlaggedField(field, currentModels) then [FieldIssue(currentModel, field)] else []
  }

  /** Pass A: the issues of the deleted models, in order. */
  function ModelIssues(deleted: seq<Model>): seq<SafetyIssue>
  {
    FlatMap(deleted, DeletedModelIssues)
  }

  /** The issues of the fields deleted from one retained model, in order. */
  function FieldIssues(currentModel: Model, deleted: seq<Field>, currentModels: OrderedMap<Model>): seq<SafetyIssue>
  {
    FlatMap(deleted, (field: Field) => DeletedFieldIssues(currentModel, currentModels, field))
  }

  /** The field-level diff of a retained model (`diffModelFields`). */
  function FieldDiff(prev: Model, current: Model): Diff<Field>
  {
    DiffOf(FieldIndex(prev.properties), FieldIndex(current.properties))
  }

  /** The issues of one retained model pair: the callback of pass B's outer `flatMap`. */
  function PairIssues(pair: Pair<Model>, currentModels: OrderedMap<Model>): seq<SafetyIssue>
  {
    FieldIssues(pair.current, FieldDiff(pair.prev, pair.current).deleted, currentModels)
  }

  /** Pass B: the issues of every retained model pair, in order. */
  function RemainingIssues(remaining: seq<Pair<Model>>, currentModels: OrderedMap<Model>): seq<SafetyIssue>
  {
    FlatMap(remaining, (pair: Pair<Model>) => PairIssues(pair, currentModels))
  }

  /** All issues: pass A followed by pass B. */
  function Issues(tableChanges: Diff<Model>, currentModels: OrderedMap<Model>): seq<SafetyIssue>
  {
    ModelIssues(tableChanges.deleted) + RemainingIssues(tableChanges.remaining, currentModels)
  }

  /**
   * The body shared by `listSafetyIssuesBasedOnSchemas` and
   * `assertSafeSchemaChangeBasedOnSchemas` once the model diff and the
   * current models by declared name are known: both passes pushed onto
   * `allIssues`.
   */
  method CollectIssues(tableChanges: Diff<Model>, currentModels: OrderedMap<Model>) returns (allIssues: seq<SafetyIssue>)
    ensures allIssues == Issues(tableChanges, currentModels)
  {
    allIssues := [];
    var modelIssues := DeletedModelsPass(tableChanges.deleted);
    allIssues := allIssues + modelIssues;
    var fieldIssues := RemainingModelsPass(tableChanges.remaining, currentModels);
    allIssues := allIssues + fieldIssues;
  }

  /** Pass A: `tableChanges.deleted.flatMap(...)`, one deleted model at a time. */
  method DeletedModelsPass(deleted: seq<Model>) returns (issues: seq<SafetyIssue>)
    ensures issues == ModelIssues(deleted)
  {
    issues := [];
    for i := 0 to |deleted|
      invariant issues == ModelIssues(deleted[..i])
    {
      var model := deleted[i];
      FlatMapPrefix(deleted, i, DeletedModelIssues);
      var attributes := AttributesFromModel(model);
      var ignoreAttr := FindAttribute(attributes, "ignore");
      if ignoreAttr.None? {
        issues := issues + [SafetyIssue(model.name, None, DeletedTableMessage)];
      }
    }
    assert deleted[..|deleted|] == deleted;
  }

  /** Pass B: `tableChanges.remaining.flatMap(...)`, one retained model pair at a time. */
  method RemainingModelsPass(remaining: seq<Pair<Model>>, currentModels: OrderedMap<Model>)
    returns (issues: seq<SafetyIssue>)
    ensures issues == RemainingIssues(remaining, currentModels)
  {
    issues := [];
    for i := 0 to |remaining|
      invariant issues == RemainingIssues(remaining[..i], currentModels)
    {
      var pair := remaining[i];
      FlatMapPrefix(remaining, i, (pair: Pair<Model>) => PairIssues(pair, currentModels));
      var fieldChanges := DiffModelFields(pair.prev, pair.current);
      issues := issues + FieldIssues(pair.current, fieldChanges.deleted, currentModels);
    }
    assert remaining[..|remaining|] == remaining;
  }

  // ---------------------------------------------------------------------------
  // Each deleted entity contributes its own issues, in order.

  /** A deleted model yields exactly one issue, naming it, when it lacks `@@ignore`, and none otherwise. */
  lemma DeletedModelContributes(before: seq<Model>, model: Model, after: seq<Model>)
    ensures ModelIssues(before + [model] + after) ==
            ModelIssues(before) + (if IgnoredModel(model) then [] else [TableIssue(model)]) + ModelIssues(after)
  {
    FlatMapAppend(before + [model], after, DeletedModelIssues);
    FlatMapAppend(before, [model], DeletedModelIssues);
    assert [model][..0] == [];
  }

  /**
   * A deleted field yields exactly one issue, naming the current model and
   * the field, when it is neither a relation nor marked `@ignore`, and none
   * otherwise.
   */
  lemma DeletedFieldContributes(c: Model, before: seq<Field>, field: Field, after: seq<Field>,
                                currentModels: OrderedMap<Model>)
    ensures FieldIssues(c, before + [field] + after, currentModels) ==
            FieldIssues(c, before, currentModels) +
            (if FlaggedField(field, currentModels) then [FieldIssue(c, field)] else []) +
            FieldIssues(c, after, currentModels)
  {
    var f := (field: Field) => DeletedFieldIssues(c, currentModels, field);
    FlatMapAppend(before + [field], after, f);
    FlatMapAppend(before, [field], f);
    assert [field][..0] == [];
  }

  // ---------------------------------------------------------------------------
  // Membership.

  lemma ModelIssuesHas(deleted: seq<Model>, issue: SafetyIssue)
    ensures issue in ModelIssues(deleted) <==>
            exists i :: 0 <= i < |deleted| && !IgnoredModel(deleted[i]) && issue == TableIssue(deleted[i])
  {
    FlatMapHas(deleted, DeletedModelIssues, issue);
  }

  lemma FieldIssuesHas(c: Model, deleted: seq<Field>, currentModels: OrderedMap<Model>, issue: SafetyIssue)
    ensures issue in FieldIssues(c, deleted, currentModels) <==>
            exists i :: 0 <= i < |deleted| && FlaggedField(deleted[i], currentModels) && issue == FieldIssue(c, deleted[i])
  {
    FlatMapHas(deleted, (field: Field) => DeletedFieldIssues(c, currentModels, field), issue);
  }

  lemma RemainingIssuesHas(remaining: seq<Pair<Model>>, currentModels: OrderedMap<Model>, issue: SafetyIssue)
    ensures issue in RemainingIssues(remaining, currentModels) <==>
            exists i :: 0 <= i < |remaining| && issue in PairIssues(remaining[i], currentModels)
  {
    FlatMapHas(remaining, (pair: Pair<Model>) => PairIssues(pair, currentModels), issue);
  }

  /** Every pass-B issue names a field. */
  lemma RemainingIssuesNameFields(remaining: seq<Pair<Model>>, currentModels: OrderedMap<Model>)
    ensures forall issue :: issue in RemainingIssues(remaining, currentModels) ==> issue.field.Some?
  {
    forall issue | issue in RemainingIssues(remaining, currentModels)
      ensures issue.field.Some?
    {
      RemainingIssuesHas(remaining, currentModels, issue);
      var i :| 0 <= i < |remaining| && issue in PairIssues(remaining[i], currentModels);
      var pair := remaining[i];
      FieldIssuesHas(pair.current, FieldDiff(pair.prev, pair.current).deleted, currentModels, issue);
    }
  }

  /** Every pass-A issue is model-level. */
  lemma ModelIssuesNameNoField(deleted: seq<Model>)
    ensures forall issue :: issue in ModelIssues(deleted) ==> issue.field.None?
  {
    forall issue | issue in ModelIssues(deleted)
      ensures issue.field.None?
    {
      ModelIssuesHas(deleted, issue);
    }
  }

  /** Every model-level issue comes before every field-level issue. */
  lemma ModelIssuesPrecedeFieldIssues(tableChanges: Diff<Model>, currentModels: OrderedMap<Model>, i: nat, j: nat)
    requires i < j < |Issues(tableChanges, currentModels)|
    requires Issues(tableChanges, currentModels)[i].field.Some?
    ensures Issues(tableChanges, currentModels)[j].field.Some?
  {
    var a := ModelIssues(tableChanges.deleted);
    var b := RemainingIssues(tableChanges.remaining, currentModels);
    var all := Issues(tableChanges, currentModels);
    ModelIssuesNameNoField(tableChanges.deleted);
    RemainingIssuesNameFields(tableChanges.remaining, currentModels);
    assert forall t :: 0 <= t < |a| ==> all[t] == a[t] && a[t] in a;
    assert all[j] == b[j - |a|] && b[j - |a|] in b;
  }

  // ---------------------------------------------------------------------------
  // The policy in terms of the keyed maps of the two schemas.

  /**
   * The field keyed `f` is in the previous version of the model, not in the
   * current one, and is flagged.
   */
  ghost predicate UnsafeFieldRemoval(prev: Model, current: Model, f: string, currentModels: OrderedMap<Model>)
  {
    var prevFields := FieldIndex(prev.properties);
    f in prevFields.values && f !in FieldIndex(current.properties).values &&
    FlaggedField(prevFields.values[f], currentModels)
  }

  /** The issues of one retained pair are exactly its unsafe field removals. */
  lemma PairIssuesHas(prev: Model, current: Model, currentModels: OrderedMap<Model>, issue: SafetyIssue)
    ensures issue in PairIssues(Pair(prev, current), currentModels) <==>
            exists f :: UnsafeFieldRemoval(prev, current, f, currentModels) &&
                        issue == SafetyIssue(current.name, Some(f), DeletedFieldMessage)
  {
    var pf := FieldIndex(prev.properties);
    var cf := FieldIndex(current.properties);
    var deleted := FieldDiff(prev, current).deleted;
    FieldIssuesHas(current, deleted, currentModels, issue);
    if issue in PairIssues(Pair(prev, current), currentModels) {
      var i :| 0 <= i < |deleted| && FlaggedField(deleted[i], currentModels) && issue == FieldIssue(current, deleted[i]);
      var f := DeletedEntry(pf, cf, i);
      assert UnsafeFieldRemoval(prev, current, f, currentModels);
    }
    if exists f :: UnsafeFieldRemoval(prev, current, f, currentModels) &&
                   issue == SafetyIssue(current.name, Some(f), DeletedFieldMessage) {
      var f :| UnsafeFieldRemoval(prev, current, f, currentModels) &&
               issue == SafetyIssue(current.name, Some(f), DeletedFieldMessage);
      var i := DeletedIndex(pf, cf, f);
      assert deleted[i] == pf.values[f];
    }
  }

  /**
   * A field deleted from a retained model whose type names a model the
   * current schema declares is a relation and raises no issue, whatever its
   * attributes.
   */
  lemma RelationFieldNeverFlagged(prev: Model, current: Model, currentModels: OrderedMap<Model>, f: string)
    requires f in FieldIndex(prev.properties).values
    requires IsFieldARelation(FieldIndex(prev.properties).values[f], currentModels)
    ensures forall issue :: issue in PairIssues(Pair(prev, current), currentModels) ==> issue.field != Some(f)
  {
    forall issue | issue in PairIssues(Pair(prev, current), currentModels)
      ensures issue.field != Some(f)
    {
      PairIssuesHas(prev, current, currentModels, issue);
    }
  }

  /**
   * A retained model that keeps every field name, whatever the order and
   * the attributes of its fields now, raises no issue.
   */
  lemma KeptFieldNamesRaiseNothing(prev: Model, current: Model, currentModels: OrderedMap<Model>)
    requires forall f :: f in FieldIndex(prev.properties).values ==> f in FieldIndex(current.properties).values
    ensures PairIssues(Pair(prev, current), currentModels) == []
  {
    var issues := PairIssues(Pair(prev, current), currentModels);
    if issues != [] {
      PairIssuesHas(prev, current, currentModels, issues[0]);
    }
  }

  /**
   * A model-level issue is raised exactly for each previous model whose key
   * is gone from the current schema and which lacked `@@ignore`; it carries
   * that model's declared name.
   */
  lemma ModelLevelIssuesExactly(prevTables: OrderedMap<Model>, currentTables: OrderedMap<Model>,
                                currentModels: OrderedMap<Model>, issue: SafetyIssue)
    requires prevTables.Valid() && currentTables.Valid()
    ensures (issue in Issues(DiffOf(prevTables, currentTables), currentModels) && issue.field.None?) <==>
            exists k :: k in prevTables.values && k !in currentTables.values &&
                        !IgnoredModel(prevTables.values[k]) && issue == TableIssue(prevTables.values[k])
  {
    var d := DiffOf(prevTables, currentTables);
    RemainingIssuesNameFields(d.remaining, currentModels);
    ModelIssuesHas(d.deleted, issue);
    if issue in Issues(d, currentModels) && issue.field.None? {
      assert issue in ModelIssues(d.deleted);
      var i :| 0 <= i < |d.deleted| && !IgnoredModel(d.deleted[i]) && issue == TableIssue(d.deleted[i]);
      var k := DeletedEntry(prevTables, currentTables, i);
    }
    if exists k :: k in prevTables.values && k !in currentTables.values &&
                   !IgnoredModel(prevTables.values[k]) && issue == TableIssue(prevTables.values[k]) {
      var k :| k in prevTables.values && k !in currentTables.values &&
               !IgnoredModel(prevTables.values[k]) && issue == TableIssue(prevTables.values[k]);
      var i := DeletedIndex(prevTables, currentTables, k);
    }
  }

  /**
   * A field-level issue is raised exactly for each field removed unsafely
   * from a model whose key is in both schemas; it carries the current
   * model's declared name and the field's name.
   */
  lemma FieldLevelIssuesExactly(prevTables: OrderedMap<Model>, currentTables: OrderedMap<Model>,
                                currentModels: OrderedMap<Model>, issue: SafetyIssue)
    requires prevTables.Valid() && currentTables.Valid()
    ensures (issue in Issues(DiffOf(prevTables, currentTables), currentModels) && issue.field.Some?) <==>
            exists k, f :: k in prevTables.values && k in currentTables.values &&
                           UnsafeFieldRemoval(prevTables.values[k], currentTables.values[k], f, currentModels) &&
                           issue == SafetyIssue(currentTables.values[k].name, Some(f), DeletedFieldMessage)
  {
    var d := DiffOf(prevTables, currentTables);
    ModelIssuesNameNoField(d.deleted);
    RemainingIssuesHas(d.remaining, currentModels, issue);
    if issue in Issues(d, currentModels) && issue.field.Some? {
      assert issue in RemainingIssues(d.remaining, currentModels);
      var i :| 0 <= i < |d.remaining| && issue in PairIssues(d.remaining[i], currentModels);
      var k := RemainingEntry(prevTables, currentTables, i);
      PairIssuesHas(prevTables.values[k], currentTables.values[k], currentModels, issue);
    }
    if exists k, f :: k in prevTables.values && k in currentTables.values &&
                      UnsafeFieldRemoval(prevTables.values[k], currentTables.values[k], f, currentModels) &&
                      issue == SafetyIssue(currentTables.values[k].name, Some(f), DeletedFieldMessage) {
      var k, f :| k in prevTables.values && k in currentTables.values &&
                  UnsafeFieldRemoval(prevTables.values[k], currentTables.values[k], f, currentModels) &&
                  issue == SafetyIssue(currentTables.values[k].name, Some(f), DeletedFieldMessage);
      var i := RemainingIndex(prevTables, currentTables, k);
      PairIssuesHas(prevTables.values[k], currentTables.values[k], currentModels, issue);
    }
  }

  /**
   * No issue at all exactly when every vanished model was marked `@@ignore`
   * and no retained model lost a flagged field; added models and fields,
   * and reordering, never matter.
   */
  lemma NoIssuesExactly(prevTables: OrderedMap<Model>, currentTables: OrderedMap<Model>, currentModels: OrderedMap<Model>)
    requires prevTables.Valid() && currentTables.Valid()
    ensures Issues(DiffOf(prevTables, currentTables), currentModels) == [] <==>
            (forall k :: k in prevTables.values && k !in currentTables.values ==> IgnoredModel(prevTables.values[k])) &&
            (forall k, f :: k in prevTables.values && k in currentTables.values ==>
                            !UnsafeFieldRemoval(prevTables.values[k], currentTables.values[k], f, currentModels))
  {
    var all := Issues(DiffOf(prevTables, currentTables), currentModels);
    if all != [] {
      var issue := all[0];
      ModelLevelIssuesExactly(prevTables, currentTables, currentModels, issue);
      FieldLevelIssuesExactly(prevTables, currentTables, currentModels, issue);
    }
    forall k | k in prevTables.values && k !in currentTables.values && all == []
      ensures IgnoredModel(prevTables.values[k])
    {
      ModelLevelIssuesExactly(prevTables, currentTables, currentModels, TableIssue(prevTables.values[k]));
    }
    forall k, f | k in prevTables.values && k in currentTables.values && all == []
      ensures !UnsafeFieldRemoval(prevTables.values[k], currentTables.values[k], f, currentModels)
    {
      FieldLevelIssuesExactly(prevTables, currentTables, currentModels,
                              SafetyIssue(currentTables.values[k].name, Some(f), DeletedFieldMessage));
    }
  }
}
