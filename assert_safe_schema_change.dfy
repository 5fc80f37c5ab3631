/**
 * The older variant of the check: models are identified by their declared
 * name only, the same two-pass policy runs over that diff, and any issue
 * makes the check fail with an `UnsafeSchemaChangeError`.
 */
module AssertSafeSchemaChange {
  import opened Wrappers
  import opened SchemaAst
  import opened OrderedMaps
  import opened Extract
  import opened SchemaDiff
  import opened SafetyPolicy
  import opened Text

  /** The error the check raises; it carries the rendered message. */
  datatype UnsafeSchemaChangeError = UnsafeSchemaChangeError(message: string)

  const ErrorHeading := "Unsafe schema change:"

  /** The line the error message holds for one issue (with its unbalanced quotes). */
  function DiffLine(issue: SafetyIssue): string
  {
    "\"Diff \"" + Label(issue) + "\": " + issue.message
  }

  /** The lines, one per issue, in order. */
  function DiffLines(issues: seq<SafetyIssue>): (r: seq<string>)
    ensures |r| == |issues|
    ensures forall i :: 0 <= i < |issues| ==> r[i] == DiffLine(issues[i])
  {
    if |issues| == 0 then [] else [DiffLine(issues[0])] + DiffLines(issues[1..])
  }

  /** The message built by the `UnsafeSchemaChangeError` constructor. */
  function ErrorMessage(issues: seq<SafetyIssue>): string
  {
    ErrorHeading + "\n " + Join("\n", DiffLines(issues))
  }

  /** A newline-free issue gives a single line. */
  lemma DiffLineOneLine(issue: SafetyIssue)
    requires '\n' !in issue.model && '\n' !in issue.message
    requires issue.field.Some? ==> '\n' !in issue.field.value
    ensures '\n' !in DiffLine(issue)
  {
    LabelOneLine(issue);
  }

  lemma HeadingOneLine()
    ensures '\n' !in ErrorHeading
  {
  }

  lemma HeadingThenIndent(heading: string, body: string)
    ensures heading + "\n " + body == heading + ['\n'] + (" " + body)
  {
    assert "\n " == ['\n'] + " ";
  }

  lemma ConsCons<T>(a: T, b: T, rest: seq<T>)
    ensures [a] + ([b] + rest) == [a, b] + rest
  {
  }

  /**
   * The message reads back, line by line, as the heading followed by one
   * line per issue in order, the first of them indented by one space, when
   * no issue's text contains a newline.
   */
  lemma ErrorMessageLines(issues: seq<SafetyIssue>)
    requires |issues| >= 1
    requires forall i :: 0 <= i < |issues| ==>
               '\n' !in issues[i].model && '\n' !in issues[i].message &&
               (issues[i].field.Some? ==> '\n' !in issues[i].field.value)
    ensures Split(ErrorMessage(issues), '\n') ==
            [ErrorHeading, " " + DiffLine(issues[0])] + DiffLines(issues)[1..]
  {
    var lines := DiffLines(issues);
    var indented := [" " + lines[0]] + lines[1..];
    forall i | 0 <= i < |issues| ensures '\n' !in lines[i] {
      DiffLineOneLine(issues[i]);
    }
    assert forall i :: 0 <= i < |indented| ==> '\n' !in indented[i] by {
      forall i | 0 <= i < |indented| ensures '\n' !in indented[i] {
        if i > 0 { assert indented[i] == lines[i]; }
      }
    }
    JoinPrefixFirst(" ", "\n", lines);
    SplitJoin(indented, '\n');
    HeadingThenIndent(ErrorHeading, Join("\n", lines));
    HeadingOneLine();
    SplitAtFirst(ErrorHeading, '\n', Join("\n", indented));
    assert Split(ErrorMessage(issues), '\n') == [ErrorHeading] + indented;
    ConsCons(ErrorHeading, " " + lines[0], lines[1..]);
  }

  // ---------------------------------------------------------------------------
  // The check.

  /** `diffModels`: the diff of the two schemas' models keyed by declared name. */
  method DiffModels(previousSchema: Schema, currentSchema: Schema) returns (d: Diff<Model>)
    ensures d == DiffOf(Models(previousSchema), Models(currentSchema))
  {
    var previousTables := ModelsFromSchema(previousSchema);
    var currentTables := ModelsFromSchema(currentSchema);
    d := DiffMaps(previousTables, currentTables);
  }

  /** The issues the policy raises when models are identified by declared name. */
  function SchemaIssues(previousSchema: Schema, currentSchema: Schema): seq<SafetyIssue>
  {
    Issues(DiffOf(Models(previousSchema), Models(currentSchema)), Models(currentSchema))
  }

  /**
   * `assertSafeSchemaChangeBasedOnSchemas`: fails with an error listing the
   * issues exactly when there is at least one, and passes otherwise.
   */
  method AssertSafeSchemaChangeBasedOnSchemas(previousSchema: Schema, currentSchema: Schema)
    returns (outcome: Outcome<UnsafeSchemaChangeError>)
    ensures outcome.Fail? <==> SchemaIssues(previousSchema, currentSchema) != []
    ensures outcome.Fail? ==>
              outcome.error == UnsafeSchemaChangeError(ErrorMessage(SchemaIssues(previousSchema, currentSchema)))
  {
    var currentTables := ModelsFromSchema(currentSchema);
    var tableChanges := DiffModels(previousSchema, currentSchema);
    var allIssues := CollectIssues(tableChanges, currentTables);
    if |allIssues| > 0 {
      return Fail(UnsafeSchemaChangeError(ErrorMessage(allIssues)));
    }
    return Pass;
  }

  /**
   * The check fails exactly when a declared model name vanished whose model
   * lacked `@@ignore`, or a model kept under its name lost a flagged field.
   */
  lemma FailsExactly(previousSchema: Schema, currentSchema: Schema)
    ensures SchemaIssues(previousSchema, currentSchema) != [] <==>
            (exists n :: n in Models(previousSchema).values && n !in Models(currentSchema).values &&
                         !IgnoredModel(Models(previousSchema).values[n])) ||
            (exists n, f :: n in Models(previousSchema).values && n in Models(currentSchema).values &&
                            UnsafeFieldRemoval(Models(previousSchema).values[n], Models(currentSchema).values[n], f,
                                               Models(currentSchema)))
  {
    NoIssuesExactly(Models(previousSchema), Models(currentSchema), Models(currentSchema));
  }

  /**
   * Renaming a model is a deletion: when no current model carries the
   * previous model's declared name, and the previous model stored under that
   * name lacked `@@ignore`, the check fails with that model's issue, whatever
   * `@@map` says.
   */
  lemma RenamedModelIsDeleted(previousSchema: Schema, currentSchema: Schema, n: string)
    requires n in Models(previousSchema).values && n !in Models(currentSchema).values
    requires !IgnoredModel(Models(previousSchema).values[n])
    ensures TableIssue(Models(previousSchema).values[n]) in SchemaIssues(previousSchema, currentSchema)
  {
    ModelLevelIssuesExactly(Models(previousSchema), Models(currentSchema), Models(currentSchema),
                            TableIssue(Models(previousSchema).values[n]));
  }
}
