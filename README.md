# prisma-safety, modelled in Dafny

prisma-safety compares two versions of a Prisma schema and reports the
changes that are unsafe to deploy while old code may still be running:

- a model (table) that disappears must have been marked `@@ignore` first;
- a field that disappears from a model that is still there must have been
  marked `@ignore` first, unless its type is a model that the current schema
  still declares (a relation field, which has no column of its own).

The repository has two variants of the check:

- `src/prisma-safety.ts` (current). It identifies a model by the table it
  maps to, or else by its declared name. Only the first `@@map` block
  attribute is read, and only its first argument, and only when that
  argument is a key-value pair (`@@map(name: "t")`), whatever its key. The
  positional spelling `@@map("t")` therefore falls back to the declared name
  (src/prisma-safety.ts:143-150: `value` is read off the argument as if it
  were a key-value pair). It returns the list of issues and can render them
  one per line.
- `src/assert-safe-schema-change.ts` (older). It identifies a model by its
  declared name and throws an `UnsafeSchemaChangeError` when any issue
  exists.

The model works on the abstract syntax the schema parser produces. A schema
is a list of blocks. A model is a name and a list of properties: fields,
block attributes, comments and line breaks. A field has a name, a type and
its own attributes.

A JavaScript `Map` becomes an `OrderedMap`: the keys in insertion order plus
the key/value mapping. `set` keeps an existing key's position and replaces
its value.

Every loop of the source is a method. Each method is proved equal to a
recursive specification function. The policy's properties are lemmas about
those functions. The modules follow the source:

| module | file | what it holds |
|---|---|---|
| `Wrappers` | wrappers.dfy | `Option`, and `Outcome` for a call that can throw |
| `SchemaAst` | schema_ast.dfy | the abstract syntax of a schema |
| `OrderedMaps` | ordered_maps.dfy | `Map` with insertion order |
| `Text` | text.dfy | `join` and a line splitter used to read rendered text back |
| `Sequences` | sequences.dfy | `Array.prototype.flatMap` |
| `Extract` | extract.dfy | models and fields by name, block attributes, `find` by name |
| `SchemaDiff` | schema_diff.dfy | `diffMaps` and `diffModelFields` |
| `SafetyPolicy` | safety_policy.dfy | the two passes shared by both variants, and what they report |
| `PrismaSafety` | prisma_safety.dfy | table identity through `@@map`, `listSafetyIssuesBasedOnSchemas`, `renderSafetyIssues` |
| `AssertSafeSchemaChange` | assert_safe_schema_change.dfy | declared-name identity, `assertSafeSchemaChangeBasedOnSchemas`, the error message |
| `Variants` | variants.dfy | where the two variants agree |
| `Scenarios` | scenarios.dfy | the repository's test schemas, with their exact results |

Both source files contain the same code for several functions:
`diffMaps`, `fieldsFromModel`, `diffModelFields`, `attributesFromModel` and
the body of the two passes. That code is modelled once. The older variant's
`tablesFromSchema` (src/assert-safe-schema-change.ts:134-143) is the same loop
as the current variant's `modelsFromSchema`, so both are
`Extract.ModelsFromSchema`. Each table row below cites one file. The same
lines in the other file are: `diffMaps` 185-220, `fieldsFromModel` 164-173,
`diffModelFields` 175-183, `attributesFromModel` 222-233, and the passes
67-127 of src/assert-safe-schema-change.ts.

## Model

| member | source | states |
|---|---|---|
| OrderedMaps.OrderedMap.Set | src/prisma-safety.ts:176-185 | `Map.set` keeps each key once; a new key goes last, and an existing key keeps its position with its value replaced |
| Sequences.FlatMapHas | src/prisma-safety.ts:74-89 | an element is in a `flatMap` result exactly when some input element's callback yields it |
| Sequences.FlatMapAppend | src/prisma-safety.ts:102-133 | `flatMap` of a concatenation is the concatenation of the two `flatMap`s, so results keep input order |
| Text.SplitJoin | src/prisma-safety.ts:21-30 | newline-free lines joined with `\n` split back into exactly those lines |
| Extract.Index | src/prisma-safety.ts:176-185 | the map built from a schema's model blocks lists each key once, and each model is stored under its own key |
| Extract.IndexHas | src/prisma-safety.ts:176-185 | a key is present exactly when some model block has that key |
| Extract.IndexLastWins | src/prisma-safety.ts:161-174 | when several models share a key, the last one declared is the one stored |
| Extract.IndexKeysInFirstOccurrenceOrder | src/prisma-safety.ts:176-185 | keys are listed in the order of the first model block that has them |
| Extract.ModelsFromSchema | src/prisma-safety.ts:176-185 | the loop builds the models-by-declared-name map |
| Extract.FieldIndex | src/prisma-safety.ts:206-215 | the field map lists each name once, and each field is stored under its own name |
| Extract.FieldIndexHas | src/prisma-safety.ts:206-215 | a name is present exactly when the model body declares a field of that name; comments and attributes are not fields |
| Extract.FieldIndexLastWins | src/prisma-safety.ts:206-215 | the value stored under a name is the declared field object itself, the last one when several fields share the name |
| Extract.FieldIndexDeclared | src/prisma-safety.ts:206-215 | every stored value is a field the model body declares |
| Extract.FieldIndexKeysInFirstOccurrenceOrder | src/prisma-safety.ts:206-215 | field names are listed in the order of their first declaration in the body |
| Extract.FieldsFromModel | src/prisma-safety.ts:206-215 | the loop builds the fields-by-name map |
| Extract.BlockAttributes | src/prisma-safety.ts:264-275 | an attribute is collected exactly when it is a block-attribute property of the model |
| Extract.BlockAttributesOne | src/prisma-safety.ts:264-275 | a block-attribute property contributes its attribute, any other property nothing |
| Extract.BlockAttributesAppend | src/prisma-safety.ts:264-275 | the attributes of a concatenated body are those of each part, in order and with repeats |
| Extract.AttributesFromModel | src/prisma-safety.ts:264-275 | the loop collects the block attributes in order |
| Extract.FindAttribute | src/prisma-safety.ts:77-79 | `find` by name: nothing exactly when no attribute has the name, else the first attribute with that name |
| SchemaDiff.DiffPartition | src/prisma-safety.ts:227-262 | deleted keys are the previous keys missing now, remaining keys are those in both, added keys are the new ones; each key is in exactly one part |
| SchemaDiff.DiffEntriesByKey | src/prisma-safety.ts:227-262 | each deleted or added entry is the value under its key; each remaining pair holds the previous and the current value of one key |
| SchemaDiff.DeletedEntry | src/prisma-safety.ts:237-248 | each deleted entry is the previous value of a key the current map lacks |
| SchemaDiff.DeletedIndex | src/prisma-safety.ts:237-248 | each previous value whose key the current map lacks is a deleted entry |
| SchemaDiff.RemainingEntry | src/prisma-safety.ts:237-248 | each remaining pair holds the two values of a key both maps have |
| SchemaDiff.RemainingIndex | src/prisma-safety.ts:237-248 | each key both maps have gives a remaining pair |
| SchemaDiff.DiffKeepsKeyOrder | src/prisma-safety.ts:227-262 | deleted and remaining follow the previous map's key order; added follows the current map's key order |
| SchemaDiff.DiffSizes | src/prisma-safety.ts:227-262 | deleted + remaining count the previous keys; remaining + added count the current keys |
| SchemaDiff.DiffMaps | src/prisma-safety.ts:227-262 | the two loops build exactly the reference diff, with the sizes above |
| SchemaDiff.AddedValues | src/prisma-safety.ts:250-255 | the second loop collects the current values of the leftover keys, in order |
| SchemaDiff.DiffModelFields | src/prisma-safety.ts:217-225 | the field-level diff of two versions of a model is the diff of their field maps |
| SafetyPolicy.NonEmpty | src/prisma-safety.ts:25-26 | `filter(Boolean)` keeps exactly the non-empty strings |
| SafetyPolicy.NonEmptyOne | src/prisma-safety.ts:25-26 | one string is kept exactly when it is non-empty |
| SafetyPolicy.NonEmptyAppend | src/prisma-safety.ts:25-26 | `filter` keeps the order and the repeats: it distributes over concatenation |
| SafetyPolicy.Label | src/prisma-safety.ts:25-27 | the label is `model` for a model-level issue and `model.field` for a field-level one |
| SafetyPolicy.LabelOneLine | src/prisma-safety.ts:25-27 | a label built from newline-free names has no newline |
| SafetyPolicy.DeletedModelsPass | src/prisma-safety.ts:73-90 | the first pass over deleted models gives the reference model issues |
| SafetyPolicy.RemainingModelsPass | src/prisma-safety.ts:102-133 | the second pass over retained pairs gives the reference field issues |
| SafetyPolicy.CollectIssues | src/prisma-safety.ts:65-136 | `allIssues` is the first pass's issues followed by the second pass's |
| SafetyPolicy.DeletedModelContributes | src/prisma-safety.ts:74-89 | a deleted model adds one issue with its name exactly when it lacks `@@ignore`, in its position |
| SafetyPolicy.DeletedFieldContributes | src/prisma-safety.ts:109-128 | a deleted field adds one issue (current model name, field name) exactly when it is neither a relation nor `@ignore`d, in its position |
| SafetyPolicy.ModelIssuesHas | src/prisma-safety.ts:74-89 | the model issues are exactly the table issues of the deleted models without `@@ignore` |
| SafetyPolicy.FieldIssuesHas | src/prisma-safety.ts:109-128 | a model's field issues are exactly the issues of its flagged deleted fields |
| SafetyPolicy.RemainingIssuesHas | src/prisma-safety.ts:102-133 | the second pass's issues are exactly those of some retained pair |
| SafetyPolicy.ModelIssuesNameNoField | src/prisma-safety.ts:81-85 | first-pass issues carry no field |
| SafetyPolicy.RemainingIssuesNameFields | src/prisma-safety.ts:118-123 | second-pass issues always carry a field |
| SafetyPolicy.ModelIssuesPrecedeFieldIssues | src/prisma-safety.ts:73-133 | no model-level issue comes after a field-level issue |
| SafetyPolicy.PairIssuesHas | src/prisma-safety.ts:103-132 | a retained pair's issues are exactly its unsafe field removals: a field name gone from the model whose previous field is flagged |
| SafetyPolicy.RelationFieldNeverFlagged | src/prisma-safety.ts:92-126 | a field deleted from a retained model whose type names a model of the current schema raises no issue, whatever its attributes |
| SafetyPolicy.KeptFieldNamesRaiseNothing | src/prisma-safety.ts:103-132 | a retained model that keeps every field name raises nothing, whatever the order or attributes |
| SafetyPolicy.ModelLevelIssuesExactly | src/prisma-safety.ts:72-90 | a model-level issue is raised exactly for each vanished key whose model lacked `@@ignore` |
| SafetyPolicy.FieldLevelIssuesExactly | src/prisma-safety.ts:92-133 | a field-level issue is raised exactly for each unsafe field removal under a key in both schemas, under the current model's name |
| SafetyPolicy.NoIssuesExactly | src/prisma-safety.ts:65-136 | no issue exactly when every vanished model was `@@ignore`d and no retained model lost a flagged field |
| PrismaSafety.MappedTableName | src/prisma-safety.ts:138-151 | a mapped table name exists only if the model has a `map` block attribute |
| PrismaSafety.UnmappedModelKeepsName | src/prisma-safety.ts:138-151 | without `@@map`, a model is keyed by its declared name |
| PrismaSafety.FirstMapDecides | src/prisma-safety.ts:138-151 | only the first `@@map` counts: a key-value first argument gives the table name, anything else falls back to the declared name |
| PrismaSafety.TablesFromSchema | src/prisma-safety.ts:161-174 | the loop builds the models-by-table-name map |
| PrismaSafety.Tables | src/prisma-safety.ts:161-174 | the table map lists each table once |
| PrismaSafety.DiffModels | src/prisma-safety.ts:196-204 | the model diff is the diff of the two table maps |
| PrismaSafety.ListSafetyIssuesBasedOnSchemas | src/prisma-safety.ts:65-136 | the result is the policy applied to the table diff and the current models by declared name |
| PrismaSafety.DroppedTableIssues | src/prisma-safety.ts:72-90 | a model-level issue is listed exactly for each table no current model maps to, when its model lacked `@@ignore` |
| PrismaSafety.DroppedFieldIssues | src/prisma-safety.ts:92-133 | a field-level issue is listed exactly for each unsafe field removal from a table both schemas have |
| PrismaSafety.SafeExactly | src/prisma-safety.ts:65-136 | nothing is listed exactly when dropped tables were `@@ignore`d and kept tables lost no flagged field |
| PrismaSafety.MappedRenameKeepsPair | src/prisma-safety.ts:153-174 | a model renamed under the same `@@map` table is diffed as a retained pair, and all its field issues are listed |
| PrismaSafety.UnmappedTablesAreModels | src/prisma-safety.ts:161-185 | with no mapped table names, the table map equals the models-by-name map |
| PrismaSafety.IssueLines | src/prisma-safety.ts:22-28 | one rendered line per issue, in order |
| PrismaSafety.RenderSafetyIssues | src/prisma-safety.ts:21-30 | no issue renders as the empty string; one issue renders as its line |
| PrismaSafety.IssueLineOneLine | src/prisma-safety.ts:25-27 | an issue with newline-free text renders to one line |
| PrismaSafety.RenderSplitsIntoIssueLines | src/prisma-safety.ts:21-30 | the rendered text splits at newlines into exactly one line per issue, in order |
| AssertSafeSchemaChange.DiffLines | src/assert-safe-schema-change.ts:17-24 | one message line per issue, in order |
| AssertSafeSchemaChange.DiffLineOneLine | src/assert-safe-schema-change.ts:20-22 | an issue with newline-free text gives one line |
| AssertSafeSchemaChange.ErrorMessageLines | src/assert-safe-schema-change.ts:14-27 | the error message reads back as the heading, then one line per issue with the first indented by a space |
| AssertSafeSchemaChange.DiffModels | src/assert-safe-schema-change.ts:154-162 | the model diff is the diff of the two models-by-name maps |
| AssertSafeSchemaChange.AssertSafeSchemaChangeBasedOnSchemas | src/assert-safe-schema-change.ts:59-132 | the check fails exactly when the policy finds an issue, with an error whose message lists those issues |
| AssertSafeSchemaChange.FailsExactly | src/assert-safe-schema-change.ts:59-132 | the check fails exactly when a declared model name vanished without `@@ignore` or a kept model lost a flagged field |
| AssertSafeSchemaChange.RenamedModelIsDeleted | src/assert-safe-schema-change.ts:134-143 | a model whose declared name vanished is reported as deleted, whatever its `@@map` |
| Variants.VariantsAgreeWithoutMap | src/prisma-safety.ts:161-174 | without mapped table names, both variants find the same issues |
| Scenarios.DeletedFieldWithoutIgnore | src/assert-safe-schema-change.spec.ts:12-23 | deleting a field without `@ignore` raises exactly one issue, for `Foo.bar` |
| Scenarios.RenamedFieldWithoutIgnore | src/assert-safe-schema-change.spec.ts:25-37 | renaming a field raises exactly one issue for the old name; the new field's `@ignore` does not help |
| Scenarios.DeletedModelWithoutIgnore | src/assert-safe-schema-change.spec.ts:39-58 | deleting model `Bar` without `@@ignore` raises exactly one issue, for `Bar` |
| Scenarios.DeletedIgnoredField | src/assert-safe-schema-change.spec.ts:62-73 | deleting an `@ignore`d field raises nothing |
| Scenarios.MovedField | src/assert-safe-schema-change.spec.ts:75-87 | reordering fields raises nothing |
| Scenarios.RenamedIgnoredField | src/assert-safe-schema-change.spec.ts:89-101 | renaming an `@ignore`d field raises nothing |
| Scenarios.DeletedRelations | src/assert-safe-schema-change.spec.ts:103-127 | deleting both ends of a relation raises nothing |
| Scenarios.ChangedComment | src/assert-safe-schema-change.spec.ts:129-147 | changing a comment raises nothing |
| Scenarios.DeletedIgnoredModel | src/assert-safe-schema-change.spec.ts:149-169 | deleting an `@@ignore`d model raises nothing |
| Scenarios.MappedRenameByName | src/assert-safe-schema-change.ts:134-143 | renaming a model that keeps `@@map(name: "foo")` is a deletion when models are keyed by declared name |
| Scenarios.ListsDeletedFieldWithoutIgnore | src/prisma-safety.test.ts:8-17 | exactly one issue, for `Foo.bar` |
| Scenarios.ListsRenamedFieldWithoutIgnore | src/prisma-safety.test.ts:19-29 | exactly one issue, for `Foo.bar` |
| Scenarios.ListsDeletedModelWithoutIgnore | src/prisma-safety.test.ts:31-48 | exactly one issue, for `Bar` |
| Scenarios.ListsNothingForDeletedIgnoredField | src/prisma-safety.test.ts:52-61 | no issue |
| Scenarios.ListsNothingForMovedField | src/prisma-safety.test.ts:63-73 | no issue |
| Scenarios.ListsNothingForRenamedIgnoredField | src/prisma-safety.test.ts:75-85 | no issue |
| Scenarios.ListsNothingForDeletedRelations | src/prisma-safety.test.ts:87-109 | no issue |
| Scenarios.ListsNothingForChangedComment | src/prisma-safety.test.ts:111-127 | no issue |
| Scenarios.ListsNothingForDeletedIgnoredModel | src/prisma-safety.test.ts:129-147 | no issue |
| Scenarios.ListsNothingForMappedRename | src/prisma-safety.ts:153-174 | renaming a model that keeps `@@map(name: "foo")` lists no issue when models are keyed by table |

## Left out

- Reading schemas from files and from `git show` is I/O and not modelled. This covers `listSafetyIssuesBasedOnSha`, `listSafetyIssuesBasedOnSchemaPaths` and `assertSafeSchemaChange`. It also covers the SHA clean-up and the stderr check. The model starts from two parsed schemas.
- The schema parser (`getSchema` of `@mrleebo/prisma-ast`) is not part of this model. Schemas are given as its abstract syntax.
- src/cli.ts and src/prisma-config.ts are not part of this model. They handle command-line arguments and locate the config file.
- Attribute arguments are modelled only as key-value pairs with string values, as positional literals, or as "other". `getMappedTableName` returns the value of a key-value first argument whatever its type; only string values are modelled.
- Field type modifiers (optional `?`, list `[]`) are not modelled. `Foo[]` is the plain type name `Foo`, which is what `isFieldARelation` looks up.
- `attributes?` and `args?` being undefined is modelled as an empty list. The outcome is the same.
- The `if (current)` and `if (model)` tests in `diffMaps` are modelled as key membership. Parsed models and fields are objects, so they are always truthy.
- `new Set(currentMap.keys())` and `Set.delete` are modelled as a key sequence that is filtered. Iteration order is the same.
- The thrown `UnsafeSchemaChangeError` is modelled as an `Outcome` value carrying the message. The error's JavaScript name and stack are not modelled.
- SafetyPolicy.Label: the contract covers only non-empty model and field names. An empty name is dropped by `filter(Boolean)` in the body, but the contract does not state that case.
- PrismaSafety.RenderSafetyIssues: its own contract covers only zero and one issue. The general case is stated by RenderSplitsIntoIssueLines.
- RenderSplitsIntoIssueLines and ErrorMessageLines require that no name or message contains a newline. Otherwise a line would split.
