/**
 * How the two variants of the check relate: they differ only in the key a
 * model is diffed under.
 */
module Variants {
  import opened SchemaAst
  import opened Extract
  import opened PrismaSafety
  import opened AssertSafeSchemaChange

  /** No model block of the schema yields a mapped table name. */
  predicate Unmapped(schema: Schema)
  {
    forall b :: 0 <= b < |schema.list| && schema.list[b].ModelBlock? ==>
      MappedTableName(schema.list[b].model).None?
  }

  /**
   * Without key-value `@@map` block attributes, the current variant lists
   * exactly the issues for which the older variant throws.
   */
  lemma VariantsAgreeWithoutMap(previousSchema: Schema, currentSchema: Schema)
    requires Unmapped(previousSchema) && Unmapped(currentSchema)
    ensures SafetyIssues(previousSchema, currentSchema) == SchemaIssues(previousSchema, currentSchema)
  {
    UnmappedTablesAreModels(previousSchema.list);
    UnmappedTablesAreModels(currentSchema.list);
  }
}
