/**
 * The abstract syntax tree that the Prisma schema parser hands to the
 * safety engine. Parsing itself is not modelled: a schema arrives as a value
 * of these types.
 */
module SchemaAst {

  /** A parsed schema file: its top-level blocks in source order. */
  datatype Schema = Schema(list: seq<Block>)

  /**
   * A top-level block. Only `model` blocks take part in the safety check;
   * enums, views, types, datasources, generators, comments and blank lines
   * are all `OtherBlock`.
   */
  datatype Block = ModelBlock(model: Model) | OtherBlock

  /** A `model` block: its declared name and its body in source order. */
  datatype Model = Model(name: string, properties: seq<Property>)

  /** One line of a model body. */
  datatype Property =
    | FieldProperty(field: Field)
    | AttributeProperty(attribute: Attribute)   // a block attribute: @@map, @@ignore, @@id, ...
    | CommentProperty(text: string)
    | BreakProperty

  /**
   * A field. Its type is either a plain type name (`String`, `Bar`; a list
   * type `Bar[]` also has the plain name `Bar`) or a function call such as
   * `Unsupported("circle")`. A field written without attributes has none.
   */
  datatype Field = Field(name: string, fieldType: FieldType, attributes: seq<Attribute>)

  datatype FieldType = TypeName(name: string) | FunctionType(name: string)

  /** An attribute (`@map(name: "x")`, `@@ignore`, ...) with its arguments. */
  datatype Attribute = Attribute(name: string, args: seq<AttributeArgument>)

  datatype AttributeArgument = AttributeArgument(value: ArgumentValue)

  /**
   * The value of an attribute argument: a `key: value` pair (`name: "t"`),
   * a bare literal (`"t"`), or anything else (an array, a function call).
   */
  datatype ArgumentValue =
    | KeyValue(key: string, value: string)
    | Literal(text: string)
    | OtherValue
}
