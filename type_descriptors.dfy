/**
  The type descriptors computed for SQL expressions and the dialect-supplied
  collaborators the type computer consults: type equality, the conversion
  relation and the operator candidate tables.  Their implementations live in
  files outside this model, so they are parameters here and nothing is assumed
  about them beyond their signatures.
 */
module TypeDescriptors {
  import opened Wrappers

  /** The static type of a SQL value. */
  datatype TypeDescriptor =
    | Boolean
    | Integer
    | Real
    | Char(length: Option<int>)
    | Enum(members: seq<string>)
    | DateTime
    | Blob
    | Null
    | ArrayOf(element: TypeDescriptor)
    | Row(columns: seq<RowColumn>)

  /**
    One column of a row type.  The column's type is optional because the
    type computer stores whatever `computeType` gave for the column, and that
    may be "no type" even though the source asserts it is not.
   */
  datatype RowColumn = RowColumn(name: Option<string>, columnType: Option<TypeDescriptor>)

  /** The two conversion modes of `canConvert`. */
  datatype ConversionMode = Implicit | Explicit

  /** A binary operator signature: operand types and the result type. */
  datatype BinaryCandidate = BinaryCandidate(left: TypeDescriptor, right: TypeDescriptor, returnType: TypeDescriptor)

  /** A unary operator signature. */
  datatype UnaryCandidate = UnaryCandidate(operandType: TypeDescriptor, returnType: TypeDescriptor)

  /**
    The collaborators of the type computer, injected as data:
    `typesEqual` is `areTypesEqual`, `canConvert` is the conversion relation,
    and the two tables give, per operator symbol, its candidates in table order.
   */
  datatype Dialect = Dialect(
    typesEqual: (TypeDescriptor, TypeDescriptor) -> bool,
    canConvert: (TypeDescriptor, TypeDescriptor, ConversionMode) -> bool,
    binaryOperators: string -> seq<BinaryCandidate>,
    unaryOperators: string -> seq<UnaryCandidate>)
}
