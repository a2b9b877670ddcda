/**
  The name-resolved syntax nodes the type computer reads.  Every link the
  upstream binder resolves is an `Option` holding the content of the
  declaration it points to, so the type computation recurses structurally.
 */
module SqlSyntax {
  import opened Wrappers
  import NumericLiterals

  /** Declared data types, as written in column definitions, casts and function signatures. */
  datatype DataType =
    | BooleanType
    | IntegerType
    | RealType
    | CharType(length: Option<int>)
    | EnumType(members: seq<string>)
    | DateTimeType
    | BlobType

  /** What a variable of `variable.column` is bound to: a table or a sub-query in FROM. */
  datatype SourceItem = TableSourceItem | SubQuerySourceItem

  /** The declarations a column-name link can point to. */
  datatype ColumnDeclaration =
    | ColumnDefinition(dataType: DataType)
    | ExpressionQuery(expr: Expr)
    | CteColumnName(name: string)

  /** A function declaration found through the global scope. */
  datatype FunctionDefinition = FunctionDefinition(returnType: DataType)

  /** Any node `computeType` may be given. */
  datatype Node =
    | ExpressionNode(expr: Expr)
    | DataTypeNode(dataType: DataType)
    | OtherNode

  /**
    A projected column of a query, as the column-enumeration collaborator
    lists it: the column's name, if it has one, and the node that gives its type.
   */
  datatype SelectColumn = SelectColumn(name: Option<string>, typedNode: Node)

  datatype Expr =
    | CastExpression(expr: Expr, target: DataType)
    | NumberLiteral(text: NumericLiterals.Lexeme)
    | NullLiteral
    | HexStringLiteral(hex: string)
      /** `variable.column`: both links as the binder left them. */
    | TableRelatedColumnExpression(variable: Option<SourceItem>, column: Option<ColumnDeclaration>)
      /**
        `(a, b, ...)`; `inMembershipTest` says that the list's container is a
        negatable expression whose operator is 'IN'.
       */
    | ParenthesisOrListExpression(items: seq<Expr>, inMembershipTest: bool)
    | UnaryExpression(operator: string, value: Expr)
    | StringLiteral(content: string)
    | BooleanLiteral(truth: bool)
    | ColumnNameExpression(column: Option<ColumnDeclaration>)
    | FunctionCall(callee: Option<FunctionDefinition>, arguments: seq<Expr>)
    | BinaryExpression(operator: string, left: Expr, right: Expr)
    | NegatableExpression(operator: string, negated: bool, left: Expr, right: Expr)
    | BetweenExpression(tested: Expr, lower: Expr, upper: Expr)
      /** A nested query, with its projected columns already enumerated. */
    | SubQueryExpression(columns: seq<SelectColumn>)
    | IdentifierAsStringLiteral(identifier: string)
}
