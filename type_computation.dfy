/**
  The type computer: recursive dispatch over expression nodes and data-type
  nodes, row types for sub-queries, and the outcome of each computation.
 */
module TypeComputation {
  import opened Wrappers
  import opened TypeDescriptors
  import opened SqlSyntax
  import NumericLiterals
  import Operators

  /**
    What a computation gives: a type, no type (`undefined`), or the
    'TODO' error the source throws for a column name that a common table
    expression exposes.  The error propagates out of every enclosing
    computation.
   */
  datatype Outcome = Typed(descriptor: TypeDescriptor) | Untyped | NotImplemented

  function FromOption(t: Option<TypeDescriptor>): Outcome {
    match t
    case Some(x) => Typed(x)
    case None => Untyped
  }

  /** The type stored for a row column: whatever was computed, `None` for no type. */
  function ColumnTypeOf(o: Outcome): Option<TypeDescriptor> {
    match o
    case Typed(t) => Some(t)
    case _ => None
  }

  /** The data-type node a descriptor stands for, if it stands for one: the inverse of `ComputeTypeOfDataType`. */
  function DeclaredDataType(t: TypeDescriptor): Option<DataType> {
    match t
    case Boolean => Some(BooleanType)
    case Integer => Some(IntegerType)
    case Real => Some(RealType)
    case Char(length) => Some(CharType(length))
    case Enum(members) => Some(EnumType(members))
    case DateTime => Some(DateTimeType)
    case Blob => Some(BlobType)
    case _ => None
  }

  /**
    `computeTypeOfDataType`: one descriptor per declared data type.  The
    mapping is one-to-one, keeps a Char length and an Enum member list as
    declared, and never gives Null, an array or a row.
   */
  function ComputeTypeOfDataType(dataType: DataType): (r: TypeDescriptor)
    ensures DeclaredDataType(r) == Some(dataType)
  {
    match dataType
    case BooleanType => Boolean
    case IntegerType => Integer
    case RealType => Real
    case CharType(length) => Char(length)
    case EnumType(members) => Enum(members)
    case DateTimeType => DateTime
    case BlobType => Blob
  }

  /**
    Whether computing the type of `e` follows a link to a CTE column name:
    the children a computation visits are the cast operand, the sub-query
    projection behind `variable.column`, the first list item, the unary
    operand, the expression behind a column name, both binary operands and
    every column of a sub-query.
   */
  predicate ReachesCteColumn(e: Expr)
    decreases e, 1
  {
    match e
    case CastExpression(expr, _) => ReachesCteColumn(expr)
    case TableRelatedColumnExpression(variable, column) =>
      variable == Some(SubQuerySourceItem) && column.Some? && column.value.ExpressionQuery?
      && ReachesCteColumn(column.value.expr)
    case ParenthesisOrListExpression(items, _) => |items| > 0 && ReachesCteColumn(items[0])
    case UnaryExpression(_, value) => ReachesCteColumn(value)
    case ColumnNameExpression(column) =>
      column.Some? && (column.value.CteColumnName? || (column.value.ExpressionQuery? && ReachesCteColumn(column.value.expr)))
    case BinaryExpression(_, left, right) => ReachesCteColumn(left) || ReachesCteColumn(right)
    case NegatableExpression(_, _, left, right) => ReachesCteColumn(left) || ReachesCteColumn(right)
    case SubQueryExpression(columns) => ColumnsReachCteColumn(columns)
    case _ => false
  }

  predicate NodeReachesCteColumn(n: Node)
    decreases n, 2
  {
    n.ExpressionNode? && ReachesCteColumn(n.expr)
  }

  predicate ColumnsReachCteColumn(columns: seq<SelectColumn>)
    decreases columns, 0
  {
    exists c | c in columns :: ColumnReachesCteColumn(c)
  }

  predicate ColumnReachesCteColumn(c: SelectColumn)
    decreases c, 3
  {
    NodeReachesCteColumn(c.typedNode)
  }

  /** `computeType`: expressions and data types have a type, every other node has none. */
  function ComputeType(d: Dialect, n: Node): (r: Outcome)
    ensures r.NotImplemented? <==> NodeReachesCteColumn(n)
    decreases n, 2
  {
    match n
    case ExpressionNode(e) => ComputeTypeOfExpression(d, e)
    case DataTypeNode(dataType) => Typed(ComputeTypeOfDataType(dataType))
    case OtherNode => Untyped
  }

  /**
    `computeTypeOfExpression`.  The 'TODO' error is raised exactly when the
    computation reaches a CTE column name.
   */
  function ComputeTypeOfExpression(d: Dialect, e: Expr): (r: Outcome)
    ensures r.NotImplemented? <==> ReachesCteColumn(e)
    decreases e, 1
  {
    match e
    case CastExpression(_, _) => ComputeTypeOfCast(d, e)
    case NumberLiteral(text) => Typed(NumericLiterals.ComputeTypeOfNumericLiteral(text))
    case NullLiteral => Typed(Null)
    case HexStringLiteral(_) => Typed(Integer)
    case TableRelatedColumnExpression(_, _) => ComputeTypeOfTableRelatedColumn(d, e)
    case ParenthesisOrListExpression(_, _) => ComputeTypeOfList(d, e)
    case UnaryExpression(_, _) => ComputeTypeOfUnary(d, e)
    case StringLiteral(_) => Typed(Char(None))
    case BooleanLiteral(_) => Typed(Boolean)
    case ColumnNameExpression(_) => ComputeTypeOfColumnName(d, e)
    case FunctionCall(callee, _) =>
      (match callee
       case Some(definition) => Typed(ComputeTypeOfDataType(definition.returnType))
       case None => Untyped)
    case BinaryExpression(_, _, _) => ComputeTypeOfBinary(d, e)
    case NegatableExpression(_, _, _, _) => ComputeTypeOfBinary(d, e)
    case BetweenExpression(_, _, _) => Typed(Boolean)
    case SubQueryExpression(columns) => ComputeTypeOfSelectStatement(d, columns)
    case IdentifierAsStringLiteral(_) => Typed(Char(None))
  }

  /** A cast: the operand is computed first and must convert explicitly to the target. */
  function ComputeTypeOfCast(d: Dialect, e: Expr): (r: Outcome)
    requires e.CastExpression?
    ensures r.NotImplemented? <==> ReachesCteColumn(e)
    decreases e, 0
  {
    CastOutcome(d, ComputeTypeOfExpression(d, e.expr), e.target)
  }

  /** A parenthesised or list expression: only its first item is computed. */
  function ComputeTypeOfList(d: Dialect, e: Expr): (r: Outcome)
    requires e.ParenthesisOrListExpression?
    ensures r.NotImplemented? <==> ReachesCteColumn(e)
    decreases e, 0
  {
    if |e.items| == 0 then Untyped
    else ListOutcome(ComputeTypeOfExpression(d, e.items[0]), e.inMembershipTest)
  }

  /** A unary expression: the operand is computed, then the operator resolved against it. */
  function ComputeTypeOfUnary(d: Dialect, e: Expr): (r: Outcome)
    requires e.UnaryExpression?
    ensures r.NotImplemented? <==> ReachesCteColumn(e)
    decreases e, 0
  {
    UnaryOutcome(d, e.operator, ComputeTypeOfExpression(d, e.value))
  }

  /** Binary and negatable expressions share one rule; the negation flag plays no part in the type. */
  function ComputeTypeOfBinary(d: Dialect, e: Expr): (r: Outcome)
    requires e.BinaryExpression? || e.NegatableExpression?
    ensures r.NotImplemented? <==> ReachesCteColumn(e)
    decreases e, 0
  {
    assert ReachesCteColumn(e) <==> ReachesCteColumn(e.left) || ReachesCteColumn(e.right);
    BinaryOutcome(d, e.operator, ComputeTypeOfExpression(d, e.left), ComputeTypeOfExpression(d, e.right))
  }

  /**
    A column reached through a table variable: a table's column has its
    declared type, a sub-query's column the type of its expression.
   */
  function ComputeTypeOfTableRelatedColumn(d: Dialect, e: Expr): (r: Outcome)
    requires e.TableRelatedColumnExpression?
    ensures r.NotImplemented? <==> ReachesCteColumn(e)
    decreases e, 0
  {
    match e.variable
    case None => Untyped
    case Some(TableSourceItem) =>
      (match e.column
       case Some(ColumnDefinition(dataType)) => Typed(ComputeTypeOfDataType(dataType))
       case _ => Untyped)
    case Some(SubQuerySourceItem) =>
      (match e.column
       case Some(ExpressionQuery(expr)) => ComputeTypeOfExpression(d, expr)
       case _ => Untyped)
  }

  /** A column named on its own: the column's expression, its declared type, or the 'TODO' error for a CTE column. */
  function ComputeTypeOfColumnName(d: Dialect, e: Expr): (r: Outcome)
    requires e.ColumnNameExpression?
    ensures r.NotImplemented? <==> ReachesCteColumn(e)
    decreases e, 0
  {
    match e.column
    case None => Untyped
    case Some(ExpressionQuery(expr)) => ComputeTypeOfExpression(d, expr)
    case Some(ColumnDefinition(dataType)) => Typed(ComputeTypeOfDataType(dataType))
    case Some(CteColumnName(_)) => NotImplemented
  }

  /** A cast whose operand gave `source`. */
  function CastOutcome(d: Dialect, source: Outcome, target: DataType): (r: Outcome)
    ensures r.NotImplemented? <==> source.NotImplemented?
    ensures source.Untyped? ==> r == Untyped
    ensures r.Typed? <==> source.Typed? && d.canConvert(source.descriptor, ComputeTypeOfDataType(target), Explicit)
    ensures r.Typed? ==> r.descriptor == ComputeTypeOfDataType(target)
  {
    match source
    case Typed(s) =>
      var t := ComputeTypeOfDataType(target);
      if d.canConvert(s, t, Explicit) then Typed(t) else Untyped
    case other => other
  }

  /** A parenthesised or list expression whose first item gave `first`. */
  function ListOutcome(first: Outcome, inMembershipTest: bool): (r: Outcome)
    ensures r.NotImplemented? <==> first.NotImplemented?
    ensures !first.Typed? ==> r == first
    ensures first.Typed? ==> r == Typed(if inMembershipTest then ArrayOf(first.descriptor) else first.descriptor)
  {
    match first
    case Typed(t) => if inMembershipTest then Typed(ArrayOf(t)) else Typed(t)
    case other => other
  }

  /** A unary expression whose operand gave `operand`. */
  function UnaryOutcome(d: Dialect, operator: string, operand: Outcome): (r: Outcome)
    ensures r.NotImplemented? <==> operand.NotImplemented?
  {
    match operand
    case Typed(t) => FromOption(Operators.ComputeTypeOfUnaryOperation(d, operator, t))
    case other => other
  }

  /**
    A binary or negatable expression whose operands gave `left` and `right`
    (both are computed, left first, before either is inspected).
   */
  function BinaryOutcome(d: Dialect, operator: string, left: Outcome, right: Outcome): (r: Outcome)
    ensures r.NotImplemented? <==> left.NotImplemented? || right.NotImplemented?
    ensures r.Typed? ==> left.Typed? && right.Typed?
  {
    if left.NotImplemented? || right.NotImplemented? then NotImplemented
    else if left.Typed? && right.Typed? then
      FromOption(Operators.ComputeTypeOfBinaryOperation(d, operator, left.descriptor, right.descriptor))
    else Untyped
  }

  /** The computed type of one projected column's node. */
  function ComputeTypeOfColumn(d: Dialect, c: SelectColumn): (r: Outcome)
    ensures r.NotImplemented? <==> ColumnReachesCteColumn(c)
    decreases c, 3
  {
    ComputeType(d, c.typedNode)
  }

  /**
    `computeTypeOfSelectStatement`: the row type of a query, one column per
    projected column in projection order, each named as projected and typed
    by `computeType` of its node.
   */
  function ComputeTypeOfSelectStatement(d: Dialect, columns: seq<SelectColumn>): (r: Outcome)
    ensures !r.Untyped?
    ensures r.NotImplemented? <==> ColumnsReachCteColumn(columns)
    ensures r.Typed? ==> r.descriptor.Row? && |r.descriptor.columns| == |columns|
    ensures r.Typed? ==> forall i | 0 <= i < |columns| :: r.descriptor.columns[i].name == columns[i].name
    decreases columns, 0
  {
    if |columns| == 0 then Typed(Row([]))
    else
      assert columns[0] in columns;
      match ComputeTypeOfColumn(d, columns[0])
      case NotImplemented => NotImplemented
      case first =>
        var rest := ComputeTypeOfSelectStatement(d, columns[1..]);
        if rest.NotImplemented? then NotImplemented
        else Typed(Row([RowColumn(columns[0].name, ColumnTypeOf(first))] + rest.descriptor.columns))
  }
}
