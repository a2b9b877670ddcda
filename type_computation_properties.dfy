/**
  What the type computer promises, case by case and across the recursion.
 */
module TypeComputationProperties {
  import opened Wrappers
  import opened TypeDescriptors
  import opened SqlSyntax
  import NumericLiterals
  import Operators
  import opened TypeComputation

  /**
    A row type has the projected columns' types in projection order: column
    `i` of the row holds what `computeType` gives for column `i`'s node.
   */
  lemma {:induction false} SelectRowColumns(d: Dialect, columns: seq<SelectColumn>)
    ensures var r := ComputeTypeOfSelectStatement(d, columns);
      r.Typed? ==> forall i | 0 <= i < |columns| ::
        && r.descriptor.columns[i].name == columns[i].name
        && r.descriptor.columns[i].columnType == ColumnTypeOf(ComputeType(d, columns[i].typedNode))
  {
    if |columns| > 0 {
      SelectRowColumns(d, columns[1..]);
      var r := ComputeTypeOfSelectStatement(d, columns);
      if r.Typed? {
        var rest := ComputeTypeOfSelectStatement(d, columns[1..]);
        assert ComputeTypeOfColumn(d, columns[0]) == ComputeType(d, columns[0].typedNode);
        assert r.descriptor.columns
          == [RowColumn(columns[0].name, ColumnTypeOf(ComputeTypeOfColumn(d, columns[0])))] + rest.descriptor.columns;
        forall i | 1 <= i < |columns|
          ensures r.descriptor.columns[i].columnType == ColumnTypeOf(ComputeType(d, columns[i].typedNode))
        {
          assert columns[1..][i - 1] == columns[i];
        }
      }
    }
  }

  /**
    Addressing a sub-query's projected expression through `variable.column`
    gives the type its row type records for that column.
   */
  lemma SubQueryColumnMatchesRowType(d: Dialect, columns: seq<SelectColumn>, i: nat, expr: Expr)
    requires i < |columns| && columns[i].typedNode == ExpressionNode(expr)
    requires ComputeTypeOfSelectStatement(d, columns).Typed?
    ensures ColumnTypeOf(ComputeTypeOfExpression(d, TableRelatedColumnExpression(Some(SubQuerySourceItem), Some(ExpressionQuery(expr)))))
      == ComputeTypeOfSelectStatement(d, columns).descriptor.columns[i].columnType
  {
    SelectRowColumns(d, columns);
  }

  /** A sub-query's type is the row type of its projection. */
  lemma SubQueryIsRowType(d: Dialect, columns: seq<SelectColumn>)
    ensures var r := ComputeTypeOfExpression(d, SubQueryExpression(columns));
      && !r.Untyped?
      && (r.Typed? ==> r.descriptor.Row? && |r.descriptor.columns| == |columns|)
      && r == ComputeTypeOfSelectStatement(d, columns)
  {
  }

  /**
    A cast has exactly the target data type's descriptor when its operand is
    typed and converts explicitly to that type, and no type otherwise.
   */
  lemma CastRule(d: Dialect, expr: Expr, target: DataType)
    ensures var r := ComputeTypeOfExpression(d, CastExpression(expr, target));
      var source := ComputeTypeOfExpression(d, expr);
      var t := ComputeTypeOfDataType(target);
      && (r.Typed? <==> source.Typed? && d.canConvert(source.descriptor, t, Explicit))
      && (r.Typed? ==> r.descriptor == t)
      && (r.Untyped? <==> source.Untyped? || (source.Typed? && !d.canConvert(source.descriptor, t, Explicit)))
  {
  }

  /**
    A parenthesised or list expression has its first item's type, wrapped
    in an array exactly when the list is the operand of an 'IN'; an empty
    list or an untyped first item gives no type.  Which operand of the 'IN'
    the list is does not matter.
   */
  lemma ListRule(d: Dialect, items: seq<Expr>, inMembershipTest: bool)
    ensures var r := ComputeTypeOfExpression(d, ParenthesisOrListExpression(items, inMembershipTest));
      && (|items| == 0 ==> r == Untyped)
      && (|items| > 0 ==>
        var first := ComputeTypeOfExpression(d, items[0]);
        && (first.Typed? && inMembershipTest ==> r == Typed(ArrayOf(first.descriptor)))
        && (!first.Typed? || !inMembershipTest ==> r == first))
  {
  }

  /**
    A unary expression is typed only when its operand is; its type is the
    return type of the first candidate whose operand type equals the
    operand's, with no conversion fallback.
   */
  lemma UnaryRule(d: Dialect, operator: string, value: Expr)
    ensures var r := ComputeTypeOfExpression(d, UnaryExpression(operator, value));
      var operand := ComputeTypeOfExpression(d, value);
      var cs := d.unaryOperators(operator);
      && (!operand.Typed? ==> r == operand)
      && (operand.Typed? ==>
        && (r.Untyped? <==> forall i | 0 <= i < |cs| :: !d.typesEqual(cs[i].operandType, operand.descriptor))
        && (r.Typed? ==> exists i | 0 <= i < |cs| ::
          && d.typesEqual(cs[i].operandType, operand.descriptor)
          && r.descriptor == cs[i].returnType
          && forall j | 0 <= j < i :: !d.typesEqual(cs[j].operandType, operand.descriptor)))
  {
    var operand := ComputeTypeOfExpression(d, value);
    if operand.Typed? {
      var t := Operators.ComputeTypeOfUnaryOperation(d, operator, operand.descriptor);
    }
  }

  /** Changing the conversion relation changes a unary expression's type only through its operand's. */
  lemma UnaryExpressionIgnoresConversion(
    d: Dialect, other: (TypeDescriptor, TypeDescriptor, ConversionMode) -> bool, operator: string, value: Expr)
    requires ComputeTypeOfExpression(d.(canConvert := other), value) == ComputeTypeOfExpression(d, value)
    ensures ComputeTypeOfExpression(d.(canConvert := other), UnaryExpression(operator, value))
      == ComputeTypeOfExpression(d, UnaryExpression(operator, value))
  {
    var operand := ComputeTypeOfExpression(d, value);
    if operand.Typed? {
      Operators.UnaryResolutionIgnoresConversion(d, other, d.unaryOperators(operator), operand.descriptor);
    }
  }

  /** Binary and negatable expressions, whose operand types are `left` and `right`. */
  predicate BinaryRuleHolds(d: Dialect, operator: string, left: Outcome, right: Outcome, r: Outcome) {
    var cs := d.binaryOperators(operator);
    && (r.NotImplemented? <==> left.NotImplemented? || right.NotImplemented?)
    && (r.Typed? ==> left.Typed? && right.Typed?)
    && (left.Typed? && right.Typed? ==>
      && (r.Untyped? <==> forall i | 0 <= i < |cs| :: !Operators.BinaryApplies(d, cs[i], left.descriptor, right.descriptor))
      && (r.Typed? ==> exists i | 0 <= i < |cs| ::
        && Operators.BinaryApplies(d, cs[i], left.descriptor, right.descriptor)
        && r.descriptor == cs[i].returnType
        && forall j | 0 <= j < i :: !Operators.BinaryApplies(d, cs[j], left.descriptor, right.descriptor)))
  }

  /** The rule, for operand outcomes `left` and `right`. */
  lemma BinaryOutcomeRule(d: Dialect, operator: string, left: Outcome, right: Outcome)
    ensures BinaryRuleHolds(d, operator, left, right, BinaryOutcome(d, operator, left, right))
  {
    if left.Typed? && right.Typed? {
      var t := Operators.ComputeTypeOfBinaryOperation(d, operator, left.descriptor, right.descriptor);
    }
  }

  /**
    A binary or negatable expression is typed only when both operands are;
    its type is the return type of the first candidate, in table order, that
    matches both operand types exactly or converts both implicitly, and no
    type when none does.
   */
  lemma BinaryRule(d: Dialect, operator: string, left: Expr, right: Expr)
    ensures BinaryRuleHolds(d, operator, ComputeTypeOfExpression(d, left), ComputeTypeOfExpression(d, right),
      ComputeTypeOfExpression(d, BinaryExpression(operator, left, right)))
  {
    var l, r := ComputeTypeOfExpression(d, left), ComputeTypeOfExpression(d, right);
    var e := BinaryExpression(operator, left, right);
    assert ComputeTypeOfExpression(d, e) == ComputeTypeOfBinary(d, e);
    assert ComputeTypeOfBinary(d, e) == BinaryOutcome(d, operator, l, r);
    BinaryOutcomeRule(d, operator, l, r);
  }

  /** A negatable expression is typed as the binary expression with the same operator and operands; negation plays no part. */
  lemma NegatableRule(d: Dialect, operator: string, negated: bool, left: Expr, right: Expr)
    ensures ComputeTypeOfExpression(d, NegatableExpression(operator, negated, left, right))
      == ComputeTypeOfExpression(d, BinaryExpression(operator, left, right))
  {
    var l, r := ComputeTypeOfExpression(d, left), ComputeTypeOfExpression(d, right);
    var n, e := NegatableExpression(operator, negated, left, right), BinaryExpression(operator, left, right);
    assert ComputeTypeOfExpression(d, n) == ComputeTypeOfBinary(d, n);
    assert ComputeTypeOfBinary(d, n) == BinaryOutcome(d, operator, l, r);
    assert ComputeTypeOfExpression(d, e) == ComputeTypeOfBinary(d, e);
    assert ComputeTypeOfBinary(d, e) == BinaryOutcome(d, operator, l, r);
  }

  /** Whether an operand that the computation of `e` visits has no type. */
  predicate HasUntypedOperand(d: Dialect, e: Expr) {
    match e
    case CastExpression(expr, _) => ComputeTypeOfExpression(d, expr).Untyped?
    case UnaryExpression(_, value) => ComputeTypeOfExpression(d, value).Untyped?
    case BinaryExpression(_, left, right) =>
      ComputeTypeOfExpression(d, left).Untyped? || ComputeTypeOfExpression(d, right).Untyped?
    case NegatableExpression(_, _, left, right) =>
      ComputeTypeOfExpression(d, left).Untyped? || ComputeTypeOfExpression(d, right).Untyped?
    case ParenthesisOrListExpression(items, _) => |items| == 0 || ComputeTypeOfExpression(d, items[0]).Untyped?
    case _ => false
  }

  /**
    No type is contagious: a cast, unary, binary, negatable or list
    expression one of whose visited operands has no type has no type
    itself, unless some operand raises the 'TODO' error.
   */
  lemma UntypedOperandPropagates(d: Dialect, e: Expr)
    requires !ReachesCteColumn(e)
    requires HasUntypedOperand(d, e)
    ensures ComputeTypeOfExpression(d, e) == Untyped
  {
  }

  /**
    `variable.column`: an unlinked variable gives no type; through a table
    it is the column definition's data type, through a sub-query the type of
    the projected expression; a column link of the wrong kind gives no type.
   */
  lemma TableRelatedColumnRule(d: Dialect, variable: Option<SourceItem>, column: Option<ColumnDeclaration>)
    ensures var r := ComputeTypeOfExpression(d, TableRelatedColumnExpression(variable, column));
      && (variable.None? ==> r == Untyped)
      && (variable == Some(TableSourceItem) ==>
        r == if column.Some? && column.value.ColumnDefinition?
             then Typed(ComputeTypeOfDataType(column.value.dataType)) else Untyped)
      && (variable == Some(SubQuerySourceItem) ==>
        r == if column.Some? && column.value.ExpressionQuery?
             then ComputeTypeOfExpression(d, column.value.expr) else Untyped)
  {
    var e := TableRelatedColumnExpression(variable, column);
    assert ComputeTypeOfExpression(d, e) == ComputeTypeOfTableRelatedColumn(d, e);
  }

  /**
    A bare column name: unlinked gives no type, a projected expression
    gives its type, a column definition its data type, and a CTE column name
    raises the 'TODO' error.
   */
  lemma ColumnNameRule(d: Dialect, column: Option<ColumnDeclaration>)
    ensures var r := ComputeTypeOfExpression(d, ColumnNameExpression(column));
      && (column.None? ==> r == Untyped)
      && (column.Some? && column.value.ExpressionQuery? ==> r == ComputeTypeOfExpression(d, column.value.expr))
      && (column.Some? && column.value.ColumnDefinition? ==> r == Typed(ComputeTypeOfDataType(column.value.dataType)))
      && (column.Some? && column.value.CteColumnName? ==> r == NotImplemented)
  {
    var e := ColumnNameExpression(column);
    assert ComputeTypeOfExpression(d, e) == ComputeTypeOfColumnName(d, e);
  }

  /** A resolved function call has its declared return type; an unresolved one has none. */
  lemma FunctionCallRule(d: Dialect, callee: Option<FunctionDefinition>, arguments: seq<Expr>)
    ensures var r := ComputeTypeOfExpression(d, FunctionCall(callee, arguments));
      && (callee.None? ==> r == Untyped)
      && (callee.Some? ==> r == Typed(ComputeTypeOfDataType(callee.value.returnType)))
  {
  }

  /**
    Fixed types: Null for the null literal, Integer for a hex string, Char
    without length for string literals and identifiers used as strings, and
    Boolean for boolean literals.
   */
  lemma LiteralRule(d: Dialect, hex: string, content: string, identifier: string, truth: bool)
    ensures ComputeTypeOfExpression(d, NullLiteral) == Typed(Null)
    ensures ComputeTypeOfExpression(d, HexStringLiteral(hex)) == Typed(Integer)
    ensures ComputeTypeOfExpression(d, StringLiteral(content)) == Typed(Char(None))
    ensures ComputeTypeOfExpression(d, IdentifierAsStringLiteral(identifier)) == Typed(Char(None))
    ensures ComputeTypeOfExpression(d, BooleanLiteral(truth)) == Typed(Boolean)
  {
  }

  /** BETWEEN is Boolean whatever its operands, even ones that would raise the 'TODO' error. */
  lemma BetweenRule(d: Dialect, tested: Expr, lower: Expr, upper: Expr)
    ensures ComputeTypeOfExpression(d, BetweenExpression(tested, lower, upper)) == Typed(Boolean)
  {
  }

  /** A numeric literal has the classifier's type, Integer or Real. */
  lemma NumberLiteralTyping(d: Dialect, text: NumericLiterals.Lexeme)
    ensures ComputeTypeOfExpression(d, NumberLiteral(text)) == Typed(NumericLiterals.ComputeTypeOfNumericLiteral(text))
    ensures ComputeTypeOfExpression(d, NumberLiteral(text)) in {Typed(Integer), Typed(Real)}
  {
    NumericLiterals.NumericLiteralRule(text);
  }

  /** Distinct declared data types have distinct descriptors. */
  lemma DataTypeMappingIsInjective(a: DataType, b: DataType)
    ensures ComputeTypeOfDataType(a) == ComputeTypeOfDataType(b) ==> a == b
  {
    assert DeclaredDataType(ComputeTypeOfDataType(a)) == Some(a);
    assert DeclaredDataType(ComputeTypeOfDataType(b)) == Some(b);
  }

  /** `computeType` on a node: expressions by kind, data types by declaration, anything else untyped. */
  lemma ComputeTypeRule(d: Dialect, n: Node)
    ensures n.ExpressionNode? ==> ComputeType(d, n) == ComputeTypeOfExpression(d, n.expr)
    ensures n.DataTypeNode? ==> ComputeType(d, n) == Typed(ComputeTypeOfDataType(n.dataType))
    ensures n.OtherNode? ==> ComputeType(d, n) == Untyped
  {
  }
}
