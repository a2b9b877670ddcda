/**
  Worked scenarios over a small sample dialect: structural
  type equality, Integer widening implicitly to Real, Null converting
  implicitly to everything, and Char converting explicitly to Integer, Real
  and DateTime.
 */
module Scenarios {
  import opened Wrappers
  import opened TypeDescriptors
  import opened SqlSyntax
  import NumericLiterals
  import Operators
  import opened TypeComputation
  import opened TypeComputationProperties

  function SampleConversion(source: TypeDescriptor, target: TypeDescriptor, mode: ConversionMode): bool {
    || source == target
    || source == Null
    || (source == Integer && target == Real)
    || (mode == Explicit && source.Char? && (target == Integer || target == Real || target == DateTime))
  }

  /** The sample dialect; `plus` is the candidate table of '+', and unary '-' takes Real only. */
  function SampleDialect(plus: seq<BinaryCandidate>): Dialect {
    Dialect(
      (a, b) => a == b,
      SampleConversion,
      operator => if operator == "+" then plus else [],
      operator => if operator == "-" then [UnaryCandidate(Real, Real)] else [])
  }

  /** The '+' table of the scenarios below: exact Integer addition first, then Real addition. */
  function PlusTable(): seq<BinaryCandidate> {
    [BinaryCandidate(Integer, Integer, Integer), BinaryCandidate(Real, Real, Real)]
  }

  /** Integer + Integer matches the first candidate exactly. */
  lemma PlusOnIntegers()
    ensures Operators.ComputeTypeOfBinaryOperation(SampleDialect(PlusTable()), "+", Integer, Integer) == Some(Integer)
  {
  }

  /** Integer + Real misses the first candidate and reaches the second by widening the Integer. */
  lemma PlusWidensInteger()
    ensures Operators.ComputeTypeOfBinaryOperation(SampleDialect(PlusTable()), "+", Integer, Real) == Some(Real)
  {
  }

  /** Boolean + Real matches no candidate: Boolean converts to neither Integer nor Real. */
  lemma PlusRejectsBoolean()
    ensures Operators.ComputeTypeOfBinaryOperation(SampleDialect(PlusTable()), "+", Boolean, Real) == None
  {
  }

  /**
    With the two candidates the other way round, Integer + Integer is Real:
    the earlier candidate applies by widening before the later exact one is
    looked at.
   */
  lemma EarlierWideningShadowsLaterExactMatch()
    ensures var d := SampleDialect([BinaryCandidate(Real, Real, Real), BinaryCandidate(Integer, Integer, Integer)]);
      Operators.ComputeTypeOfBinaryOperation(d, "+", Integer, Integer) == Some(Real)
  {
  }

  /** Unary '-' on an Integer has no type, though Integer widens to Real. */
  lemma UnaryHasNoConversionFallback()
    ensures SampleConversion(Integer, Real, Implicit)
    ensures Operators.ComputeTypeOfUnaryOperation(SampleDialect([]), "-", Integer) == None
    ensures Operators.ComputeTypeOfUnaryOperation(SampleDialect([]), "-", Real) == Some(Real)
  {
  }

  /** Casting a string to Boolean is rejected; casting it to DateTime is not. */
  lemma CastRejection()
    ensures ComputeTypeOfExpression(SampleDialect([]), CastExpression(StringLiteral("yes"), BooleanType)) == Untyped
    ensures ComputeTypeOfExpression(SampleDialect([]), CastExpression(StringLiteral("2023-01-01"), DateTimeType)) == Typed(DateTime)
  {
  }

  /** "1" is a numeric literal lexeme classified as Integer. */
  lemma OneIsIntegerLiteral()
    ensures NumericLiterals.Parse("1").Some?
    ensures NumericLiterals.ComputeTypeOfNumericLiteral("1") == Integer
  {
    var x := NumericLiterals.NumericLexeme("1", None, None);
    assert NumericLiterals.Render(x) == "1";
    NumericLiterals.ClassifyRendered(x);
  }

  /** `(1, 2, 1)` is an array of Integer as the operand of IN, and plain Integer elsewhere. */
  lemma MembershipList(d: Dialect)
    ensures NumericLiterals.Parse("1").Some? && NumericLiterals.Parse("2").Some?
    ensures var items := [NumberLiteral("1"), NumberLiteral("2"), NumberLiteral("1")];
      && ComputeTypeOfExpression(d, ParenthesisOrListExpression(items, true)) == Typed(ArrayOf(Integer))
      && ComputeTypeOfExpression(d, ParenthesisOrListExpression(items, false)) == Typed(Integer)
  {
    OneIsIntegerLiteral();
    var x := NumericLiterals.NumericLexeme("2", None, None);
    assert NumericLiterals.Render(x) == "2";
    NumericLiterals.ParseRender(x);
  }

  /** An unresolved column name inside a binary expression leaves the whole expression untyped. */
  lemma UnresolvedReferenceInBinary(plus: seq<BinaryCandidate>)
    ensures NumericLiterals.Parse("1").Some?
    ensures ComputeTypeOfExpression(SampleDialect(plus), BinaryExpression("+", ColumnNameExpression(None), NumberLiteral("1"))) == Untyped
    ensures ComputeTypeOfExpression(SampleDialect(plus), BinaryExpression("+", NumberLiteral("1"), ColumnNameExpression(None))) == Untyped
  {
    OneIsIntegerLiteral();
    var d := SampleDialect(plus);
    ColumnNameRule(d, None);
    NumberLiteralTyping(d, "1");
    UntypedOperandPropagates(d, BinaryExpression("+", ColumnNameExpression(None), NumberLiteral("1")));
    UntypedOperandPropagates(d, BinaryExpression("+", NumberLiteral("1"), ColumnNameExpression(None)));
  }

  /** A sub-query projecting (a, b) keeps that order in its row type, whatever the types. */
  lemma RowTypeKeepsProjectionOrder(d: Dialect)
    ensures var r := ComputeTypeOfExpression(d, SubQueryExpression([
        SelectColumn(Some("a"), ExpressionNode(StringLiteral("x"))),
        SelectColumn(Some("b"), DataTypeNode(BooleanType))]));
      r == Typed(Row([RowColumn(Some("a"), Some(Char(None))), RowColumn(Some("b"), Some(Boolean))]))
  {
  }
}
