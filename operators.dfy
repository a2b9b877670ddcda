/**
  Operator resolution: a first-match scan of an operator's candidate table.
  A binary candidate applies when both operand types equal its declared ones,
  or, failing that, when both convert implicitly to them; the first candidate
  that applies in either way wins.  A unary candidate applies only when its
  operand type equals the actual one; there is no conversion fallback.
 */
module Operators {
  import opened Wrappers
  import opened TypeDescriptors

  predicate ExactBinaryMatch(d: Dialect, c: BinaryCandidate, left: TypeDescriptor, right: TypeDescriptor) {
    d.typesEqual(c.left, left) && d.typesEqual(c.right, right)
  }

  predicate ImplicitBinaryMatch(d: Dialect, c: BinaryCandidate, left: TypeDescriptor, right: TypeDescriptor) {
    d.canConvert(left, c.left, Implicit) && d.canConvert(right, c.right, Implicit)
  }

  predicate BinaryApplies(d: Dialect, c: BinaryCandidate, left: TypeDescriptor, right: TypeDescriptor) {
    ExactBinaryMatch(d, c, left, right) || ImplicitBinaryMatch(d, c, left, right)
  }

  /** The scan over `candidates`, in table order. */
  function FirstApplicableBinary(d: Dialect, candidates: seq<BinaryCandidate>, left: TypeDescriptor, right: TypeDescriptor)
    : (r: Option<TypeDescriptor>)
    ensures r.None? <==> forall i | 0 <= i < |candidates| :: !BinaryApplies(d, candidates[i], left, right)
    ensures r.Some? ==> exists i | 0 <= i < |candidates| ::
      && BinaryApplies(d, candidates[i], left, right)
      && r.value == candidates[i].returnType
      && forall j | 0 <= j < i :: !BinaryApplies(d, candidates[j], left, right)
  {
    if |candidates| == 0 then None
    else if ExactBinaryMatch(d, candidates[0], left, right) then Some(candidates[0].returnType)
    else if ImplicitBinaryMatch(d, candidates[0], left, right) then Some(candidates[0].returnType)
    else
      var r := FirstApplicableBinary(d, candidates[1..], left, right);
      assert forall i | 1 <= i < |candidates| :: candidates[i] == candidates[1..][i - 1];
      r
  }

  /** `computeTypeOfBinaryOperation`: resolution against the operator's table. */
  function ComputeTypeOfBinaryOperation(d: Dialect, operator: string, left: TypeDescriptor, right: TypeDescriptor)
    : (r: Option<TypeDescriptor>)
    ensures var cs := d.binaryOperators(operator);
      r.None? <==> forall i | 0 <= i < |cs| :: !BinaryApplies(d, cs[i], left, right)
    ensures var cs := d.binaryOperators(operator);
      r.Some? ==> exists i | 0 <= i < |cs| ::
        && BinaryApplies(d, cs[i], left, right)
        && r.value == cs[i].returnType
        && forall j | 0 <= j < i :: !BinaryApplies(d, cs[j], left, right)
  {
    FirstApplicableBinary(d, d.binaryOperators(operator), left, right)
  }

  predicate UnaryApplies(d: Dialect, c: UnaryCandidate, operand: TypeDescriptor) {
    d.typesEqual(c.operandType, operand)
  }

  /** The unary scan over `candidates`, in table order. */
  function FirstApplicableUnary(d: Dialect, candidates: seq<UnaryCandidate>, operand: TypeDescriptor)
    : (r: Option<TypeDescriptor>)
    ensures r.None? <==> forall i | 0 <= i < |candidates| :: !UnaryApplies(d, candidates[i], operand)
    ensures r.Some? ==> exists i | 0 <= i < |candidates| ::
      && UnaryApplies(d, candidates[i], operand)
      && r.value == candidates[i].returnType
      && forall j | 0 <= j < i :: !UnaryApplies(d, candidates[j], operand)
  {
    if |candidates| == 0 then None
    else if UnaryApplies(d, candidates[0], operand) then Some(candidates[0].returnType)
    else
      var r := FirstApplicableUnary(d, candidates[1..], operand);
      assert forall i | 1 <= i < |candidates| :: candidates[i] == candidates[1..][i - 1];
      r
  }

  /** `computeTypeOfUnaryOperation`: resolution against the operator's table, by equality only. */
  function ComputeTypeOfUnaryOperation(d: Dialect, operator: string, operand: TypeDescriptor)
    : (r: Option<TypeDescriptor>)
    ensures var cs := d.unaryOperators(operator);
      r.None? <==> forall i | 0 <= i < |cs| :: !UnaryApplies(d, cs[i], operand)
    ensures var cs := d.unaryOperators(operator);
      r.Some? ==> exists i | 0 <= i < |cs| ::
        && d.typesEqual(cs[i].operandType, operand)
        && r.value == cs[i].returnType
        && forall j | 0 <= j < i :: !d.typesEqual(cs[j].operandType, operand)
  {
    FirstApplicableUnary(d, d.unaryOperators(operator), operand)
  }

  /**
    Appending candidates to a table never changes a resolution the table
    already gave; only when it gave none are the new candidates consulted.
   */
  lemma {:induction false} BinaryResolutionOfConcatenation(
    d: Dialect, first: seq<BinaryCandidate>, more: seq<BinaryCandidate>, left: TypeDescriptor, right: TypeDescriptor)
    ensures FirstApplicableBinary(d, first + more, left, right)
      == match FirstApplicableBinary(d, first, left, right)
         case Some(t) => Some(t)
         case None => FirstApplicableBinary(d, more, left, right)
  {
    if |first| == 0 {
      assert first + more == more;
    } else {
      assert (first + more)[1..] == first[1..] + more;
      BinaryResolutionOfConcatenation(d, first[1..], more, left, right);
    }
  }

  /**
    The per-candidate order: once a candidate applies, by exact match or
    only by implicit conversion, no later candidate is consulted, even one
    that matches exactly.
   */
  lemma EarlierCandidateWins(
    d: Dialect, candidates: seq<BinaryCandidate>, i: nat, left: TypeDescriptor, right: TypeDescriptor)
    requires i < |candidates|
    requires BinaryApplies(d, candidates[i], left, right)
    requires forall j | 0 <= j < i :: !BinaryApplies(d, candidates[j], left, right)
    ensures FirstApplicableBinary(d, candidates, left, right) == Some(candidates[i].returnType)
  {
    var r := FirstApplicableBinary(d, candidates, left, right);
    var k :| 0 <= k < |candidates| && BinaryApplies(d, candidates[k], left, right) && r.value == candidates[k].returnType
      && forall j | 0 <= j < k :: !BinaryApplies(d, candidates[j], left, right);
    assert k == i;
  }

  /** Unary resolution never consults the conversion relation. */
  lemma {:induction false} UnaryResolutionIgnoresConversion(
    d: Dialect, other: (TypeDescriptor, TypeDescriptor, ConversionMode) -> bool,
    candidates: seq<UnaryCandidate>, operand: TypeDescriptor)
    ensures FirstApplicableUnary(d.(canConvert := other), candidates, operand) == FirstApplicableUnary(d, candidates, operand)
  {
    if |candidates| > 0 {
      UnaryResolutionIgnoresConversion(d, other, candidates[1..], operand);
    }
  }
}
