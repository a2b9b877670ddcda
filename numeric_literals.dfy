/**
  Classification of numeric literal lexemes into Integer or Real.

  The source matches the lexeme against `^(\d+)((\.(\d)+)?([eE]([\-+]?\d+))?)?$`.
  Here the pattern is a parser `Parse` with its inverse `Render`; a lexeme
  that matches the pattern is one that `Parse` accepts.
 */
module NumericLiterals {
  import opened Wrappers
  import opened TypeDescriptors

  predicate IsDigit(c: char) {
    '0' <= c <= '9'
  }

  predicate AllDigits(s: string) {
    forall i | 0 <= i < |s| :: IsDigit(s[i])
  }

  /** `\d+` */
  predicate IsDigitRun(s: string) {
    |s| > 0 && AllDigits(s)
  }

  predicate IsSign(c: char) {
    c == '+' || c == '-'
  }

  predicate IsExponentMarker(c: char) {
    c == 'e' || c == 'E'
  }

  /** `[\-+]?\d+`, the text of group 6 */
  predicate IsSignedDigitRun(s: string) {
    IsDigitRun(s) || (|s| > 0 && IsSign(s[0]) && IsDigitRun(s[1..]))
  }

  /** The `[eE]([\-+]?\d+)` part of a lexeme. */
  datatype Exponent = Exponent(marker: char, sign: Option<char>, digits: string)

  /** A lexeme split along the pattern: `whole`, then `.fraction`, then the exponent. */
  datatype NumericLexeme = NumericLexeme(whole: string, fraction: Option<string>, exponent: Option<Exponent>)

  predicate ValidExponent(x: Exponent) {
    && IsExponentMarker(x.marker)
    && (x.sign.Some? ==> IsSign(x.sign.value))
    && IsDigitRun(x.digits)
  }

  predicate ValidLexeme(x: NumericLexeme) {
    && IsDigitRun(x.whole)
    && (x.fraction.Some? ==> IsDigitRun(x.fraction.value))
    && (x.exponent.Some? ==> ValidExponent(x.exponent.value))
  }

  function SignText(sign: Option<char>): string {
    match sign
    case None => ""
    case Some(c) => [c]
  }

  function ExponentText(x: Exponent): string {
    [x.marker] + SignText(x.sign) + x.digits
  }

  function FractionText(fraction: Option<string>): string {
    match fraction
    case None => ""
    case Some(f) => "." + f
  }

  function ExponentPartText(exponent: Option<Exponent>): string {
    match exponent
    case None => ""
    case Some(e) => ExponentText(e)
  }

  /** The text of a lexeme. */
  function Render(x: NumericLexeme): string {
    x.whole + FractionText(x.fraction) + ExponentPartText(x.exponent)
  }

  /** The length of the longest prefix of `s` made of digits (what a greedy `\d*` consumes). */
  function DigitRunLength(s: string): (n: nat)
    ensures n <= |s|
    ensures AllDigits(s[..n])
    ensures n < |s| ==> !IsDigit(s[n])
  {
    if |s| == 0 || !IsDigit(s[0]) then 0 else 1 + DigitRunLength(s[1..])
  }

  /** Matches the optional exponent group against the whole of `s`; `Some(None)` when `s` is empty. */
  function ParseExponentPart(s: string): (r: Option<Option<Exponent>>)
    ensures r.Some? && r.value.Some? ==> ValidExponent(r.value.value)
    ensures r.Some? ==> ExponentPartText(r.value) == s
  {
    if |s| == 0 then Some(None)
    else if !IsExponentMarker(s[0]) then None
    else
      var signed := |s| > 1 && IsSign(s[1]);
      var digits := if signed then s[2..] else s[1..];
      if !IsDigitRun(digits) then None
      else
        var e := Exponent(s[0], if signed then Some(s[1]) else None, digits);
        assert ExponentText(e) == s;
        Some(Some(e))
  }

  /** Matches `\.(\d)+` and then the exponent group against the whole of `rest`, which starts with '.'. */
  function ParseFraction(rest: string): (r: Option<(string, Option<Exponent>)>)
    requires |rest| > 0 && rest[0] == '.'
    ensures r.Some? ==> IsDigitRun(r.value.0)
    ensures r.Some? ==> r.value.1.Some? ==> ValidExponent(r.value.1.value)
    ensures r.Some? ==> "." + r.value.0 + ExponentPartText(r.value.1) == rest
  {
    var digits := rest[1..];
    var f := DigitRunLength(digits);
    if f == 0 then None
    else
      match ParseExponentPart(digits[f..])
      case None => None
      case Some(e) =>
        DotSplits(rest, f);
        Some((digits[..f], e))
  }

  lemma DotSplits(rest: string, f: nat)
    requires |rest| > 0 && f < |rest|
    ensures rest == [rest[0]] + rest[1..][..f] + rest[1..][f..]
  {
  }

  /** Matches the optional `(\.(\d)+)?` group and then the exponent group against the whole of `rest`. */
  function ParseFractionAndExponent(rest: string): (r: Option<(Option<string>, Option<Exponent>)>)
    ensures r.Some? ==> r.value.0.Some? ==> IsDigitRun(r.value.0.value)
    ensures r.Some? ==> r.value.1.Some? ==> ValidExponent(r.value.1.value)
    ensures r.Some? ==> FractionText(r.value.0) + ExponentPartText(r.value.1) == rest
  {
    if |rest| > 0 && rest[0] == '.' then
      match ParseFraction(rest)
      case None => None
      case Some(parts) => Some((Some(parts.0), parts.1))
    else
      match ParseExponentPart(rest)
      case None => None
      case Some(e) => Some((None, e))
  }

  /**
    Matches `s` against the numeric literal pattern, splitting it into its
    groups.  The pattern is unambiguous: a greedy digit run can only be
    followed by '.', 'e', 'E' or the end, so no backtracking is needed.
   */
  function Parse(s: string): (r: Option<NumericLexeme>)
    ensures r.Some? ==> ValidLexeme(r.value) && Render(r.value) == s
  {
    var w := DigitRunLength(s);
    if w == 0 then None
    else
      match ParseFractionAndExponent(s[w..])
      case None => None
      case Some(parts) =>
        var x := NumericLexeme(s[..w], parts.0, parts.1);
        RenderSplits(x, s[w..]);
        assert s == s[..w] + s[w..];
        Some(x)
  }

  lemma RenderSplits(x: NumericLexeme, tail: string)
    requires FractionText(x.fraction) + ExponentPartText(x.exponent) == tail
    ensures Render(x) == x.whole + tail
  {
  }

  /** A lexeme the pattern matches; the source's `exec(text)!` crashes on any other. */
  type Lexeme = s: string | Parse(s).Some? witness "0"

  lemma {:induction false} DigitRunLengthOfRun(run: string, rest: string)
    requires AllDigits(run)
    requires |rest| > 0 ==> !IsDigit(rest[0])
    ensures DigitRunLength(run + rest) == |run|
  {
    if |run| > 0 {
      assert (run + rest)[1..] == run[1..] + rest;
      DigitRunLengthOfRun(run[1..], rest);
    } else {
      assert run + rest == rest;
    }
  }

  lemma ParseExponentPartOfText(exponent: Option<Exponent>)
    requires exponent.Some? ==> ValidExponent(exponent.value)
    ensures ParseExponentPart(ExponentPartText(exponent)) == Some(exponent)
  {
    if exponent.Some? {
      var e := exponent.value;
      var s := ExponentText(e);
      if e.sign.Some? {
        assert s[2..] == e.digits;
      } else {
        assert s[1..] == e.digits;
        assert s[1] == e.digits[0];
      }
    }
  }

  lemma ParseFractionOfText(f: string, exponent: Option<Exponent>)
    requires IsDigitRun(f)
    requires exponent.Some? ==> ValidExponent(exponent.value)
    ensures var rest := "." + f + ExponentPartText(exponent);
      |rest| > 0 && rest[0] == '.' && ParseFraction(rest) == Some((f, exponent))
  {
    var after := ExponentPartText(exponent);
    var rest := "." + f + after;
    assert rest[1..] == f + after;
    DigitRunLengthOfRun(f, after);
    assert rest[1..][..|f|] == f;
    assert rest[1..][|f|..] == after;
    ParseExponentPartOfText(exponent);
  }

  lemma ParseFractionAndExponentOfText(fraction: Option<string>, exponent: Option<Exponent>)
    requires fraction.Some? ==> IsDigitRun(fraction.value)
    requires exponent.Some? ==> ValidExponent(exponent.value)
    ensures ParseFractionAndExponent(FractionText(fraction) + ExponentPartText(exponent)) == Some((fraction, exponent))
  {
    if fraction.Some? {
      ParseFractionOfText(fraction.value, exponent);
    } else {
      ParseExponentPartOfText(exponent);
      assert FractionText(fraction) + ExponentPartText(exponent) == ExponentPartText(exponent);
    }
  }

  /** Rendering a well-formed lexeme and matching it again gives back the same groups. */
  lemma ParseRender(x: NumericLexeme)
    requires ValidLexeme(x)
    ensures Parse(Render(x)) == Some(x)
  {
    var s := Render(x);
    var tail := FractionText(x.fraction) + ExponentPartText(x.exponent);
    RenderSplits(x, tail);
    DigitRunLengthOfRun(x.whole, tail);
    assert s[..|x.whole|] == x.whole;
    assert s[|x.whole|..] == tail;
    ParseFractionAndExponentOfText(x.fraction, x.exponent);
  }

  /** Group 4 of the pattern: the quantified `(\d)` keeps only its LAST iteration, one digit. */
  function FractionDigitCapture(x: NumericLexeme): (r: Option<string>)
    requires ValidLexeme(x)
    ensures r.Some? <==> x.fraction.Some?
    ensures r.Some? ==> |r.value| == 1
  {
    match x.fraction
    case None => None
    case Some(f) => Some([f[|f| - 1]])
  }

  /** Group 6 of the pattern: the exponent's optional sign and its digits. */
  function ExponentCapture(x: NumericLexeme): (r: Option<string>)
    requires ValidLexeme(x)
    ensures r.Some? <==> x.exponent.Some?
    ensures r.Some? ==> IsSignedDigitRun(r.value)
  {
    match x.exponent
    case None => None
    case Some(e) =>
      var g := SignText(e.sign) + e.digits;
      assert e.sign.Some? ==> g[1..] == e.digits;
      Some(g)
  }

  function DigitValue(c: char): nat
    requires IsDigit(c)
  {
    (c as int) - ('0' as int)
  }

  /** The value of a decimal digit string, most significant digit first. */
  function DecimalValue(s: string): nat
    requires AllDigits(s)
  {
    if |s| == 0 then 0 else 10 * DecimalValue(s[..|s| - 1]) + DigitValue(s[|s| - 1])
  }

  /** `parseInt(s, 10)` on a string of the form `[\-+]?\d+` (unbounded: no floating-point rounding). */
  function ParseInt(s: string): int
    requires IsSignedDigitRun(s)
  {
    if IsSign(s[0]) then
      if s[0] == '-' then -(DecimalValue(s[1..]) as int) else DecimalValue(s[1..])
    else
      DecimalValue(s)
  }

  /** The number of digits after the decimal point; 0 without one. */
  function FractionDigitCount(x: NumericLexeme): nat {
    match x.fraction
    case None => 0
    case Some(f) => |f|
  }

  /** The signed exponent; 0 without one. */
  function ExponentValue(x: NumericLexeme): int
    requires ValidLexeme(x)
  {
    match x.exponent
    case None => 0
    case Some(e) =>
      var magnitude: int := DecimalValue(e.digits);
      if e.sign == Some('-') then -magnitude else magnitude
  }

  function Max(a: int, b: int): int {
    if a < b then b else a
  }

  /** The groups of a lexeme the pattern matches. */
  function Groups(text: Lexeme): (x: NumericLexeme)
    ensures ValidLexeme(x) && Render(x) == text
  {
    Parse(text).value
  }

  /**
    `computeTypeOfNumericLiteral` as written: the fractional count is the
    length of group 4, which is 1 whenever a fraction is present.
   */
  function ComputeTypeOfNumericLiteralAsWritten(text: Lexeme): (r: TypeDescriptor)
    ensures r == Integer || r == Real
    ensures var m := Groups(text);
      r == Integer <==> (if m.fraction.Some? then 1 else 0) <= ExponentValue(m)
  {
    var m := Groups(text);
    ExponentCaptureValue(m);
    var fractionalPart := match FractionDigitCapture(m) case Some(g) => |g| case None => 0;
    var exponent := match ExponentCapture(m) case Some(g) => ParseInt(g) case None => 0;
    if Max(0, fractionalPart - exponent) == 0 then Integer else Real
  }

  /**
    The classification the source evidently intends: the fractional count is
    the number of digits after the decimal point.  This is the classifier the
    rest of the model uses.
   */
  function ComputeTypeOfNumericLiteral(text: Lexeme): (r: TypeDescriptor)
    ensures r == Integer || r == Real
    ensures var m := Groups(text);
      r == Integer <==> FractionDigitCount(m) <= ExponentValue(m)
  {
    var m := Groups(text);
    if Max(0, FractionDigitCount(m) - ExponentValue(m)) == 0 then Integer else Real
  }

  /** Group 6, when present, parses to the exponent's signed value. */
  lemma ExponentCaptureValue(x: NumericLexeme)
    requires ValidLexeme(x)
    ensures x.exponent.Some? ==> ParseInt(ExponentCapture(x).value) == ExponentValue(x)
  {
    if x.exponent.Some? {
      var e := x.exponent.value;
      var g := ExponentCapture(x).value;
      if e.sign.Some? {
        assert g[1..] == e.digits;
      } else {
        assert g == e.digits;
        assert !IsSign(g[0]);
      }
    }
  }

  /**
    As written, a literal is Integer exactly when it has no fraction and a
    non-negative exponent, or a fraction and an exponent of at least 1,
    whatever the number of fraction digits.
   */
  lemma NumericLiteralAsWrittenRule(text: Lexeme)
    ensures var r := ComputeTypeOfNumericLiteralAsWritten(text);
      var m := Groups(text);
      && (r == Integer || r == Real)
      && (r == Integer <==> (if m.fraction.Some? then 1 else 0) <= ExponentValue(m))
      && (ExponentValue(m) >= 1 ==> r == Integer)
      && (ExponentValue(m) < 0 ==> r == Real)
      && (m.fraction.Some? && m.exponent.None? ==> r == Real)
  {
    ExponentCaptureValue(Groups(text));
  }

  /** Intended: a literal is Integer exactly when the exponent covers every fraction digit. */
  lemma NumericLiteralRule(text: Lexeme)
    ensures var r := ComputeTypeOfNumericLiteral(text);
      var m := Groups(text);
      && (r == Integer || r == Real)
      && (r == Integer <==> FractionDigitCount(m) <= ExponentValue(m))
      && (m.fraction.None? && m.exponent.None? ==> r == Integer)
      && (ExponentValue(m) < 0 ==> r == Real)
  {
  }

  /**
    The two classifiers disagree exactly on literals with at least two
    fraction digits whose exponent is positive but smaller than the number
    of fraction digits, such as "1.25e1"; there the source says Integer.
   */
  lemma AsWrittenDiffersExactly(text: Lexeme)
    ensures var m := Groups(text);
      ComputeTypeOfNumericLiteralAsWritten(text) != ComputeTypeOfNumericLiteral(text)
      <==> 2 <= FractionDigitCount(m) && 1 <= ExponentValue(m) < FractionDigitCount(m)
    ensures ComputeTypeOfNumericLiteralAsWritten(text) != ComputeTypeOfNumericLiteral(text)
      ==> ComputeTypeOfNumericLiteralAsWritten(text) == Integer
  {
    NumericLiteralAsWrittenRule(text);
    NumericLiteralRule(text);
  }

  /** "1.25e1" denotes 12.5, yet the source classifies it as Integer. */
  lemma AsWrittenMisclassifiesExample()
    ensures Parse("1.25e1").Some?
    ensures ComputeTypeOfNumericLiteralAsWritten("1.25e1") == Integer
    ensures ComputeTypeOfNumericLiteral("1.25e1") == Real
  {
    var x := NumericLexeme("1", Some("25"), Some(Exponent('e', None, "1")));
    assert Render(x) == "1.25e1";
    ParseRender(x);
    assert DecimalValue("1") == 1;
    NumericLiteralAsWrittenRule("1.25e1");
    NumericLiteralRule("1.25e1");
  }

  /** Both classifiers on the text of a well-formed lexeme, in terms of its groups. */
  lemma ClassifyRendered(x: NumericLexeme)
    requires ValidLexeme(x)
    ensures Parse(Render(x)) == Some(x)
    ensures ComputeTypeOfNumericLiteral(Render(x)) == if FractionDigitCount(x) <= ExponentValue(x) then Integer else Real
    ensures ComputeTypeOfNumericLiteralAsWritten(Render(x))
      == if (if x.fraction.Some? then 1 else 0) <= ExponentValue(x) then Integer else Real
  {
    ParseRender(x);
    NumericLiteralAsWrittenRule(Render(x));
    NumericLiteralRule(Render(x));
  }

  /** Integer literals without a fraction, "42" and "15e2". */
  lemma IntegerLiteralExamples()
    ensures Parse("42").Some? && Parse("15e2").Some?
    ensures ComputeTypeOfNumericLiteral("42") == Integer == ComputeTypeOfNumericLiteralAsWritten("42")
    ensures ComputeTypeOfNumericLiteral("15e2") == Integer == ComputeTypeOfNumericLiteralAsWritten("15e2")
  {
    var a := NumericLexeme("42", None, None);
    var b := NumericLexeme("15", None, Some(Exponent('e', None, "2")));
    assert Render(a) == "42";
    assert Render(b) == "15e2";
    assert DecimalValue("2") == 2;
    ClassifyRendered(a);
    ClassifyRendered(b);
  }

  /** "1.50e2": the exponent covers both fraction digits, so the literal is Integer. */
  lemma FractionalIntegerLiteralExample()
    ensures Parse("1.50e2").Some?
    ensures ComputeTypeOfNumericLiteral("1.50e2") == Integer == ComputeTypeOfNumericLiteralAsWritten("1.50e2")
  {
    var c := NumericLexeme("1", Some("50"), Some(Exponent('e', None, "2")));
    assert Render(c) == "1.50e2";
    assert DecimalValue("2") == 2;
    ClassifyRendered(c);
  }

  /** Real literals, "3.14" and "150e-2"; both classifiers agree on them. */
  lemma RealLiteralExamples()
    ensures Parse("3.14").Some? && Parse("150e-2").Some?
    ensures ComputeTypeOfNumericLiteral("3.14") == Real == ComputeTypeOfNumericLiteralAsWritten("3.14")
    ensures ComputeTypeOfNumericLiteral("150e-2") == Real == ComputeTypeOfNumericLiteralAsWritten("150e-2")
  {
    var d := NumericLexeme("3", Some("14"), None);
    var e := NumericLexeme("150", None, Some(Exponent('e', Some('-'), "2")));
    assert Render(d) == "3.14";
    assert Render(e) == "150e-2";
    assert DecimalValue("2") == 2;
    ClassifyRendered(d);
    ClassifyRendered(e);
  }
}
