/**
 Exact decimal numbers: parsing a student's numeral, printing the canonical numeral, and
 the exact arithmetic used to compare answers (exact-decimal.ts).
 */
module ExactDecimal {
  import opened Wrappers
  import opened Powers
  import opened Digits

  const INPUT_LIMIT := 64
  const SIGNIFICANT_DIGITS := 34
  const EXPONENT_LIMIT := 100

  datatype Decimal = Decimal(coefficient: int, exponent: int)

  /** The number a decimal denotes. */
  function Number(d: Decimal): real {
    Scale(d.coefficient, d.exponent)
  }

  /** The normal form: zero has exponent zero; another coefficient has at most 34 digits and does not end in 0. */
  predicate Normal(d: Decimal) {
    if d.coefficient == 0 then d.exponent == 0
    else d.coefficient % 10 != 0 && |ToDigits(Magnitude(d.coefficient))| <= SIGNIFICANT_DIGITS
  }

  function Magnitude(n: int): nat {
    if n < 0 then -n else n
  }

  // ----- The accepted numerals -------------------------------------------------------------

  /** The capture groups of the numeral pattern; an absent optional group is empty. */
  datatype Groups = Groups(sign: string, whole: string, fraction: string,
                           marker: string, exponentSign: string, exponentDigits: string)

  predicate IsSign(s: string) {
    s == "" || s == "+" || s == "-"
  }

  predicate IsExponent(marker: string, sign: string, digits: string) {
    if marker == "" then sign == "" && digits == ""
    else (marker == "e" || marker == "E") && IsSign(sign) && digits != "" && AllDigits(digits)
  }

  predicate IsGroups(g: Groups) {
    && IsSign(g.sign)
    && g.whole != "" && AllDigits(g.whole)
    && AllDigits(g.fraction)
    && IsExponent(g.marker, g.exponentSign, g.exponentDigits)
    && AllDigits(g.exponentDigits)
  }

  function RenderFraction(fraction: string): string {
    if fraction == "" then "" else "." + fraction
  }

  /** The numeral with capture groups `g`. */
  function Render(g: Groups): string {
    g.sign + (g.whole + (RenderFraction(g.fraction) + (g.marker + (g.exponentSign + g.exponentDigits))))
  }

  function SignPrefix(s: string): (r: string)
    ensures IsSign(r) && |r| <= |s| && s == r + s[|r|..]
  {
    if s != "" && (s[0] == '+' || s[0] == '-') then s[..1] else ""
  }

  function MatchExponent(s: string): Option<(string, string, string)> {
    if s == "" then Some(("", "", ""))
    else if s[0] == 'e' || s[0] == 'E' then
      var sign := SignPrefix(s[1..]);
      var digits := s[1 + |sign|..];
      if digits != "" && DigitRun(digits) == |digits| then Some((s[..1], sign, digits)) else None
    else None
  }

  function MatchFraction(s: string): Option<(string, string)> {
    if s != "" && s[0] == '.' then
      var n := DigitRun(s[1..]);
      if n == 0 then None else Some((s[1..][..n], s[1..][n..]))
    else Some(("", s))
  }

  function Match(s: string): Option<Groups> {
    var sign := SignPrefix(s);
    var afterSign := s[|sign|..];
    var n := DigitRun(afterSign);
    if n == 0 then None else
    var (fraction, rest) :- MatchFraction(afterSign[n..]);
    var (marker, exponentSign, exponentDigits) :- MatchExponent(rest);
    Some(Groups(sign, afterSign[..n], fraction, marker, exponentSign, exponentDigits))
  }

  lemma {:induction false} MatchExponentIff(s: string, marker: string, sign: string, digits: string)
    ensures MatchExponent(s) == Some((marker, sign, digits))
       <==> IsExponent(marker, sign, digits) && s == marker + (sign + digits)
  {
    if MatchExponent(s) == Some((marker, sign, digits)) && s != "" {
      assert s[1..] == sign + digits;
      assert digits[..|digits|] == digits;
    }
    if IsExponent(marker, sign, digits) && s == marker + (sign + digits) && marker != "" {
      assert s[1..] == sign + digits;
      assert !IsSign(digits[..1]);
      assert SignPrefix(s[1..]) == sign;
      DigitRunExact(digits, "");
      assert digits + "" == digits;
      assert s[1 + |sign|..] == digits;
    }
  }

  lemma {:induction false} MatchFractionIff(s: string, fraction: string, rest: string)
    requires rest == "" || (!IsDigit(rest[0]) && rest[0] != '.')
    ensures MatchFraction(s) == Some((fraction, rest))
       <==> AllDigits(fraction) && s == RenderFraction(fraction) + rest
  {
    if MatchFraction(s) == Some((fraction, rest)) {
      hide DigitRun;
      assert s != "" && s[0] == '.' ==> s == "." + fraction + rest;
    }
    if AllDigits(fraction) && s == RenderFraction(fraction) + rest {
      hide MatchFraction;
      RenderedFractionMatches(fraction, rest);
    }
  }

  lemma {:induction false} RenderedFractionMatches(fraction: string, rest: string)
    requires rest == "" || (!IsDigit(rest[0]) && rest[0] != '.')
    requires AllDigits(fraction)
    ensures MatchFraction(RenderFraction(fraction) + rest) == Some((fraction, rest))
  {
    hide DigitRun;
    var s := RenderFraction(fraction) + rest;
    if fraction == "" {
      assert s == rest;
    } else {
      assert s[1..] == fraction + rest;
      DigitRunExact(fraction, rest);
      assert (fraction + rest)[|fraction|..] == rest;
    }
  }

  /** The scanner accepts exactly the numerals of the pattern, and splits each in only one way. */
  lemma {:induction false} MatchIff(s: string, g: Groups)
    ensures Match(s) == Some(g) <==> IsGroups(g) && s == Render(g)
  {
    var exponent := g.marker + (g.exponentSign + g.exponentDigits);
    var tail := RenderFraction(g.fraction) + exponent;
    MatchExponentIff(exponent, g.marker, g.exponentSign, g.exponentDigits);
    if IsGroups(g) && s == Render(g) {
      MatchFractionIff(tail, g.fraction, exponent);
      assert SignPrefix(s) == g.sign;
      assert s[|g.sign|..] == g.whole + tail;
      DigitRunExact(g.whole, tail);
      assert (g.whole + tail)[|g.whole|..] == tail;
    }
    if Match(s) == Some(g) {
      MatchedRenders(s, g);
    }
  }

  lemma {:induction false} MatchedRenders(s: string, g: Groups)
    requires Match(s) == Some(g)
    ensures IsGroups(g) && s == Render(g)
  {
    hide DigitRun, MatchFraction, MatchExponent, SignPrefix, RenderFraction, IsExponent;
    var afterSign := s[|g.sign|..];
    var tail := afterSign[|g.whole|..];
    var rest := MatchFraction(tail).value.1;
    MatchedExponent(rest);
    MatchFractionIff(tail, g.fraction, rest);
    assert s == g.sign + afterSign;
    assert afterSign == g.whole + tail;
  }

  lemma {:induction false} MatchedExponent(s: string)
    requires MatchExponent(s).Some?
    ensures var (marker, sign, digits) := MatchExponent(s).value;
            IsExponent(marker, sign, digits) && AllDigits(digits) && s == marker + (sign + digits)
    ensures s == "" || (!IsDigit(s[0]) && s[0] != '.')
  {
    hide DigitRun, SignPrefix;
    var e := MatchExponent(s).value;
    assert e == (e.0, e.1, e.2);
    MatchExponentIff(s, e.0, e.1, e.2);
  }

  // ----- Parsing ---------------------------------------------------------------------------

  /** Eastern digits and the Arabic decimal separator become ASCII; every other character stays. */
  function AsciiChar(c: char): char {
    if c == '\U{066B}' then '.'
    else if '\U{06F0}' <= c <= '\U{06F9}' then DigitChar(c as int - 0x6F0)
    else if '\U{0660}' <= c <= '\U{0669}' then DigitChar(c as int - 0x660)
    else c
  }

  function ToAscii(s: string): string {
    seq(|s|, i requires 0 <= i < |s| => AsciiChar(s[i]))
  }

  /** The written exponent, read digit by digit and refused as soon as it passes the limit. */
  function ExponentFrom(acc: nat, s: string): Option<nat>
    requires AllDigits(s)
    decreases s
  {
    if s == "" then Some(acc)
    else
      var next := acc * 10 + DigitOf(s[0]);
      if next > EXPONENT_LIMIT then None else ExponentFrom(next, s[1..])
  }

  /** The digits left once the zeros at the end are dropped. */
  function Significant(digits: string): (r: string)
    requires AllDigits(digits)
    ensures AllDigits(r)
  {
    digits[..|digits| - TrailingZeros(digits)]
  }

  function Signed(sign: string, magnitude: nat): int {
    if sign == "-" then 0 - magnitude else magnitude
  }

  /** The decimal with sign `sign` and magnitude `digits` times ten to the power `exponent`. */
  function Reduce(sign: string, digits: string, exponent: int): Option<Decimal>
    requires AllDigits(digits)
  {
    if digits == "" then Some(Decimal(0, 0))
    else if |Significant(digits)| > SIGNIFICANT_DIGITS then None
    else Some(Decimal(Signed(sign, Value(Significant(digits))), exponent + TrailingZeros(digits)))
  }

  function Assemble(g: Groups): Option<Decimal>
    requires IsGroups(g)
  {
    var magnitude :- ExponentFrom(0, g.exponentDigits);
    Reduce(g.sign, StripLeadingZeros(g.whole + g.fraction), Signed(g.exponentSign, magnitude) - |g.fraction|)
  }

  function ParseDecimal(value: string): Option<Decimal> {
    if value == "" || |value| > INPUT_LIMIT then None
    else
      var text := ToAscii(value);
      var g :- Match(text);
      assert IsGroups(g) by { MatchIff(text, g); }
      Assemble(g)
  }

  /** The parser as the source runs it: one loop over the exponent digits, then reassigned fields. */
  method ParseExactDecimal(value: string) returns (r: Option<Decimal>)
    ensures r == ParseDecimal(value)
  {
    hide Value, StripLeadingZeros, TrailingZeros, Match, ToAscii, Render, IsExponent;
    if |value| == 0 || |value| > INPUT_LIMIT {
      return None;
    }
    var ascii := ToAscii(value);
    var matched := Match(ascii);
    if matched.None? {
      return None;
    }
    var g := matched.value;
    assert IsGroups(g) by { MatchIff(ascii, g); }
    var scientificExponent: int := 0;
    assert g.exponentDigits[0..] == g.exponentDigits;
    for i := 0 to |g.exponentDigits|
      invariant 0 <= scientificExponent <= EXPONENT_LIMIT
      invariant ExponentFrom(0, g.exponentDigits) == ExponentFrom(scientificExponent, g.exponentDigits[i..])
    {
      assert g.exponentDigits[i..][1..] == g.exponentDigits[i + 1..];
      scientificExponent := scientificExponent * 10 + DigitOf(g.exponentDigits[i]);
      if scientificExponent > EXPONENT_LIMIT {
        return None;
      }
    }
    assert ExponentFrom(0, g.exponentDigits) == Some(scientificExponent);
    if g.exponentSign == "-" {
      scientificExponent := -scientificExponent;
    }
    var digits := StripLeadingZeros(g.whole + g.fraction);
    if digits == "" {
      return Some(Decimal(0, 0));
    }
    var exponent := scientificExponent - |g.fraction|;
    var trailing := TrailingZeros(digits);
    digits := digits[..|digits| - trailing];
    exponent := exponent + trailing;
    if |digits| > SIGNIFICANT_DIGITS {
      return None;
    }
    var coefficient := Value(digits) * (if g.sign == "-" then -1 else 1);
    return Some(Decimal(coefficient, exponent));
  }

  // ----- What parsing means ----------------------------------------------------------------

  lemma {:induction false} ValueFront(s: string)
    requires AllDigits(s) && s != ""
    ensures Value(s) == DigitOf(s[0]) * Pow(10, |s| - 1) + Value(s[1..])
  {
    ValueConcat(s[..1], s[1..]);
    assert s[..1] + s[1..] == s;
    assert s[..1][..0] == "";
  }

  /** Reading an exponent digit by digit refuses exactly the numbers above the limit. */
  lemma {:induction false} ExponentFromIff(acc: nat, s: string)
    requires AllDigits(s) && acc <= EXPONENT_LIMIT
    ensures var n := acc * Pow(10, |s|) + Value(s);
            ExponentFrom(acc, s) == if n <= EXPONENT_LIMIT then Some(n) else None
    decreases s
  {
    if s != "" {
      var d, rest := DigitOf(s[0]), s[1..];
      var next := acc * 10 + d;
      var p := Pow(10, |rest|);
      ValueFront(s);
      ShiftIn(acc, d, p);
      PowPositive(10, |rest|);
      if next <= EXPONENT_LIMIT {
        ExponentFromIff(next, rest);
      }
    }
  }

  lemma {:induction false} ShiftIn(acc: nat, d: nat, p: int)
    ensures acc * (10 * p) + d * p == (acc * 10 + d) * p
    ensures p > 0 ==> (acc * 10 + d) * p >= acc * 10 + d
  {
  }

  /** The number written by a numeral, read off its groups: sign (whole + fraction) 10^exponent. */
  function Written(g: Groups): real
    requires IsGroups(g)
  {
    var e := Signed(g.exponentSign, Value(g.exponentDigits));
    var magnitude := Scale(Value(g.whole), e) + Scale(Value(g.fraction), e - |g.fraction|);
    if g.sign == "-" then -magnitude else magnitude
  }

  lemma {:induction false} ScaleAdd(a: int, b: int, e: int)
    ensures Scale(a, e) + Scale(b, e) == Scale(a + b, e)
    ensures Scale(-a, e) == -Scale(a, e)
    ensures Scale(0, e) == 0.0
  {
  }

  /** Written with all digits in one coefficient. */
  lemma {:induction false} WrittenAligned(g: Groups)
    requires IsGroups(g)
    ensures AllDigits(g.whole + g.fraction)
    ensures var e := Signed(g.exponentSign, Value(g.exponentDigits)) - |g.fraction|;
            var m := Scale(Value(g.whole + g.fraction), e);
            Written(g) == if g.sign == "-" then -m else m
  {
    hide Scale;
    var e := Signed(g.exponentSign, Value(g.exponentDigits));
    ScaleAlign(Value(g.whole), e, e - |g.fraction|);
    ValueConcat(g.whole, g.fraction);
    ScaleAdd(Value(g.whole) * Pow(10, |g.fraction|), Value(g.fraction), e - |g.fraction|);
  }

  lemma {:induction false} SignificantScale(digits: string, e: int)
    requires AllDigits(digits)
    ensures Scale(Value(digits), e) == Scale(Value(Significant(digits)), e + TrailingZeros(digits))
  {
    hide Scale, Value, TrailingZeros, Pow, Zeros, AllDigits;
    ZerosSuffix(digits, TrailingZeros(digits));
    ValueTrailingZeros(Significant(digits), TrailingZeros(digits));
    ScaleAlign(Value(Significant(digits)), e + TrailingZeros(digits), e);
  }

  lemma {:induction false} SignificantNormal(digits: string)
    requires AllDigits(digits) && digits != "" && digits[0] != '0'
    ensures ToDigits(Value(Significant(digits))) == Significant(digits)
    ensures Value(Significant(digits)) % 10 != 0
  {
    var s := Significant(digits);
    assert s != "" && s[0] == digits[0];
    ToDigitsOfValue(s);
  }

  /** Reducing keeps the number and yields the normal form. */
  lemma {:induction false} ReduceMeaning(sign: string, digits: string, e: int, d: Decimal)
    requires AllDigits(digits) && (digits != "" ==> digits[0] != '0')
    requires Reduce(sign, digits, e) == Some(d)
    ensures Number(d) == (if sign == "-" then -Scale(Value(digits), e) else Scale(Value(digits), e))
    ensures Normal(d)
  {
    hide Scale, TrailingZeros, ToDigits, Significant, AllDigits;
    if digits == "" {
      ScaleAdd(0, 0, e);
      ScaleAdd(0, 0, 0);
    } else {
      hide Value;
      SignificantScale(digits, e);
      ScaleAdd(Value(Significant(digits)), 0, e + TrailingZeros(digits));
      SignificantNormal(digits);
    }
  }

  /** An accepted numeral parses to the number it writes, in normal form. */
  lemma {:induction false} AssembleMeaning(g: Groups, d: Decimal)
    requires IsGroups(g) && Assemble(g) == Some(d)
    ensures Number(d) == Written(g) && Normal(d)
  {
    hide Scale, Reduce, Normal, Number, Value, StripLeadingZeros, Pow;
    ExponentFromIff(0, g.exponentDigits);
    WrittenAligned(g);
    var all := g.whole + g.fraction;
    var digits := StripLeadingZeros(all);
    ValueLeadingZeros(|all| - |digits|, digits);
    ReduceMeaning(g.sign, digits, Signed(g.exponentSign, Value(g.exponentDigits)) - |g.fraction|, d);
  }

  /** Exactly which texts are accepted, and what each denotes. */
  lemma {:induction false} ParseIff(value: string, g: Groups)
    requires IsGroups(g) && ToAscii(value) == Render(g)
    ensures ParseDecimal(value).Some? <==>
            && |value| <= INPUT_LIMIT
            && Value(g.exponentDigits) <= EXPONENT_LIMIT
            && |Significant(StripLeadingZeros(g.whole + g.fraction))| <= SIGNIFICANT_DIGITS
    ensures ParseDecimal(value).Some? ==> Number(ParseDecimal(value).value) == Written(g)
  {
    hide Scale, Value, StripLeadingZeros, Significant, Match, Written, Number;
    MatchIff(ToAscii(value), g);
    ExponentFromIff(0, g.exponentDigits);
    assert value != "" by { assert |Render(g)| >= |g.whole|; }
    var digits := StripLeadingZeros(g.whole + g.fraction);
    if digits == "" {
      assert Significant("") == "" by { SignificantEmpty(); }
    }
    if ParseDecimal(value).Some? {
      AssembleMeaning(g, ParseDecimal(value).value);
    }
  }

  lemma SignificantEmpty()
    ensures Significant("") == ""
  {
  }

  /** A text outside the numeral pattern is refused. */
  lemma {:induction false} ParseRejects(value: string)
    requires forall g :: IsGroups(g) ==> ToAscii(value) != Render(g)
    ensures ParseDecimal(value).None?
  {
    if ParseDecimal(value).Some? {
      var g := Match(ToAscii(value)).value;
      MatchIff(ToAscii(value), g);
      assert false;
    }
  }
}
