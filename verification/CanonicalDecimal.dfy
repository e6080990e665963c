/** The canonical numeral of a decimal, and its round trip through the parser (exact-decimal.ts). */
module CanonicalDecimal {
  import opened Wrappers
  import opened Powers
  import opened Digits
  import opened ExactDecimal

  function Clamp(e: int): int {
    if e < -EXPONENT_LIMIT then -EXPONENT_LIMIT else if e > EXPONENT_LIMIT then EXPONENT_LIMIT else e
  }

  function Mantissa(digits: string, shift: int): string {
    if shift >= 0 then digits + Zeros(shift)
    else if |digits| + shift > 0 then digits[..|digits| + shift] + "." + digits[|digits| + shift..]
    else "0." + Zeros(-shift - |digits|) + digits
  }

  function SignText(n: int): string {
    if n < 0 then "-" else ""
  }

  function ExponentNumeral(e: int): string {
    if e == 0 then "" else ToDigits(Magnitude(e))
  }

  function ExponentText(e: int): string {
    if e == 0 then "" else "e" + (SignText(e) + ExponentNumeral(e))
  }

  function Canonical(d: Decimal): string {
    if d.coefficient == 0 then "0"
    else
      var digits := ToDigits(Magnitude(d.coefficient));
      var exponent := Clamp(d.exponent);
      SignText(d.coefficient) + (Mantissa(digits, d.exponent - exponent) + ExponentText(exponent))
  }

  // ----- The canonical numeral is a numeral ------------------------------------------------

  function WholePart(digits: string, shift: int): string {
    if shift >= 0 then digits + Zeros(shift)
    else if |digits| + shift > 0 then digits[..|digits| + shift]
    else "0"
  }

  function FractionPart(digits: string, shift: int): string {
    if shift >= 0 then ""
    else if |digits| + shift > 0 then digits[|digits| + shift..]
    else Zeros(-shift - |digits|) + digits
  }

  /** The capture groups of the canonical numeral of a nonzero decimal. */
  function CanonicalGroups(d: Decimal): Groups {
    var digits := ToDigits(Magnitude(d.coefficient));
    var e := Clamp(d.exponent);
    Groups(SignText(d.coefficient), WholePart(digits, d.exponent - e), FractionPart(digits, d.exponent - e),
           if e == 0 then "" else "e", SignText(e), ExponentNumeral(e))
  }

  /** Digits, padded on both sides; the fraction takes `-shift` of the characters. */
  lemma {:induction false} MantissaParts(digits: string, shift: int)
    requires AllDigits(digits) && digits != ""
    ensures var whole, fraction := WholePart(digits, shift), FractionPart(digits, shift);
            && whole != "" && AllDigits(whole) && AllDigits(fraction)
            && Mantissa(digits, shift) == whole + RenderFraction(fraction)
            && |fraction| == (if shift >= 0 then 0 else -shift)
  {
    hide Zeros;
    var fraction := FractionPart(digits, shift);
    if shift < 0 {
      assert fraction != "";
      assert WholePart(digits, shift) + "." + fraction == WholePart(digits, shift) + ("." + fraction);
      if |digits| + shift <= 0 {
        assert "0." + Zeros(-shift - |digits|) + digits == "0" + "." + (Zeros(-shift - |digits|) + digits);
      }
    }
  }

  lemma {:induction false} MantissaPadding(digits: string, shift: int)
    requires AllDigits(digits) && digits != ""
    ensures var padding := if shift >= 0 || |digits| + shift > 0 then 0 else 1 - shift - |digits|;
            WholePart(digits, shift) + FractionPart(digits, shift)
              == Zeros(padding) + (digits + Zeros(if shift >= 0 then shift else 0))
  {
    assert Zeros(0) == "" && digits + "" == digits;
    if shift < 0 && |digits| + shift <= 0 {
      var n := -shift - |digits|;
      ZerosFront(n);
      hide Zeros;
      assert "0" + (Zeros(n) + digits) == ("0" + Zeros(n)) + digits;
    }
  }

  lemma {:induction false} ZerosFront(n: nat)
    ensures Zeros(n + 1) == "0" + Zeros(n)
  {
    ZerosUnique("0" + Zeros(n));
  }

  lemma {:induction false} CanonicalRenders(d: Decimal)
    requires d.coefficient != 0
    ensures IsGroups(CanonicalGroups(d)) && Canonical(d) == Render(CanonicalGroups(d))
  {
    hide ToDigits, Mantissa, WholePart, FractionPart, Clamp, RenderFraction;
    var digits := ToDigits(Magnitude(d.coefficient));
    var e := Clamp(d.exponent);
    MantissaParts(digits, d.exponent - e);
    var g := CanonicalGroups(d);
    assert g.whole + RenderFraction(g.fraction) + (g.marker + (g.exponentSign + g.exponentDigits))
        == g.whole + (RenderFraction(g.fraction) + (g.marker + (g.exponentSign + g.exponentDigits)));
    assert ExponentText(e) == g.marker + (g.exponentSign + g.exponentDigits);
  }

  // ----- Round trip ------------------------------------------------------------------------

  lemma {:induction false} LastDigit(n: nat)
    ensures var s := ToDigits(n); DigitOf(s[|s| - 1]) == n % 10
  {
  }

  lemma {:induction false} ReducePadded(sign: string, digits: string, trailing: nat, exponent: int)
    requires AllDigits(digits) && digits != "" && digits[|digits| - 1] != '0'
    requires |digits| <= SIGNIFICANT_DIGITS
    ensures Reduce(sign, digits + Zeros(trailing), exponent) == Some(Decimal(Signed(sign, Value(digits)), exponent + trailing))
  {
    hide Value, TrailingZeros;
    TrailingZerosExact(digits, trailing);
    assert Significant(digits + Zeros(trailing)) == digits;
  }

  lemma {:induction false} CanonicalReduces(sign: string, digits: string, shift: int, e: int)
    requires AllDigits(digits) && digits != "" && digits[0] != '0' && digits[|digits| - 1] != '0'
    requires |digits| <= SIGNIFICANT_DIGITS
    ensures AllDigits(WholePart(digits, shift) + FractionPart(digits, shift))
    ensures Reduce(sign, StripLeadingZeros(WholePart(digits, shift) + FractionPart(digits, shift)),
                   e - |FractionPart(digits, shift)|)
         == Some(Decimal(Signed(sign, Value(digits)), e + shift))
  {
    hide WholePart, FractionPart, Value, Mantissa, RenderFraction, TrailingZeros, StripLeadingZeros, Reduce, Zeros;
    MantissaParts(digits, shift);
    MantissaPadding(digits, shift);
    var trailing := if shift >= 0 then shift else 0;
    var padding := if shift >= 0 || |digits| + shift > 0 then 0 else 1 - shift - |digits|;
    StripPadding(padding, digits + Zeros(trailing));
    ReducePadded(sign, digits, trailing, e - |FractionPart(digits, shift)|);
  }

  lemma {:induction false} WrittenExponent(e: int)
    requires -EXPONENT_LIMIT <= e <= EXPONENT_LIMIT
    ensures AllDigits(ExponentNumeral(e)) && ExponentFrom(0, ExponentNumeral(e)) == Some(Magnitude(e))
    ensures Signed(SignText(e), Magnitude(e)) == e
  {
    var digits := ExponentNumeral(e);
    ExponentFromIff(0, digits);
    ToDigitsValue(Magnitude(e));
  }

  lemma {:induction false} CanonicalAssembles(d: Decimal)
    requires Normal(d) && d.coefficient != 0
    ensures IsGroups(CanonicalGroups(d)) && Assemble(CanonicalGroups(d)) == Some(d)
  {
    hide ToDigits, Value, WholePart, FractionPart, Reduce, StripLeadingZeros, ExponentFrom, Pow, IsGroups, AllDigits,
      ExponentNumeral, Canonical;
    var digits := ToDigits(Magnitude(d.coefficient));
    var e := Clamp(d.exponent);
    CanonicalRenders(d);
    WrittenExponent(e);
    LastDigit(Magnitude(d.coefficient));
    ToDigitsValue(Magnitude(d.coefficient));
    CanonicalReduces(SignText(d.coefficient), digits, d.exponent - e, e);
    assert Signed(SignText(d.coefficient), Magnitude(d.coefficient)) == d.coefficient;
  }

  predicate AsciiOnly(s: string) {
    forall i :: 0 <= i < |s| ==> s[i] < '\U{0660}'
  }

  lemma {:induction false} AsciiUnchanged(s: string)
    requires AsciiOnly(s)
    ensures ToAscii(s) == s
  {
  }

  lemma {:induction false} RenderAscii(g: Groups)
    requires IsGroups(g)
    ensures AsciiOnly(Render(g))
  {
  }

  /** A normal decimal whose canonical numeral is short enough is read back unchanged. */
  lemma {:induction false} ParseCanonical(d: Decimal)
    requires Normal(d) && |Canonical(d)| <= INPUT_LIMIT
    ensures ParseDecimal(Canonical(d)) == Some(d)
  {
    hide ToDigits, Value, WholePart, FractionPart, Reduce, StripLeadingZeros, Pow, Match, Clamp, Normal, AsciiOnly;
    if d.coefficient == 0 {
      ParseZero();
      assert d == Decimal(0, 0) by { NormalZero(d); }
    } else {
      hide Assemble, Canonical, Render;
      CanonicalRenders(d);
      CanonicalAssembles(d);
      RenderAscii(CanonicalGroups(d));
      AsciiUnchanged(Canonical(d));
      MatchIff(Canonical(d), CanonicalGroups(d));
      assert Canonical(d) != "" by { RenderNonempty(CanonicalGroups(d)); }
    }
  }

  lemma {:induction false} RenderNonempty(g: Groups)
    requires IsGroups(g)
    ensures Render(g) != ""
  {
  }

  lemma {:induction false} NormalZero(d: Decimal)
    requires Normal(d) && d.coefficient == 0
    ensures d == Decimal(0, 0)
  {
  }

  lemma ParseZero()
    ensures ParseDecimal("0") == Some(Decimal(0, 0))
  {
    var g := Groups("", "0", "", "", "", "");
    AsciiUnchanged("0");
    assert Render(g) == "0";
    MatchIff("0", g);
    StripPadding(1, "");
    assert Zeros(1) == "0";
    assert g.whole + g.fraction == Zeros(1) + "";
  }

  // ----- The length bound ------------------------------------------------------------------

  lemma {:induction false} ExponentDigitsLength(s: string)
    requires AllDigits(s)
    ensures Value(s) >= 10 ==> |s| >= 2
    ensures Value(s) >= 100 ==> |s| >= 3
    ensures Value(s) >= 1 ==> |s| >= 1
  {
    ValueBelow(s);
    assert Pow(10, 0) == 1 && Pow(10, 1) == 10 && Pow(10, 2) == 100;
  }

  lemma {:induction false} ToDigitsLength(n: nat)
    requires n <= EXPONENT_LIMIT
    ensures |ToDigits(n)| == if n >= 100 then 3 else if n >= 10 then 2 else 1
  {
  }

  /** Length of the canonical numeral, from its ingredients. */
  lemma {:induction false} CanonicalLength(d: Decimal)
    requires d.coefficient != 0
    ensures var n, e := |ToDigits(Magnitude(d.coefficient))|, Clamp(d.exponent);
            var shift := d.exponent - e;
            |Canonical(d)| == |SignText(d.coefficient)| + |ExponentText(e)|
              + if shift >= 0 then n + shift else if n + shift > 0 then n + 1 else 2 - shift
  {
    hide ToDigits;
  }

  /** What the parser kept of a nonzero numeral: its digit and zero counts. */
  lemma {:induction false} AssembledCounts(g: Groups, d: Decimal)
    requires IsGroups(g) && Assemble(g) == Some(d) && d.coefficient != 0
    ensures |ToDigits(Magnitude(d.coefficient))| + (d.exponent - Signed(g.exponentSign, Value(g.exponentDigits)))
              <= |g.whole|
    ensures 1 <= |ToDigits(Magnitude(d.coefficient))| <= SIGNIFICANT_DIGITS
    ensures d.exponent >= Signed(g.exponentSign, Value(g.exponentDigits)) - |g.fraction|
    ensures Value(g.exponentDigits) <= EXPONENT_LIMIT
    ensures d.coefficient < 0 ==> g.sign == "-"
  {
    hide Value, ToDigits, StripLeadingZeros, Pow, TrailingZeros, IsExponent;
    ExponentFromIff(0, g.exponentDigits);
    var digits := StripLeadingZeros(g.whole + g.fraction);
    assert digits != "";
    SignificantNormal(digits);
  }

  lemma {:induction false} RenderLength(g: Groups)
    requires IsGroups(g)
    ensures |Render(g)| == |g.sign| + |g.whole| + (if g.fraction == "" then 0 else 1 + |g.fraction|)
      + |g.marker| + |g.exponentSign| + |g.exponentDigits|
    ensures g.exponentDigits != "" ==> |g.marker| == 1
    ensures g.exponentSign == "-" ==> |g.exponentSign| == 1
    ensures |g.whole| >= 1 && AllDigits(g.exponentDigits)
  {
  }

  lemma {:induction false} ExponentTextLength(e: int)
    requires -EXPONENT_LIMIT <= e <= EXPONENT_LIMIT
    ensures |ExponentText(e)| <= 5 && (e >= 0 ==> |ExponentText(e)| <= 4)
  {
    ToDigitsLength(Magnitude(e));
  }

  /**
   The length argument on its own: a numeral with `whole` and `fraction` digits, an exponent of
   magnitude `v` and `rest` characters besides, against a canonical numeral with `n` digits and
   exponent `e`.
   */
  lemma {:induction false} LengthArithmetic(
      n: nat, e: int, whole: nat, fraction: nat, v: nat, negative: bool, written: nat, rest: nat)
    requires 1 <= n <= SIGNIFICANT_DIGITS && v <= EXPONENT_LIMIT && whole >= 1
    requires var scientific := if negative then 0 - v else v;
             n + (e - scientific) <= whole && e >= scientific - fraction
    requires written >= if v >= 100 then 4 else if v >= 10 then 3 else if v >= 1 then 2 else 0
    requires rest + whole + (if fraction == 0 then 0 else 1 + fraction) + written
             + (if negative then 1 else 0) <= INPUT_LIMIT
    ensures e > EXPONENT_LIMIT ==> rest + 4 + n + (e - EXPONENT_LIMIT) <= INPUT_LIMIT
    ensures e < -EXPONENT_LIMIT ==> rest + 5 + 2 + (-EXPONENT_LIMIT - e) <= INPUT_LIMIT
  {
  }

  /** The canonical length of a decimal with the counts that `LengthArithmetic` speaks of. */
  lemma {:induction false} CanonicalBound(d: Decimal, rest: nat)
    requires d.coefficient != 0 && |ToDigits(Magnitude(d.coefficient))| <= SIGNIFICANT_DIGITS
    requires |SignText(d.coefficient)| <= rest
    requires d.exponent > EXPONENT_LIMIT ==>
               rest + 4 + |ToDigits(Magnitude(d.coefficient))| + (d.exponent - EXPONENT_LIMIT) <= INPUT_LIMIT
    requires d.exponent < -EXPONENT_LIMIT ==> rest + 5 + 2 + (-EXPONENT_LIMIT - d.exponent) <= INPUT_LIMIT
    requires rest <= 1
    ensures |Canonical(d)| <= INPUT_LIMIT
  {
    hide ToDigits, Canonical, ExponentText, Magnitude, SignText;
    CanonicalLength(d);
    ExponentTextLength(Clamp(d.exponent));
  }

  /** The canonical numeral is never longer than the limit for any accepted numeral. */
  lemma {:induction false} CanonicalFits(g: Groups, d: Decimal)
    requires IsGroups(g) && |Render(g)| <= INPUT_LIMIT && Assemble(g) == Some(d)
    ensures |Canonical(d)| <= INPUT_LIMIT
  {
    if d.coefficient != 0 {
      hide ToDigits, Value, Assemble, Canonical, AllDigits, IsGroups, Render, Magnitude;
      RenderLength(g);
      AssembledCounts(g, d);
      ExponentDigitsLength(g.exponentDigits);
      LengthArithmetic(|ToDigits(Magnitude(d.coefficient))|, d.exponent, |g.whole|, |g.fraction|,
                       Value(g.exponentDigits), g.exponentSign == "-", |g.marker| + |g.exponentDigits|,
                       |SignText(d.coefficient)|);
      CanonicalBound(d, |SignText(d.coefficient)|);
    }
  }

  // ----- Main results ----------------------------------------------------------------------

  /** Every accepted numeral has an accepted canonical numeral, which parses to the same decimal. */
  lemma {:induction false} RoundTrip(value: string, d: Decimal)
    requires ParseDecimal(value) == Some(d)
    ensures |Canonical(d)| <= INPUT_LIMIT
    ensures ParseDecimal(Canonical(d)) == Some(d)
  {
    hide Normal, Canonical, Assemble, Render, Match, IsGroups;
    var g := Match(ToAscii(value)).value;
    MatchIff(ToAscii(value), g);
    CanonicalFits(g, d);
    AssembleMeaning(g, d);
    ParseCanonical(d);
  }

  lemma {:induction false} ScaleAdvance(c: int, k: nat)
    requires k > 0
    ensures (c * Pow(10, k)) % 10 == 0
  {
    var p := Pow(10, k - 1);
    assert c * Pow(10, k) == 10 * (c * p);
  }

  /** A normal form is determined by the number it denotes. */
  lemma {:induction false} NormalUnique(a: Decimal, b: Decimal)
    requires Normal(a) && Normal(b) && Number(a) == Number(b)
    ensures a == b
  {
    hide Scale, Pow, ToDigits;
    if a.exponent <= b.exponent {
      NormalUniqueOrdered(a, b);
    } else {
      NormalUniqueOrdered(b, a);
    }
  }

  lemma {:induction false} NormalUniqueOrdered(a: Decimal, b: Decimal)
    requires Normal(a) && Normal(b) && Number(a) == Number(b) && a.exponent <= b.exponent
    ensures a == b
  {
    hide Scale, Pow, ToDigits;
    var k := b.exponent - a.exponent;
    ScaleAlign(b.coefficient, b.exponent, a.exponent);
    ScaleOrder(a.coefficient, b.coefficient * Pow(10, k), a.exponent);
    if k > 0 {
      ScaleAdvance(b.coefficient, k);
      PowPositive(10, k);
      if a.coefficient == 0 {
        ZeroTimes(b.coefficient, Pow(10, k));
      }
    } else {
      PowZero(b.coefficient, 10);
    }
  }

  lemma {:induction false} PowZero(c: int, b: int)
    ensures c * Pow(b, 0) == c
  {
    assert Pow(b, 0) == 1;
  }

  lemma {:induction false} ZeroTimes(c: int, p: int)
    requires p > 0 && c * p == 0
    ensures c == 0
  {
  }

  /** Two accepted numerals get the same canonical text exactly when they write the same number. */
  lemma {:induction false} CanonicalDecidesEquality(s: string, t: string, a: Decimal, b: Decimal)
    requires ParseDecimal(s) == Some(a) && ParseDecimal(t) == Some(b)
    ensures Canonical(a) == Canonical(b) <==> Number(a) == Number(b)
  {
    hide Canonical, Normal, Number, ParseDecimal;
    RoundTrip(s, a);
    RoundTrip(t, b);
    ParsedNormal(s, a);
    ParsedNormal(t, b);
    if Number(a) == Number(b) {
      NormalUnique(a, b);
    }
  }

  lemma {:induction false} ParsedNormal(s: string, d: Decimal)
    requires ParseDecimal(s) == Some(d)
    ensures Normal(d)
  {
    hide Normal, Assemble, Render, Match, IsGroups;
    var g := Match(ToAscii(s)).value;
    MatchIff(ToAscii(s), g);
    AssembleMeaning(g, d);
  }
}
