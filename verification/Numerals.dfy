/**
 Which texts are numerals and what number each writes, character by character in any mixture of
 the three scripts, without the conversion to ASCII that the parser makes first.
 */
module Numerals {
  import opened Wrappers
  import opened Powers
  import opened Digits
  import opened ExactDecimal
  import opened CanonicalDecimal

  /** The digit `d` counted from the zero of one of the scripts: ASCII, Arabic-Indic, extended Arabic-Indic. */
  predicate WritesDigit(c: char, d: nat) {
    d < 10 && (c as int - d == 0x30 || c as int - d == 0x660 || c as int - d == 0x6F0)
  }

  /** The full stop or the Arabic decimal separator. */
  predicate WritesPoint(c: char) {
    c as int == 0x2E || c as int == 0x66B
  }

  /** `s` writes the digits `digits`, one by one. */
  predicate WritesDigits(s: string, digits: seq<nat>) {
    |s| == |digits| && forall i :: 0 <= i < |s| ==> WritesDigit(s[i], digits[i])
  }

  /** A numeral by its parts; the digits are numbers, so a digit has no script. */
  datatype Numeral = Numeral(sign: string, whole: seq<nat>, fraction: seq<nat>,
                             marker: string, exponentSign: string, exponent: seq<nat>)

  predicate IsNumeralForm(n: Numeral) {
    && n.sign in {"", "+", "-"} && n.exponentSign in {"", "+", "-"} && n.marker in {"", "e", "E"}
    && n.whole != []
    && (if n.marker == "" then n.exponentSign == "" && n.exponent == [] else n.exponent != [])
  }

  /** The spelling of the digit parts and of the point of a numeral. */
  datatype Spelling = Spelling(whole: string, point: string, fraction: string, exponent: string)

  predicate SpelledAs(n: Numeral, s: Spelling) {
    && WritesDigits(s.whole, n.whole) && WritesDigits(s.fraction, n.fraction) && WritesDigits(s.exponent, n.exponent)
    && (if n.fraction == [] then s.point == "" else |s.point| == 1 && WritesPoint(s.point[0]))
  }

  function Spelled(n: Numeral, s: Spelling): string {
    n.sign + (s.whole + ((s.point + s.fraction) + (n.marker + (n.exponentSign + s.exponent))))
  }

  /** The number of a digit list, most significant digit first. */
  function Horner(digits: seq<nat>): nat {
    if digits == [] then 0 else 10 * Horner(digits[..|digits| - 1]) + digits[|digits| - 1]
  }

  /** The number a numeral means. */
  function NumeralValue(n: Numeral): real {
    var exponent := if n.exponentSign == "-" then 0 - Horner(n.exponent) else Horner(n.exponent);
    var magnitude := Horner(n.whole + n.fraction) as real * Ten(exponent - |n.fraction|);
    if n.sign == "-" then -magnitude else magnitude
  }

  /** Fewer than `limit` places lie between any two digits other than zero, both included. */
  predicate SpanWithin(digits: seq<nat>, limit: nat) {
    forall i, j :: 0 <= i <= j < |digits| && digits[i] != 0 && digits[j] != 0 ==> j - i < limit
  }

  /** A numeral of `length` characters is small enough to be accepted. */
  predicate WithinLimits(n: Numeral, length: nat) {
    length <= INPUT_LIMIT && Horner(n.exponent) <= EXPONENT_LIMIT && SpanWithin(n.whole + n.fraction, SIGNIFICANT_DIGITS)
  }

  ghost predicate WritesAs(text: string, v: real, n: Numeral, s: Spelling) {
    IsNumeralForm(n) && SpelledAs(n, s) && text == Spelled(n, s) && WithinLimits(n, |text|) && v == NumeralValue(n)
  }

  /** `text` is an accepted numeral for the number `v`. */
  ghost predicate Writes(text: string, v: real) {
    exists n: Numeral, s: Spelling :: WritesAs(text, v, n, s)
  }

  // ----- Characters ------------------------------------------------------------------------

  /** What the conversion to ASCII does to a character, in terms of what the character writes. */
  lemma {:induction false} AsciiMeaning(c: char)
    ensures forall d: nat | d < 10 :: AsciiChar(c) == DigitChar(d) <==> WritesDigit(c, d)
    ensures AsciiChar(c) == '.' <==> WritesPoint(c)
    ensures forall a: char | !IsDigit(a) && a != '.' && a < '\U{0080}' :: AsciiChar(c) == a <==> c == a
  {
  }

  lemma {:induction false} ToAsciiConcat(a: string, b: string)
    ensures ToAscii(a + b) == ToAscii(a) + ToAscii(b)
  {
  }

  lemma {:induction false} ToAsciiSlice(s: string, i: nat, j: nat)
    requires i <= j <= |s|
    ensures ToAscii(s[i..j]) == ToAscii(s)[i..j]
  {
  }

  predicate AreDigits(digits: seq<nat>) {
    forall i :: 0 <= i < |digits| ==> digits[i] < 10
  }

  function AsciiDigits(digits: seq<nat>): (s: string)
    requires AreDigits(digits)
    ensures |s| == |digits| && AllDigits(s)
    ensures forall i :: 0 <= i < |s| ==> s[i] == DigitChar(digits[i])
  {
    seq(|digits|, i requires 0 <= i < |digits| => DigitChar(digits[i]))
  }

  function DigitsOf(s: string): (digits: seq<nat>)
    requires AllDigits(s)
    ensures AreDigits(digits) && |digits| == |s|
    ensures AsciiDigits(digits) == s
  {
    seq(|s|, i requires 0 <= i < |s| => DigitOf(s[i]))
  }

  lemma {:induction false} WritesDigitsIff(s: string, digits: seq<nat>)
    ensures WritesDigits(s, digits) <==> AreDigits(digits) && ToAscii(s) == AsciiDigits(digits)
  {
    hide AsciiChar;
    if |s| == |digits| {
      forall i | 0 <= i < |s|
        ensures WritesDigit(s[i], digits[i]) <==> digits[i] < 10 && ToAscii(s)[i] == DigitChar(digits[i])
      {
        AsciiMeaning(s[i]);
      }
    }
  }

  // ----- The number ------------------------------------------------------------------------

  lemma {:induction false} HornerValue(digits: seq<nat>)
    requires AreDigits(digits)
    ensures Value(AsciiDigits(digits)) == Horner(digits)
  {
    if digits != [] {
      var front := digits[..|digits| - 1];
      HornerValue(front);
      assert AsciiDigits(digits)[..|digits| - 1] == AsciiDigits(front);
    }
  }

  lemma {:induction false} SpanBounds(digits: seq<nat>, first: nat, last: nat, limit: nat)
    requires first <= last < |digits| && digits[first] != 0 && digits[last] != 0
    requires forall i :: 0 <= i < |digits| && digits[i] != 0 ==> first <= i <= last
    ensures SpanWithin(digits, limit) <==> last - first < limit
  {
  }

  /** The significant digits fit exactly when the nonzero digits lie close enough together. */
  lemma {:induction false} SpanIff(digits: seq<nat>, limit: nat)
    requires AreDigits(digits)
    ensures |Significant(StripLeadingZeros(AsciiDigits(digits)))| <= limit <==> SpanWithin(digits, limit)
  {
    hide StripLeadingZeros, TrailingZeros, SpanWithin, AsciiDigits, Zeros;
    var s := AsciiDigits(digits);
    var r := StripLeadingZeros(s);
    var first := |s| - |r|;
    assert r == s[first..];
    assert Zeros(first) == s[..first];
    if r == "" {
      AllZeros(digits, limit);
      assert Significant("") == "" by { SignificantEmpty(); }
    } else {
      LastNonzero(r);
      var last := |s| - 1 - TrailingZeros(r);
      SpanOf(digits, s, first, last);
      SpanBounds(digits, first, last, limit);
    }
  }

  lemma {:induction false} AllZeros(digits: seq<nat>, limit: nat)
    requires AreDigits(digits) && forall i :: 0 <= i < |digits| ==> AsciiDigits(digits)[i] == '0'
    ensures SpanWithin(digits, limit)
  {
    assert forall i :: 0 <= i < |digits| ==> AsciiDigits(digits)[i] == DigitChar(digits[i]);
  }

  lemma {:induction false} SpanOf(digits: seq<nat>, s: string, first: nat, last: nat)
    requires AreDigits(digits) && s == AsciiDigits(digits) && first <= last < |s|
    requires s[first] != '0' && s[last] != '0'
    requires forall i :: 0 <= i < first ==> s[i] == '0'
    requires forall i :: last < i < |s| ==> s[i] == '0'
    ensures digits[first] != 0 && digits[last] != 0
    ensures forall i :: 0 <= i < |digits| && digits[i] != 0 ==> first <= i <= last
  {
    assert forall i :: 0 <= i < |s| ==> s[i] == DigitChar(digits[i]);
  }

  lemma {:induction false} LastNonzero(r: string)
    requires r != "" && r[0] != '0'
    ensures TrailingZeros(r) < |r| && r[|r| - 1 - TrailingZeros(r)] != '0'
  {
    hide TrailingZeros;
  }

  // ----- The parts of a numeral ------------------------------------------------------------

  function GroupsOf(n: Numeral): Groups
    requires AreDigits(n.whole) && AreDigits(n.fraction) && AreDigits(n.exponent)
  {
    Groups(n.sign, AsciiDigits(n.whole), AsciiDigits(n.fraction), n.marker, n.exponentSign, AsciiDigits(n.exponent))
  }

  lemma {:induction false} JoinAscii(a: string, b: string, c: string, d: string, e: string, f: string, g: string)
    ensures ToAscii(a + (b + ((c + d) + (e + (f + g)))))
            == ToAscii(a) + (ToAscii(b) + ((ToAscii(c) + ToAscii(d)) + (ToAscii(e) + (ToAscii(f) + ToAscii(g)))))
  {
    hide ToAscii;
    ToAsciiConcat(f, g);
    ToAsciiConcat(e, f + g);
    ToAsciiConcat(c, d);
    ToAsciiConcat(c + d, e + (f + g));
    ToAsciiConcat(b, (c + d) + (e + (f + g)));
    ToAsciiConcat(a, b + ((c + d) + (e + (f + g))));
  }

  lemma {:induction false} GroupsForm(n: Numeral)
    requires IsNumeralForm(n) && AreDigits(n.whole) && AreDigits(n.fraction) && AreDigits(n.exponent)
    ensures IsGroups(GroupsOf(n))
  {
  }

  lemma {:induction false} SpelledGroups(n: Numeral, s: Spelling)
    requires IsNumeralForm(n) && SpelledAs(n, s)
    ensures AreDigits(n.whole) && AreDigits(n.fraction) && AreDigits(n.exponent)
    ensures IsGroups(GroupsOf(n)) && ToAscii(Spelled(n, s)) == Render(GroupsOf(n))
  {
    hide ToAscii, WritesDigits, IsGroups;
    WritesDigitsIff(s.whole, n.whole);
    WritesDigitsIff(s.fraction, n.fraction);
    WritesDigitsIff(s.exponent, n.exponent);
    GroupsForm(n);
    SpelledText(n, s);
  }

  lemma {:induction false} SpelledText(n: Numeral, s: Spelling)
    requires IsNumeralForm(n) && SpelledAs(n, s)
    requires AreDigits(n.whole) && ToAscii(s.whole) == AsciiDigits(n.whole)
    requires AreDigits(n.fraction) && ToAscii(s.fraction) == AsciiDigits(n.fraction)
    requires AreDigits(n.exponent) && ToAscii(s.exponent) == AsciiDigits(n.exponent)
    ensures ToAscii(Spelled(n, s)) == Render(GroupsOf(n))
  {
    hide ToAscii, WritesDigits, AreDigits, AsciiDigits;
    PlainText(n.sign);
    PlainText(n.marker);
    PlainText(n.exponentSign);
    PointText(s.point);
    var fraction := AsciiDigits(n.fraction);
    assert RenderFraction(fraction) == ToAscii(s.point) + fraction;
    JoinAscii(n.sign, s.whole, s.point, s.fraction, n.marker, n.exponentSign, s.exponent);
  }

  lemma {:induction false} PlainText(s: string)
    requires s in {"", "+", "-", "e", "E"}
    ensures ToAscii(s) == s
  {
  }

  lemma {:induction false} PointText(s: string)
    ensures s == "" ==> ToAscii(s) == ""
    ensures |s| == 1 ==> (WritesPoint(s[0]) <==> ToAscii(s) == ".")
  {
    if |s| == 1 {
      AsciiMeaning(s[0]);
      assert ToAscii(s) == [AsciiChar(s[0])];
    }
  }

  lemma {:induction false} NumeralWritten(n: Numeral)
    requires AreDigits(n.whole) && AreDigits(n.fraction) && AreDigits(n.exponent)
    requires IsGroups(GroupsOf(n))
    ensures Written(GroupsOf(n)) == NumeralValue(n)
    ensures Value(GroupsOf(n).exponentDigits) == Horner(n.exponent)
    ensures AreDigits(n.whole + n.fraction)
    ensures GroupsOf(n).whole + GroupsOf(n).fraction == AsciiDigits(n.whole + n.fraction)
  {
    hide Written, Horner, Value;
    WrittenAligned(GroupsOf(n));
    HornerValue(n.exponent);
    HornerValue(n.whole + n.fraction);
    assert GroupsOf(n).whole + GroupsOf(n).fraction == AsciiDigits(n.whole + n.fraction);
  }

  // ----- Main results ----------------------------------------------------------------------

  /** A text spelled as a numeral is accepted exactly within the limits, and means the numeral's number. */
  lemma {:induction false} SpelledIff(n: Numeral, s: Spelling)
    requires IsNumeralForm(n) && SpelledAs(n, s)
    ensures ParseDecimal(Spelled(n, s)).Some? <==> WithinLimits(n, |Spelled(n, s)|)
    ensures ParseDecimal(Spelled(n, s)).Some? ==> Number(ParseDecimal(Spelled(n, s)).value) == NumeralValue(n)
  {
    hide ParseDecimal, Spelled, SpelledAs, NumeralValue, Written, Render, IsGroups, Significant, StripLeadingZeros, SpanWithin;
    SpelledGroups(n, s);
    NumeralWritten(n);
    SpanIff(n.whole + n.fraction, SIGNIFICANT_DIGITS);
    ParseIff(Spelled(n, s), GroupsOf(n));
  }

  lemma {:induction false} Cut(text: string, a: string, b: string) returns (x: string, y: string)
    requires ToAscii(text) == a + b
    ensures text == x + y && ToAscii(x) == a && ToAscii(y) == b
  {
    assert |text| == |ToAscii(text)|;
    x, y := text[..|a|], text[|a|..];
    ToAsciiSlice(text, 0, |a|);
    ToAsciiSlice(text, |a|, |text|);
    assert text[0..|a|] == x && text[|a|..|text|] == y;
  }

  lemma {:induction false} PlainBack(s: string, a: string)
    requires ToAscii(s) == a && a in {"", "+", "-", "e", "E"}
    ensures s == a
  {
    assert |s| == |ToAscii(s)|;
    if s != "" {
      AsciiMeaning(s[0]);
      assert a[0] == ToAscii(s)[0];
    }
  }

  lemma {:induction false} DigitsBack(s: string, a: string)
    requires AllDigits(a) && ToAscii(s) == a
    ensures WritesDigits(s, DigitsOf(a))
  {
    WritesDigitsIff(s, DigitsOf(a));
  }

  function NumeralOf(g: Groups): Numeral
    requires IsGroups(g)
  {
    Numeral(g.sign, DigitsOf(g.whole), DigitsOf(g.fraction), g.marker, g.exponentSign, DigitsOf(g.exponentDigits))
  }

  /** The spelling of an accepted text. */
  lemma {:induction false} SpellingOf(text: string, g: Groups) returns (s: Spelling)
    requires IsGroups(g) && ToAscii(text) == Render(g)
    ensures IsNumeralForm(NumeralOf(g)) && SpelledAs(NumeralOf(g), s) && text == Spelled(NumeralOf(g), s)
  {
    hide ToAscii, WritesDigits;
    var point := if g.fraction == "" then "" else ".";
    assert RenderFraction(g.fraction) == point + g.fraction;
    var exponent := g.marker + (g.exponentSign + g.exponentDigits);
    var sign, afterSign := Cut(text, g.sign, g.whole + ((point + g.fraction) + exponent));
    var whole, afterWhole := Cut(afterSign, g.whole, (point + g.fraction) + exponent);
    var pointed, tail := Cut(afterWhole, point + g.fraction, exponent);
    var dot, fraction := Cut(pointed, point, g.fraction);
    var marker, afterMarker := Cut(tail, g.marker, g.exponentSign + g.exponentDigits);
    var exponentSign, exponentDigits := Cut(afterMarker, g.exponentSign, g.exponentDigits);
    PlainBack(sign, g.sign);
    PlainBack(marker, g.marker);
    PlainBack(exponentSign, g.exponentSign);
    DigitsBack(whole, g.whole);
    DigitsBack(fraction, g.fraction);
    DigitsBack(exponentDigits, g.exponentDigits);
    assert |dot| == |point| by { AsciiLength(dot); }
    PointText(dot);
    s := Spelling(whole, dot, fraction, exponentDigits);
  }

  lemma {:induction false} AsciiLength(s: string)
    ensures |ToAscii(s)| == |s|
  {
  }

  /** The accepted texts and their numbers, with no conversion between scripts in the statement. */
  lemma {:induction false} WritesIff(text: string, v: real)
    ensures Writes(text, v) <==> ParseDecimal(text).Some? && Number(ParseDecimal(text).value) == v
  {
    hide ParseDecimal, IsNumeralForm, SpelledAs, Spelled, NumeralValue, WithinLimits, Number;
    if Writes(text, v) {
      var n: Numeral, s: Spelling :| WritesAs(text, v, n, s);
      SpelledIff(n, s);
    }
    if ParseDecimal(text).Some? && Number(ParseDecimal(text).value) == v {
      var n, s := AcceptedSpelling(text);
      SpelledIff(n, s);
      assert WritesAs(text, v, n, s);
    }
  }

  lemma {:induction false} AcceptedSpelling(text: string) returns (n: Numeral, s: Spelling)
    requires ParseDecimal(text).Some?
    ensures IsNumeralForm(n) && SpelledAs(n, s) && text == Spelled(n, s)
  {
    hide Match, Assemble, ToAscii, Render, IsNumeralForm, SpelledAs, Spelled;
    var g := Match(ToAscii(text)).value;
    MatchIff(ToAscii(text), g);
    n := NumeralOf(g);
    s := SpellingOf(text, g);
  }

  /** The text is an accepted numeral. */
  ghost predicate IsNumeral(text: string) {
    exists v: real :: Writes(text, v)
  }

  /** The number an accepted numeral writes; there is only one. */
  ghost function NumberOf(text: string): (v: real)
    requires IsNumeral(text)
    ensures Writes(text, v)
    ensures forall w: real :: Writes(text, w) ==> w == v
  {
    assert forall w: real, x: real :: Writes(text, w) && Writes(text, x) ==> w == x by {
      forall w: real, x: real | Writes(text, w) && Writes(text, x)
        ensures w == x
      {
        WritesIff(text, w);
        WritesIff(text, x);
      }
    }
    var v: real :| Writes(text, v);
    v
  }

  /** The parser accepts exactly the numerals and returns their numbers. */
  lemma {:induction false} ParsedNumber(text: string)
    ensures ParseDecimal(text).Some? <==> IsNumeral(text)
    ensures IsNumeral(text) ==> Number(ParseDecimal(text).value) == NumberOf(text)
  {
    hide ParseDecimal, Writes, Number;
    if ParseDecimal(text).Some? {
      WritesIff(text, Number(ParseDecimal(text).value));
    }
    if IsNumeral(text) {
      WritesIff(text, NumberOf(text));
    }
  }

  /** The decimal returned is the normal form of the number written. */
  lemma {:induction false} ParsedDecimalIff(text: string, d: Decimal)
    ensures ParseDecimal(text) == Some(d) <==> Normal(d) && Writes(text, Number(d))
  {
    hide ParseDecimal, Writes, Number, Normal;
    WritesIff(text, Number(d));
    if ParseDecimal(text).Some? {
      ParsedNormal(text);
      if Normal(d) && Number(ParseDecimal(text).value) == Number(d) {
        NormalUnique(ParseDecimal(text).value, d);
      }
    }
  }

  lemma {:induction false} ParsedNormal(text: string)
    requires ParseDecimal(text).Some?
    ensures Normal(ParseDecimal(text).value)
  {
    hide Match, Assemble, Normal;
    var g := Match(ToAscii(text)).value;
    MatchIff(ToAscii(text), g);
    AssembleMeaning(g, ParseDecimal(text).value);
  }
}
