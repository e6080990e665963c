/** Decimal digit strings and the natural numbers they write. */
module Digits {
  import opened Powers

  predicate IsDigit(c: char) {
    '0' <= c <= '9'
  }

  predicate AllDigits(s: string) {
    forall i :: 0 <= i < |s| ==> IsDigit(s[i])
  }

  function DigitOf(c: char): nat
    requires IsDigit(c)
  {
    c as int - '0' as int
  }

  function DigitChar(d: nat): (c: char)
    requires d < 10
    ensures IsDigit(c) && DigitOf(c) == d
  {
    (d + '0' as int) as char
  }

  /** Length of the longest prefix of `s` made of digits. */
  function DigitRun(s: string): (n: nat)
    ensures n <= |s| && AllDigits(s[..n])
    ensures forall i :: 0 <= i < n ==> IsDigit(s[i])
    ensures n < |s| ==> !IsDigit(s[n])
  {
    if s == "" || !IsDigit(s[0]) then 0
    else
      assert s[..1 + DigitRun(s[1..])] == [s[0]] + s[1..][..DigitRun(s[1..])];
      1 + DigitRun(s[1..])
  }

  lemma {:induction false} DigitRunExact(d: string, rest: string)
    requires AllDigits(d) && (rest == "" || !IsDigit(rest[0]))
    ensures DigitRun(d + rest) == |d|
  {
    var s := d + rest;
    assert forall i :: 0 <= i < |d| ==> s[i] == d[i];
    assert rest != "" ==> s[|d|] == rest[0];
  }

  /** The number a digit string writes, most significant digit first. */
  function Value(s: string): nat
    requires AllDigits(s)
  {
    if s == "" then 0 else 10 * Value(s[..|s| - 1]) + DigitOf(s[|s| - 1])
  }

  lemma {:induction false} PowTimes(v: int, n: nat)
    ensures v * Pow(10, n + 1) == 10 * (v * Pow(10, n))
  {
  }

  lemma {:induction false} ValueConcat(a: string, b: string)
    requires AllDigits(a) && AllDigits(b)
    ensures AllDigits(a + b) && Value(a + b) == Value(a) * Pow(10, |b|) + Value(b)
    decreases |b|
  {
    if b == "" {
      assert a + b == a;
    } else {
      var front := b[..|b| - 1];
      ValueConcat(a, front);
      assert (a + b)[..|a + b| - 1] == a + front;
      PowTimes(Value(a), |front|);
    }
  }

  lemma {:induction false} ValueBelow(s: string)
    requires AllDigits(s)
    ensures Value(s) < Pow(10, |s|)
  {
    if s != "" {
      ValueBelow(s[..|s| - 1]);
    }
  }

  lemma {:induction false} ValueAtLeast(s: string)
    requires AllDigits(s) && s != "" && s[0] != '0'
    ensures Value(s) >= Pow(10, |s| - 1) > 0
  {
    PowPositive(10, |s| - 1);
    if |s| > 1 {
      ValueAtLeast(s[..|s| - 1]);
    } else {
      assert s[..0] == "";
    }
  }

  function Zeros(n: nat): (s: string)
    ensures |s| == n && AllDigits(s) && forall i :: 0 <= i < n ==> s[i] == '0'
  {
    if n == 0 then "" else Zeros(n - 1) + "0"
  }

  lemma {:induction false} ZerosUnique(s: string)
    requires forall i :: 0 <= i < |s| ==> s[i] == '0'
    ensures s == Zeros(|s|)
  {
  }

  lemma {:induction false} ZerosValue(n: nat)
    ensures Value(Zeros(n)) == 0
  {
    if n > 0 {
      ZerosValue(n - 1);
      assert Zeros(n)[..n - 1] == Zeros(n - 1);
    }
  }

  lemma {:induction false} ValueTrailingZeros(s: string, n: nat)
    requires AllDigits(s)
    ensures AllDigits(s + Zeros(n)) && Value(s + Zeros(n)) == Value(s) * Pow(10, n)
  {
    ValueConcat(s, Zeros(n));
    ZerosValue(n);
  }

  lemma {:induction false} ValueLeadingZeros(n: nat, s: string)
    requires AllDigits(s)
    ensures AllDigits(Zeros(n) + s) && Value(Zeros(n) + s) == Value(s)
  {
    ValueConcat(Zeros(n), s);
    ZerosValue(n);
  }

  /** The usual decimal numeral of `n`, without leading zeros. */
  function ToDigits(n: nat): (s: string)
    ensures s != "" && AllDigits(s)
    ensures n > 0 ==> s[0] != '0'
  {
    if n < 10 then [DigitChar(n)] else ToDigits(n / 10) + [DigitChar(n % 10)]
  }

  lemma {:induction false} ToDigitsValue(n: nat)
    ensures Value(ToDigits(n)) == n
  {
    var s := ToDigits(n);
    if n < 10 {
      assert s[..0] == "";
    } else {
      ToDigitsValue(n / 10);
      assert s[..|s| - 1] == ToDigits(n / 10);
    }
  }

  lemma {:induction false} ToDigitsOfValue(s: string)
    requires AllDigits(s) && s != "" && s[0] != '0'
    ensures ToDigits(Value(s)) == s
  {
    ValueAtLeast(s);
    if |s| == 1 {
      assert s[..0] == "";
      assert s == [DigitChar(DigitOf(s[0]))];
    } else {
      var front := s[..|s| - 1];
      ToDigitsOfValue(front);
      ValueAtLeast(front);
      assert Value(s) / 10 == Value(front) && Value(s) % 10 == DigitOf(s[|s| - 1]);
      assert s == front + [s[|s| - 1]];
    }
  }

  function StripLeadingZeros(s: string): (r: string)
    requires AllDigits(s)
    ensures |r| <= |s| && AllDigits(r)
    ensures r != "" ==> r[0] != '0'
    ensures s == Zeros(|s| - |r|) + r
  {
    if s == "" then ""
    else if s[0] != '0' then
      assert Zeros(0) + s == s;
      s
    else
      var r := StripLeadingZeros(s[1..]);
      assert s == [s[0]] + Zeros(|s| - 1 - |r|) + r;
      assert [s[0]] + Zeros(|s| - 1 - |r|) == Zeros(|s| - |r|) by {
        ZerosUnique([s[0]] + Zeros(|s| - 1 - |r|));
      }
      r
  }

  /** Stripping recovers a numeral from any amount of zero padding in front of it. */
  lemma {:induction false} StripPadding(n: nat, d: string)
    requires AllDigits(d) && (d == "" || d[0] != '0')
    ensures AllDigits(Zeros(n) + d) && StripLeadingZeros(Zeros(n) + d) == d
  {
    hide StripLeadingZeros, Zeros, IsDigit;
    var s := Zeros(n) + d;
    var r := StripLeadingZeros(s);
    var k := |s| - |r|;
    assert s == Zeros(k) + r;
    assert forall i :: 0 <= i < n ==> s[i] == '0';
    assert forall i :: 0 <= i < k ==> s[i] == '0';
    assert r == s[k..] && d == s[n..];
    assert r != "" ==> r[0] == s[k];
    assert d != "" ==> d[0] == s[n];
  }

  /** Number of zeros at the end of `s`. */
  function TrailingZeros(s: string): (n: nat)
    ensures n <= |s|
    ensures forall i :: |s| - n <= i < |s| ==> s[i] == '0'
    ensures n < |s| ==> s[|s| - n - 1] != '0'
  {
    if s == "" || s[|s| - 1] != '0' then 0 else 1 + TrailingZeros(s[..|s| - 1])
  }

  lemma {:induction false} ZerosSuffix(s: string, n: nat)
    requires n <= |s| && forall i :: |s| - n <= i < |s| ==> s[i] == '0'
    ensures s == s[..|s| - n] + Zeros(n)
  {
    var tail := s[|s| - n..];
    ZerosUnique(tail);
    assert s == s[..|s| - n] + tail;
  }

  lemma {:induction false} TrailingZerosExact(d: string, n: nat)
    requires d != "" && d[|d| - 1] != '0'
    ensures TrailingZeros(d + Zeros(n)) == n
  {
    var s := d + Zeros(n);
    assert forall i :: |d| <= i < |s| ==> s[i] == '0';
    assert s[|d| - 1] == d[|d| - 1];
  }
}
