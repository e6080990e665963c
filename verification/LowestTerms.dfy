/** Greatest common divisors and fractions in lowest terms. */
module LowestTerms {
  import opened BitLength

  /** Euclid's algorithm. */
  function Gcd(a: nat, b: nat): (g: nat)
    ensures a > 0 || b > 0 ==> g > 0
    decreases b
  {
    if b == 0 then a else Gcd(b, a % b)
  }

  ghost predicate Divides(d: nat, n: int) {
    exists q: int :: n == q * d
  }

  lemma {:induction false} Multiples(q: int, d: nat)
    ensures q >= 1 ==> q * d >= d
    ensures q <= 0 ==> q * d <= 0
    ensures q <= -1 ==> q * d <= 0 - d
  {
  }

  lemma {:induction false} DividesIntro(d: nat, n: int, q: int)
    requires n == q * d
    ensures Divides(d, n)
  {
  }

  /** Coefficients with `x * a + y * b` equal to the greatest common divisor. */
  function Bezout(a: nat, b: nat): (int, int)
    decreases b
  {
    if b == 0 then (1, 0)
    else
      var (x, y) := Bezout(b, a % b);
      (y, x - (a / b) * y)
  }

  lemma {:induction false} BezoutStep(a: int, b: int, q: int, r: int, x: int, y: int)
    requires a == q * b + r
    ensures y * a + (x - q * y) * b == x * b + y * r
  {
  }

  lemma {:induction false} BezoutIdentity(a: nat, b: nat)
    ensures Bezout(a, b).0 * a + Bezout(a, b).1 * b == Gcd(a, b)
    decreases b
  {
    if b > 0 {
      BezoutIdentity(b, a % b);
      var (x, y) := Bezout(b, a % b);
      BezoutStep(a, b, a / b, a % b, x, y);
    }
  }

  lemma {:induction false} DividesCombination(d: nat, a: int, b: int, q: int)
    requires Divides(d, a) && Divides(d, b)
    ensures Divides(d, q * a + b)
  {
    var i :| a == i * d;
    var j :| b == j * d;
    DividesIntro(d, q * a + b, q * i + j);
  }

  /** Euclid's algorithm yields a common divisor. */
  lemma {:induction false} GcdDivides(a: nat, b: nat)
    ensures Divides(Gcd(a, b), a) && Divides(Gcd(a, b), b)
    decreases b
  {
    if b == 0 {
      DividesIntro(a, a, 1);
      DividesIntro(a, 0, 0);
    } else {
      GcdDivides(b, a % b);
      DividesCombination(Gcd(a, b), b, a % b, a / b);
    }
  }

  /** Every common divisor divides it, so it is the greatest. */
  lemma {:induction false} GcdGreatest(a: nat, b: nat, d: nat)
    requires Divides(d, a) && Divides(d, b)
    ensures Divides(d, Gcd(a, b))
  {
    var x, y := Bezout(a, b).0, Bezout(a, b).1;
    BezoutIdentity(a, b);
    var i: int :| a == i * d;
    var j: int :| b == j * d;
    CombineQuotients(x, i, y, j, d);
    DividesIntro(d, Gcd(a, b), x * i + y * j);
  }

  lemma {:induction false} CombineQuotients(x: int, i: int, y: int, j: int, d: int)
    ensures x * (i * d) + y * (j * d) == (x * i + y * j) * d
  {
  }

  /** A fraction in lowest terms, with positive denominator. */
  predicate Reduced(numerator: int, denominator: int) {
    denominator > 0 && Gcd(Abs(numerator), denominator) == 1
  }

  lemma {:induction false} DividesOne(g: nat)
    requires Divides(g, 1)
    ensures g == 1
  {
    var q: int :| 1 == q * g;
    Multiples(q, g);
  }

  lemma {:induction false} CancelFactor(a: int, b: int, g: int)
    requires g > 0 && a * g == b * g
    ensures a == b
  {
  }

  /** Dividing out the greatest common divisor leaves nothing in common. */
  lemma {:induction false} DividedOut(a: nat, b: nat)
    requires a > 0 || b > 0
    ensures var g := Gcd(a, b);
            g > 0 && a == (a / g) * g && b == (b / g) * g && Gcd(a / g, b / g) == 1
  {
    var g := Gcd(a, b);
    GcdDivides(a, b);
    QuotientExact(a, g);
    QuotientExact(b, g);
    var h := Gcd(a / g, b / g);
    var x, y := Bezout(a, b).0, Bezout(a, b).1;
    BezoutIdentity(a, b);
    CombineQuotients(x, a / g, y, b / g, g);
    CancelFactor(x * (a / g) + y * (b / g), 1, g);
    GcdDivides(a / g, b / g);
    assert Divides(h, 1) by {
      DividesCombination(h, a / g, 0, x) by { DividesIntro(h, 0, 0); }
      DividesCombination(h, b / g, x * (a / g), y);
    }
    DividesOne(h);
  }

  lemma {:induction false} QuotientExact(a: nat, g: nat)
    requires g > 0 && Divides(g, a)
    ensures a == (a / g) * g
  {
    var q: int :| a == q * g;
    if a / g != q {
      CancelQuotient(a, q, g);
    }
  }

  lemma {:induction false} CancelQuotient(a: nat, q: int, g: nat)
    requires g > 0 && a == q * g
    ensures a / g == q
  {
    assert (a / g) * g + a % g == a;
    assert (q - a / g) * g == a % g;
    Multiples(q - a / g, g);
  }

  /** If `b` divides `k * n` and shares no factor with `n`, it divides `k`. */
  lemma {:induction false} CoprimeDivides(n: nat, b: nat, k: int)
    requires Gcd(n, b) == 1 && Divides(b, k * n)
    ensures Divides(b, k)
  {
    var x, y := Bezout(n, b).0, Bezout(n, b).1;
    BezoutIdentity(n, b);
    var q: int :| k * n == q * b;
    Unfold(k, x, n, y, b, q);
    DividesIntro(b, k, x * q + k * y);
  }

  lemma {:induction false} Unfold(k: int, x: int, n: int, y: int, b: int, q: int)
    requires x * n + y * b == 1 && k * n == q * b
    ensures k == (x * q + k * y) * b
  {
    assert k == k * (x * n + y * b) == x * (k * n) + k * y * b;
  }

  lemma {:induction false} DividesBound(d: nat, n: nat)
    requires Divides(d, n) && n > 0
    ensures d <= n
  {
    var q: int :| n == q * d;
    Multiples(q, d);
  }

  lemma {:induction false} SignedDivides(d: nat, n: int)
    requires Divides(d, n)
    ensures Divides(d, -n)
  {
    var q: int :| n == q * d;
    DividesIntro(d, -n, -q);
  }

  /** Two fractions in lowest terms are equal only when both fields are: no cross product is needed. */
  lemma {:induction false} ReducedUnique(a: int, b: int, c: int, d: int)
    requires Reduced(a, b) && Reduced(c, d)
    ensures a * d == c * b <==> a == c && b == d
  {
    if a * d == c * b {
      DenominatorDivides(a, b, c, d);
      DenominatorDivides(c, d, a, b);
      DividesBound(b, d);
      DividesBound(d, b);
      CancelFactor(a, c, b);
    }
  }

  lemma {:induction false} DenominatorDivides(a: int, b: int, c: int, d: int)
    requires Reduced(a, b) && d > 0 && a * d == c * b
    ensures Divides(b, d)
  {
    hide Gcd;
    DividesIntro(b, a * d, c);
    if a < 0 {
      SignedDivides(b, a * d);
      assert -(a * d) == d * Abs(a);
    } else {
      assert a * d == d * Abs(a);
    }
    CoprimeDivides(Abs(a), b, d);
  }
}
