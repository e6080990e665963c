/** Integer powers and powers of ten over the reals. */
module Powers {

  function Pow(b: int, e: nat): int {
    if e == 0 then 1 else b * Pow(b, e - 1)
  }

  lemma {:induction false} PowPositive(b: int, e: nat)
    requires b > 0
    ensures Pow(b, e) > 0
  {
    if e > 0 {
      PowPositive(b, e - 1);
    }
  }

  lemma {:induction false} PowAdd(b: int, m: nat, n: nat)
    ensures Pow(b, m + n) == Pow(b, m) * Pow(b, n)
  {
    if m > 0 {
      PowAdd(b, m - 1, n);
      calc {
        Pow(b, m + n);
        b * Pow(b, m - 1 + n);
        b * (Pow(b, m - 1) * Pow(b, n));
        (b * Pow(b, m - 1)) * Pow(b, n);
      }
    }
  }

  lemma {:induction false} PowMonotone(b: int, m: nat, n: nat)
    requires b >= 1 && m <= n
    ensures Pow(b, m) <= Pow(b, n)
  {
    if m < n {
      PowMonotone(b, m, n - 1);
      PowPositive(b, n - 1);
      assert b * Pow(b, n - 1) >= 1 * Pow(b, n - 1);
    }
  }

  /** The real number ten to the power `e`. */
  function Ten(e: int): (r: real)
    ensures r > 0.0
    decreases if e >= 0 then e else -e
  {
    if e == 0 then 1.0 else if e > 0 then 10.0 * Ten(e - 1) else Ten(e + 1) / 10.0
  }

  lemma {:induction false} TenIsPow(n: nat)
    ensures Ten(n) == Pow(10, n) as real
  {
    if n > 0 {
      TenIsPow(n - 1);
    }
  }

  /** Real multiplication, named so that proofs can hide it from the nonlinear solver. */
  function Times(a: real, b: real): real {
    a * b
  }

  lemma {:induction false} TimesTen(t: real, q: real, x: real, y: real)
    requires y == 10.0 * x
    ensures Times(t, 10.0 * q) == 10.0 * Times(t, q)
    ensures x == Times(t, q) <==> y == Times(t, 10.0 * q)
  {
  }

  lemma {:induction false} TenAdd(m: int, n: int)
    ensures Ten(m + n) == Times(Ten(m), Ten(n))
    decreases if n >= 0 then n else -n
  {
    if n != 0 {
      hide Times;
      if n > 0 {
        TenAdd(m, n - 1);
        TimesTen(Ten(m), Ten(n - 1), Ten(m + (n - 1)), Ten(m + n));
      } else {
        TenAdd(m, n + 1);
        TimesTen(Ten(m), Ten(n), Ten(m + n), Ten(m + (n + 1)));
      }
    }
  }

  /** The number `c` times ten to the power `e`. */
  function Scale(c: int, e: int): real {
    c as real * Ten(e)
  }

  lemma {:induction false} ScaleRegroup(c: int, p: int, t: real)
    ensures c as real * Times(t, p as real) == (c * p) as real * t
  {
    assert (c * p) as real == c as real * p as real;
  }

  /** A coefficient can be moved to any smaller exponent without changing the number. */
  lemma {:induction false} ScaleAlign(c: int, e: int, m: int)
    requires m <= e
    ensures Scale(c, e) == Scale(c * Pow(10, e - m), m)
  {
    hide Times, Ten, Pow;
    TenAdd(m, e - m);
    TenIsPow(e - m);
    ScaleRegroup(c, Pow(10, e - m), Ten(m));
  }

  lemma {:induction false} ScaleOrder(a: int, b: int, e: int)
    ensures Scale(a, e) < Scale(b, e) <==> a < b
    ensures Scale(a, e) == Scale(b, e) <==> a == b
  {
    var t := Ten(e);
    if a < b {
      assert (b as real - a as real) * t > 0.0;
    } else if b < a {
      assert (a as real - b as real) * t > 0.0;
    }
  }
}
