/** Lengths of integers written in base two. */
module BitLength {
  import opened Powers

  function Abs(n: int): nat {
    if n < 0 then -n else n
  }

  /** Number of binary digits of `n`; zero has one. */
  function Length(n: nat): (k: nat)
    ensures k >= 1
  {
    if n < 2 then 1 else 1 + Length(n / 2)
  }

  function Bits(n: int): (k: nat)
    ensures k >= 1
  {
    Length(Abs(n))
  }

  lemma {:induction false} LengthBounds(n: nat)
    ensures n < Pow(2, Length(n))
    ensures n > 0 ==> Pow(2, Length(n) - 1) <= n
  {
    if n >= 2 {
      LengthBounds(n / 2);
    } else {
      assert Pow(2, 1) == 2 * Pow(2, 0);
    }
  }

  lemma {:induction false} LengthMonotone(a: nat, b: nat)
    requires a <= b
    ensures Length(a) <= Length(b)
  {
    if b >= 2 {
      LengthMonotone(a / 2, b / 2);
    }
  }

  /** A number below `2^k` has at most `k` binary digits, and the other way round. */
  lemma {:induction false} LengthIff(n: nat, k: nat)
    requires k >= 1
    ensures Length(n) <= k <==> n < Pow(2, k)
  {
    LengthBounds(n);
    if Length(n) <= k {
      PowMonotone(2, Length(n), k);
    } else {
      PowMonotone(2, k, Length(n) - 1);
      PowPositive(2, k);
    }
  }

  lemma {:induction false} ProductBelow(a: nat, b: nat, p: int, q: int)
    requires a < p && b < q
    ensures a * b < p * q
  {
  }

  lemma {:induction false} ProductAtLeast(a: nat, b: nat, p: int, q: int)
    requires 0 <= p <= a && 0 <= q <= b
    ensures p * q <= a * b
  {
    ProductLeft(p, a, q);
    ProductLeft(q, b, a);
  }

  lemma {:induction false} ProductLeft(p: int, a: int, q: int)
    requires p <= a && q >= 0
    ensures p * q <= a * q
  {
  }

  lemma {:induction false} AbsProduct(a: int, b: int)
    ensures Abs(a * b) == Abs(a) * Abs(b)
  {
  }

  /** The length of a product is the sum of the lengths, or one less. */
  lemma {:induction false} BitsProduct(a: int, b: int)
    requires a != 0 && b != 0
    ensures Bits(a) + Bits(b) - 1 <= Bits(a * b) <= Bits(a) + Bits(b)
  {
    hide Pow, Length;
    var m, n := Bits(a), Bits(b);
    AbsProduct(a, b);
    LengthBounds(Abs(a));
    LengthBounds(Abs(b));
    ProductBelow(Abs(a), Abs(b), Pow(2, m), Pow(2, n));
    PowAdd(2, m, n);
    LengthIff(Abs(a) * Abs(b), m + n);
    PowPositive(2, m - 1);
    PowPositive(2, n - 1);
    ProductAtLeast(Abs(a), Abs(b), Pow(2, m - 1), Pow(2, n - 1));
    PowAdd(2, m - 1, n - 1);
    if m + n >= 3 {
      LengthIff(Abs(a) * Abs(b), m + n - 2);
    }
  }

  /** A sum is at most one bit longer than its longer term. */
  lemma {:induction false} BitsSum(a: int, b: int, k: nat)
    requires Bits(a) <= k && Bits(b) <= k
    ensures Bits(a + b) <= k + 1 && Bits(a - b) <= k + 1
  {
    hide Length;
    LengthIff(Abs(a), k);
    LengthIff(Abs(b), k);
    assert Pow(2, k + 1) == 2 * Pow(2, k);
    LengthIff(Abs(a + b), k + 1);
    LengthIff(Abs(a - b), k + 1);
  }

  /** The bound the evaluator relies on before raising to a power. */
  lemma {:induction false} BitsPower(a: int, k: nat)
    ensures Bits(Pow(a, k)) <= if k == 0 then 1 else k * Bits(a)
  {
    if k > 1 {
      BitsPower(a, k - 1);
      var p := Pow(a, k - 1);
      if a != 0 && p != 0 {
        BitsProduct(a, p);
      }
      assert k * Bits(a) == Bits(a) + (k - 1) * Bits(a);
    } else if k == 1 {
      assert Pow(a, 0) == 1;
    }
  }

  lemma {:induction false} BitsAtMost(a: int, b: int)
    requires Abs(a) <= Abs(b)
    ensures Bits(a) <= Bits(b)
  {
    LengthMonotone(Abs(a), Abs(b));
  }
}
