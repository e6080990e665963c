/** Exact comparison, difference and product of decimals (exact-decimal.ts). */
module DecimalArithmetic {
  import opened Powers
  import opened ExactDecimal

  function Min(a: int, b: int): int {
    if a <= b then a else b
  }

  /** The coefficient of `d` once its exponent is lowered to `e`. */
  function Aligned(d: Decimal, e: int): int
    requires e <= d.exponent
  {
    d.coefficient * Pow(10, d.exponent - e)
  }

  function Compare(a: Decimal, b: Decimal): int {
    var e := Min(a.exponent, b.exponent);
    var left, right := Aligned(a, e), Aligned(b, e);
    if left < right then -1 else if left > right then 1 else 0
  }

  function AbsoluteDifference(a: Decimal, b: Decimal): Decimal {
    var e := Min(a.exponent, b.exponent);
    var c := Aligned(a, e) - Aligned(b, e);
    Decimal(if c < 0 then -c else c, e)
  }

  function Multiply(a: Decimal, b: Decimal): Decimal {
    Decimal(a.coefficient * b.coefficient, a.exponent + b.exponent)
  }

  function Abs(x: real): real {
    if x < 0.0 then -x else x
  }

  /** Comparison is the order of the numbers, so it is a total order and its zero is equality. */
  lemma {:induction false} CompareMeaning(a: Decimal, b: Decimal)
    ensures Compare(a, b) < 0 <==> Number(a) < Number(b)
    ensures Compare(a, b) == 0 <==> Number(a) == Number(b)
    ensures Compare(a, b) > 0 <==> Number(a) > Number(b)
  {
    hide Scale, Pow;
    var e := Min(a.exponent, b.exponent);
    ScaleAlign(a.coefficient, a.exponent, e);
    ScaleAlign(b.coefficient, b.exponent, e);
    ScaleOrder(Aligned(a, e), Aligned(b, e), e);
    ScaleOrder(Aligned(b, e), Aligned(a, e), e);
  }

  lemma {:induction false} DifferenceMeaning(a: Decimal, b: Decimal)
    ensures Number(AbsoluteDifference(a, b)) == Abs(Number(a) - Number(b))
  {
    hide Scale, Pow, Aligned;
    var e := Min(a.exponent, b.exponent);
    var x, y := Aligned(a, e), Aligned(b, e);
    AlignedMeaning(a, e);
    AlignedMeaning(b, e);
    ScaleAdd(x, -y, e);
    ScaleAdd(y, -x, e);
    ScaleAdd(y, 0, e);
    ScaleAdd(x, 0, e);
    ScaleOrder(x - y, 0, e);
    ScaleOrder(0, x - y, e);
  }

  lemma {:induction false} AlignedMeaning(d: Decimal, e: int)
    requires e <= d.exponent
    ensures Number(d) == Scale(Aligned(d, e), e)
  {
    hide Scale;
    ScaleAlign(d.coefficient, d.exponent, e);
  }

  lemma {:induction false} ProductRegroup(a: int, b: int, s: real, t: real)
    ensures (a * b) as real * Times(s, t) == (a as real * s) * (b as real * t)
  {
    assert (a * b) as real == a as real * b as real;
  }

  lemma {:induction false} ProductMeaning(a: Decimal, b: Decimal)
    ensures Number(Multiply(a, b)) == Number(a) * Number(b)
  {
    hide Times, Ten;
    TenAdd(a.exponent, b.exponent);
    ProductRegroup(a.coefficient, b.coefficient, Ten(a.exponent), Ten(b.exponent));
  }
}
