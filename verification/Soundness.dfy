/** Evaluation computes the meaning of an expression exactly, in lowest terms and within 4096 bits. */
module Soundness {
  import opened Wrappers
  import opened Powers
  import opened BitLength
  import opened LowestTerms
  import opened ExactDecimal
  import opened Expression
  import opened Semantics
  import opened RationalArithmetic

  /** The number a fraction denotes. */
  function Quantity(x: Rational): real
    requires x.denominator != 0
  {
    x.numerator as real / x.denominator as real
  }

  /** Lowest terms, positive denominator, both parts within the bit limit. */
  predicate Exact(x: Rational) {
    Reduced(x.numerator, x.denominator) && Bits(x.numerator) <= BIT_LIMIT && Bits(x.denominator) <= BIT_LIMIT
  }

  /** Field-by-field comparison decides equality of the numbers. */
  lemma {:induction false} ExactEquality(x: Rational, y: Rational)
    requires Exact(x) && Exact(y)
    ensures Quantity(x) == Quantity(y) <==> x.numerator == y.numerator && x.denominator == y.denominator
  {
    hide Gcd;
    ReducedUnique(x.numerator, x.denominator, y.numerator, y.denominator);
    CrossProduct(x.numerator, x.denominator, y.numerator, y.denominator);
  }

  lemma {:induction false} CrossProduct(a: int, b: int, c: int, d: int)
    requires b != 0 && d != 0
    ensures a as real / b as real == c as real / d as real <==> a * d == c * b
  {
    var x, y := a as real / b as real, c as real / d as real;
    RealProduct(a, d);
    RealProduct(c, b);
    DivisionCancel(a as real, b as real);
    DivisionCancel(c as real, d as real);
    EqualQuotients(x, y, a as real, b as real, c as real, d as real);
  }

  lemma {:induction false} RealProduct(a: int, b: int)
    ensures (a * b) as real == a as real * b as real
  {
  }

  lemma {:induction false} DivisionCancel(a: real, b: real)
    requires b != 0.0
    ensures (a / b) * b == a
  {
  }

  lemma {:induction false} EqualQuotients(x: real, y: real, a: real, b: real, c: real, d: real)
    requires b != 0.0 && d != 0.0 && x * b == a && y * d == c
    ensures x == y <==> a * d == c * b
  {
    assert a * d == x * (b * d);
    assert c * b == y * (b * d);
    ScaledEquality(x, y, b, d);
  }

  lemma {:induction false} ScaledEquality(x: real, y: real, b: real, d: real)
    requires b != 0.0 && d != 0.0
    ensures x == y <==> x * (b * d) == y * (b * d)
  {
    NonzeroProduct(b, d);
    CancelReal(x, y, b * d);
  }

  lemma {:induction false} NonzeroProduct(b: real, d: real)
    ensures b * d == 0.0 <==> b == 0.0 || d == 0.0
  {
  }

  lemma {:induction false} CancelReal(x: real, y: real, z: real)
    requires z != 0.0
    ensures x == y <==> x * z == y * z
  {
    NonzeroProduct(x - y, z);
  }

  lemma {:induction false} DivideIs(p: real, z: real, v: real)
    requires z != 0.0 && v * z == p
    ensures p / z == v
  {
    DivisionCancel(p, z);
    CancelReal(p / z, v, z);
  }

  // ----- Making a rational -----------------------------------------------------------------

  lemma {:induction false} NormalizeFields(n: int, d: int, g: nat)
    requires d != 0 && g > 0 && g == Gcd(Abs(n), Abs(d))
    ensures var r := Normalize(n, d, g);
            && Reduced(r.numerator, r.denominator)
            && r.numerator * d == n * r.denominator
            && Abs(r.numerator) <= Abs(n) && Abs(r.denominator) <= Abs(d)
  {
    hide Gcd;
    var p, q := Abs(n) / g, Abs(d) / g;
    DividedOut(Abs(n), Abs(d));
    SignedQuotient(n, g);
    SignedQuotient(d, g);
    var r := Normalize(n, d, g);
    assert Abs(r.numerator) == p && r.denominator == q;
    assert q > 0;
    CrossIdentity(n, d, n / g, d / g, g);
    FactorAtLeast(p, g);
    FactorAtLeast(q, g);
  }

  lemma {:induction false} FactorAtLeast(p: nat, g: nat)
    requires g > 0
    ensures p <= p * g
  {
  }

  lemma {:induction false} SignedQuotient(n: int, g: nat)
    requires g > 0 && Abs(n) == (Abs(n) / g) * g
    ensures n == (n / g) * g && Abs(n / g) == Abs(n) / g
  {
    var p := Abs(n) / g;
    if n < 0 {
      assert n == (-p) * g;
      ExactQuotient(n, -p, g);
    }
  }

  lemma {:induction false} ExactQuotient(n: int, q: int, g: nat)
    requires g > 0 && n == q * g
    ensures n / g == q
  {
    Multiples(q - n / g, g);
    assert (n / g) * g + n % g == n;
    assert (q - n / g) * g == n % g;
  }

  lemma {:induction false} CrossIdentity(n: int, d: int, p: int, q: int, g: int)
    requires n == p * g && d == q * g
    ensures p * d == n * q && (-p) * d == n * (-q)
  {
  }

  lemma {:induction false} MakeRationalMeaning(n: int, d: int, k: nat)
    ensures var r := MakeRational(n, d, k);
            && (r.Done? ==> d != 0 && Exact(r.value) && r.value.denominator > 0 && Quantity(r.value) == n as real / d as real)
            && (r.Thrown? ==> r.failure != BadInput && (r.failure == Undefined ==> d == 0))
  {
    hide Bits, Gcd, Normalize, Reduced;
    EuclidThrows(Abs(n), Abs(d), k + 1);
    var r := MakeRational(n, d, k);
    if r.Done? {
      var g := Gcd(Abs(n), Abs(d));
      NormalizeFields(n, d, g);
      BitsAtMost(r.value.numerator, n);
      BitsAtMost(r.value.denominator, d);
      ReducedPositive(r.value.numerator, r.value.denominator);
      CrossProduct(r.value.numerator, r.value.denominator, n, d);
    }
  }

  lemma {:induction false} ReducedPositive(n: int, d: int)
    requires Reduced(n, d)
    ensures d > 0
  {
  }

  lemma {:induction false} EuclidThrows(a: nat, b: nat, k: nat)
    ensures var r := Euclid(a, b, k); r.Thrown? ==> r.failure == ProofLimit
    decreases b
  {
    if b > 0 {
      EuclidThrows(b, a % b, k + 1);
    }
  }

  /** A product is refused exactly when it is too long or the operations have run out. */
  lemma {:induction false} BoundedProductExactly(a: int, b: int, k: nat)
    ensures BoundedProduct(a, b, k) ==
            if k + 1 > OPERATION_LIMIT then Thrown(ProofLimit, k + 1)
            else if Bits(a * b) > BIT_LIMIT then Thrown(ProofLimit, k + 1)
            else Done(a * b, k + 1)
  {
    hide Length;
    if a != 0 && b != 0 {
      BitsProduct(a, b);
    } else {
      ZeroProduct(a, b);
      assert Bits(0) == 1 by { ZeroBits(); }
    }
  }

  lemma {:induction false} ZeroProduct(a: int, b: int)
    requires a == 0 || b == 0
    ensures a * b == 0
  {
  }

  lemma ZeroBits()
    ensures Bits(0) == 1
  {
  }

  /** A fraction of two products. */
  lemma {:induction false} QuotientMeaning(a: int, b: int, c: int, d: int, k: nat)
    ensures var r := Quotient(a, b, c, d, k);
            && (r.Done? ==> c * d != 0 && Exact(r.value) && r.value.denominator > 0)
            && (r.Done? ==> Quantity(r.value) == (a * b) as real / (c * d) as real)
            && (r.Thrown? ==> r.failure != BadInput && (r.failure == Undefined ==> c * d == 0))
  {
    hide BoundedProduct, MakeRational, Bits, Exact;
    BoundedProductExactly(a, b, k);
    BoundedProductExactly(c, d, k + 1);
    MakeRationalMeaning(a * b, c * d, k + 2);
  }

  // ----- Each operator ---------------------------------------------------------------------

  lemma {:induction false} QuantityProduct(x: Rational, b: real)
    requires x.denominator != 0 && b == x.denominator as real
    ensures Quantity(x) * b == x.numerator as real
  {
  }

  lemma {:induction false} ProductFormula(x: real, y: real, a: real, b: real, c: real, d: real)
    requires x * b == a && y * d == c && b != 0.0 && d != 0.0
    ensures (a * c) / (b * d) == x * y
  {
    NonzeroProduct(b, d);
    ProductFactors(x, y, b, d);
    DivideIs(a * c, b * d, x * y);
  }

  lemma {:induction false} ProductFactors(x: real, y: real, b: real, d: real)
    ensures (x * y) * (b * d) == (x * b) * (y * d)
  {
  }

  lemma {:induction false} QuotientFormula(x: real, y: real, a: real, b: real, c: real, d: real)
    requires x * b == a && y * d == c && b != 0.0 && d != 0.0 && y != 0.0
    ensures b * c != 0.0 && (a * d) / (b * c) == x / y
  {
    NonzeroProduct(y, d);
    NonzeroProduct(b, c);
    DivisionCancel(x, y);
    QuotientFactors(x / y, x, y, b, d);
    DivideIs(a * d, b * c, x / y);
  }

  lemma {:induction false} QuotientFactors(q: real, x: real, y: real, b: real, d: real)
    requires q * y == x
    ensures q * (b * (y * d)) == (x * b) * d
  {
    assert q * (b * (y * d)) == (q * y) * (b * d);
  }

  lemma {:induction false} SumFormula(x: real, y: real, a: real, b: real, c: real, d: real)
    requires x * b == a && y * d == c && b != 0.0 && d != 0.0
    ensures b * d != 0.0
    ensures (a * d + c * b) / (b * d) == x + y && (a * d - c * b) / (b * d) == x - y
  {
    NonzeroProduct(b, d);
    SumFactors(x, y, b, d);
    DivideIs(a * d + c * b, b * d, x + y);
    DivideIs(a * d - c * b, b * d, x - y);
  }

  lemma {:induction false} SumFactors(x: real, y: real, b: real, d: real)
    ensures (x + y) * (b * d) == (x * b) * d + (y * d) * b
    ensures (x - y) * (b * d) == (x * b) * d - (y * d) * b
  {
  }

  lemma {:induction false} MultiplyMeaning(x: Rational, y: Rational, k: nat)
    requires Exact(x) && Exact(y)
    ensures Faithful(Apply(Multiply, x, y, k), Combine(Multiply, Quantity(x), Quantity(y)))
  {
    hide Quotient, Exact, Reduced, Bits, Quantity;
    ExactPositive(x);
    ExactPositive(y);
    var a, b, c, d := x.numerator, x.denominator, y.numerator, y.denominator;
    QuotientMeaning(a, c, b, d, k);
    RealProduct(a, c);
    RealProduct(b, d);
    QuantityProduct(x, b as real);
    QuantityProduct(y, d as real);
    ProductFormula(Quantity(x), Quantity(y), a as real, b as real, c as real, d as real);
    NonzeroInts(b, d);
    IsFaithful(Quotient(a, c, b, d, k), Quantity(x) * Quantity(y));
  }

  /** A run that cannot be undefined and whose value is `v` agrees with the meaning `v`. */
  lemma {:induction false} IsFaithful(r: Run<Rational>, v: real)
    requires r.Done? ==> r.value.denominator > 0 && Exact(r.value) && Quantity(r.value) == v
    requires r.Thrown? ==> r.failure != Undefined
    ensures Faithful(r, Some(v))
  {
  }

  lemma {:induction false} NonzeroInts(b: int, d: int)
    requires b != 0 && d != 0
    ensures b * d != 0
  {
  }

  lemma {:induction false} ExactPositive(x: Rational)
    requires Exact(x)
    ensures x.denominator > 0
  {
  }

  /** A run agrees with a meaning: its value is exact and equal, and undefined means there is none. */
  predicate Faithful(r: Run<Rational>, meaning: Option<real>) {
    match r
    case Done(x, _) => Exact(x) && meaning == Some(Quantity(x))
    case Thrown(failure, _) => failure == Undefined ==> meaning == None
  }

  lemma {:induction false} ZeroQuantity(x: Rational)
    requires Exact(x)
    ensures Quantity(x) == 0.0 <==> x.numerator == 0
  {
    hide Reduced, Bits;
    ExactPositive(x);
    QuantityProduct(x, x.denominator as real);
    NonzeroProduct(Quantity(x), x.denominator as real);
  }

  lemma {:induction false} DivideMeaning(x: Rational, y: Rational, k: nat)
    requires Exact(x) && Exact(y)
    ensures Faithful(Apply(Divide, x, y, k), Combine(Divide, Quantity(x), Quantity(y)))
  {
    hide Quotient, Exact, Reduced, Bits, Quantity;
    ExactPositive(x);
    ExactPositive(y);
    ZeroQuantity(y);
    var a, b, c, d := x.numerator, x.denominator, y.numerator, y.denominator;
    QuotientMeaning(a, d, b, c, k);
    RealProduct(a, d);
    RealProduct(b, c);
    QuantityProduct(x, b as real);
    QuantityProduct(y, d as real);
    if c != 0 {
      QuotientFormula(Quantity(x), Quantity(y), a as real, b as real, c as real, d as real);
      NonzeroInts(b, c);
      IsFaithful(Quotient(a, d, b, c, k), Quantity(x) / Quantity(y));
    } else {
      ZeroProduct(b, c);
    }
  }

  lemma {:induction false} SumMeaning(minus: bool, x: Rational, y: Rational, k: nat)
    requires Exact(x) && Exact(y)
    ensures Faithful(SumOrDifference(minus, x, y, k), Some(if minus then Quantity(x) - Quantity(y) else Quantity(x) + Quantity(y)))
  {
    hide BoundedProduct, MakeRational, Exact, Reduced, Bits, Quantity;
    ExactPositive(x);
    ExactPositive(y);
    var a, b, c, d := x.numerator, x.denominator, y.numerator, y.denominator;
    BoundedProductExactly(a, d, k);
    BoundedProductExactly(c, b, k + 1);
    BoundedProductExactly(b, d, k + 2);
    MakeRationalMeaning(if minus then a * d - c * b else a * d + c * b, b * d, k + 3);
    RealProduct(a, d);
    RealProduct(c, b);
    RealProduct(b, d);
    QuantityProduct(x, b as real);
    QuantityProduct(y, d as real);
    SumFormula(Quantity(x), Quantity(y), a as real, b as real, c as real, d as real);
    NonzeroInts(b, d);
    IsFaithful(SumOrDifference(minus, x, y, k), if minus then Quantity(x) - Quantity(y) else Quantity(x) + Quantity(y));
  }

  lemma {:induction false} PowReal(a: int, k: nat)
    ensures Pow(a, k) as real == RealPow(a as real, k)
  {
    if k > 0 {
      PowReal(a, k - 1);
      RealProduct(a, Pow(a, k - 1));
    }
  }

  lemma {:induction false} PowQuotient(x: real, b: real, a: real, k: nat)
    requires x * b == a
    ensures RealPow(x, k) * RealPow(b, k) == RealPow(a, k)
  {
    if k > 0 {
      PowQuotient(x, b, a, k - 1);
      ProductFactors(x, RealPow(x, k - 1), b, RealPow(b, k - 1));
    }
  }

  lemma {:induction false} PowNonzero(b: real, k: nat)
    requires b != 0.0
    ensures RealPow(b, k) != 0.0
  {
    if k > 0 {
      PowNonzero(b, k - 1);
      NonzeroProduct(b, RealPow(b, k - 1));
    }
  }

  lemma {:induction false} IntegerQuantity(y: Rational)
    requires y.denominator == 1
    ensures IsInteger(Quantity(y)) && Quantity(y).Floor == y.numerator
  {
  }

  lemma {:induction false} DivideOne(a: real, b: real, v: real)
    requires b != 0.0 && v * b == a && v != 0.0
    ensures a != 0.0 && b / a == 1.0 / v
  {
    NonzeroProduct(v, b);
    DivisionCancel(1.0, v);
    assert (1.0 / v) * a == ((1.0 / v) * v) * b;
    DivideIs(b, a, 1.0 / v);
  }

  lemma {:induction false} PowerParts(x: Rational, m: nat)
    requires Exact(x)
    ensures Pow(x.denominator, m) != 0
    ensures Pow(x.numerator, m) as real / Pow(x.denominator, m) as real == RealPow(Quantity(x), m)
    ensures x.numerator != 0 ==> Pow(x.numerator, m) != 0 && RealPow(Quantity(x), m) != 0.0
    ensures x.numerator != 0 ==>
              Pow(x.denominator, m) as real / Pow(x.numerator, m) as real == 1.0 / RealPow(Quantity(x), m)
  {
    hide Reduced, Bits, RealPow, Pow, Quantity;
    ExactPositive(x);
    var v, b := Quantity(x), x.denominator as real;
    QuantityProduct(x, b);
    PowQuotient(v, b, x.numerator as real, m);
    PowReal(x.numerator, m);
    PowReal(x.denominator, m);
    PowNonzero(b, m);
    DivideIs(RealPow(x.numerator as real, m), RealPow(b, m), RealPow(v, m));
    if x.numerator != 0 {
      ZeroQuantity(x);
      PowNonzero(v, m);
      DivideOne(RealPow(x.numerator as real, m), RealPow(b, m), RealPow(v, m));
    }
  }

  lemma {:induction false} RaiseMeaning(x: Rational, y: Rational, k: nat)
    requires Exact(x) && Exact(y)
    ensures Faithful(RaiseTo(x, y, k), Combine(Power, Quantity(x), Quantity(y)))
  {
    hide MakeRational, Pow, RealPow, PowerFits, Exact, Quantity;
    if IsIntegerPower(y) {
      IntegerQuantity(y);
      ZeroQuantity(x);
      ExactPositive(x);
      var m := Abs(y.numerator);
      PowerParts(x, m);
      var n, d := Pow(x.numerator, m), Pow(x.denominator, m);
      MakeRationalMeaning(n, d, k + 1);
      MakeRationalMeaning(d, n, k + 1);
    }
  }

  lemma {:induction false} ApplyMeaning(operator: Operator, x: Rational, y: Rational, k: nat)
    requires Exact(x) && Exact(y)
    ensures Faithful(Apply(operator, x, y, k), Combine(operator, Quantity(x), Quantity(y)))
  {
    hide Quotient, RaiseTo, SumOrDifference, Exact, Quantity;
    ExactPositive(x);
    ExactPositive(y);
    match operator
    case Add => SumMeaning(false, x, y, k);
    case Subtract => SumMeaning(true, x, y, k);
    case Multiply => MultiplyMeaning(x, y, k);
    case Divide => DivideMeaning(x, y, k);
    case Power => RaiseMeaning(x, y, k);
  }

  lemma {:induction false} LiteralMeaning(value: Decimal, k: nat)
    ensures Faithful(EvalLiteral(value, k), Some(Number(value)))
    ensures EvalLiteral(value, k).Thrown? ==> EvalLiteral(value, k).failure == ProofLimit
  {
    hide BoundedProduct, MakeRational, Exact, Quantity, Pow, Ten, Bits;
    var c, e := value.coefficient, value.exponent;
    if e >= 0 {
      var p := Pow(10, e);
      BoundedProductExactly(c, p, k);
      MakeRationalMeaning(c * p, 1, k + 1);
      TenIsPow(e);
      RealProduct(c, p);
      IsFaithful(EvalLiteral(value, k), Number(value));
    } else {
      var p := Pow(10, -e);
      PowPositive(10, -e);
      MakeRationalMeaning(c, p, k);
      TenIsPow(-e);
      TenInverse(e);
      InverseProduct(c as real, p as real, Ten(e));
      IsFaithful(MakeRational(c, p, k), Number(value));
    }
  }

  lemma {:induction false} TenInverse(e: int)
    ensures Ten(e) * Ten(-e) == 1.0
  {
    TenAdd(e, -e);
  }

  lemma {:induction false} InverseProduct(c: real, p: real, t: real)
    requires p != 0.0 && t * p == 1.0
    ensures c / p == c * t
  {
    assert (c * t) * p == c * (t * p);
    DivideIs(c, p, c * t);
  }

  lemma {:induction false} NegateMeaning(sign: Sign, x: Rational)
    requires Exact(x)
    ensures Exact(Negate(sign, x))
    ensures Quantity(Negate(sign, x)) == if sign == Minus then -Quantity(x) else Quantity(x)
  {
    hide Gcd, Length;
    NegateReal(x.numerator as real, x.denominator as real);
  }

  lemma {:induction false} NegateReal(a: real, b: real)
    requires b != 0.0
    ensures (-a) / b == -(a / b)
  {
    DivisionCancel(a, b);
    DivideIs(-a, b, -(a / b));
  }

  /**
   The main soundness result. Whatever was spent before, a value returned is the meaning of the
   expression, in lowest terms and within the bit limit, under every assignment; and an undefined
   result means the expression has no meaning under any assignment.
   */
  lemma {:induction false} EvalMeaning(node: Node, k: nat, env: string -> real)
    ensures Faithful(Eval(node, k), Meaning(node, env))
    decreases node
  {
    hide EvalLiteral, Apply, Exact, Quantity, Negate, Combine, Number;
    match node
    case Literal(value, _) => LiteralMeaning(value, k + 1);
    case Variable(_, _) =>
    case Unary(sign, operand, _) =>
      EvalMeaning(operand, k + 1, env);
      var r := Eval(operand, k + 1);
      if r.Done? {
        ExactPositive(r.value);
        NegateMeaning(sign, r.value);
      }
    case Binary(operator, left, right, _) =>
      EvalMeaning(left, k + 1, env);
      var r := Eval(left, k + 1);
      if r.Done? {
        EvalMeaning(right, r.operations, env);
        var s := Eval(right, r.operations);
        if s.Done? {
          ExactPositive(r.value);
          ExactPositive(s.value);
          ApplyMeaning(operator, r.value, s.value, s.operations);
        }
      }
  }

  // ----- The power guard -------------------------------------------------------------------

  /** Past the guard, both powers fit the bit limit: the size check that follows never fires. */
  lemma {:induction false} PowerGuard(x: Rational, m: nat)
    requires PowerFits(x, m)
    ensures Bits(Pow(x.numerator, m)) <= BIT_LIMIT && Bits(Pow(x.denominator, m)) <= BIT_LIMIT
  {
    BitsPower(x.numerator, m);
    BitsPower(x.denominator, m);
  }

  /** So a power that passes the guard stops only when the operations run out. */
  lemma {:induction false} PowerStopsOnlyOnOperations(x: Rational, y: Rational, k: nat)
    requires IsIntegerPower(y) && !(x.numerator == 0 && y.numerator <= 0) && PowerFits(x, Abs(y.numerator))
    requires Exact(x) && RaiseTo(x, y, k).Thrown?
    ensures RaiseTo(x, y, k) == Thrown(ProofLimit, OPERATION_LIMIT + 1) || k > OPERATION_LIMIT
  {
    hide Bits, Pow, Exact, PowerFits, Quantity, RealPow;
    var m := Abs(y.numerator);
    PowerGuard(x, m);
    PowerParts(x, m);
    var n, d := Pow(x.numerator, m), Pow(x.denominator, m);
    if k + 2 <= OPERATION_LIMIT {
      EuclidStops(Abs(n), Abs(d), k + 2);
      EuclidStops(Abs(d), Abs(n), k + 2);
    }
  }

  lemma {:induction false} EuclidStops(a: nat, b: nat, k: nat)
    requires k <= OPERATION_LIMIT
    ensures var r := Euclid(a, b, k); r.Thrown? ==> r == Thrown(ProofLimit, OPERATION_LIMIT + 1)
    decreases b
  {
    if b > 0 && k + 1 <= OPERATION_LIMIT {
      EuclidStops(b, a % b, k + 1);
    }
  }
}
