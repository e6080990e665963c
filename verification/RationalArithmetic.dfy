/**
 Bounded exact rational evaluation (expression-rational.ts), as functions that thread the
 operation counter. The object of the source is in module RationalBudget.
 */
module RationalArithmetic {
  import opened Powers
  import opened BitLength
  import opened LowestTerms
  import opened ExactDecimal
  import opened Expression

  const OPERATION_LIMIT := 4096
  const BIT_LIMIT := 4096

  datatype Rational = Rational(numerator: int, denominator: int)

  datatype Failure = ProofLimit | Undefined | BadInput

  /** A value or an exception, with the operation counter at that point. */
  datatype Run<+T> = Done(value: T, operations: nat) | Thrown(failure: Failure, operations: nat) {
    predicate IsFailure() {
      Thrown?
    }

    function PropagateFailure<U>(): Run<U>
      requires Thrown?
    {
      Thrown(failure, operations)
    }

    function Extract(): (T, nat)
      requires Done?
    {
      (value, operations)
    }
  }

  function Tick(operations: nat): (r: Run<()>)
    ensures r.operations == operations + 1
  {
    if operations + 1 > OPERATION_LIMIT then Thrown(ProofLimit, operations + 1) else Done((), operations + 1)
  }

  function Check(n: int, operations: nat): (r: Run<()>)
    ensures r.operations == operations
  {
    if Bits(n) > BIT_LIMIT then Thrown(ProofLimit, operations) else Done((), operations)
  }

  function BoundedProduct(a: int, b: int, operations: nat): (r: Run<int>)
    ensures r.operations >= operations
  {
    var (_, k) :- Tick(operations);
    if a == 0 || b == 0 then Done(0, k)
    else if Bits(a) + Bits(b) - 1 > BIT_LIMIT then Thrown(ProofLimit, k)
    else
      var (_, k2) :- Check(a * b, k);
      Done(a * b, k2)
  }

  /** Euclid's loop, one operation for each turn. */
  function Euclid(a: nat, b: nat, operations: nat): (r: Run<nat>)
    ensures r.operations >= operations
    ensures r.Done? ==> r.value == Gcd(a, b)
    decreases b
  {
    if b == 0 then Done(a, operations)
    else
      var (_, k) :- Tick(operations);
      Euclid(b, a % b, k)
  }

  /** `n / g` when `g` divides `n`, with the sign of the denominator moved to the numerator. */
  function Normalize(numerator: int, denominator: int, g: nat): Rational
    requires g > 0
  {
    if denominator < 0 then Rational(-(numerator / g), -(denominator / g))
    else Rational(numerator / g, denominator / g)
  }

  function MakeRational(numerator: int, denominator: int, operations: nat): (r: Run<Rational>)
    ensures r.operations >= operations
  {
    var (_, k) :- Tick(operations);
    var (_, k2) :- Check(numerator, k);
    var (_, k3) :- Check(denominator, k2);
    if denominator == 0 then Thrown(Undefined, k3)
    else
      var (g, k4) :- Euclid(Abs(numerator), Abs(denominator), k3);
      Done(Normalize(numerator, denominator, g), k4)
  }

  function EvalLiteral(value: Decimal, operations: nat): (r: Run<Rational>)
    ensures r.operations >= operations
  {
    if value.exponent >= 0 then
      var (n, k) :- BoundedProduct(value.coefficient, Pow(10, value.exponent), operations);
      MakeRational(n, 1, k)
    else MakeRational(value.coefficient, Pow(10, -value.exponent), operations)
  }

  /** The fraction `(a * b) / (c * d)`. */
  function Quotient(a: int, b: int, c: int, d: int, operations: nat): (r: Run<Rational>)
    ensures r.operations >= operations
  {
    var (n, k) :- BoundedProduct(a, b, operations);
    var (m, k2) :- BoundedProduct(c, d, k);
    MakeRational(n, m, k2)
  }

  function SumOrDifference(minus: bool, x: Rational, y: Rational, operations: nat): (r: Run<Rational>)
    ensures r.operations >= operations
  {
    var (a, k) :- BoundedProduct(x.numerator, y.denominator, operations);
    var (b, k2) :- BoundedProduct(y.numerator, x.denominator, k);
    var (m, k3) :- BoundedProduct(x.denominator, y.denominator, k2);
    MakeRational(if minus then a - b else a + b, m, k3)
  }

  predicate IsIntegerPower(y: Rational) {
    y.denominator == 1 && Abs(y.numerator) <= POWER_LIMIT
  }

  /** The guard made before any power is computed. */
  predicate PowerFits(x: Rational, magnitude: nat) {
    Bits(x.numerator) * magnitude <= BIT_LIMIT && Bits(x.denominator) * magnitude <= BIT_LIMIT
  }

  function RaiseTo(x: Rational, y: Rational, operations: nat): (r: Run<Rational>)
    ensures r.operations >= operations
  {
    if !IsIntegerPower(y) then Thrown(BadInput, operations)
    else if x.numerator == 0 && y.numerator <= 0 then Thrown(Undefined, operations)
    else if !PowerFits(x, Abs(y.numerator)) then Thrown(ProofLimit, operations)
    else
      var (_, k) :- Tick(operations);
      var n, d := Pow(x.numerator, Abs(y.numerator)), Pow(x.denominator, Abs(y.numerator));
      if y.numerator < 0 then MakeRational(d, n, k) else MakeRational(n, d, k)
  }

  function Apply(operator: Operator, x: Rational, y: Rational, operations: nat): (r: Run<Rational>)
    ensures r.operations >= operations
  {
    match operator
    case Add => SumOrDifference(false, x, y, operations)
    case Subtract => SumOrDifference(true, x, y, operations)
    case Multiply => Quotient(x.numerator, y.numerator, x.denominator, y.denominator, operations)
    case Divide => Quotient(x.numerator, y.denominator, x.denominator, y.numerator, operations)
    case Power => RaiseTo(x, y, operations)
  }

  function Negate(sign: Sign, x: Rational): Rational {
    if sign == Minus then Rational(-x.numerator, x.denominator) else x
  }

  /** `evaluateConstant`, from a budget that has already spent `operations`. */
  function Eval(node: Node, operations: nat): (r: Run<Rational>)
    ensures r.operations >= operations
    decreases node, 0
  {
    var (_, k) :- Tick(operations);
    match node
    case Literal(value, _) => EvalLiteral(value, k)
    case Variable(_, _) => Thrown(ProofLimit, k)
    case Unary(sign, operand, _) =>
      var (x, k2) :- Eval(operand, k);
      Done(Negate(sign, x), k2)
    case Binary(operator, left, right, _) =>
      var (x, k2) :- Eval(left, k);
      EvalRight(operator, x, right, k2)
  }

  /** The second half of a binary node: evaluate the right operand and apply the operator. */
  function EvalRight(operator: Operator, x: Rational, right: Node, operations: nat): (r: Run<Rational>)
    ensures r.operations >= operations
    decreases right, 1
  {
    var (y, k) :- Eval(right, operations);
    Apply(operator, x, y, k)
  }

  /** `compareConstants`: one budget for both sides, then a comparison field by field. */
  function CompareConstants(a: Node, b: Node): Run<bool> {
    var (x, k) :- Eval(a, 0);
    var (y, k2) :- Eval(b, k);
    Done(x.numerator == y.numerator && x.denominator == y.denominator, k2)
  }

  // ----- Spending operations beforehand ----------------------------------------------------

  /** What becomes of a run when `spent` more operations were used before it. */
  function Later<T>(r: Run<T>, spent: nat): Run<T> {
    if r.operations + spent <= OPERATION_LIMIT then r.(operations := r.operations + spent)
    else Thrown(ProofLimit, OPERATION_LIMIT + 1)
  }

  lemma {:induction false} BoundedProductLater(a: int, b: int, k: nat, spent: nat)
    requires k + spent <= OPERATION_LIMIT
    ensures BoundedProduct(a, b, k + spent) == Later(BoundedProduct(a, b, k), spent)
  {
    hide Bits;
  }

  lemma {:induction false} EuclidLater(a: nat, b: nat, k: nat, spent: nat)
    requires k + spent <= OPERATION_LIMIT
    ensures Euclid(a, b, k + spent) == Later(Euclid(a, b, k), spent)
    decreases b
  {
    if b > 0 && k + 1 + spent <= OPERATION_LIMIT {
      EuclidLater(b, a % b, k + 1, spent);
    }
  }

  lemma {:induction false} MakeRationalLater(n: int, d: int, k: nat, spent: nat)
    requires k + spent <= OPERATION_LIMIT
    ensures MakeRational(n, d, k + spent) == Later(MakeRational(n, d, k), spent)
  {
    hide Bits, Euclid, Normalize;
    if k + 1 + spent <= OPERATION_LIMIT {
      EuclidLater(Abs(n), Abs(d), k + 1, spent);
    }
  }

  lemma {:induction false} EvalLiteralLater(value: Decimal, k: nat, spent: nat)
    requires k + spent <= OPERATION_LIMIT
    ensures EvalLiteral(value, k + spent) == Later(EvalLiteral(value, k), spent)
  {
    hide BoundedProduct, MakeRational, Pow;
    if value.exponent >= 0 {
      BoundedProductLater(value.coefficient, Pow(10, value.exponent), k, spent);
      var r := BoundedProduct(value.coefficient, Pow(10, value.exponent), k);
      if r.Done? && r.operations + spent <= OPERATION_LIMIT {
        MakeRationalLater(r.value, 1, r.operations, spent);
      }
    } else {
      MakeRationalLater(value.coefficient, Pow(10, -value.exponent), k, spent);
    }
  }

  lemma {:induction false} QuotientLater(a: int, b: int, c: int, d: int, k: nat, spent: nat)
    requires k + spent <= OPERATION_LIMIT
    ensures Quotient(a, b, c, d, k + spent) == Later(Quotient(a, b, c, d, k), spent)
  {
    hide BoundedProduct, MakeRational;
    BoundedProductLater(a, b, k, spent);
    var r := BoundedProduct(a, b, k);
    if r.Done? && r.operations + spent <= OPERATION_LIMIT {
      BoundedProductLater(c, d, r.operations, spent);
      var s := BoundedProduct(c, d, r.operations);
      if s.Done? && s.operations + spent <= OPERATION_LIMIT {
        MakeRationalLater(r.value, s.value, s.operations, spent);
      }
    }
  }

  lemma {:induction false} SumOrDifferenceLater(minus: bool, x: Rational, y: Rational, k: nat, spent: nat)
    requires k + spent <= OPERATION_LIMIT
    ensures SumOrDifference(minus, x, y, k + spent) == Later(SumOrDifference(minus, x, y, k), spent)
  {
    hide BoundedProduct, MakeRational;
    BoundedProductLater(x.numerator, y.denominator, k, spent);
    var r := BoundedProduct(x.numerator, y.denominator, k);
    if r.Done? && r.operations + spent <= OPERATION_LIMIT {
      BoundedProductLater(y.numerator, x.denominator, r.operations, spent);
      var s := BoundedProduct(y.numerator, x.denominator, r.operations);
      if s.Done? && s.operations + spent <= OPERATION_LIMIT {
        BoundedProductLater(x.denominator, y.denominator, s.operations, spent);
        var t := BoundedProduct(x.denominator, y.denominator, s.operations);
        if t.Done? && t.operations + spent <= OPERATION_LIMIT {
          MakeRationalLater(if minus then r.value - s.value else r.value + s.value, t.value, t.operations, spent);
        }
      }
    }
  }

  lemma {:induction false} RaiseToLater(x: Rational, y: Rational, k: nat, spent: nat)
    requires k + spent <= OPERATION_LIMIT
    ensures RaiseTo(x, y, k + spent) == Later(RaiseTo(x, y, k), spent)
  {
    hide MakeRational, Pow, PowerFits, IsIntegerPower;
    if k + 1 + spent <= OPERATION_LIMIT {
      var n, d := Pow(x.numerator, Abs(y.numerator)), Pow(x.denominator, Abs(y.numerator));
      MakeRationalLater(n, d, k + 1, spent);
      MakeRationalLater(d, n, k + 1, spent);
    }
  }

  lemma {:induction false} ApplyLater(operator: Operator, x: Rational, y: Rational, k: nat, spent: nat)
    requires k + spent <= OPERATION_LIMIT
    ensures Apply(operator, x, y, k + spent) == Later(Apply(operator, x, y, k), spent)
  {
    hide SumOrDifference, Quotient, RaiseTo;
    match operator
    case Add => SumOrDifferenceLater(false, x, y, k, spent);
    case Subtract => SumOrDifferenceLater(true, x, y, k, spent);
    case Multiply => QuotientLater(x.numerator, y.numerator, x.denominator, y.denominator, k, spent);
    case Divide => QuotientLater(x.numerator, y.denominator, x.denominator, y.numerator, k, spent);
    case Power => RaiseToLater(x, y, k, spent);
  }

  /**
   Budget law: starting with operations already spent changes nothing but the counter, until the
   counter passes the limit; from then on the run ends with the proof limit.
   */
  lemma {:induction false} EvalLater(node: Node, k: nat, spent: nat)
    requires k + spent <= OPERATION_LIMIT
    ensures Eval(node, k + spent) == Later(Eval(node, k), spent)
    decreases node, 1
  {
    hide EvalLiteral, Apply, Negate;
    if k + 1 + spent <= OPERATION_LIMIT {
      match node
      case Literal(value, _) => EvalLiteralLater(value, k + 1, spent);
      case Variable(_, _) =>
      case Unary(sign, operand, _) => EvalLater(operand, k + 1, spent);
      case Binary(_, _, _, _) => EvalBinaryLater(node, k, spent);
    }
  }

  lemma {:induction false} EvalBinaryLater(node: Node, k: nat, spent: nat)
    requires node.Binary? && k + 1 + spent <= OPERATION_LIMIT
    ensures Eval(node, k + spent) == Later(Eval(node, k), spent)
    decreases node, 0
  {
    hide EvalRight, EvalLiteral, Negate;
    EvalLater(node.left, k + 1, spent);
    var r := Eval(node.left, k + 1);
    if r.Done? && r.operations + spent <= OPERATION_LIMIT {
      EvalRightLater(node.operator, r.value, node.right, r.operations, spent);
    }
  }

  lemma {:induction false} EvalRightLater(operator: Operator, x: Rational, right: Node, k: nat, spent: nat)
    requires k + spent <= OPERATION_LIMIT
    ensures EvalRight(operator, x, right, k + spent) == Later(EvalRight(operator, x, right, k), spent)
    decreases right, 2
  {
    hide Apply, Eval;
    EvalLater(right, k, spent);
    var s := Eval(right, k);
    if s.Done? && s.operations + spent <= OPERATION_LIMIT {
      ApplyLater(operator, x, s.value, s.operations, spent);
    }
  }
}
