/**
 When evaluation succeeds, stated on the tree and the meanings of its parts: the integers it forms
 must fit the bit limit and the operations, counted from those meanings, must fit the budget.
 */
module Completeness {
  import opened Wrappers
  import opened Powers
  import opened BitLength
  import opened LowestTerms
  import opened ExactDecimal
  import opened Expression
  import opened Semantics
  import opened RationalArithmetic
  import opened Soundness

  /** Any assignment will do for a tree without variables. */
  const NO_VARIABLES: string -> real := name => 0.0

  function Value(node: Node): Option<real> {
    Meaning(node, NO_VARIABLES)
  }

  /** The names that occur in a tree. */
  function Names(node: Node): set<string> {
    match node
    case Literal(_, _) => {}
    case Variable(name, _) => {name}
    case Unary(_, operand, _) => Names(operand)
    case Binary(_, left, right, _) => Names(left) + Names(right)
  }

  lemma {:induction false} ContainsVariableIff(node: Node)
    ensures ContainsVariable(node) <==> Names(node) != {}
  {
    match node
    case Literal(_, _) =>
    case Variable(name, _) => assert name in Names(node);
    case Unary(_, operand, _) => ContainsVariableIff(operand);
    case Binary(_, left, right, _) =>
      ContainsVariableIff(left);
      ContainsVariableIff(right);
  }

  /** Only the names that occur matter to the meaning. */
  lemma {:induction false} MeaningDependsOnNames(node: Node, env: string -> real, other: string -> real)
    requires forall name <- Names(node) :: env(name) == other(name)
    ensures Meaning(node, env) == Meaning(node, other)
  {
    match node
    case Literal(_, _) =>
    case Variable(name, _) => assert name in Names(node);
    case Unary(_, operand, _) => MeaningDependsOnNames(operand, env, other);
    case Binary(_, left, right, _) =>
      MeaningDependsOnNames(left, env, other);
      MeaningDependsOnNames(right, env, other);
  }

  // ----- The fraction of a number ----------------------------------------------------------

  predicate Denotes(x: Rational, v: real) {
    Reduced(x.numerator, x.denominator) && x.denominator > 0 && Quantity(x) == v
  }

  /** The fraction in lowest terms that denotes `v`, when there is one. */
  ghost function Fraction(v: real): Rational {
    if exists x: Rational :: Denotes(x, v) then
      var x: Rational :| Denotes(x, v);
      x
    else Rational(0, 1)
  }

  lemma {:induction false} FractionUnique(x: Rational, v: real)
    requires Denotes(x, v)
    ensures Fraction(v) == x
  {
    hide Gcd;
    var y := Fraction(v);
    ReducedUnique(x.numerator, x.denominator, y.numerator, y.denominator);
    CrossProduct(x.numerator, x.denominator, y.numerator, y.denominator);
  }

  /** The fraction in lowest terms that a tree denotes. */
  ghost function Lowest(node: Node): Rational {
    match Value(node)
    case None => Rational(0, 1)
    case Some(v) => Fraction(v)
  }

  // ----- What evaluation forms and what it costs -------------------------------------------

  predicate Fits(n: int) {
    Bits(n) <= BIT_LIMIT
  }

  /** Divisions with remainder until the remainder is zero. */
  function Turns(a: nat, b: nat): nat
    decreases b
  {
    if b == 0 then 0 else 1 + Turns(b, a % b)
  }

  /** Reducing a fraction takes one operation and one for each division with remainder. */
  function ReductionCost(n: int, d: int): nat {
    1 + Turns(Abs(n), Abs(d))
  }

  /** The products an operator needs to put `a/b` and `c/d` together; powers are guarded instead. */
  function Products(operator: Operator, x: Rational, y: Rational): seq<int> {
    var a, b, c, d := x.numerator, x.denominator, y.numerator, y.denominator;
    match operator
    case Add => [a * d, c * b, b * d]
    case Subtract => [a * d, c * b, b * d]
    case Multiply => [a * c, b * d]
    case Divide => [a * d, b * c]
    case Power => []
  }

  /** The combined fraction before it is reduced. */
  function Unreduced(operator: Operator, x: Rational, y: Rational): (int, int) {
    var a, b, c, d := x.numerator, x.denominator, y.numerator, y.denominator;
    match operator
    case Add => (a * d + c * b, b * d)
    case Subtract => (a * d - c * b, b * d)
    case Multiply => (a * c, b * d)
    case Divide => (a * d, b * c)
    case Power => if c < 0 then (Pow(b, -c), Pow(a, -c)) else (Pow(a, c), Pow(b, c))
  }

  /** An exponent is an integer from -16 to 16, and the power is estimated before it is computed. */
  predicate PowerAffordable(x: Rational, y: Rational) {
    && y.denominator == 1 && -POWER_LIMIT <= y.numerator <= POWER_LIMIT
    && Bits(x.numerator) * Abs(y.numerator) <= BIT_LIMIT
    && Bits(x.denominator) * Abs(y.numerator) <= BIT_LIMIT
  }

  predicate OperatorAffordable(operator: Operator, x: Rational, y: Rational) {
    if operator == Power then PowerAffordable(x, y)
    else (forall p <- Products(operator, x, y) :: Fits(p)) && Fits(Unreduced(operator, x, y).0)
  }

  function OperatorCost(operator: Operator, x: Rational, y: Rational): nat {
    (if operator == Power then 1 else |Products(operator, x, y)|)
    + ReductionCost(Unreduced(operator, x, y).0, Unreduced(operator, x, y).1)
  }

  predicate LiteralAffordable(c: int, e: int) {
    if e >= 0 then Fits(c * Pow(10, e)) else Fits(c) && Fits(Pow(10, -e))
  }

  function LiteralCost(c: int, e: int): nat {
    if e >= 0 then 1 + ReductionCost(c * Pow(10, e), 1) else ReductionCost(c, Pow(10, -e))
  }

  /** There is no variable, every part has a value, and every integer formed on the way fits. */
  ghost predicate Affordable(node: Node) {
    match node
    case Literal(value, _) => LiteralAffordable(value.coefficient, value.exponent)
    case Variable(_, _) => false
    case Unary(_, operand, _) => Affordable(operand)
    case Binary(operator, left, right, _) =>
      && Affordable(left) && Affordable(right)
      && Value(node).Some?
      && OperatorAffordable(operator, Lowest(left), Lowest(right))
  }

  /** One operation for each node, and what its arithmetic takes. */
  ghost function Cost(node: Node): nat {
    match node
    case Literal(value, _) => 1 + LiteralCost(value.coefficient, value.exponent)
    case Variable(_, _) => 1
    case Unary(_, operand, _) => 1 + Cost(operand)
    case Binary(operator, left, right, _) =>
      1 + Cost(left) + Cost(right) + OperatorCost(operator, Lowest(left), Lowest(right))
  }

  /** A tree that a fresh budget can evaluate. */
  ghost predicate Evaluates(node: Node) {
    Affordable(node) && Cost(node) <= OPERATION_LIMIT
  }

  // ----- Each operation, exactly -----------------------------------------------------------

  lemma {:induction false} EuclidExactly(a: nat, b: nat, k: nat)
    requires k <= OPERATION_LIMIT
    ensures Euclid(a, b, k).Done? <==> k + Turns(a, b) <= OPERATION_LIMIT
    ensures Euclid(a, b, k).Done? ==> Euclid(a, b, k).operations == k + Turns(a, b)
    decreases b
  {
    if b > 0 && k + 1 <= OPERATION_LIMIT {
      EuclidExactly(b, a % b, k + 1);
    }
  }

  lemma {:induction false} MakeRationalExactly(n: int, d: int, k: nat)
    ensures MakeRational(n, d, k).Done? <==> d != 0 && Fits(n) && Fits(d) && k + ReductionCost(n, d) <= OPERATION_LIMIT
    ensures MakeRational(n, d, k).Done? ==> MakeRational(n, d, k).operations == k + ReductionCost(n, d)
  {
    hide Bits, Euclid, Normalize, Turns;
    if k + 1 <= OPERATION_LIMIT {
      EuclidExactly(Abs(n), Abs(d), k + 1);
    }
  }

  lemma {:induction false} LiteralExactly(value: Decimal, k: nat)
    ensures var (c, e) := (value.coefficient, value.exponent);
            EvalLiteral(value, k).Done? <==> LiteralAffordable(c, e) && k + LiteralCost(c, e) <= OPERATION_LIMIT
    ensures EvalLiteral(value, k).Done? ==>
              EvalLiteral(value, k).operations == k + LiteralCost(value.coefficient, value.exponent)
  {
    hide BoundedProduct, MakeRational, ReductionCost, Bits, Pow;
    var c, e := value.coefficient, value.exponent;
    if e >= 0 {
      BoundedProductExactly(c, Pow(10, e), k);
      MakeRationalExactly(c * Pow(10, e), 1, k + 1);
      assert Fits(1) by { OneFits(); }
    } else {
      PowPositive(10, -e);
      MakeRationalExactly(c, Pow(10, -e), k);
    }
  }

  lemma OneFits()
    ensures Fits(1)
  {
  }

  lemma {:induction false} QuotientExactly(a: int, b: int, c: int, d: int, k: nat)
    ensures Quotient(a, b, c, d, k).Done? <==>
              c * d != 0 && Fits(a * b) && Fits(c * d) && k + 2 + ReductionCost(a * b, c * d) <= OPERATION_LIMIT
    ensures Quotient(a, b, c, d, k).Done? ==>
              Quotient(a, b, c, d, k).operations == k + 2 + ReductionCost(a * b, c * d)
  {
    hide BoundedProduct, MakeRational, Turns, Bits;
    BoundedProductExactly(a, b, k);
    BoundedProductExactly(c, d, k + 1);
    MakeRationalExactly(a * b, c * d, k + 2);
  }

  lemma {:induction false} SumExactly(minus: bool, x: Rational, y: Rational, k: nat)
    requires x.denominator > 0 && y.denominator > 0
    ensures var (a, b, c, d) := (x.numerator, x.denominator, y.numerator, y.denominator);
            var n := if minus then a * d - c * b else a * d + c * b;
            var r := SumOrDifference(minus, x, y, k);
            && (r.Done? <==> Fits(a * d) && Fits(c * b) && Fits(b * d) && Fits(n)
                             && k + 3 + ReductionCost(n, b * d) <= OPERATION_LIMIT)
            && (r.Done? ==> r.operations == k + 3 + ReductionCost(n, b * d))
  {
    hide BoundedProduct, MakeRational, Turns, Bits;
    var a, b, c, d := x.numerator, x.denominator, y.numerator, y.denominator;
    BoundedProductExactly(a, d, k);
    BoundedProductExactly(c, b, k + 1);
    BoundedProductExactly(b, d, k + 2);
    MakeRationalExactly(if minus then a * d - c * b else a * d + c * b, b * d, k + 3);
    NonzeroInts(b, d);
  }

  lemma {:induction false} PowerExactly(x: Rational, y: Rational, k: nat)
    requires Exact(x) && Exact(y)
    ensures RaiseTo(x, y, k).Done? <==>
              && PowerAffordable(x, y) && Semantics.Combine(Power, Quantity(x), Quantity(y)).Some?
              && k + OperatorCost(Power, x, y) <= OPERATION_LIMIT
    ensures RaiseTo(x, y, k).Done? ==> RaiseTo(x, y, k).operations == k + OperatorCost(Power, x, y)
  {
    hide MakeRational, Pow, RealPow, Exact, Quantity, ReductionCost, Bits;
    ExactPositive(x);
    ExactPositive(y);
    ZeroQuantity(x);
    var m := Abs(y.numerator);
    PowerParts(x, m);
    if y.denominator == 1 {
      IntegerQuantity(y);
    }
    if PowerAffordable(x, y) {
      PowerGuard(x, m);
    }
    var n, d := Pow(x.numerator, m), Pow(x.denominator, m);
    MakeRationalExactly(n, d, k + 1);
    MakeRationalExactly(d, n, k + 1);
  }

  lemma {:induction false} ApplyExactly(operator: Operator, x: Rational, y: Rational, k: nat)
    requires Exact(x) && Exact(y)
    ensures Apply(operator, x, y, k).Done? <==>
              && OperatorAffordable(operator, x, y) && Semantics.Combine(operator, Quantity(x), Quantity(y)).Some?
              && k + OperatorCost(operator, x, y) <= OPERATION_LIMIT
    ensures Apply(operator, x, y, k).Done? ==> Apply(operator, x, y, k).operations == k + OperatorCost(operator, x, y)
  {
    hide Quotient, RaiseTo, SumOrDifference, Exact, Quantity, ReductionCost, Bits, Pow, PowerAffordable;
    ExactPositive(x);
    ExactPositive(y);
    var a, b, c, d := x.numerator, x.denominator, y.numerator, y.denominator;
    match operator
    case Add => SumExactly(false, x, y, k);
    case Subtract => SumExactly(true, x, y, k);
    case Multiply =>
      QuotientExactly(a, c, b, d, k);
      NonzeroInts(b, d);
    case Divide =>
      QuotientExactly(a, d, b, c, k);
      ZeroQuantity(y);
      if c != 0 {
        NonzeroInts(b, c);
      } else {
        ZeroProduct(b, c);
      }
    case Power => PowerExactly(x, y, k);
  }

  // ----- Trees -----------------------------------------------------------------------------

  /** The run of a tree is decided by what it forms and what it costs. */
  ghost predicate RunsAsCounted(node: Node, k: nat) {
    var r := Eval(node, k);
    && (r.Done? <==> Affordable(node) && k + Cost(node) <= OPERATION_LIMIT)
    && (r.Done? ==> r.operations == k + Cost(node) && r.value == Lowest(node))
    && (r.Done? ==> Exact(r.value) && Value(node).Some? && Denotes(r.value, Value(node).value))
  }

  lemma {:induction false} LowestIs(node: Node, k: nat)
    requires Eval(node, k).Done?
    ensures Eval(node, k).value == Lowest(node) && Exact(Lowest(node))
    ensures Value(node).Some? && Denotes(Lowest(node), Value(node).value)
  {
    hide Eval, Meaning, Fraction;
    EvalMeaning(node, k, NO_VARIABLES);
    FractionUnique(Eval(node, k).value, Value(node).value);
  }

  /**
   Completeness: evaluation returns exactly when every integer formed fits and the operations fit
   what is left of the budget, and then it returns the fraction of the meaning at the counted cost.
   */
  lemma {:induction false} EvaluatesIff(node: Node, k: nat)
    ensures RunsAsCounted(node, k)
    decreases node
  {
    hide Eval, Lowest, Value, Exact, Denotes, OperatorCost, OperatorAffordable, LiteralCost, LiteralAffordable;
    if Eval(node, k).Done? {
      LowestIs(node, k);
    }
    if k + 1 <= OPERATION_LIMIT {
      match node
      case Literal(value, _) => LiteralRuns(node, k);
      case Variable(_, _) => VariableStops(node, k);
      case Unary(_, operand, _) =>
        EvaluatesIff(operand, k + 1);
        UnaryStep(node, k);
      case Binary(_, left, right, _) =>
        EvaluatesIff(left, k + 1);
        if Eval(left, k + 1).Done? {
          EvaluatesIff(right, Eval(left, k + 1).operations);
        }
        BinaryRuns(node, k);
    } else {
      CostPositive(node);
      TickStops(node, k);
    }
  }

  lemma {:induction false} CostPositive(node: Node)
    ensures Cost(node) >= 1
  {
  }

  lemma {:induction false} TickStops(node: Node, k: nat)
    requires k + 1 > OPERATION_LIMIT
    ensures Eval(node, k).Thrown?
  {
  }

  lemma {:induction false} VariableStops(node: Node, k: nat)
    requires node.Variable?
    ensures Eval(node, k).Thrown?
  {
  }

  lemma {:induction false} LiteralRuns(node: Node, k: nat)
    requires node.Literal? && k + 1 <= OPERATION_LIMIT
    ensures var (c, e) := (node.value.coefficient, node.value.exponent);
            Eval(node, k).Done? <==> LiteralAffordable(c, e) && k + 1 + LiteralCost(c, e) <= OPERATION_LIMIT
    ensures Eval(node, k).Done? ==>
              Eval(node, k).operations == k + 1 + LiteralCost(node.value.coefficient, node.value.exponent)
  {
    hide EvalLiteral, LiteralCost, LiteralAffordable;
    LiteralExactly(node.value, k + 1);
  }

  lemma {:induction false} UnaryStep(node: Node, k: nat)
    requires node.Unary? && k + 1 <= OPERATION_LIMIT
    ensures Eval(node, k).Done? <==> Eval(node.operand, k + 1).Done?
    ensures Eval(node, k).Done? ==> Eval(node, k).operations == Eval(node.operand, k + 1).operations
  {
    hide Negate;
  }

  /** A binary node runs its operands in turn and then its operator. */
  lemma {:induction false} BinaryStep(node: Node, k: nat)
    requires node.Binary? && k + 1 <= OPERATION_LIMIT
    ensures var r := Eval(node.left, k + 1);
            if r.Thrown? then Eval(node, k).Thrown?
            else
              var s := Eval(node.right, r.operations);
              if s.Thrown? then Eval(node, k).Thrown?
              else Eval(node, k) == Apply(node.operator, r.value, s.value, s.operations)
  {
    hide Apply;
  }

  lemma {:induction false} BinaryRuns(node: Node, k: nat)
    requires node.Binary? && k + 1 <= OPERATION_LIMIT
    requires RunsAsCounted(node.left, k + 1)
    requires Eval(node.left, k + 1).Done? ==> RunsAsCounted(node.right, Eval(node.left, k + 1).operations)
    ensures Eval(node, k).Done? <==> Affordable(node) && k + Cost(node) <= OPERATION_LIMIT
    ensures Eval(node, k).Done? ==> Eval(node, k).operations == k + Cost(node)
  {
    hide Eval, Lowest, Exact, OperatorCost, OperatorAffordable, Semantics.Combine, Apply, Reduced, Quantity;
    BinaryStep(node, k);
    var r := Eval(node.left, k + 1);
    if r.Done? {
      var s := Eval(node.right, r.operations);
      if s.Done? {
        ApplyExactly(node.operator, r.value, s.value, s.operations);
        assert Value(node) == Semantics.Combine(node.operator, Quantity(r.value), Quantity(s.value));
      }
    }
  }

  // ----- How many operations are enough ----------------------------------------------------

  /** Two divisions with remainder halve the divisor. */
  lemma {:induction false} TurnsBound(a: nat, b: nat)
    requires b > 0
    ensures Turns(a, b) <= 2 * Length(b)
    decreases b
  {
    var r := a % b;
    if r > 0 {
      var q := b % r;
      RemainderHalves(b, r);
      if q > 0 {
        TurnsBound(r, q);
        LengthMonotone(q, b / 2);
      }
    }
  }

  lemma {:induction false} RemainderHalves(b: nat, r: nat)
    requires 0 < r < b
    ensures b % r <= b / 2
  {
    assert b == (b / r) * r + b % r;
    Multiples(b / r, r);
    assert b / r >= 1;
  }

  lemma {:induction false} ReductionCostBound(n: int, d: int, bound: nat)
    requires Bits(d) <= bound
    ensures ReductionCost(n, d) <= 1 + 2 * bound
  {
    if d != 0 {
      TurnsBound(Abs(n), Abs(d));
    }
  }

  /** No denominator formed on the way is longer than `bound` bits. */
  ghost predicate DenominatorsWithin(node: Node, bound: nat) {
    match node
    case Literal(value, _) => value.exponent < 0 ==> Bits(Pow(10, -value.exponent)) <= bound
    case Variable(_, _) => true
    case Unary(_, operand, _) => DenominatorsWithin(operand, bound)
    case Binary(operator, left, right, _) =>
      && DenominatorsWithin(left, bound) && DenominatorsWithin(right, bound)
      && Bits(Unreduced(operator, Lowest(left), Lowest(right)).1) <= bound
  }

  lemma {:induction false} CostBound(node: Node, bound: nat)
    requires DenominatorsWithin(node, bound) && bound >= 1
    ensures Cost(node) <= (5 + 2 * bound) * Size(node)
  {
    hide ReductionCost, Pow, Bits, Lowest, Unreduced;
    match node
    case Literal(value, _) =>
      var c, e := value.coefficient, value.exponent;
      assert Bits(1) == 1 by { OneBit(); }
      ReductionCostBound(if e >= 0 then c * Pow(10, e) else c, if e >= 0 then 1 else Pow(10, -e), bound);
    case Variable(_, _) =>
    case Unary(_, operand, _) => CostBound(operand, bound);
    case Binary(operator, left, right, _) =>
      CostBound(left, bound);
      CostBound(right, bound);
      var (n, d) := Unreduced(operator, Lowest(left), Lowest(right));
      ReductionCostBound(n, d, bound);
      Distribute(5 + 2 * bound, Size(left), Size(right));
  }

  lemma OneBit()
    ensures Bits(1) == 1
  {
  }

  lemma {:induction false} Distribute(k: nat, a: nat, b: nat)
    ensures k * (1 + a + b) == k + k * a + k * b
  {
  }

  /** So a tree evaluates whenever its integers fit and it has few nodes for the length of its denominators. */
  lemma {:induction false} SmallTreesEvaluate(node: Node, bound: nat)
    requires Affordable(node) && DenominatorsWithin(node, bound) && bound >= 1
    requires (5 + 2 * bound) * Size(node) <= OPERATION_LIMIT
    ensures Eval(node, 0).Done? && Eval(node, 0).value == Lowest(node)
  {
    hide Eval, Affordable, DenominatorsWithin, Cost, Lowest;
    CostBound(node, bound);
    EvaluatesIff(node, 0);
  }
}
