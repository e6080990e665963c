/** The exponent check and the undefinedness pass (expression-rational.ts). */
module Definedness {
  import opened Wrappers
  import opened BitLength
  import opened LowestTerms
  import opened Expression
  import opened Semantics
  import opened RationalArithmetic
  import opened Soundness
  import opened Completeness

  /** A constant exponent is refused only when it provably is not an integer within the limit. */
  predicate ExponentAccepted(node: Node) {
    match Eval(node, 0)
    case Done(y, _) => IsIntegerPower(y)
    case Thrown(failure, _) => failure != BadInput
  }

  /** `validatePowers`: every exponent is variable-free and accepted. */
  predicate ValidatePowers(node: Node) {
    match node
    case Literal(_, _) => true
    case Variable(_, _) => true
    case Unary(_, operand, _) => ValidatePowers(operand)
    case Binary(operator, left, right, _) =>
      && ValidatePowers(left) && ValidatePowers(right)
      && (operator == Power ==> !ContainsVariable(right) && ExponentAccepted(right))
  }

  /** Starting later yields the same value with the same cost, or the proof limit. */
  lemma {:induction false} EvalFromStart(node: Node, k: nat)
    requires k <= OPERATION_LIMIT
    ensures Eval(node, k) == Later(Eval(node, 0), k)
  {
    hide Eval;
    EvalLater(node, 0, k);
  }

  lemma {:induction false} LiteralNotBad(node: Node, k: nat)
    requires node.Literal?
    ensures Eval(node, k).Thrown? ==> Eval(node, k).failure == ProofLimit
  {
    hide EvalLiteral;
    LiteralMeaning(node.value, k + 1);
  }

  /** Once the powers are validated, no evaluation raises the input error, whatever it has spent. */
  lemma {:induction false} NoBadInput(node: Node, k: nat)
    requires ValidatePowers(node) && k <= OPERATION_LIMIT
    ensures Eval(node, k).Thrown? ==> Eval(node, k).failure != BadInput
    decreases node
  {
    hide EvalLiteral, Apply, Negate, ExponentAccepted;
    if k + 1 <= OPERATION_LIMIT {
      match node
      case Literal(_, _) => LiteralNotBad(node, k);
      case Variable(_, _) =>
      case Unary(_, operand, _) => NoBadInput(operand, k + 1);
      case Binary(operator, left, right, _) =>
        NoBadInput(left, k + 1);
        var r := Eval(left, k + 1);
        if r.Done? {
          DoneWithinLimit(left, k + 1);
          NoBadInput(right, r.operations);
          var s := Eval(right, r.operations);
          if s.Done? {
            ApplyNotBad(operator, r.value, right, r.operations);
          }
        }
    }
  }

  lemma {:induction false} DoneWithinLimit(node: Node, k: nat)
    requires k <= OPERATION_LIMIT
    ensures Eval(node, k).Done? ==> Eval(node, k).operations <= OPERATION_LIMIT
  {
    hide Eval;
    EvalFromStart(node, k);
  }

  lemma {:induction false} ApplyNotBad(operator: Operator, x: Rational, right: Node, k: nat)
    requires k <= OPERATION_LIMIT && Eval(right, k).Done?
    requires operator == Power ==> ExponentAccepted(right)
    ensures var r := Apply(operator, x, Eval(right, k).value, Eval(right, k).operations);
            r.Thrown? ==> r.failure != BadInput
  {
    hide Eval, MakeRational, BoundedProduct, IsIntegerPower, PowerFits, Bits;
    var y := Eval(right, k).value;
    if operator == Power {
      EvalFromStart(right, k);
    }
    ApplyFailures(operator, x, y, Eval(right, k).operations);
  }

  /** Arithmetic raises the input error only for an exponent that is not a small integer. */
  lemma {:induction false} ApplyFailures(operator: Operator, x: Rational, y: Rational, k: nat)
    requires operator == Power ==> IsIntegerPower(y)
    ensures Apply(operator, x, y, k).Thrown? ==> Apply(operator, x, y, k).failure != BadInput
  {
    hide MakeRational, BoundedProduct, IsIntegerPower, PowerFits, Bits;
    forall a: int, b: int, c: nat
      ensures BoundedProduct(a, b, c).Thrown? ==> BoundedProduct(a, b, c).failure != BadInput
      ensures MakeRational(a, b, c).Thrown? ==> MakeRational(a, b, c).failure != BadInput
    {
      BoundedProductExactly(a, b, c);
      MakeRationalMeaning(a, b, c);
    }
  }

  // ----- The undefinedness pass ------------------------------------------------------------

  /** What the pass learns of a subexpression: its value, nothing, or a failure that ends the pass. */
  datatype Probe = Known(value: Option<Rational>) | Refused(failure: Failure)

  function ProbeConstant(node: Node): Probe {
    if ContainsVariable(node) then Known(None)
    else match Eval(node, 0)
      case Done(x, _) => Known(Some(x))
      case Thrown(failure, _) => if failure == ProofLimit then Known(None) else Refused(failure)
  }

  predicate IsZero(x: Option<Rational>) {
    x.Some? && x.value.numerator == 0
  }

  predicate IsNonpositiveInteger(x: Option<Rational>) {
    x.Some? && x.value.denominator == 1 && x.value.numerator <= 0
  }

  /** Visit the children first, then look at the node itself. */
  function Visit(node: Node): Probe {
    match node
    case Literal(_, _) => ProbeConstant(node)
    case Variable(_, _) => Known(None)
    case Unary(_, operand, _) =>
      var inner := Visit(operand);
      if inner.Refused? then inner else ProbeConstant(node)
    case Binary(operator, left, right, _) =>
      var x := Visit(left);
      if x.Refused? then x else
      var y := Visit(right);
      if y.Refused? then y else
      if operator == Divide && IsZero(y.value) then Refused(Undefined)
      else if operator == Power && IsZero(x.value) && IsNonpositiveInteger(y.value) then Refused(Undefined)
      else ProbeConstant(node)
  }

  lemma {:induction false} DoneIsConstant(node: Node, k: nat)
    ensures Eval(node, k).Done? ==> !ContainsVariable(node)
    decreases node
  {
    hide EvalLiteral, Apply;
    match node
    case Literal(_, _) =>
    case Variable(_, _) =>
    case Unary(_, operand, _) => DoneIsConstant(operand, k + 1);
    case Binary(_, left, right, _) =>
      DoneIsConstant(left, k + 1);
      var r := Eval(left, k + 1);
      if r.Done? {
        DoneIsConstant(right, r.operations);
        assert Eval(node, k).Done? ==> EvalRight(node.operator, r.value, right, r.operations).Done?;
      }
  }

  /** What the pass knows of a subexpression is what a fresh evaluation says. */
  lemma {:induction false} VisitKnows(node: Node)
    ensures Visit(node).Known? && Visit(node).value.Some? ==>
              Eval(node, 0).Done? && Eval(node, 0).value == Visit(node).value.value
    ensures Visit(node).Known? && Visit(node).value.None? ==> !Eval(node, 0).Done?
  {
    hide Eval;
    DoneIsConstant(node, 0);
  }

  /** A constant subexpression that denotes zero and that a fresh budget can evaluate. */
  ghost predicate ProvablyZero(node: Node) {
    Evaluates(node) && Value(node) == Some(0.0)
  }

  ghost predicate ProvablyNonpositiveInteger(node: Node) {
    Evaluates(node) && Value(node).Some? && IsInteger(Value(node).value) && Value(node).value <= 0.0
  }

  predicate IsSmallInteger(v: real) {
    IsInteger(v) && -(POWER_LIMIT as real) <= v <= POWER_LIMIT as real
  }

  lemma {:induction false} IntegerFraction(x: Rational, v: real)
    requires Denotes(x, v)
    ensures x.denominator == 1 <==> IsInteger(v)
    ensures IsInteger(v) ==> x.numerator as real == v
    ensures x.numerator == 0 <==> v == 0.0
  {
    hide Gcd;
    CrossProduct(x.numerator, x.denominator, v.Floor, 1);
    CrossProduct(x.numerator, x.denominator, 0, 1);
    if x.denominator == 1 {
      IntegerQuantity(x);
    }
    if IsInteger(v) {
      assert Reduced(v.Floor, 1) by { ReducedInteger(v.Floor); }
      ReducedUnique(x.numerator, x.denominator, v.Floor, 1);
    }
  }

  lemma {:induction false} ReducedInteger(n: int)
    ensures Reduced(n, 1)
  {
    assert Gcd(Abs(n), 1) == Gcd(1, 0);
  }

  /** A fresh run of a tree that evaluates, read as properties of the number it denotes. */
  lemma {:induction false} FreshRun(node: Node)
    ensures Eval(node, 0).Done? <==> Evaluates(node)
    ensures ProvablyZero(node) <==> Eval(node, 0).Done? && IsZero(Some(Eval(node, 0).value))
    ensures ProvablyNonpositiveInteger(node) <==> Eval(node, 0).Done? && IsNonpositiveInteger(Some(Eval(node, 0).value))
    ensures Evaluates(node) ==>
              Value(node).Some? && (IsSmallInteger(Value(node).value) <==> IsIntegerPower(Eval(node, 0).value))
  {
    hide Eval, Value, Affordable, Cost, Lowest, Reduced, Exact;
    EvaluatesIff(node, 0);
    if Eval(node, 0).Done? {
      IntegerFraction(Eval(node, 0).value, Value(node).value);
    }
  }

  /** Somewhere in the tree there is a division by a provable zero, or such a zero to a nonpositive power. */
  ghost predicate ProvablyUndefined(node: Node) {
    match node
    case Literal(_, _) => false
    case Variable(_, _) => false
    case Unary(_, operand, _) => ProvablyUndefined(operand)
    case Binary(operator, left, right, _) =>
      || ProvablyUndefined(left)
      || ProvablyUndefined(right)
      || (operator == Divide && ProvablyZero(right))
      || (operator == Power && ProvablyZero(left) && ProvablyNonpositiveInteger(right))
  }

  lemma {:induction false} ApplyUndefined(operator: Operator, x: Rational, y: Rational, k: nat)
    requires Exact(x) && Exact(y)
    requires Apply(operator, x, y, k).Thrown? && Apply(operator, x, y, k).failure == Undefined
    ensures (operator == Divide && y.numerator == 0)
         || (operator == Power && x.numerator == 0 && y.denominator == 1 && y.numerator <= 0)
  {
    hide Exact, Bits, Length, MakeRational, BoundedProduct, RaiseTo, Quotient, SumOrDifference, Quantity, Combine;
    ApplyMeaning(operator, x, y, k);
    ExactPositive(x);
    ExactPositive(y);
    match operator
    case Add => SumMeaning(false, x, y, k);
    case Subtract => SumMeaning(true, x, y, k);
    case Multiply => MultiplyMeaning(x, y, k);
                     MultiplyDefined(Quantity(x), Quantity(y));
    case Divide => DivideUndefined(x, y);
    case Power => RaiseUndefined(x, y, k);
  }

  lemma {:induction false} MultiplyDefined(x: real, y: real)
    ensures Combine(Multiply, x, y) != None
  {
  }

  lemma {:induction false} DivideUndefined(x: Rational, y: Rational)
    requires Exact(x) && Exact(y)
    ensures Combine(Divide, Quantity(x), Quantity(y)) == None ==> y.numerator == 0
  {
    hide Quantity, Exact;
    ZeroQuantity(y);
  }

  lemma {:induction false} RaiseUndefined(x: Rational, y: Rational, k: nat)
    requires Exact(x) && Exact(y)
    requires RaiseTo(x, y, k).Thrown? && RaiseTo(x, y, k).failure == Undefined
    ensures x.numerator == 0 && y.denominator == 1 && y.numerator <= 0
  {
    hide Exact, MakeRational, PowerFits, Powers.Pow, Semantics.RealPow, Quantity;
    var m := Abs(y.numerator);
    PowerParts(x, m);
    var n, d := Powers.Pow(x.numerator, m), Powers.Pow(x.denominator, m);
    MakeRationalMeaning(n, d, k + 1);
    MakeRationalMeaning(d, n, k + 1);
  }

  /** An evaluation that ends undefined does so because of a provable zero in the tree. */
  lemma {:induction false} UndefinedIsProvable(node: Node, k: nat)
    requires k <= OPERATION_LIMIT && Eval(node, k).Thrown? && Eval(node, k).failure == Undefined
    ensures ProvablyUndefined(node)
    decreases node
  {
    hide EvalLiteral, Apply, ProvablyZero, ProvablyNonpositiveInteger;
    match node
    case Literal(_, _) => LiteralNotBad(node, k);
    case Variable(_, _) =>
    case Unary(_, operand, _) => UndefinedIsProvable(operand, k + 1);
    case Binary(operator, left, right, _) =>
      var r := Eval(left, k + 1);
      if r.Thrown? {
        UndefinedIsProvable(left, k + 1);
      } else {
        DoneWithinLimit(left, k + 1);
        if Eval(right, r.operations).Thrown? {
          UndefinedIsProvable(right, r.operations);
        } else {
          UndefinedHere(operator, left, right, k + 1);
        }
      }
  }

  lemma {:induction false} UndefinedHere(operator: Operator, left: Node, right: Node, k: nat)
    requires k <= OPERATION_LIMIT
    requires Eval(left, k).Done? && Eval(right, Eval(left, k).operations).Done?
    requires var s := Eval(right, Eval(left, k).operations);
             var r := Apply(operator, Eval(left, k).value, s.value, s.operations);
             r.Thrown? && r.failure == Undefined
    ensures (operator == Divide && ProvablyZero(right))
         || (operator == Power && ProvablyZero(left) && ProvablyNonpositiveInteger(right))
  {
    hide Eval, Apply, Exact, ProvablyZero, ProvablyNonpositiveInteger;
    var env := (name: string) => 0.0;
    var r := Eval(left, k);
    DoneWithinLimit(left, k);
    EvalMeaning(left, k, env);
    EvalMeaning(right, r.operations, env);
    EvalFromStart(left, k);
    EvalFromStart(right, r.operations);
    FreshRun(left);
    FreshRun(right);
    var s := Eval(right, r.operations);
    ApplyUndefined(operator, r.value, s.value, s.operations);
  }

  /** With validated powers, the pass refuses exactly the provably undefined trees, and never fails otherwise. */
  lemma {:induction false} VisitIff(node: Node)
    requires ValidatePowers(node)
    ensures Visit(node) == Refused(Undefined) <==> ProvablyUndefined(node)
    ensures Visit(node).Refused? ==> Visit(node) == Refused(Undefined)
    decreases node
  {
    hide Eval, ExponentAccepted, ProvablyZero, ProvablyNonpositiveInteger;
    if Eval(node, 0).Thrown? && Eval(node, 0).failure == Undefined {
      UndefinedIsProvable(node, 0);
    }
    NoBadInput(node, 0);
    match node
    case Literal(_, _) =>
    case Variable(_, _) =>
    case Unary(_, operand, _) => VisitIff(operand);
    case Binary(_, left, right, _) =>
      VisitIff(left);
      VisitIff(right);
      VisitKnows(left);
      VisitKnows(right);
      FreshRun(left);
      FreshRun(right);
  }

  /** A tree that evaluates means the same under every assignment. */
  lemma {:induction false} ConstantMeaning(node: Node, env: string -> real)
    requires Names(node) == {}
    ensures Meaning(node, env) == Value(node)
  {
    hide Meaning;
    MeaningDependsOnNames(node, env, NO_VARIABLES);
  }

  lemma {:induction false} AffordableHasNoNames(node: Node)
    requires Affordable(node)
    ensures Names(node) == {}
  {
    hide OperatorAffordable, Lowest, LiteralAffordable, Value;
    match node
    case Literal(_, _) =>
    case Unary(_, operand, _) => AffordableHasNoNames(operand);
    case Binary(_, left, right, _) =>
      AffordableHasNoNames(left);
      AffordableHasNoNames(right);
  }

  /** A provably undefined tree has no meaning, whatever values its variables take. */
  lemma {:induction false} ProvablyUndefinedMeansNone(node: Node, env: string -> real)
    requires ProvablyUndefined(node)
    ensures Meaning(node, env) == None
    decreases node
  {
    hide Affordable, Cost;
    match node
    case Literal(_, _) =>
    case Variable(_, _) =>
    case Unary(_, operand, _) => ProvablyUndefinedMeansNone(operand, env);
    case Binary(operator, left, right, _) =>
      if ProvablyUndefined(left) {
        ProvablyUndefinedMeansNone(left, env);
      } else if ProvablyUndefined(right) {
        ProvablyUndefinedMeansNone(right, env);
      } else if operator == Divide {
        AffordableHasNoNames(right);
        ConstantMeaning(right, env);
      } else {
        AffordableHasNoNames(left);
        AffordableHasNoNames(right);
        ConstantMeaning(left, env);
        ConstantMeaning(right, env);
      }
  }

  // ----- The exponent check, without the evaluator -----------------------------------------

  /** An exponent that can be evaluated must be an integer from -16 to 16. */
  ghost predicate ExponentFits(node: Node) {
    Evaluates(node) && Value(node).Some? ==> IsSmallInteger(Value(node).value)
  }

  /** Every exponent is without variables and, if it can be evaluated, an integer from -16 to 16. */
  ghost predicate PowersAccepted(node: Node) {
    match node
    case Literal(_, _) => true
    case Variable(_, _) => true
    case Unary(_, operand, _) => PowersAccepted(operand)
    case Binary(operator, left, right, _) =>
      && PowersAccepted(left) && PowersAccepted(right)
      && (operator == Power ==> Names(right) == {} && ExponentFits(right))
  }

  lemma {:induction false} ValidatePowersIff(node: Node)
    ensures ValidatePowers(node) <==> PowersAccepted(node)
  {
    hide Eval, Evaluates, Value, IsSmallInteger, IsIntegerPower;
    match node
    case Literal(_, _) =>
    case Variable(_, _) =>
    case Unary(_, operand, _) => ValidatePowersIff(operand);
    case Binary(_, left, right, _) =>
      ValidatePowersIff(left);
      ValidatePowersIff(right);
      ContainsVariableIff(right);
      FreshRun(right);
      if ValidatePowers(right) {
        NoBadInput(right, 0);
      }
  }
}
