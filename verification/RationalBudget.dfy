/**
 The budget object and the evaluator that spends it (expression-rational.ts). The ghost field
 `peak` records the longest integer built so far: for parsed trees none is longer than 4097 bits.
 */
module RationalBudget {
  import opened Wrappers
  import opened Powers
  import opened BitLength
  import opened ExactDecimal
  import opened CanonicalDecimal
  import opened Expression
  import opened Parser
  import opened Printer
  import opened RationalArithmetic
  import opened Soundness

  const PEAK_LIMIT := BIT_LIMIT + 1

  /** Exponents small enough for ten to that power to fit the limit. */
  const SMALL_EXPONENT := 164

  predicate SmallLiterals(node: Node) {
    match node
    case Literal(value, _) => -SMALL_EXPONENT <= value.exponent <= SMALL_EXPONENT
    case Variable(_, _) => true
    case Unary(_, operand, _) => SmallLiterals(operand)
    case Binary(_, left, right, _) => SmallLiterals(left) && SmallLiterals(right)
  }

  lemma {:induction false} TenPowerBits(e: nat)
    requires e <= SMALL_EXPONENT
    ensures Bits(Pow(10, e)) <= PEAK_LIMIT
  {
    BitsPower(10, e);
    TenBits();
  }

  lemma TenBits()
    ensures Bits(10) == 4
  {
    assert Length(2) == 2 && Length(5) == 3;
  }

  class RationalBudget {
    var operations: nat
    ghost var peak: nat

    constructor ()
      ensures operations == 0 && peak == 0
    {
      operations, peak := 0, 0;
    }

    ghost method Built(n: int)
      modifies this`peak
      ensures peak == if Bits(n) > old(peak) then Bits(n) else old(peak)
    {
      peak := if Bits(n) > peak then Bits(n) else peak;
    }

    method Tick() returns (r: Run<()>)
      modifies this`operations
      ensures r == RationalArithmetic.Tick(old(operations)) && operations == r.operations
    {
      operations := operations + 1;
      if operations > OPERATION_LIMIT {
        return Thrown(ProofLimit, operations);
      }
      return Done((), operations);
    }

    method Multiply(a: int, b: int) returns (r: Run<int>)
      modifies this
      ensures r == BoundedProduct(a, b, old(operations)) && operations == r.operations
      ensures old(peak) <= PEAK_LIMIT ==> peak <= PEAK_LIMIT
      ensures r.Done? ==> r.value == a * b && Bits(a * b) <= BIT_LIMIT
    {
      BoundedProductExactly(a, b, operations);
      var _ :- Tick();
      if a == 0 || b == 0 {
        return Done(0, operations);
      }
      if Bits(a) + Bits(b) - 1 > BIT_LIMIT {
        return Thrown(ProofLimit, operations);
      }
      BitsProduct(a, b);
      var result := a * b;
      Built(result);
      if Bits(result) > BIT_LIMIT {
        return Thrown(ProofLimit, operations);
      }
      return Done(result, operations);
    }

    method MakeRational(numerator: int, denominator: int) returns (r: Run<Rational>)
      modifies this
      ensures r == RationalArithmetic.MakeRational(numerator, denominator, old(operations)) && operations == r.operations
      ensures old(peak) <= PEAK_LIMIT ==> peak <= PEAK_LIMIT
    {
      hide Length;
      var _ :- Tick();
      if Bits(numerator) > BIT_LIMIT || Bits(denominator) > BIT_LIMIT {
        return Thrown(ProofLimit, operations);
      }
      if denominator == 0 {
        return Thrown(Undefined, operations);
      }
      var a, b := Abs(numerator), Abs(denominator);
      ghost var start := operations;
      while b > 0
        invariant old(peak) <= PEAK_LIMIT ==> peak <= PEAK_LIMIT
        invariant Bits(a) <= BIT_LIMIT && Bits(b) <= BIT_LIMIT
        invariant Euclid(Abs(numerator), Abs(denominator), start) == Euclid(a, b, operations)
        decreases b
      {
        var _ :- Tick();
        var next := a % b;
        BitsAtMost(next, b);
        Built(next);
        a := b;
        b := next;
      }
      NormalizeFields(numerator, denominator, a);
      var value := Normalize(numerator, denominator, a);
      BitsAtMost(value.numerator, numerator);
      BitsAtMost(value.denominator, denominator);
      Built(value.numerator);
      Built(value.denominator);
      return Done(value, operations);
    }

    method EvaluateLiteral(value: Decimal) returns (r: Run<Rational>)
      modifies this
      ensures r == EvalLiteral(value, old(operations)) && operations == r.operations
      ensures old(peak) <= PEAK_LIMIT && -SMALL_EXPONENT <= value.exponent <= SMALL_EXPONENT ==> peak <= PEAK_LIMIT
    {
      hide RationalArithmetic.MakeRational, BoundedProduct, Pow, Bits;
      var power := Pow(10, Abs(value.exponent));
      if Abs(value.exponent) <= SMALL_EXPONENT {
        TenPowerBits(Abs(value.exponent));
      }
      Built(power);
      if value.exponent >= 0 {
        var numeratorRun :- Multiply(value.coefficient, power);
        var numerator := numeratorRun.0;
        r := MakeRational(numerator, 1);
      } else {
        r := MakeRational(value.coefficient, power);
      }
    }

    method RaisePower(x: Rational, y: Rational) returns (r: Run<Rational>)
      modifies this
      ensures r == RaiseTo(x, y, old(operations)) && operations == r.operations
      ensures old(peak) <= PEAK_LIMIT ==> peak <= PEAK_LIMIT
    {
      hide RationalArithmetic.MakeRational, Pow, Bits, PowerFits;
      if !IsIntegerPower(y) {
        return Thrown(BadInput, operations);
      }
      var magnitude := Abs(y.numerator);
      if x.numerator == 0 && y.numerator <= 0 {
        return Thrown(Undefined, operations);
      }
      if !PowerFits(x, magnitude) {
        return Thrown(ProofLimit, operations);
      }
      var _ :- Tick();
      var numerator, denominator := Pow(x.numerator, magnitude), Pow(x.denominator, magnitude);
      PowerGuard(x, magnitude);
      Built(numerator);
      Built(denominator);
      if y.numerator < 0 {
        r := MakeRational(denominator, numerator);
      } else {
        r := MakeRational(numerator, denominator);
      }
    }

    method Combine(operator: Operator, x: Rational, y: Rational) returns (r: Run<Rational>)
      modifies this
      ensures r == Apply(operator, x, y, old(operations)) && operations == r.operations
      ensures old(peak) <= PEAK_LIMIT ==> peak <= PEAK_LIMIT
    {
      hide RationalArithmetic.MakeRational, BoundedProduct, RaiseTo, Bits;
      if operator == Power {
        r := RaisePower(x, y);
        return;
      }
      if operator == Operator.Multiply {
        var nRun :- Multiply(x.numerator, y.numerator);
        var n := nRun.0;
        var dRun :- Multiply(x.denominator, y.denominator);
        var d := dRun.0;
        r := MakeRational(n, d);
        return;
      }
      if operator == Divide {
        var nRun :- Multiply(x.numerator, y.denominator);
        var n := nRun.0;
        var dRun :- Multiply(x.denominator, y.numerator);
        var d := dRun.0;
        r := MakeRational(n, d);
        return;
      }
      var aRun :- Multiply(x.numerator, y.denominator);
      var a := aRun.0;
      var bRun :- Multiply(y.numerator, x.denominator);
      var b := bRun.0;
      BitsSum(a, b, BIT_LIMIT);
      var numerator := if operator == Add then a + b else a - b;
      Built(numerator);
      var dRun :- Multiply(x.denominator, y.denominator);
      var d := dRun.0;
      r := MakeRational(numerator, d);
    }

    /** The result and the counter are the specification's; with small literals no integer passes 4097 bits. */
    method EvaluateConstant(node: Node) returns (r: Run<Rational>)
      modifies this
      ensures r == Eval(node, old(operations)) && operations == r.operations
      ensures old(peak) <= PEAK_LIMIT && SmallLiterals(node) ==> peak <= PEAK_LIMIT
      decreases node
    {
      hide EvalLiteral, Apply, Bits;
      var _ :- Tick();
      match node
      case Literal(value, _) =>
        r := EvaluateLiteral(value);
      case Variable(_, _) =>
        r := Thrown(ProofLimit, operations);
      case Unary(sign, operand, _) =>
        ghost var start := operations;
        var valueRun :- EvaluateConstant(operand);
        var value := valueRun.0;
        NegatedBits(operand, start, sign);
        Built(Negate(sign, value).numerator);
        r := Done(Negate(sign, value), operations);
      case Binary(operator, left, right, _) =>
        var xRun :- EvaluateConstant(left);
        var x := xRun.0;
        var yRun :- EvaluateConstant(right);
        var y := yRun.0;
        r := Combine(operator, x, y);
    }
  }

  lemma {:induction false} NegatedBits(node: Node, k: nat, sign: Sign)
    requires Eval(node, k).Done?
    ensures Bits(Negate(sign, Eval(node, k).value).numerator) <= BIT_LIMIT
  {
    hide Eval, Bits, Soundness.Quantity;
    EvalMeaning(node, k, name => 0.0);
    NegateMeaning(sign, Eval(node, k).value);
  }

  /** `compareConstants`: both sides spend one fresh budget. */
  method CompareWithBudget(a: Node, b: Node) returns (r: Run<bool>)
    ensures r == CompareConstants(a, b)
  {
    hide Eval;
    var budget := new RationalBudget();
    var xRun :- budget.EvaluateConstant(a);
    var x := xRun.0;
    var yRun :- budget.EvaluateConstant(b);
    var y := yRun.0;
    return Done(x.numerator == y.numerator && x.denominator == y.denominator, budget.operations);
  }

  // ----- Every accepted tree has small literals --------------------------------------------

  lemma {:induction false} ParsedExponent(text: string, d: Decimal)
    requires ParseDecimal(text) == Some(d)
    ensures -SMALL_EXPONENT <= d.exponent <= SMALL_EXPONENT
  {
    hide Assemble, Match, Digits.Value, Digits.ToDigits, IsGroups, Render, ToAscii;
    assert |ToAscii(text)| == |text| by { AsciiLength(text); }
    var g := Match(ToAscii(text)).value;
    MatchIff(ToAscii(text), g);
    RenderLength(g);
    if d.coefficient != 0 {
      AssembledCounts(g, d);
    } else {
      AssembleMeaning(g, d);
    }
  }

  lemma {:induction false} AsciiLength(s: string)
    ensures |ToAscii(s)| == |s|
  {
  }

  lemma {:induction false} WellFormedSmall(node: Node, variables: seq<string>)
    requires WellFormed(node, variables)
    ensures SmallLiterals(node)
  {
    hide ParseDecimal, Canonical;
    match node
    case Literal(value, _) => ParsedExponent(Canonical(value), value);
    case Variable(_, _) =>
    case Unary(_, operand, _) => WellFormedSmall(operand, variables);
    case Binary(_, left, right, _) =>
      WellFormedSmall(left, variables);
      WellFormedSmall(right, variables);
  }

  /** So the bound of 4097 bits holds for every tree the parser returns. */
  lemma {:induction false} ParsedSmallLiterals(text: string, variables: seq<string>, node: Node)
    requires ParseExpression(text, variables) == Some(node)
    ensures SmallLiterals(node)
  {
    hide ParseTokens, Lexer.Lex, WellFormed, Print, Need, Erase, InOrder, ValidVariables;
    var tokens := Lexer.Lex(text).value;
    AcceptedTree(Input(tokens, variables), node);
    WellFormedSmall(node, variables);
  }
}
