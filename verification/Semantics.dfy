/** The strict mathematical meaning of an expression, independent of any evaluator or budget. */
module Semantics {
  import opened Wrappers
  import opened ExactDecimal
  import opened Expression

  function RealPow(x: real, k: nat): real {
    if k == 0 then 1.0 else x * RealPow(x, k - 1)
  }

  predicate IsInteger(x: real) {
    x == x.Floor as real
  }

  /** A real raised to an integer; zero has no power at or below zero. */
  function Raise(x: real, k: int): Option<real> {
    if x == 0.0 && k <= 0 then None
    else if k >= 0 then Some(RealPow(x, k))
    else if RealPow(x, -k) == 0.0 then None
    else Some(1.0 / RealPow(x, -k))
  }

  function Combine(operator: Operator, x: real, y: real): Option<real> {
    match operator
    case Add => Some(x + y)
    case Subtract => Some(x - y)
    case Multiply => Some(x * y)
    case Divide => if y == 0.0 then None else Some(x / y)
    case Power => if IsInteger(y) then Raise(x, y.Floor) else None
  }

  /** The value of `node` when each variable has the value `env` gives it, or none. */
  function Meaning(node: Node, env: string -> real): Option<real> {
    match node
    case Literal(value, _) => Some(Number(value))
    case Variable(name, _) => Some(env(name))
    case Unary(sign, operand, _) =>
      var x :- Meaning(operand, env);
      Some(if sign == Minus then -x else x)
    case Binary(operator, left, right, _) =>
      var x :- Meaning(left, env);
      var y :- Meaning(right, env);
      Combine(operator, x, y)
  }
}
