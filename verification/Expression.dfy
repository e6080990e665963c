/** Expression trees, their limits and the variable declarations (expression-parser.ts). */
module Expression {
  import opened Digits
  import opened ExactDecimal

  const LENGTH_LIMIT := 512
  const TOKEN_LIMIT := 128
  const NODE_LIMIT := 256
  const DEPTH_LIMIT := 32
  const VARIABLE_LIMIT := 8
  const POWER_LIMIT := 16

  datatype Sign = Plus | Minus

  datatype Operator = Add | Subtract | Multiply | Divide | Power

  /** A node carries the depth the parser computed for it. */
  datatype Node =
    | Literal(value: Decimal, depth: nat)
    | Variable(name: string, depth: nat)
    | Unary(sign: Sign, operand: Node, depth: nat)
    | Binary(operator: Operator, left: Node, right: Node, depth: nat)

  function Max(a: nat, b: nat): nat {
    if a >= b then a else b
  }

  function Height(node: Node): nat {
    match node
    case Literal(_, _) => 1
    case Variable(_, _) => 1
    case Unary(_, operand, _) => Height(operand) + 1
    case Binary(_, left, right, _) => Max(Height(left), Height(right)) + 1
  }

  function Size(node: Node): nat {
    match node
    case Literal(_, _) => 1
    case Variable(_, _) => 1
    case Unary(_, operand, _) => 1 + Size(operand)
    case Binary(_, left, right, _) => 1 + Size(left) + Size(right)
  }

  predicate ContainsVariable(node: Node) {
    match node
    case Literal(_, _) => false
    case Variable(_, _) => true
    case Unary(_, operand, _) => ContainsVariable(operand)
    case Binary(_, left, right, _) => ContainsVariable(left) || ContainsVariable(right)
  }

  // ----- Variable names --------------------------------------------------------------------

  const FORBIDDEN_NAMES: set<string> :=
    { "constructor", "prototype", "__proto__", "eval", "Function", "globalThis", "global", "window",
      "document", "process", "require", "import", "this", "toString", "toJSON", "valueOf" }

  predicate IsLetter(c: char) {
    'A' <= c <= 'Z' || 'a' <= c <= 'z'
  }

  predicate IsNameChar(c: char) {
    IsLetter(c) || IsDigit(c) || c == '_'
  }

  predicate IsIdentifier(name: string) {
    && name != "" && IsLetter(name[0])
    && forall i :: 0 <= i < |name| ==> IsNameChar(name[i])
  }

  /** At most eight distinct names, each a short identifier outside the forbidden list. */
  predicate ValidVariables(names: seq<string>) {
    && |names| <= VARIABLE_LIMIT
    && (forall i :: 0 <= i < |names| ==> IsIdentifier(names[i]) && |names[i]| <= 32 && names[i] !in FORBIDDEN_NAMES)
    && (forall i, j :: 0 <= i < j < |names| ==> names[i] != names[j])
  }
}
