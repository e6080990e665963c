/**
 Printing a tree with the fewest parentheses the grammar allows, and what an accepted token list
 says of its tree.
 */
module Printer {
  import opened Wrappers
  import opened Digits
  import opened ExactDecimal
  import opened Numerals
  import opened CanonicalDecimal
  import opened Expression
  import opened Parser
  import opened Grammar

  // ----- Minimal printing ------------------------------------------------------------------

  /** The grammar level a node belongs to. */
  function Level(node: Node): nat {
    match node
    case Literal(_, _) => 4
    case Variable(_, _) => 4
    case Unary(_, _, _) => 2
    case Binary(operator, _, _, _) => OperatorLevel(operator)
  }

  function Body(node: Node): Phrase
    decreases node, 0
  {
    match node
    case Literal(value, _) => Leaf(Canonical(value))
    case Variable(name, _) => Leaf(name)
    case Unary(sign, operand, _) => Signed(sign, Minimal(2, operand))
    case Binary(operator, left, right, _) =>
      Joined(operator, Minimal(LeftLevel(operator), left), Minimal(RightLevel(operator), right))
  }

  /** The phrase for `node` where level `level` is expected; parentheses only when the level demands them. */
  function Minimal(level: nat, node: Node): Phrase
    decreases node, 1
  {
    if Level(node) < level then Group(Body(node)) else Body(node)
  }

  function Print(level: nat, node: Node): seq<string> {
    Tokens(Minimal(level, node))
  }

  /** How many parser levels of nesting the printed tokens need. */
  function Need(level: nat, node: Node): nat {
    Nesting(Minimal(level, node))
  }

  // ----- Well-formed trees -----------------------------------------------------------------

  /** A literal some number token denotes. */
  predicate IsLiteral(value: Decimal) {
    value.coefficient >= 0 && ParseDecimal(Canonical(value)) == Some(value)
  }

  /** What the parser guarantees of a tree: true and bounded depths, real literals, declared names. */
  predicate WellFormed(node: Node, variables: seq<string>) {
    && node.depth == Height(node) <= DEPTH_LIMIT
    && match node
       case Literal(value, _) => IsLiteral(value)
       case Variable(name, _) => name in variables
       case Unary(_, operand, _) => WellFormed(operand, variables)
       case Binary(_, left, right, _) => WellFormed(left, variables) && WellFormed(right, variables)
  }

  // ----- Tokens with parentheses erased ----------------------------------------------------

  /** A number token counts as the number it denotes; any other token as itself. */
  datatype Symbol = Quantity(value: Decimal) | Word(text: string)

  predicate IsParenthesis(token: string) {
    token == "(" || token == ")"
  }

  function SymbolOf(token: string): Symbol {
    if token != "" && IsDigit(token[0]) && ParseDecimal(token).Some? then Quantity(ParseDecimal(token).value)
    else Word(token)
  }

  function Symbols(token: string): seq<Symbol> {
    if IsParenthesis(token) then [] else [SymbolOf(token)]
  }

  function Erase(tokens: seq<string>): seq<Symbol> {
    if tokens == [] then [] else Symbols(tokens[0]) + Erase(tokens[1..])
  }

  function InOrder(node: Node): seq<Symbol> {
    match node
    case Literal(value, _) => [Quantity(value)]
    case Variable(name, _) => [Word(name)]
    case Unary(sign, operand, _) => [Word(SignToken(sign))] + InOrder(operand)
    case Binary(operator, left, right, _) => InOrder(left) + ([Word(OperatorToken(operator))] + InOrder(right))
  }

  lemma {:induction false} EraseConcat(a: seq<string>, b: seq<string>)
    ensures Erase(a + b) == Erase(a) + Erase(b)
    decreases a
  {
    hide Symbols;
    if a == [] {
      assert a + b == b;
    } else {
      EraseConcat(a[1..], b);
      assert (a + b)[1..] == a[1..] + b;
    }
  }

  lemma {:induction false} EraseOne(t: string)
    ensures Erase([t]) == if IsParenthesis(t) then [] else [SymbolOf(t)]
  {
  }

  // ----- What a phrase says ----------------------------------------------------------------

  /** A number token denotes a nonnegative literal whose canonical numeral is again a number token. */
  lemma {:induction false} NumberToken(token: string, value: Decimal)
    requires token != "" && IsDigit(token[0]) && ParseDecimal(token) == Some(value)
    ensures IsLiteral(value)
  {
    hide Canonical, Reduce, StripLeadingZeros, Value, ExponentFrom, Render, Match;
    RoundTrip(token, value);
    var g := Match(ToAscii(token)).value;
    MatchIff(ToAscii(token), g);
    UnsignedMatch(ToAscii(token), g);
    UnsignedReduce(StripLeadingZeros(g.whole + g.fraction),
                   ExactDecimal.Signed(g.exponentSign, ExponentFrom(0, g.exponentDigits).value) - |g.fraction|);
  }

  lemma {:induction false} UnsignedMatch(s: string, g: Groups)
    requires s != "" && IsDigit(s[0]) && Match(s) == Some(g)
    ensures g.sign == ""
  {
  }

  lemma {:induction false} UnsignedReduce(digits: string, e: int)
    requires AllDigits(digits)
    ensures Reduce("", digits, e).Some? ==> Reduce("", digits, e).value.coefficient >= 0
  {
  }

  /** Whatever a phrase denotes is well formed, if it is not too deep. */
  lemma {:induction false} DenotedWellFormed(p: Phrase, variables: seq<string>, node: Node)
    requires Denotes(p, variables, node) && node.depth <= DEPTH_LIMIT
    ensures WellFormed(node, variables)
  {
    hide IsLiteral, ParseDecimal, Writes, Normal, Number;
    DenotedDepth(p, variables, node);
    match p
    case Leaf(token) =>
      if node.Literal? {
        ParsedDecimalIff(token, node.value);
        NumberToken(token, node.value);
      }
    case Group(inner) => DenotedWellFormed(inner, variables, node);
    case Signed(_, operand) => DenotedWellFormed(operand, variables, node.operand);
    case Joined(_, left, right) =>
      DenotedWellFormed(left, variables, node.left);
      DenotedWellFormed(right, variables, node.right);
  }

  /** A phrase writes the leaves and operators of its tree in order. */
  lemma {:induction false} DenotedInOrder(p: Phrase, variables: seq<string>, node: Node)
    requires Denotes(p, variables, node) && ValidVariables(variables)
    ensures Erase(Tokens(p)) == InOrder(node)
  {
    hide Erase, ValidVariables, ParseDecimal, Writes, Normal, Number;
    match p
    case Leaf(token) =>
      if node.Literal? {
        ParsedDecimalIff(token, node.value);
      }
      LeafToken(token, variables, node);
      EraseOne(token);
    case Group(inner) =>
      DenotedInOrder(inner, variables, node);
      EraseOne("(");
      EraseOne(")");
      EraseConcat(Tokens(inner), [")"]);
      EraseConcat(["("], Tokens(inner) + [")"]);
    case Signed(sign, operand) =>
      DenotedInOrder(operand, variables, node.operand);
      EraseOne(SignToken(sign));
      EraseConcat([SignToken(sign)], Tokens(operand));
    case Joined(operator, left, right) =>
      DenotedInOrder(left, variables, node.left);
      DenotedInOrder(right, variables, node.right);
      EraseOne(OperatorToken(operator));
      EraseConcat([OperatorToken(operator)], Tokens(right));
      EraseConcat(Tokens(left), [OperatorToken(operator)] + Tokens(right));
  }

  lemma {:induction false} MinimalLevels(low: nat, high: nat, node: Node)
    requires low <= high
    ensures |Print(low, node)| <= |Print(high, node)| <= |Print(low, node)| + 2
    ensures Need(low, node) <= Need(high, node) <= Need(low, node) + 1
  {
    hide Body;
  }

  /** Without parentheses of its own, a node is printed from its printed parts. */
  lemma {:induction false} PrintParts(level: nat, node: Node)
    requires level <= Level(node)
    ensures node.Literal? || node.Variable? ==> |Print(level, node)| == 1 && Need(level, node) == 0
    ensures node.Unary? ==>
              && |Print(level, node)| == 1 + |Print(2, node.operand)|
              && Need(level, node) == 1 + Need(2, node.operand)
    ensures node.Binary? ==>
              && |Print(level, node)| == |Print(LeftLevel(node.operator), node.left)| + 1
                                         + |Print(RightLevel(node.operator), node.right)|
              && Need(level, node) == Max(Need(LeftLevel(node.operator), node.left),
                                          (if node.operator == Power then 1 else 0)
                                          + Need(RightLevel(node.operator), node.right))
  {
    hide Canonical, LeftLevel, RightLevel;
    assert Minimal(level, node) == Body(node);
  }

  /** The minimal phrase is the shortest and the least nested of all phrases for the tree. */
  lemma {:induction false} MinimalIsLeast(level: nat, p: Phrase, variables: seq<string>, node: Node)
    requires Grammatical(p) && Denotes(p, variables, node) && level <= Rank(p)
    ensures |Print(level, node)| <= |Tokens(p)| && Need(level, node) <= Nesting(p)
    decreases p
  {
    hide LeftLevel, RightLevel, Writes, Print, Need, OperatorLevel;
    match p
    case Leaf(_) => PrintParts(level, node);
    case Group(inner) =>
      MinimalIsLeast(0, inner, variables, node);
      MinimalLevels(0, level, node);
    case Signed(_, operand) =>
      PrintParts(level, node);
      MinimalIsLeast(2, operand, variables, node.operand);
    case Joined(operator, left, right) =>
      PrintParts(level, node);
      MinimalIsLeast(LeftLevel(operator), left, variables, node.left);
      MinimalIsLeast(RightLevel(operator), right, variables, node.right);
  }

  /** The minimal phrase is a phrase for the tree. */
  lemma {:induction false} MinimalDenotes(level: nat, node: Node, variables: seq<string>)
    requires WellFormed(node, variables) && level <= 4
    ensures var p := Minimal(level, node);
            Grammatical(p) && Rank(p) >= level && Denotes(p, variables, node)
    decreases node
  {
    hide Canonical, ParseDecimal, Writes, Normal, Number;
    match node
    case Literal(value, _) =>
      CanonicalStart(value);
      ParsedDecimalIff(Canonical(value), value);
    case Variable(_, _) =>
    case Unary(_, operand, _) => MinimalDenotes(2, operand, variables);
    case Binary(operator, left, right, _) =>
      MinimalDenotes(LeftLevel(operator), left, variables);
      MinimalDenotes(RightLevel(operator), right, variables);
  }

  lemma {:induction false} CanonicalStart(value: Decimal)
    requires value.coefficient >= 0
    ensures Canonical(value) != "" && IsDigit(Canonical(value)[0])
  {
    hide ToDigits;
    if value.coefficient != 0 {
      MantissaParts(ToDigits(Magnitude(value.coefficient)), value.exponent - Clamp(value.exponent));
    }
  }

  /**
   What an accepted token list says about its tree: true and bounded depths, at most as many nodes
   as tokens, leaves and operators in the order written, and a minimal printing within the limits.
   */
  lemma {:induction false} AcceptedTree(input: Input, node: Node)
    requires ValidVariables(input.variables) && ParseTokens(input) == Some(node)
    ensures WellFormed(node, input.variables)
    ensures Erase(input.tokens) == InOrder(node)
    ensures Size(node) <= |input.tokens|
    ensures |Print(0, node)| <= |input.tokens| && Need(0, node) <= DEPTH_LIMIT
  {
    hide ParseTokens, WellFormed, Erase, InOrder, Print, Need, Size, ValidVariables, Denotes, Grammatical;
    var p := ParsedReading(input, node);
    DenotedDepth(p, input.variables, node);
    DenotedWellFormed(p, input.variables, node);
    DenotedInOrder(p, input.variables, node);
    MinimalIsLeast(0, p, input.variables, node);
    FewNodes(p, input.variables, node);
  }
}
