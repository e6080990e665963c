/**
 The grammar, independent of the parser: phrases with their parentheses, the tokens a phrase is
 written with and the tree it denotes. The parser reads exactly the phrases within the limits.
 */
module Grammar {
  import opened Wrappers
  import opened Digits
  import opened ExactDecimal
  import opened Numerals
  import opened Expression
  import opened Parser

  /** A way of writing an expression: parentheses may stand around anything. */
  datatype Phrase =
    | Leaf(token: string)
    | Group(inner: Phrase)
    | Signed(sign: Sign, operand: Phrase)
    | Joined(operator: Operator, left: Phrase, right: Phrase)

  function OperatorToken(operator: Operator): string {
    match operator
    case Add => "+"
    case Subtract => "-"
    case Multiply => "*"
    case Divide => "/"
    case Power => "^"
  }

  function SignToken(sign: Sign): string {
    match sign
    case Plus => "+"
    case Minus => "-"
  }

  /** The grammar level of an operator: 0 sum, 1 product, 2 unary, 3 power, 4 primary. */
  function OperatorLevel(operator: Operator): nat {
    match operator
    case Add => 0
    case Subtract => 0
    case Multiply => 1
    case Divide => 1
    case Power => 3
  }

  /** Level at which the left operand is read: sums and products lean left, a power's base is primary. */
  function LeftLevel(operator: Operator): nat {
    if operator == Power then 4 else OperatorLevel(operator)
  }

  function RightLevel(operator: Operator): nat {
    if operator == Power then 2 else OperatorLevel(operator) + 1
  }

  function Rank(p: Phrase): nat {
    match p
    case Leaf(_) => 4
    case Group(_) => 4
    case Signed(_, _) => 2
    case Joined(operator, _, _) => OperatorLevel(operator)
  }

  /** Every operand stands at the level its operator demands, or in parentheses. */
  predicate Grammatical(p: Phrase) {
    match p
    case Leaf(_) => true
    case Group(inner) => Grammatical(inner)
    case Signed(_, operand) => Grammatical(operand) && Rank(operand) >= 2
    case Joined(operator, left, right) =>
      && Grammatical(left) && Rank(left) >= LeftLevel(operator)
      && Grammatical(right) && Rank(right) >= RightLevel(operator)
  }

  function Tokens(p: Phrase): seq<string> {
    match p
    case Leaf(token) => [token]
    case Group(inner) => ["("] + (Tokens(inner) + [")"])
    case Signed(sign, operand) => [SignToken(sign)] + Tokens(operand)
    case Joined(operator, left, right) => Tokens(left) + ([OperatorToken(operator)] + Tokens(right))
  }

  /** How deep parentheses, signs and exponents lie within one another. */
  function Nesting(p: Phrase): nat {
    match p
    case Leaf(_) => 0
    case Group(inner) => 1 + Nesting(inner)
    case Signed(_, operand) => 1 + Nesting(operand)
    case Joined(operator, left, right) => Max(Nesting(left), if operator == Power then 1 + Nesting(right) else Nesting(right))
  }

  /** A number token denotes its number in normal form, a declared name the variable. */
  ghost predicate LeafDenotes(token: string, variables: seq<string>, node: Node) {
    match node
    case Literal(value, _) => token != "" && IsDigit(token[0]) && Normal(value) && Writes(token, Number(value))
    case Variable(name, _) => token == name && name in variables
    case _ => false
  }

  /** The phrase denotes the tree; parentheses leave no trace, and every node records its height. */
  ghost predicate Denotes(p: Phrase, variables: seq<string>, node: Node) {
    match p
    case Leaf(token) => LeafDenotes(token, variables, node) && node.depth == 1
    case Group(inner) => Denotes(inner, variables, node)
    case Signed(sign, operand) =>
      node.Unary? && node.sign == sign && Denotes(operand, variables, node.operand) && node.depth == node.operand.depth + 1
    case Joined(operator, left, right) =>
      && node.Binary? && node.operator == operator
      && Denotes(left, variables, node.left) && Denotes(right, variables, node.right)
      && node.depth == Max(node.left.depth, node.right.depth) + 1
  }

  /** The tokens are a sentence for the tree: some phrase within the limits is written so and denotes it. */
  ghost predicate Reads(tokens: seq<string>, variables: seq<string>, node: Node) {
    exists p: Phrase :: IsReading(p, tokens, variables, node)
  }

  ghost predicate IsReading(p: Phrase, tokens: seq<string>, variables: seq<string>, node: Node) {
    && Grammatical(p) && Tokens(p) == tokens && Denotes(p, variables, node)
    && Nesting(p) <= DEPTH_LIMIT && Height(node) <= DEPTH_LIMIT
  }

  lemma {:induction false} DenotedDepth(p: Phrase, variables: seq<string>, node: Node)
    requires Denotes(p, variables, node)
    ensures node.depth == Height(node)
  {
    hide LeafDenotes;
    match p
    case Leaf(token) => LeafIsLeaf(token, variables, node);
    case Group(inner) => DenotedDepth(inner, variables, node);
    case Signed(_, operand) => DenotedDepth(operand, variables, node.operand);
    case Joined(_, left, right) =>
      DenotedDepth(left, variables, node.left);
      DenotedDepth(right, variables, node.right);
  }

  lemma {:induction false} LeafIsLeaf(token: string, variables: seq<string>, node: Node)
    requires LeafDenotes(token, variables, node)
    ensures Height(node) == 1 && Size(node) == 1
  {
  }

  // ----- Tokens in position ----------------------------------------------------------------

  /** `part` stands at position `i` of the input. */
  predicate Occurs(input: Input, i: nat, part: seq<string>) {
    i + |part| <= |input.tokens| && input.tokens[i..i + |part|] == part
  }

  lemma {:induction false} OccursConcat(input: Input, i: nat, a: seq<string>, b: seq<string>)
    ensures Occurs(input, i, a + b) <==> Occurs(input, i, a) && Occurs(input, i + |a|, b)
  {
    if Occurs(input, i, a + b) {
      var s := input.tokens[i..i + |a + b|];
      assert s[..|a|] == a && s[|a|..] == b;
      assert input.tokens[i..i + |a|] == s[..|a|];
      assert input.tokens[i + |a|..i + |a| + |b|] == s[|a|..];
    }
  }

  lemma {:induction false} OccursCons(input: Input, i: nat, t: string, b: seq<string>)
    ensures Occurs(input, i, [t] + b) <==> input.At(i, t) && Occurs(input, i + 1, b)
  {
    OccursConcat(input, i, [t], b);
    if i < |input.tokens| {
      assert input.tokens[i..i + 1] == [input.tokens[i]];
    }
  }

  lemma {:induction false} OccursOne(input: Input, i: nat, t: string)
    ensures Occurs(input, i, [t]) <==> input.At(i, t)
  {
    if i < |input.tokens| {
      assert input.tokens[i..i + 1] == [input.tokens[i]];
    }
  }

  /** The tokens of a binary phrase, part by part. */
  lemma {:induction false} OccursJoined(input: Input, i: nat, p: Phrase)
    requires p.Joined?
    ensures var middle := i + |Tokens(p.left)|;
            && |Tokens(p)| == |Tokens(p.left)| + 1 + |Tokens(p.right)|
            && (Occurs(input, i, Tokens(p)) <==>
                  && Occurs(input, i, Tokens(p.left)) && input.At(middle, OperatorToken(p.operator))
                  && Occurs(input, middle + 1, Tokens(p.right)))
  {
    hide Occurs, OperatorToken;
    OccursConcat(input, i, Tokens(p.left), [OperatorToken(p.operator)] + Tokens(p.right));
    OccursCons(input, i + |Tokens(p.left)|, OperatorToken(p.operator), Tokens(p.right));
  }

  lemma {:induction false} OccursSigned(input: Input, i: nat, p: Phrase)
    requires p.Signed?
    ensures |Tokens(p)| == 1 + |Tokens(p.operand)|
    ensures Occurs(input, i, Tokens(p)) <==> input.At(i, SignToken(p.sign)) && Occurs(input, i + 1, Tokens(p.operand))
  {
    hide Occurs, SignToken;
    OccursCons(input, i, SignToken(p.sign), Tokens(p.operand));
  }

  lemma {:induction false} OccursGroup(input: Input, i: nat, p: Phrase)
    requires p.Group?
    ensures |Tokens(p)| == |Tokens(p.inner)| + 2
    ensures Occurs(input, i, Tokens(p)) <==>
              && input.At(i, "(") && Occurs(input, i + 1, Tokens(p.inner))
              && input.At(i + 1 + |Tokens(p.inner)|, ")")
  {
    hide Occurs;
    OccursCons(input, i, "(", Tokens(p.inner) + [")"]);
    OccursConcat(input, i + 1, Tokens(p.inner), [")"]);
    OccursOne(input, i + 1 + |Tokens(p.inner)|, ")");
  }

  // ----- Every phrase within the limits is read --------------------------------------------

  /** The next token does not continue a power, a product or a sum. */
  predicate StopsPower(input: Input, i: nat) {
    !input.At(i, "^")
  }

  predicate StopsProduct(input: Input, i: nat) {
    StopsPower(input, i) && !input.At(i, "*") && !input.At(i, "/")
  }

  predicate StopsSum(input: Input, i: nat) {
    StopsProduct(input, i) && !input.At(i, "+") && !input.At(i, "-")
  }

  /** Everything a reading lemma assumes about a phrase and where its tokens stand. */
  ghost predicate Ready(input: Input, i: nat, nesting: nat, nodes: nat, p: Phrase, node: Node) {
    && ValidVariables(input.variables)
    && Grammatical(p) && Denotes(p, input.variables, node)
    && Occurs(input, i, Tokens(p))
    && nesting + Nesting(p) <= DEPTH_LIMIT
    && nodes + Size(node) <= NODE_LIMIT
    && node.depth <= DEPTH_LIMIT
  }

  /** The reading of `node`: all tokens of the phrase consumed, all nodes charged. */
  function Read(i: nat, nodes: nat, p: Phrase, node: Node): Parsed {
    Parsed(node, i + |Tokens(p)|, nodes + Size(node))
  }

  /** The parts of a binary phrase, ready in turn, and the charge that ends it. */
  lemma {:induction false} ReadyJoined(input: Input, i: nat, nesting: nat, nodes: nat, p: Phrase, node: Node)
    requires p.Joined? && Ready(input, i, nesting, nodes, p, node)
    ensures node.Binary? && node.operator == p.operator
    ensures Ready(input, i, nesting, nodes, p.left, node.left) && Rank(p.left) >= LeftLevel(p.operator)
    ensures var middle := Read(i, nodes, p.left, node.left);
            var inner := if p.operator == Power then nesting + 1 else nesting;
            var right := Read(middle.next + 1, middle.nodes, p.right, node.right);
            && i <= middle.next < right.next
            && middle.node == node.left && right.node == node.right
            && input.At(middle.next, OperatorToken(p.operator))
            && inner <= DEPTH_LIMIT
            && Ready(input, middle.next + 1, inner, middle.nodes, p.right, node.right)
            && Rank(p.right) >= RightLevel(p.operator)
            && right.next == Read(i, nodes, p, node).next
            && Charge(MakeBinary(node.operator, node.left, node.right), right.next, right.nodes)
                 == Some(Read(i, nodes, p, node))
  {
    hide Occurs, ValidVariables, OperatorToken, LeftLevel, RightLevel, Rank, LeafDenotes;
    OccursJoined(input, i, p);
  }

  lemma {:induction false} ReadySigned(input: Input, i: nat, nesting: nat, nodes: nat, p: Phrase, node: Node)
    requires p.Signed? && Ready(input, i, nesting, nodes, p, node)
    ensures node.Unary? && node.sign == p.sign
    ensures input.At(i, SignToken(p.sign)) && nesting + 1 <= DEPTH_LIMIT
    ensures Ready(input, i + 1, nesting + 1, nodes, p.operand, node.operand) && Rank(p.operand) >= 2
    ensures var operand := Read(i + 1, nodes, p.operand, node.operand);
            && operand.node == node.operand && operand.next == Read(i, nodes, p, node).next
            && Charge(Unary(p.sign, node.operand, node.operand.depth + 1), operand.next, operand.nodes)
                 == Some(Read(i, nodes, p, node))
  {
    hide Occurs, ValidVariables, SignToken, Rank, LeafDenotes;
    OccursSigned(input, i, p);
  }

  lemma {:induction false} ReadyGroup(input: Input, i: nat, nesting: nat, nodes: nat, p: Phrase, node: Node)
    requires p.Group? && Ready(input, i, nesting, nodes, p, node)
    ensures input.At(i, "(") && nesting + 1 <= DEPTH_LIMIT
    ensures Ready(input, i + 1, nesting + 1, nodes, p.inner, node)
    ensures var inner := Read(i + 1, nodes, p.inner, node);
            && input.At(inner.next, ")") && StopsSum(input, inner.next)
            && inner.(next := inner.next + 1) == Read(i, nodes, p, node)
  {
    hide Occurs, ValidVariables, LeafDenotes;
    OccursGroup(input, i, p);
  }

  /** A leaf's token is neither a sign nor a parenthesis. */
  lemma {:induction false} LeafToken(token: string, variables: seq<string>, node: Node)
    requires ValidVariables(variables) && LeafDenotes(token, variables, node)
    ensures token != "" && token != "+" && token != "-" && token != "(" && token != ")"
    ensures node.Literal? <==> IsDigit(token[0])
    ensures node.Variable? ==> IsIdentifier(token)
  {
    hide Writes, Normal;
    if node.Variable? {
      var i :| 0 <= i < |variables| && variables[i] == token;
    }
  }

  /** A primary never starts with a sign. */
  lemma {:induction false} FirstToken(input: Input, i: nat, nesting: nat, nodes: nat, p: Phrase, node: Node)
    requires Ready(input, i, nesting, nodes, p, node) && Rank(p) >= 3
    ensures i < |input.tokens| && SignAt(input, i).None?
    decreases p
  {
    hide Ready, Read, Charge, MakeBinary;
    match p
    case Leaf(token) => FirstOfLeaf(input, i, nesting, nodes, p, node);
    case Group(_) => ReadyGroup(input, i, nesting, nodes, p, node);
    case Signed(_, _) =>
    case Joined(_, left, _) =>
      ReadyJoined(input, i, nesting, nodes, p, node);
      FirstToken(input, i, nesting, nodes, left, node.left);
  }

  lemma {:induction false} FirstOfLeaf(input: Input, i: nat, nesting: nat, nodes: nat, p: Phrase, node: Node)
    requires p.Leaf? && Ready(input, i, nesting, nodes, p, node)
    ensures i < |input.tokens| && input.tokens[i] == p.token && SignAt(input, i).None?
  {
    hide Occurs, ValidVariables, LeafDenotes;
    LeafToken(p.token, input.variables, node);
    OccursOne(input, i, p.token);
  }

  lemma {:induction false} PrimaryReads(input: Input, i: nat, nesting: nat, nodes: nat, p: Phrase, node: Node)
    requires Ready(input, i, nesting, nodes, p, node) && Rank(p) == 4
    ensures i <= |input.tokens| && Primary(input, i, nesting, nodes) == Some(Read(i, nodes, p, node))
    decreases p, 4
  {
    hide Sum, Product, UnaryAt, PowerAt;
    if p.Group? {
      hide Ready, Read;
      ReadyGroup(input, i, nesting, nodes, p, node);
      SumReads(input, i + 1, nesting + 1, nodes, p.inner, node);
    } else {
      LeafReads(input, i, nesting, nodes, p, node);
    }
  }

  lemma {:induction false} LeafReads(input: Input, i: nat, nesting: nat, nodes: nat, p: Phrase, node: Node)
    requires Ready(input, i, nesting, nodes, p, node) && p.Leaf?
    ensures i <= |input.tokens| && Primary(input, i, nesting, nodes) == Some(Read(i, nodes, p, node))
  {
    hide Sum, Occurs, ParseDecimal, ValidVariables, Writes, Normal, Number;
    FirstOfLeaf(input, i, nesting, nodes, p, node);
    if node.Literal? {
      ParsedDecimalIff(p.token, node.value);
    }
    LeafToken(p.token, input.variables, node);
    LeafIsLeaf(p.token, input.variables, node);
  }

  lemma {:induction false} PowerAtReads(input: Input, i: nat, nesting: nat, nodes: nat, p: Phrase, node: Node)
    requires Ready(input, i, nesting, nodes, p, node) && Rank(p) >= 3
    requires StopsPower(input, Read(i, nodes, p, node).next)
    ensures i <= |input.tokens| && PowerAt(input, i, nesting, nodes) == Some(Read(i, nodes, p, node))
    decreases p, 5
  {
    hide Sum, Product, UnaryAt, Primary, Ready, Read, Charge, MakeBinary;
    if p.Joined? {
      ReadyJoined(input, i, nesting, nodes, p, node);
      var base := Read(i, nodes, p.left, node.left);
      PrimaryReads(input, i, nesting, nodes, p.left, node.left);
      UnaryAtReads(input, base.next + 1, nesting + 1, base.nodes, p.right, node.right);
    } else {
      PrimaryReads(input, i, nesting, nodes, p, node);
    }
  }

  lemma {:induction false} UnaryAtReads(input: Input, i: nat, nesting: nat, nodes: nat, p: Phrase, node: Node)
    requires Ready(input, i, nesting, nodes, p, node) && Rank(p) >= 2
    requires StopsPower(input, Read(i, nodes, p, node).next)
    ensures i <= |input.tokens| && UnaryAt(input, i, nesting, nodes) == Some(Read(i, nodes, p, node))
    decreases p, 6
  {
    hide Sum, Product, PowerAt, Primary, Ready, Read, Charge;
    if p.Signed? {
      ReadySigned(input, i, nesting, nodes, p, node);
      UnaryAtReads(input, i + 1, nesting + 1, nodes, p.operand, node.operand);
    } else {
      FirstToken(input, i, nesting, nodes, p, node);
      PowerAtReads(input, i, nesting, nodes, p, node);
    }
  }

  /** After the tokens of a phrase the product loop stands with its tree built, whatever comes next but `^`. */
  lemma {:induction false} ProductReaches(input: Input, i: nat, nesting: nat, nodes: nat, p: Phrase, node: Node)
    requires Ready(input, i, nesting, nodes, p, node) && Rank(p) >= 1
    requires StopsPower(input, Read(i, nodes, p, node).next)
    ensures i <= |input.tokens| && Read(i, nodes, p, node).next <= |input.tokens|
    ensures Product(input, i, nesting, nodes) == ProductTail(input, Read(i, nodes, p, node), nesting)
    decreases p, 7
  {
    hide Sum, UnaryAt, PowerAt, Primary, Ready, Read, Charge, MakeBinary;
    ReadInside(input, i, nesting, nodes, p, node);
    if Rank(p) == 1 {
      ReadyJoined(input, i, nesting, nodes, p, node);
      var left := Read(i, nodes, p.left, node.left);
      ProductReaches(input, i, nesting, nodes, p.left, node.left);
      UnaryAtReads(input, left.next + 1, nesting, left.nodes, p.right, node.right);
    } else {
      UnaryAtReads(input, i, nesting, nodes, p, node);
    }
  }

  lemma {:induction false} ReadInside(input: Input, i: nat, nesting: nat, nodes: nat, p: Phrase, node: Node)
    requires Ready(input, i, nesting, nodes, p, node)
    ensures i <= Read(i, nodes, p, node).next <= |input.tokens|
  {
  }

  lemma {:induction false} SumReaches(input: Input, i: nat, nesting: nat, nodes: nat, p: Phrase, node: Node)
    requires Ready(input, i, nesting, nodes, p, node) && StopsProduct(input, Read(i, nodes, p, node).next)
    ensures i <= |input.tokens| && Read(i, nodes, p, node).next <= |input.tokens|
    ensures Sum(input, i, nesting, nodes) == SumTail(input, Read(i, nodes, p, node), nesting)
    decreases p, 8
  {
    hide UnaryAt, Product, PowerAt, Primary, Ready, Read, Charge, MakeBinary;
    ReadInside(input, i, nesting, nodes, p, node);
    if Rank(p) == 0 {
      ReadyJoined(input, i, nesting, nodes, p, node);
      var left := Read(i, nodes, p.left, node.left);
      SumReaches(input, i, nesting, nodes, p.left, node.left);
      ProductReaches(input, left.next + 1, nesting, left.nodes, p.right, node.right);
    } else {
      ProductReaches(input, i, nesting, nodes, p, node);
    }
  }

  lemma {:induction false} SumReads(input: Input, i: nat, nesting: nat, nodes: nat, p: Phrase, node: Node)
    requires Ready(input, i, nesting, nodes, p, node) && StopsSum(input, Read(i, nodes, p, node).next)
    ensures i <= |input.tokens| && Sum(input, i, nesting, nodes) == Some(Read(i, nodes, p, node))
    decreases p, 9
  {
    hide UnaryAt, Product, PowerAt, Primary, Ready, Read, Sum;
    SumReaches(input, i, nesting, nodes, p, node);
  }

  // ----- Nothing else is read --------------------------------------------------------------

  /** `p` is a phrase read from `start` at `level` with `nesting` levels open, and `r` what was read. */
  ghost predicate Derives(input: Input, start: nat, nesting: nat, nodes: nat, level: nat, p: Phrase, r: Parsed) {
    && Grammatical(p) && Rank(p) >= level
    && Occurs(input, start, Tokens(p)) && r.next == start + |Tokens(p)|
    && Denotes(p, input.variables, r.node)
    && nesting + Nesting(p) <= DEPTH_LIMIT
    && r.node.depth <= DEPTH_LIMIT
    && r.nodes == nodes + Size(r.node)
  }

  lemma {:induction false} JoinedDerives(input: Input, start: nat, nesting: nat, nodes: nat, operator: Operator,
                                         p: Phrase, left: Parsed, q: Phrase, right: Parsed, r: Parsed)
    requires Derives(input, start, nesting, nodes, LeftLevel(operator), p, left)
    requires input.At(left.next, OperatorToken(operator))
    requires Derives(input, left.next + 1, if operator == Power then nesting + 1 else nesting, left.nodes,
                     RightLevel(operator), q, right)
    requires Charge(MakeBinary(operator, left.node, right.node), right.next, right.nodes) == Some(r)
    ensures Derives(input, start, nesting, nodes, OperatorLevel(operator), Joined(operator, p, q), r)
  {
    hide Occurs, OperatorToken, LeftLevel, RightLevel, OperatorLevel, LeafDenotes;
    OccursJoined(input, start, Joined(operator, p, q));
  }

  lemma {:induction false} SignedDerives(input: Input, start: nat, nesting: nat, nodes: nat, sign: Sign,
                                         p: Phrase, operand: Parsed, r: Parsed)
    requires input.At(start, SignToken(sign))
    requires Derives(input, start + 1, nesting + 1, nodes, 2, p, operand)
    requires Charge(Unary(sign, operand.node, operand.node.depth + 1), operand.next, operand.nodes) == Some(r)
    ensures Derives(input, start, nesting, nodes, 2, Signed(sign, p), r)
  {
    hide Occurs, SignToken, LeafDenotes;
    OccursSigned(input, start, Signed(sign, p));
  }

  lemma {:induction false} GroupDerives(input: Input, start: nat, nesting: nat, nodes: nat, p: Phrase, inner: Parsed)
    requires input.At(start, "(") && input.At(inner.next, ")")
    requires Derives(input, start + 1, nesting + 1, nodes, 0, p, inner)
    ensures Derives(input, start, nesting, nodes, 4, Group(p), inner.(next := inner.next + 1))
  {
    hide Occurs, Denotes;
    OccursGroup(input, start, Group(p));
    assert Denotes(Group(p), input.variables, inner.node) by { GroupDenotes(p, input.variables, inner.node); }
  }

  lemma {:induction false} GroupDenotes(p: Phrase, variables: seq<string>, node: Node)
    requires Denotes(p, variables, node)
    ensures Denotes(Group(p), variables, node)
  {
  }

  lemma {:induction false} SumDerives(input: Input, i: nat, nesting: nat, nodes: nat) returns (p: Phrase)
    requires i <= |input.tokens| && nesting <= DEPTH_LIMIT && Sum(input, i, nesting, nodes).Some?
    ensures Derives(input, i, nesting, nodes, 0, p, Sum(input, i, nesting, nodes).value)
    decreases |input.tokens| - i, 6
  {
    hide Product, UnaryAt, PowerAt, Primary, SumTail, Derives;
    var first := Product(input, i, nesting, nodes).value;
    p := ProductDerives(input, i, nesting, nodes);
    Weaken(input, i, nesting, nodes, 1, 0, p, first);
    p := SumTailDerives(input, i, nesting, nodes, p, first);
  }

  lemma {:induction false} Weaken(input: Input, i: nat, nesting: nat, nodes: nat, high: nat, low: nat, p: Phrase, r: Parsed)
    requires Derives(input, i, nesting, nodes, high, p, r) && low <= high
    ensures Derives(input, i, nesting, nodes, low, p, r)
  {
  }

  lemma {:induction false} SumTailDerives(input: Input, start: nat, nesting: nat, nodes: nat, left: Phrase, r: Parsed)
    returns (p: Phrase)
    requires r.next <= |input.tokens| && nesting <= DEPTH_LIMIT && start < r.next
    requires Derives(input, start, nesting, nodes, 0, left, r)
    requires SumTail(input, r, nesting).Some?
    ensures Derives(input, start, nesting, nodes, 0, p, SumTail(input, r, nesting).value)
    decreases |input.tokens| - r.next, 5
  {
    hide Product, UnaryAt, PowerAt, Primary, Derives, Charge, MakeBinary;
    p := left;
    var operator := SumOperator(input, r.next);
    if operator.Some? {
      var right := Product(input, r.next + 1, nesting, r.nodes).value;
      var q := ProductDerives(input, r.next + 1, nesting, r.nodes);
      var node := MakeBinary(operator.value, r.node, right.node);
      var next := Charge(node, right.next, right.nodes).value;
      ChargedNext(node, right.next, right.nodes);
      JoinedDerives(input, start, nesting, nodes, operator.value, left, r, q, right, next);
      p := SumTailDerives(input, start, nesting, nodes, Joined(operator.value, left, q), next);
    }
  }

  lemma {:induction false} ChargedNext(node: Node, next: nat, nodes: nat)
    ensures Charge(node, next, nodes).Some? ==> Charge(node, next, nodes).value.next == next
  {
  }

  lemma {:induction false} ProductDerives(input: Input, i: nat, nesting: nat, nodes: nat) returns (p: Phrase)
    requires i <= |input.tokens| && nesting <= DEPTH_LIMIT && Product(input, i, nesting, nodes).Some?
    ensures Derives(input, i, nesting, nodes, 1, p, Product(input, i, nesting, nodes).value)
    decreases |input.tokens| - i, 4
  {
    hide Sum, UnaryAt, PowerAt, Primary, ProductTail, Derives;
    var first := UnaryAt(input, i, nesting, nodes).value;
    p := UnaryAtDerives(input, i, nesting, nodes);
    Weaken(input, i, nesting, nodes, 2, 1, p, first);
    p := ProductTailDerives(input, i, nesting, nodes, p, first);
  }

  lemma {:induction false} ProductTailDerives(input: Input, start: nat, nesting: nat, nodes: nat, left: Phrase, r: Parsed)
    returns (p: Phrase)
    requires r.next <= |input.tokens| && nesting <= DEPTH_LIMIT && start < r.next
    requires Derives(input, start, nesting, nodes, 1, left, r)
    requires ProductTail(input, r, nesting).Some?
    ensures Derives(input, start, nesting, nodes, 1, p, ProductTail(input, r, nesting).value)
    decreases |input.tokens| - r.next, 3
  {
    hide Sum, Product, PowerAt, UnaryAt, Primary, Derives, Charge, MakeBinary;
    p := left;
    var operator := ProductOperator(input, r.next);
    if operator.Some? {
      var right := UnaryAt(input, r.next + 1, nesting, r.nodes).value;
      var q := UnaryAtDerives(input, r.next + 1, nesting, r.nodes);
      var node := MakeBinary(operator.value, r.node, right.node);
      var next := Charge(node, right.next, right.nodes).value;
      ChargedNext(node, right.next, right.nodes);
      JoinedDerives(input, start, nesting, nodes, operator.value, left, r, q, right, next);
      p := ProductTailDerives(input, start, nesting, nodes, Joined(operator.value, left, q), next);
    }
  }

  lemma {:induction false} UnaryAtDerives(input: Input, i: nat, nesting: nat, nodes: nat) returns (p: Phrase)
    requires i <= |input.tokens| && nesting <= DEPTH_LIMIT && UnaryAt(input, i, nesting, nodes).Some?
    ensures Derives(input, i, nesting, nodes, 2, p, UnaryAt(input, i, nesting, nodes).value)
    decreases |input.tokens| - i, 2
  {
    hide Sum, Product, PowerAt, Primary, Derives, Charge;
    var sign := SignAt(input, i);
    if sign.None? {
      p := PowerAtDerives(input, i, nesting, nodes);
      Weaken(input, i, nesting, nodes, 3, 2, p, PowerAt(input, i, nesting, nodes).value);
    } else {
      p := UnaryAtDerives(input, i + 1, nesting + 1, nodes);
      var operand := UnaryAt(input, i + 1, nesting + 1, nodes).value;
      SignedDerives(input, i, nesting, nodes, sign.value, p, operand, UnaryAt(input, i, nesting, nodes).value);
      p := Signed(sign.value, p);
    }
  }

  lemma {:induction false} PowerAtDerives(input: Input, i: nat, nesting: nat, nodes: nat) returns (p: Phrase)
    requires i <= |input.tokens| && nesting <= DEPTH_LIMIT && PowerAt(input, i, nesting, nodes).Some?
    ensures Derives(input, i, nesting, nodes, 3, p, PowerAt(input, i, nesting, nodes).value)
    decreases |input.tokens| - i, 1
  {
    hide Sum, Product, UnaryAt, Primary, Derives, Charge, MakeBinary;
    var base := Primary(input, i, nesting, nodes).value;
    p := PrimaryDerives(input, i, nesting, nodes);
    if !input.At(base.next, "^") {
      Weaken(input, i, nesting, nodes, 4, 3, p, base);
    } else {
      var q := UnaryAtDerives(input, base.next + 1, nesting + 1, base.nodes);
      var exponent := UnaryAt(input, base.next + 1, nesting + 1, base.nodes).value;
      JoinedDerives(input, i, nesting, nodes, Power, p, base, q, exponent, PowerAt(input, i, nesting, nodes).value);
      p := Joined(Power, p, q);
    }
  }

  lemma {:induction false} PrimaryDerives(input: Input, i: nat, nesting: nat, nodes: nat) returns (p: Phrase)
    requires i <= |input.tokens| && nesting <= DEPTH_LIMIT && Primary(input, i, nesting, nodes).Some?
    ensures Derives(input, i, nesting, nodes, 4, p, Primary(input, i, nesting, nodes).value)
    decreases |input.tokens| - i, 0
  {
    hide Sum, Product, UnaryAt, PowerAt, ParseDecimal, Occurs, Writes, Normal, Number;
    var token := input.tokens[i];
    if token == "(" {
      hide Derives;
      p := SumDerives(input, i + 1, nesting + 1, nodes);
      GroupDerives(input, i, nesting, nodes, p, Sum(input, i + 1, nesting + 1, nodes).value);
      p := Group(p);
    } else {
      p := Leaf(token);
      OccursOne(input, i, token);
      if ParseDecimal(token).Some? {
        ParsedDecimalIff(token, ParseDecimal(token).value);
      }
    }
  }

  // ----- Main result -----------------------------------------------------------------------

  lemma {:induction false} FewNodes(p: Phrase, variables: seq<string>, node: Node)
    requires Denotes(p, variables, node)
    ensures Size(node) <= |Tokens(p)|
  {
    hide LeafDenotes;
    match p
    case Leaf(token) => LeafIsLeaf(token, variables, node);
    case Group(inner) => FewNodes(inner, variables, node);
    case Signed(_, operand) => FewNodes(operand, variables, node.operand);
    case Joined(_, left, right) =>
      FewNodes(left, variables, node.left);
      FewNodes(right, variables, node.right);
  }

  lemma {:induction false} EndStops(input: Input, i: nat)
    requires i == |input.tokens|
    ensures StopsSum(input, i)
  {
  }

  /** A phrase within the limits is read as the tree it denotes. */
  lemma {:induction false} ReadingParses(p: Phrase, input: Input, node: Node)
    requires ValidVariables(input.variables) && IsReading(p, input.tokens, input.variables, node)
    requires Size(node) <= NODE_LIMIT
    ensures ParseTokens(input) == Some(node)
  {
    hide Sum, Grammatical, Denotes, Tokens, Nesting, Size, Height, ValidVariables, StopsSum;
    DenotedDepth(p, input.variables, node);
    assert input.tokens[0..|input.tokens|] == input.tokens;
    EndStops(input, |input.tokens|);
    SumReads(input, 0, 0, 0, p, node);
  }

  lemma {:induction false} ParsedReading(input: Input, node: Node) returns (p: Phrase)
    requires ParseTokens(input) == Some(node)
    ensures IsReading(p, input.tokens, input.variables, node)
  {
    hide Sum, Grammatical, Denotes, Nesting, Size, Height;
    p := SumDerives(input, 0, 0, 0);
    DenotedDepth(p, input.variables, node);
    assert input.tokens[0..|input.tokens|] == input.tokens;
  }

  /**
   The parser accepts exactly the sentences of the grammar within the limits, and returns the tree
   the sentence denotes; so no sentence denotes two trees.
   */
  lemma {:induction false} ParseIff(input: Input, node: Node)
    requires ValidVariables(input.variables) && |input.tokens| <= TOKEN_LIMIT
    ensures ParseTokens(input) == Some(node) <==> Reads(input.tokens, input.variables, node)
  {
    hide ParseTokens, IsReading;
    if ParseTokens(input) == Some(node) {
      var p := ParsedReading(input, node);
    }
    if Reads(input.tokens, input.variables, node) {
      var p: Phrase :| IsReading(p, input.tokens, input.variables, node);
      ReadingSize(p, input.tokens, input.variables, node);
      ReadingParses(p, input, node);
    }
  }

  lemma {:induction false} ReadingSize(p: Phrase, tokens: seq<string>, variables: seq<string>, node: Node)
    requires IsReading(p, tokens, variables, node)
    ensures Size(node) <= |tokens|
  {
    FewNodes(p, variables, node);
  }
}
