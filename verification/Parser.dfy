/**
 The recursive-descent expression parser (expression-parser.ts): the grammar as functions on
 positions, and the parser object, whose methods move `index`, `nesting` and the node count.

     sum     := product (('+' | '-') product)*
     product := unary (('*' | '/') unary)*
     unary   := ('+' | '-') unary | power
     power   := primary ('^' unary)?
     primary := number | declared-variable | '(' sum ')'
 */
module Parser {
  import opened Wrappers
  import opened Digits
  import opened ExactDecimal
  import opened Expression
  import opened Lexer

  datatype Input = Input(tokens: seq<string>, variables: seq<string>) {
    predicate At(i: nat, token: string) {
      i < |tokens| && tokens[i] == token
    }
  }

  /** A tree, the index of the next token, and how many nodes have been charged so far. */
  datatype Parsed = Parsed(node: Node, next: nat, nodes: nat)

  /** Charge a node; refuse it when there are too many or it is too deep. */
  function Charge(node: Node, next: nat, nodes: nat): Option<Parsed> {
    if nodes + 1 > NODE_LIMIT || node.depth > DEPTH_LIMIT then None else Some(Parsed(node, next, nodes + 1))
  }

  function MakeBinary(operator: Operator, left: Node, right: Node): Node {
    Binary(operator, left, right, Max(left.depth, right.depth) + 1)
  }

  function SumOperator(input: Input, i: nat): Option<Operator> {
    if input.At(i, "+") then Some(Add) else if input.At(i, "-") then Some(Subtract) else None
  }

  function ProductOperator(input: Input, i: nat): Option<Operator> {
    if input.At(i, "*") then Some(Multiply) else if input.At(i, "/") then Some(Divide) else None
  }

  function SignAt(input: Input, i: nat): Option<Sign> {
    if input.At(i, "+") then Some(Plus) else if input.At(i, "-") then Some(Minus) else None
  }

  function Sum(input: Input, i: nat, nesting: nat, nodes: nat): (r: Option<Parsed>)
    requires i <= |input.tokens|
    ensures r.Some? ==> i < r.value.next <= |input.tokens|
    decreases |input.tokens| - i, 6
  {
    var first :- Product(input, i, nesting, nodes);
    SumTail(input, first, nesting)
  }

  /** The loop of `sum`, entered with the tree built so far. */
  function SumTail(input: Input, p: Parsed, nesting: nat): (r: Option<Parsed>)
    requires p.next <= |input.tokens|
    ensures r.Some? ==> p.next <= r.value.next <= |input.tokens|
    decreases |input.tokens| - p.next, 5
  {
    match SumOperator(input, p.next)
    case None => Some(p)
    case Some(operator) =>
      var right :- Product(input, p.next + 1, nesting, p.nodes);
      var q :- Charge(MakeBinary(operator, p.node, right.node), right.next, right.nodes);
      SumTail(input, q, nesting)
  }

  function Product(input: Input, i: nat, nesting: nat, nodes: nat): (r: Option<Parsed>)
    requires i <= |input.tokens|
    ensures r.Some? ==> i < r.value.next <= |input.tokens|
    decreases |input.tokens| - i, 4
  {
    var first :- UnaryAt(input, i, nesting, nodes);
    ProductTail(input, first, nesting)
  }

  function ProductTail(input: Input, p: Parsed, nesting: nat): (r: Option<Parsed>)
    requires p.next <= |input.tokens|
    ensures r.Some? ==> p.next <= r.value.next <= |input.tokens|
    decreases |input.tokens| - p.next, 3
  {
    match ProductOperator(input, p.next)
    case None => Some(p)
    case Some(operator) =>
      var right :- UnaryAt(input, p.next + 1, nesting, p.nodes);
      var q :- Charge(MakeBinary(operator, p.node, right.node), right.next, right.nodes);
      ProductTail(input, q, nesting)
  }

  function UnaryAt(input: Input, i: nat, nesting: nat, nodes: nat): (r: Option<Parsed>)
    requires i <= |input.tokens|
    ensures r.Some? ==> i < r.value.next <= |input.tokens|
    decreases |input.tokens| - i, 2
  {
    match SignAt(input, i)
    case None => PowerAt(input, i, nesting, nodes)
    case Some(sign) =>
      if nesting + 1 > DEPTH_LIMIT then None else
      var operand :- UnaryAt(input, i + 1, nesting + 1, nodes);
      Charge(Unary(sign, operand.node, operand.node.depth + 1), operand.next, operand.nodes)
  }

  function PowerAt(input: Input, i: nat, nesting: nat, nodes: nat): (r: Option<Parsed>)
    requires i <= |input.tokens|
    ensures r.Some? ==> i < r.value.next <= |input.tokens|
    decreases |input.tokens| - i, 1
  {
    var base :- Primary(input, i, nesting, nodes);
    if !input.At(base.next, "^") then Some(base)
    else if nesting + 1 > DEPTH_LIMIT then None
    else
      var exponent :- UnaryAt(input, base.next + 1, nesting + 1, base.nodes);
      Charge(MakeBinary(Power, base.node, exponent.node), exponent.next, exponent.nodes)
  }

  function Primary(input: Input, i: nat, nesting: nat, nodes: nat): (r: Option<Parsed>)
    requires i <= |input.tokens|
    ensures r.Some? ==> i < r.value.next <= |input.tokens|
    decreases |input.tokens| - i, 0
  {
    if i == |input.tokens| then None
    else
      var token := input.tokens[i];
      if token == "(" then
        if nesting + 1 > DEPTH_LIMIT then None else
        var inner :- Sum(input, i + 1, nesting + 1, nodes);
        if input.At(inner.next, ")") then Some(inner.(next := inner.next + 1)) else None
      else if token != "" && IsDigit(token[0]) then
        var value :- ParseDecimal(token);
        Charge(Literal(value, 1), i + 1, nodes)
      else if token in input.variables then Charge(Variable(token, 1), i + 1, nodes)
      else None
  }

  /** The whole token list must be one sum. */
  function ParseTokens(input: Input): Option<Node> {
    var root :- Sum(input, 0, 0, 0);
    if root.next == |input.tokens| then Some(root.node) else None
  }

  /** Characters refused in any text of a question: controls, bidirectional overrides. */
  predicate UnsafeChar(c: char) {
    || (c < ' ' && c != '\t' && c != '\n' && c != '\r')
    || '\U{007F}' <= c <= '\U{009F}'
    || '\U{202A}' <= c <= '\U{202E}'
    || '\U{2066}' <= c <= '\U{2069}'
  }

  predicate SafeText(s: string, limit: nat) {
    0 < |s| <= limit && forall i :: 0 <= i < |s| ==> !UnsafeChar(s[i])
  }

  function ParseExpression(text: string, variables: seq<string>): Option<Node> {
    if !SafeText(text, LENGTH_LIMIT) || !ValidVariables(variables) then None
    else
      var tokens :- Lex(text);
      ParseTokens(Input(tokens, variables))
  }

  // ----- The parser object -----------------------------------------------------------------

  /** The parser's closures and their shared variables. */
  class ExpressionParser {
    const input: Input
    var index: nat
    var nesting: nat
    var nodes: nat

    /** Fewer nodes have been charged than tokens consumed. */
    ghost predicate Valid()
      reads this
    {
      nodes <= index <= |input.tokens| <= TOKEN_LIMIT
    }

    constructor (tokens: seq<string>, variables: seq<string>)
      requires |tokens| <= TOKEN_LIMIT
      ensures Valid() && input == Input(tokens, variables) && index == nesting == nodes == 0
    {
      input := Input(tokens, variables);
      index, nesting, nodes := 0, 0, 0;
    }

    /** `r` and the new state are what the grammar function says, and `nesting` is back at `before`. */
    ghost predicate Follows(r: Option<Node>, spec: Option<Parsed>, before: nat)
      reads this
    {
      && (r.None? <==> spec.None?)
      && (r.Some? ==> Valid() && spec.value == Parsed(r.value, index, nodes) && nesting == before)
    }

    /**
     Charge a node. With at most 128 tokens the node ceiling never refuses anything: a node is
     refused exactly when it is too deep.
     */
    method AddNode(node: Node) returns (r: Option<Node>)
      requires nodes < index <= |input.tokens| <= TOKEN_LIMIT
      modifies this`nodes
      ensures r == if node.depth > DEPTH_LIMIT then None else Some(node)
      ensures nodes == old(nodes) + 1
      ensures Charge(node, index, old(nodes)) == if r.None? then None else Some(Parsed(node, index, nodes))
    {
      nodes := nodes + 1;
      if nodes > NODE_LIMIT || node.depth > DEPTH_LIMIT {
        return None;
      }
      return Some(node);
    }

    method ParseSum() returns (r: Option<Node>)
      requires Valid()
      modifies this
      ensures Follows(r, Sum(input, old(index), old(nesting), old(nodes)), old(nesting))
      ensures r.Some? ==> old(index) < index && nodes - old(nodes) <= index - old(index)
      decreases |input.tokens| - index, 6
    {
      hide Product, ProductTail, UnaryAt, PowerAt, Primary;
      var node := ParseProduct();
      if node.None? {
        return None;
      }
      var current := node.value;
      var operator := SumOperator(input, index);
      while operator.Some?
        invariant Valid() && nesting == old(nesting) && old(index) < index
        invariant nodes - old(nodes) <= index - old(index)
        invariant operator == SumOperator(input, index)
        invariant Sum(input, old(index), old(nesting), old(nodes))
               == SumTail(input, Parsed(current, index, nodes), nesting)
        decreases |input.tokens| - index
      {
        index := index + 1;
        var right := ParseProduct();
        if right.None? {
          return None;
        }
        var added := AddNode(MakeBinary(operator.value, current, right.value));
        if added.None? {
          return None;
        }
        current := added.value;
        operator := SumOperator(input, index);
      }
      return Some(current);
    }

    method ParseProduct() returns (r: Option<Node>)
      requires Valid()
      modifies this
      ensures Follows(r, Product(input, old(index), old(nesting), old(nodes)), old(nesting))
      ensures r.Some? ==> old(index) < index && nodes - old(nodes) <= index - old(index)
      decreases |input.tokens| - index, 4
    {
      hide Sum, SumTail, UnaryAt, PowerAt, Primary;
      var node := ParseUnary();
      if node.None? {
        return None;
      }
      var current := node.value;
      var operator := ProductOperator(input, index);
      while operator.Some?
        invariant Valid() && nesting == old(nesting) && old(index) < index
        invariant nodes - old(nodes) <= index - old(index)
        invariant operator == ProductOperator(input, index)
        invariant Product(input, old(index), old(nesting), old(nodes))
               == ProductTail(input, Parsed(current, index, nodes), nesting)
        decreases |input.tokens| - index
      {
        index := index + 1;
        var right := ParseUnary();
        if right.None? {
          return None;
        }
        var added := AddNode(MakeBinary(operator.value, current, right.value));
        if added.None? {
          return None;
        }
        current := added.value;
        operator := ProductOperator(input, index);
      }
      return Some(current);
    }

    method ParseUnary() returns (r: Option<Node>)
      requires Valid()
      modifies this
      ensures Follows(r, UnaryAt(input, old(index), old(nesting), old(nodes)), old(nesting))
      ensures r.Some? ==> old(index) < index && nodes - old(nodes) <= index - old(index)
      decreases |input.tokens| - index, 2
    {
      hide Sum, SumTail, Product, ProductTail, PowerAt, Primary;
      var sign := SignAt(input, index);
      if sign.None? {
        r := ParsePower();
        return;
      }
      index := index + 1;
      nesting := nesting + 1;
      if nesting > DEPTH_LIMIT {
        return None;
      }
      var operand := ParseUnary();
      if operand.None? {
        return None;
      }
      nesting := nesting - 1;
      r := AddNode(Unary(sign.value, operand.value, operand.value.depth + 1));
    }

    method ParsePower() returns (r: Option<Node>)
      requires Valid()
      modifies this
      ensures Follows(r, PowerAt(input, old(index), old(nesting), old(nodes)), old(nesting))
      ensures r.Some? ==> old(index) < index && nodes - old(nodes) <= index - old(index)
      decreases |input.tokens| - index, 1
    {
      hide Sum, SumTail, Product, ProductTail, UnaryAt, Primary;
      var base := ParsePrimary();
      if base.None? || !input.At(index, "^") {
        return base;
      }
      index := index + 1;
      nesting := nesting + 1;
      if nesting > DEPTH_LIMIT {
        return None;
      }
      var exponent := ParseUnary();
      if exponent.None? {
        return None;
      }
      nesting := nesting - 1;
      r := AddNode(MakeBinary(Power, base.value, exponent.value));
    }

    method ParsePrimary() returns (r: Option<Node>)
      requires Valid()
      modifies this
      ensures Follows(r, Primary(input, old(index), old(nesting), old(nodes)), old(nesting))
      ensures r.Some? ==> old(index) < index && nodes - old(nodes) <= index - old(index)
      decreases |input.tokens| - index, 0
    {
      hide Sum, SumTail, Product, ProductTail, UnaryAt, PowerAt, ParseDecimal;
      if index == |input.tokens| {
        return None;
      }
      var token := input.tokens[index];
      index := index + 1;
      if token == "(" {
        nesting := nesting + 1;
        if nesting > DEPTH_LIMIT {
          return None;
        }
        var node := ParseSum();
        if node.None? {
          return None;
        }
        nesting := nesting - 1;
        if !input.At(index, ")") {
          return None;
        }
        index := index + 1;
        return node;
      }
      if token != "" && IsDigit(token[0]) {
        var value := ParseExactDecimal(token);
        if value.None? {
          return None;
        }
        r := AddNode(Literal(value.value, 1));
        return;
      }
      if token in input.variables {
        r := AddNode(Variable(token, 1));
        return;
      }
      return None;
    }

    method Parse() returns (r: Option<Node>)
      requires Valid() && index == nesting == nodes == 0
      modifies this
      ensures r == ParseTokens(input)
    {
      var root := ParseSum();
      if root.None? || index != |input.tokens| {
        return None;
      }
      return root;
    }
  }

  /** The whole of `parseExpression`: text gate, tokenizer, parser object. */
  method ParseText(text: string, variables: seq<string>) returns (r: Option<Node>)
    ensures r == ParseExpression(text, variables)
  {
    if !SafeText(text, LENGTH_LIMIT) || !ValidVariables(variables) {
      return None;
    }
    var tokens := Tokenize(text);
    if tokens.None? {
      return None;
    }
    assert |tokens.value| <= TOKEN_LIMIT by { LexKeepsText(text, tokens.value); }
    var parser := new ExpressionParser(tokens.value, variables);
    r := parser.Parse();
  }
}
