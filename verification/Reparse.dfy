/** Reading a minimal printing gives back the tree: the other half of the parser/printer inverse. */
module Reparse {
  import opened Wrappers
  import opened Digits
  import opened ExactDecimal
  import opened CanonicalDecimal
  import opened Expression
  import opened Lexer
  import opened Lexemes
  import opened Parser
  import opened Grammar
  import opened Printer

  // ----- Main results ----------------------------------------------------------------------

  /** Any well-formed tree that fits the limits is read back from its minimal printing. */
  lemma {:induction false} PrintThenParse(node: Node, variables: seq<string>)
    requires ValidVariables(variables) && WellFormed(node, variables)
    requires Need(0, node) <= DEPTH_LIMIT && Size(node) <= NODE_LIMIT
    ensures ParseTokens(Input(Print(0, node), variables)) == Some(node)
  {
    hide ParseTokens, Minimal, Size, ValidVariables, Denotes, Grammatical;
    MinimalDenotes(0, node, variables);
    ReadingParses(Minimal(0, node), Input(Print(0, node), variables), node);
  }

  /**
   Parser/printer inverse: the tree of any accepted token list has a minimal printing that is no
   longer, stays within the nesting limit, and parses back to the same tree.
   */
  lemma {:induction false} ParsePrintParse(input: Input, node: Node)
    requires ValidVariables(input.variables) && |input.tokens| <= TOKEN_LIMIT
    requires ParseTokens(input) == Some(node)
    ensures |Print(0, node)| <= |input.tokens| && Need(0, node) <= DEPTH_LIMIT
    ensures ParseTokens(Input(Print(0, node), input.variables)) == Some(node)
  {
    hide Print, Need, WellFormed, Size, ValidVariables, ParseTokens;
    AcceptedTree(input, node);
    PrintThenParse(node, input.variables);
  }

  // ----- Texts -----------------------------------------------------------------------------

  ghost predicate SplitsAndReads(text: string, variables: seq<string>, node: Node, tokens: seq<string>) {
    Splits(text, tokens) && |tokens| <= TOKEN_LIMIT && Reads(tokens, variables, node)
  }

  /** Tab, line feed, carriage return, and whatever is no control and no bidirectional override. */
  predicate IsPlain(c: char) {
    || c as int in {0x09, 0x0A, 0x0D}
    || 0x20 <= c as int <= 0x7E
    || 0xA0 <= c as int <= 0x2029
    || 0x202F <= c as int <= 0x2065
    || 0x206A <= c as int
  }

  predicate IsPlainText(text: string) {
    1 <= |text| <= 512 && forall i :: 0 <= i < |text| ==> IsPlain(text[i])
  }

  lemma {:induction false} PlainIff(text: string)
    ensures IsPlainText(text) <==> SafeText(text, LENGTH_LIMIT)
  {
    forall i | 0 <= i < |text|
      ensures IsPlain(text[i]) <==> !UnsafeChar(text[i])
    {
    }
  }

  /** A letter, then up to 31 letters, digits and underscores, and none of the names with a meaning of their own. */
  predicate IsDeclarable(name: string) {
    && 1 <= |name| <= 32
    && (forall i :: 0 <= i < |name| ==> IsLetter(name[i]) || name[i] in "0123456789_")
    && name[0] !in "0123456789_"
    && name !in ["constructor", "prototype", "__proto__", "eval", "Function", "globalThis", "global", "window",
                 "document", "process", "require", "import", "this", "toString", "toJSON", "valueOf"]
  }

  /** At most eight different names. */
  predicate MayDeclare(names: seq<string>) {
    && |names| <= 8
    && (forall i, j | 0 <= i < |names| && 0 <= j < |names| :: names[i] == names[j] ==> i == j)
    && forall i :: 0 <= i < |names| ==> IsDeclarable(names[i])
  }

  lemma {:induction false} DeclarableIff(name: string)
    ensures IsDeclarable(name) <==> IsIdentifier(name) && |name| <= 32 && name !in FORBIDDEN_NAMES
  {
    forall c: char
      ensures c in "0123456789_" <==> IsDigit(c) || c == '_'
    {
      if IsDigit(c) {
        assert "0123456789_"[c as int - '0' as int] == c;
      }
      assert "0123456789_"[10] == '_';
    }
  }

  lemma {:induction false} MayDeclareIff(names: seq<string>)
    ensures MayDeclare(names) <==> ValidVariables(names)
  {
    hide IsDeclarable, IsIdentifier;
    forall name: string
      ensures IsDeclarable(name) <==> IsIdentifier(name) && |name| <= 32 && name !in FORBIDDEN_NAMES
    {
      DeclarableIff(name);
    }
  }

  /**
   The accepted texts: at most 512 characters, all of them plain, that split into at most 128
   longest lexemes, which in turn are a sentence of the grammar for the tree.
   */
  lemma {:induction false} ParseExpressionIff(text: string, variables: seq<string>, node: Node)
    ensures ParseExpression(text, variables) == Some(node) <==>
              && IsPlainText(text) && MayDeclare(variables)
              && exists tokens: seq<string> :: SplitsAndReads(text, variables, node, tokens)
  {
    hide ParseTokens, Lex, Splits, Reads, SafeText, IsPlainText, ValidVariables, MayDeclare;
    PlainIff(text);
    MayDeclareIff(variables);
    if SafeText(text, LENGTH_LIMIT) && ValidVariables(variables) {
      if Lex(text).Some? {
        var tokens := Lex(text).value;
        LexIff(text, tokens);
        Grammar.ParseIff(Input(tokens, variables), node);
        assert ParseExpression(text, variables) == Some(node) ==> SplitsAndReads(text, variables, node, tokens);
      }
      forall tokens: seq<string> | SplitsAndReads(text, variables, node, tokens)
        ensures ParseExpression(text, variables) == Some(node)
      {
        LexIff(text, tokens);
        Grammar.ParseIff(Input(tokens, variables), node);
      }
    }
  }

  lemma {:induction false} SignlessNumberToken(g: Groups)
    requires IsGroups(g) && g.sign == ""
    ensures IsToken(Render(g))
  {
    hide Render, NumberLength, IsGroups;
    assert IsNumber(Render(g));
    NumberStart(Render(g));
    NumberAtLeast(g, "");
    assert Render(g) + "" == Render(g);
  }

  lemma {:induction false} LiteralToken(value: Decimal)
    requires value.coefficient >= 0
    ensures IsToken(Canonical(value))
  {
    hide IsToken, Render;
    if value.coefficient == 0 {
      assert Render(Groups("", "0", "", "", "", "")) == "0" by { ZeroRender(); }
      SignlessNumberToken(Groups("", "0", "", "", "", ""));
    } else {
      CanonicalRenders(value);
      SignlessNumberToken(CanonicalGroups(value));
    }
  }

  lemma ZeroRender()
    ensures Render(Groups("", "0", "", "", "", "")) == "0"
  {
  }

  lemma {:induction false} NameToken(name: string)
    requires IsIdentifier(name)
    ensures IsToken(name)
  {
  }

  lemma {:induction false} AllTokensConcat(a: seq<string>, b: seq<string>)
    requires AllTokens(a) && AllTokens(b)
    ensures AllTokens(a + b)
  {
  }

  lemma {:induction false} AllTokensOne(t: string)
    requires IsToken(t)
    ensures AllTokens([t])
  {
  }

  lemma MarkTokens()
    ensures AllTokens(["("]) && AllTokens([")"])
    ensures forall operator :: AllTokens([OperatorToken(operator)])
    ensures forall sign :: AllTokens([SignToken(sign)])
  {
  }

  /** A printed tree is made of whole tokens. */
  lemma {:induction false} PrintedTokens(level: nat, node: Node, variables: seq<string>)
    requires ValidVariables(variables) && WellFormed(node, variables)
    ensures AllTokens(Print(level, node))
    decreases node
  {
    hide AllTokens, ValidVariables, IsToken, Canonical;
    MarkTokens();
    var body := Tokens(Body(node));
    assert AllTokens(body) by {
      match node
      case Literal(value, _) =>
        LiteralToken(value);
        AllTokensOne(Canonical(value));
      case Variable(name, _) =>
        LeafToken(name, variables, node);
        NameToken(name);
        AllTokensOne(name);
      case Unary(sign, operand, _) =>
        PrintedTokens(2, operand, variables);
        AllTokensConcat([SignToken(sign)], Print(2, operand));
      case Binary(operator, left, right, _) =>
        PrintedTokens(LeftLevel(operator), left, variables);
        PrintedTokens(RightLevel(operator), right, variables);
        AllTokensConcat([OperatorToken(operator)], Print(RightLevel(operator), right));
        AllTokensConcat(Print(LeftLevel(operator), left), [OperatorToken(operator)] + Print(RightLevel(operator), right));
    }
    AllTokensConcat(body, [")"]);
    AllTokensConcat(["("], body + [")"]);
  }

  lemma {:induction false} TokenIsSafe(t: string)
    requires IsToken(t)
    ensures forall i :: 0 <= i < |t| ==> !UnsafeChar(t[i])
  {
    hide TokenLength;
    TokenChars(t);
  }

  lemma {:induction false} SpacedIsSafe(tokens: seq<string>)
    requires AllTokens(tokens)
    ensures forall i :: 0 <= i < |Spaced(tokens)| ==> !UnsafeChar(Spaced(tokens)[i])
  {
    if tokens != [] {
      hide IsToken, UnsafeChar;
      TokenIsSafe(tokens[0]);
      SpacedIsSafe(tokens[1..]);
      SpaceIsSafe();
    }
  }

  lemma SpaceIsSafe()
    ensures !UnsafeChar(' ')
  {
  }

  /** On texts: any accepted expression can be rewritten minimally, if the rewriting is short enough. */
  lemma {:induction false} TextRoundTrip(text: string, variables: seq<string>, node: Node)
    requires ParseExpression(text, variables) == Some(node)
    ensures var printed := Spaced(Print(0, node));
            |printed| <= LENGTH_LIMIT ==> ParseExpression(printed, variables) == Some(node)
  {
    hide Print, Need, WellFormed, Size, ValidVariables, ParseTokens, Lex, Spaced, UnsafeChar, AllTokens;
    var tokens := Lex(text).value;
    var input := Input(tokens, variables);
    LexKeepsText(text, tokens);
    AcceptedTree(input, node);
    ParsePrintParse(input, node);
    PrintedTokens(0, node, variables);
    LexSpaced(Print(0, node));
    SpacedIsSafe(Print(0, node));
    assert Spaced(Print(0, node)) != "" by { SpacedNonempty(node); }
  }

  lemma {:induction false} SpacedNonempty(node: Node)
    ensures Spaced(Print(0, node)) != ""
  {
    hide Minimal;
    TokensNonempty(Minimal(0, node));
  }

  lemma {:induction false} TokensNonempty(p: Phrase)
    ensures Tokens(p) != []
  {
  }
}
