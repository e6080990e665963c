/** Splitting an expression into tokens (expression-parser.ts). */
module Lexer {
  import opened Wrappers
  import opened Digits
  import opened ExactDecimal
  import opened Expression

  predicate IsSpace(c: char) {
    c == ' ' || c == '\t' || c == '\r' || c == '\n'
  }

  predicate IsOperatorChar(c: char) {
    c == '(' || c == ')' || c == '+' || c == '-' || c == '*' || c == '/' || c == '^'
  }

  predicate TokenChar(c: char) {
    IsNameChar(c) || IsOperatorChar(c) || c == '.'
  }

  function NameRun(s: string): (n: nat)
    ensures n <= |s|
    ensures forall i :: 0 <= i < n ==> IsNameChar(s[i])
    ensures n < |s| ==> !IsNameChar(s[n])
  {
    if s == "" || !IsNameChar(s[0]) then 0 else 1 + NameRun(s[1..])
  }

  /** Length of an optional `.digits` at the start of `s`. */
  function FractionLength(s: string): (n: nat)
    ensures n <= |s|
  {
    if s != "" && s[0] == '.' && DigitRun(s[1..]) > 0 then 1 + DigitRun(s[1..]) else 0
  }

  /** Length of an optional `e`, sign and digits at the start of `s`. */
  function ExponentLength(s: string): (n: nat)
    ensures n <= |s|
  {
    if s != "" && (s[0] == 'e' || s[0] == 'E') then
      var sign := |SignPrefix(s[1..])|;
      var digits := DigitRun(s[1 + sign..]);
      if digits > 0 then 1 + sign + digits else 0
    else 0
  }

  function NumberLength(s: string): (n: nat)
    ensures n <= |s|
    ensures s != "" && IsDigit(s[0]) ==> n > 0
  {
    var whole := DigitRun(s);
    var fraction := FractionLength(s[whole..]);
    whole + fraction + ExponentLength(s[whole + fraction..])
  }

  /** Length of the token at the start of `s`, or 0 when there is none. */
  function TokenLength(s: string): (n: nat)
    ensures n <= |s|
  {
    if s == "" then 0
    else if IsDigit(s[0]) then NumberLength(s)
    else if IsLetter(s[0]) then NameRun(s)
    else if IsOperatorChar(s[0]) then 1
    else 0
  }

  /** Tokens of `s` appended to those already read. */
  function LexFrom(s: string, tokens: seq<string>): Option<seq<string>>
    decreases |s|
  {
    if s == "" then Some(tokens)
    else if IsSpace(s[0]) then LexFrom(s[1..], tokens)
    else
      var n := TokenLength(s);
      if n == 0 || |tokens| == TOKEN_LIMIT then None else LexFrom(s[n..], tokens + [s[..n]])
  }

  function Lex(s: string): Option<seq<string>> {
    LexFrom(s, [])
  }

  /** The tokenizer as the source runs it: a cursor advances over the text and tokens are pushed. */
  method Tokenize(expression: string) returns (r: Option<seq<string>>)
    ensures r == Lex(expression)
  {
    hide TokenLength;
    var tokens: seq<string> := [];
    var cursor := 0;
    assert expression[0..] == expression;
    while cursor < |expression|
      invariant 0 <= cursor <= |expression|
      invariant LexFrom(expression[cursor..], tokens) == Lex(expression)
    {
      var rest := expression[cursor..];
      if IsSpace(expression[cursor]) {
        assert expression[cursor..][1..] == expression[cursor + 1..];
        cursor := cursor + 1;
        continue;
      }
      var n := TokenLength(rest);
      if n == 0 || |tokens| == TOKEN_LIMIT {
        return None;
      }
      assert expression[cursor..][n..] == expression[cursor + n..];
      tokens := tokens + [rest[..n]];
      cursor := cursor + n;
    }
    return Some(tokens);
  }

  // ----- What the tokens are ---------------------------------------------------------------

  /** `t` is one whole token. */
  predicate IsToken(t: string) {
    t != "" && TokenLength(t) == |t|
  }

  predicate AllTokens(tokens: seq<string>) {
    forall i :: 0 <= i < |tokens| ==> IsToken(tokens[i])
  }

  function WithoutSpaces(s: string): string {
    if s == "" then "" else (if IsSpace(s[0]) then "" else s[..1]) + WithoutSpaces(s[1..])
  }

  function Flatten(tokens: seq<string>): string {
    if tokens == [] then "" else tokens[0] + Flatten(tokens[1..])
  }

  /** The tokens separated by spaces. */
  function Spaced(tokens: seq<string>): string {
    if tokens == [] then "" else tokens[0] + " " + Spaced(tokens[1..])
  }

  /** `rest` cannot lengthen a token it follows. */
  predicate Separated(rest: string) {
    rest == "" || IsSpace(rest[0])
  }

  lemma {:induction false} DigitRunAppend(s: string, rest: string)
    requires Separated(rest)
    ensures DigitRun(s + rest) == DigitRun(s)
  {
    var n := DigitRun(s);
    assert s + rest == s[..n] + (s[n..] + rest);
    DigitRunExact(s[..n], s[n..] + rest);
  }

  lemma {:induction false} SignPrefixAppend(s: string, rest: string)
    requires Separated(rest)
    ensures SignPrefix(s + rest) == SignPrefix(s)
  {
    assert s != "" ==> (s + rest)[..1] == s[..1];
  }

  lemma {:induction false} FractionLengthAppend(s: string, rest: string)
    requires Separated(rest)
    ensures FractionLength(s + rest) == FractionLength(s)
  {
    if s != "" {
      assert (s + rest)[1..] == s[1..] + rest;
      DigitRunAppend(s[1..], rest);
    }
  }

  lemma {:induction false} ExponentLengthAppend(s: string, rest: string)
    requires Separated(rest)
    ensures ExponentLength(s + rest) == ExponentLength(s)
  {
    if s != "" {
      assert (s + rest)[1..] == s[1..] + rest;
      SignPrefixAppend(s[1..], rest);
      var sign := |SignPrefix(s[1..])|;
      assert (s + rest)[1 + sign..] == s[1 + sign..] + rest;
      DigitRunAppend(s[1 + sign..], rest);
    }
  }

  lemma {:induction false} NumberLengthAppend(s: string, rest: string)
    requires Separated(rest)
    ensures NumberLength(s + rest) == NumberLength(s)
  {
    hide DigitRun, FractionLength, ExponentLength;
    DigitRunAppend(s, rest);
    var whole := DigitRun(s);
    assert (s + rest)[whole..] == s[whole..] + rest;
    FractionLengthAppend(s[whole..], rest);
    var fraction := FractionLength(s[whole..]);
    assert (s + rest)[whole + fraction..] == s[whole + fraction..] + rest;
    ExponentLengthAppend(s[whole + fraction..], rest);
  }

  lemma {:induction false} NameRunAppend(s: string, rest: string)
    requires Separated(rest)
    ensures NameRun(s + rest) == NameRun(s)
  {
    var n, m := NameRun(s), NameRun(s + rest);
    assert forall i :: 0 <= i < |s| ==> (s + rest)[i] == s[i];
    assert rest != "" ==> (s + rest)[|s|] == rest[0];
  }

  lemma {:induction false} TokenLengthAppend(s: string, rest: string)
    requires s != "" && Separated(rest)
    ensures TokenLength(s + rest) == TokenLength(s)
  {
    hide NameRun, NumberLength;
    assert (s + rest)[0] == s[0];
    NumberLengthAppend(s, rest);
    NameRunAppend(s, rest);
  }

  lemma {:induction false} LexFromSpaced(tokens: seq<string>, before: seq<string>)
    requires AllTokens(tokens)
    requires |before| + |tokens| <= TOKEN_LIMIT
    ensures LexFrom(Spaced(tokens), before) == Some(before + tokens)
    decreases tokens
  {
    if tokens == [] {
      assert before + tokens == before;
    } else {
      hide TokenLength;
      var t, rest := tokens[0], " " + Spaced(tokens[1..]);
      var s := Spaced(tokens);
      assert s == t + rest;
      TokenLengthAppend(t, rest);
      TokenNotSpace(t);
      assert s[|t|..] == rest && s[..|t|] == t;
      assert rest[1..] == Spaced(tokens[1..]);
      assert before + [t] + tokens[1..] == before + tokens;
      LexFromSpaced(tokens[1..], before + [t]);
    }
  }

  lemma {:induction false} TokenNotSpace(t: string)
    requires IsToken(t)
    ensures !IsSpace(t[0])
  {
  }

  /** Any list of tokens, written with spaces between, is read back as that list. */
  lemma {:induction false} LexSpaced(tokens: seq<string>)
    requires AllTokens(tokens)
    requires |tokens| <= TOKEN_LIMIT
    ensures Lex(Spaced(tokens)) == Some(tokens)
  {
    LexFromSpaced(tokens, []);
    assert [] + tokens == tokens;
  }

  // ----- Soundness of the tokenizer --------------------------------------------------------

  lemma {:induction false} DigitRunPrefix(s: string, n: nat)
    requires n <= |s|
    ensures DigitRun(s[..n]) == if DigitRun(s) <= n then DigitRun(s) else n
  {
    var p := s[..n];
    var run := if DigitRun(s) <= n then DigitRun(s) else n;
    assert p == s[..run] + p[run..];
    DigitRunExact(s[..run], p[run..]);
  }

  lemma {:induction false} FractionLengthPrefix(s: string, n: nat)
    requires FractionLength(s) <= n <= |s|
    requires n == 0 || FractionLength(s) > 0 || s[0] != '.'
    ensures FractionLength(s[..n]) == FractionLength(s)
  {
    if n > 0 {
      assert s[..n][1..] == s[1..][..n - 1];
      DigitRunPrefix(s[1..], n - 1);
    }
  }

  lemma {:induction false} ExponentLengthPrefix(s: string)
    ensures ExponentLength(s[..ExponentLength(s)]) == ExponentLength(s)
  {
    var n := ExponentLength(s);
    if n > 0 {
      var p := s[..n];
      var sign := |SignPrefix(s[1..])|;
      assert p[1..][..1] == s[1..][..1];
      assert SignPrefix(p[1..]) == SignPrefix(s[1..]);
      assert p[1 + sign..] == s[1 + sign..][..n - 1 - sign];
      DigitRunPrefix(s[1 + sign..], n - 1 - sign);
    }
  }

  lemma {:induction false} ExponentStart(s: string)
    ensures ExponentLength(s) > 0 ==> s[0] != '.'
  {
    hide DigitRun, SignPrefix;
  }

  lemma {:induction false} NumberTailPrefix(s: string, fraction: nat, exponent: nat)
    requires fraction == FractionLength(s) && exponent == ExponentLength(s[fraction..])
    ensures fraction + exponent <= |s|
    ensures FractionLength(s[..fraction + exponent]) == fraction
    ensures ExponentLength(s[..fraction + exponent][fraction..]) == exponent
  {
    hide FractionLength, ExponentLength;
    if fraction == 0 {
      assert s[fraction..] == s;
      ExponentStart(s);
    }
    FractionLengthPrefix(s, fraction + exponent);
    ExponentLengthPrefix(s[fraction..]);
    assert s[..fraction + exponent][fraction..] == s[fraction..][..exponent];
  }

  lemma {:induction false} NumberLengthPrefix(s: string)
    ensures NumberLength(s[..NumberLength(s)]) == NumberLength(s)
  {
    hide DigitRun, FractionLength, ExponentLength;
    var n, whole := NumberLength(s), DigitRun(s);
    var p := s[..n];
    DigitRunPrefix(s, n);
    var fraction := FractionLength(s[whole..]);
    assert s[whole..][fraction..] == s[whole + fraction..];
    NumberTailPrefix(s[whole..], fraction, n - whole - fraction);
    assert p[whole..] == s[whole..][..n - whole];
    assert p[whole..][fraction..] == p[whole + fraction..];
  }

  lemma {:induction false} NameRunPrefix(s: string)
    ensures NameRun(s[..NameRun(s)]) == NameRun(s)
  {
  }

  /** What is cut off as a token is one whole token. */
  lemma {:induction false} TokenPrefix(s: string)
    requires TokenLength(s) > 0
    ensures IsToken(s[..TokenLength(s)])
  {
    hide NameRun, NumberLength;
    NumberLengthPrefix(s);
    NameRunPrefix(s);
  }

  lemma {:induction false} WithoutSpacesToken(t: string, rest: string)
    requires forall i :: 0 <= i < |t| ==> !IsSpace(t[i])
    ensures WithoutSpaces(t + rest) == t + WithoutSpaces(rest)
    decreases t
  {
    if t == "" {
      assert t + rest == rest;
    } else {
      WithoutSpacesToken(t[1..], rest);
      assert (t + rest)[1..] == t[1..] + rest;
      assert t == t[..1] + t[1..];
    }
  }

  /** A token is made of letters, digits, dots, underscores and operator characters. */
  lemma {:induction false} TokenChars(s: string)
    ensures forall i :: 0 <= i < TokenLength(s) ==> TokenChar(s[i])
  {
    if s != "" && IsDigit(s[0]) {
      NumberChars(s);
    }
  }

  lemma {:induction false} NumberChars(s: string)
    ensures forall i :: 0 <= i < NumberLength(s) ==> TokenChar(s[i])
  {
    hide DigitRun, SignPrefix;
    var whole := DigitRun(s);
    var fraction := FractionLength(s[whole..]);
    FractionChars(s[whole..]);
    ExponentChars(s[whole + fraction..]);
    forall i | 0 <= i < NumberLength(s)
      ensures TokenChar(s[i])
    {
      hide FractionLength, ExponentLength, IsNameChar, IsOperatorChar, TokenChar;
      if i < whole {
        DigitIsTokenChar(s[i]);
      } else if whole <= i < whole + fraction {
        assert s[i] == s[whole..][i - whole];
      } else if whole + fraction <= i {
        assert s[i] == s[whole + fraction..][i - whole - fraction];
      }
    }
  }

  lemma {:induction false} DigitIsTokenChar(c: char)
    requires IsDigit(c)
    ensures TokenChar(c)
  {
  }

  lemma {:induction false} FractionChars(s: string)
    ensures forall i :: 0 <= i < FractionLength(s) ==> TokenChar(s[i])
  {
    forall i | 0 <= i < FractionLength(s)
      ensures TokenChar(s[i])
    {
      if i > 0 {
        assert s[i] == s[1..][i - 1];
      }
    }
  }

  lemma {:induction false} ExponentChars(s: string)
    ensures forall i :: 0 <= i < ExponentLength(s) ==> TokenChar(s[i])
  {
    if ExponentLength(s) > 0 {
      var sign := |SignPrefix(s[1..])|;
      forall i | 0 <= i < ExponentLength(s)
        ensures TokenChar(s[i])
      {
        if i > sign {
          assert s[i] == s[1 + sign..][i - 1 - sign];
        } else if i > 0 {
          assert s[i] == s[1..][i - 1];
        }
      }
    }
  }

  lemma {:induction false} FlattenAppend(tokens: seq<string>, t: string)
    ensures Flatten(tokens + [t]) == Flatten(tokens) + t
  {
    if tokens == [] {
      assert Flatten([t]) == t + Flatten([]);
    } else {
      FlattenAppend(tokens[1..], t);
      assert (tokens + [t])[1..] == tokens[1..] + [t];
    }
  }

  lemma {:induction false} TokenStep(s: string, tokens: seq<string>, n: nat)
    requires n == TokenLength(s)
    ensures Flatten(tokens + [s[..n]]) + WithoutSpaces(s[n..]) == Flatten(tokens) + WithoutSpaces(s)
  {
    hide TokenLength, Flatten, WithoutSpaces;
    FlattenAppend(tokens, s[..n]);
    TokenChars(s);
    WithoutSpacesToken(s[..n], s[n..]);
    assert s == s[..n] + s[n..];
  }

  lemma {:induction false} SpaceStep(s: string)
    requires s != "" && IsSpace(s[0])
    ensures WithoutSpaces(s) == WithoutSpaces(s[1..])
  {
  }

  lemma {:induction false} AllTokensAppend(tokens: seq<string>, s: string)
    requires AllTokens(tokens) && TokenLength(s) > 0
    ensures AllTokens(tokens + [s[..TokenLength(s)]])
  {
    TokenPrefix(s);
  }

  /** Nothing but white space is lost, every token is whole, and the token limit holds. */
  lemma {:induction false} LexFromKeepsText(s: string, tokens: seq<string>, result: seq<string>)
    requires LexFrom(s, tokens) == Some(result)
    requires AllTokens(tokens)
    ensures Flatten(result) == Flatten(tokens) + WithoutSpaces(s)
    ensures |tokens| <= TOKEN_LIMIT ==> |result| <= TOKEN_LIMIT
    ensures AllTokens(result)
    decreases |s|
  {
    if s == "" {
      assert Flatten(tokens) + "" == Flatten(tokens);
    } else {
      hide AllTokens, Flatten, TokenLength, WithoutSpaces;
      if IsSpace(s[0]) {
        SpaceStep(s);
        LexFromKeepsText(s[1..], tokens, result);
      } else {
        AllTokensAppend(tokens, s);
        TokenStep(s, tokens, TokenLength(s));
        LexFromKeepsText(s[TokenLength(s)..], tokens + [s[..TokenLength(s)]], result);
      }
    }
  }

  /** The accepted tokens are the text with white space removed: whole tokens, at most 128 of them. */
  lemma {:induction false} LexKeepsText(s: string, tokens: seq<string>)
    requires Lex(s) == Some(tokens)
    ensures Flatten(tokens) == WithoutSpaces(s) && |tokens| <= TOKEN_LIMIT
    ensures AllTokens(tokens)
    ensures Lex(Spaced(tokens)) == Some(tokens)
  {
    hide TokenLength, LexFrom, IsToken;
    LexFromKeepsText(s, [], tokens);
    LexSpaced(tokens);
    assert "" + WithoutSpaces(s) == WithoutSpaces(s);
    assert Flatten([]) == "";
  }
}
