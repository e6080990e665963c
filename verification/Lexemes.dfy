/**
 The token patterns on their own: numbers, names and marks. The tokenizer cuts off the longest
 lexeme each time, so it accepts exactly the texts that split this way into at most 128 lexemes.
 */
module Lexemes {
  import opened Wrappers
  import opened Digits
  import opened ExactDecimal
  import opened Expression
  import opened Lexer

  /** Digits, perhaps a point and digits, perhaps an exponent: a numeral without a sign in front. */
  ghost predicate IsNumber(t: string) {
    exists g: Groups :: IsGroups(g) && g.sign == "" && t == Render(g)
  }

  predicate IsMark(t: string) {
    t in {"(", ")", "+", "-", "*", "/", "^"}
  }

  ghost predicate IsLexeme(t: string) {
    IsNumber(t) || IsIdentifier(t) || IsMark(t)
  }

  /** `t` starts `s` and no longer start of `s` is a lexeme. */
  ghost predicate LongestLexeme(s: string, t: string) {
    t <= s && IsLexeme(t) && forall n | |t| < n <= |s| :: !IsLexeme(s[..n])
  }

  /** `s` is the lexemes `tokens` in order, each as long as possible, with white space between or not. */
  ghost predicate Splits(s: string, tokens: seq<string>)
    decreases |s|, |tokens|
  {
    if s == "" then tokens == []
    else if s[0] in {' ', '\t', '\r', '\n'} then Splits(s[1..], tokens)
    else
      && tokens != [] && tokens[0] != "" && LongestLexeme(s, tokens[0])
      && Splits(s[|tokens[0]|..], tokens[1..])
  }

  // ----- Numbers ---------------------------------------------------------------------------

  lemma {:induction false} NumberStart(t: string)
    requires IsNumber(t)
    ensures t != "" && IsDigit(t[0])
  {
    var g: Groups :| IsGroups(g) && g.sign == "" && t == Render(g);
    assert t[0] == g.whole[0];
  }

  lemma {:induction false} FractionText(s: string) returns (fraction: string)
    ensures AllDigits(fraction) && s[..FractionLength(s)] == RenderFraction(fraction)
  {
    hide DigitRun;
    fraction := if FractionLength(s) == 0 then "" else s[1..][..DigitRun(s[1..])];
    assert FractionLength(s) > 0 ==> s[..FractionLength(s)] == "." + fraction;
  }

  lemma {:induction false} ExponentText(s: string) returns (marker: string, sign: string, digits: string)
    ensures IsExponent(marker, sign, digits) && AllDigits(digits)
    ensures s[..ExponentLength(s)] == marker + (sign + digits)
  {
    hide DigitRun;
    if ExponentLength(s) == 0 {
      marker, sign, digits := "", "", "";
    } else {
      marker, sign := s[..1], SignPrefix(s[1..]);
      var n := DigitRun(s[1 + |sign|..]);
      digits := s[1 + |sign|..][..n];
      assert s[1..][..|sign|] == sign;
      assert s[..1 + |sign| + n] == marker + (sign + digits);
    }
  }

  /** What is cut off a text that starts with a digit is a number. */
  lemma {:induction false} CutIsNumber(s: string)
    requires s != "" && IsDigit(s[0])
    ensures IsNumber(s[..NumberLength(s)])
  {
    hide DigitRun, FractionLength, ExponentLength, RenderFraction, IsExponent;
    var w := DigitRun(s);
    var f := FractionLength(s[w..]);
    var e := ExponentLength(s[w + f..]);
    var fraction := FractionText(s[w..]);
    var marker, sign, digits := ExponentText(s[w + f..]);
    var g := Groups("", s[..w], fraction, marker, sign, digits);
    assert s[..w + f + e] == s[..w] + (s[w..][..f] + s[w + f..][..e]);
    assert s[..NumberLength(s)] == Render(g);
    assert w > 0;
    assert IsGroups(g);
  }

  lemma {:induction false} DigitRunAtLeast(d: string, rest: string)
    requires AllDigits(d)
    ensures DigitRun(d + rest) >= |d|
  {
    hide DigitRun;
    assert forall i :: 0 <= i < |d| ==> (d + rest)[i] == d[i];
  }

  lemma {:induction false} ExponentAtLeast(marker: string, sign: string, digits: string, rest: string)
    requires IsExponent(marker, sign, digits) && marker != ""
    ensures ExponentLength((marker + (sign + digits)) + rest) >= |marker + (sign + digits)|
  {
    hide DigitRun;
    var s := (marker + (sign + digits)) + rest;
    assert s[1..] == sign + (digits + rest);
    assert SignPrefix(s[1..]) == sign by { assert s[1..][..|sign|] == sign; }
    assert s[1 + |sign|..] == digits + rest;
    DigitRunAtLeast(digits, rest);
  }

  lemma {:induction false} FractionAtLeast(fraction: string, rest: string)
    requires AllDigits(fraction) && fraction != ""
    ensures FractionLength(RenderFraction(fraction) + rest) >= |RenderFraction(fraction)|
  {
    hide DigitRun;
    assert (RenderFraction(fraction) + rest)[1..] == fraction + rest;
    DigitRunAtLeast(fraction, rest);
  }

  lemma {:induction false} FractionExactly(fraction: string, rest: string)
    requires AllDigits(fraction) && rest != "" && (rest[0] == 'e' || rest[0] == 'E')
    ensures FractionLength(RenderFraction(fraction) + rest) == |RenderFraction(fraction)|
  {
    hide DigitRun;
    if fraction != "" {
      assert (RenderFraction(fraction) + rest)[1..] == fraction + rest;
      DigitRunExact(fraction, rest);
    } else {
      assert RenderFraction(fraction) + rest == rest;
    }
  }

  lemma {:induction false} TailStart(g: Groups, rest: string)
    requires IsGroups(g)
    ensures var exponent := g.marker + (g.exponentSign + g.exponentDigits);
            var tail := RenderFraction(g.fraction) + (exponent + rest);
            && (g.fraction != "" || exponent != "" ==> tail != "" && !IsDigit(tail[0]))
            && (exponent != "" ==> g.marker != "" && (exponent[0] == 'e' || exponent[0] == 'E'))
  {
  }

  /** The fraction and the exponent of a number are not cut short. */
  lemma {:induction false} TailAtLeast(g: Groups, rest: string)
    requires IsGroups(g)
    ensures var exponent := g.marker + (g.exponentSign + g.exponentDigits);
            var tail := RenderFraction(g.fraction) + (exponent + rest);
            FractionLength(tail) + ExponentLength(tail[FractionLength(tail)..]) >= |RenderFraction(g.fraction)| + |exponent|
  {
    hide DigitRun, FractionLength, ExponentLength, AllDigits, RenderFraction;
    var fraction := RenderFraction(g.fraction);
    var exponent := g.marker + (g.exponentSign + g.exponentDigits);
    var tail := fraction + (exponent + rest);
    TailStart(g, rest);
    if exponent != "" {
      FractionExactly(g.fraction, exponent + rest);
      assert tail[|fraction|..] == exponent + rest;
      ExponentAtLeast(g.marker, g.exponentSign, g.exponentDigits, rest);
    } else if g.fraction != "" {
      assert tail == fraction + rest;
      FractionAtLeast(g.fraction, rest);
    } else {
      assert fraction == "" by { NoFraction(); }
    }
  }

  lemma NoFraction()
    ensures RenderFraction("") == ""
  {
  }

  /** A number at the start of a text is never cut short. */
  lemma {:induction false} NumberAtLeast(g: Groups, rest: string)
    requires IsGroups(g) && g.sign == ""
    ensures NumberLength(Render(g) + rest) >= |Render(g)|
  {
    hide DigitRun, FractionLength, ExponentLength, AllDigits;
    var exponent := g.marker + (g.exponentSign + g.exponentDigits);
    var s := Render(g) + rest;
    var tail := RenderFraction(g.fraction) + (exponent + rest);
    assert s == g.whole + tail;
    if g.fraction == "" && exponent == "" {
      DigitRunAtLeast(g.whole, tail);
    } else {
      TailStart(g, rest);
      TailAtLeast(g, rest);
      DigitRunExact(g.whole, tail);
      assert s[|g.whole|..] == tail;
      assert s[|g.whole| + FractionLength(tail)..] == tail[FractionLength(tail)..];
    }
  }

  // ----- Tokens ----------------------------------------------------------------------------

  lemma {:induction false} NameAtLeast(s: string, n: nat)
    requires n <= |s| && IsIdentifier(s[..n])
    ensures NameRun(s) >= n
  {
    hide NameRun;
    assert forall i :: 0 <= i < n ==> s[..n][i] == s[i];
  }

  lemma {:induction false} CutIsName(s: string)
    requires s != "" && IsLetter(s[0])
    ensures NameRun(s) > 0 && IsIdentifier(s[..NameRun(s)])
  {
  }

  /** What starts a lexeme tells its kind. */
  lemma {:induction false} KindByStart(t: string)
    requires IsLexeme(t)
    ensures t != ""
    ensures IsDigit(t[0]) ==> IsNumber(t)
    ensures IsLetter(t[0]) ==> IsIdentifier(t)
    ensures IsOperatorChar(t[0]) ==> |t| == 1
    ensures IsDigit(t[0]) || IsLetter(t[0]) || IsOperatorChar(t[0])
  {
    hide IsNumber;
    if IsNumber(t) {
      NumberStart(t);
    }
  }

  lemma {:induction false} LongerIsNoLexeme(s: string, n: nat)
    requires TokenLength(s) < n <= |s|
    ensures !IsLexeme(s[..n])
  {
    hide NumberLength, NameRun, IsNumber;
    if IsLexeme(s[..n]) {
      KindByStart(s[..n]);
      if IsDigit(s[0]) {
        NumberNotCut(s, n);
      } else if IsLetter(s[0]) {
        NameAtLeast(s, n);
      }
    }
  }

  lemma {:induction false} NumberNotCut(s: string, n: nat)
    requires n <= |s| && IsNumber(s[..n])
    ensures NumberLength(s) >= n
  {
    hide NumberLength, Render;
    var g: Groups :| IsGroups(g) && g.sign == "" && s[..n] == Render(g);
    NumberAtLeast(g, s[n..]);
    assert s == s[..n] + s[n..];
  }

  /** The tokenizer's step takes the longest lexeme, and fails only when no start of the text is one. */
  lemma {:induction false} TokenIsLongest(s: string)
    ensures TokenLength(s) > 0 ==> LongestLexeme(s, s[..TokenLength(s)])
    ensures TokenLength(s) == 0 ==> forall n | 0 <= n <= |s| :: !IsLexeme(s[..n])
  {
    hide IsLexeme, TokenLength;
    forall n | TokenLength(s) < n <= |s|
      ensures !IsLexeme(s[..n])
    {
      LongerIsNoLexeme(s, n);
    }
    EmptyIsNoLexeme();
    assert s[..0] == "";
    if TokenLength(s) > 0 {
      CutIsLexeme(s);
    }
  }

  lemma EmptyIsNoLexeme()
    ensures !IsLexeme("")
  {
    if IsLexeme("") {
      KindByStart("");
    }
  }

  lemma {:induction false} CutIsLexeme(s: string)
    requires TokenLength(s) > 0
    ensures IsLexeme(s[..TokenLength(s)])
  {
    hide NumberLength, NameRun, IsNumber;
    if IsDigit(s[0]) {
      CutIsNumber(s);
    } else if IsLetter(s[0]) {
      CutIsName(s);
    } else {
      assert s[..1] == [s[0]];
    }
  }

  lemma {:induction false} LongestUnique(s: string, t: string)
    ensures t != "" && LongestLexeme(s, t) <==> TokenLength(s) > 0 && t == s[..TokenLength(s)]
  {
    hide IsLexeme, TokenLength;
    TokenIsLongest(s);
    if t != "" && LongestLexeme(s, t) {
      assert t == s[..|t|];
      if TokenLength(s) > 0 {
        assert !(|t| < TokenLength(s));
      }
    }
  }

  lemma {:induction false} LexFromIff(s: string, before: seq<string>, tokens: seq<string>)
    requires |before| <= TOKEN_LIMIT
    ensures LexFrom(s, before) == Some(before + tokens) <==> Splits(s, tokens) && |before + tokens| <= TOKEN_LIMIT
    decreases |s|, 1
  {
    hide TokenLength, LongestLexeme;
    if s == "" {
      assert LexFrom(s, before) == Some(before + []) by { assert before + [] == before; }
      assert before + tokens == before + [] <==> tokens == [] by { Same(before, tokens); }
    } else if IsSpace(s[0]) {
      LexFromIff(s[1..], before, tokens);
    } else {
      LexTokenIff(s, before, tokens);
    }
  }

  lemma {:induction false} Same(before: seq<string>, tokens: seq<string>)
    ensures before + tokens == before + [] <==> tokens == []
  {
    assert |before + tokens| == |before| + |tokens|;
  }

  lemma {:induction false} LexTokenIff(s: string, before: seq<string>, tokens: seq<string>)
    requires |before| <= TOKEN_LIMIT && s != "" && !IsSpace(s[0])
    ensures LexFrom(s, before) == Some(before + tokens) <==> Splits(s, tokens) && |before + tokens| <= TOKEN_LIMIT
    decreases |s|, 0
  {
    hide TokenLength, LongestLexeme;
    var n := TokenLength(s);
    if tokens == [] {
      LexFromGrows(s, before);
      assert before + tokens == before;
    } else {
      LongestUnique(s, tokens[0]);
      var rest := tokens[1..];
      assert before + tokens == before + [tokens[0]] + rest;
      if n > 0 && |before| < TOKEN_LIMIT {
        if tokens[0] == s[..n] {
          LexFromIff(s[n..], before + [tokens[0]], rest);
        } else {
          LexFromKeeps(s[n..], before + [s[..n]]);
          assert (before + tokens)[|before|] == tokens[0];
        }
      }
    }
  }

  /** The tokens already read stay in front. */
  lemma {:induction false} LexFromKeeps(s: string, before: seq<string>)
    ensures LexFrom(s, before).Some? ==> before <= LexFrom(s, before).value
    decreases |s|
  {
    hide TokenLength;
    if s != "" {
      if IsSpace(s[0]) {
        LexFromKeeps(s[1..], before);
      } else if TokenLength(s) > 0 {
        LexFromKeeps(s[TokenLength(s)..], before + [s[..TokenLength(s)]]);
      }
    }
  }

  lemma {:induction false} LexFromGrows(s: string, before: seq<string>)
    requires s != "" && !IsSpace(s[0])
    ensures LexFrom(s, before) != Some(before)
  {
    hide TokenLength;
    var n := TokenLength(s);
    if n > 0 {
      LexFromKeeps(s[n..], before + [s[..n]]);
    }
  }

  /** The tokenizer accepts exactly the texts that split into at most 128 longest lexemes, and returns them. */
  lemma {:induction false} LexIff(s: string, tokens: seq<string>)
    ensures Lex(s) == Some(tokens) <==> Splits(s, tokens) && |tokens| <= TOKEN_LIMIT
  {
    hide LexFrom, Splits;
    LexFromIff(s, [], tokens);
    assert [] + tokens == tokens;
  }
}
