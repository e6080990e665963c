/**
 The lexical depth check before a native parse (rich-content.validation.ts): a scanner of brackets
 outside quoted text, run on the text alone.
 */
module JsonDepth {
  import opened JsonText
  import opened JsonInspection

  datatype Scanner = Scanner(quoted: bool, escaped: bool, depth: int)

  const START := Scanner(false, false, -1)

  /** One unit of text; a unit of a surrogate pair is never one of the characters looked for. */
  function Advance(s: Scanner, u: Unit): Scanner {
    if s.quoted then
      if s.escaped then s.(escaped := false)
      else if u == BACKSLASH then s.(escaped := true)
      else s.(quoted := u != QUOTE)
    else if u == QUOTE then s.(quoted := true)
    else if u == 123 || u == 91 then s.(depth := s.depth + 1)
    else if u == 125 || u == 93 then s.(depth := s.depth - 1)
    else s
  }

  predicate TooDeep(s: Scanner) {
    s.depth > MAX_NESTING_DEPTH
  }

  /** The state after the text, or none when a bracket opens too deep. */
  datatype Scan = Within(state: Scanner) | Refused

  function ScanText(s: Scanner, t: Text): Scan
    decreases t
  {
    if t == [] then Within(s)
    else if TooDeep(Advance(s, t[0])) then Refused
    else ScanText(Advance(s, t[0]), t[1..])
  }

  /** The loop of the source: the three variables, updated unit by unit. */
  method CheckDepth(t: Text) returns (r: Scan)
    ensures r == ScanText(START, t)
  {
    var quoted, escaped, depth := false, false, -1;
    for i := 0 to |t|
      invariant depth <= MAX_NESTING_DEPTH
      invariant ScanText(START, t) == ScanText(Scanner(quoted, escaped, depth), t[i..])
    {
      var u := t[i];
      assert t[i..][1..] == t[i + 1..];
      if quoted {
        if escaped {
          escaped := false;
        } else if u == BACKSLASH {
          escaped := true;
        } else if u == QUOTE {
          quoted := false;
        }
      } else if u == QUOTE {
        quoted := true;
      } else if u == 123 || u == 91 {
        depth := depth + 1;
        if depth > MAX_NESTING_DEPTH {
          return Refused;
        }
      } else if u == 125 || u == 93 {
        depth := depth - 1;
      }
    }
    return Within(Scanner(quoted, escaped, depth));
  }

  lemma {:induction false} ScanAppend(s: Scanner, a: Text, b: Text)
    ensures ScanText(s, a + b) == if ScanText(s, a).Refused? then Refused else ScanText(ScanText(s, a).state, b)
    decreases a
  {
    if a == [] {
      assert a + b == b;
    } else {
      hide Advance;
      ScanAppend(Advance(s, a[0]), a[1..], b);
      assert (a + b)[1..] == a[1..] + b;
    }
  }

  // ----- Quoted text is no structure -------------------------------------------------------

  predicate Outside(s: Scanner) {
    !s.quoted && !s.escaped && !TooDeep(s)
  }

  function Inside(s: Scanner): Scanner {
    s.(quoted := true)
  }

  lemma {:induction false} ScanPlain(s: Scanner, u: Unit)
    requires Outside(s) && u != QUOTE && u != BACKSLASH
    ensures ScanText(Inside(s), [u]) == Within(Inside(s))
  {
    assert [u][1..] == [];
  }

  lemma {:induction false} ScanEscaped(s: Scanner, u: Unit)
    requires Outside(s)
    ensures ScanText(Inside(s), [BACKSLASH, u]) == Within(Inside(s))
  {
    assert [BACKSLASH, u][1..] == [u];
    ScanOne(Inside(s).(escaped := true), u);
  }

  lemma {:induction false} ScanPlains(s: Scanner, t: Text)
    requires Outside(s) && forall i :: 0 <= i < |t| ==> t[i] != QUOTE && t[i] != BACKSLASH
    ensures ScanText(Inside(s), t) == Within(Inside(s))
    decreases t
  {
    if t != [] {
      ScanPlains(s, t[1..]);
    }
  }

  lemma {:induction false} ScanUnit(s: Scanner, u: Unit)
    requires Outside(s)
    ensures ScanText(Inside(s), EscapeUnit(u)) == Within(Inside(s))
  {
    if ShortEscape(u) != 0 {
      ScanEscaped(s, ShortEscape(u));
    } else if NeedsHex(u) {
      ScanEscaped(s, 117);
      ScanPlains(s, Hex4(u));
      ScanAppend(Inside(s), [BACKSLASH, 117], Hex4(u));
    } else {
      ScanPlain(s, u);
    }
  }

  lemma {:induction false} ScanEscapes(s: Scanner, t: Text)
    requires Outside(s)
    ensures ScanText(Inside(s), Escape(t)) == Within(Inside(s))
    decreases t
  {
    if t != [] {
      hide ScanText, EscapeUnit;
      if Paired(t) {
        ScanPlains(s, t[..2]);
        ScanEscapes(s, t[2..]);
        ScanAppend(Inside(s), t[..2], Escape(t[2..]));
      } else {
        ScanUnit(s, t[0]);
        ScanEscapes(s, t[1..]);
        ScanAppend(Inside(s), EscapeUnit(t[0]), Escape(t[1..]));
      }
    } else {
      assert Escape(t) == [];
    }
  }

  /** Whatever a string holds, its quoted form leaves the scanner where it was. */
  lemma {:induction false} ScanQuote(s: Scanner, t: Text)
    requires Outside(s)
    ensures ScanText(s, Quote(t)) == Within(s)
  {
    hide Escape;
    ScanEscapes(s, t);
    ScanOne(s, QUOTE);
    ScanOne(Inside(s), QUOTE);
    hide ScanText, Advance;
    ScanAppend(s, [QUOTE], Escape(t));
    ScanAppend(s, [QUOTE] + Escape(t), [QUOTE]);
  }

  lemma {:induction false} ScanOne(s: Scanner, u: Unit)
    requires !TooDeep(s)
    ensures ScanText(s, [u]) == if TooDeep(Advance(s, u)) then Refused else Within(Advance(s, u))
  {
    assert [u][1..] == [];
  }

  // ----- Compact text ----------------------------------------------------------------------

  function Max(a: nat, b: nat): nat {
    if a >= b then a else b
  }

  /** How many arrays and objects are nested in each other. */
  function Height(v: Json): nat
    decreases v, Width(v) + 1
  {
    if v.Array? || v.Object? then 1 + PartsHeight(v, 0) else 0
  }

  function PartHeight(v: Json, i: nat): nat
    requires i < Width(v)
    decreases v, 0
  {
    if v.Array? then Height(v.items[i]) else Height(v.members[i].value)
  }

  function PartsHeight(v: Json, i: nat): nat
    requires i <= Width(v)
    decreases v, Width(v) - i
  {
    if i == Width(v) then 0 else Max(PartHeight(v, i), PartsHeight(v, i + 1))
  }

  /** What scanning text of that height gives from outside of any string. */
  function Outcome(s: Scanner, height: nat): Scan {
    if s.depth + height > MAX_NESTING_DEPTH then Refused else Within(s)
  }

  lemma {:induction false} ScanSymbols(s: Scanner, t: Text)
    requires Outside(s)
    requires forall i :: 0 <= i < |t| ==> t[i] != QUOTE && t[i] != 123 && t[i] != 91 && t[i] != 125 && t[i] != 93
    ensures ScanText(s, t) == Within(s)
    decreases t
  {
    if t != [] {
      ScanSymbols(s, t[1..]);
    }
  }

  lemma {:induction false} ScanPart(s: Scanner, v: Json, i: nat)
    requires Outside(s) && i < Width(v)
    ensures ScanText(s, PartText(v, i)) == Outcome(s, PartHeight(v, i))
    decreases v, 0
  {
    hide ScanText, Outside;
    if v.Array? {
      ScanValue(s, v.items[i]);
    } else {
      var m := v.members[i];
      ScanValue(s, m.value);
      hide Stringify, Height, Quote;
      ScanQuote(s, m.key);
      ScanColon(s);
      ScanAppend(s, Quote(m.key), [COLON]);
      ScanAppend(s, Quote(m.key) + [COLON], Stringify(m.value));
    }
  }

  lemma {:induction false} ScanColon(s: Scanner)
    requires Outside(s)
    ensures ScanText(s, [COLON]) == Within(s)
  {
    ScanOne(s, COLON);
  }

  lemma {:induction false} ScanParts(s: Scanner, v: Json, i: nat)
    requires Outside(s) && i <= Width(v)
    ensures ScanText(s, PartsText(v, i)) == Outcome(s, PartsHeight(v, i))
    decreases v, Width(v) - i + 1
  {
    if i == Width(v) {
      assert PartsText(v, i) == [];
    } else {
      ScanPart(s, v, i);
      ScanParts(s, v, i + 1);
      ScanSymbols(s, Separator(i));
      hide ScanText, PartText, PartHeight, Separator;
      ScanAppend(s, Separator(i), PartText(v, i));
      ScanAppend(s, Separator(i) + PartText(v, i), PartsText(v, i + 1));
    }
  }

  /** The scanner passes compact text exactly up to the nesting limit, and ends as it began. */
  lemma {:induction false} ScanValue(s: Scanner, v: Json)
    requires Outside(s)
    ensures ScanText(s, Stringify(v)) == Outcome(s, Height(v))
    decreases v, Width(v) + 3
  {
    match v
    case Array(_) =>
      ScanContainer(s, v, 91, 93);
    case Object(_) =>
      ScanContainer(s, v, 123, 125);
    case String(t) =>
      hide Quote;
      ScanQuote(s, t);
    case Number(n) =>
      NumberSymbols(n);
      hide NumberText;
      ScanSymbols(s, NumberText(n));
    case _ =>
      ScanSymbols(s, Stringify(v));
  }

  lemma {:induction false} NumberSymbols(n: int)
    ensures forall i :: 0 <= i < |NumberText(n)| ==> NumberText(n)[i] == MINUS || 48 <= NumberText(n)[i] <= 57
  {
  }

  lemma {:induction false} ScanContainer(s: Scanner, v: Json, open: Unit, close: Unit)
    requires Outside(s) && (v.Array? || v.Object?)
    requires (open == 91 && close == 93) || (open == 123 && close == 125)
    ensures ScanText(s, [open] + PartsText(v, 0) + [close]) == Outcome(s, Height(v))
    decreases v, Width(v) + 2
  {
    var deeper := s.(depth := s.depth + 1);
    ScanOne(s, open);
    if !TooDeep(deeper) {
      ScanOne(deeper, close);
      ScanParts(deeper, v, 0);
    }
    hide ScanText, PartsText, PartsHeight;
    ScanAppend(s, [open], PartsText(v, 0));
    ScanAppend(s, [open] + PartsText(v, 0), [close]);
  }

  /** The text of accepted data is within the depth limit, and ends outside of every bracket and string. */
  lemma {:induction false} AcceptedTextScans(v: Json)
    requires Accepted(v)
    ensures ScanText(START, Stringify(v)) == Within(START)
  {
    hide LoadOf, Stringify;
    ScanValue(START, v);
    AcceptedHeight(v, 0);
  }

  /** Data without a fault has no container below the depth limit. */
  lemma {:induction false} AcceptedHeight(v: Json, depth: nat)
    requires LoadOf(v, depth).faults == 0
    ensures depth + Height(v) <= MAX_NESTING_DEPTH + 1
    decreases v, Width(v) + 2
  {
    hide PartsHeight, PartsLoad, LoadOf, OwnLoad;
    NotDeep(v, depth);
    OwnPart(v, depth);
    PartsWithin(v, 0, depth);
    if Width(v) == 0 {
      NoHeight(v);
    }
  }

  lemma {:induction false} NotDeep(v: Json, depth: nat)
    requires LoadOf(v, depth).faults == 0
    ensures depth <= MAX_NESTING_DEPTH
  {
    hide LoadOf;
    if depth > MAX_NESTING_DEPTH {
      DeepFaults(v, depth);
    }
  }

  lemma {:induction false} NoHeight(v: Json)
    requires Width(v) == 0
    ensures Height(v) <= 1
  {
  }

  lemma {:induction false} PartFaults(v: Json, i: nat, depth: nat)
    requires i < Width(v) && PartLoad(v, i, depth).faults == 0
    ensures v.Array? ==> LoadOf(v.items[i], depth + 1).faults == 0
    ensures v.Object? ==> LoadOf(v.members[i].value, depth + 1).faults == 0
  {
    hide LoadOf, TextBytes, Forbidden;
  }

  lemma {:induction false} PartWithin(v: Json, i: nat, depth: nat)
    requires i < Width(v) && PartLoad(v, i, depth).faults == 0
    ensures depth + 1 + PartHeight(v, i) <= MAX_NESTING_DEPTH + 1
    decreases v, 0
  {
    PartFaults(v, i, depth);
    hide LoadOf, PartLoad;
    if v.Array? {
      AcceptedHeight(v.items[i], depth + 1);
    } else {
      AcceptedHeight(v.members[i].value, depth + 1);
    }
  }

  lemma {:induction false} PartsWithin(v: Json, i: nat, depth: nat)
    requires i <= Width(v) && PartsLoad(v, i, depth).faults == 0
    ensures i < Width(v) ==> depth + 1 + PartsHeight(v, i) <= MAX_NESTING_DEPTH + 1
    decreases v, Width(v) - i + 1
  {
    if i < Width(v) {
      hide PartLoad, PartHeight, Separator, PartsLoad, PartsHeight;
      PartsStep(v, i, depth);
      HeightStep(v, i);
      PartWithin(v, i, depth);
      PartsWithin(v, i + 1, depth);
      LastHeight(v);
    }
  }

  lemma {:induction false} HeightStep(v: Json, i: nat)
    requires i < Width(v)
    ensures PartsHeight(v, i) == Max(PartHeight(v, i), PartsHeight(v, i + 1))
  {
  }

  lemma {:induction false} LastHeight(v: Json)
    ensures PartsHeight(v, Width(v)) == 0
  {
  }
}
