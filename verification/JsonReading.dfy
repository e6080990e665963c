/**
 Reading compact JSON text back. The original parses with the platform's JSON.parse, which is not
 modelled; this reader shows that compact text determines the value it was written from.
 */
module JsonReading {
  import opened Digits
  import opened JsonText
  import opened Wrappers

  // ----- Strings ---------------------------------------------------------------------------

  function FromHexDigit(u: Unit): nat {
    if 48 <= u <= 57 then u - 48 else if 97 <= u <= 102 then u - 87 else 0
  }

  function FromHex4(t: Text): Unit
    requires |t| == 4
  {
    FromHexDigit(t[0]) * 4096 + FromHexDigit(t[1]) * 256 + FromHexDigit(t[2]) * 16 + FromHexDigit(t[3])
  }

  /** The unit a two-character escape stands for. */
  function FromShort(u: Unit): Unit {
    if u == 98 then 8
    else if u == 116 then 9
    else if u == 110 then 10
    else if u == 102 then 12
    else if u == 114 then 13
    else u
  }

  /** The string up to its closing quote, and the text after it. */
  function ReadString(t: Text): (r: Option<(Text, Text)>)
    ensures r.Some? ==> |r.value.1| < |t|
    decreases t
  {
    if t == [] then None
    else if t[0] == QUOTE then Some(([], t[1..]))
    else
      var (unit, used) :=
        if t[0] != BACKSLASH then (t[0], 1)
        else if |t| >= 2 && t[1] != 117 then (FromShort(t[1]), 2)
        else if |t| >= 6 then (FromHex4(t[2..6]), 6)
        else (t[0], |t|);
      var rest :- ReadString(t[used..]);
      Some(([unit] + rest.0, rest.1))
  }

  lemma {:induction false} HexDigitRoundTrip(d: int)
    requires 0 <= d < 16
    ensures FromHexDigit(HexDigit(d)) == d
  {
  }

  lemma {:induction false} HexRoundTrip(u: Unit)
    ensures FromHex4(Hex4(u)) == u
  {
    var a, b, c, d := u / 4096, u / 256 % 16, u / 16 % 16, u % 16;
    HexDigitRoundTrip(a);
    HexDigitRoundTrip(b);
    HexDigitRoundTrip(c);
    HexDigitRoundTrip(d);
    hide HexDigit, FromHexDigit;
    HexParts(u);
  }

  lemma {:induction false} HexParts(u: int)
    requires 0 <= u < 0x10000
    ensures u == (u / 4096) * 4096 + (u / 256 % 16) * 256 + (u / 16 % 16) * 16 + u % 16
  {
    assert u / 16 / 16 == u / 256;
    assert u / 256 / 16 == u / 4096;
  }

  lemma {:induction false} ReadPlain(u: Unit, t: Text)
    requires u != QUOTE && u != BACKSLASH && ReadString(t).Some?
    ensures ReadString([u] + t) == Some(([u] + ReadString(t).value.0, ReadString(t).value.1))
  {
    assert ([u] + t)[1..] == t;
  }

  lemma {:induction false} ShortRoundTrip(u: Unit)
    requires ShortEscape(u) != 0
    ensures ShortEscape(u) != 117 && FromShort(ShortEscape(u)) == u
  {
  }

  lemma {:induction false} ReadShort(u: Unit, t: Text)
    requires ShortEscape(u) != 0 && ReadString(t).Some?
    ensures ReadString([BACKSLASH, ShortEscape(u)] + t) == Some(([u] + ReadString(t).value.0, ReadString(t).value.1))
  {
    ShortRoundTrip(u);
    hide ShortEscape, FromShort;
    assert ([BACKSLASH, ShortEscape(u)] + t)[2..] == t;
  }

  lemma {:induction false} ReadHex(u: Unit, t: Text)
    requires ReadString(t).Some?
    ensures ReadString([BACKSLASH, 117] + Hex4(u) + t) == Some(([u] + ReadString(t).value.0, ReadString(t).value.1))
  {
    var all := [BACKSLASH, 117] + Hex4(u) + t;
    assert all[6..] == t;
    assert all[2..6] == Hex4(u);
    HexRoundTrip(u);
    hide Hex4, FromHex4;
  }

  lemma {:induction false} ReadUnit(u: Unit, t: Text)
    requires ReadString(t).Some?
    ensures ReadString(EscapeUnit(u) + t) == Some(([u] + ReadString(t).value.0, ReadString(t).value.1))
  {
    hide ReadString, Hex4;
    if ShortEscape(u) != 0 {
      ReadShort(u, t);
    } else if NeedsHex(u) {
      ReadHex(u, t);
    } else {
      ReadPlain(u, t);
    }
  }

  /** A quoted string reads back, whatever units it holds. */
  lemma {:induction false} ReadQuoted(s: Text, x: Text)
    ensures ReadString(Escape(s) + ([QUOTE] + x)) == Some((s, x))
    decreases s
  {
    var end := [QUOTE] + x;
    if s == [] {
      assert Escape(s) + end == end;
      assert end[1..] == x;
    } else if Paired(s) {
      ReadQuoted(s[2..], x);
      PairFront(s, end, x);
    } else {
      ReadQuoted(s[1..], x);
      UnitFront(s, end, x);
    }
  }

  lemma {:induction false} PairFront(s: Text, end: Text, x: Text)
    requires Paired(s) && ReadString(Escape(s[2..]) + end) == Some((s[2..], x))
    ensures ReadString(Escape(s) + end) == Some((s, x))
  {
    hide ReadString;
    var rest := Escape(s[2..]) + end;
    ReadPair(s, rest);
    assert Escape(s) + end == s[..2] + rest;
    assert s == s[..2] + s[2..];
  }

  lemma {:induction false} UnitFront(s: Text, end: Text, x: Text)
    requires s != [] && !Paired(s) && ReadString(Escape(s[1..]) + end) == Some((s[1..], x))
    ensures ReadString(Escape(s) + end) == Some((s, x))
  {
    hide ReadString, EscapeUnit;
    var rest := Escape(s[1..]) + end;
    ReadUnit(s[0], rest);
    assert Escape(s) + end == EscapeUnit(s[0]) + rest;
    assert s == [s[0]] + s[1..];
  }

  lemma {:induction false} ReadPair(s: Text, t: Text)
    requires Paired(s) && ReadString(t).Some?
    ensures ReadString(s[..2] + t) == Some((s[..2] + ReadString(t).value.0, ReadString(t).value.1))
  {
    hide ReadString;
    ReadPlain(s[1], t);
    ReadPlain(s[0], [s[1]] + t);
    assert s[..2] + t == [s[0]] + ([s[1]] + t);
    var r := ReadString(t).value.0;
    assert [s[0]] + ([s[1]] + r) == s[..2] + r;
  }

  // ----- Numbers ---------------------------------------------------------------------------

  predicate DigitUnit(u: Unit) {
    48 <= u <= 57
  }

  function DigitUnits(t: Text): (n: nat)
    ensures n <= |t| && forall i :: 0 <= i < n ==> DigitUnit(t[i])
  {
    if t != [] && DigitUnit(t[0]) then 1 + DigitUnits(t[1..]) else 0
  }

  function UnitsValue(t: Text): nat
    requires forall i :: 0 <= i < |t| ==> DigitUnit(t[i])
  {
    if t == [] then 0
    else
      assert DigitUnit(t[|t| - 1]);
      10 * UnitsValue(t[..|t| - 1]) + (t[|t| - 1] as int - 48)
  }

  /** Digits, with an optional sign in front. */
  function ReadNumber(t: Text): (r: Option<(int, Text)>)
    ensures r.Some? ==> |r.value.1| < |t|
  {
    var negative := t != [] && t[0] == MINUS;
    var digits := if negative then t[1..] else t;
    var n := DigitUnits(digits);
    if n == 0 then None
    else Some((if negative then -(UnitsValue(digits[..n]) as int) else UnitsValue(digits[..n]), digits[n..]))
  }

  lemma {:induction false} UnitsOfDigits(s: string)
    requires AllDigits(s)
    ensures forall i :: 0 <= i < |s| ==> DigitUnit(Units(s)[i])
    ensures UnitsValue(Units(s)) == Value(s)
    decreases s
  {
    if s != "" {
      UnitsOfDigits(s[..|s| - 1]);
      assert Units(s)[..|s| - 1] == Units(s[..|s| - 1]);
    }
  }

  /** Nothing that a number could continue with. */
  predicate Delimited(x: Text) {
    x == [] || !DigitUnit(x[0])
  }

  lemma {:induction false} DigitUnitsExact(d: Text, x: Text)
    requires (forall i :: 0 <= i < |d| ==> DigitUnit(d[i])) && Delimited(x)
    ensures DigitUnits(d + x) == |d|
    decreases d
  {
    if d == [] {
      assert d + x == x;
    } else {
      DigitUnitsExact(d[1..], x);
      assert (d + x)[1..] == d[1..] + x;
    }
  }

  lemma {:induction false} ReadDigits(n: nat, x: Text)
    requires Delimited(x)
    ensures var d := Units(ToDigits(n));
            var t := d + x;
            DigitUnits(t) == |d| > 0 && t[..|d|] == d && t[|d|..] == x && UnitsValue(d) == n && t[0] != MINUS
  {
    var s := ToDigits(n);
    UnitsOfDigits(s);
    ToDigitsValue(n);
    hide ToDigits, Value;
    DigitUnitsExact(Units(s), x);
  }

  lemma {:induction false} ReadNegative(n: nat, x: Text)
    requires Delimited(x)
    ensures ReadNumber([MINUS] + Units(ToDigits(n)) + x) == Some((-(n as int), x))
  {
    hide ToDigits, DigitUnits, UnitsValue, Units;
    ReadDigits(n, x);
    assert ([MINUS] + Units(ToDigits(n)) + x)[1..] == Units(ToDigits(n)) + x;
  }

  lemma {:induction false} ReadNatural(n: nat, x: Text)
    requires Delimited(x)
    ensures ReadNumber(Units(ToDigits(n)) + x) == Some((n, x))
  {
    hide ToDigits, DigitUnits, UnitsValue, Units;
    ReadDigits(n, x);
  }

  lemma {:induction false} ReadNumberText(n: int, x: Text)
    requires Delimited(x)
    ensures ReadNumber(NumberText(n) + x) == Some((n, x))
  {
    hide ToDigits, ReadNumber, Units;
    if n < 0 {
      ReadNegative(-n, x);
    } else {
      ReadNatural(n, x);
    }
  }

  // ----- Values ----------------------------------------------------------------------------

  predicate StartsWith(t: Text, word: Text) {
    |t| >= |word| && t[..|word|] == word
  }

  function ReadWord(t: Text, v: Json): (r: Option<(Json, Text)>)
    requires Stringify(v) != []
    ensures r.Some? ==> |r.value.1| < |t|
  {
    if StartsWith(t, Stringify(v)) then Some((v, t[|Stringify(v)|..])) else None
  }

  /** A value at the front of the text, and the text after it. */
  function ReadValue(t: Text): (r: Option<(Json, Text)>)
    ensures r.Some? ==> |r.value.1| < |t|
    decreases |t|, 1
  {
    if t == [] then None
    else if t[0] == 110 then ReadWord(t, Null)
    else if t[0] == 116 then ReadWord(t, Bool(true))
    else if t[0] == 102 then ReadWord(t, Bool(false))
    else if t[0] == QUOTE then
      var (text, rest) :- ReadString(t[1..]);
      Some((String(text), rest))
    else if t[0] == 91 then
      if |t| > 1 && t[1] == 93 then Some((Array([]), t[2..]))
      else
        var (items, rest) :- ReadItems(t[1..]);
        Some((Array(items), rest))
    else if t[0] == 123 then
      if |t| > 1 && t[1] == 125 then Some((Object([]), t[2..]))
      else
        var (members, rest) :- ReadMembers(t[1..]);
        Some((Object(members), rest))
    else
      var (n, rest) :- ReadNumber(t);
      Some((Number(n), rest))
  }

  function ReadItems(t: Text): (r: Option<(seq<Json>, Text)>)
    ensures r.Some? ==> |r.value.1| < |t|
    decreases |t|, 2
  {
    var (v, rest) :- ReadValue(t);
    if rest == [] then None
    else if rest[0] == 93 then Some(([v], rest[1..]))
    else if rest[0] == COMMA then
      var (items, end) :- ReadItems(rest[1..]);
      Some(([v] + items, end))
    else None
  }

  function ReadMember(t: Text): (r: Option<(Member, Text)>)
    ensures r.Some? ==> |r.value.1| < |t|
    decreases |t|, 2
  {
    if t == [] || t[0] != QUOTE then None
    else
      var (key, rest) :- ReadString(t[1..]);
      if rest == [] || rest[0] != COLON then None
      else
        var (v, end) :- ReadValue(rest[1..]);
        Some((Member(key, v), end))
  }

  function ReadMembers(t: Text): (r: Option<(seq<Member>, Text)>)
    ensures r.Some? ==> |r.value.1| < |t|
    decreases |t|, 3
  {
    var (m, rest) :- ReadMember(t);
    if rest == [] then None
    else if rest[0] == 125 then Some(([m], rest[1..]))
    else if rest[0] == COMMA then
      var (members, end) :- ReadMembers(rest[1..]);
      Some(([m] + members, end))
    else None
  }

  /** Nothing in the value is foreign to JSON. */
  predicate Readable(v: Json)
    decreases v
  {
    match v
    case Array(items) => forall i :: 0 <= i < |items| ==> Readable(items[i])
    case Object(members) => forall i :: 0 <= i < |members| ==> Readable(members[i].value)
    case Foreign => false
    case _ => true
  }

  // ----- What was written reads back -------------------------------------------------------

  /** How a value's text can begin. */
  predicate Opening(u: Unit) {
    u == 110 || u == 116 || u == 102 || u == QUOTE || u == 91 || u == 123 || u == MINUS || DigitUnit(u)
  }

  lemma {:induction false} NumberFirst(n: int)
    ensures NumberText(n) != [] && (NumberText(n)[0] == MINUS || DigitUnit(NumberText(n)[0]))
  {
  }

  lemma {:induction false} FirstUnit(v: Json)
    requires Readable(v)
    ensures Stringify(v) != [] && Opening(Stringify(v)[0])
  {
    hide PartsText, Escape, NumberText;
    if v.Number? {
      NumberFirst(v.n);
    }
  }

  lemma {:induction false} ReadWordBack(v: Json, x: Text)
    requires v.Null? || v.Bool?
    ensures ReadValue(Stringify(v) + x) == Some((v, x))
  {
    var word := Stringify(v);
    assert (word + x)[..|word|] == word && (word + x)[|word|..] == x;
  }

  lemma {:induction false} ReadStringBack(s: Text, x: Text)
    ensures ReadValue(Quote(s) + x) == Some((String(s), x))
  {
    hide Escape, ReadString;
    ReadQuoted(s, x);
    assert (Quote(s) + x)[1..] == Escape(s) + ([QUOTE] + x);
  }

  lemma {:induction false} ReadNumberBack(n: int, x: Text)
    requires Delimited(x)
    ensures ReadValue(NumberText(n) + x) == Some((Number(n), x))
  {
    hide NumberText, ReadNumber;
    NumberFirst(n);
    ReadNumberText(n, x);
  }

  /** The text of one part onwards, up to the closing bracket and beyond. */
  function Onwards(v: Json, i: nat, close: Unit, x: Text): Text
    requires i < Width(v)
  {
    PartText(v, i) + PartsText(v, i + 1) + ([close] + x)
  }

  /** What follows one part. */
  function After(v: Json, i: nat, close: Unit, x: Text): Text
    requires i < Width(v)
  {
    if i + 1 == Width(v) then [close] + x else [COMMA] + Onwards(v, i + 1, close, x)
  }

  lemma {:induction false} OnwardsAfter(v: Json, i: nat, close: Unit, x: Text)
    requires i < Width(v)
    ensures Onwards(v, i, close, x) == PartText(v, i) + After(v, i, close, x)
  {
    hide PartText;
    if i + 1 < Width(v) {
      assert PartsText(v, i + 1) == [COMMA] + PartText(v, i + 1) + PartsText(v, i + 2);
    }
  }

  predicate Closing(close: Unit) {
    close == 93 || close == 125
  }

  lemma {:induction false} AfterDelimited(v: Json, i: nat, close: Unit, x: Text)
    requires i < Width(v) && Closing(close)
    ensures After(v, i, close, x) != [] && Delimited(After(v, i, close, x))
    ensures After(v, i, close, x)[0] == if i + 1 == Width(v) then close else COMMA
    ensures After(v, i, close, x)[1..] == if i + 1 == Width(v) then x else Onwards(v, i + 1, close, x)
  {
    hide Onwards;
  }

  lemma {:induction false} ReadItemsStep(t: Text, v: Json, rest: Text)
    requires ReadValue(t) == Some((v, rest)) && rest != []
    ensures rest[0] == 93 ==> ReadItems(t) == Some(([v], rest[1..]))
    ensures rest[0] == COMMA && ReadItems(rest[1..]).Some? ==>
              ReadItems(t) == Some(([v] + ReadItems(rest[1..]).value.0, ReadItems(rest[1..]).value.1))
  {
    hide ReadValue;
  }

  lemma {:induction false} ReadMembersStep(t: Text, m: Member, rest: Text)
    requires ReadMember(t) == Some((m, rest)) && rest != []
    ensures rest[0] == 125 ==> ReadMembers(t) == Some(([m], rest[1..]))
    ensures rest[0] == COMMA && ReadMembers(rest[1..]).Some? ==>
              ReadMembers(t) == Some(([m] + ReadMembers(rest[1..]).value.0, ReadMembers(rest[1..]).value.1))
  {
    hide ReadMember;
  }

  lemma {:induction false} ReadItemsBack(v: Json, i: nat, x: Text)
    requires v.Array? && Readable(v) && i < Width(v)
    ensures ReadItems(Onwards(v, i, 93, x)) == Some((v.items[i..], x))
    decreases v, Width(v) - i
  {
    var after := After(v, i, 93, x);
    AfterDelimited(v, i, 93, x);
    OnwardsAfter(v, i, 93, x);
    ReadBack(v.items[i], after);
    hide ReadValue, Stringify, Onwards, After, Readable, ReadItems;
    ReadItemsStep(Onwards(v, i, 93, x), v.items[i], after);
    assert v.items[i..] == [v.items[i]] + v.items[i + 1..];
    if i + 1 < Width(v) {
      ReadItemsBack(v, i + 1, x);
    } else {
      assert v.items[i..] == [v.items[i]];
    }
  }

  lemma {:induction false} ReadMemberBack(m: Member, after: Text)
    requires ReadValue(Stringify(m.value) + after) == Some((m.value, after))
    ensures ReadMember(Quote(m.key) + [COLON] + Stringify(m.value) + after) == Some((m, after))
  {
    hide ReadValue, ReadString, Escape, Stringify;
    var rest := [COLON] + (Stringify(m.value) + after);
    ReadQuoted(m.key, rest);
    var all := Quote(m.key) + [COLON] + Stringify(m.value) + after;
    assert all[1..] == Escape(m.key) + ([QUOTE] + rest);
    assert rest[1..] == Stringify(m.value) + after;
  }

  lemma {:induction false} ReadMembersBack(v: Json, i: nat, x: Text)
    requires v.Object? && Readable(v) && i < Width(v)
    ensures ReadMembers(Onwards(v, i, 125, x)) == Some((v.members[i..], x))
    decreases v, Width(v) - i
  {
    var after := After(v, i, 125, x);
    AfterDelimited(v, i, 125, x);
    OnwardsAfter(v, i, 125, x);
    ReadBack(v.members[i].value, after);
    hide ReadValue, Stringify, Onwards, After, Readable, ReadMember, ReadMembers, Quote;
    ReadMemberBack(v.members[i], after);
    ReadMembersStep(Onwards(v, i, 125, x), v.members[i], after);
    assert v.members[i..] == [v.members[i]] + v.members[i + 1..];
    if i + 1 < Width(v) {
      ReadMembersBack(v, i + 1, x);
    } else {
      assert v.members[i..] == [v.members[i]];
    }
  }

  /** Compact text reads back as the value it was written from, whatever follows it. */
  lemma {:induction false} ReadBack(v: Json, x: Text)
    requires Readable(v) && Delimited(x)
    ensures ReadValue(Stringify(v) + x) == Some((v, x))
    decreases v, Width(v) + 2
  {
    hide PartsText, Quote, NumberText;
    match v
    case String(s) => ReadStringBack(s, x);
    case Number(n) => ReadNumberBack(n, x);
    case Array(_) => ReadArrayBack(v, x);
    case Object(_) => ReadObjectBack(v, x);
    case _ =>
      hide ReadValue, Stringify;
      ReadWordBack(v, x);
  }

  /** The text of a container that is not empty. */
  lemma {:induction false} ContainerText(v: Json, close: Unit, x: Text)
    requires Width(v) > 0 && close == (if v.Array? then 93 else 125)
    ensures Stringify(v) + x == [if v.Array? then 91 else 123] + Onwards(v, 0, close, x)
  {
    assert PartsText(v, 0) == PartText(v, 0) + PartsText(v, 1);
    hide PartsText, PartText;
  }

  lemma {:induction false} EmptyText(v: Json)
    requires Width(v) == 0
    ensures v.Array? ==> Stringify(v) == [91, 93]
    ensures v.Object? ==> Stringify(v) == [123, 125]
  {
  }

  /** Where the text of a part begins. */
  lemma {:induction false} OnwardsFirst(v: Json, close: Unit, x: Text)
    requires Width(v) > 0 && Readable(v)
    ensures Onwards(v, 0, close, x) != []
    ensures v.Array? ==> Opening(Onwards(v, 0, close, x)[0])
    ensures v.Object? ==> Onwards(v, 0, close, x)[0] == QUOTE
  {
    hide PartsText, Stringify, Escape;
    if v.Array? {
      FirstUnit(v.items[0]);
    }
  }

  lemma {:induction false} ReadArrayStep(rest: Text)
    requires rest != [] && rest[0] != 93 && ReadItems(rest).Some?
    ensures ReadValue([91] + rest) == Some((Array(ReadItems(rest).value.0), ReadItems(rest).value.1))
  {
    hide ReadItems;
    assert ([91] + rest)[1..] == rest;
  }

  lemma {:induction false} ReadObjectStep(rest: Text)
    requires rest != [] && rest[0] != 125 && ReadMembers(rest).Some?
    ensures ReadValue([123] + rest) == Some((Object(ReadMembers(rest).value.0), ReadMembers(rest).value.1))
  {
    hide ReadMembers;
    assert ([123] + rest)[1..] == rest;
  }

  lemma {:induction false} ReadEmpty(x: Text)
    ensures ReadValue([91, 93] + x) == Some((Array([]), x))
    ensures ReadValue([123, 125] + x) == Some((Object([]), x))
  {
    assert ([91, 93] + x)[2..] == x && ([123, 125] + x)[2..] == x;
  }

  lemma {:induction false} ReadArrayBack(v: Json, x: Text)
    requires v.Array? && Readable(v)
    ensures ReadValue(Stringify(v) + x) == Some((v, x))
    decreases v, Width(v) + 1
  {
    hide ReadValue, ReadItems, Stringify, Onwards, Readable;
    if Width(v) == 0 {
      EmptyText(v);
      ReadEmpty(x);
    } else {
      var rest := Onwards(v, 0, 93, x);
      ReadItemsBack(v, 0, x);
      ContainerText(v, 93, x);
      OnwardsFirst(v, 93, x);
      ReadArrayStep(rest);
      assert v.items[0..] == v.items;
    }
  }

  lemma {:induction false} ReadObjectBack(v: Json, x: Text)
    requires v.Object? && Readable(v)
    ensures ReadValue(Stringify(v) + x) == Some((v, x))
    decreases v, Width(v) + 1
  {
    hide ReadValue, ReadMembers, Stringify, Onwards, Readable;
    if Width(v) == 0 {
      EmptyText(v);
      ReadEmpty(x);
    } else {
      var rest := Onwards(v, 0, 125, x);
      ReadMembersBack(v, 0, x);
      ContainerText(v, 125, x);
      OnwardsFirst(v, 125, x);
      ReadObjectStep(rest);
      assert v.members[0..] == v.members;
    }
  }

  /** Compact text determines the value. */
  lemma {:induction false} TextDeterminesValue(a: Json, b: Json)
    requires Readable(a) && Readable(b) && Stringify(a) == Stringify(b)
    ensures a == b
  {
    hide ReadValue, Stringify;
    ReadBack(a, []);
    ReadBack(b, []);
  }
}
