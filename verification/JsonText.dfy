/**
 JSON values and their compact text (sections 2 and 7 of RFC 8259), over UTF-16 code units as the
 source's strings are, with the escapes JSON.stringify writes.
 */
module JsonText {
  import opened Digits

  type Unit = u: int | 0 <= u < 0x10000

  type Text = seq<Unit>

  /** `Foreign` is any value without a place in integer-only JSON data. */
  datatype Json =
    | Null
    | Bool(value: bool)
    | Number(n: int)
    | String(text: Text)
    | Array(items: seq<Json>)
    | Object(members: seq<Member>)
    | Foreign

  datatype Member = Member(key: Text, value: Json)

  const QUOTE: Unit := 34
  const COMMA: Unit := 44
  const MINUS: Unit := 45
  const COLON: Unit := 58
  const BACKSLASH: Unit := 92

  function Literal(s: string): (t: Text)
    requires forall i :: 0 <= i < |s| ==> s[i] < 128 as char
    ensures |t| == |s| && forall i :: 0 <= i < |t| ==> t[i] == s[i] as int
  {
    seq(|s|, i requires 0 <= i < |s| => s[i] as int)
  }

  predicate IsHigh(u: Unit) {
    0xD800 <= u <= 0xDBFF
  }

  predicate IsLow(u: Unit) {
    0xDC00 <= u <= 0xDFFF
  }

  /** A surrogate pair at the front. */
  predicate Paired(t: Text) {
    |t| >= 2 && IsHigh(t[0]) && IsLow(t[1])
  }

  // ----- Text ------------------------------------------------------------------------------

  function HexDigit(d: int): Unit
    requires 0 <= d < 16
  {
    if d < 10 then 48 + d else 87 + d
  }

  function Hex4(u: Unit): Text {
    [HexDigit(u / 4096), HexDigit(u / 256 % 16), HexDigit(u / 16 % 16), HexDigit(u % 16)]
  }

  /** The letter of a two-character escape, or 0. */
  function ShortEscape(u: Unit): Unit {
    if u == QUOTE || u == BACKSLASH then u
    else if u == 8 then 98
    else if u == 9 then 116
    else if u == 10 then 110
    else if u == 12 then 102
    else if u == 13 then 114
    else 0
  }

  predicate NeedsHex(u: Unit) {
    u < 32 || IsHigh(u) || IsLow(u)
  }

  function EscapeUnit(u: Unit): Text {
    if ShortEscape(u) != 0 then [BACKSLASH, ShortEscape(u)]
    else if NeedsHex(u) then [BACKSLASH, 117] + Hex4(u)
    else [u]
  }

  /** Surrogate pairs are kept, lone surrogates escaped. */
  function Escape(t: Text): Text {
    if t == [] then []
    else if Paired(t) then t[..2] + Escape(t[2..])
    else EscapeUnit(t[0]) + Escape(t[1..])
  }

  function Quote(t: Text): Text {
    [QUOTE] + Escape(t) + [QUOTE]
  }

  function Units(digits: string): (r: Text)
    requires AllDigits(digits)
    ensures |r| == |digits| && forall i :: 0 <= i < |r| ==> r[i] == digits[i] as int
  {
    seq(|digits|, i requires 0 <= i < |digits| => digits[i] as int)
  }

  function NumberText(n: int): Text {
    if n < 0 then [MINUS] + Units(ToDigits(-n)) else Units(ToDigits(n))
  }

  function Width(v: Json): nat {
    match v
    case Array(items) => |items|
    case Object(members) => |members|
    case _ => 0
  }

  /** The compact text of a value. */
  function Stringify(v: Json): Text
    decreases v, Width(v) + 1
  {
    match v
    case Null => [110, 117, 108, 108]
    case Bool(b) => if b then [116, 114, 117, 101] else [102, 97, 108, 115, 101]
    case Number(n) => NumberText(n)
    case String(t) => Quote(t)
    case Array(_) => [91] + PartsText(v, 0) + [93]
    case Object(_) => [123] + PartsText(v, 0) + [125]
    case Foreign => []
  }

  /** The text of item or member `i`. */
  function PartText(v: Json, i: nat): Text
    requires i < Width(v)
    decreases v, 0
  {
    if v.Array? then Stringify(v.items[i]) else Quote(v.members[i].key) + [COLON] + Stringify(v.members[i].value)
  }

  function Separator(i: nat): Text {
    if i > 0 then [COMMA] else []
  }

  /** The items or members from `i` on, with the commas before them. */
  function PartsText(v: Json, i: nat): Text
    requires i <= Width(v)
    decreases v, Width(v) - i
  {
    if i == Width(v) then [] else Separator(i) + PartText(v, i) + PartsText(v, i + 1)
  }

  // ----- UTF-8 length ----------------------------------------------------------------------

  function UnitBytes(u: Unit): nat {
    if u < 0x80 then 1 else if u < 0x800 then 2 else 3
  }

  /** Bytes of the UTF-8 form; a lone surrogate takes the three of its replacement. */
  function Utf8Length(t: Text): nat {
    if t == [] then 0
    else if Paired(t) then 4 + Utf8Length(t[2..])
    else UnitBytes(t[0]) + Utf8Length(t[1..])
  }

  lemma {:induction false} Utf8Append(a: Text, b: Text)
    requires b == [] || !IsLow(b[0])
    ensures Utf8Length(a + b) == Utf8Length(a) + Utf8Length(b)
    decreases a
  {
    if a == [] {
      assert a + b == b;
    } else if Paired(a) {
      Utf8Append(a[2..], b);
      assert (a + b)[2..] == a[2..] + b;
    } else {
      Utf8Append(a[1..], b);
      assert (a + b)[1..] == a[1..] + b;
    }
  }

  predicate Ascii(t: Text) {
    forall i :: 0 <= i < |t| ==> t[i] < 0x80
  }

  lemma {:induction false} Utf8Ascii(t: Text)
    requires Ascii(t)
    ensures Utf8Length(t) == |t|
  {
    if t != [] {
      Utf8Ascii(t[1..]);
    }
  }
}
