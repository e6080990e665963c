/**
 The UTF-8 form of UTF-16 text (section 3 of RFC 3629; section 2.6 of RFC 2781 for pairs), which the
 byte meter measures without building it.
 */
module Utf8 {
  import opened JsonText
  import opened Wrappers

  type Byte = b: int | 0 <= b < 256

  /** A lone surrogate is replaced by U+FFFD. */
  function UnitForm(u: Unit): seq<Byte> {
    if u < 0x80 then [u]
    else if u < 0x800 then [0xC0 + u / 64, 0x80 + u % 64]
    else if IsHigh(u) || IsLow(u) then [0xEF, 0xBF, 0xBD]
    else [0xE0 + u / 4096, 0x80 + u / 64 % 64, 0x80 + u % 64]
  }

  /** The code point of a surrogate pair. */
  function PairCode(high: Unit, low: Unit): (c: int)
    requires IsHigh(high) && IsLow(low)
    ensures 0x10000 <= c < 0x110000
  {
    0x10000 + (high - 0xD800) * 0x400 + (low - 0xDC00)
  }

  function PairForm(c: int): seq<Byte>
    requires 0x10000 <= c < 0x110000
  {
    [0xF0 + c / 262144, 0x80 + c / 4096 % 64, 0x80 + c / 64 % 64, 0x80 + c % 64]
  }

  function Encode(t: Text): seq<Byte> {
    if t == [] then []
    else if Paired(t) then PairForm(PairCode(t[0], t[1])) + Encode(t[2..])
    else UnitForm(t[0]) + Encode(t[1..])
  }

  /** The meter's count is the length of the encoded text. */
  lemma {:induction false} EncodedLength(t: Text)
    ensures Utf8Length(t) == |Encode(t)|
    decreases t
  {
    if t != [] {
      if Paired(t) {
        EncodedLength(t[2..]);
      } else {
        EncodedLength(t[1..]);
      }
    }
  }

  /** No surrogate stands alone. */
  predicate WellPaired(t: Text) {
    t == [] || if Paired(t) then WellPaired(t[2..]) else !IsHigh(t[0]) && !IsLow(t[0]) && WellPaired(t[1..])
  }

  /** The UTF-16 units of a code point. */
  function UnitsOf(c: int): Text
    requires 0 <= c < 0x110000
  {
    if c < 0x10000 then [c] else [0xD800 + (c - 0x10000) / 0x400, 0xDC00 + (c - 0x10000) % 0x400]
  }

  predicate Continuation(b: Byte) {
    0x80 <= b < 0xC0
  }

  /** What a byte holds beside its marker bits. */
  function Bits(b: Byte, marker: int): int {
    b as int - marker
  }

  /** The code point at the front of the bytes and how many bytes it takes, by the leading byte's pattern. */
  function Front(bytes: seq<Byte>): Option<(int, nat)>
    ensures Front(bytes).Some? ==> 0 < Front(bytes).value.1 <= |bytes| && 0 <= Front(bytes).value.0 < 0x110000
  {
    if bytes == [] then None
    else if bytes[0] < 0x80 then Some((bytes[0], 1))
    else if 0xC0 <= bytes[0] < 0xE0 && |bytes| >= 2 && Continuation(bytes[1]) then
      Some((Bits(bytes[0], 0xC0) * 64 + Bits(bytes[1], 0x80), 2))
    else if 0xE0 <= bytes[0] < 0xF0 && |bytes| >= 3 && Continuation(bytes[1]) && Continuation(bytes[2]) then
      Some((Bits(bytes[0], 0xE0) * 4096 + Bits(bytes[1], 0x80) * 64 + Bits(bytes[2], 0x80), 3))
    else if 0xF0 <= bytes[0] < 0xF4 && |bytes| >= 4 && Continuation(bytes[1]) && Continuation(bytes[2]) && Continuation(bytes[3]) then
      Some((Bits(bytes[0], 0xF0) * 262144 + Bits(bytes[1], 0x80) * 4096 + Bits(bytes[2], 0x80) * 64 + Bits(bytes[3], 0x80), 4))
    else if bytes[0] == 0xF4 && |bytes| >= 4 && 0x80 <= bytes[1] < 0x90 && Continuation(bytes[2]) && Continuation(bytes[3]) then
      Some((0x100000 + Bits(bytes[1], 0x80) * 4096 + Bits(bytes[2], 0x80) * 64 + Bits(bytes[3], 0x80), 4))
    else None
  }

  function Decode(bytes: seq<Byte>): Option<Text> {
    if bytes == [] then Some([])
    else
      var (c, n) :- Front(bytes);
      var rest :- Decode(bytes[n..]);
      Some(UnitsOf(c) + rest)
  }

  lemma {:induction false} FrontOfUnit(u: Unit, rest: seq<Byte>)
    requires !IsHigh(u) && !IsLow(u)
    ensures Front(UnitForm(u) + rest) == Some((u as int, |UnitForm(u)|))
  {
    if u >= 0x800 {
      assert u == u / 4096 * 4096 + u / 64 % 64 * 64 + u % 64;
    } else if u >= 0x80 {
      assert u == u / 64 * 64 + u % 64;
    }
  }

  lemma {:induction false} FrontOfPair(c: int, rest: seq<Byte>)
    requires 0x10000 <= c < 0x110000
    ensures Front(PairForm(c) + rest) == Some((c, 4))
  {
    assert c == c / 262144 * 262144 + c / 4096 % 64 * 4096 + c / 64 % 64 * 64 + c % 64;
  }

  /** Text in which no surrogate stands alone is read back from its UTF-8 form. */
  lemma {:induction false} DecodeEncoded(t: Text)
    requires WellPaired(t)
    ensures Decode(Encode(t)) == Some(t)
    decreases t
  {
    if t != [] {
      hide Front;
      if Paired(t) {
        var c := PairCode(t[0], t[1]);
        FrontOfPair(c, Encode(t[2..]));
        assert Encode(t)[4..] == Encode(t[2..]);
        DecodeEncoded(t[2..]);
        assert UnitsOf(c) == t[..2];
        assert t == t[..2] + t[2..];
      } else {
        FrontOfUnit(t[0], Encode(t[1..]));
        assert Encode(t)[|UnitForm(t[0])|..] == Encode(t[1..]);
        DecodeEncoded(t[1..]);
        assert t == [t[0]] + t[1..];
      }
    }
  }

  // ----- The compact text ------------------------------------------------------------------

  /** Which units JSON text writes as themselves, with a letter, or in hexadecimal. */
  lemma {:induction false} EscapeTable(u: Unit)
    ensures u == 8 ==> EscapeUnit(u) == Literal("\\b")
    ensures u == 9 ==> EscapeUnit(u) == Literal("\\t")
    ensures u == 10 ==> EscapeUnit(u) == Literal("\\n")
    ensures u == 12 ==> EscapeUnit(u) == Literal("\\f")
    ensures u == 13 ==> EscapeUnit(u) == Literal("\\r")
    ensures u == 34 ==> EscapeUnit(u) == Literal("\\\"")
    ensures u == 92 ==> EscapeUnit(u) == Literal("\\\\")
    ensures u >= 32 && u != 34 && u != 92 && !(0xD800 <= u <= 0xDFFF) ==> EscapeUnit(u) == [u]
    ensures (u < 32 && u !in {8, 9, 10, 12, 13}) || 0xD800 <= u <= 0xDFFF ==>
              |EscapeUnit(u)| == 6 && EscapeUnit(u)[..2] == Literal("\\u")
  {
  }

  lemma {:induction false} WellPairedAppend(a: Text, b: Text)
    requires WellPaired(a) && WellPaired(b)
    ensures WellPaired(a + b)
    decreases a
  {
    if a == [] {
      assert a + b == b;
    } else if Paired(a) {
      WellPairedAppend(a[2..], b);
      assert (a + b)[2..] == a[2..] + b;
    } else {
      WellPairedAppend(a[1..], b);
      assert (a + b)[1..] == a[1..] + b;
    }
  }

  lemma {:induction false} AsciiPaired(t: Text)
    requires Ascii(t)
    ensures WellPaired(t)
    decreases t
  {
    if t != [] {
      AsciiPaired(t[1..]);
    }
  }

  lemma {:induction false} EscapedUnitPaired(u: Unit)
    ensures WellPaired(EscapeUnit(u))
  {
    if |EscapeUnit(u)| == 1 {
      assert EscapeUnit(u)[1..] == [];
    } else {
      AsciiPaired(EscapeUnit(u));
    }
  }

  lemma {:induction false} PairPaired(t: Text)
    requires |t| == 2 && Paired(t)
    ensures WellPaired(t)
  {
    assert t[2..] == [];
  }

  lemma {:induction false} EscapedPaired(t: Text)
    ensures WellPaired(Escape(t))
    decreases t
  {
    if t != [] {
      hide WellPaired, EscapeUnit;
      if Paired(t) {
        EscapedPaired(t[2..]);
        PairPaired(t[..2]);
        WellPairedAppend(t[..2], Escape(t[2..]));
      } else {
        EscapedPaired(t[1..]);
        EscapedUnitPaired(t[0]);
        WellPairedAppend(EscapeUnit(t[0]), Escape(t[1..]));
      }
    } else {
      assert WellPaired([]);
    }
  }

  lemma {:induction false} QuotedPaired(t: Text)
    ensures WellPaired(Quote(t))
  {
    hide Escape;
    EscapedPaired(t);
    AsciiPaired([QUOTE]);
    WellPairedAppend([QUOTE], Escape(t));
    WellPairedAppend([QUOTE] + Escape(t), [QUOTE]);
  }

  lemma {:induction false} PartPaired(v: Json, i: nat)
    requires i < Width(v)
    ensures WellPaired(PartText(v, i))
    decreases v, 0, 0
  {
    hide WellPaired, Quote;
    if v.Array? {
      TextPaired(v.items[i]);
    } else {
      QuotedPaired(v.members[i].key);
      TextPaired(v.members[i].value);
      AsciiPaired([COLON]);
      WellPairedAppend(Quote(v.members[i].key), [COLON]);
      WellPairedAppend(Quote(v.members[i].key) + [COLON], Stringify(v.members[i].value));
    }
  }

  lemma {:induction false} PartsPaired(v: Json, i: nat)
    requires i <= Width(v)
    ensures WellPaired(PartsText(v, i))
    decreases v, 1, Width(v) - i
  {
    hide WellPaired, PartText;
    if i == Width(v) {
      AsciiPaired([]);
    } else {
      PartPaired(v, i);
      PartsPaired(v, i + 1);
      AsciiPaired(Separator(i));
      WellPairedAppend(Separator(i), PartText(v, i));
      WellPairedAppend(Separator(i) + PartText(v, i), PartsText(v, i + 1));
    }
  }

  /** The compact text holds no lone surrogate, so its UTF-8 form is read back exactly. */
  lemma {:induction false} TextPaired(v: Json)
    ensures WellPaired(Stringify(v))
    decreases v, 2, 0
  {
    hide WellPaired, Quote, PartsText, NumberText;
    match v
    case Number(n) =>
      NumberAscii(n);
      AsciiPaired(NumberText(n));
    case String(t) => QuotedPaired(t);
    case Array(_) =>
      PartsPaired(v, 0);
      Enclosed(91, PartsText(v, 0), 93);
    case Object(_) =>
      PartsPaired(v, 0);
      Enclosed(123, PartsText(v, 0), 125);
    case _ => AsciiPaired(Stringify(v));
  }

  lemma {:induction false} NumberAscii(n: int)
    ensures Ascii(NumberText(n))
  {
  }

  lemma {:induction false} Enclosed(open: Unit, t: Text, close: Unit)
    requires open < 128 && close < 128 && WellPaired(t)
    ensures WellPaired([open] + t + [close])
  {
    AsciiPaired([open]);
    AsciiPaired([close]);
    WellPairedAppend([open], t);
    WellPairedAppend([open] + t, [close]);
  }

  lemma {:induction false} CompactTextDecodes(v: Json)
    ensures Decode(Encode(Stringify(v))) == Some(Stringify(v))
  {
    hide Stringify, Decode, Encode;
    TextPaired(v);
    DecodeEncoded(Stringify(v));
  }
}
