/**
 The JSON boundary of rich content (rich-content.validation.ts): serializing the normal form, and
 parsing bounded text back into it. The platform's JSON.parse is a parameter.
 */
module RichContentJson {
  import opened JsonText
  import opened JsonInspection
  import opened JsonDepth
  import opened JsonReading
  import opened RichSchema
  import opened RichContent
  import opened Wrappers

  /** Normalizing again changes nothing. */
  lemma {:induction false} NormalizeIdempotent(checks: Checks, v: Json)
    requires Distinct(v) && NormalizeRichContent(checks, v).Some?
    ensures var w := NormalizeRichContent(checks, v).value;
            NormalizeRichContent(checks, w) == Some(w) && Accepted(w)
  {
    hide NormalNode, LoadOf, Distinct;
    var start := Counters(0, 0, 0);
    NodeAgain(checks, Envelope, v, start);
    NodeLoad(checks, Envelope, v, start, 0);
  }

  /** A value that normalizes to itself. */
  predicate NormalForm(checks: Checks, w: Json) {
    NormalizeRichContent(checks, w) == Some(w)
  }

  function SerializeRichContent(checks: Checks, v: Json): Option<Text> {
    var w :- NormalizeRichContent(checks, v);
    Some(Stringify(w))
  }

  /** Length in units and in bytes, and the lexical depth. */
  predicate Bounded(input: Text) {
    && |input| <= MAX_UTF8_BYTES
    && Utf8Length(input) <= MAX_UTF8_BYTES
    && ScanText(START, input).Within?
  }

  function ParseSpec(checks: Checks, parse: Text -> Option<Json>, input: Text): Option<Json> {
    if !Bounded(input) then None
    else
      var parsed :- parse(input);
      NormalizeRichContent(checks, parsed)
  }

  method ParseRichContentJson(checks: Checks, parse: Text -> Option<Json>, input: Text) returns (r: Option<Json>)
    ensures r == ParseSpec(checks, parse, input)
  {
    if |input| > MAX_UTF8_BYTES || Utf8Length(input) > MAX_UTF8_BYTES {
      return None;
    }
    var scan := CheckDepth(input);
    if scan.Refused? {
      return None;
    }
    var parsed := parse(input);
    r := if parsed.None? then None else NormalizeRichContent(checks, parsed.value);
  }

  lemma {:induction false} UnitsWithinBytes(t: Text)
    ensures |t| <= Utf8Length(t)
    decreases t
  {
    if t != [] {
      if Paired(t) {
        UnitsWithinBytes(t[2..]);
      } else {
        UnitsWithinBytes(t[1..]);
      }
    }
  }

  /** Serialized text passes every check the parser makes before it reads. */
  lemma {:induction false} SerializedIsBounded(w: Json)
    requires Accepted(w)
    ensures Bounded(Stringify(w))
  {
    hide LoadOf, Stringify, Utf8Length, ScanText;
    BytesAreText(w, 0);
    UnitsWithinBytes(Stringify(w));
    AcceptedTextScans(w);
  }

  /** The native parser gives back every normal form from its compact text. */
  ghost predicate Inverts(checks: Checks, parse: Text -> Option<Json>) {
    forall w: Json :: NormalForm(checks, w) ==> parse(Stringify(w)) == Some(w)
  }

  /** Parsing the serialization of any accepted input gives its normal form. */
  lemma {:induction false} ParseSerialized(checks: Checks, parse: Text -> Option<Json>, v: Json)
    requires Distinct(v) && NormalizeRichContent(checks, v).Some? && Inverts(checks, parse)
    ensures ParseSpec(checks, parse, SerializeRichContent(checks, v).value) == NormalizeRichContent(checks, v)
  {
    hide NormalizeRichContent, Bounded, Accepted, Distinct;
    var w := NormalizeRichContent(checks, v).value;
    NormalizeIdempotent(checks, v);
    SerializedIsBounded(w);
    assert NormalForm(checks, w);
  }

  /** Whatever text is parsed, the result is a normal form and serializes to text that parses to it again. */
  lemma {:induction false} ParsedIsNormal(checks: Checks, parse: Text -> Option<Json>, input: Text)
    requires Inverts(checks, parse) && ParseSpec(checks, parse, input).Some?
    requires Distinct(parse(input).value)
    ensures var w := ParseSpec(checks, parse, input).value;
            && NormalForm(checks, w)
            && SerializeRichContent(checks, w) == Some(Stringify(w))
            && ParseSpec(checks, parse, Stringify(w)) == Some(w)
  {
    hide NormalizeRichContent, Bounded, Accepted, Distinct;
    var w := ParseSpec(checks, parse, input).value;
    NormalizeIdempotent(checks, parse(input).value);
    SerializedIsBounded(w);
    assert NormalForm(checks, w);
  }

  // ----- Such a parser exists --------------------------------------------------------------

  lemma {:induction false} AcceptedReadable(v: Json, depth: nat)
    requires LoadOf(v, depth).faults == 0
    ensures Readable(v)
    decreases v, Width(v) + 1
  {
    hide PartsLoad, LoadOf;
    OwnPart(v, depth);
    if v.Array? || v.Object? {
      forall i: nat | i < Width(v)
        ensures v.Array? ==> Readable(v.items[i])
        ensures v.Object? ==> Readable(v.members[i].value)
      {
        PartsReadable(v, 0, i, depth);
      }
    }
  }

  lemma {:induction false} PartsReadable(v: Json, i: nat, k: nat, depth: nat)
    requires i <= k < Width(v) && PartsLoad(v, i, depth).faults == 0
    ensures v.Array? ==> Readable(v.items[k])
    ensures v.Object? ==> Readable(v.members[k].value)
    decreases v, k - i
  {
    hide PartsLoad, LoadOf, Separator, Readable;
    PartsStep(v, i, depth);
    if i < k {
      PartsReadable(v, i + 1, k, depth);
    } else {
      PartFaults(v, i, depth);
      if v.Array? {
        AcceptedReadable(v.items[i], depth + 1);
      } else {
        AcceptedReadable(v.members[i].value, depth + 1);
      }
    }
  }

  function ReadWhole(t: Text): Option<Json> {
    var (v, rest) :- ReadValue(t);
    if rest == [] then Some(v) else None
  }

  /** Reading compact text inverts every normal form, so the demand made of the native parser can be met. */
  lemma {:induction false} ReaderInverts(checks: Checks)
    ensures Inverts(checks, ReadWhole)
  {
    hide ReadValue, Stringify, LoadOf, NormalNode;
    forall w: Json | NormalForm(checks, w)
      ensures ReadWhole(Stringify(w)) == Some(w)
    {
      AcceptedReadable(w, 0);
      ReadBack(w, []);
      assert Stringify(w) + [] == Stringify(w);
    }
  }
}
