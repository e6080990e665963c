/**
 The documents the normalizer accepts (rich-content.validation.ts), written out place by place with
 their literal keys: which members an object may and must have, and what each of them holds.
 */
module RichForm {
  import opened JsonText
  import opened JsonInspection
  import opened RichSchema
  import opened RichContent
  import opened RichValidity
  import opened Wrappers

  // ----- Keys and words --------------------------------------------------------------------

  /** The units of `t` are the characters of `word`. */
  predicate Spells(t: Text, word: string) {
    |t| == |word| && forall i :: 0 <= i < |t| ==> t[i] == word[i] as int
  }

  predicate Has(v: Json, key: string)
    requires v.Object?
  {
    exists i :: 0 <= i < |v.members| && Spells(v.members[i].key, key)
  }

  predicate IsWord(v: Json, words: seq<string>) {
    v.String? && exists i :: 0 <= i < |words| && Spells(v.text, words[i])
  }

  /** `v` is an object whose member `key` is the string `word`. */
  predicate Says(v: Json, key: string, word: string) {
    v.Object? && exists i :: 0 <= i < |v.members| && Spells(v.members[i].key, key) && IsWord(v.members[i].value, [word])
  }

  predicate IsInteger(v: Json, least: int, most: int) {
    v.Number? && least <= v.n <= most
  }

  /** Displayed text: safe and short enough. */
  predicate IsText(checks: Checks, v: Json, longest: nat) {
    v.String? && |v.text| <= longest && checks.display(v.text)
  }

  /** Hexadecimal digits in groups of 8, 4, 4, 4 and 12, the third led by the version, the fourth by the variant. */
  const UUID_PATTERN := "xxxxxxxx-xxxx-Vxxx-Nxxx-xxxxxxxxxxxx"

  /** A unit that may stand where the pattern has `place`. */
  predicate FitsPattern(place: char, u: Unit) {
    match place
    case 'x' => '0' as int <= u <= '9' as int || 'a' as int <= u <= 'f' as int || 'A' as int <= u <= 'F' as int
    case 'V' => '1' as int <= u <= '8' as int
    case 'N' => u in ['8' as int, '9' as int, 'a' as int, 'b' as int, 'A' as int, 'B' as int]
    case _ => u == place as int
  }

  predicate IsUuidText(v: Json) {
    && v.String? && |v.text| == |UUID_PATTERN|
    && forall i :: 0 <= i < |v.text| ==> FitsPattern(UUID_PATTERN[i], v.text[i])
  }

  predicate IsLanguage(v: Json) {
    IsWord(v, ["ar", "en", "und"])
  }

  predicate IsDirection(v: Json) {
    IsWord(v, ["rtl", "ltr", "auto"])
  }

  // ----- Objects ---------------------------------------------------------------------------

  /** Text, which inside a formula must also be a formula token. */
  predicate IsFormatted(checks: Checks, v: Json, formula: bool) {
    && Says(v, "type", "text") && Has(v, "text")
    && forall i :: 0 <= i < |v.members| ==> FormattedMember(checks, v.members[i], formula)
  }

  predicate FormattedMember(checks: Checks, m: Member, formula: bool) {
    || Spells(m.key, "type")
    || (Spells(m.key, "text") && IsText(checks, m.value, 8000) && (formula ==> checks.formula(m.value.text)))
    || (Spells(m.key, "language") && IsLanguage(m.value))
    || (Spells(m.key, "direction") && IsDirection(m.value))
  }

  predicate IsLineBreak(v: Json) {
    Says(v, "type", "lineBreak") && forall i :: 0 <= i < |v.members| ==> Spells(v.members[i].key, "type")
  }

  /** An object of type `word` with children of one place. */
  predicate IsParent(checks: Checks, v: Json, word: string, place: Class)
    decreases v, 1
  {
    && Says(v, "type", word) && Has(v, "children")
    && forall i :: 0 <= i < |v.members| ==> ParentMember(checks, v.members[i], place)
  }

  predicate ParentMember(checks: Checks, m: Member, place: Class)
    decreases m, 1
  {
    Spells(m.key, "type") || (Spells(m.key, "children") && IsList(checks, place, m.value))
  }

  predicate IsFraction(checks: Checks, v: Json)
    decreases v, 1
  {
    && Says(v, "type", "fraction") && Has(v, "numerator") && Has(v, "denominator")
    && forall i :: 0 <= i < |v.members| ==> FractionMember(checks, v.members[i])
  }

  predicate FractionMember(checks: Checks, m: Member)
    decreases m, 1
  {
    || Spells(m.key, "type")
    || (Spells(m.key, "numerator") && IsList(checks, Expression, m.value))
    || (Spells(m.key, "denominator") && IsList(checks, Expression, m.value))
  }

  predicate IsRadical(checks: Checks, v: Json)
    decreases v, 1
  {
    && Says(v, "type", "radical") && Has(v, "radicand")
    && forall i :: 0 <= i < |v.members| ==> RadicalMember(checks, v.members[i])
  }

  predicate RadicalMember(checks: Checks, m: Member)
    decreases m, 1
  {
    || Spells(m.key, "type")
    || (Spells(m.key, "radicand") && IsList(checks, Expression, m.value))
    || (Spells(m.key, "degree") && IsInteger(m.value, 2, 16))
  }

  predicate IsMath(checks: Checks, v: Json, display: string)
    decreases v, 1
  {
    && Says(v, "type", "math") && Has(v, "display") && Has(v, "children") && Has(v, "altText")
    && forall i :: 0 <= i < |v.members| ==> MathMember(checks, v.members[i], display)
  }

  predicate MathMember(checks: Checks, m: Member, display: string)
    decreases m, 1
  {
    || Spells(m.key, "type")
    || (Spells(m.key, "display") && IsWord(m.value, [display]))
    || (Spells(m.key, "children") && IsList(checks, Expression, m.value))
    || (Spells(m.key, "altText") && IsText(checks, m.value, 1000))
  }

  /** Products and arrow come together or not at all. */
  predicate IsChemistry(checks: Checks, v: Json)
    decreases v, 1
  {
    && Says(v, "type", "chemistry") && Has(v, "reactants") && Has(v, "altText")
    && (Has(v, "products") <==> Has(v, "arrow"))
    && forall i :: 0 <= i < |v.members| ==> ChemistryMember(checks, v.members[i])
  }

  predicate ChemistryMember(checks: Checks, m: Member)
    decreases m, 1
  {
    || Spells(m.key, "type")
    || (Spells(m.key, "reactants") && IsList(checks, Species, m.value))
    || (Spells(m.key, "altText") && IsText(checks, m.value, 1000))
    || (Spells(m.key, "products") && IsList(checks, Species, m.value))
    || (Spells(m.key, "arrow") && IsWord(m.value, ["yields", "equilibrium"]))
  }

  predicate IsAsset(checks: Checks, v: Json) {
    && Says(v, "type", "assetReference") && Has(v, "assetId") && Has(v, "kind") && Has(v, "altText")
    && forall i :: 0 <= i < |v.members| ==> AssetMember(checks, v.members[i])
  }

  predicate AssetMember(checks: Checks, m: Member) {
    || Spells(m.key, "type")
    || (Spells(m.key, "assetId") && IsUuidText(m.value))
    || (Spells(m.key, "kind") && IsWord(m.value, ["image", "audio", "video", "document", "other"]))
    || (Spells(m.key, "altText") && IsText(checks, m.value, 1000))
    || (Spells(m.key, "caption") && IsText(checks, m.value, 1000))
  }

  predicate IsSpecies(checks: Checks, v: Json)
    decreases v, 1
  {
    && v.Object? && Has(v, "coefficient") && Has(v, "elements")
    && forall i :: 0 <= i < |v.members| ==> SpeciesMember(checks, v.members[i])
  }

  predicate SpeciesMember(checks: Checks, m: Member)
    decreases m, 1
  {
    || (Spells(m.key, "coefficient") && IsInteger(m.value, 1, 999))
    || (Spells(m.key, "elements") && IsList(checks, Part, m.value))
    || (Spells(m.key, "charge") && IsInteger(m.value, -8, 8))
    || (Spells(m.key, "state") && IsWord(m.value, ["s", "l", "g", "aq"]))
  }

  predicate IsPart(checks: Checks, v: Json) {
    && v.Object? && Has(v, "element") && Has(v, "count")
    && forall i :: 0 <= i < |v.members| ==> PartMember(checks, v.members[i])
  }

  predicate PartMember(checks: Checks, m: Member) {
    || (Spells(m.key, "element") && m.value.String? && checks.element(m.value.text))
    || (Spells(m.key, "count") && IsInteger(m.value, 1, 999))
  }

  predicate IsDocument(checks: Checks, v: Json)
    decreases v, 1
  {
    && v.Object? && Has(v, "language") && Has(v, "direction") && Has(v, "blocks")
    && forall i :: 0 <= i < |v.members| ==> DocumentMember(checks, v.members[i])
  }

  predicate DocumentMember(checks: Checks, m: Member)
    decreases m, 1
  {
    || (Spells(m.key, "language") && IsLanguage(m.value))
    || (Spells(m.key, "direction") && IsDirection(m.value))
    || (Spells(m.key, "blocks") && IsList(checks, Block, m.value))
  }

  predicate IsQuestion(checks: Checks, v: Json)
    decreases v, 1
  {
    && Says(v, "kind", "question") && Has(v, "contentVersion") && Has(v, "stem")
    && forall i :: 0 <= i < |v.members| ==> QuestionMember(checks, v.members[i])
  }

  predicate QuestionMember(checks: Checks, m: Member)
    decreases m, 1
  {
    || Spells(m.key, "kind")
    || (Spells(m.key, "contentVersion") && IsInteger(m.value, 1, 1))
    || (Spells(m.key, "stem") && IsPlace(checks, Document, m.value))
    || (Spells(m.key, "instructions") && IsPlace(checks, Document, m.value))
    || (Spells(m.key, "stemAr") && IsPlace(checks, Document, m.value))
  }

  predicate IsOption(checks: Checks, v: Json)
    decreases v, 1
  {
    && Says(v, "kind", "option") && Has(v, "contentVersion") && Has(v, "label")
    && forall i :: 0 <= i < |v.members| ==> OptionMember(checks, v.members[i])
  }

  predicate OptionMember(checks: Checks, m: Member)
    decreases m, 1
  {
    || Spells(m.key, "kind")
    || (Spells(m.key, "contentVersion") && IsInteger(m.value, 1, 1))
    || (Spells(m.key, "label") && IsPlace(checks, Document, m.value))
    || (Spells(m.key, "labelAr") && IsPlace(checks, Document, m.value))
  }

  /** Scripts, fractions and roots, which may stand in a line as well as in a formula. */
  predicate IsConstruct(checks: Checks, v: Json)
    decreases v, 2
  {
    || IsParent(checks, v, "subscript", Expression) || IsParent(checks, v, "superscript", Expression)
    || IsFraction(checks, v) || IsRadical(checks, v)
  }

  /** What may stand at each place of a document. */
  predicate IsPlace(checks: Checks, place: Class, v: Json)
    decreases v, 3
  {
    match place
    case Envelope => IsQuestion(checks, v) || IsOption(checks, v)
    case Document => IsDocument(checks, v)
    case Block => IsParent(checks, v, "paragraph", Inline) || IsMath(checks, v, "block")
    case Inline =>
      || IsFormatted(checks, v, false) || IsLineBreak(v)
      || IsParent(checks, v, "strong", Inline) || IsParent(checks, v, "emphasis", Inline)
      || IsConstruct(checks, v)
      || IsMath(checks, v, "inline") || IsChemistry(checks, v) || IsAsset(checks, v)
    case Expression => IsFormatted(checks, v, true) || IsConstruct(checks, v)
    case Species => IsSpecies(checks, v)
    case Part => IsPart(checks, v)
  }

  /** A list that is not empty. */
  predicate IsList(checks: Checks, place: Class, v: Json)
    decreases v, 0
  {
    v.Array? && v.items != [] && forall i | 0 <= i < |v.items| :: IsPlace(checks, place, v.items[i])
  }

  // ----- Keys in the model -----------------------------------------------------------------

  predicate Ascii7(word: string) {
    forall i :: 0 <= i < |word| ==> word[i] < 128 as char
  }

  lemma {:induction false} SpellsIff(t: Text, word: string)
    requires Ascii7(word)
    ensures Spells(t, word) <==> t == Literal(word)
  {
  }

  lemma {:induction false} FindIff(members: seq<Member>, key: Text)
    requires DistinctMembers(members)
    ensures Find(members, key).Some? <==> exists i :: 0 <= i < |members| && members[i].key == key
    ensures forall i :: 0 <= i < |members| && members[i].key == key ==> Find(members, key) == Some(members[i].value)
    decreases members
  {
    if members != [] {
      FindIff(members[1..], key);
      assert forall i :: 0 <= i < |members[1..]| ==> members[1..][i] == members[i + 1];
      if Find(members, key).Some? && members[0].key != key {
        var i :| 0 <= i < |members[1..]| && members[1..][i].key == key;
        assert members[i + 1].key == key;
      }
    }
  }

  lemma {:induction false} HasIff(v: Json, key: string)
    requires v.Object? && DistinctMembers(v.members) && Ascii7(key)
    ensures Has(v, key) <==> Find(v.members, Literal(key)).Some?
  {
    hide Find, Spells, Literal, DistinctMembers;
    FindIff(v.members, Literal(key));
    forall i | 0 <= i < |v.members|
      ensures Spells(v.members[i].key, key) <==> v.members[i].key == Literal(key)
    {
      SpellsIff(v.members[i].key, key);
    }
  }

  lemma {:induction false} SaysIff(v: Json, key: string, word: string)
    requires v.Object? && DistinctMembers(v.members) && Ascii7(key) && Ascii7(word)
    ensures Says(v, key, word) <==> Find(v.members, Literal(key)) == Some(String(Literal(word)))
  {
    hide Find, Spells, Literal, DistinctMembers;
    FindIff(v.members, Literal(key));
    forall i | 0 <= i < |v.members|
      ensures Spells(v.members[i].key, key) <==> v.members[i].key == Literal(key)
      ensures IsWord(v.members[i].value, [word]) <==> v.members[i].value == String(Literal(word))
    {
      SpellsIff(v.members[i].key, key);
      assert [word][0] == word;
      if v.members[i].value.String? {
        SpellsIff(v.members[i].value.text, word);
      }
    }
  }

  // ----- A schema as a rule on members -----------------------------------------------------

  predicate Obeys(checks: Checks, field: Field, m: Member) {
    field.key == m.key && Shaped(checks, field.kind, m.value)
  }

  predicate MemberObeys(checks: Checks, fields: seq<Field>, m: Member) {
    exists j :: 0 <= j < |fields| && Obeys(checks, fields[j], m)
  }

  predicate Present(fields: seq<Field>, j: nat, v: Json)
    requires v.Object? && j < |fields|
  {
    fields[j].required ==> Find(v.members, fields[j].key).Some?
  }

  /** The fields required are there, and every member obeys some field. */
  predicate Table(checks: Checks, fields: seq<Field>, v: Json)
    requires v.Object?
  {
    && (forall j :: 0 <= j < |fields| ==> Present(fields, j, v))
    && (forall i :: 0 <= i < |v.members| ==> MemberObeys(checks, fields, v.members[i]))
  }

  lemma {:induction false} TableIff(checks: Checks, fields: seq<Field>, v: Json)
    requires v.Object? && DistinctMembers(v.members) && DistinctFields(fields)
    ensures KnownKeys(v.members, fields) && FieldsShaped(checks, fields, v) <==> Table(checks, fields, v)
  {
    hide Find, Shaped, DistinctMembers;
    forall j | 0 <= j < |fields|
      ensures Find(v.members, fields[j].key).Some? <==> exists i :: 0 <= i < |v.members| && v.members[i].key == fields[j].key
      ensures forall i :: 0 <= i < |v.members| && v.members[i].key == fields[j].key ==>
                Find(v.members, fields[j].key) == Some(v.members[i].value)
    {
      FindIff(v.members, fields[j].key);
    }
    if KnownKeys(v.members, fields) && FieldsShaped(checks, fields, v) {
      forall i | 0 <= i < |v.members|
        ensures MemberObeys(checks, fields, v.members[i])
      {
        assert HasField(fields, v.members[i].key);
        var j :| 0 <= j < |fields| && fields[j].key == v.members[i].key;
        assert FieldShaped(checks, fields[j], v);
        assert Obeys(checks, fields[j], v.members[i]);
      }
      forall j | 0 <= j < |fields|
        ensures Present(fields, j, v)
      {
        assert FieldShaped(checks, fields[j], v);
      }
    }
    if Table(checks, fields, v) {
      forall j | 0 <= j < |fields|
        ensures FieldShaped(checks, fields[j], v)
      {
        assert Present(fields, j, v);
        if Find(v.members, fields[j].key).Some? {
          var i :| 0 <= i < |v.members| && v.members[i].key == fields[j].key;
          assert MemberObeys(checks, fields, v.members[i]);
          var k :| 0 <= k < |fields| && Obeys(checks, fields[k], v.members[i]);
          assert k == j;
        }
      }
      forall i | 0 <= i < |v.members|
        ensures HasField(fields, v.members[i].key)
      {
        assert MemberObeys(checks, fields, v.members[i]);
        var k :| 0 <= k < |fields| && Obeys(checks, fields[k], v.members[i]);
      }
    }
  }

  lemma {:induction false} NodeTable(checks: Checks, cls: Class, v: Json)
    requires v.Object? && DistinctMembers(v.members)
    ensures NodeShaped(checks, cls, v) <==> FieldsOf(cls, v).Some? && Table(checks, FieldsOf(cls, v).value, v)
  {
    hide FieldsFor, KnownKeys, Table, FieldShaped, DistinctMembers;
    if FieldsOf(cls, v).Some? {
      SchemaDistinct(cls, TagOf(cls, v.members), Products(v.members));
      TableIff(checks, FieldsOf(cls, v).value, v);
    }
  }

  // ----- One field at a time ---------------------------------------------------------------

  lemma {:induction false} AnyField(checks: Checks, fields: seq<Field>, m: Member)
    ensures |fields| == 1 ==> (MemberObeys(checks, fields, m) <==> Obeys(checks, fields[0], m))
    ensures |fields| == 2 ==>
              (MemberObeys(checks, fields, m) <==> Obeys(checks, fields[0], m) || Obeys(checks, fields[1], m))
    ensures |fields| == 3 ==>
              (MemberObeys(checks, fields, m) <==>
               Obeys(checks, fields[0], m) || Obeys(checks, fields[1], m) || Obeys(checks, fields[2], m))
    ensures |fields| == 4 ==>
              (MemberObeys(checks, fields, m) <==>
               || Obeys(checks, fields[0], m) || Obeys(checks, fields[1], m)
               || Obeys(checks, fields[2], m) || Obeys(checks, fields[3], m))
    ensures |fields| == 5 ==>
              (MemberObeys(checks, fields, m) <==>
               || Obeys(checks, fields[0], m) || Obeys(checks, fields[1], m) || Obeys(checks, fields[2], m)
               || Obeys(checks, fields[3], m) || Obeys(checks, fields[4], m))
  {
    hide Obeys;
  }

  /** The lists and documents below `v` are shaped as their places ask. */
  predicate PartsAgree(checks: Checks, v: Json)
    requires v.Object?
  {
    forall i, place :: 0 <= i < |v.members| ==> PartAgrees(checks, v.members[i].value, place)
  }

  predicate PartAgrees(checks: Checks, x: Json, place: Class) {
    && (Shaped(checks, Nodes(place), x) <==> IsList(checks, place, x))
    && (Shaped(checks, Node(place), x) <==> IsPlace(checks, place, x))
  }

  lemma {:induction false} TagRule(checks: Checks, v: Json, i: nat, key: string, word: string)
    requires v.Object? && DistinctMembers(v.members) && Ascii7(key) && Ascii7(word)
    requires Says(v, key, word) && i < |v.members|
    ensures Obeys(checks, Field(Literal(key), OneOf([Literal(word)]), true), v.members[i])
            <==> Spells(v.members[i].key, key)
  {
    hide Find, Spells, Literal, DistinctMembers, Says;
    SaysIff(v, key, word);
    FindIff(v.members, Literal(key));
    SpellsIff(v.members[i].key, key);
  }

  lemma {:induction false} TextRule(checks: Checks, m: Member, key: string, longest: nat, required: bool)
    requires Ascii7(key)
    ensures Obeys(checks, Field(Literal(key), Display(longest), required), m)
            <==> Spells(m.key, key) && IsText(checks, m.value, longest)
  {
    hide Spells, Literal;
    SpellsIff(m.key, key);
  }

  predicate AllAscii(words: seq<string>) {
    forall i :: 0 <= i < |words| ==> Ascii7(words[i])
  }

  function Literals(words: seq<string>): (r: seq<Text>)
    requires AllAscii(words)
    ensures |r| == |words| && forall i :: 0 <= i < |r| ==> Ascii7(words[i]) && r[i] == Literal(words[i])
  {
    seq(|words|, i requires 0 <= i < |words| => assert Ascii7(words[i]); Literal(words[i]))
  }

  lemma {:induction false} WordsIff(x: Json, words: seq<string>)
    requires AllAscii(words)
    ensures IsWord(x, words) <==> x.String? && x.text in Literals(words)
  {
    hide Spells, Literal;
    if x.String? {
      forall i | 0 <= i < |words|
        ensures Spells(x.text, words[i]) <==> x.text == Literals(words)[i]
      {
        SpellsIff(x.text, words[i]);
      }
    }
  }

  lemma {:induction false} WordRule(checks: Checks, m: Member, key: string, words: seq<string>, required: bool)
    requires Ascii7(key) && AllAscii(words)
    ensures Obeys(checks, Field(Literal(key), OneOf(Literals(words)), required), m)
            <==> Spells(m.key, key) && IsWord(m.value, words)
  {
    hide Spells, Literal, IsWord, Literals;
    SpellsIff(m.key, key);
    WordsIff(m.value, words);
  }

  lemma {:induction false} WholeRule(checks: Checks, m: Member, key: string, least: int, most: int, required: bool)
    requires Ascii7(key) && -1000 <= least <= most <= 1000
    ensures Obeys(checks, Field(Literal(key), Whole(least, most), required), m)
            <==> Spells(m.key, key) && IsInteger(m.value, least, most)
  {
    hide Spells, Literal;
    SpellsIff(m.key, key);
  }

  lemma {:induction false} ListRule(checks: Checks, v: Json, i: nat, key: string, place: Class)
    requires v.Object? && i < |v.members| && PartsAgree(checks, v) && Ascii7(key)
    ensures Obeys(checks, Field(Literal(key), Nodes(place), true), v.members[i])
            <==> Spells(v.members[i].key, key) && IsList(checks, place, v.members[i].value)
  {
    hide Spells, Literal, Shaped, IsList, IsPlace;
    SpellsIff(v.members[i].key, key);
    assert PartAgrees(checks, v.members[i].value, place);
  }

  lemma {:induction false} DocumentRule(checks: Checks, v: Json, i: nat, key: string, required: bool)
    requires v.Object? && i < |v.members| && PartsAgree(checks, v) && Ascii7(key)
    ensures Obeys(checks, Field(Literal(key), Node(Document), required), v.members[i])
            <==> Spells(v.members[i].key, key) && IsPlace(checks, Document, v.members[i].value)
  {
    hide Spells, Literal, Shaped, IsList, IsPlace;
    SpellsIff(v.members[i].key, key);
    assert PartAgrees(checks, v.members[i].value, Document);
  }

  lemma {:induction false} PresentUpTo(fields: seq<Field>, v: Json)
    requires v.Object?
    ensures var all := forall j :: 0 <= j < |fields| ==> Present(fields, j, v);
            && (|fields| == 1 ==> (all <==> Present(fields, 0, v)))
            && (|fields| == 2 ==> (all <==> Present(fields, 0, v) && Present(fields, 1, v)))
            && (|fields| == 3 ==> (all <==> Present(fields, 0, v) && Present(fields, 1, v) && Present(fields, 2, v)))
            && (|fields| == 4 ==>
                  (all <==> && Present(fields, 0, v) && Present(fields, 1, v)
                            && Present(fields, 2, v) && Present(fields, 3, v)))
            && (|fields| == 5 ==>
                  (all <==> && Present(fields, 0, v) && Present(fields, 1, v) && Present(fields, 2, v)
                            && Present(fields, 3, v) && Present(fields, 4, v)))
  {
    hide Present;
  }

  /** A key that must be there, and one that need not. */
  lemma {:induction false} PresentIff(fields: seq<Field>, j: nat, v: Json, key: string)
    requires v.Object? && DistinctMembers(v.members) && j < |fields| && Ascii7(key) && fields[j].key == Literal(key)
    ensures Present(fields, j, v) <==> fields[j].required ==> Has(v, key)
  {
    hide Find, Has, DistinctMembers;
    HasIff(v, key);
  }

  lemma {:induction false} SaysHas(v: Json, key: string, word: string)
    requires Says(v, key, word)
    ensures Has(v, key)
  {
  }

  lemma {:induction false} ContentRule(checks: Checks, m: Member, formula: bool)
    ensures Obeys(checks, Required("text", if formula then Formula else Display(MAX_TEXT_LENGTH)), m)
            <==> Spells(m.key, "text") && IsText(checks, m.value, 8000) && (formula ==> checks.formula(m.value.text))
  {
    hide Spells, Literal;
    SpellsIff(m.key, "text");
  }

  lemma {:induction false} LanguageRule(checks: Checks, m: Member, required: bool)
    ensures Obeys(checks, Field(Literal("language"), Languages(), required), m)
            <==> Spells(m.key, "language") && IsLanguage(m.value)
  {
    hide Spells, Obeys, IsWord, Literal;
    var words := ["ar", "en", "und"];
    assert [Literal("ar"), Literal("en"), Literal("und")] == Literals(words);
    WordRule(checks, m, "language", words, required);
  }

  lemma {:induction false} DirectionRule(checks: Checks, m: Member, required: bool)
    ensures Obeys(checks, Field(Literal("direction"), Directions(), required), m)
            <==> Spells(m.key, "direction") && IsDirection(m.value)
  {
    hide Spells, Obeys, IsWord, Literal;
    var words := ["rtl", "ltr", "auto"];
    assert [Literal("rtl"), Literal("ltr"), Literal("auto")] == Literals(words);
    WordRule(checks, m, "direction", words, required);
  }

  lemma {:induction false} DisplayRule(checks: Checks, m: Member, display: string)
    requires Ascii7(display)
    ensures Obeys(checks, Required("display", OneOf([Literal(display)])), m)
            <==> Spells(m.key, "display") && IsWord(m.value, [display])
  {
    hide Spells, Obeys, IsWord, Literal;
    var words := [display];
    assert [Literal(display)] == Literals(words);
    WordRule(checks, m, "display", words, true);
  }

  lemma {:induction false} ArrowRule(checks: Checks, m: Member)
    ensures Obeys(checks, Required("arrow", OneOf([Literal("yields"), Literal("equilibrium")])), m)
            <==> Spells(m.key, "arrow") && IsWord(m.value, ["yields", "equilibrium"])
  {
    hide Spells, Obeys, IsWord, Literal;
    var words := ["yields", "equilibrium"];
    assert [Literal("yields"), Literal("equilibrium")] == Literals(words);
    WordRule(checks, m, "arrow", words, true);
  }

  function AssetKinds(): Kind {
    OneOf([Literal("image"), Literal("audio"), Literal("video"), Literal("document"), Literal("other")])
  }

  lemma {:induction false} AssetKindRule(checks: Checks, m: Member)
    ensures Obeys(checks, Required("kind", AssetKinds()), m)
            <==> Spells(m.key, "kind") && IsWord(m.value, ["image", "audio", "video", "document", "other"])
  {
    hide Spells, Obeys, IsWord, Literal;
    var words := ["image", "audio", "video", "document", "other"];
    assert AssetKinds() == OneOf(Literals(words));
    WordRule(checks, m, "kind", words, true);
  }

  function States(): Kind {
    OneOf([Literal("s"), Literal("l"), Literal("g"), Literal("aq")])
  }

  lemma {:induction false} StateRule(checks: Checks, m: Member)
    ensures Obeys(checks, Optional("state", States()), m)
            <==> Spells(m.key, "state") && IsWord(m.value, ["s", "l", "g", "aq"])
  {
    hide Spells, Obeys, IsWord, Literal;
    var words := ["s", "l", "g", "aq"];
    assert States() == OneOf(Literals(words));
    WordRule(checks, m, "state", words, false);
  }

  lemma {:induction false} UuidRule(checks: Checks, m: Member)
    ensures Obeys(checks, Required("assetId", AssetId), m)
            <==> Spells(m.key, "assetId") && IsUuidText(m.value)
  {
    hide Spells, Literal, IsUuid, IsUuidText;
    SpellsIff(m.key, "assetId");
    if m.value.String? {
      UuidIff(m.value);
    } else {
      assert !IsUuidText(m.value) by { NotText(m.value); }
    }
  }

  lemma {:induction false} NotText(v: Json)
    requires !v.String?
    ensures !IsUuidText(v)
  {
  }

  predicate UuidPlaces(pattern: string) {
    && |pattern| == 36
    && pattern[8] == '-' && pattern[13] == '-' && pattern[18] == '-' && pattern[23] == '-'
    && pattern[14] == 'V' && pattern[19] == 'N'
    && forall i :: 0 <= i < 36 && i !in [8, 13, 14, 18, 19, 23] ==> pattern[i] == 'x'
  }

  lemma PatternPlaces()
    ensures UuidPlaces(UUID_PATTERN)
  {
  }

  lemma {:induction false} UuidIff(v: Json)
    requires v.String?
    ensures IsUuidText(v) <==> IsUuid(v.text)
  {
    PatternPlaces();
    PatternIff(v.text, UUID_PATTERN);
    hide UuidPlaces, IsUuid;
  }

  lemma {:induction false} PatternIff(t: Text, pattern: string)
    requires UuidPlaces(pattern)
    ensures IsUuid(t) <==> |t| == |pattern| && forall i :: 0 <= i < |t| ==> FitsPattern(pattern[i], t[i])
  {
    hide HexUnit;
    forall u: Unit
      ensures FitsPattern('x', u) <==> HexUnit(u)
    {
      HexPlace(u);
    }
    if |t| == 36 {
      HexPlace(t[14]);
      HexPlace(t[19]);
    }
  }

  lemma {:induction false} HexPlace(u: Unit)
    ensures FitsPattern('x', u) <==> HexUnit(u)
    ensures FitsPattern('V', u) || FitsPattern('N', u) ==> HexUnit(u)
  {
  }

  lemma {:induction false} ElementRule(checks: Checks, m: Member)
    ensures Obeys(checks, Required("element", Element), m)
            <==> Spells(m.key, "element") && m.value.String? && checks.element(m.value.text)
  {
    hide Spells, Literal;
    SpellsIff(m.key, "element");
  }

  lemma {:induction false} HasMember(v: Json, i: nat, key: string)
    requires v.Object? && i < |v.members|
    ensures Spells(v.members[i].key, key) ==> Has(v, key)
  {
  }

  // ----- Each shape ------------------------------------------------------------------------

  /** What every shape lemma assumes. */
  predicate Below(checks: Checks, v: Json) {
    v.Object? && DistinctMembers(v.members) && PartsAgree(checks, v)
  }

  lemma {:induction false} FormattedIff(checks: Checks, fields: seq<Field>, v: Json, formula: bool)
    requires Below(checks, v) && Says(v, "type", "text")
    requires fields == [Tagged(Literal("text")),
                        Required("text", if formula then Formula else Display(MAX_TEXT_LENGTH)),
                        Optional("language", Languages()), Optional("direction", Directions())]
    ensures Table(checks, fields, v) <==> IsFormatted(checks, v, formula)
  {
    hide Spells, Says, Has, Present, DistinctMembers, MemberObeys, Obeys, PartsAgree, Literal, IsList, IsPlace, IsText,
      IsWord, IsLanguage, IsDirection, IsUuidText;
    SaysHas(v, "type", "text");
    PresentUpTo(fields, v);
    PresentIff(fields, 0, v, "type");
    PresentIff(fields, 1, v, "text");
    PresentIff(fields, 2, v, "language");
    PresentIff(fields, 3, v, "direction");
    forall i | 0 <= i < |v.members|
      ensures MemberObeys(checks, fields, v.members[i]) <==> FormattedMember(checks, v.members[i], formula)
    {
      var m := v.members[i];
      AnyField(checks, fields, m);
      TagRule(checks, v, i, "type", "text");
      ContentRule(checks, m, formula);
      LanguageRule(checks, m, false);
      DirectionRule(checks, m, false);
    }
  }

  lemma {:induction false} LineBreakIff(checks: Checks, fields: seq<Field>, v: Json)
    requires Below(checks, v) && Says(v, "type", "lineBreak")
    requires fields == [Tagged(Literal("lineBreak"))]
    ensures Table(checks, fields, v) <==> IsLineBreak(v)
  {
    hide Spells, Says, Has, Present, DistinctMembers, MemberObeys, Obeys, PartsAgree, Literal, IsList, IsPlace, IsText,
      IsWord, IsLanguage, IsDirection, IsUuidText;
    SaysHas(v, "type", "lineBreak");
    PresentUpTo(fields, v);
    PresentIff(fields, 0, v, "type");
    forall i | 0 <= i < |v.members|
      ensures MemberObeys(checks, fields, v.members[i]) <==> Spells(v.members[i].key, "type")
    {
      var m := v.members[i];
      AnyField(checks, fields, m);
      TagRule(checks, v, i, "type", "lineBreak");
    }
  }

  lemma {:induction false} ParentIff(checks: Checks, fields: seq<Field>, v: Json, word: string, place: Class)
    requires Below(checks, v) && Ascii7(word) && Says(v, "type", word)
    requires fields == [Tagged(Literal(word)), Required("children", Nodes(place))]
    ensures Table(checks, fields, v) <==> IsParent(checks, v, word, place)
  {
    hide Spells, Says, Has, Present, DistinctMembers, MemberObeys, Obeys, PartsAgree, Literal, IsList, IsPlace, IsText,
      IsWord, IsLanguage, IsDirection, IsUuidText;
    SaysHas(v, "type", word);
    PresentUpTo(fields, v);
    PresentIff(fields, 0, v, "type");
    PresentIff(fields, 1, v, "children");
    forall i | 0 <= i < |v.members|
      ensures MemberObeys(checks, fields, v.members[i]) <==> ParentMember(checks, v.members[i], place)
    {
      var m := v.members[i];
      AnyField(checks, fields, m);
      TagRule(checks, v, i, "type", word);
      ListRule(checks, v, i, "children", place);
    }
  }

  lemma {:induction false} FractionIff(checks: Checks, fields: seq<Field>, v: Json)
    requires Below(checks, v) && Says(v, "type", "fraction")
    requires fields == [Tagged(Literal("fraction")), Required("numerator", Nodes(Expression)),
                        Required("denominator", Nodes(Expression))]
    ensures Table(checks, fields, v) <==> IsFraction(checks, v)
  {
    hide Spells, Says, Has, Present, DistinctMembers, MemberObeys, Obeys, PartsAgree, Literal, IsList, IsPlace, IsText,
      IsWord, IsLanguage, IsDirection, IsUuidText;
    SaysHas(v, "type", "fraction");
    PresentUpTo(fields, v);
    PresentIff(fields, 0, v, "type");
    PresentIff(fields, 1, v, "numerator");
    PresentIff(fields, 2, v, "denominator");
    forall i | 0 <= i < |v.members|
      ensures MemberObeys(checks, fields, v.members[i]) <==> FractionMember(checks, v.members[i])
    {
      var m := v.members[i];
      AnyField(checks, fields, m);
      TagRule(checks, v, i, "type", "fraction");
      ListRule(checks, v, i, "numerator", Expression);
      ListRule(checks, v, i, "denominator", Expression);
    }
  }

  lemma {:induction false} RadicalIff(checks: Checks, fields: seq<Field>, v: Json)
    requires Below(checks, v) && Says(v, "type", "radical")
    requires fields == [Tagged(Literal("radical")), Required("radicand", Nodes(Expression)),
                        Optional("degree", Whole(2, 16))]
    ensures Table(checks, fields, v) <==> IsRadical(checks, v)
  {
    hide Spells, Says, Has, Present, DistinctMembers, MemberObeys, Obeys, PartsAgree, Literal, IsList, IsPlace, IsText,
      IsWord, IsLanguage, IsDirection, IsUuidText;
    SaysHas(v, "type", "radical");
    PresentUpTo(fields, v);
    PresentIff(fields, 0, v, "type");
    PresentIff(fields, 1, v, "radicand");
    PresentIff(fields, 2, v, "degree");
    forall i | 0 <= i < |v.members|
      ensures MemberObeys(checks, fields, v.members[i]) <==> RadicalMember(checks, v.members[i])
    {
      var m := v.members[i];
      AnyField(checks, fields, m);
      TagRule(checks, v, i, "type", "radical");
      ListRule(checks, v, i, "radicand", Expression);
      WholeRule(checks, m, "degree", 2, 16, false);
    }
  }

  lemma {:induction false} MathIff(checks: Checks, fields: seq<Field>, v: Json, display: string)
    requires Below(checks, v) && Says(v, "type", "math")
    requires Ascii7(display)
    requires fields == [Tagged(Literal("math")), Required("display", OneOf([Literal(display)])),
                        Required("children", Nodes(Expression)),
                        Required("altText", Display(MAX_ACCESSIBLE_TEXT_LENGTH))]
    ensures Table(checks, fields, v) <==> IsMath(checks, v, display)
  {
    hide Spells, Says, Has, Present, DistinctMembers, MemberObeys, Obeys, PartsAgree, Literal, IsList, IsPlace, IsText,
      IsWord, IsLanguage, IsDirection, IsUuidText;
    SaysHas(v, "type", "math");
    PresentUpTo(fields, v);
    PresentIff(fields, 0, v, "type");
    PresentIff(fields, 1, v, "display");
    PresentIff(fields, 2, v, "children");
    PresentIff(fields, 3, v, "altText");
    forall i | 0 <= i < |v.members|
      ensures MemberObeys(checks, fields, v.members[i]) <==> MathMember(checks, v.members[i], display)
    {
      var m := v.members[i];
      AnyField(checks, fields, m);
      TagRule(checks, v, i, "type", "math");
      DisplayRule(checks, m, display);
      ListRule(checks, v, i, "children", Expression);
      TextRule(checks, m, "altText", MAX_ACCESSIBLE_TEXT_LENGTH, true);
    }
  }

  lemma {:induction false} ReactionIff(checks: Checks, fields: seq<Field>, v: Json)
    requires Below(checks, v) && Says(v, "type", "chemistry") && Has(v, "products")
    requires fields == [Tagged(Literal("chemistry")), Required("reactants", Nodes(Species)),
                        Required("altText", Display(MAX_ACCESSIBLE_TEXT_LENGTH)),
                        Required("products", Nodes(Species)),
                        Required("arrow", OneOf([Literal("yields"), Literal("equilibrium")]))]
    ensures Table(checks, fields, v) <==> IsChemistry(checks, v)
  {
    hide Spells, Says, Has, Present, DistinctMembers, MemberObeys, Obeys, PartsAgree, Literal, IsList, IsPlace, IsText,
      IsWord, IsLanguage, IsDirection, IsUuidText;
    SaysHas(v, "type", "chemistry");
    PresentUpTo(fields, v);
    PresentIff(fields, 0, v, "type");
    PresentIff(fields, 1, v, "reactants");
    PresentIff(fields, 2, v, "altText");
    PresentIff(fields, 3, v, "products");
    PresentIff(fields, 4, v, "arrow");
    forall i | 0 <= i < |v.members|
      ensures MemberObeys(checks, fields, v.members[i]) <==> ChemistryMember(checks, v.members[i])
    {
      var m := v.members[i];
      AnyField(checks, fields, m);
      TagRule(checks, v, i, "type", "chemistry");
      ListRule(checks, v, i, "reactants", Species);
      TextRule(checks, m, "altText", MAX_ACCESSIBLE_TEXT_LENGTH, true);
      ListRule(checks, v, i, "products", Species);
      ArrowRule(checks, m);
    }
  }

  lemma {:induction false} ReactantsIff(checks: Checks, fields: seq<Field>, v: Json)
    requires Below(checks, v) && Says(v, "type", "chemistry") && !Has(v, "products") && !Has(v, "arrow")
    requires fields == [Tagged(Literal("chemistry")), Required("reactants", Nodes(Species)),
                        Required("altText", Display(MAX_ACCESSIBLE_TEXT_LENGTH))]
    ensures Table(checks, fields, v) <==> IsChemistry(checks, v)
  {
    hide Spells, Says, Has, Present, DistinctMembers, MemberObeys, Obeys, PartsAgree, Literal, IsList, IsPlace, IsText,
      IsWord, IsLanguage, IsDirection, IsUuidText;
    SaysHas(v, "type", "chemistry");
    PresentUpTo(fields, v);
    PresentIff(fields, 0, v, "type");
    PresentIff(fields, 1, v, "reactants");
    PresentIff(fields, 2, v, "altText");
    forall i | 0 <= i < |v.members|
      ensures MemberObeys(checks, fields, v.members[i]) <==> ChemistryMember(checks, v.members[i])
    {
      var m := v.members[i];
      AnyField(checks, fields, m);
      TagRule(checks, v, i, "type", "chemistry");
      ListRule(checks, v, i, "reactants", Species);
      TextRule(checks, m, "altText", MAX_ACCESSIBLE_TEXT_LENGTH, true);
      HasMember(v, i, "products");
      HasMember(v, i, "arrow");
    }
  }

  lemma {:induction false} AssetIff(checks: Checks, fields: seq<Field>, v: Json)
    requires Below(checks, v) && Says(v, "type", "assetReference")
    requires fields == [Tagged(Literal("assetReference")), Required("assetId", AssetId),
                        Required("kind", AssetKinds()), Required("altText", Display(MAX_ACCESSIBLE_TEXT_LENGTH)),
                        Optional("caption", Display(MAX_ACCESSIBLE_TEXT_LENGTH))]
    ensures Table(checks, fields, v) <==> IsAsset(checks, v)
  {
    hide Spells, Says, Has, Present, DistinctMembers, MemberObeys, Obeys, PartsAgree, Literal, IsList, IsPlace, IsText,
      IsWord, IsLanguage, IsDirection, IsUuidText;
    SaysHas(v, "type", "assetReference");
    PresentUpTo(fields, v);
    PresentIff(fields, 0, v, "type");
    PresentIff(fields, 1, v, "assetId");
    PresentIff(fields, 2, v, "kind");
    PresentIff(fields, 3, v, "altText");
    PresentIff(fields, 4, v, "caption");
    forall i | 0 <= i < |v.members|
      ensures MemberObeys(checks, fields, v.members[i]) <==> AssetMember(checks, v.members[i])
    {
      var m := v.members[i];
      AnyField(checks, fields, m);
      TagRule(checks, v, i, "type", "assetReference");
      UuidRule(checks, m);
      AssetKindRule(checks, m);
      TextRule(checks, m, "altText", MAX_ACCESSIBLE_TEXT_LENGTH, true);
      TextRule(checks, m, "caption", MAX_ACCESSIBLE_TEXT_LENGTH, false);
    }
  }

  lemma {:induction false} SpeciesIff(checks: Checks, fields: seq<Field>, v: Json)
    requires Below(checks, v)
    requires fields == [Required("coefficient", Whole(1, 999)), Required("elements", Nodes(Part)),
                        Optional("charge", Whole(-8, 8)), Optional("state", States())]
    ensures Table(checks, fields, v) <==> IsSpecies(checks, v)
  {
    hide Spells, Says, Has, Present, DistinctMembers, MemberObeys, Obeys, PartsAgree, Literal, IsList, IsPlace, IsText,
      IsWord, IsLanguage, IsDirection, IsUuidText;
    PresentUpTo(fields, v);
    PresentIff(fields, 0, v, "coefficient");
    PresentIff(fields, 1, v, "elements");
    PresentIff(fields, 2, v, "charge");
    PresentIff(fields, 3, v, "state");
    forall i | 0 <= i < |v.members|
      ensures MemberObeys(checks, fields, v.members[i]) <==> SpeciesMember(checks, v.members[i])
    {
      var m := v.members[i];
      AnyField(checks, fields, m);
      WholeRule(checks, m, "coefficient", 1, 999, true);
      ListRule(checks, v, i, "elements", Part);
      WholeRule(checks, m, "charge", -8, 8, false);
      StateRule(checks, m);
    }
  }

  lemma {:induction false} PartIff(checks: Checks, fields: seq<Field>, v: Json)
    requires Below(checks, v)
    requires fields == [Required("element", Element), Required("count", Whole(1, 999))]
    ensures Table(checks, fields, v) <==> IsPart(checks, v)
  {
    hide Spells, Says, Has, Present, DistinctMembers, MemberObeys, Obeys, PartsAgree, Literal, IsList, IsPlace, IsText,
      IsWord, IsLanguage, IsDirection, IsUuidText;
    PresentUpTo(fields, v);
    PresentIff(fields, 0, v, "element");
    PresentIff(fields, 1, v, "count");
    forall i | 0 <= i < |v.members|
      ensures MemberObeys(checks, fields, v.members[i]) <==> PartMember(checks, v.members[i])
    {
      var m := v.members[i];
      AnyField(checks, fields, m);
      ElementRule(checks, m);
      WholeRule(checks, m, "count", 1, 999, true);
    }
  }

  lemma {:induction false} DocumentIff(checks: Checks, fields: seq<Field>, v: Json)
    requires Below(checks, v)
    requires fields == [Required("language", Languages()), Required("direction", Directions()),
                        Required("blocks", Nodes(Block))]
    ensures Table(checks, fields, v) <==> IsDocument(checks, v)
  {
    hide Spells, Says, Has, Present, DistinctMembers, MemberObeys, Obeys, PartsAgree, Literal, IsList, IsPlace, IsText,
      IsWord, IsLanguage, IsDirection, IsUuidText;
    PresentUpTo(fields, v);
    PresentIff(fields, 0, v, "language");
    PresentIff(fields, 1, v, "direction");
    PresentIff(fields, 2, v, "blocks");
    forall i | 0 <= i < |v.members|
      ensures MemberObeys(checks, fields, v.members[i]) <==> DocumentMember(checks, v.members[i])
    {
      var m := v.members[i];
      AnyField(checks, fields, m);
      LanguageRule(checks, m, true);
      DirectionRule(checks, m, true);
      ListRule(checks, v, i, "blocks", Block);
    }
  }

  lemma {:induction false} QuestionIff(checks: Checks, fields: seq<Field>, v: Json)
    requires Below(checks, v) && Says(v, "kind", "question")
    requires fields == [Required("contentVersion", Whole(1, 1)), Required("kind", OneOf([Literal("question")])),
                        Required("stem", Node(Document)), Optional("instructions", Node(Document)),
                        Optional("stemAr", Node(Document))]
    ensures Table(checks, fields, v) <==> IsQuestion(checks, v)
  {
    hide Spells, Says, Has, Present, DistinctMembers, MemberObeys, Obeys, PartsAgree, Literal, IsList, IsPlace, IsText,
      IsWord, IsLanguage, IsDirection, IsUuidText;
    SaysHas(v, "kind", "question");
    PresentUpTo(fields, v);
    PresentIff(fields, 0, v, "contentVersion");
    PresentIff(fields, 1, v, "kind");
    PresentIff(fields, 2, v, "stem");
    PresentIff(fields, 3, v, "instructions");
    PresentIff(fields, 4, v, "stemAr");
    forall i | 0 <= i < |v.members|
      ensures MemberObeys(checks, fields, v.members[i]) <==> QuestionMember(checks, v.members[i])
    {
      var m := v.members[i];
      AnyField(checks, fields, m);
      WholeRule(checks, m, "contentVersion", 1, 1, true);
      TagRule(checks, v, i, "kind", "question");
      DocumentRule(checks, v, i, "stem", true);
      DocumentRule(checks, v, i, "instructions", false);
      DocumentRule(checks, v, i, "stemAr", false);
    }
  }

  lemma {:induction false} OptionIff(checks: Checks, fields: seq<Field>, v: Json)
    requires Below(checks, v) && Says(v, "kind", "option")
    requires fields == [Required("contentVersion", Whole(1, 1)), Required("kind", OneOf([Literal("option")])),
                        Required("label", Node(Document)), Optional("labelAr", Node(Document))]
    ensures Table(checks, fields, v) <==> IsOption(checks, v)
  {
    hide Spells, Says, Has, Present, DistinctMembers, MemberObeys, Obeys, PartsAgree, Literal, IsList, IsPlace, IsText,
      IsWord, IsLanguage, IsDirection, IsUuidText;
    SaysHas(v, "kind", "option");
    PresentUpTo(fields, v);
    PresentIff(fields, 0, v, "contentVersion");
    PresentIff(fields, 1, v, "kind");
    PresentIff(fields, 2, v, "label");
    PresentIff(fields, 3, v, "labelAr");
    forall i | 0 <= i < |v.members|
      ensures MemberObeys(checks, fields, v.members[i]) <==> OptionMember(checks, v.members[i])
    {
      var m := v.members[i];
      AnyField(checks, fields, m);
      WholeRule(checks, m, "contentVersion", 1, 1, true);
      TagRule(checks, v, i, "kind", "option");
      DocumentRule(checks, v, i, "label", true);
      DocumentRule(checks, v, i, "labelAr", false);
    }
  }

  // ----- Each place ------------------------------------------------------------------------

  /** The shape a node has by the schema is the shape its place asks for. */
  predicate PlaceAgrees(checks: Checks, place: Class, v: Json)
    requires v.Object?
  {
    IsPlace(checks, place, v) <==> FieldsOf(place, v).Some? && Table(checks, FieldsOf(place, v).value, v)
  }

  /** A node's tag is the word it says. */
  lemma {:induction false} TagSays(place: Class, v: Json, key: string, word: string)
    requires v.Object? && DistinctMembers(v.members) && Ascii7(key) && Ascii7(word) && TagKey(place) == Some(Literal(key))
    ensures Says(v, key, word) <==> TagOf(place, v.members) == Some(Literal(word))
  {
    hide Says, Find, Literal, DistinctMembers;
    SaysIff(v, key, word);
  }

  /** It says only one. */
  lemma {:induction false} SaysOne(v: Json, key: string, word: string)
    requires v.Object? && DistinctMembers(v.members) && Says(v, key, word)
    ensures forall other: string :: Says(v, key, other) ==> other == word
  {
    forall other: string | Says(v, key, other)
      ensures other == word
    {
      var i :| 0 <= i < |v.members| && Spells(v.members[i].key, key) && IsWord(v.members[i].value, [word]);
      var j :| 0 <= j < |v.members| && Spells(v.members[j].key, key) && IsWord(v.members[j].value, [other]);
      assert v.members[i].key == v.members[j].key;
      assert i == j;
      SpellsOne(v.members[i].value.text, word, other);
    }
  }

  lemma {:induction false} SpellsOne(t: Text, a: string, b: string)
    requires Spells(t, a) && Spells(t, b)
    ensures a == b
  {
    assert forall k :: 0 <= k < |a| ==> a[k] == b[k];
  }

  /** Where the words that tell nodes apart differ, if not in their lengths. */
  lemma TypeWords()
    ensures Literal("text")[0] == 116 && Literal("math")[0] == 109
    ensures Literal("lineBreak")[0] == 108 && Literal("subscript")[0] == 115
    ensures Literal("chemistry")[0] == 99 && Literal("paragraph")[0] == 112
    ensures Literal("emphasis")[0] == 101 && Literal("fraction")[0] == 102
  {
  }

  lemma {:induction false} EnvelopeKinds(v: Json)
    requires v.Object? && DistinctMembers(v.members)
    ensures var question, option := Says(v, "kind", "question"), Says(v, "kind", "option");
            && !(question && option)
            && FieldsOf(Envelope, v) == (if question then EnvelopeFields(Literal("question"))
                                         else if option then EnvelopeFields(Literal("option"))
                                         else None)
  {
    hide Says, DistinctMembers, Literal, TagOf;
    TagSays(Envelope, v, "kind", "question");
    TagSays(Envelope, v, "kind", "option");
    assert |Literal("question")| != |Literal("option")|;
  }

  lemma {:induction false} EnvelopeAgrees(checks: Checks, v: Json)
    requires Below(checks, v)
    ensures PlaceAgrees(checks, Envelope, v)
  {
    hide Says, Has, DistinctMembers, PartsAgree, Table, QuestionMember, OptionMember, Literal, FieldsOf, Spells;
    EnvelopeKinds(v);
    assert IsQuestion(checks, v) ==> Says(v, "kind", "question");
    assert IsOption(checks, v) ==> Says(v, "kind", "option");
    if Says(v, "kind", "question") {
      QuestionIff(checks, FieldsOf(Envelope, v).value, v);
    } else if Says(v, "kind", "option") {
      OptionIff(checks, FieldsOf(Envelope, v).value, v);
    }
  }

  lemma {:induction false} PlainAgrees(checks: Checks, place: Class, v: Json)
    requires Below(checks, v) && (place == Document || place == Species || place == Part)
    ensures PlaceAgrees(checks, place, v)
  {
    hide Has, DistinctMembers, PartsAgree, Table, DocumentMember, SpeciesMember, PartMember, Literal, Spells;
    match place
    case Document => DocumentIff(checks, DocumentFields(), v);
    case Species => SpeciesIff(checks, SpeciesFields(), v);
    case Part => PartIff(checks, PartFields(), v);
  }

  lemma {:induction false} BlockKinds(v: Json)
    requires v.Object? && DistinctMembers(v.members)
    ensures var paragraph, math := Says(v, "type", "paragraph"), Says(v, "type", "math");
            && !(paragraph && math)
            && FieldsOf(Block, v) == (if paragraph then BlockFields(Literal("paragraph"))
                                      else if math then BlockFields(Literal("math"))
                                      else None)
  {
    hide Says, DistinctMembers, Literal, TagOf;
    TagSays(Block, v, "type", "paragraph");
    TagSays(Block, v, "type", "math");
    assert |Literal("paragraph")| != |Literal("math")|;
  }

  lemma {:induction false} BlockAgrees(checks: Checks, v: Json)
    requires Below(checks, v)
    ensures PlaceAgrees(checks, Block, v)
  {
    hide Says, Has, DistinctMembers, PartsAgree, Table, ParentMember, MathMember, Literal, FieldsOf, Spells;
    BlockKinds(v);
    assert |Literal("paragraph")| != |Literal("math")|;
    assert IsParent(checks, v, "paragraph", Inline) ==> Says(v, "type", "paragraph");
    assert IsMath(checks, v, "block") ==> Says(v, "type", "math");
    if Says(v, "type", "paragraph") {
      ParentIff(checks, FieldsOf(Block, v).value, v, "paragraph", Inline);
    } else if Says(v, "type", "math") {
      MathIff(checks, FieldsOf(Block, v).value, v, "block");
    }
  }

  const CONSTRUCTS := ["subscript", "superscript", "fraction", "radical"]

  /** The fields of a script, a fraction or a root. */
  lemma {:induction false} ConstructAgrees(checks: Checks, v: Json, word: string)
    requires Below(checks, v) && word in CONSTRUCTS && Says(v, "type", word)
    ensures Ascii7(word) && RichSchema.IsExpression(Literal(word)) && ExpressionFields(Literal(word)).Some?
    ensures Table(checks, ExpressionFields(Literal(word)).value, v) <==> IsConstruct(checks, v)
  {
    hide Says, Has, DistinctMembers, PartsAgree, Table, ParentMember, FractionMember, RadicalMember, Literal, Spells;
    SaysOne(v, "type", word);
    ConstructFields(word);
    assert IsParent(checks, v, "subscript", Expression) ==> Says(v, "type", "subscript");
    assert IsParent(checks, v, "superscript", Expression) ==> Says(v, "type", "superscript");
    assert IsFraction(checks, v) ==> Says(v, "type", "fraction");
    assert IsRadical(checks, v) ==> Says(v, "type", "radical");
    var fields := ExpressionFields(Literal(word)).value;
    if word == "fraction" {
      FractionIff(checks, fields, v);
    } else if word == "radical" {
      RadicalIff(checks, fields, v);
    } else {
      ParentIff(checks, fields, v, word, Expression);
    }
  }

  lemma {:induction false} ConstructFields(word: string)
    requires word in CONSTRUCTS
    ensures Ascii7(word) && RichSchema.IsExpression(Literal(word))
    ensures ExpressionFields(Literal(word)) == Some(
              if word == "fraction" then [Tagged(Literal(word)), Required("numerator", Nodes(Expression)),
                                          Required("denominator", Nodes(Expression))]
              else if word == "radical" then [Tagged(Literal(word)), Required("radicand", Nodes(Expression)),
                                              Optional("degree", Whole(2, 16))]
              else [Tagged(Literal(word)), Required("children", Nodes(Expression))])
  {
    hide Literal;
    TypeWords();
  }

  /** The word a node says chooses its fields. */
  lemma {:induction false} FieldsOfWord(place: Class, v: Json, word: string)
    requires v.Object? && DistinctMembers(v.members) && Ascii7(word) && TagKey(place) == Some(Literal("type"))
    requires Says(v, "type", word)
    ensures FieldsOf(place, v) == FieldsFor(place, Some(Literal(word)), Products(v.members))
  {
    hide Says, DistinctMembers, Literal, TagOf, FieldsFor, Products;
    TagSays(place, v, "type", word);
  }

  predicate SaysConstruct(v: Json) {
    || Says(v, "type", "subscript") || Says(v, "type", "superscript")
    || Says(v, "type", "fraction") || Says(v, "type", "radical")
  }

  lemma {:induction false} ConstructSays(checks: Checks, v: Json)
    ensures IsConstruct(checks, v) ==> SaysConstruct(v)
  {
    hide Says;
    assert IsParent(checks, v, "subscript", Expression) ==> Says(v, "type", "subscript");
    assert IsParent(checks, v, "superscript", Expression) ==> Says(v, "type", "superscript");
    assert IsFraction(checks, v) ==> Says(v, "type", "fraction");
    assert IsRadical(checks, v) ==> Says(v, "type", "radical");
  }

  /** A node that says it is a construct is one exactly if its fields are. */
  lemma {:induction false} ConstructCases(checks: Checks, place: Class, v: Json)
    requires Below(checks, v) && SaysConstruct(v) && (place == Expression || place == Inline)
    ensures FieldsOf(place, v).Some? && (Table(checks, FieldsOf(place, v).value, v) <==> IsConstruct(checks, v))
  {
    hide Says, Below, Table, IsConstruct, FieldsOf;
    if Says(v, "type", "subscript") {
      ConstructCase(checks, place, v, CONSTRUCTS[0]);
    } else if Says(v, "type", "superscript") {
      ConstructCase(checks, place, v, CONSTRUCTS[1]);
    } else if Says(v, "type", "fraction") {
      ConstructCase(checks, place, v, CONSTRUCTS[2]);
    } else {
      ConstructCase(checks, place, v, CONSTRUCTS[3]);
    }
  }

  lemma {:induction false} ConstructCase(checks: Checks, place: Class, v: Json, word: string)
    requires Below(checks, v) && word in CONSTRUCTS && Says(v, "type", word) && (place == Expression || place == Inline)
    ensures FieldsOf(place, v).Some? && (Table(checks, FieldsOf(place, v).value, v) <==> IsConstruct(checks, v))
  {
    hide Says, DistinctMembers, PartsAgree, Table, Literal, IsConstruct, FieldsOf, ExpressionFields;
    ConstructAgrees(checks, v, word);
    FieldsOfWord(place, v, word);
    ConstructInline(word, Products(v.members));
  }

  lemma {:induction false} ConstructInline(word: string, products: bool)
    requires word in CONSTRUCTS
    ensures Ascii7(word) && InlineFields(Literal(word), products) == ExpressionFields(Literal(word))
  {
    hide Literal, ExpressionFields;
    ConstructFields(word);
    TypeWords();
  }

  lemma {:induction false} ExpressionTag(v: Json)
    requires v.Object? && DistinctMembers(v.members) && FieldsOf(Expression, v).Some?
    ensures Says(v, "type", "text") || SaysConstruct(v)
  {
    hide Says, DistinctMembers, Literal, TagOf, TextFields;
    TagSays(Expression, v, "type", "text");
    TagSays(Expression, v, "type", "subscript");
    TagSays(Expression, v, "type", "superscript");
    TagSays(Expression, v, "type", "fraction");
    TagSays(Expression, v, "type", "radical");
  }

  lemma {:induction false} ExpressionAgrees(checks: Checks, v: Json)
    requires Below(checks, v)
    ensures PlaceAgrees(checks, Expression, v)
  {
    hide Says, Has, DistinctMembers, PartsAgree, Table, FormattedMember, Literal, FieldsOf, Spells, IsConstruct;
    ConstructSays(checks, v);
    if Says(v, "type", "text") {
      SaysOne(v, "type", "text");
      FieldsOfWord(Expression, v, "text");
      FormattedIff(checks, FieldsOf(Expression, v).value, v, true);
    } else {
      if SaysConstruct(v) {
        ConstructCases(checks, Expression, v);
      } else if FieldsOf(Expression, v).Some? {
        ExpressionTag(v);
      }
    }
  }

  /** Without products, a chemistry node with an arrow is refused. */
  lemma {:induction false} NoArrow(checks: Checks, v: Json, i: nat)
    requires v.Object? && i < |v.members| && Spells(v.members[i].key, "arrow")
    ensures !MemberObeys(checks, ChemistryFields(Literal("chemistry"), false), v.members[i])
  {
    hide Spells, Literal, Shaped;
    SpellsIff(v.members[i].key, "arrow");
    assert |Literal("arrow")| == 5 && |Literal("type")| == 4 && |Literal("reactants")| == 9 && |Literal("altText")| == 7;
  }

  lemma {:induction false} ChemistryIff(checks: Checks, v: Json)
    requires Below(checks, v) && Says(v, "type", "chemistry")
    ensures Table(checks, ChemistryFields(Literal("chemistry"), Products(v.members)), v) <==> IsChemistry(checks, v)
  {
    hide Says, DistinctMembers, PartsAgree, Table, ChemistryMember, Literal, Spells, MemberObeys;
    HasIff(v, "products");
    var fields := ChemistryFields(Literal("chemistry"), Products(v.members));
    if Has(v, "products") {
      ReactionIff(checks, fields, v);
    } else if !Has(v, "arrow") {
      ReactantsIff(checks, fields, v);
    } else {
      var i :| 0 <= i < |v.members| && Spells(v.members[i].key, "arrow");
      NoArrow(checks, v, i);
      TableMember(checks, fields, v, i);
    }
  }

  lemma {:induction false} TableMember(checks: Checks, fields: seq<Field>, v: Json, i: nat)
    requires v.Object? && i < |v.members| && !MemberObeys(checks, fields, v.members[i])
    ensures !Table(checks, fields, v)
  {
    hide MemberObeys;
  }

  /** What a line may hold besides constructs, by what the node says. */
  predicate IsOther(checks: Checks, v: Json, word: string) {
    || (word == "text" && IsFormatted(checks, v, false))
    || (word == "lineBreak" && IsLineBreak(v))
    || (word in ["strong", "emphasis"] && IsParent(checks, v, word, Inline))
    || (word == "math" && IsMath(checks, v, "inline"))
    || (word == "chemistry" && IsChemistry(checks, v))
    || (word == "assetReference" && IsAsset(checks, v))
  }

  const OTHERS := ["text", "lineBreak", "strong", "emphasis", "math", "chemistry", "assetReference"]

  lemma {:induction false} InlineFieldsOther(word: string, products: bool)
    requires word in OTHERS
    ensures Ascii7(word)
    ensures InlineFields(Literal(word), products) == Some(
              if word == "text" then TextFields(Literal(word), Display(MAX_TEXT_LENGTH))
              else if word == "lineBreak" then [Tagged(Literal(word))]
              else if word == "math" then MathFields(Literal(word), "inline")
              else if word == "chemistry" then ChemistryFields(Literal(word), products)
              else if word == "assetReference" then AssetFields(Literal(word))
              else [Tagged(Literal(word)), Required("children", Nodes(Inline))])
  {
    hide Literal, TextFields, MathFields, ChemistryFields, AssetFields, ExpressionFields;
    TypeWords();
    if word == "text" {
    } else if word == "lineBreak" {
    } else if word == "strong" {
    } else if word == "emphasis" {
    } else if word == "math" {
    } else if word == "chemistry" {
    }
  }

  lemma {:induction false} OtherIff(checks: Checks, v: Json, word: string)
    requires Below(checks, v) && word in OTHERS && Says(v, "type", word)
    ensures FieldsOf(Inline, v).Some? && (Table(checks, FieldsOf(Inline, v).value, v) <==> IsOther(checks, v, word))
  {
    hide Says, Has, DistinctMembers, PartsAgree, Table, Literal, Spells, FieldsOf, InlineFields,
      IsFormatted, IsLineBreak, IsParent, IsMath, IsChemistry, IsAsset;
    InlineFieldsOther(word, Products(v.members));
    FieldsOfWord(Inline, v, word);
    var fields := FieldsOf(Inline, v).value;
    if word == "text" {
      FormattedIff(checks, fields, v, false);
    } else if word == "lineBreak" {
      LineBreakIff(checks, fields, v);
    } else if word == "math" {
      MathIff(checks, fields, v, "inline");
    } else if word == "chemistry" {
      ChemistryIff(checks, v);
    } else if word == "assetReference" {
      AssetIff(checks, fields, v);
    } else {
      ParentIff(checks, fields, v, word, Inline);
    }
  }

  lemma {:induction false} OtherSays(checks: Checks, v: Json, word: string)
    requires IsOther(checks, v, word)
    ensures word in OTHERS && Says(v, "type", word)
  {
    hide Says, Has;
  }

  lemma {:induction false} InlineCases(checks: Checks, v: Json)
    ensures IsPlace(checks, Inline, v) <==> IsConstruct(checks, v) || exists word: string :: IsOther(checks, v, word)
  {
    hide IsFormatted, IsLineBreak, IsParent, IsMath, IsChemistry, IsAsset, IsConstruct;
    if IsPlace(checks, Inline, v) && !IsConstruct(checks, v) {
      assert || IsOther(checks, v, "text") || IsOther(checks, v, "lineBreak") || IsOther(checks, v, "strong")
             || IsOther(checks, v, "emphasis") || IsOther(checks, v, "math") || IsOther(checks, v, "chemistry")
             || IsOther(checks, v, "assetReference");
    }
  }

  /** A tag that chooses the fields of a line's node is one of the words. */
  lemma {:induction false} InlineTag(v: Json) returns (word: string)
    requires v.Object? && DistinctMembers(v.members) && FieldsOf(Inline, v).Some?
    ensures Says(v, "type", word) && (word in OTHERS || SaysConstruct(v))
  {
    hide Says, DistinctMembers, Literal, TagOf, TextFields, MathFields, ChemistryFields, AssetFields, ExpressionFields;
    word := TagWord(TagOf(Inline, v.members).value, Products(v.members));
    TagSays(Inline, v, "type", word);
  }

  lemma {:induction false} TagWord(tag: Text, products: bool) returns (word: string)
    requires InlineFields(tag, products).Some?
    ensures Ascii7(word) && tag == Literal(word)
    ensures word in OTHERS || word in CONSTRUCTS
  {
    if RichSchema.IsExpression(tag) {
      word := ConstructWord(tag);
    } else {
      word := OtherWord(tag, products);
    }
  }

  lemma {:induction false} ConstructWord(tag: Text) returns (word: string)
    requires RichSchema.IsExpression(tag)
    ensures Ascii7(word) && tag == Literal(word) && word in CONSTRUCTS
  {
    hide Literal;
    if tag == Literal("subscript") {
      word := CONSTRUCTS[0];
    } else if tag == Literal("superscript") {
      word := CONSTRUCTS[1];
    } else if tag == Literal("fraction") {
      word := CONSTRUCTS[2];
    } else {
      word := CONSTRUCTS[3];
    }
  }

  lemma {:induction false} OtherWord(tag: Text, products: bool) returns (word: string)
    requires InlineFields(tag, products).Some? && !RichSchema.IsExpression(tag)
    ensures Ascii7(word) && tag == Literal(word) && word in OTHERS
  {
    hide Literal, RichSchema.IsExpression, TextFields, MathFields, ChemistryFields, AssetFields, ExpressionFields;
    if tag == Literal("text") {
      word := OTHERS[0];
    } else if tag == Literal("lineBreak") {
      word := OTHERS[1];
    } else if tag == Literal("strong") {
      word := OTHERS[2];
    } else if tag == Literal("emphasis") {
      word := OTHERS[3];
    } else if tag == Literal("math") {
      word := OTHERS[4];
    } else if tag == Literal("chemistry") {
      word := OTHERS[5];
    } else {
      word := OTHERS[6];
    }
  }

  lemma {:induction false} InlineAgrees(checks: Checks, v: Json)
    requires Below(checks, v)
    ensures PlaceAgrees(checks, Inline, v)
  {
    hide Says, Has, DistinctMembers, PartsAgree, Table, Literal, FieldsOf, Spells, IsConstruct, IsOther, IsPlace;
    ConstructSays(checks, v);
    InlineCases(checks, v);
    forall word: string | IsOther(checks, v, word)
      ensures word in OTHERS && Says(v, "type", word)
    {
      OtherSays(checks, v, word);
    }
    if FieldsOf(Inline, v).Some? || IsPlace(checks, Inline, v) {
      if SaysConstruct(v) {
        InlineConstruct(checks, v);
      } else {
        var word: string;
        if FieldsOf(Inline, v).Some? {
          word := InlineTag(v);
        } else {
          word :| IsOther(checks, v, word);
        }
        OtherIff(checks, v, word);
        SaysOne(v, "type", word);
      }
    }
  }

  lemma {:induction false} InlineConstruct(checks: Checks, v: Json)
    requires Below(checks, v) && SaysConstruct(v)
    ensures PlaceAgrees(checks, Inline, v)
  {
    hide Says, Has, DistinctMembers, PartsAgree, Table, Literal, FieldsOf, Spells, IsConstruct, IsOther, IsPlace;
    ConstructCases(checks, Inline, v);
    InlineCases(checks, v);
    if word: string :| IsOther(checks, v, word) {
      OtherSays(checks, v, word);
      SaysOne(v, "type", word);
      assert false;
    }
  }

  // ----- Values ----------------------------------------------------------------------------

  /** What a place asks for, in literal keys, is what the schema asks for. */
  lemma {:induction false} PlaceIff(checks: Checks, place: Class, v: Json)
    requires Distinct(v)
    ensures IsPlace(checks, place, v) <==> NodeShaped(checks, place, v)
    decreases v, 1
  {
    hide NodeShaped, IsPlace, DistinctMembers, FieldsOf, Table;
    if v.Object? {
      forall i, p: Class | 0 <= i < |v.members|
        ensures PartAgrees(checks, v.members[i].value, p)
      {
        MemberDistinct(v, i);
        BelowIff(checks, p, v.members[i].value);
      }
      NodeTable(checks, place, v);
      match place
      case Envelope => EnvelopeAgrees(checks, v);
      case Block => BlockAgrees(checks, v);
      case Inline => InlineAgrees(checks, v);
      case Expression => ExpressionAgrees(checks, v);
      case _ => PlainAgrees(checks, place, v);
    } else {
      NoPlace(checks, place, v);
    }
  }

  lemma {:induction false} MemberDistinct(v: Json, i: nat)
    requires v.Object? && Distinct(v) && i < |v.members|
    ensures Distinct(v.members[i].value) && DistinctMembers(v.members)
  {
  }

  lemma {:induction false} NoPlace(checks: Checks, place: Class, v: Json)
    requires !v.Object?
    ensures !IsPlace(checks, place, v) && !NodeShaped(checks, place, v)
  {
    hide IsConstruct;
    ConstructSays(checks, v);
    match place
    case Envelope => assert !IsQuestion(checks, v) && !IsOption(checks, v);
    case Document => assert !IsDocument(checks, v);
    case Block => assert !IsParent(checks, v, "paragraph", Inline) && !IsMath(checks, v, "block");
    case Inline =>
      assert !IsParent(checks, v, "strong", Inline) && !IsParent(checks, v, "emphasis", Inline);
      assert !IsMath(checks, v, "inline") && !IsChemistry(checks, v);
    case Expression =>
    case Species => assert !IsSpecies(checks, v);
    case Part =>
  }

  lemma {:induction false} BelowIff(checks: Checks, place: Class, x: Json)
    requires Distinct(x)
    ensures PartAgrees(checks, x, place)
    decreases x, 2
  {
    hide NodeShaped, IsPlace;
    PlaceIff(checks, place, x);
    if x.Array? {
      forall i | 0 <= i < |x.items|
        ensures IsPlace(checks, place, x.items[i]) <==> NodeShaped(checks, place, x.items[i])
      {
        ItemDistinct(x, i);
        PlaceIff(checks, place, x.items[i]);
      }
    }
  }
}
