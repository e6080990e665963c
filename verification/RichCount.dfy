/**
 The complexity of rich content (rich-content.validation.ts) counted over the whole value from its
 literal keys and types, in member order: formulas, chemistry and asset references.
 */
module RichCount {
  import opened JsonText
  import opened JsonInspection
  import Utf8
  import opened RichSchema
  import opened RichContent
  import opened RichContentJson
  import opened RichValidity
  import opened RichForm
  import opened Wrappers

  /** Whether an object stands in a formula, is a substance of a reaction, a part of one, or none of these. */
  datatype Role = Plain | InFormula | Substance | Constituent

  /** The role of what an object holds under a key. */
  function RoleUnder(v: Json, key: Text): Role {
    if key == Literal("numerator") || key == Literal("denominator") || key == Literal("radicand") then InFormula
    else if key == Literal("children") &&
            (Says(v, "type", "math") || Says(v, "type", "subscript") || Says(v, "type", "superscript")) then InFormula
    else if key == Literal("reactants") || key == Literal("products") then Substance
    else if key == Literal("elements") then Constituent
    else Plain
  }

  /** What an object counts itself. */
  function Own(v: Json, role: Role): Counters {
    match role
    case InFormula => Counters(1, 0, 0)
    case Substance => Counters(0, 1, 0)
    case Constituent => Counters(0, 1, 0)
    case Plain =>
      if SaysConstruct(v) then Counters(1, 0, 0)
      else if Says(v, "type", "assetReference") then Counters(0, 0, 1)
      else ZERO
  }

  /** Formulas, chemistry and asset references in the whole value. */
  function Complexity(v: Json, role: Role): Counters
    decreases v, 1, 0
  {
    if v.Object? then Sum(Own(v, role), MembersFrom(v, 0))
    else if v.Array? then ItemsFrom(v, 0, role)
    else ZERO
  }

  function ItemsFrom(v: Json, i: nat, role: Role): Counters
    requires v.Array? && i <= |v.items|
    decreases v, 0, |v.items| - i
  {
    if i == |v.items| then ZERO else Sum(Complexity(v.items[i], role), ItemsFrom(v, i + 1, role))
  }

  function MembersFrom(v: Json, i: nat): Counters
    requires v.Object? && i <= |v.members|
    decreases v, 0, |v.members| - i
  {
    if i == |v.members| then ZERO
    else Sum(Complexity(v.members[i].value, RoleUnder(v, v.members[i].key)), MembersFrom(v, i + 1))
  }

  function RoleOf(place: Class): Role {
    match place
    case Expression => InFormula
    case Species => Substance
    case Part => Constituent
    case _ => Plain
  }

  // ----- Members in any order --------------------------------------------------------------

  /** The cost of the fields, over a list of members. */
  function FieldsSum(fields: seq<Field>, members: seq<Member>): Counters {
    if fields == [] then ZERO
    else
      var value := Find(members, fields[0].key);
      var rest := FieldsSum(fields[1..], members);
      if value == None then rest else Sum(Cost(fields[0].kind, value.value), rest)
  }

  lemma {:induction false} FieldsSumIs(fields: seq<Field>, v: Json)
    requires v.Object?
    ensures FieldsCost(fields, v) == FieldsSum(fields, v.members)
    decreases |fields|
  {
    hide Cost, Find;
    if fields != [] {
      FieldsSumIs(fields[1..], v);
    }
  }

  /** The cost of a member, by the field with its key. */
  function MemberCost(fields: seq<Field>, m: Member): Counters {
    if fields == [] then ZERO
    else if fields[0].key == m.key then Cost(fields[0].kind, m.value)
    else MemberCost(fields[1..], m)
  }

  lemma {:induction false} SumUnknown(fields: seq<Field>, m: Member, rest: seq<Member>)
    requires !HasField(fields, m.key)
    ensures FieldsSum(fields, [m] + rest) == FieldsSum(fields, rest)
    decreases fields
  {
    if fields != [] {
      hide Cost, Find;
      FieldHere(fields, m.key);
      FindCons(m, rest, fields[0].key);
      SumUnknown(fields[1..], m, rest);
    }
  }

  lemma {:induction false} SumFront(fields: seq<Field>, m: Member, rest: seq<Member>)
    requires DistinctFields(fields) && HasField(fields, m.key) && Find(rest, m.key) == None
    ensures FieldsSum(fields, [m] + rest) == Sum(MemberCost(fields, m), FieldsSum(fields, rest))
    decreases fields
  {
    hide Cost, Find;
    FieldHere(fields, m.key);
    FindCons(m, rest, fields[0].key);
    DistinctTail(fields);
    hide HasField, DistinctFields;
    if fields[0].key == m.key {
      SumUnknown(fields[1..], m, rest);
    } else {
      SumFront(fields[1..], m, rest);
    }
  }

  lemma {:induction false} SumNothing(fields: seq<Field>)
    ensures FieldsSum(fields, []) == ZERO
    decreases fields
  {
    hide Cost;
    if fields != [] {
      SumNothing(fields[1..]);
    }
  }

  /** Each member counts as its place under the literal keys says. */
  predicate MembersCount(fields: seq<Field>, v: Json)
    requires v.Object?
  {
    forall i :: 0 <= i < |v.members| ==> MemberCounts(fields, v, i)
  }

  predicate MemberCounts(fields: seq<Field>, v: Json, i: nat)
    requires v.Object? && i < |v.members|
  {
    MemberCost(fields, v.members[i]) == Complexity(v.members[i].value, RoleUnder(v, v.members[i].key))
  }

  lemma {:induction false} SumReordered(fields: seq<Field>, v: Json, i: nat)
    requires v.Object? && i <= |v.members|
    requires DistinctFields(fields) && DistinctMembers(v.members[i..]) && KnownKeys(v.members[i..], fields)
    requires MembersCount(fields, v)
    ensures FieldsSum(fields, v.members[i..]) == MembersFrom(v, i)
    decreases |v.members| - i
  {
    hide FieldsSum, MemberCost, Complexity, RoleUnder, KnownKeys, DistinctMembers, DistinctFields, HasField, Find;
    var members := v.members[i..];
    if i == |v.members| {
      SumNothing(fields);
      assert members == [];
    } else {
      KnownTail(members, fields);
      MembersTail(members);
      assert members[1..] == v.members[i + 1..] && members == [v.members[i]] + v.members[i + 1..];
      SumReordered(fields, v, i + 1);
      SumFront(fields, v.members[i], v.members[i + 1..]);
      assert MemberCounts(fields, v, i);
    }
  }

  // ----- The roles the schema gives --------------------------------------------------------

  predicate SaysFormula(v: Json) {
    Says(v, "type", "math") || Says(v, "type", "subscript") || Says(v, "type", "superscript")
  }

  lemma {:induction false} FormulaKeys(v: Json)
    ensures RoleUnder(v, Literal("numerator")) == RoleUnder(v, Literal("denominator")) == InFormula
    ensures RoleUnder(v, Literal("radicand")) == InFormula
    ensures RoleUnder(v, Literal("children")) == if SaysFormula(v) then InFormula else Plain
  {
    hide Says;
    assert Literal("children")[0] == 99 && Literal("radicand")[0] == 114;
    assert Literal("products")[0] == 112 && Literal("elements")[0] == 101;
  }

  lemma {:induction false} ChemistryKeys(v: Json)
    ensures RoleUnder(v, Literal("reactants")) == RoleUnder(v, Literal("products")) == Substance
    ensures RoleUnder(v, Literal("elements")) == Constituent
  {
    hide Says;
    assert Literal("children")[0] == 99 && Literal("radicand")[0] == 114;
    assert Literal("products")[0] == 112 && Literal("elements")[0] == 101;
    assert Literal("numerator")[0] == 110 && Literal("reactants")[0] == 114;
  }

  lemma {:induction false} DocumentKeys(v: Json)
    ensures RoleUnder(v, Literal("stem")) == RoleUnder(v, Literal("stemAr")) == Plain
    ensures RoleUnder(v, Literal("instructions")) == RoleUnder(v, Literal("blocks")) == Plain
    ensures RoleUnder(v, Literal("label")) == RoleUnder(v, Literal("labelAr")) == Plain
  {
    hide Says, Literal;
  }

  /** What a field holds has the role its key gives. */
  predicate RoleFits(field: Field, v: Json) {
    && (field.kind.Nodes? ==> RoleUnder(v, field.key) == RoleOf(field.kind.item))
    && (field.kind.Node? ==> RoleUnder(v, field.key) == RoleOf(field.kind.node))
  }

  predicate RolesFit(fields: seq<Field>, v: Json) {
    forall j :: 0 <= j < |fields| ==> RoleFits(fields[j], v)
  }

  lemma {:induction false} PlainRoles(place: Class, v: Json)
    requires FieldsOf(place, v).Some? && (place == Envelope || place == Document || place == Species || place == Part)
    ensures RolesFit(FieldsOf(place, v).value, v)
  {
    hide Says, Literal, RoleUnder, TagOf;
    DocumentKeys(v);
    ChemistryKeys(v);
  }

  lemma {:induction false} BlockRoles(v: Json)
    requires v.Object? && FieldsOf(Block, v).Some? && DistinctMembers(v.members)
    ensures RolesFit(FieldsOf(Block, v).value, v)
  {
    hide Says, Literal, RoleUnder, FieldsOf, DistinctMembers;
    BlockKinds(v);
    FormulaKeys(v);
    if Says(v, "type", "paragraph") {
      SaysOne(v, "type", "paragraph");
    }
  }

  lemma {:induction false} ConstructRoles(place: Class, v: Json)
    requires v.Object? && DistinctMembers(v.members) && SaysConstruct(v) && (place == Expression || place == Inline)
    ensures FieldsOf(place, v).Some? && RolesFit(FieldsOf(place, v).value, v)
  {
    hide Says, Literal, RolesFit, FieldsOf, DistinctMembers, ExpressionFields;
    var word := if Says(v, "type", "subscript") then "subscript" else if Says(v, "type", "superscript") then "superscript"
                else if Says(v, "type", "fraction") then "fraction" else "radical";
    ConstructFit(v, word);
    FieldsOfWord(place, v, word);
    ConstructInline(word, Products(v.members));
  }

  lemma {:induction false} ConstructFit(v: Json, word: string)
    requires word in CONSTRUCTS && Says(v, "type", word)
    ensures Ascii7(word) && ExpressionFields(Literal(word)).Some?
    ensures RolesFit(ExpressionFields(Literal(word)).value, v)
  {
    hide Says, Literal, RoleUnder, ExpressionFields;
    FormulaKeys(v);
    ConstructFields(word);
    if word == "fraction" {
    } else if word == "radical" {
    } else {
      assert SaysFormula(v);
    }
  }

  lemma {:induction false} ExpressionRoles(v: Json)
    requires v.Object? && FieldsOf(Expression, v).Some? && DistinctMembers(v.members)
    ensures RolesFit(FieldsOf(Expression, v).value, v)
  {
    hide Says, Literal, RoleUnder, FieldsOf, DistinctMembers;
    ExpressionTag(v);
    if SaysConstruct(v) {
      ConstructRoles(Expression, v);
    } else {
      FieldsOfWord(Expression, v, "text");
    }
  }

  lemma {:induction false} OtherRoles(v: Json, word: string)
    requires v.Object? && DistinctMembers(v.members) && word in OTHERS && Says(v, "type", word)
    ensures Ascii7(word) && InlineFields(Literal(word), Products(v.members)).Some?
    ensures RolesFit(InlineFields(Literal(word), Products(v.members)).value, v)
  {
    hide Says, Literal, RoleUnder, DistinctMembers, InlineFields, Products;
    InlineFieldsOther(word, Products(v.members));
    FormulaKeys(v);
    ChemistryKeys(v);
    SaysOne(v, "type", word);
    if word == "text" {
    } else if word == "lineBreak" {
    } else if word == "math" {
    } else if word == "chemistry" {
    } else if word == "assetReference" {
    } else {
      assert !SaysFormula(v);
    }
  }

  lemma {:induction false} InlineRoles(v: Json)
    requires v.Object? && FieldsOf(Inline, v).Some? && DistinctMembers(v.members)
    ensures RolesFit(FieldsOf(Inline, v).value, v)
  {
    hide Says, Literal, RolesFit, FieldsOf, DistinctMembers, InlineFields;
    if SaysConstruct(v) {
      ConstructRoles(Inline, v);
    } else {
      var word := InlineTag(v);
      FieldsOfWord(Inline, v, word);
      OtherRoles(v, word);
    }
  }

  lemma {:induction false} Roles(place: Class, v: Json)
    requires v.Object? && FieldsOf(place, v).Some? && DistinctMembers(v.members)
    ensures RolesFit(FieldsOf(place, v).value, v)
  {
    hide FieldsOf, RolesFit, DistinctMembers;
    match place
    case Block => BlockRoles(v);
    case Inline => InlineRoles(v);
    case Expression => ExpressionRoles(v);
    case _ => PlainRoles(place, v);
  }

  // ----- What a node counts itself ---------------------------------------------------------

  lemma {:induction false} NoType(v: Json, fields: seq<Field>, word: string)
    requires v.Object? && KnownKeys(v.members, fields) && !HasField(fields, Literal("type"))
    ensures !Says(v, "type", word)
  {
    hide Literal, IsWord, Spells;
    forall i | 0 <= i < |v.members|
      ensures !Spells(v.members[i].key, "type")
    {
      SpellsIff(v.members[i].key, "type");
    }
  }

  lemma {:induction false} OwnCount(place: Class, v: Json)
    requires v.Object? && FieldsOf(place, v).Some? && DistinctMembers(v.members) && KnownKeys(v.members, FieldsOf(place, v).value)
    ensures Count(ZERO, place, TagOf(place, v.members)) == Own(v, RoleOf(place))
  {
    hide Says, DistinctMembers, KnownKeys, FieldsOf;
    match place
    case Inline => InlineOwn(v);
    case Block =>
      BlockKinds(v);
      if Says(v, "type", "paragraph") {
        SaysOne(v, "type", "paragraph");
      } else {
        SaysOne(v, "type", "math");
      }
    case Envelope => UntypedOwn(place, v);
    case Document => UntypedOwn(place, v);
    case _ =>
  }

  lemma {:induction false} UntypedOwn(place: Class, v: Json)
    requires FieldsOf(place, v).Some? && KnownKeys(v.members, FieldsOf(place, v).value)
    requires place == Envelope || place == Document
    ensures Own(v, Plain) == ZERO
  {
    hide Says, KnownKeys, TagOf, Literal;
    var fields := FieldsOf(place, v).value;
    assert Literal("type")[0] == 116 && Literal("kind")[0] == 107 && Literal("stem")[0] == 115;
    assert !HasField(fields, Literal("type")) by { UntypedFields(place, TagOf(place, v.members)); }
    NoType(v, fields, "subscript");
    NoType(v, fields, "superscript");
    NoType(v, fields, "fraction");
    NoType(v, fields, "radical");
    NoType(v, fields, "assetReference");
  }

  lemma {:induction false} UntypedFields(place: Class, tag: Option<Text>)
    requires (place == Envelope || place == Document) && FieldsFor(place, tag, false).Some?
    ensures !HasField(FieldsFor(place, tag, false).value, Literal("type"))
  {
    hide Literal;
    assert Literal("type")[1] == 121 && Literal("kind")[1] == 105 && Literal("stem")[0] == 115;
  }

  lemma {:induction false} InlineOwn(v: Json)
    requires v.Object? && DistinctMembers(v.members)
    ensures Count(ZERO, Inline, TagOf(Inline, v.members)) == Own(v, Plain)
  {
    hide Says, DistinctMembers, TagOf, Literal;
    TagSays(Inline, v, "type", "subscript");
    TagSays(Inline, v, "type", "superscript");
    TagSays(Inline, v, "type", "fraction");
    TagSays(Inline, v, "type", "radical");
    TagSays(Inline, v, "type", "assetReference");
  }

  // ----- The counts agree ------------------------------------------------------------------

  lemma {:induction false} MemberCostIs(fields: seq<Field>, m: Member, j: nat)
    requires DistinctFields(fields) && j < |fields| && fields[j].key == m.key
    ensures MemberCost(fields, m) == Cost(fields[j].kind, m.value)
    decreases j
  {
    hide Cost;
    if j > 0 {
      assert fields[1..][j - 1] == fields[j];
      DistinctTail(fields);
      MemberCostIs(fields[1..], m, j - 1);
    }
  }

  lemma {:induction false} ItemsCount(checks: Checks, place: Class, v: Json, i: nat)
    requires v.Array? && Distinct(v) && i <= |v.items|
    requires forall k :: i <= k < |v.items| ==> NodeShaped(checks, place, v.items[k])
    ensures ItemsCost(place, v, i) == ItemsFrom(v, i, RoleOf(place))
    decreases v, 1, |v.items| - i
  {
    hide NodeShaped, NodeCost, Complexity, RoleOf;
    if i < |v.items| {
      ItemDistinct(v, i);
      NodeCount(checks, place, v.items[i]);
      ItemsCount(checks, place, v, i + 1);
    }
  }

  lemma {:induction false} FieldCount(checks: Checks, kind: Kind, x: Json, role: Role)
    requires Distinct(x) && Shaped(checks, kind, x)
    requires kind.Nodes? ==> role == RoleOf(kind.item)
    requires kind.Node? ==> role == RoleOf(kind.node)
    ensures Cost(kind, x) == Complexity(x, role)
    decreases x, 2, 0
  {
    hide NodeShaped, NodeCost, RoleOf, MembersFrom, ItemsFrom, Own, IsUuid;
    match kind
    case Nodes(place) => ItemsCount(checks, place, x, 0);
    case Node(place) => NodeCount(checks, place, x);
    case _ =>
  }

  lemma {:induction false} MemberCount(checks: Checks, place: Class, v: Json, i: nat)
    requires v.Object? && Distinct(v) && NodeShaped(checks, place, v) && i < |v.members|
    ensures FieldsOf(place, v).Some? && MemberCounts(FieldsOf(place, v).value, v, i)
    decreases v, 0, 0
  {
    hide RoleUnder, RoleOf, Cost, Complexity, FieldsFor, NodeShaped, Distinct;
    ShapedKnown(checks, place, v);
    var fields, m := FieldsOf(place, v).value, v.members[i];
    MemberDistinct(v, i);
    NodeTable(checks, place, v);
    SchemaDistinct(place, TagOf(place, v.members), Products(v.members));
    Roles(place, v);
    var j :| 0 <= j < |fields| && Obeys(checks, fields[j], m);
    assert RoleFits(fields[j], v);
    MemberCostIs(fields, m, j);
    FieldCount(checks, fields[j].kind, m.value, RoleUnder(v, m.key));
  }

  /** Over the whole value, the literal keys and types count what the normalizer counts. */
  lemma {:induction false} NodeCount(checks: Checks, place: Class, v: Json)
    requires Distinct(v) && NodeShaped(checks, place, v)
    ensures NodeCost(place, v) == Complexity(v, RoleOf(place))
    decreases v, 0, 1
  {
    hide RoleOf, FieldsCost, FieldsFor, NodeShaped, MembersFrom, Own, Count, FieldShaped, MemberCounts;
    ShapedKnown(checks, place, v);
    var fields := FieldsOf(place, v).value;
    SchemaDistinct(place, TagOf(place, v.members), Products(v.members));
    OwnCount(place, v);
    FieldsSumIs(fields, v);
    forall i | 0 <= i < |v.members|
      ensures MemberCounts(fields, v, i)
    {
      MemberCount(checks, place, v, i);
    }
    assert v.members[0..] == v.members;
    SumReordered(fields, v, 0);
  }

  lemma {:induction false} ShapedKnown(checks: Checks, place: Class, v: Json)
    requires NodeShaped(checks, place, v)
    ensures FieldsOf(place, v).Some? && v.Object? && KnownKeys(v.members, FieldsOf(place, v).value)
  {
  }

  // ----- Main results ----------------------------------------------------------------------

  predicate ComplexityAllowed(c: Counters) {
    c.math <= 512 && c.chemistry <= 256 && c.assets <= 8
  }

  /**
   The accepted data, limit by limit and key by key: it passes the inspection, it is a question or an
   option, and its formulas, chemistry and assets are few enough.
   */
  lemma {:induction false} AcceptsIff(checks: Checks, v: Json)
    requires Distinct(v)
    ensures NormalizeRichContent(checks, v).Some? <==>
              && WithinLimits(v, 0) && Containers(v) <= 1024 && |Utf8.Encode(Stringify(v))| <= 65536
              && (IsQuestion(checks, v) || IsOption(checks, v))
              && ComplexityAllowed(Complexity(v, Plain))
  {
    hide NormalizeRichContent, NodeShaped, NodeCost, Accepted, Distinct, Complexity, WithinLimits, Containers, Utf8Length,
      Stringify, IsQuestion, IsOption;
    NormalizeIff(checks, v);
    AcceptedIff(v);
    Utf8.EncodedLength(Stringify(v));
    PlaceIff(checks, Envelope, v);
    if NodeShaped(checks, Envelope, v) {
      NodeCount(checks, Envelope, v);
    }
  }

  // ----- The normal form is such a document ------------------------------------------------

  lemma {:induction false} FieldsDistinct(checks: Checks, fields: seq<Field>, v: Json, c: Counters)
    requires v.Object? && DistinctFields(fields) && NormalFields(checks, fields, v, c).Some?
    ensures Distinct(Object(NormalFields(checks, fields, v, c).value.0))
    decreases v, 1, |fields|
  {
    if fields != [] {
      var key := fields[0].key;
      FieldsUnfold(checks, fields, v, c);
      DistinctTail(fields);
      var value := Find(v.members, key);
      if value == None {
        FieldsDistinct(checks, fields[1..], v, c);
      } else {
        FindSmaller(v.members, key);
        var first := Normal(checks, fields[0].kind, value.value, c).value;
        NormalDistinct(checks, fields[0].kind, value.value, c);
        FieldsDistinct(checks, fields[1..], v, first.1);
        WrittenKeys(checks, fields[1..], v, first.1);
        hide NormalFields, Normal, Find, DistinctFields;
        DistinctCons(fields[1..], Member(key, first.0), NormalFields(checks, fields[1..], v, first.1).value.0);
      }
    }
  }

  lemma {:induction false} DistinctCons(fields: seq<Field>, m: Member, rest: seq<Member>)
    requires Distinct(m.value) && Distinct(Object(rest)) && KnownKeys(rest, fields) && !HasField(fields, m.key)
    ensures Distinct(Object([m] + rest))
  {
    var all := [m] + rest;
    assert forall i :: 1 <= i < |all| ==> all[i] == rest[i - 1];
    assert Object(rest).members == rest;
  }

  lemma {:induction false} ItemsDistinct(checks: Checks, place: Class, v: Json, i: nat, c: Counters)
    requires v.Array? && i <= |v.items| && NormalItems(checks, place, v, i, c).Some?
    ensures forall k :: 0 <= k < |NormalItems(checks, place, v, i, c).value.0| ==>
              Distinct(NormalItems(checks, place, v, i, c).value.0[k])
    decreases v, 1, |v.items| - i
  {
    if i < |v.items| {
      var first := NormalNode(checks, place, v.items[i], c).value;
      NodeDistinct(checks, place, v.items[i], c);
      ItemsDistinct(checks, place, v, i + 1, first.1);
      hide NormalNode, Distinct;
    }
  }

  lemma {:induction false} NormalDistinct(checks: Checks, kind: Kind, v: Json, c: Counters)
    requires Normal(checks, kind, v, c).Some?
    ensures Distinct(Normal(checks, kind, v, c).value.0)
    decreases v, 3, 0
  {
    match kind
    case Node(place) => NodeDistinct(checks, place, v, c);
    case Nodes(place) => ItemsDistinct(checks, place, v, 0, c);
    case _ =>
  }

  /** What the normalizer writes holds no key twice. */
  lemma {:induction false} NodeDistinct(checks: Checks, place: Class, v: Json, c: Counters)
    requires NormalNode(checks, place, v, c).Some?
    ensures Distinct(NormalNode(checks, place, v, c).value.0)
    decreases v, 2, 0
  {
    var tag, products := TagOf(place, v.members), Products(v.members);
    SchemaDistinct(place, tag, products);
    FieldsDistinct(checks, FieldsFor(place, tag, products).value, v, Count(c, place, tag));
    hide FieldsFor, NormalFields, Distinct, DistinctFields, Count, RichSchema.Bounded, KnownKeys;
  }

  /** The normal form is again such a document. */
  lemma {:induction false} NormalFormAccepted(checks: Checks, v: Json)
    requires Distinct(v) && NormalizeRichContent(checks, v).Some?
    ensures var w := NormalizeRichContent(checks, v).value;
            Distinct(w) && (IsQuestion(checks, w) || IsOption(checks, w)) && ComplexityAllowed(Complexity(w, Plain))
  {
    hide NormalNode, Distinct, Complexity, IsQuestion, IsOption, WithinLimits, Containers, Accepted, Utf8Length, Stringify;
    var w := NormalizeRichContent(checks, v).value;
    NormalizeIdempotent(checks, v);
    NodeDistinct(checks, Envelope, v, Counters(0, 0, 0));
    AcceptsIff(checks, w);
  }
}
