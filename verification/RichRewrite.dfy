/**
 What normalizing changes (rich-content.validation.ts): the order of members and the letter case of
 asset ids, and nothing else.
 */
module RichRewrite {
  import opened JsonText
  import opened JsonInspection
  import opened RichSchema
  import opened RichContent
  import opened RichForm
  import opened Wrappers

  /** `y` is the text of `x` with every capital letter made small. */
  predicate IsSmall(x: Json, y: Json) {
    && x.String? && y.String? && |y.text| == |x.text|
    && forall i :: 0 <= i < |x.text| ==>
         y.text[i] == if 'A' as int <= x.text[i] <= 'Z' as int then x.text[i] + 32 else x.text[i]
  }

  /** The member `m` is written as `n`. */
  predicate MemberRewritten(m: Member, n: Member)
    decreases m, 0
  {
    n.key == m.key && if Spells(m.key, "assetId") then IsSmall(m.value, n.value) else Rewritten(m.value, n.value)
  }

  /** Member `i` of `v` is written in `w`. */
  predicate Kept(v: Json, i: nat, w: Json)
    requires v.Object? && w.Object? && i < |v.members|
    decreases v, 1
  {
    exists j :: 0 <= j < |w.members| && MemberRewritten(v.members[i], w.members[j])
  }

  /** Member `j` of `w` was given in `v`. */
  predicate Given(v: Json, j: nat, w: Json)
    requires v.Object? && w.Object? && j < |w.members|
    decreases v, 1
  {
    exists i :: 0 <= i < |v.members| && MemberRewritten(v.members[i], w.members[j])
  }

  /** `w` has the items of `v` in order and its members in any order, each rewritten. */
  predicate Rewritten(v: Json, w: Json)
    decreases v, 2
  {
    if v.Array? then
      w.Array? && |w.items| == |v.items| && forall i :: 0 <= i < |v.items| ==> Rewritten(v.items[i], w.items[i])
    else if v.Object? then
      && w.Object?
      && (forall i :: 0 <= i < |v.members| ==> Kept(v, i, w))
      && (forall j :: 0 <= j < |w.members| ==> Given(v, j, w))
    else w == v
  }

  // ----- Where asset ids stand -------------------------------------------------------------

  predicate AssetKeyed(field: Field) {
    field.kind.AssetId? <==> field.key == Literal("assetId")
  }

  predicate AllAssetKeyed(fields: seq<Field>) {
    forall i :: 0 <= i < |fields| ==> AssetKeyed(fields[i])
  }

  lemma {:induction false} PlainKey(key: string)
    requires Ascii7(key) && key != "assetId"
    ensures Literal(key) != Literal("assetId")
  {
    if Literal(key) == Literal("assetId") {
      SameLiteral(key, "assetId");
    }
  }

  lemma {:induction false} SameLiteral(a: string, b: string)
    requires Ascii7(a) && Ascii7(b) && Literal(a) == Literal(b)
    ensures a == b
  {
    assert |a| == |Literal(a)|;
    assert forall k :: 0 <= k < |a| ==> Literal(a)[k] == Literal(b)[k];
  }

  lemma {:induction false} AssetFieldsKeyed(tag: Text)
    ensures AllAssetKeyed(AssetFields(tag))
  {
    hide Literal;
    PlainKey("type");
    PlainKey("kind");
    PlainKey("altText");
    PlainKey("caption");
  }

  lemma {:induction false} MathKeyed(tag: Text, display: string, products: bool)
    requires Ascii7(display)
    ensures AllAssetKeyed(MathFields(tag, display)) && AllAssetKeyed(ChemistryFields(tag, products))
  {
    hide Literal;
    PlainKey("type");
    PlainKey("display");
    PlainKey("children");
    PlainKey("altText");
    PlainKey("reactants");
    PlainKey("products");
    PlainKey("arrow");
  }

  lemma {:induction false} TextKeyed(tag: Text, content: Kind)
    requires !content.AssetId?
    ensures AllAssetKeyed(TextFields(tag, content))
  {
    hide Literal;
    PlainKey("type");
    PlainKey("text");
    PlainKey("language");
    PlainKey("direction");
  }

  lemma {:induction false} ExpressionKeyed(tag: Text)
    ensures ExpressionFields(tag).Some? ==> AllAssetKeyed(ExpressionFields(tag).value)
  {
    hide Literal, TextFields;
    TextKeyed(tag, Formula);
    PlainKey("type");
    PlainKey("children");
    PlainKey("numerator");
    PlainKey("denominator");
    PlainKey("radicand");
    PlainKey("degree");
  }

  lemma {:induction false} InlineKeyed(tag: Text, products: bool)
    ensures InlineFields(tag, products).Some? ==> AllAssetKeyed(InlineFields(tag, products).value)
  {
    hide Literal, TextFields, MathFields, ChemistryFields, AssetFields, ExpressionFields;
    TextKeyed(tag, Display(MAX_TEXT_LENGTH));
    ExpressionKeyed(tag);
    MathKeyed(tag, "inline", products);
    AssetFieldsKeyed(tag);
    PlainKey("type");
    PlainKey("children");
  }

  lemma {:induction false} OuterKeyed(place: Class, tag: Option<Text>, products: bool)
    requires place != Inline && place != Expression
    ensures FieldsFor(place, tag, products).Some? ==> AllAssetKeyed(FieldsFor(place, tag, products).value)
  {
    hide Literal, MathFields;
    if place == Block && tag.Some? {
      MathKeyed(tag.value, "block", products);
    }
    PlainKey("type");
    PlainKey("children");
    OuterKeys();
    MoreKeys();
  }

  lemma OuterKeys()
    ensures Literal("contentVersion") != Literal("assetId") && Literal("kind") != Literal("assetId")
    ensures Literal("stem") != Literal("assetId") && Literal("instructions") != Literal("assetId")
    ensures Literal("stemAr") != Literal("assetId") && Literal("label") != Literal("assetId")
    ensures Literal("labelAr") != Literal("assetId") && Literal("language") != Literal("assetId")
  {
    hide Literal;
    PlainKey("labelAr");
  }

  lemma MoreKeys()
    ensures Literal("direction") != Literal("assetId") && Literal("blocks") != Literal("assetId")
    ensures Literal("coefficient") != Literal("assetId") && Literal("elements") != Literal("assetId")
    ensures Literal("charge") != Literal("assetId") && Literal("state") != Literal("assetId")
    ensures Literal("element") != Literal("assetId") && Literal("count") != Literal("assetId")
  {
    hide Literal;
    PlainKey("element");
  }

  /** A field holds an asset id exactly when its key says so. */
  lemma {:induction false} SchemaKeyed(place: Class, tag: Option<Text>, products: bool)
    ensures FieldsFor(place, tag, products).Some? ==> AllAssetKeyed(FieldsFor(place, tag, products).value)
  {
    hide AllAssetKeyed;
    if place == Inline {
      if tag.Some? {
        InlineKeyed(tag.value, products);
      }
    } else if place == Expression {
      if tag.Some? {
        ExpressionKeyed(tag.value);
      }
    } else {
      OuterKeyed(place, tag, products);
    }
  }

  // ----- What is written -------------------------------------------------------------------

  /** The value found under a field's key is written as `w`. */
  predicate ValueRewritten(field: Field, x: Json, w: Json) {
    if field.kind.AssetId? then IsSmall(x, w) else Rewritten(x, w)
  }

  lemma {:induction false} LeafRewritten(checks: Checks, field: Field, x: Json)
    requires Leaf(checks, field.kind, x).Some?
    ensures ValueRewritten(field, x, Leaf(checks, field.kind, x).value)
  {
    hide IsUuid;
  }

  predicate FieldWritten(f: Field, members: seq<Member>, n: Member) {
    n.key == f.key && Find(members, f.key).Some? && ValueRewritten(f, Find(members, f.key).value, n.value)
  }

  predicate FromField(fields: seq<Field>, members: seq<Member>, n: Member) {
    exists k :: 0 <= k < |fields| && FieldWritten(fields[k], members, n)
  }

  predicate IsWritten(f: Field, members: seq<Member>, written: seq<Member>) {
    Find(members, f.key).Some? ==> exists j :: 0 <= j < |written| && FieldWritten(f, members, written[j])
  }

  /** Every written member comes from a field of the data, and every field found is written. */
  predicate Written(fields: seq<Field>, members: seq<Member>, written: seq<Member>) {
    && (forall j :: 0 <= j < |written| ==> FromField(fields, members, written[j]))
    && (forall k :: 0 <= k < |fields| ==> IsWritten(fields[k], members, written))
  }

  lemma {:induction false} LaterFromField(fields: seq<Field>, members: seq<Member>, n: Member)
    requires fields != [] && FromField(fields[1..], members, n)
    ensures FromField(fields, members, n)
  {
    hide FieldWritten;
    var k :| 0 <= k < |fields[1..]| && FieldWritten(fields[1..][k], members, n);
    assert FieldWritten(fields[k + 1], members, n);
  }

  lemma {:induction false} WrittenSkip(fields: seq<Field>, members: seq<Member>, written: seq<Member>)
    requires fields != [] && Find(members, fields[0].key).None? && Written(fields[1..], members, written)
    ensures Written(fields, members, written)
  {
    hide Find, FieldWritten, FromField;
    forall j | 0 <= j < |written|
      ensures FromField(fields, members, written[j])
    {
      LaterFromField(fields, members, written[j]);
    }
    forall k | 0 <= k < |fields|
      ensures IsWritten(fields[k], members, written)
    {
      if k > 0 {
        assert IsWritten(fields[1..][k - 1], members, written);
      }
    }
  }

  lemma {:induction false} WrittenCons(fields: seq<Field>, members: seq<Member>, n: Member, rest: seq<Member>)
    requires fields != [] && FieldWritten(fields[0], members, n) && Written(fields[1..], members, rest)
    ensures Written(fields, members, [n] + rest)
  {
    hide FieldWritten, Find;
    var all := [n] + rest;
    forall j | 0 <= j < |all|
      ensures FromField(fields, members, all[j])
    {
      if j > 0 {
        assert FromField(fields[1..], members, rest[j - 1]);
        LaterFromField(fields, members, all[j]);
      }
    }
    forall k | 0 <= k < |fields|
      ensures IsWritten(fields[k], members, all)
    {
      if k == 0 {
        assert FieldWritten(fields[0], members, all[0]);
      } else {
        assert IsWritten(fields[1..][k - 1], members, rest);
        StillWritten(fields[k], members, n, rest);
      }
    }
  }

  lemma {:induction false} StillWritten(f: Field, members: seq<Member>, n: Member, rest: seq<Member>)
    requires IsWritten(f, members, rest)
    ensures IsWritten(f, members, [n] + rest)
  {
    hide FieldWritten, Find;
    if Find(members, f.key).Some? {
      var j :| 0 <= j < |rest| && FieldWritten(f, members, rest[j]);
      assert FieldWritten(f, members, ([n] + rest)[j + 1]);
    }
  }

  lemma {:induction false} FieldsWritten(checks: Checks, fields: seq<Field>, v: Json, c: Counters)
    requires v.Object? && Distinct(v) && NormalFields(checks, fields, v, c).Some?
    ensures Written(fields, v.members, NormalFields(checks, fields, v, c).value.0)
    decreases v, 1, |fields|
  {
    if fields != [] {
      var key := fields[0].key;
      FieldsUnfold(checks, fields, v, c);
      var value := Find(v.members, key);
      if value == None {
        FieldsWritten(checks, fields[1..], v, c);
        hide NormalFields, Find, Distinct;
        WrittenSkip(fields, v.members, NormalFields(checks, fields, v, c).value.0);
      } else {
        FindSmaller(v.members, key);
        FindDistinct(v, key);
        var first := Normal(checks, fields[0].kind, value.value, c).value;
        NormalRewritten(checks, fields[0], value.value, c);
        FieldsWritten(checks, fields[1..], v, first.1);
        hide NormalFields, Normal, Find, ValueRewritten, Distinct;
        WrittenCons(fields, v.members, Member(key, first.0), NormalFields(checks, fields[1..], v, first.1).value.0);
      }
    }
  }

  /** The items of `v` from `i` on are written as `w`. */
  predicate ItemsAre(v: Json, i: nat, w: seq<Json>)
    requires v.Array? && i <= |v.items|
  {
    |w| == |v.items| - i && forall k :: 0 <= k < |w| ==> Rewritten(v.items[i + k], w[k])
  }

  lemma {:induction false} ItemsCons(v: Json, i: nat, x: Json, rest: seq<Json>)
    requires v.Array? && i < |v.items| && Rewritten(v.items[i], x) && ItemsAre(v, i + 1, rest)
    ensures ItemsAre(v, i, [x] + rest)
  {
    hide Rewritten;
    var w := [x] + rest;
    forall k | 0 <= k < |w|
      ensures Rewritten(v.items[i + k], w[k])
    {
      if k > 0 {
        assert w[k] == rest[k - 1] && v.items[i + k] == v.items[(i + 1) + (k - 1)];
      }
    }
  }

  lemma {:induction false} ItemsRewritten(checks: Checks, place: Class, v: Json, i: nat, c: Counters)
    requires v.Array? && Distinct(v) && i <= |v.items| && NormalItems(checks, place, v, i, c).Some?
    ensures ItemsAre(v, i, NormalItems(checks, place, v, i, c).value.0)
    decreases v, 1, |v.items| - i
  {
    hide NormalNode, Rewritten, Distinct;
    if i < |v.items| {
      ItemDistinct(v, i);
      var first := NormalNode(checks, place, v.items[i], c).value;
      NodeRewritten(checks, place, v.items[i], c);
      ItemsRewritten(checks, place, v, i + 1, first.1);
      hide ItemsAre;
      ItemsCons(v, i, first.0, NormalItems(checks, place, v, i + 1, first.1).value.0);
    }
  }

  lemma {:induction false} NormalRewritten(checks: Checks, field: Field, x: Json, c: Counters)
    requires Distinct(x) && Normal(checks, field.kind, x, c).Some?
    ensures ValueRewritten(field, x, Normal(checks, field.kind, x, c).value.0)
    decreases x, 3, 0
  {
    match field.kind
    case Node(place) => NodeRewritten(checks, place, x, c);
    case Nodes(place) =>
      ItemsRewritten(checks, place, x, 0, c);
      hide NormalItems, Distinct;
    case _ => LeafRewritten(checks, field, x);
  }

  lemma {:induction false} MemberKept(fields: seq<Field>, v: Json, written: seq<Member>, i: nat)
    requires v.Object? && DistinctMembers(v.members) && KnownKeys(v.members, fields) && AllAssetKeyed(fields)
    requires Written(fields, v.members, written) && i < |v.members|
    ensures Kept(v, i, Object(written))
  {
    hide Find, DistinctMembers, MemberRewritten, ValueRewritten, AssetKeyed, FromField;
    assert HasField(fields, v.members[i].key);
    var k :| 0 <= k < |fields| && fields[k].key == v.members[i].key;
    FindIff(v.members, fields[k].key);
    assert IsWritten(fields[k], v.members, written);
    var j :| 0 <= j < |written| && FieldWritten(fields[k], v.members, written[j]);
    KeyedMember(fields[k], v.members[i], written[j]);
    assert Object(written).members[j] == written[j];
  }

  lemma {:induction false} MemberGiven(fields: seq<Field>, v: Json, written: seq<Member>, j: nat)
    requires v.Object? && DistinctMembers(v.members) && AllAssetKeyed(fields)
    requires Written(fields, v.members, written) && j < |written|
    ensures Given(v, j, Object(written))
  {
    hide Find, DistinctMembers, MemberRewritten, ValueRewritten, AssetKeyed, IsWritten;
    assert FromField(fields, v.members, written[j]);
    var k :| 0 <= k < |fields| && FieldWritten(fields[k], v.members, written[j]);
    FindIff(v.members, fields[k].key);
    var i :| 0 <= i < |v.members| && v.members[i].key == fields[k].key;
    KeyedMember(fields[k], v.members[i], written[j]);
    assert Object(written).members[j] == written[j];
  }

  lemma {:induction false} MembersRewritten(fields: seq<Field>, v: Json, written: seq<Member>)
    requires v.Object? && DistinctMembers(v.members) && KnownKeys(v.members, fields) && AllAssetKeyed(fields)
    requires Written(fields, v.members, written)
    ensures Rewritten(v, Object(written))
  {
    hide DistinctMembers, Kept, Given, Written, KnownKeys, AllAssetKeyed;
    forall i | 0 <= i < |v.members|
      ensures Kept(v, i, Object(written))
    {
      MemberKept(fields, v, written, i);
    }
    forall j | 0 <= j < |written|
      ensures Given(v, j, Object(written))
    {
      MemberGiven(fields, v, written, j);
    }
  }

  lemma {:induction false} KeyedMember(f: Field, m: Member, n: Member)
    requires AssetKeyed(f) && m.key == f.key && n.key == f.key && ValueRewritten(f, m.value, n.value)
    ensures MemberRewritten(m, n)
  {
    hide Spells, Literal, IsSmall;
    SpellsIff(m.key, "assetId");
  }

  /** A written node: its fields, its known members and what is written for them. */
  lemma {:induction false} NodeUnfold(checks: Checks, place: Class, v: Json, c: Counters)
    requires NormalNode(checks, place, v, c).Some?
    ensures v.Object?
    ensures var tag := TagOf(place, v.members);
            var fields := FieldsFor(place, tag, Products(v.members));
            && fields.Some? && KnownKeys(v.members, fields.value)
            && NormalFields(checks, fields.value, v, Count(c, place, tag)).Some?
            && NormalNode(checks, place, v, c).value.0
                 == Object(NormalFields(checks, fields.value, v, Count(c, place, tag)).value.0)
  {
    hide FieldsFor, NormalFields, Count, KnownKeys, TagOf, Products;
  }

  lemma {:induction false} NodeRewritten(checks: Checks, place: Class, v: Json, c: Counters)
    requires Distinct(v) && NormalNode(checks, place, v, c).Some?
    ensures Rewritten(v, NormalNode(checks, place, v, c).value.0)
    decreases v, 2, 0
  {
    hide NormalNode, FieldsFor, NormalFields, Written, Count, KnownKeys, AllAssetKeyed, Rewritten, TagOf, Products;
    NodeUnfold(checks, place, v, c);
    var tag := TagOf(place, v.members);
    var fields := FieldsFor(place, tag, Products(v.members)).value;
    SchemaKeyed(place, tag, Products(v.members));
    FieldsWritten(checks, fields, v, Count(c, place, tag));
    MembersRewritten(fields, v, NormalFields(checks, fields, v, Count(c, place, tag)).value.0);
  }

  /** Normalizing puts the members in order and makes asset ids small; it changes, adds and drops nothing else. */
  lemma {:induction false} NormalizeRewrites(checks: Checks, v: Json)
    requires Distinct(v) && NormalizeRichContent(checks, v).Some?
    ensures Rewritten(v, NormalizeRichContent(checks, v).value)
  {
    hide NormalNode, Distinct, Rewritten, Accepted;
    NodeRewritten(checks, Envelope, v, Counters(0, 0, 0));
  }
}
