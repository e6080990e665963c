/**
 The normal form of rich content and its serialized text (rich-content.validation.ts). Objects are
 member lists in key order; the normalizer rewrites each one in the order of its schema, lower-cases
 asset ids, and counts complexity as it goes.
 */
module RichContent {
  import opened JsonText
  import opened JsonInspection
  import opened RichSchema
  import opened Wrappers

  /** The pattern checks of the source, left open: safe display text, formula tokens, chemical elements. */
  datatype Checks = Checks(display: Text -> bool, formula: Text -> bool, element: Text -> bool)

  // ----- Members ---------------------------------------------------------------------------

  function Find(members: seq<Member>, key: Text): Option<Json> {
    if members == [] then None
    else if members[0].key == key then Some(members[0].value)
    else Find(members[1..], key)
  }

  lemma {:induction false} FindSmaller(members: seq<Member>, key: Text)
    requires Find(members, key).Some?
    ensures exists i :: 0 <= i < |members| && members[i].value == Find(members, key).value
    decreases members
  {
    if members[0].key != key {
      FindSmaller(members[1..], key);
      var i :| 0 <= i < |members[1..]| && members[1..][i].value == Find(members[1..], key).value;
      assert members[i + 1].value == Find(members, key).value;
    }
  }

  predicate KnownKeys(members: seq<Member>, fields: seq<Field>) {
    forall i :: 0 <= i < |members| ==> HasField(fields, members[i].key)
  }

  function TagOf(cls: Class, members: seq<Member>): Option<Text> {
    var key :- TagKey(cls);
    var tag :- Find(members, key);
    if tag.String? then Some(tag.text) else None
  }

  function Products(members: seq<Member>): bool {
    Find(members, Literal("products")).Some?
  }

  // ----- Leaves ----------------------------------------------------------------------------

  predicate HexUnit(u: Unit) {
    48 <= u <= 57 || 65 <= u <= 70 || 97 <= u <= 102
  }

  /** A UUID of versions 1 to 8, in either case. */
  predicate IsUuid(t: Text) {
    && |t| == 36
    && t[8] == MINUS && t[13] == MINUS && t[18] == MINUS && t[23] == MINUS
    && (forall i :: 0 <= i < 36 && i != 8 && i != 13 && i != 18 && i != 23 ==> HexUnit(t[i]))
    && 49 <= t[14] <= 56
    && (t[19] == 56 || t[19] == 57 || t[19] == 65 || t[19] == 66 || t[19] == 97 || t[19] == 98)
  }

  function LowerUnit(u: Unit): Unit {
    if 65 <= u <= 90 then u + 32 else u
  }

  /** Lower case of ASCII text. */
  function Lower(t: Text): (r: Text)
    ensures |r| == |t| && forall i :: 0 <= i < |r| ==> r[i] == LowerUnit(t[i])
  {
    seq(|t|, i requires 0 <= i < |t| => LowerUnit(t[i]))
  }

  /** The check of each kind of leaf. */
  predicate LeafAllowed(checks: Checks, kind: Kind, v: Json) {
    match kind
    case Display(longest) => v.String? && |v.text| <= longest && checks.display(v.text)
    case Formula => v.String? && |v.text| <= MAX_TEXT_LENGTH && checks.display(v.text) && checks.formula(v.text)
    case OneOf(allowed) => v.String? && v.text in allowed
    case Whole(least, most) => v.Number? && SafeInteger(v.n) && least <= v.n <= most
    case Element => v.String? && checks.element(v.text)
    case AssetId => v.String? && IsUuid(v.text)
    case _ => false
  }

  /** What a leaf normalizes to. */
  function Leaf(checks: Checks, kind: Kind, v: Json): Option<Json> {
    if !LeafAllowed(checks, kind, v) then None
    else if kind.AssetId? then Some(String(Lower(v.text)))
    else Some(v)
  }

  // ----- Nodes -----------------------------------------------------------------------------

  /** A field's value and the counters after it. */
  function Normal(checks: Checks, kind: Kind, v: Json, c: Counters): Option<(Json, Counters)>
    decreases v, Width(v) + 3
  {
    match kind
    case Node(cls) => NormalNode(checks, cls, v, c)
    case Nodes(cls) =>
      if !v.Array? || |v.items| == 0 then None
      else
        var (items, after) :- NormalItems(checks, cls, v, 0, c);
        Some((Array(items), after))
    case _ =>
      var leaf :- Leaf(checks, kind, v);
      Some((leaf, c))
  }

  /** The items of a list from `i` on. */
  function NormalItems(checks: Checks, cls: Class, v: Json, i: nat, c: Counters): Option<(seq<Json>, Counters)>
    requires v.Array? && i <= |v.items|
    decreases v, |v.items| - i
  {
    if i == |v.items| then Some(([], c))
    else
      var (item, c1) :- NormalNode(checks, cls, v.items[i], c);
      var (rest, c2) :- NormalItems(checks, cls, v, i + 1, c1);
      Some(([item] + rest, c2))
  }

  function NormalNode(checks: Checks, cls: Class, v: Json, c: Counters): Option<(Json, Counters)>
    decreases v, Width(v) + 2
  {
    if !v.Object? then None
    else
      var tag := TagOf(cls, v.members);
      var fields :- FieldsFor(cls, tag, Products(v.members));
      var counted := Count(c, cls, tag);
      if !Bounded(counted) || !KnownKeys(v.members, fields) then None
      else
        var (members, after) :- NormalFields(checks, fields, v, counted);
        Some((Object(members), after))
  }

  /** The members of the normal form, in schema order. */
  function NormalFields(checks: Checks, fields: seq<Field>, v: Json, c: Counters): Option<(seq<Member>, Counters)>
    requires v.Object?
    decreases v, 1, |fields|
  {
    if fields == [] then Some(([], c))
    else
      var value := Find(v.members, fields[0].key);
      if value == None then
        if fields[0].required then None else NormalFields(checks, fields[1..], v, c)
      else
        FindSmaller(v.members, fields[0].key);
        var (w, c1) :- Normal(checks, fields[0].kind, value.value, c);
        var (rest, c2) :- NormalFields(checks, fields[1..], v, c1);
        Some(([Member(fields[0].key, w)] + rest, c2))
  }

  /** Accepted data in normal form, or a refusal. */
  function NormalizeRichContent(checks: Checks, v: Json): Option<Json> {
    if !Accepted(v) then None
    else
      var (w, _) :- NormalNode(checks, Envelope, v, Counters(0, 0, 0));
      Some(w)
  }

  // ----- The normal form is normal ---------------------------------------------------------

  lemma {:induction false} LowerUuid(t: Text)
    requires IsUuid(t)
    ensures IsUuid(Lower(t)) && Lower(Lower(t)) == Lower(t)
  {
  }

  lemma {:induction false} LeafAgain(checks: Checks, kind: Kind, v: Json)
    requires Leaf(checks, kind, v).Some?
    ensures Leaf(checks, kind, Leaf(checks, kind, v).value) == Leaf(checks, kind, v)
  {
    if kind.AssetId? {
      LowerUuid(v.text);
    }
    hide IsUuid, Lower, SafeInteger;
  }

  /** Written members carry only keys of the schema. */
  lemma {:induction false} WrittenKeys(checks: Checks, fields: seq<Field>, v: Json, c: Counters)
    requires v.Object? && NormalFields(checks, fields, v, c).Some?
    ensures KnownKeys(NormalFields(checks, fields, v, c).value.0, fields)
    decreases fields
  {
    if fields != [] {
      hide Normal, Find;
      var f, value := fields[0], Find(v.members, fields[0].key);
      var c1 := if value == None then c else Normal(checks, f.kind, value.value, c).value.1;
      WrittenKeys(checks, fields[1..], v, c1);
      var rest := NormalFields(checks, fields[1..], v, c1).value.0;
      var all := NormalFields(checks, fields, v, c).value.0;
      forall i | 0 <= i < |all|
        ensures HasField(fields, all[i].key)
      {
        if all[i] in rest {
          var j :| 0 <= j < |rest| && rest[j] == all[i];
          LaterField(fields, rest[j].key);
        } else {
          assert fields[0].key == all[i].key;
        }
      }
    }
  }

  lemma {:induction false} LaterField(fields: seq<Field>, key: Text)
    requires fields != [] && HasField(fields[1..], key)
    ensures HasField(fields, key)
  {
    var i :| 0 <= i < |fields[1..]| && fields[1..][i].key == key;
    assert fields[i + 1].key == key;
  }

  /** Reading the fields one by one: the first one, then the others. */
  lemma {:induction false} FieldsUnfold(checks: Checks, fields: seq<Field>, v: Json, c: Counters)
    requires v.Object? && fields != [] && NormalFields(checks, fields, v, c).Some?
    ensures var value := Find(v.members, fields[0].key);
            if value == None then NormalFields(checks, fields, v, c) == NormalFields(checks, fields[1..], v, c)
            else
              var first := Normal(checks, fields[0].kind, value.value, c);
              && first.Some?
              && NormalFields(checks, fields[1..], v, first.value.1).Some?
              && NormalFields(checks, fields, v, c) ==
                   Some(([Member(fields[0].key, first.value.0)] + NormalFields(checks, fields[1..], v, first.value.1).value.0,
                         NormalFields(checks, fields[1..], v, first.value.1).value.1))
  {
    hide Normal, Find;
  }

  lemma {:induction false} FindCons(m: Member, rest: seq<Member>, key: Text)
    ensures Find([m] + rest, key) == if m.key == key then Some(m.value) else Find(rest, key)
  {
    assert ([m] + rest)[1..] == rest;
  }

  /** A field is written exactly when the schema has it and the data gave it. */
  lemma {:induction false} FindWritten(checks: Checks, fields: seq<Field>, v: Json, c: Counters, key: Text)
    requires v.Object? && NormalFields(checks, fields, v, c).Some?
    ensures Find(NormalFields(checks, fields, v, c).value.0, key).Some? <==> HasField(fields, key) && Find(v.members, key).Some?
    decreases fields
  {
    if fields == [] {
      assert !HasField(fields, key);
    } else {
      FieldsUnfold(checks, fields, v, c);
      FieldHere(fields, key);
      hide NormalFields, Normal, Find, HasField;
      var value := Find(v.members, fields[0].key);
      if value == None {
        FindWritten(checks, fields[1..], v, c, key);
      } else {
        var first := Normal(checks, fields[0].kind, value.value, c).value;
        FindWritten(checks, fields[1..], v, first.1, key);
        FindCons(Member(fields[0].key, first.0), NormalFields(checks, fields[1..], v, first.1).value.0, key);
      }
    }
  }

  lemma {:induction false} FieldHere(fields: seq<Field>, key: Text)
    requires fields != []
    ensures HasField(fields, key) <==> fields[0].key == key || HasField(fields[1..], key)
  {
    if HasField(fields[1..], key) {
      LaterField(fields, key);
    }
    if HasField(fields, key) && fields[0].key != key {
      var i :| 0 <= i < |fields| && fields[i].key == key;
      assert fields[1..][i - 1].key == key;
    }
  }

  lemma {:induction false} DistinctTail(fields: seq<Field>)
    requires fields != [] && DistinctFields(fields)
    ensures DistinctFields(fields[1..]) && !HasField(fields[1..], fields[0].key)
  {
  }

  /** The members hold, for every field, what was written for it. */
  predicate Agrees(fields: seq<Field>, members: seq<Member>, written: seq<Member>) {
    forall i :: 0 <= i < |fields| ==> Find(members, fields[i].key) == Find(written, fields[i].key)
  }

  lemma {:induction false} AgreesTail(fields: seq<Field>, members: seq<Member>, m: Member, rest: seq<Member>)
    requires fields != [] && DistinctFields(fields) && m.key == fields[0].key
    requires Agrees(fields, members, [m] + rest)
    ensures Agrees(fields[1..], members, rest) && Find(members, fields[0].key) == Some(m.value)
  {
    hide Find;
    FindCons(m, rest, fields[0].key);
    forall i | 0 <= i < |fields[1..]|
      ensures Find(members, fields[1..][i].key) == Find(rest, fields[1..][i].key)
    {
      FindCons(m, rest, fields[i + 1].key);
      assert fields[1..][i] == fields[i + 1];
    }
  }

  lemma {:induction false} AgreesSkip(fields: seq<Field>, members: seq<Member>, written: seq<Member>)
    requires fields != [] && Agrees(fields, members, written)
    ensures Agrees(fields[1..], members, written) && Find(members, fields[0].key) == Find(written, fields[0].key)
  {
    hide Find;
    assert forall i :: 0 <= i < |fields[1..]| ==> fields[1..][i] == fields[i + 1];
  }

  lemma {:induction false} FieldsAgain(checks: Checks, fields: seq<Field>, v: Json, c: Counters, w: Json)
    requires v.Object? && w.Object? && DistinctFields(fields) && NormalFields(checks, fields, v, c).Some?
    requires Agrees(fields, w.members, NormalFields(checks, fields, v, c).value.0)
    ensures NormalFields(checks, fields, w, c) == NormalFields(checks, fields, v, c)
    decreases v, 1, |fields|
  {
    if fields != [] {
      var key := fields[0].key;
      var value := Find(v.members, key);
      FieldsUnfold(checks, fields, v, c);
      DistinctTail(fields);
      if value == None {
        FindWritten(checks, fields, v, c, key);
        AgreesSkip(fields, w.members, NormalFields(checks, fields, v, c).value.0);
        FieldsAgain(checks, fields[1..], v, c, w);
        OptionalHere(checks, fields, v, c);
      } else {
        FindSmaller(v.members, key);
        NormalAgain(checks, fields[0].kind, value.value, c);
        var first := Normal(checks, fields[0].kind, value.value, c).value;
        AgreesTail(fields, w.members, Member(key, first.0), NormalFields(checks, fields[1..], v, first.1).value.0);
        FieldsAgain(checks, fields[1..], v, first.1, w);
      }
      hide Normal, Find, DistinctFields, Agrees, HasField;
    }
  }

  lemma {:induction false} OptionalHere(checks: Checks, fields: seq<Field>, v: Json, c: Counters)
    requires v.Object? && fields != [] && NormalFields(checks, fields, v, c).Some?
    requires Find(v.members, fields[0].key) == None
    ensures !fields[0].required
  {
  }

  lemma {:induction false} ItemsAgain(checks: Checks, cls: Class, v: Json, i: nat, c: Counters, w: Json)
    requires v.Array? && w.Array? && i <= |v.items| == |w.items|
    requires NormalItems(checks, cls, v, i, c).Some? && w.items[i..] == NormalItems(checks, cls, v, i, c).value.0
    ensures NormalItems(checks, cls, w, i, c) == NormalItems(checks, cls, v, i, c)
    decreases v, |v.items| - i
  {
    if i < |v.items| {
      NodeAgain(checks, cls, v.items[i], c);
      var first := NormalNode(checks, cls, v.items[i], c).value;
      assert w.items[i..][0] == w.items[i] && w.items[i..][1..] == w.items[i + 1..];
      ItemsAgain(checks, cls, v, i + 1, first.1, w);
      hide NormalNode;
    }
  }

  lemma {:induction false} ItemsLength(checks: Checks, cls: Class, v: Json, i: nat, c: Counters)
    requires v.Array? && i <= |v.items| && NormalItems(checks, cls, v, i, c).Some?
    ensures |NormalItems(checks, cls, v, i, c).value.0| == |v.items| - i
    decreases |v.items| - i
  {
    hide NormalNode;
    if i < |v.items| {
      ItemsLength(checks, cls, v, i + 1, NormalNode(checks, cls, v.items[i], c).value.1);
    }
  }

  /** The normal form of a value is its own normal form, at the same cost. */
  lemma {:induction false} NormalAgain(checks: Checks, kind: Kind, v: Json, c: Counters)
    requires Normal(checks, kind, v, c).Some?
    ensures Normal(checks, kind, Normal(checks, kind, v, c).value.0, c) == Normal(checks, kind, v, c)
    decreases v, Width(v) + 3
  {
    match kind
    case Node(cls) => NodeAgain(checks, cls, v, c);
    case Nodes(cls) =>
      var items := NormalItems(checks, cls, v, 0, c).value.0;
      ItemsLength(checks, cls, v, 0, c);
      assert items[0..] == items;
      ItemsAgain(checks, cls, v, 0, c, Array(items));
    case _ => LeafAgain(checks, kind, v);
  }

  lemma {:induction false} KeptTag(checks: Checks, fields: seq<Field>, v: Json, c: Counters, key: Text, tag: Text)
    requires v.Object? && DistinctFields(fields) && NormalFields(checks, fields, v, c).Some? && FixesTag(fields, key, tag)
    ensures Find(NormalFields(checks, fields, v, c).value.0, key) == Some(String(tag))
    decreases fields
  {
    FieldsUnfold(checks, fields, v, c);
    DistinctTail(fields);
    var value := Find(v.members, fields[0].key);
    if value == None {
      OptionalHere(checks, fields, v, c);
      assert FixesTag(fields[1..], key, tag);
      KeptTag(checks, fields[1..], v, c, key, tag);
    } else {
      var first := Normal(checks, fields[0].kind, value.value, c).value;
      var rest := NormalFields(checks, fields[1..], v, first.1).value.0;
      FindCons(Member(fields[0].key, first.0), rest, key);
      if fields[0] != Field(key, OneOf([tag]), true) {
        assert FixesTag(fields[1..], key, tag);
        KeptTag(checks, fields[1..], v, first.1, key, tag);
        KeyThere(fields[1..], key, tag);
      }
    }
  }

  lemma {:induction false} KeyThere(fields: seq<Field>, key: Text, tag: Text)
    requires FixesTag(fields, key, tag)
    ensures HasField(fields, key)
  {
    var i :| 0 <= i < |fields| && fields[i] == Field(key, OneOf([tag]), true);
  }

  lemma {:induction false} UnknownAbsent(members: seq<Member>, fields: seq<Field>, key: Text)
    requires KnownKeys(members, fields) && !HasField(fields, key)
    ensures Find(members, key) == None
    decreases members
  {
    if members != [] {
      assert forall i :: 0 <= i < |members[1..]| ==> members[1..][i] == members[i + 1];
      assert HasField(fields, members[0].key);
      UnknownAbsent(members[1..], fields, key);
    }
  }

  lemma {:induction false} NodeAgain(checks: Checks, cls: Class, v: Json, c: Counters)
    requires NormalNode(checks, cls, v, c).Some?
    ensures NormalNode(checks, cls, NormalNode(checks, cls, v, c).value.0, c) == NormalNode(checks, cls, v, c)
    decreases v, Width(v) + 2
  {
    var tag, products := TagOf(cls, v.members), Products(v.members);
    var fields := FieldsFor(cls, tag, products).value;
    var counted := Count(c, cls, tag);
    var written := NormalFields(checks, fields, v, counted).value.0;
    SchemaDistinct(cls, tag, products);
    FieldsAgain(checks, fields, v, counted, Object(written));
    WrittenKeys(checks, fields, v, counted);
    SameShape(checks, cls, v, c);
    hide NormalFields, FieldsFor, Count, Bounded, KnownKeys;
  }

  lemma {:induction false} SameProducts(checks: Checks, cls: Class, v: Json, c: Counters)
    requires NormalNode(checks, cls, v, c).Some? && NormalNode(checks, cls, v, c).value.0.Object?
    ensures Products(NormalNode(checks, cls, v, c).value.0.members) == Products(v.members)
  {
    var tag, products := TagOf(cls, v.members), Products(v.members);
    var fields := FieldsFor(cls, tag, products).value;
    var key := Literal("products");
    FindWritten(checks, fields, v, Count(c, cls, tag), key);
    hide FieldsFor, Find, Count, RichSchema.Bounded, Literal, NormalFields;
    if !HasField(fields, key) {
      UnknownAbsent(v.members, fields, key);
    }
  }

  lemma {:induction false} SameTag(checks: Checks, cls: Class, v: Json, c: Counters)
    requires NormalNode(checks, cls, v, c).Some? && NormalNode(checks, cls, v, c).value.0.Object?
    ensures TagOf(cls, NormalNode(checks, cls, v, c).value.0.members) == TagOf(cls, v.members)
  {
    var tag, products := TagOf(cls, v.members), Products(v.members);
    var fields := FieldsFor(cls, tag, products).value;
    SchemaDistinct(cls, tag, products);
    if TagKey(cls).Some? {
      SchemaNeedsTag(cls, tag, products);
      SchemaFixesTag(cls, tag.value, products);
      KeptTag(checks, fields, v, Count(c, cls, tag), TagKey(cls).value, tag.value);
    }
    hide FieldsFor, Find, Count, RichSchema.Bounded, Literal, NormalFields, DistinctFields;
  }

  /** The written members choose the same schema again. */
  lemma {:induction false} SameShape(checks: Checks, cls: Class, v: Json, c: Counters)
    requires NormalNode(checks, cls, v, c).Some?
    ensures var written := NormalNode(checks, cls, v, c).value.0;
            && written.Object?
            && TagOf(cls, written.members) == TagOf(cls, v.members)
            && Products(written.members) == Products(v.members)
  {
    SameTag(checks, cls, v, c);
    SameProducts(checks, cls, v, c);
    hide TagOf, Products, FieldsFor;
  }

  lemma {:induction false} SchemaNeedsTag(cls: Class, tag: Option<Text>, products: bool)
    requires TagKey(cls).Some? && FieldsFor(cls, tag, products).Some?
    ensures tag.Some?
  {
  }

  // ----- The normal form weighs the same ---------------------------------------------------

  /** No object holds a key twice, as in the source's objects. */
  predicate DistinctMembers(members: seq<Member>) {
    forall i, j :: 0 <= i < j < |members| ==> members[i].key != members[j].key
  }

  predicate Distinct(v: Json)
    decreases v
  {
    match v
    case Array(items) => forall i :: 0 <= i < |items| ==> Distinct(items[i])
    case Object(members) => DistinctMembers(members) && forall i :: 0 <= i < |members| ==> Distinct(members[i].value)
    case _ => true
  }

  /** How many members, and what they weigh without commas. */
  datatype Tally = Tally(count: nat, load: Load)

  function Add(a: Tally, b: Tally): Tally {
    Tally(a.count + b.count, Plus(a.load, b.load))
  }

  const NOTHING := Tally(0, Load(0, 0, 0))

  function One(key: Text, value: Json, depth: nat): Tally {
    Tally(1, Plus(KeyLoad(key), LoadOf(value, depth + 1)))
  }

  function MembersTally(members: seq<Member>, depth: nat): Tally {
    if members == [] then NOTHING
    else Add(One(members[0].key, members[0].value, depth), MembersTally(members[1..], depth))
  }

  /** The same sum, taken in schema order. */
  function FieldsTally(fields: seq<Field>, members: seq<Member>, depth: nat): Tally {
    if fields == [] then NOTHING
    else
      var value := Find(members, fields[0].key);
      var rest := FieldsTally(fields[1..], members, depth);
      if value == None then rest else Add(One(fields[0].key, value.value, depth), rest)
  }

  lemma {:induction false} TallyUnknown(fields: seq<Field>, m: Member, rest: seq<Member>, depth: nat)
    requires !HasField(fields, m.key)
    ensures FieldsTally(fields, [m] + rest, depth) == FieldsTally(fields, rest, depth)
    decreases fields
  {
    if fields != [] {
      hide One, Find;
      FieldHere(fields, m.key);
      FindCons(m, rest, fields[0].key);
      TallyUnknown(fields[1..], m, rest, depth);
    }
  }

  lemma {:induction false} TallyFront(fields: seq<Field>, m: Member, rest: seq<Member>, depth: nat)
    requires DistinctFields(fields) && HasField(fields, m.key) && Find(rest, m.key) == None
    ensures FieldsTally(fields, [m] + rest, depth) == Add(One(m.key, m.value, depth), FieldsTally(fields, rest, depth))
    decreases fields
  {
    hide One, Find;
    FieldHere(fields, m.key);
    FindCons(m, rest, fields[0].key);
    DistinctTail(fields);
    hide HasField, DistinctFields;
    if fields[0].key == m.key {
      TallyUnknown(fields[1..], m, rest, depth);
    } else {
      TallyFront(fields[1..], m, rest, depth);
    }
  }

  lemma {:induction false} NotFound(members: seq<Member>, key: Text)
    requires forall i :: 0 <= i < |members| ==> members[i].key != key
    ensures Find(members, key) == None
    decreases members
  {
    if members != [] {
      NotFound(members[1..], key);
    }
  }

  lemma {:induction false} TallyEmpty(fields: seq<Field>, depth: nat)
    ensures FieldsTally(fields, [], depth) == NOTHING
    decreases fields
  {
    if fields != [] {
      TallyEmpty(fields[1..], depth);
    }
  }

  /** Schema order changes no sum. */
  lemma {:induction false} TallyReordered(fields: seq<Field>, members: seq<Member>, depth: nat)
    requires DistinctFields(fields) && DistinctMembers(members) && KnownKeys(members, fields)
    ensures FieldsTally(fields, members, depth) == MembersTally(members, depth)
    decreases members
  {
    hide FieldsTally, MembersTally, One, KnownKeys, DistinctMembers, DistinctFields, HasField, Find;
    if members == [] {
      TallyEmpty(fields, depth);
      TallyNone(members, depth);
    } else {
      var m, rest := members[0], members[1..];
      KnownTail(members, fields);
      MembersTail(members);
      TallyReordered(fields, rest, depth);
      TallyFront(fields, m, rest, depth);
      TallyStep(members, depth);
      assert members == [m] + rest;
    }
  }

  lemma {:induction false} MembersTail(members: seq<Member>)
    requires members != [] && DistinctMembers(members)
    ensures DistinctMembers(members[1..]) && Find(members[1..], members[0].key) == None
  {
    NotFound(members[1..], members[0].key);
  }

  lemma {:induction false} KnownTail(members: seq<Member>, fields: seq<Field>)
    requires members != [] && KnownKeys(members, fields)
    ensures KnownKeys(members[1..], fields) && HasField(fields, members[0].key)
  {
    assert forall i :: 0 <= i < |members[1..]| ==> members[1..][i] == members[i + 1];
  }

  function Commas(n: nat): nat {
    if n == 0 then 0 else n - 1
  }

  /** An object weighs its brackets, its commas and its members. */
  lemma {:induction false} PartsTally(v: Json, i: nat, depth: nat)
    requires v.Object? && i <= |v.members|
    ensures var tally := MembersTally(v.members[i..], depth);
            var commas := if i == 0 then Commas(|v.members|) else |v.members| - i;
            tally.count == |v.members| - i && PartsLoad(v, i, depth) == Plus(Load(commas, 0, 0), tally.load)
    decreases |v.members| - i
  {
    hide PartsLoad, MembersTally, PartLoad, One, Separator, Plus;
    if i == |v.members| {
      PlusNothing();
      PartsEnd(v, depth);
      TallyNone(v.members[i..], depth);
    } else {
      PartsStep(v, i, depth);
      PartOne(v, i, depth);
      SeparatorLength(i);
      PartsTally(v, i + 1, depth);
      TallyStep(v.members[i..], depth);
      assert v.members[i..][1..] == v.members[i + 1..];
      PlusShuffle(|Separator(i)|, PartLoad(v, i, depth), |v.members| - i - 1, MembersTally(v.members[i + 1..], depth).load);
    }
  }

  lemma PlusNothing()
    ensures Plus(Load(0, 0, 0), Load(0, 0, 0)) == Load(0, 0, 0)
  {
  }

  lemma {:induction false} PlusShuffle(separator: nat, part: Load, commas: nat, rest: Load)
    ensures Plus(Plus(Load(separator, 0, 0), part), Plus(Load(commas, 0, 0), rest))
         == Plus(Load(separator + commas, 0, 0), Plus(part, rest))
  {
  }

  lemma {:induction false} TallyNone(members: seq<Member>, depth: nat)
    requires members == []
    ensures MembersTally(members, depth) == NOTHING
  {
  }

  lemma {:induction false} PartOne(v: Json, i: nat, depth: nat)
    requires v.Object? && i < Width(v)
    ensures One(v.members[i].key, v.members[i].value, depth) == Tally(1, PartLoad(v, i, depth))
  {
    hide LoadOf, KeyLoad;
  }

  lemma {:induction false} SeparatorLength(i: nat)
    ensures |Separator(i)| == if i == 0 then 0 else 1
  {
  }

  lemma {:induction false} TallyStep(members: seq<Member>, depth: nat)
    requires members != []
    ensures MembersTally(members, depth) == Add(One(members[0].key, members[0].value, depth), MembersTally(members[1..], depth))
  {
  }

  /** An object's load is settled by its tally. */
  lemma {:induction false} ObjectLoad(v: Json, w: Json, depth: nat)
    requires v.Object? && w.Object? && MembersTally(v.members, depth) == MembersTally(w.members, depth)
    ensures LoadOf(v, depth) == LoadOf(w, depth)
  {
    hide LoadOf, PartsLoad, MembersTally;
    PartsTally(v, 0, depth);
    PartsTally(w, 0, depth);
    assert v.members[0..] == v.members && w.members[0..] == w.members;
    assert PartsLoad(v, 0, depth) == PartsLoad(w, 0, depth);
    OwnPart(v, depth);
    OwnPart(w, depth);
  }

  lemma {:induction false} PlainEscape(t: Text)
    requires forall i :: 0 <= i < |t| ==> 32 <= t[i] < 128 && t[i] != QUOTE && t[i] != BACKSLASH
    ensures Escape(t) == t
    decreases t
  {
    if t != [] {
      PlainEscape(t[1..]);
      assert t == [t[0]] + t[1..];
    }
  }

  lemma {:induction false} PlainBytes(t: Text)
    requires forall i :: 0 <= i < |t| ==> 32 <= t[i] < 128 && t[i] != QUOTE && t[i] != BACKSLASH
    ensures TextBytes(t) == |t| + 2
  {
    hide Escape;
    PlainEscape(t);
    Utf8Ascii(Quote(t));
  }

  lemma {:induction false} UuidPlain(t: Text)
    requires IsUuid(t)
    ensures forall i :: 0 <= i < |t| ==> 32 <= t[i] < 128 && t[i] != QUOTE && t[i] != BACKSLASH
  {
  }

  lemma {:induction false} LowerLoad(t: Text, depth: nat)
    requires IsUuid(t)
    ensures LoadOf(String(Lower(t)), depth) == LoadOf(String(t), depth)
  {
    LowerUuid(t);
    UuidPlain(t);
    UuidPlain(Lower(t));
    hide IsUuid, TextBytes, LoadOf, PartsLoad;
    PlainBytes(t);
    PlainBytes(Lower(t));
    OwnPart(String(t), depth);
    OwnPart(String(Lower(t)), depth);
  }

  lemma {:induction false} LeafLoad(checks: Checks, kind: Kind, v: Json, depth: nat)
    requires Leaf(checks, kind, v).Some?
    ensures LoadOf(Leaf(checks, kind, v).value, depth) == LoadOf(v, depth)
  {
    hide LoadOf, IsUuid, Lower, SafeInteger;
    if kind.AssetId? {
      LowerLoad(v.text, depth);
    }
  }

  lemma {:induction false} FindDistinct(v: Json, key: Text)
    requires v.Object? && Distinct(v) && Find(v.members, key).Some?
    ensures Distinct(Find(v.members, key).value)
  {
    FindSmaller(v.members, key);
    hide Find;
  }

  lemma {:induction false} FieldsLoad(checks: Checks, fields: seq<Field>, v: Json, c: Counters, depth: nat)
    requires v.Object? && Distinct(v) && NormalFields(checks, fields, v, c).Some?
    ensures MembersTally(NormalFields(checks, fields, v, c).value.0, depth) == FieldsTally(fields, v.members, depth)
    decreases v, 1, |fields|
  {
    if fields == [] {
      TallyNone([], depth);
    } else {
      var key := fields[0].key;
      FieldsUnfold(checks, fields, v, c);
      var value := Find(v.members, key);
      if value == None {
        FieldsLoad(checks, fields[1..], v, c, depth);
        hide Distinct, Normal, Find;
      } else {
        FindSmaller(v.members, key);
        FindDistinct(v, key);
        NormalLoad(checks, fields[0].kind, value.value, c, depth + 1);
        var first := Normal(checks, fields[0].kind, value.value, c).value;
        FieldsLoad(checks, fields[1..], v, first.1, depth);
        hide Distinct, Normal, NormalFields, Find, MembersTally, KeyLoad, LoadOf;
        TallyCons(Member(key, first.0), NormalFields(checks, fields[1..], v, first.1).value.0, depth);
      }
    }
  }

  lemma {:induction false} TallyCons(m: Member, rest: seq<Member>, depth: nat)
    ensures MembersTally([m] + rest, depth) == Add(One(m.key, m.value, depth), MembersTally(rest, depth))
  {
    hide One, Add;
    assert ([m] + rest)[1..] == rest;
  }

  lemma {:induction false} ItemsLoad(checks: Checks, cls: Class, v: Json, i: nat, c: Counters, w: Json, depth: nat)
    requires v.Array? && w.Array? && i <= |v.items| == |w.items| && Distinct(v)
    requires NormalItems(checks, cls, v, i, c).Some? && w.items[i..] == NormalItems(checks, cls, v, i, c).value.0
    ensures PartsLoad(w, i, depth) == PartsLoad(v, i, depth)
    decreases v, |v.items| - i
  {
    hide LoadOf, PartsLoad, PartLoad, Separator, Distinct;
    if i == |v.items| {
      PartsEnd(v, depth);
      PartsEnd(w, depth);
    } else {
      ItemDistinct(v, i);
      NodeLoad(checks, cls, v.items[i], c, depth + 1);
      var first := NormalNode(checks, cls, v.items[i], c).value;
      assert w.items[i..][0] == w.items[i] && w.items[i..][1..] == w.items[i + 1..];
      ItemsLoad(checks, cls, v, i + 1, first.1, w, depth);
      hide NormalNode;
      PartsStep(v, i, depth);
      PartsStep(w, i, depth);
      SamePart(v, w, i, depth);
    }
  }

  lemma {:induction false} ItemDistinct(v: Json, i: nat)
    requires v.Array? && Distinct(v) && i < |v.items|
    ensures Distinct(v.items[i])
  {
  }

  lemma {:induction false} SamePart(v: Json, w: Json, i: nat, depth: nat)
    requires v.Array? && w.Array? && i < Width(v) && i < Width(w)
    requires LoadOf(w.items[i], depth + 1) == LoadOf(v.items[i], depth + 1)
    ensures PartLoad(w, i, depth) == PartLoad(v, i, depth)
  {
    hide LoadOf;
  }

  /** Normalizing changes neither the bytes of the compact text nor any limit the value meets. */
  lemma {:induction false} NormalLoad(checks: Checks, kind: Kind, v: Json, c: Counters, depth: nat)
    requires Distinct(v) && Normal(checks, kind, v, c).Some?
    ensures LoadOf(Normal(checks, kind, v, c).value.0, depth) == LoadOf(v, depth)
    decreases v, Width(v) + 3
  {
    hide LoadOf;
    match kind
    case Node(cls) => NodeLoad(checks, cls, v, c, depth);
    case Nodes(cls) => ListLoad(checks, cls, v, c, depth);
    case _ => LeafLoad(checks, kind, v, depth);
  }

  lemma {:induction false} ListLoad(checks: Checks, cls: Class, v: Json, c: Counters, depth: nat)
    requires v.Array? && Distinct(v) && NormalItems(checks, cls, v, 0, c).Some?
    ensures LoadOf(Array(NormalItems(checks, cls, v, 0, c).value.0), depth) == LoadOf(v, depth)
    decreases v, Width(v) + 2
  {
    var w := Array(NormalItems(checks, cls, v, 0, c).value.0);
    ItemsLength(checks, cls, v, 0, c);
    assert w.items[0..] == w.items;
    ItemsLoad(checks, cls, v, 0, c, w, depth);
    hide LoadOf, PartsLoad, NormalItems;
    OwnPart(v, depth);
    OwnPart(w, depth);
  }

  lemma {:induction false} NodeLoad(checks: Checks, cls: Class, v: Json, c: Counters, depth: nat)
    requires Distinct(v) && NormalNode(checks, cls, v, c).Some?
    ensures LoadOf(NormalNode(checks, cls, v, c).value.0, depth) == LoadOf(v, depth)
    decreases v, Width(v) + 2
  {
    var tag, products := TagOf(cls, v.members), Products(v.members);
    var fields := FieldsFor(cls, tag, products).value;
    var counted := Count(c, cls, tag);
    SchemaDistinct(cls, tag, products);
    FieldsLoad(checks, fields, v, counted, depth);
    hide FieldsFor, NormalFields, FieldsTally, MembersTally, LoadOf, Count, Bounded;
    TallyReordered(fields, v.members, depth);
    ObjectLoad(v, Object(NormalFields(checks, fields, v, counted).value.0), depth);
  }
}
