/**
 Which data the normalizer accepts (rich-content.validation.ts), said without its order of work: every
 value passes the check of the field it stands in, and the counts over the whole tree stay in bounds.
 */
module RichValidity {
  import opened JsonText
  import opened JsonInspection
  import opened RichSchema
  import opened RichContent
  import opened RichContentJson
  import opened Wrappers

  // ----- Shape -----------------------------------------------------------------------------

  /** The value has the shape its place asks for; members may stand in any order. */
  predicate Shaped(checks: Checks, kind: Kind, v: Json)
    decreases v, Width(v) + 3
  {
    match kind
    case Node(cls) => NodeShaped(checks, cls, v)
    case Nodes(cls) => v.Array? && v.items != [] && forall i :: 0 <= i < |v.items| ==> NodeShaped(checks, cls, v.items[i])
    case _ => LeafAllowed(checks, kind, v)
  }

  /** The fields of a node, chosen by its tag and by whether it has products. */
  function FieldsOf(cls: Class, v: Json): Option<seq<Field>> {
    if v.Object? then FieldsFor(cls, TagOf(cls, v.members), Products(v.members)) else None
  }

  predicate NodeShaped(checks: Checks, cls: Class, v: Json)
    decreases v, Width(v) + 2
  {
    var fields := FieldsOf(cls, v);
    && fields.Some?
    && KnownKeys(v.members, fields.value)
    && forall i :: 0 <= i < |fields.value| ==> FieldShaped(checks, fields.value[i], v)
  }

  predicate FieldShaped(checks: Checks, field: Field, v: Json)
    requires v.Object?
    decreases v, 1
  {
    if Find(v.members, field.key).None? then !field.required
    else
      FindSmaller(v.members, field.key);
      Shaped(checks, field.kind, Find(v.members, field.key).value)
  }

  // ----- Complexity ------------------------------------------------------------------------

  const ZERO := Counters(0, 0, 0)

  function Sum(a: Counters, b: Counters): Counters {
    Counters(a.math + b.math, a.chemistry + b.chemistry, a.assets + b.assets)
  }

  /** Expressions, species with their parts, and asset references in the whole value. */
  function Cost(kind: Kind, v: Json): Counters
    decreases v, Width(v) + 3
  {
    match kind
    case Node(cls) => NodeCost(cls, v)
    case Nodes(cls) => if v.Array? then ItemsCost(cls, v, 0) else ZERO
    case _ => ZERO
  }

  function ItemsCost(cls: Class, v: Json, i: nat): Counters
    requires v.Array? && i <= |v.items|
    decreases v, |v.items| - i
  {
    if i == |v.items| then ZERO else Sum(NodeCost(cls, v.items[i]), ItemsCost(cls, v, i + 1))
  }

  function NodeCost(cls: Class, v: Json): Counters
    decreases v, Width(v) + 2
  {
    if FieldsOf(cls, v).None? then ZERO
    else Sum(Count(ZERO, cls, TagOf(cls, v.members)), FieldsCost(FieldsOf(cls, v).value, v))
  }

  function FieldsCost(fields: seq<Field>, v: Json): Counters
    requires v.Object?
    decreases v, 1, |fields|
  {
    if fields == [] then ZERO
    else if Find(v.members, fields[0].key).None? then FieldsCost(fields[1..], v)
    else
      FindSmaller(v.members, fields[0].key);
      Sum(Cost(fields[0].kind, Find(v.members, fields[0].key).value), FieldsCost(fields[1..], v))
  }

  lemma {:induction false} CountIsSum(c: Counters, cls: Class, tag: Option<Text>)
    ensures Count(c, cls, tag) == Sum(c, Count(ZERO, cls, tag))
  {
    hide IsExpression, Literal;
  }

  lemma {:induction false} SumRegroup(a: Counters, b: Counters, c: Counters)
    ensures Sum(Sum(a, b), c) == Sum(a, Sum(b, c))
    ensures RichSchema.Bounded(Sum(Sum(a, b), c)) ==> RichSchema.Bounded(Sum(a, b))
    ensures Sum(a, ZERO) == a
  {
  }

  // ----- Exactly the shaped data within bounds is accepted ---------------------------------

  /** A run of the normalizer succeeds exactly for shaped data within bounds, and counts exactly its cost. */
  ghost predicate Exactly<T>(run: Option<(T, Counters)>, shaped: bool, c: Counters, cost: Counters) {
    && (run.Some? <==> shaped && RichSchema.Bounded(Sum(c, cost)))
    && (run.Some? ==> run.value.1 == Sum(c, cost))
  }

  /** One part after another. */
  lemma {:induction false} ExactlyThen<A, B, C>(
      first: Option<(A, Counters)>, rest: Option<(B, Counters)>, run: Option<(C, Counters)>,
      shaped: bool, restShaped: bool, c: Counters, cost: Counters, restCost: Counters)
    requires Exactly(first, shaped, c, cost)
    requires first.Some? ==> Exactly(rest, restShaped, Sum(c, cost), restCost)
    requires run.Some? <==> first.Some? && rest.Some?
    requires run.Some? ==> run.value.1 == rest.value.1
    ensures Exactly(run, shaped && restShaped, c, Sum(cost, restCost))
  {
    SumRegroup(c, cost, restCost);
    hide RichSchema.Bounded;
  }

  predicate ItemsShaped(checks: Checks, cls: Class, v: Json, i: nat)
    requires v.Array?
  {
    forall k :: i <= k < |v.items| ==> NodeShaped(checks, cls, v.items[k])
  }

  predicate FieldsShaped(checks: Checks, fields: seq<Field>, v: Json)
    requires v.Object?
  {
    forall i :: 0 <= i < |fields| ==> FieldShaped(checks, fields[i], v)
  }

  lemma {:induction false} FieldsShapedStep(checks: Checks, fields: seq<Field>, v: Json)
    requires v.Object? && fields != []
    ensures FieldsShaped(checks, fields, v) <==> FieldShaped(checks, fields[0], v) && FieldsShaped(checks, fields[1..], v)
  {
    hide FieldShaped;
    if FieldsShaped(checks, fields[1..], v) && FieldShaped(checks, fields[0], v) {
      forall i | 0 <= i < |fields|
        ensures FieldShaped(checks, fields[i], v)
      {
        assert i > 0 ==> fields[i] == fields[1..][i - 1];
      }
    }
    if FieldsShaped(checks, fields, v) {
      forall i | 0 <= i < |fields[1..]|
        ensures FieldShaped(checks, fields[1..][i], v)
      {
        assert fields[1..][i] == fields[i + 1];
      }
    }
  }

  lemma {:induction false} FieldsExactly(checks: Checks, fields: seq<Field>, v: Json, c: Counters)
    requires v.Object? && RichSchema.Bounded(c)
    ensures Exactly(NormalFields(checks, fields, v, c), FieldsShaped(checks, fields, v), c, FieldsCost(fields, v))
    decreases v, 1, |fields|
  {
    hide RichSchema.Bounded, FieldsShaped, Exactly;
    if fields == [] {
      assert FieldsShaped(checks, fields, v) by { NoFields(checks, fields, v); }
      NothingExactly(NormalFields(checks, fields, v, c), c);
    } else {
      FieldsShapedStep(checks, fields, v);
      var value := Find(v.members, fields[0].key);
      if value == None {
        FieldsExactly(checks, fields[1..], v, c);
        if fields[0].required {
          RefusedExactly(NormalFields(checks, fields, v, c), c, FieldsCost(fields, v));
        }
      } else {
        FindSmaller(v.members, fields[0].key);
        var first, cost := Normal(checks, fields[0].kind, value.value, c), Cost(fields[0].kind, value.value);
        NormalExactly(checks, fields[0].kind, value.value, c);
        if first.Some? {
          ExactlyCounts(first, Shaped(checks, fields[0].kind, value.value), c, cost);
          FieldsExactly(checks, fields[1..], v, Sum(c, cost));
        }
        var rest := if first.Some? then NormalFields(checks, fields[1..], v, first.value.1) else None;
        hide Find, Normal, Cost, Shaped, Sum;
        ExactlyThen(first, rest, NormalFields(checks, fields, v, c), FieldShaped(checks, fields[0], v),
                    FieldsShaped(checks, fields[1..], v), c, cost, FieldsCost(fields[1..], v));
      }
    }
  }

  lemma {:induction false} NoFields(checks: Checks, fields: seq<Field>, v: Json)
    requires v.Object? && fields == []
    ensures FieldsShaped(checks, fields, v)
  {
  }

  lemma {:induction false} RefusedExactly<T>(run: Option<(T, Counters)>, c: Counters, cost: Counters)
    requires run.None?
    ensures Exactly(run, false, c, cost)
  {
  }

  lemma {:induction false} ItemsShapedStep(checks: Checks, cls: Class, v: Json, i: nat)
    requires v.Array? && i <= |v.items|
    ensures i == |v.items| ==> ItemsShaped(checks, cls, v, i)
    ensures i < |v.items| ==>
              (ItemsShaped(checks, cls, v, i) <==> NodeShaped(checks, cls, v.items[i]) && ItemsShaped(checks, cls, v, i + 1))
  {
    hide NodeShaped;
  }

  /** The items from `i` on: the first one, then the others. */
  lemma {:induction false} ItemsUnfold(checks: Checks, cls: Class, v: Json, i: nat, c: Counters)
    requires v.Array? && i < |v.items|
    ensures ItemsCost(cls, v, i) == Sum(NodeCost(cls, v.items[i]), ItemsCost(cls, v, i + 1))
    ensures var first := NormalNode(checks, cls, v.items[i], c);
            var run := NormalItems(checks, cls, v, i, c);
            if first.None? then run.None?
            else
              var rest := NormalItems(checks, cls, v, i + 1, first.value.1);
              (run.Some? <==> rest.Some?) && (run.Some? ==> run.value.1 == rest.value.1)
  {
    hide NormalNode, NodeCost;
  }

  lemma {:induction false} ItemsExactly(checks: Checks, cls: Class, v: Json, i: nat, c: Counters)
    requires v.Array? && i <= |v.items| && RichSchema.Bounded(c)
    ensures Exactly(NormalItems(checks, cls, v, i, c), ItemsShaped(checks, cls, v, i), c, ItemsCost(cls, v, i))
    decreases v, |v.items| - i
  {
    hide RichSchema.Bounded, NodeShaped, ItemsShaped, Exactly, NormalNode, NodeCost, Sum;
    ItemsShapedStep(checks, cls, v, i);
    if i == |v.items| {
      NothingExactly(NormalItems(checks, cls, v, i, c), c);
    } else {
      ItemsUnfold(checks, cls, v, i, c);
      hide NormalItems, ItemsCost;
      var first, cost := NormalNode(checks, cls, v.items[i], c), NodeCost(cls, v.items[i]);
      NodeExactly(checks, cls, v.items[i], c);
      if first.Some? {
        ExactlyCounts(first, NodeShaped(checks, cls, v.items[i]), c, cost);
        ItemsExactly(checks, cls, v, i + 1, Sum(c, cost));
      }
      var rest := if first.Some? then NormalItems(checks, cls, v, i + 1, first.value.1) else None;
      ExactlyThen(first, rest, NormalItems(checks, cls, v, i, c), NodeShaped(checks, cls, v.items[i]),
                  ItemsShaped(checks, cls, v, i + 1), c, cost, ItemsCost(cls, v, i + 1));
    }
  }

  lemma {:induction false} ExactlyCounts<T>(run: Option<(T, Counters)>, shaped: bool, c: Counters, cost: Counters)
    requires Exactly(run, shaped, c, cost) && run.Some?
    ensures run.value.1 == Sum(c, cost) && RichSchema.Bounded(Sum(c, cost))
  {
  }

  lemma {:induction false} NothingExactly<T>(run: Option<(T, Counters)>, c: Counters)
    requires RichSchema.Bounded(c) && run.Some? && run.value.1 == c
    ensures Exactly(run, true, c, ZERO)
  {
  }

  lemma {:induction false} NormalExactly(checks: Checks, kind: Kind, v: Json, c: Counters)
    requires RichSchema.Bounded(c)
    ensures Exactly(Normal(checks, kind, v, c), Shaped(checks, kind, v), c, Cost(kind, v))
    decreases v, Width(v) + 3
  {
    match kind
    case Node(cls) => NodeExactly(checks, cls, v, c);
    case Nodes(cls) =>
      if v.Array? {
        ItemsExactly(checks, cls, v, 0, c);
      }
    case _ => SumRegroup(c, ZERO, ZERO);
  }

  lemma {:induction false} NodeExactly(checks: Checks, cls: Class, v: Json, c: Counters)
    requires RichSchema.Bounded(c)
    ensures Exactly(NormalNode(checks, cls, v, c), NodeShaped(checks, cls, v), c, NodeCost(cls, v))
    decreases v, Width(v) + 2
  {
    hide RichSchema.Bounded, FieldsFor, Count, KnownKeys;
    if FieldsOf(cls, v).Some? {
      var fields, tag := FieldsOf(cls, v).value, TagOf(cls, v.members);
      var counted, known := Count(c, cls, tag), KnownKeys(v.members, fields);
      CountIsSum(c, cls, tag);
      var first := if RichSchema.Bounded(counted) && known then Some(((), counted)) else None;
      assert Exactly(first, known, c, Count(ZERO, cls, tag));
      if first.Some? {
        FieldsExactly(checks, fields, v, counted);
      }
      var rest := if first.Some? then NormalFields(checks, fields, v, counted) else None;
      hide Exactly, NormalFields, FieldsCost;
      ExactlyThen(first, rest, NormalNode(checks, cls, v, c), known, FieldsShaped(checks, fields, v),
                  c, Count(ZERO, cls, tag), FieldsCost(fields, v));
    } else {
      hide Exactly;
      RefusedExactly(NormalNode(checks, cls, v, c), c, ZERO);
    }
  }

  /**
   Content is accepted exactly when the inspection passes, every value passes the check of the field it
   stands in, and the expressions, chemistry and assets of the whole document stay within their bounds.
   */
  lemma {:induction false} NormalizeIff(checks: Checks, v: Json)
    ensures NormalizeRichContent(checks, v).Some? <==>
              Accepted(v) && NodeShaped(checks, Envelope, v) && RichSchema.Bounded(NodeCost(Envelope, v))
  {
    hide NormalNode, NodeShaped, NodeCost, Accepted;
    NodeExactly(checks, Envelope, v, ZERO);
    SumRegroup(NodeCost(Envelope, v), ZERO, ZERO);
  }

  /** Every value of a normal form passes the check of the field it stands in. */
  lemma {:induction false} NormalFormShaped(checks: Checks, v: Json)
    requires Distinct(v) && NormalizeRichContent(checks, v).Some?
    ensures NodeShaped(checks, Envelope, NormalizeRichContent(checks, v).value)
    ensures RichSchema.Bounded(NodeCost(Envelope, NormalizeRichContent(checks, v).value))
  {
    hide NormalizeRichContent, NodeShaped, NodeCost, Accepted, Distinct;
    NormalizeIdempotent(checks, v);
    NormalizeIff(checks, NormalizeRichContent(checks, v).value);
  }
}
