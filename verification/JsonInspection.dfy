/**
 The inspection every rich-content value passes first (rich-content.validation.ts): depth, width,
 container and text limits, and a meter of compact JSON bytes that never builds the text.
 */
module JsonInspection {
  import opened JsonText

  const MAX_UTF8_BYTES: nat := 65536
  const MAX_TOTAL_NODES: nat := 1024
  const MAX_NESTING_DEPTH: nat := 16
  const MAX_TEXT_LENGTH: nat := 8000
  const MAX_NODE_PROPERTIES: nat := 5
  const MAX_SAFE_INTEGER: int := 9007199254740991

  predicate Forbidden(key: Text) {
    key == Literal("__proto__") || key == Literal("prototype") || key == Literal("constructor")
  }

  predicate SafeInteger(n: int) {
    -MAX_SAFE_INTEGER <= n <= MAX_SAFE_INTEGER
  }

  function TextBytes(t: Text): nat {
    Utf8Length(Quote(t))
  }

  // ----- What a value weighs ---------------------------------------------------------------

  /** Compact bytes, arrays and objects, and places that break a limit on their own. */
  datatype Load = Load(bytes: nat, containers: nat, faults: nat)

  function Plus(a: Load, b: Load): Load {
    Load(a.bytes + b.bytes, a.containers + b.containers, a.faults + b.faults)
  }

  function Fault(broken: bool): nat {
    if broken then 1 else 0
  }

  function OwnLoad(v: Json, depth: nat): Load {
    var deep := Fault(depth > MAX_NESTING_DEPTH);
    match v
    case Null => Load(4, 0, deep)
    case Bool(b) => Load(if b then 4 else 5, 0, deep)
    case Number(n) => Load(|NumberText(n)|, 0, deep + Fault(!SafeInteger(n)))
    case String(t) => Load(TextBytes(t), 0, deep + Fault(|t| > MAX_TEXT_LENGTH))
    case Array(items) => Load(2, 1, deep + Fault(|items| > MAX_TOTAL_NODES))
    case Object(members) => Load(2, 1, deep + Fault(|members| > MAX_NODE_PROPERTIES))
    case Foreign => Load(0, 0, deep + 1)
  }

  function LoadOf(v: Json, depth: nat): Load
    decreases v, Width(v) + 1
  {
    Plus(OwnLoad(v, depth), PartsLoad(v, 0, depth))
  }

  function KeyLoad(key: Text): Load {
    Load(TextBytes(key) + 1, 0, Fault(|key| > MAX_TEXT_LENGTH) + Fault(Forbidden(key)))
  }

  function PartLoad(v: Json, i: nat, depth: nat): Load
    requires i < Width(v)
    decreases v, 0
  {
    if v.Array? then LoadOf(v.items[i], depth + 1)
    else Plus(KeyLoad(v.members[i].key), LoadOf(v.members[i].value, depth + 1))
  }

  function PartsLoad(v: Json, i: nat, depth: nat): Load
    requires i <= Width(v)
    decreases v, Width(v) - i
  {
    if i == Width(v) then Load(0, 0, 0)
    else Plus(Plus(Load(|Separator(i)|, 0, 0), PartLoad(v, i, depth)), PartsLoad(v, i + 1, depth))
  }

  predicate Fits(load: Load) {
    load.faults == 0 && load.bytes <= MAX_UTF8_BYTES && load.containers <= MAX_TOTAL_NODES
  }

  /** Accepted data: within every limit, counted from depth 0. */
  predicate Accepted(v: Json) {
    Fits(LoadOf(v, 0))
  }

  lemma {:induction false} OwnPart(v: Json, depth: nat)
    ensures LoadOf(v, depth) == Plus(OwnLoad(v, depth), PartsLoad(v, 0, depth))
    ensures Width(v) == 0 ==> LoadOf(v, depth) == OwnLoad(v, depth)
  {
    hide TextBytes, NumberText, SafeInteger;
  }

  lemma {:induction false} DeepFaults(v: Json, depth: nat)
    requires depth > MAX_NESTING_DEPTH
    ensures LoadOf(v, depth).faults > 0
  {
    hide TextBytes, NumberText, SafeInteger, PartsLoad;
  }

  lemma {:induction false} PartsStep(v: Json, i: nat, depth: nat)
    requires i < Width(v)
    ensures PartsLoad(v, i, depth) == Plus(Plus(Load(|Separator(i)|, 0, 0), PartLoad(v, i, depth)), PartsLoad(v, i + 1, depth))
  {
  }

  lemma {:induction false} PartsEnd(v: Json, depth: nat)
    ensures PartsLoad(v, Width(v), depth) == Load(0, 0, 0)
  {
  }

  // ----- The inspector ---------------------------------------------------------------------

  class Inspector {
    var containers: nat
    var bytes: nat

    constructor ()
      ensures containers == 0 && bytes == 0
    {
      containers := 0;
      bytes := 0;
    }

    predicate Room()
      reads this
    {
      bytes <= MAX_UTF8_BYTES && containers <= MAX_TOTAL_NODES
    }

    /** What is on the meter, together with what is still to come. */
    function Meter(rest: Load): Load
      reads this
    {
      Plus(Load(bytes, containers, 0), rest)
    }

    method Charge(size: nat) returns (ok: bool)
      modifies this`bytes
      ensures bytes == old(bytes) + size
      ensures ok <==> bytes <= MAX_UTF8_BYTES
    {
      bytes := bytes + size;
      ok := bytes <= MAX_UTF8_BYTES;
    }

    method ChargeText(t: Text) returns (ok: bool)
      requires Room()
      modifies this`bytes
      ensures ok <==> |t| <= MAX_TEXT_LENGTH && old(bytes) + TextBytes(t) <= MAX_UTF8_BYTES
      ensures ok ==> bytes == old(bytes) + TextBytes(t)
    {
      if |t| > MAX_TEXT_LENGTH {
        return false;
      }
      ok := Charge(TextBytes(t));
    }

    /** Visits a value: passes exactly when the meter and what the value weighs stay within the limits. */
    method Visit(v: Json, depth: nat) returns (ok: bool)
      requires Room()
      modifies this
      ensures ok <==> Fits(old(Meter(LoadOf(v, depth))))
      ensures ok ==> Room() && Meter(Load(0, 0, 0)) == old(Meter(LoadOf(v, depth)))
      decreases v, 3
    {
      hide LoadOf;
      if v.Array? || v.Object? {
        if depth > MAX_NESTING_DEPTH {
          DeepFaults(v, depth);
          return false;
        }
        ok := VisitContainer(v, depth);
      } else {
        ok := VisitLeaf(v, depth);
      }
    }

    method VisitLeaf(v: Json, depth: nat) returns (ok: bool)
      requires Room() && !v.Array? && !v.Object?
      modifies this`bytes
      ensures ok <==> Fits(old(Meter(LoadOf(v, depth))))
      ensures ok ==> Room() && Meter(Load(0, 0, 0)) == old(Meter(LoadOf(v, depth)))
    {
      hide LoadOf, PartsLoad, TextBytes, NumberText, SafeInteger;
      OwnPart(v, depth);
      if depth > MAX_NESTING_DEPTH {
        return false;
      }
      match v {
        case Null => ok := Charge(4);
        case String(t) => ok := ChargeText(t);
        case Bool(b) => ok := Charge(if b then 4 else 5);
        case Number(n) =>
          if !SafeInteger(n) {
            return false;
          }
          ok := Charge(|NumberText(n)|);
        case _ => ok := false;
      }
    }

    method VisitContainer(v: Json, depth: nat) returns (ok: bool)
      requires Room() && (v.Array? || v.Object?) && depth <= MAX_NESTING_DEPTH
      modifies this
      ensures ok <==> Fits(old(Meter(LoadOf(v, depth))))
      ensures ok ==> Room() && Meter(Load(0, 0, 0)) == old(Meter(LoadOf(v, depth)))
      decreases v, 2
    {
      hide LoadOf, PartsLoad;
      OwnPart(v, depth);
      containers := containers + 1;
      if containers > MAX_TOTAL_NODES || Width(v) > (if v.Array? then MAX_TOTAL_NODES else MAX_NODE_PROPERTIES) {
        return false;
      }
      ok := Charge(2);
      if ok {
        ok := VisitParts(v, depth);
      }
    }

    method VisitParts(v: Json, depth: nat) returns (ok: bool)
      requires Room() && Width(v) <= MAX_TOTAL_NODES
      modifies this
      ensures ok <==> Fits(old(Meter(PartsLoad(v, 0, depth))))
      ensures ok ==> Room() && Meter(Load(0, 0, 0)) == old(Meter(PartsLoad(v, 0, depth)))
      decreases v, 1
    {
      hide PartLoad, PartsLoad, Separator;
      ok := true;
      var i := 0;
      while i < Width(v)
        invariant i <= Width(v) && Room() && ok
        invariant Meter(PartsLoad(v, i, depth)) == old(Meter(PartsLoad(v, 0, depth)))
      {
        PartsStep(v, i, depth);
        ok := Charge(|Separator(i)|);
        if !ok {
          return;
        }
        ok := VisitPart(v, i, depth);
        if !ok {
          return;
        }
        i := i + 1;
      }
      PartsEnd(v, depth);
    }

    method VisitPart(v: Json, i: nat, depth: nat) returns (ok: bool)
      requires Room() && i < Width(v)
      modifies this
      ensures ok <==> Fits(old(Meter(PartLoad(v, i, depth))))
      ensures ok ==> Room() && Meter(Load(0, 0, 0)) == old(Meter(PartLoad(v, i, depth)))
      decreases v, 0
    {
      hide LoadOf, TextBytes, Forbidden;
      if v.Object? {
        var key := v.members[i].key;
        if Forbidden(key) {
          return false;
        }
        ok := ChargeText(key);
        if !ok {
          return false;
        }
        ok := Charge(1);
        if !ok {
          return false;
        }
        ok := Visit(v.members[i].value, depth + 1);
      } else {
        ok := Visit(v.items[i], depth + 1);
      }
    }
  }

  lemma {:induction false} PlusZero(load: Load)
    ensures Plus(Load(0, 0, 0), load) == load
  {
  }

  /** A whole inspection accepts exactly the data within every limit. */
  method InspectJson(v: Json) returns (ok: bool)
    ensures ok <==> Accepted(v)
  {
    hide LoadOf, Fits, Plus;
    PlusZero(LoadOf(v, 0));
    var inspector := new Inspector();
    ok := inspector.Visit(v, 0);
  }

  // ----- The meter is the length of the text -----------------------------------------------

  predicate Plain(t: Text) {
    t == [] || !IsLow(t[0])
  }

  lemma {:induction false} NumberPlain(n: int)
    ensures Ascii(NumberText(n))
  {
  }

  lemma {:induction false} StartsPlain(v: Json)
    ensures Plain(Stringify(v))
  {
    hide PartsText, Escape, NumberText;
    if v.Number? {
      NumberPlain(v.n);
    }
  }

  lemma {:induction false} PartPlain(v: Json, i: nat)
    requires i < Width(v)
    ensures Plain(PartText(v, i))
  {
    hide Stringify, Escape;
    if v.Array? {
      StartsPlain(v.items[i]);
    }
  }

  lemma {:induction false} PartsPlain(v: Json, i: nat)
    requires i <= Width(v)
    ensures Plain(PartsText(v, i))
    decreases Width(v) - i
  {
    hide PartText;
    if i < Width(v) {
      PartPlain(v, i);
      PartsPlain(v, i + 1);
    }
  }

  lemma {:induction false} Utf8Three(a: Text, b: Text, c: Text)
    requires Plain(b) && Plain(c)
    ensures Utf8Length(a + b + c) == Utf8Length(a) + Utf8Length(b) + Utf8Length(c)
  {
    hide Utf8Length;
    Utf8Append(a + b, c);
    Utf8Append(a, b);
  }

  lemma {:induction false} MemberBytes(m: Member)
    ensures Utf8Length(Quote(m.key) + [COLON] + Stringify(m.value)) == TextBytes(m.key) + 1 + Utf8Length(Stringify(m.value))
  {
    StartsPlain(m.value);
    hide Stringify, Quote, Utf8Length;
    Utf8Three(Quote(m.key), [COLON], Stringify(m.value));
    Utf8Ascii([COLON]);
  }

  lemma {:induction false} PartBytes(v: Json, i: nat, depth: nat)
    requires i < Width(v)
    ensures PartLoad(v, i, depth).bytes == Utf8Length(PartText(v, i))
    decreases v, 0
  {
    if v.Array? {
      BytesAreText(v.items[i], depth + 1);
    } else {
      var m := v.members[i];
      BytesAreText(m.value, depth + 1);
      MemberBytes(m);
      hide Stringify, LoadOf, Quote, Utf8Length;
    }
  }

  lemma {:induction false} PartsBytes(v: Json, i: nat, depth: nat)
    requires i <= Width(v)
    ensures PartsLoad(v, i, depth).bytes == Utf8Length(PartsText(v, i))
    decreases v, Width(v) - i + 1
  {
    hide PartText, PartLoad;
    if i < Width(v) {
      PartBytes(v, i, depth);
      PartsBytes(v, i + 1, depth);
      PartPlain(v, i);
      PartsPlain(v, i + 1);
      hide Utf8Length;
      Utf8Three(Separator(i), PartText(v, i), PartsText(v, i + 1));
      Utf8Ascii(Separator(i));
    }
  }

  /** The meter never builds the text, yet counts exactly its UTF-8 bytes. */
  lemma {:induction false} BytesAreText(v: Json, depth: nat)
    ensures LoadOf(v, depth).bytes == Utf8Length(Stringify(v))
    decreases v, Width(v) + 2
  {
    hide PartsText, PartsLoad, Quote, NumberText, Utf8Length, SafeInteger;
    OwnPart(v, depth);
    match v
    case Number(n) =>
      NumberPlain(n);
      Utf8Ascii(NumberText(n));
    case Array(_) =>
      PartsBytes(v, 0, depth);
      PartsPlain(v, 0);
      Utf8Three([91], PartsText(v, 0), [93]);
      Utf8Ascii([91]);
      Utf8Ascii([93]);
    case Object(_) =>
      PartsBytes(v, 0, depth);
      PartsPlain(v, 0);
      Utf8Three([123], PartsText(v, 0), [125]);
      Utf8Ascii([123]);
      Utf8Ascii([125]);
    case _ =>
      WordBytes();
  }

  lemma WordBytes()
    ensures Utf8Length(Stringify(Null)) == 4 && Utf8Length(Stringify(Bool(true))) == 4
    ensures Utf8Length(Stringify(Bool(false))) == 5 && Utf8Length([]) == 0
  {
    Utf8Ascii(Stringify(Null));
    Utf8Ascii(Stringify(Bool(true)));
    Utf8Ascii(Stringify(Bool(false)));
  }

  // ----- The limits, one by one ------------------------------------------------------------

  /** The part of `v` at `i`: an item, or the value of a member. */
  function PartAt(v: Json, i: nat): (part: Json)
    requires i < Width(v)
    ensures part < v
  {
    if v.Array? then v.items[i] else v.members[i].value
  }

  predicate KeyAllowed(key: Text) {
    |key| <= 8000 && key !in {Literal("__proto__"), Literal("prototype"), Literal("constructor")}
  }

  /** Nothing in `v`, which stands `depth` levels deep, breaks a limit on its own. */
  predicate WithinLimits(v: Json, depth: nat)
    decreases v
  {
    && depth <= 16
    && !v.Foreign?
    && (v.Number? ==> -9007199254740991 <= v.n <= 9007199254740991)
    && (v.String? ==> |v.text| <= 8000)
    && (v.Array? ==> |v.items| <= 1024)
    && (v.Object? ==> |v.members| <= 5 && forall i :: 0 <= i < |v.members| ==> KeyAllowed(v.members[i].key))
    && forall i :: 0 <= i < Width(v) ==> WithinLimits(PartAt(v, i), depth + 1)
  }

  /** How many arrays and objects there are in `v`. */
  function Containers(v: Json): nat
    decreases v, 1, 0
  {
    if v.Array? || v.Object? then 1 + ContainersFrom(v, 0) else 0
  }

  function ContainersFrom(v: Json, i: nat): nat
    requires i <= Width(v)
    decreases v, 0, Width(v) - i
  {
    if i == Width(v) then 0 else Containers(PartAt(v, i)) + ContainersFrom(v, i + 1)
  }

  predicate PartsWithin(v: Json, i: nat, depth: nat) {
    forall k :: i <= k < Width(v) ==> PartWithin(v, k, depth)
  }

  predicate PartWithin(v: Json, k: nat, depth: nat)
    requires k < Width(v)
  {
    (v.Object? ==> KeyAllowed(v.members[k].key)) && WithinLimits(PartAt(v, k), depth + 1)
  }

  lemma {:induction false} WithinStep(v: Json, depth: nat)
    ensures WithinLimits(v, depth) <==> OwnLoad(v, depth).faults == 0 && PartsWithin(v, 0, depth)
  {
    hide KeyAllowed;
    if WithinLimits(v, depth) {
      forall k | 0 <= k < Width(v)
        ensures PartWithin(v, k, depth)
      {
      }
    }
    if OwnLoad(v, depth).faults == 0 && PartsWithin(v, 0, depth) {
      forall i | 0 <= i < Width(v)
        ensures WithinLimits(PartAt(v, i), depth + 1)
        ensures v.Object? ==> KeyAllowed(v.members[i].key)
      {
        assert PartWithin(v, i, depth);
      }
    }
  }

  lemma {:induction false} KeyIff(key: Text)
    ensures KeyLoad(key).faults == 0 <==> KeyAllowed(key)
  {
    hide TextBytes, Literal;
  }

  lemma {:induction false} PartsCount(v: Json, i: nat, depth: nat)
    requires i <= Width(v)
    ensures PartsLoad(v, i, depth).faults == 0 <==> PartsWithin(v, i, depth)
    ensures PartsLoad(v, i, depth).containers == ContainersFrom(v, i)
    decreases v, 0, Width(v) - i
  {
    hide PartsLoad, PartLoad, WithinLimits, Separator, LoadOf, KeyAllowed, KeyLoad;
    if i == Width(v) {
      PartsEnd(v, depth);
    } else {
      PartsStep(v, i, depth);
      LimitsCount(PartAt(v, i), depth + 1);
      PartsCount(v, i + 1, depth);
      PartCount(v, i, depth);
      assert PartsWithin(v, i, depth) <==> PartWithin(v, i, depth) && PartsWithin(v, i + 1, depth);
    }
  }

  lemma {:induction false} PartCount(v: Json, i: nat, depth: nat)
    requires i < Width(v)
    requires LoadOf(PartAt(v, i), depth + 1).faults == 0 <==> WithinLimits(PartAt(v, i), depth + 1)
    ensures PartLoad(v, i, depth).faults == 0 <==> PartWithin(v, i, depth)
    ensures PartLoad(v, i, depth).containers == LoadOf(PartAt(v, i), depth + 1).containers
  {
    hide LoadOf, WithinLimits, KeyAllowed;
    if v.Object? {
      KeyIff(v.members[i].key);
    }
  }

  lemma {:induction false} LimitsCount(v: Json, depth: nat)
    ensures LoadOf(v, depth).faults == 0 <==> WithinLimits(v, depth)
    ensures LoadOf(v, depth).containers == Containers(v)
    decreases v, 1, 0
  {
    hide LoadOf, PartsLoad, WithinLimits, PartsWithin, TextBytes, NumberText;
    OwnPart(v, depth);
    PartsCount(v, 0, depth);
    WithinStep(v, depth);
  }

  /**
   Accepted data, limit by limit: depth 16, safe integers, texts and keys of 8000 units, 1024 items,
   five members, no forbidden key; at most 1024 arrays and objects; at most 65536 bytes of compact text.
   */
  lemma {:induction false} AcceptedIff(v: Json)
    ensures Accepted(v) <==> WithinLimits(v, 0) && Containers(v) <= 1024 && Utf8Length(Stringify(v)) <= 65536
  {
    hide LoadOf, WithinLimits, Containers, Utf8Length, Stringify;
    LimitsCount(v, 0);
    BytesAreText(v, 0);
  }
}
