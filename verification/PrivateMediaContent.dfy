/**
 Opening and streaming a private object (private-media-content.service.ts): the status and size
 promised in the headers, and the validator that holds the last chunk back until the end is seen.
 */
module PrivateMediaContent {
  import opened Digits
  import opened PrivateMediaRange
  import opened Wrappers

  type Byte = b: int | 0 <= b < 256

  /** What one read of the provider gives; reading past the last item ends the source. */
  datatype Item = Chunk(bytes: seq<Byte>) | NotBytes | Failure(missing: bool)

  /** A chunk handed to the client, and the reads made before that. */
  datatype Yield = Yield(bytes: seq<Byte>, readsBefore: nat)

  datatype Ending = Completed | Unavailable

  datatype Streamed = Streamed(sent: seq<Yield>, ending: Ending)

  /** The validator from item `i` on, with `bytes` counted before. */
  function Validate(source: seq<Item>, i: nat, bytes: nat, expected: nat): Streamed
    decreases |source| - i
  {
    if i >= |source| then Streamed([], if bytes == expected then Completed else Unavailable)
    else
      match source[i]
      case Chunk(c) =>
        var total := bytes + |c|;
        if total > expected then Streamed([], Unavailable)
        else if total == expected then
          if i + 1 < |source| then Streamed([], Unavailable)
          else Streamed([Yield(c, |source| + 1)], Completed)
        else
          var rest := Validate(source, i + 1, total, expected);
          Streamed([Yield(c, i + 1)] + rest.sent, rest.ending)
      case _ => Streamed([], Unavailable)
  }

  /** The generator loop; `start` is the item already read. */
  method ValidateBytes(source: seq<Item>, start: nat, expected: nat) returns (r: Streamed)
    requires start <= |source|
    ensures r == Validate(source, start, 0, expected)
  {
    var bytes: nat, i, sent := 0, start, [];
    while i < |source|
      invariant start <= i <= |source|
      invariant var rest := Validate(source, i, bytes, expected);
                Validate(source, start, 0, expected) == Streamed(sent + rest.sent, rest.ending)
    {
      if !source[i].Chunk? {
        return Streamed(sent, Unavailable);
      }
      bytes := bytes + |source[i].bytes|;
      if bytes > expected {
        return Streamed(sent, Unavailable);
      }
      if bytes == expected {
        if i + 1 < |source| {
          return Streamed(sent, Unavailable);
        }
        return Streamed(sent + [Yield(source[i].bytes, |source| + 1)], Completed);
      }
      sent := sent + [Yield(source[i].bytes, i + 1)];
      i := i + 1;
    }
    r := Streamed(sent, if bytes == expected then Completed else Unavailable);
  }

  /** The bytes of the leading chunks of a source. */
  function Body(source: seq<Item>): seq<Byte> {
    if source != [] && source[0].Chunk? then source[0].bytes + Body(source[1..]) else []
  }

  function Sent(sent: seq<Yield>): seq<Byte> {
    if sent == [] then [] else sent[0].bytes + Sent(sent[1..])
  }

  predicate AllChunks(source: seq<Item>, i: nat) {
    forall j :: i <= j < |source| ==> source[j].Chunk?
  }

  /** What reaches the client is always the beginning of what the provider gave. */
  lemma {:induction false} SentIsPrefix(source: seq<Item>, i: nat, bytes: nat, expected: nat)
    requires i <= |source|
    ensures Sent(Validate(source, i, bytes, expected).sent) <= Body(source[i..])
    decreases |source| - i
  {
    if i < |source| && source[i].Chunk? {
      assert source[i..][1..] == source[i + 1..];
      var r := Validate(source, i, bytes, expected);
      if r.sent != [] {
        assert Sent(r.sent) == source[i].bytes + Sent(r.sent[1..]);
        if bytes + |source[i].bytes| < expected {
          SentIsPrefix(source, i + 1, bytes + |source[i].bytes|, expected);
          assert r.sent[1..] == Validate(source, i + 1, bytes + |source[i].bytes|, expected).sent;
        }
      }
    }
  }

  /** The expected byte count is reached only with the chunk sent after the end was seen. */
  lemma {:induction false} FullOnlyAfterEnd(source: seq<Item>, i: nat, bytes: nat, expected: nat, k: nat)
    requires i <= |source|
    requires k < |Validate(source, i, bytes, expected).sent|
    requires bytes + |Sent(Validate(source, i, bytes, expected).sent[..k + 1])| >= expected
    ensures var r := Validate(source, i, bytes, expected);
            r.sent[k].readsBefore == |source| + 1 && k == |r.sent| - 1 && r.ending == Completed
    decreases |source| - i
  {
    var r := Validate(source, i, bytes, expected);
    var total := bytes + |source[i].bytes|;
    assert r.sent[..k + 1][0] == r.sent[0] && r.sent[..k + 1][1..] == r.sent[1..][..k];
    if total < expected {
      var rest := Validate(source, i + 1, total, expected);
      assert r.sent[1..] == rest.sent;
      if k > 0 {
        FullOnlyAfterEnd(source, i + 1, total, expected, k - 1);
      }
    }
  }

  /** Bytes of the items from `i` up to `j`. */
  function Size(source: seq<Item>, i: nat, j: nat): nat
    requires i <= j <= |source|
  {
    |Body(source[i..j])|
  }

  lemma {:induction false} SizeStep(source: seq<Item>, i: nat, j: nat)
    requires i < j <= |source| && source[i].Chunk?
    ensures Size(source, i, j) == |source[i].bytes| + Size(source, i + 1, j)
  {
    assert source[i..j][1..] == source[i + 1..j];
  }

  /** No item follows the one that brings the count to the expected one. */
  predicate EndsAtOnce(source: seq<Item>, i: nat, bytes: nat, expected: nat)
    requires i <= |source|
  {
    forall j: nat :: i < j < |source| ==> bytes + Size(source, i, j) < expected
  }

  lemma {:induction false} EndsAtOnceStep(source: seq<Item>, i: nat, bytes: nat, expected: nat)
    requires i < |source| && source[i].Chunk? && bytes + |source[i].bytes| < expected
    ensures EndsAtOnce(source, i, bytes, expected) <==> EndsAtOnce(source, i + 1, bytes + |source[i].bytes|, expected)
  {
    var next, total := i + 1, bytes + |source[i].bytes|;
    hide Size;
    if EndsAtOnce(source, i, bytes, expected) {
      forall j: nat | next < j < |source|
        ensures total + Size(source, next, j) < expected
      {
        SizeStep(source, i, j);
      }
    }
    if EndsAtOnce(source, next, total, expected) {
      forall j: nat | i < j < |source|
        ensures bytes + Size(source, i, j) < expected
      {
        SizeStep(source, i, j);
        EmptySize(source, next);
      }
    }
  }

  lemma {:induction false} EmptySize(source: seq<Item>, i: nat)
    requires i <= |source|
    ensures Size(source, i, i) == 0
  {
  }

  /**
   The stream completes normally exactly when the source is all chunks, their sizes add up to the
   expected count, and nothing, not even an empty chunk, follows the one that reaches it.
   */
  lemma {:induction false} CompletesIff(source: seq<Item>, i: nat, bytes: nat, expected: nat)
    requires i <= |source|
    ensures Validate(source, i, bytes, expected).ending == Completed
       <==> AllChunks(source, i) && bytes + Size(source, i, |source|) == expected && EndsAtOnce(source, i, bytes, expected)
    decreases |source| - i
  {
    hide Size;
    if i >= |source| {
      EmptySize(source, i);
    } else if source[i].Chunk? {
      var total := bytes + |source[i].bytes|;
      SizeStep(source, i, |source|);
      if total < expected {
        CompletesIff(source, i + 1, total, expected);
        EndsAtOnceStep(source, i, bytes, expected);
      } else if i + 1 < |source| {
        SizeStep(source, i, i + 1);
        EmptySize(source, i + 1);
      } else {
        EmptySize(source, |source|);
      }
    }
  }

  /** A completed stream sent everything; any other one fell short or sent nothing. */
  lemma {:induction false} SentAll(source: seq<Item>, i: nat, bytes: nat, expected: nat)
    requires i <= |source|
    ensures var r := Validate(source, i, bytes, expected);
            if r.ending == Completed then Sent(r.sent) == Body(source[i..])
            else r.sent == [] || bytes + |Sent(r.sent)| < expected
    decreases |source| - i
  {
    var r := Validate(source, i, bytes, expected);
    if i < |source| && source[i].Chunk? {
      assert source[i..][1..] == source[i + 1..];
      var total := bytes + |source[i].bytes|;
      if total < expected {
        SentAll(source, i + 1, total, expected);
        assert r.sent[1..] == Validate(source, i + 1, total, expected).sent;
      } else if r.sent != [] {
        assert r.sent[1..] == [];
      }
    }
  }

  /** An exact byte count is not enough: an empty chunk after the last byte makes the stream fail. */
  lemma {:induction false} TrailingEmptyChunkFails(bytes: seq<Byte>)
    requires bytes != []
    ensures var source := [Chunk(bytes), Chunk([])];
            |Body(source)| == |bytes| && Validate(source, 0, 0, |bytes|) == Streamed([], Unavailable)
  {
    var source := [Chunk(bytes), Chunk([])];
    assert source[1..] == [Chunk([])];
    assert source[1..][1..] == [];
    assert Body(source[1..]) == [];
    assert Body(source) == source[0].bytes + Body(source[1..]);
  }

  // ----- Opening ---------------------------------------------------------------------------

  datatype Request = Request(range: Option<string>, ifRange: Option<string>, head: bool)

  /** What the headers promise. */
  datatype Plan = Plan(status: nat, range: Option<Range>, size: nat)

  /** `Refused` passes on the error of the authorization. */
  datatype Opened = NotFound | Forbidden | ServiceUnavailable | Refused | Response(plan: Plan, stream: Streamed)

  predicate UsesRange(request: Request, etag: Option<string>) {
    && !request.head
    && request.range.Some?
    && (request.ifRange.None? || (etag.Some? && request.ifRange == etag))
  }

  function PlanFor(request: Request, etag: Option<string>, total: nat): Plan {
    var range := if UsesRange(request, etag) then Resolve(request.range.value, total) else None;
    if UsesRange(request, etag) && range.None? then Plan(416, None, 0)
    else if range.Some? then Plan(206, range, range.value.length)
    else Plan(200, None, total)
  }

  /** The first item that is not an empty chunk. */
  function FirstUseful(source: seq<Item>, i: nat): (r: nat)
    requires i <= |source|
    ensures i <= r <= |source|
    decreases |source| - i
  {
    if i < |source| && source[i] == Chunk([]) then FirstUseful(source, i + 1) else i
  }

  /** Whether the first useful item lets the headers be committed, and the stream then sent. */
  function OpenAt(plan: Plan, source: seq<Item>, i: nat): Opened
    requires i <= |source|
  {
    if i == |source| then
      if plan.size != 0 then NotFound else Response(plan, Validate(source, i, 0, plan.size))
    else
      match source[i]
      case NotBytes => ServiceUnavailable
      case Failure(missing) => if missing then NotFound else ServiceUnavailable
      case Chunk(c) =>
        if |c| > plan.size then NotFound else Response(plan, Validate(source, i, 0, plan.size))
  }

  function OpenPlanned(plan: Plan, source: seq<Item>): Opened {
    if plan.status == 416 then Response(plan, Streamed([], Completed))
    else OpenAt(plan, source, FirstUseful(source, 0))
  }

  // ----- The awaited operations around it --------------------------------------------------

  datatype Stat = Stat(size: nat, generation: Option<string>, version: Option<string>, etag: Option<string>)

  datatype Fault = MissingObject | Authorization | OtherFault

  /** An awaited operation; the deadline or the client's abort interrupts it. */
  datatype Awaited<+T> = Gave(value: T) | Threw(fault: Fault) | Interrupted

  /** What the call meets: `recheck`, where asked for, says whether the file is still the authorized one. */
  datatype Environment = Environment(
    located: bool,
    mimeAllowed: bool,
    abortedBefore: bool,
    stat: Awaited<Stat>,
    opening: Awaited<()>,
    secondStat: Awaited<Stat>,
    recheck: Option<Awaited<bool>>,
    abortedAfter: bool
  )

  function Caught(fault: Fault): Opened {
    match fault
    case MissingObject => NotFound
    case Authorization => Refused
    case OtherFault => ServiceUnavailable
  }

  /** What an operation that gave nothing leads to. */
  function Failed<T>(a: Awaited<T>): Opened
    requires !a.Gave?
  {
    if a.Threw? then Caught(a.fault) else ServiceUnavailable
  }

  function EtagOf(hash: Stat -> string, stat: Stat): Option<string> {
    if stat.generation.Some? || stat.version.Some? || stat.etag.Some? then Some("\"" + hash(stat) + "\"") else None
  }

  /** A provider without versions cannot pin the read, so the object is looked at again. */
  predicate Unpinned(stat: Stat) {
    stat.generation.None? && stat.version.None? && stat.etag.Some?
  }

  /** The last checks before a response is handed out. */
  function Commit(env: Environment, response: Opened): Opened {
    if env.recheck.Some? && !env.recheck.value.Gave? then Failed(env.recheck.value)
    else if env.recheck.Some? && !env.recheck.value.value then NotFound
    else if env.abortedAfter then ServiceUnavailable
    else response
  }

  function OpenStat(env: Environment, stat: Stat, hash: Stat -> string, request: Request, source: seq<Item>): Opened {
    var plan := PlanFor(request, EtagOf(hash, stat), stat.size);
    if request.head || plan.status == 416 then Commit(env, Response(plan, Streamed([], Completed)))
    else if !env.opening.Gave? then Failed(env.opening)
    else
      var started := OpenPlanned(plan, source);
      if !started.Response? then started
      else if Unpinned(stat) && !env.secondStat.Gave? then Failed(env.secondStat)
      else if Unpinned(stat) && env.secondStat.value != stat then NotFound
      else Commit(env, started)
  }

  /** Opening an object whose size on record is `total`. */
  function OpenSpec(env: Environment, total: nat, hash: Stat -> string, request: Request, source: seq<Item>): Opened {
    if total > MAX_SAFE_INTEGER || !env.located then NotFound
    else if !env.mimeAllowed then Forbidden
    else if env.abortedBefore then ServiceUnavailable
    else if !env.stat.Gave? then Failed(env.stat)
    else if env.stat.value.size != total then NotFound
    else OpenStat(env, env.stat.value, hash, request, source)
  }

  method Open(env: Environment, total: nat, hash: Stat -> string, request: Request, source: seq<Item>) returns (r: Opened)
    ensures r == OpenSpec(env, total, hash, request, source)
  {
    if total > MAX_SAFE_INTEGER || !env.located {
      return NotFound;
    }
    if !env.mimeAllowed {
      return Forbidden;
    }
    if env.abortedBefore {
      return ServiceUnavailable;
    }
    if !env.stat.Gave? {
      return Failed(env.stat);
    }
    var stat := env.stat.value;
    if stat.size != total {
      return NotFound;
    }
    var plan := PlanFor(request, EtagOf(hash, stat), total);
    if request.head || plan.status == 416 {
      return Commit(env, Response(plan, Streamed([], Completed)));
    }
    if !env.opening.Gave? {
      return Failed(env.opening);
    }
    r := OpenStream(plan, source);
    if !r.Response? {
      return;
    }
    if Unpinned(stat) {
      if !env.secondStat.Gave? {
        return Failed(env.secondStat);
      }
      if env.secondStat.value != stat {
        return NotFound;
      }
    }
    r := Commit(env, r);
  }

  /** The reads before the headers are committed, and the stream that follows. */
  method OpenStream(plan: Plan, source: seq<Item>) returns (r: Opened)
    requires plan.status != 416
    ensures r == OpenPlanned(plan, source)
  {
    var first := 0;
    while first < |source| && source[first] == Chunk([])
      invariant first <= |source| && FirstUseful(source, 0) == FirstUseful(source, first)
    {
      first := first + 1;
    }
    if first == |source| {
      if plan.size != 0 {
        return NotFound;
      }
    } else {
      match source[first] {
        case NotBytes => return ServiceUnavailable;
        case Failure(missing) => return if missing then NotFound else ServiceUnavailable;
        case Chunk(c) =>
          if |c| > plan.size {
            return NotFound;
          }
      }
    }
    var stream := ValidateBytes(source, first, plan.size);
    r := Response(plan, stream);
  }

  predicate StillAuthorized(env: Environment) {
    env.recheck.Some? ==> env.recheck.value == Gave(true)
  }

  /** The object read is the one whose size and version were seen, or cannot have changed. */
  predicate SameObject(env: Environment) {
    env.stat.Gave? && (Unpinned(env.stat.value) ==> env.secondStat == Gave(env.stat.value))
  }

  /**
   A response is handed out exactly when the file can be located and shown, its stored size is the one
   on record, its first bytes fit, it did not change meanwhile, it is still authorized, and the client
   is still there; what it holds is what the plan and the source give.
   */
  lemma {:induction false} OpensIff(env: Environment, total: nat, hash: Stat -> string, request: Request, source: seq<Item>)
    ensures !env.stat.Gave? ==> !OpenSpec(env, total, hash, request, source).Response?
    ensures env.stat.Gave? ==>
            var stat := env.stat.value;
            var plan := PlanFor(request, EtagOf(hash, stat), stat.size);
            var whole := if request.head then Response(plan, Streamed([], Completed)) else OpenPlanned(plan, source);
            var r := OpenSpec(env, total, hash, request, source);
            && (r.Response? <==>
                  && total <= MAX_SAFE_INTEGER && env.located && env.mimeAllowed
                  && stat.size == total
                  && (request.head || plan.status == 416 || (env.opening.Gave? && whole.Response? && SameObject(env)))
                  && StillAuthorized(env)
                  && !env.abortedBefore && !env.abortedAfter)
            && (r.Response? ==> r == whole)
  {
    hide PlanFor, OpenAt, EtagOf, FirstUseful;
  }

  lemma {:induction false} SkippedAreEmpty(source: seq<Item>, i: nat)
    requires i <= |source|
    ensures Body(source[i..]) == Body(source[FirstUseful(source, i)..])
    ensures AllChunks(source, i) <==> AllChunks(source, FirstUseful(source, i))
    decreases |source| - i
  {
    if i < |source| && source[i] == Chunk([]) {
      SkippedAreEmpty(source, i + 1);
      assert source[i..][1..] == source[i + 1..];
    }
  }

  predicate Delivers(outcome: Opened) {
    outcome.Response? && outcome.stream.ending == Completed
  }

  /** A response is delivered whole exactly when the provider gives the promised count and ends at once. */
  lemma {:induction false} DeliversIff(plan: Plan, source: seq<Item>)
    requires plan.status != 416
    ensures Delivers(OpenPlanned(plan, source))
       <==> AllChunks(source, 0) && |Body(source)| == plan.size && EndsAtOnce(source, FirstUseful(source, 0), 0, plan.size)
  {
    var i := FirstUseful(source, 0);
    hide FirstUseful, EndsAtOnce, Body;
    assert source[0..] == source;
    SkippedAreEmpty(source, 0);
    CompletesIff(source, i, 0, plan.size);
    assert source[i..|source|] == source[i..];
    if i < |source| && source[i].Chunk? {
      BodyFirst(source, i);
    }
  }

  lemma {:induction false} BodyFirst(source: seq<Item>, i: nat)
    requires i < |source| && source[i].Chunk?
    ensures |source[i].bytes| <= |Body(source[i..])|
  {
  }

  /** Chunks without an empty one end at once. */
  lemma {:induction false} NonEmptyChunksEndAtOnce(source: seq<Item>, i: nat)
    requires i <= |source| && AllChunks(source, 0)
    requires forall j :: 0 <= j < |source| ==> source[j].bytes != []
    ensures EndsAtOnce(source, i, 0, Size(source, i, |source|))
  {
    hide Size;
    forall j: nat | i < j < |source|
      ensures Size(source, i, j) < Size(source, i, |source|)
    {
      SizeSplit(source, i, j);
      SizeStep(source, j, |source|);
    }
  }

  lemma {:induction false} SizeSplit(source: seq<Item>, i: nat, j: nat)
    requires i <= j <= |source| && AllChunks(source, i)
    ensures Size(source, i, |source|) == Size(source, i, j) + Size(source, j, |source|)
    decreases j - i
  {
    hide Size;
    if i == j {
      EmptySize(source, i);
    } else {
      SizeSplit(source, i + 1, j);
      SizeStep(source, i, j);
      SizeStep(source, i, |source|);
    }
  }

  /** What a delivered response sends is everything the provider gave, of the promised size. */
  lemma {:induction false} DeliveredBody(plan: Plan, source: seq<Item>)
    requires plan.status != 416 && Delivers(OpenPlanned(plan, source))
    ensures Sent(OpenPlanned(plan, source).stream.sent) == Body(source) && |Body(source)| == plan.size
  {
    DeliversIff(plan, source);
    hide EndsAtOnce, Body, Validate;
    assert source[0..] == source;
    SkippedAreEmpty(source, 0);
    SentAll(source, FirstUseful(source, 0), 0, plan.size);
  }

  /**
   A delivered partial response holds exactly the bytes the range header selects, provided the
   provider reads the range it was asked for.
   */
  lemma {:induction false} PartialContent(
      stored: seq<Byte>, etag: Option<string>, request: Request, source: seq<Item>, a: string, b: string)
    requires UsesRange(request, etag) && Denotes(request.range.value, a, b)
    requires var plan := PlanFor(request, etag, |stored|);
             plan.status == 206 && plan.range.Some? && Delivers(OpenPlanned(plan, source))
    requires var r := PlanFor(request, etag, |stored|).range.value;
             r.offset + r.length <= |stored| ==> Body(source) == stored[r.offset..r.offset + r.length]
    ensures var plan := PlanFor(request, etag, |stored|);
            var sent := Sent(OpenPlanned(plan, source).stream.sent);
            && |sent| == plan.size > 0
            && (forall p :: Selects(a, b, |stored|, p) <==> plan.range.value.offset <= p < plan.range.value.offset + |sent|)
            && (forall p :: Selects(a, b, |stored|, p) ==> sent[p - plan.range.value.offset] == stored[p])
  {
    var plan := PlanFor(request, etag, |stored|);
    PlanRange(request, etag, |stored|);
    hide OpenPlanned, Resolve, PlanFor, Sent, Body;
    var r := plan.range.value;
    RangeIsSelection(request.range.value, |stored|, a, b);
    assert Selects(a, b, |stored|, r.offset + r.length - 1);
    DeliveredBody(plan, source);
    hide Denotes, Selects, UsesRange, Delivers;
    SelectedBytes(stored, Sent(OpenPlanned(plan, source).stream.sent), r, a, b);
  }

  lemma {:induction false} SelectedBytes(stored: seq<Byte>, sent: seq<Byte>, r: Range, a: string, b: string)
    requires AllDigits(a) && AllDigits(b)
    requires forall p :: Selects(a, b, |stored|, p) <==> r.offset <= p < r.offset + r.length
    requires r.offset + r.length <= |stored| && sent == stored[r.offset..r.offset + r.length]
    ensures |sent| == r.length
    ensures forall p :: Selects(a, b, |stored|, p) ==> r.offset <= p < r.offset + |sent| && sent[p - r.offset] == stored[p]
  {
    hide Selects;
  }

  lemma {:induction false} PlanRange(request: Request, etag: Option<string>, total: nat)
    requires PlanFor(request, etag, total).status == 206
    ensures var plan := PlanFor(request, etag, total);
            && UsesRange(request, etag) && plan.range.Some?
            && plan.range == Resolve(request.range.value, total) && plan.size == plan.range.value.length
  {
    hide Resolve;
  }

  /** 416 exactly for a range that applies and cannot be given; otherwise what is promised lies within the object. */
  lemma {:induction false} PlanMeaning(request: Request, etag: Option<string>, total: nat)
    ensures var plan := PlanFor(request, etag, total);
            plan.status == 416 <==> UsesRange(request, etag) && !Givable(request.range.value, total)
    ensures var plan := PlanFor(request, etag, total);
            plan.size <= total && (plan.range.Some? ==> plan.status == 206 && plan.range.value.offset + plan.size <= total)
  {
    if UsesRange(request, etag) {
      ResolveIff(request.range.value, total);
      WithinObject(request.range.value, total);
      hide Resolve;
    }
  }

  lemma {:induction false} WithinObject(header: string, size: nat)
    ensures Resolve(header, size).Some? ==> Resolve(header, size).value.offset + Resolve(header, size).value.length <= size
  {
    hide MatchHeader;
  }

  /**
   Without a range that applies, be it for a HEAD request, for want of a range header or for an If-Range
   that names another version, the plan is the whole object, and a delivered response is all of it.
   */
  lemma {:induction false} WholeObject(stored: seq<Byte>, etag: Option<string>, request: Request, source: seq<Item>)
    requires request.head || request.range.None? || (request.ifRange.Some? && request.ifRange != etag)
    ensures var plan := PlanFor(request, etag, |stored|);
            && plan.status == 200 && plan.range.None? && plan.size == |stored|
            && (Body(source) == stored && Delivers(OpenPlanned(plan, source)) ==>
                  Sent(OpenPlanned(plan, source).stream.sent) == stored)
  {
    hide OpenPlanned, Resolve, Sent, Body;
    var plan := PlanFor(request, etag, |stored|);
    if Delivers(OpenPlanned(plan, source)) {
      DeliveredBody(plan, source);
    }
  }

  /** Every other request gets the range it asks for, or 416 when that cannot be given. */
  lemma {:induction false} RangedPlan(etag: Option<string>, request: Request, total: nat)
    requires !request.head && request.range.Some? && (request.ifRange.None? || request.ifRange == etag)
    ensures PlanFor(request, etag, total).status == if Givable(request.range.value, total) then 206 else 416
    ensures PlanFor(request, etag, total).range == Resolve(request.range.value, total)
  {
    ResolveIff(request.range.value, total);
    hide Resolve;
  }

  /** What an operation that fails makes of the call: a missing object is not found, a refusal is passed on. */
  predicate FailsAs<T>(a: Awaited<T>, r: Opened) {
    match a
    case Gave(_) => true
    case Interrupted => r == ServiceUnavailable
    case Threw(MissingObject) => r == NotFound
    case Threw(Authorization) => r == Refused
    case Threw(OtherFault) => r == ServiceUnavailable
  }

  /** Why no response is handed out, in the order in which the call meets the reasons. */
  lemma {:induction false} ErrorOutcomes(env: Environment, total: nat, hash: Stat -> string, request: Request, source: seq<Item>)
    ensures var r := OpenSpec(env, total, hash, request, source);
            if total > MAX_SAFE_INTEGER || !env.located then r == NotFound
            else if !env.mimeAllowed then r == Forbidden
            else if env.abortedBefore then r == ServiceUnavailable
            else if !env.stat.Gave? then FailsAs(env.stat, r)
            else if env.stat.value.size != total then r == NotFound
            else
              var plan := PlanFor(request, EtagOf(hash, env.stat.value), total);
              var streams := !request.head && plan.status != 416;
              if streams && !env.opening.Gave? then FailsAs(env.opening, r)
              else if streams && !OpenPlanned(plan, source).Response? then r == OpenPlanned(plan, source)
              else if streams && Unpinned(env.stat.value) && !env.secondStat.Gave? then FailsAs(env.secondStat, r)
              else if streams && !SameObject(env) then r == NotFound
              else if env.recheck.Some? && !env.recheck.value.Gave? then FailsAs(env.recheck.value, r)
              else if env.recheck == Some(Gave(false)) then r == NotFound
              else if env.abortedAfter then r == ServiceUnavailable
              else r.Response?
  {
    hide PlanFor, OpenAt, EtagOf, FirstUseful;
  }

  // ----- The version of the object ---------------------------------------------------------

  /** The provider tells which version of the object it has: a generation, a version or an entity tag. */
  predicate Versioned(stat: Stat) {
    !(stat.generation.None? && stat.version.None? && stat.etag.None?)
  }

  /** Exactly a versioned object has an entity tag of its own, so a range under If-Range never applies to another. */
  lemma {:induction false} EtagIff(hash: Stat -> string, stat: Stat, request: Request)
    ensures EtagOf(hash, stat).Some? <==> Versioned(stat)
    ensures Versioned(stat) ==> EtagOf(hash, stat) == Some("\"" + hash(stat) + "\"")
    ensures !Versioned(stat) && request.ifRange.Some? ==> !UsesRange(request, EtagOf(hash, stat))
  {
  }

  /**
   The object is looked at a second time only when an entity tag is all that tells its version: with a
   generation or a version, or with nothing, the outcome does not depend on a second look, and with an
   entity tag alone a response that reads the object needs the second look to show the same.
   */
  lemma {:induction false} SecondLookIff(
      env: Environment, total: nat, hash: Stat -> string, request: Request, source: seq<Item>, other: Awaited<Stat>)
    requires env.stat.Gave?
    ensures var stat := env.stat.value;
            var r := OpenSpec(env, total, hash, request, source);
            && (stat.generation.Some? || stat.version.Some? || stat.etag.None? ==>
                  OpenSpec(env.(secondStat := other), total, hash, request, source) == r)
            && (stat.generation.None? && stat.version.None? && stat.etag.Some? && !request.head
                && PlanFor(request, EtagOf(hash, stat), total).status != 416 && r.Response? ==>
                  env.secondStat == Gave(stat))
  {
    hide PlanFor, OpenAt, EtagOf, FirstUseful;
  }
}
