/** The sort the source calls: stable, by any total preorder. */
module StableSort {

  ghost predicate TotalPreorder<T(!new)>(le: (T, T) -> bool) {
    && (forall a, b :: le(a, b) || le(b, a))
    && (forall a, b, c :: le(a, b) && le(b, c) ==> le(a, c))
  }

  ghost predicate Sorted<T>(le: (T, T) -> bool, xs: seq<T>) {
    forall i, j :: 0 <= i < j < |xs| ==> le(xs[i], xs[j])
  }

  /** Insert after everything that is not strictly greater. */
  function Insert<T>(le: (T, T) -> bool, x: T, xs: seq<T>): (r: seq<T>)
    ensures |r| == |xs| + 1
  {
    if xs == [] || !le(xs[0], x) then [x] + xs else [xs[0]] + Insert(le, x, xs[1..])
  }

  function Sort<T>(le: (T, T) -> bool, xs: seq<T>): (r: seq<T>)
    ensures |r| == |xs|
  {
    if xs == [] then [] else Insert(le, xs[|xs| - 1], Sort(le, xs[..|xs| - 1]))
  }

  lemma {:induction false} InsertContents<T>(le: (T, T) -> bool, x: T, xs: seq<T>)
    ensures multiset(Insert(le, x, xs)) == multiset(xs) + multiset{x}
    decreases xs
  {
    if xs != [] && le(xs[0], x) {
      InsertContents(le, x, xs[1..]);
      assert xs == [xs[0]] + xs[1..];
    }
  }

  lemma {:induction false} InsertUnfold<T>(le: (T, T) -> bool, x: T, xs: seq<T>)
    requires xs != []
    ensures Insert(le, x, xs) == if le(xs[0], x) then [xs[0]] + Insert(le, x, xs[1..]) else [x] + xs
  {
  }

  lemma {:induction false} SortedCons<T>(le: (T, T) -> bool, first: T, rest: seq<T>, x: T, tail: seq<T>)
    requires Sorted(le, rest) && multiset(rest) == multiset(tail) + multiset{x}
    requires le(first, x) && forall i :: 0 <= i < |tail| ==> le(first, tail[i])
    ensures Sorted(le, [first] + rest)
  {
    forall i | 0 <= i < |rest|
      ensures le(first, rest[i])
    {
      assert rest[i] in multiset(rest);
      assert rest[i] == x || rest[i] in tail;
    }
  }

  lemma {:induction false} InsertSorted<T(!new)>(le: (T, T) -> bool, x: T, xs: seq<T>)
    requires TotalPreorder(le) && Sorted(le, xs)
    ensures Sorted(le, Insert(le, x, xs))
    decreases xs
  {
    if xs != [] {
      hide Insert;
      InsertUnfold(le, x, xs);
      if le(xs[0], x) {
        InsertSorted(le, x, xs[1..]);
        InsertContents(le, x, xs[1..]);
        SortedCons(le, xs[0], Insert(le, x, xs[1..]), x, xs[1..]);
      } else {
        assert forall i :: 0 <= i < |xs| ==> le(x, xs[i]);
      }
    }
  }

  /** The result is sorted and has exactly the elements given. */
  lemma {:induction false} Sorts<T(!new)>(le: (T, T) -> bool, xs: seq<T>)
    requires TotalPreorder(le)
    ensures Sorted(le, Sort(le, xs)) && multiset(Sort(le, xs)) == multiset(xs)
    decreases xs
  {
    if xs != [] {
      hide Insert;
      var front, last := xs[..|xs| - 1], xs[|xs| - 1];
      Sorts(le, front);
      InsertSorted(le, last, Sort(le, front));
      InsertContents(le, last, Sort(le, front));
      assert xs == front + [last];
    }
  }

  /** Inserting also keeps a finer order that settles ties with the new element in favour of the old ones. */
  lemma {:induction false} InsertFiner<T(!new)>(le: (T, T) -> bool, finer: (T, T) -> bool, x: T, xs: seq<T>)
    requires TotalPreorder(le) && TotalPreorder(finer) && Sorted(le, xs) && Sorted(finer, xs)
    requires forall i :: 0 <= i < |xs| ==> if le(xs[i], x) then finer(xs[i], x) else finer(x, xs[i])
    ensures Sorted(finer, Insert(le, x, xs))
    decreases xs
  {
    if xs != [] {
      hide Insert;
      InsertUnfold(le, x, xs);
      if le(xs[0], x) {
        InsertFiner(le, finer, x, xs[1..]);
        InsertContents(le, x, xs[1..]);
        SortedCons(finer, xs[0], Insert(le, x, xs[1..]), x, xs[1..]);
      } else {
        FinerFirst(finer, x, xs);
      }
    } else {
      assert Insert(le, x, xs) == [x];
    }
  }

  lemma {:induction false} FinerFirst<T(!new)>(finer: (T, T) -> bool, x: T, xs: seq<T>)
    requires TotalPreorder(finer) && Sorted(finer, xs) && xs != [] && finer(x, xs[0])
    ensures Sorted(finer, [x] + xs)
  {
    assert forall i :: 0 < i < |xs| ==> finer(xs[0], xs[i]);
  }

  /** No two distinct elements tie. */
  ghost predicate Antisymmetric<T(!new)>(le: (T, T) -> bool, xs: seq<T>) {
    forall a, b :: a in xs && b in xs && le(a, b) && le(b, a) ==> a == b
  }

  /** Without ties, there is only one sorted arrangement of given elements. */
  lemma {:induction false} SortedUnique<T(!new)>(le: (T, T) -> bool, xs: seq<T>, ys: seq<T>)
    requires TotalPreorder(le) && Antisymmetric(le, xs)
    requires Sorted(le, xs) && Sorted(le, ys) && multiset(xs) == multiset(ys)
    ensures xs == ys
    decreases xs
  {
    SameLength(xs, ys);
    if xs != [] {
      assert xs[0] == ys[0] by { SameHead(le, xs, ys); }
      assert xs == [xs[0]] + xs[1..] && ys == [ys[0]] + ys[1..];
      assert multiset(xs[1..]) == multiset(xs) - multiset{xs[0]};
      assert multiset(ys[1..]) == multiset(ys) - multiset{ys[0]};
      SortedUnique(le, xs[1..], ys[1..]);
    }
  }

  lemma {:induction false} SameHead<T(!new)>(le: (T, T) -> bool, xs: seq<T>, ys: seq<T>)
    requires TotalPreorder(le) && Antisymmetric(le, xs) && xs != [] && ys != []
    requires Sorted(le, xs) && Sorted(le, ys) && multiset(xs) == multiset(ys)
    ensures xs[0] == ys[0]
  {
    assert xs[0] in multiset(ys) && ys[0] in multiset(xs);
    var i :| 0 <= i < |ys| && ys[i] == xs[0];
    var j :| 0 <= j < |xs| && xs[j] == ys[0];
  }

  // ----- Rearranged sequences --------------------------------------------------------------

  function Map<S, T>(f: S -> T, xs: seq<S>): (r: seq<T>)
    ensures |r| == |xs| && forall i :: 0 <= i < |xs| ==> r[i] == f(xs[i])
  {
    seq(|xs|, i requires 0 <= i < |xs| => f(xs[i]))
  }

  lemma {:induction false} MapAppend<S, T>(f: S -> T, xs: seq<S>, ys: seq<S>)
    ensures Map(f, xs + ys) == Map(f, xs) + Map(f, ys)
  {
  }

  lemma {:induction false} MapLast<S, T>(f: S -> T, xs: seq<S>)
    requires xs != []
    ensures Map(f, xs) == Map(f, xs[..|xs| - 1]) + [f(xs[|xs| - 1])]
  {
  }

  /** Where the first element of a sequence went in a rearrangement of it. */
  lemma {:induction false} FindFirst<T>(a: seq<T>, b: seq<T>) returns (i: nat)
    requires multiset(a) == multiset(b) && a != []
    ensures i < |b| && b[i] == a[0] && multiset(a[1..]) == multiset(b[..i] + b[i + 1..])
  {
    assert a[0] in multiset(b);
    i :| 0 <= i < |b| && b[i] == a[0];
    assert a == [a[0]] + a[1..];
    assert b == b[..i] + [b[i]] + b[i + 1..];
    calc {
      multiset(a[1..]);
      multiset(a) - multiset{a[0]};
      multiset(b) - multiset{b[i]};
      multiset(b[..i]) + multiset(b[i + 1..]);
    }
  }

  lemma {:induction false} SameLength<T>(a: seq<T>, b: seq<T>)
    requires multiset(a) == multiset(b)
    ensures |a| == |b|
  {
    assert |multiset(a)| == |a|;
  }

  lemma {:induction false} MapOfPermutation<S, T>(f: S -> T, a: seq<S>, b: seq<S>)
    requires multiset(a) == multiset(b)
    ensures multiset(Map(f, a)) == multiset(Map(f, b))
    decreases a
  {
    SameLength(a, b);
    if a == [] {
      assert a == b;
    } else {
      hide Map;
      var i := FindFirst(a, b);
      var rest := b[..i] + b[i + 1..];
      calc {
        multiset(Map(f, a));
        { MapHead(f, a); }
        multiset{f(a[0])} + multiset(Map(f, a[1..]));
        { MapOfPermutation(f, a[1..], rest); }
        multiset{f(b[i])} + multiset(Map(f, rest));
        { MapSplit(f, b, i); }
        multiset(Map(f, b));
      }
    }
  }

  lemma {:induction false} MapSplit<S, T>(f: S -> T, xs: seq<S>, i: nat)
    requires i < |xs|
    ensures multiset(Map(f, xs)) == multiset{f(xs[i])} + multiset(Map(f, xs[..i] + xs[i + 1..]))
  {
    hide Map;
    MapAppend(f, xs[..i], [xs[i]]);
    MapAppend(f, xs[..i] + [xs[i]], xs[i + 1..]);
    MapAppend(f, xs[..i], xs[i + 1..]);
    assert xs == xs[..i] + [xs[i]] + xs[i + 1..];
    MapOne(f, xs[i]);
  }

  lemma {:induction false} MapHead<S, T>(f: S -> T, xs: seq<S>)
    requires xs != []
    ensures multiset(Map(f, xs)) == multiset{f(xs[0])} + multiset(Map(f, xs[1..]))
  {
    hide Map;
    MapSplit(f, xs, 0);
    assert xs[..0] + xs[0 + 1..] == xs[1..];
  }

  lemma {:induction false} MapOne<S, T>(f: S -> T, x: S)
    ensures Map(f, [x]) == [f(x)]
  {
  }
}
