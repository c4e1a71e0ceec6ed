/**
 `Array.prototype.sort` with a comparator, which is stable. The comparator
 `cmp` is represented by `le(a, b) == (cmp(a, b) <= 0)`: "`a` may stay in
 front of `b`". The sort is an insertion sort that puts each element in
 front of the first element it may precede, which is exactly the stable
 ordering.
 */
module Sorting {
  import opened Seqs

  /** The direction a page sorts in; the comparator's arguments are swapped for `Desc`. */
  datatype Order = Asc | Desc {
    /** `sortOrder === "asc" ? "desc" : "asc"`. */
    function Flip(): Order {
      if this == Asc then Desc else Asc
    }
  }

  /** Neighbours are in order. */
  predicate Sorted<T>(xs: seq<T>, le: (T, T) -> bool) {
    forall i :: 0 <= i < |xs| - 1 ==> le(xs[i], xs[i + 1])
  }

  /** A comparator that is consistent: total and transitive. */
  ghost predicate TotalPreorder<T(!new)>(le: (T, T) -> bool) {
    && (forall a, b :: le(a, b) || le(b, a))
    && (forall a, b, c :: le(a, b) && le(b, c) ==> le(a, c))
  }

  /** `x` goes in front of the first element it may precede. */
  function Insert<T>(x: T, ys: seq<T>, le: (T, T) -> bool): (r: seq<T>)
    ensures |r| == |ys| + 1
    ensures multiset(r) == multiset(ys) + multiset{x}
    ensures |ys| > 0 ==> r[0] == x || r[0] == ys[0]
    decreases |ys|
  {
    if |ys| == 0 then [x]
    else if le(x, ys[0]) then [x] + ys
    else
      assert ys == [ys[0]] + ys[1..];
      [ys[0]] + Insert(x, ys[1..], le)
  }

  /** The stably sorted copy `[...xs].sort(cmp)`: a permutation of `xs`. */
  function Sort<T>(xs: seq<T>, le: (T, T) -> bool): (r: seq<T>)
    ensures |r| == |xs|
    ensures multiset(r) == multiset(xs)
    decreases |xs|
  {
    if |xs| == 0 then []
    else
      assert xs == [xs[0]] + xs[1..];
      Insert(xs[0], Sort(xs[1..], le), le)
  }

  lemma {:induction false} InsertSorted<T(!new)>(x: T, ys: seq<T>, le: (T, T) -> bool)
    requires TotalPreorder(le)
    requires Sorted(ys, le)
    ensures Sorted(Insert(x, ys, le), le)
    decreases |ys|
  {
    if |ys| > 0 && !le(x, ys[0]) {
      InsertSorted(x, ys[1..], le);
      var tail := Insert(x, ys[1..], le);
      assert Insert(x, ys, le) == [ys[0]] + tail;
      assert le(ys[0], x);
      if |ys| > 1 {
        assert le(ys[0], ys[1]);
      }
    }
  }

  /** With a consistent comparator the result is in order. */
  lemma {:induction false} SortSorted<T(!new)>(xs: seq<T>, le: (T, T) -> bool)
    requires TotalPreorder(le)
    ensures Sorted(Sort(xs, le), le)
    decreases |xs|
  {
    if |xs| > 0 {
      SortSorted(xs[1..], le);
      InsertSorted(xs[0], Sort(xs[1..], le), le);
    }
  }

  /** A list already in order is returned unchanged. */
  lemma {:induction false} SortOfSorted<T>(xs: seq<T>, le: (T, T) -> bool)
    requires Sorted(xs, le)
    ensures Sort(xs, le) == xs
    decreases |xs|
  {
    if |xs| > 0 {
      SortOfSorted(xs[1..], le);
      assert xs == [xs[0]] + xs[1..];
    }
  }

  /** Sorting twice with the same comparator is the same as sorting once. */
  lemma SortIdempotent<T(!new)>(xs: seq<T>, le: (T, T) -> bool)
    requires TotalPreorder(le)
    ensures Sort(Sort(xs, le), le) == Sort(xs, le)
  {
    SortSorted(xs, le);
    SortOfSorted(Sort(xs, le), le);
  }

  /** A comparator that always answers 0 leaves the order as it is. */
  lemma SortAllTies<T>(xs: seq<T>, le: (T, T) -> bool)
    requires forall a, b :: le(a, b)
    ensures Sort(xs, le) == xs
  {
    SortOfSorted(xs, le);
  }

  /** `x` and `k` compare equal. */
  predicate Tied<T>(le: (T, T) -> bool, k: T, x: T) {
    le(x, k) && le(k, x)
  }

  /** The elements comparing equal to `k`, as a filter predicate. */
  function TiedTo<T>(le: (T, T) -> bool, k: T): T -> bool {
    y => Tied(le, k, y)
  }

  /** An element tied with `k` may precede every other element tied with `k`. */
  lemma TiedPrecedesTied<T(!new)>(le: (T, T) -> bool, k: T, x: T, y: T)
    requires TotalPreorder(le)
    requires Tied(le, k, x) && Tied(le, k, y)
    ensures le(x, y)
  {
  }

  lemma {:induction false} InsertKeepsTiesInOrder<T(!new)>(x: T, ys: seq<T>, le: (T, T) -> bool, k: T)
    requires TotalPreorder(le)
    ensures Filter(Insert(x, ys, le), TiedTo(le, k))
         == (if TiedTo(le, k)(x) then [x] else []) + Filter(ys, TiedTo(le, k))
    decreases |ys|
  {
    var p := TiedTo(le, k);
    if |ys| == 0 {
      FilterCons(x, [], p);
    } else if le(x, ys[0]) {
      FilterCons(x, ys, p);
    } else {
      var tail := Insert(x, ys[1..], le);
      assert Insert(x, ys, le) == [ys[0]] + tail;
      InsertKeepsTiesInOrder(x, ys[1..], le, k);
      FilterCons(ys[0], tail, p);
      assert ys == [ys[0]] + ys[1..];
      FilterCons(ys[0], ys[1..], p);
      if p(x) && p(ys[0]) {
        TiedPrecedesTied(le, k, x, ys[0]);
        assert false;
      }
    }
  }

  /** Stability: the elements comparing equal to any `k` come out in the
      order they went in. */
  lemma {:induction false} SortStable<T(!new)>(xs: seq<T>, le: (T, T) -> bool, k: T)
    requires TotalPreorder(le)
    ensures Filter(Sort(xs, le), TiedTo(le, k)) == Filter(xs, TiedTo(le, k))
    decreases |xs|
  {
    var p := TiedTo(le, k);
    if |xs| > 0 {
      SortStable(xs[1..], le, k);
      InsertKeepsTiesInOrder(xs[0], Sort(xs[1..], le), le, k);
      FilterCons(xs[0], xs[1..], p);
      assert xs == [xs[0]] + xs[1..];
    }
  }
}
