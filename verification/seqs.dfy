/**
 The array operations the stores and pages are built from: `filter`,
 a `map` that replaces the elements matching a key, and `find`.
 */
module Seqs {

  datatype Option<+T> = None | Some(value: T)

  /** `xs.filter(p)`: the elements satisfying `p`, in their original order. */
  function Filter<T(==)>(xs: seq<T>, p: T -> bool): (r: seq<T>)
    ensures |r| <= |xs|
    ensures forall i :: 0 <= i < |r| ==> p(r[i]) && r[i] in xs
    ensures forall i :: 0 <= i < |xs| && p(xs[i]) ==> xs[i] in r
    decreases |xs|
  {
    if |xs| == 0 then [] else (if p(xs[0]) then [xs[0]] else []) + Filter(xs[1..], p)
  }

  /** Every element that passes is kept as many times as it occurs, and
      every element that fails is gone. */
  lemma {:induction false} FilterCounts<T>(xs: seq<T>, p: T -> bool)
    ensures forall x :: multiset(Filter(xs, p))[x] == if p(x) then multiset(xs)[x] else 0
    decreases |xs|
  {
    if |xs| > 0 {
      FilterCounts(xs[1..], p);
      assert xs == [xs[0]] + xs[1..];
      assert Filter(xs, p) == (if p(xs[0]) then [xs[0]] else []) + Filter(xs[1..], p);
    }
  }

  /** `a` can be obtained from `b` by deleting elements: an order-preserving subsequence. */
  ghost predicate IsSubseq<T>(a: seq<T>, b: seq<T>)
    decreases |b|
  {
    |a| == 0 || (|b| > 0 && ((a[0] == b[0] && IsSubseq(a[1..], b[1..])) || IsSubseq(a, b[1..])))
  }

  /** A subsequence stays one when `x` is put in front of the larger list. */
  lemma SubseqCons<T>(a: seq<T>, b: seq<T>, x: T)
    requires IsSubseq(a, b)
    ensures IsSubseq(a, [x] + b)
  {
    assert ([x] + b)[1..] == b;
  }

  /** Appending the same element to both lists keeps a subsequence one. */
  lemma {:induction false} SubseqAppend<T>(a: seq<T>, b: seq<T>, x: T)
    requires IsSubseq(a, b)
    ensures IsSubseq(a + [x], b + [x])
    decreases |b|
  {
    if |b| == 0 {
      assert a + [x] == [x] && b + [x] == [x];
      assert [x][1..] == [];
    } else {
      assert (b + [x])[1..] == b[1..] + [x];
      if |a| > 0 && a[0] == b[0] && IsSubseq(a[1..], b[1..]) {
        SubseqAppend(a[1..], b[1..], x);
        assert (a + [x])[1..] == a[1..] + [x];
      } else {
        assert IsSubseq(a, b[1..]);
        SubseqAppend(a, b[1..], x);
      }
    }
  }

  /** Filtering both lists with the same test keeps a subsequence one. */
  lemma {:induction false} FilterKeepsSubseq<T>(a: seq<T>, b: seq<T>, p: T -> bool)
    requires IsSubseq(a, b)
    ensures IsSubseq(Filter(a, p), Filter(b, p))
    decreases |b|
  {
    if |a| > 0 {
      var fa := Filter(a, p);
      var fb := Filter(b, p);
      var rest := Filter(b[1..], p);
      if a[0] == b[0] && IsSubseq(a[1..], b[1..]) {
        FilterKeepsSubseq(a[1..], b[1..], p);
        if p(b[0]) {
          assert fa == [a[0]] + Filter(a[1..], p);
          assert fb == [b[0]] + rest;
          assert fa[0] == fb[0] && fa[1..] == Filter(a[1..], p) && fb[1..] == rest;
        } else {
          assert fa == Filter(a[1..], p);
          assert fb == rest;
        }
      } else {
        FilterKeepsSubseq(a, b[1..], p);
        if p(b[0]) {
          assert fb == [b[0]] + rest;
          SubseqCons(fa, rest, b[0]);
        } else {
          assert fb == rest;
        }
      }
    }
  }

  /** Filtering one element in front of a list. */
  lemma FilterCons<T>(x: T, xs: seq<T>, p: T -> bool)
    ensures Filter([x] + xs, p) == (if p(x) then [x] else []) + Filter(xs, p)
  {
    assert ([x] + xs)[1..] == xs;
  }

  /** Filtering keeps the survivors in their original relative order. */
  lemma {:induction false} FilterIsSubseq<T>(xs: seq<T>, p: T -> bool)
    ensures IsSubseq(Filter(xs, p), xs)
    decreases |xs|
  {
    if |xs| > 0 {
      FilterIsSubseq(xs[1..], p);
      var r := Filter(xs, p);
      if p(xs[0]) {
        assert r[0] == xs[0] && r[1..] == Filter(xs[1..], p);
      } else {
        assert r == Filter(xs[1..], p);
        if |r| > 0 {
          assert IsSubseq(r, xs[1..]);
        }
      }
    }
  }

  /** Filtering a second time with the same predicate changes nothing. */
  lemma {:induction false} FilterIdempotent<T>(xs: seq<T>, p: T -> bool)
    ensures Filter(Filter(xs, p), p) == Filter(xs, p)
    decreases |xs|
  {
    if |xs| > 0 {
      FilterIdempotent(xs[1..], p);
      if p(xs[0]) {
        assert Filter(xs, p) == [xs[0]] + Filter(xs[1..], p);
        FilterCons(xs[0], Filter(xs[1..], p), p);
      } else {
        assert Filter(xs, p) == Filter(xs[1..], p);
      }
    }
  }

  /** When every element passes, filtering returns the list itself. */
  lemma {:induction false} FilterKeepsAll<T>(xs: seq<T>, p: T -> bool)
    requires forall i :: 0 <= i < |xs| ==> p(xs[i])
    ensures Filter(xs, p) == xs
    decreases |xs|
  {
    if |xs| > 0 {
      FilterKeepsAll(xs[1..], p);
    }
  }

  /** When no element passes, filtering returns nothing. */
  lemma {:induction false} FilterKeepsNone<T>(xs: seq<T>, p: T -> bool)
    requires forall i :: 0 <= i < |xs| ==> !p(xs[i])
    ensures Filter(xs, p) == []
    decreases |xs|
  {
    if |xs| > 0 {
      FilterKeepsNone(xs[1..], p);
    }
  }

  /** Two predicates that agree on every element filter alike. */
  lemma {:induction false} FilterCongruent<T>(xs: seq<T>, p: T -> bool, q: T -> bool)
    requires forall i :: 0 <= i < |xs| ==> p(xs[i]) == q(xs[i])
    ensures Filter(xs, p) == Filter(xs, q)
    decreases |xs|
  {
    if |xs| > 0 {
      FilterCongruent(xs[1..], p, q);
    }
  }

  /** Filtering distributes over concatenation. */
  lemma {:induction false} FilterAppend<T>(xs: seq<T>, ys: seq<T>, p: T -> bool)
    ensures Filter(xs + ys, p) == Filter(xs, p) + Filter(ys, p)
    decreases |xs|
  {
    if |xs| == 0 {
      assert xs + ys == ys;
    } else {
      assert (xs + ys)[1..] == xs[1..] + ys;
      FilterAppend(xs[1..], ys, p);
    }
  }

  /** `xs.map(x => p(x) ? v : x)`: every element matching `p` becomes `v`. */
  function ReplaceWhere<T>(xs: seq<T>, p: T -> bool, v: T): (r: seq<T>)
    ensures |r| == |xs|
    ensures forall i :: 0 <= i < |xs| && p(xs[i]) ==> r[i] == v
    ensures forall i :: 0 <= i < |xs| && !p(xs[i]) ==> r[i] == xs[i]
    decreases |xs|
  {
    if |xs| == 0 then [] else [if p(xs[0]) then v else xs[0]] + ReplaceWhere(xs[1..], p, v)
  }

  /** With no element matching, the replacement leaves the list as it was. */
  lemma ReplaceNothing<T>(xs: seq<T>, p: T -> bool, v: T)
    requires forall i :: 0 <= i < |xs| ==> !p(xs[i])
    ensures ReplaceWhere(xs, p, v) == xs
  {
  }

  /** `xs.findIndex(p)`, with `|xs|` standing for "not found": the position
      of the first element satisfying `p`. */
  function FirstIndex<T>(xs: seq<T>, p: T -> bool): (k: int)
    ensures 0 <= k <= |xs|
    ensures k < |xs| ==> p(xs[k])
    ensures forall j :: 0 <= j < k ==> !p(xs[j])
    decreases |xs|
  {
    if |xs| == 0 then 0 else if p(xs[0]) then 0 else 1 + FirstIndex(xs[1..], p)
  }

  /** `xs.find(p)`: the first element satisfying `p`, if any. */
  function Find<T>(xs: seq<T>, p: T -> bool): (r: Option<T>)
    ensures r.None? <==> forall i :: 0 <= i < |xs| ==> !p(xs[i])
    ensures r.Some? ==> p(r.value) && r.value == xs[FirstIndex(xs, p)]
  {
    var k := FirstIndex(xs, p);
    if k < |xs| then Some(xs[k]) else None
  }
}
