/**
 Record identifiers: uniqueness of a key over a list, the largest key, and
 the "ids are exactly 1..n" shape that the stores' `length + 1` rule assumes.
 */
module Keys {
  import opened Seqs

  /** No two records share a key. */
  predicate UniqueKeys<T>(s: seq<T>, key: T -> int) {
    forall i, j :: 0 <= i < j < |s| ==> key(s[i]) != key(s[j])
  }

  /** The keys are exactly 1, 2, ..., n in list order. */
  predicate KeysAreIndices<T>(s: seq<T>, key: T -> int) {
    forall i :: 0 <= i < |s| ==> key(s[i]) == i + 1
  }

  /** No record carries key `k`. */
  predicate KeyAbsent<T>(s: seq<T>, key: T -> int, k: int) {
    forall i :: 0 <= i < |s| ==> key(s[i]) != k
  }

  /** The largest key, or 0 for an empty list. */
  function MaxKey<T>(s: seq<T>, key: T -> int): (m: int)
    ensures m >= 0
    ensures forall i :: 0 <= i < |s| ==> key(s[i]) <= m
    ensures |s| > 0 && m > 0 ==> exists i :: 0 <= i < |s| && key(s[i]) == m
    decreases |s|
  {
    if |s| == 0 then 0
    else
      var m := MaxKey(s[..|s| - 1], key);
      assert forall i :: 0 <= i < |s| - 1 ==> s[..|s| - 1][i] == s[i];
      if key(s[|s| - 1]) > m then key(s[|s| - 1]) else m
  }

  /** Ids 1..n are unique, and `n + 1` is not among them. */
  lemma IndicesAreUnique<T>(s: seq<T>, key: T -> int)
    requires KeysAreIndices(s, key)
    ensures UniqueKeys(s, key)
    ensures KeyAbsent(s, key, |s| + 1)
  {
  }

  /** When the ids are 1..n, the largest is n. */
  lemma {:induction false} MaxOfIndices<T>(s: seq<T>, key: T -> int)
    requires KeysAreIndices(s, key)
    ensures MaxKey(s, key) == |s|
    decreases |s|
  {
    if |s| > 0 {
      MaxOfIndices(s[..|s| - 1], key);
    }
  }

  /** Filtering a list with unique keys leaves them unique. */
  lemma {:induction false} FilterKeepsUniqueKeys<T>(s: seq<T>, key: T -> int, p: T -> bool)
    requires UniqueKeys(s, key)
    ensures UniqueKeys(Filter(s, p), key)
    decreases |s|
  {
    if |s| > 0 {
      assert UniqueKeys(s[1..], key);
      FilterKeepsUniqueKeys(s[1..], key, p);
      var rest := Filter(s[1..], p);
      if p(s[0]) {
        assert Filter(s, p) == [s[0]] + rest;
        forall j | 0 <= j < |rest| ensures key(rest[j]) != key(s[0]) {
          var k :| 0 <= k < |s[1..]| && s[1..][k] == rest[j];
          assert s[k + 1] == rest[j];
        }
      } else {
        assert Filter(s, p) == rest;
      }
    }
  }
}
