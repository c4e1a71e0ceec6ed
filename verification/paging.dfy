/**
 Page windows over a sorted list: `list.slice(start, start + size)` with
 `start = (page - 1) * size`, the page count `Math.ceil(n / size)`, and the
 previous/next buttons that clamp the page number.
 */
module Paging {

  function Min(a: int, b: int): int { if a <= b then a else b }
  function Max(a: int, b: int): int { if a <= b then b else a }

  /** One end of `slice`: a negative position counts back from the end, and
      the result is clamped to `0..n`. */
  function SliceIndex(i: int, n: nat): (r: nat)
    ensures r <= n
    ensures 0 <= i ==> r == Min(i, n)
    ensures i < 0 ==> r == Max(n + i, 0)
  {
    if i < 0 then (if n + i < 0 then 0 else n + i) else if i < n then i else n
  }

  /** `xs.slice(start, end)` with JavaScript's treatment of negative and
      out-of-range positions. */
  function Slice<T>(xs: seq<T>, start: int, end: int): (r: seq<T>)
    ensures |r| <= |xs|
    ensures forall i :: 0 <= i < |r| ==> r[i] in xs
  {
    var from := SliceIndex(start, |xs|);
    var to := SliceIndex(end, |xs|);
    if from < to then xs[from..to] else []
  }

  /** The entries shown on page `page` (numbered from 1). */
  function Page<T>(xs: seq<T>, page: int, size: nat): (r: seq<T>)
    ensures |r| <= size
    ensures forall i :: 0 <= i < |r| ==> r[i] in xs
  {
    var start := (page - 1) * size;
    Slice(xs, start, start + size)
  }

  /** `Math.ceil(n / size)`. */
  function PageCount(n: nat, size: nat): (r: nat)
    requires size > 0
    ensures r == 0 <==> n == 0
    ensures r * size >= n
    ensures r > 0 ==> (r - 1) * size < n
  {
    var r := (n + size - 1) / size;
    assert r * size <= n + size - 1 < (r + 1) * size;
    r
  }

  /** Page `p` from 1 on is the window `[(p-1)*size, p*size)`, cut at the end of the list. */
  lemma PageWindow<T>(xs: seq<T>, p: int, size: nat)
    requires p >= 1
    ensures (p - 1) * size <= p * size
    ensures Page(xs, p, size) == xs[Min((p - 1) * size, |xs|)..Min(p * size, |xs|)]
  {
    var start := (p - 1) * size;
    assert 0 <= start by { MulLe(0, p - 1, size); }
    assert start + size == p * size by { MulStep(p, size); }
    assert SliceIndex(start, |xs|) == Min(start, |xs|);
    assert SliceIndex(start + size, |xs|) == Min(p * size, |xs|);
  }

  /** Page 0 (which `Next` can produce) shows nothing, whatever the list holds. */
  lemma PageZeroEmpty<T>(xs: seq<T>, size: nat)
    requires size > 0
    ensures Page(xs, 0, size) == []
  {
  }

  /** Pages past the last one show nothing. */
  lemma PageBeyondLastEmpty<T>(xs: seq<T>, p: int, size: nat)
    requires size > 0
    requires p > PageCount(|xs|, size)
    ensures Page(xs, p, size) == []
  {
    var t := PageCount(|xs|, size);
    assert (p - 1) * size >= t * size by {
      assert p - 1 >= t;
    }
    PageWindow(xs, p, size);
  }

  /** Pages 1..k laid end to end. */
  ghost function Pages<T>(xs: seq<T>, size: nat, k: nat): seq<T> {
    if k == 0 then [] else Pages(xs, size, k - 1) + Page(xs, k, size)
  }

  /** One more page starts `size` entries further on. */
  lemma MulStep(k: int, size: nat)
    ensures (k - 1) * size + size == k * size
  {
  }

  /** The first `k` pages together are the first `k * size` entries. */
  lemma {:induction false} PagesArePrefix<T>(xs: seq<T>, size: nat, k: nat)
    ensures Pages(xs, size, k) == xs[..Min(k * size, |xs|)]
  {
    if k > 0 {
      PagesArePrefix(xs, size, k - 1);
      NextPageExtends(xs, Pages(xs, size, k - 1), size, k);
    }
  }

  /** The first `k - 1` pages followed by page `k` are the first `k * size` entries. */
  lemma NextPageExtends<T>(xs: seq<T>, prefix: seq<T>, size: nat, k: nat)
    requires k > 0
    requires prefix == xs[..Min((k - 1) * size, |xs|)]
    ensures prefix + Page(xs, k, size) == xs[..Min(k * size, |xs|)]
  {
    var lo := (k - 1) * size;
    var hi := k * size;
    assert 0 <= lo <= hi by { MulLe(0, k - 1, size); MulStep(k, size); }
    assert Page(xs, k, size) == xs[Min(lo, |xs|)..Min(hi, |xs|)] by { PageWindow(xs, k, size); }
    AppendWindow(xs, prefix, Page(xs, k, size), lo, hi);
  }

  /** A prefix followed by the window right after it is a longer prefix. */
  lemma AppendWindow<T>(xs: seq<T>, prefix: seq<T>, window: seq<T>, lo: nat, hi: nat)
    requires lo <= hi
    requires prefix == xs[..Min(lo, |xs|)]
    requires window == xs[Min(lo, |xs|)..Min(hi, |xs|)]
    ensures prefix + window == xs[..Min(hi, |xs|)]
  {
  }

  /** Pages 1..PageCount cover the list exactly once, in order, with no gap
      and no overlap. */
  lemma PagesCoverList<T>(xs: seq<T>, size: nat)
    requires size > 0
    ensures Pages(xs, size, PageCount(|xs|, size)) == xs
  {
    PagesArePrefix(xs, size, PageCount(|xs|, size));
  }

  /** Every page before the last is full. */
  lemma PagesBeforeLastFull<T>(xs: seq<T>, p: int, size: nat)
    requires size > 0
    requires 1 <= p < PageCount(|xs|, size)
    ensures |Page(xs, p, size)| == size
  {
    var t := PageCount(|xs|, size);
    var lo := (p - 1) * size;
    var hi := p * size;
    assert 0 <= lo && lo + size == hi by { MulLe(0, p - 1, size); MulStep(p, size); }
    assert hi < |xs| by { MulLe(p, t - 1, size); }
    assert Page(xs, p, size) == xs[Min(lo, |xs|)..Min(hi, |xs|)] by { PageWindow(xs, p, size); }
    WindowLength(xs, lo, hi);
  }

  lemma WindowLength<T>(xs: seq<T>, lo: nat, hi: nat)
    requires lo <= hi <= |xs|
    ensures |xs[Min(lo, |xs|)..Min(hi, |xs|)]| == hi - lo
  {
  }

  /** The last page holds `n % size` entries, or a full page when `size` divides `n`. */
  lemma LastPageSize<T>(xs: seq<T>, size: nat)
    requires size > 0 && |xs| > 0
    ensures |Page(xs, PageCount(|xs|, size), size)|
         == (if |xs| % size == 0 then size else |xs| % size)
  {
    var t := PageCount(|xs|, size);
    var lo := (t - 1) * size;
    assert 0 <= lo < |xs| <= t * size by { MulLe(0, t - 1, size); }
    assert Page(xs, t, size) == xs[lo..|xs|] by { PageWindow(xs, t, size); }
    LastPageLength(|xs|, size);
  }

  lemma MulLe(a: int, b: int, size: nat)
    requires a <= b
    ensures a * size <= b * size
  {
  }

  /** The entries before the last page: `(PageCount - 1) * size`. */
  lemma LastPageLength(n: nat, size: nat)
    requires size > 0 && n > 0
    ensures n - (PageCount(n, size) - 1) * size == (if n % size == 0 then size else n % size)
  {
    var t := PageCount(n, size);
    var q := n / size;
    var m := n % size;
    assert n == q * size + m;
    if m == 0 {
      assert q * size >= n;
      if q < t {
        MulLe(q, t - 1, size);
      }
      if t < q {
        MulLe(t, q - 1, size);
        MulStep(q, size);
      }
      assert t == q;
      MulStep(t, size);
    } else {
      MulStep(q + 1, size);
      assert (q + 1) * size > n;
      if q + 1 < t {
        MulLe(q + 1, t - 1, size);
      }
      if t < q + 1 {
        MulLe(t, q, size);
      }
      assert t == q + 1;
    }
  }

  /** The "Anterior" button: `Math.max(page - 1, 1)`. */
  function Prev(page: int): (r: int)
    ensures r >= 1 && r <= Max(page, 1)
    ensures page > 1 ==> r == page - 1
    ensures page <= 1 ==> r == 1
  {
    Max(page - 1, 1)
  }

  /** The "Siguiente" button: `Math.min(page + 1, totalPages)`. */
  function Next(page: int, total: nat): (r: int)
    ensures r <= total && r <= page + 1
    ensures page < total ==> r == page + 1
    ensures page >= total ==> r == total
  {
    Min(page + 1, total)
  }

  /** The "Anterior" button is greyed out on page 1. */
  predicate PrevDisabled(page: int) { page == 1 }

  /** The "Siguiente" button is greyed out when the page equals the page count. */
  predicate NextDisabled(page: int, total: nat) { page == total }

  /** From any page in `1..total`, both buttons stay in `1..total`. */
  lemma NavigationStaysInRange(page: int, total: nat)
    requires 1 <= page <= total
    ensures 1 <= Prev(page) <= total
    ensures 1 <= Next(page, total) <= total
  {
  }

  /** On a page in `1..total` a button is greyed out exactly when pressing it
      would leave the page where it is; an enabled button moves by one. */
  lemma DisabledIffNoMove(page: int, total: nat)
    requires 1 <= page <= total
    ensures PrevDisabled(page) <==> Prev(page) == page
    ensures NextDisabled(page, total) <==> Next(page, total) == page
    ensures !PrevDisabled(page) ==> Prev(page) == page - 1
    ensures !NextDisabled(page, total) ==> Next(page, total) == page + 1
  {
  }

  /** With no results (`total == 0`) the next button on page 1 is not greyed
      out, and pressing it sets the page to 0, below the first page; that page
      then shows nothing even once results are back. */
  lemma NextCanLeaveRange<T>(xs: seq<T>, size: nat)
    requires size > 0
    ensures !NextDisabled(1, 0) && Next(1, 0) == 0
    ensures Page(xs, Next(1, 0), size) == []
  {
    PageZeroEmpty(xs, size);
  }

  /** The next button with the page kept at 1 or above. */
  function NextClamped(page: int, total: nat): (r: int)
    ensures r >= 1
    ensures 1 <= page <= total ==> r <= total
    ensures page < total ==> r == Max(page + 1, 1)
    ensures page >= total ==> r == Max(total, 1)
  {
    Max(Min(page + 1, total), 1)
  }

  /** Clamped navigation never leaves `1..max(total, 1)`, from any page in it,
      whatever the page count is. */
  lemma ClampedNavigationStaysInRange(page: int, total: nat)
    requires 1 <= page <= Max(total, 1)
    ensures 1 <= Prev(page) <= Max(total, 1)
    ensures 1 <= NextClamped(page, total) <= Max(total, 1)
  {
  }
}
