/**
 The action-history page: a fixed list of entries run through four
 filters, a stable sort on one column in one direction, and a window of
 ten entries per page, together with the buttons that change the sort,
 clear the filters and move between pages.
 */
module Historial {
  import opened Text
  import opened Seqs
  import opened Sorting
  import opened Paging

  /** One logged action. The source calls `kind` `type`, a reserved word here. */
  datatype Entry = Entry(user: string, kind: string, date: string, action: string)

  /** The page's state: the four filters, the sort column and direction, the page number. */
  datatype View = View(
    searchQuery: string,
    filterType: string,
    filterDate: string,
    filterUser: string,
    sortOrder: Order,
    sortBy: string,
    currentPage: int)

  const ItemsPerPage: nat := 10

  /** Newest first by date, page 1, no filters. */
  const InitialView: View := View("", "", "", "", Desc, "date", 1)

  /** The filter callback: the action contains the search text, the type and
      date equal their filters when those are set, the user contains the user
      filter; text comparisons ignore case. */
  predicate Matches(v: View, e: Entry) {
    && ContainsIgnoringCase(e.action, v.searchQuery)
    && (v.filterType == "" || e.kind == v.filterType)
    && (v.filterDate == "" || e.date == v.filterDate)
    && (v.filterUser == "" || ContainsIgnoringCase(e.user, v.filterUser))
  }

  function MatchesView(v: View): Entry -> bool {
    (e: Entry) => Matches(v, e)
  }

  function Filtered(entries: seq<Entry>, v: View): seq<Entry> {
    Filter(entries, MatchesView(v))
  }

  /** The sort comparator: `localeCompare` on the chosen column, arguments
      swapped for descending order, and 0 for any other column name. */
  function CompareEntries(sortBy: string, order: Order, a: Entry, b: Entry): int {
    if sortBy == "date" then
      (if order == Asc then Compare(a.date, b.date) else Compare(b.date, a.date))
    else if sortBy == "user" then
      (if order == Asc then Compare(a.user, b.user) else Compare(b.user, a.user))
    else if sortBy == "type" then
      (if order == Asc then Compare(a.kind, b.kind) else Compare(b.kind, a.kind))
    else 0
  }

  function Precedes(sortBy: string, order: Order): (Entry, Entry) -> bool {
    (a: Entry, b: Entry) => CompareEntries(sortBy, order, a, b) <= 0
  }

  function SortedEntries(xs: seq<Entry>, sortBy: string, order: Order): seq<Entry> {
    Sort(xs, Precedes(sortBy, order))
  }

  /** The filtered and sorted list the page windows are cut from. */
  function Results(entries: seq<Entry>, v: View): seq<Entry> {
    SortedEntries(Filtered(entries, v), v.sortBy, v.sortOrder)
  }

  /** The rows on screen: at most ten, each one a logged entry that passes
      the filters. */
  function Paginated(entries: seq<Entry>, v: View): (r: seq<Entry>)
    ensures |r| <= ItemsPerPage
    ensures forall i :: 0 <= i < |r| ==> r[i] in entries && Matches(v, r[i])
  {
    var sorted := Results(entries, v);
    assert forall e :: e in sorted ==> e in Filtered(entries, v) by {
      forall e | e in sorted ensures e in Filtered(entries, v) {
        assert e in multiset(sorted);
      }
    }
    Page(sorted, v.currentPage, ItemsPerPage)
  }

  /** `Math.ceil` of the number of matches over ten: zero exactly when
      nothing matches. */
  function TotalPages(entries: seq<Entry>, v: View): (r: nat)
    ensures r == 0 <==> Filtered(entries, v) == []
  {
    PageCount(|Results(entries, v)|, ItemsPerPage)
  }

  /** "Limpiar filtros": the four filters are emptied. */
  function ClearFilters(v: View): (r: View)
    ensures r.searchQuery == "" && r.filterType == "" && r.filterDate == "" && r.filterUser == ""
    ensures r.sortBy == v.sortBy && r.sortOrder == v.sortOrder && r.currentPage == v.currentPage
  {
    v.(searchQuery := "", filterType := "", filterDate := "", filterUser := "")
  }

  /** A column's sort button: the current column flips direction, another
      column becomes current in ascending order. */
  function HandleSort(v: View, column: string): (r: View)
    ensures r.sortBy == column
    ensures v.sortBy == column ==> r.sortOrder != v.sortOrder
    ensures v.sortBy != column ==> r.sortOrder == Asc
    ensures r.(sortBy := v.sortBy, sortOrder := v.sortOrder) == v
  {
    if v.sortBy == column then v.(sortOrder := v.sortOrder.Flip())
    else v.(sortBy := column, sortOrder := Asc)
  }

  /** "Anterior". */
  function GoPrev(v: View): View {
    v.(currentPage := Prev(v.currentPage))
  }

  /** "Siguiente", given the page count on screen. */
  function GoNext(v: View, total: nat): View {
    v.(currentPage := Next(v.currentPage, total))
  }

  /** The filter keeps exactly the entries satisfying all four conditions. */
  lemma FilterKeepsExactlyMatches(entries: seq<Entry>, v: View, e: Entry)
    ensures e in Filtered(entries, v) <==>
      && e in entries
      && Contains(Lower(e.action), Lower(v.searchQuery))
      && (v.filterType == "" || e.kind == v.filterType)
      && (v.filterDate == "" || e.date == v.filterDate)
      && (v.filterUser == "" || Contains(Lower(e.user), Lower(v.filterUser)))
  {
    var r := Filtered(entries, v);
    if e in r {
      var i :| 0 <= i < |r| && r[i] == e;
    }
    if e in entries && Matches(v, e) {
      var i :| 0 <= i < |entries| && entries[i] == e;
    }
  }

  /** The filtered list is the input with entries deleted, order kept. */
  lemma FilterKeepsOrder(entries: seq<Entry>, v: View)
    ensures IsSubseq(Filtered(entries, v), entries)
  {
    FilterIsSubseq(entries, MatchesView(v));
  }

  /** Filtering the filtered list again with the same view changes nothing. */
  lemma FilterIdempotent(entries: seq<Entry>, v: View)
    ensures Filtered(Filtered(entries, v), v) == Filtered(entries, v)
  {
    Seqs.FilterIdempotent(entries, MatchesView(v));
  }

  /** With all four filters empty every entry is kept, because the empty
      string occurs in every string. */
  lemma EmptyFiltersKeepAll(entries: seq<Entry>, v: View)
    requires v.searchQuery == "" && v.filterType == "" && v.filterDate == "" && v.filterUser == ""
    ensures Filtered(entries, v) == entries
  {
    forall i | 0 <= i < |entries| ensures Matches(v, entries[i]) {
      EmptyQueryMatches(entries[i].action);
    }
    FilterKeepsAll(entries, MatchesView(v));
  }

  /** After "Limpiar filtros" the whole list is shown again. */
  lemma ClearFiltersShowsAll(entries: seq<Entry>, v: View)
    ensures Filtered(entries, ClearFilters(v)) == entries
  {
    EmptyFiltersKeepAll(entries, ClearFilters(v));
  }

  /** The comparator is consistent for every column name and direction. */
  lemma PrecedesIsConsistent(sortBy: string, order: Order)
    ensures TotalPreorder(Precedes(sortBy, order))
  {
    var le := Precedes(sortBy, order);
    forall a: Entry, b: Entry ensures le(a, b) || le(b, a) {
      CompareAntisymmetric(a.date, b.date);
      CompareAntisymmetric(a.user, b.user);
      CompareAntisymmetric(a.kind, b.kind);
    }
    forall a: Entry, b: Entry, c: Entry | le(a, b) && le(b, c) ensures le(a, c) {
      if sortBy == "date" {
        if order == Asc { LeTransitive(a.date, b.date, c.date); }
        else { LeTransitive(c.date, b.date, a.date); }
      } else if sortBy == "user" {
        if order == Asc { LeTransitive(a.user, b.user, c.user); }
        else { LeTransitive(c.user, b.user, a.user); }
      } else if sortBy == "type" {
        if order == Asc { LeTransitive(a.kind, b.kind, c.kind); }
        else { LeTransitive(c.kind, b.kind, a.kind); }
      }
    }
  }

  /** Sorting is a permutation, ordered on the chosen column in the chosen
      direction; any other column name leaves the list as it is. */
  lemma SortOrdersByColumn(xs: seq<Entry>, sortBy: string, order: Order)
    ensures var r := SortedEntries(xs, sortBy, order);
      && multiset(r) == multiset(xs)
      && (sortBy == "date" && order == Asc ==> forall i :: 0 <= i < |r| - 1 ==> Le(r[i].date, r[i + 1].date))
      && (sortBy == "date" && order == Desc ==> forall i :: 0 <= i < |r| - 1 ==> Le(r[i + 1].date, r[i].date))
      && (sortBy == "user" && order == Asc ==> forall i :: 0 <= i < |r| - 1 ==> Le(r[i].user, r[i + 1].user))
      && (sortBy == "user" && order == Desc ==> forall i :: 0 <= i < |r| - 1 ==> Le(r[i + 1].user, r[i].user))
      && (sortBy == "type" && order == Asc ==> forall i :: 0 <= i < |r| - 1 ==> Le(r[i].kind, r[i + 1].kind))
      && (sortBy == "type" && order == Desc ==> forall i :: 0 <= i < |r| - 1 ==> Le(r[i + 1].kind, r[i].kind))
      && (sortBy != "date" && sortBy != "user" && sortBy != "type" ==> r == xs)
  {
    PrecedesIsConsistent(sortBy, order);
    SortSorted(xs, Precedes(sortBy, order));
    if sortBy != "date" && sortBy != "user" && sortBy != "type" {
      SortAllTies(xs, Precedes(sortBy, order));
    }
  }

  /** The column a sort compares, or a constant for any other column name. */
  function Column(sortBy: string, e: Entry): string {
    if sortBy == "date" then e.date
    else if sortBy == "user" then e.user
    else if sortBy == "type" then e.kind
    else ""
  }

  function SameColumn(sortBy: string, k: Entry): Entry -> bool {
    (e: Entry) => Column(sortBy, e) == Column(sortBy, k)
  }

  /** Two entries compare equal exactly when the sorted column holds the same value. */
  lemma TiedIffSameColumn(sortBy: string, order: Order, k: Entry, e: Entry)
    ensures Tied(Precedes(sortBy, order), k, e) <==> Column(sortBy, e) == Column(sortBy, k)
  {
    if sortBy == "date" {
      CompareZeroIffEqual(e.date, k.date);
      CompareAntisymmetric(e.date, k.date);
    } else if sortBy == "user" {
      CompareZeroIffEqual(e.user, k.user);
      CompareAntisymmetric(e.user, k.user);
    } else if sortBy == "type" {
      CompareZeroIffEqual(e.kind, k.kind);
      CompareAntisymmetric(e.kind, k.kind);
    }
  }

  /** The sort is stable: entries with equal values in the sorted column keep
      their relative order. */
  lemma SortIsStable(xs: seq<Entry>, sortBy: string, order: Order, k: Entry)
    ensures Filter(SortedEntries(xs, sortBy, order), SameColumn(sortBy, k))
         == Filter(xs, SameColumn(sortBy, k))
  {
    var le := Precedes(sortBy, order);
    var r := SortedEntries(xs, sortBy, order);
    PrecedesIsConsistent(sortBy, order);
    SortStable(xs, le, k);
    forall e: Entry ensures TiedTo(le, k)(e) == SameColumn(sortBy, k)(e) {
      TiedIffSameColumn(sortBy, order, k, e);
    }
    FilterCongruent(r, TiedTo(le, k), SameColumn(sortBy, k));
    FilterCongruent(xs, TiedTo(le, k), SameColumn(sortBy, k));
  }

  /** Page `p` from 1 on shows the sorted results `[(p-1)*10, min(p*10, n))`,
      at most ten of them. */
  lemma PageIsWindow(entries: seq<Entry>, v: View)
    requires v.currentPage >= 1
    ensures var r := Results(entries, v);
      var p := v.currentPage;
      && (p - 1) * ItemsPerPage <= p * ItemsPerPage
      && Paginated(entries, v) == r[Min((p - 1) * ItemsPerPage, |r|)..Min(p * ItemsPerPage, |r|)]
      && |Paginated(entries, v)| <= ItemsPerPage
  {
    PageWindow(Results(entries, v), v.currentPage, ItemsPerPage);
  }

  /** Pages 1..TotalPages, laid end to end, are the sorted results exactly once. */
  lemma PagesCoverResults(entries: seq<Entry>, v: View)
    ensures Pages(Results(entries, v), ItemsPerPage, TotalPages(entries, v)) == Results(entries, v)
    ensures TotalPages(entries, v) * ItemsPerPage >= |Filtered(entries, v)|
    ensures TotalPages(entries, v) > 0 ==> (TotalPages(entries, v) - 1) * ItemsPerPage < |Filtered(entries, v)|
  {
    PagesCoverList(Results(entries, v), ItemsPerPage);
  }

  /** Changing a filter does not reset the page: a page past the new last
      page shows nothing. */
  lemma StalePageIsEmpty(entries: seq<Entry>, v: View)
    requires v.currentPage > TotalPages(entries, v)
    ensures Paginated(entries, v) == []
  {
    PageBeyondLastEmpty(Results(entries, v), v.currentPage, ItemsPerPage);
  }

  /** Sorting the same column twice in a row restores the direction. */
  lemma HandleSortTwiceRestores(v: View)
    ensures HandleSort(HandleSort(v, v.sortBy), v.sortBy) == v
  {
  }

  /** Prev and Next keep a page in `1..TotalPages` inside it; with no results
      Next moves any page the buttons can reach to page 0, which shows nothing. */
  lemma NavigationClamps(entries: seq<Entry>, v: View)
    ensures var t := TotalPages(entries, v);
      1 <= v.currentPage <= t ==>
        (1 <= GoPrev(v).currentPage <= t && 1 <= GoNext(v, t).currentPage <= t)
    ensures TotalPages(entries, v) == 0 && v.currentPage >= 0 ==>
      (GoNext(v, 0).currentPage == 0 && Paginated(entries, GoNext(v, 0)) == [])
  {
    var t := TotalPages(entries, v);
    if 1 <= v.currentPage <= t {
      NavigationStaysInRange(v.currentPage, t);
    }
    PageZeroEmpty(Results(entries, GoNext(v, 0)), ItemsPerPage);
  }

  /** The first screen (no filters, newest first, page 1) shows a log that is
      already newest first as it is, the first ten entries on page 1. */
  lemma FirstScreen(entries: seq<Entry>)
    requires forall i :: 0 <= i < |entries| - 1 ==> Le(entries[i + 1].date, entries[i].date)
    ensures Results(entries, InitialView) == entries
    ensures Paginated(entries, InitialView) == entries[..Min(ItemsPerPage, |entries|)]
    ensures TotalPages(entries, InitialView) == PageCount(|entries|, ItemsPerPage)
  {
    EmptyFiltersKeepAll(entries, InitialView);
    assert Sorted(entries, Precedes("date", Desc));
    SortOfSorted(entries, Precedes("date", Desc));
    PageWindow(entries, 1, ItemsPerPage);
  }
}
