/**
 The court-calendar page: six fixed events, a text search applied through a
 debounce, a date filter, a stable sort on the date in either direction and
 a window of five events per page.
 */
module Calendario {
  import opened Text
  import opened Seqs
  import opened Sorting
  import opened Paging

  datatype Event = Event(id: string, date: string, time: string, title: string, description: string)

  /** The page's state. `searchQuery` is what the box shows; `appliedQuery`
      is the debounced copy the filter reads, which catches up once the
      300 ms timer fires (`Settle`). */
  datatype View = View(
    searchQuery: string,
    appliedQuery: string,
    filterDate: string,
    sortOrder: Order,
    currentPage: int)

  const ItemsPerPage: nat := 5

  /** Ascending, page 1, no filters. */
  const InitialView: View := View("", "", "", Asc, 1)

  /** An ISO date in March 2025: every event falls in it. */
  function March2025(day: string): string { "2025-03-" + day }

  /** Dates in March 2025 compare as their days do. */
  lemma March2025Compare(d1: string, d2: string)
    ensures Compare(March2025(d1), March2025(d2)) == Compare(d1, d2)
  {
    CompareCommonPrefix("2025-03-", d1, d2);
  }

  const InicioDeJuicio: Event := Event("1", March2025("15"), "10:00", "Audiencia de inicio de juicio",
    "Audiencia inicial para el caso #3021 en la sala 3.")
  const PresentacionDePruebas: Event := Event("2", March2025("18"), "14:30", "Presentación de pruebas",
    "Presentación de pruebas en el caso #2918, sala 1.")
  const Sentencia: Event := Event("3", March2025("20"), "09:00", "Audiencia de sentencia",
    "Sentencia en el caso #3054, sala 2.")
  const Conciliacion: Event := Event("4", March2025("22"), "11:00", "Audiencia de conciliación",
    "Reunión de conciliación en el caso #2890, sala 4.")
  const InformeDeGestion: Event := Event("5", March2025("25"), "15:00", "Informe de gestión judicial",
    "Presentación del informe trimestral de la sala 3.")
  const RevisionDeDocumentos: Event := Event("6", March2025("28"), "08:30", "Revisión de documentos",
    "Revisión de pruebas y documentos en el caso #3021.")

  /** The six events the page is built with, in the order written. */
  const Events: seq<Event> :=
    [InicioDeJuicio, PresentacionDePruebas, Sentencia, Conciliacion, InformeDeGestion, RevisionDeDocumentos]

  /** The filter callback: the debounced text occurs in the title or the
      description, ignoring case, and the date equals the date filter when
      that is set. */
  predicate Matches(query: string, date: string, e: Event) {
    && (ContainsIgnoringCase(e.title, query) || ContainsIgnoringCase(e.description, query))
    && (date == "" || e.date == date)
  }

  function Criteria(query: string, date: string): Event -> bool {
    (e: Event) => Matches(query, date, e)
  }

  /** The filter reads the debounced query, never the box. */
  function Filtered(events: seq<Event>, v: View): seq<Event> {
    Filter(events, Criteria(v.appliedQuery, v.filterDate))
  }

  /** `localeCompare` on the date, arguments swapped for descending order. */
  function CompareEvents(order: Order, a: Event, b: Event): int {
    if order == Asc then Compare(a.date, b.date) else Compare(b.date, a.date)
  }

  function Precedes(order: Order): (Event, Event) -> bool {
    (a: Event, b: Event) => CompareEvents(order, a, b) <= 0
  }

  function Results(events: seq<Event>, v: View): seq<Event> {
    Sort(Filtered(events, v), Precedes(v.sortOrder))
  }

  /** The events on screen: at most five, each one of the events that
      passes the debounced search and the date filter. */
  function Paginated(events: seq<Event>, v: View): (r: seq<Event>)
    ensures |r| <= ItemsPerPage
    ensures forall i :: 0 <= i < |r| ==> r[i] in events && Matches(v.appliedQuery, v.filterDate, r[i])
  {
    var sorted := Results(events, v);
    assert forall e :: e in sorted ==> e in Filtered(events, v) by {
      forall e | e in sorted ensures e in Filtered(events, v) {
        assert e in multiset(sorted);
      }
    }
    Page(sorted, v.currentPage, ItemsPerPage)
  }

  /** `Math.ceil` of the number of matches over five: zero exactly when
      nothing matches. */
  function TotalPages(events: seq<Event>, v: View): (r: nat)
    ensures r == 0 <==> Filtered(events, v) == []
  {
    PageCount(|Results(events, v)|, ItemsPerPage)
  }

  /** Typing in the search box: the box changes at once, the filter does not. */
  function Type(v: View, q: string): (r: View)
    ensures r.searchQuery == q
    ensures r.(searchQuery := v.searchQuery) == v
  {
    v.(searchQuery := q)
  }

  /** The debounce timer fires: the filter catches up with the box. */
  function Settle(v: View): (r: View)
    ensures r.appliedQuery == r.searchQuery == v.searchQuery
    ensures r.(appliedQuery := v.appliedQuery) == v
  {
    v.(appliedQuery := v.searchQuery)
  }

  /** Picking a date in the date input. */
  function PickDate(v: View, d: string): (r: View)
    ensures r.filterDate == d
    ensures r.(filterDate := v.filterDate) == v
  {
    v.(filterDate := d)
  }

  /** The "x" on the search chip. */
  function ClearSearch(v: View): (r: View)
    ensures r.searchQuery == ""
    ensures r.(searchQuery := v.searchQuery) == v
  {
    v.(searchQuery := "")
  }

  /** The "x" on the date chip. */
  function ClearDate(v: View): (r: View)
    ensures r.filterDate == ""
    ensures r.(filterDate := v.filterDate) == v
  {
    v.(filterDate := "")
  }

  /** "Limpiar filtros": the search box and the date filter are emptied; the
      debounced query follows only when the timer fires. */
  function ClearFilters(v: View): (r: View)
    ensures r.searchQuery == "" && r.filterDate == ""
    ensures r.appliedQuery == v.appliedQuery && r.sortOrder == v.sortOrder
      && r.currentPage == v.currentPage
  {
    v.(searchQuery := "", filterDate := "")
  }

  /** The sort button: the direction flips. */
  function HandleSort(v: View): (r: View)
    ensures r.sortOrder != v.sortOrder
    ensures r.(sortOrder := v.sortOrder) == v
  {
    v.(sortOrder := v.sortOrder.Flip())
  }

  function GoPrev(v: View): View {
    v.(currentPage := Prev(v.currentPage))
  }

  function GoNext(v: View, total: nat): View {
    v.(currentPage := Next(v.currentPage, total))
  }

  /** The filter keeps exactly the events whose title or description holds
      the debounced text and whose date matches the date filter. */
  lemma FilterKeepsExactlyMatches(events: seq<Event>, v: View, e: Event)
    ensures e in Filtered(events, v) <==>
      && e in events
      && (Contains(Lower(e.title), Lower(v.appliedQuery))
          || Contains(Lower(e.description), Lower(v.appliedQuery)))
      && (v.filterDate == "" || e.date == v.filterDate)
  {
    var r := Filtered(events, v);
    if e in r {
      var i :| 0 <= i < |r| && r[i] == e;
    }
    if e in events && Matches(v.appliedQuery, v.filterDate, e) {
      var i :| 0 <= i < |events| && events[i] == e;
    }
  }

  /** The filtered list is the input with events deleted, order kept. */
  lemma FilterKeepsOrder(events: seq<Event>, v: View)
    ensures IsSubseq(Filtered(events, v), events)
  {
    FilterIsSubseq(events, Criteria(v.appliedQuery, v.filterDate));
  }

  /** Typing does not change what is listed until the timer fires; then the
      list is filtered with the typed text. */
  lemma TypingWaitsForSettle(events: seq<Event>, v: View, q: string)
    ensures Results(events, Type(v, q)) == Results(events, v)
    ensures Filtered(events, Settle(Type(v, q))) == Filter(events, Criteria(q, v.filterDate))
  {
  }

  /** Once settled, settling again changes nothing. */
  lemma SettleIdempotent(v: View)
    ensures Settle(Settle(v)) == Settle(v)
  {
  }

  /** With both filters empty every event is kept. */
  lemma EmptyFiltersKeepAll(events: seq<Event>, v: View)
    requires v.appliedQuery == "" && v.filterDate == ""
    ensures Filtered(events, v) == events
  {
    forall i | 0 <= i < |events| ensures Matches(v.appliedQuery, v.filterDate, events[i]) {
      EmptyQueryMatches(events[i].title);
    }
    FilterKeepsAll(events, Criteria(v.appliedQuery, v.filterDate));
  }

  /** After "Limpiar filtros" and the debounce, every event is listed again. */
  lemma ClearFiltersShowsAllOnceSettled(events: seq<Event>, v: View)
    ensures Filtered(events, Settle(ClearFilters(v))) == events
  {
    EmptyFiltersKeepAll(events, Settle(ClearFilters(v)));
  }

  /** The comparator is consistent in both directions. */
  lemma PrecedesIsConsistent(order: Order)
    ensures TotalPreorder(Precedes(order))
  {
    var le := Precedes(order);
    forall a: Event, b: Event ensures le(a, b) || le(b, a) {
      CompareAntisymmetric(a.date, b.date);
    }
    forall a: Event, b: Event, c: Event | le(a, b) && le(b, c) ensures le(a, c) {
      if order == Asc { LeTransitive(a.date, b.date, c.date); }
      else { LeTransitive(c.date, b.date, a.date); }
    }
  }

  /** The listed events are a permutation of the filtered ones, ordered by
      date in the chosen direction. */
  lemma ResultsOrderedByDate(events: seq<Event>, v: View)
    ensures var r := Results(events, v);
      && multiset(r) == multiset(Filtered(events, v))
      && (v.sortOrder == Asc ==> forall i :: 0 <= i < |r| - 1 ==> Le(r[i].date, r[i + 1].date))
      && (v.sortOrder == Desc ==> forall i :: 0 <= i < |r| - 1 ==> Le(r[i + 1].date, r[i].date))
  {
    PrecedesIsConsistent(v.sortOrder);
    SortSorted(Filtered(events, v), Precedes(v.sortOrder));
  }

  function SameDate(k: Event): Event -> bool {
    (e: Event) => e.date == k.date
  }

  /** Two events compare equal exactly when they fall on the same date. */
  lemma TiedIffSameDate(order: Order, k: Event, e: Event)
    ensures Tied(Precedes(order), k, e) <==> e.date == k.date
  {
    CompareZeroIffEqual(e.date, k.date);
    CompareAntisymmetric(e.date, k.date);
  }

  /** Events on the same date keep their relative order in either direction. */
  lemma SortIsStable(xs: seq<Event>, order: Order, k: Event)
    ensures Filter(Sort(xs, Precedes(order)), SameDate(k)) == Filter(xs, SameDate(k))
  {
    var le := Precedes(order);
    PrecedesIsConsistent(order);
    SortStable(xs, le, k);
    forall e: Event ensures TiedTo(le, k)(e) == SameDate(k)(e) {
      TiedIffSameDate(order, k, e);
    }
    FilterCongruent(Sort(xs, le), TiedTo(le, k), SameDate(k));
    FilterCongruent(xs, TiedTo(le, k), SameDate(k));
  }

  /** Pressing the sort button twice restores the direction. */
  lemma HandleSortTwiceRestores(v: View)
    ensures HandleSort(HandleSort(v)) == v
  {
  }

  /** Page `p` from 1 on shows the sorted events `[(p-1)*5, min(p*5, n))`. */
  lemma PageIsWindow(events: seq<Event>, v: View)
    requires v.currentPage >= 1
    ensures var r := Results(events, v);
      var p := v.currentPage;
      && (p - 1) * ItemsPerPage <= p * ItemsPerPage
      && Paginated(events, v) == r[Min((p - 1) * ItemsPerPage, |r|)..Min(p * ItemsPerPage, |r|)]
      && |Paginated(events, v)| <= ItemsPerPage
  {
    PageWindow(Results(events, v), v.currentPage, ItemsPerPage);
  }

  /** Pages 1..TotalPages, laid end to end, are the listed events exactly once. */
  lemma PagesCoverResults(events: seq<Event>, v: View)
    ensures Pages(Results(events, v), ItemsPerPage, TotalPages(events, v)) == Results(events, v)
    ensures TotalPages(events, v) * ItemsPerPage >= |Filtered(events, v)|
    ensures TotalPages(events, v) > 0 ==> (TotalPages(events, v) - 1) * ItemsPerPage < |Filtered(events, v)|
  {
    PagesCoverList(Results(events, v), ItemsPerPage);
  }

  /** Filters do not reset the page: a page past the new last page shows nothing. */
  lemma StalePageIsEmpty(events: seq<Event>, v: View)
    requires v.currentPage > TotalPages(events, v)
    ensures Paginated(events, v) == []
  {
    PageBeyondLastEmpty(Results(events, v), v.currentPage, ItemsPerPage);
  }

  /** Prev and Next keep a page in `1..TotalPages` inside it; with no results
      Next moves any page the buttons can reach to page 0, which shows nothing. */
  lemma NavigationClamps(events: seq<Event>, v: View)
    ensures var t := TotalPages(events, v);
      1 <= v.currentPage <= t ==>
        (1 <= GoPrev(v).currentPage <= t && 1 <= GoNext(v, t).currentPage <= t)
    ensures TotalPages(events, v) == 0 && v.currentPage >= 0 ==>
      (GoNext(v, 0).currentPage == 0 && Paginated(events, GoNext(v, 0)) == [])
  {
    var t := TotalPages(events, v);
    if 1 <= v.currentPage <= t {
      NavigationStaysInRange(v.currentPage, t);
    }
    PageZeroEmpty(Results(events, GoNext(v, 0)), ItemsPerPage);
  }

  /** A list already in ascending date order is shown as it is on the first
      screen, whose first page is its first five events. */
  lemma FirstScreen(events: seq<Event>)
    requires Sorted(events, Precedes(Asc))
    ensures Results(events, InitialView) == events
    ensures Paginated(events, InitialView) == events[..Min(ItemsPerPage, |events|)]
  {
    EmptyFiltersKeepAll(events, InitialView);
    SortOfSorted(events, Precedes(Asc));
    PageWindow(events, 1, ItemsPerPage);
  }

  /** Each event is dated no later than the next one written. */
  lemma NeighboursAscend(i: nat)
    requires i < |Events| - 1
    ensures Precedes(Asc)(Events[i], Events[i + 1])
  {
    if i == 0 { March2025Compare("15", "18"); }
    else if i == 1 { March2025Compare("18", "20"); }
    else if i == 2 { March2025Compare("20", "22"); }
    else if i == 3 { March2025Compare("22", "25"); }
    else { March2025Compare("25", "28"); }
  }

  /** The six events are written in ascending date order. */
  lemma EventsAscend()
    ensures Sorted(Events, Precedes(Asc))
  {
    forall i: nat | i < |Events| - 1 ensures Precedes(Asc)(Events[i], Events[i + 1]) {
      NeighboursAscend(i);
    }
  }

  /** The first screen keeps the six events as written, in two pages. */
  lemma SeededResults()
    ensures Results(Events, InitialView) == Events
    ensures TotalPages(Events, InitialView) == 2
  {
    EventsAscend();
    FirstScreen(Events);
    assert PageCount(6, ItemsPerPage) == 2;
  }

  /** Page 1 of the first screen is the first five events as written. */
  lemma SeededFirstPage()
    ensures Paginated(Events, InitialView) == Events[..5]
  {
    EventsAscend();
    FirstScreen(Events);
  }

  /** On the first screen the page lists its events in the order written:
      "Audiencia de inicio de juicio" through "Informe de gestión judicial"
      on page 1, of two pages. */
  lemma SeededFirstScreen()
    ensures Paginated(Events, InitialView)
         == [InicioDeJuicio, PresentacionDePruebas, Sentencia, Conciliacion, InformeDeGestion]
    ensures TotalPages(Events, InitialView) == 2
  {
    SeededResults();
    SeededFirstPage();
    FirstFiveEvents();
  }

  lemma FirstFiveEvents()
    ensures Events[..5] == [InicioDeJuicio, PresentacionDePruebas, Sentencia, Conciliacion, InformeDeGestion]
  {
  }
}
