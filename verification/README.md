# SIGJ judicial-records demo, modelled in Dafny

SIGJ is a small Next.js application for a court office. It keeps case
records (*expedientes*) and office stock (*inventarios*) in two in-memory
API routes. It also shows an action history (*historial*) and a court
calendar (*calendario*) as filtered, sorted and paginated lists, and it
keeps client-side copies of the stock list on three screens. Case records
are edited in a dialog.

This project restates that logic as pure Dafny functions over immutable
datatypes and proves properties about it:

- **The two routes** (`ExpedientesApi`, `InventariosApi`). Each route's
  module-level array is a `Store`. Each handler is a function from the
  store and the parsed request to the next store and the response.
- **The query pipelines of the two list pages** (`Historial`,
  `Calendario`). Each runs a filter, then a stable sort, then a window of
  one page. The page count and the sort and navigation buttons are
  modelled as functions on the page's state.
- **The client copies of the stock list** (`InventoryHook`, `RecursosPage`,
  `InventariosPage`). Each handler takes the reply its request produced, as
  an `Outcome` (`Ok(value)` or `Fail`), and returns the next client state.
  Handlers that may send a request also return the request they sent, if
  any. `Requests` turns a route response into the `Outcome` a page sees.
- **The edit dialog** (`EditModal`): field loading, the blank-field check,
  the merge of the edited fields into the record, and the disabled state
  of the save button. The button is greyed out exactly when the check
  would refuse, so a press never reaches the refusal and the required-fields
  message never shows.

Shared modules restate the JavaScript built-ins the code relies on:

- `Text`: `trim`, `toLowerCase`, `includes` and `localeCompare`.
- `Seqs`: `filter`, a `map` that replaces by key, `find` and `findIndex`.
- `Sorting`: a stable sort under a comparator.
- `Paging`: `slice` with JavaScript's index rules, `Math.ceil` page counts,
  and the Previous/Next buttons.
- `Keys`: id uniqueness.

Where the code and its documentation disagree, the model follows the code:

- PUT on the case route replaces the whole record.
- Neither route validates its input.
- Neither route answers 404.
- The stock route has no PUT handler at all, so the client's edit request
  is refused with 405. The model states this as "an edit never takes
  effect".

## Model

| member | source | states |
|---|---|---|
| ExpedientesApi.SeedShape | src/app/api/expedientes/route.ts:3-6 | the store starts with exactly two records, ids 1 and 2, ids equal to positions and so unique |
| ExpedientesApi.Get | src/app/api/expedientes/route.ts:9-11 | GET answers 200 with the store and leaves it unchanged |
| ExpedientesApi.Post | src/app/api/expedientes/route.ts:14-19 | POST appends one record at the end, numbered `length + 1`, carrying the sent fields; earlier records are unchanged; the new record is echoed with 201 |
| ExpedientesApi.CreatedIsListed | src/app/api/expedientes/route.ts:14-19 | the record a POST echoes is listed by the next GET |
| ExpedientesApi.Put | src/app/api/expedientes/route.ts:22-28 | PUT keeps length and order; every record with the id becomes exactly the sent fields; the others are unchanged; the success message comes back whether or not anything matched |
| ExpedientesApi.PutAbsentIsNoop | src/app/api/expedientes/route.ts:22-28 | PUT of an id nobody has leaves the store unchanged and still answers 200 |
| ExpedientesApi.PutIdempotent | src/app/api/expedientes/route.ts:24-26 | the same PUT twice has the effect of once |
| ExpedientesApi.PutMatchedRecordsReadBack | src/app/api/expedientes/route.ts:24-26 | after a PUT every record with the id reads back exactly the sent fields |
| ExpedientesApi.Delete | src/app/api/expedientes/route.ts:31-35 | after DELETE no record has the id; every record with another id stays, as many times as it was there; the success message comes back regardless |
| ExpedientesApi.DeleteKeepsOrder | src/app/api/expedientes/route.ts:33 | DELETE leaves the rest as an order-preserving subsequence |
| ExpedientesApi.DeleteTwiceIsOnce | src/app/api/expedientes/route.ts:33 | a second DELETE of the same id changes nothing |
| ExpedientesApi.DeleteAbsentIsNoop | src/app/api/expedientes/route.ts:31-35 | DELETE of an absent id leaves the store unchanged |
| ExpedientesApi.PostThenDeleteRestores | src/app/api/expedientes/route.ts:16-17 | while ids are exactly 1..n, POST followed by DELETE of the new id restores the store |
| ExpedientesApi.PostKeepsIndices | src/app/api/expedientes/route.ts:16 | while ids are exactly 1..n, POST keeps them so, hence unique |
| ExpedientesApi.PostAfterDeleteDuplicatesId | src/app/api/expedientes/route.ts:16 | as written: from the initial store, DELETE 1 then POST yields two records with id 2 |
| ExpedientesApi.PostFresh | src/app/api/expedientes/route.ts:14-19 | corrected POST: appends the sent fields under an id no record holds |
| ExpedientesApi.PostFreshAgreesWhileIndices | src/app/api/expedientes/route.ts:16 | while ids are 1..n the corrected POST picks the same id as the original |
| ExpedientesApi.HandleFreshKeepsUnique | src/app/api/expedientes/route.ts:14-35 | every handler of the corrected route keeps ids unique |
| ExpedientesApi.RunFreshKeepsUnique | src/app/api/expedientes/route.ts:14-35 | any sequence of requests to the corrected route keeps ids unique |
| ExpedientesApi.Handle | src/app/api/expedientes/route.ts:9-35 | the route: GET leaves the store as it is, POST adds one record and answers 201, PUT keeps the size, DELETE never grows the store; all but POST answer 200 |
| InventariosApi.SeedShape | src/app/api/inventarios/route.ts:3-6 | the store starts with items 1 and 2, ids equal to positions |
| InventariosApi.Get | src/app/api/inventarios/route.ts:9-11 | GET answers 200 with the store and leaves it unchanged |
| InventariosApi.Post | src/app/api/inventarios/route.ts:14-19 | POST appends `{length + 1, recurso, stock}` at the end with any values at all, keeps earlier items, and echoes the item with 201 |
| InventariosApi.Delete | src/app/api/inventarios/route.ts:22-26 | after DELETE no item has the id; every other item stays, as many times as it was there; the same message comes back regardless |
| InventariosApi.OnlyPostAndDeleteWrite | src/app/api/inventarios/route.ts:8-26 | only POST and DELETE change the store; a PUT finds no handler, answers 405 and changes nothing |
| InventariosApi.DeleteKeepsOrder | src/app/api/inventarios/route.ts:24 | DELETE leaves the rest in their relative order |
| InventariosApi.DeleteAbsentIsNoop | src/app/api/inventarios/route.ts:22-26 | DELETE of an absent id leaves the store unchanged and still answers 200 |
| InventariosApi.DeleteTwiceIsOnce | src/app/api/inventarios/route.ts:24 | a second DELETE of the same id changes nothing |
| InventariosApi.PostAfterDeleteDuplicatesId | src/app/api/inventarios/route.ts:16 | as written: DELETE 1 then POST yields two items with id 2 |
| InventariosApi.PostFresh | src/app/api/inventarios/route.ts:14-19 | corrected POST: appends the item under an id no item holds |
| InventariosApi.FreshPostAndDeleteKeepUnique | src/app/api/inventarios/route.ts:14-26 | the corrected POST and DELETE keep ids unique |
| InventariosApi.Handle | src/app/api/inventarios/route.ts:8-26 | the route: GET leaves the store as it is, POST adds one item and answers 201, DELETE never grows the store, and a PUT finds no handler: 405 with the store untouched |
| Seqs.Filter | src/app/api/expedientes/route.ts:33 | `filter` keeps only elements that pass, every one that passes, each drawn from the input |
| Seqs.FilterCounts | src/app/api/expedientes/route.ts:33 | `filter` keeps each passing element exactly as many times as it occurs and drops every failing one; with Seqs.FilterIsSubseq this pins the result down |
| Seqs.FilterIsSubseq | src/app/historial/page.tsx:65 | `filter` keeps the survivors in their original order |
| Seqs.FilterIdempotent | src/app/historial/page.tsx:65 | filtering twice with the same test is filtering once |
| Seqs.FilterKeepsSubseq | src/app/hooks/useInventarios.ts:77 | filtering two lists with one test keeps one a subsequence of the other |
| Seqs.ReplaceWhere | src/app/api/expedientes/route.ts:24-26 | the `map` keeps length; elements that match become the new value, the others stay |
| Seqs.FirstIndex | src/app/recursos/page.tsx:101 | `findIndex`: the first position that passes, none before it |
| Seqs.Find | src/app/recursos/page.tsx:101 | `find` is empty exactly when no element passes, else the first one that does |
| Sorting.SortSorted | src/app/historial/page.tsx:78 | under a total preorder the sort's output is ordered |
| Sorting.SortStable | src/app/historial/page.tsx:78 | the sort is stable: elements that compare equal keep their relative order |
| Sorting.SortOfSorted | src/app/calendario/page.tsx:97 | an already ordered list is left as it is |
| Sorting.Sort | src/app/historial/page.tsx:78 | `[...xs].sort(cmp)` returns a permutation of its input, same length and same elements with their multiplicities |
| Sorting.SortIdempotent | src/app/historial/page.tsx:78 | with a comparator that is a total preorder, sorting twice is sorting once |
| Text.TrimIsCore | src/components/EditModal.tsx:26 | `trim` cuts only white space from the ends and leaves a piece that neither starts nor ends with it |
| Text.TrimIdempotent | src/app/recursos/page.tsx:28 | trimming twice is trimming once |
| Text.BlankIffAllSpace | src/components/EditModal.tsx:26 | `!s.trim()` holds exactly when every character is white space |
| Text.ContainsIffOccurs | src/app/historial/page.tsx:67 | `includes` holds exactly when the text occurs at some position |
| Text.CompareZeroIffEqual | src/app/historial/page.tsx:81 | the string comparison is zero exactly on equal strings |
| Text.LeTransitive | src/app/historial/page.tsx:81 | the string order is transitive |
| Text.CompareCommonPrefix | src/app/calendario/page.tsx:99-100 | a common prefix does not affect the string comparison |
| Text.Trim | src/components/EditModal.tsx:26 | `trim` never lengthens the string and leaves no white space at either end |
| Text.Lower | src/app/historial/page.tsx:67 | `toLowerCase` keeps the length and lower-cases each character on its own |
| Text.Contains | src/app/historial/page.tsx:67 | `includes` (no contract of its own; Text.ContainsIffOccurs gives its meaning) |
| Text.Compare | src/app/historial/page.tsx:81 | `localeCompare` answers -1, 0 or 1; Text.CompareZeroIffEqual and Text.LeTransitive make it an order |
| Paging.Page | src/app/historial/page.tsx:97-100 | a page is a `slice` of at most `itemsPerPage` elements, all drawn from the list |
| Paging.Slice | src/app/historial/page.tsx:99 | `slice` never returns more than the list holds, and only elements of the list |
| Paging.PageCount | src/app/historial/page.tsx:102 | `Math.ceil(n / size)`: zero exactly for no elements, enough pages for all, none to spare |
| Paging.PageWindow | src/app/historial/page.tsx:97-100 | page p from 1 on is the window `[(p-1)*size, min(p*size, n))` |
| Paging.PagesCoverList | src/app/historial/page.tsx:102 | pages 1..PageCount laid end to end are the whole list exactly once |
| Paging.PagesBeforeLastFull | src/app/calendario/page.tsx:105-110 | every page before the last is full |
| Paging.LastPageSize | src/app/calendario/page.tsx:105-110 | the last page holds `n mod size` elements, or a full page when that is 0 |
| Paging.PageZeroEmpty | src/app/historial/page.tsx:97-100 | page 0 shows nothing: its slice starts at a negative index |
| Paging.PageBeyondLastEmpty | src/app/historial/page.tsx:97-100 | a page past the last shows nothing |
| Paging.Prev | src/app/historial/page.tsx:278 | "Anterior" goes to page - 1 from any page above 1 and to page 1 from any other |
| Paging.Next | src/app/historial/page.tsx:288 | "Siguiente" goes to page + 1 from any page below the count and to the count itself from any other, even when the count is 0 |
| Paging.NavigationStaysInRange | src/app/historial/page.tsx:278-289 | from a page in 1..total both buttons stay in 1..total |
| Paging.DisabledIffNoMove | src/app/historial/page.tsx:278-289 | on a page in 1..total a button is greyed out exactly when pressing it would not move the page; an enabled one moves by one |
| Paging.NextCanLeaveRange | src/app/historial/page.tsx:288-289 | as written: with no results "Siguiente" is enabled on page 1 and moves to page 0, which shows nothing |
| Paging.NextClamped | src/app/historial/page.tsx:288 | corrected "Siguiente": page + 1 below the count (never under 1), else max(count, 1) |
| Paging.ClampedNavigationStaysInRange | src/app/historial/page.tsx:278-289 | with the corrected button, navigation never leaves 1..max(total, 1) |
| Historial.ClearFilters | src/app/historial/page.tsx:104-109 | "Limpiar filtros" empties the four filters and keeps the sort and the page |
| Historial.HandleSort | src/app/historial/page.tsx:111-118 | the current column flips direction; another column becomes current in ascending order; nothing else changes |
| Historial.Matches | src/app/historial/page.tsx:65-73 | the filter callback (no contract of its own; Historial.FilterKeepsExactlyMatches states it independently) |
| Historial.CompareEntries | src/app/historial/page.tsx:78-93 | the sort comparator (no contract of its own; Historial.SortOrdersByColumn and Historial.TiedIffSameColumn state what it orders) |
| Historial.Paginated | src/app/historial/page.tsx:97-100 | the rows on screen: at most ten, each a logged entry that passes all four filters |
| Historial.TotalPages | src/app/historial/page.tsx:102 | the page count is zero exactly when no entry matches |
| Historial.FilterKeepsExactlyMatches | src/app/historial/page.tsx:64-74 | an entry is kept iff the action contains the search, the type and date equal their filters when set, and the user contains the user filter, ignoring case |
| Historial.FilterKeepsOrder | src/app/historial/page.tsx:64-74 | the filtered list is an order-preserving subsequence of the entries |
| Historial.FilterIdempotent | src/app/historial/page.tsx:64-74 | filtering the filtered list again changes nothing |
| Historial.EmptyFiltersKeepAll | src/app/historial/page.tsx:64-74 | with all four filters empty every entry is kept |
| Historial.ClearFiltersShowsAll | src/app/historial/page.tsx:104-109 | after "Limpiar filtros" every entry passes the filter |
| Historial.PrecedesIsConsistent | src/app/historial/page.tsx:77-94 | the comparator is a total preorder for every column name and direction |
| Historial.SortOrdersByColumn | src/app/historial/page.tsx:77-94 | the sorted list is a permutation, ordered on the chosen column in the chosen direction; any other column name keeps the order |
| Historial.TiedIffSameColumn | src/app/historial/page.tsx:77-94 | two entries compare equal exactly when the sorted column holds the same value |
| Historial.SortIsStable | src/app/historial/page.tsx:77-94 | entries with equal values in the sorted column keep their relative order |
| Historial.PageIsWindow | src/app/historial/page.tsx:97-100 | page p shows the sorted entries `[(p-1)*10, min(p*10, n))`, at most ten |
| Historial.PagesCoverResults | src/app/historial/page.tsx:102 | the page count is `ceil(n / 10)` and its pages cover the results exactly once |
| Historial.StalePageIsEmpty | src/app/historial/page.tsx:97-102 | filters do not reset the page, so a page past the new count shows nothing |
| Historial.HandleSortTwiceRestores | src/app/historial/page.tsx:111-118 | sorting the current column twice restores the direction |
| Historial.NavigationClamps | src/app/historial/page.tsx:276-292 | the buttons keep a page in 1..total inside it; with no results "Siguiente" moves to page 0, which shows nothing |
| Historial.FirstScreen | src/app/historial/page.tsx:8-14 | the first screen (no filters, newest first, page 1) shows a log already in newest-first order as it is, the first ten on page 1, in `ceil(n / 10)` pages |
| Calendario.Type | src/app/calendario/page.tsx:172 | typing changes the search box and nothing else |
| Calendario.Settle | src/app/calendario/page.tsx:33 | when the debounce fires the applied query catches up with the box and nothing else changes |
| Calendario.PickDate | src/app/calendario/page.tsx:179 | picking a date sets the date filter and nothing else |
| Calendario.ClearSearch | src/app/calendario/page.tsx:148 | the search chip's button empties the box and nothing else |
| Calendario.ClearDate | src/app/calendario/page.tsx:159 | the date chip's button empties the date filter and nothing else |
| Calendario.ClearFilters | src/app/calendario/page.tsx:118-121 | "Limpiar filtros" empties the search and the date only; sort and page stay |
| Calendario.HandleSort | src/app/calendario/page.tsx:113-115 | the sort button only flips the direction |
| Calendario.Matches | src/app/calendario/page.tsx:87-91 | the filter callback (no contract of its own; Calendario.FilterKeepsExactlyMatches states it independently) |
| Calendario.CompareEvents | src/app/calendario/page.tsx:98-101 | the date comparator (no contract of its own; Calendario.ResultsOrderedByDate and Calendario.TiedIffSameDate state what it orders) |
| Calendario.Paginated | src/app/calendario/page.tsx:105-108 | the events on screen: at most five, each one of the events that passes the debounced search and the date filter |
| Calendario.TotalPages | src/app/calendario/page.tsx:110 | the page count is zero exactly when no event matches |
| Calendario.FilterKeepsExactlyMatches | src/app/calendario/page.tsx:85-93 | an event is kept iff its title or description contains the debounced query, ignoring case, and its date equals the date filter when set |
| Calendario.FilterKeepsOrder | src/app/calendario/page.tsx:85-93 | the filtered events are an order-preserving subsequence |
| Calendario.TypingWaitsForSettle | src/app/calendario/page.tsx:33 | typing alone does not change the list; once settled the typed text filters it |
| Calendario.SettleIdempotent | src/app/calendario/page.tsx:10-19 | settling twice is settling once |
| Calendario.EmptyFiltersKeepAll | src/app/calendario/page.tsx:85-93 | an empty query and an empty date keep every event |
| Calendario.ClearFiltersShowsAllOnceSettled | src/app/calendario/page.tsx:118-121 | after "Limpiar filtros" and the debounce every event is listed |
| Calendario.PrecedesIsConsistent | src/app/calendario/page.tsx:96-102 | the date comparator is a total preorder in both directions |
| Calendario.ResultsOrderedByDate | src/app/calendario/page.tsx:96-102 | the listed events are a permutation of the filtered ones, ordered by date in the chosen direction |
| Calendario.TiedIffSameDate | src/app/calendario/page.tsx:96-102 | two events compare equal exactly on the same date |
| Calendario.SortIsStable | src/app/calendario/page.tsx:96-102 | events on the same date keep their relative order |
| Calendario.HandleSortTwiceRestores | src/app/calendario/page.tsx:113-115 | pressing the sort button twice restores the direction |
| Calendario.PageIsWindow | src/app/calendario/page.tsx:105-108 | page p shows the sorted events `[(p-1)*5, min(p*5, n))`, at most five |
| Calendario.PagesCoverResults | src/app/calendario/page.tsx:110 | the page count is `ceil(n / 5)` and its pages cover the events exactly once |
| Calendario.StalePageIsEmpty | src/app/calendario/page.tsx:105-110 | filters do not reset the page, so a page past the new count shows nothing |
| Calendario.NavigationClamps | src/app/calendario/page.tsx:303-321 | the buttons keep a page in 1..total inside it; with no results "Siguiente" moves to page 0, which shows nothing |
| Calendario.FirstScreen | src/app/calendario/page.tsx:23-27 | on the first screen (no filters, ascending, page 1) a list already in date order is shown as it is, first five on page 1 |
| Calendario.NeighboursAscend | src/app/calendario/page.tsx:36-82 | each of the six events is dated no later than the next one written |
| Calendario.EventsAscend | src/app/calendario/page.tsx:36-82 | the six events are written in ascending date order |
| Calendario.SeededResults | src/app/calendario/page.tsx:23-27 | the first screen keeps the six events in the order written, in two pages |
| Calendario.SeededFirstPage | src/app/calendario/page.tsx:105-108 | page 1 of the first screen is the first five events as written |
| Calendario.SeededFirstScreen | src/app/calendario/page.tsx:23-110 | the first screen shows "Audiencia de inicio de juicio" through "Informe de gestión judicial" on page 1, of two pages |
| Requests.ItemReply | src/app/hooks/useInventarios.ts:28-34 | an ok reply with an item body yields that item; any other reply counts as a failure (see Left out) |
| Requests.AckReply | src/app/inventarios/page.tsx:85 | a DELETE reply succeeds exactly when the status is ok |
| Requests.ListReply | src/app/inventarios/page.tsx:25-28 | an ok reply with a list body yields that list; any other reply counts as a failure (see Left out) |
| Requests.RouteReplies | src/app/api/inventarios/route.ts:8-26 | against the route, POST, DELETE and GET succeed with the created item and the list; a PUT always fails |
| InventoryHook.HandleCreate | src/app/hooks/useInventarios.ts:37-52 | on success exactly the returned item is appended; on failure the list is unchanged; loading ends either way |
| InventoryHook.HandleEdit | src/app/hooks/useInventarios.ts:54-71 | on success length and order stay and items with the id become the returned item; on failure nothing changes; loading ends |
| InventoryHook.HandleDelete | src/app/hooks/useInventarios.ts:73-84 | on success no item has the id and every other item stays, as many times as it was there; on failure nothing changes; loading ends |
| InventoryHook.HandleDuplicate | src/app/hooks/useInventarios.ts:86-90 | a copy with the same name and stock and the new id is appended; the rest is untouched |
| InventoryHook.DeleteKeepsOrder | src/app/hooks/useInventarios.ts:77 | a successful delete keeps the other items in order |
| InventoryHook.StartsAsPartOfServer | src/app/hooks/useInventarios.ts:11 | the hook's empty starting list is an order-preserving part of any store |
| InventoryHook.CreateKeepsMirror | src/app/hooks/useInventarios.ts:37-52 | fed the route's reply, a create keeps the list an order-preserving part of the store |
| InventoryHook.DeleteKeepsMirror | src/app/hooks/useInventarios.ts:73-84 | fed the route's reply, a delete keeps the list an order-preserving part of the store |
| InventoryHook.RepliesKeepEqualLists | src/app/hooks/useInventarios.ts:37-84 | a list equal to the store stays equal through create and delete |
| InventoryHook.EditNeverApplies | src/app/hooks/useInventarios.ts:54-71 | against the route, which has no PUT handler, an edit changes neither the list nor the store |
| InventoryHook.DuplicateIsLocal | src/app/hooks/useInventarios.ts:86-90 | a duplicate with a new id exists on the client only |
| RecursosPage.FromServer | src/app/recursos/page.tsx:18-23 | a server item becomes a row with the same fields, not flagged as a duplicate |
| RecursosPage.SchemaAccepts | src/app/recursos/page.tsx:25-36 | the schema (no contract of its own): the trimmed name has at least three characters and the stock is at least 1; RecursosPage.CastKeepsVerdict and RecursosPage.SentValuesAreClean state what it guarantees |
| RecursosPage.Cast | src/app/recursos/page.tsx:26-28 | the schema hands on the name trimmed: a piece of what was typed with only white space cut from either side, and no white space left at either end |
| RecursosPage.Load | src/app/recursos/page.tsx:51-67 | an ok initial fetch replaces the rows with the server's items, in order, and changes nothing else; a failure changes nothing |
| RecursosPage.LoadMirrorsStore | src/app/recursos/page.tsx:51-67 | after the initial fetch against the route, the rows are the store's items in its order, none marked as a duplicate |
| RecursosPage.HandleCreate | src/app/recursos/page.tsx:70-96 | on success the returned item is appended and the form is reset; on failure only loading ends |
| RecursosPage.Submit | src/app/recursos/page.tsx:25-46 | a request is sent exactly when the schema accepts; it carries the trimmed name; otherwise nothing changes |
| RecursosPage.HandleDelete | src/app/recursos/page.tsx:99-130 | a duplicate (by the first row with the id) is dropped locally with no request; otherwise a DELETE is sent and rows go only on success; whenever rows go, exactly those with the id go and every other row stays as many times as it was there |
| RecursosPage.DeleteKeepsOrder | src/app/recursos/page.tsx:105 | whichever way rows go, the rows that stay keep their order |
| RecursosPage.HandleEdit | src/app/recursos/page.tsx:133-162 | a PUT is sent; success replaces rows with the id and closes the edit; failure leaves list and edit as they were |
| RecursosPage.HandleDuplicate | src/app/recursos/page.tsx:165-169 | a copy flagged as a duplicate, with the new id and the same name and stock, is appended; nothing else changes |
| RecursosPage.CastKeepsVerdict | src/app/recursos/page.tsx:25-36 | the schema gives the same verdict on the cast values, and casting twice is casting once |
| RecursosPage.SentValuesAreClean | src/app/recursos/page.tsx:25-36 | whatever the form posts has a name of three or more characters without surrounding white space and a stock of at least 1 |
| RecursosPage.CastIsClean | src/app/recursos/page.tsx:26-29 | a name the schema accepts is handed on trimmed, three characters or more, with no white space at either end |
| RecursosPage.CreatedRowIsClean | src/app/recursos/page.tsx:70-96 | a row created against the route holds the trimmed name and the stock, both passing the schema, and the form is reset |
| RecursosPage.DuplicateThenDeleteRestores | src/app/recursos/page.tsx:101-107 | deleting a fresh duplicate restores the list and sends nothing |
| RecursosPage.ServerRowWaitsForReply | src/app/recursos/page.tsx:101-127 | when the first row with the id is not a duplicate, a DELETE is sent and a failed reply leaves the rows as they were |
| RecursosPage.EditNeverApplies | src/app/recursos/page.tsx:133-162 | against the route the edit fails, so the list and the open edit stay |
| InventariosPage.Load | src/app/inventarios/page.tsx:22-38 | an ok initial fetch replaces the list with the server's and changes nothing else; a failure changes nothing |
| InventariosPage.FormIsValid | src/app/inventarios/page.tsx:42-47 | the guard (no contract of its own): a non-empty name and a positive stock; InventariosPage.HandleCreate and InventariosPage.GuardLooserThanSchema state its effect |
| InventariosPage.HandleCreate | src/app/inventarios/page.tsx:41-73 | an empty name or non-positive stock sends nothing and changes nothing; success appends and empties the form; failure keeps list and form; loading ends |
| InventariosPage.HandleDelete | src/app/inventarios/page.tsx:76-99 | a DELETE is sent; success drops exactly the items with the id and keeps every other item as many times as it was there; failure keeps the list; loading ends |
| InventariosPage.DeleteKeepsOrder | src/app/inventarios/page.tsx:87 | a successful delete keeps the other items in their order |
| InventariosPage.LoadMirrorsStore | src/app/inventarios/page.tsx:22-38 | after the initial fetch the list is the store |
| InventariosPage.CreateKeepsMirror | src/app/inventarios/page.tsx:41-73 | a list equal to the store stays equal through a create |
| InventariosPage.DeleteKeepsMirror | src/app/inventarios/page.tsx:76-99 | a list equal to the store stays equal through a delete |
| InventariosPage.GuardLooserThanSchema | src/app/inventarios/page.tsx:42 | the guard admits everything the resources schema admits, and also a name of white space alone |
| EditModal.OnRecordChange | src/components/EditModal.tsx:16-23 | a new record loads its three fields and clears the error; no record leaves the dialog alone |
| EditModal.Type | src/components/EditModal.tsx:57-84 | typing changes the one field and keeps the error |
| EditModal.HandleSave | src/components/EditModal.tsx:25-32 | a blank field after trimming sets the error and saves nothing; otherwise the error clears and the record goes out with its id and the three typed fields |
| EditModal.SaveDisabled | src/components/EditModal.tsx:94 | the disabled condition (no contract of its own; EditModal.DisabledIffRejected relates it to the save) |
| EditModal.Renders | src/components/EditModal.tsx:34 | the render guard (no contract of its own; EditModal.PressSave and EditModal.NoSaveWithoutRecord state its effect) |
| EditModal.PressSave | src/components/EditModal.tsx:34-100 | a press of "Guardar" reaches `handleSave` only while the dialog is drawn and the button is not greyed out; then the record always goes out and the error clears; any other press changes nothing and saves nothing |
| EditModal.NoSaveWithoutRecord | src/components/EditModal.tsx:25-34 | no record goes out unless the dialog is open with a record, and what goes out is that record with its id and the three typed fields |
| EditModal.Apply | src/components/EditModal.tsx:16-100 | no event (loading, typing, pressing) puts a message on screen: the error line stays as it was or is cleared |
| EditModal.ErrorStaysClear | src/components/EditModal.tsx:16-32 | from a clear error line the error line stays clear through any run of events |
| EditModal.RequiredMessageNeverShown | src/components/EditModal.tsx:27 | from the dialog as first mounted, "Todos los campos son obligatorios" is never on screen, whatever the user does |
| EditModal.DisabledIffRejected | src/components/EditModal.tsx:92-97 | the save button is greyed out exactly when `handleSave` would refuse |
| EditModal.RejectedMeansBlankField | src/components/EditModal.tsx:26-29 | a refused save means some field is nothing but white space |
| EditModal.LoadThenSaveRoundTrip | src/components/EditModal.tsx:16-32 | opening a record with no blank field and saving it untouched hands back the same record |
| EditModal.SaveIsRepeatable | src/components/EditModal.tsx:25-32 | `handleSave` leaves the typed fields as they are, so calling it again gives the same answer |
| EditModal.ErrorClearedOnlyByLoadOrSave | src/components/EditModal.tsx:16-32 | the error line is cleared when a record is loaded or a save goes out, and otherwise stays exactly as it was: typing, a press on the greyed-out button or a press without the dialog drawn leave it |

## Left out

- Network I/O, JSON parsing, request headers, toasts and console logging.
  Each request is reduced to the reply the page sees. Failures of every
  kind are one `Fail`.
- The loading flag while a request is in flight. Only its final value
  (down) is modelled.
- React scheduling, `useMemo`, `useTransition` and the 300 ms debounce
  timer. The debounce is modelled as an explicit `Settle` step.
- `Date.now()` for duplicate ids. It is the parameter `newId`.
- The mock data of the history page.
- Text.Compare: plain code-point order, not `localeCompare`'s locale
  collation. The lemmas rely only on it being a total order that is zero
  exactly on equal strings. On the ISO dates the pages sort, the two
  orders agree.
- Text.LowerChar: lower-cases ASCII and Latin-1 capitals only, not all of
  Unicode.
- Text.IsSpace and Text.Trim: characters are code points, while
  JavaScript strings are UTF-16 code units. Lengths, such as the schema's
  three-character minimum, count code points here.
- `parseInt` and `Number` returning NaN for a stock input. Stock is an
  integer.
- Extra runtime fields that an object spread would copy. Records have
  exactly their declared fields.
- EditModal.HandleSave: it takes the record on screen. Spreading a null
  record is left out, because the dialog is not drawn without one;
  EditModal.PressSave reaches it only while the dialog is drawn. Its
  refusal branch is modelled as written, but no press reaches it: the
  button is greyed out in exactly the cases it refuses
  (EditModal.DisabledIffRejected), so its message (EditModal.tsx:27) never
  shows (EditModal.RequiredMessageNeverShown).
- Requests.ItemReply: an ok reply whose body is not an item counts as a
  failure here, while the hook passes on whatever JSON it parsed. The route
  never sends such a reply (Requests.RouteReplies).
- Requests.ListReply: an ok reply whose body is not a list counts as a
  failure here, while the pages pass on whatever JSON they parsed. The
  route never sends such a reply (Requests.RouteReplies).
- Error-message texts of the resources schema. Only its accept/reject
  verdict is modelled.
- The order of toasts and state updates within one handler.
- The export and document utilities, the profile page and route, the
  dashboard, the layout, the chart, and the presentation-only components.
  They contain no list or validation logic.

## Findings

| source | as written | input that shows it | evidently intended | confidence | as-written member | corrected member |
|---|---|---|---|---|---|---|
| src/app/api/expedientes/route.ts:16 | a new record gets id `length + 1` | from the initial store, DELETE id 1 then POST: the store holds two records with id 2 | an id no record holds, such as the largest id plus one | high (not executed) | ExpedientesApi.PostAfterDeleteDuplicatesId | ExpedientesApi.RunFreshKeepsUnique |
| src/app/api/inventarios/route.ts:16 | a new item gets id `length + 1` | from the initial store, DELETE id 1 then POST: two items with id 2 | an id no item holds | high (not executed) | InventariosApi.PostAfterDeleteDuplicatesId | InventariosApi.FreshPostAndDeleteKeepUnique |
| src/app/historial/page.tsx:288 | "Siguiente" sets `min(page + 1, totalPages)` and is disabled only when `page === totalPages` | no matching entries: totalPages is 0, page 1 is not 0, and the button moves to page 0, which shows nothing even after the filter is cleared | the page stays at 1 or above | medium (not executed) | Paging.NextCanLeaveRange | Paging.ClampedNavigationStaysInRange |

The calendar's "Siguiente" (src/app/calendario/page.tsx:316) has the same
shape, and the same two members cover it. The page models keep the code
as written. The corrected definitions (`PostFresh`, `HandleFresh`,
`NextClamped`) sit beside them with their properties proved.
