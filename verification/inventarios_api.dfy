/**
 The `/api/inventarios` route: a module-level array of stock items with a
 GET, a POST and a DELETE handler, and no PUT handler at all.
 */
module InventariosApi {
  import opened Seqs
  import opened Keys

  datatype Item = Item(id: int, recurso: string, stock: int)

  type Store = seq<Item>

  datatype Body = List(items: Store) | Created(item: Item) | Message(text: string) | NoHandler

  datatype Response = Response(status: int, body: Body)

  datatype Step = Step(store: Store, response: Response)

  /** The parsed request. `Update` is what a PUT carries; the route exports
      no handler for it. */
  datatype Request =
    | GetAll
    | Create(recurso: string, stock: int)
    | Update(id: int, recurso: string, stock: int)
    | Remove(id: int)

  function Id(i: Item): int { i.id }

  /** `item.id !== id`, the test `filter` applies. */
  function KeepsId(id: int): Item -> bool {
    (i: Item) => i.id != id
  }

  /** The two items the process starts with. */
  const Seed: Store := [Item(1, "Papel", 100), Item(2, "Toner", 10)]

  const DeletedMessage: string := "Recurso eliminado"

  /** The status the framework answers for a method the route does not export. */
  const MethodNotAllowed: int := 405

  /** GET: the whole store, as it is. */
  function Get(s: Store): (r: Step)
    ensures r.store == s
    ensures r.response.status == 200 && r.response.body.List? && r.response.body.items == s
  {
    Step(s, Response(200, List(s)))
  }

  /** POST: an item numbered `length + 1` is pushed at the end and echoed with
      201. Neither field is checked: any name and any stock are stored. */
  function Post(s: Store, recurso: string, stock: int): (r: Step)
    ensures |r.store| == |s| + 1 && r.store[..|s|] == s
    ensures r.store[|s|] == Item(|s| + 1, recurso, stock)
    ensures r.response == Response(201, Created(r.store[|s|]))
  {
    var i := Item(|s| + 1, recurso, stock);
    Step(s + [i], Response(201, Created(i)))
  }

  /** DELETE: the items with the id are filtered out; the answer is the same
      message whether or not one matched. */
  function Delete(s: Store, id: int): (r: Step)
    ensures |r.store| <= |s|
    ensures forall i :: 0 <= i < |r.store| ==> r.store[i].id != id && r.store[i] in s
    ensures forall i :: 0 <= i < |s| && s[i].id != id ==> s[i] in r.store
    ensures forall x :: multiset(r.store)[x] == if x.id != id then multiset(s)[x] else 0
    ensures r.response == Response(200, Message(DeletedMessage))
  {
    FilterCounts(s, KeepsId(id));
    Step(Filter(s, KeepsId(id)), Response(200, Message(DeletedMessage)))
  }

  /** The route: GET, POST and DELETE go to their handlers; a PUT finds none. */
  function Handle(s: Store, req: Request): (r: Step)
    ensures req.GetAll? ==> r.store == s && r.response.status == 200
    ensures req.Create? ==> |r.store| == |s| + 1 && r.response.status == 201
    ensures req.Update? ==> r == Step(s, Response(MethodNotAllowed, NoHandler))
    ensures req.Remove? ==> |r.store| <= |s| && r.response.status == 200
  {
    match req
    case GetAll => Get(s)
    case Create(recurso, stock) => Post(s, recurso, stock)
    case Update(_, _, _) => Step(s, Response(MethodNotAllowed, NoHandler))
    case Remove(id) => Delete(s, id)
  }

  /** The process starts with items 1 and 2. */
  lemma SeedShape()
    ensures |Seed| == 2 && Seed[0].id == 1 && Seed[1].id == 2
    ensures KeysAreIndices(Seed, Id)
  {
  }

  /** Only POST and DELETE can change the store; a PUT is refused and changes nothing. */
  lemma OnlyPostAndDeleteWrite(s: Store, req: Request)
    ensures Handle(s, req).store != s ==> req.Create? || req.Remove?
    ensures req.Update? ==>
      (Handle(s, req).store == s && Handle(s, req).response.status == MethodNotAllowed)
  {
  }

  /** DELETE keeps the other items in their relative order. */
  lemma DeleteKeepsOrder(s: Store, id: int)
    ensures IsSubseq(Delete(s, id).store, s)
  {
    FilterIsSubseq(s, KeepsId(id));
  }

  /** DELETE of an id no item has changes nothing, yet still reports success. */
  lemma DeleteAbsentIsNoop(s: Store, id: int)
    requires KeyAbsent(s, Id, id)
    ensures Delete(s, id).store == s
    ensures Delete(s, id).response.status == 200
  {
    FilterKeepsAll(s, KeepsId(id));
  }

  /** A second DELETE of the same id changes nothing. */
  lemma DeleteTwiceIsOnce(s: Store, id: int)
    ensures Delete(Delete(s, id).store, id).store == Delete(s, id).store
  {
    FilterIdempotent(s, KeepsId(id));
  }

  /** As written, DELETE of item 1 followed by a POST gives the new item id 2,
      which item 2 already has. */
  lemma PostAfterDeleteDuplicatesId(recurso: string, stock: int)
    ensures var t := Post(Delete(Seed, 1).store, recurso, stock).store;
      |t| == 2 && t[0].id == 2 && t[1].id == 2 && !UniqueKeys(t, Id)
  {
    assert Delete(Seed, 1).store == [Seed[1]];
  }

  /** POST with an id one above the largest present, so it is always fresh. */
  function PostFresh(s: Store, recurso: string, stock: int): (r: Step)
    ensures |r.store| == |s| + 1 && r.store[..|s|] == s
    ensures KeyAbsent(s, Id, r.store[|s|].id)
    ensures r.store[|s|].recurso == recurso && r.store[|s|].stock == stock
    ensures r.response == Response(201, Created(r.store[|s|]))
  {
    var i := Item(MaxKey(s, Id) + 1, recurso, stock);
    Step(s + [i], Response(201, Created(i)))
  }

  /** The fresh-id POST and DELETE both keep ids unique. */
  lemma FreshPostAndDeleteKeepUnique(s: Store, recurso: string, stock: int, id: int)
    requires UniqueKeys(s, Id)
    ensures UniqueKeys(PostFresh(s, recurso, stock).store, Id)
    ensures UniqueKeys(Delete(s, id).store, Id)
  {
    FilterKeepsUniqueKeys(s, Id, KeepsId(id));
  }
}
