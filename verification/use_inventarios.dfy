/**
 The `useInventarios` hook: a client-side copy of the inventory list that
 is updated only from the server's replies, plus a local-only duplicate.
 Each handler takes the reply the request produced; a failed request
 leaves the list as it was, and every request ends with the loading flag
 down.
 */
module InventoryHook {
  import opened Seqs
  import opened Keys
  import opened Requests
  import InventariosApi

  type Item = InventariosApi.Item

  datatype State = State(items: seq<Item>, isLoading: bool)

  /** The hook starts with an empty list and never fetches one. */
  const Initial: State := State([], false)

  /** `item.id === id`, the test the edit's `map` applies. */
  function HasId(id: int): Item -> bool {
    (i: Item) => i.id == id
  }

  /** `handleCreate`: the item the server sent back is appended. */
  function HandleCreate(st: State, reply: Outcome<Item>): (r: State)
    ensures !r.isLoading
    ensures |r.items| >= |st.items| && r.items[..|st.items|] == st.items
    ensures reply.Ok? ==> |r.items| == |st.items| + 1 && r.items[|st.items|] == reply.value
    ensures reply.Fail? ==> r.items == st.items
  {
    match reply
    case Ok(item) => State(st.items + [item], false)
    case Fail => State(st.items, false)
  }

  /** `handleEdit`: every item with the id is replaced by the item the server
      sent back. */
  function HandleEdit(st: State, id: int, reply: Outcome<Item>): (r: State)
    ensures !r.isLoading
    ensures |r.items| == |st.items|
    ensures forall i :: 0 <= i < |st.items| && st.items[i].id != id ==> r.items[i] == st.items[i]
    ensures reply.Ok? ==>
      forall i :: 0 <= i < |st.items| && st.items[i].id == id ==> r.items[i] == reply.value
    ensures reply.Fail? ==> r.items == st.items
  {
    match reply
    case Ok(updated) => State(ReplaceWhere(st.items, HasId(id), updated), false)
    case Fail => State(st.items, false)
  }

  /** `handleDelete`: on success every item with the id is dropped. */
  function HandleDelete(st: State, id: int, reply: Outcome<Ack>): (r: State)
    ensures !r.isLoading
    ensures reply.Ok? ==> forall i :: 0 <= i < |r.items| ==> r.items[i].id != id
    ensures reply.Ok? ==> forall i :: 0 <= i < |st.items| && st.items[i].id != id ==> st.items[i] in r.items
    ensures reply.Ok? ==> forall x :: multiset(r.items)[x] == if x.id != id then multiset(st.items)[x] else 0
    ensures reply.Fail? ==> r.items == st.items
  {
    FilterCounts(st.items, InventariosApi.KeepsId(id));
    match reply
    case Ok(_) => State(Filter(st.items, InventariosApi.KeepsId(id)), false)
    case Fail => State(st.items, false)
  }

  /** `handleDuplicate`: a copy with a new id (`Date.now()`, here `newId`) is
      appended on the client only. */
  function HandleDuplicate(st: State, item: Item, newId: int): (r: State)
    ensures r.isLoading == st.isLoading
    ensures |r.items| == |st.items| + 1 && r.items[..|st.items|] == st.items
    ensures r.items[|st.items|].id == newId
    ensures r.items[|st.items|].recurso == item.recurso && r.items[|st.items|].stock == item.stock
  {
    st.(items := st.items + [item.(id := newId)])
  }

  /** A successful delete keeps the other items in their order. */
  lemma DeleteKeepsOrder(st: State, id: int)
    ensures IsSubseq(HandleDelete(st, id, Ok(Ack)).items, st.items)
  {
    FilterIsSubseq(st.items, InventariosApi.KeepsId(id));
  }

  /** The hook's list is the server's list with some items missing: it
      starts empty, which is part of any store, ... */
  lemma StartsAsPartOfServer(s: InventariosApi.Store)
    ensures IsSubseq(Initial.items, s)
  {
  }

  /** ... a create fed with the route's own reply keeps it so, ... */
  lemma CreateKeepsMirror(st: State, s: InventariosApi.Store, recurso: string, stock: int)
    requires IsSubseq(st.items, s)
    ensures var step := InventariosApi.Handle(s, InventariosApi.Create(recurso, stock));
      IsSubseq(HandleCreate(st, ItemReply(step.response)).items, step.store)
  {
    var step := InventariosApi.Handle(s, InventariosApi.Create(recurso, stock));
    SubseqAppend(st.items, s, step.store[|s|]);
    assert step.store == s + [step.store[|s|]];
  }

  /** ... and so does a delete. */
  lemma DeleteKeepsMirror(st: State, s: InventariosApi.Store, id: int)
    requires IsSubseq(st.items, s)
    ensures var step := InventariosApi.Handle(s, InventariosApi.Remove(id));
      IsSubseq(HandleDelete(st, id, AckReply(step.response)).items, step.store)
  {
    FilterKeepsSubseq(st.items, s, InventariosApi.KeepsId(id));
  }

  /** With a list equal to the store, the route's replies keep it equal. */
  lemma RepliesKeepEqualLists(st: State, s: InventariosApi.Store, recurso: string, stock: int, id: int)
    requires st.items == s
    ensures var step := InventariosApi.Handle(s, InventariosApi.Create(recurso, stock));
      HandleCreate(st, ItemReply(step.response)).items == step.store
    ensures var step := InventariosApi.Handle(s, InventariosApi.Remove(id));
      HandleDelete(st, id, AckReply(step.response)).items == step.store
  {
  }

  /** The route has no PUT handler, so an edit never takes effect: the list
      is left as it was, and so is the store. */
  lemma EditNeverApplies(st: State, s: InventariosApi.Store, id: int, recurso: string, stock: int)
    ensures var step := InventariosApi.Handle(s, InventariosApi.Update(id, recurso, stock));
      && step.store == s
      && HandleEdit(st, id, ItemReply(step.response)) == st.(isLoading := false)
  {
  }

  /** A duplicate whose new id the store does not hold exists on the client
      only. */
  lemma DuplicateIsLocal(st: State, item: Item, newId: int, s: InventariosApi.Store)
    requires KeyAbsent(s, InventariosApi.Id, newId)
    ensures HandleDuplicate(st, item, newId).items[|st.items|] !in s
  {
  }
}
