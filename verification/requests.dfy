/**
 What a page learns from a `fetch` call to `/api/inventarios`: either the
 response was ok and its body is handed on, or the call failed (a network
 error or a status outside 200..299), which every handler treats alike.
 The pages pass on whatever JSON an ok response carries; here an ok reply
 whose body is not of the kind the request expects also counts as a
 failure. The route never sends such a reply (`RouteReplies`).
 */
module Requests {
  import InventariosApi

  datatype Outcome<+T> = Ok(value: T) | Fail

  /** The response body of a DELETE, which the pages never read. */
  datatype Ack = Ack

  /** `response.ok`. */
  predicate IsOk(status: int) {
    200 <= status <= 299
  }

  /** A reply expected to carry one item (POST, and PUT on the client side):
      ok with an item body yields the item; anything else is a failure. */
  function ItemReply(resp: InventariosApi.Response): (r: Outcome<InventariosApi.Item>)
    ensures r.Ok? <==> IsOk(resp.status) && resp.body.Created?
    ensures r.Ok? ==> r.value == resp.body.item
  {
    if IsOk(resp.status) && resp.body.Created? then Ok(resp.body.item) else Fail
  }

  /** A reply whose body is only checked for the status (DELETE). */
  function AckReply(resp: InventariosApi.Response): (r: Outcome<Ack>)
    ensures r.Ok? <==> IsOk(resp.status)
  {
    if IsOk(resp.status) then Ok(Ack) else Fail
  }

  /** A reply expected to carry the whole list (the initial GET): ok with a
      list body yields the list; anything else is a failure. */
  function ListReply(resp: InventariosApi.Response): (r: Outcome<seq<InventariosApi.Item>>)
    ensures r.Ok? <==> IsOk(resp.status) && resp.body.List?
    ensures r.Ok? ==> r.value == resp.body.items
  {
    if IsOk(resp.status) && resp.body.List? then Ok(resp.body.items) else Fail
  }

  /** Against the route as written, POST, DELETE and GET always succeed, with
      the created item and the whole list as their bodies, and a PUT always
      fails because the route has no handler for it. */
  lemma RouteReplies(s: InventariosApi.Store, recurso: string, stock: int, id: int)
    ensures ItemReply(InventariosApi.Handle(s, InventariosApi.Create(recurso, stock)).response)
         == Ok(InventariosApi.Item(|s| + 1, recurso, stock))
    ensures AckReply(InventariosApi.Handle(s, InventariosApi.Remove(id)).response) == Ok(Ack)
    ensures ListReply(InventariosApi.Handle(s, InventariosApi.GetAll).response) == Ok(s)
    ensures ItemReply(InventariosApi.Handle(s, InventariosApi.Update(id, recurso, stock)).response) == Fail
  {
  }
}
