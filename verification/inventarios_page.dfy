/**
 The inventory page: a two-field form with its own guard, a list loaded
 from the server and updated from the replies to POST and DELETE.
 */
module InventariosPage {
  import opened Text
  import opened Seqs
  import opened Requests
  import InventariosApi
  import RecursosPage

  type Item = InventariosApi.Item

  /** The form, `nuevoRecurso`. */
  datatype Form = Form(recurso: string, stock: int)

  const EmptyForm: Form := Form("", 0)

  datatype State = State(items: seq<Item>, form: Form, isLoading: bool)

  const Initial: State := State([], EmptyForm, false)

  datatype Effect = Effect(state: State, sent: Option<InventariosApi.Request>)

  /** The guard in front of the POST: a non-empty name and a positive stock.
      The name is not trimmed, so white space alone passes. */
  predicate FormIsValid(f: Form) {
    f.recurso != "" && f.stock > 0
  }

  /** The initial fetch: an ok reply replaces the list with the server's. */
  function Load(st: State, reply: Outcome<seq<Item>>): (r: State)
    ensures reply.Ok? ==> r.items == reply.value && r.form == st.form && r.isLoading == st.isLoading
    ensures reply.Fail? ==> r == st
  {
    match reply
    case Ok(list) => st.(items := list)
    case Fail => st
  }

  /** `handleCreate`: an invalid form sends nothing and changes nothing;
      otherwise the form is posted as typed, an ok reply appends the returned
      item and empties the form, and a failure keeps both list and form. */
  function HandleCreate(st: State, reply: Outcome<Item>): (r: Effect)
    ensures r.sent.Some? <==> FormIsValid(st.form)
    ensures r.sent.None? ==> r.state == st
    ensures r.sent.Some? ==>
      (r.sent.value == InventariosApi.Create(st.form.recurso, st.form.stock) && !r.state.isLoading)
    ensures r.sent.Some? && reply.Ok? ==>
      (r.state.items == st.items + [reply.value] && r.state.form == EmptyForm)
    ensures r.sent.Some? && reply.Fail? ==> r.state == st.(isLoading := false)
  {
    if !FormIsValid(st.form) then Effect(st, None)
    else
      var next := match reply
        case Ok(item) => State(st.items + [item], EmptyForm, false)
        case Fail => st.(isLoading := false);
      Effect(next, Some(InventariosApi.Create(st.form.recurso, st.form.stock)))
  }

  /** `handleDelete`: a DELETE is sent; an ok reply drops every item with the
      id, a failure keeps the list. */
  function HandleDelete(st: State, id: int, reply: Outcome<Ack>): (r: Effect)
    ensures r.sent == Some(InventariosApi.Remove(id))
    ensures !r.state.isLoading && r.state.form == st.form
    ensures reply.Ok? ==> forall i :: 0 <= i < |r.state.items| ==> r.state.items[i].id != id
    ensures reply.Ok? ==>
      forall i :: 0 <= i < |st.items| && st.items[i].id != id ==> st.items[i] in r.state.items
    ensures reply.Ok? ==>
      forall x :: multiset(r.state.items)[x] == if x.id != id then multiset(st.items)[x] else 0
    ensures reply.Fail? ==> r.state.items == st.items
  {
    FilterCounts(st.items, InventariosApi.KeepsId(id));
    var next := match reply
      case Ok(_) => State(Filter(st.items, InventariosApi.KeepsId(id)), st.form, false)
      case Fail => st.(isLoading := false);
    Effect(next, Some(InventariosApi.Remove(id)))
  }

  /** After the initial fetch succeeds, the list is the store; every create
      and delete then fed with the route's reply keeps it equal to the store. */
  lemma LoadMirrorsStore(st: State, s: InventariosApi.Store)
    ensures Load(st, ListReply(InventariosApi.Get(s).response)).items == s
  {
  }

  lemma CreateKeepsMirror(st: State, s: InventariosApi.Store)
    requires st.items == s
    ensures var r := HandleCreate(st, ItemReply(InventariosApi.Post(s, st.form.recurso, st.form.stock).response));
      r.sent.Some? ==> r.state.items == InventariosApi.Handle(s, r.sent.value).store
    ensures var r := HandleCreate(st, ItemReply(InventariosApi.Post(s, st.form.recurso, st.form.stock).response));
      r.sent.None? ==> r.state.items == s
  {
  }

  lemma DeleteKeepsMirror(st: State, s: InventariosApi.Store, id: int)
    requires st.items == s
    ensures var r := HandleDelete(st, id, AckReply(InventariosApi.Delete(s, id).response));
      r.state.items == InventariosApi.Handle(s, r.sent.value).store
  {
  }

  /** A successful delete keeps the other items in their order. */
  lemma DeleteKeepsOrder(st: State, id: int)
    ensures IsSubseq(HandleDelete(st, id, Ok(Ack)).state.items, st.items)
  {
    FilterIsSubseq(st.items, InventariosApi.KeepsId(id));
  }

  /** The guard here is looser than the resources page's schema: whatever the
      schema accepts passes, but a name of white space alone passes here too. */
  lemma GuardLooserThanSchema(f: Form)
    ensures RecursosPage.SchemaAccepts(RecursosPage.FormValues(f.recurso, f.stock)) ==> FormIsValid(f)
    ensures FormIsValid(Form(" ", 1)) && !RecursosPage.SchemaAccepts(RecursosPage.FormValues(" ", 1))
  {
    if f.recurso == "" {
      assert Trim(f.recurso) == "";
    }
    assert Trim(" ") == "" by {
      assert IsSpace(' ');
      assert TrimStart(" ") == TrimStart(" "[1..]);
      assert " "[1..] == "";
    }
  }
}
