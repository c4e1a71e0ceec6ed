/**
 The resources page: a form checked by a schema before anything is sent,
 a client-side list updated from the server's replies, an edit that clears
 the row being edited, and duplicates that live on the client only and are
 deleted without asking the server.
 */
module RecursosPage {
  import opened Text
  import opened Seqs
  import opened Requests
  import InventariosApi

  /** A row of the page. Items that come from the server carry no
      `duplicado` field, which reads as `false`. */
  datatype Recurso = Recurso(id: int, recurso: string, stock: int, duplicado: bool)

  /** The form's two fields. */
  datatype FormValues = FormValues(recurso: string, stock: int)

  const DefaultForm: FormValues := FormValues("", 0)

  datatype State = State(
    items: seq<Recurso>,
    isLoading: bool,
    editing: Option<Recurso>,
    form: FormValues)

  const Initial: State := State([], false, None, DefaultForm)

  /** What a handler did: the next state and the request it sent, if any. */
  datatype Effect = Effect(state: State, sent: Option<InventariosApi.Request>)

  function FromServer(i: InventariosApi.Item): (r: Recurso)
    ensures r.id == i.id && r.recurso == i.recurso && r.stock == i.stock && !r.duplicado
  {
    Recurso(i.id, i.recurso, i.stock, false)
  }

  function HasId(id: int): Recurso -> bool {
    (x: Recurso) => x.id == id
  }

  function KeepsId(id: int): Recurso -> bool {
    (x: Recurso) => x.id != id
  }

  /** The schema: the name, once trimmed, has at least three characters, and
      the stock is at least 1. */
  predicate SchemaAccepts(f: FormValues) {
    |Trim(f.recurso)| >= 3 && f.stock >= 1
  }

  /** The values the schema hands to the submit handler: the name trimmed. */
  function Cast(f: FormValues): (r: FormValues)
    ensures r.stock == f.stock
    ensures exists a :: CoreAt(f.recurso, r.recurso, a)
    ensures |r.recurso| > 0 ==> !IsSpace(r.recurso[0]) && !IsSpace(r.recurso[|r.recurso| - 1])
  {
    TrimIsCore(f.recurso);
    FormValues(Trim(f.recurso), f.stock)
  }

  /** The initial fetch: an ok reply replaces the list with the server's. */
  function Load(st: State, reply: Outcome<seq<InventariosApi.Item>>): (r: State)
    ensures reply.Ok? ==>
      (|r.items| == |reply.value| && forall i :: 0 <= i < |r.items| ==> r.items[i] == FromServer(reply.value[i]))
    ensures reply.Ok? ==> r.isLoading == st.isLoading && r.editing == st.editing && r.form == st.form
    ensures reply.Fail? ==> r == st
  {
    match reply
    case Ok(list) => st.(items := seq(|list|, i requires 0 <= i < |list| => FromServer(list[i])))
    case Fail => st
  }

  /** `handleCreate`, reached only through the schema: an ok reply appends the
      returned item and resets the form; a failure changes nothing but the
      loading flag. */
  function HandleCreate(st: State, reply: Outcome<InventariosApi.Item>): (r: State)
    ensures !r.isLoading && r.editing == st.editing
    ensures |r.items| >= |st.items| && r.items[..|st.items|] == st.items
    ensures reply.Ok? ==>
      (|r.items| == |st.items| + 1 && r.items[|st.items|] == FromServer(reply.value) && r.form == DefaultForm)
    ensures reply.Fail? ==> r == st.(isLoading := false)
  {
    match reply
    case Ok(item) => st.(items := st.items + [FromServer(item)], form := DefaultForm, isLoading := false)
    case Fail => st.(isLoading := false)
  }

  /** After the initial fetch against the route, the rows are the store's
      items, in its order, none of them marked as a duplicate. */
  lemma LoadMirrorsStore(st: State, s: InventariosApi.Store)
    ensures var r := Load(st, ListReply(InventariosApi.Handle(s, InventariosApi.GetAll).response));
      && |r.items| == |s|
      && forall i :: 0 <= i < |s| ==>
           r.items[i].id == s[i].id && r.items[i].recurso == s[i].recurso
           && r.items[i].stock == s[i].stock && !r.items[i].duplicado
  {
  }

  /** Submitting the form: a form the schema refuses sends nothing and
      changes nothing; otherwise the trimmed values are posted. */
  function Submit(st: State, reply: Outcome<InventariosApi.Item>): (r: Effect)
    ensures r.sent.Some? <==> SchemaAccepts(st.form)
    ensures r.sent.None? ==> r.state == st
    ensures r.sent.Some? ==>
      r.sent.value == InventariosApi.Create(Cast(st.form).recurso, st.form.stock)
      && r.state == HandleCreate(st, reply)
  {
    if SchemaAccepts(st.form) then
      var values := Cast(st.form);
      Effect(HandleCreate(st, reply), Some(InventariosApi.Create(values.recurso, values.stock)))
    else Effect(st, None)
  }

  /** `handleDelete`: when the first row with the id is a duplicate, every
      row with the id is dropped at once and no request is sent; otherwise a
      DELETE is sent and the rows go only on an ok reply. */
  function HandleDelete(st: State, id: int, reply: Outcome<Ack>): (r: Effect)
    ensures var found := Find(st.items, HasId(id));
      found.Some? && found.value.duplicado ==>
        r.sent.None? && r.state == st.(items := Filter(st.items, KeepsId(id)))
    ensures var found := Find(st.items, HasId(id));
      !(found.Some? && found.value.duplicado) ==> r.sent == Some(InventariosApi.Remove(id))
    ensures r.sent.None? || r.sent == Some(InventariosApi.Remove(id))
    ensures r.sent.Some? ==> !r.state.isLoading
    ensures r.sent.Some? && reply.Fail? ==> r.state.items == st.items
    ensures reply.Ok? || r.sent.None? ==> forall i :: 0 <= i < |r.state.items| ==> r.state.items[i].id != id
    ensures reply.Ok? || r.sent.None? ==>
      forall x :: multiset(r.state.items)[x] == if x.id != id then multiset(st.items)[x] else 0
    ensures r.sent.None? ==> r.state.isLoading == st.isLoading
    ensures r.state.editing == st.editing && r.state.form == st.form
  {
    FilterCounts(st.items, KeepsId(id));
    var found := Find(st.items, HasId(id));
    if found.Some? && found.value.duplicado then
      Effect(st.(items := Filter(st.items, KeepsId(id))), None)
    else
      var next := match reply
        case Ok(_) => st.(items := Filter(st.items, KeepsId(id)), isLoading := false)
        case Fail => st.(isLoading := false);
      Effect(next, Some(InventariosApi.Remove(id)))
  }

  /** Whichever way a row goes, the rows that stay keep their order. */
  lemma DeleteKeepsOrder(st: State, id: int, reply: Outcome<Ack>)
    ensures var r := HandleDelete(st, id, reply);
      reply.Ok? || r.sent.None? ==> IsSubseq(r.state.items, st.items)
  {
    FilterIsSubseq(st.items, KeepsId(id));
  }

  /** `handleEdit`: a PUT is sent; an ok reply replaces the rows with the id
      by the returned item and closes the edit, a failure leaves both. */
  function HandleEdit(st: State, id: int, recurso: string, stock: int, reply: Outcome<InventariosApi.Item>): (r: Effect)
    ensures r.sent == Some(InventariosApi.Update(id, recurso, stock))
    ensures !r.state.isLoading && r.state.form == st.form
    ensures |r.state.items| == |st.items|
    ensures forall i :: 0 <= i < |st.items| && st.items[i].id != id ==> r.state.items[i] == st.items[i]
    ensures reply.Ok? ==>
      (r.state.editing.None? &&
       forall i :: 0 <= i < |st.items| && st.items[i].id == id ==> r.state.items[i] == FromServer(reply.value))
    ensures reply.Fail? ==> r.state == st.(isLoading := false)
  {
    var next := match reply
      case Ok(updated) =>
        st.(items := ReplaceWhere(st.items, HasId(id), FromServer(updated)), editing := None, isLoading := false)
      case Fail => st.(isLoading := false);
    Effect(next, Some(InventariosApi.Update(id, recurso, stock)))
  }

  /** `handleDuplicate`: a copy of the row with a new id, marked as a
      duplicate, is appended; the original stays as it is. */
  function HandleDuplicate(st: State, item: Recurso, newId: int): (r: State)
    ensures |r.items| == |st.items| + 1 && r.items[..|st.items|] == st.items
    ensures var d := r.items[|st.items|];
      d.id == newId && d.duplicado && d.recurso == item.recurso && d.stock == item.stock
    ensures r.(items := st.items) == st
  {
    st.(items := st.items + [item.(id := newId, duplicado := true)])
  }

  /** The schema reads the name trimmed, so casting first changes nothing. */
  lemma CastKeepsVerdict(f: FormValues)
    ensures SchemaAccepts(Cast(f)) == SchemaAccepts(f)
    ensures Cast(Cast(f)) == Cast(f)
  {
    TrimIdempotent(f.recurso);
  }

  /** What the form posts always has a name of three or more characters with
      no white space at either end, and a stock of at least 1. */
  lemma SentValuesAreClean(st: State, reply: Outcome<InventariosApi.Item>)
    ensures var r := Submit(st, reply);
      r.sent.Some? ==>
        && |r.sent.value.recurso| >= 3
        && !IsSpace(r.sent.value.recurso[0])
        && !IsSpace(r.sent.value.recurso[|r.sent.value.recurso| - 1])
        && r.sent.value.stock >= 1
  {
    var r := Submit(st, reply);
    if r.sent.Some? {
      CastIsClean(st.form);
      assert r.sent.value.recurso == Cast(st.form).recurso;
    }
  }

  /** A name the schema accepts is sent trimmed: three characters or more,
      with no white space at either end. */
  lemma CastIsClean(f: FormValues)
    requires SchemaAccepts(f)
    ensures var n := Cast(f).recurso;
      |n| >= 3 && !IsSpace(n[0]) && !IsSpace(n[|n| - 1])
  {
    var n := Trim(f.recurso);
    assert |n| > 0 ==> !IsSpace(n[0]) && !IsSpace(n[|n| - 1]);
    assert |n| >= 3;
    assert Cast(f) == FormValues(n, f.stock);
  }

  /** The route stores whatever it is sent, so the schema is the only guard:
      a row created through the page against the route holds a clean name
      and a positive stock. */
  lemma CreatedRowIsClean(st: State, s: InventariosApi.Store)
    requires SchemaAccepts(st.form)
    ensures var r := Submit(st, Ok(InventariosApi.Post(s, Cast(st.form).recurso, st.form.stock).store[|s|]));
      var row := r.state.items[|st.items|];
      && |r.state.items| == |st.items| + 1
      && row == FromServer(InventariosApi.Item(|s| + 1, Trim(st.form.recurso), st.form.stock))
      && SchemaAccepts(FormValues(row.recurso, row.stock))
      && r.state.form == DefaultForm
  {
    CastKeepsVerdict(st.form);
  }

  /** Deleting a duplicate right after making it restores the list and
      sends nothing, provided its id was new. */
  lemma DuplicateThenDeleteRestores(st: State, item: Recurso, newId: int, reply: Outcome<Ack>)
    requires forall i :: 0 <= i < |st.items| ==> st.items[i].id != newId
    ensures var r := HandleDelete(HandleDuplicate(st, item, newId), newId, reply);
      r.sent.None? && r.state == st
  {
    var d := item.(id := newId, duplicado := true);
    var xs := st.items + [d];
    assert HandleDuplicate(st, item, newId).items == xs;
    assert FirstIndex(xs, HasId(newId)) == |st.items| by {
      FirstIndexOfAppended(st.items, d, HasId(newId));
    }
    FilterAppend(st.items, [d], KeepsId(newId));
    FilterKeepsAll(st.items, KeepsId(newId));
    FilterKeepsNone([d], KeepsId(newId));
  }

  /** When no earlier element passes, the first to pass is the appended one. */
  lemma FirstIndexOfAppended(xs: seq<Recurso>, x: Recurso, p: Recurso -> bool)
    requires forall i :: 0 <= i < |xs| ==> !p(xs[i])
    requires p(x)
    ensures FirstIndex(xs + [x], p) == |xs|
  {
    assert forall i :: 0 <= i < |xs| ==> (xs + [x])[i] == xs[i];
    assert (xs + [x])[|xs|] == x;
  }

  /** A row that is not a duplicate goes only on the server's say-so: a
      failed DELETE leaves the list as it was. Only the first row with the
      id is looked at. */
  lemma ServerRowWaitsForReply(st: State, id: int)
    requires Find(st.items, HasId(id)).None? || !Find(st.items, HasId(id)).value.duplicado
    ensures HandleDelete(st, id, Fail).sent == Some(InventariosApi.Remove(id))
    ensures HandleDelete(st, id, Fail).state == st.(isLoading := false)
  {
  }

  /** The route has no PUT handler, so an edit is never applied and the row
      stays open for editing. */
  lemma EditNeverApplies(st: State, s: InventariosApi.Store, id: int, recurso: string, stock: int)
    ensures var step := InventariosApi.Handle(s, InventariosApi.Update(id, recurso, stock));
      HandleEdit(st, id, recurso, stock, ItemReply(step.response)).state == st.(isLoading := false)
  {
  }
}
