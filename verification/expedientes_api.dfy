/**
 The `/api/expedientes` route: a module-level array of case records and
 four handlers that read it, append to it, rewrite it with `map` and
 shrink it with `filter`. The array is the `Store`; each handler is a pure
 function from the store and the parsed request body to the next store and
 the response.
 */
module ExpedientesApi {
  import opened Seqs
  import opened Keys

  datatype Expediente = Expediente(id: int, numero: string, estado: string, partes: string)

  type Store = seq<Expediente>

  datatype Body = List(records: Store) | Created(record: Expediente) | Message(text: string)

  datatype Response = Response(status: int, body: Body)

  /** The store after a handler ran, and what the handler answered. */
  datatype Step = Step(store: Store, response: Response)

  /** The parsed request: the HTTP method with the fields its body carries. */
  datatype Request =
    | GetAll
    | Create(numero: string, estado: string, partes: string)
    | Update(id: int, numero: string, estado: string, partes: string)
    | Remove(id: int)

  function Id(e: Expediente): int { e.id }

  /** `exp.id === id`, the test `map` applies. */
  function HasId(id: int): Expediente -> bool {
    (e: Expediente) => e.id == id
  }

  /** `exp.id !== id`, the test `filter` applies. */
  function KeepsId(id: int): Expediente -> bool {
    (e: Expediente) => e.id != id
  }

  /** The two records the process starts with. */
  const Seed: Store := [
    Expediente(1, "EXP-001", "Abierto", "Parte A vs Parte B"),
    Expediente(2, "EXP-002", "Cerrado", "Parte C vs Parte D")
  ]

  const UpdatedMessage: string := "Expediente actualizado"
  const DeletedMessage: string := "Expediente eliminado"

  /** GET: the whole store, as it is. */
  function Get(s: Store): (r: Step)
    ensures r.store == s
    ensures r.response.status == 200 && r.response.body.List? && r.response.body.records == s
  {
    Step(s, Response(200, List(s)))
  }

  /** POST: a record numbered `length + 1` is pushed at the end and echoed with 201. */
  function Post(s: Store, numero: string, estado: string, partes: string): (r: Step)
    ensures |r.store| == |s| + 1 && r.store[..|s|] == s
    ensures r.store[|s|] == Expediente(|s| + 1, numero, estado, partes)
    ensures r.response == Response(201, Created(r.store[|s|]))
  {
    var e := Expediente(|s| + 1, numero, estado, partes);
    Step(s + [e], Response(201, Created(e)))
  }

  /** PUT: every record with the id is replaced as a whole; the answer is the
      same message whether or not one matched. */
  function Put(s: Store, id: int, numero: string, estado: string, partes: string): (r: Step)
    ensures |r.store| == |s|
    ensures forall i :: 0 <= i < |s| && s[i].id == id ==>
      r.store[i] == Expediente(id, numero, estado, partes)
    ensures forall i :: 0 <= i < |s| && s[i].id != id ==> r.store[i] == s[i]
    ensures r.response == Response(200, Message(UpdatedMessage))
  {
    Step(ReplaceWhere(s, HasId(id), Expediente(id, numero, estado, partes)),
         Response(200, Message(UpdatedMessage)))
  }

  /** DELETE: the records with the id are filtered out; the answer is the
      same message whether or not one matched. */
  function Delete(s: Store, id: int): (r: Step)
    ensures |r.store| <= |s|
    ensures forall i :: 0 <= i < |r.store| ==> r.store[i].id != id && r.store[i] in s
    ensures forall i :: 0 <= i < |s| && s[i].id != id ==> s[i] in r.store
    ensures forall x :: multiset(r.store)[x] == if x.id != id then multiset(s)[x] else 0
    ensures r.response == Response(200, Message(DeletedMessage))
  {
    FilterCounts(s, KeepsId(id));
    Step(Filter(s, KeepsId(id)), Response(200, Message(DeletedMessage)))
  }

  /** The route: each method goes to its handler. */
  function Handle(s: Store, req: Request): (r: Step)
    ensures req.GetAll? ==> r.store == s && r.response.status == 200
    ensures req.Create? ==> |r.store| == |s| + 1 && r.response.status == 201
    ensures req.Update? ==> |r.store| == |s| && r.response.status == 200
    ensures req.Remove? ==> |r.store| <= |s| && r.response.status == 200
  {
    match req
    case GetAll => Get(s)
    case Create(n, e, p) => Post(s, n, e, p)
    case Update(id, n, e, p) => Put(s, id, n, e, p)
    case Remove(id) => Delete(s, id)
  }

  /** The store after a sequence of requests. */
  function Run(s: Store, reqs: seq<Request>): Store
    decreases |reqs|
  {
    if |reqs| == 0 then s else Run(Handle(s, reqs[0]).store, reqs[1..])
  }

  /** The process starts with records 1 and 2, numbered as their positions. */
  lemma SeedShape()
    ensures |Seed| == 2 && Seed[0].id == 1 && Seed[1].id == 2
    ensures KeysAreIndices(Seed, Id) && UniqueKeys(Seed, Id)
  {
  }

  /** A created record is listed by the next GET. */
  lemma CreatedIsListed(s: Store, numero: string, estado: string, partes: string)
    ensures var c := Post(s, numero, estado, partes);
      c.response.body.record in Get(c.store).response.body.records
  {
    var c := Post(s, numero, estado, partes);
    assert c.store[|s|] == c.response.body.record;
  }

  /** PUT of an id no record has changes nothing, yet still reports success. */
  lemma PutAbsentIsNoop(s: Store, id: int, numero: string, estado: string, partes: string)
    requires KeyAbsent(s, Id, id)
    ensures Put(s, id, numero, estado, partes).store == s
    ensures Put(s, id, numero, estado, partes).response.status == 200
  {
    ReplaceNothing(s, HasId(id), Expediente(id, numero, estado, partes));
  }

  /** The same PUT twice has the effect of one. */
  lemma PutIdempotent(s: Store, id: int, numero: string, estado: string, partes: string)
    ensures var once := Put(s, id, numero, estado, partes).store;
      Put(once, id, numero, estado, partes).store == once
  {
  }

  /** After a PUT, a record with the id carries exactly the sent fields. */
  lemma PutMatchedRecordsReadBack(s: Store, id: int, numero: string, estado: string, partes: string)
    ensures var t := Put(s, id, numero, estado, partes).store;
      forall i :: 0 <= i < |t| && t[i].id == id ==> t[i] == Expediente(id, numero, estado, partes)
  {
  }

  /** DELETE keeps the other records in their relative order. */
  lemma DeleteKeepsOrder(s: Store, id: int)
    ensures IsSubseq(Delete(s, id).store, s)
  {
    FilterIsSubseq(s, KeepsId(id));
  }

  /** A second DELETE of the same id changes nothing. */
  lemma DeleteTwiceIsOnce(s: Store, id: int)
    ensures Delete(Delete(s, id).store, id).store == Delete(s, id).store
  {
    FilterIdempotent(s, KeepsId(id));
  }

  /** DELETE of an id no record has changes nothing, yet still reports success. */
  lemma DeleteAbsentIsNoop(s: Store, id: int)
    requires KeyAbsent(s, Id, id)
    ensures Delete(s, id).store == s
  {
    FilterKeepsAll(s, KeepsId(id));
  }

  /** While the ids are exactly 1..n, POST then DELETE of the new id restores the store. */
  lemma PostThenDeleteRestores(s: Store, numero: string, estado: string, partes: string)
    requires KeysAreIndices(s, Id)
    ensures Delete(Post(s, numero, estado, partes).store, |s| + 1).store == s
  {
    var e := Expediente(|s| + 1, numero, estado, partes);
    var p := KeepsId(|s| + 1);
    assert Post(s, numero, estado, partes).store == s + [e];
    FilterAppend(s, [e], p);
    FilterKeepsAll(s, p);
    FilterKeepsNone([e], p);
  }

  /** While the ids are exactly 1..n, POST keeps them so, and hence unique. */
  lemma PostKeepsIndices(s: Store, numero: string, estado: string, partes: string)
    requires KeysAreIndices(s, Id)
    ensures KeysAreIndices(Post(s, numero, estado, partes).store, Id)
    ensures UniqueKeys(Post(s, numero, estado, partes).store, Id)
  {
    IndicesAreUnique(Post(s, numero, estado, partes).store, Id);
  }

  /** As written, DELETE of record 1 followed by a POST gives the new record
      id 2, which record 2 already has. */
  lemma PostAfterDeleteDuplicatesId(numero: string, estado: string, partes: string)
    ensures var t := Run(Seed, [Remove(1), Create(numero, estado, partes)]);
      |t| == 2 && t[0].id == 2 && t[1].id == 2 && !UniqueKeys(t, Id)
  {
    var s1 := Delete(Seed, 1).store;
    SeedWithoutFirst();
    var t := Post(s1, numero, estado, partes).store;
    assert Run(Seed, [Remove(1), Create(numero, estado, partes)]) == Run(s1, [Create(numero, estado, partes)]);
    assert Run(s1, [Create(numero, estado, partes)]) == Run(t, []) == t;
    assert t == [Seed[1], Expediente(2, numero, estado, partes)];
    assert Id(t[0]) == Id(t[1]);
  }

  /** Deleting record 1 from the seed leaves record 2 alone. */
  lemma SeedWithoutFirst()
    ensures Delete(Seed, 1).store == [Seed[1]]
  {
    assert Seed[1..] == [Seed[1]];
    assert Filter(Seed[1..], KeepsId(1)) == [Seed[1]] + Filter([], KeepsId(1));
  }

  /** POST with an id one above the largest present, so it is always fresh. */
  function PostFresh(s: Store, numero: string, estado: string, partes: string): (r: Step)
    ensures |r.store| == |s| + 1 && r.store[..|s|] == s
    ensures KeyAbsent(s, Id, r.store[|s|].id)
    ensures r.store[|s|].numero == numero && r.store[|s|].estado == estado
      && r.store[|s|].partes == partes
    ensures r.response == Response(201, Created(r.store[|s|]))
  {
    var e := Expediente(MaxKey(s, Id) + 1, numero, estado, partes);
    Step(s + [e], Response(201, Created(e)))
  }

  /** While the ids are 1..n, the fresh-id POST picks the same id as the original one. */
  lemma PostFreshAgreesWhileIndices(s: Store, numero: string, estado: string, partes: string)
    requires KeysAreIndices(s, Id)
    ensures PostFresh(s, numero, estado, partes) == Post(s, numero, estado, partes)
  {
    MaxOfIndices(s, Id);
  }

  /** The route with the fresh-id POST. */
  function HandleFresh(s: Store, req: Request): Step {
    match req
    case Create(n, e, p) => PostFresh(s, n, e, p)
    case _ => Handle(s, req)
  }

  function RunFresh(s: Store, reqs: seq<Request>): Store
    decreases |reqs|
  {
    if |reqs| == 0 then s else RunFresh(HandleFresh(s, reqs[0]).store, reqs[1..])
  }

  /** Every handler of the fresh-id route keeps ids unique. */
  lemma HandleFreshKeepsUnique(s: Store, req: Request)
    requires UniqueKeys(s, Id)
    ensures UniqueKeys(HandleFresh(s, req).store, Id)
  {
    match req {
      case GetAll =>
      case Create(n, e, p) =>
      case Update(id, n, e, p) =>
      case Remove(id) =>
        FilterKeepsUniqueKeys(s, Id, KeepsId(id));
    }
  }

  /** Starting from unique ids, no sequence of requests to the fresh-id route
      ever produces two records with the same id. */
  lemma {:induction false} RunFreshKeepsUnique(s: Store, reqs: seq<Request>)
    requires UniqueKeys(s, Id)
    ensures UniqueKeys(RunFresh(s, reqs), Id)
    decreases |reqs|
  {
    if |reqs| > 0 {
      HandleFreshKeepsUnique(s, reqs[0]);
      RunFreshKeepsUnique(HandleFresh(s, reqs[0]).store, reqs[1..]);
    }
  }
}
