/** The handlers of the product REST controller, each as a function from the store
    (and the request) to the response and the new store. */
module Api {
  import opened Optional
  import opened Text
  import opened Catalog
  import opened Validation
  import opened Search

  /** The repository: product id to stored product. */
  type Store = map<int, Producto>

  const OK: int := 200
  const CREATED: int := 201
  const BAD_REQUEST: int := 400
  const NOT_FOUND: int := 404

  /** Why a request was refused; the message texts are not modelled. */
  datatype Failure =
    | IdInvalido
    | DatosInvalidos(errors: Errors)
    | NoEncontrado(id: int)
    | ListaVacia
    | TerminoVacio

  /** The payload of a response, one shape per kind of endpoint. */
  datatype Body =
    | Item(producto: Producto)
    | Listado(data: seq<Producto>, total: int, count: int)
    | Masivo(eliminados: nat, noEncontrados: nat, totalProcesados: nat)
    | Estadisticas(totalProductos: int)
    | Busqueda(data: seq<Producto>, total: int, termino: string)
    | Rechazo(failure: Failure)

  datatype Response = Response(status: int, body: Body)

  /** What a handler returns and what it leaves in the store. */
  datatype Outcome = Outcome(response: Response, store: Store)

  /** Every stored key is positive, is its record's own id, and the record passed validation. */
  predicate StoreInvariant(store: Store) {
    forall k | k in store :: k > 0 && store[k].id == k && ValidRecord(store[k])
  }

  /** Storing a valid record under its own positive id keeps the invariant. */
  lemma PutKeepsInvariant(store: Store, k: int, p: Producto)
    requires StoreInvariant(store) && k > 0 && p.id == k && ValidRecord(p)
    ensures StoreInvariant(store[k := p])
  {
  }

  // ---------------------------------------------------------------- listing

  predicate Distinct(order: seq<int>) {
    forall i, j | 0 <= i < j < |order| :: order[i] != order[j]
  }

  /** `order` lists every key of the store exactly once: one order findAll() may use. */
  predicate Enumerates(order: seq<int>, store: Store) {
    && Distinct(order)
    && (forall i | 0 <= i < |order| :: order[i] in store)
    && (forall k | k in store :: k in order)
  }

  /** The records of the store in the given key order. */
  function RowsOf(store: Store, order: seq<int>): (rows: seq<Producto>)
    requires forall i | 0 <= i < |order| :: order[i] in store
    ensures |rows| == |order|
    ensures forall i | 0 <= i < |order| :: rows[i] == store[order[i]]
  {
    seq(|order|, i requires 0 <= i < |order| => store[order[i]])
  }

  /** A repetition-free sequence has as many elements as the set of its elements. */
  lemma {:induction false} DistinctCardinality(order: seq<int>)
    requires Distinct(order)
    ensures |set k | k in order| == |order|
  {
    if order != [] {
      var rest := order[1..];
      assert Distinct(rest) by {
        forall i, j | 0 <= i < j < |rest| ensures rest[i] != rest[j] {
          assert rest[i] == order[i + 1] && rest[j] == order[j + 1];
        }
      }
      DistinctCardinality(rest);
      assert order[0] !in rest by {
        forall i | 0 <= i < |rest| ensures rest[i] != order[0] {
          assert rest[i] == order[i + 1];
        }
      }
      assert (set k | k in order) == {order[0]} + (set k | k in rest);
    }
  }

  /** A listing of the store has as many rows as the store has keys, and holds exactly its records. */
  lemma EnumerationCoversStore(order: seq<int>, store: Store)
    requires Enumerates(order, store)
    ensures |order| == |store|
    ensures forall p :: p in RowsOf(store, order) <==> p in store.Values
  {
    DistinctCardinality(order);
    forall k ensures k in (set j | j in order) <==> k in store.Keys {
    }
    assert (set k | k in order) == store.Keys;
    var rows := RowsOf(store, order);
    forall p | p in store.Values ensures p in rows {
      var k :| k in store && store[k] == p;
      var i :| 0 <= i < |order| && order[i] == k;
      assert rows[i] == p;
    }
  }

  /** getAllProductos: every record, with `total` from count() and `count` from the list's size. */
  function ListResponse(store: Store, order: seq<int>): (r: Response)
    requires Enumerates(order, store)
    ensures r.status == OK && r.body.Listado?
    ensures r.body.total == r.body.count == |store| == |r.body.data|
    ensures r.body.data == RowsOf(store, order)
    ensures forall p :: p in r.body.data <==> p in store.Values
    ensures StoreInvariant(store) ==>
      forall i, j | 0 <= i < j < |r.body.data| :: r.body.data[i] != r.body.data[j]
  {
    EnumerationCoversStore(order, store);
    var rows := RowsOf(store, order);
    Response(OK, Listado(rows, |store|, |rows|))
  }

  // ---------------------------------------------------------------- single record

  /** getProductoById */
  function GetByIdResponse(store: Store, id: int): (r: Response)
    ensures id <= 0 ==> r == Response(BAD_REQUEST, Rechazo(IdInvalido))
    ensures r.status == NOT_FOUND <==> id > 0 && id !in store
    ensures r.status == OK <==> id > 0 && id in store
    ensures r.status == OK ==> r.body == Item(store[id])
  {
    if id <= 0 then Response(BAD_REQUEST, Rechazo(IdInvalido))
    else if id !in store then Response(NOT_FOUND, Rechazo(NoEncontrado(id)))
    else Response(OK, Item(store[id]))
  }

  /** createProducto, with `newId` the id the store gives the new record. */
  function CreateOutcome(store: Store, body: Option<ProductoBody>, newId: int): (o: Outcome)
    ensures o.response.status == CREATED <==> body.Some? && ValidBody(body.value)
    ensures o.response.status != CREATED ==>
      o.store == store && o.response == Response(BAD_REQUEST, Rechazo(DatosInvalidos(ValidateProducto(body))))
    ensures o.response.status == CREATED ==>
      var p := WithId(body.value, newId);
      o.response.body == Item(p) && o.store == store[newId := p]
    ensures o.response.status == CREATED && newId !in store ==>
      o.store.Keys == store.Keys + {newId} && (forall k | k in store :: o.store[k] == store[k])
    ensures StoreInvariant(store) && newId > 0 ==> StoreInvariant(o.store)
  {
    var errors := ValidateProducto(body);
    if |errors| != 0 then
      Outcome(Response(BAD_REQUEST, Rechazo(DatosInvalidos(errors))), store)
    else
      var p := WithId(body.value, newId);
      var o := Outcome(Response(CREATED, Item(p)), store[newId := p]);
      if StoreInvariant(store) && newId > 0 then PutKeepsInvariant(store, newId, p); o else o
  }

  /** updateProducto: the id is checked first, then the body, then existence; a full
      replace keeps the path id whatever id the body carries. */
  function UpdateOutcome(store: Store, id: int, body: Option<ProductoBody>): (o: Outcome)
    ensures id <= 0 ==> o == Outcome(Response(BAD_REQUEST, Rechazo(IdInvalido)), store)
    ensures id > 0 && ValidateProducto(body) != map[] ==>
      o == Outcome(Response(BAD_REQUEST, Rechazo(DatosInvalidos(ValidateProducto(body)))), store)
    ensures o.response.status == NOT_FOUND <==> id > 0 && body.Some? && ValidBody(body.value) && id !in store
    ensures o.response.status == OK <==> id > 0 && body.Some? && ValidBody(body.value) && id in store
    ensures o.response.status != OK ==> o.store == store
    ensures o.response.status == OK ==>
      var p := WithId(body.value, id);
      o.response.body == Item(p) && o.store.Keys == store.Keys && o.store[id] == p &&
      (forall k | k in store && k != id :: o.store[k] == store[k])
    ensures StoreInvariant(store) ==> StoreInvariant(o.store)
  {
    if id <= 0 then
      Outcome(Response(BAD_REQUEST, Rechazo(IdInvalido)), store)
    else
      var errors := ValidateProducto(body);
      if |errors| != 0 then
        Outcome(Response(BAD_REQUEST, Rechazo(DatosInvalidos(errors))), store)
      else if id !in store then
        Outcome(Response(NOT_FOUND, Rechazo(NoEncontrado(id))), store)
      else
        var p := WithId(body.value, id);
        var o := Outcome(Response(OK, Item(p)), store[id := p]);
        if StoreInvariant(store) then PutKeepsInvariant(store, id, p); o else o
  }

  /** deleteProducto: answers with the record as it was before removal. */
  function DeleteOutcome(store: Store, id: int): (o: Outcome)
    ensures id <= 0 ==> o == Outcome(Response(BAD_REQUEST, Rechazo(IdInvalido)), store)
    ensures o.response.status == NOT_FOUND <==> id > 0 && id !in store
    ensures o.response.status == OK <==> id > 0 && id in store
    ensures o.response.status != OK ==> o.store == store
    ensures o.response.status == OK ==>
      o.response.body == Item(store[id]) && o.store.Keys == store.Keys - {id} &&
      (forall k | k in o.store :: o.store[k] == store[k])
    ensures StoreInvariant(store) ==> StoreInvariant(o.store)
  {
    if id <= 0 then
      Outcome(Response(BAD_REQUEST, Rechazo(IdInvalido)), store)
    else if id !in store then
      Outcome(Response(NOT_FOUND, Rechazo(NoEncontrado(id))), store)
    else
      Outcome(Response(OK, Item(store[id])), store - {id})
  }

  // ---------------------------------------------------------------- batch delete

  /** The store and the two counters after the loop of deleteProductos has run over `ids`. */
  datatype Tally = Tally(store: Store, eliminados: nat, noEncontrados: nat)

  /** One iteration: delete the id if it exists, otherwise count it as not found. */
  function DeleteStep(t: Tally, id: int): Tally {
    if id in t.store then Tally(t.store - {id}, t.eliminados + 1, t.noEncontrados)
    else Tally(t.store, t.eliminados, t.noEncontrados + 1)
  }

  /** The loop over `ids` from the tally `t`, left to right. */
  function DeleteEach(t: Tally, ids: seq<int>): Tally
    decreases |ids|
  {
    if ids == [] then t else DeleteEach(DeleteStep(t, ids[0]), ids[1..])
  }

  /** Every listed id is gone afterwards and every other record is left as it was. */
  lemma {:induction false} DeleteEachStore(t: Tally, ids: seq<int>)
    ensures DeleteEach(t, ids).store == t.store - set i | i in ids
    decreases |ids|
  {
    if ids == [] {
      assert t.store - (set i | i in ids) == t.store;
    } else {
      var next := DeleteStep(t, ids[0]);
      DeleteEachStore(next, ids[1..]);
      assert next.store - (set i | i in ids[1..]) == t.store - set i | i in ids;
    }
  }

  /** Each id is counted once, as deleted or as not found. */
  lemma {:induction false} DeleteEachCounts(t: Tally, ids: seq<int>)
    ensures DeleteEach(t, ids).eliminados + DeleteEach(t, ids).noEncontrados
            == t.eliminados + t.noEncontrados + |ids|
    decreases |ids|
  {
    if ids != [] {
      DeleteEachCounts(DeleteStep(t, ids[0]), ids[1..]);
    }
  }

  /** The deleted count is the number of distinct listed ids that were present, so a
      repeated id counts as deleted once and as not found afterwards. */
  lemma {:induction false} DeleteEachEliminados(t: Tally, ids: seq<int>)
    ensures DeleteEach(t, ids).eliminados == t.eliminados + |t.store.Keys * set i | i in ids|
    decreases |ids|
  {
    if ids == [] {
      assert (set i | i in ids) == {};
    } else {
      var x := ids[0];
      var next := DeleteStep(t, x);
      DeleteEachEliminados(next, ids[1..]);
      assert (set i | i in ids) == {x} + set i | i in ids[1..];
      PresentCountStep(t.store.Keys, x, set i | i in ids[1..]);
      if x in t.store {
        assert next.store.Keys == t.store.Keys - {x};
      }
    }
  }

  /** How many of the listed keys are present, split on the first listed key. */
  lemma PresentCountStep(keys: set<int>, x: int, rest: set<int>)
    ensures x in keys ==> |keys * ({x} + rest)| == 1 + |(keys - {x}) * rest|
    ensures x !in keys ==> |keys * ({x} + rest)| == |keys * rest|
  {
    if x in keys {
      assert keys * ({x} + rest) == {x} + (keys - {x}) * rest;
    } else {
      assert keys * ({x} + rest) == keys * rest;
    }
  }

  /** deleteProductos: an empty list is refused; otherwise every id is processed. */
  function BatchDeleteOutcome(store: Store, ids: seq<int>): (o: Outcome)
    ensures ids == [] ==> o == Outcome(Response(BAD_REQUEST, Rechazo(ListaVacia)), store)
    ensures ids != [] ==> o.response.status == OK && o.response.body.Masivo?
    ensures ids != [] ==>
      var b := o.response.body;
      b.eliminados + b.noEncontrados == b.totalProcesados == |ids| &&
      b.eliminados == |store.Keys * set i | i in ids|
    ensures forall i | 0 <= i < |ids| :: ids[i] !in o.store
    ensures o.store.Keys <= store.Keys
    ensures forall k | k in store && k !in ids :: k in o.store && o.store[k] == store[k]
    ensures StoreInvariant(store) ==> StoreInvariant(o.store)
  {
    if ids == [] then
      Outcome(Response(BAD_REQUEST, Rechazo(ListaVacia)), store)
    else
      var t := DeleteEach(Tally(store, 0, 0), ids);
      DeleteEachStore(Tally(store, 0, 0), ids);
      DeleteEachCounts(Tally(store, 0, 0), ids);
      DeleteEachEliminados(Tally(store, 0, 0), ids);
      Outcome(Response(OK, Masivo(t.eliminados, t.noEncontrados, |ids|)), t.store)
  }

  // ---------------------------------------------------------------- stats and search

  /** getProductoStats, integer part: the number of stored products. */
  function StatsResponse(store: Store): (r: Response)
    ensures r.status == OK && r.body == Estadisticas(|store|)
  {
    Response(OK, Estadisticas(|store|))
  }

  /** searchProductos over a listing: a blank term is refused; otherwise the records
      whose lower-cased name contains the lower-cased raw term, in listing order. */
  function SearchResponse(rows: seq<Producto>, termino: string): (r: Response)
    ensures IsBlank(termino) <==> r == Response(BAD_REQUEST, Rechazo(TerminoVacio))
    ensures !IsBlank(termino) ==> r.status == OK && r.body.Busqueda? && r.body.termino == termino
    ensures r.body.Busqueda? ==> r.body.data == FilterByNombre(rows, termino)
    ensures r.body.Busqueda? ==>
      r.body.total == |r.body.data| &&
      IsSubsequence(r.body.data, rows) &&
      (forall p :: p in r.body.data <==> p in rows && NombreMatches(p, termino))
  {
    if IsBlank(termino) then Response(BAD_REQUEST, Rechazo(TerminoVacio))
    else
      var found := FilterByNombre(rows, termino);
      Response(OK, Busqueda(found, |found|, termino))
  }

  // ---------------------------------------------------------------- across handlers

  /** A created record is found under the id the store gave it, with the body's name and price. */
  lemma CreateThenGet(store: Store, body: ProductoBody, newId: int)
    requires ValidBody(body) && newId > 0
    ensures var o := CreateOutcome(store, Some(body), newId);
      var r := GetByIdResponse(o.store, newId);
      r.status == OK && Some(r.body.producto.nombre) == body.nombre && Some(r.body.producto.precio) == body.precio
  {
  }

  /** After a successful delete the same id answers 404. */
  lemma DeleteThenGet(store: Store, id: int)
    requires DeleteOutcome(store, id).response.status == OK
    ensures GetByIdResponse(DeleteOutcome(store, id).store, id).status == NOT_FOUND
  {
  }

  /** After a batch delete every listed id answers 404. */
  lemma BatchDeleteThenGet(store: Store, ids: seq<int>, i: int)
    requires 0 <= i < |ids| && ids[i] > 0
    ensures GetByIdResponse(BatchDeleteOutcome(store, ids).store, ids[i]).status == NOT_FOUND
  {
  }

  /** A repeated id is deleted the first time and reported not found the second. */
  lemma RepeatedIdCountedTwice(store: Store, x: int)
    requires x in store
    ensures var b := BatchDeleteOutcome(store, [x, x]).response.body;
      b.eliminados == 1 && b.noEncontrados == 1 && b.totalProcesados == 2
  {
    var t := DeleteStep(Tally(store, 0, 0), x);
    assert [x, x][1..] == [x];
    assert DeleteEach(t, [x]) == DeleteStep(t, x);
  }

  /** One existing and one missing id: one deleted, one not found, two processed. */
  lemma ExistingAndMissing(store: Store, present: int, absent: int)
    requires present in store && absent !in store
    ensures var b := BatchDeleteOutcome(store, [present, absent]).response.body;
      b.eliminados == 1 && b.noEncontrados == 1 && b.totalProcesados == 2
  {
    var t := DeleteStep(Tally(store, 0, 0), present);
    assert [present, absent][1..] == [absent];
    assert DeleteEach(t, [absent]) == DeleteStep(t, absent);
  }
}
