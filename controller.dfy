/** The controller object: the store it works on and one method per endpoint. */
module Controller {
  import opened Optional
  import opened Text
  import opened Catalog
  import opened Validation
  import opened Search
  import opened Api

  /** A non-empty set has a member. */
  lemma HasMember(s: set<int>)
    requires s != {}
    ensures exists x :: x in s
  {
    if forall x :: x !in s {
      assert false;
    }
  }

  /** A key above every key of the set; it shows that a fresh positive id always exists. */
  ghost function KeyAbove(keys: set<int>): (b: int)
    ensures b > 0 && forall k | k in keys :: k < b
    decreases keys
  {
    if keys == {} then 1
    else
      HasMember(keys);
      var x :| x in keys;
      var above := KeyAbove(keys - {x});
      assert forall k | k in keys :: k == x || k in keys - {x};
      if x < above then above else x + 1
  }

  class ProductoController {
    /** The repository's contents: product id to stored product. */
    var store: Store

    ghost predicate Valid()
      reads this
    {
      StoreInvariant(store)
    }

    constructor (initial: Store)
      requires StoreInvariant(initial)
      ensures Valid() && store == initial
    {
      store := initial;
    }

    /** findAll(): every stored record once, in an order the repository chooses. */
    method FindAll() returns (rows: seq<Producto>, ghost order: seq<int>)
      ensures Enumerates(order, store) && rows == RowsOf(store, order)
      ensures |rows| == |store|
    {
      var remaining := store.Keys;
      rows, order := [], [];
      while remaining != {}
        invariant remaining <= store.Keys
        invariant Distinct(order)
        invariant forall i | 0 <= i < |order| :: order[i] in store && order[i] !in remaining
        invariant forall k | k in store :: k in remaining || k in order
        invariant rows == RowsOf(store, order)
        invariant |order| + |remaining| == |store|
        decreases |remaining|
      {
        HasMember(remaining);
        var k :| k in remaining;
        rows, order := rows + [store[k]], order + [k];
        remaining := remaining - {k};
      }
    }

    /** GET /api/productos */
    method GetAllProductos() returns (r: Response, ghost order: seq<int>)
      ensures Enumerates(order, store) && r == ListResponse(store, order)
      ensures r.body.total == r.body.count == |store|
    {
      var productos;
      productos, order := FindAll();
      var total := |store|;
      r := Response(OK, Listado(productos, total, |productos|));
    }

    /** GET /api/productos/{id} */
    method GetProductoById(id: int) returns (r: Response)
      ensures r == GetByIdResponse(store, id)
    {
      if id <= 0 {
        return Response(BAD_REQUEST, Rechazo(IdInvalido));
      }
      if id in store {
        r := Response(OK, Item(store[id]));
      } else {
        r := Response(NOT_FOUND, Rechazo(NoEncontrado(id)));
      }
    }

    /** POST /api/productos; `newId` is the id the repository gave the new record. */
    method CreateProducto(body: Option<ProductoBody>) returns (r: Response, ghost newId: int)
      requires Valid()
      modifies this
      ensures Valid()
      ensures newId > 0 && newId !in old(store)
      ensures Outcome(r, store) == CreateOutcome(old(store), body, newId)
    {
      var errors := ValidateProducto(body);
      if |errors| != 0 {
        newId := KeyAbove(store.Keys);
        return Response(BAD_REQUEST, Rechazo(DatosInvalidos(errors))), newId;
      }
      ghost var above := KeyAbove(store.Keys);
      assert above > 0 && above !in store;
      var id :| id > 0 && id !in store;
      var nuevo := WithId(body.value, id);
      store := store[id := nuevo];
      r, newId := Response(CREATED, Item(nuevo)), id;
    }

    /** PUT /api/productos/{id} */
    method UpdateProducto(id: int, body: Option<ProductoBody>) returns (r: Response)
      requires Valid()
      modifies this
      ensures Valid()
      ensures Outcome(r, store) == UpdateOutcome(old(store), id, body)
    {
      if id <= 0 {
        return Response(BAD_REQUEST, Rechazo(IdInvalido));
      }
      var errors := ValidateProducto(body);
      if |errors| != 0 {
        return Response(BAD_REQUEST, Rechazo(DatosInvalidos(errors)));
      }
      if id !in store {
        return Response(NOT_FOUND, Rechazo(NoEncontrado(id)));
      }
      var actualizado := WithId(body.value, id);
      store := store[id := actualizado];
      r := Response(OK, Item(actualizado));
    }

    /** DELETE /api/productos/{id} */
    method DeleteProducto(id: int) returns (r: Response)
      requires Valid()
      modifies this
      ensures Valid()
      ensures Outcome(r, store) == DeleteOutcome(old(store), id)
    {
      if id <= 0 {
        return Response(BAD_REQUEST, Rechazo(IdInvalido));
      }
      if id !in store {
        return Response(NOT_FOUND, Rechazo(NoEncontrado(id)));
      }
      var eliminado := store[id];
      store := store - {id};
      r := Response(OK, Item(eliminado));
    }

    /** DELETE /api/productos/batch */
    method DeleteProductos(ids: seq<int>) returns (r: Response)
      requires Valid()
      modifies this
      ensures Valid()
      ensures Outcome(r, store) == BatchDeleteOutcome(old(store), ids)
    {
      if |ids| == 0 {
        return Response(BAD_REQUEST, Rechazo(ListaVacia));
      }
      var eliminados, noEncontrados := 0, 0;
      for i := 0 to |ids|
        invariant DeleteEach(Tally(store, eliminados, noEncontrados), ids[i..])
               == DeleteEach(Tally(old(store), 0, 0), ids)
      {
        assert ids[i..][1..] == ids[i + 1..];
        var id := ids[i];
        if id in store {
          store := store - {id};
          eliminados := eliminados + 1;
        } else {
          noEncontrados := noEncontrados + 1;
        }
      }
      assert ids[|ids|..] == [];
      r := Response(OK, Masivo(eliminados, noEncontrados, |ids|));
      assert Outcome(r, store) == BatchDeleteOutcome(old(store), ids);
    }

    /** GET /api/productos/stats, integer part */
    method GetProductoStats() returns (r: Response)
      ensures r == StatsResponse(store)
    {
      var total := |store|;
      r := Response(OK, Estadisticas(total));
    }

    /** GET /api/productos/search?nombre= */
    method SearchProductos(nombre: string) returns (r: Response, ghost order: seq<int>)
      ensures IsBlank(nombre) ==> r == Response(BAD_REQUEST, Rechazo(TerminoVacio))
      ensures !IsBlank(nombre) ==> Enumerates(order, store) && r == SearchResponse(RowsOf(store, order), nombre)
      ensures r.status == OK ==>
        r.body.Busqueda? && forall p :: p in r.body.data <==> p in store.Values && NombreMatches(p, nombre)
    {
      if IsBlank(nombre) {
        return Response(BAD_REQUEST, Rechazo(TerminoVacio)), [];
      }
      var productos;
      productos, order := FindAll();
      EnumerationCoversStore(order, store);
      var encontrados := FilterByNombre(productos, nombre);
      r := Response(OK, Busqueda(encontrados, |encontrados|, nombre));
    }
  }
}
