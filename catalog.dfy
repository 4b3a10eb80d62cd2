/** Option, as used for the nullable fields of a request body. */
module Optional {

  datatype Option<+T> = None | Some(value: T)
}

/** The product entity and the acceptance rules its fields must meet. */
module Catalog {
  import opened Optional
  import opened Text

  /** A product as the store holds it: the id, the name and the price columns. */
  datatype Producto = Producto(id: int, nombre: string, precio: real)

  /** A product as it arrives in a request body: any field may be null. */
  datatype ProductoBody = ProductoBody(id: Option<int>, nombre: Option<string>, precio: Option<real>)

  const MinNombreLength: int := 2
  const MaxNombreLength: int := 100
  const MaxPrecio: real := 999999.99

  /** A name is accepted when present, not blank after trim(), and of raw length 2 to 100. */
  predicate ValidNombre(nombre: Option<string>) {
    nombre.Some? && !IsBlank(nombre.value) && MinNombreLength <= |nombre.value| <= MaxNombreLength
  }

  /** A price is accepted when present, positive and at most 999999.99. */
  predicate ValidPrecio(precio: Option<real>) {
    precio.Some? && 0.0 < precio.value <= MaxPrecio
  }

  predicate ValidBody(body: ProductoBody) {
    ValidNombre(body.nombre) && ValidPrecio(body.precio)
  }

  /** A stored record whose fields would pass validation again. */
  predicate ValidRecord(p: Producto) {
    ValidNombre(Some(p.nombre)) && ValidPrecio(Some(p.precio))
  }

  /** The entity a validated body becomes once its id is set to `id`; the body's own id is ignored. */
  function WithId(body: ProductoBody, id: int): (p: Producto)
    requires ValidBody(body)
    ensures p.id == id && Some(p.nombre) == body.nombre && Some(p.precio) == body.precio
    ensures ValidRecord(p)
  {
    Producto(id, body.nombre.value, body.precio.value)
  }

  /** A name that passes validation is left non-empty by trim() and has raw length 2 to 100. */
  lemma ValidNombreSurvivesTrim(nombre: Option<string>)
    requires ValidNombre(nombre)
    ensures Trim(nombre.value) != []
    ensures MinNombreLength <= |nombre.value| <= MaxNombreLength
  {
    TrimEmptyIffBlank(nombre.value);
  }
}
