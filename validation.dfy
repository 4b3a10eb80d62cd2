/** validateProducto: the per-field checks shared by create and update. */
module Validation {
  import opened Optional
  import opened Text
  import opened Catalog

  /** The reason recorded against a field; the message texts are not modelled. */
  datatype FieldError =
    | ProductoNulo
    | NombreRequerido
    | NombreCorto
    | NombreLargo
    | PrecioRequerido
    | PrecioNoPositivo
    | PrecioExcesivo

  /** Field name to reason, at most one reason per field. */
  type Errors = map<string, FieldError>

  /** The name checks in order: missing or blank, then raw length below 2, then above 100. */
  function NombreError(nombre: Option<string>): (e: Option<FieldError>)
    ensures e.None? <==> ValidNombre(nombre)
    ensures e == Some(NombreRequerido) <==> nombre.None? || IsBlank(nombre.value)
    ensures e == Some(NombreCorto) <==> nombre.Some? && !IsBlank(nombre.value) && |nombre.value| < MinNombreLength
    ensures e == Some(NombreLargo) <==> nombre.Some? && !IsBlank(nombre.value) && |nombre.value| > MaxNombreLength
  {
    if nombre.None? || IsBlank(nombre.value) then Some(NombreRequerido)
    else if |nombre.value| < MinNombreLength then Some(NombreCorto)
    else if |nombre.value| > MaxNombreLength then Some(NombreLargo)
    else None
  }

  /** The price checks in order: missing, then not positive, then above 999999.99. */
  function PrecioError(precio: Option<real>): (e: Option<FieldError>)
    ensures e.None? <==> ValidPrecio(precio)
    ensures e == Some(PrecioRequerido) <==> precio.None?
    ensures e == Some(PrecioNoPositivo) <==> precio.Some? && precio.value <= 0.0
    ensures e == Some(PrecioExcesivo) <==> precio.Some? && precio.value > MaxPrecio
  {
    if precio.None? then Some(PrecioRequerido)
    else if precio.value <= 0.0 then Some(PrecioNoPositivo)
    else if precio.value > MaxPrecio then Some(PrecioExcesivo)
    else None
  }

  /** validateProducto: a null body gives the single entry "producto"; otherwise the
      name and the price are checked independently, each adding at most one entry. */
  function ValidateProducto(body: Option<ProductoBody>): (errors: Errors)
    ensures body.None? ==> errors.Keys == {"producto"}
    ensures body.Some? ==> errors.Keys <= {"nombre", "precio"}
    ensures body.Some? ==> ("nombre" !in errors <==> ValidNombre(body.value.nombre))
    ensures body.Some? ==> ("precio" !in errors <==> ValidPrecio(body.value.precio))
    ensures body.Some? && "nombre" in errors ==> Some(errors["nombre"]) == NombreError(body.value.nombre)
    ensures body.Some? && "precio" in errors ==> Some(errors["precio"]) == PrecioError(body.value.precio)
    ensures errors == map[] <==> body.Some? && ValidBody(body.value)
  {
    match body
    case None => map["producto" := ProductoNulo]
    case Some(p) =>
      var nombre := NombreError(p.nombre);
      var precio := PrecioError(p.precio);
      var withNombre: Errors := if nombre.Some? then map["nombre" := nombre.value] else map[];
      if precio.Some? then withNombre["precio" := precio.value] else withNombre
  }

  /** A null body gives exactly one entry, and it is the "producto" one. */
  lemma NullBodyHasOneError()
    ensures |ValidateProducto(None)| == 1
    ensures ValidateProducto(None)["producto"] == ProductoNulo
  {
    assert ValidateProducto(None).Keys == {"producto"};
  }

  /** The length check counts the untrimmed name: " a" is accepted although trim() leaves one character. */
  lemma UntrimmedLengthIsChecked()
    ensures |Trim(" a")| == 1
    ensures ValidateProducto(Some(ProductoBody(None, Some(" a"), Some(10.0)))) == map[]
  {
    TrimOfSpaceA();
    assert ValidBody(ProductoBody(None, Some(" a"), Some(10.0)));
  }

  lemma TrimOfSpaceA()
    ensures Trim(" a") == "a"
  {
    TrimStartOfSpaceA();
    assert TrimEnd("a") == "a";
  }

  lemma TrimStartOfSpaceA()
    ensures TrimStart(" a") == "a"
  {
    var s := " a";
    assert s[1..] == "a";
    TrimStartOfA();
  }

  lemma TrimStartOfA()
    ensures TrimStart("a") == "a"
  {
  }

  /** An empty name and a zero price are each reported against their own field. */
  lemma EmptyNameZeroPriceRejected()
    ensures "nombre" in ValidateProducto(Some(ProductoBody(None, Some(""), Some(10.0))))
    ensures "precio" in ValidateProducto(Some(ProductoBody(None, Some("Mouse"), Some(0.0))))
  {
  }
}
