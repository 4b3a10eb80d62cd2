# Product REST controller, modelled in Dafny

This project models `ProductoController`, the REST controller of the product
backend (`/api/productos`). The controller validates request bodies, guards
path ids, and reads and changes a product store. The store is a
`map<int, Producto>` from id to product. Every handler gives back a status code
(200, 201, 400 or 404) and a payload.

Modules:

- `Text` (`text.dfy`): the Java string operations the controller uses.
  `trim()` drops leading and trailing characters up to U+0020. Lower-casing
  changes ASCII letters only. `contains` finds a contiguous block.
- `Optional`, `Catalog` (`catalog.dfy`): the stored entity
  `Producto(id, nombre, precio)`. The request body `ProductoBody`, whose
  fields may be null. The acceptance rules for name and price.
- `Validation` (`validation.dfy`): `validateProducto` as a function. It returns
  a map from field name to error, with at most one entry per field.
- `Search` (`search.dfy`): the case-insensitive name filter used by search.
- `Api` (`api.dfy`): each handler as a function from the store and the request
  to an `Outcome`, which holds the response and the new store. The batch
  delete loop is the function `DeleteEach`. The lemmas here relate handlers to
  each other and to the store invariant.
- `Controller` (`controller.dfy`): the class `ProductoController`. It has a
  `store` field and one method per endpoint. Each method is proved to produce
  exactly the outcome of its `Api` function. The batch delete is a `for` loop
  whose invariant is stated through `DeleteEach`.

The store invariant `StoreInvariant` says three things about every key: it is
positive, it equals its record's `id`, and the record would pass validation.
Create, update, delete and batch delete each keep it.

Three details of the code are kept exactly as written:

- The name length check counts the untrimmed name. Only the blank check trims.
  So `" a"` is accepted although its trimmed length is 1. A rule of "trimmed
  length 2 to 100" would reject it; the code does not, and neither does the model.
- Search trims the term only to test whether it is blank. Matching uses the
  raw term, so `" abc"` does not find `"abcdef"`.
- In a batch delete, a repeated id is counted as deleted the first time and as
  not found after that.

## Model

| member | source | states |
|---|---|---|
| Text.TrimEmptyIffBlank | product-backend/src/main/java/com/ronaldfrengifo/product_backend/controller/ProductoController.java:349 | `trim()` leaves an empty string exactly when every character is at most U+0020. This is the blank test used for names and search terms |
| Text.ContainsLowered | product-backend/src/main/java/com/ronaldfrengifo/product_backend/controller/ProductoController.java:319 | an occurrence of the term stays an occurrence after both sides are lower-cased |
| Catalog.WithId | product-backend/src/main/java/com/ronaldfrengifo/product_backend/controller/ProductoController.java:160-162 | the saved record carries the given id and the body's name and price, and would pass validation again |
| Catalog.ValidNombreSurvivesTrim | product-backend/src/main/java/com/ronaldfrengifo/product_backend/controller/ProductoController.java:349-355 | an accepted name is non-empty after `trim()` and has raw length 2 to 100 |
| Validation.NombreError | product-backend/src/main/java/com/ronaldfrengifo/product_backend/controller/ProductoController.java:349-355 | no name error exactly when the name is accepted. "Required" exactly when the name is null or blank. "Too short" and "too long" only for a non-blank name of raw length below 2 or above 100 |
| Validation.PrecioError | product-backend/src/main/java/com/ronaldfrengifo/product_backend/controller/ProductoController.java:357-363 | no price error exactly when the price is present and 0 < price <= 999999.99. Each failing case has its own reason |
| Validation.ValidateProducto | product-backend/src/main/java/com/ronaldfrengifo/product_backend/controller/ProductoController.java:341-366 | a null body gives only the key "producto". Otherwise the keys are a subset of {nombre, precio}. Each key is absent exactly when its field is accepted. The map is empty exactly when the body is valid |
| Validation.NullBodyHasOneError | product-backend/src/main/java/com/ronaldfrengifo/product_backend/controller/ProductoController.java:344-347 | a null body yields exactly one error, under "producto" |
| Validation.UntrimmedLengthIsChecked | product-backend/src/main/java/com/ronaldfrengifo/product_backend/controller/ProductoController.java:349-353 | `" a"` trims to one character yet passes, because the length check counts the raw name |
| Validation.EmptyNameZeroPriceRejected | product-backend/src/main/java/com/ronaldfrengifo/product_backend/controller/ProductoController.java:349-360 | an empty name is reported under "nombre". A zero price is reported under "precio" |
| Search.FilterByNombre | product-backend/src/main/java/com/ronaldfrengifo/product_backend/controller/ProductoController.java:318-320 | the result is an order-preserving subsequence of the listing. A record is in it exactly when it is listed and its lower-cased name contains the lower-cased term |
| Search.FilterKeepsAllMatching | product-backend/src/main/java/com/ronaldfrengifo/product_backend/controller/ProductoController.java:318-320 | a listing whose records all match is returned whole, in the same order |
| Search.FilterDistributes | product-backend/src/main/java/com/ronaldfrengifo/product_backend/controller/ProductoController.java:318-320 | filtering a concatenation gives the two filtered parts, concatenated in order |
| Search.CaseInsensitiveMatch | product-backend/src/main/java/com/ronaldfrengifo/product_backend/controller/ProductoController.java:319 | the term "abc" matches the name "ABCdef" |
| Search.UntrimmedTermIsMatched | product-backend/src/main/java/com/ronaldfrengifo/product_backend/controller/ProductoController.java:311-319 | the raw term " abc" does not match "abcdef", because the term is not trimmed before matching |
| Api.EnumerationCoversStore | product-backend/src/main/java/com/ronaldfrengifo/product_backend/controller/ProductoController.java:30-38 | a listing of the store has as many rows as the store has keys, and holds exactly the stored records |
| Api.ListResponse | product-backend/src/main/java/com/ronaldfrengifo/product_backend/controller/ProductoController.java:28-40 | list answers 200. `total`, `count` and the length of the data all equal the number of stored products. Row i is the record under the i-th key of a listing that names each key once, so the data holds exactly the stored records, and under the store invariant no record appears twice |
| Api.GetByIdResponse | product-backend/src/main/java/com/ronaldfrengifo/product_backend/controller/ProductoController.java:57-79 | id <= 0 gives 400. Otherwise 404 exactly when the id is absent, and 200 with the stored record exactly when it is present |
| Api.PutKeepsInvariant | product-backend/src/main/java/com/ronaldfrengifo/product_backend/controller/ProductoController.java:160-162 | storing a valid record under its own positive id keeps the store invariant |
| Api.CreateOutcome | product-backend/src/main/java/com/ronaldfrengifo/product_backend/controller/ProductoController.java:97-114 | 201 exactly when the body is valid. Otherwise 400 with the error map, and the store is unchanged. On success exactly one new key holds the body's name and price, other entries are unchanged, and the invariant is kept |
| Api.UpdateOutcome | product-backend/src/main/java/com/ronaldfrengifo/product_backend/controller/ProductoController.java:132-169 | precedence: bad id (400) before bad data (400) before missing record (404), each with the store unchanged. On success only `store[id]` changes. It gets the body's fields with the path id. The invariant is kept |
| Api.DeleteOutcome | product-backend/src/main/java/com/ronaldfrengifo/product_backend/controller/ProductoController.java:186-209 | bad id gives 400, a missing id gives 404, and the store is unchanged in both. Otherwise exactly that key is removed and the prior record is returned |
| Api.DeleteEachStore | product-backend/src/main/java/com/ronaldfrengifo/product_backend/controller/ProductoController.java:235-242 | after the loop the store is the old store minus every listed id |
| Api.DeleteEachCounts | product-backend/src/main/java/com/ronaldfrengifo/product_backend/controller/ProductoController.java:232-242 | each listed id adds exactly one to either `eliminados` or `noEncontrados` |
| Api.DeleteEachEliminados | product-backend/src/main/java/com/ronaldfrengifo/product_backend/controller/ProductoController.java:235-241 | `eliminados` is the number of distinct listed ids that were in the store |
| Api.BatchDeleteOutcome | product-backend/src/main/java/com/ronaldfrengifo/product_backend/controller/ProductoController.java:225-251 | an empty list gives 400 with no change. Otherwise `eliminados + noEncontrados == totalProcesados`, which is the length of the list, no listed id remains, unlisted records are untouched, and the invariant is kept |
| Api.StatsResponse | product-backend/src/main/java/com/ronaldfrengifo/product_backend/controller/ProductoController.java:267-289 | `totalProductos` is the number of stored products |
| Api.SearchResponse | product-backend/src/main/java/com/ronaldfrengifo/product_backend/controller/ProductoController.java:311-327 | a blank term, and only a blank one, gives 400. Otherwise 200 echoing the raw term. The data is `FilterByNombre` of the listing, so `FilterDistributes` and `FilterKeepsAllMatching` apply to it: the order-preserving sublist of matching records. `total` is its length |
| Api.CreateThenGet | product-backend/src/main/java/com/ronaldfrengifo/product_backend/controller/ProductoController.java:107-112 | after a valid create, get-by-id on the new id answers 200 with the body's name and price |
| Api.DeleteThenGet | product-backend/src/main/java/com/ronaldfrengifo/product_backend/controller/ProductoController.java:193-207 | after a successful delete, get-by-id on the same id answers 404 |
| Api.BatchDeleteThenGet | product-backend/src/main/java/com/ronaldfrengifo/product_backend/controller/ProductoController.java:235-242 | after a batch delete, every listed positive id answers 404 |
| Api.RepeatedIdCountedTwice | product-backend/src/main/java/com/ronaldfrengifo/product_backend/controller/ProductoController.java:235-241 | deleting `[x, x]` with x present counts one deleted, one not found, two processed |
| Api.ExistingAndMissing | product-backend/src/main/java/com/ronaldfrengifo/product_backend/controller/ProductoController.java:232-249 | one present and one absent id: one deleted, one not found, two processed |
| Controller.ProductoController.FindAll | product-backend/src/main/java/com/ronaldfrengifo/product_backend/controller/ProductoController.java:30 | returns every stored record once, in an order the repository picks. The order is returned as a ghost value |
| Controller.ProductoController.GetAllProductos | product-backend/src/main/java/com/ronaldfrengifo/product_backend/controller/ProductoController.java:28-47 | answers `ListResponse` for the listing it read, so `total`, `count` and the number of rows all equal the store size, and each stored record appears once |
| Controller.ProductoController.GetProductoById | product-backend/src/main/java/com/ronaldfrengifo/product_backend/controller/ProductoController.java:55-87 | answers exactly `GetByIdResponse` |
| Controller.ProductoController.CreateProducto | product-backend/src/main/java/com/ronaldfrengifo/product_backend/controller/ProductoController.java:94-122 | response and new store are `CreateOutcome` for a fresh positive id chosen by the store. The invariant is kept |
| Controller.ProductoController.UpdateProducto | product-backend/src/main/java/com/ronaldfrengifo/product_backend/controller/ProductoController.java:129-177 | response and new store are `UpdateOutcome`. The invariant is kept |
| Controller.ProductoController.DeleteProducto | product-backend/src/main/java/com/ronaldfrengifo/product_backend/controller/ProductoController.java:184-216 | response and new store are `DeleteOutcome`. The invariant is kept |
| Controller.ProductoController.DeleteProductos | product-backend/src/main/java/com/ronaldfrengifo/product_backend/controller/ProductoController.java:223-258 | the counting loop yields exactly `BatchDeleteOutcome`. The invariant is kept |
| Controller.ProductoController.GetProductoStats | product-backend/src/main/java/com/ronaldfrengifo/product_backend/controller/ProductoController.java:265-302 | answers `StatsResponse` |
| Controller.ProductoController.SearchProductos | product-backend/src/main/java/com/ronaldfrengifo/product_backend/controller/ProductoController.java:309-336 | a blank term gives 400. Otherwise it answers `SearchResponse` over a listing of the store. The data holds exactly the stored records whose name matches |

## Left out

- Statistics: the average, minimum and maximum price and the rounding of the average are floating-point computations. Only `totalProductos` is modelled.
- The 500 responses from the `catch (Exception e)` blocks are not modelled. The store is total and never fails. This also covers `existsById(null)` for a null element of a batch list.
- HTTP and Spring plumbing is not modelled: `ResponseEntity`, annotations, CORS, and the `success`/`message` envelope fields with their Spanish texts. A response is a status code plus a payload. Errors carry a reason, not a message.
- The service and repository are not part of this model. The store is an abstract map. `findAll()` returns the records in an unspecified order. `save` on create gives the record a fresh positive id.
- CreateOutcome: a body that already carries an id is still stored as a new record under a fresh id. The entity and the repository's merge behaviour are not part of this model.
- Prices are `real`. Java `Double` rounding, NaN and infinities are not modelled. `999999.99` is taken as the exact decimal.
- Lower-casing changes ASCII letters only; Java's Unicode `toLowerCase` is not modelled. Lengths count Dafny characters, not UTF-16 code units.
- Path ids are integers. Spring never passes a null path variable, so the `id == null` guards are not modelled. A null batch list is not modelled apart from the empty one. A null search parameter is not modelled either.
- DeleteProductos: the `int` counters are unbounded integers, so overflow past 2^31 ids is not modelled.
- Batch delete is modelled as a sequential loop. Concurrent requests and the lack of atomicity under faults are not modelled.
- The Angular frontend files hold UI components, routing and a fixed sample list, with no logic to model.
