# Product store API: service rules, bearer-token middleware, controller mapping

A Dafny model of the part of the product-store backend that is its own
logic rather than Express or Mongoose plumbing:

- **Product service** (`product_service.dfy`, module `ProductService`). The
  product collection is an abstract table from product id to
  `{userId, name, description, price, createdAt}`. The read queries `index`,
  `myProducts` and `show`, and the two `find*` helpers, are functions over
  the table. The writes `create`, `update` and `destroy` are specified by step
  functions over the state, which is the table plus the next fresh id. Class
  `ProductCollection` carries them out by updating its `rows` map in place.
  The rules:
  - a product name is unique per owner on create;
  - update and destroy need the product to belong to the caller, otherwise
    `PRODUCT_NOT_FOUND`/404;
  - a rename must not collide with a *different* product of the same owner,
    otherwise `PRODUCT_ALREADY_EXISTS`/409;
  - a failed operation leaves the table unchanged.

  The owner type is a type parameter, because the service only compares
  owners for equality. The main theorem is that any sequential run of
  creates, updates and destroys keeps "no owner has two products of one
  name".
- **Bearer-token middleware** (`auth.ts`, module `AuthMiddleware` in
  `auth.dfy`). The token extraction `startsWith("Bearer")` then
  `split(" ")[1]` is written as pure functions. JavaScript's `split` for a
  one-character separator is modelled together with its inverse `join`. The
  middleware's decision is `Authenticate`. `Exchange.ValidateUserToken`
  carries it out step by step on one request/response pair: it either binds
  `res.locals.user` and calls `next` once, or writes an error response
  `{success: false, message}`. `verifyToken` is a parameter. The token
  helper's wrapper, which turns a library failure into `INVALID_TOKEN`/403,
  is `VerifyToken`.
- **Product controller** (`product_controller.dfy`, module
  `ProductController`). `allProducts` and `store` are functions from the
  service outcome to `(status, body)`, and every failure becomes 400. The
  module also wires them to the service: `index` ignores the user it is
  given, and `store` passes the whole decoded identity as owner.

`http.dfy` (module `Http`) holds the shared `Option`, `Result`,
`HttpException(message, statusCode)`, the status codes and the error
messages. The `ErrorMessages` enumeration is not part of this model, so each
message is written as its member name (`"PRODUCT_NOT_FOUND"`, …).

The prefix the code checks is `"Bearer"` with no trailing space, so
`"BearerX abc"` is accepted with token `"abc"`, and `"Bearer  x"` (two
spaces) yields the empty token and is refused with 401.

## Model

| member | source | states |
|---|---|---|
| `ProductService.FindProductByCriteria` | src/services/product.service.ts:60-62 | by name: finds a product iff the owner already has one of that name; by id: finds one iff the id exists and belongs to the owner; the found product matches the filter |
| `ProductService.FindExistingProductByName` | src/services/product.service.ts:64-66 | finds a product iff a product with a different id, the same owner and the given name exists; the product's own id is excluded |
| `ProductService.Index` | src/services/product.service.ts:8-12 | one DTO per stored product (same count, every product listed, no id twice, each DTO that product's fields), ordered by createdAt descending |
| `ProductService.MyProducts` | src/services/product.service.ts:14-18 | exactly the given owner's products, one DTO each, newest first; no other owner's product appears |
| `ProductService.Show` | src/services/product.service.ts:68-76 | 404 PRODUCT_NOT_FOUND iff the id is absent, otherwise that product's DTO; no ownership check |
| `ProductService.CreateStep` | src/services/product.service.ts:20-34 | fails iff the same owner already has that name, then with PRODUCT_ALREADY_EXISTS/409 and an unchanged state; on success adds the payload's product for that owner under the fresh id, keeps every other product, and returns its DTO with the payload's name and description |
| `ProductService.CreateAddsExactlyOne` | src/services/product.service.ts:29-33 | a successful create uses an id not in the table and grows the table by exactly one |
| `ProductService.CreateIgnoresOtherOwners` | src/services/product.service.ts:23-27 | products of other owners with the same name never block a create |
| `ProductService.UpdateStep` | src/services/product.service.ts:36-58 | 404 when the caller does not own the id; 409 only when another product of the owner has the new name; errors leave the state unchanged; success changes name, description and price of that id only; the DTO carries the payload's name, description and price |
| `ProductService.UpdateKeepingNameSucceeds` | src/services/product.service.ts:45-49 | under the invariant, an owner's update that keeps the product's current name is never a conflict |
| `ProductService.UpdateStepAsWritten` | src/services/product.service.ts:51-57 | update as written: the same checks and DTO, but the unexecuted query leaves the table untouched |
| `ProductService.UpdateAsWrittenLosesTheWrite` | src/services/product.service.ts:51-55 | a concrete rename that reports success as written while show still returns the old name, and that the intended update renames |
| `ProductService.DestroyStep` | src/services/product.service.ts:78-86 | fails with 404 and an unchanged state iff the caller does not own the id; on success returns the deleted document, its id together with the stored record, and removes exactly that id |
| `ProductService.CreatePreservesInvariant` | src/services/product.service.ts:23-33 | create keeps "no owner has two products of one name" and all ids below the next fresh id |
| `ProductService.UpdatePreservesInvariant` | src/services/product.service.ts:39-57 | update keeps the same invariant |
| `ProductService.DestroyPreservesInvariant` | src/services/product.service.ts:78-86 | destroy keeps the same invariant |
| `ProductService.RunPreservesInvariant` | src/services/product.service.ts:20-58 | any sequential run of creates, updates and destroys keeps per-owner name uniqueness |
| `ProductService.ProductCollection.Create` | src/services/product.service.ts:20-34 | the in-place create returns and leaves exactly what CreateStep describes, and keeps the invariant |
| `ProductService.ProductCollection.Update` | src/services/product.service.ts:36-58 | the in-place update (write taking effect) matches UpdateStep and keeps the invariant |
| `ProductService.ProductCollection.Destroy` | src/services/product.service.ts:78-86 | the in-place destroy matches DestroyStep and keeps the invariant |
| `AuthMiddleware.Split` | src/middlewares/auth.ts:12 | split(" ") gives at least one field and no field contains the separator |
| `AuthMiddleware.JoinSplit` | src/middlewares/auth.ts:12 | joining the fields of a split gives the header back |
| `AuthMiddleware.SplitJoin` | src/middlewares/auth.ts:12 | splitting a join of separator-free fields gives the fields back |
| `AuthMiddleware.SplitHasSecondField` | src/middlewares/auth.ts:12 | a second field exists iff the string contains the separator |
| `AuthMiddleware.SecondField` | src/middlewares/auth.ts:12 | `split(" ")[1]` is defined iff the string contains a space, and never contains a space |
| `AuthMiddleware.SecondFieldOf` | src/middlewares/auth.ts:12 | the second field of `w + " " + t + rest` is `t` when `w` and `t` hold no space and `rest` is empty or starts with a space |
| `AuthMiddleware.ExtractToken` | src/middlewares/auth.ts:11-13 | a token is extracted iff the header is present, starts with "Bearer" and contains a space; the token holds no space |
| `AuthMiddleware.ExtractsSecondField` | src/middlewares/auth.ts:11-13 | `"Bearer" + w + " " + t + rest` yields exactly `t` |
| `AuthMiddleware.Respond` | src/middlewares/auth.ts:28-33 | error responses have success=false; a missing status becomes 401 and a missing message UNAUTHORIZED_ACCESS; present ones are forwarded |
| `AuthMiddleware.Authenticate` | src/middlewares/auth.ts:7-34 | no or empty token gives 401 UNAUTHENTICATED_USER; a verify failure's status and message are answered; a falsy identity gives 403 INVALID_TOKEN; proceeds iff a non-empty token verifies to an identity, and then with that identity; every rejection has success=false |
| `AuthMiddleware.MissingOrForeignHeaderIs401` | src/middlewares/auth.ts:11-16 | a missing header, or one not starting with "Bearer", gives 401 UNAUTHENTICATED_USER whatever verifyToken does |
| `AuthMiddleware.BearerEdgeCases` | src/middlewares/auth.ts:11-16 | "Bearer", "BearerX" give no token and "Bearer  x" the empty one, all answered 401; "Bearer abc" and "BearerX abc" yield "abc" |
| `AuthMiddleware.VerifyToken` | src/utils/helpers/jwt.ts:13-19 | fails iff the library rejects the token, and then with INVALID_TOKEN/403; otherwise returns what the library decoded |
| `AuthMiddleware.RejectedTokenIs403` | src/middlewares/auth.ts:19-23 | with the token helper, a rejected or falsy-decoding token is answered 403 INVALID_TOKEN |
| `AuthMiddleware.AcceptedTokenProceeds` | src/middlewares/auth.ts:19-27 | with the token helper, an accepted token proceeds with exactly the decoded identity |
| `AuthMiddleware.Exchange.ValidateUserToken` | src/middlewares/auth.ts:7-34 | on success sets res.locals.user to the decoded identity and calls next exactly once without writing a response; otherwise writes the error response and does not call next |
| `ProductController.AllProductsResponse` | src/controllers/product.controller.ts:5-17 | success gives 200 {success:true, data}; any error gives 400 {success:false, error: message}; success flag iff the service succeeded |
| `ProductController.StoreResponse` | src/controllers/product.controller.ts:19-31 | success gives 201 with the created DTO; any error gives 400 with its message; success flag iff the service succeeded |
| `ProductController.FailuresAre400` | src/controllers/product.controller.ts:25-30 | every failure of either handler is 400, so a thrown status other than 400 is never forwarded |
| `ProductController.AllProducts` | src/controllers/product.controller.ts:5-10 | responds 200 and its data lists every product, newest first |
| `ProductController.AllProductsIgnoresUser` | src/controllers/product.controller.ts:9 | the caller's identity does not change the response, whose data is the index result |
| `ProductController.Store` | src/controllers/product.controller.ts:19-24 | a name the caller already uses gives 400 with PRODUCT_ALREADY_EXISTS and an unchanged state; a fresh name gives 201 with the new product's DTO carrying the request's name and description, a new row at the next id owned by the decoded identity, and every other row unchanged |
| `ProductController.StoreConflictIs400` | src/controllers/product.controller.ts:25-30 | a name the caller already uses: create fails with 409, the client gets 400 with PRODUCT_ALREADY_EXISTS, and the table is unchanged |
| `ProductController.StoreCreatesOwnedProduct` | src/controllers/product.controller.ts:21-24 | a fresh name is answered 201 with the payload's name and description, and the new product's owner is the whole decoded identity |

## Left out

- JWT signing, verification and expiry, and `generateToken` and
  `randomTokenString` (src/utils/helpers/jwt.ts) are left out. They depend
  on the jsonwebtoken and crypto libraries. The library's verify is a
  parameter of `VerifyToken`. The decoded identity is modelled as
  `{id, email}`; the registered claims `iat` and `exp` are not modelled.
  `StoreConflictIs400` and `StoreCreatesOwnedProduct` rest on this: two
  decodes of the same user's tokens count as the same owner, and the store
  is taken to accept the decoded object as `userId`. The product schema
  (src/models/product.model.ts) is not part of this model, so the declared
  type of `userId` is not known here.
- Mongoose query semantics are modelled only through the abstract table:
  - ids are naturals handed out by a counter;
  - `findOne` returns the smallest matching id, where the store's own choice
    is unspecified;
  - index ordering among equal `createdAt` values is one fixed choice, which
    no contract depends on;
  - cast errors for malformed ids, casting the identity object into the
    `userId` field, and store failures are not modelled.
- `AllProducts`: `index` cannot fail in the model, because store failures
  are not modelled. So the wired handler only takes the 200 path, and the
  400 path is stated on `AllProductsResponse`.
- `UpdateStep`: states the intended effect of `findByIdAndUpdate`. It does
  not claim that the returned DTO's id and createdAt come from the stored
  record. They are read off an unawaited query object, so the DTO leaves
  them absent. See the Findings below.
- `createdAt` comes from the database's timestamps. The model takes it as a
  parameter (`now`), because a clock is I/O.
- Prices are JavaScript numbers, which are floating point. The model uses
  integers, and no price is validated, as in the source.
- The HTTP request and response objects, async/await, `console.log` at
  src/services/product.service.ts:31, and writing the JSON are left out.
- The middleware's `try` also covers a synchronous throw from `next()`.
  `next` is modelled only as a call counter, so such a throw is not modelled.
- Concurrency is left out. The read-then-write uniqueness check is racy under
  concurrent requests, so the invariant is proved for sequential runs only.
- src/repositories/product.repository.ts is not used by the service, so it
  is not part of this model. Its `findUserProducts` ignores its `userId`.
- Registration and login, which tests/e2e/auth.controller.spec.ts exercises,
  are not part of this model. Their source is not available.

## Findings

| source | as written | input that shows it | evidently intended | confidence | as-written member | corrected member |
|---|---|---|---|---|---|---|
| src/services/product.service.ts:51-57 | `findByIdAndUpdate(...)` is neither awaited nor executed. A Mongoose query runs only when it is awaited or executed, so no write is sent. The DTO is then built from the query object's `_id` and `createdAt` | product 0 of owner 7 named "old"; update(0, {name: "new", …}, 7) reports success, yet show(0) still returns "old" | await the update so that the record is renamed | not executed; follows from Mongoose's lazy queries | `ProductService.UpdateAsWrittenLosesTheWrite` | `ProductService.UpdateStep` |
