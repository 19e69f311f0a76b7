/** The product controller: each handler maps what the service returned, or
    the error it threw, to a status code and a JSON body.  Writing the
    response is left to the caller; a handler here is the function from the
    service outcome to the (status, body) pair it would write. */
module ProductController {
  import opened Http
  import opened ProductService
  import AuthMiddleware

  /** The JSON bodies the two handlers write. */
  datatype Body =
    | ProductList(success: bool, data: seq<ProductDto>)
    | ProductItem(success: bool, item: ProductDto)
    | Failure(success: bool, error: string)

  datatype Response = Response(status: nat, body: Body)

  /** allProducts' try/catch: 200 with the list, or 400 with the message. */
  function AllProductsResponse(outcome: Result<seq<ProductDto>, HttpException>): (r: Response)
    ensures r.body.success <==> outcome.Ok?
    ensures outcome.Ok? ==> r == Response(OK, ProductList(true, outcome.value))
    ensures outcome.Err? ==> r == Response(BAD_REQUEST, Failure(false, outcome.error.message))
  {
    match outcome
    case Ok(products) => Response(OK, ProductList(true, products))
    case Err(e) => Response(BAD_REQUEST, Failure(false, e.message))
  }

  /** store's try/catch: 201 with the created DTO, or 400 with the message,
      whatever status the error carried. */
  function StoreResponse(outcome: Result<ProductDto, HttpException>): (r: Response)
    ensures r.body.success <==> outcome.Ok?
    ensures outcome.Ok? ==> r == Response(CREATED, ProductItem(true, outcome.value))
    ensures outcome.Err? ==> r == Response(BAD_REQUEST, Failure(false, outcome.error.message))
  {
    match outcome
    case Ok(dto) => Response(CREATED, ProductItem(true, dto))
    case Err(e) => Response(BAD_REQUEST, Failure(false, e.message))
  }

  /** No failure of either handler forwards the status the error carried. */
  lemma FailuresAre400(e: HttpException)
    ensures AllProductsResponse(Err(e)).status == BAD_REQUEST
    ensures StoreResponse(Err(e)).status == BAD_REQUEST
    ensures e.statusCode != BAD_REQUEST ==> StoreResponse(Err(e)).status != e.statusCode
  {
  }

  /** allProducts wired to the service: index is handed res.locals.user but
      takes no argument, so every product is listed, whoever asks. */
  function AllProducts<U>(t: Table<U>, user: AuthMiddleware.Claims): (r: Response)
    ensures r.status == OK && r.body.ProductList? && r.body.success
    ensures IsListingOf(t, r.body.data)
  {
    AllProductsResponse(Ok(Index(t)))
  }

  /** The identity of the caller does not change what allProducts returns. */
  lemma AllProductsIgnoresUser<U>(t: Table<U>, a: AuthMiddleware.Claims, b: AuthMiddleware.Claims)
    ensures AllProducts(t, a) == AllProducts(t, b)
    ensures AllProducts(t, a).body.data == Index(t)
  {
  }

  /** store wired to the service: create is called with the request body and
      with the whole decoded identity from res.locals.user as owner.  A name
      the caller already uses is answered 400 and leaves the table alone; a
      fresh one is answered 201 with the new product's DTO, and that product
      is owned by the identity. */
  function Store(s: State<AuthMiddleware.Claims>, body: Payload, user: AuthMiddleware.Claims, now: int): (o: (Response, State<AuthMiddleware.Claims>))
    ensures NameTaken(s.rows, body.name, user) ==>
              o == (Response(BAD_REQUEST, Failure(false, PRODUCT_ALREADY_EXISTS)), s)
    ensures !NameTaken(s.rows, body.name, user) ==>
              && o.0 == Response(CREATED, ProductItem(true, ToDto(s.nextId, NewProduct(body, user, now))))
              && o.0.body.item.name == body.name
              && o.0.body.item.description == body.description
              && s.nextId in o.1.rows
              && o.1.rows[s.nextId].userId == user
              && (forall k :: k in s.rows && k != s.nextId ==> k in o.1.rows && o.1.rows[k] == s.rows[k])
  {
    var step := CreateStep(s, body, user, now);
    (StoreResponse(step.result), step.state)
  }

  /** A name the caller already uses: the service throws 409, the client sees
      400 with PRODUCT_ALREADY_EXISTS, and the table is unchanged. */
  lemma StoreConflictIs400(s: State<AuthMiddleware.Claims>, body: Payload, user: AuthMiddleware.Claims, now: int)
    requires NameTaken(s.rows, body.name, user)
    ensures CreateStep(s, body, user, now).result == Err(HttpException(PRODUCT_ALREADY_EXISTS, 409))
    ensures Store(s, body, user, now) == (Response(400, Failure(false, PRODUCT_ALREADY_EXISTS)), s)
  {
  }

  /** A fresh name: 201 with a DTO carrying the request's name and
      description, and the new product is owned by the whole identity. */
  lemma StoreCreatesOwnedProduct(s: State<AuthMiddleware.Claims>, body: Payload, user: AuthMiddleware.Claims, now: int)
    requires !NameTaken(s.rows, body.name, user)
    ensures var (resp, s') := Store(s, body, user, now);
            && resp.status == 201
            && resp.body.ProductItem? && resp.body.success
            && resp.body.item.name == body.name
            && resp.body.item.description == body.description
            && s.nextId in s'.rows && s'.rows[s.nextId].userId == user
  {
  }
}
