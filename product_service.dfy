/** The product service: the business rules over the product collection.

    The collection is an abstract table from product id to record.  The
    read-only queries (index, myProducts, show and the two find helpers) are
    functions over the table.  The three writes (create, update, destroy) are
    specified by step functions over the state (table plus the next fresh id)
    and carried out by the methods of ProductCollection, which update the
    table in place.  The owner type U is left open: the service only ever
    compares owners for equality, and its callers decide what an owner is. */
module ProductService {
  import opened Http

  type ProductId = nat

  /** A stored product document. */
  datatype Product<U> = Product(userId: U, name: string, description: string, price: int, createdAt: int)

  /** The fields of a create or update request that the service reads. */
  datatype Payload = Payload(name: string, description: string, price: int)

  /** The output shape.  The id and the creation time are optional because the
      update path does not read them off a stored record. */
  datatype ProductDto = ProductDto(id: Option<ProductId>, name: string, description: string, price: int, createdAt: Option<int>)

  type Table<U> = map<ProductId, Product<U>>

  /** The collection together with the id the store will hand to the next
      created document. */
  datatype State<U> = State(rows: Table<U>, nextId: ProductId)

  /** What a write operation returns, and the state it leaves behind. */
  datatype Step<U, T> = Step(result: Result<T, HttpException>, state: State<U>)

  /** The two filters the service passes to findProductByCriteria. */
  datatype Criteria<U> = ByName(name: string, userId: U) | ById(id: ProductId, userId: U)

  predicate Matches<U(==)>(k: ProductId, p: Product<U>, c: Criteria<U>)
  {
    match c
    case ByName(name, u) => p.name == name && p.userId == u
    case ById(id, u) => k == id && p.userId == u
  }

  /** Product `id` exists and belongs to `u`. */
  predicate Owns<U(==)>(t: Table<U>, id: ProductId, u: U)
  {
    id in t && t[id].userId == u
  }

  /** Some product of `u` is called `name`. */
  predicate NameTaken<U(==)>(t: Table<U>, name: string, u: U)
  {
    exists k :: k in t && t[k].userId == u && t[k].name == name
  }

  /** Some product of `u` other than `id` is called `name`. */
  predicate NameTakenByOther<U(==)>(t: Table<U>, name: string, u: U, id: ProductId)
  {
    exists k :: k in t && k != id && t[k].userId == u && t[k].name == name
  }

  /** The invariant the writes keep: no owner has two products of one name. */
  predicate NamesUniquePerOwner<U(==)>(t: Table<U>)
  {
    forall j, k :: j in t && k in t && j != k && t[j].userId == t[k].userId ==> t[j].name != t[k].name
  }

  /** Every stored id is below the next fresh id. */
  predicate IdsBelow<U>(s: State<U>)
  {
    forall k :: k in s.rows ==> k < s.nextId
  }

  predicate Invariant<U(==)>(s: State<U>)
  {
    NamesUniquePerOwner(s.rows) && IdsBelow(s)
  }

  // ---------------------------------------------------------------------
  // Choosing one document among several matches

  /** `m` is the smallest element of `s`. */
  predicate IsLeast(m: ProductId, s: set<ProductId>)
  {
    m in s && forall x :: x in s ==> m <= x
  }

  lemma {:induction false} LeastExists(s: set<ProductId>)
    requires s != {}
    ensures exists m :: IsLeast(m, s)
  {
    var y :| y in s;
    if s == {y} {
      assert IsLeast(y, s);
    } else {
      LeastExists(s - {y});
      var m :| IsLeast(m, s - {y});
      var least := if y < m then y else m;
      forall x | x in s
        ensures least <= x
      {
        if x != y {
          assert x in s - {y};
        }
      }
      assert IsLeast(least, s);
    }
  }

  /** The smallest id of a non-empty set: the model's deterministic stand-in
      for whichever match the store's findOne happens to return. */
  function Least(s: set<ProductId>): (m: ProductId)
    requires s != {}
    ensures m in s && forall x :: x in s ==> m <= x
  {
    LeastExists(s);
    var m :| IsLeast(m, s);
    m
  }

  // ---------------------------------------------------------------------
  // Read-only queries

  /** findOne(criteria): some product matching the filter, if there is one. */
  function FindProductByCriteria<U(==)>(t: Table<U>, c: Criteria<U>): (r: Option<ProductId>)
    ensures c.ByName? ==> (r.Some? <==> NameTaken(t, c.name, c.userId))
    ensures c.ById? ==> (r.Some? <==> Owns(t, c.id, c.userId))
    ensures r.Some? ==> r.value in t && Matches(r.value, t[r.value], c)
  {
    var found := set k | k in t && Matches(k, t[k], c);
    assert forall k :: k in t && Matches(k, t[k], c) ==> k in found;
    if found == {} then None else Some(Least(found))
  }

  /** findOne({_id: {$ne: id}, name, userId}): a different product of the same
      owner with the given name, if there is one. */
  function FindExistingProductByName<U(==)>(t: Table<U>, id: ProductId, name: string, u: U): (r: Option<ProductId>)
    ensures r.Some? <==> NameTakenByOther(t, name, u, id)
    ensures r.Some? ==> r.value in t && r.value != id && t[r.value].userId == u && t[r.value].name == name
  {
    var found := set k | k in t && k != id && t[k].userId == u && t[k].name == name;
    assert forall k :: k in t && k != id && t[k].userId == u && t[k].name == name ==> k in found;
    if found == {} then None else Some(Least(found))
  }

  /** The DTO the service builds from a stored product. */
  function ToDto<U>(id: ProductId, p: Product<U>): ProductDto
  {
    ProductDto(Some(id), p.name, p.description, p.price, Some(p.createdAt))
  }

  predicate Distinct(ks: seq<ProductId>)
  {
    forall i, j :: 0 <= i < j < |ks| ==> ks[i] != ks[j]
  }

  /** The ids in `ks` are ordered by creation time, newest first. */
  predicate NewestFirst<U>(t: Table<U>, ks: seq<ProductId>)
  {
    forall i, j :: 0 <= i < j < |ks| && ks[i] in t && ks[j] in t ==> t[ks[i]].createdAt >= t[ks[j]].createdAt
  }

  /** Insert `k` in front of the first id that is not newer than it. */
  function InsertByDate<U>(t: Table<U>, k: ProductId, ks: seq<ProductId>): (r: seq<ProductId>)
    requires k in t && forall x :: x in ks ==> x in t
    ensures |r| == |ks| + 1
    ensures forall x :: x in r <==> x == k || x in ks
    ensures Distinct(ks) && k !in ks ==> Distinct(r)
    ensures NewestFirst(t, ks) ==> NewestFirst(t, r)
    decreases |ks|
  {
    if ks == [] || t[k].createdAt >= t[ks[0]].createdAt then
      assert NewestFirst(t, ks) ==> forall x :: x in ks ==> t[k].createdAt >= t[x].createdAt;
      [k] + ks
    else
      var tail := ks[1..];
      var rest := InsertByDate(t, k, tail);
      assert forall x :: x in tail ==> x in ks;
      assert Distinct(ks) ==> Distinct(tail) && ks[0] !in tail;
      assert NewestFirst(t, ks) ==> NewestFirst(t, tail) && forall x :: x in tail ==> t[ks[0]].createdAt >= t[x].createdAt;
      [ks[0]] + rest
  }

  /** The ids of `ids`, each once, newest first. */
  function OrderedIds<U>(t: Table<U>, ids: set<ProductId>): (ks: seq<ProductId>)
    requires ids <= t.Keys
    ensures |ks| == |ids|
    ensures forall x :: x in ks <==> x in ids
    ensures Distinct(ks)
    ensures NewestFirst(t, ks)
    decreases ids
  {
    if ids == {} then []
    else
      var k := Least(ids);
      var rest := OrderedIds(t, ids - {k});
      assert |ids - {k}| == |ids| - 1;
      InsertByDate(t, k, rest)
  }

  /** `d` is the DTO of a product of `t`, under that product's id. */
  predicate Describes<U>(t: Table<U>, d: ProductDto)
  {
    d.id.Some? && d.id.value in t && d == ToDto(d.id.value, t[d.id.value])
  }

  /** `r` lists every product of `t` exactly once, as its DTO, newest first. */
  ghost predicate IsListingOf<U>(t: Table<U>, r: seq<ProductDto>)
  {
    && |r| == |t|
    && (forall i :: 0 <= i < |r| ==> Describes(t, r[i]))
    && (forall k :: k in t ==> ToDto(k, t[k]) in r)
    && (forall i, j :: 0 <= i < j < |r| ==> r[i].id != r[j].id)
    && (forall i, j :: 0 <= i < j < |r| ==> r[i].createdAt.Some? && r[j].createdAt.Some? && r[i].createdAt.value >= r[j].createdAt.value)
  }

  lemma DtosListTable<U>(t: Table<U>, ks: seq<ProductId>, r: seq<ProductDto>)
    requires forall x :: x in ks <==> x in t
    requires |ks| == |t| && Distinct(ks) && NewestFirst(t, ks)
    requires |r| == |ks| && forall i :: 0 <= i < |r| ==> r[i] == ToDto(ks[i], t[ks[i]])
    ensures IsListingOf(t, r)
  {
    forall k | k in t
      ensures ToDto(k, t[k]) in r
    {
      assert k in ks;
      var i :| 0 <= i < |ks| && ks[i] == k;
      assert r[i] == ToDto(k, t[k]);
    }
    forall i, j | 0 <= i < j < |r|
      ensures r[i].id != r[j].id
      ensures r[i].createdAt.Some? && r[j].createdAt.Some? && r[i].createdAt.value >= r[j].createdAt.value
    {
      assert ks[i] in ks && ks[j] in ks;
    }
  }

  /** find().sort({createdAt: 'desc'}) mapped to DTOs: every product. */
  function Index<U>(t: Table<U>): (r: seq<ProductDto>)
    ensures IsListingOf(t, r)
  {
    var ks := OrderedIds(t, t.Keys);
    var r := seq(|ks|, i requires 0 <= i < |ks| => ToDto(ks[i], t[ks[i]]));
    DtosListTable(t, ks, r);
    r
  }

  /** The products of one owner. */
  function OwnedBy<U(==)>(t: Table<U>, u: U): (o: Table<U>)
    ensures forall k :: k in o <==> Owns(t, k, u)
    ensures forall k :: k in o ==> k in t && o[k] == t[k]
  {
    map k | k in t && t[k].userId == u :: t[k]
  }

  /** find({userId}).sort({createdAt: 'desc'}) mapped to DTOs: exactly the
      products of `u`. */
  function MyProducts<U(==)>(t: Table<U>, u: U): (r: seq<ProductDto>)
    ensures IsListingOf(OwnedBy(t, u), r)
    ensures forall i :: 0 <= i < |r| ==> Describes(t, r[i]) && Owns(t, r[i].id.value, u)
    ensures forall k :: Owns(t, k, u) ==> ToDto(k, t[k]) in r
  {
    Index(OwnedBy(t, u))
  }

  /** findById(id): the product's DTO, whoever owns it. */
  function Show<U>(t: Table<U>, id: ProductId): (r: Result<ProductDto, HttpException>)
    ensures r.Err? <==> id !in t
    ensures r.Err? ==> r.error == NotFound
    ensures r.Ok? ==> r.value == ToDto(id, t[id])
  {
    if id in t then Ok(ToDto(id, t[id])) else Err(NotFound)
  }

  // ---------------------------------------------------------------------
  // Writes, as functions of the state

  /** The document create inserts. */
  function NewProduct<U>(payload: Payload, u: U, now: int): Product<U>
  {
    Product(u, payload.name, payload.description, payload.price, now)
  }

  /** create(payload, userId) at time `now`. */
  function CreateStep<U(==)>(s: State<U>, payload: Payload, userId: U, now: int): (o: Step<U, ProductDto>)
    ensures o.result.Err? <==> NameTaken(s.rows, payload.name, userId)
    ensures o.result.Err? ==> o.result.error == AlreadyExists && o.state == s
    ensures o.result.Ok? ==>
      && o.state.rows.Keys == s.rows.Keys + {s.nextId}
      && o.state.rows[s.nextId] == NewProduct(payload, userId, now)
      && (forall k :: k in s.rows && k != s.nextId ==> o.state.rows[k] == s.rows[k])
      && o.state.nextId == s.nextId + 1
    ensures o.result.Ok? ==>
      && o.result.value.name == payload.name
      && o.result.value.description == payload.description
      && o.result.value == ToDto(s.nextId, o.state.rows[s.nextId])
  {
    match FindProductByCriteria(s.rows, ByName(payload.name, userId))
    case Some(_) => Step(Err(AlreadyExists), s)
    case None =>
      var created := NewProduct(payload, userId, now);
      var dto := ProductDto(Some(s.nextId), payload.name, payload.description, created.price, Some(created.createdAt));
      Step(Ok(dto), State(s.rows[s.nextId := created], s.nextId + 1))
  }

  /** The table after the intended effect of findByIdAndUpdate. */
  function Updated<U>(t: Table<U>, id: ProductId, payload: Payload): Table<U>
    requires id in t
  {
    t[id := t[id].(name := payload.name, description := payload.description, price := payload.price)]
  }

  /** The DTO update returns: built from the payload; its id and creation time
      are not taken from the stored record. */
  function UpdateDto(payload: Payload): ProductDto
  {
    ProductDto(None, payload.name, payload.description, payload.price, None)
  }

  /** update(id, payload, userId), with the write taking effect as intended. */
  function UpdateStep<U(==)>(s: State<U>, id: ProductId, payload: Payload, userId: U): (o: Step<U, ProductDto>)
    ensures !Owns(s.rows, id, userId) ==> o.result == Err(NotFound)
    ensures Owns(s.rows, id, userId) && NameTakenByOther(s.rows, payload.name, userId, id) ==> o.result == Err(AlreadyExists)
    ensures o.result.Ok? <==> Owns(s.rows, id, userId) && !NameTakenByOther(s.rows, payload.name, userId, id)
    ensures o.result.Err? ==> o.state == s
    ensures o.result.Ok? ==>
      && o.state.nextId == s.nextId
      && o.state.rows.Keys == s.rows.Keys
      && o.state.rows[id].userId == s.rows[id].userId
      && o.state.rows[id].createdAt == s.rows[id].createdAt
      && o.state.rows[id].name == payload.name
      && o.state.rows[id].description == payload.description
      && o.state.rows[id].price == payload.price
      && (forall k :: k in s.rows && k != id ==> o.state.rows[k] == s.rows[k])
    ensures o.result.Ok? ==>
      && o.result.value.name == payload.name
      && o.result.value.description == payload.description
      && o.result.value.price == payload.price
  {
    if FindProductByCriteria(s.rows, ById(id, userId)).None? then Step(Err(NotFound), s)
    else if FindExistingProductByName(s.rows, id, payload.name, userId).Some? then Step(Err(AlreadyExists), s)
    else Step(Ok(UpdateDto(payload)), State(Updated(s.rows, id, payload), s.nextId))
  }

  /** update as the source writes it: the findByIdAndUpdate query is built
      but neither awaited nor executed, and a Mongoose query that is never
      executed sends nothing to the store.  The checks and the returned DTO
      are those of UpdateStep; the table is left as it was. */
  function UpdateStepAsWritten<U(==)>(s: State<U>, id: ProductId, payload: Payload, userId: U): (o: Step<U, ProductDto>)
    ensures o.result == UpdateStep(s, id, payload, userId).result
    ensures o.state == s
  {
    if FindProductByCriteria(s.rows, ById(id, userId)).None? then Step(Err(NotFound), s)
    else if FindExistingProductByName(s.rows, id, payload.name, userId).Some? then Step(Err(AlreadyExists), s)
    else Step(Ok(UpdateDto(payload)), s)
  }

  /** A rename that reports success as written, yet show still returns the
      old name; with the write taking effect the product carries the new one. */
  lemma UpdateAsWrittenLosesTheWrite()
    ensures var before := Product(7, "old", "desc", 1, 0);
            var s := State(map[0 := before], 1);
            var payload := Payload("new", "desc", 1);
            && UpdateStepAsWritten(s, 0, payload, 7).result == Ok(UpdateDto(payload))
            && Show(UpdateStepAsWritten(s, 0, payload, 7).state.rows, 0) == Ok(ToDto(0, before))
            && Show(UpdateStep(s, 0, payload, 7).state.rows, 0) == Ok(ToDto(0, before.(name := "new")))
  {
    var before := Product(7, "old", "desc", 1, 0);
    var s := State(map[0 := before], 1);
    var payload := Payload("new", "desc", 1);
    assert Owns(s.rows, 0, 7);
    assert !NameTakenByOther(s.rows, payload.name, 7, 0);
  }

  /** The document findByIdAndDelete resolves to: the deleted record together
      with its id. */
  datatype Deleted<U> = Deleted(id: ProductId, product: Product<U>)

  /** destroy(id, userId): the deleted document. */
  function DestroyStep<U(==)>(s: State<U>, id: ProductId, userId: U): (o: Step<U, Deleted<U>>)
    ensures o.result.Err? <==> !Owns(s.rows, id, userId)
    ensures o.result.Err? ==> o.result.error == NotFound && o.state == s
    ensures o.result.Ok? ==>
      && o.result.value == Deleted(id, s.rows[id])
      && o.state.rows.Keys == s.rows.Keys - {id}
      && (forall k :: k in o.state.rows ==> o.state.rows[k] == s.rows[k])
      && o.state.nextId == s.nextId
  {
    if FindProductByCriteria(s.rows, ById(id, userId)).None? then Step(Err(NotFound), s)
    else Step(Ok(Deleted(id, s.rows[id])), State(s.rows - {id}, s.nextId))
  }

  // ---------------------------------------------------------------------
  // Properties of the writes

  /** A successful create adds exactly one product, under a fresh id. */
  lemma CreateAddsExactlyOne<U>(s: State<U>, payload: Payload, userId: U, now: int)
    requires IdsBelow(s)
    requires CreateStep(s, payload, userId, now).result.Ok?
    ensures s.nextId !in s.rows
    ensures |CreateStep(s, payload, userId, now).state.rows| == |s.rows| + 1
  {
    assert s.nextId !in s.rows;
    var t' := CreateStep(s, payload, userId, now).state.rows;
    assert t'.Keys == s.rows.Keys + {s.nextId};
  }

  /** Products of other owners with the same name do not block a create. */
  lemma CreateIgnoresOtherOwners<U>(s: State<U>, payload: Payload, userId: U, now: int)
    requires forall k :: k in s.rows && s.rows[k].name == payload.name ==> s.rows[k].userId != userId
    ensures CreateStep(s, payload, userId, now).result.Ok?
  {
  }

  /** Keeping a product's own current name is never a conflict, given the
      invariant. */
  lemma UpdateKeepingNameSucceeds<U>(s: State<U>, id: ProductId, payload: Payload, userId: U)
    requires NamesUniquePerOwner(s.rows)
    requires Owns(s.rows, id, userId) && payload.name == s.rows[id].name
    ensures UpdateStep(s, id, payload, userId).result.Ok?
  {
  }

  lemma CreatePreservesInvariant<U>(s: State<U>, payload: Payload, userId: U, now: int)
    requires Invariant(s)
    ensures Invariant(CreateStep(s, payload, userId, now).state)
  {
    var o := CreateStep(s, payload, userId, now);
    if o.result.Ok? {
      var t, t' := s.rows, o.state.rows;
      forall j, k | j in t' && k in t' && j != k && t'[j].userId == t'[k].userId
        ensures t'[j].name != t'[k].name
      {
        if j == s.nextId {
          assert !NameTaken(t, payload.name, userId);
          assert k in t && t[k] == t'[k];
        } else if k == s.nextId {
          assert !NameTaken(t, payload.name, userId);
          assert j in t && t[j] == t'[j];
        } else {
          assert t[j] == t'[j] && t[k] == t'[k];
        }
      }
    }
  }

  lemma UpdatePreservesInvariant<U>(s: State<U>, id: ProductId, payload: Payload, userId: U)
    requires Invariant(s)
    ensures Invariant(UpdateStep(s, id, payload, userId).state)
  {
    var o := UpdateStep(s, id, payload, userId);
    if o.result.Ok? {
      var t, t' := s.rows, o.state.rows;
      forall j, k | j in t' && k in t' && j != k && t'[j].userId == t'[k].userId
        ensures t'[j].name != t'[k].name
      {
        if j == id {
          assert !NameTakenByOther(t, payload.name, userId, id);
          assert t[k] == t'[k];
        } else if k == id {
          assert !NameTakenByOther(t, payload.name, userId, id);
          assert t[j] == t'[j];
        } else {
          assert t[j] == t'[j] && t[k] == t'[k];
        }
      }
    }
  }

  lemma DestroyPreservesInvariant<U>(s: State<U>, id: ProductId, userId: U)
    requires Invariant(s)
    ensures Invariant(DestroyStep(s, id, userId).state)
  {
  }

  // ---------------------------------------------------------------------
  // Sequential runs

  /** One request to the service's writes. */
  datatype Op<U> =
    | CreateOp(payload: Payload, userId: U, now: int)
    | UpdateOp(id: ProductId, payload: Payload, userId: U)
    | DestroyOp(id: ProductId, userId: U)

  function Apply<U(==)>(s: State<U>, op: Op<U>): State<U>
  {
    match op
    case CreateOp(payload, u, now) => CreateStep(s, payload, u, now).state
    case UpdateOp(id, payload, u) => UpdateStep(s, id, payload, u).state
    case DestroyOp(id, u) => DestroyStep(s, id, u).state
  }

  /** The state after handling `ops` one after another. */
  function Run<U(==)>(s: State<U>, ops: seq<Op<U>>): State<U>
    decreases |ops|
  {
    if ops == [] then s else Run(Apply(s, ops[0]), ops[1..])
  }

  /** Handled one at a time, requests never give an owner two products of
      one name. */
  lemma {:induction false} RunPreservesInvariant<U>(s: State<U>, ops: seq<Op<U>>)
    requires Invariant(s)
    ensures Invariant(Run(s, ops))
    ensures NamesUniquePerOwner(Run(s, ops).rows)
    decreases |ops|
  {
    if ops != [] {
      match ops[0] {
        case CreateOp(payload, u, now) => CreatePreservesInvariant(s, payload, u, now);
        case UpdateOp(id, payload, u) => UpdatePreservesInvariant(s, id, payload, u);
        case DestroyOp(id, u) => DestroyPreservesInvariant(s, id, u);
      }
      RunPreservesInvariant(Apply(s, ops[0]), ops[1..]);
    }
  }

  // ---------------------------------------------------------------------
  // The collection, updated in place

  class ProductCollection<U(==)> {
    var rows: Table<U>
    var nextId: ProductId

    function Snapshot(): State<U>
      reads this
    {
      State(rows, nextId)
    }

    ghost predicate Valid()
      reads this
    {
      Invariant(Snapshot())
    }

    constructor ()
      ensures Valid() && rows == map[] && nextId == 0
    {
      rows := map[];
      nextId := 0;
    }

    /** create: refuses a name the owner already uses, otherwise inserts. */
    method Create(payload: Payload, userId: U, now: int) returns (r: Result<ProductDto, HttpException>)
      requires Valid()
      modifies this
      ensures Valid()
      ensures Step(r, Snapshot()) == CreateStep(old(Snapshot()), payload, userId, now)
    {
      CreatePreservesInvariant(Snapshot(), payload, userId, now);
      var product := FindProductByCriteria(rows, ByName(payload.name, userId));
      if product.Some? {
        return Err(AlreadyExists);
      }
      var created := NewProduct(payload, userId, now);
      var id := nextId;
      rows := rows[id := created];
      nextId := nextId + 1;
      r := Ok(ProductDto(Some(id), payload.name, payload.description, created.price, Some(created.createdAt)));
    }

    /** update: only the owner, and only to a name no other product of the
        owner uses. */
    method Update(id: ProductId, payload: Payload, userId: U) returns (r: Result<ProductDto, HttpException>)
      requires Valid()
      modifies this
      ensures Valid()
      ensures Step(r, Snapshot()) == UpdateStep(old(Snapshot()), id, payload, userId)
    {
      UpdatePreservesInvariant(Snapshot(), id, payload, userId);
      var product := FindProductByCriteria(rows, ById(id, userId));
      if product.None? {
        return Err(NotFound);
      }
      var productExists := FindExistingProductByName(rows, id, payload.name, userId);
      if productExists.Some? {
        return Err(AlreadyExists);
      }
      rows := Updated(rows, id, payload);
      r := Ok(UpdateDto(payload));
    }

    /** destroy: only the owner; removes exactly that product. */
    method Destroy(id: ProductId, userId: U) returns (r: Result<Deleted<U>, HttpException>)
      requires Valid()
      modifies this
      ensures Valid()
      ensures Step(r, Snapshot()) == DestroyStep(old(Snapshot()), id, userId)
    {
      DestroyPreservesInvariant(Snapshot(), id, userId);
      var product := FindProductByCriteria(rows, ById(id, userId));
      if product.None? {
        return Err(NotFound);
      }
      r := Ok(Deleted(id, rows[id]));
      rows := rows - {id};
    }
  }
}
