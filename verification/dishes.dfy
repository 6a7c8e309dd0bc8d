/** The dishes controller: its gates, its handlers over the in-memory dish
    collection, and the chains it exports. Dishes are never deleted. */
module Dishes {
  import opened Json
  import opened Pipeline

  /** A dish. `imageUrl` is the body's `image_url`. Every field but `id` holds
      whatever the request body carried. */
  datatype Dish = Dish(id: string, name: JValue, description: JValue, price: JValue, imageUrl: JValue)

  function DishId(d: Dish): string {
    d.id
  }

  /** `dishExists`: attaches the first dish whose id is the route id, or
      fails with 404 naming that id. */
  function DishExists(req: Request<Dish>): (v: Verdict)
    ensures v.Locate? <==> exists k :: 0 <= k < |req.store| && req.store[k].id == req.routeId
    ensures v.Locate? ==>
      && v.index < |req.store|
      && req.store[v.index].id == req.routeId
      && forall j | 0 <= j < v.index :: req.store[j].id != req.routeId
    ensures !v.Locate? ==> v == Fail(Failure(404, NotFound(DishKind, req.routeId)))
  {
    match FirstIndexOf(Ids(req.store, DishId), req.routeId)
    case Some(i) => Locate(i)
    case None => Fail(Failure(404, NotFound(DishKind, req.routeId)))
  }

  /** `priceIsValid`: `price <= 0 || !Number.isInteger(price)` rejects; so
      exactly a positive integer passes, and an absent price fails. */
  function PriceIsValid(req: Request<Dish>): (v: Verdict)
    ensures !v.Locate?
    ensures v.Continue? <==> PositiveInteger(Field(req.data, "price"))
    ensures v.Fail? ==> v.failure == (if req.data == JNull then Thrown else Failure(400, BadPrice))
  {
    match Get(OrEmpty(req.data), "price")
    case None => Fail(Thrown)
    case Some(price) =>
      if LooseLeqZero(price) || !IsInteger(price) then Fail(Failure(400, BadPrice)) else Continue
  }

  /** `idIsValidAndMatches`: fails when the body carries a truthy id other
      than the route id; an absent, falsy or matching id passes. */
  function IdIsValidAndMatches(req: Request<Dish>): (v: Verdict)
    ensures !v.Locate?
    ensures v.Fail? <==>
      req.data == JNull || (Truthy(Field(req.data, "id")) && Field(req.data, "id") != JStr(req.routeId))
    ensures v.Fail? && req.data != JNull ==>
      v.failure == Failure(400, IdMismatch(DishKind, Field(req.data, "id"), req.routeId))
  {
    match Get(OrEmpty(req.data), "id")
    case None => Fail(Thrown)
    case Some(id) =>
      if Truthy(id) && id != JStr(req.routeId) then
        Fail(Failure(400, IdMismatch(DishKind, id, req.routeId)))
      else Continue
  }

  /** `list`: the whole collection, or, when the route carries a truthy id,
      the dishes with that id. */
  function List(store: seq<Dish>, routeId: Option<string>): (e: Effect<Dish>)
    ensures e.store == store
    ensures e.reply.Sent? && e.reply.code == 200 && e.reply.body.Records?
    ensures routeId.None? || routeId == Some("") ==> e.reply.body.records == store
    ensures routeId.Some? && routeId.value != "" ==>
      && (forall d | d in e.reply.body.records :: d in store && d.id == routeId.value)
      && (forall k | 0 <= k < |store| && store[k].id == routeId.value :: store[k] in e.reply.body.records)
  {
    if routeId.Some? && Truthy(JStr(routeId.value)) then
      Effect(store, Sent(200, Records(Matching(store, DishId, routeId.value))))
    else
      Effect(store, Sent(200, Records(store)))
  }

  /** `create`: appends one new dish built from the body's four fields,
      under the id the fresh-id source hands out (a body id is not used),
      and answers 201 with it. */
  function Create(req: Request<Dish>, newId: string): (e: Effect<Dish>)
    ensures req.data == JNull ==> e == Effect(req.store, Rejected(Thrown))
    ensures req.data != JNull ==>
      && |e.store| == |req.store| + 1
      && e.store[..|req.store|] == req.store
      && var d := e.store[|req.store|];
         && d.id == newId
         && d.name == Field(req.data, "name")
         && d.description == Field(req.data, "description")
         && d.price == Field(req.data, "price")
         && d.imageUrl == Field(req.data, "image_url")
         && e.reply == Sent(201, Record(d))
  {
    var data := OrEmpty(req.data);
    match (Get(data, "name"), Get(data, "description"), Get(data, "price"), Get(data, "image_url"))
    case (Some(name), Some(description), Some(price), Some(imageUrl)) =>
      var d := Dish(newId, name, description, price, imageUrl);
      Effect(req.store + [d], Sent(201, Record(d)))
    case _ => Effect(req.store, Rejected(Thrown))
  }

  /** `update`: overwrites the four mutable fields of the attached dish in
      place with the body's values; its id and every other dish stay. */
  function Update(req: Request<Dish>): (e: Effect<Dish>)
    ensures req.data == JNull || Located(req).None? ==> e == Effect(req.store, Rejected(Thrown))
    ensures req.data != JNull && Located(req).Some? ==>
      var i := Located(req).value;
      && |e.store| == |req.store|
      && (forall j | 0 <= j < |req.store| && j != i :: e.store[j] == req.store[j])
      && e.store[i].id == req.store[i].id
      && e.store[i].name == Field(req.data, "name")
      && e.store[i].description == Field(req.data, "description")
      && e.store[i].price == Field(req.data, "price")
      && e.store[i].imageUrl == Field(req.data, "image_url")
      && e.reply == Sent(200, Record(e.store[i]))
  {
    var data := OrEmpty(req.data);
    match (Get(data, "name"), Get(data, "description"), Get(data, "price"), Get(data, "image_url"))
    case (Some(name), Some(description), Some(price), Some(imageUrl)) =>
      (match Located(req)
       case None => Effect(req.store, Rejected(Thrown))
       case Some(i) =>
         var d := req.store[i].(name := name, description := description,
                                price := price, imageUrl := imageUrl);
         Effect(req.store[i := d], Sent(200, Record(d))))
    case _ => Effect(req.store, Rejected(Thrown))
  }

  const CreateGates: seq<Gate<Dish>> := [
    req => BodyDataHas(DishKind, "name", req),
    req => BodyDataHas(DishKind, "description", req),
    req => BodyDataHas(DishKind, "image_url", req),
    req => BodyDataHas(DishKind, "price", req),
    PriceIsValid
  ]

  const ReadGates: seq<Gate<Dish>> := [DishExists]

  const UpdateGates: seq<Gate<Dish>> := [
    DishExists,
    req => BodyDataHas(DishKind, "name", req),
    req => BodyDataHas(DishKind, "description", req),
    req => BodyDataHas(DishKind, "image_url", req),
    PriceIsValid,
    IdIsValidAndMatches
  ]

  /** POST /dishes: `CreateGates`, then `create`. The route has no id
      parameter; `newId` is the id `nextId()` hands out. A stopped chain
      leaves the collection alone; otherwise exactly one dish with the new
      id is appended and the answer is 201. */
  function CreateChain(store: seq<Dish>, data: JValue, newId: string): (e: Effect<Dish>)
    ensures e.reply.Rejected? ==> e.store == store
    ensures !e.reply.Rejected? ==>
      && |e.store| == |store| + 1
      && e.store[..|store|] == store
      && e.store[|store|].id == newId
      && e.reply == Sent(201, Record(e.store[|store|]))
  {
    Serve(CreateGates, (req: Request<Dish>) => Create(req, newId), Request(data, "", store, None))
  }

  /** GET /dishes/:dishId: `ReadGates`, then `read`. Answers 404 exactly
      when no dish has the id, and otherwise with a dish carrying it. */
  function ReadChain(store: seq<Dish>, routeId: string): (e: Effect<Dish>)
    ensures e.store == store
    ensures e.reply.Rejected? <==> routeId !in Ids(store, DishId)
    ensures e.reply.Rejected? ==> e.reply.failure == Failure(404, NotFound(DishKind, routeId))
    ensures !e.reply.Rejected? ==>
      && e.reply.Sent? && e.reply.code == 200 && e.reply.body.Record?
      && e.reply.body.record in store && e.reply.body.record.id == routeId
  {
    var req := Request(Undefined, routeId, store, None);
    LookupThenChecks(ReadGates, req);
    Serve(ReadGates, Read, req)
  }

  /** PUT /dishes/:dishId: `UpdateGates`, then `update`. A missing dish is
      404; a stopped chain leaves the collection alone; a success keeps the
      number of dishes and answers 200. */
  function UpdateChain(store: seq<Dish>, routeId: string, data: JValue): (e: Effect<Dish>)
    ensures |e.store| == |store|
    ensures routeId !in Ids(store, DishId) ==> e.reply == Rejected(Failure(404, NotFound(DishKind, routeId)))
    ensures e.reply.Rejected? ==> e.store == store
    ensures !e.reply.Rejected? ==> e.reply.Sent? && e.reply.code == 200
  {
    Serve(UpdateGates, Update, Request(data, routeId, store, None))
  }
}
