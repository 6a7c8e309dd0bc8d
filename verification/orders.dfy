/** The orders controller: its gates, its handlers over the in-memory order
    collection, and the chains it exports. */
module Orders {
  import opened Json
  import opened Pipeline

  /** An order. Every field but `id` holds whatever the request body carried;
      the gates decide what reaches the collection. */
  datatype Order = Order(id: string, deliverTo: JValue, mobileNumber: JValue, status: JValue, dishes: JValue)

  const Pending := JStr("pending")
  const Delivered := JStr("delivered")

  /** The list `statusIsValid` searches with `includes`. */
  const Statuses: seq<JValue> := [JStr("pending"), JStr("preparing"), JStr("out-for-delivery"), JStr("delivered")]

  function OrderId(o: Order): string {
    o.id
  }

  /** A dish line that `quantityIsValid` lets through: an object whose
      `quantity` is a positive integer. */
  predicate LineValid(line: JValue) {
    line.JObj? && PositiveInteger(Field(line, "quantity"))
  }

  /** A `dishes` value that passes both array gates. */
  predicate DishLinesValid(dishes: JValue) {
    && dishes.JArr?
    && |dishes.elems| > 0
    && forall k | 0 <= k < |dishes.elems| :: LineValid(dishes.elems[k])
  }

  /** `orderExists`: attaches the first order whose id is the route id, or
      fails with 404 naming that id. */
  function OrderExists(req: Request<Order>): (v: Verdict)
    ensures v.Locate? <==> exists k :: 0 <= k < |req.store| && req.store[k].id == req.routeId
    ensures v.Locate? ==>
      && v.index < |req.store|
      && req.store[v.index].id == req.routeId
      && forall j | 0 <= j < v.index :: req.store[j].id != req.routeId
    ensures !v.Locate? ==> v == Fail(Failure(404, NotFound(OrderKind, req.routeId)))
  {
    match FirstIndexOf(Ids(req.store, OrderId), req.routeId)
    case Some(i) => Locate(i)
    case None => Fail(Failure(404, NotFound(OrderKind, req.routeId)))
  }

  /** `dishesIsArray`: continues exactly when `dishes` is a non-empty array. */
  function DishesIsArray(req: Request<Order>): (v: Verdict)
    ensures !v.Locate?
    ensures v.Continue? <==> Field(req.data, "dishes").JArr? && |Field(req.data, "dishes").elems| > 0
    ensures v.Fail? ==> v.failure == (if req.data == JNull then Thrown else Failure(400, NoDishes))
  {
    match Get(OrEmpty(req.data), "dishes")
    case None => Fail(Thrown)
    case Some(dishes) =>
      if dishes.JArr? && |dishes.elems| > 0 then Continue else Fail(Failure(400, NoDishes))
  }

  /** The test `quantityIsValid` applies to one line's quantity. */
  predicate QuantityRejected(quantity: JValue) {
    !Truthy(quantity) || LooseLeqZero(quantity) || !IsInteger(quantity)
  }

  /** The error for the first bad line: reading `.quantity` of a null line
      throws; any other bad line is reported with its index. */
  function LineRejection(line: JValue, index: nat): Failure {
    if line == JNull || line == Undefined then Thrown else Failure(400, BadQuantity(index))
  }

  /** Line `i` is the first line from `from` on that the quantity check rejects. */
  ghost predicate FirstBadLine(lines: seq<JValue>, from: nat, i: nat) {
    && from <= i < |lines|
    && !LineValid(lines[i])
    && forall k | from <= k < i :: LineValid(lines[k])
  }

  /** One iteration of the loop of `quantityIsValid`: the error it forwards
      for line `index`, if any. */
  function CheckLine(line: JValue, index: nat): (r: Option<Failure>)
    ensures r.Some? <==> !LineValid(line)
    ensures r.Some? ==> r.value == LineRejection(line, index)
  {
    match Get(line, "quantity")
    case None => Some(Thrown)
    case Some(quantity) =>
      LineCheck(line);
      if QuantityRejected(quantity) then Some(Failure(400, BadQuantity(index))) else None
  }

  /** The loop of `quantityIsValid` from position `index` on, stopping at its
      first `next(error)` (or TypeError). */
  function ScanLines(lines: seq<JValue>, index: nat): (v: Verdict)
    ensures !v.Locate?
    ensures v.Continue? <==> forall k | index <= k < |lines| :: LineValid(lines[k])
    ensures v.Fail? ==>
      exists i: nat :: FirstBadLine(lines, index, i) && v.failure == LineRejection(lines[i], i)
    decreases |lines| - index
  {
    if index >= |lines| then Continue
    else
      match CheckLine(lines[index], index)
      case Some(f) =>
        assert FirstBadLine(lines, index, index);
        Fail(f)
      case None =>
        var v := ScanLines(lines, index + 1);
        assert v.Fail? ==> exists i: nat :: FirstBadLine(lines, index + 1, i) && v.failure == LineRejection(lines[i], i);
        v
  }

  /** The three-way test on one line's quantity rejects exactly the lines
      that are not objects with a positive integer quantity. */
  lemma LineCheck(line: JValue)
    requires line != Undefined && line != JNull
    ensures QuantityRejected(Field(line, "quantity")) <==> !LineValid(line)
  {
  }

  /** `quantityIsValid`: on an array of lines, continues exactly when every
      line has a positive integer quantity, and otherwise reports the first
      line that does not. */
  function QuantityIsValid(req: Request<Order>): (v: Verdict)
    ensures !v.Locate?
    ensures req.data == JNull ==> v == Fail(Thrown)
    ensures Field(req.data, "dishes").JArr? ==>
      var lines := Field(req.data, "dishes").elems;
      && (v.Continue? <==> forall k | 0 <= k < |lines| :: LineValid(lines[k]))
      && (v.Fail? ==> exists i: nat :: FirstBadLine(lines, 0, i) && v.failure == LineRejection(lines[i], i))
  {
    match Get(OrEmpty(req.data), "dishes")
    case None => Fail(Thrown)
    case Some(dishes) =>
      match Elements(dishes)
      case None => Fail(Thrown)
      case Some(lines) => ScanLines(lines, 0)
  }

  /** `statusNotDelivered`: fails when the REQUEST's status is "delivered"
      (the stored status is not consulted). `data` has no default here, so
      an absent or null data member throws. */
  function StatusNotDelivered(req: Request<Order>): (v: Verdict)
    ensures !v.Locate?
    ensures req.data == Undefined || req.data == JNull ==> v == Fail(Thrown)
    ensures v.Fail? <==>
      req.data == Undefined || req.data == JNull || Field(req.data, "status") == Delivered
    ensures v.Fail? && req.data != Undefined && req.data != JNull ==>
      v.failure == Failure(400, DeliveredImmutable)
  {
    match Get(req.data, "status")
    case None => Fail(Thrown)
    case Some(status) =>
      if status == Delivered then Fail(Failure(400, DeliveredImmutable)) else Continue
  }

  /** `statusIsValid`: the request's status must be one of the four. */
  function StatusIsValid(req: Request<Order>): (v: Verdict)
    ensures !v.Locate?
    ensures req.data == Undefined || req.data == JNull ==> v == Fail(Thrown)
    ensures v.Continue? <==>
      && req.data != Undefined && req.data != JNull
      && var s := Field(req.data, "status");
         s == JStr("pending") || s == JStr("preparing") || s == JStr("out-for-delivery") || s == JStr("delivered")
    ensures v.Fail? && req.data != Undefined && req.data != JNull ==> v.failure == Failure(400, BadStatus)
  {
    match Get(req.data, "status")
    case None => Fail(Thrown)
    case Some(status) => if status in Statuses then Continue else Fail(Failure(400, BadStatus))
  }

  /** `statusIsPending`: the attached order must be pending; with nothing
      attached, reading its status throws. */
  function StatusIsPending(req: Request<Order>): (v: Verdict)
    ensures !v.Locate?
    ensures Located(req).None? ==> v == Fail(Thrown)
    ensures Located(req).Some? ==>
      && (v.Continue? <==> req.store[Located(req).value].status == Pending)
      && (v.Fail? ==> v.failure == Failure(400, NotPending))
  {
    match Located(req)
    case None => Fail(Thrown)
    case Some(i) =>
      if req.store[i].status != Pending then Fail(Failure(400, NotPending)) else Continue
  }

  /** `idIsValidAndMatches`: fails when the body carries a truthy id other
      than the route id. `data` has no default here. */
  function IdIsValidAndMatches(req: Request<Order>): (v: Verdict)
    ensures !v.Locate?
    ensures req.data == Undefined || req.data == JNull ==> v == Fail(Thrown)
    ensures v.Fail? <==>
      || req.data == Undefined || req.data == JNull
      || (Truthy(Field(req.data, "id")) && Field(req.data, "id") != JStr(req.routeId))
    ensures v.Fail? && req.data != Undefined && req.data != JNull ==>
      v.failure == Failure(400, IdMismatch(OrderKind, Field(req.data, "id"), req.routeId))
  {
    match Get(req.data, "id")
    case None => Fail(Thrown)
    case Some(id) =>
      if Truthy(id) && id != JStr(req.routeId) then
        Fail(Failure(400, IdMismatch(OrderKind, id, req.routeId)))
      else Continue
  }

  /** `list`: the whole collection, or, when the route carries a truthy id,
      the orders with that id. */
  function List(store: seq<Order>, routeId: Option<string>): (e: Effect<Order>)
    ensures e.store == store
    ensures e.reply.Sent? && e.reply.code == 200 && e.reply.body.Records?
    ensures routeId.None? || routeId == Some("") ==> e.reply.body.records == store
    ensures routeId.Some? && routeId.value != "" ==>
      && (forall o | o in e.reply.body.records :: o in store && o.id == routeId.value)
      && (forall k | 0 <= k < |store| && store[k].id == routeId.value :: store[k] in e.reply.body.records)
  {
    if routeId.Some? && Truthy(JStr(routeId.value)) then
      Effect(store, Sent(200, Records(Matching(store, OrderId, routeId.value))))
    else
      Effect(store, Sent(200, Records(store)))
  }

  /** `create`: appends one new pending order built from the body, under the
      id the fresh-id source hands out, and answers 201 with it. */
  function Create(req: Request<Order>, newId: string): (e: Effect<Order>)
    ensures req.data == JNull ==> e == Effect(req.store, Rejected(Thrown))
    ensures req.data != JNull ==>
      && |e.store| == |req.store| + 1
      && e.store[..|req.store|] == req.store
      && var o := e.store[|req.store|];
         && o.id == newId
         && o.status == Pending
         && o.deliverTo == Field(req.data, "deliverTo")
         && o.mobileNumber == Field(req.data, "mobileNumber")
         && o.dishes == Field(req.data, "dishes")
         && e.reply == Sent(201, Record(o))
  {
    var data := OrEmpty(req.data);
    match (Get(data, "deliverTo"), Get(data, "mobileNumber"), Get(data, "dishes"))
    case (Some(deliverTo), Some(mobileNumber), Some(dishes)) =>
      var o := Order(newId, deliverTo, mobileNumber, Pending, dishes);
      Effect(req.store + [o], Sent(201, Record(o)))
    case _ => Effect(req.store, Rejected(Thrown))
  }

  /** `update`: overwrites the four mutable fields of the attached order in
      place with the body's values; its id and every other order stay. */
  function Update(req: Request<Order>): (e: Effect<Order>)
    ensures req.data == JNull || Located(req).None? ==> e == Effect(req.store, Rejected(Thrown))
    ensures req.data != JNull && Located(req).Some? ==>
      var i := Located(req).value;
      && |e.store| == |req.store|
      && (forall j | 0 <= j < |req.store| && j != i :: e.store[j] == req.store[j])
      && e.store[i].id == req.store[i].id
      && e.store[i].deliverTo == Field(req.data, "deliverTo")
      && e.store[i].mobileNumber == Field(req.data, "mobileNumber")
      && e.store[i].dishes == Field(req.data, "dishes")
      && e.store[i].status == Field(req.data, "status")
      && e.reply == Sent(200, Record(e.store[i]))
  {
    var data := OrEmpty(req.data);
    match (Get(data, "deliverTo"), Get(data, "mobileNumber"), Get(data, "dishes"), Get(data, "status"))
    case (Some(deliverTo), Some(mobileNumber), Some(dishes), Some(status)) =>
      (match Located(req)
       case None => Effect(req.store, Rejected(Thrown))
       case Some(i) =>
         var o := req.store[i].(deliverTo := deliverTo, mobileNumber := mobileNumber,
                                dishes := dishes, status := status);
         Effect(req.store[i := o], Sent(200, Record(o))))
    case _ => Effect(req.store, Rejected(Thrown))
  }

  /** The search condition of `destroy` as written: `order.id ===
      Number(orderId)`. A stored id is a string and `Number(...)` is a
      number, so the comparison is false for every order and route id. */
  predicate IdEqualsNumberOf(id: string, routeId: string)
    ensures !IdEqualsNumberOf(id, routeId)
  {
    StrictEqualsNumber(JStr(id), NumberOf(routeId))
  }

  /** `destroy` as written: `findIndex` with `IdEqualsNumberOf` yields -1,
      and `splice(-1, 1)` removes the LAST order. */
  function DestroyAsWritten(req: Request<Order>): (e: Effect<Order>)
    ensures e.reply == Empty(204)
    ensures |req.store| > 0 ==> e.store == req.store[..|req.store| - 1]
    ensures |req.store| == 0 ==> e.store == []
  {
    var index := FindIndex(req.store, (o: Order) => IdEqualsNumberOf(o.id, req.routeId));
    Effect(SpliceOne(req.store, index), Empty(204))
  }

  /** `destroy` as intended: removes the attached order, and only it; the
      others keep their order. */
  function Destroy(req: Request<Order>): (e: Effect<Order>)
    ensures e.reply == Empty(204)
    ensures Located(req).None? ==> e.store == req.store
    ensures Located(req).Some? ==>
      var i := Located(req).value;
      && |e.store| == |req.store| - 1
      && (forall j | 0 <= j < i :: e.store[j] == req.store[j])
      && (forall j | i <= j < |e.store| :: e.store[j] == req.store[j + 1])
      && multiset(e.store) + multiset{req.store[i]} == multiset(req.store)
  {
    match Located(req)
    case Some(i) => Effect(SpliceOne(req.store, i), Empty(204))
    case None => Effect(req.store, Empty(204))
  }

  const CreateGates: seq<Gate<Order>> := [
    req => BodyDataHas(OrderKind, "deliverTo", req),
    req => BodyDataHas(OrderKind, "mobileNumber", req),
    req => BodyDataHas(OrderKind, "dishes", req),
    DishesIsArray,
    QuantityIsValid
  ]

  const ReadGates: seq<Gate<Order>> := [OrderExists]

  const UpdateGates: seq<Gate<Order>> := [
    OrderExists,
    req => BodyDataHas(OrderKind, "deliverTo", req),
    req => BodyDataHas(OrderKind, "status", req),
    req => BodyDataHas(OrderKind, "mobileNumber", req),
    req => BodyDataHas(OrderKind, "dishes", req),
    DishesIsArray,
    QuantityIsValid,
    StatusNotDelivered,
    StatusIsValid,
    IdIsValidAndMatches
  ]

  const DeleteGates: seq<Gate<Order>> := [OrderExists, StatusIsPending]

  /** POST /orders: `CreateGates`, then `create`. The route has no id
      parameter; `newId` is the id `nextId()` hands out. A stopped chain
      leaves the collection alone; otherwise exactly one pending order with
      the new id is appended and the answer is 201. */
  function CreateChain(store: seq<Order>, data: JValue, newId: string): (e: Effect<Order>)
    ensures e.reply.Rejected? ==> e.store == store
    ensures !e.reply.Rejected? ==>
      && |e.store| == |store| + 1
      && e.store[..|store|] == store
      && e.store[|store|].id == newId
      && e.store[|store|].status == Pending
      && e.reply == Sent(201, Record(e.store[|store|]))
  {
    Serve(CreateGates, (req: Request<Order>) => Create(req, newId), Request(data, "", store, None))
  }

  /** GET /orders/:orderId: `ReadGates`, then `read`. Answers 404 exactly
      when no order has the id, and otherwise with an order carrying it. */
  function ReadChain(store: seq<Order>, routeId: string): (e: Effect<Order>)
    ensures e.store == store
    ensures e.reply.Rejected? <==> routeId !in Ids(store, OrderId)
    ensures e.reply.Rejected? ==> e.reply.failure == Failure(404, NotFound(OrderKind, routeId))
    ensures !e.reply.Rejected? ==>
      && e.reply.Sent? && e.reply.code == 200 && e.reply.body.Record?
      && e.reply.body.record in store && e.reply.body.record.id == routeId
  {
    var req := Request(Undefined, routeId, store, None);
    LookupThenChecks(ReadGates, req);
    Serve(ReadGates, Read, req)
  }

  /** PUT /orders/:orderId: `UpdateGates`, then `update`. A missing order is
      404; a stopped chain leaves the collection alone; a success keeps the
      number of orders and answers 200. */
  function UpdateChain(store: seq<Order>, routeId: string, data: JValue): (e: Effect<Order>)
    ensures |e.store| == |store|
    ensures routeId !in Ids(store, OrderId) ==> e.reply == Rejected(Failure(404, NotFound(OrderKind, routeId)))
    ensures e.reply.Rejected? ==> e.store == store
    ensures !e.reply.Rejected? ==> e.reply.Sent? && e.reply.code == 200
  {
    Serve(UpdateGates, Update, Request(data, routeId, store, None))
  }

  /** DELETE /orders/:orderId with the intended `destroy`: `DeleteGates`,
      then `Destroy`. No gate on this route reads the body. A missing order
      is 404; a stopped chain leaves the collection alone; a success removes
      one order and answers 204. */
  function DeleteChain(store: seq<Order>, routeId: string): (e: Effect<Order>)
    ensures routeId !in Ids(store, OrderId) ==> e.reply == Rejected(Failure(404, NotFound(OrderKind, routeId)))
    ensures e.reply.Rejected? ==> e.store == store
    ensures !e.reply.Rejected? ==> e.reply == Empty(204) && |e.store| == |store| - 1
  {
    var req := Request(Undefined, routeId, store, None);
    LookupThenChecks(DeleteGates, req);
    Serve(DeleteGates, Destroy, req)
  }

  /** DELETE /orders/:orderId with `destroy` as written: whatever order the
      gates located, a success drops the last one. */
  function DeleteChainAsWritten(store: seq<Order>, routeId: string): (e: Effect<Order>)
    ensures routeId !in Ids(store, OrderId) ==> e.reply == Rejected(Failure(404, NotFound(OrderKind, routeId)))
    ensures e.reply.Rejected? ==> e.store == store
    ensures !e.reply.Rejected? ==> e.reply == Empty(204) && |store| > 0 && e.store == store[..|store| - 1]
  {
    var req := Request(Undefined, routeId, store, None);
    LookupThenChecks(DeleteGates, req);
    Serve(DeleteGates, DestroyAsWritten, req)
  }
}
