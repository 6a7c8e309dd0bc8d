/** What the exported order chains guarantee, from the gates' and handlers'
    contracts: when each chain succeeds, what it does to the collection, the
    invariants of a stored order it keeps, and two examples where the code
    does less than its own error messages announce. */
module OrderProperties {
  import opened Json
  import opened Pipeline
  import opened Orders

  /** What the create chain's gates demand of the body. */
  predicate CreatePayloadValid(data: JValue) {
    && data.JObj?
    && Truthy(Field(data, "deliverTo"))
    && Truthy(Field(data, "mobileNumber"))
    && DishLinesValid(Field(data, "dishes"))
  }

  /** What the update chain's gates demand of the body, beyond the order
      existing. The status must be valid and, as the code checks it, not
      "delivered". */
  predicate UpdatePayloadValid(data: JValue, routeId: string) {
    && data.JObj?
    && Truthy(Field(data, "deliverTo"))
    && Truthy(Field(data, "mobileNumber"))
    && DishLinesValid(Field(data, "dishes"))
    && Field(data, "status") in [JStr("pending"), JStr("preparing"), JStr("out-for-delivery")]
    && !(Truthy(Field(data, "id")) && Field(data, "id") != JStr(routeId))
  }

  /** An order as the create and update gates admit it: contact fields
      present, a non-empty list of lines with positive integer quantities, a
      status from the four. */
  predicate ValidOrder(o: Order) {
    && Truthy(o.deliverTo)
    && Truthy(o.mobileNumber)
    && DishLinesValid(o.dishes)
    && o.status in Statuses
  }

  predicate AllValid(store: seq<Order>) {
    forall k | 0 <= k < |store| :: ValidOrder(store[k])
  }

  /** No line of `dishes` is `null` or `undefined`: reading `.quantity` of
      such a line throws. */
  predicate NoNullLine(data: JValue) {
    Field(data, "dishes").JArr? ==>
      forall k | 0 <= k < |Field(data, "dishes").elems| ::
        Field(data, "dishes").elems[k] != JNull && Field(data, "dishes").elems[k] != Undefined
  }

  /** The create gates pass exactly on a valid body; a rejection is a 400
      naming a rule the body breaks, or a TypeError from a null body or a
      null line. */
  lemma CreateGatesVerdict(store: seq<Order>, data: JValue)
    ensures var r := RunGates(CreateGates, Request(data, "", store, None));
      && (r.Passed? <==> CreatePayloadValid(data))
      && (r.Passed? ==> r.req == Request(data, "", store, None))
      && (r.Stopped? ==> r.failure.status == 400 || r.failure == Thrown)
      && (r.Stopped? && data != JNull && NoNullLine(data) ==> r.failure.status == 400)
      && (r.Stopped? && r.failure.reason.MissingField? ==>
            !Truthy(Field(data, r.failure.reason.field)))
  {
    var req := Request(data, "", store, None);
    assert forall k | 0 <= k < |CreateGates| :: !CreateGates[k](req).Locate?;
    RunChecks(CreateGates, req);
    assert (forall k | 0 <= k < |CreateGates| :: CreateGates[k](req).Continue?) <==>
      && CreateGates[0](req).Continue? && CreateGates[1](req).Continue? && CreateGates[2](req).Continue?
      && CreateGates[3](req).Continue? && CreateGates[4](req).Continue?;
    var r := RunGates(CreateGates, req);
    if r.Stopped? {
      var k :| FirstFailure(CreateGates, req, k) && r.failure == CreateGates[k](req).failure;
      if k == 4 {
        assert CreateGates[3](req).Continue?;
        var lines := Field(data, "dishes").elems;
        var i: nat :| FirstBadLine(lines, 0, i) && r.failure == LineRejection(lines[i], i);
      }
    }
  }

  /** A body lacking a required field is turned away with 400 naming the
      first missing one, in the chain's order: deliverTo, mobileNumber,
      dishes. */
  lemma CreateGatesMissingField(store: seq<Order>, data: JValue)
    ensures var r := RunGates(CreateGates, Request(data, "", store, None));
      var deliverTo := Truthy(Field(data, "deliverTo"));
      var mobileNumber := Truthy(Field(data, "mobileNumber"));
      var dishes := Truthy(Field(data, "dishes"));
      && (data != JNull && !deliverTo ==> r == Stopped(Failure(400, MissingField(OrderKind, "deliverTo"))))
      && (data != JNull && deliverTo && !mobileNumber ==>
            r == Stopped(Failure(400, MissingField(OrderKind, "mobileNumber"))))
      && (data != JNull && deliverTo && mobileNumber && !dishes ==>
            r == Stopped(Failure(400, MissingField(OrderKind, "dishes"))))
  {
    var req := Request(data, "", store, None);
    assert forall k | 0 <= k < |CreateGates| :: !CreateGates[k](req).Locate?;
    RunChecks(CreateGates, req);
    var r := RunGates(CreateGates, req);
    if data != JNull {
      var deliverTo := Truthy(Field(data, "deliverTo"));
      var mobileNumber := Truthy(Field(data, "mobileNumber"));
      var dishes := Truthy(Field(data, "dishes"));
      if !deliverTo {
        assert CreateGates[0](req).Fail?;
      } else if !mobileNumber {
        assert CreateGates[1](req).Fail?;
      } else if !dishes {
        assert CreateGates[2](req).Fail?;
      }
      if r.Stopped? {
        var k :| FirstFailure(CreateGates, req, k) && r.failure == CreateGates[k](req).failure;
      }
    }
  }

  /** The create chain rejects exactly the invalid bodies, and a rejected
      request leaves the collection alone. */
  lemma CreateChainRejects(store: seq<Order>, data: JValue, newId: string)
    ensures CreateChain(store, data, newId).reply.Rejected? <==> !CreatePayloadValid(data)
    ensures CreateChain(store, data, newId).reply.Rejected? ==> CreateChain(store, data, newId).store == store
  {
    CreateGatesVerdict(store, data);
  }

  /** A successful create appends exactly one valid, pending order with the
      id `nextId()` handed out and the body's fields, answers 201 with it, and leaves the
      existing orders unchanged and in order. */
  lemma CreateChainAppends(store: seq<Order>, data: JValue, newId: string)
    requires CreatePayloadValid(data)
    ensures var e := CreateChain(store, data, newId);
      && |e.store| == |store| + 1
      && e.store[..|store|] == store
      && var o := e.store[|store|];
         && o.id == newId
         && o.status == Pending
         && o.deliverTo == Field(data, "deliverTo")
         && o.mobileNumber == Field(data, "mobileNumber")
         && o.dishes == Field(data, "dishes")
         && ValidOrder(o)
         && e.reply == Sent(201, Record(o))
  {
    CreateGatesVerdict(store, data);
  }

  /** `orderExists` attaches exactly the order at `Position`, and fails with
      404 naming the id when there is none. */
  lemma OrderExistsFindsPosition(req: Request<Order>)
    ensures Position(req.store, OrderId, req.routeId).Some? ==>
      OrderExists(req) == Locate(Position(req.store, OrderId, req.routeId).value)
    ensures Position(req.store, OrderId, req.routeId).None? ==>
      OrderExists(req) == Fail(Failure(404, NotFound(OrderKind, req.routeId)))
  {
    var p := Position(req.store, OrderId, req.routeId);
    if p.Some? {
      assert Ids(req.store, OrderId)[p.value] == req.routeId;
    } else {
      assert forall k | 0 <= k < |req.store| :: req.store[k].id == Ids(req.store, OrderId)[k];
    }
  }

  /** With distinct ids, listing by a route id yields exactly the order the
      lookup gate would find, or nothing when no order has the id; without a
      route id the listing is the whole collection. */
  lemma ListSpec(store: seq<Order>, routeId: Option<string>)
    requires UniqueIds(store, OrderId)
    ensures routeId.None? || routeId == Some("") ==> List(store, routeId).reply == Sent(200, Records(store))
    ensures routeId.Some? && routeId.value != "" ==>
      var p := Position(store, OrderId, routeId.value);
      List(store, routeId).reply == Sent(200, Records(if p.Some? then [store[p.value]] else []))
  {
    if routeId.Some? && routeId.value != "" {
      MatchingUnique(store, OrderId, routeId.value);
      var p := Position(store, OrderId, routeId.value);
      if p.Some? {
        assert Ids(store, OrderId)[p.value] == routeId.value;
      } else {
        assert forall k | 0 <= k < |store| :: store[k].id == Ids(store, OrderId)[k];
      }
    }
  }

  /** `read` answers with the order the id names, or 404; it and `list`
      never modify the collection. */
  lemma ReadChainSpec(store: seq<Order>, routeId: string)
    ensures ReadChain(store, routeId).store == store
    ensures Position(store, OrderId, routeId).Some? ==>
      ReadChain(store, routeId).reply == Sent(200, Record(store[Position(store, OrderId, routeId).value]))
    ensures Position(store, OrderId, routeId).None? ==>
      ReadChain(store, routeId).reply == Rejected(Failure(404, NotFound(OrderKind, routeId)))
  {
    var req := Request(Undefined, routeId, store, None);
    OrderExistsFindsPosition(req);
    if Position(store, OrderId, routeId).Some? {
      LocateThenRun(ReadGates, req, Position(store, OrderId, routeId).value);
    }
  }

  /** After the lookup, the update chain's nine checks pass exactly on a
      body that is valid for the route id, and attach nothing. */
  lemma UpdateChecksPass(req: Request<Order>)
    ensures var r := RunGates(UpdateGates[1..], req);
      && (r.Passed? <==> UpdatePayloadValid(req.data, req.routeId))
      && (r.Passed? ==> r.req == req)
  {
    var rest := UpdateGates[1..];
    assert forall k | 0 <= k < |rest| :: !rest[k](req).Locate?;
    RunChecks(rest, req);
    assert (forall k | 0 <= k < |rest| :: rest[k](req).Continue?) <==>
      && rest[0](req).Continue? && rest[1](req).Continue? && rest[2](req).Continue?
      && rest[3](req).Continue? && rest[4](req).Continue? && rest[5](req).Continue?
      && rest[6](req).Continue? && rest[7](req).Continue? && rest[8](req).Continue?;
  }

  /** A rejection by one of those checks is a 400, or a TypeError. */
  lemma UpdateChecksFailure(req: Request<Order>)
    ensures var r := RunGates(UpdateGates[1..], req);
      r.Stopped? ==> r.failure.status == 400 || r.failure == Thrown
  {
    var rest := UpdateGates[1..];
    assert forall k | 0 <= k < |rest| :: !rest[k](req).Locate?;
    RunChecks(rest, req);
    var r := RunGates(rest, req);
    if r.Stopped? {
      var k :| FirstFailure(rest, req, k) && r.failure == rest[k](req).failure;
      if k == 5 {
        assert rest[4](req).Continue?;
        var lines := Field(req.data, "dishes").elems;
        var j: nat :| FirstBadLine(lines, 0, j) && r.failure == LineRejection(lines[j], j);
      }
    }
  }

  /** The update gates pass exactly when the order exists and the body is
      valid for it; a missing order is a 404 that names the id. */
  lemma UpdateGatesVerdict(store: seq<Order>, routeId: string, data: JValue)
    ensures var r := RunGates(UpdateGates, Request(data, routeId, store, None));
      && (r.Passed? <==> Position(store, OrderId, routeId).Some? && UpdatePayloadValid(data, routeId))
      && (r.Passed? ==> r.req == Request(data, routeId, store, Position(store, OrderId, routeId)))
      && (Position(store, OrderId, routeId).None? ==> r == Stopped(Failure(404, NotFound(OrderKind, routeId))))
      && (r.Stopped? && Position(store, OrderId, routeId).Some? ==> r.failure.status == 400 || r.failure == Thrown)
  {
    var req := Request(data, routeId, store, None);
    OrderExistsFindsPosition(req);
    var p := Position(store, OrderId, routeId);
    if p.Some? {
      var req' := req.(located := p);
      LocateThenRun(UpdateGates, req, p.value);
      UpdateChecksPass(req');
      UpdateChecksFailure(req');
    }
  }

  /** The update chain rejects exactly when the order is missing or the body
      is invalid, and a rejected request leaves the collection alone. */
  lemma UpdateChainRejects(store: seq<Order>, routeId: string, data: JValue)
    ensures var e := UpdateChain(store, routeId, data);
      && (e.reply.Rejected? <==> !(Position(store, OrderId, routeId).Some? && UpdatePayloadValid(data, routeId)))
      && (e.reply.Rejected? ==> e.store == store)
  {
    UpdateGatesVerdict(store, routeId, data);
  }

  /** A successful update overwrites the four mutable fields of the located
      order with the body's values, keeps its id, touches no other order,
      and never leaves it "delivered". */
  lemma UpdateChainOverwrites(store: seq<Order>, routeId: string, data: JValue)
    requires Position(store, OrderId, routeId).Some? && UpdatePayloadValid(data, routeId)
    ensures var e := UpdateChain(store, routeId, data);
      var i := Position(store, OrderId, routeId).value;
      && |e.store| == |store|
      && (forall j | 0 <= j < |store| && j != i :: e.store[j] == store[j])
      && e.store[i] == Order(routeId, Field(data, "deliverTo"), Field(data, "mobileNumber"),
                             Field(data, "status"), Field(data, "dishes"))
      && e.store[i].id == store[i].id
      && e.store[i].status != Delivered
      && ValidOrder(e.store[i])
      && e.reply == Sent(200, Record(e.store[i]))
  {
    UpdateGatesVerdict(store, routeId, data);
  }

  /** The delete chain goes through exactly when the order exists and is
      pending; otherwise it answers 404 or 400 and the collection stays. */
  lemma DeleteChainRejects(store: seq<Order>, routeId: string)
    ensures var e := DeleteChain(store, routeId);
      var p := Position(store, OrderId, routeId);
      && (e.reply.Rejected? <==> p.None? || store[p.value].status != Pending)
      && (e.reply.Rejected? ==> e.store == store)
      && (p.None? ==> e.reply == Rejected(Failure(404, NotFound(OrderKind, routeId))))
      && (p.Some? && store[p.value].status != Pending ==> e.reply == Rejected(Failure(400, NotPending)))
  {
    var req := Request(Undefined, routeId, store, None);
    OrderExistsFindsPosition(req);
    var p := Position(store, OrderId, routeId);
    if p.Some? {
      LocateThenRun(DeleteGates, req, p.value);
    }
  }

  /** A successful delete removes exactly the located order, answers 204, and
      keeps the remaining orders in their order. */
  lemma DeleteChainRemoves(store: seq<Order>, routeId: string)
    requires Position(store, OrderId, routeId).Some? && store[Position(store, OrderId, routeId).value].status == Pending
    ensures var e := DeleteChain(store, routeId);
      var i := Position(store, OrderId, routeId).value;
      && e.reply == Empty(204)
      && |e.store| == |store| - 1
      && (forall j | 0 <= j < i :: e.store[j] == store[j])
      && (forall j | i <= j < |e.store| :: e.store[j] == store[j + 1])
      && multiset(e.store) + multiset{store[i]} == multiset(store)
  {
    var req := Request(Undefined, routeId, store, None);
    OrderExistsFindsPosition(req);
    LocateThenRun(DeleteGates, req, Position(store, OrderId, routeId).value);
  }

  /** The create chain keeps the collection's orders valid and, given a
      fresh id from `nextId()`, their ids distinct. */
  lemma CreatePreservesInvariants(store: seq<Order>, data: JValue, newId: string)
    requires AllValid(store) && UniqueIds(store, OrderId)
    requires newId !in Ids(store, OrderId)
    ensures AllValid(CreateChain(store, data, newId).store) && UniqueIds(CreateChain(store, data, newId).store, OrderId)
  {
    CreateChainRejects(store, data, newId);
    if CreatePayloadValid(data) {
      CreateChainAppends(store, data, newId);
      var e := CreateChain(store, data, newId);
      assert forall k | 0 <= k < |store| :: e.store[k] == store[k];
    }
  }

  /** So does the update chain. */
  lemma UpdatePreservesInvariants(store: seq<Order>, routeId: string, data: JValue)
    requires AllValid(store) && UniqueIds(store, OrderId)
    ensures AllValid(UpdateChain(store, routeId, data).store)
    ensures UniqueIds(UpdateChain(store, routeId, data).store, OrderId)
  {
    UpdateChainRejects(store, routeId, data);
    if Position(store, OrderId, routeId).Some? && UpdatePayloadValid(data, routeId) {
      UpdateChainOverwrites(store, routeId, data);
    }
  }

  /** And so does the delete chain. */
  lemma DeletePreservesInvariants(store: seq<Order>, routeId: string)
    requires AllValid(store) && UniqueIds(store, OrderId)
    ensures AllValid(DeleteChain(store, routeId).store) && UniqueIds(DeleteChain(store, routeId).store, OrderId)
  {
    DeleteChainRejects(store, routeId);
    var p := Position(store, OrderId, routeId);
    if p.Some? && store[p.value].status == Pending {
      DeleteChainRemoves(store, routeId);
      var e := DeleteChain(store, routeId);
      var i := p.value;
      assert forall j | 0 <= j < |e.store| :: e.store[j] == store[if j < i then j else j + 1];
    }
  }

  /** With distinct ids, an order the delete chain removed can no longer be
      read. */
  lemma DeletedOrderIsGone(store: seq<Order>, routeId: string)
    requires UniqueIds(store, OrderId)
    requires !DeleteChain(store, routeId).reply.Rejected?
    ensures ReadChain(DeleteChain(store, routeId).store, routeId).reply ==
      Rejected(Failure(404, NotFound(OrderKind, routeId)))
  {
    DeleteChainRejects(store, routeId);
    DeleteChainRemoves(store, routeId);
    var e := DeleteChain(store, routeId);
    var i := Position(store, OrderId, routeId).value;
    assert forall j | 0 <= j < |e.store| :: e.store[j] == store[if j < i then j else j + 1];
    assert routeId !in Ids(e.store, OrderId);
    ReadChainSpec(e.store, routeId);
  }

  /** One line of one dish, for the examples below. */
  const OneLine := JArr([JObj(map["quantity" := JInt(1)])])

  /** The rule "a delivered order cannot be changed" is not what the code
      enforces: `statusNotDelivered` looks at the request's status, so a
      stored delivered order is updated back to pending without complaint. */
  lemma DeliveredOrderCanChange()
    ensures
      var o := Order("7", JStr("home"), JStr("555"), Delivered, OneLine);
      var data := JObj(map["deliverTo" := JStr("work"), "mobileNumber" := JStr("555"),
                           "status" := Pending, "dishes" := OneLine]);
      var o' := Order("7", JStr("work"), JStr("555"), Pending, OneLine);
      UpdateChain([o], "7", data) == Effect([o'], Sent(200, Record(o')))
  {
    var o := Order("7", JStr("home"), JStr("555"), Delivered, OneLine);
    var data := JObj(map["deliverTo" := JStr("work"), "mobileNumber" := JStr("555"),
                         "status" := Pending, "dishes" := OneLine]);
    assert Ids([o], OrderId) == ["7"];
    assert Field(data, "id") == Undefined;
    UpdateChainOverwrites([o], "7", data);
  }

  /** Two orders for the delete examples: "a" is pending, "b" is not. */
  const OrderA := Order("a", JStr("home"), JStr("555"), Pending, OneLine)
  const OrderB := Order("b", JStr("work"), JStr("556"), JStr("preparing"), OneLine)

  /** `destroy` as written removes the wrong order: deleting pending order
      "a" from [a, b] answers 204 but removes b, and a can still be read. */
  lemma DestroyAsWrittenRemovesWrongOrder()
    ensures DeleteChainAsWritten([OrderA, OrderB], "a") == Effect([OrderA], Empty(204))
    ensures ReadChain([OrderA], "a").reply == Sent(200, Record(OrderA))
  {
    var req := Request(Undefined, "a", [OrderA, OrderB], None);
    assert Ids([OrderA, OrderB], OrderId) == ["a", "b"];
    assert Position([OrderA, OrderB], OrderId, "a") == Some(0);
    OrderExistsFindsPosition(req);
    LocateThenRun(DeleteGates, req, 0);
    assert Ids([OrderA], OrderId) == ["a"];
    ReadChainSpec([OrderA], "a");
  }

  /** The intended `destroy` removes "a" and keeps b. */
  lemma DestroyRemovesLocatedOrder()
    ensures DeleteChain([OrderA, OrderB], "a") == Effect([OrderB], Empty(204))
  {
    assert Ids([OrderA, OrderB], OrderId) == ["a", "b"];
    assert Position([OrderA, OrderB], OrderId, "a") == Some(0);
    DeleteChainRemoves([OrderA, OrderB], "a");
  }
}
