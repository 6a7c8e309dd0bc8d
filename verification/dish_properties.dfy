/** What the exported dish chains guarantee: when each chain succeeds, what
    it does to the collection, and the invariant of a stored dish it keeps. */
module DishProperties {
  import opened Json
  import opened Pipeline
  import opened Dishes

  /** What the create chain's gates demand of the body. */
  predicate CreatePayloadValid(data: JValue) {
    && data.JObj?
    && Truthy(Field(data, "name"))
    && Truthy(Field(data, "description"))
    && Truthy(Field(data, "image_url"))
    && PositiveInteger(Field(data, "price"))
  }

  /** What the update chain's gates demand of the body, beyond the dish
      existing: the same fields, and no conflicting body id. */
  predicate UpdatePayloadValid(data: JValue, routeId: string) {
    && CreatePayloadValid(data)
    && !(Truthy(Field(data, "id")) && Field(data, "id") != JStr(routeId))
  }

  /** A dish as the create and update gates admit it: truthy name,
      description and image URL, and a positive integer price. */
  predicate ValidDish(d: Dish) {
    && Truthy(d.name)
    && Truthy(d.description)
    && Truthy(d.imageUrl)
    && PositiveInteger(d.price)
  }

  predicate AllValid(store: seq<Dish>) {
    forall k | 0 <= k < |store| :: ValidDish(store[k])
  }

  /** `dishExists` attaches exactly the dish at `Position`, and fails with 404
      naming the id when there is none. */
  lemma DishExistsFindsPosition(req: Request<Dish>)
    ensures Position(req.store, DishId, req.routeId).Some? ==>
      DishExists(req) == Locate(Position(req.store, DishId, req.routeId).value)
    ensures Position(req.store, DishId, req.routeId).None? ==>
      DishExists(req) == Fail(Failure(404, NotFound(DishKind, req.routeId)))
  {
    var p := Position(req.store, DishId, req.routeId);
    if p.Some? {
      assert Ids(req.store, DishId)[p.value] == req.routeId;
    } else {
      assert forall k | 0 <= k < |req.store| :: req.store[k].id == Ids(req.store, DishId)[k];
    }
  }

  /** The create gates pass exactly on a valid body; a rejection is a 400
      whose named field is indeed missing, or a TypeError from a null body. */
  lemma CreateGatesVerdict(store: seq<Dish>, data: JValue)
    ensures var r := RunGates(CreateGates, Request(data, "", store, None));
      && (r.Passed? <==> CreatePayloadValid(data))
      && (r.Passed? ==> r.req == Request(data, "", store, None))
      && (r.Stopped? ==> if data == JNull then r.failure == Thrown else r.failure.status == 400)
      && (r.Stopped? && r.failure.reason.MissingField? ==>
            !Truthy(Field(data, r.failure.reason.field)))
  {
    var req := Request(data, "", store, None);
    assert forall k | 0 <= k < |CreateGates| :: !CreateGates[k](req).Locate?;
    RunChecks(CreateGates, req);
    assert (forall k | 0 <= k < |CreateGates| :: CreateGates[k](req).Continue?) <==>
      && CreateGates[0](req).Continue? && CreateGates[1](req).Continue? && CreateGates[2](req).Continue?
      && CreateGates[3](req).Continue? && CreateGates[4](req).Continue?;
  }

  /** A body lacking a required field is turned away with 400 naming the
      first missing one, in the chain's order: name, description, image_url,
      price. */
  lemma CreateGatesMissingField(store: seq<Dish>, data: JValue)
    ensures var r := RunGates(CreateGates, Request(data, "", store, None));
      var name := Truthy(Field(data, "name"));
      var description := Truthy(Field(data, "description"));
      var imageUrl := Truthy(Field(data, "image_url"));
      var price := Truthy(Field(data, "price"));
      && (data != JNull && !name ==> r == Stopped(Failure(400, MissingField(DishKind, "name"))))
      && (data != JNull && name && !description ==>
            r == Stopped(Failure(400, MissingField(DishKind, "description"))))
      && (data != JNull && name && description && !imageUrl ==>
            r == Stopped(Failure(400, MissingField(DishKind, "image_url"))))
      && (data != JNull && name && description && imageUrl && !price ==>
            r == Stopped(Failure(400, MissingField(DishKind, "price"))))
  {
    var req := Request(data, "", store, None);
    assert forall k | 0 <= k < |CreateGates| :: !CreateGates[k](req).Locate?;
    RunChecks(CreateGates, req);
    var r := RunGates(CreateGates, req);
    if data != JNull {
      var name := Truthy(Field(data, "name"));
      var description := Truthy(Field(data, "description"));
      var imageUrl := Truthy(Field(data, "image_url"));
      var price := Truthy(Field(data, "price"));
      if !name {
        assert CreateGates[0](req).Fail?;
      } else if !description {
        assert CreateGates[1](req).Fail?;
      } else if !imageUrl {
        assert CreateGates[2](req).Fail?;
      } else if !price {
        assert CreateGates[3](req).Fail?;
      }
      if r.Stopped? {
        var k :| FirstFailure(CreateGates, req, k) && r.failure == CreateGates[k](req).failure;
      }
    }
  }

  /** The create chain rejects exactly the invalid bodies, and a rejected
      request leaves the collection alone. */
  lemma CreateChainRejects(store: seq<Dish>, data: JValue, newId: string)
    ensures CreateChain(store, data, newId).reply.Rejected? <==> !CreatePayloadValid(data)
    ensures CreateChain(store, data, newId).reply.Rejected? ==> CreateChain(store, data, newId).store == store
  {
    CreateGatesVerdict(store, data);
  }

  /** A successful create appends exactly one dish with the id `nextId()`
      handed out and the body's four fields, which the gates have made valid,
      answers 201 with it, and leaves the existing dishes unchanged and in
      order. */
  lemma CreateChainAppends(store: seq<Dish>, data: JValue, newId: string)
    requires CreatePayloadValid(data)
    ensures var e := CreateChain(store, data, newId);
      && |e.store| == |store| + 1
      && e.store[..|store|] == store
      && var d := e.store[|store|];
         && d.id == newId
         && d.name == Field(data, "name")
         && d.description == Field(data, "description")
         && d.price == Field(data, "price")
         && d.imageUrl == Field(data, "image_url")
         && ValidDish(d)
         && e.reply == Sent(201, Record(d))
  {
    CreateGatesVerdict(store, data);
  }

  /** The create gates never read a body id: they give the same verdicts
      on two bodies that agree everywhere else. */
  lemma CreateGatesIgnoreBodyId(store: seq<Dish>, with: JValue, without: JValue)
    requires forall key | key != "id" :: Field(with, key) == Field(without, key)
    requires with.JObj? && without.JObj?
    ensures var a := Request(with, "", store, None);
      var b := Request(without, "", store, None);
      forall k | 0 <= k < |CreateGates| :: CreateGates[k](a) == CreateGates[k](b) && !CreateGates[k](a).Locate?
  {
    var a := Request(with, "", store, None);
    var b := Request(without, "", store, None);
    assert Field(with, "name") == Field(without, "name");
    assert Field(with, "description") == Field(without, "description");
    assert Field(with, "image_url") == Field(without, "image_url");
    assert Field(with, "price") == Field(without, "price");
  }

  /** A body id plays no part in creating a dish: given the same id from
      `nextId()`, the request with it and the request without it have the
      same effect. */
  lemma CreateIgnoresBodyId(store: seq<Dish>, fields: map<string, JValue>, id: JValue, newId: string)
    ensures CreateChain(store, JObj(fields["id" := id]), newId) == CreateChain(store, JObj(fields - {"id"}), newId)
  {
    var with := JObj(fields["id" := id]);
    var without := JObj(fields - {"id"});
    assert forall key | key != "id" :: Field(with, key) == Field(without, key);
    CreateChainRejects(store, with, newId);
    CreateChainRejects(store, without, newId);
    if CreatePayloadValid(with) {
      CreateChainAppends(store, with, newId);
      CreateChainAppends(store, without, newId);
      var e1 := CreateChain(store, with, newId);
      var e2 := CreateChain(store, without, newId);
      assert e1.store == e1.store[..|store|] + [e1.store[|store|]];
      assert e2.store == e2.store[..|store|] + [e2.store[|store|]];
    } else {
      CreateGatesIgnoreBodyId(store, with, without);
      SameVerdicts(CreateGates, Request(with, "", store, None), Request(without, "", store, None));
    }
  }

  /** With distinct ids, listing by a route id yields exactly the dish the
      lookup gate would find, or nothing when no dish has the id; without a
      route id the listing is the whole collection. */
  lemma ListSpec(store: seq<Dish>, routeId: Option<string>)
    requires UniqueIds(store, DishId)
    ensures routeId.None? || routeId == Some("") ==> List(store, routeId).reply == Sent(200, Records(store))
    ensures routeId.Some? && routeId.value != "" ==>
      var p := Position(store, DishId, routeId.value);
      List(store, routeId).reply == Sent(200, Records(if p.Some? then [store[p.value]] else []))
  {
    if routeId.Some? && routeId.value != "" {
      MatchingUnique(store, DishId, routeId.value);
      var p := Position(store, DishId, routeId.value);
      if p.Some? {
        assert Ids(store, DishId)[p.value] == routeId.value;
      } else {
        assert forall k | 0 <= k < |store| :: store[k].id == Ids(store, DishId)[k];
      }
    }
  }

  /** `read` answers with the dish the id names, or 404, and never modifies
      the collection. */
  lemma ReadChainSpec(store: seq<Dish>, routeId: string)
    ensures ReadChain(store, routeId).store == store
    ensures Position(store, DishId, routeId).Some? ==>
      ReadChain(store, routeId).reply == Sent(200, Record(store[Position(store, DishId, routeId).value]))
    ensures Position(store, DishId, routeId).None? ==>
      ReadChain(store, routeId).reply == Rejected(Failure(404, NotFound(DishKind, routeId)))
  {
    var req := Request(Undefined, routeId, store, None);
    DishExistsFindsPosition(req);
    if Position(store, DishId, routeId).Some? {
      LocateThenRun(ReadGates, req, Position(store, DishId, routeId).value);
    }
  }

  /** After the lookup, the update chain's five checks pass exactly on a body
      that is valid for the route id, and attach nothing. */
  lemma UpdateChecksPass(req: Request<Dish>)
    ensures var r := RunGates(UpdateGates[1..], req);
      && (r.Passed? <==> UpdatePayloadValid(req.data, req.routeId))
      && (r.Passed? ==> r.req == req)
      && (r.Stopped? ==> if req.data == JNull then r.failure == Thrown else r.failure.status == 400)
  {
    var rest := UpdateGates[1..];
    assert forall k | 0 <= k < |rest| :: !rest[k](req).Locate?;
    RunChecks(rest, req);
    assert (forall k | 0 <= k < |rest| :: rest[k](req).Continue?) <==>
      && rest[0](req).Continue? && rest[1](req).Continue? && rest[2](req).Continue?
      && rest[3](req).Continue? && rest[4](req).Continue?;
  }

  /** The update gates pass exactly when the dish exists and the body is
      valid for it; a missing dish is a 404 that names the id. */
  lemma UpdateGatesVerdict(store: seq<Dish>, routeId: string, data: JValue)
    ensures var r := RunGates(UpdateGates, Request(data, routeId, store, None));
      && (r.Passed? <==> Position(store, DishId, routeId).Some? && UpdatePayloadValid(data, routeId))
      && (r.Passed? ==> r.req == Request(data, routeId, store, Position(store, DishId, routeId)))
      && (Position(store, DishId, routeId).None? ==> r == Stopped(Failure(404, NotFound(DishKind, routeId))))
  {
    var req := Request(data, routeId, store, None);
    DishExistsFindsPosition(req);
    var p := Position(store, DishId, routeId);
    if p.Some? {
      LocateThenRun(UpdateGates, req, p.value);
      UpdateChecksPass(req.(located := p));
    }
  }

  /** The update chain rejects exactly when the dish is missing or the body
      is invalid, and a rejected request leaves the collection alone. */
  lemma UpdateChainRejects(store: seq<Dish>, routeId: string, data: JValue)
    ensures var e := UpdateChain(store, routeId, data);
      && (e.reply.Rejected? <==> !(Position(store, DishId, routeId).Some? && UpdatePayloadValid(data, routeId)))
      && (e.reply.Rejected? ==> e.store == store)
  {
    UpdateGatesVerdict(store, routeId, data);
  }

  /** A successful update overwrites the four mutable fields of the located
      dish with the body's (validated) values, keeps its id, and touches no
      other dish. */
  lemma UpdateChainOverwrites(store: seq<Dish>, routeId: string, data: JValue)
    requires Position(store, DishId, routeId).Some? && UpdatePayloadValid(data, routeId)
    ensures var e := UpdateChain(store, routeId, data);
      var i := Position(store, DishId, routeId).value;
      && |e.store| == |store|
      && (forall j | 0 <= j < |store| && j != i :: e.store[j] == store[j])
      && e.store[i] == Dish(routeId, Field(data, "name"), Field(data, "description"),
                            Field(data, "price"), Field(data, "image_url"))
      && e.store[i].id == store[i].id
      && ValidDish(e.store[i])
      && e.reply == Sent(200, Record(e.store[i]))
  {
    UpdateGatesVerdict(store, routeId, data);
  }

  /** The create chain keeps the collection's dishes valid and, given a
      fresh id from `nextId()`, their ids distinct. */
  lemma CreatePreservesInvariants(store: seq<Dish>, data: JValue, newId: string)
    requires AllValid(store) && UniqueIds(store, DishId)
    requires newId !in Ids(store, DishId)
    ensures AllValid(CreateChain(store, data, newId).store) && UniqueIds(CreateChain(store, data, newId).store, DishId)
  {
    CreateChainRejects(store, data, newId);
    if CreatePayloadValid(data) {
      CreateChainAppends(store, data, newId);
      var e := CreateChain(store, data, newId);
      assert forall k | 0 <= k < |store| :: e.store[k] == store[k];
    }
  }

  /** So does the update chain. */
  lemma UpdatePreservesInvariants(store: seq<Dish>, routeId: string, data: JValue)
    requires AllValid(store) && UniqueIds(store, DishId)
    ensures AllValid(UpdateChain(store, routeId, data).store)
    ensures UniqueIds(UpdateChain(store, routeId, data).store, DishId)
  {
    UpdateChainRejects(store, routeId, data);
    if Position(store, DishId, routeId).Some? && UpdatePayloadValid(data, routeId) {
      UpdateChainOverwrites(store, routeId, data);
    }
  }

  /** The API's example request: creating {name: "Taco", description: "d",
      price: 5, image_url: "u"} answers 201 with a dish carrying the id
      `nextId()` handed out and those four fields, appended to the
      collection. */
  lemma TacoExample(store: seq<Dish>, newId: string)
    ensures
      var data := JObj(map["name" := JStr("Taco"), "description" := JStr("d"),
                           "price" := JInt(5), "image_url" := JStr("u")]);
      var e := CreateChain(store, data, newId);
      var taco := Dish(newId, JStr("Taco"), JStr("d"), JInt(5), JStr("u"));
      && e.store == store + [taco]
      && e.reply == Sent(201, Record(taco))
  {
    var data := JObj(map["name" := JStr("Taco"), "description" := JStr("d"),
                         "price" := JInt(5), "image_url" := JStr("u")]);
    CreateChainAppends(store, data, newId);
    var e := CreateChain(store, data, newId);
    assert e.store == e.store[..|store|] + [e.store[|store|]];
  }
}
