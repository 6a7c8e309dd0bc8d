/** The middleware-chain machinery shared by both controllers: the error
    descriptors gates forward, the per-request context, gates as pure
    functions, the runner that folds a chain's gates and stops at the first
    failure, and the helpers both controllers use (field presence, lookup by
    id, fresh ids). */
module Pipeline {
  import opened Json

  /** Which controller raised an error; the two word their messages apart. */
  datatype Kind = DishKind | OrderKind

  /** What the forwarded error names; the exact message text is not modelled. */
  datatype Reason =
    | NotFound(kind: Kind, id: string)
    | MissingField(kind: Kind, field: string)
    | NoDishes
    | BadQuantity(index: nat)
    | BadPrice
    | DeliveredImmutable
    | BadStatus
    | NotPending
    | IdMismatch(kind: Kind, bodyId: JValue, routeId: string)
    | TypeError

  /** The `{ status, message }` object handed to `next`. */
  datatype Failure = Failure(status: int, reason: Reason)

  /** A TypeError thrown inside a gate or handler: Express forwards it to the
      error handler, which answers 500 when the error carries no status. */
  const Thrown := Failure(500, TypeError)

  /** One request as a chain sees it: `req.body.data`, the route id
      parameter, the collection, and the record a lookup gate attached to
      `res.locals` (as an index into the collection). On routes without an
      id parameter `routeId` is never read. */
  datatype Request<R> = Request(data: JValue, routeId: string, store: seq<R>, located: Option<nat>)

  /** What a gate does with its continuation: `next()`, attach a record and
      `next()`, or `next(error)`. */
  datatype Verdict = Continue | Locate(index: nat) | Fail(failure: Failure)

  type Gate<!R> = Request<R> -> Verdict

  datatype Outcome<R> = Passed(req: Request<R>) | Stopped(failure: Failure)

  /** The `data` member of a JSON response; `NoData` is `{ data: undefined }`. */
  datatype Body<R> = Record(record: R) | Records(records: seq<R>) | NoData

  /** What the client receives: the forwarded error, `res.json` with a status
      code, or `res.sendStatus`. */
  datatype Reply<R> = Rejected(failure: Failure) | Sent(code: int, body: Body<R>) | Empty(code: int)

  /** The collection after a request, and the reply. */
  datatype Effect<R> = Effect(store: seq<R>, reply: Reply<R>)

  /** The record attached to `res.locals`, if any. */
  function Located<R>(req: Request<R>): Option<nat> {
    if req.located.Some? && req.located.value < |req.store| then req.located else None
  }

  /** Runs the gates in order. The first `next(error)` is terminal; a gate
      can attach a record but never touches the body, the route or the
      collection. */
  function RunGates<R>(gates: seq<Gate<R>>, req: Request<R>): (r: Outcome<R>)
    ensures r.Passed? ==>
      r.req.data == req.data && r.req.routeId == req.routeId && r.req.store == req.store
    ensures r.Passed? && req.located.Some? ==> r.req.located.Some?
    decreases |gates|
  {
    if |gates| == 0 then Passed(req)
    else
      match gates[0](req)
      case Fail(f) => Stopped(f)
      case Continue => RunGates(gates[1..], req)
      case Locate(i) => RunGates(gates[1..], req.(located := Some(i)))
  }

  /** A chain: its gates, then the terminal handler. When no gate attaches
      a record, the handler runs on the request itself once every gate has
      continued, and otherwise the first failing gate's error is the answer,
      with the collection as it was. */
  function Serve<R>(gates: seq<Gate<R>>, handler: Request<R> -> Effect<R>, req: Request<R>): (e: Effect<R>)
    ensures RunGates(gates, req).Stopped? ==> e.store == req.store && e.reply == Rejected(RunGates(gates, req).failure)
    ensures RunGates(gates, req).Passed? ==> e == handler(RunGates(gates, req).req)
    ensures (forall k | 0 <= k < |gates| :: !gates[k](req).Locate?) ==>
      ((forall k | 0 <= k < |gates| :: gates[k](req).Continue?) ==> e == handler(req))
    ensures (forall k | 0 <= k < |gates| :: !gates[k](req).Locate?) ==>
      forall k | FirstFailure(gates, req, k) :: e == Effect(req.store, Rejected(gates[k](req).failure))
  {
    ChecksOutcome(gates, req);
    match RunGates(gates, req)
    case Stopped(f) => Effect(req.store, Rejected(f))
    case Passed(r) => handler(r)
  }

  /** `gates[k]` fails on `req` and every gate before it continues. */
  ghost predicate FirstFailure<R>(gates: seq<Gate<R>>, req: Request<R>, k: int) {
    && 0 <= k < |gates|
    && gates[k](req).Fail?
    && forall j | 0 <= j < k :: gates[j](req).Continue?
  }

  /** For gates that attach nothing, the fold passes exactly when every gate
      continues on the request, and otherwise reports the first failing
      gate's error. */
  lemma {:induction false} RunChecks<R>(gates: seq<Gate<R>>, req: Request<R>)
    requires forall k | 0 <= k < |gates| :: !gates[k](req).Locate?
    ensures RunGates(gates, req).Passed? <==> forall k | 0 <= k < |gates| :: gates[k](req).Continue?
    ensures RunGates(gates, req).Passed? ==> RunGates(gates, req).req == req
    ensures RunGates(gates, req).Stopped? ==>
      exists k :: FirstFailure(gates, req, k) && RunGates(gates, req).failure == gates[k](req).failure
    decreases |gates|
  {
    if |gates| > 0 {
      var rest := gates[1..];
      assert forall k | 0 <= k < |rest| :: rest[k] == gates[k + 1];
      RunChecks(rest, req);
      if gates[0](req).Continue? {
        assert RunGates(gates, req) == RunGates(rest, req);
        if RunGates(rest, req).Stopped? {
          var k :| FirstFailure(rest, req, k) && RunGates(rest, req).failure == rest[k](req).failure;
          assert FirstFailure(gates, req, k + 1);
        }
      } else {
        assert FirstFailure(gates, req, 0);
      }
    }
  }

  /** `RunChecks` for any gates: when none attaches, all continuing hands on
      the request itself, and any first failing gate is the one whose error
      stops the fold. */
  lemma {:induction false} ChecksOutcome<R>(gates: seq<Gate<R>>, req: Request<R>)
    ensures (forall k | 0 <= k < |gates| :: !gates[k](req).Locate?) ==>
      && ((forall k | 0 <= k < |gates| :: gates[k](req).Continue?) ==> RunGates(gates, req) == Passed(req))
      && (forall k | FirstFailure(gates, req, k) :: RunGates(gates, req) == Stopped(gates[k](req).failure))
  {
    if forall k | 0 <= k < |gates| :: !gates[k](req).Locate? {
      RunChecks(gates, req);
      forall k | FirstFailure(gates, req, k)
        ensures RunGates(gates, req) == Stopped(gates[k](req).failure)
      {
        var j :| FirstFailure(gates, req, j) && RunGates(gates, req).failure == gates[j](req).failure;
      }
    }
  }

  /** Two requests on which every gate gives the same verdict, none of them
      attaching, are stopped alike by the same error. */
  lemma {:induction false} SameVerdicts<R>(gates: seq<Gate<R>>, a: Request<R>, b: Request<R>)
    requires forall k | 0 <= k < |gates| :: gates[k](a) == gates[k](b) && !gates[k](a).Locate?
    ensures RunGates(gates, a).Stopped? <==> RunGates(gates, b).Stopped?
    ensures RunGates(gates, a).Stopped? ==> RunGates(gates, a) == RunGates(gates, b)
    decreases |gates|
  {
    if |gates| > 0 && gates[0](a).Continue? {
      var rest := gates[1..];
      assert forall k | 0 <= k < |rest| :: rest[k] == gates[k + 1];
      SameVerdicts(rest, a, b);
    }
  }

  /** A chain whose first gate attaches a record runs the rest of its gates
      with that record attached. */
  lemma LocateThenRun<R>(gates: seq<Gate<R>>, req: Request<R>, i: nat)
    requires |gates| > 0 && gates[0](req) == Locate(i)
    ensures RunGates(gates, req) == RunGates(gates[1..], req.(located := Some(i)))
  {
  }

  /** A chain that starts with a lookup and then only checks: a failing
      lookup is the chain's error, and a chain that passes after a lookup
      hands on exactly the request with the looked-up record attached. */
  lemma {:induction false} LookupThenChecks<R>(gates: seq<Gate<R>>, req: Request<R>)
    requires |gates| > 0
    requires gates[0](req).Locate? ==>
      forall k | 1 <= k < |gates| :: !gates[k](req.(located := Some(gates[0](req).index))).Locate?
    ensures gates[0](req).Fail? ==> RunGates(gates, req) == Stopped(gates[0](req).failure)
    ensures gates[0](req).Locate? && RunGates(gates, req).Passed? ==>
      RunGates(gates, req).req == req.(located := Some(gates[0](req).index))
  {
    if gates[0](req).Locate? {
      var rest := gates[1..];
      var located := req.(located := Some(gates[0](req).index));
      assert forall k | 0 <= k < |rest| :: rest[k] == gates[k + 1];
      RunChecks(rest, located);
    }
  }

  /** `bodyDataHas(field)`: continues exactly when the body's data is an
      object whose `field` is truthy. `data = {}` defaults only an absent
      data member, so a `null` one makes the read throw. */
  function BodyDataHas<R>(kind: Kind, field: string, req: Request<R>): (v: Verdict)
    ensures v.Continue? <==> req.data.JObj? && Truthy(Field(req.data, field))
    ensures v.Fail? <==> !v.Continue?
    ensures v.Fail? ==>
      v.failure == (if req.data == JNull then Thrown else Failure(400, MissingField(kind, field)))
  {
    match Get(OrEmpty(req.data), field)
    case None => Fail(Thrown)
    case Some(value) =>
      if Truthy(value) then Continue else Fail(Failure(400, MissingField(kind, field)))
  }

  /** The ids of a collection, position by position. */
  function Ids<R>(store: seq<R>, idOf: R -> string): (ids: seq<string>)
    ensures |ids| == |store|
    ensures forall k | 0 <= k < |store| :: ids[k] == idOf(store[k])
  {
    seq(|store|, k requires 0 <= k < |store| => idOf(store[k]))
  }

  /** No two records of the collection share an id. */
  predicate UniqueIds<R>(store: seq<R>, idOf: R -> string) {
    forall j, k | 0 <= j < k < |store| :: idOf(store[j]) != idOf(store[k])
  }

  /** Where a lookup by id finds its record: the first one carrying the id. */
  function Position<R>(store: seq<R>, idOf: R -> string, id: string): Option<nat> {
    FirstIndexOf(Ids(store, idOf), id)
  }

  /** `read`: answers with the attached record and never changes the
      collection. Both controllers' `read` are this handler. */
  function Read<R>(req: Request<R>): (e: Effect<R>)
    ensures e.store == req.store
    ensures Located(req).Some? ==> e.reply == Sent(200, Record(req.store[Located(req).value]))
    ensures Located(req).None? ==> e.reply == Sent(200, NoData)
  {
    match Located(req)
    case Some(i) => Effect(req.store, Sent(200, Record(req.store[i])))
    case None => Effect(req.store, Sent(200, NoData))
  }

  /** `collection.find(r => r.id === id)` on the sequence of ids: the first
      position holding `id`. */
  function FirstIndexOf(ids: seq<string>, id: string): (r: Option<nat>)
    ensures r.None? <==> id !in ids
    ensures r.Some? ==> r.value < |ids| && ids[r.value] == id
    ensures r.Some? ==> forall j | 0 <= j < r.value :: ids[j] != id
  {
    if |ids| == 0 then None
    else if ids[0] == id then Some(0)
    else
      match FirstIndexOf(ids[1..], id)
      case None => None
      case Some(k) => Some(k + 1)
  }

  /** The length of the longest id. */
  function MaxLength(ids: seq<string>): (m: nat)
    ensures forall k | 0 <= k < |ids| :: |ids[k]| <= m
    ensures |ids| > 0 ==> exists k | 0 <= k < |ids| :: |ids[k]| == m
  {
    if |ids| == 0 then 0
    else
      var m := MaxLength(ids[1..]);
      if |ids[0]| >= m then |ids[0]| else m
  }

  /** The create chains take the id `nextId()` hands out as a parameter, and
      the lemmas that need its freshness assume it. That assumption can
      always be met: an id longer than every stored one is not stored. */
  function FreshId(ids: seq<string>): (id: string)
    ensures id !in ids
    ensures |id| > 0
  {
    var n := MaxLength(ids) + 1;
    seq(n, _ => 'x')
  }

  /** `array.filter(r => r.id == id)`: the records carrying `id`, each as
      often as the collection holds it (`MatchingCount`), in the collection's
      order (`MatchingConcat`). */
  function Matching<R(==)>(store: seq<R>, idOf: R -> string, id: string): (r: seq<R>)
    ensures |r| <= |store|
    ensures forall x | x in r :: x in store && idOf(x) == id
    ensures forall k | 0 <= k < |store| && idOf(store[k]) == id :: store[k] in r
  {
    if |store| == 0 then []
    else
      var rest := Matching(store[1..], idOf, id);
      assert forall k | 1 <= k < |store| :: store[k] == store[1..][k - 1];
      if idOf(store[0]) == id then [store[0]] + rest else rest
  }

  /** Filtering keeps each matching record as often as the collection holds
      it, and no other record. */
  lemma {:induction false} MatchingCount<R>(store: seq<R>, idOf: R -> string, id: string, x: R)
    ensures multiset(Matching(store, idOf, id))[x] == if idOf(x) == id then multiset(store)[x] else 0
    decreases |store|
  {
    if |store| > 0 {
      assert store == [store[0]] + store[1..];
      MatchingCount(store[1..], idOf, id, x);
    }
  }

  /** Filtering keeps the collection's order: the matches of a concatenation
      are the matches of its first part followed by those of its second. */
  lemma {:induction false} MatchingConcat<R>(a: seq<R>, b: seq<R>, idOf: R -> string, id: string)
    ensures Matching(a + b, idOf, id) == Matching(a, idOf, id) + Matching(b, idOf, id)
    decreases |a|
  {
    if |a| == 0 {
      assert a + b == b;
    } else {
      var head := if idOf(a[0]) == id then [a[0]] else [];
      assert (a + b)[0] == a[0] && (a + b)[1..] == a[1..] + b;
      assert Matching(a + b, idOf, id) == head + Matching(a[1..] + b, idOf, id);
      assert Matching(a, idOf, id) == head + Matching(a[1..], idOf, id);
      MatchingConcat(a[1..], b, idOf, id);
    }
  }

  /** When ids are distinct, filtering by the id of `store[k]` yields exactly
      that record, and filtering by an id nobody has yields nothing. */
  lemma {:induction false} MatchingUnique<R>(store: seq<R>, idOf: R -> string, id: string)
    requires forall j, k | 0 <= j < k < |store| :: idOf(store[j]) != idOf(store[k])
    ensures forall k | 0 <= k < |store| && idOf(store[k]) == id :: Matching(store, idOf, id) == [store[k]]
    ensures (forall k | 0 <= k < |store| :: idOf(store[k]) != id) ==> Matching(store, idOf, id) == []
    decreases |store|
  {
    if |store| > 0 {
      var tail := store[1..];
      assert forall k | 1 <= k < |store| :: store[k] == tail[k - 1];
      MatchingUnique(tail, idOf, id);
      if idOf(store[0]) == id {
        assert forall k | 0 <= k < |tail| :: idOf(tail[k]) != id;
      }
    }
  }

  /** `array.findIndex(pred)`: the first position satisfying `pred`, or -1. */
  function FindIndex<R>(s: seq<R>, pred: R -> bool): (r: int)
    ensures -1 <= r < |s|
    ensures r == -1 <==> forall k | 0 <= k < |s| :: !pred(s[k])
    ensures r >= 0 ==> pred(s[r]) && forall k | 0 <= k < r :: !pred(s[k])
  {
    if |s| == 0 then -1
    else if pred(s[0]) then 0
    else
      var k := FindIndex(s[1..], pred);
      if k == -1 then -1 else k + 1
  }

  /** `array.splice(start, 1)` on the collection: a negative start counts
      back from the end (and is clamped at 0), a start past the end removes
      nothing; otherwise exactly the element at the start goes and the rest
      keep their order. */
  function SpliceOne<R>(s: seq<R>, start: int): (r: seq<R>)
    ensures -|s| <= start < |s| ==>
      var k := if start < 0 then |s| + start else start;
      && |r| == |s| - 1
      && (forall j | 0 <= j < k :: r[j] == s[j])
      && (forall j | k <= j < |r| :: r[j] == s[j + 1])
      && multiset(r) + multiset{s[k]} == multiset(s)
    ensures start >= |s| ==> r == s
    ensures start < -|s| && |s| > 0 ==> r == s[1..]
    ensures |s| == 0 ==> r == []
  {
    var k := if start >= 0 then start else if |s| + start < 0 then 0 else |s| + start;
    if k < |s| then
      assert s == s[..k] + [s[k]] + s[k + 1..];
      s[..k] + s[k + 1..]
    else s
  }
}
