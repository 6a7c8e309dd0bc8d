# GrubDash request pipelines in Dafny

This project models the core of the GrubDash restaurant-ordering API. That core is the request-validation-and-mutation pipelines of its two collections, dishes and orders. Each exported chain is an ordered list of gates followed by a terminal handler. A gate either calls `next()`, attaches the record it looked up to `res.locals` and then calls `next()`, or calls `next(error)` with a status and a message. The handler reads or changes the in-memory array and sends the response.

In the model:

- `Json` describes the values a parsed body can hold. It defines JavaScript truthiness, `Number.isInteger` and property reads that throw on `null` and `undefined` exactly, without floats. The loose `v <= 0` is exact on numbers, booleans and `null`; on strings and arrays it is approximated (see Left out).
- `Pipeline` holds the shared parts:
  - the error descriptor (`Failure`: a status and a `Reason`);
  - the per-request context (`Request`: body data, route id, collection, attached record);
  - gates as total functions `Request -> Verdict`;
  - `RunGates`, which folds a chain's gates and stops at the first failure, and `Serve`, which then runs the handler;
  - what both controllers share: the `bodyDataHas` gate, the `read` handler, ids and lookup by id (`Ids`, `Position`, `UniqueIds`), `filter` (both controllers), and `findIndex` and `splice` (the orders `destroy`).
- `Orders` and `Dishes` follow the two controller files: one function per gate and per handler, and the exported chains as constant sequences of gates in the exported order.
- `OrderProperties` and `DishProperties` prove what the chains guarantee:
  - when each chain succeeds (an if-and-only-if on the body and the collection);
  - what a success does to the collection;
  - that rejections leave the collection alone;
  - that the conditions the gates impose on stored records, and distinct ids, are preserved.

Modelling decisions:

- **First terminal call wins.** Several order gates call `next(error)` without returning and then call `next()` (orders.controller.js:45-52, 57-63, 68-74, 79-85). The model treats the first `next(error)` as terminal. In Express 4 the route's layer index has already moved past the remaining layers by then, so the later `next()` does not reach the handler.
- **Thrown TypeErrors.** A property read on `null` or `undefined` throws, for example a `null` `data` member or a `null` dish line. The model gives this `Failure(500, TypeError)`, because Express forwards a synchronous throw to the error handler, which defaults to 500.
- **`statusNotDelivered` checks the request.** It tests the status in the request body (orders.controller.js:56-57), not the stored order's status. Its error message (orders.controller.js:60) announces that a delivered order cannot be changed. The model follows the code:
  - `DeliveredOrderCanChange` shows that a stored delivered order can be updated back to pending;
  - `UpdateChainOverwrites` shows that an update never stores "delivered".
- **Field checks use truthiness.** Required fields are checked for truthiness, as the code does. So `0`, `""`, `false`, `null` and an absent field are all rejected alike.
- **Records hold raw body values.** Record fields other than `id` hold whatever JSON value the body carried; the gates decide what is admitted. Ids are strings.
- **Fresh ids.** `nextId` is not part of this model. The create chains take the id it hands out as a parameter `newId`. The lemmas that need the id to be fresh assume `newId` is not a stored id. `DishProperties.CreateIgnoresBodyId` compares two runs given the same `newId`. `Pipeline.FreshId` shows that freshness can always be met.
- **Route id on routes without one.** The create routes have no id parameter. Their chains pass `""` as the route id, and no gate on them reads it. The list handlers take the route id as an `Option<string>`, absent on `GET /orders` and `GET /dishes`.
- **`destroy` removes the wrong order.** See Findings. The delete chain uses the corrected `Orders.Destroy`. `Orders.DeleteChainAsWritten` keeps the code's behaviour for comparison.

## Model

| member | source | states |
|---|---|---|
| Json.Truthy | src/orders/orders.controller.js:25 | exactly `undefined`, `null`, `false`, `0` and `""` are falsy |
| Json.Get | src/orders/orders.controller.js:90 | a property read throws exactly on `null` and `undefined`, and otherwise yields the own property or `undefined` |
| Json.Elements | src/orders/orders.controller.js:43 | reading `.length` throws exactly on `null` and `undefined`; an array's loop visits its elements |
| Pipeline.RunGates | src/orders/orders.controller.js:142-174 | running a chain's gates never changes the body, the route id or the collection; a record once attached stays attached |
| Pipeline.Serve | src/orders/orders.controller.js:142-174 | when no gate attaches a record: the handler runs on the request itself iff every gate continued, and otherwise the answer is the first failing gate's error with the collection left alone; a stopped chain never changes the collection |
| Pipeline.ChecksOutcome | src/orders/orders.controller.js:144-151 | for gates that attach nothing, all continuing hands on the unchanged request, and the first failing gate is the one whose error stops the chain |
| Pipeline.RunChecks | src/orders/orders.controller.js:142-174 | gates that attach nothing pass exactly when every gate continues; otherwise the error reported is that of the first failing gate |
| Pipeline.LookupThenChecks | src/orders/orders.controller.js:152-155 | in a chain that starts with a lookup and then only checks, a failed lookup is the chain's error, and a passing chain hands on the request with the looked-up record attached |
| Pipeline.SameVerdicts | src/dishes/dishes.controller.js:88-107 | two requests on which every gate agrees are stopped alike, by the same error |
| Pipeline.BodyDataHas | src/orders/orders.controller.js:22-30 | continues iff the body data is an object whose field is truthy; otherwise 400 naming the field, or a TypeError when data is `null` (dishes.controller.js:21-29 is the same gate) |
| Pipeline.FirstIndexOf | src/orders/orders.controller.js:11 | `find` by id: absent iff no record has the id, else the first position holding it |
| Pipeline.FreshId | src/orders/orders.controller.js:108 | an id outside the collection always exists, so the freshness assumed of `nextId` can be met |
| Pipeline.Matching | src/orders/orders.controller.js:100-102 | `filter` by id keeps only records carrying the id, keeps every one of them, and never more records than there are |
| Pipeline.MatchingCount | src/orders/orders.controller.js:100-102 | `filter` keeps each matching record exactly as often as the collection holds it, and no other record |
| Pipeline.MatchingConcat | src/orders/orders.controller.js:100-102 | `filter` keeps the collection's order: filtering a concatenation concatenates the filtered parts |
| Pipeline.MatchingUnique | src/dishes/dishes.controller.js:54-56 | with distinct ids, filtering by a record's id yields exactly that record, and by an absent id nothing |
| Pipeline.FindIndex | src/orders/orders.controller.js:136 | `findIndex` is -1 iff nothing matches, else the first matching position |
| Pipeline.SpliceOne | src/orders/orders.controller.js:137 | `splice(start, 1)` removes exactly one element and keeps the others in order, counting a negative start from the end; a start past the end, or an empty collection, leaves it unchanged |
| Orders.OrderExists | src/orders/orders.controller.js:9-20 | attaches an order iff one has the route id, and then the first; otherwise 404 naming the id |
| Orders.DishesIsArray | src/orders/orders.controller.js:32-39 | continues iff `dishes` is a non-empty array; otherwise 400, or a TypeError for `null` data |
| Orders.CheckLine | src/orders/orders.controller.js:44-50 | one iteration rejects a line iff it is not an object with a positive integer quantity |
| Orders.LineCheck | src/orders/orders.controller.js:44 | the three-way quantity test is equivalent to "positive integer" |
| Orders.ScanLines | src/orders/orders.controller.js:43-53 | the loop continues iff every remaining line is valid, else reports the first invalid line by index |
| Orders.QuantityIsValid | src/orders/orders.controller.js:41-53 | on an array of lines, continues iff every line has a positive integer quantity, else fails on the first bad line with its index |
| Orders.StatusNotDelivered | src/orders/orders.controller.js:55-64 | fails iff the request's status is "delivered" (or data is missing, which throws) |
| Orders.StatusIsValid | src/orders/orders.controller.js:66-75 | continues iff the request's status is pending, preparing, out-for-delivery or delivered; otherwise 400, or a TypeError when data is missing |
| Orders.StatusIsPending | src/orders/orders.controller.js:77-86 | continues iff the attached order's stored status is "pending"; otherwise 400 |
| Orders.IdIsValidAndMatches | src/orders/orders.controller.js:88-96 | fails iff the body id is truthy and differs from the route id (400 naming both), or data is missing (a TypeError, as the read has no default) |
| Orders.List | src/orders/orders.controller.js:98-103 | never changes the collection; without a truthy route id returns it whole, with one returns exactly the orders carrying it |
| Orders.Create | src/orders/orders.controller.js:105-116 | appends exactly one pending order with the new id and the body's fields, keeps the others in order, answers 201 |
| Pipeline.Read | src/orders/orders.controller.js:118-121 | answers 200 with the attached record and never changes the collection (dishes.controller.js:72-75 is the same handler) |
| Orders.Update | src/orders/orders.controller.js:123-132 | overwrites the four mutable fields of the attached order, keeps its id, touches no other order, answers 200 |
| Orders.IdEqualsNumberOf | src/orders/orders.controller.js:136 | `order.id === Number(orderId)` is false for every string id and route id, because a string is never strictly equal to a number |
| Orders.DestroyAsWritten | src/orders/orders.controller.js:134-139 | as written, removes the last order whatever the route id, answers 204 |
| Orders.Destroy | src/orders/orders.controller.js:134-139 | as intended, removes exactly the attached order, keeping the rest in order, answers 204 |
| Orders.CreateChain | src/orders/orders.controller.js:144-151 | `CreateGates` (bodyDataHas deliverTo, mobileNumber, dishes; dishesIsArray; quantityIsValid) then create: a rejection leaves the collection alone, a success appends one pending order with the new id and answers 201 |
| Orders.ReadChain | src/orders/orders.controller.js:152-155 | `ReadGates` (orderExists) then read: 404 exactly when no order has the id, otherwise 200 with an order carrying it; the collection never changes |
| Orders.UpdateChain | src/orders/orders.controller.js:156-168 | `UpdateGates` (orderExists, four bodyDataHas, dishesIsArray, quantityIsValid, statusNotDelivered, statusIsValid, idIsValidAndMatches) then update: a missing order is 404, a rejection leaves the collection alone, a success keeps its size and answers 200 |
| Orders.DeleteChain | src/orders/orders.controller.js:169-173 | `DeleteGates` (orderExists, statusIsPending) then the corrected destroy: a missing order is 404, a rejection leaves the collection alone, a success removes one order and answers 204 |
| Orders.DeleteChainAsWritten | src/orders/orders.controller.js:169-173 | the same gates then destroy as written: a success drops the last order whichever one was located |
| OrderProperties.OrderExistsFindsPosition | src/orders/orders.controller.js:9-20 | the lookup gate attaches the first order with the id, or fails with 404 |
| OrderProperties.ListSpec | src/orders/orders.controller.js:98-103 | with distinct ids, listing by an id yields exactly the order the lookup finds, or nothing; without an id the whole collection |
| OrderProperties.ReadChainSpec | src/orders/orders.controller.js:152-155 | the read chain answers with the order the id names or 404, and never changes the collection |
| OrderProperties.CreateGatesVerdict | src/orders/orders.controller.js:144-151 | the create gates pass iff the body is valid; a rejection is a 400 (a `MissingField` one names a field that is indeed falsy), or 500 only for a null body or null line |
| OrderProperties.CreateGatesMissingField | src/orders/orders.controller.js:144-151 | a body lacking deliverTo, mobileNumber or dishes is rejected with 400 naming the first missing one |
| OrderProperties.CreateChainRejects | src/orders/orders.controller.js:144-151 | the create chain rejects exactly invalid bodies and then leaves the collection alone |
| OrderProperties.CreateChainAppends | src/orders/orders.controller.js:105-116 | a successful create appends one valid pending order with the id `nextId` handed out and the body's fields, answering 201 |
| OrderProperties.UpdateChecksPass | src/orders/orders.controller.js:157-168 | after the lookup, the update checks pass iff the body is valid for the route id |
| OrderProperties.UpdateChecksFailure | src/orders/orders.controller.js:157-168 | an update check's rejection is a 400 or a TypeError |
| OrderProperties.UpdateGatesVerdict | src/orders/orders.controller.js:156-168 | the update gates pass iff the order exists and the body is valid; a missing order is 404 naming the id |
| OrderProperties.UpdateChainRejects | src/orders/orders.controller.js:156-168 | the update chain rejects exactly when the order is missing or the body invalid, and then leaves the collection alone |
| OrderProperties.UpdateChainOverwrites | src/orders/orders.controller.js:123-132 | a successful update rewrites only the located order's four fields, keeps its id, and never stores "delivered" |
| OrderProperties.DeleteChainRejects | src/orders/orders.controller.js:169-173 | the delete chain goes through iff the order exists and is pending; otherwise 404 or 400 and the collection stays |
| OrderProperties.DeleteChainRemoves | src/orders/orders.controller.js:169-173 | a successful delete removes exactly the located order, keeps the rest in order, answers 204 |
| OrderProperties.CreatePreservesInvariants | src/orders/orders.controller.js:144-151 | the create chain keeps every stored order valid and, with a fresh id from `nextId`, the ids distinct |
| OrderProperties.UpdatePreservesInvariants | src/orders/orders.controller.js:156-168 | the update chain keeps every stored order valid and the ids distinct |
| OrderProperties.DeletePreservesInvariants | src/orders/orders.controller.js:169-173 | the delete chain keeps every stored order valid and the ids distinct |
| OrderProperties.DeletedOrderIsGone | src/orders/orders.controller.js:134-139 | with distinct ids, an order the delete chain removed reads as 404 afterwards |
| OrderProperties.DeliveredOrderCanChange | src/orders/orders.controller.js:55-64 | a stored delivered order is updated to pending without complaint, because only the request's status is checked |
| OrderProperties.DestroyAsWrittenRemovesWrongOrder | src/orders/orders.controller.js:134-139 | deleting pending order "a" from [a, b] with the code as written removes b, and a stays readable |
| OrderProperties.DestroyRemovesLocatedOrder | src/orders/orders.controller.js:134-139 | the corrected delete removes "a" from [a, b] and keeps b |
| Dishes.DishExists | src/dishes/dishes.controller.js:8-19 | attaches a dish iff one has the route id, and then the first; otherwise 404 naming the id |
| Dishes.PriceIsValid | src/dishes/dishes.controller.js:31-40 | continues iff the price is an integer greater than 0; an absent or non-integer price is a 400 |
| Dishes.IdIsValidAndMatches | src/dishes/dishes.controller.js:42-50 | fails iff the body id is truthy and differs from the route id (400 naming both), or data is `null` |
| Dishes.List | src/dishes/dishes.controller.js:52-57 | never changes the collection; without a truthy route id returns it whole, with one returns exactly the dishes carrying it |
| Dishes.Create | src/dishes/dishes.controller.js:59-70 | appends exactly one dish with the new id and the body's four fields, keeps the others in order, answers 201 |
| Dishes.Update | src/dishes/dishes.controller.js:77-86 | overwrites the four mutable fields of the attached dish, keeps its id, touches no other dish, answers 200 |
| Dishes.CreateChain | src/dishes/dishes.controller.js:89-96 | `CreateGates` (bodyDataHas name, description, image_url, price; priceIsValid) then create: a rejection leaves the collection alone, a success appends one dish with the new id and answers 201 |
| Dishes.ReadChain | src/dishes/dishes.controller.js:98 | `ReadGates` (dishExists) then read: 404 exactly when no dish has the id, otherwise 200 with a dish carrying it; the collection never changes |
| Dishes.UpdateChain | src/dishes/dishes.controller.js:99-107 | `UpdateGates` (dishExists, three bodyDataHas, priceIsValid, idIsValidAndMatches) then update: a missing dish is 404, a rejection leaves the collection alone, a success keeps its size and answers 200 |
| DishProperties.DishExistsFindsPosition | src/dishes/dishes.controller.js:8-19 | the lookup gate attaches the first dish with the id, or fails with 404 |
| DishProperties.CreateGatesVerdict | src/dishes/dishes.controller.js:89-96 | the create gates pass iff the body is valid; a rejection is a 400 (a `MissingField` one names a field that is indeed falsy), or 500 for a null body |
| DishProperties.CreateGatesMissingField | src/dishes/dishes.controller.js:89-96 | a body lacking name, description, image_url or price is rejected with 400 naming the first missing one |
| DishProperties.CreateChainRejects | src/dishes/dishes.controller.js:89-96 | the create chain rejects exactly invalid bodies and then leaves the collection alone |
| DishProperties.CreateChainAppends | src/dishes/dishes.controller.js:59-70 | a successful create appends one dish with the id `nextId` handed out, the body's fields, a positive integer price and truthy name, description and image_url |
| DishProperties.CreateGatesIgnoreBodyId | src/dishes/dishes.controller.js:89-96 | the create gates give the same verdicts on bodies that differ only in `id` |
| DishProperties.CreateIgnoresBodyId | src/dishes/dishes.controller.js:59-70 | given the same id from `nextId`, a body id plays no part in creating a dish |
| DishProperties.ListSpec | src/dishes/dishes.controller.js:52-57 | with distinct ids, listing by an id yields exactly the dish the lookup finds, or nothing; without an id the whole collection |
| DishProperties.ReadChainSpec | src/dishes/dishes.controller.js:98 | the read chain answers with the dish the id names or 404, and never changes the collection |
| DishProperties.UpdateChecksPass | src/dishes/dishes.controller.js:99-107 | after the lookup, the update checks pass iff the body is valid for the route id; rejections are 400 (500 for null data) |
| DishProperties.UpdateGatesVerdict | src/dishes/dishes.controller.js:99-107 | the update gates pass iff the dish exists and the body is valid; a missing dish is 404 naming the id |
| DishProperties.UpdateChainRejects | src/dishes/dishes.controller.js:99-107 | the update chain rejects exactly when the dish is missing or the body invalid, and then leaves the collection alone |
| DishProperties.UpdateChainOverwrites | src/dishes/dishes.controller.js:77-86 | a successful update rewrites only the located dish's four fields with valid values and keeps its id |
| DishProperties.CreatePreservesInvariants | src/dishes/dishes.controller.js:89-96 | the create chain keeps every stored dish valid and, with a fresh id from `nextId`, the ids distinct |
| DishProperties.UpdatePreservesInvariants | src/dishes/dishes.controller.js:99-107 | the update chain keeps every stored dish valid and the ids distinct |
| DishProperties.TacoExample | src/dishes/dishes.controller.js:59-70 | the API's example request, creating {name "Taco", description "d", price 5, image_url "u"}, appends and answers 201 with a dish of those four fields under the id `nextId` handed out |

## Left out

- Express routing (src/orders/orders.router.js), `methodNotAllowed` and the error-rendering middleware are HTTP glue. The dishes router is not part of this model.
- `res.json`, `res.status`, `res.sendStatus` and `res.locals` are replaced by the returned `Effect` (new collection plus `Reply`) and the attached index in `Request`.
- Exact message strings are left out. A `Reason` records the rule that failed and the field, index or ids it names.
- The double `next()` of gates that do not return after `next(error)` is modelled as its first terminal call only.
- `nextId` and the seed data files are not part of this model. The initial collection is any sequence. The id `nextId` hands out is a parameter, assumed fresh where a lemma needs it.
- Ids are strings. Of `nextId` this is assumed, since its implementation is not part of this model; an id `orderExists` finds with `===` against a route parameter is a string. So `==` in `list` is modelled as `===`. Non-string ids in seed data are not modelled.
- Json.NumberOf: `Number(s)` gives its value only to plain decimal digit strings; signs, exponents, blanks and non-numeric strings get a stand-in number that equals nothing. Its one use, the `destroy` search, depends only on the result being a number.
- Json.LooseLeqZero: the numeric coercion of strings and arrays in `v <= 0` is taken as false. This changes no gate's outcome, because `Number.isInteger` rejects those values in the same condition.
- Orders.QuantityIsValid: its contract speaks only of array-valued `dishes`, the only kind the preceding `dishesIsArray` gate lets through. Its body also follows the code for strings, numbers and `null`. An object-valued `dishes` carrying its own numeric `length` key is treated as having no length.
- Property names that strings, arrays or objects inherit are not modelled. None of the keys the controllers read is one.
- The request body is taken to be a parsed JSON object, as the JSON body parser delivers it. Only its `data` member is modelled.
- Records in the collection are distinct objects, so mutating the attached record changes exactly one position. Concurrency is left out: requests run one at a time to completion.

## Findings

| source | as written | input that shows it | evidently intended | confidence | as-written member | corrected member |
|---|---|---|---|---|---|---|
| src/orders/orders.controller.js:136-137 | `findIndex(order => order.id === Number(orderId))` compares string ids with a number, so it is always -1, and `splice(-1, 1)` removes the last order | collection [a (pending), b (preparing)], DELETE /orders/a: answers 204, removes b, a remains readable | remove the order `orderExists` located | high; not executed | Orders.DestroyAsWritten, shown by OrderProperties.DestroyAsWrittenRemovesWrongOrder | Orders.Destroy, with OrderProperties.DeleteChainRemoves and OrderProperties.DeletedOrderIsGone |
