/** Whole runs of the order saga: any interleaving of placements with any number of dispatchers
    that claim events, crash, are overtaken, retry and give up
    (microservice/order/service.go, store.go, dispatcher.go).

    A worker is the copy of an event it claimed.  Copies are never taken back: a worker that
    crashed is one that takes no further step, and one that was overtaken still holds its copy.
    Every step of the store is atomic, as the store's mutex makes it. */
module OrderSaga {
  import opened OrderDomain
  import opened OrderStore
  import opened OrderDispatch
  import opened RetryBackoff

  datatype System = System(tables: Tables, issued: set<string>, claimed: set<OutboxEvent>)

  const START: System := System(EMPTY, {}, {})

  datatype Step =
    | Place(request: PlaceOrderRequest, orderID: string, eventID: string, now: int)
    | Claim(eventID: string, token: string, now: int, until: int)
    | Deliver(copy: OutboxEvent, reply: Reply, nextID: string, now: int)

  predicate Fresh(s: System, id: string) {
    id != "" && id !in s.issued
  }

  /** A step that cannot be taken stutters, so every sequence of steps is a run. */
  predicate Enabled(s: System, step: Step) {
    match step
    case Place(_, orderID, eventID, _) => Fresh(s, orderID) && Fresh(s, eventID) && orderID != eventID
    case Claim(id, token, now, _) => id in s.tables.events && IsDue(s.tables.events[id], now) && Fresh(s, token)
    case Deliver(copy, _, nextID, _) => copy in s.claimed && Fresh(s, nextID)
  }

  function Commit(t: Tables, r: Result<Tables>): Tables {
    match r
    case Ok(next) => next
    case Err(_) => t
  }

  function Exec(policy: RetryPolicy, s: System, step: Step): System {
    if !Enabled(s, step) then s
    else match step
      case Place(r, orderID, eventID, now) =>
        System(if IsValid(r) then Commit(s.tables, PlaceTo(s.tables, r, orderID, eventID, now)) else s.tables,
               s.issued + {orderID, eventID}, s.claimed)
      case Claim(id, token, _, until) =>
        var copy := Leased(s.tables.events[id], token, until);
        System(s.tables.(events := s.tables.events[id := copy]), s.issued + {token}, s.claimed + {copy})
      case Deliver(copy, reply, nextID, now) =>
        System(Commit(s.tables, DeliverTo(policy, s.tables, copy, reply, nextID, now)),
               s.issued + {nextID}, s.claimed)
  }

  /** The system after the first `k` steps of a run. */
  function After(policy: RetryPolicy, run: seq<Step>, k: nat): System
    requires k <= |run|
  {
    if k == 0 then START else Exec(policy, After(policy, run, k - 1), run[k - 1])
  }

  // ---------------------------------------------------------------- the invariant

  predicate Open(e: OutboxEvent) {
    e.state == EventPending || e.state == EventRetry || e.state == EventProcessing
  }

  /** The order's status and margin, as far as one event of it dictates them. */
  predicate Fits(o: Order, e: OutboxEvent) {
    match e.kind
    case ReserveMargin =>
      if Open(e) then o.status == PendingMargin && o.margin == MarginNone
      else if e.state == EventDead then o.status == ReconciliationRequired && o.margin == MarginNone
      else o.status == Rejected || o.margin != MarginNone
    case RouteExchange =>
      if Open(e) then o.status == PendingRoute && o.margin == MarginReserved
      else if e.state == EventDead then o.status == ReconciliationRequired && o.margin == MarginReserved
      else (o.status == Accepted && o.margin == MarginReserved) || CompensationBegun(o)
    case ReleaseMargin =>
      if Open(e) then o.status == Rejected && o.margin == MarginReleasePending
      else if e.state == EventDead then o.status == ReconciliationRequired && o.margin == MarginReleasePending
      else o.status == Rejected && o.margin == MarginReleased
  }

  predicate CompensationBegun(o: Order) {
    o.margin == MarginReleasePending || o.margin == MarginReleased
  }

  type Orders = map<string, Order>
  type Events = map<string, OutboxEvent>

  ghost predicate HasEvent(events: Events, orderID: string, kind: EventKind) {
    exists id :: id in events && events[id].orderID == orderID && events[id].kind == kind
  }

  predicate RowFits(orders: Orders, id: string, e: OutboxEvent) {
    e.id == id && e.orderID in orders && Fits(orders[e.orderID], e)
  }

  /** Every event fits its order. */
  ghost predicate EventsFit(orders: Orders, events: Events) {
    forall id | id in events :: RowFits(orders, id, events[id])
  }

  /** An order has at most one event of each kind. */
  ghost predicate OnePerKind(events: Events) {
    forall id, other | id in events && other in events &&
      events[id].orderID == events[other].orderID && events[id].kind == events[other].kind :: id == other
  }

  /** Every stage the order has entered has its event. */
  ghost predicate OrderStaged(id: string, o: Order, events: Events) {
    && o.id == id
    && HasEvent(events, id, ReserveMargin)
    && (o.margin != MarginNone ==> HasEvent(events, id, RouteExchange))
    && (CompensationBegun(o) ==> HasEvent(events, id, ReleaseMargin))
  }

  ghost predicate StagesExist(orders: Orders, events: Events) {
    forall id | id in orders :: OrderStaged(id, orders[id], events)
  }

  predicate LeaseInOrder(policy: RetryPolicy, e: OutboxEvent) {
    && (e.state == EventProcessing <==> e.leaseToken != "")
    && (Open(e) ==> e.attempts < policy.maxAttempts)
  }

  ghost predicate LeasesInOrder(policy: RetryPolicy, events: Events) {
    forall id | id in events :: LeaseInOrder(policy, events[id])
  }

  function RequestOf(o: Order): PlaceOrderRequest {
    PlaceOrderRequest(o.accountID, o.idempotencyKey, o.instrument, o.side, o.quantity, o.limitPrice)
  }

  predicate WellPlaced(o: Order) {
    IsValid(RequestOf(o)) && o.requestHash == RequestFingerprint(RequestOf(o))
  }

  function IndexOf(o: Order): string {
    IdempotencyIndex(o.accountID, o.idempotencyKey)
  }

  /** The idempotency map is exactly the inverse of the orders' index. */
  ghost predicate Indexed(orders: Orders, byIdempotency: map<string, string>) {
    && (forall id | id in orders ::
          IndexOf(orders[id]) in byIdempotency && byIdempotency[IndexOf(orders[id])] == id)
    && (forall index | index in byIdempotency ::
          byIdempotency[index] in orders && IndexOf(orders[byIdempotency[index]]) == index)
  }

  ghost predicate AllWellPlaced(orders: Orders) {
    forall id | id in orders :: WellPlaced(orders[id])
  }

  ghost predicate TablesInv(policy: RetryPolicy, t: Tables) {
    && EventsFit(t.orders, t.events) && OnePerKind(t.events) && StagesExist(t.orders, t.events)
    && LeasesInOrder(policy, t.events) && Indexed(t.orders, t.byIdempotency) && AllWellPlaced(t.orders)
  }

  /** Everything in use has been issued. */
  ghost predicate AllIssued(s: System) {
    && s.tables.orders.Keys <= s.issued && s.tables.events.Keys <= s.issued
    && "" !in s.issued
    && (forall id | id in s.tables.events && s.tables.events[id].leaseToken != "" ::
          s.tables.events[id].leaseToken in s.issued)
    && (forall c | c in s.claimed :: c.leaseToken in s.issued)
  }

  /** A claimed copy agrees with its row for as long as its lease lasts. */
  predicate CopyInOrder(t: Tables, c: OutboxEvent) {
    && c.id in t.events && c.leaseToken != "" && c.state == EventProcessing
    && t.events[c.id].orderID == c.orderID && t.events[c.id].kind == c.kind
    && (t.events[c.id].leaseToken == c.leaseToken ==> t.events[c.id] == c)
  }

  ghost predicate CopiesInOrder(s: System) {
    && (forall c | c in s.claimed :: CopyInOrder(s.tables, c))
    && (forall c, d | c in s.claimed && d in s.claimed && c.leaseToken == d.leaseToken :: c == d)
  }

  ghost predicate Inv(policy: RetryPolicy, s: System) {
    TablesInv(policy, s.tables) && AllIssued(s) && CopiesInOrder(s)
  }

  // ---------------------------------------------------------------- placements keep it

  lemma HasEventGrows(events: Events, more: Events, o: string, k: EventKind)
    requires forall id | id in events ::
               id in more && more[id].orderID == events[id].orderID && more[id].kind == events[id].kind
    ensures HasEvent(events, o, k) ==> HasEvent(more, o, k)
  {
    if HasEvent(events, o, k) {
      var id :| id in events && events[id].orderID == o && events[id].kind == k;
      assert more[id].orderID == o && more[id].kind == k;
    }
  }

  lemma StagesGrow(orders: Orders, events: Events, more: Events)
    requires StagesExist(orders, events)
    requires forall id | id in events ::
               id in more && more[id].orderID == events[id].orderID && more[id].kind == events[id].kind
    ensures StagesExist(orders, more)
  {
    forall id | id in orders
      ensures OrderStaged(id, orders[id], more)
    {
      assert OrderStaged(id, orders[id], events);
      HasEventGrows(events, more, id, ReserveMargin);
      HasEventGrows(events, more, id, RouteExchange);
      HasEventGrows(events, more, id, ReleaseMargin);
    }
  }

  /** What a placement of a new order writes. */
  lemma PlaceWrites(t: Tables, r: PlaceOrderRequest, orderID: string, eventID: string, now: int)
    requires orderID !in t.orders
    requires var index := IndexOf(NewOrder(r, orderID)); index in t.byIdempotency ==> t.byIdempotency[index] in t.orders
    ensures var o := NewOrder(r, orderID);
            PlaceTo(t, r, orderID, eventID, now) ==
              if IndexOf(o) !in t.byIdempotency then
                Ok(Tables(t.orders[orderID := o], t.byIdempotency[IndexOf(o) := orderID],
                          t.events[eventID := NewEvent(eventID, orderID, ReserveMargin, now)]))
              else if t.orders[t.byIdempotency[IndexOf(o)]].requestHash == RequestFingerprint(r) then Ok(t)
              else Err(IdempotencyConflict)
  {
  }

  lemma PlaceKeepsEvents(policy: RetryPolicy, orders: Orders, events: Events, o: Order, eventID: string, now: int)
    requires policy.maxAttempts >= 1
    requires EventsFit(orders, events) && OnePerKind(events) && LeasesInOrder(policy, events)
    requires o.id !in orders && eventID !in events && o.status == PendingMargin && o.margin == MarginNone
    ensures var more := events[eventID := NewEvent(eventID, o.id, ReserveMargin, now)];
            EventsFit(orders[o.id := o], more) && OnePerKind(more) && LeasesInOrder(policy, more)
  {
    var more := events[eventID := NewEvent(eventID, o.id, ReserveMargin, now)];
    forall id | id in events
      ensures events[id].orderID != o.id && RowFits(orders[o.id := o], id, more[id])
    {
      assert RowFits(orders, id, events[id]);
    }
  }

  lemma PlaceKeepsStages(orders: Orders, events: Events, o: Order, eventID: string, now: int)
    requires StagesExist(orders, events)
    requires o.id !in orders && eventID !in events && o.margin == MarginNone
    ensures StagesExist(orders[o.id := o], events[eventID := NewEvent(eventID, o.id, ReserveMargin, now)])
  {
    var more := events[eventID := NewEvent(eventID, o.id, ReserveMargin, now)];
    StagesGrow(orders, events, more);
    assert more[eventID].orderID == o.id && more[eventID].kind == ReserveMargin;
    assert HasEvent(more, o.id, ReserveMargin);
  }

  lemma PlaceKeepsIndex(orders: Orders, byIdempotency: map<string, string>, o: Order)
    requires Indexed(orders, byIdempotency) && o.id !in orders && IndexOf(o) !in byIdempotency
    ensures Indexed(orders[o.id := o], byIdempotency[IndexOf(o) := o.id])
  {
  }

  lemma PlaceKeepsTables(policy: RetryPolicy, t: Tables, o: Order, eventID: string, now: int)
    requires policy.maxAttempts >= 1 && TablesInv(policy, t) && WellPlaced(o)
    requires o.id !in t.orders && eventID !in t.events && IndexOf(o) !in t.byIdempotency
    requires o.status == PendingMargin && o.margin == MarginNone
    ensures TablesInv(policy, Tables(t.orders[o.id := o], t.byIdempotency[IndexOf(o) := o.id],
                                     t.events[eventID := NewEvent(eventID, o.id, ReserveMargin, now)]))
  {
    PlaceKeepsEvents(policy, t.orders, t.events, o, eventID, now);
    PlaceKeepsStages(t.orders, t.events, o, eventID, now);
    PlaceKeepsIndex(t.orders, t.byIdempotency, o);
  }

  // ---------------------------------------------------------------- claims keep it

  lemma ClaimKeepsTables(policy: RetryPolicy, t: Tables, id: string, token: string, now: int, until: int)
    requires TablesInv(policy, t) && id in t.events && IsDue(t.events[id], now) && token != ""
    ensures TablesInv(policy, t.(events := t.events[id := Leased(t.events[id], token, until)]))
  {
    LeaseKeepsRows(t.orders, t.events, id, token, now, until);
    LeaseKeepsStages(t.orders, t.events, id, token, until);
    LeaseKeepsOrder(policy, t.events, id, token, now, until);
  }

  lemma LeaseKeepsRows(orders: Orders, events: Events, id: string, token: string, now: int, until: int)
    requires EventsFit(orders, events) && OnePerKind(events) && id in events && IsDue(events[id], now)
    ensures EventsFit(orders, events[id := Leased(events[id], token, until)])
    ensures OnePerKind(events[id := Leased(events[id], token, until)])
  {
    assert RowFits(orders, id, events[id]);
  }

  lemma LeaseKeepsStages(orders: Orders, events: Events, id: string, token: string, until: int)
    requires StagesExist(orders, events) && id in events
    ensures StagesExist(orders, events[id := Leased(events[id], token, until)])
  {
    StagesGrow(orders, events, events[id := Leased(events[id], token, until)]);
  }

  lemma LeaseKeepsOrder(policy: RetryPolicy, events: Events, id: string, token: string, now: int, until: int)
    requires LeasesInOrder(policy, events) && id in events && IsDue(events[id], now) && token != ""
    ensures LeasesInOrder(policy, events[id := Leased(events[id], token, until)])
  {
    assert LeaseInOrder(policy, events[id]);
  }

  // ---------------------------------------------------------------- deliveries keep it

  function MovedEvents(policy: RetryPolicy, events: Events, c: OutboxEvent, reply: Reply, nextID: string, now: int)
    : Events
  {
    WithSuccessors(events, c, reply, nextID, now)[c.id := EventAfter(policy, c, reply, now)]
  }

  /** The tables after a delivery under a live lease. */
  function Moved(policy: RetryPolicy, t: Tables, c: OutboxEvent, reply: Reply, nextID: string, now: int): Tables
    requires c.orderID in t.orders
  {
    Tables(
      t.orders[c.orderID := OrderAfter(policy, t.orders[c.orderID], c, reply)],
      t.byIdempotency,
      MovedEvents(policy, t.events, c, reply, nextID, now))
  }

  /** One delivery, seen from its own order: the delivered event and its successor fit the
      order's new state. */
  lemma MoveFits(policy: RetryPolicy, o: Order, e: OutboxEvent, reply: Reply, nextID: string, now: int)
    requires Fits(o, e) && Open(e)
    ensures Fits(OrderAfter(policy, o, e, reply), EventAfter(policy, e, reply, now))
    ensures e.kind == ReserveMargin && reply.Approved? ==>
            Fits(OrderAfter(policy, o, e, reply), NewEvent(nextID, e.orderID, RouteExchange, now))
    ensures e.kind == RouteExchange && reply.Declined? ==>
            Fits(OrderAfter(policy, o, e, reply), NewEvent(nextID, e.orderID, ReleaseMargin, now))
  {
  }

  /** Every other event of the order fits its new state too, and none is of the next kind. */
  lemma MoveFitsOthers(policy: RetryPolicy, o: Order, e: OutboxEvent, reply: Reply, f: OutboxEvent)
    requires Fits(o, e) && Open(e) && Fits(o, f) && f.kind != e.kind
    ensures Fits(OrderAfter(policy, o, e, reply), f)
    ensures e.kind == ReserveMargin ==> f.kind != RouteExchange
    ensures e.kind == RouteExchange ==> f.kind != ReleaseMargin
  {
  }

  lemma MoveKeepsRow(policy: RetryPolicy, orders: Orders, events: Events, c: OutboxEvent, reply: Reply, nextID: string,
                     now: int, id: string)
    requires EventsFit(orders, events) && OnePerKind(events)
    requires c.id in events && events[c.id] == c && Open(c) && nextID !in events
    requires id in MovedEvents(policy, events, c, reply, nextID, now)
    ensures c.orderID in orders
    ensures RowFits(orders[c.orderID := OrderAfter(policy, orders[c.orderID], c, reply)], id,
                    MovedEvents(policy, events, c, reply, nextID, now)[id])
  {
    assert RowFits(orders, c.id, c);
    var o := orders[c.orderID];
    if id in events && id != c.id {
      assert RowFits(orders, id, events[id]);
      if events[id].orderID == c.orderID {
        MoveFitsOthers(policy, o, c, reply, events[id]);
      }
    } else {
      MoveFits(policy, o, c, reply, nextID, now);
    }
  }

  lemma MoveKeepsOnePerKind(policy: RetryPolicy, orders: Orders, events: Events, c: OutboxEvent, reply: Reply,
                            nextID: string, now: int)
    requires EventsFit(orders, events) && OnePerKind(events)
    requires c.id in events && events[c.id] == c && Open(c) && nextID !in events
    ensures OnePerKind(MovedEvents(policy, events, c, reply, nextID, now))
  {
    assert RowFits(orders, c.id, c);
    forall id | id in events && id != c.id && events[id].orderID == c.orderID
      ensures c.kind == ReserveMargin ==> events[id].kind != RouteExchange
      ensures c.kind == RouteExchange ==> events[id].kind != ReleaseMargin
    {
      assert RowFits(orders, id, events[id]);
      MoveFitsOthers(policy, orders[c.orderID], c, reply, events[id]);
    }
  }

  lemma MoveStagesItsOrder(policy: RetryPolicy, o: Order, events: Events, c: OutboxEvent, reply: Reply, nextID: string,
                           now: int)
    requires Fits(o, c) && Open(c) && nextID !in events && c.id in events
    requires OrderStaged(c.orderID, o, MovedEvents(policy, events, c, reply, nextID, now))
    ensures OrderStaged(c.orderID, OrderAfter(policy, o, c, reply), MovedEvents(policy, events, c, reply, nextID, now))
  {
    var more := MovedEvents(policy, events, c, reply, nextID, now);
    if c.kind == ReserveMargin && reply.Approved? {
      assert more[nextID].kind == RouteExchange && more[nextID].orderID == c.orderID;
      assert HasEvent(more, c.orderID, RouteExchange);
    }
    if c.kind == RouteExchange && reply.Declined? {
      assert more[nextID].kind == ReleaseMargin && more[nextID].orderID == c.orderID;
      assert HasEvent(more, c.orderID, ReleaseMargin);
    }
  }

  lemma MoveKeepsStages(policy: RetryPolicy, orders: Orders, events: Events, c: OutboxEvent, reply: Reply,
                        nextID: string, now: int)
    requires StagesExist(orders, events) && c.orderID in orders && Fits(orders[c.orderID], c)
    requires c.id in events && events[c.id] == c && Open(c) && nextID !in events
    ensures StagesExist(orders[c.orderID := OrderAfter(policy, orders[c.orderID], c, reply)],
                        MovedEvents(policy, events, c, reply, nextID, now))
  {
    var more := MovedEvents(policy, events, c, reply, nextID, now);
    StagesGrow(orders, events, more);
    assert OrderStaged(c.orderID, orders[c.orderID], more);
    MoveStagesItsOrder(policy, orders[c.orderID], events, c, reply, nextID, now);
  }

  lemma MoveKeepsLeases(policy: RetryPolicy, events: Events, c: OutboxEvent, reply: Reply, nextID: string, now: int)
    requires policy.maxAttempts >= 1 && LeasesInOrder(policy, events)
    ensures LeasesInOrder(policy, MovedEvents(policy, events, c, reply, nextID, now))
  {
  }

  /** A delivery never touches what identifies an order. */
  lemma MoveKeepsIdentity(policy: RetryPolicy, o: Order, c: OutboxEvent, reply: Reply)
    ensures var o' := OrderAfter(policy, o, c, reply);
            RequestOf(o') == RequestOf(o) && o'.requestHash == o.requestHash && o'.id == o.id
  {
  }

  lemma SameIndexKeepsIndexed(orders: Orders, byIdempotency: map<string, string>, id: string, o: Order)
    requires Indexed(orders, byIdempotency) && id in orders && IndexOf(o) == IndexOf(orders[id])
    ensures Indexed(orders[id := o], byIdempotency)
  {
  }

  lemma MoveKeepsIndex(policy: RetryPolicy, orders: Orders, byIdempotency: map<string, string>, c: OutboxEvent,
                       reply: Reply)
    requires Indexed(orders, byIdempotency) && AllWellPlaced(orders) && c.orderID in orders
    ensures var changed := orders[c.orderID := OrderAfter(policy, orders[c.orderID], c, reply)];
            Indexed(changed, byIdempotency) && AllWellPlaced(changed)
  {
    MoveKeepsIdentity(policy, orders[c.orderID], c, reply);
    var o := OrderAfter(policy, orders[c.orderID], c, reply);
    assert WellPlaced(orders[c.orderID]);
    assert IndexOf(o) == IndexOf(orders[c.orderID]) by {
      assert o.accountID == RequestOf(o).accountID && o.idempotencyKey == RequestOf(o).idempotencyKey;
    }
    SameIndexKeepsIndexed(orders, byIdempotency, c.orderID, o);
  }

  lemma MoveKeepsTables(policy: RetryPolicy, t: Tables, c: OutboxEvent, reply: Reply, nextID: string, now: int)
    requires TablesInv(policy, t) && c.id in t.events && t.events[c.id] == c && Open(c)
    requires nextID !in t.events && policy.maxAttempts >= 1
    ensures c.orderID in t.orders
    ensures TablesInv(policy, Moved(policy, t, c, reply, nextID, now))
  {
    assert RowFits(t.orders, c.id, c);
    var t' := Moved(policy, t, c, reply, nextID, now);
    forall id | id in t'.events
      ensures RowFits(t'.orders, id, t'.events[id])
    {
      MoveKeepsRow(policy, t.orders, t.events, c, reply, nextID, now, id);
    }
    MoveKeepsOnePerKind(policy, t.orders, t.events, c, reply, nextID, now);
    MoveKeepsStages(policy, t.orders, t.events, c, reply, nextID, now);
    MoveKeepsLeases(policy, t.events, c, reply, nextID, now);
    MoveKeepsIndex(policy, t.orders, t.byIdempotency, c, reply);
  }

  /** A delivery step either finds its lease gone and changes no table, or is one move. */
  lemma DeliverSplits(policy: RetryPolicy, s: System, step: Step)
    requires step.Deliver? && Enabled(s, step) && step.nextID !in s.tables.events
    requires CopyInOrder(s.tables, step.copy)
    requires step.copy.orderID in s.tables.orders && s.tables.orders[step.copy.orderID].id == step.copy.orderID
    ensures var c := step.copy;
            Exec(policy, s, step) == System(
              if Holds(s.tables, c.id, c.leaseToken)
              then Moved(policy, s.tables, c, step.reply, step.nextID, step.now) else s.tables,
              s.issued + {step.nextID}, s.claimed)
    ensures Holds(s.tables, step.copy.id, step.copy.leaseToken) ==>
            s.tables.events[step.copy.id] == step.copy && Open(step.copy)
  {
    var c := step.copy;
    if Holds(s.tables, c.id, c.leaseToken) {
      DeliveryIsOneMove(policy, s.tables, c, step.reply, step.nextID, step.now);
    } else {
      OvertakenDeliveryFails(policy, s.tables, c, step.reply, step.nextID, step.now);
    }
  }

  /** What the invariant says about the copy that a worker acts on. */
  lemma CopyFacts(policy: RetryPolicy, s: System, c: OutboxEvent)
    requires Inv(policy, s) && c in s.claimed
    ensures CopyInOrder(s.tables, c)
    ensures c.orderID in s.tables.orders && s.tables.orders[c.orderID].id == c.orderID
    ensures Holds(s.tables, c.id, c.leaseToken) ==> Fits(s.tables.orders[c.orderID], c) && LeaseInOrder(policy, c)
  {
    assert CopyInOrder(s.tables, c);
    assert RowFits(s.tables.orders, c.id, s.tables.events[c.id]);
    assert OrderStaged(c.orderID, s.tables.orders[c.orderID], s.tables.events);
  }

  // ---------------------------------------------------------------- every step keeps it

  /** Rows that stay as they are keep every copy in order. */
  lemma GrowthKeepsCopies(s: System, s': System)
    requires CopiesInOrder(s) && s'.claimed == s.claimed
    requires forall id | id in s.tables.events :: id in s'.tables.events && s'.tables.events[id] == s.tables.events[id]
    ensures CopiesInOrder(s')
  {
    forall c | c in s'.claimed
      ensures CopyInOrder(s'.tables, c)
    {
      assert CopyInOrder(s.tables, c);
    }
  }

  lemma IssuingKeepsRest(s: System, ids: set<string>)
    requires AllIssued(s) && CopiesInOrder(s) && "" !in ids
    ensures AllIssued(s.(issued := s.issued + ids)) && CopiesInOrder(s.(issued := s.issued + ids))
  {
  }

  lemma PlaceKeepsCopies(s: System, o: Order, e: OutboxEvent, byIdempotency: map<string, string>)
    requires AllIssued(s) && CopiesInOrder(s)
    requires Fresh(s, o.id) && Fresh(s, e.id) && e.leaseToken == ""
    ensures var s' := System(Tables(s.tables.orders[o.id := o], byIdempotency, s.tables.events[e.id := e]),
                             s.issued + {o.id, e.id}, s.claimed);
            AllIssued(s') && CopiesInOrder(s')
  {
    GrowthKeepsCopies(s, System(Tables(s.tables.orders[o.id := o], byIdempotency, s.tables.events[e.id := e]),
                                s.issued + {o.id, e.id}, s.claimed));
  }

  /** A placement either changes no table or adds one order, its index and its first event. */
  lemma PlaceSplits(policy: RetryPolicy, s: System, step: Step) returns (added: bool)
    requires step.Place? && Enabled(s, step) && step.orderID !in s.tables.orders
    requires var index := IndexOf(NewOrder(step.request, step.orderID));
             index in s.tables.byIdempotency ==> s.tables.byIdempotency[index] in s.tables.orders
    ensures Exec(policy, s, step) ==
            if added then
              var o := NewOrder(step.request, step.orderID);
              var e := NewEvent(step.eventID, step.orderID, ReserveMargin, step.now);
              System(Tables(s.tables.orders[o.id := o], s.tables.byIdempotency[IndexOf(o) := o.id],
                            s.tables.events[e.id := e]),
                     s.issued + {o.id, e.id}, s.claimed)
            else System(s.tables, s.issued + {step.orderID, step.eventID}, s.claimed)
    ensures added ==> IsValid(step.request) && IndexOf(NewOrder(step.request, step.orderID)) !in s.tables.byIdempotency
  {
    PlaceWrites(s.tables, step.request, step.orderID, step.eventID, step.now);
    added := IsValid(step.request) && IndexOf(NewOrder(step.request, step.orderID)) !in s.tables.byIdempotency;
  }

  lemma PlaceKeepsInv(policy: RetryPolicy, s: System, step: Step)
    requires policy.maxAttempts >= 1 && Inv(policy, s) && step.Place?
    ensures Inv(policy, Exec(policy, s, step))
  {
    if Enabled(s, step) {
      var added := PlaceSplits(policy, s, step);
      if added {
        var o := NewOrder(step.request, step.orderID);
        var e := NewEvent(step.eventID, step.orderID, ReserveMargin, step.now);
        assert RequestOf(o) == step.request;
        PlaceKeepsTables(policy, s.tables, o, e.id, step.now);
        PlaceKeepsCopies(s, o, e, s.tables.byIdempotency[IndexOf(o) := o.id]);
      } else {
        IssuingKeepsRest(s, {step.orderID, step.eventID});
      }
    }
  }

  lemma ClaimKeepsCopies(s: System, id: string, token: string, until: int)
    requires AllIssued(s) && CopiesInOrder(s) && id in s.tables.events && s.tables.events[id].id == id
    requires Fresh(s, token)
    ensures var copy := Leased(s.tables.events[id], token, until);
            var s' := System(s.tables.(events := s.tables.events[id := copy]), s.issued + {token}, s.claimed + {copy});
            AllIssued(s') && CopiesInOrder(s')
  {
    var copy := Leased(s.tables.events[id], token, until);
    var t' := s.tables.(events := s.tables.events[id := copy]);
    forall c | c in s.claimed + {copy}
      ensures CopyInOrder(t', c)
    {
      if c in s.claimed {
        assert CopyInOrder(s.tables, c);
      }
    }
  }

  lemma ClaimKeepsInv(policy: RetryPolicy, s: System, step: Step)
    requires Inv(policy, s) && step.Claim?
    ensures Inv(policy, Exec(policy, s, step))
  {
    if Enabled(s, step) {
      assert RowFits(s.tables.orders, step.eventID, s.tables.events[step.eventID]);
      ClaimKeepsTables(policy, s.tables, step.eventID, step.token, step.now, step.until);
      ClaimKeepsCopies(s, step.eventID, step.token, step.until);
    }
  }

  lemma MoveKeepsCopies(policy: RetryPolicy, s: System, c: OutboxEvent, reply: Reply, nextID: string, now: int)
    requires AllIssued(s) && CopiesInOrder(s) && Fresh(s, nextID)
    requires c.orderID in s.tables.orders && c.id in s.tables.events && s.tables.events[c.id] == c
    ensures var s' := System(Moved(policy, s.tables, c, reply, nextID, now), s.issued + {nextID}, s.claimed);
            AllIssued(s') && CopiesInOrder(s')
  {
    var t' := Moved(policy, s.tables, c, reply, nextID, now);
    forall d | d in s.claimed
      ensures CopyInOrder(t', d)
    {
      assert CopyInOrder(s.tables, d);
    }
  }

  lemma DeliverKeepsInv(policy: RetryPolicy, s: System, step: Step)
    requires policy.maxAttempts >= 1 && Inv(policy, s) && step.Deliver?
    ensures Inv(policy, Exec(policy, s, step))
  {
    if Enabled(s, step) {
      var c := step.copy;
      CopyFacts(policy, s, c);
      DeliverSplits(policy, s, step);
      if Holds(s.tables, c.id, c.leaseToken) {
        MoveKeepsInv(policy, s, c, step.reply, step.nextID, step.now);
      } else {
        IssuingKeepsRest(s, {step.nextID});
      }
    }
  }

  lemma MoveKeepsInv(policy: RetryPolicy, s: System, c: OutboxEvent, reply: Reply, nextID: string, now: int)
    requires policy.maxAttempts >= 1 && Inv(policy, s) && Fresh(s, nextID)
    requires c.id in s.tables.events && s.tables.events[c.id] == c && Open(c) && c.orderID in s.tables.orders
    ensures Inv(policy, System(Moved(policy, s.tables, c, reply, nextID, now), s.issued + {nextID}, s.claimed))
  {
    MoveKeepsTables(policy, s.tables, c, reply, nextID, now);
    MoveKeepsCopies(policy, s, c, reply, nextID, now);
  }

  lemma StepKeepsInv(policy: RetryPolicy, s: System, step: Step)
    requires policy.maxAttempts >= 1 && Inv(policy, s)
    ensures Inv(policy, Exec(policy, s, step))
  {
    match step
    case Place(_, _, _, _) => PlaceKeepsInv(policy, s, step);
    case Claim(_, _, _, _) => ClaimKeepsInv(policy, s, step);
    case Deliver(_, _, _, _) => DeliverKeepsInv(policy, s, step);
  }

  /** The invariant holds throughout every run. */
  lemma {:induction false} InvAlways(policy: RetryPolicy, run: seq<Step>, k: nat)
    requires policy.maxAttempts >= 1 && k <= |run|
    ensures Inv(policy, After(policy, run, k))
  {
    if k > 0 {
      InvAlways(policy, run, k - 1);
      StepKeepsInv(policy, After(policy, run, k - 1), run[k - 1]);
    }
  }
}
