/** Placing an order (microservice/order/service.go) and delivering an outbox event
    (microservice/order/dispatcher.go).  The gateways are outside: a delivery takes the reply of
    its remote call as an argument. */
module OrderDispatch {
  import opened OrderDomain
  import opened OrderStore
  import opened RetryBackoff

  // ---------------------------------------------------------------- placement

  datatype Placement = Placed(order: Order) | Replayed(order: Order) | Refused(error: Error)

  function NewOrder(r: PlaceOrderRequest, id: string): Order {
    Order(id, r.accountID, r.idempotencyKey, RequestFingerprint(r), r.instrument, r.side,
          r.quantity, r.limitPrice, PendingMargin, MarginNone, "", "", "")
  }

  /** What the placing transaction does to the store. */
  function PlaceTo(t: Tables, r: PlaceOrderRequest, orderID: string, eventID: string, now: int): Result<Tables> {
    match OrderByIdempotency(t, r.accountID, r.idempotencyKey)
    case Ok(existing) =>
      if existing.requestHash != RequestFingerprint(r) then Err(IdempotencyConflict) else Ok(t)
    case Err(_) =>
      match PutOrder(t, NewOrder(r, orderID))
      case Err(e) => Err(e)
      case Ok(put) => Ok(Enqueue(put, eventID, orderID, ReserveMargin, now))
  }

  class OrderService {
    const store: MemoryStore

    constructor (store: MemoryStore)
      ensures this.store == store
    {
      this.store := store;
    }

    /** An invalid or conflicting request leaves the store alone, and so does a replay. */
    method Place(r: PlaceOrderRequest, orderID: string, eventID: string, now: int) returns (p: Placement)
      modifies store
      ensures var before := old(store.State());
              var found := OrderByIdempotency(before, r.accountID, r.idempotencyKey);
              if !IsValid(r) then
                store.State() == before && p == Refused(InvalidOrder(Validate(r)))
              else match PlaceTo(before, r, orderID, eventID, now)
                case Err(e) => store.State() == before && p == Refused(e)
                case Ok(next) =>
                  && store.State() == next
                  && p == if found.Ok? then Replayed(found.value) else Placed(NewOrder(r, orderID))
    {
      var problem := Validate(r);
      if problem != "" {
        return Refused(InvalidOrder(problem));
      }
      var existing := OrderByIdempotency(
        Tables(store.orders, store.byIdempotency, store.events), r.accountID, r.idempotencyKey);
      var o := store.Transaction(t => PlaceTo(t, r, orderID, eventID, now));
      p := match o
        case Failed(e) => Refused(e)
        case Done => if existing.Ok? then Replayed(existing.value) else Placed(NewOrder(r, orderID));
    }
  }

  // ---------------------------------------------------------------- delivery

  /** How a remote call ended.  A fault is transient when its outcome is not known. */
  datatype Reply =
    | Approved(reference: string)
    | Declined(reason: string)
    | Fault(isTransient: bool, cause: string)

  function PutAndEnqueue(t: Tables, order: Order, nextID: string, kind: EventKind, now: int): Result<Tables> {
    match PutOrder(t, order)
    case Err(e) => Err(e)
    case Ok(put) => Ok(Enqueue(put, nextID, order.id, kind, now))
  }

  function OnReserve(orderID: string, reply: Reply, nextID: string, now: int): Change
    requires !reply.Fault?
  {
    (t: Tables, _: OutboxEvent) =>
      if orderID !in t.orders then Err(OrderNotFound)
      else
        var current := t.orders[orderID];
        match reply
        case Declined(reason) => PutOrder(t, current.(status := Rejected, failureReason := reason))
        case Approved(reference) =>
          PutAndEnqueue(t, current.(status := PendingRoute, margin := MarginReserved, reservationID := reference),
                        nextID, RouteExchange, now)
  }

  function OnRoute(orderID: string, reply: Reply, nextID: string, now: int): Change
    requires !reply.Fault?
  {
    (t: Tables, _: OutboxEvent) =>
      if orderID !in t.orders then Err(OrderNotFound)
      else
        var current := t.orders[orderID];
        match reply
        case Approved(reference) => PutOrder(t, current.(status := Accepted, exchangeOrderID := reference))
        case Declined(reason) =>
          PutAndEnqueue(t, current.(status := Rejected, margin := MarginReleasePending, failureReason := reason),
                        nextID, ReleaseMargin, now)
  }

  function OnRelease(orderID: string): Change {
    (t: Tables, _: OutboxEvent) =>
      if orderID !in t.orders then Err(OrderNotFound)
      else PutOrder(t, t.orders[orderID].(margin := MarginReleased))
  }

  /** The outcome outside may be unknown, so nothing is compensated. */
  function OnAbandon(orderID: string, cause: string): Change {
    (t: Tables, _: OutboxEvent) =>
      if orderID !in t.orders then Err(OrderNotFound)
      else PutOrder(t, t.orders[orderID].(status := ReconciliationRequired, failureReason := cause))
  }

  /** A fault is retried while it is transient and the budget lasts. */
  predicate WillRetry(policy: RetryPolicy, attempts: nat, reply: Reply) {
    reply.Fault? && reply.isTransient && attempts + 1 < policy.maxAttempts
  }

  /** What a worker holding the claimed copy `c` does once its remote call has ended. */
  function DeliverTo(policy: RetryPolicy, t: Tables, c: OutboxEvent, reply: Reply, nextID: string, now: int)
    : Result<Tables>
  {
    if WillRetry(policy, c.attempts, reply) then
      RetryTo(t, c.id, c.leaseToken, now + DelayOf(policy, c.attempts + 1), reply.cause)
    else if reply.Fault? then
      AbandonTo(t, c.id, c.leaseToken, reply.cause, OnAbandon(c.orderID, reply.cause))
    else
      FinalizeTo(t, c.id, c.leaseToken,
        match c.kind
        case ReserveMargin => OnReserve(c.orderID, reply, nextID, now)
        case RouteExchange => OnRoute(c.orderID, reply, nextID, now)
        case ReleaseMargin => OnRelease(c.orderID))
  }

  class Dispatcher {
    const store: MemoryStore
    const policy: RetryPolicy

    constructor (store: MemoryStore, policy: RetryPolicy)
      ensures this.store == store && this.policy == WithDefaults(policy)
    {
      this.store := store;
      this.policy := WithDefaults(policy);
    }

    method Deliver(event: OutboxEvent, reply: Reply, nextID: string, now: int) returns (o: Outcome)
      modifies store
      ensures if event.orderID !in old(store.orders) then
                store.State() == old(store.State()) && o == Failed(OrderNotFound)
              else
                Committed(old(store.State()),
                          DeliverTo(policy, old(store.State()), event, reply, nextID, now), store.State(), o)
    {
      if event.orderID !in store.orders {
        return Failed(OrderNotFound);
      }
      match reply {
        case Fault(isTransient, cause) =>
          o := HandleRemoteError(event, isTransient, cause, now);
        case _ =>
          match event.kind {
            case ReserveMargin =>
              o := store.Finalize(event.id, event.leaseToken, OnReserve(event.orderID, reply, nextID, now));
            case RouteExchange =>
              o := store.Finalize(event.id, event.leaseToken, OnRoute(event.orderID, reply, nextID, now));
            case ReleaseMargin =>
              o := store.Finalize(event.id, event.leaseToken, OnRelease(event.orderID));
          }
      }
    }

    method HandleRemoteError(event: OutboxEvent, isTransient: bool, cause: string, now: int) returns (o: Outcome)
      modifies store
      ensures Committed(old(store.State()),
                        DeliverTo(policy, old(store.State()), event, Fault(isTransient, cause), "", now),
                        store.State(), o)
    {
      if !isTransient || event.attempts + 1 >= policy.maxAttempts {
        o := store.Abandon(event.id, event.leaseToken, cause, OnAbandon(event.orderID, cause));
      } else {
        var delay := Delay(policy, event.attempts + 1);
        o := store.Retry(event.id, event.leaseToken, now + delay, cause);
      }
    }
  }

  // ---------------------------------------------------------------- one delivery as one move

  /** The order after a delivery, from the order before it alone. */
  function OrderAfter(policy: RetryPolicy, o: Order, e: OutboxEvent, reply: Reply): Order {
    match reply
    case Fault(_, cause) =>
      if WillRetry(policy, e.attempts, reply) then o
      else o.(status := ReconciliationRequired, failureReason := cause)
    case Approved(reference) => (
      match e.kind
      case ReserveMargin => o.(status := PendingRoute, margin := MarginReserved, reservationID := reference)
      case RouteExchange => o.(status := Accepted, exchangeOrderID := reference)
      case ReleaseMargin => o.(margin := MarginReleased))
    case Declined(reason) => (
      match e.kind
      case ReserveMargin => o.(status := Rejected, failureReason := reason)
      case RouteExchange => o.(status := Rejected, margin := MarginReleasePending, failureReason := reason)
      case ReleaseMargin => o.(margin := MarginReleased))
  }

  function EventAfter(policy: RetryPolicy, e: OutboxEvent, reply: Reply, now: int): OutboxEvent {
    if WillRetry(policy, e.attempts, reply) then Retried(e, now + DelayOf(policy, e.attempts + 1), reply.cause)
    else if reply.Fault? then Dead(e, reply.cause)
    else Delivered(e)
  }

  /** A delivery enqueues a route after an approved reservation, a release after a definitive
      rejection by the exchange, and nothing otherwise. */
  function WithSuccessors(events: map<string, OutboxEvent>, e: OutboxEvent, reply: Reply, nextID: string, now: int)
    : map<string, OutboxEvent>
  {
    if e.kind == ReserveMargin && reply.Approved? then
      events[nextID := NewEvent(nextID, e.orderID, RouteExchange, now)]
    else if e.kind == RouteExchange && reply.Declined? then
      events[nextID := NewEvent(nextID, e.orderID, ReleaseMargin, now)]
    else events
  }

  /** A delivery under a live lease rewrites one order and one event and adds at most one event. */
  lemma DeliveryIsOneMove(policy: RetryPolicy, t: Tables, c: OutboxEvent, reply: Reply, nextID: string, now: int)
    requires Holds(t, c.id, c.leaseToken) && t.events[c.id] == c
    requires c.orderID in t.orders && t.orders[c.orderID].id == c.orderID && nextID !in t.events
    ensures DeliverTo(policy, t, c, reply, nextID, now) == Ok(Tables(
              t.orders[c.orderID := OrderAfter(policy, t.orders[c.orderID], c, reply)],
              t.byIdempotency,
              WithSuccessors(t.events, c, reply, nextID, now)[c.id := EventAfter(policy, c, reply, now)]))
  {
    if WillRetry(policy, c.attempts, reply) {
      assert t.orders[c.orderID := t.orders[c.orderID]] == t.orders;
    }
  }

  /** Without a live lease a delivery fails and changes nothing. */
  lemma OvertakenDeliveryFails(policy: RetryPolicy, t: Tables, c: OutboxEvent, reply: Reply, nextID: string, now: int)
    requires !Holds(t, c.id, c.leaseToken)
    ensures DeliverTo(policy, t, c, reply, nextID, now) == Err(LeaseLost)
  {
  }
}
