/** The in-memory order store: transactions, the outbox and its leases
    (microservice/order/store.go). */
module OrderStore {
  import opened Collections
  import opened Text
  import opened OrderDomain

  /** The three maps that make up the store's state. */
  datatype Tables = Tables(
    orders: map<string, Order>,
    byIdempotency: map<string, string>,
    events: map<string, OutboxEvent>)

  const EMPTY: Tables := Tables(map[], map[], map[])

  datatype Outcome = Done | Failed(error: Error)

  // ---------------------------------------------------------------- inside a transaction

  function OrderByIdempotency(t: Tables, accountID: string, key: string): Result<Order> {
    var index := IdempotencyIndex(accountID, key);
    if index in t.byIdempotency && t.byIdempotency[index] in t.orders
    then Ok(t.orders[t.byIdempotency[index]])
    else Err(OrderNotFound)
  }

  function PutOrder(t: Tables, order: Order): Result<Tables> {
    var index := IdempotencyIndex(order.accountID, order.idempotencyKey);
    var written := t.(orders := t.orders[order.id := order]);
    if order.id in t.orders then Ok(written)
    else if index in t.byIdempotency && t.byIdempotency[index] != order.id then Err(IdempotencyConflict)
    else Ok(written.(byIdempotency := t.byIdempotency[index := order.id]))
  }

  function NewEvent(id: string, orderID: string, kind: EventKind, availableAt: int): OutboxEvent {
    OutboxEvent(id, orderID, kind, EventPending, 0, availableAt, "", 0, "")
  }

  function Enqueue(t: Tables, id: string, orderID: string, kind: EventKind, availableAt: int): Tables {
    t.(events := t.events[id := NewEvent(id, orderID, kind, availableAt)])
  }

  // ---------------------------------------------------------------- acknowledging a lease

  /** The store accepts an acknowledgement only under the event's current lease. */
  predicate Holds(t: Tables, eventID: string, leaseToken: string) {
    && eventID in t.events
    && t.events[eventID].state == EventProcessing
    && t.events[eventID].leaseToken == leaseToken
  }

  type Change = (Tables, OutboxEvent) -> Result<Tables>

  function Delivered(e: OutboxEvent): OutboxEvent {
    e.(state := EventDelivered, leaseToken := "", leaseUntil := 0)
  }

  function Retried(e: OutboxEvent, availableAt: int, reason: string): OutboxEvent {
    e.(state := EventRetry, leaseToken := "", leaseUntil := 0,
       attempts := e.attempts + 1, availableAt := availableAt, lastError := reason)
  }

  function Dead(e: OutboxEvent, reason: string): OutboxEvent {
    e.(state := EventDead, leaseToken := "", leaseUntil := 0, attempts := e.attempts + 1, lastError := reason)
  }

  /** The event row after `apply`, or the one before it if `apply` dropped it. */
  function RowAfter(t: Tables, next: Tables, eventID: string): OutboxEvent
    requires eventID in t.events
  {
    if eventID in next.events then next.events[eventID] else t.events[eventID]
  }

  function FinalizeTo(t: Tables, eventID: string, leaseToken: string, apply: Change): Result<Tables> {
    if !Holds(t, eventID, leaseToken) then Err(LeaseLost)
    else match apply(t, t.events[eventID])
      case Err(e) => Err(e)
      case Ok(next) => Ok(next.(events := next.events[eventID := Delivered(RowAfter(t, next, eventID))]))
  }

  function RetryTo(t: Tables, eventID: string, leaseToken: string, availableAt: int, reason: string): Result<Tables> {
    if !Holds(t, eventID, leaseToken) then Err(LeaseLost)
    else Ok(t.(events := t.events[eventID := Retried(t.events[eventID], availableAt, reason)]))
  }

  function AbandonTo(t: Tables, eventID: string, leaseToken: string, reason: string, apply: Change): Result<Tables> {
    if !Holds(t, eventID, leaseToken) then Err(LeaseLost)
    else match apply(t, t.events[eventID])
      case Err(e) => Err(e)
      case Ok(next) => Ok(next.(events := next.events[eventID := Dead(RowAfter(t, next, eventID), reason)]))
  }

  // ---------------------------------------------------------------- claiming

  predicate IsDue(e: OutboxEvent, now: int) {
    || ((e.state == EventPending || e.state == EventRetry) && e.availableAt <= now)
    || (e.state == EventProcessing && e.leaseUntil <= now)
  }

  function Leased(e: OutboxEvent, token: string, until: int): OutboxEvent {
    e.(state := EventProcessing, leaseToken := token, leaseUntil := until)
  }

  /** The claiming order: by due time, then by event ID. */
  predicate Earlier(a: OutboxEvent, b: OutboxEvent) {
    a.availableAt < b.availableAt || (a.availableAt == b.availableAt && Less(a.id, b.id))
  }

  /** The events after the rows `ids` have been leased under `tokens`, in that order. */
  function LeaseAll(events: map<string, OutboxEvent>, ids: seq<string>, tokens: seq<string>, until: int)
    : (rows: map<string, OutboxEvent>)
    requires |ids| <= |tokens| && forall i | 0 <= i < |ids| :: ids[i] in events
    ensures rows.Keys == events.Keys
  {
    if ids == [] then events
    else
      var last := |ids| - 1;
      LeaseAll(events, ids[..last], tokens, until)[ids[last] := Leased(events[ids[last]], tokens[last], until)]
  }

  ghost predicate IsSorted(events: map<string, OutboxEvent>, ids: seq<string>) {
    && (forall i | 0 <= i < |ids| :: ids[i] in events)
    && (forall i, j | 0 <= i < j < |ids| :: Earlier(events[ids[i]], events[ids[j]]))
  }

  /** Rows are stored under their own IDs. */
  ghost predicate KeyedByID(events: map<string, OutboxEvent>) {
    forall id | id in events :: events[id].id == id
  }

  lemma EarlierOrders(a: OutboxEvent, b: OutboxEvent, c: OutboxEvent)
    ensures !Earlier(a, a)
    ensures a.id != b.id ==> Earlier(a, b) || Earlier(b, a)
    ensures Earlier(a, b) && Earlier(b, c) ==> Earlier(a, c)
  {
    LessIsIrreflexive(a.id);
    LessIsTotal(a.id, b.id);
    if Less(a.id, b.id) && Less(b.id, c.id) {
      LessIsTransitive(a.id, b.id, c.id);
    }
  }

  /** Puts one more due row in its place. */
  method Insert(events: map<string, OutboxEvent>, ids: seq<string>, id: string) returns (r: seq<string>)
    requires KeyedByID(events) && IsSorted(events, ids) && id in events && id !in ids
    ensures IsSorted(events, r)
    ensures forall x :: x in r <==> x == id || x in ids
    ensures |r| == |ids| + 1
  {
    var at := 0;
    while at < |ids| && Earlier(events[ids[at]], events[id])
      invariant 0 <= at <= |ids|
      invariant forall i | 0 <= i < at :: Earlier(events[ids[i]], events[id])
    {
      at := at + 1;
    }
    forall j | at <= j < |ids|
      ensures Earlier(events[id], events[ids[j]])
    {
      EarlierOrders(events[ids[at]], events[id], events[id]);
      EarlierOrders(events[id], events[ids[at]], events[ids[j]]);
    }
    r := ids[..at] + [id] + ids[at..];
  }

  /** All due rows in claiming order. */
  method SortedDue(events: map<string, OutboxEvent>, now: int) returns (ids: seq<string>)
    requires KeyedByID(events)
    ensures IsSorted(events, ids)
    ensures forall id :: id in ids <==> id in events && IsDue(events[id], now)
  {
    ids := [];
    var todo := events.Keys;
    while todo != {}
      invariant todo <= events.Keys
      invariant IsSorted(events, ids)
      invariant forall id :: id in ids <==> id in events && id !in todo && IsDue(events[id], now)
      decreases |todo|
    {
      var id :| id in todo;
      if IsDue(events[id], now) {
        ids := Insert(events, ids, id);
      }
      todo := todo - {id};
    }
  }

  lemma {:induction false} LeaseAllSparesOthers(events: map<string, OutboxEvent>, ids: seq<string>,
                                                tokens: seq<string>, until: int, id: string)
    requires |ids| <= |tokens| && forall i | 0 <= i < |ids| :: ids[i] in events
    requires id in events && id !in ids
    ensures LeaseAll(events, ids, tokens, until)[id] == events[id]
  {
    if ids != [] {
      LeaseAllSparesOthers(events, ids[..|ids| - 1], tokens, until, id);
    }
  }

  /** What a claim of at most `limit` events picks: due rows, in claiming order, none of them
      later than a due row left behind, and as many as the limit allows. */
  ghost predicate Picks(events: map<string, OutboxEvent>, now: int, limit: int, picked: seq<string>) {
    && IsSorted(events, picked)
    && (forall id | id in picked :: IsDue(events[id], now))
    && (forall id, other | id in events && IsDue(events[id], now) && id !in picked && other in picked ::
          Earlier(events[other], events[id]))
    && |picked| <= (if limit < 0 then 0 else limit)
    && (|picked| < limit ==> forall id | id in events && IsDue(events[id], now) :: id in picked)
  }

  /** Waiting and due, or under a lease that has run out. */
  predicate MayBeClaimed(e: OutboxEvent, now: int) {
    match e.state
    case EventPending => e.availableAt <= now
    case EventRetry => e.availableAt <= now
    case EventProcessing => e.leaseUntil <= now
    case EventDelivered => false
    case EventDead => false
  }

  /** The claimable rows that come before `id`: available earlier, or at once with it and of a
      smaller ID. */
  ghost function Ahead(events: map<string, OutboxEvent>, now: int, id: string): set<string>
    requires id in events
  {
    set other | other in events && MayBeClaimed(events[other], now) &&
      (events[other].availableAt < events[id].availableAt ||
       (events[other].availableAt == events[id].availableAt && Less(other, id)))
  }

  /** A row is picked exactly when it may be claimed and fewer than `limit` such rows come before
      it. */
  ghost predicate PicksFirst(events: map<string, OutboxEvent>, now: int, limit: int, picked: seq<string>) {
    forall id | id in events :: id in picked <==> MayBeClaimed(events[id], now) && |Ahead(events, now, id)| < limit
  }

  lemma PicksAreTheFirst(events: map<string, OutboxEvent>, now: int, limit: int, picked: seq<string>)
    requires KeyedByID(events) && Picks(events, now, limit, picked)
    ensures PicksFirst(events, now, limit, picked)
  {
    forall id | id in events
      ensures id in picked <==> MayBeClaimed(events[id], now) && |Ahead(events, now, id)| < limit
    {
      PickedIsFirst(events, now, limit, picked, id);
    }
  }

  lemma PickedIsFirst(events: map<string, OutboxEvent>, now: int, limit: int, picked: seq<string>, id: string)
    requires KeyedByID(events) && Picks(events, now, limit, picked) && id in events
    ensures id in picked <==> MayBeClaimed(events[id], now) && |Ahead(events, now, id)| < limit
  {
    var ahead, ids := Ahead(events, now, id), Elements(picked);
    SortedIsDistinct(events, picked);
    DistinctAreAsMany(picked);
    if id in picked {
      forall other | other in ahead
        ensures other in ids - {id}
      {
        EarlierOrders(events[other], events[id], events[other]);
      }
      SubsetIsSmaller(ahead, ids - {id});
    } else if IsDue(events[id], now) {
      SubsetIsSmaller(ids, ahead);
    }
  }

  /** A batch changes just the leases of its rows. */
  lemma {:induction false} LeaseAllAt(events: map<string, OutboxEvent>, ids: seq<string>, tokens: seq<string>,
                                      until: int, i: nat)
    requires i < |ids| <= |tokens| && AreDistinct(ids) && forall j | 0 <= j < |ids| :: ids[j] in events
    ensures LeaseAll(events, ids, tokens, until)[ids[i]]
            == events[ids[i]].(state := EventProcessing, leaseToken := tokens[i], leaseUntil := until)
  {
    var last := |ids| - 1;
    if i < last {
      LeaseAllAt(events, ids[..last], tokens, until, i);
      assert ids[..last][i] == ids[i];
    }
  }

  method PickDue(events: map<string, OutboxEvent>, now: int, limit: int) returns (picked: seq<string>)
    requires KeyedByID(events)
    ensures Picks(events, now, limit, picked)
    ensures PicksFirst(events, now, limit, picked) && AreDistinct(picked)
  {
    picked := [];
    if limit > 0 {
      var ids := SortedDue(events, now);
      picked := if |ids| > limit then ids[..limit] else ids;
      PrefixComesFirst(events, ids, picked, now);
    }
    PicksAreTheFirst(events, now, limit, picked);
    SortedIsDistinct(events, picked);
  }

  /** Just the rows `ids` are processing now, each under its own token until the lease runs out. */
  ghost predicate LeasesJust(events: map<string, OutboxEvent>, ids: seq<string>, tokens: seq<string>, until: int,
                             rows: map<string, OutboxEvent>) {
    && rows.Keys == events.Keys && |ids| <= |tokens|
    && (forall id | id in events && id !in ids :: rows[id] == events[id])
    && (forall i | 0 <= i < |ids| :: ids[i] in events && rows[ids[i]]
          == events[ids[i]].(state := EventProcessing, leaseToken := tokens[i], leaseUntil := until))
  }

  lemma LeaseAllLeasesJust(events: map<string, OutboxEvent>, ids: seq<string>, tokens: seq<string>, until: int)
    requires AreDistinct(ids) && |ids| <= |tokens| && forall i | 0 <= i < |ids| :: ids[i] in events
    ensures LeasesJust(events, ids, tokens, until, LeaseAll(events, ids, tokens, until))
  {
    forall id | id in events && id !in ids
      ensures LeaseAll(events, ids, tokens, until)[id] == events[id]
    {
      LeaseAllSparesOthers(events, ids, tokens, until, id);
    }
    forall i | 0 <= i < |ids|
      ensures LeaseAll(events, ids, tokens, until)[ids[i]]
              == events[ids[i]].(state := EventProcessing, leaseToken := tokens[i], leaseUntil := until)
    {
      LeaseAllAt(events, ids, tokens, until, i);
    }
  }

  lemma LeaseOneMore(events: map<string, OutboxEvent>, ids: seq<string>, n: nat, tokens: seq<string>, until: int,
                     rows: map<string, OutboxEvent>)
    requires n < |ids| && n < |tokens| && AreDistinct(ids) && ids[n] in events
    requires LeasesJust(events, ids[..n], tokens, until, rows)
    ensures rows[ids[n]] == events[ids[n]]
    ensures LeasesJust(events, ids[..n + 1], tokens, until, rows[ids[n] := Leased(events[ids[n]], tokens[n], until)])
  {
    assert ids[..n + 1] == ids[..n] + [ids[n]];
    assert ids[n] !in ids[..n];
  }

  /** The copies of the leased rows are handed to the caller, if there were tokens for all;
      otherwise nothing is, and the rows already leased stay leased. */
  ghost predicate IsLeased(events: map<string, OutboxEvent>, ids: seq<string>, tokens: seq<string>, until: int,
                           rows: map<string, OutboxEvent>, claimed: seq<OutboxEvent>) {
    if |ids| <= |tokens| then
      && LeasesJust(events, ids, tokens, until, rows)
      && |claimed| == |ids| && forall i | 0 <= i < |ids| :: claimed[i] == rows[ids[i]]
    else LeasesJust(events, ids[..|tokens|], tokens, until, rows) && claimed == []
  }

  /** The leasing loop of a claim. */
  method LeaseRows(events: map<string, OutboxEvent>, ids: seq<string>, tokens: seq<string>, until: int)
    returns (ok: bool, rows: map<string, OutboxEvent>, claimed: seq<OutboxEvent>)
    requires AreDistinct(ids) && forall i | 0 <= i < |ids| :: ids[i] in events
    ensures ok == (|ids| <= |tokens|)
    ensures IsLeased(events, ids, tokens, until, rows, claimed)
  {
    rows, claimed := events, [];
    var leased := 0;
    while leased < |ids|
      invariant 0 <= leased <= |ids| && leased <= |tokens| && |claimed| == leased
      invariant LeasesJust(events, ids[..leased], tokens, until, rows)
      invariant forall i | 0 <= i < leased :: claimed[i] == rows[ids[i]]
    {
      if leased >= |tokens| {
        return false, rows, [];
      }
      LeaseOneMore(events, ids, leased, tokens, until, rows);
      var event := Leased(rows[ids[leased]], tokens[leased], until);
      rows := rows[ids[leased] := event];
      claimed := claimed + [event];
      leased := leased + 1;
    }
    assert ids[..leased] == ids;
    ok := true;
  }

  // ---------------------------------------------------------------- the store

  /** A transaction commits what it computed, or leaves the store as it was. */
  ghost predicate Committed(before: Tables, r: Result<Tables>, after: Tables, o: Outcome) {
    match r
    case Ok(next) => after == next && o == Done
    case Err(e) => after == before && o == Failed(e)
  }

  class MemoryStore {
    var orders: map<string, Order>
    var byIdempotency: map<string, string>
    var events: map<string, OutboxEvent>

    ghost function State(): Tables
      reads this
    {
      Tables(orders, byIdempotency, events)
    }

    constructor ()
      ensures State() == EMPTY
    {
      orders, byIdempotency, events := map[], map[], map[];
    }

    method Transaction(apply: Tables -> Result<Tables>) returns (o: Outcome)
      modifies this
      ensures Committed(old(State()), apply(old(State())), State(), o)
    {
      var next := Tables(orders, byIdempotency, events);
      match apply(next) {
        case Err(e) =>
          o := Failed(e);
        case Ok(changed) =>
          orders, byIdempotency, events := changed.orders, changed.byIdempotency, changed.events;
          o := Done;
      }
    }

    method Finalize(eventID: string, leaseToken: string, apply: Change) returns (o: Outcome)
      modifies this
      ensures Committed(old(State()), FinalizeTo(old(State()), eventID, leaseToken, apply), State(), o)
    {
      if eventID !in events || events[eventID].state != EventProcessing || events[eventID].leaseToken != leaseToken {
        return Failed(LeaseLost);
      }
      var event := events[eventID];
      o := Transaction((t: Tables) =>
        match apply(t, event)
        case Err(e) => Err(e)
        case Ok(next) =>
          var current := if eventID in next.events then next.events[eventID] else event;
          Ok(next.(events := next.events[eventID := Delivered(current)])));
    }

    method Retry(eventID: string, leaseToken: string, availableAt: int, reason: string) returns (o: Outcome)
      modifies this
      ensures Committed(old(State()), RetryTo(old(State()), eventID, leaseToken, availableAt, reason), State(), o)
    {
      if eventID !in events || events[eventID].state != EventProcessing || events[eventID].leaseToken != leaseToken {
        return Failed(LeaseLost);
      }
      var event := events[eventID];
      event := event.(state := EventRetry, leaseToken := "", leaseUntil := 0);
      event := event.(attempts := event.attempts + 1, availableAt := availableAt, lastError := reason);
      events := events[eventID := event];
      o := Done;
    }

    method Abandon(eventID: string, leaseToken: string, reason: string, apply: Change) returns (o: Outcome)
      modifies this
      ensures Committed(old(State()), AbandonTo(old(State()), eventID, leaseToken, reason, apply), State(), o)
    {
      if eventID !in events || events[eventID].state != EventProcessing || events[eventID].leaseToken != leaseToken {
        return Failed(LeaseLost);
      }
      var event := events[eventID];
      o := Transaction((t: Tables) =>
        match apply(t, event)
        case Err(e) => Err(e)
        case Ok(next) =>
          var current := if eventID in next.events then next.events[eventID] else event;
          Ok(next.(events := next.events[eventID := Dead(current, reason)])));
    }

    /** Claims the due events that come first in claiming order, at most `limit` of them.
        `tokens` are the lease tokens that can still be drawn; when they run out the call fails,
        and the rows already leased stay leased. */
    method ClaimDue(now: int, leaseFor: int, limit: int, tokens: seq<string>)
      returns (ok: bool, claimed: seq<OutboxEvent>, ghost picked: seq<string>)
      requires KeyedByID(events)
      modifies this`events
      ensures Picks(old(events), now, limit, picked) && PicksFirst(old(events), now, limit, picked)
      ensures ok == (|picked| <= |tokens|)
      ensures IsLeased(old(events), picked, tokens, now + leaseFor, events, claimed)
    {
      var ids := PickDue(events, now, limit);
      picked := ids;
      var rows: map<string, OutboxEvent>;
      ok, rows, claimed := LeaseRows(events, ids, tokens, now + leaseFor);
      events := rows;
    }
  }

  lemma SortedIsDistinct(events: map<string, OutboxEvent>, ids: seq<string>)
    requires IsSorted(events, ids)
    ensures AreDistinct(ids)
  {
    forall i, j | 0 <= i < j < |ids|
      ensures ids[i] != ids[j]
    {
      EarlierOrders(events[ids[i]], events[ids[j]], events[ids[j]]);
    }
  }

  lemma PrefixComesFirst(events: map<string, OutboxEvent>, all: seq<string>, ids: seq<string>, now: int)
    requires IsSorted(events, all) && ids <= all
    requires forall id :: id in all <==> id in events && IsDue(events[id], now)
    ensures IsSorted(events, ids)
    ensures forall id | id in ids :: IsDue(events[id], now)
    ensures forall id, other | id in events && IsDue(events[id], now) && id !in ids && other in ids ::
              Earlier(events[other], events[id])
  {
    forall id, other | id in events && IsDue(events[id], now) && id !in ids && other in ids
      ensures Earlier(events[other], events[id])
    {
      var j :| 0 <= j < |all| && all[j] == id;
      var i :| 0 <= i < |ids| && ids[i] == other;
      assert all[i] == other;
    }
  }
}
