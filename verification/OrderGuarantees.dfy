/** What the order saga guarantees over every run: histories dictate order states, compensation
    follows only a definitive rejection, leases fence workers, work per order is bounded, and
    placement is idempotent. */
module OrderGuarantees {
  import opened OrderDomain
  import opened OrderStore
  import opened OrderDispatch
  import opened OrderSaga
  import opened RetryBackoff

  // ---------------------------------------------------------------- what one step of a run does

  datatype Effect = Nothing | Adds | Leases | Acts

  predicate AddsOrder(s: System, step: Step, s': System) {
    && step.Place? && IsValid(step.request)
    && step.orderID !in s.tables.orders && step.eventID !in s.tables.events
    && var o := NewOrder(step.request, step.orderID);
    && IndexOf(o) !in s.tables.byIdempotency
    && s'.claimed == s.claimed
    && s'.tables == Tables(
         s.tables.orders[o.id := o], s.tables.byIdempotency[IndexOf(o) := o.id],
         s.tables.events[step.eventID := NewEvent(step.eventID, o.id, ReserveMargin, step.now)])
  }

  predicate LeasesEvent(s: System, step: Step, s': System) {
    && step.Claim? && step.eventID in s.tables.events && IsDue(s.tables.events[step.eventID], step.now)
    && step.token !in s.issued
    && var copy := Leased(s.tables.events[step.eventID], step.token, step.until);
    && s'.tables == s.tables.(events := s.tables.events[step.eventID := copy])
    && s'.claimed == s.claimed + {copy}
  }

  /** The worker acts under a live lease: its copy is the row, and the row's order fits it. */
  predicate ActsOnEvent(policy: RetryPolicy, s: System, step: Step, s': System) {
    && step.Deliver? && step.copy in s.claimed
    && Holds(s.tables, step.copy.id, step.copy.leaseToken)
    && s.tables.events[step.copy.id] == step.copy && Open(step.copy) && LeaseInOrder(policy, step.copy)
    && step.copy.orderID in s.tables.orders && Fits(s.tables.orders[step.copy.orderID], step.copy)
    && step.nextID !in s.tables.events
    && s'.claimed == s.claimed
    && s'.tables == Moved(policy, s.tables, step.copy, step.reply, step.nextID, step.now)
  }

  /** Every step of every run does one of four things. */
  lemma StepEffect(policy: RetryPolicy, run: seq<Step>, k: nat) returns (effect: Effect)
    requires policy.maxAttempts >= 1 && k < |run|
    ensures var s, s' := After(policy, run, k), After(policy, run, k + 1);
            match effect
            case Nothing => s'.tables == s.tables && s'.claimed == s.claimed
            case Adds => AddsOrder(s, run[k], s')
            case Leases => LeasesEvent(s, run[k], s')
            case Acts => ActsOnEvent(policy, s, run[k], s')
    ensures effect.Acts? <==>
            && run[k].Deliver? && Enabled(After(policy, run, k), run[k])
            && Holds(After(policy, run, k).tables, run[k].copy.id, run[k].copy.leaseToken)
  {
    InvAlways(policy, run, k);
    var s, step := After(policy, run, k), run[k];
    effect := Nothing;
    if Enabled(s, step) {
      match step {
        case Place(r, orderID, _, _) =>
          var index := IndexOf(NewOrder(r, orderID));
          var added := PlaceSplits(policy, s, step);
          effect := if added then Adds else Nothing;
        case Claim(_, _, _, _) =>
          effect := Leases;
        case Deliver(c, _, _, _) =>
          CopyFacts(policy, s, c);
          DeliverSplits(policy, s, step);
          effect := if Holds(s.tables, c.id, c.leaseToken) then Acts else Nothing;
      }
    }
  }

  // ---------------------------------------------------------------- histories

  /** How far an order's event of one kind has come. */
  datatype Phase = Absent | InFlight | Finished | Abandoned

  function PhaseOfEvent(e: OutboxEvent): Phase {
    match e.state
    case EventDelivered => Finished
    case EventDead => Abandoned
    case _ => InFlight
  }

  ghost function PhaseOf(events: Events, orderID: string, kind: EventKind): Phase {
    if HasEvent(events, orderID, kind) then
      var id :| id in events && events[id].orderID == orderID && events[id].kind == kind;
      PhaseOfEvent(events[id])
    else Absent
  }

  /** The one status and margin that go with a history. */
  function Dictated(reserve: Phase, route: Phase, release: Phase): (OrderStatus, MarginState) {
    match release
    case InFlight => (Rejected, MarginReleasePending)
    case Abandoned => (ReconciliationRequired, MarginReleasePending)
    case Finished => (Rejected, MarginReleased)
    case Absent => (
      match route
      case InFlight => (PendingRoute, MarginReserved)
      case Abandoned => (ReconciliationRequired, MarginReserved)
      case Finished => (Accepted, MarginReserved)
      case Absent => (
        match reserve
        case Abandoned => (ReconciliationRequired, MarginNone)
        case Finished => (Rejected, MarginNone)
        case _ => (PendingMargin, MarginNone)))
  }

  /** The witnesses of a history: an event for every stage the order has entered. */
  lemma PhaseFits(policy: RetryPolicy, run: seq<Step>, k: nat, orderID: string, kind: EventKind)
      returns (e: OutboxEvent)
    requires policy.maxAttempts >= 1 && k <= |run| && orderID in After(policy, run, k).tables.orders
    ensures var t := After(policy, run, k).tables;
            var phase := PhaseOf(t.events, orderID, kind);
            if phase == Absent then
              && kind != ReserveMargin
              && (kind == RouteExchange ==> t.orders[orderID].margin == MarginNone)
              && (kind == ReleaseMargin ==> !CompensationBegun(t.orders[orderID]))
            else e.kind == kind && phase == PhaseOfEvent(e) && Fits(t.orders[orderID], e)
  {
    InvAlways(policy, run, k);
    var t := After(policy, run, k).tables;
    assert OrderStaged(orderID, t.orders[orderID], t.events);
    e := PhaseWitness(t.events, orderID, kind);
    if HasEvent(t.events, orderID, kind) {
      assert RowFits(t.orders, e.id, t.events[e.id]);
    }
  }

  lemma PhaseWitness(events: Events, orderID: string, kind: EventKind) returns (e: OutboxEvent)
    requires forall id | id in events :: events[id].id == id
    ensures if HasEvent(events, orderID, kind) then
              && e.id in events && events[e.id] == e && e.orderID == orderID && e.kind == kind
              && PhaseOf(events, orderID, kind) == PhaseOfEvent(e)
            else PhaseOf(events, orderID, kind) == Absent
  {
    e := NewEvent("", orderID, kind, 0);
    if HasEvent(events, orderID, kind) {
      var id :| id in events && events[id].orderID == orderID && events[id].kind == kind &&
                PhaseOf(events, orderID, kind) == PhaseOfEvent(events[id]);
      e := events[id];
    }
  }

  /** An order's status and margin are the ones its event history dictates, and stages open only
      one after the other. */
  lemma HistoryDictatesOrder(policy: RetryPolicy, run: seq<Step>, k: nat, orderID: string)
    requires policy.maxAttempts >= 1 && k <= |run| && orderID in After(policy, run, k).tables.orders
    ensures var t := After(policy, run, k).tables;
            var reserve, route, release := PhaseOf(t.events, orderID, ReserveMargin),
              PhaseOf(t.events, orderID, RouteExchange), PhaseOf(t.events, orderID, ReleaseMargin);
            && (t.orders[orderID].status, t.orders[orderID].margin) == Dictated(reserve, route, release)
            && reserve != Absent
            && (route != Absent ==> reserve == Finished)
            && (release != Absent ==> route == Finished)
  {
    var r := PhaseFits(policy, run, k, orderID, ReserveMargin);
    var x := PhaseFits(policy, run, k, orderID, RouteExchange);
    var l := PhaseFits(policy, run, k, orderID, ReleaseMargin);
  }

  lemma OpenIsUnique(orders: Orders, events: Events, id: string, other: string)
    requires EventsFit(orders, events) && OnePerKind(events)
    requires id in events && other in events && events[id].orderID == events[other].orderID
    requires Open(events[id]) && Open(events[other])
    ensures id == other
  {
    assert RowFits(orders, id, events[id]) && RowFits(orders, other, events[other]);
  }

  /** An order never has two open events. */
  lemma AtMostOneOpenEvent(policy: RetryPolicy, run: seq<Step>, k: nat, id: string, other: string)
    requires policy.maxAttempts >= 1 && k <= |run|
    requires var events := After(policy, run, k).tables.events;
             && id in events && other in events && events[id].orderID == events[other].orderID
             && Open(events[id]) && Open(events[other])
    ensures id == other
  {
    InvAlways(policy, run, k);
    var t := After(policy, run, k).tables;
    OpenIsUnique(t.orders, t.events, id, other);
  }

  /** All remote calls of one kind for one order carry one operation ID, because all copies that
      workers hold are copies of one event. */
  lemma OneOperationPerKind(policy: RetryPolicy, run: seq<Step>, k: nat, c: OutboxEvent, d: OutboxEvent)
    requires policy.maxAttempts >= 1 && k <= |run|
    requires c in After(policy, run, k).claimed && d in After(policy, run, k).claimed
    requires c.orderID == d.orderID && c.kind == d.kind
    ensures c.id == d.id
  {
    InvAlways(policy, run, k);
    var s := After(policy, run, k);
    assert CopyInOrder(s.tables, c) && CopyInOrder(s.tables, d);
  }

  // ---------------------------------------------------------------- compensation

  /** Step `i` recorded the exchange's definitive rejection of the order. */
  predicate RecordsRejection(policy: RetryPolicy, run: seq<Step>, i: nat, orderID: string)
    requires i < |run|
  {
    && run[i].Deliver? && run[i].reply.Declined?
    && run[i].copy.kind == RouteExchange && run[i].copy.orderID == orderID
    && Enabled(After(policy, run, i), run[i])
    && Holds(After(policy, run, i).tables, run[i].copy.id, run[i].copy.leaseToken)
  }

  /** The only step that brings a release event into being records a rejection. */
  lemma ReleaseAppears(policy: RetryPolicy, run: seq<Step>, k: nat, id: string)
    requires policy.maxAttempts >= 1 && k < |run|
    requires var events := After(policy, run, k + 1).tables.events;
             id in events && events[id].kind == ReleaseMargin
    ensures var before, after := After(policy, run, k).tables.events, After(policy, run, k + 1).tables.events;
            || (id in before && before[id].kind == ReleaseMargin && before[id].orderID == after[id].orderID)
            || RecordsRejection(policy, run, k, after[id].orderID)
  {
    var effect := StepEffect(policy, run, k);
  }

  /** A release event exists only after a recorded definitive rejection by the exchange. */
  lemma {:induction false} ReleaseFollowsRejection(policy: RetryPolicy, run: seq<Step>, k: nat, id: string)
    requires policy.maxAttempts >= 1 && k <= |run|
    requires var events := After(policy, run, k).tables.events;
             id in events && events[id].kind == ReleaseMargin
    ensures exists i: nat | i < k :: RecordsRejection(policy, run, i, After(policy, run, k).tables.events[id].orderID)
  {
    var before := After(policy, run, k - 1).tables.events;
    ReleaseAppears(policy, run, k - 1, id);
    if id in before && before[id].kind == ReleaseMargin &&
       before[id].orderID == After(policy, run, k).tables.events[id].orderID {
      ReleaseFollowsRejection(policy, run, k - 1, id);
    }
  }

  /** Giving up on an event, or retrying it, leaves every order's margin and reservation alone. */
  lemma FaultsLeaveMargin(policy: RetryPolicy, run: seq<Step>, k: nat, orderID: string)
    requires policy.maxAttempts >= 1 && k < |run| && orderID in After(policy, run, k).tables.orders
    requires run[k].Deliver? && run[k].reply.Fault?
    ensures var before, after := After(policy, run, k).tables.orders, After(policy, run, k + 1).tables.orders;
            && orderID in after
            && after[orderID].margin == before[orderID].margin
            && after[orderID].reservationID == before[orderID].reservationID
  {
    var effect := StepEffect(policy, run, k);
  }

  // ---------------------------------------------------------------- leases

  /** An event that is delivered or dead never changes again. */
  lemma ClosedStaysClosed(policy: RetryPolicy, run: seq<Step>, k: nat, id: string)
    requires policy.maxAttempts >= 1 && k < |run|
    requires id in After(policy, run, k).tables.events && !Open(After(policy, run, k).tables.events[id])
    ensures var later := After(policy, run, k + 1).tables.events;
            id in later && later[id] == After(policy, run, k).tables.events[id]
  {
    var effect := StepEffect(policy, run, k);
  }

  /** Over a run: once closed, an event's row is the same for ever. */
  lemma {:induction false} EventsCloseOnce(policy: RetryPolicy, run: seq<Step>, j: nat, k: nat, id: string)
    requires policy.maxAttempts >= 1 && j <= k <= |run|
    requires id in After(policy, run, j).tables.events && !Open(After(policy, run, j).tables.events[id])
    ensures var later := After(policy, run, k).tables.events;
            id in later && later[id] == After(policy, run, j).tables.events[id]
    decreases k
  {
    if j < k {
      EventsCloseOnce(policy, run, j, k - 1, id);
      ClosedStaysClosed(policy, run, k - 1, id);
    }
  }

  /** An event is delivered, retried or given up only by a worker whose copy is the row itself,
      so only under its latest lease. */
  lemma OnlyLatestHolderActs(policy: RetryPolicy, run: seq<Step>, k: nat, id: string)
    requires policy.maxAttempts >= 1 && k < |run| && !run[k].Claim?
    requires id in After(policy, run, k).tables.events
    requires id in After(policy, run, k + 1).tables.events ==>
             After(policy, run, k + 1).tables.events[id] != After(policy, run, k).tables.events[id]
    ensures run[k].Deliver? && run[k].copy in After(policy, run, k).claimed
    ensures run[k].copy == After(policy, run, k).tables.events[id]
  {
    var effect := StepEffect(policy, run, k);
  }

  /** No two workers hold copies with one token. */
  lemma TokensAreUnique(policy: RetryPolicy, run: seq<Step>, k: nat, c: OutboxEvent, d: OutboxEvent)
    requires policy.maxAttempts >= 1 && k <= |run|
    requires c in After(policy, run, k).claimed && d in After(policy, run, k).claimed && c.leaseToken == d.leaseToken
    ensures c == d
  {
    InvAlways(policy, run, k);
  }

  /** While an event is open, fewer attempts than the budget are recorded on it. */
  lemma AttemptsStayBelowBudget(policy: RetryPolicy, run: seq<Step>, k: nat, id: string)
    requires policy.maxAttempts >= 1 && k <= |run| && id in After(policy, run, k).tables.events
    ensures var e := After(policy, run, k).tables.events[id];
            Open(e) ==> e.attempts < policy.maxAttempts
  {
    InvAlways(policy, run, k);
    assert LeaseInOrder(policy, After(policy, run, k).tables.events[id]);
  }

  /** A claim takes a row exactly when the row is the one it names, waits and is available, or is
      processing under a lease that has run out; the row then runs under the fresh token until the
      new lease ends, and no other row changes. */
  lemma ClaimsTakeLapsedRows(policy: RetryPolicy, run: seq<Step>, k: nat, id: string)
    requires policy.maxAttempts >= 1 && k < |run| && run[k].Claim? && id in After(policy, run, k).tables.events
    ensures var s, c := After(policy, run, k), run[k];
            var e := s.tables.events[id];
            var lapsed := || ((e.state == EventPending || e.state == EventRetry) && e.availableAt <= c.now)
                          || (e.state == EventProcessing && e.leaseUntil <= c.now);
            var later := After(policy, run, k + 1).tables.events;
            && later.Keys == s.tables.events.Keys
            && later[id] == if id == c.eventID && lapsed && c.token != "" && c.token !in s.issued
                            then e.(state := EventProcessing, leaseToken := c.token, leaseUntil := c.until) else e
  {
    var effect := StepEffect(policy, run, k);
  }

  /** Step `k` records a transient fault of an event that has attempts left. */
  predicate RetriesAt(policy: RetryPolicy, run: seq<Step>, k: nat, id: string)
    requires k < |run|
  {
    && run[k].Deliver? && run[k].copy.id == id && run[k].reply.Fault? && run[k].reply.isTransient
    && run[k].copy.attempts + 1 < policy.maxAttempts
    && Enabled(After(policy, run, k), run[k])
    && Holds(After(policy, run, k).tables, id, run[k].copy.leaseToken)
  }

  /** A fault reported under the lease counts one more attempt.  It is retried exactly when it is
      transient and the attempts so counted stay below the budget; otherwise the event is dead and its
      order is left to reconciliation with the cause. */
  lemma FaultsRetryOrDie(policy: RetryPolicy, run: seq<Step>, k: nat)
    requires policy.maxAttempts >= 1 && k < |run| && run[k].Deliver? && run[k].reply.Fault?
    requires ActsOn(policy, run, k, run[k].copy.orderID)
    ensures var t, t', c := After(policy, run, k).tables, After(policy, run, k + 1).tables, run[k].copy;
            && c.id in t'.events && c.orderID in t.orders
            && t'.events[c.id].attempts == t.events[c.id].attempts + 1
            && t'.events[c.id].state ==
                 (if run[k].reply.isTransient && c.attempts + 1 < policy.maxAttempts then EventRetry else EventDead)
            && t'.orders == if RetriesAt(policy, run, k, c.id) then t.orders
                            else t.orders[c.orderID := t.orders[c.orderID].(
                                   status := ReconciliationRequired, failureReason := run[k].reply.cause)]
  {
    var effect := StepEffect(policy, run, k);
  }

  /** The first moment at which a retried event may be claimed. */
  function RetryTime(policy: RetryPolicy, step: Step): int
    requires step.Deliver?
  {
    step.now + DelayOf(policy, step.copy.attempts + 1)
  }

  lemma RetriedRow(policy: RetryPolicy, run: seq<Step>, j: nat, id: string)
    requires policy.maxAttempts >= 1 && j < |run| && RetriesAt(policy, run, j, id)
    ensures var c, later := run[j].copy, After(policy, run, j + 1).tables.events;
            id in later && later[id] == OutboxEvent(c.id, c.orderID, c.kind, EventRetry, c.attempts + 1,
                                                    RetryTime(policy, run[j]), "", 0, run[j].reply.cause)
  {
    var effect := StepEffect(policy, run, j);
  }

  /** A retried event rests, with one more attempt counted, until it is claimed at or after its
      time plus the back-off delay for that attempt. */
  lemma {:induction false} RetriedEventsWait(policy: RetryPolicy, run: seq<Step>, j: nat, k: nat, id: string)
    requires policy.maxAttempts >= 1 && j < k <= |run| && RetriesAt(policy, run, j, id)
    requires forall i | j < i < k && run[i].Claim? && run[i].eventID == id :: run[i].now < RetryTime(policy, run[j])
    ensures var c, e := run[j].copy, After(policy, run, k).tables.events;
            id in e && e[id] == OutboxEvent(c.id, c.orderID, c.kind, EventRetry, c.attempts + 1,
                                            RetryTime(policy, run[j]), "", 0, run[j].reply.cause)
    decreases k
  {
    RetriedRow(policy, run, j, id);
    if j + 1 < k {
      RetriedEventsWait(policy, run, j, k - 1, id);
      var effect := StepEffect(policy, run, k - 1);
    }
  }

  // ---------------------------------------------------------------- bounded work

  lemma RowFacts(policy: RetryPolicy, run: seq<Step>, k: nat, id: string)
    requires policy.maxAttempts >= 1 && k <= |run| && id in After(policy, run, k).tables.events
    ensures var t := After(policy, run, k).tables;
            RowFits(t.orders, id, t.events[id]) && LeaseInOrder(policy, t.events[id])
  {
    InvAlways(policy, run, k);
  }

  predicate IsOpenOf(events: Events, id: string, orderID: string) {
    id in events && events[id].orderID == orderID && Open(events[id])
  }

  /** What an open event can still cost: its remaining attempts, and full budgets for the
      stages that may follow it. */
  function Work(policy: RetryPolicy, e: OutboxEvent): int {
    policy.maxAttempts - e.attempts +
    match e.kind
    case ReserveMargin => 2 * policy.maxAttempts
    case RouteExchange => policy.maxAttempts
    case ReleaseMargin => 0
  }

  ghost predicate HasOpen(events: Events, orderID: string) {
    exists id :: IsOpenOf(events, id, orderID)
  }

  ghost function SomeOpen(events: Events, orderID: string): (id: string)
    requires HasOpen(events, orderID)
    ensures IsOpenOf(events, id, orderID)
  {
    var id :| IsOpenOf(events, id, orderID);
    id
  }

  ghost function Budget(policy: RetryPolicy, t: Tables, orderID: string): int {
    if orderID !in t.orders then 3 * policy.maxAttempts
    else if HasOpen(t.events, orderID) then Work(policy, t.events[SomeOpen(t.events, orderID)])
    else 0
  }

  lemma BudgetIsWork(policy: RetryPolicy, run: seq<Step>, k: nat, orderID: string, id: string)
    requires policy.maxAttempts >= 1 && k <= |run|
    requires IsOpenOf(After(policy, run, k).tables.events, id, orderID)
    ensures var t := After(policy, run, k).tables;
            Budget(policy, t, orderID) == Work(policy, t.events[id]) >= 1
  {
    RowFacts(policy, run, k, id);
    AtMostOneOpenEvent(policy, run, k, id, SomeOpen(After(policy, run, k).tables.events, orderID));
  }

  lemma BudgetIsNatural(policy: RetryPolicy, run: seq<Step>, k: nat, orderID: string)
    requires policy.maxAttempts >= 1 && k <= |run|
    ensures Budget(policy, After(policy, run, k).tables, orderID) >= 0
  {
    var t := After(policy, run, k).tables;
    if orderID in t.orders && HasOpen(t.events, orderID) {
      BudgetIsWork(policy, run, k, orderID, SomeOpen(t.events, orderID));
    }
  }

  /** Step `k` is a Finalize, Retry or Abandon of the order that the store accepted. */
  predicate ActsOn(policy: RetryPolicy, run: seq<Step>, k: nat, orderID: string)
    requires k < |run|
  {
    && run[k].Deliver? && run[k].copy.orderID == orderID
    && Enabled(After(policy, run, k), run[k])
    && Holds(After(policy, run, k).tables, run[k].copy.id, run[k].copy.leaseToken)
  }

  /** An event that is open after a step was there before it at no less cost, or follows from
      the event the step acted on, or is the first of a new order. */
  lemma OpenEventCameFrom(policy: RetryPolicy, run: seq<Step>, k: nat, orderID: string, id: string)
    requires policy.maxAttempts >= 1 && k < |run|
    requires IsOpenOf(After(policy, run, k + 1).tables.events, id, orderID)
    ensures var t, t' := After(policy, run, k).tables, After(policy, run, k + 1).tables;
            if ActsOn(policy, run, k, orderID) then
              && IsOpenOf(t.events, run[k].copy.id, orderID)
              && Work(policy, t'.events[id]) < Work(policy, t.events[run[k].copy.id])
            else
              || (orderID !in t.orders && Work(policy, t'.events[id]) == 3 * policy.maxAttempts)
              || (IsOpenOf(t.events, id, orderID) && Work(policy, t'.events[id]) == Work(policy, t.events[id]))
  {
    var effect := StepEffect(policy, run, k);
    if effect.Acts? && id in After(policy, run, k).tables.events && id != run[k].copy.id &&
       run[k].copy.orderID == orderID {
      AtMostOneOpenEvent(policy, run, k, id, run[k].copy.id);
    }
  }

  /** Every accepted Finalize, Retry or Abandon of an order strictly lowers its budget, and no
      other step raises it. */
  lemma ActionsLowerBudget(policy: RetryPolicy, run: seq<Step>, k: nat, orderID: string)
    requires policy.maxAttempts >= 1 && k < |run|
    ensures Budget(policy, After(policy, run, k + 1).tables, orderID)
              + (if ActsOn(policy, run, k, orderID) then 1 else 0)
            <= Budget(policy, After(policy, run, k).tables, orderID)
  {
    var t, t' := After(policy, run, k).tables, After(policy, run, k + 1).tables;
    OrdersStay(policy, run, k, orderID);
    BudgetIsNatural(policy, run, k, orderID);
    if ActsOn(policy, run, k, orderID) {
      ActorIsOpen(policy, run, k, orderID);
      BudgetIsWork(policy, run, k, orderID, run[k].copy.id);
    }
    if HasOpen(t'.events, orderID) {
      var id := SomeOpen(t'.events, orderID);
      OpenEventCameFrom(policy, run, k, orderID, id);
      BudgetIsWork(policy, run, k + 1, orderID, id);
      if IsOpenOf(t.events, id, orderID) {
        BudgetIsWork(policy, run, k, orderID, id);
      }
    }
  }

  lemma ActorIsOpen(policy: RetryPolicy, run: seq<Step>, k: nat, orderID: string)
    requires policy.maxAttempts >= 1 && k < |run| && ActsOn(policy, run, k, orderID)
    ensures orderID in After(policy, run, k).tables.orders
    ensures IsOpenOf(After(policy, run, k).tables.events, run[k].copy.id, orderID)
  {
    var effect := StepEffect(policy, run, k);
  }

  /** Orders are never dropped, and a new one starts with an open event. */
  lemma OrdersStay(policy: RetryPolicy, run: seq<Step>, k: nat, orderID: string)
    requires policy.maxAttempts >= 1 && k < |run|
    ensures orderID in After(policy, run, k).tables.orders ==> orderID in After(policy, run, k + 1).tables.orders
    ensures orderID !in After(policy, run, k).tables.orders && orderID in After(policy, run, k + 1).tables.orders ==>
            HasOpen(After(policy, run, k + 1).tables.events, orderID)
  {
    var effect := StepEffect(policy, run, k);
    if effect.Adds? && run[k].orderID == orderID {
      assert IsOpenOf(After(policy, run, k + 1).tables.events, run[k].eventID, orderID);
    }
  }

  ghost function Actions(policy: RetryPolicy, run: seq<Step>, k: nat, orderID: string): nat
    requires k <= |run|
  {
    if k == 0 then 0
    else Actions(policy, run, k - 1, orderID) + (if ActsOn(policy, run, k - 1, orderID) then 1 else 0)
  }

  lemma {:induction false} BudgetPaysForActions(policy: RetryPolicy, run: seq<Step>, k: nat, orderID: string)
    requires policy.maxAttempts >= 1 && k <= |run|
    ensures Actions(policy, run, k, orderID) + Budget(policy, After(policy, run, k).tables, orderID)
            <= 3 * policy.maxAttempts
  {
    if k > 0 {
      BudgetPaysForActions(policy, run, k - 1, orderID);
      ActionsLowerBudget(policy, run, k - 1, orderID);
    }
  }

  /** However many workers there are, and however often they crash or are overtaken, an order
      sees at most three budgets of accepted actions. */
  lemma WorkPerOrderIsBounded(policy: RetryPolicy, run: seq<Step>, k: nat, orderID: string)
    requires policy.maxAttempts >= 1 && k <= |run|
    ensures Actions(policy, run, k, orderID) <= 3 * policy.maxAttempts
  {
    BudgetPaysForActions(policy, run, k, orderID);
    BudgetIsNatural(policy, run, k, orderID);
  }

  // ---------------------------------------------------------------- idempotent placement

  /** There is at most one order per account and key. */
  lemma OneOrderPerKey(policy: RetryPolicy, run: seq<Step>, k: nat, a: string, b: string)
    requires policy.maxAttempts >= 1 && k <= |run|
    requires var orders := After(policy, run, k).tables.orders;
             && a in orders && b in orders
             && orders[a].accountID == orders[b].accountID && orders[a].idempotencyKey == orders[b].idempotencyKey
    ensures a == b
  {
    InvAlways(policy, run, k);
    var orders := After(policy, run, k).tables.orders;
    assert IndexOf(orders[a]) == IndexOf(orders[b]);
  }

  /** The order that a valid request meets in the store, for accounts without a NUL byte: the
      one of its own account and key. */
  lemma LookupFindsOwnOrder(policy: RetryPolicy, run: seq<Step>, k: nat, r: PlaceOrderRequest, id: string)
    requires policy.maxAttempts >= 1 && k <= |run| && id in After(policy, run, k).tables.orders
    requires NUL !in r.accountID && NUL !in After(policy, run, k).tables.orders[id].accountID
    ensures var t := After(policy, run, k).tables;
            OrderByIdempotency(t, r.accountID, r.idempotencyKey) == Ok(t.orders[id]) <==>
              t.orders[id].accountID == r.accountID && t.orders[id].idempotencyKey == r.idempotencyKey
  {
    InvAlways(policy, run, k);
    var t := After(policy, run, k).tables;
    IndexIdentifiesPair(t.orders[id].accountID, t.orders[id].idempotencyKey, r.accountID, r.idempotencyKey);
    assert IndexOf(t.orders[id]) in t.byIdempotency;
  }

  /** A request whose account and key are taken replays that order exactly when the four order
      fields match; otherwise it conflicts.  Either way no table changes. */
  lemma PlaceReplaysOrConflicts(policy: RetryPolicy, run: seq<Step>, k: nat, r: PlaceOrderRequest, id: string,
                                orderID: string, eventID: string, now: int)
    requires policy.maxAttempts >= 1 && k <= |run| && IsValid(r) && id in After(policy, run, k).tables.orders
    requires After(policy, run, k).tables.orders[id].accountID == r.accountID
    requires After(policy, run, k).tables.orders[id].idempotencyKey == r.idempotencyKey
    ensures var t := After(policy, run, k).tables;
            && OrderByIdempotency(t, r.accountID, r.idempotencyKey) == Ok(t.orders[id])
            && PlaceTo(t, r, orderID, eventID, now) ==
                 if SameOrderFields(RequestOf(t.orders[id]), r) then Ok(t) else Err(IdempotencyConflict)
  {
    InvAlways(policy, run, k);
    var t := After(policy, run, k).tables;
    assert WellPlaced(t.orders[id]);
    assert IndexOf(t.orders[id]) == IdempotencyIndex(r.accountID, r.idempotencyKey);
    FingerprintIdentifiesOrder(RequestOf(t.orders[id]), r);
  }

  ghost predicate IsTaken(orders: Orders, accountID: string, key: string) {
    exists id :: id in orders && IndexOf(orders[id]) == accountID + "\0" + key
  }

  /** A placement adds an order exactly when the request names account, key and instrument, buys or
      sells a positive quantity at a positive price, and no order has its index; the order then waits
      for its margin, and its first event, to reserve it, is due at once.  Otherwise nothing changes. */
  lemma PlacesIff(policy: RetryPolicy, run: seq<Step>, k: nat)
    requires policy.maxAttempts >= 1 && k < |run| && run[k].Place? && Enabled(After(policy, run, k), run[k])
    ensures var t, t', p := After(policy, run, k).tables, After(policy, run, k + 1).tables, run[k];
            var r := p.request;
            var sound := && r.accountID != "" && r.idempotencyKey != "" && r.instrument != ""
                         && r.side in {"BUY", "SELL"} && r.quantity >= 1 && r.limitPrice >= 1;
            if sound && !IsTaken(t.orders, r.accountID, r.idempotencyKey) then
              && t'.orders == t.orders[p.orderID := Order(
                   p.orderID, r.accountID, r.idempotencyKey, RequestFingerprint(r), r.instrument, r.side, r.quantity,
                   r.limitPrice, PendingMargin, MarginNone, "", "", "")]
              && t'.events == t.events[p.eventID := OutboxEvent(
                   p.eventID, p.orderID, ReserveMargin, EventPending, 0, p.now, "", 0, "")]
            else t' == t
  {
    InvAlways(policy, run, k);
    var s := After(policy, run, k);
    var added := PlaceSplits(policy, s, run[k]);
    TakenIff(s.tables.orders, s.tables.byIdempotency, run[k].request);
    PlaceWrites(s.tables, run[k].request, run[k].orderID, run[k].eventID, run[k].now);
  }

  lemma TakenIff(orders: Orders, byIdempotency: map<string, string>, r: PlaceOrderRequest)
    requires Indexed(orders, byIdempotency)
    ensures IsTaken(orders, r.accountID, r.idempotencyKey)
            <==> IdempotencyIndex(r.accountID, r.idempotencyKey) in byIdempotency
  {
    var index := IdempotencyIndex(r.accountID, r.idempotencyKey);
    assert index == r.accountID + "\0" + r.idempotencyKey;
    if index in byIdempotency {
      assert IndexOf(orders[byIdempotency[index]]) == index;
    }
  }

  // ---------------------------------------------------------------- batches

  /** The claims of one batch, one step each. */
  function ClaimSteps(ids: seq<string>, tokens: seq<string>, now: int, until: int): seq<Step>
    requires |ids| <= |tokens|
  {
    seq(|ids|, i requires 0 <= i < |ids| => Claim(ids[i], tokens[i], now, until))
  }

  function ExecAll(policy: RetryPolicy, s: System, steps: seq<Step>): System {
    if steps == [] then s else Exec(policy, ExecAll(policy, s, steps[..|steps| - 1]), steps[|steps| - 1])
  }

  ghost predicate CanClaim(s: System, ids: seq<string>, tokens: seq<string>, now: int) {
    && |ids| == |tokens|
    && (forall i | 0 <= i < |ids| :: ids[i] in s.tables.events && IsDue(s.tables.events[ids[i]], now))
    && (forall i, j | 0 <= i < j < |ids| :: ids[i] != ids[j])
    && (forall i, j | 0 <= i < j < |tokens| :: tokens[i] != tokens[j])
    && (forall i | 0 <= i < |tokens| :: Fresh(s, tokens[i]))
  }

  lemma ClaimOne(policy: RetryPolicy, s: System, e: OutboxEvent, step: Step)
    requires step.Claim? && step.eventID in s.tables.events && s.tables.events[step.eventID] == e
    requires IsDue(e, step.now) && Fresh(s, step.token)
    ensures var copy := Leased(e, step.token, step.until);
            Exec(policy, s, step) == System(
              s.tables.(events := s.tables.events[step.eventID := copy]), s.issued + {step.token}, s.claimed + {copy})
  {
  }

  lemma {:induction false} LeaseAllIgnoresRest(events: Events, ids: seq<string>, tokens: seq<string>, until: int,
                                               n: nat)
    requires |ids| <= n <= |tokens| && forall i | 0 <= i < |ids| :: ids[i] in events
    ensures LeaseAll(events, ids, tokens[..n], until) == LeaseAll(events, ids, tokens, until)
  {
    if ids != [] {
      LeaseAllIgnoresRest(events, ids[..|ids| - 1], tokens, until, n);
    }
  }

  /** Claiming a batch leaves the tables as claiming its events one by one does, and hands out
      every copy, so runs of single claims cover the store's batches. */
  lemma {:induction false} BatchIsClaims(policy: RetryPolicy, s: System, ids: seq<string>, tokens: seq<string>,
                                         now: int, until: int)
    requires CanClaim(s, ids, tokens, now)
    ensures var after := ExecAll(policy, s, ClaimSteps(ids, tokens, now, until));
            && after.tables == s.tables.(events := LeaseAll(s.tables.events, ids, tokens, until))
            && (forall t | t in after.issued :: t in s.issued || t in tokens)
            && s.claimed <= after.claimed
            && LeasesJust(s.tables.events, ids, tokens, until, after.tables.events)
  {
    if ids != [] {
      var last := |ids| - 1;
      var before := BatchButLast(policy, s, ids, tokens, now, until);
      BatchIsClaims(policy, s, ids[..last], tokens[..last], now, until);
      ClaimOne(policy, before, s.tables.events[ids[last]], Claim(ids[last], tokens[last], now, until));
    }
    LeaseAllLeasesJust(s.tables.events, ids, tokens, until);
  }

  lemma ClaimsButLast(policy: RetryPolicy, s: System, ids: seq<string>, tokens: seq<string>, now: int, until: int)
    requires |ids| == |tokens| && ids != []
    ensures var last := |ids| - 1;
            ExecAll(policy, s, ClaimSteps(ids, tokens, now, until))
            == Exec(policy, ExecAll(policy, s, ClaimSteps(ids[..last], tokens[..last], now, until)),
                    Claim(ids[last], tokens[last], now, until))
  {
    var last, steps := |ids| - 1, ClaimSteps(ids, tokens, now, until);
    assert steps[..last] == ClaimSteps(ids[..last], tokens[..last], now, until);
  }

  lemma LeasesButLast(events: Events, ids: seq<string>, tokens: seq<string>, until: int)
    requires |ids| == |tokens| && ids != [] && forall i | 0 <= i < |ids| :: ids[i] in events
    requires ids[|ids| - 1] !in ids[..|ids| - 1]
    ensures var last := |ids| - 1;
            var rows := LeaseAll(events, ids[..last], tokens[..last], until);
            && rows[ids[last]] == events[ids[last]]
            && LeaseAll(events, ids, tokens, until) == rows[ids[last] := Leased(events[ids[last]], tokens[last], until)]
  {
    var last := |ids| - 1;
    LeaseAllIgnoresRest(events, ids[..last], tokens, until, last);
    LeaseAllSparesOthers(events, ids[..last], tokens, until, ids[last]);
  }

  lemma BatchButLast(policy: RetryPolicy, s: System, ids: seq<string>, tokens: seq<string>, now: int, until: int)
      returns (before: System)
    requires CanClaim(s, ids, tokens, now) && ids != []
    ensures var last := |ids| - 1;
            && CanClaim(s, ids[..last], tokens[..last], now)
            && before == ExecAll(policy, s, ClaimSteps(ids[..last], tokens[..last], now, until))
            && ExecAll(policy, s, ClaimSteps(ids, tokens, now, until))
                 == Exec(policy, before, Claim(ids[last], tokens[last], now, until))
            && var rows := LeaseAll(s.tables.events, ids[..last], tokens[..last], until);
               && ids[last] in rows && rows[ids[last]] == s.tables.events[ids[last]]
               && LeaseAll(s.tables.events, ids, tokens, until)
                    == rows[ids[last] := Leased(s.tables.events[ids[last]], tokens[last], until)]
    ensures tokens[|ids| - 1] !in tokens[..|ids| - 1]
  {
    var last := |ids| - 1;
    assert ids[last] !in ids[..last] && tokens[last] !in tokens[..last];
    ClaimsButLast(policy, s, ids, tokens, now, until);
    LeasesButLast(s.tables.events, ids, tokens, until);
    before := ExecAll(policy, s, ClaimSteps(ids[..last], tokens[..last], now, until));
  }

  /** Every copy of the batch ends up with a worker. */
  lemma {:induction false} BatchHandsOutCopies(policy: RetryPolicy, s: System, ids: seq<string>, tokens: seq<string>,
                                               now: int, until: int, i: nat)
    requires CanClaim(s, ids, tokens, now) && i < |ids|
    ensures Leased(s.tables.events[ids[i]], tokens[i], until)
            in ExecAll(policy, s, ClaimSteps(ids, tokens, now, until)).claimed
  {
    var last := |ids| - 1;
    var before := BatchButLast(policy, s, ids, tokens, now, until);
    BatchIsClaims(policy, s, ids[..last], tokens[..last], now, until);
    ClaimOne(policy, before, s.tables.events[ids[last]], Claim(ids[last], tokens[last], now, until));
    if i < last {
      BatchHandsOutCopies(policy, s, ids[..last], tokens[..last], now, until, i);
    }
  }
}
