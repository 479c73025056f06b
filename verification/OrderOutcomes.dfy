/** The order saga and the gateways it calls: what is on record agrees with what they answered, and
    every run can be brought to an end whatever they answer. */
module OrderOutcomes {
  import opened OrderDomain
  import opened OrderStore
  import opened OrderDispatch
  import opened OrderSaga
  import opened OrderGuarantees
  import opened RetryBackoff

  // ---------------------------------------------------------------- agreement with the gateways

  /** The gateways give one definitive answer per operation, however often they are called. */
  ghost predicate IsTruthful(run: seq<Step>, truth: string -> Reply) {
    forall k | 0 <= k < |run| && run[k].Deliver? && !run[k].reply.Fault? :: run[k].reply == truth(run[k].copy.id)
  }

  /** A delivered event's answer is what the order says. */
  predicate IsRecorded(o: Order, e: OutboxEvent, answer: Reply) {
    e.state == EventDelivered ==>
      match e.kind
      case ReserveMargin => (
        match answer
        case Approved(reference) => o.margin != MarginNone && o.reservationID == reference
        case Declined(reason) => o.status == Rejected && o.margin == MarginNone && o.failureReason == reason
        case Fault(_, _) => false)
      case RouteExchange => (
        match answer
        case Approved(reference) =>
          o.status == Accepted && o.margin == MarginReserved && o.exchangeOrderID == reference
        case Declined(reason) =>
          CompensationBegun(o) && o.status != Accepted && (o.status == Rejected ==> o.failureReason == reason)
        case Fault(_, _) => false)
      case ReleaseMargin => o.margin == MarginReleased && !answer.Fault?
  }

  lemma MoveRecordsAnswer(policy: RetryPolicy, o: Order, e: OutboxEvent, reply: Reply, now: int)
    requires Fits(o, e) && Open(e)
    ensures IsRecorded(OrderAfter(policy, o, e, reply), EventAfter(policy, e, reply, now), reply)
  {
  }

  lemma MoveKeepsRecorded(policy: RetryPolicy, o: Order, e: OutboxEvent, reply: Reply, f: OutboxEvent, answer: Reply)
    requires Fits(o, e) && Open(e) && f.kind != e.kind && IsRecorded(o, f, answer)
    ensures IsRecorded(OrderAfter(policy, o, e, reply), f, answer)
  {
  }

  predicate IsRecordedIn(t: Tables, id: string, answer: Reply) {
    && id in t.events && t.events[id].orderID in t.orders
    && IsRecorded(t.orders[t.events[id].orderID], t.events[id], answer)
  }

  lemma ActionRecords(policy: RetryPolicy, s: System, step: Step, s': System, id: string, answer: Reply)
    requires ActsOnEvent(policy, s, step, s') && s.tables.orders[step.copy.orderID].id == step.copy.orderID
    requires id in s'.tables.events && s'.tables.events[id].orderID in s'.tables.orders
    requires id in s.tables.events ==> IsRecordedIn(s.tables, id, answer)
    requires id == step.copy.id && !step.reply.Fault? ==> step.reply == answer
    requires id in s.tables.events && id != step.copy.id && s.tables.events[id].orderID == step.copy.orderID ==>
               s.tables.events[id].kind != step.copy.kind
    ensures IsRecordedIn(s'.tables, id, answer)
  {
    var c := step.copy;
    var o := s.tables.orders[c.orderID];
    if id == c.id {
      MoveRecordsAnswer(policy, o, c, step.reply, step.now);
    } else if id in s.tables.events && s.tables.events[id].orderID == c.orderID {
      MoveKeepsRecorded(policy, o, c, step.reply, s.tables.events[id], answer);
    }
  }

  lemma QuietStepRecords(s: System, step: Step, s': System, id: string, answer: Reply)
    requires (s'.tables == s.tables || AddsOrder(s, step, s') || LeasesEvent(s, step, s')) && id in s'.tables.events
    requires id in s.tables.events ==> IsRecordedIn(s.tables, id, answer)
    ensures IsRecordedIn(s'.tables, id, answer)
  {
  }

  /** Every delivered event's order says what the gateway answers for that event's operation. */
  lemma {:induction false} AnswersAreRecorded(policy: RetryPolicy, run: seq<Step>, k: nat, truth: string -> Reply,
                                              id: string)
    requires policy.maxAttempts >= 1 && k <= |run| && IsTruthful(run, truth)
    requires id in After(policy, run, k).tables.events
    ensures IsRecordedIn(After(policy, run, k).tables, id, truth(id))
  {
    var s, step, s' := After(policy, run, k - 1), run[k - 1], After(policy, run, k);
    var effect := StepEffect(policy, run, k - 1);
    if id in s.tables.events {
      AnswersAreRecorded(policy, run, k - 1, truth, id);
    }
    if effect.Acts? {
      RowFacts(policy, run, k, id);
      ActorFacts(policy, run, k - 1, id);
      ActionRecords(policy, s, step, s', id, truth(id));
    } else {
      QuietStepRecords(s, step, s', id, truth(id));
    }
  }

  /** The order acted on is filed under its ID, and its other events are of other kinds. */
  lemma ActorFacts(policy: RetryPolicy, run: seq<Step>, k: nat, id: string)
    requires policy.maxAttempts >= 1 && k < |run| && run[k].Deliver? && run[k].copy in After(policy, run, k).claimed
    ensures var t, c := After(policy, run, k).tables, run[k].copy;
            && c.orderID in t.orders && t.orders[c.orderID].id == c.orderID
            && (id in t.events && id != c.id && t.events[id].orderID == c.orderID ==> t.events[id].kind != c.kind)
  {
    InvAlways(policy, run, k);
    CopyFacts(policy, After(policy, run, k), run[k].copy);
  }

  /** The status and margin on record say what the gateway answered for the event, both ways. */
  predicate Agrees(o: Order, e: OutboxEvent, answer: Reply) {
    var delivered := e.state == EventDelivered;
    match e.kind
    case ReserveMargin =>
      && (delivered && answer.Approved? <==> o.margin != MarginNone)
      && (delivered && answer.Declined? <==> o.status == Rejected && o.margin == MarginNone)
      && (delivered && answer.Approved? ==> o.reservationID == answer.reference)
    case RouteExchange =>
      && (delivered && answer.Approved? <==> o.status == Accepted)
      && (delivered && answer.Declined? <==> CompensationBegun(o))
      && (delivered && answer.Approved? ==> o.exchangeOrderID == answer.reference)
    case ReleaseMargin => delivered <==> o.margin == MarginReleased
  }

  lemma RecordedAgrees(o: Order, e: OutboxEvent, answer: Reply)
    requires Fits(o, e) && IsRecorded(o, e, answer)
    ensures Agrees(o, e, answer)
  {
  }

  /** With truthful gateways, reserved margin, rejections, acceptance and compensation are on record
      exactly when the event of that stage is delivered and the gateway's answer was so. */
  lemma StatusAgreesWithGateways(policy: RetryPolicy, run: seq<Step>, k: nat, truth: string -> Reply, id: string)
    requires policy.maxAttempts >= 1 && k <= |run| && IsTruthful(run, truth)
    requires id in After(policy, run, k).tables.events
    ensures var t := After(policy, run, k).tables;
            t.events[id].orderID in t.orders && Agrees(t.orders[t.events[id].orderID], t.events[id], truth(id))
  {
    RowFacts(policy, run, k, id);
    AnswersAreRecorded(policy, run, k, truth, id);
    var t := After(policy, run, k).tables;
    RecordedAgrees(t.orders[t.events[id].orderID], t.events[id], truth(id));
  }

  // ---------------------------------------------------------------- runs can be finished

  /** A claim, or a delivery answered as `answer` says, no earlier than `from`. */
  predicate Serves(step: Step, answer: OutboxEvent -> Reply, from: int) {
    !step.Place? && step.now >= from && (step.Deliver? ==> step.reply == answer(step.copy))
  }

  ghost predicate ServedSince(run: seq<Step>, n: nat, answer: OutboxEvent -> Reply, from: int) {
    forall k | n <= k < |run| :: Serves(run[k], answer, from)
  }

  lemma {:induction false} AfterOfPrefix(policy: RetryPolicy, run: seq<Step>, longer: seq<Step>, k: nat)
    requires run <= longer && k <= |run|
    ensures After(policy, longer, k) == After(policy, run, k)
  {
    if k > 0 {
      AfterOfPrefix(policy, run, longer, k - 1);
    }
  }

  lemma {:induction false} LengthBound(ids: set<string>) returns (n: nat)
    ensures forall id | id in ids :: |id| <= n
    decreases |ids|
  {
    n := 0;
    if ids != {} {
      var id :| id in ids;
      n := LengthBound(ids - {id});
      if |id| > n {
        n := |id|;
      }
    }
  }

  lemma FreshID(s: System) returns (id: string)
    ensures Fresh(s, id)
  {
    var n := LengthBound(s.issued);
    id := seq(n + 1, _ => 'x');
  }

  function Later(a: int, b: int): int {
    if a > b then a else b
  }

  /** An open event can be claimed and acted on. */
  lemma ServeOnce(policy: RetryPolicy, run: seq<Step>, orderID: string, answer: OutboxEvent -> Reply, from: int)
      returns (longer: seq<Step>)
    requires policy.maxAttempts >= 1 && HasOpen(After(policy, run, |run|).tables.events, orderID)
    ensures run <= longer && |longer| == |run| + 2 && ServedSince(longer, |run|, answer, from)
    ensures ActsOn(policy, longer, |run| + 1, orderID)
  {
    var n, s := |run|, After(policy, run, |run|);
    var id := SomeOpen(s.tables.events, orderID);
    RowFacts(policy, run, n, id);
    var e := s.tables.events[id];
    var now := Later(from, Later(e.availableAt, e.leaseUntil));
    var token := FreshID(s);
    var claim := Claim(id, token, now, now + 1);
    var copy := Leased(e, token, now + 1);
    var s' := Exec(policy, s, claim);
    ClaimOne(policy, s, e, claim);
    var next := FreshID(s');
    longer := run + [claim, Deliver(copy, answer(copy), next, now)];
    AfterOfPrefix(policy, run, longer, n);
    assert After(policy, longer, n + 1) == s';
  }

  /** A claim or delivery opens nothing for an order that has nothing open, and adds no order. */
  lemma QuietStays(policy: RetryPolicy, run: seq<Step>, k: nat, orderID: string)
    requires policy.maxAttempts >= 1 && k < |run| && !run[k].Place?
    ensures HasOpen(After(policy, run, k + 1).tables.events, orderID) ==>
            HasOpen(After(policy, run, k).tables.events, orderID)
  {
    var t, t' := After(policy, run, k).tables, After(policy, run, k + 1).tables;
    var effect := StepEffect(policy, run, k);
    if HasOpen(t'.events, orderID) {
      var id := SomeOpen(t'.events, orderID);
      RowFacts(policy, run, k + 1, id);
      OpenEventCameFrom(policy, run, k, orderID, id);
    }
  }

  lemma {:induction false} QuietStaysSince(policy: RetryPolicy, run: seq<Step>, n: nat, k: nat,
                                           answer: OutboxEvent -> Reply, from: int, orderID: string)
    requires policy.maxAttempts >= 1 && n <= k <= |run| && ServedSince(run, n, answer, from)
    requires !HasOpen(After(policy, run, n).tables.events, orderID)
    ensures !HasOpen(After(policy, run, k).tables.events, orderID)
    decreases k
  {
    if n < k {
      QuietStaysSince(policy, run, n, k - 1, answer, from, orderID);
      QuietStays(policy, run, k - 1, orderID);
    }
  }

  lemma ServingLowersBudget(policy: RetryPolicy, run: seq<Step>, longer: seq<Step>, orderID: string)
    requires policy.maxAttempts >= 1 && run <= longer && |longer| == |run| + 2
    requires ActsOn(policy, longer, |run| + 1, orderID)
    ensures 0 <= Budget(policy, After(policy, longer, |longer|).tables, orderID)
                 < Budget(policy, After(policy, run, |run|).tables, orderID)
  {
    AfterOfPrefix(policy, run, longer, |run|);
    ActionsLowerBudget(policy, longer, |run|, orderID);
    ActionsLowerBudget(policy, longer, |run| + 1, orderID);
    BudgetIsNatural(policy, longer, |longer|, orderID);
  }

  /** All that is open for one order can be served. */
  lemma {:induction false} FinishOrder(policy: RetryPolicy, run: seq<Step>, orderID: string,
                                       answer: OutboxEvent -> Reply, from: int)
      returns (longer: seq<Step>)
    requires policy.maxAttempts >= 1
    ensures run <= longer && ServedSince(longer, |run|, answer, from)
    ensures !HasOpen(After(policy, longer, |longer|).tables.events, orderID)
    decreases Budget(policy, After(policy, run, |run|).tables, orderID)
  {
    if HasOpen(After(policy, run, |run|).tables.events, orderID) {
      var served := ServeOnce(policy, run, orderID, answer, from);
      ServingLowersBudget(policy, run, served, orderID);
      longer := FinishOrder(policy, served, orderID, answer, from);
      forall k | |run| <= k < |longer|
        ensures Serves(longer[k], answer, from)
      {
        assert k < |served| ==> longer[k] == served[k];
      }
    } else {
      longer := run;
    }
  }

  lemma {:induction false} FinishOrders(policy: RetryPolicy, run: seq<Step>, todo: set<string>,
                                        answer: OutboxEvent -> Reply, from: int)
      returns (longer: seq<Step>)
    requires policy.maxAttempts >= 1
    requires forall o | HasOpen(After(policy, run, |run|).tables.events, o) :: o in todo
    ensures run <= longer && ServedSince(longer, |run|, answer, from)
    ensures forall o :: !HasOpen(After(policy, longer, |longer|).tables.events, o)
    decreases |todo|
  {
    if todo == {} {
      longer := run;
    } else {
      var orderID :| orderID in todo;
      var part := FinishOrder(policy, run, orderID, answer, from);
      forall o | HasOpen(After(policy, part, |part|).tables.events, o)
        ensures o in todo - {orderID}
      {
        AfterOfPrefix(policy, run, part, |run|);
        if !HasOpen(After(policy, run, |run|).tables.events, o) {
          QuietStaysSince(policy, part, |run|, |part|, answer, from, o);
        }
      }
      longer := FinishOrders(policy, part, todo - {orderID}, answer, from);
      forall k | |run| <= k < |longer|
        ensures Serves(longer[k], answer, from)
      {
        assert k < |part| ==> longer[k] == part[k];
      }
    }
  }

  lemma NothingIsInFlight(events: Events, orderID: string, kind: EventKind)
    requires KeyedByID(events) && !HasOpen(events, orderID)
    ensures PhaseOf(events, orderID, kind) != InFlight
  {
    var e := PhaseWitness(events, orderID, kind);
    assert !IsOpenOf(events, e.id, orderID);
  }

  lemma EventsAreKeyed(policy: RetryPolicy, run: seq<Step>, k: nat)
    requires policy.maxAttempts >= 1 && k <= |run|
    ensures KeyedByID(After(policy, run, k).tables.events)
  {
    InvAlways(policy, run, k);
    var t := After(policy, run, k).tables;
    assert forall id | id in t.events :: RowFits(t.orders, id, t.events[id]);
  }

  /** An order with nothing open has come to one of the three ends. */
  lemma ClosedOrdersAreSettled(policy: RetryPolicy, run: seq<Step>, k: nat, orderID: string)
    requires policy.maxAttempts >= 1 && k <= |run| && orderID in After(policy, run, k).tables.orders
    requires !HasOpen(After(policy, run, k).tables.events, orderID)
    ensures After(policy, run, k).tables.orders[orderID].status in {Accepted, Rejected, ReconciliationRequired}
  {
    HistoryDictatesOrder(policy, run, k, orderID);
    EventsAreKeyed(policy, run, k);
    var events := After(policy, run, k).tables.events;
    NothingIsInFlight(events, orderID, ReserveMargin);
    NothingIsInFlight(events, orderID, RouteExchange);
    NothingIsInFlight(events, orderID, ReleaseMargin);
  }

  /** From any moment of any run, whatever the gateways answer from then on, claims and deliveries
      alone bring every event to its close and every order to an end. */
  lemma RunsCanFinish(policy: RetryPolicy, run: seq<Step>, answer: OutboxEvent -> Reply, from: int)
      returns (longer: seq<Step>)
    requires policy.maxAttempts >= 1
    ensures run <= longer && ServedSince(longer, |run|, answer, from)
    ensures var t := After(policy, longer, |longer|).tables;
            && (forall id | id in t.events :: !Open(t.events[id]))
            && (forall o | o in t.orders :: t.orders[o].status in {Accepted, Rejected, ReconciliationRequired})
  {
    var t := After(policy, run, |run|).tables;
    forall o | HasOpen(t.events, o)
      ensures o in t.orders.Keys
    {
      RowFacts(policy, run, |run|, SomeOpen(t.events, o));
    }
    longer := FinishOrders(policy, run, t.orders.Keys, answer, from);
    var end := After(policy, longer, |longer|).tables;
    forall id | id in end.events
      ensures !Open(end.events[id])
    {
      assert !HasOpen(end.events, end.events[id].orderID);
      assert !IsOpenOf(end.events, id, end.events[id].orderID);
    }
    forall o | o in end.orders
      ensures end.orders[o].status in {Accepted, Rejected, ReconciliationRequired}
    {
      ClosedOrdersAreSettled(policy, longer, |longer|, o);
    }
  }
}
