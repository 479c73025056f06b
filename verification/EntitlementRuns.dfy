/** Runs of webhooks, redeliveries, reconciliations, cache outages and checks, one at a time
    (subscription-core), with the plans fixed. */
module EntitlementRuns {
  import opened Collections
  import opened Histories
  import opened SubscriptionDomain
  import opened Entitlements

  datatype World = World(tables: Tables, cache: Cached)

  datatype Step =
    | Webhook(event: Option<Event>)
    | Reconcile(providerSub: string, truth: Option<Subscription>)
    | SetDown(down: bool)
    | Check(subject: string, feature: string, used: int)

  function Start(plans: map<string, Plan>): World {
    World(Tables(map[], map[], {}, plans), Cached(map[], false))
  }

  function Exec(w: World, s: Step): World {
    match s
    case Webhook(e) => var after := HandleTo(w.tables, w.cache, e); World(after.0, after.1)
    case Reconcile(id, truth) => var after := ReconcileTo(w.tables, w.cache, id, truth); World(after.0, after.1)
    case SetDown(down) => w.(cache := w.cache.(down := down))
    case Check(subject, _, _) => w.(cache := EntitlementTo(w.tables, w.cache, subject).0)
  }

  /** The answer to a check. */
  function Answer(w: World, subject: string, feature: string, used: int): Option<Decision> {
    DecideOn(EntitlementTo(w.tables, w.cache, subject).1, feature, used)
  }

  ghost predicate IsHistory(h: History<Step, World>, plans: map<string, Plan>) {
    Follows(h, Start(plans), Exec)
  }

  // ---------------------------------------------------------------- the cache agrees with the store

  predicate SubjectFits(w: World, subject: string) {
    subject in w.cache.data ==> Derived(w.tables, subject) == Some(w.cache.data[subject])
  }

  lemma StepKeepsSubject(w: World, s: Step, subject: string)
    requires SubjectFits(w, subject)
    ensures SubjectFits(Exec(w, s), subject)
  {
  }

  /** Every cached entitlement is the one derived from the store. */
  lemma {:induction false} CacheAgrees(h: History<Step, World>, plans: map<string, Plan>, k: nat, subject: string)
    requires IsHistory(h, plans) && k <= |h.steps|
    ensures SubjectFits(h.worlds[k], subject)
  {
    if k > 0 {
      CacheAgrees(h, plans, k - 1, subject);
      NextWorld(h, Start(plans), Exec, k - 1);
      StepKeepsSubject(h.worlds[k - 1], h.steps[k - 1], subject);
    }
  }

  /** So a check answers the same with the cache as it is, in an outage, and cold: as the store
      alone would. */
  lemma ChecksIgnoreCache(h: History<Step, World>, plans: map<string, Plan>, k: nat, subject: string, feature: string,
                          used: int, down: bool)
    requires IsHistory(h, plans) && k <= |h.steps|
    ensures var w := h.worlds[k];
            var answer := DecideOn(Derived(w.tables, subject), feature, used);
            && Answer(w, subject, feature, used) == answer
            && Answer(w.(cache := w.cache.(down := down)), subject, feature, used) == answer
            && Answer(w.(cache := Cached(map[], down)), subject, feature, used) == answer
  {
    CacheAgrees(h, plans, k, subject);
  }

  lemma {:induction false} PlansStay(h: History<Step, World>, plans: map<string, Plan>, k: nat)
    requires IsHistory(h, plans) && k <= |h.steps|
    ensures h.worlds[k].tables.plans == plans
  {
    if k > 0 {
      PlansStay(h, plans, k - 1);
      NextWorld(h, Start(plans), Exec, k - 1);
    }
  }

  /** A subject is entitled to what its row's plan says, with the larger number of seats, and the
      entitlement is active while the status is active, trialing or past due. */
  lemma EntitlementIsPlan(h: History<Step, World>, plans: map<string, Plan>, k: nat, subject: string)
    requires IsHistory(h, plans) && k <= |h.steps|
    ensures var w := h.worlds[k];
            EntitlementTo(w.tables, w.cache, subject).1 ==
              if subject !in w.tables.bySubject || w.tables.bySubject[subject].plan !in plans then None
              else
                var row := w.tables.bySubject[subject];
                var plan := plans[row.plan];
                Some(Entitlement(row.id, plan.tier, plan.features,
                                 if row.seats > plan.seatIncluded then row.seats else plan.seatIncluded,
                                 row.status in {Active, Trialing, PastDue}))
  {
    CacheAgrees(h, plans, k, subject);
    PlansStay(h, plans, k);
  }

  /** A check allows exactly when the subject has a row on a known plan, in good standing or in
      grace, with the feature on and no cap or usage below it.  Otherwise it says why not. */
  lemma CheckAllowsIff(h: History<Step, World>, plans: map<string, Plan>, k: nat, subject: string, feature: string,
                       used: int)
    requires IsHistory(h, plans) && k <= |h.steps|
    ensures var w := h.worlds[k];
            Answer(w, subject, feature, used) ==
              if subject !in w.tables.bySubject || w.tables.bySubject[subject].plan !in plans then None
              else
                var row := w.tables.bySubject[subject];
                var features := plans[row.plan].features;
                Some(
                  if row.status !in {Active, Trialing, PastDue} then Decision(false, NotActive, 0)
                  else if feature !in features then Decision(false, UnknownFeature, 0)
                  else if features[feature] == 0 then Decision(false, FeatureOff, 0)
                  else if 0 < features[feature] <= used then Decision(false, QuotaExceeded, features[feature])
                  else Decision(true, Allowed, features[feature]))
  {
    EntitlementIsPlan(h, plans, k, subject);
  }

  // ---------------------------------------------------------------- events

  lemma {:induction false} EventsAreKept(h: History<Step, World>, plans: map<string, Plan>, p: nat, q: nat, id: string)
    requires IsHistory(h, plans) && p <= q <= |h.steps| && id in h.worlds[p].tables.events
    ensures id in h.worlds[q].tables.events
    decreases q
  {
    if p < q {
      EventsAreKept(h, plans, p, q - 1, id);
      NextWorld(h, Start(plans), Exec, q - 1);
    }
  }

  /** An event is applied at most once: any later delivery with its ID changes nothing. */
  lemma RedeliveryChangesNothing(h: History<Step, World>, plans: map<string, Plan>, p: nat, q: nat, first: Event,
                                 again: Event)
    requires IsHistory(h, plans) && p < q < |h.steps|
    requires h.steps[p] == Webhook(Some(first)) && h.steps[q] == Webhook(Some(again)) && first.id == again.id
    ensures h.worlds[q + 1] == h.worlds[q]
    ensures HandleTo(h.worlds[q].tables, h.worlds[q].cache, Some(again)).2 == Duplicate
  {
    NextWorld(h, Start(plans), Exec, p);
    NextWorld(h, Start(plans), Exec, q);
    EventsAreKept(h, plans, p + 1, q, first.id);
  }

  /** The status an event asks for. */
  function Wanted(e: Event): Status {
    match e.kind
    case CanceledEvent => Canceled
    case PaymentFailed => PastDue
    case PaymentSucceeded => Active
    case Created => if e.subscription.status == OtherStatus("") then Active else e.subscription.status
    case Updated => if e.subscription.status == OtherStatus("") then Active else e.subscription.status
    case OtherType(_) => e.subscription.status
  }

  const MOVES: set<(Status, Status)> := {
    (Trialing, Active), (Trialing, PastDue), (Trialing, Canceled), (Trialing, Paused),
    (Active, PastDue), (Active, Canceled), (Active, Paused),
    (PastDue, Active), (PastDue, Canceled),
    (Paused, Active), (Paused, Canceled)}

  /** The rows after an event: one delivered before changes nothing; the first of a subscription is
      stored as it came, in the status it asks for; a later one takes over plan, seats, end of period,
      cancellation and time if it is not older than the row and its status is the row's or a legal
      move from it, and the row keeps its own ID, customer, start and trial. */
  lemma EventWritesRow(h: History<Step, World>, plans: map<string, Plan>, k: nat, e: Event)
    requires IsHistory(h, plans) && k < |h.steps| && h.steps[k] == Webhook(Some(e))
    ensures var t, t', s, to := h.worlds[k].tables, h.worlds[k + 1].tables, e.subscription, Wanted(e);
            t'.byProvider ==
              if e.id in t.events then t.byProvider
              else if s.providerSub !in t.byProvider then t.byProvider[s.providerSub := s.(status := to)]
              else
                var row := t.byProvider[s.providerSub];
                if row.updatedAt <= s.updatedAt && (row.status == to || (row.status, to) in MOVES) then
                  t.byProvider[s.providerSub := Subscription(
                    row.id, row.customer, s.providerSub, s.plan, to, s.seats,
                    row.periodStart, s.periodEnd, s.cancelAtPeriodEnd, row.trialEnd, s.updatedAt)]
                else t.byProvider
    ensures h.worlds[k + 1].tables.events == h.worlds[k].tables.events + {e.id}
  {
    RowsAlwaysFit(h, plans, k);
    NextWorld(h, Start(plans), Exec, k);
    var t := h.worlds[k].tables;
    assert RowFits(t, e.subscription.providerSub);
    if e.subscription.providerSub in t.byProvider {
      MovesAreLegal(t.byProvider[e.subscription.providerSub].status, Wanted(e));
    }
  }

  lemma MovesAreLegal(from: Status, to: Status)
    ensures to in Targets(from) <==> (from, to) in MOVES
  {
  }

  /** A processed event takes hold: its row agrees with the provider's snapshot at the event's
      status, keeps its customer, is what answers for that customer, and nothing older is cached. */
  lemma ProcessedEventTakesHold(t: Tables, c: Cached, e: Event)
    requires RowsFit(t) && HandleTo(t, c, Some(e)).2 == Processed
    ensures var (t', c', _) := HandleTo(t, c, Some(e));
            var id := e.subscription.providerSub;
            && id in t'.byProvider && !Drifted(t'.byProvider[id], e.subscription.(status := TargetStatus(e)))
            && t'.byProvider[id].updatedAt == e.subscription.updatedAt
            && t'.byProvider[id].periodEnd == e.subscription.periodEnd
            && t'.byProvider[id].customer == (if id in t.byProvider then t.byProvider[id] else e.subscription).customer
            && t'.byProvider[id].customer in t'.bySubject
            && t'.bySubject[t'.byProvider[id].customer] == t'.byProvider[id]
            && t'.byProvider[id].customer !in c'.data && e.id in t'.events
  {
    assert RowFits(t, e.subscription.providerSub);
  }

  // ---------------------------------------------------------------- watermarks and statuses

  /** An answer about another subscription than the one asked for, older than that one's row, is
      written. */
  predicate OverwritesUnasked(t: Tables, s: Step, id: string) {
    && s.Reconcile? && s.truth.Some? && s.providerSub != id && s.truth.value.providerSub == id
    && id in t.byProvider && s.truth.value.updatedAt < t.byProvider[id].updatedAt
    && Accepts(t.byProvider, s.providerSub, s.truth.value)
  }

  predicate WatermarkKept(before: Tables, after: Tables, id: string) {
    id in before.byProvider ==>
      id in after.byProvider && before.byProvider[id].updatedAt <= after.byProvider[id].updatedAt
  }

  predicate RowFits(t: Tables, id: string) {
    id in t.byProvider ==> t.byProvider[id].providerSub == id
  }

  /** Rows are filed under their own provider ID. */
  ghost predicate RowsFit(t: Tables) {
    forall id :: RowFits(t, id)
  }

  lemma UpsertKeepsRows(t: Tables, s: Subscription)
    requires RowsFit(t)
    ensures RowsFit(Upserted(t, s))
  {
    forall id
      ensures RowFits(Upserted(t, s), id)
    {
      assert RowFits(t, id);
    }
  }

  lemma SameRowsFit(t: Tables, t': Tables)
    requires RowsFit(t) && t'.byProvider == t.byProvider
    ensures RowsFit(t')
  {
    forall id
      ensures RowFits(t', id)
    {
      assert RowFits(t, id);
    }
  }

  /** A step changes the rows by at most one write: of a new subscription, or over a row with an
      older or equal watermark, legally by an event or as the provider answered. */
  datatype Write = Nothing | Writes(row: Subscription, byEvent: bool)

  function WriteOf(w: World, s: Step): Write {
    match s
    case Webhook(e) =>
      if e.None? || e.value.id in w.tables.events then Nothing
      else
        var row := EventRow(w.tables.byProvider, e.value);
        if row.None? then Nothing else Writes(row.value, true)
    case Reconcile(id, truth) =>
      if truth.None? || !Accepts(w.tables.byProvider, id, truth.value) then Nothing else Writes(truth.value, false)
    case SetDown(_) => Nothing
    case Check(_, _, _) => Nothing
  }

  lemma StepWrites(w: World, s: Step)
    ensures var t, t' := w.tables, Exec(w, s).tables;
            match WriteOf(w, s)
            case Nothing => t'.byProvider == t.byProvider && t'.bySubject == t.bySubject
            case Writes(row, _) =>
              && t'.byProvider == t.byProvider[row.providerSub := row]
              && t'.bySubject == t.bySubject[row.customer := row]
  {
  }

  lemma {:induction false} RowsAlwaysFit(h: History<Step, World>, plans: map<string, Plan>, k: nat)
    requires IsHistory(h, plans) && k <= |h.steps|
    ensures RowsFit(h.worlds[k].tables)
  {
    if k > 0 {
      RowsAlwaysFit(h, plans, k - 1);
      NextWorld(h, Start(plans), Exec, k - 1);
      var w, s := h.worlds[k - 1], h.steps[k - 1];
      StepWrites(w, s);
      match WriteOf(w, s)
      case Nothing => SameRowsFit(w.tables, h.worlds[k].tables);
      case Writes(row, _) =>
        UpsertKeepsRows(w.tables, row);
        SameRowsFit(Upserted(w.tables, row), h.worlds[k].tables);
    }
  }

  /** A step lowers a subscription's watermark exactly when it is such an answer. */
  lemma StepLowersWatermarkIff(w: World, s: Step, id: string)
    requires RowsFit(w.tables)
    ensures !WatermarkKept(w.tables, Exec(w, s).tables, id) <==> OverwritesUnasked(w.tables, s, id)
  {
    StepWrites(w, s);
    if s.Webhook? && s.event.Some? {
      assert RowFits(w.tables, s.event.value.subscription.providerSub);
    }
  }

  /** In whatever order events and answers arrive, a subscription's watermark never falls while no
      answer overwrites it unasked. */
  lemma {:induction false} WatermarksNeverFall(h: History<Step, World>, plans: map<string, Plan>, p: nat, q: nat,
                                               id: string)
    requires IsHistory(h, plans) && p <= q <= |h.steps|
    requires forall k | p <= k < q :: !OverwritesUnasked(h.worlds[k].tables, h.steps[k], id)
    ensures WatermarkKept(h.worlds[p].tables, h.worlds[q].tables, id)
    decreases q
  {
    if p < q {
      WatermarksNeverFall(h, plans, p, q - 1, id);
      RowsAlwaysFit(h, plans, q - 1);
      NextWorld(h, Start(plans), Exec, q - 1);
      StepLowersWatermarkIff(h.worlds[q - 1], h.steps[q - 1], id);
    }
  }

  /** Over a whole history: no step ever lowers the watermark exactly when none is such an
      answer. */
  lemma WatermarksNeverFallIff(h: History<Step, World>, plans: map<string, Plan>, id: string)
    requires IsHistory(h, plans)
    ensures (forall p, q | 0 <= p <= q <= |h.steps| :: WatermarkKept(h.worlds[p].tables, h.worlds[q].tables, id))
            <==> (forall k | 0 <= k < |h.steps| :: !OverwritesUnasked(h.worlds[k].tables, h.steps[k], id))
  {
    if forall k | 0 <= k < |h.steps| :: !OverwritesUnasked(h.worlds[k].tables, h.steps[k], id) {
      forall p, q | 0 <= p <= q <= |h.steps|
        ensures WatermarkKept(h.worlds[p].tables, h.worlds[q].tables, id)
      {
        WatermarksNeverFall(h, plans, p, q, id);
      }
    } else {
      var k :| 0 <= k < |h.steps| && OverwritesUnasked(h.worlds[k].tables, h.steps[k], id);
      RowsAlwaysFit(h, plans, k);
      NextWorld(h, Start(plans), Exec, k);
      StepLowersWatermarkIff(h.worlds[k], h.steps[k], id);
      assert !WatermarkKept(h.worlds[k].tables, h.worlds[k + 1].tables, id);
    }
  }

  /** Asked about a subscription it has never seen, the reconciler writes an old answer about
      another one. */
  lemma UnaskedAnswerExample(plans: map<string, Plan>) returns (h: History<Step, World>)
    ensures IsHistory(h, plans) && |h.steps| == 2 && OverwritesUnasked(h.worlds[1].tables, h.steps[1], "p")
    ensures "p" in h.worlds[1].tables.byProvider && "p" in h.worlds[2].tables.byProvider
    ensures h.worlds[2].tables.byProvider["p"].updatedAt == 0 < h.worlds[1].tables.byProvider["p"].updatedAt
  {
    var row := Subscription("s", "c", "p", "gold", Active, 1, 0, 0, false, 0, 7);
    var steps := [Reconcile("p", Some(row)), Reconcile("other", Some(row.(updatedAt := 0)))];
    h := StepsHaveHistory(steps, Start(plans), Exec);
    NextWorld(h, Start(plans), Exec, 0);
    NextWorld(h, Start(plans), Exec, 1);
  }

  predicate IsCanceled(t: Tables, id: string) {
    id in t.byProvider && t.byProvider[id].status == Canceled
  }

  /** The provider's answer, asked for or not, says the subscription is not canceled, and is
      written. */
  predicate Revives(t: Tables, s: Step, id: string) {
    && s.Reconcile? && s.truth.Some? && s.truth.value.providerSub == id && s.truth.value.status != Canceled
    && Accepts(t.byProvider, s.providerSub, s.truth.value)
  }

  /** A step brings a canceled subscription back exactly when it is such an answer; no event does. */
  lemma StepRevivesIff(w: World, s: Step, id: string)
    requires IsCanceled(w.tables, id) && RowsFit(w.tables)
    ensures !IsCanceled(Exec(w, s).tables, id) <==> Revives(w.tables, s, id)
  {
    StepWrites(w, s);
    if s.Webhook? && s.event.Some? {
      assert RowFits(w.tables, s.event.value.subscription.providerSub);
    }
  }

  ghost predicate RevivesAt(h: History<Step, World>, k: nat, id: string)
    requires k < |h.steps| && k < |h.worlds|
  {
    IsCanceled(h.worlds[k].tables, id) && Revives(h.worlds[k].tables, h.steps[k], id)
  }

  lemma {:induction false} CanceledStays(h: History<Step, World>, plans: map<string, Plan>, p: nat, q: nat, id: string)
    requires IsHistory(h, plans) && p <= q <= |h.steps| && IsCanceled(h.worlds[p].tables, id)
    requires forall k: nat | p <= k < q :: !RevivesAt(h, k, id)
    ensures IsCanceled(h.worlds[q].tables, id)
    decreases q
  {
    if p < q {
      CanceledStays(h, plans, p, q - 1, id);
      RowsAlwaysFit(h, plans, q - 1);
      NextWorld(h, Start(plans), Exec, q - 1);
      assert !RevivesAt(h, q - 1, id);
      StepRevivesIff(h.worlds[q - 1], h.steps[q - 1], id);
    }
  }

  /** Over a whole history: a canceled subscription stays canceled exactly when no answer of the
      provider brings it back. */
  lemma CanceledIsFinalIff(h: History<Step, World>, plans: map<string, Plan>, id: string)
    requires IsHistory(h, plans)
    ensures (forall p, q | 0 <= p <= q <= |h.steps| ::
               IsCanceled(h.worlds[p].tables, id) ==> IsCanceled(h.worlds[q].tables, id))
            <==> (forall k: nat | k < |h.steps| :: !RevivesAt(h, k, id))
  {
    if forall k: nat | k < |h.steps| :: !RevivesAt(h, k, id) {
      forall p, q | 0 <= p <= q <= |h.steps| && IsCanceled(h.worlds[p].tables, id)
        ensures IsCanceled(h.worlds[q].tables, id)
      {
        CanceledStays(h, plans, p, q, id);
      }
    } else {
      var k: nat :| k < |h.steps| && RevivesAt(h, k, id);
      RowsAlwaysFit(h, plans, k);
      NextWorld(h, Start(plans), Exec, k);
      StepRevivesIff(h.worlds[k], h.steps[k], id);
      assert IsCanceled(h.worlds[k].tables, id) && !IsCanceled(h.worlds[k + 1].tables, id);
    }
  }

  // ---------------------------------------------------------------- reconciliation

  predicate SameTerms(a: Subscription, b: Subscription) {
    a.status == b.status && a.plan == b.plan && a.seats == b.seats && a.cancelAtPeriodEnd == b.cancelAtPeriodEnd
  }

  /** Reconciling writes the answer exactly when it is accepted, and then the row asked for agrees
      with the answer if the answer is about it.  Doing it again changes nothing: an answer about
      the row asked for is then in sync or still older, one about another is written again. */
  lemma ReconcileConverges(t: Tables, c: Cached, id: string, truth: Subscription)
    ensures var (t', c', o) := ReconcileTo(t, c, id, Some(truth));
            && (o == StaleSkip <==> id in t.byProvider && truth.updatedAt < t.byProvider[id].updatedAt)
            && (o in {Adopted, Repaired} <==> Accepts(t.byProvider, id, truth))
            && (o == InSync <==>
                  && id in t.byProvider && t.byProvider[id].updatedAt <= truth.updatedAt
                  && SameTerms(t.byProvider[id], truth))
            && (Accepts(t.byProvider, id, truth) ==>
                  && truth.providerSub in t'.byProvider && t'.byProvider[truth.providerSub] == truth
                  && truth.customer !in c'.data)
            && (truth.providerSub == id && o != StaleSkip ==>
                  id in t'.byProvider && SameTerms(t'.byProvider[id], truth))
            && ReconcileTo(t', c', id, Some(truth))
                 == (t', c', if truth.providerSub == id && o != StaleSkip then InSync else o)
  {
    var (t', c', o) := ReconcileTo(t, c, id, Some(truth));
    if Accepts(t.byProvider, id, truth) {
      assert Upserted(t', truth) == t' by {
        assert t'.byProvider[truth.providerSub := truth] == t'.byProvider;
        assert t'.bySubject[truth.customer := truth] == t'.bySubject;
      }
      assert Busted(c', truth.customer) == c' by {
        assert c'.data - {truth.customer} == c'.data;
      }
    }
  }

  // ---------------------------------------------------------------- the two indexes

  predicate SubjectAgrees(t: Tables, subject: string) {
    subject in t.bySubject ==>
      var s := t.bySubject[subject];
      s.customer == subject && s.providerSub in t.byProvider && t.byProvider[s.providerSub] == s
  }

  /** A write that gives a subscription to another customer while the old one's row is still the
      one that answers for them. */
  predicate MovesCustomer(t: Tables, s: Subscription) {
    s.providerSub in t.byProvider &&
    var former := t.byProvider[s.providerSub].customer;
    former != s.customer && former in t.bySubject && t.bySubject[former].providerSub == s.providerSub
  }

  ghost predicate IndexesAgree(t: Tables) {
    forall subject :: SubjectAgrees(t, subject)
  }

  /** A write keeps every subject's row current exactly when it moves no customer. */
  lemma UpsertKeepsIndexesIff(t: Tables, s: Subscription)
    requires IndexesAgree(t)
    ensures IndexesAgree(Upserted(t, s)) <==> !MovesCustomer(t, s)
  {
    var t' := Upserted(t, s);
    if MovesCustomer(t, s) {
      assert !SubjectAgrees(t', t.byProvider[s.providerSub].customer);
    } else {
      forall subject
        ensures SubjectAgrees(t', subject)
      {
        assert SubjectAgrees(t, subject);
      }
    }
  }

  /** The row that the step writes moves a customer. */
  predicate StepMovesCustomer(w: World, s: Step) {
    match WriteOf(w, s)
    case Nothing => false
    case Writes(row, _) => MovesCustomer(w.tables, row)
  }

  lemma SameIndexesAgree(t: Tables, t': Tables)
    requires IndexesAgree(t) && t'.byProvider == t.byProvider && t'.bySubject == t.bySubject
    ensures IndexesAgree(t')
  {
    forall subject
      ensures SubjectAgrees(t', subject)
    {
      assert SubjectAgrees(t, subject);
    }
  }

  lemma StepKeepsIndexesIff(w: World, s: Step)
    requires IndexesAgree(w.tables)
    ensures IndexesAgree(Exec(w, s).tables) <==> !StepMovesCustomer(w, s)
  {
    StepWrites(w, s);
    match WriteOf(w, s)
    case Nothing => SameIndexesAgree(w.tables, Exec(w, s).tables);
    case Writes(row, _) =>
      UpsertKeepsIndexesIff(w.tables, row);
      if StepMovesCustomer(w, s) {
        if IndexesAgree(Exec(w, s).tables) {
          SameIndexesAgree(Exec(w, s).tables, Upserted(w.tables, row));
        }
      } else {
        SameIndexesAgree(Upserted(w.tables, row), Exec(w, s).tables);
      }
  }

  /** An event never moves a customer: it is written under the customer of the row. */
  lemma EventsMoveNobody(w: World, e: Option<Event>)
    requires RowsFit(w.tables)
    ensures !StepMovesCustomer(w, Webhook(e))
  {
    if e.Some? {
      assert RowFits(w.tables, e.value.subscription.providerSub);
    }
  }

  ghost predicate MovesAt(h: History<Step, World>, k: nat)
    requires k < |h.steps| && k < |h.worlds|
  {
    StepMovesCustomer(h.worlds[k], h.steps[k])
  }

  lemma {:induction false} IndexesStayAgreed(h: History<Step, World>, plans: map<string, Plan>, k: nat)
    requires IsHistory(h, plans) && k <= |h.steps|
    requires forall j: nat | j < k :: !MovesAt(h, j)
    ensures IndexesAgree(h.worlds[k].tables)
  {
    if k > 0 {
      IndexesStayAgreed(h, plans, k - 1);
      NextWorld(h, Start(plans), Exec, k - 1);
      assert !MovesAt(h, k - 1);
      StepKeepsIndexesIff(h.worlds[k - 1], h.steps[k - 1]);
    }
  }

  /** The row that answers for a subject is at every moment the current row of its subscription
      exactly when no written answer moves a customer.  Only the provider's answers can. */
  lemma IndexesAlwaysAgreeIff(h: History<Step, World>, plans: map<string, Plan>)
    requires IsHistory(h, plans)
    ensures (forall k: nat | k <= |h.steps| :: IndexesAgree(h.worlds[k].tables))
            <==> (forall k: nat | k < |h.steps| :: !MovesAt(h, k))
    ensures forall k: nat | k < |h.steps| && MovesAt(h, k) :: h.steps[k].Reconcile?
  {
    forall k: nat | k < |h.steps| && MovesAt(h, k)
      ensures h.steps[k].Reconcile?
    {
      RowsAlwaysFit(h, plans, k);
      if h.steps[k].Webhook? {
        EventsMoveNobody(h.worlds[k], h.steps[k].event);
      }
    }
    if forall k: nat | k < |h.steps| :: !MovesAt(h, k) {
      forall k: nat | k <= |h.steps|
        ensures IndexesAgree(h.worlds[k].tables)
      {
        IndexesStayAgreed(h, plans, k);
      }
    } else {
      var k: nat :| k < |h.steps| && MovesAt(h, k);
      NextWorld(h, Start(plans), Exec, k);
      if IndexesAgree(h.worlds[k].tables) {
        StepKeepsIndexesIff(h.worlds[k], h.steps[k]);
      }
    }
  }

  /** When the provider moves a subscription to another customer and cancels it, the former
      customer keeps the access. */
  lemma FormerCustomerKeepsAccess() returns (h: History<Step, World>, plans: map<string, Plan>)
    ensures IsHistory(h, plans) && |h.steps| == 2 && MovesAt(h, 1)
    ensures var t := h.worlds[2].tables;
            && "p" in t.byProvider && t.byProvider["p"].status == Canceled && t.byProvider["p"].customer == "d"
            && Derived(t, "c").Some? && Derived(t, "c").value.active
  {
    var s := Subscription("s", "c", "p", "gold", Active, 1, 0, 0, false, 0, 0);
    var steps := [Reconcile("p", Some(s)), Reconcile("p", Some(s.(customer := "d", status := Canceled)))];
    plans := map["gold" := Plan("gold", map[], 1)];
    h := StepsHaveHistory(steps, Start(plans), Exec);
    NextWorld(h, Start(plans), Exec, 0);
    NextWorld(h, Start(plans), Exec, 1);
  }
}
