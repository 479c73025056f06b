/** The subscription core at work (subscription-core: store/memory, cache, entitlements, webhook,
    reconcile): a source of truth, a cache beside it, and the services that read and write both. */
module Entitlements {
  import opened Collections
  import opened SubscriptionDomain
  import UsageKeys
  import UsageFlush

  // ---------------------------------------------------------------- what each operation does

  datatype Tables = Tables(
    byProvider: map<string, Subscription>, bySubject: map<string, Subscription>, events: set<string>,
    plans: map<string, Plan>)

  datatype Cached = Cached(data: map<string, Entitlement>, down: bool)

  function Upserted(t: Tables, s: Subscription): Tables {
    t.(byProvider := t.byProvider[s.providerSub := s], bySubject := t.bySubject[s.customer := s])
  }

  function Busted(c: Cached, subject: string): Cached {
    c.(data := c.data - {subject})
  }

  function Filled(c: Cached, subject: string, e: Entitlement): Cached {
    if c.down then c else c.(data := c.data[subject := e])
  }

  function Lookup(c: Cached, subject: string): Option<Entitlement> {
    if c.down || subject !in c.data then None else Some(c.data[subject])
  }

  /** The entitlement according to the source of truth; none when subscription or plan is missing. */
  function Derived(t: Tables, subject: string): Option<Entitlement> {
    if subject !in t.bySubject then None
    else
      var s := t.bySubject[subject];
      if s.plan !in t.plans then None else Some(DeriveEntitlement(s, t.plans[s.plan]))
  }

  function EntitlementTo(t: Tables, c: Cached, subject: string): (Cached, Option<Entitlement>) {
    var hit := Lookup(c, subject);
    if hit.Some? then (c, hit)
    else
      var e := Derived(t, subject);
      (if e.Some? then Filled(c, subject, e.value) else c, e)
  }

  function DecideOn(e: Option<Entitlement>, feature: string, used: int): Option<Decision> {
    match e
    case None => None
    case Some(value) => Some(Decide(value, feature, used))
  }

  datatype Result = Processed | Duplicate | Stale | Illegal | Rejected

  function Merged(updated: Subscription, s: Subscription): Subscription {
    updated.(plan := s.plan, seats := s.seats, periodEnd := s.periodEnd,
             cancelAtPeriodEnd := s.cancelAtPeriodEnd, updatedAt := s.updatedAt)
  }

  /** What a verified event does once it is known to be new. */
  function ApplyEvent(t: Tables, c: Cached, e: Event): (Tables, Cached, Result) {
    var s := e.subscription;
    if s.providerSub !in t.byProvider then
      var created := s.(status := TargetStatus(e));
      (Upserted(t, created), Busted(c, created.customer), Processed)
    else
      var existing := t.byProvider[s.providerSub];
      if s.updatedAt < existing.updatedAt then (t, c, Stale)
      else
        match ApplyTransition(existing, TargetStatus(e))
        case None => (t, c, Illegal)
        case Some(moved) =>
          var updated := Merged(moved, s);
          (Upserted(t, updated), Busted(c, updated.customer), Processed)
  }

  /** `e` is what verification made of the payload, if it accepted it. */
  function HandleTo(t: Tables, c: Cached, e: Option<Event>): (Tables, Cached, Result) {
    match e
    case None => (t, c, Rejected)
    case Some(evt) =>
      if evt.id in t.events then (t, c, Duplicate)
      else ApplyEvent(t.(events := t.events + {evt.id}), c, evt)
  }

  datatype Outcome = InSync | Repaired | Adopted | StaleSkip | FetchFailed

  predicate Drifted(local: Subscription, truth: Subscription) {
    || local.status != truth.status
    || local.plan != truth.plan
    || local.seats != truth.seats
    || local.cancelAtPeriodEnd != truth.cancelAtPeriodEnd
  }

  /** `truth` is the provider's answer, if it gave one. */
  function ReconcileTo(t: Tables, c: Cached, providerSub: string, truth: Option<Subscription>)
    : (Tables, Cached, Outcome)
  {
    match truth
    case None => (t, c, FetchFailed)
    case Some(s) =>
      if providerSub !in t.byProvider then (Upserted(t, s), Busted(c, s.customer), Adopted)
      else
        var local := t.byProvider[providerSub];
        if s.updatedAt < local.updatedAt then (t, c, StaleSkip)
        else if !Drifted(local, s) then (t, c, InSync)
        else (Upserted(t, s), Busted(c, s.customer), Repaired)
  }

  type Rows = map<string, Subscription>

  /** The row that a new event writes, if it is neither stale nor an illegal transition. */
  function EventRow(rows: Rows, e: Event): Option<Subscription> {
    var s, to := e.subscription, TargetStatus(e);
    if s.providerSub !in rows then Some(s.(status := to))
    else
      var existing := rows[s.providerSub];
      if s.updatedAt < existing.updatedAt || !CanTransition(existing.status, to) then None
      else Some(Merged(existing.(status := to), s))
  }

  /** The reconciler writes an answer when the row that was asked for is missing, or drifted and no
      newer. */
  predicate Accepts(rows: Rows, asked: string, truth: Subscription) {
    asked in rows ==> rows[asked].updatedAt <= truth.updatedAt && Drifted(rows[asked], truth)
  }

  // ---------------------------------------------------------------- store and cache

  class MemoryStore {
    var byProvider: map<string, Subscription>
    var bySubject: map<string, Subscription>
    var events: set<string>
    var plans: map<string, Plan>

    ghost function View(): Tables
      reads this
    {
      Tables(byProvider, bySubject, events, plans)
    }

    constructor ()
      ensures View() == Tables(map[], map[], {}, map[])
    {
      byProvider, bySubject, events, plans := map[], map[], {}, map[];
    }

    method SeedPlan(id: string, p: Plan)
      modifies this
      ensures View() == old(View()).(plans := old(plans)[id := p])
    {
      plans := plans[id := p];
    }

    method GetByProvider(id: string) returns (s: Option<Subscription>)
      ensures s == if id in byProvider then Some(byProvider[id]) else None
    {
      s := if id in byProvider then Some(byProvider[id]) else None;
    }

    method GetBySubject(subject: string) returns (s: Option<Subscription>)
      ensures s == if subject in bySubject then Some(bySubject[subject]) else None
    {
      s := if subject in bySubject then Some(bySubject[subject]) else None;
    }

    method GetPlan(id: string) returns (p: Option<Plan>)
      ensures p == if id in plans then Some(plans[id]) else None
    {
      p := if id in plans then Some(plans[id]) else None;
    }

    method Upsert(s: Subscription)
      modifies this
      ensures View() == Upserted(old(View()), s)
    {
      byProvider := byProvider[s.providerSub := s];
      bySubject := bySubject[s.customer := s];
    }

    method MarkProcessed(id: string) returns (first: bool)
      modifies this
      ensures first == (id !in old(events))
      ensures View() == old(View()).(events := old(events) + {id})
    {
      first := id !in events;
      events := events + {id};
    }
  }

  class MemoryCache {
    var data: map<string, Entitlement>
    var down: bool

    ghost function View(): Cached
      reads this
    {
      Cached(data, down)
    }

    constructor ()
      ensures View() == Cached(map[], false)
    {
      data, down := map[], false;
    }

    method SetDown(down: bool)
      modifies this
      ensures View() == old(View()).(down := down)
    {
      this.down := down;
    }

    method Get(subject: string) returns (e: Option<Entitlement>)
      ensures e == Lookup(View(), subject)
    {
      if down || subject !in data {
        return None;
      }
      e := Some(data[subject]);
    }

    method Set(subject: string, e: Entitlement)
      modifies this
      ensures View() == Filled(old(View()), subject, e)
    {
      if !down {
        data := data[subject := e];
      }
    }

    /** Works during an outage too. */
    method Bust(subject: string)
      modifies this
      ensures View() == Busted(old(View()), subject)
    {
      data := data - {subject};
    }
  }

  // ---------------------------------------------------------------- the services

  class Service {
    const store: MemoryStore
    const cache: MemoryCache
    const meter: UsageFlush.Meter

    constructor (store: MemoryStore, cache: MemoryCache, meter: UsageFlush.Meter)
      ensures this.store == store && this.cache == cache && this.meter == meter
    {
      this.store, this.cache, this.meter := store, cache, meter;
    }

    method Derive(subject: string) returns (e: Option<Entitlement>)
      ensures e == Derived(store.View(), subject)
    {
      var s := store.GetBySubject(subject);
      if s.None? {
        return None;
      }
      var p := store.GetPlan(s.value.plan);
      if p.None? {
        return None;
      }
      e := Some(DeriveEntitlement(s.value, p.value));
    }

    method Entitlement(subject: string) returns (e: Option<Entitlement>)
      modifies cache
      ensures (cache.View(), e) == EntitlementTo(store.View(), old(cache.View()), subject)
    {
      e := cache.Get(subject);
      if e.Some? {
        return;
      }
      e := Derive(subject);
      if e.Some? {
        cache.Set(subject, e.value);
      }
    }

    method Check(subject: string, feature: string, period: string) returns (d: Option<Decision>)
      modifies cache
      ensures var used := UsageFlush.At(meter.counter.data, UsageKeys.Key(UsageKeys.Usage(subject, feature, period)));
              var after := EntitlementTo(store.View(), old(cache.View()), subject);
              cache.View() == after.0 && d == DecideOn(after.1, feature, used)
    {
      var e := Entitlement(subject);
      if e.None? {
        return None;
      }
      var base := Evaluate(e.value, feature);
      if !base.allow || base.limit < 0 {
        return Some(base);
      }
      var used := meter.Used(subject, feature, period);
      if used >= base.limit {
        return Some(Decision(false, QuotaExceeded, base.limit));
      }
      d := Some(base);
    }
  }

  class Processor {
    const store: MemoryStore
    const cache: MemoryCache

    constructor (store: MemoryStore, cache: MemoryCache)
      ensures this.store == store && this.cache == cache
    {
      this.store, this.cache := store, cache;
    }

    method Handle(e: Option<Event>) returns (r: Result)
      modifies store, cache
      ensures (store.View(), cache.View(), r) == HandleTo(old(store.View()), old(cache.View()), e)
    {
      if e.None? {
        return Rejected;
      }
      var evt := e.value;
      var first := store.MarkProcessed(evt.id);
      if !first {
        assert store.events == old(store.events);
        return Duplicate;
      }
      var existing := store.GetByProvider(evt.subscription.providerSub);
      if existing.None? {
        var created := evt.subscription.(status := TargetStatus(evt));
        store.Upsert(created);
        cache.Bust(created.customer);
        return Processed;
      }
      if evt.subscription.updatedAt < existing.value.updatedAt {
        return Stale;
      }
      var moved := ApplyTransition(existing.value, TargetStatus(evt));
      if moved.None? {
        return Illegal;
      }
      var updated := Merged(moved.value, evt.subscription);
      store.Upsert(updated);
      cache.Bust(updated.customer);
      r := Processed;
    }
  }

  class Reconciler {
    const store: MemoryStore
    const cache: MemoryCache

    constructor (store: MemoryStore, cache: MemoryCache)
      ensures this.store == store && this.cache == cache
    {
      this.store, this.cache := store, cache;
    }

    method ReconcileOne(providerSub: string, truth: Option<Subscription>) returns (o: Outcome)
      modifies store, cache
      ensures (store.View(), cache.View(), o) == ReconcileTo(old(store.View()), old(cache.View()), providerSub, truth)
    {
      if truth.None? {
        return FetchFailed;
      }
      var local := store.GetByProvider(providerSub);
      if local.None? {
        store.Upsert(truth.value);
        cache.Bust(truth.value.customer);
        return Adopted;
      }
      if truth.value.updatedAt < local.value.updatedAt {
        return StaleSkip;
      }
      if !Drifted(local.value, truth.value) {
        return InSync;
      }
      store.Upsert(truth.value);
      cache.Bust(truth.value.customer);
      o := Repaired;
    }
  }
}
