/** The entitlement cache under concurrent use (subscription-core): a lookup is a derivation and,
    later, a fill; a webhook or reconciliation is a write and, later, a bust.  Workers interleave
    between those in any way, act late, act twice, or never. */
module EntitlementRaces {
  import opened Collections
  import opened Histories
  import opened SubscriptionDomain
  import opened Entitlements

  /** What a worker is about to do.  A fill knows how many rows had been written for the subject
      when it derived its entitlement; a bust knows the number of its write. */
  datatype Task =
    | ToFill(subject: string, e: Entitlement, version: nat)
    | ToBust(subject: string, write: nat)

  datatype World = World(tables: Tables, cache: Cached, versions: map<string, nat>, writes: nat, tasks: set<Task>)

  datatype Step =
    | Write(row: Subscription)
    | Bust(subject: string, write: nat)
    | Derive(subject: string)
    | Fill(subject: string, e: Entitlement, version: nat)
    | SetDown(down: bool)
    | Crash(subject: string, write: nat)   // a writer dies before its bust

  function Start(plans: map<string, Plan>): World {
    World(Tables(map[], map[], {}, plans), Cached(map[], false), map[], 0, {})
  }

  function Version(w: World, subject: string): nat {
    if subject in w.versions then w.versions[subject] else 0
  }

  /** A step that is not possible changes nothing. */
  function Exec(w: World, s: Step): World {
    match s
    case Write(row) =>
      World(Upserted(w.tables, row), w.cache, w.versions[row.customer := Version(w, row.customer) + 1], w.writes + 1,
            w.tasks + {ToBust(row.customer, w.writes)})
    case Bust(subject, write) =>
      if ToBust(subject, write) !in w.tasks then w
      else w.(cache := Busted(w.cache, subject), tasks := w.tasks - {ToBust(subject, write)})
    case Derive(subject) =>
      (match Derived(w.tables, subject)
       case None => w
       case Some(e) => w.(tasks := w.tasks + {ToFill(subject, e, Version(w, subject))}))
    case Fill(subject, e, version) =>
      if ToFill(subject, e, version) !in w.tasks then w else w.(cache := Filled(w.cache, subject, e))
    case SetDown(down) => w.(cache := w.cache.(down := down))
    case Crash(subject, write) => w.(tasks := w.tasks - {ToBust(subject, write)})
  }

  ghost predicate IsHistory(h: History<Step, World>, plans: map<string, Plan>) {
    Follows(h, Start(plans), Exec)
  }

  /** Some writer of the subject has still to bust it. */
  ghost predicate IsPending(w: World, subject: string) {
    exists write: nat :: ToBust(subject, write) in w.tasks
  }

  /** No writer of the subject died before its bust since step `f`. */
  ghost predicate NoCrash(h: History<Step, World>, f: nat, k: nat, subject: string)
    requires k <= |h.steps|
  {
    forall i | f <= i < k :: !(h.steps[i].Crash? && h.steps[i].subject == subject)
  }

  predicate FillsAt(h: History<Step, World>, k: nat, subject: string)
    requires k < |h.steps| && k < |h.worlds|
  {
    && h.steps[k].Fill? && h.steps[k].subject == subject && !h.worlds[k].cache.down
    && ToFill(subject, h.steps[k].e, h.steps[k].version) in h.worlds[k].tasks
  }

  // ---------------------------------------------------------------- what a cached entry is worth

  lemma StepKeepsPending(w: World, s: Step, subject: string)
    requires IsPending(w, subject) && !(s.Crash? && s.subject == subject)
    ensures IsPending(Exec(w, s), subject) || subject !in Exec(w, s).cache.data
  {
    var write: nat :| ToBust(subject, write) in w.tasks;
    assert ToBust(subject, write) in Exec(w, s).tasks || (s.Bust? && s.subject == subject);
  }

  /** A step that leaves no new bust pending leaves what the store says about the subject. */
  lemma StepKeepsDerived(w: World, s: Step, subject: string)
    ensures Derived(Exec(w, s).tables, subject) == Derived(w.tables, subject) || IsPending(Exec(w, s), subject)
  {
    if s.Write? && s.row.customer == subject {
      assert ToBust(subject, w.writes) in Exec(w, s).tasks;
    }
  }

  /** A cached entry was put there by a fill; unless a bust is pending or was lost, the store says
      the same about the subject now as it did at that fill. */
  lemma {:induction false} EntryWasFilled(h: History<Step, World>, plans: map<string, Plan>, k: nat, subject: string)
      returns (f: nat)
    requires IsHistory(h, plans) && k <= |h.steps| && subject in h.worlds[k].cache.data
    ensures f < k && FillsAt(h, f, subject) && h.steps[f].e == h.worlds[k].cache.data[subject]
    ensures NoCrash(h, f, k, subject) ==>
            || IsPending(h.worlds[k], subject)
            || Derived(h.worlds[k].tables, subject) == Derived(h.worlds[f].tables, subject)
  {
    NextWorld(h, Start(plans), Exec, k - 1);
    if FillsAt(h, k - 1, subject) {
      f := k - 1;
    } else {
      f := EntryWasFilled(h, plans, k - 1, subject);
      if NoCrash(h, f, k, subject) {
        StepKeepsWorth(h.worlds[k - 1], h.steps[k - 1], subject, Derived(h.worlds[f].tables, subject));
      }
    }
  }

  lemma StepKeepsWorth(w: World, s: Step, subject: string, earlier: Option<Entitlement>)
    requires !(s.Crash? && s.subject == subject) && subject in Exec(w, s).cache.data
    requires IsPending(w, subject) || Derived(w.tables, subject) == earlier
    ensures IsPending(Exec(w, s), subject) || Derived(Exec(w, s).tables, subject) == earlier
  {
    StepKeepsDerived(w, s, subject);
    if IsPending(w, subject) {
      StepKeepsPending(w, s, subject);
    }
  }

  /** Unless a bust is pending or was lost since the fill, a cached entry is true now exactly when
      it was true at its fill, whatever happened in between. */
  lemma EntryIsTrueIffFillWas(h: History<Step, World>, plans: map<string, Plan>, k: nat, subject: string)
      returns (f: nat)
    requires IsHistory(h, plans) && k <= |h.steps| && subject in h.worlds[k].cache.data
    ensures f < k && FillsAt(h, f, subject) && h.steps[f].e == h.worlds[k].cache.data[subject]
    ensures NoCrash(h, f, k, subject) && !IsPending(h.worlds[k], subject) ==>
            (Derived(h.worlds[k].tables, subject) == Some(h.worlds[k].cache.data[subject])
             <==> Derived(h.worlds[f].tables, subject) == Some(h.steps[f].e))
  {
    f := EntryWasFilled(h, plans, k, subject);
  }

  // ---------------------------------------------------------------- what a fill is worth

  /** A fill at the version it was derived at is true; a fill is of an entitlement that was true
      at some earlier moment in any case. */
  predicate TaskFits(w: World, subject: string, e: Entitlement, version: nat) {
    && version <= Version(w, subject)
    && (version == Version(w, subject) ==> Derived(w.tables, subject) == Some(e))
  }

  lemma {:induction false} TasksAlwaysFit(h: History<Step, World>, plans: map<string, Plan>, k: nat, subject: string,
                                          e: Entitlement, version: nat)
      returns (d: nat)
    requires IsHistory(h, plans) && k <= |h.steps| && ToFill(subject, e, version) in h.worlds[k].tasks
    ensures TaskFits(h.worlds[k], subject, e, version)
    ensures d <= k && Derived(h.worlds[d].tables, subject) == Some(e) && Version(h.worlds[d], subject) == version
  {
    NextWorld(h, Start(plans), Exec, k - 1);
    if ToFill(subject, e, version) in h.worlds[k - 1].tasks {
      d := TasksAlwaysFit(h, plans, k - 1, subject, e, version);
    } else {
      d := k - 1;
    }
  }

  /** No row of the subject was written between the derivation and the fill. */
  predicate IsPrompt(h: History<Step, World>, f: nat)
    requires f < |h.steps| && f < |h.worlds| && h.steps[f].Fill?
  {
    h.steps[f].version == Version(h.worlds[f], h.steps[f].subject)
  }

  /** If the fill of a cached entry was prompt and no bust was lost since, the entry is what the
      store says, or a bust is on its way. */
  lemma PromptFillsKeepCacheTrue(h: History<Step, World>, plans: map<string, Plan>, k: nat, subject: string)
      returns (f: nat)
    requires IsHistory(h, plans) && k <= |h.steps| && subject in h.worlds[k].cache.data
    ensures f < k && FillsAt(h, f, subject) && h.steps[f].e == h.worlds[k].cache.data[subject]
    ensures IsPrompt(h, f) && NoCrash(h, f, k, subject) ==>
            || IsPending(h.worlds[k], subject)
            || Derived(h.worlds[k].tables, subject) == Some(h.worlds[k].cache.data[subject])
  {
    f := EntryWasFilled(h, plans, k, subject);
    var d := TasksAlwaysFit(h, plans, f, subject, h.steps[f].e, h.steps[f].version);
  }

  /** Every cached entry was once what the store said, prompt or not, and whoever died. */
  lemma EntryWasTrueOnce(h: History<Step, World>, plans: map<string, Plan>, k: nat, subject: string) returns (d: nat)
    requires IsHistory(h, plans) && k <= |h.steps| && subject in h.worlds[k].cache.data
    ensures d <= k && Derived(h.worlds[d].tables, subject) == Some(h.worlds[k].cache.data[subject])
  {
    var f := EntryWasFilled(h, plans, k, subject);
    d := TasksAlwaysFit(h, plans, f, subject, h.steps[f].e, h.steps[f].version);
  }

  /** A subject is written, busted and derived. */
  lemma FirstDerivation(h: History<Step, World>, plans: map<string, Plan>, row: Subscription, e: Entitlement)
    requires IsHistory(h, plans) && row.plan in plans && e == DeriveEntitlement(row, plans[row.plan])
    requires |h.steps| >= 3 && h.steps[..3] == [Write(row), Bust(row.customer, 0), Derive(row.customer)]
    ensures var w, subject := h.worlds[3], row.customer;
            && w.tasks == {ToFill(subject, e, 1)} && w.writes == 1 && Version(w, subject) == 1
            && w.tables.plans == plans && Derived(w.tables, subject) == Some(e) && w.cache == Cached(map[], false)
  {
    var subject := row.customer;
    assert h.steps[0] == h.steps[..3][0] && h.steps[1] == h.steps[..3][1] && h.steps[2] == h.steps[..3][2];
    NextWorld(h, Start(plans), Exec, 0);
    NextWorld(h, Start(plans), Exec, 1);
    assert h.worlds[2].tasks == {} && Derived(h.worlds[2].tables, subject) == Some(e);
    NextWorld(h, Start(plans), Exec, 2);
  }

  /** A fill that straddles a write and its bust leaves a canceled customer with access, and
      nothing pending that would put it right. */
  lemma StraddlingFillExample(h: History<Step, World>, plans: map<string, Plan>, row: Subscription, e: Entitlement)
    requires IsHistory(h, plans) && row.status == Active && row.plan in plans
    requires e == DeriveEntitlement(row, plans[row.plan])
    requires h.steps == [Write(row), Bust(row.customer, 0), Derive(row.customer),
                         Write(row.(status := Canceled)), Bust(row.customer, 1), Fill(row.customer, e, 1)]
    ensures var w, subject := h.worlds[6], row.customer;
            && !IsPending(w, subject) && subject in w.cache.data && w.cache.data[subject].active
            && Derived(w.tables, subject).Some? && !Derived(w.tables, subject).value.active
  {
    FirstDerivation(h, plans, row, e);
    NextWorld(h, Start(plans), Exec, 3);
    NextWorld(h, Start(plans), Exec, 4);
    assert h.worlds[5].tasks == {ToFill(row.customer, e, 1)};
    NextWorld(h, Start(plans), Exec, 5);
  }

  /** A writer that dies before its bust leaves a canceled customer with access too, although the
      fill was prompt. */
  lemma LostBustExample(h: History<Step, World>, plans: map<string, Plan>, row: Subscription, e: Entitlement)
    requires IsHistory(h, plans) && row.status == Active && row.plan in plans
    requires e == DeriveEntitlement(row, plans[row.plan])
    requires h.steps == [Write(row), Bust(row.customer, 0), Derive(row.customer), Fill(row.customer, e, 1),
                         Write(row.(status := Canceled)), Crash(row.customer, 1)]
    ensures var w, subject := h.worlds[6], row.customer;
            && IsPrompt(h, 3) && !IsPending(w, subject) && subject in w.cache.data && w.cache.data[subject].active
            && Derived(w.tables, subject).Some? && !Derived(w.tables, subject).value.active
  {
    FirstDerivation(h, plans, row, e);
    NextWorld(h, Start(plans), Exec, 3);
    NextWorld(h, Start(plans), Exec, 4);
    NextWorld(h, Start(plans), Exec, 5);
    assert h.worlds[6].tasks == {ToFill(row.customer, e, 1)};
  }
}
