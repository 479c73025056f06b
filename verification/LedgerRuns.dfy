/** Every interleaving of transfers (fintech-ledger-go/internal/ledger/account.go): no deadlock,
    and every schedule is as good as some order of whole transfers. */
module LedgerRuns {
  import opened Text
  import Int64
  import opened Ledger

  ghost predicate IsSchedule(jobs: seq<Job>, schedule: seq<nat>) {
    forall t | 0 <= t < |schedule| :: schedule[t] < |jobs|
  }

  // ---------------------------------------------------------------- locks

  predicate HoldsFirst(phase: Phase) {
    !phase.Waiting? && !phase.Finished?
  }

  predicate HoldsSecond(phase: Phase) {
    phase == HasBoth || phase == InFlight || phase.Unlocking?
  }

  predicate HoldsLock(job: Job, phase: Phase, account: string) {
    (HoldsFirst(phase) && account == First(job)) || (HoldsSecond(phase) && account == Second(job))
  }

  predicate ThreadFits(owner: map<string, nat>, i: nat, job: Job, phase: Phase) {
    && (HoldsFirst(phase) ==> Locks(job) && First(job) in owner && owner[First(job)] == i)
    && (HoldsSecond(phase) ==> Second(job) in owner && owner[Second(job)] == i)
  }

  /** Locks are owned by exactly the threads that hold them. */
  ghost predicate LocksFit(owner: map<string, nat>, jobs: seq<Job>, phases: seq<Phase>)
    requires |phases| == |jobs|
  {
    && (forall i | 0 <= i < |jobs| :: ThreadFits(owner, i, jobs[i], phases[i]))
    && (forall a | a in owner :: owner[a] < |jobs| && HoldsLock(jobs[owner[a]], phases[owner[a]], a))
  }

  lemma OrderOfLocks(job: Job)
    requires job.from != job.to
    ensures Less(First(job), Second(job)) && First(job) != Second(job)
  {
    LessIsTotal(job.from, job.to);
  }

  /** A step of thread `i` leaves every other thread's locks where they were. */
  lemma StepKeepsThread(s: State, jobs: seq<Job>, i: nat, j: nat)
    requires |s.phases| == |jobs| && i < |jobs| && j < |jobs| && IsSound(s.balances, jobs[i])
    requires ThreadFits(s.owner, i, jobs[i], s.phases[i]) && ThreadFits(s.owner, j, jobs[j], s.phases[j])
    requires CanStep(s, jobs[i], i) && (Locks(jobs[i]) ==> First(jobs[i]) != Second(jobs[i]))
    ensures var s' := Moved(s, jobs[i], i);
            ThreadFits(s'.owner, j, jobs[j], s'.phases[j])
  {
  }

  lemma StepKeepsOwner(s: State, jobs: seq<Job>, i: nat, a: string)
    requires |s.phases| == |jobs| && i < |jobs| && IsSound(s.balances, jobs[i])
    requires ThreadFits(s.owner, i, jobs[i], s.phases[i]) && CanStep(s, jobs[i], i)
    requires a in s.owner ==> s.owner[a] < |jobs| && HoldsLock(jobs[s.owner[a]], s.phases[s.owner[a]], a)
    ensures var s' := Moved(s, jobs[i], i);
            a in s'.owner ==> s'.owner[a] < |jobs| && HoldsLock(jobs[s'.owner[a]], s'.phases[s'.owner[a]], a)
  {
  }

  lemma StepKeepsLocks(s: State, jobs: seq<Job>, i: nat)
    requires |s.phases| == |jobs| && i < |jobs| && AllSound(s.balances, jobs)
    requires LocksFit(s.owner, jobs, s.phases) && CanStep(s, jobs[i], i)
    ensures var s' := Moved(s, jobs[i], i);
            LocksFit(s'.owner, jobs, s'.phases)
  {
    var s' := Moved(s, jobs[i], i);
    if Locks(jobs[i]) {
      OrderOfLocks(jobs[i]);
    }
    forall j | 0 <= j < |jobs|
      ensures ThreadFits(s'.owner, j, jobs[j], s'.phases[j])
    {
      StepKeepsThread(s, jobs, i, j);
    }
    forall a | a in s'.owner
      ensures s'.owner[a] < |jobs| && HoldsLock(jobs[s'.owner[a]], s'.phases[s'.owner[a]], a)
    {
      StepKeepsOwner(s, jobs, i, a);
    }
  }

  lemma {:induction false} LocksAlwaysFit(balances: Balances, jobs: seq<Job>, schedule: seq<nat>)
    requires AllSound(balances, jobs) && IsSchedule(jobs, schedule)
    ensures var s := After(balances, jobs, schedule);
            LocksFit(s.owner, jobs, s.phases)
  {
    if schedule != [] {
      var earlier, i := schedule[..|schedule| - 1], schedule[|schedule| - 1];
      LocksAlwaysFit(balances, jobs, earlier);
      var s := After(balances, jobs, earlier);
      if CanStep(s, jobs[i], i) {
        StepKeepsLocks(s, jobs, i);
      }
    }
  }

  // ---------------------------------------------------------------- no deadlock

  /** The accounts that come after the one a thread is waiting for. */
  ghost function Above(balances: Balances, account: string): set<string> {
    set a | a in balances && Less(account, a)
  }

  /** Follow the locks: a thread that cannot move waits for a lock whose owner either can move or
      waits for a greater one. */
  lemma {:induction false} SomeoneMoves(balances: Balances, s: State, jobs: seq<Job>, i: nat) returns (mover: nat)
    requires |s.phases| == |jobs| && i < |jobs| && AllSound(balances, jobs)
    requires LocksFit(s.owner, jobs, s.phases) && !s.phases[i].Finished?
    ensures mover < |jobs| && CanStep(s, jobs[mover], mover)
    decreases if s.phases[i] == Waiting then 1 else 0,
              |Above(balances, if s.phases[i] == Waiting then First(jobs[i]) else Second(jobs[i]))|
  {
    if CanStep(s, jobs[i], i) {
      return i;
    }
    assert ThreadFits(s.owner, i, jobs[i], s.phases[i]);
    OrderOfLocks(jobs[i]);
    var wanted := if s.phases[i] == Waiting then First(jobs[i]) else Second(jobs[i]);
    var j := s.owner[wanted];
    assert HoldsLock(jobs[j], s.phases[j], wanted) && ThreadFits(s.owner, j, jobs[j], s.phases[j]);
    if CanStep(s, jobs[j], j) {
      return j;
    }
    OrderOfLocks(jobs[j]);
    AboveShrinks(balances, wanted, Second(jobs[j]));
    mover := SomeoneMoves(balances, s, jobs, j);
  }

  lemma AboveShrinks(balances: Balances, a: string, b: string)
    requires Less(a, b) && b in balances
    ensures |Above(balances, b)| < |Above(balances, a)|
  {
    forall x | x in Above(balances, b)
      ensures x in Above(balances, a)
    {
      LessIsTransitive(a, b, x);
    }
    LessIsIrreflexive(b);
    assert Above(balances, a) == Above(balances, b) + (Above(balances, a) - Above(balances, b));
    assert b in Above(balances, a) - Above(balances, b);
  }

  /** In every reachable state with an unfinished transfer some thread can take a step. */
  lemma NoDeadlock(balances: Balances, jobs: seq<Job>, schedule: seq<nat>, i: nat)
    requires AllSound(balances, jobs) && IsSchedule(jobs, schedule) && i < |jobs|
    requires !After(balances, jobs, schedule).phases[i].Finished?
    ensures exists mover: nat | mover < |jobs| :: CanStep(After(balances, jobs, schedule), jobs[mover], mover)
  {
    LocksAlwaysFit(balances, jobs, schedule);
    var mover := SomeoneMoves(balances, After(balances, jobs, schedule), jobs, i);
  }

  /** The steps a thread has left. */
  function Left(phase: Phase): nat {
    match phase
    case Waiting => 6
    case HasFirst => 5
    case HasBoth => 4
    case InFlight => 3
    case Unlocking(_) => 2
    case KeepsFirst(_) => 1
    case Finished(_) => 0
  }

  ghost function TotalLeft(phases: seq<Phase>): nat {
    if phases == [] then 0 else TotalLeft(phases[..|phases| - 1]) + Left(phases[|phases| - 1])
  }

  lemma {:induction false} TotalLeftUpdate(phases: seq<Phase>, i: nat, phase: Phase)
    requires i < |phases|
    ensures TotalLeft(phases[i := phase]) == TotalLeft(phases) - Left(phases[i]) + Left(phase)
  {
    var last := |phases| - 1;
    if i == last {
      assert phases[i := phase][..last] == phases[..last];
    } else {
      TotalLeftUpdate(phases[..last], i, phase);
      assert phases[i := phase][..last] == phases[..last][i := phase];
    }
  }

  /** Every step that is taken brings the end nearer, so with no deadlock every schedule that
      keeps moving finishes every transfer. */
  lemma StepsRunOut(s: State, jobs: seq<Job>, i: nat)
    requires |s.phases| == |jobs| && i < |jobs| && AllSound(s.balances, jobs) && CanStep(s, jobs[i], i)
    ensures TotalLeft(Moved(s, jobs[i], i).phases) < TotalLeft(s.phases)
  {
    var phase := Moved(s, jobs[i], i).phases[i];
    TotalLeftUpdate(s.phases, i, phase);
    assert Moved(s, jobs[i], i).phases == s.phases[i := phase];
  }

  lemma {:induction false} SomethingIsLeft(phases: seq<Phase>)
    requires TotalLeft(phases) != 0
    ensures exists i | 0 <= i < |phases| :: !phases[i].Finished?
  {
    var last := |phases| - 1;
    if phases[last].Finished? {
      SomethingIsLeft(phases[..last]);
      var i :| 0 <= i < last && !phases[..last][i].Finished?;
      assert !phases[i].Finished?;
    }
  }

  lemma {:induction false} NothingIsLeft(phases: seq<Phase>)
    requires TotalLeft(phases) == 0
    ensures forall i | 0 <= i < |phases| :: phases[i].Finished?
  {
    if phases != [] {
      NothingIsLeft(phases[..|phases| - 1]);
    }
  }

  /** While anything is left, some step brings the end nearer. */
  lemma SomeStepHelps(balances: Balances, jobs: seq<Job>, schedule: seq<nat>) returns (mover: nat)
    requires AllSound(balances, jobs) && IsSchedule(jobs, schedule)
    requires TotalLeft(After(balances, jobs, schedule).phases) != 0
    ensures mover < |jobs| && IsSchedule(jobs, schedule + [mover])
    ensures TotalLeft(After(balances, jobs, schedule + [mover]).phases)
            < TotalLeft(After(balances, jobs, schedule).phases)
  {
    var s := After(balances, jobs, schedule);
    SomethingIsLeft(s.phases);
    var i :| 0 <= i < |jobs| && !s.phases[i].Finished?;
    LocksAlwaysFit(balances, jobs, schedule);
    mover := SomeoneMoves(balances, s, jobs, i);
    StepsRunOut(s, jobs, mover);
    assert (schedule + [mover])[..|schedule|] == schedule;
  }

  ghost function LeftAfter(balances: Balances, jobs: seq<Job>, schedule: seq<nat>): nat
    requires AllSound(balances, jobs) && IsSchedule(jobs, schedule)
  {
    TotalLeft(After(balances, jobs, schedule).phases)
  }

  lemma {:induction false} StepsToTheEnd(balances: Balances, jobs: seq<Job>, schedule: seq<nat>)
      returns (whole: seq<nat>)
    requires AllSound(balances, jobs) && IsSchedule(jobs, schedule)
    ensures schedule <= whole && IsSchedule(jobs, whole) && LeftAfter(balances, jobs, whole) == 0
    ensures |whole| <= |schedule| + LeftAfter(balances, jobs, schedule)
    decreases LeftAfter(balances, jobs, schedule)
  {
    if LeftAfter(balances, jobs, schedule) == 0 {
      return schedule;
    }
    var mover := SomeStepHelps(balances, jobs, schedule);
    whole := StepsToTheEnd(balances, jobs, schedule + [mover]);
  }

  /** However far a run has got, it can be brought to an end in which every transfer is done. */
  lemma RunsCanFinish(balances: Balances, jobs: seq<Job>, schedule: seq<nat>) returns (whole: seq<nat>)
    requires AllSound(balances, jobs) && IsSchedule(jobs, schedule)
    ensures schedule <= whole && IsSchedule(jobs, whole)
    ensures |whole| <= |schedule| + TotalLeft(After(balances, jobs, schedule).phases)
    ensures forall i | 0 <= i < |jobs| :: After(balances, jobs, whole).phases[i].Finished?
  {
    whole := StepsToTheEnd(balances, jobs, schedule);
    NothingIsLeft(After(balances, jobs, whole).phases);
  }

  // ---------------------------------------------------------------- one order of whole transfers

  /** The balances after the decided transfers, each carried out whole, in the order of their
      debits. */
  function Replay(balances: Balances, jobs: seq<Job>, order: seq<nat>): (m: Balances)
    requires AllSound(balances, jobs) && IsSchedule(jobs, order)
    ensures m.Keys == balances.Keys
  {
    if order == [] then balances
    else Applied(Replay(balances, jobs, order[..|order| - 1]), jobs[order[|order| - 1]])
  }

  /** An account is where the replay has it, unless its owner still owes it a credit. */
  predicate AccountFits(s: State, jobs: seq<Job>, replayed: Balances, a: string)
    requires |s.phases| == |jobs| && a in s.balances && a in replayed
  {
    replayed[a] ==
      if a in s.owner && s.owner[a] < |jobs| && s.phases[s.owner[a]] == InFlight && jobs[s.owner[a]].to == a
      then Int64.Wrap(s.balances[a] + jobs[s.owner[a]].amount)
      else s.balances[a]
  }

  ghost predicate ReplayFits(balances: Balances, s: State, jobs: seq<Job>)
    requires AllSound(balances, jobs) && |s.phases| == |jobs|
  {
    && IsSchedule(jobs, s.order) && s.balances.Keys == balances.Keys
    && forall a | a in s.balances :: AccountFits(s, jobs, Replay(balances, jobs, s.order), a)
  }

  /** What is known of the owner of one account. */
  predicate OwnerFits(s: State, jobs: seq<Job>, a: string)
    requires |s.phases| == |jobs|
  {
    a in s.owner ==> s.owner[a] < |jobs| && HoldsLock(jobs[s.owner[a]], s.phases[s.owner[a]], a)
  }

  /** A debit and the replay of the whole transfer agree, account by account. */
  lemma DebitKeepsAccount(s: State, jobs: seq<Job>, i: nat, replayed: Balances, a: string)
    requires |s.phases| == |jobs| && i < |jobs| && IsSound(s.balances, jobs[i]) && replayed.Keys == s.balances.Keys
    requires ThreadFits(s.owner, i, jobs[i], s.phases[i]) && s.phases[i] == HasBoth && jobs[i].from != jobs[i].to
    requires a in s.balances && AccountFits(s, jobs, replayed, a) && OwnerFits(s, jobs, a)
    requires replayed[jobs[i].from] == s.balances[jobs[i].from] && replayed[jobs[i].to] == s.balances[jobs[i].to]
    ensures AccountFits(Moved(s, jobs[i], i), jobs, Applied(replayed, jobs[i]), a)
  {
  }

  /** A thread that holds both locks and has moved nothing sees the replayed balances. */
  lemma HolderSeesReplay(s: State, jobs: seq<Job>, i: nat, replayed: Balances)
    requires |s.phases| == |jobs| && i < |jobs| && IsSound(s.balances, jobs[i]) && replayed.Keys == s.balances.Keys
    requires ThreadFits(s.owner, i, jobs[i], s.phases[i]) && s.phases[i] == HasBoth
    requires AccountFits(s, jobs, replayed, jobs[i].from) && AccountFits(s, jobs, replayed, jobs[i].to)
    ensures replayed[jobs[i].from] == s.balances[jobs[i].from] && replayed[jobs[i].to] == s.balances[jobs[i].to]
  {
  }

  lemma ReplayOneMore(balances: Balances, jobs: seq<Job>, order: seq<nat>, i: nat)
    requires AllSound(balances, jobs) && IsSchedule(jobs, order) && i < |jobs|
    ensures IsSchedule(jobs, order + [i])
    ensures Replay(balances, jobs, order + [i]) == Applied(Replay(balances, jobs, order), jobs[i])
  {
    assert (order + [i])[..|order|] == order;
  }

  lemma DebitKeepsReplay(balances: Balances, s: State, jobs: seq<Job>, i: nat)
    requires AllSound(balances, jobs) && |s.phases| == |jobs| && i < |jobs| && IsSound(s.balances, jobs[i])
    requires LocksFit(s.owner, jobs, s.phases) && ReplayFits(balances, s, jobs) && s.phases[i] == HasBoth
    ensures ReplayFits(balances, Moved(s, jobs[i], i), jobs)
  {
    var s', replayed := Moved(s, jobs[i], i), Replay(balances, jobs, s.order);
    assert ThreadFits(s.owner, i, jobs[i], s.phases[i]);
    HolderSeesReplay(s, jobs, i, replayed);
    ReplayOneMore(balances, jobs, s.order, i);
    forall a | a in s'.balances
      ensures AccountFits(s', jobs, Replay(balances, jobs, s'.order), a)
    {
      DebitKeepsAccount(s, jobs, i, replayed, a);
    }
  }

  lemma OtherStepKeepsAccount(s: State, jobs: seq<Job>, i: nat, replayed: Balances, a: string)
    requires |s.phases| == |jobs| && i < |jobs| && IsSound(s.balances, jobs[i]) && replayed.Keys == s.balances.Keys
    requires ThreadFits(s.owner, i, jobs[i], s.phases[i]) && CanStep(s, jobs[i], i) && s.phases[i] != HasBoth
    requires a in s.balances && AccountFits(s, jobs, replayed, a) && OwnerFits(s, jobs, a)
    ensures AccountFits(Moved(s, jobs[i], i), jobs, replayed, a)
  {
  }

  lemma OtherStepsKeepReplay(balances: Balances, s: State, jobs: seq<Job>, i: nat)
    requires AllSound(balances, jobs) && |s.phases| == |jobs| && i < |jobs| && IsSound(s.balances, jobs[i])
    requires LocksFit(s.owner, jobs, s.phases) && ReplayFits(balances, s, jobs)
    requires CanStep(s, jobs[i], i) && s.phases[i] != HasBoth
    ensures ReplayFits(balances, Moved(s, jobs[i], i), jobs)
  {
    var s', replayed := Moved(s, jobs[i], i), Replay(balances, jobs, s.order);
    forall a | a in s'.balances
      ensures AccountFits(s', jobs, replayed, a)
    {
      OtherStepKeepsAccount(s, jobs, i, replayed, a);
    }
  }

  lemma {:induction false} ReplayAlwaysFits(balances: Balances, jobs: seq<Job>, schedule: seq<nat>)
    requires AllSound(balances, jobs) && IsSchedule(jobs, schedule)
    ensures ReplayFits(balances, After(balances, jobs, schedule), jobs)
  {
    if schedule != [] {
      var earlier, i := schedule[..|schedule| - 1], schedule[|schedule| - 1];
      ReplayAlwaysFits(balances, jobs, earlier);
      LocksAlwaysFit(balances, jobs, earlier);
      var s := After(balances, jobs, earlier);
      if CanStep(s, jobs[i], i) {
        if s.phases[i] == HasBoth {
          DebitKeepsReplay(balances, s, jobs, i);
        } else {
          OtherStepsKeepReplay(balances, s, jobs, i);
        }
      }
    }
  }

  /** When no transfer is half done, the balances are those of some order of whole transfers,
      whatever the interleaving was. */
  lemma SchedulesAreSerial(balances: Balances, jobs: seq<Job>, schedule: seq<nat>)
    requires AllSound(balances, jobs) && IsSchedule(jobs, schedule)
    requires forall i | 0 <= i < |jobs| :: After(balances, jobs, schedule).phases[i] != InFlight
    ensures var s := After(balances, jobs, schedule);
            IsSchedule(jobs, s.order) && s.balances == Replay(balances, jobs, s.order)
  {
    ReplayAlwaysFits(balances, jobs, schedule);
    var s := After(balances, jobs, schedule);
    forall a | a in s.balances
      ensures s.balances[a] == Replay(balances, jobs, s.order)[a]
    {
      assert AccountFits(s, jobs, Replay(balances, jobs, s.order), a);
    }
  }
}
