/** Money under concurrent transfers (fintech-ledger-go/internal/ledger/account.go): what threads
    report, what is conserved, and exactly which opening balances are safe. */
module LedgerMoney {
  import opened Collections
  import Int64
  import opened Sums
  import opened Ledger
  import opened LedgerRuns

  // ---------------------------------------------------------------- what threads report

  predicate Decided(phase: Phase) {
    match phase
    case InFlight => true
    case Unlocking(_) => true
    case KeepsFirst(_) => true
    case Finished(o) => o == Success || o == InsufficientFunds
    case _ => false
  }

  predicate Succeeded(phase: Phase) {
    phase == InFlight || (!phase.Waiting? && phase != HasFirst && phase != HasBoth && phase.o == Success)
  }

  predicate Refused(phase: Phase) {
    !phase.Waiting? && phase != HasFirst && phase != HasBoth && phase != InFlight && phase.o == InsufficientFunds
  }

  /** The `t`-th decided thread reports what the replay would have it report. */
  predicate ReportFits(balances: Balances, jobs: seq<Job>, order: seq<nat>, phases: seq<Phase>, t: nat)
    requires AllSound(balances, jobs) && IsSchedule(jobs, order) && |phases| == |jobs| && t < |order|
  {
    if CanPay(Replay(balances, jobs, order[..t]), jobs[order[t]]) then Succeeded(phases[order[t]])
    else Refused(phases[order[t]])
  }

  ghost predicate ReportsFit(balances: Balances, s: State, jobs: seq<Job>)
    requires AllSound(balances, jobs) && |s.phases| == |jobs| && IsSchedule(jobs, s.order)
  {
    && (forall t | 0 <= t < |s.order| :: ReportFits(balances, jobs, s.order, s.phases, t))
    && (forall t, u | 0 <= t < u < |s.order| :: s.order[t] != s.order[u])
    && (forall i | 0 <= i < |jobs| && Decided(s.phases[i]) :: i in s.order)
  }

  lemma LabelsStay(s: State, job: Job, i: nat)
    requires i < |s.phases| && IsSound(s.balances, job) && s.phases[i] != HasBoth
    ensures var s' := Moved(s, job, i);
            && s'.order == s.order && s'.phases == s.phases[i := s'.phases[i]]
            && (Decided(s'.phases[i]) ==> Decided(s.phases[i]))
            && (Succeeded(s.phases[i]) ==> Succeeded(s'.phases[i]))
            && (Refused(s.phases[i]) ==> Refused(s'.phases[i]))
  {
  }

  lemma QuietStepKeepsReports(balances: Balances, s: State, jobs: seq<Job>, i: nat)
    requires AllSound(balances, jobs) && |s.phases| == |jobs| && i < |jobs| && AllSound(s.balances, jobs)
    requires IsSchedule(jobs, s.order) && ReportsFit(balances, s, jobs)
    requires s.phases[i] != HasBoth
    ensures ReportsFit(balances, Moved(s, jobs[i], i), jobs)
  {
    var s' := Moved(s, jobs[i], i);
    LabelsStay(s, jobs[i], i);
    forall t | 0 <= t < |s'.order|
      ensures ReportFits(balances, jobs, s'.order, s'.phases, t)
    {
      assert ReportFits(balances, jobs, s.order, s.phases, t);
    }
  }

  lemma DecisionKeepsReports(balances: Balances, s: State, jobs: seq<Job>, i: nat)
    requires AllSound(balances, jobs) && |s.phases| == |jobs| && i < |jobs| && AllSound(s.balances, jobs)
    requires IsSchedule(jobs, s.order) && ReportsFit(balances, s, jobs) && s.phases[i] == HasBoth
    requires CanPay(Replay(balances, jobs, s.order), jobs[i]) == CanPay(s.balances, jobs[i])
    ensures ReportsFit(balances, Moved(s, jobs[i], i), jobs)
  {
    var s' := Moved(s, jobs[i], i);
    forall t | 0 <= t < |s.order|
      ensures s.order[t] != i
    {
      assert ReportFits(balances, jobs, s.order, s.phases, t);
    }
    forall t | 0 <= t < |s'.order|
      ensures ReportFits(balances, jobs, s'.order, s'.phases, t)
    {
      assert s'.order[..t] == s.order[..t];
      if t < |s.order| {
        assert ReportFits(balances, jobs, s.order, s.phases, t);
      } else {
        assert s.order[..t] == s.order;
      }
    }
  }

  lemma {:induction false} ReportsAlwaysFit(balances: Balances, jobs: seq<Job>, schedule: seq<nat>)
    requires AllSound(balances, jobs) && IsSchedule(jobs, schedule)
    ensures var s := After(balances, jobs, schedule);
            IsSchedule(jobs, s.order) && ReportsFit(balances, s, jobs)
  {
    ReplayAlwaysFits(balances, jobs, schedule);
    if schedule != [] {
      var earlier, i := schedule[..|schedule| - 1], schedule[|schedule| - 1];
      ReportsAlwaysFit(balances, jobs, earlier);
      var s := After(balances, jobs, earlier);
      if CanStep(s, jobs[i], i) {
        if s.phases[i] == HasBoth {
          DecisionMatchesReplay(balances, jobs, earlier, i);
          DecisionKeepsReports(balances, s, jobs, i);
        } else {
          QuietStepKeepsReports(balances, s, jobs, i);
        }
      }
    }
  }

  lemma DecisionMatchesReplay(balances: Balances, jobs: seq<Job>, schedule: seq<nat>, i: nat)
    requires AllSound(balances, jobs) && IsSchedule(jobs, schedule) && i < |jobs|
    requires After(balances, jobs, schedule).phases[i] == HasBoth
    ensures var s := After(balances, jobs, schedule);
            IsSchedule(jobs, s.order) && CanPay(Replay(balances, jobs, s.order), jobs[i]) == CanPay(s.balances, jobs[i])
  {
    ReplayAlwaysFits(balances, jobs, schedule);
    LocksAlwaysFit(balances, jobs, schedule);
    var s := After(balances, jobs, schedule);
    assert ThreadFits(s.owner, i, jobs[i], s.phases[i]);
    HolderSeesReplay(s, jobs, i, Replay(balances, jobs, s.order));
  }

  /** A transfer that was decided has one place in the order, and reports success exactly when
      the balances just before that place could pay for it. */
  lemma ThreadsReportTruly(balances: Balances, jobs: seq<Job>, schedule: seq<nat>, i: nat)
    requires AllSound(balances, jobs) && IsSchedule(jobs, schedule) && i < |jobs|
    requires Decided(After(balances, jobs, schedule).phases[i])
    ensures var s := After(balances, jobs, schedule);
            && IsSchedule(jobs, s.order)
            && exists t: nat | t < |s.order| ::
                 && s.order[t] == i
                 && (Succeeded(s.phases[i]) <==> CanPay(Replay(balances, jobs, s.order[..t]), jobs[i]))
  {
    ReportsAlwaysFit(balances, jobs, schedule);
    var s := After(balances, jobs, schedule);
    var t :| 0 <= t < |s.order| && s.order[t] == i;
    assert ReportFits(balances, jobs, s.order, s.phases, t);
  }

  // ---------------------------------------------------------------- conservation

  ghost predicate NonNegative(m: Balances) {
    forall a | a in m :: m[a] >= 0
  }

  ghost predicate InRange(jobs: seq<Job>) {
    forall i | 0 <= i < |jobs| :: Int64.InRange(jobs[i].amount)
  }

  /** What has been debited and not yet credited. */
  ghost function Pending(jobs: seq<Job>, phases: seq<Phase>): int
    requires |jobs| == |phases|
  {
    if jobs == [] then 0
    else
      var last := |jobs| - 1;
      Pending(jobs[..last], phases[..last]) + (if phases[last] == InFlight then jobs[last].amount else 0)
  }

  lemma {:induction false} PendingUpdate(jobs: seq<Job>, phases: seq<Phase>, i: nat, phase: Phase)
    requires |jobs| == |phases| && i < |jobs|
    ensures Pending(jobs, phases[i := phase]) == Pending(jobs, phases)
              - (if phases[i] == InFlight then jobs[i].amount else 0)
              + (if phase == InFlight then jobs[i].amount else 0)
  {
    var last := |jobs| - 1;
    if i == last {
      assert phases[i := phase][..last] == phases[..last];
    } else {
      PendingUpdate(jobs[..last], phases[..last], i, phase);
      assert phases[i := phase][..last] == phases[..last][i := phase];
    }
  }

  ghost predicate LockersPay(jobs: seq<Job>, phases: seq<Phase>)
    requires |jobs| == |phases|
  {
    forall i | 0 <= i < |jobs| && phases[i] == InFlight :: jobs[i].amount >= 0
  }

  lemma {:induction false} PendingIsNonNegative(jobs: seq<Job>, phases: seq<Phase>)
    requires |jobs| == |phases| && LockersPay(jobs, phases)
    ensures Pending(jobs, phases) >= 0
  {
    if jobs != [] {
      PendingIsNonNegative(jobs[..|jobs| - 1], phases[..|jobs| - 1]);
    }
  }

  lemma PendingCoversMember(jobs: seq<Job>, phases: seq<Phase>, i: nat)
    requires |jobs| == |phases| && LockersPay(jobs, phases) && i < |jobs| && phases[i] == InFlight
    ensures Pending(jobs, phases) >= jobs[i].amount
  {
    PendingUpdate(jobs, phases, i, Waiting);
    PendingIsNonNegative(jobs, phases[i := Waiting]);
  }

  ghost predicate MoneyFits(total: int, s: State, jobs: seq<Job>)
    requires |s.phases| == |jobs|
  {
    NonNegative(s.balances) && Total(s.balances) + Pending(jobs, s.phases) == total
  }

  /** A schedule leaves the money, in accounts and in flight, what it was. */
  ghost predicate Conserves(balances: Balances, jobs: seq<Job>, schedule: seq<nat>)
    requires AllSound(balances, jobs) && IsSchedule(jobs, schedule)
  {
    var s := After(balances, jobs, schedule);
    Total(s.balances) + Pending(jobs, s.phases) == Total(balances)
  }

  lemma StepKeepsMoney(total: int, s: State, jobs: seq<Job>, i: nat)
    requires |s.phases| == |jobs| && i < |jobs| && AllSound(s.balances, jobs) && InRange(jobs)
    requires MoneyFits(total, s, jobs) && total <= Int64.MAX && LockersPay(jobs, s.phases)
    requires s.phases[i] == HasBoth || s.phases[i] == InFlight ==> Locks(jobs[i])
    ensures MoneyFits(total, Moved(s, jobs[i], i), jobs)
  {
    var s', job := Moved(s, jobs[i], i), jobs[i];
    PendingUpdate(jobs, s.phases, i, s'.phases[i]);
    assert s'.phases == s.phases[i := s'.phases[i]];
    PendingIsNonNegative(jobs, s.phases);
    if s.phases[i] == HasBoth && CanPay(s.balances, job) {
      TotalCoversMember(s.balances, job.from);
      TotalUpdate(s.balances, job.from, Int64.Wrap(s.balances[job.from] - job.amount));
    } else if s.phases[i] == InFlight {
      PendingCoversMember(jobs, s.phases, i);
      TotalCoversMember(s.balances, job.to);
      TotalUpdate(s.balances, job.to, Int64.Wrap(s.balances[job.to] + job.amount));
    }
  }

  /** From non-negative balances whose sum is an int64, every schedule keeps every balance
      non-negative and the money, in accounts and in flight, the same. */
  lemma {:induction false} MoneyIsConserved(balances: Balances, jobs: seq<Job>, schedule: seq<nat>)
    requires AllSound(balances, jobs) && IsSchedule(jobs, schedule) && InRange(jobs)
    requires NonNegative(balances) && Total(balances) <= Int64.MAX
    ensures MoneyFits(Total(balances), After(balances, jobs, schedule), jobs)
  {
    if schedule == [] {
      NothingPending(jobs, After(balances, jobs, schedule).phases);
    } else {
      var earlier, i := schedule[..|schedule| - 1], schedule[|schedule| - 1];
      MoneyIsConserved(balances, jobs, earlier);
      LocksAlwaysFit(balances, jobs, earlier);
      var s := After(balances, jobs, earlier);
      forall j | 0 <= j < |jobs| && HoldsFirst(s.phases[j])
        ensures Locks(jobs[j])
      {
        assert ThreadFits(s.owner, j, jobs[j], s.phases[j]);
      }
      if CanStep(s, jobs[i], i) {
        StepKeepsMoney(Total(balances), s, jobs, i);
      }
    }
  }

  lemma {:induction false} NothingPending(jobs: seq<Job>, phases: seq<Phase>)
    requires |jobs| == |phases| && forall i | 0 <= i < |jobs| :: phases[i] != InFlight
    ensures Pending(jobs, phases) == 0
  {
    if jobs != [] {
      NothingPending(jobs[..|jobs| - 1], phases[..|jobs| - 1]);
    }
  }

  // ---------------------------------------------------------------- exactly when balances are safe

  function Turn(s: State, job: Job, i: nat): (s': State)
    requires i < |s.phases| && IsSound(s.balances, job)
    ensures |s'.phases| == |s.phases| && IsSound(s'.balances, job)
  {
    if CanStep(s, job, i) then Moved(s, job, i) else s
  }

  function Turns(s: State, job: Job, i: nat, n: nat): (s': State)
    requires i < |s.phases| && IsSound(s.balances, job)
    ensures |s'.phases| == |s.phases| && IsSound(s'.balances, job)
  {
    if n == 0 then s else Turn(Turns(s, job, i, n - 1), job, i)
  }

  function Repeated(i: nat, n: nat): (r: seq<nat>)
    ensures |r| == n && forall t | 0 <= t < n :: r[t] == i
  {
    seq(n, _ => i)
  }

  lemma AfterOneMore(balances: Balances, jobs: seq<Job>, schedule: seq<nat>, i: nat)
    requires AllSound(balances, jobs) && IsSchedule(jobs, schedule) && i < |jobs|
    ensures IsSchedule(jobs, schedule + [i])
    ensures After(balances, jobs, schedule + [i]) == Turn(After(balances, jobs, schedule), jobs[i], i)
  {
    assert (schedule + [i])[..|schedule|] == schedule;
  }

  lemma {:induction false} AfterTurns(balances: Balances, jobs: seq<Job>, schedule: seq<nat>, i: nat, n: nat)
    requires AllSound(balances, jobs) && IsSchedule(jobs, schedule) && i < |jobs|
    ensures IsSchedule(jobs, schedule + Repeated(i, n))
    ensures After(balances, jobs, schedule + Repeated(i, n)) == Turns(After(balances, jobs, schedule), jobs[i], i, n)
  {
    if n == 0 {
      assert schedule + Repeated(i, n) == schedule;
    } else {
      AfterTurns(balances, jobs, schedule, i, n - 1);
      var most := schedule + Repeated(i, n - 1);
      assert schedule + Repeated(i, n) == most + [i];
      AfterOneMore(balances, jobs, most, i);
    }
  }

  function Locked(s: State, job: Job, i: nat): State
    requires i < |s.phases|
  {
    s.(owner := map[First(job) := i, Second(job) := i], phases := s.phases[i := HasBoth])
  }

  function Report(m: Balances, job: Job): Outcome
    requires IsSound(m, job)
  {
    if CanPay(m, job) then Success else InsufficientFunds
  }

  /** What a whole transfer leaves behind. */
  function Whole(s: State, job: Job, i: nat): State
    requires i < |s.phases| && IsSound(s.balances, job)
  {
    State(Applied(s.balances, job), map[], s.phases[i := Finished(Report(s.balances, job))], s.order + [i])
  }

  lemma TwoTurnsLock(s: State, job: Job, i: nat)
    requires i < |s.phases| && IsSound(s.balances, job) && Locks(job)
    requires s.owner == map[] && s.phases[i] == Waiting
    ensures Turn(Turn(s, job, i), job, i) == Locked(s, job, i)
  {
    OrderOfLocks(job);
  }

  /** Four more turns finish; a refused transfer needs only three of them. */
  lemma FourTurnsFinish(s: State, job: Job, i: nat)
    requires i < |s.phases| && IsSound(s.balances, job) && Locks(job)
    requires s.owner == map[] && s.phases[i] == Waiting
    ensures Turn(Turn(Turn(Turn(Locked(s, job, i), job, i), job, i), job, i), job, i) == Whole(s, job, i)
  {
    OrderOfLocks(job);
    var l := Locked(s, job, i);
    assert l.owner - {Second(job)} - {First(job)} == map[];
    var t := Turn(l, job, i);
    if CanPay(s.balances, job) {
      assert t.phases == s.phases[i := InFlight];
    } else {
      assert t.phases == s.phases[i := Unlocking(InsufficientFunds)];
    }
  }

  lemma SixTurns(s: State, job: Job, i: nat)
    requires i < |s.phases| && IsSound(s.balances, job) && Locks(job)
    requires s.owner == map[] && s.phases[i] == Waiting
    ensures Turns(s, job, i, 6) == Whole(s, job, i)
  {
    TwoTurnsLock(s, job, i);
    assert Turns(s, job, i, 2) == Turn(Turns(s, job, i, 1), job, i) == Locked(s, job, i);
    FourTurnsFinish(s, job, i);
    assert Turns(s, job, i, 4) == Turn(Turns(s, job, i, 3), job, i);
  }

  /** A thread that meets no other carries out the whole transfer. */
  lemma RunsAlone(balances: Balances, jobs: seq<Job>, schedule: seq<nat>, i: nat)
    requires AllSound(balances, jobs) && IsSchedule(jobs, schedule) && i < |jobs| && Locks(jobs[i])
    requires After(balances, jobs, schedule).owner == map[]
    requires After(balances, jobs, schedule).phases[i] == Waiting
    ensures IsSchedule(jobs, schedule + Repeated(i, 6))
    ensures After(balances, jobs, schedule + Repeated(i, 6)) == Whole(After(balances, jobs, schedule), jobs[i], i)
  {
    AfterTurns(balances, jobs, schedule, i, 6);
    SixTurns(After(balances, jobs, schedule), jobs[i], i);
  }

  ghost function SumOf(m: Balances, keys: seq<string>): int
    requires forall k | 0 <= k < |keys| :: keys[k] in m
  {
    if keys == [] then 0 else SumOf(m, keys[..|keys| - 1]) + m[keys[|keys| - 1]]
  }

  lemma {:induction false} SumOfOthers(m: Balances, without: string, keys: seq<string>)
    requires forall k | 0 <= k < |keys| :: keys[k] in m && keys[k] != without
    ensures SumOf(m, keys) == SumOf(m - {without}, keys)
  {
    if keys != [] {
      SumOfOthers(m, without, keys[..|keys| - 1]);
    }
  }

  lemma {:induction false} Enumerate(m: Balances) returns (keys: seq<string>)
    ensures forall k | 0 <= k < |keys| :: keys[k] in m
    ensures AreDistinct(keys) && SumOf(m, keys) == Total(m)
    decreases |m|
  {
    keys := [];
    if m != map[] {
      var last :| last in m;
      TotalRemove(m, last);
      var rest := Enumerate(m - {last});
      keys := rest + [last];
      assert keys[..|rest|] == rest;
      SumOfOthers(m, last, rest);
    }
  }

  /** Every account after the first sends its whole balance to the first. */
  function Collection(m: Balances, keys: seq<string>): seq<Job>
    requires |keys| >= 1 && forall k | 0 <= k < |keys| :: keys[k] in m
  {
    seq(|keys| - 1, (i: nat) requires i < |keys| - 1 => Job(keys[i + 1], keys[0], m[keys[i + 1]]))
  }

  function OneByOne(threads: nat): (schedule: seq<nat>)
    ensures forall t | 0 <= t < |schedule| :: schedule[t] < threads
  {
    if threads == 0 then []
    else
      var i := threads - 1;
      OneByOne(i) + Repeated(i, 6)
  }

  lemma {:induction false} SumIsNonNegative(m: Balances, keys: seq<string>)
    requires NonNegative(m) && forall k | 0 <= k < |keys| :: keys[k] in m
    ensures SumOf(m, keys) >= 0
  {
    if keys != [] {
      SumIsNonNegative(m, keys[..|keys| - 1]);
    }
  }

  ghost predicate Gathered(m: Balances, keys: seq<string>, done: nat, s: State)
    requires done < |keys| && forall k | 0 <= k < |keys| :: keys[k] in m
  {
    && |s.phases| == |keys| - 1 && s.owner == map[] && s.balances.Keys == m.Keys
    && s.balances[keys[0]] == Int64.Wrap(SumOf(m, keys[..done + 1]))
    && (forall i | done <= i < |keys| - 1 :: s.phases[i] == Waiting)
    && (forall i | 0 <= i < |keys| - 1 :: s.phases[i] != InFlight)
    && (forall k | done < k < |keys| :: s.balances[keys[k]] == m[keys[k]])
  }

  /** What wrap-around has taken away from the money so far. */
  ghost predicate Lost(m: Balances, keys: seq<string>, done: nat, s: State)
    requires done < |keys| && forall k | 0 <= k < |keys| :: keys[k] in m
  {
    var sum := SumOf(m, keys[..done + 1]);
    Total(s.balances) == Total(m) + Int64.Wrap(sum) - sum
  }

  /** A whole transfer that can be paid changes the money only by the credit's wrap-around. */
  lemma WholeTotal(m: Balances, job: Job)
    requires IsSound(m, job) && job.from != job.to && CanPay(m, job) && 0 <= job.amount <= m[job.from] <= Int64.MAX
    ensures Total(Applied(m, job)) == Total(m) + Int64.Wrap(m[job.to] + job.amount) - (m[job.to] + job.amount)
  {
    var paid, got := m[job.from] - job.amount, Int64.Wrap(m[job.to] + job.amount);
    assert Debited(m, job) == m[job.from := paid];
    TotalUpdate(m, job.from, paid);
    var debited := m[job.from := paid];
    assert Applied(m, job) == debited[job.to := got];
    TotalUpdate(debited, job.to, got);
  }

  lemma LosesOneMore(m: Balances, keys: seq<string>, done: nat, s: State)
    requires NonNegative(m) && AreDistinct(keys) && done + 1 < |keys|
    requires forall k | 0 <= k < |keys| :: keys[k] in m && m[keys[k]] <= Int64.MAX
    requires Gathered(m, keys, done, s) && Lost(m, keys, done, s) && SumOf(m, keys[..done + 1]) <= Int64.MAX
    ensures Lost(m, keys, done + 1, Whole(s, Collection(m, keys)[done], done))
  {
    var job := Collection(m, keys)[done];
    SumIsNonNegative(m, keys[..done + 1]);
    assert keys[..done + 2][..done + 1] == keys[..done + 1];
    assert s.balances[job.from] == job.amount;
    WholeTotal(s.balances, job);
  }

  lemma GathersOneMore(m: Balances, keys: seq<string>, done: nat, s: State)
    requires NonNegative(m) && AreDistinct(keys) && done + 1 < |keys|
    requires forall k | 0 <= k < |keys| :: keys[k] in m && m[keys[k]] <= Int64.MAX
    requires Gathered(m, keys, done, s) && SumOf(m, keys[..done + 1]) <= Int64.MAX
    ensures Gathered(m, keys, done + 1, Whole(s, Collection(m, keys)[done], done))
  {
    var job := Collection(m, keys)[done];
    SumIsNonNegative(m, keys[..done + 1]);
    assert keys[..done + 2][..done + 1] == keys[..done + 1];
    assert SumOf(m, keys[..done + 2]) == SumOf(m, keys[..done + 1]) + job.amount;
    assert s.balances[job.from] == job.amount && CanPay(s.balances, job);
  }

  /** While the collected sum fits, it is what the first account holds. */
  lemma {:induction false} CollectionGathers(m: Balances, keys: seq<string>, done: nat)
    requires NonNegative(m) && AreDistinct(keys) && done < |keys|
    requires forall k | 0 <= k < |keys| :: keys[k] in m && m[keys[k]] <= Int64.MAX
    requires SumOf(m, keys[..done]) <= Int64.MAX
    ensures IsSchedule(Collection(m, keys), OneByOne(done))
    ensures Gathered(m, keys, done, After(m, Collection(m, keys), OneByOne(done)))
    ensures Lost(m, keys, done, After(m, Collection(m, keys), OneByOne(done)))
  {
    assert keys[..done + 1][..done] == keys[..done];
    if done > 0 {
      assert keys[..done][..done - 1] == keys[..done - 1];
      CollectionGathers(m, keys, done - 1);
      RunsAlone(m, Collection(m, keys), OneByOne(done - 1), done - 1);
      GathersOneMore(m, keys, done - 1, After(m, Collection(m, keys), OneByOne(done - 1)));
      LosesOneMore(m, keys, done - 1, After(m, Collection(m, keys), OneByOne(done - 1)));
    }
  }

  /** The first account to be sent more than it can hold. */
  lemma {:induction false} FirstOverflow(m: Balances, keys: seq<string>) returns (done: nat)
    requires forall k | 0 <= k < |keys| :: keys[k] in m && m[keys[k]] <= Int64.MAX
    requires SumOf(m, keys) > Int64.MAX
    ensures done < |keys| && SumOf(m, keys[..done]) <= Int64.MAX < SumOf(m, keys[..done + 1])
  {
    var last := |keys| - 1;
    if SumOf(m, keys[..last]) <= Int64.MAX {
      assert keys[..last + 1] == keys;
      return last;
    }
    done := FirstOverflow(m, keys[..last]);
    assert keys[..last][..done] == keys[..done] && keys[..last][..done + 1] == keys[..done + 1];
  }

  lemma OverflowIsNegative(m: Balances, keys: seq<string>, done: nat)
    requires done < |keys| && forall k | 0 <= k < |keys| :: keys[k] in m && m[keys[k]] <= Int64.MAX
    requires SumOf(m, keys[..done]) <= Int64.MAX < SumOf(m, keys[..done + 1])
    ensures Int64.Wrap(SumOf(m, keys[..done + 1])) < 0
  {
    assert keys[..done + 1][..done] == keys[..done];
  }

  lemma LargeTotalsOverflow(m: Balances) returns (jobs: seq<Job>, schedule: seq<nat>)
    requires NonNegative(m) && Total(m) > Int64.MAX
    requires forall a | a in m :: m[a] <= Int64.MAX
    ensures AllSound(m, jobs) && IsSchedule(jobs, schedule) && InRange(jobs)
    ensures !NonNegative(After(m, jobs, schedule).balances) && !Conserves(m, jobs, schedule)
  {
    var keys := Enumerate(m);
    var done := FirstOverflow(m, keys);
    jobs, schedule := Collection(m, keys), OneByOne(done);
    CollectionGathers(m, keys, done);
    OverflowIsNegative(m, keys, done);
    assert After(m, jobs, schedule).balances[keys[0]] < 0;
    NothingPending(jobs, After(m, jobs, schedule).phases);
  }

  /** One unit sent to a full account turns its balance negative and loses 2^64 units. */
  lemma OverflowExample()
    ensures var m, jobs, schedule := map["a" := Int64.MAX, "b" := 1], [Job("b", "a", 1)], Repeated(0, 6);
            && AllSound(m, jobs) && IsSchedule(jobs, schedule)
            && After(m, jobs, schedule).balances["a"] == -Int64.TWO63 && !Conserves(m, jobs, schedule)
  {
    var m, jobs := map["a" := Int64.MAX, "b" := 1], [Job("b", "a", 1)];
    assert [] + Repeated(0, 6) == Repeated(0, 6);
    RunsAlone(m, jobs, [], 0);
    WholeTotal(m, jobs[0]);
    NothingPending(jobs, After(m, jobs, Repeated(0, 6)).phases);
  }

  /** Opening balances are safe under all transfers and all schedules exactly when their sum is
      an int64, and money is conserved under all of them exactly then: no check guards the
      credit. */
  lemma SafeIffTotalFits(balances: Balances)
    requires NonNegative(balances) && forall a | a in balances :: balances[a] <= Int64.MAX
    ensures (forall jobs, schedule | AllSound(balances, jobs) && IsSchedule(jobs, schedule) && InRange(jobs) ::
               NonNegative(After(balances, jobs, schedule).balances))
            <==> Total(balances) <= Int64.MAX
    ensures (forall jobs, schedule | AllSound(balances, jobs) && IsSchedule(jobs, schedule) && InRange(jobs) ::
               Conserves(balances, jobs, schedule))
            <==> Total(balances) <= Int64.MAX
  {
    if Total(balances) <= Int64.MAX {
      forall jobs, schedule | AllSound(balances, jobs) && IsSchedule(jobs, schedule) && InRange(jobs)
        ensures NonNegative(After(balances, jobs, schedule).balances) && Conserves(balances, jobs, schedule)
      {
        MoneyIsConserved(balances, jobs, schedule);
      }
    } else {
      var jobs, schedule := LargeTotalsOverflow(balances);
    }
  }
}
