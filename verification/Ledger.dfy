/** Accounts and transfers under ordered locking (fintech-ledger-go/internal/ledger/account.go),
    first one call at a time, then as the lock and unlock steps of any number of threads.
    Amounts are int64 paise; account IDs are distinct. */
module Ledger {
  import opened Text
  import Int64

  datatype Outcome = Success | NegativeAmount | SameAccount | InsufficientFunds

  class Account {
    const id: string
    var balance: int

    constructor (id: string, opening: int)
      ensures this.id == id && balance == opening
    {
      this.id := id;
      balance := opening;
    }

    method Debit(amount: int) returns (o: Outcome)
      modifies this`balance
      ensures o == if amount < 0 then NegativeAmount
                   else if Int64.Wrap(old(balance) - amount) < 0 then InsufficientFunds else Success
      ensures balance == if o == Success then Int64.Wrap(old(balance) - amount) else old(balance)
    {
      if amount < 0 {
        return NegativeAmount;
      }
      o := DebitLocked(amount);
    }

    method Credit(amount: int) returns (o: Outcome)
      modifies this`balance
      ensures o == if amount < 0 then NegativeAmount else Success
      ensures balance == if o == Success then Int64.Wrap(old(balance) + amount) else old(balance)
    {
      if amount < 0 {
        return NegativeAmount;
      }
      balance := Int64.Wrap(balance + amount);
      o := Success;
    }

    method DebitLocked(amount: int) returns (o: Outcome)
      modifies this`balance
      ensures o == if Int64.Wrap(old(balance) - amount) < 0 then InsufficientFunds else Success
      ensures balance == if o == Success then Int64.Wrap(old(balance) - amount) else old(balance)
    {
      if Int64.Wrap(balance - amount) < 0 {
        return InsufficientFunds;
      }
      balance := Int64.Wrap(balance - amount);
      o := Success;
    }
  }

  /** One transfer on its own: the money moves or nothing does.  From non-negative balances a
      successful transfer keeps both non-negative and their sum the same exactly when the
      receiving balance does not overflow. */
  method Transfer(from: Account, to: Account, amount: int) returns (o: Outcome)
    modifies from`balance, to`balance
    ensures o == if amount < 0 then NegativeAmount
                 else if from.id == to.id then SameAccount
                 else if Int64.Wrap(old(from.balance) - amount) < 0 then InsufficientFunds
                 else Success
    ensures o != Success ==> from.balance == old(from.balance) && to.balance == old(to.balance)
    ensures o == Success ==> from.balance == Int64.Wrap(old(from.balance) - amount) >= 0
    ensures o == Success ==> to.balance == Int64.Wrap(old(to.balance) + amount)
    ensures && o == Success && amount <= Int64.MAX
            && 0 <= old(from.balance) <= Int64.MAX && 0 <= old(to.balance) <= Int64.MAX ==>
            ((to.balance >= 0 && from.balance + to.balance == old(from.balance + to.balance))
              <==> old(to.balance) + amount <= Int64.MAX)
  {
    if amount < 0 {
      return NegativeAmount;
    }
    if from.id == to.id {
      return SameAccount;
    }
    o := from.DebitLocked(amount);
    if o != Success {
      return;
    }
    to.balance := Int64.Wrap(to.balance + amount);
  }

  // ---------------------------------------------------------------- transfers one at a time

  type Balances = map<string, int>

  datatype Job = Job(from: string, to: string, amount: int)

  predicate IsSound(m: Balances, job: Job) {
    job.from in m && job.to in m
  }

  /** A transfer that gets past the checks made before any lock is taken. */
  predicate Locks(job: Job) {
    job.amount >= 0 && job.from != job.to
  }

  predicate CanPay(m: Balances, job: Job)
    requires job.from in m
  {
    Int64.Wrap(m[job.from] - job.amount) >= 0
  }

  function Debited(m: Balances, job: Job): Balances
    requires job.from in m
  {
    m[job.from := Int64.Wrap(m[job.from] - job.amount)]
  }

  function Credited(m: Balances, job: Job): Balances
    requires job.to in m
  {
    m[job.to := Int64.Wrap(m[job.to] + job.amount)]
  }

  /** What one whole transfer does. */
  function Applied(m: Balances, job: Job): Balances
    requires IsSound(m, job)
  {
    if CanPay(m, job) then Credited(Debited(m, job), job) else m
  }

  // ---------------------------------------------------------------- threads

  /** Where a thread is in its transfer.  The account with the smaller ID is locked first and
      unlocked last. */
  datatype Phase =
    | Waiting                      // holds nothing
    | HasFirst                     // holds the first lock
    | HasBoth                      // holds both, nothing moved yet
    | InFlight                     // debited, not yet credited
    | Unlocking(o: Outcome)        // done, still holds both
    | KeepsFirst(o: Outcome)       // has released the second lock
    | Finished(o: Outcome)

  function First(job: Job): string {
    if Less(job.to, job.from) then job.to else job.from
  }

  function Second(job: Job): string {
    if Less(job.to, job.from) then job.from else job.to
  }

  /** `order` lists the threads whose transfer has been decided, in the order of their debits. */
  datatype State = State(balances: Balances, owner: map<string, nat>, phases: seq<Phase>, order: seq<nat>)

  function Start(balances: Balances, threads: nat): State {
    State(balances, map[], seq(threads, _ => Waiting), [])
  }

  ghost predicate AllSound(balances: Balances, jobs: seq<Job>) {
    forall i | 0 <= i < |jobs| :: IsSound(balances, jobs[i])
  }

  predicate CanStep(s: State, job: Job, i: nat)
    requires i < |s.phases|
  {
    && !s.phases[i].Finished?
    && (s.phases[i] == Waiting && Locks(job) ==> First(job) !in s.owner)
    && (s.phases[i] == HasFirst ==> Second(job) !in s.owner)
  }

  function Moved(s: State, job: Job, i: nat): State
    requires i < |s.phases| && IsSound(s.balances, job)
  {
    match s.phases[i]
    case Waiting =>
      if job.amount < 0 then s.(phases := s.phases[i := Finished(NegativeAmount)])
      else if job.from == job.to then s.(phases := s.phases[i := Finished(SameAccount)])
      else s.(phases := s.phases[i := HasFirst], owner := s.owner[First(job) := i])
    case HasFirst => s.(phases := s.phases[i := HasBoth], owner := s.owner[Second(job) := i])
    case HasBoth =>
      if CanPay(s.balances, job) then
        s.(phases := s.phases[i := InFlight], balances := Debited(s.balances, job), order := s.order + [i])
      else s.(phases := s.phases[i := Unlocking(InsufficientFunds)], order := s.order + [i])
    case InFlight => s.(phases := s.phases[i := Unlocking(Success)], balances := Credited(s.balances, job))
    case Unlocking(o) => s.(phases := s.phases[i := KeepsFirst(o)], owner := s.owner - {Second(job)})
    case KeepsFirst(o) => s.(phases := s.phases[i := Finished(o)], owner := s.owner - {First(job)})
    case Finished(_) => s
  }

  /** Thread `i` takes its next step if it can. */
  function Step(s: State, jobs: seq<Job>, i: nat): State
    requires |s.phases| == |jobs| && i < |jobs| && AllSound(s.balances, jobs)
  {
    if CanStep(s, jobs[i], i) then Moved(s, jobs[i], i) else s
  }

  lemma StepKeepsShape(s: State, jobs: seq<Job>, i: nat)
    requires |s.phases| == |jobs| && i < |jobs| && AllSound(s.balances, jobs)
    ensures var s' := Step(s, jobs, i);
            |s'.phases| == |jobs| && s'.balances.Keys == s.balances.Keys
  {
  }

  /** The state after a schedule: the threads that moved, in order. */
  ghost function After(balances: Balances, jobs: seq<Job>, schedule: seq<nat>): (s: State)
    requires AllSound(balances, jobs) && forall t | 0 <= t < |schedule| :: schedule[t] < |jobs|
    ensures |s.phases| == |jobs| && s.balances.Keys == balances.Keys
  {
    if schedule == [] then Start(balances, |jobs|)
    else
      var before := After(balances, jobs, schedule[..|schedule| - 1]);
      StepKeepsShape(before, jobs, schedule[|schedule| - 1]);
      Step(before, jobs, schedule[|schedule| - 1])
  }
}
