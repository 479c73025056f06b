/** Whole runs of the virtual queue (ttd/internal/queue/service.go, booking_store.go): scripts,
    bookings, recoveries and sweeps of any number of workers, interleaved in any way, with
    crashes and restarts.

    A worker between two scripts is a task: what it read, and what it is about to do.  Tasks are
    kept until a restart, so a worker may act late, act twice, or never act again. */
module QueueRuns {
  import opened TicketQueue

  datatype Task =
    | SawHeld(hold: Hold)            // read a held hold and is about to confirm it
    | ToPersist(hold: Hold)          // read, or just made, a confirming hold
    | ToFinalize(hold: Hold)         // recorded the booking
    | ToRelease(id: string, asOf: int)  // found the ID due at `asOf` milliseconds

  datatype World = World(redis: Redis, log: Log, tasks: set<Task>, issued: set<string>, clock: int)

  datatype Step =
    | SetCapacity(slot: string, capacity: int)
    | Create(slot: string, visitorID: string, ttl: int, id: string, readAt: int)
    | Look(id: string)
    | Confirm(hold: Hold, checkedAt: int, confirmedAt: int, readAt: int)
    | Persist(hold: Hold)
    | Finalize(hold: Hold)
    | Scan(asOf: int)
    | Release(id: string, asOf: int)
    | Evict(id: string)
    | Tick(time: int)
    | Restart

  function Start(clock: int): World {
    World(FLUSHED, Log([], {}), {}, {}, clock)
  }

  /** Clock readings were taken at or before the step that uses them. */
  predicate Enabled(w: World, step: Step) {
    match step
    case SetCapacity(slot, capacity) => slot != "" && capacity >= 0
    case Create(slot, visitorID, ttl, id, readAt) =>
      slot != "" && visitorID != "" && ttl > 0 && id !in w.issued && readAt <= w.clock
    case Look(id) => id in w.redis.holds
    case Confirm(hold, checkedAt, confirmedAt, readAt) =>
      SawHeld(hold) in w.tasks && checkedAt < hold.expiresAt && checkedAt <= confirmedAt <= readAt <= w.clock
    case Persist(hold) => ToPersist(hold) in w.tasks && hold.confirmedAt != ZERO_TIME
    case Finalize(hold) => ToFinalize(hold) in w.tasks
    case Scan(asOf) => asOf <= w.clock
    case Release(id, asOf) => ToRelease(id, asOf) in w.tasks
    case Evict(id) => HasStatus(w.redis, id, Expired)
    case Tick(time) => w.clock <= time
    case Restart => true
  }

  /** What a worker that read a hold goes on to do. */
  function TasksAfterLook(h: Hold): set<Task> {
    match h.status
    case Held => {SawHeld(h)}
    case Expired => {}
    case _ => {ToPersist(h)}
  }

  function Exec(w: World, step: Step): World {
    if !Enabled(w, step) then w
    else match step
      case SetCapacity(slot, capacity) => w.(redis := w.redis.(capacity := w.redis.capacity[slot := capacity]))
      case Create(slot, visitorID, ttl, id, readAt) =>
        w.(redis := Created(w.redis, id, slot, visitorID, readAt + ttl), issued := w.issued + {id})
      case Look(id) => w.(tasks := w.tasks + TasksAfterLook(w.redis.holds[id]))
      case Confirm(hold, _, confirmedAt, readAt) =>
        if CanConfirm(w.redis, hold.id, Millis(readAt)) then
          w.(redis := ConfirmBegun(w.redis, hold.id, Millis(readAt), confirmedAt),
             tasks := w.tasks + {ToPersist(hold.(status := Confirming, confirmedAt := confirmedAt))})
        else w
      case Persist(hold) =>
        w.(log := Recorded(w.log, BookingOf(hold)),
           tasks := if hold.status == Confirmed then w.tasks else w.tasks + {ToFinalize(hold)})
      case Finalize(hold) => w.(redis := Finalized(w.redis, hold.id))
      case Scan(asOf) =>
        w.(tasks := w.tasks + (set id | id in w.redis.deadlines && w.redis.deadlines[id] <= Millis(asOf) ::
                                 ToRelease(id, Millis(asOf))))
      case Release(id, _) => w.(redis := Released(w.redis, id))
      case Evict(id) => w.(redis := w.redis.(holds := w.redis.holds - {id}))
      case Tick(time) => w.(clock := time)
      case Restart => w.(tasks := {}, log := Log(w.log.entries, HoldIDs(w.log.entries)))
  }

  function After(start: int, run: seq<Step>, k: nat): World
    requires k <= |run|
  {
    if k == 0 then Start(start) else Exec(After(start, run, k - 1), run[k - 1])
  }

  // ---------------------------------------------------------------- the invariant

  type Holds = map<string, Hold>
  type Scores = map<string, int>

  predicate IsBooked(status: Status) {
    status == Confirming || status == Confirmed
  }

  /** One hold against the two indexes and the log. */
  predicate HoldFits(id: string, h: Hold, deadlines: Scores, pending: Scores, seen: set<string>) {
    && h.id == id
    && (h.status == Held <==> id in deadlines)
    && (h.status == Held ==> deadlines[id] == Millis(h.expiresAt))
    && (h.status == Confirming <==> id in pending)
    && (h.status == Confirmed ==> id in seen)
    && (id in seen ==> IsBooked(h.status))
  }

  ghost predicate HoldsFit(holds: Holds, deadlines: Scores, pending: Scores, seen: set<string>) {
    && (forall id | id in holds :: HoldFits(id, holds[id], deadlines, pending, seen))
    && deadlines.Keys <= holds.Keys && pending.Keys <= holds.Keys
  }

  /** The log: indexed exactly, one entry per hold, each entry what its hold says. */
  ghost predicate LogFits(holds: Holds, log: Log) {
    && log.seen == HoldIDs(log.entries)
    && (forall i, j | 0 <= i < j < |log.entries| :: log.entries[i].holdID != log.entries[j].holdID)
    && (forall i | 0 <= i < |log.entries| :: EntryFits(holds, log.entries[i]))
  }

  predicate EntryFits(holds: Holds, b: Booking) {
    b.holdID in holds && b == BookingOf(holds[b.holdID])
  }

  predicate CountsFor(h: Hold, slot: string) {
    h.slot == slot && h.status != Expired
  }

  ghost function Active(holds: Holds, slot: string): set<string> {
    set id | id in holds && CountsFor(holds[id], slot)
  }

  ghost predicate UsedFits(holds: Holds, used: Scores) {
    forall slot: string :: Get(used, slot, 0) == |Active(holds, slot)|
  }

  predicate TaskFits(holds: Holds, deadlines: Scores, seen: set<string>, issued: set<string>, clock: int, task: Task) {
    match task
    case SawHeld(h) =>
      && h.id in issued && h.status == Held
      && (h.id in holds ==> holds[h.id] == h.(status := holds[h.id].status, confirmedAt := holds[h.id].confirmedAt))
    case ToPersist(h) =>
      && h.id in holds && IsBooked(holds[h.id].status) && IsBooked(h.status)
      && holds[h.id] == h.(status := holds[h.id].status)
      && (h.status == Confirmed ==> h.id in seen)
    case ToFinalize(h) => h.id in seen
    case ToRelease(id, asOf) =>
      id in issued && asOf <= Millis(clock) && (id in deadlines ==> deadlines[id] <= asOf)
  }

  ghost predicate TasksFit(w: World) {
    forall task | task in w.tasks ::
      TaskFits(w.redis.holds, w.redis.deadlines, w.log.seen, w.issued, w.clock, task)
  }

  ghost predicate Inv(w: World) {
    && HoldsFit(w.redis.holds, w.redis.deadlines, w.redis.pending, w.log.seen)
    && LogFits(w.redis.holds, w.log)
    && UsedFits(w.redis.holds, w.redis.used)
    && TasksFit(w)
    && w.redis.holds.Keys <= w.issued
  }

  // ---------------------------------------------------------------- counting

  /** How rewriting one hold changes the number of active holds of a slot. */
  lemma ActiveAfter(holds: Holds, id: string, h: Hold, slot: string)
    ensures |Active(holds[id := h], slot)| == |Active(holds, slot)|
              - (if id in holds && CountsFor(holds[id], slot) then 1 else 0)
              + (if CountsFor(h, slot) then 1 else 0)
  {
    ActiveElsewhere(holds, id, h, slot);
    CardinalityWithout(Active(holds, slot), id);
    CardinalityWithout(Active(holds[id := h], slot), id);
  }

  lemma ActiveElsewhere(holds: Holds, id: string, h: Hold, slot: string)
    ensures Active(holds[id := h], slot) - {id} == Active(holds, slot) - {id}
  {
  }

  lemma CardinalityWithout(s: set<string>, id: string)
    ensures |s| == |s - {id}| + (if id in s then 1 else 0)
  {
    assert id !in s ==> s - {id} == s;
  }

  lemma SameActive(holds: Holds, id: string, h: Hold, used: Scores)
    requires UsedFits(holds, used) && id in holds && h.slot == holds[id].slot
    requires h.status != Expired && holds[id].status != Expired
    ensures UsedFits(holds[id := h], used)
  {
    forall slot: string
      ensures Get(used, slot, 0) == |Active(holds[id := h], slot)|
    {
      ActiveAfter(holds, id, h, slot);
    }
  }

  lemma CreateCounts(holds: Holds, id: string, h: Hold, used: Scores)
    requires UsedFits(holds, used) && id !in holds && h.status == Held
    ensures UsedFits(holds[id := h], used[h.slot := Get(used, h.slot, 0) + 1])
  {
    var more := used[h.slot := Get(used, h.slot, 0) + 1];
    forall slot: string
      ensures Get(more, slot, 0) == |Active(holds[id := h], slot)|
    {
      ActiveAfter(holds, id, h, slot);
    }
  }

  lemma ReleaseCounts(holds: Holds, id: string, used: Scores)
    requires UsedFits(holds, used) && id in holds && holds[id].status != Expired
    ensures var slot := holds[id].slot;
            UsedFits(holds[id := holds[id].(status := Expired)], used[slot := Get(used, slot, 0) - 1])
  {
    var h := holds[id].(status := Expired);
    var fewer := used[h.slot := Get(used, h.slot, 0) - 1];
    forall slot: string
      ensures Get(fewer, slot, 0) == |Active(holds[id := h], slot)|
    {
      ActiveAfter(holds, id, h, slot);
    }
  }

  lemma EvictCounts(holds: Holds, id: string, used: Scores)
    requires UsedFits(holds, used) && id in holds && holds[id].status == Expired
    ensures UsedFits(holds - {id}, used)
  {
    forall slot: string
      ensures Active(holds - {id}, slot) == Active(holds, slot)
    {
    }
  }

  // ---------------------------------------------------------------- entries and tasks

  /** Log entries survive any change that leaves their holds' booking data alone. */
  lemma EntriesKept(holds: Holds, holds': Holds, log: Log)
    requires LogFits(holds, log)
    requires forall id | id in log.seen && id in holds :: id in holds' && BookingOf(holds'[id]) == BookingOf(holds[id])
    ensures LogFits(holds', log)
  {
    forall i | 0 <= i < |log.entries|
      ensures EntryFits(holds', log.entries[i])
    {
      assert EntryFits(holds, log.entries[i]);
      assert log.entries[i].holdID in log.seen;
    }
  }

  /** A task survives a change of one hold that respects what the task relies on. */
  lemma TaskKept(holds: Holds, deadlines: Scores, holds': Holds, deadlines': Scores, seen: set<string>,
                 issued: set<string>, clock: int, id: string, task: Task)
    requires TaskFits(holds, deadlines, seen, issued, clock, task)
    requires forall x | x != id :: (x in holds <==> x in holds') && (x in holds ==> holds'[x] == holds[x])
    requires forall x | x != id ::
               (x in deadlines <==> x in deadlines') && (x in deadlines ==> deadlines'[x] == deadlines[x])
    requires id in holds && id in holds' && IsBooked(holds[id].status) ==>
             IsBooked(holds'[id].status) && holds'[id] == holds[id].(status := holds'[id].status)
    requires id in holds && id in holds' ==>
             holds'[id] == holds[id].(status := holds'[id].status, confirmedAt := holds'[id].confirmedAt)
    requires id in holds && IsBooked(holds[id].status) ==> id in holds'
    requires id in holds' && id !in holds ==> id !in issued
    requires id in deadlines' ==> (id in deadlines && deadlines'[id] == deadlines[id]) || id !in issued
    ensures TaskFits(holds', deadlines', seen, issued, clock, task)
  {
  }

  /** Tasks survive time passing, IDs being issued and bookings being recorded. */
  lemma TaskGrows(holds: Holds, deadlines: Scores, seen: set<string>, seen': set<string>,
                  issued: set<string>, issued': set<string>, clock: int, clock': int, task: Task)
    requires TaskFits(holds, deadlines, seen, issued, clock, task)
    requires seen <= seen' && issued <= issued' && clock <= clock'
    ensures TaskFits(holds, deadlines, seen', issued', clock', task)
  {
  }

  /** All tasks survive a change of one hold, under the conditions of `TaskKept`. */
  lemma TasksKept(w: World, w': World, id: string)
    requires TasksFit(w) && w'.tasks == w.tasks && w'.log.seen == w.log.seen && w'.clock == w.clock
    requires w'.issued == w.issued
    requires forall x | x != id :: (x in w.redis.holds <==> x in w'.redis.holds)
    requires forall x | x != id && x in w.redis.holds :: w'.redis.holds[x] == w.redis.holds[x]
    requires id in w.redis.holds && id !in w'.redis.deadlines
    requires forall x | x != id :: (x in w.redis.deadlines <==> x in w'.redis.deadlines)
    requires forall x | x != id && x in w.redis.deadlines :: w'.redis.deadlines[x] == w.redis.deadlines[x]
    requires if id in w'.redis.holds then HoldMoves(w.redis.holds[id], w'.redis.holds[id])
             else w.redis.holds[id].status == Expired
    ensures TasksFit(w')
  {
    forall task | task in w'.tasks
      ensures TaskFits(w'.redis.holds, w'.redis.deadlines, w'.log.seen, w'.issued, w'.clock, task)
    {
      TaskKept(w.redis.holds, w.redis.deadlines, w'.redis.holds, w'.redis.deadlines, w.log.seen, w.issued, w.clock, id,
               task);
    }
  }

  /** How a hold's hash can change: to confirming with a time, to confirmed, or to expired. */
  predicate HoldMoves(h: Hold, h': Hold) {
    || (h.status == Held && h' == h.(status := Confirming, confirmedAt := h'.confirmedAt))
    || (h.status == Confirming && h' == h.(status := Confirmed))
    || (h.status == Held && h' == h.(status := Expired))
  }

  // ---------------------------------------------------------------- every step keeps the invariant

  lemma CreateKeepsInv(w: World, step: Step)
    requires Inv(w) && step.Create? && Enabled(w, step)
    ensures Inv(Exec(w, step))
  {
    CreateKeepsTasks(w, step);
    if CreateReply(w.redis, step.slot) == 1 {
      var h := Hold(step.id, step.slot, step.visitorID, Held, step.readAt + step.ttl, ZERO_TIME);
      CreateCounts(w.redis.holds, step.id, h, w.redis.used);
      NewHoldKeepsLog(w.redis.holds, w.log, h);
      NewHoldFits(w.redis.holds, w.redis.deadlines, w.redis.pending, w.log, h);
    }
  }

  lemma NewHoldKeepsLog(holds: Holds, log: Log, h: Hold)
    requires LogFits(holds, log) && h.id !in holds
    ensures LogFits(holds[h.id := h], log)
  {
    EntriesKept(holds, holds[h.id := h], log);
  }

  lemma NewHoldFits(holds: Holds, deadlines: Scores, pending: Scores, log: Log, h: Hold)
    requires HoldsFit(holds, deadlines, pending, log.seen) && LogFits(holds, log) && h.id !in holds && h.status == Held
    ensures HoldsFit(holds[h.id := h], deadlines[h.id := Millis(h.expiresAt)], pending, log.seen)
  {
    SeenAreHolds(holds, log);
    var holds', deadlines' := holds[h.id := h], deadlines[h.id := Millis(h.expiresAt)];
    forall id | id in holds'
      ensures HoldFits(id, holds'[id], deadlines', pending, log.seen)
    {
      if id != h.id {
        assert HoldFits(id, holds[id], deadlines, pending, log.seen);
      }
    }
  }

  lemma SeenAreHolds(holds: Holds, log: Log)
    requires LogFits(holds, log)
    ensures log.seen <= holds.Keys
  {
    forall id | id in log.seen
      ensures id in holds
    {
      var b :| b in log.entries && b.holdID == id;
      var i :| 0 <= i < |log.entries| && log.entries[i] == b;
      assert EntryFits(holds, log.entries[i]);
    }
  }

  lemma CreateKeepsTasks(w: World, step: Step)
    requires TasksFit(w) && w.redis.holds.Keys <= w.issued && step.Create? && Enabled(w, step)
    ensures TasksFit(Exec(w, step))
  {
    var w' := Exec(w, step);
    forall task | task in w'.tasks
      ensures TaskFits(w'.redis.holds, w'.redis.deadlines, w'.log.seen, w'.issued, w'.clock, task)
    {
      assert TaskFits(w.redis.holds, w.redis.deadlines, w.log.seen, w.issued, w.clock, task);
      TaskKept(w.redis.holds, w.redis.deadlines, w'.redis.holds, w'.redis.deadlines, w.log.seen, w.issued, w.clock,
               step.id, task);
      TaskGrows(w'.redis.holds, w'.redis.deadlines, w.log.seen, w'.log.seen, w.issued, w'.issued, w.clock, w'.clock,
                task);
    }
  }

  lemma ConfirmKeepsInv(w: World, step: Step)
    requires Inv(w) && step.Confirm? && Enabled(w, step) && CanConfirm(w.redis, step.hold.id, Millis(step.readAt))
    ensures Inv(Exec(w, step))
  {
    var id, w' := step.hold.id, Exec(w, step);
    var h := w.redis.holds[id];
    var h' := h.(status := Confirming, confirmedAt := step.confirmedAt);
    assert HoldFits(id, h, w.redis.deadlines, w.redis.pending, w.log.seen);
    SameActive(w.redis.holds, id, h', w.redis.used);
    EntriesKept(w.redis.holds, w'.redis.holds, w.log);
    HoldsMove(w.redis, w'.redis, w.log.seen, id);
    TasksKept(w, w'.(tasks := w.tasks), id);
    assert TaskFits(w.redis.holds, w.redis.deadlines, w.log.seen, w.issued, w.clock, SawHeld(step.hold));
  }

  /** One hold's move, with its index entries moved along, keeps all holds in line. */
  lemma HoldsMove(r: Redis, r': Redis, seen: set<string>, id: string)
    requires HoldsFit(r.holds, r.deadlines, r.pending, seen) && id in r.holds
    requires id in r'.holds && r'.holds == r.holds[id := r'.holds[id]] && r'.deadlines == r.deadlines - {id}
    requires HoldFits(id, r'.holds[id], r'.deadlines, r'.pending, seen)
    requires forall x | x != id :: x in r.pending <==> x in r'.pending
    ensures HoldsFit(r'.holds, r'.deadlines, r'.pending, seen)
  {
    forall x | x in r'.holds
      ensures HoldFits(x, r'.holds[x], r'.deadlines, r'.pending, seen)
    {
      assert HoldFits(x, r.holds[x], r.deadlines, r.pending, seen);
    }
  }

  lemma FinalizeKeepsInv(w: World, step: Step)
    requires Inv(w) && step.Finalize? && Enabled(w, step) && HasStatus(w.redis, step.hold.id, Confirming)
    ensures Inv(Exec(w, step))
  {
    var id, w' := step.hold.id, Exec(w, step);
    var h := w.redis.holds[id];
    assert HoldFits(id, h, w.redis.deadlines, w.redis.pending, w.log.seen);
    assert TaskFits(w.redis.holds, w.redis.deadlines, w.log.seen, w.issued, w.clock, ToFinalize(step.hold));
    SameActive(w.redis.holds, id, h.(status := Confirmed), w.redis.used);
    EntriesKept(w.redis.holds, w'.redis.holds, w.log);
    assert w.redis.deadlines - {id} == w.redis.deadlines;
    HoldsMove(w.redis, w'.redis, w.log.seen, id);
    TasksKept(w, w', id);
  }

  lemma ReleaseKeepsInv(w: World, step: Step)
    requires Inv(w) && step.Release? && Enabled(w, step)
    ensures Inv(Exec(w, step))
  {
    var id, w' := step.id, Exec(w, step);
    if HasStatus(w.redis, id, Held) {
      assert HoldFits(id, w.redis.holds[id], w.redis.deadlines, w.redis.pending, w.log.seen);
      ReleaseCounts(w.redis.holds, id, w.redis.used);
      EntriesKept(w.redis.holds, w'.redis.holds, w.log);
      HoldsMove(w.redis, w'.redis, w.log.seen, id);
      TasksKept(w, w', id);
    } else {
      assert id in w.redis.holds ==> HoldFits(id, w.redis.holds[id], w.redis.deadlines, w.redis.pending, w.log.seen);
      assert w.redis.deadlines - {id} == w.redis.deadlines;
    }
  }

  lemma EvictKeepsInv(w: World, step: Step)
    requires Inv(w) && step.Evict? && Enabled(w, step)
    ensures Inv(Exec(w, step))
  {
    var id, w' := step.id, Exec(w, step);
    assert HoldFits(id, w.redis.holds[id], w.redis.deadlines, w.redis.pending, w.log.seen);
    EvictCounts(w.redis.holds, id, w.redis.used);
    EntriesKept(w.redis.holds, w'.redis.holds, w.log);
    TasksKept(w, w', id);
    forall x | x in w'.redis.holds
      ensures HoldFits(x, w'.redis.holds[x], w'.redis.deadlines, w'.redis.pending, w'.log.seen)
    {
      assert HoldFits(x, w.redis.holds[x], w.redis.deadlines, w.redis.pending, w.log.seen);
    }
  }

  lemma RecordFits(holds: Holds, log: Log, h: Hold)
    requires LogFits(holds, log) && EntryFits(holds, BookingOf(h))
    ensures LogFits(holds, Recorded(log, BookingOf(h)))
    ensures Recorded(log, BookingOf(h)).seen == log.seen + {h.id}
  {
    var b, log' := BookingOf(h), Recorded(log, BookingOf(h));
    if b.holdID !in log.seen {
      assert forall i | 0 <= i < |log.entries| :: log.entries[i].holdID in log.seen;
      assert HoldIDs(log'.entries) == HoldIDs(log.entries) + {b.holdID};
    }
  }

  lemma PersistKeepsInv(w: World, step: Step)
    requires Inv(w) && step.Persist? && Enabled(w, step)
    ensures Inv(Exec(w, step))
  {
    var h, w' := step.hold, Exec(w, step);
    assert TaskFits(w.redis.holds, w.redis.deadlines, w.log.seen, w.issued, w.clock, ToPersist(h));
    RecordFits(w.redis.holds, w.log, h);
    forall task | task in w'.tasks
      ensures TaskFits(w'.redis.holds, w'.redis.deadlines, w'.log.seen, w'.issued, w'.clock, task)
    {
      if task in w.tasks {
        TaskGrows(w.redis.holds, w.redis.deadlines, w.log.seen, w'.log.seen, w.issued, w.issued, w.clock, w.clock,
                  task);
      }
    }
    forall x | x in w'.redis.holds
      ensures HoldFits(x, w'.redis.holds[x], w'.redis.deadlines, w'.redis.pending, w'.log.seen)
    {
      assert HoldFits(x, w.redis.holds[x], w.redis.deadlines, w.redis.pending, w.log.seen);
    }
  }

  lemma QuietStepKeepsInv(w: World, step: Step)
    requires Inv(w) && Enabled(w, step)
    requires step.SetCapacity? || step.Look? || step.Scan? || step.Tick? || step.Restart?
    ensures Inv(Exec(w, step))
  {
    var w' := Exec(w, step);
    if step.Look? {
      assert HoldFits(step.id, w.redis.holds[step.id], w.redis.deadlines, w.redis.pending, w.log.seen);
    }
    forall task | task in w'.tasks
      ensures TaskFits(w'.redis.holds, w'.redis.deadlines, w'.log.seen, w'.issued, w'.clock, task)
    {
      if task in w.tasks {
        TaskGrows(w.redis.holds, w.redis.deadlines, w.log.seen, w'.log.seen, w.issued, w.issued, w.clock, w'.clock,
                  task);
      }
    }
  }

  lemma StepKeepsInv(w: World, step: Step)
    requires Inv(w)
    ensures Inv(Exec(w, step))
  {
    if Enabled(w, step) {
      match step
      case Create(_, _, _, _, _) => CreateKeepsInv(w, step);
      case Confirm(hold, _, _, readAt) =>
        if CanConfirm(w.redis, hold.id, Millis(readAt)) {
          ConfirmKeepsInv(w, step);
        }
      case Persist(_) => PersistKeepsInv(w, step);
      case Finalize(hold) =>
        if HasStatus(w.redis, hold.id, Confirming) {
          FinalizeKeepsInv(w, step);
        }
      case Release(_, _) => ReleaseKeepsInv(w, step);
      case Evict(_) => EvictKeepsInv(w, step);
      case _ => QuietStepKeepsInv(w, step);
    }
  }

  lemma {:induction false} InvAlways(start: int, run: seq<Step>, k: nat)
    requires k <= |run|
    ensures Inv(After(start, run, k))
  {
    if k == 0 {
      assert forall slot :: Active(map[], slot) == {};
    } else {
      InvAlways(start, run, k - 1);
      StepKeepsInv(After(start, run, k - 1), run[k - 1]);
    }
  }
}
