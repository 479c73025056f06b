/** What the virtual queue guarantees over every run: places are counted exactly, slots are never
    overbooked, and a hold is booked or expired but never both. */
module QueueGuarantees {
  import opened Collections
  import opened TicketQueue
  import opened QueueRuns

  // ---------------------------------------------------------------- counters and indexes

  /** A slot's counter is the number of its held, confirming and confirmed holds. */
  lemma UsedCountsActiveHolds(start: int, run: seq<Step>, k: nat, slot: string)
    requires k <= |run|
    ensures var r := After(start, run, k).redis;
            Get(r.used, slot, 0) == |Active(r.holds, slot)|
  {
    InvAlways(start, run, k);
  }

  /** The deadline set is exactly the held IDs, scored by their deadlines, and the pending set
      exactly the confirming IDs. */
  lemma IndexesAreExact(start: int, run: seq<Step>, k: nat, id: string)
    requires k <= |run|
    ensures var r := After(start, run, k).redis;
            && (id in r.deadlines <==> HasStatus(r, id, Held))
            && (id in r.pending <==> HasStatus(r, id, Confirming))
            && (id in r.deadlines ==> r.deadlines[id] == Millis(r.holds[id].expiresAt))
  {
    InvAlways(start, run, k);
    var w := After(start, run, k);
    assert id in w.redis.holds ==> HoldFits(id, w.redis.holds[id], w.redis.deadlines, w.redis.pending, w.log.seen);
  }

  lemma {:induction false} CapacitiesAreNatural(start: int, run: seq<Step>, k: nat, slot: string)
    requires k <= |run| && slot in After(start, run, k).redis.capacity
    ensures After(start, run, k).redis.capacity[slot] >= 0
  {
    if slot in After(start, run, k - 1).redis.capacity {
      CapacitiesAreNatural(start, run, k - 1, slot);
    }
  }

  /** A capacity is set exactly when it is natural and for a named slot; no other step sets one. */
  lemma CapacityIsSetIff(start: int, run: seq<Step>, k: nat)
    requires k < |run|
    ensures var r, r', s := After(start, run, k).redis, After(start, run, k + 1).redis, run[k];
            r'.capacity == if s.SetCapacity? && s.slot != "" && s.capacity >= 0 then r.capacity[s.slot := s.capacity]
                           else r.capacity
  {
    StepSetsCapacity(After(start, run, k), run[k]);
  }

  lemma StepSetsCapacity(w: World, s: Step)
    ensures Exec(w, s).redis.capacity ==
            if s.SetCapacity? && s.slot != "" && s.capacity >= 0 then w.redis.capacity[s.slot := s.capacity]
            else w.redis.capacity
  {
  }

  /** A visitor gets a hold exactly when slot, visitor and time are given, the slot has a capacity and
      fewer holds in use; it is held for that visitor and lasts from the reading for the time asked.
      Otherwise nothing changes, and the reply tells a full slot from one without a capacity. */
  lemma CreateTakesPlaceIff(start: int, run: seq<Step>, k: nat)
    requires k < |run| && run[k].Create?
    requires run[k].id !in After(start, run, k).issued && run[k].readAt <= After(start, run, k).clock
    ensures var r, r', s := After(start, run, k).redis, After(start, run, k + 1).redis, run[k];
            var active := |Active(r.holds, s.slot)|;
            && s.id !in r.holds
            && if s.slot == "" || s.visitorID == "" || s.ttl <= 0 then r' == r
               else if s.slot in r.capacity && active < r.capacity[s.slot] then
                 && CreateReply(r, s.slot) == 1
                 && r'.holds == r.holds[s.id := Hold(s.id, s.slot, s.visitorID, Held, s.readAt + s.ttl, ZERO_TIME)]
                 && |Active(r'.holds, s.slot)| == active + 1
               else r' == r && CreateReply(r, s.slot) == if s.slot in r.capacity then 0 else -2
  {
    InvAlways(start, run, k);
    InvAlways(start, run, k + 1);
    var w, slot := After(start, run, k), run[k].slot;
    assert Get(w.redis.used, slot, 0) == |Active(w.redis.holds, slot)|;
    if slot in w.redis.capacity {
      CapacitiesAreNatural(start, run, k, slot);
    }
  }

  /** What becomes of a hold at one step: a worker that saw it held begins its confirmation if it is
      held still and its deadline, in milliseconds, is ahead of the reading; a worker that recorded
      its booking confirms it if it is confirming; a sweep that found it due expires it if it is held
      still; an expired one may be dropped.  Nothing else touches it. */
  function HoldAfter(w: World, s: Step, h: Hold): Option<Hold> {
    match s
    case Confirm(seen, _, confirmedAt, readAt) =>
      if Enabled(w, s) && seen.id == h.id && h.status == Held && h.expiresAt / 1_000_000 > readAt / 1_000_000
      then Some(h.(status := Confirming, confirmedAt := confirmedAt)) else Some(h)
    case Finalize(seen) =>
      if Enabled(w, s) && seen.id == h.id && h.status == Confirming then Some(h.(status := Confirmed)) else Some(h)
    case Release(id, _) =>
      if Enabled(w, s) && id == h.id && h.status == Held then Some(h.(status := Expired)) else Some(h)
    case Evict(id) => if id == h.id && h.status == Expired then None else Some(h)
    case _ => Some(h)
  }

  lemma StepMovesHold(w: World, s: Step, id: string)
    requires id in w.redis.holds && w.redis.holds.Keys <= w.issued
    requires HoldFits(id, w.redis.holds[id], w.redis.deadlines, w.redis.pending, w.log.seen)
    ensures var holds := Exec(w, s).redis.holds;
            HoldAfter(w, s, w.redis.holds[id]) == if id in holds then Some(holds[id]) else None
  {
  }

  lemma HoldMoves(start: int, run: seq<Step>, k: nat, id: string)
    requires k < |run| && id in After(start, run, k).redis.holds
    ensures var w, holds := After(start, run, k), After(start, run, k + 1).redis.holds;
            HoldAfter(w, run[k], w.redis.holds[id]) == if id in holds then Some(holds[id]) else None
  {
    InvAlways(start, run, k);
    var w := After(start, run, k);
    assert HoldFits(id, w.redis.holds[id], w.redis.deadlines, w.redis.pending, w.log.seen);
    StepMovesHold(w, run[k], id);
  }

  // ---------------------------------------------------------------- holds can be settled

  /** Steps taken one after the other. */
  function ExecAll(w: World, steps: seq<Step>): World
    decreases |steps|
  {
    if steps == [] then w else ExecAll(Exec(w, steps[0]), steps[1..])
  }

  lemma {:induction false} AfterOfPrefix(start: int, run: seq<Step>, longer: seq<Step>, k: nat)
    requires run <= longer && k <= |run|
    ensures After(start, longer, k) == After(start, run, k)
  {
    if k > 0 {
      AfterOfPrefix(start, run, longer, k - 1);
    }
  }

  lemma {:induction false} AfterOfMore(start: int, run: seq<Step>, steps: seq<Step>)
    ensures After(start, run + steps, |run| + |steps|) == ExecAll(After(start, run, |run|), steps)
    decreases |steps|
  {
    if steps == [] {
      assert run + steps == run;
    } else {
      var more := run + [steps[0]];
      assert more + steps[1..] == run + steps;
      AfterOfMore(start, more, steps[1..]);
      AfterOfPrefix(start, run, more, |run|);
    }
  }

  /** What is left to do for a hold at `now`: confirm it while it is held and in time, finish a
      confirmation that was begun, release it when its time is up. */
  function Remaining(h: Hold, now: int): seq<Step> {
    var begun := h.(status := Confirming, confirmedAt := now);
    match h.status
    case Held =>
      if Millis(now) < Millis(h.expiresAt) then [Look(h.id), Confirm(h, now, now, now), Persist(begun), Finalize(begun)]
      else [Scan(now), Release(h.id, Millis(now))]
    case Confirming => [Look(h.id), Persist(h), Finalize(h)]
    case _ => []
  }

  lemma ConfirmingFinishes(w: World, h: Hold)
    requires ToPersist(h) in w.tasks && h.id in w.redis.holds && w.redis.holds[h.id] == h
    requires h.status == Confirming && h.confirmedAt != ZERO_TIME
    ensures var end := ExecAll(w, [Persist(h), Finalize(h)]);
            && h.id in end.redis.holds && end.redis.holds[h.id] == h.(status := Confirmed)
            && h.id in end.log.seen
  {
    var recorded := Exec(w, Persist(h));
    assert ToFinalize(h) in recorded.tasks;
    assert [Persist(h), Finalize(h)][1..] == [Finalize(h)];
    assert ExecAll(recorded, [Finalize(h)]) == Exec(recorded, Finalize(h));
  }

  lemma HeldIsConfirmed(w: World, h: Hold)
    requires HoldFits(h.id, h, w.redis.deadlines, w.redis.pending, w.log.seen)
    requires h.id in w.redis.holds && w.redis.holds[h.id] == h && h.status == Held && w.clock != ZERO_TIME
    requires Millis(w.clock) < Millis(h.expiresAt)
    ensures var end := ExecAll(w, Remaining(h, w.clock));
            && h.id in end.redis.holds && h.id in end.log.seen
            && end.redis.holds[h.id] == h.(status := Confirmed, confirmedAt := w.clock)
  {
    var now := w.clock;
    var begun := h.(status := Confirming, confirmedAt := now);
    var looked := Exec(w, Look(h.id));
    var confirm := Confirm(h, now, now, now);
    assert SawHeld(h) in looked.tasks && Enabled(looked, confirm);
    var started := Exec(looked, confirm);
    assert ToPersist(begun) in started.tasks;
    var steps := Remaining(h, now);
    assert steps[1..] == [confirm, Persist(begun), Finalize(begun)];
    assert steps[1..][1..] == [Persist(begun), Finalize(begun)];
    ConfirmingFinishes(started, begun);
  }

  lemma BegunIsConfirmed(w: World, h: Hold)
    requires h.id in w.redis.holds && w.redis.holds[h.id] == h && h.status == Confirming && h.confirmedAt != ZERO_TIME
    ensures var end := ExecAll(w, Remaining(h, w.clock));
            && h.id in end.redis.holds && h.id in end.log.seen
            && end.redis.holds[h.id] == h.(status := Confirmed)
  {
    assert Remaining(h, w.clock)[1..] == [Persist(h), Finalize(h)];
    ConfirmingFinishes(Exec(w, Look(h.id)), h);
  }

  lemma DueIsReleased(w: World, h: Hold)
    requires HoldFits(h.id, h, w.redis.deadlines, w.redis.pending, w.log.seen)
    requires h.id in w.redis.holds && w.redis.holds[h.id] == h && h.status == Held
    requires Millis(h.expiresAt) <= Millis(w.clock)
    ensures var end := ExecAll(w, Remaining(h, w.clock));
            h.id in end.redis.holds && end.redis.holds[h.id] == h.(status := Expired)
  {
    var found := Exec(w, Scan(w.clock));
    var release := Release(h.id, Millis(w.clock));
    assert ToRelease(h.id, Millis(w.clock)) in found.tasks;
    assert Remaining(h, w.clock)[1..] == [release];
    assert ExecAll(found, [release]) == Exec(found, release);
  }

  /** `end` settles the hold `h` of `w`. */
  predicate Settles(w: World, h: Hold, end: World) {
    h.id in end.redis.holds &&
    match h.status
    case Held =>
      if Millis(h.expiresAt) <= Millis(w.clock) then end.redis.holds[h.id] == h.(status := Expired)
      else w.clock != ZERO_TIME ==>
        end.redis.holds[h.id] == h.(status := Confirmed, confirmedAt := w.clock) && h.id in end.log.seen
    case Confirming =>
      h.confirmedAt != ZERO_TIME ==> end.redis.holds[h.id] == h.(status := Confirmed) && h.id in end.log.seen
    case _ => end.redis.holds[h.id] == h
  }

  lemma RemainingSettles(w: World, h: Hold)
    requires HoldFits(h.id, h, w.redis.deadlines, w.redis.pending, w.log.seen)
    requires h.id in w.redis.holds && w.redis.holds[h.id] == h
    ensures Settles(w, h, ExecAll(w, Remaining(h, w.clock)))
  {
    if h.status == Held && Millis(h.expiresAt) <= Millis(w.clock) {
      DueIsReleased(w, h);
    } else if h.status == Held && w.clock != ZERO_TIME {
      HeldIsConfirmed(w, h);
    } else if h.status == Confirming && h.confirmedAt != ZERO_TIME {
      BegunIsConfirmed(w, h);
    } else {
      HoldsStay(w, Remaining(h, w.clock), h.id);
    }
  }

  /** From any moment of any run, whatever the other workers have done: a hold that is held and in
      time can be confirmed and booked now, a confirmation that was begun can be finished, and a hold
      whose time is up can be released. */
  lemma HoldsCanSettle(start: int, run: seq<Step>, id: string)
    requires id in After(start, run, |run|).redis.holds
    ensures var w := After(start, run, |run|);
            var steps := Remaining(w.redis.holds[id], w.clock);
            Settles(w, w.redis.holds[id], After(start, run + steps, |run| + |steps|)) && w.redis.holds[id].id == id
  {
    InvAlways(start, run, |run|);
    var w := After(start, run, |run|);
    assert HoldFits(id, w.redis.holds[id], w.redis.deadlines, w.redis.pending, w.log.seen);
    AfterOfMore(start, run, Remaining(w.redis.holds[id], w.clock));
    RemainingSettles(w, w.redis.holds[id]);
  }

  /** Only a drop takes a hold away. */
  lemma {:induction false} HoldsStay(w: World, steps: seq<Step>, id: string)
    requires id in w.redis.holds && forall i | 0 <= i < |steps| :: !steps[i].Evict?
    ensures id in ExecAll(w, steps).redis.holds
    decreases |steps|
  {
    if steps != [] {
      HoldsStay(Exec(w, steps[0]), steps[1..], id);
    }
  }

  // ---------------------------------------------------------------- overbooking

  /** The largest capacity a slot has been given so far. */
  function HighWater(start: int, run: seq<Step>, k: nat, slot: string): nat
    requires k <= |run|
  {
    if k == 0 then 0
    else
      var before := HighWater(start, run, k - 1, slot);
      match run[k - 1]
      case SetCapacity(s, c) => if s == slot && s != "" && c > before then c else before
      case _ => before
  }

  lemma {:induction false} UsedStaysBelowHighWater(start: int, run: seq<Step>, k: nat, slot: string)
    requires k <= |run|
    ensures var r := After(start, run, k).redis;
            && Get(r.capacity, slot, -1) <= HighWater(start, run, k, slot)
            && Get(r.used, slot, 0) <= HighWater(start, run, k, slot)
  {
    if k > 0 {
      UsedStaysBelowHighWater(start, run, k - 1, slot);
    }
  }

  ghost function Booked(entries: seq<Booking>, slot: string): nat {
    if entries == [] then 0
    else Booked(entries[..|entries| - 1], slot) + (if entries[|entries| - 1].slot == slot then 1 else 0)
  }

  ghost function BookedIDs(entries: seq<Booking>, slot: string): set<string> {
    set b | b in entries && b.slot == slot :: b.holdID
  }

  ghost predicate DistinctHolds(entries: seq<Booking>) {
    forall i, j | 0 <= i < j < |entries| :: entries[i].holdID != entries[j].holdID
  }

  lemma {:induction false} BookedCountsIDs(entries: seq<Booking>, slot: string)
    requires DistinctHolds(entries)
    ensures Booked(entries, slot) == |BookedIDs(entries, slot)|
  {
    if entries != [] {
      var last := entries[|entries| - 1];
      var rest := entries[..|entries| - 1];
      BookedCountsIDs(rest, slot);
      assert entries == rest + [last];
      assert last.holdID !in BookedIDs(rest, slot);
      if last.slot == slot {
        assert BookedIDs(entries, slot) == BookedIDs(rest, slot) + {last.holdID};
      } else {
        assert BookedIDs(entries, slot) == BookedIDs(rest, slot);
      }
    }
  }

  lemma BookedAreActive(w: World, slot: string)
    requires Inv(w)
    ensures BookedIDs(w.log.entries, slot) <= Active(w.redis.holds, slot)
  {
    forall id | id in BookedIDs(w.log.entries, slot)
      ensures id in Active(w.redis.holds, slot)
    {
      var b :| b in w.log.entries && b.slot == slot && b.holdID == id;
      var i :| 0 <= i < |w.log.entries| && w.log.entries[i] == b;
      assert EntryFits(w.redis.holds, w.log.entries[i]);
      assert id in w.log.seen;
      assert HoldFits(id, w.redis.holds[id], w.redis.deadlines, w.redis.pending, w.log.seen);
    }
  }

  /** A slot never has more recorded bookings than places in use, nor more places in use than the
      largest capacity it was ever given. */
  lemma NeverOverbooked(start: int, run: seq<Step>, k: nat, slot: string)
    requires k <= |run|
    ensures var w := After(start, run, k);
            Booked(w.log.entries, slot) <= Get(w.redis.used, slot, 0) <= HighWater(start, run, k, slot)
  {
    InvAlways(start, run, k);
    var w := After(start, run, k);
    BookedCountsIDs(w.log.entries, slot);
    BookedAreActive(w, slot);
    SubsetIsSmaller(BookedIDs(w.log.entries, slot), Active(w.redis.holds, slot));
    UsedStaysBelowHighWater(start, run, k, slot);
  }

  ghost predicate NeverLowered(start: int, run: seq<Step>, k: nat, slot: string)
    requires k <= |run|
  {
    forall i | 0 <= i < k :: !LowersCapacity(start, run, i, slot)
  }

  predicate LowersCapacity(start: int, run: seq<Step>, i: nat, slot: string)
    requires i < |run|
  {
    && run[i].SetCapacity? && run[i].slot == slot
    && 0 <= run[i].capacity < Get(After(start, run, i).redis.capacity, slot, 0)
  }

  lemma {:induction false} NeverLoweredKeepsHighWater(start: int, run: seq<Step>, k: nat, slot: string)
    requires k <= |run| && NeverLowered(start, run, k, slot)
    ensures Get(After(start, run, k).redis.capacity, slot, 0) == HighWater(start, run, k, slot)
  {
    if k > 0 {
      NeverLoweredKeepsHighWater(start, run, k - 1, slot);
      assert !LowersCapacity(start, run, k - 1, slot);
    }
  }

  /** If a slot's capacity is never lowered, its recorded bookings never exceed it. */
  lemma BookingsFitCapacity(start: int, run: seq<Step>, k: nat, slot: string)
    requires k <= |run| && NeverLowered(start, run, k, slot)
    ensures var w := After(start, run, k);
            Booked(w.log.entries, slot) <= Get(w.redis.capacity, slot, 0)
  {
    NeverOverbooked(start, run, k, slot);
    NeverLoweredKeepsHighWater(start, run, k, slot);
  }

  // ---------------------------------------------------------------- bookings

  predicate IsRecorded(w: World, id: string) {
    id in w.log.seen
  }

  /** Every confirmed hold is recorded, each hold is recorded at most once, and what is recorded
      is what the hold says. */
  lemma BookingsAreSound(start: int, run: seq<Step>, k: nat)
    requires k <= |run|
    ensures var w := After(start, run, k);
            && DistinctHolds(w.log.entries)
            && (forall id | HasStatus(w.redis, id, Confirmed) :: IsRecorded(w, id))
            && (forall i | 0 <= i < |w.log.entries| ::
                  var b := w.log.entries[i];
                  && b.holdID in w.redis.holds
                  && var h := w.redis.holds[b.holdID];
                  b == Booking("booking-" + h.id, b.holdID, h.slot, h.visitorID, h.confirmedAt))
  {
    InvAlways(start, run, k);
    var w := After(start, run, k);
    forall id | HasStatus(w.redis, id, Confirmed)
      ensures IsRecorded(w, id)
    {
      assert HoldFits(id, w.redis.holds[id], w.redis.deadlines, w.redis.pending, w.log.seen);
    }
    forall i | 0 <= i < |w.log.entries|
      ensures var b := w.log.entries[i];
              && b.holdID in w.redis.holds
              && var h := w.redis.holds[b.holdID];
              b == Booking("booking-" + h.id, b.holdID, h.slot, h.visitorID, h.confirmedAt)
    {
      assert EntryFits(w.redis.holds, w.log.entries[i]);
    }
  }

  /** Every booking has a confirmation time. */
  lemma {:induction false} BookingsHaveTimes(start: int, run: seq<Step>, k: nat, i: nat)
    requires k <= |run| && i < |After(start, run, k).log.entries|
    ensures After(start, run, k).log.entries[i].confirmed != ZERO_TIME
  {
    if i < |After(start, run, k - 1).log.entries| {
      BookingsHaveTimes(start, run, k - 1, i);
    }
  }

  lemma RecordedIsNotExpired(start: int, run: seq<Step>, k: nat, id: string)
    requires k <= |run|
    ensures var w := After(start, run, k);
            IsRecorded(w, id) ==> id in w.redis.holds && IsBooked(w.redis.holds[id].status)
  {
    InvAlways(start, run, k);
    var w := After(start, run, k);
    SeenAreHolds(w.redis.holds, w.log);
    assert id in w.redis.holds ==> HoldFits(id, w.redis.holds[id], w.redis.deadlines, w.redis.pending, w.log.seen);
  }

  lemma {:induction false} RecordedStays(start: int, run: seq<Step>, j: nat, k: nat, id: string)
    requires j <= k <= |run| && IsRecorded(After(start, run, j), id)
    ensures IsRecorded(After(start, run, k), id)
    decreases k
  {
    if j < k {
      RecordedStays(start, run, j, k - 1, id);
      InvAlways(start, run, k - 1);
    }
  }

  /** The hold expired, or its hash has already been dropped. */
  predicate IsGone(w: World, id: string) {
    id in w.issued && (id in w.redis.holds ==> w.redis.holds[id].status == Expired)
  }

  lemma GoneStaysOneStep(w: World, step: Step, id: string)
    requires IsGone(w, id)
    ensures IsGone(Exec(w, step), id)
  {
    match step
    case Create(slot, visitorID, ttl, other, readAt) =>
      assert Enabled(w, step) ==> other != id;
    case _ =>
  }

  lemma {:induction false} GoneStays(start: int, run: seq<Step>, j: nat, k: nat, id: string)
    requires j <= k <= |run| && IsGone(After(start, run, j), id)
    ensures IsGone(After(start, run, k), id)
    decreases k
  {
    if j < k {
      GoneStays(start, run, j, k - 1, id);
      GoneStaysOneStep(After(start, run, k - 1), run[k - 1], id);
    }
  }

  /** No hold is ever both booked and expired, at whatever two moments one looks. */
  lemma NeverBookedAndExpired(start: int, run: seq<Step>, j: nat, k: nat, id: string)
    requires j <= |run| && k <= |run|
    ensures !(IsRecorded(After(start, run, j), id) && HasStatus(After(start, run, k).redis, id, Expired))
  {
    if IsRecorded(After(start, run, j), id) && HasStatus(After(start, run, k).redis, id, Expired) {
      if j <= k {
        RecordedStays(start, run, j, k, id);
        RecordedIsNotExpired(start, run, k, id);
      } else {
        InvAlways(start, run, k);
        GoneStays(start, run, k, j, id);
        RecordedIsNotExpired(start, run, j, id);
      }
    }
  }

  // ---------------------------------------------------------------- deadlines

  /** Whatever interleaves between a sweep's scan and its release scripts, a hold expires only
      once its deadline, in whole milliseconds, has come. */
  lemma NeverReleasedEarly(start: int, run: seq<Step>, k: nat, id: string)
    requires k < |run|
    requires HasStatus(After(start, run, k).redis, id, Held) && HasStatus(After(start, run, k + 1).redis, id, Expired)
    ensures var w := After(start, run, k);
            SweptAt(w.redis.holds[id].expiresAt, w.clock) && w.redis.holds[id].expiresAt - w.clock < NS_PER_MS
  {
    InvAlways(start, run, k);
    var w := After(start, run, k);
    assert run[k].Release? && run[k].id == id;
    assert TaskFits(w.redis.holds, w.redis.deadlines, w.log.seen, w.issued, w.clock, ToRelease(id, run[k].asOf));
    assert HoldFits(id, w.redis.holds[id], w.redis.deadlines, w.redis.pending, w.log.seen);
    SweptEarlyByLessThanOneMillisecond(w.redis.holds[id].expiresAt, w.clock);
  }

  /** Step `k` expires a held hold whose expiry is `expiresAt`. */
  ghost predicate ExpiresAt(start: int, run: seq<Step>, k: nat, id: string, expiresAt: int)
    requires k < |run|
  {
    && HasStatus(After(start, run, k).redis, id, Held) && HasStatus(After(start, run, k + 1).redis, id, Expired)
    && After(start, run, k).redis.holds[id].expiresAt == expiresAt
  }

  /** No run of the queue releases a hold with this expiry before it. */
  ghost predicate NeverReleasedBefore(expiresAt: int) {
    forall start: int, run: seq<Step>, k: nat, id: string | k < |run| && ExpiresAt(start, run, k, id, expiresAt) ::
      expiresAt <= After(start, run, k).clock
  }

  /** A hold made at the start of the millisecond it expires in, found by a sweep at once and
      released. */
  function ShortHold(expiresAt: int): seq<Step> {
    var now := Millis(expiresAt) * NS_PER_MS;
    [SetCapacity("s", 1), Create("s", "v", expiresAt - now, "h", now), Scan(now), Release("h", Millis(now))]
  }

  lemma ShortHoldExpires(expiresAt: int)
    requires expiresAt % NS_PER_MS != 0
    ensures var now, run := Millis(expiresAt) * NS_PER_MS, ShortHold(expiresAt);
            ExpiresAt(now, run, 3, "h", expiresAt) && After(now, run, 3).clock == now < expiresAt
  {
    var now, run := Millis(expiresAt) * NS_PER_MS, ShortHold(expiresAt);
    var first, capped := After(now, run, 0), After(now, run, 1);
    assert capped == first.(redis := first.redis.(capacity := map["s" := 1]));
    var held := After(now, run, 2);
    var h := Hold("h", "s", "v", Held, expiresAt, ZERO_TIME);
    assert held.redis == Redis(map["s" := 1], map["s" := 1], map["h" := h], map["h" := Millis(expiresAt)], map[]);
    assert Millis(now) == Millis(expiresAt);
    var found := After(now, run, 3);
    assert ToRelease("h", Millis(now)) in found.tasks && found.redis == held.redis;
  }

  /** A hold that expires one nanosecond into a millisecond is released at its start. */
  lemma EarlyReleaseExample()
    ensures var run := [SetCapacity("s", 1), Create("s", "v", 1, "h", 0), Scan(0), Release("h", 0)];
            ExpiresAt(0, run, 3, "h", 1) && After(0, run, 3).clock == 0
  {
    ShortHoldExpires(1);
    assert ShortHold(1) == [SetCapacity("s", 1), Create("s", "v", 1, "h", 0), Scan(0), Release("h", 0)];
  }

  /** Over all runs: no hold with a given expiry is ever released before it exactly when that
      expiry is a whole millisecond. */
  lemma NeverReleasedBeforeIff(expiresAt: int)
    ensures NeverReleasedBefore(expiresAt) <==> expiresAt % NS_PER_MS == 0
  {
    if expiresAt % NS_PER_MS == 0 {
      forall start: int, run: seq<Step>, k: nat, id: string | k < |run| && ExpiresAt(start, run, k, id, expiresAt)
        ensures expiresAt <= After(start, run, k).clock
      {
        NeverReleasedEarly(start, run, k, id);
        NeverSweptEarlyIffWholeMillisecond(expiresAt);
      }
    } else {
      ShortHoldExpires(expiresAt);
    }
  }
}
