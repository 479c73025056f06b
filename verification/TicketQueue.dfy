/** The virtual queue's Redis scripts (ttd/internal/queue/service.go) and its durable booking log
    (ttd/internal/queue/booking_store.go).

    Times are whole nanoseconds since the Unix epoch; Redis holds deadlines in whole
    milliseconds.  A script is one atomic step. */
module TicketQueue {
  import opened Collections
  import Text

  datatype Status = Held | Confirming | Confirmed | Expired

  /** The hash stored for a hold.  `confirmedAt` is ZERO_TIME until it is set. */
  datatype Hold = Hold(id: string, slot: string, visitorID: string, status: Status, expiresAt: int, confirmedAt: int)

  datatype Booking = Booking(id: string, holdID: string, slot: string, visitorID: string, confirmed: int)

  const ZERO_TIME: int := -62135596800_000000000

  const NS_PER_MS: int := 1_000_000

  /** `UnixMilli`: milliseconds, rounded down. */
  function Millis(t: int): int {
    t / NS_PER_MS
  }

  /** The Redis keys that the service uses: two string counters per slot, a hash per hold, and
      the two sorted sets of deadlines and of pending confirmations. */
  datatype Redis = Redis(
    capacity: map<string, int>, used: map<string, int>, holds: map<string, Hold>,
    deadlines: map<string, int>, pending: map<string, int>)

  const FLUSHED: Redis := Redis(map[], map[], map[], map[], map[])

  function Get(m: map<string, int>, key: string, otherwise: int): int {
    if key in m then m[key] else otherwise
  }

  predicate HasStatus(r: Redis, id: string, status: Status) {
    id in r.holds && r.holds[id].status == status
  }

  // ---------------------------------------------------------------- scripts

  /** Creates a hold if the slot has room: 1 on success, 0 when full, -2 without a capacity. */
  function CreateReply(r: Redis, slot: string): int {
    if Get(r.capacity, slot, -1) < 0 then -2
    else if Get(r.used, slot, 0) >= Get(r.capacity, slot, -1) then 0
    else 1
  }

  function Created(r: Redis, id: string, slot: string, visitorID: string, expires: int): Redis {
    if CreateReply(r, slot) != 1 then r
    else r.(holds := r.holds[id := Hold(id, slot, visitorID, Held, expires, ZERO_TIME)],
            used := r.used[slot := Get(r.used, slot, 0) + 1],
            deadlines := r.deadlines[id := Millis(expires)])
  }

  predicate CanConfirm(r: Redis, id: string, nowMs: int) {
    HasStatus(r, id, Held) && Get(r.deadlines, id, 0) > nowMs
  }

  function ConfirmBegun(r: Redis, id: string, nowMs: int, confirmedAt: int): Redis {
    if !CanConfirm(r, id, nowMs) then r
    else r.(holds := r.holds[id := r.holds[id].(status := Confirming, confirmedAt := confirmedAt)],
            deadlines := r.deadlines - {id},
            pending := r.pending[id := nowMs])
  }

  function Finalized(r: Redis, id: string): Redis {
    if !HasStatus(r, id, Confirming) then r
    else r.(holds := r.holds[id := r.holds[id].(status := Confirmed)], pending := r.pending - {id})
  }

  /** Re-checks the status but not the deadline. */
  function Released(r: Redis, id: string): Redis {
    if !HasStatus(r, id, Held) then r.(deadlines := r.deadlines - {id})
    else
      var slot := r.holds[id].slot;
      r.(holds := r.holds[id := r.holds[id].(status := Expired)],
         used := r.used[slot := Get(r.used, slot, 0) - 1],
         deadlines := r.deadlines - {id})
  }

  /** The order of a sorted set: by score, equal scores by member. */
  predicate RanksBefore(scores: map<string, int>, p: string, q: string)
    requires p in scores && q in scores
  {
    scores[p] < scores[q] || (scores[p] == scores[q] && Text.Less(p, q))
  }

  /** The lowest-ranking `count` members, or all of them. */
  ghost predicate IsFirst(scores: map<string, int>, count: nat, ids: seq<string>) {
    && AreDistinct(ids) && (forall id | id in ids :: id in scores)
    && |ids| == (if |scores.Keys| < count then |scores.Keys| else count)
    && forall p, q | p in ids && q in scores && q !in ids :: RanksBefore(scores, p, q)
  }

  /** The members with a lower score, or the same score and a smaller name. */
  ghost function Lower(scores: map<string, int>, id: string): set<string>
    requires id in scores
  {
    set q | q in scores && (scores[q] < scores[id] || (scores[q] == scores[id] && Text.Less(q, id)))
  }

  /** So a member is among the first exactly when fewer than `count` others come before it. */
  lemma FirstAreLowest(scores: map<string, int>, count: nat, ids: seq<string>, id: string)
    requires IsFirst(scores, count, ids) && id in scores
    ensures id in ids <==> |Lower(scores, id)| < count
  {
    var lower, chosen := Lower(scores, id), Elements(ids);
    DistinctAreAsMany(ids);
    if id in ids {
      forall q | q in lower
        ensures q in chosen - {id}
      {
        Text.LessIsIrreflexive(id);
        if q !in ids {
          RanksAreAsymmetric(scores, q, id);
        }
      }
      SubsetIsSmaller(lower, chosen - {id});
    } else {
      SubsetIsSmaller(chosen, lower);
      if |ids| < count {
        assert chosen <= scores.Keys - {id};
        SubsetIsSmaller(chosen, scores.Keys - {id});
      }
    }
  }

  lemma RanksAreAsymmetric(scores: map<string, int>, p: string, q: string)
    requires p in scores && q in scores && RanksBefore(scores, p, q)
    ensures !RanksBefore(scores, q, p)
  {
    Text.LessIsIrreflexive(p);
    if Text.Less(p, q) && Text.Less(q, p) {
      Text.LessIsTransitive(p, q, p);
    }
  }

  method Lowest(scores: map<string, int>, among: set<string>) returns (id: string)
    requires among != {} && among <= scores.Keys
    ensures id in among && forall q | q in among && q != id :: RanksBefore(scores, id, q)
  {
    id :| id in among;
    var todo := among - {id};
    while todo != {}
      invariant id in among && id !in todo && todo <= among
      invariant forall q | q in among - todo && q != id :: RanksBefore(scores, id, q)
      decreases |todo|
    {
      var next :| next in todo;
      LowestOneMore(scores, among - todo, id, next);
      assert among - (todo - {next}) == among - todo + {next};
      if RanksBefore(scores, next, id) {
        id := next;
      }
      todo := todo - {next};
    }
  }

  lemma RanksAreTotal(scores: map<string, int>, p: string, q: string)
    requires p in scores && q in scores && p != q
    ensures RanksBefore(scores, p, q) || RanksBefore(scores, q, p)
  {
    Text.LessIsTotal(p, q);
  }

  lemma RanksAreTransitive(scores: map<string, int>, p: string, q: string, r: string)
    requires p in scores && q in scores && r in scores && RanksBefore(scores, p, q) && RanksBefore(scores, q, r)
    ensures RanksBefore(scores, p, r)
  {
    if scores[p] == scores[q] == scores[r] {
      Text.LessIsTransitive(p, q, r);
    }
  }

  lemma LowestOneMore(scores: map<string, int>, seen: set<string>, id: string, next: string)
    requires id in seen && next in scores && next !in seen && seen <= scores.Keys
    requires forall q | q in seen && q != id :: RanksBefore(scores, id, q)
    ensures var lowest := if RanksBefore(scores, next, id) then next else id;
            forall q | q in seen + {next} && q != lowest :: RanksBefore(scores, lowest, q)
  {
    RanksAreTotal(scores, id, next);
    if RanksBefore(scores, next, id) {
      forall q | q in seen && q != id
        ensures RanksBefore(scores, next, q)
      {
        RanksAreTransitive(scores, next, id, q);
      }
    }
  }

  class RedisServer {
    var capacity: map<string, int>
    var used: map<string, int>
    var holds: map<string, Hold>
    var deadlines: map<string, int>
    var pending: map<string, int>

    ghost function State(): Redis
      reads this
    {
      Redis(capacity, used, holds, deadlines, pending)
    }

    constructor ()
      ensures State() == FLUSHED
    {
      capacity, used, holds, deadlines, pending := map[], map[], map[], map[], map[];
    }

    method EvalCreate(id: string, slot: string, visitorID: string, expires: int) returns (value: int)
      modifies this
      ensures value == CreateReply(old(State()), slot)
      ensures State() == Created(old(State()), id, slot, visitorID, expires)
    {
      var cap := if slot in capacity then capacity[slot] else -1;
      var inUse := if slot in used then used[slot] else 0;
      if cap < 0 {
        return -2;
      }
      if inUse >= cap {
        return 0;
      }
      holds := holds[id := Hold(id, slot, visitorID, Held, expires, ZERO_TIME)];
      used := used[slot := inUse + 1];
      deadlines := deadlines[id := Millis(expires)];
      value := 1;
    }

    method EvalConfirm(id: string, nowMs: int, confirmedAt: int) returns (value: int)
      modifies this
      ensures value == if CanConfirm(old(State()), id, nowMs) then 1 else 0
      ensures State() == ConfirmBegun(old(State()), id, nowMs, confirmedAt)
    {
      if id !in holds || holds[id].status != Held {
        return 0;
      }
      if (if id in deadlines then deadlines[id] else 0) <= nowMs {
        return 0;
      }
      holds := holds[id := holds[id].(status := Confirming, confirmedAt := confirmedAt)];
      deadlines := deadlines - {id};
      pending := pending[id := nowMs];
      value := 1;
    }

    method EvalFinalize(id: string) returns (value: int)
      modifies this
      ensures value == if HasStatus(old(State()), id, Confirming) then 1 else 0
      ensures State() == Finalized(old(State()), id)
    {
      if id !in holds || holds[id].status != Confirming {
        return 0;
      }
      holds := holds[id := holds[id].(status := Confirmed)];
      pending := pending - {id};
      value := 1;
    }

    /** The members of the deadline set with a score of at most `max`. */
    method RangeByScore(max: int) returns (ids: seq<string>)
      ensures Elements(ids) == DueIDs(State(), max) && AreDistinct(ids)
    {
      ids := [];
      var todo := deadlines.Keys;
      while todo != {}
        invariant todo <= deadlines.Keys && AreDistinct(ids)
        invariant forall id :: id in ids <==> id in deadlines && id !in todo && deadlines[id] <= max
        decreases |todo|
      {
        var id :| id in todo;
        if deadlines[id] <= max {
          ids := ids + [id];
        }
        todo := todo - {id};
      }
    }

    /** The first `count` members of the pending set, in the order of their scores. */
    method PendingRange(count: nat) returns (ids: seq<string>)
      ensures IsFirst(pending, count, ids)
      ensures forall id | id in pending :: id in ids <==> |Lower(pending, id)| < count
    {
      ids := [];
      var todo := pending.Keys;
      while todo != {} && |ids| < count
        invariant AreDistinct(ids) && |ids| <= count && |ids| + |todo| == |pending.Keys|
        invariant forall id :: id in pending <==> id in ids || id in todo
        invariant forall id | id in ids :: id !in todo
        invariant forall p, q | p in ids && q in todo :: RanksBefore(pending, p, q)
        decreases |todo|
      {
        var id := Lowest(pending, todo);
        ids := ids + [id];
        todo := todo - {id};
      }
      forall id | id in pending
        ensures id in ids <==> |Lower(pending, id)| < count
      {
        FirstAreLowest(pending, count, ids, id);
      }
    }

    method EvalRelease(id: string) returns (value: int)
      modifies this
      ensures value == if HasStatus(old(State()), id, Held) then 1 else 0
      ensures State() == Released(old(State()), id)
    {
      if id !in holds || holds[id].status != Held {
        deadlines := deadlines - {id};
        return 0;
      }
      var slot := holds[id].slot;
      holds := holds[id := holds[id].(status := Expired)];
      used := used[slot := (if slot in used then used[slot] else 0) - 1];
      deadlines := deadlines - {id};
      value := 1;
    }
  }

  // ---------------------------------------------------------------- the booking log

  function BookingOf(h: Hold): Booking {
    Booking("booking-" + h.id, h.id, h.slot, h.visitorID, h.confirmedAt)
  }

  /** The append-only log and the index of hold IDs kept beside it. */
  datatype Log = Log(entries: seq<Booking>, seen: set<string>)

  function Recorded(l: Log, b: Booking): Log {
    if b.holdID in l.seen then l else Log(l.entries + [b], l.seen + {b.holdID})
  }

  function HoldIDs(entries: seq<Booking>): set<string> {
    set b | b in entries :: b.holdID
  }

  class FileBookingStore {
    var entries: seq<Booking>
    var seen: set<string>

    ghost function Contents(): Log
      reads this
    {
      Log(entries, seen)
    }

    /** Opening a log rebuilds the index by reading it from the start. */
    constructor (existing: seq<Booking>)
      ensures Contents() == Log(existing, HoldIDs(existing))
    {
      entries := existing;
      var ids: set<string> := {};
      for i := 0 to |existing|
        invariant ids == HoldIDs(existing[..i])
      {
        assert existing[..i + 1] == existing[..i] + [existing[i]];
        ids := ids + {existing[i].holdID};
      }
      assert existing[..|existing|] == existing;
      seen := ids;
    }

    /** Appends a booking once per hold. */
    method Record(b: Booking) returns (alreadyRecorded: bool)
      modifies this
      ensures alreadyRecorded == (b.holdID in old(seen))
      ensures Contents() == Recorded(old(Contents()), b)
    {
      if b.holdID in seen {
        return true;
      }
      entries := entries + [b];
      seen := seen + {b.holdID};
      alreadyRecorded := false;
    }
  }

  // ---------------------------------------------------------------- the service, undisturbed

  datatype Error = BadRequest | SlotFull | NoCapacity | HoldMissing | HoldInactive | NoConfirmationTime

  datatype Result<T> = Ok(value: T) | Err(error: Error)

  /** When nobody else acts in between: whether confirming this hold succeeds. */
  predicate Confirmable(r: Redis, id: string, checkedAt: int, readAt: int, confirmedAt: int) {
    && id in r.holds
    && match r.holds[id].status
       case Confirming => r.holds[id].confirmedAt != ZERO_TIME
       case Confirmed => r.holds[id].confirmedAt != ZERO_TIME
       case Held =>
         && checkedAt < r.holds[id].expiresAt && Millis(readAt) < Get(r.deadlines, id, 0)
         && confirmedAt != ZERO_TIME
       case Expired => false
  }

  class Service {
    const redis: RedisServer
    const bookings: FileBookingStore

    constructor (redis: RedisServer, bookings: FileBookingStore)
      ensures this.redis == redis && this.bookings == bookings
    {
      this.redis := redis;
      this.bookings := bookings;
    }

    method SetCapacity(slot: string, capacity: int) returns (ok: bool)
      modifies redis
      ensures ok == (slot != "" && capacity >= 0)
      ensures redis.State() == if ok then old(redis.State()).(capacity := old(redis.capacity)[slot := capacity])
                               else old(redis.State())
    {
      if slot == "" || capacity < 0 {
        return false;
      }
      redis.capacity := redis.capacity[slot := capacity];
      ok := true;
    }

    method CreateHold(slot: string, visitorID: string, ttl: int, now: int, id: string) returns (h: Result<Hold>)
      modifies redis
      ensures if slot == "" || visitorID == "" || ttl <= 0 then
                redis.State() == old(redis.State()) && h == Err(BadRequest)
              else
                && redis.State() == Created(old(redis.State()), id, slot, visitorID, now + ttl)
                && (h.Ok? ==> redis.holds == old(redis.holds)[id := h.value])
                && h == if slot !in old(redis.capacity) || old(redis.capacity)[slot] < 0 then Err(NoCapacity)
                        else if Get(old(redis.used), slot, 0) >= old(redis.capacity)[slot] then Err(SlotFull)
                        else Ok(Hold(id, slot, visitorID, Held, now + ttl, ZERO_TIME))
    {
      if slot == "" || visitorID == "" || ttl <= 0 {
        return Err(BadRequest);
      }
      var value := redis.EvalCreate(id, slot, visitorID, now + ttl);
      h := if value == 1 then Ok(Hold(id, slot, visitorID, Held, now + ttl, ZERO_TIME))
           else if value == 0 then Err(SlotFull)
           else Err(NoCapacity);
    }

    /** Without interference a confirmation succeeds exactly when the hold can be confirmed, and
        then the hold is confirmed and its booking recorded; otherwise no booking is made, and
        Redis stays as it was unless the clock read the zero time. */
    method ConfirmHold(id: string, checkedAt: int, confirmedAt: int, readAt: int) returns (b: Result<Booking>)
      requires id in redis.holds ==> redis.holds[id].id == id
      modifies redis, bookings
      ensures b.Ok? <==> old(Confirmable(redis.State(), id, checkedAt, readAt, confirmedAt))
      ensures b.Err? && id !in old(redis.holds) ==> b.error == HoldMissing
      ensures b.Err? && id in old(redis.holds) ==>
              match old(redis.holds)[id].status
              case Held =>
                var deadline := if id in old(redis.deadlines) then old(redis.deadlines)[id] else 0;
                var inTime := checkedAt < old(redis.holds)[id].expiresAt && readAt / 1_000_000 < deadline;
                b.error == if inTime then NoConfirmationTime else HoldInactive
              case Expired => b.error == HoldInactive
              case _ => b.error == NoConfirmationTime
      ensures b.Ok? ==>
              && id in old(redis.holds)
              && match old(redis.holds)[id].status
                 case Held =>
                   && checkedAt < old(redis.holds)[id].expiresAt && confirmedAt != ZERO_TIME
                   && readAt / 1_000_000 < if id in old(redis.deadlines) then old(redis.deadlines)[id] else 0
                 case Expired => false
                 case _ => old(redis.holds)[id].confirmedAt != ZERO_TIME
      ensures b.Ok? ==> HasStatus(redis.State(), id, Confirmed) && b.value == BookingOf(redis.holds[id])
      ensures b.Ok? ==>
              redis.State() == Finalized(ConfirmBegun(old(redis.State()), id, Millis(readAt), confirmedAt), id)
      ensures b.Ok? ==> bookings.Contents() == Recorded(old(bookings.Contents()), b.value)
      ensures b.Err? ==> bookings.Contents() == old(bookings.Contents())
      ensures b.Err? ==> || redis.State() == old(redis.State())
                         || (confirmedAt == ZERO_TIME
                             && redis.State() == ConfirmBegun(old(redis.State()), id, Millis(readAt), confirmedAt))
    {
      if id !in redis.holds {
        return Err(HoldMissing);
      }
      var hold := redis.holds[id];
      if hold.status == Confirmed || hold.status == Confirming {
        b := PersistAndFinalize(hold);
        return;
      }
      if hold.status != Held || hold.expiresAt <= checkedAt {
        return Err(HoldInactive);
      }
      var value := redis.EvalConfirm(id, Millis(readAt), confirmedAt);
      if value != 1 {
        b := ConfirmLatest(id);
        return;
      }
      hold := hold.(status := Confirming, confirmedAt := confirmedAt);
      b := PersistAndFinalize(hold);
    }

    /** The second look after a refused confirmation: another worker may have begun it. */
    method ConfirmLatest(id: string) returns (b: Result<Booking>)
      requires id in redis.holds ==> redis.holds[id].id == id
      modifies redis, bookings
      ensures var r := old(redis.State());
              if id !in r.holds then
                b == Err(HoldMissing) && redis.State() == r && bookings.Contents() == old(bookings.Contents())
              else if !HasStatus(r, id, Confirming) && !HasStatus(r, id, Confirmed) then
                b == Err(HoldInactive) && redis.State() == r && bookings.Contents() == old(bookings.Contents())
              else if r.holds[id].confirmedAt == ZERO_TIME then
                b == Err(NoConfirmationTime) && redis.State() == r && bookings.Contents() == old(bookings.Contents())
              else
                && b == Ok(BookingOf(r.holds[id])) && redis.State() == Finalized(r, id)
                && bookings.Contents() == Recorded(old(bookings.Contents()), BookingOf(r.holds[id]))
    {
      if id !in redis.holds {
        return Err(HoldMissing);
      }
      var latest := redis.holds[id];
      if latest.status != Confirming && latest.status != Confirmed {
        return Err(HoldInactive);
      }
      b := PersistAndFinalize(latest);
    }

    /** `hold` is what the caller read or made; it may have been overtaken. */
    method PersistAndFinalize(hold: Hold) returns (b: Result<Booking>)
      modifies redis, bookings
      ensures hold.confirmedAt == ZERO_TIME ==>
              && b == Err(NoConfirmationTime) && redis.State() == old(redis.State())
              && bookings.Contents() == old(bookings.Contents())
      ensures hold.confirmedAt != ZERO_TIME ==>
              && bookings.Contents() == Recorded(old(bookings.Contents()), BookingOf(hold))
              && redis.State() == (if hold.status == Confirmed then old(redis.State())
                                   else Finalized(old(redis.State()), hold.id))
              && b == if hold.status == Confirmed || HasStatus(old(redis.State()), hold.id, Confirming)
                      then Ok(BookingOf(hold)) else Err(HoldInactive)
    {
      if hold.confirmedAt == ZERO_TIME {
        return Err(NoConfirmationTime);
      }
      var booking := Booking("booking-" + hold.id, hold.id, hold.slot, hold.visitorID, hold.confirmedAt);
      var again := bookings.Record(booking);
      if hold.status == Confirmed {
        return Ok(booking);
      }
      var value := redis.EvalFinalize(hold.id);
      b := if value == 1 then Ok(booking) else Err(HoldInactive);
    }

    /** Without interference recovery finishes the oldest hundred pending confirmations. */
    method RecoverPendingConfirmations() returns (ghost ids: seq<string>)
      requires forall id | id in redis.holds :: redis.holds[id].id == id
      modifies redis, bookings
      ensures IsFirst(old(redis.pending), 100, ids)
      ensures (redis.State(), bookings.Contents()) == RecoveredEach(old(redis.State()), old(bookings.Contents()), ids)
    {
      var range := redis.PendingRange(100);
      ids := range;
      ghost var r, l := redis.State(), bookings.Contents();
      for i := 0 to |range|
        invariant (redis.State(), bookings.Contents()) == RecoveredEach(r, l, range[..i])
      {
        RecoveredEachKeepsIDs(r, l, range[..i], range[i]);
        assert range[..i + 1][..i] == range[..i];
        if range[i] in redis.holds {
          var hold := redis.holds[range[i]];
          if hold.status == Confirming {
            var ignored := PersistAndFinalize(hold);
          }
        }
      }
      assert range[..|range|] == range;
    }

    /** Without interference one sweep releases exactly the held IDs whose deadline, in whole
        milliseconds, has come, and reports how many. */
    method ReleaseExpiredHolds(now: int) returns (released: nat)
      modifies redis
      ensures IsReleasedAll(old(redis.State()), DueIDs(old(redis.State()), Millis(now)), redis.State())
      ensures released == |HeldAmong(old(redis.State()), DueIDs(old(redis.State()), Millis(now)))|
      ensures redis.holds.Keys == old(redis.holds).Keys
      ensures forall id | id in redis.holds ::
                redis.holds[id] ==
                  if && old(redis.holds)[id].status == Held
                     && id in old(redis.deadlines) && old(redis.deadlines)[id] <= now / 1_000_000
                  then old(redis.holds)[id].(status := Expired) else old(redis.holds)[id]
    {
      var ids := redis.RangeByScore(Millis(now));
      ghost var before := redis.State();
      released := 0;
      for i := 0 to |ids|
        invariant redis.State() == ReleasedEach(before, ids[..i])
        invariant released == |HeldAmong(before, Elements(ids[..i]))|
      {
        ReleasedEachOneMore(before, ids, i);
        var value := redis.EvalRelease(ids[i]);
        if value == 1 {
          released := released + 1;
        }
      }
      assert ids[..|ids|] == ids;
      ReleasedEachIsAll(before, ids);
    }
  }

  // ---------------------------------------------------------------- recovery

  predicate IsRecoverable(r: Redis, id: string) {
    HasStatus(r, id, Confirming) && r.holds[id].confirmedAt != ZERO_TIME
  }

  function Recovered(r: Redis, l: Log, id: string): (Redis, Log) {
    if IsRecoverable(r, id) then (Finalized(r, id), Recorded(l, BookingOf(r.holds[id]))) else (r, l)
  }

  function RecoveredEach(r: Redis, l: Log, ids: seq<string>): (Redis, Log) {
    if ids == [] then (r, l)
    else
      var (r', l') := RecoveredEach(r, l, ids[..|ids| - 1]);
      Recovered(r', l', ids[|ids| - 1])
  }

  lemma {:induction false} RecoveredEachKeepsIDs(r: Redis, l: Log, ids: seq<string>, id: string)
    requires id in r.holds ==> r.holds[id].id == id
    ensures var r' := RecoveredEach(r, l, ids).0;
            id in r'.holds ==> id in r.holds && r'.holds[id].id == id
  {
    if ids != [] {
      RecoveredEachKeepsIDs(r, l, ids[..|ids| - 1], id);
    }
  }

  /** Whether recovery over `ids` takes this hold up. */
  predicate TakenUp(r: Redis, ids: seq<string>, id: string) {
    id in ids && id in r.holds && r.holds[id].status == Confirming && r.holds[id].confirmedAt != ZERO_TIME
  }

  /** Recovery confirms, records and takes off the pending set exactly the confirming holds it
      takes up that have a confirmation time; every other hold and index entry stays. */
  lemma {:induction false} RecoveryCompletes(r: Redis, l: Log, ids: seq<string>, id: string)
    requires forall x | x in r.holds :: r.holds[x].id == x
    ensures var (r', l') := RecoveredEach(r, l, ids);
            && r'.holds.Keys == r.holds.Keys
            && (id in r.holds ==>
                  r'.holds[id] == if TakenUp(r, ids, id) then r.holds[id].(status := Confirmed) else r.holds[id])
            && (id in r'.pending <==> id in r.pending && !TakenUp(r, ids, id))
            && (id in l'.seen <==> id in l.seen || TakenUp(r, ids, id))
            && r'.used == r.used && r'.capacity == r.capacity && r'.deadlines == r.deadlines
  {
    if ids != [] {
      var last := |ids| - 1;
      var (r', l') := RecoveredEach(r, l, ids[..last]);
      RecoveryCompletes(r, l, ids[..last], id);
      RecoveryCompletes(r, l, ids[..last], ids[last]);
      assert id in ids <==> id in ids[..last] || id == ids[last];
      RecoveredOne(r', l', ids[last], id);
    }
  }

  lemma RecoveredOne(r: Redis, l: Log, one: string, id: string)
    requires one in r.holds ==> r.holds[one].id == one
    ensures var (r', l') := Recovered(r, l, one);
            && r'.holds.Keys == r.holds.Keys
            && (id in r.holds ==>
                  r'.holds[id]
                  == if id == one && IsRecoverable(r, id) then r.holds[id].(status := Confirmed) else r.holds[id])
            && (id in r'.pending <==> id in r.pending && !(id == one && IsRecoverable(r, id)))
            && (id in l'.seen <==> id in l.seen || (id == one && IsRecoverable(r, id)))
            && r'.used == r.used && r'.capacity == r.capacity && r'.deadlines == r.deadlines
  {
  }

  // ---------------------------------------------------------------- sweeps

  ghost function DueIDs(r: Redis, nowMs: int): set<string> {
    set id | id in r.deadlines && r.deadlines[id] <= nowMs
  }

  ghost function HeldIn(r: Redis, ids: set<string>, slot: string): set<string> {
    set id | id in ids && HasStatus(r, id, Held) && r.holds[id].slot == slot
  }

  /** The holds after the held ones among `ids` have expired. */
  ghost function ExpiredAll(holds: map<string, Hold>, ids: set<string>): map<string, Hold> {
    map id | id in holds ::
      if id in ids && holds[id].status == Held then holds[id].(status := Expired) else holds[id]
  }

  ghost function HeldAmong(r: Redis, ids: set<string>): set<string> {
    set id | id in ids && HasStatus(r, id, Held)
  }

  /** All the held IDs among `ids` released, each slot giving back one place per hold. */
  ghost predicate IsReleasedAll(r: Redis, ids: set<string>, r': Redis) {
    && r'.capacity == r.capacity && r'.pending == r.pending
    && r'.holds == ExpiredAll(r.holds, ids)
    && r'.deadlines == r.deadlines - ids
    && forall slot: string :: Get(r'.used, slot, 0) == Get(r.used, slot, 0) - |HeldIn(r, ids, slot)|
  }

  lemma HeldInOneMore(r: Redis, ids: set<string>, id: string, slot: string)
    requires id !in ids
    ensures |HeldIn(r, ids + {id}, slot)| == |HeldIn(r, ids, slot)| +
              (if HasStatus(r, id, Held) && r.holds[id].slot == slot then 1 else 0)
    ensures |HeldAmong(r, ids + {id})| == |HeldAmong(r, ids)| + (if HasStatus(r, id, Held) then 1 else 0)
  {
    if HasStatus(r, id, Held) {
      assert HeldAmong(r, ids + {id}) == HeldAmong(r, ids) + {id};
    } else {
      assert HeldAmong(r, ids + {id}) == HeldAmong(r, ids);
    }
    if HasStatus(r, id, Held) && r.holds[id].slot == slot {
      assert HeldIn(r, ids + {id}, slot) == HeldIn(r, ids, slot) + {id};
    } else {
      assert HeldIn(r, ids + {id}, slot) == HeldIn(r, ids, slot);
    }
  }

  /** The releases of a sweep, one script after the other. */
  ghost function ReleasedEach(r: Redis, ids: seq<string>): Redis {
    if ids == [] then r else Released(ReleasedEach(r, ids[..|ids| - 1]), ids[|ids| - 1])
  }

  lemma ExpiredOneMore(holds: map<string, Hold>, ids: set<string>, id: string)
    requires id !in ids
    ensures ExpiredAll(holds, ids + {id}) ==
            if id in holds && holds[id].status == Held
            then ExpiredAll(holds, ids)[id := holds[id].(status := Expired)] else ExpiredAll(holds, ids)
  {
  }

  lemma ReleasedOneMore(r: Redis, ids: set<string>, mid: Redis, id: string)
    requires IsReleasedAll(r, ids, mid) && id !in ids
    ensures IsReleasedAll(r, ids + {id}, Released(mid, id))
  {
    ExpiredOneMore(r.holds, ids, id);
    assert HasStatus(mid, id, Held) <==> HasStatus(r, id, Held);
    assert mid.deadlines - {id} == r.deadlines - (ids + {id});
    forall slot: string
      ensures Get(Released(mid, id).used, slot, 0) == Get(r.used, slot, 0) - |HeldIn(r, ids + {id}, slot)|
    {
      HeldInOneMore(r, ids, id, slot);
    }
  }

  lemma {:induction false} ReleasedEachIsAll(r: Redis, ids: seq<string>)
    requires AreDistinct(ids)
    ensures IsReleasedAll(r, Elements(ids), ReleasedEach(r, ids))
  {
    if ids == [] {
      assert forall slot :: HeldIn(r, Elements(ids), slot) == {};
    } else {
      var last := |ids| - 1;
      ReleasedEachIsAll(r, ids[..last]);
      ReleasedOneMore(r, Elements(ids[..last]), ReleasedEach(r, ids[..last]), ids[last]);
      assert Elements(ids) == Elements(ids[..last]) + {ids[last]};
    }
  }

  /** The script finds a hold still held exactly when it was held before the sweep. */
  lemma ReleasedEachOneMore(r: Redis, ids: seq<string>, i: nat)
    requires AreDistinct(ids) && i < |ids|
    ensures ReleasedEach(r, ids[..i + 1]) == Released(ReleasedEach(r, ids[..i]), ids[i])
    ensures |HeldAmong(r, Elements(ids[..i + 1]))| == |HeldAmong(r, Elements(ids[..i]))| +
              (if HasStatus(ReleasedEach(r, ids[..i]), ids[i], Held) then 1 else 0)
  {
    assert ids[..i + 1][..i] == ids[..i];
    ReleasedEachIsAll(r, ids[..i]);
    assert Elements(ids[..i + 1]) == Elements(ids[..i]) + {ids[i]};
    HeldInOneMore(r, Elements(ids[..i]), ids[i], "");
  }

  // ---------------------------------------------------------------- deadlines in milliseconds

  /** A sweep at `now` takes up a hold that expires at `expiresAt`. */
  predicate SweptAt(expiresAt: int, now: int) {
    Millis(expiresAt) <= Millis(now)
  }

  ghost predicate NeverSweptEarly(expiresAt: int) {
    forall now: int | SweptAt(expiresAt, now) :: expiresAt <= now
  }

  /** Deadlines are kept in whole milliseconds, so a sweep can come before the instant a hold
      expires: it never does exactly when that instant is a whole millisecond. */
  lemma NeverSweptEarlyIffWholeMillisecond(expiresAt: int)
    ensures NeverSweptEarly(expiresAt) <==> expiresAt % NS_PER_MS == 0
  {
    if expiresAt % NS_PER_MS != 0 {
      var now := Millis(expiresAt) * NS_PER_MS;
      assert Millis(now) == Millis(expiresAt);
      assert SweptAt(expiresAt, now) && now < expiresAt;
    }
  }

  /** A sweep is early by less than a millisecond. */
  lemma SweptEarlyByLessThanOneMillisecond(expiresAt: int, now: int)
    requires SweptAt(expiresAt, now)
    ensures expiresAt - now < NS_PER_MS
  {
  }
}
