/** Every interleaving of recording, flushing and restarting (subscription-core/usage): what is
    billed is what was recorded, and exactly when that survives a restart. */
module UsageRuns {
  import opened Collections
  import opened Histories
  import Int64
  import opened UsageKeys
  import opened UsageFlush

  /** `begun` says that the flusher has taken a snapshot since it started; `todo` holds the keys of
      the snapshot that the running flush has still to visit; `failed` says that the latest flush
      was cut short by a failed append; `carried` is the ledger that the flusher found when it
      started. */
  datatype World = World(
    counters: Counters, books: Books, begun: bool, snap: Counters, todo: set<string>, failed: bool,
    carried: seq<LedgerEntry>)

  const START: World := World(map[], Books([], map[]), false, map[], {}, false, [])

  /** A restart forgets what was flushed; the counters survive when they are durable. */
  datatype Step =
    | Record(usage: Usage, n: int)
    | Begin
    | Visit(key: string, appends: bool)
    | Restart(durable: bool)

  function Exec(w: World, s: Step): World {
    match s
    case Record(u, n) => w.(counters := Increased(w.counters, Key(u), n))
    case Begin =>
      if w.todo != {} then w else w.(begun := true, snap := w.counters, todo := w.counters.Keys, failed := false)
    case Visit(key, appends) =>
      if key !in w.todo then w
      else if NeedsFlush(w.books, w.snap, key) && !appends then w.(todo := {}, failed := true)
      else w.(books := Visited(w.books, w.snap, key), todo := w.todo - {key})
    case Restart(durable) =>
      var counters := if durable then w.counters else map[];
      World(counters, Books(w.books.ledger, map[]), false, map[], {}, false, w.books.ledger)
  }

  ghost predicate IsHistory(h: History<Step, World>) {
    Follows(h, START, Exec)
  }

  /** The visits of a flush whose appends succeed. */
  function VisitAll(w: World, keys: seq<string>): World {
    if keys == [] then w else Exec(VisitAll(w, keys[..|keys| - 1]), Visit(keys[|keys| - 1], true))
  }

  /** The flusher's loop over a snapshot is a run of visits: the books end up the same. */
  lemma {:induction false} FlushIsVisits(w: World, keys: seq<string>)
    requires AreDistinct(keys) && forall k | k in keys :: k in w.todo
    ensures var w' := VisitAll(w, keys);
            && w'.books == VisitedAll(w.books, w.snap, keys)
            && w'.snap == w.snap && w'.counters == w.counters && w'.failed == w.failed
            && forall k :: k in w'.todo <==> k in w.todo && k !in keys
  {
    if keys != [] {
      FlushIsVisits(w, keys[..|keys| - 1]);
      assert keys == keys[..|keys| - 1] + [keys[|keys| - 1]];
    }
  }

  /** Every charge is for some amount, of 64 bits, and for a usage that a key can name. */
  lemma {:induction false} ChargesAreReal(h: History<Step, World>, k: nat, i: nat)
    requires IsHistory(h) && k <= |h.steps| && i < |h.worlds[k].books.ledger|
    ensures var e := h.worlds[k].books.ledger[i];
            && e.amount != 0 && -0x8000_0000_0000_0000 <= e.amount <= 0x7fff_ffff_ffff_ffff
            && exists key :: Parse(key) == Some(e.usage)
  {
    NextWorld(h, START, Exec, k - 1);
    if i < |h.worlds[k - 1].books.ledger| {
      ChargesAreReal(h, k - 1, i);
    } else {
      assert Parse(h.steps[k - 1].key) == Some(h.worlds[k].books.ledger[i].usage);
    }
  }

  /** What the ledger charges for a usage. */
  function Billed(ledger: seq<LedgerEntry>, u: Usage): int {
    if ledger == [] then 0
    else
      var last := ledger[|ledger| - 1];
      Billed(ledger[..|ledger| - 1], u) + (if last.usage == u then last.amount else 0)
  }

  /** What was recorded under a key in the first `k` steps. */
  function Recorded(steps: seq<Step>, k: nat, key: string): int
    requires k <= |steps|
  {
    if k == 0 then 0
    else
      var s := steps[k - 1];
      Recorded(steps, k - 1, key) + (if s.Record? && Key(s.usage) == key then s.n else 0)
  }

  /** What was recorded under a key since the counters were last lost. */
  function Kept(steps: seq<Step>, k: nat, key: string): int
    requires k <= |steps|
  {
    if k == 0 then 0
    else
      match steps[k - 1]
      case Record(u, n) => Kept(steps, k - 1, key) + (if Key(u) == key then n else 0)
      case Restart(durable) => if durable then Kept(steps, k - 1, key) else 0
      case _ => Kept(steps, k - 1, key)
  }

  /** What was recorded for a usage in the first `k` steps. */
  function RecordedFor(steps: seq<Step>, k: nat, u: Usage): int
    requires k <= |steps|
  {
    if k == 0 then 0
    else
      var s := steps[k - 1];
      RecordedFor(steps, k - 1, u) + (if s.Record? && s.usage == u then s.n else 0)
  }

  // ---------------------------------------------------------------- the ledger holds what is flushed

  /** The ledger's charge for a usage is what it was at the start plus the flushed total of its
      key. */
  predicate BookFits(b: Books, carried: seq<LedgerEntry>, u: Usage) {
    Int64.Wrap(Billed(b.ledger, u))
    == Int64.Wrap(Billed(carried, u) + (if IsClean(u) then At(b.flushed, Key(u)) else 0))
  }

  lemma BilledOneMore(ledger: seq<LedgerEntry>, e: LedgerEntry, u: Usage)
    ensures Billed(ledger + [e], u) == Billed(ledger, u) + (if e.usage == u then e.amount else 0)
  {
    assert (ledger + [e])[..|ledger|] == ledger;
  }

  /** Adding the wrapped difference to a sum brings it up to the new total. */
  lemma DifferenceCatchesUp(sum: int, base: int, flushed: int, total: int)
    requires Int64.Wrap(sum) == Int64.Wrap(base + flushed)
    ensures Int64.Wrap(sum + Int64.Wrap(total - flushed)) == Int64.Wrap(base + total)
  {
    Int64.WrapOfSum(total - flushed, sum);
    Int64.WrapOfSum(sum, total - flushed);
    Int64.WrapOfSum(base + flushed, total - flushed);
  }

  lemma VisitKeepsBook(b: Books, carried: seq<LedgerEntry>, snap: Counters, key: string, u: Usage)
    requires BookFits(b, carried, u)
    ensures BookFits(Visited(b, snap, key), carried, u)
  {
    if NeedsFlush(b, snap, key) {
      var billed := Parse(key).value;
      KeyOfParse(key, billed);
      if billed == u {
        ChargeKeepsBook(b, carried, snap, u);
      } else {
        BilledOneMore(b.ledger, LedgerEntry(billed, Delta(b, snap, key)), u);
        if IsClean(u) && Key(u) == key {
          KeysAreDistinct(billed, u);
        }
      }
    }
  }

  /** The entry for the usage itself brings its charge up to the snapshot. */
  lemma ChargeKeepsBook(b: Books, carried: seq<LedgerEntry>, snap: Counters, u: Usage)
    requires BookFits(b, carried, u) && IsClean(u)
    ensures var key := Key(u);
            BookFits(Books(b.ledger + [LedgerEntry(u, Delta(b, snap, key))], b.flushed[key := At(snap, key)]),
                     carried, u)
  {
    var key := Key(u);
    BilledOneMore(b.ledger, LedgerEntry(u, Delta(b, snap, key)), u);
    DifferenceCatchesUp(Billed(b.ledger, u), Billed(carried, u), At(b.flushed, key), At(snap, key));
  }

  /** All totals are int64. */
  ghost predicate AreTotals(m: Counters) {
    forall k | k in m :: Int64.InRange(m[k])
  }

  /** A key that the running flush has passed is settled, if it is a usage key at all. */
  predicate KeyFits(w: World, key: string) {
    && (key in w.books.flushed ==> key in w.snap)
    && (key in w.snap ==> key in w.counters)
    && (key in w.todo ==> key in w.snap)
    && (key in w.snap && key !in w.todo && !w.failed && Parse(key).Some? ==> At(w.books.flushed, key) == w.snap[key])
  }

  ghost predicate Inv(w: World) {
    && AreTotals(w.counters) && AreTotals(w.snap) && AreTotals(w.books.flushed)
    && (forall key :: KeyFits(w, key))
    && (forall u :: BookFits(w.books, w.carried, u))
  }

  lemma NoDifferenceMeansEqual(total: int, flushed: int)
    requires Int64.InRange(total) && Int64.InRange(flushed) && Int64.Wrap(total - flushed) == 0
    ensures total == flushed
  {
  }

  lemma VisitKeepsKey(w: World, visited: string, appends: bool, key: string)
    requires KeyFits(w, key) && KeyFits(w, visited) && visited in w.todo
    requires Int64.InRange(At(w.snap, visited)) && Int64.InRange(At(w.books.flushed, visited))
    ensures KeyFits(Exec(w, Visit(visited, appends)), key)
  {
    if key == visited && Delta(w.books, w.snap, visited) == 0 {
      NoDifferenceMeansEqual(At(w.snap, visited), At(w.books.flushed, visited));
    }
  }

  lemma VisitKeepsInv(w: World, visited: string, appends: bool)
    requires Inv(w)
    ensures Inv(Exec(w, Visit(visited, appends)))
  {
    var w' := Exec(w, Visit(visited, appends));
    assert KeyFits(w, visited);
    if visited in w.todo {
      forall key
        ensures KeyFits(w', key)
      {
        VisitKeepsKey(w, visited, appends, key);
      }
      forall u
        ensures BookFits(w'.books, w'.carried, u)
      {
        VisitKeepsBook(w.books, w.carried, w.snap, visited, u);
      }
    }
  }

  lemma RecordKeepsInv(w: World, u: Usage, n: int)
    requires Inv(w)
    ensures Inv(Exec(w, Record(u, n)))
  {
    var w' := Exec(w, Record(u, n));
    forall key
      ensures KeyFits(w', key)
    {
      assert KeyFits(w, key);
    }
  }

  lemma BeginKeepsInv(w: World)
    requires Inv(w)
    ensures Inv(Exec(w, Begin))
  {
    var w' := Exec(w, Begin);
    forall key
      ensures KeyFits(w', key)
    {
      assert KeyFits(w, key);
    }
  }

  lemma RestartKeepsInv(w: World, durable: bool)
    requires Inv(w)
    ensures Inv(Exec(w, Restart(durable)))
  {
  }

  lemma {:induction false} InvAlways(h: History<Step, World>, k: nat)
    requires IsHistory(h) && k <= |h.steps|
    ensures Inv(h.worlds[k])
  {
    if k > 0 {
      InvAlways(h, k - 1);
      NextWorld(h, START, Exec, k - 1);
      match h.steps[k - 1]
      case Record(u, n) => RecordKeepsInv(h.worlds[k - 1], u, n);
      case Begin => BeginKeepsInv(h.worlds[k - 1]);
      case Visit(key, appends) => VisitKeepsInv(h.worlds[k - 1], key, appends);
      case Restart(durable) => RestartKeepsInv(h.worlds[k - 1], durable);
    }
  }

  // ---------------------------------------------------------------- guarantees

  /** At every moment the ledger's charge for a usage is what the flusher found plus the flushed
      total of its key, and nothing is added to a usage whose key does not read back. */
  lemma LedgerHoldsFlushed(h: History<Step, World>, k: nat, u: Usage)
    requires IsHistory(h) && k <= |h.steps|
    ensures var w := h.worlds[k];
            Int64.Wrap(Billed(w.books.ledger, u))
            == Int64.Wrap(Billed(w.carried, u) + (if IsClean(u) then At(w.books.flushed, Key(u)) else 0))
  {
    InvAlways(h, k);
    assert BookFits(h.worlds[k].books, h.worlds[k].carried, u);
  }

  /** The latest flush has run to its end without an error. */
  predicate IsSettled(w: World) {
    w.begun && w.todo == {} && !w.failed
  }

  /** A settled ledger charges what the flusher found plus the total of the snapshot. */
  lemma FlushSettlesSnapshot(h: History<Step, World>, k: nat, u: Usage)
    requires IsHistory(h) && k <= |h.steps| && IsClean(u) && IsSettled(h.worlds[k])
    ensures var w := h.worlds[k];
            Int64.Wrap(Billed(w.books.ledger, u)) == Int64.Wrap(Billed(w.carried, u) + At(w.snap, Key(u)))
  {
    InvAlways(h, k);
    LedgerHoldsFlushed(h, k, u);
    ParseOfKey(u);
    assert KeyFits(h.worlds[k], Key(u));
  }

  lemma {:induction false} CountersHoldRecorded(h: History<Step, World>, k: nat, key: string)
    requires IsHistory(h) && k <= |h.steps|
    ensures At(h.worlds[k].counters, key) == Int64.Wrap(Kept(h.steps, k, key))
  {
    if k > 0 {
      CountersHoldRecorded(h, k - 1, key);
      NextWorld(h, START, Exec, k - 1);
      var s := h.steps[k - 1];
      if s.Record? && Key(s.usage) == key {
        Int64.WrapOfSum(Kept(h.steps, k - 1, key), s.n);
      }
    }
  }

  /** The moment the running flusher started. */
  function Started(steps: seq<Step>, k: nat): (r: nat)
    requires k <= |steps|
    ensures r <= k
  {
    if k == 0 then 0 else if steps[k - 1].Restart? then k else Started(steps, k - 1)
  }

  /** A snapshot is the counters of a moment since the flusher started. */
  lemma {:induction false} SnapshotWasTaken(h: History<Step, World>, k: nat) returns (j: nat)
    requires IsHistory(h) && k <= |h.steps| && h.worlds[k].begun
    ensures Started(h.steps, k) <= j <= k && h.worlds[k].snap == h.worlds[j].counters
  {
    NextWorld(h, START, Exec, k - 1);
    if h.worlds[k - 1].begun && h.worlds[k].snap == h.worlds[k - 1].snap {
      j := SnapshotWasTaken(h, k - 1);
    } else {
      j := k - 1;
    }
  }

  /** A flushed total is the counter of a moment since the flusher started. */
  lemma {:induction false} FlushedWasCounted(h: History<Step, World>, k: nat, key: string) returns (j: nat)
    requires IsHistory(h) && k <= |h.steps| && key in h.worlds[k].books.flushed
    ensures Started(h.steps, k) <= j <= k && At(h.worlds[k].books.flushed, key) == At(h.worlds[j].counters, key)
  {
    NextWorld(h, START, Exec, k - 1);
    var before := h.worlds[k - 1].books.flushed;
    if key in before && At(h.worlds[k].books.flushed, key) == At(before, key) {
      j := FlushedWasCounted(h, k - 1, key);
    } else {
      VisitsFollowBegin(h, k - 1);
      j := SnapshotWasTaken(h, k - 1);
    }
  }

  lemma {:induction false} VisitsFollowBegin(h: History<Step, World>, k: nat)
    requires IsHistory(h) && k <= |h.steps|
    ensures h.worlds[k].todo != {} ==> h.worlds[k].begun
  {
    if k > 0 {
      VisitsFollowBegin(h, k - 1);
      NextWorld(h, START, Exec, k - 1);
    }
  }

  /** Whatever fails and whenever, a flusher adds to a usage's charge nothing, or the total that
      the counter held at some moment since it started. */
  lemma ChargeWasRecorded(h: History<Step, World>, k: nat, u: Usage) returns (j: nat)
    requires IsHistory(h) && k <= |h.steps| && IsClean(u)
    ensures Started(h.steps, k) <= j <= k
    ensures var charge, found := Billed(h.worlds[k].books.ledger, u), Billed(h.worlds[k].carried, u);
            || Int64.Wrap(charge) == Int64.Wrap(found)
            || Int64.Wrap(charge) == Int64.Wrap(found + Kept(h.steps, j, Key(u)))
  {
    LedgerHoldsFlushed(h, k, u);
    j := k;
    if Key(u) in h.worlds[k].books.flushed {
      j := FlushedWasCounted(h, k, Key(u));
      CountersHoldRecorded(h, j, Key(u));
      Int64.WrapOfSum(Kept(h.steps, j, Key(u)), Billed(h.worlds[k].carried, u));
    }
  }

  ghost predicate NoRestart(steps: seq<Step>, from: nat, to: nat)
    requires to <= |steps|
  {
    forall i | from <= i < to :: !steps[i].Restart?
  }

  lemma {:induction false} FirstFlusher(h: History<Step, World>, k: nat, key: string)
    requires IsHistory(h) && k <= |h.steps| && NoRestart(h.steps, 0, k)
    ensures h.worlds[k].carried == [] && Kept(h.steps, k, key) == Recorded(h.steps, k, key)
  {
    if k > 0 {
      FirstFlusher(h, k - 1, key);
      NextWorld(h, START, Exec, k - 1);
    }
  }

  /** Features without colons keep their usages apart. */
  lemma {:induction false} KeyTotalsAreUsageTotals(steps: seq<Step>, k: nat, u: Usage)
    requires k <= |steps| && IsClean(u)
    requires forall i | 0 <= i < k && steps[i].Record? :: IsClean(steps[i].usage)
    ensures Recorded(steps, k, Key(u)) == RecordedFor(steps, k, u)
  {
    if k > 0 {
      KeyTotalsAreUsageTotals(steps, k - 1, u);
      var s := steps[k - 1];
      if s.Record? && Key(s.usage) == Key(u) {
        KeysAreDistinct(s.usage, u);
      }
    }
  }

  /** End to end: when all recorded usages are clean and the flusher has not restarted, a settled
      ledger charges each usage exactly what was recorded for it before the snapshot. */
  lemma BilledIsRecorded(h: History<Step, World>, k: nat, u: Usage) returns (j: nat)
    requires IsHistory(h) && k <= |h.steps| && IsClean(u) && IsSettled(h.worlds[k]) && NoRestart(h.steps, 0, k)
    requires forall i | 0 <= i < |h.steps| && h.steps[i].Record? :: IsClean(h.steps[i].usage)
    ensures j <= k && h.worlds[k].snap == h.worlds[j].counters
    ensures Int64.Wrap(Billed(h.worlds[k].books.ledger, u)) == Int64.Wrap(RecordedFor(h.steps, j, u))
  {
    FlushSettlesSnapshot(h, k, u);
    j := SnapshotWasTaken(h, k);
    FirstFlusher(h, k, Key(u));
    FirstFlusher(h, j, Key(u));
    CountersHoldRecorded(h, j, Key(u));
    KeyTotalsAreUsageTotals(h.steps, j, u);
  }

  // ---------------------------------------------------------------- restarts

  /** What has happened between a restart and a later moment. */
  lemma {:induction false} SinceRestart(h: History<Step, World>, r: nat, k: nat, key: string)
    requires IsHistory(h) && r < k <= |h.steps| && h.steps[r].Restart? && NoRestart(h.steps, r + 1, k)
    ensures h.worlds[k].carried == h.worlds[r].books.ledger && Started(h.steps, k) == r + 1
    ensures Kept(h.steps, k, key) - Kept(h.steps, r + 1, key) == Recorded(h.steps, k, key) - Recorded(h.steps, r, key)
    decreases k
  {
    NextWorld(h, START, Exec, k - 1);
    if r + 1 < k {
      SinceRestart(h, r, k - 1, key);
    }
  }

  lemma WrapShifts(x: int, y: int, d: int)
    ensures Int64.Wrap(x + d) == Int64.Wrap(y + d) <==> Int64.Wrap(x) == Int64.Wrap(y)
  {
    Int64.WrapOfSum(x, d);
    Int64.WrapOfSum(y, d);
    Int64.WrapOfSum(x + d, -d);
    Int64.WrapOfSum(y + d, -d);
  }

  /** After a restart a settled ledger charges what was ever recorded under the key exactly when,
      at the restart, what had been charged and what the counters kept made up what had been
      recorded. */
  lemma RestartKeepsChargesIff(h: History<Step, World>, r: nat, k: nat, u: Usage) returns (j: nat)
    requires IsHistory(h) && r < k <= |h.steps| && h.steps[r].Restart? && NoRestart(h.steps, r + 1, k)
    requires IsClean(u) && IsSettled(h.worlds[k])
    ensures r < j <= k && h.worlds[k].snap == h.worlds[j].counters
    ensures Int64.Wrap(Billed(h.worlds[k].books.ledger, u)) == Int64.Wrap(Recorded(h.steps, j, Key(u)))
            <==> Int64.Wrap(Billed(h.worlds[r].books.ledger, u) + Kept(h.steps, r + 1, Key(u)))
                 == Int64.Wrap(Recorded(h.steps, r, Key(u)))
  {
    var key := Key(u);
    SinceRestart(h, r, k, key);
    j := SnapshotWasTaken(h, k);
    SinceRestart(h, r, j, key);
    FlushSettlesSnapshot(h, k, u);
    CountersHoldRecorded(h, j, key);
    var charged, kept := Billed(h.worlds[r].books.ledger, u), Kept(h.steps, r + 1, key);
    Int64.WrapOfSum(Kept(h.steps, j, key), charged);
    WrapShifts(charged + kept, Recorded(h.steps, r, key), Kept(h.steps, j, key) - kept);
  }

  /** For the first restart: with durable counters charges stay right exactly for usages that had
      not been charged at all; with lost counters exactly for those whose every unit had been. */
  lemma FirstRestartKeepsChargesIff(h: History<Step, World>, r: nat, k: nat, u: Usage) returns (j: nat)
    requires IsHistory(h) && r < k <= |h.steps| && h.steps[r].Restart?
    requires NoRestart(h.steps, 0, r) && NoRestart(h.steps, r + 1, k) && IsClean(u) && IsSettled(h.worlds[k])
    ensures r < j <= k && h.worlds[k].snap == h.worlds[j].counters
    ensures var charged := Int64.Wrap(Billed(h.worlds[r].books.ledger, u));
            Int64.Wrap(Billed(h.worlds[k].books.ledger, u)) == Int64.Wrap(Recorded(h.steps, j, Key(u)))
            <==> charged == if h.steps[r].durable then 0 else Int64.Wrap(Recorded(h.steps, r, Key(u)))
  {
    j := RestartKeepsChargesIff(h, r, k, u);
    FirstFlusher(h, r, Key(u));
    WrapShifts(Billed(h.worlds[r].books.ledger, u), 0, Recorded(h.steps, r, Key(u)));
  }

  /** A visit to a counter of five, of which nothing counts as flushed. */
  lemma FiveAreCharged(ledger: seq<LedgerEntry>, u: Usage)
    requires IsClean(u)
    ensures var key := Key(u);
            Visited(Books(ledger, map[]), map[key := 5], key) == Books(ledger + [LedgerEntry(u, 5)], map[key := 5])
    ensures Billed(ledger + [LedgerEntry(u, 5)], u) == Billed(ledger, u) + 5
  {
    ParseOfKey(u);
    BilledOneMore(ledger, LedgerEntry(u, 5), u);
  }

  /** Five units recorded once are charged twice when the flusher restarts over durable
      counters. */
  lemma DoubleChargeExample(h: History<Step, World>, u: Usage)
    requires IsHistory(h) && IsClean(u)
    requires h.steps == [Record(u, 5), Begin, Visit(Key(u), true), Restart(true), Begin, Visit(Key(u), true)]
    ensures Recorded(h.steps, 1, Key(u)) == 5 && h.worlds[6].snap == h.worlds[1].counters
    ensures IsSettled(h.worlds[6]) && Billed(h.worlds[6].books.ledger, u) == 10
  {
    var key, once := Key(u), [] + [LedgerEntry(u, 5)];
    FiveAreCharged([], u);
    FiveAreCharged(once, u);
    NextWorld(h, START, Exec, 0);
    NextWorld(h, START, Exec, 1);
    assert h.worlds[2] == World(map[key := 5], Books([], map[]), true, map[key := 5], {key}, false, []);
    NextWorld(h, START, Exec, 2);
    NextWorld(h, START, Exec, 3);
    assert h.worlds[4] == World(map[key := 5], Books(once, map[]), false, map[], {}, false, once);
    NextWorld(h, START, Exec, 4);
    NextWorld(h, START, Exec, 5);
    assert Recorded(h.steps, 0, key) == 0;
  }
}
