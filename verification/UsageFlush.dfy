/** Counting and flushing usage (subscription-core/usage): an in-memory counter, a meter over it
    and the flusher that appends what has accrued to a durable ledger.  Totals are int64. */
module UsageFlush {
  import opened Collections
  import Int64
  import opened UsageKeys

  type Counters = map<string, int>

  datatype LedgerEntry = LedgerEntry(usage: Usage, amount: int)

  /** The ledger, and the total per key that it already holds. */
  datatype Books = Books(ledger: seq<LedgerEntry>, flushed: Counters)

  // ---------------------------------------------------------------- what each operation does

  function At(m: Counters, key: string): int {
    if key in m then m[key] else 0
  }

  function Increased(m: Counters, key: string, n: int): Counters {
    m[key := Int64.Wrap(At(m, key) + n)]
  }

  function Delta(b: Books, snap: Counters, key: string): int {
    Int64.Wrap(At(snap, key) - At(b.flushed, key))
  }

  predicate NeedsFlush(b: Books, snap: Counters, key: string) {
    Delta(b, snap, key) != 0 && Parse(key).Some?
  }

  /** A visit to one key whose append does not fail. */
  function Visited(b: Books, snap: Counters, key: string): Books {
    if NeedsFlush(b, snap, key)
    then Books(b.ledger + [LedgerEntry(Parse(key).value, Delta(b, snap, key))], b.flushed[key := At(snap, key)])
    else b
  }

  function VisitedAll(b: Books, snap: Counters, keys: seq<string>): Books {
    if keys == [] then b else Visited(VisitedAll(b, snap, keys[..|keys| - 1]), snap, keys[|keys| - 1])
  }

  datatype VisitOutcome = Skipped | Wrote | Failed

  lemma VisitedOneMore(b: Books, snap: Counters, keys: seq<string>, key: string)
    ensures VisitedAll(b, snap, keys + [key]) == Visited(VisitedAll(b, snap, keys), snap, key)
  {
    assert (keys + [key])[..|keys|] == keys;
  }

  // ---------------------------------------------------------------- the objects

  class MemoryCounter {
    var data: Counters

    constructor ()
      ensures data == map[]
    {
      data := map[];
    }

    method Incr(key: string, n: int) returns (total: int)
      modifies this
      ensures data == Increased(old(data), key, n) && total == data[key]
    {
      data := data[key := Int64.Wrap((if key in data then data[key] else 0) + n)];
      total := data[key];
    }

    method Value(key: string) returns (total: int)
      ensures total == At(data, key)
    {
      total := if key in data then data[key] else 0;
    }

    method Snapshot() returns (out: Counters)
      ensures out == data
    {
      out := map[];
      var keys := data.Keys;
      while keys != {}
        invariant keys <= data.Keys && out.Keys == data.Keys - keys
        invariant forall k | k in out :: out[k] == data[k]
        decreases |keys|
      {
        var k :| k in keys;
        out := out[k := data[k]];
        keys := keys - {k};
      }
    }
  }

  class Meter {
    const counter: MemoryCounter

    constructor (counter: MemoryCounter)
      ensures this.counter == counter
    {
      this.counter := counter;
    }

    /** `period` is the current month, as the clock gives it. */
    method Record(subject: string, feature: string, period: string, n: int) returns (total: int)
      modifies counter
      ensures counter.data == Increased(old(counter.data), Key(Usage(subject, feature, period)), n)
      ensures total == counter.data[Key(Usage(subject, feature, period))]
    {
      total := counter.Incr(Key(Usage(subject, feature, period)), n);
    }

    method Used(subject: string, feature: string, period: string) returns (total: int)
      ensures total == At(counter.data, Key(Usage(subject, feature, period)))
    {
      total := counter.Value(Key(Usage(subject, feature, period)));
    }
  }

  class Flusher {
    const counter: MemoryCounter
    var ledger: seq<LedgerEntry>
    var flushed: Counters

    ghost function View(): Books
      reads this
    {
      Books(ledger, flushed)
    }

    constructor (counter: MemoryCounter)
      ensures this.counter == counter && View() == Books([], map[])
    {
      this.counter := counter;
      ledger := [];
      flushed := map[];
    }

    /** What the loop does with one key, when the append would succeed or fail. */
    method FlushKey(snap: Counters, key: string, appends: bool) returns (outcome: VisitOutcome)
      modifies this
      ensures outcome == if !NeedsFlush(old(View()), snap, key) then Skipped else if appends then Wrote else Failed
      ensures View() == if outcome == Failed then old(View()) else Visited(old(View()), snap, key)
      ensures |ledger| == |old(ledger)| + (if outcome == Wrote then 1 else 0)
    {
      var total := if key in snap then snap[key] else 0;
      var delta := Int64.Wrap(total - (if key in flushed then flushed[key] else 0));
      if delta == 0 {
        return Skipped;
      }
      var usage := Parse(key);
      if usage.None? {
        return Skipped;
      }
      if !appends {
        return Failed;
      }
      ledger := ledger + [LedgerEntry(usage.value, delta)];
      flushed := flushed[key := total];
      outcome := Wrote;
    }

    /** One flush, in which `appends` appends succeed before one fails.  `order` is the order in
        which the keys came up; after a failure the key at fault and the rest are left for the
        next flush. */
    method FlushOnce(appends: nat) returns (written: nat, ok: bool, ghost order: seq<string>, ghost stuck: string)
      modifies this
      ensures View() == VisitedAll(old(View()), counter.data, order)
      ensures AreDistinct(order) && forall k | k in order :: k in counter.data
      ensures ok ==> forall k | k in counter.data :: k in order
      ensures !ok ==> written == appends && stuck in counter.data && stuck !in order
      ensures !ok ==> NeedsFlush(View(), counter.data, stuck)
      ensures |ledger| == |old(ledger)| + written && written <= appends
    {
      var snap := counter.Snapshot();
      written, order, stuck := 0, [], "";
      var todo := snap.Keys;
      while todo != {}
        invariant View() == VisitedAll(old(View()), snap, order)
        invariant forall k :: k in snap <==> k in order || k in todo
        invariant AreDistinct(order) && forall k | k in order :: k !in todo
        invariant |ledger| == |old(ledger)| + written && written <= appends
        decreases |todo|
      {
        var key :| key in todo;
        var outcome := FlushKey(snap, key, written < appends);
        if outcome == Failed {
          return written, false, order, key;
        }
        if outcome == Wrote {
          written := written + 1;
        }
        todo := todo - {key};
        VisitedOneMore(old(View()), snap, order, key);
        order := order + [key];
      }
      ok := true;
    }
  }
}
