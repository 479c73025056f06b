/** Hybrid logical clocks (distributed-primitives-go/clocks/hlc.go).

    The injected wall clock is arbitrary: it may stall, jump backward, and differ from node to
    node.  A run is a run of events together with the reading each event took. */
module HybridClocks {
  import opened Causality

  datatype Stamp = Stamp(physical: int, logical: nat)

  /** Stamps are ordered by physical part, then by logical part. */
  predicate Less(a: Stamp, b: Stamp) {
    a.physical < b.physical || (a.physical == b.physical && a.logical < b.logical)
  }

  function Max(a: int, b: int): int {
    if a > b then a else b
  }

  /** The stamp after a local event. */
  function Advanced(own: Stamp, wall: int): Stamp {
    if wall > own.physical then Stamp(wall, 0) else Stamp(own.physical, own.logical + 1)
  }

  /** The stamp after receiving `got`: the largest of the three physical parts, with a logical
      part above every stamp that has that physical part. */
  function Merged(own: Stamp, got: Stamp, wall: int): Stamp {
    var top := Max(Max(own.physical, got.physical), wall);
    var fromOwn := if own.physical == top then own.logical + 1 else 0;
    var fromGot := if got.physical == top then got.logical + 1 else 0;
    Stamp(top, Max(fromOwn, fromGot))
  }

  class HLC {
    var physical: int
    var logical: nat

    ghost function Value(): Stamp
      reads this
    {
      Stamp(physical, logical)
    }

    constructor ()
      ensures Value() == Stamp(0, 0)
    {
      physical, logical := 0, 0;
    }

    method Now(wall: int) returns (p: int, l: nat)
      modifies this
      ensures Value() == Advanced(old(Value()), wall) == Stamp(p, l)
      ensures Less(old(Value()), Value())
    {
      if wall > physical {
        physical := wall;
        logical := 0;
      } else {
        logical := logical + 1;
      }
      p, l := physical, logical;
    }

    method Update(rp: int, rl: nat, wall: int) returns (p: int, l: nat)
      modifies this
      ensures Value() == Merged(old(Value()), Stamp(rp, rl), wall) == Stamp(p, l)
      ensures Less(old(Value()), Value()) && Less(Stamp(rp, rl), Value())
    {
      var max := physical;
      if rp > max {
        max := rp;
      }
      if wall > max {
        max := wall;
      }
      if max == physical && max == rp {
        if rl > logical {
          logical := rl;
        }
        logical := logical + 1;
      } else if max == physical {
        logical := logical + 1;
      } else if max == rp {
        logical := rl + 1;
      } else {
        logical := 0;
      }
      physical := max;
      p, l := physical, logical;
    }
  }

  // ---------------------------------------------------------------- whole runs

  ghost predicate IsTimedRun(run: seq<Event>, walls: seq<int>) {
    IsRun(run) && |walls| == |run|
  }

  /** `node`'s clock after the first `k` events. */
  function Clock(run: seq<Event>, walls: seq<int>, k: nat, node: string): Stamp
    requires IsTimedRun(run, walls) && k <= |run|
    decreases k, 0
  {
    if k == 0 then Stamp(0, 0)
    else
      var before := Clock(run, walls, k - 1, node);
      if run[k - 1].node != node then before
      else match run[k - 1]
        case Local(_) => Advanced(before, walls[k - 1])
        case Receive(_, sent) => Merged(before, StampOf(run, walls, sent), walls[k - 1])
  }

  /** The stamp returned at event `i`. */
  function StampOf(run: seq<Event>, walls: seq<int>, i: nat): Stamp
    requires IsTimedRun(run, walls) && i < |run|
    decreases i + 1, 1
  {
    Clock(run, walls, i + 1, run[i].node)
  }

  lemma {:induction false} ClockIsLatestStamp(run: seq<Event>, walls: seq<int>, k: nat, node: string)
    requires IsTimedRun(run, walls) && k <= |run|
    ensures var l := Latest(run, k, node);
            Clock(run, walls, k, node) == if l < 0 then Stamp(0, 0) else StampOf(run, walls, l)
    decreases k
  {
    if k > 0 && run[k - 1].node != node {
      ClockIsLatestStamp(run, walls, k - 1, node);
    }
  }

  /** An event's stamp is the merge of its node's previous stamp with what it received. */
  lemma StampFromSources(run: seq<Event>, walls: seq<int>, j: nat)
    requires IsTimedRun(run, walls) && j < |run|
    ensures var l := Latest(run, j, run[j].node);
            var own := if l < 0 then Stamp(0, 0) else StampOf(run, walls, l);
            StampOf(run, walls, j) ==
              if run[j].Local? then Advanced(own, walls[j])
              else Merged(own, StampOf(run, walls, run[j].sent), walls[j])
  {
    ClockIsLatestStamp(run, walls, j, run[j].node);
  }

  /** Stamps strictly increase along happens-before, whatever the wall clocks do. */
  lemma {:induction false} StampsFollowCausality(run: seq<Event>, walls: seq<int>, i: nat, j: nat)
    requires IsTimedRun(run, walls) && j < |run| && HappensBefore(run, i, j)
    ensures i < |run| && Less(StampOf(run, walls, i), StampOf(run, walls, j))
    ensures var a, b := StampOf(run, walls, i), StampOf(run, walls, j);
            a.physical <= b.physical && (a.physical == b.physical ==> a.logical < b.logical)
    decreases j
  {
    PastIsEarlier(run, i, j);
    PastSplits(run, i, j);
    StampFromSources(run, walls, j);
    var source := if Knows(run, j, run[j].node, i) then Latest(run, j, run[j].node) else run[j].sent;
    if i != source {
      StampsFollowCausality(run, walls, i, source);
    }
  }

  lemma {:induction false} PhysicalIsNonNegative(run: seq<Event>, walls: seq<int>, k: nat, node: string)
    requires IsTimedRun(run, walls) && k <= |run|
    ensures Clock(run, walls, k, node).physical >= 0
    decreases k
  {
    if k > 0 {
      PhysicalIsNonNegative(run, walls, k - 1, node);
    }
  }

  /** No reading in an event's causal past exceeds its physical part. */
  lemma {:induction false} PhysicalBoundsReadings(run: seq<Event>, walls: seq<int>, i: nat, j: nat)
    requires IsTimedRun(run, walls) && i < |run| && j < |run| && InPast(run, i, j)
    ensures walls[i] <= StampOf(run, walls, j).physical
  {
    StampFromSources(run, walls, i);
    if i != j {
      StampsFollowCausality(run, walls, i, j);
    }
  }

  /** The event whose reading an event's physical part is, or the event itself when the
      physical part is still the initial zero. */
  ghost function Anchor(run: seq<Event>, walls: seq<int>, j: nat): (a: nat)
    requires IsTimedRun(run, walls) && j < |run|
    ensures a < |run| && InPast(run, a, j)
    ensures StampOf(run, walls, j).physical == Max(0, walls[a])
    decreases j
  {
    StampFromSources(run, walls, j);
    PhysicalIsNonNegative(run, walls, j + 1, run[j].node);
    var p := StampOf(run, walls, j).physical;
    var l := Latest(run, j, run[j].node);
    if p == Max(0, walls[j]) then j
    else if l >= 0 && StampOf(run, walls, l).physical == p then
      assert Edge(run, l, j);
      Anchor(run, walls, l)
    else
      assert Edge(run, run[j].sent, j);
      var a := Anchor(run, walls, run[j].sent);
      a
  }

  /** Some reading in an event's causal past is at least `bound`. */
  ghost predicate HasReading(run: seq<Event>, walls: seq<int>, j: nat, bound: int)
    requires |walls| == |run| && j < |run|
  {
    exists i: nat | i < |run| && InPast(run, i, j) :: walls[i] >= bound
  }

  ghost predicate IsReading(run: seq<Event>, walls: seq<int>, j: nat, p: int)
    requires |walls| == |run| && j < |run|
  {
    exists i: nat | i < |run| && InPast(run, i, j) :: walls[i] == p
  }

  /** The physical part bounds every reading in the causal past.  It is one of them, so the
      largest, exactly when some reading there is not negative; otherwise it is the zero the
      clock started with. */
  lemma PhysicalIsLargestReading(run: seq<Event>, walls: seq<int>, j: nat)
    requires IsTimedRun(run, walls) && j < |run|
    ensures var p := StampOf(run, walls, j).physical;
            && (forall i: nat | i < |run| && InPast(run, i, j) :: walls[i] <= p)
            && (IsReading(run, walls, j, p) <==> HasReading(run, walls, j, 0))
            && (!HasReading(run, walls, j, 0) ==> p == 0)
    ensures StampOf(run, walls, j).physical > 0 <==> HasReading(run, walls, j, 1)
  {
    var p := StampOf(run, walls, j).physical;
    PhysicalIsNonNegative(run, walls, j + 1, run[j].node);
    forall i: nat | i < |run| && InPast(run, i, j)
      ensures walls[i] <= p
    {
      PhysicalBoundsReadings(run, walls, i, j);
    }
    var a := Anchor(run, walls, j);
    assert InPast(run, a, j);
    if p > 0 {
      assert walls[a] == p;
    }
  }

  /** A clock whose only reading is negative shows a zero that nobody read, and counts its first
      event as a stall. */
  lemma NegativeReadingExample()
    ensures var run, walls := [Local("n")], [-1];
            && IsTimedRun(run, walls) && StampOf(run, walls, 0) == Stamp(0, 1)
            && !IsReading(run, walls, 0, 0)
  {
    var run, walls := [Local("n")], [-1];
    assert Clock(run, walls, 0, "n") == Stamp(0, 0);
    assert forall i: nat | i < |run| :: walls[i] == -1;
  }

  predicate PrecedesByOne(a: Stamp, b: Stamp) {
    a.physical == b.physical && a.logical + 1 == b.logical
  }

  /** A chain of events, each directly preceding the next, that share one physical part and
      count up one logical step at a time. */
  ghost predicate IsChain(run: seq<Event>, walls: seq<int>, chain: seq<nat>)
    requires IsTimedRun(run, walls)
  {
    && (forall t | 0 <= t < |chain| :: chain[t] < |run|)
    && (forall t | 0 < t < |chain| ::
          && Edge(run, chain[t - 1], chain[t])
          && PrecedesByOne(StampOf(run, walls, chain[t - 1]), StampOf(run, walls, chain[t])))
  }

  lemma ExtendChain(run: seq<Event>, walls: seq<int>, chain: seq<nat>, j: nat)
    requires IsTimedRun(run, walls) && IsChain(run, walls, chain) && j < |run| && chain != []
    requires Edge(run, chain[|chain| - 1], j)
    requires PrecedesByOne(StampOf(run, walls, chain[|chain| - 1]), StampOf(run, walls, j))
    ensures IsChain(run, walls, chain + [j])
  {
    var longer := chain + [j];
    forall t | 0 < t < |longer|
      ensures Edge(run, longer[t - 1], longer[t])
      ensures PrecedesByOne(StampOf(run, walls, longer[t - 1]), StampOf(run, walls, longer[t]))
    {
      assert longer[t - 1] == chain[t - 1];
      assert t < |chain| ==> longer[t] == chain[t];
    }
  }

  /** A stamp one logical step below an event's own comes from a direct predecessor, unless the
      event starts a chain. */
  lemma LogicalSource(run: seq<Event>, walls: seq<int>, j: nat) returns (source: int)
    requires IsTimedRun(run, walls) && j < |run|
    ensures var s := StampOf(run, walls, j);
            if source < 0 then s.logical == if s.physical > 0 then 0 else 1
            else source < j && Edge(run, source, j) && PrecedesByOne(StampOf(run, walls, source), s)
  {
    StampFromSources(run, walls, j);
    PhysicalIsNonNegative(run, walls, j, run[j].node);
    PhysicalIsNonNegative(run, walls, j + 1, run[j].node);
    var s, l := StampOf(run, walls, j), Latest(run, j, run[j].node);
    if l >= 0 && PrecedesByOne(StampOf(run, walls, l), s) {
      source := l;
    } else if run[j].Receive? && PrecedesByOne(StampOf(run, walls, run[j].sent), s) {
      source := run[j].sent;
    } else {
      source := -1;
    }
  }

  lemma {:induction false} BuildChain(run: seq<Event>, walls: seq<int>, j: nat) returns (chain: seq<nat>)
    requires IsTimedRun(run, walls) && j < |run|
    ensures EndsChain(run, walls, chain, j)
    ensures var s := StampOf(run, walls, j);
            |chain| == if s.physical > 0 then s.logical + 1 else s.logical
    decreases j
  {
    var source := LogicalSource(run, walls, j);
    if source < 0 {
      chain := [j];
    } else {
      var shorter := BuildChain(run, walls, source);
      ExtendChain(run, walls, shorter, j);
      chain := shorter + [j];
    }
  }

  ghost predicate EndsChain(run: seq<Event>, walls: seq<int>, chain: seq<nat>, j: nat)
    requires IsTimedRun(run, walls)
  {
    IsChain(run, walls, chain) && chain != [] && chain[|chain| - 1] == j
  }

  /** An event ends a causal chain with `earlier` events before it. */
  ghost predicate HasChain(run: seq<Event>, walls: seq<int>, j: nat, earlier: int)
    requires IsTimedRun(run, walls)
  {
    exists chain :: EndsChain(run, walls, chain, j) && |chain| == earlier + 1
  }

  /** Along a chain the logical part climbs by one and the physical part stays. */
  lemma {:induction false} ChainClimbs(run: seq<Event>, walls: seq<int>, chain: seq<nat>, t: nat)
    requires IsTimedRun(run, walls) && IsChain(run, walls, chain) && t < |chain|
    ensures StampOf(run, walls, chain[t]).physical == StampOf(run, walls, chain[0]).physical
    ensures StampOf(run, walls, chain[t]).logical == StampOf(run, walls, chain[0]).logical + t
  {
    if t > 0 {
      ChainClimbs(run, walls, chain, t - 1);
    }
  }

  /** A stamp whose physical part is still zero has a positive logical part, so no chain is as
      long as it says. */
  lemma FirstStallCounts(run: seq<Event>, walls: seq<int>, chain: seq<nat>, j: nat)
    requires IsTimedRun(run, walls) && j < |run| && EndsChain(run, walls, chain, j)
    requires StampOf(run, walls, j).physical == 0
    ensures |chain| <= StampOf(run, walls, j).logical
  {
    ChainClimbs(run, walls, chain, |chain| - 1);
    var source := LogicalSource(run, walls, chain[0]);
  }

  /** A logical part `k` is paid for by a causal chain of `k` earlier events with the same
      physical part exactly when some reading in the causal past is positive.  Until then the
      first event already counts one, and the chain has `k - 1` earlier events. */
  lemma LogicalIsWitnessed(run: seq<Event>, walls: seq<int>, j: nat)
    requires IsTimedRun(run, walls) && j < |run|
    ensures var k := StampOf(run, walls, j).logical;
            && (HasChain(run, walls, j, k) <==> HasReading(run, walls, j, 1))
            && (!HasReading(run, walls, j, 1) ==> HasChain(run, walls, j, k - 1))
  {
    var built := BuildChain(run, walls, j);
    PhysicalIsLargestReading(run, walls, j);
    PhysicalIsNonNegative(run, walls, j + 1, run[j].node);
    if !HasReading(run, walls, j, 1) {
      forall chain | EndsChain(run, walls, chain, j)
        ensures |chain| <= StampOf(run, walls, j).logical
      {
        FirstStallCounts(run, walls, chain, j);
      }
    }
  }
}
