/** Vector clocks (distributed-primitives-go/clocks/vector.go) judged against the
    happens-before relation of a whole run. */
module VectorClocks {
  import opened Causality
  import opened Vectors

  datatype Ordering = Equal | Before | After | Concurrent

  function Ticked(v: Vec, node: string): Vec {
    v[node := At(v, node) + 1]
  }

  ghost predicate Dominated(a: Vec, b: Vec) {
    forall n: string :: At(a, n) <= At(b, n)
  }

  /** The partial order on vectors, an absent node counting as zero. */
  ghost function Order(a: Vec, b: Vec): Ordering {
    if Dominated(a, b) && Dominated(b, a) then Equal
    else if Dominated(a, b) then Before
    else if Dominated(b, a) then After
    else Concurrent
  }

  class VectorClock {
    const node: string
    var vec: Vec

    constructor (node: string)
      ensures this.node == node && vec == map[]
    {
      this.node := node;
      vec := map[];
    }

    method Tick()
      modifies this
      ensures vec == Ticked(old(vec), node)
    {
      vec := vec[node := (if node in vec then vec[node] else 0) + 1];
    }

    method Merge(other: VectorClock)
      modifies this
      ensures vec == Ticked(Joined(old(vec), old(other.vec)), node)
      ensures other != this ==> other.vec == old(other.vec)
    {
      vec := FoldIn(vec, other.vec);
      Tick();
    }

    method Snapshot() returns (out: Vec)
      ensures out == vec
    {
      out := map[];
      var todo := vec.Keys;
      while todo != {}
        invariant todo <= vec.Keys
        invariant out == map n | n in vec && n !in todo :: vec[n]
        decreases |todo|
      {
        var n :| n in todo;
        out := out[n := vec[n]];
        todo := todo - {n};
      }
    }
  }

  /** Some node of a set is ahead in `a`. */
  ghost predicate AheadIn(a: Vec, b: Vec, nodes: set<string>) {
    exists n | n in nodes :: At(a, n) > At(b, n)
  }

  lemma AheadOneMore(a: Vec, b: Vec, nodes: set<string>, n: string)
    ensures AheadIn(a, b, nodes + {n}) <==> AheadIn(a, b, nodes) || At(a, n) > At(b, n)
  {
    assert n in nodes + {n};
  }

  lemma AheadAnywhere(a: Vec, b: Vec, seen: set<string>)
    requires a.Keys <= seen
    ensures AheadIn(a, b, seen) <==> !Dominated(a, b)
  {
  }

  method Compare(a: Vec, b: Vec) returns (o: Ordering)
    ensures o == Order(a, b)
  {
    var aGreater, bGreater := false, false;
    var seen := a.Keys + b.Keys;
    var todo := seen;
    while todo != {}
      invariant todo <= seen
      invariant aGreater <==> AheadIn(a, b, seen - todo)
      invariant bGreater <==> AheadIn(b, a, seen - todo)
      decreases |todo|
    {
      var n :| n in todo;
      if At(a, n) > At(b, n) {
        aGreater := true;
      } else if At(a, n) < At(b, n) {
        bGreater := true;
      }
      AheadOneMore(a, b, seen - todo, n);
      AheadOneMore(b, a, seen - todo, n);
      assert seen - (todo - {n}) == seen - todo + {n};
      todo := todo - {n};
    }
    AheadAnywhere(a, b, seen);
    AheadAnywhere(b, a, seen);
    assert seen - {} == seen;
    o := if aGreater && bGreater then Concurrent
         else if aGreater then After
         else if bGreater then Before
         else Equal;
  }

  // ---------------------------------------------------------------- whole runs

  /** `node`'s vector after the first `k` events. */
  function Clock(run: seq<Event>, k: nat, node: string): Vec
    requires IsRun(run) && k <= |run|
    decreases k
  {
    if k == 0 then map[]
    else
      var before := Clock(run, k - 1, node);
      if run[k - 1].node != node then before
      else match run[k - 1]
        case Local(_) => Ticked(before, node)
        case Receive(_, sent) => Ticked(Joined(before, Clock(run, sent + 1, run[sent].node)), node)
  }

  /** The snapshot taken at event `i`. */
  function Stamp(run: seq<Event>, i: nat): Vec
    requires IsRun(run) && i < |run|
  {
    Clock(run, i + 1, run[i].node)
  }

  /** How many of the first `k` events belong to `node`. */
  ghost function Count(run: seq<Event>, k: nat, node: string): nat
    requires k <= |run|
    decreases k
  {
    if k == 0 then 0 else Count(run, k - 1, node) + (if run[k - 1].node == node then 1 else 0)
  }

  lemma {:induction false} CountGrows(run: seq<Event>, j: nat, k: nat, node: string)
    requires j <= k <= |run|
    ensures Count(run, j, node) <= Count(run, k, node)
    decreases k
  {
    if j < k {
      CountGrows(run, j, k - 1, node);
    }
  }

  /** A receipt takes the larger of two counters and advances the node's own. */
  lemma CounterStep(run: seq<Event>, k: nat, node: string, other: string)
    requires IsRun(run) && 0 < k <= |run| && run[k - 1].node == node && run[k - 1].Receive?
    ensures var sent := run[k - 1].sent;
            var mine, theirs := At(Clock(run, k - 1, node), other), At(Clock(run, sent + 1, run[sent].node), other);
            At(Clock(run, k, node), other)
            == (if theirs > mine then theirs else mine) + (if other == node then 1 else 0)
  {
    var sent := run[k - 1].sent;
    JoinedAt(Clock(run, k - 1, node), Clock(run, sent + 1, run[sent].node), other);
    JoinedAt(Clock(run, k - 1, node), Clock(run, sent + 1, run[sent].node), node);
  }

  /** A node's own counter counts its events. */
  lemma {:induction false} OwnCounter(run: seq<Event>, k: nat, node: string)
    requires IsRun(run) && k <= |run|
    ensures At(Clock(run, k, node), node) == Count(run, k, node)
    decreases k, 1
  {
    if k > 0 {
      var e := run[k - 1];
      OwnCounter(run, k - 1, node);
      if e.node == node && e.Receive? {
        CounterStep(run, k, node, node);
        CountersBound(run, e.sent + 1, run[e.sent].node, node);
        CountGrows(run, e.sent + 1, k - 1, node);
      }
    }
  }

  /** Nobody is ahead of a node's own count. */
  lemma {:induction false} CountersBound(run: seq<Event>, k: nat, node: string, other: string)
    requires IsRun(run) && k <= |run|
    ensures At(Clock(run, k, node), other) <= Count(run, k, other)
    decreases k, 0
  {
    if k > 0 {
      var e := run[k - 1];
      CountersBound(run, k - 1, node, other);
      if e.node == node && e.Receive? {
        CounterStep(run, k, node, other);
        CountersBound(run, e.sent + 1, run[e.sent].node, other);
        CountGrows(run, e.sent + 1, k - 1, other);
      }
    }
  }

  lemma {:induction false} ClockIsLatestStamp(run: seq<Event>, k: nat, node: string)
    requires IsRun(run) && k <= |run|
    ensures var l := Latest(run, k, node);
            Clock(run, k, node) == if l < 0 then map[] else Stamp(run, l)
    decreases k
  {
    if k > 0 && run[k - 1].node != node {
      ClockIsLatestStamp(run, k - 1, node);
    }
  }

  /** What an event's vector says about another node: the larger of what its node knew and
      what it received. */
  lemma StampElsewhere(run: seq<Event>, j: nat, n: string)
    requires IsRun(run) && j < |run| && n != run[j].node
    ensures var l := Latest(run, j, run[j].node);
            var known := if l < 0 then 0 else At(Stamp(run, l), n);
            var got := if run[j].Local? then 0 else At(Stamp(run, run[j].sent), n);
            At(Stamp(run, j), n) == if got > known then got else known
  {
    ClockIsLatestStamp(run, j, run[j].node);
  }

  /** The key fact: an event is in another's causal past exactly when the other's vector has
      reached its number. */
  lemma {:induction false} PastIsReached(run: seq<Event>, i: nat, j: nat)
    requires IsRun(run) && i < |run| && j < |run|
    ensures InPast(run, i, j) <==> At(Stamp(run, i), run[i].node) <= At(Stamp(run, j), run[i].node)
    decreases j
  {
    var n := run[i].node;
    OwnCounter(run, i + 1, n);
    CountersBound(run, j + 1, run[j].node, n);
    if i < j {
      if n == run[j].node {
        CountGrows(run, i + 1, j + 1, n);
        OwnCounter(run, j + 1, n);
        assert Edge(run, i, j);
      } else {
        var l := Latest(run, j, run[j].node);
        PastSplits(run, i, j);
        StampElsewhere(run, j, n);
        if l >= 0 {
          PastIsReached(run, i, l);
        }
        if run[j].Receive? {
          PastIsReached(run, i, run[j].sent);
        }
      }
    } else if i > j {
      CountGrows(run, j + 1, i, n);
      if HappensBefore(run, i, j) {
        PastIsEarlier(run, i, j);
      }
    }
  }

  lemma StampDominatesItsSources(run: seq<Event>, j: nat)
    requires IsRun(run) && j < |run|
    ensures Dominated(Clock(run, j, run[j].node), Stamp(run, j))
    ensures run[j].Receive? ==> Dominated(Stamp(run, run[j].sent), Stamp(run, j))
  {
  }

  lemma {:induction false} EarlierIsDominated(run: seq<Event>, i: nat, j: nat)
    requires IsRun(run) && j < |run| && InPast(run, i, j)
    ensures i < |run| && Dominated(Stamp(run, i), Stamp(run, j))
    decreases j
  {
    if i != j {
      PastIsEarlier(run, i, j);
      PastSplits(run, i, j);
      StampDominatesItsSources(run, j);
      if Knows(run, j, run[j].node, i) {
        ClockIsLatestStamp(run, j, run[j].node);
        EarlierIsDominated(run, i, Latest(run, j, run[j].node));
      } else {
        EarlierIsDominated(run, i, run[j].sent);
      }
    }
  }

  /** Vector order is causal order. */
  lemma DominatedIsPast(run: seq<Event>, i: nat, j: nat)
    requires IsRun(run) && i < |run| && j < |run|
    ensures Dominated(Stamp(run, i), Stamp(run, j)) <==> InPast(run, i, j)
  {
    PastIsReached(run, i, j);
    if InPast(run, i, j) {
      EarlierIsDominated(run, i, j);
    }
  }

  /** Comparing two snapshots of any run decides happens-before, in all four outcomes. */
  lemma CompareDecidesCausality(run: seq<Event>, i: nat, j: nat)
    requires IsRun(run) && i < |run| && j < |run|
    ensures Order(Stamp(run, i), Stamp(run, j)) == Before <==> HappensBefore(run, i, j)
    ensures Order(Stamp(run, i), Stamp(run, j)) == After <==> HappensBefore(run, j, i)
    ensures Order(Stamp(run, i), Stamp(run, j)) == Equal <==> i == j
    ensures Order(Stamp(run, i), Stamp(run, j)) == Concurrent <==>
            i != j && !HappensBefore(run, i, j) && !HappensBefore(run, j, i)
  {
    DominatedIsPast(run, i, j);
    DominatedIsPast(run, j, i);
    if HappensBefore(run, i, j) {
      PastIsEarlier(run, i, j);
    }
    if HappensBefore(run, j, i) {
      PastIsEarlier(run, j, i);
    }
  }

  lemma {:induction false} ClockOfPrefix(run: seq<Event>, e: Event, k: nat, node: string)
    requires IsRun(run) && IsRun(run + [e]) && k <= |run|
    ensures Clock(run + [e], k, node) == Clock(run, k, node)
    decreases k
  {
    if k > 0 {
      ClockOfPrefix(run, e, k - 1, node);
      if run[k - 1].Receive? {
        ClockOfPrefix(run, e, run[k - 1].sent + 1, run[run[k - 1].sent].node);
      }
    }
  }

  /** The event that a merge with another live clock amounts to: a receive of that clock's
      latest event, or a plain tick when it has none. */
  function LiveMerge(run: seq<Event>, node: string, other: string): Event {
    var l := Latest(run, |run|, other);
    if l < 0 then Local(node) else Receive(node, l)
  }

  /** `Merge` is handed another live clock, not a stored message; runs of events cover it. */
  lemma LiveMergeIsAnEvent(run: seq<Event>, node: string, other: string)
    requires IsRun(run)
    ensures var e := LiveMerge(run, node, other);
            IsRun(run + [e]) &&
            Clock(run + [e], |run| + 1, node)
              == Ticked(Joined(Clock(run, |run|, node), Clock(run, |run|, other)), node)
  {
    var l, e := Latest(run, |run|, other), LiveMerge(run, node, other);
    var mine := Clock(run, |run|, node);
    assert IsRun(run + [e]);
    ClockOfPrefix(run, e, |run|, node);
    ClockIsLatestStamp(run, |run|, other);
    if l < 0 {
      assert Joined(mine, map[]) == mine;
    } else {
      ClockOfPrefix(run, e, l + 1, other);
    }
  }
}
