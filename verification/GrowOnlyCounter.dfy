/** The grow-only counter (distributed-primitives-go/replication/gcounter.go).

    In a run each replica owns one slot, named after its node.  A local event adds an amount to
    the node's own slot; a receive merges the counts that a replica held at an earlier event. */
module GrowOnlyCounter {
  import opened Causality
  import opened Vectors
  import opened Sums

  function Bumped(c: Vec, node: string, n: nat): Vec {
    c[node := At(c, node) + n]
  }

  class GCounter {
    var counts: Vec

    constructor ()
      ensures counts == map[]
    {
      counts := map[];
    }

    method Inc(node: string, n: nat)
      modifies this
      ensures counts == Bumped(old(counts), node, n)
    {
      counts := counts[node := (if node in counts then counts[node] else 0) + n];
    }

    method Value() returns (sum: nat)
      ensures sum == Total(counts)
    {
      sum := 0;
      var todo := counts;
      while todo != map[]
        invariant sum + Total(todo) == Total(counts)
        decreases |todo|
      {
        var n :| n in todo;
        TotalRemove(todo, n);
        sum := sum + todo[n];
        todo := todo - {n};
      }
    }

    method Merge(other: GCounter)
      modifies this
      ensures counts == Joined(old(counts), old(other.counts))
      ensures other != this ==> other.counts == old(other.counts)
    {
      counts := FoldIn(counts, other.counts);
    }
  }

  // ---------------------------------------------------------------- any order, any number of times

  ghost predicate Agree(a: Vec, b: Vec) {
    forall n: string :: At(a, n) == At(b, n)
  }

  /** The counts after merging `others` one after the other. */
  function MergedAll(counts: Vec, others: seq<Vec>): Vec {
    if others == [] then counts else Joined(MergedAll(counts, others[..|others| - 1]), others[|others| - 1])
  }

  /** Every slot ends at the largest count it had anywhere. */
  lemma {:induction false} MergedAllAt(counts: Vec, others: seq<Vec>, n: string)
    ensures var m := At(MergedAll(counts, others), n);
            && m >= At(counts, n) && (forall v | v in others :: m >= At(v, n))
            && (m == At(counts, n) || exists v | v in others :: m == At(v, n))
  {
    if others != [] {
      var last := |others| - 1;
      MergedAllAt(counts, others[..last], n);
      JoinedAt(MergedAll(counts, others[..last]), others[last], n);
      assert others == others[..last] + [others[last]];
    }
  }

  lemma TotalWithout(v: Vec, n: string)
    ensures Total(v) == Total(v - {n}) + At(v, n)
  {
    if n in v {
      TotalRemove(v, n);
    } else {
      assert v - {n} == v;
    }
  }

  lemma AgreeWithout(a: Vec, b: Vec, n: string)
    requires Agree(a, b)
    ensures Agree(a - {n}, b - {n})
  {
    forall m: string
      ensures At(a - {n}, m) == At(b - {n}, m)
    {
      assert At(a, m) == At(b, m);
    }
  }

  lemma {:induction false} AgreeingTotals(a: Vec, b: Vec)
    requires Agree(a, b)
    ensures Total(a) == Total(b)
    decreases |a|
  {
    if a == map[] {
      assert forall n | n in b :: b[n] == At(a, n);
      TotalOfZeros(b);
    } else {
      var n :| n in a;
      TotalWithout(a, n);
      TotalWithout(b, n);
      AgreeWithout(a, b, n);
      AgreeingTotals(a - {n}, b - {n});
    }
  }

  /** Merging the same counters in another order, or some of them again, gives the same counts and
      the same value. */
  lemma MergesInAnyOrder(counts: Vec, others: seq<Vec>, again: seq<Vec>)
    requires forall v :: v in others <==> v in again
    ensures Agree(MergedAll(counts, others), MergedAll(counts, again))
    ensures Total(MergedAll(counts, others)) == Total(MergedAll(counts, again))
  {
    forall n: string
      ensures At(MergedAll(counts, others), n) == At(MergedAll(counts, again), n)
    {
      MergedAllAt(counts, others, n);
      MergedAllAt(counts, again, n);
    }
    AgreeingTotals(MergedAll(counts, others), MergedAll(counts, again));
  }

  // ---------------------------------------------------------------- whole runs

  ghost predicate IsCountingRun(run: seq<Event>, amounts: seq<nat>) {
    IsRun(run) && |amounts| == |run|
  }

  /** `node`'s counts after the first `k` events. */
  function Counts(run: seq<Event>, amounts: seq<nat>, k: nat, node: string): Vec
    requires IsCountingRun(run, amounts) && k <= |run|
    decreases k
  {
    if k == 0 then map[]
    else
      var before := Counts(run, amounts, k - 1, node);
      if run[k - 1].node != node then before
      else match run[k - 1]
        case Local(_) => Bumped(before, node, amounts[k - 1])
        case Receive(_, sent) => Joined(before, Counts(run, amounts, sent + 1, run[sent].node))
  }

  /** The increments in the causal past of `node` after `k` events. */
  ghost function Seen(run: seq<Event>, k: nat, node: string): set<nat>
    requires k <= |run|
  {
    set i: nat | i < |run| && run[i].Local? && Knows(run, k, node, i)
  }

  /** Those of the increments in `s` that were made at `slot`. */
  ghost function Slot(run: seq<Event>, s: set<nat>, slot: string): set<nat> {
    set i | i in s && i < |run| && run[i].node == slot
  }

  /** The sum of the amounts of the first `t` events that are in `s`. */
  ghost function Sum(amounts: seq<nat>, s: set<nat>, t: nat): nat
    requires t <= |amounts|
    decreases t
  {
    if t == 0 then 0 else Sum(amounts, s, t - 1) + (if t - 1 in s then amounts[t - 1] else 0)
  }

  lemma {:induction false} SumMonotone(amounts: seq<nat>, a: set<nat>, b: set<nat>, t: nat)
    requires t <= |amounts| && a <= b
    ensures Sum(amounts, a, t) <= Sum(amounts, b, t)
    decreases t
  {
    if t > 0 {
      SumMonotone(amounts, a, b, t - 1);
    }
  }

  lemma {:induction false} SumInsert(amounts: seq<nat>, a: set<nat>, i: nat, t: nat)
    requires t <= |amounts| && i !in a
    ensures Sum(amounts, a + {i}, t) == Sum(amounts, a, t) + (if i < t then amounts[i] else 0)
    decreases t
  {
    if t > 0 {
      SumInsert(amounts, a, i, t - 1);
    }
  }

  /** What one replica has seen of a slot is an initial part of that slot's increments, so of
      two replicas one has seen all that the other has. */
  lemma SeenIsNested(run: seq<Event>, k: nat, node: string, k': nat, node': string, slot: string)
    requires IsRun(run) && k <= |run| && k' <= |run|
    ensures var a, b := Slot(run, Seen(run, k, node), slot), Slot(run, Seen(run, k', node'), slot);
            a <= b || b <= a
  {
    var a, b := Slot(run, Seen(run, k, node), slot), Slot(run, Seen(run, k', node'), slot);
    if !(a <= b) && !(b <= a) {
      var i :| i in a && i !in b;
      var j :| j in b && j !in a;
      if i < j {
        EarlierIsSeen(run, k', node', i, j);
      } else {
        EarlierIsSeen(run, k, node, j, i);
      }
    }
  }

  lemma EarlierIsSeen(run: seq<Event>, k: nat, node: string, i: nat, j: nat)
    requires IsRun(run) && k <= |run| && j in Seen(run, k, node)
    requires i < j && run[i].Local? && run[i].node == run[j].node
    ensures i in Seen(run, k, node)
  {
    var l := Latest(run, k, node);
    assert Edge(run, i, j);
    assert HappensBefore(run, i, j);
    if j != l {
      PastIsTransitive(run, i, j, l);
    }
  }

  /** How an event changes what its node knows. */
  lemma KnowsAfter(run: seq<Event>, k: nat, i: nat)
    requires IsRun(run) && 0 < k <= |run| && i < |run|
    ensures var e := run[k - 1];
            Knows(run, k, e.node, i) <==>
              (i == k - 1 || Knows(run, k - 1, e.node, i)
                || (e.Receive? && Knows(run, e.sent + 1, run[e.sent].node, i)))
    ensures !Knows(run, k - 1, run[k - 1].node, k - 1)
  {
    if i != k - 1 {
      PastSplits(run, i, k - 1);
    }
    var l := Latest(run, k - 1, run[k - 1].node);
    if l >= 0 && InPast(run, k - 1, l) {
      PastIsEarlier(run, k - 1, l);
    }
  }

  lemma SeenAfter(run: seq<Event>, k: nat)
    requires IsRun(run) && 0 < k <= |run|
    ensures var e := run[k - 1];
            var before := Seen(run, k - 1, e.node);
            Seen(run, k, e.node) ==
              if e.Local? then before + {k - 1} else before + Seen(run, e.sent + 1, run[e.sent].node)
    ensures k - 1 !in Seen(run, k - 1, run[k - 1].node)
  {
    KnowsAfter(run, k, k - 1);
    var e := run[k - 1];
    var sources := Seen(run, k - 1, e.node) +
                   (if e.Local? then {k - 1} else Seen(run, e.sent + 1, run[e.sent].node));
    forall i: nat
      ensures i in Seen(run, k, e.node) <==> i in sources
    {
      if i < |run| {
        KnowsAfter(run, k, i);
      }
    }
  }

  lemma SlotSeenAfter(run: seq<Event>, k: nat, slot: string)
    requires IsRun(run) && 0 < k <= |run|
    ensures var e := run[k - 1];
            var before := Slot(run, Seen(run, k - 1, e.node), slot);
            Slot(run, Seen(run, k, e.node), slot) ==
              if e.Receive? then before + Slot(run, Seen(run, e.sent + 1, run[e.sent].node), slot)
              else if slot == e.node then before + {k - 1} else before
    ensures k - 1 !in Slot(run, Seen(run, k - 1, run[k - 1].node), slot)
  {
    SeenAfter(run, k);
  }

  lemma SlotAfter(run: seq<Event>, amounts: seq<nat>, k: nat, slot: string)
    requires IsCountingRun(run, amounts) && 0 < k <= |run|
    ensures var e := run[k - 1];
            var before := At(Counts(run, amounts, k - 1, e.node), slot);
            At(Counts(run, amounts, k, e.node), slot) ==
              if e.Local? then before + (if slot == e.node then amounts[k - 1] else 0)
              else
                var got := At(Counts(run, amounts, e.sent + 1, run[e.sent].node), slot);
                if got > before then got else before
  {
    var e := run[k - 1];
    if e.Receive? {
      JoinedAt(Counts(run, amounts, k - 1, e.node), Counts(run, amounts, e.sent + 1, run[e.sent].node), slot);
    }
  }

  /** The sum of the increments of `slot` that `node` has seen. */
  ghost function SeenSum(run: seq<Event>, amounts: seq<nat>, k: nat, node: string, slot: string): nat
    requires IsCountingRun(run, amounts) && k <= |run|
  {
    Sum(amounts, Slot(run, Seen(run, k, node), slot), |run|)
  }

  lemma SeenSumElsewhere(run: seq<Event>, amounts: seq<nat>, k: nat, node: string, slot: string)
    requires IsCountingRun(run, amounts) && k <= |run|
    ensures k == 0 ==> SeenSum(run, amounts, k, node, slot) == 0
    ensures k > 0 && run[k - 1].node != node ==>
            SeenSum(run, amounts, k, node, slot) == SeenSum(run, amounts, k - 1, node, slot)
  {
    if k == 0 {
      assert Slot(run, Seen(run, k, node), slot) == {};
      SumOfNone(amounts, |run|);
    } else if run[k - 1].node != node {
      assert Seen(run, k, node) == Seen(run, k - 1, node);
    }
  }

  lemma SeenSumAfter(run: seq<Event>, amounts: seq<nat>, k: nat, slot: string)
    requires IsCountingRun(run, amounts) && 0 < k <= |run|
    ensures var e := run[k - 1];
            var before := SeenSum(run, amounts, k - 1, e.node, slot);
            SeenSum(run, amounts, k, e.node, slot) ==
              if e.Local? then before + (if slot == e.node then amounts[k - 1] else 0)
              else
                var got := SeenSum(run, amounts, e.sent + 1, run[e.sent].node, slot);
                if got > before then got else before
  {
    SlotSeenAfter(run, k, slot);
    var e := run[k - 1];
    var before := Slot(run, Seen(run, k - 1, e.node), slot);
    if e.Receive? {
      var from := run[e.sent].node;
      SeenIsNested(run, k - 1, e.node, e.sent + 1, from, slot);
      SumOfNestedUnion(amounts, before, Slot(run, Seen(run, e.sent + 1, from), slot), |run|);
    } else {
      SumInsert(amounts, before, k - 1, |run|);
    }
  }

  /** Each slot of a replica holds the sum of exactly the increments of that slot in the
      replica's causal past. */
  lemma {:induction false} SlotsCountWhatWasSeen(run: seq<Event>, amounts: seq<nat>, k: nat, node: string, slot: string)
    requires IsCountingRun(run, amounts) && k <= |run|
    ensures At(Counts(run, amounts, k, node), slot) == SeenSum(run, amounts, k, node, slot)
    decreases k
  {
    SeenSumElsewhere(run, amounts, k, node, slot);
    if k > 0 {
      SlotsCountWhatWasSeen(run, amounts, k - 1, node, slot);
      if run[k - 1].node == node {
        SlotAfter(run, amounts, k, slot);
        SeenSumAfter(run, amounts, k, slot);
        if run[k - 1].Receive? {
          SlotsCountWhatWasSeen(run, amounts, run[k - 1].sent + 1, run[run[k - 1].sent].node, slot);
        }
      }
    }
  }

  lemma {:induction false} SumOfNone(amounts: seq<nat>, t: nat)
    requires t <= |amounts|
    ensures Sum(amounts, {}, t) == 0
  {
    if t > 0 {
      SumOfNone(amounts, t - 1);
    }
  }

  lemma SumOfNestedUnion(amounts: seq<nat>, a: set<nat>, b: set<nat>, t: nat)
    requires t <= |amounts| && (a <= b || b <= a)
    ensures var x, y := Sum(amounts, a, t), Sum(amounts, b, t);
            Sum(amounts, a + b, t) == if y > x then y else x
  {
    if a <= b {
      assert a + b == b;
      SumMonotone(amounts, a, b, t);
    } else {
      assert a + b == a;
      SumMonotone(amounts, b, a, t);
    }
  }

  // ---------------------------------------------------------------- the value

  /** The counts that the first `t` events of `s` contribute, over the given slots. */
  ghost function Shares(run: seq<Event>, amounts: seq<nat>, s: set<nat>, t: nat, slots: set<string>): Vec
    requires t <= |amounts|
  {
    map slot | slot in slots :: Sum(amounts, Slot(run, s, slot), t)
  }

  lemma ShareStep(run: seq<Event>, amounts: seq<nat>, s: set<nat>, t: nat, slot: string)
    requires 0 < t <= |amounts| == |run|
    ensures Sum(amounts, Slot(run, s, slot), t) == Sum(amounts, Slot(run, s, slot), t - 1)
              + (if t - 1 in s && slot == run[t - 1].node then amounts[t - 1] else 0)
  {
  }

  lemma TotalAfterRaise(c: Vec, d: Vec, slot: string, n: nat)
    requires c.Keys == d.Keys && slot in c && d[slot] == c[slot] + n
    requires forall other | other in c && other != slot :: d[other] == c[other]
    ensures Total(d) == Total(c) + n
  {
    assert d == c[slot := d[slot]];
    TotalUpdate(c, slot, d[slot]);
  }

  lemma {:induction false} TotalOfShares(run: seq<Event>, amounts: seq<nat>, s: set<nat>, t: nat, slots: set<string>)
    requires t <= |amounts| == |run|
    requires forall i | i in s && i < t && amounts[i] > 0 :: run[i].node in slots
    ensures Total(Shares(run, amounts, s, t, slots)) == Sum(amounts, s, t)
    decreases t
  {
    if t == 0 {
      TotalOfZeros(Shares(run, amounts, s, t, slots));
    } else {
      TotalOfShares(run, amounts, s, t - 1, slots);
      var fewer, shares := Shares(run, amounts, s, t - 1, slots), Shares(run, amounts, s, t, slots);
      forall slot | slot in slots
        ensures shares[slot] == fewer[slot]
                  + (if t - 1 in s && slot == run[t - 1].node then amounts[t - 1] else 0)
      {
        ShareStep(run, amounts, s, t, slot);
      }
      if t - 1 in s && run[t - 1].node in slots {
        TotalAfterRaise(fewer, shares, run[t - 1].node, amounts[t - 1]);
      } else {
        assert shares == fewer;
      }
    }
  }

  lemma {:induction false} TotalOfZeros(c: Vec)
    requires forall n | n in c :: c[n] == 0
    ensures Total(c) == 0
    decreases |c|
  {
    if c != map[] {
      var n :| n in c;
      TotalRemove(c, n);
      TotalOfZeros(c - {n});
    }
  }

  lemma {:induction false} SumCoversMember(amounts: seq<nat>, s: set<nat>, i: nat, t: nat)
    requires t <= |amounts| && i in s && i < t
    ensures Sum(amounts, s, t) >= amounts[i]
    decreases t
  {
    if i < t - 1 {
      SumCoversMember(amounts, s, i, t - 1);
    }
  }

  /** A replica's value is the sum of exactly the increments in its causal past: none is lost,
      and none is counted twice, whatever the order and repetition of merges. */
  lemma ValueCountsWhatWasSeen(run: seq<Event>, amounts: seq<nat>, k: nat, node: string)
    requires IsCountingRun(run, amounts) && k <= |run|
    ensures Total(Counts(run, amounts, k, node)) == Sum(amounts, Seen(run, k, node), |run|)
  {
    var c, s := Counts(run, amounts, k, node), Seen(run, k, node);
    forall i | i in s && amounts[i] > 0
      ensures run[i].node in c
    {
      SlotsCountWhatWasSeen(run, amounts, k, node, run[i].node);
      SumCoversMember(amounts, Slot(run, s, run[i].node), i, |run|);
    }
    forall slot | slot in c
      ensures c[slot] == Sum(amounts, Slot(run, s, slot), |run|)
    {
      SlotsCountWhatWasSeen(run, amounts, k, node, slot);
    }
    assert c == Shares(run, amounts, s, |run|, c.Keys);
    TotalOfShares(run, amounts, s, |run|, c.Keys);
  }

  /** Replicas that have seen the same increments agree, slot by slot and in value. */
  lemma ReplicasConverge(run: seq<Event>, amounts: seq<nat>, k: nat, a: string, b: string)
    requires IsCountingRun(run, amounts) && k <= |run|
    requires Seen(run, k, a) == Seen(run, k, b)
    ensures Agree(Counts(run, amounts, k, a), Counts(run, amounts, k, b))
    ensures Total(Counts(run, amounts, k, a)) == Total(Counts(run, amounts, k, b))
  {
    forall slot: string
      ensures At(Counts(run, amounts, k, a), slot) == At(Counts(run, amounts, k, b), slot)
    {
      SlotsCountWhatWasSeen(run, amounts, k, a, slot);
      SlotsCountWhatWasSeen(run, amounts, k, b, slot);
    }
    ValueCountsWhatWasSeen(run, amounts, k, a);
    ValueCountsWhatWasSeen(run, amounts, k, b);
  }
}
