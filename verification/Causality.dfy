/** Distributed runs and the happens-before relation, shared by every logical clock
    and by the replicated counter.

    A run is the sequence of events in some real-time order.  An event is either local to
    a node or the receipt, at a node, of what an earlier event's node knew at that event. */
module Causality {

  datatype Event =
    | Local(node: string)
    | Receive(node: string, sent: nat)

  /** Messages are received after they were sent. */
  ghost predicate IsRun(run: seq<Event>) {
    forall i | 0 <= i < |run| && run[i].Receive? :: run[i].sent < i
  }

  /** `i` directly precedes `j`: same node and earlier, or `j` receives what `i` sent. */
  ghost predicate Edge(run: seq<Event>, i: nat, j: nat)
    requires j < |run|
  {
    i < j && (run[i].node == run[j].node || (run[j].Receive? && run[j].sent == i))
  }

  /** Lamport's happens-before: the transitive closure of `Edge`. */
  ghost predicate HappensBefore(run: seq<Event>, i: nat, j: nat)
    requires j < |run|
    decreases j
  {
    exists p: nat | p < j :: Edge(run, p, j) && (i == p || HappensBefore(run, i, p))
  }

  /** `i` is `j` itself or lies in its causal past. */
  ghost predicate InPast(run: seq<Event>, i: nat, j: nat)
    requires j < |run|
  {
    i == j || HappensBefore(run, i, j)
  }

  lemma {:induction false} PastIsEarlier(run: seq<Event>, i: nat, j: nat)
    requires j < |run| && HappensBefore(run, i, j)
    ensures i < j
    decreases j
  {
    var p: nat :| p < j && Edge(run, p, j) && (i == p || HappensBefore(run, i, p));
    if i != p {
      PastIsEarlier(run, i, p);
    }
  }

  lemma {:induction false} PastIsTransitive(run: seq<Event>, i: nat, j: nat, k: nat)
    requires j < |run| && k < |run|
    requires HappensBefore(run, i, j) && HappensBefore(run, j, k)
    ensures HappensBefore(run, i, k)
    decreases k
  {
    var p: nat :| p < k && Edge(run, p, k) && (j == p || HappensBefore(run, j, p));
    if j != p {
      PastIsTransitive(run, i, j, p);
    }
  }

  /** Happens-before is the least transitive relation that contains `Edge`. */
  lemma {:induction false} HappensBeforeIsLeast(run: seq<Event>, r: (nat, nat) -> bool, i: nat, j: nat)
    requires j < |run| && HappensBefore(run, i, j)
    requires forall a: nat, b: nat | b < |run| && Edge(run, a, b) :: r(a, b)
    requires forall a: nat, b: nat, c: nat | r(a, b) && r(b, c) :: r(a, c)
    ensures r(i, j)
    decreases j
  {
    var p: nat :| p < j && Edge(run, p, j) && (i == p || HappensBefore(run, i, p));
    if i != p {
      HappensBeforeIsLeast(run, r, i, p);
    }
  }

  /** The latest of the first `k` events that `node` took part in, or -1. */
  function Latest(run: seq<Event>, k: nat, node: string): (l: int)
    requires k <= |run|
    ensures -1 <= l < k
    ensures l >= 0 ==> run[l].node == node
    ensures forall i | l < i < k :: run[i].node != node
    decreases k
  {
    if k == 0 then -1
    else if run[k - 1].node == node then k - 1
    else Latest(run, k - 1, node)
  }

  /** Some one of the first `k` events of `node` has `i` in its causal past. */
  ghost predicate Knows(run: seq<Event>, k: nat, node: string, i: nat)
    requires k <= |run|
  {
    var l := Latest(run, k, node);
    l >= 0 && InPast(run, i, l)
  }

  /** What an event knows besides itself is exactly what its node knew and what it received. */
  lemma PastSplits(run: seq<Event>, i: nat, j: nat)
    requires IsRun(run) && i < |run| && j < |run| && i != j
    ensures InPast(run, i, j) <==>
            (Knows(run, j, run[j].node, i) || (run[j].Receive? && InPast(run, i, run[j].sent)))
  {
    var l := Latest(run, j, run[j].node);
    if HappensBefore(run, i, j) {
      var p: nat :| p < j && Edge(run, p, j) && (i == p || HappensBefore(run, i, p));
      if run[p].node == run[j].node && p != l {
        assert Edge(run, p, l);
      }
    }
    if l >= 0 && InPast(run, i, l) {
      assert Edge(run, l, j);
    }
    if run[j].Receive? && InPast(run, i, run[j].sent) {
      assert Edge(run, run[j].sent, j);
    }
  }
}
