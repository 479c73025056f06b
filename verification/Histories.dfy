/** Runs as histories: the steps taken, with the world before each and after the last. */
module Histories {

  datatype History<S, W> = History(steps: seq<S>, worlds: seq<W>)

  ghost predicate StepsAt<S, W>(h: History<S, W>, exec: (W, S) -> W, k: nat)
    requires k < |h.steps| && |h.worlds| == |h.steps| + 1
  {
    h.worlds[k + 1] == exec(h.worlds[k], h.steps[k])
  }

  ghost predicate Follows<S, W>(h: History<S, W>, start: W, exec: (W, S) -> W) {
    && |h.worlds| == |h.steps| + 1 && h.worlds[0] == start
    && forall k: nat | k < |h.steps| :: StepsAt(h, exec, k)
  }

  lemma NextWorld<S, W>(h: History<S, W>, start: W, exec: (W, S) -> W, k: nat)
    requires Follows(h, start, exec) && k < |h.steps|
    ensures h.worlds[k + 1] == exec(h.worlds[k], h.steps[k])
  {
    assert StepsAt(h, exec, k);
  }

  /** Every sequence of steps has a history. */
  lemma {:induction false} StepsHaveHistory<S, W>(steps: seq<S>, start: W, exec: (W, S) -> W) returns (h: History<S, W>)
    ensures Follows(h, start, exec) && h.steps == steps
  {
    if steps == [] {
      return History([], [start]);
    }
    var last := |steps| - 1;
    var e := StepsHaveHistory(steps[..last], start, exec);
    h := History(steps, e.worlds + [exec(e.worlds[last], steps[last])]);
    forall k: nat | k < |steps|
      ensures StepsAt(h, exec, k)
    {
      if k < last {
        assert StepsAt(e, exec, k);
      }
    }
  }
}
