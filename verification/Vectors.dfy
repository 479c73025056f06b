/** Vectors of per-node counters and their element-wise maximum, the merge that both the vector
    clock and the grow-only counter perform. */
module Vectors {

  type Vec = map<string, nat>

  /** A Go map yields zero for an absent key. */
  function At(v: Vec, n: string): nat {
    if n in v then v[n] else 0
  }

  /** The received counters that are ahead of ours. */
  function Gains(v: Vec, other: Vec): Vec {
    map n | n in other && other[n] > At(v, n) :: other[n]
  }

  /** Element-wise maximum; a key is created only when the received counter is larger. */
  function Joined(v: Vec, other: Vec): Vec {
    v + Gains(v, other)
  }

  lemma JoinedAt(v: Vec, other: Vec, n: string)
    ensures At(Joined(v, other), n) == if At(other, n) > At(v, n) then At(other, n) else At(v, n)
  {
  }

  lemma GainsOneMore(v: Vec, part: Vec, n: string, c: nat)
    requires n !in part
    ensures Gains(v, part[n := c]) == if c > At(v, n) then Gains(v, part)[n := c] else Gains(v, part)
  {
  }

  lemma JoinedOneMore(v: Vec, part: Vec, n: string, c: nat)
    requires n !in part
    ensures At(Joined(v, part), n) == At(v, n)
    ensures Joined(v, part[n := c]) ==
            if c > At(v, n) then Joined(v, part)[n := c] else Joined(v, part)
  {
    GainsOneMore(v, part, n, c);
    assert n !in Gains(v, part);
  }

  /** The merge loop: raise each counter that the received vector has higher. */
  method FoldIn(mine: Vec, received: Vec) returns (v: Vec)
    ensures v == Joined(mine, received)
  {
    v := mine;
    var todo := received.Keys;
    ghost var folded: Vec := map[];
    assert v == Joined(mine, folded);
    while todo != {}
      invariant todo <= received.Keys
      invariant forall n :: n in folded <==> n in received && n !in todo
      invariant forall n | n in folded :: folded[n] == received[n]
      invariant v == Joined(mine, folded)
      decreases |todo|
    {
      var n :| n in todo;
      JoinedOneMore(mine, folded, n, received[n]);
      if received[n] > At(v, n) {
        v := v[n := received[n]];
      }
      folded := folded[n := received[n]];
      todo := todo - {n};
    }
    assert folded == received;
  }
}
