/** Leader election with fencing (distributed-primitives-go/raft): section 5.2 of Ongaro and
    Ousterhout's Raft, with the network as group numbers.  Terms are unbounded. */
module Raft {
  import opened Collections
  import opened Histories

  datatype Role = Follower | Candidate | Leader

  /** Nodes are numbered by their position. */
  datatype Node = Node(term: nat, role: Role, group: int)

  type Nodes = seq<Node>

  datatype World = World(nodes: Nodes, nextGroup: int, committed: nat)

  // ---------------------------------------------------------------- what each operation does

  function Fresh(n: nat): World {
    World(seq(n, _ => Node(0, Follower, 0)), 1, 0)
  }

  function Grouped(nodes: Nodes, ids: set<int>, g: int): (r: Nodes)
    ensures |r| == |nodes|
  {
    seq(|nodes|, i requires 0 <= i < |nodes| => if i in ids then nodes[i].(group := g) else nodes[i])
  }

  function Partitioned(w: World, ids: seq<int>): World {
    w.(nodes := Grouped(w.nodes, Elements(ids), w.nextGroup), nextGroup := w.nextGroup + 1)
  }

  function Healed(w: World): World {
    w.(nodes := seq(|w.nodes|, i requires 0 <= i < |w.nodes| => w.nodes[i].(group := 0)))
  }

  /** The highest term among the first `k` nodes. */
  function MaxTermTo(nodes: Nodes, k: nat): nat
    requires k <= |nodes|
  {
    if k == 0 then 0
    else
      var rest := MaxTermTo(nodes, k - 1);
      if nodes[k - 1].term > rest then nodes[k - 1].term else rest
  }

  function MaxTerm(nodes: Nodes): nat {
    MaxTermTo(nodes, |nodes|)
  }

  /** The nodes that share a group. */
  ghost function Sharing(nodes: Nodes, group: int): set<nat> {
    set i: nat | i < |nodes| && nodes[i].group == group
  }

  ghost function Electors(w: World, id: nat): set<nat>
    requires id < |w.nodes|
  {
    Sharing(w.nodes, w.nodes[id].group)
  }

  function Majority(n: nat): nat {
    n / 2 + 1
  }

  ghost predicate Wins(w: World, id: nat)
    requires id < |w.nodes|
  {
    |Electors(w, id)| >= Majority(|w.nodes|)
  }

  function Followed(node: Node, group: int, term: nat): Node {
    if node.group == group then node.(role := Follower, term := term) else node
  }

  function Crowned(nodes: Nodes, id: nat, term: nat): (r: Nodes)
    requires id < |nodes|
    ensures |r| == |nodes|
  {
    seq(|nodes|, i requires 0 <= i < |nodes| =>
      if i == id then nodes[i].(role := Leader, term := term) else Followed(nodes[i], nodes[id].group, term))
  }

  /** Won or lost, the candidate keeps the new term. */
  ghost function Elected(w: World, id: nat): World
    requires id < |w.nodes|
  {
    var term := MaxTerm(w.nodes) + 1;
    if Wins(w, id) then w.(nodes := Crowned(w.nodes, id, term), committed := term)
    else w.(nodes := w.nodes[id := w.nodes[id].(role := Follower, term := term)])
  }

  /** What the fence lets through. */
  predicate MayWrite(w: World, id: nat)
    requires id < |w.nodes|
  {
    w.nodes[id].role == Leader && w.nodes[id].term >= w.committed
  }

  // ---------------------------------------------------------------- the cluster

  lemma SharingOneMore(nodes: Nodes, k: nat, group: int)
    requires k < |nodes|
    ensures Sharing(nodes[..k + 1], group) == Sharing(nodes[..k], group) + (if nodes[k].group == group then {k} else {})
  {
  }

  method SetOf(ids: seq<int>) returns (chosen: set<int>)
    ensures chosen == Elements(ids)
  {
    chosen := {};
    for k := 0 to |ids|
      invariant chosen == Elements(ids[..k])
    {
      assert Elements(ids[..k + 1]) == Elements(ids[..k]) + {ids[k]};
      chosen := chosen + {ids[k]};
    }
    assert ids[..|ids|] == ids;
  }

  class Cluster {
    var nodes: Nodes
    var nextGroup: int
    var committed: nat

    ghost function View(): World
      reads this
    {
      World(nodes, nextGroup, committed)
    }

    constructor (n: nat)
      ensures View() == Fresh(n)
      ensures |nodes| == n && committed == 0 && forall i | 0 <= i < n :: nodes[i].term == 0 && nodes[i].role == Follower
    {
      nextGroup := 1;
      committed := 0;
      nodes := [];
      new;
      for i := 0 to n
        invariant nodes == Fresh(i).nodes && nextGroup == 1 && committed == 0
      {
        nodes := nodes + [Node(0, Follower, 0)];
      }
    }

    method Partition(ids: seq<int>)
      modifies this
      ensures View() == Partitioned(old(View()), ids)
    {
      var g := nextGroup;
      nextGroup := nextGroup + 1;
      var chosen := SetOf(ids);
      for i := 0 to |nodes|
        invariant |nodes| == |old(nodes)| && nextGroup == old(nextGroup) + 1 && committed == old(committed)
        invariant forall j | 0 <= j < i :: nodes[j] == Grouped(old(nodes), chosen, g)[j]
        invariant forall j | i <= j < |nodes| :: nodes[j] == old(nodes)[j]
      {
        if i in chosen {
          nodes := nodes[i := nodes[i].(group := g)];
        }
      }
      assert nodes == Grouped(old(nodes), chosen, g);
    }

    method Heal()
      modifies this
      ensures View() == Healed(old(View()))
    {
      for i := 0 to |nodes|
        invariant |nodes| == |old(nodes)| && nextGroup == old(nextGroup) && committed == old(committed)
        invariant nodes[..i] == Healed(old(View())).nodes[..i] && nodes[i..] == old(nodes)[i..]
      {
        nodes := nodes[i := nodes[i].(group := 0)];
      }
    }

    method Reachable(id: nat) returns (count: nat)
      requires id < |nodes|
      ensures count == |Electors(View(), id)|
    {
      count := 0;
      for k := 0 to |nodes|
        invariant count == |Sharing(nodes[..k], nodes[id].group)|
      {
        SharingOneMore(nodes, k, nodes[id].group);
        if nodes[k].group == nodes[id].group {
          count := count + 1;
        }
      }
      assert nodes[..|nodes|] == nodes;
    }

    method HighestTerm() returns (term: nat)
      ensures term == MaxTerm(nodes)
    {
      term := 0;
      for k := 0 to |nodes|
        invariant term == MaxTermTo(nodes, k)
      {
        if nodes[k].term > term {
          term := nodes[k].term;
        }
      }
    }

    /** Every other node of the winner's group becomes its follower. */
    method Demote(id: nat)
      requires id < |nodes|
      modifies this`nodes
      ensures |nodes| == |old(nodes)| && nodes[id] == old(nodes[id])
      ensures forall j | 0 <= j < |nodes| && j != id ::
                nodes[j] == Followed(old(nodes)[j], old(nodes[id]).group, old(nodes[id]).term)
    {
      for i := 0 to |nodes|
        invariant |nodes| == |old(nodes)| && nodes[id] == old(nodes[id])
        invariant forall j | i <= j < |nodes| :: nodes[j] == old(nodes)[j]
        invariant forall j | 0 <= j < i && j != id ::
                    nodes[j] == Followed(old(nodes)[j], old(nodes[id]).group, old(nodes[id]).term)
      {
        if nodes[i].group == nodes[id].group && i != id {
          nodes := nodes[i := nodes[i].(role := Follower, term := nodes[id].term)];
        }
      }
    }

    method Elect(id: nat) returns (won: bool)
      requires id < |nodes|
      modifies this
      ensures won == Wins(old(View()), id)
      ensures View() == Elected(old(View()), id)
      ensures won <==> 2 * |set i: nat | i < |old(nodes)| && old(nodes)[i].group == old(nodes)[id].group| > |old(nodes)|
    {
      var before := nodes;
      var highest := HighestTerm();
      nodes := nodes[id := nodes[id].(role := Candidate, term := highest + 1)];
      var votes := Reachable(id);
      assert Electors(View(), id) == Electors(old(View()), id);
      if votes < Majority(|nodes|) {
        nodes := nodes[id := nodes[id].(role := Follower)];
        return false;
      }
      Demote(id);
      nodes := nodes[id := nodes[id].(role := Leader)];
      committed := nodes[id].term;
      assert nodes == Crowned(before, id, highest + 1);
      won := true;
    }

    /** The caller's effect on whatever it works on is applied, once, exactly when the write is
        accepted. */
    method Write<T>(id: nat, apply: T -> T, target: T) returns (accepted: bool, after: T)
      requires id < |nodes|
      ensures accepted == MayWrite(View(), id)
      ensures after == if accepted then apply(target) else target
    {
      if nodes[id].role != Leader || nodes[id].term < committed {
        return false, target;
      }
      return true, apply(target);
    }
  }

  // ---------------------------------------------------------------- runs

  datatype Step = Partition(ids: seq<int>) | Heal | Elect(id: nat) | Write(id: nat)

  ghost function Exec(w: World, s: Step): (w': World)
    ensures |w'.nodes| == |w.nodes|
  {
    match s
    case Partition(ids) => Partitioned(w, ids)
    case Heal => Healed(w)
    case Elect(id) => if id < |w.nodes| then Elected(w, id) else w
    case Write(_) => w
  }

  ghost predicate Won(w: World, s: Step) {
    s.Elect? && s.id < |w.nodes| && Wins(w, s.id)
  }

  datatype Holder = Nobody | Held(id: nat)

  /** Who should be allowed to write: the winner of the latest won election, until that node
      stands again and loses. */
  ghost function NextHolder(w: World, holder: Holder, s: Step): Holder {
    if Won(w, s) then Held(s.id)
    else if s.Elect? && holder == Held(s.id) then Nobody
    else holder
  }

  /** The cluster, and who should be allowed to write. */
  datatype Moment = Moment(world: World, holder: Holder)

  ghost function Next(m: Moment, s: Step): Moment {
    Moment(Exec(m.world, s), NextHolder(m.world, m.holder, s))
  }

  function Start(n: nat): Moment {
    Moment(Fresh(n), Nobody)
  }

  ghost predicate IsHistory(h: History<Step, Moment>, n: nat) {
    Follows(h, Start(n), Next)
  }

  ghost predicate WinsAt(h: History<Step, Moment>, k: nat, id: nat)
    requires k < |h.steps| && k < |h.worlds|
  {
    Won(h.worlds[k].world, h.steps[k]) && h.steps[k].id == id
  }

  ghost predicate WritesAt(h: History<Step, Moment>, k: nat, id: nat)
    requires k < |h.steps| && k < |h.worlds|
  {
    h.steps[k] == Write(id) && id < |h.worlds[k].world.nodes| && MayWrite(h.worlds[k].world, id)
  }

  // ---------------------------------------------------------------- the invariant

  predicate NodeFits(node: Node, i: nat, nextGroup: int, committed: nat, holder: Holder) {
    && 0 <= node.group < nextGroup
    && (node.role == Leader ==> node.term <= committed)
    && (node.role == Leader && node.term == committed ==> holder == Held(i))
  }

  ghost predicate Inv(w: World, holder: Holder) {
    match w
    case World(nodes, nextGroup, committed) =>
      && (forall i | 0 <= i < |nodes| :: NodeFits(nodes[i], i, nextGroup, committed, holder))
      && committed <= MaxTerm(nodes)
      && 0 < nextGroup
      && (holder.Held? ==> holder.id < |nodes| && MayWrite(w, holder.id))
  }

  lemma {:induction false} MaxTermCovers(nodes: Nodes, k: nat, i: nat)
    requires i < k <= |nodes|
    ensures nodes[i].term <= MaxTermTo(nodes, k)
  {
    if i < k - 1 {
      MaxTermCovers(nodes, k - 1, i);
    }
  }

  /** Terms that do not fall have a maximum that does not fall. */
  lemma {:induction false} MaxTermIsMonotone(a: Nodes, b: Nodes, k: nat)
    requires k <= |a| == |b| && forall i | 0 <= i < |a| :: a[i].term <= b[i].term
    ensures MaxTermTo(a, k) <= MaxTermTo(b, k)
  {
    if k > 0 {
      MaxTermIsMonotone(a, b, k - 1);
    }
  }

  lemma ElectKeepsInv(w: World, holder: Holder, id: nat)
    requires Inv(w, holder) && id < |w.nodes|
    ensures Inv(Elected(w, id), NextHolder(w, holder, Elect(id)))
  {
    var w' := Elected(w, id);
    forall i | 0 <= i < |w.nodes|
      ensures w.nodes[i].term <= MaxTerm(w.nodes)
    {
      MaxTermCovers(w.nodes, |w.nodes|, i);
    }
    MaxTermIsMonotone(w.nodes, w'.nodes, |w.nodes|);
    MaxTermCovers(w'.nodes, |w.nodes|, id);
  }

  lemma RegroupingKeepsInv(w: World, holder: Holder, w': World)
    requires Inv(w, holder) && |w'.nodes| == |w.nodes| && w'.committed == w.committed && w.nextGroup <= w'.nextGroup
    requires forall i | 0 <= i < |w.nodes| ::
               w'.nodes[i] == w.nodes[i].(group := w'.nodes[i].group) && 0 <= w'.nodes[i].group < w'.nextGroup
    ensures Inv(w', holder)
  {
    MaxTermIsMonotone(w.nodes, w'.nodes, |w.nodes|);
  }

  lemma StepKeepsInv(w: World, holder: Holder, s: Step)
    requires Inv(w, holder)
    ensures Inv(Exec(w, s), NextHolder(w, holder, s))
  {
    match s
    case Partition(_) => RegroupingKeepsInv(w, holder, Exec(w, s));
    case Heal => RegroupingKeepsInv(w, holder, Exec(w, s));
    case Elect(id) =>
      if id < |w.nodes| {
        ElectKeepsInv(w, holder, id);
      }
    case Write(_) =>
  }

  lemma {:induction false} InvAlways(h: History<Step, Moment>, n: nat, k: nat)
    requires IsHistory(h, n) && k <= |h.steps|
    ensures Inv(h.worlds[k].world, h.worlds[k].holder) && |h.worlds[k].world.nodes| == n
  {
    if k > 0 {
      InvAlways(h, n, k - 1);
      NextWorld(h, Start(n), Next, k - 1);
      StepKeepsInv(h.worlds[k - 1].world, h.worlds[k - 1].holder, h.steps[k - 1]);
    }
  }

  // ---------------------------------------------------------------- guarantees over whole runs

  /** The fence lets a node write exactly when it won the latest won election and has not stood
      and lost since, whatever partitions came between. */
  lemma FenceAdmitsLatestWinner(h: History<Step, Moment>, n: nat, k: nat, id: nat)
    requires IsHistory(h, n) && k <= |h.steps| && id < n
    ensures |h.worlds[k].world.nodes| == n
    ensures MayWrite(h.worlds[k].world, id) <==> h.worlds[k].holder == Held(id)
    ensures MayWrite(h.worlds[k].world, id) ==> h.worlds[k].world.nodes[id].term == h.worlds[k].world.committed
  {
    InvAlways(h, n, k);
    var w := h.worlds[k].world;
    assert NodeFits(w.nodes[id], id, w.nextGroup, w.committed, h.worlds[k].holder);
  }

  /** At most one node leads at the committed term; every other leader's term is older. */
  lemma OneLeaderAtCommittedTerm(h: History<Step, Moment>, n: nat, k: nat, i: nat, j: nat)
    requires IsHistory(h, n) && k <= |h.steps| && i < |h.worlds[k].world.nodes| && j < |h.worlds[k].world.nodes|
    requires i != j
    requires h.worlds[k].world.nodes[i].role == Leader && h.worlds[k].world.nodes[j].role == Leader
    ensures var w := h.worlds[k].world;
            && w.nodes[i].term <= w.committed && w.nodes[j].term <= w.committed
            && (w.nodes[i].term < w.committed || w.nodes[j].term < w.committed)
  {
    InvAlways(h, n, k);
    var w := h.worlds[k].world;
    assert NodeFits(w.nodes[i], i, w.nextGroup, w.committed, h.worlds[k].holder);
    assert NodeFits(w.nodes[j], j, w.nextGroup, w.committed, h.worlds[k].holder);
  }

  lemma ElectionRaisesTerm(w: World, holder: Holder, s: Step)
    requires Inv(w, holder)
    ensures if Won(w, s) then w.committed < Exec(w, s).committed else w.committed == Exec(w, s).committed
  {
  }

  lemma StepEffect(h: History<Step, Moment>, n: nat, k: nat)
    requires IsHistory(h, n) && k < |h.steps|
    ensures var m, m' := h.worlds[k], h.worlds[k + 1];
            if Won(m.world, h.steps[k]) then m.world.committed < m'.world.committed && m'.holder == Held(h.steps[k].id)
            else m.world.committed == m'.world.committed && (m'.holder == m.holder || m'.holder == Nobody)
  {
    InvAlways(h, n, k);
    NextWorld(h, Start(n), Next, k);
    ElectionRaisesTerm(h.worlds[k].world, h.worlds[k].holder, h.steps[k]);
  }

  /** The committed term never falls, and while it stays the holder can only be lost. */
  lemma {:induction false} CommittedTermRises(h: History<Step, Moment>, n: nat, p: nat, q: nat)
    requires IsHistory(h, n) && p <= q <= |h.steps|
    ensures h.worlds[p].world.committed <= h.worlds[q].world.committed
    ensures h.worlds[p].world.committed == h.worlds[q].world.committed ==>
            h.worlds[q].holder == h.worlds[p].holder || h.worlds[q].holder == Nobody
    decreases q
  {
    if p < q {
      CommittedTermRises(h, n, p, q - 1);
      StepEffect(h, n, q - 1);
    }
  }

  /** A won election makes the winner leader at the new committed term, which is higher than any
      before. */
  lemma WinningRaisesTerm(h: History<Step, Moment>, n: nat, k: nat, id: nat)
    requires IsHistory(h, n) && k < |h.steps| && WinsAt(h, k, id)
    ensures var w := h.worlds[k + 1].world;
            && id < |w.nodes| && w.nodes[id].role == Leader
            && w.nodes[id].term == w.committed > h.worlds[k].world.committed
  {
    InvAlways(h, n, k);
    NextWorld(h, Start(n), Next, k);
  }

  /** A candidate without a majority steps back, with a term above all others, and changes no
      other node. */
  lemma LosersStepBack(h: History<Step, Moment>, n: nat, k: nat, id: nat)
    requires IsHistory(h, n) && k < |h.steps| && h.steps[k] == Elect(id) && id < n && !WinsAt(h, k, id)
    ensures |h.worlds[k].world.nodes| == |h.worlds[k + 1].world.nodes| == n
    ensures h.worlds[k + 1].world.nodes[id].role == Follower
    ensures h.worlds[k + 1].world.committed == h.worlds[k].world.committed
    ensures forall i | 0 <= i < n :: h.worlds[k].world.nodes[i].term < h.worlds[k + 1].world.nodes[id].term
    ensures forall i | 0 <= i < n && i != id :: h.worlds[k + 1].world.nodes[i] == h.worlds[k].world.nodes[i]
  {
    InvAlways(h, n, k);
    NextWorld(h, Start(n), Next, k);
    forall i | 0 <= i < n
      ensures h.worlds[k].world.nodes[i].term <= MaxTerm(h.worlds[k].world.nodes)
    {
      MaxTermCovers(h.worlds[k].world.nodes, n, i);
    }
  }

  lemma {:induction false} MaxTermIsHeld(nodes: Nodes, k: nat) returns (i: nat)
    requires 0 < k <= |nodes|
    ensures i < k && nodes[i].term == MaxTermTo(nodes, k)
  {
    i := 0;
    if k > 1 && nodes[k - 1].term <= MaxTermTo(nodes, k - 1) {
      i := MaxTermIsHeld(nodes, k - 1);
    } else {
      i := k - 1;
    }
  }

  /** A candidate stands at the term after the highest one held, and wins exactly when more than half
      of all nodes are in its group.  Then it leads at that term, which is committed, and its group
      follows at that term; otherwise it follows, and nothing else changes. */
  lemma ElectionIsExact(h: History<Step, Moment>, n: nat, k: nat, id: nat, j: nat) returns (highest: nat)
    requires IsHistory(h, n) && k < |h.steps| && h.steps[k] == Elect(id) && id < n && j < n
    ensures |h.worlds[k].world.nodes| == |h.worlds[k + 1].world.nodes| == n && highest < n
    ensures var w, w' := h.worlds[k].world, h.worlds[k + 1].world;
            var group := set i: nat | i < n && w.nodes[i].group == w.nodes[id].group;
            var term := w.nodes[highest].term + 1;
            && w.nodes[j].term < term
            && (WinsAt(h, k, id) <==> 2 * |group| > n)
            && w'.committed == (if 2 * |group| > n then term else w.committed)
            && w'.nodes[j] ==
                 if j == id then Node(term, if 2 * |group| > n then Leader else Follower, w.nodes[j].group)
                 else if 2 * |group| > n && j in group then Node(term, Follower, w.nodes[j].group)
                 else w.nodes[j]
  {
    InvAlways(h, n, k);
    NextWorld(h, Start(n), Next, k);
    var nodes := h.worlds[k].world.nodes;
    highest := MaxTermIsHeld(nodes, n);
    MaxTermCovers(nodes, n, j);
    assert Electors(h.worlds[k].world, id) == set i: nat | i < n && nodes[i].group == nodes[id].group;
  }

  /** Election safety: no term is won twice. */
  lemma NoTermWonTwice(h: History<Step, Moment>, n: nat, p: nat, q: nat, i: nat, j: nat)
    requires IsHistory(h, n) && p < q < |h.steps| && WinsAt(h, p, i) && WinsAt(h, q, j)
    ensures i < |h.worlds[p + 1].world.nodes| && j < |h.worlds[q + 1].world.nodes|
    ensures h.worlds[p + 1].world.nodes[i].term < h.worlds[q + 1].world.nodes[j].term
  {
    WinningRaisesTerm(h, n, p, i);
    WinningRaisesTerm(h, n, q, j);
    CommittedTermRises(h, n, p + 1, q);
  }

  /** Terms of accepted writes never decrease, and writes accepted in the same term come from
      the same node. */
  lemma AcceptedWritesAreOrdered(h: History<Step, Moment>, n: nat, p: nat, q: nat, i: nat, j: nat)
    requires IsHistory(h, n) && p <= q < |h.steps| && WritesAt(h, p, i) && WritesAt(h, q, j)
    ensures h.worlds[p].world.nodes[i].term <= h.worlds[q].world.nodes[j].term
    ensures h.worlds[p].world.nodes[i].term == h.worlds[q].world.nodes[j].term ==> i == j
  {
    InvAlways(h, n, p);
    InvAlways(h, n, q);
    FenceAdmitsLatestWinner(h, n, p, i);
    FenceAdmitsLatestWinner(h, n, q, j);
    CommittedTermRises(h, n, p, q);
  }

  lemma {:induction false} HolderWonSince(h: History<Step, Moment>, n: nat, p: nat, q: nat, winner: nat, holder: nat)
    requires IsHistory(h, n) && p < q <= |h.steps| && WinsAt(h, p, winner)
    requires holder != winner && h.worlds[q].holder == Held(holder)
    ensures exists k | p < k < q :: WinsAt(h, k, holder)
    decreases q
  {
    NextWorld(h, Start(n), Next, q - 1);
    if p + 1 < q && !WinsAt(h, q - 1, holder) {
      HolderWonSince(h, n, p, q - 1, winner, holder);
    }
  }

  /** Once another node has won, an old leader writes again only after winning again. */
  lemma StaleLeadersAreFenced(h: History<Step, Moment>, n: nat, p: nat, q: nat, winner: nat, stale: nat)
    requires IsHistory(h, n) && p < q < |h.steps| && WinsAt(h, p, winner) && stale != winner && WritesAt(h, q, stale)
    ensures exists k | p < k < q :: WinsAt(h, k, stale)
  {
    InvAlways(h, n, q);
    FenceAdmitsLatestWinner(h, n, q, stale);
    HolderWonSince(h, n, p, q, winner, stale);
  }

  // ---------------------------------------------------------------- quorums

  ghost function Ids(n: nat): (ids: set<nat>)
    ensures |ids| == n && forall i: nat :: i in ids <==> i < n
  {
    if n == 0 then {} else Ids(n - 1) + {n - 1}
  }

  /** Any two won elections, whenever they took place, were decided by groups with a node in
      common. */
  lemma QuorumsIntersect(h: History<Step, Moment>, n: nat, p: nat, q: nat, i: nat, j: nat)
    requires IsHistory(h, n) && p < |h.steps| && q < |h.steps| && WinsAt(h, p, i) && WinsAt(h, q, j)
    ensures Electors(h.worlds[p].world, i) * Electors(h.worlds[q].world, j) != {}
  {
    InvAlways(h, n, p);
    InvAlways(h, n, q);
    var a, b := Electors(h.worlds[p].world, i), Electors(h.worlds[q].world, j);
    SubsetIsSmaller(a + b, Ids(n));
    assert |a + b| == |a| + |b| - |a * b|;
  }

  /** A partition cuts exactly the named nodes off: two nodes can reach each other afterwards
      exactly when both were named, or neither was and they could before. */
  lemma PartitionIsolates(h: History<Step, Moment>, n: nat, k: nat, i: nat, j: nat)
    requires IsHistory(h, n) && k < |h.steps| && h.steps[k].Partition? && i < n && j < n
    ensures var w, w', ids := h.worlds[k].world, h.worlds[k + 1].world, h.steps[k].ids;
            && |w.nodes| == |w'.nodes| == n
            && (j in Electors(w', i) <==> (i in ids && j in ids) || (i !in ids && j !in ids && j in Electors(w, i)))
  {
    InvAlways(h, n, k);
    NextWorld(h, Start(n), Next, k);
    var w := h.worlds[k].world;
    assert NodeFits(w.nodes[i], i, w.nextGroup, w.committed, h.worlds[k].holder);
    assert NodeFits(w.nodes[j], j, w.nextGroup, w.committed, h.worlds[k].holder);
  }

  lemma HealedGroupIsAll(w: World, id: nat)
    requires id < |w.nodes|
    ensures Wins(Healed(w), id)
  {
    assert Electors(Healed(w), id) == Ids(|w.nodes|);
  }

  /** A healed cluster elects whoever stands. */
  lemma HealedClustersElect(h: History<Step, Moment>, n: nat, k: nat, id: nat)
    requires IsHistory(h, n) && k + 1 < |h.steps| && h.steps[k] == Heal && h.steps[k + 1] == Elect(id) && id < n
    ensures WinsAt(h, k + 1, id) && h.worlds[k + 2].holder == Held(id)
  {
    InvAlways(h, n, k);
    NextWorld(h, Start(n), Next, k);
    HealedGroupIsAll(h.worlds[k].world, id);
    StepEffect(h, n, k + 1);
  }
}
