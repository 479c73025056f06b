/** The consistent-hash ring (fintech-gateway-go/internal/loadbalancer/ring.go).  The hash is a
    parameter; backends are known by their IDs. */
module HashRing {
  import opened Collections
  import opened Text

  const TWO32: int := 0x1_0000_0000
  const VIRTUAL_NODES: nat := 100

  type Hash32 = h: int | 0 <= h < TWO32

  type Hash = string -> Hash32

  datatype Node = Node(hash: Hash32, backend: string)

  // ---------------------------------------------------------------- what the ring means

  function VirtualNode(hash: Hash, backend: string, i: nat): Node {
    Node(hash(backend + "#" + Digits(i)), backend)
  }

  function NodesOf(hash: Hash, backend: string, count: nat): seq<Node> {
    if count == 0 then [] else NodesOf(hash, backend, count - 1) + [VirtualNode(hash, backend, count - 1)]
  }

  /** All virtual nodes, in the order of the backends. */
  function AllNodes(hash: Hash, backends: seq<string>): seq<Node> {
    if backends == [] then []
    else
      var last := |backends| - 1;
      AllNodes(hash, backends[..last]) + NodesOf(hash, backends[last], VIRTUAL_NODES)
  }

  /** How far clockwise from `h` to `x`. */
  function Distance(h: Hash32, x: Hash32): int {
    (x - h) % TWO32
  }

  lemma DistanceWraps(h: Hash32, x: Hash32)
    ensures Distance(h, x) == if h <= x then x - h else x - h + TWO32
  {
  }

  predicate IsLeast(nodes: multiset<Node>, healthy: set<string>, h: Hash32, best: Node) {
    forall n | n in nodes && n.backend in healthy :: Distance(h, best.hash) <= Distance(h, n.hash)
  }

  /** `r` is the backend of a healthy node at the least clockwise distance, if any is healthy. */
  ghost predicate IsNearest(nodes: multiset<Node>, healthy: set<string>, h: Hash32, r: Option<string>) {
    match r
    case None => forall n | n in nodes :: n.backend !in healthy
    case Some(b) => b in healthy && exists best | best in nodes && best.backend == b :: IsLeast(nodes, healthy, h, best)
  }

  // ---------------------------------------------------------------- building the ring

  ghost predicate IsSorted(nodes: seq<Node>) {
    forall i, j | 0 <= i < j < |nodes| :: nodes[i].hash <= nodes[j].hash
  }

  method Inserted(sorted: seq<Node>, n: Node) returns (r: seq<Node>)
    requires IsSorted(sorted)
    ensures IsSorted(r) && multiset(r) == multiset(sorted) + multiset{n}
  {
    var at := |sorted|;
    while at > 0 && sorted[at - 1].hash > n.hash
      invariant 0 <= at <= |sorted|
      invariant forall i | at <= i < |sorted| :: n.hash < sorted[i].hash
    {
      at := at - 1;
    }
    r := sorted[..at] + [n] + sorted[at..];
    InsertionKeepsAll(sorted, at, n);
  }

  lemma InsertionKeepsAll(sorted: seq<Node>, at: nat, n: Node)
    requires at <= |sorted|
    ensures multiset(sorted[..at] + [n] + sorted[at..]) == multiset(sorted) + multiset{n}
  {
    assert sorted == sorted[..at] + sorted[at..];
  }

  method SortedByHash(nodes: seq<Node>) returns (r: seq<Node>)
    ensures IsSorted(r) && multiset(r) == multiset(nodes)
  {
    r := [];
    for i := 0 to |nodes|
      invariant IsSorted(r) && multiset(r) == multiset(nodes[..i])
    {
      assert nodes[..i + 1] == nodes[..i] + [nodes[i]];
      r := Inserted(r, nodes[i]);
    }
    assert nodes[..|nodes|] == nodes;
  }

  /** The ring holds every virtual node of every backend, sorted by hash. */
  method NewHashRing(hash: Hash, backends: seq<string>) returns (nodes: seq<Node>)
    ensures IsSorted(nodes) && multiset(nodes) == multiset(AllNodes(hash, backends))
  {
    nodes := [];
    for b := 0 to |backends|
      invariant nodes == AllNodes(hash, backends[..b])
    {
      for i := 0 to VIRTUAL_NODES
        invariant nodes == AllNodes(hash, backends[..b]) + NodesOf(hash, backends[b], i)
      {
        nodes := nodes + [VirtualNode(hash, backends[b], i)];
      }
      assert backends[..b + 1][..b] == backends[..b];
    }
    assert backends[..|backends|] == backends;
    nodes := SortedByHash(nodes);
  }

  // ---------------------------------------------------------------- looking a key up

  /** Binary search for the first node at or after `h`. */
  method Search(nodes: seq<Node>, h: Hash32) returns (start: nat)
    requires IsSorted(nodes)
    ensures start <= |nodes|
    ensures forall i | 0 <= i < start :: nodes[i].hash < h
    ensures forall i | start <= i < |nodes| :: h <= nodes[i].hash
  {
    var lo, hi := 0, |nodes|;
    while lo < hi
      invariant 0 <= lo <= hi <= |nodes|
      invariant forall i | 0 <= i < lo :: nodes[i].hash < h
      invariant forall i | hi <= i < |nodes| :: h <= nodes[i].hash
    {
      var mid := (lo + hi) / 2;
      if nodes[mid].hash >= h {
        hi := mid;
      } else {
        lo := mid + 1;
      }
    }
    start := lo;
  }

  /** Where the walk from `start` is after `i` steps. */
  function Place(start: nat, i: nat, n: nat): nat
    requires n > 0
  {
    (start + i) % n
  }

  lemma WrapsOnce(a: nat, n: nat)
    requires 0 < n <= a < 2 * n
    ensures a % n == a - n
  {
    assert a / n == 1;
  }

  lemma PlaceUnrolled(start: nat, i: nat, n: nat)
    requires start <= n && i < n
    ensures Place(start, i, n) == if start + i < n then start + i else start + i - n
  {
    if n <= start + i {
      WrapsOnce(start + i, n);
    }
  }

  ghost predicate IsStart(nodes: seq<Node>, h: Hash32, start: nat) {
    && start <= |nodes|
    && (forall i | 0 <= i < start :: nodes[i].hash < h)
    && (forall i | start <= i < |nodes| :: h <= nodes[i].hash)
  }

  /** The walk meets nodes in the order of their clockwise distance. */
  lemma WalkIsClockwise(nodes: seq<Node>, h: Hash32, start: nat, i: nat, j: nat)
    requires IsSorted(nodes) && IsStart(nodes, h, start) && i <= j < |nodes|
    ensures Distance(h, nodes[Place(start, i, |nodes|)].hash) <= Distance(h, nodes[Place(start, j, |nodes|)].hash)
  {
    PlaceUnrolled(start, i, |nodes|);
    PlaceUnrolled(start, j, |nodes|);
    DistanceWraps(h, nodes[Place(start, i, |nodes|)].hash);
    DistanceWraps(h, nodes[Place(start, j, |nodes|)].hash);
  }

  /** The walk visits every node. */
  lemma WalkCovers(start: nat, p: nat, n: nat) returns (i: nat)
    requires start <= n && p < n
    ensures i < n && Place(start, i, n) == p
  {
    i := if start <= p then p - start else p + n - start;
    PlaceUnrolled(start, i, n);
  }

  method Get(nodes: seq<Node>, hash: Hash, healthy: set<string>, key: string) returns (r: Option<string>)
    requires IsSorted(nodes)
    ensures IsNearest(multiset(nodes), healthy, hash(key), r)
  {
    if |nodes| == 0 {
      return None;
    }
    var h := hash(key);
    var start := Search(nodes, h);
    for i := 0 to |nodes|
      invariant forall j | 0 <= j < i :: nodes[Place(start, j, |nodes|)].backend !in healthy
    {
      var n := nodes[(start + i) % |nodes|];
      if n.backend in healthy {
        FirstIsLeast(nodes, healthy, h, start, i);
        return Some(n.backend);
      }
    }
    NoneIsHealthy(nodes, healthy, start);
    r := None;
  }

  lemma FirstIsLeast(nodes: seq<Node>, healthy: set<string>, h: Hash32, start: nat, i: nat)
    requires IsSorted(nodes) && IsStart(nodes, h, start) && i < |nodes|
    requires forall j | 0 <= j < i :: nodes[Place(start, j, |nodes|)].backend !in healthy
    ensures IsLeast(multiset(nodes), healthy, h, nodes[Place(start, i, |nodes|)])
  {
    forall n | n in multiset(nodes) && n.backend in healthy
      ensures Distance(h, nodes[Place(start, i, |nodes|)].hash) <= Distance(h, n.hash)
    {
      var p :| 0 <= p < |nodes| && nodes[p] == n;
      var j := WalkCovers(start, p, |nodes|);
      WalkIsClockwise(nodes, h, start, i, j);
    }
  }

  lemma NoneIsHealthy(nodes: seq<Node>, healthy: set<string>, start: nat)
    requires |nodes| > 0 && start <= |nodes|
    requires forall j | 0 <= j < |nodes| :: nodes[Place(start, j, |nodes|)].backend !in healthy
    ensures forall n | n in multiset(nodes) :: n.backend !in healthy
  {
    forall n | n in multiset(nodes)
      ensures n.backend !in healthy
    {
      var p :| 0 <= p < |nodes| && nodes[p] == n;
      var j := WalkCovers(start, p, |nodes|);
    }
  }

  // ---------------------------------------------------------------- where a key goes

  /** Where the `i`-th node of a backend is. */
  function Point(hash: Hash, backend: string, i: nat): Hash32 {
    hash(backend + "#" + Digits(i))
  }

  ghost predicate IsPoint(hash: Hash, backend: string, count: nat, x: Hash32) {
    exists i: nat | i < count :: x == Point(hash, backend, i)
  }

  lemma {:induction false} NodesOfAre(hash: Hash, backend: string, count: nat, n: Node)
    ensures n in NodesOf(hash, backend, count) <==> n.backend == backend && IsPoint(hash, backend, count, n.hash)
    ensures |NodesOf(hash, backend, count)| == count
  {
    if count > 0 {
      NodesOfAre(hash, backend, count - 1, n);
      var last := VirtualNode(hash, backend, count - 1);
      assert last.hash == Point(hash, backend, count - 1);
      if IsPoint(hash, backend, count, n.hash) {
        var i: nat :| i < count && n.hash == Point(hash, backend, i);
        assert i < count - 1 ==> IsPoint(hash, backend, count - 1, n.hash);
      }
    }
  }

  /** A ring has a hundred nodes for every backend, one for each hash of its ID and a number. */
  lemma {:induction false} RingNodesAre(hash: Hash, backends: seq<string>, n: Node)
    ensures n in AllNodes(hash, backends) <==> n.backend in backends && IsPoint(hash, n.backend, 100, n.hash)
    ensures |AllNodes(hash, backends)| == 100 * |backends|
  {
    if backends != [] {
      var last := |backends| - 1;
      RingNodesAre(hash, backends[..last], n);
      NodesOfAre(hash, backends[last], VIRTUAL_NODES, n);
      assert backends == backends[..last] + [backends[last]];
    }
  }

  /** How far clockwise from `h` the `i`-th node of a backend is. */
  function Ahead(hash: Hash, h: Hash32, backend: string, i: nat): int {
    var x := Point(hash, backend, i);
    if h <= x then x - h else x - h + 4294967296
  }

  ghost predicate ComesFirst(hash: Hash, backends: seq<string>, healthy: set<string>, h: Hash32, backend: string,
                             i: nat) {
    forall b, j: nat | b in backends && b in healthy && j < 100 :: Ahead(hash, h, backend, i) <= Ahead(hash, h, b, j)
  }

  /** A key goes to a healthy backend one of whose hundred nodes comes first clockwise from the key's
      hash; it goes nowhere exactly when no backend is healthy. */
  lemma KeysGoClockwise(hash: Hash, backends: seq<string>, healthy: set<string>, h: Hash32, r: Option<string>)
    requires IsNearest(multiset(AllNodes(hash, backends)), healthy, h, r)
    ensures r.None? <==> forall b | b in backends :: b !in healthy
    ensures r.Some? ==> r.value in backends && r.value in healthy
    ensures r.Some? ==> exists i: nat | i < 100 :: ComesFirst(hash, backends, healthy, h, r.value, i)
  {
    var nodes := multiset(AllNodes(hash, backends));
    if r.None? {
      forall b | b in backends
        ensures b !in healthy
      {
        PointsAreNodes(hash, backends, b, 0);
      }
    } else {
      var best :| best in nodes && best.backend == r.value && IsLeast(nodes, healthy, h, best);
      RingNodesAre(hash, backends, best);
      var i: nat :| i < 100 && best.hash == Point(hash, best.backend, i);
      NearestComesFirst(hash, backends, healthy, h, best, i);
    }
  }

  lemma PointsAreNodes(hash: Hash, backends: seq<string>, b: string, j: nat)
    requires b in backends && j < 100
    ensures Node(Point(hash, b, j), b) in multiset(AllNodes(hash, backends))
  {
    RingNodesAre(hash, backends, Node(Point(hash, b, j), b));
  }

  lemma NearestComesFirst(hash: Hash, backends: seq<string>, healthy: set<string>, h: Hash32, best: Node, i: nat)
    requires IsLeast(multiset(AllNodes(hash, backends)), healthy, h, best) && best.hash == Point(hash, best.backend, i)
    ensures ComesFirst(hash, backends, healthy, h, best.backend, i)
  {
    forall b, j: nat | b in backends && b in healthy && j < 100
      ensures Ahead(hash, h, best.backend, i) <= Ahead(hash, h, b, j)
    {
      PointsAreNodes(hash, backends, b, j);
      assert Distance(h, best.hash) <= Distance(h, Node(Point(hash, b, j), b).hash);
      DistanceWraps(h, best.hash);
      DistanceWraps(h, Point(hash, b, j));
    }
  }

  // ---------------------------------------------------------------- removing a backend

  /** No two backends share a hash. */
  ghost predicate HashesTellBackends(nodes: multiset<Node>) {
    forall m, n | m in nodes && n in nodes && m.hash == n.hash :: m.backend == n.backend
  }

  lemma DistancesTellHashes(h: Hash32, x: Hash32, y: Hash32)
    requires Distance(h, x) == Distance(h, y)
    ensures x == y
  {
    DistanceWraps(h, x);
    DistanceWraps(h, y);
  }

  /** With distinct hashes, where a key goes depends only on the healthy virtual nodes. */
  lemma NearestIsUnique(nodes: multiset<Node>, healthy: set<string>, nodes': multiset<Node>, healthy': set<string>,
                        h: Hash32, r: Option<string>, r': Option<string>)
    requires HashesTellBackends(nodes)
    requires forall n :: n in nodes && n.backend in healthy <==> n in nodes' && n.backend in healthy'
    requires IsNearest(nodes, healthy, h, r) && IsNearest(nodes', healthy', h, r')
    ensures r == r'
  {
    if r.Some? && r'.Some? {
      var best :| best in nodes && best.backend == r.value && IsLeast(nodes, healthy, h, best);
      var best' :| best' in nodes' && best'.backend == r'.value && IsLeast(nodes', healthy', h, best');
      assert best in nodes' && best' in nodes;
      DistancesTellHashes(h, best.hash, best'.hash);
    }
  }

  lemma {:induction false} BackendsOfNodesOf(hash: Hash, backend: string, count: nat, n: Node)
    requires n in NodesOf(hash, backend, count)
    ensures n.backend == backend
  {
    if n != VirtualNode(hash, backend, count - 1) {
      BackendsOfNodesOf(hash, backend, count - 1, n);
    }
  }

  /** A node belongs to a ring exactly when it is one of its backend's nodes. */
  lemma {:induction false} AllNodesByBackend(hash: Hash, backends: seq<string>, n: Node)
    ensures n in AllNodes(hash, backends) <==> n.backend in backends && n in NodesOf(hash, n.backend, VIRTUAL_NODES)
  {
    if backends != [] {
      var last := |backends| - 1;
      AllNodesByBackend(hash, backends[..last], n);
      assert backends == backends[..last] + [backends[last]];
      if n in NodesOf(hash, backends[last], VIRTUAL_NODES) {
        BackendsOfNodesOf(hash, backends[last], VIRTUAL_NODES, n);
      }
    }
  }

  /** A ring built without a backend routes every key as the full ring does while that backend
      is unhealthy. */
  lemma RemovingIsFailing(hash: Hash, full: seq<string>, rest: seq<string>, gone: string, healthy: set<string>,
                          h: Hash32,
                          before: Option<string>, after: Option<string>)
    requires HashesTellBackends(multiset(AllNodes(hash, full)))
    requires forall b :: b in rest <==> b in full && b != gone
    requires IsNearest(multiset(AllNodes(hash, full)), healthy - {gone}, h, before)
    requires IsNearest(multiset(AllNodes(hash, rest)), healthy, h, after)
    ensures before == after
  {
    var nodes, nodes' := multiset(AllNodes(hash, full)), multiset(AllNodes(hash, rest));
    forall n
      ensures n in nodes && n.backend in healthy - {gone} <==> n in nodes' && n.backend in healthy
    {
      SameHealthyNodes(hash, full, rest, gone, healthy, n);
    }
    NearestIsUnique(nodes, healthy - {gone}, nodes', healthy, h, before, after);
  }

  lemma SameHealthyNodes(hash: Hash, full: seq<string>, rest: seq<string>, gone: string, healthy: set<string>, n: Node)
    requires forall b :: b in rest <==> b in full && b != gone
    ensures n in multiset(AllNodes(hash, full)) && n.backend in healthy - {gone}
            <==> n in multiset(AllNodes(hash, rest)) && n.backend in healthy
  {
    AllNodesByBackend(hash, full, n);
    AllNodesByBackend(hash, rest, n);
    InMultiset(AllNodes(hash, full), n);
    InMultiset(AllNodes(hash, rest), n);
  }

  lemma InMultiset(nodes: seq<Node>, n: Node)
    ensures n in multiset(nodes) <==> n in nodes
  {
  }

  /** So only the keys of that backend move. */
  lemma OnlyItsKeysMove(hash: Hash, full: seq<string>, rest: seq<string>, gone: string, healthy: set<string>, h: Hash32,
                        before: Option<string>, after: Option<string>)
    requires HashesTellBackends(multiset(AllNodes(hash, full)))
    requires forall b :: b in rest <==> b in full && b != gone
    requires IsNearest(multiset(AllNodes(hash, full)), healthy, h, before)
    requires IsNearest(multiset(AllNodes(hash, rest)), healthy, h, after)
    ensures before == after || before == Some(gone)
  {
    var nodes := multiset(AllNodes(hash, full));
    if before != Some(gone) {
      StaysNearest(nodes, healthy, gone, h, before);
      RemovingIsFailing(hash, full, rest, gone, healthy, h, before, after);
    }
  }

  lemma StaysNearest(nodes: multiset<Node>, healthy: set<string>, gone: string, h: Hash32, r: Option<string>)
    requires IsNearest(nodes, healthy, h, r) && r != Some(gone)
    ensures IsNearest(nodes, healthy - {gone}, h, r)
  {
    if r.Some? {
      var best :| best in nodes && best.backend == r.value && IsLeast(nodes, healthy, h, best);
      assert IsLeast(nodes, healthy - {gone}, h, best);
    }
  }
}
