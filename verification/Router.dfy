/**
  The Agent Memory router: a consistent-hash ring of 64-bit points, several per
  node, with collisions probed upwards and around.  The hash is a parameter.
 */
module Router {
  import opened Records

  type NodeId = nat

  const POINTS: nat := 0x1_0000_0000_0000_0000

  type Point = x: nat | x < POINTS

  type Ring = map<Point, NodeId>

  function Shift(p: Point, d: nat): Point {
    (p + d) % POINTS
  }

  /** How far clockwise from p to k. */
  function Clockwise(p: Point, k: Point): (d: nat)
    ensures d < POINTS && Shift(p, d) == k
  {
    if k >= p then k - p else k + POINTS - p
  }

  // ---------------------------------------------------------------------
  // Probing for a free point.
  // ---------------------------------------------------------------------

  /** The points from p on are taken up to distance d. */
  predicate TakenTo(taken: set<Point>, p: Point, d: nat) {
    forall e: nat | e < d :: Shift(p, e) in taken
  }

  /** The first free point from p on. */
  predicate FirstFree(taken: set<Point>, p: Point, d: nat) {
    d < POINTS && TakenTo(taken, p, d) && Shift(p, d) !in taken
  }

  /** As long as a point is free, probing finds one. */
  lemma {:induction false} FreePoint(taken: set<Point>, p: Point) returns (d: nat)
    requires |taken| < POINTS
    ensures FirstFree(taken, p, d) && d <= |taken|
    decreases |taken|
  {
    if p !in taken {
      d := 0;
    } else {
      var e := FreePoint(taken - {p}, Shift(p, 1));
      d := e + 1;
      assert forall i: nat :: Shift(Shift(p, 1), i) == Shift(p, i + 1);
      assert Shift(p, d) != p;
      forall i: nat | i < d ensures Shift(p, i) in taken {
        if i > 0 {
          assert Shift(Shift(p, 1), i - 1) in taken - {p};
        }
      }
    }
  }

  lemma FirstFreeOnce(taken: set<Point>, p: Point, d: nat, e: nat)
    requires FirstFree(taken, p, d) && FirstFree(taken, p, e)
    ensures d == e
  {
  }

  lemma CanPlace(taken: set<Point>, p: Point)
    requires |taken| < POINTS
    ensures exists d: nat :: FirstFree(taken, p, d)
  {
    var d := FreePoint(taken, p);
  }

  /** How far a probe from p goes. */
  ghost function Probe(taken: set<Point>, p: Point): (d: nat)
    requires |taken| < POINTS
    ensures FirstFree(taken, p, d)
  {
    CanPlace(taken, p);
    var d: nat :| FirstFree(taken, p, d);
    d
  }

  // ---------------------------------------------------------------------
  // The ring.
  // ---------------------------------------------------------------------

  function Label(node: NodeId, vnode: nat): string {
    Decimal(node) + "#" + Decimal(vnode)
  }

  type Hash = string -> Point

  /** Where a node's virtual node hashes to. */
  function At(hash: Hash, node: NodeId, vnode: nat): Point {
    hash(Label(node, vnode))
  }

  /** The ring with the first `count` points of a node placed. */
  ghost function WithPoints(ring: Ring, hash: Hash, node: NodeId, count: nat): (r: Ring)
    requires |ring| + count <= POINTS
    ensures |r| == |ring| + count
  {
    if count == 0 then ring
    else
      var before := WithPoints(ring, hash, node, count - 1);
      var p := At(hash, node, count - 1);
      before[Shift(p, Probe(before.Keys, p)) := node]
  }

  /** The ring of nodes taken in order. */
  ghost function RingOf(hash: Hash, nodes: seq<NodeId>, vnodes: nat): (r: Ring)
    requires |nodes| * vnodes <= POINTS
    ensures |r| == |nodes| * vnodes
  {
    if nodes == [] then map[]
    else
      var n := |nodes| - 1;
      assert |nodes| * vnodes == n * vnodes + vnodes;
      WithPoints(RingOf(hash, nodes[..n], vnodes), hash, nodes[n], vnodes)
  }

  function PointsOf(ring: Ring, node: NodeId): set<Point> {
    set p | p in ring && ring[p] == node
  }

  lemma {:induction false} PointsPlaced(ring: Ring, hash: Hash, node: NodeId, count: nat)
    requires |ring| + count <= POINTS
    ensures var r := WithPoints(ring, hash, node, count);
      && |PointsOf(r, node)| == |PointsOf(ring, node)| + count
      && (forall p | p in ring :: p in r && r[p] == ring[p])
      && (forall p | p in r :: p in ring || r[p] == node)
  {
    if count > 0 {
      PointsPlaced(ring, hash, node, count - 1);
      var before := WithPoints(ring, hash, node, count - 1);
      var q := NextPlace(ring, hash, node, count);
      hide WithPoints;
      OnePoint(before, q, node);
      hide PointsOf;
    }
  }

  lemma NextPlace(ring: Ring, hash: Hash, node: NodeId, count: nat) returns (q: Point)
    requires count > 0 && |ring| + count <= POINTS
    ensures var before := WithPoints(ring, hash, node, count - 1); q !in before && WithPoints(ring, hash, node, count) == before[q := node]
  {
    var before := WithPoints(ring, hash, node, count - 1);
    var p := At(hash, node, count - 1);
    q := Shift(p, Probe(before.Keys, p));
  }

  lemma OnePoint(ring: Ring, q: Point, node: NodeId)
    requires q !in ring
    ensures |PointsOf(ring[q := node], node)| == |PointsOf(ring, node)| + 1
  {
    assert PointsOf(ring[q := node], node) == PointsOf(ring, node) + {q};
  }

  predicate Ascending(nodes: seq<NodeId>) {
    forall i, j | 0 <= i < j < |nodes| :: nodes[i] < nodes[j]
  }

  lemma SamePoints(r0: Ring, r: Ring, node: NodeId, other: NodeId)
    requires forall p | p in r0 :: p in r && r[p] == r0[p]
    requires forall p | p in r :: p in r0 || r[p] == node
    requires other != node
    ensures PointsOf(r, other) == PointsOf(r0, other)
  {
  }

  /** Whatever collides, every node has exactly its number of points, and only nodes have points. */
  lemma {:induction false} EveryNodeItsPoints(hash: Hash, nodes: seq<NodeId>, vnodes: nat)
    requires |nodes| * vnodes <= POINTS && Ascending(nodes)
    ensures var r := RingOf(hash, nodes, vnodes);
      && (forall p | p in r :: r[p] in nodes)
      && (forall node: NodeId :: |PointsOf(r, node)| == if node in nodes then vnodes else 0)
  {
    if nodes == [] {
      assert forall node: NodeId :: PointsOf(map[], node) == {};
    } else {
      var n := |nodes| - 1;
      assert |nodes| * vnodes == n * vnodes + vnodes;
      var r0 := RingOf(hash, nodes[..n], vnodes);
      EveryNodeItsPoints(hash, nodes[..n], vnodes);
      PointsPlaced(r0, hash, nodes[n], vnodes);
      var r := WithPoints(r0, hash, nodes[n], vnodes);
      hide WithPoints;
      hide RingOf;
      hide PointsOf;
      assert nodes == nodes[..n] + [nodes[n]];
      assert nodes[n] !in nodes[..n];
      forall node: NodeId ensures |PointsOf(r, node)| == if node in nodes then vnodes else 0 {
        if node != nodes[n] {
          SamePoints(r0, r, nodes[n], node);
        }
      }
    }
  }

  // ---------------------------------------------------------------------
  // Routing.
  // ---------------------------------------------------------------------

  /** The ring point that owns p: the next one clockwise. */
  ghost predicate Owns(ring: Ring, p: Point, k: Point) {
    k in ring && forall q | q in ring :: Clockwise(p, k) <= Clockwise(p, q)
  }

  lemma OwnsOnce(ring: Ring, p: Point, k: Point, q: Point)
    requires Owns(ring, p, k) && Owns(ring, p, q)
    ensures k == q
  {
    assert Clockwise(p, k) == Clockwise(p, q);
    assert Shift(p, Clockwise(p, k)) == Shift(p, Clockwise(p, q));
  }

  /** No two labels of the nodes hash to the same point. */
  ghost predicate CollisionFree(hash: Hash, nodes: seq<NodeId>, vnodes: nat) {
    forall a, b, v: nat, w: nat | a in nodes && b in nodes && v < vnodes && w < vnodes && (a != b || v != w) ::
      At(hash, a, v) != At(hash, b, w)
  }

  /** Points are where the node's first labels hash to, and those of the ring before. */
  ghost predicate PlacedAt(ring: Ring, r: Ring, hash: Hash, node: NodeId, count: nat) {
    && (forall p | p in ring :: p in r && r[p] == ring[p])
    && (forall v: nat | v < count :: At(hash, node, v) in r && r[At(hash, node, v)] == node)
    && (forall p | p in r && p !in ring :: r[p] == node && exists v: nat | v < count :: p == At(hash, node, v))
  }

  lemma PlacedAtMore(ring: Ring, r: Ring, hash: Hash, node: NodeId, count: nat)
    requires PlacedAt(ring, r, hash, node, count) && At(hash, node, count) !in r
    ensures PlacedAt(ring, r[At(hash, node, count) := node], hash, node, count + 1)
  {
    hide At;
  }

  /** The labels a node is about to place are free and different. */
  ghost predicate LabelsFree(ring: Ring, hash: Hash, node: NodeId, count: nat) {
    && (forall v: nat | v < count :: At(hash, node, v) !in ring)
    && (forall v: nat, w: nat | v < w < count :: At(hash, node, v) != At(hash, node, w))
  }

  lemma NextLabelFree(ring: Ring, r: Ring, hash: Hash, node: NodeId, count: nat)
    requires LabelsFree(ring, hash, node, count + 1) && PlacedAt(ring, r, hash, node, count)
    ensures At(hash, node, count) !in r && LabelsFree(ring, hash, node, count)
  {
    hide At;
  }

  /** Without collisions no probe moves a point. */
  lemma {:induction false} NoProbing(ring: Ring, hash: Hash, node: NodeId, count: nat)
    requires |ring| + count <= POINTS && LabelsFree(ring, hash, node, count)
    ensures PlacedAt(ring, WithPoints(ring, hash, node, count), hash, node, count)
  {
    hide PlacedAt;
    hide LabelsFree;
    hide At;
    if count == 0 {
      NonePlaced(ring, hash, node);
    } else {
      FewerLabels(ring, hash, node, count);
      NoProbing(ring, hash, node, count - 1);
      var before := WithPoints(ring, hash, node, count - 1);
      var p := At(hash, node, count - 1);
      NextLabelFree(ring, before, hash, node, count - 1);
      NoDetour(before.Keys, p);
      PlacedAtMore(ring, before, hash, node, count - 1);
    }
  }

  lemma NonePlaced(ring: Ring, hash: Hash, node: NodeId)
    ensures PlacedAt(ring, ring, hash, node, 0)
  {
  }

  lemma FewerLabels(ring: Ring, hash: Hash, node: NodeId, count: nat)
    requires count > 0 && LabelsFree(ring, hash, node, count)
    ensures LabelsFree(ring, hash, node, count - 1)
  {
  }

  lemma NoDetour(taken: set<Point>, p: Point)
    requires |taken| < POINTS && p !in taken
    ensures Shift(p, Probe(taken, p)) == p
  {
    FirstFreeOnce(taken, p, Probe(taken, p), 0);
  }

  /** The points are those the nodes' labels hash to, each with its own node. */
  ghost predicate Ideal(ring: Ring, hash: Hash, nodes: seq<NodeId>, vnodes: nat) {
    && (forall node, v: nat | node in nodes && v < vnodes :: At(hash, node, v) in ring && ring[At(hash, node, v)] == node)
    && (forall p | p in ring :: ring[p] in nodes && exists v: nat | v < vnodes :: p == At(hash, ring[p], v))
  }

  lemma IdealMore(r0: Ring, r: Ring, hash: Hash, nodes: seq<NodeId>, node: NodeId, vnodes: nat)
    requires Ideal(r0, hash, nodes, vnodes) && PlacedAt(r0, r, hash, node, vnodes)
    ensures Ideal(r, hash, nodes + [node], vnodes)
  {
    hide At;
  }

  lemma NewLabelsFree(ring: Ring, hash: Hash, nodes: seq<NodeId>, node: NodeId, vnodes: nat)
    requires Ideal(ring, hash, nodes, vnodes) && CollisionFree(hash, nodes + [node], vnodes) && node !in nodes
    ensures LabelsFree(ring, hash, node, vnodes) && CollisionFree(hash, nodes, vnodes)
  {
    hide At;
    var more := nodes + [node];
    assert node in more && forall a | a in nodes :: a in more;
    hide Ideal;
    forall v: nat | v < vnodes ensures At(hash, node, v) !in ring {
      NotInIdeal(ring, hash, nodes, node, vnodes, v);
    }
  }

  lemma NotInIdeal(ring: Ring, hash: Hash, nodes: seq<NodeId>, node: NodeId, vnodes: nat, v: nat)
    requires Ideal(ring, hash, nodes, vnodes) && CollisionFree(hash, nodes + [node], vnodes) && node !in nodes && v < vnodes
    ensures At(hash, node, v) !in ring
  {
    hide At;
    assert node in nodes + [node] && forall a | a in nodes :: a in nodes + [node];
  }

  /** A ring without collisions is ideal. */
  lemma {:induction false} IdealRing(hash: Hash, nodes: seq<NodeId>, vnodes: nat)
    requires |nodes| * vnodes <= POINTS && Ascending(nodes) && CollisionFree(hash, nodes, vnodes)
    ensures Ideal(RingOf(hash, nodes, vnodes), hash, nodes, vnodes)
  {
    if nodes != [] {
      var n := |nodes| - 1;
      assert |nodes| * vnodes == n * vnodes + vnodes;
      var r0 := RingOf(hash, nodes[..n], vnodes);
      assert nodes == nodes[..n] + [nodes[n]];
      FewerNodes(hash, nodes, vnodes);
      hide CollisionFree;
      hide Ideal;
      hide PlacedAt;
      hide LabelsFree;
      IdealRing(hash, nodes[..n], vnodes);
      NewLabelsFree(r0, hash, nodes[..n], nodes[n], vnodes);
      NoProbing(r0, hash, nodes[n], vnodes);
      IdealMore(r0, WithPoints(r0, hash, nodes[n], vnodes), hash, nodes[..n], nodes[n], vnodes);
    }
  }

  lemma FewerNodes(hash: Hash, nodes: seq<NodeId>, vnodes: nat)
    requires nodes != [] && Ascending(nodes) && CollisionFree(hash, nodes, vnodes)
    ensures CollisionFree(hash, nodes[..|nodes| - 1], vnodes) && nodes[|nodes| - 1] !in nodes[..|nodes| - 1]
  {
    hide At;
  }

  // ---------------------------------------------------------------------
  // Adding and removing a node.
  // ---------------------------------------------------------------------

  function Inserted(nodes: seq<NodeId>, node: NodeId): (r: seq<NodeId>)
    requires Ascending(nodes)
    ensures Ascending(r) && forall x :: x in r <==> x in nodes || x == node
  {
    if nodes == [] then [node]
    else
      var n := |nodes| - 1;
      if node == nodes[n] then nodes
      else if node > nodes[n] then nodes + [node]
      else
        var rest := Inserted(nodes[..n], node);
        assert nodes == nodes[..n] + [nodes[n]];
        assert forall i | 0 <= i < |rest| :: rest[i] in rest;
        rest + [nodes[n]]
  }

  function Erased(nodes: seq<NodeId>, node: NodeId): (r: seq<NodeId>)
    requires Ascending(nodes)
    ensures Ascending(r) && forall x :: x in r <==> x in nodes && x != node
  {
    if nodes == [] then []
    else
      var n := |nodes| - 1;
      assert nodes == nodes[..n] + [nodes[n]];
      var rest := Erased(nodes[..n], node);
      assert forall i | 0 <= i < |rest| :: rest[i] in rest;
      if nodes[n] == node then rest else rest + [nodes[n]]
  }

  lemma RestOfAscending(a: seq<NodeId>, x: NodeId)
    requires Ascending(a) && a != []
    ensures x in a ==> x <= a[|a| - 1]
    ensures x in a[..|a| - 1] <==> x in a && x < a[|a| - 1]
    ensures a[|a| - 1] in a && Ascending(a[..|a| - 1])
  {
    assert a == a[..|a| - 1] + [a[|a| - 1]];
  }

  lemma {:induction false} AscendingUnique(a: seq<NodeId>, b: seq<NodeId>)
    requires Ascending(a) && Ascending(b) && forall x :: x in a <==> x in b
    ensures a == b
    decreases |a|
  {
    assert b != [] ==> b[0] in b;
    if a != [] {
      assert a[0] in a;
      hide Ascending;
      var m, n := |a| - 1, |b| - 1;
      RestOfAscending(a, b[n]);
      RestOfAscending(b, a[m]);
      forall x ensures x in a[..m] <==> x in b[..n] {
        RestOfAscending(a, x);
        RestOfAscending(b, x);
      }
      AscendingUnique(a[..m], b[..n]);
      assert a == a[..m] + [a[m]] && b == b[..n] + [b[n]];
    }
  }

  /** Removing a node just added leaves the nodes, and so the ring, as they were, even with collisions. */
  lemma RemoveUndoesAdd(nodes: seq<NodeId>, node: NodeId)
    requires Ascending(nodes) && node !in nodes
    ensures Erased(Inserted(nodes, node), node) == nodes
  {
    AscendingUnique(Erased(Inserted(nodes, node), node), nodes);
  }

  /** One ring is the other with a node's points beside those that are there. */
  ghost predicate Beside(ring: Ring, ring': Ring, points: set<Point>, node: NodeId) {
    && ring.Keys !! points && ring'.Keys == ring.Keys + points
    && (forall p | p in ring :: ring'[p] == ring[p]) && (forall p | p in points :: ring'[p] == node)
  }

  /** Points that a probe neither starts from nor ends at do not change it. */
  lemma ProbeBeside(taken: set<Point>, points: set<Point>, p: Point)
    requires |taken| < POINTS && |taken + points| < POINTS && Shift(p, Probe(taken, p)) !in points
    ensures Probe(taken + points, p) == Probe(taken, p)
  {
    var d := Probe(taken, p);
    assert FirstFree(taken + points, p, d);
    FirstFreeOnce(taken + points, p, d, Probe(taken + points, p));
  }

  lemma NextPoint(ring: Ring, hash: Hash, node: NodeId, count: nat)
    requires count > 0 && |ring| + count <= POINTS
    ensures var before, p := WithPoints(ring, hash, node, count - 1), At(hash, node, count - 1);
      && |before| + 1 == |ring| + count && |before.Keys| == |before|
      && WithPoints(ring, hash, node, count) == before[Shift(p, Probe(before.Keys, p)) := node]
  {
    hide Shift;
    hide At;
  }

  lemma {:induction false} PlacedBeside(ring: Ring, ring': Ring, points: set<Point>, node: NodeId, hash: Hash, other: NodeId, count: nat)
    requires Beside(ring, ring', points, node) && |ring| + count <= POINTS && |ring'| + count <= POINTS
    requires WithPoints(ring, hash, other, count).Keys !! points
    ensures Beside(WithPoints(ring, hash, other, count), WithPoints(ring', hash, other, count), points, node)
  {
    hide *;
    if count == 0 {
      NoPoint(ring, hash, other);
      NoPoint(ring', hash, other);
    } else {
      NextPoint(ring, hash, other, count);
      NextPoint(ring', hash, other, count);
      var r, r' := WithPoints(ring, hash, other, count - 1), WithPoints(ring', hash, other, count - 1);
      var p := At(hash, other, count - 1);
      NotAmong(r, Shift(p, Probe(r.Keys, p)), other, points);
      PlacedBeside(ring, ring', points, node, hash, other, count - 1);
      StepBeside(r, r', points, node, p, other);
    }
  }

  lemma NoPoint(ring: Ring, hash: Hash, node: NodeId)
    requires |ring| <= POINTS
    ensures WithPoints(ring, hash, node, 0) == ring
  {
  }

  lemma NotAmong(r: Ring, q: Point, other: NodeId, points: set<Point>)
    requires r[q := other].Keys !! points
    ensures r.Keys !! points && q !in points
  {
    assert q in r[q := other].Keys;
    assert r.Keys <= r[q := other].Keys;
  }

  lemma StepBeside(r: Ring, r': Ring, points: set<Point>, node: NodeId, p: Point, other: NodeId)
    requires Beside(r, r', points, node) && |r.Keys| < POINTS && |r'.Keys| < POINTS && Shift(p, Probe(r.Keys, p)) !in points
    ensures Beside(r[Shift(p, Probe(r.Keys, p)) := other], r'[Shift(p, Probe(r'.Keys, p)) := other], points, node)
  {
    hide *;
    BesideKeys(r, r', points, node);
    ProbeBeside(r.Keys, points, p);
    OneBeside(r, r', points, node, Shift(p, Probe(r.Keys, p)), other);
  }

  lemma BesideKeys(ring: Ring, ring': Ring, points: set<Point>, node: NodeId)
    requires Beside(ring, ring', points, node)
    ensures ring'.Keys == ring.Keys + points
  {
  }

  lemma OneBeside(r: Ring, r': Ring, points: set<Point>, node: NodeId, q: Point, other: NodeId)
    requires Beside(r, r', points, node) && q !in points
    ensures Beside(r[q := other], r'[q := other], points, node)
  {
  }

  lemma {:induction false} InsertedGrows(nodes: seq<NodeId>, node: NodeId)
    requires Ascending(nodes) && node !in nodes
    ensures |Inserted(nodes, node)| == |nodes| + 1
  {
    if nodes != [] && node < nodes[|nodes| - 1] {
      InsertedGrows(nodes[..|nodes| - 1], node);
    }
  }

  /** Where a node goes among the others: behind them, or before the last. */
  lemma InsertedWhere(nodes: seq<NodeId>, node: NodeId)
    requires Ascending(nodes) && node !in nodes
    ensures nodes == [] || node > nodes[|nodes| - 1] ==> Inserted(nodes, node) == nodes + [node]
    ensures nodes != [] && node <= nodes[|nodes| - 1] ==>
      var init, last := nodes[..|nodes| - 1], nodes[|nodes| - 1];
      && Ascending(init) && node !in init && node != last && nodes == init + [last]
      && Inserted(nodes, node) == Inserted(init, node) + [last] && |Inserted(init, node)| == |init| + 1
  {
    if nodes != [] {
      RestOfAscending(nodes, node);
      if node <= nodes[|nodes| - 1] { InsertedGrows(nodes[..|nodes| - 1], node); }
    }
  }

  lemma FewerPoints(n: nat, m: nat, vnodes: nat)
    requires n <= m && m * vnodes <= POINTS
    ensures n * vnodes <= POINTS
  {
    assert m * vnodes == n * vnodes + (m - n) * vnodes;
  }

  /** The ring of some nodes is the ring of the nodes before the last with its points placed. */
  lemma RingNextTo(hash: Hash, nodes: seq<NodeId>, last: NodeId, vnodes: nat)
    requires (|nodes| + 1) * vnodes <= POINTS
    ensures |nodes| * vnodes <= POINTS && |nodes| * vnodes + vnodes <= POINTS
    ensures RingOf(hash, nodes + [last], vnodes) == WithPoints(RingOf(hash, nodes, vnodes), hash, last, vnodes)
  {
    assert (|nodes| + 1) * vnodes == |nodes| * vnodes + vnodes;
    assert (nodes + [last])[..|nodes|] == nodes;
    hide WithPoints;
  }

  /** When the new node took free points only, the new ring is the old one with those beside it. */
  lemma {:induction false} RingBeside(hash: Hash, nodes: seq<NodeId>, node: NodeId, vnodes: nat)
    requires Ascending(nodes) && node !in nodes && (|nodes| + 1) * vnodes <= POINTS
    requires |Inserted(nodes, node)| == |nodes| + 1 && |nodes| * vnodes <= POINTS
    requires PointsOf(RingOf(hash, Inserted(nodes, node), vnodes), node) !! RingOf(hash, nodes, vnodes).Keys
    ensures var ring' := RingOf(hash, Inserted(nodes, node), vnodes);
      Beside(RingOf(hash, nodes, vnodes), ring', PointsOf(ring', node), node)
    decreases |nodes|
  {
    hide *;
    InsertedWhere(nodes, node);
    if nodes == [] || node > nodes[|nodes| - 1] {
      LastBeside(hash, nodes, node, vnodes);
    } else {
      var n := |nodes| - 1;
      var init, last := nodes[..n], nodes[n];
      RingNextTo(hash, init, last, vnodes);
      RingNextTo(hash, Inserted(init, node), last, vnodes);
      var r, r' := RingOf(hash, init, vnodes), RingOf(hash, Inserted(init, node), vnodes);
      PointsPlaced(r, hash, last, vnodes);
      PointsPlaced(r', hash, last, vnodes);
      SamePoints(r', WithPoints(r', hash, last, vnodes), last, node);
      RingBeside(hash, init, node, vnodes);
      PlacedBeside(r, r', PointsOf(r', node), node, hash, last, vnodes);
    }
  }

  lemma LastBeside(hash: Hash, nodes: seq<NodeId>, node: NodeId, vnodes: nat)
    requires Ascending(nodes) && node !in nodes && (|nodes| + 1) * vnodes <= POINTS && |nodes| * vnodes <= POINTS
    ensures var ring' := RingOf(hash, nodes + [node], vnodes);
      Beside(RingOf(hash, nodes, vnodes), ring', PointsOf(ring', node), node)
  {
    hide *;
    EveryNodeItsPoints(hash, nodes, vnodes);
    RingNextTo(hash, nodes, node, vnodes);
    var ring := RingOf(hash, nodes, vnodes);
    PointsPlaced(ring, hash, node, vnodes);
    AddedBeside(ring, WithPoints(ring, hash, node, vnodes), node);
  }

  lemma AddedBeside(ring: Ring, ring': Ring, node: NodeId)
    requires forall p | p in ring :: p in ring' && ring'[p] == ring[p] != node
    requires forall p | p in ring' :: p in ring || ring'[p] == node
    ensures Beside(ring, ring', PointsOf(ring', node), node)
  {
  }

  /** A node with the largest id takes free points only. */
  lemma LargestTakesFreePoints(hash: Hash, nodes: seq<NodeId>, node: NodeId, vnodes: nat)
    requires Ascending(nodes) && (forall x | x in nodes :: x < node) && (|nodes| + 1) * vnodes <= POINTS
    ensures |Inserted(nodes, node)| == |nodes| + 1 && |nodes| * vnodes <= POINTS
    ensures PointsOf(RingOf(hash, Inserted(nodes, node), vnodes), node) !! RingOf(hash, nodes, vnodes).Keys
  {
    InsertedGrows(nodes, node);
    RingNextTo(hash, nodes, node, vnodes);
    EveryNodeItsPoints(hash, nodes, vnodes);
    hide RingOf;
    hide WithPoints;
    assert nodes != [] ==> nodes[|nodes| - 1] in nodes;
    assert Inserted(nodes, node) == nodes + [node];
    PointsPlaced(RingOf(hash, nodes, vnodes), hash, node, vnodes);
  }

  /** Without collisions any node does. */
  lemma CollisionFreeTakesFreePoints(hash: Hash, nodes: seq<NodeId>, node: NodeId, vnodes: nat)
    requires Ascending(nodes) && node !in nodes && (|nodes| + 1) * vnodes <= POINTS
    requires CollisionFree(hash, Inserted(nodes, node), vnodes)
    ensures |Inserted(nodes, node)| == |nodes| + 1 && |nodes| * vnodes <= POINTS
    ensures PointsOf(RingOf(hash, Inserted(nodes, node), vnodes), node) !! RingOf(hash, nodes, vnodes).Keys
  {
    InsertedGrows(nodes, node);
    FewerPoints(|nodes|, |nodes| + 1, vnodes);
    var more := Inserted(nodes, node);
    assert CollisionFree(hash, nodes, vnodes) by {
      hide At;
    }
    IdealRing(hash, nodes, vnodes);
    IdealRing(hash, more, vnodes);
    hide RingOf;
    hide Inserted;
    hide At;
  }

  /**
    Adding a node, whatever collides: every old point keeps its owner if and only if
    the points the new node takes were free.
   */
  lemma OldPointsKeepOwners(hash: Hash, nodes: seq<NodeId>, node: NodeId, vnodes: nat)
    requires Ascending(nodes) && node !in nodes && (|nodes| + 1) * vnodes <= POINTS
    ensures |Inserted(nodes, node)| == |nodes| + 1 && |nodes| * vnodes <= POINTS
    ensures var ring, ring' := RingOf(hash, nodes, vnodes), RingOf(hash, Inserted(nodes, node), vnodes);
      (forall p | p in ring :: p in ring' && ring'[p] == ring[p]) <==> PointsOf(ring', node) !! ring.Keys
  {
    InsertedGrows(nodes, node);
    FewerPoints(|nodes|, |nodes| + 1, vnodes);
    hide RingOf;
    hide Inserted;
    var ring, ring' := RingOf(hash, nodes, vnodes), RingOf(hash, Inserted(nodes, node), vnodes);
    EveryNodeItsPoints(hash, nodes, vnodes);
    if PointsOf(ring', node) !! ring.Keys {
      RingBeside(hash, nodes, node, vnodes);
    }
  }

  /** If so, a key's owner after the node is added is the owner it had or the new node. */
  lemma AddMovesOnlyToNewNode(hash: Hash, nodes: seq<NodeId>, node: NodeId, vnodes: nat, p: Point, k: Point, k': Point)
    requires Ascending(nodes) && node !in nodes && (|nodes| + 1) * vnodes <= POINTS
    requires |Inserted(nodes, node)| == |nodes| + 1 && |nodes| * vnodes <= POINTS
    requires PointsOf(RingOf(hash, Inserted(nodes, node), vnodes), node) !! RingOf(hash, nodes, vnodes).Keys
    requires Owns(RingOf(hash, nodes, vnodes), p, k) && Owns(RingOf(hash, Inserted(nodes, node), vnodes), p, k')
    ensures var ring, ring' := RingOf(hash, nodes, vnodes), RingOf(hash, Inserted(nodes, node), vnodes);
      ring'[k'] == node || (k' == k && ring'[k'] == ring[k])
  {
    RingBeside(hash, nodes, node, vnodes);
    hide RingOf;
    hide Inserted;
    var ring, ring' := RingOf(hash, nodes, vnodes), RingOf(hash, Inserted(nodes, node), vnodes);
    if ring'[k'] != node {
      assert k' in ring;
      OwnsOnce(ring, p, k, k');
    }
  }

  /**
    With a collision it can go otherwise: the new node takes a point that an old
    node then gives up for the next one, and keys pass between two old nodes.
   */
  lemma CollisionMovesOthers(hash: Hash, a: NodeId, b: NodeId, c: NodeId, x: Point)
    requires a < b < c && x + 2 < POINTS
    requires At(hash, a, 0) == At(hash, b, 0) == x && At(hash, c, 0) == x + 2
    ensures Inserted([b, c], a) == [a, b, c]
    ensures Owns(RingOf(hash, [b, c], 1), x + 1, x + 2) && RingOf(hash, [b, c], 1)[x + 2] == c
    ensures Owns(RingOf(hash, [a, b, c], 1), x + 1, x + 1) && RingOf(hash, [a, b, c], 1)[x + 1] == b
  {
    hide At;
    hide Owns;
    hide RingOf;
    InsertedFirst(a, b, c);
    TwoPlaced(hash, b, c, x);
    ThreePlaced(hash, a, b, c, x);
    NextIsSecond(a, b, c, x);
  }

  lemma InsertedFirst(a: NodeId, b: NodeId, c: NodeId)
    requires a < b < c
    ensures Inserted([b, c], a) == [a, b, c]
  {
    AscendingUnique(Inserted([b, c], a), [a, b, c]);
  }

  lemma TwoPlaced(hash: Hash, b: NodeId, c: NodeId, x: Point)
    requires x + 2 < POINTS && At(hash, b, 0) == x && At(hash, c, 0) == x + 2
    ensures RingOf(hash, [b, c], 1) == map[x := b][x + 2 := c]
  {
    hide At;
    NodeAlone(hash, b);
    hide RingOf;
    SecondNode(hash, [b], c, map[x := b], x + 2);
    assert [b] + [c] == [b, c];
  }

  lemma ThreePlaced(hash: Hash, a: NodeId, b: NodeId, c: NodeId, x: Point)
    requires x + 2 < POINTS && At(hash, a, 0) == At(hash, b, 0) == x && At(hash, c, 0) == x + 2
    ensures RingOf(hash, [a, b, c], 1) == map[x := a][x + 1 := b][x + 2 := c]
  {
    hide At;
    NodeAlone(hash, a);
    ProbedOnce({x}, x);
    assert map[x := a].Keys == {x};
    assert RingOf(hash, [a, b], 1) == WithPoints(RingOf(hash, [a], 1), hash, b, 1) by {
      assert [a, b][..1] == [a];
    }
    hide RingOf;
    OneLabel(map[x := a], hash, b);
    hide WithPoints;
    SecondNode(hash, [a, b], c, map[x := a][x + 1 := b], x + 2);
    assert [a, b] + [c] == [a, b, c];
  }

  lemma NextIsSecond(a: NodeId, b: NodeId, c: NodeId, x: Point)
    requires x + 2 < POINTS
    ensures Owns(map[x := b][x + 2 := c], x + 1, x + 2)
    ensures Owns(map[x := a][x + 1 := b][x + 2 := c], x + 1, x + 1)
  {
  }

  lemma OneLabel(ring: Ring, hash: Hash, node: NodeId)
    requires |ring| + 1 <= POINTS
    ensures WithPoints(ring, hash, node, 1) == ring[Shift(At(hash, node, 0), Probe(ring.Keys, At(hash, node, 0))) := node]
  {
    assert WithPoints(ring, hash, node, 0) == ring;
  }

  lemma ProbedOnce(taken: set<Point>, x: Point)
    requires taken == {x} && x + 1 < POINTS
    ensures Shift(x, Probe(taken, x)) == x + 1
  {
    assert Shift(x, 0) == x && Shift(x, 1) == x + 1;
    FirstFreeOnce(taken, x, Probe(taken, x), 1);
  }

  lemma NodeAlone(hash: Hash, node: NodeId)
    ensures RingOf(hash, [node], 1) == map[At(hash, node, 0) := node]
  {
    SecondNode(hash, [], node, map[], At(hash, node, 0));
    assert [] + [node] == [node];
  }

  lemma SecondNode(hash: Hash, nodes: seq<NodeId>, node: NodeId, ring: Ring, p: Point)
    requires |nodes| < POINTS && RingOf(hash, nodes, 1) == ring && At(hash, node, 0) == p && p !in ring
    ensures RingOf(hash, nodes + [node], 1) == ring[p := node]
  {
    hide At;
    assert (nodes + [node])[..|nodes|] == nodes;
    OneLabel(ring, hash, node);
    NoDetour(ring.Keys, p);
  }

  // ---------------------------------------------------------------------
  // The router.
  // ---------------------------------------------------------------------

  datatype Config = Config(selfNode: NodeId, ringEpoch: nat, routed: bool, vnodes: nat)

  datatype EntryKind = MemoryEntry | CacheEntryKind

  datatype RoutingKey = RoutingKey(tenantId: string, namespaceId: string, subject: string, kind: EntryKind)

  datatype Owner = Owner(node: NodeId, ringEpoch: nat, local: bool)

  function StableKey(key: RoutingKey): string {
    key.tenantId + "\n" + (if key.namespaceId == "" then "default" else key.namespaceId) + "\n" + key.subject + "\n"
    + if key.kind.CacheEntryKind? then "cache" else "memory"
  }

  function AtLeastOne(config: Config): Config {
    if config.vnodes == 0 then config.(vnodes := 1) else config
  }

  /** The next point clockwise: the least not below p, else the least of all. */
  method LowerBound(ring: Ring, p: Point) returns (k: Point)
    requires ring != map[]
    ensures Owns(ring, p, k)
  {
    assert ring.Keys != {};
    k :| k in ring;
    var left := ring.Keys - {k};
    while left != {}
      invariant k in ring && left <= ring.Keys
      invariant forall q | q in ring && q !in left :: Clockwise(p, k) <= Clockwise(p, q)
      decreases |left|
    {
      var q :| q in left;
      left := left - {q};
      if (k >= p && q >= p && q < k) || (k < p && (q >= p || q < k)) {
        k := q;
      }
    }
  }

  /** The first free point from p on. */
  method ProbeFrom(ring: Ring, p: Point) returns (point: Point)
    requires |ring| < POINTS
    ensures point == Shift(p, Probe(ring.Keys, p)) && point !in ring
  {
    point := p;
    ghost var d, end := 0, Probe(ring.Keys, p);
    while point in ring
      invariant d <= end && point == Shift(p, d)
      decreases end - d
    {
      d := d + 1;
      point := if point + 1 == POINTS then 0 else point + 1;
      assert point == Shift(p, d);
    }
  }

  class AgentMemoryRouter {
    const hash: Hash
    var config: Config
    var nodes: seq<NodeId>
    var ring: Ring

    /** The ring is that of the current nodes and configuration. */
    ghost predicate Valid()
      reads this
    {
      && Ascending(nodes) && config.vnodes > 0 && |nodes| * config.vnodes <= POINTS
      && ring == RingOf(hash, nodes, config.vnodes)
    }

    constructor (hash: Hash, config: Config)
      ensures Valid() && nodes == [] && this.hash == hash && this.config == AtLeastOne(config)
    {
      this.hash, this.config, nodes, ring := hash, AtLeastOne(config), [], map[];
    }

    /** Places every node's points anew.  Needs as many points as it places. */
    method RebuildRing()
      requires Ascending(nodes) && config.vnodes > 0 && |nodes| * config.vnodes <= POINTS
      modifies this`ring
      ensures Valid()
    {
      ring := map[];
      assert nodes[..0] == [];
      for i := 0 to |nodes|
        invariant i * config.vnodes <= POINTS && ring == RingOf(hash, nodes[..i], config.vnodes)
      {
        RingNext(hash, nodes, i, config.vnodes);
        hide RingOf;
        hide WithPoints;
        PlaceNode(nodes[i]);
      }
      assert nodes[..|nodes|] == nodes;
    }

    method PlaceNode(node: NodeId)
      requires |ring| + config.vnodes <= POINTS
      modifies this`ring
      ensures ring == WithPoints(old(ring), hash, node, config.vnodes)
    {
      for vnode := 0 to config.vnodes
        invariant ring == WithPoints(old(ring), hash, node, vnode)
      {
        var point := ProbeFrom(ring, At(hash, node, vnode));
        ring := ring[point := node];
      }
    }

    method SetConfig(next: Config)
      requires Valid() && |nodes| * AtLeastOne(next).vnodes <= POINTS
      modifies this
      ensures Valid() && nodes == old(nodes) && config == AtLeastOne(next)
    {
      config := AtLeastOne(next);
      RebuildRing();
    }

    method AddNode(node: NodeId)
      requires Valid() && |Inserted(nodes, node)| * config.vnodes <= POINTS
      modifies this`nodes, this`ring
      ensures Valid() && nodes == Inserted(old(nodes), node)
    {
      nodes := Inserted(nodes, node);
      RebuildRing();
    }

    method RemoveNode(node: NodeId)
      requires Valid()
      modifies this`nodes, this`ring
      ensures Valid() && nodes == Erased(old(nodes), node)
    {
      ErasedFits(nodes, node, config.vnodes);
      nodes := Erased(nodes, node);
      RebuildRing();
    }

    method ClearNodes()
      requires Valid()
      modifies this`nodes, this`ring
      ensures Valid() && nodes == []
    {
      nodes, ring := [], map[];
    }

    /** The owner of a key: this node when not routed or alone, else the node of the next point, always a member. */
    method Route(key: RoutingKey) returns (owner: Owner)
      requires Valid()
      ensures owner.ringEpoch == config.ringEpoch && (owner.local <==> owner.node == config.selfNode)
      ensures !config.routed || nodes == [] ==> owner.node == config.selfNode
      ensures config.routed && nodes != [] ==>
        owner.node in nodes && exists k :: Owns(ring, hash(StableKey(key)), k) && ring[k] == owner.node
    {
      EveryNodeItsPoints(hash, nodes, config.vnodes);
      assert |ring| == |nodes| * config.vnodes;
      if !config.routed || ring == map[] {
        if nodes != [] { SomePoints(|nodes|, config.vnodes); }
        return Owner(config.selfNode, config.ringEpoch, true);
      }
      var k := LowerBound(ring, hash(StableKey(key)));
      hide RingOf;
      hide Owns;
      return Owner(ring[k], config.ringEpoch, ring[k] == config.selfNode);
    }

    /** A node added and removed again: every key has the owner it had before. */
    method AddAndRemove(node: NodeId)
      requires Valid() && node !in nodes && |Inserted(nodes, node)| * config.vnodes <= POINTS
      modifies this`nodes, this`ring
      ensures Valid() && nodes == old(nodes) && ring == old(ring)
    {
      RemoveUndoesAdd(nodes, node);
      AddNode(node);
      RemoveNode(node);
    }
  }

  lemma SomePoints(n: nat, vnodes: nat)
    requires n > 0 && vnodes > 0
    ensures n * vnodes > 0
  {
  }

  lemma MoreNodesMorePoints(a: nat, b: nat, vnodes: nat)
    requires a <= b
    ensures a * vnodes <= b * vnodes
  {
    assert b * vnodes == a * vnodes + (b - a) * vnodes;
  }

  lemma RingNext(hash: Hash, nodes: seq<NodeId>, i: nat, vnodes: nat)
    requires i < |nodes| && |nodes| * vnodes <= POINTS
    ensures i * vnodes + vnodes == (i + 1) * vnodes <= POINTS
    ensures RingOf(hash, nodes[..i + 1], vnodes) == WithPoints(RingOf(hash, nodes[..i], vnodes), hash, nodes[i], vnodes)
  {
    hide WithPoints;
    MoreNodesMorePoints(i + 1, |nodes|, vnodes);
    assert (i + 1) * vnodes == i * vnodes + vnodes;
    assert nodes[..i + 1][..i] == nodes[..i];
  }

  lemma {:induction false} ErasedSize(nodes: seq<NodeId>, node: NodeId)
    requires Ascending(nodes)
    ensures |Erased(nodes, node)| <= |nodes|
  {
    if nodes != [] {
      ErasedSize(nodes[..|nodes| - 1], node);
    }
  }

  lemma ErasedFits(nodes: seq<NodeId>, node: NodeId, vnodes: nat)
    requires Ascending(nodes) && |nodes| * vnodes <= POINTS
    ensures |Erased(nodes, node)| * vnodes <= POINTS
  {
    ErasedSize(nodes, node);
    MoreNodesMorePoints(|Erased(nodes, node)|, |nodes|, vnodes);
  }
}
