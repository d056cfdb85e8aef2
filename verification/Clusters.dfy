/** Phase 1: candidate clusters of one boundary. The vector search is an input; which facts
    seed it, which of its answers are kept, and the grouping are the program's. */
module Clusters {
  import opened VaultCore
  import opened SortedIds
  import opened UnionFind

  /** A cluster is its members' ids in ascending order. */
  type Cluster = seq<MemoryId>

  /** What the vector search answers for one seed: ids near enough to merge, the seed itself and
      retired rows' lingering vectors included. `None` when embedding or searching failed. */
  type Neighbours = MemoryId -> Option<seq<MemoryId>>

  ghost function NearOf(near: Neighbours, id: MemoryId): seq<MemoryId> {
    if near(id).Some? then near(id).value else []
  }

  function Canonical(a: MemoryId, b: MemoryId): Edge {
    if a <= b then (a, b) else (b, a)
  }

  /** An active fact the search returned for `seed`, other than the seed. */
  ghost predicate Reaches(rows: Rows, b: Boundary, near: Neighbours, seed: MemoryId, other: MemoryId) {
    other in NearOf(near, seed) && other != seed && other in ActiveIn(rows, b)
  }

  /** The merge edges: an examined seed and an active neighbour of it, old or new. */
  ghost function EdgesOf(rows: Rows, b: Boundary, near: Neighbours, seeds: set<MemoryId>): set<Edge> {
    set s, n | s in seeds && n in ActiveIn(rows, b) && Reaches(rows, b, near, s, n) :: Canonical(s, n)
  }

  ghost function NodesOf(rows: Rows, b: Boundary, near: Neighbours, seeds: set<MemoryId>): set<MemoryId> {
    seeds + set s, n | s in seeds && n in ActiveIn(rows, b) && Reaches(rows, b, near, s, n) :: n
  }

  /** The least id of every component of two or more. */
  ghost function Heads(nodes: set<MemoryId>, edges: set<Edge>): set<MemoryId> {
    set n | n in nodes && |Component(nodes, edges, n)| >= 2 && forall m | m in Component(nodes, edges, n) :: n <= m
  }

  ghost function ClusterList(nodes: set<MemoryId>, edges: set<Edge>): (r: seq<Cluster>) {
    var heads := Sorted(Heads(nodes, edges));
    seq(|heads|, i requires 0 <= i < |heads| => Sorted(Component(nodes, edges, heads[i])))
  }

  /** What Phase 1 returns, from the rows and the search's answers alone. `None` is its error. */
  ghost function FindClusters(rows: Rows, b: Boundary, since: Option<Instant>, near: Neighbours, listFails: bool): Option<seq<Cluster>> {
    var seeds := SeedsIn(rows, b, since);
    if listFails then None
    else if seeds == {} || |ActiveIn(rows, b)| < 2 then Some([])
    else if exists s | s in seeds :: near(s).None? then None
    else Some(ClusterList(NodesOf(rows, b, near, seeds), EdgesOf(rows, b, near, seeds)))
  }

  /** What every later phase relies on. */
  ghost predicate ValidClusters(active: set<MemoryId>, clusters: seq<Cluster>) {
    && (forall k | 0 <= k < |clusters| :: ValidCluster(active, clusters[k]))
    && (forall k, l, id | 0 <= k < l < |clusters| :: !(id in clusters[k] && id in clusters[l]))
  }

  ghost predicate ValidCluster(active: set<MemoryId>, c: Cluster) {
    |c| >= 2 && Ascending(c) && forall id | id in c :: id in active
  }

  lemma {:induction false} LinkedStaysInside(nodes: set<Node>, edges: set<Edge>, p: seq<Node>, a: Node, b: Node)
    requires forall x, y | (x, y) in edges :: x in nodes && y in nodes
    requires a in nodes && Path(edges, p, a, b)
    ensures b in nodes
    decreases |p|
  {
    if |p| > 1 {
      assert Adjacent(edges, p[0], p[1]);
      forall i | 0 <= i < |p[1..]| - 1 ensures Adjacent(edges, p[1..][i], p[1..][i + 1]) {
        assert Adjacent(edges, p[i + 1], p[i + 2]);
      }
      LinkedStaysInside(nodes, edges, p[1..], p[1], b);
    }
  }

  lemma ComponentsAgree(nodes: set<Node>, edges: set<Edge>, a: Node, b: Node)
    requires Linked(edges, a, b)
    ensures Component(nodes, edges, a) == Component(nodes, edges, b)
  {
    LinkedSym(edges, a, b);
    forall m | m in nodes ensures Linked(edges, a, m) <==> Linked(edges, b, m) {
      if Linked(edges, a, m) { LinkedTrans(edges, b, a, m); }
      if Linked(edges, b, m) { LinkedTrans(edges, a, b, m); }
    }
  }

  /** Clusters are disjoint groups of at least two active facts of the boundary; two facts share
      one exactly when a chain of near-enough pairs, each proposed by an examined seed, joins
      them. In particular a new fact is grouped with an old one the search returns for it. */
  lemma ClustersAreComponents(rows: Rows, b: Boundary, since: Option<Instant>, near: Neighbours, clusters: seq<Cluster>)
    requires FindClusters(rows, b, since, near, false) == Some(clusters)
    ensures ValidClusters(ActiveIn(rows, b), clusters)
    ensures var seeds := SeedsIn(rows, b, since);
      clusters != [] ==>
        forall x, y | x in NodesOf(rows, b, near, seeds) && y in NodesOf(rows, b, near, seeds) && x != y ::
          (exists k | 0 <= k < |clusters| :: x in clusters[k] && y in clusters[k])
          <==> Linked(EdgesOf(rows, b, near, seeds), x, y)
  {
    var seeds := SeedsIn(rows, b, since);
    var nodes, edges := NodesOf(rows, b, near, seeds), EdgesOf(rows, b, near, seeds);
    if seeds != {} && |ActiveIn(rows, b)| >= 2 {
      ClusterListComponents(nodes, edges);
      var heads := Sorted(Heads(nodes, edges));
      assert nodes <= ActiveIn(rows, b);
      forall k | 0 <= k < |clusters| ensures ValidCluster(ActiveIn(rows, b), clusters[k]) {
        assert heads[k] in Heads(nodes, edges);
      }
    }
  }

  lemma ClusterListComponents(nodes: set<Node>, edges: set<Edge>)
    ensures var clusters := ClusterList(nodes, edges);
      && (forall k, l, id | 0 <= k < l < |clusters| :: !(id in clusters[k] && id in clusters[l]))
      && (forall x, y | x in nodes && y in nodes && x != y ::
          (exists k | 0 <= k < |clusters| :: x in clusters[k] && y in clusters[k]) <==> Linked(edges, x, y))
  {
    var clusters := ClusterList(nodes, edges);
    var heads := Sorted(Heads(nodes, edges));
    forall k, l, id | 0 <= k < l < |clusters| && id in clusters[k] && id in clusters[l] ensures false {
      assert heads[k] in Heads(nodes, edges) && heads[l] in Heads(nodes, edges);
      SharedMemberSameHead(nodes, edges, heads[k], heads[l], id);
    }
    forall x, y | x in nodes && y in nodes && x != y
      ensures (exists k | 0 <= k < |clusters| :: x in clusters[k] && y in clusters[k]) <==> Linked(edges, x, y)
    {
      TogetherIffLinked(nodes, edges, x, y);
    }
  }

  lemma TogetherIffLinked(nodes: set<Node>, edges: set<Edge>, x: Node, y: Node)
    requires x in nodes && y in nodes && x != y
    ensures var clusters := ClusterList(nodes, edges);
      (exists k | 0 <= k < |clusters| :: x in clusters[k] && y in clusters[k]) <==> Linked(edges, x, y)
  {
    var clusters := ClusterList(nodes, edges);
    var heads := Sorted(Heads(nodes, edges));
    if k :| 0 <= k < |clusters| && x in clusters[k] && y in clusters[k] {
      LinkedSym(edges, heads[k], x);
      LinkedTrans(edges, x, heads[k], y);
    }
    if Linked(edges, x, y) {
      var h := HeadOfPair(nodes, edges, x, y);
      assert h in heads;
      var k :| 0 <= k < |heads| && heads[k] == h;
      assert clusters[k] == Sorted(Component(nodes, edges, h));
    }
  }

  lemma SharedMemberSameHead(nodes: set<Node>, edges: set<Edge>, h: Node, g: Node, id: Node)
    requires h in Heads(nodes, edges) && g in Heads(nodes, edges)
    requires id in Component(nodes, edges, h) && id in Component(nodes, edges, g)
    ensures h == g
  {
    LinkedSym(edges, g, id);
    LinkedTrans(edges, h, id, g);
    LinkedSym(edges, h, g);
    assert g in Component(nodes, edges, h) && h in Component(nodes, edges, g);
  }

  lemma HeadOfPair(nodes: set<Node>, edges: set<Edge>, x: Node, y: Node) returns (h: Node)
    requires x in nodes && y in nodes && x != y && Linked(edges, x, y)
    ensures h in Heads(nodes, edges) && x in Component(nodes, edges, h) && y in Component(nodes, edges, h)
  {
    LinkedRefl(edges, x);
    var c := Component(nodes, edges, x);
    assert x in c;
    LeastExists(c);
    h :| h in c && forall m | m in c :: h <= m;
    ComponentsAgree(nodes, edges, x, h);
    TwoMembers(c, x, y);
  }

  lemma TwoMembers(c: set<Node>, x: Node, y: Node)
    requires x in c && y in c && x != y
    ensures |c| >= 2
  {
    assert |c| == |c - {x}| + 1;
    assert y in c - {x};
  }

  /** The merge edges one seed contributes, and the facts they reach. */
  method EdgesForSeed(rows: Rows, b: Boundary, near: Neighbours, seed: MemoryId, active: set<MemoryId>)
    returns (edges: seq<Edge>, reached: set<MemoryId>)
    requires near(seed).Some? && active == ActiveIn(rows, b)
    ensures (set e | e in edges) == EdgesOf(rows, b, near, {seed})
    ensures reached + {seed} == NodesOf(rows, b, near, {seed})
  {
    var found := near(seed).value;
    edges, reached := [], {};
    for j := 0 to |found|
      invariant forall e :: e in edges <==> exists n | n in found[..j] && n != seed && n in active :: e == Canonical(seed, n)
      invariant forall n :: n in reached <==> n in found[..j] && n != seed && n in active
    {
      var n := found[j];
      assert found[..j + 1] == found[..j] + [n];
      if n != seed && n in active {
        reached := reached + {n};
        edges := edges + [Canonical(seed, n)];
      }
    }
    assert found[..|found|] == found;
  }

  predicate ThresholdAllowed(threshold: real) {
    0.0 <= threshold <= 1.0
  }

  /** Phase 1 as the program runs it: seeds, then edges, then union-find, then buckets. A threshold out
      of range is its error too. */
  method FindCandidateClusters(rows: Rows, b: Boundary, threshold: real, since: Option<Instant>, near: Neighbours, listFails: bool)
    returns (clusters: Option<seq<Cluster>>)
    ensures clusters == FindClusters(rows, b, since, near, listFails || !ThresholdAllowed(threshold))
    ensures clusters.None? <==>
      || listFails || threshold < 0.0 || threshold > 1.0
      || (|ActiveIn(rows, b)| >= 2 && exists s | s in SeedsIn(rows, b, since) :: near(s).None?)
  {
    if !(0.0 <= threshold <= 1.0) { return None; }
    if listFails { return None; }
    var seeds := SeedsIn(rows, b, since);
    var active := ActiveIn(rows, b);
    if seeds == {} || |active| < 2 { return Some([]); }

    var nodes, edges, todo := seeds, [], seeds;
    while todo != {}
      invariant todo <= seeds
      invariant forall s | s in seeds - todo :: near(s).Some?
      invariant (set e | e in edges) == EdgesOf(rows, b, near, seeds - todo)
      invariant nodes == seeds + NodesOf(rows, b, near, seeds - todo)
      decreases todo
    {
      var seed := Least(todo);
      if near(seed).None? { return None; }
      var more, reached := EdgesForSeed(rows, b, near, seed, active);
      assert seeds - (todo - {seed}) == (seeds - todo) + {seed};
      assert (set e | e in edges + more) == (set e | e in edges) + (set e | e in more);
      edges, nodes := edges + more, nodes + reached;
      todo := todo - {seed};
    }
    assert seeds - todo == seeds;
    var parent := Unite(nodes, edges);
    var list := ReadGroups(nodes, parent, set e | e in edges);
    clusters := Some(list);
  }

  method ReadGroups(nodes: set<Node>, parent: Parents, ghost edges: set<Edge>) returns (clusters: seq<Cluster>)
    requires Describes(parent, edges)
    requires forall x, y | (x, y) in edges :: x in nodes && y in nodes
    ensures clusters == ClusterList(nodes, edges)
  {
    var groups := Bucket(nodes, parent);
    GroupsAreComponents(nodes, parent, edges, groups);
    ghost var heads;
    clusters, heads := DropSingletons(groups);
    ListFromGroups(nodes, edges, groups, clusters, heads);
  }

  function BigGroups(groups: map<Node, set<Node>>): set<Node> {
    set r | r in groups && |groups[r]| >= 2
  }

  lemma HeadsInOrder(heads: seq<Node>, s: set<Node>)
    requires Ascending(heads) && SetOf(heads) == s
    ensures heads == Sorted(s)
  {
    assert forall n :: n in heads <==> n in SetOf(heads);
    AscendingUnique(heads, Sorted(s));
  }

  lemma ListFromGroups(nodes: set<Node>, edges: set<Edge>, groups: map<Node, set<Node>>, clusters: seq<Cluster>, heads: seq<Node>)
    requires forall r | r in groups :: groups[r] == Component(nodes, edges, r)
    requires Heads(nodes, edges) == BigGroups(groups)
    requires Ascending(heads) && |heads| == |clusters| && SetOf(heads) == BigGroups(groups)
    requires forall k | 0 <= k < |heads| :: heads[k] in groups && clusters[k] == Sorted(groups[heads[k]])
    ensures clusters == ClusterList(nodes, edges)
  {
    HeadsInOrder(heads, Heads(nodes, edges));
  }

  ghost predicate SameRoots(parent: Parents, other: Parents) {
    Downward(parent) && Downward(other) && forall n :: Root(parent, n) == Root(other, n)
  }

  ghost predicate BucketsOf(nodes: set<Node>, parent: Parents, groups: map<Node, set<Node>>)
    requires Downward(parent)
  {
    && (forall n | n in nodes :: Root(parent, n) in groups)
    && (forall r, m | r in groups :: m in groups[r] <==> m in nodes && Root(parent, m) == r)
    && (forall r | r in groups :: groups[r] != {})
  }

  function AddTo(groups: map<Node, set<Node>>, root: Node, n: Node): map<Node, set<Node>> {
    groups[root := (if root in groups then groups[root] else {}) + {n}]
  }

  /** Bucket nodes by root, compressing on the way. */
  method Bucket(nodes: set<Node>, parents: Parents) returns (groups: map<Node, set<Node>>)
    requires Downward(parents)
    ensures BucketsOf(nodes, parents, groups)
  {
    var parent, todo := parents, nodes;
    groups := map[];
    while todo != {}
      invariant todo <= nodes && SameRoots(parent, parents)
      invariant BucketsOf(nodes - todo, parents, groups)
      decreases todo
    {
      var n := Least(todo);
      var root, next := Find(parent, n);
      parent := next;
      groups := AddTo(groups, root, n);
      assert nodes - (todo - {n}) == (nodes - todo) + {n};
      todo := todo - {n};
    }
    assert nodes - todo == nodes;
  }

  lemma BigGroupsStep(groups: map<Node, set<Node>>, todo: set<Node>, r: Node)
    requires todo <= groups.Keys && r in todo
    ensures BigGroups(groups) - (todo - {r})
      == if |groups[r]| >= 2 then BigGroups(groups) - todo + {r} else BigGroups(groups) - todo
  {
  }

  /** Groups of two or more, by ascending root, members ascending. */
  method DropSingletons(groups: map<Node, set<Node>>) returns (clusters: seq<Cluster>, ghost heads: seq<Node>)
    ensures Ascending(heads) && |heads| == |clusters|
    ensures SetOf(heads) == BigGroups(groups)
    ensures forall k | 0 <= k < |heads| :: heads[k] in groups && clusters[k] == Sorted(groups[heads[k]])
  {
    clusters, heads := [], [];
    var todo := groups.Keys;
    while todo != {}
      invariant todo <= groups.Keys
      invariant |heads| == |clusters| && Ascending(heads)
      invariant forall k, r | 0 <= k < |heads| && r in todo :: heads[k] < r
      invariant forall k | 0 <= k < |heads| :: heads[k] in groups && clusters[k] == Sorted(groups[heads[k]])
      invariant SetOf(heads) == BigGroups(groups) - todo
      decreases todo
    {
      var r := Least(todo);
      BigGroupsStep(groups, todo, r);
      if |groups[r]| >= 2 {
        heads := heads + [r];
        clusters := clusters + [Sorted(groups[r])];
      }
      todo := todo - {r};
    }
  }

  lemma GroupsAreComponents(nodes: set<Node>, parent: Parents, edges: set<Edge>, groups: map<Node, set<Node>>)
    requires Describes(parent, edges) && BucketsOf(nodes, parent, groups)
    requires forall x, y | (x, y) in edges :: x in nodes && y in nodes
    ensures forall r | r in groups :: groups[r] == Component(nodes, edges, r)
    ensures Heads(nodes, edges) == BigGroups(groups)
  {
    forall r | r in groups ensures r in nodes && Root(parent, r) == r && groups[r] == Component(nodes, edges, r) {
      GroupIsComponent(nodes, parent, edges, groups, r);
    }
    forall n | n in Heads(nodes, edges) ensures n in groups {
      var p :| Path(edges, p, n, Root(parent, n));
      LinkedStaysInside(nodes, edges, p, n, Root(parent, n));
      assert Root(parent, n) in Component(nodes, edges, n);
      assert n == Root(parent, n);
    }
    forall n | n in groups && |groups[n]| >= 2 ensures n in Heads(nodes, edges) {
      assert forall m | m in groups[n] :: Root(parent, m) == n;
    }
  }

  lemma GroupIsComponent(nodes: set<Node>, parent: Parents, edges: set<Edge>, groups: map<Node, set<Node>>, r: Node)
    requires Describes(parent, edges) && BucketsOf(nodes, parent, groups) && r in groups
    requires forall x, y | (x, y) in edges :: x in nodes && y in nodes
    ensures r in nodes && Root(parent, r) == r && groups[r] == Component(nodes, edges, r)
  {
    var n :| n in groups[r];
    assert Root(parent, n) == r && Linked(edges, n, Root(parent, n));
    var p :| Path(edges, p, n, r);
    LinkedStaysInside(nodes, edges, p, n, r);
    RootsAreComponents(parent, edges, n, r);
    forall m | m in nodes ensures m in groups[r] <==> Linked(edges, r, m) {
      RootsAreComponents(parent, edges, r, m);
    }
  }
}
