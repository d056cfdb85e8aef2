/** Union-find with path compression and the smaller id as root, and what its groups are:
    exactly the connected components of the edge set. */
module UnionFind {
  import opened SortedIds

  type Node = nat
  type Edge = (Node, Node)
  type Parents = map<Node, Node>

  // ---- the components an edge set has, independently of any algorithm ----

  predicate Adjacent(edges: set<Edge>, a: Node, b: Node) {
    (a, b) in edges || (b, a) in edges
  }

  ghost predicate Path(edges: set<Edge>, p: seq<Node>, a: Node, b: Node) {
    && |p| > 0 && p[0] == a && p[|p| - 1] == b
    && forall i | 0 <= i < |p| - 1 :: Adjacent(edges, p[i], p[i + 1])
  }

  ghost predicate Linked(edges: set<Edge>, a: Node, b: Node) {
    exists p :: Path(edges, p, a, b)
  }

  lemma LinkedRefl(edges: set<Edge>, a: Node)
    ensures Linked(edges, a, a)
  {
    assert Path(edges, [a], a, a);
  }

  lemma LinkedEdge(edges: set<Edge>, a: Node, b: Node)
    requires Adjacent(edges, a, b)
    ensures Linked(edges, a, b)
  {
    assert Path(edges, [a, b], a, b);
  }

  lemma LinkedTrans(edges: set<Edge>, a: Node, b: Node, c: Node)
    requires Linked(edges, a, b) && Linked(edges, b, c)
    ensures Linked(edges, a, c)
  {
    var p :| Path(edges, p, a, b);
    var q :| Path(edges, q, b, c);
    var r := p + q[1..];
    forall i | 0 <= i < |r| - 1 ensures Adjacent(edges, r[i], r[i + 1]) {
      if i >= |p| - 1 { assert r[i] == q[i - |p| + 1] && r[i + 1] == q[i - |p| + 2]; }
    }
    assert Path(edges, r, a, c);
  }

  lemma LinkedSym(edges: set<Edge>, a: Node, b: Node)
    requires Linked(edges, a, b)
    ensures Linked(edges, b, a)
  {
    var p :| Path(edges, p, a, b);
    var r := seq(|p|, i requires 0 <= i < |p| => p[|p| - 1 - i]);
    forall i | 0 <= i < |r| - 1 ensures Adjacent(edges, r[i], r[i + 1]) {
      assert Adjacent(edges, p[|p| - 2 - i], p[|p| - 2 - i + 1]);
    }
    assert Path(edges, r, b, a);
  }

  lemma LinkedMonotone(edges: set<Edge>, more: set<Edge>, a: Node, b: Node)
    requires edges <= more && Linked(edges, a, b)
    ensures Linked(more, a, b)
  {
    var p :| Path(edges, p, a, b);
    assert Path(more, p, a, b);
  }

  /** The connected component of `n` among `nodes`. */
  ghost function Component(nodes: set<Node>, edges: set<Edge>, n: Node): set<Node> {
    set m | m in nodes && Linked(edges, n, m)
  }

  // ---- the parent map ----

  /** Parents only ever point at smaller ids, which is why no cycle can form. */
  ghost predicate Downward(parent: Parents) {
    forall n | n in parent :: parent[n] <= n
  }

  /** What following parents from `n` reaches; an id with no entry is its own root. */
  ghost function Root(parent: Parents, n: Node): (r: Node)
    requires Downward(parent)
    ensures r <= n
    ensures r in parent ==> parent[r] == r
    decreases n
  {
    if n !in parent || parent[n] == n then n else Root(parent, parent[n])
  }

  /** Re-pointing an entry at its own root changes nobody's root. */
  lemma {:induction false} CompressKeepsRoots(parent: Parents, p: Node, n: Node)
    requires Downward(parent) && p in parent
    ensures Downward(parent[p := Root(parent, p)])
    ensures Root(parent[p := Root(parent, p)], n) == Root(parent, n)
    decreases n
  {
    var r := Root(parent, p);
    var next := parent[p := r];
    if n in parent && parent[n] != n && n != p {
      CompressKeepsRoots(parent, p, parent[n]);
    } else if n == p && r != p {
      CompressKeepsRoots(parent, p, r);
      assert Root(next, p) == Root(next, r);
    }
  }

  /** Hanging one root under another moves exactly the first one's tree. */
  lemma {:induction false} UnionRoots(parent: Parents, low: Node, high: Node, n: Node)
    requires Downward(parent) && low < high
    requires Root(parent, low) == low && Root(parent, high) == high
    ensures Downward(parent[high := low])
    ensures Root(parent[high := low], n) == if Root(parent, n) == high then low else Root(parent, n)
    decreases n
  {
    var next := parent[high := low];
    if n == high {
      UnionRoots(parent, low, high, low);
    } else if n in parent && parent[n] != n {
      UnionRoots(parent, low, high, parent[n]);
    }
  }

  /** Find with path compression: one loop up to the root, one back over the path. */
  method Find(parent: Parents, start: Node) returns (root: Node, compressed: Parents)
    requires Downward(parent)
    ensures root == Root(parent, start)
    ensures Downward(compressed) && compressed.Keys == parent.Keys
    ensures forall n :: Root(compressed, n) == Root(parent, n)
  {
    var id := start;
    var path: seq<Node> := [];
    while id in parent && parent[id] != id
      invariant Root(parent, id) == Root(parent, start)
      invariant forall i | 0 <= i < |path| :: path[i] in parent && Root(parent, path[i]) == Root(parent, start)
      decreases id
    {
      path := path + [id];
      id := parent[id];
    }
    root := id;
    compressed := parent;
    for i := 0 to |path|
      invariant Downward(compressed) && compressed.Keys == parent.Keys
      invariant forall n :: Root(compressed, n) == Root(parent, n)
    {
      forall n ensures Root(compressed[path[i] := root], n) == Root(parent, n) {
        CompressKeepsRoots(compressed, path[i], n);
      }
      CompressKeepsRoots(compressed, path[i], 0);
      compressed := compressed[path[i] := root];
    }
  }

  /** The parent map describes the edges: an edge's ends share a root, and every node is linked
      to its root. */
  ghost predicate Describes(parent: Parents, edges: set<Edge>) {
    && Downward(parent)
    && (forall a, b | (a, b) in edges :: Root(parent, a) == Root(parent, b))
    && (forall n :: Linked(edges, n, Root(parent, n)))
  }

  /** Sharing a root is being connected. */
  lemma RootsAreComponents(parent: Parents, edges: set<Edge>, a: Node, b: Node)
    requires Describes(parent, edges)
    ensures Root(parent, a) == Root(parent, b) <==> Linked(edges, a, b)
  {
    if Root(parent, a) == Root(parent, b) {
      LinkedSym(edges, b, Root(parent, b));
      LinkedTrans(edges, a, Root(parent, a), b);
    }
    if Linked(edges, a, b) {
      var p :| Path(edges, p, a, b);
      PathSharesRoot(parent, edges, p, a, b);
    }
  }

  lemma {:induction false} PathSharesRoot(parent: Parents, edges: set<Edge>, p: seq<Node>, a: Node, b: Node)
    requires Describes(parent, edges) && Path(edges, p, a, b)
    ensures Root(parent, a) == Root(parent, b)
    decreases |p|
  {
    if |p| > 1 {
      assert Adjacent(edges, p[0], p[1]);
      forall i | 0 <= i < |p[1..]| - 1 ensures Adjacent(edges, p[1..][i], p[1..][i + 1]) {
        assert Adjacent(edges, p[i + 1], p[i + 2]);
      }
      PathSharesRoot(parent, edges, p[1..], p[1], b);
    }
  }

  lemma UnionDescribes(parent: Parents, edges: set<Edge>, a: Node, b: Node, low: Node, high: Node)
    requires Describes(parent, edges)
    requires low < high && {low, high} == {Root(parent, a), Root(parent, b)}
    ensures Describes(parent[high := low], edges + {(a, b)})
  {
    var next := parent[high := low];
    var more := edges + {(a, b)};
    UnionRoots(parent, low, high, 0);
    forall x, y | (x, y) in more ensures Root(next, x) == Root(next, y) {
      UnionRoots(parent, low, high, x);
      UnionRoots(parent, low, high, y);
    }
    assert Linked(more, high, low) by {
      LinkedMonotone(edges, more, a, Root(parent, a));
      LinkedMonotone(edges, more, b, Root(parent, b));
      LinkedSym(more, a, Root(parent, a));
      LinkedSym(more, b, Root(parent, b));
      LinkedEdge(more, a, b);
      LinkedEdge(more, b, a);
      LinkedTrans(more, Root(parent, a), a, b);
      LinkedTrans(more, Root(parent, a), b, Root(parent, b));
      LinkedSym(more, Root(parent, a), Root(parent, b));
    }
    forall n ensures Linked(more, n, Root(next, n)) {
      UnionRoots(parent, low, high, n);
      LinkedMonotone(edges, more, n, Root(parent, n));
      if Root(parent, n) == high { LinkedTrans(more, n, high, low); }
    }
  }

  /** Insert every edge, then read the roots. */
  method Unite(nodes: set<Node>, edges: seq<Edge>) returns (parent: Parents)
    ensures Describes(parent, set e | e in edges)
  {
    parent := map n | n in nodes :: n;
    ghost var done: set<Edge> := {};
    forall n ensures Linked(done, n, Root(parent, n)) { LinkedRefl(done, n); }
    for i := 0 to |edges|
      invariant done == set e | e in edges[..i]
      invariant Describes(parent, done)
    {
      var (a, b) := edges[i];
      var before := parent;
      var ra, p1 := Find(parent, a);
      var rb, p2 := Find(p1, b);
      parent := p2;
      assert Describes(parent, done);
      if ra != rb {
        if ra < rb {
          UnionDescribes(parent, done, a, b, ra, rb);
          parent := parent[rb := ra];
        } else {
          UnionDescribes(parent, done, a, b, rb, ra);
          parent := parent[ra := rb];
        }
      } else {
        forall n ensures Linked(done + {(a, b)}, n, Root(parent, n)) {
          LinkedMonotone(done, done + {(a, b)}, n, Root(parent, n));
        }
      }
      done := done + {(a, b)};
      assert edges[..i + 1] == edges[..i] + [edges[i]];
    }
    assert edges[..|edges|] == edges;
  }
}
