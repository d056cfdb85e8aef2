/** When the next run looks again at what a run had to skip. A skipped cluster and a failed judgement are
    left for "the next cycle"; but a run that skips still succeeds, its mark moves past the facts it
    skipped, and an incremental run is seeded only by what is newer. */
module Retries {
  import opened VaultCore
  import opened SortedIds
  import opened UnionFind
  import opened Clusters
  import opened Contradiction
  import opened Coverage
  import opened Watermark

  /** The searches of the seeds bring `x` together with another active fact: its own, or another's. */
  ghost predicate BroughtUp(rows: Rows, b: Boundary, near: Neighbours, seeds: set<MemoryId>, x: MemoryId) {
    || (x in seeds && exists n | n in ActiveIn(rows, b) :: Reaches(rows, b, near, x, n))
    || exists s | s in seeds :: Reaches(rows, b, near, s, x)
  }

  lemma LinkedIsBroughtUp(rows: Rows, b: Boundary, near: Neighbours, seeds: set<MemoryId>, x: MemoryId, y: MemoryId)
    requires x != y && Linked(EdgesOf(rows, b, near, seeds), x, y)
    ensures BroughtUp(rows, b, near, seeds, x)
  {
    var edges := EdgesOf(rows, b, near, seeds);
    var p :| Path(edges, p, x, y);
    assert Adjacent(edges, p[0], p[1]);
    var s, n :| s in seeds && n in ActiveIn(rows, b) && Reaches(rows, b, near, s, n)
                && (Canonical(s, n) == (p[0], p[1]) || Canonical(s, n) == (p[1], p[0]));
    assert s == x || n == x;
  }

  /** A fact is in one of a run's clusters exactly when a seed's search brings it up. */
  lemma ClusteredIff(rows: Rows, b: Boundary, since: Option<Instant>, near: Neighbours, listFails: bool, clusters: seq<Cluster>, x: MemoryId)
    requires FindClusters(rows, b, since, near, listFails) == Some(clusters) && x in ActiveIn(rows, b)
    requires SeedsIn(rows, b, since) != {} && |ActiveIn(rows, b)| >= 2
    ensures (exists k :: 0 <= k < |clusters| && x in clusters[k]) <==> BroughtUp(rows, b, near, SeedsIn(rows, b, since), x)
  {
    var seeds := SeedsIn(rows, b, since);
    var nodes, edges := NodesOf(rows, b, near, seeds), EdgesOf(rows, b, near, seeds);
    assert clusters == ClusterList(nodes, edges);
    if k :| 0 <= k < |clusters| && x in clusters[k] {
      var y := OtherMember(nodes, edges, k, x);
      LinkedIsBroughtUp(rows, b, near, seeds, x, y);
    }
    if x in seeds && exists n | n in ActiveIn(rows, b) :: Reaches(rows, b, near, x, n) {
      var n :| n in ActiveIn(rows, b) && Reaches(rows, b, near, x, n);
      ReachedIsGrouped(rows, b, near, seeds, x, n);
    }
    if s :| s in seeds && Reaches(rows, b, near, s, x) { ReachedIsGrouped(rows, b, near, seeds, s, x); }
  }

  lemma OtherMember(nodes: set<MemoryId>, edges: set<Edge>, k: nat, x: MemoryId) returns (y: MemoryId)
    requires k < |ClusterList(nodes, edges)| && x in ClusterList(nodes, edges)[k]
    ensures y != x && Linked(edges, x, y)
  {
    var heads := Sorted(Heads(nodes, edges));
    var h := heads[k];
    assert h in Heads(nodes, edges);
    var c := Component(nodes, edges, h);
    assert x in c && |c - {x}| == |c| - 1;
    y :| y in c - {x};
    LinkedSym(edges, h, x);
    LinkedTrans(edges, x, h, y);
  }

  /** The mark the next run is given, after a run that started at `start`, skipped what it skipped and
      succeeded. */
  function NextMark(mark: Option<Instant>, start: Instant, advanceFails: bool, readFails: bool): Option<Instant> {
    ScopeMark(Advanced(mark, start, true, advanceFails), readFails)
  }

  /** A fact the next run does not start from: the mark moved past it, and is read. */
  predicate LeftBehind(mark: Option<Instant>, start: Instant, advanceFails: bool, readFails: bool, at: Instant) {
    !readFails && (if advanceFails then Behind(mark, at) else at < start)
  }

  /** A member of a skipped cluster is clustered again by the next run exactly when the mark did not move
      past it and its own search still finds an active fact, or another fact the run starts from finds it.
      For a member the mark moved past, that takes a new fact near it. */
  lemma SkippedClusterRetriedIff(rows: Rows, b: Boundary, mark: Option<Instant>, start: Instant, advanceFails: bool, readFails: bool,
                                 near: Neighbours, clusters: seq<Cluster>, x: MemoryId)
    requires x in ActiveIn(rows, b)
    requires FindClusters(rows, b, NextMark(mark, start, advanceFails, readFails), near, false) == Some(clusters)
    ensures var seeds := SeedsIn(rows, b, NextMark(mark, start, advanceFails, readFails));
      && (x in seeds <==> !LeftBehind(mark, start, advanceFails, readFails, rows[x].createdAt))
      && ((exists k :: 0 <= k < |clusters| && x in clusters[k]) <==> BroughtUp(rows, b, near, seeds, x))
      && (x !in seeds ==>
            ((exists k :: 0 <= k < |clusters| && x in clusters[k]) <==> exists s | s in seeds :: Reaches(rows, b, near, s, x)))
  {
    var since := NextMark(mark, start, advanceFails, readFails);
    var seeds := SeedsIn(rows, b, since);
    if seeds != {} && |ActiveIn(rows, b)| >= 2 {
      ClusteredIff(rows, b, since, near, false, clusters, x);
    } else {
      forall s | s in seeds && Reaches(rows, b, near, s, x) ensures false { TwoMembers(ActiveIn(rows, b), s, x); }
      forall n | x in seeds && n in ActiveIn(rows, b) && Reaches(rows, b, near, x, n) ensures false { TwoMembers(ActiveIn(rows, b), x, n); }
    }
  }

  /** A pair whose judgement failed is asked about again exactly when one of the two is a fact the next run
      starts from and its search still finds the other. */
  lemma FailedPairRetriedIff(rows: Rows, b: Boundary, mark: Option<Instant>, start: Instant, advanceFails: bool, readFails: bool,
                             near: Neighbours, x: MemoryId, y: MemoryId)
    requires x < y && x in ActiveIn(rows, b) && y in ActiveIn(rows, b)
    ensures var seeds := SeedsIn(rows, b, NextMark(mark, start, advanceFails, readFails));
      (x, y) in CandidatePairs(ActiveIn(rows, b), seeds, near) <==>
        (!LeftBehind(mark, start, advanceFails, readFails, rows[x].createdAt) && Proposes(near, x, y))
        || (!LeftBehind(mark, start, advanceFails, readFails, rows[y].createdAt) && Proposes(near, y, x))
  {
  }

  /** With every fact a seed, two facts that find each other are clustered together. */
  lemma SweptTogether(rows: Rows, b: Boundary, near: Neighbours)
    requires SeedsIn(rows, b, None) == {1, 2} && ActiveIn(rows, b) == {1, 2}
    requires near(1) == Some([2]) && near(2) == Some([1])
    ensures FindClusters(rows, b, None, near, false).Some?
    ensures GroupedWithNeighbours(rows, b, near, FindClusters(rows, b, None, near, false).value, 1)
  {
    assert |{1, 2}| == 2;
    FoundList(rows, b, None, near, false, 1);
    SeedsGrouped(rows, b, near, {1, 2}, 1);
  }

  /** Two facts near each other, older than a run that clusters them, skips them and succeeds: the next run
      finds no cluster and asks about no pair. */
  lemma SkippedAndForgotten(rows: Rows, b: Boundary, start: Instant, near: Neighbours)
    requires ActiveIn(rows, b) == {1, 2} && rows[1].createdAt < start && rows[2].createdAt < start
    requires near(1) == Some([2]) && near(2) == Some([1])
    ensures FindClusters(rows, b, None, near, false).Some?
    ensures GroupedWithNeighbours(rows, b, near, FindClusters(rows, b, None, near, false).value, 1) && Reaches(rows, b, near, 1, 2)
    ensures FindClusters(rows, b, NextMark(None, start, false, false), near, false) == Some([])
    ensures CandidatePairs({1, 2}, SeedsIn(rows, b, NextMark(None, start, false, false)), near) == {}
  {
    assert SeedsIn(rows, b, None) == {1, 2};
    SweptTogether(rows, b, near);
    assert SeedsIn(rows, b, NextMark(None, start, false, false)) == {};
  }
}
