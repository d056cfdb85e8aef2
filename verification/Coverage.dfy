/** What a completed run has looked at: every active fact of its scope was searched for in Phase 1, put in
    one cluster with every active fact its search reached, and, if it was still active and not alone, was
    searched for again in Phase 2b. */
module Coverage {
  import opened VaultCore
  import opened SortedIds
  import opened UnionFind
  import opened Clusters
  import opened Supersession
  import opened Storage
  import opened MergePhase
  import opened MergeLaws
  import opened Contradiction
  import opened PrimaryKeys
  import opened SleepCycle
  import opened RunLaws

  // ---- Phase 1 ----

  /** Facts of `b` are as they were, and still there. */
  ghost predicate BoundaryAsFound(rows: Rows, next: Rows, b: Boundary) {
    forall id | id in ActiveIn(rows, b) :: id in next && next[id] == rows[id]
  }

  /** What clusters do not hold, their processing does not touch. */
  lemma {:induction false} OutsideClusters(p: Progress, b: Boundary, clusters: seq<Cluster>, k: nat, snapshot: Rows, reply: nat -> ClusterReply, id: MemoryId)
    requires k <= |clusters| && Forest(p.st.rows) && Keyed(snapshot) && Pending(p.st.rows, b, clusters, k)
    requires id in p.st.rows && p.st.rows[id].boundary != b
    ensures var next := DispatchAll(p, clusters, k, snapshot, reply).st.rows;
      id in next && next[id] == p.st.rows[id]
    decreases |clusters| - k
  {
    if k < |clusters| {
      var q := Dispatch(p, clusters[k], snapshot, reply(k));
      DispatchLaw(p, b, clusters[k], snapshot, reply(k));
      assert id !in SetOf(clusters[k]);
      OutsideClusters(q, b, clusters, k + 1, snapshot, reply, id);
    }
  }

  lemma MergeStepElsewhere(g: Ledger, b: Boundary, pre: Rows, since: Option<Instant>, r: RunReply, clusters: seq<Cluster>, other: Boundary)
    requires Forest(g.st.rows) && Keyed(pre) && b != other
    requires FindClusters(g.st.rows, b, since, r.near(b), r.clusterListFails(b)) == Some(clusters)
    ensures BoundaryAsFound(g.st.rows, MergeStep(g, b, clusters, pre, r).st.rows, other)
  {
    ClustersAreComponents(g.st.rows, b, since, r.near(b), clusters);
    forall id | id in ActiveIn(g.st.rows, other)
      ensures var next := MergeStep(g, b, clusters, pre, r).st.rows; id in next && next[id] == g.st.rows[id]
    {
      OutsideClusters(Progress(g.st, EMPTY_TALLY), b, clusters, 0, SnapshotOf(pre, b), r.clusters(b), id);
    }
  }

  /** The vault when the boundary's turn comes in Phases 1 to 3. */
  ghost function MergeTurn(g: Ledger, bs: seq<Boundary>, b: Boundary, pre: Rows, since: Option<Instant>, r: RunReply): Ledger
    decreases |bs|
  {
    if bs == [] || bs[0] == b then g
    else match FindClusters(g.st.rows, bs[0], since, r.near(bs[0]), r.clusterListFails(bs[0]))
      case None => g
      case Some(clusters) => MergeTurn(MergeStep(g, bs[0], clusters, pre, r), bs[1..], b, pre, since, r)
  }

  lemma {:induction false} MergeTurnComes(g: Ledger, bs: seq<Boundary>, b: Boundary, pre: Rows, since: Option<Instant>, r: RunReply)
    requires Forest(g.st.rows) && Keyed(pre) && b in bs
    requires MergeBoundaries(g, bs, pre, since, r).completed
    ensures var rows := MergeTurn(g, bs, b, pre, since, r).st.rows;
      && BoundaryAsFound(g.st.rows, rows, b)
      && FindClusters(rows, b, since, r.near(b), r.clusterListFails(b)).Some?
    decreases |bs|
  {
    if bs[0] != b {
      var clusters := FindClusters(g.st.rows, bs[0], since, r.near(bs[0]), r.clusterListFails(bs[0])).value;
      var next := MergeStep(g, bs[0], clusters, pre, r);
      MergeStepElsewhere(g, bs[0], pre, since, r, clusters, b);
      BoundaryLaw(g, bs[0], pre, since, r, clusters);
      MergeTurnComes(next, bs[1..], b, pre, since, r);
    }
  }

  /** Every active fact the search for `id` reached is in one of the clusters with it. */
  ghost predicate GroupedWithNeighbours(rows: Rows, b: Boundary, near: Neighbours, clusters: seq<Cluster>, id: MemoryId) {
    forall n | n in ActiveIn(rows, b) && Reaches(rows, b, near, id, n) ::
      exists k :: 0 <= k < |clusters| && id in clusters[k] && n in clusters[k]
  }

  /** Phase 1 examined `id`: alone in its boundary, or searched for and grouped. */
  ghost predicate Clustered(rows: Rows, b: Boundary, since: Option<Instant>, r: RunReply, id: MemoryId) {
    && id in ActiveIn(rows, b)
    && FindClusters(rows, b, since, r.near(b), r.clusterListFails(b)).Some?
    && (|ActiveIn(rows, b)| < 2 || r.near(b)(id).Some?)
    && GroupedWithNeighbours(rows, b, r.near(b), FindClusters(rows, b, since, r.near(b), r.clusterListFails(b)).value, id)
  }

  lemma ReachedIsGrouped(rows: Rows, b: Boundary, near: Neighbours, seeds: set<MemoryId>, id: MemoryId, n: MemoryId)
    requires id in seeds && n in ActiveIn(rows, b) && Reaches(rows, b, near, id, n)
    ensures var clusters := ClusterList(NodesOf(rows, b, near, seeds), EdgesOf(rows, b, near, seeds));
      exists k :: 0 <= k < |clusters| && id in clusters[k] && n in clusters[k]
  {
    var nodes, edges := NodesOf(rows, b, near, seeds), EdgesOf(rows, b, near, seeds);
    assert Canonical(id, n) in edges;
    LinkedEdge(edges, id, n);
    TogetherIffLinked(nodes, edges, id, n);
  }

  lemma FoundList(rows: Rows, b: Boundary, since: Option<Instant>, near: Neighbours, listFails: bool, id: MemoryId)
    requires FindClusters(rows, b, since, near, listFails).Some?
    requires id in SeedsIn(rows, b, since) && |ActiveIn(rows, b)| >= 2
    ensures near(id).Some?
    ensures var seeds := SeedsIn(rows, b, since);
      FindClusters(rows, b, since, near, listFails).value == ClusterList(NodesOf(rows, b, near, seeds), EdgesOf(rows, b, near, seeds))
  {
  }

  lemma SeedsAreClustered(rows: Rows, b: Boundary, since: Option<Instant>, r: RunReply, id: MemoryId)
    requires FindClusters(rows, b, since, r.near(b), r.clusterListFails(b)).Some?
    requires id in SeedsIn(rows, b, since)
    ensures Clustered(rows, b, since, r, id)
  {
    var near, listFails := r.near(b), r.clusterListFails(b);
    if |ActiveIn(rows, b)| >= 2 {
      FoundList(rows, b, since, near, listFails, id);
      SeedsGrouped(rows, b, near, SeedsIn(rows, b, since), id);
    } else {
      AloneIsGrouped(rows, b, near, FindClusters(rows, b, since, near, listFails).value, id);
    }
  }

  lemma SeedsGrouped(rows: Rows, b: Boundary, near: Neighbours, seeds: set<MemoryId>, id: MemoryId)
    requires id in seeds
    ensures GroupedWithNeighbours(rows, b, near, ClusterList(NodesOf(rows, b, near, seeds), EdgesOf(rows, b, near, seeds)), id)
  {
    forall n | n in ActiveIn(rows, b) && Reaches(rows, b, near, id, n)
      ensures var clusters := ClusterList(NodesOf(rows, b, near, seeds), EdgesOf(rows, b, near, seeds));
        exists k :: 0 <= k < |clusters| && id in clusters[k] && n in clusters[k]
    {
      ReachedIsGrouped(rows, b, near, seeds, id, n);
    }
  }

  lemma AloneIsGrouped(rows: Rows, b: Boundary, near: Neighbours, clusters: seq<Cluster>, id: MemoryId)
    requires id in ActiveIn(rows, b) && |ActiveIn(rows, b)| < 2
    ensures GroupedWithNeighbours(rows, b, near, clusters, id)
  {
    forall n | n in ActiveIn(rows, b) && Reaches(rows, b, near, id, n) ensures false { TwoMembers(ActiveIn(rows, b), id, n); }
  }

  // ---- Phase 2b ----

  /** The vault when the boundary's turn comes in Phase 2b. */
  ghost function RetireTurn(g: Ledger, bs: seq<Boundary>, b: Boundary, snapshot: Rows, since: Option<Instant>, r: RunReply): Ledger
    decreases |bs|
  {
    if bs == [] || bs[0] == b then g
    else if Aborts(g.st, snapshot, bs[0], since, r.judge(bs[0])) then g
    else RetireTurn(RetireStep(g, snapshot, bs[0], since, r.judge(bs[0])), bs[1..], b, snapshot, since, r)
  }

  lemma {:induction false} RetireTurnComes(g: Ledger, bs: seq<Boundary>, b: Boundary, snapshot: Rows, since: Option<Instant>, r: RunReply)
    requires Forest(g.st.rows) && Distinct(bs) && b in bs && AsFound(g.st.rows, snapshot, SetOf(bs))
    requires RetireBoundaries(g, bs, snapshot, since, r).completed
    ensures var t := RetireTurn(g, bs, b, snapshot, since, r).st;
      BoundaryAsFound(snapshot, t.rows, b) && !Aborts(t, snapshot, b, since, r.judge(b))
    decreases |bs|
  {
    HeadTail(bs);
    if bs[0] != b {
      assert bs == [bs[0]] + bs[1..] && SetOf(bs) == SetOf(bs[1..]) + {bs[0]};
      RetireBoundaryLaw(g, snapshot, bs[0], SetOf(bs[1..]), since, r.judge(bs[0]));
      RetireTurnComes(RetireStep(g, snapshot, bs[0], since, r.judge(bs[0])), bs[1..], b, snapshot, since, r);
    } else {
      FoundHere(g.st.rows, snapshot, b, SetOf(bs));
    }
  }

  /** Phase 2b examined `id`: alone in its boundary, or searched for. */
  ghost predicate Compared(snapshot: Rows, b: Boundary, r: RunReply, id: MemoryId) {
    |ActiveIn(snapshot, b)| < 2 || r.judge(b).near(id).Some?
  }

  lemma SeedsAreCompared(st: Store, snapshot: Rows, b: Boundary, since: Option<Instant>, r: RunReply, id: MemoryId)
    requires BoundaryAsFound(snapshot, st.rows, b) && !Aborts(st, snapshot, b, since, r.judge(b))
    requires id in ActiveIn(snapshot, b) && Since(snapshot[id], since)
    ensures Compared(snapshot, b, r, id)
  {
  }

  // ---- the run ----

  /** The vault at the fact's boundary's turn in Phase 1. */
  ghost function AtItsTurn(st: Store, b: Boundary, since: Option<Instant>, r: RunReply): Rows {
    MergeTurn(Ledger(st, map[]), Sorted(BoundariesOf(st.rows, ListedIds(st.rows))), b, st.rows, since, r).st.rows
  }

  /** A run examined a fact it found: in Phase 1 among all it found active in the boundary, and in Phase
      2b among all that were active then, if it was still one of them. */
  ghost predicate Examined(st: Store, since: Option<Instant>, r: RunReply, id: MemoryId)
    requires id in st.rows
  {
    var b := st.rows[id].boundary;
    var after := MergeAll(st, since, r).ledger.st.rows;
    && BoundaryAsFound(st.rows, AtItsTurn(st, b, since, r), b)
    && Clustered(AtItsTurn(st, b, since, r), b, since, r, id)
    && (id in ActiveIn(after, b) ==> Compared(after, b, r, id))
  }

  lemma StillASeed(rows: Rows, next: Rows, b: Boundary, since: Option<Instant>, id: MemoryId)
    requires BoundaryAsFound(rows, next, b) && id in SeedsIn(rows, b, since)
    ensures id in SeedsIn(next, b, since)
  {
  }

  lemma CompletedMergeClusters(st: Store, since: Option<Instant>, r: RunReply, id: MemoryId)
    requires Forest(st.rows) && Keyed(st.rows) && MergeAll(st, since, r).completed
    requires id in ActiveIds(st.rows) && Since(st.rows[id], since)
    ensures var b := st.rows[id].boundary;
      BoundaryAsFound(st.rows, AtItsTurn(st, b, since, r), b) && Clustered(AtItsTurn(st, b, since, r), b, since, r, id)
  {
    var b, bs := st.rows[id].boundary, Sorted(BoundariesOf(st.rows, ListedIds(st.rows)));
    assert id in ListedIds(st.rows) && b in BoundariesOf(st.rows, ListedIds(st.rows));
    MergeTurnComes(Ledger(st, map[]), bs, b, st.rows, since, r);
    StillASeed(st.rows, AtItsTurn(st, b, since, r), b, since, id);
    SeedsAreClustered(AtItsTurn(st, b, since, r), b, since, r, id);
  }

  lemma FoundAtFirst(rows: Rows, todo: set<Boundary>)
    ensures AsFound(rows, rows, todo)
  {
  }

  lemma CompletedRetireCompares(g: Ledger, since: Option<Instant>, r: RunReply, b: Boundary, id: MemoryId)
    requires Forest(g.st.rows) && RetireAll(g, since, r).completed
    requires id in ActiveIn(g.st.rows, b) && Since(g.st.rows[id], since)
    ensures Compared(g.st.rows, b, r, id)
  {
    var snapshot := g.st.rows;
    var bs := Sorted(BoundariesOf(snapshot, ActiveIds(snapshot)));
    assert id in ActiveIds(snapshot) && b in BoundariesOf(snapshot, ActiveIds(snapshot));
    FoundAtFirst(snapshot, SetOf(bs));
    RetireTurnComes(g, bs, b, snapshot, since, r);
    SeedsAreCompared(RetireTurn(g, bs, b, snapshot, since, r).st, snapshot, b, since, r, id);
  }

  /** A run that ends without an error has examined every fact it found active that is not behind the
      mark it was given, whatever else was answered and whatever it skipped. */
  lemma CompletedRunExamines(st: Store, cfg: Config, since: Option<Instant>, r: RunReply, id: MemoryId)
    requires Forest(st.rows) && Keyed(st.rows) && Run(st, cfg, since, r).counts.Some?
    requires id in ActiveIds(st.rows) && Since(st.rows[id], since)
    ensures Examined(st, since, AtThreshold(cfg, r), id)
  {
    var at := AtThreshold(cfg, r);
    var b := st.rows[id].boundary;
    CompletedMergeClusters(st, since, at, id);
    var g := MergeAll(st, since, at).ledger;
    MergeAllSound(st, since, at);
    if id in ActiveIn(g.st.rows, b) { CompletedRetireCompares(g, since, at, b, id); }
  }
}
