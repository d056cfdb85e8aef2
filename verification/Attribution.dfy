/** Which of a run's counters counts what: rows superseded by facts the run found against rows superseded
    by facts it wrote, and what becomes of each cluster. */
module Attribution {
  import opened VaultCore
  import opened SortedIds
  import opened Clusters
  import opened Supersession
  import opened Storage
  import opened MergePhase
  import opened MergeLaws
  import opened Contradiction
  import opened ColdPass
  import opened PrimaryKeys
  import opened SleepCycle
  import opened RunLaws
  import opened RunCounts

  // ---- what becomes of one cluster ----

  /** Two or more members, each near-identical to each other in the enumeration the run began with. */
  ghost predicate Duplicates(cluster: Cluster, snapshot: Rows, r: ClusterReply) {
    |cluster| >= 2 && (forall id | id in cluster :: id in snapshot)
    && forall i, j | 0 <= i < j < |cluster| :: Alike(snapshot[cluster[i]], snapshot[cluster[j]], r)
  }

  /** The duplicates cannot be looked at, or cannot be collapsed. */
  ghost predicate CollapseBreaks(p: Progress, cluster: Cluster, snapshot: Rows, r: ClusterReply) {
    && (forall id | id in cluster :: id in snapshot)
    && (!r.embedOk || (Duplicates(cluster, snapshot, r) && TryDedup(p.st, cluster, snapshot, r).DedupError?))
  }

  lemma HydratesIff(rows: Rows, cluster: Cluster)
    ensures Hydrates(rows, cluster)
      <==> forall id | id in cluster :: id in rows && rows[id].supersededBy.None? && rows[id].archivedAt.None?
  {
    assert forall id | id in cluster :: id in SetOf(cluster);
    assert Hydrates(rows, cluster) <==> forall id | id in SetOf(cluster) :: id in ListedIds(rows);
  }

  /** Each cluster adds to one counter: a collapsed one to the clusters and memories deduplicated, a merged
      one to the merges and the memories merged, one left to the owner to the queue, one whose losers were
      ended to the contradictions resolved; one kept apart to none, and any other to the skipped. */
  lemma ClusterTally(p: Progress, cluster: Cluster, snapshot: Rows, r: ClusterReply)
    requires |cluster| >= 2
    ensures var t, u := p.tally, Dispatch(p, cluster, snapshot, r).tally;
      var listed := forall id | id in cluster :: id in p.st.rows && p.st.rows[id].supersededBy.None? && p.st.rows[id].archivedAt.None?;
      if TryDedup(p.st, cluster, snapshot, r).DedupDone? then
        && u.dedupedClusters == t.dedupedClusters + 1
        && u == t.(dedupedClusters := u.dedupedClusters, dedupedMemories := u.dedupedMemories)
      else if CollapseBreaks(p, cluster, snapshot, r) || r.decision.None? || !listed then u == t.(skipped := t.skipped + 1)
      else match r.decision.value
        case Merge(text) =>
          if ApplyMerge(p.st, cluster, text, r).1 then u == t.(merges := t.merges + 1, mergedMemories := t.mergedMemories + |cluster|)
          else u == t.(skipped := t.skipped + 1)
        case KeepSeparate => u == t
        case Contradiction(None) => u == t.(queued := t.queued + [cluster])
        case Contradiction(Some(_)) => u == t.(autoResolved := u.autoResolved)
  {
    assert SetOf(cluster) <= snapshot.Keys <==> forall id | id in cluster :: id in snapshot;
    HydratesIff(p.st.rows, cluster);
    if SetOf(cluster) <= snapshot.Keys {
      var members := MembersOf(snapshot, cluster);
      forall i, j | 0 <= i < j < |cluster| ensures members[i] == snapshot[cluster[i]] && members[j] == snapshot[cluster[j]] { }
    }
  }

  // ---- who supersedes whom ----

  /** Rows superseded by one of `found`. */
  ghost function PointingAt(rows: Rows, found: set<MemoryId>): set<MemoryId> {
    set id | id in rows && rows[id].supersededBy.Some? && rows[id].supersededBy.value in found
  }

  /** Rows superseded by any other. */
  ghost function PointingElsewhere(rows: Rows, found: set<MemoryId>): set<MemoryId> {
    set id | id in rows && rows[id].supersededBy.Some? && rows[id].supersededBy.value !in found
  }

  lemma TogetherSuperseded(rows: Rows, found: set<MemoryId>)
    ensures |SupersededIds(rows)| == |PointingAt(rows, found)| + |PointingElsewhere(rows, found)|
  {
    assert SupersededIds(rows) == PointingAt(rows, found) + PointingElsewhere(rows, found);
    assert PointingAt(rows, found) !! PointingElsewhere(rows, found);
  }

  lemma {:induction false} MarkAllPoints(st: Store, ids: seq<MemoryId>, heir: MemoryId, fails: MemoryId -> bool, found: set<MemoryId>)
    requires Distinct(ids) && heir !in found
    requires SetOf(ids) <= st.rows.Keys && SetOf(ids) !! SupersededIds(st.rows)
    ensures PointingAt(MarkAll(st, ids, heir, fails).0.rows, found) == PointingAt(st.rows, found)
    decreases |ids|
  {
    if ids != [] {
      HeadTail(ids);
      match Marked(st, ids[0], heir, fails(ids[0]))
      case None =>
      case Some(next) =>
        assert ids[0] in SetOf(ids) && ids[0] !in SupersededIds(st.rows);
        assert PointingAt(next.rows, found) == PointingAt(st.rows, found);
        assert SupersededIds(next.rows) == SupersededIds(st.rows) + {ids[0]};
        MarkAllPoints(next, ids[1..], heir, fails, found);
    }
  }

  lemma DedupRowsPoint(rows: Rows, survivor: MemoryId, losers: set<MemoryId>, access: nat, confidence: real, found: set<MemoryId>)
    requires losers <= rows.Keys && losers !! SupersededIds(rows) && survivor in found
    ensures |PointingAt(DedupRows(rows, survivor, losers, access, confidence), found)| == |PointingAt(rows, found)| + |losers|
  {
    assert PointingAt(DedupRows(rows, survivor, losers, access, confidence), found) == PointingAt(rows, found) + losers;
    assert PointingAt(rows, found) <= SupersededIds(rows);
  }

  lemma DedupPoints(p: Progress, b: Boundary, cluster: Cluster, snapshot: Rows, r: ClusterReply, found: set<MemoryId>)
    requires Keyed(snapshot) && Distinct(cluster) && Current(p.st.rows, b, SetOf(cluster)) && SetOf(cluster) <= found
    requires TryDedup(p.st, cluster, snapshot, r).DedupDone?
    ensures var DedupDone(st, n) := TryDedup(p.st, cluster, snapshot, r);
      |PointingAt(st.rows, found)| == |PointingAt(p.st.rows, found)| + n
  {
    var plan := PlanDedup(snapshot, cluster);
    PlanCoversCluster(snapshot, cluster);
    DistinctCount(plan.superseded);
    assert plan.survivor in SetOf(plan.superseded) + {plan.survivor};
    assert SetOf(plan.superseded) <= SetOf(cluster);
    DedupRowsPoint(p.st.rows, plan.survivor, SetOf(plan.superseded), plan.access, plan.confidence, found);
  }

  lemma MergePoints(st: Store, b: Boundary, cluster: Cluster, text: string, r: ClusterReply, found: set<MemoryId>)
    requires Distinct(cluster) && Current(st.rows, b, SetOf(cluster)) && found <= st.rows.Keys
    ensures PointingAt(ApplyMerge(st, cluster, text, r).0.rows, found) == PointingAt(st.rows, found)
  {
    if MergeWrites(st, cluster, text, r) {
      var next := Written(st, MergedRow(st.rows, cluster, text, r.newId, r.now), text, r.writeFails).value;
      assert PointingAt(next.rows, found) == PointingAt(st.rows, found);
      assert SupersededIds(next.rows) == SupersededIds(st.rows);
      MarkAllPoints(next, cluster, r.newId, r.markFails, found);
    }
  }

  lemma RetirePoints(rows: Rows, done: set<MemoryId>, at: Instant, found: set<MemoryId>)
    ensures PointingAt(RetireRows(rows, done, at), found) == PointingAt(rows, found)
  {
  }

  /** One cluster adds to the rows superseded by facts the run found exactly what it adds to the memories
      deduplicated. */
  lemma DispatchPoints(p: Progress, b: Boundary, cluster: Cluster, snapshot: Rows, r: ClusterReply, found: set<MemoryId>)
    requires Keyed(snapshot) && Distinct(cluster) && Current(p.st.rows, b, SetOf(cluster))
    requires SetOf(cluster) <= found <= p.st.rows.Keys
    ensures var next := Dispatch(p, cluster, snapshot, r);
      |PointingAt(next.st.rows, found)| == |PointingAt(p.st.rows, found)| + next.tally.dedupedMemories - p.tally.dedupedMemories
  {
    match TryDedup(p.st, cluster, snapshot, r)
    case DedupDone(st, n) => DedupPoints(p, b, cluster, snapshot, r, found);
    case DedupError =>
    case NotEligible =>
      if r.decision.Some? && Hydrates(p.st.rows, cluster) {
        match r.decision.value
        case Merge(text) => MergePoints(p.st, b, cluster, text, r, found);
        case KeepSeparate =>
        case Contradiction(None) =>
        case Contradiction(Some(winner)) =>
          WithoutKeepsOrder(cluster, winner);
          InvalidateAllExact(p.st, Without(cluster, winner), r.now, r.invalidateFails);
          RetirePoints(p.st.rows, RetiredIds(p.st.rows, SetOf(Without(cluster, winner)), r.now, r.invalidateFails), r.now, found);
      }
  }

  /** Rows that were not there are of this boundary. */
  ghost predicate NewIn(rows: Rows, next: Rows, b: Boundary) {
    rows.Keys <= next.Keys && forall id | id in next && id !in rows :: next[id].boundary == b
  }

  lemma {:induction false} MarkAllKeepsPlaces(st: Store, ids: seq<MemoryId>, heir: MemoryId, fails: MemoryId -> bool)
    ensures var next := MarkAll(st, ids, heir, fails).0;
      next.rows.Keys == st.rows.Keys && forall id | id in st.rows :: next.rows[id].boundary == st.rows[id].boundary
    decreases |ids|
  {
    if ids != [] {
      match Marked(st, ids[0], heir, fails(ids[0]))
      case None =>
      case Some(next) => MarkAllKeepsPlaces(next, ids[1..], heir, fails);
    }
  }

  lemma DispatchPlaces(p: Progress, b: Boundary, cluster: Cluster, snapshot: Rows, r: ClusterReply)
    requires Distinct(cluster) && Current(p.st.rows, b, SetOf(cluster))
    ensures NewIn(p.st.rows, Dispatch(p, cluster, snapshot, r).st.rows, b)
  {
    match TryDedup(p.st, cluster, snapshot, r)
    case DedupDone(st, n) =>
    case DedupError =>
    case NotEligible =>
      if r.decision.Some? && Hydrates(p.st.rows, cluster) {
        match r.decision.value
        case Merge(text) => MergePlaces(p.st, b, cluster, text, r);
        case KeepSeparate =>
        case Contradiction(None) =>
        case Contradiction(Some(winner)) => RetireCounts(p, cluster, winner, r);
      }
  }

  lemma MergePlaces(st: Store, b: Boundary, cluster: Cluster, text: string, r: ClusterReply)
    requires Current(st.rows, b, SetOf(cluster))
    ensures NewIn(st.rows, ApplyMerge(st, cluster, text, r).0.rows, b)
  {
    if MergeWrites(st, cluster, text, r) {
      assert cluster[0] in SetOf(cluster);
      var next := Written(st, MergedRow(st.rows, cluster, text, r.newId, r.now), text, r.writeFails).value;
      MarkAllKeepsPlaces(next, cluster, r.newId, r.markFails);
    }
  }

  lemma {:induction false} DispatchAllPoints(p: Progress, b: Boundary, clusters: seq<Cluster>, k: nat, snapshot: Rows,
                                             reply: nat -> ClusterReply, found: set<MemoryId>)
    requires k <= |clusters| && Forest(p.st.rows) && Keyed(snapshot)
    requires ActivePending(p.st.rows, b, clusters, k)
    requires found <= p.st.rows.Keys && forall i | k <= i < |clusters| :: SetOf(clusters[i]) <= found
    ensures var next := DispatchAll(p, clusters, k, snapshot, reply);
      && |PointingAt(next.st.rows, found)| == |PointingAt(p.st.rows, found)| + next.tally.dedupedMemories - p.tally.dedupedMemories
      && NewIn(p.st.rows, next.st.rows, b)
    decreases |clusters| - k
  {
    if k < |clusters| {
      var next := Dispatch(p, clusters[k], snapshot, reply(k));
      DispatchPoints(p, b, clusters[k], snapshot, reply(k), found);
      DispatchPlaces(p, b, clusters[k], snapshot, reply(k));
      OthersStayPending(p, b, clusters, k, snapshot, reply(k));
      DispatchLaw(p, b, clusters[k], snapshot, reply(k));
      DispatchAllPoints(next, b, clusters, k + 1, snapshot, reply, found);
      DispatchAllLaw(next, b, clusters, k + 1, snapshot, reply);
    }
  }

  // ---- the whole run ----

  /** Rows the run has added so far are in boundaries it is done with. */
  ghost predicate AddedElsewhere(rows: Rows, found: set<MemoryId>, todo: set<Boundary>) {
    found <= rows.Keys && forall id | id in rows && id !in found :: rows[id].boundary !in todo
  }

  lemma MembersWereFound(rows: Rows, b: Boundary, clusters: seq<Cluster>, found: set<MemoryId>, todo: set<Boundary>)
    requires ActivePending(rows, b, clusters, 0) && AddedElsewhere(rows, found, todo) && b in todo
    ensures forall i | 0 <= i < |clusters| :: SetOf(clusters[i]) <= found
  {
    forall i | 0 <= i < |clusters| ensures SetOf(clusters[i]) <= found {
      forall id | id in SetOf(clusters[i]) ensures id in found { assert id in ActiveIn(rows, b); }
    }
  }

  lemma StillElsewhere(rows: Rows, next: Rows, b: Boundary, found: set<MemoryId>, rest: set<Boundary>)
    requires AddedElsewhere(rows, found, rest + {b}) && b !in rest && NewIn(rows, next, b)
    requires forall id | id in rows :: id in next && next[id].boundary == rows[id].boundary
    ensures AddedElsewhere(next, found, rest)
  {
  }

  lemma BoundaryPoints(g: Ledger, b: Boundary, pre: Rows, since: Option<Instant>, r: RunReply, clusters: seq<Cluster>,
                       found: set<MemoryId>, rest: set<Boundary>)
    requires Forest(g.st.rows) && Keyed(pre) && b !in g.tallies && b !in rest
    requires FindClusters(g.st.rows, b, since, r.near(b), r.clusterListFails(b)) == Some(clusters)
    requires AddedElsewhere(g.st.rows, found, rest + {b})
    requires var after := MergeStep(g, b, clusters, pre, r).st.rows;
      forall id | id in g.st.rows :: id in after && after[id].boundary == g.st.rows[id].boundary
    ensures var next := MergeStep(g, b, clusters, pre, r);
      && |PointingAt(next.st.rows, found)| - Sum(next.tallies, DedupedIn) == |PointingAt(g.st.rows, found)| - Sum(g.tallies, DedupedIn)
      && AddedElsewhere(next.st.rows, found, rest)
  {
    FoundClustersPend(g.st.rows, b, since, r.near(b), r.clusterListFails(b), clusters);
    var start := Progress(g.st, EMPTY_TALLY);
    MembersWereFound(g.st.rows, b, clusters, found, rest + {b});
    DispatchAllPoints(start, b, clusters, 0, SnapshotOf(pre, b), r.clusters(b), found);
    var end := DispatchAll(start, clusters, 0, SnapshotOf(pre, b), r.clusters(b));
    SumUpdate(g.tallies, b, end.tally, DedupedIn);
    StillElsewhere(g.st.rows, end.st.rows, b, found, rest);
  }

  lemma {:induction false} MergePassPoints(g: Ledger, bs: seq<Boundary>, pre: Rows, since: Option<Instant>, r: RunReply,
                                           found: set<MemoryId>)
    requires Forest(g.st.rows) && Keyed(pre) && Distinct(bs) && SetOf(bs) !! g.tallies.Keys
    requires AddedElsewhere(g.st.rows, found, SetOf(bs))
    ensures var next := MergeBoundaries(g, bs, pre, since, r).ledger;
      |PointingAt(next.st.rows, found)| - Sum(next.tallies, DedupedIn) == |PointingAt(g.st.rows, found)| - Sum(g.tallies, DedupedIn)
    decreases |bs|
  {
    if bs != [] {
      HeadTail(bs);
      var b := bs[0];
      assert SetOf(bs) == SetOf(bs[1..]) + {b};
      match FindClusters(g.st.rows, b, since, r.near(b), r.clusterListFails(b))
      case None =>
      case Some(clusters) =>
        BoundaryLaw(g, b, pre, since, r, clusters);
        BoundaryPoints(g, b, pre, since, r, clusters, found, SetOf(bs[1..]));
        MergePassPoints(MergeStep(g, b, clusters, pre, r), bs[1..], pre, since, r, found);
    }
  }

  lemma {:induction false} RetirePassPoints(g: Ledger, bs: seq<Boundary>, snapshot: Rows, since: Option<Instant>, r: RunReply,
                                            found: set<MemoryId>)
    ensures var next := RetireBoundaries(g, bs, snapshot, since, r).ledger;
      PointingAt(next.st.rows, found) == PointingAt(g.st.rows, found) && Sum(next.tallies, DedupedIn) == Sum(g.tallies, DedupedIn)
    decreases |bs|
  {
    if bs != [] && !Aborts(g.st, snapshot, bs[0], since, r.judge(bs[0])) {
      var done := RetiredIn(g.st, snapshot, bs[0], since, r.judge(bs[0]));
      RetirePoints(g.st.rows, done, r.judge(bs[0]).now, found);
      AddRetiredSums(g.tallies, bs[0], |done|);
      RetirePassPoints(RetireStep(g, snapshot, bs[0], since, r.judge(bs[0])), bs[1..], snapshot, since, r, found);
    }
  }

  lemma CoolPoints(g: Ledger, processed: nat, cfg: Config, r: RunReply, found: set<MemoryId>)
    ensures PointingAt(Cool(g, processed, cfg, r).st.rows, found) == PointingAt(g.st.rows, found)
  {
  }

  /** Of the facts a run superseded, those that now point at a fact it found are exactly as many as the
      report says were deduplicated; those that point at a fact it wrote are at least as many as it says were
      merged, and more exactly when some merge stopped half-way. */
  lemma ReportAttributes(st: Store, cfg: Config, since: Option<Instant>, r: RunReply)
    requires Forest(st.rows) && Keyed(st.rows)
    requires Run(st, cfg, since, r).counts.Some?
    ensures var end := Run(st, cfg, since, r);
      var report := ReportOf(end.counts.value);
      && |PointingAt(end.st.rows, st.rows.Keys)| == |PointingAt(st.rows, st.rows.Keys)| + report.memoriesDeduped
      && |PointingElsewhere(end.st.rows, st.rows.Keys)| >= report.merged
      && (|PointingElsewhere(end.st.rows, st.rows.Keys)| > report.merged
          <==> HalfMergeInPass(Ledger(st, map[]), Sorted(BoundariesOf(st.rows, ListedIds(st.rows))), st.rows, since, AtThreshold(cfg, r)))
  {
    var found, start, at := st.rows.Keys, Ledger(st, map[]), AtThreshold(cfg, r);
    var bs := Sorted(BoundariesOf(st.rows, ListedIds(st.rows)));
    MergePassPoints(start, bs, st.rows, since, at, found);
    var g := MergeAll(st, since, at).ledger;
    RetirePassPoints(g, Sorted(BoundariesOf(g.st.rows, ActiveIds(g.st.rows))), g.st.rows, since, at, found);
    RunShape(st, cfg, since, r);
    CoolPoints(RetireAll(g, since, at).ledger, |ListedIds(st.rows)|, cfg, at, found);
    ReportAccounts(st, cfg, since, r);
    TogetherSuperseded(st.rows, found);
    TogetherSuperseded(Run(st, cfg, since, r).st.rows, found);
    NoneElsewhere(st.rows);
  }

  lemma NoneElsewhere(rows: Rows)
    requires Forest(rows)
    ensures PointingElsewhere(rows, rows.Keys) == {}
  {
    var rank :| RankedBy(rows, rank);
  }

  /** The report's figures are the sums of the boundaries': one boundary more adds its own tally, counter by
      counter. */
  lemma ReportAddsUp(c: Counts, b: Boundary, t: Tally)
    requires b !in c.tallies
    ensures ReportOf(Counts(map[], 0, 0, 0)) == Report(0, 0, 0, 0, 0, 0, 0, 0, 0)
    ensures var r, s := ReportOf(c), ReportOf(c.(tallies := c.tallies[b := t]));
      && s.merged == r.merged + t.mergedMemories
      && s.contradictionsQueued == r.contradictionsQueued + |t.queued|
      && s.autoResolved == r.autoResolved + t.autoResolved
      && s.clustersDeduped == r.clustersDeduped + t.dedupedClusters
      && s.memoriesDeduped == r.memoriesDeduped + t.dedupedMemories
      && s.clustersSkipped == r.clustersSkipped + t.skipped
      && s.processed == r.processed == c.processed && s.archived == r.archived == c.archived && s.decayed == r.decayed == c.decayed
  {
    SumUpdate(c.tallies, b, t, MergedIn);
    SumUpdate(c.tallies, b, t, QueuedIn);
    SumUpdate(c.tallies, b, t, AutoResolvedIn);
    SumUpdate(c.tallies, b, t, DedupedClustersIn);
    SumUpdate(c.tallies, b, t, DedupedIn);
    SumUpdate(c.tallies, b, t, SkippedIn);
  }
}
