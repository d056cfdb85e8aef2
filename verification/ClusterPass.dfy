/** The cluster loop as the program runs it: storage is updated in place, counters go up one by
    one, and every failure is counted and skipped. */
module ClusterPass {
  import opened VaultCore
  import opened SortedIds
  import opened Clusters
  import opened Storage
  import opened MergePhase
  import opened NearIdentical
  import opened Contradiction

  /** What `try_dedup_cluster` reports. */
  datatype Collapse = NotNearIdentical | CollapseFailed | Collapsed(superseded: nat)

  ghost predicate Reports(c: Collapse, d: DedupResult) {
    match d
    case NotEligible => c.NotNearIdentical?
    case DedupError => c.CollapseFailed?
    case DedupDone(st, n) => c == Collapsed(n)
  }

  /** Every pair is looked at, on all three axes; the first that fails one settles it. */
  method CheckPairs(members: seq<Memory>, r: ClusterReply) returns (all: bool)
    ensures all == AllAlike(members, r)
  {
    for i := 0 to |members|
      invariant forall k, l | 0 <= k < i && k < l < |members| :: Alike(members[k], members[l], r)
    {
      for j := i + 1 to |members|
        invariant forall l | i < l < j :: Alike(members[i], members[l], r)
      {
        if r.cosine(members[i].id, members[j].id) < COSINE_FLOOR { return false; }
        if !Contains(members[i].content, members[j].content, r.lexer) { return false; }
        if PureReordering(members[i].content, members[j].content, r.lexer) { return false; }
      }
    }
    all := true;
  }

  method TryDedupCluster(storage: StorageBackend, cluster: Cluster, snapshot: Rows, r: ClusterReply) returns (c: Collapse)
    modifies storage
    ensures var d := TryDedup(old(storage.View()), cluster, snapshot, r);
      Reports(c, d) && storage.View() == if d.DedupDone? then d.st else old(storage.View())
  {
    if cluster == [] || !(SetOf(cluster) <= snapshot.Keys) { return NotNearIdentical; }
    var members := MembersOf(snapshot, cluster);
    if !r.embedOk { return CollapseFailed; }
    if |cluster| < 2 { return NotNearIdentical; }
    var alike := CheckPairs(members, r);
    if !alike { return NotNearIdentical; }
    var best := PickSurvivor(members);
    var survivor := members[best].id;
    var losers := Without(cluster, survivor);
    assert PlanDedup(snapshot, cluster) == DedupPlan(survivor, losers, SumAccess(members), MaxConfidence(members));
    var ok := storage.ApplyDedup(survivor, losers, SumAccess(members), MaxConfidence(members), r.dedupFails);
    if !ok { return CollapseFailed; }
    c := Collapsed(|losers|);
  }

  /** The members are pointed at the merged row in turn; the first failure stops the loop. */
  method MarkEach(storage: StorageBackend, ids: seq<MemoryId>, heir: MemoryId, fails: MemoryId -> bool) returns (ok: bool)
    modifies storage
    ensures storage.View() == MarkAll(old(storage.View()), ids, heir, fails).0
    ensures ok == MarkAll(old(storage.View()), ids, heir, fails).1
  {
    for i := 0 to |ids|
      invariant MarkAll(old(storage.View()), ids, heir, fails).0 == MarkAll(storage.View(), ids[i..], heir, fails).0
      invariant MarkAll(old(storage.View()), ids, heir, fails).1 == MarkAll(storage.View(), ids[i..], heir, fails).1
    {
      assert ids[i..][0] == ids[i] && ids[i..][1..] == ids[i + 1..];
      ok := storage.MarkSuperseded(ids[i], heir, fails(ids[i]));
      if !ok { return; }
    }
    ok := true;
  }

  method MergeCluster(storage: StorageBackend, cluster: Cluster, text: string, r: ClusterReply) returns (ok: bool)
    modifies storage
    ensures storage.View() == ApplyMerge(old(storage.View()), cluster, text, r).0
    ensures ok == ApplyMerge(old(storage.View()), cluster, text, r).1
  {
    if r.relistFails || cluster == [] || !Hydrates(storage.rows, cluster) { return false; }
    if !r.mergeEmbedOk { return false; }
    var merged := MergedRow(storage.rows, cluster, text, r.newId, r.now);
    ok := storage.WriteMemory(merged, text, r.writeFails);
    if !ok { return; }
    ok := MarkEach(storage, cluster, r.newId, r.markFails);
  }

  method DecideCluster(storage: StorageBackend, tally: Tally, cluster: Cluster, r: ClusterReply) returns (t: Tally)
    modifies storage
    ensures storage.View() == Decide(Progress(old(storage.View()), tally), cluster, r).st
    ensures t == Decide(Progress(old(storage.View()), tally), cluster, r).tally
  {
    t := tally;
    if r.decision.None? || !Hydrates(storage.rows, cluster) { return t.(skipped := t.skipped + 1); }
    match r.decision.value {
      case Merge(text) =>
        var ok := MergeCluster(storage, cluster, text, r);
        if !ok { return t.(skipped := t.skipped + 1); }
        t := t.(merges := t.merges + 1, mergedMemories := t.mergedMemories + |cluster|);
      case KeepSeparate =>
      case Contradiction(winner) =>
        if winner.None? { return t.(queued := t.queued + [cluster]); }
        var invalidated := RetireEach(storage, Without(cluster, winner.value), r.now, r.invalidateFails);
        t := t.(autoResolved := t.autoResolved + invalidated);
    }
  }

  method DispatchCluster(storage: StorageBackend, tally: Tally, cluster: Cluster, snapshot: Rows, r: ClusterReply)
    returns (t: Tally)
    modifies storage
    ensures storage.View() == Dispatch(Progress(old(storage.View()), tally), cluster, snapshot, r).st
    ensures t == Dispatch(Progress(old(storage.View()), tally), cluster, snapshot, r).tally
  {
    var c := TryDedupCluster(storage, cluster, snapshot, r);
    match c {
      case Collapsed(n) =>
        t := tally.(dedupedClusters := tally.dedupedClusters + 1, dedupedMemories := tally.dedupedMemories + n);
      case CollapseFailed =>
        t := tally.(skipped := tally.skipped + 1);
      case NotNearIdentical =>
        t := DecideCluster(storage, tally, cluster, r);
    }
  }

  /** One boundary's clusters, first to last. */
  method DispatchClusters(storage: StorageBackend, clusters: seq<Cluster>, snapshot: Rows, reply: nat -> ClusterReply)
    returns (t: Tally)
    modifies storage
    ensures storage.View() == DispatchAll(Progress(old(storage.View()), EMPTY_TALLY), clusters, 0, snapshot, reply).st
    ensures t == DispatchAll(Progress(old(storage.View()), EMPTY_TALLY), clusters, 0, snapshot, reply).tally
  {
    t := EMPTY_TALLY;
    ghost var goal := DispatchAll(Progress(storage.View(), EMPTY_TALLY), clusters, 0, snapshot, reply);
    for k := 0 to |clusters|
      invariant goal == DispatchAll(Progress(storage.View(), t), clusters, k, snapshot, reply)
    {
      ghost var p := Progress(storage.View(), t);
      t := DispatchCluster(storage, t, clusters[k], snapshot, reply(k));
      assert Progress(storage.View(), t) == Dispatch(p, clusters[k], snapshot, reply(k));
    }
  }
}
