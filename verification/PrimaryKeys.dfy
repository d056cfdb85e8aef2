/** Every row stays filed under its own id, whatever shape the links are in. */
module PrimaryKeys {
  import opened VaultCore
  import opened SortedIds
  import opened Clusters
  import opened Storage
  import opened MergePhase

  lemma {:induction false} MarkAllKeyed(st: Store, ids: seq<MemoryId>, heir: MemoryId, fails: MemoryId -> bool)
    requires Keyed(st.rows)
    ensures Keyed(MarkAll(st, ids, heir, fails).0.rows)
    decreases |ids|
  {
    if ids != [] {
      match Marked(st, ids[0], heir, fails(ids[0]))
      case None =>
      case Some(next) => MarkAllKeyed(next, ids[1..], heir, fails);
    }
  }

  lemma {:induction false} InvalidateAllKeyed(st: Store, ids: seq<MemoryId>, at: Instant, fails: MemoryId -> bool)
    requires Keyed(st.rows)
    ensures Keyed(InvalidateAll(st, ids, at, fails).0.rows)
    decreases |ids|
  {
    if ids != [] {
      match Invalidated(st, ids[0], at, fails(ids[0]))
      case None => InvalidateAllKeyed(st, ids[1..], at, fails);
      case Some(next) => InvalidateAllKeyed(next, ids[1..], at, fails);
    }
  }

  lemma MergeKeyed(st: Store, cluster: Cluster, text: string, r: ClusterReply)
    requires Keyed(st.rows)
    ensures Keyed(ApplyMerge(st, cluster, text, r).0.rows)
  {
    if !r.relistFails && cluster != [] && Hydrates(st.rows, cluster) && r.mergeEmbedOk {
      match Written(st, MergedRow(st.rows, cluster, text, r.newId, r.now), text, r.writeFails)
      case None =>
      case Some(next) => MarkAllKeyed(next, cluster, r.newId, r.markFails);
    }
  }

  lemma DecideKeyed(p: Progress, cluster: Cluster, r: ClusterReply)
    requires Keyed(p.st.rows)
    ensures Keyed(Decide(p, cluster, r).st.rows)
  {
    if r.decision.Some? && Hydrates(p.st.rows, cluster) {
      match r.decision.value
      case Merge(text) => MergeKeyed(p.st, cluster, text, r);
      case KeepSeparate =>
      case Contradiction(None) =>
      case Contradiction(Some(winner)) =>
        InvalidateAllKeyed(p.st, Without(cluster, winner), r.now, r.invalidateFails);
    }
  }

  lemma {:induction false} DispatchAllKeyed(p: Progress, clusters: seq<Cluster>, k: nat, snapshot: Rows, reply: nat -> ClusterReply)
    requires k <= |clusters| && Keyed(p.st.rows)
    ensures Keyed(DispatchAll(p, clusters, k, snapshot, reply).st.rows)
    decreases |clusters| - k
  {
    if k < |clusters| {
      var next := Dispatch(p, clusters[k], snapshot, reply(k));
      DispatchKeyed(p, clusters[k], snapshot, reply(k));
      DispatchAllKeyed(next, clusters, k + 1, snapshot, reply);
    }
  }

  lemma DispatchKeyed(p: Progress, cluster: Cluster, snapshot: Rows, r: ClusterReply)
    requires Keyed(p.st.rows)
    ensures Keyed(Dispatch(p, cluster, snapshot, r).st.rows)
  {
    match TryDedup(p.st, cluster, snapshot, r)
    case DedupDone(next, n) =>
    case DedupError =>
    case NotEligible => DecideKeyed(p, cluster, r);
  }
}
