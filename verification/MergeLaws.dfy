/** What processing a boundary's clusters keeps true, whatever the model answers and whatever
    fails on the way. */
module MergeLaws {
  import opened VaultCore
  import opened SortedIds
  import opened Clusters
  import opened Supersession
  import opened Storage
  import opened MergePhase

  /** Rows only age, their vectors stay, and a new row's vector is that of its bare content. */
  ghost predicate Extends(st: Store, next: Store) {
    && Evolves(st.rows, next.rows)
    && (forall id | id in st.rows :: SameVector(st, next, id))
    && (forall id | id in next.rows && id !in st.rows :: FreshRow(next, id))
    && (Keyed(st.rows) ==> Keyed(next.rows))
  }

  ghost predicate SameVector(st: Store, next: Store, id: MemoryId) {
    (id in st.vectors <==> id in next.vectors) && (id in st.vectors ==> next.vectors[id] == st.vectors[id])
  }

  ghost predicate FreshRow(st: Store, id: MemoryId)
    requires id in st.rows
  {
    id in st.vectors && st.vectors[id] == st.rows[id].content && st.rows[id].metadata.enrichment.None?
  }

  ghost predicate Untouched(st: Store, next: Store, touched: set<MemoryId>) {
    forall id | id in st.rows && id !in touched :: id in next.rows && next.rows[id] == st.rows[id]
  }

  lemma ExtendsTransitive(a: Store, b: Store, c: Store)
    requires Extends(a, b) && Extends(b, c)
    ensures Extends(a, c)
  {
  }

  /** Rows of one boundary that nothing has superseded. */
  ghost predicate Current(rows: Rows, b: Boundary, ids: set<MemoryId>) {
    forall id | id in ids :: id in rows && rows[id].boundary == b && rows[id].supersededBy.None?
  }

  lemma DedupLaw(st: Store, b: Boundary, survivor: MemoryId, losers: seq<MemoryId>, access: nat, confidence: real, fails: bool, next: Store)
    requires Forest(st.rows) && Current(st.rows, b, SetOf(losers) + {survivor})
    requires Deduped(st, survivor, losers, access, confidence, fails) == Some(next)
    ensures Forest(next.rows) && Extends(st, next)
    ensures Untouched(st, next, SetOf(losers) + {survivor})
  {
    assert survivor !in SetOf(losers);
    assert next.rows == DedupRows(st.rows, survivor, SetOf(losers), access, confidence);
    DedupKeepsForest(st.rows, b, survivor, SetOf(losers), access, confidence);
  }

  lemma DedupKeepsForest(rows: Rows, b: Boundary, survivor: MemoryId, losers: set<MemoryId>, access: nat, confidence: real)
    requires Forest(rows) && Current(rows, b, losers + {survivor}) && survivor !in losers
    ensures Forest(DedupRows(rows, survivor, losers, access, confidence))
  {
    assert survivor in losers + {survivor};
    var rank :| RankedBy(rows, rank);
    var top := RankBound(rank);
    assert RankedBy(DedupRows(rows, survivor, losers, access, confidence), rank[survivor := top]);
  }

  lemma MarkedLaw(st: Store, b: Boundary, id: MemoryId, heir: MemoryId, fails: bool, next: Store)
    requires Forest(st.rows) && Current(st.rows, b, {id, heir}) && id != heir
    requires Marked(st, id, heir, fails) == Some(next)
    ensures Forest(next.rows) && Extends(st, next) && Untouched(st, next, {id})
  {
    assert id in {id, heir} && heir in {id, heir};
    SupersedeKeepsForest(st.rows, id, heir);
  }

  lemma {:induction false} MarkAllLaw(st: Store, b: Boundary, ids: seq<MemoryId>, heir: MemoryId, fails: MemoryId -> bool)
    requires Forest(st.rows) && Distinct(ids)
    requires Current(st.rows, b, SetOf(ids) + {heir}) && heir !in SetOf(ids)
    ensures var next := MarkAll(st, ids, heir, fails).0;
      Forest(next.rows) && Extends(st, next) && Untouched(st, next, SetOf(ids))
    decreases |ids|
  {
    if ids != [] {
      HeadTail(ids);
      match Marked(st, ids[0], heir, fails(ids[0]))
      case None =>
      case Some(next) =>
        MarkedLaw(st, b, ids[0], heir, fails(ids[0]), next);
        MarkAllLaw(next, b, ids[1..], heir, fails);
        ExtendsTransitive(st, next, MarkAll(next, ids[1..], heir, fails).0);
    }
  }

  lemma WrittenLaw(st: Store, m: Memory, text: string, fails: bool, next: Store)
    requires Forest(st.rows) && m.supersededBy.None? && m.content == text && m.metadata.enrichment.None?
    requires Written(st, m, text, fails) == Some(next)
    ensures Forest(next.rows) && Extends(st, next) && Untouched(st, next, {})
  {
    SameLinksKeepForest(st.rows, next.rows);
  }

  lemma ApplyMergeLaw(st: Store, b: Boundary, cluster: Cluster, text: string, r: ClusterReply)
    requires Forest(st.rows) && Distinct(cluster) && Current(st.rows, b, SetOf(cluster))
    ensures var next := ApplyMerge(st, cluster, text, r).0;
      Forest(next.rows) && Extends(st, next) && Untouched(st, next, SetOf(cluster))
  {
    if !r.relistFails && cluster != [] && Hydrates(st.rows, cluster) && r.mergeEmbedOk {
      var m := MergedRow(st.rows, cluster, text, r.newId, r.now);
      HeadTail(cluster);
      assert m.boundary == b;
      match Written(st, m, text, r.writeFails)
      case None =>
      case Some(next) =>
        WrittenLaw(st, m, text, r.writeFails, next);
        assert next.rows[r.newId] == m;
        MarkAllLaw(next, b, cluster, r.newId, r.markFails);
        ExtendsTransitive(st, next, MarkAll(next, cluster, r.newId, r.markFails).0);
    }
  }

  /** A row that can be retired at `at` when the database lets it. */
  predicate Retirable(m: Memory, at: Instant) {
    m.validFrom <= at && m.(validUntil := Some(at)).Validates()
  }

  predicate Retires(rows: Rows, at: Instant, fails: MemoryId -> bool, id: MemoryId) {
    id in rows && !fails(id) && Retirable(rows[id], at)
  }

  function RetiredIds(rows: Rows, ids: set<MemoryId>, at: Instant, fails: MemoryId -> bool): set<MemoryId> {
    set id | id in ids && Retires(rows, at, fails, id)
  }

  function RetireRows(rows: Rows, ids: set<MemoryId>, at: Instant): Rows {
    map id | id in rows :: if id in ids then rows[id].(validUntil := Some(at)) else rows[id]
  }

  /** Exactly the rows that can be retired are, nothing else changes, and the count is theirs. */
  lemma {:induction false} InvalidateAllExact(st: Store, ids: seq<MemoryId>, at: Instant, fails: MemoryId -> bool)
    requires Distinct(ids)
    ensures var done := RetiredIds(st.rows, SetOf(ids), at, fails);
      var r := InvalidateAll(st, ids, at, fails);
      r.0.vectors == st.vectors && r.0.rows == RetireRows(st.rows, done, at) && r.1 == |done|
    decreases |ids|
  {
    if ids == [] {
      assert RetireRows(st.rows, {}, at) == st.rows;
    } else {
      HeadTail(ids);
      var id, rest := ids[0], ids[1..];
      assert SetOf(ids) == {id} + SetOf(rest);
      RetiredSplit(st.rows, id, SetOf(rest), at, fails);
      if Retires(st.rows, at, fails, id) {
        var next := st.(rows := st.rows[id := st.rows[id].(validUntil := Some(at))]);
        assert Invalidated(st, id, at, fails(id)) == Some(next);
        InvalidateAllExact(next, rest, at, fails);
      } else {
        assert Invalidated(st, id, at, fails(id)) == None;
        InvalidateAllExact(st, rest, at, fails);
      }
    }
  }

  lemma RetiredSplit(rows: Rows, id: MemoryId, rest: set<MemoryId>, at: Instant, fails: MemoryId -> bool)
    requires id !in rest
    ensures var done := RetiredIds(rows, {id} + rest, at, fails);
      if Retires(rows, at, fails, id) then
        var next := rows[id := rows[id].(validUntil := Some(at))];
        var later := RetiredIds(next, rest, at, fails);
        done == later + {id} && id !in later && RetireRows(rows, done, at) == RetireRows(next, later, at)
      else
        done == RetiredIds(rows, rest, at, fails)
  {
  }

  lemma RetireLaw(st: Store, ids: set<MemoryId>, at: Instant)
    requires Forest(st.rows)
    ensures var next := st.(rows := RetireRows(st.rows, ids, at));
      Forest(next.rows) && Extends(st, next) && Untouched(st, next, ids)
  {
    SameLinksKeepForest(st.rows, RetireRows(st.rows, ids, at));
  }

  lemma InvalidateAllLaw(st: Store, ids: seq<MemoryId>, at: Instant, fails: MemoryId -> bool)
    requires Forest(st.rows) && Distinct(ids)
    ensures var next := InvalidateAll(st, ids, at, fails).0;
      Forest(next.rows) && Extends(st, next) && Untouched(st, next, SetOf(ids))
  {
    InvalidateAllExact(st, ids, at, fails);
    RetireLaw(st, RetiredIds(st.rows, SetOf(ids), at, fails), at);
  }

  lemma ConsDistinct(id: MemoryId, rest: seq<MemoryId>, others: set<MemoryId>)
    requires Distinct(rest) && SetOf(rest) <= others && id !in others
    ensures Distinct([id] + rest)
  {
  }

  lemma {:induction false} WithoutKeepsOrder(ids: seq<MemoryId>, drop: MemoryId)
    requires Distinct(ids)
    ensures Distinct(Without(ids, drop))
    ensures drop !in SetOf(ids) ==> Without(ids, drop) == ids
    decreases |ids|
  {
    if ids != [] {
      HeadTail(ids);
      var rest := Without(ids[1..], drop);
      WithoutKeepsOrder(ids[1..], drop);
      ConsDistinct(ids[0], rest, SetOf(ids[1..]));
      assert ids == [ids[0]] + ids[1..];
    }
  }

  /** A dedup plan names one member as survivor and every other member once as a loser. */
  lemma PlanCoversCluster(snapshot: Rows, cluster: Cluster)
    requires Keyed(snapshot) && Distinct(cluster) && cluster != [] && SetOf(cluster) <= snapshot.Keys
    ensures var plan := PlanDedup(snapshot, cluster);
      && Distinct(plan.superseded) && plan.survivor !in SetOf(plan.superseded)
      && SetOf(plan.superseded) + {plan.survivor} == SetOf(cluster)
  {
    var members := MembersOf(snapshot, cluster);
    var i :| 0 <= i < |members| && members[i] == Survivor(members);
    assert cluster[i] in SetOf(cluster);
    WithoutKeepsOrder(cluster, cluster[i]);
  }

  lemma DecideLaw(p: Progress, b: Boundary, cluster: Cluster, r: ClusterReply)
    requires Forest(p.st.rows) && Distinct(cluster) && Current(p.st.rows, b, SetOf(cluster))
    ensures var next := Decide(p, cluster, r).st;
      Forest(next.rows) && Extends(p.st, next) && Untouched(p.st, next, SetOf(cluster))
  {
    if r.decision.Some? && Hydrates(p.st.rows, cluster) {
      match r.decision.value
      case Merge(text) => ApplyMergeLaw(p.st, b, cluster, text, r);
      case KeepSeparate =>
      case Contradiction(None) =>
      case Contradiction(Some(winner)) =>
        WithoutKeepsOrder(cluster, winner);
        InvalidateAllLaw(p.st, Without(cluster, winner), r.now, r.invalidateFails);
    }
  }

  /** One cluster, whatever is answered and whatever fails: the links stay a forest, rows only
      age, and only the cluster's own members are touched. */
  lemma DispatchLaw(p: Progress, b: Boundary, cluster: Cluster, snapshot: Rows, r: ClusterReply)
    requires Forest(p.st.rows) && Keyed(snapshot)
    requires Distinct(cluster) && Current(p.st.rows, b, SetOf(cluster))
    ensures var next := Dispatch(p, cluster, snapshot, r).st;
      Forest(next.rows) && Extends(p.st, next) && Untouched(p.st, next, SetOf(cluster))
  {
    match TryDedup(p.st, cluster, snapshot, r)
    case DedupDone(next, n) =>
      var plan := PlanDedup(snapshot, cluster);
      PlanCoversCluster(snapshot, cluster);
      DedupLaw(p.st, b, plan.survivor, plan.superseded, plan.access, plan.confidence, r.dedupFails, next);
    case DedupError =>
    case NotEligible => DecideLaw(p, b, cluster, r);
  }

  /** The clusters still to process are current and share no member. */
  ghost predicate Pending(rows: Rows, b: Boundary, clusters: seq<Cluster>, k: nat) {
    && (forall i | k <= i < |clusters| :: Distinct(clusters[i]) && Current(rows, b, SetOf(clusters[i])))
    && (forall i, j | k <= i < j < |clusters| :: SetOf(clusters[i]) !! SetOf(clusters[j]))
  }

  /** A whole boundary's clusters keep what one cluster keeps: a cluster's members are still
      current when its turn comes because no other cluster holds them. */
  lemma {:induction false} DispatchAllLaw(p: Progress, b: Boundary, clusters: seq<Cluster>, k: nat, snapshot: Rows, reply: nat -> ClusterReply)
    requires k <= |clusters| && Forest(p.st.rows) && Keyed(snapshot)
    requires Pending(p.st.rows, b, clusters, k)
    ensures var next := DispatchAll(p, clusters, k, snapshot, reply).st;
      Forest(next.rows) && Extends(p.st, next)
    decreases |clusters| - k
  {
    if k < |clusters| {
      var q := Dispatch(p, clusters[k], snapshot, reply(k));
      DispatchLaw(p, b, clusters[k], snapshot, reply(k));
      DispatchAllLaw(q, b, clusters, k + 1, snapshot, reply);
      ExtendsTransitive(p.st, q.st, DispatchAll(q, clusters, k + 1, snapshot, reply).st);
    }
  }

  /** A contradiction the model resolves, with every retirement going through, leaves the cluster
      a current fact exactly when the winner it named is one of the cluster's own members. */
  lemma ContradictionKeepsAFactIff(p: Progress, cluster: Cluster, snapshot: Rows, r: ClusterReply, winner: MemoryId)
    requires Distinct(cluster)
    requires forall id | id in SetOf(cluster) :: id in p.st.rows && p.st.rows[id].Active() && Retirable(p.st.rows[id], r.now)
    requires TryDedup(p.st, cluster, snapshot, r).NotEligible?
    requires r.decision == Some(Contradiction(Some(winner)))
    requires forall id :: !r.invalidateFails(id)
    ensures var next := Dispatch(p, cluster, snapshot, r);
      && ((ActiveIds(next.st.rows) * SetOf(cluster) != {}) <==> winner in SetOf(cluster))
      && next.tally.autoResolved == p.tally.autoResolved + |SetOf(cluster) - {winner}|
  {
    ContradictionRetires(p, cluster, snapshot, r, winner);
    RetireAllBut(p.st.rows, SetOf(cluster), winner, r.now, r.invalidateFails);
  }

  lemma ContradictionRetires(p: Progress, cluster: Cluster, snapshot: Rows, r: ClusterReply, winner: MemoryId)
    requires Distinct(cluster) && Hydrates(p.st.rows, cluster)
    requires TryDedup(p.st, cluster, snapshot, r).NotEligible?
    requires r.decision == Some(Contradiction(Some(winner)))
    ensures var next := Dispatch(p, cluster, snapshot, r);
      var done := RetiredIds(p.st.rows, SetOf(cluster) - {winner}, r.now, r.invalidateFails);
      next.st.rows == RetireRows(p.st.rows, done, r.now) && next.tally.autoResolved == p.tally.autoResolved + |done|
  {
    WithoutKeepsOrder(cluster, winner);
    InvalidateAllExact(p.st, Without(cluster, winner), r.now, r.invalidateFails);
  }

  lemma RetireAllBut(rows: Rows, ids: set<MemoryId>, winner: MemoryId, at: Instant, fails: MemoryId -> bool)
    requires forall id | id in ids :: id in rows && rows[id].Active() && Retirable(rows[id], at)
    requires forall id :: !fails(id)
    ensures var done := RetiredIds(rows, ids - {winner}, at, fails);
      done == ids - {winner} && ((ActiveIds(RetireRows(rows, done, at)) * ids != {}) <==> winner in ids)
  {
    var done := RetiredIds(rows, ids - {winner}, at, fails);
    var next := RetireRows(rows, done, at);
    assert done == ids - {winner};
    if winner in ids { assert winner in ActiveIds(next) * ids; }
  }

  // ---- conservation ----

  function SupersededIds(rows: Rows): set<MemoryId> {
    set id | id in rows && rows[id].supersededBy.Some?
  }

  /** Marking counts up to the first failing mark. */
  lemma {:induction false} MarkAllCounts(st: Store, ids: seq<MemoryId>, heir: MemoryId, fails: MemoryId -> bool) returns (n: nat)
    requires Distinct(ids)
    requires SetOf(ids) <= st.rows.Keys && SetOf(ids) !! SupersededIds(st.rows)
    ensures var (next, all) := MarkAll(st, ids, heir, fails);
      && |SupersededIds(next.rows)| == |SupersededIds(st.rows)| + n && next.rows.Keys == st.rows.Keys
      && n <= |ids| && (all <==> n == |ids|) && (n == 0 <==> ids == [] || fails(ids[0]))
    decreases |ids|
  {
    n := 0;
    if ids != [] {
      HeadTail(ids);
      match Marked(st, ids[0], heir, fails(ids[0]))
      case None =>
      case Some(next) =>
        assert SupersededIds(next.rows) == SupersededIds(st.rows) + {ids[0]};
        n := MarkAllCounts(next, ids[1..], heir, fails);
        n := n + 1;
    }
  }

  lemma {:induction false} MarksAllIff(st: Store, ids: seq<MemoryId>, heir: MemoryId, fails: MemoryId -> bool)
    requires SetOf(ids) <= st.rows.Keys
    ensures MarkAll(st, ids, heir, fails).1 <==> forall i | 0 <= i < |ids| :: !fails(ids[i])
    decreases |ids|
  {
    if ids != [] {
      assert ids == [ids[0]] + ids[1..] && ids[0] in SetOf(ids) && SetOf(ids[1..]) <= SetOf(ids);
      if !fails(ids[0]) { MarksAllIff(Marked(st, ids[0], heir, false).value, ids[1..], heir, fails); }
    }
  }

  /** How many rows a cluster's processing supersedes, and how many its counters report. */
  ghost function NewlySuperseded(p: Progress, next: Progress): int {
    |SupersededIds(next.st.rows)| - |SupersededIds(p.st.rows)|
  }

  ghost function Counted(p: Progress, next: Progress): int {
    next.tally.dedupedMemories + next.tally.mergedMemories - p.tally.dedupedMemories - p.tally.mergedMemories
  }

  /** The merged row can be committed. */
  predicate MergeWrites(st: Store, cluster: Cluster, text: string, r: ClusterReply) {
    && cluster != [] && Hydrates(st.rows, cluster) && !r.relistFails && r.mergeEmbedOk
    && Written(st, MergedRow(st.rows, cluster, text, r.newId, r.now), text, r.writeFails).Some?
  }

  /** What makes a merge stop half-way: the cluster is no plain duplicate, the decision is to merge, the
      merged row is committed, the first mark succeeds and a later one fails. */
  predicate MarksBreakOff(st: Store, cluster: Cluster, r: ClusterReply) {
    && r.decision.Some? && r.decision.value.Merge? && MergeWrites(st, cluster, r.decision.value.text, r)
    && !r.markFails(cluster[0]) && exists i | 0 < i < |cluster| :: r.markFails(cluster[i])
  }

  predicate HalfMerges(st: Store, cluster: Cluster, snapshot: Rows, r: ClusterReply) {
    TryDedup(st, cluster, snapshot, r).NotEligible? && MarksBreakOff(st, cluster, r)
  }

  /** Every row a cluster supersedes is in the counters, except the members a failing merge had
      already marked: the counters fall short exactly when a merge that committed its row has its first
      mark succeed and a later one fail. */
  lemma CountersMissExactlyHalfMerges(p: Progress, b: Boundary, cluster: Cluster, snapshot: Rows, r: ClusterReply)
    requires Keyed(snapshot) && Distinct(cluster) && |cluster| >= 2 && Current(p.st.rows, b, SetOf(cluster))
    ensures var next := Dispatch(p, cluster, snapshot, r);
      && Counted(p, next) <= NewlySuperseded(p, next)
      && (Counted(p, next) < NewlySuperseded(p, next) <==> HalfMerges(p.st, cluster, snapshot, r))
  {
    match TryDedup(p.st, cluster, snapshot, r)
    case DedupDone(st, n) => DedupCounts(p, b, cluster, snapshot, r);
    case DedupError =>
    case NotEligible => DecideCounts(p, cluster, r);
  }

  lemma DecideCounts(p: Progress, cluster: Cluster, r: ClusterReply)
    requires Distinct(cluster) && |cluster| >= 2
    ensures var next := Decide(p, cluster, r);
      && Counted(p, next) <= NewlySuperseded(p, next)
      && (Counted(p, next) < NewlySuperseded(p, next) <==> MarksBreakOff(p.st, cluster, r))
  {
    if r.decision.Some? && Hydrates(p.st.rows, cluster) {
      match r.decision.value
      case Merge(text) => MergeCounts(p.st, cluster, text, r);
      case KeepSeparate =>
      case Contradiction(None) =>
      case Contradiction(Some(winner)) => RetireCounts(p, cluster, winner, r);
    }
  }

  lemma DedupCounts(p: Progress, b: Boundary, cluster: Cluster, snapshot: Rows, r: ClusterReply)
    requires Keyed(snapshot) && Distinct(cluster) && Current(p.st.rows, b, SetOf(cluster))
    requires TryDedup(p.st, cluster, snapshot, r).DedupDone?
    ensures var DedupDone(st, n) := TryDedup(p.st, cluster, snapshot, r);
      |SupersededIds(st.rows)| == |SupersededIds(p.st.rows)| + n && st.rows.Keys == p.st.rows.Keys
  {
    var plan := PlanDedup(snapshot, cluster);
    PlanCoversCluster(snapshot, cluster);
    DistinctCount(plan.superseded);
    DedupSupersedes(p.st.rows, plan.survivor, SetOf(plan.superseded), plan.access, plan.confidence);
  }

  lemma DedupSupersedes(rows: Rows, survivor: MemoryId, losers: set<MemoryId>, access: nat, confidence: real)
    requires losers <= rows.Keys && losers !! SupersededIds(rows)
    ensures |SupersededIds(DedupRows(rows, survivor, losers, access, confidence))| == |SupersededIds(rows)| + |losers|
  {
    assert SupersededIds(DedupRows(rows, survivor, losers, access, confidence)) == SupersededIds(rows) + losers;
  }

  lemma RetireCounts(p: Progress, cluster: Cluster, winner: MemoryId, r: ClusterReply)
    requires Distinct(cluster)
    ensures var next := InvalidateAll(p.st, Without(cluster, winner), r.now, r.invalidateFails).0;
      SupersededIds(next.rows) == SupersededIds(p.st.rows) && next.rows.Keys == p.st.rows.Keys
  {
    WithoutKeepsOrder(cluster, winner);
    InvalidateAllExact(p.st, Without(cluster, winner), r.now, r.invalidateFails);
  }

  lemma MergeCounts(st: Store, cluster: Cluster, text: string, r: ClusterReply)
    requires Distinct(cluster) && |cluster| >= 2 && Hydrates(st.rows, cluster)
    ensures var (next, done) := ApplyMerge(st, cluster, text, r);
      var superseded := |SupersededIds(next.rows)| - |SupersededIds(st.rows)|;
      && superseded >= 0
      && (done ==> superseded == |cluster|)
      && (!done && superseded > 0 <==>
            MergeWrites(st, cluster, text, r) && !r.markFails(cluster[0]) && exists i | 0 < i < |cluster| :: r.markFails(cluster[i]))
  {
    if MergeWrites(st, cluster, text, r) {
      var next := Written(st, MergedRow(st.rows, cluster, text, r.newId, r.now), text, r.writeFails).value;
      assert SupersededIds(next.rows) == SupersededIds(st.rows);
      var n := MarkAllCounts(next, cluster, r.newId, r.markFails);
      MarksAllIff(next, cluster, r.newId, r.markFails);
    }
  }
}
