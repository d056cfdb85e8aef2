/** The report's figures against what really changed in the vault. */
module RunCounts {
  import opened VaultCore
  import opened SortedIds
  import opened Clusters
  import opened Supersession
  import opened Storage
  import opened MergePhase
  import opened MergeLaws
  import opened Contradiction
  import opened ColdPass
  import opened PrimaryKeys
  import opened SleepCycle
  import opened RunLaws

  function EndedIds(rows: Rows): set<MemoryId> {
    set id | id in rows && rows[id].validUntil.Some?
  }

  function ShelvedIds(rows: Rows): set<MemoryId> {
    set id | id in rows && rows[id].archivedAt.Some?
  }

  // ---- one cluster ----

  lemma {:induction false} MarkAllEndsNothing(st: Store, ids: seq<MemoryId>, heir: MemoryId, fails: MemoryId -> bool)
    ensures var next := MarkAll(st, ids, heir, fails).0;
      EndedIds(next.rows) == EndedIds(st.rows) && ShelvedIds(next.rows) == ShelvedIds(st.rows)
    decreases |ids|
  {
    if ids != [] {
      match Marked(st, ids[0], heir, fails(ids[0]))
      case None =>
      case Some(next) =>
        assert EndedIds(next.rows) == EndedIds(st.rows) && ShelvedIds(next.rows) == ShelvedIds(st.rows);
        MarkAllEndsNothing(next, ids[1..], heir, fails);
    }
  }

  lemma MergeEndsNothing(st: Store, cluster: Cluster, text: string, r: ClusterReply)
    ensures var next := ApplyMerge(st, cluster, text, r).0;
      EndedIds(next.rows) == EndedIds(st.rows) && ShelvedIds(next.rows) == ShelvedIds(st.rows)
  {
    if !r.relistFails && cluster != [] && Hydrates(st.rows, cluster) && r.mergeEmbedOk {
      var m := MergedRow(st.rows, cluster, text, r.newId, r.now);
      match Written(st, m, text, r.writeFails)
      case None =>
      case Some(next) =>
        assert EndedIds(next.rows) == EndedIds(st.rows) && ShelvedIds(next.rows) == ShelvedIds(st.rows);
        MarkAllEndsNothing(next, cluster, r.newId, r.markFails);
    }
  }

  lemma RetireRowsEnds(rows: Rows, done: set<MemoryId>, at: Instant)
    requires done <= rows.Keys && done !! EndedIds(rows)
    ensures |EndedIds(RetireRows(rows, done, at))| == |EndedIds(rows)| + |done|
    ensures ShelvedIds(RetireRows(rows, done, at)) == ShelvedIds(rows)
    ensures SupersededIds(RetireRows(rows, done, at)) == SupersededIds(rows)
  {
    assert EndedIds(RetireRows(rows, done, at)) == EndedIds(rows) + done;
  }

  /** Facts of the boundary that are active. */
  ghost predicate AllActive(rows: Rows, b: Boundary, ids: set<MemoryId>) {
    ids <= ActiveIn(rows, b)
  }

  lemma DecideEnds(p: Progress, b: Boundary, cluster: Cluster, r: ClusterReply)
    requires Distinct(cluster) && AllActive(p.st.rows, b, SetOf(cluster))
    ensures var next := Decide(p, cluster, r);
      && |EndedIds(next.st.rows)| == |EndedIds(p.st.rows)| + next.tally.autoResolved - p.tally.autoResolved
      && ShelvedIds(next.st.rows) == ShelvedIds(p.st.rows)
  {
    if r.decision.Some? && Hydrates(p.st.rows, cluster) {
      match r.decision.value
      case Merge(text) => MergeEndsNothing(p.st, cluster, text, r);
      case KeepSeparate =>
      case Contradiction(None) =>
      case Contradiction(Some(winner)) =>
        var losers := Without(cluster, winner);
        WithoutKeepsOrder(cluster, winner);
        InvalidateAllExact(p.st, losers, r.now, r.invalidateFails);
        RetireRowsEnds(p.st.rows, RetiredIds(p.st.rows, SetOf(losers), r.now, r.invalidateFails), r.now);
    }
  }

  /** A cluster's processing ends exactly as many facts as its counter says, and archives none. */
  lemma DispatchEnds(p: Progress, b: Boundary, cluster: Cluster, snapshot: Rows, r: ClusterReply)
    requires Distinct(cluster) && AllActive(p.st.rows, b, SetOf(cluster))
    ensures var next := Dispatch(p, cluster, snapshot, r);
      && |EndedIds(next.st.rows)| == |EndedIds(p.st.rows)| + next.tally.autoResolved - p.tally.autoResolved
      && ShelvedIds(next.st.rows) == ShelvedIds(p.st.rows)
  {
    match TryDedup(p.st, cluster, snapshot, r)
    case DedupDone(st, n) => DedupEndsNothing(p.st, PlanDedup(snapshot, cluster), r.dedupFails);
    case DedupError =>
    case NotEligible => DecideEnds(p, b, cluster, r);
  }

  lemma DedupEndsNothing(st: Store, plan: DedupPlan, fails: bool)
    requires ApplyPlan(st, plan, fails).DedupDone?
    ensures var next := ApplyPlan(st, plan, fails).st;
      EndedIds(next.rows) == EndedIds(st.rows) && ShelvedIds(next.rows) == ShelvedIds(st.rows)
  {
  }

  // ---- one boundary ----

  /** Some merge of the boundary commits its row, marks its first member and fails on a later one. */
  ghost predicate HalfMergeIn(p: Progress, clusters: seq<Cluster>, k: nat, snapshot: Rows, reply: nat -> ClusterReply)
    requires k <= |clusters|
    decreases |clusters| - k
  {
    k < |clusters| &&
    (HalfMerges(p.st, clusters[k], snapshot, reply(k))
     || HalfMergeIn(Dispatch(p, clusters[k], snapshot, reply(k)), clusters, k + 1, snapshot, reply))
  }

  ghost predicate ActivePending(rows: Rows, b: Boundary, clusters: seq<Cluster>, k: nat) {
    && Pending(rows, b, clusters, k)
    && forall i | k <= i < |clusters| :: |clusters[i]| >= 2 && AllActive(rows, b, SetOf(clusters[i]))
  }

  lemma OthersStayPending(p: Progress, b: Boundary, clusters: seq<Cluster>, k: nat, snapshot: Rows, r: ClusterReply)
    requires k < |clusters| && Forest(p.st.rows) && Keyed(snapshot)
    requires ActivePending(p.st.rows, b, clusters, k)
    ensures var next := Dispatch(p, clusters[k], snapshot, r).st;
      Forest(next.rows) && ActivePending(next.rows, b, clusters, k + 1)
  {
    DispatchLaw(p, b, clusters[k], snapshot, r);
    var next := Dispatch(p, clusters[k], snapshot, r).st;
    forall i | k < i < |clusters|
      ensures Current(next.rows, b, SetOf(clusters[i])) && AllActive(next.rows, b, SetOf(clusters[i]))
    {
      assert SetOf(clusters[k]) !! SetOf(clusters[i]);
    }
  }

  lemma {:induction false} DispatchAllCounts(p: Progress, b: Boundary, clusters: seq<Cluster>, k: nat, snapshot: Rows, reply: nat -> ClusterReply)
    requires k <= |clusters| && Forest(p.st.rows) && Keyed(snapshot)
    requires ActivePending(p.st.rows, b, clusters, k)
    ensures var next := DispatchAll(p, clusters, k, snapshot, reply);
      && |EndedIds(next.st.rows)| == |EndedIds(p.st.rows)| + next.tally.autoResolved - p.tally.autoResolved
      && ShelvedIds(next.st.rows) == ShelvedIds(p.st.rows)
      && Counted(p, next) <= NewlySuperseded(p, next)
      && (Counted(p, next) < NewlySuperseded(p, next) <==> HalfMergeIn(p, clusters, k, snapshot, reply))
    decreases |clusters| - k
  {
    if k < |clusters| {
      var next := Dispatch(p, clusters[k], snapshot, reply(k));
      DispatchEnds(p, b, clusters[k], snapshot, reply(k));
      CountersMissExactlyHalfMerges(p, b, clusters[k], snapshot, reply(k));
      OthersStayPending(p, b, clusters, k, snapshot, reply(k));
      DispatchAllCounts(next, b, clusters, k + 1, snapshot, reply);
    }
  }

  // ---- sums over boundaries ----

  lemma {:induction false} TotalSplit(bs: set<Boundary>, tallies: map<Boundary, Tally>, counter: Tally -> nat, b: Boundary)
    requires bs <= tallies.Keys && b in bs
    ensures Total(bs, tallies, counter) == counter(tallies[b]) + Total(bs - {b}, tallies, counter)
    decreases bs
  {
    var c := Least(bs);
    if c != b {
      TotalSplit(bs - {c}, tallies, counter, b);
      assert bs - {c} - {b} == bs - {b} - {c};
      LeastWithout(bs, b);
    }
  }

  lemma LeastWithout(bs: set<Boundary>, b: Boundary)
    requires bs != {} && b != Least(bs)
    ensures bs - {b} != {} && Least(bs - {b}) == Least(bs)
  {
    assert Least(bs) in bs - {b};
  }

  lemma {:induction false} TotalSame(bs: set<Boundary>, a: map<Boundary, Tally>, c: map<Boundary, Tally>, counter: Tally -> nat)
    requires bs <= a.Keys && bs <= c.Keys && forall b | b in bs :: a[b] == c[b]
    ensures Total(bs, a, counter) == Total(bs, c, counter)
    decreases bs
  {
    if bs != {} { TotalSame(bs - {Least(bs)}, a, c, counter); }
  }

  /** Changing one boundary's tally changes the sum by as much. */
  lemma SumUpdate(tallies: map<Boundary, Tally>, b: Boundary, t: Tally, counter: Tally -> nat)
    ensures Sum(tallies[b := t], counter)
      == Sum(tallies, counter) + counter(t) - if b in tallies then counter(tallies[b]) else 0
  {
    var next := tallies[b := t];
    TotalSplit(next.Keys, next, counter, b);
    assert next.Keys - {b} == tallies.Keys - {b};
    TotalSame(tallies.Keys - {b}, tallies, next, counter);
    if b in tallies { TotalSplit(tallies.Keys, tallies, counter, b); }
    else { assert tallies.Keys - {b} == tallies.Keys; }
  }

  /** What a vault's marks come to beyond its counters. */
  datatype Books = Books(ended: int, superseded: int, shelved: nat)

  ghost function BooksOf(g: Ledger): Books {
    Books(
      |EndedIds(g.st.rows)| - Sum(g.tallies, AutoResolvedIn),
      |SupersededIds(g.st.rows)| - Sum(g.tallies, MergedIn) - Sum(g.tallies, DedupedIn),
      |ShelvedIds(g.st.rows)|)
  }

  // ---- the merge pass ----

  /** Some boundary's merges include a half-done one. */
  ghost predicate HalfMergeInPass(g: Ledger, bs: seq<Boundary>, pre: Rows, since: Option<Instant>, r: RunReply)
    decreases |bs|
  {
    if bs == [] then false
    else
      var b := bs[0];
      match FindClusters(g.st.rows, b, since, r.near(b), r.clusterListFails(b))
      case None => false
      case Some(clusters) =>
        || HalfMergeIn(Progress(g.st, EMPTY_TALLY), clusters, 0, SnapshotOf(pre, b), r.clusters(b))
        || HalfMergeInPass(MergeStep(g, b, clusters, pre, r), bs[1..], pre, since, r)
  }

  lemma FoundClustersPend(rows: Rows, b: Boundary, since: Option<Instant>, near: Clusters.Neighbours, listFails: bool, clusters: seq<Cluster>)
    requires FindClusters(rows, b, since, near, listFails) == Some(clusters)
    ensures ActivePending(rows, b, clusters, 0)
  {
    ClustersAreComponents(rows, b, since, near, clusters);
    forall i | 0 <= i < |clusters| ensures |clusters[i]| >= 2 && AllActive(rows, b, SetOf(clusters[i])) {
      assert ValidCluster(ActiveIn(rows, b), clusters[i]);
    }
  }

  lemma BoundaryCounts(g: Ledger, b: Boundary, pre: Rows, since: Option<Instant>, r: RunReply, clusters: seq<Cluster>)
    requires Forest(g.st.rows) && Keyed(pre) && b !in g.tallies
    requires FindClusters(g.st.rows, b, since, r.near(b), r.clusterListFails(b)) == Some(clusters)
    ensures var next := MergeStep(g, b, clusters, pre, r);
      && BooksOf(next).ended == BooksOf(g).ended && BooksOf(next).shelved == BooksOf(g).shelved
      && BooksOf(next).superseded >= BooksOf(g).superseded
      && (BooksOf(next).superseded > BooksOf(g).superseded <==> HalfMergeIn(Progress(g.st, EMPTY_TALLY), clusters, 0, SnapshotOf(pre, b), r.clusters(b)))
  {
    FoundClustersPend(g.st.rows, b, since, r.near(b), r.clusterListFails(b), clusters);
    var start := Progress(g.st, EMPTY_TALLY);
    DispatchAllCounts(start, b, clusters, 0, SnapshotOf(pre, b), r.clusters(b));
    var t := DispatchAll(start, clusters, 0, SnapshotOf(pre, b), r.clusters(b)).tally;
    SumUpdate(g.tallies, b, t, MergedIn);
    SumUpdate(g.tallies, b, t, DedupedIn);
    SumUpdate(g.tallies, b, t, AutoResolvedIn);
  }

  lemma {:induction false} MergePassCounts(g: Ledger, bs: seq<Boundary>, pre: Rows, since: Option<Instant>, r: RunReply)
    requires Forest(g.st.rows) && Keyed(pre) && Distinct(bs) && SetOf(bs) !! g.tallies.Keys
    ensures var next := MergeBoundaries(g, bs, pre, since, r).ledger;
      && BooksOf(next).ended == BooksOf(g).ended && BooksOf(next).shelved == BooksOf(g).shelved
      && BooksOf(next).superseded >= BooksOf(g).superseded
      && (BooksOf(next).superseded > BooksOf(g).superseded <==> HalfMergeInPass(g, bs, pre, since, r))
    decreases |bs|
  {
    if bs != [] {
      HeadTail(bs);
      var b := bs[0];
      match FindClusters(g.st.rows, b, since, r.near(b), r.clusterListFails(b))
      case None =>
      case Some(clusters) =>
        BoundaryLaw(g, b, pre, since, r, clusters);
        BoundaryCounts(g, b, pre, since, r, clusters);
        MergePassCounts(MergeStep(g, b, clusters, pre, r), bs[1..], pre, since, r);
    }
  }

  // ---- the retirement pass ----

  lemma AddRetiredSums(tallies: map<Boundary, Tally>, b: Boundary, n: nat)
    ensures Sum(AddRetired(tallies, b, n), MergedIn) == Sum(tallies, MergedIn)
    ensures Sum(AddRetired(tallies, b, n), DedupedIn) == Sum(tallies, DedupedIn)
    ensures Sum(AddRetired(tallies, b, n), AutoResolvedIn) == Sum(tallies, AutoResolvedIn) + n
  {
    if n > 0 {
      var t := if b in tallies then tallies[b] else EMPTY_TALLY;
      var u := t.(autoResolved := t.autoResolved + n);
      SumUpdate(tallies, b, u, MergedIn);
      SumUpdate(tallies, b, u, DedupedIn);
      SumUpdate(tallies, b, u, AutoResolvedIn);
    }
  }

  lemma RetireBoundaryCounts(g: Ledger, snapshot: Rows, b: Boundary, since: Option<Instant>, r: JudgeReply)
    requires forall id | id in ActiveIn(snapshot, b) :: id in g.st.rows && g.st.rows[id] == snapshot[id]
    ensures BooksOf(RetireStep(g, snapshot, b, since, r)) == BooksOf(g)
  {
    StaleLeavesNewest(g.st, snapshot, b, since, r);
    var done := RetiredIn(g.st, snapshot, b, since, r);
    RetireRowsEnds(g.st.rows, done, r.now);
    AddRetiredSums(g.tallies, b, |done|);
  }

  lemma RetireInTurn(g: Ledger, bs: seq<Boundary>, snapshot: Rows, since: Option<Instant>, r: JudgeReply)
    requires bs != [] && Forest(g.st.rows) && Distinct(bs) && AsFound(g.st.rows, snapshot, SetOf(bs))
    ensures var next := RetireStep(g, snapshot, bs[0], since, r);
      && Forest(next.st.rows) && Distinct(bs[1..]) && AsFound(next.st.rows, snapshot, SetOf(bs[1..]))
      && BooksOf(next) == BooksOf(g)
  {
    HeadTail(bs);
    assert SetOf(bs[1..]) + {bs[0]} == SetOf(bs);
    FoundHere(g.st.rows, snapshot, bs[0], SetOf(bs));
    RetireBoundaryCounts(g, snapshot, bs[0], since, r);
    RetireBoundaryLaw(g, snapshot, bs[0], SetOf(bs[1..]), since, r);
  }

  lemma {:induction false} RetirePassCounts(g: Ledger, bs: seq<Boundary>, snapshot: Rows, since: Option<Instant>, r: RunReply)
    requires Forest(g.st.rows) && Distinct(bs) && AsFound(g.st.rows, snapshot, SetOf(bs))
    ensures BooksOf(RetireBoundaries(g, bs, snapshot, since, r).ledger) == BooksOf(g)
    decreases |bs|
  {
    if bs != [] && !Aborts(g.st, snapshot, bs[0], since, r.judge(bs[0])) {
      RetireInTurn(g, bs, snapshot, since, r.judge(bs[0]));
      RetirePassCounts(RetireStep(g, snapshot, bs[0], since, r.judge(bs[0])), bs[1..], snapshot, since, r);
    }
  }

  // ---- the cold pass ----

  lemma CoolCounts(g: Ledger, processed: nat, cfg: Config, r: RunReply)
    ensures var end := Cool(g, processed, cfg, r);
      && EndedIds(end.st.rows) == EndedIds(g.st.rows)
      && SupersededIds(end.st.rows) == SupersededIds(g.st.rows)
      && |ShelvedIds(end.st.rows)| == |ShelvedIds(g.st.rows)| + end.counts.value.archived
  {
    var faded := DecayRows(g.st.rows, DecayedIds(g.st.rows, cfg.decayAfterDays, r.decay), r.decay.now);
    assert EndedIds(faded) == EndedIds(g.st.rows);
    assert SupersededIds(faded) == SupersededIds(g.st.rows);
    assert ShelvedIds(faded) == ShelvedIds(g.st.rows);
    var done := ArchivedIds(faded, cfg.archiveAfterDays, r.archive);
    ShelvingCounts(faded, done, r.archive.now);
  }

  lemma ShelvingCounts(rows: Rows, done: set<MemoryId>, now: Instant)
    requires done <= rows.Keys && done !! ShelvedIds(rows)
    ensures EndedIds(ArchiveRows(rows, done, now)) == EndedIds(rows)
    ensures SupersededIds(ArchiveRows(rows, done, now)) == SupersededIds(rows)
    ensures |ShelvedIds(ArchiveRows(rows, done, now))| == |ShelvedIds(rows)| + |done|
  {
    assert ShelvedIds(ArchiveRows(rows, done, now)) == ShelvedIds(rows) + done;
  }

  // ---- the run ----

  /** The vault when the run starts to fade and archive. */
  ghost function BeforeCold(st: Store, cfg: Config, since: Option<Instant>, r: RunReply): Store {
    var at := AtThreshold(cfg, r);
    RetireAll(MergeAll(st, since, at).ledger, since, at).ledger.st
  }

  /** Facts whose confidence the cold phase changed. */
  ghost function FadedIds(before: Rows, after: Rows): set<MemoryId> {
    set id | id in before && id in after && after[id].confidence != before[id].confidence
  }

  lemma FadedAreDecayed(g: Ledger, processed: nat, cfg: Config, r: RunReply)
    ensures var end := Cool(g, processed, cfg, r);
      end.counts.value.decayed == |FadedIds(g.st.rows, end.st.rows)|
  {
    assert FadedIds(g.st.rows, Cool(g, processed, cfg, r).st.rows) == DecayedIds(g.st.rows, cfg.decayAfterDays, r.decay);
  }

  /** The report accounts for every change of state in the vault: as many facts were faded, archived and
      ended by a contradiction as it says, and as many superseded as it says it merged and
      deduplicated, except for the members a half-done merge had already pointed at its row. */
  lemma ReportAccounts(st: Store, cfg: Config, since: Option<Instant>, r: RunReply)
    requires Forest(st.rows) && Keyed(st.rows)
    requires Run(st, cfg, since, r).counts.Some?
    ensures var end := Run(st, cfg, since, r);
      var report := ReportOf(end.counts.value);
      var superseded := |SupersededIds(end.st.rows)| - |SupersededIds(st.rows)|;
      && report.processed == |ListedIds(st.rows)|
      && |EndedIds(end.st.rows)| == |EndedIds(st.rows)| + report.autoResolved
      && |ShelvedIds(end.st.rows)| == |ShelvedIds(st.rows)| + report.archived
      && report.decayed == |FadedIds(BeforeCold(st, cfg, since, r).rows, end.st.rows)|
      && superseded >= report.merged + report.memoriesDeduped
      && (superseded > report.merged + report.memoriesDeduped
          <==> HalfMergeInPass(Ledger(st, map[]), Sorted(BoundariesOf(st.rows, ListedIds(st.rows))), st.rows, since, AtThreshold(cfg, r)))
  {
    var start, at := Ledger(st, map[]), AtThreshold(cfg, r);
    var bs := Sorted(BoundariesOf(st.rows, ListedIds(st.rows)));
    MergePassCounts(start, bs, st.rows, since, at);
    MergePassLaw(start, bs, st.rows, since, at);
    var g := MergeAll(st, since, at).ledger;
    RetireAllCounts(g, since, at);
    RunShape(st, cfg, since, r);
    CoolCounts(RetireAll(g, since, at).ledger, |ListedIds(st.rows)|, cfg, at);
    FadedAreDecayed(RetireAll(g, since, at).ledger, |ListedIds(st.rows)|, cfg, at);
  }

  lemma RetireAllCounts(g: Ledger, since: Option<Instant>, r: RunReply)
    requires Forest(g.st.rows)
    ensures BooksOf(RetireAll(g, since, r).ledger) == BooksOf(g)
  {
    RetirePassCounts(g, Sorted(BoundariesOf(g.st.rows, ActiveIds(g.st.rows))), g.st.rows, since, r);
  }
}
