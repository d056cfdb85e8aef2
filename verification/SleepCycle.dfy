/** One sleep-cycle run: merge every boundary, retire contradicted facts, fade and shelve cold
    ones, count, and record an undo log. Clocks, the model, the searches and every failing call
    come in as a `RunReply`. */
module SleepCycle {
  import opened VaultCore
  import opened SortedIds
  import opened Clusters
  import opened Storage
  import opened MergePhase
  import opened ClusterPass
  import opened Contradiction
  import opened ColdPass
  import opened Checkpoint
  import opened PrimaryKeys

  datatype Config = Config(mergeThreshold: real, decayAfterDays: nat, archiveAfterDays: nat)

  datatype RunReply = RunReply(
    listFails: bool,
    near: Boundary -> Neighbours,
    clusterListFails: Boundary -> bool,
    clusters: Boundary -> nat -> ClusterReply,
    activeListFails: bool,
    judge: Boundary -> JudgeReply,
    decay: ColdReply,
    archive: ColdReply,
    capture: CaptureReply)

  /** The vault and the per-boundary counters as a run goes along. */
  datatype Ledger = Ledger(st: Store, tallies: map<Boundary, Tally>)

  /** A pass over boundaries; it stops with an error where a call it cannot skip fails. */
  datatype Pass = Pass(ledger: Ledger, completed: bool)

  datatype Counts = Counts(tallies: map<Boundary, Tally>, processed: nat, decayed: nat, archived: nat)

  /** The vault a run leaves, and its counts unless it ended in an error. */
  datatype RunEnd = RunEnd(st: Store, counts: Option<Counts>)

  function SnapshotOf(pre: Rows, b: Boundary): Rows {
    map id | id in pre && pre[id].Listed() && pre[id].boundary == b :: pre[id]
  }

  /** One boundary's clusters, dispatched and tallied. */
  ghost function MergeStep(g: Ledger, b: Boundary, clusters: seq<Cluster>, pre: Rows, r: RunReply): Ledger {
    var p := DispatchAll(Progress(g.st, EMPTY_TALLY), clusters, 0, SnapshotOf(pre, b), r.clusters(b));
    Ledger(p.st, g.tallies[b := p.tally])
  }

  ghost function MergeBoundaries(g: Ledger, bs: seq<Boundary>, pre: Rows, since: Option<Instant>, r: RunReply): Pass
    decreases |bs|
  {
    if bs == [] then Pass(g, true)
    else
      var b := bs[0];
      match FindClusters(g.st.rows, b, since, r.near(b), r.clusterListFails(b))
      case None => Pass(g, false)
      case Some(clusters) => MergeBoundaries(MergeStep(g, b, clusters, pre, r), bs[1..], pre, since, r)
  }

  function AddRetired(tallies: map<Boundary, Tally>, b: Boundary, n: nat): map<Boundary, Tally> {
    if n == 0 then tallies
    else
      var t := if b in tallies then tallies[b] else EMPTY_TALLY;
      tallies[b := t.(autoResolved := t.autoResolved + n)]
  }

  /** One boundary's retirements, and their count. */
  ghost function RetireStep(g: Ledger, snapshot: Rows, b: Boundary, since: Option<Instant>, r: JudgeReply): Ledger {
    Ledger(AfterRetirement(g.st, snapshot, b, since, r), AddRetired(g.tallies, b, |RetiredIn(g.st, snapshot, b, since, r)|))
  }

  ghost function RetireBoundaries(g: Ledger, bs: seq<Boundary>, snapshot: Rows, since: Option<Instant>, r: RunReply): Pass
    decreases |bs|
  {
    if bs == [] then Pass(g, true)
    else
      var b := bs[0];
      if Aborts(g.st, snapshot, b, since, r.judge(b)) then Pass(g, false)
      else RetireBoundaries(RetireStep(g, snapshot, b, since, r.judge(b)), bs[1..], snapshot, since, r)
  }

  ghost function MergeAll(st: Store, since: Option<Instant>, r: RunReply): Pass {
    MergeBoundaries(Ledger(st, map[]), Sorted(BoundariesOf(st.rows, ListedIds(st.rows))), st.rows, since, r)
  }

  ghost function RetireAll(g: Ledger, since: Option<Instant>, r: RunReply): Pass {
    RetireBoundaries(g, Sorted(BoundariesOf(g.st.rows, ActiveIds(g.st.rows))), g.st.rows, since, r)
  }

  /** A threshold out of range makes the clustering of every boundary fail. */
  function AtThreshold(cfg: Config, r: RunReply): RunReply {
    r.(clusterListFails := (b: Boundary) => r.clusterListFails(b) || !ThresholdAllowed(cfg.mergeThreshold))
  }

  /** The whole run, capture of the undo log apart. */
  ghost function Run(st: Store, cfg: Config, since: Option<Instant>, reply: RunReply): RunEnd {
    var r := AtThreshold(cfg, reply);
    if r.listFails then RunEnd(st, None)
    else
      var merged := MergeAll(st, since, r);
      if !merged.completed || r.activeListFails then RunEnd(merged.ledger.st, None)
      else
        var retired := RetireAll(merged.ledger, since, r);
        if !retired.completed then RunEnd(retired.ledger.st, None)
        else Cool(retired.ledger, |ListedIds(st.rows)|, cfg, r)
  }

  ghost function Cool(g: Ledger, processed: nat, cfg: Config, r: RunReply): RunEnd {
    var faded := AfterDecay(g.st, cfg.decayAfterDays, r.decay);
    RunEnd(
      AfterArchive(faded, cfg.archiveAfterDays, r.archive),
      Some(Counts(g.tallies, processed,
                  |DecayedIds(g.st.rows, cfg.decayAfterDays, r.decay)|,
                  |ArchivedIds(faded.rows, cfg.archiveAfterDays, r.archive)|)))
  }

  // ---- the report ----

  /** The sum of a counter over the boundaries. */
  function Total(bs: set<Boundary>, tallies: map<Boundary, Tally>, counter: Tally -> nat): nat
    requires bs <= tallies.Keys
  {
    if bs == {} then 0
    else
      var b := Least(bs);
      counter(tallies[b]) + Total(bs - {b}, tallies, counter)
  }

  function Sum(tallies: map<Boundary, Tally>, counter: Tally -> nat): nat {
    Total(tallies.Keys, tallies, counter)
  }

  datatype Report = Report(
    processed: nat,
    merged: nat,
    contradictionsQueued: nat,
    autoResolved: nat,
    archived: nat,
    decayed: nat,
    clustersDeduped: nat,
    memoriesDeduped: nat,
    clustersSkipped: nat)

  function MergedIn(t: Tally): nat { t.mergedMemories }
  function QueuedIn(t: Tally): nat { |t.queued| }
  function AutoResolvedIn(t: Tally): nat { t.autoResolved }
  function DedupedClustersIn(t: Tally): nat { t.dedupedClusters }
  function DedupedIn(t: Tally): nat { t.dedupedMemories }
  function SkippedIn(t: Tally): nat { t.skipped }

  function ReportOf(c: Counts): Report {
    Report(
      c.processed,
      Sum(c.tallies, MergedIn),
      Sum(c.tallies, QueuedIn),
      Sum(c.tallies, AutoResolvedIn),
      c.archived,
      c.decayed,
      Sum(c.tallies, DedupedClustersIn),
      Sum(c.tallies, DedupedIn),
      Sum(c.tallies, SkippedIn))
  }

  datatype RunResult = Failed | Done(report: Report, checkpoint: Capture)

  // ---- the orchestrator ----

  class Consolidator {
    const storage: StorageBackend
    const config: Config

    constructor (storage: StorageBackend, config: Config)
      ensures this.storage == storage && this.config == config
    {
      this.storage, this.config := storage, config;
    }

    /** Phases 1 to 3 on one boundary. `None` when its clusters could not be found. */
    method MergeBoundary(ghost tallies: map<Boundary, Tally>, b: Boundary, pre: Rows, since: Option<Instant>, r: RunReply)
      returns (t: Option<Tally>)
      modifies storage
      ensures match FindClusters(old(storage.rows), b, since, r.near(b), AtThreshold(config, r).clusterListFails(b))
        case None => t.None? && storage.View() == old(storage.View())
        case Some(clusters) =>
          var next := MergeStep(Ledger(old(storage.View()), tallies), b, clusters, pre, AtThreshold(config, r));
          t.Some? && storage.View() == next.st && tallies[b := t.value] == next.tallies
    {
      var clusters := FindCandidateClusters(storage.rows, b, config.mergeThreshold, since, r.near(b), r.clusterListFails(b));
      if clusters.None? { return None; }
      var done := DispatchClusters(storage, clusters.value, SnapshotOf(pre, b), r.clusters(b));
      t := Some(done);
    }

    /** Phases 1 to 3, boundary by boundary in alphabetical order. `None` is an error. */
    method MergePass(pre: Rows, since: Option<Instant>, r: RunReply)
      returns (tallies: Option<map<Boundary, Tally>>, processed: nat)
      requires pre == storage.rows
      modifies storage
      ensures var p := MergeAll(old(storage.View()), since, AtThreshold(config, r));
        && storage.View() == p.ledger.st
        && tallies == if p.completed then Some(p.ledger.tallies) else None
      ensures tallies.Some? ==> processed == |ListedIds(pre)|
    {
      var bs := Sorted(BoundariesOf(pre, ListedIds(pre)));
      ghost var goal := MergeAll(storage.View(), since, AtThreshold(config, r));
      var soFar: map<Boundary, Tally> := map[];
      processed := 0;
      for i := 0 to |bs|
        invariant goal == MergeBoundaries(Ledger(storage.View(), soFar), bs[i..], pre, since, AtThreshold(config, r))
        invariant processed == |ListedWithin(pre, SetOf(bs[..i]))|
      {
        var b := bs[i];
        assert bs[i..][0] == b && bs[i..][1..] == bs[i + 1..];
        CountBoundary(pre, bs, i);
        processed := processed + |SnapshotOf(pre, b)|;
        var t := MergeBoundary(soFar, b, pre, since, r);
        if t.None? { return None, processed; }
        soFar := soFar[b := t.value];
      }
      CountAll(pre, bs);
      tallies := Some(soFar);
    }

    /** Phase 2b over the boundaries of the facts still active. `None` is an error. */
    method RetirePass(tallies: map<Boundary, Tally>, since: Option<Instant>, r: RunReply)
      returns (next: Option<map<Boundary, Tally>>)
      requires Keyed(storage.rows)
      modifies storage
      ensures var p := RetireAll(Ledger(old(storage.View()), tallies), since, r);
        && storage.View() == p.ledger.st
        && next == if p.completed then Some(p.ledger.tallies) else None
    {
      var snapshot := storage.rows;
      var bs := Sorted(BoundariesOf(snapshot, ActiveIds(snapshot)));
      ghost var goal := RetireAll(Ledger(storage.View(), tallies), since, r);
      var soFar := tallies;
      for i := 0 to |bs|
        invariant goal == RetireBoundaries(Ledger(storage.View(), soFar), bs[i..], snapshot, since, r)
      {
        var b := bs[i];
        assert bs[i..][0] == b && bs[i..][1..] == bs[i + 1..];
        var n := RetireContradictions(storage, snapshot, b, since, r.judge(b));
        if n.None? { return None; }
        soFar := AddRetired(soFar, b, n.value);
      }
      next := Some(soFar);
    }

    /** A run changes the vault as `Run` says and reports its counts; its undo log, when one could
        be stored, is that of the difference it made. An error leaves what was already done, with
        no undo log. */
    method RunConsolidation(since: Option<Instant>, r: RunReply) returns (result: RunResult)
      requires Keyed(storage.rows)
      modifies storage
      ensures storage.View() == Run(old(storage.View()), config, since, r).st
      ensures var counts := Run(old(storage.View()), config, since, r).counts;
        && (result.Failed? <==> counts.None?)
        && (result.Done? ==> result.report == ReportOf(counts.value))
      ensures result.Done? && result.checkpoint.Stored? ==>
        Captures(old(storage.rows), storage.rows, result.checkpoint.entries)
      ensures result.Done? && result.checkpoint.NothingChanged? ==> ChangedIds(old(storage.rows), storage.rows) == {}
      ensures result.Done? && ChangedIds(old(storage.rows), storage.rows) == {} && !r.capture.listFails ==>
        result.checkpoint.NothingChanged?
      ensures result.Done? ==>
        (result.checkpoint.CaptureFailed? <==> CaptureFails(old(storage.rows), storage.rows, r.capture))
    {
      if r.listFails { return Failed; }
      var pre := storage.rows;
      var tallies, processed := MergePass(pre, since, r);
      if tallies.None? || r.activeListFails { return Failed; }
      MergeKeepsKeys(Ledger(old(storage.View()), map[]), Sorted(BoundariesOf(pre, ListedIds(pre))), pre, since, AtThreshold(config, r));
      var after := RetirePass(tallies.value, since, AtThreshold(config, r));
      if after.None? { return Failed; }
      ghost var g := Ledger(storage.View(), after.value);
      var decayed := DecayMemories(storage, config.decayAfterDays, r.decay);
      var archived := ArchiveMemories(storage, config.archiveAfterDays, r.archive);
      var report := ReportOf(Counts(after.value, processed, decayed, archived));
      assert Run(old(storage.View()), config, since, r) == Cool(g, processed, config, AtThreshold(config, r));
      var checkpoint := CaptureCheckpoint(pre, storage.rows, r.capture);
      result := Done(report, checkpoint);
    }
  }

  lemma {:induction false} MergeKeepsKeys(g: Ledger, bs: seq<Boundary>, pre: Rows, since: Option<Instant>, r: RunReply)
    requires Keyed(g.st.rows)
    ensures Keyed(MergeBoundaries(g, bs, pre, since, r).ledger.st.rows)
    decreases |bs|
  {
    if bs != [] {
      var b := bs[0];
      match FindClusters(g.st.rows, b, since, r.near(b), r.clusterListFails(b))
      case None =>
      case Some(clusters) =>
        DispatchAllKeyed(Progress(g.st, EMPTY_TALLY), clusters, 0, SnapshotOf(pre, b), r.clusters(b));
        MergeKeepsKeys(MergeStep(g, b, clusters, pre, r), bs[1..], pre, since, r);
    }
  }

  function ListedWithin(rows: Rows, bs: set<Boundary>): set<MemoryId> {
    set id | id in rows && rows[id].Listed() && rows[id].boundary in bs
  }

  lemma CountAll(rows: Rows, bs: seq<Boundary>)
    requires forall b :: b in bs <==> b in BoundariesOf(rows, ListedIds(rows))
    ensures ListedWithin(rows, SetOf(bs[..|bs|])) == ListedIds(rows)
  {
    assert bs[..|bs|] == bs;
  }

  lemma CountBoundary(rows: Rows, bs: seq<Boundary>, i: nat)
    requires Ascending(bs) && i < |bs|
    ensures |ListedWithin(rows, SetOf(bs[..i + 1]))| == |ListedWithin(rows, SetOf(bs[..i]))| + |SnapshotOf(rows, bs[i])|
  {
    assert bs[..i + 1] == bs[..i] + [bs[i]];
    assert SetOf(bs[..i + 1]) == SetOf(bs[..i]) + {bs[i]};
    var before, here := ListedWithin(rows, SetOf(bs[..i])), SnapshotOf(rows, bs[i]).Keys;
    assert ListedWithin(rows, SetOf(bs[..i + 1])) == before + here;
    assert before !! here;
    assert |SnapshotOf(rows, bs[i])| == |here|;
  }
}
