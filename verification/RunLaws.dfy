/** What holds over a whole run: links stay a forest, rows only age, a boundary keeps its newest fact,
    and an undo log undoes its run. */
module RunLaws {
  import opened VaultCore
  import opened SortedIds
  import opened Clusters
  import opened Supersession
  import opened Storage
  import opened MergePhase
  import opened MergeLaws
  import opened Contradiction
  import opened ColdPass
  import opened Checkpoint
  import opened EmbedText
  import opened PrimaryKeys
  import opened SleepCycle

  lemma FoundPend(rows: Rows, b: Boundary, clusters: seq<Cluster>)
    requires ValidClusters(ActiveIn(rows, b), clusters)
    ensures Pending(rows, b, clusters, 0)
  {
    forall i | 0 <= i < |clusters| ensures Distinct(clusters[i]) && Current(rows, b, SetOf(clusters[i])) {
      assert ValidCluster(ActiveIn(rows, b), clusters[i]);
    }
    forall i, j | 0 <= i < j < |clusters| ensures SetOf(clusters[i]) !! SetOf(clusters[j]) {
      forall id | id in SetOf(clusters[i]) ensures id !in SetOf(clusters[j]) { assert id in clusters[i]; }
    }
  }

  lemma BoundaryLaw(g: Ledger, b: Boundary, pre: Rows, since: Option<Instant>, r: RunReply, clusters: seq<Cluster>)
    requires Forest(g.st.rows) && Keyed(pre)
    requires FindClusters(g.st.rows, b, since, r.near(b), r.clusterListFails(b)) == Some(clusters)
    ensures var next := MergeStep(g, b, clusters, pre, r).st;
      Forest(next.rows) && Extends(g.st, next)
  {
    ClustersAreComponents(g.st.rows, b, since, r.near(b), clusters);
    FoundPend(g.st.rows, b, clusters);
    DispatchAllLaw(Progress(g.st, EMPTY_TALLY), b, clusters, 0, SnapshotOf(pre, b), r.clusters(b));
  }

  lemma {:induction false} MergePassLaw(g: Ledger, bs: seq<Boundary>, pre: Rows, since: Option<Instant>, r: RunReply)
    requires Forest(g.st.rows) && Keyed(pre)
    ensures var next := MergeBoundaries(g, bs, pre, since, r).ledger.st;
      Forest(next.rows) && Extends(g.st, next)
    decreases |bs|
  {
    if bs != [] {
      var b := bs[0];
      match FindClusters(g.st.rows, b, since, r.near(b), r.clusterListFails(b))
      case None =>
      case Some(clusters) =>
        BoundaryLaw(g, b, pre, since, r, clusters);
        var next := MergeStep(g, b, clusters, pre, r);
        MergePassLaw(next, bs[1..], pre, since, r);
        ExtendsTransitive(g.st, next.st, MergeBoundaries(next, bs[1..], pre, since, r).ledger.st);
    }
  }

  /** The facts of the boundaries still to come, and the newest fact of every boundary, are as the
      pass found them. */
  ghost predicate AsFound(rows: Rows, snapshot: Rows, todo: set<Boundary>) {
    forall id, b | id in ActiveIn(snapshot, b) && (b in todo || Newest(snapshot, b, id)) :: id in rows && rows[id] == snapshot[id]
  }

  lemma FoundHere(rows: Rows, snapshot: Rows, b: Boundary, todo: set<Boundary>)
    requires b in todo && AsFound(rows, snapshot, todo)
    ensures forall id | id in ActiveIn(snapshot, b) :: id in rows && rows[id] == snapshot[id]
  {
  }

  lemma OthersAsFound(st: Store, next: Store, snapshot: Rows, b: Boundary, rest: set<Boundary>, stale: set<MemoryId>)
    requires b !in rest && AsFound(st.rows, snapshot, rest + {b})
    requires stale <= ActiveIn(snapshot, b) && forall id | Newest(snapshot, b, id) :: id !in stale
    requires Untouched(st, next, stale)
    ensures AsFound(next.rows, snapshot, rest)
  {
  }

  lemma RetireBoundaryLaw(g: Ledger, snapshot: Rows, b: Boundary, rest: set<Boundary>, since: Option<Instant>, r: JudgeReply)
    requires Forest(g.st.rows) && b !in rest && AsFound(g.st.rows, snapshot, rest + {b})
    ensures var next := RetireStep(g, snapshot, b, since, r).st;
      Forest(next.rows) && Extends(g.st, next) && AsFound(next.rows, snapshot, rest)
  {
    RetirementLaw(g.st, snapshot, b, since, r);
    StaleLeavesNewest(g.st, snapshot, b, since, r);
    OthersAsFound(g.st, RetireStep(g, snapshot, b, since, r).st, snapshot, b, rest, StaleIn(g.st, snapshot, b, since, r));
  }

  /** Phase 2b over all boundaries, completed or cut short, for any verdicts and failures: every
      boundary's newest facts are exactly as they were. */
  lemma {:induction false} RetirePassLaw(g: Ledger, bs: seq<Boundary>, snapshot: Rows, since: Option<Instant>, r: RunReply)
    requires Forest(g.st.rows) && Distinct(bs) && AsFound(g.st.rows, snapshot, SetOf(bs))
    ensures var next := RetireBoundaries(g, bs, snapshot, since, r).ledger.st;
      && Forest(next.rows) && Extends(g.st, next)
      && forall b, id | Newest(snapshot, b, id) :: id in next.rows && next.rows[id] == snapshot[id]
    decreases |bs|
  {
    if bs != [] {
      HeadTail(bs);
      var b := bs[0];
      if !Aborts(g.st, snapshot, b, since, r.judge(b)) {
        RetireBoundaryLaw(g, snapshot, b, SetOf(bs[1..]), since, r.judge(b));
        var next := RetireStep(g, snapshot, b, since, r.judge(b));
        RetirePassLaw(next, bs[1..], snapshot, since, r);
        ExtendsTransitive(g.st, next.st, RetireBoundaries(next, bs[1..], snapshot, since, r).ledger.st);
      }
    }
  }

  lemma RetireAllLaw(g: Ledger, since: Option<Instant>, r: RunReply)
    requires Forest(g.st.rows)
    ensures var next := RetireAll(g, since, r).ledger.st;
      && Forest(next.rows) && Extends(g.st, next)
      && forall b, id | Newest(g.st.rows, b, id) :: id in next.rows && next.rows[id] == g.st.rows[id]
  {
    RetirePassLaw(g, Sorted(BoundariesOf(g.st.rows, ActiveIds(g.st.rows))), g.st.rows, since, r);
  }

  /** After Phase 2b no boundary that had a current fact is without one: its newest is still there. */
  lemma RetirementKeepsEveryBoundaryAlive(g: Ledger, since: Option<Instant>, r: RunReply, b: Boundary)
    requires Forest(g.st.rows) && ActiveIn(g.st.rows, b) != {}
    ensures exists id :: Newest(g.st.rows, b, id) && id in ActiveIn(RetireAll(g, since, r).ledger.st.rows, b)
  {
    var id := NewestOf(g.st.rows, ActiveIn(g.st.rows, b));
    assert Newest(g.st.rows, b, id);
    RetireAllLaw(g, since, r);
  }

  /** A run that ends without an error is its three passes one after the other; one that does not
      stops after a pass. */
  lemma RunShape(st: Store, cfg: Config, since: Option<Instant>, r: RunReply)
    ensures var end := Run(st, cfg, since, r);
      var at := AtThreshold(cfg, r);
      var g := MergeAll(st, since, at).ledger;
      var h := RetireAll(g, since, at).ledger;
      if end.counts.Some? then end == Cool(h, |ListedIds(st.rows)|, cfg, at)
      else end.st == st || end.st == g.st || end.st == h.st
  {
  }

  lemma NoClustersNoPass(st: Store, since: Option<Instant>, r: RunReply)
    requires (exists id :: id in ListedIds(st.rows)) && forall b: Boundary :: r.clusterListFails(b)
    ensures MergeAll(st, since, r) == Pass(Ledger(st, map[]), false)
  {
    var id :| id in ListedIds(st.rows);
    var bs := Sorted(BoundariesOf(st.rows, ListedIds(st.rows)));
    assert st.rows[id].boundary in BoundariesOf(st.rows, ListedIds(st.rows));
    assert bs != [];
  }

  /** Neither listing may fail, and the threshold must be from 0 to 1 when there is anything to merge: else the
      run ends in an error, and where it does at the first listing or for the threshold, with nothing done. */
  lemma RunFailsWhen(st: Store, cfg: Config, since: Option<Instant>, r: RunReply)
    ensures r.listFails || r.activeListFails ==> Run(st, cfg, since, r).counts.None?
    ensures r.listFails ==> Run(st, cfg, since, r).st == st
    ensures (cfg.mergeThreshold < 0.0 || cfg.mergeThreshold > 1.0) && (exists id :: id in ListedIds(st.rows)) ==>
      Run(st, cfg, since, r).counts.None? && Run(st, cfg, since, r).st == st
  {
    if (cfg.mergeThreshold < 0.0 || cfg.mergeThreshold > 1.0) && exists id :: id in ListedIds(st.rows) {
      var at := AtThreshold(cfg, r);
      forall b: Boundary ensures at.clusterListFails(b) { assert !ThresholdAllowed(cfg.mergeThreshold); }
      NoClustersNoPass(st, since, at);
    }
  }

  /** The cold phase fades before it shelves: a fact due for both leaves the run faded and in the archive. */
  lemma FadedThenShelved(g: Ledger, processed: nat, cfg: Config, r: RunReply, id: MemoryId)
    requires id in g.st.rows && g.st.rows[id].Validates()
    requires id in DecayedIds(g.st.rows, cfg.decayAfterDays, r.decay)
    requires !r.archive.listFails && !r.archive.fails(id)
    requires r.archive.now - g.st.rows[id].lastAccessed >= cfg.archiveAfterDays * 86_400_000_000
    requires g.st.rows[id].validUntil.Some? ==> g.st.rows[id].validUntil.value > r.archive.now
    ensures var m, end := g.st.rows[id], Cool(g, processed, cfg, r).st.rows;
      && id in end
      && end[id] == m.(confidence := 0.9 * m.confidence, metadata := m.metadata.(lastDecayAt := Some(r.decay.now)),
                       archivedAt := Some(r.archive.now))
  {
    FadedIff(g.st, cfg.decayAfterDays, r.decay, id);
    var faded := AfterDecay(g.st, cfg.decayAfterDays, r.decay);
    ShelvedIff(faded, cfg.archiveAfterDays, r.archive, id);
  }

  /** Everything a run keeps, between the vault it finds and one it passes through. */
  ghost predicate Sound(st: Store, next: Store) {
    Forest(next.rows) && Extends(st, next) && Keyed(next.rows)
  }

  lemma MergeAllSound(st: Store, since: Option<Instant>, r: RunReply)
    requires Forest(st.rows) && Keyed(st.rows)
    ensures Sound(st, MergeAll(st, since, r).ledger.st)
  {
    MergePassLaw(Ledger(st, map[]), Sorted(BoundariesOf(st.rows, ListedIds(st.rows))), st.rows, since, r);
  }

  lemma RetireAllSound(st: Store, g: Ledger, since: Option<Instant>, r: RunReply)
    requires Keyed(st.rows) && Sound(st, g.st)
    ensures Sound(st, RetireAll(g, since, r).ledger.st)
  {
    RetireAllLaw(g, since, r);
    ExtendsTransitive(st, g.st, RetireAll(g, since, r).ledger.st);
  }

  lemma CoolSound(st: Store, g: Ledger, processed: nat, cfg: Config, r: RunReply)
    requires Keyed(st.rows) && Sound(st, g.st)
    ensures Sound(st, Cool(g, processed, cfg, r).st)
  {
    CoolLaw(st, g, processed, cfg, r);
  }

  /** One run, however it ends: the links stay a forest, rows only age, vectors stay, and every new
      row's vector is that of its content. */
  lemma RunLaw(st: Store, cfg: Config, since: Option<Instant>, r: RunReply)
    requires Forest(st.rows) && Keyed(st.rows)
    ensures Sound(st, Run(st, cfg, since, r).st)
  {
    RunShape(st, cfg, since, r);
    StaysSound(st);
    var at := AtThreshold(cfg, r);
    var g := MergeAll(st, since, at).ledger;
    MergeAllSound(st, since, at);
    var h := RetireAll(g, since, at).ledger;
    RetireAllSound(st, g, since, at);
    CoolSound(st, h, |ListedIds(st.rows)|, cfg, at);
  }

  lemma StaysSound(st: Store)
    requires Forest(st.rows) && Keyed(st.rows)
    ensures Sound(st, st)
  {
  }

  lemma CoolLaw(st: Store, g: Ledger, processed: nat, cfg: Config, r: RunReply)
    requires Forest(g.st.rows) && Extends(st, g.st)
    ensures var end := Cool(g, processed, cfg, r).st;
      Forest(end.rows) && Extends(st, end)
  {
    var faded := AfterDecay(g.st, cfg.decayAfterDays, r.decay);
    DecayLaw(g.st, cfg.decayAfterDays, r.decay);
    ArchiveLaw(faded, cfg.archiveAfterDays, r.archive);
    ExtendsTransitive(st, g.st, faded);
    ExtendsTransitive(st, faded, AfterArchive(faded, cfg.archiveAfterDays, r.archive));
  }

  /** A run's undo log, applied to the vault the run left, brings back the vault the run found: every
      row exactly, and every vector if each row's vector was what the row says. */
  lemma RunUndo(st: Store, cfg: Config, since: Option<Instant>, r: RunReply, entries: seq<Entry>)
    requires Forest(st.rows) && Keyed(st.rows)
    requires forall id | id in st.rows :: st.rows[id].Validates()
    requires Captures(st.rows, Run(st, cfg, since, r).st.rows, entries)
    ensures var end := Run(st, cfg, since, r).st;
      var back := Undone(st.rows, end, SetOf(Ids(entries)));
      && Applicable(st.rows, end, entries)
      && back.rows == st.rows
      && (forall id | id in st.rows && Faithful(st, id) :: SameVector(st, back, id))
      && (forall id | id in end.rows && id !in st.rows :: id !in back.vectors)
  {
    RunLaw(st, cfg, since, r);
    var end := Run(st, cfg, since, r).st;
    UndoRoundTrip(st, end, entries);
  }
}
