/** One run under the safety wrapper: the lock, the mark, the sleep cycle, the enrichment pass, the reports
    and the advance. */
module SafeRun {
  import opened VaultCore
  import opened SortedIds
  import opened Supersession
  import opened Storage
  import opened SleepCycle
  import opened Graph
  import opened Enrichment
  import opened History
  import opened Coverage
  import opened Watermark

  /** Where the hard timeout strikes, if it does. */
  datatype Cut = NoCut | BeforeRun | AfterRun | AfterEnrichment | AfterReports

  datatype WrapperReply = WrapperReply(readFails: bool, run: RunReply, enrich: EnrichReply, reportsFail: bool, cut: Cut, advanceFails: bool)

  function Ran(w: World, st: Store): World {
    w.(st := st)
  }

  /** What a run leaves behind, and the pass after it unless the run ended in an error. */
  ghost function RunThenPass(w: World, end: RunEnd, pass: EnrichReply): World {
    if end.counts.None? then Ran(w, end.st) else AfterPass(Ran(w, end.st), pass)
  }

  /** What the pipeline leaves behind, however far it gets. */
  ghost function Pipeline(w: World, cfg: Config, since: Option<Instant>, r: WrapperReply): World {
    if r.cut.BeforeRun? then w
    else if r.cut.AfterRun? then Ran(w, Run(w.st, cfg, since, r.run).st)
    else RunThenPass(w, Run(w.st, cfg, since, r.run), r.enrich)
  }

  /** Every stage comes to its end. */
  ghost predicate Completes(st: Store, cfg: Config, since: Option<Instant>, r: WrapperReply) {
    r.cut.NoCut? && Run(st, cfg, since, r.run).counts.Some? && !r.enrich.listFails && !r.reportsFail
  }

  /** The stored mark, the cross-process lock, and the two passes over the vault. */
  class SafetyWrapper {
    const consolidator: Consolidator
    const enricher: Enricher
    var watermark: Option<Instant>
    var locked: bool

    constructor (consolidator: Consolidator, enricher: Enricher)
      ensures this.consolidator == consolidator && this.enricher == enricher
      ensures watermark.None? && !locked
    {
      this.consolidator, this.enricher := consolidator, enricher;
      watermark, locked := None, false;
    }

    function View(): World
      reads consolidator.storage, enricher.graph
    {
      World(consolidator.storage.View(), enricher.graph.entities, enricher.graph.rels)
    }

    /** `since` is what the run was scoped to. A refused run does nothing; one that fails or is cut short
        keeps what it did and moves nothing; one that completes has examined every active fact it found
        that is not behind the mark it was scoped to, and only then may the mark move, to its start. */
    method RunUnderSafety(now: Instant, r: WrapperReply) returns (since: Option<Option<Instant>>, report: Option<Report>)
      requires enricher.storage == consolidator.storage && Keyed(consolidator.storage.rows)
      modifies this, consolidator.storage, enricher.graph
      ensures locked == old(locked)
      ensures old(locked) ==> since.None? && report.None? && watermark == old(watermark) && View() == old(View())
      ensures !old(locked) ==>
        && since == Some(if r.readFails then None else old(watermark))
        && View() == Pipeline(old(View()), consolidator.config, since.value, r)
        && (report.Some? <==> Completes(old(View()).st, consolidator.config, since.value, r))
        && (report.Some? ==> report.value == ReportOf(Run(old(View()).st, consolidator.config, since.value, r.run).counts.value))
        && watermark == (if report.Some? && !r.advanceFails then Some(now) else old(watermark))
        && (report.Some? ==> r.cut == NoCut && !r.enrich.listFails && !r.reportsFail)
      ensures report.Some? && Forest(old(View()).st.rows) ==>
        var st := old(View()).st;
        forall id | id in ActiveIds(st.rows) && !Behind(since.value, st.rows[id].createdAt) ::
          Examined(st, since.value, AtThreshold(consolidator.config, r.run), id)
    {
      report := None;
      if locked { return None, None; }
      locked := true;
      var start := now;
      var mark := if r.readFails then None else watermark;
      since := Some(mark);
      ghost var st := View().st;
      if r.cut.BeforeRun? {
        locked := false;
        return;
      }
      var ran := consolidator.RunConsolidation(mark, r.run);
      if ran.Failed? || r.cut.AfterRun? {
        locked := false;
        return;
      }
      var enriched := enricher.EnrichFacts(r.enrich);
      if enriched.None? || r.cut.AfterEnrichment? || r.reportsFail || r.cut.AfterReports? {
        locked := false;
        return;
      }
      if Forest(st.rows) { ScopeIsExamined(st, consolidator.config, mark, r.run); }
      if !r.advanceFails { watermark := Some(start); }
      report := Some(ran.report);
      locked := false;
    }
  }

  /** The headless schedule: the same run without the lock, the timeout and the reports, and with a failed
      enrichment pass only logged. */
  class HeadlessSchedule {
    const consolidator: Consolidator
    const enricher: Enricher
    var watermark: Option<Instant>

    constructor (consolidator: Consolidator, enricher: Enricher)
      ensures this.consolidator == consolidator && this.enricher == enricher && watermark.None?
    {
      this.consolidator, this.enricher, watermark := consolidator, enricher, None;
    }

    function View(): World
      reads consolidator.storage, enricher.graph
    {
      World(consolidator.storage.View(), enricher.graph.entities, enricher.graph.rels)
    }

    /** One night. The mark moves whenever the run completes, its enrichment or not; what it moves past was
        examined all the same, and enrichment does not go by the mark. */
    method Night(now: Instant, r: WrapperReply) returns (since: Option<Instant>, ok: bool)
      requires enricher.storage == consolidator.storage && Keyed(consolidator.storage.rows)
      modifies this, consolidator.storage, enricher.graph
      ensures since == if r.readFails then None else old(watermark)
      ensures View() == RunThenPass(old(View()), Run(old(View()).st, consolidator.config, since, r.run), r.enrich)
      ensures ok <==> Run(old(View()).st, consolidator.config, since, r.run).counts.Some?
      ensures watermark == if ok && !r.advanceFails then Some(now) else old(watermark)
      ensures ok && Forest(old(View()).st.rows) ==>
        var st := old(View()).st;
        forall id | id in ActiveIds(st.rows) && !Behind(since, st.rows[id].createdAt) ::
          Examined(st, since, AtThreshold(consolidator.config, r.run), id)
    {
      since := if r.readFails then None else watermark;
      ghost var st := View().st;
      ghost var before := View();
      var ran := consolidator.RunConsolidation(since, r.run);
      ghost var mid := View();
      assert mid == Ran(before, Run(st, consolidator.config, since, r.run).st);
      if ran.Failed? { return since, false; }
      var enriched := enricher.EnrichFacts(r.enrich);
      assert View() == AfterPass(mid, r.enrich);
      if Forest(st.rows) { ScopeIsExamined(st, consolidator.config, since, r.run); }
      if !r.advanceFails { watermark := Some(now); }
      ok := true;
    }
  }

  lemma ScopeIsExamined(st: Store, cfg: Config, since: Option<Instant>, r: RunReply)
    requires Forest(st.rows) && Keyed(st.rows) && Run(st, cfg, since, r).counts.Some?
    ensures forall id | id in ActiveIds(st.rows) && !Behind(since, st.rows[id].createdAt) ::
      Examined(st, since, AtThreshold(cfg, r), id)
  {
    forall id | id in ActiveIds(st.rows) && !Behind(since, st.rows[id].createdAt)
      ensures Examined(st, since, AtThreshold(cfg, r), id)
    {
      CompletedRunExamines(st, cfg, since, r, id);
    }
  }

  /** The active facts as the interleaved history sees them. */
  function FactsOf(rows: Rows): map<MemoryId, Fact> {
    map id | id in ActiveIds(rows) :: Fact(rows[id].createdAt, rows[id].boundary)
  }

  /** What that history takes a boundary's listing to find is what the run seeds the boundary with. */
  lemma ScopeIsSeeds(rows: Rows, b: Boundary, since: Option<Instant>)
    ensures InScope(FactsOf(rows), b, since) == SeedsIn(rows, b, since)
  {
  }
}
