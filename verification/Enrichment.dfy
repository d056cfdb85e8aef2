/** The enrichment pass: alias lines, the vectors that carry them, and the graph kept in step with
    the active facts. */
module Enrichment {
  import opened VaultCore
  import opened SortedIds
  import opened Supersession
  import opened Storage
  import opened EmbedText
  import opened Graph

  datatype Answer = Answer(aliasLine: string, extracted: Extraction)

  /** What the outside does while one fact is enriched. No answer: the model or the embedder
      failed, or no alias was usable. */
  datatype FactReply = FactReply(
    answer: Option<Answer>,
    updateFails: bool,
    retireFails: bool,
    entityFails: NamedEntity -> bool,
    linkFails: NamedLink -> bool)

  /** `key` is how names are matched: trimmed and lower-cased. */
  datatype EnrichReply = EnrichReply(
    listFails: bool,
    fact: MemoryId -> FactReply,
    key: string -> string,
    fullListFails: bool,
    reconcileFails: MemoryId -> bool)

  datatype EnrichReport = EnrichReport(
    enriched: nat,
    skipped: nat,
    failed: nat,
    entitiesCreated: nat,
    entitiesReused: nat,
    linksCreated: nat,
    linksFailed: nat,
    linksRetired: nat,
    graphWriteFailures: nat)

  const EMPTY_REPORT := EnrichReport(0, 0, 0, 0, 0, 0, 0, 0, 0)

  /** The vault, its graph and the counts as the pass goes along. */
  datatype Pass = Pass(st: Store, entities: set<Entity>, rels: Rels, report: EnrichReport)

  function Enriched(m: Memory, aliasLine: string): Memory {
    m.(metadata := m.metadata.(enrichment := Some(Enrichment(aliasLine, ContentFingerprint(m.content)))))
  }

  // ---- one fact ----

  function AfterRetire(rels: Rels, id: MemoryId, fails: bool): Rels {
    if fails then rels else RetireFrom(rels, id)
  }

  function RetiredCount(rels: Rels, id: MemoryId, fails: bool): nat {
    if fails then 0 else |LiveLinks(rels, id)|
  }

  /** The prior links end, then the new extraction is written. An entity that cannot be created stops
      the write before any link, and what was created is not counted. */
  function GraphPart(p: Pass, m: Memory, x: Extraction, r: FactReply, key: string -> string): Pass {
    var rels := AfterRetire(p.rels, m.id, r.retireFails);
    var report := p.report.(linksRetired := p.report.linksRetired + RetiredCount(p.rels, m.id, r.retireFails));
    if x.entities == [] then p.(rels := rels, report := report)
    else
      var (n, ok) := Register(Names(p.entities, map[], 0, 0), x.entities, m.boundary, key, r.entityFails);
      if !ok then Pass(p.st, n.entities, rels, report.(graphWriteFailures := report.graphWriteFailures + 1))
      else
        var rows := LinkRows(n.known, x.links, m.id, key, r.linkFails);
        LinkRowsAreMeant(n.known, x.links, m.id, key, r.linkFails, m.id);
        Pass(p.st, n.entities, rels + rows,
             report.(entitiesCreated := report.entitiesCreated + n.created,
                     entitiesReused := report.entitiesReused + n.reused,
                     linksCreated := report.linksCreated + |rows|,
                     linksFailed := report.linksFailed + (|x.links| - |rows|)))
  }

  function EnrichFact(p: Pass, m: Memory, r: FactReply, key: string -> string): Pass {
    if EnrichedForCurrentContent(m) then p.(report := p.report.(skipped := p.report.skipped + 1))
    else if r.answer.None? then p.(report := p.report.(failed := p.report.failed + 1))
    else
      var a := r.answer.value;
      match Updated(p.st, Enriched(m, a.aliasLine), ComposeEmbedText(m.content, a.aliasLine), r.updateFails)
      case None => p.(report := p.report.(failed := p.report.failed + 1))
      case Some(st) =>
        GraphPart(p.(st := st, report := p.report.(enriched := p.report.enriched + 1)), m, a.extracted, r, key)
  }

  // ---- the pass ----

  function EnrichAll(p: Pass, rows: Rows, ids: seq<MemoryId>, r: EnrichReply): Pass
    requires SetOf(ids) <= rows.Keys
    decreases |ids|
  {
    if ids == [] then p
    else
      assert ids[0] in SetOf(ids) && SetOf(ids[1..]) <= SetOf(ids);
      EnrichAll(EnrichFact(p, rows[ids[0]], r.fact(ids[0]), r.key), rows, ids[1..], r)
  }

  function ReconcileOne(p: Pass, id: MemoryId, fails: bool): Pass {
    p.(rels := AfterRetire(p.rels, id, fails),
       report := p.report.(linksRetired := p.report.linksRetired + RetiredCount(p.rels, id, fails)))
  }

  function Reconcile(p: Pass, ids: seq<MemoryId>, fails: MemoryId -> bool): Pass
    decreases |ids|
  {
    if ids == [] then p else Reconcile(ReconcileOne(p, ids[0], fails(ids[0])), ids[1..], fails)
  }

  /** The whole pass over a vault that could be listed. */
  function EnrichPass(p: Pass, r: EnrichReply): Pass {
    var active := ActiveIds(p.st.rows);
    var filled := EnrichAll(p, p.st.rows, Sorted(active), r);
    if r.fullListFails then filled
    else Reconcile(filled, Sorted(filled.st.rows.Keys - active), r.reconcileFails)
  }

  /** The pass against the open vault and graph. */
  class Enricher {
    const storage: StorageBackend
    const graph: GraphStore

    constructor (storage: StorageBackend, graph: GraphStore)
      ensures this.storage == storage && this.graph == graph
    {
      this.storage, this.graph := storage, graph;
    }

    function Snap(report: EnrichReport): Pass
      reads storage, graph
    {
      Pass(storage.View(), graph.entities, graph.rels, report)
    }

    method FillGraph(report: EnrichReport, m: Memory, x: Extraction, r: FactReply, key: string -> string)
      returns (next: EnrichReport)
      modifies graph
      ensures storage.View() == old(storage.View())
      ensures Snap(next) == GraphPart(old(Snap(report)), m, x, r, key)
    {
      next := report;
      var n := graph.RetireRelationships(m.id, r.retireFails);
      if n.Some? { next := next.(linksRetired := next.linksRetired + n.value); }
      if x.entities == [] { return; }
      var names, ok := graph.RegisterAll(x.entities, m.boundary, key, r.entityFails);
      if !ok {
        next := next.(graphWriteFailures := next.graphWriteFailures + 1);
        return;
      }
      var created, failed := graph.CreateRelationships(names.known, x.links, m.id, key, r.linkFails);
      next := next.(entitiesCreated := next.entitiesCreated + names.created,
                    entitiesReused := next.entitiesReused + names.reused,
                    linksCreated := next.linksCreated + created,
                    linksFailed := next.linksFailed + failed);
    }

    method EnrichOne(report: EnrichReport, m: Memory, r: FactReply, key: string -> string) returns (next: EnrichReport)
      modifies storage, graph
      ensures Snap(next) == EnrichFact(old(Snap(report)), m, r, key)
    {
      if EnrichedForCurrentContent(m) { return report.(skipped := report.skipped + 1); }
      if r.answer.None? { return report.(failed := report.failed + 1); }
      var a := r.answer.value;
      var ok := storage.UpdateMemory(Enriched(m, a.aliasLine), ComposeEmbedText(m.content, a.aliasLine), r.updateFails);
      if !ok { return report.(failed := report.failed + 1); }
      next := FillGraph(report.(enriched := report.enriched + 1), m, a.extracted, r, key);
    }

    method EnrichActive(rows: Rows, active: seq<MemoryId>, r: EnrichReply) returns (counts: EnrichReport)
      requires SetOf(active) <= rows.Keys
      modifies storage, graph
      ensures Snap(counts) == EnrichAll(old(Snap(EMPTY_REPORT)), rows, active, r)
    {
      counts := EMPTY_REPORT;
      for i := 0 to |active|
        invariant SetOf(active[i..]) <= rows.Keys
        invariant EnrichAll(Snap(counts), rows, active[i..], r) == EnrichAll(old(Snap(EMPTY_REPORT)), rows, active, r)
      {
        assert active[i..][0] == active[i] && active[i..][1..] == active[i + 1..];
        assert active[i] in SetOf(active[i..]) && SetOf(active[i + 1..]) <= SetOf(active[i..]);
        counts := EnrichOne(counts, rows[active[i]], r.fact(active[i]), r.key);
      }
    }

    method ReconcileEach(report: EnrichReport, ids: seq<MemoryId>, fails: MemoryId -> bool) returns (counts: EnrichReport)
      modifies graph
      ensures storage.View() == old(storage.View())
      ensures Snap(counts) == Reconcile(old(Snap(report)), ids, fails)
    {
      counts := report;
      for i := 0 to |ids|
        invariant storage.View() == old(storage.View())
        invariant Reconcile(Snap(counts), ids[i..], fails) == Reconcile(old(Snap(report)), ids, fails)
      {
        assert ids[i..][0] == ids[i] && ids[i..][1..] == ids[i + 1..];
        ghost var p := Snap(counts);
        var n := graph.RetireRelationships(ids[i], fails(ids[i]));
        if n.Some? { counts := counts.(linksRetired := counts.linksRetired + n.value); }
        assert Snap(counts) == ReconcileOne(p, ids[i], fails(ids[i]));
      }
    }

    /** `None` only when the active facts cannot be listed; every other failure is counted. */
    method EnrichFacts(r: EnrichReply) returns (report: Option<EnrichReport>)
      modifies storage, graph
      ensures report.None? <==> r.listFails
      ensures report.None? ==> Snap(EMPTY_REPORT) == old(Snap(EMPTY_REPORT))
      ensures report.Some? ==> Snap(report.value) == EnrichPass(old(Snap(EMPTY_REPORT)), r)
    {
      if r.listFails { return None; }
      var rows := storage.rows;
      var counts := EnrichActive(rows, Sorted(ActiveIds(rows)), r);
      if !r.fullListFails {
        counts := ReconcileEach(counts, Sorted(storage.rows.Keys - ActiveIds(rows)), r.reconcileFails);
      }
      report := Some(counts);
    }
  }
}
