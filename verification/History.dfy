/** The vault and its graph over any number of runs, enrichment passes and saves, and across a
    rollback. */
module History {
  import opened VaultCore
  import opened SortedIds
  import opened Supersession
  import opened Storage
  import opened MergeLaws
  import opened EmbedText
  import opened Checkpoint
  import opened SleepCycle
  import opened RunLaws
  import opened Graph
  import opened Enrichment
  import opened EnrichmentLaws

  /** Rows and vectors, and the graph derived from them. */
  datatype World = World(st: Store, entities: set<Entity>, rels: Rels)

  function StartOf(w: World): Enrichment.Pass {
    Enrichment.Pass(w.st, w.entities, w.rels, EMPTY_REPORT)
  }

  /** What an enrichment pass leaves; it changes nothing when the active facts cannot be listed. */
  function AfterPass(w: World, r: EnrichReply): World {
    if r.listFails then w
    else
      var p := EnrichPass(StartOf(w), r);
      World(p.st, p.entities, p.rels)
  }

  // ---- any number of runs, passes and saves ----

  /** What happens to a vault between rollbacks: runs, complete or failed, the enrichment passes that
      follow them, and saves. */
  datatype Event =
    | RunEvent(since: Option<Instant>, reply: RunReply)
    | EnrichEvent(pass: EnrichReply)
    | SaveEvent(m: Memory, fails: bool)

  /** A save starts a row off with no link and no enrichment. */
  ghost predicate SavesAfresh(e: Event) {
    e.SaveEvent? ==> e.m.supersededBy.None? && e.m.metadata.enrichment.None?
  }

  ghost function Apply(w: World, cfg: Config, e: Event): World {
    match e
    case RunEvent(since, r) => w.(st := Run(w.st, cfg, since, r).st)
    case EnrichEvent(r) => AfterPass(w, r)
    case SaveEvent(m, fails) =>
      match Written(w.st, m, m.content, fails)
      case None => w
      case Some(next) => w.(st := next)
  }

  ghost function Played(w: World, cfg: Config, events: seq<Event>): World
    decreases |events|
  {
    if events == [] then w else Played(Apply(w, cfg, events[0]), cfg, events[1..])
  }

  function Plain(m: Memory): Memory {
    m.(metadata := m.metadata.(enrichment := None))
  }

  /** A row ages, its enrichment aside: that is rewritten as the fact is enriched. */
  ghost predicate Endures(m: Memory, n: Memory) {
    Ages(Plain(m), Plain(n))
  }

  ghost predicate AllEndure(before: Rows, after: Rows) {
    forall id | id in before :: id in after && Endures(before[id], after[id])
  }

  /** What every event keeps. */
  ghost predicate Kept(w: World, next: World) {
    && Forest(next.st.rows) && Keyed(next.st.rows) && AllEndure(w.st.rows, next.st.rows)
    && (AllFaithful(w.st) ==> AllFaithful(next.st))
  }

  lemma ExtendingKeeps(w: World, next: Store)
    requires Keyed(w.st.rows) && Forest(next.rows) && Extends(w.st, next)
    ensures Kept(w, w.(st := next))
  {
  }

  lemma PassKeeps(w: World, r: EnrichReply)
    requires Forest(w.st.rows) && Keyed(w.st.rows)
    ensures Kept(w, AfterPass(w, r))
  {
    if !r.listFails {
      var p, q := StartOf(w), EnrichPass(StartOf(w), r);
      PassKeepsFidelityAndForest(p, r);
      PassLaw(p, r, 0);
      forall id | id in w.st.rows ensures q.st.rows[id].id == id && Endures(w.st.rows[id], q.st.rows[id]) {
        PassLaw(p, r, id);
      }
    }
  }

  lemma EventKeeps(w: World, cfg: Config, e: Event)
    requires Forest(w.st.rows) && Keyed(w.st.rows) && SavesAfresh(e)
    ensures Kept(w, Apply(w, cfg, e))
  {
    match e
    case RunEvent(since, r) =>
      RunLaw(w.st, cfg, since, r);
      ExtendingKeeps(w, Run(w.st, cfg, since, r).st);
    case EnrichEvent(r) => PassKeeps(w, r);
    case SaveEvent(m, fails) =>
      match Written(w.st, m, m.content, fails)
      case None =>
      case Some(next) =>
        WrittenLaw(w.st, m, m.content, fails, next);
        ExtendingKeeps(w, next);
  }

  lemma KeptTransitive(a: World, b: World, c: World)
    requires Kept(a, b) && Kept(b, c)
    ensures Kept(a, c)
  {
  }

  lemma {:induction false} HistoryLaw(w: World, cfg: Config, events: seq<Event>)
    requires Forest(w.st.rows) && Keyed(w.st.rows)
    requires forall e | e in events :: SavesAfresh(e)
    ensures Kept(w, Played(w, cfg, events))
    decreases |events|
  {
    if events != [] {
      assert events[0] in events;
      var next := Apply(w, cfg, events[0]);
      EventKeeps(w, cfg, events[0]);
      HistoryLaw(next, cfg, events[1..]);
      KeptTransitive(w, next, Played(next, cfg, events[1..]));
    }
  }

  /** No memory is ever lost: after any sequence of runs, enrichment passes and saves, a memory that was
      in the vault is in it still, saying the same thing in the same boundary, superseded at most by the
      row it was already superseded by, and its chain of supersessions ends at a row that is not
      superseded, in its boundary, without ever coming back on itself. */
  lemma NoMemoryIsLost(w: World, cfg: Config, events: seq<Event>, id: MemoryId)
    requires Forest(w.st.rows) && Keyed(w.st.rows) && id in w.st.rows
    requires forall e | e in events :: SavesAfresh(e)
    ensures var end := Played(w, cfg, events).st;
      && id in end.rows && Endures(w.st.rows[id], end.rows[id])
      && exists p :: ChainFrom(end.rows, id, p) && forall i, j | 0 <= i < j < |p| :: p[i] != p[j]
  {
    HistoryLaw(w, cfg, events);
    var end := Played(w, cfg, events).st;
    ForestIffChainsEnd(end.rows);
    var p :| ChainFrom(end.rows, id, p);
    forall i, j | 0 <= i < j < |p| ensures p[i] != p[j] {
      ForestIsAcyclic(end.rows, id, p, i, j);
    }
  }

  /** Vectors never come apart from their rows: what was faithful stays so, everything saved or merged
      is, and so is everything enriched, its vector and its row rewritten together. */
  lemma HistoryKeepsFidelity(w: World, cfg: Config, events: seq<Event>)
    requires Forest(w.st.rows) && Keyed(w.st.rows) && AllFaithful(w.st)
    requires forall e | e in events :: SavesAfresh(e)
    ensures AllFaithful(Played(w, cfg, events).st)
  {
    HistoryLaw(w, cfg, events);
  }

  // ---- a rollback after an enrichment pass ----

  ghost function RolledBack(w: World, before: Rows, entries: seq<Entry>): World {
    w.(st := Undone(before, w.st, SetOf(Ids(entries))))
  }

  /** The pass after a run ended the links of a fact the run took out of use. */
  predicate Reconciled(r: EnrichReply, id: MemoryId) {
    !r.listFails && !r.fullListFails && !r.reconcileFails(id)
  }

  lemma PassOverIdle(w: World, r: EnrichReply, id: MemoryId)
    requires Keyed(w.st.rows) && id in w.st.rows && id !in ActiveIds(w.st.rows)
    ensures var next := AfterPass(w, r);
      && next.st.rows.Keys == w.st.rows.Keys && Keyed(next.st.rows)
      && LiveLinks(next.rels, id) == if Reconciled(r, id) then multiset{} else LiveLinks(w.rels, id)
  {
    if !r.listFails {
      PassLaw(StartOf(w), r, id);
      forall k | k in w.st.rows ensures EnrichPass(StartOf(w), r).st.rows[k].id == k { PassLaw(StartOf(w), r, k); }
    }
  }

  lemma PassOverEnriched(w: World, r: EnrichReply, id: MemoryId)
    requires Keyed(w.st.rows) && id in ActiveIds(w.st.rows) && EnrichedForCurrentContent(w.st.rows[id])
    ensures var next := AfterPass(w, r);
      id in next.st.rows && next.st.rows[id] == w.st.rows[id] && LiveLinks(next.rels, id) == LiveLinks(w.rels, id)
  {
    if !r.listFails { PassLaw(StartOf(w), r, id); }
  }

  lemma BackAsBefore(before: Rows, st: Store, ids: set<MemoryId>, id: MemoryId)
    requires Keyed(before) && Keyed(st.rows) && id in before && id in ids && id in st.rows
    ensures Keyed(UndoneRows(before, st.rows, ids))
    ensures id in UndoneRows(before, st.rows, ids) && UndoneRows(before, st.rows, ids)[id] == before[id]
  {
  }

  /** A rollback does not bring back the graph. An enriched fact that a run took out of use, that the
      pass after it reconciled and that the run's undo log brings back is in use again exactly as
      before, and the next pass takes it for done: it has the links it had exactly when it had none, or
      its reconciliation failed or was never reached; otherwise it has none, and none return. */
  lemma ReturningFactRelinkedIff(w: World, cfg: Config, since: Option<Instant>, r: RunReply, entries: seq<Entry>,
                                 first: EnrichReply, again: EnrichReply, id: MemoryId)
    requires Forest(w.st.rows) && Keyed(w.st.rows)
    requires id in ActiveIds(w.st.rows) && EnrichedForCurrentContent(w.st.rows[id])
    requires id !in ActiveIds(Run(w.st, cfg, since, r).st.rows)
    requires Captures(w.st.rows, Run(w.st, cfg, since, r).st.rows, entries)
    ensures var tidied := AfterPass(w.(st := Run(w.st, cfg, since, r).st), first);
      var end := AfterPass(RolledBack(tidied, w.st.rows, entries), again);
      && id in end.st.rows && end.st.rows[id] == w.st.rows[id]
      && (LiveLinks(end.rels, id) == LiveLinks(w.rels, id) <==> LiveLinks(w.rels, id) == multiset{} || !Reconciled(first, id))
      && (Reconciled(first, id) ==> LiveLinks(end.rels, id) == multiset{})
  {
    var run := w.(st := Run(w.st, cfg, since, r).st);
    RunLaw(w.st, cfg, since, r);
    assert Changed(w.st.rows, run.st.rows, id);
    PassOverIdle(run, first, id);
    var tidied := AfterPass(run, first);
    assert id in ChangedIds(w.st.rows, run.st.rows);
    BackAsBefore(w.st.rows, tidied.st, SetOf(Ids(entries)), id);
    PassOverEnriched(RolledBack(tidied, w.st.rows, entries), again, id);
  }
}
