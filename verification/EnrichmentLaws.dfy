/** What an enrichment pass guarantees about the graph, the vectors and the next pass. */
module EnrichmentLaws {
  import opened VaultCore
  import opened SortedIds
  import opened Supersession
  import opened Storage
  import opened MergeLaws
  import opened EmbedText
  import opened Graph
  import opened Enrichment

  // ---- one fact's links ----

  /** What each name of an extraction stands for: the last entity listed under it. */
  function KnownNames(known: map<string, Entity>, ents: seq<NamedEntity>, b: Boundary, key: string -> string): map<string, Entity>
    decreases |ents|
  {
    if ents == [] then known
    else KnownNames(known[key(ents[0].name) := Entity(ents[0].name, ents[0].kind, b)], ents[1..], b, key)
  }

  lemma {:induction false} RegisterExact(n: Names, ents: seq<NamedEntity>, b: Boundary, key: string -> string, fails: NamedEntity -> bool)
    ensures var (q, ok) := Register(n, ents, b, key, fails);
      && (ok <==> forall e | e in ents :: !fails(e))
      && (ok ==> q.known == KnownNames(n.known, ents, b, key))
    decreases |ents|
  {
    if ents != [] {
      assert ents[0] in ents && forall e :: e in ents <==> e == ents[0] || e in ents[1..];
      if !fails(ents[0]) { RegisterExact(AddName(n, ents[0], b, key), ents[1..], b, key, fails); }
    }
  }

  /** The links an extraction of `m` means. */
  function LatestLinks(m: Memory, x: Extraction, key: string -> string): multiset<Link> {
    if x.entities == [] then multiset{} else MeantLinks(KnownNames(map[], x.entities, m.boundary, key), x.links, key)
  }

  /** The links the write leaves, given what fails. */
  function WrittenLinks(m: Memory, x: Extraction, r: FactReply, key: string -> string): multiset<Link> {
    if x.entities == [] || exists e | e in x.entities :: r.entityFails(e) then multiset{}
    else LiveLinks(LinkRows(KnownNames(map[], x.entities, m.boundary, key), x.links, m.id, key, r.linkFails), m.id)
  }

  function LinksAfter(before: multiset<Link>, m: Memory, x: Extraction, r: FactReply, key: string -> string): multiset<Link> {
    (if r.retireFails then before else multiset{}) + WrittenLinks(m, x, r, key)
  }

  /** Writing one fact's extraction gives it exactly these links and leaves every other fact's. */
  lemma GraphPartLinks(p: Pass, m: Memory, x: Extraction, r: FactReply, key: string -> string, other: MemoryId)
    ensures var q := GraphPart(p, m, x, r, key);
      && q.st == p.st
      && LiveLinks(q.rels, other) ==
           (if other == m.id then LinksAfter(LiveLinks(p.rels, other), m, x, r, key) else LiveLinks(p.rels, other))
      && q.report.enriched == p.report.enriched && q.report.skipped == p.report.skipped && q.report.failed == p.report.failed
  {
    RetireEmpties(p.rels, m.id, other);
    if x.entities != [] {
      RegisterExact(Names(p.entities, map[], 0, 0), x.entities, m.boundary, key, r.entityFails);
      var (n, ok) := Register(Names(p.entities, map[], 0, 0), x.entities, m.boundary, key, r.entityFails);
      if ok {
        var rows := LinkRows(n.known, x.links, m.id, key, r.linkFails);
        LinkRowsAreMeant(n.known, x.links, m.id, key, r.linkFails, other);
        LiveLinksConcat(AfterRetire(p.rels, m.id, r.retireFails), rows, other);
      }
    }
  }

  ghost predicate WritesThrough(x: Extraction, r: FactReply) {
    (forall e | e in x.entities :: !r.entityFails(e)) && (forall l | l in x.links :: !r.linkFails(l))
  }

  /** With every entity and link written, a re-enriched fact's live links are its latest extraction
      exactly when its prior links were ended, or it had none. */
  lemma LatestIff(before: multiset<Link>, m: Memory, x: Extraction, r: FactReply, key: string -> string)
    requires WritesThrough(x, r)
    ensures LinksAfter(before, m, x, r, key) == LatestLinks(m, x, key) <==> !r.retireFails || before == multiset{}
  {
    if x.entities != [] {
      LinkRowsAreMeant(KnownNames(map[], x.entities, m.boundary, key), x.links, m.id, key, r.linkFails, m.id);
    }
    assert WrittenLinks(m, x, r, key) == LatestLinks(m, x, key);
    if r.retireFails {
      assert (before + LatestLinks(m, x, key)) - LatestLinks(m, x, key) == before;
      assert LatestLinks(m, x, key) - LatestLinks(m, x, key) == multiset{};
    }
  }

  // ---- the active facts ----

  predicate Refreshes(m: Memory, r: FactReply) {
    && !EnrichedForCurrentContent(m) && r.answer.Some? && !r.updateFails
    && Enriched(m, r.answer.value.aliasLine).Validates()
  }

  ghost predicate Undisturbed(p: Pass, q: Pass, id: MemoryId) {
    && (id in p.st.rows <==> id in q.st.rows) && (id in p.st.rows ==> q.st.rows[id] == p.st.rows[id])
    && SameVector(p.st, q.st, id)
    && LiveLinks(q.rels, id) == LiveLinks(p.rels, id)
  }

  /** A fact that was refreshed carries its alias line, in its metadata and in its vector, and the
      links of its extraction; any other fact is as it was. */
  ghost predicate Settled(p: Pass, q: Pass, m: Memory, r: FactReply, key: string -> string) {
    if Refreshes(m, r) then
      var a := r.answer.value;
      && m.id in q.st.rows && q.st.rows[m.id] == Enriched(m, a.aliasLine)
      && m.id in q.st.vectors && q.st.vectors[m.id] == ComposeEmbedText(m.content, a.aliasLine)
      && LiveLinks(q.rels, m.id) == LinksAfter(LiveLinks(p.rels, m.id), m, a.extracted, r, key)
    else Undisturbed(p, q, m.id)
  }

  function Handled(r: EnrichReport): nat {
    r.enriched + r.skipped + r.failed
  }

  lemma FactLaw(p: Pass, m: Memory, r: FactReply, key: string -> string)
    requires m.id in p.st.rows && p.st.rows[m.id] == m
    ensures var q := EnrichFact(p, m, r, key);
      && q.st.rows.Keys == p.st.rows.Keys && Handled(q.report) == Handled(p.report) + 1
      && Settled(p, q, m, r, key)
      && q.report.failed >= p.report.failed
      && (q.report.failed == p.report.failed ==> EnrichedForCurrentContent(m) || Refreshes(m, r))
  {
    if Refreshes(m, r) {
      var a := r.answer.value;
      var st := Updated(p.st, Enriched(m, a.aliasLine), ComposeEmbedText(m.content, a.aliasLine), r.updateFails).value;
      GraphPartLinks(p.(st := st, report := p.report.(enriched := p.report.enriched + 1)), m, a.extracted, r, key, m.id);
    }
  }

  lemma OthersUndisturbed(p: Pass, m: Memory, r: FactReply, key: string -> string, other: MemoryId)
    requires m.id in p.st.rows && other != m.id
    ensures Undisturbed(p, EnrichFact(p, m, r, key), other)
  {
    if Refreshes(m, r) {
      var a := r.answer.value;
      var st := Updated(p.st, Enriched(m, a.aliasLine), ComposeEmbedText(m.content, a.aliasLine), r.updateFails).value;
      GraphPartLinks(p.(st := st, report := p.report.(enriched := p.report.enriched + 1)), m, a.extracted, r, key, other);
    }
  }

  /** Facts still to come are as the enumeration found them. */
  ghost predicate StillAsListed(p: Pass, rows: Rows, ids: set<MemoryId>) {
    forall id | id in ids :: id in rows && rows[id].id == id && id in p.st.rows && p.st.rows[id] == rows[id]
  }

  lemma {:induction false} EnrichAllLaw(p: Pass, rows: Rows, ids: seq<MemoryId>, r: EnrichReply, id: MemoryId)
    requires Distinct(ids) && SetOf(ids) <= rows.Keys && StillAsListed(p, rows, SetOf(ids))
    ensures var q := EnrichAll(p, rows, ids, r);
      && q.st.rows.Keys == p.st.rows.Keys && Handled(q.report) == Handled(p.report) + |ids|
      && (if id in SetOf(ids) then Settled(p, q, rows[id], r.fact(id), r.key) else Undisturbed(p, q, id))
      && q.report.failed >= p.report.failed
      && (q.report.failed == p.report.failed && id in SetOf(ids) ==>
           EnrichedForCurrentContent(rows[id]) || Refreshes(rows[id], r.fact(id)))
    decreases |ids|
  {
    if ids != [] {
      HeadTail(ids);
      var m := rows[ids[0]];
      var q := EnrichFact(p, m, r.fact(ids[0]), r.key);
      FactLaw(p, m, r.fact(ids[0]), r.key);
      forall k | k in SetOf(ids[1..]) ensures k in q.st.rows && q.st.rows[k] == rows[k] {
        OthersUndisturbed(p, m, r.fact(ids[0]), r.key, k);
      }
      EnrichAllLaw(q, rows, ids[1..], r, id);
      var s := EnrichAll(q, rows, ids[1..], r);
      if id == ids[0] {
      } else {
        OthersUndisturbed(p, m, r.fact(ids[0]), r.key, id);
      }
    }
  }

  lemma {:induction false} ReconcileLaw(p: Pass, ids: seq<MemoryId>, fails: MemoryId -> bool, id: MemoryId)
    ensures var q := Reconcile(p, ids, fails);
      && q.st == p.st && q.entities == p.entities
      && q.report.failed == p.report.failed && Handled(q.report) == Handled(p.report)
      && LiveLinks(q.rels, id) == if id in SetOf(ids) && !fails(id) then multiset{} else LiveLinks(p.rels, id)
    decreases |ids|
  {
    if ids != [] {
      assert ids == [ids[0]] + ids[1..];
      RetireEmpties(p.rels, ids[0], id);
      ReconcileLaw(ReconcileOne(p, ids[0], fails(ids[0])), ids[1..], fails, id);
    }
  }

  // ---- the whole pass ----

  /** A pass, whatever fails: every active fact is counted once and settled; a fact that is not
      active has no live link left unless its retirement failed; a fact whose row is gone keeps the
      links it had, for good. */
  lemma PassLaw(p: Pass, r: EnrichReply, id: MemoryId)
    requires Keyed(p.st.rows)
    ensures var active := ActiveIds(p.st.rows);
      var q := EnrichPass(p, r);
      && q.st.rows.Keys == p.st.rows.Keys
      && Handled(q.report) == Handled(p.report) + |active|
      && (id in active ==> Settled(p, q, p.st.rows[id], r.fact(id), r.key))
      && (id !in active ==>
            && (id in p.st.rows ==> q.st.rows[id] == p.st.rows[id]) && SameVector(p.st, q.st, id)
            && LiveLinks(q.rels, id) ==
                 if id in p.st.rows && !r.fullListFails && !r.reconcileFails(id) then multiset{} else LiveLinks(p.rels, id))
      && (q.report.failed == p.report.failed && id in active ==> EnrichedForCurrentContent(q.st.rows[id]))
  {
    var active := ActiveIds(p.st.rows);
    var ids := Sorted(active);
    EnrichAllLaw(p, p.st.rows, ids, r, id);
    var filled := EnrichAll(p, p.st.rows, ids, r);
    var rest := filled.st.rows.Keys - active;
    ReconcileLaw(filled, Sorted(rest), r.reconcileFails, id);
  }

  /** No call of the pass fails. */
  ghost predicate NothingFails(rows: Rows, r: EnrichReply) {
    && !r.listFails && !r.fullListFails
    && (forall id | id in rows :: !r.reconcileFails(id))
    && forall id | id in rows && rows[id].Active() && !EnrichedForCurrentContent(rows[id]) ::
        Refreshes(rows[id], r.fact(id)) && !r.fact(id).retireFails && WritesThrough(r.fact(id).answer.value.extracted, r.fact(id))
  }

  /** With no failed call, every live link whose fact is still in the vault belongs to an active
      fact, and a fact enriched by this pass has exactly the links of its latest extraction. */
  lemma GraphFollowsActiveFacts(p: Pass, r: EnrichReply, id: MemoryId)
    requires Keyed(p.st.rows) && NothingFails(p.st.rows, r) && id in p.st.rows
    ensures var q := EnrichPass(p, r);
      && id in q.st.rows
      && (LiveLinks(q.rels, id) != multiset{} ==> q.st.rows[id].Active() && EnrichedForCurrentContent(q.st.rows[id]))
      && (p.st.rows[id].Active() && !EnrichedForCurrentContent(p.st.rows[id]) ==>
            LiveLinks(q.rels, id) == LatestLinks(p.st.rows[id], r.fact(id).answer.value.extracted, r.key))
  {
    PassLaw(p, r, id);
    var m := p.st.rows[id];
    if m.Active() && !EnrichedForCurrentContent(m) {
      LatestIff(LiveLinks(p.rels, id), m, r.fact(id).answer.value.extracted, r.fact(id), r.key);
    }
  }

  // ---- convergence ----

  /** Every active fact is enriched for its content, and no other row has a live link. */
  ghost predicate AtRest(p: Pass) {
    && Keyed(p.st.rows)
    && (forall id | id in ActiveIds(p.st.rows) :: EnrichedForCurrentContent(p.st.rows[id]))
    && (forall id | id in p.st.rows && id !in ActiveIds(p.st.rows) :: LiveLinks(p.rels, id) == multiset{})
  }

  function Skipped(p: Pass, n: nat): Pass {
    p.(report := p.report.(skipped := p.report.skipped + n))
  }

  lemma {:induction false} EnrichAllIdle(p: Pass, rows: Rows, ids: seq<MemoryId>, r: EnrichReply)
    requires SetOf(ids) <= rows.Keys
    requires forall id | id in SetOf(ids) :: EnrichedForCurrentContent(rows[id])
    ensures EnrichAll(p, rows, ids, r) == Skipped(p, |ids|)
    decreases |ids|
  {
    if ids != [] {
      assert ids[0] in SetOf(ids) && SetOf(ids[1..]) <= SetOf(ids);
      EnrichAllIdle(Skipped(p, 1), rows, ids[1..], r);
    }
  }

  lemma {:induction false} ReconcileIdle(p: Pass, ids: seq<MemoryId>, fails: MemoryId -> bool)
    requires forall id | id in SetOf(ids) :: LiveLinks(p.rels, id) == multiset{}
    ensures Reconcile(p, ids, fails) == p
    decreases |ids|
  {
    if ids != [] {
      assert ids[0] in SetOf(ids) && SetOf(ids[1..]) <= SetOf(ids);
      RetireNothing(p.rels, ids[0]);
      assert ReconcileOne(p, ids[0], fails(ids[0])) == p;
      ReconcileIdle(p, ids[1..], fails);
    }
  }

  /** A vault at rest is left as it is by any pass, whatever the model would answer and whatever
      would fail: nothing is enriched, created or retired, and every active fact is skipped. */
  lemma AtRestIsFixpoint(p: Pass, r: EnrichReply)
    requires AtRest(p)
    ensures EnrichPass(p, r) == Skipped(p, |ActiveIds(p.st.rows)|)
  {
    var active := ActiveIds(p.st.rows);
    EnrichAllIdle(p, p.st.rows, Sorted(active), r);
    var q := Skipped(p, |active|);
    ReconcileIdle(q, Sorted(q.st.rows.Keys - active), r.reconcileFails);
  }

  /** Enrichment converges: a pass with no failed fact and no failed reconciliation leaves the vault at
      rest, so the next pass on an unchanged vault does nothing. */
  lemma SecondPassDoesNothing(p: Pass, r: EnrichReply, again: EnrichReply)
    requires Keyed(p.st.rows) && !r.fullListFails && forall id | id in p.st.rows :: !r.reconcileFails(id)
    requires EnrichPass(p, r).report.failed == p.report.failed
    ensures var q := EnrichPass(p, r);
      AtRest(q) && EnrichPass(q, again) == Skipped(q, |ActiveIds(q.st.rows)|)
  {
    var q := EnrichPass(p, r);
    PassLaw(p, r, 0);
    forall id | id in p.st.rows
      ensures q.st.rows[id].id == id && q.st.rows[id].Active() == p.st.rows[id].Active()
      ensures p.st.rows[id].Active() ==> EnrichedForCurrentContent(q.st.rows[id])
      ensures !p.st.rows[id].Active() ==> LiveLinks(q.rels, id) == multiset{}
    {
      PassLaw(p, r, id);
    }
    AtRestIsFixpoint(q, again);
  }

  /** A pass keeps every vector what its row says it is, and keeps the links a forest. */
  lemma PassKeepsFidelityAndForest(p: Pass, r: EnrichReply)
    requires Keyed(p.st.rows)
    ensures AllFaithful(p.st) ==> AllFaithful(EnrichPass(p, r).st)
    ensures Forest(p.st.rows) ==> Forest(EnrichPass(p, r).st.rows)
  {
    var q := EnrichPass(p, r);
    PassLaw(p, r, 0);
    forall id | id in p.st.rows
      ensures SameLink(p.st.rows[id], q.st.rows[id])
      ensures Faithful(p.st, id) ==> Faithful(q.st, id)
    {
      PassLaw(p, r, id);
    }
    if Forest(p.st.rows) { SameLinksKeepForest(p.st.rows, q.st.rows); }
  }
}
