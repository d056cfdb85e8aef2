/** The enrichment report's figures against what really changed in the vault and its graph. */
module EnrichCounts {
  import opened VaultCore
  import opened SortedIds
  import opened Storage
  import opened EmbedText
  import opened Graph
  import opened Enrichment
  import opened EnrichmentLaws

  /** How many relationships have no end date. */
  function Live(rels: Rels): nat {
    if rels == [] then 0 else Live(rels[..|rels| - 1]) + if rels[|rels| - 1].live then 1 else 0
  }

  lemma {:induction false} LiveConcat(a: Rels, b: Rels)
    ensures Live(a + b) == Live(a) + Live(b)
    decreases |b|
  {
    if b == [] {
      assert a + b == a;
    } else {
      assert (a + b)[..|a + b| - 1] == a + b[..|b| - 1];
      LiveConcat(a, b[..|b| - 1]);
    }
  }

  lemma {:induction false} RetiringEnds(rels: Rels, id: MemoryId)
    ensures Live(RetireFrom(rels, id)) == Live(rels) - |LiveLinks(rels, id)|
    decreases |rels|
  {
    if rels != [] {
      var init := rels[..|rels| - 1];
      assert RetireFrom(rels, id)[..|rels| - 1] == RetireFrom(init, id);
      RetiringEnds(init, id);
    }
  }

  lemma {:induction false} WrittenAreLive(known: map<string, Entity>, links: seq<NamedLink>, source: MemoryId,
                                          key: string -> string, fails: NamedLink -> bool)
    ensures var rows := LinkRows(known, links, source, key, fails);
      Live(rows) == |rows| && |rows| <= |links|
    decreases |links|
  {
    if links != [] {
      WrittenAreLive(known, links[1..], source, key, fails);
      var l, rest := links[0], LinkRows(known, links[1..], source, key, fails);
      if Resolves(known, l, key) && !fails(l) {
        var row := Relationship(Some(source), Link(known[key(l.from)], l.relation, known[key(l.to)]), true);
        LiveConcat([row], rest);
        assert [row][..0] == [];
      }
    }
  }

  lemma {:induction false} RegisterCounts(n: Names, ents: seq<NamedEntity>, b: Boundary, key: string -> string, fails: NamedEntity -> bool)
    ensures var (q, ok) := Register(n, ents, b, key, fails);
      && |q.entities| == |n.entities| + q.created - n.created && q.created >= n.created
      && (ok <==> forall e | e in ents :: !fails(e))
      && (ok ==> q.created + q.reused == n.created + n.reused + |ents|)
    decreases |ents|
  {
    if ents != [] {
      assert forall e :: e in ents <==> e == ents[0] || e in ents[1..];
      if !fails(ents[0]) { RegisterCounts(AddName(n, ents[0], b, key), ents[1..], b, key, fails); }
    }
  }

  /** What a stretch of the pass adds to the report is what it did: as many relationships written as links
      created, as many ended as links retired, and as many entities new as created, unless some extraction
      stopped at an entity. */
  ghost predicate Accounts(p: Pass, q: Pass) {
    && |q.rels| == |p.rels| + q.report.linksCreated - p.report.linksCreated
    && Live(q.rels) == Live(p.rels) + (q.report.linksCreated - p.report.linksCreated) - (q.report.linksRetired - p.report.linksRetired)
    && |q.entities| >= |p.entities| + q.report.entitiesCreated - p.report.entitiesCreated
    && q.report.graphWriteFailures >= p.report.graphWriteFailures
    && (q.report.graphWriteFailures == p.report.graphWriteFailures ==>
          |q.entities| == |p.entities| + q.report.entitiesCreated - p.report.entitiesCreated)
  }

  lemma AccountsAddUp(p: Pass, q: Pass, s: Pass)
    requires Accounts(p, q) && Accounts(q, s)
    ensures Accounts(p, s)
  {
  }

  /** One extraction: all its entities and links are counted, once each, or it stops at an entity. */
  lemma GraphPartAccounts(p: Pass, m: Memory, x: Extraction, r: FactReply, key: string -> string)
    ensures var q := GraphPart(p, m, x, r, key);
      && Accounts(p, q)
      && q.report.graphWriteFailures == p.report.graphWriteFailures + (if exists e | e in x.entities :: r.entityFails(e) then 1 else 0)
      && (x.entities != [] && (forall e | e in x.entities :: !r.entityFails(e)) ==>
            && q.report.entitiesCreated + q.report.entitiesReused == p.report.entitiesCreated + p.report.entitiesReused + |x.entities|
            && q.report.linksCreated + q.report.linksFailed == p.report.linksCreated + p.report.linksFailed + |x.links|)
  {
    RetiringEnds(p.rels, m.id);
    if x.entities != [] {
      var n := Register(Names(p.entities, map[], 0, 0), x.entities, m.boundary, key, r.entityFails).0;
      RegisterCounts(Names(p.entities, map[], 0, 0), x.entities, m.boundary, key, r.entityFails);
      WrittenAreLive(n.known, x.links, m.id, key, r.linkFails);
      LiveConcat(AfterRetire(p.rels, m.id, r.retireFails), LinkRows(n.known, x.links, m.id, key, r.linkFails));
    }
  }

  lemma GraphPartKeeps(p: Pass, m: Memory, x: Extraction, r: FactReply, key: string -> string)
    ensures var q := GraphPart(p, m, x, r, key);
      && q.st == p.st && q.report.enriched == p.report.enriched && q.report.skipped == p.report.skipped
      && q.report.failed == p.report.failed
  {
  }

  /** One fact is enriched, skipped or failed, and counted as that. */
  lemma FactAccounts(p: Pass, m: Memory, r: FactReply, key: string -> string)
    requires m.id in p.st.rows
    ensures var q := EnrichFact(p, m, r, key);
      && Accounts(p, q)
      && q.report.enriched == p.report.enriched + (if Refreshes(m, r) then 1 else 0)
      && q.report.skipped == p.report.skipped + (if EnrichedForCurrentContent(m) then 1 else 0)
      && q.report.failed == p.report.failed + (if !Refreshes(m, r) && !EnrichedForCurrentContent(m) then 1 else 0)
  {
    if Refreshes(m, r) {
      var a := r.answer.value;
      var st := Updated(p.st, Enriched(m, a.aliasLine), ComposeEmbedText(m.content, a.aliasLine), r.updateFails).value;
      var mid := p.(st := st, report := p.report.(enriched := p.report.enriched + 1));
      GraphPartAccounts(mid, m, a.extracted, r, key);
      GraphPartKeeps(mid, m, a.extracted, r, key);
      AccountsAddUp(p, mid, GraphPart(mid, m, a.extracted, r, key));
    }
  }

  /** What a refreshed fact is left with: the model's alias line and the fingerprint of its wording in its
      metadata, nothing else of it changed, and the vector of its wording followed by the line. */
  lemma RefreshedIs(p: Pass, r: EnrichReply, id: MemoryId)
    requires Keyed(p.st.rows) && id in p.st.rows && p.st.rows[id].Active()
    ensures var m, q, reply := p.st.rows[id], EnrichPass(p, r), r.fact(id);
      && id in q.st.rows
      && (q.st.rows[id] != m <==>
            && reply.answer.Some? && !reply.updateFails && !EnrichedForCurrentContent(m) && m.Validates())
      && (q.st.rows[id] != m ==>
            && id in q.st.vectors
            && var line := reply.answer.value.aliasLine;
               && q.st.rows[id] == m.(metadata := m.metadata.(enrichment := Some(VaultCore.Enrichment(line, ContentFingerprint(m.content)))))
               && q.st.vectors[id] == m.content + " Topics: " + line)
  {
    PassLaw(p, r, id);
    if r.fact(id).answer.Some? { assert Enriched(p.st.rows[id], r.fact(id).answer.value.aliasLine).Validates() <==> p.st.rows[id].Validates(); }
  }

  function RefreshedIds(rows: Rows, ids: set<MemoryId>, r: EnrichReply): set<MemoryId> {
    set id | id in ids && id in rows && Refreshes(rows[id], r.fact(id))
  }

  function SettledIds(rows: Rows, ids: set<MemoryId>): set<MemoryId> {
    set id | id in ids && id in rows && EnrichedForCurrentContent(rows[id])
  }

  lemma {:induction false} EnrichAllAccounts(p: Pass, rows: Rows, ids: seq<MemoryId>, r: EnrichReply)
    requires Distinct(ids) && SetOf(ids) <= rows.Keys && StillAsListed(p, rows, SetOf(ids))
    ensures var q := EnrichAll(p, rows, ids, r);
      && Accounts(p, q)
      && q.report.enriched == p.report.enriched + |RefreshedIds(rows, SetOf(ids), r)|
      && q.report.skipped == p.report.skipped + |SettledIds(rows, SetOf(ids))|
    decreases |ids|
  {
    if ids == [] {
      assert RefreshedIds(rows, {}, r) == {} && SettledIds(rows, {}) == {};
    } else {
      HeadTail(ids);
      var m, rest := rows[ids[0]], SetOf(ids[1..]);
      var q := EnrichFact(p, m, r.fact(ids[0]), r.key);
      FactAccounts(p, m, r.fact(ids[0]), r.key);
      FactLaw(p, m, r.fact(ids[0]), r.key);
      forall k | k in rest ensures k in q.st.rows && q.st.rows[k] == rows[k] {
        OthersUndisturbed(p, m, r.fact(ids[0]), r.key, k);
      }
      EnrichAllAccounts(q, rows, ids[1..], r);
      AccountsAddUp(p, q, EnrichAll(q, rows, ids[1..], r));
      OneMoreRefreshed(rows, ids[0], rest, r);
      OneMoreSettled(rows, ids[0], rest);
      assert SetOf(ids) == rest + {ids[0]};
    }
  }

  lemma OneMoreRefreshed(rows: Rows, id: MemoryId, rest: set<MemoryId>, r: EnrichReply)
    requires id in rows && id !in rest
    ensures |RefreshedIds(rows, rest + {id}, r)| == |RefreshedIds(rows, rest, r)| + if Refreshes(rows[id], r.fact(id)) then 1 else 0
  {
    var refreshed := Refreshes(rows[id], r.fact(id));
    if refreshed {
      assert RefreshedIds(rows, rest + {id}, r) == RefreshedIds(rows, rest, r) + {id};
    } else {
      assert RefreshedIds(rows, rest + {id}, r) == RefreshedIds(rows, rest, r);
    }
  }

  lemma OneMoreSettled(rows: Rows, id: MemoryId, rest: set<MemoryId>)
    requires id in rows && id !in rest
    ensures |SettledIds(rows, rest + {id})| == |SettledIds(rows, rest)| + if EnrichedForCurrentContent(rows[id]) then 1 else 0
  {
    if EnrichedForCurrentContent(rows[id]) {
      assert SettledIds(rows, rest + {id}) == SettledIds(rows, rest) + {id};
    } else {
      assert SettledIds(rows, rest + {id}) == SettledIds(rows, rest);
    }
  }

  lemma {:induction false} ReconcileAccounts(p: Pass, ids: seq<MemoryId>, fails: MemoryId -> bool)
    ensures var q := Reconcile(p, ids, fails);
      && Accounts(p, q) && q.report == p.report.(linksRetired := q.report.linksRetired)
    decreases |ids|
  {
    if ids != [] {
      RetiringEnds(p.rels, ids[0]);
      var q := ReconcileOne(p, ids[0], fails(ids[0]));
      ReconcileAccounts(q, ids[1..], fails);
      AccountsAddUp(p, q, Reconcile(q, ids[1..], fails));
    }
  }

  /** The facts a pass rewrites are those that it refreshes. */
  lemma RewrittenAreRefreshed(p: Pass, r: EnrichReply, id: MemoryId)
    requires Keyed(p.st.rows) && id in p.st.rows
    ensures id in EnrichPass(p, r).st.rows
    ensures EnrichPass(p, r).st.rows[id] != p.st.rows[id] <==> id in RefreshedIds(p.st.rows, ActiveIds(p.st.rows), r)
  {
    PassLaw(p, r, id);
  }

  function RewrittenIds(before: Rows, after: Rows): set<MemoryId> {
    set id | id in before && id in after && after[id] != before[id]
  }

  lemma RewrittenAre(p: Pass, r: EnrichReply)
    requires Keyed(p.st.rows)
    ensures RewrittenIds(p.st.rows, EnrichPass(p, r).st.rows) == RefreshedIds(p.st.rows, ActiveIds(p.st.rows), r)
  {
    forall id | id in p.st.rows
      ensures id in EnrichPass(p, r).st.rows
      ensures EnrichPass(p, r).st.rows[id] != p.st.rows[id] <==> id in RefreshedIds(p.st.rows, ActiveIds(p.st.rows), r)
    {
      RewrittenAreRefreshed(p, r, id);
    }
  }

  lemma PassAccounts(p: Pass, r: EnrichReply)
    requires Keyed(p.st.rows)
    ensures var q, active := EnrichPass(p, r), ActiveIds(p.st.rows);
      && Accounts(p, q)
      && q.report.enriched == p.report.enriched + |RefreshedIds(p.st.rows, active, r)|
      && q.report.skipped == p.report.skipped + |SettledIds(p.st.rows, active)|
  {
    var active := ActiveIds(p.st.rows);
    var ids := Sorted(active);
    assert SetOf(ids) == active;
    EnrichAllAccounts(p, p.st.rows, ids, r);
    var filled := EnrichAll(p, p.st.rows, ids, r);
    ReconcileAccounts(filled, Sorted(filled.st.rows.Keys - active), r.reconcileFails);
    if !r.fullListFails { AccountsAddUp(p, filled, EnrichPass(p, r)); }
  }

  /** The report accounts for the pass: as many facts were rewritten as it says were enriched, as many active
      ones had their wording's alias line already as it says were skipped, every other active one failed; and
      the graph grew and shrank by the links and entities it counts. */
  lemma EnrichReportAccounts(p: Pass, r: EnrichReply)
    requires Keyed(p.st.rows)
    ensures var q := EnrichPass(p, r);
      && q.st.rows.Keys == p.st.rows.Keys
      && q.report.enriched == p.report.enriched + |RewrittenIds(p.st.rows, q.st.rows)|
      && q.report.skipped == p.report.skipped + |SettledIds(p.st.rows, ActiveIds(p.st.rows))|
      && Handled(q.report) == Handled(p.report) + |ActiveIds(p.st.rows)|
      && Accounts(p, q)
  {
    PassAccounts(p, r);
    PassLaw(p, r, 0);
    RewrittenAre(p, r);
  }
}
