/** A vault on which a rollback loses the graph links of a fact it brings back. */
module ReturnExample {
  import Utf8
  import opened VaultCore
  import opened SortedIds
  import UnionFind
  import Clusters
  import opened Supersession
  import opened Storage
  import opened EmbedText
  import MergePhase
  import Contradiction
  import ColdPass
  import opened Checkpoint
  import opened SleepCycle
  import opened Graph
  import opened Enrichment
  import opened History

  function Fact(id: MemoryId, at: Instant, enrichment: Option<VaultCore.Enrichment>): Memory {
    Memory(id, "a", Semantic, None, 0, at, at, None, 1.0, 0, at, None, None, Metadata(enrichment, None, ""))
  }

  /** An enriched fact with one link, and a newer fact, saved since the last run, that contradicts it. */
  function TwoFacts(): World {
    var e := Entity("a", Person, 0);
    var older := Fact(0, 0, Some(VaultCore.Enrichment("x", ContentFingerprint("a"))));
    World(Store(map[0 := older, 1 := Fact(1, 10, None)], map[]), {e}, [Relationship(Some(0), Link(e, "knows", e), true)])
  }

  const SINCE: Option<Instant> := Some(5)

  /** No cluster is found, the new fact's search answers the old one, and the judge confirms. */
  function OneContradiction(clusters: Boundary -> nat -> MergePhase.ClusterReply): RunReply {
    RunReply(false, (b: Boundary) => (s: MemoryId) => Some([]), (b: Boundary) => false, clusters, false,
             (b: Boundary) => Contradiction.JudgeReply(false, (s: MemoryId) => Some([0]),
               (e: Contradiction.Pair) => Some(Contradiction.PairVerdict(true, Some("x"))), 20, (id: MemoryId) => false),
             ColdPass.ColdReply(true, 20, (id: MemoryId) => false), ColdPass.ColdReply(true, 20, (id: MemoryId) => false),
             CaptureReply(false, (id: MemoryId) => false, false))
  }

  ghost predicate Quiet(r: RunReply) {
    (forall b, s :: r.near(b)(s) == Some([])) && forall b :: !r.clusterListFails(b)
  }

  /** Where no search answers anything, no cluster forms. */
  lemma {:induction false} QuietMerges(g: Ledger, bs: seq<Boundary>, pre: Rows, since: Option<Instant>, r: RunReply)
    requires Quiet(r)
    ensures var p := MergeBoundaries(g, bs, pre, since, r);
      p.completed && p.ledger.st == g.st
    decreases |bs|
  {
    if bs != [] {
      var b := bs[0];
      var seeds := SeedsIn(g.st.rows, b, since);
      if seeds != {} && |ActiveIn(g.st.rows, b)| >= 2 {
        NoEdgesNoClusters(g.st.rows, b, r.near(b), seeds);
      }
      assert Clusters.FindClusters(g.st.rows, b, since, r.near(b), false) == Some([]);
      QuietMerges(MergeStep(g, b, [], pre, r), bs[1..], pre, since, r);
    }
  }

  lemma NoEdgesNoClusters(rows: Rows, b: Boundary, near: Clusters.Neighbours, seeds: set<MemoryId>)
    requires forall s :: near(s) == Some([])
    ensures Clusters.ClusterList(Clusters.NodesOf(rows, b, near, seeds), Clusters.EdgesOf(rows, b, near, seeds)) == []
  {
    var nodes, edges := Clusters.NodesOf(rows, b, near, seeds), Clusters.EdgesOf(rows, b, near, seeds);
    assert edges == {};
    forall n ensures n !in Clusters.Heads(nodes, edges) {
      if n in Clusters.Heads(nodes, edges) { Alone(nodes, edges, n); }
    }
  }

  lemma Alone(nodes: set<MemoryId>, edges: set<UnionFind.Edge>, n: MemoryId)
    requires edges == {}
    ensures |UnionFind.Component(nodes, edges, n)| < 2
  {
    forall m | m in UnionFind.Component(nodes, edges, n) ensures m == n {
      var p :| UnionFind.Path(edges, p, n, m);
      assert |p| == 1 || UnionFind.Adjacent(edges, p[0], p[1]);
    }
    if n in UnionFind.Component(nodes, edges, n) {
      assert UnionFind.Component(nodes, edges, n) == {n};
    } else {
      assert UnionFind.Component(nodes, edges, n) == {};
    }
  }

  lemma OneBoundary(w: World)
    requires w == TwoFacts()
    ensures Sorted(BoundariesOf(w.st.rows, ActiveIds(w.st.rows))) == [0]
    ensures ActiveIn(w.st.rows, 0) == {0, 1} && SeedsIn(w.st.rows, 0, SINCE) == {1}
    ensures Forest(w.st.rows) && Keyed(w.st.rows)
  {
    assert 0 in ActiveIds(w.st.rows);
    assert BoundariesOf(w.st.rows, ActiveIds(w.st.rows)) == {0};
    AscendingUnique(Sorted({0}), [0]);
    assert RankedBy(w.st.rows, map[0 := 0, 1 := 0]);
  }

  ghost predicate Confirms(r: Contradiction.JudgeReply) {
    && !r.seedListFails && (forall s :: r.near(s) == Some([0])) && (forall id :: !r.invalidateFails(id))
    && (forall e :: Contradiction.Confirmed(r.judge, e)) && r.now == 20
  }

  lemma OlderIsStale(w: World, r: Contradiction.JudgeReply)
    requires w == TwoFacts()
    requires Confirms(r)
    ensures !Contradiction.Aborts(w.st, w.st.rows, 0, SINCE, r)
    ensures 0 in Contradiction.RetiredIn(w.st, w.st.rows, 0, SINCE, r)
  {
    OneBoundary(w);
    assert |{0, 1}| == 2;
    var pairs := Contradiction.CandidatePairs({0, 1}, {1}, r.near);
    assert Contradiction.Proposes(r.near, 1, 0);
    assert Clusters.Canonical(1, 0) in pairs;
    assert Contradiction.OlderSide(w.st.rows, (0, 1), 0);
    assert 0 in Contradiction.StaleIn(w.st, w.st.rows, 0, SINCE, r);
    assert Utf8.ByteLen("a") == 1;
  }

  lemma PassRetiresOlder(w: World, g: Ledger, r: RunReply)
    requires w == TwoFacts() && g.st == w.st && Confirms(r.judge(0))
    ensures var p := RetireAll(g, SINCE, r);
      p.completed && 0 in p.ledger.st.rows && p.ledger.st.rows[0].validUntil.Some?
  {
    OneBoundary(w);
    OlderIsStale(w, r.judge(0));
    var h := RetireStep(g, w.st.rows, 0, SINCE, r.judge(0));
    assert [0][1..] == [];
    assert RetireBoundaries(g, [0], w.st.rows, SINCE, r) == SleepCycle.Pass(h, true);
  }

  lemma CoolKeepsEnded(g: Ledger, processed: nat, cfg: Config, r: RunReply, id: MemoryId)
    requires id in g.st.rows && g.st.rows[id].validUntil.Some?
    ensures id !in ActiveIds(Cool(g, processed, cfg, r).st.rows)
  {
  }

  lemma RunRetiresOlder(w: World, cfg: Config, r: RunReply)
    requires w == TwoFacts() && Quiet(AtThreshold(cfg, r)) && Confirms(r.judge(0)) && !r.listFails && !r.activeListFails
    ensures 0 !in ActiveIds(Run(w.st, cfg, SINCE, r).st.rows)
    ensures Run(w.st, cfg, SINCE, r).counts.Some?
  {
    var at := AtThreshold(cfg, r);
    QuietMerges(Ledger(w.st, map[]), Sorted(BoundariesOf(w.st.rows, ListedIds(w.st.rows))), w.st.rows, SINCE, at);
    var g := MergeAll(w.st, SINCE, at).ledger;
    PassRetiresOlder(w, g, at);
    CoolKeepsEnded(RetireAll(g, SINCE, at).ledger, |ListedIds(w.st.rows)|, cfg, at, 0);
  }

  lemma ReplyDoes(cfg: Config, r: RunReply)
    requires 0.0 <= cfg.mergeThreshold <= 1.0 && r == OneContradiction(r.clusters)
    ensures Quiet(AtThreshold(cfg, r)) && Confirms(r.judge(0)) && !r.listFails && !r.activeListFails
  {
    forall b: Boundary ensures !AtThreshold(cfg, r).clusterListFails(b) {
      assert !r.clusterListFails(b);
    }
  }

  /** A fact that comes back without its link: the run retires it, the pass ends its link, the undo log
      brings it back as it was, and the next pass skips it. */
  lemma ReturnsWithoutItsLink(w: World, cfg: Config, r: RunReply, entries: seq<Entry>, first: EnrichReply, again: EnrichReply)
    requires w == TwoFacts() && 0.0 <= cfg.mergeThreshold <= 1.0 && r == OneContradiction(r.clusters) && Reconciled(first, 0)
    requires Captures(w.st.rows, Run(w.st, cfg, SINCE, r).st.rows, entries)
    ensures var tidied := AfterPass(w.(st := Run(w.st, cfg, SINCE, r).st), first);
      var end := AfterPass(RolledBack(tidied, w.st.rows, entries), again);
      && |LiveLinks(w.rels, 0)| == 1
      && 0 in end.st.rows && end.st.rows[0] == w.st.rows[0] && LiveLinks(end.rels, 0) == multiset{}
  {
    OneBoundary(w);
    ReplyDoes(cfg, r);
    RunRetiresOlder(w, cfg, r);
    ReturningFactRelinkedIff(w, cfg, SINCE, r, entries, first, again, 0);
  }
}
