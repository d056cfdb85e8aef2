/** Phase 2 and Phase 3 for the clusters of one boundary: deterministic dedup, the model's
    merge decision, and its application. Clocks, new ids, the model's answers and every failing
    call are inputs. */
module MergePhase {
  import Utf8
  import opened VaultCore
  import opened SortedIds
  import opened Clusters
  import opened Supersession
  import opened Storage
  import opened NearIdentical

  /** The model's decision. The winner is whatever id it wrote: nothing checks it. */
  datatype MergeOutcome = Merge(text: string) | KeepSeparate | Contradiction(clearWinner: Option<MemoryId>)

  /** Everything the outside answers while one cluster is processed. */
  datatype ClusterReply = ClusterReply(
    embedOk: bool,
    cosine: (MemoryId, MemoryId) -> real,
    lexer: Lexer,
    dedupFails: bool,
    decision: Option<MergeOutcome>,
    relistFails: bool,
    mergeEmbedOk: bool,
    newId: MemoryId,
    now: Instant,
    writeFails: bool,
    markFails: MemoryId -> bool,
    invalidateFails: MemoryId -> bool)

  /** A boundary's counters. */
  datatype Tally = Tally(
    dedupedClusters: nat,
    dedupedMemories: nat,
    skipped: nat,
    merges: nat,
    mergedMemories: nat,
    queued: seq<Cluster>,
    autoResolved: nat)

  const EMPTY_TALLY := Tally(0, 0, 0, 0, 0, [], 0)

  datatype Progress = Progress(st: Store, tally: Tally)

  // ---- survivorship ----

  /** The golden-record order: newest `valid_from`, newest `created_at`, longest content, highest
      confidence, most accessed, lowest id. */
  predicate Better(a: Memory, b: Memory) {
    if a.validFrom != b.validFrom then a.validFrom > b.validFrom
    else if a.createdAt != b.createdAt then a.createdAt > b.createdAt
    else if Utf8.ByteLen(a.content) != Utf8.ByteLen(b.content) then Utf8.ByteLen(a.content) > Utf8.ByteLen(b.content)
    else if a.confidence != b.confidence then a.confidence > b.confidence
    else if a.accessCount != b.accessCount then a.accessCount > b.accessCount
    else a.id < b.id
  }

  /** The winner of one pass over the members. */
  function Survivor(members: seq<Memory>): (m: Memory)
    requires members != []
    ensures m in members
  {
    if |members| == 1 then members[0]
    else
      var best := Survivor(members[..|members| - 1]);
      var cand := members[|members| - 1];
      if Better(cand, best) then cand else best
  }

  method PickSurvivor(members: seq<Memory>) returns (best: nat)
    requires members != []
    ensures best < |members| && members[best] == Survivor(members)
    ensures forall m | m in members ::
        var s := members[best];
        m.validFrom < s.validFrom || (m.validFrom == s.validFrom &&
        (m.createdAt < s.createdAt || (m.createdAt == s.createdAt &&
        (|Utf8.Encode(m.content)| < |Utf8.Encode(s.content)| || (|Utf8.Encode(m.content)| == |Utf8.Encode(s.content)| &&
        (m.confidence < s.confidence || (m.confidence == s.confidence &&
        (m.accessCount < s.accessCount || (m.accessCount == s.accessCount && s.id <= m.id)))))))))
  {
    SurvivorByFields(members);
    best := 0;
    assert members[..1][0] == members[0];
    for i := 1 to |members|
      invariant best < i && members[best] == Survivor(members[..i])
    {
      assert members[..i + 1][..i] == members[..i];
      if Better(members[i], members[best]) { best := i; }
    }
    assert members[..|members|] == members;
  }

  /** Which duplicate survives: the one that became true last; of those the one created last, then the
      one with the most bytes of text, the most confident, the most accessed, and the least id. */
  lemma {:induction false} SurvivorByFields(members: seq<Memory>)
    requires members != []
    ensures forall m | m in members ::
        var s := Survivor(members);
        m.validFrom < s.validFrom || (m.validFrom == s.validFrom &&
        (m.createdAt < s.createdAt || (m.createdAt == s.createdAt &&
        (|Utf8.Encode(m.content)| < |Utf8.Encode(s.content)| || (|Utf8.Encode(m.content)| == |Utf8.Encode(s.content)| &&
        (m.confidence < s.confidence || (m.confidence == s.confidence &&
        (m.accessCount < s.accessCount || (m.accessCount == s.accessCount && s.id <= m.id)))))))))
    decreases |members|
  {
    if |members| > 1 {
      var init, last := members[..|members| - 1], members[|members| - 1];
      SurvivorByFields(init);
      Utf8.EncodedLength(last.content);
      Utf8.EncodedLength(Survivor(init).content);
      assert members == init + [last];
    }
  }

  ghost predicate DistinctIds(members: seq<Memory>) {
    forall i, j | 0 <= i < j < |members| :: members[i].id != members[j].id
  }

  /** The survivor beats every other member. */
  lemma {:induction false} SurvivorIsBest(members: seq<Memory>)
    requires members != [] && DistinctIds(members)
    ensures forall m | m in members && m != Survivor(members) :: Better(Survivor(members), m)
    decreases |members|
  {
    if |members| > 1 {
      var init := members[..|members| - 1];
      SurvivorIsBest(init);
      assert members == init + [members[|members| - 1]];
    }
  }

  /** Whatever order the members are listed in, the same one survives. */
  lemma SurvivorIgnoresOrder(a: seq<Memory>, b: seq<Memory>)
    requires a != [] && DistinctIds(a) && DistinctIds(b) && multiset(a) == multiset(b)
    ensures b != [] && Survivor(a) == Survivor(b)
  {
    assert a[0] in multiset(a);
    SurvivorIsBest(a);
    assert b != [] by { assert a[0] in multiset(b); }
    SurvivorIsBest(b);
    var m, n := Survivor(a), Survivor(b);
    assert m in multiset(a) && n in multiset(b);
    assert m in b && n in a;
  }

  // ---- aggregates ----

  function MembersOf(rows: Rows, ids: seq<MemoryId>): (ms: seq<Memory>)
    requires SetOf(ids) <= rows.Keys
  {
    seq(|ids|, i requires 0 <= i < |ids| => rows[ids[i]])
  }

  function SumAccess(ms: seq<Memory>): nat {
    if ms == [] then 0 else ms[0].accessCount + SumAccess(ms[1..])
  }

  function MaxConfidence(ms: seq<Memory>): (r: real)
    ensures r >= 0.0
    ensures forall m | m in ms :: m.confidence <= r
    ensures r == 0.0 || exists m | m in ms :: m.confidence == r
  {
    if ms == [] then 0.0
    else
      var rest := MaxConfidence(ms[1..]);
      assert ms == [ms[0]] + ms[1..];
      if ms[0].confidence > rest then ms[0].confidence else rest
  }

  /** Every member is still listed, so hydrating the cluster loses none. */
  predicate Hydrates(rows: Rows, ids: seq<MemoryId>) {
    SetOf(ids) <= ListedIds(rows)
  }

  function Without(ids: seq<MemoryId>, drop: MemoryId): (r: seq<MemoryId>)
    ensures SetOf(r) == SetOf(ids) - {drop}
  {
    if ids == [] then []
    else
      var rest := Without(ids[1..], drop);
      assert ids == [ids[0]] + ids[1..];
      assert SetOf(ids) == {ids[0]} + SetOf(ids[1..]);
      assert SetOf([ids[0]] + rest) == {ids[0]} + SetOf(rest);
      if ids[0] == drop then rest else [ids[0]] + rest
  }

  // ---- what one cluster does to the vault ----

  /** `plan_dedup`'s plan for members that passed the near-identical gate. */
  datatype DedupPlan = DedupPlan(survivor: MemoryId, superseded: seq<MemoryId>, access: nat, confidence: real)

  function PlanDedup(snapshot: Rows, cluster: Cluster): DedupPlan
    requires cluster != [] && SetOf(cluster) <= snapshot.Keys
  {
    var members := MembersOf(snapshot, cluster);
    var survivor := Survivor(members).id;
    DedupPlan(survivor, Without(cluster, survivor), SumAccess(members), MaxConfidence(members))
  }

  datatype DedupResult = NotEligible | DedupError | DedupDone(st: Store, superseded: nat)

  function ApplyPlan(st: Store, plan: DedupPlan, fails: bool): DedupResult {
    match Deduped(st, plan.survivor, plan.superseded, plan.access, plan.confidence, fails)
    case None => DedupError
    case Some(next) => DedupDone(next, |plan.superseded|)
  }

  predicate Alike(a: Memory, b: Memory, r: ClusterReply) {
    PassesGate(r.cosine(a.id, b.id), a.content, b.content, r.lexer)
  }

  /** The over-merge guard: every pair of members, not just neighbouring ones, is near-identical. */
  predicate AllAlike(members: seq<Memory>, r: ClusterReply) {
    forall i, j | 0 <= i < j < |members| :: Alike(members[i], members[j], r)
  }

  /** A member missing from the boundary's enumeration, or a pair that is not near-identical, sends
      the cluster on to the model. */
  function TryDedup(st: Store, cluster: Cluster, snapshot: Rows, r: ClusterReply): DedupResult {
    if cluster == [] || !(SetOf(cluster) <= snapshot.Keys) then NotEligible
    else if !r.embedOk then DedupError
    else if |cluster| < 2 || !AllAlike(MembersOf(snapshot, cluster), r) then NotEligible
    else ApplyPlan(st, PlanDedup(snapshot, cluster), r.dedupFails)
  }

  /** A cluster with two members that say the same words in another order is never collapsed without
      being judged: its dedup is declined, or cannot be looked at. */
  lemma ReorderingIsJudged(st: Store, cluster: Cluster, snapshot: Rows, r: ClusterReply, i: nat, j: nat)
    requires SetOf(cluster) <= snapshot.Keys && i < j < |cluster|
    requires cluster[i] in snapshot && cluster[j] in snapshot
    requires PureReordering(snapshot[cluster[i]].content, snapshot[cluster[j]].content, r.lexer)
    ensures !TryDedup(st, cluster, snapshot, r).DedupDone?
    ensures r.embedOk ==> TryDedup(st, cluster, snapshot, r).NotEligible?
  {
    var members := MembersOf(snapshot, cluster);
    assert !Alike(members[i], members[j], r);
  }

  function MergedRow(rows: Rows, cluster: Cluster, text: string, id: MemoryId, now: Instant): Memory
    requires cluster != [] && Hydrates(rows, cluster)
  {
    var members := MembersOf(rows, cluster);
    Memory(id, text, members[0].memoryType, None, members[0].boundary, now, now, None,
           MaxConfidence(members), SumAccess(members), now, None, None, Metadata(None, None, ""))
  }

  /** Members are pointed at the merged row one transaction at a time; the first failure stops. */
  function MarkAll(st: Store, ids: seq<MemoryId>, heir: MemoryId, fails: MemoryId -> bool): (r: (Store, bool))
    decreases |ids|
  {
    if ids == [] then (st, true)
    else match Marked(st, ids[0], heir, fails(ids[0]))
      case None => (st, false)
      case Some(next) => MarkAll(next, ids[1..], heir, fails)
  }

  /** `apply_merge`: the merged row is committed before any member is marked, so an error can
      leave it beside members that are still current. */
  function ApplyMerge(st: Store, cluster: Cluster, text: string, r: ClusterReply): (Store, bool) {
    if r.relistFails || cluster == [] || !Hydrates(st.rows, cluster) || !r.mergeEmbedOk then (st, false)
    else match Written(st, MergedRow(st.rows, cluster, text, r.newId, r.now), text, r.writeFails)
      case None => (st, false)
      case Some(next) => MarkAll(next, cluster, r.newId, r.markFails)
  }

  /** Each id is retired in its own transaction; failures are counted out and skipped. */
  function InvalidateAll(st: Store, ids: seq<MemoryId>, at: Instant, fails: MemoryId -> bool): (r: (Store, nat))
    decreases |ids|
  {
    if ids == [] then (st, 0)
    else match Invalidated(st, ids[0], at, fails(ids[0]))
      case None => InvalidateAll(st, ids[1..], at, fails)
      case Some(next) =>
        var rest := InvalidateAll(next, ids[1..], at, fails);
        (rest.0, rest.1 + 1)
  }

  function Skip(p: Progress, st: Store): Progress {
    Progress(st, p.tally.(skipped := p.tally.skipped + 1))
  }

  /** The model's decision on a cluster that is not a plain duplicate, and its application. */
  function Decide(p: Progress, cluster: Cluster, r: ClusterReply): Progress {
    if r.decision.None? || !Hydrates(p.st.rows, cluster) then Skip(p, p.st)
    else match r.decision.value
      case Merge(text) =>
        var (st, done) := ApplyMerge(p.st, cluster, text, r);
        if done then
          Progress(st, p.tally.(merges := p.tally.merges + 1, mergedMemories := p.tally.mergedMemories + |cluster|))
        else Skip(p, st)
      case KeepSeparate => p
      case Contradiction(None) => p.(tally := p.tally.(queued := p.tally.queued + [cluster]))
      case Contradiction(Some(winner)) =>
        var (st, n) := InvalidateAll(p.st, Without(cluster, winner), r.now, r.invalidateFails);
        Progress(st, p.tally.(autoResolved := p.tally.autoResolved + n))
  }

  function Dispatch(p: Progress, cluster: Cluster, snapshot: Rows, r: ClusterReply): Progress {
    match TryDedup(p.st, cluster, snapshot, r)
    case DedupDone(st, n) =>
      Progress(st, p.tally.(dedupedClusters := p.tally.dedupedClusters + 1, dedupedMemories := p.tally.dedupedMemories + n))
    case DedupError => Skip(p, p.st)
    case NotEligible => Decide(p, cluster, r)
  }

  /** The boundary's clusters in order; `reply(k)` is what the outside answers for the k-th. */
  function DispatchAll(p: Progress, clusters: seq<Cluster>, k: nat, snapshot: Rows, reply: nat -> ClusterReply): Progress
    requires k <= |clusters|
    decreases |clusters| - k
  {
    if k == |clusters| then p
    else DispatchAll(Dispatch(p, clusters[k], snapshot, reply(k)), clusters, k + 1, snapshot, reply)
  }
}
