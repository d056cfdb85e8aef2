/** Phase 4: confidence decay and cold archive of facts nobody has touched for long enough. */
module ColdPass {
  import opened VaultCore
  import opened SortedIds
  import opened Supersession
  import opened Storage
  import opened MergeLaws

  const DECAY_FACTOR: real := 0.9
  /** The gap between 1 and the next single-precision number: a smaller change is not written. */
  const F32_EPSILON: real := 0.00000011920928955078125

  datatype ColdReply = ColdReply(listFails: bool, now: Instant, fails: MemoryId -> bool)

  predicate Expired(m: Memory, now: Instant) {
    m.validUntil.Some? && m.validUntil.value <= now
  }

  predicate Idle(m: Memory, days: nat, now: Instant) {
    now - m.lastAccessed >= days * DAY
  }

  /** The marker of an earlier decay is still fresh. */
  predicate JustDecayed(m: Memory, days: nat, now: Instant) {
    m.metadata.lastDecayAt.Some? && now - m.metadata.lastDecayAt.value < days * DAY
  }

  function Abs(x: real): real {
    if x < 0.0 then -x else x
  }

  predicate Negligible(c: real) {
    Abs(c - c * DECAY_FACTOR) < F32_EPSILON
  }

  predicate DecayDue(m: Memory, days: nat, now: Instant) {
    m.Listed() && !Expired(m, now) && Idle(m, days, now) && !JustDecayed(m, days, now) && !Negligible(m.confidence)
  }

  predicate ArchiveDue(m: Memory, days: nat, now: Instant) {
    m.Listed() && !Expired(m, now) && Idle(m, days, now)
  }

  function Faded(m: Memory, now: Instant): Memory {
    m.(confidence := m.confidence * DECAY_FACTOR, metadata := m.metadata.(lastDecayAt := Some(now)))
  }

  function Shelved(m: Memory, now: Instant): Memory {
    m.(archivedAt := Some(now))
  }

  ghost function DecaySet(rows: Rows, days: nat, now: Instant): set<MemoryId> {
    set id | id in rows && DecayDue(rows[id], days, now)
  }

  ghost function ArchiveSet(rows: Rows, days: nat, now: Instant): set<MemoryId> {
    set id | id in rows && ArchiveDue(rows[id], days, now)
  }

  /** The planned facts whose write goes through. */
  ghost function DecayedIds(rows: Rows, days: nat, r: ColdReply): set<MemoryId> {
    set id | id in DecaySet(rows, days, r.now) && !r.listFails && !r.fails(id) && Faded(rows[id], r.now).Validates()
  }

  ghost function ArchivedIds(rows: Rows, days: nat, r: ColdReply): set<MemoryId> {
    set id | id in ArchiveSet(rows, days, r.now) && !r.listFails && !r.fails(id) && Shelved(rows[id], r.now).Validates()
  }

  ghost function DecayRows(rows: Rows, ids: set<MemoryId>, now: Instant): Rows {
    map id | id in rows :: if id in ids then Faded(rows[id], now) else rows[id]
  }

  ghost function ArchiveRows(rows: Rows, ids: set<MemoryId>, now: Instant): Rows {
    map id | id in rows :: if id in ids then Shelved(rows[id], now) else rows[id]
  }

  ghost function AfterDecay(st: Store, days: nat, r: ColdReply): Store {
    st.(rows := DecayRows(st.rows, DecayedIds(st.rows, days, r), r.now))
  }

  ghost function AfterArchive(st: Store, days: nat, r: ColdReply): Store {
    st.(rows := ArchiveRows(st.rows, ArchivedIds(st.rows, days, r), r.now))
  }

  // ---- the passes ----

  /** The plan, in the order of the enumeration: the first test a fact fails passes it over. */
  method PlanDecay(rows: Rows, ids: seq<MemoryId>, days: nat, now: Instant) returns (plan: seq<MemoryId>)
    requires Distinct(ids) && SetOf(ids) == ListedIds(rows)
    ensures Distinct(plan) && SetOf(plan) == DecaySet(rows, days, now)
  {
    plan := [];
    for i := 0 to |ids|
      invariant Distinct(plan)
      invariant forall id :: id in plan <==> id in ids[..i] && id in DecaySet(rows, days, now)
    {
      assert ids[i] in SetOf(ids) && ids[i] !in ids[..i];
      assert ids[..i + 1] == ids[..i] + [ids[i]];
      var m := rows[ids[i]];
      if m.supersededBy.Some? { continue; }
      if Expired(m, now) { continue; }
      if now - m.lastAccessed < days * DAY { continue; }
      if m.metadata.lastDecayAt.Some? && now - m.metadata.lastDecayAt.value < days * DAY { continue; }
      var faded := m.confidence * DECAY_FACTOR;
      if Abs(m.confidence - faded) < F32_EPSILON { continue; }
      plan := plan + [ids[i]];
    }
    assert ids[..|ids|] == ids;
    assert forall id | id in DecaySet(rows, days, now) :: id in SetOf(ids);
  }

  method PlanArchive(rows: Rows, ids: seq<MemoryId>, days: nat, now: Instant) returns (plan: seq<MemoryId>)
    requires Distinct(ids) && SetOf(ids) == ListedIds(rows)
    ensures Distinct(plan) && SetOf(plan) == ArchiveSet(rows, days, now)
  {
    plan := [];
    for i := 0 to |ids|
      invariant Distinct(plan)
      invariant forall id :: id in plan <==> id in ids[..i] && id in ArchiveSet(rows, days, now)
    {
      assert ids[i] in SetOf(ids) && ids[i] !in ids[..i];
      assert ids[..i + 1] == ids[..i] + [ids[i]];
      var m := rows[ids[i]];
      if m.archivedAt.Some? { continue; }
      if m.supersededBy.Some? { continue; }
      if Expired(m, now) { continue; }
      if now - m.lastAccessed < days * DAY { continue; }
      plan := plan + [ids[i]];
    }
    assert ids[..|ids|] == ids;
    assert forall id | id in ArchiveSet(rows, days, now) :: id in SetOf(ids);
  }

  /** The default enumeration, in id order. */
  method ListMemories(rows: Rows) returns (ids: seq<MemoryId>)
    ensures Distinct(ids) && SetOf(ids) == ListedIds(rows)
  {
    ids := Sorted(ListedIds(rows));
  }

  lemma PlanStep(target: set<MemoryId>, plan: seq<MemoryId>, i: nat)
    requires Distinct(plan) && i < |plan|
    ensures var done, more := target * SetOf(plan[..i]), target * SetOf(plan[..i + 1]);
      && plan[i] in SetOf(plan) && plan[i] !in done
      && more == (if plan[i] in target then done + {plan[i]} else done)
      && |more| == if plan[i] in target then |done| + 1 else |done|
  {
  }

  lemma PlanDone(target: set<MemoryId>, plan: seq<MemoryId>)
    requires target <= SetOf(plan)
    ensures target * SetOf(plan[..0]) == {} && target * SetOf(plan[..|plan|]) == target
  {
  }

  method FadeOne(storage: StorageBackend, rows: Rows, ghost done: set<MemoryId>, id: MemoryId, now: Instant, fails: bool)
    returns (ok: bool)
    requires id in rows && id !in done && storage.rows == DecayRows(rows, done, now)
    modifies storage
    ensures storage.vectors == old(storage.vectors)
    ensures ok <==> !fails && Faded(rows[id], now).Validates()
    ensures storage.rows == DecayRows(rows, if ok then done + {id} else done, now)
  {
    ok := storage.ApplyDecay(id, rows[id].confidence * DECAY_FACTOR, rows[id].metadata.(lastDecayAt := Some(now)), fails);
  }

  /** The decay pass: a failed enumeration skips it, a failed write skips one fact. */
  method DecayMemories(storage: StorageBackend, days: nat, r: ColdReply) returns (decayed: nat)
    modifies storage
    ensures storage.vectors == old(storage.vectors)
    ensures storage.rows == AfterDecay(old(storage.View()), days, r).rows
    ensures decayed == |DecayedIds(old(storage.rows), days, r)|
  {
    decayed := 0;
    var rows := storage.rows;
    ghost var target := DecayedIds(rows, days, r);
    assert DecayRows(rows, {}, r.now) == rows;
    if r.listFails {
      assert target == {};
      return;
    }
    var ids := ListMemories(rows);
    var plan := PlanDecay(rows, ids, days, r.now);
    PlanDone(target, plan);
    for i := 0 to |plan|
      invariant storage.vectors == old(storage.vectors)
      invariant storage.rows == DecayRows(rows, target * SetOf(plan[..i]), r.now)
      invariant decayed == |target * SetOf(plan[..i])|
    {
      PlanStep(target, plan, i);
      var ok := FadeOne(storage, rows, target * SetOf(plan[..i]), plan[i], r.now, r.fails(plan[i]));
      if ok { decayed := decayed + 1; }
    }
  }

  method ShelveOne(storage: StorageBackend, rows: Rows, ghost done: set<MemoryId>, id: MemoryId, now: Instant, fails: bool)
    returns (ok: bool)
    requires id in rows && id !in done && storage.rows == ArchiveRows(rows, done, now)
    modifies storage
    ensures storage.vectors == old(storage.vectors)
    ensures ok <==> !fails && Shelved(rows[id], now).Validates()
    ensures storage.rows == ArchiveRows(rows, if ok then done + {id} else done, now)
  {
    ok := storage.ApplyArchive(id, now, fails);
  }

  /** The archive pass, with the same failure rules. */
  method ArchiveMemories(storage: StorageBackend, days: nat, r: ColdReply) returns (archived: nat)
    modifies storage
    ensures storage.vectors == old(storage.vectors)
    ensures storage.rows == AfterArchive(old(storage.View()), days, r).rows
    ensures archived == |ArchivedIds(old(storage.rows), days, r)|
  {
    archived := 0;
    var rows := storage.rows;
    ghost var target := ArchivedIds(rows, days, r);
    assert ArchiveRows(rows, {}, r.now) == rows;
    if r.listFails {
      assert target == {};
      return;
    }
    var ids := ListMemories(rows);
    var plan := PlanArchive(rows, ids, days, r.now);
    PlanDone(target, plan);
    for i := 0 to |plan|
      invariant storage.vectors == old(storage.vectors)
      invariant storage.rows == ArchiveRows(rows, target * SetOf(plan[..i]), r.now)
      invariant archived == |target * SetOf(plan[..i])|
    {
      PlanStep(target, plan, i);
      var ok := ShelveOne(storage, rows, target * SetOf(plan[..i]), plan[i], r.now, r.fails(plan[i]));
      if ok { archived := archived + 1; }
    }
  }

  // ---- laws ----

  /** Links, boundary and everything a run may not change are as they were. */
  ghost predicate Kept(m: Memory, n: Memory) {
    SameLink(m, n) && Ages(m, n)
  }

  lemma KeptLaw(st: Store, rows: Rows)
    requires Forest(st.rows) && rows.Keys == st.rows.Keys
    requires forall id | id in st.rows :: Kept(st.rows[id], rows[id])
    ensures Forest(rows) && Extends(st, st.(rows := rows))
  {
    SameLinksKeepForest(st.rows, rows);
  }

  /** The decay pass keeps the forest and only ages rows; it touches no row that is not listed. */
  lemma DecayLaw(st: Store, days: nat, r: ColdReply)
    requires Forest(st.rows)
    ensures var next := AfterDecay(st, days, r);
      Forest(next.rows) && Extends(st, next) && Untouched(st, next, ListedIds(st.rows))
  {
    var rows := DecayRows(st.rows, DecayedIds(st.rows, days, r), r.now);
    forall id | id in st.rows ensures Kept(st.rows[id], rows[id]) { }
    KeptLaw(st, rows);
  }

  /** So does the archive pass. */
  lemma ArchiveLaw(st: Store, days: nat, r: ColdReply)
    requires Forest(st.rows)
    ensures var next := AfterArchive(st, days, r);
      Forest(next.rows) && Extends(st, next) && Untouched(st, next, ListedIds(st.rows))
  {
    var rows := ArchiveRows(st.rows, ArchivedIds(st.rows, days, r), r.now);
    forall id | id in st.rows ensures Kept(st.rows[id], rows[id]) { }
    KeptLaw(st, rows);
  }

  /** Which facts a decay pass fades, and how: those in use, still true, untouched for the period and not
      faded within it, whose confidence the step would change noticeably and whose write goes through; it
      takes a tenth off their confidence and notes when. No other fact changes. */
  lemma FadedIff(st: Store, days: nat, r: ColdReply, id: MemoryId)
    requires id in st.rows && st.rows[id].Validates()
    ensures var m, n := st.rows[id], AfterDecay(st, days, r).rows[id];
      && (n == m || n == m.(confidence := 0.9 * m.confidence, metadata := m.metadata.(lastDecayAt := Some(r.now))))
      && (id in DecayedIds(st.rows, days, r) <==>
            && !r.listFails && !r.fails(id)
            && m.supersededBy.None? && m.archivedAt.None? && (m.validUntil.Some? ==> m.validUntil.value > r.now)
            && r.now - m.lastAccessed >= days * 86_400_000_000
            && (m.metadata.lastDecayAt.Some? ==> r.now - m.metadata.lastDecayAt.value >= days * 86_400_000_000)
            && 0.1 * m.confidence >= 0.00000011920928955078125)
      && (id in DecayedIds(st.rows, days, r) <==> n.confidence != m.confidence)
  {
    var c := st.rows[id].confidence;
    assert 0.0 <= c * DECAY_FACTOR <= c;
    assert Abs(c - c * DECAY_FACTOR) == 0.1 * c;
  }

  /** Which facts an archive pass shelves: those in use, still true and untouched for the period, whose write
      goes through; it marks when. */
  lemma ShelvedIff(st: Store, days: nat, r: ColdReply, id: MemoryId)
    requires id in st.rows && st.rows[id].Validates()
    ensures var m, n := st.rows[id], AfterArchive(st, days, r).rows[id];
      && (n == m || n == m.(archivedAt := Some(r.now)))
      && (n != m <==>
            && !r.listFails && !r.fails(id)
            && m.supersededBy.None? && m.archivedAt.None? && (m.validUntil.Some? ==> m.validUntil.value > r.now)
            && r.now - m.lastAccessed >= days * 86_400_000_000)
  {
    assert Shelved(st.rows[id], r.now).Validates();
  }

  /** A second decay pass straight after one without failures finds nothing to do exactly when the
      configured period is positive, or nothing it faded is still worth fading again. */
  lemma DecayConvergesIff(rows: Rows, days: nat, r: ColdReply)
    requires DecayedIds(rows, days, r) == DecaySet(rows, days, r.now)
    ensures DecaySet(DecayRows(rows, DecaySet(rows, days, r.now), r.now), days, r.now) == {}
      <==> days > 0 || forall id | id in DecaySet(rows, days, r.now) :: Negligible(rows[id].confidence * DECAY_FACTOR)
  {
    var due := DecaySet(rows, days, r.now);
    var next := DecayRows(rows, due, r.now);
    var again := DecaySet(next, days, r.now);
    if days == 0 {
      forall id | id in due ensures id in again <==> !Negligible(rows[id].confidence * DECAY_FACTOR) {
        assert Idle(next[id], days, r.now) == Idle(rows[id], days, r.now);
      }
    } else {
      assert forall id | id in due :: JustDecayed(next[id], days, r.now);
    }
    assert again <= due;
  }

  /** A fact faded at one instant is not faded again by any pass less than a period later, whatever
      else happened to its row in between short of rewriting its marker. */
  lemma DecayOncePerPeriod(rows: Rows, later: Rows, days: nat, r: ColdReply, next: Instant, id: MemoryId)
    requires id in DecayedIds(rows, days, r) && next - r.now < days * DAY
    requires id in later && later[id].metadata.lastDecayAt == AfterDecay(Store(rows, map[]), days, r).rows[id].metadata.lastDecayAt
    ensures id !in DecaySet(later, days, next)
  {
  }

  /** After an archive pass, what a second one at the same instant would still move is exactly what
      failed to move the first time. */
  lemma ArchiveConverges(rows: Rows, days: nat, r: ColdReply)
    ensures var done := ArchivedIds(rows, days, r);
      ArchiveSet(ArchiveRows(rows, done, r.now), days, r.now) == ArchiveSet(rows, days, r.now) - done
  {
  }
}
