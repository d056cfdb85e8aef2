/** Phase 2b: contradiction candidates of one boundary, their judgement, and the retirement of
    the older side. The neighbour search, the judge, the clock and every failing call are inputs;
    which pairs are asked about, which answers count and which fact goes are the program's. */
module Contradiction {
  import opened VaultCore
  import opened SortedIds
  import opened Clusters
  import opened Supersession
  import opened Storage
  import opened MergePhase
  import opened MergeLaws

  type Pair = (MemoryId, MemoryId)

  function PairSet(pairs: seq<Pair>): set<Pair> {
    set e | e in pairs
  }

  // ---- candidate pairs ----

  ghost predicate Proposes(near: Neighbours, seed: MemoryId, other: MemoryId) {
    other in NearOf(near, seed) && other != seed
  }

  /** The unordered pairs of active facts that an examined seed proposes, each written once with
      the smaller id first. */
  ghost function CandidatePairs(active: set<MemoryId>, seeds: set<MemoryId>, near: Neighbours): set<Pair> {
    set s, n | s in seeds && s in active && n in active && Proposes(near, s, n) :: Canonical(s, n)
  }

  /** The incremental pairs against the full sweep's, each with its own search: what an incremental run
      asks about, what it leaves out, and when everything it asks about is among the full sweep's. */
  lemma IncrementalRefinesFull(active: set<MemoryId>, seeds: set<MemoryId>, search: Neighbours, sweep: Neighbours, a: MemoryId, b: MemoryId)
    requires a < b && a in active && b in active
    ensures (a, b) in CandidatePairs(active, seeds, search)
      <==> (a in seeds && Proposes(search, a, b)) || (b in seeds && Proposes(search, b, a))
    ensures (a, b) in CandidatePairs(active, active, sweep) && (a, b) !in CandidatePairs(active, seeds, search)
      <==> (Proposes(sweep, a, b) || Proposes(sweep, b, a))
           && (a in seeds ==> !Proposes(search, a, b)) && (b in seeds ==> !Proposes(search, b, a))
    ensures CandidatePairs(active, seeds, search) <= CandidatePairs(active, active, sweep)
      <==> forall s, n | s in seeds * active && n in active && Proposes(search, s, n) ::
             Proposes(sweep, s, n) || Proposes(sweep, n, s)
  {
    WithinIff(active, seeds, search, sweep);
  }

  lemma WithinIff(active: set<MemoryId>, seeds: set<MemoryId>, search: Neighbours, sweep: Neighbours)
    ensures CandidatePairs(active, seeds, search) <= CandidatePairs(active, active, sweep)
      <==> forall s, n | s in seeds * active && n in active && Proposes(search, s, n) ::
             Proposes(sweep, s, n) || Proposes(sweep, n, s)
  {
    if CandidatePairs(active, seeds, search) <= CandidatePairs(active, active, sweep) {
      forall s, n | s in seeds * active && n in active && Proposes(search, s, n)
        ensures Proposes(sweep, s, n) || Proposes(sweep, n, s)
      {
        assert Canonical(s, n) in CandidatePairs(active, seeds, search);
      }
    }
  }

  /** With every active fact a seed and the searches agreeing, the incremental pairs are the full
      sweep's; when nearness is mutual, all that an incremental run leaves out is pairs of unchanged
      facts. */
  lemma IncrementalEqualsFull(active: set<MemoryId>, seeds: set<MemoryId>, search: Neighbours, sweep: Neighbours)
    requires forall s, n | s in active && n in active :: Proposes(search, s, n) <==> Proposes(sweep, s, n)
    ensures active <= seeds ==> CandidatePairs(active, seeds, search) == CandidatePairs(active, active, sweep)
    ensures (forall x, y | x in active && y in active :: Proposes(sweep, x, y) ==> Proposes(sweep, y, x)) ==>
      forall e | e in CandidatePairs(active, active, sweep) ::
        e in CandidatePairs(active, seeds, search) <==> e.0 in seeds || e.1 in seeds
  {
  }

  /** The order of a `BTreeSet` of pairs. */
  predicate PairBelow(e: Pair, f: Pair) {
    e.0 < f.0 || (e.0 == f.0 && e.1 < f.1)
  }

  function LeastPair(s: set<Pair>): (m: Pair)
    requires s != {}
    ensures m in s && forall e | e in s :: e == m || PairBelow(m, e)
  {
    var firsts := set e | e in s :: e.0;
    var some :| some in s;
    assert some.0 in firsts;
    var a := Least(firsts);
    var top :| top in s && top.0 == a;
    var seconds := set e | e in s && e.0 == a :: e.1;
    assert top.1 in seconds;
    assert forall e | e in s :: e.0 in firsts && (e.0 == a ==> e.1 in seconds);
    (a, Least(seconds))
  }

  method PairsInOrder(s: set<Pair>) returns (pairs: seq<Pair>)
    ensures forall e :: e in pairs <==> e in s
    ensures forall i, j | 0 <= i < j < |pairs| :: PairBelow(pairs[i], pairs[j])
  {
    pairs := [];
    var todo := s;
    while todo != {}
      invariant todo <= s
      invariant forall e :: e in pairs <==> e in s - todo
      invariant forall i, j | 0 <= i < j < |pairs| :: PairBelow(pairs[i], pairs[j])
      invariant forall e, f | e in pairs && f in todo :: PairBelow(e, f)
      decreases todo
    {
      var m := LeastPair(todo);
      pairs := pairs + [m];
      todo := todo - {m};
    }
  }

  lemma OneMoreSeedPairs(active: set<MemoryId>, seeds: set<MemoryId>, near: Neighbours, s: MemoryId)
    ensures CandidatePairs(active, seeds + {s}, near) == CandidatePairs(active, seeds, near) + CandidatePairs(active, {s}, near)
  {
  }

  /** The pairs one seed adds to `pair_ids`, whether or not the seed itself turns out active. */
  method PairsOfSeed(active: set<MemoryId>, seed: MemoryId, found: seq<MemoryId>) returns (keys: set<Pair>)
    ensures forall e :: e in keys <==> exists n | n in found && n != seed && n in active :: e == Canonical(seed, n)
  {
    keys := {};
    for j := 0 to |found|
      invariant forall e :: e in keys <==> exists n | n in found[..j] && n != seed && n in active :: e == Canonical(seed, n)
    {
      var n := found[j];
      assert found[..j + 1] == found[..j] + [n];
      if n != seed && n in active { keys := keys + {Canonical(seed, n)}; }
    }
    assert found[..|found|] == found;
  }

  /** The loop over the seeds, then the look-up that drops a pair with an end outside the active
      set. `None` when an embedding or a search fails: the whole run ends there. */
  method GatherPairs(active: set<MemoryId>, seeds: set<MemoryId>, near: Neighbours) returns (pairs: Option<seq<Pair>>)
    ensures pairs.None? <==> exists s | s in seeds :: near(s).None?
    ensures pairs.Some? ==>
      && (forall e :: e in pairs.value <==> e in CandidatePairs(active, seeds, near))
      && (forall i, j | 0 <= i < j < |pairs.value| :: PairBelow(pairs.value[i], pairs.value[j]))
  {
    var keys: set<Pair>, todo := {}, seeds;
    while todo != {}
      invariant todo <= seeds
      invariant forall s | s in seeds - todo :: near(s).Some?
      invariant (set e | e in keys && e.0 in active && e.1 in active) == CandidatePairs(active, seeds - todo, near)
      decreases todo
    {
      var seed := Least(todo);
      if near(seed).None? { return None; }
      var more := PairsOfSeed(active, seed, near(seed).value);
      assert (set e | e in more && e.0 in active && e.1 in active) == CandidatePairs(active, {seed}, near);
      OneMoreSeedPairs(active, seeds - todo, near, seed);
      assert seeds - (todo - {seed}) == (seeds - todo) + {seed};
      keys, todo := keys + more, todo - {seed};
    }
    assert seeds - todo == seeds;
    var kept := PairsInOrder((set e | e in keys && e.0 in active && e.1 in active));
    pairs := Some(kept);
  }

  // ---- judging ----

  datatype PairVerdict = PairVerdict(contradiction: bool, sharedAttribute: Option<string>)

  /** `None` is a failed or malformed answer. */
  type Judge = Pair -> Option<PairVerdict>

  /** Newest wins; equal `valid_from` cannot be decided. */
  function StaleByRecency(a: Memory, b: Memory): Option<MemoryId> {
    if a.validFrom < b.validFrom then Some(a.id)
    else if a.validFrom > b.validFrom then Some(b.id)
    else None
  }

  /** A contradiction counts only with the attribute it is about. */
  predicate Confirmed(judge: Judge, e: Pair) {
    judge(e).Some? && judge(e).value.contradiction && judge(e).value.sharedAttribute.Some?
  }

  /** `x` is the older side of a confirmed candidate pair. */
  ghost predicate Outdated(rows: Rows, pairs: set<Pair>, judge: Judge, x: MemoryId) {
    exists e :: e in pairs && Confirmed(judge, e) && OlderSide(rows, e, x)
  }

  predicate OlderSide(rows: Rows, e: Pair, x: MemoryId) {
    && e.0 in rows && e.1 in rows
    && ((x == e.0 && rows[e.0].validFrom < rows[e.1].validFrom) || (x == e.1 && rows[e.1].validFrom < rows[e.0].validFrom))
  }

  ghost function StaleSet(rows: Rows, pairs: set<Pair>, judge: Judge): set<MemoryId> {
    set x | x in rows && Outdated(rows, pairs, judge, x)
  }

  /** What flags a fact, from the answers alone: a judged pair answered as a contradiction about a named
      attribute, of which the fact is the side that became true earlier. */
  lemma FlaggedIff(rows: Rows, pairs: set<Pair>, judge: Judge, x: MemoryId)
    requires forall e | e in pairs :: e.0 in rows && e.1 in rows
    ensures x in StaleSet(rows, pairs, judge) <==> exists e ::
      && e in pairs
      && judge(e).Some? && judge(e).value.contradiction && judge(e).value.sharedAttribute.Some?
      && ((x == e.0 && rows[e.0].validFrom < rows[e.1].validFrom) || (x == e.1 && rows[e.1].validFrom < rows[e.0].validFrom))
  {
  }

  /** Each pair is judged; one bad answer never stops the others; an id is listed once. */
  method JudgeCandidatePairs(rows: Rows, pairs: seq<Pair>, judge: Judge) returns (stale: seq<MemoryId>)
    requires Keyed(rows) && forall e | e in pairs :: e.0 in rows && e.1 in rows
    ensures Distinct(stale)
    ensures SetOf(stale) == StaleSet(rows, PairSet(pairs), judge)
    ensures forall x :: x in stale <==> exists e ::
      && e in PairSet(pairs)
      && judge(e).Some? && judge(e).value.contradiction && judge(e).value.sharedAttribute.Some?
      && ((x == e.0 && rows[e.0].validFrom < rows[e.1].validFrom) || (x == e.1 && rows[e.1].validFrom < rows[e.0].validFrom))
  {
    stale := [];
    for i := 0 to |pairs|
      invariant Distinct(stale)
      invariant forall x | x in stale :: x in rows
      invariant forall x :: x in stale <==> Outdated(rows, PairSet(pairs[..i]), judge, x)
    {
      var e := pairs[i];
      assert e in pairs;
      ghost var done := PairSet(pairs[..i]);
      assert pairs[..i + 1] == pairs[..i] + [e];
      assert PairSet(pairs[..i + 1]) == done + {e};
      forall x ensures Outdated(rows, done + {e}, judge, x) <==> Outdated(rows, done, judge, x) || (Confirmed(judge, e) && OlderSide(rows, e, x)) {
        if Outdated(rows, done, judge, x) {
          var f :| f in done && Confirmed(judge, f) && OlderSide(rows, f, x);
          assert f in done + {e};
        }
      }
      match judge(e) {
        case None =>
        case Some(v) =>
          if v.contradiction && v.sharedAttribute.Some? {
            var older := StaleByRecency(rows[e.0], rows[e.1]);
            if older.Some? && older.value !in stale { stale := stale + [older.value]; }
          }
      }
    }
    assert pairs[..|pairs|] == pairs;
    forall x ensures x in stale <==> exists e ::
      && e in PairSet(pairs)
      && judge(e).Some? && judge(e).value.contradiction && judge(e).value.sharedAttribute.Some?
      && ((x == e.0 && rows[e.0].validFrom < rows[e.1].validFrom) || (x == e.1 && rows[e.1].validFrom < rows[e.0].validFrom))
    {
      FlaggedIff(rows, PairSet(pairs), judge, x);
      assert x in stale <==> x in StaleSet(rows, PairSet(pairs), judge);
    }
  }

  /** Recency keeps the newest: a fact no candidate is newer than is never judged stale. */
  lemma NewestNeverStale(rows: Rows, pairs: set<Pair>, judge: Judge, newest: MemoryId)
    requires newest in rows
    requires forall e | e in pairs :: e.0 in rows && rows[e.0].validFrom <= rows[newest].validFrom
    requires forall e | e in pairs :: e.1 in rows && rows[e.1].validFrom <= rows[newest].validFrom
    ensures newest !in StaleSet(rows, pairs, judge)
  {
  }

  // ---- the mass-invalidate guard ----

  datatype StaleResolution = Nothing | Invalidate(ids: seq<MemoryId>) | RefusedMassInvalidate(inGroup: nat, group: nat)

  /** `x` turns up in `v` before `y` does. */
  ghost predicate Before(v: seq<MemoryId>, x: MemoryId, y: MemoryId) {
    exists i :: 0 <= i < |v| && v[i] == x && y !in v[..i]
  }

  /** `r` lists the ids of `v` that are in the group, each once, in order of first occurrence. */
  ghost predicate FirstOccurrences(v: seq<MemoryId>, group: set<MemoryId>, r: seq<MemoryId>) {
    && Distinct(r)
    && SetOf(r) == SetOf(v) * group
    && forall i, j | 0 <= i < j < |r| :: Before(v, r[i], r[j])
  }

  lemma BeforeExtends(v: seq<MemoryId>, id: MemoryId, r: seq<MemoryId>)
    requires forall i, j | 0 <= i < j < |r| :: Before(v, r[i], r[j])
    ensures forall i, j | 0 <= i < j < |r| :: Before(v + [id], r[i], r[j])
  {
    forall i, j | 0 <= i < j < |r| ensures Before(v + [id], r[i], r[j]) {
      var k :| 0 <= k < |v| && v[k] == r[i] && r[j] !in v[..k];
      assert (v + [id])[k] == r[i] && (v + [id])[..k] == v[..k];
    }
  }

  /** The verdict reduced to the group; a sweep of the whole group is refused. */
  method ResolveStaleIds(verdict: seq<MemoryId>, group: set<MemoryId>) returns (r: StaleResolution)
    ensures r.Nothing? <==> SetOf(verdict) * group == {}
    ensures r.RefusedMassInvalidate? <==> group != {} && group <= SetOf(verdict)
    ensures r.RefusedMassInvalidate? ==> r.inGroup == r.group == |group|
    ensures r.Invalidate? ==> FirstOccurrences(verdict, group, r.ids)
  {
    var inGroup: seq<MemoryId> := [];
    for i := 0 to |verdict|
      invariant FirstOccurrences(verdict[..i], group, inGroup)
    {
      var id := verdict[i];
      assert verdict[..i + 1] == verdict[..i] + [id];
      assert SetOf(verdict[..i + 1]) == SetOf(verdict[..i]) + {id};
      BeforeExtends(verdict[..i], id, inGroup);
      if id in group && id !in inGroup {
        assert id !in SetOf(inGroup) && id !in verdict[..i];
        forall k | 0 <= k < |inGroup| ensures Before(verdict[..i + 1], inGroup[k], id) {
          assert inGroup[k] in SetOf(inGroup);
          var n :| 0 <= n < i && verdict[n] == inGroup[k];
          assert verdict[..i + 1][n] == inGroup[k] && id !in verdict[..i + 1][..n];
        }
        assert SetOf(inGroup + [id]) == SetOf(inGroup) + {id};
        inGroup := inGroup + [id];
      }
    }
    assert verdict[..|verdict|] == verdict;
    DistinctCount(inGroup);
    CoverByCount(SetOf(inGroup), group);
    if inGroup == [] { return Nothing; }
    assert inGroup[0] in SetOf(inGroup);
    if |inGroup| >= |group| { return RefusedMassInvalidate(|inGroup|, |group|); }
    r := Invalidate(inGroup);
  }

  lemma {:induction false} CoverByCount(s: set<MemoryId>, group: set<MemoryId>)
    requires s <= group
    ensures |s| <= |group| && (|s| == |group| <==> s == group)
    decreases group
  {
    if s != {} {
      var x :| x in s;
      CoverByCount(s - {x}, group - {x});
      assert s == s - {x} + {x} && group == group - {x} + {x};
    } else if group != {} {
      assert |group| > 0;
    }
  }

  // ---- one boundary of Phase 2b ----

  datatype JudgeReply = JudgeReply(
    seedListFails: bool,
    near: Neighbours,
    judge: Judge,
    now: Instant,
    invalidateFails: MemoryId -> bool)

  ghost function SeedsFor(st: Store, active: set<MemoryId>, b: Boundary, since: Option<Instant>): set<MemoryId> {
    if since.None? then active else SeedsIn(st.rows, b, since)
  }

  ghost predicate Aborts(st: Store, snapshot: Rows, b: Boundary, since: Option<Instant>, r: JudgeReply) {
    && |ActiveIn(snapshot, b)| >= 2
    && ((since.Some? && r.seedListFails) || exists s | s in SeedsFor(st, ActiveIn(snapshot, b), b, since) :: r.near(s).None?)
  }

  /** The facts of the boundary judged stale, out of the enumeration Phase 2b started from. */
  ghost function StaleIn(st: Store, snapshot: Rows, b: Boundary, since: Option<Instant>, r: JudgeReply): set<MemoryId> {
    var active := ActiveIn(snapshot, b);
    if |active| < 2 then {}
    else StaleSet(snapshot, CandidatePairs(active, SeedsFor(st, active, b, since), r.near), r.judge)
  }

  ghost function AfterRetirement(st: Store, snapshot: Rows, b: Boundary, since: Option<Instant>, r: JudgeReply): Store {
    st.(rows := RetireRows(st.rows, RetiredIn(st, snapshot, b, since, r), r.now))
  }

  ghost function RetiredIn(st: Store, snapshot: Rows, b: Boundary, since: Option<Instant>, r: JudgeReply): set<MemoryId> {
    RetiredIds(st.rows, StaleIn(st, snapshot, b, since, r), r.now, r.invalidateFails)
  }

  /** A fact of the boundary that is at least as recent as every other. */
  ghost predicate Newest(rows: Rows, b: Boundary, id: MemoryId) {
    id in ActiveIn(rows, b) && forall k | k in ActiveIn(rows, b) :: rows[k].validFrom <= rows[id].validFrom
  }

  lemma {:induction false} NewestOf(rows: Rows, ids: set<MemoryId>) returns (top: MemoryId)
    requires ids != {} && ids <= rows.Keys
    ensures top in ids && forall k | k in ids :: rows[k].validFrom <= rows[top].validFrom
    decreases ids
  {
    var x :| x in ids;
    top := x;
    if ids - {x} != {} {
      var y := NewestOf(rows, ids - {x});
      if rows[y].validFrom > rows[x].validFrom { top := y; }
      assert forall k | k in ids :: k == x || k in ids - {x};
    } else {
      assert forall k | k in ids :: k == x || k in ids - {x};
    }
  }

  /** Only active facts of the boundary are judged stale, and never its newest ones: the sweep the
      guard refuses cannot come from the judged pairs. */
  lemma StaleLeavesNewest(st: Store, snapshot: Rows, b: Boundary, since: Option<Instant>, r: JudgeReply)
    ensures StaleIn(st, snapshot, b, since, r) <= ActiveIn(snapshot, b)
    ensures forall id | Newest(snapshot, b, id) :: id !in StaleIn(st, snapshot, b, since, r)
    ensures ActiveIn(snapshot, b) != {} ==> exists id :: Newest(snapshot, b, id)
  {
    var active := ActiveIn(snapshot, b);
    var pairs := CandidatePairs(active, SeedsFor(st, active, b, since), r.near);
    assert forall e | e in pairs :: e.0 in active && e.1 in active;
    forall id | Newest(snapshot, b, id) ensures id !in StaleIn(st, snapshot, b, since, r) {
      NewestNeverStale(snapshot, pairs, r.judge, id);
    }
    if active != {} {
      var top := NewestOf(snapshot, active);
      assert Newest(snapshot, b, top);
    }
  }

  /** No answer about `id` is a contradiction about something. */
  ghost predicate Cleared(judge: Judge, id: MemoryId) {
    forall e: Pair | id == e.0 || id == e.1 ::
      judge(e).None? || !judge(e).value.contradiction || judge(e).value.sharedAttribute.None?
  }

  lemma ClearedIsKept(st: Store, snapshot: Rows, b: Boundary, since: Option<Instant>, r: JudgeReply, id: MemoryId)
    requires id in st.rows && Cleared(r.judge, id)
    ensures var next := AfterRetirement(st, snapshot, b, since, r).rows;
      id in next && next[id] == st.rows[id]
  {
    var active := ActiveIn(snapshot, b);
    var pairs := CandidatePairs(active, SeedsFor(st, active, b, since), r.near);
    if id in StaleIn(st, snapshot, b, since, r) {
      FlaggedIff(snapshot, pairs, r.judge, id);
    }
  }

  /** The boundary's turn in Phase 2b. */
  method RetireContradictions(storage: StorageBackend, snapshot: Rows, b: Boundary, since: Option<Instant>, r: JudgeReply)
    returns (retired: Option<nat>)
    requires Keyed(snapshot)
    modifies storage
    ensures retired.None? <==> Aborts(old(storage.View()), snapshot, b, since, r)
    ensures retired.None? <==>
      && |ActiveIn(snapshot, b)| >= 2
      && match since
         case None => exists s | s in ActiveIn(snapshot, b) :: r.near(s).None?
         case Some(at) =>
           r.seedListFails
           || exists s | s in ActiveIn(old(storage.rows), b) :: old(storage.rows)[s].createdAt >= at && r.near(s).None?
    ensures retired.None? ==> storage.View() == old(storage.View())
    ensures retired.Some? ==>
      && storage.View() == AfterRetirement(old(storage.View()), snapshot, b, since, r)
      && retired.value == |RetiredIn(old(storage.View()), snapshot, b, since, r)|
    ensures forall id | id in old(storage.rows) && Cleared(r.judge, id) :: id in storage.rows && storage.rows[id] == old(storage.rows)[id]
  {
    forall id | id in storage.rows && Cleared(r.judge, id)
      ensures var next := AfterRetirement(storage.View(), snapshot, b, since, r).rows;
        id in next && next[id] == storage.rows[id]
    {
      ClearedIsKept(storage.View(), snapshot, b, since, r, id);
    }
    ghost var st := storage.View();
    var active := ActiveIn(snapshot, b);
    if |active| < 2 {
      assert RetiredIn(st, snapshot, b, since, r) == {};
      assert RetireRows(st.rows, {}, r.now) == st.rows;
      return Some(0);
    }
    var seeds := active;
    if since.Some? {
      if r.seedListFails { return None; }
      seeds := SeedsIn(storage.rows, b, since);
    }
    var gathered := GatherPairs(active, seeds, r.near);
    if gathered.None? { return None; }
    var pairs := gathered.value;
    assert PairSet(pairs) == CandidatePairs(active, seeds, r.near);
    assert forall e | e in pairs :: e in CandidatePairs(active, seeds, r.near) && e.0 in snapshot && e.1 in snapshot;
    var stale := JudgeCandidatePairs(snapshot, pairs, r.judge);
    assert SetOf(stale) == StaleIn(st, snapshot, b, since, r);
    StaleLeavesNewest(st, snapshot, b, since, r);
    var resolution := ResolveStaleIds(stale, active);
    match resolution {
      case Nothing =>
        assert SetOf(stale) * active == SetOf(stale);
        assert RetiredIn(st, snapshot, b, since, r) == {};
        assert RetireRows(st.rows, {}, r.now) == st.rows;
        retired := Some(0);
      case RefusedMassInvalidate(_, _) =>
        assert false;
      case Invalidate(ids) =>
        assert SetOf(ids) == SetOf(stale);
        InvalidateAllExact(st, ids, r.now, r.invalidateFails);
        var n := RetireEach(storage, ids, r.now, r.invalidateFails);
        retired := Some(n);
    }
  }

  /** A failed retirement is logged and skipped; only successes are counted. */
  method RetireEach(storage: StorageBackend, ids: seq<MemoryId>, at: Instant, fails: MemoryId -> bool) returns (n: nat)
    modifies storage
    ensures storage.View() == InvalidateAll(old(storage.View()), ids, at, fails).0
    ensures n == InvalidateAll(old(storage.View()), ids, at, fails).1
  {
    n := 0;
    for i := 0 to |ids|
      invariant InvalidateAll(old(storage.View()), ids, at, fails).0 == InvalidateAll(storage.View(), ids[i..], at, fails).0
      invariant InvalidateAll(old(storage.View()), ids, at, fails).1 == n + InvalidateAll(storage.View(), ids[i..], at, fails).1
    {
      assert ids[i..][0] == ids[i] && ids[i..][1..] == ids[i + 1..];
      var ok := storage.Invalidate(ids[i], at, fails(ids[i]));
      if ok { n := n + 1; }
    }
  }

  /** Phase 2b on one boundary, for any verdicts and any failures: only active facts of the
      boundary are touched, the rest of the vault is as it was, a fact the boundary still holds
      current is as recent as any it held, and what it counts is exactly what it retired. */
  lemma RetirementLaw(st: Store, snapshot: Rows, b: Boundary, since: Option<Instant>, r: JudgeReply)
    requires Forest(st.rows)
    requires forall id | id in ActiveIn(snapshot, b) :: id in st.rows && st.rows[id] == snapshot[id]
    ensures var next := AfterRetirement(st, snapshot, b, since, r);
      && Forest(next.rows) && Extends(st, next) && Untouched(st, next, StaleIn(st, snapshot, b, since, r))
      && (forall id | Newest(snapshot, b, id) :: id in ActiveIn(next.rows, b))
      && (ActiveIn(snapshot, b) != {} ==> ActiveIn(next.rows, b) != {})
      && |ActiveIn(st.rows, b)| == |ActiveIn(next.rows, b)| + |RetiredIn(st, snapshot, b, since, r)|
  {
    var done := RetiredIn(st, snapshot, b, since, r);
    StaleLeavesNewest(st, snapshot, b, since, r);
    RetireLaw(st, done, r.now);
    RetiringShrinks(st.rows, b, done, r.now);
    forall id | Newest(snapshot, b, id) ensures id in ActiveIn(st.rows, b) - done { }
  }

  /** `s` is examined, and its search brings up `n`. */
  ghost predicate Finds(st: Store, since: Option<Instant>, r: JudgeReply, s: MemoryId, n: MemoryId) {
    && (since.Some? ==> s in st.rows && st.rows[s].createdAt >= since.value)
    && r.near(s).Some? && n in r.near(s).value
  }

  /** The model was asked whether `id` and `other`, both true in the boundary, contradict each other; it
      said so, and about what; and `other` became true later. */
  ghost predicate Overtaken(st: Store, snapshot: Rows, b: Boundary, since: Option<Instant>, r: JudgeReply, id: MemoryId, other: MemoryId) {
    && id in snapshot && other in snapshot && snapshot[id].validFrom < snapshot[other].validFrom
    && snapshot[id].boundary == b && snapshot[id].supersededBy.None? && snapshot[id].archivedAt.None? && snapshot[id].validUntil.None?
    && snapshot[other].boundary == b && snapshot[other].supersededBy.None? && snapshot[other].archivedAt.None?
    && snapshot[other].validUntil.None?
    && (Finds(st, since, r, id, other) || Finds(st, since, r, other, id))
    && var answer := r.judge(if id < other then (id, other) else (other, id));
       answer.Some? && answer.value.contradiction && answer.value.sharedAttribute.Some?
  }

  /** Phase 2b ends a fact's validity exactly when the model, asked about it and a fact that became true
      later, said that they contradict each other and about what, and the write goes through; of every
      other fact nothing changes. */
  lemma RetiredIff(st: Store, snapshot: Rows, b: Boundary, since: Option<Instant>, r: JudgeReply, id: MemoryId)
    requires forall k | k in ActiveIn(snapshot, b) :: k in st.rows && st.rows[k] == snapshot[k]
    requires id in st.rows
    ensures var m, next := st.rows[id], AfterRetirement(st, snapshot, b, since, r).rows;
      var ended := m.(validUntil := Some(r.now));
      && id in next && (next[id] == m || next[id] == ended)
      && (next[id] != m <==>
            && (exists other :: Overtaken(st, snapshot, b, since, r, id, other))
            && !r.invalidateFails(id) && m.validFrom <= r.now && ended.Validates())
  {
    StaleIff(st, snapshot, b, since, r, id);
    StaleLeavesNewest(st, snapshot, b, since, r);
    assert id in StaleIn(st, snapshot, b, since, r) ==> st.rows[id].validUntil.None?;
  }

  lemma StaleIff(st: Store, snapshot: Rows, b: Boundary, since: Option<Instant>, r: JudgeReply, id: MemoryId)
    requires forall k | k in ActiveIn(snapshot, b) :: k in st.rows && st.rows[k] == snapshot[k]
    ensures id in StaleIn(st, snapshot, b, since, r) <==> exists other :: Overtaken(st, snapshot, b, since, r, id, other)
  {
    if other :| Overtaken(st, snapshot, b, since, r, id, other) {
      OvertakenIsStale(st, snapshot, b, since, r, id, other);
    }
    if id in StaleIn(st, snapshot, b, since, r) {
      var other := StaleIsOvertaken(st, snapshot, b, since, r, id);
    }
  }

  lemma StaleIsOvertaken(st: Store, snapshot: Rows, b: Boundary, since: Option<Instant>, r: JudgeReply, id: MemoryId)
    returns (other: MemoryId)
    requires forall k | k in ActiveIn(snapshot, b) :: k in st.rows && st.rows[k] == snapshot[k]
    requires id in StaleIn(st, snapshot, b, since, r)
    ensures Overtaken(st, snapshot, b, since, r, id, other)
  {
    var active := ActiveIn(snapshot, b);
    var pairs := CandidatePairs(active, SeedsFor(st, active, b, since), r.near);
    var e :| e in pairs && Confirmed(r.judge, e) && OlderSide(snapshot, e, id);
    other := if id == e.0 then e.1 else e.0;
    assert e == if id < other then (id, other) else (other, id);
  }

  lemma OvertakenIsStale(st: Store, snapshot: Rows, b: Boundary, since: Option<Instant>, r: JudgeReply, id: MemoryId, other: MemoryId)
    requires forall k | k in ActiveIn(snapshot, b) :: k in st.rows && st.rows[k] == snapshot[k]
    requires Overtaken(st, snapshot, b, since, r, id, other)
    ensures id in StaleIn(st, snapshot, b, since, r)
  {
    var active := ActiveIn(snapshot, b);
    var pairs := CandidatePairs(active, SeedsFor(st, active, b, since), r.near);
    assert id in active && other in active && Canonical(other, id) == Canonical(id, other);
    if Finds(st, since, r, id, other) {
      assert Proposes(r.near, id, other);
      assert Canonical(id, other) in pairs;
    } else {
      assert Proposes(r.near, other, id);
      assert Canonical(other, id) in pairs;
    }
    assert |active| >= 2 by { TwoMembers(active, id, other); }
    FlaggedIff(snapshot, pairs, r.judge, id);
  }

  lemma RetiringShrinks(rows: Rows, b: Boundary, done: set<MemoryId>, at: Instant)
    requires done <= ActiveIn(rows, b)
    ensures ActiveIn(RetireRows(rows, done, at), b) == ActiveIn(rows, b) - done
    ensures |ActiveIn(rows, b)| == |ActiveIn(rows, b) - done| + |done|
  {
  }
}
