/** The two neighbour searches of Phase 2b. A full sweep ranks the active facts in memory; an incremental
    run asks the vector store, which still holds retired facts' vectors and the seed's own.

    Both rank by nearness to the seed's text. `order` is the store's ranking, nearest first; the sweep's
    is taken to be the same ranking without what is not active. */
module Candidates {
  import opened VaultCore
  import opened SortedIds
  import opened Clusters
  import opened Contradiction

  const TOP_K: nat := 3

  type Ranking = seq<MemoryId>

  function Kept(order: Ranking, test: MemoryId -> bool): Ranking {
    if order == [] then [] else (if test(order[0]) then [order[0]] else []) + Kept(order[1..], test)
  }

  function Firsts(order: Ranking, n: nat): Ranking {
    if n < |order| then order[..n] else order
  }

  /** An active fact other than the seed. */
  function Candidate(active: set<MemoryId>, seed: MemoryId): MemoryId -> bool {
    id => id in active && id != seed
  }

  /** The sweep: the nearest `TOP_K` candidates, those below the floor dropped. */
  function SweepFinds(order: Ranking, active: set<MemoryId>, seed: MemoryId, close: MemoryId -> bool): Ranking {
    Kept(Firsts(Kept(order, Candidate(active, seed)), TOP_K), close)
  }

  /** Near enough, and not the seed. */
  function Kin(seed: MemoryId, close: MemoryId -> bool): MemoryId -> bool {
    (id: MemoryId) => id != seed && close(id)
  }

  /** The store: its nearest `TOP_K + 1`, the extra one for the seed itself; the seed and those below the
      floor are dropped. The caller drops what is not active afterwards. */
  function StoreFinds(order: Ranking, seed: MemoryId, close: MemoryId -> bool): Ranking {
    Kept(Firsts(order, TOP_K + 1), Kin(seed, close))
  }

  /** How many of a kind are ranked before `n`. */
  function Ahead(order: Ranking, n: MemoryId, test: MemoryId -> bool): nat {
    if order == [] || order[0] == n then 0
    else (if test(order[0]) then 1 else 0) + Ahead(order[1..], n, test)
  }

  lemma {:induction false} KeptHas(order: Ranking, test: MemoryId -> bool, n: MemoryId)
    ensures n in Kept(order, test) <==> n in order && test(n)
    decreases |order|
  {
    if order != [] {
      KeptHas(order[1..], test, n);
      assert order == [order[0]] + order[1..];
    }
  }

  /** Being among the first `k` of a kind is having fewer than `k` of that kind ahead. */
  lemma {:induction false} FirstsOfKind(order: Ranking, test: MemoryId -> bool, k: nat, n: MemoryId)
    requires Distinct(order)
    ensures n in Firsts(Kept(order, test), k) <==> n in order && test(n) && Ahead(order, n, test) < k
    decreases |order|
  {
    if order != [] {
      HeadTail(order);
      var rest := Kept(order[1..], test);
      assert order == [order[0]] + order[1..];
      KeptHas(order[1..], test, n);
      if test(order[0]) && k > 0 {
        FirstsOfKind(order[1..], test, k - 1, n);
        assert Firsts([order[0]] + rest, k) == [order[0]] + Firsts(rest, k - 1);
      } else if k > 0 {
        FirstsOfKind(order[1..], test, k, n);
        assert Kept(order, test) == rest;
      } else {
        assert Firsts(Kept(order, test), k) == [];
      }
    }
  }

  function Any(): MemoryId -> bool {
    id => true
  }

  lemma {:induction false} KeptAll(order: Ranking)
    ensures Kept(order, Any()) == order
    decreases |order|
  {
    if order != [] { KeptAll(order[1..]); }
  }

  /** Retired facts, by this boundary's active set. */
  function Retired(active: set<MemoryId>): MemoryId -> bool {
    id => id !in active
  }

  lemma {:induction false} AheadSplits(order: Ranking, n: MemoryId, active: set<MemoryId>, seed: MemoryId)
    requires seed in active && n != seed && Distinct(order) && n in order
    ensures Ahead(order, n, Any()) == Ahead(order, n, Candidate(active, seed)) + Ahead(order, n, Retired(active))
      + if Precedes(order, seed, n) then 1 else 0
    decreases |order|
  {
    HeadTail(order);
    assert order == [order[0]] + order[1..];
    if order[0] != n {
      AheadSplits(order[1..], n, active, seed);
      PrecedesMeansIn(order[1..], seed, n);
    }
  }

  lemma {:induction false} PrecedesMeansIn(order: Ranking, a: MemoryId, n: MemoryId)
    ensures Precedes(order, a, n) ==> a in order
    decreases |order|
  {
    if order != [] {
      PrecedesMeansIn(order[1..], a, n);
      assert order == [order[0]] + order[1..];
    }
  }

  /** `a` is ranked before `n`. */
  predicate Precedes(order: Ranking, a: MemoryId, n: MemoryId) {
    order != [] && order[0] != n && (order[0] == a || Precedes(order[1..], a, n))
  }

  /** What each search finds, for a seed nearest to itself: a neighbour above the floor is found by the
      sweep exactly when fewer than three active facts are nearer, and by an incremental run exactly when
      fewer than three facts are, retired ones counted. */
  lemma FoundIff(order: Ranking, active: set<MemoryId>, seed: MemoryId, close: MemoryId -> bool, n: MemoryId)
    requires Distinct(order) && seed in active && Candidate(active, seed)(n) && Precedes(order, seed, n) && n in order
    ensures n in SweepFinds(order, active, seed, close)
      <==> close(n) && Ahead(order, n, Candidate(active, seed)) < TOP_K
    ensures n in StoreFinds(order, seed, close)
      <==> close(n) && Ahead(order, n, Candidate(active, seed)) + Ahead(order, n, Retired(active)) < TOP_K
  {
    FirstsOfKind(order, Candidate(active, seed), TOP_K, n);
    KeptHas(Firsts(Kept(order, Candidate(active, seed)), TOP_K), close, n);
    KeptAll(order);
    FirstsOfKind(order, Any(), TOP_K + 1, n);
    KeptHas(Firsts(order, TOP_K + 1), Kin(seed, close), n);
    AheadSplits(order, n, active, seed);
  }

  /** A new fact surfaces the old facts nearest to it exactly until retired facts' vectors take the
      places: a pair the sweep would ask about is missed by an incremental run exactly when enough
      retired facts are nearer. Nothing is found that the sweep would not find. */
  lemma RetiredVectorsCrowdOut(order: Ranking, active: set<MemoryId>, seed: MemoryId, close: MemoryId -> bool, n: MemoryId)
    requires Distinct(order) && seed in active && Candidate(active, seed)(n) && Precedes(order, seed, n) && n in order
    ensures n in StoreFinds(order, seed, close) ==> n in SweepFinds(order, active, seed, close)
    ensures n in SweepFinds(order, active, seed, close) ==>
      (n !in StoreFinds(order, seed, close) <==>
        Ahead(order, n, Retired(active)) >= TOP_K - Ahead(order, n, Candidate(active, seed)))
  {
    FoundIff(order, active, seed, close, n);
  }

  /** Three retired facts nearer than the one active neighbour are enough. */
  lemma ThreeRetiredCrowdOut()
    ensures var order: Ranking := [9, 1, 2, 3, 8];
      && 8 in SweepFinds(order, {8, 9}, 9, Any()) && 8 !in StoreFinds(order, 9, Any())
  {
    var order: Ranking := [9, 1, 2, 3, 8];
    assert order[1..] == [1, 2, 3, 8] && order[1..][1..] == [2, 3, 8] && order[1..][1..][1..] == [3, 8];
    assert order[1..][1..][1..][1..] == [8];
    var test := Candidate({8, 9}, 9);
    assert Ahead([8], 8, test) == 0 && Ahead([3, 8], 8, test) == 0 && Ahead([2, 3, 8], 8, test) == 0;
    var gone := Retired({8, 9});
    assert Ahead([8], 8, gone) == 0 && Ahead([3, 8], 8, gone) == 1 && Ahead([2, 3, 8], 8, gone) == 2;
    assert Precedes(order, 9, 8);
    FoundIff(order, {8, 9}, 9, Any(), 8);
  }

  /** The neighbours each search gives Phase 2b, from one ranking per seed. */
  function StoreSearch(rank: MemoryId -> Ranking, close: MemoryId -> MemoryId -> bool): Neighbours {
    s => Some(StoreFinds(rank(s), s, close(s)))
  }

  function SweepSearch(rank: MemoryId -> Ranking, active: set<MemoryId>, close: MemoryId -> MemoryId -> bool): Neighbours {
    s => Some(SweepFinds(rank(s), active, s, close(s)))
  }

  /** Every seed is nearest to itself in the store, and each active fact is ranked once. */
  ghost predicate SelfFirst(rank: MemoryId -> Ranking, active: set<MemoryId>) {
    forall s, n | s in active && n in active && n != s :: Distinct(rank(s)) && n in rank(s) && Precedes(rank(s), s, n)
  }

  /** The pairs an incremental run asks about are among those the full sweep would. */
  lemma StorePairsWithinSweep(rank: MemoryId -> Ranking, active: set<MemoryId>, seeds: set<MemoryId>, close: MemoryId -> MemoryId -> bool)
    requires SelfFirst(rank, active)
    ensures CandidatePairs(active, seeds, StoreSearch(rank, close)) <= CandidatePairs(active, active, SweepSearch(rank, active, close))
  {
    var search, sweep := StoreSearch(rank, close), SweepSearch(rank, active, close);
    forall s, n | s in seeds * active && n in active && Proposes(search, s, n) ensures Proposes(sweep, s, n) {
      RetiredVectorsCrowdOut(rank(s), active, s, close(s), n);
    }
    WithinIff(active, seeds, search, sweep);
  }
}
