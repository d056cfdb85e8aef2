/** `superseded_by` links: what it means that they form a forest, and what keeps them one. */
module Supersession {
  import opened VaultCore

  /** Every link stays inside the vault and inside its boundary, and points strictly upward in
      `rank`, so following links can never come back. */
  ghost predicate RankedBy(rows: Rows, rank: map<MemoryId, nat>) {
    && rows.Keys <= rank.Keys
    && forall id | id in rows && rows[id].supersededBy.Some? ::
        var heir := rows[id].supersededBy.value;
        heir in rows && rows[heir].boundary == rows[id].boundary && rank[id] < rank[heir]
  }

  ghost predicate Forest(rows: Rows) {
    exists rank :: RankedBy(rows, rank)
  }

  /** A chain of supersessions from `id` to a row that is not superseded, all in one boundary. */
  ghost predicate ChainFrom(rows: Rows, id: MemoryId, p: seq<MemoryId>) {
    && |p| > 0 && p[0] == id && id in rows
    && (forall i | 0 <= i < |p| :: p[i] in rows && rows[p[i]].boundary == rows[id].boundary)
    && (forall i | 0 <= i < |p| - 1 :: rows[p[i]].supersededBy == Some(p[i + 1]))
    && rows[p[|p| - 1]].supersededBy.None?
  }

  ghost predicate ChainEnds(rows: Rows, id: MemoryId) {
    exists p :: ChainFrom(rows, id, p)
  }

  lemma {:induction false} RankBound(rank: map<MemoryId, nat>) returns (top: nat)
    ensures forall id | id in rank :: rank[id] < top
    decreases |rank|
  {
    top := 0;
    if rank.Keys != {} {
      var id :| id in rank;
      var rest := rank - {id};
      assert |rest.Keys| < |rank.Keys|;
      var below := RankBound(rest);
      top := if below > rank[id] then below else rank[id] + 1;
      assert forall k | k in rank :: k == id || k in rest;
    }
  }

  lemma {:induction false} ChainExists(rows: Rows, rank: map<MemoryId, nat>, top: nat, id: MemoryId)
    requires RankedBy(rows, rank) && id in rows
    requires forall k | k in rank :: rank[k] < top
    ensures ChainEnds(rows, id)
    decreases top - rank[id]
  {
    if rows[id].supersededBy.None? {
      assert ChainFrom(rows, id, [id]);
    } else {
      var heir := rows[id].supersededBy.value;
      ChainExists(rows, rank, top, heir);
      var p :| ChainFrom(rows, heir, p);
      var q := [id] + p;
      forall i | 0 <= i < |q| ensures q[i] in rows && rows[q[i]].boundary == rows[id].boundary {
        if i > 0 { assert q[i] == p[i - 1]; }
      }
      forall i | 0 <= i < |q| - 1 ensures rows[q[i]].supersededBy == Some(q[i + 1]) {
        if i > 0 { assert q[i] == p[i - 1]; }
      }
      assert ChainFrom(rows, id, q);
    }
  }

  lemma {:induction false} ChainUnique(rows: Rows, id: MemoryId, p: seq<MemoryId>, q: seq<MemoryId>)
    requires ChainFrom(rows, id, p) && ChainFrom(rows, id, q)
    ensures p == q
    decreases |p|
  {
    ChainHead(rows, id, p);
    ChainHead(rows, id, q);
    if |p| > 1 {
      ChainUnique(rows, p[1], p[1..], q[1..]);
      assert p == [p[0]] + p[1..] && q == [q[0]] + q[1..];
    }
  }

  lemma ChainHead(rows: Rows, id: MemoryId, p: seq<MemoryId>)
    requires ChainFrom(rows, id, p)
    ensures |p| == 1 <==> rows[id].supersededBy.None?
    ensures |p| > 1 ==> rows[id].supersededBy == Some(p[1])
  {
  }

  /** The links form a forest exactly when every row's chain of supersessions ends, inside the
      vault and inside its boundary, at a row that is not superseded. */
  lemma ForestIffChainsEnd(rows: Rows)
    ensures Forest(rows) <==> forall id | id in rows :: ChainEnds(rows, id)
  {
    if Forest(rows) {
      var rank :| RankedBy(rows, rank);
      var top := RankBound(rank);
      forall id | id in rows ensures ChainEnds(rows, id) { ChainExists(rows, rank, top, id); }
    }
    if forall id | id in rows :: ChainEnds(rows, id) { ChainsGiveRank(rows); }
  }

  lemma ChainsGiveRank(rows: Rows)
    requires forall id | id in rows :: ChainEnds(rows, id)
    ensures Forest(rows)
  {
    var lengths := map id | id in rows :: ChainLength(rows, id);
    forall id | id in rows && rows[id].supersededBy.Some? ensures Shorter(rows, lengths, id) {
      LengthsDescend(rows, id);
    }
    LengthsGiveRank(rows, lengths);
  }

  /** The heir is in the vault, in the boundary, and one supersession nearer the end. */
  ghost predicate Shorter(rows: Rows, lengths: map<MemoryId, nat>, id: MemoryId)
    requires id in rows && rows[id].supersededBy.Some? && lengths.Keys == rows.Keys
  {
    var heir := rows[id].supersededBy.value;
    heir in rows && rows[heir].boundary == rows[id].boundary && lengths[heir] < lengths[id]
  }

  lemma LengthsGiveRank(rows: Rows, lengths: map<MemoryId, nat>)
    requires lengths.Keys == rows.Keys
    requires forall id | id in rows && rows[id].supersededBy.Some? :: Shorter(rows, lengths, id)
    ensures Forest(rows)
  {
    var top := RankBound(lengths);
    var rank: map<MemoryId, nat> := map id | id in lengths :: top - lengths[id];
    assert RankedBy(rows, rank);
  }

  lemma LengthsDescend(rows: Rows, id: MemoryId)
    requires forall k | k in rows :: ChainEnds(rows, k)
    requires id in rows && rows[id].supersededBy.Some?
    ensures var heir := rows[id].supersededBy.value;
      heir in rows && rows[heir].boundary == rows[id].boundary && ChainLength(rows, heir) < ChainLength(rows, id)
  {
    var p :| ChainFrom(rows, id, p) && |p| == ChainLength(rows, id);
    ChainHead(rows, id, p);
    var q :| ChainFrom(rows, p[1], q) && |q| == ChainLength(rows, p[1]);
    ChainUnique(rows, p[1], q, p[1..]);
  }

  ghost function ChainLength(rows: Rows, id: MemoryId): (n: nat)
    requires ChainEnds(rows, id)
    ensures exists p :: ChainFrom(rows, id, p) && |p| == n
  {
    var p :| ChainFrom(rows, id, p);
    |p|
  }

  /** A forest's chains never visit a row twice. */
  lemma ForestIsAcyclic(rows: Rows, id: MemoryId, p: seq<MemoryId>, i: nat, j: nat)
    requires Forest(rows) && ChainFrom(rows, id, p) && i < j < |p|
    ensures p[i] != p[j]
  {
    var rank :| RankedBy(rows, rank);
    RankRises(rows, rank, p, i, j);
  }

  lemma {:induction false} RankRises(rows: Rows, rank: map<MemoryId, nat>, p: seq<MemoryId>, i: nat, j: nat)
    requires RankedBy(rows, rank) && i < j < |p|
    requires forall k | 0 <= k < |p| :: p[k] in rows
    requires forall k | 0 <= k < |p| - 1 :: rows[p[k]].supersededBy == Some(p[k + 1])
    ensures rank[p[i]] < rank[p[j]]
    decreases j - i
  {
    assert rows[p[j - 1]].supersededBy == Some(p[j]);
    if i < j - 1 { RankRises(rows, rank, p, i, j - 1); }
  }

  /** Superseding a current row by another current row of its boundary keeps the forest. */
  lemma SupersedeKeepsForest(rows: Rows, loser: MemoryId, heir: MemoryId)
    requires Forest(rows)
    requires loser in rows && heir in rows && loser != heir
    requires rows[heir].supersededBy.None?
    requires rows[heir].boundary == rows[loser].boundary
    ensures Forest(rows[loser := rows[loser].(supersededBy := Some(heir))])
  {
    var rank :| RankedBy(rows, rank);
    var top := RankBound(rank);
    var next := rows[loser := rows[loser].(supersededBy := Some(heir))];
    assert RankedBy(next, rank[heir := top]);
  }

  ghost predicate SameLink(m: Memory, n: Memory) {
    n.supersededBy == m.supersededBy && n.boundary == m.boundary
  }

  /** Rows may be added, and fields other than the link and the boundary may change. */
  ghost predicate SameLinks(rows: Rows, next: Rows) {
    && (forall id | id in rows :: id in next && SameLink(rows[id], next[id]))
    && (forall id | id in next && id !in rows :: next[id].supersededBy.None?)
  }

  lemma SameLinksKeepForest(rows: Rows, next: Rows)
    requires Forest(rows) && SameLinks(rows, next)
    ensures Forest(next)
  {
    var rank :| RankedBy(rows, rank);
    var extended := map id | id in rank.Keys + next.Keys :: if id in rank then rank[id] else 0;
    assert RankedBy(next, extended);
  }

  /** Deleting a row keeps the forest exactly when no other row is superseded by it. */
  lemma DeleteKeepsForestIff(rows: Rows, id: MemoryId)
    requires Forest(rows)
    ensures Forest(rows - {id}) <==> forall k | k in rows && k != id :: rows[k].supersededBy != Some(id)
  {
    var rank :| RankedBy(rows, rank);
    var next := rows - {id};
    if forall k | k in rows && k != id :: rows[k].supersededBy != Some(id) {
      assert RankedBy(next, rank);
    } else {
      var k :| k in rows && k != id && rows[k].supersededBy == Some(id);
      assert k in next && next[k].supersededBy == Some(id);
    }
  }

  // ---- one row replaced, or put back ----

  /** The link of `m` leads to a row of its boundary whose chain does not come back to `id`. */
  ghost predicate LinkFits(rows: Rows, id: MemoryId, m: Memory) {
    m.supersededBy.None? ||
    exists p :: ChainFrom(rows, m.supersededBy.value, p) && rows[m.supersededBy.value].boundary == m.boundary && id !in p
  }

  /** What is superseded by `id` finds it in the boundary it was in. */
  ghost predicate StaysIn(rows: Rows, id: MemoryId, b: Boundary) {
    (id in rows && rows[id].boundary == b) || forall k | k in rows && k != id :: rows[k].supersededBy != Some(id)
  }

  lemma ReplacedLinkFits(rows: Rows, id: MemoryId, m: Memory)
    requires Forest(rows[id := m])
    ensures LinkFits(rows, id, m)
  {
    var after := rows[id := m];
    ForestIffChainsEnd(after);
    assert ChainEnds(after, id);
    var c :| ChainFrom(after, id, c);
    forall i | 0 < i < |c| ensures c[i] != id { ForestIsAcyclic(after, id, c, 0, i); }
    if m.supersededBy.Some? { RestOfChainFits(rows, id, m, c); }
  }

  lemma RestOfChainFits(rows: Rows, id: MemoryId, m: Memory, c: seq<MemoryId>)
    requires ChainFrom(rows[id := m], id, c) && id !in c[1..] && m.supersededBy.Some?
    ensures LinkFits(rows, id, m)
  {
    ChainHead(rows[id := m], id, c);
    assert ChainFrom(rows, m.supersededBy.value, c[1..]);
  }

  lemma ReplacedStaysIn(rows: Rows, id: MemoryId, m: Memory)
    requires Forest(rows) && Forest(rows[id := m])
    ensures StaysIn(rows, id, m.boundary)
  {
    if k :| k in rows && k != id && rows[k].supersededBy == Some(id) { assert rows[id := m][k] == rows[k]; }
  }

  lemma ReplacedChain(rows: Rows, id: MemoryId, m: Memory) returns (c: seq<MemoryId>)
    requires LinkFits(rows, id, m)
    ensures ChainFrom(rows[id := m], id, c)
  {
    c := [id];
    if m.supersededBy.Some? {
      var p :| ChainFrom(rows, m.supersededBy.value, p) && rows[m.supersededBy.value].boundary == m.boundary && id !in p;
      c := [id] + p;
    }
  }

  /** A chain that does not meet `id` is as it was; one that does goes on from there as `id`'s does now. */
  lemma RejoinedChain(rows: Rows, id: MemoryId, m: Memory, c: seq<MemoryId>, k: MemoryId, p: seq<MemoryId>)
    requires k != id && ChainFrom(rows, k, p) && ChainFrom(rows[id := m], id, c) && StaysIn(rows, id, m.boundary)
    ensures ChainEnds(rows[id := m], k)
  {
    var after := rows[id := m];
    if id !in p {
      assert ChainFrom(after, k, p);
    } else {
      var j := FirstAt(p, id);
      assert rows[p[j - 1]].supersededBy == Some(id);
      var q := p[..j] + c;
      forall i | 0 <= i < |q| - 1 ensures after[q[i]].supersededBy == Some(q[i + 1]) {
        if i < j { assert p[i + 1] == q[i + 1]; } else { assert q[i] == c[i - j]; }
      }
      assert ChainFrom(after, k, q);
    }
  }

  lemma {:induction false} FirstAt(p: seq<MemoryId>, id: MemoryId) returns (j: nat)
    requires id in p
    ensures j < |p| && p[j] == id && id !in p[..j]
    decreases |p|
  {
    if p[0] == id {
      j := 0;
    } else {
      j := FirstAt(p[1..], id);
      j := j + 1;
      assert p[..j] == [p[0]] + p[1..][..j - 1];
    }
  }

  lemma FittingKeepsForest(rows: Rows, id: MemoryId, m: Memory)
    requires Forest(rows) && LinkFits(rows, id, m) && StaysIn(rows, id, m.boundary)
    ensures Forest(rows[id := m])
  {
    var after := rows[id := m];
    var c := ReplacedChain(rows, id, m);
    ForestIffChainsEnd(rows);
    forall k | k in after ensures ChainEnds(after, k) {
      if k != id {
        assert ChainEnds(rows, k);
        var p :| ChainFrom(rows, k, p);
        RejoinedChain(rows, id, m, c, k, p);
      }
    }
    ForestIffChainsEnd(after);
  }

  /** Putting a row in the place of another, or where there was none, keeps the forest exactly when its
      own link fits, and it is in the same boundary or nothing is superseded by it. */
  lemma ReplaceKeepsForestIff(rows: Rows, id: MemoryId, m: Memory)
    requires Forest(rows)
    ensures Forest(rows[id := m]) <==> LinkFits(rows, id, m) && StaysIn(rows, id, m.boundary)
  {
    if Forest(rows[id := m]) { ReplacedLinkFits(rows, id, m); ReplacedStaysIn(rows, id, m); }
    if LinkFits(rows, id, m) && StaysIn(rows, id, m.boundary) { FittingKeepsForest(rows, id, m); }
  }

  /** What any run may do to the rows it finds: nothing is lost, what a memory says and where and
      when it was saved never change, and the soft markers are set once and stay. */
  ghost predicate Evolves(before: Rows, after: Rows) {
    forall id | id in before :: id in after && Ages(before[id], after[id])
  }

  ghost predicate Ages(m: Memory, n: Memory) {
    && n.id == m.id && n.content == m.content && n.memoryType == m.memoryType && n.sourceAgent == m.sourceAgent
    && n.boundary == m.boundary && n.createdAt == m.createdAt && n.validFrom == m.validFrom
    && n.lastAccessed == m.lastAccessed
    && (m.supersededBy.Some? ==> n.supersededBy == m.supersededBy)
    && (m.archivedAt.Some? ==> n.archivedAt == m.archivedAt)
    && (m.validUntil.Some? ==> n.validUntil.Some?)
    && n.metadata.enrichment == m.metadata.enrichment && n.metadata.other == m.metadata.other
  }
}
