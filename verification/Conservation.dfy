/** Collapsing duplicates and merging facts neither loses nor invents use: the access counts of the facts in
    use add up to what they did before. */
module Conservation {
  import opened VaultCore
  import opened SortedIds
  import opened Clusters
  import opened Storage
  import opened MergePhase
  import opened MergeLaws

  /** The access counts of some rows, added up. */
  function Access(rows: Rows, ids: set<MemoryId>): nat
    requires ids <= rows.Keys
  {
    if ids == {} then 0
    else
      var id := Least(ids);
      rows[id].accessCount + Access(rows, ids - {id})
  }

  lemma {:induction false} AccessSplit(rows: Rows, ids: set<MemoryId>, id: MemoryId)
    requires ids <= rows.Keys && id in ids
    ensures Access(rows, ids) == rows[id].accessCount + Access(rows, ids - {id})
    decreases ids
  {
    var first := Least(ids);
    if first != id {
      AccessSplit(rows, ids - {first}, id);
      assert Least(ids) in ids - {id};
      assert Least(ids - {id}) == first;
      assert ids - {first} - {id} == ids - {id} - {first};
    }
  }

  lemma {:induction false} AccessSame(a: Rows, b: Rows, ids: set<MemoryId>)
    requires ids <= a.Keys && ids <= b.Keys && forall id | id in ids :: a[id].accessCount == b[id].accessCount
    ensures Access(a, ids) == Access(b, ids)
    decreases ids
  {
    if ids != {} { AccessSame(a, b, ids - {Least(ids)}); }
  }

  lemma {:induction false} AccessUnion(rows: Rows, a: set<MemoryId>, b: set<MemoryId>)
    requires a + b <= rows.Keys && a !! b
    ensures Access(rows, a + b) == Access(rows, a) + Access(rows, b)
    decreases a
  {
    if a == {} {
      assert a + b == b;
    } else {
      var id := Least(a);
      AccessSplit(rows, a + b, id);
      assert a + b - {id} == (a - {id}) + b;
      AccessUnion(rows, a - {id}, b);
    }
  }

  /** What a cluster's members add up to does not depend on how they are listed. */
  lemma {:induction false} SumIsAccess(rows: Rows, ids: seq<MemoryId>)
    requires Distinct(ids) && SetOf(ids) <= rows.Keys
    ensures SumAccess(MembersOf(rows, ids)) == Access(rows, SetOf(ids))
    decreases |ids|
  {
    var ms := MembersOf(rows, ids);
    if ids != [] {
      HeadTail(ids);
      assert ms[1..] == MembersOf(rows, ids[1..]);
      SumIsAccess(rows, ids[1..]);
      AccessSplit(rows, SetOf(ids), ids[0]);
      assert SetOf(ids) - {ids[0]} == SetOf(ids[1..]);
    }
  }

  /** The members are the facts in use that the enumeration showed. */
  ghost predicate AsShown(st: Store, cluster: Cluster, snapshot: Rows) {
    forall id | id in SetOf(cluster) :: id in st.rows && st.rows[id].Listed() && id in snapshot && snapshot[id] == st.rows[id]
  }

  lemma DedupTotals(rows: Rows, survivor: MemoryId, losers: set<MemoryId>, confidence: real)
    requires survivor !in losers && losers + {survivor} <= ListedIds(rows)
    ensures var next := DedupRows(rows, survivor, losers, Access(rows, losers + {survivor}), confidence);
      Access(next, ListedIds(next)) == Access(rows, ListedIds(rows))
  {
    var members := losers + {survivor};
    var next := DedupRows(rows, survivor, losers, Access(rows, members), confidence);
    var rest := ListedIds(rows) - members;
    assert rest + members == ListedIds(rows);
    AccessUnion(rows, rest, members);
    assert ListedIds(next) == rest + {survivor};
    AccessUnion(next, rest, {survivor});
    AccessSame(next, rows, rest);
    AccessOne(next, survivor);
  }

  /** Collapsing a cluster keeps the total over the facts in use: the survivor has what all its members had,
      and the others are out of use. */
  lemma DedupConserves(st: Store, cluster: Cluster, snapshot: Rows, r: ClusterReply)
    requires Keyed(snapshot) && Distinct(cluster) && AsShown(st, cluster, snapshot)
    requires TryDedup(st, cluster, snapshot, r).DedupDone?
    ensures var next := TryDedup(st, cluster, snapshot, r).st;
      Access(next.rows, ListedIds(next.rows)) == Access(st.rows, ListedIds(st.rows))
  {
    var plan := PlanDedup(snapshot, cluster);
    PlanCoversCluster(snapshot, cluster);
    assert SetOf(cluster) <= ListedIds(st.rows);
    ShownMembers(st, cluster, snapshot);
    SumIsAccess(st.rows, cluster);
    DedupTotals(st.rows, plan.survivor, SetOf(plan.superseded), plan.confidence);
  }

  /** The survivor of a cluster's plan and the others. */
  lemma PlanParts(snapshot: Rows, cluster: Cluster)
    requires Keyed(snapshot) && Distinct(cluster) && cluster != [] && SetOf(cluster) <= snapshot.Keys
    ensures var plan := PlanDedup(snapshot, cluster);
      && plan.survivor in cluster && |plan.superseded| == |cluster| - 1
      && forall id :: id in SetOf(plan.superseded) <==> id in cluster && id != plan.survivor
  {
    var plan := PlanDedup(snapshot, cluster);
    PlanCoversCluster(snapshot, cluster);
    forall id ensures id in cluster <==> id in SetOf(plan.superseded) + {plan.survivor} { assert id in cluster <==> id in SetOf(cluster); }
    DistinctCount(cluster);
    DistinctCount(plan.superseded);
    assert SetOf(plan.superseded) == SetOf(cluster) - {plan.survivor};
  }

  lemma CollapseIs(st: Store, cluster: Cluster, snapshot: Rows, r: ClusterReply)
    requires TryDedup(st, cluster, snapshot, r).DedupDone?
    ensures cluster != [] && SetOf(cluster) <= snapshot.Keys
    ensures var plan := PlanDedup(snapshot, cluster);
      && TryDedup(st, cluster, snapshot, r).superseded == |plan.superseded|
      && TryDedup(st, cluster, snapshot, r).st
           == Store(DedupRows(st.rows, plan.survivor, SetOf(plan.superseded), plan.access, plan.confidence), st.vectors)
  {
  }

  /** What collapsing a cluster leaves: its survivor as sure as the surest of the members and used as often as
      all of them together, every other member pointing at it, and all else as it was. */
  lemma DedupLeaves(st: Store, cluster: Cluster, snapshot: Rows, r: ClusterReply) returns (survivor: MemoryId)
    requires Keyed(snapshot) && Distinct(cluster) && AsShown(st, cluster, snapshot)
    requires TryDedup(st, cluster, snapshot, r).DedupDone?
    ensures survivor in cluster && survivor in st.rows && survivor == Survivor(MembersOf(snapshot, cluster)).id
    ensures var next, confidence := TryDedup(st, cluster, snapshot, r).st, MaxConfidence(MembersOf(snapshot, cluster));
      && next.vectors == st.vectors && next.rows.Keys == st.rows.Keys
      && next.rows[survivor] == st.rows[survivor].(accessCount := Access(st.rows, SetOf(cluster)), confidence := confidence)
      && (forall id | id in cluster :: id in st.rows && st.rows[id].confidence <= confidence)
      && (confidence == 0.0 || exists id | id in cluster :: st.rows[id].confidence == confidence)
      && forall id | id in st.rows && id != survivor ::
           next.rows[id] == if id in cluster then st.rows[id].(supersededBy := Some(survivor)) else st.rows[id]
    ensures TryDedup(st, cluster, snapshot, r).superseded == |cluster| - 1
  {
    CollapseIs(st, cluster, snapshot, r);
    survivor := PlanDedup(snapshot, cluster).survivor;
    PlanParts(snapshot, cluster);
    ShownMembers(st, cluster, snapshot);
    SumIsAccess(st.rows, cluster);
    MergedConfidence(st.rows, cluster);
    assert survivor in SetOf(cluster);
  }

  lemma AccessOne(rows: Rows, id: MemoryId)
    requires id in rows
    ensures Access(rows, {id}) == rows[id].accessCount
  {
    AccessSplit(rows, {id}, id);
    assert {id} - {id} == {};
  }

  lemma ShownMembers(st: Store, cluster: Cluster, snapshot: Rows)
    requires AsShown(st, cluster, snapshot) && SetOf(cluster) <= snapshot.Keys && SetOf(cluster) <= st.rows.Keys
    ensures MembersOf(snapshot, cluster) == MembersOf(st.rows, cluster)
  {
    forall i | 0 <= i < |cluster| ensures snapshot[cluster[i]] == st.rows[cluster[i]] { assert cluster[i] in SetOf(cluster); }
  }

  lemma {:induction false} MarkAllExactly(st: Store, ids: seq<MemoryId>, heir: MemoryId, fails: MemoryId -> bool)
    requires MarkAll(st, ids, heir, fails).1
    ensures var next := MarkAll(st, ids, heir, fails).0;
      && next.rows.Keys == st.rows.Keys && SetOf(ids) <= st.rows.Keys && next.vectors == st.vectors
      && forall id | id in st.rows :: next.rows[id] == if id in ids then st.rows[id].(supersededBy := Some(heir)) else st.rows[id]
    decreases |ids|
  {
    if ids != [] {
      assert ids == [ids[0]] + ids[1..];
      MarkAllExactly(Marked(st, ids[0], heir, fails(ids[0])).value, ids[1..], heir, fails);
    }
  }

  lemma MergedConfidence(rows: Rows, cluster: Cluster)
    requires SetOf(cluster) <= rows.Keys
    ensures var c := MaxConfidence(MembersOf(rows, cluster));
      && (forall id | id in cluster :: id in rows && rows[id].confidence <= c)
      && (c == 0.0 || exists id | id in cluster :: rows[id].confidence == c)
  {
    var members := MembersOf(rows, cluster);
    var c := MaxConfidence(members);
    forall id | id in cluster ensures id in rows && rows[id].confidence <= c {
      assert id in SetOf(cluster);
      var i :| 0 <= i < |cluster| && cluster[i] == id;
      assert members[i] in members;
    }
    if c != 0.0 {
      var x :| x in members && x.confidence == c;
      var i :| 0 <= i < |members| && members[i] == x;
      assert cluster[i] in cluster;
    }
  }

  /** The row a merge writes says what the model wrote, in the boundary and of the kind of the first member,
      true from now on, as sure as the surest of its members and used as often as all of them together. */
  lemma MergedRowIs(rows: Rows, cluster: Cluster, text: string, id: MemoryId, now: Instant)
    requires Distinct(cluster) && cluster != [] && Hydrates(rows, cluster)
    ensures cluster[0] in rows && forall k | k in cluster :: k in rows
    ensures var m, first := MergedRow(rows, cluster, text, id, now), rows[cluster[0]];
      && m.id == id && m.content == text && m.memoryType == first.memoryType && m.boundary == first.boundary
      && m.createdAt == now && m.validFrom == now && m.lastAccessed == now
      && m.validUntil == None && m.supersededBy == None && m.archivedAt == None && m.sourceAgent == None
      && m.metadata == Metadata(None, None, "")
      && (forall k | k in cluster :: rows[k].confidence <= m.confidence)
      && (m.confidence == 0.0 || exists k | k in cluster :: rows[k].confidence == m.confidence)
      && m.accessCount == Access(rows, SetOf(cluster))
  {
    SumIsAccess(rows, cluster);
    MergedConfidence(rows, cluster);
    assert cluster[0] in cluster;
  }

  /** A merge that goes through adds that row and its vector, points every member at it, and changes nothing
      else. */
  lemma MergeLeaves(st: Store, cluster: Cluster, text: string, r: ClusterReply)
    requires ApplyMerge(st, cluster, text, r).1
    ensures cluster != [] && Hydrates(st.rows, cluster) && r.newId !in st.rows
    ensures var next := ApplyMerge(st, cluster, text, r).0;
      && next.rows.Keys == st.rows.Keys + {r.newId} && next.vectors == st.vectors[r.newId := text]
      && next.rows[r.newId] == MergedRow(st.rows, cluster, text, r.newId, r.now)
      && forall id | id in st.rows ::
           next.rows[id] == if id in cluster then st.rows[id].(supersededBy := Some(r.newId)) else st.rows[id]
  {
    var written := Written(st, MergedRow(st.rows, cluster, text, r.newId, r.now), text, r.writeFails).value;
    MarkAllExactly(written, cluster, r.newId, r.markFails);
    assert r.newId !in cluster by { assert SetOf(cluster) <= st.rows.Keys; }
  }

  lemma MergeTotals(rows: Rows, next: Rows, members: set<MemoryId>, id: MemoryId)
    requires members <= ListedIds(rows) && id !in rows && next.Keys == rows.Keys + {id}
    requires next[id].Listed() && next[id].accessCount == Access(rows, members)
    requires forall k | k in rows && k !in members :: next[k] == rows[k]
    requires forall k | k in members :: next[k].supersededBy.Some?
    ensures Access(next, ListedIds(next)) == Access(rows, ListedIds(rows))
  {
    var rest := ListedIds(rows) - members;
    assert rest + members == ListedIds(rows);
    AccessUnion(rows, rest, members);
    assert ListedIds(next) == rest + {id};
    AccessUnion(next, rest, {id});
    AccessSame(next, rows, rest);
    AccessOne(next, id);
  }

  /** So a merge keeps the total too. */
  lemma MergeConserves(st: Store, cluster: Cluster, text: string, r: ClusterReply)
    requires Distinct(cluster) && ApplyMerge(st, cluster, text, r).1
    ensures var next := ApplyMerge(st, cluster, text, r).0;
      Access(next.rows, ListedIds(next.rows)) == Access(st.rows, ListedIds(st.rows))
  {
    MergeLeaves(st, cluster, text, r);
    SumIsAccess(st.rows, cluster);
    assert forall id :: id in cluster <==> id in SetOf(cluster);
    MergeTotals(st.rows, ApplyMerge(st, cluster, text, r).0.rows, SetOf(cluster), r.newId);
  }
}
