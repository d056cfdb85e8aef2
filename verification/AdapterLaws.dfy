/** The keyword index against the rows, the vectors against the rows, and the links, under saves,
    edits, deletes and restores. */
module AdapterLaws {
  import opened VaultCore
  import opened Supersession
  import opened Storage
  import opened MergeLaws
  import opened EmbedText
  import opened Adapter
  import EnrichmentLaws
  import Enrichment
  import Contradiction
  import SleepCycle
  import RunLaws
  import Normalization

  // ---- the index agrees with the rows ----

  /** What the index shows for `id` is the stored wording, and a listed row is shown. */
  ghost predicate Agrees(rows: Rows, x: Index, id: MemoryId) {
    && (id in x.entries ==> id in rows && x.entries[id] == rows[id].content)
    && (id in rows && rows[id].Listed() ==> id in x.entries)
  }

  /** Every id whose latest index call succeeded agrees. */
  ghost predicate Agreement(v: Vault) {
    forall id: MemoryId :: id !in v.index.drifted ==> Agrees(v.st.rows, v.index, id)
  }

  lemma LoadedAgrees(st: Store, bin: Bin)
    ensures Agreement(Vault(st, bin, Loaded(st.rows)))
  {
  }

  /** One index call after a change to one row keeps the agreement, and brings that row into it
      exactly when the call succeeds. */
  lemma CallAgrees(v: Vault, next: Vault, id: MemoryId, text: Option<string>, r: IndexReply)
    requires Agreement(v) && next.index == Indexed(v.index, id, text, r)
    requires forall k | k != id :: (k in next.st.rows <==> k in v.st.rows) && (k in v.st.rows ==> next.st.rows[k] == v.st.rows[k])
    requires text.Some? <==> id in next.st.rows
    requires text.Some? ==> text.value == next.st.rows[id].content
    ensures Agreement(next)
    ensures id in next.index.drifted <==> r.fails
    ensures forall k | k != id :: k in next.index.drifted <==> k in v.index.drifted
  {
  }

  datatype Op =
    | SaveOp(n: NewMemory)
    | EditOp(id: MemoryId, n: NewMemory, actor: Actor)
    | RemoveOp(id: MemoryId, actor: Actor)
    | RestoreOp(entry: nat)
    | EraseOp(entry: nat)
    | EmptyOp
    | PurgeOp

  function Attempt(v: Vault, op: Op, r: Reply): Option<Vault> {
    match op
    case SaveOp(n) => Save(v, n, r)
    case EditOp(id, n, actor) => Edit(v, id, n, actor, r)
    case RemoveOp(id, actor) => Remove(v, id, actor, r)
    case RestoreOp(entry) => Restore(v, entry, r)
    case EraseOp(entry) => Erase(v, entry, r)
    case EmptyOp => Empty(v, r)
    case PurgeOp => Purge(v, r)
  }

  /** A refused or failed operation changes nothing. */
  function After(v: Vault, op: Op, r: Reply): Vault {
    match Attempt(v, op, r)
    case None => v
    case Some(next) => next
  }

  /** The memory an operation indexes anew. Erasing makes no index call. */
  function Subject(v: Vault, op: Op, r: Reply): Option<MemoryId> {
    match op
    case SaveOp(_) => Some(r.newId)
    case EditOp(id, _, _) => Some(id)
    case RemoveOp(id, _) => Some(id)
    case RestoreOp(entry) => if entry in v.bin then Some(v.bin[entry].memory.id) else None
    case _ => None
  }

  /** Every operation keeps the agreement; one that goes through leaves its memory agreeing exactly
      when its index call succeeds, so a later success repairs a drifted one. */
  lemma OpKeepsAgreement(v: Vault, op: Op, r: Reply)
    requires Agreement(v)
    ensures var next := After(v, op, r);
      && Agreement(next)
      && (Attempt(v, op, r).Some? && Subject(v, op, r).Some? ==>
            (Subject(v, op, r).value in next.index.drifted <==> r.index.fails))
      && forall k | Some(k) != Subject(v, op, r) :: k in next.index.drifted <==> k in v.index.drifted
  {
    var next := After(v, op, r);
    if Attempt(v, op, r).Some? && Subject(v, op, r).Some? {
      var id := Subject(v, op, r).value;
      var text := if id in next.st.rows then Some(next.st.rows[id].content) else None;
      match op
      case SaveOp(n) => CallAgrees(v, next, id, text, r.index);
      case EditOp(_, n, actor) => CallAgrees(v, next, id, text, r.index);
      case RemoveOp(_, actor) => CallAgrees(v, next, id, text, r.index);
      case RestoreOp(entry) => CallAgrees(v, next, id, text, r.index);
    }
  }

  ghost function Played(v: Vault, ops: seq<(Op, Reply)>): Vault
    decreases |ops|
  {
    if ops == [] then v else Played(After(v, ops[0].0, ops[0].1), ops[1..])
  }

  /** From the start-up load on, after any operations with any failures, every memory whose latest
      index call succeeded, or that has had none, is found under exactly its stored wording, or not
      at all when it is gone. */
  lemma {:induction false} IndexAlwaysAgrees(v: Vault, ops: seq<(Op, Reply)>)
    requires Agreement(v)
    ensures Agreement(Played(v, ops))
    decreases |ops|
  {
    if ops != [] {
      OpKeepsAgreement(v, ops[0].0, ops[0].1);
      IndexAlwaysAgrees(After(v, ops[0].0, ops[0].1), ops[1..]);
    }
  }

  lemma ExtensionKeepsAgreementIff(v: Vault, next: Store)
    requires Agreement(v) && Extends(v.st, next)
    ensures Agreement(v.(st := next))
      <==> forall id | id in next.rows && id !in v.st.rows && id !in v.index.drifted :: !next.rows[id].Listed()
  {
  }

  /** A sleep-cycle run in the same process makes no index call: however it ends, the agreement survives
      it exactly when it adds no listed row, so a merged fact is not found by keyword until the next
      start. */
  lemma RunKeepsAgreementIff(v: Vault, cfg: SleepCycle.Config, since: Option<Instant>, r: SleepCycle.RunReply)
    requires Agreement(v) && Forest(v.st.rows) && Keyed(v.st.rows)
    ensures var next := SleepCycle.Run(v.st, cfg, since, r).st;
      Agreement(v.(st := next)) <==>
        forall id | id in next.rows && id !in v.st.rows && id !in v.index.drifted :: !next.rows[id].Listed()
  {
    RunLaws.RunLaw(v.st, cfg, since, r);
    ExtensionKeepsAgreementIff(v, SleepCycle.Run(v.st, cfg, since, r).st);
  }

  // ---- vectors ----

  /** An edit's vector is that of the bare wording, so it is faithful exactly when the row does not
      count as enriched for the new wording; every other row is as faithful as before. */
  lemma EditFaithfulIff(v: Vault, id: MemoryId, n: NewMemory, actor: Actor, r: Reply)
    ensures match Edit(v, id, n, actor, r)
      case None => true
      case Some(next) =>
        && id in next.st.rows && (Faithful(next.st, id) <==> !EnrichedForCurrentContent(next.st.rows[id]))
        && forall k | k != id :: Faithful(next.st, k) <==> Faithful(v.st, k)
  {
    match Edit(v, id, n, actor, r)
    case None =>
    case Some(next) => AliasLineShows(next.st.rows[id]);
  }

  /** In particular, saving an enriched fact again with the wording it already has parts its vector
      from its row. */
  lemma SameWordingParts(v: Vault, id: MemoryId, n: NewMemory, actor: Actor, r: Reply)
    requires id in v.st.rows && EnrichedForCurrentContent(v.st.rows[id])
    ensures match Edit(v, id, n, actor, r)
      case None => true
      case Some(next) =>
        id in next.st.rows
        && (next.st.rows[id].content == v.st.rows[id].content ==>
              EnrichedForCurrentContent(next.st.rows[id]) && !Faithful(next.st, id))
  {
    EditFaithfulIff(v, id, n, actor, r);
  }

  /** Restoring has the same limit. */
  lemma RestoreFaithfulIff(v: Vault, entry: nat, r: Reply, next: Vault)
    requires Restore(v, entry, r) == Some(next)
    ensures var m := v.bin[entry].memory;
      && m.id in next.st.rows && next.st.rows[m.id] == m
      && (Faithful(next.st, m.id) <==> !EnrichedForCurrentContent(m))
      && forall k | k != m.id :: Faithful(next.st, k) <==> Faithful(v.st, k)
  {
  }

  /** A row that counts as enriched but whose vector does not show it is left that way by every
      enrichment pass: the next pass that could mend it takes it for done. */
  lemma PartedStaysParted(p: Enrichment.Pass, r: Enrichment.EnrichReply, id: MemoryId)
    requires Keyed(p.st.rows) && id in p.st.rows && EnrichedForCurrentContent(p.st.rows[id])
    requires id in p.st.vectors && !Faithful(p.st, id)
    ensures !Faithful(Enrichment.EnrichPass(p, r).st, id)
  {
    EnrichmentLaws.PassLaw(p, r, id);
  }

  // ---- there and back ----

  /** Deleting a memory and restoring it brings its row back exactly, and its keyword entry with it;
      its vector comes back as it was exactly when it was the vector of the bare wording. */
  lemma DeleteThenRestore(v: Vault, id: MemoryId, actor: Actor, r: Reply, gone: Vault, again: Reply, back: Vault)
    requires Keyed(v.st.rows) && id in v.st.rows && id in v.st.vectors
    requires Remove(v, id, actor, r) == Some(gone) && Restore(gone, r.newEntry, again) == Some(back)
    requires !again.index.fails
    ensures back.st.rows == v.st.rows && back.bin == v.bin
    ensures id in back.index.entries && back.index.entries[id] == v.st.rows[id].content
    ensures back.st.vectors == v.st.vectors <==> v.st.vectors[id] == v.st.rows[id].content
  {
  }

  /** An edit is undone by restoring the wording it replaced: the row comes back exactly, archive
      marker and all, and the edited row takes its place in Recently deleted. */
  lemma EditThenRestore(v: Vault, id: MemoryId, n: NewMemory, actor: Actor, r: Reply, again: Reply)
    requires Keyed(v.st.rows)
    ensures match Edit(v, id, n, actor, r)
      case None => true
      case Some(edited) =>
        && id in edited.st.rows && edited.st.rows[id].archivedAt.None?
        && match Restore(edited, r.newEntry, again)
           case None => true
           case Some(back) =>
             && back.st.rows == v.st.rows
             && again.newEntry in back.bin && back.bin[again.newEntry].memory == edited.st.rows[id]
  {
    match Edit(v, id, n, actor, r)
    case None =>
    case Some(edited) => RewriteBack(v.st.rows, id, edited.st.rows[id]);
  }

  lemma RewriteBack(rows: Rows, id: MemoryId, m: Memory)
    requires id in rows
    ensures rows[id := m][id := rows[id]] == rows
  {
  }

  // ---- links ----

  /** An edit may move a memory to another boundary. The links stay a forest exactly when it does not,
      or when nothing links the memory to another. */
  lemma EditKeepsForestIff(v: Vault, id: MemoryId, n: NewMemory, actor: Actor, r: Reply)
    requires Forest(v.st.rows)
    ensures match Edit(v, id, n, actor, r)
      case None => true
      case Some(next) =>
        Forest(next.st.rows) <==>
          n.boundary == v.st.rows[id].boundary
          || (v.st.rows[id].supersededBy.None? && forall k | k in v.st.rows :: v.st.rows[k].supersededBy != Some(id))
  {
    match Edit(v, id, n, actor, r)
    case None =>
    case Some(next) => MoveKeepsForestIff(v.st.rows, next.st.rows, id);
  }

  /** Moving one row to another boundary, its link and every other row as they were. */
  lemma MoveKeepsForestIff(rows: Rows, after: Rows, id: MemoryId)
    requires Forest(rows) && id in rows && after.Keys == rows.Keys
    requires after[id].supersededBy == rows[id].supersededBy
    requires forall k | k in rows && k != id :: after[k] == rows[k]
    ensures Forest(after) <==>
      after[id].boundary == rows[id].boundary
      || (rows[id].supersededBy.None? && forall k | k in rows :: rows[k].supersededBy != Some(id))
  {
    if after[id].boundary == rows[id].boundary
       || (rows[id].supersededBy.None? && forall k | k in rows :: rows[k].supersededBy != Some(id)) {
      StayedPut(rows, after, id);
    } else {
    }
  }

  lemma StayedPut(rows: Rows, after: Rows, id: MemoryId)
    requires Forest(rows) && id in rows && after.Keys == rows.Keys
    requires after[id].supersededBy == rows[id].supersededBy
    requires forall k | k in rows && k != id :: after[k] == rows[k]
    requires after[id].boundary == rows[id].boundary
             || (rows[id].supersededBy.None? && forall k | k in rows :: rows[k].supersededBy != Some(id))
    ensures Forest(after)
  {
    var rank :| RankedBy(rows, rank);
    assert RankedBy(after, rank);
  }

  /** A delete keeps the links a forest exactly when no other memory is superseded by the one that
      goes. */
  lemma RemoveKeepsForestIff(v: Vault, id: MemoryId, actor: Actor, r: Reply, next: Vault)
    requires Forest(v.st.rows) && Remove(v, id, actor, r) == Some(next)
    ensures Forest(next.st.rows) <==> forall k | k in v.st.rows && k != id :: v.st.rows[k].supersededBy != Some(id)
  {
    DeleteKeepsForestIff(v.st.rows, id);
    assert next.st.rows == v.st.rows - {id};
  }

  /** A restore keeps the links a forest exactly when the link it brings back leads to a row of its
      boundary whose chain does not come back to it, and the row is in the boundary the vault has it in, or
      nothing is superseded by it. */
  lemma RestoreKeepsForestIff(v: Vault, entry: nat, r: Reply, next: Vault)
    requires Forest(v.st.rows) && Restore(v, entry, r) == Some(next)
    ensures var m := v.bin[entry].memory;
      Forest(next.st.rows) <==> LinkFits(v.st.rows, m.id, m) && StaysIn(v.st.rows, m.id, m.boundary)
  {
    var m := v.bin[entry].memory;
    ReplaceKeepsForestIff(v.st.rows, m.id, m);
    assert next.st.rows == v.st.rows[m.id := m];
  }

  /** So a memory comes back with its link to nowhere when what superseded it was deleted after it: both
      deletes keep the forest, and the restore breaks it. */
  lemma DeletedHeirBreaksRestore(v: Vault, a: MemoryId, b: MemoryId, one: Vault, two: Vault, next: Vault, r: Reply, s: Reply, t: Reply)
    requires Forest(v.st.rows) && Keyed(v.st.rows) && a in v.st.rows && v.st.rows[a].supersededBy == Some(b)
    requires forall k | k in v.st.rows && k != a :: v.st.rows[k].supersededBy !in {Some(a), Some(b)}
    requires Remove(v, a, User, r) == Some(one) && Remove(one, b, User, s) == Some(two)
    requires Restore(two, r.newEntry, t) == Some(next)
    ensures Forest(one.st.rows) && Forest(two.st.rows) && !Forest(next.st.rows)
  {
    RemoveKeepsForestIff(v, a, User, r, one);
    RemoveKeepsForestIff(one, b, User, s, two);
    assert two.bin[r.newEntry].memory == v.st.rows[a] && b !in two.st.rows;
    RestoreKeepsForestIff(two, r.newEntry, t, next);
  }

  /** And two memories supersede each other when one is restored to a wording that was superseded by the
      other, after the other came to be superseded by it. */
  lemma RestoreCanCloseACycle(v: Vault, entry: nat, r: Reply, next: Vault)
    requires Forest(v.st.rows) && Restore(v, entry, r) == Some(next)
    requires var m := v.bin[entry].memory;
      m.supersededBy.Some? && m.supersededBy.value in v.st.rows && v.st.rows[m.supersededBy.value].supersededBy == Some(m.id)
    ensures !Forest(next.st.rows)
  {
    var m := v.bin[entry].memory;
    RestoreKeepsForestIff(v, entry, r, next);
    if p :| ChainFrom(v.st.rows, m.supersededBy.value, p) && m.id !in p {
      ChainHead(v.st.rows, m.supersededBy.value, p);
    }
  }

  // ---- the hourly limit ----

  /** Apps cannot pass the limit by themselves: an edit or delete an app gets through adds one to the
      count of its hour, and none gets through once the count is at the limit. */
  lemma AppChangeCounts(v: Vault, op: Op, r: Reply)
    requires (op.EditOp? || op.RemoveOp?) && op.actor == App && op.id in v.st.rows
    ensures match Attempt(v, op, r)
      case None => true
      case Some(next) =>
        !OverLimit(v.bin, App, r.now) && |AppChanges(next.bin, r.now)| == |AppChanges(v.bin, r.now)| + 1
  {
    if Attempt(v, op, r).Some? {
      var entry := BinEntry(if op.EditOp? then WasReplaced else WasDeleted, App, r.now, v.st.rows[op.id]);
      match op {
        case EditOp(id, n, actor) => EditBins(v, id, n, actor, r);
        case RemoveOp(id, actor) => RemoveBins(v, id, actor, r);
      }
      BinGrows(v.bin, r.newEntry, entry);
    }
  }

  lemma EditBins(v: Vault, id: MemoryId, n: NewMemory, actor: Actor, r: Reply)
    ensures match Edit(v, id, n, actor, r)
      case None => true
      case Some(next) =>
        && !OverLimit(v.bin, actor, r.now) && r.newEntry !in v.bin
        && next.bin == v.bin[r.newEntry := BinEntry(WasReplaced, actor, r.now, v.st.rows[id])]
  {
  }

  lemma RemoveBins(v: Vault, id: MemoryId, actor: Actor, r: Reply)
    requires id in v.st.rows
    ensures match Remove(v, id, actor, r)
      case None => true
      case Some(next) =>
        && !OverLimit(v.bin, actor, r.now) && r.newEntry !in v.bin
        && next.bin == v.bin[r.newEntry := BinEntry(WasDeleted, actor, r.now, v.st.rows[id])]
  {
  }

  lemma BinGrows(bin: Bin, e: nat, entry: BinEntry)
    requires e !in bin && entry.actor == App
    ensures |AppChanges(bin[e := entry], entry.at)| == |AppChanges(bin, entry.at)| + 1
  {
    assert AppChanges(bin[e := entry], entry.at) == AppChanges(bin, entry.at) + {e};
  }

  /** An app's edit or delete of a memory that goes through, less than an hour before `t`. */
  predicate AppGotThrough(v: Vault, op: Op, r: Reply, t: Instant) {
    && (op.EditOp? || op.RemoveOp?) && op.actor == App && op.id in v.st.rows
    && Attempt(v, op, r).Some? && r.now > t - HOUR
  }

  /** How many of the apps' changes of the hour before `t` an operation takes out of Recently deleted:
      the one it restores or erases, or all of them. */
  function TakenOutBy(v: Vault, op: Op, r: Reply, t: Instant): nat {
    if Attempt(v, op, r).None? then 0
    else match op
      case RestoreOp(entry) => if entry in AppChanges(v.bin, t) then 1 else 0
      case EraseOp(entry) => if entry in AppChanges(v.bin, t) then 1 else 0
      case EmptyOp => |AppChanges(v.bin, t)|
      case _ => 0
  }

  function Made(v: Vault, ops: seq<(Op, Reply)>, t: Instant): nat
    decreases |ops|
  {
    if ops == [] then 0
    else (if AppGotThrough(v, ops[0].0, ops[0].1, t) then 1 else 0) + Made(After(v, ops[0].0, ops[0].1), ops[1..], t)
  }

  function TakenOut(v: Vault, ops: seq<(Op, Reply)>, t: Instant): nat
    decreases |ops|
  {
    if ops == [] then 0
    else TakenOutBy(v, ops[0].0, ops[0].1, t) + TakenOut(After(v, ops[0].0, ops[0].1), ops[1..], t)
  }

  lemma BinGrowsBy(bin: Bin, e: nat, entry: BinEntry, t: Instant)
    requires e !in bin
    ensures |AppChanges(bin[e := entry], t)|
      == |AppChanges(bin, t)| + if entry.actor == App && entry.at > t - HOUR then 1 else 0
  {
    var more := AppChanges(bin[e := entry], t);
    assert more == if entry.actor == App && entry.at > t - HOUR then AppChanges(bin, t) + {e} else AppChanges(bin, t);
  }

  lemma BinLoses(bin: Bin, e: nat, t: Instant)
    ensures |AppChanges(bin - {e}, t)| == |AppChanges(bin, t)| - if e in AppChanges(bin, t) then 1 else 0
  {
    assert AppChanges(bin - {e}, t) == AppChanges(bin, t) - {e};
  }

  /** One operation moves the count of any hour by what it adds less what it takes out. */
  lemma OpCounts(v: Vault, op: Op, r: Reply, t: Instant)
    requires r.now <= t
    ensures |AppChanges(After(v, op, r).bin, t)| == |AppChanges(v.bin, t)|
      + (if AppGotThrough(v, op, r, t) then 1 else 0) - TakenOutBy(v, op, r, t)
  {
    match op
    case SaveOp(_) =>
    case EditOp(id, n, actor) =>
      EditBins(v, id, n, actor, r);
      if Attempt(v, op, r).Some? {
        BinGrowsBy(v.bin, r.newEntry, BinEntry(WasReplaced, actor, r.now, v.st.rows[id]), t);
      }
    case RemoveOp(id, actor) =>
      if id in v.st.rows && Attempt(v, op, r).Some? {
        RemoveBins(v, id, actor, r);
        BinGrowsBy(v.bin, r.newEntry, BinEntry(WasDeleted, actor, r.now, v.st.rows[id]), t);
      }
    case RestoreOp(entry) =>
      BinLoses(v.bin, entry, t);
      if Attempt(v, op, r).Some? && After(v, op, r).bin != v.bin - {entry} {
        var m :| After(v, op, r).bin == (v.bin - {entry})[r.newEntry := BinEntry(WasReplaced, User, r.now, m)];
        BinGrowsBy(v.bin - {entry}, r.newEntry, BinEntry(WasReplaced, User, r.now, m), t);
      }
    case EraseOp(entry) => BinLoses(v.bin, entry, t);
    case EmptyOp => assert AppChanges(map[], t) == {};
    case PurgeOp => assert AppChanges(v.bin - Expired(v.bin, r.now), t) == AppChanges(v.bin, t);
  }

  /** Clock readings between `from` and `to`, never going back. */
  ghost predicate InOrder(ops: seq<(Op, Reply)>, from: Instant, to: Instant)
    decreases |ops|
  {
    from <= to && (ops != [] ==> from <= ops[0].1.now && InOrder(ops[1..], ops[0].1.now, to))
  }

  lemma LaterCountsFewer(bin: Bin, now: Instant, later: Instant)
    requires now <= later
    ensures |AppChanges(bin, later)| <= |AppChanges(bin, now)|
  {
    Contradiction.CoverByCount(AppChanges(bin, later), AppChanges(bin, now));
  }

  /** Over any operations, the count of the last hour is what it was, plus what apps got through in that
      hour, less what the owner restored or erased of it, and it stays within the limit. */
  lemma {:induction false} CountAddsUp(v: Vault, ops: seq<(Op, Reply)>, from: Instant, t: Instant)
    requires InOrder(ops, from, t) && |AppChanges(v.bin, from)| <= APP_CHANGES_PER_HOUR
    ensures var end := Played(v, ops);
      && |AppChanges(end.bin, t)| == |AppChanges(v.bin, t)| + Made(v, ops, t) - TakenOut(v, ops, t)
      && |AppChanges(end.bin, t)| <= APP_CHANGES_PER_HOUR
    decreases |ops|
  {
    if ops == [] {
      LaterCountsFewer(v.bin, from, t);
    } else {
      var (op, r) := ops[0];
      OpCounts(v, op, r, t);
      OpStaysWithin(v, op, r, from);
      CountAddsUp(After(v, op, r), ops[1..], r.now, t);
    }
  }

  lemma OpStaysWithin(v: Vault, op: Op, r: Reply, from: Instant)
    requires from <= r.now && |AppChanges(v.bin, from)| <= APP_CHANGES_PER_HOUR
    ensures |AppChanges(After(v, op, r).bin, r.now)| <= APP_CHANGES_PER_HOUR
  {
    LaterCountsFewer(v.bin, from, r.now);
    OpCounts(v, op, r, r.now);
    if AppGotThrough(v, op, r, r.now) { AppChangeCounts(v, op, r); }
  }

  /** The hourly limit over any history: in the hour before any moment, apps get at most thirty changes
      through, and one more for each of that hour's changes that the owner restores or erases. */
  lemma AppsStayWithinLimit(v: Vault, ops: seq<(Op, Reply)>, from: Instant, t: Instant)
    requires InOrder(ops, from, t) && |AppChanges(v.bin, from)| <= APP_CHANGES_PER_HOUR
    ensures Made(v, ops, t) <= APP_CHANGES_PER_HOUR + TakenOut(v, ops, t)
  {
    CountAddsUp(v, ops, from, t);
  }

  function AllGoesWell(now: Instant, newEntry: nat): Reply {
    Reply(now, 0, newEntry, false, false, IndexReply(false, _ => None))
  }

  /** An app deletes `count` memories, from `first` on. */
  function Deletes(first: MemoryId, count: nat, now: Instant): seq<(Op, Reply)>
    decreases count
  {
    if count == 0 then [] else [(RemoveOp(first, App), AllGoesWell(now, first))] + Deletes(first + 1, count - 1, now)
  }

  lemma DeleteGetsThrough(v: Vault, id: MemoryId, now: Instant)
    requires id in v.st.rows && id !in v.bin && |AppChanges(v.bin, now)| < APP_CHANGES_PER_HOUR
    ensures var op, r := RemoveOp(id, App), AllGoesWell(now, id);
      var next := After(v, op, r);
      && AppGotThrough(v, op, r, now)
      && |AppChanges(next.bin, now)| == |AppChanges(v.bin, now)| + 1
      && forall k | k in v.st.rows && k !in v.bin && k != id :: k in next.st.rows && k !in next.bin
  {
    OpCounts(v, RemoveOp(id, App), AllGoesWell(now, id), now);
  }

  /** Each of the deletes gets through when its turn comes. */
  predicate AllThrough(v: Vault, first: MemoryId, count: nat, now: Instant)
    decreases count
  {
    count == 0 ||
    (&& AppGotThrough(v, RemoveOp(first, App), AllGoesWell(now, first), now)
     && AllThrough(After(v, RemoveOp(first, App), AllGoesWell(now, first)), first + 1, count - 1, now))
  }

  lemma {:induction false} ThroughAreMade(v: Vault, first: MemoryId, count: nat, now: Instant)
    requires AllThrough(v, first, count, now)
    ensures Made(v, Deletes(first, count, now), now) == count
    decreases count
  {
    if count > 0 {
      assert Deletes(first, count, now)[1..] == Deletes(first + 1, count - 1, now);
      ThroughAreMade(After(v, RemoveOp(first, App), AllGoesWell(now, first)), first + 1, count - 1, now);
    }
  }

  lemma {:induction false} DeletesAreThrough(v: Vault, first: MemoryId, count: nat, now: Instant)
    requires forall k | first <= k < first + count :: k in v.st.rows && k !in v.bin
    requires |AppChanges(v.bin, now)| + count <= APP_CHANGES_PER_HOUR
    ensures AllThrough(v, first, count, now)
    decreases count
  {
    if count > 0 {
      DeleteGetsThrough(v, first, now);
      DeletesAreThrough(After(v, RemoveOp(first, App), AllGoesWell(now, first)), first + 1, count - 1, now);
    }
  }

  lemma DeletesGetThrough(v: Vault, first: MemoryId, count: nat, now: Instant)
    requires forall k | first <= k < first + count :: k in v.st.rows && k !in v.bin
    requires |AppChanges(v.bin, now)| + count <= APP_CHANGES_PER_HOUR
    ensures Made(v, Deletes(first, count, now), now) == count
  {
    DeletesAreThrough(v, first, count, now);
    ThroughAreMade(v, first, count, now);
  }

  lemma {:induction false} DeletesLeaveOthers(v: Vault, first: MemoryId, count: nat, now: Instant, k: MemoryId)
    requires k in v.st.rows && !(first <= k < first + count)
    ensures k in Played(v, Deletes(first, count, now)).st.rows
    decreases count
  {
    if count > 0 {
      assert Deletes(first, count, now)[1..] == Deletes(first + 1, count - 1, now);
      DeletesLeaveOthers(After(v, RemoveOp(first, App), AllGoesWell(now, first)), first + 1, count - 1, now, k);
    }
  }

  lemma {:induction false} MadeSplits(v: Vault, a: seq<(Op, Reply)>, b: seq<(Op, Reply)>, t: Instant)
    ensures Made(v, a + b, t) == Made(v, a, t) + Made(Played(v, a), b, t)
    decreases |a|
  {
    if a == [] {
      assert a + b == b;
    } else {
      assert (a + b)[1..] == a[1..] + b;
      MadeSplits(After(v, a[0].0, a[0].1), a[1..], b, t);
    }
  }

  /** Emptying Recently deleted starts the count afresh: with nothing in it, an app deletes thirty
      memories, the owner empties it, and the app deletes thirty more in the same hour. */
  lemma EmptyingAllowsThirtyMore(v: Vault, now: Instant)
    requires v.bin == map[] && forall k: MemoryId | k < 60 :: k in v.st.rows
    ensures Made(v, Deletes(0, 30, now) + ([(EmptyOp, AllGoesWell(now, 0))] + Deletes(30, 30, now)), now) == 60
  {
    var r := AllGoesWell(now, 0);
    var full := Played(v, Deletes(0, 30, now));
    assert AppChanges(map[], now) == {};
    DeletesGetThrough(v, 0, 30, now);
    forall k | 30 <= k < 60 ensures k in full.st.rows { DeletesLeaveOthers(v, 0, 30, now, k); }
    MadeSplits(v, Deletes(0, 30, now), [(EmptyOp, r)] + Deletes(30, 30, now), now);
    EmptiedGetThrough(full, 30, 30, now);
  }

  lemma EmptiedGetThrough(v: Vault, first: MemoryId, count: nat, now: Instant)
    requires count <= APP_CHANGES_PER_HOUR && forall k | first <= k < first + count :: k in v.st.rows
    ensures Made(v, [(EmptyOp, AllGoesWell(now, 0))] + Deletes(first, count, now), now) == count
  {
    assert AppChanges(map[], now) == {};
    DeletesGetThrough(After(v, EmptyOp, AllGoesWell(now, 0)), first, count, now);
    assert ([(EmptyOp, AllGoesWell(now, 0))] + Deletes(first, count, now))[1..] == Deletes(first, count, now);
  }

  /** The owner restoring an app's change takes it out of that count. */
  lemma RestoreUncounts(v: Vault, entry: nat, r: Reply, next: Vault)
    requires Restore(v, entry, r) == Some(next) && entry in AppChanges(v.bin, r.now)
    requires r.newEntry !in v.bin
    ensures |AppChanges(next.bin, r.now)| == |AppChanges(v.bin, r.now)| - 1
  {
    assert AppChanges(next.bin, r.now) == AppChanges(v.bin, r.now) - {entry};
  }
}
