/** The undo log of one run: the difference between the enumerations before and after it, and
    its application. */
module Checkpoint {
  import opened VaultCore
  import opened SortedIds
  import opened Supersession
  import opened Storage
  import opened MergeLaws
  import opened EmbedText

  datatype Entry =
    | Modified(before: Memory, embedded: string)
    | Created(created: MemoryId, boundary: Boundary)
  {
    function Id(): MemoryId {
      if Modified? then before.id else created
    }
  }

  predicate Changed(pre: Rows, post: Rows, id: MemoryId) {
    id in post && (id !in pre || post[id] != pre[id])
  }

  ghost function ChangedIds(pre: Rows, post: Rows): set<MemoryId> {
    set id | id in post && Changed(pre, post, id)
  }

  function EntryFor(pre: Rows, post: Rows, id: MemoryId): Entry
    requires id in post
  {
    if id in pre then Modified(pre[id], StoredEmbedText(pre[id])) else Created(id, post[id].boundary)
  }

  function Ids(entries: seq<Entry>): (ids: seq<MemoryId>)
    ensures |ids| == |entries| && forall i | 0 <= i < |ids| :: ids[i] == entries[i].Id()
  {
    seq(|entries|, i requires 0 <= i < |entries| => entries[i].Id())
  }

  /** One entry for every changed row, in some order, and none for any other. */
  ghost predicate Captures(pre: Rows, post: Rows, entries: seq<Entry>) {
    && Distinct(Ids(entries))
    && SetOf(Ids(entries)) == ChangedIds(pre, post)
    && forall i | 0 <= i < |entries| :: entries[i].Id() in post && entries[i] == EntryFor(pre, post, entries[i].Id())
  }

  /** What a log holds, entry by entry: of each row the run changed, the row as it was and the text its vector
      stood for; of each row it added, the id and the boundary. */
  lemma EntriesTell(pre: Rows, post: Rows, entries: seq<Entry>, i: nat)
    requires Captures(pre, post, entries) && i < |entries|
    ensures match entries[i]
      case Modified(before, embedded) =>
        && before.id in post && pre[before.id] != post[before.id]
        && (EnrichedForCurrentContent(before) ==> embedded == before.content + " Topics: " + before.metadata.enrichment.value.aliases)
        && (!EnrichedForCurrentContent(before) ==> embedded == before.content)
      case Created(id, b) => id !in pre && id in post && b == post[id].boundary
    ensures entries[i].Modified? ==> entries[i].before.id in pre && entries[i].before == pre[entries[i].before.id]
  {
    assert Ids(entries)[i] in SetOf(Ids(entries));
  }

  // ---- capture ----

  /** The entries written so far are those of the rows already looked at. */
  ghost predicate CapturesWithin(pre: Rows, post: Rows, entries: seq<Entry>, looked: set<MemoryId>) {
    && Distinct(Ids(entries))
    && SetOf(Ids(entries)) == ChangedIds(pre, post) * looked
    && forall i | 0 <= i < |entries| :: entries[i].Id() in post && entries[i] == EntryFor(pre, post, entries[i].Id())
  }

  lemma CaptureOne(pre: Rows, post: Rows, entries: seq<Entry>, looked: set<MemoryId>, id: MemoryId)
    requires Keyed(pre) && CapturesWithin(pre, post, entries, looked) && id !in looked
    ensures Changed(pre, post, id) ==> CapturesWithin(pre, post, entries + [EntryFor(pre, post, id)], looked + {id})
    ensures !Changed(pre, post, id) ==> CapturesWithin(pre, post, entries, looked + {id})
  {
    if Changed(pre, post, id) {
      var e := EntryFor(pre, post, id);
      assert Ids(entries + [e]) == Ids(entries) + [e.Id()];
      assert SetOf(Ids(entries + [e])) == SetOf(Ids(entries)) + {e.Id()};
    }
  }

  /** First over the rows of before, in the arbitrary order of a hash map, then over those of after, in
      theirs. A row only in the first enumeration is reported and left out. `None` when re-embedding a pre-image fails. */
  method DiffToEntries(pre: Rows, post: Rows, embedFails: MemoryId -> bool) returns (entries: Option<seq<Entry>>)
    requires Keyed(pre)
    ensures entries.None? <==> exists id | id in pre :: Changed(pre, post, id) && embedFails(id)
    ensures entries.Some? ==> Captures(pre, post, entries.value)
  {
    var list: seq<Entry> := [];
    var todo := pre.Keys;
    while todo != {}
      invariant todo <= pre.Keys
      invariant CapturesWithin(pre, post, list, pre.Keys - todo)
      invariant forall id | id in pre.Keys - todo :: Changed(pre, post, id) ==> !embedFails(id)
      decreases todo
    {
      var id :| id in todo;
      CaptureOne(pre, post, list, pre.Keys - todo, id);
      assert pre.Keys - (todo - {id}) == (pre.Keys - todo) + {id};
      if id in post && post[id] != pre[id] {
        if embedFails(id) { return None; }
        list := list + [Modified(pre[id], StoredEmbedText(pre[id]))];
      }
      todo := todo - {id};
    }
    assert pre.Keys - todo == pre.Keys;
    todo := post.Keys;
    ghost var looked := pre.Keys;
    while todo != {}
      invariant todo <= post.Keys && looked == pre.Keys + (post.Keys - todo)
      invariant CapturesWithin(pre, post, list, looked)
      decreases todo
    {
      var id := Least(todo);
      if id !in pre {
        CaptureOne(pre, post, list, looked, id);
        list := list + [Created(id, post[id].boundary)];
      }
      looked := looked + {id};
      todo := todo - {id};
    }
    assert ChangedIds(pre, post) * looked == ChangedIds(pre, post);
    entries := Some(list);
  }

  /** What `capture_checkpoint` stores. */
  datatype Capture = CaptureFailed | NothingChanged | Stored(entries: seq<Entry>)

  datatype CaptureReply = CaptureReply(listFails: bool, embedFails: MemoryId -> bool, createFails: bool)

  /** Some call the capture needs fails: the second enumeration, the embedding of a pre-image, or the
      insert of the log. */
  ghost predicate CaptureFails(pre: Rows, post: Rows, r: CaptureReply) {
    || r.listFails
    || (exists id | id in pre :: Changed(pre, post, id) && r.embedFails(id))
    || (ChangedIds(pre, post) != {} && r.createFails)
  }

  lemma CaptureFailsIff(pre: Rows, post: Rows, r: CaptureReply)
    ensures CaptureFails(pre, post, r) <==>
      || r.listFails
      || (exists id | id in pre :: id in post && post[id] != pre[id] && r.embedFails(id))
      || (r.createFails && exists id | id in post :: id !in pre || post[id] != pre[id])
  {
    if id :| id in post && (id !in pre || post[id] != pre[id]) { assert id in ChangedIds(pre, post); }
    if id :| id in ChangedIds(pre, post) { assert id in post; }
  }

  method CaptureCheckpoint(pre: Rows, post: Rows, r: CaptureReply) returns (c: Capture)
    requires Keyed(pre)
    ensures c.Stored? ==> c.entries != [] && Captures(pre, post, c.entries)
    ensures c.NothingChanged? ==> ChangedIds(pre, post) == {}
    ensures ChangedIds(pre, post) == {} && !r.listFails ==> c.NothingChanged?
    ensures c.CaptureFailed? <==> CaptureFails(pre, post, r)
    ensures c.CaptureFailed? <==>
      || r.listFails
      || (exists id | id in pre :: id in post && post[id] != pre[id] && r.embedFails(id))
      || (r.createFails && exists id | id in post :: id !in pre || post[id] != pre[id])
  {
    CaptureFailsIff(pre, post, r);
    if r.listFails { return CaptureFailed; }
    var entries := DiffToEntries(pre, post, r.embedFails);
    if entries.None? {
      var id :| id in pre && Changed(pre, post, id) && r.embedFails(id);
      assert id in ChangedIds(pre, post);
      return CaptureFailed;
    }
    CaptureIsEmptyIff(pre, post, entries.value);
    if entries.value == [] { return NothingChanged; }
    if r.createFails { return CaptureFailed; }
    c := Stored(entries.value);
  }

  lemma CaptureIsEmptyIff(pre: Rows, post: Rows, entries: seq<Entry>)
    requires Captures(pre, post, entries)
    ensures entries == [] <==> ChangedIds(pre, post) == {}
    ensures |entries| == |ChangedIds(pre, post)|
  {
    DistinctCount(Ids(entries));
    if entries != [] { assert Ids(entries)[0] in SetOf(Ids(entries)); }
  }

  // ---- rollback ----

  /** `st` with the given ids put back as `pre` has them: restored, or deleted if `pre` lacks them. */
  ghost function Undone(pre: Rows, st: Store, ids: set<MemoryId>): Store {
    Store(UndoneRows(pre, st.rows, ids), UndoneVectors(pre, st, ids))
  }

  ghost function UndoneRows(pre: Rows, rows: Rows, ids: set<MemoryId>): Rows {
    map id | id in rows && !(id in ids && id !in pre) :: if id in ids then pre[id] else rows[id]
  }

  ghost function UndoneVectors(pre: Rows, st: Store, ids: set<MemoryId>): map<MemoryId, string> {
    map id | id in st.vectors.Keys + ids * pre.Keys && !(id in ids && id !in pre && id in st.rows) ::
      if id in ids && id in pre then StoredEmbedText(pre[id]) else st.vectors[id]
  }

  /** The entry names a row of `st` to restore, or a row the run created. */
  ghost predicate Applies(pre: Rows, st: Store, e: Entry) {
    match e
    case Modified(before, embedded) =>
      && before.id in pre && before == pre[before.id] && embedded == StoredEmbedText(before)
      && before.id in st.rows && before.Validates()
    case Created(id, b) => id !in pre
  }

  ghost predicate Applicable(pre: Rows, st: Store, entries: seq<Entry>) {
    forall i | 0 <= i < |entries| :: Applies(pre, st, entries[i])
  }

  lemma DeleteOne(pre: Rows, st: Store, ids: set<MemoryId>, id: MemoryId)
    requires id !in pre && id !in ids
    ensures UndoneRows(pre, st.rows, ids + {id}) == UndoneRows(pre, st.rows, ids) - {id}
    ensures id in UndoneRows(pre, st.rows, ids) <==> id in st.rows
  {
  }

  lemma DropOneVector(pre: Rows, st: Store, ids: set<MemoryId>, id: MemoryId)
    requires id !in pre && id !in ids
    ensures UndoneVectors(pre, st, ids + {id}) ==
      if id in st.rows then UndoneVectors(pre, st, ids) - {id} else UndoneVectors(pre, st, ids)
  {
  }

  /** One entry put back; the ids before it are already undone. */
  method UndoEntry(storage: StorageBackend, ghost pre: Rows, ghost st: Store, ghost ids: set<MemoryId>, e: Entry, fails: bool)
    returns (ok: bool)
    requires Applies(pre, st, e) && e.Id() !in ids
    requires storage.rows == UndoneRows(pre, st.rows, ids) && storage.vectors == UndoneVectors(pre, st, ids)
    modifies storage
    ensures ok <==> !fails
    ensures !ok ==> storage.rows == old(storage.rows) && storage.vectors == old(storage.vectors)
    ensures ok ==> storage.rows == UndoneRows(pre, st.rows, ids + {e.Id()}) && storage.vectors == UndoneVectors(pre, st, ids + {e.Id()})
  {
    match e {
      case Modified(before, embedded) =>
        ok := storage.UpdateMemory(before, embedded, fails);
      case Created(id, _) =>
        DeleteOne(pre, st, ids, id);
        DropOneVector(pre, st, ids, id);
        ok := storage.DeleteMemory(id, fails);
    }
  }

  /** The ids of the first `n` entries. */
  function IdsUpTo(entries: seq<Entry>, n: nat): set<MemoryId>
    requires n <= |entries|
  {
    if n == 0 then {} else IdsUpTo(entries, n - 1) + {entries[n - 1].Id()}
  }

  lemma {:induction false} IdsUpToIsPrefix(entries: seq<Entry>, n: nat)
    requires n <= |entries|
    ensures IdsUpTo(entries, n) == SetOf(Ids(entries)[..n])
  {
    if n > 0 {
      IdsUpToIsPrefix(entries, n - 1);
      assert Ids(entries)[..n] == Ids(entries)[..n - 1] + [entries[n - 1].Id()];
    }
  }

  lemma NothingUndone(pre: Rows, st: Store, entries: seq<Entry>)
    ensures UndoneRows(pre, st.rows, IdsUpTo(entries, 0)) == st.rows
    ensures UndoneVectors(pre, st, IdsUpTo(entries, 0)) == st.vectors
  {
  }

  lemma OneMoreId(entries: seq<Entry>, i: nat)
    requires i < |entries| && Distinct(Ids(entries))
    ensures IdsUpTo(entries, i + 1) == IdsUpTo(entries, i) + {entries[i].Id()}
    ensures entries[i].Id() !in IdsUpTo(entries, i)
  {
    IdsUpToIsPrefix(entries, i);
  }

  /** All of them, when no call fails. */
  lemma AllIds(entries: seq<Entry>)
    ensures IdsUpTo(entries, |entries|) == SetOf(Ids(entries))
  {
    IdsUpToIsPrefix(entries, |entries|);
    assert Ids(entries)[..|entries|] == Ids(entries);
  }

  /** The first of `n` calls that fails, or `n`. */
  function FirstFailure(fails: nat -> bool, n: nat): (k: nat)
    ensures k <= n && (k < n ==> fails(k)) && forall i | 0 <= i < k :: !fails(i)
  {
    if n == 0 then 0
    else
      var k := FirstFailure(fails, n - 1);
      if k < n - 1 || fails(n - 1) then k else n
  }

  /** `rollback_checkpoint`'s second phase, in whatever order the entries come back. It stops at the
      first failure, with the entries before it undone and the checkpoint still active. */
  method ApplyUndo(storage: StorageBackend, ghost pre: Rows, entries: seq<Entry>, fails: nat -> bool) returns (done: nat)
    requires Applicable(pre, storage.View(), entries) && Distinct(Ids(entries))
    modifies storage
    ensures done <= |entries|
    ensures storage.rows == UndoneRows(pre, old(storage.rows), IdsUpTo(entries, done))
    ensures storage.vectors == UndoneVectors(pre, old(storage.View()), IdsUpTo(entries, done))
    ensures done == |entries| ==> storage.View() == Undone(pre, old(storage.View()), SetOf(Ids(entries)))
    ensures done == FirstFailure(fails, |entries|)
  {
    ghost var st := storage.View();
    done := 0;
    NothingUndone(pre, st, entries);
    while done < |entries|
      invariant done <= |entries|
      invariant storage.rows == UndoneRows(pre, st.rows, IdsUpTo(entries, done))
      invariant storage.vectors == UndoneVectors(pre, st, IdsUpTo(entries, done))
      invariant forall i | 0 <= i < done :: !fails(i)
    {
      OneMoreId(entries, done);
      var ok := UndoEntry(storage, pre, st, IdsUpTo(entries, done), entries[done], fails(done));
      if !ok { return; }
      done := done + 1;
    }
    AllIds(entries);
  }

  /** A stored checkpoint: active until a rollback has gone all the way through. */
  class StoredCheckpoint {
    const entries: seq<Entry>
    var rolledBack: bool

    constructor (entries: seq<Entry>)
      ensures this.entries == entries && !rolledBack
    {
      this.entries, rolledBack := entries, false;
    }

    /** A checkpoint is rolled back at most once; a rollback that stops half-way leaves it active. */
    method RollBack(storage: StorageBackend, ghost pre: Rows, fails: nat -> bool, markFails: bool) returns (ok: bool)
      requires Applicable(pre, storage.View(), entries) && Distinct(Ids(entries))
      modifies this, storage
      ensures old(rolledBack) ==> !ok && rolledBack && storage.View() == old(storage.View())
      ensures !old(rolledBack) ==>
        && rolledBack == ok
        && ok == (!markFails && FirstFailure(fails, |entries|) == |entries|)
        && storage.View() == Undone(pre, old(storage.View()), IdsUpTo(entries, FirstFailure(fails, |entries|)))
      ensures ok ==> storage.View() == Undone(pre, old(storage.View()), SetOf(Ids(entries)))
    {
      if rolledBack { return false; }
      var done := ApplyUndo(storage, pre, entries, fails);
      if done < |entries| || markFails { return false; }
      rolledBack := true;
      ok := true;
    }
  }

  /** Undoing a run's entries puts back every row that is still there as it was, deletes every row
      the run made, and so restores the rows of before exactly when none of them was deleted. */
  lemma UndoRestoresRows(pre: Rows, post: Store, entries: seq<Entry>)
    requires Captures(pre, post.rows, entries)
    ensures var back := Undone(pre, post, SetOf(Ids(entries)));
      && back.rows.Keys == pre.Keys * post.rows.Keys
      && (forall id | id in back.rows :: back.rows[id] == pre[id])
      && (back.rows == pre <==> pre.Keys <= post.rows.Keys)
  {
  }

  /** The undo round trip: after a run, undoing its entries brings back every row exactly, and every
      vector of a row the run did not modify; the vectors of modified rows come back exactly when
      they were what their rows said they should be. */
  lemma UndoRoundTrip(pre: Store, post: Store, entries: seq<Entry>)
    requires Extends(pre, post) && Captures(pre.rows, post.rows, entries)
    ensures var back := Undone(pre.rows, post, SetOf(Ids(entries)));
      && back.rows == pre.rows
      && (forall id | id in post.rows && id !in pre.rows :: id !in back.vectors)
      && (forall id | id in pre.rows && !Changed(pre.rows, post.rows, id) :: SameVector(pre, back, id))
      && (forall id | id in pre.rows && Changed(pre.rows, post.rows, id) :: SameVector(pre, back, id) <==> Faithful(pre, id))
  {
  }

  /** A rollback that stopped half-way can be run again from the start, and ends where one that
      never stopped would have. */
  lemma UndoCanBeRepeated(pre: Rows, st: Store, some: set<MemoryId>, all: set<MemoryId>)
    requires some <= all && st.vectors.Keys <= st.rows.Keys
    requires forall id | id in all && id in pre :: id in st.rows
    ensures Undone(pre, Undone(pre, st, some), all) == Undone(pre, st, all)
  {
  }
}
