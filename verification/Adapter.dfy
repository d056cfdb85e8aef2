/** Saves, edits, deletes and restores by the owner or an app: the row and its vector first, then the
    keyword index kept in memory beside them. */
module Adapter {
  import opened VaultCore
  import opened Storage
  import Normalization

  // ---- the keyword index ----

  /** `entries[id]` is the text searched for `id`. `drifted`: ids whose latest call failed; a failed
      call leaves half its work pending, so what the index shows for them is anybody's guess. */
  datatype Index = Index(entries: map<MemoryId, string>, drifted: set<MemoryId>)

  /** Whether the call fails, and what every drifted id shows after it. */
  datatype IndexReply = IndexReply(fails: bool, shows: MemoryId -> Option<string>)

  function DriftedAfter(x: Index, id: MemoryId, r: IndexReply): set<MemoryId> {
    if r.fails then x.drifted + {id} else x.drifted - {id}
  }

  function Shown(x: Index, id: MemoryId, text: Option<string>, r: IndexReply, k: MemoryId): Option<string> {
    if k in DriftedAfter(x, id, r) then r.shows(k)
    else if k == id then text
    else if k in x.entries then Some(x.entries[k]) else None
  }

  /** One upsert (`text` given) or delete (no text). */
  function Indexed(x: Index, id: MemoryId, text: Option<string>, r: IndexReply): Index {
    Index(
      map k | k in x.entries.Keys + x.drifted + {id} && Shown(x, id, text, r, k).Some? :: Shown(x, id, text, r, k).value,
      DriftedAfter(x, id, r))
  }

  /** The load at start: every listed row. */
  function Loaded(rows: Rows): Index {
    Index(map id | id in ListedIds(rows) :: rows[id].content, {})
  }

  // ---- Recently deleted ----

  datatype Actor = User | App

  datatype BinKind = WasDeleted | WasReplaced

  datatype BinEntry = BinEntry(kind: BinKind, actor: Actor, at: Instant, memory: Memory)

  type Bin = map<nat, BinEntry>

  const APP_CHANGES_PER_HOUR := 30
  const HOUR: int := 3_600_000_000
  const KEPT_DAYS := 30

  function AppChanges(bin: Bin, now: Instant): set<nat> {
    set e | e in bin && bin[e].actor == App && bin[e].at > now - HOUR
  }

  predicate OverLimit(bin: Bin, actor: Actor, now: Instant) {
    actor == App && |AppChanges(bin, now)| >= APP_CHANGES_PER_HOUR
  }

  // ---- the operations ----

  /** What a caller may set. */
  datatype NewMemory = NewMemory(
    content: string,
    memoryType: MemoryType,
    boundary: Boundary,
    sourceAgent: Option<string>,
    confidence: real,
    validFrom: Option<Instant>,
    validUntil: Option<Instant>,
    metadata: Metadata)

  /** The vault's rows and vectors, what is in Recently deleted, and the index. */
  datatype Vault = Vault(st: Store, bin: Bin, index: Index)

  /** Clock, fresh ids, and which calls fail. */
  datatype Reply = Reply(now: Instant, newId: MemoryId, newEntry: nat, embedFails: bool, storeFails: bool, index: IndexReply)

  function Candidate(id: MemoryId, n: NewMemory, content: string, now: Instant): Memory {
    Memory(id, content, n.memoryType, n.sourceAgent, n.boundary, now,
           if n.validFrom.Some? then n.validFrom.value else now,
           n.validUntil, n.confidence, 0, now, None, None, n.metadata)
  }

  /** What an edit keeps of the row it replaces. The archive marker is not among it. */
  function Patched(c: Memory, existing: Memory): Memory {
    c.(sourceAgent := existing.sourceAgent, createdAt := existing.createdAt, validFrom := existing.validFrom,
       validUntil := existing.validUntil, accessCount := existing.accessCount,
       supersededBy := existing.supersededBy, metadata := existing.metadata)
  }

  function Save(v: Vault, n: NewMemory, r: Reply): Option<Vault> {
    match Normalization.Normalize(n.content)
    case None => None
    case Some(content) =>
      var m := Candidate(r.newId, n, content, r.now);
      if !m.Validates() || r.embedFails then None
      else match Written(v.st, m, content, r.storeFails)
        case None => None
        case Some(st) => Some(v.(st := st, index := Indexed(v.index, m.id, Some(content), r.index)))
  }

  function Edit(v: Vault, id: MemoryId, n: NewMemory, actor: Actor, r: Reply): Option<Vault> {
    match Normalization.Normalize(n.content)
    case None => None
    case Some(content) =>
      if id !in v.st.rows || !Candidate(id, n, content, r.now).Validates() then None
      else
        var existing := v.st.rows[id];
        var m := Patched(Candidate(id, n, content, r.now), existing);
        if !m.Validates() || r.embedFails || OverLimit(v.bin, actor, r.now) || r.newEntry in v.bin then None
        else match Updated(v.st, m, content, r.storeFails)
          case None => None
          case Some(st) =>
            Some(Vault(st, v.bin[r.newEntry := BinEntry(WasReplaced, actor, r.now, existing)],
                       Indexed(v.index, id, Some(content), r.index)))
  }

  function Remove(v: Vault, id: MemoryId, actor: Actor, r: Reply): Option<Vault> {
    if id in v.st.rows && (OverLimit(v.bin, actor, r.now) || r.newEntry in v.bin) then None
    else match Deleted(v.st, id, r.storeFails)
      case None => None
      case Some(st) =>
        var bin := if id in v.st.rows then v.bin[r.newEntry := BinEntry(WasDeleted, actor, r.now, v.st.rows[id])] else v.bin;
        Some(Vault(st, bin, Indexed(v.index, id, None, r.index)))
  }

  /** Whether the row is there again or not, it and its vector are put back, the vector from the bare
      wording. */
  function PutBack(st: Store, m: Memory, fails: bool): Option<Store> {
    if m.id in st.rows then Updated(st, m, m.content, fails) else Written(st, m, m.content, fails)
  }

  function Restore(v: Vault, entry: nat, r: Reply): Option<Vault> {
    if entry !in v.bin || r.embedFails || v.bin[entry].at < r.now - KEPT_DAYS * DAY then None
    else
      var m := v.bin[entry].memory;
      if m.id in v.st.rows && r.newEntry in v.bin then None
      else match PutBack(v.st, m, r.storeFails)
        case None => None
        case Some(st) =>
          var bin := if m.id in v.st.rows
            then (v.bin - {entry})[r.newEntry := BinEntry(WasReplaced, User, r.now, v.st.rows[m.id])]
            else v.bin - {entry};
          Some(Vault(st, bin, Indexed(v.index, m.id, Some(m.content), r.index)))
  }

  /** Erasing for good: one entry, if it is still there; all of them; those past their thirty days. */
  function Erase(v: Vault, entry: nat, r: Reply): Option<Vault> {
    if r.storeFails then None else Some(v.(bin := v.bin - {entry}))
  }

  function Empty(v: Vault, r: Reply): Option<Vault> {
    if r.storeFails then None else Some(v.(bin := map[]))
  }

  function Expired(bin: Bin, now: Instant): set<nat> {
    set e | e in bin && bin[e].at < now - KEPT_DAYS * DAY
  }

  function Purge(v: Vault, r: Reply): Option<Vault> {
    if r.storeFails then None else Some(v.(bin := v.bin - Expired(v.bin, r.now)))
  }

  /** The open vault as the program holds it. */
  class VaultAdapter {
    const storage: StorageBackend
    var bin: Bin
    var index: Index

    /** The bulk load at start-up. */
    constructor (storage: StorageBackend, bin: Bin)
      ensures this.storage == storage && View() == Vault(storage.View(), bin, Loaded(storage.rows))
    {
      this.storage, this.bin, this.index := storage, bin, Loaded(storage.rows);
    }

    function View(): Vault
      reads this, storage
    {
      Vault(storage.View(), bin, index)
    }

    ghost predicate Committed(before: Vault, change: Option<Vault>, ok: bool)
      reads this, storage
    {
      ok == change.Some? && View() == if ok then change.value else before
    }

    method Write(n: NewMemory, r: Reply) returns (ok: bool)
      modifies this, storage
      ensures Committed(old(View()), Save(old(View()), n, r), ok)
    {
      var content := Normalization.Normalize(n.content);
      if content.None? { return false; }
      var m := Candidate(r.newId, n, content.value, r.now);
      if !m.Validates() { return false; }
      if r.embedFails { return false; }
      ok := storage.WriteMemory(m, content.value, r.storeFails);
      if !ok { return; }
      index := Indexed(index, m.id, Some(content.value), r.index);
    }

    method UpdateAs(id: MemoryId, n: NewMemory, actor: Actor, r: Reply) returns (ok: bool)
      requires r.newEntry !in bin
      modifies this, storage
      ensures Committed(old(View()), Edit(old(View()), id, n, actor, r), ok)
    {
      var content := Normalization.Normalize(n.content);
      if content.None? { return false; }
      if id !in storage.rows { return false; }
      var existing := storage.rows[id];
      var candidate := Candidate(id, n, content.value, r.now);
      if !candidate.Validates() { return false; }
      var m := Patched(candidate, existing);
      if !m.Validates() { return false; }
      if r.embedFails || OverLimit(bin, actor, r.now) { return false; }
      ok := storage.UpdateMemory(m, content.value, r.storeFails);
      if !ok { return; }
      bin := bin[r.newEntry := BinEntry(WasReplaced, actor, r.now, existing)];
      index := Indexed(index, id, Some(content.value), r.index);
    }

    method DeleteAs(id: MemoryId, actor: Actor, r: Reply) returns (ok: bool)
      requires r.newEntry !in bin
      modifies this, storage
      ensures Committed(old(View()), Remove(old(View()), id, actor, r), ok)
    {
      var next := bin;
      if id in storage.rows {
        if OverLimit(bin, actor, r.now) { return false; }
        next := bin[r.newEntry := BinEntry(WasDeleted, actor, r.now, storage.rows[id])];
      }
      ok := storage.DeleteMemory(id, r.storeFails);
      if !ok { return; }
      bin := next;
      index := Indexed(index, id, None, r.index);
    }

    method RestoreRecentlyDeleted(entry: nat, r: Reply) returns (ok: bool)
      requires r.newEntry !in bin
      modifies this, storage
      ensures Committed(old(View()), Restore(old(View()), entry, r), ok)
    {
      if entry !in bin { return false; }
      if r.embedFails { return false; }
      var m := bin[entry].memory;
      if bin[entry].at < r.now - KEPT_DAYS * DAY { return false; }
      var next := bin - {entry};
      if m.id in storage.rows {
        next := next[r.newEntry := BinEntry(WasReplaced, User, r.now, storage.rows[m.id])];
        ok := storage.UpdateMemory(m, m.content, r.storeFails);
      } else {
        ok := storage.WriteMemory(m, m.content, r.storeFails);
      }
      if !ok { return; }
      bin := next;
      index := Indexed(index, m.id, Some(m.content), r.index);
    }

    method EraseRecentlyDeleted(entry: nat, r: Reply) returns (was: Option<bool>)
      modifies this
      ensures Committed(old(View()), Erase(old(View()), entry, r), was.Some?)
      ensures was.Some? ==> was.value == (entry in old(bin))
    {
      if r.storeFails { return None; }
      was := Some(entry in bin);
      bin := bin - {entry};
    }

    method EmptyRecentlyDeleted(r: Reply) returns (erased: Option<nat>)
      modifies this
      ensures Committed(old(View()), Empty(old(View()), r), erased.Some?)
      ensures erased.Some? ==> erased.value == |old(bin)|
    {
      if r.storeFails { return None; }
      erased := Some(|bin|);
      bin := map[];
    }

    method PurgeRecentlyDeleted(r: Reply) returns (erased: Option<nat>)
      modifies this
      ensures Committed(old(View()), Purge(old(View()), r), erased.Some?)
      ensures erased.Some? ==> erased.value == |old(bin)| - |bin|
      ensures erased.Some? ==> forall e | e in bin :: bin[e].at >= r.now - KEPT_DAYS * DAY
    {
      if r.storeFails { return None; }
      var gone := Expired(bin, r.now);
      assert bin.Keys == (bin - gone).Keys + gone;
      assert |bin.Keys| == |bin| && |(bin - gone).Keys| == |bin - gone|;
      erased := Some(|gone|);
      bin := bin - gone;
    }
  }
}
