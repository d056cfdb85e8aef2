/** The storage primitives the sleep cycle uses, on the metadata rows and on the vector store.

    A vector is represented by the text it is the embedding of (the embedder is
    deterministic). The queue between SQLite and the vector store is taken as drained.
    Each primitive is one transaction; `fails` says whether the database refuses it. `None` is
    an error, after which nothing has changed. */
module Storage {
  import opened VaultCore
  import opened SortedIds

  /** `vectors[id]` is the text whose embedding the vector store holds for `id`. */
  datatype Store = Store(rows: Rows, vectors: map<MemoryId, string>)

  function Relink(m: Memory, heir: MemoryId): Memory {
    m.(supersededBy := Some(heir))
  }

  /** `mark_superseded`: overwrites whatever link the row had, validates nothing. */
  function Marked(st: Store, id: MemoryId, heir: MemoryId, fails: bool): Option<Store> {
    if fails || id !in st.rows then None
    else Some(st.(rows := st.rows[id := Relink(st.rows[id], heir)]))
  }

  /** `invalidate`: the row stopped being true at `at`; latest call wins. */
  function Invalidated(st: Store, id: MemoryId, at: Instant, fails: bool): Option<Store> {
    if fails || id !in st.rows || at < st.rows[id].validFrom then None
    else
      var m := st.rows[id].(validUntil := Some(at));
      if m.Validates() then Some(st.(rows := st.rows[id := m])) else None
  }

  /** `write_memory`: an insert; the id is the primary key. */
  function Written(st: Store, m: Memory, embedded: string, fails: bool): Option<Store> {
    if fails || !m.Validates() || m.id in st.rows then None
    else Some(Store(st.rows[m.id := m], st.vectors[m.id := embedded]))
  }

  /** `update_memory`: rewrites an existing row and its vector. */
  function Updated(st: Store, m: Memory, embedded: string, fails: bool): Option<Store> {
    if fails || !m.Validates() || m.id !in st.rows then None
    else Some(Store(st.rows[m.id := m], st.vectors[m.id := embedded]))
  }

  /** `delete_memory`: removes the row and its vector; a missing id is a quiet success. */
  function Deleted(st: Store, id: MemoryId, fails: bool): Option<Store> {
    if fails then None else Some(Store(st.rows - {id}, if id in st.rows then st.vectors - {id} else st.vectors))
  }

  /** The rows a dedup leaves: every loser points at the survivor, which takes the aggregates. */
  function DedupRows(rows: Rows, survivor: MemoryId, losers: set<MemoryId>, access: nat, confidence: real): Rows {
    map id | id in rows ::
      if id in losers then Relink(rows[id], survivor)
      else if id == survivor then rows[id].(accessCount := access, confidence := confidence)
      else rows[id]
  }

  /** `apply_dedup`: all or nothing. */
  function Deduped(st: Store, survivor: MemoryId, losers: seq<MemoryId>, access: nat, confidence: real, fails: bool): Option<Store> {
    if fails || losers == [] || survivor in losers then None
    else if survivor !in st.rows || !(SetOf(losers) <= st.rows.Keys) then None
    else if !st.rows[survivor].(accessCount := access, confidence := confidence).Validates() then None
    else Some(st.(rows := DedupRows(st.rows, survivor, SetOf(losers), access, confidence)))
  }

  /** `apply_decay`: confidence and metadata only. */
  function Decayed(st: Store, id: MemoryId, confidence: real, metadata: Metadata, fails: bool): Option<Store> {
    if fails || id !in st.rows then None
    else
      var m := st.rows[id].(confidence := confidence, metadata := metadata);
      if m.Validates() then Some(st.(rows := st.rows[id := m])) else None
  }

  /** `apply_archive`: sets the marker. */
  function Archived(st: Store, id: MemoryId, at: Instant, fails: bool): Option<Store> {
    if fails || id !in st.rows then None
    else
      var m := st.rows[id].(archivedAt := Some(at));
      if m.Validates() then Some(st.(rows := st.rows[id := m])) else None
  }

  /** The open vault. Every method commits or leaves everything as it was. */
  class StorageBackend {
    var rows: Rows
    var vectors: map<MemoryId, string>

    constructor (initial: Store)
      ensures View() == initial
    {
      rows, vectors := initial.rows, initial.vectors;
    }

    function View(): Store
      reads this
    {
      Store(rows, vectors)
    }

    ghost predicate Committed(before: Store, change: Option<Store>, ok: bool)
      reads this
    {
      ok == change.Some? && View() == if ok then change.value else before
    }

    method MarkSuperseded(id: MemoryId, heir: MemoryId, fails: bool) returns (ok: bool)
      modifies this
      ensures Committed(old(View()), Marked(old(View()), id, heir, fails), ok)
    {
      if fails || id !in rows { return false; }
      rows := rows[id := Relink(rows[id], heir)];
      ok := true;
    }

    method Invalidate(id: MemoryId, at: Instant, fails: bool) returns (ok: bool)
      modifies this
      ensures Committed(old(View()), Invalidated(old(View()), id, at, fails), ok)
    {
      if fails || id !in rows { return false; }
      if at < rows[id].validFrom { return false; }
      var m := rows[id].(validUntil := Some(at));
      if !m.Validates() { return false; }
      rows := rows[id := m];
      ok := true;
    }

    method WriteMemory(m: Memory, embedded: string, fails: bool) returns (ok: bool)
      modifies this
      ensures Committed(old(View()), Written(old(View()), m, embedded, fails), ok)
    {
      if !m.Validates() { return false; }
      if fails || m.id in rows { return false; }
      rows, vectors := rows[m.id := m], vectors[m.id := embedded];
      ok := true;
    }

    method UpdateMemory(m: Memory, embedded: string, fails: bool) returns (ok: bool)
      modifies this
      ensures Committed(old(View()), Updated(old(View()), m, embedded, fails), ok)
    {
      if !m.Validates() { return false; }
      if fails || m.id !in rows { return false; }
      rows, vectors := rows[m.id := m], vectors[m.id := embedded];
      ok := true;
    }

    method DeleteMemory(id: MemoryId, fails: bool) returns (ok: bool)
      modifies this
      ensures Committed(old(View()), Deleted(old(View()), id, fails), ok)
    {
      if fails { return false; }
      if id in rows { vectors := vectors - {id}; }
      rows := rows - {id};
      ok := true;
    }

    /** The transaction works on a copy; only its commit is seen. */
    method ApplyDedup(survivor: MemoryId, losers: seq<MemoryId>, access: nat, confidence: real, fails: bool)
      returns (ok: bool)
      modifies this
      ensures Committed(old(View()), Deduped(old(View()), survivor, losers, access, confidence, fails), ok)
    {
      if losers == [] || survivor in losers { return false; }
      var tx := rows;
      for i := 0 to |losers|
        invariant forall id | id in losers[..i] :: id in rows
        invariant tx.Keys == rows.Keys
        invariant forall id | id in rows :: tx[id] == if id in losers[..i] then Relink(rows[id], survivor) else rows[id]
        invariant View() == old(View())
      {
        if losers[i] !in tx { return false; }
        tx := tx[losers[i] := Relink(tx[losers[i]], survivor)];
        assert losers[..i + 1] == losers[..i] + [losers[i]];
      }
      assert losers[..|losers|] == losers;
      if survivor !in tx { return false; }
      var m := tx[survivor].(accessCount := access, confidence := confidence);
      if !m.Validates() || fails { return false; }
      rows := tx[survivor := m];
      assert rows == DedupRows(old(rows), survivor, SetOf(losers), access, confidence);
      ok := true;
    }

    method ApplyDecay(id: MemoryId, confidence: real, metadata: Metadata, fails: bool) returns (ok: bool)
      modifies this
      ensures Committed(old(View()), Decayed(old(View()), id, confidence, metadata, fails), ok)
    {
      if fails || id !in rows { return false; }
      var m := rows[id].(confidence := confidence, metadata := metadata);
      if !m.Validates() { return false; }
      rows := rows[id := m];
      ok := true;
    }

    method ApplyArchive(id: MemoryId, at: Instant, fails: bool) returns (ok: bool)
      modifies this
      ensures Committed(old(View()), Archived(old(View()), id, at, fails), ok)
    {
      if fails || id !in rows { return false; }
      var m := rows[id].(archivedAt := Some(at));
      if !m.Validates() { return false; }
      rows := rows[id := m];
      ok := true;
    }
  }
}
