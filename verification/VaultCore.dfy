/** The vault's rows and the filters every enumeration of them goes through.

    A boundary is represented by its rank in alphabetical order and a memory id by its
    position in id order, so that both compare as the program's own keys do. Instants are
    microseconds. `embedding` is left out of a row: it is `None` in every row the metadata
    store returns, and the vector store is a map of its own. */
module VaultCore {
  import Utf8

  datatype Option<+T> = None | Some(value: T)

  type MemoryId = nat
  type Boundary = nat
  type Instant = int

  const DAY: int := 86_400_000_000
  const MAX_CONTENT: nat := 102_400

  /** The alias line a fact was enriched with and the fingerprint of the content it was made from. */
  datatype Enrichment = Enrichment(aliases: string, contentFp: nat)

  /** The two keys the program writes into a row's metadata, and everything else in it. */
  datatype Metadata = Metadata(enrichment: Option<Enrichment>, lastDecayAt: Option<Instant>, other: string)

  datatype MemoryType = Episodic | Semantic | Procedural

  datatype Memory = Memory(
    id: MemoryId,
    content: string,
    memoryType: MemoryType,
    sourceAgent: Option<string>,
    boundary: Boundary,
    createdAt: Instant,
    validFrom: Instant,
    validUntil: Option<Instant>,
    confidence: real,
    accessCount: nat,
    lastAccessed: Instant,
    supersededBy: Option<MemoryId>,
    archivedAt: Option<Instant>,
    metadata: Metadata)
  {
    /** The invariants a row must meet before it is stored. */
    predicate Validates() {
      && 0 < Utf8.ByteLen(content) <= MAX_CONTENT
      && '\0' !in content
      && 0.0 <= confidence <= 1.0
      && (validUntil.Some? ==> validFrom <= validUntil.value)
    }

    /** In default retrieval as far as the SQL filter goes: neither superseded nor archived. */
    predicate Listed() {
      supersededBy.None? && archivedAt.None?
    }

    /** Listed, and not retired by a contradiction: the consolidator's "active" fact. */
    predicate Active() {
      Listed() && validUntil.None?
    }
  }

  type Rows = map<MemoryId, Memory>

  /** Every row is filed under its own id: the primary key. */
  ghost predicate Keyed(rows: Rows) {
    forall id | id in rows :: rows[id].id == id
  }

  function ListedIds(rows: Rows): (ids: set<MemoryId>) {
    set id | id in rows && rows[id].Listed()
  }

  function ActiveIds(rows: Rows): (ids: set<MemoryId>) {
    set id | id in rows && rows[id].Active()
  }

  function ActiveIn(rows: Rows, b: Boundary): (ids: set<MemoryId>) {
    set id | id in rows && rows[id].Active() && rows[id].boundary == b
  }

  /** The `since` filter: `created_at >= since`, everything when there is no watermark. */
  predicate Since(m: Memory, since: Option<Instant>) {
    since.None? || m.createdAt >= since.value
  }

  /** The facts an incremental run re-examines in one boundary. */
  function SeedsIn(rows: Rows, b: Boundary, since: Option<Instant>): (ids: set<MemoryId>) {
    set id | id in ActiveIn(rows, b) && Since(rows[id], since)
  }

  function BoundariesOf(rows: Rows, ids: set<MemoryId>): (bs: set<Boundary>) {
    set id | id in ids && id in rows :: rows[id].boundary
  }
}
