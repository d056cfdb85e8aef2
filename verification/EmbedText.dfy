/** Which text a row's stored vector is supposed to be the embedding of. */
module EmbedText {
  import Utf8
  import opened VaultCore
  import opened Storage
  import opened MergeLaws

  const FNV_OFFSET: nat := 0xcbf2_9ce4_8422_2325
  const FNV_PRIME: nat := 0x0000_0100_0000_01b3
  const WORD: nat := 0x1_0000_0000_0000_0000

  /** Exclusive-or of the lowest `bits` bits, the lowest first. */
  function Xor(a: nat, b: nat, bits: nat): nat {
    if bits == 0 then 0 else 2 * Xor(a / 2, b / 2, bits - 1) + (a + b) % 2
  }

  /** One byte taken into a 64-bit hash: exclusive-or into its lowest byte, then a product that wraps. */
  function FnvStep(hash: nat, b: Utf8.Byte): nat {
    (hash / 256 * 256 + Xor(hash % 256, b, 8)) * FNV_PRIME % WORD
  }

  /** FNV-1a. */
  function Fnv(bs: seq<Utf8.Byte>, hash: nat): nat
    decreases |bs|
  {
    if bs == [] then hash else Fnv(bs[1..], FnvStep(hash, bs[0]))
  }

  function ContentFingerprint(content: string): nat {
    Fnv(Utf8.Encode(content), FNV_OFFSET)
  }

  predicate EnrichedForCurrentContent(m: Memory) {
    m.metadata.enrichment.Some? && m.metadata.enrichment.value.contentFp == ContentFingerprint(m.content)
  }

  function ComposeEmbedText(content: string, aliases: string): string {
    content + " Topics: " + aliases
  }

  /** An enriched fact's vector carries its alias line; any other fact's is of the bare content. */
  function StoredEmbedText(m: Memory): string {
    if EnrichedForCurrentContent(m) then ComposeEmbedText(m.content, m.metadata.enrichment.value.aliases) else m.content
  }

  /** The vector store holds for `id` what the row says it should. */
  ghost predicate Faithful(st: Store, id: MemoryId) {
    id in st.rows && id in st.vectors && st.vectors[id] == StoredEmbedText(st.rows[id])
  }

  ghost predicate AllFaithful(st: Store) {
    forall id | id in st.rows :: Faithful(st, id)
  }

  /** The alias line always shows: an enriched fact's vector is never that of its bare content. */
  lemma AliasLineShows(m: Memory)
    ensures StoredEmbedText(m) == m.content <==> !EnrichedForCurrentContent(m)
  {
  }

  /** Nothing the sleep cycle does before enrichment can part a vector from its row. */
  lemma ExtendsKeepsFidelity(st: Store, next: Store)
    requires Extends(st, next)
    ensures forall id | id in st.rows :: Faithful(st, id) <==> Faithful(next, id)
    ensures AllFaithful(st) ==> AllFaithful(next)
  {
  }
}
