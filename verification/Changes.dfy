/** What a save, an edit, a delete and a restore write, field by field, and when each is refused. */
module Changes {
  import opened VaultCore
  import opened Storage
  import opened Adapter
  import Utf8
  import Normalization

  /** The text as it is saved. */
  function Text(n: NewMemory): string
    requires Normalization.Normalize(n.content).Some?
  {
    Normalization.Normalize(n.content).value
  }

  /** The bounds on what may be stored: 1 to 102,400 bytes of text without a null character, a confidence
      from 0 to 1, and an end no earlier than the beginning. */
  ghost predicate Storable(text: string, confidence: real, validFrom: Instant, validUntil: Option<Instant>) {
    && 1 <= |Utf8.Encode(text)| <= 102_400 && (forall i | 0 <= i < |text| :: text[i] as int != 0)
    && 0.0 <= confidence && confidence <= 1.0
    && (validUntil.Some? ==> validFrom <= validUntil.value)
  }

  lemma ValidatesIff(m: Memory)
    ensures m.Validates() <==> Storable(m.content, m.confidence, m.validFrom, m.validUntil)
  {
    Utf8.EncodedLength(m.content);
  }

  lemma UnderLimitIff(bin: Bin, actor: Actor, now: Instant)
    ensures !OverLimit(bin, actor, now)
      <==> (actor == App ==> |set e | e in bin && bin[e].actor == App && now - bin[e].at < 3_600_000_000| < 30)
  {
    assert AppChanges(bin, now) == set e | e in bin && bin[e].actor == App && now - bin[e].at < 3_600_000_000;
  }

  /** Only blank texts, texts and times out of bounds, and failing calls keep a save out. */
  lemma SaveAcceptedIff(v: Vault, n: NewMemory, r: Reply)
    ensures Save(v, n, r).Some? <==>
      && Normalization.Trim(n.content) != ""
      && Storable(Text(n), n.confidence, if n.validFrom.Some? then n.validFrom.value else r.now, n.validUntil)
      && !r.embedFails && !r.storeFails && r.newId !in v.st.rows
  {
    if Normalization.Normalize(n.content).Some? { ValidatesIff(Candidate(r.newId, n, Text(n), r.now)); }
  }

  /** A save adds one row that says what it was given, true from when it says or from now on, never used, and
      its vector; nothing else changes but the index. */
  lemma SaveWrites(v: Vault, n: NewMemory, r: Reply, next: Vault)
    requires Save(v, n, r) == Some(next)
    ensures Normalization.Normalize(n.content).Some? && r.newId !in v.st.rows && next.st.rows.Keys == v.st.rows.Keys + {r.newId}
    ensures var m := next.st.rows[r.newId];
      && m.id == r.newId && m.content == Text(n)
      && m.memoryType == n.memoryType && m.sourceAgent == n.sourceAgent && m.boundary == n.boundary
      && m.createdAt == r.now && m.lastAccessed == r.now && m.accessCount == 0
      && m.validFrom == (if n.validFrom.Some? then n.validFrom.value else r.now) && m.validUntil == n.validUntil
      && m.confidence == n.confidence && m.metadata == n.metadata
      && m.supersededBy == None && m.archivedAt == None
    ensures forall id | id in v.st.rows :: next.st.rows[id] == v.st.rows[id]
    ensures next.st.vectors == v.st.vectors[r.newId := Text(n)] && next.bin == v.bin
  {
  }

  /** An edit replaces what a memory says, its kind, its boundary and its confidence; whose it is, when it was
      saved and is true, how often it was used, what supersedes it and what the program keeps in its metadata
      stay; it was used now, and is out of the archive. What it said goes to Recently deleted. */
  lemma EditWrites(v: Vault, id: MemoryId, n: NewMemory, actor: Actor, r: Reply, next: Vault)
    requires Edit(v, id, n, actor, r) == Some(next)
    ensures Normalization.Normalize(n.content).Some? && id in v.st.rows && next.st.rows.Keys == v.st.rows.Keys
    ensures var was, m := v.st.rows[id], next.st.rows[id];
      && m.id == id && m.content == Text(n)
      && m.memoryType == n.memoryType && m.boundary == n.boundary && m.confidence == n.confidence
      && m.sourceAgent == was.sourceAgent && m.createdAt == was.createdAt
      && m.validFrom == was.validFrom && m.validUntil == was.validUntil && m.accessCount == was.accessCount
      && m.supersededBy == was.supersededBy && m.metadata == was.metadata
      && m.lastAccessed == r.now && m.archivedAt == None
    ensures forall k | k in v.st.rows && k != id :: next.st.rows[k] == v.st.rows[k]
    ensures next.st.vectors == v.st.vectors[id := Text(n)]
    ensures r.newEntry !in v.bin && next.bin == v.bin[r.newEntry := BinEntry(WasReplaced, actor, r.now, v.st.rows[id])]
  {
  }

  /** What keeps an edit out: a blank text, no such memory, bounds that what is given or what is kept does not
      meet, an app at its thirty changes of the last hour, and failing calls. */
  lemma EditAcceptedIff(v: Vault, id: MemoryId, n: NewMemory, actor: Actor, r: Reply)
    requires r.newEntry !in v.bin
    ensures Edit(v, id, n, actor, r).Some? <==>
      && Normalization.Trim(n.content) != "" && id in v.st.rows
      && Storable(Text(n), n.confidence, if n.validFrom.Some? then n.validFrom.value else r.now, n.validUntil)
      && Storable(Text(n), n.confidence, v.st.rows[id].validFrom, v.st.rows[id].validUntil)
      && !r.embedFails && !r.storeFails
      && (actor == App ==> |set e | e in v.bin && v.bin[e].actor == App && r.now - v.bin[e].at < 3_600_000_000| < 30)
  {
    if Normalization.Normalize(n.content).Some? && id in v.st.rows {
      var c := Candidate(id, n, Text(n), r.now);
      ValidatesIff(c);
      ValidatesIff(Patched(c, v.st.rows[id]));
      UnderLimitIff(v.bin, actor, r.now);
    }
  }

  /** A delete takes the row and its vector away and keeps the row in Recently deleted under who did it and
      when. One of a memory that is not there changes nothing but the index, whoever asks. */
  lemma RemoveWrites(v: Vault, id: MemoryId, actor: Actor, r: Reply, next: Vault)
    requires Remove(v, id, actor, r) == Some(next)
    ensures id !in next.st.rows && next.st.rows == v.st.rows - {id}
    ensures id in v.st.rows ==>
      && next.st.vectors == v.st.vectors - {id}
      && r.newEntry !in v.bin && next.bin == v.bin[r.newEntry := BinEntry(WasDeleted, actor, r.now, v.st.rows[id])]
    ensures id !in v.st.rows ==> next.st == v.st && next.bin == v.bin
  {
  }

  lemma RemoveAcceptedIff(v: Vault, id: MemoryId, actor: Actor, r: Reply)
    requires r.newEntry !in v.bin
    ensures Remove(v, id, actor, r).Some? <==>
      && !r.storeFails
      && (id in v.st.rows && actor == App ==> |set e | e in v.bin && v.bin[e].actor == App && r.now - v.bin[e].at < 3_600_000_000| < 30)
  {
    UnderLimitIff(v.bin, actor, r.now);
  }

  /** A restore takes one entry out and puts its row back as it was, with a vector of its bare wording; a row
      that was there in its place goes to Recently deleted as replaced by the owner. */
  lemma RestoreWrites(v: Vault, entry: nat, r: Reply, next: Vault)
    requires Restore(v, entry, r) == Some(next)
    ensures entry in v.bin
    ensures var m := v.bin[entry].memory;
      && next.st.rows == v.st.rows[m.id := m] && next.st.vectors == v.st.vectors[m.id := m.content]
      && next.bin == if m.id in v.st.rows
                     then (v.bin - {entry})[r.newEntry := BinEntry(WasReplaced, User, r.now, v.st.rows[m.id])]
                     else v.bin - {entry}
  {
  }

  /** It is refused only when the entry is gone or thirty days old, its row is out of bounds, or a call fails. */
  lemma RestoreAcceptedIff(v: Vault, entry: nat, r: Reply)
    requires r.newEntry !in v.bin
    ensures Restore(v, entry, r).Some? <==>
      && entry in v.bin && r.now - v.bin[entry].at <= 2_592_000_000_000 && !r.embedFails && !r.storeFails
      && var m := v.bin[entry].memory; Storable(m.content, m.confidence, m.validFrom, m.validUntil)
  {
    if entry in v.bin { ValidatesIff(v.bin[entry].memory); }
  }

  /** A purge erases exactly the entries older than thirty days, and so does nothing to what can be restored. */
  lemma PurgeErases(v: Vault, r: Reply, next: Vault)
    requires Purge(v, r) == Some(next)
    ensures next.st == v.st && next.index == v.index
    ensures forall e :: e in next.bin <==> e in v.bin && r.now - v.bin[e].at <= 2_592_000_000_000
    ensures forall e | e in next.bin :: next.bin[e] == v.bin[e]
  {
  }
}
