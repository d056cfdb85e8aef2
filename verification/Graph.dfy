/** The knowledge graph derived from the facts: entities, and relationships tagged with the fact
    they came from. */
module Graph {
  import opened VaultCore

  datatype EntityType = Person | Organization | Project | Location | Concept

  datatype Entity = Entity(name: string, kind: EntityType, boundary: Boundary)

  datatype Link = Link(from: Entity, relation: string, to: Entity)

  /** A relationship row; `live` while it has no end date. Rows written before provenance was
      recorded have no source. */
  datatype Relationship = Relationship(source: Option<MemoryId>, link: Link, live: bool)

  type Rels = seq<Relationship>

  /** What one fact's extraction asks for: entities, and links between their names. */
  datatype NamedEntity = NamedEntity(name: string, kind: EntityType)
  datatype NamedLink = NamedLink(from: string, relation: string, to: string)
  datatype Extraction = Extraction(entities: seq<NamedEntity>, links: seq<NamedLink>)

  predicate LiveFrom(r: Relationship, id: MemoryId) {
    r.live && r.source == Some(id)
  }

  /** The live links a fact has, with repetitions. */
  function LiveLinks(rels: Rels, id: MemoryId): multiset<Link> {
    if rels == [] then multiset{}
    else
      var last := rels[|rels| - 1];
      LiveLinks(rels[..|rels| - 1], id) + if LiveFrom(last, id) then multiset{last.link} else multiset{}
  }

  function RetireFrom(rels: Rels, id: MemoryId): (r: Rels)
    ensures |r| == |rels|
  {
    seq(|rels|, i requires 0 <= i < |rels| => if LiveFrom(rels[i], id) then rels[i].(live := false) else rels[i])
  }

  lemma {:induction false} RetireEmpties(rels: Rels, id: MemoryId, other: MemoryId)
    ensures LiveLinks(RetireFrom(rels, id), other) == if other == id then multiset{} else LiveLinks(rels, other)
    decreases |rels|
  {
    if rels != [] {
      var init := rels[..|rels| - 1];
      assert RetireFrom(rels, id)[..|rels| - 1] == RetireFrom(init, id);
      RetireEmpties(init, id, other);
    }
  }

  /** Retiring a fact that has no live links changes nothing. */
  lemma {:induction false} RetireNothing(rels: Rels, id: MemoryId)
    ensures |LiveLinks(rels, id)| == 0 <==> RetireFrom(rels, id) == rels
    decreases |rels|
  {
    if rels != [] {
      var init, last := rels[..|rels| - 1], rels[|rels| - 1];
      RetireNothing(init, id);
      assert RetireFrom(rels, id)[..|rels| - 1] == RetireFrom(init, id);
      assert rels == init + [last];
      assert RetireFrom(rels, id)[|rels| - 1] == if LiveFrom(last, id) then last.(live := false) else last;
    }
  }

  lemma {:induction false} LiveLinksConcat(a: Rels, b: Rels, id: MemoryId)
    ensures LiveLinks(a + b, id) == LiveLinks(a, id) + LiveLinks(b, id)
    decreases |b|
  {
    if b == [] {
      assert a + b == a;
    } else {
      var init := b[..|b| - 1];
      assert (a + b)[..|a + b| - 1] == a + init;
      LiveLinksConcat(a, init, id);
    }
  }

  lemma LiveLinksCons(row: Relationship, b: Rels, id: MemoryId)
    ensures LiveLinks([row] + b, id) == LiveLinks(b, id) + if LiveFrom(row, id) then multiset{row.link} else multiset{}
  {
    LiveLinksConcat([row], b, id);
    assert [row][..0] == [];
  }

  // ---- writing an extraction ----

  /** Entities so far, and the entity each name stands for. */
  datatype Names = Names(entities: set<Entity>, known: map<string, Entity>, created: nat, reused: nat)

  /** Get-or-create in order; `None` from the first call that fails, with what was created before it
      left behind in `partial`. */
  function Register(n: Names, ents: seq<NamedEntity>, b: Boundary, key: string -> string, fails: NamedEntity -> bool): (r: (Names, bool))
    decreases |ents|
  {
    if ents == [] then (n, true)
    else if fails(ents[0]) then (n, false)
    else Register(AddName(n, ents[0], b, key), ents[1..], b, key, fails)
  }

  function AddName(n: Names, e: NamedEntity, b: Boundary, key: string -> string): Names {
    var ent := Entity(e.name, e.kind, b);
    if ent in n.entities then n.(known := n.known[key(e.name) := ent], reused := n.reused + 1)
    else Names(n.entities + {ent}, n.known[key(e.name) := ent], n.created + 1, n.reused)
  }

  predicate Resolves(known: map<string, Entity>, l: NamedLink, key: string -> string) {
    key(l.from) in known && key(l.to) in known
  }

  /** The rows an extraction's links become; a link with an unknown end, or whose write fails, is
      counted and skipped. */
  function LinkRows(known: map<string, Entity>, links: seq<NamedLink>, source: MemoryId, key: string -> string, fails: NamedLink -> bool): Rels {
    if links == [] then []
    else
      var rest := LinkRows(known, links[1..], source, key, fails);
      var l := links[0];
      if Resolves(known, l, key) && !fails(l) then
        [Relationship(Some(source), Link(known[key(l.from)], l.relation, known[key(l.to)]), true)] + rest
      else rest
  }

  /** The links an extraction stands for. */
  function MeantLinks(known: map<string, Entity>, links: seq<NamedLink>, key: string -> string): multiset<Link> {
    if links == [] then multiset{}
    else
      var l := links[0];
      MeantLinks(known, links[1..], key)
        + if Resolves(known, l, key) then multiset{Link(known[key(l.from)], l.relation, known[key(l.to)])} else multiset{}
  }

  /** The rows written are live links of their fact alone, and all those meant when no write fails. */
  lemma {:induction false} LinkRowsAreMeant(known: map<string, Entity>, links: seq<NamedLink>, source: MemoryId,
                                            key: string -> string, fails: NamedLink -> bool, other: MemoryId)
    ensures var rows := LinkRows(known, links, source, key, fails);
      && (other != source ==> LiveLinks(rows, other) == multiset{})
      && ((forall l | l in links :: !fails(l)) ==> LiveLinks(rows, source) == MeantLinks(known, links, key))
      && |rows| <= |links|
    decreases |links|
  {
    if links != [] {
      var l, rest := links[0], links[1..];
      LinkRowsAreMeant(known, rest, source, key, fails, other);
      assert l in links && forall k | k in rest :: k in links;
      if Resolves(known, l, key) && !fails(l) {
        var row := Relationship(Some(source), Link(known[key(l.from)], l.relation, known[key(l.to)]), true);
        LiveLinksCons(row, LinkRows(known, rest, source, key, fails), other);
        LiveLinksCons(row, LinkRows(known, rest, source, key, fails), source);
      }
    }
  }

  /** Each row says what its link said, between the entities its names stood for, as the link was read; and a
      link whose names are known and whose write goes through has its row. */
  lemma {:induction false} LinksPointAsNamed(known: map<string, Entity>, links: seq<NamedLink>, source: MemoryId,
                                             key: string -> string, fails: NamedLink -> bool, row: Relationship)
    ensures row in LinkRows(known, links, source, key, fails) <==> exists l ::
      && l in links && !fails(l) && key(l.from) in known && key(l.to) in known
      && row.source == Some(source) && row.live && row.link.relation == l.relation
      && row.link.from == known[key(l.from)] && row.link.to == known[key(l.to)]
    decreases |links|
  {
    if links != [] {
      LinksPointAsNamed(known, links[1..], source, key, fails, row);
      assert forall l :: l in links <==> l == links[0] || l in links[1..];
    }
  }

  /** The graph database. */
  class GraphStore {
    var entities: set<Entity>
    var rels: Rels

    constructor ()
      ensures entities == {} && rels == []
    {
      entities, rels := {}, [];
    }

    /** Ends every live relationship of a fact; `None` when the statement fails. */
    method RetireRelationships(id: MemoryId, fails: bool) returns (n: Option<nat>)
      modifies this
      ensures entities == old(entities)
      ensures fails ==> n.None? && rels == old(rels)
      ensures !fails ==> n == Some(|LiveLinks(old(rels), id)|) && rels == RetireFrom(old(rels), id)
    {
      if fails { return None; }
      var count := 0;
      var next: Rels := [];
      for i := 0 to |rels|
        invariant rels == old(rels) && entities == old(entities)
        invariant |next| == i && forall k | 0 <= k < i :: next[k] == RetireFrom(rels, id)[k]
        invariant count == |LiveLinks(rels[..i], id)|
      {
        assert rels[..i + 1][..i] == rels[..i];
        if LiveFrom(rels[i], id) {
          next, count := next + [rels[i].(live := false)], count + 1;
        } else {
          next := next + [rels[i]];
        }
      }
      assert rels[..|rels|] == rels;
      rels := next;
      n := Some(count);
    }

    /** Get-or-create for every entity of an extraction. */
    method RegisterAll(ents: seq<NamedEntity>, b: Boundary, key: string -> string, fails: NamedEntity -> bool)
      returns (n: Names, ok: bool)
      modifies this
      ensures rels == old(rels)
      ensures (n, ok) == Register(Names(old(entities), map[], 0, 0), ents, b, key, fails)
      ensures entities == n.entities
    {
      n := Names(entities, map[], 0, 0);
      for i := 0 to |ents|
        invariant rels == old(rels) && entities == n.entities
        invariant Register(Names(old(entities), map[], 0, 0), ents, b, key, fails) == Register(n, ents[i..], b, key, fails)
      {
        var e := ents[i];
        assert ents[i..][0] == e && ents[i..][1..] == ents[i + 1..];
        if fails(e) { return n, false; }
        var ent := Entity(e.name, e.kind, b);
        if ent in entities {
          n := n.(known := n.known[key(e.name) := ent], reused := n.reused + 1);
        } else {
          entities := entities + {ent};
          n := Names(entities, n.known[key(e.name) := ent], n.created + 1, n.reused);
        }
      }
      ok := true;
    }

    /** Every link of an extraction, one insert at a time. */
    method CreateRelationships(known: map<string, Entity>, links: seq<NamedLink>, source: MemoryId,
                               key: string -> string, fails: NamedLink -> bool)
      returns (created: nat, failed: nat)
      modifies this
      ensures entities == old(entities)
      ensures rels == old(rels) + LinkRows(known, links, source, key, fails)
      ensures created == |LinkRows(known, links, source, key, fails)| && created + failed == |links|
    {
      created, failed := 0, 0;
      ghost var all := LinkRows(known, links, source, key, fails);
      for i := 0 to |links|
        invariant entities == old(entities)
        invariant old(rels) + all == rels + LinkRows(known, links[i..], source, key, fails)
        invariant |all| == created + |LinkRows(known, links[i..], source, key, fails)| && created + failed == i
      {
        var l := links[i];
        assert links[i..][0] == l && links[i..][1..] == links[i + 1..];
        if key(l.from) !in known || key(l.to) !in known || fails(l) {
          failed := failed + 1;
        } else {
          rels := rels + [Relationship(Some(source), Link(known[key(l.from)], l.relation, known[key(l.to)]), true)];
          created := created + 1;
        }
      }
    }
  }
}
