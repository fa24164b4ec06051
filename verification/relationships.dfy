/**
 * The per-drawing state ExcelPicture works against: the drawing part's
 * relationship list and the drawing's `_hashes` dictionary, which maps the
 * hash of an image's encoded bytes to the id of the Internal image
 * relationship already created for it.
 *
 * Relationship ids are modelled as numbers handed out by a counter, so a new
 * relationship's id is always fresh; the package layer that really creates
 * them is not part of this model.
 */
module Relationships {
  import opened Options

  type Hash = string
  type Uri = string
  type RelId = nat

  datatype TargetMode = Internal | External
  /** The relationship types used here: `<schemaRelationships>/image` and `schemaHyperlink`. */
  datatype RelKind = ImageRel | HyperlinkRel

  datatype Relationship = Relationship(id: RelId, target: Uri, mode: TargetMode, kind: RelKind)

  /** The drawing's relationship list, its dedup dictionary and the next unused id. */
  datatype Store = Store(hashes: map<Hash, RelId>, rels: seq<Relationship>, nextId: RelId)

  /** `id` names an Internal image relationship of `rels`. */
  ghost predicate IsImageRel(rels: seq<Relationship>, id: RelId)
  {
    exists i :: 0 <= i < |rels| && rels[i].id == id && rels[i].mode == Internal && rels[i].kind == ImageRel
  }

  /** The ids of a relationship list. */
  function Ids(rels: seq<Relationship>): (s: set<RelId>)
    ensures forall i :: 0 <= i < |rels| ==> rels[i].id in s
    ensures forall id :: id in s ==> exists i :: 0 <= i < |rels| && rels[i].id == id
  {
    set r | r in rels :: r.id
  }

  /** No two relationships share an id. */
  ghost predicate DistinctIds(rels: seq<Relationship>)
  {
    forall i, j :: 0 <= i < j < |rels| ==> rels[i].id != rels[j].id
  }

  /** Distinct hashes are bound to distinct relationships. */
  ghost predicate Injective(hashes: map<Hash, RelId>)
  {
    forall h1, h2 :: h1 in hashes && h2 in hashes && h1 != h2 ==> hashes[h1] != hashes[h2]
  }

  /**
   * The store's invariant: ids are distinct and below the counter, and every
   * dedup entry names an Internal image relationship that no other entry names.
   */
  ghost predicate StoreValid(st: Store)
  {
    && DistinctIds(st.rels)
    && (forall i :: 0 <= i < |st.rels| ==> st.rels[i].id < st.nextId)
    && (forall h :: h in st.hashes ==> IsImageRel(st.rels, st.hashes[h]))
    && Injective(st.hashes)
  }

  /** `CreateRelationship`: append a relationship with a fresh id. */
  function Create(st: Store, target: Uri, mode: TargetMode, kind: RelKind): (r: (Store, Relationship))
    ensures r.1 == Relationship(st.nextId, target, mode, kind)
    ensures r.0 == Store(st.hashes, st.rels + [r.1], st.nextId + 1)
  {
    var rel := Relationship(st.nextId, target, mode, kind);
    (Store(st.hashes, st.rels + [rel], st.nextId + 1), rel)
  }

  /** A created relationship has an id no existing relationship has, and the store stays valid. */
  lemma CreateFresh(st: Store, target: Uri, mode: TargetMode, kind: RelKind)
    requires StoreValid(st)
    ensures Create(st, target, mode, kind).1.id !in Ids(st.rels)
    ensures StoreValid(Create(st, target, mode, kind).0)
  {
    var (st', rel) := Create(st, target, mode, kind);
    forall h | h in st'.hashes ensures IsImageRel(st'.rels, st'.hashes[h]) {
      var i :| 0 <= i < |st.rels| && st.rels[i].id == st.hashes[h] && st.rels[i].mode == Internal && st.rels[i].kind == ImageRel;
      assert st'.rels[i] == st.rels[i];
    }
  }

  /** `GetRelationship`: the relationship with a given id, if any. */
  function Find(rels: seq<Relationship>, id: RelId): (r: Option<Relationship>)
    ensures r.Some? ==> r.value in rels && r.value.id == id
    ensures r.None? ==> id !in Ids(rels)
  {
    if rels == [] then None
    else if rels[0].id == id then Some(rels[0])
    else Find(rels[1..], id)
  }

  /** In a list with distinct ids, Find returns the relationship at the id's position. */
  lemma {:induction false} FindAt(rels: seq<Relationship>, i: nat)
    requires DistinctIds(rels) && i < |rels|
    ensures Find(rels, rels[i].id) == Some(rels[i])
  {
    if i > 0 {
      assert rels[0].id != rels[i].id;
      assert rels[1..][i - 1] == rels[i];
      FindAt(rels[1..], i - 1);
    }
  }

  /** Every id the dedup dictionary holds resolves to an Internal image relationship. */
  lemma FindStored(st: Store, h: Hash)
    requires StoreValid(st) && h in st.hashes
    ensures Find(st.rels, st.hashes[h]).Some?
    ensures Find(st.rels, st.hashes[h]).value.mode == Internal
    ensures Find(st.rels, st.hashes[h]).value.kind == ImageRel
  {
    var i :| 0 <= i < |st.rels| && st.rels[i].id == st.hashes[h] && st.rels[i].mode == Internal && st.rels[i].kind == ImageRel;
    FindAt(st.rels, i);
  }

  /**
   * The hit/miss rule of SavePicture and of the file constructor: a known hash
   * gives back its stored id and changes nothing; an unknown hash creates one
   * Internal image relationship to `uri` and records `hash -> its id`.
   */
  function Dedup(st: Store, hash: Hash, uri: Uri): (r: (Store, RelId))
    ensures hash in r.0.hashes && r.0.hashes[hash] == r.1
    ensures hash in st.hashes ==> r == (st, st.hashes[hash])
    ensures hash !in st.hashes ==>
              && r.0.rels == st.rels + [Relationship(r.1, uri, Internal, ImageRel)]
              && r.0.hashes == st.hashes[hash := r.1]
              && r.0.nextId == r.1 + 1
  {
    if hash in st.hashes then (st, st.hashes[hash])
    else
      var (st1, rel) := Create(st, uri, Internal, ImageRel);
      (st1.(hashes := st1.hashes[hash := rel.id]), rel.id)
  }

  /** The dedup rule keeps the store valid; on a miss the id is new to the store. */
  lemma DedupValid(st: Store, hash: Hash, uri: Uri)
    requires StoreValid(st)
    ensures StoreValid(Dedup(st, hash, uri).0)
    ensures hash !in st.hashes ==>
              Dedup(st, hash, uri).1 !in Ids(st.rels) &&
              Dedup(st, hash, uri).1 !in st.hashes.Values
  {
    if hash !in st.hashes {
      CreateFresh(st, uri, Internal, ImageRel);
      var (st1, rel) := Create(st, uri, Internal, ImageRel);
      var st' := Dedup(st, hash, uri).0;
      assert IsImageRel(st'.rels, rel.id) by {
        assert st'.rels[|st.rels|] == rel;
      }
      forall h | h in st.hashes ensures st.hashes[h] != rel.id {
        var i :| 0 <= i < |st.rels| && st.rels[i].id == st.hashes[h] && st.rels[i].mode == Internal && st.rels[i].kind == ImageRel;
      }
    }
  }

  /** No existing entry of the dedup dictionary is changed or dropped. */
  lemma DedupKeepsEntries(st: Store, hash: Hash, uri: Uri, h: Hash)
    requires h in st.hashes
    ensures h in Dedup(st, hash, uri).0.hashes
    ensures Dedup(st, hash, uri).0.hashes[h] == st.hashes[h]
  {
  }

  /**
   * Inserting the same content again (whatever uri the package offers for it)
   * reuses the first relationship and leaves the store exactly as it was.
   */
  lemma DedupIdempotent(st: Store, hash: Hash, uri1: Uri, uri2: Uri)
    ensures var (st1, id1) := Dedup(st, hash, uri1);
            Dedup(st1, hash, uri2) == (st1, id1)
  {
  }

  /** Different contents inserted one after the other get different relationships. */
  lemma DedupSeparatesContents(st: Store, h1: Hash, u1: Uri, h2: Hash, u2: Uri)
    requires StoreValid(st) && h1 != h2
    ensures var (st1, id1) := Dedup(st, h1, u1);
            Dedup(st1, h2, u2).1 != id1
  {
    DedupValid(st, h1, u1);
    var (st1, id1) := Dedup(st, h1, u1);
    DedupValid(st1, h2, u2);
  }

  /** The drawing (ExcelDrawings) part of the state: relationships and `_hashes`. */
  class Drawings {
    var hashes: map<Hash, RelId>
    var rels: seq<Relationship>
    var nextId: RelId

    function State(): Store
      reads this
    {
      Store(hashes, rels, nextId)
    }

    ghost predicate Valid()
      reads this
    {
      StoreValid(State())
    }

    /** A drawing over a part that already has `existing` relationships and an empty `_hashes`. */
    constructor (existing: seq<Relationship>)
      requires DistinctIds(existing)
      ensures Valid()
      ensures hashes == map[] && rels == existing
    {
      hashes := map[];
      rels := existing;
      nextId := NextFreeId(existing);
    }

    /**
     * `Part.CreateRelationship`: append one relationship with the next id
     * (CreateFresh: on a valid store that id is new and the store stays valid).
     */
    method CreateRelationship(target: Uri, mode: TargetMode, kind: RelKind) returns (rel: Relationship)
      modifies this`rels, this`nextId
      ensures (State(), rel) == Create(old(State()), target, mode, kind)
    {
      rel := Relationship(nextId, target, mode, kind);
      rels := rels + [rel];
      nextId := nextId + 1;
    }
  }

  /** An id above every id of `rels`: where the counter of a loaded drawing starts. */
  function NextFreeId(rels: seq<Relationship>): (n: RelId)
    ensures forall i :: 0 <= i < |rels| ==> rels[i].id < n
  {
    if rels == [] then 1
    else
      var rest := NextFreeId(rels[1..]);
      assert forall i :: 1 <= i < |rels| ==> rels[i] == rels[1..][i - 1];
      if rels[0].id < rest then rest else rels[0].id + 1
  }
}
