/** What `upsert` does to the scalar store and the three indexes, what replaying the log does, and what the log says. */
module Durability {
  import opened Documents
  import opened IntFieldFilter
  import opened LogStore

  type Wal = seq<WalRecord<Doc>>

  /** The FLAT index is a list: adding never looks for an earlier vector of the same id. */
  type FlatIndex = seq<(nat, Vector)>

  datatype Indexes = Indexes(flat: FlatIndex, hnsw: map<nat, Vector>, filter: Filter)

  datatype Store = Store(scalar: map<nat, Doc>, indexes: Indexes)

  const EMPTY := Indexes([], map[], map[])

  // ---------------------------------------------------------------------------------------------
  // Upsert
  // ---------------------------------------------------------------------------------------------

  function RemoveId(flat: FlatIndex, id: nat): FlatIndex {
    if flat == [] then [] else
      RemoveId(flat[..|flat| - 1], id) + if flat[|flat| - 1].0 == id then [] else [flat[|flat| - 1]]
  }

  /** The removal step, chosen by the type of the new document. */
  function Cleared(flat: FlatIndex, existing: Option<Doc>, d: Doc): FlatIndex {
    if d.indexType == FLAT && existing.Some? then RemoveId(flat, d.id) else flat
  }

  /** The insertion step. */
  function Inserted(flat: FlatIndex, d: Doc): FlatIndex {
    if d.indexType == FLAT then flat + [(d.id, d.vector)] else flat
  }

  function FlatAfter(flat: FlatIndex, existing: Option<Doc>, d: Doc): FlatIndex {
    Inserted(Cleared(flat, existing, d), d)
  }

  function HnswAfter(hnsw: map<nat, Vector>, d: Doc): map<nat, Vector> {
    if d.indexType != HNSW then hnsw else hnsw[d.id := d.vector]
  }

  /** Everything `upsert` does before it writes the scalar store. */
  function UpsertIndexes(ix: Indexes, existing: Option<Doc>, d: Doc): Indexes
    requires !Aborts(existing, d)
  {
    Indexes(FlatAfter(ix.flat, existing, d), HnswAfter(ix.hnsw, d), Reindexed(ix.filter, existing, d))
  }

  /** `None` when an assertion aborts the process half way; nothing durable has changed then. */
  function Upsert(s: Store, d: Doc): Option<Store> {
    var existing := At(s.scalar, d.id);
    if Aborts(existing, d) then None
    else Some(Store(s.scalar[d.id := d], UpsertIndexes(s.indexes, existing, d)))
  }

  /** When an upsert aborts: the stored document lacks a 32-bit integer field, other than the id, of the new one. */
  lemma UpsertAbortsIff(s: Store, d: Doc)
    ensures Upsert(s, d).None? <==>
            d.id in s.scalar && exists f :: f in d.ints && f != "id" && -2147483648 <= d.ints[f] <= 2147483647
                                            && f !in s.scalar[d.id].ints
  {
    assert forall f :: f in IntFields(d) <==> f in d.ints && f != "id" && -2147483648 <= d.ints[f] <= 2147483647;
  }

  /**
   * What a finished upsert does to every bit of the filter: the document's own comes where its 32-bit values other
   * than the id are, and goes from the values they replace. Nothing else moves.
   */
  lemma UpsertedBits(s: Store, d: Doc, f: string, v: int, b: nat)
    requires Upsert(s, d).Some?
    ensures b in Bits(Upsert(s, d).value.indexes.filter, f, v) <==>
              || (b == d.id % 4294967296 && f in d.ints && f != "id" && d.ints[f] == v && -2147483648 <= v <= 2147483647)
              || (b in Bits(s.indexes.filter, f, v)
                  && !(b == d.id % 4294967296 && f in d.ints && f != "id" && -2147483648 <= d.ints[f] <= 2147483647
                       && d.id in s.scalar && f in s.scalar[d.id].ints && s.scalar[d.id].ints[f] == v))
  {
    ReindexedBits(s.indexes.filter, At(s.scalar, d.id), d, f, v, b);
  }

  /** Replays the records of `w` from position `p` on, skipping those the snapshot claims to contain. */
  function Replay(w: Wal, p: nat, lastSnapshotID: nat, s: Store): Option<Store>
    requires p <= |w|
    decreases |w| - p
  {
    if p == |w| then Some(s)
    else if w[p].id <= lastSnapshotID then Replay(w, p + 1, lastSnapshotID, s)
    else
      match Upsert(s, w[p].payload)
      case None => None
      case Some(s') => Replay(w, p + 1, lastSnapshotID, s')
  }

  // ---------------------------------------------------------------------------------------------
  // The id counter
  // ---------------------------------------------------------------------------------------------

  const FIRST_ID: nat := 10

  /** The highest id in the log, at least the initial one: what reading the whole log leaves in `increaseID_`. */
  function Highest(w: Wal): (h: nat)
    ensures h >= FIRST_ID && forall j :: 0 <= j < |w| ==> w[j].id <= h
  {
    if w == [] then FIRST_ID else Max(Highest(w[..|w| - 1]), w[|w| - 1].id)
  }

  lemma HighestAppend(w: Wal, r: WalRecord<Doc>)
    ensures Highest(w + [r]) == Max(Highest(w), r.id)
  {
    assert (w + [r])[..|w|] == w;
  }

  lemma HighestUpTo(w: Wal, p: nat)
    requires p < |w|
    ensures Highest(w[..p + 1]) == Max(Highest(w[..p]), w[p].id)
  {
    assert w[..p + 1] == w[..p] + [w[p]];
    HighestAppend(w[..p], w[p]);
  }

  // ---------------------------------------------------------------------------------------------
  // What the log says
  // ---------------------------------------------------------------------------------------------

  datatype Kind = Any | Only(indexType: IndexType)

  predicate Matches(d: Doc, id: nat, kind: Kind) {
    d.id == id && (kind.Any? || kind.indexType == d.indexType)
  }

  /** The last upsert of `id`, of any type or of one index type. */
  function Last(w: Wal, id: nat, kind: Kind): Option<Doc> {
    if w == [] then None
    else if Matches(w[|w| - 1].payload, id, kind) then Some(w[|w| - 1].payload)
    else Last(w[..|w| - 1], id, kind)
  }

  lemma {:induction false} LastOfConcat(a: Wal, b: Wal, id: nat, kind: Kind)
    ensures Last(a + b, id, kind) == if Last(b, id, kind).Some? then Last(b, id, kind) else Last(a, id, kind)
    decreases |b|
  {
    if b == [] {
      assert a + b == a;
    } else {
      assert (a + b)[..|a + b| - 1] == a + b[..|b| - 1];
      LastOfConcat(a, b[..|b| - 1], id, kind);
    }
  }

  /** The last upsert of an id, of any type or of one: no later record has that id, and that type if one is asked for. */
  lemma {:induction false} LastIsLatest(w: Wal, id: nat, kind: Kind, j: nat)
    requires j < |w| && w[j].payload.id == id && (kind == Any || kind == Only(w[j].payload.indexType))
    requires forall i :: j < i < |w| ==> w[i].payload.id != id || (kind != Any && kind != Only(w[i].payload.indexType))
    ensures Last(w, id, kind) == Some(w[j].payload)
    decreases |w|
  {
    if j < |w| - 1 {
      LastIsLatest(w[..|w| - 1], id, kind, j);
    }
  }

  lemma LastFromEarlier(w: Wal, q: nat, p: nat, id: nat, kind: Kind)
    requires q <= p <= |w|
    requires Last(w[q..], id, kind).None?
    ensures Last(w[p..], id, kind).None?
  {
    assert w[q..] == w[q..p] + w[p..];
    LastOfConcat(w[q..p], w[p..], id, kind);
  }

  /** Splits off the record at `p`: either it is the last match, or it does not matter. */
  lemma LastAt(w: Wal, p: nat, id: nat, kind: Kind)
    requires p < |w|
    requires Last(w[p + 1..], id, kind).None?
    ensures Last(w[p..], id, kind).None? <==> !Matches(w[p].payload, id, kind)
    ensures Matches(w[p].payload, id, kind) ==> Last(w, id, kind) == Some(w[p].payload)
  {
    assert w[p..] == [w[p]] + w[p + 1..] && w == w[..p] + w[p..];
    LastOfConcat([w[p]], w[p + 1..], id, kind);
    LastOfConcat(w[..p], w[p..], id, kind);
    assert [w[p]][..0] == [];
  }

  lemma {:induction false} LastIsSome(w: Wal, j: nat, id: nat, kind: Kind)
    requires j < |w| && Matches(w[j].payload, id, kind)
    ensures Last(w, id, kind).Some?
    decreases |w|
  {
    if j < |w| - 1 {
      LastIsSome(w[..|w| - 1], j, id, kind);
    }
  }

  lemma {:induction false} LastIsThere(w: Wal, id: nat, kind: Kind)
    requires Last(w, id, kind).Some?
    ensures Matches(Last(w, id, kind).value, id, kind)
    ensures exists j :: 0 <= j < |w| && w[j].payload == Last(w, id, kind).value
  {
    if !Matches(w[|w| - 1].payload, id, kind) {
      LastIsThere(w[..|w| - 1], id, kind);
      var j :| 0 <= j < |w| - 1 && w[..|w| - 1][j].payload == Last(w, id, kind).value;
      assert w[j].payload == Last(w, id, kind).value;
    }
  }

  // ---------------------------------------------------------------------------------------------
  // Vectors of an id in the FLAT list
  // ---------------------------------------------------------------------------------------------

  function VectorsOf(flat: FlatIndex, id: nat): seq<Vector> {
    if flat == [] then [] else
      VectorsOf(flat[..|flat| - 1], id) + if flat[|flat| - 1].0 == id then [flat[|flat| - 1].1] else []
  }

  lemma VectorsOfSnoc(flat: FlatIndex, e: (nat, Vector), id: nat)
    ensures VectorsOf(flat + [e], id) == VectorsOf(flat, id) + if e.0 == id then [e.1] else []
  {
    assert (flat + [e])[..|flat|] == flat;
  }

  lemma {:induction false} VectorsAfterRemove(flat: FlatIndex, gone: nat, id: nat)
    ensures VectorsOf(RemoveId(flat, gone), id) == if id == gone then [] else VectorsOf(flat, id)
    decreases |flat|
  {
    if flat != [] {
      var front, e := flat[..|flat| - 1], flat[|flat| - 1];
      VectorsAfterRemove(front, gone, id);
      if e.0 == gone {
        assert RemoveId(flat, gone) == RemoveId(front, gone);
      } else {
        VectorsOfSnoc(RemoveId(front, gone), e, id);
      }
    }
  }

  lemma VectorsAfterUpsert(flat: FlatIndex, existing: Option<Doc>, d: Doc, id: nat)
    requires existing.None? ==> VectorsOf(flat, d.id) == []
    ensures VectorsOf(FlatAfter(flat, existing, d), id)
         == if d.indexType == FLAT && id == d.id then [d.vector] else VectorsOf(flat, id)
  {
    if d.indexType == FLAT {
      var cleared := if existing.Some? then RemoveId(flat, d.id) else flat;
      VectorsOfSnoc(cleared, (d.id, d.vector), id);
      VectorsAfterRemove(flat, d.id, id);
    }
  }

  lemma VectorsAfterAnyUpsert(flat: FlatIndex, existing: Option<Doc>, d: Doc, id: nat)
    ensures VectorsOf(FlatAfter(flat, existing, d), id)
         == if d.indexType != FLAT || id != d.id then VectorsOf(flat, id)
            else (if existing.Some? then [] else VectorsOf(flat, id)) + [d.vector]
  {
    if d.indexType == FLAT {
      var cleared := if existing.Some? then RemoveId(flat, d.id) else flat;
      VectorsOfSnoc(cleared, (d.id, d.vector), id);
      VectorsAfterRemove(flat, d.id, id);
    }
  }

  /** A FLAT upsert leaves exactly one vector of its id unless the list has one whose document is not stored. */
  lemma UpsertIsUniqueWhenBacked(flat: FlatIndex, existing: Option<Doc>, d: Doc)
    requires d.indexType == FLAT
    ensures VectorsOf(FlatAfter(flat, existing, d), d.id) == [d.vector] <==>
            existing.Some? || VectorsOf(flat, d.id) == []
  {
    var cleared := if existing.Some? then RemoveId(flat, d.id) else flat;
    VectorsOfSnoc(cleared, (d.id, d.vector), d.id);
    VectorsAfterRemove(flat, d.id, d.id);
    assert |VectorsOf(FlatAfter(flat, existing, d), d.id)| == |VectorsOf(cleared, d.id)| + 1;
  }
}
