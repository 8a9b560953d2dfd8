/** What it means that a state is settled from a position of the log, and what keeps it so. */
module Settledness {
  import opened Documents
  import opened IntFieldFilter
  import opened LogStore
  import opened Durability

  // ---------------------------------------------------------------------------------------------
  // "Settled from position p": whatever the records from p on do not touch is already as the log says
  // ---------------------------------------------------------------------------------------------

  ghost predicate ScalarSettledAt(w: Wal, p: nat, scalar: map<nat, Doc>, id: nat)
    requires p <= |w|
  {
    Last(w[p..], id, Any).None? ==> At(scalar, id) == Last(w, id, Any)
  }

  function VectorOf(d: Option<Doc>): seq<Vector> {
    if d.Some? then [d.value.vector] else []
  }

  ghost predicate FlatSettledAt(w: Wal, p: nat, flat: FlatIndex, id: nat)
    requires p <= |w|
  {
    Last(w[p..], id, Only(FLAT)).None? ==> VectorsOf(flat, id) == VectorOf(Last(w, id, Only(FLAT)))
  }

  function LabelOf(hnsw: map<nat, Vector>, id: nat): seq<Vector> {
    if id in hnsw then [hnsw[id]] else []
  }

  ghost predicate HnswSettledAt(w: Wal, p: nat, hnsw: map<nat, Vector>, id: nat)
    requires p <= |w|
  {
    Last(w[p..], id, Only(HNSW)).None? ==> LabelOf(hnsw, id) == VectorOf(Last(w, id, Only(HNSW)))
  }

  ghost predicate FilterCoversAt(w: Wal, p: nat, filter: Filter, id: nat)
    requires p <= |w|
  {
    Last(w[p..], id, Any).None? && Last(w, id, Any).Some? ==>
      forall f, v :: Has(Last(w, id, Any).value, f, v) ==> id in Bits(filter, f, v)
  }

  ghost predicate ScalarSettled(w: Wal, p: nat, scalar: map<nat, Doc>)
    requires p <= |w|
  {
    forall id :: ScalarSettledAt(w, p, scalar, id)
  }

  ghost predicate FlatSettled(w: Wal, p: nat, flat: FlatIndex)
    requires p <= |w|
  {
    forall id :: FlatSettledAt(w, p, flat, id)
  }

  function Newest(vs: seq<Vector>): Option<Vector> {
    if vs == [] then None else Some(vs[|vs| - 1])
  }

  function VectorIn(d: Option<Doc>): Option<Vector> {
    if d.Some? then Some(d.value.vector) else None
  }

  /** However many vectors the list has of an id, the newest is the one the log says, and there is one if it should. */
  ghost predicate FlatNewestAt(w: Wal, p: nat, flat: FlatIndex, id: nat)
    requires p <= |w|
  {
    Last(w[p..], id, Only(FLAT)).None? ==> Newest(VectorsOf(flat, id)) == VectorIn(Last(w, id, Only(FLAT)))
  }

  ghost predicate FlatNewest(w: Wal, p: nat, flat: FlatIndex)
    requires p <= |w|
  {
    forall id :: FlatNewestAt(w, p, flat, id)
  }

  ghost predicate HnswSettled(w: Wal, p: nat, hnsw: map<nat, Vector>)
    requires p <= |w|
  {
    forall id :: HnswSettledAt(w, p, hnsw, id)
  }

  /** Documents that keep the indexed fields of their id, and ids that fit a bitmap if there are such fields. */
  ghost predicate Regular(w: Wal) {
    && (forall i :: 0 <= i < |w| ==> Indexable(w[i].payload))
    && (forall i, j :: 0 <= i < |w| && 0 <= j < |w| && w[i].payload.id == w[j].payload.id
                       ==> IntFields(w[i].payload).Keys == IntFields(w[j].payload).Keys)
  }

  ghost predicate FilterCovers(w: Wal, p: nat, filter: Filter)
    requires p <= |w|
  {
    Regular(w) ==> forall id :: FilterCoversAt(w, p, filter, id)
  }

  /** Every id in the FLAT list is there once and has a stored document, so a FLAT upsert will find and remove it. */
  ghost predicate FlatBacked(flat: FlatIndex, scalar: map<nat, Doc>) {
    forall id :: |VectorsOf(flat, id)| <= 1 && (VectorsOf(flat, id) != [] ==> id in scalar)
  }

  ghost predicate Wrote(w: Wal, p: nat, bit: nat, f: string, v: int) {
    exists j :: p <= j < |w| && Bit(w[j].payload.id) == bit && Has(w[j].payload, f, v)
  }

  /** No bitmap holds a bit that no logged document put there. */
  ghost predicate FilterSound(w: Wal, filter: Filter) {
    forall f, v, b :: b in Bits(filter, f, v) ==> Wrote(w, 0, b, f, v)
  }

  ghost predicate Logged(w: Wal, d: Doc) {
    exists j :: 0 <= j < |w| && w[j].payload == d
  }

  /** Every stored document comes from the log. */
  ghost predicate Recorded(w: Wal, scalar: map<nat, Doc>) {
    forall id :: id in scalar ==> scalar[id].id == id && Logged(w, scalar[id])
  }

  ghost predicate DocsSettled(w: Wal, p: nat, scalar: map<nat, Doc>)
    requires p <= |w|
  {
    ScalarSettled(w, p, scalar) && Recorded(w, scalar)
  }

  /** The HNSW map, the filter, and the newest vectors of the FLAT list. */
  ghost predicate IndexesSettled(w: Wal, p: nat, ix: Indexes)
    requires p <= |w|
  {
    && HnswSettled(w, p, ix.hnsw) && FlatNewest(w, p, ix.flat)
    && FilterCovers(w, p, ix.filter) && FilterSound(w, ix.filter)
  }

  ghost predicate Settled(w: Wal, p: nat, s: Store)
    requires p <= |w|
  {
    DocsSettled(w, p, s.scalar) && IndexesSettled(w, p, s.indexes)
  }

  // ---------------------------------------------------------------------------------------------
  // Settledness under the three things that happen: a later boundary is stronger, the log grows,
  // an upsert runs
  // ---------------------------------------------------------------------------------------------

  lemma ScalarSettledEarlier(w: Wal, q: nat, p: nat, scalar: map<nat, Doc>)
    requires q <= p <= |w| && ScalarSettled(w, p, scalar)
    ensures ScalarSettled(w, q, scalar)
  {
    forall id ensures ScalarSettledAt(w, q, scalar, id) {
      assert ScalarSettledAt(w, p, scalar, id);
      if Last(w[q..], id, Any).None? { LastFromEarlier(w, q, p, id, Any); }
    }
  }

  lemma FlatSettledEarlier(w: Wal, q: nat, p: nat, flat: FlatIndex)
    requires q <= p <= |w| && FlatSettled(w, p, flat)
    ensures FlatSettled(w, q, flat)
  {
    forall id ensures FlatSettledAt(w, q, flat, id) {
      assert FlatSettledAt(w, p, flat, id);
      if Last(w[q..], id, Only(FLAT)).None? { LastFromEarlier(w, q, p, id, Only(FLAT)); }
    }
  }

  lemma FlatNewestEarlier(w: Wal, q: nat, p: nat, flat: FlatIndex)
    requires q <= p <= |w| && FlatNewest(w, p, flat)
    ensures FlatNewest(w, q, flat)
  {
    forall id ensures FlatNewestAt(w, q, flat, id) {
      assert FlatNewestAt(w, p, flat, id);
      if Last(w[q..], id, Only(FLAT)).None? { LastFromEarlier(w, q, p, id, Only(FLAT)); }
    }
  }

  lemma HnswSettledEarlier(w: Wal, q: nat, p: nat, hnsw: map<nat, Vector>)
    requires q <= p <= |w| && HnswSettled(w, p, hnsw)
    ensures HnswSettled(w, q, hnsw)
  {
    forall id ensures HnswSettledAt(w, q, hnsw, id) {
      assert HnswSettledAt(w, p, hnsw, id);
      if Last(w[q..], id, Only(HNSW)).None? { LastFromEarlier(w, q, p, id, Only(HNSW)); }
    }
  }

  lemma FilterCoversEarlier(w: Wal, q: nat, p: nat, filter: Filter)
    requires q <= p <= |w| && FilterCovers(w, p, filter)
    ensures FilterCovers(w, q, filter)
  {
    if Regular(w) {
      forall id ensures FilterCoversAt(w, q, filter, id) {
        assert FilterCoversAt(w, p, filter, id);
        if Last(w[q..], id, Any).None? { LastFromEarlier(w, q, p, id, Any); }
      }
    }
  }

  lemma SettledEarlier(w: Wal, q: nat, p: nat, s: Store)
    requires q <= p <= |w| && Settled(w, p, s)
    ensures Settled(w, q, s)
  {
    ScalarSettledEarlier(w, q, p, s.scalar);
    HnswSettledEarlier(w, q, p, s.indexes.hnsw);
    FlatNewestEarlier(w, q, p, s.indexes.flat);
    FilterCoversEarlier(w, q, p, s.indexes.filter);
  }

  lemma LastAfterAppend(w: Wal, e: WalRecord<Doc>, p: nat, id: nat, kind: Kind)
    requires p <= |w|
    requires Last((w + [e])[p..], id, kind).None?
    ensures Last(w[p..], id, kind).None? && Last(w + [e], id, kind) == Last(w, id, kind)
  {
    assert (w + [e])[p..] == w[p..] + [e];
    LastOfConcat(w[p..], [e], id, kind);
    LastOfConcat(w, [e], id, kind);
  }

  lemma FlatSettledAppend(w: Wal, e: WalRecord<Doc>, p: nat, flat: FlatIndex)
    requires p <= |w| && FlatSettled(w, p, flat)
    ensures FlatSettled(w + [e], p, flat)
  {
    forall id ensures FlatSettledAt(w + [e], p, flat, id) {
      assert FlatSettledAt(w, p, flat, id);
      if Last((w + [e])[p..], id, Only(FLAT)).None? { LastAfterAppend(w, e, p, id, Only(FLAT)); }
    }
  }

  lemma FlatNewestAppend(w: Wal, e: WalRecord<Doc>, p: nat, flat: FlatIndex)
    requires p <= |w| && FlatNewest(w, p, flat)
    ensures FlatNewest(w + [e], p, flat)
  {
    forall id ensures FlatNewestAt(w + [e], p, flat, id) {
      assert FlatNewestAt(w, p, flat, id);
      if Last((w + [e])[p..], id, Only(FLAT)).None? { LastAfterAppend(w, e, p, id, Only(FLAT)); }
    }
  }

  lemma HnswSettledAppend(w: Wal, e: WalRecord<Doc>, p: nat, hnsw: map<nat, Vector>)
    requires p <= |w| && HnswSettled(w, p, hnsw)
    ensures HnswSettled(w + [e], p, hnsw)
  {
    forall id ensures HnswSettledAt(w + [e], p, hnsw, id) {
      assert HnswSettledAt(w, p, hnsw, id);
      if Last((w + [e])[p..], id, Only(HNSW)).None? { LastAfterAppend(w, e, p, id, Only(HNSW)); }
    }
  }

  lemma RegularPrefix(w: Wal, e: WalRecord<Doc>)
    requires Regular(w + [e])
    ensures Regular(w)
  {
    assert forall i :: 0 <= i < |w| ==> (w + [e])[i] == w[i];
  }

  lemma FilterCoversAppend(w: Wal, e: WalRecord<Doc>, p: nat, filter: Filter)
    requires p <= |w| && FilterCovers(w, p, filter)
    ensures FilterCovers(w + [e], p, filter)
  {
    if Regular(w + [e]) {
      RegularPrefix(w, e);
      forall id ensures FilterCoversAt(w + [e], p, filter, id) {
        assert FilterCoversAt(w, p, filter, id);
        if Last((w + [e])[p..], id, Any).None? { LastAfterAppend(w, e, p, id, Any); }
      }
    }
  }

  lemma SoundAppend(w: Wal, e: WalRecord<Doc>, filter: Filter)
    requires FilterSound(w, filter)
    ensures FilterSound(w + [e], filter)
  {
    forall f, v, b | b in Bits(filter, f, v) ensures Wrote(w + [e], 0, b, f, v) {
      assert Wrote(w, 0, b, f, v);
      var j :| 0 <= j < |w| && Bit(w[j].payload.id) == b && Has(w[j].payload, f, v);
      assert (w + [e])[j] == w[j];
    }
  }

  lemma RecordedAppend(w: Wal, e: WalRecord<Doc>, scalar: map<nat, Doc>)
    requires Recorded(w, scalar)
    ensures Recorded(w + [e], scalar)
  {
    forall id | id in scalar ensures Logged(w + [e], scalar[id]) {
      var j :| 0 <= j < |w| && w[j].payload == scalar[id];
      assert (w + [e])[j] == w[j];
    }
  }

  lemma ScalarSettledAppend(w: Wal, e: WalRecord<Doc>, p: nat, scalar: map<nat, Doc>)
    requires p <= |w| && ScalarSettled(w, p, scalar)
    ensures ScalarSettled(w + [e], p, scalar)
  {
    forall id ensures ScalarSettledAt(w + [e], p, scalar, id) {
      assert ScalarSettledAt(w, p, scalar, id);
      if Last((w + [e])[p..], id, Any).None? { LastAfterAppend(w, e, p, id, Any); }
    }
  }

  lemma SettledAppend(w: Wal, e: WalRecord<Doc>, p: nat, s: Store)
    requires p <= |w| && Settled(w, p, s)
    ensures Settled(w + [e], p, s)
  {
    ScalarSettledAppend(w, e, p, s.scalar);
    RecordedAppend(w, e, s.scalar);
    HnswSettledAppend(w, e, p, s.indexes.hnsw);
    FlatNewestAppend(w, e, p, s.indexes.flat);
    FilterCoversAppend(w, e, p, s.indexes.filter);
    SoundAppend(w, e, s.indexes.filter);
  }

  /**
   * The step all of recovery rests on. `q` is the boundary before and `p` the one after an upsert of a logged
   * document: replay moves it past the record just applied (p == q + 1), a commit in the current epoch leaves
   * it (p == q) and applies a record behind it.
   */
  ghost predicate Applies(w: Wal, q: nat, p: nat, j: nat, d: Doc) {
    && q <= j < |w| && w[j].payload == d
    && (p == q || (p == q + 1 && j == q))
  }

  /** An id that the records from `p` on leave alone is either untouched from `q` on or the one just upserted. */
  lemma AppliesCases(w: Wal, q: nat, p: nat, j: nat, d: Doc, id: nat, kind: Kind)
    requires Applies(w, q, p, j, d) && p <= |w|
    requires Last(w[p..], id, kind).None?
    ensures Matches(d, id, kind) ==> Last(w, id, kind) == Some(d)
    ensures !Matches(d, id, kind) ==> Last(w[q..], id, kind).None?
  {
    if p == q {
      if Matches(d, id, kind) {
        assert w[p..][j - p] == w[j];
        LastIsSome(w[p..], j - p, id, kind);
      }
    } else {
      LastAt(w, q, id, kind);
    }
  }

  lemma ScalarAfterUpsert(w: Wal, q: nat, p: nat, j: nat, scalar: map<nat, Doc>, d: Doc)
    requires Applies(w, q, p, j, d) && p <= |w|
    requires DocsSettled(w, q, scalar)
    ensures DocsSettled(w, p, scalar[d.id := d])
  {
    var scalar' := scalar[d.id := d];
    forall id ensures ScalarSettledAt(w, p, scalar', id) {
      assert ScalarSettledAt(w, q, scalar, id);
      if Last(w[p..], id, Any).None? { AppliesCases(w, q, p, j, d, id, Any); }
    }
    assert Logged(w, d);
  }

  /** The removal step of a FLAT upsert leaves no vector of its id, and every other where it was. */
  lemma RemovalKeepsFlat(w: Wal, q: nat, j: nat, scalar: map<nat, Doc>, flat: FlatIndex, d: Doc)
    requires q <= j < |w| && w[j].payload == d
    requires FlatSettled(w, q, flat) && FlatBacked(flat, scalar)
    ensures var flat' := Cleared(flat, At(scalar, d.id), d);
            && FlatSettled(w, q, flat') && FlatBacked(flat', scalar[d.id := d])
            && (d.indexType == FLAT ==> VectorsOf(flat', d.id) == [])
  {
    var flat' := Cleared(flat, At(scalar, d.id), d);
    VectorsAfterRemove(flat, d.id, d.id);
    forall id ensures FlatSettledAt(w, q, flat', id) {
      assert FlatSettledAt(w, q, flat, id);
      VectorsAfterRemove(flat, d.id, id);
      if Last(w[q..], id, Only(FLAT)).None? { NotLogged(w, q, j, d, id, Only(FLAT)); }
    }
    forall id ensures |VectorsOf(flat', id)| <= 1 && (VectorsOf(flat', id) != [] ==> id in scalar[d.id := d]) {
      VectorsAfterRemove(flat, d.id, id);
    }
  }

  lemma InsertionKeepsFlat(w: Wal, q: nat, j: nat, scalar: map<nat, Doc>, flat: FlatIndex, d: Doc)
    requires q <= j < |w| && w[j].payload == d && d.id in scalar
    requires d.indexType == FLAT ==> VectorsOf(flat, d.id) == []
    requires FlatSettled(w, q, flat) && FlatBacked(flat, scalar)
    ensures FlatSettled(w, q, Inserted(flat, d)) && FlatBacked(Inserted(flat, d), scalar)
  {
    forall id ensures FlatSettledAt(w, q, Inserted(flat, d), id) {
      assert FlatSettledAt(w, q, flat, id);
      VectorsOfSnoc(flat, (d.id, d.vector), id);
      if Last(w[q..], id, Only(FLAT)).None? { NotLogged(w, q, j, d, id, Only(FLAT)); }
    }
    forall id ensures |VectorsOf(Inserted(flat, d), id)| <= 1 && (VectorsOf(Inserted(flat, d), id) != [] ==> id in scalar) {
      VectorsOfSnoc(flat, (d.id, d.vector), id);
    }
  }

  /** An upsert puts its vector behind all others of its id, whether it finds them or not. */
  lemma NewestAfterUpsert(w: Wal, q: nat, p: nat, j: nat, existing: Option<Doc>, flat: FlatIndex, d: Doc)
    requires Applies(w, q, p, j, d) && p <= |w|
    requires FlatNewest(w, q, flat)
    ensures FlatNewest(w, p, FlatAfter(flat, existing, d))
  {
    var flat' := FlatAfter(flat, existing, d);
    forall id ensures FlatNewestAt(w, p, flat', id) {
      assert FlatNewestAt(w, q, flat, id);
      VectorsAfterAnyUpsert(flat, existing, d, id);
      if Last(w[p..], id, Only(FLAT)).None? { AppliesCases(w, q, p, j, d, id, Only(FLAT)); }
    }
  }

  /** The removal step alone, before the insertion of a logged document: only its own vectors go. */
  lemma NewestAfterRemoval(w: Wal, q: nat, j: nat, existing: Option<Doc>, flat: FlatIndex, d: Doc)
    requires q <= j < |w| && w[j].payload == d
    requires FlatNewest(w, q, flat)
    ensures FlatNewest(w, q, Cleared(flat, existing, d))
  {
    forall id ensures FlatNewestAt(w, q, Cleared(flat, existing, d), id) {
      assert FlatNewestAt(w, q, flat, id);
      VectorsAfterRemove(flat, d.id, id);
      if Last(w[q..], id, Only(FLAT)).None? { NotLogged(w, q, j, d, id, Only(FLAT)); }
    }
  }

  lemma NotLogged(w: Wal, q: nat, j: nat, d: Doc, id: nat, kind: Kind)
    requires q <= j < |w| && w[j].payload == d && Last(w[q..], id, kind).None?
    ensures !Matches(d, id, kind)
  {
    if Matches(d, id, kind) {
      assert w[q..][j - q] == w[j];
      LastIsSome(w[q..], j - q, id, kind);
    }
  }

  lemma HnswAfterUpsert(w: Wal, q: nat, p: nat, j: nat, hnsw: map<nat, Vector>, d: Doc)
    requires Applies(w, q, p, j, d) && p <= |w|
    requires HnswSettled(w, q, hnsw)
    ensures HnswSettled(w, p, HnswAfter(hnsw, d))
  {
    forall id ensures HnswSettledAt(w, p, HnswAfter(hnsw, d), id) {
      assert HnswSettledAt(w, q, hnsw, id);
      if Last(w[p..], id, Only(HNSW)).None? { AppliesCases(w, q, p, j, d, id, Only(HNSW)); }
    }
  }

  lemma SoundAfterUpsert(w: Wal, j: nat, existing: Option<Doc>, filter: Filter, d: Doc)
    requires j < |w| && w[j].payload == d
    requires !Aborts(existing, d) && FilterSound(w, filter)
    ensures FilterSound(w, Reindexed(filter, existing, d))
  {
    SoundAfterFields(w, j, existing, filter, d, IntFields(d).Keys);
  }

  lemma CoversAfterUpsertAt(w: Wal, q: nat, p: nat, j: nat, existing: Option<Doc>, filter: Filter, d: Doc, id: nat)
    requires Applies(w, q, p, j, d) && p <= |w|
    requires !Aborts(existing, d)
    requires Regular(w) && FilterCoversAt(w, q, filter, id)
    ensures FilterCoversAt(w, p, Reindexed(filter, existing, d), id)
  {
    if Last(w[p..], id, Any).None? && Last(w, id, Any).Some? {
      AppliesCases(w, q, p, j, d, id, Any);
      LastIsThere(w, id, Any);
      var last := Last(w, id, Any).value;
      forall f, v | Has(last, f, v) ensures id in Bits(Reindexed(filter, existing, d), f, v) {
        ReindexedBits(filter, existing, d, f, v, id);
      }
    }
  }

  lemma CoversAfterUpsert(w: Wal, q: nat, p: nat, j: nat, existing: Option<Doc>, filter: Filter, d: Doc)
    requires Applies(w, q, p, j, d) && p <= |w|
    requires !Aborts(existing, d)
    requires FilterCovers(w, q, filter)
    ensures FilterCovers(w, p, Reindexed(filter, existing, d))
  {
    if Regular(w) {
      forall id ensures FilterCoversAt(w, p, Reindexed(filter, existing, d), id) {
        CoversAfterUpsertAt(w, q, p, j, existing, filter, d, id);
      }
    }
  }

  /** Some of the fields of a logged document: the bits of other documents stay, its own are still to be replayed. */
  lemma CoversAfterFields(w: Wal, q: nat, j: nat, existing: Option<Doc>, filter: Filter, d: Doc, fields: set<string>)
    requires q <= j < |w| && w[j].payload == d
    requires fields <= IntFields(d).Keys && (existing.Some? ==> fields <= existing.value.ints.Keys)
    requires FilterCovers(w, q, filter)
    ensures FilterCovers(w, q, ReindexedOn(filter, existing, d, fields))
  {
    var filter' := ReindexedOn(filter, existing, d, fields);
    if Regular(w) {
      forall id ensures FilterCoversAt(w, q, filter', id) {
        assert FilterCoversAt(w, q, filter, id);
        if Last(w[q..], id, Any).None? && Last(w, id, Any).Some? {
          NotLogged(w, q, j, d, id, Any);
          CoveredStaysCovered(w, j, existing, filter, d, fields, id);
        }
      }
    }
  }

  lemma CoveredStaysCovered(w: Wal, j: nat, existing: Option<Doc>, filter: Filter, d: Doc, fields: set<string>, id: nat)
    requires j < |w| && w[j].payload == d && id != d.id && Regular(w) && Last(w, id, Any).Some?
    requires fields <= IntFields(d).Keys && (existing.Some? ==> fields <= existing.value.ints.Keys)
    requires forall f, v :: Has(Last(w, id, Any).value, f, v) ==> id in Bits(filter, f, v)
    ensures forall f, v :: Has(Last(w, id, Any).value, f, v) ==> id in Bits(ReindexedOn(filter, existing, d, fields), f, v)
  {
    LastIsThere(w, id, Any);
    forall f, v | Has(Last(w, id, Any).value, f, v) ensures id in Bits(ReindexedOn(filter, existing, d, fields), f, v) {
      ReindexedOnBits(filter, existing, d, fields, f, v, id);
    }
  }

  lemma SoundAfterFields(w: Wal, j: nat, existing: Option<Doc>, filter: Filter, d: Doc, fields: set<string>)
    requires j < |w| && w[j].payload == d
    requires fields <= IntFields(d).Keys && (existing.Some? ==> fields <= existing.value.ints.Keys)
    requires FilterSound(w, filter)
    ensures FilterSound(w, ReindexedOn(filter, existing, d, fields))
  {
    var filter' := ReindexedOn(filter, existing, d, fields);
    forall f, v, b | b in Bits(filter', f, v) ensures Wrote(w, 0, b, f, v) {
      ReindexedOnBits(filter, existing, d, fields, f, v, b);
    }
  }

  /** The index half of an upsert. */
  lemma IndexesAfterUpsert(w: Wal, q: nat, p: nat, j: nat, existing: Option<Doc>, ix: Indexes, d: Doc)
    requires Applies(w, q, p, j, d) && p <= |w| && !Aborts(existing, d)
    requires IndexesSettled(w, q, ix)
    ensures IndexesSettled(w, p, UpsertIndexes(ix, existing, d))
  {
    HnswAfterUpsert(w, q, p, j, ix.hnsw, d);
    NewestAfterUpsert(w, q, p, j, existing, ix.flat, d);
    CoversAfterUpsert(w, q, p, j, existing, ix.filter, d);
    SoundAfterUpsert(w, j, existing, ix.filter, d);
  }

  lemma SettledAfterUpsert(w: Wal, q: nat, p: nat, j: nat, s: Store, d: Doc)
    requires Applies(w, q, p, j, d) && p <= |w|
    requires Settled(w, q, s)
    requires Upsert(s, d).Some?
    ensures Settled(w, p, Upsert(s, d).value)
  {
    ScalarAfterUpsert(w, q, p, j, s.scalar, d);
    IndexesAfterUpsert(w, q, p, j, At(s.scalar, d.id), s.indexes, d);
  }

  lemma SameFields(w: Wal, scalar: map<nat, Doc>, p: nat)
    requires Regular(w) && Recorded(w, scalar) && p < |w|
    ensures var id := w[p].payload.id;
            id in scalar ==> IntFields(scalar[id]).Keys == IntFields(w[p].payload).Keys
  {
    var id := w[p].payload.id;
    if id in scalar {
      assert Logged(w, scalar[id]);
      var i :| 0 <= i < |w| && w[i].payload == scalar[id];
    }
  }

  /** Documents that keep their fields never trip the assertion. */
  lemma RegularNeverAborts(w: Wal, scalar: map<nat, Doc>, j: nat)
    requires Regular(w) && Recorded(w, scalar) && j < |w|
    ensures !Aborts(At(scalar, w[j].payload.id), w[j].payload)
  {
    SameFields(w, scalar, j);
  }
}
