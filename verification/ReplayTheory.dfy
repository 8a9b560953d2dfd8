/** What replaying the write-ahead log on top of a snapshot makes of the stores. */
module ReplayTheory {
  import opened Documents
  import opened IntFieldFilter
  import opened Durability
  import opened Settledness

  // ---------------------------------------------------------------------------------------------
  // Replay
  // ---------------------------------------------------------------------------------------------

  /** The records the snapshot claims are exactly those before `n`. */
  ghost predicate SplitsAt(w: Wal, lastSnapshotID: nat, n: nat) {
    && n <= |w|
    && forall j :: 0 <= j < |w| ==> (j < n <==> w[j].id <= lastSnapshotID)
  }

  lemma {:induction false} ReplaySkips(w: Wal, p: nat, lastSnapshotID: nat, n: nat, s: Store)
    requires SplitsAt(w, lastSnapshotID, n) && p <= n
    ensures Replay(w, p, lastSnapshotID, s) == Replay(w, n, lastSnapshotID, s)
    decreases n - p
  {
    if p < n {
      ReplaySkips(w, p + 1, lastSnapshotID, n, s);
    }
  }

  lemma ReplayUnfolds(w: Wal, p: nat, lastSnapshotID: nat, s: Store) returns (s': Store)
    requires p < |w| && w[p].id > lastSnapshotID
    requires Replay(w, p, lastSnapshotID, s).Some?
    ensures Upsert(s, w[p].payload) == Some(s')
    ensures Replay(w, p, lastSnapshotID, s) == Replay(w, p + 1, lastSnapshotID, s')
  {
    s' := Upsert(s, w[p].payload).value;
  }

  lemma {:induction false} ReplaySettles(w: Wal, p: nat, lastSnapshotID: nat, n: nat, s: Store)
    requires SplitsAt(w, lastSnapshotID, n) && n <= p <= |w|
    requires Settled(w, p, s)
    requires Replay(w, p, lastSnapshotID, s).Some?
    ensures Settled(w, |w|, Replay(w, p, lastSnapshotID, s).value)
    decreases |w| - p
  {
    if p < |w| {
      var s' := ReplayUnfolds(w, p, lastSnapshotID, s);
      assert Applies(w, p, p + 1, p, w[p].payload);
      SettledAfterUpsert(w, p, p + 1, p, s, w[p].payload);
      ReplaySettles(w, p + 1, lastSnapshotID, n, s');
    }
  }

  lemma {:induction false} RegularReplayFinishes(w: Wal, p: nat, lastSnapshotID: nat, s: Store)
    requires p <= |w| && Regular(w) && Recorded(w, s.scalar)
    ensures Replay(w, p, lastSnapshotID, s).Some?
    decreases |w| - p
  {
    if p < |w| {
      if w[p].id <= lastSnapshotID {
        RegularReplayFinishes(w, p + 1, lastSnapshotID, s);
      } else {
        RegularNeverAborts(w, s.scalar, p);
        assert Logged(w, w[p].payload);
        RegularReplayFinishes(w, p + 1, lastSnapshotID, Upsert(s, w[p].payload).value);
      }
    }
  }

  /** The scalar store and the HNSW map hold what the whole log says. */
  ghost predicate ReflectsDocs(w: Wal, s: Store) {
    && (forall id :: At(s.scalar, id) == Last(w, id, Any))
    && (forall id :: LabelOf(s.indexes.hnsw, id) == VectorOf(Last(w, id, Only(HNSW))))
  }

  /** And so does the FLAT list: one vector for each id that was upserted into it, and none for any other. */
  ghost predicate ReflectsFlat(w: Wal, flat: FlatIndex) {
    forall id :: VectorsOf(flat, id) == VectorOf(Last(w, id, Only(FLAT)))
  }

  /** The whole log is reflected: last writer wins in the scalar store and, per type, in the vector indexes. */
  ghost predicate Reflects(w: Wal, s: Store) {
    ReflectsDocs(w, s) && ReflectsFlat(w, s.indexes.flat)
  }

  lemma SettledReflects(w: Wal, s: Store)
    requires Settled(w, |w|, s)
    ensures ReflectsDocs(w, s)
  {
    assert w[|w|..] == [];
    forall id
      ensures At(s.scalar, id) == Last(w, id, Any)
      ensures LabelOf(s.indexes.hnsw, id) == VectorOf(Last(w, id, Only(HNSW)))
    {
      assert ScalarSettledAt(w, |w|, s.scalar, id);
      assert HnswSettledAt(w, |w|, s.indexes.hnsw, id);
    }
  }

  // ---------------------------------------------------------------------------------------------
  // What a replay does to one id, from any store
  // ---------------------------------------------------------------------------------------------

  function OrElse<T>(a: Option<T>, b: Option<T>): Option<T> {
    if a.Some? then a else b
  }

  /** The vectors of `id` after replaying the records from `p` on; only a stored document gets its vectors removed. */
  function FlatReplay(w: Wal, p: nat, id: nat, vs: seq<Vector>, stored: bool): seq<Vector>
    requires p <= |w|
    decreases |w| - p
  {
    if p == |w| then vs
    else if w[p].payload.id != id then FlatReplay(w, p + 1, id, vs, stored)
    else if w[p].payload.indexType != FLAT then FlatReplay(w, p + 1, id, vs, true)
    else FlatReplay(w, p + 1, id, (if stored then [] else vs) + [w[p].payload.vector], true)
  }

  /** The first record of `id` from `p` on is a FLAT upsert, and no other FLAT upsert of `id` follows it. */
  predicate LoneFlat(w: Wal, p: nat, id: nat)
    requires p <= |w|
    decreases |w| - p
  {
    p < |w| &&
    if w[p].payload.id == id then w[p].payload.indexType == FLAT && Last(w[p + 1..], id, Only(FLAT)).None?
    else LoneFlat(w, p + 1, id)
  }

  lemma LastFromNext(w: Wal, p: nat, id: nat, kind: Kind)
    requires p < |w|
    ensures Last(w[p..], id, kind)
         == OrElse(Last(w[p + 1..], id, kind), if Matches(w[p].payload, id, kind) then Some(w[p].payload) else None)
  {
    assert w[p..] == [w[p]] + w[p + 1..];
    LastOfConcat([w[p]], w[p + 1..], id, kind);
    assert [w[p]][..0] == [];
  }

  /** Replay in closed form: the last FLAT upsert replaces the vectors, unless it is alone and finds nothing stored. */
  lemma {:induction false} FlatReplayIs(w: Wal, p: nat, id: nat, vs: seq<Vector>, stored: bool)
    requires p <= |w|
    ensures var last := Last(w[p..], id, Only(FLAT));
            FlatReplay(w, p, id, vs, stored)
            == if last.None? then vs
               else if !stored && LoneFlat(w, p, id) then vs + [last.value.vector] else [last.value.vector]
    decreases |w| - p
  {
    if p < |w| {
      LastFromNext(w, p, id, Only(FLAT));
      var d := w[p].payload;
      if d.id != id {
        FlatReplayIs(w, p + 1, id, vs, stored);
      } else if d.indexType != FLAT {
        FlatReplayIs(w, p + 1, id, vs, true);
      } else {
        FlatReplayIs(w, p + 1, id, (if stored then [] else vs) + [d.vector], true);
      }
    }
  }

  ghost predicate ReplayedId(w: Wal, p: nat, s: Store, r: Store, id: nat)
    requires p <= |w|
  {
    && At(r.scalar, id) == OrElse(Last(w[p..], id, Any), At(s.scalar, id))
    && LabelOf(r.indexes.hnsw, id)
       == (var last := Last(w[p..], id, Only(HNSW)); if last.Some? then VectorOf(last) else LabelOf(s.indexes.hnsw, id))
    && VectorsOf(r.indexes.flat, id) == FlatReplay(w, p, id, VectorsOf(s.indexes.flat, id), id in s.scalar)
  }

  lemma ReplayedIdStep(w: Wal, p: nat, s: Store, s': Store, r: Store, id: nat)
    requires p < |w| && Upsert(s, w[p].payload) == Some(s') && ReplayedId(w, p + 1, s', r, id)
    ensures ReplayedId(w, p, s, r, id)
  {
    LastFromNext(w, p, id, Any);
    LastFromNext(w, p, id, Only(HNSW));
    VectorsAfterAnyUpsert(s.indexes.flat, At(s.scalar, w[p].payload.id), w[p].payload, id);
  }

  lemma {:induction false} ReplayOfId(w: Wal, p: nat, lastSnapshotID: nat, n: nat, s: Store, id: nat)
    requires SplitsAt(w, lastSnapshotID, n) && n <= p <= |w|
    requires Replay(w, p, lastSnapshotID, s).Some?
    ensures ReplayedId(w, p, s, Replay(w, p, lastSnapshotID, s).value, id)
    decreases |w| - p
  {
    if p == |w| {
      assert w[p..] == [];
    } else {
      var s' := ReplayUnfolds(w, p, lastSnapshotID, s);
      ReplayOfId(w, p + 1, lastSnapshotID, n, s', id);
      ReplayedIdStep(w, p, s, s', Replay(w, p, lastSnapshotID, s).value, id);
    }
  }

  /**
   * The snapshot has a vector of `id` whose document is not stored, and the replay will add another without
   * ever coming back to remove the first.
   */
  predicate Doubled(w: Wal, n: nat, s: Store, id: nat)
    requires n <= |w|
  {
    id !in s.scalar && VectorsOf(s.indexes.flat, id) != [] && LoneFlat(w, n, id)
  }

  lemma LastSplit(w: Wal, n: nat, id: nat, kind: Kind)
    requires n <= |w|
    ensures Last(w[n..], id, kind).Some? ==> Last(w, id, kind) == Last(w[n..], id, kind)
  {
    assert w == w[..n] + w[n..];
    LastOfConcat(w[..n], w[n..], id, kind);
  }

  /**
   * The vectors of one id after a replay, from any snapshot: what the log says exactly when the snapshot was
   * settled for it and it is not doubled.
   */
  lemma FlatAfterReplay(w: Wal, n: nat, s: Store, id: nat)
    requires n <= |w|
    ensures var vs, last := VectorsOf(s.indexes.flat, id), Last(w[n..], id, Only(FLAT));
            && FlatReplay(w, n, id, vs, id in s.scalar)
               == (if last.None? || Doubled(w, n, s, id) then vs else []) + VectorOf(last)
            && (FlatReplay(w, n, id, vs, id in s.scalar) == VectorOf(Last(w, id, Only(FLAT)))
                <==> FlatSettledAt(w, n, s.indexes.flat, id) && !Doubled(w, n, s, id))
  {
    var vs := VectorsOf(s.indexes.flat, id);
    FlatReplayIs(w, n, id, vs, id in s.scalar);
    LoneFlatHasLast(w, n, id);
    LastSplit(w, n, id, Only(FLAT));
    assert vs + [] == vs;
    if Doubled(w, n, s, id) {
      assert |vs + VectorOf(Last(w[n..], id, Only(FLAT)))| >= 2;
    }
  }

  lemma {:induction false} LoneFlatHasLast(w: Wal, p: nat, id: nat)
    requires p <= |w|
    ensures LoneFlat(w, p, id) ==> Last(w[p..], id, Only(FLAT)).Some?
    decreases |w| - p
  {
    if p < |w| {
      LastFromNext(w, p, id, Only(FLAT));
      if w[p].payload.id != id {
        LoneFlatHasLast(w, p + 1, id);
      }
    }
  }

  // ---------------------------------------------------------------------------------------------
  // Exactness of the filter
  // ---------------------------------------------------------------------------------------------

  /**
   * Every bit stands for the stored value of its document or for a value that a record from `p` on still
   * has to write. Bits of neither sort are stale, and nothing will ever remove them.
   */
  ghost predicate BitsAccounted(w: Wal, p: nat, s: Store) {
    forall f, v, b :: b in Bits(s.indexes.filter, f, v) ==> Accounted(w, p, s.scalar, f, v, b)
  }

  ghost predicate Accounted(w: Wal, p: nat, scalar: map<nat, Doc>, f: string, v: int, b: nat) {
    (b in scalar && Has(scalar[b], f, v)) || Wrote(w, p, b, f, v)
  }

  lemma WroteStep(w: Wal, p: nat, b: nat, f: string, v: int)
    requires p < |w|
    ensures Wrote(w, p, b, f, v) <==>
            (Bit(w[p].payload.id) == b && Has(w[p].payload, f, v)) || Wrote(w, p + 1, b, f, v)
  {
    if Wrote(w, p, b, f, v) {
      var j :| p <= j < |w| && Bit(w[j].payload.id) == b && Has(w[j].payload, f, v);
      assert j == p || p + 1 <= j < |w|;
    }
  }

  /** What the record at `p` does to a bit of its own document: the old value goes, the new one comes. */
  lemma AccountedOwnBit(w: Wal, p: nat, s: Store, s': Store, f: string, v: int)
    requires Regular(w) && Recorded(w, s.scalar) && p < |w|
    requires Upsert(s, w[p].payload) == Some(s')
    ensures var b := w[p].payload.id;
            (b in Bits(s.indexes.filter, f, v) ==> Accounted(w, p, s.scalar, f, v, b)) <==>
            (b in Bits(s'.indexes.filter, f, v) ==> Accounted(w, p + 1, s'.scalar, f, v, b))
  {
    var d := w[p].payload;
    ReindexedBits(s.indexes.filter, At(s.scalar, d.id), d, f, v, d.id);
    WroteStep(w, p, d.id, f, v);
    SameFields(w, s.scalar, p);
  }

  /** Every other bit stays where it is. */
  lemma AccountedOtherBit(w: Wal, p: nat, s: Store, s': Store, f: string, v: int, b: nat)
    requires Regular(w) && p < |w| && b != w[p].payload.id
    requires Upsert(s, w[p].payload) == Some(s')
    ensures (b in Bits(s.indexes.filter, f, v) ==> Accounted(w, p, s.scalar, f, v, b)) <==>
            (b in Bits(s'.indexes.filter, f, v) ==> Accounted(w, p + 1, s'.scalar, f, v, b))
  {
    var d := w[p].payload;
    ReindexedBits(s.indexes.filter, At(s.scalar, d.id), d, f, v, b);
    WroteStep(w, p, b, f, v);
  }

  lemma AccountedAfterUpsert(w: Wal, p: nat, s: Store, s': Store)
    requires Regular(w) && Recorded(w, s.scalar) && p < |w|
    requires Upsert(s, w[p].payload) == Some(s')
    ensures BitsAccounted(w, p, s) <==> BitsAccounted(w, p + 1, s')
  {
    forall f, v, b
      ensures (b in Bits(s.indexes.filter, f, v) ==> Accounted(w, p, s.scalar, f, v, b)) <==>
              (b in Bits(s'.indexes.filter, f, v) ==> Accounted(w, p + 1, s'.scalar, f, v, b))
    {
      if b == w[p].payload.id {
        AccountedOwnBit(w, p, s, s', f, v);
      } else {
        AccountedOtherBit(w, p, s, s', f, v, b);
      }
    }
  }

  lemma {:induction false} ReplayKeepsAccounts(w: Wal, p: nat, lastSnapshotID: nat, n: nat, s: Store)
    requires SplitsAt(w, lastSnapshotID, n) && n <= p <= |w|
    requires Regular(w) && Recorded(w, s.scalar)
    requires Replay(w, p, lastSnapshotID, s).Some?
    ensures BitsAccounted(w, p, s) <==> BitsAccounted(w, |w|, Replay(w, p, lastSnapshotID, s).value)
    decreases |w| - p
  {
    if p < |w| {
      var s' := Upsert(s, w[p].payload).value;
      AccountedAfterUpsert(w, p, s, s');
      assert Logged(w, w[p].payload);
      ReplayKeepsAccounts(w, p + 1, lastSnapshotID, n, s');
    }
  }

  /** Once the log is used up, accounting for every bit is the same as agreeing with the stored documents. */
  lemma AccountedIsAgreement(w: Wal, s: Store)
    requires Regular(w) && Settled(w, |w|, s)
    ensures BitsAccounted(w, |w|, s) <==> Agrees(s.scalar, s.indexes.filter)
  {
    assert forall f, v, b :: !Wrote(w, |w|, b, f, v);
    SettledReflects(w, s);
    assert w[|w|..] == [];
    forall f, v, id | id in s.scalar && Has(s.scalar[id], f, v)
      ensures id in Bits(s.indexes.filter, f, v)
    {
      assert FilterCoversAt(w, |w|, s.indexes.filter, id);
      assert At(s.scalar, id) == Last(w, id, Any);
    }
    if BitsAccounted(w, |w|, s) {
      forall f, v, id | id in Bits(s.indexes.filter, f, v)
        ensures id in s.scalar && Has(s.scalar[id], f, v)
      {
        assert Accounted(w, |w|, s.scalar, f, v, id);
      }
    }
  }

  /**
   * Recovery from a settled snapshot. Documents, labels and the newest FLAT vector of each id are always right.
   * For regular documents replay runs to the end, every document is in the bitmap of its stored values, and the
   * bitmaps hold nothing else exactly when the loaded ones hold no stale bit.
   */
  lemma ReplayRecovers(w: Wal, lastSnapshotID: nat, n: nat, s: Store)
    requires SplitsAt(w, lastSnapshotID, n)
    requires Settled(w, n, s)
    ensures Regular(w) ==> Replay(w, 0, lastSnapshotID, s).Some?
    ensures Replay(w, 0, lastSnapshotID, s).Some? ==>
              (var r := Replay(w, 0, lastSnapshotID, s).value;
               && Settled(w, |w|, r) && ReflectsDocs(w, r)
               && (Regular(w) ==>
                     && (forall id, f, v :: id in r.scalar && Has(r.scalar[id], f, v)
                                            ==> id in Bits(r.indexes.filter, f, v))
                     && (Agrees(r.scalar, r.indexes.filter) <==> BitsAccounted(w, n, s))))
  {
    if Regular(w) {
      RegularReplayFinishes(w, 0, lastSnapshotID, s);
    }
    if Replay(w, 0, lastSnapshotID, s).Some? {
      var r := Replay(w, 0, lastSnapshotID, s).value;
      ReplaySkips(w, 0, lastSnapshotID, n, s);
      ReplaySettles(w, n, lastSnapshotID, n, s);
      SettledReflects(w, r);
      if Regular(w) {
        ReplayKeepsAccounts(w, n, lastSnapshotID, n, s);
        AccountedIsAgreement(w, r);
        CoversStored(w, r);
      }
    }
  }

  /** The FLAT list after a replay, from any snapshot. */
  lemma ReplayRecoversFlat(w: Wal, lastSnapshotID: nat, n: nat, s: Store)
    requires SplitsAt(w, lastSnapshotID, n)
    requires Replay(w, 0, lastSnapshotID, s).Some?
    ensures var r := Replay(w, 0, lastSnapshotID, s).value;
            && (forall id :: VectorsOf(r.indexes.flat, id) == VectorOf(Last(w, id, Only(FLAT)))
                             <==> FlatSettledAt(w, n, s.indexes.flat, id) && !Doubled(w, n, s, id))
            && (ReflectsFlat(w, r.indexes.flat)
                <==> FlatSettled(w, n, s.indexes.flat) && forall id :: !Doubled(w, n, s, id))
  {
    var r := Replay(w, 0, lastSnapshotID, s).value;
    ReplaySkips(w, 0, lastSnapshotID, n, s);
    forall id
      ensures VectorsOf(r.indexes.flat, id) == VectorOf(Last(w, id, Only(FLAT)))
              <==> FlatSettledAt(w, n, s.indexes.flat, id) && !Doubled(w, n, s, id)
    {
      ReplayOfId(w, n, lastSnapshotID, n, s, id);
      FlatAfterReplay(w, n, s, id);
    }
  }

  /** The documents and labels after a replay, from any snapshot. */
  lemma ReplayRecoversDocs(w: Wal, lastSnapshotID: nat, n: nat, s: Store)
    requires SplitsAt(w, lastSnapshotID, n)
    requires Replay(w, 0, lastSnapshotID, s).Some?
    ensures ReflectsDocs(w, Replay(w, 0, lastSnapshotID, s).value) <==>
            ScalarSettled(w, n, s.scalar) && HnswSettled(w, n, s.indexes.hnsw)
  {
    var r := Replay(w, 0, lastSnapshotID, s).value;
    ReplaySkips(w, 0, lastSnapshotID, n, s);
    forall id
      ensures At(r.scalar, id) == Last(w, id, Any) <==> ScalarSettledAt(w, n, s.scalar, id)
      ensures LabelOf(r.indexes.hnsw, id) == VectorOf(Last(w, id, Only(HNSW))) <==> HnswSettledAt(w, n, s.indexes.hnsw, id)
    {
      ReplayOfId(w, n, lastSnapshotID, n, s, id);
      LastSplit(w, n, id, Any);
      LastSplit(w, n, id, Only(HNSW));
    }
  }

  // ---------------------------------------------------------------------------------------------
  // Whether a replay finishes
  // ---------------------------------------------------------------------------------------------

  /** The document that the record at `q` will find stored: the last one replayed before it, or the one from disk. */
  function FoundBy(w: Wal, n: nat, q: nat, scalar: map<nat, Doc>): Option<Doc>
    requires n <= q < |w|
  {
    OrElse(Last(w[n..q], w[q].payload.id, Any), At(scalar, w[q].payload.id))
  }

  /** No replayed record trips the assertion: each finds all its indexed fields in the document before it. */
  ghost predicate NoneAborts(w: Wal, n: nat, scalar: map<nat, Doc>)
    requires n <= |w|
  {
    forall q :: n <= q < |w| ==> !Aborts(FoundBy(w, n, q, scalar), w[q].payload)
  }

  lemma FoundByNext(w: Wal, p: nat, q: nat, scalar: map<nat, Doc>)
    requires p < q < |w|
    ensures FoundBy(w, p, q, scalar) == FoundBy(w, p + 1, q, scalar[w[p].payload.id := w[p].payload])
  {
    assert w[..q][p..] == w[p..q] && w[..q][p + 1..] == w[p + 1..q];
    LastFromNext(w[..q], p, w[q].payload.id, Any);
  }

  lemma NoneAbortsStep(w: Wal, p: nat, scalar: map<nat, Doc>)
    requires p < |w|
    ensures NoneAborts(w, p, scalar) <==>
            !Aborts(At(scalar, w[p].payload.id), w[p].payload) && NoneAborts(w, p + 1, scalar[w[p].payload.id := w[p].payload])
  {
    assert w[p..p] == [];
    assert FoundBy(w, p, p, scalar) == At(scalar, w[p].payload.id);
    forall q | p < q < |w|
      ensures FoundBy(w, p, q, scalar) == FoundBy(w, p + 1, q, scalar[w[p].payload.id := w[p].payload])
    {
      FoundByNext(w, p, q, scalar);
    }
  }

  /** A replay finishes exactly when no replayed record brings a field that the document before it lacks. */
  lemma {:induction false} ReplayFinishesIff(w: Wal, p: nat, lastSnapshotID: nat, n: nat, s: Store)
    requires SplitsAt(w, lastSnapshotID, n) && n <= p <= |w|
    ensures Replay(w, p, lastSnapshotID, s).Some? <==> NoneAborts(w, p, s.scalar)
    decreases |w| - p
  {
    if p < |w| {
      NoneAbortsStep(w, p, s.scalar);
      var s' := Upsert(s, w[p].payload);
      if s'.Some? {
        ReplayFinishesIff(w, p + 1, lastSnapshotID, n, s'.value);
      }
    }
  }

  lemma CoversStored(w: Wal, s: Store)
    requires Regular(w) && Settled(w, |w|, s)
    ensures forall id, f, v :: id in s.scalar && Has(s.scalar[id], f, v) ==> id in Bits(s.indexes.filter, f, v)
  {
    SettledReflects(w, s);
    assert w[|w|..] == [];
    forall id, f, v | id in s.scalar && Has(s.scalar[id], f, v) ensures id in Bits(s.indexes.filter, f, v) {
      assert FilterCoversAt(w, |w|, s.indexes.filter, id);
      assert At(s.scalar, id) == Last(w, id, Any);
    }
  }

  lemma {:induction false} LastOfKind(w: Wal, id: nat, indexType: IndexType)
    ensures Last(w, id, Only(indexType)).Some? ==> Last(w, id, Any).Some?
  {
    if w != [] {
      LastOfKind(w[..|w| - 1], id, indexType);
    }
  }

  /** A state that reflects the log has a stored document behind every vector. */
  lemma ReflectingIsBacked(w: Wal, s: Store)
    requires Reflects(w, s)
    ensures FlatBacked(s.indexes.flat, s.scalar)
  {
    forall id
      ensures |VectorsOf(s.indexes.flat, id)| <= 1
      ensures VectorsOf(s.indexes.flat, id) != [] ==> id in s.scalar
    {
      LastOfKind(w, id, FLAT);
      assert At(s.scalar, id) == Last(w, id, Any);
      assert VectorsOf(s.indexes.flat, id) == VectorOf(Last(w, id, Only(FLAT)));
    }
  }

  /** Replaying records that the state already contains, however many, changes no lookup. */
  lemma OverReplayIsHarmless(w: Wal, lastSnapshotID: nat, n: nat, s: Store)
    requires SplitsAt(w, lastSnapshotID, n)
    requires Settled(w, |w|, s) && Reflects(w, s)
    requires Replay(w, 0, lastSnapshotID, s).Some?
    ensures var r := Replay(w, 0, lastSnapshotID, s).value;
            && (forall id :: At(r.scalar, id) == At(s.scalar, id))
            && (forall id :: VectorsOf(r.indexes.flat, id) == VectorsOf(s.indexes.flat, id))
            && (forall id :: LabelOf(r.indexes.hnsw, id) == LabelOf(s.indexes.hnsw, id))
            && (Regular(w) && Agrees(s.scalar, s.indexes.filter) ==>
                  forall f, v :: Bits(r.indexes.filter, f, v) == Bits(s.indexes.filter, f, v))
  {
    SettledEarlier(w, n, |w|, s);
    ReplayRecovers(w, lastSnapshotID, n, s);
    OverReplayKeepsFlat(w, lastSnapshotID, n, s);
    OverReplayKeepsFilter(w, lastSnapshotID, n, s);
    var r := Replay(w, 0, lastSnapshotID, s).value;
    forall id
      ensures At(r.scalar, id) == At(s.scalar, id)
      ensures LabelOf(r.indexes.hnsw, id) == LabelOf(s.indexes.hnsw, id)
    {
      assert At(s.scalar, id) == Last(w, id, Any) == At(r.scalar, id);
      assert LabelOf(s.indexes.hnsw, id) == VectorOf(Last(w, id, Only(HNSW))) == LabelOf(r.indexes.hnsw, id);
    }
  }

  lemma OverReplayKeepsFlat(w: Wal, lastSnapshotID: nat, n: nat, s: Store)
    requires SplitsAt(w, lastSnapshotID, n)
    requires Reflects(w, s)
    requires Replay(w, 0, lastSnapshotID, s).Some?
    ensures var r := Replay(w, 0, lastSnapshotID, s).value;
            forall id :: VectorsOf(r.indexes.flat, id) == VectorsOf(s.indexes.flat, id)
  {
    assert FlatSettled(w, n, s.indexes.flat) by {
      forall id ensures FlatSettledAt(w, n, s.indexes.flat, id) {
        assert VectorsOf(s.indexes.flat, id) == VectorOf(Last(w, id, Only(FLAT)));
      }
    }
    ReflectingIsBacked(w, s);
    assert forall id :: !Doubled(w, n, s, id);
    ReplayRecoversFlat(w, lastSnapshotID, n, s);
    var r := Replay(w, 0, lastSnapshotID, s).value;
    forall id ensures VectorsOf(r.indexes.flat, id) == VectorsOf(s.indexes.flat, id) {
      assert !Doubled(w, n, s, id);
      assert VectorsOf(s.indexes.flat, id) == VectorOf(Last(w, id, Only(FLAT))) == VectorsOf(r.indexes.flat, id);
    }
  }

  lemma OverReplayKeepsFilter(w: Wal, lastSnapshotID: nat, n: nat, s: Store)
    requires SplitsAt(w, lastSnapshotID, n)
    requires Settled(w, n, s) && ReflectsDocs(w, s)
    requires Replay(w, 0, lastSnapshotID, s).Some?
    ensures var r := Replay(w, 0, lastSnapshotID, s).value;
            Regular(w) && Agrees(s.scalar, s.indexes.filter) ==>
              forall f, v :: Bits(r.indexes.filter, f, v) == Bits(s.indexes.filter, f, v)
  {
    var r := Replay(w, 0, lastSnapshotID, s).value;
    ReplayRecovers(w, lastSnapshotID, n, s);
    if Regular(w) && Agrees(s.scalar, s.indexes.filter) {
      assert BitsAccounted(w, n, s);
      forall f, v ensures Bits(r.indexes.filter, f, v) == Bits(s.indexes.filter, f, v) {
        forall id ensures id in Bits(r.indexes.filter, f, v) <==> id in Bits(s.indexes.filter, f, v) {
          assert At(r.scalar, id) == Last(w, id, Any) == At(s.scalar, id);
        }
      }
    }
  }
}
