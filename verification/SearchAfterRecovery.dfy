/** Crash, reload, search: what a filtered search answers is what the write-ahead log says. */
module SearchAfterRecovery {
  import opened Documents
  import opened IntFieldFilter
  import opened Durability
  import opened Settledness
  import opened ReplayTheory
  import opened RecoveryRuns
  import opened FlatListRuns
  import opened RecoveryTheorems
  import opened SavedFiles
  import opened RecoveryFromFiles
  import opened Search

  /** The last upsert of the id satisfies the filter, and the id has been upserted into the FLAT index. */
  predicate LogSays(w: Wal, r: FilterRequest, id: nat) {
    && Last(w, id, Any).Some? && Satisfies(Last(w, id, Any).value, r)
    && Last(w, id, Only(FLAT)).Some?
  }

  ghost predicate IsHitOf(w: Wal, r: FilterRequest, answer: int) {
    answer >= 0 && (var id: nat := answer; LogSays(w, r, id))
  }

  ghost predicate AllNarrow(w: Wal) {
    forall i :: 0 <= i < |w| ==> Narrow(w[i].payload.id)
  }

  lemma StoredIdsAreNarrow(w: Wal, s: Store)
    requires AllNarrow(w) && ReflectsDocs(w, s)
    ensures forall id :: id in s.scalar ==> Narrow(id)
  {
    forall id | id in s.scalar ensures Narrow(id) {
      assert At(s.scalar, id) == Last(w, id, Any);
      LastIsThere(w, id, Any);
    }
  }

  /** The id has a vector in the recovered list exactly when the log has a FLAT upsert of it, and a document then. */
  lemma ListedIsLogged(w: Wal, s: Store, id: nat)
    requires ReflectsDocs(w, s) && FlatNewest(w, |w|, s.indexes.flat)
    ensures VectorsOf(s.indexes.flat, id) != [] <==> Last(w, id, Only(FLAT)).Some?
    ensures VectorsOf(s.indexes.flat, id) != [] ==> id in s.scalar
  {
    assert w[|w|..] == [];
    assert FlatNewestAt(w, |w|, s.indexes.flat, id);
    LastOfKind(w, id, FLAT);
    assert At(s.scalar, id) == Last(w, id, Any);
  }

  lemma HitsAreLogged(w: Wal, s: Store, r: FilterRequest, answer: int)
    requires ReflectsDocs(w, s) && FlatNewest(w, |w|, s.indexes.flat)
    ensures IsHit(s.scalar, s.indexes, r, answer) <==> IsHitOf(w, r, answer)
  {
    if answer >= 0 {
      var id: nat := answer;
      ListedIsLogged(w, s, id);
      assert At(s.scalar, id) == Last(w, id, Any);
    }
  }

  /** The recovered filter is exact: nothing but the log was replayed, or no saved bit was stale. */
  ghost predicate FilterSurvives(d: Disk) {
    d.savedId <= FIRST_ID || BitsAccounted(d.wal, Claimed(d), Loaded(d))
  }

  /**
   * For every run on schema-stable documents with 32-bit ids that commits logged entries only, in which the saved
   * bits are accounted for (they are as long as no snapshot of a later epoch has been completed): after a reload
   * from legible files a filtered FLAT search returns only ids whose last logged upsert carries the field, with
   * the value for "=" and with another one for every other operator, and with k at least the size of the index all
   * of those that were upserted into it. No id comes twice if the saved list had one right vector per id and none
   * is doubled.
   */
  lemma SearchAnswersTheLog(
      actions: seq<Action>, s: State, f: Files, bodies: seq<string>, l: Libraries,
      r: FilterRequest, query: Vector, dist: Distance, k: nat, labels: seq<int>)
    requires Run(FRESH, actions) == Some(s) && CommitsAreLogged(actions)
    requires Holds(f, s.disk, bodies, l) && Legible(s.disk, bodies, l)
    requires Regular(s.disk.wal) && AllNarrow(s.disk.wal) && FilterSurvives(s.disk)
    ensures ReloadFiles(f, l).store.Some?
    ensures var w, ix := s.disk.wal, ReloadFiles(f, l).store.value.indexes;
            IsAnswer(ix.flat, Some(FilterBitmap(ix.filter, r)), query, dist, k, labels) ==>
              && (forall i :: 0 <= i < |labels| && labels[i] != -1 ==>
                    labels[i] >= 0 &&
                    var id: nat := labels[i];
                    && Last(w, id, Only(FLAT)).Some? && Last(w, id, Any).Some?
                    && var ints := Last(w, id, Any).value.ints;
                    && r.fieldName in ints && r.fieldName != "id" && -2147483648 <= ints[r.fieldName] <= 2147483647
                    && (r.op == "=" ==> ints[r.fieldName] == r.value) && (r.op != "=" ==> ints[r.fieldName] != r.value))
              && (k >= |ix.flat| ==> forall id: nat ::
                    && Last(w, id, Only(FLAT)).Some? && Last(w, id, Any).Some?
                    && (var ints := Last(w, id, Any).value.ints;
                        && r.fieldName in ints && r.fieldName != "id" && -2147483648 <= ints[r.fieldName] <= 2147483647
                        && (r.op == "=" <==> ints[r.fieldName] == r.value))
                    ==> id in labels)
              && (FlatCarried(s.disk) && NoneDoubled(s.disk) ==>
                    forall i, j :: 0 <= i < j < |labels| && labels[i] != -1 ==> labels[i] != labels[j])
  {
    LoggedRunsRecoverFromFiles(actions, s, f, bodies, l);
    FilterAfterRecovery(actions, s, f, bodies, l);
    if s.disk.savedId <= FIRST_ID {
      FilterIsExactAfterFullReplay(actions, s, f, bodies, l);
    }
    var w, t := s.disk.wal, ReloadFiles(f, l).store.value;
    StoredIdsAreNarrow(w, t);
    if IsAnswer(t.indexes.flat, Some(FilterBitmap(t.indexes.filter, r)), query, dist, k, labels) {
      AnswersAreLogged(w, t, r, query, dist, k, labels);
      if FlatCarried(s.disk) && NoneDoubled(s.disk) {
        RecoveryIsLastWriterWins(actions, s, f, bodies, l);
        ReflectingIsOnce(w, t.indexes.flat);
      }
    }
  }

  lemma ReflectingIsOnce(w: Wal, flat: FlatIndex)
    requires ReflectsFlat(w, flat)
    ensures OncePerId(flat)
  {
    forall id ensures |VectorsOf(flat, id)| <= 1 {
      assert VectorsOf(flat, id) == VectorOf(Last(w, id, Only(FLAT)));
    }
  }

  lemma AnswersAreLogged(w: Wal, t: Store, r: FilterRequest, query: Vector, dist: Distance, k: nat, labels: seq<int>)
    requires ReflectsDocs(w, t) && FlatNewest(w, |w|, t.indexes.flat) && Agrees(t.scalar, t.indexes.filter)
    requires forall id :: id in t.scalar ==> Narrow(id)
    requires IsAnswer(t.indexes.flat, Some(FilterBitmap(t.indexes.filter, r)), query, dist, k, labels)
    ensures forall i :: 0 <= i < |labels| && labels[i] != -1 ==> IsHitOf(w, r, labels[i])
    ensures k >= |t.indexes.flat| ==> forall id: nat :: LogSays(w, r, id) ==> id in labels
    ensures OncePerId(t.indexes.flat) ==> forall i, j :: 0 <= i < j < |labels| && labels[i] != -1 ==> labels[i] != labels[j]
  {
    forall id ensures VectorsOf(t.indexes.flat, id) != [] ==> id in t.scalar {
      ListedIsLogged(w, t, id);
    }
    FilteredSearch(t.scalar, t.indexes, r, query, dist, k, labels);
    forall i | 0 <= i < |labels| && labels[i] != -1 ensures IsHitOf(w, r, labels[i]) {
      HitsAreLogged(w, t, r, labels[i]);
    }
    if k >= |t.indexes.flat| {
      forall id: nat | LogSays(w, r, id) ensures id in labels {
        HitsAreLogged(w, t, r, id);
      }
    }
  }
}
