/** The recovery theorems on the bytes of the files: `RecoveryTheorems` joined with the two text formats. */
module RecoveryFromFiles {
  import opened Documents
  import opened IntFieldFilter
  import opened LogStore
  import opened Durability
  import opened Settledness
  import opened ReplayTheory
  import opened RecoveryRuns
  import opened FlatListRuns
  import opened RecoveryTheorems
  import opened ShortfallRuns
  import opened TextFormats
  import opened FilterDump
  import opened TextReplay
  import opened TornLines
  import opened SavedFiles

  /** The files on a disk, when the logged documents came in the given request bodies. */
  ghost predicate Holds(f: Files, d: Disk, bodies: seq<string>, l: Libraries) {
    && Logs(d.wal, bodies, l.parse)
    && f.scalar == d.scalar && f.flat == d.saved.flat && f.hnsw == d.saved.hnsw && f.maxLogID == d.savedId
    && f.wal == WalText(EntriesOf(d.wal, bodies))
    && IsDumpOf(f.filter, d.saved.filter, l.codec)
  }

  /** No request body and no saved bitmap or field name gets in the way of the two formats. */
  ghost predicate Legible(d: Disk, bodies: seq<string>, l: Libraries) {
    && |bodies| == |d.wal| && Storable(d.wal, bodies, d.savedId)
    && FilterDump.Faithful(l.codec) && CleanFilter(d.saved.filter, l.codec)
  }

  /** In every run, parsing legible files and applying what comes out is the reload of the records and indexes. */
  lemma FilesReload(actions: seq<Action>, s: State, f: Files, bodies: seq<string>, l: Libraries)
    requires Run(FRESH, actions) == Some(s)
    requires Holds(f, s.disk, bodies, l) && Legible(s.disk, bodies, l)
    ensures ReloadFiles(f, l).store == Reload(s.disk)
    ensures Reload(s.disk).Some? ==> ReloadFiles(f, l).increaseID == Highest(s.disk.wal)
  {
    RunKeepsIds(actions);
    DumpLoadsBack(s.disk.saved.filter, f.filter, l.codec);
    TextReplayIsReplay(s.disk.wal, bodies, s.disk.savedId, l.parse, Loaded(s.disk));
  }

  /**
   * Recovery is last-writer-wins, in every run, whatever it did and wherever it was cut off. A reload from
   * legible files finishes exactly when each replayed record finds all its integer fields in the document of its
   * id before it. Then the stored documents and HNSW labels are those of the last upsert of each id (and type)
   * exactly when the ids that are not replayed were so already; and the FLAT list has one vector for each id that
   * was upserted into it, the last, exactly when the same holds of the saved list and no id is doubled.
   */
  lemma RecoveryIsLastWriterWins(actions: seq<Action>, s: State, f: Files, bodies: seq<string>, l: Libraries)
    requires Run(FRESH, actions) == Some(s)
    requires Holds(f, s.disk, bodies, l) && Legible(s.disk, bodies, l)
    ensures ReloadFiles(f, l).store.Some? <==> forall q :: !AbortsAt(s.disk, q)
    ensures ReloadFiles(f, l).store.Some? ==>
              (var r := ReloadFiles(f, l).store.value;
               && (ReflectsDocs(s.disk.wal, r) <==> DocsCarried(s.disk))
               && (ReflectsFlat(s.disk.wal, r.indexes.flat) <==> FlatCarried(s.disk) && NoneDoubled(s.disk)))
  {
    FilesReload(actions, s, f, bodies, l);
    ReloadFinishesIff(actions, s);
    if Reload(s.disk).Some? {
      ReloadIsLastWriterWins(actions, s);
    }
  }

  /**
   * What guarantees these conditions. Runs that commit logged entries only recover documents, labels and the
   * newest FLAT vector of each id, and finish if documents keep their fields; if moreover no snapshot saves the
   * FLAT list inside a commit, they recover everything.
   */
  lemma LoggedRunsRecoverFromFiles(actions: seq<Action>, s: State, f: Files, bodies: seq<string>, l: Libraries)
    requires Run(FRESH, actions) == Some(s) && CommitsAreLogged(actions)
    requires Holds(f, s.disk, bodies, l) && Legible(s.disk, bodies, l)
    ensures Regular(s.disk.wal) ==> ReloadFiles(f, l).store.Some?
    ensures ReloadFiles(f, l).store.Some? ==>
              (var w, r := s.disk.wal, ReloadFiles(f, l).store.value;
               && ReflectsDocs(w, r) && FlatNewest(w, |w|, r.indexes.flat)
               && (SnapshotsAreQuiet(actions) ==> Reflects(w, r)))
  {
    FilesReload(actions, s, f, bodies, l);
    LoggedRunsRecover(actions, s);
    if Reload(s.disk).Some? && SnapshotsAreQuiet(actions) {
      QuietRunsRecover(actions, s);
    }
  }

  /** The newest vector of an id, and where it stands in the list. */
  lemma {:induction false} NewestStands(flat: FlatIndex, id: nat)
    ensures VectorsOf(flat, id) == [] <==> forall p :: 0 <= p < |flat| ==> flat[p].0 != id
    ensures VectorsOf(flat, id) != [] ==>
              exists p :: 0 <= p < |flat| && flat[p] == (id, VectorsOf(flat, id)[|VectorsOf(flat, id)| - 1])
                          && forall q :: p < q < |flat| ==> flat[q].0 != id
    decreases |flat|
  {
    if flat != [] {
      var front, last := flat[..|flat| - 1], flat[|flat| - 1];
      NewestStands(front, id);
      if last.0 == id {
        assert flat[|flat| - 1] == (id, last.1);
      } else if VectorsOf(front, id) != [] {
        var p :| 0 <= p < |front| && front[p] == (id, VectorsOf(front, id)[|VectorsOf(front, id)| - 1])
                 && forall q :: p < q < |front| ==> front[q].0 != id;
        assert flat[p] == front[p] && forall q :: p < q < |flat| ==> flat[q].0 != id;
      }
      if forall p :: 0 <= p < |flat| ==> flat[p].0 != id {
        assert forall p :: 0 <= p < |front| ==> front[p] == flat[p];
      }
      if forall p :: 0 <= p < |front| ==> front[p].0 != id {
        assert forall p :: 0 <= p < |front| ==> flat[p] == front[p];
      }
    }
  }

  /** What a store that reflects the log holds for the record at `j`, by position: its document, label and vector. */
  lemma ReflectedRecord(w: Wal, r: Store, j: nat)
    requires ReflectsDocs(w, r) && FlatNewest(w, |w|, r.indexes.flat) && j < |w|
    ensures var d := w[j].payload;
            && ((forall i :: j < i < |w| ==> w[i].payload.id != d.id) ==> d.id in r.scalar && r.scalar[d.id] == d)
            && (d.indexType == HNSW && (forall i :: j < i < |w| ==> !(w[i].payload.id == d.id && w[i].payload.indexType == HNSW))
                ==> d.id in r.indexes.hnsw && r.indexes.hnsw[d.id] == d.vector)
            && (d.indexType == FLAT && (forall i :: j < i < |w| ==> !(w[i].payload.id == d.id && w[i].payload.indexType == FLAT))
                ==> exists p :: 0 <= p < |r.indexes.flat| && r.indexes.flat[p] == (d.id, d.vector)
                                && forall q :: p < q < |r.indexes.flat| ==> r.indexes.flat[q].0 != d.id)
  {
    var d := w[j].payload;
    if forall i :: j < i < |w| ==> w[i].payload.id != d.id {
      LastIsLatest(w, d.id, Any, j);
      assert At(r.scalar, d.id) == Some(d);
    }
    if d.indexType == HNSW && forall i :: j < i < |w| ==> !(w[i].payload.id == d.id && w[i].payload.indexType == HNSW) {
      LastIsLatest(w, d.id, Only(HNSW), j);
      assert LabelOf(r.indexes.hnsw, d.id) == [d.vector];
    }
    if d.indexType == FLAT && forall i :: j < i < |w| ==> !(w[i].payload.id == d.id && w[i].payload.indexType == FLAT) {
      LastIsLatest(w, d.id, Only(FLAT), j);
      NewestStands(r.indexes.flat, d.id);
      assert w[|w|..] == [];
      assert FlatNewestAt(w, |w|, r.indexes.flat, d.id);
    }
  }

  lemma UnloggedIsAbsent(w: Wal, r: Store, id: nat)
    requires ReflectsDocs(w, r) && FlatNewest(w, |w|, r.indexes.flat)
    requires forall i :: 0 <= i < |w| ==> w[i].payload.id != id
    ensures id !in r.scalar && id !in r.indexes.hnsw && forall p :: 0 <= p < |r.indexes.flat| ==> r.indexes.flat[p].0 != id
  {
    if Last(w, id, Any).Some? { LastIsThere(w, id, Any); }
    if Last(w, id, Only(HNSW)).Some? { LastIsThere(w, id, Only(HNSW)); }
    if Last(w, id, Only(FLAT)).Some? { LastIsThere(w, id, Only(FLAT)); }
    assert At(r.scalar, id) == None;
    assert LabelOf(r.indexes.hnsw, id) == [];
    assert w[|w|..] == [];
    assert FlatNewestAt(w, |w|, r.indexes.flat, id);
    NewestStands(r.indexes.flat, id);
  }

  /**
   * By position: after a finished reload of a run that commits logged entries only, a record that no later one of
   * its id follows is the stored document; one that no later HNSW record of its id follows gives the label its
   * vector; one that no later FLAT record follows gives the id the last of its vectors in the list. An id that is
   * not in the log is nowhere.
   */
  lemma LastWriterByPosition(actions: seq<Action>, s: State, f: Files, bodies: seq<string>, l: Libraries, j: nat, id: nat)
    requires Run(FRESH, actions) == Some(s) && CommitsAreLogged(actions)
    requires Holds(f, s.disk, bodies, l) && Legible(s.disk, bodies, l)
    requires ReloadFiles(f, l).store.Some? && j < |s.disk.wal|
    ensures var w, r := s.disk.wal, ReloadFiles(f, l).store.value;
            var d := w[j].payload;
            && ((forall i :: j < i < |w| ==> w[i].payload.id != d.id) ==> d.id in r.scalar && r.scalar[d.id] == d)
            && (d.indexType == HNSW && (forall i :: j < i < |w| ==> !(w[i].payload.id == d.id && w[i].payload.indexType == HNSW))
                ==> d.id in r.indexes.hnsw && r.indexes.hnsw[d.id] == d.vector)
            && (d.indexType == FLAT && (forall i :: j < i < |w| ==> !(w[i].payload.id == d.id && w[i].payload.indexType == FLAT))
                ==> exists p :: 0 <= p < |r.indexes.flat| && r.indexes.flat[p] == (d.id, d.vector)
                                && forall q :: p < q < |r.indexes.flat| ==> r.indexes.flat[q].0 != d.id)
            && ((forall i :: 0 <= i < |w| ==> w[i].payload.id != id) ==>
                  && id !in r.scalar && id !in r.indexes.hnsw
                  && forall p :: 0 <= p < |r.indexes.flat| ==> r.indexes.flat[p].0 != id)
  {
    LoggedRunsRecoverFromFiles(actions, s, f, bodies, l);
    var w, r := s.disk.wal, ReloadFiles(f, l).store.value;
    ReflectedRecord(w, r, j);
    if forall i :: 0 <= i < |w| ==> w[i].payload.id != id {
      UnloggedIsAbsent(w, r, id);
    }
  }

  /**
   * The filter after recovery from legible files. Every document is in the bitmaps of its stored values; the
   * bitmaps hold nothing else exactly when each saved bit belongs to the value stored at the time of the crash
   * or to a value that the replayed records write.
   */
  lemma FilterAfterRecovery(actions: seq<Action>, s: State, f: Files, bodies: seq<string>, l: Libraries)
    requires Run(FRESH, actions) == Some(s) && CommitsAreLogged(actions)
    requires Regular(s.disk.wal)
    requires Holds(f, s.disk, bodies, l) && Legible(s.disk, bodies, l)
    ensures ReloadFiles(f, l).store.Some?
    ensures var r := ReloadFiles(f, l).store.value;
            && (forall id, f, v :: id in r.scalar && Has(r.scalar[id], f, v) ==> id in Bits(r.indexes.filter, f, v))
            && (Agrees(r.scalar, r.indexes.filter) <==> BitsAccounted(s.disk.wal, Claimed(s.disk), Loaded(s.disk)))
  {
    FilesReload(actions, s, f, bodies, l);
    FilterAfterReload(actions, s);
  }

  /** The bitmaps of a complete filter, and of an exact one, in numbers and against the log. */
  lemma BitsOfLast(w: Wal, r: Store, id: nat, field: string, v: int)
    requires ReflectsDocs(w, r)
    requires forall i, f, u :: i in r.scalar && Has(r.scalar[i], f, u) ==> i in Bits(r.indexes.filter, f, u)
    ensures var last := Last(w, id, Any);
            var carries := last.Some? && field in last.value.ints && field != "id" && last.value.ints[field] == v
                           && -2147483648 <= v <= 2147483647;
            && (carries ==> id in Bits(r.indexes.filter, field, v))
            && (Agrees(r.scalar, r.indexes.filter) ==> (id in Bits(r.indexes.filter, field, v) <==> carries))
  {
    assert At(r.scalar, id) == Last(w, id, Any);
    assert id in r.scalar ==> (Has(r.scalar[id], field, v) ==> id in Bits(r.indexes.filter, field, v));
  }

  /**
   * In numbers, against the log: a recovered bitmap holds the id if its last logged upsert has the value in the
   * field, other than the id and in 32 bits, and if the saved bits are accounted for it holds no other id.
   */
  lemma RecoveredBits(actions: seq<Action>, s: State, f: Files, bodies: seq<string>, l: Libraries, id: nat, field: string, v: int)
    requires Run(FRESH, actions) == Some(s) && CommitsAreLogged(actions)
    requires Regular(s.disk.wal)
    requires Holds(f, s.disk, bodies, l) && Legible(s.disk, bodies, l)
    ensures ReloadFiles(f, l).store.Some?
    ensures var last, bits := Last(s.disk.wal, id, Any), Bits(ReloadFiles(f, l).store.value.indexes.filter, field, v);
            var carries := last.Some? && field in last.value.ints && field != "id" && last.value.ints[field] == v
                           && -2147483648 <= v <= 2147483647;
            && (carries ==> id in bits)
            && (BitsAccounted(s.disk.wal, Claimed(s.disk), Loaded(s.disk)) ==> (id in bits <==> carries))
  {
    FilterAfterRecovery(actions, s, f, bodies, l);
    LoggedRunsRecoverFromFiles(actions, s, f, bodies, l);
    BitsOfLast(s.disk.wal, ReloadFiles(f, l).store.value, id, field, v);
  }

  /** As long as no snapshot of a later epoch has been completed, the recovered filter is exact. */
  lemma FilterIsExactAfterFullReplay(actions: seq<Action>, s: State, f: Files, bodies: seq<string>, l: Libraries)
    requires Run(FRESH, actions) == Some(s) && CommitsAreLogged(actions)
    requires Regular(s.disk.wal) && s.disk.savedId <= FIRST_ID
    requires Holds(f, s.disk, bodies, l) && Legible(s.disk, bodies, l)
    ensures ReloadFiles(f, l).store.Some?
    ensures Agrees(ReloadFiles(f, l).store.value.scalar, ReloadFiles(f, l).store.value.indexes.filter)
  {
    FilterAfterRecovery(actions, s, f, bodies, l);
    FullReplayAccountsForBits(actions, s);
  }

  // ---------------------------------------------------------------------------------------------
  // Files that are not legible
  // ---------------------------------------------------------------------------------------------

  const TEN := Doc(10, FLAT, [], map["f" := 1])

  lemma TenIsCommitted() returns (actions: seq<Action>, s: State)
    ensures Reaches(actions, s) && s.proc.Running? && s.proc.snapshots == []
    ensures s.disk.wal == [WalRecord(11, TEN)]
    ensures s.proc.ix.filter == Reindexed(map[], None, TEN)
  {
    actions, s := FirstCommit(TEN);
  }

  lemma TenIsSaved() returns (actions: seq<Action>, s: State)
    ensures Reaches(actions, s) && s.proc.Down?
    ensures s.disk.wal == [WalRecord(11, TEN)]
    ensures s.disk.saved.filter == Reindexed(map[], None, TEN)
  {
    actions, s := TenIsCommitted();
    actions, s := GoSnapshot(actions, s);
    actions, s := Go(actions, s, Crash);
  }

  lemma FilterOfTen()
    ensures Reindexed(map[], None, TEN) == map["f" := map[1 := {10}]]
  {
    assert IntFields(TEN).Keys == {"f"};
    var filter := Reindexed(map[], None, TEN);
    assert filter.Keys == {"f"};
    assert BitmapOf(map[], 1) + {Bit(10)} == {10};
    assert filter["f"] == Moved(map[], None, 1, 10) == map[1 := {10}];
  }

  /**
   * One document with the id 10, committed, and a snapshot: whatever the libraries do otherwise, the server does
   * not start again.
   */
  lemma IdTenStopsTheServer() returns (actions: seq<Action>, s: State)
    ensures Reaches(actions, s) && Regular(s.disk.wal) && CommitsAreLogged(actions)
    ensures forall f, bodies, l :: Holds(f, s.disk, bodies, l) && l.codec.ser({10}) == PORTABLE_TEN ==>
              ReloadFiles(f, l).store.None?
  {
    actions, s := TenIsSaved();
    FilterOfTen();
    UnpackedCommitsAreLogged(actions);
    forall f, bodies, l | Holds(f, s.disk, bodies, l) && l.codec.ser({10}) == PORTABLE_TEN
      ensures ReloadFiles(f, l).store.None?
    {
      IdTenStopsTheLoad(s.disk.saved.filter, l.codec, "f", 1, f.filter);
    }
  }

  /** A request body over two lines, the second of which is not a number, logged and not even committed. */
  lemma NewlineInBodyStopsTheServer(d: Doc, a: string, b: string) returns (actions: seq<Action>, s: State)
    requires '\n' !in a && '\n' !in b && Stoull(UpTo(b, '|')).None?
    ensures Reaches(actions, s)
    ensures forall f, bodies, l :: Holds(f, s.disk, bodies, l) && bodies == [a + "\n" + b] ==> ReloadFiles(f, l).store.None?
  {
    actions, s := FirstWrite(d);
    actions, s := Go(actions, s, Crash);
    forall f, bodies, l | Holds(f, s.disk, bodies, l) && bodies == [a + "\n" + b]
      ensures ReloadFiles(f, l).store.None?
    {
      BrokenBodyStops(f, s.disk, bodies, l, a, b);
    }
  }

  lemma BrokenBodyStops(f: Files, d: Disk, bodies: seq<string>, l: Libraries, a: string, b: string)
    requires Holds(f, d, bodies, l) && bodies == [a + "\n" + b] && |d.wal| == 1 && d.wal[0].id == 11 && d.savedId == 0
    requires '\n' !in a && '\n' !in b && Stoull(UpTo(b, '|')).None?
    ensures ReloadFiles(f, l).store.None?
  {
    var e := Entry(11, VERSION, UPSERT, a + "\n" + b);
    EntriesTail(d.wal, bodies, 0);
    assert EntriesOf(d.wal, bodies)[0..] == EntriesOf(d.wal, bodies) && EntriesOf(d.wal, bodies)[1..] == [];
    NewlineInPayloadThrows(e, a, b, "", "", 0);
    match LoadFilter(f.filter, l.codec)
    case None =>
    case Some(filter) =>
      ThrowingTextStops(f.wal, "", 0, FIRST_ID, l.parse, Store(f.scalar, Indexes(f.flat, f.hnsw, filter)));
  }

  // ---------------------------------------------------------------------------------------------
  // A log whose last line is cut off
  // ---------------------------------------------------------------------------------------------

  /**
   * A crash in the middle of an append, after any run: the reload is the one without the torn line, which is
   * passed over or else hands the prefix of its document to the parser.
   */
  lemma TornAppendReload(actions: seq<Action>, s: State, f: Files, bodies: seq<string>, l: Libraries,
                         id: nat, payload: string, m: nat)
    requires Run(FRESH, actions) == Some(s)
    requires Holds(f, s.disk, bodies, l) && Legible(s.disk, bodies, l)
    requires m <= |EntryLine(UpsertEntry(id, payload))| && id < 0x1_0000_0000_0000_0000 && '\n' !in payload
    ensures var r := ReloadFiles(f.(wal := f.wal + Torn(id, payload, m)), l).store;
            var whole, handed := Reload(s.disk), HandsTorn(s.disk.wal, s.disk.savedId, id, m);
            && (whole.None? ==> r.None?)
            && (whole.Some? && !handed ==> r == whole)
            && (whole.Some? && handed ==>
                  r == (var d := l.parse(TornPayload(id, payload, m)); if d.None? then None else Upsert(whole.value, d.value)))
  {
    RunKeepsIds(actions);
    DumpLoadsBack(s.disk.saved.filter, f.filter, l.codec);
    TornLineReload(s.disk.wal, bodies, s.disk.savedId, id, payload, m, l.parse, Loaded(s.disk));
  }

  /** A line with the id 12 behind a legible log, cut off before its operation; a parser that refuses empty text. */
  ghost predicate CutBeforeOperation(f: Files, d: Disk, bodies: seq<string>, l: Libraries, payload: string, m: nat) {
    && Holds(f, d, bodies, l) && Legible(d, bodies, l) && l.parse("").None?
    && '\n' !in payload && 2 <= m <= 6 && m <= |EntryLine(UpsertEntry(12, payload))|
  }

  lemma DownAfterSnapshot() returns (actions: seq<Action>, s: State)
    ensures Reaches(actions, s) && s.proc.Down?
    ensures s.disk.wal == [OLD_RECORD] && s.disk.savedId == 11
  {
    actions, s := SnapshotInSecondEpoch();
    actions, s := Go(actions, s, Crash);
  }

  /**
   * A snapshot that claims the whole log, and a crash in the first append after it, between the end of the id and
   * the operation: the operation of the skipped line before is taken for that of the torn one, its empty document
   * does not parse, and the server does not start.
   */
  lemma TornAfterSnapshotStopsTheServer() returns (actions: seq<Action>, s: State)
    ensures Reaches(actions, s) && s.proc.Down? && CommitsAreLogged(actions)
    ensures forall f, bodies, l, payload, m :: CutBeforeOperation(f, s.disk, bodies, l, payload, m) ==>
              ReloadFiles(f.(wal := f.wal + Torn(12, payload, m)), l).store.None?
  {
    actions, s := DownAfterSnapshot();
    UnpackedCommitsAreLogged(actions);
    forall f, bodies, l, payload, m | CutBeforeOperation(f, s.disk, bodies, l, payload, m)
      ensures ReloadFiles(f.(wal := f.wal + Torn(12, payload, m)), l).store.None?
    {
      TornAppendReload(actions, s, f, bodies, l, 12, payload, m);
      TornTwelve(s.disk.wal, payload, m);
    }
  }

  lemma TornTwelve(w: Wal, payload: string, m: nat)
    requires w == [OLD_RECORD] && 2 <= m <= 6
    ensures HandsTorn(w, 11, 12, m) && TornPayload(12, payload, m) == ""
  {
    assert Decimal(12) == "12";
    TornIdReads(12, m);
    CutIff("");
  }
}
