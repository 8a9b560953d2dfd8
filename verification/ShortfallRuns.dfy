/**
 * Runs that show where recovery falls short, and how. Each is built step by step from the first start on, by lemmas
 * that return the actions and the state they lead to: a bitmap bit that outlives its value, a vector that is in the
 * FLAT list twice and stays there, an upsert that no reload gets past, an entry that never reached the log, and one
 * that never left it. Every condition of the theorems about a reload fails in one of them.
 */
module ShortfallRuns {
  import opened Documents
  import opened IntFieldFilter
  import opened LogStore
  import opened Durability
  import opened Settledness
  import opened ReplayTheory
  import opened RecoveryRuns
  import opened FlatListRuns
  import opened RecoveryTheorems

  lemma Extend(actions: seq<Action>, s: State, a: Action) returns (actions': seq<Action>, s': State)
    requires Run(FRESH, actions) == Some(s) && Step(s, a).Some?
    ensures actions' == actions + [a] && Run(FRESH, actions') == Some(s') && Step(s, a) == Some(s')
  {
    RunSnoc(FRESH, actions, a);
    actions', s' := actions + [a], Step(s, a).value;
  }

  /** A run from the first start on, without packed entries. */
  ghost predicate Reaches(actions: seq<Action>, s: State) {
    Run(FRESH, actions) == Some(s) && forall k :: 0 <= k < |actions| ==> !actions[k].ApplyPack?
  }

  lemma Go(actions: seq<Action>, s: State, a: Action) returns (actions': seq<Action>, s': State)
    requires Reaches(actions, s) && Step(s, a).Some? && !a.ApplyPack?
    ensures Reaches(actions', s') && Step(s, a) == Some(s')
  {
    actions', s' := Extend(actions, s, a);
  }

  /** Commits and stores an entry. */
  lemma GoCommit(actions: seq<Action>, s: State, index: nat) returns (actions': seq<Action>, s': State)
    requires Reaches(actions, s) && Step(s, Commit(index)).Some?
    requires Upsert(StoreOf(s), s.proc.log.entries[index].payload).Some?
    ensures Reaches(actions', s') && s'.proc.Running?
    ensures var r := Upsert(StoreOf(s), s.proc.log.entries[index].payload).value;
            s' == State(s.disk.(scalar := r.scalar), s.proc.(ix := r.indexes))
  {
    actions', s' := GoIndex(actions, s, index);
    actions', s' := Go(actions', s', StoreDoc);
  }

  /** All of a commit but its end; the process may have gone down. */
  lemma GoIndex(actions: seq<Action>, s: State, index: nat) returns (actions': seq<Action>, s': State)
    requires Reaches(actions, s) && Step(s, Commit(index)).Some?
    ensures Reaches(actions', s') && s'.disk == s.disk
    ensures var r := Upsert(StoreOf(s), s.proc.log.entries[index].payload);
            && (s'.proc.Down? <==> r.None?)
            && (s'.proc.Running? ==> Step(s', StoreDoc) == Some(State(s.disk.(scalar := r.value.scalar), s.proc.(ix := r.value.indexes))))
            && !s'.proc.Reloading?
  {
    var fields := IntFields(s.proc.log.entries[index].payload).Keys;
    actions', s' := Go(actions, s, Commit(index));
    ghost var s1 := s';
    actions', s' := Go(actions', s', InsertVector);
    ghost var s2 := s';
    actions', s' := Go(actions', s', IndexFields(fields));
    CommitIsUpsert(s, index, s1, s2, s');
  }

  const OLD_DOC := Doc(7, FLAT, [], map["f" := 1])
  const NEW_DOC := Doc(7, FLAT, [], map["f" := 2])

  const OLD_RECORD := WalRecord(11, OLD_DOC)
  const NEW_RECORD := WalRecord(12, NEW_DOC)

  lemma FirstService() returns (actions: seq<Action>, s: State)
    ensures Reaches(actions, s)
    ensures s == State(FRESH.disk, Running(EMPTY, None, FIRST_ID, 0, Fresh(FIRST_ID, NO_DOC), []))
  {
    actions, s := Go([], FRESH, Start);
    actions, s := Go(actions, s, Serve);
  }

  lemma FirstWrite(d: Doc) returns (actions: seq<Action>, s: State)
    ensures Reaches(actions, s)
    ensures s.disk == Disk(map[], [WalRecord(11, d)], EMPTY, 0)
    ensures s.proc.Running? && s.proc.ix == EMPTY && s.proc.pending.None? && s.proc.snapshots == []
    ensures s.proc.increaseID == FIRST_ID && s.proc.log == Appended(Fresh(FIRST_ID, NO_DOC), LogEntry(1, true, d))
    ensures At(s.proc.log.entries, 11) == Some(LogEntry(1, true, d))
  {
    actions, s := FirstService();
    actions, s := Go(actions, s, Append(LogEntry(1, true, d)));
  }

  lemma FirstCommit(d: Doc) returns (actions: seq<Action>, s: State)
    ensures Reaches(actions, s)
    ensures s.disk == Disk(map[d.id := d], [WalRecord(11, d)], EMPTY, 0)
    ensures s.proc.Running? && s.proc.snapshots == [] && s.proc.increaseID == FIRST_ID && s.proc.pending.None?
    ensures s.proc.ix == UpsertIndexes(EMPTY, None, d)
    ensures s.proc.log == Appended(Fresh(FIRST_ID, NO_DOC), LogEntry(1, true, d))
  {
    actions, s := FirstWrite(d);
    actions, s := GoCommit(actions, s, 11);
  }

  lemma FirstCrash(d: Doc) returns (actions: seq<Action>, s: State)
    ensures Reaches(actions, s)
    ensures s == State(Disk(map[d.id := d], [WalRecord(11, d)], EMPTY, 0), Down)
  {
    actions, s := FirstCommit(d);
    actions, s := Go(actions, s, Crash);
  }

  lemma FirstReload() returns (actions: seq<Action>, s: State)
    ensures Reaches(actions, s)
    ensures s.disk == Disk(map[7 := OLD_DOC], [OLD_RECORD], EMPTY, 0)
    ensures s.proc.Reloading? && s.proc.pos == 1 && s.proc.increaseID == 11
    ensures 7 in Bits(s.proc.ix.filter, "f", 1)
  {
    actions, s := FirstCrash(OLD_DOC);
    actions, s := Go(actions, s, Start);
    actions, s := Go(actions, s, ReplayNext);
    assert Has(OLD_DOC, "f", 1);
    ReindexedBits(map[], Some(OLD_DOC), OLD_DOC, "f", 1, 7);
    assert s.disk.scalar == map[7 := OLD_DOC];
  }

  /** One document written and committed, a crash, and a reload that reads it back: the second epoch starts at 12. */
  lemma FirstEpoch() returns (actions: seq<Action>, s: State)
    ensures Reaches(actions, s)
    ensures s.disk == Disk(map[7 := OLD_DOC], [OLD_RECORD], EMPTY, 0)
    ensures s.proc.Running? && s.proc.increaseID == 11 && s.proc.snapshots == [] && s.proc.pending.None?
    ensures s.proc.log == Fresh(11, NO_DOC)
    ensures 7 in Bits(s.proc.ix.filter, "f", 1)
  {
    actions, s := FirstReload();
    actions, s := Go(actions, s, Serve);
  }

  /** A whole snapshot with nothing else going on. */
  lemma GoSnapshot(actions: seq<Action>, s: State) returns (actions': seq<Action>, s': State)
    requires Reaches(actions, s) && s.proc.Running? && s.proc.snapshots == []
    ensures Reaches(actions', s')
    ensures s'.disk == s.disk.(saved := s.proc.ix, savedId := s.proc.increaseID)
    ensures s'.proc == s.proc.(lastSnapshotID := s.proc.increaseID, snapshots := [Done])
  {
    actions', s' := Go(actions, s, TakeSnapshot);
    actions', s' := Go(actions', s', SnapshotStep(0));
    actions', s' := Go(actions', s', SnapshotStep(0));
    actions', s' := Go(actions', s', SnapshotStep(0));
    actions', s' := Go(actions', s', SnapshotStep(0));
    actions', s' := Go(actions', s', SnapshotStep(0));
  }

  /** The second epoch: a snapshot, which claims id 11 and saves the bit of the old value. */
  lemma SnapshotInSecondEpoch() returns (actions: seq<Action>, s: State)
    ensures Reaches(actions, s)
    ensures s.disk.scalar == map[7 := OLD_DOC] && s.disk.wal == [OLD_RECORD] && s.disk.savedId == 11
    ensures s.proc.Running? && s.proc.log == Fresh(11, NO_DOC) && s.proc.pending.None? && s.proc.snapshots == [Done]
    ensures 7 in Bits(s.disk.saved.filter, "f", 1)
  {
    actions, s := FirstEpoch();
    actions, s := GoSnapshot(actions, s);
  }

  lemma SecondWrite() returns (actions: seq<Action>, s: State)
    ensures Reaches(actions, s)
    ensures s.disk.scalar == map[7 := OLD_DOC] && s.disk.wal == [OLD_RECORD, NEW_RECORD] && s.disk.savedId == 11
    ensures s.proc.Running? && s.proc.pending.None? && At(s.proc.log.entries, 12) == Some(LogEntry(1, true, NEW_DOC))
    ensures 7 in Bits(s.disk.saved.filter, "f", 1)
  {
    actions, s := SnapshotInSecondEpoch();
    actions, s := Go(actions, s, Append(LogEntry(1, true, NEW_DOC)));
  }

  lemma SecondCrash() returns (actions: seq<Action>, s: State)
    ensures Reaches(actions, s)
    ensures s.disk.scalar == map[7 := NEW_DOC] && s.disk.wal == [OLD_RECORD, NEW_RECORD] && s.disk.savedId == 11
    ensures s.proc.Down? && 7 in Bits(s.disk.saved.filter, "f", 1)
  {
    actions, s := SecondWrite();
    assert IntFields(NEW_DOC).Keys == {"f"};
    actions, s := GoCommit(actions, s, 12);
    actions, s := Go(actions, s, Crash);
  }

  lemma SecondReload() returns (actions: seq<Action>, s: State)
    ensures Reaches(actions, s)
    ensures s.disk.scalar == map[7 := NEW_DOC] && s.disk.wal == [OLD_RECORD, NEW_RECORD]
    ensures s.proc.Reloading? && s.proc.pos == 1 && s.proc.lastSnapshotID == 11
    ensures 7 in Bits(s.proc.ix.filter, "f", 1)
  {
    actions, s := SecondCrash();
    actions, s := Go(actions, s, Start);
    actions, s := Go(actions, s, ReplayNext);
  }

  /**
   * A run of regular documents whose recovered filter is wrong: the value changes after the snapshot, and on
   * replay `upsert` takes the old value from the scalar store, which already holds the new one. The bit of the
   * old value stays for good.
   */
  lemma StaleBitSurvivesReload() returns (actions: seq<Action>, s: State)
    ensures Reaches(actions, s)
    ensures Regular(s.disk.wal)
    ensures s.proc.Reloading? && s.proc.pos == |s.disk.wal|
    ensures At(s.disk.scalar, 7) == Some(NEW_DOC) && !Has(NEW_DOC, "f", 1)
    ensures 7 in Bits(s.proc.ix.filter, "f", 1)
  {
    actions, s := SecondReload();
    assert IntFields(OLD_DOC).Keys == IntFields(NEW_DOC).Keys == {"f"};
    ReindexedBits(s.proc.ix.filter, Some(NEW_DOC), NEW_DOC, "f", 1, 7);
    actions, s := Go(actions, s, ReplayNext);
  }

  /** A second snapshot, as far as the opened id file. */
  lemma GoOpenIdFile(actions: seq<Action>, s: State) returns (actions': seq<Action>, s': State)
    requires Reaches(actions, s) && s.proc.Running? && s.proc.snapshots == [Done]
    ensures Reaches(actions', s')
    ensures s'.disk.savedId == 0 && s'.disk.wal == s.disk.wal && s'.disk.scalar == s.disk.scalar && s'.proc.Running?
  {
    actions', s' := Go(actions, s, TakeSnapshot);
    actions', s' := Go(actions', s', SnapshotStep(1));
    actions', s' := Go(actions', s', SnapshotStep(1));
    actions', s' := Go(actions', s', SnapshotStep(1));
    actions', s' := Go(actions', s', SnapshotStep(1));
  }

  /**
   * A crash between opening the id file and writing it: the file is empty and reads as 0, and the next reload
   * replays the whole log although the snapshot before claimed it.
   */
  lemma OpenedIdFileClaimsNothing() returns (actions: seq<Action>, s: State)
    ensures Reaches(actions, s) && s.proc.Down?
    ensures s.disk.wal == [OLD_RECORD] && s.disk.savedId == 0 && Claimed(s.disk) == 0
  {
    actions, s := SnapshotInSecondEpoch();
    actions, s := GoOpenIdFile(actions, s);
    actions, s := Go(actions, s, Crash);
  }

  // ---------------------------------------------------------------------------------------------
  // Snapshots inside a commit
  // ---------------------------------------------------------------------------------------------

  /** A snapshot saves the FLAT list between the parts of the first commit, and the process dies there. */
  lemma GoSnapshotInsideCommit(actions: seq<Action>, s: State, d: Doc) returns (actions': seq<Action>, s': State)
    requires Reaches(actions, s) && s.proc.Running? && s.proc.snapshots == [] && s.proc.pending.None?
    requires s.disk.scalar == map[] && s.proc.ix == EMPTY && At(s.proc.log.entries, 11) == Some(LogEntry(1, true, d))
    ensures Reaches(actions', s')
    ensures s' == State(s.disk.(saved := s.disk.saved.(flat := FlatAfter([], None, d))), Down)
  {
    actions', s' := Go(actions, s, TakeSnapshot);
    actions', s' := Go(actions', s', Commit(11));
    actions', s' := Go(actions', s', InsertVector);
    actions', s' := Go(actions', s', SnapshotStep(0));
    actions', s' := Go(actions', s', Crash);
  }

  /** The run in which a snapshot saves the FLAT list inside the first commit. */
  lemma CrashInsideCommit(d: Doc) returns (actions: seq<Action>, s: State)
    requires d.indexType == FLAT
    ensures Reaches(actions, s)
    ensures s == State(Disk(map[], [WalRecord(11, d)], Indexes([(d.id, d.vector)], map[], map[]), 0), Down)
  {
    actions, s := FirstWrite(d);
    actions, s := GoSnapshotInsideCommit(actions, s, d);
  }

  lemma TwoOfOne(d: Doc)
    ensures VectorsOf([(d.id, d.vector)], d.id) == [d.vector]
    ensures VectorsOf([(d.id, d.vector)] + [(d.id, d.vector)], d.id) == [d.vector, d.vector]
  {
    VectorsOfSnoc([], (d.id, d.vector), d.id);
    VectorsOfSnoc([(d.id, d.vector)], (d.id, d.vector), d.id);
    assert [] + [(d.id, d.vector)] == [(d.id, d.vector)];
  }

  /**
   * `upsert` writes the FLAT index before the scalar store, and a snapshot that saves the index in between leaves
   * a vector whose document is not stored: after a crash, replay adds a second one.
   */
  lemma SnapshotInsideCommitDuplicates(d: Doc) returns (actions: seq<Action>, s: State)
    requires d.indexType == FLAT
    ensures Reaches(actions, s)
    ensures Reload(s.disk).Some? && VectorsOf(Reload(s.disk).value.indexes.flat, d.id) == [d.vector, d.vector]
  {
    actions, s := CrashInsideCommit(d);
    var saved := Loaded(s.disk);
    assert Replay(s.disk.wal, 0, 0, saved) == Replay(s.disk.wal, 1, 0, Upsert(saved, d).value);
    TwoOfOne(d);
  }

  function Twice(d: Doc): FlatIndex {
    [(d.id, d.vector)] + [(d.id, d.vector)]
  }

  lemma DoubledReload(d: Doc) returns (actions: seq<Action>, s: State)
    requires d.indexType == FLAT
    ensures Reaches(actions, s)
    ensures s.disk.scalar == map[d.id := d] && s.disk.wal == [WalRecord(11, d)]
    ensures s.proc.Reloading? && s.proc.pos == 1 && s.proc.increaseID == 11 && s.proc.ix.flat == Twice(d)
  {
    actions, s := CrashInsideCommit(d);
    actions, s := Go(actions, s, Start);
    actions, s := Go(actions, s, ReplayNext);
  }

  lemma DoubledSnapshot(d: Doc) returns (actions: seq<Action>, s: State)
    requires d.indexType == FLAT
    ensures Reaches(actions, s)
    ensures s.disk.scalar == map[d.id := d] && s.disk.wal == [WalRecord(11, d)]
    ensures s.disk.saved.flat == Twice(d) && s.disk.savedId == 11
  {
    actions, s := DoubledReload(d);
    actions, s := Go(actions, s, Serve);
    actions, s := GoSnapshot(actions, s);
    actions, s := Go(actions, s, Crash);
  }

  /**
   * The second vector outlives the reload that brought it: saved by the next snapshot, it has a stored document
   * and nothing doubles it now, and yet every reload finds both.
   */
  lemma DuplicateOutlivesSnapshot(d: Doc) returns (actions: seq<Action>, s: State)
    requires d.indexType == FLAT
    ensures Reaches(actions, s)
    ensures At(s.disk.scalar, d.id) == Some(d) && NoneDoubled(s.disk) && !FlatCarried(s.disk)
    ensures Reload(s.disk).Some? && VectorsOf(Reload(s.disk).value.indexes.flat, d.id) == [d.vector, d.vector]
  {
    actions, s := DoubledSnapshot(d);
    assert Claimed(s.disk) == 1;
    TwoOfOne(d);
    AllClaimed(s.disk, d);
  }

  lemma AllClaimed(disk: Disk, d: Doc)
    requires disk.wal == [WalRecord(11, d)] && disk.savedId == 11 && d.indexType == FLAT
    requires VectorsOf(disk.saved.flat, d.id) == [d.vector, d.vector]
    ensures NoneDoubled(disk) && !FlatCarried(disk) && Reload(disk) == Some(Loaded(disk))
  {
    assert disk.wal[1..] == [];
    assert !FlatSettledAt(disk.wal, 1, disk.saved.flat, d.id);
    assert Replay(disk.wal, 0, 11, Loaded(disk)) == Replay(disk.wal, 1, 11, Loaded(disk));
  }

  lemma CrashWithLaterUpsert(d: Doc, d2: Doc) returns (actions: seq<Action>, s: State)
    requires d.indexType == FLAT
    ensures Reaches(actions, s)
    ensures s == State(Disk(map[], [WalRecord(11, d), WalRecord(12, d2)], Indexes([(d.id, d.vector)], map[], map[]), 0), Down)
  {
    actions, s := FirstWrite(d);
    actions, s := Go(actions, s, Append(LogEntry(1, true, d2)));
    actions, s := GoSnapshotInsideCommit(actions, s, d);
  }

  /**
   * Such a vector does no harm when the log upserts the id once more: the second replayed upsert finds the
   * document stored and removes both vectors. A list without a stored document behind every vector is therefore
   * not yet a wrong recovery.
   */
  lemma LaterUpsertRepairs(d: Doc, d2: Doc) returns (actions: seq<Action>, s: State)
    requires d.indexType == d2.indexType == FLAT && d.id == d2.id && IntFields(d).Keys == IntFields(d2).Keys == {}
    ensures Reaches(actions, s)
    ensures !FlatBacked(s.disk.saved.flat, s.disk.scalar)
    ensures Reload(s.disk).Some? && VectorsOf(Reload(s.disk).value.indexes.flat, d.id) == [d2.vector]
  {
    actions, s := CrashWithLaterUpsert(d, d2);
    TwoOfOne(d);
    assert d.id !in s.disk.scalar;
    var first := Upsert(Loaded(s.disk), d).value;
    var second := Upsert(first, d2).value;
    ReplayOfTwo(s.disk.wal, Loaded(s.disk), first, second);
    SecondOfTwoReplaces(Loaded(s.disk), d, first, d2, second);
  }

  lemma SecondOfTwoReplaces(s: Store, d: Doc, first: Store, d2: Doc, second: Store)
    requires Upsert(s, d) == Some(first) && Upsert(first, d2) == Some(second)
    requires d2.indexType == FLAT && d.id == d2.id
    ensures VectorsOf(second.indexes.flat, d.id) == [d2.vector]
  {
    VectorsAfterAnyUpsert(first.indexes.flat, Some(d), d2, d.id);
  }

  lemma ReplayOfTwo(w: Wal, s: Store, first: Store, second: Store)
    requires |w| == 2 && w[0].id > 0 && w[1].id > 0
    requires Upsert(s, w[0].payload) == Some(first) && Upsert(first, w[1].payload) == Some(second)
    ensures Replay(w, 0, 0, s) == Some(second)
  {
    assert Replay(w, 0, 0, s) == Replay(w, 1, 0, first) == Replay(w, 2, 0, second);
  }

  // ---------------------------------------------------------------------------------------------
  // A field that an earlier document lacks
  // ---------------------------------------------------------------------------------------------

  lemma AddedFieldIsLogged(d: Doc, d2: Doc) returns (actions: seq<Action>, s: State)
    ensures Reaches(actions, s)
    ensures s.disk == Disk(map[d.id := d], [WalRecord(11, d), WalRecord(12, d2)], EMPTY, 0)
    ensures s.proc.Running? && s.proc.pending.None? && At(s.proc.log.entries, 12) == Some(LogEntry(1, true, d2))
  {
    actions, s := FirstCommit(d);
    actions, s := Go(actions, s, Append(LogEntry(1, true, d2)));
  }

  lemma AddedField(d: Doc, d2: Doc) returns (actions: seq<Action>, s: State)
    requires d.id == d2.id && Aborts(Some(d), d2)
    ensures Reaches(actions, s)
    ensures s == State(Disk(map[d.id := d], [WalRecord(11, d), WalRecord(12, d2)], EMPTY, 0), Down)
  {
    actions, s := AddedFieldIsLogged(d, d2);
    actions, s := GoIndex(actions, s, 12);
  }

  /**
   * An upsert that brings an integer field which the stored document of its id lacks trips the assertion. It is in
   * the log by then, and no reload gets past it: after one such request the server never serves again.
   */
  lemma AddedFieldStopsTheServer(d: Doc, d2: Doc) returns (actions: seq<Action>, s: State)
    requires d.id == d2.id && Aborts(Some(d), d2)
    ensures Reaches(actions, s) && s.proc.Down? && At(s.disk.scalar, d.id) == Some(d)
    ensures Reload(s.disk).None?
    ensures forall more :: Run(s, more).Some? ==> !Run(s, more).value.proc.Running?
  {
    actions, s := AddedField(d, d2);
    var w := s.disk.wal;
    AllAbove(w, 0);
    assert w[0..1] == [WalRecord(11, d)] && [WalRecord(11, d)][..0] == [];
    assert FoundBy(w, 0, 1, s.disk.scalar) == Some(d);
    assert AbortsAt(s.disk, 1);
    ReloadFinishesIff(actions, s);
    ServesAgainIff(actions, s);
  }

  // ---------------------------------------------------------------------------------------------
  // Entries that bypass the log or outlive their place in it
  // ---------------------------------------------------------------------------------------------

  lemma PackedEntryIsCommitted(d: Doc) returns (actions: seq<Action>, s: State)
    ensures Run(FRESH, actions) == Some(s)
    ensures s.disk == FRESH.disk && s.proc.Running? && s.proc.pending == Some(OldGone(d))
  {
    actions, s := FirstService();
    var es := [LogEntry(1, true, d)];
    MergedContents(s.proc.log.entries, 11, es);
    actions, s := Extend(actions, s, ApplyPack(11, es));
    actions, s := Extend(actions, s, Commit(11));
  }

  lemma PackedEntryIsIndexed(d: Doc) returns (actions: seq<Action>, s: State)
    ensures Run(FRESH, actions) == Some(s)
    ensures s.disk == FRESH.disk && s.proc.Running? && s.proc.pending == Some(Indexing(d, IntFields(d).Keys))
  {
    actions, s := PackedEntryIsCommitted(d);
    actions, s := Extend(actions, s, InsertVector);
    assert {} + IntFields(d).Keys == IntFields(d).Keys;
    actions, s := Extend(actions, s, IndexFields(IntFields(d).Keys));
  }

  lemma PackedEntryIsStored(d: Doc) returns (actions: seq<Action>, s: State)
    ensures Run(FRESH, actions) == Some(s)
    ensures s.disk == FRESH.disk.(scalar := map[d.id := d]) && s.proc.Down?
  {
    actions, s := PackedEntryIsIndexed(d);
    actions, s := Extend(actions, s, StoreDoc);
    actions, s := Extend(actions, s, Crash);
  }

  /**
   * A packed entry never reaches the WAL: committed, and gone with the next crash, but for its document. The
   * vector is lost.
   */
  lemma PackedEntryLosesItsVector(d: Doc) returns (actions: seq<Action>, s: State)
    requires d.indexType == FLAT
    ensures Run(FRESH, actions) == Some(s) && s.proc.Down? && s.disk.wal == []
    ensures Reload(s.disk).Some?
    ensures At(Reload(s.disk).value.scalar, d.id) == Some(d)
    ensures VectorsOf(Reload(s.disk).value.indexes.flat, d.id) == []
  {
    actions, s := PackedEntryIsStored(d);
  }

  lemma OverwrittenInLog(d: Doc, d2: Doc) returns (actions: seq<Action>, s: State)
    ensures Reaches(actions, s)
    ensures s.disk == Disk(map[], [WalRecord(11, d), WalRecord(11, d2)], EMPTY, 0)
    ensures s.proc.Running? && s.proc.pending.None? && At(s.proc.log.entries, 11) == Some(LogEntry(2, true, d2))
  {
    actions, s := FirstWrite(d);
    actions, s := Go(actions, s, WriteAt(11, LogEntry(2, true, d2)));
  }

  lemma OverwrittenEntry(d: Doc, d2: Doc) returns (actions: seq<Action>, s: State)
    ensures Reaches(actions, s)
    ensures s.disk == Disk(map[d2.id := d2], [WalRecord(11, d), WalRecord(11, d2)], EMPTY, 0)
  {
    actions, s := OverwrittenInLog(d, d2);
    actions, s := GoCommit(actions, s, 11);
    actions, s := Go(actions, s, Crash);
  }

  /**
   * An entry that Raft overwrites stays in the WAL: its document was never committed, and after a reload it is
   * stored and found in the FLAT list.
   */
  lemma OverwrittenEntryComesBack(d: Doc, d2: Doc) returns (actions: seq<Action>, s: State)
    requires d.indexType == FLAT && d.id != d2.id
    ensures Reaches(actions, s) && s.disk.scalar == map[d2.id := d2]
    ensures Reload(s.disk).Some?
    ensures At(Reload(s.disk).value.scalar, d.id) == Some(d)
    ensures VectorsOf(Reload(s.disk).value.indexes.flat, d.id) == [d.vector]
  {
    actions, s := OverwrittenEntry(d, d2);
    var saved := Loaded(s.disk);
    assert !Aborts(None, d) && !Aborts(Some(d2), d2);
    var first := Upsert(saved, d).value;
    var second := Upsert(first, d2).value;
    ReplayOfTwo(s.disk.wal, saved, first, second);
    FirstOfTwoStays(saved, d, first, d2, second);
  }

  lemma FirstOfTwoStays(s: Store, d: Doc, first: Store, d2: Doc, second: Store)
    requires Upsert(s, d) == Some(first) && Upsert(first, d2) == Some(second)
    requires d.indexType == FLAT && d.id != d2.id && d.id !in s.scalar && s.indexes.flat == []
    ensures At(second.scalar, d.id) == Some(d) && VectorsOf(second.indexes.flat, d.id) == [d.vector]
  {
    VectorsAfterUpsert([], None, d, d.id);
    VectorsAfterAnyUpsert(first.indexes.flat, At(first.scalar, d2.id), d2, d.id);
  }
}
