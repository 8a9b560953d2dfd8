/** The FLAT list in the runs of `RecoveryRuns`. */
module FlatListRuns {
  import opened Documents
  import opened LogStore
  import opened Durability
  import opened Settledness
  import opened ReplayTheory
  import opened RecoveryRuns

  ghost predicate NoneDoubled(d: Disk) {
    forall id :: !Doubled(d.wal, Claimed(d), Store(d.scalar, d.saved), id)
  }

  /** Every reload so far started from a snapshot that would not double a vector. */
  ghost predicate StartsAreUndoubled(actions: seq<Action>) {
    actions == [] ||
    (var front := actions[..|actions| - 1];
     StartsAreUndoubled(front)
     && (actions[|actions| - 1].Start? && Run(FRESH, front).Some? ==> NoneDoubled(Run(FRESH, front).value.disk)))
  }

  /** Replaying the records from `q` on will make the list right. */
  ghost predicate OnTrack(w: Wal, q: nat, s: Store)
    requires q <= |w|
  {
    forall id :: FlatReplay(w, q, id, VectorsOf(s.indexes.flat, id), id in s.scalar) == VectorOf(Last(w, id, Only(FLAT)))
  }

  /** The stored documents once the pending one has been stored. */
  function Effective(scalar: map<nat, Doc>, pending: Option<Pending>): map<nat, Doc> {
    if pending.Some? then scalar[pending.value.doc.id := pending.value.doc] else scalar
  }

  ghost predicate RunFlat(d: Disk, p: Process)
    requires p.Running?
  {
    var e := Boundary(d.wal, p.increaseID);
    && FlatSettled(d.wal, e, p.ix.flat) && FlatBacked(p.ix.flat, Effective(d.scalar, p.pending))
    && (p.pending.Some? ==> LoggedFrom(d.wal, e, p.pending.value.doc))
    && (p.pending.Some? && p.pending.value.OldGone? && p.pending.value.doc.indexType == FLAT ==>
          VectorsOf(p.ix.flat, p.pending.value.doc.id) == [])
    && (forall i :: 0 <= i < |p.snapshots| && Rank(p.snapshots[i]) >= 2 ==> FlatSettled(d.wal, e, d.saved.flat))
  }

  ghost predicate FlatInv(s: State) {
    && FlatSettled(s.disk.wal, Claimed(s.disk), s.disk.saved.flat)
    && (s.proc.Reloading? ==>
          s.proc.pos <= |s.disk.wal| && OnTrack(s.disk.wal, Max(s.proc.pos, Claimed(s.disk)), StoreOf(s)))
    && (s.proc.Running? ==> RunFlat(s.disk, s.proc))
  }

  lemma StartFlat(s: State)
    requires FlatInv(s) && Step(s, Start).Some? && NoneDoubled(s.disk)
    ensures FlatInv(Step(s, Start).value)
  {
    var d := s.disk;
    forall id
      ensures FlatReplay(d.wal, Claimed(d), id, VectorsOf(d.saved.flat, id), id in d.scalar)
           == VectorOf(Last(d.wal, id, Only(FLAT)))
    {
      assert FlatSettledAt(d.wal, Claimed(d), d.saved.flat, id);
      assert !Doubled(d.wal, Claimed(d), Store(d.scalar, d.saved), id);
      FlatAfterReplay(d.wal, Claimed(d), Store(d.scalar, d.saved), id);
      assert [] + VectorOf(Last(d.wal, id, Only(FLAT))) == VectorOf(Last(d.wal, id, Only(FLAT)));
    }
  }

  lemma ReplayFlat(s: State)
    requires IdInv(s) && FlatInv(s) && Step(s, ReplayNext).Some?
    ensures FlatInv(Step(s, ReplayNext).value)
  {
    var d, p := s.disk, s.proc;
    if d.wal[p.pos].id <= p.lastSnapshotID {
      assert p.pos < Claimed(d);
    } else if Upsert(StoreOf(s), d.wal[p.pos].payload).Some? {
      assert p.pos >= Claimed(d);
      OnTrackStep(d.wal, p.pos, StoreOf(s));
    }
  }

  lemma OnTrackStep(w: Wal, q: nat, s: Store)
    requires q < |w| && OnTrack(w, q, s) && Upsert(s, w[q].payload).Some?
    ensures OnTrack(w, q + 1, Upsert(s, w[q].payload).value)
  {
    var d, s' := w[q].payload, Upsert(s, w[q].payload).value;
    forall id
      ensures FlatReplay(w, q + 1, id, VectorsOf(s'.indexes.flat, id), id in s'.scalar) == VectorOf(Last(w, id, Only(FLAT)))
    {
      VectorsAfterAnyUpsert(s.indexes.flat, At(s.scalar, d.id), d, id);
      assert FlatReplay(w, q, id, VectorsOf(s.indexes.flat, id), id in s.scalar) == VectorOf(Last(w, id, Only(FLAT)));
    }
  }

  lemma ServeFlat(s: State)
    requires Inv(s) && FlatInv(s) && Step(s, Serve).Some?
    ensures FlatInv(Step(s, Serve).value)
  {
    var w := s.disk.wal;
    assert w[..|w|] == w;
    WholeLogBoundary(w);
    SettledReflects(w, StoreOf(s));
    forall id ensures VectorsOf(s.proc.ix.flat, id) == VectorOf(Last(w, id, Only(FLAT))) {
      assert FlatReplay(w, |w|, id, VectorsOf(s.proc.ix.flat, id), id in s.disk.scalar) == VectorOf(Last(w, id, Only(FLAT)));
    }
    ReflectingIsBacked(w, StoreOf(s));
    assert forall id :: FlatSettledAt(w, |w|, s.proc.ix.flat, id);
  }

  lemma LoggingFlat(s: State, log': Log<Doc>, index: nat, e: LogEntry<Doc>)
    requires IdInv(s) && FlatInv(s) && s.proc.Running? && s.proc.log.start <= index
    ensures FlatInv(Logging(s, log', index, e))
  {
    var d, p := s.disk, s.proc;
    if e.app {
      var r, b := WalRecord(index, e.payload), Boundary(d.wal, p.increaseID);
      BoundaryAppend(d.wal, r, d.savedId);
      BoundaryAppend(d.wal, r, p.increaseID);
      FlatSettledAppend(d.wal, r, Claimed(d), d.saved.flat);
      FlatSettledAppend(d.wal, r, b, p.ix.flat);
      if p.pending.Some? { LoggedFromAppend(d.wal, b, r, p.pending.value.doc); }
      forall i | 0 <= i < |p.snapshots| && Rank(p.snapshots[i]) >= 2 ensures FlatSettled(d.wal + [r], b, d.saved.flat) {
        FlatSettledAppend(d.wal, r, b, d.saved.flat);
      }
    }
  }

  lemma CommitFlat(s: State, index: nat)
    requires FlatInv(s) && Step(s, Commit(index)).Some? && CommitIsLogged(s, Commit(index))
    ensures FlatInv(Step(s, Commit(index)).value)
  {
    var d, p := s.disk, s.proc;
    var e, doc := Boundary(d.wal, p.increaseID), p.log.entries[index].payload;
    var j :| e <= j < |d.wal| && d.wal[j].payload == doc;
    RemovalKeepsFlat(d.wal, e, j, d.scalar, p.ix.flat, doc);
  }

  lemma InsertFlat(s: State)
    requires FlatInv(s) && Step(s, InsertVector).Some?
    ensures FlatInv(Step(s, InsertVector).value)
  {
    var d, p := s.disk, s.proc;
    var e, doc := Boundary(d.wal, p.increaseID), p.pending.value.doc;
    var j :| e <= j < |d.wal| && d.wal[j].payload == doc;
    InsertionKeepsFlat(d.wal, e, j, Effective(d.scalar, p.pending), p.ix.flat, doc);
  }

  lemma SnapshotFlat(s: State, i: nat)
    requires IdInv(s) && FlatInv(s) && s.proc.Running? && i < |s.proc.snapshots|
    ensures FlatInv(Snapshotting(s, i))
  {
    var d, p := s.disk, s.proc;
    BoundaryMonotone(d.wal, d.savedId, p.increaseID);
    if p.snapshots[i] == Begun {
      FlatSettledEarlier(d.wal, Claimed(d), Boundary(d.wal, p.increaseID), p.ix.flat);
    } else if p.snapshots[i] == FilterSaved {
      AllAbove(d.wal, 0);
      FlatSettledEarlier(d.wal, 0, Claimed(d), d.saved.flat);
    }
  }

  lemma RaftStepFlat(s: State, a: Action)
    requires IdInv(s) && FlatInv(s) && Step(s, a).Some? && (a.Append? || a.WriteAt? || a.ApplyPack? || a.Compact?)
    ensures FlatInv(Step(s, a).value)
  {
    match a
    case Append(e) => LoggingFlat(s, Appended(s.proc.log, e), NextSlot(s.proc.log), e);
    case WriteAt(index, e) => LoggingFlat(s, WrittenAt(s.proc.log, index, e), index, e);
    case ApplyPack(index, es) =>
    case Compact(last) =>
  }

  lemma StepFlat(s: State, a: Action)
    requires Inv(s) && FlatInv(s) && Step(s, a).Some?
    requires CommitIsLogged(s, a) && (a.Start? ==> NoneDoubled(s.disk))
    ensures FlatInv(Step(s, a).value)
  {
    match a
    case Start => StartFlat(s);
    case ReplayNext => ReplayFlat(s);
    case Serve => ServeFlat(s);
    case Commit(index) => CommitFlat(s, index);
    case InsertVector => InsertFlat(s);
    case IndexFields(fields) =>
    case StoreDoc =>
    case TakeSnapshot =>
    case SnapshotStep(i) => SnapshotFlat(s, i);
    case Crash =>
    case _ => RaftStepFlat(s, a);
  }

  lemma {:induction false} RunKeepsFlat(actions: seq<Action>)
    requires Run(FRESH, actions).Some? && CommitsAreLogged(actions) && StartsAreUndoubled(actions)
    ensures FlatInv(Run(FRESH, actions).value)
    decreases |actions|
  {
    if actions == [] {
      assert forall id, kind :: Last([], id, kind).None?;
      assert forall id :: VectorsOf([], id) == [];
    } else {
      RunKeepsFlat(actions[..|actions| - 1]);
      RunKeepsInv(actions[..|actions| - 1]);
      StepFlat(Run(FRESH, actions[..|actions| - 1]).value, actions[|actions| - 1]);
    }
  }

  // ---------------------------------------------------------------------------------------------
  // Snapshots outside commits
  // ---------------------------------------------------------------------------------------------

  /** No snapshot saves the FLAT list while a commit is under way. */
  predicate SnapshotsAreQuiet(actions: seq<Action>) {
    actions == [] ||
    (var front, last := actions[..|actions| - 1], actions[|actions| - 1];
     && SnapshotsAreQuiet(front)
     && (Run(FRESH, front).Some? && SavesFlat(Run(FRESH, front).value, last) ==> Run(FRESH, front).value.proc.pending.None?))
  }

  predicate SavesFlat(s: State, a: Action) {
    a.SnapshotStep? && s.proc.Running? && a.i < |s.proc.snapshots| && s.proc.snapshots[a.i] == Begun
  }

  /** A snapshot whose vectors all have stored documents doubles none. */
  lemma BackedIsUndoubled(d: Disk)
    requires FlatBacked(d.saved.flat, d.scalar)
    ensures NoneDoubled(d)
  {
  }

  /** Stored documents stay stored, and the saved list changes only when a snapshot saves it. */
  lemma StepOnDisk(s: State, a: Action)
    requires Step(s, a).Some?
    ensures s.disk.scalar.Keys <= Step(s, a).value.disk.scalar.Keys
    ensures !SavesFlat(s, a) ==> Step(s, a).value.disk.saved.flat == s.disk.saved.flat
    ensures SavesFlat(s, a) ==> Step(s, a).value.disk == s.disk.(saved := s.disk.saved.(flat := s.proc.ix.flat))
  {
  }

  lemma BackedByMore(flat: FlatIndex, scalar: map<nat, Doc>, more: map<nat, Doc>)
    requires FlatBacked(flat, scalar) && scalar.Keys <= more.Keys
    ensures FlatBacked(flat, more)
  {
  }

  /** So a backed snapshot stays backed. */
  lemma StepBacked(s: State, a: Action)
    requires FlatInv(s) && FlatBacked(s.disk.saved.flat, s.disk.scalar) && Step(s, a).Some?
    requires SavesFlat(s, a) ==> s.proc.pending.None?
    ensures FlatBacked(Step(s, a).value.disk.saved.flat, Step(s, a).value.disk.scalar)
  {
    StepOnDisk(s, a);
    if !SavesFlat(s, a) {
      BackedByMore(s.disk.saved.flat, s.disk.scalar, Step(s, a).value.disk.scalar);
    }
  }

  lemma {:induction false} QuietRunsAreUndoubled(actions: seq<Action>)
    requires Run(FRESH, actions).Some? && CommitsAreLogged(actions) && SnapshotsAreQuiet(actions)
    ensures StartsAreUndoubled(actions)
    ensures var d := Run(FRESH, actions).value.disk; FlatBacked(d.saved.flat, d.scalar)
    decreases |actions|
  {
    if actions == [] {
      assert forall id :: VectorsOf([], id) == [];
    } else {
      var front, last := actions[..|actions| - 1], actions[|actions| - 1];
      QuietRunsAreUndoubled(front);
      RunKeepsFlat(front);
      var s := Run(FRESH, front).value;
      BackedIsUndoubled(s.disk);
      StepBacked(s, last);
    }
  }
}
