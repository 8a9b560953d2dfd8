/**
 * The server as a state machine over whole runs: Raft stores entries (each append writes the WAL, a packed one
 * does not) and commits them index by index; any number of snapshots, which may overlap, are taken file by file
 * between any two of these steps; the server crashes at any point, and reloads, which can crash as well.
 */
module RecoveryRuns {
  import opened Documents
  import opened IntFieldFilter
  import opened LogStore
  import opened Durability
  import opened Settledness

  /** What survives a crash. `savedId` is the number in `snapshots_MaxLogID`; a missing file reads as 0. */
  datatype Disk = Disk(scalar: map<nat, Doc>, wal: Wal, saved: Indexes, savedId: nat)

  /** How far a `takeSnapshot` has got: the three indexes are written first, the id file last. */
  datatype Stage = Begun | FlatSaved | HnswSaved | FilterSaved | IdFileOpened | Done

  /** A committed document on its way: the old vector is out, or the new one in and some fields done as well. */
  datatype Pending = OldGone(doc: Doc) | Indexing(doc: Doc, done: set<string>)

  /** `snapshots` are the snapshots this process has taken or is taking: nothing keeps them from overlapping. */
  datatype Process =
    | Down
    | Reloading(ix: Indexes, pos: nat, increaseID: nat, lastSnapshotID: nat)
    | Running(ix: Indexes, pending: Option<Pending>, increaseID: nat, lastSnapshotID: nat, log: Log<Doc>, snapshots: seq<Stage>)

  datatype State = State(disk: Disk, proc: Process)

  datatype Action =
    | Start
    | ReplayNext
    | Serve
    | Append(e: LogEntry<Doc>)
    | WriteAt(index: nat, e: LogEntry<Doc>)
    | ApplyPack(index: nat, es: seq<LogEntry<Doc>>)
    | Compact(last: nat)
    | Commit(index: nat)
    | InsertVector
    | IndexFields(fields: set<string>)
    | StoreDoc
    | TakeSnapshot
    | SnapshotStep(i: nat)
    | Crash

  const NO_DOC := Doc(0, UNKNOWN, [], map[])
  const FRESH := State(Disk(map[], [], EMPTY, 0), Down)

  function StoreOf(s: State): Store
    requires !s.proc.Down?
  {
    Store(s.disk.scalar, s.proc.ix)
  }

  /** An upsert that aborts takes the process down with nothing durable changed. */
  function Upserted(s: State, d: Doc): State
    requires s.proc.Reloading?
  {
    match Upsert(StoreOf(s), d)
    case None => s.(proc := Down)
    case Some(r) =>
      State(s.disk.(scalar := r.scalar), Reloading(r.indexes, s.proc.pos, s.proc.increaseID, s.proc.lastSnapshotID))
  }

  function Logging(s: State, log: Log<Doc>, index: nat, e: LogEntry<Doc>): State
    requires s.proc.Running?
  {
    State(if e.app then s.disk.(wal := s.disk.wal + [WalRecord(index, e.payload)]) else s.disk,
          s.proc.(log := log))
  }

  /** The upsert of a committed document begins: its old vector is removed. */
  function WithoutOld(s: State, d: Doc): State
    requires s.proc.Running?
  {
    s.(proc := s.proc.(ix := s.proc.ix.(flat := Cleared(s.proc.ix.flat, At(s.disk.scalar, d.id), d)), pending := Some(OldGone(d))))
  }

  /** The new vector is inserted. */
  function WithVector(s: State): State
    requires s.proc.Running? && s.proc.pending.Some?
  {
    var d, ix := s.proc.pending.value.doc, s.proc.ix;
    s.(proc := s.proc.(ix := ix.(flat := Inserted(ix.flat, d), hnsw := HnswAfter(ix.hnsw, d)), pending := Some(Indexing(d, {}))))
  }

  /** The member loop goes on by some fields; a missing one takes the process down. */
  function WithFields(s: State, fields: set<string>): State
    requires s.proc.Running? && s.proc.pending.Some? && s.proc.pending.value.Indexing?
    requires fields <= IntFields(s.proc.pending.value.doc).Keys
  {
    var d, done, ix := s.proc.pending.value.doc, s.proc.pending.value.done, s.proc.ix;
    var existing := At(s.disk.scalar, d.id);
    if existing.Some? && !(fields <= existing.value.ints.Keys) then s.(proc := Down)
    else s.(proc := s.proc.(ix := ix.(filter := ReindexedOn(ix.filter, existing, d, fields)), pending := Some(Indexing(d, done + fields))))
  }

  /** The document itself. */
  function Stored(s: State): State
    requires s.proc.Running? && s.proc.pending.Some?
  {
    var d := s.proc.pending.value.doc;
    State(s.disk.(scalar := s.disk.scalar[d.id := d]), s.proc.(pending := None))
  }

  function FirstUpTo(entries: map<nat, LogEntry<Doc>>, i: nat, hi: nat): (first: nat)
    requires i <= hi
    ensures i <= first <= hi && (forall k :: i <= k < first ==> k !in entries) && (first < hi ==> first in entries)
    decreases hi - i
  {
    if i == hi || i in entries then i else FirstUpTo(entries, i + 1, hi)
  }

  /** `apply_pack`: the entries are stored as they are, and the first positive index becomes the start index. */
  function Packed(log: Log<Doc>, index: nat, es: seq<LogEntry<Doc>>): Log<Doc>
    requires index > 0
  {
    var entries := Merged(log.entries, index, es);
    Log(FirstUpTo(entries, 1, index), entries)
  }

  lemma PackedStartIsFirst(log: Log<Doc>, index: nat, es: seq<LogEntry<Doc>>)
    requires index > 0 && es != []
    ensures IsFirstIndex(Packed(log, index, es).entries.Keys, Packed(log, index, es).start)
  {
    MergedContents(log.entries, index, es);
    assert index in Packed(log, index, es).entries;
  }

  function Snapshotting(s: State, i: nat): State
    requires s.proc.Running? && i < |s.proc.snapshots|
  {
    var d, p := s.disk, s.proc;
    match p.snapshots[i]
    case Begun => State(d.(saved := d.saved.(flat := p.ix.flat)), p.(snapshots := p.snapshots[i := FlatSaved]))
    case FlatSaved => State(d.(saved := d.saved.(hnsw := p.ix.hnsw)), p.(snapshots := p.snapshots[i := HnswSaved]))
    case HnswSaved => State(d.(saved := d.saved.(filter := p.ix.filter)), p.(snapshots := p.snapshots[i := FilterSaved]))
    case FilterSaved => State(d.(savedId := 0), p.(snapshots := p.snapshots[i := IdFileOpened]))
    case IdFileOpened => State(d.(savedId := p.lastSnapshotID), p.(snapshots := p.snapshots[i := Done]))
    case Done => s
  }

  /**
   * One step, or `None` when it cannot be taken. Raft never writes below its start index, packs at least one
   * entry, and commits one entry after the other.
   */
  function Step(s: State, a: Action): Option<State> {
    match a
    case Start =>
      if s.proc.Down? then Some(s.(proc := Reloading(s.disk.saved, 0, FIRST_ID, s.disk.savedId))) else None
    case ReplayNext =>
      if s.proc.Reloading? && s.proc.pos < |s.disk.wal| then
        var r := s.disk.wal[s.proc.pos];
        var read := s.(proc := s.proc.(pos := s.proc.pos + 1, increaseID := Max(s.proc.increaseID, r.id)));
        Some(if r.id > s.proc.lastSnapshotID then Upserted(read, r.payload) else read)
      else None
    case Serve =>
      if s.proc.Reloading? && s.proc.pos == |s.disk.wal| then
        Some(s.(proc := Running(s.proc.ix, None, s.proc.increaseID, s.proc.lastSnapshotID,
                                Fresh(s.proc.increaseID, NO_DOC), [])))
      else None
    case Append(e) =>
      if s.proc.Running? && 0 in s.proc.log.entries && NextSlot(s.proc.log) >= 0
      then Some(Logging(s, Appended(s.proc.log, e), NextSlot(s.proc.log), e)) else None
    case WriteAt(index, e) =>
      if s.proc.Running? && s.proc.log.start <= index
      then Some(Logging(s, WrittenAt(s.proc.log, index, e), index, e)) else None
    case ApplyPack(index, es) =>
      if s.proc.Running? && 0 < index && s.proc.log.start <= index && es != []
      then Some(s.(proc := s.proc.(log := Packed(s.proc.log, index, es)))) else None
    case Compact(last) =>
      if s.proc.Running? then Some(s.(proc := s.proc.(log := Compacted(s.proc.log, last)))) else None
    case Commit(index) =>
      if s.proc.Running? && s.proc.pending.None? && index in s.proc.log.entries && s.proc.log.entries[index].app
      then Some(WithoutOld(s, s.proc.log.entries[index].payload)) else None
    case InsertVector =>
      if s.proc.Running? && s.proc.pending.Some? && s.proc.pending.value.OldGone? then Some(WithVector(s)) else None
    case IndexFields(fields) =>
      if s.proc.Running? && s.proc.pending.Some? && s.proc.pending.value.Indexing?
         && fields <= IntFields(s.proc.pending.value.doc).Keys - s.proc.pending.value.done
      then Some(WithFields(s, fields)) else None
    case StoreDoc =>
      if s.proc.Running? && s.proc.pending.Some? && s.proc.pending.value.Indexing?
         && s.proc.pending.value.done == IntFields(s.proc.pending.value.doc).Keys
      then Some(Stored(s)) else None
    case TakeSnapshot =>
      if s.proc.Running? then
        Some(s.(proc := s.proc.(snapshots := s.proc.snapshots + [Begun], lastSnapshotID := s.proc.increaseID)))
      else None
    case SnapshotStep(i) =>
      if s.proc.Running? && i < |s.proc.snapshots| then Some(Snapshotting(s, i)) else None
    case Crash => Some(s.(proc := Down))
  }

  function Run(s: State, actions: seq<Action>): Option<State> {
    if actions == [] then Some(s) else
      match Run(s, actions[..|actions| - 1])
      case None => None
      case Some(s') => Step(s', actions[|actions| - 1])
  }

  /** The parts of a commit make one upsert, and only the member loop can go wrong. */
  lemma CommitIsUpsert(s: State, index: nat, s1: State, s2: State, s3: State)
    requires Step(s, Commit(index)) == Some(s1) && Step(s1, InsertVector) == Some(s2)
    requires Step(s2, IndexFields(IntFields(s.proc.log.entries[index].payload).Keys)) == Some(s3)
    ensures var r := Upsert(StoreOf(s), s.proc.log.entries[index].payload);
            && (s3.proc.Down? <==> r.None?)
            && (s3.proc.Running? ==> Step(s3, StoreDoc) == Some(State(s.disk.(scalar := r.value.scalar), s.proc.(ix := r.value.indexes))))
  {
  }

  /** It makes no difference in how many parts the member loop is gone through. */
  lemma FieldsInParts(s: State, some: set<string>, others: set<string>, s1: State)
    requires Step(s, IndexFields(some)) == Some(s1) && s1.proc.Running?
    requires Step(s1, IndexFields(others)).Some?
    ensures Step(s, IndexFields(some + others)) == Step(s1, IndexFields(others))
  {
    var d, done, existing := s.proc.pending.value.doc, s.proc.pending.value.done, At(s.disk.scalar, s.proc.pending.value.doc.id);
    if existing.Some? ==> some + others <= existing.value.ints.Keys {
      ReindexInParts(s.proc.ix.filter, existing, d, some, others);
      assert done + (some + others) == done + some + others;
    }
  }

  // ---------------------------------------------------------------------------------------------
  // Epochs: where the records that a snapshot claims end
  // ---------------------------------------------------------------------------------------------

  /** The position after the last record whose id is at most `id`. */
  function Boundary(w: Wal, id: nat): (n: nat)
    ensures n <= |w| && forall j :: n <= j < |w| ==> w[j].id > id
  {
    if w == [] then 0
    else if w[|w| - 1].id <= id then |w|
    else Boundary(w[..|w| - 1], id)
  }

  ghost predicate Epochal(w: Wal, id: nat) {
    forall j :: 0 <= j < Boundary(w, id) ==> w[j].id <= id
  }

  lemma {:induction false} BoundaryMonotone(w: Wal, a: nat, b: nat)
    requires a <= b
    ensures Boundary(w, a) <= Boundary(w, b)
  {
    if w != [] {
      BoundaryMonotone(w[..|w| - 1], a, b);
    }
  }

  lemma BoundaryAppend(w: Wal, r: WalRecord<Doc>, id: nat)
    requires r.id > id
    ensures Boundary(w + [r], id) == Boundary(w, id)
    ensures Epochal(w, id) ==> Epochal(w + [r], id)
  {
    assert (w + [r])[..|w|] == w;
  }

  lemma {:induction false} AllAbove(w: Wal, id: nat)
    requires forall j :: 0 <= j < |w| ==> w[j].id > id
    ensures Boundary(w, id) == 0
  {
    if w != [] {
      AllAbove(w[..|w| - 1], id);
    }
  }

  lemma {:induction false} WholeLogBoundary(w: Wal)
    ensures Boundary(w, Highest(w)) == |w|
  {
  }

  function Claimed(d: Disk): nat {
    Boundary(d.wal, d.savedId)
  }

  // ---------------------------------------------------------------------------------------------
  // What holds in every run: ids, and the shape of the filters
  // ---------------------------------------------------------------------------------------------

  ghost predicate DiskIds(d: Disk) {
    && (forall j :: 0 <= j < |d.wal| ==> d.wal[j].id > FIRST_ID)
    && Epochal(d.wal, d.savedId) && d.savedId <= Highest(d.wal)
    && Shaped(d.saved.filter)
  }

  ghost predicate LogIds(increaseID: nat, log: Log<Doc>) {
    && increaseID < log.start
    && 0 in log.entries && !log.entries[0].app
    && forall k :: k in log.entries && k != 0 ==> k >= log.start
  }

  ghost predicate ReloadIds(d: Disk, p: Process)
    requires p.Reloading?
  {
    && p.pos <= |d.wal| && p.lastSnapshotID == d.savedId
    && p.increaseID == Highest(d.wal[..p.pos])
  }

  ghost predicate RunIds(d: Disk, p: Process)
    requires p.Running?
  {
    && FIRST_ID <= p.increaseID <= Highest(d.wal)
    && d.savedId <= p.increaseID
    && Epochal(d.wal, p.increaseID)
    && LogIds(p.increaseID, p.log)
    && (p.snapshots != [] ==> p.lastSnapshotID == p.increaseID)
  }

  ghost predicate IdInv(s: State) {
    && DiskIds(s.disk)
    && (!s.proc.Down? ==> Shaped(s.proc.ix.filter))
    && (s.proc.Reloading? ==> ReloadIds(s.disk, s.proc))
    && (s.proc.Running? ==> RunIds(s.disk, s.proc))
  }

  lemma ReplayIds(s: State)
    requires IdInv(s) && Step(s, ReplayNext).Some?
    ensures IdInv(Step(s, ReplayNext).value)
  {
    var r := s.disk.wal[s.proc.pos];
    HighestUpTo(s.disk.wal, s.proc.pos);
    var existing := At(s.disk.scalar, r.payload.id);
    if !Aborts(existing, r.payload) {
      UpsertKeepsShape(s.proc.ix.filter, existing, r.payload);
    }
  }

  lemma FieldsIds(s: State, fields: set<string>)
    requires IdInv(s) && Step(s, IndexFields(fields)).Some?
    ensures IdInv(Step(s, IndexFields(fields)).value)
  {
    var d := s.proc.pending.value.doc;
    var existing := At(s.disk.scalar, d.id);
    if existing.Some? ==> fields <= existing.value.ints.Keys {
      FieldsKeepShape(s.proc.ix.filter, existing, d, fields);
    }
  }

  lemma LoggingIds(s: State, log': Log<Doc>, index: nat, e: LogEntry<Doc>)
    requires IdInv(s) && s.proc.Running?
    requires LogIds(s.proc.increaseID, log') && s.proc.log.start <= index
    ensures IdInv(Logging(s, log', index, e))
  {
    if e.app {
      var r := WalRecord(index, e.payload);
      BoundaryAppend(s.disk.wal, r, s.disk.savedId);
      BoundaryAppend(s.disk.wal, r, s.proc.increaseID);
      HighestAppend(s.disk.wal, r);
    }
  }

  lemma PackedIds(increaseID: nat, log: Log<Doc>, index: nat, es: seq<LogEntry<Doc>>)
    requires LogIds(increaseID, log) && log.start <= index && es != []
    ensures LogIds(increaseID, Packed(log, index, es))
  {
    MergedContents(log.entries, index, es);
    var first := Packed(log, index, es).start;
    assert index in Packed(log, index, es).entries;
    assert first in Packed(log, index, es).entries;
  }

  lemma SnapshotIds(s: State, i: nat)
    requires IdInv(s) && s.proc.Running? && i < |s.proc.snapshots|
    ensures IdInv(Snapshotting(s, i))
  {
    if s.proc.snapshots[i] == FilterSaved {
      AllAbove(s.disk.wal, 0);
    }
  }

  lemma StepIds(s: State, a: Action)
    requires IdInv(s) && Step(s, a).Some?
    ensures IdInv(Step(s, a).value)
  {
    match a
    case Start => assert s.disk.wal[..0] == [];
    case ReplayNext => ReplayIds(s);
    case Serve =>
      assert s.disk.wal[..|s.disk.wal|] == s.disk.wal;
      WholeLogBoundary(s.disk.wal);
    case Append(e) => LoggingIds(s, Appended(s.proc.log, e), NextSlot(s.proc.log), e);
    case WriteAt(index, e) => LoggingIds(s, WrittenAt(s.proc.log, index, e), index, e);
    case ApplyPack(index, es) => PackedIds(s.proc.increaseID, s.proc.log, index, es);
    case Compact(last) =>
    case Commit(index) =>
    case InsertVector =>
    case IndexFields(fields) => FieldsIds(s, fields);
    case StoreDoc =>
    case TakeSnapshot =>
    case SnapshotStep(i) => SnapshotIds(s, i);
    case Crash =>
  }

  lemma {:induction false} RunKeepsIds(actions: seq<Action>)
    requires Run(FRESH, actions).Some?
    ensures IdInv(Run(FRESH, actions).value)
    decreases |actions|
  {
    if actions != [] {
      RunKeepsIds(actions[..|actions| - 1]);
      StepIds(Run(FRESH, actions[..|actions| - 1]).value, actions[|actions| - 1]);
    }
  }

  // ---------------------------------------------------------------------------------------------
  // Runs that commit logged entries only
  // ---------------------------------------------------------------------------------------------

  ghost predicate LoggedFrom(w: Wal, e: nat, d: Doc) {
    exists j :: e <= j < |w| && w[j].payload == d
  }

  /** An entry is committed only after its document has been written to the WAL in this epoch. */
  ghost predicate CommitIsLogged(s: State, a: Action) {
    a.Commit? && s.proc.Running? && a.index in s.proc.log.entries ==>
      LoggedFrom(s.disk.wal, Boundary(s.disk.wal, s.proc.increaseID), s.proc.log.entries[a.index].payload)
  }

  ghost predicate CommitsAreLogged(actions: seq<Action>) {
    actions == [] ||
    (var front := actions[..|actions| - 1];
     CommitsAreLogged(front)
     && (Run(FRESH, front).Some? ==> CommitIsLogged(Run(FRESH, front).value, actions[|actions| - 1])))
  }

  /** Every application entry of the Raft log was written to the WAL in this epoch. */
  ghost predicate LogIsWritten(s: State) {
    s.proc.Running? ==>
      forall k :: k in s.proc.log.entries && s.proc.log.entries[k].app ==>
        LoggedFrom(s.disk.wal, Boundary(s.disk.wal, s.proc.increaseID), s.proc.log.entries[k].payload)
  }

  lemma LoggedFromAppend(w: Wal, e: nat, r: WalRecord<Doc>, d: Doc)
    requires e <= |w|
    ensures LoggedFrom(w + [r], e, d) <==> LoggedFrom(w, e, d) || r.payload == d
  {
    var w' := w + [r];
    if LoggedFrom(w, e, d) {
      var j :| e <= j < |w| && w[j].payload == d;
      assert w'[j].payload == d;
    }
    assert w'[|w|] == r;
  }

  lemma LoggingWritten(s: State, log': Log<Doc>, index: nat, e: LogEntry<Doc>)
    requires IdInv(s) && LogIsWritten(s) && s.proc.Running? && s.proc.log.start <= index
    requires forall k :: k in log'.entries && k != index ==> k in s.proc.log.entries && log'.entries[k] == s.proc.log.entries[k]
    requires index in log'.entries && log'.entries[index] == e
    ensures LogIsWritten(Logging(s, log', index, e))
  {
    var w, b := s.disk.wal, Boundary(s.disk.wal, s.proc.increaseID);
    if e.app {
      var r := WalRecord(index, e.payload);
      BoundaryAppend(w, r, s.proc.increaseID);
      forall k | k in log'.entries && log'.entries[k].app ensures LoggedFrom(w + [r], b, log'.entries[k].payload) {
        LoggedFromAppend(w, b, r, log'.entries[k].payload);
      }
    }
  }

  lemma RaftStepWritten(s: State, a: Action)
    requires IdInv(s) && LogIsWritten(s) && Step(s, a).Some? && (a.Append? || a.WriteAt? || a.Compact?)
    ensures LogIsWritten(Step(s, a).value)
  {
    match a
    case Append(e) => LoggingWritten(s, Appended(s.proc.log, e), NextSlot(s.proc.log), e);
    case WriteAt(index, e) => LoggingWritten(s, WrittenAt(s.proc.log, index, e), index, e);
    case Compact(last) =>
  }

  lemma StepWritten(s: State, a: Action)
    requires IdInv(s) && LogIsWritten(s) && Step(s, a).Some? && !a.ApplyPack?
    ensures LogIsWritten(Step(s, a).value)
  {
    if a.Append? || a.WriteAt? || a.Compact? {
      RaftStepWritten(s, a);
    }
  }

  /** Only packed entries bypass the WAL: without `apply_pack` every commit is logged. */
  lemma {:induction false} UnpackedCommitsAreLogged(actions: seq<Action>)
    requires Run(FRESH, actions).Some?
    requires forall k :: 0 <= k < |actions| ==> !actions[k].ApplyPack?
    ensures CommitsAreLogged(actions) && LogIsWritten(Run(FRESH, actions).value)
    decreases |actions|
  {
    if actions != [] {
      var front, last := actions[..|actions| - 1], actions[|actions| - 1];
      UnpackedCommitsAreLogged(front);
      RunKeepsIds(front);
      assert actions[|actions| - 1] == last;
      StepWritten(Run(FRESH, front).value, last);
    }
  }

  // ---------------------------------------------------------------------------------------------
  // Documents, labels and bitmaps
  // ---------------------------------------------------------------------------------------------

  /** A crash here loses nothing: the snapshot is settled from the first record it does not claim. */
  ghost predicate DiskSettled(d: Disk) {
    Settled(d.wal, Claimed(d), Store(d.scalar, d.saved))
  }

  ghost predicate ReloadSettled(d: Disk, p: Process)
    requires p.Reloading?
  {
    p.pos <= |d.wal| && Settled(d.wal, Max(p.pos, Claimed(d)), Store(d.scalar, p.ix))
  }

  function Rank(stage: Stage): nat {
    match stage
    case Begun => 1 case FlatSaved => 2 case HnswSaved => 3 case FilterSaved => 4 case IdFileOpened => 5 case Done => 0
  }

  /** The index files that some snapshot under way has written are settled from the start of the epoch. */
  ghost predicate StageSettled(d: Disk, e: nat, stage: Stage)
    requires e <= |d.wal|
  {
    && (Rank(stage) >= 2 ==> FlatNewest(d.wal, e, d.saved.flat))
    && (Rank(stage) >= 3 ==> HnswSettled(d.wal, e, d.saved.hnsw))
    && (Rank(stage) >= 4 ==> FilterCovers(d.wal, e, d.saved.filter))
  }

  ghost predicate RunSettled(d: Disk, p: Process)
    requires p.Running?
  {
    var e := Boundary(d.wal, p.increaseID);
    && Settled(d.wal, e, Store(d.scalar, p.ix))
    && (p.pending.Some? ==> LoggedFrom(d.wal, e, p.pending.value.doc))
    && (forall i :: 0 <= i < |p.snapshots| ==> StageSettled(d, e, p.snapshots[i]))
  }

  ghost predicate Inv(s: State) {
    && IdInv(s)
    && DiskSettled(s.disk)
    && (s.proc.Reloading? ==> ReloadSettled(s.disk, s.proc))
    && (s.proc.Running? ==> RunSettled(s.disk, s.proc))
  }

  lemma FreshInv()
    ensures Inv(FRESH)
  {
    assert forall id, kind :: Last([], id, kind).None?;
  }

  /** Storing a logged document leaves the snapshot on disk as good as it was. */
  lemma DiskAfterStore(d: Disk, j: nat)
    requires DiskSettled(d) && Claimed(d) <= j < |d.wal|
    ensures DiskSettled(d.(scalar := d.scalar[d.wal[j].payload.id := d.wal[j].payload]))
  {
    var n, doc := Claimed(d), d.wal[j].payload;
    ScalarAfterUpsert(d.wal, n, n, j, d.scalar, doc);
  }

  lemma ReplayApplyInv(s: State)
    requires Inv(s) && Step(s, ReplayNext).Some? && s.disk.wal[s.proc.pos].id > s.proc.lastSnapshotID
    ensures Inv(Step(s, ReplayNext).value)
  {
    var d, p := s.disk, s.proc;
    var doc := d.wal[p.pos].payload;
    StepIds(s, ReplayNext);
    assert p.pos >= Claimed(d);
    if Upsert(StoreOf(s), doc).Some? {
      DiskAfterStore(d, p.pos);
      SettledAfterUpsert(d.wal, p.pos, p.pos + 1, p.pos, StoreOf(s), doc);
      assert Step(s, ReplayNext).value.disk == d.(scalar := d.scalar[doc.id := doc]);
    }
  }

  lemma ReplaySkipInv(s: State)
    requires Inv(s) && Step(s, ReplayNext).Some? && s.disk.wal[s.proc.pos].id <= s.proc.lastSnapshotID
    ensures Inv(Step(s, ReplayNext).value)
  {
    StepIds(s, ReplayNext);
    assert s.proc.pos < Claimed(s.disk);
  }

  lemma ServeInv(s: State)
    requires Inv(s) && Step(s, Serve).Some?
    ensures Inv(Step(s, Serve).value)
  {
    StepIds(s, Serve);
    assert s.disk.wal[..|s.disk.wal|] == s.disk.wal;
    WholeLogBoundary(s.disk.wal);
  }

  /** What the disk and the running process keep when the WAL gains a record above every earlier epoch. */
  lemma WalGrows(d: Disk, p: Process, r: WalRecord<Doc>, d': Disk)
    requires DiskSettled(d) && p.Running? && RunSettled(d, p)
    requires d.savedId <= p.increaseID < r.id && d' == d.(wal := d.wal + [r])
    ensures DiskSettled(d') && RunSettled(d', p)
  {
    var n, e := Claimed(d), Boundary(d.wal, p.increaseID);
    BoundaryAppend(d.wal, r, d.savedId);
    BoundaryAppend(d.wal, r, p.increaseID);
    SettledAppend(d.wal, r, n, Store(d.scalar, d.saved));
    SettledAppend(d.wal, r, e, Store(d.scalar, p.ix));
    forall i | 0 <= i < |p.snapshots| ensures StageSettled(d', e, p.snapshots[i]) {
      StageAppend(d, e, p.snapshots[i], r);
    }
    if p.pending.Some? { LoggedFromAppend(d.wal, e, r, p.pending.value.doc); }
  }

  lemma StageAppend(d: Disk, e: nat, stage: Stage, r: WalRecord<Doc>)
    requires e <= |d.wal| && StageSettled(d, e, stage)
    ensures StageSettled(d.(wal := d.wal + [r]), e, stage)
  {
    if Rank(stage) >= 2 { FlatNewestAppend(d.wal, r, e, d.saved.flat); }
    if Rank(stage) >= 3 { HnswSettledAppend(d.wal, r, e, d.saved.hnsw); }
    if Rank(stage) >= 4 { FilterCoversAppend(d.wal, r, e, d.saved.filter); }
  }

  lemma LoggingInv(s: State, log': Log<Doc>, index: nat, entry: LogEntry<Doc>)
    requires Inv(s) && s.proc.Running?
    requires LogIds(s.proc.increaseID, log') && s.proc.log.start <= index
    ensures Inv(Logging(s, log', index, entry))
  {
    LoggingIds(s, log', index, entry);
    var r := WalRecord(index, entry.payload);
    if entry.app {
      WalGrows(s.disk, s.proc, r, s.disk.(wal := s.disk.wal + [r]));
    }
    assert RunSettled(Logging(s, log', index, entry).disk, s.proc);
  }

  lemma CommitInv(s: State, index: nat)
    requires Inv(s) && Step(s, Commit(index)).Some? && CommitIsLogged(s, Commit(index))
    ensures Inv(Step(s, Commit(index)).value)
  {
    var d, p := s.disk, s.proc;
    var e, doc := Boundary(d.wal, p.increaseID), p.log.entries[index].payload;
    var j :| e <= j < |d.wal| && d.wal[j].payload == doc;
    NewestAfterRemoval(d.wal, e, j, At(d.scalar, doc.id), p.ix.flat, doc);
  }

  lemma InsertInv(s: State)
    requires Inv(s) && Step(s, InsertVector).Some?
    ensures Inv(Step(s, InsertVector).value)
  {
    var d, p := s.disk, s.proc;
    var e, doc := Boundary(d.wal, p.increaseID), p.pending.value.doc;
    var j :| e <= j < |d.wal| && d.wal[j].payload == doc;
    HnswAfterUpsert(d.wal, e, e, j, p.ix.hnsw, doc);
    NewestAfterUpsert(d.wal, e, e, j, None, p.ix.flat, doc);
  }

  lemma FieldsInv(s: State, fields: set<string>)
    requires Inv(s) && Step(s, IndexFields(fields)).Some?
    ensures Inv(Step(s, IndexFields(fields)).value)
  {
    var d, p := s.disk, s.proc;
    var e, doc := Boundary(d.wal, p.increaseID), p.pending.value.doc;
    FieldsIds(s, fields);
    var j :| e <= j < |d.wal| && d.wal[j].payload == doc;
    var existing := At(d.scalar, doc.id);
    if existing.Some? ==> fields <= existing.value.ints.Keys {
      CoversAfterFields(d.wal, e, j, existing, p.ix.filter, doc, fields);
      SoundAfterFields(d.wal, j, existing, p.ix.filter, doc, fields);
    }
  }

  lemma StoreInv(s: State)
    requires Inv(s) && Step(s, StoreDoc).Some?
    ensures Inv(Step(s, StoreDoc).value)
  {
    var d, p := s.disk, s.proc;
    var e, doc := Boundary(d.wal, p.increaseID), p.pending.value.doc;
    var j :| e <= j < |d.wal| && d.wal[j].payload == doc;
    BoundaryMonotone(d.wal, d.savedId, p.increaseID);
    DiskAfterStore(d, j);
    ScalarAfterUpsert(d.wal, e, e, j, d.scalar, doc);
  }

  lemma SaveFlatInv(s: State, i: nat)
    requires Inv(s) && s.proc.Running? && i < |s.proc.snapshots| && s.proc.snapshots[i] == Begun
    ensures Inv(Snapshotting(s, i))
  {
    var d, p := s.disk, s.proc;
    BoundaryMonotone(d.wal, d.savedId, p.increaseID);
    FlatNewestEarlier(d.wal, Claimed(d), Boundary(d.wal, p.increaseID), p.ix.flat);
  }

  lemma SaveHnswInv(s: State, i: nat)
    requires Inv(s) && s.proc.Running? && i < |s.proc.snapshots| && s.proc.snapshots[i] == FlatSaved
    ensures Inv(Snapshotting(s, i))
  {
    var d, p := s.disk, s.proc;
    BoundaryMonotone(d.wal, d.savedId, p.increaseID);
    HnswSettledEarlier(d.wal, Claimed(d), Boundary(d.wal, p.increaseID), p.ix.hnsw);
  }

  lemma SaveFilterInv(s: State, i: nat)
    requires Inv(s) && s.proc.Running? && i < |s.proc.snapshots| && s.proc.snapshots[i] == HnswSaved
    ensures Inv(Snapshotting(s, i))
  {
    var d, p := s.disk, s.proc;
    BoundaryMonotone(d.wal, d.savedId, p.increaseID);
    FilterCoversEarlier(d.wal, Claimed(d), Boundary(d.wal, p.increaseID), p.ix.filter);
  }

  /** Opening the id file truncates it: until it is written again, a reload replays the whole log. */
  lemma OpenIdFileInv(s: State, i: nat)
    requires Inv(s) && s.proc.Running? && i < |s.proc.snapshots| && s.proc.snapshots[i] == FilterSaved
    ensures Inv(Snapshotting(s, i))
  {
    var d := s.disk;
    AllAbove(d.wal, 0);
    SnapshotIds(s, i);
    SettledEarlier(d.wal, 0, Claimed(d), Store(d.scalar, d.saved));
  }

  /** The id claims what every index file on disk contains, whichever snapshot has written it. */
  lemma WriteIdFileInv(s: State, i: nat)
    requires Inv(s) && s.proc.Running? && i < |s.proc.snapshots| && s.proc.snapshots[i] == IdFileOpened
    ensures Inv(Snapshotting(s, i))
  {
    assert StageSettled(s.disk, Boundary(s.disk.wal, s.proc.increaseID), s.proc.snapshots[i]);
  }

  lemma SnapshotStepInv(s: State, i: nat)
    requires Inv(s) && s.proc.Running? && i < |s.proc.snapshots|
    ensures Inv(Snapshotting(s, i))
  {
    match s.proc.snapshots[i]
    case Begun => SaveFlatInv(s, i);
    case FlatSaved => SaveHnswInv(s, i);
    case HnswSaved => SaveFilterInv(s, i);
    case FilterSaved => OpenIdFileInv(s, i);
    case IdFileOpened => WriteIdFileInv(s, i);
    case Done =>
  }

  lemma RaftStepInv(s: State, a: Action)
    requires Inv(s) && Step(s, a).Some? && (a.Append? || a.WriteAt? || a.ApplyPack? || a.Compact?)
    ensures Inv(Step(s, a).value)
  {
    match a
    case Append(e) => LoggingInv(s, Appended(s.proc.log, e), NextSlot(s.proc.log), e);
    case WriteAt(index, e) => LoggingInv(s, WrittenAt(s.proc.log, index, e), index, e);
    case ApplyPack(index, es) => PackedIds(s.proc.increaseID, s.proc.log, index, es);
    case Compact(last) =>
  }

  lemma StepInv(s: State, a: Action)
    requires Inv(s) && Step(s, a).Some? && CommitIsLogged(s, a)
    ensures Inv(Step(s, a).value)
  {
    match a
    case Start => StepIds(s, Start);
    case ReplayNext =>
      if s.disk.wal[s.proc.pos].id <= s.proc.lastSnapshotID { ReplaySkipInv(s); } else { ReplayApplyInv(s); }
    case Serve => ServeInv(s);
    case Commit(index) => CommitInv(s, index);
    case InsertVector => InsertInv(s);
    case IndexFields(fields) => FieldsInv(s, fields);
    case StoreDoc => StoreInv(s);
    case TakeSnapshot =>
    case SnapshotStep(i) => SnapshotStepInv(s, i);
    case Crash =>
    case _ => RaftStepInv(s, a);
  }

  lemma {:induction false} RunKeepsInv(actions: seq<Action>)
    requires Run(FRESH, actions).Some? && CommitsAreLogged(actions)
    ensures Inv(Run(FRESH, actions).value)
    decreases |actions|
  {
    if actions == [] {
      FreshInv();
    } else {
      RunKeepsInv(actions[..|actions| - 1]);
      StepInv(Run(FRESH, actions[..|actions| - 1]).value, actions[|actions| - 1]);
    }
  }
}
