/** What holds of every run of `RecoveryRuns`, and the runs that show where the original falls short. */
module RecoveryTheorems {
  import opened Documents
  import opened IntFieldFilter
  import opened LogStore
  import opened Durability
  import opened Settledness
  import opened ReplayTheory
  import opened RecoveryRuns
  import opened FlatListRuns

  /** The state an undisturbed reload starts from: the stored documents and the indexes read from the snapshot. */
  function Loaded(d: Disk): Store {
    Store(d.scalar, d.saved)
  }

  function Reload(d: Disk): Option<Store> {
    Replay(d.wal, 0, d.savedId, Loaded(d))
  }

  lemma ClaimedAreBeforeBoundary(d: Disk)
    requires DiskIds(d)
    ensures SplitsAt(d.wal, d.savedId, Claimed(d))
  {
  }

  /** What the snapshot leaves to the replay: every id that no replayed record has is as the log says. */
  ghost predicate DocsCarried(d: Disk) {
    ScalarSettled(d.wal, Claimed(d), d.scalar) && HnswSettled(d.wal, Claimed(d), d.saved.hnsw)
  }

  ghost predicate FlatCarried(d: Disk) {
    FlatSettled(d.wal, Claimed(d), d.saved.flat)
  }

  /** The record at `q` brings an integer field that the document it will find stored lacks. */
  ghost predicate AbortsAt(d: Disk, q: nat) {
    Claimed(d) <= q < |d.wal| && Aborts(FoundBy(d.wal, Claimed(d), q, d.scalar), d.wal[q].payload)
  }

  /**
   * Whether a reload finishes, in every run: exactly when each replayed record finds all its integer fields in the
   * document of its id before it.
   */
  lemma ReloadFinishesIff(actions: seq<Action>, s: State)
    requires Run(FRESH, actions) == Some(s)
    ensures Reload(s.disk).Some? <==> forall q :: !AbortsAt(s.disk, q)
  {
    RunKeepsIds(actions);
    var d := s.disk;
    ClaimedAreBeforeBoundary(d);
    ReplaySkips(d.wal, 0, d.savedId, Claimed(d), Loaded(d));
    ReplayFinishesIff(d.wal, Claimed(d), d.savedId, Claimed(d), Loaded(d));
    if forall q :: !AbortsAt(d, q) {
      forall q | Claimed(d) <= q < |d.wal| ensures !Aborts(FoundBy(d.wal, Claimed(d), q, d.scalar), d.wal[q].payload) {
        assert !AbortsAt(d, q);
      }
    }
  }

  /**
   * Last writer wins, in every run, whatever it did and wherever it was cut off. A reload that finishes leaves
   * the stored documents and HNSW labels as the last upsert of each id (and type) in the log says exactly when
   * the ids it does not replay were so already. It leaves one vector per id in the FLAT list, that of its last
   * FLAT upsert, exactly when the same holds of the saved list and no id is doubled.
   */
  lemma ReloadIsLastWriterWins(actions: seq<Action>, s: State)
    requires Run(FRESH, actions) == Some(s) && Reload(s.disk).Some?
    ensures ReflectsDocs(s.disk.wal, Reload(s.disk).value) <==> DocsCarried(s.disk)
    ensures ReflectsFlat(s.disk.wal, Reload(s.disk).value.indexes.flat) <==> FlatCarried(s.disk) && NoneDoubled(s.disk)
  {
    RunKeepsIds(actions);
    ReloadOfDisk(s.disk);
  }

  lemma ReloadOfDisk(d: Disk)
    requires DiskIds(d) && Reload(d).Some?
    ensures ReflectsDocs(d.wal, Reload(d).value) <==> DocsCarried(d)
    ensures ReflectsFlat(d.wal, Reload(d).value.indexes.flat) <==> FlatCarried(d) && NoneDoubled(d)
  {
    ClaimedAreBeforeBoundary(d);
    ReplayRecoversDocs(d.wal, d.savedId, Claimed(d), Loaded(d));
    ReplayRecoversFlat(d.wal, d.savedId, Claimed(d), Loaded(d));
  }

  /**
   * The FLAT list after a reload, id by id and in every run: the saved vectors stay if the replay has no FLAT
   * upsert of the id or doubles it, and the vector of the last replayed FLAT upsert comes behind them.
   */
  lemma FlatListAfterReload(actions: seq<Action>, s: State, id: nat)
    requires Run(FRESH, actions) == Some(s) && Reload(s.disk).Some?
    ensures var last := Last(s.disk.wal[Claimed(s.disk)..], id, Only(FLAT));
            VectorsOf(Reload(s.disk).value.indexes.flat, id)
            == (if last.None? || Doubled(s.disk.wal, Claimed(s.disk), Loaded(s.disk), id)
                then VectorsOf(s.disk.saved.flat, id) else [])
               + VectorOf(last)
  {
    RunKeepsIds(actions);
    var d := s.disk;
    ClaimedAreBeforeBoundary(d);
    ReplaySkips(d.wal, 0, d.savedId, Claimed(d), Loaded(d));
    ReplayOfId(d.wal, Claimed(d), d.savedId, Claimed(d), Loaded(d), id);
    FlatAfterReplay(d.wal, Claimed(d), Loaded(d), id);
  }

  /**
   * In every run that commits logged entries only, each snapshot carries what is needed: a reload that finishes
   * is right in the documents and labels, and the newest FLAT vector of each id is the one the log says. Documents
   * that keep their fields guarantee that it finishes.
   */
  lemma LoggedRunsRecover(actions: seq<Action>, s: State)
    requires Run(FRESH, actions) == Some(s) && CommitsAreLogged(actions)
    ensures DocsCarried(s.disk)
    ensures Reload(s.disk).Some? ==>
              && ReflectsDocs(s.disk.wal, Reload(s.disk).value)
              && FlatNewest(s.disk.wal, |s.disk.wal|, Reload(s.disk).value.indexes.flat)
    ensures Regular(s.disk.wal) ==> Reload(s.disk).Some?
    ensures s.proc.Reloading? && s.proc.pos == |s.disk.wal| ==> ReflectsDocs(s.disk.wal, StoreOf(s))
  {
    RunKeepsInv(actions);
    ClaimedAreBeforeBoundary(s.disk);
    ReplayRecovers(s.disk.wal, s.disk.savedId, Claimed(s.disk), Loaded(s.disk));
    if s.proc.Reloading? && s.proc.pos == |s.disk.wal| {
      SettledReflects(s.disk.wal, StoreOf(s));
    }
  }

  /** If moreover no reload so far has doubled a vector, the saved FLAT list carries what is needed, too. */
  lemma UndoubledRunsCarryFlat(actions: seq<Action>, s: State)
    requires Run(FRESH, actions) == Some(s) && CommitsAreLogged(actions) && StartsAreUndoubled(actions)
    ensures FlatCarried(s.disk)
    ensures Reload(s.disk).Some? ==>
              (ReflectsFlat(s.disk.wal, Reload(s.disk).value.indexes.flat) <==> NoneDoubled(s.disk))
  {
    RunKeepsIds(actions);
    RunKeepsFlat(actions);
    if Reload(s.disk).Some? {
      ReloadOfDisk(s.disk);
    }
  }

  /**
   * The sufficient condition an operator can keep to: if no snapshot saves the FLAT list inside a commit, every
   * reload that finishes reflects the whole log.
   */
  lemma QuietRunsRecover(actions: seq<Action>, s: State)
    requires Run(FRESH, actions) == Some(s) && CommitsAreLogged(actions) && SnapshotsAreQuiet(actions)
    requires Reload(s.disk).Some?
    ensures Reflects(s.disk.wal, Reload(s.disk).value)
  {
    QuietRunsAreUndoubled(actions);
    LoggedRunsRecover(actions, s);
    UndoubledRunsCarryFlat(actions, s);
  }

  /**
   * The filter after a reload. Every document is in the bitmaps of its stored values; the bitmaps hold nothing
   * else exactly when each bit of the saved filter belongs to the value stored at the time of the crash or to
   * a value that the replayed records write.
   */
  lemma FilterAfterReload(actions: seq<Action>, s: State)
    requires Run(FRESH, actions) == Some(s) && CommitsAreLogged(actions)
    requires Regular(s.disk.wal)
    ensures Reload(s.disk).Some?
    ensures var r := Reload(s.disk).value;
            && (forall id, f, v :: id in r.scalar && Has(r.scalar[id], f, v) ==> id in Bits(r.indexes.filter, f, v))
            && (Agrees(r.scalar, r.indexes.filter) <==> BitsAccounted(s.disk.wal, Claimed(s.disk), Loaded(s.disk)))
  {
    RunKeepsInv(actions);
    ClaimedAreBeforeBoundary(s.disk);
    ReplayRecovers(s.disk.wal, s.disk.savedId, Claimed(s.disk), Loaded(s.disk));
  }

  /** As long as no snapshot of a later epoch has been completed, replay covers the whole log: all bits are accounted for. */
  lemma FullReplayAccountsForBits(actions: seq<Action>, s: State)
    requires Run(FRESH, actions) == Some(s) && CommitsAreLogged(actions)
    requires s.disk.savedId <= FIRST_ID
    ensures BitsAccounted(s.disk.wal, Claimed(s.disk), Loaded(s.disk))
  {
    RunKeepsInv(actions);
    AllAbove(s.disk.wal, s.disk.savedId);
  }

  /**
   * Epochs, in every run. The claimed id never exceeds the counter, which stays below the Raft start index, and
   * the records of earlier epochs are exactly those up to the counter.
   */
  lemma IdEpochs(actions: seq<Action>, s: State)
    requires Run(FRESH, actions) == Some(s)
    requires s.proc.Running?
    ensures s.disk.savedId <= s.proc.increaseID < s.proc.log.start
    ensures var w, n, e := s.disk.wal, Claimed(s.disk), Boundary(s.disk.wal, s.proc.increaseID);
            && n <= e
            && (forall j :: 0 <= j < |w| ==> (j < n <==> w[j].id <= s.disk.savedId))
            && (forall j :: 0 <= j < |w| ==> (j < e <==> w[j].id <= s.proc.increaseID))
  {
    RunKeepsIds(actions);
    BoundaryMonotone(s.disk.wal, s.disk.savedId, s.proc.increaseID);
  }

  /** What the snapshot claims is in its indexes unless a later record changes it again: replay misses nothing. */
  lemma ClaimedRecordsAreSaved(actions: seq<Action>, s: State)
    requires Run(FRESH, actions) == Some(s) && CommitsAreLogged(actions)
    ensures forall id :: HnswSettledAt(s.disk.wal, Claimed(s.disk), s.disk.saved.hnsw, id)
    ensures Regular(s.disk.wal) ==> forall id :: FilterCoversAt(s.disk.wal, Claimed(s.disk), s.disk.saved.filter, id)
    ensures StartsAreUndoubled(actions) ==>
              forall id :: FlatSettledAt(s.disk.wal, Claimed(s.disk), s.disk.saved.flat, id)
  {
    RunKeepsInv(actions);
    if StartsAreUndoubled(actions) {
      RunKeepsFlat(actions);
    }
  }

  /** Every record written in an epoch has an id above all records of the epochs before. */
  lemma NewIdsExceedEarlierEpochs(actions: seq<Action>, s: State, a: Action, s': State)
    requires Run(FRESH, actions) == Some(s) && Step(s, a) == Some(s')
    requires s'.disk.wal != s.disk.wal
    ensures s.proc.Running? && |s'.disk.wal| == |s.disk.wal| + 1 && s'.disk.wal[..|s.disk.wal|] == s.disk.wal
    ensures forall j :: 0 <= j < Boundary(s.disk.wal, s.proc.increaseID) ==>
              s.disk.wal[j].id < s'.disk.wal[|s.disk.wal|].id
  {
    RunKeepsIds(actions);
  }

  // ---------------------------------------------------------------------------------------------
  // Commits of entries that are not in the log
  // ---------------------------------------------------------------------------------------------

  /** The disk after `d` has been stored on top. */
  function WithStored(d: Disk, doc: Doc): Disk {
    d.(scalar := d.scalar[doc.id := doc])
  }

  ghost predicate Rewrites(w: Wal, n: nat, id: nat) {
    exists j :: n <= j < |w| && w[j].payload.id == id
  }

  lemma RewritesIff(w: Wal, n: nat, id: nat)
    requires n <= |w|
    ensures Rewrites(w, n, id) <==> Last(w[n..], id, Any).Some?
  {
    if Rewrites(w, n, id) {
      var j :| n <= j < |w| && w[j].payload.id == id;
      assert w[n..][j - n] == w[j];
      LastIsSome(w[n..], j - n, id, Any);
    }
    if Last(w[n..], id, Any).Some? {
      LastIsThere(w[n..], id, Any);
      var j :| 0 <= j < |w[n..]| && w[n..][j].payload == Last(w[n..], id, Any).value;
      assert w[n + j].payload.id == id;
    }
  }

  /** One document of a reload: the last replayed one, or else the stored one. */
  lemma DocAfterReload(d: Disk, id: nat)
    requires DiskIds(d) && Reload(d).Some?
    ensures At(Reload(d).value.scalar, id) == OrElse(Last(d.wal[Claimed(d)..], id, Any), At(d.scalar, id))
    ensures LabelOf(Reload(d).value.indexes.hnsw, id)
         == (var last := Last(d.wal[Claimed(d)..], id, Only(HNSW));
             if last.Some? then VectorOf(last) else LabelOf(d.saved.hnsw, id))
  {
    ClaimedAreBeforeBoundary(d);
    ReplaySkips(d.wal, 0, d.savedId, Claimed(d), Loaded(d));
    ReplayOfId(d.wal, Claimed(d), d.savedId, Claimed(d), Loaded(d), id);
  }

  lemma DocsAfterStored(d: Disk, doc: Doc)
    requires DiskIds(d) && DocsCarried(d) && Reload(WithStored(d, doc)).Some?
    ensures ReflectsDocs(d.wal, Reload(WithStored(d, doc)).value) <==>
            Rewrites(d.wal, Claimed(d), doc.id) || Last(d.wal, doc.id, Any) == Some(doc)
  {
    var d', w, n := WithStored(d, doc), d.wal, Claimed(d);
    var r := Reload(d').value;
    forall id
      ensures LabelOf(r.indexes.hnsw, id) == VectorOf(Last(w, id, Only(HNSW)))
      ensures At(r.scalar, id) == Last(w, id, Any) <==>
              (id == doc.id ==> Rewrites(w, n, doc.id) || Last(w, doc.id, Any) == Some(doc))
    {
      DocAfterReload(d', id);
      LastSplit(w, n, id, Any);
      LastSplit(w, n, id, Only(HNSW));
      RewritesIff(w, n, id);
      assert HnswSettledAt(w, n, d.saved.hnsw, id);
      assert ScalarSettledAt(w, n, d.scalar, id);
    }
  }

  /**
   * The end of one commit, of a document that is in the log or, having arrived in a packed buffer, is not: where a
   * reload would have been right in the documents and labels before it, one right after it reflects the log
   * exactly when the FLAT list does, and the replay writes the document's id again or the document is the last
   * one of its id in the log anyway.
   */
  lemma CommitIff(actions: seq<Action>, s: State, s': State)
    requires Run(FRESH, actions) == Some(s) && DocsCarried(s.disk)
    requires Step(s, StoreDoc) == Some(s') && Reload(s'.disk).Some?
    ensures var d := s.proc.pending.value.doc;
            Reflects(s.disk.wal, Reload(s'.disk).value) <==>
            && FlatCarried(s.disk) && NoneDoubled(s'.disk)
            && (Rewrites(s.disk.wal, Claimed(s.disk), d.id) || Last(s.disk.wal, d.id, Any) == Some(d))
  {
    var d := s.proc.pending.value.doc;
    RunKeepsIds(actions);
    assert s'.disk == WithStored(s.disk, d);
    DocsAfterStored(s.disk, d);
    ReloadOfDisk(s'.disk);
  }

  /**
   * What a reload does to the stored documents, the committed ones among them: it keeps a document exactly when
   * no replayed record has its id or the last such record holds the same document. Records that Raft has
   * overwritten or not committed are still in the log and count.
   */
  lemma ReloadKeepsDocIff(actions: seq<Action>, s: State, id: nat)
    requires Run(FRESH, actions) == Some(s) && Reload(s.disk).Some?
    ensures At(Reload(s.disk).value.scalar, id) == At(s.disk.scalar, id) <==>
            (Rewrites(s.disk.wal, Claimed(s.disk), id) ==>
               Last(s.disk.wal[Claimed(s.disk)..], id, Any) == At(s.disk.scalar, id))
  {
    RunKeepsIds(actions);
    DocAfterReload(s.disk, id);
    RewritesIff(s.disk.wal, Claimed(s.disk), id);
  }

  /** The documents Raft has committed in a run, the last one of each id. */
  function Committed(actions: seq<Action>): map<nat, Doc> {
    if actions == [] then map[] else
      var front := actions[..|actions| - 1];
      match Run(FRESH, front)
      case None => Committed(front)
      case Some(s) =>
        if actions[|actions| - 1].StoreDoc? && s.proc.Running? && s.proc.pending.Some?
        then Committed(front)[s.proc.pending.value.doc.id := s.proc.pending.value.doc] else Committed(front)
  }

  /** The recovered store is the committed one exactly when the last logged document of every id is the last committed one. */
  lemma RecoveredIsCommittedIff(actions: seq<Action>, s: State)
    requires Run(FRESH, actions) == Some(s) && CommitsAreLogged(actions) && Reload(s.disk).Some?
    ensures (forall id :: At(Reload(s.disk).value.scalar, id) == At(Committed(actions), id)) <==>
            (forall id :: Last(s.disk.wal, id, Any) == At(Committed(actions), id))
  {
    LoggedRunsRecover(actions, s);
    assert forall id :: At(Reload(s.disk).value.scalar, id) == Last(s.disk.wal, id, Any);
  }

  /** Taking `ReplayNext` steps until the log is used up or an upsert aborts. */
  function ReplaySteps(s: State): State
    requires s.proc.Reloading? ==> s.proc.pos <= |s.disk.wal|
    decreases if s.proc.Reloading? then |s.disk.wal| - s.proc.pos + 1 else 0
  {
    if !s.proc.Reloading? || s.proc.pos == |s.disk.wal| then s else ReplaySteps(Step(s, ReplayNext).value)
  }

  /** Where the replay function leads from here: ready to serve, or down if an upsert aborts. */
  ghost predicate EndsAsReplayed(s: State, end: State)
    requires s.proc.Reloading? && s.proc.pos <= |s.disk.wal|
  {
    var r := Replay(s.disk.wal, s.proc.pos, s.proc.lastSnapshotID, StoreOf(s));
    && (r.None? ==> end.proc.Down?)
    && (r.Some? ==> end == State(s.disk.(scalar := r.value.scalar),
                                 Reloading(r.value.indexes, |s.disk.wal|, Highest(s.disk.wal), s.proc.lastSnapshotID)))
  }

  lemma OneReplayStep(s: State, s': State)
    requires s.proc.Reloading? && s.proc.pos < |s.disk.wal|
    requires Step(s, ReplayNext) == Some(s')
    ensures s'.disk.wal == s.disk.wal
    ensures !s'.proc.Reloading? ==>
              s'.proc.Down? && Replay(s.disk.wal, s.proc.pos, s.proc.lastSnapshotID, StoreOf(s)).None?
    ensures s'.proc.Reloading? ==>
              && s'.proc.pos == s.proc.pos + 1 && s'.proc.lastSnapshotID == s.proc.lastSnapshotID
              && s'.disk == s.disk.(scalar := s'.disk.scalar)
              && s'.proc.increaseID == Max(s.proc.increaseID, s.disk.wal[s.proc.pos].id)
              && Replay(s.disk.wal, s.proc.pos, s.proc.lastSnapshotID, StoreOf(s))
              == Replay(s.disk.wal, s.proc.pos + 1, s.proc.lastSnapshotID, StoreOf(s'))
  {
  }

  /** An undisturbed reload, step by step, is `Reload`. */
  lemma {:induction false} ReloadStepByStep(s: State)
    requires s.proc.Reloading? && s.proc.pos <= |s.disk.wal|
    requires s.proc.increaseID == Highest(s.disk.wal[..s.proc.pos])
    ensures EndsAsReplayed(s, ReplaySteps(s))
    decreases |s.disk.wal| - s.proc.pos
  {
    if s.proc.pos == |s.disk.wal| {
      assert s.disk.wal[..s.proc.pos] == s.disk.wal;
    } else {
      var s1 := Step(s, ReplayNext).value;
      OneReplayStep(s, s1);
      HighestUpTo(s.disk.wal, s.proc.pos);
      if s1.proc.Reloading? {
        ReloadStepByStep(s1);
      }
    }
  }

  // ---------------------------------------------------------------------------------------------
  // Whether the server ever serves again
  // ---------------------------------------------------------------------------------------------

  lemma RunSnoc(s: State, actions: seq<Action>, a: Action)
    requires Run(s, actions).Some?
    ensures Run(s, actions + [a]) == Step(Run(s, actions).value, a)
  {
    assert (actions + [a])[..|actions|] == actions;
  }

  /**
   * Nothing has been served since the state `s`, and the record at `q` still stands in the way: every reload so
   * far has at most stored documents of the records before it.
   */
  ghost predicate Stuck(d: Disk, q: nat, s: State)
    requires Claimed(d) <= q < |d.wal|
  {
    var id, n := d.wal[q].payload.id, Claimed(d);
    && s.disk == d.(scalar := s.disk.scalar) && !s.proc.Running?
    && FoundBy(d.wal, n, q, s.disk.scalar) == FoundBy(d.wal, n, q, d.scalar)
    && (s.proc.Reloading? ==>
          && s.proc.pos <= q && s.proc.lastSnapshotID == d.savedId
          && (n <= s.proc.pos ==> At(s.disk.scalar, id) == OrElse(Last(d.wal[n..s.proc.pos], id, Any), At(s.disk.scalar, id))))
  }

  lemma LastOfRange(w: Wal, n: nat, p: nat, id: nat)
    requires n <= p < |w|
    ensures Last(w[n..p + 1], id, Any) == if w[p].payload.id == id then Some(w[p].payload) else Last(w[n..p], id, Any)
  {
    assert w[n..p + 1] == w[n..p] + [w[p]];
    assert (w[n..p] + [w[p]])[..p - n] == w[n..p];
  }

  /** What the record at `q` will find does not depend on whether an earlier one has been stored already. */
  lemma FoundAfterStored(w: Wal, n: nat, p: nat, q: nat, scalar: map<nat, Doc>)
    requires n <= p < q < |w|
    ensures FoundBy(w, n, q, scalar[w[p].payload.id := w[p].payload]) == FoundBy(w, n, q, scalar)
  {
    if w[p].payload.id == w[q].payload.id {
      assert w[n..q][p - n] == w[p];
      LastIsSome(w[n..q], p - n, w[q].payload.id, Any);
    }
  }

  lemma StuckReplay(d: Disk, q: nat, s: State)
    requires DiskIds(d) && AbortsAt(d, q) && Stuck(d, q, s) && Step(s, ReplayNext).Some?
    ensures Stuck(d, q, Step(s, ReplayNext).value)
  {
    ClaimedAreBeforeBoundary(d);
    var w, n, p := d.wal, Claimed(d), s.proc.pos;
    if w[p].id <= d.savedId {
      assert w[n..n] == [];
    } else if p < q {
      LastOfRange(w, n, p, w[q].payload.id);
      FoundAfterStored(w, n, p, q, s.disk.scalar);
    }
  }

  lemma {:induction false} StuckForGood(s: State, q: nat, more: seq<Action>)
    requires s.proc.Down? && DiskIds(s.disk) && AbortsAt(s.disk, q) && Run(s, more).Some?
    ensures Stuck(s.disk, q, Run(s, more).value)
    decreases |more|
  {
    if more != [] {
      StuckForGood(s, q, more[..|more| - 1]);
      var s', a := Run(s, more[..|more| - 1]).value, more[|more| - 1];
      match a
      case ReplayNext => StuckReplay(s.disk, q, s');
      case Start => assert s.disk.wal[Claimed(s.disk)..Claimed(s.disk)] == [];
      case _ =>
    }
  }

  /** From a reload that will finish, the steps up to serving. */
  lemma {:induction false} ServesIn(s: State, t: State, more: seq<Action>) returns (more': seq<Action>)
    requires Run(s, more) == Some(t) && t.proc.Reloading? && t.proc.pos <= |t.disk.wal|
    requires Replay(t.disk.wal, t.proc.pos, t.proc.lastSnapshotID, StoreOf(t)).Some?
    ensures Run(s, more').Some? && Run(s, more').value.proc.Running?
    decreases |t.disk.wal| - t.proc.pos
  {
    if t.proc.pos == |t.disk.wal| {
      RunSnoc(s, more, Serve);
      more' := more + [Serve];
    } else {
      RunSnoc(s, more, ReplayNext);
      var t' := Step(t, ReplayNext).value;
      OneReplayStep(t, t');
      more' := ServesIn(s, t', more + [ReplayNext]);
    }
  }

  /** After a crash the server can serve again, in whatever number of attempts, exactly when an undisturbed reload finishes. */
  lemma ServesAgainIff(actions: seq<Action>, s: State)
    requires Run(FRESH, actions) == Some(s) && s.proc.Down?
    ensures (exists more :: Run(s, more).Some? && Run(s, more).value.proc.Running?) <==> Reload(s.disk).Some?
  {
    RunKeepsIds(actions);
    ReloadFinishesIff(actions, s);
    if Reload(s.disk).Some? {
      RunSnoc(s, [], Start);
      var more := ServesIn(s, Step(s, Start).value, [] + [Start]);
    } else {
      var q :| AbortsAt(s.disk, q);
      forall more | Run(s, more).Some? ensures !Run(s, more).value.proc.Running? {
        StuckForGood(s, q, more);
      }
    }
  }
}
