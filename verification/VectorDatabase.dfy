/** `VectorDatabase` and the state machine that feeds it, method by method, against `Durability`, `SavedFiles` and `Search`. */
module VectorDatabaseObject {
  import opened Documents
  import opened IntFieldFilter
  import opened Durability
  import opened TextFormats
  import opened FilterDump
  import opened TextReplay
  import opened SavedFiles
  import opened PersistenceObject
  import opened Search

  class VectorDatabase {
    var scalar: map<nat, Doc>
    var flat: FlatIndex
    var hnsw: map<nat, Vector>
    const filterIndex: FilterIndex
    const persistence: Persistence
    const libraries: Libraries
    /** The index files of the last snapshot; missing files read as empty. */
    var savedFlat: FlatIndex
    var savedHnsw: map<nat, Vector>
    var savedFilter: string

    function State(): Store
      reads this, filterIndex
    {
      Store(scalar, Indexes(flat, hnsw, filterIndex.intFieldFilter))
    }

    function FilesOnDisk(): Files
      reads this, persistence
    {
      Files(scalar, persistence.text, savedFlat, savedHnsw, savedFilter, persistence.maxLogIDFile)
    }

    /** A process that has just been started. */
    ghost predicate Started()
      reads this, filterIndex, persistence
    {
      && filterIndex.intFieldFilter == map[]
      && persistence.Valid() && persistence.pos == 0 && persistence.increaseID == FIRST_ID
      && persistence.lastSnapshotID == persistence.maxLogIDFile
    }

    /** A new process on the files of an old one. */
    constructor (f: Files, l: Libraries)
      ensures fresh(filterIndex) && fresh(persistence)
      ensures Started() && FilesOnDisk() == f && libraries == l
    {
      scalar, savedFlat, savedHnsw, savedFilter := f.scalar, f.flat, f.hnsw, f.filter;
      flat, hnsw := [], map[];
      filterIndex := new FilterIndex();
      persistence := new Persistence.Init(f.wal, f.maxLogID);
      libraries := l;
    }

    /** `ok` is false when a missing field trips the JSON library's assertion; nothing stored has changed then. */
    method Upsert(d: Doc) returns (ok: bool)
      modifies this`scalar, this`flat, this`hnsw, filterIndex
      ensures ok <==> Durability.Upsert(old(State()), d).Some?
      ensures ok ==> State() == Durability.Upsert(old(State()), d).value
      ensures !ok ==> scalar == old(scalar)
      ensures ok ==> forall f, v :: f in d.ints && f != "id" && d.ints[f] == v && -2147483648 <= v <= 2147483647 ==>
                       d.id % 4294967296 in Bits(filterIndex.intFieldFilter, f, v)
    {
      ghost var before := State();
      var existing := At(scalar, d.id);
      if existing.Some? {
        if d.indexType == FLAT {
          flat := RemoveId(flat, d.id);
        }
      }
      if d.indexType == FLAT {
        flat := flat + [(d.id, d.vector)];
      } else if d.indexType == HNSW {
        hnsw := hnsw[d.id := d.vector];
      }
      ok := IndexMembers(existing, d);
      if ok {
        scalar := scalar[d.id := d];
        OwnBitsAreSet(before, d);
      }
    }

    /** The loop over the members of the new document. */
    method IndexMembers(existing: Option<Doc>, d: Doc) returns (ok: bool)
      modifies filterIndex
      ensures ok <==> !Aborts(existing, d)
      ensures ok ==> filterIndex.intFieldFilter == Reindexed(old(filterIndex.intFieldFilter), existing, d)
    {
      ghost var filter := filterIndex.intFieldFilter;
      ghost var done: set<string> := {};
      var todo := d.ints.Keys;
      assert filterIndex.intFieldFilter == ReindexedOn(filter, existing, d, {});
      while todo != {}
        invariant todo <= d.ints.Keys
        invariant done == IntFields(d).Keys - todo
        invariant existing.Some? ==> done <= existing.value.ints.Keys
        invariant filterIndex.intFieldFilter == ReindexedOn(filter, existing, d, done)
      {
        var f := Pick(todo);
        if IsInt(d.ints[f]) && f != "id" {
          assert f in IntFields(d) && f !in done;
          if existing.Some? && f !in existing.value.ints {
            return false;
          }
          var oldValue := if existing.Some? then Some(existing.value.ints[f]) else None;
          ReindexOneMore(filter, existing, d, done, f);
          filterIndex.UpdateIntFieldFilter(f, oldValue, d.ints[f], d.id);
          done := done + {f};
        }
        todo := todo - {f};
      }
      assert done == IntFields(d).Keys;
      return true;
    }

    /** Loads the snapshot, then reads and applies the log; `ok` is false when the process goes down on the way. */
    method ReloadDatabase() returns (ok: bool)
      requires Started()
      modifies this`scalar, this`flat, this`hnsw, filterIndex, persistence`pos, persistence`increaseID
      ensures var r := ReloadFiles(old(FilesOnDisk()), libraries);
              && (ok <==> r.store.Some?)
              && (ok ==> State() == r.store.value && persistence.increaseID == r.increaseID)
    {
      ok := LoadSnapshot();
      if ok {
        ok := ReplayWAL();
      }
    }

    /** The filter is parsed from its text, which can throw. */
    method LoadSnapshot() returns (ok: bool)
      requires filterIndex.intFieldFilter == map[]
      modifies this`flat, this`hnsw, filterIndex
      ensures ok <==> LoadFilter(savedFilter, libraries.codec).Some?
      ensures ok ==> State() == Store(scalar, Indexes(savedFlat, savedHnsw, LoadFilter(savedFilter, libraries.codec).value))
    {
      flat, hnsw := savedFlat, savedHnsw;
      ok := DeserializeIntFieldFilter(filterIndex, savedFilter, libraries.codec);
    }

    /** What the reload loop will come to, with the outcome of the last read in hand. */
    function Remaining(next: Outcome): Reloaded
      reads this, filterIndex, persistence
      requires persistence.pos <= |persistence.text|
    {
      AfterRead(Reading(next, persistence.text[persistence.pos..], persistence.increaseID),
                persistence.lastSnapshotID, libraries.parse, State())
    }

    /** The loop of `reloadDatabase`. */
    method ReplayWAL() returns (ok: bool)
      requires persistence.Valid() && persistence.pos == 0
      modifies this`scalar, this`flat, this`hnsw, filterIndex, persistence`pos, persistence`increaseID
      ensures var r := ReplayText(persistence.text, "", persistence.lastSnapshotID, old(persistence.increaseID),
                                  libraries.parse, old(State()));
              && (ok <==> r.store.Some?)
              && (ok ==> State() == r.store.value && persistence.increaseID == r.increaseID)
    {
      ghost var all := ReplayText(persistence.text, "", persistence.lastSnapshotID, persistence.increaseID,
                                  libraries.parse, State());
      assert persistence.text[0..] == persistence.text;
      var next := persistence.ReadNextWALLog("");
      while next.Read? && next.op != ""
        invariant persistence.Valid() && all == Remaining(next)
        decreases |persistence.text| - persistence.pos, next.Read?
      {
        ok, next := ApplyAndReadNext(next);
        if !ok {
          return false;
        }
      }
      return !next.Throws?;
    }

    /** The loop body: applies what is in hand and reads on. */
    method ApplyAndReadNext(next: Outcome) returns (ok: bool, next': Outcome)
      requires persistence.Valid() && next.Read? && next.op != ""
      modifies this`scalar, this`flat, this`hnsw, filterIndex, persistence`pos, persistence`increaseID
      ensures persistence.Valid()
      ensures !ok ==> old(Remaining(next)).store.None?
      ensures ok ==> Remaining(next') == old(Remaining(next))
      ensures ok ==> next'.Read? ==> old(persistence.pos) < persistence.pos
      ensures old(persistence.pos) <= persistence.pos
    {
      ghost var read := Reading(next, persistence.text[persistence.pos..], persistence.increaseID);
      AfterReadStep(read, persistence.lastSnapshotID, libraries.parse, State());
      next' := End;
      ok := Apply(next.op, next.payload);
      if ok {
        next' := persistence.ReadNextWALLog("");
      }
    }

    /** The loop body: only upserts are applied, and only documents that parse. */
    method Apply(op: string, payload: string) returns (ok: bool)
      modifies this`scalar, this`flat, this`hnsw, filterIndex
      ensures ok <==> Applied(op, payload, libraries.parse, old(State())).Some?
      ensures ok ==> State() == Applied(op, payload, libraries.parse, old(State())).value
    {
      if op != UPSERT {
        return true;
      }
      var d := libraries.parse(payload);
      if d.None? {
        return false;
      }
      ok := Upsert(d.value);
    }

    /** Index files first, the id file last. */
    method TakeSnapshot()
      modifies this`savedFlat, this`savedHnsw, this`savedFilter, persistence`lastSnapshotID, persistence`maxLogIDFile
      ensures savedFlat == flat && savedHnsw == hnsw
      ensures IsOrderedDumpOf(savedFilter, filterIndex.intFieldFilter, libraries.codec)
      ensures persistence.lastSnapshotID == persistence.maxLogIDFile == persistence.increaseID
    {
      persistence.lastSnapshotID := persistence.increaseID;
      savedFlat := flat;
      savedHnsw := hnsw;
      savedFilter := SerializeIntFieldFilter(filterIndex, libraries.codec);
      persistence.SaveLastSnapshotID();
    }

    method WriteWALLogWithID(logId: nat, data: string)
      requires persistence.Valid()
      modifies persistence`text, persistence`pos
      ensures persistence.Valid() && persistence.pos == |persistence.text|
      ensures persistence.text == old(persistence.text) + EntryLine(Entry(logId, VERSION, UPSERT, data)) + "\n"
    {
      persistence.WriteWALRawLog(Entry(logId, VERSION, UPSERT, data));
    }

    /** Filter and list are in step with the documents, whose ids fit a bitmap. */
    ghost predicate InStep()
      reads this, filterIndex
    {
      && Agrees(scalar, filterIndex.intFieldFilter)
      && (forall id :: id in scalar ==> id < 4294967296)
      && (forall id :: VectorsOf(flat, id) != [] ==> id in scalar)
    }

    /**
     * A FLAT search, with an optional filter. When everything is in step, a filter returns documents that carry
     * the field with the value for "=", with another one for every other operator, and all of them if k is large.
     */
    method SearchFlat(query: Vector, k: nat, filter: Option<FilterRequest>, dist: Distance) returns (labels: seq<int>)
      ensures filter.None? ==> IsAnswer(flat, None, query, dist, k, labels)
      ensures filter.Some? ==>
                IsAnswer(flat, Some(FilterBitmap(filterIndex.intFieldFilter, filter.value)), query, dist, k, labels)
      ensures InStep() && filter.Some? ==> forall i :: 0 <= i < |labels| && labels[i] != -1 ==>
                labels[i] >= 0 &&
                var id: nat, f := labels[i], filter.value.fieldName;
                && id in scalar && f in scalar[id].ints && f != "id" && -2147483648 <= scalar[id].ints[f] <= 2147483647
                && (filter.value.op == "=" ==> scalar[id].ints[f] == filter.value.value)
                && (filter.value.op != "=" ==> scalar[id].ints[f] != filter.value.value)
      ensures InStep() && filter.Some? && k >= |flat| ==> forall id: nat ::
                && id in scalar && VectorsOf(flat, id) != []
                && (var f := filter.value.fieldName;
                    && f in scalar[id].ints && f != "id" && -2147483648 <= scalar[id].ints[f] <= 2147483647
                    && (filter.value.op == "=" <==> scalar[id].ints[f] == filter.value.value))
                ==> id in labels
    {
      var bitmap: Option<Bitmap> := None;
      if filter.Some? {
        var r := filter.value;
        var op := if r.op == "=" then EQUAL else NOT_EQUAL;
        var selected := filterIndex.GetIntFieldFilterBitmap(r.fieldName, op, r.value, {});
        assert selected == FilterBitmap(filterIndex.intFieldFilter, r);
        bitmap := Some(selected);
      }
      var found := FlatSearch(flat, bitmap, query, dist, k);
      labels := Labels(flat, found, k);
      if InStep() && filter.Some? {
        FilteredSearch(scalar, State().indexes, filter.value, query, dist, k, labels);
      }
    }

    method GetStartIndexID() returns (id: nat)
      ensures id == persistence.increaseID
    {
      id := persistence.increaseID;
    }
  }

  lemma OwnBitsAreSet(s: Store, d: Doc)
    requires Durability.Upsert(s, d).Some?
    ensures forall f, v :: f in d.ints && f != "id" && d.ints[f] == v && -2147483648 <= v <= 2147483647 ==>
              d.id % 4294967296 in Bits(Durability.Upsert(s, d).value.indexes.filter, f, v)
  {
    forall f, v | f in d.ints && f != "id" && d.ints[f] == v && -2147483648 <= v <= 2147483647
      ensures d.id % 4294967296 in Bits(Durability.Upsert(s, d).value.indexes.filter, f, v)
    {
      UpsertedBits(s, d, f, v, d.id % 4294967296);
    }
  }

  class LogStateMachine {
    var lastCommittedIdx: nat
    const vectorDatabase: VectorDatabase

    /** `setVectorDatabase`. */
    constructor (vectorDatabase: VectorDatabase)
      ensures this.vectorDatabase == vectorDatabase && lastCommittedIdx == vectorDatabase.persistence.increaseID
    {
      this.vectorDatabase := vectorDatabase;
      new;
      lastCommittedIdx := vectorDatabase.GetStartIndexID();
    }

    /** Applies the content of an entry as one upsert; content that does not parse takes the process down. */
    method Commit(logIdx: nat, content: string) returns (ok: bool)
      modifies this`lastCommittedIdx
      modifies vectorDatabase`scalar, vectorDatabase`flat, vectorDatabase`hnsw, vectorDatabase.filterIndex
      ensures var result := Applied(UPSERT, content, vectorDatabase.libraries.parse, old(vectorDatabase.State()));
              && (ok <==> result.Some?)
              && (ok ==> vectorDatabase.State() == result.value && lastCommittedIdx == logIdx)
              && (!ok ==> vectorDatabase.scalar == old(vectorDatabase.scalar))
    {
      var d := vectorDatabase.libraries.parse(content);
      if d.None? {
        return false;
      }
      lastCommittedIdx := logIdx;
      ok := vectorDatabase.Upsert(d.value);
    }
  }
}
