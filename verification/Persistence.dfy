/** `Persistence`: the write-ahead log file, its read position, and the two id counters. */
module PersistenceObject {
  import opened Documents
  import opened TextFormats
  import Durability

  class Persistence {
    var increaseID: nat
    var lastSnapshotID: nat
    /** The contents of the log file, and how far it has been read. */
    var text: string
    var pos: nat
    /** The number in `snapshots_MaxLogID`; a missing or an empty file reads as 0. */
    var maxLogIDFile: nat

    ghost predicate Valid()
      reads this
    {
      pos <= |text|
    }

    /** Opens the files a previous process has left behind. */
    constructor Init(text: string, maxLogIDFile: nat)
      ensures Valid() && this.text == text && pos == 0 && increaseID == Durability.FIRST_ID
      ensures lastSnapshotID == this.maxLogIDFile == maxLogIDFile
    {
      this.text, pos := text, 0;
      increaseID, lastSnapshotID := Durability.FIRST_ID, maxLogIDFile;
      this.maxLogIDFile := maxLogIDFile;
    }

    /** `std::ios::app`: every write goes to the end, and reading goes on behind it. */
    method WriteWALRawLog(e: Entry)
      requires Valid()
      modifies this`text, this`pos
      ensures Valid() && text == old(text) + EntryLine(e) + "\n" && pos == |text|
    {
      text := text + EntryLine(e) + "\n";
      pos := |text|;
    }

    method GetLine() returns (ok: bool, line: string)
      requires Valid()
      modifies this`pos
      ensures Valid() && ok == (old(text[pos..]) != "")
      ensures ok ==> line == Line(old(text[pos..])) && text[pos..] == AfterLine(old(text[pos..]))
      ensures if ok then old(pos) < pos else pos == old(pos)
    {
      if pos == |text| {
        return false, "";
      }
      var n := Find(text[pos..], '\n');
      line := text[pos..][..n];
      ok := true;
      pos := if pos + n < |text| then pos + n + 1 else |text|;
    }

    /** The next entry beyond the snapshot, the end of the log, or an exception; `op` is what the caller has in hand. */
    method ReadNextWALLog(op: string) returns (r: Outcome)
      requires Valid()
      modifies this`pos, this`increaseID
      ensures Valid() && old(pos) <= pos && (r.Read? ==> old(pos) < pos)
      ensures Reading(r, text[pos..], increaseID) == NextEntry(old(text[pos..]), op, lastSnapshotID, old(increaseID))
    {
      var op' := op;
      while true
        invariant Valid() && old(pos) <= pos
        invariant NextEntry(old(text[pos..]), op, lastSnapshotID, old(increaseID))
               == NextEntry(text[pos..], op', lastSnapshotID, increaseID)
        decreases |text| - pos
      {
        NextEntryStep(text[pos..], op', lastSnapshotID, increaseID);
        var ok, line := GetLine();
        if !ok {
          return End;
        }
        var verdict := HandleLine(line, op');
        if verdict.Bad? {
          return Throws;
        }
        if verdict.HandOut? {
          return Read(verdict.op, verdict.payload);
        }
        op' := verdict.op;
      }
    }

    /** Splits a line, raises the id counter, and compares the id with the snapshot's. */
    method HandleLine(line: string, op: string) returns (v: Verdict)
      modifies this`increaseID
      ensures v == Judge(line, op, lastSnapshotID)
      ensures increaseID == if v.Bad? then old(increaseID) else Max(old(increaseID), v.id)
    {
      var (idText, op', payload) := Fields(line, op);
      var id := Stoull(idText);
      if id.None? {
        return Bad;
      }
      if id.value > increaseID {
        increaseID := id.value;
      }
      if id.value > lastSnapshotID {
        return HandOut(id.value, op', UpTo(payload, '\0'));
      }
      return Skip(id.value, op');
    }

    method SaveLastSnapshotID()
      modifies this`maxLogIDFile
      ensures maxLogIDFile == lastSnapshotID
    {
      maxLogIDFile := lastSnapshotID;
    }
  }
}
