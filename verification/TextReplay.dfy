/** Reload from the bytes of the log file: the text format and the replay of records, put together. */
module TextReplay {
  import opened Documents
  import opened Durability
  import opened TextFormats

  /** JSON parsing, as far as the storage layer is concerned: request bodies are logged as they came. */
  type Parser = string -> Option<Doc>

  const UPSERT := "upsert"
  const VERSION := "1.0"

  /** The entries `writeWALLogWithID` has written: the ids of the records, and the bodies their documents came in. */
  function EntriesOf(w: Wal, bodies: seq<string>): seq<Entry>
    requires |bodies| == |w|
  {
    seq(|w|, (i: nat) requires i < |w| => Entry(w[i].id, VERSION, UPSERT, bodies[i]))
  }

  ghost predicate Logs(w: Wal, bodies: seq<string>, parse: Parser) {
    |bodies| == |w| && forall i :: 0 <= i < |w| ==> parse(bodies[i]) == Some(w[i].payload)
  }

  /** Nothing in the bodies gets in the way of the format. */
  ghost predicate Storable(w: Wal, bodies: seq<string>, lastSnapshotID: nat)
    requires |bodies| == |w|
  {
    forall i :: 0 <= i < |w| ==>
      && w[i].id < 0x1_0000_0000_0000_0000
      && '\n' !in bodies[i]
      && (w[i].id > lastSnapshotID ==> Clean(bodies[i]))
  }

  /** What the loop does with one document it is handed: anything but an upsert is passed over. */
  function Applied(op: string, payload: string, parse: Parser, s: Store): Option<Store> {
    if op != UPSERT then Some(s)
    else match parse(payload)
      case None => None
      case Some(d) => Upsert(s, d)
  }

  /** The store at the end, or `None` if the process went down on the way, and the id counter. */
  datatype Reloaded = Reloaded(store: Option<Store>, increaseID: nat)

  /** The reload loop on the text of the log, with `op` in hand. */
  function ReplayText(text: string, op: string, lastSnapshotID: nat, increaseID: nat, parse: Parser, s: Store): Reloaded
    decreases 2 * |text| + 1
  {
    NextEntryIsShorter(text, op, lastSnapshotID, increaseID);
    AfterRead(NextEntry(text, op, lastSnapshotID, increaseID), lastSnapshotID, parse, s)
  }

  /** The loop once a call has returned. It clears the operation before the next one and ends when that is empty. */
  function AfterRead(r: Reading, lastSnapshotID: nat, parse: Parser, s: Store): Reloaded
    decreases if r.outcome.Read? then 2 * |r.rest| + 2 else 0
  {
    match r.outcome
    case Throws => Reloaded(None, r.increaseID)
    case End => Reloaded(Some(s), r.increaseID)
    case Read(op', payload) =>
      if op' == "" then Reloaded(Some(s), r.increaseID)
      else match Applied(op', payload, parse, s)
        case None => Reloaded(None, r.increaseID)
        case Some(s') => ReplayText(r.rest, "", lastSnapshotID, r.increaseID, parse, s')
  }

  lemma AfterReadStep(r: Reading, lastSnapshotID: nat, parse: Parser, s: Store)
    requires r.outcome.Read? && r.outcome.op != ""
    ensures var s' := Applied(r.outcome.op, r.outcome.payload, parse, s);
            && (s'.None? ==> AfterRead(r, lastSnapshotID, parse, s).store.None?)
            && (s'.Some? ==> AfterRead(r, lastSnapshotID, parse, s)
                             == AfterRead(NextEntry(r.rest, "", lastSnapshotID, r.increaseID), lastSnapshotID, parse, s'.value))
  {
  }

  lemma ReplayTextOfSame(t1: string, op1: string, id1: nat, t2: string, op2: string, id2: nat,
                         lastSnapshotID: nat, parse: Parser, s: Store)
    requires NextEntry(t1, op1, lastSnapshotID, id1) == NextEntry(t2, op2, lastSnapshotID, id2)
    ensures ReplayText(t1, op1, lastSnapshotID, id1, parse, s) == ReplayText(t2, op2, lastSnapshotID, id2, parse, s)
  {
  }

  lemma SkippedLine(e: Entry, rest: string, op: string, lastSnapshotID: nat, increaseID: nat, parse: Parser, s: Store)
    requires Plain(e) && e.id <= lastSnapshotID && '\n' !in e.payload
    ensures ReplayText(EntryLine(e) + "\n" + rest, op, lastSnapshotID, increaseID, parse, s)
         == ReplayText(rest, e.op, lastSnapshotID, Max(increaseID, e.id), parse, s)
  {
    FirstEntry(e, rest, op, lastSnapshotID, increaseID);
    ReplayTextOfSame(EntryLine(e) + "\n" + rest, op, increaseID, rest, e.op, Max(increaseID, e.id), lastSnapshotID, parse, s);
  }

  lemma ReplayedLine(e: Entry, rest: string, op: string, lastSnapshotID: nat, increaseID: nat, parse: Parser, s: Store)
    requires Plain(e) && e.id > lastSnapshotID && Clean(e.payload)
    ensures var s' := Applied(e.op, e.payload, parse, s);
            ReplayText(EntryLine(e) + "\n" + rest, op, lastSnapshotID, increaseID, parse, s)
            == if s'.None? then Reloaded(None, Max(increaseID, e.id))
               else ReplayText(rest, "", lastSnapshotID, Max(increaseID, e.id), parse, s'.value)
  {
    FirstEntry(e, rest, op, lastSnapshotID, increaseID);
    CutIff(e.payload);
  }

  lemma EntriesTail(w: Wal, bodies: seq<string>, p: nat)
    requires |bodies| == |w| && p < |w|
    ensures WalText(EntriesOf(w, bodies)[p..])
         == EntryLine(Entry(w[p].id, VERSION, UPSERT, bodies[p])) + "\n" + WalText(EntriesOf(w, bodies)[p + 1..])
  {
    assert EntriesOf(w, bodies)[p..][1..] == EntriesOf(w, bodies)[p + 1..];
  }

  lemma TailBehind(line: string, others: string, tail: string)
    ensures line + "\n" + others + tail == line + "\n" + (others + tail)
  {
  }

  /** The operation in hand behind the records: a skipped line leaves its own, a replayed one none. */
  function InHandBehind(w: Wal, lastSnapshotID: nat, op: string): string {
    if w == [] then op else if w[|w| - 1].id <= lastSnapshotID then UPSERT else ""
  }

  /** What the reload comes to when the records from `p` on are followed by more text. */
  ghost predicate EndsBehind(r: Reloaded, w: Wal, p: nat, lastSnapshotID: nat, op: string, tail: string, parse: Parser, s: Store)
    requires p <= |w|
  {
    var t := Replay(w, p, lastSnapshotID, s);
    && (t.None? ==> r.store.None?)
    && (t.Some? ==> r == ReplayText(tail, InHandBehind(w[p..], lastSnapshotID, op), lastSnapshotID, Highest(w), parse, t.value))
  }

  /** Reading one record off the file and applying it. */
  lemma OneRecord(w: Wal, bodies: seq<string>, p: nat, lastSnapshotID: nat, op: string, tail: string, parse: Parser, s: Store)
    requires Logs(w, bodies, parse) && Storable(w, bodies, lastSnapshotID) && p < |w|
    ensures var others, h, s' := WalText(EntriesOf(w, bodies)[p + 1..]) + tail, Highest(w[..p + 1]), Upsert(s, w[p].payload);
            ReplayText(WalText(EntriesOf(w, bodies)[p..]) + tail, op, lastSnapshotID, Highest(w[..p]), parse, s)
            == if w[p].id <= lastSnapshotID then ReplayText(others, UPSERT, lastSnapshotID, h, parse, s)
               else if s'.None? then Reloaded(None, h)
               else ReplayText(others, "", lastSnapshotID, h, parse, s'.value)
  {
    var e, others := Entry(w[p].id, VERSION, UPSERT, bodies[p]), WalText(EntriesOf(w, bodies)[p + 1..]);
    EntriesTail(w, bodies, p);
    TailBehind(EntryLine(e), others, tail);
    HighestUpTo(w, p);
    if w[p].id <= lastSnapshotID {
      SkippedLine(e, others + tail, op, lastSnapshotID, Highest(w[..p]), parse, s);
    } else {
      ReplayedLine(e, others + tail, op, lastSnapshotID, Highest(w[..p]), parse, s);
      assert Applied(UPSERT, bodies[p], parse, s) == Upsert(s, w[p].payload);
    }
  }

  /** Reading the log file from record `p` on and applying what comes out replays those records, then reads on. */
  lemma {:induction false} TextReplaysFrom(w: Wal, bodies: seq<string>, p: nat, lastSnapshotID: nat, op: string,
                                           tail: string, parse: Parser, s: Store)
    requires Logs(w, bodies, parse) && Storable(w, bodies, lastSnapshotID) && p <= |w|
    ensures var r := ReplayText(WalText(EntriesOf(w, bodies)[p..]) + tail, op, lastSnapshotID, Highest(w[..p]), parse, s);
            EndsBehind(r, w, p, lastSnapshotID, op, tail, parse, s)
    decreases |w| - p
  {
    if p == |w| {
      assert EntriesOf(w, bodies)[p..] == [] && w[..p] == w && "" + tail == tail;
    } else {
      OneRecord(w, bodies, p, lastSnapshotID, op, tail, parse, s);
      InHandNext(w, p, lastSnapshotID, op);
      if w[p].id <= lastSnapshotID {
        TextReplaysFrom(w, bodies, p + 1, lastSnapshotID, UPSERT, tail, parse, s);
      } else if Upsert(s, w[p].payload).Some? {
        TextReplaysFrom(w, bodies, p + 1, lastSnapshotID, "", tail, parse, Upsert(s, w[p].payload).value);
      }
    }
  }

  lemma InHandNext(w: Wal, p: nat, lastSnapshotID: nat, op: string)
    requires p < |w|
    ensures InHandBehind(w[p..], lastSnapshotID, op)
         == InHandBehind(w[p + 1..], lastSnapshotID, if w[p].id <= lastSnapshotID then UPSERT else "")
  {
  }

  /** Reading the log file and applying what comes out is the replay of the records that were written. */
  lemma TextReplayIsReplay(w: Wal, bodies: seq<string>, lastSnapshotID: nat, parse: Parser, s: Store)
    requires Logs(w, bodies, parse) && Storable(w, bodies, lastSnapshotID)
    ensures var r := ReplayText(WalText(EntriesOf(w, bodies)), "", lastSnapshotID, FIRST_ID, parse, s);
            && r.store == Replay(w, 0, lastSnapshotID, s)
            && (r.store.Some? ==> r.increaseID == Highest(w))
  {
    var text := WalText(EntriesOf(w, bodies));
    TextReplaysFrom(w, bodies, 0, lastSnapshotID, "", "", parse, s);
    assert EntriesOf(w, bodies)[0..] == EntriesOf(w, bodies) && w[..0] == [] && text + "" == text;
  }

  /** If the reader throws somewhere, the reload does not finish. */
  lemma {:induction false} ThrowingTextStops(text: string, op: string, lastSnapshotID: nat, increaseID: nat,
                                             parse: Parser, s: Store)
    requires ReadAll(text, op, lastSnapshotID).None?
    ensures ReplayText(text, op, lastSnapshotID, increaseID, parse, s).store.None?
    decreases |text|
  {
    NextEntryIsShorter(text, op, lastSnapshotID, increaseID);
    ReadAllStep(text, op, lastSnapshotID, increaseID);
    var r := NextEntry(text, op, lastSnapshotID, increaseID);
    if r.outcome.Read? && r.outcome.op != "" && Applied(r.outcome.op, r.outcome.payload, parse, s).Some? {
      ThrowingTextStops(r.rest, "", lastSnapshotID, r.increaseID, parse, Applied(r.outcome.op, r.outcome.payload, parse, s).value);
    }
  }
}
