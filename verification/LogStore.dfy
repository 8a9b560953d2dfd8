/** `inmem_log_store`: Raft's log kept in a map plus a start index, writing application entries to the WAL. */
module LogStore {
  import opened Documents

  /** `payload` is the request text that follows the four length bytes; `app` tells application entries apart. */
  datatype LogEntry<+P> = LogEntry(term: nat, app: bool, payload: P)

  datatype WalRecord<+P> = WalRecord(id: nat, payload: P)

  datatype Log<+P> = Log(start: nat, entries: map<nat, LogEntry<P>>)

  // ---------------------------------------------------------------------------------------------
  // The operations on values
  // ---------------------------------------------------------------------------------------------

  /** One past the last index, computed from the number of stored entries minus the dummy. */
  function NextSlot<P>(log: Log<P>): int {
    log.start + |log.entries| - 1
  }

  function Fresh<P>(startIndexID: nat, dummy: P): Log<P> {
    Log(startIndexID + 1, map[0 := LogEntry(0, false, dummy)])
  }

  function Appended<P>(log: Log<P>, e: LogEntry<P>): Log<P>
    requires 0 in log.entries
  {
    assert |log.entries| > 0;
    log.(entries := log.entries[NextSlot(log) := e])
  }

  function Below<P>(entries: map<nat, LogEntry<P>>, index: nat): map<nat, LogEntry<P>> {
    map k | k in entries && k < index :: entries[k]
  }

  function WrittenAt<P>(log: Log<P>, index: nat, e: LogEntry<P>): Log<P> {
    log.(entries := Below(log.entries, index)[index := e])
  }

  function Outside<P>(entries: map<nat, LogEntry<P>>, lo: nat, hi: nat): map<nat, LogEntry<P>> {
    map k | k in entries && !(lo <= k < hi) :: entries[k]
  }

  function Compacted<P>(log: Log<P>, last: nat): Log<P> {
    Log(if log.start <= last then last + 1 else log.start, Outside(log.entries, log.start, last + 1))
  }

  /** A missing index reads as the dummy entry. */
  function Looked<P>(log: Log<P>, index: nat): LogEntry<P>
    requires 0 in log.entries
  {
    if index in log.entries then log.entries[index] else log.entries[0]
  }

  /** The map after the entries have been stored one by one from `index` on. */
  function Merged<P>(entries: map<nat, LogEntry<P>>, index: nat, es: seq<LogEntry<P>>)
    : map<nat, LogEntry<P>>
  {
    if es == [] then entries else
      var last := |es| - 1;
      Merged(entries, index, es[..last])[index + last := es[last]]
  }

  lemma {:induction false} MergedContents<P>(entries: map<nat, LogEntry<P>>, index: nat, es: seq<LogEntry<P>>)
    ensures var merged := Merged(entries, index, es);
            && (forall k :: k in merged <==> k in entries || index <= k < index + |es|)
            && forall k :: k in merged ==>
                 merged[k] == if index <= k < index + |es| then es[k - index] else entries[k]
  {
    if es != [] {
      MergedContents(entries, index, es[..|es| - 1]);
    }
  }

  /** `upper_bound(0)`: the smallest positive key, or 1 when there is none. */
  ghost predicate IsFirstIndex(keys: set<nat>, first: nat) {
    if exists k :: k in keys && k > 0
    then first in keys && first > 0 && forall k :: k in keys && k > 0 ==> first <= k
    else first == 1
  }

  // ---------------------------------------------------------------------------------------------
  // The abstraction: a base index and a sequence of entries
  // ---------------------------------------------------------------------------------------------

  lemma {:induction false} RangeSize(keys: set<nat>, lo: nat, hi: nat)
    requires lo <= hi
    requires forall k :: k in keys <==> lo <= k < hi
    ensures |keys| == hi - lo
    decreases hi - lo
  {
    if lo < hi {
      RangeSize(keys - {hi - 1}, lo, hi - 1);
    } else {
      assert keys == {};
    }
  }

  /** The keys are the dummy 0 and the interval from the start index up to `next`. */
  ghost predicate Spans<P>(log: Log<P>, next: int) {
    && 0 < log.start <= next
    && forall k: nat :: k in log.entries <==> k == 0 || log.start <= k < next
  }

  ghost predicate Interval<P>(log: Log<P>) {
    Spans(log, NextSlot(log))
  }

  ghost function View<P>(log: Log<P>): (v: seq<LogEntry<P>>)
    requires Interval(log)
    ensures |v| == NextSlot(log) - log.start
  {
    seq(NextSlot(log) - log.start, i requires 0 <= i < NextSlot(log) - log.start => log.entries[log.start + i])
  }

  lemma IntervalFromKeys<P>(log: Log<P>, next: nat)
    requires Spans(log, next)
    ensures NextSlot(log) == next && Interval(log)
  {
    RangeSize(log.entries.Keys - {0}, log.start, next);
  }

  lemma FreshView<P>(startIndexID: nat, dummy: P)
    ensures Interval(Fresh(startIndexID, dummy)) && View(Fresh(startIndexID, dummy)) == []
  {
    IntervalFromKeys(Fresh(startIndexID, dummy), startIndexID + 1);
  }

  lemma AppendIsSnoc<P>(log: Log<P>, e: LogEntry<P>)
    requires Interval(log)
    ensures Interval(Appended(log, e)) && Appended(log, e).start == log.start
    ensures View(Appended(log, e)) == View(log) + [e]
  {
    assert |log.entries| > 0;
    IntervalFromKeys(Appended(log, e), NextSlot(log) + 1);
  }

  lemma WriteBelowStartBreaks<P>(log: Log<P>, index: nat, e: LogEntry<P>)
    requires Interval(log) && 0 < index < log.start
    ensures !Interval(WrittenAt(log, index, e))
  {
    var log' := WrittenAt(log, index, e);
    assert log'.entries.Keys == {0, index};
    assert NextSlot(log') == log.start + 1;
    assert log.start !in log'.entries;
  }

  lemma WritePastEndBreaks<P>(log: Log<P>, index: nat, e: LogEntry<P>)
    requires Interval(log) && index > NextSlot(log)
    ensures !Interval(WrittenAt(log, index, e))
  {
    var log' := WrittenAt(log, index, e);
    assert log'.entries.Keys == log.entries.Keys + {index};
    assert NextSlot(log') == NextSlot(log) + 1;
    assert NextSlot(log) !in log'.entries;
  }

  /** `write_at` keeps the interval exactly for indexes in the log, the next slot, or 0 (which empties the log). */
  lemma WriteAtInterval<P>(log: Log<P>, index: nat, e: LogEntry<P>)
    requires Interval(log)
    ensures Interval(WrittenAt(log, index, e)) <==> index == 0 || log.start <= index <= NextSlot(log)
  {
    if index == 0 {
      IntervalFromKeys(WrittenAt(log, index, e), log.start);
    } else if index < log.start {
      WriteBelowStartBreaks(log, index, e);
    } else if index <= NextSlot(log) {
      IntervalFromKeys(WrittenAt(log, index, e), index + 1);
    } else {
      WritePastEndBreaks(log, index, e);
    }
  }

  lemma WriteAtIsTruncateThenSnoc<P>(log: Log<P>, index: nat, e: LogEntry<P>)
    requires Interval(log) && log.start <= index <= NextSlot(log)
    ensures Interval(WrittenAt(log, index, e)) && WrittenAt(log, index, e).start == log.start
    ensures View(WrittenAt(log, index, e)) == View(log)[..index - log.start] + [e]
  {
    IntervalFromKeys(WrittenAt(log, index, e), index + 1);
  }

  /** Compacting past the end empties the log and moves the start index beyond it. */
  lemma CompactIsDrop<P>(log: Log<P>, last: nat)
    requires Interval(log)
    ensures Interval(Compacted(log, last))
    ensures Compacted(log, last).start == if log.start <= last then last + 1 else log.start
    ensures var n := Compacted(log, last).start - log.start;
            View(Compacted(log, last)) == if n <= |View(log)| then View(log)[n..] else []
  {
    var log' := Compacted(log, last);
    assert |log.entries| > 0;
    IntervalFromKeys(log', if log'.start <= NextSlot(log) then NextSlot(log) else log'.start);
  }

  // ---------------------------------------------------------------------------------------------
  // Packs
  // ---------------------------------------------------------------------------------------------

  type Byte = x: int | 0 <= x < 0x100
  type Bytes = seq<Byte>

  /** NuRaft's entry serialization, used only through its inverse. */
  datatype Codec<!P> = Codec(ser: LogEntry<P> -> Bytes, deser: Bytes -> LogEntry<P>)

  ghost predicate Faithful<P(!new)>(c: Codec<P>) {
    forall e :: c.deser(c.ser(e)) == e && |c.ser(e)| < 0x8000_0000
  }

  /** NuRaft's `int32` in a buffer: four bytes, two's complement. */
  function PutInt(n: nat): Bytes {
    [n % 0x100, n / 0x100 % 0x100, n / 0x1_0000 % 0x100, n / 0x100_0000 % 0x100]
  }

  function GetInt(b: Bytes): int
    requires |b| >= 4
  {
    var n := (b[0] as int) + 0x100 * (b[1] as int) + 0x1_0000 * (b[2] as int) + 0x100_0000 * (b[3] as int);
    if n < 0x8000_0000 then n else n - 0x1_0000_0000
  }

  lemma IntRoundTrip(n: nat, rest: Bytes)
    requires n < 0x8000_0000
    ensures GetInt(PutInt(n) + rest) == n && (PutInt(n) + rest)[4..] == rest
  {
    assert n / 0x1_0000 == n / 0x100 / 0x100 && n / 0x100_0000 == n / 0x1_0000 / 0x100;
    assert n / 0x100_0000 % 0x100 == n / 0x100_0000;
  }

  function Records<P>(c: Codec<P>, es: seq<LogEntry<P>>): Bytes {
    if es == [] then [] else
      PutInt(|c.ser(es[0])|) + c.ser(es[0]) + Records(c, es[1..])
  }

  function Pack<P>(c: Codec<P>, es: seq<LogEntry<P>>): Bytes {
    PutInt(|es|) + Records(c, es)
  }

  /** Is there a whole record, with a sensible length, at the front of the buffer? */
  predicate Fits(b: Bytes) {
    |b| >= 4 && 0 <= GetInt(b) <= |b| - 4
  }

  function RecordAt<P>(c: Codec<P>, b: Bytes): LogEntry<P>
    requires Fits(b)
  {
    c.deser(b[4..4 + GetInt(b)])
  }

  function AfterRecord(b: Bytes): Bytes
    requires Fits(b)
  {
    b[4 + GetInt(b)..]
  }

  /** Reads `count` records; `None` when a record does not fit and NuRaft throws. */
  function ParseRecords<P>(c: Codec<P>, b: Bytes, count: int): Option<seq<LogEntry<P>>>
    decreases if count > 0 then count else 0
  {
    if count <= 0 then Some([])
    else if !Fits(b) then None
    else
      match ParseRecords(c, AfterRecord(b), count - 1)
      case None => None
      case Some(es) => Some([RecordAt(c, b)] + es)
  }

  function ParsePack<P>(c: Codec<P>, b: Bytes): Option<seq<LogEntry<P>>> {
    if |b| < 4 then None else ParseRecords(c, b[4..], GetInt(b))
  }

  lemma RecordRoundTrip<P(!new)>(c: Codec<P>, e: LogEntry<P>, tail: Bytes)
    requires Faithful(c)
    ensures var b := PutInt(|c.ser(e)|) + c.ser(e) + tail;
            Fits(b) && RecordAt(c, b) == e && AfterRecord(b) == tail
  {
    var s := c.ser(e);
    var b := PutInt(|s|) + s + tail;
    assert b == PutInt(|s|) + (s + tail);
    IntRoundTrip(|s|, s + tail);
    assert b[4..4 + |s|] == s && c.deser(s) == e;
  }

  lemma {:induction false} RecordsRoundTrip<P(!new)>(c: Codec<P>, es: seq<LogEntry<P>>, rest: Bytes)
    requires Faithful(c)
    ensures ParseRecords(c, Records(c, es) + rest, |es|) == Some(es)
    decreases |es|
  {
    if es != [] {
      var tail := Records(c, es[1..]) + rest;
      assert Records(c, es) + rest == PutInt(|c.ser(es[0])|) + c.ser(es[0]) + tail;
      RecordRoundTrip(c, es[0], tail);
      RecordsRoundTrip(c, es[1..], rest);
      assert [es[0]] + es[1..] == es;
    }
  }

  lemma PackRoundTrip<P(!new)>(c: Codec<P>, es: seq<LogEntry<P>>)
    requires Faithful(c) && |es| < 0x8000_0000
    ensures ParsePack(c, Pack(c, es)) == Some(es)
  {
    IntRoundTrip(|es|, Records(c, es));
    RecordsRoundTrip(c, es, []);
    assert Records(c, es) + [] == Records(c, es);
  }

  lemma SliceBehind(b: Bytes, from: nat, i: nat, n: nat)
    requires from + i + n <= |b|
    ensures b[from..][i..i + n] == b[from + i..from + i + n]
  {
    var x, y := b[from..][i..i + n], b[from + i..from + i + n];
    forall k | 0 <= k < n ensures x[k] == y[k] {
      assert b[from..][i + k] == b[from + i + k];
    }
  }

  /**
   * Any buffer, whoever packed it: without four bytes for the count it throws, a count of zero or less is an empty
   * pack, and a record that is cut off, or whose length is negative or reaches beyond the buffer, throws.
   */
  lemma AnyPack<P>(c: Codec<P>, b: Bytes)
    ensures |b| < 4 ==> ParsePack(c, b).None?
    ensures |b| >= 4 && GetInt(b) <= 0 ==> ParsePack(c, b) == Some([])
    ensures |b| >= 4 && GetInt(b) > 0 && (|b| < 8 || GetInt(b[4..]) < 0 || 8 + GetInt(b[4..]) > |b|) ==> ParsePack(c, b).None?
    ensures |b| >= 8 && GetInt(b) == 1 && GetInt(b[4..]) >= 0 && 8 + GetInt(b[4..]) <= |b| ==>
              ParsePack(c, b) == Some([c.deser(b[8..8 + GetInt(b[4..])])])
  {
    if |b| >= 8 && GetInt(b) == 1 && GetInt(b[4..]) >= 0 && 8 + GetInt(b[4..]) <= |b| {
      var rest, n := b[4..], GetInt(b[4..]);
      assert ParseRecords(c, AfterRecord(rest), 0) == Some([]);
      SliceBehind(b, 4, 4, n);
      assert ParseRecords(c, rest, 1) == Some([RecordAt(c, rest)] + []);
      assert [RecordAt(c, rest)] + [] == [c.deser(b[8..8 + n])];
    }
  }

  lemma MergeOverlapping<P>(log: Log<P>, lo: nat, hi: nat, log': Log<P>)
    requires Interval(log) && 0 < lo < hi && log.start < NextSlot(log)
    requires forall k :: k in log'.entries <==> k in log.entries || lo <= k < hi
    requires IsFirstIndex(log'.entries.Keys, log'.start)
    ensures Interval(log') <==> lo <= NextSlot(log) && log.start <= hi
  {
    var next := NextSlot(log);
    assert lo in log'.entries && log.start in log'.entries && hi - 1 in log'.entries && next - 1 in log'.entries;
    var lo', hi' := if lo < log.start then lo else log.start, if hi < next then next else hi;
    assert log'.start == lo';
    if lo <= next && log.start <= hi {
      assert Spans(log', hi');
      IntervalFromKeys(log', hi');
    } else {
      var gap := if next < lo then next else hi;
      assert gap !in log'.entries && log'.start <= gap < hi' - 1;
    }
  }

  /**
   * Merging packed entries into a log keeps the interval exactly when the packed indexes overlap or touch the
   * stored ones, or one of the two is empty. A packed entry for index 0 lands on the dummy and does not count.
   */
  lemma MergeInterval<P>(log: Log<P>, index: nat, es: seq<LogEntry<P>>, first: nat)
    requires Interval(log)
    requires IsFirstIndex(Merged(log.entries, index, es).Keys, first)
    ensures var lo, hi := if index == 0 then 1 else index, index + |es|;
            Interval(Log(first, Merged(log.entries, index, es))) <==>
              || lo >= hi || log.start >= NextSlot(log)
              || (lo <= NextSlot(log) && log.start <= hi)
  {
    var lo, hi, next := if index == 0 then 1 else index, index + |es|, NextSlot(log);
    var log' := Log(first, Merged(log.entries, index, es));
    MergedContents(log.entries, index, es);
    assert forall k :: k in log'.entries <==> k in log.entries || lo <= k < hi;
    if lo < hi && log.start < next {
      MergeOverlapping(log, lo, hi, log');
    } else if lo < hi {
      assert lo in log'.entries && Spans(log', hi);
      IntervalFromKeys(log', hi);
    } else if log.start < next {
      assert log.start in log'.entries && Spans(log', next);
      IntervalFromKeys(log', next);
    } else {
      assert Spans(log', 1);
      IntervalFromKeys(log', 1);
    }
  }

  /**
   * Applying the packed entries [index, index + |es|) to an empty store reproduces them there. The start
   * index follows them unless there are none, in which case it falls back to 1.
   */
  lemma ApplyOnEmpty<P>(target: Log<P>, index: nat, es: seq<LogEntry<P>>, log': Log<P>)
    requires target.entries.Keys == {0} && index > 0
    requires log'.entries == Merged(target.entries, index, es)
    requires IsFirstIndex(log'.entries.Keys, log'.start)
    ensures Interval(log') && View(log') == es
    ensures log'.start == index && NextSlot(log') == index + |es| <==> es != [] || index == 1
  {
    MergedContents(target.entries, index, es);
    if es != [] {
      assert index in log'.entries;
      IntervalFromKeys(log', index + |es|);
    } else {
      IntervalFromKeys(log', 1);
    }
  }
}
