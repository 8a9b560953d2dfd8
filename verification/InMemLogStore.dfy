/** The log store object, method by method, against the operations of `LogStore`. */
module InMemLogStoreObject {
  import opened Documents
  import opened LogStore

  function TotalSize<P>(es: seq<LogEntry<P>>, size: LogEntry<P> -> nat): nat {
    if es == [] then 0 else TotalSize(es[..|es| - 1], size) + size(es[|es| - 1])
  }

  lemma {:induction false} TotalSizeOfPrefix<P>(es: seq<LogEntry<P>>, size: LogEntry<P> -> nat, j: nat)
    requires j <= |es|
    ensures TotalSize(es[..j], size) <= TotalSize(es, size)
    decreases |es|
  {
    if j < |es| {
      TotalSizeOfPrefix(es[..|es| - 1], size, j);
      assert es[..|es| - 1][..j] == es[..j];
    } else {
      assert es[..j] == es;
    }
  }

  /** The size of a batch is the sum of the sizes. */
  lemma {:induction false} TotalSizeIsSum<P>(a: seq<LogEntry<P>>, e: LogEntry<P>, b: seq<LogEntry<P>>, size: LogEntry<P> -> nat)
    ensures TotalSize([], size) == 0 && TotalSize([e], size) == size(e)
    ensures TotalSize(a + b, size) == TotalSize(a, size) + TotalSize(b, size)
    decreases |b|
  {
    assert [e][..0] == [];
    if b == [] {
      assert a + b == a;
    } else {
      TotalSizeIsSum(a, e, b[..|b| - 1], size);
      assert (a + b)[..|a + b| - 1] == a + b[..|b| - 1];
    }
  }

  class InMemLogStore<P> {
    var startIdx: nat
    var logs: map<nat, LogEntry<P>>
    /** What `writeWALLogWithID` has been asked to write. */
    var wal: seq<WalRecord<P>>

    function State(): Log<P>
      reads this
    {
      Log(startIdx, logs)
    }

    ghost predicate Valid()
      reads this
    {
      Interval(State())
    }

    ghost function Entries(): seq<LogEntry<P>>
      requires Valid()
      reads this
    {
      View(State())
    }

    constructor (startIndexID: nat, dummy: P)
      ensures State() == Fresh(startIndexID, dummy) && wal == []
      ensures Valid() && Entries() == []
    {
      startIdx := startIndexID + 1;
      logs := map[0 := LogEntry(0, false, dummy)];
      wal := [];
      new;
      FreshView(startIndexID, dummy);
    }

    method GetNextSlot() returns (slot: nat)
      requires Valid()
      ensures slot == startIdx + |Entries()|
    {
      slot := startIdx + |logs| - 1;
    }

    method LastEntry() returns (e: LogEntry<P>)
      requires Valid()
      ensures e == if Entries() == [] then logs[0] else Entries()[|Entries()| - 1]
    {
      var next := GetNextSlot();
      e := if next - 1 in logs then logs[next - 1] else logs[0];
    }

    method Append(e: LogEntry<P>) returns (idx: nat)
      requires Valid()
      modifies this
      ensures Valid() && State() == Appended(old(State()), e)
      ensures startIdx == old(startIdx) && Entries() == old(Entries()) + [e]
      ensures idx == startIdx + |old(Entries())|
      ensures wal == if e.app then old(wal) + [WalRecord(idx, e.payload)] else old(wal)
    {
      AppendIsSnoc(State(), e);
      idx := startIdx + |logs| - 1;
      logs := logs[idx := e];
      if e.app {
        wal := wal + [WalRecord(idx, e.payload)];
      }
    }

    method WriteAt(index: nat, e: LogEntry<P>)
      requires Valid()
      modifies this
      ensures State() == WrittenAt(old(State()), index, e)
      ensures startIdx == old(startIdx)
      ensures Valid() <==> index == 0 || startIdx <= index <= old(NextSlot(State()))
      ensures startIdx <= index <= old(NextSlot(State())) ==>
                Entries() == old(Entries())[..index - startIdx] + [e]
      ensures wal == if e.app then old(wal) + [WalRecord(index, e.payload)] else old(wal)
    {
      WriteAtInterval(State(), index, e);
      if startIdx <= index <= NextSlot(State()) {
        WriteAtIsTruncateThenSnoc(State(), index, e);
      }
      var doomed := set k | k in logs && index <= k;
      while doomed != {}
        invariant doomed == set k | k in logs && index <= k
        invariant Below(logs, index) == Below(old(logs), index)
        invariant startIdx == old(startIdx) && wal == old(wal)
      {
        var k := Pick(doomed);
        logs := logs - {k};
        doomed := doomed - {k};
      }
      forall k: nat | k in logs ensures k < index {
        assert k !in doomed;
      }
      assert logs == Below(logs, index);
      logs := logs[index := e];
      if e.app {
        wal := wal + [WalRecord(index, e.payload)];
      }
    }

    method Compact(lastLogIndex: nat)
      requires Valid()
      modifies this
      ensures Valid() && State() == Compacted(old(State()), lastLogIndex) && wal == old(wal)
      ensures var n := startIdx - old(startIdx);
              n >= 0 && Entries() == if n <= |old(Entries())| then old(Entries())[n..] else []
    {
      CompactIsDrop(State(), lastLogIndex);
      var ii := startIdx;
      while ii <= lastLogIndex
        invariant old(startIdx) <= ii
        invariant ii <= lastLogIndex + 1 || ii == old(startIdx)
        invariant logs == Outside(old(logs), old(startIdx), ii)
        invariant startIdx == old(startIdx) && wal == old(wal)
      {
        if ii in logs {
          logs := logs - {ii};
        }
        ii := ii + 1;
      }
      if startIdx <= lastLogIndex {
        startIdx := lastLogIndex + 1;
      }
    }

    method EntryAt(index: nat) returns (e: LogEntry<P>)
      requires Valid()
      ensures e == if startIdx <= index < startIdx + |Entries()| then Entries()[index - startIdx] else logs[0]
    {
      e := if index in logs then logs[index] else logs[0];
    }

    method TermAt(index: nat) returns (term: nat)
      requires Valid()
      ensures term == if startIdx <= index < startIdx + |Entries()| then Entries()[index - startIdx].term else logs[0].term
    {
      var e := EntryAt(index);
      term := e.term;
    }

    /** `None` when an index is missing and the assertion aborts; otherwise the range, a slice of the log. */
    method LogEntries(start: nat, end: nat) returns (r: Option<seq<LogEntry<P>>>)
      requires Valid()
      requires start <= end
      ensures r.Some? <==> forall i :: start <= i < end ==> i in logs
      ensures r.Some? ==> r.value == Stretch(State(), start, end - start)
      ensures startIdx <= start && end <= startIdx + |Entries()| ==>
                r == Some(Entries()[start - startIdx..end - startIdx])
    {
      var ret: seq<LogEntry<P>> := [];
      var ii := start;
      while ii < end
        invariant start <= ii <= end
        invariant ret == Stretch(State(), start, ii - start) && forall i :: start <= i < ii ==> i in logs
      {
        if ii !in logs {
          assert !(startIdx <= ii < startIdx + |Entries()|);
          return None;
        }
        StretchStep(State(), start, ii - start);
        ret := ret + [logs[ii]];
        ii := ii + 1;
      }
      if startIdx <= start && end <= startIdx + |Entries()| {
        StretchIsSlice(State(), start, end - start);
      }
      return Some(ret);
    }

    /**
     * The shortest non-empty prefix of the range whose size reaches the hint, or all of it; the hint 0 means
     * no limit and a negative hint asks for nothing. `None` when the loop runs into a missing index.
     */
    method LogEntriesExt(start: nat, end: nat, hint: int, size: LogEntry<P> -> nat) returns (r: Option<seq<LogEntry<P>>>)
      requires Valid()
      ensures r.None? <==> hint >= 0 && RunsOut(State(), start, end, hint, size)
      ensures r.Some? ==> IsBatch(State(), start, end, hint, size, r.value)
      ensures r.Some? && hint > 0 && start < end ==>
                && 1 <= |r.value| <= end - start
                && TotalSize(r.value[..|r.value| - 1], size) < hint
                && (|r.value| < end - start ==> TotalSize(r.value, size) >= hint)
      ensures r.Some? && hint == 0 && start <= end ==> |r.value| == end - start
      ensures hint < 0 || end <= start ==> r == Some([])
      ensures r.Some? && r.value != [] && start > 0 ==>
                && startIdx <= start && start + |r.value| <= startIdx + |Entries()|
                && r.value == Entries()[start - startIdx..start - startIdx + |r.value|]
    {
      r := Gather(State(), start, end, hint, size);
      if r.Some? && r.value != [] && start > 0 {
        assert start in logs && start + |r.value| - 1 in logs;
        StretchIsSlice(State(), start, |r.value|);
      }
    }

    /** Packing reads every index it is asked for: a missing one would be a null entry. */
    method PackLogs(index: nat, cnt: nat, c: Codec<P>) returns (buf: Bytes)
      requires Valid()
      requires startIdx <= index && index + cnt <= startIdx + |Entries()|
      ensures buf == Pack(c, Entries()[index - startIdx..index - startIdx + cnt])
    {
      ghost var es := Entries()[index - startIdx..index - startIdx + cnt];
      var records: seq<Bytes> := [];
      var ii := index;
      while ii < index + cnt
        invariant index <= ii <= index + cnt
        invariant |records| == ii - index
        invariant forall i :: 0 <= i < |records| ==> records[i] == c.ser(es[i])
      {
        records := records + [c.ser(logs[ii])];
        ii := ii + 1;
      }
      var body := JoinRecords(records, c, es);
      buf := PutInt(cnt) + body;
    }

    /**
     * Stores the packed entries from `index` on. A pack that ends too early throws half way; a complete one
     * leaves the merged map and moves the start index to the smallest positive key.
     */
    method ApplyPack(index: nat, pack: Bytes, c: Codec<P>) returns (ok: bool)
      requires Valid()
      modifies this
      ensures ok <==> ParsePack(c, pack).Some?
      ensures wal == old(wal)
      ensures ok ==> logs == Merged(old(logs), index, ParsePack(c, pack).value)
      ensures ok ==> IsFirstIndex(logs.Keys, startIdx)
      ensures ok ==>
                (var lo, hi := if index == 0 then 1 else index, index + |ParsePack(c, pack).value|;
                 Valid() <==> || lo >= hi || old(Entries()) == []
                              || (lo <= old(startIdx + |Entries()|) && old(startIdx) <= hi))
      ensures ok && old(logs.Keys) == {0} && index > 0 ==>
                && Valid() && Entries() == ParsePack(c, pack).value
                && (Entries() != [] ==> startIdx == index)
    {
      ghost var log := State();
      ok, logs := Unpack(logs, index, pack, c);
      if ok {
        ghost var es := ParsePack(c, pack).value;
        startIdx := FirstIndex(logs.Keys);
        MergeInterval(log, index, es, startIdx);
        if log.entries.Keys == {0} && index > 0 {
          ApplyOnEmpty(log, index, es, State());
        }
      }
    }
  }

  /** What the loop takes before it comes to index `start + n`. */
  function Stretch<P>(log: Log<P>, start: nat, n: nat): seq<LogEntry<P>>
    requires 0 in log.entries
  {
    seq(n, (i: nat) => Looked(log, start + i))
  }

  /** The loop comes to a missing index before the hint is reached. */
  ghost predicate RunsOut<P>(log: Log<P>, start: nat, end: nat, hint: int, size: LogEntry<P> -> nat)
    requires 0 in log.entries
  {
    exists j :: start <= j < end && j !in log.entries
                && (forall i :: start <= i < j ==> i in log.entries)
                && (hint == 0 || TotalSize(Stretch(log, start, j - start), size) < hint)
  }

  /** Present entries from `start` on, as many as the hint asks for. */
  ghost predicate IsBatch<P>(log: Log<P>, start: nat, end: nat, hint: int, size: LogEntry<P> -> nat, r: seq<LogEntry<P>>)
    requires 0 in log.entries
  {
    && r == Stretch(log, start, |r|) && (forall i :: start <= i < start + |r| ==> i in log.entries)
    && (hint < 0 || end <= start ==> r == [])
    && (hint == 0 && start < end ==> |r| == end - start)
    && (hint > 0 && start < end ==>
          && 1 <= |r| <= end - start
          && (forall j :: 0 <= j < |r| ==> TotalSize(r[..j], size) < hint)
          && (|r| == end - start || TotalSize(r, size) >= hint))
  }

  lemma StretchStep<P>(log: Log<P>, start: nat, n: nat)
    requires 0 in log.entries
    ensures Stretch(log, start, n + 1) == Stretch(log, start, n) + [Looked(log, start + n)]
  {
  }

  lemma StretchIsSlice<P>(log: Log<P>, start: nat, n: nat)
    requires Interval(log) && log.start <= start && start + n <= NextSlot(log)
    ensures Stretch(log, start, n) == View(log)[start - log.start..start - log.start + n]
  {
    var slice := View(log)[start - log.start..start - log.start + n];
    forall i | 0 <= i < n ensures Stretch(log, start, n)[i] == slice[i] {
      var k := start - log.start + i;
      assert log.start + k == start + i && start + i in log.entries;
      assert slice[i] == View(log)[k] == log.entries[log.start + k];
    }
  }

  lemma StretchSnoc<P>(log: Log<P>, start: nat, n: nat, size: LogEntry<P> -> nat)
    requires 0 in log.entries
    ensures Stretch(log, start, n + 1) == Stretch(log, start, n) + [Looked(log, start + n)]
    ensures TotalSize(Stretch(log, start, n + 1), size) == TotalSize(Stretch(log, start, n), size) + size(Looked(log, start + n))
  {
    StretchStep(log, start, n);
    var s := Stretch(log, start, n + 1);
    assert s[..|s| - 1] == Stretch(log, start, n);
  }

  lemma StretchPrefix<P>(log: Log<P>, start: nat, n: nat, m: nat)
    requires 0 in log.entries && m <= n
    ensures Stretch(log, start, n)[..m] == Stretch(log, start, m)
  {
  }

  /** While all entries so far stay below the hint, so does every shorter stretch. */
  lemma ShortStretches<P>(log: Log<P>, start: nat, n: nat, hint: int, size: LogEntry<P> -> nat)
    requires 0 in log.entries && TotalSize(Stretch(log, start, n), size) < hint
    ensures forall j :: 0 <= j <= n ==> TotalSize(Stretch(log, start, n)[..j], size) < hint
  {
    forall j | 0 <= j <= n ensures TotalSize(Stretch(log, start, n)[..j], size) < hint {
      TotalSizeOfPrefix(Stretch(log, start, n), size, j);
    }
  }

  /** The loop of `log_entries_ext`. */
  method Gather<P>(log: Log<P>, start: nat, end: nat, hint: int, size: LogEntry<P> -> nat)
    returns (r: Option<seq<LogEntry<P>>>)
    requires 0 in log.entries
    ensures r.None? <==> hint >= 0 && RunsOut(log, start, end, hint, size)
    ensures r.Some? ==> IsBatch(log, start, end, hint, size, r.value)
  {
    if hint < 0 {
      return Some([]);
    }
    var ret: seq<LogEntry<P>> := [];
    var accumSize := 0;
    var ii := start;
    while ii < end
      invariant start <= ii && (ii <= end || ii == start)
      invariant Taken(log, start, ii - start, hint, size)
      invariant ret == Stretch(log, start, ii - start) && accumSize == TotalSize(ret, size)
    {
      if ii !in log.entries {
        MissingIndex(log, start, end, ii - start, hint, size);
        return None;
      }
      StretchSnoc(log, start, ii - start, size);
      ret, accumSize := ret + [log.entries[ii]], accumSize + size(log.entries[ii]);
      ii := ii + 1;
      if hint != 0 && accumSize >= hint {
        ReachedHint(log, start, end, ii - start, hint, size);
        return Some(ret);
      }
      OneMoreTaken(log, start, ii - 1 - start, hint, size);
    }
    ReachedEnd(log, start, end, ii - start, hint, size);
    return Some(ret);
  }

  lemma OneMoreTaken<P>(log: Log<P>, start: nat, n: nat, hint: int, size: LogEntry<P> -> nat)
    requires 0 in log.entries && Taken(log, start, n, hint, size) && start + n in log.entries
    requires hint <= 0 || TotalSize(Stretch(log, start, n + 1), size) < hint
    ensures Taken(log, start, n + 1, hint, size)
  {
  }

  /** The loop has taken `n` entries and goes on. */
  ghost predicate Taken<P>(log: Log<P>, start: nat, n: nat, hint: int, size: LogEntry<P> -> nat)
    requires 0 in log.entries
  {
    && (forall i :: start <= i < start + n ==> i in log.entries)
    && (hint > 0 ==> TotalSize(Stretch(log, start, n), size) < hint)
  }

  lemma MissingIndex<P>(log: Log<P>, start: nat, end: nat, n: nat, hint: int, size: LogEntry<P> -> nat)
    requires 0 in log.entries && Taken(log, start, n, hint, size) && hint >= 0
    requires start + n < end && start + n !in log.entries
    ensures RunsOut(log, start, end, hint, size)
  {
    var j := start + n;
    assert j - start == n;
  }

  lemma ReachedEnd<P>(log: Log<P>, start: nat, end: nat, n: nat, hint: int, size: LogEntry<P> -> nat)
    requires 0 in log.entries && Taken(log, start, n, hint, size) && hint >= 0
    requires if start < end then start + n == end else n == 0
    ensures IsBatch(log, start, end, hint, size, Stretch(log, start, n)) && !RunsOut(log, start, end, hint, size)
  {
    if hint > 0 {
      ShortStretches(log, start, n, hint, size);
    }
  }

  /** The loop stops as soon as the hint is reached, and so before any missing index. */
  lemma ReachedHint<P>(log: Log<P>, start: nat, end: nat, n: nat, hint: int, size: LogEntry<P> -> nat)
    requires 0 in log.entries && hint > 0 && 0 < n && start + n <= end
    requires Taken(log, start, n - 1, hint, size) && start + n - 1 in log.entries
    requires hint <= TotalSize(Stretch(log, start, n), size)
    ensures IsBatch(log, start, end, hint, size, Stretch(log, start, n)) && !RunsOut(log, start, end, hint, size)
  {
    ShortStretches(log, start, n - 1, hint, size);
    forall j | 0 <= j < n ensures TotalSize(Stretch(log, start, n)[..j], size) < hint {
      StretchPrefix(log, start, n, j);
      StretchPrefix(log, start, n - 1, j);
    }
    StopsInTime(log, start, end, n, hint, size);
  }

  lemma StopsInTime<P>(log: Log<P>, start: nat, end: nat, n: nat, hint: int, size: LogEntry<P> -> nat)
    requires 0 in log.entries && hint > 0
    requires forall i :: start <= i < start + n ==> i in log.entries
    requires hint <= TotalSize(Stretch(log, start, n), size)
    ensures !RunsOut(log, start, end, hint, size)
  {
    if RunsOut(log, start, end, hint, size) {
      var j :| start <= j < end && j !in log.entries && (forall i :: start <= i < j ==> i in log.entries)
               && (hint == 0 || TotalSize(Stretch(log, start, j - start), size) < hint);
      assert j >= start + n;
      StretchPrefix(log, start, j - start, n);
      TotalSizeOfPrefix(Stretch(log, start, j - start), size, n);
    }
  }

  /** The second loop of `pack`: every record behind its length. */
  method JoinRecords<P>(records: seq<Bytes>, ghost c: Codec<P>, ghost es: seq<LogEntry<P>>) returns (body: Bytes)
    requires |records| == |es| && forall i :: 0 <= i < |es| ==> records[i] == c.ser(es[i])
    ensures body == Records(c, es)
  {
    body := [];
    var k := 0;
    while k < |records|
      invariant 0 <= k <= |records|
      invariant body + Records(c, es[k..]) == Records(c, es)
    {
      ghost var tail := Records(c, es[k + 1..]);
      assert es[k..][1..] == es[k + 1..] && es[k..][0] == es[k];
      assert body + (PutInt(|records[k]|) + records[k] + tail) == (body + PutInt(|records[k]|) + records[k]) + tail;
      body := body + PutInt(|records[k]|) + records[k];
      k := k + 1;
    }
    assert es[k..] == [] && body + [] == body;
  }

  /** The loop of `apply_pack`: a malformed pack throws after the records read so far have been stored. */
  method Unpack<P>(entries: map<nat, LogEntry<P>>, index: nat, pack: Bytes, c: Codec<P>)
    returns (ok: bool, entries': map<nat, LogEntry<P>>)
    ensures ok <==> ParsePack(c, pack).Some?
    ensures ok ==> entries' == Merged(entries, index, ParsePack(c, pack).value)
  {
    entries' := entries;
    if |pack| < 4 {
      return false, entries';
    }
    var numLogs := GetInt(pack);
    var b := pack[4..];
    ghost var es: seq<LogEntry<P>> := [];
    var ii := 0;
    ghost var whole := ParsePack(c, pack);
    PrependedNothing(ParseRecords(c, b, numLogs));
    while ii < numLogs
      invariant 0 <= ii && (ii <= numLogs || ii == 0)
      invariant |es| == ii
      invariant entries' == Merged(entries, index, es)
      invariant whole == Prepended(es, ParseRecords(c, b, numLogs - ii))
    {
      var fits, le, rest := ReadRecord(b, c);
      if !fits {
        return false, entries';
      }
      OneMoreRecord(entries, index, c, es, b, numLogs - ii);
      entries' := entries'[index + ii := le];
      es := es + [le];
      b := rest;
      ii := ii + 1;
    }
    assert es + [] == es;
    return true, entries';
  }

  function Prepended<P>(es: seq<LogEntry<P>>, rest: Option<seq<LogEntry<P>>>): Option<seq<LogEntry<P>>> {
    if rest.None? then None else Some(es + rest.value)
  }

  lemma PrependedNothing<P>(rest: Option<seq<LogEntry<P>>>)
    ensures Prepended([], rest) == rest
  {
    assert rest.Some? ==> [] + rest.value == rest.value;
  }

  lemma PrependedTwice<P>(es: seq<LogEntry<P>>, e: LogEntry<P>, rest: Option<seq<LogEntry<P>>>)
    ensures Prepended(es, Prepended([e], rest)) == Prepended(es + [e], rest)
  {
    if rest.Some? {
      assert es + ([e] + rest.value) == (es + [e]) + rest.value;
    }
  }

  /** One length-prefixed record off the front of the buffer. */
  method ReadRecord<P>(b: Bytes, c: Codec<P>) returns (fits: bool, le: LogEntry<P>, rest: Bytes)
    ensures fits <==> Fits(b)
    ensures fits ==> le == RecordAt(c, b) && rest == AfterRecord(b)
  {
    fits := |b| >= 4 && 0 <= GetInt(b) <= |b| - 4;
    if fits {
      le, rest := c.deser(b[4..4 + GetInt(b)]), b[4 + GetInt(b)..];
    } else {
      le, rest := c.deser([]), b;
    }
  }

  lemma OneMoreRecord<P>(
      entries: map<nat, LogEntry<P>>, index: nat, c: Codec<P>, es: seq<LogEntry<P>>, b: Bytes, count: int)
    requires count > 0 && Fits(b)
    ensures var le := RecordAt(c, b);
            && Merged(entries, index, es + [le]) == Merged(entries, index, es)[index + |es| := le]
            && Prepended(es, ParseRecords(c, b, count))
            == Prepended(es + [le], ParseRecords(c, AfterRecord(b), count - 1))
  {
    assert (es + [RecordAt(c, b)])[..|es|] == es;
    PrependedTwice(es, RecordAt(c, b), ParseRecords(c, AfterRecord(b), count - 1));
  }

  method FirstIndex(keys: set<nat>) returns (first: nat)
    ensures IsFirstIndex(keys, first)
  {
    var todo := keys;
    var found := false;
    first := 1;
    while todo != {}
      invariant todo <= keys
      invariant found ==> first in keys && first > 0 && forall k: nat :: k in keys && k !in todo && k > 0 ==> first <= k
      invariant !found ==> first == 1 && forall k: nat :: k in keys && k !in todo ==> k == 0
    {
      var k := Pick(todo);
      if k > 0 && (!found || k < first) {
        first := k;
        found := true;
      }
      todo := todo - {k};
    }
  }
}
