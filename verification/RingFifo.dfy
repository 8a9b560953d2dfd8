/** The log ring used by one thread at a time: a first-in-first-out queue in front of the log file. */
module RingFifo {
  import opened LogRing

  /** The contents of the dirty slots in [lo, hi), in slot order. */
  function Dirty(dirty: seq<bool>, ctx: seq<string>, lo: nat, hi: nat): seq<string>
    requires hi <= |dirty| == |ctx|
    decreases hi - lo
  {
    if lo >= hi then [] else Dirty(dirty, ctx, lo, hi - 1) + if dirty[hi - 1] then [ctx[hi - 1]] else []
  }

  /** The dirty slots in the order a flush visits them. */
  function Pending(dirty: seq<bool>, ctx: seq<string>, start: nat): seq<string>
    requires start <= |dirty| == |ctx|
  {
    Dirty(dirty, ctx, start, |dirty|) + Dirty(dirty, ctx, 0, start)
  }

  lemma {:induction false} DirtyFrame(d: seq<bool>, c: seq<string>, d': seq<bool>, c': seq<string>, lo: nat, hi: nat)
    requires hi <= |d| == |c| == |d'| == |c'|
    requires forall k :: lo <= k < hi ==> d[k] == d'[k] && c[k] == c'[k]
    ensures Dirty(d, c, lo, hi) == Dirty(d', c', lo, hi)
    decreases hi - lo
  {
    if lo < hi { DirtyFrame(d, c, d', c', lo, hi - 1); }
  }

  lemma {:induction false} DirtyHead(d: seq<bool>, c: seq<string>, lo: nat, hi: nat)
    requires lo < hi <= |d| == |c|
    ensures Dirty(d, c, lo, hi) == (if d[lo] then [c[lo]] else []) + Dirty(d, c, lo + 1, hi)
    decreases hi - lo
  {
    if lo + 1 < hi { DirtyHead(d, c, lo, hi - 1); }
  }

  lemma {:induction false} AllClean(d: seq<bool>, c: seq<string>, lo: nat, hi: nat)
    requires hi <= |d| == |c|
    requires forall k :: lo <= k < hi ==> !d[k]
    ensures Dirty(d, c, lo, hi) == []
    decreases hi - lo
  {
    if lo < hi { AllClean(d, c, lo, hi - 1); }
  }

  lemma WriteAppendsInside(d: seq<bool>, c: seq<string>, cur: nat, m: string)
    requires cur < |d| == |c| && !d[cur]
    ensures Pending(d[cur := true], c[cur := m], cur + 1) == Pending(d, c, cur) + [m]
  {
    var n, d', c' := |d|, d[cur := true], c[cur := m];
    DirtyHead(d, c, cur, n);
    DirtyFrame(d, c, d', c', cur + 1, n);
    DirtyFrame(d, c, d', c', 0, cur);
    assert Dirty(d', c', 0, cur + 1) == Dirty(d, c, 0, cur) + [m];
  }

  /** Filling the clean slot at the cursor appends to the queue seen from the next position. */
  lemma WriteAppends(d: seq<bool>, c: seq<string>, cur: nat, m: string)
    requires cur < |d| == |c| && !d[cur]
    ensures Pending(d[cur := true], c[cur := m], (cur + 1) % |d|) == Pending(d, c, cur) + [m]
  {
    WriteAppendsInside(d, c, cur, m);
    if cur + 1 == |d| {
      var d', c' := d[cur := true], c[cur := m];
      assert Pending(d', c', 0) == Dirty(d', c', 0, |d|) == Pending(d', c', |d|);
    }
  }

  datatype Call = PutCall(msg: string) | FlushCall

  /** The messages a list of calls puts, as the slots hold them. */
  function MessagesOf(calls: seq<Call>): seq<string> {
    if calls == [] then [] else
      MessagesOf(calls[..|calls| - 1]) +
      match calls[|calls| - 1] case PutCall(msg) => [Capped(msg)] case FlushCall => []
  }

  /** The messages as they were put. */
  function Puts(calls: seq<Call>): seq<string> {
    if calls == [] then [] else
      Puts(calls[..|calls| - 1]) + if calls[|calls| - 1].PutCall? then [calls[|calls| - 1].msg] else []
  }

  lemma {:induction false} ShortMessages(calls: seq<Call>)
    ensures (forall i :: 0 <= i < |calls| && calls[i].PutCall? ==> |calls[i].msg| <= 4096) ==> MessagesOf(calls) == Puts(calls)
    decreases |calls|
  {
    if calls != [] {
      ShortMessages(calls[..|calls| - 1]);
    }
  }

  class SimpleLogger {
    /** DIRTY or CLEAN; between whole calls a slot is never WRITING or FLUSHING. */
    const dirty: array<bool>
    const ctx: array<string>
    var cursor: nat
    /** The records written to the file, in order. */
    var file: seq<string>

    ghost predicate Valid()
      reads this
    {
      cursor < dirty.Length == ctx.Length
    }

    /** Everything that has been put, oldest first: the file, then the ring from the cursor on. */
    ghost function Messages(): seq<string>
      requires Valid()
      reads this, dirty, ctx
    {
      file + Pending(dirty[..], ctx[..], cursor)
    }

    constructor (maxLogElems: nat)
      requires maxLogElems > 0
      ensures Valid() && fresh(dirty) && fresh(ctx) && Messages() == []
    {
      dirty := new bool[maxLogElems](i => false);
      ctx := new string[maxLogElems](i => "");
      cursor, file := 0, [];
      new;
      AllClean(dirty[..], ctx[..], 0, dirty.Length);
    }

    /** `LogElem::flush`. */
    method FlushElem(i: nat)
      requires Valid() && i < dirty.Length
      modifies this`file, dirty
      ensures file == old(file) + if old(dirty[i]) then [ctx[i]] else []
      ensures dirty[..] == old(dirty[..])[i := false]
    {
      if dirty[i] {
        file := file + [ctx[i]];
        dirty[i] := false;
      }
    }

    /** `LogElem::write`: refuses a slot that is not clean. */
    method WriteElem(i: nat, msg: string) returns (ok: bool)
      requires Valid() && i < dirty.Length
      modifies dirty, ctx
      ensures ok <==> !old(dirty[i])
      ensures ok ==> dirty[..] == old(dirty[..])[i := true] && ctx[..] == old(ctx[..])[i := Capped(msg)]
      ensures ok ==> ctx[i] == if |msg| <= 4096 then msg else msg[..4096]
      ensures !ok ==> dirty[..] == old(dirty[..]) && ctx[..] == old(ctx[..])
    {
      if dirty[i] {
        return false;
      }
      ctx[i] := Capped(msg);
      dirty[i] := true;
      return true;
    }

    /** One of the two loops of `flush`. */
    method FlushRange(lo: nat, hi: nat)
      requires Valid() && lo <= hi <= dirty.Length
      modifies this`file, dirty
      ensures file == old(file) + Dirty(old(dirty[..]), ctx[..], lo, hi)
      ensures forall k :: 0 <= k < dirty.Length ==> dirty[k] == (old(dirty[k]) && !(lo <= k < hi))
    {
      var ii := lo;
      while ii < hi
        invariant lo <= ii <= hi
        invariant file == old(file) + Dirty(old(dirty[..]), ctx[..], lo, ii)
        invariant forall k :: 0 <= k < dirty.Length ==> dirty[k] == (old(dirty[k]) && !(lo <= k < ii))
      {
        label before:
        FlushElem(ii);
        assert forall k :: 0 <= k < dirty.Length ==> dirty[k] == dirty[..][k] == old@before(dirty[..])[ii := false][k];
        ii := ii + 1;
      }
    }

    method Flush(startPos: nat)
      requires Valid() && startPos <= dirty.Length
      modifies this`file, dirty
      ensures file == old(file) + Pending(old(dirty[..]), ctx[..], startPos)
      ensures forall k :: 0 <= k < dirty.Length ==> !dirty[k]
    {
      FlushRange(startPos, dirty.Length);
      DirtyFrame(dirty[..], ctx[..], old(dirty[..]), ctx[..], 0, startPos);
      FlushRange(0, startPos);
    }

    /** Writes everything out, oldest first, and adds nothing. */
    method FlushAll()
      requires Valid()
      modifies this`file, dirty
      ensures Valid() && file == Messages() == old(Messages())
    {
      Flush(cursor);
      AllClean(dirty[..], ctx[..], cursor, dirty.Length);
      AllClean(dirty[..], ctx[..], 0, cursor);
    }

    /** Adds one message at the end of the queue, across wraparounds, flushing first when the ring is full. */
    method Put(msg: string)
      requires Valid()
      modifies this`file, this`cursor, dirty, ctx
      ensures Valid() && Messages() == old(Messages()) + [Capped(msg)]
      ensures |msg| <= 4096 ==> Messages() == old(Messages()) + [msg]
      ensures |msg| > 4096 ==> Messages() == old(Messages()) + [msg[..4096]]
    {
      var slot := cursor;
      cursor := (cursor + 1) % dirty.Length;
      if dirty[slot] {
        Flush(slot);
        AllClean(dirty[..], ctx[..], slot, dirty.Length);
        AllClean(dirty[..], ctx[..], 0, slot);
        assert file + Pending(dirty[..], ctx[..], slot) == old(Messages());
      }
      WriteAppends(dirty[..], ctx[..], slot, Capped(msg));
      assert file + (Pending(dirty[..], ctx[..], slot) + [Capped(msg)]) == old(Messages()) + [Capped(msg)];
      var ok := WriteElem(slot, msg);
    }

    /** Any run of whole calls: the file followed by the ring is the messages put, in order. */
    method Perform(calls: seq<Call>)
      requires Valid()
      modifies this`file, this`cursor, dirty, ctx
      ensures Valid() && Messages() == old(Messages()) + MessagesOf(calls)
      ensures (forall i :: 0 <= i < |calls| && calls[i].PutCall? ==> |calls[i].msg| <= 4096) ==>
                Messages() == old(Messages()) + Puts(calls)
    {
      ShortMessages(calls);
      var i := 0;
      assert calls[..0] == [] && Messages() + [] == Messages();
      while i < |calls|
        invariant 0 <= i <= |calls|
        invariant Valid() && Messages() == old(Messages()) + MessagesOf(calls[..i])
      {
        assert calls[..i + 1][..i] == calls[..i];
        match calls[i] {
          case PutCall(msg) => Put(msg);
          case FlushCall => FlushAll();
        }
        i := i + 1;
      }
      assert calls[..i] == calls;
    }
  }
}
