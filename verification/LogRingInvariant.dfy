/**
 * Every step of the ring keeps its invariant. The invariant has four parts: the shape of the ring and its slots, the
 * threads and what each holds at its place in the program, the conservation of completed records, and the tickets
 * that tell one message from another. Each kind of step gets a lemma for the parts it touches, with the thread that
 * moves and the slot it moves on named, so that all other threads and slots are covered by one argument: nobody
 * else's slot changes, and a thread that stands still stays where the invariant says it may stand.
 */
module LogRingInvariant {
  import opened Documents
  import opened LogRing

  // ---------------------------------------------------------------------------------------------
  // Slots and threads: every step keeps the program-point facts
  // ---------------------------------------------------------------------------------------------

  /** A step that leaves the slots alone and moves one thread that holds none of them. */
  lemma QuietStep(s: State, s': State, t: nat)
    requires Shape(s) && Threads(s)
    requires s'.slots == s.slots && s'.cursor < |s'.slots| && s'.flushingLogs == s.flushingLogs
    requires forall u :: u != t ==> PcOf(s', u) == PcOf(s, u)
    requires !PcOf(s, t).Copying? && !PcOf(s, t).Sweeping? && !PcOf(s, t).Emitting?
    requires !PcOf(s', t).Copying? && !PcOf(s', t).Sweeping? && !PcOf(s', t).Emitting? && InRange(s', PcOf(s', t))
    ensures Shape(s') && Threads(s')
  {
    assert PcInv(s, t);
    forall u ensures PcInv(s', u) {
      assert PcInv(s, u);
    }
    forall i | 0 <= i < |s'.slots| ensures SlotInv(s', i) {
      assert SlotInv(s, i);
      if s.slots[i].status == WRITING {
        var u :| IsWriter(s, u, i);
        assert IsWriter(s', u, i);
      }
    }
    forall u, v, i | IsWriter(s', u, i) && IsWriter(s', v, i) ensures u == v {
      assert IsWriter(s, u, i) && IsWriter(s, v, i);
    }
  }

  /** Taking or releasing the lock, or moving on in the sweep, with the slots unchanged. */
  lemma LockStep(s: State, s': State, t: nat)
    requires Shape(s) && Threads(s)
    requires s'.slots == s.slots && s'.cursor < |s'.slots|
    requires forall u :: u != t ==> PcOf(s', u) == PcOf(s, u)
    requires s.flushingLogs.None? || s.flushingLogs == Some(t)
    requires s'.flushingLogs == if PcOf(s', t).Sweeping? then Some(t) else None
    requires !PcOf(s, t).Copying? && !PcOf(s, t).Emitting?
    requires !PcOf(s', t).Copying? && !PcOf(s', t).Emitting? && InRange(s', PcOf(s', t))
    requires PcOf(s', t).Sweeping? && PcOf(s', t).back.Some? ==> PcOf(s', t).back.value.slot < |s'.slots|
    ensures Shape(s') && Threads(s')
  {
    forall u ensures PcInv(s', u) {
      assert PcInv(s, u);
    }
    forall i | 0 <= i < |s'.slots| ensures SlotInv(s', i) {
      assert SlotInv(s, i);
      if s.slots[i].status == WRITING {
        var u :| IsWriter(s, u, i);
        assert IsWriter(s', u, i);
      }
    }
    forall u, v, i | IsWriter(s', u, i) && IsWriter(s', v, i) ensures u == v {
      assert IsWriter(s, u, i) && IsWriter(s, v, i);
    }
  }

  /** A step of thread t that changes slot i only. */
  ghost predicate Touches(s: State, s': State, t: nat, i: nat) {
    && |s'.slots| == |s.slots| && i < |s.slots| && s'.cursor == s.cursor
    && s'.flushingLogs == s.flushingLogs
    && (forall k :: 0 <= k < |s.slots| && k != i ==> s'.slots[k] == s.slots[k])
    && (forall u :: u != t ==> PcOf(s', u) == PcOf(s, u))
  }

  /** While a slot is clean, or being written by one thread, no other thread writes it. */
  lemma OtherWriters(s: State, t: nat, i: nat, u: nat, k: nat)
    requires Shape(s) && Threads(s) && i < |s.slots|
    requires s.slots[i].status == CLEAN || IsWriter(s, t, i)
    requires IsWriter(s, u, k) && u != t
    ensures k != i
  {
    assert PcInv(s, u);
  }

  lemma WriterLeavesOthers(s: State, s': State, t: nat, i: nat, u: nat)
    requires Shape(s) && Threads(s) && Touches(s, s', t, i)
    requires s.slots[i].status == CLEAN || IsWriter(s, t, i)
    requires PcInv(s', t)
    ensures PcInv(s', u)
  {
    assert PcInv(s, u) && PcInv(s, t);
    if u != t {
      if PcOf(s, u).Copying? {
        OtherWriters(s, t, i, u, PcOf(s, u).c.slot);
      } else if PcOf(s, u).Emitting? {
        assert s.slots[Circular(PcOf(s, u).start, PcOf(s, u).k, |s.slots|)].status == FLUSHING;
      }
    }
  }

  /** The producer's side: claiming a clean slot, copying into it, handing it over. */
  lemma WriterStep(s: State, s': State, t: nat, i: nat)
    requires Shape(s) && Threads(s) && Touches(s, s', t, i)
    requires s.slots[i].status == CLEAN || IsWriter(s, t, i)
    requires PcOf(s, t).Copying? ==> IsWriter(s, t, i)
    requires !PcOf(s, t).Sweeping? && !PcOf(s, t).Emitting? && !PcOf(s', t).Sweeping? && !PcOf(s', t).Emitting?
    requires PcInv(s', t) && |s'.slots[i].ctx| == MSG_SIZE
    requires (s'.slots[i].status == WRITING && IsWriter(s', t, i))
             || (s'.slots[i].status == DIRTY && PcOf(s', t).Outside?
                 && s'.slots[i].len == |Written(s'.slots[i].record)|
                 && s'.slots[i].ctx[..s'.slots[i].len] == Written(s'.slots[i].record))
    ensures Shape(s') && Threads(s')
  {
    assert PcInv(s, t) && SlotInv(s, i);
    forall u, v, k | IsWriter(s', u, k) && IsWriter(s', v, k) ensures u == v {
      if u != t {
        assert IsWriter(s, u, k);
        OtherWriters(s, t, i, u, k);
      }
      if v != t {
        assert IsWriter(s, v, k);
        OtherWriters(s, t, i, v, k);
      }
    }
    forall u ensures PcInv(s', u) {
      WriterLeavesOthers(s, s', t, i, u);
    }
    forall k | 0 <= k < |s'.slots| ensures SlotInv(s', k) {
      assert SlotInv(s, k);
      if k != i && s.slots[k].status == WRITING {
        var u :| IsWriter(s, u, k);
        assert IsWriter(s', u, k);
      }
    }
  }

  /** The flusher's side: taking a dirty slot, and returning it clean. */
  lemma FlusherStep(s: State, s': State, t: nat, i: nat)
    requires Shape(s) && Threads(s) && Touches(s, s', t, i)
    requires s.flushingLogs == Some(t)
    requires (s.slots[i].status == DIRTY && PcOf(s, t).Sweeping?) || IsFlusher(s, t, i)
    requires (s'.slots[i] == s.slots[i].(status := FLUSHING, setter := s'.slots[i].setter) && IsFlusher(s', t, i))
             || (s'.slots[i] == s.slots[i].(status := CLEAN, setter := s'.slots[i].setter) && PcOf(s', t).Sweeping?)
    requires PcInv(s', t)
    ensures Shape(s') && Threads(s')
  {
    assert PcInv(s, t) && SlotInv(s, i);
    forall u, k | IsWriter(s', u, k) ensures k != i && IsWriter(s, u, k) {
      assert u != t;
      assert IsWriter(s, u, k) && PcInv(s, u);
    }
    forall u ensures PcInv(s', u) {
      assert PcInv(s, u);
    }
    forall k | 0 <= k < |s'.slots| ensures SlotInv(s', k) {
      assert SlotInv(s, k);
      if k != i && s.slots[k].status == WRITING {
        var u :| IsWriter(s, u, k);
        assert u != t;
        assert IsWriter(s', u, k);
      }
    }
  }

  lemma ShapeStep(s: State, a: Action, s': State)
    requires Shape(s) && Threads(s) && Step(s, a) == Some(s')
    ensures Shape(s') && Threads(s')
  {
    var t, pc := a.t, PcOf(s, a.t);
    assert PcInv(s, t);
    match a
    case ClaimSlot(_, _) => QuietStep(s, s', t);
    case SeeAvailable(_, _) => QuietStep(s, s', t);
    case Decide(_, _) => QuietStep(s, s', t);
    case TryLock(_) => if s.flushingLogs.None? { LockStep(s, s', t); } else { QuietStep(s, s', t); }
    case SeeFlushed(_, _) => QuietStep(s, s', t);
    case CasWrite(_) => CasWriteShape(s, a, s');
    case CopyByte(_) => CopyByteShape(s, a, s');
    case FinishWrite(_) => FinishWriteShape(s, a, s');
    case FlushAll(_, _) => if s.flushingLogs.None? { LockStep(s, s', t); }
    case SweepSlot(_) => SweepSlotShape(s, a, s');
    case EmitByte(_) => EmitByteShape(s, a, s');
    case FinishEmit(_) => FinishEmitShape(s, a, s');
    case EndSweep(_) => LockStep(s, s', t);
  }

  lemma CasWriteShape(s: State, a: Action, s': State)
    requires Shape(s) && Threads(s) && a.CasWrite? && Step(s, a) == Some(s')
    ensures Shape(s') && Threads(s')
  {
    var t, i := a.t, PcOf(s, a.t).c.slot;
    assert PcInv(s, t) && SlotInv(s, i);
    if s.slots[i].status == CLEAN {
      WriterStep(s, s', t, i);
    } else {
      QuietStep(s, s', t);
    }
  }

  lemma CopyByteShape(s: State, a: Action, s': State)
    requires Shape(s) && Threads(s) && a.CopyByte? && Step(s, a) == Some(s')
    ensures Shape(s') && Threads(s')
  {
    var t, i, j := a.t, PcOf(s, a.t).c.slot, PcOf(s, a.t).copied;
    var w := Written(PcOf(s, t).c.record);
    assert PcInv(s, t) && SlotInv(s, i);
    assert s'.slots[i].ctx[..j + 1] == s.slots[i].ctx[..j] + [w[j]] == w[..j + 1];
    WriterStep(s, s', t, i);
  }

  lemma FinishWriteShape(s: State, a: Action, s': State)
    requires Shape(s) && Threads(s) && a.FinishWrite? && Step(s, a) == Some(s')
    ensures Shape(s') && Threads(s')
  {
    var t, i := a.t, PcOf(s, a.t).c.slot;
    var w := Written(PcOf(s, t).c.record);
    assert PcInv(s, t) && SlotInv(s, i);
    assert w[..|w|] == w;
    WriterStep(s, s', t, i);
  }

  lemma SweepSlotShape(s: State, a: Action, s': State)
    requires Shape(s) && Threads(s) && a.SweepSlot? && Step(s, a) == Some(s')
    ensures Shape(s') && Threads(s')
  {
    var t, pc := a.t, PcOf(s, a.t);
    var i := Circular(pc.start, pc.k, |s.slots|);
    assert PcInv(s, t) && SlotInv(s, i);
    if s.slots[i].status == DIRTY {
      FlusherStep(s, s', t, i);
    } else {
      LockStep(s, s', t);
    }
  }

  lemma EmitByteShape(s: State, a: Action, s': State)
    requires Shape(s) && Threads(s) && a.EmitByte? && Step(s, a) == Some(s')
    ensures Shape(s') && Threads(s')
  {
    var t, pc := a.t, PcOf(s, a.t);
    var i := Circular(pc.start, pc.k, |s.slots|);
    assert PcInv(s, t) && SlotInv(s, i);
    FlusherStep(s, s', t, i);
  }

  lemma FinishEmitShape(s: State, a: Action, s': State)
    requires Shape(s) && Threads(s) && a.FinishEmit? && Step(s, a) == Some(s')
    ensures Shape(s') && Threads(s')
  {
    var t, pc := a.t, PcOf(s, a.t);
    var i := Circular(pc.start, pc.k, |s.slots|);
    assert PcInv(s, t) && SlotInv(s, i);
    FlusherStep(s, s', t, i);
  }

  // ---------------------------------------------------------------------------------------------
  // Conservation: what has been written is in the file or still in the ring
  // ---------------------------------------------------------------------------------------------

  lemma {:induction false} HeldConcat(a: seq<Slot>, b: seq<Slot>)
    ensures HeldRecords(a + b) == HeldRecords(a) + HeldRecords(b)
    decreases |b|
  {
    if b == [] {
      assert a + b == a;
    } else {
      assert (a + b)[..|a + b| - 1] == a + b[..|b| - 1];
      HeldConcat(a, b[..|b| - 1]);
    }
  }

  lemma HeldSnoc(a: seq<Slot>, x: Slot)
    ensures HeldRecords(a + [x]) == HeldRecords(a) + Holding(x)
  {
    assert (a + [x])[..|a|] == a;
  }

  lemma HeldAround(slots: seq<Slot>, i: nat)
    requires i < |slots|
    ensures Held(slots) == Held(slots[..i]) + Held(slots[i + 1..]) + multiset(Holding(slots[i]))
  {
    var a, x, b := slots[..i], slots[i], slots[i + 1..];
    assert slots == (a + [x]) + b;
    HeldConcat(a + [x], b);
    HeldSnoc(a, x);
  }

  lemma HeldSplit(slots: seq<Slot>, slots': seq<Slot>, i: nat) returns (rest: multiset<Record>)
    requires i < |slots| == |slots'| && slots' == slots[i := slots'[i]]
    ensures Held(slots) == rest + multiset(Holding(slots[i]))
    ensures Held(slots') == rest + multiset(Holding(slots'[i]))
  {
    HeldAround(slots, i);
    HeldAround(slots', i);
    assert slots'[..i] == slots[..i] && slots'[i + 1..] == slots[i + 1..];
    rest := Held(slots[..i]) + Held(slots[i + 1..]);
  }

  /** A slot that keeps what it holds, starts to hold a record, or lets one go. */
  lemma HeldUpdate(slots: seq<Slot>, slots': seq<Slot>, i: nat)
    requires i < |slots| == |slots'| && slots' == slots[i := slots'[i]]
    ensures Holding(slots'[i]) == Holding(slots[i]) ==> Held(slots') == Held(slots)
    ensures Holding(slots[i]) == [] ==> Held(slots') == Held(slots) + multiset(Holding(slots'[i]))
    ensures Holding(slots'[i]) == [] ==> Held(slots) == Held(slots') + multiset(Holding(slots[i]))
  {
    var rest := HeldSplit(slots, slots', i);
    assert forall x: multiset<Record> :: x + multiset([]) == x;
  }

  lemma TextSnoc(records: seq<Record>, r: Record)
    ensures Text(records + [r]) == Text(records) + Written(r)
  {
    assert (records + [r])[..|records|] == records;
  }

  /** Steps that neither finish a write nor touch the file. */
  lemma ConservedFrame(s: State, s': State)
    requires Conserved(s)
    requires s'.file == s.file && s'.completed == s.completed && s'.emitted == s.emitted
    requires Partial(s') == Partial(s) && Held(s'.slots) == Held(s.slots)
    ensures Conserved(s')
  {
  }

  lemma ConservedStep(s: State, a: Action, s': State)
    requires Shape(s) && Threads(s) && Conserved(s) && Step(s, a) == Some(s')
    ensures Conserved(s')
  {
    var t := a.t;
    assert PcInv(s, t);
    match a
    case CasWrite(_) => CasWriteConserves(s, a, s');
    case CopyByte(_) => CopyByteConserves(s, a, s');
    case FinishWrite(_) => FinishWriteConserves(s, a, s');
    case SweepSlot(_) => SweepSlotConserves(s, a, s');
    case EmitByte(_) => EmitByteConserves(s, a, s');
    case FinishEmit(_) => FinishEmitConserves(s, a, s');
    case _ =>
      assert s'.slots == s.slots;
      PartialElsewhere(s, s', t);
      ConservedFrame(s, s');
  }

  /** A thread that is not emitting does not change what has been partly emitted, unless it writes that slot. */
  lemma PartialElsewhere(s: State, s': State, t: nat)
    requires Shape(s) && Threads(s)
    requires |s'.slots| == |s.slots|
    requires forall u :: u != t ==> PcOf(s', u) == PcOf(s, u)
    requires !PcOf(s, t).Emitting? && (!PcOf(s', t).Emitting? || PcOf(s', t).written == 0)
    requires s'.flushingLogs == s.flushingLogs || s.flushingLogs.None? || s.flushingLogs == Some(t)
    requires s'.flushingLogs == s.flushingLogs || s'.flushingLogs.None? || s'.flushingLogs == Some(t)
    requires forall i :: 0 <= i < |s.slots| && s.slots[i].status == FLUSHING ==> s'.slots[i].ctx == s.slots[i].ctx
    ensures Partial(s') == Partial(s)
  {
    if s.flushingLogs.Some? {
      assert PcInv(s, s.flushingLogs.value);
    }
  }

  lemma CasWriteConserves(s: State, a: Action, s': State)
    requires Shape(s) && Threads(s) && Conserved(s) && a.CasWrite? && Step(s, a) == Some(s')
    ensures Conserved(s')
  {
    var i := PcOf(s, a.t).c.slot;
    assert PcInv(s, a.t);
    PartialElsewhere(s, s', a.t);
    HeldUpdate(s.slots, s'.slots, i);
    ConservedFrame(s, s');
  }

  lemma CopyByteConserves(s: State, a: Action, s': State)
    requires Shape(s) && Threads(s) && Conserved(s) && a.CopyByte? && Step(s, a) == Some(s')
    ensures Conserved(s')
  {
    var i := PcOf(s, a.t).c.slot;
    assert PcInv(s, a.t);
    PartialElsewhere(s, s', a.t);
    HeldUpdate(s.slots, s'.slots, i);
    ConservedFrame(s, s');
  }

  lemma FinishWriteConserves(s: State, a: Action, s': State)
    requires Shape(s) && Threads(s) && Conserved(s) && a.FinishWrite? && Step(s, a) == Some(s')
    ensures Conserved(s')
  {
    var i, r := PcOf(s, a.t).c.slot, PcOf(s, a.t).c.record;
    assert PcInv(s, a.t);
    PartialElsewhere(s, s', a.t);
    RecordArrives(s, s', i, r);
  }

  /** A record that has been written whole is held in its slot. */
  lemma RecordArrives(s: State, s': State, i: nat, r: Record)
    requires Conserved(s) && i < |s.slots| == |s'.slots| && s.slots[i].status == WRITING
    requires s'.slots == s.slots[i := s.slots[i].(status := DIRTY, setter := s'.slots[i].setter, record := r)]
    requires s'.completed == s.completed + [r] && s'.emitted == s.emitted
    requires s'.file == s.file && Partial(s') == Partial(s)
    ensures Conserved(s')
  {
    LetIn(s.slots, s'.slots, i);
    AddRecord(s.completed, s.emitted, Held(s.slots), Held(s'.slots), r);
  }

  lemma LetIn(slots: seq<Slot>, slots': seq<Slot>, i: nat)
    requires i < |slots| == |slots'| && slots' == slots[i := slots'[i]]
    requires slots[i].status == WRITING && slots'[i].status == DIRTY
    ensures Held(slots') == Held(slots) + multiset([slots'[i].record])
  {
    HeldUpdate(slots, slots', i);
  }

  lemma AddRecord(completed: seq<Record>, emitted: seq<Record>, held: multiset<Record>, held': multiset<Record>, r: Record)
    requires multiset(completed) == multiset(emitted) + held
    requires held' == held + multiset([r])
    ensures multiset(completed + [r]) == multiset(emitted) + held'
  {
  }

  lemma SweepSlotConserves(s: State, a: Action, s': State)
    requires Shape(s) && Threads(s) && Conserved(s) && a.SweepSlot? && Step(s, a) == Some(s')
    ensures Conserved(s')
  {
    var pc := PcOf(s, a.t);
    var i := Circular(pc.start, pc.k, |s.slots|);
    assert PcInv(s, a.t);
    PartialElsewhere(s, s', a.t);
    HeldUpdate(s.slots, s'.slots, i);
    ConservedFrame(s, s');
  }

  lemma EmitByteConserves(s: State, a: Action, s': State)
    requires Shape(s) && Threads(s) && Conserved(s) && a.EmitByte? && Step(s, a) == Some(s')
    ensures Conserved(s')
  {
    var pc := PcOf(s, a.t);
    var ctx, j := s.slots[Circular(pc.start, pc.k, |s.slots|)].ctx, pc.written;
    assert PcInv(s, a.t);
    assert ctx[..j + 1] == ctx[..j] + [ctx[j]];
    assert Partial(s') == ctx[..j + 1];
    assert Text(s.emitted) + ctx[..j] + [ctx[j]] == Text(s.emitted) + ctx[..j + 1];
  }

  lemma FinishEmitConserves(s: State, a: Action, s': State)
    requires Shape(s) && Threads(s) && Conserved(s) && a.FinishEmit? && Step(s, a) == Some(s')
    ensures Conserved(s')
  {
    var i := Circular(PcOf(s, a.t).start, PcOf(s, a.t).k, |s.slots|);
    FinishEmitStep(s, a, s');
    FinishEmitFile(s, a, s');
    RecordMoves(s, s', i);
  }

  /** The record leaves its slot for the emitted ones. */
  lemma RecordMoves(s: State, s': State, i: nat)
    requires Conserved(s) && i < |s.slots| == |s'.slots| && s.slots[i].status == FLUSHING
    requires s'.slots == s.slots[i := s.slots[i].(status := CLEAN, setter := s'.slots[i].setter)] && s'.completed == s.completed
    requires s'.emitted == s.emitted + [s.slots[i].record]
    requires s'.file == Text(s'.emitted) && Partial(s') == ""
    ensures Conserved(s')
  {
    LetGo(s.slots, s'.slots, i);
    MoveRecord(s.completed, s.emitted, Held(s.slots), Held(s'.slots), s.slots[i].record);
    assert s'.file == Text(s'.emitted) + "";
  }

  lemma FinishEmitStep(s: State, a: Action, s': State)
    requires Shape(s) && Threads(s) && a.FinishEmit? && Step(s, a) == Some(s')
    ensures var i := Circular(PcOf(s, a.t).start, PcOf(s, a.t).k, |s.slots|);
            && s.slots[i].status == FLUSHING && IsFlusher(s, a.t, i)
            && PcOf(s, a.t).written == s.slots[i].len
            && s'.file == s.file && s'.emitted == s.emitted + [s.slots[i].record]
            && s'.slots == s.slots[i := s.slots[i].(status := CLEAN, setter := Some(a.t))] && s'.completed == s.completed
    ensures s.flushingLogs == s'.flushingLogs == Some(a.t) && PcOf(s', a.t).Sweeping?
  {
    assert PcInv(s, a.t);
  }

  /** A record that has been emitted whole moves from the partial to the emitted ones. */
  lemma {:induction false} FileAfterEmit(file: string, emitted: seq<Record>, partial: string, r: Record)
    requires file == Text(emitted) + partial && partial == Written(r)
    ensures file == Text(emitted + [r])
  {
    TextSnoc(emitted, r);
  }

  lemma {:induction false} FinishEmitFile(s: State, a: Action, s': State)
    requires Shape(s) && Threads(s) && s.file == Text(s.emitted) + Partial(s) && a.FinishEmit?
    requires Step(s, a) == Some(s')
    ensures s'.file == Text(s'.emitted) && Partial(s') == ""
  {
    var i := Circular(PcOf(s, a.t).start, PcOf(s, a.t).k, |s.slots|);
    FinishEmitStep(s, a, s');
    WholeRecord(s, a.t, i);
    NothingPartial(s', a.t);
    FileAfterEmit(s.file, s.emitted, Partial(s), s.slots[i].record);
  }

  lemma WholeRecord(s: State, t: nat, i: nat)
    requires Shape(s) && s.flushingLogs == Some(t) && IsFlusher(s, t, i) && i < |s.slots|
    requires s.slots[i].status == FLUSHING && PcOf(s, t).written == s.slots[i].len
    ensures Partial(s) == Written(s.slots[i].record)
  {
    assert SlotInv(s, i);
  }

  lemma NothingPartial(s: State, t: nat)
    requires s.flushingLogs == Some(t) && PcOf(s, t).Sweeping?
    ensures Partial(s) == ""
  {
  }

  lemma LetGo(slots: seq<Slot>, slots': seq<Slot>, i: nat)
    requires i < |slots| == |slots'| && slots' == slots[i := slots'[i]]
    requires slots[i].status == FLUSHING && slots'[i].status == CLEAN
    ensures Held(slots) == Held(slots') + multiset([slots[i].record])
  {
    HeldUpdate(slots, slots', i);
  }

  lemma MoveRecord(completed: seq<Record>, emitted: seq<Record>, held: multiset<Record>, held': multiset<Record>, r: Record)
    requires multiset(completed) == multiset(emitted) + held
    requires held == held' + multiset([r])
    ensures multiset(completed) == multiset(emitted + [r]) + held'
  {
  }

  // ---------------------------------------------------------------------------------------------
  // Tickets
  // ---------------------------------------------------------------------------------------------

  lemma TicketsFrame(s: State, s': State)
    requires Tickets(s)
    requires s'.completed == s.completed && s'.dropped == s.dropped && s'.next == s.next
    requires forall t :: ClaimOf(PcOf(s', t)) == ClaimOf(PcOf(s, t))
    ensures Tickets(s')
  {
    assert forall t: nat, ticket: nat :: Carries(s', t, ticket) <==> Carries(s, t, ticket);
  }

  lemma ListedSnoc(records: seq<Record>, r: Record, ticket: nat)
    ensures Listed(records + [r], ticket) <==> Listed(records, ticket) || r.ticket == ticket
  {
    var more := records + [r];
    if Listed(records, ticket) {
      var k :| 0 <= k < |records| && records[k].ticket == ticket;
      assert more[k].ticket == ticket;
    }
    if r.ticket == ticket {
      assert more[|records|].ticket == ticket;
    }
  }

  lemma ClaimTickets(s: State, s': State, t: nat)
    requires Tickets(s)
    requires s'.completed == s.completed && s'.dropped == s.dropped && s'.next == s.next + 1
    requires ClaimOf(PcOf(s, t)).None? && Carries(s', t, s.next)
    requires forall u :: u != t ==> PcOf(s', u) == PcOf(s, u)
    ensures Tickets(s')
  {
    assert forall u: nat, ticket: nat :: u != t ==> (Carries(s', u, ticket) <==> Carries(s, u, ticket));
    assert forall ticket: nat :: Carries(s', t, ticket) <==> ticket == s.next;
    assert !Listed(s.completed, s.next) && !Listed(s.dropped, s.next);
  }

  /** A thread gives up its claim: the record moves to the completed or to the dropped ones. */
  lemma ReleaseTickets(s: State, s': State, t: nat, r: Record)
    requires Tickets(s) && s'.next == s.next
    requires ClaimOf(PcOf(s, t)).Some? && ClaimOf(PcOf(s, t)).value.record == r && ClaimOf(PcOf(s', t)).None?
    requires forall u :: u != t ==> PcOf(s', u) == PcOf(s, u)
    requires (s'.completed == s.completed + [r] && s'.dropped == s.dropped)
             || (s'.dropped == s.dropped + [r] && s'.completed == s.completed)
    ensures Tickets(s')
  {
    assert Carries(s, t, r.ticket);
    assert forall u: nat, ticket: nat :: Carries(s', u, ticket) <==> u != t && Carries(s, u, ticket);
    forall ticket: nat
      ensures Listed(s.completed + [r], ticket) <==> Listed(s.completed, ticket) || r.ticket == ticket
      ensures Listed(s.dropped + [r], ticket) <==> Listed(s.dropped, ticket) || r.ticket == ticket
    {
      ListedSnoc(s.completed, r, ticket);
      ListedSnoc(s.dropped, r, ticket);
    }
    assert forall k :: 0 <= k < |s.completed| ==> Listed(s.completed, s.completed[k].ticket);
  }

  lemma TicketsStep(s: State, a: Action, s': State)
    requires Shape(s) && Threads(s) && Tickets(s) && Step(s, a) == Some(s')
    ensures Tickets(s')
  {
    var t := a.t;
    assert PcInv(s, t);
    match a
    case ClaimSlot(_, _) => ClaimTickets(s, s', t);
    case CasWrite(_) =>
      if s.slots[PcOf(s, t).c.slot].status == CLEAN { TicketsFrame(s, s'); }
      else { ReleaseTickets(s, s', t, PcOf(s, t).c.record); }
    case FinishWrite(_) => ReleaseTickets(s, s', t, PcOf(s, t).c.record);
    case _ => TicketsFrame(s, s');
  }

  // ---------------------------------------------------------------------------------------------
  // What holds in every run
  // ---------------------------------------------------------------------------------------------

  lemma EmptyInv(n: nat)
    requires n > 0
    ensures Inv(Empty(n))
  {
    var s := Empty(n);
    assert forall t :: PcOf(s, t) == Outside;
    forall i | 0 <= i < |s.slots| ensures SlotInv(s, i) {
    }
    NothingHeld(s.slots);
  }

  lemma {:induction false} NothingHeld(slots: seq<Slot>)
    requires forall i :: 0 <= i < |slots| ==> slots[i].status == CLEAN
    ensures HeldRecords(slots) == []
  {
    if slots != [] {
      NothingHeld(slots[..|slots| - 1]);
    }
  }

  lemma StepInv(s: State, a: Action, s': State)
    requires Inv(s) && Step(s, a) == Some(s')
    ensures Inv(s')
  {
    ShapeStep(s, a, s');
    ConservedStep(s, a, s');
    TicketsStep(s, a, s');
  }

  lemma {:induction false} RunInv(n: nat, actions: seq<Action>, states: seq<State>, k: nat)
    requires IsRun(n, actions, states) && k <= |actions|
    ensures Inv(states[k])
  {
    if k == 0 {
      EmptyInv(n);
    } else {
      RunInv(n, actions, states, k - 1);
      StepInv(states[k - 1], actions[k - 1], states[k]);
    }
  }
}
