/**
 * The log ring of `SimpleLogger` under any interleaving of producers and flushers, as atomic steps: each load,
 * compare-and-swap and store of `status` and `cursor` is one step, and bytes are copied and emitted one by one.
 * Plain loads of `status` are relaxed: they may return an old value.
 */
module LogRing {
  import opened Documents

  const MSG_SIZE: nat := 4096

  datatype Status = CLEAN | WRITING | DIRTY | FLUSHING

  /** A message handed to `put`; the ticket numbers the puts, for bookkeeping only. */
  datatype Record = Record(ticket: nat, bytes: string)

  /**
   * `setter` is the thread that changed the status last, and `record` the message the bytes came from; both are for
   * bookkeeping only.
   */
  datatype Slot = Slot(status: Status, setter: Option<nat>, len: nat, ctx: string, record: Record)

  /** A producer's claim on a slot. */
  datatype Claim = Claim(slot: nat, record: Record)

  /** Where a thread is inside `put`, `flush` or `flushAll`; a sweep started by `put` returns to its claim. */
  datatype Pc =
    | Outside
    | Waiting(c: Claim)
    | Deciding(c: Claim)
    | TryingLock(c: Claim)
    | WaitingClean(c: Claim)
    | Storing(c: Claim)
    | Copying(c: Claim, copied: nat)
    | Sweeping(start: nat, k: nat, back: Option<Claim>)
    | Emitting(start: nat, k: nat, back: Option<Claim>, written: nat)

  datatype State = State(
    slots: seq<Slot>,
    cursor: nat,
    threads: map<nat, Pc>,
    flushingLogs: Option<nat>,
    file: string,
    next: nat,
    completed: seq<Record>,
    emitted: seq<Record>,
    dropped: seq<Record>)

  datatype Action =
    | ClaimSlot(t: nat, bytes: string)
    | SeeAvailable(t: nat, seen: Status)
    | Decide(t: nat, seen: Status)
    | TryLock(t: nat)
    | SeeFlushed(t: nat, seen: Status)
    | CasWrite(t: nat)
    | CopyByte(t: nat)
    | FinishWrite(t: nat)
    | FlushAll(t: nat, start: nat)
    | SweepSlot(t: nat)
    | EmitByte(t: nat)
    | FinishEmit(t: nat)
    | EndSweep(t: nat)

  /** The slots visited by a sweep: from `start` to the end, then from 0. */
  function Circular(start: nat, k: nat, n: nat): nat
    requires start < n && k < n
  {
    if start + k < n then start + k else start + k - n
  }

  /** `len` is capped at the slot size. */
  function Capped(bytes: string): (b: string)
    ensures |b| <= MSG_SIZE
  {
    if |bytes| > MSG_SIZE then bytes[..MSG_SIZE] else bytes
  }

  function Written(r: Record): (b: string)
    ensures |b| <= MSG_SIZE
  {
    Capped(r.bytes)
  }

  /**
   * What a relaxed load by `t` may return. A thread never misses its own last store, and before the first change
   * there is only one value; once another thread has changed the status, any value is possible.
   */
  predicate MayRead(slot: Slot, t: nat, seen: Status) {
    seen == slot.status || (slot.setter.Some? && slot.setter.value != t)
  }

  function PcOf(s: State, t: nat): Pc {
    if t in s.threads then s.threads[t] else Outside
  }

  function At(s: State, t: nat, pc: Pc): State {
    s.(threads := s.threads[t := pc])
  }

  function SetStatus(s: State, i: nat, status: Status, t: nat): State
    requires i < |s.slots|
  {
    s.(slots := s.slots[i := s.slots[i].(status := status, setter := Some(t))])
  }

  predicate InRange(s: State, pc: Pc) {
    match pc
    case Outside => true
    case Sweeping(start, k, _) => start < |s.slots| && k <= |s.slots|
    case Emitting(start, k, _, _) => start < |s.slots| && k < |s.slots|
    case _ => pc.c.slot < |s.slots|
  }

  /** One atomic step of one thread, or `None` if the thread is not at that point or spins there. */
  function Step(s: State, a: Action): Option<State>
    requires s.cursor < |s.slots|
  {
    var t, pc := a.t, PcOf(s, a.t);
    if !InRange(s, pc) then None else
    match a
    case ClaimSlot(_, bytes) =>
      if pc.Outside? then
        Some(At(s.(cursor := (s.cursor + 1) % |s.slots|, next := s.next + 1), t,
                Waiting(Claim(s.cursor, Record(s.next, bytes)))))
      else None
    case SeeAvailable(_, seen) =>
      if pc.Waiting? && MayRead(s.slots[pc.c.slot], t, seen) && (seen == CLEAN || seen == DIRTY)
      then Some(At(s, t, Deciding(pc.c))) else None
    case Decide(_, seen) =>
      if pc.Deciding? && MayRead(s.slots[pc.c.slot], t, seen) then
        Some(At(s, t, if seen == DIRTY then TryingLock(pc.c) else Storing(pc.c)))
      else None
    case TryLock(_) =>
      if !pc.TryingLock? then None
      else if s.flushingLogs.None? then
        Some(At(s.(flushingLogs := Some(t)), t, Sweeping(pc.c.slot, 0, Some(pc.c))))
      else Some(At(s, t, WaitingClean(pc.c)))
    case SeeFlushed(_, seen) =>
      if pc.WaitingClean? && MayRead(s.slots[pc.c.slot], t, seen) && seen != DIRTY
      then Some(At(s, t, Storing(pc.c))) else None
    case CasWrite(_) =>
      if !pc.Storing? then None
      else if s.slots[pc.c.slot].status == CLEAN then
        var i := pc.c.slot;
        var slot := s.slots[i].(status := WRITING, setter := Some(t), len := |Written(pc.c.record)|);
        Some(At(s.(slots := s.slots[i := slot]), t, Copying(pc.c, 0)))
      else Some(At(s.(dropped := s.dropped + [pc.c.record]), t, Outside))
    case CopyByte(_) =>
      if pc.Copying? && pc.copied < |Written(pc.c.record)| && pc.copied < |s.slots[pc.c.slot].ctx| then
        var i, j := pc.c.slot, pc.copied;
        Some(At(s.(slots := s.slots[i := s.slots[i].(ctx := s.slots[i].ctx[j := Written(pc.c.record)[j]])]), t,
                Copying(pc.c, j + 1)))
      else None
    case FinishWrite(_) =>
      if pc.Copying? && pc.copied == |Written(pc.c.record)| then
        var i := pc.c.slot;
        Some(At(s.(slots := s.slots[i := s.slots[i].(status := DIRTY, setter := Some(t), record := pc.c.record)],
                   completed := s.completed + [pc.c.record]), t, Outside))
      else None
    case FlushAll(_, start) =>
      if pc.Outside? && start < |s.slots| then
        Some(if s.flushingLogs.None? then At(s.(flushingLogs := Some(t)), t, Sweeping(start, 0, None)) else s)
      else None
    case SweepSlot(_) =>
      if pc.Sweeping? && pc.k < |s.slots| then
        var i := Circular(pc.start, pc.k, |s.slots|);
        Some(if s.slots[i].status == DIRTY
             then At(SetStatus(s, i, FLUSHING, t), t, Emitting(pc.start, pc.k, pc.back, 0))
             else At(s, t, Sweeping(pc.start, pc.k + 1, pc.back)))
      else None
    case EmitByte(_) =>
      if pc.Emitting? then
        var i := Circular(pc.start, pc.k, |s.slots|);
        if pc.written < s.slots[i].len && pc.written < |s.slots[i].ctx| then
          Some(At(s.(file := s.file + [s.slots[i].ctx[pc.written]]), t,
                  Emitting(pc.start, pc.k, pc.back, pc.written + 1)))
        else None
      else None
    case FinishEmit(_) =>
      if pc.Emitting? then
        var i := Circular(pc.start, pc.k, |s.slots|);
        if pc.written == s.slots[i].len then
          Some(At(SetStatus(s, i, CLEAN, t).(emitted := s.emitted + [s.slots[i].record]), t,
                  Sweeping(pc.start, pc.k + 1, pc.back)))
        else None
      else None
    case EndSweep(_) =>
      if pc.Sweeping? && pc.k == |s.slots| then
        Some(At(s.(flushingLogs := None), t, if pc.back.Some? then Storing(pc.back.value) else Outside))
      else None
  }

  function Empty(n: nat): State
    requires n > 0
  {
    State(seq(n, i => Slot(CLEAN, None, 0, seq(MSG_SIZE, j => '\0'), Record(0, ""))), 0, map[], None, "", 0, [], [], [])
  }

  /** A run of a ring of n slots. */
  ghost predicate IsRun(n: nat, actions: seq<Action>, states: seq<State>) {
    && n > 0
    && |states| == |actions| + 1
    && states[0] == Empty(n)
    && forall k :: 0 <= k < |actions| ==>
         states[k].cursor < |states[k].slots| && Step(states[k], actions[k]) == Some(states[k + 1])
  }

  // ---------------------------------------------------------------------------------------------
  // The invariant
  // ---------------------------------------------------------------------------------------------

  /** What a thread may rely on at its program point. */
  ghost predicate PcInv(s: State, t: nat) {
    var pc := PcOf(s, t);
    && InRange(s, pc)
    && (pc.Copying? ==>
          var slot, w := s.slots[pc.c.slot], Written(pc.c.record);
          && slot.status == WRITING && slot.len == |w|
          && pc.copied <= |w| <= |slot.ctx| && slot.ctx[..pc.copied] == w[..pc.copied])
    && (pc.Sweeping? || pc.Emitting? <==> s.flushingLogs == Some(t))
    && (pc.Sweeping? || pc.Emitting? ==> pc.back.Some? ==> pc.back.value.slot < |s.slots|)
    && (pc.Emitting? ==>
          var slot := s.slots[Circular(pc.start, pc.k, |s.slots|)];
          slot.status == FLUSHING && pc.written <= slot.len)
  }

  ghost predicate SlotInv(s: State, i: nat)
    requires i < |s.slots|
  {
    var slot := s.slots[i];
    && |slot.ctx| == MSG_SIZE
    && (slot.status == WRITING ==> exists t :: IsWriter(s, t, i))
    && (slot.status == FLUSHING ==> s.flushingLogs.Some? && IsFlusher(s, s.flushingLogs.value, i))
    && (slot.status == DIRTY || slot.status == FLUSHING ==>
          slot.len == |Written(slot.record)| && slot.ctx[..slot.len] == Written(slot.record))
  }

  predicate IsWriter(s: State, t: nat, i: nat) {
    PcOf(s, t).Copying? && PcOf(s, t).c.slot == i
  }

  predicate IsFlusher(s: State, t: nat, i: nat) {
    PcOf(s, t).Emitting? && InRange(s, PcOf(s, t)) && Circular(PcOf(s, t).start, PcOf(s, t).k, |s.slots|) == i
  }

  /** The bytes of the record being emitted that are already in the file. */
  function Partial(s: State): string {
    if s.flushingLogs.None? then "" else
      var pc := PcOf(s, s.flushingLogs.value);
      if pc.Emitting? && InRange(s, pc) then
        var ctx := s.slots[Circular(pc.start, pc.k, |s.slots|)].ctx;
        if pc.written <= |ctx| then ctx[..pc.written] else ""
      else ""
  }

  function Text(records: seq<Record>): string {
    if records == [] then "" else Text(records[..|records| - 1]) + Written(records[|records| - 1])
  }

  function Holding(slot: Slot): seq<Record> {
    if slot.status == DIRTY || slot.status == FLUSHING then [slot.record] else []
  }

  function HeldRecords(slots: seq<Slot>): seq<Record> {
    if slots == [] then [] else HeldRecords(slots[..|slots| - 1]) + Holding(slots[|slots| - 1])
  }

  /** The records that have been written and not yet emitted. */
  function Held(slots: seq<Slot>): multiset<Record> {
    multiset(HeldRecords(slots))
  }

  ghost predicate Shape(s: State) {
    s.cursor < |s.slots| && forall i :: 0 <= i < |s.slots| ==> SlotInv(s, i)
  }

  ghost predicate Threads(s: State) {
    && (forall t :: PcInv(s, t))
    && forall t, u, i :: IsWriter(s, t, i) && IsWriter(s, u, i) ==> t == u
  }

  ghost predicate Conserved(s: State) {
    && s.file == Text(s.emitted) + Partial(s)
    && multiset(s.completed) == multiset(s.emitted) + Held(s.slots)
  }

  function ClaimOf(pc: Pc): Option<Claim> {
    match pc
    case Outside => None
    case Sweeping(_, _, back) => back
    case Emitting(_, _, back, _) => back
    case _ => Some(pc.c)
  }

  predicate Carries(s: State, t: nat, ticket: nat) {
    ClaimOf(PcOf(s, t)).Some? && ClaimOf(PcOf(s, t)).value.record.ticket == ticket
  }

  predicate Listed(records: seq<Record>, ticket: nat) {
    exists k :: 0 <= k < |records| && records[k].ticket == ticket
  }

  /** Every ticket handed out is in exactly one place: with one thread, completed once, or dropped. */
  ghost predicate Tickets(s: State) {
    && (forall t: nat, ticket: nat :: Carries(s, t, ticket) ==>
          ticket < s.next && !Listed(s.completed, ticket) && !Listed(s.dropped, ticket))
    && (forall t: nat, u: nat, ticket: nat :: Carries(s, t, ticket) && Carries(s, u, ticket) ==> t == u)
    && (forall k :: 0 <= k < |s.completed| ==> s.completed[k].ticket < s.next && !Listed(s.dropped, s.completed[k].ticket))
    && (forall k :: 0 <= k < |s.dropped| ==> s.dropped[k].ticket < s.next)
    && (forall j, k :: 0 <= j < k < |s.completed| ==> s.completed[j].ticket != s.completed[k].ticket)
    && (forall ticket: nat :: ticket < s.next ==>
          (exists t :: Carries(s, t, ticket)) || Listed(s.completed, ticket) || Listed(s.dropped, ticket))
  }

  ghost predicate Inv(s: State) {
    Shape(s) && Threads(s) && Conserved(s) && Tickets(s)
  }
}
