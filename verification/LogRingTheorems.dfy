/** What holds of the log ring in every run, and two runs that lose a message. */
module LogRingTheorems {
  import opened Documents
  import opened LogRing
  import opened LogRingInvariant

  lemma {:induction false} DistinctByMultiset(emitted: seq<Record>, completed: seq<Record>, j: nat, k: nat)
    requires j < k < |emitted|
    requires multiset(emitted) <= multiset(completed)
    requires forall a, b :: 0 <= a < b < |completed| ==> completed[a].ticket != completed[b].ticket
    ensures emitted[j] != emitted[k]
  {
    if emitted[j] == emitted[k] {
      CountTwice(emitted, j, k);
      CountOnce(completed, emitted[j]);
    }
  }

  lemma CountTwice(s: seq<Record>, j: nat, k: nat)
    requires j < k < |s| && s[j] == s[k]
    ensures multiset(s)[s[j]] >= 2
  {
    assert s == s[..k] + [s[k]] + s[k + 1..];
    assert s[..k][j] == s[j] && s[j] in s[..k];
  }

  lemma {:induction false} CountOnce(s: seq<Record>, r: Record)
    requires forall a, b :: 0 <= a < b < |s| ==> s[a].ticket != s[b].ticket
    ensures multiset(s)[r] <= 1
  {
    if s != [] {
      var front, last := s[..|s| - 1], s[|s| - 1];
      assert s == front + [last];
      CountOnce(front, r);
      assert forall a :: 0 <= a < |front| ==> s[a].ticket != s[|s| - 1].ticket;
      assert last == r ==> r !in front;
    }
  }

  /**
   * The ring is safe under every interleaving: a slot has at most one writer and at most one slot is being
   * flushed; the written records are the emitted ones plus those still held; no record is emitted twice; and
   * the file is the emitted records, whole and in order, followed at most by a prefix of the one in hand.
   */
  lemma RingIsSafe(n: nat, actions: seq<Action>, states: seq<State>, k: nat)
    requires IsRun(n, actions, states) && k <= |actions|
    ensures var s := states[k];
            && (forall t, u, i :: IsWriter(s, t, i) && IsWriter(s, u, i) ==> t == u)
            && (forall i, j :: 0 <= i < j < |s.slots| ==> !(s.slots[i].status == FLUSHING && s.slots[j].status == FLUSHING))
            && multiset(s.completed) == multiset(s.emitted) + Held(s.slots)
            && (forall i, j :: 0 <= i < j < |s.emitted| ==> s.emitted[i] != s.emitted[j])
            && s.file == Text(s.emitted) + Partial(s)
            && (s.flushingLogs.None? ==> s.file == Text(s.emitted))
  {
    RunInv(n, actions, states, k);
    var s := states[k];
    forall i, j | 0 <= i < j < |s.slots|
      ensures !(s.slots[i].status == FLUSHING && s.slots[j].status == FLUSHING)
    {
      assert SlotInv(s, i) && SlotInv(s, j);
    }
    forall i, j | 0 <= i < j < |s.emitted| ensures s.emitted[i] != s.emitted[j] {
      DistinctByMultiset(s.emitted, s.completed, i, j);
    }
  }

  // ---------------------------------------------------------------------------------------------
  // The file is made of the messages as they were put
  // ---------------------------------------------------------------------------------------------

  /** The messages handed to `put` so far, in the order of their claims. */
  function Puts(actions: seq<Action>): seq<string> {
    if actions == [] then [] else
      Puts(actions[..|actions| - 1]) +
      if actions[|actions| - 1].ClaimSlot? then [actions[|actions| - 1].bytes] else []
  }

  /** The record is that of put number `ticket`. */
  predicate Genuine(r: Record, puts: seq<string>) {
    r.ticket < |puts| && r.bytes == puts[r.ticket]
  }

  ghost predicate AllGenuine(records: seq<Record>, puts: seq<string>) {
    forall i :: 0 <= i < |records| ==> Genuine(records[i], puts)
  }

  /** Put number j claims slot j modulo the size of the ring; what threads hold and have written is genuine. */
  ghost predicate Truthful(s: State, puts: seq<string>) {
    && |s.slots| > 0 && s.next == |puts| && s.cursor == s.next % |s.slots|
    && AllGenuine(s.completed, puts) && AllGenuine(s.dropped, puts)
    && forall t :: ClaimIsGenuine(ClaimOf(PcOf(s, t)), |s.slots|, puts)
  }

  ghost predicate ClaimIsGenuine(c: Option<Claim>, n: nat, puts: seq<string>)
    requires n > 0
  {
    c.Some? ==> Genuine(c.value.record, puts) && c.value.slot == c.value.record.ticket % n
  }

  lemma NextSlot(x: nat, n: nat)
    requires n > 0
    ensures (x % n + 1) % n == (x + 1) % n
  {
    var r := x % n;
    if r + 1 < n {
      SameRemainder(x / n, r + 1, (x + 1) / n, (x + 1) % n, n);
    } else {
      assert (x / n + 1) * n == x / n * n + n;
      SameRemainder(x / n + 1, 0, (x + 1) / n, (x + 1) % n, n);
      SameRemainder(1, 0, n / n, n % n, n);
    }
  }

  lemma SameRemainder(q: int, r: nat, q': int, r': nat, n: nat)
    requires r < n && r' < n && q * n + r == q' * n + r'
    ensures r == r'
  {
    assert (q - q') * n == r' - r;
    if q > q' {
      AtLeast(q - q', n);
    } else if q < q' {
      assert (q' - q) * n == r - r';
      AtLeast(q' - q, n);
    }
  }

  lemma AtLeast(d: nat, n: nat)
    requires d > 0
    ensures d * n >= n
  {
  }

  lemma StillGenuine(records: seq<Record>, puts: seq<string>, more: seq<string>)
    requires AllGenuine(records, puts)
    ensures AllGenuine(records, puts + more)
  {
  }

  lemma TruthfulStep(s: State, a: Action, s': State, puts: seq<string>)
    requires Truthful(s, puts) && s.cursor < |s.slots| && Step(s, a) == Some(s')
    ensures Truthful(s', puts + if a.ClaimSlot? then [a.bytes] else [])
  {
    var puts' := puts + if a.ClaimSlot? then [a.bytes] else [];
    SlotsStay(s, a, s');
    StillGenuine(s.completed, puts, puts'[|puts|..]);
    StillGenuine(s.dropped, puts, puts'[|puts|..]);
    NextSlot(s.next, |s.slots|);
    assert ClaimIsGenuine(ClaimOf(PcOf(s, a.t)), |s.slots|, puts);
    forall t ensures ClaimIsGenuine(ClaimOf(PcOf(s', t)), |s'.slots|, puts') {
      assert ClaimIsGenuine(ClaimOf(PcOf(s, t)), |s.slots|, puts);
      ClaimsStay(s, a, s', t);
    }
  }

  /** A step brings a claim only to the thread that claims a slot. */
  lemma ClaimsStay(s: State, a: Action, s': State, t: nat)
    requires s.cursor < |s.slots| && Step(s, a) == Some(s')
    ensures ClaimOf(PcOf(s', t)) == ClaimOf(PcOf(s, t)) || ClaimOf(PcOf(s', t)).None?
            || (a.ClaimSlot? && a.t == t && ClaimOf(PcOf(s', t)) == Some(Claim(s.cursor, Record(s.next, a.bytes))))
  {
  }

  lemma {:induction false} RunIsTruthful(n: nat, actions: seq<Action>, states: seq<State>, k: nat)
    requires IsRun(n, actions, states) && k <= |actions|
    ensures |states[k].slots| == n && Truthful(states[k], Puts(actions[..k]))
  {
    SlotsOfRun(n, actions, states, k);
    if k > 0 {
      RunIsTruthful(n, actions, states, k - 1);
      assert actions[..k][..k - 1] == actions[..k - 1];
      TruthfulStep(states[k - 1], actions[k - 1], states[k], Puts(actions[..k - 1]));
      assert Puts(actions[..k - 1]) + [] == Puts(actions[..k - 1]);
    }
  }

  /** Messages one behind the other. */
  function Concatenation(records: seq<Record>): string {
    if records == [] then "" else Concatenation(records[..|records| - 1]) + records[|records| - 1].bytes
  }

  /** The first 4096 bytes of each. */
  function Fronts(records: seq<Record>): string {
    if records == [] then "" else
      var bytes := records[|records| - 1].bytes;
      Fronts(records[..|records| - 1]) + if |bytes| > 4096 then bytes[..4096] else bytes
  }

  lemma {:induction false} TextIsFronts(records: seq<Record>)
    ensures Text(records) == Fronts(records)
    ensures (forall i :: 0 <= i < |records| ==> |records[i].bytes| <= 4096) ==> Fronts(records) == Concatenation(records)
    decreases |records|
  {
    if records != [] {
      TextIsFronts(records[..|records| - 1]);
    }
  }

  lemma {:induction false} HeldHas(slots: seq<Slot>, i: nat)
    requires i < |slots| && (slots[i].status == DIRTY || slots[i].status == FLUSHING)
    ensures slots[i].record in HeldRecords(slots)
    decreases |slots|
  {
    if i < |slots| - 1 {
      HeldHas(slots[..|slots| - 1], i);
    }
  }

  /**
   * Whole messages: put number j goes to slot j modulo the size of the ring; a record that has been emitted or
   * dropped is one that was put, byte for byte; the file is the first 4096 bytes of each emitted message, one
   * behind the other, followed at most by a prefix of one that was put; and when no message is longer than that,
   * it is the emitted messages themselves.
   */
  lemma FileIsTheMessages(n: nat, actions: seq<Action>, states: seq<State>, k: nat)
    requires IsRun(n, actions, states) && k <= |actions|
    ensures var s, puts := states[k], Puts(actions[..k]);
            && s.next == |puts| && s.cursor == |puts| % n
            && (forall i :: 0 <= i < |s.emitted| ==> s.emitted[i].ticket < |puts| && s.emitted[i].bytes == puts[s.emitted[i].ticket])
            && (forall i :: 0 <= i < |s.dropped| ==> s.dropped[i].ticket < |puts| && s.dropped[i].bytes == puts[s.dropped[i].ticket])
            && (exists tail :: s.file == Fronts(s.emitted) + tail && (tail == "" || exists j :: 0 <= j < |puts| && tail <= puts[j]))
            && ((forall j :: 0 <= j < |puts| ==> |puts[j]| <= 4096) ==> Fronts(s.emitted) == Concatenation(s.emitted))
  {
    var s, puts := states[k], Puts(actions[..k]);
    RunIsTruthful(n, actions, states, k);
    RunInv(n, actions, states, k);
    EmittedAreCompleted(s);
    assert AllGenuine(s.emitted, puts) by {
      forall i | 0 <= i < |s.emitted| ensures Genuine(s.emitted[i], puts) {
        var j :| 0 <= j < |s.completed| && s.completed[j] == s.emitted[i];
        assert Genuine(s.completed[j], puts);
      }
    }
    TextIsFronts(s.emitted);
    PartialIsGenuine(s, puts);
  }

  lemma EmittedAreCompleted(s: State)
    requires Conserved(s)
    ensures forall i :: 0 <= i < |s.emitted| ==> exists j :: 0 <= j < |s.completed| && s.completed[j] == s.emitted[i]
    ensures forall r :: r in HeldRecords(s.slots) ==> exists j :: 0 <= j < |s.completed| && s.completed[j] == r
  {
    forall i | 0 <= i < |s.emitted| ensures exists j :: 0 <= j < |s.completed| && s.completed[j] == s.emitted[i] {
      assert s.emitted[i] in multiset(s.emitted);
      assert s.emitted[i] in multiset(s.completed);
    }
    forall r | r in HeldRecords(s.slots) ensures exists j :: 0 <= j < |s.completed| && s.completed[j] == r {
      assert r in multiset(HeldRecords(s.slots));
      assert r in multiset(s.completed);
    }
  }

  lemma PartialIsGenuine(s: State, puts: seq<string>)
    requires Inv(s) && AllGenuine(s.completed, puts)
    ensures Partial(s) == "" || exists j :: 0 <= j < |puts| && Partial(s) <= puts[j]
  {
    if s.flushingLogs.Some? {
      var t := s.flushingLogs.value;
      var pc := PcOf(s, t);
      assert PcInv(s, t);
      if pc.Emitting? {
        var i := Circular(pc.start, pc.k, |s.slots|);
        var slot := s.slots[i];
        assert SlotInv(s, i);
        HeldHas(s.slots, i);
        EmittedAreCompleted(s);
        var j :| 0 <= j < |s.completed| && s.completed[j] == slot.record;
        assert Genuine(s.completed[j], puts);
        assert slot.ctx[..pc.written] == slot.ctx[..slot.len][..pc.written];
        assert Partial(s) <= puts[slot.record.ticket];
      }
    }
  }

  /** A slot's bytes change only when the one thread that holds it in WRITING copies into it. */
  lemma BytesChangeOnlyWhileWriting(n: nat, actions: seq<Action>, states: seq<State>, k: nat, i: nat)
    requires IsRun(n, actions, states) && k < |actions|
    requires i < |states[k].slots| && |states[k + 1].slots| == |states[k].slots|
    requires states[k + 1].slots[i].ctx != states[k].slots[i].ctx
    ensures actions[k].CopyByte? && states[k].slots[i].status == WRITING
    ensures forall t :: IsWriter(states[k], t, i) <==> t == actions[k].t
  {
    RunInv(n, actions, states, k);
    BytesChange(states[k], actions[k], states[k + 1], i);
  }

  lemma BytesChange(s: State, a: Action, s': State, i: nat)
    requires Inv(s) && Step(s, a) == Some(s')
    requires i < |s.slots| == |s'.slots| && s'.slots[i].ctx != s.slots[i].ctx
    ensures a.CopyByte? && s.slots[i].status == WRITING
    ensures forall t :: IsWriter(s, t, i) <==> t == a.t
  {
    assert PcInv(s, a.t);
    assert a.CopyByte?;
    assert IsWriter(s, a.t, i);
  }

  /** Every put is still under way, was written once, or was dropped; none is both written and dropped. */
  lemma EveryPutIsAccountedFor(n: nat, actions: seq<Action>, states: seq<State>, k: nat, ticket: nat)
    requires IsRun(n, actions, states) && k <= |actions|
    ensures ticket < states[k].next ==>
              || (exists t :: Carries(states[k], t, ticket))
              || Listed(states[k].completed, ticket) || Listed(states[k].dropped, ticket)
    ensures !(Listed(states[k].completed, ticket) && Listed(states[k].dropped, ticket))
  {
    RunInv(n, actions, states, k);
  }

  // ---------------------------------------------------------------------------------------------
  // When a put is dropped
  // ---------------------------------------------------------------------------------------------

  /** A step that loads a status returns the present one. */
  predicate ReadsPresent(s: State, a: Action) {
    var pc := PcOf(s, a.t);
    match a
    case SeeAvailable(_, seen) => pc.Waiting? && pc.c.slot < |s.slots| ==> seen == s.slots[pc.c.slot].status
    case Decide(_, seen) => pc.Deciding? && pc.c.slot < |s.slots| ==> seen == s.slots[pc.c.slot].status
    case SeeFlushed(_, seen) => pc.WaitingClean? && pc.c.slot < |s.slots| ==> seen == s.slots[pc.c.slot].status
    case _ => true
  }

  /** What thread t, with its claim in hand, knows of the slot if nobody interferes. */
  predicate Undisturbed(s: State, t: nat, c: Claim) {
    && c.slot < |s.slots|
    && var pc, status := PcOf(s, t), s.slots[c.slot].status;
    match pc
    case Waiting(c') => c' == c
    case Deciding(c') => c' == c && (status == CLEAN || status == DIRTY)
    case TryingLock(c') => c' == c && status == DIRTY
    case WaitingClean(c') => c' == c && status == DIRTY
    case Storing(c') => c' == c && status == CLEAN
    case Sweeping(start, k, back) =>
      back == Some(c) && start == c.slot && k <= |s.slots| && status == if k == 0 then DIRTY else CLEAN
    case Emitting(start, k, back, _) =>
      back == Some(c) && start == c.slot && k < |s.slots| && status == if k == 0 then FLUSHING else CLEAN
    case _ => false
  }

  /** Another thread changes the status of the slot, or t itself goes by an old one. */
  predicate Disturbs(s: State, a: Action, s': State, t: nat, i: nat)
    requires i < |s.slots| && i < |s'.slots|
  {
    if a.t == t then !ReadsPresent(s, a) else s'.slots[i].status != s.slots[i].status
  }

  lemma OwnStep(s: State, a: Action, s': State, c: Claim)
    requires s.cursor < |s.slots| && Step(s, a) == Some(s')
    requires Undisturbed(s, a.t, c) && ReadsPresent(s, a)
    ensures |s'.slots| == |s.slots| && s'.dropped == s.dropped
    ensures Undisturbed(s', a.t, c) || (a.CasWrite? && PcOf(s', a.t).Copying?)
  {
  }

  lemma OthersStep(s: State, a: Action, s': State, t: nat, c: Claim)
    requires s.cursor < |s.slots| && Step(s, a) == Some(s')
    requires Undisturbed(s, t, c) && a.t != t
    requires |s'.slots| == |s.slots| && s'.slots[c.slot].status == s.slots[c.slot].status
    ensures Undisturbed(s', t, c)
  {
    assert PcOf(s', t) == PcOf(s, t);
  }

  lemma SlotsStay(s: State, a: Action, s': State)
    requires s.cursor < |s.slots| && Step(s, a) == Some(s')
    ensures |s'.slots| == |s.slots|
  {
  }

  lemma {:induction false} SlotsOfRun(n: nat, actions: seq<Action>, states: seq<State>, k: nat)
    requires IsRun(n, actions, states) && k <= |actions|
    ensures |states[k].slots| == n
  {
    if k > 0 {
      SlotsOfRun(n, actions, states, k - 1);
      SlotsStay(states[k - 1], actions[k - 1], states[k]);
    }
  }

  /** Thread t claims a slot at step j, tries to store its message at step k, and does nothing of the sort in between. */
  ghost predicate IsPut(actions: seq<Action>, j: nat, k: nat) {
    && j < k < |actions| && actions[j].ClaimSlot? && actions[k] == CasWrite(actions[j].t)
    && forall m :: j < m < k ==> actions[m] != CasWrite(actions[j].t)
  }

  lemma {:induction false} UndisturbedUntil(n: nat, actions: seq<Action>, states: seq<State>, j: nat, k: nat, m: nat, c: Claim)
    requires IsRun(n, actions, states) && IsPut(actions, j, k) && j < m <= k && |states[j].slots| == n
    requires c.slot == states[j].cursor < n && PcOf(states[j + 1], actions[j].t) == Waiting(c)
    requires forall l :: j < l < m && |states[l].slots| == |states[l + 1].slots| == n ==>
               !Disturbs(states[l], actions[l], states[l + 1], actions[j].t, c.slot)
    ensures |states[m].slots| == n && Undisturbed(states[m], actions[j].t, c)
    decreases m
  {
    SlotsOfRun(n, actions, states, m);
    if m > j + 1 {
      var t, l := actions[j].t, m - 1;
      UndisturbedUntil(n, actions, states, j, k, l, c);
      assert !Disturbs(states[l], actions[l], states[l + 1], t, c.slot);
      if actions[l].t == t {
        OwnStep(states[l], actions[l], states[m], c);
        assert actions[l] != CasWrite(t);
      } else {
        OthersStep(states[l], actions[l], states[m], t, c);
      }
    }
  }

  /**
   * A message is dropped only if, between the claim of its slot and the attempt to store it, another thread
   * changed the status of that slot or the producer itself went by an outdated status.
   */
  lemma DroppedOnlyIfDisturbed(n: nat, actions: seq<Action>, states: seq<State>, j: nat, k: nat)
    requires IsRun(n, actions, states) && IsPut(actions, j, k)
    requires states[k + 1].dropped != states[k].dropped
    ensures exists m :: j < m < k && states[j].cursor < |states[m].slots| && states[j].cursor < |states[m + 1].slots|
                        && Disturbs(states[m], actions[m], states[m + 1], actions[j].t, states[j].cursor)
  {
    var t, i := actions[j].t, states[j].cursor;
    SlotsOfRun(n, actions, states, j);
    SlotsOfRun(n, actions, states, k);
    if forall m :: j < m < k && |states[m].slots| == |states[m + 1].slots| == n ==>
         !Disturbs(states[m], actions[m], states[m + 1], t, i)
    {
      var c := PcOf(states[j + 1], t).c;
      UndisturbedUntil(n, actions, states, j, k, k, c);
      OwnStep(states[k], actions[k], states[k + 1], c);
    } else {
      var m :| j < m < k && |states[m].slots| == |states[m + 1].slots| == n
               && Disturbs(states[m], actions[m], states[m + 1], t, i);
    }
  }

  /** Before it tries to store, a thread keeps its claim. */
  predicate Holds(s: State, t: nat, c: Claim) {
    ClaimOf(PcOf(s, t)) == Some(c) && !PcOf(s, t).Copying?
  }

  lemma HoldsStep(s: State, a: Action, s': State, t: nat, c: Claim)
    requires s.cursor < |s.slots| && Step(s, a) == Some(s') && Holds(s, t, c) && a != CasWrite(t)
    ensures Holds(s', t, c)
  {
    if a.t != t {
      assert PcOf(s', t) == PcOf(s, t);
    }
  }

  lemma {:induction false} HoldsUntil(n: nat, actions: seq<Action>, states: seq<State>, j: nat, k: nat, m: nat, c: Claim)
    requires IsRun(n, actions, states) && IsPut(actions, j, k) && j < m <= k
    requires PcOf(states[j + 1], actions[j].t) == Waiting(c)
    ensures Holds(states[m], actions[j].t, c)
    decreases m
  {
    if m > j + 1 {
      HoldsUntil(n, actions, states, j, k, m - 1, c);
      HoldsStep(states[m - 1], actions[m - 1], states[m], actions[j].t, c);
    }
  }

  /** A message is dropped exactly when the slot claimed for it is not clean at the attempt to store it. */
  lemma DroppedIffClaimedSlotIsTaken(n: nat, actions: seq<Action>, states: seq<State>, j: nat, k: nat)
    requires IsRun(n, actions, states) && IsPut(actions, j, k)
    ensures states[j].cursor < |states[k].slots|
    ensures states[k + 1].dropped != states[k].dropped <==> states[k].slots[states[j].cursor].status != CLEAN
    ensures states[k + 1].dropped == states[k].dropped <==> IsWriter(states[k + 1], actions[j].t, states[j].cursor)
  {
    SlotsOfRun(n, actions, states, j);
    SlotsOfRun(n, actions, states, k);
    var c := PcOf(states[j + 1], actions[j].t).c;
    HoldsUntil(n, actions, states, j, k, k, c);
  }

  /** A thread whose slots nobody else has touched reads the present status. */
  lemma OwnSlotsReadPresent(s: State, a: Action)
    requires s.cursor < |s.slots| && Step(s, a).Some?
    requires forall i :: 0 <= i < |s.slots| ==> s.slots[i].setter == None || s.slots[i].setter == Some(a.t)
    ensures ReadsPresent(s, a)
  {
  }

  /** With one thread: it holds no claim, or its claim is undisturbed, or it is copying. */
  ghost predicate Alone(s: State, t: nat) {
    && s.dropped == []
    && (forall i :: 0 <= i < |s.slots| ==> s.slots[i].setter == None || s.slots[i].setter == Some(t))
    && (ClaimOf(PcOf(s, t)).None? || PcOf(s, t).Copying? || Undisturbed(s, t, ClaimOf(PcOf(s, t)).value))
  }

  lemma AloneStep(s: State, a: Action, s': State)
    requires s.cursor < |s.slots| && Step(s, a) == Some(s') && Alone(s, a.t)
    ensures Alone(s', a.t)
  {
    OwnSlotsReadPresent(s, a);
    var pc := PcOf(s, a.t);
    if ClaimOf(pc).Some? && !pc.Copying? {
      OwnStep(s, a, s', ClaimOf(pc).value);
    }
  }

  /** A run of a single thread drops nothing. */
  lemma {:induction false} SingleThreadDropsNothing(n: nat, actions: seq<Action>, states: seq<State>, k: nat, t: nat)
    requires IsRun(n, actions, states) && k <= |actions|
    requires forall m :: 0 <= m < |actions| ==> actions[m].t == t
    ensures states[k].dropped == [] && Alone(states[k], t)
  {
    if k > 0 {
      SingleThreadDropsNothing(n, actions, states, k - 1, t);
      AloneStep(states[k - 1], actions[k - 1], states[k]);
    }
  }

  // ---------------------------------------------------------------------------------------------
  // Two ways to lose a message
  // ---------------------------------------------------------------------------------------------

  /** Extends a run by one step. */
  lemma Take(n: nat, actions: seq<Action>, states: seq<State>, a: Action, s': State)
    returns (actions': seq<Action>, states': seq<State>)
    requires IsRun(n, actions, states)
    requires states[|actions|].cursor < |states[|actions|].slots| && Step(states[|actions|], a) == Some(s')
    ensures IsRun(n, actions', states') && actions' == actions + [a] && states'[|actions'|] == s'
  {
    actions', states' := actions + [a], states + [s'];
  }

  /** The facts about a ring of one slot and two threads that the two runs below go through. */
  predicate Snap(s: State, status: Status, pc0: Pc, pc1: Pc, lock: Option<nat>, next: nat, dropped: seq<Record>) {
    && |s.slots| == 1 && s.cursor == 0
    && s.slots[0].status == status && |s.slots[0].ctx| == MSG_SIZE
    && PcOf(s, 0) == pc0 && PcOf(s, 1) == pc1
    && s.flushingLogs == lock && s.next == next && s.dropped == dropped
  }

  /** A run of the one-slot ring that ends in such a state. */
  ghost predicate Reaches(
      actions: seq<Action>, states: seq<State>, status: Status, pc0: Pc, pc1: Pc, lock: Option<nat>, next: nat, dropped: seq<Record>) {
    IsRun(1, actions, states) && Snap(states[|actions|], status, pc0, pc1, lock, next, dropped)
  }

  const FIRST := Claim(0, Record(0, "a"))
  const SECOND := Claim(0, Record(1, "b"))

  lemma Go(actions: seq<Action>, states: seq<State>, a: Action) returns (actions': seq<Action>, states': seq<State>)
    requires IsRun(1, actions, states)
    requires states[|actions|].cursor < |states[|actions|].slots| && Step(states[|actions|], a).Some?
    ensures IsRun(1, actions', states') && actions' == actions + [a]
    ensures Some(states'[|actions'|]) == Step(states[|actions|], a)
  {
    actions', states' := Take(1, actions, states, a, Step(states[|actions|], a).value);
  }

  /** Thread 0 has claimed the slot with its first message and is about to store it. */
  lemma FirstReady() returns (actions: seq<Action>, states: seq<State>)
    ensures Reaches(actions, states, CLEAN, Storing(FIRST), Outside, None, 1, [])
    ensures forall k :: 0 <= k < |actions| ==> actions[k].t == 0
  {
    actions, states := Go([], [Empty(1)], ClaimSlot(0, "a"));
    actions, states := Go(actions, states, SeeAvailable(0, CLEAN));
    actions, states := Go(actions, states, Decide(0, CLEAN));
  }

  lemma SecondReady() returns (actions: seq<Action>, states: seq<State>)
    ensures Reaches(actions, states, CLEAN, Storing(FIRST), Storing(SECOND), None, 2, [])
  {
    actions, states := FirstReady();
    actions, states := Go(actions, states, ClaimSlot(1, "b"));
    actions, states := Go(actions, states, SeeAvailable(1, CLEAN));
    actions, states := Go(actions, states, Decide(1, CLEAN));
  }

  /** Two producers on a ring of one slot: the second finds the slot being written and loses its message. */
  lemma SharedSlotLosesAMessage() returns (actions: seq<Action>, states: seq<State>)
    ensures IsRun(1, actions, states)
    ensures states[|actions|].dropped == [Record(1, "b")]
  {
    actions, states := SecondReady();
    actions, states := Go(actions, states, CasWrite(0));
    actions, states := Go(actions, states, CasWrite(1));
  }

  lemma FirstWritten() returns (actions: seq<Action>, states: seq<State>)
    ensures Reaches(actions, states, DIRTY, Outside, Outside, None, 1, [])
    ensures forall k :: 0 <= k < |actions| ==> actions[k].t == 0
  {
    actions, states := FirstReady();
    actions, states := Go(actions, states, CasWrite(0));
    actions, states := Go(actions, states, CopyByte(0));
    actions, states := Go(actions, states, FinishWrite(0));
  }

  lemma SecondWantsToFlush() returns (actions: seq<Action>, states: seq<State>)
    ensures Reaches(actions, states, DIRTY, TryingLock(SECOND), Outside, None, 2, [])
    ensures forall k :: 0 <= k < |actions| ==> actions[k].t == 0
  {
    actions, states := FirstWritten();
    actions, states := Go(actions, states, ClaimSlot(0, "b"));
    actions, states := Go(actions, states, SeeAvailable(0, DIRTY));
    actions, states := Go(actions, states, Decide(0, DIRTY));
  }

  lemma FlusherWasFaster() returns (actions: seq<Action>, states: seq<State>)
    ensures Reaches(actions, states, FLUSHING, WaitingClean(SECOND), Emitting(0, 0, None, 0), Some(1), 2, [])
    ensures forall k :: 0 <= k < |actions| ==> actions[k].t == 0 || !actions[k].ClaimSlot?
  {
    actions, states := SecondWantsToFlush();
    actions, states := Go(actions, states, FlushAll(1, 0));
    actions, states := Go(actions, states, TryLock(0));
    actions, states := Go(actions, states, SweepSlot(1));
  }

  /**
   * One producer and the background flusher: the producer sees its slot leave DIRTY while it is still FLUSHING,
   * goes ahead, and loses its message although the ring is about to be empty.
   */
  lemma FlusherLosesAMessage() returns (actions: seq<Action>, states: seq<State>)
    ensures IsRun(1, actions, states)
    ensures states[|actions|].dropped == [Record(1, "b")]
    ensures forall k :: 0 <= k < |actions| && actions[k].ClaimSlot? ==> actions[k].t == 0
  {
    actions, states := FlusherWasFaster();
    actions, states := Go(actions, states, SeeFlushed(0, FLUSHING));
    actions, states := Go(actions, states, CasWrite(0));
  }
}
