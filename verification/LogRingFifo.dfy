/** One thread, step by step: the ring is a first-in-first-out queue, and a sweep from the cursor empties it into the file. */
module LogRingFifo {
  import opened Documents
  import opened LogRing
  import opened LogRingInvariant
  import opened LogRingTheorems

  // ---------------------------------------------------------------------------------------------
  // Positions modulo the size of the ring
  // ---------------------------------------------------------------------------------------------

  lemma PlusN(x: nat, n: nat)
    requires n > 0
    ensures (x + n) % n == x % n
  {
    assert (x / n + 1) * n == x / n * n + n;
    SameRemainder(x / n + 1, x % n, (x + n) / n, (x + n) % n, n);
  }

  /** Numbers less than n apart are in different slots. */
  lemma Apart(a: nat, b: nat, n: nat)
    requires a < b < a + n
    ensures a % n != b % n
  {
    if a % n == b % n {
      Difference(a / n, b / n, a % n, n);
    }
  }

  lemma Difference(q: int, q': int, r: int, n: nat)
    requires q' * n + r > q * n + r
    ensures q' * n + r >= q * n + r + n
  {
    assert (q' - q) * n == (q' * n + r) - (q * n + r);
    if q' > q {
      AtLeast(q' - q, n);
    } else if q > q' {
      assert (q - q') * n == -((q' - q) * n);
      AtLeast(q - q', n);
    }
  }

  lemma CircularIs(c: nat, k: nat, n: nat)
    requires 0 < n && k < n
    ensures Circular(c % n, k, n) == (c + k) % n
  {
    var r := c % n;
    if r + k < n {
      SameRemainder(c / n, r + k, (c + k) / n, (c + k) % n, n);
    } else {
      assert (c / n + 1) * n == c / n * n + n;
      SameRemainder(c / n + 1, r + k - n, (c + k) / n, (c + k) % n, n);
    }
  }

  // ---------------------------------------------------------------------------------------------
  // The queue
  // ---------------------------------------------------------------------------------------------

  predicate Full(slot: Slot) {
    slot.status == DIRTY || slot.status == FLUSHING
  }

  /** The slot at `i` holds one of the records that have been written and not yet emitted. */
  ghost predicate InQueue(s: State, i: nat, n: nat)
    requires n > 0
  {
    exists j :: |s.emitted| <= j < |s.completed| && j % n == i
  }

  /** Record j is in slot j modulo n. */
  ghost predicate Placed(s: State, j: nat, n: nat)
    requires n == |s.slots| > 0 && j < |s.completed|
  {
    Full(s.slots[j % n]) && s.slots[j % n].record == s.completed[j]
  }

  ghost predicate ClaimsNext(s: State, t: nat, n: nat)
    requires n > 0
  {
    var c := ClaimOf(PcOf(s, t));
    && s.next == |s.completed| + (if c.Some? then 1 else 0)
    && s.cursor == s.next % n
    && (c.Some? ==> c.value.slot == |s.completed| % n && c.value.record.ticket == |s.completed|)
  }

  /** A sweep goes round from the slot of the next record, so the oldest record is the first it meets. */
  ghost predicate SweepsOldest(s: State, t: nat, n: nat)
    requires n > 0
  {
    var pc, held := PcOf(s, t), |s.completed| - |s.emitted|;
    && (pc.Sweeping? ==> pc.start == |s.completed| % n && pc.k <= n && held <= n - pc.k)
    && (pc.Emitting? ==> pc.start == |s.completed| % n && pc.k < n && held == n - pc.k)
  }

  ghost predicate Queue(s: State, t: nat, n: nat) {
    && n == |s.slots| > 0
    && |s.emitted| <= |s.completed| <= |s.emitted| + n
    && s.emitted == s.completed[..|s.emitted|]
    && (forall i :: 0 <= i < |s.completed| ==> s.completed[i].ticket == i)
    && ClaimsNext(s, t, n) && SweepsOldest(s, t, n)
    && (forall j :: |s.emitted| <= j < |s.completed| ==> Placed(s, j, n))
    && (forall i :: 0 <= i < n && Full(s.slots[i]) ==> InQueue(s, i, n))
  }

  /** The slot of the next record is taken only when the ring is full, and then by the oldest record. */
  lemma NextIsOldest(s: State, t: nat, n: nat)
    requires Queue(s, t, n) && |s.completed| == |s.emitted| + n
    ensures Full(s.slots[|s.completed| % n])
  {
    PlusN(|s.emitted|, n);
    assert Placed(s, |s.emitted|, n);
  }

  /** Copying and claiming leave the queue alone. */
  lemma SameQueue(s: State, s': State, t: nat, n: nat)
    requires Queue(s, t, n)
    requires |s'.slots| == n && s'.completed == s.completed && s'.emitted == s.emitted
    requires forall i :: 0 <= i < n ==> (Full(s'.slots[i]) <==> Full(s.slots[i]))
    requires forall i :: 0 <= i < n && Full(s.slots[i]) ==> s'.slots[i].record == s.slots[i].record
    requires ClaimsNext(s', t, n) && SweepsOldest(s', t, n)
    ensures Queue(s', t, n)
  {
    forall j | |s.emitted| <= j < |s.completed| ensures Placed(s', j, n) {
      assert Placed(s, j, n);
    }
    forall i | 0 <= i < n && Full(s'.slots[i]) ensures InQueue(s', i, n) {
      assert InQueue(s, i, n);
    }
  }

  lemma ClaimQueue(s: State, a: Action, s': State, n: nat)
    requires Queue(s, a.t, n) && a.ClaimSlot? && s.cursor < n && Step(s, a) == Some(s')
    ensures Queue(s', a.t, n)
  {
    NextSlot(s.next, n);
    SameQueue(s, s', a.t, n);
  }

  /** Record number c in slot c modulo n, behind all others. */
  lemma OneMorePlaced(s: State, s': State, t: nat, n: nat)
    requires Queue(s, t, n) && |s'.slots| == n && s'.emitted == s.emitted
    requires |s'.completed| == |s.completed| + 1 <= |s.emitted| + n
    requires forall j :: 0 <= j < |s.completed| ==> s'.completed[j] == s.completed[j]
    requires s'.slots == s.slots[|s.completed| % n := s'.slots[|s.completed| % n]]
    requires Placed(s', |s.completed|, n)
    ensures forall j :: |s.emitted| <= j < |s'.completed| ==> Placed(s', j, n)
    ensures forall i :: 0 <= i < n && Full(s'.slots[i]) ==> InQueue(s', i, n)
  {
    var c, m := |s.completed|, |s.emitted|;
    forall j | m <= j < c + 1 ensures Placed(s', j, n) {
      if j < c {
        assert Placed(s, j, n);
        Apart(j, c, n);
      }
    }
    forall i | 0 <= i < n && Full(s'.slots[i]) ensures InQueue(s', i, n) {
      if i == c % n {
        assert m <= c < |s'.completed|;
      } else {
        assert InQueue(s, i, n);
        var j :| m <= j < c && j % n == i;
        assert j < |s'.completed|;
      }
    }
  }

  lemma FinishWriteQueue(s: State, a: Action, s': State, n: nat)
    requires Inv(s) && Queue(s, a.t, n) && a.FinishWrite? && s.cursor < n && Step(s, a) == Some(s')
    ensures Queue(s', a.t, n)
  {
    assert PcInv(s, a.t);
    if |s.completed| == |s.emitted| + n {
      NextIsOldest(s, a.t, n);
    }
    OneMorePlaced(s, s', a.t, n);
  }

  /** The slot the sweep is at is full exactly when it holds the oldest record. */
  lemma SweepMeetsOldest(s: State, t: nat, n: nat)
    requires Queue(s, t, n) && PcOf(s, t).Sweeping? && PcOf(s, t).k < n
    ensures var pc := PcOf(s, t);
            var i := Circular(pc.start, pc.k, n);
            && (Full(s.slots[i]) <==> |s.completed| - |s.emitted| == n - pc.k)
            && (Full(s.slots[i]) ==> i == |s.emitted| % n)
  {
    var c, m, k := |s.completed|, |s.emitted|, PcOf(s, t).k;
    var i := Circular(PcOf(s, t).start, k, n);
    CircularIs(c, k, n);
    if c - m == n - k {
      PlusN(m, n);
      assert Placed(s, m, n);
    } else if Full(s.slots[i]) {
      assert InQueue(s, i, n);
      var j :| m <= j < c && j % n == i;
      Apart(j, c + k, n);
    }
  }

  lemma SweepQueue(s: State, a: Action, s': State, n: nat)
    requires Inv(s) && Queue(s, a.t, n) && a.SweepSlot? && s.cursor < n && Step(s, a) == Some(s')
    ensures Queue(s', a.t, n)
  {
    var pc := PcOf(s, a.t);
    var i := Circular(pc.start, pc.k, n);
    SweepMeetsOldest(s, a.t, n);
    assert PcInv(s, a.t) && SlotInv(s, i);
    SameQueue(s, s', a.t, n);
  }

  lemma FinishEmitQueue(s: State, a: Action, s': State, n: nat)
    requires Inv(s) && Queue(s, a.t, n) && a.FinishEmit? && s.cursor < n && Step(s, a) == Some(s')
    ensures Queue(s', a.t, n)
  {
    var c, m, pc := |s.completed|, |s.emitted|, PcOf(s, a.t);
    CircularIs(c, pc.k, n);
    PlusN(m, n);
    assert Placed(s, m, n);
    assert s'.emitted == s.completed[..m + 1];
    forall j | m + 1 <= j < c ensures Placed(s', j, n) {
      assert Placed(s, j, n);
      Apart(m, j, n);
    }
    forall i | 0 <= i < n && Full(s'.slots[i]) ensures InQueue(s', i, n) {
      assert InQueue(s, i, n);
      var j :| m <= j < c && j % n == i;
      assert j != m;
    }
  }

  /** Steps that write or emit bytes, or begin to. */
  lemma ByteQueue(s: State, a: Action, s': State, n: nat)
    requires Inv(s) && Queue(s, a.t, n) && s.cursor < n && Step(s, a) == Some(s') && s'.dropped == s.dropped
    requires a.CasWrite? || a.CopyByte? || a.EmitByte?
    ensures Queue(s', a.t, n)
  {
    assert PcInv(s, a.t);
    SameQueue(s, s', a.t, n);
  }

  /** Steps that look at the slot, or take or release the lock. */
  lemma WaitQueue(s: State, a: Action, s': State, n: nat)
    requires Queue(s, a.t, n) && s.cursor < n && Step(s, a) == Some(s')
    requires a.SeeAvailable? || a.Decide? || a.TryLock? || a.SeeFlushed? || a.FlushAll? || a.EndSweep?
    requires a.FlushAll? ==> a.start == s.cursor
    ensures Queue(s', a.t, n)
  {
    SameQueue(s, s', a.t, n);
  }

  lemma QueueStep(s: State, a: Action, s': State, n: nat)
    requires Inv(s) && Queue(s, a.t, n) && s.cursor < n && Step(s, a) == Some(s') && s'.dropped == s.dropped
    requires a.FlushAll? ==> a.start == s.cursor
    ensures Queue(s', a.t, n)
  {
    match a
    case ClaimSlot(_, _) => ClaimQueue(s, a, s', n);
    case FinishWrite(_) => FinishWriteQueue(s, a, s', n);
    case SweepSlot(_) => SweepQueue(s, a, s', n);
    case FinishEmit(_) => FinishEmitQueue(s, a, s', n);
    case _ =>
      if a.CasWrite? || a.CopyByte? || a.EmitByte? { ByteQueue(s, a, s', n); } else { WaitQueue(s, a, s', n); }
  }

  /** One thread takes all steps, and every flush of its own begins at the cursor, as `flushAll` does. */
  ghost predicate RunsAlone(n: nat, actions: seq<Action>, states: seq<State>, t: nat) {
    && IsRun(n, actions, states)
    && (forall m :: 0 <= m < |actions| ==> actions[m].t == t)
    && (forall m :: 0 <= m < |actions| && actions[m].FlushAll? ==> actions[m].start == states[m].cursor)
  }

  lemma {:induction false} RunIsQueue(n: nat, actions: seq<Action>, states: seq<State>, k: nat, t: nat)
    requires RunsAlone(n, actions, states, t) && k <= |actions|
    ensures Queue(states[k], t, n)
  {
    if k == 0 {
      assert states[0] == Empty(n);
    } else {
      RunIsQueue(n, actions, states, k - 1, t);
      RunInv(n, actions, states, k - 1);
      SingleThreadDropsNothing(n, actions, states, k - 1, t);
      SingleThreadDropsNothing(n, actions, states, k, t);
      QueueStep(states[k - 1], actions[k - 1], states[k], n);
    }
  }

  /** The first 4096 bytes of each message, one behind the other. */
  function Lines(puts: seq<string>): string {
    if puts == [] then "" else
      var msg := puts[|puts| - 1];
      Lines(puts[..|puts| - 1]) + if |msg| > 4096 then msg[..4096] else msg
  }

  lemma {:induction false} FrontsAreLines(records: seq<Record>, puts: seq<string>)
    requires |records| <= |puts| && AllGenuine(records, puts)
    requires forall i :: 0 <= i < |records| ==> records[i].ticket == i
    ensures Fronts(records) == Lines(puts[..|records|])
    decreases |records|
  {
    if records != [] {
      var r := |records| - 1;
      FrontsAreLines(records[..r], puts);
      assert puts[..r + 1][..r] == puts[..r];
      assert Genuine(records[r], puts);
    }
  }

  /**
   * First in, first out. What one thread has had written to the file are its messages in the order it put them,
   * none missing in between; at the end of a sweep these are all messages but the one it has in hand; and when it
   * has just ended a flush of its own, the file is all its messages, the first 4096 bytes of each, and nothing else.
   */
  lemma OneThreadIsFifo(n: nat, actions: seq<Action>, states: seq<State>, k: nat, t: nat)
    requires RunsAlone(n, actions, states, t) && k <= |actions|
    ensures var s, puts := states[k], Puts(actions[..k]);
            && |s.emitted| <= |puts|
            && (forall i :: 0 <= i < |s.emitted| ==> s.emitted[i] == Record(i, puts[i]))
            && (PcOf(s, t).Sweeping? && PcOf(s, t).k == n ==>
                  |s.emitted| == |puts| - if PcOf(s, t).back.Some? then 1 else 0)
            && (k > 0 && actions[k - 1].EndSweep? && PcOf(s, t).Outside? ==> s.file == Lines(puts))
  {
    var s, puts := states[k], Puts(actions[..k]);
    RunIsQueue(n, actions, states, k, t);
    RunInv(n, actions, states, k);
    RunIsTruthful(n, actions, states, k);
    forall i | 0 <= i < |s.emitted| ensures s.emitted[i] == Record(i, puts[i]) {
      assert Genuine(s.completed[i], puts);
    }
    if k > 0 && actions[k - 1].EndSweep? && PcOf(s, t).Outside? {
      RunIsQueue(n, actions, states, k - 1, t);
      AfterSweep(states[k - 1], actions[k - 1], s, n);
      TextIsFronts(s.emitted);
      FrontsAreLines(s.emitted, puts);
      assert puts[..|puts|] == puts;
    }
  }

  lemma AfterSweep(s: State, a: Action, s': State, n: nat)
    requires Inv(s') && Queue(s, a.t, n) && Queue(s', a.t, n) && s.cursor < n
    requires Step(s, a) == Some(s') && a.EndSweep? && PcOf(s', a.t).Outside?
    ensures |s'.emitted| == s'.next && s'.file == Text(s'.emitted)
  {
  }
}
