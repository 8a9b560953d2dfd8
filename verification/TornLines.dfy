/** The reload that finds its last log line cut off by a crash. */
module TornLines {
  import opened Documents
  import opened IntFieldFilter
  import opened Durability
  import opened TextFormats
  import opened TextReplay

  /** What is left of the line of an upsert. */
  function Torn(id: nat, payload: string, m: nat): string
    requires m <= |EntryLine(UpsertEntry(id, payload))|
  {
    EntryLine(UpsertEntry(id, payload))[..m]
  }

  /** The number in front: the id, or what is left of it. */
  function TornId(id: nat, m: nat): nat {
    DecimalValue(id);
    ValueOf(Decimal(id)[..Min(m, |Decimal(id)|)])
  }

  /** The operation: that of the line as far as it goes, or the one in hand if the line ends before it. */
  function TornOp(id: nat, m: nat, op: string): string {
    var a := |Decimal(id)|;
    if m <= a + 4 then op else UPSERT[..Min(m - a - 5, 6)]
  }

  function TornField(id: nat, payload: string, m: nat): string {
    var a := |Decimal(id)|;
    if m <= a + 12 then "" else payload[..Min(m - a - 12, |payload|)]
  }

  /** The document the parser is given. */
  function TornPayload(id: nat, payload: string, m: nat): string {
    Cut(TornField(id, payload, m))
  }

  // ---------------------------------------------------------------------------------------------
  // How such a line is read
  // ---------------------------------------------------------------------------------------------

  lemma AllOf(a: string)
    requires '|' !in a
    ensures UpTo(a, '|') == a && Find(a, '|') == |a|
  {
    FindIs(a, '|', |a|);
  }

  lemma FieldsOfOne(a: string, op: string)
    requires '|' !in a
    ensures Fields(a, op) == (a, op, "")
  {
    AllOf(a);
  }

  lemma FieldsOfTwo(a: string, v: string, op: string)
    requires '|' !in a && '|' !in v
    ensures Fields(a + "|" + v, op) == (a, op, "")
  {
    TokenFront(a, v, "");
    AllOf(v);
  }

  lemma FieldsOfThree(a: string, v: string, o: string, op: string)
    requires '|' !in a && '|' !in v && '|' !in o
    ensures Fields(a + "|" + (v + "|" + o), op) == (a, o, "")
  {
    TokenFront(a, v + "|" + o, "");
    TokenFront(v, o, "");
    AllOf(o);
  }

  /** The line, cut off behind its id. */
  lemma TornIs(id: nat, payload: string, m: nat)
    requires |Decimal(id)| < m <= |EntryLine(UpsertEntry(id, payload))|
    ensures var a, line := Decimal(id), EntryLine(UpsertEntry(id, payload));
            && |line| == |a| + 12 + |payload|
            && (m <= |a| + 4 ==> Torn(id, payload, m) == a + "|" + VERSION[..m - |a| - 1])
            && (|a| + 5 <= m <= |a| + 11 ==> Torn(id, payload, m) == a + "|" + (VERSION + "|" + UPSERT[..m - |a| - 5]))
            && (|a| + 12 <= m ==> Torn(id, payload, m) == a + "|" + (VERSION + "|" + (UPSERT + "|" + payload[..m - |a| - 12])))
  {
    var a := Decimal(id);
    assert EntryLine(UpsertEntry(id, payload)) == a + "|1.0|upsert|" + payload;
    assert a + "|" + (VERSION + "|" + UPSERT) == a + "|1.0|upsert";
    if m <= |a| + 4 {
      assert Torn(id, payload, m) == a + "|" + VERSION[..m - |a| - 1];
    } else if m <= |a| + 11 {
      assert Torn(id, payload, m) == a + "|" + (VERSION + "|" + UPSERT[..m - |a| - 5]);
    } else {
      assert Torn(id, payload, m) == a + "|" + (VERSION + "|" + (UPSERT + "|" + payload[..m - |a| - 12]));
    }
  }

  ghost predicate TornFieldsAre(id: nat, payload: string, m: nat, op: string)
    requires m <= |EntryLine(UpsertEntry(id, payload))|
  {
    Fields(Torn(id, payload, m), op)
    == (Decimal(id)[..Min(m, |Decimal(id)|)], TornOp(id, m, op), UpTo(TornField(id, payload, m), '|'))
  }

  lemma TornInId(id: nat, payload: string, m: nat, op: string)
    requires m <= |Decimal(id)| && m <= |EntryLine(UpsertEntry(id, payload))|
    ensures TornFieldsAre(id, payload, m, op)
  {
    var a := Decimal(id);
    NumbersHoldNoDelimiter(id, 0, '|');
    assert Torn(id, payload, m) == a[..m];
    FieldsOfOne(a[..m], op);
  }

  lemma TornInVersion(id: nat, payload: string, m: nat, op: string)
    requires |Decimal(id)| < m <= |Decimal(id)| + 4 && m <= |EntryLine(UpsertEntry(id, payload))|
    ensures TornFieldsAre(id, payload, m, op)
  {
    var a := Decimal(id);
    NumbersHoldNoDelimiter(id, 0, '|');
    TornIs(id, payload, m);
    FieldsOfTwo(a, VERSION[..m - |a| - 1], op);
    assert a[..|a|] == a;
  }

  lemma NoBarInPart(k: nat)
    requires k <= |UPSERT|
    ensures '|' !in UPSERT[..k]
  {
  }

  lemma TornInOp(id: nat, payload: string, m: nat, op: string)
    requires |Decimal(id)| + 5 <= m <= |Decimal(id)| + 11 && m <= |EntryLine(UpsertEntry(id, payload))|
    ensures TornFieldsAre(id, payload, m, op)
  {
    var a := Decimal(id);
    NumbersHoldNoDelimiter(id, 0, '|');
    TornIs(id, payload, m);
    var part := UPSERT[..m - |a| - 5];
    NoBarInPart(m - |a| - 5);
    FieldsOfThree(a, VERSION, part, op);
    assert a[..|a|] == a && TornOp(id, m, op) == part;
  }

  lemma PartsInPayload(id: nat, payload: string, m: nat, op: string)
    requires |Decimal(id)| + 12 <= m <= |Decimal(id)| + 12 + |payload|
    ensures Decimal(id)[..Min(m, |Decimal(id)|)] == Decimal(id)
    ensures TornOp(id, m, op) == UPSERT && TornField(id, payload, m) == payload[..m - |Decimal(id)| - 12]
  {
    assert UPSERT[..6] == UPSERT;
  }

  lemma TornInPayload(id: nat, payload: string, m: nat, op: string)
    requires |Decimal(id)| + 12 <= m <= |EntryLine(UpsertEntry(id, payload))|
    ensures TornFieldsAre(id, payload, m, op)
  {
    var a := Decimal(id);
    NumbersHoldNoDelimiter(id, 0, '|');
    TornIs(id, payload, m);
    PartsInPayload(id, payload, m, op);
    FieldsOfFour(a, VERSION, UPSERT, payload[..m - |a| - 12], op);
  }

  lemma TornFields(id: nat, payload: string, m: nat, op: string)
    requires m <= |EntryLine(UpsertEntry(id, payload))|
    ensures TornFieldsAre(id, payload, m, op)
  {
    var a := |Decimal(id)|;
    if m <= a { TornInId(id, payload, m, op); }
    else if m <= a + 4 { TornInVersion(id, payload, m, op); }
    else if m <= a + 11 { TornInOp(id, payload, m, op); }
    else { TornInPayload(id, payload, m, op); }
  }

  lemma {:induction false} PrefixIsLess(d: string, m: nat)
    requires m <= |d| && forall c :: c in d ==> IsDigit(c)
    ensures ValueOf(d[..m]) <= ValueOf(d)
    decreases |d|
  {
    if m == |d| {
      assert d[..m] == d;
    } else {
      PrefixIsLess(d[..|d| - 1], m);
      assert d[..|d| - 1][..m] == d[..m];
    }
  }

  lemma TornIdReads(id: nat, m: nat)
    requires id < 0x1_0000_0000_0000_0000 && m > 0
    ensures Stoull(Decimal(id)[..Min(m, |Decimal(id)|)]) == Some(TornId(id, m)) && TornId(id, m) <= id
    ensures m >= |Decimal(id)| ==> TornId(id, m) == id
  {
    DecimalValue(id);
    var d := Decimal(id)[..Min(m, |Decimal(id)|)];
    PrefixIsLess(Decimal(id), Min(m, |Decimal(id)|));
    ScanDigits(false, d);
    assert "" + d == d;
    if m >= |Decimal(id)| { assert d == Decimal(id); }
  }

  lemma TornIsOneLine(id: nat, payload: string, m: nat)
    requires m <= |EntryLine(UpsertEntry(id, payload))| && '\n' !in payload
    ensures Line(Torn(id, payload, m)) == Torn(id, payload, m) && AfterLine(Torn(id, payload, m)) == ""
  {
    NumbersHoldNoDelimiter(id, 0, '\n');
    assert '\n' !in EntryLine(UpsertEntry(id, payload));
    UpToAll(Torn(id, payload, m), '\n');
  }

  lemma TornIsJudged(id: nat, payload: string, m: nat, op: string, lastSnapshotID: nat)
    requires 0 < m <= |EntryLine(UpsertEntry(id, payload))| && id < 0x1_0000_0000_0000_0000 && '\n' !in payload
    ensures Judge(Torn(id, payload, m), op, lastSnapshotID)
         == if TornId(id, m) > lastSnapshotID then HandOut(TornId(id, m), TornOp(id, m, op), TornPayload(id, payload, m))
            else Skip(TornId(id, m), TornOp(id, m, op))
  {
    TornFields(id, payload, m, op);
    TornIdReads(id, m);
    UpToAll(TornField(id, payload, m), '\n');
  }

  lemma NextIsTorn(id: nat, payload: string, m: nat, op: string, lastSnapshotID: nat, increaseID: nat)
    requires 0 < m <= |EntryLine(UpsertEntry(id, payload))| && id < 0x1_0000_0000_0000_0000 && '\n' !in payload
    ensures NextEntry(Torn(id, payload, m), op, lastSnapshotID, increaseID)
         == Reading(if TornId(id, m) > lastSnapshotID then Read(TornOp(id, m, op), TornPayload(id, payload, m)) else End,
                    "", Max(increaseID, TornId(id, m)))
  {
    TornIsOneLine(id, payload, m);
    TornIsJudged(id, payload, m, op, lastSnapshotID);
    NextEntryStep(Torn(id, payload, m), op, lastSnapshotID, increaseID);
    NextEntryStep("", TornOp(id, m, op), lastSnapshotID, Max(increaseID, TornId(id, m)));
  }

  lemma NothingLeft(op: string, lastSnapshotID: nat, increaseID: nat, parse: Parser, s: Store)
    ensures ReplayText("", op, lastSnapshotID, increaseID, parse, s) == Reloaded(Some(s), increaseID)
  {
  }

  /** The reload loop on the torn line, with the operation `op` in hand. */
  lemma TornTail(id: nat, payload: string, m: nat, op: string, lastSnapshotID: nat, increaseID: nat, parse: Parser, s: Store)
    requires m <= |EntryLine(UpsertEntry(id, payload))| && id < 0x1_0000_0000_0000_0000 && '\n' !in payload
    ensures ReplayText(Torn(id, payload, m), op, lastSnapshotID, increaseID, parse, s)
         == Reloaded(if TornId(id, m) > lastSnapshotID then Applied(TornOp(id, m, op), TornPayload(id, payload, m), parse, s)
                     else Some(s),
                     Max(increaseID, TornId(id, m)))
  {
    if m == 0 {
      assert Torn(id, payload, m) == "";
      NothingLeft(op, lastSnapshotID, increaseID, parse, s);
    } else {
      NextIsTorn(id, payload, m, op, lastSnapshotID, increaseID);
      var done := Applied(TornOp(id, m, op), TornPayload(id, payload, m), parse, s);
      if done.Some? {
        NothingLeft("", lastSnapshotID, Max(increaseID, TornId(id, m)), parse, done.value);
      }
    }
  }

  // ---------------------------------------------------------------------------------------------
  // The reload behind a crash inside a line
  // ---------------------------------------------------------------------------------------------

  /**
   * The torn line makes the reload call the JSON parser: what is left of its id is beyond the snapshot, and either
   * the line goes on at least to the end of its operation, or it ends before it and the line in front, skipped,
   * has left the same operation in hand.
   */
  predicate HandsTorn(w: Wal, lastSnapshotID: nat, id: nat, m: nat) {
    && TornId(id, m) > lastSnapshotID
    && (m >= |Decimal(id)| + 11 || (m <= |Decimal(id)| + 4 && w != [] && w[|w| - 1].id <= lastSnapshotID))
  }

  lemma TornOpIs(w: Wal, lastSnapshotID: nat, id: nat, m: nat)
    ensures TornOp(id, m, InHandBehind(w, lastSnapshotID, "")) == UPSERT <==>
            m >= |Decimal(id)| + 11 || (m <= |Decimal(id)| + 4 && w != [] && w[|w| - 1].id <= lastSnapshotID)
  {
    var a := |Decimal(id)|;
    if a + 5 <= m < a + 11 {
      assert |UPSERT[..m - a - 5]| < |UPSERT|;
    } else if m >= a + 11 {
      assert UPSERT[..6] == UPSERT;
    }
  }

  /** For every cut: either the line is passed over, or the prefix of its document is parsed and upserted. */
  lemma TornLineReload(w: Wal, bodies: seq<string>, lastSnapshotID: nat, id: nat, payload: string, m: nat,
                       parse: Parser, s: Store)
    requires Logs(w, bodies, parse) && Storable(w, bodies, lastSnapshotID)
    requires m <= |EntryLine(UpsertEntry(id, payload))| && id < 0x1_0000_0000_0000_0000 && '\n' !in payload
    ensures var r := ReplayText(WalText(EntriesOf(w, bodies)) + Torn(id, payload, m), "", lastSnapshotID, FIRST_ID, parse, s);
            var whole := Replay(w, 0, lastSnapshotID, s);
            && (whole.None? ==> r.store.None?)
            && (whole.Some? && !HandsTorn(w, lastSnapshotID, id, m) ==> r.store == whole)
            && (whole.Some? && HandsTorn(w, lastSnapshotID, id, m) ==>
                  r.store == (var d := parse(TornPayload(id, payload, m)); if d.None? then None else Upsert(whole.value, d.value)))
            && (r.store.Some? ==> r.increaseID == Max(Highest(w), TornId(id, m)))
  {
    TextReplaysFrom(w, bodies, 0, lastSnapshotID, "", Torn(id, payload, m), parse, s);
    assert EntriesOf(w, bodies)[0..] == EntriesOf(w, bodies) && w[..0] == [] && w[0..] == w;
    var whole := Replay(w, 0, lastSnapshotID, s);
    if whole.Some? {
      TornOpIs(w, lastSnapshotID, id, m);
      TornTail(id, payload, m, InHandBehind(w, lastSnapshotID, ""), lastSnapshotID, Highest(w), parse, whole.value);
    }
  }

  /**
   * So where a reload would have finished without the torn line, it finishes with it exactly when the line is
   * passed over or the prefix left of its document parses and upserts without tripping the assertion.
   */
  lemma TornLineStopsIff(w: Wal, bodies: seq<string>, lastSnapshotID: nat, id: nat, payload: string, m: nat,
                         parse: Parser, s: Store)
    requires Logs(w, bodies, parse) && Storable(w, bodies, lastSnapshotID)
    requires m <= |EntryLine(UpsertEntry(id, payload))| && id < 0x1_0000_0000_0000_0000 && '\n' !in payload
    requires Replay(w, 0, lastSnapshotID, s).Some?
    ensures var scalar, d := Replay(w, 0, lastSnapshotID, s).value.scalar, parse(TornPayload(id, payload, m));
            ReplayText(WalText(EntriesOf(w, bodies)) + Torn(id, payload, m), "", lastSnapshotID, FIRST_ID, parse, s).store.None?
            <==> HandsTorn(w, lastSnapshotID, id, m) && (d.None? || Aborts(At(scalar, d.value.id), d.value))
  {
    TornLineReload(w, bodies, lastSnapshotID, id, payload, m, parse, s);
  }
}
