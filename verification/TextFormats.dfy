/** The lines of the write-ahead log, as text. A `char` stands for a byte. */
module TextFormats {
  import opened Documents
  import Numerals

  // ---------------------------------------------------------------------------------------------
  // std::getline
  // ---------------------------------------------------------------------------------------------

  /** The position of the first `c`, or the length. */
  function Find(s: string, c: char): (i: nat)
    ensures i <= |s| && (forall j :: 0 <= j < i ==> s[j] != c) && (i < |s| ==> s[i] == c)
  {
    if s == "" || s[0] == c then 0 else 1 + Find(s[1..], c)
  }

  function UpTo(s: string, c: char): string {
    s[..Find(s, c)]
  }

  lemma FindIs(s: string, c: char, i: nat)
    requires i <= |s| && (forall j :: 0 <= j < i ==> s[j] != c) && (i < |s| ==> s[i] == c)
    ensures Find(s, c) == i
  {
  }

  lemma FindIn(a: string, c: char, rest: string)
    requires c !in a
    ensures Find(a + [c] + rest, c) == |a| && (a + [c] + rest)[|a| + 1..] == rest
    ensures UpTo(a + [c] + rest, c) == a
  {
    FindIs(a + [c] + rest, c, |a|);
  }

  lemma UpToAll(s: string, c: char)
    ensures UpTo(s, c) == s <==> c !in s
  {
    if c !in s {
      FindIs(s, c, |s|);
    }
  }

  lemma UpToOfConcat(a: string, b: string, c: char)
    ensures UpTo(a + b, c) == if c in a then UpTo(a, c) else a + UpTo(b, c)
  {
    var i := Find(a, c);
    FindIs(a + b, c, if c in a then i else |a| + Find(b, c));
    UpToAll(a, c);
  }

  /** A character stream: what is left to read, and whether a read has run into its end. */
  datatype Stream = Stream(rest: string, eof: bool)

  /** `getline(stream, target, c)`: a stream already at its end leaves the target as it was. */
  function Token(st: Stream, target: string, c: char): (string, Stream) {
    if st.eof then (target, st)
    else if Find(st.rest, c) < |st.rest| then (UpTo(st.rest, c), Stream(st.rest[Find(st.rest, c) + 1..], false))
    else (st.rest, Stream("", true))
  }

  function Line(text: string): string {
    UpTo(text, '\n')
  }

  function AfterLine(text: string): (r: string)
    ensures text != "" ==> |r| < |text|
  {
    if Find(text, '\n') < |text| then text[Find(text, '\n') + 1..] else ""
  }

  lemma LineOf(a: string, rest: string)
    requires '\n' !in a
    ensures Line(a + "\n" + rest) == a && AfterLine(a + "\n" + rest) == rest
  {
    FindIn(a, '\n', rest);
    assert "\n" == ['\n'];
  }

  // ---------------------------------------------------------------------------------------------
  // Numbers
  // ---------------------------------------------------------------------------------------------

  predicate IsDigit(c: char) { '0' <= c <= '9' }

  predicate IsSpace(c: char) { c == ' ' || 9 <= c as int <= 13 }

  function DigitOf(c: char): nat
    requires IsDigit(c)
  {
    c as int - '0' as int
  }

  function Decimal(n: nat): string {
    (if n < 10 then "" else Decimal(n / 10)) + [LastDigit(n)]
  }

  function Signed(v: int): string {
    if v < 0 then "-" + Decimal(-v) else Decimal(v)
  }

  function ValueOf(s: string): nat
    requires forall c :: c in s ==> IsDigit(c)
  {
    if s == "" then 0 else 10 * ValueOf(s[..|s| - 1]) + DigitOf(s[|s| - 1])
  }

  function Digits(s: string): (d: string)
    ensures forall c :: c in d ==> IsDigit(c)
  {
    if s == "" || !IsDigit(s[0]) then "" else [s[0]] + Digits(s[1..])
  }

  function SkipSpaces(s: string): string {
    if s != "" && IsSpace(s[0]) then SkipSpaces(s[1..]) else s
  }

  /** Whether there is a minus sign at the front, and the digits behind the sign. */
  function SignAndDigits(s: string): (r: (bool, string))
    ensures forall c :: c in r.1 ==> IsDigit(c)
  {
    var t := SkipSpaces(s);
    var signed := t != "" && (t[0] == '+' || t[0] == '-');
    (signed && t[0] == '-', Digits(if signed then t[1..] else t))
  }

  /** The sign and the magnitude of the number at the front; `None` when there are no digits. */
  function Scan(s: string): Option<(bool, nat)> {
    var (minus, d) := SignAndDigits(s);
    if d == "" then None else Some((minus, ValueOf(d)))
  }

  /** `std::stoull`; `None` when it throws. A minus sign wraps around. */
  function Stoull(s: string): Option<nat> {
    match Scan(s)
    case None => None
    case Some((minus, n)) =>
      if n >= 0x1_0000_0000_0000_0000 then None
      else Some(if minus && n > 0 then 0x1_0000_0000_0000_0000 - n else n)
  }

  /** `std::stol`; `None` when it throws. */
  function Stol(s: string): Option<int> {
    match Scan(s)
    case None => None
    case Some((minus, n)) =>
      var m: int := n;
      var v := if minus then -m else m;
      if IsLong(v) then Some(v) else None
  }

  predicate IsLong(v: int) {
    -0x8000_0000_0000_0000 <= v < 0x8000_0000_0000_0000
  }

  lemma ValueSnoc(s: string, c: char)
    requires IsDigit(c) && forall x :: x in s ==> IsDigit(x)
    ensures (forall x :: x in s + [c] ==> IsDigit(x)) && ValueOf(s + [c]) == 10 * ValueOf(s) + DigitOf(c)
  {
    assert (s + [c])[..|s|] == s;
  }

  function LastDigit(n: nat): (c: char)
    ensures IsDigit(c) && DigitOf(c) == n % 10
  {
    ('0' as int + n % 10) as char
  }

  lemma {:induction false} DecimalValue(n: nat)
    ensures Decimal(n) != "" && forall c :: c in Decimal(n) ==> IsDigit(c)
    ensures ValueOf(Decimal(n)) == n
  {
    if n < 10 {
      ValueSnoc("", LastDigit(n));
    } else {
      DecimalValue(n / 10);
      ValueSnoc(Decimal(n / 10), LastDigit(n));
    }
  }

  lemma {:induction false} DigitsOfAll(d: string)
    requires forall c :: c in d ==> IsDigit(c)
    ensures Digits(d) == d
  {
    if d != "" {
      DigitsOfAll(d[1..]);
    }
  }

  lemma ScanDigits(minus: bool, d: string)
    requires d != "" && forall c :: c in d ==> IsDigit(c)
    ensures SignAndDigits((if minus then "-" else "") + d) == (minus, d)
  {
    DigitsOfAll(d);
    assert IsDigit(d[0]);
    var s := (if minus then "-" else "") + d;
    assert SkipSpaces(s) == s;
    assert s == if minus then "-" + d else d;
  }

  lemma ScanNumber(minus: bool, n: nat)
    ensures Scan((if minus then "-" else "") + Decimal(n)) == Some((minus, n))
  {
    DecimalValue(n);
    ScanDigits(minus, Decimal(n));
  }

  /** Numbers read back as they were written. */
  lemma UnsignedReadsBack(n: nat)
    requires n < 0x1_0000_0000_0000_0000
    ensures Stoull(Decimal(n)) == Some(n)
  {
    ScanNumber(false, n);
    assert "" + Decimal(n) == Decimal(n);
  }

  lemma SignedReadsBack(v: int)
    requires IsLong(v)
    ensures Stol(Signed(v)) == Some(v)
  {
    if v < 0 {
      ScanNumber(true, -v);
    } else {
      ScanNumber(false, v);
      assert "" + Decimal(v) == Decimal(v);
    }
  }

  lemma NumbersHoldNoDelimiter(n: nat, v: int, c: char)
    requires c == '|' || c == '\n'
    ensures c !in Decimal(n) && c !in Signed(v)
  {
    DecimalValue(n);
    DecimalValue(if v < 0 then -v else v);
  }

  // Numbers as they stand in any text, read by hand

  lemma {:induction false} ValueIs(s: string, digits: seq<nat>)
    requires Numerals.Spells(s, digits)
    ensures (forall c :: c in s ==> IsDigit(c)) && ValueOf(s) == Numerals.Numeral(digits, 10)
    decreases |s|
  {
    if s != "" {
      ValueIs(s[..|s| - 1], digits[..|digits| - 1]);
      assert forall i :: 0 <= i < |s| ==> IsDigit(s[i]);
    }
  }

  /** Printing: the row of digits without a leading zero. */
  lemma {:induction false} DecimalIs(s: string, digits: seq<nat>)
    requires Numerals.Spells(s, digits) && s != "" && (|s| > 1 ==> digits[0] != 0)
    ensures Decimal(Numerals.Numeral(digits, 10)) == s
    decreases |s|
  {
    var front, last := digits[..|digits| - 1], digits[|digits| - 1];
    var high := Numerals.Numeral(front, 10);
    assert (10 * high + last) / 10 == high && (10 * high + last) % 10 == last;
    assert s == s[..|s| - 1] + [s[|s| - 1]];
    if |s| > 1 {
      DecimalIs(s[..|s| - 1], front);
      NotZero(front);
    } else {
      assert front == [];
    }
  }

  lemma {:induction false} NotZero(digits: seq<nat>)
    requires digits != [] && digits[0] != 0
    ensures Numerals.Numeral(digits, 10) > 0
    decreases |digits|
  {
    if |digits| > 1 {
      NotZero(digits[..|digits| - 1]);
    }
  }

  lemma {:induction false} DigitsFront(s: string, rest: string)
    requires (forall i :: 0 <= i < |s| ==> IsDigit(s[i])) && (rest != "" ==> !IsDigit(rest[0]))
    ensures Digits(s + rest) == s
    decreases |s|
  {
    if s == "" {
      assert s + rest == rest;
    } else {
      assert (s + rest)[1..] == s[1..] + rest;
      DigitsFront(s[1..], rest);
    }
  }

  lemma {:induction false} SpacesSkipped(blanks: string, t: string)
    requires Numerals.AllBlank(blanks) && (t != "" ==> !IsSpace(t[0]))
    ensures SkipSpaces(blanks + t) == t
    decreases |blanks|
  {
    if blanks == "" {
      assert blanks + t == t;
    } else {
      assert (blanks + t)[1..] == blanks[1..] + t && blanks[0] in blanks;
      assert forall c :: c in blanks[1..] ==> c in blanks;
      SpacesSkipped(blanks[1..], t);
    }
  }

  lemma ScanIs(blanks: string, sign: string, s: string, digits: seq<nat>, rest: string)
    requires Numerals.AllBlank(blanks) && (sign == "" || sign == "+" || sign == "-")
    requires Numerals.Spells(s, digits) && s != "" && (rest != "" ==> !(48 <= rest[0] as int <= 57))
    ensures Scan(blanks + (sign + (s + rest))) == Some((sign == "-", Numerals.Numeral(digits, 10)))
  {
    ValueIs(s, digits);
    DigitsFront(s, rest);
    var t := sign + (s + rest);
    assert Numerals.StandsFor(s[0], digits[0]);
    assert t[0] == if sign == "" then s[0] else sign[0];
    SpacesSkipped(blanks, t);
    assert sign != "" ==> t[1..] == s + rest;
    assert sign == "" ==> t == s + rest;
  }

  /**
   * `stoull` and `stol` on any text that begins with blanks, perhaps a sign, and digits, whatever follows: the
   * value of the digits if it is in range, with a minus sign wrapped around in the unsigned case.
   */
  lemma NumberIsRead(blanks: string, sign: string, s: string, digits: seq<nat>, rest: string)
    requires Numerals.AllBlank(blanks) && (sign == "" || sign == "+" || sign == "-")
    requires Numerals.Spells(s, digits) && s != "" && (rest != "" ==> !(48 <= rest[0] as int <= 57))
    ensures var n := Numerals.Numeral(digits, 10);
            var text := blanks + (sign + (s + rest));
            && Stoull(text) == (if n > 18446744073709551615 then None
                                else if sign == "-" && n > 0 then Some(18446744073709551616 - n) else Some(n))
            && var m: int := n;
            var v := if sign == "-" then -m else m;
            Stol(text) == if -9223372036854775808 <= v <= 9223372036854775807 then Some(v) else None
  {
    ScanIs(blanks, sign, s, digits, rest);
  }

  /** Without digits there they throw. */
  lemma NoNumberThrows(blanks: string, sign: string, rest: string)
    requires Numerals.AllBlank(blanks) && (sign == "" || sign == "+" || sign == "-")
    requires rest != "" ==> !(48 <= rest[0] as int <= 57) && !(rest[0] as int == 32 || 9 <= rest[0] as int <= 13)
    requires sign == "" && rest != "" ==> rest[0] != '+' && rest[0] != '-'
    ensures Stoull(blanks + (sign + rest)).None? && Stol(blanks + (sign + rest)).None?
  {
    var t := sign + rest;
    assert t != "" ==> t[0] == if sign == "" then rest[0] else sign[0];
    SpacesSkipped(blanks, t);
    assert sign != "" ==> t[1..] == rest;
    assert sign == "" ==> t == rest;
  }

  // ---------------------------------------------------------------------------------------------
  // The write-ahead log
  // ---------------------------------------------------------------------------------------------

  datatype Entry = Entry(id: nat, version: string, op: string, payload: string)

  /** The line `writeWALRawLog` appends, without its newline. */
  function EntryLine(e: Entry): string {
    Decimal(e.id) + "|" + (e.version + "|" + (e.op + "|" + e.payload))
  }

  function WalText(es: seq<Entry>): string {
    if es == [] then "" else EntryLine(es[0]) + "\n" + WalText(es[1..])
  }

  /** The id, operation and payload fields of a line; missing fields leave their target unchanged. */
  function Fields(line: string, op: string): (string, string, string) {
    var (id, s1) := Token(Stream(line, false), "", '|');
    var (version, s2) := Token(s1, "", '|');
    var (op', s3) := Token(s2, op, '|');
    var (payload, s4) := Token(s3, "", '|');
    (id, op', payload)
  }

  datatype Outcome = Read(op: string, payload: string) | End | Throws

  /** An outcome, the text after what was read, and the id counter. */
  datatype Reading = Reading(outcome: Outcome, rest: string, increaseID: nat)

  /** What a line makes the reader do: throw, hand out a document, or go on. */
  datatype Verdict = Bad | HandOut(id: nat, op: string, payload: string) | Skip(id: nat, op: string)

  /** The JSON parser sees a C string, which ends at the first NUL. */
  function Judge(line: string, op: string, lastSnapshotID: nat): Verdict {
    var (idText, op', payload) := Fields(line, op);
    match Stoull(idText)
    case None => Bad
    case Some(id) => if id > lastSnapshotID then HandOut(id, op', UpTo(payload, '\0')) else Skip(id, op')
  }

  /** What one `readNextWALLog` does. */
  function NextEntry(text: string, op: string, lastSnapshotID: nat, increaseID: nat): Reading
    decreases |text|
  {
    if text == "" then Reading(End, "", increaseID) else
      var v := Judge(Line(text), op, lastSnapshotID);
      if v.Bad? then Reading(Throws, AfterLine(text), increaseID)
      else if v.HandOut? then Reading(Read(v.op, v.payload), AfterLine(text), Max(increaseID, v.id))
      else NextEntry(AfterLine(text), v.op, lastSnapshotID, Max(increaseID, v.id))
  }

  lemma NextEntryStep(text: string, op: string, lastSnapshotID: nat, increaseID: nat)
    ensures text == "" ==> NextEntry(text, op, lastSnapshotID, increaseID) == Reading(End, "", increaseID)
    ensures text != "" ==>
              var v := Judge(Line(text), op, lastSnapshotID);
              var r := NextEntry(text, op, lastSnapshotID, increaseID);
              && (v.Bad? ==> r == Reading(Throws, AfterLine(text), increaseID))
              && (v.HandOut? ==> r == Reading(Read(v.op, v.payload), AfterLine(text), Max(increaseID, v.id)))
              && (v.Skip? ==> r == NextEntry(AfterLine(text), v.op, lastSnapshotID, Max(increaseID, v.id)))
  {
  }

  lemma NextEntryIsShorter(text: string, op: string, lastSnapshotID: nat, increaseID: nat)
    ensures var r := NextEntry(text, op, lastSnapshotID, increaseID);
            r.outcome.Read? ==> |r.rest| < |text|
    decreases |text|
  {
  }

  /**
   * All entries the reload loop is handed; `None` when a number does not parse. The loop clears the operation
   * before every call but the one in progress, and stops when it comes back empty.
   */
  function ReadAll(text: string, op: string, lastSnapshotID: nat): Option<seq<(string, string)>>
    decreases |text|
  {
    NextEntryIsShorter(text, op, lastSnapshotID, 0);
    var r := NextEntry(text, op, lastSnapshotID, 0);
    match r.outcome
    case End => Some([])
    case Throws => None
    case Read(op', payload) =>
      if op' == "" then Some([]) else
        var others := ReadAll(r.rest, "", lastSnapshotID);
        if others.None? then None else Some([(op', payload)] + others.value)
  }

  /** The version and the operation are constants of the server; ids are unsigned 64-bit numbers. */
  predicate Plain(e: Entry) {
    && e.id < 0x1_0000_0000_0000_0000
    && '|' !in e.version && '\n' !in e.version
    && '|' !in e.op && '\n' !in e.op && e.op != ""
  }

  /** The part of a payload that survives the round trip. */
  function Cut(payload: string): string {
    UpTo(UpTo(Line(payload), '|'), '\0')
  }

  predicate Clean(payload: string) {
    '\n' !in payload && '|' !in payload && '\0' !in payload
  }

  lemma CutIff(payload: string)
    ensures Cut(payload) == payload <==> Clean(payload)
  {
    var line := Line(payload);
    var field := UpTo(line, '|');
    UpToAll(payload, '\n');
    UpToAll(line, '|');
    UpToAll(field, '\0');
    assert |Cut(payload)| <= |field| <= |line| <= |payload|;
    if Cut(payload) == payload {
      assert |field| == |payload| && |line| == |payload|;
    }
  }

  lemma TokenFront(a: string, rest: string, target: string)
    requires '|' !in a
    ensures Token(Stream(a + "|" + rest, false), target, '|') == (a, Stream(rest, false))
  {
    FindIn(a, '|', rest);
  }

  lemma FieldsOfEntry(e: Entry, payload: string, op: string)
    requires Plain(e)
    ensures Fields(EntryLine(e.(payload := payload)), op) == (Decimal(e.id), e.op, UpTo(payload, '|'))
  {
    NumbersHoldNoDelimiter(e.id, 0, '|');
    TokenFront(Decimal(e.id), e.version + "|" + (e.op + "|" + payload), "");
    TokenFront(e.version, e.op + "|" + payload, "");
    TokenFront(e.op, payload, op);
    UpToAll(payload, '|');
  }

  /** The head of an entry's line, up to its payload. */
  function Head(e: Entry): string {
    Decimal(e.id) + "|" + (e.version + "|" + (e.op + "|"))
  }

  lemma HeadIsOneLine(e: Entry)
    requires Plain(e)
    ensures '\n' !in Head(e)
  {
    NumbersHoldNoDelimiter(e.id, 0, '\n');
  }

  lemma HeadAndPayload(e: Entry, payload: string)
    ensures EntryLine(e.(payload := payload)) == Head(e) + payload
  {
  }

  lemma UpToNewline(rest: string)
    ensures UpTo("\n" + rest, '\n') == ""
  {
  }

  lemma LineOfConcat(head: string, payload: string, rest: string)
    requires '\n' !in head
    ensures Line(head + payload + "\n" + rest) == head + Line(payload)
    ensures '\n' !in payload ==> AfterLine(head + payload + "\n" + rest) == rest
  {
    var tail := payload + ("\n" + rest);
    assert head + payload + "\n" + rest == head + tail;
    UpToOfConcat(head, tail, '\n');
    UpToOfConcat(payload, "\n" + rest, '\n');
    UpToNewline(rest);
    UpToAll(payload, '\n');
    if '\n' !in payload {
      LineOf(head + payload, rest);
    }
  }

  lemma LineOfEntry(e: Entry, rest: string)
    requires Plain(e)
    ensures Line(EntryLine(e) + "\n" + rest) == EntryLine(e.(payload := Line(e.payload)))
    ensures '\n' !in e.payload ==> AfterLine(EntryLine(e) + "\n" + rest) == rest
  {
    HeadIsOneLine(e);
    HeadAndPayload(e, e.payload);
    HeadAndPayload(e, Line(e.payload));
    LineOfConcat(Head(e), e.payload, rest);
  }

  /** Reading at the start of an entry: its payload arrives cut, and an entry the snapshot has is skipped. */
  lemma FirstEntry(e: Entry, rest: string, op: string, lastSnapshotID: nat, increaseID: nat)
    requires Plain(e)
    ensures var r := NextEntry(EntryLine(e) + "\n" + rest, op, lastSnapshotID, increaseID);
            && (e.id > lastSnapshotID ==>
                  r.outcome == Read(e.op, Cut(e.payload)) && r.increaseID == Max(increaseID, e.id))
            && ('\n' !in e.payload && e.id > lastSnapshotID ==> r.rest == rest)
            && ('\n' !in e.payload && e.id <= lastSnapshotID ==>
                  r == NextEntry(rest, e.op, lastSnapshotID, Max(increaseID, e.id)))
  {
    LineOfEntry(e, rest);
    FieldsOfEntry(e, Line(e.payload), op);
    UnsignedReadsBack(e.id);
    NextEntryStep(EntryLine(e) + "\n" + rest, op, lastSnapshotID, increaseID);
  }

  lemma {:induction false} CounterDoesNotMatter(text: string, op: string, lastSnapshotID: nat, a: nat, b: nat)
    ensures var r, q := NextEntry(text, op, lastSnapshotID, a), NextEntry(text, op, lastSnapshotID, b);
            r.outcome == q.outcome && r.rest == q.rest
    decreases |text|
  {
    if text != "" {
      var v := Judge(Line(text), op, lastSnapshotID);
      if v.Skip? {
        CounterDoesNotMatter(AfterLine(text), v.op, lastSnapshotID, Max(a, v.id), Max(b, v.id));
      }
    }
  }

  /** What the reload loop should be handed: the entries the snapshot does not claim. */
  function Wanted(es: seq<Entry>, lastSnapshotID: nat): seq<(string, string)> {
    if es == [] then []
    else (if es[0].id > lastSnapshotID then [(es[0].op, es[0].payload)] else []) + Wanted(es[1..], lastSnapshotID)
  }

  lemma ReadAllStep(text: string, op: string, lastSnapshotID: nat, increaseID: nat)
    ensures var r := NextEntry(text, op, lastSnapshotID, increaseID);
            && (r.outcome.Throws? ==> ReadAll(text, op, lastSnapshotID).None?)
            && (r.outcome.End? ==> ReadAll(text, op, lastSnapshotID) == Some([]))
            && (r.outcome.Read? && r.outcome.op == "" ==> ReadAll(text, op, lastSnapshotID) == Some([]))
            && (r.outcome.Read? && r.outcome.op != "" ==>
                  var others := ReadAll(r.rest, "", lastSnapshotID);
                  ReadAll(text, op, lastSnapshotID) ==
                  if others.None? then None else Some([(r.outcome.op, r.outcome.payload)] + others.value))
  {
    CounterDoesNotMatter(text, op, lastSnapshotID, increaseID, 0);
  }

  lemma ReadAllOfSame(t1: string, op1: string, t2: string, op2: string, lastSnapshotID: nat, a: nat, b: nat)
    requires NextEntry(t1, op1, lastSnapshotID, a) == NextEntry(t2, op2, lastSnapshotID, b)
    ensures ReadAll(t1, op1, lastSnapshotID) == ReadAll(t2, op2, lastSnapshotID)
  {
    ReadAllStep(t1, op1, lastSnapshotID, a);
    ReadAllStep(t2, op2, lastSnapshotID, b);
  }

  /** Lines that do not break the reading of the lines behind them. */
  ghost predicate Unbroken(es: seq<Entry>, lastSnapshotID: nat) {
    forall e :: e in es ==> Plain(e) && (e.id <= lastSnapshotID ==> '\n' !in e.payload)
  }

  /** The operation in hand once `es` have been read: that of a skipped last line, or none. */
  function InHand(es: seq<Entry>, op: string, lastSnapshotID: nat): string {
    if es == [] then op
    else if es[|es| - 1].id <= lastSnapshotID then es[|es| - 1].op else ""
  }

  /** The log reads back as it was written exactly when every payload to be replayed is clean. */
  lemma {:induction false} WalReadsBackIff(es: seq<Entry>, op: string, lastSnapshotID: nat)
    requires Unbroken(es, lastSnapshotID)
    ensures ReadsBack(es, op, lastSnapshotID) <==> forall e :: e in es && e.id > lastSnapshotID ==> Clean(e.payload)
  {
    if es != [] {
      assert es[0] in es && es == [es[0]] + es[1..];
      if es[0].id <= lastSnapshotID {
        WalReadsBackIff(es[1..], es[0].op, lastSnapshotID);
        FirstIsSkipped(es, op, lastSnapshotID);
      } else {
        WalReadsBackIff(es[1..], "", lastSnapshotID);
        FirstIsWanted(es, op, lastSnapshotID);
      }
    }
  }

  predicate ReadsBack(es: seq<Entry>, op: string, lastSnapshotID: nat) {
    ReadAll(WalText(es), op, lastSnapshotID) == Some(Wanted(es, lastSnapshotID))
  }

  lemma SkippedEntry(e: Entry, rest: string, op: string, lastSnapshotID: nat)
    requires Plain(e) && e.id <= lastSnapshotID && '\n' !in e.payload
    ensures ReadAll(EntryLine(e) + "\n" + rest, op, lastSnapshotID) == ReadAll(rest, e.op, lastSnapshotID)
  {
    FirstEntry(e, rest, op, lastSnapshotID, 0);
    ReadAllOfSame(EntryLine(e) + "\n" + rest, op, rest, e.op, lastSnapshotID, 0, Max(0, e.id));
  }

  lemma FirstIsSkipped(es: seq<Entry>, op: string, lastSnapshotID: nat)
    requires es != [] && Plain(es[0]) && es[0].id <= lastSnapshotID && '\n' !in es[0].payload
    ensures ReadsBack(es, op, lastSnapshotID) <==> ReadsBack(es[1..], es[0].op, lastSnapshotID)
  {
    SkippedEntry(es[0], WalText(es[1..]), op, lastSnapshotID);
    WantedAfterSkip(es, lastSnapshotID);
    assert WalText(es) == EntryLine(es[0]) + "\n" + WalText(es[1..]);
  }

  lemma WantedAfterSkip(es: seq<Entry>, lastSnapshotID: nat)
    requires es != [] && es[0].id <= lastSnapshotID
    ensures Wanted(es, lastSnapshotID) == Wanted(es[1..], lastSnapshotID)
  {
  }

  lemma FirstIsWanted(es: seq<Entry>, op: string, lastSnapshotID: nat)
    requires es != [] && Plain(es[0]) && es[0].id > lastSnapshotID
    ensures ReadsBack(es, op, lastSnapshotID) <==> Clean(es[0].payload) && ReadsBack(es[1..], "", lastSnapshotID)
  {
    var e, rest := es[0], WalText(es[1..]);
    FirstEntry(e, rest, op, lastSnapshotID, 0);
    ReadAllStep(WalText(es), op, lastSnapshotID, 0);
    CutIff(e.payload);
    var read := ReadAll(WalText(es), op, lastSnapshotID);
    var wanted := Wanted(es, lastSnapshotID);
    assert wanted[0] == (e.op, e.payload) && wanted[1..] == Wanted(es[1..], lastSnapshotID);
    assert read.Some? ==> read.value[0] == (e.op, Cut(e.payload));
    if Clean(e.payload) {
      var others := ReadAll(rest, "", lastSnapshotID);
      assert read.Some? ==> others.Some? && read.value[1..] == others.value;
    }
  }

  function Handed(first: seq<(string, string)>, others: Option<seq<(string, string)>>): Option<seq<(string, string)>> {
    if others.None? then None else Some(first + others.value)
  }

  /** Whole clean lines in front of any other text hand out their entries and leave the rest to be read. */
  lemma {:induction false} ReadAllBehind(es: seq<Entry>, tail: string, op: string, lastSnapshotID: nat)
    requires Unbroken(es, lastSnapshotID) && forall e :: e in es && e.id > lastSnapshotID ==> Clean(e.payload)
    ensures ReadAll(WalText(es) + tail, op, lastSnapshotID)
         == Handed(Wanted(es, lastSnapshotID), ReadAll(tail, InHand(es, op, lastSnapshotID), lastSnapshotID))
  {
    if es == [] {
      assert "" + tail == tail;
      PrependNothing(ReadAll(tail, op, lastSnapshotID));
    } else {
      var e, more := es[0], es[1..];
      assert e in es && es == [e] + more;
      var op' := if e.id <= lastSnapshotID then e.op else "";
      ReadAllBehind(more, tail, op', lastSnapshotID);
      assert InHand(es, op, lastSnapshotID) == InHand(more, op', lastSnapshotID);
      assert WalText(es) + tail == EntryLine(e) + "\n" + (WalText(more) + tail);
      FirstOfMany(e, WalText(more) + tail, op, lastSnapshotID);
      HandedTwice(Wanted([e], lastSnapshotID), Wanted(more, lastSnapshotID),
                  ReadAll(tail, InHand(more, op', lastSnapshotID), lastSnapshotID));
      WantedOfOne(es, lastSnapshotID);
    }
  }

  lemma PrependNothing(others: Option<seq<(string, string)>>)
    ensures Handed([], others) == others
  {
    if others.Some? {
      assert [] + others.value == others.value;
    }
  }

  lemma HandedTwice(a: seq<(string, string)>, b: seq<(string, string)>, others: Option<seq<(string, string)>>)
    ensures Handed(a, Handed(b, others)) == Handed(a + b, others)
  {
    if others.Some? {
      assert a + (b + others.value) == a + b + others.value;
    }
  }

  lemma WantedOfOne(es: seq<Entry>, lastSnapshotID: nat)
    requires es != []
    ensures Wanted(es, lastSnapshotID) == Wanted([es[0]], lastSnapshotID) + Wanted(es[1..], lastSnapshotID)
  {
    assert [es[0]][1..] == [];
  }

  lemma WantedEntry(e: Entry, rest: string, op: string, lastSnapshotID: nat)
    requires Plain(e) && e.id > lastSnapshotID && Clean(e.payload)
    ensures ReadAll(EntryLine(e) + "\n" + rest, op, lastSnapshotID)
         == Handed([(e.op, e.payload)], ReadAll(rest, "", lastSnapshotID))
  {
    FirstEntry(e, rest, op, lastSnapshotID, 0);
    CutIff(e.payload);
    ReadAllStep(EntryLine(e) + "\n" + rest, op, lastSnapshotID, 0);
  }

  lemma WantedIfBeyond(e: Entry, lastSnapshotID: nat)
    ensures Wanted([e], lastSnapshotID) == if e.id > lastSnapshotID then [(e.op, e.payload)] else []
  {
    assert [e][1..] == [];
  }

  lemma FirstOfMany(e: Entry, rest: string, op: string, lastSnapshotID: nat)
    requires Plain(e) && '\n' !in e.payload && (e.id > lastSnapshotID ==> Clean(e.payload))
    ensures ReadAll(EntryLine(e) + "\n" + rest, op, lastSnapshotID)
         == Handed(Wanted([e], lastSnapshotID),
                   ReadAll(rest, if e.id <= lastSnapshotID then e.op else "", lastSnapshotID))
  {
    WantedIfBeyond(e, lastSnapshotID);
    if e.id <= lastSnapshotID {
      SkippedEntry(e, rest, op, lastSnapshotID);
      PrependNothing(ReadAll(rest, e.op, lastSnapshotID));
    } else {
      WantedEntry(e, rest, op, lastSnapshotID);
    }
  }

  /** The id counter after `es` have been read. */
  function Counted(es: seq<Entry>, increaseID: nat): nat {
    if es == [] then increaseID else Counted(es[1..], Max(increaseID, es[0].id))
  }

  /** One call: it skips to entry `k`, the first beyond the snapshot, and stops right behind its line. */
  lemma {:induction false} NextEntryFindsFirstWanted(es: seq<Entry>, k: nat, op: string, last: nat, increaseID: nat)
    requires k <= |es| && forall j :: 0 <= j < |es| ==> Plain(es[j]) && Clean(es[j].payload)
    requires (forall j :: 0 <= j < k ==> es[j].id <= last) && (k < |es| ==> es[k].id > last)
    ensures NextEntry(WalText(es), op, last, increaseID)
            == if k == |es| then Reading(End, "", Counted(es, increaseID))
               else Reading(Read(es[k].op, es[k].payload), WalText(es[k + 1..]), Counted(es[..k + 1], increaseID))
    decreases k
  {
    if es != [] {
      var e := es[0];
      FirstEntry(e, WalText(es[1..]), op, last, increaseID);
      if k == 0 {
        CutIff(e.payload);
        assert es[..1][1..] == [] && es[..1][0] == e;
      } else {
        NextEntryFindsFirstWanted(es[1..], k - 1, e.op, last, Max(increaseID, e.id));
        if k < |es| {
          assert es[..k + 1][1..] == es[1..][..k] && es[1..][k..] == es[k + 1..];
        }
      }
    }
  }

  lemma NextEntryThrows(text: string, op: string, lastSnapshotID: nat, increaseID: nat)
    requires text != "" && Stoull(UpTo(Line(text), '|')).None?
    ensures ReadAll(text, op, lastSnapshotID).None?
  {
    UpToAll(Line(text), '|');
    assert Fields(Line(text), op).0 == UpTo(Line(text), '|');
    assert NextEntry(text, op, lastSnapshotID, 0).outcome.Throws?;
  }

  /** A newline inside a payload stops the server from starting, unless the text behind it looks like an entry. */
  lemma NewlineInPayloadThrows(e: Entry, a: string, b: string, rest: string, op: string, lastSnapshotID: nat)
    requires Plain(e) && e.payload == a + "\n" + b && '\n' !in a && '\n' !in b
    requires e.id > lastSnapshotID && Stoull(UpTo(b, '|')).None?
    ensures ReadAll(EntryLine(e) + "\n" + rest, op, lastSnapshotID).None?
  {
    var front, tail := e.(payload := a), b + "\n" + rest;
    HeadAndPayload(e, e.payload);
    HeadAndPayload(e, a);
    assert EntryLine(e) + "\n" + rest == EntryLine(front) + "\n" + tail;
    ThrowsBehind(front, tail, op, lastSnapshotID);
    LineOf(b, rest);
    NextEntryThrows(tail, "", lastSnapshotID, 0);
  }

  /** If reading on behind a replayed entry throws, so does the whole. */
  lemma ThrowsBehind(e: Entry, rest: string, op: string, lastSnapshotID: nat)
    requires Plain(e) && e.id > lastSnapshotID && '\n' !in e.payload
    ensures ReadAll(rest, "", lastSnapshotID).None? ==> ReadAll(EntryLine(e) + "\n" + rest, op, lastSnapshotID).None?
  {
    FirstEntry(e, rest, op, lastSnapshotID, 0);
    ReadAllStep(EntryLine(e) + "\n" + rest, op, lastSnapshotID, 0);
  }

  /** A '|' inside a payload hands a truncated document to the parser, and nothing reports it. */
  lemma BarInPayloadTruncates(e: Entry, a: string, b: string, rest: string, op: string, lastSnapshotID: nat)
    requires Plain(e) && e.payload == a + "|" + b && Clean(a) && '\n' !in b && e.id > lastSnapshotID
    ensures NextEntry(EntryLine(e) + "\n" + rest, op, lastSnapshotID, 0) == Reading(Read(e.op, a), rest, e.id)
  {
    FirstEntry(e, rest, op, lastSnapshotID, 0);
    UpToAll(e.payload, '\n');
    FindIn(a, '|', b);
    UpToAll(a, '\0');
  }

  /** A NUL byte inside a payload truncates the document just so: the parser sees a C string. */
  lemma NulInPayloadTruncates(e: Entry, a: string, b: string, rest: string, op: string, lastSnapshotID: nat)
    requires Plain(e) && e.payload == a + "\0" + b && Clean(a) && '\n' !in b && '|' !in b && e.id > lastSnapshotID
    ensures NextEntry(EntryLine(e) + "\n" + rest, op, lastSnapshotID, 0) == Reading(Read(e.op, a), rest, e.id)
  {
    FirstEntry(e, rest, op, lastSnapshotID, 0);
    UpToAll(e.payload, '\n');
    UpToAll(e.payload, '|');
    FindIn(a, '\0', b);
  }

  /**
   * Any line: four fields between the bars, the rest passed over; a number in front or an exception; a document
   * handed out if the number is beyond the snapshot, and skipped otherwise.
   */
  lemma LineIsJudged(a: string, v: string, o: string, p: string, more: string, op: string, lastSnapshotID: nat)
    requires '|' !in a && '|' !in v && '|' !in o && '|' !in p && '\0' !in p
    ensures var line := a + "|" + (v + "|" + (o + "|" + (p + more)));
            more == "" || more[0] == '|' ==>
              Judge(line, op, lastSnapshotID)
              == if Stoull(a).None? then Bad
                 else if Stoull(a).value > lastSnapshotID then HandOut(Stoull(a).value, o, p) else Skip(Stoull(a).value, o)
  {
    if more == "" || more[0] == '|' {
      FieldsOfFour(a, v, o, p + more, op);
      FindIs(p + more, '|', |p|);
      assert UpTo(p + more, '|') == p;
      UpToAll(p, '\0');
    }
  }

  // ---------------------------------------------------------------------------------------------
  // Lines that a crash has cut off
  // ---------------------------------------------------------------------------------------------

  lemma TornIdRead(n: nat, op: string, lastSnapshotID: nat)
    requires n < 0x1_0000_0000_0000_0000
    ensures ReadAll(Decimal(n), op, lastSnapshotID)
         == if n > lastSnapshotID && op != "" then Some([(op, "")]) else Some([])
  {
    var d := Decimal(n);
    NumbersHoldNoDelimiter(n, 0, '|');
    NumbersHoldNoDelimiter(n, 0, '\n');
    UpToAll(d, '|');
    UpToAll(d, '\n');
    UnsignedReadsBack(n);
    DecimalValue(n);
    assert Line(d) == d && AfterLine(d) == "";
    assert Fields(d, op) == (d, op, "");
    assert UpTo("", '\0') == "";
    assert Judge(d, op, lastSnapshotID) == if n > lastSnapshotID then HandOut(n, op, "") else Skip(n, op);
    NextEntryStep(d, op, lastSnapshotID, 0);
    NextEntryStep("", op, lastSnapshotID, Max(0, n));
    ReadAllStep(d, op, lastSnapshotID, 0);
    ReadAllStep("", "", lastSnapshotID, 0);
    assert [(op, "")] + [] == [(op, "")];
  }

  /**
   * A crash that leaves only digits of the last line. They count as an id, with no operation of their own: the
   * reload stops there quietly, as it should, unless that id is beyond the snapshot and the line before was
   * skipped, whose operation is then still in hand and comes out once more with an empty document.
   */
  lemma TornIdIsHarmlessIff(es: seq<Entry>, n: nat, lastSnapshotID: nat)
    requires Unbroken(es, lastSnapshotID) && forall e :: e in es && e.id > lastSnapshotID ==> Clean(e.payload)
    requires n < 0x1_0000_0000_0000_0000
    ensures ReadAll(WalText(es) + Decimal(n), "", lastSnapshotID) == Some(Wanted(es, lastSnapshotID)) <==>
            n <= lastSnapshotID || es == [] || es[|es| - 1].id > lastSnapshotID
    ensures n > lastSnapshotID && es != [] && es[|es| - 1].id <= lastSnapshotID ==>
              ReadAll(WalText(es) + Decimal(n), "", lastSnapshotID)
              == Some(Wanted(es, lastSnapshotID) + [(es[|es| - 1].op, "")])
  {
    ReadAllBehind(es, Decimal(n), "", lastSnapshotID);
    TornIdRead(n, InHand(es, "", lastSnapshotID), lastSnapshotID);
    assert es != [] ==> es[|es| - 1] in es;
    assert Wanted(es, lastSnapshotID) + [] == Wanted(es, lastSnapshotID);
  }

  /** The entries the server writes. */
  function UpsertEntry(id: nat, payload: string): Entry {
    Entry(id, "1.0", "upsert", payload)
  }

  lemma FieldsOfFour(a: string, v: string, o: string, p: string, op: string)
    requires '|' !in a && '|' !in v && '|' !in o
    ensures Fields(a + "|" + (v + "|" + (o + "|" + p)), op) == (a, o, UpTo(p, '|'))
  {
    TokenFront(a, v + "|" + (o + "|" + p), "");
    TokenFront(v, o + "|" + p, "");
    TokenFront(o, p, op);
    UpToAll(p, '|');
  }

  lemma GluedInId(a: string, e2: Entry, op: string)
    requires '|' !in a && Plain(e2)
    ensures Fields(a + EntryLine(e2), op) == (a + Decimal(e2.id), e2.op, UpTo(e2.payload, '|'))
  {
    NumbersHoldNoDelimiter(e2.id, 0, '|');
    assert a + EntryLine(e2) == (a + Decimal(e2.id)) + "|" + (e2.version + "|" + (e2.op + "|" + e2.payload));
    FieldsOfFour(a + Decimal(e2.id), e2.version, e2.op, e2.payload, op);
  }

  /** A line glued to `x + y` is `x` followed by a line whose id begins with `y`. */
  lemma Glue(x: string, y: string, e2: Entry)
    ensures var rest := e2.version + "|" + (e2.op + "|" + e2.payload);
            x + y + EntryLine(e2) == x + ((y + Decimal(e2.id)) + "|" + rest)
  {
    var d, rest := Decimal(e2.id), e2.version + "|" + (e2.op + "|" + e2.payload);
    assert EntryLine(e2) == d + "|" + rest;
    assert x + y + (d + "|" + rest) == x + ((y + d) + "|" + rest);
  }

  lemma TwoBars(a: string, v: string, q: string)
    ensures a + "|" + v + "|" + q == a + "|" + (v + "|" + q)
  {
  }

  lemma ThreeBars(a: string, v: string, o: string, q: string)
    ensures a + "|" + v + "|" + o + "|" + q == a + "|" + (v + "|" + (o + "|" + q))
  {
    TwoBars(a + "|" + v, o, q);
    TwoBars(a, v, o + "|" + q);
  }

  lemma GluedInVersion(a: string, v: string, e2: Entry, op: string)
    requires '|' !in a && '|' !in v && Plain(e2)
    ensures Fields(a + "|" + v + EntryLine(e2), op) == (a, e2.version, e2.op)
  {
    NumbersHoldNoDelimiter(e2.id, 0, '|');
    Glue(a + "|", v, e2);
    FieldsOfFour(a, v + Decimal(e2.id), e2.version, e2.op + "|" + e2.payload, op);
    FindIn(e2.op, '|', e2.payload);
  }

  lemma GluedInOp(a: string, v: string, o: string, e2: Entry, op: string)
    requires '|' !in a && '|' !in v && '|' !in o && Plain(e2)
    ensures Fields(a + "|" + v + "|" + o + EntryLine(e2), op) == (a, o + Decimal(e2.id), e2.version)
  {
    NumbersHoldNoDelimiter(e2.id, 0, '|');
    var rest := e2.version + "|" + (e2.op + "|" + e2.payload);
    Glue(a + "|" + v + "|", o, e2);
    TwoBars(a, v, (o + Decimal(e2.id)) + "|" + rest);
    FieldsOfFour(a, v, o + Decimal(e2.id), rest, op);
    FindIn(e2.version, '|', e2.op + "|" + e2.payload);
  }

  lemma GluedInPayload(a: string, v: string, o: string, p: string, e2: Entry, op: string)
    requires '|' !in a && '|' !in v && '|' !in o && '|' !in p && Plain(e2)
    ensures Fields(a + "|" + v + "|" + o + "|" + p + EntryLine(e2), op) == (a, o, p + Decimal(e2.id))
  {
    NumbersHoldNoDelimiter(e2.id, 0, '|');
    var rest := e2.version + "|" + (e2.op + "|" + e2.payload);
    Glue(a + "|" + v + "|" + o + "|", p, e2);
    ThreeBars(a, v, o, (p + Decimal(e2.id)) + "|" + rest);
    FieldsOfFour(a, v, o, (p + Decimal(e2.id)) + "|" + rest, op);
    FindIn(p + Decimal(e2.id), '|', rest);
  }

  lemma {:induction false} EndsInDigit(n: nat, front: string)
    ensures front + Decimal(n) != "" && IsDigit((front + Decimal(n))[|front + Decimal(n)| - 1])
  {
    DecimalValue(n);
    var s := front + Decimal(n);
    assert s[|s| - 1] == Decimal(n)[|Decimal(n)| - 1];
  }

  /** The operation and the document that a line hands out are those of an upsert of `payload`. */
  predicate HandsOut(line: string, op: string, payload: string) {
    Fields(line, op).1 == "upsert" && Fields(line, op).2 == payload
  }

  predicate Document(payload: string) {
    '|' !in payload && payload != "" && !IsDigit(payload[|payload| - 1])
  }

  lemma CutInVersion(a: string, v: string, id2: nat, payload2: string, op: string)
    requires '|' !in a && '|' !in v && id2 < 0x1_0000_0000_0000_0000
    ensures !HandsOut(a + "|" + v + EntryLine(UpsertEntry(id2, payload2)), op, payload2)
  {
    GluedInVersion(a, v, UpsertEntry(id2, payload2), op);
  }

  lemma CutInOp(a: string, o: string, id2: nat, payload2: string, op: string)
    requires '|' !in a && '|' !in o && id2 < 0x1_0000_0000_0000_0000
    ensures !HandsOut(a + "|" + "1.0" + "|" + o + EntryLine(UpsertEntry(id2, payload2)), op, payload2)
  {
    GluedInOp(a, "1.0", o, UpsertEntry(id2, payload2), op);
    EndsInDigit(id2, o);
    assert !IsDigit("upsert"[|"upsert"| - 1]);
  }

  lemma CutInPayload(a: string, p: string, id2: nat, payload2: string, op: string)
    requires '|' !in a && '|' !in p && id2 < 0x1_0000_0000_0000_0000 && Document(payload2)
    ensures !HandsOut(a + "|" + "1.0" + "|" + "upsert" + "|" + p + EntryLine(UpsertEntry(id2, payload2)), op, payload2)
  {
    GluedInPayload(a, "1.0", "upsert", p, UpsertEntry(id2, payload2), op);
    EndsInDigit(id2, p);
  }

  /** A line of the server, cut off behind its id: where the cut is decides what is left. */
  lemma CutLine(id: nat, payload: string, m: nat) returns (part: string)
    requires |Decimal(id)| < m <= |EntryLine(UpsertEntry(id, payload))| && '|' !in payload
    ensures '|' !in part
    ensures var a, line := Decimal(id), EntryLine(UpsertEntry(id, payload));
            || line[..m] == a + "|" + part
            || line[..m] == a + "|" + "1.0" + "|" + part
            || line[..m] == a + "|" + "1.0" + "|" + "upsert" + "|" + part
  {
    var a, line := Decimal(id), EntryLine(UpsertEntry(id, payload));
    if m <= |a| + 4 {
      part := "1.0"[..m - |a| - 1];
      assert line[..m] == a + "|" + part;
    } else if m <= |a| + 11 {
      part := "upsert"[..m - |a| - 5];
      assert line[..m] == a + "|" + "1.0" + "|" + part;
    } else {
      part := payload[..m - |a| - 12];
      assert line[..m] == a + "|" + "1.0" + "|" + "upsert" + "|" + part;
    }
  }

  lemma CutBehindId(id: nat, payload: string, m: nat, id2: nat, payload2: string, op: string)
    requires |Decimal(id)| < m <= |EntryLine(UpsertEntry(id, payload))| && '|' !in payload
    requires id2 < 0x1_0000_0000_0000_0000 && Document(payload2)
    ensures !HandsOut(EntryLine(UpsertEntry(id, payload))[..m] + EntryLine(UpsertEntry(id2, payload2)), op, payload2)
  {
    var part := CutLine(id, payload, m);
    NumbersHoldNoDelimiter(id, 0, '|');
    CutInVersion(Decimal(id), part, id2, payload2, op);
    CutInOp(Decimal(id), part, id2, payload2, op);
    CutInPayload(Decimal(id), part, id2, payload2, op);
  }

  lemma CutInsideId(id: nat, payload: string, m: nat, id2: nat, payload2: string, op: string)
    requires m <= |Decimal(id)| && id2 < 0x1_0000_0000_0000_0000 && Document(payload2)
    ensures Fields(EntryLine(UpsertEntry(id, payload))[..m] + EntryLine(UpsertEntry(id2, payload2)), op)
         == (Decimal(id)[..m] + Decimal(id2), "upsert", payload2)
  {
    NumbersHoldNoDelimiter(id, 0, '|');
    assert EntryLine(UpsertEntry(id, payload))[..m] == Decimal(id)[..m];
    GluedInId(Decimal(id)[..m], UpsertEntry(id2, payload2), op);
    UpToAll(payload2, '|');
  }

  /**
   * A crash that cuts a line off at `m` leaves no newline, so the next append is glued to what is left of it.
   * The next record's operation and document are read from that line exactly when the cut fell into the id (and
   * then under the two ids run together); from any later cut on, a record that was acknowledged is lost.
   */
  lemma CutLosesNextRecordIff(id: nat, payload: string, m: nat, id2: nat, payload2: string, op: string)
    requires id < 0x1_0000_0000_0000_0000 && id2 < 0x1_0000_0000_0000_0000
    requires m <= |EntryLine(UpsertEntry(id, payload))| && '|' !in payload && Document(payload2)
    ensures var line := EntryLine(UpsertEntry(id, payload))[..m] + EntryLine(UpsertEntry(id2, payload2));
            && (HandsOut(line, op, payload2) <==> m <= |Decimal(id)|)
            && (m <= |Decimal(id)| ==> Fields(line, op).0 == Decimal(id)[..m] + Decimal(id2))
  {
    if m <= |Decimal(id)| {
      CutInsideId(id, payload, m, id2, payload2, op);
    } else {
      CutBehindId(id, payload, m, id2, payload2, op);
    }
  }
}
