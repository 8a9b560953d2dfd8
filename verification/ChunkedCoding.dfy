/** The chunked transfer coding (section 7.1 of RFC 9112): what is written, and what reading makes of it. */
module ChunkedCoding {
  import opened Documents
  import TextFormats
  import opened Numerals

  const ULONG_MAX: nat := 0xFFFF_FFFF_FFFF_FFFF

  const HEADER_MAX_LENGTH: nat := 8192

  // ---------------------------------------------------------------------------------------------
  // Hexadecimal numbers
  // ---------------------------------------------------------------------------------------------

  function HexChar(n: nat): char
    requires n < 16
  {
    if n < 10 then ('0' as int + n) as char else ('a' as int + n - 10) as char
  }

  function Hex(n: nat): string {
    (if n < 16 then "" else Hex(n / 16)) + [HexChar(n % 16)]
  }

  predicate IsHex(c: char) {
    '0' <= c <= '9' || 'a' <= c <= 'f' || 'A' <= c <= 'F'
  }

  function HexOf(c: char): nat
    requires IsHex(c)
  {
    if c <= '9' then c as int - '0' as int
    else if c <= 'F' then c as int - 'A' as int + 10 else c as int - 'a' as int + 10
  }

  ghost predicate AllHex(s: string) {
    forall c :: c in s ==> IsHex(c)
  }

  function HexRun(s: string): (d: string)
    ensures AllHex(d) && |d| <= |s| && d == s[..|d|] && (|d| < |s| ==> !IsHex(s[|d|]))
  {
    if s == "" || !IsHex(s[0]) then "" else [s[0]] + HexRun(s[1..])
  }

  function HexValue(s: string): nat
    requires AllHex(s)
  {
    if s == "" then 0 else 16 * HexValue(s[..|s| - 1]) + HexOf(s[|s| - 1])
  }

  /** Whether there is a minus sign at the front, and the digits behind the sign and the `0x`. */
  function SignAndDigits(s: string): (r: (bool, string))
    ensures AllHex(r.1)
  {
    var t := TextFormats.SkipSpaces(s);
    var signed := t != "" && (t[0] == '+' || t[0] == '-');
    var u := if signed then t[1..] else t;
    var prefixed := |u| >= 3 && u[0] == '0' && (u[1] == 'x' || u[1] == 'X') && IsHex(u[2]);
    (signed && t[0] == '-', HexRun(if prefixed then u[2..] else u))
  }

  /** `strtoul(s, &end, 16)`; `None` when `end` has not moved. */
  function Strtoul(s: string): Option<nat> {
    var (minus, d) := SignAndDigits(s);
    if d == "" then None
    else if HexValue(d) > ULONG_MAX then Some(ULONG_MAX)
    else if minus && HexValue(d) > 0 then Some(ULONG_MAX + 1 - HexValue(d))
    else Some(HexValue(d))
  }

  lemma HexValueSnoc(s: string, c: char)
    requires IsHex(c) && AllHex(s)
    ensures AllHex(s + [c]) && HexValue(s + [c]) == 16 * HexValue(s) + HexOf(c)
  {
    assert (s + [c])[..|s|] == s;
  }

  lemma {:induction false} HexRoundTrip(n: nat)
    ensures Hex(n) != "" && AllHex(Hex(n)) && HexValue(Hex(n)) == n
  {
    var last := HexChar(n % 16);
    if n < 16 {
      HexValueSnoc("", last);
      assert "" + [last] == Hex(n);
    } else {
      HexRoundTrip(n / 16);
      HexValueSnoc(Hex(n / 16), last);
    }
  }

  lemma {:induction false} HexRunOf(d: string, rest: string)
    requires AllHex(d) && (rest != "" ==> !IsHex(rest[0]))
    ensures HexRun(d + rest) == d
  {
    if d == "" {
      assert d + rest == rest;
    } else {
      HexRunOf(d[1..], rest);
      assert (d + rest)[1..] == d[1..] + rest;
    }
  }

  lemma DigitsOfSizeLine(n: nat)
    ensures SignAndDigits(Hex(n) + "\r\n") == (false, Hex(n))
  {
    HexRoundTrip(n);
    HexRunOf(Hex(n), "\r\n");
    NoSignOrPrefix(Hex(n), "\r\n");
  }

  lemma {:induction false} NoSignOrPrefix(d: string, rest: string)
    requires AllHex(d) && d != "" && (rest != "" ==> rest[0] != 'x' && rest[0] != 'X')
    ensures SignAndDigits(d + rest) == (false, HexRun(d + rest))
  {
    var s := d + rest;
    assert s[0] == d[0] && IsHex(s[0]);
    assert TextFormats.SkipSpaces(s) == s;
    assert |s| > 1 ==> s[1] == if |d| > 1 then d[1] else rest[0];
    assert |d| > 1 ==> IsHex(d[1]);
  }

  /** A chunk size is read back as it was written. */
  lemma SizeReadsBack(n: nat)
    requires n <= ULONG_MAX
    ensures Strtoul(Hex(n) + "\r\n") == Some(n)
  {
    HexRoundTrip(n);
    DigitsOfSizeLine(n);
  }

  // Hexadecimal numbers as they stand in any line, read by hand

  lemma {:induction false} HexValueIs(s: string, digits: seq<nat>)
    requires HexSpells(s, digits)
    ensures AllHex(s) && HexValue(s) == Numeral(digits, 16)
    decreases |s|
  {
    assert forall i :: 0 <= i < |s| ==> IsHex(s[i]);
    if s != "" {
      HexValueIs(s[..|s| - 1], digits[..|digits| - 1]);
    }
  }

  const LOWER_DIGITS := "0123456789abcdef"

  /** Printing: lower-case digits, the last four bits last. */
  lemma {:induction false} HexIs(n: nat)
    ensures Hex(n) == (if n < 16 then "" else Hex(n / 16)) + [LOWER_DIGITS[n % 16]]
  {
    LowerDigit(n % 16);
  }

  lemma LowerDigit(n: nat)
    requires n < 16
    ensures HexChar(n) == LOWER_DIGITS[n]
  {
  }

  lemma DigitsBehindSign(blanks: string, sign: string, s: string, rest: string)
    requires AllBlank(blanks) && (sign == "" || sign == "+" || sign == "-") && s != "" && AllHex(s)
    requires rest != "" ==> !IsHex(rest[0]) && rest[0] != 'x' && rest[0] != 'X'
    ensures SignAndDigits(blanks + (sign + (s + rest))) == (sign == "-", s)
  {
    var u, t := s + rest, sign + (s + rest);
    assert s[0] in s && u[0] == s[0];
    assert t[0] == if sign == "" then s[0] else sign[0];
    TextFormats.SpacesSkipped(blanks, t);
    assert sign == "" ==> t == u;
    assert sign != "" ==> t[1..] == u;
    if |u| > 1 {
      assert u[1] == if |s| > 1 then s[1] else rest[0];
      assert |s| > 1 ==> s[1] in s;
    }
    HexRunOf(s, rest);
  }

  /**
   * A size line, whoever wrote it: blanks, perhaps a sign, digits of either case, and anything behind them, such as
   * an extension. The size is the value of the digits, cut off at the greatest 64-bit number; a minus sign wraps
   * it around.
   */
  lemma SizeIsTheNumber(blanks: string, sign: string, s: string, digits: seq<nat>, rest: string)
    requires AllBlank(blanks) && (sign == "" || sign == "+" || sign == "-") && HexSpells(s, digits) && s != ""
    requires rest != "" ==> !IsHexChar(rest[0]) && rest[0] != 'x' && rest[0] != 'X'
    ensures var n := Numeral(digits, 16);
            Strtoul(blanks + (sign + (s + rest)))
            == Some(if n > 18446744073709551615 then 18446744073709551615
                    else if sign == "-" && n > 0 then 18446744073709551616 - n else n)
  {
    HexValueIs(s, digits);
    DigitsBehindSign(blanks, sign, s, rest);
  }

  /** With `0x` in front it is the same number. */
  lemma PrefixedSize(s: string, digits: seq<nat>, rest: string)
    requires HexSpells(s, digits) && s != "" && (rest != "" ==> !IsHexChar(rest[0]))
    ensures var n := Numeral(digits, 16);
            Strtoul("0x" + (s + rest)) == Some(if n > 18446744073709551615 then 18446744073709551615 else n)
  {
    HexValueIs(s, digits);
    assert s[0] in s;
    HexRunOf(s, rest);
    var t := "0x" + (s + rest);
    assert t[2..] == s + rest && t[2] == s[0] && t[0] == '0' && t[1] == 'x';
  }

  /** A line that begins with neither digits, blanks nor a sign has no size. */
  lemma NoSize(line: string)
    requires line != "" ==> !IsHexChar(line[0]) && !(line[0] as int == 32 || 9 <= line[0] as int <= 13)
                            && line[0] != '+' && line[0] != '-'
    ensures Strtoul(line).None?
  {
  }

  /** `from_i_to_hex` puts each digit in front of those it has. */
  method FromIToHex(n: nat) returns (ret: string)
    ensures ret == Hex(n)
  {
    var left := n / 16;
    ret := [HexChar(n % 16)];
    while left > 0
      invariant Hex(n) == (if left > 0 then Hex(left) else "") + ret
    {
      ret := [HexChar(left % 16)] + ret;
      left := left / 16;
    }
  }

  // ---------------------------------------------------------------------------------------------
  // Writing
  // ---------------------------------------------------------------------------------------------

  type Field = (string, string)

  /** What a content provider does when it is asked for data. */
  datatype Call = Write(d: string) | Done(trailer: seq<Field>)

  function Chunk(d: string): string {
    if d == "" then "" else Hex(|d|) + "\r\n" + d + "\r\n"
  }

  function FieldLine(f: Field): string {
    f.0 + ": " + f.1 + "\r\n"
  }

  function FieldLines(fields: seq<Field>): string {
    if fields == [] then "" else FieldLine(fields[0]) + FieldLines(fields[1..])
  }

  function Terminator(trailer: seq<Field>): string {
    "0\r\n" + (FieldLines(trailer) + "\r\n")
  }

  /** What one answer of the provider puts on the wire. */
  function Piece(c: Call): string {
    match c
    case Done(trailer) => Terminator(trailer)
    case Write(d) => Chunk(d)
  }

  /** Whether the provider is asked again: it is neither done nor without data. */
  predicate More(c: Call) {
    c.Write? && c.d != ""
  }

  function Emitted(calls: seq<Call>): string {
    if calls == [] then "" else Piece(calls[0]) + if More(calls[0]) then Emitted(calls[1..]) else ""
  }

  function Body(calls: seq<Call>): string {
    if calls == [] || !More(calls[0]) then "" else calls[0].d + Body(calls[1..])
  }

  /** Does the loop end by itself? */
  predicate Stops(calls: seq<Call>) {
    calls != [] && (!More(calls[0]) || Stops(calls[1..]))
  }

  /** Is `done` called before an empty write? */
  predicate Finished(calls: seq<Call>) {
    calls != [] && if More(calls[0]) then Finished(calls[1..]) else calls[0].Done?
  }

  class ChunkedSink {
    var out: string
    var offset: nat
    var dataAvailable: bool

    constructor ()
      ensures out == "" && offset == 0 && dataAvailable
    {
      out, offset, dataAvailable := "", 0, true;
    }

    method Write(d: string)
      modifies this
      ensures out == old(out) + Chunk(d) && offset == old(offset) + |d| && dataAvailable == (d != "")
    {
      dataAvailable := |d| > 0;
      offset := offset + |d|;
      if d != "" {
        var size := FromIToHex(|d|);
        var chunk := size + "\r\n" + d + "\r\n";
        out := out + chunk;
      }
    }

    method WriteFields(trailer: seq<Field>)
      modifies this`out
      ensures out == old(out) + FieldLines(trailer)
    {
      assert trailer[0..] == trailer;
      for i := 0 to |trailer|
        invariant out + FieldLines(trailer[i..]) == old(out) + FieldLines(trailer)
      {
        FieldLinesFrom(trailer, i, out);
        var line := trailer[i].0 + ": " + trailer[i].1 + "\r\n";
        out := out + line;
      }
    }

    method DoneWithTrailer(trailer: seq<Field>)
      modifies this
      ensures out == old(out) + Terminator(trailer) && offset == old(offset) && !dataAvailable
    {
      dataAvailable := false;
      out := out + "0\r\n";
      WriteFields(trailer);
      out := out + "\r\n";
      assert old(out) + Terminator(trailer) == old(out) + "0\r\n" + FieldLines(trailer) + "\r\n";
    }

    method Answer(c: Call)
      modifies this
      ensures out == old(out) + Piece(c) && dataAvailable == More(c)
      ensures offset == old(offset) + if c.Write? then |c.d| else 0
    {
      match c {
        case Write(d) => Write(d);
        case Done(trailer) => DoneWithTrailer(trailer);
      }
    }

    /** Asks the provider until no data is available; `success` is false when it has no more answers. */
    method WriteContentChunked(calls: seq<Call>) returns (success: bool)
      requires dataAvailable
      modifies this
      ensures success == Stops(calls)
      ensures out == old(out) + Emitted(calls) && offset == old(offset) + |Body(calls)|
    {
      var i := 0;
      assert calls[0..] == calls;
      while dataAvailable
        invariant 0 <= i <= |calls|
        invariant Stops(calls) == (dataAvailable ==> Stops(calls[i..]))
        invariant old(out) + Emitted(calls) == out + if dataAvailable then Emitted(calls[i..]) else ""
        invariant old(offset) + |Body(calls)| == offset + if dataAvailable then |Body(calls[i..])| else 0
        decreases |calls| - i
      {
        if i == |calls| {
          return false;
        }
        EmittedFrom(calls, i, out);
        Answer(calls[i]);
        i := i + 1;
      }
      return true;
    }
  }

  /** On the wire: a write is its size in hexadecimal, its data and two line ends, in front of what follows. */
  lemma EmittedWrite(d: string, calls: seq<Call>)
    requires d != ""
    ensures Emitted([Write(d)] + calls) == Hex(|d|) + "\r\n" + d + "\r\n" + Emitted(calls)
  {
    var all := [Write(d)] + calls;
    assert all[0] == Write(d) && all[1..] == calls;
  }

  /** The end is a zero, the trailer fields and an empty line, whatever would follow. */
  lemma EmittedDone(trailer: seq<Field>, calls: seq<Call>)
    ensures Emitted([Done(trailer)] + calls) == "0\r\n" + (FieldLines(trailer) + "\r\n")
    ensures FieldLines([]) == ""
  {
    var all := [Done(trailer)] + calls;
    assert all[0] == Done(trailer);
    assert Terminator(trailer) + "" == Terminator(trailer);
  }

  lemma TrailerField(f: Field, more: seq<Field>)
    ensures FieldLines([f] + more) == f.0 + ": " + f.1 + "\r\n" + FieldLines(more)
  {
    assert ([f] + more)[1..] == more;
  }

  lemma {:induction false} FieldLinesFrom(fields: seq<Field>, i: nat, out: string)
    requires i < |fields|
    ensures out + FieldLines(fields[i..]) == out + FieldLine(fields[i]) + FieldLines(fields[i + 1..])
  {
    assert fields[i..][0] == fields[i] && fields[i..][1..] == fields[i + 1..];
  }

  lemma {:induction false} EmittedFrom(calls: seq<Call>, i: nat, out: string)
    requires i < |calls|
    ensures Stops(calls[i..]) == (More(calls[i]) ==> Stops(calls[i + 1..]))
    ensures out + Emitted(calls[i..]) == out + Piece(calls[i]) + if More(calls[i]) then Emitted(calls[i + 1..]) else ""
    ensures |Body(calls[i..])| == if More(calls[i]) then |calls[i].d| + |Body(calls[i + 1..])| else 0
  {
    assert calls[i..][0] == calls[i] && calls[i..][1..] == calls[i + 1..];
  }

  // ---------------------------------------------------------------------------------------------
  // Reading
  // ---------------------------------------------------------------------------------------------

  /** Up to and including the newline. */
  function Line(input: string): string {
    var n := TextFormats.Find(input, '\n');
    if n < |input| then input[..n + 1] else input
  }

  function AfterLine(input: string): (r: string)
    ensures input != "" ==> |r| < |input|
  {
    input[|Line(input)|..]
  }

  /** Whether reading succeeds, the bytes handed to the receiver, and the bytes not read. */
  datatype Outcome = Outcome(ok: bool, body: string, rest: string)

  function ReadTrailer(input: string): Outcome
    decreases |input|
  {
    if input == "" then Outcome(false, "", "")
    else if Line(input) == "\r\n" then Outcome(true, "", AfterLine(input))
    else if |Line(input)| > HEADER_MAX_LENGTH then Outcome(false, "", AfterLine(input))
    else ReadTrailer(AfterLine(input))
  }

  function Prefixed(body: string, o: Outcome): Outcome {
    Outcome(o.ok, body + o.body, o.rest)
  }

  function ReadChunks(input: string): Outcome
    decreases |input|, 2
  {
    if input == "" then Outcome(false, "", "") else
      var size, rest := Strtoul(Line(input)), AfterLine(input);
      if size.None? || size.value == ULONG_MAX then Outcome(false, "", rest)
      else if size.value == 0 then ReadTrailer(rest)
      else ReadData(size.value, rest)
  }

  function ReadData(n: nat, input: string): Outcome
    decreases |input|, 1
  {
    if |input| < n then Outcome(false, input, "") else Prefixed(input[..n], ReadAfterData(input[n..]))
  }

  /** Behind the data of a chunk: the line has to be empty. */
  function ReadAfterData(input: string): Outcome
    decreases |input|, 0
  {
    if input == "" then Outcome(false, "", "")
    else if Line(input) != "\r\n" then Outcome(false, "", AfterLine(input))
    else ReadChunks(AfterLine(input))
  }

  // ---------------------------------------------------------------------------------------------
  // Round trips
  // ---------------------------------------------------------------------------------------------

  lemma LineIs(line: string, rest: string)
    requires '\n' !in line
    ensures Line(line + "\n" + rest) == line + "\n" && AfterLine(line + "\n" + rest) == rest
  {
    TextFormats.FindIs(line + "\n" + rest, '\n', |line|);
    assert (line + "\n" + rest)[..|line| + 1] == line + "\n";
  }

  lemma CrlfLineIs(line: string, rest: string)
    requires '\n' !in line
    ensures Line(line + "\r\n" + rest) == line + "\r\n" && AfterLine(line + "\r\n" + rest) == rest
  {
    LineIs(line + "\r", rest);
    assert line + "\r" + "\n" == line + "\r\n";
  }

  lemma SizeLine(n: nat, rest: string)
    requires n <= ULONG_MAX
    ensures var input := Hex(n) + "\r\n" + rest;
            input != "" && Strtoul(Line(input)) == Some(n) && AfterLine(input) == rest
  {
    HexRoundTrip(n);
    CrlfLineIs(Hex(n), rest);
    SizeReadsBack(n);
  }

  lemma DataReadsBack(d: string, rest: string)
    ensures ReadData(|d|, d + ("\r\n" + rest)) == Prefixed(d, ReadChunks(rest))
  {
    var input := d + ("\r\n" + rest);
    assert input[..|d|] == d && input[|d|..] == "\r\n" + rest;
    CrlfLineIs("", rest);
    assert "" + "\r\n" == "\r\n";
  }

  lemma SizeIsRead(n: nat, rest: string)
    requires 0 < n < ULONG_MAX
    ensures ReadChunks(Hex(n) + "\r\n" + rest) == ReadData(n, rest)
  {
    SizeLine(n, rest);
  }

  /** Reading one chunk delivers its data and goes on right behind it. */
  lemma ChunkReadsBack(d: string, rest: string)
    requires 0 < |d| < ULONG_MAX
    ensures ReadChunks(Chunk(d) + rest) == Prefixed(d, ReadChunks(rest))
  {
    var behind := d + ("\r\n" + rest);
    assert Chunk(d) + rest == Hex(|d|) + "\r\n" + behind;
    SizeIsRead(|d|, behind);
    DataReadsBack(d, rest);
  }

  predicate CleanFields(fields: seq<Field>) {
    fields == [] || ('\n' !in fields[0].0 && '\n' !in fields[0].1 && CleanFields(fields[1..]))
  }

  predicate ShortFields(fields: seq<Field>) {
    fields == [] || (|FieldLine(fields[0])| <= HEADER_MAX_LENGTH && ShortFields(fields[1..]))
  }

  function TrailerRead(fields: seq<Field>, tail: string): Outcome {
    ReadTrailer(FieldLines(fields) + "\r\n" + tail)
  }

  /** A trailer of fields without newlines is accepted exactly when no line of it is too long. */
  lemma {:induction false} TrailerReadsBackIff(fields: seq<Field>, tail: string)
    requires CleanFields(fields)
    ensures TrailerRead(fields, tail).ok <==> ShortFields(fields)
    ensures ShortFields(fields) ==> TrailerRead(fields, tail) == Outcome(true, "", tail)
  {
    if fields == [] {
      EmptyTrailer(tail);
    } else {
      TrailerReadsBackIff(fields[1..], tail);
      FirstField(fields, tail);
    }
  }

  lemma EmptyTrailer(tail: string)
    ensures TrailerRead([], tail) == Outcome(true, "", tail)
  {
    CrlfLineIs("", tail);
    assert "" + "\r\n" == "\r\n";
  }

  lemma {:induction false} FirstField(fields: seq<Field>, tail: string)
    requires fields != [] && CleanFields(fields)
    ensures |FieldLine(fields[0])| <= HEADER_MAX_LENGTH ==> TrailerRead(fields, tail) == TrailerRead(fields[1..], tail)
    ensures |FieldLine(fields[0])| > HEADER_MAX_LENGTH ==> !TrailerRead(fields, tail).ok
  {
    var rest := FieldLines(fields[1..]) + "\r\n" + tail;
    FieldReadsBack(fields[0], rest);
    assert FieldLines(fields) + "\r\n" + tail == FieldLine(fields[0]) + rest;
  }

  lemma FieldReadsBack(f: Field, rest: string)
    requires '\n' !in f.0 && '\n' !in f.1
    ensures |FieldLine(f)| <= HEADER_MAX_LENGTH ==> ReadTrailer(FieldLine(f) + rest) == ReadTrailer(rest)
    ensures |FieldLine(f)| > HEADER_MAX_LENGTH ==> !ReadTrailer(FieldLine(f) + rest).ok
  {
    FieldLineIs(f, rest);
  }

  lemma FieldLineIs(f: Field, rest: string)
    requires '\n' !in f.0 && '\n' !in f.1
    ensures var input := FieldLine(f) + rest;
            input != "" && Line(input) == FieldLine(f) != "\r\n" && AfterLine(input) == rest
  {
    CrlfLineIs(f.0 + ": " + f.1, rest);
  }

  ghost predicate GoodTrailer(c: Call) {
    c.Done? ==> CleanFields(c.trailer) && ShortFields(c.trailer)
  }

  ghost predicate GoodSizes(calls: seq<Call>) {
    forall c :: c in calls ==> GoodTrailer(c) && (c.Write? ==> |c.d| < ULONG_MAX)
  }

  lemma TerminatorReadsBack(trailer: seq<Field>, tail: string)
    requires GoodTrailer(Done(trailer))
    ensures ReadChunks(Terminator(trailer) + tail) == Outcome(true, "", tail)
  {
    var rest := FieldLines(trailer) + "\r\n" + tail;
    assert Hex(0) == "0";
    assert Terminator(trailer) + tail == Hex(0) + "\r\n" + rest;
    SizeLine(0, rest);
    TrailerReadsBackIff(trailer, tail);
  }

  /** Everything written up to `done` arrives, and reading stops exactly behind the terminator. */
  lemma {:induction false} EmittedReadsBack(calls: seq<Call>, tail: string)
    requires Finished(calls) && GoodSizes(calls)
    ensures ReadChunks(Emitted(calls) + tail) == Outcome(true, Body(calls), tail)
  {
    var c := calls[0];
    assert c in calls;
    if More(c) {
      var rest := Emitted(calls[1..]);
      EmittedReadsBack(calls[1..], tail);
      ChunkReadsBack(c.d, rest + tail);
      assert Chunk(c.d) + rest + tail == Chunk(c.d) + (rest + tail);
    } else {
      TerminatorReadsBack(c.trailer, tail);
      assert Emitted(calls) == Terminator(c.trailer) + "" == Terminator(c.trailer);
    }
  }

  /** What has been written can be read as a whole exactly when `done` came before any empty write. */
  lemma {:induction false} ReadableIff(calls: seq<Call>)
    requires GoodSizes(calls)
    ensures ReadChunks(Emitted(calls)).ok <==> Finished(calls)
  {
    if calls != [] {
      var c := calls[0];
      assert c in calls;
      if More(c) {
        ReadableIff(calls[1..]);
        ChunkReadsBack(c.d, Emitted(calls[1..]));
      } else if c.Done? {
        TerminatorReadsBack(c.trailer, "");
      }
    }
  }

  /** An empty write ends the loop with success, and the reader never sees the end. */
  lemma EmptyWriteLosesTheEnd(calls: seq<Call>, trailer: seq<Field>)
    requires GoodSizes(calls) && !Stops(calls) && GoodTrailer(Done(trailer))
    ensures Stops(calls + [Write(""), Done(trailer)])
    ensures !ReadChunks(Emitted(calls + [Write(""), Done(trailer)])).ok
  {
    var all := calls + [Write(""), Done(trailer)];
    EmptyWriteStops(calls, [Write(""), Done(trailer)]);
    ReadableIff(all);
  }

  lemma {:induction false} EmptyWriteStops(calls: seq<Call>, more: seq<Call>)
    requires !Stops(calls) && more != [] && more[0] == Write("")
    ensures Stops(calls + more) && !Finished(calls + more)
  {
    if calls != [] {
      EmptyWriteStops(calls[1..], more);
      assert (calls + more)[1..] == calls[1..] + more;
    } else {
      assert calls + more == more;
    }
  }

  // ---------------------------------------------------------------------------------------------
  // Reading what anybody has written
  // ---------------------------------------------------------------------------------------------

  /** The data of a chunk is delivered, and reading goes on if an empty line follows it. */
  lemma DataIsRead(n: nat, input: string)
    requires |input| >= n
    ensures |input| >= n + 2 && input[n..n + 2] == "\r\n" ==> ReadData(n, input) == Prefixed(input[..n], ReadChunks(input[n + 2..]))
    ensures !(|input| >= n + 2 && input[n..n + 2] == "\r\n") ==> !ReadData(n, input).ok && ReadData(n, input).body == input[..n]
  {
    var behind := input[n..];
    EmptyLineIff(behind);
    if |input| >= n + 2 {
      assert behind[..2] == input[n..n + 2] && behind[2..] == input[n + 2..];
    }
    assert input[..n] + "" == input[..n];
  }

  lemma SizeLineIsRead(line: string, n: nat, input: string)
    requires '\n' !in line && Strtoul(line + "\n") == Some(n) && 0 < n < 18446744073709551615
    ensures ReadChunks(line + "\n" + input) == ReadData(n, input)
  {
    LineIs(line, input);
  }

  /**
   * A chunk behind any size line: its data is delivered and reading goes on, if an empty line follows it; without
   * one, or with too few bytes, reading fails.
   */
  lemma ChunkIsRead(line: string, n: nat, input: string)
    requires '\n' !in line && Strtoul(line + "\n") == Some(n) && 0 < n < 18446744073709551615
    ensures var o := ReadChunks(line + "\n" + input);
            if |input| < n then o == Outcome(false, input, "")
            else if |input| >= n + 2 && input[n..n + 2] == "\r\n" then o == Prefixed(input[..n], ReadChunks(input[n + 2..]))
            else !o.ok && o.body == input[..n]
  {
    SizeLineIsRead(line, n, input);
    if |input| >= n {
      DataIsRead(n, input);
    }
  }

  lemma EmptyLineIff(input: string)
    ensures input != "" && Line(input) == "\r\n" <==> |input| >= 2 && input[..2] == "\r\n"
    ensures |input| >= 2 && input[..2] == "\r\n" ==> AfterLine(input) == input[2..]
  {
    if |input| >= 2 && input[..2] == "\r\n" {
      assert input[0] == input[..2][0] && input[1] == input[..2][1];
      TextFormats.FindIs(input, '\n', 1);
    }
    if Line(input) == "\r\n" {
      assert input[..2] == Line(input);
    }
  }

  /** A size line without a number, or with the greatest one, ends reading without success; so does the end of input. */
  lemma BadSizeFails(line: string, input: string)
    requires '\n' !in line && (Strtoul(line + "\n").None? || Strtoul(line + "\n") == Some(18446744073709551615))
    ensures !ReadChunks(line + "\n" + input).ok && ReadChunks(line + "\n" + input).body == ""
    ensures !ReadChunks("").ok
  {
    LineIs(line, input);
  }

  /**
   * The size 0 ends the body. What follows are lines of at most 8192 bytes, with their newline, up to the first
   * empty one; a longer line or none at all fails.
   */
  lemma TrailerIsRead(line: string, input: string)
    requires '\n' !in line && line != "\r"
    ensures ReadTrailer("\r\n" + input) == Outcome(true, "", input)
    ensures |line| + 1 <= 8192 ==> ReadTrailer(line + "\n" + input) == ReadTrailer(input)
    ensures |line| + 1 > 8192 ==> !ReadTrailer(line + "\n" + input).ok
    ensures !ReadTrailer("").ok
  {
    LineIs(line, input);
    CrlfLineIs("", input);
    assert "" + "\r\n" == "\r\n";
    assert (line + "\n")[..|line|] == line && "\r\n"[..1] == "\r";
  }

  lemma ZeroEndsTheBody(line: string, input: string)
    requires '\n' !in line && Strtoul(line + "\n") == Some(0)
    ensures ReadChunks(line + "\n" + input) == ReadTrailer(input)
  {
    LineIs(line, input);
  }

  // ---------------------------------------------------------------------------------------------
  // The reader
  // ---------------------------------------------------------------------------------------------

  /** A connection whose peer has sent `input` and closed. A read may return fewer bytes than asked for. */
  class Socket {
    var input: string
    var pos: nat

    ghost predicate Valid()
      reads this
    {
      pos <= |input|
    }

    ghost function Rest(): string
      reads this
      requires Valid()
    {
      input[pos..]
    }

    method Read(max: nat) returns (got: string)
      requires Valid() && max > 0
      modifies this`pos
      ensures Valid() && |got| <= max && old(Rest()) == got + Rest() && (got == "" <==> old(Rest()) == "")
    {
      var n: int := *;
      if n <= 0 || n > max || n > |input| - pos {
        n := if pos < |input| then 1 else 0;
      }
      got := input[pos..pos + n];
      pos := pos + n;
    }
  }

  /** Lines of any length: the first bytes go to a fixed buffer, longer lines move to a growing one. */
  class StreamLineReader {
    const strm: Socket
    const fixedBuffer: array<char>
    var used: nat
    var growable: string

    ghost predicate Valid()
      reads this, fixedBuffer
    {
      && fixedBuffer.Length >= 2 && used < fixedBuffer.Length
      && (used > 0 ==> fixedBuffer[used] == '\0')
      && (growable != "" ==> used == fixedBuffer.Length - 1)
    }

    constructor (strm: Socket, bufsiz: nat)
      requires bufsiz >= 2
      ensures Valid() && this.strm == strm && fresh(fixedBuffer) && Contents() == ""
    {
      this.strm := strm;
      fixedBuffer := new char[bufsiz](_ => ' ');
      used, growable := 0, "";
    }

    function Contents(): string
      reads this, fixedBuffer
      requires Valid()
    {
      if growable == "" then fixedBuffer[..used] else growable
    }

    method Append(c: char)
      requires Valid()
      modifies this, fixedBuffer
      ensures Valid() && Contents() == old(Contents()) + [c]
    {
      if used < fixedBuffer.Length - 1 {
        fixedBuffer[used] := c;
        used := used + 1;
        fixedBuffer[used] := '\0';
        assert fixedBuffer[..used] == old(fixedBuffer[..used]) + [c];
      } else {
        if growable == "" {
          assert fixedBuffer[used] == '\0';
          growable := fixedBuffer[..used];
        }
        growable := growable + [c];
      }
    }

    /** Moves one byte from the connection to the line. */
    method TakeByte() returns (got: string)
      requires Valid() && strm.Valid()
      modifies this, fixedBuffer, strm`pos
      ensures Valid() && strm.Valid() && |got| <= 1 && (got == "" <==> old(strm.Rest()) == "")
      ensures old(strm.Rest()) == got + strm.Rest() && Contents() == old(Contents()) + got
    {
      got := strm.Read(1);
      if got != "" {
        Append(got[0]);
        assert got == [got[0]];
      }
    }

    method GetLine() returns (ok: bool)
      requires Valid() && strm.Valid()
      modifies this, fixedBuffer, strm`pos
      ensures Valid() && strm.Valid() && ok == (old(strm.Rest()) != "")
      ensures ok ==> Contents() == Line(old(strm.Rest())) && strm.Rest() == AfterLine(old(strm.Rest()))
      ensures !ok ==> strm.Rest() == ""
    {
      used, growable := 0, "";
      ghost var input := strm.Rest();
      var byte := "";
      while byte != "\n"
        invariant Valid() && strm.Valid() && |byte| <= 1
        invariant input == Contents() + strm.Rest()
        invariant if byte == "\n" then EndsInNewline(Contents()) else '\n' !in Contents()
        decreases |strm.Rest()|, byte != "\n"
      {
        ghost var before, rest := Contents(), strm.Rest();
        byte := TakeByte();
        OneMoreByte(before, byte, rest, strm.Rest());
        if byte == "" {
          WholeInputIsLine(Contents());
          return Contents() != "";
        }
      }
      NewlineEndsLine(Contents(), strm.Rest());
      return true;
    }
  }

  ghost predicate EndsInNewline(line: string) {
    line != "" && line[|line| - 1] == '\n' && '\n' !in line[..|line| - 1]
  }

  lemma OneMoreByte(before: string, byte: string, rest: string, rest': string)
    requires '\n' !in before && |byte| <= 1 && rest == byte + rest'
    ensures before + rest == before + byte + rest'
    ensures if byte == "\n" then EndsInNewline(before + byte) else '\n' !in before + byte
  {
    assert byte == "\n" ==> (before + byte)[..|before + byte| - 1] == before;
    assert byte != "\n" ==> '\n' !in byte;
  }

  lemma NewlineEndsLine(line: string, rest: string)
    requires EndsInNewline(line)
    ensures Line(line + rest) == line && AfterLine(line + rest) == rest
  {
    var front := line[..|line| - 1];
    assert line == front + "\n";
    LineIs(front, rest);
  }

  lemma WholeInputIsLine(input: string)
    requires '\n' !in input
    ensures Line(input) == input && AfterLine(input) == ""
  {
    TextFormats.FindIs(input, '\n', |input|);
  }

  const RECV_BUFSIZ: nat := 4096

  /** `read_content_with_length`: reads block by block and hands over whatever arrives. */
  method ReadContentWithLength(strm: Socket, len: nat, body: string) returns (ok: bool, body': string)
    requires strm.Valid()
    modifies strm`pos
    ensures strm.Valid() && ok == (len <= |old(strm.Rest())|)
    ensures var n := Min(len, |old(strm.Rest())|);
            body' == body + old(strm.Rest())[..n] && strm.Rest() == old(strm.Rest())[n..]
  {
    body' := body;
    ghost var input := strm.Rest();
    var r := 0;
    while r < len
      invariant strm.Valid() && 0 <= r <= len && r <= |input|
      invariant body' == body + input[..r] && strm.Rest() == input[r..]
    {
      var buf := strm.Read(Min(len - r, RECV_BUFSIZ));
      if buf == "" {
        return false, body';
      }
      assert input[r..][..|buf|] == buf && input[r..][|buf|..] == input[r + |buf|..];
      assert input[..r + |buf|] == input[..r] + buf;
      body' := body' + buf;
      r := r + |buf|;
    }
    return true, body';
  }

  lemma PrefixedTwice(body: string, data: string, o: Outcome)
    ensures Prefixed(body, Prefixed(data, o)) == Prefixed(body + data, o)
  {
  }

  /** The data of one chunk and the empty line behind it. */
  method ReadOneChunk(reader: StreamLineReader, n: nat, body: string) returns (ok: bool, body': string)
    requires reader.Valid() && reader.strm.Valid()
    modifies reader, reader.fixedBuffer, reader.strm`pos
    ensures reader.Valid() && reader.strm.Valid() && (ok ==> |reader.strm.Rest()| < |old(reader.strm.Rest())|)
    ensures Prefixed(body, ReadData(n, old(reader.strm.Rest())))
         == if ok then Prefixed(body', ReadChunks(reader.strm.Rest())) else Outcome(false, body', reader.strm.Rest())
  {
    ghost var input := reader.strm.Rest();
    ok, body' := ReadContentWithLength(reader.strm, n, body);
    if !ok {
      assert input[..|input|] == input;
      return false, body';
    }
    ghost var behind := reader.strm.Rest();
    PrefixedTwice(body, input[..n], ReadAfterData(behind));
    ok := reader.GetLine();
    if !ok || reader.Contents() != "\r\n" {
      assert body' + "" == body';
      return false, body';
    }
  }

  method ReadContentChunked(strm: Socket) returns (ok: bool, body: string)
    requires strm.Valid()
    modifies strm`pos
    ensures strm.Valid() && Outcome(ok, body, strm.Rest()) == ReadChunks(old(strm.Rest()))
  {
    body := "";
    var reader := new StreamLineReader(strm, 16);
    ghost var at := strm.Rest();
    ok := reader.GetLine();
    while ok
      invariant strm.Valid() && reader.Valid() && reader.strm == strm && fresh(reader) && fresh(reader.fixedBuffer)
      invariant ok == (at != "")
      invariant ok ==> reader.Contents() == Line(at) && strm.Rest() == AfterLine(at)
      invariant !ok ==> strm.Rest() == ""
      invariant Prefixed(body, ReadChunks(at)) == ReadChunks(old(strm.Rest()))
      decreases |at|
    {
      var size := Strtoul(reader.Contents());
      assert body + "" == body;
      if size.None? || size.value == ULONG_MAX {
        return false, body;
      }
      if size.value == 0 {
        TrailerHasNoBody(strm.Rest());
        ok := ReadTrailerLines(reader);
        return ok, body;
      }
      ok, body := ReadOneChunk(reader, size.value, body);
      if !ok {
        return false, body;
      }
      at := strm.Rest();
      ok := reader.GetLine();
    }
    assert body + "" == body;
  }

  lemma {:induction false} TrailerHasNoBody(input: string)
    ensures ReadTrailer(input).body == ""
    decreases |input|
  {
    if input != "" {
      TrailerHasNoBody(AfterLine(input));
    }
  }

  method ReadTrailerLines(reader: StreamLineReader) returns (ok: bool)
    requires reader.Valid() && reader.strm.Valid()
    modifies reader, reader.fixedBuffer, reader.strm`pos
    ensures reader.strm.Valid() && Outcome(ok, "", reader.strm.Rest()) == ReadTrailer(old(reader.strm.Rest()))
  {
    ghost var at := reader.strm.Rest();
    ok := reader.GetLine();
    while ok && reader.Contents() != "\r\n"
      invariant reader.Valid() && reader.strm.Valid() && ok == (at != "")
      invariant ok ==> reader.Contents() == Line(at) && reader.strm.Rest() == AfterLine(at)
      invariant !ok ==> reader.strm.Rest() == ""
      invariant ReadTrailer(at) == ReadTrailer(old(reader.strm.Rest()))
      decreases |at|
    {
      if |reader.Contents()| > HEADER_MAX_LENGTH {
        return false;
      }
      at := reader.strm.Rest();
      ok := reader.GetLine();
    }
  }
}
