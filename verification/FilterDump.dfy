/** The text in which the filter index is saved, `field|value|bitmap` line by line, and what loading makes of it. */
module FilterDump {
  import opened Documents
  import opened IntFieldFilter
  import opened TextFormats
  import opened KeyOrder

  /** CRoaring's portable serialization, used only through its inverse. */
  datatype BitmapCodec = BitmapCodec(ser: Bitmap -> string, deser: string -> Bitmap)

  ghost predicate Faithful(c: BitmapCodec) {
    forall b :: (forall x :: x in b ==> Narrow(x)) ==> c.deser(c.ser(b)) == b
  }

  /** The bitmaps of a filter survive the library. */
  ghost predicate Survives(filter: Filter, c: BitmapCodec) {
    forall f, v :: f in filter && v in filter[f] ==> c.deser(c.ser(filter[f][v])) == filter[f][v]
  }

  lemma ShapedSurvives(filter: Filter, c: BitmapCodec)
    requires Faithful(c) && Shaped(filter)
    ensures Survives(filter, c)
  {
    forall f, v | f in filter && v in filter[f] ensures c.deser(c.ser(filter[f][v])) == filter[f][v] {
      assert Bits(filter, f, v) == filter[f][v];
      assert forall x :: x in filter[f][v] ==> Narrow(x);
    }
  }

  datatype Saved = Saved(field: string, value: int, blob: string)

  function SavedLine(r: Saved): string {
    r.field + "|" + (Signed(r.value) + "|" + r.blob)
  }

  function DumpText(rs: seq<Saved>): string {
    if rs == [] then "" else SavedLine(rs[0]) + "\n" + DumpText(rs[1..])
  }

  lemma {:induction false} DumpSnoc(rs: seq<Saved>, r: Saved)
    ensures DumpText(rs + [r]) == DumpText(rs) + (SavedLine(r) + "\n")
  {
    var last := SavedLine(r) + "\n";
    if rs != [] {
      DumpSnoc(rs[1..], r);
      assert (rs + [r])[1..] == rs[1..] + [r];
      var first, middle := SavedLine(rs[0]) + "\n", DumpText(rs[1..]);
      assert first + (middle + last) == first + middle + last;
    } else {
      assert rs + [r] == [r];
      assert last + DumpText([r][1..]) == "" + last;
    }
  }

  /** A bitmap on file: field, bar, number, bar, bytes and a newline. */
  lemma OneRecordText(field: string, value: int, blob: string)
    ensures DumpText([Saved(field, value, blob)]) == field + "|" + (if value < 0 then "-" + Decimal(-value) else Decimal(value)) + "|" + blob + "\n"
  {
    var r := Saved(field, value, blob);
    assert [r][1..] == [];
    assert DumpText([r]) == SavedLine(r) + "\n" + "" == SavedLine(r) + "\n";
  }

  /** One line of the dump; `None` when the value does not parse. The bitmap is all the rest of the line. */
  function ParseLine(line: string): Option<Saved> {
    var (field, s1) := Token(Stream(line, false), "", '|');
    var (valueText, s2) := Token(s1, "", '|');
    match Stol(valueText)
    case None => None
    case Some(value) => Some(Saved(field, value, s2.rest))
  }

  /** Any line: the field up to the first bar, the number up to the second, and all the rest, bars included. */
  lemma LineIsParsed(field: string, number: string, blob: string)
    requires '|' !in field && '|' !in number
    ensures ParseLine(field + "|" + (number + "|" + blob))
         == if Stol(number).None? then None else Some(Saved(field, Stol(number).value, blob))
  {
    TokenFront(field, number + "|" + blob, "");
    TokenFront(number, blob, "");
  }

  /** The lines up to the end of the text, or up to the first that does not parse, and which of the two it was. */
  function ParseDump(text: string): (seq<Saved>, bool)
    decreases |text|
  {
    if text == "" then ([], true) else
      var line := ParseLine(Line(text));
      if line.None? then ([], false) else
        var (others, ok) := ParseDump(AfterLine(text));
        ([line.value] + others, ok)
  }

  // ---------------------------------------------------------------------------------------------
  // Lines read back
  // ---------------------------------------------------------------------------------------------

  predicate CleanField(field: string) {
    '|' !in field && '\n' !in field
  }

  predicate CleanRecord(r: Saved) {
    CleanField(r.field) && '\n' !in r.blob
  }

  lemma ParseCleanField(field: string, value: int, blob: string)
    requires '|' !in field && IsLong(value)
    ensures ParseLine(SavedLine(Saved(field, value, blob))) == Some(Saved(field, value, blob))
  {
    NumbersHoldNoDelimiter(0, value, '|');
    TokenFront(field, Signed(value) + "|" + blob, "");
    TokenFront(Signed(value), blob, "");
    SignedReadsBack(value);
  }

  function Head(r: Saved): string {
    r.field + "|" + (Signed(r.value) + "|")
  }

  lemma HeadAndBlob(r: Saved, blob: string)
    ensures SavedLine(r.(blob := blob)) == Head(r) + blob
  {
  }

  lemma LineOfRecord(r: Saved, rest: string)
    requires '\n' !in r.field
    ensures Line(SavedLine(r) + "\n" + rest) == SavedLine(r.(blob := Line(r.blob)))
    ensures '\n' !in r.blob ==> AfterLine(SavedLine(r) + "\n" + rest) == rest
  {
    NumbersHoldNoDelimiter(0, r.value, '\n');
    HeadAndBlob(r, r.blob);
    HeadAndBlob(r, Line(r.blob));
    LineOfConcat(Head(r), r.blob, rest);
  }

  lemma DirtyPrefixIsCut(field: string, behind: string)
    requires !CleanField(field)
    ensures |UpTo(Line(field + behind), '|')| < |field|
  {
    UpToOfConcat(field, behind, '\n');
    if '\n' !in field {
      UpToOfConcat(field, UpTo(behind, '\n'), '|');
    }
  }

  /** A field name that holds a delimiter is read short. */
  lemma DirtyFieldIsShort(r: Saved, rest: string)
    requires !CleanField(r.field)
    ensures var line := ParseLine(Line(SavedLine(r) + "\n" + rest)); line.Some? ==> line.value.field != r.field
  {
    var behind := "|" + (Signed(r.value) + "|" + r.blob) + "\n" + rest;
    assert SavedLine(r) + "\n" + rest == r.field + behind;
    DirtyPrefixIsCut(r.field, behind);
    FieldIsUpToBar(Line(r.field + behind));
  }

  lemma FieldIsUpToBar(line: string)
    ensures ParseLine(line).Some? ==> ParseLine(line).value.field == UpTo(line, '|')
  {
    UpToAll(line, '|');
  }

  /** The first record of a dump reads back exactly when it is clean, and then reading goes on behind it. */
  lemma FirstRecord(r: Saved, rest: string)
    requires IsLong(r.value)
    ensures ParseLine(Line(SavedLine(r) + "\n" + rest)) == Some(r) <==> CleanRecord(r)
    ensures CleanRecord(r) ==> AfterLine(SavedLine(r) + "\n" + rest) == rest
  {
    if CleanField(r.field) {
      LineOfRecord(r, rest);
      ParseCleanField(r.field, r.value, Line(r.blob));
      UpToAll(r.blob, '\n');
    } else {
      DirtyFieldIsShort(r, rest);
    }
  }

  lemma ParseDumpStep(r: Saved, rest: string)
    ensures var text := SavedLine(r) + "\n" + rest;
            var line := ParseLine(Line(text));
            ParseDump(text) == if line.None? then ([], false)
                               else ([line.value] + ParseDump(AfterLine(text)).0, ParseDump(AfterLine(text)).1)
  {
  }

  /** The dump reads back as it was written exactly when every field name and every bitmap is clean. */
  lemma {:induction false} DumpReadsBackIff(rs: seq<Saved>)
    requires forall r :: r in rs ==> IsLong(r.value)
    ensures ParseDump(DumpText(rs)) == (rs, true) <==> forall r :: r in rs ==> CleanRecord(r)
  {
    if rs != [] {
      var r, rest := rs[0], DumpText(rs[1..]);
      assert r in rs && rs == [r] + rs[1..];
      FirstRecord(r, rest);
      ParseDumpStep(r, rest);
      DumpReadsBackIff(rs[1..]);
      var parsed := ParseDump(DumpText(rs)).0;
      assert parsed == rs ==> parsed[0] == r && parsed[1..] == rs[1..];
    }
  }

  // ---------------------------------------------------------------------------------------------
  // The index
  // ---------------------------------------------------------------------------------------------

  function Install(filter: Filter, r: Saved, c: BitmapCodec): Filter {
    filter[r.field := ValuesOf(filter, r.field)[r.value := c.deser(r.blob)]]
  }

  function InstallAll(filter: Filter, rs: seq<Saved>, c: BitmapCodec): Filter {
    if rs == [] then filter else Install(InstallAll(filter, rs[..|rs| - 1], c), rs[|rs| - 1], c)
  }

  /** `r` is one of the filter's bitmaps. */
  predicate IsOf(r: Saved, filter: Filter, c: BitmapCodec) {
    r.field in filter && r.value in filter[r.field] && r.blob == c.ser(filter[r.field][r.value])
  }

  /** The records of a filter, in any order. */
  ghost predicate Enumerates(rs: seq<Saved>, filter: Filter, c: BitmapCodec) {
    && (forall r :: r in rs ==> IsOf(r, filter, c))
    && (forall f, v :: f in filter && v in filter[f] ==> Saved(f, v, c.ser(filter[f][v])) in rs)
  }

  /** The text of such an enumeration. */
  ghost predicate IsDumpOf(text: string, filter: Filter, c: BitmapCodec) {
    exists rs :: Enumerates(rs, filter, c) && text == DumpText(rs)
  }

  /** The order in which the original's maps are gone through. */
  predicate Before(a: Saved, b: Saved) {
    Less(a.field, b.field) || (a.field == b.field && a.value < b.value)
  }

  ghost predicate Ordered(rs: seq<Saved>) {
    forall i, j :: 0 <= i < j < |rs| ==> Before(rs[i], rs[j])
  }

  ghost predicate IsOrderedDumpOf(text: string, filter: Filter, c: BitmapCodec) {
    exists rs :: Enumerates(rs, filter, c) && Ordered(rs) && text == DumpText(rs)
  }

  /** A filter has one dump in this order. */
  lemma OrderedDumpIsUnique(filter: Filter, c: BitmapCodec, text: string, other: string)
    requires IsOrderedDumpOf(text, filter, c) && IsOrderedDumpOf(other, filter, c)
    ensures text == other
  {
    var rs :| Enumerates(rs, filter, c) && Ordered(rs) && text == DumpText(rs);
    var os :| Enumerates(os, filter, c) && Ordered(os) && other == DumpText(os);
    assert forall r :: IsOf(r, filter, c) ==> r == Saved(r.field, r.value, c.ser(filter[r.field][r.value]));
    assert forall r :: r in rs <==> IsOf(r, filter, c);
    assert forall r :: r in os <==> IsOf(r, filter, c);
    SortedIsUnique(rs, os);
  }

  lemma NotBoth(a: Saved, b: Saved)
    ensures !(Before(a, b) && Before(b, a))
  {
    LeqTotal(a.field, b.field);
  }

  lemma {:induction false} SortedIsUnique(rs: seq<Saved>, os: seq<Saved>)
    requires Ordered(rs) && Ordered(os) && forall r :: r in rs <==> r in os
    ensures rs == os
    decreases |rs|
  {
    if rs == [] {
      assert forall i :: 0 <= i < |os| ==> os[i] in os;
    } else {
      SameHead(rs, os);
      forall r ensures r in rs[1..] <==> r in os[1..] {
        InTail(rs, r);
        InTail(os, r);
      }
      SortedIsUnique(rs[1..], os[1..]);
      assert rs == [rs[0]] + rs[1..] && os == [os[0]] + os[1..];
    }
  }

  lemma SameHead(rs: seq<Saved>, os: seq<Saved>)
    requires Ordered(rs) && Ordered(os) && rs != [] && forall r :: r in rs <==> r in os
    ensures os != [] && os[0] == rs[0]
  {
    assert rs[0] in os && os[0] in rs;
    var i :| 0 <= i < |os| && os[i] == rs[0];
    var j :| 0 <= j < |rs| && rs[j] == os[0];
    NotBoth(rs[0], os[0]);
  }

  lemma InTail(rs: seq<Saved>, r: Saved)
    requires Ordered(rs) && rs != []
    ensures r in rs[1..] <==> r in rs && r != rs[0]
  {
    if r in rs[1..] {
      var i :| 0 <= i < |rs[1..]| && rs[1..][i] == r;
      assert rs[i + 1] == r;
      NotBoth(rs[0], r);
    }
    if r in rs && r != rs[0] {
      var i :| 0 <= i < |rs| && rs[i] == r;
      assert rs[1..][i - 1] == r;
    }
  }

  /** No field name and no serialized bitmap of the filter gets in the way of the format. */
  ghost predicate CleanFilter(filter: Filter, c: BitmapCodec) {
    forall f, v :: f in filter && v in filter[f] ==> CleanField(f) && '\n' !in c.ser(filter[f][v])
  }

  /** `part` agrees with `whole` wherever it says something, and says something about each of its fields. */
  ghost predicate PartOf(part: Filter, whole: Filter) {
    && NoEmptyField(part)
    && (forall f :: f in part ==> f in whole)
    && (forall f, v :: f in part && v in part[f] ==> v in whole[f] && part[f][v] == whole[f][v])
  }

  ghost predicate Covers(part: Filter, rs: seq<Saved>) {
    forall r :: r in rs ==> r.field in part && r.value in part[r.field]
  }

  lemma {:induction false} InstalledIsPart(rs: seq<Saved>, filter: Filter, c: BitmapCodec)
    requires Survives(filter, c) && forall r :: r in rs ==> IsOf(r, filter, c)
    ensures PartOf(InstallAll(map[], rs, c), filter) && Covers(InstallAll(map[], rs, c), rs)
    decreases |rs|
  {
    if rs != [] {
      var front, r := rs[..|rs| - 1], rs[|rs| - 1];
      InstalledIsPart(front, filter, c);
      assert r in rs && rs == front + [r];
      InstallKeepsPart(InstallAll(map[], front, c), r, filter, c);
    }
  }

  lemma InstallKeepsPart(part: Filter, r: Saved, filter: Filter, c: BitmapCodec)
    requires Survives(filter, c) && PartOf(part, filter) && IsOf(r, filter, c)
    ensures PartOf(Install(part, r, c), filter)
    ensures forall f, v :: f in part && v in part[f] ==> f in Install(part, r, c) && v in Install(part, r, c)[f]
    ensures r.field in Install(part, r, c) && r.value in Install(part, r, c)[r.field]
  {
    assert c.deser(r.blob) == filter[r.field][r.value];
    assert r.value in Install(part, r, c)[r.field];
  }

  lemma RecordsAreClean(filter: Filter, rs: seq<Saved>, c: BitmapCodec)
    requires Shaped(filter) && CleanFilter(filter, c) && Enumerates(rs, filter, c)
    ensures forall r :: r in rs ==> IsLong(r.value) && CleanRecord(r)
  {
    forall r | r in rs ensures IsLong(r.value) && CleanRecord(r) {
      assert IsOf(r, filter, c) && IsInt(r.value);
    }
  }

  lemma AllInstalled(filter: Filter, rs: seq<Saved>, c: BitmapCodec)
    requires Survives(filter, c) && NoEmptyField(filter) && Enumerates(rs, filter, c)
    ensures InstallAll(map[], rs, c) == filter
  {
    InstalledIsPart(rs, filter, c);
    var loaded := InstallAll(map[], rs, c);
    forall f | f in filter ensures f in loaded && loaded[f] == filter[f] {
      AllLoaded(filter, rs, c, f);
    }
  }

  /** Loading a dump into an empty index; `None` when an exception escapes. */
  function LoadFilter(text: string, c: BitmapCodec): Option<Filter> {
    if ParseDump(text).1 then Some(InstallAll(map[], ParseDump(text).0, c)) else None
  }

  /** What saving a clean index writes, in whatever order, loads into an empty one as the same index. */
  lemma DumpLoadsBack(filter: Filter, text: string, c: BitmapCodec)
    requires Faithful(c) && Shaped(filter) && CleanFilter(filter, c) && IsDumpOf(text, filter, c)
    ensures LoadFilter(text, c) == Some(filter)
  {
    var rs :| Enumerates(rs, filter, c) && text == DumpText(rs);
    RecordsAreClean(filter, rs, c);
    DumpReadsBackIff(rs);
    ShapedSurvives(filter, c);
    AllInstalled(filter, rs, c);
  }

  lemma AllLoaded(filter: Filter, rs: seq<Saved>, c: BitmapCodec, f: string)
    requires Enumerates(rs, filter, c) && NoEmptyField(filter) && f in filter
    requires PartOf(InstallAll(map[], rs, c), filter) && Covers(InstallAll(map[], rs, c), rs)
    ensures f in InstallAll(map[], rs, c) && InstallAll(map[], rs, c)[f] == filter[f]
  {
    var loaded := InstallAll(map[], rs, c);
    var v0 :| v0 in filter[f];
    assert Saved(f, v0, c.ser(filter[f][v0])) in rs;
    forall v ensures v in filter[f] <==> v in loaded[f] {
      if v in filter[f] {
        assert Saved(f, v, c.ser(filter[f][v])) in rs;
      }
    }
    assert loaded[f].Keys == filter[f].Keys;
    assert forall v :: v in filter[f] ==> loaded[f][v] == filter[f][v];
  }

  // ---------------------------------------------------------------------------------------------
  // Indexes that do not load
  // ---------------------------------------------------------------------------------------------

  /** Whole lines, whatever is in them, do not change how the lines behind them are read. */
  lemma {:induction false} ParseDumpConcat(x: string, rest: string)
    requires x == "" || x[|x| - 1] == '\n'
    ensures ParseDump(x + rest).1 <==> ParseDump(x).1 && ParseDump(rest).1
    decreases |x|
  {
    if x == "" {
      assert x + rest == rest;
    } else {
      LineInFront(x, rest);
      ParseDumpConcat(AfterLine(x), rest);
    }
  }

  lemma {:induction false} LineInFront(x: string, rest: string)
    requires x != "" && x[|x| - 1] == '\n'
    ensures Line(x + rest) == Line(x) && AfterLine(x + rest) == AfterLine(x) + rest
    ensures AfterLine(x) == "" || AfterLine(x)[|AfterLine(x)| - 1] == '\n'
  {
    var i := Find(x, '\n');
    FindIs(x + rest, '\n', i);
    assert (x + rest)[..i] == x[..i] && (x + rest)[i + 1..] == x[i + 1..] + rest;
  }

  lemma {:induction false} DumpEndsInNewline(rs: seq<Saved>)
    ensures rs != [] ==> DumpText(rs) != "" && DumpText(rs)[|DumpText(rs)| - 1] == '\n'
  {
    if |rs| > 1 {
      DumpEndsInNewline(rs[1..]);
      var first, others := SavedLine(rs[0]) + "\n", DumpText(rs[1..]);
      assert DumpText(rs) == first + others && (first + others)[|first + others| - 1] == others[|others| - 1];
    }
  }

  lemma {:induction false} DumpCons(r: Saved, rs: seq<Saved>)
    ensures DumpText([r] + rs) == SavedLine(r) + "\n" + DumpText(rs)
  {
    assert ([r] + rs)[1..] == rs;
  }

  lemma {:induction false} DumpConcat(a: seq<Saved>, b: seq<Saved>)
    ensures DumpText(a + b) == DumpText(a) + DumpText(b)
  {
    if a == [] {
      assert a + b == b && "" + DumpText(b) == DumpText(b);
    } else {
      DumpConcat(a[1..], b);
      DumpConsConcat(a[0], a[1..], b);
      Uncons(a, b);
    }
  }

  lemma Uncons(a: seq<Saved>, b: seq<Saved>)
    requires a != []
    ensures a == [a[0]] + a[1..] && a + b == [a[0]] + (a[1..] + b)
  {
  }

  lemma {:induction false} DumpConsConcat(r: Saved, a: seq<Saved>, b: seq<Saved>)
    requires DumpText(a + b) == DumpText(a) + DumpText(b)
    ensures DumpText([r] + (a + b)) == DumpText([r] + a) + DumpText(b)
  {
    DumpCons(r, a + b);
    DumpCons(r, a);
    Regroup(SavedLine(r) + "\n", DumpText(a), DumpText(b));
  }

  lemma Regroup(x: string, y: string, z: string)
    ensures x + (y + z) == x + y + z
  {
  }

  /** The line of a record is followed by text that does not parse: the rest of its own bitmap, say. */
  lemma BrokenRecordThrows(r: Saved, front: string, back: string, rest: string)
    requires CleanField(r.field) && IsLong(r.value) && r.blob == front + "\n" + back
    requires '\n' !in front && '\n' !in back && ParseLine(back).None?
    ensures !ParseDump(SavedLine(r) + "\n" + rest).1
  {
    var r', tail := r.(blob := front), back + "\n" + rest;
    HeadAndBlob(r, r.blob);
    HeadAndBlob(r, front);
    assert SavedLine(r) + "\n" + rest == SavedLine(r') + "\n" + tail;
    FirstRecord(r', tail);
    ParseDumpStep(r', tail);
    LineOf(back, rest);
  }

  /**
   * A newline inside one bitmap stops the load of every index that holds it, unless the bytes behind it look like
   * a record, whatever stands before and behind it.
   */
  lemma NewlineInBitmapThrows(filter: Filter, c: BitmapCodec, field: string, value: int, front: string, back: string, text: string)
    requires field in filter && value in filter[field] && CleanField(field) && IsLong(value)
    requires c.ser(filter[field][value]) == front + "\n" + back
    requires '\n' !in front && '\n' !in back && ParseLine(back).None?
    requires IsDumpOf(text, filter, c)
    ensures LoadFilter(text, c).None?
  {
    var rs :| Enumerates(rs, filter, c) && text == DumpText(rs);
    var r := Saved(field, value, c.ser(filter[field][value]));
    var i :| 0 <= i < |rs| && rs[i] == r;
    assert rs == rs[..i] + rs[i..] && rs[i..][0] == r;
    DumpConcat(rs[..i], rs[i..]);
    DumpEndsInNewline(rs[..i]);
    ParseDumpConcat(DumpText(rs[..i]), DumpText(rs[i..]));
    BrokenRecordThrows(r, front, back, DumpText(rs[i..][1..]));
  }

  /** The portable form of the bitmap {10}: it ends in its only id, a newline and a zero byte. */
  const FRONT_OF_TEN := ":0\0\0\U{1}\0\0\0\0\0\0\0\U{10}\0\0\0"
  const PORTABLE_TEN := FRONT_OF_TEN + "\n" + "\0"

  /** No index in which the id 10 is alone in a bitmap loads. */
  lemma IdTenStopsTheLoad(filter: Filter, c: BitmapCodec, field: string, value: int, text: string)
    requires field in filter && value in filter[field] && CleanField(field) && IsLong(value)
    requires filter[field][value] == {10} && c.ser({10}) == PORTABLE_TEN
    requires IsDumpOf(text, filter, c)
    ensures LoadFilter(text, c).None?
  {
    NoValueInNul();
    NoNewlineInFront();
    NewlineInBitmapThrows(filter, c, field, value, FRONT_OF_TEN, "\0", text);
  }

  lemma NoNewlineInFront()
    ensures '\n' !in FRONT_OF_TEN
  {
  }

  lemma NoValueInNul()
    ensures ParseLine("\0").None?
  {
    FindIs("\0", '|', 1);
    assert Stol("").None?;
  }

  // ---------------------------------------------------------------------------------------------
  // Saving and loading
  // ---------------------------------------------------------------------------------------------

  lemma Element<T>(s: set<T>) returns (x: T)
    requires s != {}
    ensures x in s
  {
    x :| x in s;
  }

  lemma {:induction false} LeastField(fields: set<string>) returns (least: string)
    requires fields != {}
    ensures least in fields && forall f :: f in fields ==> f == least || Less(least, f)
    decreases |fields|
  {
    least := Element(fields);
    if fields != {least} {
      assert fields - {least} != {};
      var other := LeastField(fields - {least});
      LeqTotal(other, least);
      if Less(other, least) {
        least := other;
      } else {
        forall f | f in fields && f != least ensures Less(least, f) {
          assert f in fields - {least};
          if Leq(f, least) {
            LeqTransitive(f, least, other);
            LeqTotal(f, other);
            LeqTotal(f, least);
          }
        }
      }
    }
  }

  lemma {:induction false} LeastValue(values: set<int>) returns (least: int)
    requires values != {}
    ensures least in values && forall v :: v in values ==> least <= v
    decreases |values|
  {
    least := Element(values);
    if values != {least} {
      assert values - {least} != {};
      var other := LeastValue(values - {least});
      forall v | v in values ensures other <= v || least == v {
        assert v in values - {least} || v == least;
      }
      least := if other < least then other else least;
    }
  }

  /** Writes one record for each bitmap, field by field and value by value, in the order of the maps. */
  method SerializeIntFieldFilter(index: FilterIndex, c: BitmapCodec) returns (text: string)
    ensures IsDumpOf(text, index.intFieldFilter, c)
    ensures IsOrderedDumpOf(text, index.intFieldFilter, c)
  {
    text := "";
    ghost var rs: seq<Saved> := [];
    var filter := index.intFieldFilter;
    var fields := filter.Keys;
    while fields != {}
      invariant fields <= filter.Keys && text == DumpText(rs)
      invariant forall r :: r in rs ==> IsOf(r, filter, c)
      invariant forall f, v :: f in filter && f !in fields && v in filter[f] ==> Saved(f, v, c.ser(filter[f][v])) in rs
      invariant Ordered(rs) && forall r, f :: r in rs && f in fields ==> Less(r.field, f)
      decreases |fields|
    {
      ghost var first := LeastField(fields);
      var field :| field in fields && forall f :: f in fields ==> f == field || Less(field, f);
      ghost var more;
      text, more := SerializeField(filter, text, rs, field, c);
      OrderedConcat(rs, more);
      rs := rs + more;
      fields := fields - {field};
    }
    assert Enumerates(rs, filter, c);
  }

  lemma OrderedConcat(rs: seq<Saved>, more: seq<Saved>)
    requires Ordered(rs) && Ordered(more) && forall r, m :: r in rs && m in more ==> Before(r, m)
    ensures Ordered(rs + more)
  {
    forall i, j | 0 <= i < j < |rs + more| ensures Before((rs + more)[i], (rs + more)[j]) {
      if i < |rs| <= j {
        assert rs[i] in rs && more[j - |rs|] in more;
      }
    }
  }

  /** The records of one field for the values before those in `todo`. */
  ghost predicate SavedBefore(more: seq<Saved>, values: ValueMap, todo: set<int>, field: string, c: BitmapCodec) {
    && todo <= values.Keys && Ordered(more)
    && (forall r :: r in more ==> r.value in values && r == Saved(field, r.value, c.ser(values[r.value])))
    && (forall v :: v in values && v !in todo ==> Saved(field, v, c.ser(values[v])) in more)
    && (forall r, v :: r in more && v in todo ==> r.value < v)
  }

  lemma SaveNext(more: seq<Saved>, values: ValueMap, todo: set<int>, field: string, c: BitmapCodec, value: int)
    requires SavedBefore(more, values, todo, field, c)
    requires value in todo && forall v :: v in todo ==> value <= v
    ensures SavedBefore(more + [Saved(field, value, c.ser(values[value]))], values, todo - {value}, field, c)
  {
    var r := Saved(field, value, c.ser(values[value]));
    assert forall m :: m in more ==> Before(m, r);
    OrderedConcat(more, [r]);
    assert r in more + [r];
  }

  lemma DumpOneMore(rs: seq<Saved>, more: seq<Saved>, r: Saved)
    ensures DumpText(rs + (more + [r])) == DumpText(rs + more) + (SavedLine(r) + "\n")
  {
    DumpSnoc(rs + more, r);
    assert rs + more + [r] == rs + (more + [r]);
  }

  method SerializeField(filter: Filter, text: string, ghost rs: seq<Saved>, field: string, c: BitmapCodec)
    returns (text': string, ghost more: seq<Saved>)
    requires field in filter && text == DumpText(rs)
    ensures text' == DumpText(rs + more)
    ensures SavedBefore(more, filter[field], {}, field, c)
  {
    var values := filter[field];
    text', more := text, [];
    assert rs + more == rs;
    var todo := values.Keys;
    while todo != {}
      invariant text' == DumpText(rs + more)
      invariant SavedBefore(more, values, todo, field, c)
      decreases |todo|
    {
      ghost var first := LeastValue(todo);
      var value :| value in todo && forall v :: v in todo ==> value <= v;
      var r := Saved(field, value, c.ser(values[value]));
      text' := text' + (SavedLine(r) + "\n");
      DumpOneMore(rs, more, r);
      SaveNext(more, values, todo, field, c, value);
      more := more + [r];
      todo := todo - {value};
    }
  }

  /** Installs record after record; `ok` is false when a number does not parse and the exception escapes. */
  method DeserializeIntFieldFilter(index: FilterIndex, text: string, c: BitmapCodec) returns (ok: bool)
    modifies index
    ensures ok == ParseDump(text).1
    ensures index.intFieldFilter == InstallAll(old(index.intFieldFilter), ParseDump(text).0, c)
  {
    var rest := text;
    ghost var done: seq<Saved> := [];
    assert [] + ParseDump(text).0 == ParseDump(text).0;
    while rest != ""
      invariant index.intFieldFilter == InstallAll(old(index.intFieldFilter), done, c)
      invariant ParseDump(text) == Prepended(done, ParseDump(rest))
      decreases |rest|
    {
      ParseDumpFrom(done, rest);
      var line := ParseLine(Line(rest));
      if line.None? {
        return false;
      }
      var r, filter := line.value, index.intFieldFilter;
      index.intFieldFilter := filter[r.field := ValuesOf(filter, r.field)[r.value := c.deser(r.blob)]];
      InstallSnoc(old(index.intFieldFilter), done, r, c);
      done := done + [r];
      rest := AfterLine(rest);
    }
    assert done + [] == done;
    return true;
  }

  function Prepended(rs: seq<Saved>, parsed: (seq<Saved>, bool)): (seq<Saved>, bool) {
    (rs + parsed.0, parsed.1)
  }

  lemma ParseDumpFrom(done: seq<Saved>, rest: string)
    requires rest != ""
    ensures var line := ParseLine(Line(rest));
            Prepended(done, ParseDump(rest)) == if line.None? then (done, false)
                                               else Prepended(done + [line.value], ParseDump(AfterLine(rest)))
  {
    assert done + [] == done;
    var line := ParseLine(Line(rest));
    if line.Some? {
      var others := ParseDump(AfterLine(rest)).0;
      assert done + ([line.value] + others) == done + [line.value] + others;
    }
  }

  lemma InstallSnoc(filter: Filter, rs: seq<Saved>, r: Saved, c: BitmapCodec)
    ensures InstallAll(filter, rs + [r], c) == Install(InstallAll(filter, rs, c), r, c)
  {
    assert (rs + [r])[..|rs|] == rs;
  }
}
