/** `split`, `trim`, `params_to_query_str` and `parse_query_text`. */
module QueryString {
  import opened PercentCoding
  import KeyOrder
  import TextFormats

  predicate Blank(c: Byte) { c == ' ' || c == '\t' }

  // ---------------------------------------------------------------------------------------------
  // Trimming
  // ---------------------------------------------------------------------------------------------

  function TrimLeft(s: Text): Text {
    if s != [] && Blank(s[0]) then TrimLeft(s[1..]) else s
  }

  function TrimRight(s: Text): Text {
    if s != [] && Blank(s[|s| - 1]) then TrimRight(s[..|s| - 1]) else s
  }

  function Trimmed(s: Text): Text {
    TrimRight(TrimLeft(s))
  }

  lemma {:induction false} TrimLeftIs(s: Text, l: nat)
    requires l <= |s| && (forall j :: 0 <= j < l ==> Blank(s[j])) && (l < |s| ==> !Blank(s[l]))
    ensures TrimLeft(s) == s[l..]
    decreases l
  {
    if l > 0 {
      TrimLeftIs(s[1..], l - 1);
      assert s[1..][l - 1..] == s[l..];
    }
  }

  lemma {:induction false} TrimRightIs(s: Text, r: nat)
    requires r <= |s| && (forall j :: r <= j < |s| ==> Blank(s[j])) && (r > 0 ==> !Blank(s[r - 1]))
    ensures TrimRight(s) == s[..r]
    decreases |s| - r
  {
    if r < |s| {
      TrimRightIs(s[..|s| - 1], r);
      assert s[..|s| - 1][..r] == s[..r];
    } else {
      assert s[..r] == s;
    }
  }

  /** Text without a blank at either end is trimmed already. */
  lemma TrimmedIsSame(s: Text)
    requires s != [] ==> !Blank(s[0]) && !Blank(s[|s| - 1])
    ensures Trimmed(s) == s
  {
  }

  lemma {:induction false} TrimmedBlanks(s: Text)
    requires forall j :: 0 <= j < |s| ==> Blank(s[j])
    ensures Trimmed(s) == []
  {
    TrimLeftIs(s, |s|);
  }

  lemma {:induction false} TrimmedWithin(t: Text, l: nat, r: nat)
    requires l < r <= |t| && !Blank(t[l]) && !Blank(t[r - 1])
    requires (forall j :: 0 <= j < l ==> Blank(t[j])) && (forall j :: r <= j < |t| ==> Blank(t[j]))
    ensures Trimmed(t) == t[l..r]
  {
    TrimLeftIs(t, l);
    TrimRightIs(t[l..], r - l);
    assert t[l..][..r - l] == t[l..r];
  }

  lemma SliceOfSlice(s: Text, from: nat, to: nat, l: nat, r: nat)
    requires from <= l <= r <= to <= |s|
    ensures s[from..to][l - from..r - from] == s[l..r]
  {
    var a, b := s[from..to][l - from..r - from], s[l..r];
    assert |a| == |b|;
    forall k | 0 <= k < |a| ensures a[k] == b[k] {
      assert a[k] == s[from..to][l - from + k];
    }
  }

  /**
   * What `trim` finds by index is the trimmed text, or nothing when left and right pass each other. Behind a
   * text of blanks only, the left index may run on.
   */
  lemma TrimmedIs(s: Text, from: nat, to: nat, l: nat, r: nat)
    requires from <= to <= |s| && from <= l <= |s| && r <= to
    requires forall j :: from <= j < l ==> Blank(s[j])
    requires forall j :: r <= j < to ==> Blank(s[j])
    requires l < |s| ==> !Blank(s[l])
    requires r > 0 ==> !Blank(s[r - 1])
    ensures Trimmed(s[from..to]) == if l < r then s[l..r] else []
  {
    var t := s[from..to];
    if l < r {
      assert r > from;
      TrimmedWithin(t, l - from, r - from);
      SliceOfSlice(s, from, to, l, r);
    } else {
      assert forall j :: 0 <= j < |t| ==> t[j] == s[from + j];
      TrimmedBlanks(t);
    }
  }

  method Trim(s: Text, left: nat, right: nat) returns (l: nat, r: nat)
    requires left <= right <= |s|
    ensures l < r ==> r <= |s|
    ensures Trimmed(s[left..right]) == if l < r then s[l..r] else []
  {
    l, r := left, right;
    while l < |s| && Blank(s[l])
      invariant left <= l <= |s| && forall j :: left <= j < l ==> Blank(s[j])
    {
      l := l + 1;
    }
    while r > 0 && Blank(s[r - 1])
      invariant r <= right && forall j :: r <= j < right ==> Blank(s[j])
    {
      r := r - 1;
    }
    TrimmedIs(s, left, right, l, r);
  }

  // ---------------------------------------------------------------------------------------------
  // Splitting
  // ---------------------------------------------------------------------------------------------

  function Nonempty(t: Text): seq<Text> {
    if t == [] then [] else [t]
  }

  /** The trimmed, non-empty pieces between the delimiters. */
  function Pieces(s: Text, d: Byte): seq<Text>
    decreases |s|
  {
    var i := TextFormats.Find(s, d);
    Nonempty(Trimmed(s[..i])) + if i < |s| then Pieces(s[i + 1..], d) else []
  }

  lemma {:induction false} PiecesOf(first: Text, rest: Text, d: Byte)
    requires d !in first && Trimmed(first) == first && first != []
    ensures Pieces(first, d) == [first]
    ensures Pieces(first + [d] + rest, d) == [first] + Pieces(rest, d)
  {
    TextFormats.FindIs(first, d, |first|);
    assert first[..|first|] == first;
    var s := first + [d] + rest;
    TextFormats.FindIs(s, d, |first|);
    assert s[..|first|] == first && s[|first| + 1..] == rest;
  }

  lemma {:induction false} PiecesAt(s: Text, d: Byte, beg: nat, i: nat)
    requires beg <= i <= |s| && (forall j :: beg <= j < i ==> s[j] != d) && (i < |s| ==> s[i] == d)
    ensures Pieces(s[beg..], d) == Nonempty(Trimmed(s[beg..i])) + if i < |s| then Pieces(s[i + 1..], d) else []
  {
    TextFormats.FindIs(s[beg..], d, i - beg);
    assert s[beg..][..i - beg] == s[beg..i];
    assert i < |s| ==> s[beg..][i - beg + 1..] == s[i + 1..];
  }

  lemma NoPieces(d: Byte)
    ensures Pieces([], d) == []
  {
  }

  ghost predicate NoneBetween(s: Text, d: Byte, beg: nat, i: nat) {
    beg <= i <= |s| && forall j :: beg <= j < i ==> s[j] != d
  }

  lemma {:induction false} PiecesFrom(s: Text, d: Byte, beg: nat, i: nat, pieces: seq<Text>)
    requires NoneBetween(s, d, beg, i) && (i < |s| ==> s[i] == d)
    ensures pieces + Pieces(s[beg..], d)
         == pieces + Nonempty(Trimmed(s[beg..i])) + if i < |s| then Pieces(s[i + 1..], d) else []
  {
    PiecesAt(s, d, beg, i);
  }

  /** Trims one piece and hands it over unless nothing is left. */
  method Deliver(s: Text, beg: nat, i: nat, pieces: seq<Text>) returns (pieces': seq<Text>)
    requires beg <= i <= |s|
    ensures pieces' == pieces + Nonempty(Trimmed(s[beg..i]))
  {
    pieces' := pieces;
    var l, r := Trim(s, beg, i);
    if l < r {
      pieces' := pieces' + [s[l..r]];
    }
  }

  method Split(s: Text, d: Byte) returns (pieces: seq<Text>)
    ensures pieces == Pieces(s, d)
  {
    pieces := [];
    var i, beg := 0, 0;
    assert s[0..] == s;
    while i < |s|
      invariant 0 <= beg && NoneBetween(s, d, beg, i)
      invariant pieces + Pieces(s[beg..], d) == Pieces(s, d)
    {
      if s[i] == d {
        PiecesFrom(s, d, beg, i, pieces);
        pieces := Deliver(s, beg, i, pieces);
        beg := i + 1;
      }
      i := i + 1;
    }
    PiecesFrom(s, d, beg, i, pieces);
    if i > 0 {
      pieces := Deliver(s, beg, i, pieces);
    }
  }

  // ---------------------------------------------------------------------------------------------
  // Parameters
  // ---------------------------------------------------------------------------------------------

  type Param = (Text, Text)

  /** A `std::multimap` in iteration order. */
  type Params = seq<Param>

  ghost predicate Ordered(p: Params) {
    forall i, j :: 0 <= i < j < |p| ==> KeyOrder.Leq(p[i].0, p[j].0)
  }

  /** `emplace` puts a pair behind all pairs with the same key. */
  function Emplaced(p: Params, x: Param): Params {
    if p == [] || KeyOrder.Leq(p[|p| - 1].0, x.0) then p + [x]
    else Emplaced(p[..|p| - 1], x) + [p[|p| - 1]]
  }

  /** One parameter in a query string: the key goes in as it is. */
  function Item(x: Param): Text {
    x.0 + ['='] + Encoded(x.1)
  }

  function Joined(p: Params): Text {
    if p == [] then [] else if |p| == 1 then Item(p[0]) else Item(p[0]) + ['&'] + Joined(p[1..])
  }

  function Items(p: Params): seq<Text> {
    seq(|p|, (i: nat) requires i < |p| => Item(p[i]))
  }

  /** The raw key and value of one piece: the first part, and the last of the others. */
  function KeyValue(kv: Text): (Text, Text) {
    var parts := Pieces(kv, '=');
    (if parts == [] then [] else parts[0], if |parts| > 1 then parts[|parts| - 1] else [])
  }

  /** A piece seen before is ignored, and so is one without a key. */
  function ParsedPieces(pieces: seq<Text>, seen: set<Text>, p: Params): Params
    decreases |pieces|
  {
    if pieces == [] then p
    else if pieces[0] in seen then ParsedPieces(pieces[1..], seen, p)
    else
      var (key, val) := KeyValue(pieces[0]);
      var p' := if key == [] then p else Emplaced(p, (Decoded(key, true), Decoded(val, true)));
      ParsedPieces(pieces[1..], seen + {pieces[0]}, p')
  }

  function Parsed(s: Text): Params {
    ParsedPieces(Pieces(s, '&'), {}, [])
  }

  /** Keys are written without encoding, so they have to survive splitting, trimming and decoding. */
  predicate KeyOk(k: Text) {
    k != [] && '&' !in k && '=' !in k && Trimmed(k) == k && Decoded(k, true) == k
  }

  /** Plain keys do: none of the four special characters, no blank at either end. */
  lemma PlainKeyIsOk(k: Text)
    requires k != [] && '&' !in k && '=' !in k && '%' !in k && '+' !in k && !Blank(k[0]) && !Blank(k[|k| - 1])
    ensures KeyOk(k)
  {
    DecodePlain(k, true);
    TrimmedIsSame(k);
  }

  /** Every pair once, at its first place. */
  function Distinct(p: Params): Params {
    if p == [] then []
    else Distinct(p[..|p| - 1]) + if p[|p| - 1] in p[..|p| - 1] then [] else [p[|p| - 1]]
  }

  ghost predicate NoRepeats(p: Params) {
    forall i, j :: 0 <= i < j < |p| ==> p[i] != p[j]
  }

  lemma NoRepeatsSnoc(front: Params, last: Param)
    ensures NoRepeats(front + [last]) <==> NoRepeats(front) && last !in front
  {
    var p := front + [last];
    if NoRepeats(p) {
      assert forall i :: 0 <= i < |front| ==> front[i] == p[i] && p[i] != p[|front|];
      assert forall i, j :: 0 <= i < j < |front| ==> front[i] == p[i] && front[j] == p[j];
    }
  }

  lemma {:induction false} DistinctLength(p: Params)
    ensures |Distinct(p)| <= |p| && (|Distinct(p)| == |p| <==> NoRepeats(p)) && (|Distinct(p)| == |p| ==> Distinct(p) == p)
  {
    if p != [] {
      var front, last := p[..|p| - 1], p[|p| - 1];
      DistinctLength(front);
      NoRepeatsSnoc(front, last);
      assert p == front + [last];
    }
  }

  lemma {:induction false} DistinctSameSet(p: Params, x: Param)
    ensures x in Distinct(p) ==> x in p
  {
    if p != [] {
      DistinctSameSet(p[..|p| - 1], x);
    }
  }

  lemma KeyHasEnds(k: Text)
    requires KeyOk(k)
    ensures !Blank(k[0]) && !Blank(k[|k| - 1])
  {
    TrimLeftShort(k);
    TrimRightShort(TrimLeft(k));
  }

  lemma TrimLeftShort(s: Text)
    ensures |TrimLeft(s)| <= |s| && (s != [] && Blank(s[0]) ==> |TrimLeft(s)| < |s|)
  {
  }

  lemma TrimRightShort(s: Text)
    ensures |TrimRight(s)| <= |s| && (s != [] && Blank(s[|s| - 1]) ==> |TrimRight(s)| < |s|)
  {
  }

  lemma EncodedHasEnds(s: Text)
    ensures var e := Encoded(s); e != [] ==> !Blank(e[0]) && !Blank(e[|e| - 1])
  {
    EncodedIsSafe(s);
  }

  lemma ItemIsOnePiece(x: Param)
    requires KeyOk(x.0)
    ensures Item(x) != [] && '&' !in Item(x) && Trimmed(Item(x)) == Item(x)
  {
    EncodedIsSafe(x.1);
    EncodedHasEnds(x.1);
    KeyHasEnds(x.0);
    var item, e := Item(x), Encoded(x.1);
    assert item[|item| - 1] == if e == [] then '=' else e[|e| - 1];
    TrimmedIsSame(item);
  }

  lemma EncodedIsOnePart(s: Text)
    ensures Pieces(Encoded(s), '=') == Nonempty(Encoded(s))
  {
    var e := Encoded(s);
    if e == [] {
      NoPieces('=');
    } else {
      EncodedIsSafe(s);
      EncodedHasEnds(s);
      TrimmedIsSame(e);
      PiecesOf(e, [], '=');
    }
  }

  lemma ItemSplits(x: Param)
    requires KeyOk(x.0)
    ensures KeyValue(Item(x)) == (x.0, Encoded(x.1))
  {
    PiecesOf(x.0, Encoded(x.1), '=');
    EncodedIsOnePart(x.1);
    assert Pieces(Item(x), '=') == [x.0] + Nonempty(Encoded(x.1));
  }

  lemma ItemIsInjective(x: Param, y: Param)
    requires KeyOk(x.0) && KeyOk(y.0) && Item(x) == Item(y)
    ensures x == y
  {
    ItemSplits(x);
    ItemSplits(y);
    DecodeInvertsEncode(x.1, true);
    DecodeInvertsEncode(y.1, true);
  }

  lemma ItemsStep(p: Params)
    requires p != []
    ensures Items(p) == [Item(p[0])] + Items(p[1..])
  {
  }

  lemma {:induction false} JoinedSplits(p: Params)
    requires forall x :: x in p ==> KeyOk(x.0)
    ensures Pieces(Joined(p), '&') == Items(p)
  {
    if p == [] {
      NoPieces('&');
    } else {
      ItemIsOnePiece(p[0]);
      PiecesOf(Item(p[0]), Joined(p[1..]), '&');
      ItemsStep(p);
      if |p| > 1 {
        JoinedSplits(p[1..]);
      } else {
        assert Items(p[1..]) == [];
      }
    }
  }

  /** The pieces of `p`. */
  ghost function SeenOf(p: Params): set<Text> {
    if p == [] then {} else SeenOf(p[..|p| - 1]) + {Item(p[|p| - 1])}
  }

  lemma {:induction false} SeenIffIn(p: Params, x: Param)
    requires KeyOk(x.0) && forall y :: y in p ==> KeyOk(y.0)
    ensures Item(x) in SeenOf(p) <==> x in p
  {
    if p != [] {
      var front, last := p[..|p| - 1], p[|p| - 1];
      assert last in p && p == front + [last];
      SeenIffIn(front, x);
      if Item(x) == Item(last) {
        ItemIsInjective(x, last);
      }
    }
  }

  lemma EmplaceAtEnd(done: Params, x: Param)
    requires Ordered(done + [x])
    ensures Emplaced(Distinct(done), x) == Distinct(done) + [x]
  {
    var d := Distinct(done);
    if d != [] {
      DistinctSameSet(done, d[|d| - 1]);
      var j :| 0 <= j < |done| && done[j] == d[|d| - 1];
      assert (done + [x])[j] == done[j] && (done + [x])[|done|] == x;
    }
  }

  lemma ParsedStep(pieces: seq<Text>, seen: set<Text>, p: Params, x: Param)
    requires pieces != [] && pieces[0] == Item(x) && KeyOk(x.0)
    ensures ParsedPieces(pieces, seen, p) == if Item(x) in seen then ParsedPieces(pieces[1..], seen, p)
                                             else ParsedPieces(pieces[1..], seen + {Item(x)}, Emplaced(p, x))
  {
    ItemSplits(x);
    DecodeInvertsEncode(x.1, true);
  }

  lemma {:induction false} OneMoreDone(done: Params, x: Param)
    requires KeyOk(x.0) && forall y :: y in done ==> KeyOk(y.0)
    ensures SeenOf(done + [x]) == if x in done then SeenOf(done) else SeenOf(done) + {Item(x)}
    ensures Distinct(done + [x]) == Distinct(done) + if x in done then [] else [x]
  {
    SeenIffIn(done, x);
    assert (done + [x])[..|done|] == done;
  }

  lemma OrderedPrefix(p: Params, n: nat)
    requires Ordered(p) && n <= |p|
    ensures Ordered(p[..n])
  {
  }

  lemma {:induction false} ParsedAfter(done: Params, rest: Params)
    requires Ordered(done + rest) && forall x :: x in done + rest ==> KeyOk(x.0)
    ensures ParsedPieces(Items(rest), SeenOf(done), Distinct(done)) == Distinct(done + rest)
    decreases |rest|
  {
    if rest == [] {
      assert done + rest == done;
    } else {
      var x := rest[0];
      assert done + rest == done + [x] + rest[1..];
      assert x in done + rest;
      ParsedAfter(done + [x], rest[1..]);
      OrderedPrefix(done + rest, |done| + 1);
      assert (done + rest)[..|done| + 1] == done + [x];
      NextPiece(done, x, rest);
    }
  }

  lemma {:induction false} NextPiece(done: Params, x: Param, rest: Params)
    requires rest != [] && rest[0] == x && Ordered(done + [x])
    requires KeyOk(x.0) && forall y :: y in done ==> KeyOk(y.0)
    ensures ParsedPieces(Items(rest), SeenOf(done), Distinct(done))
         == ParsedPieces(Items(rest[1..]), SeenOf(done + [x]), Distinct(done + [x]))
  {
    ItemsStep(rest);
    assert Items(rest)[1..] == Items(rest[1..]);
    ParsedStep(Items(rest), SeenOf(done), Distinct(done), x);
    SeenIffIn(done, x);
    OneMoreDone(done, x);
    EmplaceAtEnd(done, x);
    assert Distinct(done) + [] == Distinct(done);
  }

  /** Writing parameters and parsing them again drops repeated pairs and changes nothing else. */
  lemma ParseInvertsJoin(p: Params)
    requires Ordered(p) && forall x :: x in p ==> KeyOk(x.0)
    ensures Parsed(Joined(p)) == Distinct(p)
    ensures Parsed(Joined(p)) == p <==> NoRepeats(p)
  {
    JoinedSplits(p);
    ParsedAfter([], p);
    assert [] + p == p;
    DistinctLength(p);
  }

  // ---------------------------------------------------------------------------------------------
  // The loops
  // ---------------------------------------------------------------------------------------------

  /** What is still to be written before parameter `i`. */
  function Tail(p: Params, i: nat): Text
    requires i <= |p|
  {
    (if 0 < i < |p| then ['&'] else []) + Joined(p[i..])
  }

  lemma {:induction false} TailStep(p: Params, i: nat)
    requires i < |p|
    ensures Tail(p, i) == (if i > 0 then ['&'] else []) + Item(p[i]) + Tail(p, i + 1)
  {
    assert p[i..][0] == p[i] && p[i..][1..] == p[i + 1..];
    assert i + 1 == |p| ==> p[i + 1..] == [];
  }

  lemma {:induction false} JoinedFrom(p: Params, i: nat, query: Text)
    requires i < |p|
    ensures query + Tail(p, i) == query + ((if i > 0 then ['&'] else []) + Item(p[i])) + Tail(p, i + 1)
  {
    TailStep(p, i);
  }

  method ParamsToQueryStr(p: Params) returns (query: Text)
    ensures query == Joined(p)
  {
    query := [];
    assert p[0..] == p;
    for i := 0 to |p|
      invariant query + Tail(p, i) == Joined(p)
    {
      JoinedFrom(p, i, query);
      query := AppendParam(query, p[i], i > 0);
    }
  }

  method AppendParam(query: Text, x: Param, more: bool) returns (query': Text)
    ensures query' == query + ((if more then ['&'] else []) + Item(x))
  {
    query' := query;
    if more {
      query' := query' + ['&'];
    }
    var e := EncodeQueryParam(x.1);
    query' := query' + x.0;
    query' := query' + ['='];
    query' := query' + e;
  }

  method ParseQueryText(s: Text, p: Params) returns (p': Params)
    ensures p' == ParsedPieces(Pieces(s, '&'), {}, p)
    ensures p == [] ==> p' == Parsed(s)
  {
    p' := p;
    var cache: set<Text> := {};
    var pieces := Split(s, '&');
    assert pieces[0..] == pieces;
    for i := 0 to |pieces|
      invariant ParsedPieces(pieces[i..], cache, p') == ParsedPieces(pieces, {}, p)
    {
      var kv := pieces[i];
      assert pieces[i..][0] == kv && pieces[i..][1..] == pieces[i + 1..];
      if kv !in cache {
        cache := cache + {kv};
        var key, val := SplitKeyValue(kv);
        if key != [] {
          key := DecodeUrl(key, true);
          val := DecodeUrl(val, true);
          p' := Emplaced(p', (key, val));
        }
      }
    }
  }

  /** The first part becomes the key, every later one replaces the value. */
  method SplitKeyValue(kv: Text) returns (key: Text, val: Text)
    ensures (key, val) == KeyValue(kv)
  {
    key, val := [], [];
    var parts := Split(kv, '=');
    PiecesAreNonempty(kv, '=');
    for i := 0 to |parts|
      invariant key == if i == 0 then [] else parts[0]
      invariant val == if i <= 1 then [] else parts[i - 1]
    {
      if key == [] {
        key := parts[i];
      } else {
        val := parts[i];
      }
    }
  }

  lemma {:induction false} PiecesAreNonempty(s: Text, d: Byte)
    ensures forall j :: 0 <= j < |Pieces(s, d)| ==> Pieces(s, d)[j] != []
    decreases |s|
  {
    var i := TextFormats.Find(s, d);
    if i < |s| {
      PiecesAreNonempty(s[i + 1..], d);
    }
  }
}
