/** Which keys survive a query string: keys are written without encoding, values are not. */
module QueryKeys {
  import opened PercentCoding
  import opened QueryString
  import TextFormats

  // ---------------------------------------------------------------------------------------------
  // Nothing grows
  // ---------------------------------------------------------------------------------------------

  lemma {:induction false} DecodedIsNoLonger(t: Text, plusIsSpace: bool)
    ensures |Decoded(t, plusIsSpace)| <= |t|
    decreases |t|
  {
    if t != [] {
      var (bytes, used) := DecodeFront(t, plusIsSpace);
      DecodedIsNoLonger(t[used..], plusIsSpace);
    }
  }

  lemma TrimmedIsNoLonger(s: Text)
    ensures |Trimmed(s)| <= |s| && (|Trimmed(s)| == |s| ==> Trimmed(s) == s)
  {
    TrimLeftIsSuffix(s);
    TrimRightIsPrefix(TrimLeft(s));
  }

  lemma {:induction false} TrimLeftIsSuffix(s: Text)
    ensures |TrimLeft(s)| <= |s| && TrimLeft(s) == s[|s| - |TrimLeft(s)|..]
  {
    if s != [] && Blank(s[0]) {
      var n := |TrimLeft(s[1..])|;
      TrimLeftIsSuffix(s[1..]);
      assert s[1..][|s| - 1 - n..] == s[|s| - n..];
    }
  }

  lemma {:induction false} TrimRightIsPrefix(s: Text)
    ensures |TrimRight(s)| <= |s| && TrimRight(s) == s[..|TrimRight(s)|]
  {
    if s != [] && Blank(s[|s| - 1]) {
      TrimRightIsPrefix(s[..|s| - 1]);
    }
  }

  /** A piece is no longer than the text it was cut from, and shorter if the text held a delimiter. */
  lemma {:induction false} PiecesAreShort(s: Text, d: Byte, t: Text)
    requires t in Pieces(s, d)
    ensures |t| <= |s| && (d in s ==> |t| < |s|)
    decreases |s|
  {
    var i := TextFormats.Find(s, d);
    TrimmedIsNoLonger(s[..i]);
    if i < |s| && t in Pieces(s[i + 1..], d) {
      PiecesAreShort(s[i + 1..], d, t);
    }
  }

  lemma {:induction false} PiecesFirst(x: Text, d: Byte, rest: Text)
    requires d !in x
    ensures Pieces(x + [d] + rest, d) == Nonempty(Trimmed(x)) + Pieces(rest, d)
  {
    var s := x + [d] + rest;
    TextFormats.FindIs(s, d, |x|);
    assert s[..|x|] == x && s[|x| + 1..] == rest;
  }

  lemma FirstDelimiter(a: Text, d: Byte) returns (x: Text, y: Text)
    requires d in a
    ensures a == x + [d] + y && d !in x
  {
    var i := TextFormats.Find(a, d);
    x, y := a[..i], a[i + 1..];
  }

  lemma Regroup(x: Text, d: Text, y: Text, e: Text, b: Text)
    ensures x + d + y + e + b == x + d + (y + e + b)
  {
  }

  lemma RegroupPieces(f: seq<Text>, p: seq<Text>, q: seq<Text>)
    ensures f + (p + q) == f + p + q
  {
  }

  /** Splitting distributes over a delimiter. */
  lemma {:induction false} PiecesConcat(a: Text, d: Byte, b: Text)
    ensures Pieces(a + [d] + b, d) == Pieces(a, d) + Pieces(b, d)
    decreases |a|
  {
    if d in a {
      var x, y := FirstDelimiter(a, d);
      PiecesConcat(y, d, b);
      Regroup(x, [d], y, [d], b);
      PiecesFirst(x, d, y);
      PiecesFirst(x, d, y + [d] + b);
      RegroupPieces(Nonempty(Trimmed(x)), Pieces(y, d), Pieces(b, d));
    } else {
      PiecesFirst(a, d, b);
      PiecesWithoutDelimiter(a, d);
    }
  }

  // ---------------------------------------------------------------------------------------------
  // The pieces of one parameter
  // ---------------------------------------------------------------------------------------------

  lemma {:induction false} TrimLeftBefore(x: Text, rest: Text)
    requires rest != [] && !Blank(rest[0])
    ensures TrimLeft(x + rest) == TrimLeft(x) + rest
  {
    if x == [] {
      assert x + rest == rest;
    } else if Blank(x[0]) {
      TrimLeftBefore(x[1..], rest);
      assert (x + rest)[1..] == x[1..] + rest;
    }
  }

  lemma {:induction false} TrimLeftTwice(x: Text)
    ensures TrimLeft(TrimLeft(x)) == TrimLeft(x)
  {
    if x != [] && Blank(x[0]) {
      TrimLeftTwice(x[1..]);
    }
  }

  /** Trimming a parameter trims its key on the left. */
  lemma TrimmedItem(x: Text, v: Text)
    ensures Trimmed(Item((x, v))) == Item((TrimLeft(x), v))
  {
    var rest := ['='] + Encoded(v);
    assert Item((x, v)) == x + rest && Item((TrimLeft(x), v)) == TrimLeft(x) + rest;
    TrimLeftBefore(x, rest);
    EncodedHasEnds(v);
    EndIsNoBlank(TrimLeft(x), v);
  }

  lemma EndIsNoBlank(x: Text, v: Text)
    ensures TrimRight(Item((x, v))) == Item((x, v))
  {
    EncodedHasEnds(v);
    var item, e := Item((x, v)), Encoded(v);
    assert item[|item| - 1] == if e == [] then '=' else e[|e| - 1];
  }

  lemma PartsOfItem(x: Text, v: Text)
    ensures Pieces(Item((x, v)), '=') == Pieces(x, '=') + Nonempty(Encoded(v))
  {
    PiecesConcat(x, '=', Encoded(v));
    EncodedIsOnePart(v);
  }

  /** This piece cannot bring `k` back: its key is too short, or it is the value, and then it has no value. */
  ghost predicate Short(q: Text, k: Text, v: Text) {
    |KeyValue(q).0| < |k| || KeyValue(q) == (Encoded(v), [])
  }

  lemma KeyIsNoLonger(q: Text)
    ensures |KeyValue(q).0| <= |q| && (q != [] && '=' in q ==> |KeyValue(q).0| < |q|)
  {
    var parts := Pieces(q, '=');
    if parts != [] {
      PiecesAreShort(q, '=', parts[0]);
    }
  }

  /** The piece that ends in the value. */
  lemma {:induction false} LastPieceIsShort(x: Text, k: Text, v: Text)
    requires forall t :: t in Pieces(TrimLeft(x), '=') ==> |t| < |k|
    ensures Short(Trimmed(Item((x, v))), k, v)
  {
    TrimmedItem(x, v);
    PartsOfItem(TrimLeft(x), v);
    var parts, e := Pieces(TrimLeft(x), '='), Encoded(v);
    if parts == [] {
      assert parts + Nonempty(e) == Nonempty(e);
    } else {
      assert (parts + Nonempty(e))[0] == parts[0];
    }
  }

  predicate Intact(k: Text) {
    k != [] && '&' !in k && '=' !in k && Trimmed(k) == k
  }

  lemma {:induction false} LastDelimiter(k: Text, d: Byte) returns (a: Text, b: Text)
    requires d in k
    ensures k == a + [d] + b && d !in b
  {
    var n := |k| - 1;
    if k[n] == d {
      a, b := k[..n], [];
    } else {
      a, b := LastDelimiter(k[..n], d);
      b := b + [k[n]];
      assert k == k[..n] + [k[n]];
    }
  }

  lemma {:induction false} PiecesWithoutDelimiter(s: Text, d: Byte)
    requires d !in s
    ensures Pieces(s, d) == Nonempty(Trimmed(s))
  {
    TextFormats.FindIs(s, d, |s|);
    assert s[..|s|] == s;
  }

  lemma ItemWithoutAmpersand(x: Text, v: Text)
    requires '&' !in x
    ensures Pieces(Item((x, v)), '&') == [Trimmed(Item((x, v)))]
  {
    EncodedIsSafe(v);
    TrimmedItem(x, v);
    PiecesWithoutDelimiter(Item((x, v)), '&');
  }

  lemma TrimLeftIsNoLonger(x: Text)
    ensures |TrimLeft(x)| <= |x|
  {
    TrimLeftShort(x);
  }

  /** With an '&' in the key. */
  lemma PiecesOfSplitKey(a: Text, x: Text, v: Text, q: Text)
    requires '&' !in x && q in Pieces(Item((a + ['&'] + x, v)), '&')
    ensures Short(q, a + ['&'] + x, v)
  {
    var k := a + ['&'] + x;
    assert Item((k, v)) == a + ['&'] + Item((x, v));
    PiecesConcat(a, '&', Item((x, v)));
    ItemWithoutAmpersand(x, v);
    if q in Pieces(a, '&') {
      PiecesAreShort(a, '&', q);
      KeyIsNoLonger(q);
    } else {
      forall t | t in Pieces(TrimLeft(x), '=') ensures |t| < |k| {
        PiecesAreShort(TrimLeft(x), '=', t);
        TrimLeftIsNoLonger(x);
      }
      LastPieceIsShort(x, k, v);
    }
  }

  /** Without one: an '=' in the key, a blank at an end, or nothing at all. */
  lemma PiecesOfWholeKey(k: Text, v: Text)
    requires '&' !in k && !Intact(k)
    ensures Short(Trimmed(Item((k, v))), k, v)
  {
    forall t | t in Pieces(TrimLeft(k), '=') ensures |t| < |k| {
      PiecesAreShort(TrimLeft(k), '=', t);
      TrimLeftIsSuffix(k);
      if '=' in k {
        EqualsStays(k);
      } else {
        PiecesWithoutDelimiter(TrimLeft(k), '=');
        TrimLeftTwice(k);
        TrimmedIsNoLonger(k);
      }
    }
    LastPieceIsShort(k, k, v);
  }

  lemma {:induction false} EqualsStays(k: Text)
    requires '=' in k
    ensures '=' in TrimLeft(k)
  {
    if Blank(k[0]) {
      assert k == [k[0]] + k[1..];
      EqualsStays(k[1..]);
    }
  }

  // ---------------------------------------------------------------------------------------------
  // The exact condition
  // ---------------------------------------------------------------------------------------------

  lemma {:induction false} EmplacedContents(p: Params, x: Param, y: Param)
    ensures y in Emplaced(p, x) <==> y in p || y == x
  {
    if p != [] {
      assert p == p[..|p| - 1] + [p[|p| - 1]];
      EmplacedContents(p[..|p| - 1], x, y);
    }
  }

  lemma ShortPieceMissesKey(q: Text, k: Text, v: Text)
    requires Short(q, k, v) && KeyValue(q).0 != []
    ensures (Decoded(KeyValue(q).0, true), Decoded(KeyValue(q).1, true)) != (k, v)
  {
    DecodedIsNoLonger(KeyValue(q).0, true);
    assert Decoded([], true) == [];
  }

  lemma {:induction false} ShortPiecesMissKey(pieces: seq<Text>, seen: set<Text>, p: Params, k: Text, v: Text)
    requires (k, v) !in p && forall q :: q in pieces ==> Short(q, k, v)
    ensures (k, v) !in ParsedPieces(pieces, seen, p)
    decreases |pieces|
  {
    if pieces != [] {
      var q, rest := pieces[0], pieces[1..];
      if q in seen {
        ShortPiecesMissKey(rest, seen, p, k, v);
      } else if KeyValue(q).0 == [] {
        ShortPiecesMissKey(rest, seen + {q}, p, k, v);
      } else {
        var x := (Decoded(KeyValue(q).0, true), Decoded(KeyValue(q).1, true));
        ShortPieceMissesKey(q, k, v);
        EmplacedContents(p, x, (k, v));
        ShortPiecesMissKey(rest, seen + {q}, Emplaced(p, x), k, v);
      }
    }
  }

  lemma BrokenKeyIsLost(k: Text, v: Text)
    requires !Intact(k)
    ensures (k, v) !in Parsed(Joined([(k, v)]))
  {
    var pieces := Pieces(Item((k, v)), '&');
    if '&' in k {
      var a, x := LastDelimiter(k, '&');
      forall q | q in pieces ensures Short(q, k, v) {
        PiecesOfSplitKey(a, x, v, q);
      }
    } else {
      ItemWithoutAmpersand(k, v);
      PiecesOfWholeKey(k, v);
    }
    ShortPiecesMissKey(pieces, {}, [], k, v);
  }

  lemma {:induction false} ParsedSingle(piece: Text, kv: (Text, Text))
    requires Pieces(piece, '&') == [piece] && KeyValue(piece) == kv && kv.0 != []
    ensures Parsed(piece) == [(Decoded(kv.0, true), Decoded(kv.1, true))]
  {
    var x := (Decoded(kv.0, true), Decoded(kv.1, true));
    assert Emplaced([], x) == [x];
    assert [piece][1..] == [];
    assert ParsedPieces([piece], {}, []) == ParsedPieces([], {piece}, [x]);
  }

  lemma IntactKeyIsDecoded(k: Text, v: Text)
    requires Intact(k)
    ensures Parsed(Joined([(k, v)])) == [(Decoded(k, true), v)]
  {
    TrimmedItem(k, v);
    TrimLeftOfTrimmed(k);
    ItemWithoutAmpersand(k, v);
    PartsOfItem(k, v);
    PiecesWithoutDelimiter(k, '=');
    assert KeyValue(Item((k, v))) == (k, Encoded(v));
    ParsedSingle(Item((k, v)), (k, Encoded(v)));
    DecodeInvertsEncode(v, true);
  }

  lemma TrimLeftOfTrimmed(k: Text)
    requires Trimmed(k) == k
    ensures TrimLeft(k) == k
  {
    TrimLeftIsSuffix(k);
    TrimRightIsPrefix(TrimLeft(k));
  }

  /**
   * A parameter survives a query string exactly when its key is not empty, holds neither '&' nor '=', has no
   * blank at an end, and decodes to itself. The value does not matter.
   */
  lemma ParameterSurvivesIff(k: Text, v: Text)
    ensures Parsed(Joined([(k, v)])) == [(k, v)] <==> KeyOk(k)
  {
    if Intact(k) {
      IntactKeyIsDecoded(k, v);
    } else {
      BrokenKeyIsLost(k, v);
    }
  }
}
