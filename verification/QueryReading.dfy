/** What parsing makes of any query string, not only of one that was written by `params_to_query_str`. */
module QueryReading {
  import opened PercentCoding
  import opened QueryString
  import opened QueryKeys
  import KeyOrder

  // ---------------------------------------------------------------------------------------------
  // Blanks and parts
  // ---------------------------------------------------------------------------------------------

  ghost predicate SpacesAndTabs(s: Text) {
    forall i :: 0 <= i < |s| ==> s[i] == ' ' || s[i] == '\t'
  }

  /** Neither empty nor with a space or tab at an end. */
  predicate Solid(s: Text) {
    s != [] && s[0] != ' ' && s[0] != '\t' && s[|s| - 1] != ' ' && s[|s| - 1] != '\t'
  }

  /** Spaces and tabs go at both ends, and nothing else goes. */
  lemma TrimmedMiddle(l: Text, m: Text, r: Text)
    requires SpacesAndTabs(l) && SpacesAndTabs(r) && Solid(m)
    ensures Trimmed(l + m + r) == m
  {
    var s := l + m + r;
    assert forall j :: 0 <= j < |l| ==> s[j] == l[j];
    assert forall j :: |l| + |m| <= j < |s| ==> s[j] == r[j - |l| - |m|];
    TrimmedWithin(s, |l|, |l| + |m|);
    assert s[|l|..|l| + |m|] == m;
  }

  lemma TrimmedBlank(s: Text)
    requires SpacesAndTabs(s)
    ensures Trimmed(s) == []
  {
    TrimmedBlanks(s);
  }

  /** Nothing comes of a piece that is empty or blank, wherever it stands. */
  lemma BlankPieceVanishes(a: Text, blank: Text, d: Byte, b: Text)
    requires SpacesAndTabs(blank) && d !in blank
    ensures Pieces(blank, d) == []
    ensures Pieces(blank + [d] + b, d) == Pieces(b, d)
    ensures Pieces(a + [d] + blank, d) == Pieces(a, d)
  {
    TrimmedBlank(blank);
    PiecesWithoutDelimiter(blank, d);
    PiecesConcat(blank, d, b);
    PiecesConcat(a, d, blank);
  }

  lemma SolidPiece(m: Text, d: Byte)
    requires Solid(m) && d !in m
    ensures Pieces(m, d) == [m]
  {
    TrimmedIsSame(m);
    PiecesOf(m, [], d);
  }

  lemma FrontPart(k: Text, middle: Text)
    requires Solid(k) && '=' !in k
    ensures Pieces(k + ['='] + middle, '=') != [] && Pieces(k + ['='] + middle, '=')[0] == k
  {
    SolidPiece(k, '=');
    PiecesConcat(k, '=', middle);
  }

  lemma LastPart(front: Text, v: Text)
    requires Pieces(front, '=') != [] && Solid(v) && '=' !in v
    ensures KeyValue(front + ['='] + v) == (Pieces(front, '=')[0], v)
  {
    SolidPiece(v, '=');
    PiecesConcat(front, '=', v);
  }

  /** The key is the part before the first '=', the value the part behind the last; whatever is between them is lost. */
  lemma FirstAndLastPart(k: Text, middle: Text, v: Text)
    requires Solid(k) && '=' !in k && Solid(v) && '=' !in v
    ensures KeyValue(k) == (k, [])
    ensures KeyValue(k + ['='] + v) == (k, v)
    ensures KeyValue(k + ['='] + middle + ['='] + v) == (k, v)
  {
    SolidPiece(k, '=');
    LastPart(k, v);
    FrontPart(k, middle);
    LastPart(k + ['='] + middle, v);
  }

  // ---------------------------------------------------------------------------------------------
  // The parameters
  // ---------------------------------------------------------------------------------------------

  /** The parameter that a piece stands for. */
  function ParamOf(piece: Text): Param {
    (Decoded(KeyValue(piece).0, true), Decoded(KeyValue(piece).1, true))
  }

  /** A new pair goes behind all pairs whose key is not greater. */
  lemma {:induction false} EmplacedIs(p: Params, x: Param) returns (i: nat)
    requires Ordered(p)
    ensures i <= |p| && Emplaced(p, x) == p[..i] + [x] + p[i..]
    ensures forall j :: 0 <= j < i ==> KeyOrder.Leq(p[j].0, x.0)
    ensures forall j :: i <= j < |p| ==> KeyOrder.Less(x.0, p[j].0)
    decreases |p|
  {
    if p == [] || KeyOrder.Leq(p[|p| - 1].0, x.0) {
      i := |p|;
      assert p[..i] + [x] + p[i..] == p + [x];
      forall j | 0 <= j < |p| - 1 ensures KeyOrder.Leq(p[j].0, x.0) {
        KeyOrder.LeqTransitive(p[j].0, p[|p| - 1].0, x.0);
      }
    } else {
      var front, last := p[..|p| - 1], p[|p| - 1];
      OrderedPrefix(p, |p| - 1);
      i := EmplacedIs(front, x);
      assert p[..i] == front[..i] && p[i..] == front[i..] + [last];
    }
  }

  lemma OrderedAround(p: Params, x: Param, i: nat)
    requires Ordered(p) && i <= |p|
    requires forall j :: 0 <= j < i ==> KeyOrder.Leq(p[j].0, x.0)
    requires forall j :: i <= j < |p| ==> KeyOrder.Leq(x.0, p[j].0)
    ensures Ordered(p[..i] + [x] + p[i..])
  {
    var q := p[..i] + [x] + p[i..];
    forall j, k | 0 <= j < k < |q| ensures KeyOrder.Leq(q[j].0, q[k].0) {
      assert q[j] == if j < i then p[j] else if j == i then x else p[j - 1];
      assert q[k] == if k < i then p[k] else if k == i then x else p[k - 1];
    }
  }

  lemma SameMembers(p: Params, x: Param, i: nat)
    requires i <= |p|
    ensures forall y :: y in p[..i] + [x] + p[i..] <==> y == x || y in p
  {
    assert p == p[..i] + p[i..];
  }

  lemma EmplacedKeepsOrder(p: Params, x: Param)
    requires Ordered(p)
    ensures Ordered(Emplaced(p, x)) && |Emplaced(p, x)| == |p| + 1
    ensures forall y :: y in Emplaced(p, x) <==> y == x || y in p
  {
    var i := EmplacedIs(p, x);
    forall j | i <= j < |p| ensures KeyOrder.Leq(x.0, p[j].0) {
      KeyOrder.LeqTotal(x.0, p[j].0);
    }
    OrderedAround(p, x, i);
    SameMembers(p, x, i);
  }

  /** The pieces that count: those with a key that have not been seen before. */
  ghost function NewPieces(pieces: seq<Text>, seen: set<Text>): set<Text> {
    set piece | piece in pieces && piece !in seen && KeyValue(piece).0 != []
  }

  lemma NewPiecesStep(pieces: seq<Text>, seen: set<Text>)
    requires pieces != []
    ensures NewPieces(pieces, seen)
         == NewPieces(pieces[1..], seen + {pieces[0]})
            + if pieces[0] in seen || KeyValue(pieces[0]).0 == [] then {} else {pieces[0]}
    ensures pieces[0] !in NewPieces(pieces[1..], seen + {pieces[0]})
    ensures pieces[0] in seen ==> seen + {pieces[0]} == seen
  {
    assert pieces == [pieces[0]] + pieces[1..];
  }

  lemma {:induction false} ParsedPiecesAre(pieces: seq<Text>, seen: set<Text>, p: Params)
    requires Ordered(p)
    ensures var r := ParsedPieces(pieces, seen, p);
            && Ordered(r) && |r| == |p| + |NewPieces(pieces, seen)|
            && forall x :: x in r <==> x in p || exists piece :: piece in NewPieces(pieces, seen) && x == ParamOf(piece)
    decreases |pieces|
  {
    if pieces != [] {
      NewPiecesStep(pieces, seen);
      var piece := pieces[0];
      if piece in seen || KeyValue(piece).0 == [] {
        ParsedPiecesAre(pieces[1..], seen + {piece}, p);
      } else {
        EmplacedKeepsOrder(p, ParamOf(piece));
        ParsedPiecesAre(pieces[1..], seen + {piece}, Emplaced(p, ParamOf(piece)));
      }
    }
  }

  lemma PiecesThatCount(s: Text, piece: Text)
    ensures piece in NewPieces(Pieces(s, '&'), {}) <==> piece in Pieces(s, '&') && KeyValue(piece).0 != []
  {
  }

  /**
   * The parameters of any query string, in key order: one for each different piece between the '&' that has a
   * key, which is its first part decoded with '+' as a space, and whose value is its last part likewise.
   */
  lemma ParsedIs(s: Text)
    ensures Ordered(Parsed(s)) && |Parsed(s)| == |NewPieces(Pieces(s, '&'), {})|
    ensures forall piece :: piece in Pieces(s, '&') && KeyValue(piece).0 != [] ==> ParamOf(piece) in Parsed(s)
    ensures forall x :: x in Parsed(s) ==>
              exists piece :: piece in Pieces(s, '&') && KeyValue(piece).0 != [] && x == ParamOf(piece)
  {
    ParsedPiecesAre(Pieces(s, '&'), {}, []);
    forall piece ensures piece in NewPieces(Pieces(s, '&'), {}) <==> piece in Pieces(s, '&') && KeyValue(piece).0 != [] {
      PiecesThatCount(s, piece);
    }
  }

  /** The first piece of a query string, whatever follows. */
  lemma FirstPieceIsParsed(item: Text, more: Text)
    requires Solid(item) && '&' !in item && KeyValue(item).0 != []
    ensures ParamOf(item) in Parsed(item + ['&'] + more)
  {
    FirstPiece(item, more);
    PieceIsParsed(item + ['&'] + more, item);
  }

  lemma PieceIsParsed(s: Text, piece: Text)
    requires piece in Pieces(s, '&') && KeyValue(piece).0 != []
    ensures ParamOf(piece) in Parsed(s)
  {
    ParsedIs(s);
  }

  lemma FirstPiece(item: Text, more: Text)
    requires Solid(item) && '&' !in item
    ensures item in Pieces(item + ['&'] + more, '&')
  {
    SolidPiece(item, '&');
    PiecesConcat(item, '&', more);
  }

  lemma PlusIsASpace(x: Text, y: Text)
    requires '%' !in x + y && '+' !in x + y
    ensures Decoded(x + ['+'] + y, true) == x + [' '] + y
  {
    assert forall c :: c in x || c in y ==> c in x + y;
    DecodePlus(x, y);
    DecodePlain(y, true);
  }

  lemma ItemIsSolid(k: Text, v: Text)
    requires Solid(k) && '&' !in k && Solid(v) && '&' !in v
    ensures Solid(k + ['='] + v) && '&' !in k + ['='] + v
  {
    var item := k + ['='] + v;
    assert item[0] == k[0] && item[|item| - 1] == v[|v| - 1];
  }

  /** The usual form: a key and a value, in front of anything else. */
  lemma ItemIsParsed(k: Text, v: Text, more: Text)
    requires Solid(k) && '=' !in k && '&' !in k && Solid(v) && '=' !in v && '&' !in v
    ensures (Decoded(k, true), Decoded(v, true)) in Parsed(k + ['='] + v + ['&'] + more)
  {
    ItemIsSolid(k, v);
    FirstAndLastPart(k, [], v);
    FirstPieceIsParsed(k + ['='] + v, more);
  }

  /** With a plus sign in the value. */
  lemma PlusInValueIsASpace(k: Text, x: Text, y: Text, more: Text)
    requires Solid(k) && '=' !in k && '&' !in k && '%' !in k && '+' !in k
    requires Solid(x + ['+'] + y) && '=' !in x + y && '&' !in x + y && '%' !in x + y && '+' !in x + y
    ensures (k, x + [' '] + y) in Parsed(k + ['='] + (x + ['+'] + y) + ['&'] + more)
  {
    var v := x + ['+'] + y;
    assert forall c :: c in v ==> c in x + y || c == '+';
    DecodePlain(k, true);
    PlusIsASpace(x, y);
    ItemIsParsed(k, v, more);
  }

  /** Writing: key, '=' and encoded value of each parameter, with '&' between them and nowhere else. */
  lemma {:induction false} JoinedSnoc(p: Params, x: Param)
    ensures Joined([]) == [] && Joined([x]) == x.0 + ['='] + Encoded(x.1)
    ensures p != [] ==> Joined(p + [x]) == Joined(p) + ['&'] + (x.0 + ['='] + Encoded(x.1))
    decreases |p|
  {
    if |p| > 1 {
      JoinedSnoc(p[1..], x);
      assert (p + [x])[1..] == p[1..] + [x];
      AssociateText(Item(p[0]) + ['&'], Joined(p[1..]), ['&'] + Item(x));
    } else if |p| == 1 {
      assert (p + [x])[1..] == [x];
    }
  }

  lemma AssociateText(x: Text, y: Text, z: Text)
    ensures x + (y + z) == x + y + z
  {
  }
}
