/** `base64_encode`: a streaming accumulator that is shifted out six bits at a time. */
module Base64 {
  import opened Documents

  type Byte = x: int | 0 <= x < 0x100

  type Sextet = x: int | 0 <= x < 64

  function Letter(x: Sextet): char {
    if x < 26 then ('A' as int + x) as char
    else if x < 52 then ('a' as int + x - 26) as char
    else if x < 62 then ('0' as int + x - 52) as char
    else if x == 62 then '+' else '/'
  }

  /** Table 1 of RFC 4648, by character code: capitals, small letters, digits, plus and slash. */
  lemma LetterIs(x: Sextet)
    ensures x <= 25 ==> Letter(x) as int == 65 + x
    ensures 26 <= x <= 51 ==> Letter(x) as int == 71 + x
    ensures 52 <= x <= 61 ==> Letter(x) as int == x - 4
    ensures Letter(62) == '+' && Letter(63) == '/'
  {
  }

  function Letters(xs: seq<Sextet>): (s: string)
    ensures |s| == |xs| && forall i :: 0 <= i < |xs| ==> s[i] == Letter(xs[i])
  {
    seq(|xs|, (i: nat) requires i < |xs| => Letter(xs[i]))
  }

  // ---------------------------------------------------------------------------------------------
  // Section 4 of RFC 4648
  // ---------------------------------------------------------------------------------------------

  // Six bits of one byte, or of two neighbouring bytes.

  function High(a: Byte): Sextet { a / 4 }

  function Middle(a: Byte, b: Byte): Sextet { a % 4 * 16 + b / 16 }

  function Lower(b: Byte, c: Byte): Sextet { b % 16 * 4 + c / 64 }

  function Low(c: Byte): Sextet { c % 64 }

  /** Twenty-four bits, cut into four groups of six. */
  function Quad(a: Byte, b: Byte, c: Byte): seq<Sextet> {
    [High(a), Middle(a, b), Lower(b, c), Low(c)]
  }

  lemma QuadIsTheSameNumber(a: Byte, b: Byte, c: Byte)
    ensures var q := Quad(a, b, c);
            0x4_0000 * (q[0] as int) + 0x1000 * (q[1] as int) + 64 * (q[2] as int) + q[3] as int
            == 0x1_0000 * (a as int) + 0x100 * (b as int) + c as int
  {
    assert a == a / 4 * 4 + a % 4 && b == b / 16 * 16 + b % 16 && c == c / 64 * 64 + c % 64;
  }

  /** Three bytes make four letters; one or two bytes left over are filled up with zero bits and padded. */
  function Groups(s: seq<Byte>): string {
    if |s| == 0 then ""
    else if |s| == 1 then Letters(Quad(s[0], 0, 0)[..2]) + "=="
    else if |s| == 2 then Letters(Quad(s[0], s[1], 0)[..3]) + "="
    else Letters(Quad(s[0], s[1], s[2])) + Groups(s[3..])
  }

  function Index(c: char): Option<Sextet> {
    if 'A' <= c <= 'Z' then Some(c as int - 'A' as int)
    else if 'a' <= c <= 'z' then Some(c as int - 'a' as int + 26)
    else if '0' <= c <= '9' then Some(c as int - '0' as int + 52)
    else if c == '+' then Some(62) else if c == '/' then Some(63) else None
  }

  function Triple(w: Sextet, x: Sextet, y: Sextet, z: Sextet): seq<Byte> {
    [w * 4 + x / 16, x % 16 * 16 + y / 4, y % 4 * 64 + z]
  }

  /** A decoder written from the standard. */
  function Decode(t: string): Option<seq<Byte>> {
    if t == "" then Some([])
    else if |t| < 4 then None
    else
      var w, x, y, z := Index(t[0]), Index(t[1]), Index(t[2]), Index(t[3]);
      if w.None? || x.None? then None
      else if t[2..] == "==" then Some(Triple(w.value, x.value, 0, 0)[..1])
      else if y.None? then None
      else if t[3..] == "=" then Some(Triple(w.value, x.value, y.value, 0)[..2])
      else if z.None? || Decode(t[4..]).None? then None
      else Some(Triple(w.value, x.value, y.value, z.value) + Decode(t[4..]).value)
  }

  lemma IndexOfLetter(x: Sextet)
    ensures Index(Letter(x)) == Some(x) && Letter(x) != '='
  {
  }

  // Quotient and remainder, from the number as a sum.

  lemma By4(q: int, r: int)
    requires 0 <= r < 4
    ensures (4 * q + r) / 4 == q && (4 * q + r) % 4 == r
  {
  }

  lemma By16(q: int, r: int)
    requires 0 <= r < 16
    ensures (16 * q + r) / 16 == q && (16 * q + r) % 16 == r
  {
  }

  lemma By64(q: int, r: int)
    requires 0 <= r < 64
    ensures (64 * q + r) / 64 == q && (64 * q + r) % 64 == r
  {
  }

  lemma TripleOfQuad(a: Byte, b: Byte, c: Byte)
    ensures Triple(High(a), Middle(a, b), Lower(b, c), Low(c)) == [a, b, c]
  {
    By16(a % 4, b / 16);
    By4(b % 16, c / 64);
  }

  lemma DecodeFour(t: string, w: Sextet, x: Sextet, y: Sextet, z: Sextet)
    requires |t| >= 4 && t[0] == Letter(w) && t[1] == Letter(x) && t[2] == Letter(y) && t[3] == Letter(z)
    ensures Decode(t) == if Decode(t[4..]).None? then None else Some(Triple(w, x, y, z) + Decode(t[4..]).value)
  {
    IndexOfLetter(w);
    IndexOfLetter(x);
    IndexOfLetter(y);
    IndexOfLetter(z);
    assert t[2..][0] == t[2] && t[3..][0] == t[3];
  }

  lemma DecodeStep(a: Byte, b: Byte, c: Byte, rest: string)
    ensures Decode(Letters(Quad(a, b, c)) + rest)
         == if Decode(rest).None? then None else Some([a, b, c] + Decode(rest).value)
  {
    var t := Letters(Quad(a, b, c)) + rest;
    TripleOfQuad(a, b, c);
    assert t[4..] == rest;
    DecodeFour(t, High(a), Middle(a, b), Lower(b, c), Low(c));
  }

  lemma DecodeThree(t: string, w: Sextet, x: Sextet, y: Sextet)
    requires |t| == 4 && t[0] == Letter(w) && t[1] == Letter(x) && t[2] == Letter(y) && t[3] == '='
    ensures Decode(t) == Some(Triple(w, x, y, 0)[..2])
  {
    IndexOfLetter(w);
    IndexOfLetter(x);
    IndexOfLetter(y);
    assert t[2..][0] == t[2] && t[3..] == "=";
  }

  lemma DecodeTwo(t: string, w: Sextet, x: Sextet)
    requires |t| == 4 && t[0] == Letter(w) && t[1] == Letter(x) && t[2] == '=' && t[3] == '='
    ensures Decode(t) == Some(Triple(w, x, 0, 0)[..1])
  {
    IndexOfLetter(w);
    IndexOfLetter(x);
    assert t[2..] == "==";
  }

  lemma DecodeOneByte(a: Byte)
    ensures Decode(Letters(Quad(a, 0, 0)[..2]) + "==") == Some([a])
  {
    var t := Letters(Quad(a, 0, 0)[..2]) + "==";
    DecodeTwo(t, High(a), Middle(a, 0));
    TripleOfQuad(a, 0, 0);
    assert Triple(High(a), Middle(a, 0), 0, 0)[..1] == [a];
  }

  lemma DecodeTwoBytes(a: Byte, b: Byte)
    ensures Decode(Letters(Quad(a, b, 0)[..3]) + "=") == Some([a, b])
  {
    var t := Letters(Quad(a, b, 0)[..3]) + "=";
    DecodeThree(t, High(a), Middle(a, b), Lower(b, 0));
    TripleOfQuad(a, b, 0);
    assert Triple(High(a), Middle(a, b), Lower(b, 0), 0)[..2] == [a, b];
  }

  lemma GroupsStep(s: seq<Byte>)
    ensures |s| >= 3 ==> Groups(s) == Letters(Quad(s[0], s[1], s[2])) + Groups(s[3..])
    ensures |s| == 2 ==> Groups(s) == Letters(Quad(s[0], s[1], 0)[..3]) + "="
    ensures |s| == 1 ==> Groups(s) == Letters(Quad(s[0], 0, 0)[..2]) + "=="
  {
  }

  lemma {:induction false} DecodeLongGroups(s: seq<Byte>)
    requires |s| >= 3 && Decode(Groups(s[3..])) == Some(s[3..])
    ensures Decode(Groups(s)) == Some(s)
  {
    GroupsStep(s);
    DecodeStep(s[0], s[1], s[2], Groups(s[3..]));
    assert s == [s[0], s[1], s[2]] + s[3..];
  }

  lemma {:induction false} DecodeShortGroups(s: seq<Byte>)
    requires |s| < 3
    ensures Decode(Groups(s)) == Some(s)
  {
    GroupsStep(s);
    if |s| == 2 {
      DecodeTwoBytes(s[0], s[1]);
      assert s == [s[0], s[1]];
    } else if |s| == 1 {
      DecodeOneByte(s[0]);
      assert s == [s[0]];
    }
  }

  /** The standard's decoder inverts the encoding. */
  lemma {:induction false} DecodeInvertsGroups(s: seq<Byte>)
    ensures Decode(Groups(s)) == Some(s)
  {
    if |s| >= 3 {
      DecodeInvertsGroups(s[3..]);
      DecodeLongGroups(s);
    } else {
      DecodeShortGroups(s);
    }
  }

  lemma {:induction false} LengthOfGroups(s: seq<Byte>)
    ensures |Groups(s)| == 4 * ((|s| + 2) / 3)
  {
    if |s| >= 3 {
      LengthOfGroups(s[3..]);
    }
  }

  // ---------------------------------------------------------------------------------------------
  // The accumulator
  // ---------------------------------------------------------------------------------------------

  /** A 32-bit `int` after wrapping around. */
  function Wrap(x: int): int {
    (x + 0x8000_0000) % 0x1_0000_0000 - 0x8000_0000
  }

  /** The distances by which the accumulator is shifted. */
  predicate IsShift(k: int) {
    k == 0 || k == 2 || k == 4 || k == 6
  }

  /** `(val >> k) & 0x3F`: the arithmetic shift rounds down. */
  function Sixth(val: int, k: int): Sextet
    requires IsShift(k)
  {
    (if k == 0 then val else if k == 2 then val / 4 else if k == 4 then val / 16 else val / 64) % 64
  }

  lemma WrapIsShift(x: int) returns (k: int)
    ensures Wrap(x) == x + 0x1_0000 * k
  {
    k := -((x + 0x8000_0000) / 0x1_0000_0000 * 0x1_0000);
  }

  lemma Remainder12(k: int, x: int)
    ensures (0x1000 * k + x) % 0x1000 == x % 0x1000
  {
    assert 0x1000 * k + x == 0x1000 * (k + x / 0x1000) + x % 0x1000;
  }

  lemma Remainder8(k: int, x: int)
    ensures (0x100 * k + x) % 0x100 == x % 0x100
  {
    assert 0x100 * k + x == 0x100 * (k + x / 0x100) + x % 0x100;
  }

  /** Only the twelve low bits of the accumulator matter, and wrapping around keeps them. */
  lemma LowBitsMatter(val: int, other: int, k: int)
    requires IsShift(k) && val % 0x1000 == other % 0x1000
    ensures Sixth(val, k) == Sixth(other, k) && Sixth(Wrap(val), k) == Sixth(val, k)
  {
    var w := WrapIsShift(val);
    Remainder12(0x10 * w, val);
    SixthOfLow(val, k);
    SixthOfLow(other, k);
    SixthOfLow(Wrap(val), k);
  }

  lemma SixthOfLow(val: int, k: int)
    requires IsShift(k)
    ensures Sixth(val, k) == Sixth(val % 0x1000, k)
  {
    var h, l := val / 0x1000, val % 0x1000;
    assert val == 0x1000 * h + l;
    assert val / 4 == 0x400 * h + l / 4;
    assert val / 16 == 0x100 * h + l / 16;
    assert val / 64 == 0x40 * h + l / 64;
    SameRemainder(0x40 * h, l);
    SameRemainder(0x10 * h, l / 4);
    SameRemainder(0x4 * h, l / 16);
    SameRemainder(h, l / 64);
  }

  lemma SameRemainder(h: int, x: int)
    ensures (64 * h + x) % 64 == x % 64
  {
  }

  /** The sextets that are out once `s` has been read: all that are complete. */
  function Complete(s: seq<Byte>): seq<Sextet> {
    if |s| == 0 then []
    else if |s| == 1 then [High(s[0])]
    else if |s| == 2 then [High(s[0]), Middle(s[0], s[1])]
    else Quad(s[0], s[1], s[2]) + Complete(s[3..])
  }

  /** The last byte read. */
  function Last(s: seq<Byte>): Byte {
    if s == [] then 0 else s[|s| - 1]
  }

  /** The sextets that a byte `c` completes when `b` came before it, by its place in its group of three. */
  function Added(place: nat, b: Byte, c: Byte): seq<Sextet> {
    if place == 0 then [High(c)] else if place == 1 then [Middle(b, c)] else [Lower(b, c), Low(c)]
  }

  /** Where these bits sit in the accumulator. */
  lemma SixthOfTwo(b: Byte, c: Byte)
    ensures Sixth(0x100 * b + c, 2) == High(c) && Sixth(0x100 * b + c, 4) == Middle(b, c)
    ensures Sixth(0x100 * b + c, 6) == Lower(b, c) && Sixth(0x100 * b + c, 0) == Low(c)
  {
    var n := 0x100 * b + c;
    SixthIs(n);
    SixthAt0(b, c, n);
    SixthAt2(b, c, n);
    SixthAt4(b, c, n);
    SixthAt6(b, c, n);
  }

  lemma SixthIs(n: int)
    ensures Sixth(n, 0) == n % 64 && Sixth(n, 2) == n / 4 % 64
    ensures Sixth(n, 4) == n / 16 % 64 && Sixth(n, 6) == n / 64 % 64
  {
  }

  lemma SixthAt0(b: int, c: int, n: int)
    requires 0 <= c && n == 0x100 * b + c
    ensures n % 64 == c % 64
  {
    var q, r := c / 64, c % 64;
    By64(4 * b + q, r);
    assert n == 64 * (4 * b + q) + r;
  }

  lemma SixthAt2(b: int, c: int, n: int)
    requires 0 <= c < 0x100 && n == 0x100 * b + c
    ensures n / 4 % 64 == c / 4
  {
    var q, r := c / 4, c % 4;
    By4(64 * b + q, r);
    By64(b, q);
    assert n == 4 * (64 * b + q) + r;
  }

  lemma SixthAt4(b: int, c: int, n: int)
    requires 0 <= c < 0x100 && n == 0x100 * b + c
    ensures n / 16 % 64 == 16 * (b % 4) + c / 16
  {
    var h, l, q, r := b / 4, b % 4, c / 16, c % 16;
    By16(16 * b + q, r);
    By64(h, 16 * l + q);
    assert n == 16 * (16 * b + q) + r;
    assert 16 * b + q == 64 * h + (16 * l + q);
  }

  lemma SixthAt6(b: int, c: int, n: int)
    requires 0 <= c < 0x100 && n == 0x100 * b + c
    ensures n / 64 % 64 == 4 * (b % 16) + c / 64
  {
    var h, l, q, r := b / 16, b % 16, c / 64, c % 64;
    By64(4 * b + q, r);
    By64(h, 4 * l + q);
    assert n == 64 * (4 * b + q) + r;
    assert 4 * b + q == 64 * h + (4 * l + q);
  }

  lemma CompleteStep(s: seq<Byte>)
    requires |s| >= 3
    ensures Complete(s) == Quad(s[0], s[1], s[2]) + Complete(s[3..])
  {
  }

  lemma CompleteOfFew(a: Byte, b: Byte, c: Byte)
    ensures Complete([a]) == [High(a)] && Complete([a, b]) == [High(a), Middle(a, b)]
    ensures Complete([a, b, c]) == Quad(a, b, c)
  {
    assert [a, b, c][3..] == [];
  }

  lemma {:induction false} CompleteSnocShort(s: seq<Byte>, c: Byte)
    requires |s| < 3
    ensures Complete(s + [c]) == Complete(s) + Added(|s| % 3, Last(s), c)
  {
    if |s| == 0 {
      CompleteOfFew(c, 0, 0);
      assert s + [c] == [c];
    } else if |s| == 1 {
      CompleteOfFew(s[0], c, 0);
      assert s + [c] == [s[0], c] && s == [s[0]];
    } else {
      CompleteOfFew(s[0], s[1], c);
      assert s + [c] == [s[0], s[1], c] && s == [s[0], s[1]];
      assert [High(s[0]), Middle(s[0], s[1])] + [Lower(s[1], c), Low(c)] == Quad(s[0], s[1], c);
    }
  }

  lemma {:induction false} CompleteSnocLong(s: seq<Byte>, c: Byte)
    requires |s| >= 3
    requires Complete(s[3..] + [c]) == Complete(s[3..]) + Added((|s| - 3) % 3, Last(s[3..]), c)
    ensures Complete(s + [c]) == Complete(s) + Added(|s| % 3, Last(s), c)
  {
    var t, first, added := s + [c], Quad(s[0], s[1], s[2]), Added(|s| % 3, Last(s), c);
    CompleteStep(s);
    CompleteStep(t);
    assert t[3..] == s[3..] + [c];
    ThreeLess(|s|);
    Associate(first, Complete(s[3..]), added);
  }

  lemma ThreeLess(n: nat)
    requires n >= 3
    ensures (n - 3) % 3 == n % 3
  {
  }

  lemma Associate(x: seq<Sextet>, y: seq<Sextet>, z: seq<Sextet>)
    ensures x + (y + z) == x + y + z
  {
  }

  lemma {:induction false} CompleteSnoc(s: seq<Byte>, c: Byte)
    ensures Complete(s + [c]) == Complete(s) + Added(|s| % 3, Last(s), c)
  {
    if |s| < 3 {
      CompleteSnocShort(s, c);
    } else {
      CompleteSnoc(s[3..], c);
      CompleteSnocLong(s, c);
    }
  }

  /** The bits left over after the loop, filled up with zeros. */
  function Rest(s: seq<Byte>): seq<Sextet> {
    if |s| % 3 == 0 then [] else if |s| % 3 == 1 then [Middle(Last(s), 0)] else [Lower(Last(s), 0)]
  }

  function Padding(s: seq<Byte>): string {
    if |s| % 3 == 0 then "" else if |s| % 3 == 1 then "==" else "="
  }

  lemma GroupsOfFew(a: Byte, b: Byte)
    ensures Groups([a]) == Letters([High(a)] + [Middle(a, 0)]) + "=="
    ensures Groups([a, b]) == Letters([High(a), Middle(a, b)] + [Lower(b, 0)]) + "="
  {
    GroupsStep([a]);
    GroupsStep([a, b]);
    assert Quad(a, 0, 0)[..2] == [High(a)] + [Middle(a, 0)];
    assert Quad(a, b, 0)[..3] == [High(a), Middle(a, b)] + [Lower(b, 0)];
  }

  lemma {:induction false} GroupsOfShort(s: seq<Byte>)
    requires |s| < 3
    ensures Groups(s) == Letters(Complete(s) + Rest(s)) + Padding(s)
  {
    if |s| == 0 {
      assert Letters([]) == "";
    } else {
      var b := if |s| == 2 then s[1] else 0;
      GroupsOfFew(s[0], b);
      CompleteOfFew(s[0], b, 0);
      assert s == if |s| == 1 then [s[0]] else [s[0], s[1]];
    }
  }

  lemma {:induction false} GroupsAreCompleteAndRest(s: seq<Byte>)
    ensures Groups(s) == Letters(Complete(s) + Rest(s)) + Padding(s)
  {
    if |s| < 3 {
      GroupsOfShort(s);
    } else {
      var q, c := Quad(s[0], s[1], s[2]), Complete(s[3..]);
      GroupsAreCompleteAndRest(s[3..]);
      GroupsStep(s);
      CompleteStep(s);
      SameRest(s);
      assert q + c + Rest(s) == q + (c + Rest(s));
      LettersConcat(q, c + Rest(s));
    }
  }

  lemma SameRest(s: seq<Byte>)
    requires |s| >= 3
    ensures Rest(s) == Rest(s[3..]) && Padding(s) == Padding(s[3..])
  {
    assert |s[3..]| % 3 == |s| % 3;
  }

  lemma LettersConcat(a: seq<Sextet>, b: seq<Sextet>)
    ensures Letters(a + b) == Letters(a) + Letters(b)
  {
  }

  // ---------------------------------------------------------------------------------------------
  // The loop
  // ---------------------------------------------------------------------------------------------

  method Encode(input: seq<Byte>) returns (out: string)
    ensures out == Groups(input)
  {
    out := "";
    var val: int, valb: int := 0, -6;
    for i := 0 to |input|
      invariant valb == -6 + 2 * (i % 3)
      invariant out == Letters(Complete(input[..i]))
      invariant val % 0x100 == Last(input[..i])
    {
      ghost var s, c := input[..i], input[i];
      assert input[..i + 1] == s + [c];
      CompleteSnoc(s, c);
      LettersConcat(Complete(s), Added(i % 3, Last(s), c));
      AccumulatorHoldsTwo(val, Last(s), c);
      NextPlace(i);
      val := Wrap(val * 0x100) + input[i];
      valb := valb + 8;
      var more;
      more, valb := ShiftOut(val, valb, Last(s), c);
      out := out + more;
    }
    assert input[..|input|] == input;
    out := Flush(input, val, valb, out);
  }

  lemma NextPlace(i: nat)
    ensures (i + 1) % 3 == if i % 3 == 2 then 0 else i % 3 + 1
  {
  }

  lemma AccumulatorHoldsTwo(val: int, b: Byte, c: Byte)
    requires val % 0x100 == b
    ensures (Wrap(val * 0x100) + c) % 0x1000 == (0x100 * b + c) % 0x1000
    ensures (Wrap(val * 0x100) + c) % 0x100 == c
  {
    var k := WrapIsShift(val * 0x100);
    var q := val / 0x100 + k;
    assert Wrap(val * 0x100) == 0x1_0000 * q + 0x100 * b;
    Remainder12(0x10 * q, 0x100 * b + c);
    Remainder8(0x100 * q + b, c);
  }

  /** Where `Added` finds its bits in the accumulator. */
  lemma AddedBits(val: int, bits: int, b: Byte, c: Byte)
    requires val % 0x1000 == (0x100 * b + c) % 0x1000 && (bits == 2 || bits == 4 || bits == 6)
    ensures Added((bits - 2) / 2, b, c) == if bits == 6 then [Sixth(val, 6), Sixth(val, 0)] else [Sixth(val, bits)]
  {
    SixthOfTwo(b, c);
    LowBitsMatter(val, 0x100 * b + c, bits);
    LowBitsMatter(val, 0x100 * b + c, 0);
  }

  /** Emits every complete sextet of the accumulator. */
  method ShiftOut(val: int, bits: int, ghost b: Byte, ghost c: Byte) returns (more: string, valb: int)
    requires bits == 2 || bits == 4 || bits == 6
    requires val % 0x1000 == (0x100 * b + c) % 0x1000
    ensures more == Letters(Added((bits - 2) / 2, b, c)) && valb == if bits == 6 then -6 else bits - 6
  {
    more, valb := "", bits;
    AddedBits(val, bits, b, c);
    while valb >= 0
      invariant || (valb == bits && more == "")
                || (valb == bits - 6 && more == [Letter(Sixth(val, bits))])
                || (bits == 6 && valb == -6 && more == [Letter(Sixth(val, 6)), Letter(Sixth(val, 0))])
      decreases valb + 6
    {
      more := more + [Letter(Sixth(val, valb))];
      valb := valb - 6;
    }
  }

  lemma FlushedBits(val: int, b: Byte)
    requires val % 0x100 == b
    ensures Sixth(Wrap(val * 0x100), 4) == Middle(b, 0) && Sixth(Wrap(val * 0x100), 6) == Lower(b, 0)
  {
    AccumulatorHoldsTwo(val, b, 0);
    SixthOfTwo(b, 0);
    LowBitsMatter(Wrap(val * 0x100), 0x100 * b, 4);
    LowBitsMatter(Wrap(val * 0x100), 0x100 * b, 6);
  }

  /** The bits that are left over make one more letter, or none. */
  lemma LeftOver(input: seq<Byte>, val: int, valb: int)
    requires valb == -6 + 2 * (|input| % 3) && val % 0x100 == Last(input)
    ensures valb > -6 ==> IsShift(valb + 8)
    ensures Letters(Rest(input)) == if valb > -6 then [Letter(Sixth(Wrap(val * 0x100), valb + 8))] else ""
  {
    FlushedBits(val, Last(input));
    var r := |input| % 3;
    assert r == 0 || r == 1 || r == 2;
  }

  /** The last letter and the padding. */
  method Flush(input: seq<Byte>, val: int, valb: int, text: string) returns (out: string)
    requires valb == -6 + 2 * (|input| % 3) && val % 0x100 == Last(input)
    requires text == Letters(Complete(input))
    ensures out == Groups(input)
  {
    out := text;
    LeftOver(input, val, valb);
    LettersConcat(Complete(input), Rest(input));
    if valb > -6 {
      out := out + [Letter(Sixth(Wrap(val * 0x100), valb + 8))];
    }
    assert out == text + Letters(Rest(input));
    ghost var letters := out;
    out := Pad(out);
    LettersAndPadding(input);
    SamePadding(letters, out, input);
  }

  lemma {:induction false} LettersAndPadding(input: seq<Byte>)
    ensures var letters := Letters(Complete(input) + Rest(input));
            Groups(input) == letters + Padding(input) && (|letters| + |Padding(input)|) % 4 == 0
  {
    GroupsAreCompleteAndRest(input);
    LengthOfGroups(input);
    By4((|input| + 2) / 3, 0);
  }

  /** `n` padding characters. */
  function Filled(n: nat): string {
    if n == 0 then "" else Filled(n - 1) + "="
  }

  lemma {:induction false} SamePadding(letters: string, out: string, input: seq<Byte>)
    requires (|letters| + |Padding(input)|) % 4 == 0
    requires |out| % 4 == 0 && |letters| <= |out| < |letters| + 4 && out == letters + Filled(|out| - |letters|)
    ensures out == letters + Padding(input)
  {
    FilledIsPadding(input);
    SameRemainder4(|letters|, |Padding(input)|, |out| - |letters|);
  }

  lemma SameRemainder4(a: nat, b: nat, c: nat)
    requires b < 4 && c < 4 && (a + b) % 4 == (a + c) % 4
    ensures b == c
  {
  }

  lemma FilledIsPadding(input: seq<Byte>)
    ensures Filled(|Padding(input)|) == Padding(input)
  {
    assert Filled(0) == "" && Filled(1) == "=" && Filled(2) == "==";
  }

  method Pad(s: string) returns (t: string)
    ensures |t| % 4 == 0 && |s| <= |t| < |s| + 4 && t == s + Filled(|t| - |s|)
  {
    t := s;
    assert s + Filled(0) == s;
    while |t| % 4 != 0
      invariant |s| <= |t| <= (|s| + 3) / 4 * 4 && t == s + Filled(|t| - |s|)
      decreases (|s| + 3) / 4 * 4 - |t|
    {
      assert s + (Filled(|t| - |s|) + "=") == s + Filled(|t| - |s|) + "=";
      t := t + "=";
    }
  }
}
