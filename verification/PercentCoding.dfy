/** `encode_query_param` and `decode_url`: section 2.1 of RFC 3986, plus the `%uXXXX` form. */
module PercentCoding {
  import opened Documents
  import opened Numerals

  /** `char` as the library uses it: one byte. */
  type Byte = c: char | c as int < 0x100 witness 'a'

  type Text = seq<Byte>

  predicate Unreserved(c: Byte) {
    || 'a' <= c <= 'z' || 'A' <= c <= 'Z' || '0' <= c <= '9'
    || c == '-' || c == '_' || c == '.' || c == '!' || c == '~' || c == '*' || c == '\'' || c == '(' || c == ')'
  }

  function HexDigit(n: nat): Byte
    requires n < 16
  {
    if n < 10 then ('0' as int + n) as char else ('A' as int + n - 10) as char
  }

  /** `is_hex`. */
  function HexOf(c: Byte): Option<nat> {
    if '0' <= c <= '9' then Some(c as int - '0' as int)
    else if 'A' <= c <= 'F' then Some(c as int - 'A' as int + 10)
    else if 'a' <= c <= 'f' then Some(c as int - 'a' as int + 10)
    else None
  }

  function EncodeByte(c: Byte): Text {
    if Unreserved(c) then [c] else ['%', HexDigit(c as int / 16), HexDigit(c as int % 16)]
  }

  function Encoded(s: Text): Text {
    if s == [] then [] else EncodeByte(s[0]) + Encoded(s[1..])
  }

  /** The value of the first `count` hexadecimal digits, on top of `high`; `None` if there are not that many. */
  function HexNumber(t: Text, count: nat, high: nat): Option<nat> {
    if count == 0 then Some(high)
    else if t == [] || HexOf(t[0]).None? then None
    else HexNumber(t[1..], count - 1, 16 * high + HexOf(t[0]).value)
  }

  lemma HexNumberBound(t: Text, count: nat, high: nat)
    ensures HexNumber(t, count, high).Some? ==> count <= |t|
    ensures count == 1 && HexNumber(t, 1, high).Some? ==> HexNumber(t, 1, high).value < 16 * (high + 1)
    ensures count == 2 && HexNumber(t, 2, high).Some? ==> HexNumber(t, 2, high).value < 0x100 * (high + 1)
    decreases count
  {
    if count > 0 && t != [] && HexOf(t[0]).Some? {
      HexNumberBound(t[1..], count - 1, 16 * high + HexOf(t[0]).value);
    }
  }

  /** One byte as the decoder emits it. */
  function ToByte(n: nat): Byte
    requires n < 0x100
  {
    n as char
  }

  /** `to_utf8`: surrogates and numbers beyond Unicode make no bytes. */
  function ToUtf8(code: nat): Text {
    if code < 0x80 then [ToByte(code)]
    else if code < 0x800 then [ToByte(0xC0 + code / 64), ToByte(0x80 + code % 64)]
    else if code < 0xD800 || 0xE000 <= code < 0x1_0000 then
      [ToByte(0xE0 + code / 0x1000), ToByte(0x80 + code / 64 % 64), ToByte(0x80 + code % 64)]
    else if code < 0xE000 || code >= 0x11_0000 then []
    else [ToByte(0xF0 + code / 0x4_0000), ToByte(0x80 + code / 0x1000 % 64),
          ToByte(0x80 + code / 64 % 64), ToByte(0x80 + code % 64)]
  }

  /** What decoding makes of the front of `t`: the bytes it emits and how many it uses up. */
  function DecodeFront(t: Text, plusIsSpace: bool): (r: (Text, nat))
    requires t != []
    ensures 0 < r.1 <= |t|
  {
    HexNumberBound(t[1..], 2, 0);
    if t[0] == '%' && |t| > 1 && t[1] == 'u' then
      HexNumberBound(t[2..], 4, 0);
      var code := HexNumber(t[2..], 4, 0);
      if code.Some? then (ToUtf8(code.value), 6) else (['%'], 1)
    else if t[0] == '%' && |t| > 1 then
      var code := HexNumber(t[1..], 2, 0);
      if code.Some? then ([ToByte(code.value)], 3) else (['%'], 1)
    else if plusIsSpace && t[0] == '+' then ([' '], 1)
    else ([t[0]], 1)
  }

  function Decoded(t: Text, plusIsSpace: bool): Text
    decreases |t|
  {
    if t == [] then [] else
      var (bytes, used) := DecodeFront(t, plusIsSpace);
      bytes + Decoded(t[used..], plusIsSpace)
  }

  // ---------------------------------------------------------------------------------------------
  // Round trips
  // ---------------------------------------------------------------------------------------------

  lemma HexOfDigit(n: nat)
    requires n < 16
    ensures HexOf(HexDigit(n)) == Some(n) && HexDigit(n) != 'u' && HexDigit(n) != '%'
  {
  }

  lemma TwoDigits(n: nat, rest: Text)
    requires n < 0x100
    ensures HexNumber([HexDigit(n / 16), HexDigit(n % 16)] + rest, 2, 0) == Some(n)
  {
    HexOfDigit(n / 16);
    HexOfDigit(n % 16);
    var t := [HexDigit(n / 16), HexDigit(n % 16)] + rest;
    assert t[1..] == [HexDigit(n % 16)] + rest;
    assert HexNumber(t[1..], 1, n / 16) == HexNumber(t[1..][1..], 0, 16 * (n / 16) + n % 16);
  }

  lemma DecodeEncodedByte(c: Byte, rest: Text, plusIsSpace: bool)
    ensures Decoded(EncodeByte(c) + rest, plusIsSpace) == [c] + Decoded(rest, plusIsSpace)
  {
    var t := EncodeByte(c) + rest;
    if Unreserved(c) {
      assert t[1..] == rest;
    } else {
      HexOfDigit(c as int / 16);
      TwoDigits(c as int, rest);
      assert t[1..] == [HexDigit(c as int / 16), HexDigit(c as int % 16)] + rest;
      assert DecodeFront(t, plusIsSpace) == ([c], 3);
      assert t[3..] == rest;
    }
  }

  /** Decoding undoes encoding for every byte string, however `+` is read. */
  lemma {:induction false} DecodeInvertsEncode(s: Text, plusIsSpace: bool)
    ensures Decoded(Encoded(s), plusIsSpace) == s
  {
    if s != [] {
      DecodeInvertsEncode(s[1..], plusIsSpace);
      DecodeEncodedByte(s[0], Encoded(s[1..]), plusIsSpace);
      assert s == [s[0]] + s[1..];
    }
  }

  /** The encoding is made of unreserved characters and '%' only: it passes through a query string untouched. */
  lemma {:induction false} EncodedIsSafe(s: Text)
    ensures forall c :: c in Encoded(s) ==> Unreserved(c) || c == '%'
  {
    if s != [] {
      EncodedIsSafe(s[1..]);
      assert forall c :: c in EncodeByte(s[0]) ==> Unreserved(c) || c == '%';
    }
  }

  /** Text without '%' and '+' decodes to itself. */
  lemma {:induction false} DecodePlain(s: Text, plusIsSpace: bool)
    requires '%' !in s && '+' !in s
    ensures Decoded(s, plusIsSpace) == s
  {
    if s != [] {
      DecodePlain(s[1..], plusIsSpace);
      assert s == [s[0]] + s[1..];
    }
  }

  /**
   * A decoder for UTF-8 sequences of up to three bytes, written from the standard (section 3 of RFC 3629): longer
   * forms than needed and surrogates are not valid.
   */
  function FromUtf8(t: Text): Option<nat> {
    if |t| == 1 && t[0] as int < 0x80 then Some(t[0] as int)
    else if |t| == 2 && 0xC2 <= t[0] as int < 0xE0 && Trails(t[1]) then
      Some((t[0] as int - 0xC0) * 64 + (t[1] as int - 0x80))
    else if |t| == 3 && 0xE0 <= t[0] as int < 0xF0 && Trails(t[1]) && Trails(t[2]) then
      var code := (t[0] as int - 0xE0) * 0x1000 + (t[1] as int - 0x80) * 64 + (t[2] as int - 0x80);
      if code < 0x800 || 0xD800 <= code < 0xE000 then None else Some(code)
    else None
  }

  predicate Trails(c: Byte) { 0x80 <= c as int < 0xC0 }

  /** Every `%uXXXX` that names a character becomes that character's UTF-8 form; a surrogate vanishes. */
  lemma FourDigitsMakeACharacter(code: nat)
    requires code < 0x1_0000
    ensures if 0xD800 <= code < 0xE000 then ToUtf8(code) == [] else FromUtf8(ToUtf8(code)) == Some(code)
  {
    assert code / 64 == 64 * (code / 0x1000) + code / 64 % 64;
  }

  // ---------------------------------------------------------------------------------------------
  // Decoding any text: what may stand at its front, and what becomes of it
  // ---------------------------------------------------------------------------------------------

  /** Up to the first of the two special characters everything stays. */
  lemma {:induction false} DecodePlainFront(x: Text, rest: Text, plusIsSpace: bool)
    requires '%' !in x && '+' !in x
    ensures Decoded(x + rest, plusIsSpace) == x + Decoded(rest, plusIsSpace)
    decreases |x|
  {
    if x == [] {
      assert x + rest == rest && x + Decoded(rest, plusIsSpace) == Decoded(rest, plusIsSpace);
    } else {
      DecodePlainFront(x[1..], rest, plusIsSpace);
      DecodeOneChar(x[0], x[1..] + rest, plusIsSpace);
      FirstAndRest(x, rest);
      FirstAndRest(x, Decoded(rest, plusIsSpace));
    }
  }

  lemma DecodeOneChar(c: Byte, rest: Text, plusIsSpace: bool)
    requires c != '%' && c != '+'
    ensures Decoded([c] + rest, plusIsSpace) == [c] + Decoded(rest, plusIsSpace)
  {
    assert ([c] + rest)[1..] == rest;
  }

  lemma FirstAndRest(x: Text, rest: Text)
    requires x != []
    ensures x + rest == [x[0]] + (x[1..] + rest)
  {
  }

  /** A plus sign becomes a space if that is asked for, and stays otherwise. */
  lemma DecodePlus(x: Text, rest: Text)
    requires '%' !in x && '+' !in x
    ensures Decoded(x + ['+'] + rest, true) == x + [' '] + Decoded(rest, true)
    ensures Decoded(x + ['+'] + rest, false) == x + ['+'] + Decoded(rest, false)
  {
    DecodeOnePlus(rest);
    DecodePlainFront(x, ['+'] + rest, true);
    DecodePlainFront(x, ['+'] + rest, false);
    Regroup(x, ['+'], rest);
    Regroup(x, [' '], Decoded(rest, true));
    Regroup(x, ['+'], Decoded(rest, false));
  }

  lemma DecodeOnePlus(rest: Text)
    ensures Decoded(['+'] + rest, true) == [' '] + Decoded(rest, true)
    ensures Decoded(['+'] + rest, false) == ['+'] + Decoded(rest, false)
  {
    assert (['+'] + rest)[1..] == rest;
  }

  lemma Regroup(x: Text, y: Text, z: Text)
    ensures x + y + z == x + (y + z)
  {
  }

  /** The digit a character stands for, if any, is the one read by hand. */
  lemma HexOfIs(c: Byte, digit: nat)
    ensures HexStandsFor(c, digit) <==> HexOf(c) == Some(digit)
    ensures IsHexChar(c) <==> HexOf(c).Some?
  {
  }

  /** Two hexadecimal digits of either case become the byte they number. */
  lemma DecodeTwoDigits(h: Byte, l: Byte, high: nat, low: nat, rest: Text, plusIsSpace: bool)
    requires HexStandsFor(h, high) && HexStandsFor(l, low)
    ensures 16 * high + low < 0x100
    ensures Decoded(['%', h, l] + rest, plusIsSpace) == [(16 * high + low) as char] + Decoded(rest, plusIsSpace)
  {
    HexOfIs(h, high);
    HexOfIs(l, low);
    var t := ['%', h, l] + rest;
    assert t[1..] == [h, l] + rest && t[1..][1..] == [l] + rest && t[3..] == rest;
    assert HexNumber(t[1..], 2, 0) == HexNumber(t[1..][1..], 1, high) == Some(16 * high + low);
  }

  lemma FourDigits(ds: Text, digits: seq<nat>, rest: Text)
    requires |ds| == 4 && HexSpells(ds, digits)
    ensures Numeral(digits, 16) < 0x1_0000
    ensures HexNumber(ds + rest, 4, 0) == Some(Numeral(digits, 16))
  {
    var t := ds + rest;
    var n1 := digits[0];
    var n2 := 16 * n1 + digits[1];
    var n3 := 16 * n2 + digits[2];
    NumeralOfFour(digits);
    NextDigit(t, 0, 4, 0, digits[0]);
    NextDigit(t, 1, 3, n1, digits[1]);
    NextDigit(t, 2, 2, n2, digits[2]);
    NextDigit(t, 3, 1, n3, digits[3]);
    assert t[0..] == t;
  }

  lemma NextDigit(t: Text, i: nat, count: nat, high: nat, digit: nat)
    requires i < |t| && count > 0 && HexStandsFor(t[i], digit)
    ensures HexNumber(t[i..], count, high) == HexNumber(t[i + 1..], count - 1, 16 * high + digit)
  {
    HexOfIs(t[i], digit);
    assert t[i..][1..] == t[i + 1..];
  }

  lemma NumeralOfFour(d: seq<nat>)
    requires |d| == 4
    ensures Numeral(d, 16) == 16 * (16 * (16 * d[0] + d[1]) + d[2]) + d[3]
  {
    assert d[..3][..2] == d[..2] && d[..2][..1] == d[..1] && d[..1][..0] == [];
    assert Numeral(d[..1], 16) == d[0];
    assert Numeral(d[..2], 16) == 16 * Numeral(d[..2][..1], 16) + d[1];
    assert Numeral(d[..3], 16) == 16 * Numeral(d[..3][..2], 16) + d[2];
  }

  /** '%u' and four digits become the UTF-8 form of the character they number, and nothing for a surrogate. */
  lemma DecodeFourDigits(ds: Text, digits: seq<nat>, rest: Text, plusIsSpace: bool) returns (text: Text)
    requires |ds| == 4 && HexSpells(ds, digits)
    ensures Decoded(['%', 'u'] + ds + rest, plusIsSpace) == text + Decoded(rest, plusIsSpace)
    ensures var code := Numeral(digits, 16);
            if 0xD800 <= code < 0xE000 then text == [] else FromUtf8(text) == Some(code)
  {
    var t, code := ['%', 'u'] + ds + rest, Numeral(digits, 16);
    FourDigits(ds, digits, rest);
    FourDigitsMakeACharacter(code);
    assert t[2..] == ds + rest && t[6..] == rest;
    HexNumberBound(t[2..], 4, 0);
    text := ToUtf8(code);
    assert DecodeFront(t, plusIsSpace) == (text, 6);
  }

  /** Any other percent sign stays, and decoding goes on right behind it. */
  lemma DecodeOtherPercent(rest: Text, plusIsSpace: bool)
    requires !(|rest| >= 2 && IsHexChar(rest[0]) && IsHexChar(rest[1]))
    requires !(|rest| >= 5 && rest[0] == 'u' && forall i :: 1 <= i < 5 ==> IsHexChar(rest[i]))
    ensures Decoded(['%'] + rest, plusIsSpace) == ['%'] + Decoded(rest, plusIsSpace)
  {
    var t := ['%'] + rest;
    assert t[1..] == rest;
    if |rest| > 0 && rest[0] == 'u' {
      NoHexNumber(rest[1..], 4, 0);
      assert t[2..] == rest[1..];
      assert forall i :: 0 <= i < |rest| - 1 ==> rest[1..][i] == rest[i + 1];
    } else {
      NoHexNumber(rest, 2, 0);
    }
  }

  lemma {:induction false} NoHexNumber(t: Text, count: nat, high: nat)
    ensures HexNumber(t, count, high).Some? <==> |t| >= count && forall i :: 0 <= i < count ==> IsHexChar(t[i])
    decreases count
  {
    if count > 0 && t != [] {
      HexOfIs(t[0], 0);
      if HexOf(t[0]).Some? {
        NoHexNumber(t[1..], count - 1, 16 * high + HexOf(t[0]).value);
        assert forall i :: 0 <= i < |t| - 1 ==> t[1..][i] == t[i + 1];
        assert forall i :: 1 <= i < |t| ==> t[i] == t[1..][i - 1];
      }
    }
  }

  const UPPER_DIGITS: Text := "0123456789ABCDEF"

  /** Encoding byte by byte: letters, digits and nine marks stay, every other byte becomes two upper-case digits. */
  lemma EncodeFront(c: Byte, rest: Text)
    ensures Encoded([c] + rest)
         == (if 'a' <= c <= 'z' || 'A' <= c <= 'Z' || '0' <= c <= '9' || c in "-_.!~*'()" then [c]
             else ['%', UPPER_DIGITS[c as int / 16], UPPER_DIGITS[c as int % 16]]) + Encoded(rest)
  {
    assert ([c] + rest)[1..] == rest;
    UpperDigit(c as int / 16);
    UpperDigit(c as int % 16);
  }

  lemma UpperDigit(n: nat)
    requires n < 16
    ensures HexDigit(n) == UPPER_DIGITS[n]
  {
  }

  // ---------------------------------------------------------------------------------------------
  // The loops
  // ---------------------------------------------------------------------------------------------

  lemma {:induction false} EncodedFrom(value: Text, i: nat, escaped: Text)
    requires i < |value|
    ensures escaped + Encoded(value[i..]) == escaped + EncodeByte(value[i]) + Encoded(value[i + 1..])
  {
    assert value[i..][1..] == value[i + 1..];
  }

  lemma {:induction false} DecodedFrom(s: Text, plusIsSpace: bool, i: nat, more: Text, used: nat, result: Text)
    requires i < |s| && DecodeFront(s[i..], plusIsSpace) == (more, used)
    ensures i + used <= |s|
    ensures result + Decoded(s[i..], plusIsSpace) == result + more + Decoded(s[i + used..], plusIsSpace)
  {
    assert s[i..][used..] == s[i + used..];
    assert Decoded(s[i..], plusIsSpace) == more + Decoded(s[i + used..], plusIsSpace);
  }

  method EncodeQueryParam(value: Text) returns (escaped: Text)
    ensures escaped == Encoded(value)
  {
    escaped := [];
    for i := 0 to |value|
      invariant escaped + Encoded(value[i..]) == Encoded(value)
    {
      var c := value[i];
      EncodedFrom(value, i, escaped);
      if Unreserved(c) {
        escaped := escaped + [c];
      } else {
        escaped := escaped + ['%', HexDigit(c as int / 16), HexDigit(c as int % 16)];
      }
    }
    assert escaped + [] == escaped;
  }

  method FromHexToI(s: Text, start: nat, count: nat) returns (r: Option<nat>)
    requires count > 0
    ensures r == if start > |s| then None else HexNumber(s[start..], count, 0)
  {
    if start >= |s| {
      return None;
    }
    var val: nat, i: nat, left: nat := 0, start, count;
    while left > 0
      invariant i <= |s| && HexNumber(s[start..], count, 0) == HexNumber(s[i..], left, val)
      decreases left
    {
      if i == |s| {
        return None;
      }
      var v := HexOf(s[i]);
      if v.None? {
        return None;
      }
      assert s[i..][1..] == s[i + 1..];
      val := val * 16 + v.value;
      i, left := i + 1, left - 1;
    }
    return Some(val);
  }

  method DecodeUrl(s: Text, plusIsSpace: bool) returns (result: Text)
    ensures result == Decoded(s, plusIsSpace)
  {
    result := [];
    var i := 0;
    while i < |s|
      invariant i <= |s| && result + Decoded(s[i..], plusIsSpace) == Decoded(s, plusIsSpace)
    {
      var more, used := DecodeOne(s, i, plusIsSpace);
      DecodedFrom(s, plusIsSpace, i, more, used, result);
      result := result + more;
      i := i + used;
    }
    assert result + [] == result;
  }

  method DecodeOne(s: Text, i: nat, plusIsSpace: bool) returns (more: Text, used: nat)
    requires i < |s|
    ensures (more, used) == DecodeFront(s[i..], plusIsSpace)
  {
    assert i + 1 < |s| ==> s[i..][1..] == s[i + 1..] && s[i..][2..] == s[i + 2..];
    HexNumberBound(s[i + 1..], 2, 0);
    if s[i] == '%' && i + 1 < |s| {
      if s[i + 1] == 'u' {
        var val := FromHexToI(s, i + 2, 4);
        if val.Some? {
          return ToUtf8(val.value), 6;
        }
      } else {
        var val := FromHexToI(s, i + 1, 2);
        if val.Some? {
          return [ToByte(val.value)], 3;
        }
      }
      return ['%'], 1;
    }
    if plusIsSpace && s[i] == '+' {
      return [' '], 1;
    }
    return [s[i]], 1;
  }
}
