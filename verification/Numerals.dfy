/** Numerals as they are read by hand: the value of a row of digits, and the characters that stand for a digit. */
module Numerals {

  function Numeral(digits: seq<nat>, base: nat): nat {
    if digits == [] then 0 else base * Numeral(digits[..|digits| - 1], base) + digits[|digits| - 1]
  }

  predicate StandsFor(c: char, digit: nat) {
    digit < 10 && c as int == 48 + digit
  }

  /** Either case. */
  predicate HexStandsFor(c: char, digit: nat) {
    StandsFor(c, digit) || (10 <= digit < 16 && (c as int == 55 + digit || c as int == 87 + digit))
  }

  predicate Spells(s: string, digits: seq<nat>) {
    |s| == |digits| && forall i :: 0 <= i < |s| ==> StandsFor(s[i], digits[i])
  }

  predicate HexSpells(s: string, digits: seq<nat>) {
    |s| == |digits| && forall i :: 0 <= i < |s| ==> HexStandsFor(s[i], digits[i])
  }

  predicate IsHexChar(c: char) {
    48 <= c as int <= 57 || 65 <= c as int <= 70 || 97 <= c as int <= 102
  }

  /** The blanks that `strtoul` and its like pass over. */
  predicate AllBlank(s: string) {
    forall c :: c in s ==> c as int == 32 || 9 <= c as int <= 13
  }
}
