/**
 * Hexadecimal digits as both front ends read them: `std::hex` extraction in
 * C++ and `int(text, 16)` in Python accept the digits in either case; Python's
 * `bytes.hex()` writes them in lower case.
 */
module Hex {

  /** A digit as `bytes.hex()` writes it. */
  predicate IsLowerHexDigit(c: char) {
    ('0' <= c <= '9') || ('a' <= c <= 'f')
  }

  predicate IsHexDigit(c: char) {
    IsLowerHexDigit(c) || ('A' <= c <= 'F')
  }

  function DigitValue(c: char): (r: nat)
    requires IsHexDigit(c)
    ensures r < 16
  {
    if '0' <= c <= '9' then c as int - '0' as int
    else if 'a' <= c <= 'f' then c as int - 'a' as int + 10
    else c as int - 'A' as int + 10
  }

  /** A non-empty run of hexadecimal digits and nothing else. */
  predicate IsHexString(s: string) {
    |s| > 0 && forall i :: 0 <= i < |s| ==> IsHexDigit(s[i])
  }

  /** The number a run of digits denotes, most significant digit first; 0 for the empty run. */
  function HexValue(s: string): (r: nat)
    requires forall i :: 0 <= i < |s| ==> IsHexDigit(s[i])
  {
    if s == [] then 0 else HexValue(s[..|s| - 1]) * 16 + DigitValue(s[|s| - 1])
  }

  /** The lower-case digit for a nibble. */
  function LowerDigit(n: nat): (c: char)
    requires n < 16
    ensures IsHexDigit(c) && DigitValue(c) == n
    ensures IsLowerHexDigit(c)
  {
    "0123456789abcdef"[n]
  }

  /** A lower-case digit is written back as itself. */
  lemma LowerDigitOfValue(c: char)
    requires IsLowerHexDigit(c)
    ensures IsHexDigit(c) && LowerDigit(DigitValue(c)) == c
  {
  }

  /** The value of four digits, spelled out. */
  lemma HexValue4(s: string)
    requires |s| == 4 && IsHexString(s)
    ensures HexValue(s) == DigitValue(s[0]) * 4096 + DigitValue(s[1]) * 256 + DigitValue(s[2]) * 16 + DigitValue(s[3])
  {
    assert s[..3][..2] == s[..2] && s[..2][..1] == s[..1] && s[..1][..0] == [];
    assert HexValue(s[..1]) == DigitValue(s[0]);
    assert HexValue(s[..2]) == DigitValue(s[0]) * 16 + DigitValue(s[1]);
    assert HexValue(s[..3]) == (DigitValue(s[0]) * 16 + DigitValue(s[1])) * 16 + DigitValue(s[2]);
  }

  lemma DivMod16(a: nat, b: nat)
    requires b < 16
    ensures (a * 16 + b) / 16 == a && (a * 16 + b) % 16 == b
  {
  }

  lemma DivMod256(a: nat, b: nat)
    requires b < 256
    ensures (a * 256 + b) / 256 == a && (a * 256 + b) % 256 == b
  {
  }
}
