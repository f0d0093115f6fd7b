/**
 * The bfloat16 helpers of the C++ testbench (include/bf16.hpp).
 *
 * A bfloat16 is the upper half of an IEEE 754-2008 binary32 word
 * (section 3.4 of IEEE 754-2008): bit 15 is the sign, bits 14..7 the
 * biased exponent and bits 6..0 the top seven bits of the significand.
 * The C++ `u16`/`u32` are `bv16`/`bv32` here, and a `float` is its 32-bit
 * pattern, so `std::bit_cast` between `float` and `u32` is the identity.
 */
module Bf16 {
  import opened Wrappers
  import opened Hex
  import opened Words

  // ---------------------------------------------------------------------
  // Conversion to and from binary32 (truncation, no rounding)
  // ---------------------------------------------------------------------

  /** `fromFloat`: keep sign, exponent and the top 7 mantissa bits of a binary32 pattern. */
  function FromFloat(floatBits: bv32): (r: bv16)
    ensures r as bv32 == floatBits >> 16
  {
    var sign := (floatBits >> 31) & 0x1;
    var exponent := (floatBits >> 23) & 0xFF;
    var mantissa := floatBits & 0x7FFFFF;
    (((sign << 15) | (exponent << 7) | ((mantissa >> 16) & 0x7F)) & 0xFFFF) as bv16
  }

  /** `toFloat`: the binary32 pattern whose top half is `bfloat` and whose low half is zero. */
  function ToFloat(bfloat: bv16): (r: bv32)
    ensures r >> 16 == bfloat as bv32
    ensures r & 0xFFFF == 0
  {
    var sign := (bfloat >> 15) as bv32;
    var exponent := (bfloat >> 7) as bv32 & 0xFF;
    var mantissa := (bfloat & 0x7F) as bv32;
    (sign << 31) | (exponent << 23) | (mantissa << 16)
  }

  /** Converting to binary32 and back gives back every one of the 65536 patterns. */
  lemma FromToFloat(b: bv16)
    ensures FromFloat(ToFloat(b)) == b
  {
  }

  /** Converting a binary32 pattern to bfloat16 and back clears exactly its low 16 bits. */
  lemma ToFromFloat(x: bv32)
    ensures ToFloat(FromFloat(x)) == x & 0xFFFF_0000
    ensures x & 0xFFFF == 0 <==> ToFloat(FromFloat(x)) == x
  {
  }

  // ---------------------------------------------------------------------
  // Fields
  // ---------------------------------------------------------------------

  /**
   * `fromSignExpFrac`: only the mantissa is masked. An exponent wider than
   * 8 bits or a sign wider than 1 bit is shifted as it is and the result is
   * cut to 16 bits, so an exponent's bit 8 lands on the sign bit.
   */
  function FromSignExpFrac(sign: bv16, exponent: bv16, mantissa: bv16): (r: bv16)
    ensures r & 0x7F == mantissa & 0x7F
    ensures r >> 7 == ((sign << 8) | exponent) & 0x1FF
  {
    (sign << 15) | (exponent << 7) | (mantissa & 0x7F)
  }

  function Sign(bfloat: bv16): (r: bv16)
    ensures r <= 1
    ensures r == 1 <==> bfloat >= 0x8000
  {
    bfloat >> 15
  }

  function Exponent(bfloat: bv16): (r: bv16)
    ensures r <= 0xFF
    ensures r << 7 == bfloat & 0x7F80
  {
    (bfloat >> 7) & 0xFF
  }

  function Mantissa(bfloat: bv16): (r: bv16)
    ensures r <= 0x7F
    ensures r <= bfloat && (bfloat - r) & 0x7F == 0
  {
    bfloat & 0x7F
  }

  /** Every pattern is recomposed from its three fields. */
  lemma Recompose(b: bv16)
    ensures FromSignExpFrac(Sign(b), Exponent(b), Mantissa(b)) == b
  {
  }

  /** In-range fields are read back unchanged; the mantissa is cut to 7 bits. */
  lemma FieldsOfFromSignExpFrac(sign: bv16, exponent: bv16, mantissa: bv16)
    requires sign <= 1 && exponent <= 0xFF
    ensures Sign(FromSignExpFrac(sign, exponent, mantissa)) == sign
    ensures Exponent(FromSignExpFrac(sign, exponent, mantissa)) == exponent
    ensures Mantissa(FromSignExpFrac(sign, exponent, mantissa)) == mantissa & 0x7F
  {
  }

  /** An exponent of 9 bits is not masked: its top bit becomes the sign of the result. */
  lemma WideExponentSetsSign()
    ensures FromSignExpFrac(0, 0x100, 0) == 0x8000
    ensures Sign(FromSignExpFrac(0, 0x100, 0)) == 1 && Exponent(FromSignExpFrac(0, 0x100, 0)) == 0
  {
  }

  // ---------------------------------------------------------------------
  // Classification
  // ---------------------------------------------------------------------

  /** `isInf`: the two infinities, 0x7F80 and 0xFF80. */
  function IsInf(bfloat: bv16): (r: bool)
    ensures r <==> bfloat & 0x7FFF == 0x7F80
  {
    Exponent(bfloat) == 0xFF && Mantissa(bfloat) == 0
  }

  /** `isNAN`: the magnitudes above infinity. */
  function IsNaN(bfloat: bv16): (r: bool)
    ensures r <==> bfloat & 0x7FFF > 0x7F80
  {
    Exponent(bfloat) == 0xFF && Mantissa(bfloat) != 0
  }

  /**
   * `isSNAN`: a NaN whose quiet bit (section 6.2.1 of IEEE 754-2008), mask
   * 0x40, is clear; these are the magnitudes 0x7F81 to 0x7FBF.
   */
  function IsSNaN(bfloat: bv16): (r: bool)
    ensures r <==> 0x7F80 < bfloat & 0x7FFF < 0x7FC0
  {
    IsNaN(bfloat) && (bfloat & 0x40) == 0
  }

  /** `isQNAN`: a NaN with the quiet bit set; the magnitudes from 0x7FC0 up. */
  function IsQNaN(bfloat: bv16): (r: bool)
    ensures r <==> bfloat & 0x7FFF >= 0x7FC0
  {
    IsNaN(bfloat) && (bfloat & 0x40) != 0
  }

  /** `isDenormal`: the non-zero magnitudes below the smallest normal number 0x0080. */
  function IsDenormal(bfloat: bv16): (r: bool)
    ensures r <==> 0 < bfloat & 0x7FFF < 0x80
  {
    Exponent(bfloat) == 0 && Mantissa(bfloat) != 0
  }

  /** `isZero`: the two zeros, 0x0000 and 0x8000. */
  function IsZero(bfloat: bv16): (r: bool)
    ensures r <==> bfloat & 0x7FFF == 0
  {
    Exponent(bfloat) == 0 && Mantissa(bfloat) == 0
  }

  /** Not a predicate of the header: the finite non-zero numbers with an implicit leading one. */
  predicate IsNormal(bfloat: bv16) {
    Exponent(bfloat) != 0 && Exponent(bfloat) != 0xFF
  }

  /** Mask 0x40 selects the most significant of the seven mantissa bits. */
  lemma QuietBitIsTopMantissaBit(b: bv16)
    ensures (b & 0x40 != 0) <==> Mantissa(b) >= 0x40
  {
  }

  /** Signalling and quiet NaNs split the NaNs. */
  lemma NaNPartition(b: bv16)
    ensures IsNaN(b) <==> IsSNaN(b) || IsQNaN(b)
    ensures !(IsSNaN(b) && IsQNaN(b))
  {
  }

  /** The number of the six classes a pattern is in. */
  function ClassCount(b: bv16): nat {
    (if IsZero(b) then 1 else 0) + (if IsDenormal(b) then 1 else 0) +
    (if IsInf(b) then 1 else 0) + (if IsSNaN(b) then 1 else 0) +
    (if IsQNaN(b) then 1 else 0) + (if IsNormal(b) then 1 else 0)
  }

  /** Every pattern is in exactly one of zero, denormal, infinity, signalling NaN, quiet NaN, normal. */
  lemma ExactlyOneClass(b: bv16)
    ensures ClassCount(b) == 1
    ensures !(IsZero(b) && IsDenormal(b)) && !(IsZero(b) && IsInf(b)) && !(IsZero(b) && IsNaN(b))
    ensures !(IsDenormal(b) && IsInf(b)) && !(IsDenormal(b) && IsNaN(b)) && !(IsInf(b) && IsNaN(b))
  {
  }

  /** The special values built from fields are classified as the format defines them. */
  lemma SpecialEncodings()
    ensures IsInf(FromSignExpFrac(0, 0xFF, 0))
    ensures IsQNaN(FromSignExpFrac(0, 0xFF, 0x40))
    ensures IsSNaN(FromSignExpFrac(1, 0xFF, 0x01)) && Sign(FromSignExpFrac(1, 0xFF, 0x01)) == 1
    ensures IsZero(FromSignExpFrac(0, 0, 0)) && IsZero(FromSignExpFrac(1, 0, 0))
  {
  }

  // ---------------------------------------------------------------------
  // fromString
  // ---------------------------------------------------------------------

  /**
   * The state of an `istringstream` after one formatted extraction: whether
   * `fail()` is set, whether `eof()` is set (the extraction reached the end of
   * the text), and the value stored.
   */
  datatype Extraction<T> = Extraction(fail: bool, eof: bool, value: T)

  /** The characters a formatted extraction skips before it reads, as `isspace` in the "C" locale. */
  predicate IsSkippedSpace(c: char) {
    c == ' ' || ('\t' <= c <= '\r')
  }

  /** The number of leading characters that a formatted extraction skips. */
  function SkippedSpaces(s: string): (n: nat)
    ensures n <= |s|
    ensures forall i :: 0 <= i < n ==> IsSkippedSpace(s[i])
    ensures n < |s| ==> !IsSkippedSpace(s[n])
  {
    if s == [] || !IsSkippedSpace(s[0]) then 0 else 1 + SkippedSpaces(s[1..])
  }

  /** What an extraction reads: the text after the skipped leading whitespace. */
  function Unskipped(s: string): string {
    s[SkippedSpaces(s)..]
  }

  /** The number of leading hexadecimal digits of `s`. */
  function HexPrefix(s: string): (n: nat)
    ensures n <= |s|
    ensures forall i :: 0 <= i < n ==> IsHexDigit(s[i])
    ensures n < |s| ==> !IsHexDigit(s[n])
  {
    if s == [] || !IsHexDigit(s[0]) then 0 else 1 + HexPrefix(s[1..])
  }

  /** The sign that an integer extraction accepts at position `i`: its length, 0 or 1. */
  function SignLength(s: string, i: nat): (n: nat)
    requires i <= |s|
    ensures i + n <= |s| && n <= 1
    ensures n == 1 <==> i < |s| && (s[i] == '+' || s[i] == '-')
  {
    if i < |s| && (s[i] == '+' || s[i] == '-') then 1 else 0
  }

  /** The `0x` or `0X` prefix that `std::hex` accepts at position `i`: its length, 0 or 2. */
  function BasePrefixLength(s: string, i: nat): (n: nat)
    requires i <= |s|
    ensures i + n <= |s| && (n == 0 || n == 2)
    ensures n == 2 <==> i + 1 < |s| && s[i] == '0' && (s[i + 1] == 'x' || s[i + 1] == 'X')
  {
    if i + 1 < |s| && s[i] == '0' && (s[i + 1] == 'x' || s[i + 1] == 'X') then 2 else 0
  }

  /** Where the hex digits of an extraction begin: after the whitespace, the sign and the base prefix. */
  function HexDigitsStart(s: string): (k: nat)
    ensures SkippedSpaces(s) <= k <= |s|
  {
    var afterSign := SkippedSpaces(s) + SignLength(s, SkippedSpaces(s));
    afterSign + BasePrefixLength(s, afterSign)
  }

  /** The extraction reads a `-` sign, which negates the value modulo 2^16. */
  predicate IsNegated(s: string) {
    SignLength(s, SkippedSpaces(s)) == 1 && s[SkippedSpaces(s)] == '-'
  }

  /** The characters from where the hex digits begin. */
  function HexDigitsOf(s: string): string {
    s[HexDigitsStart(s)..]
  }

  /** The text is, after its leading whitespace, sign and base prefix, a hex literal that fits a `u16`. */
  predicate IsHex16(s: string) {
    IsHexString(HexDigitsOf(s)) && HexValue(HexDigitsOf(s)) <= 0xFFFF
  }

  /** The `u16` that an extraction stores for the magnitude `m`: `m`, or `-m` modulo 2^16 after a `-`. */
  function Signed16(negated: bool, m: nat): (r: bv16)
    requires m <= 0xFFFF
    ensures !negated ==> r as int == m
    ensures negated ==> r as int == (0x10000 - m) % 0x10000
  {
    if negated && m != 0 then
      assert (0x10000 - m) % 0x10000 == 0x10000 - m;
      ToU16(0x10000 - m)
    else ToU16(m)
  }

  /**
   * `stream >> std::hex >> hexValue` into a `u16`, as libstdc++'s `num_get`
   * does it: leading whitespace is skipped, then an optional `+` or `-`, then
   * an optional `0x` or `0X`, then the longest run of hex digits is read. No
   * digit, or a magnitude above 0xFFFF, sets `fail()` (and stores 0,
   * respectively 0xFFFF); a `-` negates the magnitude in unsigned
   * arithmetic; `eof()` is set when the reading reaches the end of the text.
   */
  function ExtractHex16(s: string): (e: Extraction<bv16>)
    ensures !e.fail && e.eof <==> IsHex16(s)
    ensures !e.fail ==>
      var digits := HexDigitsOf(s)[..HexPrefix(HexDigitsOf(s))];
      HexValue(digits) <= 0xFFFF && e.value == Signed16(IsNegated(s), HexValue(digits))
  {
    var digits := HexDigitsOf(s);
    var n := HexPrefix(digits);
    var m := HexValue(digits[..n]);
    assert n == |digits| ==> digits[..n] == digits;
    Extraction(n == 0 || m > 0xFFFF, HexDigitsStart(s) + n == |s|,
      if n == 0 then 0 else if m > 0xFFFF then 0xFFFF else Signed16(IsNegated(s), m))
  }

  /** Characters a C++ `float` extraction can consume after the whitespace: digits, signs, the decimal point, the exponent mark. */
  predicate IsDecimalChar(c: char) {
    ('0' <= c <= '9') || c == '+' || c == '-' || c == '.' || c == 'e' || c == 'E'
  }

  /**
   * What is assumed of the decimal extraction `stream >> floatValue`, which
   * the model takes as a parameter: it reaches the end of the text without
   * failing only when the text, after its leading whitespace, is non-empty
   * and made of decimal-literal characters.
   */
  ghost predicate DecimalExtraction(floatScan: string -> Extraction<bv32>) {
    forall s :: !floatScan(s).fail && floatScan(s).eof ==>
      |Unskipped(s)| > 0 && forall i :: 0 <= i < |Unskipped(s)| ==> IsDecimalChar(Unskipped(s)[i])
  }

  /**
   * `fromString`: a 16-bit hex literal that makes up the whole text (after
   * leading whitespace, with an optional sign and `0x`) wins; otherwise the
   * text is read again as a decimal float, which must make up the whole text
   * too, and is truncated by `FromFloat`; otherwise nothing.
   */
  function FromString(str: string, floatScan: string -> Extraction<bv32>): (r: Option<bv16>)
    ensures IsHex16(str) ==> r == Some(Signed16(IsNegated(str), HexValue(HexDigitsOf(str))))
    ensures !IsHex16(str) ==> (r.Some? <==> !floatScan(str).fail && floatScan(str).eof)
    ensures !IsHex16(str) && r.Some? ==> r.value == FromFloat(floatScan(str).value)
  {
    var hex := ExtractHex16(str);
    if !hex.fail && hex.eof then
      assert HexDigitsOf(str)[..HexPrefix(HexDigitsOf(str))] == HexDigitsOf(str);
      Some(hex.value)
    else
      var decimal := floatScan(str);
      if !decimal.fail && decimal.eof then Some(FromFloat(decimal.value)) else None
  }

  /**
   * A text with a character, past the leading whitespace, that neither
   * extraction can consume gives nothing. The `x` of a `0x` prefix that
   * the hex reading takes, the character just before its digits, is the
   * one character outside the two alphabets that an extraction consumes.
   */
  lemma FromStringRejects(str: string, floatScan: string -> Extraction<bv32>, k: nat)
    requires DecimalExtraction(floatScan)
    requires SkippedSpaces(str) <= k < |str| && !IsHexDigit(str[k]) && !IsDecimalChar(str[k])
    requires k + 1 != HexDigitsStart(str)
    ensures FromString(str, floatScan) == None
  {
    NotHex16At(str, k);
    var body := Unskipped(str);
    assert body[k - SkippedSpaces(str)] == str[k];
    assert !(forall i :: 0 <= i < |body| ==> IsDecimalChar(body[i]));
    assert floatScan(str).fail || !floatScan(str).eof;
  }

  /** The hex reading does not take the whole text when a character past the whitespace is none of its own. */
  lemma NotHex16At(str: string, k: nat)
    requires SkippedSpaces(str) <= k < |str| && !IsHexDigit(str[k]) && str[k] != '+' && str[k] != '-'
    requires k + 1 != HexDigitsStart(str)
    ensures !IsHex16(str)
  {
    var start := HexDigitsStart(str);
    if k < start {
      BeforeDigits(str, k);
    } else {
      var digits := HexDigitsOf(str);
      assert digits[k - start] == str[k];
      assert !IsHexString(digits);
    }
  }

  /** Between the whitespace and the digits come only a sign, the `0` of a prefix, and its `x` just before the digits. */
  lemma BeforeDigits(str: string, k: nat)
    requires SkippedSpaces(str) <= k < HexDigitsStart(str)
    ensures str[k] == '+' || str[k] == '-' || str[k] == '0' || k + 1 == HexDigitsStart(str)
  {
  }

  /** The empty text, and a text of whitespace only, give nothing. */
  lemma FromStringEmpty(floatScan: string -> Extraction<bv32>, spaces: string)
    requires DecimalExtraction(floatScan)
    requires forall i :: 0 <= i < |spaces| ==> IsSkippedSpace(spaces[i])
    ensures FromString(spaces, floatScan) == None
  {
    assert SkippedSpaces(spaces) == |spaces|;
  }

  /** A result that is not the hex reading of the whole text is the truncation of some binary32 pattern. */
  lemma FromStringDecimalIsTruncation(str: string, floatScan: string -> Extraction<bv32>)
    requires FromString(str, floatScan).Some?
    requires !IsHex16(str)
    ensures exists bits: bv32 :: FromString(str, floatScan).value == FromFloat(bits)
  {
  }

  /** Hex wins over decimal, whatever the decimal extraction would have made of the text. */
  lemma FromStringHexWins(floatScan: string -> Extraction<bv32>)
    ensures FromString("100", floatScan) == Some(0x0100)
    ensures FromString("1e3", floatScan) == Some(0x01E3)
    ensures FromString("3F80", floatScan) == Some(0x3F80)
  {
    HexWinsValues();
    FromStringDigits("100", floatScan);
    FromStringDigits("1e3", floatScan);
    FromStringDigits("3F80", floatScan);
    assert ToU16(0x100) == 0x0100 && ToU16(0x1E3) == 0x01E3 && ToU16(0x3F80) == 0x3F80;
  }

  /** The values of the three literals read above. */
  lemma HexWinsValues()
    ensures IsHexString("100") && HexValue("100") == 0x100
    ensures IsHexString("1e3") && HexValue("1e3") == 0x1E3
    ensures IsHexString("3F80") && HexValue("3F80") == 0x3F80
  {
    assert HexValue("1") == 1 by { assert "1"[..0] == ""; }
    assert HexValue("10") == 0x10 by { assert "10"[..1] == "1"; }
    assert HexValue("100") == 0x100 by { assert "100"[..2] == "10"; }
    assert HexValue("1e") == 0x1E by { assert "1e"[..1] == "1"; }
    assert HexValue("1e3") == 0x1E3 by { assert "1e3"[..2] == "1e"; }
    assert HexValue("3F80") == 0x3F80 by { HexValue4("3F80"); }
  }

  /** A text of hex digits that starts with a digit other than `0` and fits 16 bits is its own value. */
  lemma FromStringDigits(s: string, floatScan: string -> Extraction<bv32>)
    requires IsHexString(s) && s[0] != '0' && HexValue(s) <= 0xFFFF
    ensures FromString(s, floatScan) == Some(ToU16(HexValue(s)))
  {
    UnsignedDigits(s);
  }

  /**
   * The sign and the base prefix of the hex reading: `0x` and `+` leave the
   * value of the digits as it is, and `-` gives its negation modulo 2^16.
   */
  lemma FromStringSigned(d: string, floatScan: string -> Extraction<bv32>)
    requires IsHexString(d) && HexValue(d) <= 0xFFFF
    ensures FromString("0x" + d, floatScan) == Some(ToU16(HexValue(d)))
    ensures FromString("+" + d, floatScan) == Some(ToU16(HexValue(d)))
    ensures FromString("-" + d, floatScan) == Some(Signed16(true, HexValue(d)))
    ensures (FromString("-" + d, floatScan).value as int + HexValue(d)) % 0x10000 == 0
  {
    DigitsAfter("0x", d);
    assert IsHex16("0x" + d);
    DigitsAfter("+", d);
    assert IsHex16("+" + d);
    DigitsAfter("-", d);
    assert IsHex16("-" + d);
    var m := HexValue(d);
    var r := FromString("-" + d, floatScan).value;
    assert r == Signed16(true, m);
    assert r as int + m == 0 || r as int + m == 0x10000;
  }

  /** After a `0x`, `+` or `-` the hex reading begins at the digits, negated after the `-` only. */
  lemma DigitsAfter(pre: string, d: string)
    requires pre == "0x" || pre == "+" || pre == "-"
    requires IsHexString(d)
    ensures HexDigitsOf(pre + d) == d
    ensures IsNegated(pre + d) <==> pre == "-"
  {
    var t := pre + d;
    assert SkippedSpaces(t) == 0;
    if pre == "0x" {
      assert SignLength(t, 0) == 0 && BasePrefixLength(t, 0) == 2;
      assert t[2..] == d;
    } else {
      assert SignLength(t, 0) == 1;
      assert t[1] == d[0];
      assert BasePrefixLength(t, 1) == 0;
      assert t[1..] == d;
    }
  }

  /**
   * "0x10" is 0x0010, "+5" is 0x0005, and "-1" is 0xFFFF, a NaN pattern
   * rather than the truncation of -1.0.
   */
  lemma FromStringSignExamples(floatScan: string -> Extraction<bv32>)
    ensures FromString("0x10", floatScan) == Some(0x0010)
    ensures FromString("+5", floatScan) == Some(0x0005)
    ensures FromString("-1", floatScan) == Some(0xFFFF) && IsNaN(0xFFFF)
  {
    assert "0x10" == "0x" + "10" && "+5" == "+" + "5" && "-1" == "-" + "1";
    OneDigitValues();
    FromStringSigned("10", floatScan);
    FromStringSigned("5", floatScan);
    FromStringSigned("1", floatScan);
    assert ToU16(0x10) == 0x0010 && ToU16(5) == 0x0005;
    assert Signed16(true, 1) == ToU16(0xFFFF) == 0xFFFF;
  }

  /** The values of the digits read above. */
  lemma OneDigitValues()
    ensures IsHexString("10") && HexValue("10") == 0x10
    ensures IsHexString("5") && HexValue("5") == 5
    ensures IsHexString("1") && HexValue("1") == 1
  {
    assert HexValue("10") == 0x10 by { assert "10"[..1] == "1"; assert "1"[..0] == ""; }
    assert HexValue("5") == 5 by { assert "5"[..0] == ""; }
    assert HexValue("1") == 1 by { assert "1"[..0] == ""; }
  }

  /** A text that starts with a digit other than `0` is read from its first character, unsigned. */
  lemma UnsignedDigits(s: string)
    requires |s| > 0 && IsHexDigit(s[0]) && s[0] != '0'
    ensures HexDigitsOf(s) == s && !IsNegated(s)
  {
    assert SkippedSpaces(s) == 0;
  }

  /** Trailing garbage or whitespace, and the empty text, give nothing. */
  lemma FromStringAbsentExamples(floatScan: string -> Extraction<bv32>)
    requires DecimalExtraction(floatScan)
    ensures FromString("12G", floatScan) == None
    ensures FromString("12 ", floatScan) == None
    ensures FromString("", floatScan) == None
  {
    FromStringRejects("12G", floatScan, 2);
    FromStringRejects("12 ", floatScan, 2);
    FromStringEmpty(floatScan, "");
  }

  /**
   * Leading whitespace is skipped by both readings: " 3F80" is the hex
   * value, and " 1.5", whose hex reading stops at the '.', is read as a
   * decimal.
   */
  lemma FromStringLeadingSpace(floatScan: string -> Extraction<bv32>)
    ensures FromString(" 3F80", floatScan) == Some(0x3F80)
    ensures FromString(" 1.5", floatScan) ==
      if !floatScan(" 1.5").fail && floatScan(" 1.5").eof then Some(FromFloat(floatScan(" 1.5").value)) else None
  {
    HexWinsValues();
    SpaceThenDigits();
    assert ToU16(0x3F80) == 0x3F80;
    NotHex16At(" 1.5", 2);
  }

  /** Where the readings of " 3F80" and " 1.5" begin. */
  lemma SpaceThenDigits()
    ensures HexDigitsOf(" 3F80") == "3F80" && !IsNegated(" 3F80")
    ensures Unskipped(" 1.5") == "1.5" && HexDigitsStart(" 1.5") == 1
  {
    assert " 3F80"[1..] == "3F80" && SkippedSpaces("3F80") == 0;
    assert SkippedSpaces(" 3F80") == 1;
    assert " 1.5"[1..] == "1.5" && SkippedSpaces("1.5") == 0;
    assert SkippedSpaces(" 1.5") == 1;
  }

  /** A 16-bit overflow of the hex reading falls back to the decimal reading. */
  lemma FromStringOverflowIsDecimal(floatScan: string -> Extraction<bv32>)
    ensures FromString("10000", floatScan) ==
      if !floatScan("10000").fail && floatScan("10000").eof then Some(FromFloat(floatScan("10000").value)) else None
  {
    TooWideForU16();
    UnsignedDigits("10000");
    assert !IsHex16("10000");
  }

  /** "10000" is hex digits only, but its value needs 17 bits. */
  lemma TooWideForU16()
    ensures Unskipped("10000") == "10000" && IsHexString("10000") && HexValue("10000") == 0x10000
  {
    assert SkippedSpaces("10000") == 0;
    assert HexValue("1") == 1 by { assert "1"[..0] == ""; }
    assert HexValue("10") == 0x10 by { assert "10"[..1] == "1"; }
    assert HexValue("100") == 0x100 by { assert "100"[..2] == "10"; }
    assert HexValue("1000") == 0x1000 by { assert "1000"[..3] == "100"; }
    assert HexValue("10000") == 0x10000 by { assert "10000"[..4] == "1000"; }
  }
}

/** The numbers that the C++ conversions stand for, as the Python side computes with them. */
module Bf16Values {
  import opened Words
  import opened Bf16

  /** The number of the truncation is the pattern's number divided by 2^16. */
  lemma FromFloatValue(bits: bv32)
    ensures FromFloat(bits) as int == Value32(bits) / 65536
  {
    assert FromFloat(bits) == Hi(bits);
    assert Lo(bits) as int < 65536;
  }

  /** The number of the expansion is the half-word's number times 2^16. */
  lemma ToFloatValue(b: bv16)
    ensures Value32(ToFloat(b)) == b as int * 65536
  {
    assert Hi(ToFloat(b)) == b && Lo(ToFloat(b)) == 0;
  }
}
