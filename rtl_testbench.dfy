/**
 * The conversions of the Python notebook helper `RTLTestbench`
 * (notebooks/rtl_testbench.py). Python integers are unbounded, so they are
 * `int`/`nat` here; a Python `float` packed with `'>f'` is its 32-bit
 * pattern, the number `struct.unpack('>I', ...)` would read from it.
 */
module RtlTestbench {
  import opened Wrappers
  import opened Hex
  import Words
  import Bf16
  import Bf16Values

  /** A number that `struct.pack('>I', ...)` accepts: a binary32 pattern. */
  type Word32 = n: nat | n < 0x1_0000_0000

  type Byte = b: nat | b < 256

  /** The two exceptions the conversions can raise. */
  datatype PyError = ValueError | StructError

  // ---------------------------------------------------------------------
  // f32_to_bf16
  // ---------------------------------------------------------------------

  /** `struct.pack('>H', v)`: two bytes, most significant first. */
  function PackUnsignedShortBE(v: nat): (bytes: seq<Byte>)
    requires v <= 0xFFFF
    ensures |bytes| == 2 && bytes[0] as int * 256 + bytes[1] as int == v
  {
    [v / 256, v % 256]
  }

  /** `bytes.hex()`: two lower-case digits per byte, high nibble first. */
  function HexOfBytes(bytes: seq<Byte>): (h: string)
    ensures |h| == 2 * |bytes|
  {
    if bytes == [] then ""
    else [LowerDigit(bytes[0] / 16), LowerDigit(bytes[0] % 16)] + HexOfBytes(bytes[1..])
  }

  /** Two bytes are written as their four nibbles. */
  lemma HexOfTwoBytes(hi: Byte, lo: Byte, d0: nat, d1: nat, d2: nat, d3: nat)
    requires hi / 16 == d0 && hi % 16 == d1 && lo / 16 == d2 && lo % 16 == d3
    ensures d0 < 16 && d1 < 16 && d2 < 16 && d3 < 16
    ensures HexOfBytes([hi, lo]) == [LowerDigit(d0), LowerDigit(d1), LowerDigit(d2), LowerDigit(d3)]
  {
    assert [hi, lo][1..] == [lo] && [lo][1..] == [];
  }

  /**
   * `f32_to_bf16`: the pattern's top 16 bits (`f32_int >> 16`) as four
   * lower-case hex digits; the low 16 bits are dropped, not rounded.
   */
  function F32ToBf16(f32Int: Word32): (h: string)
    ensures |h| == 4 && forall i :: 0 <= i < 4 ==> IsLowerHexDigit(h[i])
    ensures IsHexString(h) && HexValue(h) == f32Int / 65536
  {
    var bf16Int := f32Int / 65536;
    var h := HexOfBytes(PackUnsignedShortBE(bf16Int));
    var hi, lo := bf16Int / 256, bf16Int % 256;
    HexOfTwoBytes(hi, lo, hi / 16, hi % 16, lo / 16, lo % 16);
    HexValue4(h);
    h
  }

  // ---------------------------------------------------------------------
  // bf16_to_f32
  // ---------------------------------------------------------------------

  /**
   * `int(text, 16)`: an optional sign, an optional `0x`/`0X` prefix, then
   * at least one hex digit in either case; anything else is a ValueError.
   */
  function ParseIntBase16(text: string): (r: Result<int, PyError>)
    ensures IsHexString(text) ==> r == Ok(HexValue(text))
    ensures r.Err? ==> r.error == ValueError
    ensures |text| > 0 && text[0] == '-' && IsHexString(text[1..]) ==> r == Ok(-(HexValue(text[1..]) as int))
  {
    var negative := |text| > 0 && text[0] == '-';
    var unsigned := if |text| > 0 && (text[0] == '-' || text[0] == '+') then text[1..] else text;
    var digits := if |unsigned| >= 2 && unsigned[0] == '0' && (unsigned[1] == 'x' || unsigned[1] == 'X')
                  then unsigned[2..] else unsigned;
    if IsHexString(digits) then
      Ok(if negative then -(HexValue(digits) as int) else HexValue(digits))
    else
      Err(ValueError)
  }

  /** The empty text is not a number: `int('', 16)` raises ValueError. */
  lemma ParseIntBase16Empty()
    ensures ParseIntBase16("") == Err(ValueError)
  {
  }

  /**
   * A text with a character that `int(text, 16)` cannot take there raises
   * ValueError: not a hex digit, not a sign at the front, and not the `x`
   * of a `0x` prefix just after the optional sign.
   */
  lemma ParseIntBase16Rejects(text: string, i: nat)
    requires i < |text| && !IsHexDigit(text[i])
    requires i == 0 ==> text[i] != '+' && text[i] != '-'
    requires text[i] == 'x' || text[i] == 'X' ==> i != (if text[0] == '+' || text[0] == '-' then 2 else 1)
    ensures ParseIntBase16(text) == Err(ValueError)
  {
  }

  /** `+` in front of hex digits changes nothing. */
  lemma ParseIntBase16Plus(d: string)
    requires IsHexString(d)
    ensures ParseIntBase16("+" + d) == Ok(HexValue(d))
  {
  }

  /** A `0x` or `0X` prefix in front of hex digits changes nothing. */
  lemma ParseIntBase16Prefix(d: string)
    requires IsHexString(d)
    ensures ParseIntBase16("0x" + d) == Ok(HexValue(d))
    ensures ParseIntBase16("0X" + d) == Ok(HexValue(d))
  {
  }

  /** A blank line of the output file makes `bf16_to_f32` raise ValueError. */
  lemma BlankLineRaises(line: string)
    requires forall k :: 0 <= k < |line| ==> IsSpace(line[k])
    ensures Bf16ToF32(Strip(line)) == Err(ValueError)
  {
  }

  /** `struct.pack('>I', v)` followed by `struct.unpack('>f', ...)`: the pattern, if `v` fits 32 unsigned bits. */
  function PackUnsignedInt(v: int): (r: Result<Word32, PyError>)
    ensures r.Ok? <==> 0 <= v < 0x1_0000_0000
    ensures r.Ok? ==> r.value == v
    ensures r.Err? ==> r.error == StructError
  {
    if 0 <= v < 0x1_0000_0000 then Ok(v) else Err(StructError)
  }

  /**
   * `bf16_to_f32`: the parsed value shifted left by 16 (`bf16_int << 16`),
   * as a binary32 pattern; a value above 0xFFFF, or a negative one, does not
   * fit the 32 bits of `'>I'`.
   */
  function Bf16ToF32(bf16Hex: string): (r: Result<Word32, PyError>)
    ensures r.Ok? ==> r.value % 65536 == 0
    ensures r.Ok? ==> ParseIntBase16(bf16Hex) == Ok(r.value / 65536)
    ensures ParseIntBase16(bf16Hex).Ok? ==>
      (r.Ok? <==> 0 <= ParseIntBase16(bf16Hex).value <= 0xFFFF)
    ensures ParseIntBase16(bf16Hex).Err? ==> r == Err(ValueError)
    ensures ParseIntBase16(bf16Hex).Ok? && r.Err? ==> r == Err(StructError)
  {
    match ParseIntBase16(bf16Hex)
    case Err(e) => Err(e)
    case Ok(bf16Int) =>
      var f32Int := bf16Int * 65536;
      PackUnsignedInt(f32Int)
  }

  /** A hex text whose value exceeds 16 bits raises `struct.error`. */
  lemma Bf16ToF32TooWide(bf16Hex: string)
    requires IsHexString(bf16Hex) && HexValue(bf16Hex) > 0xFFFF
    ensures Bf16ToF32(bf16Hex) == Err(StructError)
  {
  }

  // ---------------------------------------------------------------------
  // Round trips, and agreement with the C++ codec
  // ---------------------------------------------------------------------

  /** A four-digit lower-case hex text is what its value is written as. */
  lemma LowerHex4Unique(h: string, v: nat)
    requires |h| == 4 && forall i :: 0 <= i < 4 ==> IsLowerHexDigit(h[i])
    requires v <= 0xFFFF && HexValue(h) == v
    ensures h == HexOfBytes(PackUnsignedShortBE(v))
  {
    HexValue4(h);
    var d0, d1, d2, d3 := DigitValue(h[0]), DigitValue(h[1]), DigitValue(h[2]), DigitValue(h[3]);
    var hi, lo := d0 * 16 + d1, d2 * 16 + d3;
    assert v == hi * 256 + lo;
    DivMod256(hi, lo);
    assert PackUnsignedShortBE(v) == [hi, lo];
    DivMod16(d0, d1);
    DivMod16(d2, d3);
    HexOfTwoBytes(hi, lo, d0, d1, d2, d3);
    LowerDigitOfValue(h[0]);
    LowerDigitOfValue(h[1]);
    LowerDigitOfValue(h[2]);
    LowerDigitOfValue(h[3]);
    assert HexOfBytes(PackUnsignedShortBE(v)) == [h[0], h[1], h[2], h[3]];
  }

  /** Every four-digit lower-case hex text survives `bf16_to_f32` and `f32_to_bf16`. */
  lemma HexRoundTrip(h: string)
    requires |h| == 4 && forall i :: 0 <= i < 4 ==> IsLowerHexDigit(h[i])
    ensures Bf16ToF32(h).Ok?
    ensures F32ToBf16(Bf16ToF32(h).value) == h
  {
    assert IsHexString(h);
    HexValue4(h);
    var v := HexValue(h);
    assert Bf16ToF32(h) == Ok(v * 65536);
    LowerHex4Unique(h, v);
  }

  /** `bf16_to_f32` after `f32_to_bf16` clears the low 16 bits of the pattern. */
  lemma PatternRoundTrip(f32Int: Word32)
    ensures Bf16ToF32(F32ToBf16(f32Int)) == Ok(f32Int - f32Int % 65536)
    ensures f32Int % 65536 == 0 <==> Bf16ToF32(F32ToBf16(f32Int)) == Ok(f32Int)
  {
  }

  /** The Python and C++ truncations agree on every binary32 pattern. */
  lemma AgreesWithFromFloat(bits: bv32)
    ensures HexValue(F32ToBf16(Words.Value32(bits))) == Bf16.FromFloat(bits) as int
  {
    Bf16Values.FromFloatValue(bits);
  }

  /** The C++ `toFloat` and the Python `bf16_to_f32` make the same pattern of the same four hex digits. */
  lemma AgreesWithToFloat(h: string)
    requires |h| == 4 && forall i :: 0 <= i < 4 ==> IsLowerHexDigit(h[i])
    ensures Bf16ToF32(h).Ok?
    ensures Bf16ToF32(h).value == Words.Value32(Bf16.ToFloat(Words.ToU16(HexValue(h))))
  {
    assert IsHexString(h);
    HexValue4(h);
    Bf16Values.ToFloatValue(Words.ToU16(HexValue(h)));
  }

  // ---------------------------------------------------------------------
  // parseOutput
  // ---------------------------------------------------------------------

  /** The characters for which Python's `str.isspace()` holds. */
  predicate IsSpace(c: char) {
    ('\t' <= c <= '\r') || ('\U{1C}' <= c <= ' ') || c == '\U{85}' || c == '\U{A0}' ||
    c == '\U{1680}' || ('\U{2000}' <= c <= '\U{200A}') || c == '\U{2028}' || c == '\U{2029}' ||
    c == '\U{202F}' || c == '\U{205F}' || c == '\U{3000}'
  }

  function LeadingSpaces(s: string): (n: nat)
    ensures n <= |s|
    ensures forall k :: 0 <= k < n ==> IsSpace(s[k])
    ensures n < |s| ==> !IsSpace(s[n])
  {
    if s != [] && IsSpace(s[0]) then 1 + LeadingSpaces(s[1..]) else 0
  }

  function TrailingSpaces(s: string): (n: nat)
    ensures n <= |s|
    ensures forall k :: |s| - n <= k < |s| ==> IsSpace(s[k])
    ensures n < |s| ==> !IsSpace(s[|s| - 1 - n])
  {
    if s != [] && IsSpace(s[|s| - 1]) then 1 + TrailingSpaces(s[..|s| - 1]) else 0
  }

  /** `str.strip()`: the text without the whitespace at either end. */
  function Strip(s: string): (r: string)
    ensures r == [] || (!IsSpace(r[0]) && !IsSpace(r[|r| - 1]))
    ensures forall c :: c in r ==> c in s
  {
    var lead := LeadingSpaces(s);
    var rest := s[lead..];
    rest[..|rest| - TrailingSpaces(rest)]
  }

  /** A text made of whitespace, a core that starts and ends with a non-space, and whitespace, strips to the core. */
  lemma StripCore(before: string, core: string, after: string)
    requires forall k :: 0 <= k < |before| ==> IsSpace(before[k])
    requires forall k :: 0 <= k < |after| ==> IsSpace(after[k])
    requires core == [] || (!IsSpace(core[0]) && !IsSpace(core[|core| - 1]))
    ensures Strip(before + core + after) == core
  {
    var s := before + core + after;
    var lead := LeadingSpaces(s);
    if core == [] {
      assert forall k :: 0 <= k < |s| ==> IsSpace(s[k]);
      assert lead == |s|;
    } else {
      assert !IsSpace(s[|before|]);
      assert lead == |before|;
      var rest := s[lead..];
      assert rest == core + after;
      var trail := TrailingSpaces(rest);
      assert !IsSpace(rest[|core| - 1]);
      assert trail == |after|;
      assert rest[..|rest| - trail] == core;
    }
  }

  /** Stripping a stripped text changes nothing. */
  lemma StripIdempotent(s: string)
    ensures Strip(Strip(s)) == Strip(s)
  {
    StripCore("", Strip(s), "");
    assert "" + Strip(s) + "" == Strip(s);
  }

  /**
   * `parseOutput` over the lines of the file: each line is stripped and
   * converted by `bf16_to_f32`, in order; the first line that raises ends
   * the call with that exception.
   */
  method ParseOutput(lines: seq<string>) returns (r: Result<seq<Word32>, PyError>)
    ensures r.Ok? <==> forall i :: 0 <= i < |lines| ==> Bf16ToF32(Strip(lines[i])).Ok?
    ensures r.Ok? ==> |r.value| == |lines|
    ensures r.Ok? ==> forall i :: 0 <= i < |lines| ==> Bf16ToF32(Strip(lines[i])) == Ok(r.value[i])
    ensures r.Err? ==> exists k :: 0 <= k < |lines| && Bf16ToF32(Strip(lines[k])) == Err(r.error) &&
                                   (forall j :: 0 <= j < k ==> Bf16ToF32(Strip(lines[j])).Ok?)
  {
    var floats: seq<Word32> := [];
    var n := 0;
    while n < |lines|
      invariant 0 <= n <= |lines|
      invariant |floats| == n
      invariant forall i :: 0 <= i < n ==> Bf16ToF32(Strip(lines[i])) == Ok(floats[i])
    {
      var bf16 := Strip(lines[n]);
      var converted := Bf16ToF32(bf16);
      if converted.Err? {
        return Err(converted.error);
      }
      floats := floats + [converted.value];
      n := n + 1;
    }
    return Ok(floats);
  }
}
