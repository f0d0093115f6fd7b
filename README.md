# Sigmoid pipeline testbench, modelled in Dafny

This project models the software around a pipelined bfloat16 sigmoid unit
written in Verilog:

- the bfloat16 helpers of the C++ testbench (`bf16.hpp`): conversion to and
  from a binary32 pattern by truncation, the field accessors and
  constructor, the class predicates, and `fromString`;
- the headless driver of the C++ testbench (`testbench.cpp`):
  - `stepCycles`;
  - the reset sequence of `main`;
  - `parseCmdlineArgs`, with its regression loop and exit status;
- the Python notebook helper (`rtl_testbench.py`): `f32_to_bf16`,
  `bf16_to_f32` and `parseOutput`.

The Verilated device is a `Testbench.Sigmoid` object.
- The driver assigns its input ports.
- Its `Eval` records the inputs it saw in `trace`.
- `data_out` is whatever the device's `behaviour` function makes of that
  history.

The driver's protocol is proved for every device. That protocol covers
which inputs are held for how many evaluations, in which order, and how
outputs are compared and counted. `PipelinePasses` adds what happens when
the device is an ideal five-cycle pipeline for some function `f`.

Files:
- `wrappers.dfy`: `Option` and `Result`.
- `hex.dfy`: hex digits and their values.
- `words.dfy`: 16/32-bit words and their numbers.
- `bf16.dfy`: modules `Bf16` and `Bf16Values`.
- `testbench.dfy`: module `Testbench`.
- `rtl_testbench.dfy`: module `RtlTestbench`.

In C++, a `float` is its 32-bit pattern (`bv32`), so `std::bit_cast` is the
identity. In Python, a `float` packed with `'>f'` is that pattern as a
number below 2^32. `Words.Value32` gives that number from the word's two
halves, and `Words.WordValue` proves it is the number Dafny gives the word.

`fromString` takes a sign and a `0x` prefix on its hex reading, so
`FromStringSignExamples` shows "-1" reading as 0xFFFF, a NaN, and not as
the decimal -1.0. The text box of the UI (ui.cpp:29-30) passes what is
typed to `fromString`.

`fromSignExpFrac` masks only the mantissa. The exponent and the sign are
shifted unmasked and the result is cut to 16 bits. The model follows the
code, so `WideExponentSetsSign` shows an exponent of 0x100 setting the
sign bit.

## Model

| member | source | states |
|---|---|---|
| Bf16.FromFloat | sigmoid_rtl/src/cpp_testbench/include/bf16.hpp:11-18 | the result is the top 16 bits of the pattern (`bits >> 16`); the low 16 bits are truncated, not rounded |
| Bf16.ToFloat | sigmoid_rtl/src/cpp_testbench/include/bf16.hpp:20-27 | the pattern's top 16 bits are the bfloat16 and its low 16 bits are zero |
| Bf16.FromToFloat | sigmoid_rtl/src/cpp_testbench/include/bf16.hpp:11-27 | every one of the 65536 patterns survives `toFloat` then `fromFloat` |
| Bf16.ToFromFloat | sigmoid_rtl/src/cpp_testbench/include/bf16.hpp:11-27 | `toFloat(fromFloat(x))` is `x` with its low 16 bits cleared, and it is `x` exactly when those bits are zero |
| Bf16.FromSignExpFrac | sigmoid_rtl/src/cpp_testbench/include/bf16.hpp:29-31 | the low 7 bits are the mantissa's low 7 bits; the 9 bits above them are the sign shifted over the unmasked exponent, cut to 16 bits |
| Bf16.Sign | sigmoid_rtl/src/cpp_testbench/include/bf16.hpp:33-35 | the sign is at most 1, and it is 1 exactly for patterns from 0x8000 up |
| Bf16.Exponent | sigmoid_rtl/src/cpp_testbench/include/bf16.hpp:37-39 | the exponent is at most 0xFF and is bits 14..7 of the pattern |
| Bf16.Mantissa | sigmoid_rtl/src/cpp_testbench/include/bf16.hpp:41-43 | the mantissa is at most 0x7F, and the pattern minus it has no bits among the low 7 |
| Bf16.Recompose | sigmoid_rtl/src/cpp_testbench/include/bf16.hpp:29-43 | `fromSignExpFrac(sign(b), exponent(b), mantissa(b)) == b` for every pattern |
| Bf16.FieldsOfFromSignExpFrac | sigmoid_rtl/src/cpp_testbench/include/bf16.hpp:29-43 | for a sign of at most 1 and an exponent of at most 0xFF, the accessors return the sign, the exponent and the mantissa's low 7 bits |
| Bf16.WideExponentSetsSign | sigmoid_rtl/src/cpp_testbench/include/bf16.hpp:29-31 | an exponent of 0x100 is not masked: its bit 8 lands on the sign, giving 0x8000 |
| Bf16.IsInf | sigmoid_rtl/src/cpp_testbench/include/bf16.hpp:45-47 | `isInf` holds exactly for the magnitude 0x7F80, so for the two infinities 0x7F80 and 0xFF80 |
| Bf16.IsNaN | sigmoid_rtl/src/cpp_testbench/include/bf16.hpp:49-51 | `isNAN` holds exactly for the magnitudes above 0x7F80 |
| Bf16.IsSNaN | sigmoid_rtl/src/cpp_testbench/include/bf16.hpp:53-55 | `isSNAN` holds exactly for the magnitudes 0x7F81 to 0x7FBF, the NaNs with the quiet bit clear |
| Bf16.IsQNaN | sigmoid_rtl/src/cpp_testbench/include/bf16.hpp:57-59 | `isQNAN` holds exactly for the magnitudes from 0x7FC0 up, the NaNs with the quiet bit set |
| Bf16.IsDenormal | sigmoid_rtl/src/cpp_testbench/include/bf16.hpp:61-63 | `isDenormal` holds exactly for the non-zero magnitudes below 0x0080 |
| Bf16.IsZero | sigmoid_rtl/src/cpp_testbench/include/bf16.hpp:65-67 | `isZero` holds exactly for the magnitude 0, so for 0x0000 and 0x8000 |
| Bf16.QuietBitIsTopMantissaBit | sigmoid_rtl/src/cpp_testbench/include/bf16.hpp:53-59 | mask 0x40, used to tell the two NaN kinds apart, is the top mantissa bit |
| Bf16.NaNPartition | sigmoid_rtl/src/cpp_testbench/include/bf16.hpp:49-59 | `isSNAN` and `isQNAN` are disjoint, and together they are exactly `isNAN` |
| Bf16.ExactlyOneClass | sigmoid_rtl/src/cpp_testbench/include/bf16.hpp:45-67 | `isZero`, `isDenormal`, `isInf` and `isNAN` are pairwise exclusive; with the normal numbers, every pattern is in exactly one class |
| Bf16.SpecialEncodings | sigmoid_rtl/src/cpp_testbench/include/bf16.hpp:29-67 | infinity, quiet and signalling NaNs and both zeros built from fields are classified as such |
| Bf16.SkippedSpaces | sigmoid_rtl/src/cpp_testbench/include/bf16.hpp:75 | the length of the leading run of whitespace that a formatted extraction skips before it reads |
| Bf16.HexPrefix | sigmoid_rtl/src/cpp_testbench/include/bf16.hpp:75 | the length of the maximal run of leading hex digits that the `std::hex` extraction consumes |
| Bf16.SignLength | sigmoid_rtl/src/cpp_testbench/include/bf16.hpp:75 | the extraction takes one character of sign exactly when a `+` or `-` stands where it begins to read |
| Bf16.BasePrefixLength | sigmoid_rtl/src/cpp_testbench/include/bf16.hpp:75 | after the sign, `std::hex` takes two characters exactly when they are `0x` or `0X` |
| Bf16.Signed16 | sigmoid_rtl/src/cpp_testbench/include/bf16.hpp:75 | the stored `u16` is the magnitude, or after a `-` the magnitude negated modulo 2^16 |
| Bf16.ExtractHex16 | sigmoid_rtl/src/cpp_testbench/include/bf16.hpp:73-76 | the extraction succeeds and reaches the end of the text exactly when, after its leading whitespace, an optional sign and an optional `0x`, the rest is all hex digits with a magnitude of at most 0xFFFF; a successful extraction stores that magnitude, negated modulo 2^16 after a `-` |
| Bf16.FromString | sigmoid_rtl/src/cpp_testbench/include/bf16.hpp:69-91 | a hex literal (optional sign and `0x`) that fits 16 bits and makes up the whole text after its leading whitespace is returned, negated modulo 2^16 after a `-`; otherwise there is a result exactly when the decimal extraction consumes the whole text without failing, and that result is `fromFloat` of the value read |
| Bf16.FromStringSigned | sigmoid_rtl/src/cpp_testbench/include/bf16.hpp:73-77 | for any hex digits `d` that fit 16 bits, `"0x" + d` and `"+" + d` give the value of `d`, and `"-" + d` gives the value that adds to it to 0 modulo 2^16 |
| Bf16.FromStringSignExamples | sigmoid_rtl/src/cpp_testbench/include/bf16.hpp:73-77 | "0x10" gives 0x0010, "+5" gives 0x0005, and "-1" gives 0xFFFF, which is a NaN |
| Bf16.FromStringHexWins | sigmoid_rtl/src/cpp_testbench/include/bf16.hpp:73-77 | hex wins over decimal: "100" gives 0x0100, "1e3" gives 0x01E3 and "3F80" gives 0x3F80, whatever the decimal reading would be |
| Bf16.FromStringOverflowIsDecimal | sigmoid_rtl/src/cpp_testbench/include/bf16.hpp:76-90 | "10000" overflows 16 bits, so it falls back to the decimal reading |
| Bf16.FromStringDecimalIsTruncation | sigmoid_rtl/src/cpp_testbench/include/bf16.hpp:78-90 | any result that is not the hex reading is `fromFloat` of some 32-bit pattern |
| Bf16.FromStringRejects | sigmoid_rtl/src/cpp_testbench/include/bf16.hpp:73-90 | a text holding, past its leading whitespace, a character that neither extraction consumes gives `nullopt`; the `x` of a `0x` prefix that the hex reading takes is the one such character that is consumed, and it is excluded |
| Bf16.NotHex16At | sigmoid_rtl/src/cpp_testbench/include/bf16.hpp:75-76 | the hex reading does not take the whole text when some character past the whitespace is neither a hex digit, a sign, nor the `x` of its prefix |
| Bf16.FromStringEmpty | sigmoid_rtl/src/cpp_testbench/include/bf16.hpp:69-90 | the empty text, and any text of whitespace only, gives `nullopt` |
| Bf16.FromStringAbsentExamples | sigmoid_rtl/src/cpp_testbench/include/bf16.hpp:76-90 | "12G", "12 " (trailing space) and "" give `nullopt` |
| Bf16.FromStringLeadingSpace | sigmoid_rtl/src/cpp_testbench/include/bf16.hpp:75-85 | both readings skip leading whitespace: " 3F80" gives 0x3F80, and " 1.5" stops the hex reading at the '.' and falls to the decimal reading |
| Bf16.TooWideForU16 | sigmoid_rtl/src/cpp_testbench/include/bf16.hpp:75-76 | "10000" is all hex digits, but its value 0x10000 does not fit a `u16` |
| Bf16Values.FromFloatValue | sigmoid_rtl/src/cpp_testbench/include/bf16.hpp:11-18 | as a number, the truncation is the pattern's number divided by 2^16 |
| Bf16Values.ToFloatValue | sigmoid_rtl/src/cpp_testbench/include/bf16.hpp:20-27 | as a number, the expansion is the bfloat16's number times 2^16 |
| Testbench.Sigmoid.constructor | sigmoid_rtl/src/cpp_testbench/src/testbench.cpp:27 | a new model has all its ports at zero and no evaluation in its history |
| Testbench.Sigmoid.Eval | sigmoid_rtl/src/cpp_testbench/src/testbench.cpp:16 | one evaluation appends the current inputs to the history, and `data_out` becomes the device's output for that history |
| Testbench.CyclesLength | sigmoid_rtl/src/cpp_testbench/src/testbench.cpp:13-23 | `n` cycles are exactly `2n` evaluations |
| Testbench.CyclesShape | sigmoid_rtl/src/cpp_testbench/src/testbench.cpp:13-23 | `n` cycles are exactly `2n` evaluations; they alternate clock low and clock high, with the other inputs held |
| Testbench.CyclesAdd | sigmoid_rtl/src/cpp_testbench/src/testbench.cpp:13-23 | `a` cycles followed by `b` cycles evaluate exactly what `a + b` cycles do |
| Testbench.FullCycle | sigmoid_rtl/src/cpp_testbench/src/testbench.cpp:15-19 | one pass of the loop appends one held cycle, clock low then clock high, and ends with the clock high and `data_out` from the last evaluation |
| Testbench.StepCycles | sigmoid_rtl/src/cpp_testbench/src/testbench.cpp:13-23 | the history grows by `n` held cycles; with `n > 0` it ends with the clock high and `data_out` from the last evaluation; `n == 0` changes nothing |
| Testbench.ResetTraceShape | sigmoid_rtl/src/cpp_testbench/src/testbench.cpp:29-35 | the reset sequence is 40 evaluations: 20 with `rst` high and then 20 with `rst` low, `valid_in` low throughout |
| Testbench.ResetSequence | sigmoid_rtl/src/cpp_testbench/src/testbench.cpp:29-35 | the history grows by 10 cycles in reset and then 10 cycles out of reset, both with `valid_in` low |
| Testbench.DriveTraceLength | sigmoid_rtl/src/cpp_testbench/src/testbench.cpp:93-99 | each vector adds exactly 10 evaluations (5 cycles) |
| Testbench.DriveTraceEndsWith | sigmoid_rtl/src/cpp_testbench/src/testbench.cpp:93-101 | the 10 evaluations before a vector is compared are that vector's input, valid and out of reset |
| Testbench.PrefixOutputs | sigmoid_rtl/src/cpp_testbench/src/testbench.cpp:89-101 | the output read for a vector does not depend on the vectors that follow it |
| Testbench.PrefixOutputAt | sigmoid_rtl/src/cpp_testbench/src/testbench.cpp:89-101 | the output read for one vector before the last is the same with or without the last vector |
| Testbench.MismatchesSound | sigmoid_rtl/src/cpp_testbench/src/testbench.cpp:101-106 | every reported failure is that of a vector whose output differs from its expected value |
| Testbench.MismatchesComplete | sigmoid_rtl/src/cpp_testbench/src/testbench.cpp:101-106 | every vector whose output differs from its expected value is reported |
| Testbench.FailedIndicesStep | sigmoid_rtl/src/cpp_testbench/src/testbench.cpp:101-102 | the failed positions among all vectors but the last are the failed positions among all of them, less the last |
| Testbench.FailedIndicesLast | sigmoid_rtl/src/cpp_testbench/src/testbench.cpp:101-102 | the last position is a failed one exactly when the last vector's output differs from its expected value |
| Testbench.MismatchesCount | sigmoid_rtl/src/cpp_testbench/src/testbench.cpp:101-102 | the number of reported failures is the number of vectors whose output differs from its expected value |
| Testbench.MismatchesExact | sigmoid_rtl/src/cpp_testbench/src/testbench.cpp:101-106 | the reported failures are exactly the vectors whose output differs from the expected value, one per such vector; their number is that of the failed positions and at most that of the vectors; no failure is reported exactly when every output equals its expected value |
| Testbench.DriveVector | sigmoid_rtl/src/cpp_testbench/src/testbench.cpp:93-99 | the input is presented as valid and out of reset, and the history grows by exactly 5 held cycles, ending with `data_out` of the last evaluation |
| Testbench.DriveStep | sigmoid_rtl/src/cpp_testbench/src/testbench.cpp:93-106 | one more vector adds its 5 cycles to the history, and adds its failure to the report exactly when its output differs from the expected value |
| Testbench.RunRegression | sigmoid_rtl/src/cpp_testbench/src/testbench.cpp:89-107 | each vector, in order, sets `data_in`, `valid_in = 1` and `rst = 0` and steps 5 cycles; `testsRan` is the number of vectors; `testsFailed` counts exactly the mismatches, in the order reported; afterwards the ports hold the last vector, the clock is high and `data_out` is the last output, and with no vectors nothing changes |
| Testbench.ExitStatus | sigmoid_rtl/src/cpp_testbench/src/testbench.cpp:114 | the status is 0 exactly when no test failed, and -1 otherwise |
| Testbench.SummaryCounts | sigmoid_rtl/src/cpp_testbench/src/testbench.cpp:96-114 | `0 <= failed <= ran`; `passed + failed == ran`; the exit status is 0 exactly when every output matched |
| Testbench.PipelineOutputs | sigmoid_rtl/src/cpp_testbench/src/testbench.cpp:93-101 | on a device that computes `f` within 5 cycles, each vector reads `f` of its input |
| Testbench.PipelinePasses | sigmoid_rtl/src/cpp_testbench/src/testbench.cpp:89-114 | on such a device, the run exits with 0 exactly when every expected value is `f` of its input |
| Testbench.ParseCmdlineArgs | sigmoid_rtl/src/cpp_testbench/src/testbench.cpp:62-116 | help exits with 0 and changes nothing; headless with an empty or unopenable file aborts and changes nothing; headless with a file runs its vectors, leaves the ports as the regression loop does and exits with the summary's status; otherwise it returns with the device unchanged |
| Testbench.Start | sigmoid_rtl/src/cpp_testbench/src/testbench.cpp:25-37 | the history is the old one, then the reset sequence, then the file's vectors when a headless run opens one; help exits with 0, no flag returns, headless without a file aborts, and a headless run exits with the status of the summary of its vectors run after reset; without a run the ports are as the reset left them (`rst = 0`, `valid_in = 0`, `data_in` unchanged, clock high, `data_out` from the last evaluation), after one they hold the last vector; a non-zero exit means some test failed |
| Testbench.ExtractHex | sigmoid_rtl/src/cpp_testbench/src/testbench.cpp:91 | one extraction reads the next token and sets end-of-file when that token ends the file; with no token left it sets end-of-file |
| Testbench.AsWrittenTestsRan | sigmoid_rtl/src/cpp_testbench/src/testbench.cpp:89-91 | the loop as written runs not at all exactly when end-of-file is already set, and never more than once per remaining pair plus once |
| Testbench.AsWrittenTestsRanFrom | sigmoid_rtl/src/cpp_testbench/src/testbench.cpp:89-96 | from a point between pairs, the loop as written runs once per remaining pair, plus once when whitespace ends the file or no pair is left |
| Testbench.AsWrittenTestsRanCount | sigmoid_rtl/src/cpp_testbench/src/testbench.cpp:89-96 | a file of `n` pairs runs `n + 1` tests when it ends in whitespace or is empty, and `n` otherwise |
| Testbench.AsWrittenOneLine | sigmoid_rtl/src/cpp_testbench/src/testbench.cpp:89-96 | one pair followed by a newline counts two tests |
| RtlTestbench.PackUnsignedShortBE | notebooks/rtl_testbench.py:37 | two bytes, most significant first, whose number is the value |
| RtlTestbench.HexOfBytes | notebooks/rtl_testbench.py:38 | `bytes.hex()` has two characters per byte; their contents are given for two bytes by `HexOfTwoBytes` |
| RtlTestbench.HexOfTwoBytes | notebooks/rtl_testbench.py:38 | the hex of two bytes is their four nibbles, high nibble first |
| RtlTestbench.F32ToBf16 | notebooks/rtl_testbench.py:31-38 | the result is exactly 4 lowercase hex digits whose value is `f32_int >> 16` |
| RtlTestbench.ParseIntBase16 | notebooks/rtl_testbench.py:42 | a hex string parses to its value and a `-` prefix negates it; every failure is a ValueError |
| RtlTestbench.ParseIntBase16Empty | notebooks/rtl_testbench.py:42 | the empty text raises ValueError |
| RtlTestbench.ParseIntBase16Rejects | notebooks/rtl_testbench.py:42 | a text holding a character that is not a hex digit, not a leading sign and not the `x`/`X` of a prefix right after the optional sign raises ValueError |
| RtlTestbench.ParseIntBase16Plus | notebooks/rtl_testbench.py:42 | a `+` in front of hex digits gives the value of the digits |
| RtlTestbench.ParseIntBase16Prefix | notebooks/rtl_testbench.py:42 | a `0x` or `0X` prefix in front of hex digits gives the value of the digits |
| RtlTestbench.BlankLineRaises | notebooks/rtl_testbench.py:26-27 | a line of the output file that is all whitespace strips to the empty text, and its conversion raises ValueError |
| RtlTestbench.PackUnsignedInt | notebooks/rtl_testbench.py:44 | packing succeeds exactly for 0 <= v < 2^32 and keeps the value; otherwise it raises `struct.error` |
| RtlTestbench.Bf16ToF32 | notebooks/rtl_testbench.py:41-44 | a result has its low 16 bits zero and its top bits are the parsed value; a parsed value gives a result exactly when it is between 0 and 0xFFFF; a text that does not parse raises ValueError, and a parsed value out of range raises `struct.error` |
| RtlTestbench.Bf16ToF32TooWide | notebooks/rtl_testbench.py:42-44 | a hex value above 0xFFFF raises `struct.error` |
| RtlTestbench.LowerHex4Unique | notebooks/rtl_testbench.py:37-38 | four lowercase hex digits are the packed-and-hexed form of their own value |
| RtlTestbench.HexRoundTrip | notebooks/rtl_testbench.py:31-44 | `f32_to_bf16(bf16_to_f32(h)) == h` for every 4-digit lowercase hex `h` |
| RtlTestbench.PatternRoundTrip | notebooks/rtl_testbench.py:31-44 | `bf16_to_f32(f32_to_bf16(x))` clears the low 16 bits of the pattern, and it is `x` exactly when they are zero |
| RtlTestbench.AgreesWithFromFloat | notebooks/rtl_testbench.py:35 | on every 32-bit pattern, the value of `f32_to_bf16` equals C++ `bf16::fromFloat` |
| RtlTestbench.AgreesWithToFloat | notebooks/rtl_testbench.py:41-44 | on every 4-digit lowercase hex, `bf16_to_f32` gives the pattern of C++ `bf16::toFloat` |
| RtlTestbench.IsSpace | notebooks/rtl_testbench.py:26 | the whitespace set of Python's `str.isspace()`, which `strip()` removes |
| RtlTestbench.LeadingSpaces | notebooks/rtl_testbench.py:26 | the length of the maximal leading run of whitespace |
| RtlTestbench.TrailingSpaces | notebooks/rtl_testbench.py:26 | the length of the maximal trailing run of whitespace |
| RtlTestbench.Strip | notebooks/rtl_testbench.py:26 | the result is empty or starts and ends with a non-space, and holds only characters of the line |
| RtlTestbench.StripCore | notebooks/rtl_testbench.py:26 | spaces, a core that starts and ends with a non-space, then spaces, strip to exactly that core |
| RtlTestbench.StripIdempotent | notebooks/rtl_testbench.py:26 | stripping twice is stripping once |
| RtlTestbench.ParseOutput | notebooks/rtl_testbench.py:21-28 | it succeeds exactly when every stripped line converts; on success there is one pattern per line, in order, each the conversion of its stripped line; otherwise the error is that of the first line that fails |

## Findings

| source | as written | input that shows it | evidently intended | confidence | as-written member | corrected member |
|---|---|---|---|---|---|---|
| sigmoid_rtl/src/cpp_testbench/src/testbench.cpp:89-96 | `eof()` is tested before the pair is read, so after the last pair the body runs once more; both extractions fail, and a vector of indeterminate values is driven, counted and compared | a file with one pair and a final newline, as `generateInput` writes lines, counts 2 tests; an empty file counts 1 | one test per pair in the file | not executed | Testbench.AsWrittenTestsRanCount | Testbench.RunRegression |

`Testbench.AsWrittenTestsRanCount` gives the general count of the loop as
written: `n + 1` tests for `n` pairs whenever whitespace ends the file or
the file is empty. `Testbench.AsWrittenOneLine` is the concrete instance:
a single pair followed by a newline. The rest of the model uses `Testbench.RunRegression`.
It iterates over the vectors of the file, so `testsRan` is their number.

## Left out

- UI: the window and event loop of `main` (testbench.cpp:39-59), `ui.cpp` and `ui.hpp`. They are rendering and input handling. `ui.cpp`'s only logic keeps `data_in` when `fromString` gives nothing, which is covered by `Bf16.FromString`.
- `printHelp` and the messages written before abort, per failure and in the summary are output only. Their contents are returned as `Outcome`, `Summary` and the `Failure` list.
- `example_simple_poll.c`: it drives DMA hardware with a timer and floating point.
- The device internals and `sigmoid.hpp`. The Verilated module is the `behaviour` function. `PIPELINE_STAGES` is never used by the driver, which waits a hard-coded 5 cycles (`Testbench.Latency`).
- `valid_out` is not modelled: the driver never reads it.
- `generateInput`: it uses numpy `linspace` and writes a file.
- Bf16.FromString: the decimal reading `stream >> floatValue` is floating-point text conversion. It is the parameter `floatScan`, and only the "no failure, whole text consumed" gate is kept. `DecimalExtraction` is the one assumption about it: after the skipped leading whitespace, only digits, signs, `.`, `e` and `E` can be consumed.
- Bf16.ExtractHex16: the integer extraction follows libstdc++'s `num_get`: whitespace, an optional sign, an optional `0x`/`0X`, then hex digits, with a `-` negating in unsigned arithmetic. Digit grouping is left out, since the "C" locale has none. Other standard libraries may treat a bare `0x` differently; that is not modelled.
- Testbench.ParseCmdlineArgs: the command-line library and the opening of the file are outside the model. The flags are given as optional values. The files that open are a map from name to the pairs they hold.
- Testbench.ParseCmdlineArgs: the reading of the vector file token by token is replaced by its sequence of pairs (see Findings).
- Testbench.ParseCmdlineArgs: a malformed vector file is not modelled. A token that is not hex, or a hex token above 0xFFFF followed by whitespace, sets failbit without eofbit at testbench.cpp:91. Every later extraction then fails without consuming anything, so `while (!inputFile.eof())` at testbench.cpp:89 never ends. The model's file is a list of pairs that all read.
- Testbench.ExitStatus: the status is the value passed to `std::exit`. The shell sees -1 as 255.
- Testbench.StepCycles: `cycles` is a `nat`, not a 32-bit `uint`. The driver only passes 5 and 10.
- Testbench.Sigmoid: the history `trace` is a real field, because `data_out` is computed from it.
- RtlTestbench.ParseIntBase16: `int(x, 16)` also accepts surrounding whitespace, `_` between digits, and the non-ASCII Unicode decimal digits (such as the fullwidth '１'). None of these is modelled, so the model raises ValueError on them. After `strip()` the whitespace cannot matter.
- RtlTestbench.Bf16ToF32: the result is the 32-bit pattern, not the Python `float` that `struct.unpack('>f')` widens it to. That widening, such as how a signalling NaN is read, is floating point and is not modelled.
- RtlTestbench.F32ToBf16: the input is the pattern that `struct.pack('>f', f)` produces. The rounding of a Python `float` (a double) to binary32 is not modelled, and neither is the OverflowError that `struct.pack('>f', f)` raises for a finite double beyond the binary32 range.
- RtlTestbench.ParseOutput: reading the lines from the file and the final `np.array` are I/O and numpy. The result is the list of patterns.
