# Hex ↔ big-integer codec (big-num-manager)

A Dafny model of the codec in `src/lib.rs` of big-num-manager, with proofs about it.
The codec converts between hexadecimal text and arbitrary-precision integers:

- `from_hex_to_big_int` removes every leading `"0x"` with `trim_start_matches`.
  It then reads the rest as a base-16 numeral, with letters in either case.
  It fails when nothing is left or when a character is not a hex digit.
  The failure names the original, unstripped input.
- `big_int_to_upper_hex` formats a value as `{:#X}`, and `big_int_to_lower_hex` as `{:#x}`.
  Both print the lower-case prefix `"0x"` followed by the minimal digit string.
  Zero is printed as the single digit `0`.

Big integers are Dafny's unbounded `nat`.
The parser is `HexCodec.ParseHex`, with `TrimAll0x` as `trim_start_matches("0x")` and `HexValue` as the base-16 reading.
Rust's alternate hex formatting is `HexCodec.Format`, with the letter case as a parameter.
The formatters `HexCodec.ToHexUpper` and `HexCodec.ToHexLower` are `Format` at a fixed case, built on `HexDigits`.
A failed parse is `Err(InvalidHex(input))`.
This stands for the `io::Error` whose message embeds the input.

Files:

- `hex_codec.dfy` (module `HexCodec`): the data model and the three operations, with their contracts.
- `hex_codec_properties.dfy` (module `HexCodecProperties`): the round trips, the shape of the formatted text, prefix and letter-case handling, and the failure cases.
- `hex_codec_examples.dfy` (module `HexCodecExamples`): the concrete values of the test `test_hex`, and some rejected inputs.

`trim_start_matches` removes the prefix repeatedly.
So `"0x0x5"` is accepted as 5, and an extra leading `"0x"` never changes success or the value.
`ParseIgnoresExtraPrefix` proves this.

## Model

| member | source | states |
|---|---|---|
| `HexCodec.TrimAll0x` | src/lib.rs:13 | the stripped text is no longer than the input and does not start with "0x" |
| `HexCodec.TrimAll0xRemovesWholePrefixes` | src/lib.rs:13 | what is stripped is some number of whole "0x" copies: input == "0x"^k + rest |
| `HexCodec.ParseHex` | src/lib.rs:12-26 | a failed parse carries the original, unstripped input |
| `HexCodec.HexValue` | src/lib.rs:16 | an n-digit base-16 numeral has a value below 16^n |
| `HexCodec.DigitChar` | src/lib.rs:29-36 | each digit a formatter prints is a hex digit of its case's alphabet, and the parser reads it back as the same digit value |
| `HexCodec.HexDigits` | src/lib.rs:29-36 | the digits are non-empty, all in the case's alphabet, carry no leading zero, and are "0" exactly for zero |
| `HexCodec.Format` | src/lib.rs:29-36 | output is the lower-case "0x" followed by canonical digits from the chosen case's alphabet |
| `HexCodec.ToHexUpper` | src/lib.rs:29-31 | output is "0x" followed by canonical digits from 0-9A-F |
| `HexCodec.ToHexLower` | src/lib.rs:34-36 | output is "0x" followed by canonical digits from 0-9a-f |
| `HexCodecProperties.TrimRep0x` | src/lib.rs:13 | stripping "0x"^k + d gives exactly d when d does not start with "0x" |
| `HexCodecProperties.TrimKeepsOtherChars` | src/lib.rs:13 | a character other than '0' and 'x' is never stripped and reaches the digit reader |
| `HexCodecProperties.HexValueOfHexDigits` | src/lib.rs:16-36 | the formatted digits read back as the value they were printed from |
| `HexCodecProperties.FormattedDigitsNotPrefixed` | src/lib.rs:13-36 | the formatted digits never start with "0x", and a non-zero value's leading digit is not '0', so repeated stripping stops at the formatter's prefix |
| `HexCodecProperties.FormatRoundTrip` | src/lib.rs:12-36 | parsing the output of either formatter gives back the value |
| `HexCodecProperties.LowerHexRoundTrip` | src/lib.rs:12-36 | from_hex_to_big_int(big_int_to_lower_hex(v)) == v for every non-negative v |
| `HexCodecProperties.UpperHexRoundTrip` | src/lib.rs:12-31 | from_hex_to_big_int(big_int_to_upper_hex(v)) == v for every non-negative v |
| `HexCodecProperties.CanonicalDigitsOfValue` | src/lib.rs:16-36 | a canonical digit string is exactly what the formatter prints for its value |
| `HexCodecProperties.ParseThenFormat` | src/lib.rs:12-36 | "0x" + canonical digits parses, and formatting the value in the same case gives the string back |
| `HexCodecProperties.DigitsDifferOnlyInCase` | src/lib.rs:29-36 | the upper and lower digit strings of a value have equal length and match position by position up to letter case |
| `HexCodecProperties.UpperLowerDifferOnlyInCase` | src/lib.rs:29-36 | the upper and lower outputs share the "0x" prefix, have equal length, and after the prefix differ only in letter case |
| `HexCodecProperties.UpperAndLowerParseAlike` | src/lib.rs:12-36 | the upper and lower outputs of a value parse to the same result |
| `HexCodecProperties.HexValueIgnoresCase` | src/lib.rs:16 | digit strings that agree up to letter case have the same value |
| `HexCodecProperties.ParseIgnoresDigitCase` | src/lib.rs:9-16 | "0x" + digits parses the same whatever the case of the letters, as the doc comment's "0x5f5e100" / "0x5F5E100" example says |
| `HexCodecProperties.ParseIgnoresExtraPrefix` | src/lib.rs:13-16 | an extra leading "0x" changes neither success nor the value, so unprefixed digits parse like prefixed ones |
| `HexCodecProperties.UpperPrefixNotStripped` | src/lib.rs:13-23 | a leading "0X" is not stripped, and the parse fails naming the input |
| `HexCodecProperties.ParseRejectsBarePrefixes` | src/lib.rs:13-23 | "", "0x", "0x0x", ... leave nothing to parse and fail naming the input |
| `HexCodecProperties.ParseRejectsForeignChar` | src/lib.rs:13-23 | a character that is not a hex digit, the prefix's 'x', a sign or a separator makes the parse fail, wherever it stands |
| `HexCodecProperties.ParseAcceptsExactlyPrefixedDigits` | src/lib.rs:12-26 | an input parses exactly when it is "0x"^k followed by a non-empty run of hex digits, and the value is that of the digits |
| `HexCodecExamples.ZeroParse` | src/lib.rs:43-44 | "0x0" parses to 0 |
| `HexCodecExamples.ZeroFormat` | src/lib.rs:29-36 | both formatters print 0 as "0x0" |
| `HexCodecExamples.HundredMillionAvaxParse` | src/lib.rs:46-50 | "0x52B7D2DCC80CD2E4000000" parses to 10^26 |
| `HexCodecExamples.HundredMillionAvaxUpper` | src/lib.rs:51 | big_int_to_upper_hex(10^26) == "0x52B7D2DCC80CD2E4000000" |
| `HexCodecExamples.HundredMillionParse` | src/lib.rs:53-54 | "0x5F5E100" and "0x5f5e100" both parse to 100000000 |
| `HexCodecExamples.HundredMillionLower` | src/lib.rs:55 | big_int_to_lower_hex(100000000) == "0x5f5e100" |
| `HexCodecExamples.HundredMillionUpper` | src/lib.rs:56 | big_int_to_upper_hex(100000000) == "0x5F5E100" |
| `HexCodecExamples.TwentyMillionParse` | src/lib.rs:58-59 | "0x1312D00" parses to 20000000 |
| `HexCodecExamples.TwentyMillionLower` | src/lib.rs:60 | big_int_to_lower_hex(20000000) == "0x1312d00" |
| `HexCodecExamples.TwentyMillionUpper` | src/lib.rs:61 | big_int_to_upper_hex(20000000) == "0x1312D00" |
| `HexCodecExamples.RejectsEmpty` | src/lib.rs:13-23 | "" and "0x" are rejected with an error naming the input |
| `HexCodecExamples.RejectsForeignLetters` | src/lib.rs:16-23 | "0xZZ" is rejected with an error naming the input |
| `HexCodecExamples.RejectsUpperPrefix` | src/lib.rs:13-23 | "0X5F5E100" is rejected with an error naming the input |

## Left out

- Negative integers are not modelled; values are `nat`, and no test covers a sign. Formatting a negative value and reading a sign are num_bigint's behaviour.
  An observation, not executed: `{:#x}` of a negative `BigInt` prints `"-0x…"`. `from_hex_to_big_int` cannot read that back, because `trim_start_matches` does not strip a prefix behind the `-` and num_bigint then rejects the `x`. So the round trip, and with it the serde adapter's, fails for negative values.
- ParseHex: rejects every character outside `0-9a-fA-F`. num_bigint's `parse_bytes` may also accept a leading `+` or `-` and `_` digit separators. ParseHex rejects them; no lemma depends on that choice, so the lemmas below exclude them.
- ParseRejectsForeignChar: stated only for characters other than `+`, `-` and `_`, for the reason above.
- ParseAcceptsExactlyPrefixedDigits: the "only if" direction is stated only for inputs without `+`, `-` and `_`, for the reason above.
- The error is modelled as `InvalidHex(input)`. The `io::Error` with `ErrorKind::Other` and the wording of its message are not modelled.
- `src/serde_format/big_int_hex.rs` is not part of this model. It only composes the codec with serde: serialising emits the lower-case form, and deserialising calls the parser and wraps its error. Its round trip is `LowerHexRoundTrip`.
- Rust strings are UTF-8 and are read as bytes by the parser. The model uses `seq<char>`. Any non-ASCII character is not a hex digit in both, so it fails in both.
- The internal representation and arithmetic of `BigInt` are replaced by Dafny's unbounded integers.
