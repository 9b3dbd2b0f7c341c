/**
 * The hex <-> big-integer codec of src/lib.rs: a parser that strips every
 * leading "0x" and reads the rest as a base-16 numeral, and two formatters
 * that print "0x" followed by the minimal digit string in upper or lower case.
 * Big integers are modelled by Dafny's unbounded `nat`.
 */
module HexCodec {

  /** The parser's single error kind; it carries the original, unstripped input. */
  datatype ParseError = InvalidHex(input: string)

  datatype Result<T> = Ok(value: T) | Err(error: ParseError)

  /** Which alphabet a formatter uses for the digit values 10..15. */
  datatype LetterCase = Lower | Upper

  // ---------------------------------------------------------------------------
  // Digits
  // ---------------------------------------------------------------------------

  /** A digit the parser accepts: letters are read case-insensitively. */
  predicate IsHexDigit(c: char) {
    '0' <= c <= '9' || 'a' <= c <= 'f' || 'A' <= c <= 'F'
  }

  predicate AllHexDigits(s: string) {
    forall i :: 0 <= i < |s| ==> IsHexDigit(s[i])
  }

  /** A digit a formatter of the given case may print. */
  predicate InAlphabet(c: char, style: LetterCase) {
    || '0' <= c <= '9'
    || (style == Lower && 'a' <= c <= 'f')
    || (style == Upper && 'A' <= c <= 'F')
  }

  function DigitValue(c: char): (v: nat)
    requires IsHexDigit(c)
    ensures v < 16
    ensures v == 0 <==> c == '0'
  {
    if '0' <= c <= '9' then c as int - '0' as int
    else if 'a' <= c <= 'f' then c as int - 'a' as int + 10
    else c as int - 'A' as int + 10
  }

  /** The digit a formatter prints for the value `d`; `DigitValue` reads it back. */
  function DigitChar(d: nat, style: LetterCase): (c: char)
    requires d < 16
    ensures IsHexDigit(c) && InAlphabet(c, style)
    ensures DigitValue(c) == d
  {
    if d < 10 then ('0' as int + d) as char
    else if style == Lower then ('a' as int + d - 10) as char
    else ('A' as int + d - 10) as char
  }

  function Pow16(k: nat): (p: nat)
    ensures p >= 1
  {
    if k == 0 then 1 else 16 * Pow16(k - 1)
  }

  /** The value of a base-16 numeral, most significant digit first. */
  function HexValue(s: string): (v: nat)
    requires AllHexDigits(s)
    ensures v < Pow16(|s|)
  {
    if s == [] then 0
    else
      var hi := HexValue(s[..|s| - 1]);
      assert hi <= Pow16(|s| - 1) - 1;
      16 * hi + DigitValue(s[|s| - 1])
  }

  // ---------------------------------------------------------------------------
  // Parsing (from_hex_to_big_int)
  // ---------------------------------------------------------------------------

  predicate Starts0x(s: string) {
    |s| >= 2 && s[0] == '0' && s[1] == 'x'
  }

  /** `k` copies of the prefix "0x". */
  function Rep0x(k: nat): (p: string)
    ensures |p| == 2 * k
  {
    if k == 0 then [] else "0x" + Rep0x(k - 1)
  }

  /**
   * Removes every leading "0x", as Rust's `trim_start_matches("0x")` does;
   * what is left no longer starts with "0x". That what is removed is whole
   * copies of "0x" is the lemma `TrimAll0xRemovesWholePrefixes`.
   */
  function TrimAll0x(s: string): (r: string)
    ensures |r| <= |s|
    ensures !Starts0x(r)
    decreases |s|
  {
    if Starts0x(s) then TrimAll0x(s[2..]) else s
  }

  /** `TrimAll0x` removes some number of whole "0x" copies and nothing else. */
  lemma {:induction false} TrimAll0xRemovesWholePrefixes(s: string)
    ensures exists k: nat :: s == Rep0x(k) + TrimAll0x(s)
    decreases |s|
  {
    if Starts0x(s) {
      var rest := s[2..];
      var r := TrimAll0x(rest);
      assert TrimAll0x(s) == r;
      TrimAll0xRemovesWholePrefixes(rest);
      var k: nat :| rest == Rep0x(k) + r;
      assert Rep0x(k + 1) == "0x" + Rep0x(k);
      calc {
        s;
        "0x" + rest;
        "0x" + (Rep0x(k) + r);
        ("0x" + Rep0x(k)) + r;
        Rep0x(k + 1) + r;
      }
    } else {
      assert s == Rep0x(0) + s;
    }
  }

  /**
   * Parses a hexadecimal string into a non-negative integer. Fails when
   * nothing is left after stripping the prefixes or when any remaining
   * character is not a hex digit; the failure names the original input.
   */
  function ParseHex(s: string): (r: Result<nat>)
    ensures r.Err? ==> r.error == InvalidHex(s)
  {
    var digits := TrimAll0x(s);
    if |digits| > 0 && AllHexDigits(digits) then Ok(HexValue(digits))
    else Err(InvalidHex(s))
  }

  // ---------------------------------------------------------------------------
  // Formatting (big_int_to_upper_hex, big_int_to_lower_hex)
  // ---------------------------------------------------------------------------

  /**
   * A digit string a formatter may print: at least one digit, all in the
   * formatter's alphabet, and no leading zero unless it is the single "0".
   */
  predicate CanonicalDigits(d: string, style: LetterCase) {
    && |d| > 0
    && (forall i :: 0 <= i < |d| ==> InAlphabet(d[i], style))
    && (|d| > 1 ==> d[0] != '0')
  }

  /** The minimal base-16 digit string of `n`. */
  function HexDigits(n: nat, style: LetterCase): (r: string)
    ensures CanonicalDigits(r, style)
    ensures r == "0" <==> n == 0
    decreases n
  {
    if n < 16 then [DigitChar(n, style)]
    else HexDigits(n / 16, style) + [DigitChar(n % 16, style)]
  }

  /**
   * Rust's alternate hex formatting, `{:#x}` or `{:#X}`, of a non-negative
   * value: the prefix is the lower-case "0x" in both cases, and only the
   * digits follow the chosen case.
   */
  function Format(n: nat, style: LetterCase): (r: string)
    ensures |r| >= 3 && r[..2] == "0x"
    ensures CanonicalDigits(r[2..], style)
  {
    "0x" + HexDigits(n, style)
  }

  function ToHexUpper(n: nat): (r: string)
    ensures |r| >= 3 && r[..2] == "0x"
    ensures CanonicalDigits(r[2..], Upper)
  {
    Format(n, Upper)
  }

  function ToHexLower(n: nat): (r: string)
    ensures |r| >= 3 && r[..2] == "0x"
    ensures CanonicalDigits(r[2..], Lower)
  {
    Format(n, Lower)
  }
}
