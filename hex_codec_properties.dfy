/**
 * Properties of the codec in HexCodec: the two round trips, the exact
 * shape of what the formatters print, how the parser treats prefixes and
 * letter case, and when it fails.
 */
module HexCodecProperties {
  import opened HexCodec

  /**
   * Characters that num_bigint's parser may accept besides hex digits (a
   * sign, a digit separator). The model rejects them; lemmas whose claim
   * would depend on them are stated only for inputs without them.
   */
  predicate SignOrSeparator(c: char) {
    c == '+' || c == '-' || c == '_'
  }

  function AsciiUpper(c: char): char {
    if 'a' <= c <= 'z' then (c as int - 32) as char else c
  }

  function AsciiLower(c: char): char {
    if 'A' <= c <= 'Z' then (c as int + 32) as char else c
  }

  /** `s` is `k` copies of "0x" followed by a non-empty run of hex digits `d`. */
  ghost predicate PrefixedDigits(s: string, k: nat, d: string) {
    s == Rep0x(k) + d && |d| > 0 && AllHexDigits(d)
  }

  // ---------------------------------------------------------------------------
  // Helpers about digits and prefixes
  // ---------------------------------------------------------------------------

  lemma HexValueSnoc(d: string, c: char)
    requires AllHexDigits(d) && IsHexDigit(c)
    ensures AllHexDigits(d + [c])
    ensures HexValue(d + [c]) == 16 * HexValue(d) + DigitValue(c)
  {
    assert (d + [c])[..|d|] == d;
  }

  lemma CanonicalAreHexDigits(d: string, style: LetterCase)
    requires forall i :: 0 <= i < |d| ==> InAlphabet(d[i], style)
    ensures AllHexDigits(d)
  {
  }

  lemma DigitCharOfValue(c: char, style: LetterCase)
    requires InAlphabet(c, style)
    ensures IsHexDigit(c) && DigitChar(DigitValue(c), style) == c
  {
  }

  lemma DivMod16(hi: nat, lo: nat)
    requires lo < 16
    ensures (16 * hi + lo) / 16 == hi && (16 * hi + lo) % 16 == lo
  {
  }

  /** A run of hex digits contains no 'x', so it never starts with "0x". */
  lemma HexDigitsNotPrefixed(d: string)
    requires AllHexDigits(d)
    ensures !Starts0x(d)
  {
    if |d| >= 2 {
      assert IsHexDigit(d[1]);
    }
  }

  /** A repeated prefix consists of the characters '0' and 'x' only. */
  lemma {:induction false} Rep0xChars(k: nat, j: nat)
    requires j < |Rep0x(k)|
    ensures Rep0x(k)[j] == '0' || Rep0x(k)[j] == 'x'
  {
    if j >= 2 {
      Rep0xChars(k - 1, j - 2);
    }
  }

  /** Stripping removes exactly the repeated prefix when the rest does not start with "0x". */
  lemma {:induction false} TrimRep0x(k: nat, d: string)
    requires !Starts0x(d)
    ensures TrimAll0x(Rep0x(k) + d) == d
  {
    if k > 0 {
      var rest := Rep0x(k - 1) + d;
      assert Rep0x(k) + d == "0x" + rest;
      assert ("0x" + rest)[2..] == rest;
      TrimRep0x(k - 1, d);
    }
  }

  /** A digit string whose leading digit is not zero has a positive value. */
  lemma {:induction false} LeadingNonZeroPositive(d: string)
    requires AllHexDigits(d) && |d| > 0 && d[0] != '0'
    ensures HexValue(d) > 0
  {
    if |d| > 1 {
      LeadingNonZeroPositive(d[..|d| - 1]);
    }
  }

  /** A character other than '0' and 'x' is never stripped: it survives at index `j` of the rest. */
  lemma TrimKeepsOtherChars(s: string, i: nat) returns (j: nat)
    requires i < |s| && s[i] != '0' && s[i] != 'x'
    ensures j < |TrimAll0x(s)| && TrimAll0x(s)[j] == s[i]
  {
    var t := TrimAll0x(s);
    TrimAll0xRemovesWholePrefixes(s);
    var k: nat :| s == Rep0x(k) + t;
    var p := Rep0x(k);
    if i < |p| {
      assert s[i] == p[i];
      Rep0xChars(k, i);
      assert false;
    }
    j := i - |p|;
    assert t[j] == s[i];
  }

  // ---------------------------------------------------------------------------
  // Formatting and parsing are inverse to each other
  // ---------------------------------------------------------------------------

  /** The formatted digits read back as the value they were printed from. */
  lemma {:induction false} HexValueOfHexDigits(n: nat, style: LetterCase)
    ensures AllHexDigits(HexDigits(n, style))
    ensures HexValue(HexDigits(n, style)) == n
    decreases n
  {
    if n < 16 {
      assert HexDigits(n, style)[..0] == [];
    } else {
      var hi := HexDigits(n / 16, style);
      HexValueOfHexDigits(n / 16, style);
      HexValueSnoc(hi, DigitChar(n % 16, style));
    }
  }

  /**
   * The formatted digits never start with "0x": a non-zero value's leading
   * digit is not '0', and zero is the single digit "0". So the parser's
   * repeated prefix stripping stops exactly at the formatter's "0x".
   */
  lemma FormattedDigitsNotPrefixed(n: nat, style: LetterCase)
    ensures !Starts0x(HexDigits(n, style))
    ensures n != 0 ==> HexDigits(n, style)[0] != '0'
  {
    var d := HexDigits(n, style);
    CanonicalAreHexDigits(d, style);
    HexDigitsNotPrefixed(d);
  }

  lemma FormatRoundTrip(n: nat, style: LetterCase)
    ensures ParseHex(Format(n, style)) == Ok(n)
  {
    var d := HexDigits(n, style);
    FormattedDigitsNotPrefixed(n, style);
    assert Format(n, style) == Rep0x(1) + d;
    TrimRep0x(1, d);
    HexValueOfHexDigits(n, style);
  }

  /** Parsing big_int_to_lower_hex's output gives back the value. */
  lemma LowerHexRoundTrip(n: nat)
    ensures ParseHex(ToHexLower(n)) == Ok(n)
  {
    FormatRoundTrip(n, Lower);
  }

  /** Parsing big_int_to_upper_hex's output gives back the value. */
  lemma UpperHexRoundTrip(n: nat)
    ensures ParseHex(ToHexUpper(n)) == Ok(n)
  {
    FormatRoundTrip(n, Upper);
  }

  /** A canonical digit string is what the formatter prints for its own value. */
  lemma {:induction false} CanonicalDigitsOfValue(d: string, style: LetterCase)
    requires CanonicalDigits(d, style)
    ensures AllHexDigits(d)
    ensures HexDigits(HexValue(d), style) == d
    decreases |d|
  {
    CanonicalAreHexDigits(d, style);
    var init, last := d[..|d| - 1], d[|d| - 1];
    assert d == init + [last];
    HexValueSnoc(init, last);
    var hi, lo := HexValue(init), DigitValue(last);
    DigitCharOfValue(last, style);
    if |d| == 1 {
      assert HexValue(d) == lo;
    } else {
      LeadingNonZeroPositive(init);
      CanonicalDigitsOfValue(init, style);
      DivMod16(hi, lo);
      assert HexDigits(HexValue(d), style) == HexDigits(hi, style) + [DigitChar(lo, style)];
    }
  }

  /**
   * The other round trip: "0x" followed by canonical digits parses, and
   * formatting the parsed value in the same case reproduces the string.
   */
  lemma ParseThenFormat(d: string, style: LetterCase)
    requires CanonicalDigits(d, style)
    ensures ParseHex("0x" + d).Ok?
    ensures Format(ParseHex("0x" + d).value, style) == "0x" + d
  {
    CanonicalDigitsOfValue(d, style);
    HexDigitsNotPrefixed(d);
    assert "0x" + d == Rep0x(1) + d;
    TrimRep0x(1, d);
  }

  /**
   * The upper and lower forms of a value have equal length and differ only
   * in the case of the letter digits.
   */
  lemma {:induction false} DigitsDifferOnlyInCase(n: nat)
    ensures |HexDigits(n, Upper)| == |HexDigits(n, Lower)|
    ensures forall i :: 0 <= i < |HexDigits(n, Lower)| ==>
              && HexDigits(n, Upper)[i] == AsciiUpper(HexDigits(n, Lower)[i])
              && HexDigits(n, Lower)[i] == AsciiLower(HexDigits(n, Upper)[i])
    decreases n
  {
    if n >= 16 {
      DigitsDifferOnlyInCase(n / 16);
    }
  }

  /**
   * Both formatters print the same lower-case "0x" prefix; after it the two
   * forms differ only in the case of the letter digits.
   */
  lemma UpperLowerDifferOnlyInCase(n: nat)
    ensures |ToHexUpper(n)| == |ToHexLower(n)|
    ensures ToHexUpper(n)[..2] == ToHexLower(n)[..2] == "0x"
    ensures forall i :: 2 <= i < |ToHexLower(n)| ==>
              && ToHexUpper(n)[i] == AsciiUpper(ToHexLower(n)[i])
              && ToHexLower(n)[i] == AsciiLower(ToHexUpper(n)[i])
  {
    DigitsDifferOnlyInCase(n);
    var u, l := ToHexUpper(n), ToHexLower(n);
    forall i | 2 <= i < |l|
      ensures u[i] == AsciiUpper(l[i]) && l[i] == AsciiLower(u[i])
    {
      assert u[i] == HexDigits(n, Upper)[i - 2];
      assert l[i] == HexDigits(n, Lower)[i - 2];
    }
  }

  /** The upper and lower forms of a value parse to the same value. */
  lemma UpperAndLowerParseAlike(n: nat)
    ensures ParseHex(ToHexUpper(n)) == ParseHex(ToHexLower(n))
  {
    UpperHexRoundTrip(n);
    LowerHexRoundTrip(n);
  }

  // ---------------------------------------------------------------------------
  // Letter case of the digits does not matter to the parser
  // ---------------------------------------------------------------------------

  /** Two digit strings that agree up to letter case have the same value. */
  lemma {:induction false} HexValueIgnoresCase(d: string, e: string)
    requires AllHexDigits(d) && AllHexDigits(e) && |d| == |e|
    requires forall i :: 0 <= i < |d| ==> AsciiLower(d[i]) == AsciiLower(e[i])
    ensures HexValue(d) == HexValue(e)
    decreases |d|
  {
    if |d| > 0 {
      var n := |d| - 1;
      assert DigitValue(d[n]) == DigitValue(e[n]);
      HexValueIgnoresCase(d[..n], e[..n]);
    }
  }

  /** "0x" followed by digits parses the same whatever the case of its letters. */
  lemma ParseIgnoresDigitCase(d: string, e: string)
    requires AllHexDigits(d) && AllHexDigits(e) && |d| == |e|
    requires forall i :: 0 <= i < |d| ==> AsciiLower(d[i]) == AsciiLower(e[i])
    ensures ParseHex("0x" + d) == ParseHex("0x" + e)
  {
    if |d| == 0 {
      assert d == e;
    } else {
      HexDigitsNotPrefixed(d);
      HexDigitsNotPrefixed(e);
      assert "0x" + d == Rep0x(1) + d;
      assert "0x" + e == Rep0x(1) + e;
      TrimRep0x(1, d);
      TrimRep0x(1, e);
      HexValueIgnoresCase(d, e);
    }
  }

  // ---------------------------------------------------------------------------
  // Prefix handling
  // ---------------------------------------------------------------------------

  /**
   * Every leading "0x" is removed, so an extra one changes nothing about
   * whether the parse succeeds or what value it gives; in particular an
   * unprefixed digit string parses like the prefixed one.
   */
  lemma ParseIgnoresExtraPrefix(s: string)
    ensures ParseHex("0x" + s).Ok? <==> ParseHex(s).Ok?
    ensures ParseHex(s).Ok? ==> ParseHex("0x" + s).value == ParseHex(s).value
  {
    assert ("0x" + s)[2..] == s;
  }

  /**
   * An upper-case "0X" is not a prefix: it is left in place and its 'X'
   * reaches the digit reader, so the parse fails.
   */
  lemma UpperPrefixNotStripped(s: string)
    requires |s| >= 2 && s[0] == '0' && s[1] == 'X'
    ensures ParseHex(s) == Err(InvalidHex(s))
  {
    assert TrimAll0x(s) == s;
    assert !IsHexDigit(s[1]);
  }

  /** Only prefixes and no digits: "", "0x", "0x0x", ... are rejected. */
  lemma ParseRejectsBarePrefixes(k: nat)
    ensures ParseHex(Rep0x(k)) == Err(InvalidHex(Rep0x(k)))
  {
    assert Rep0x(k) + "" == Rep0x(k);
    TrimRep0x(k, "");
  }

  /**
   * A character that is neither a hex digit, nor the prefix's 'x', nor a
   * sign or separator makes the parse fail, wherever it stands.
   */
  lemma ParseRejectsForeignChar(s: string, i: nat)
    requires i < |s| && !IsHexDigit(s[i]) && s[i] != 'x' && !SignOrSeparator(s[i])
    ensures ParseHex(s) == Err(InvalidHex(s))
  {
    var t := TrimAll0x(s);
    var j := TrimKeepsOtherChars(s, i);
    assert !IsHexDigit(t[j]);
  }

  /**
   * The accepted inputs are exactly some copies of "0x" followed by a
   * non-empty run of hex digits (stated for inputs without a sign or
   * separator), and the value is that of the digits.
   */
  lemma ParseAcceptsExactlyPrefixedDigits(s: string)
    requires forall i :: 0 <= i < |s| ==> !SignOrSeparator(s[i])
    ensures ParseHex(s).Ok? <==> exists k: nat, d: string :: PrefixedDigits(s, k, d)
    ensures forall k: nat, d: string :: PrefixedDigits(s, k, d) ==> ParseHex(s) == Ok(HexValue(d))
  {
    var t := TrimAll0x(s);
    TrimAll0xRemovesWholePrefixes(s);
    var m: nat :| s == Rep0x(m) + t;
    if ParseHex(s).Ok? {
      assert PrefixedDigits(s, m, t);
    }
    forall k: nat, d: string | PrefixedDigits(s, k, d)
      ensures ParseHex(s) == Ok(HexValue(d))
    {
      HexDigitsNotPrefixed(d);
      TrimRep0x(k, d);
    }
  }
}
