/**
 * The concrete cases of the test in src/lib.rs, plus rejected inputs. Each
 * formatted digit string is computed one digit at a time, most significant
 * first; the parses then follow from the round trips.
 */
module HexCodecExamples {
  import opened HexCodec
  import opened HexCodecProperties

  /** One step of the formatter: the digits of `n` are those of `n / 16` and one more. */
  lemma AppendDigit(n: nat, style: LetterCase, d: string)
    requires n >= 16 && HexDigits(n / 16, style) == d
    ensures HexDigits(n, style) == d + [DigitChar(n % 16, style)]
  {
  }

  lemma FormatSpells(n: nat, style: LetterCase, d: string)
    requires HexDigits(n, style) == d
    ensures Format(n, style) == "0x" + d
  {
  }

  /** Zero formats as the single digit "0", and "0x0" parses to zero. */
  lemma ZeroFormat()
    ensures ToHexLower(0) == "0x0" && ToHexUpper(0) == "0x0"
  {
    assert HexDigits(0, Lower) == "0" && HexDigits(0, Upper) == "0";
  }

  lemma ZeroParse()
    ensures ParseHex("0x0") == Ok(0)
  {
    ZeroFormat();
    LowerHexRoundTrip(0);
  }

  lemma HundredMillionAvaxDigitsUpper1()
    ensures HexDigits(22204460492, Upper) == "52B7D2DCC"
  {
    assert HexDigits(5, Upper) == "5";
    AppendDigit(82, Upper, "5");
    AppendDigit(1323, Upper, "52");
    AppendDigit(21175, Upper, "52B");
    AppendDigit(338813, Upper, "52B7");
    AppendDigit(5421010, Upper, "52B7D");
    AppendDigit(86736173, Upper, "52B7D2");
    AppendDigit(1387778780, Upper, "52B7D2D");
    AppendDigit(22204460492, Upper, "52B7D2DC");
  }

  lemma HundredMillionAvaxDigitsUpper2()
    ensures HexDigits(95367431640625000000, Upper) == "52B7D2DCC80CD2E40"
  {
    HundredMillionAvaxDigitsUpper1();
    AppendDigit(355271367880, Upper, "52B7D2DCC");
    AppendDigit(5684341886080, Upper, "52B7D2DCC8");
    AppendDigit(90949470177292, Upper, "52B7D2DCC80");
    AppendDigit(1455191522836685, Upper, "52B7D2DCC80C");
    AppendDigit(23283064365386962, Upper, "52B7D2DCC80CD");
    AppendDigit(372529029846191406, Upper, "52B7D2DCC80CD2");
    AppendDigit(5960464477539062500, Upper, "52B7D2DCC80CD2E");
    AppendDigit(95367431640625000000, Upper, "52B7D2DCC80CD2E4");
  }

  lemma HundredMillionAvaxDigitsUpper()
    ensures HexDigits(100000000000000000000000000, Upper) == "52B7D2DCC80CD2E4000000"
  {
    HundredMillionAvaxDigitsUpper2();
    AppendDigit(1525878906250000000000, Upper, "52B7D2DCC80CD2E40");
    AppendDigit(24414062500000000000000, Upper, "52B7D2DCC80CD2E400");
    AppendDigit(390625000000000000000000, Upper, "52B7D2DCC80CD2E4000");
    AppendDigit(6250000000000000000000000, Upper, "52B7D2DCC80CD2E40000");
    AppendDigit(100000000000000000000000000, Upper, "52B7D2DCC80CD2E400000");
  }

  /** 10^26, that is 100,000,000 AVAX in its smallest unit. */
  lemma HundredMillionAvaxUpper()
    ensures ToHexUpper(100000000000000000000000000) == "0x52B7D2DCC80CD2E4000000"
  {
    assert "0x" + "52B7D2DCC80CD2E4000000" == "0x52B7D2DCC80CD2E4000000";
    HundredMillionAvaxDigitsUpper();
    FormatSpells(100000000000000000000000000, Upper, "52B7D2DCC80CD2E4000000");
  }

  lemma HundredMillionAvaxParse()
    ensures ParseHex("0x52B7D2DCC80CD2E4000000") == Ok(100000000000000000000000000)
  {
    HundredMillionAvaxUpper();
    UpperHexRoundTrip(100000000000000000000000000);
  }

  lemma HundredMillionDigitsLower()
    ensures HexDigits(100000000, Lower) == "5f5e100"
  {
    assert HexDigits(5, Lower) == "5";
    AppendDigit(95, Lower, "5");
    AppendDigit(1525, Lower, "5f");
    AppendDigit(24414, Lower, "5f5");
    AppendDigit(390625, Lower, "5f5e");
    AppendDigit(6250000, Lower, "5f5e1");
    AppendDigit(100000000, Lower, "5f5e10");
  }

  lemma HundredMillionLower()
    ensures ToHexLower(100000000) == "0x5f5e100"
  {
    HundredMillionDigitsLower();
    assert "0x" + "5f5e100" == "0x5f5e100";
    FormatSpells(100000000, Lower, "5f5e100");
  }

  lemma HundredMillionDigitsUpper()
    ensures HexDigits(100000000, Upper) == "5F5E100"
  {
    assert HexDigits(5, Upper) == "5";
    AppendDigit(95, Upper, "5");
    AppendDigit(1525, Upper, "5F");
    AppendDigit(24414, Upper, "5F5");
    AppendDigit(390625, Upper, "5F5E");
    AppendDigit(6250000, Upper, "5F5E1");
    AppendDigit(100000000, Upper, "5F5E10");
  }

  lemma HundredMillionUpper()
    ensures ToHexUpper(100000000) == "0x5F5E100"
  {
    HundredMillionDigitsUpper();
    assert "0x" + "5F5E100" == "0x5F5E100";
    FormatSpells(100000000, Upper, "5F5E100");
  }

  /** "0x5F5E100" and "0x5f5e100" name the same value. */
  lemma HundredMillionParse()
    ensures ParseHex("0x5F5E100") == Ok(100000000)
    ensures ParseHex("0x5f5e100") == Ok(100000000)
  {
    HundredMillionLower();
    HundredMillionUpper();
    LowerHexRoundTrip(100000000);
    UpperHexRoundTrip(100000000);
  }

  lemma TwentyMillionDigitsLower()
    ensures HexDigits(20000000, Lower) == "1312d00"
  {
    assert HexDigits(1, Lower) == "1";
    AppendDigit(19, Lower, "1");
    AppendDigit(305, Lower, "13");
    AppendDigit(4882, Lower, "131");
    AppendDigit(78125, Lower, "1312");
    AppendDigit(1250000, Lower, "1312d");
    AppendDigit(20000000, Lower, "1312d0");
  }

  lemma TwentyMillionLower()
    ensures ToHexLower(20000000) == "0x1312d00"
  {
    TwentyMillionDigitsLower();
    assert "0x" + "1312d00" == "0x1312d00";
    FormatSpells(20000000, Lower, "1312d00");
  }

  lemma TwentyMillionDigitsUpper()
    ensures HexDigits(20000000, Upper) == "1312D00"
  {
    assert HexDigits(1, Upper) == "1";
    AppendDigit(19, Upper, "1");
    AppendDigit(305, Upper, "13");
    AppendDigit(4882, Upper, "131");
    AppendDigit(78125, Upper, "1312");
    AppendDigit(1250000, Upper, "1312D");
    AppendDigit(20000000, Upper, "1312D0");
  }

  lemma TwentyMillionUpper()
    ensures ToHexUpper(20000000) == "0x1312D00"
  {
    TwentyMillionDigitsUpper();
    assert "0x" + "1312D00" == "0x1312D00";
    FormatSpells(20000000, Upper, "1312D00");
  }

  lemma TwentyMillionParse()
    ensures ParseHex("0x1312D00") == Ok(20000000)
  {
    TwentyMillionUpper();
    UpperHexRoundTrip(20000000);
  }

  /** Nothing left after the prefixes: "" and "0x" are rejected, naming the input. */
  lemma RejectsEmpty()
    ensures ParseHex("") == Err(InvalidHex(""))
    ensures ParseHex("0x") == Err(InvalidHex("0x"))
  {
    ParseRejectsBarePrefixes(0);
    ParseRejectsBarePrefixes(1);
    assert Rep0x(1) == "0x";
  }

  lemma RejectsForeignLetters()
    ensures ParseHex("0xZZ") == Err(InvalidHex("0xZZ"))
  {
    ParseRejectsForeignChar("0xZZ", 2);
  }

  lemma RejectsUpperPrefix()
    ensures ParseHex("0X5F5E100") == Err(InvalidHex("0X5F5E100"))
  {
    UpperPrefixNotStripped("0X5F5E100");
  }
}
