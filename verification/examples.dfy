/**
 * Whole-input examples of the lexer, each the outcome the original
 * produces for that input.
 */
module Examples {
  import opened Tokens
  import opened Cursor
  import opened Numbers
  import opened Strings
  import opened Names
  import opened Lexer

  /** An input that is exactly one token, with no blank before it. */
  lemma LexSingle(src: seq<char>, t: Token, e: nat)
    requires e == |src| && 0 < e
    requires ScanToken(src, 0) == Ok(Scanned(Emit(t), 0, e))
    ensures Lex(src) == Ok([t, EndOfFile])
  {
    assert ScanFrom(src, e) == Ok([]);
    ScanFromEmit(src, 0, t, 0, e, []);
    assert [t] + [] == [t];
    LexOfScan(src, [t]);
    assert [t] + [EndOfFile] == [t, EndOfFile];
  }

  lemma HexScan()
    ensures ScanNumber("0x1A", 1) == Ok((Integer(26), 4))
  {
    var src := "0x1A";
    var f := NumFlags(true, false, false, false, false);
    assert HexStart(src, 1) == (true, 2);
    assert NumberLoop(src, 4, f) == Ok((4, f));
    assert NumberLoop(src, 3, f) == Ok((4, f));
    assert NumberLoop(src, 2, f) == Ok((4, f));
    assert ExtractWord(src, 0, 4)[2..] == "1A";
    assert HexValue("1A") == 26;
  }

  /** A hexadecimal literal keeps its exact value. */
  lemma HexLiteral()
    ensures Lex("0x1A") == Ok([Number(Integer(26)), EndOfFile])
  {
    HexScan();
    assert SkipWhitespace("0x1A", 0) == 0;
    DigitStartsNumber("0x1A", 0, 0, Integer(26), 4);
    LexSingle("0x1A", Number(Integer(26)), 4);
  }

  lemma ExponentScan()
    ensures ScanNumber("1e+2", 1) == Ok((Floating("1e+2"), 4))
  {
    var src := "1e+2";
    var f0 := NumFlags(false, false, false, false, false);
    var f1 := f0.(floating := true, science := true);
    var f2 := f1.(signedPower := true);
    var f3 := f2.(numberPower := true);
    assert HexStart(src, 1) == (false, 1);
    assert NumberLoop(src, 4, f3) == Ok((4, f3));
    assert NumberLoop(src, 3, f2) == Ok((4, f3));
    assert NumberLoop(src, 2, f1) == Ok((4, f3));
    assert NumberLoop(src, 1, f0) == Ok((4, f3));
    assert ExtractWord(src, 0, 4) == "1e+2";
  }

  /** A signed exponent makes a floating literal. */
  lemma SignedExponent()
    ensures Lex("1e+2") == Ok([Number(Floating("1e+2")), EndOfFile])
  {
    ExponentScan();
    assert SkipWhitespace("1e+2", 0) == 0;
    DigitStartsNumber("1e+2", 0, 0, Floating("1e+2"), 4);
    LexSingle("1e+2", Number(Floating("1e+2")), 4);
  }

  /** A sign after an exponent digit is not part of the literal: `1e2+3` stops before `+`. */
  lemma SignAfterExponentDigitScan()
    ensures ScanNumber("1e2+3", 1) == Ok((Floating("1e2"), 3))
  {
    var src := "1e2+3";
    var f0 := NumFlags(false, false, false, false, false);
    var f1 := f0.(floating := true, science := true);
    var f2 := f1.(numberPower := true);
    assert HexStart(src, 1) == (false, 1);
    assert NumberLoop(src, 3, f2) == Ok((3, f2));
    assert NumberLoop(src, 2, f1) == Ok((3, f2));
    assert NumberLoop(src, 1, f0) == Ok((3, f2));
    assert ExtractWord(src, 0, 3) == "1e2";
  }

  lemma DotAfterExponentScan()
    ensures ScanNumber("1e5.3", 1) == Err(InvalidNumber)
  {
    var src := "1e5.3";
    var f1 := NumFlags(false, true, true, false, false);
    var f2 := f1.(numberPower := true);
    assert HexStart(src, 1) == (false, 1);
    assert NumberLoop(src, 3, f2) == Err(InvalidNumber);
    assert NumberLoop(src, 2, f1) == Err(InvalidNumber);
  }

  /** A hexadecimal letter after a fraction is an invalid number. */
  lemma HexLetterAfterFraction()
    ensures ScanNumber("1.5f", 1) == Err(InvalidNumber)
  {
    var src := "1.5f";
    var f0 := NumFlags(false, false, false, false, false);
    var f1 := f0.(floating := true);
    assert HexStart(src, 1) == (false, 1);
    assert Reaches(src, 3, f1, 3, f1);
    assert Reaches(src, 2, f1, 3, f1);
    assert Reaches(src, 1, f0, 3, f1);
    DecimalRejectsHexLetter(src, 1, 3, f1);
  }

  /** A hexadecimal letter after an exponent is an invalid number. */
  lemma HexLetterAfterExponent()
    ensures ScanNumber("1e5f", 1) == Err(InvalidNumber)
  {
    var src := "1e5f";
    var f0 := NumFlags(false, false, false, false, false);
    var f1 := f0.(floating := true, science := true);
    var f2 := f1.(numberPower := true);
    assert HexStart(src, 1) == (false, 1);
    assert Reaches(src, 3, f2, 3, f2);
    assert Reaches(src, 2, f1, 3, f2);
    assert Reaches(src, 1, f0, 3, f2);
    DecimalRejectsHexLetter(src, 1, 3, f2);
  }

  /** A `.` in a hexadecimal literal is an invalid number. */
  lemma DotInHex()
    ensures ScanNumber("0x1.", 1) == Err(InvalidNumber)
  {
    var src := "0x1.";
    var h := NumFlags(true, false, false, false, false);
    assert HexStart(src, 1) == (true, 2);
    assert NumberLoop(src, 3, h) == Err(InvalidNumber);
    assert NumberLoop(src, 2, h) == Err(InvalidNumber);
  }

  /** A `.` after an exponent is an invalid number. */
  lemma DotAfterExponent()
    ensures Lex("1e5.3") == Err(InvalidNumber)
  {
    DotAfterExponentScan();
    assert SkipWhitespace("1e5.3", 0) == 0;
    assert ScanToken("1e5.3", 0) == Err(InvalidNumber);
    LexOfError("1e5.3", InvalidNumber);
  }

  /** `0x` with no hexadecimal digits fails the integer conversion. */
  lemma EmptyHexDigits()
    ensures Lex("0x") == Err(ConversionFailed)
  {
    var f := NumFlags(true, false, false, false, false);
    assert HexStart("0x", 1) == (true, 2);
    assert NumberLoop("0x", 2, f) == Ok((2, f));
    assert ScanNumber("0x", 1) == Err(ConversionFailed);
    assert SkipWhitespace("0x", 0) == 0;
    assert ScanToken("0x", 0) == Err(ConversionFailed);
    LexOfError("0x", ConversionFailed);
  }

  /** Two dots after a digit: the second dot makes the number invalid. */
  lemma DigitThenTwoDots()
    ensures Lex("1..2") == Err(InvalidNumber)
  {
    var f := NumFlags(false, true, false, false, false);
    assert HexStart("1..2", 1) == (false, 1);
    assert NumberLoop("1..2", 2, f) == Err(InvalidNumber);
    assert ScanNumber("1..2", 1) == Err(InvalidNumber);
    assert SkipWhitespace("1..2", 0) == 0;
    assert ScanToken("1..2", 0) == Err(InvalidNumber);
    LexOfError("1..2", InvalidNumber);
  }

  lemma KeywordToken()
    ensures ScanToken("and andx", 0) == Ok(Scanned(Emit(Reserved(And)), 0, 3))
  {
    var src := "and andx";
    assert NameEnd(src, 3) == 3;
    assert NameEnd(src, 1) == 3;
    assert ExtractWord(src, 0, 3) == "and";
    assert KeywordOf("and") == Some(And);
    assert SkipWhitespace(src, 0) == 0;
    LetterStartsName(src, 0, 0, Reserved(And), 3);
  }

  lemma LongerNameToken()
    ensures ScanToken("and andx", 3) == Ok(Scanned(Emit(Name("andx")), 4, 8))
  {
    var src := "and andx";
    assert NameEnd(src, 8) == 8;
    assert NameEnd(src, 5) == 8;
    assert ExtractWord(src, 4, 8) == "andx";
    KeywordOfComplete("andx");
    assert SkipWhitespace(src, 3) == 4;
    LetterStartsName(src, 3, 4, Name("andx"), 8);
  }

  /** A reserved word is matched whole: a longer word is a name. */
  lemma KeywordAndLongerName()
    ensures Lex("and andx") == Ok([Reserved(And), Name("andx"), EndOfFile])
  {
    var src := "and andx";
    KeywordToken();
    LongerNameToken();
    assert ScanFrom(src, 8) == Ok([]);
    ScanFromEmit(src, 3, Name("andx"), 4, 8, []);
    assert [Name("andx")] + [] == [Name("andx")];
    ScanFromEmit(src, 0, Reserved(And), 0, 3, [Name("andx")]);
    assert [Reserved(And)] + [Name("andx")] == [Reserved(And), Name("andx")];
    LexOfScan(src, [Reserved(And), Name("andx")]);
    assert [Reserved(And), Name("andx")] + [EndOfFile] == [Reserved(And), Name("andx"), EndOfFile];
  }

  /**
   * In `'a\n\""'` the `\n` and the escaped `"` are decoded, and the second
   * `"` is copied as it is: only the delimiting quote needs an escape.
   */
  lemma EscapeScan()
    ensures ScanString("'a\\n\\\"\"'", 1) == Ok(("a\n\"\"", 8))
  {
    var src := "'a\\n\\\"\"'";
    assert StringBody(src, 7, '\'') == Ok(([], 8));
    assert ['"'] + [] == "\"";
    assert StringBody(src, 6, '\'') == Ok(("\"", 8));
    assert ParseEscape(src, 5) == Ok(('"', 6));
    assert ['"'] + "\"" == "\"\"";
    assert StringBody(src, 4, '\'') == Ok(("\"\"", 8));
    assert ParseEscape(src, 3) == Ok(('\n', 4));
    assert ['\n'] + "\"\"" == "\n\"\"";
    assert StringBody(src, 2, '\'') == Ok(("\n\"\"", 8));
    assert ['a'] + "\n\"\"" == "a\n\"\"";
    assert StringBody(src, 1, '\'') == Ok(("a\n\"\"", 8));
  }

  /** The whole input of that literal is one string token. */
  lemma EscapedString()
    ensures Lex("'a\\n\\\"\"'") == Ok([StringLit("a\n\"\""), EndOfFile])
  {
    EscapeScan();
    assert SkipWhitespace("'a\\n\\\"\"'", 0) == 0;
    QuoteStartsString("'a\\n\\\"\"'", 0, 0, "a\n\"\"", 8);
    LexSingle("'a\\n\\\"\"'", StringLit("a\n\"\""), 8);
  }

  /** A sign after a plain integer is not part of it: `1+2` scans `1` and stops. */
  lemma SignAfterInteger()
    ensures ScanNumber("1+2", 1) == Ok((Integer(1), 1))
  {
    var src := "1+2";
    assert src[0..1] == "1";
    assert DecValue("1") == 1;
    DigitsScanAsInteger(src, 1, 1);
  }

  lemma CommentTokens()
    ensures ScanToken("--c\nx", 0) == Ok(Scanned(Comment, 0, 3))
    ensures ScanToken("--c\nx", 3) == Ok(Scanned(Emit(EndOfLine), 3, 4))
    ensures ScanToken("--c\nx", 4) == Ok(Scanned(Emit(Name("x")), 4, 5))
  {
    var src := "--c\nx";
    assert ScanComment(src, 2) == 3;
    assert SkipWhitespace(src, 0) == 0;
    assert SkipWhitespace(src, 3) == 3;
    assert NameEnd(src, 5) == 5;
    assert ExtractWord(src, 4, 5) == "x";
    KeywordOfComplete("x");
    assert SkipWhitespace(src, 4) == 4;
    LetterStartsName(src, 4, 4, Name("x"), 5);
  }

  /** A comment is dropped; the newline that ends it is still a token. */
  lemma CommentThenName()
    ensures Lex("--c\nx") == Ok([EndOfLine, Name("x"), EndOfFile])
  {
    var src := "--c\nx";
    CommentTokens();
    assert ScanFrom(src, 5) == Ok([]);
    ScanFromEmit(src, 4, Name("x"), 4, 5, []);
    assert [Name("x")] + [] == [Name("x")];
    ScanFromEmit(src, 3, EndOfLine, 3, 4, [Name("x")]);
    assert [EndOfLine] + [Name("x")] == [EndOfLine, Name("x")];
    ScanFromComment(src, 0, 0, 3, [EndOfLine, Name("x")]);
    LexOfScan(src, [EndOfLine, Name("x")]);
    assert [EndOfLine, Name("x")] + [EndOfFile] == [EndOfLine, Name("x"), EndOfFile];
  }

  /** `~` not followed by `=` is an invalid token. */
  lemma LoneTilde()
    ensures Lex("~b") == Err(InvalidToken)
  {
    assert SkipWhitespace("~b", 0) == 0;
    assert ScanToken("~b", 0) == Err(InvalidToken);
    LexOfError("~b", InvalidToken);
  }

  /** Blanks at the very end, with no newline, are an invalid token. */
  lemma TrailingBlank()
    ensures Lex(" ") == Err(InvalidToken)
  {
    assert SkipWhitespace(" ", 0) == 1;
    LexOfError(" ", InvalidToken);
  }
}
