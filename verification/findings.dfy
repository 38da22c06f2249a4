/**
 * Three places where the lexer as written departs from what it evidently
 * means to do. Each is modelled here as written, with the input that shows
 * the departure, next to the corrected definition the rest of the model
 * uses and the property that holds of it.
 */
module Findings {
  import opened Tokens
  import opened Cursor
  import opened Strings
  import opened Names

  /**
   * The comment loop as written: it stops only when the next character is a
   * newline. At the end of input the cursor yields NUL and does not move, so
   * without a newline ahead the loop never stops. `fuel` bounds the number
   * of iterations followed; None means they ran out.
   */
  function CommentLoopAsWritten(src: seq<char>, pos: nat, fuel: nat): (r: Option<nat>)
    requires pos <= |src|
    decreases fuel
    ensures r.Some? ==> pos <= r.value < |src| && src[r.value] == '\n'
    ensures r.Some? ==> forall i :: pos <= i < r.value ==> src[i] != '\n'
  {
    if Peek(src, pos) == '\n' then Some(pos)
    else if fuel == 0 then None
    else CommentLoopAsWritten(src, Advance(src, pos).1, fuel - 1)
  }

  /** A comment on the last line, with no newline after it, never ends as written. */
  lemma {:induction false} CommentWithoutNewlineSpins(src: seq<char>, pos: nat, fuel: nat)
    requires pos <= |src|
    requires forall i :: pos <= i < |src| ==> src[i] != '\n'
    ensures CommentLoopAsWritten(src, pos, fuel) == None
    decreases fuel
  {
    if fuel > 0 {
      CommentWithoutNewlineSpins(src, Advance(src, pos).1, fuel - 1);
    }
  }

  /** The smallest input that shows it: `--` followed by the end of input. */
  lemma CommentAtEndSpins(fuel: nat)
    ensures CommentLoopAsWritten("--", 2, fuel) == None
  {
    CommentWithoutNewlineSpins("--", 2, fuel);
  }

  /**
   * Wherever the loop as written stops, the corrected comment scanner stops
   * at the same place.
   */
  lemma {:induction false} CommentLoopAgrees(src: seq<char>, pos: nat, fuel: nat)
    requires pos <= |src|
    requires CommentLoopAsWritten(src, pos, fuel).Some?
    ensures CommentLoopAsWritten(src, pos, fuel) == Some(ScanComment(src, pos))
    decreases fuel
  {
    if Peek(src, pos) != '\n' {
      CommentLoopAgrees(src, Advance(src, pos).1, fuel - 1);
    }
  }

  /**
   * Conversely, with a newline ahead and fuel for every character before it,
   * the loop as written stops where the corrected scanner does.
   */
  lemma {:induction false} CommentLoopStops(src: seq<char>, pos: nat, fuel: nat)
    requires pos <= |src|
    requires ScanComment(src, pos) < |src|
    requires fuel >= ScanComment(src, pos) - pos
    ensures CommentLoopAsWritten(src, pos, fuel) == Some(ScanComment(src, pos))
    decreases fuel
  {
    if Peek(src, pos) != '\n' {
      CommentLoopStops(src, Advance(src, pos).1, fuel - 1);
    }
  }

  /** Lifts Prepend over a run that may not have stopped. */
  function PrependRun(c: char, r: Option<Result<(string, nat)>>): Option<Result<(string, nat)>>
  {
    match r
    case None => None
    case Some(x) => Some(Prepend(c, x))
  }

  /**
   * The string loop as written: it stops only at the closing quote. At the
   * end of input the cursor yields NUL, which is neither the quote nor a
   * backslash, and does not move, so an unterminated literal never stops.
   * `fuel` bounds the number of iterations followed; None means they ran out.
   */
  function StringLoopAsWritten(src: seq<char>, pos: nat, tag: char, fuel: nat): (r: Option<Result<(string, nat)>>)
    requires pos <= |src| && IsQuote(tag)
    decreases fuel
    ensures r.Some? && r.value.Ok? ==> var q := r.value.value.1; pos < q <= |src| && src[q - 1] == tag
    ensures r.Some? && r.value.Err? ==> r.value.error == InvalidEscape
  {
    if Peek(src, pos) == tag then Some(Ok(([], Advance(src, pos).1)))
    else if fuel == 0 then None
    else
      var (escaped, afterSlash) := MatchChar(src, pos, '\\');
      if escaped then
        match ParseEscape(src, afterSlash)
        case Err(e) => Some(Err(e))
        case Ok((d, next)) => PrependRun(d, StringLoopAsWritten(src, next, tag, fuel - 1))
      else
        var (c, next) := Advance(src, pos);
        PrependRun(c, StringLoopAsWritten(src, next, tag, fuel - 1))
  }

  /** An unterminated literal never stops as written once the input is used up. */
  lemma {:induction false} StringAtEndSpins(src: seq<char>, tag: char, fuel: nat)
    requires IsQuote(tag)
    ensures StringLoopAsWritten(src, |src|, tag, fuel) == None
    decreases fuel
  {
    if fuel > 0 {
      StringAtEndSpins(src, tag, fuel - 1);
    }
  }

  /** The smallest input that shows it: a lone opening quote. */
  lemma LoneQuoteSpins(fuel: nat)
    ensures StringLoopAsWritten("\"", 1, '"', fuel) == None
  {
    StringAtEndSpins("\"", '"', fuel);
  }

  /** The corrected scanner reports the lone quote as an unterminated literal. */
  lemma LoneQuoteIsUnterminated()
    ensures ScanString("\"", 1) == Err(Unterminated)
  {
  }

  /**
   * Wherever the loop as written stops, the corrected body scanner gives the
   * same outcome: the same text and end, or the same escape error.
   */
  lemma {:induction false} StringLoopAgrees(src: seq<char>, pos: nat, tag: char, fuel: nat)
    requires pos <= |src| && IsQuote(tag)
    requires StringLoopAsWritten(src, pos, tag, fuel).Some?
    ensures StringLoopAsWritten(src, pos, tag, fuel) == Some(StringBody(src, pos, tag))
    decreases fuel
  {
    if Peek(src, pos) != tag {
      var (escaped, afterSlash) := MatchChar(src, pos, '\\');
      if escaped {
        var r := ParseEscape(src, afterSlash);
        if r.Ok? {
          StringLoopAgrees(src, r.value.1, tag, fuel - 1);
        }
      } else {
        StringLoopAgrees(src, Advance(src, pos).1, tag, fuel - 1);
      }
    }
  }

  /**
   * The name scanner as written in the C++ port: a word that is not
   * reserved becomes a string token, not a name token.
   */
  function ScanNameAsWritten(src: seq<char>, pos: nat): (r: (Token, nat))
    requires 0 < pos <= |src|
    requires IsNameChar(src[pos - 1], true)
    ensures pos <= r.1 <= |src|
    ensures !r.0.Name?
    ensures r.0.Reserved? || r.0 == StringLit(src[pos - 1..r.1])
  {
    var q := NameEnd(src, pos);
    var word := ExtractWord(src, pos - 1, q);
    match KeywordOf(word)
    case Some(w) => (Reserved(w), q)
    case None => (StringLit(word), q)
  }

  /**
   * As written, the identifier `x` and the string literal `"x"` scan to the
   * same token; the corrected name scanner tells them apart.
   */
  lemma NameCollidesWithString()
    ensures ScanNameAsWritten("x", 1) == (StringLit("x"), 1)
    ensures ScanString("\"x\"", 1) == Ok(("x", 3))
    ensures ScanName("x", 1) == (Name("x"), 1)
  {
    assert NameEnd("x", 1) == 1;
    assert ExtractWord("x", 0, 1) == "x";
    KeywordOfComplete("x");
    assert Encode("x", '"') == "x";
    LiteralRoundTrip("\"x\"", 0, 3, "x", '"');
  }

  /**
   * In general the C++ name token differs from the corrected one exactly on
   * the words that are not reserved, where it is the string token of the
   * same text.
   */
  lemma NameAsWrittenIsString(src: seq<char>, pos: nat)
    requires 0 < pos <= |src|
    requires IsNameChar(src[pos - 1], true)
    ensures var (t, q) := ScanName(src, pos);
      ScanNameAsWritten(src, pos) == if t.Name? then (StringLit(t.name), q) else (t, q)
  {
  }
}
