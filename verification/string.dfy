/**
 * The string sub-scanner: reads up to the quote character that opened the
 * literal, decoding the four escapes the lexer supports.
 */
module Strings {
  import opened Tokens
  import opened Cursor

  predicate IsQuote(c: char) {
    c == '"' || c == '\''
  }

  /** The escape table: the character a backslash followed by `c` stands for. */
  function EscapeChar(c: char): (r: Option<char>)
    ensures r.Some? <==> c == '\\' || c == 'n' || c == '\'' || c == '"'
    ensures r.Some? ==> r.value == if c == 'n' then '\n' else c
  {
    match c
    case '\\' => Some('\\')
    case 'n' => Some('\n')
    case '\'' => Some('\'')
    case '"' => Some('"')
    case _ => None
  }

  /**
   * Decodes the character after a backslash. Any other character, including
   * the NUL the cursor yields at the end of input, is an invalid escape.
   */
  function ParseEscape(src: seq<char>, pos: nat): (r: Result<(char, nat)>)
    requires pos <= |src|
    ensures r.Ok? <==> pos < |src| && EscapeChar(src[pos]).Some?
    ensures r.Ok? ==> r.value == (EscapeChar(src[pos]).value, pos + 1)
    ensures r.Err? ==> r.error == InvalidEscape
  {
    var (c, next) := Advance(src, pos);
    match EscapeChar(c)
    case Some(d) => Ok((d, next))
    case None => Err(InvalidEscape)
  }

  /**
   * The body of a string literal from `pos` up to and including the closing
   * `tag`. Returns the decoded text and the position after the closing
   * quote. Where the original loops forever at the end of input, the body
   * here is an Unterminated error.
   */
  function StringBody(src: seq<char>, pos: nat, tag: char): (r: Result<(string, nat)>)
    requires pos <= |src|
    requires IsQuote(tag)
    decreases |src| - pos
    ensures r.Ok? ==> var (text, q) := r.value;
      pos < q <= |src| && src[q - 1] == tag && |text| <= q - 1 - pos
    ensures (forall i :: pos <= i < |src| ==> src[i] != tag) ==> r.Err?
    ensures r.Err? ==> r.error == Unterminated || r.error == InvalidEscape
    ensures r.Err? && r.error == InvalidEscape ==>
      exists i :: pos <= i < |src| && src[i] == '\\' && (i + 1 == |src| || EscapeChar(src[i + 1]).None?)
  {
    if IsAtEnd(src, pos) then Err(Unterminated)
    else if Peek(src, pos) == tag then Ok(([], Advance(src, pos).1))
    else
      var (escaped, afterSlash) := MatchChar(src, pos, '\\');
      if escaped then
        var (d, next) :- ParseEscape(src, afterSlash);
        var (rest, q) :- StringBody(src, next, tag);
        Ok(([d] + rest, q))
      else
        var (c, next) := Advance(src, pos);
        var (rest, q) :- StringBody(src, next, tag);
        Ok(([c] + rest, q))
  }

  /**
   * `src[pos..k]` is read by the body loop without closing the literal or
   * failing: every character is either an escape pair the table knows or
   * a character other than `tag`.
   */
  predicate OpenBody(src: seq<char>, pos: nat, k: nat, tag: char)
    requires pos <= k <= |src|
    decreases k - pos
  {
    if pos == k then true
    else if src[pos] == tag then false
    else if src[pos] == '\\' then
      pos + 1 < k && EscapeChar(src[pos + 1]).Some? && OpenBody(src, pos + 2, k, tag)
    else OpenBody(src, pos + 1, k, tag)
  }

  /** A backslash at `i` that does not begin a known escape. */
  predicate BadEscape(src: seq<char>, i: nat)
    requires i < |src|
  {
    src[i] == '\\' && (i + 1 == |src| || EscapeChar(src[i + 1]).None?)
  }

  /** Where the loop goes next from a character that does not close the literal. */
  function NextOpen(src: seq<char>, pos: nat): (k: nat)
    requires pos < |src|
    ensures pos < k <= pos + 2
  {
    if src[pos] == '\\' then pos + 2 else pos + 1
  }

  /** One step of the body loop, over a character that neither closes nor fails. */
  lemma BodyStep(src: seq<char>, pos: nat, tag: char)
    requires pos < |src| && IsQuote(tag) && src[pos] != tag && !BadEscape(src, pos)
    ensures NextOpen(src, pos) <= |src|
    ensures OpenBody(src, pos, NextOpen(src, pos), tag)
    ensures StringBody(src, pos, tag).Err? <==> StringBody(src, NextOpen(src, pos), tag).Err?
    ensures StringBody(src, pos, tag).Err? ==>
      StringBody(src, pos, tag).error == StringBody(src, NextOpen(src, pos), tag).error
    ensures StringBody(src, pos, tag).Ok? ==>
      StringBody(src, pos, tag).value.1 == StringBody(src, NextOpen(src, pos), tag).value.1
  {
    if src[pos] == '\\' {
      assert OpenBody(src, pos + 2, pos + 2, tag);
    } else {
      assert OpenBody(src, pos + 1, pos + 1, tag);
    }
  }

  /** OpenBody extends by one step of the loop. */
  lemma {:induction false} OpenBodyExtend(src: seq<char>, pos: nat, k: nat, tag: char)
    requires pos < |src| && src[pos] != tag && !BadEscape(src, pos)
    requires NextOpen(src, pos) <= k <= |src|
    requires OpenBody(src, NextOpen(src, pos), k, tag)
    ensures OpenBody(src, pos, k, tag)
  {
  }

  /** A successful scan closes on the first `tag` the loop reaches. */
  lemma {:induction false} ClosedBody(src: seq<char>, pos: nat, tag: char)
    requires pos <= |src| && IsQuote(tag)
    requires StringBody(src, pos, tag).Ok?
    ensures OpenBody(src, pos, StringBody(src, pos, tag).value.1 - 1, tag)
    decreases |src| - pos
  {
    var q := StringBody(src, pos, tag).value.1;
    if src[pos] != tag {
      BodyStep(src, pos, tag);
      ClosedBody(src, NextOpen(src, pos), tag);
      OpenBodyExtend(src, pos, q - 1, tag);
    }
  }

  /** An Unterminated scan reads to the end of input without closing. */
  lemma {:induction false} UnterminatedBody(src: seq<char>, pos: nat, tag: char)
    requires pos <= |src| && IsQuote(tag)
    requires StringBody(src, pos, tag) == Err(Unterminated)
    ensures OpenBody(src, pos, |src|, tag)
    decreases |src| - pos
  {
    if pos < |src| {
      if BadEscape(src, pos) {
        assert false;
      } else {
        BodyStep(src, pos, tag);
        UnterminatedBody(src, NextOpen(src, pos), tag);
        OpenBodyExtend(src, pos, |src|, tag);
      }
    }
  }

  /** An invalid escape is a bad backslash the loop reaches before any closing quote. */
  lemma {:induction false} InvalidEscapeBody(src: seq<char>, pos: nat, tag: char)
    requires pos <= |src| && IsQuote(tag)
    requires StringBody(src, pos, tag) == Err(InvalidEscape)
    ensures exists i :: pos <= i < |src| && OpenBody(src, pos, i, tag) && BadEscape(src, i)
    decreases |src| - pos
  {
    if BadEscape(src, pos) {
      assert OpenBody(src, pos, pos, tag);
    } else {
      BodyStep(src, pos, tag);
      var n := NextOpen(src, pos);
      InvalidEscapeBody(src, n, tag);
      var i :| n <= i < |src| && OpenBody(src, n, i, tag) && BadEscape(src, i);
      OpenBodyExtend(src, pos, i, tag);
    }
  }

  /**
   * Conversely, a stretch the loop reads without closing changes nothing
   * about how the literal ends: the scan from `pos` and the scan from `k`
   * fail alike or close at the same position.
   */
  lemma {:induction false} OpenBodySkip(src: seq<char>, pos: nat, k: nat, tag: char)
    requires pos <= k <= |src| && IsQuote(tag)
    requires OpenBody(src, pos, k, tag)
    ensures StringBody(src, pos, tag).Err? <==> StringBody(src, k, tag).Err?
    ensures StringBody(src, pos, tag).Err? ==> StringBody(src, pos, tag).error == StringBody(src, k, tag).error
    ensures StringBody(src, pos, tag).Ok? ==> StringBody(src, pos, tag).value.1 == StringBody(src, k, tag).value.1
    decreases k - pos
  {
    if pos < k {
      assert src[pos] != tag && !BadEscape(src, pos);
      BodyStep(src, pos, tag);
      OpenBodySkip(src, NextOpen(src, pos), k, tag);
    }
  }

  /** The literal closes on a `tag` the loop reaches, just after it. */
  lemma ClosesAt(src: seq<char>, pos: nat, k: nat, tag: char)
    requires pos <= k < |src| && IsQuote(tag)
    requires OpenBody(src, pos, k, tag) && src[k] == tag
    ensures StringBody(src, pos, tag).Ok? && StringBody(src, pos, tag).value.1 == k + 1
  {
    OpenBodySkip(src, pos, k, tag);
  }

  /** A bad backslash the loop reaches is an invalid escape. */
  lemma FailsAt(src: seq<char>, pos: nat, k: nat, tag: char)
    requires pos <= k < |src| && IsQuote(tag)
    requires OpenBody(src, pos, k, tag) && BadEscape(src, k)
    ensures StringBody(src, pos, tag) == Err(InvalidEscape)
  {
    OpenBodySkip(src, pos, k, tag);
  }

  /** Reaching the end of input without closing is Unterminated. */
  lemma RunsOut(src: seq<char>, pos: nat, tag: char)
    requires pos <= |src| && IsQuote(tag)
    requires OpenBody(src, pos, |src|, tag)
    ensures StringBody(src, pos, tag) == Err(Unterminated)
  {
    OpenBodySkip(src, pos, |src|, tag);
  }

  /**
   * Scans a string literal whose opening quote has just been consumed; the
   * quote just behind the cursor is the closing delimiter. The decoded text
   * excludes both quotes and the closing quote is consumed.
   */
  function ScanString(src: seq<char>, pos: nat): (r: Result<(string, nat)>)
    requires 0 < pos <= |src| && IsQuote(src[pos - 1])
    ensures r.Ok? ==> pos < r.value.1 <= |src| && src[r.value.1 - 1] == src[pos - 1]
    ensures r.Err? ==> r.error == Unterminated || r.error == InvalidEscape
  {
    StringBody(src, pos, Previous(src, pos))
  }

  /** How one character is written inside a literal delimited by `tag`. */
  function EncodeChar(c: char, tag: char): string
  {
    if c == '\\' then ['\\', '\\']
    else if c == tag then ['\\', tag]
    else [c]
  }

  /**
   * The body of a literal delimited by `tag` that denotes `text`: backslash
   * and `tag` are escaped, everything else (the other quote, a raw newline)
   * is written as is.
   */
  function Encode(text: string, tag: char): string
  {
    if |text| == 0 then [] else EncodeChar(text[0], tag) + Encode(text[1..], tag)
  }

  /** Prepends a decoded character to the outcome of the rest of the body. */
  function Prepend(c: char, r: Result<(string, nat)>): Result<(string, nat)>
  {
    match r
    case Ok((rest, q)) => Ok(([c] + rest, q))
    case Err(e) => Err(e)
  }

  /** One encoded character decodes to itself, and the scan carries on after it. */
  lemma StringStep(src: seq<char>, pos: nat, next: nat, c: char, tag: char)
    requires IsQuote(tag)
    requires next == pos + |EncodeChar(c, tag)| && next <= |src|
    requires src[pos..next] == EncodeChar(c, tag)
    ensures StringBody(src, pos, tag) == Prepend(c, StringBody(src, next, tag))
  {
    var head := EncodeChar(c, tag);
    assert src[pos] == head[0];
    if c == '\\' || c == tag {
      assert src[pos + 1] == head[1];
    }
  }

  /**
   * Round trip: the encoding of any text, followed by the closing quote,
   * decodes back to that text and ends just after the quote.
   */
  lemma {:induction false} StringRoundTrip(src: seq<char>, pos: nat, text: string, tag: char)
    requires IsQuote(tag)
    requires pos + |Encode(text, tag)| < |src|
    requires src[pos..pos + |Encode(text, tag)|] == Encode(text, tag)
    requires src[pos + |Encode(text, tag)|] == tag
    ensures StringBody(src, pos, tag) == Ok((text, pos + |Encode(text, tag)| + 1))
    decreases |text|
  {
    var enc := Encode(text, tag);
    if |text| == 0 {
      assert src[pos] == tag;
    } else {
      var head := EncodeChar(text[0], tag);
      var tail := Encode(text[1..], tag);
      var next := pos + |head|;
      assert enc == head + tail;
      assert src[pos..next] == enc[..|head|];
      assert src[next..next + |tail|] == enc[|head|..];
      StringRoundTrip(src, next, text[1..], tag);
      StringStep(src, pos, next, text[0], tag);
      assert [text[0]] + text[1..] == text;
    }
  }

  /** The body and the closing quote of a quoted window. */
  lemma QuotedBody(src: seq<char>, start: nat, e: nat, body: string, tag: char)
    requires e == start + |body| + 2 && e <= |src|
    requires src[start..e] == [tag] + body + [tag]
    ensures src[start] == tag
    ensures src[start + 1..start + 1 + |body|] == body
    ensures src[start + 1 + |body|] == tag
  {
    var window := [tag] + body + [tag];
    forall k | 0 <= k < |body| ensures src[start + 1 + k] == body[k] {
      assert src[start + 1 + k] == window[1 + k];
    }
    assert src[start + 1 + |body|] == window[1 + |body|];
    assert src[start] == window[0];
  }

  /**
   * Round trip for a whole literal: the opening quote, the encoded text and
   * the closing quote scan back to the text, ending after the closing quote.
   */
  lemma LiteralRoundTrip(src: seq<char>, start: nat, e: nat, text: string, tag: char)
    requires IsQuote(tag)
    requires e == start + |Encode(text, tag)| + 2 && e <= |src|
    requires src[start..e] == [tag] + Encode(text, tag) + [tag]
    ensures ScanString(src, start + 1) == Ok((text, e))
  {
    QuotedBody(src, start, e, Encode(text, tag), tag);
    StringRoundTrip(src, start + 1, text, tag);
  }
}
