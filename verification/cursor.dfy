/**
 * Cursor primitives over the in-memory source, the ASCII character classes
 * the lexer uses, and the whitespace and comment skippers.
 *
 * The lexer's mutable cursor `current` becomes a position argument `pos`
 * (always at most |src|) and every primitive returns the new position.
 */
module Cursor {

  /** The sentinel the primitives return at the boundaries of the input. */
  const NUL: char := '\0'

  predicate IsDigit(c: char) {
    '0' <= c <= '9'
  }

  predicate IsAlpha(c: char) {
    'a' <= c <= 'z' || 'A' <= c <= 'Z'
  }

  /**
   * Whitespace that the lexer skips: the C-locale `isspace` set (space, tab,
   * line feed, vertical tab, form feed, carriage return) less the line feed,
   * which is a token of its own.
   */
  predicate IsBlank(c: char) {
    c == ' ' || c == '\t' || c == '\U{000B}' || c == '\U{000C}' || c == '\r'
  }

  predicate IsAtEnd(src: seq<char>, pos: nat) {
    pos >= |src|
  }

  /** The character under the cursor, or NUL at the end; never moves. */
  function Peek(src: seq<char>, pos: nat): (c: char)
    requires pos <= |src|
    ensures pos == |src| ==> c == NUL
    ensures pos < |src| ==> c == src[pos]
  {
    if IsAtEnd(src, pos) then NUL else src[pos]
  }

  /** The character just before the cursor, or NUL at position 0. */
  function Previous(src: seq<char>, pos: nat): (c: char)
    requires pos <= |src|
    ensures pos == 0 ==> c == NUL
    ensures pos > 0 ==> c == src[pos - 1]
  {
    if pos == 0 then NUL else src[pos - 1]
  }

  /**
   * Consumes one character. At the end it returns NUL and leaves the cursor
   * where it is; otherwise the returned character is the one now just behind
   * the cursor.
   */
  function Advance(src: seq<char>, pos: nat): (r: (char, nat))
    requires pos <= |src|
    ensures r.1 <= |src|
    ensures r.0 == Peek(src, pos)
    ensures IsAtEnd(src, pos) <==> r.1 == pos
    ensures !IsAtEnd(src, pos) ==> r.1 == pos + 1 && Previous(src, r.1) == r.0
  {
    if IsAtEnd(src, pos) then (NUL, pos) else (src[pos], pos + 1)
  }

  /**
   * Consumes the next character when it is `target`: the cursor moves by
   * exactly one when the match succeeds and does not move otherwise.
   */
  function MatchChar(src: seq<char>, pos: nat, target: char): (r: (bool, nat))
    requires pos <= |src|
    ensures r.0 <==> pos < |src| && src[pos] == target
    ensures r.1 == if r.0 then pos + 1 else pos
  {
    if IsAtEnd(src, pos) then (false, pos)
    else if Peek(src, pos) == target then (true, Advance(src, pos).1)
    else (false, pos)
  }

  /** The lexeme between the two cursors. */
  function ExtractWord(src: seq<char>, start: nat, current: nat): (w: string)
    requires start <= current <= |src|
    ensures |w| == current - start
    ensures forall i :: 0 <= i < |w| ==> w[i] == src[start + i]
  {
    src[start..current]
  }

  /**
   * Skips blanks up to the next non-blank character, the next newline or
   * the end of input. A newline is never consumed.
   */
  function SkipWhitespace(src: seq<char>, pos: nat): (q: nat)
    requires pos <= |src|
    decreases |src| - pos
    ensures pos <= q <= |src|
    ensures forall i :: pos <= i < q ==> IsBlank(src[i])
    ensures q < |src| ==> !IsBlank(src[q])
  {
    var c := Peek(src, pos);
    if c != '\n' && IsBlank(c) then SkipWhitespace(src, Advance(src, pos).1) else pos
  }

  /**
   * The body of a `--` comment: consumes up to, but not including, the next
   * newline. Where the original loops forever when no newline follows, the
   * comment here ends at the end of input.
   */
  function ScanComment(src: seq<char>, pos: nat): (q: nat)
    requires pos <= |src|
    decreases |src| - pos
    ensures pos <= q <= |src|
    ensures forall i :: pos <= i < q ==> src[i] != '\n'
    ensures q < |src| ==> src[q] == '\n'
  {
    if IsAtEnd(src, pos) || Peek(src, pos) == '\n' then pos else ScanComment(src, Advance(src, pos).1)
  }
}
