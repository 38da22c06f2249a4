/**
 * The name sub-scanner: the longest run of identifier characters, looked up
 * in the reserved-word table.
 */
module Names {
  import opened Tokens
  import opened Cursor

  /**
   * The identifier-character test, with both of the original's branches:
   * with `start` set a letter or `_` passes the first branch, and any
   * letter, digit or `_` passes the second whatever `start` is.
   */
  predicate IsNameChar(c: char, start: bool) {
    if start && (IsAlpha(c) || c == '_') then true
    else if IsAlpha(c) || IsDigit(c) || c == '_' then true
    else false
  }

  /**
   * The `start` flag makes no difference: the second branch already admits
   * every letter and `_`. Names still begin with a letter or `_` because the
   * dispatcher tests for a digit first.
   */
  lemma NameCharIgnoresStart(c: char)
    ensures IsNameChar(c, true) == IsNameChar(c, false)
    ensures IsNameChar(c, false) <==> IsAlpha(c) || IsDigit(c) || c == '_'
  {
  }

  /**
   * Consumes identifier characters from `pos`: the end of the longest run
   * of them.
   */
  function NameEnd(src: seq<char>, pos: nat): (q: nat)
    requires pos <= |src|
    decreases |src| - pos
    ensures pos <= q <= |src|
    ensures forall i :: pos <= i < q ==> IsNameChar(src[i], false)
    ensures q < |src| ==> !IsNameChar(src[q], false)
  {
    if IsNameChar(Peek(src, pos), false) then NameEnd(src, Advance(src, pos).1) else pos
  }

  /** The token for a name lexeme: a reserved word when the table has it. */
  function ClassifyWord(word: string): (t: Token)
    ensures t.Reserved? || t == Name(word)
    ensures t.Reserved? <==> exists w: ReservedWord :: word == Spelling(w)
    ensures t.Reserved? ==> word == Spelling(t.word)
  {
    KeywordOfComplete(word);
    match KeywordOf(word)
    case Some(w) => Reserved(w)
    case None => Name(word)
  }

  /**
   * Scans a name whose first character has just been consumed, so the
   * lexeme starts at `pos - 1`. The lexeme is the longest run of identifier
   * characters; it is a keyword exactly when it spells a reserved word.
   */
  function ScanName(src: seq<char>, pos: nat): (r: (Token, nat))
    requires 0 < pos <= |src|
    requires IsNameChar(src[pos - 1], true)
    ensures var (t, q) := r;
      && pos <= q <= |src|
      && (forall i :: pos - 1 <= i < q ==> IsNameChar(src[i], false))
      && (q < |src| ==> !IsNameChar(src[q], false))
      && (t.Reserved? || t == Name(src[pos - 1..q]))
      && (t.Reserved? <==> exists w: ReservedWord :: src[pos - 1..q] == Spelling(w))
      && (t.Reserved? ==> src[pos - 1..q] == Spelling(t.word))
  {
    NameCharIgnoresStart(src[pos - 1]);
    var q := NameEnd(src, pos);
    var word := ExtractWord(src, pos - 1, q);
    (ClassifyWord(word), q)
  }

  /**
   * A spelling the name scanner reads whole as a Name token: it starts with
   * a letter or `_`, continues with identifier characters and is not a
   * reserved word.
   */
  predicate IsIdentifier(n: string) {
    && |n| > 0
    && (IsAlpha(n[0]) || n[0] == '_')
    && (forall i :: 0 <= i < |n| ==> IsNameChar(n[i], false))
    && KeywordOf(n).None?
  }
}
