/**
 * A printer for token sequences, used as the independent partner of the
 * lexer: printing well-formed tokens, each preceded by a blank, and lexing
 * the text gives the tokens back followed by the end-of-file token.
 */
module Render {
  import opened Tokens
  import opened Cursor
  import opened Numbers
  import opened Strings
  import opened Names
  import opened Lexer

  /**
   * Tokens that have a spelling: everything but the end-of-file token, with
   * names restricted to identifiers, and numbers to 64-bit integers (the
   * value of a floating literal is not modelled).
   */
  predicate Renderable(t: Token) {
    match t
    case Reserved(_) => true
    case Number(v) => v.Integer? && v.n <= U64_MAX
    case StringLit(_) => true
    case Sym(_) => true
    case Name(n) => IsIdentifier(n)
    case EndOfLine => true
    case EndOfFile => false
  }

  /** The spelling of one token; strings are written with double quotes. */
  function TokenText(t: Token): string
    requires Renderable(t)
  {
    match t
    case Reserved(w) => Spelling(w)
    case Number(v) => DecimalText(v.n)
    case StringLit(s) => ['"'] + Encode(s, '"') + ['"']
    case Sym(y) => SymbolText(y)
    case Name(n) => n
    case EndOfLine => "\n"
  }

  /** The text of a token sequence: each token preceded by one blank. */
  function Render(ts: seq<Token>): string
    requires forall i :: 0 <= i < |ts| ==> Renderable(ts[i])
  {
    if |ts| == 0 then [] else [' '] + TokenText(ts[0]) + Render(ts[1..])
  }

  /** Every reserved word is spelled in lower-case letters. */
  lemma SpellingIsLowercase(w: ReservedWord)
    ensures |Spelling(w)| > 0
    ensures forall i :: 0 <= i < |Spelling(w)| ==> 'a' <= Spelling(w)[i] <= 'z'
  {
  }

  /** Every printed token is non-empty and does not start with a blank. */
  lemma TextStartsToken(t: Token)
    requires Renderable(t)
    ensures |TokenText(t)| > 0 && !IsBlank(TokenText(t)[0])
  {
    if t.Reserved? {
      SpellingIsLowercase(t.word);
    }
  }

  /**
   * The token's text at `pos + 1`, after one blank at `pos`, ended by the end
   * of input or another blank.
   */
  predicate TextAt(src: seq<char>, pos: nat, t: Token)
    requires Renderable(t)
  {
    && pos + 1 + |TokenText(t)| <= |src|
    && src[pos] == ' '
    && src[pos + 1..pos + 1 + |TokenText(t)|] == TokenText(t)
    && (pos + 1 + |TokenText(t)| == |src| || src[pos + 1 + |TokenText(t)|] == ' ')
  }

  /** A single blank before anything else is all the blank skipping consumes. */
  lemma SkipOneBlank(src: seq<char>, pos: nat)
    requires pos + 1 < |src| && src[pos] == ' ' && !IsBlank(src[pos + 1])
    ensures SkipWhitespace(src, pos) == pos + 1
  {
    assert SkipWhitespace(src, pos + 1) == pos + 1;
  }

  /**
   * The facts about one printed token that the readers below need, with the
   * token's extent `start..e` named.
   */
  lemma Lexeme(src: seq<char>, pos: nat, start: nat, e: nat, t: Token)
    requires Renderable(t) && TextAt(src, pos, t)
    requires start == pos + 1 && e == start + |TokenText(t)|
    ensures pos < start < e <= |src|
    ensures SkipWhitespace(src, pos) == start
    ensures src[start..e] == TokenText(t) && src[start] == TokenText(t)[0]
    ensures e == |src| || src[e] == ' '
  {
    TextStartsToken(t);
    var text := TokenText(t);
    assert src[start] == src[start..e][0];
    SkipOneBlank(src, pos);
  }

  /** A run of identifier characters ended by a non-identifier character is the name scan's extent. */
  lemma NameEndAt(src: seq<char>, p: nat, q: nat)
    requires p <= q <= |src|
    requires forall i :: p <= i < q ==> IsNameChar(src[i], false)
    requires q == |src| || !IsNameChar(src[q], false)
    ensures NameEnd(src, p) == q
  {
  }

  /** The name sub-scanner reads a printed word back as that word's token. */
  lemma WordScan(src: seq<char>, start: nat, e: nat, t: Token)
    requires Renderable(t) && (t.Reserved? || t.Name?)
    requires start < e <= |src| && src[start..e] == TokenText(t)
    requires e == |src| || src[e] == ' '
    ensures IsAlpha(src[start]) || src[start] == '_'
    ensures ScanName(src, start + 1) == (t, e)
  {
    var text := TokenText(t);
    if t.Reserved? {
      SpellingIsLowercase(t.word);
    }
    forall i | start <= i < e ensures IsNameChar(src[i], false) {
      assert src[i] == text[i - start];
    }
    assert src[start] == text[0];
    NameEndAt(src, start + 1, e);
    assert ExtractWord(src, start, e) == text;
    if t.Reserved? {
      KeywordOfSpelling(text, t.word);
    }
  }

  lemma ReadWord(src: seq<char>, pos: nat, start: nat, e: nat, t: Token)
    requires Renderable(t) && (t.Reserved? || t.Name?) && TextAt(src, pos, t)
    requires start == pos + 1 && e == start + |TokenText(t)|
    ensures ScanToken(src, pos) == Ok(Scanned(Emit(t), start, e))
  {
    Lexeme(src, pos, start, e, t);
    WordScan(src, start, e, t);
    LetterStartsName(src, pos, start, t, e);
  }

  lemma ReadInteger(src: seq<char>, pos: nat, start: nat, e: nat, t: Token)
    requires Renderable(t) && t.Number? && TextAt(src, pos, t)
    requires start == pos + 1 && e == start + |TokenText(t)|
    ensures ScanToken(src, pos) == Ok(Scanned(Emit(t), start, e))
  {
    Lexeme(src, pos, start, e, t);
    DecimalRoundTrip(src, start, e, t.value.n);
    DigitStartsNumber(src, pos, start, t.value, e);
  }

  lemma ReadString(src: seq<char>, pos: nat, start: nat, e: nat, t: Token)
    requires Renderable(t) && t.StringLit? && TextAt(src, pos, t)
    requires start == pos + 1 && e == start + |TokenText(t)|
    ensures ScanToken(src, pos) == Ok(Scanned(Emit(t), start, e))
  {
    Lexeme(src, pos, start, e, t);
    LiteralRoundTrip(src, start, e, t.text, '"');
    QuoteStartsString(src, pos, start, t.text, e);
  }

  lemma ReadSym(src: seq<char>, pos: nat, start: nat, e: nat, t: Token)
    requires Renderable(t) && t.Sym? && TextAt(src, pos, t)
    requires start == pos + 1 && e == start + |TokenText(t)|
    ensures ScanToken(src, pos) == Ok(Scanned(Emit(t), start, e))
  {
    Lexeme(src, pos, start, e, t);
    ReadSymbol(src, pos, t.symbol);
  }

  lemma ReadEndOfLine(src: seq<char>, pos: nat, start: nat, e: nat, t: Token)
    requires Renderable(t) && t.EndOfLine? && TextAt(src, pos, t)
    requires start == pos + 1 && e == start + |TokenText(t)|
    ensures ScanToken(src, pos) == Ok(Scanned(Emit(t), start, e))
  {
    Lexeme(src, pos, start, e, t);
  }

  /** One printed token, after its blank, is read back as that token. */
  lemma ReadRendered(src: seq<char>, pos: nat, start: nat, e: nat, t: Token)
    requires Renderable(t) && TextAt(src, pos, t)
    requires start == pos + 1 && e == start + |TokenText(t)|
    ensures ScanToken(src, pos) == Ok(Scanned(Emit(t), start, e))
  {
    if t.Reserved? || t.Name? {
      ReadWord(src, pos, start, e, t);
    } else if t.Number? {
      ReadInteger(src, pos, start, e, t);
    } else if t.StringLit? {
      ReadString(src, pos, start, e, t);
    } else if t.Sym? {
      ReadSym(src, pos, start, e, t);
    } else {
      ReadEndOfLine(src, pos, start, e, t);
    }
  }

  /** `src` from `pos` on is the printed text of `ts`. */
  predicate Printed(src: seq<char>, pos: nat, ts: seq<Token>) {
    && (forall i :: 0 <= i < |ts| ==> Renderable(ts[i]))
    && pos <= |src|
    && src[pos..] == Render(ts)
  }

  /** The printed text splits into the first token and the rest printed. */
  lemma RenderSplit(src: seq<char>, pos: nat, start: nat, e: nat, ts: seq<Token>)
    requires |ts| > 0 && Printed(src, pos, ts)
    requires start == pos + 1 && e == start + |TokenText(ts[0])|
    ensures TextAt(src, pos, ts[0])
    ensures Printed(src, e, ts[1..])
  {
    var text := TokenText(ts[0]);
    var rest := Render(ts[1..]);
    assert src[pos..] == [' '] + text + rest;
    assert src[pos] == src[pos..][0];
    assert src[start..e] == src[pos..][1..1 + |text|];
    assert src[e..] == src[pos..][1 + |text|..];
    if e < |src| {
      assert src[e] == rest[0];
    }
  }

  /** The driver reads a printed sequence back token by token. */
  lemma {:induction false} ScanFromRendered(src: seq<char>, pos: nat, ts: seq<Token>)
    requires Printed(src, pos, ts)
    ensures ScanFrom(src, pos) == Ok(ts)
    decreases |ts|
  {
    if |ts| == 0 {
      assert pos == |src|;
    } else {
      var start := pos + 1;
      var e := start + |TokenText(ts[0])|;
      RenderSplit(src, pos, start, e, ts);
      ScanFromRendered(src, e, ts[1..]);
      ReadRendered(src, pos, start, e, ts[0]);
      ScanFromEmit(src, pos, ts[0], start, e, ts[1..]);
      assert [ts[0]] + ts[1..] == ts;
    }
  }

  /**
   * Round trip: lexing the printed text of any sequence of well-formed
   * tokens yields exactly those tokens followed by one end-of-file token.
   */
  lemma LexRender(ts: seq<Token>)
    requires forall i :: 0 <= i < |ts| ==> Renderable(ts[i])
    ensures Lex(Render(ts)) == Ok(ts + [EndOfFile])
  {
    var src := Render(ts);
    assert Printed(src, 0, ts);
    ScanFromRendered(src, 0, ts);
    LexOfScan(src, ts);
  }
}
