/**
 * The token dispatcher and the driver loop.
 *
 * ScanToken mirrors the original's scan_token: skip blanks, mark the lexeme
 * start, consume one character and branch on it. ScanFrom and Lex mirror
 * scan_tokens: scan until the end of input, drop comments, then append the
 * single end-of-file token.
 */
module Lexer {
  import opened Tokens
  import opened Cursor
  import opened Numbers
  import opened Strings
  import opened Names

  /** What one call of the dispatcher yields: a discardable comment or a token. */
  datatype Piece = Comment | Emit(token: Token)

  /** A scanned piece with its lexeme span [start, next). */
  datatype Scanned = Scanned(piece: Piece, start: nat, next: nat)

  /**
   * The character `c` right after the symbol `y` would have changed how the
   * dispatcher read it: a longer operator, a comment or a number.
   */
  predicate Extends(y: Symbol, c: char) {
    match y
    case Assign => c == '='
    case Less => c == '='
    case Greater => c == '='
    case Minus => c == '-'
    case Dot => c == '.' || IsDigit(c)
    case Concat => c == '.'
    case _ => false
  }

  /** The symbols that are one character whatever follows. */
  function SingleCharSymbol(c: char): (r: Option<Symbol>)
    ensures r.Some? ==> SymbolText(r.value) == [c]
    ensures r.Some? ==> forall d :: !Extends(r.value, d)
  {
    match c
    case '+' => Some(Add)
    case '*' => Some(Multiply)
    case '/' => Some(Divide)
    case '%' => Some(Mod)
    case '^' => Some(Power)
    case '#' => Some(Length)
    case '(' => Some(LeftParen)
    case ')' => Some(RightParen)
    case '{' => Some(LeftBrace)
    case '}' => Some(RightBrace)
    case '[' => Some(LeftBracket)
    case ']' => Some(RightBracket)
    case ';' => Some(Semicolon)
    case ':' => Some(Colon)
    case ',' => Some(Comma)
    case _ => None
  }

  /** The symbol token spanning [start, next). */
  function SymbolAt(y: Symbol, start: nat, next: nat): Result<Scanned>
  {
    Ok(Scanned(Emit(Sym(y)), start, next))
  }

  /**
   * `=`, `<`, `>` and `~` combine with a following `=`; without it the
   * first three stand alone and `~` is an invalid token.
   */
  function Comparison(src: seq<char>, start: nat, pos: nat, lone: Option<Symbol>, paired: Symbol): (r: Result<Scanned>)
    requires pos <= |src|
    ensures r.Err? <==> lone.None? && (pos == |src| || src[pos] != '=')
    ensures r.Err? ==> r.error == InvalidToken
    ensures pos < |src| && src[pos] == '=' ==> r == Ok(Scanned(Emit(Sym(paired)), start, pos + 1))
    ensures r.Ok? && (pos == |src| || src[pos] != '=') ==> r == Ok(Scanned(Emit(Sym(lone.value)), start, pos))
  {
    var (m, next) := MatchChar(src, pos, '=');
    if m then SymbolAt(paired, start, next)
    else match lone
      case Some(y) => SymbolAt(y, start, pos)
      case None => Err(InvalidToken)
  }

  /** A number literal whose first character sits at `pos - 1`. */
  function NumberAt(src: seq<char>, start: nat, pos: nat): (r: Result<Scanned>)
    requires 0 < pos <= |src|
    requires IsDigit(src[pos - 1]) || src[pos - 1] == '.'
  {
    var (v, next) :- ScanNumber(src, pos);
    Ok(Scanned(Emit(Number(v)), start, next))
  }

  /**
   * Reads one token, comment or error from `pos`. Only called while input
   * remains.
   */
  function ScanToken(src: seq<char>, pos: nat): (r: Result<Scanned>)
    requires pos < |src|
    ensures r.Ok? ==> r.value.start == SkipWhitespace(src, pos)
    ensures r.Ok? ==> pos <= r.value.start < r.value.next <= |src|
    ensures r.Ok? && r.value.piece.Emit? ==> r.value.piece.token != EndOfFile
    ensures SkipWhitespace(src, pos) == |src| ==> r == Err(InvalidToken)
  {
    var start := SkipWhitespace(src, pos);
    var (c, p) := Advance(src, start);
    match c
    case '\n' => Ok(Scanned(Emit(EndOfLine), start, p))
    case '-' =>
      var (m, afterDashes) := MatchChar(src, p, '-');
      if m then Ok(Scanned(Comment, start, ScanComment(src, afterDashes)))
      else SymbolAt(Minus, start, p)
    case '=' => Comparison(src, start, p, Some(Assign), Equal)
    case '>' => Comparison(src, start, p, Some(Greater), GreaterEqual)
    case '<' => Comparison(src, start, p, Some(Less), LessEqual)
    case '~' => Comparison(src, start, p, None, NotEqual)
    case '.' =>
      if IsDigit(Peek(src, p)) then NumberAt(src, start, p)
      else
        var (two, p2) := MatchChar(src, p, '.');
        if two then
          var (three, p3) := MatchChar(src, p2, '.');
          if three then SymbolAt(Ellipsis, start, p3) else SymbolAt(Concat, start, p2)
        else SymbolAt(Dot, start, p)
    case '"' =>
      var (text, next) :- ScanString(src, p);
      Ok(Scanned(Emit(StringLit(text)), start, next))
    case '\'' =>
      var (text, next) :- ScanString(src, p);
      Ok(Scanned(Emit(StringLit(text)), start, next))
    case _ =>
      match SingleCharSymbol(c)
      case Some(y) => SymbolAt(y, start, p)
      case None =>
      var ch := Previous(src, p);
      if IsDigit(ch) then NumberAt(src, start, p)
      else if IsNameChar(ch, true) then
        var (t, next) := ScanName(src, p);
        Ok(Scanned(Emit(t), start, next))
      else Err(InvalidToken)
  }

  /**
   * The driver loop from `pos`: the tokens up to the end of input, comments
   * dropped, or the first error.
   */
  function ScanFrom(src: seq<char>, pos: nat): (r: Result<seq<Token>>)
    requires pos <= |src|
    decreases |src| - pos
    ensures r.Ok? ==> EndOfFile !in r.value
    ensures r.Ok? ==> |r.value| <= |src| - pos
  {
    if IsAtEnd(src, pos) then Ok([])
    else
      var sc :- ScanToken(src, pos);
      var rest :- ScanFrom(src, sc.next);
      match sc.piece
      case Comment => Ok(rest)
      case Emit(t) => Ok([t] + rest)
  }

  /**
   * The whole lexer: every token of the input, then exactly one end-of-file
   * token, which is the last; or the first error, with no partial list.
   */
  function Lex(src: seq<char>): (r: Result<seq<Token>>)
    ensures r.Ok? ==> |r.value| >= 1 && r.value[|r.value| - 1] == EndOfFile
    ensures r.Ok? ==> forall i :: 0 <= i < |r.value| - 1 ==> r.value[i] != EndOfFile
    ensures r.Ok? ==> |r.value| <= |src| + 1
  {
    var ts :- ScanFrom(src, 0);
    Ok(ts + [EndOfFile])
  }

  /**
   * A newline is read as exactly one end-of-line token, and `--` opens a
   * comment that runs up to, not including, the next newline.
   */
  lemma ScanTokenLines(src: seq<char>, pos: nat)
    requires pos < |src|
    ensures var r := ScanToken(src, pos);
      r.Ok? ==> var Scanned(piece, start, next) := r.value;
        && (piece == Emit(EndOfLine) <==> src[start] == '\n')
        && (piece == Emit(EndOfLine) ==> next == start + 1)
        && (piece.Comment? <==> start + 1 < |src| && src[start] == '-' && src[start + 1] == '-')
        && (piece.Comment? ==> forall i :: start <= i < next ==> src[i] != '\n')
        && (piece.Comment? ==> next == |src| || src[next] == '\n')
  {
  }

  /**
   * The lexeme of a symbol token is exactly the symbol's text, and the
   * character after it could not have extended it.
   */
  predicate SymbolLexeme(src: seq<char>, r: Result<Scanned>)
  {
    r.Ok? && r.value.piece.Emit? && r.value.piece.token.Sym? ==>
      var Scanned(piece, start, next) := r.value;
      && start <= next <= |src|
      && src[start..next] == SymbolText(piece.token.symbol)
      && (next == |src| || !Extends(piece.token.symbol, src[next]))
  }

  lemma SymbolLexemeMinus(src: seq<char>, pos: nat)
    requires pos < |src|
    requires var start := SkipWhitespace(src, pos); start < |src| && src[start] == '-'
    ensures SymbolLexeme(src, ScanToken(src, pos))
  {
    var start := SkipWhitespace(src, pos);
    assert src[start..start + 1] == ['-'];
  }

  lemma SymbolLexemeComparison(src: seq<char>, pos: nat)
    requires pos < |src|
    requires var start := SkipWhitespace(src, pos);
      start < |src| && (src[start] == '=' || src[start] == '<' || src[start] == '>' || src[start] == '~')
    ensures SymbolLexeme(src, ScanToken(src, pos))
  {
    var start := SkipWhitespace(src, pos);
    var c := src[start];
    if start + 1 < |src| && src[start + 1] == '=' {
      assert src[start..start + 2] == [c, '='];
    } else {
      assert src[start..start + 1] == [c];
    }
  }

  lemma SymbolLexemeDots(src: seq<char>, pos: nat)
    requires pos < |src|
    requires var start := SkipWhitespace(src, pos); start < |src| && src[start] == '.'
    ensures SymbolLexeme(src, ScanToken(src, pos))
  {
    var start := SkipWhitespace(src, pos);
    if start + 1 < |src| && IsDigit(src[start + 1]) {
    } else if start + 2 < |src| && src[start + 1] == '.' && src[start + 2] == '.' {
      assert src[start..start + 3] == ['.', '.', '.'];
    } else if start + 1 < |src| && src[start + 1] == '.' {
      assert src[start..start + 2] == ['.', '.'];
    } else {
      assert src[start..start + 1] == ['.'];
    }
  }

  lemma SymbolLexemeSingle(src: seq<char>, pos: nat)
    requires pos < |src|
    requires var start := SkipWhitespace(src, pos); start < |src| && SingleCharSymbol(src[start]).Some?
    ensures SymbolLexeme(src, ScanToken(src, pos))
  {
    var start := SkipWhitespace(src, pos);
    assert src[start..start + 1] == [src[start]];
  }

  lemma SymbolLexemeOther(src: seq<char>, pos: nat)
    requires pos < |src|
    requires var start := SkipWhitespace(src, pos);
      start < |src| && src[start] != '-' && src[start] != '=' && src[start] != '<' && src[start] != '>'
      && src[start] != '~' && src[start] != '.' && SingleCharSymbol(src[start]).None?
    ensures SymbolLexeme(src, ScanToken(src, pos))
  {
  }

  /**
   * A symbol token's lexeme is exactly the symbol's text (so `==`, `>=`,
   * `<=`, `~=`, `..` and `...` are read whole), and the character after it
   * could not have extended it (so `=`, `<`, `>`, `-`, `.` and `..` stand
   * alone only when no `=`, `-`, `.` or digit follows).
   */
  lemma ScanTokenSymbols(src: seq<char>, pos: nat)
    requires pos < |src|
    ensures SymbolLexeme(src, ScanToken(src, pos))
  {
    var start := SkipWhitespace(src, pos);
    if start < |src| {
      var c := src[start];
      if c == '-' {
        SymbolLexemeMinus(src, pos);
      } else if c == '=' || c == '<' || c == '>' || c == '~' {
        SymbolLexemeComparison(src, pos);
      } else if c == '.' {
        SymbolLexemeDots(src, pos);
      } else if SingleCharSymbol(c).Some? {
        SymbolLexemeSingle(src, pos);
      } else {
        SymbolLexemeOther(src, pos);
      }
    }
  }

  /** The symbols the dispatcher reads in its one-character branches. */
  predicate IsSingleCharSymbol(y: Symbol) {
    !(y.Minus? || y.Equal? || y.GreaterEqual? || y.LessEqual? || y.Less? || y.Greater?
      || y.NotEqual? || y.Assign? || y.Dot? || y.Concat? || y.Ellipsis?)
  }

  /** The one-character table holds every one-character symbol under its text. */
  lemma SingleCharSymbolComplete(y: Symbol)
    requires IsSingleCharSymbol(y)
    ensures |SymbolText(y)| == 1 && SingleCharSymbol(SymbolText(y)[0]) == Some(y)
  {
  }

  /** The text of a symbol after the blanks, not extended by what follows. */
  predicate SymbolTextAt(src: seq<char>, pos: nat, y: Symbol)
    requires pos <= |src|
  {
    var start := SkipWhitespace(src, pos);
    var end := start + |SymbolText(y)|;
    && end <= |src|
    && src[start..end] == SymbolText(y)
    && (end == |src| || !Extends(y, src[end]))
  }

  lemma ReadSymbolComparison(src: seq<char>, pos: nat, y: Symbol)
    requires pos < |src| && SymbolTextAt(src, pos, y)
    requires y.Equal? || y.GreaterEqual? || y.LessEqual? || y.Less? || y.Greater? || y.NotEqual? || y.Assign?
    ensures ScanToken(src, pos) == SymbolAt(y, SkipWhitespace(src, pos), SkipWhitespace(src, pos) + |SymbolText(y)|)
  {
    var start := SkipWhitespace(src, pos);
    assert src[start] == SymbolText(y)[0];
    if |SymbolText(y)| == 2 {
      assert src[start + 1] == SymbolText(y)[1];
    }
  }

  lemma ReadSymbolDots(src: seq<char>, pos: nat, y: Symbol)
    requires pos < |src| && SymbolTextAt(src, pos, y)
    requires y.Dot? || y.Concat? || y.Ellipsis?
    ensures ScanToken(src, pos) == SymbolAt(y, SkipWhitespace(src, pos), SkipWhitespace(src, pos) + |SymbolText(y)|)
  {
    var start := SkipWhitespace(src, pos);
    assert src[start] == SymbolText(y)[0];
    if |SymbolText(y)| >= 2 {
      assert src[start + 1] == SymbolText(y)[1];
    }
    if |SymbolText(y)| == 3 {
      assert src[start + 2] == SymbolText(y)[2];
    }
  }

  lemma ReadSymbolSingle(src: seq<char>, pos: nat, y: Symbol)
    requires pos < |src| && SymbolTextAt(src, pos, y)
    requires y.Minus? || IsSingleCharSymbol(y)
    ensures ScanToken(src, pos) == SymbolAt(y, SkipWhitespace(src, pos), SkipWhitespace(src, pos) + |SymbolText(y)|)
  {
    var start := SkipWhitespace(src, pos);
    assert src[start] == SymbolText(y)[0];
    if !y.Minus? {
      SingleCharSymbolComplete(y);
    }
  }

  /**
   * Conversely, the text of any symbol, not followed by a character that
   * would extend it, is read as that symbol.
   */
  lemma ReadSymbol(src: seq<char>, pos: nat, y: Symbol)
    requires pos < |src| && SymbolTextAt(src, pos, y)
    ensures ScanToken(src, pos) == SymbolAt(y, SkipWhitespace(src, pos), SkipWhitespace(src, pos) + |SymbolText(y)|)
  {
    if y.Equal? || y.GreaterEqual? || y.LessEqual? || y.Less? || y.Greater? || y.NotEqual? || y.Assign? {
      ReadSymbolComparison(src, pos, y);
    } else if y.Dot? || y.Concat? || y.Ellipsis? {
      ReadSymbolDots(src, pos, y);
    } else {
      ReadSymbolSingle(src, pos, y);
    }
  }

  /**
   * Name, reserved-word, string and number tokens start where their
   * sub-scanner is entered, and names and reserved words are the longest
   * run of identifier characters.
   */
  predicate WordLexeme(src: seq<char>, r: Result<Scanned>)
  {
    r.Ok? && r.value.piece.Emit? ==>
      var Scanned(piece, start, next) := r.value;
      start < next <= |src| &&
      match piece.token
      case Name(n) =>
        && n == src[start..next]
        && IsIdentifier(n)
        && (next == |src| || !IsNameChar(src[next], false))
      case Reserved(w) =>
        && src[start..next] == Spelling(w)
        && (next == |src| || !IsNameChar(src[next], false))
      case StringLit(_) => IsQuote(src[start]) && src[next - 1] == src[start]
      case Number(_) =>
        || IsDigit(src[start])
        || (src[start] == '.' && start + 1 < |src| && IsDigit(src[start + 1]))
      case _ => true
  }

  /** The name sub-scanner's result, read from `start`, is a word lexeme. */
  lemma NameIsWordLexeme(src: seq<char>, start: nat, t: Token, next: nat)
    requires start < |src| && (IsAlpha(src[start]) || src[start] == '_')
    requires ScanName(src, start + 1) == (t, next)
    ensures WordLexeme(src, Ok(Scanned(Emit(t), start, next)))
  {
    KeywordOfComplete(src[start..next]);
  }

  lemma WordLexemeName(src: seq<char>, pos: nat)
    requires pos < |src|
    requires var start := SkipWhitespace(src, pos); start < |src| && (IsAlpha(src[start]) || src[start] == '_')
    ensures WordLexeme(src, ScanToken(src, pos))
  {
    var start := SkipWhitespace(src, pos);
    var (t, next) := ScanName(src, start + 1);
    LetterStartsName(src, pos, start, t, next);
    NameIsWordLexeme(src, start, t, next);
  }

  lemma WordLexemeOther(src: seq<char>, pos: nat)
    requires pos < |src|
    requires var start := SkipWhitespace(src, pos); start < |src| && !(IsAlpha(src[start]) || src[start] == '_')
    ensures WordLexeme(src, ScanToken(src, pos))
  {
    var start := SkipWhitespace(src, pos);
    if IsDigit(src[start]) {
      WordLexemeDigit(src, pos, start);
    } else if IsQuote(src[start]) {
      WordLexemeQuote(src, pos, start);
    } else {
      WordLexemeSymbol(src, pos);
    }
  }

  lemma WordLexemeDigit(src: seq<char>, pos: nat, start: nat)
    requires pos < |src| && start == SkipWhitespace(src, pos)
    requires start < |src| && IsDigit(src[start])
    ensures WordLexeme(src, ScanToken(src, pos))
  {
    var r := ScanNumber(src, start + 1);
    if r.Ok? {
      DigitStartsNumber(src, pos, start, r.value.0, r.value.1);
    } else {
      DigitError(src, pos, start);
    }
  }

  lemma WordLexemeQuote(src: seq<char>, pos: nat, start: nat)
    requires pos < |src| && start == SkipWhitespace(src, pos)
    requires start < |src| && IsQuote(src[start])
    ensures WordLexeme(src, ScanToken(src, pos))
  {
    var r := ScanString(src, start + 1);
    if r.Ok? {
      QuoteStartsString(src, pos, start, r.value.0, r.value.1);
    }
  }

  lemma WordLexemeSymbol(src: seq<char>, pos: nat)
    requires pos < |src|
    requires var start := SkipWhitespace(src, pos);
      start < |src| && !(IsAlpha(src[start]) || src[start] == '_' || IsDigit(src[start]) || IsQuote(src[start]))
    ensures WordLexeme(src, ScanToken(src, pos))
  {
  }

  /** See WordLexeme. */
  lemma ScanTokenWords(src: seq<char>, pos: nat)
    requires pos < |src|
    ensures WordLexeme(src, ScanToken(src, pos))
  {
    var start := SkipWhitespace(src, pos);
    if start < |src| {
      if IsAlpha(src[start]) || src[start] == '_' {
        WordLexemeName(src, pos);
      } else {
        WordLexemeOther(src, pos);
      }
    }
  }

  /** `~` not followed by `=` is an invalid token. */
  lemma LoneTildeIsInvalid(src: seq<char>, pos: nat)
    requires pos < |src|
    requires var start := SkipWhitespace(src, pos);
      start < |src| && src[start] == '~' && !(start + 1 < |src| && src[start + 1] == '=')
    ensures ScanToken(src, pos) == Err(InvalidToken)
  {
  }

  /** The characters that can begin a token. */
  predicate StartsToken(c: char) {
    || c == '\n' || c == '-' || c == '=' || c == '<' || c == '>' || c == '~' || c == '.'
    || IsQuote(c) || SingleCharSymbol(c).Some? || IsDigit(c) || IsAlpha(c) || c == '_'
  }

  /**
   * Any other character after the blanks, including a NUL in the input, is
   * an invalid token; so is the end of input reached by skipping blanks.
   */
  lemma UnknownCharIsInvalid(src: seq<char>, pos: nat)
    requires pos < |src|
    requires var start := SkipWhitespace(src, pos); start == |src| || !StartsToken(src[start])
    ensures ScanToken(src, pos) == Err(InvalidToken)
  {
  }

  /** A `.` followed by a digit opens a number literal, read as floating. */
  lemma LeadingDotNumber(src: seq<char>, pos: nat)
    requires pos < |src|
    requires var start := SkipWhitespace(src, pos);
      start + 1 < |src| && src[start] == '.' && IsDigit(src[start + 1])
    ensures var start := SkipWhitespace(src, pos);
      var r := ScanToken(src, pos);
      && (r.Err? ==> r.error == InvalidNumber)
      && (r.Ok? ==> var Scanned(piece, s, next) := r.value;
            && s == start
            && piece == Emit(Number(Floating(src[start..next]))))
  {
    var start := SkipWhitespace(src, pos);
    assert !HexPrefix(src, start + 1);
    ScanNumberFloating(src, start + 1);
  }

  /** A number sub-scanner error after the blanks is the dispatcher's error. */
  lemma DigitError(src: seq<char>, pos: nat, start: nat)
    requires pos < |src| && SkipWhitespace(src, pos) == start
    requires start < |src| && IsDigit(src[start])
    requires ScanNumber(src, start + 1).Err?
    ensures ScanToken(src, pos) == Err(ScanNumber(src, start + 1).error)
  {
  }

  /** A digit after the blanks always enters the number sub-scanner. */
  lemma DigitStartsNumber(src: seq<char>, pos: nat, start: nat, v: NumberValue, e: nat)
    requires pos < |src| && SkipWhitespace(src, pos) == start
    requires start < |src| && IsDigit(src[start])
    requires ScanNumber(src, start + 1) == Ok((v, e))
    ensures ScanToken(src, pos) == Ok(Scanned(Emit(Number(v)), start, e))
  {
  }

  /** A letter or `_` after the blanks always enters the name sub-scanner. */
  lemma LetterStartsName(src: seq<char>, pos: nat, start: nat, t: Token, e: nat)
    requires pos < |src| && SkipWhitespace(src, pos) == start
    requires start < |src| && (IsAlpha(src[start]) || src[start] == '_')
    requires ScanName(src, start + 1) == (t, e)
    ensures ScanToken(src, pos) == Ok(Scanned(Emit(t), start, e))
  {
  }

  /** A quote after the blanks always enters the string sub-scanner. */
  lemma QuoteStartsString(src: seq<char>, pos: nat, start: nat, text: string, e: nat)
    requires pos < |src| && SkipWhitespace(src, pos) == start
    requires start < |src| && IsQuote(src[start])
    requires ScanString(src, start + 1) == Ok((text, e))
    ensures ScanToken(src, pos) == Ok(Scanned(Emit(StringLit(text)), start, e))
  {
  }

  /** The driver keeps an emitted token and carries on after it. */
  lemma ScanFromEmit(src: seq<char>, pos: nat, t: Token, start: nat, e: nat, rest: seq<Token>)
    requires pos < |src| && e <= |src|
    requires ScanToken(src, pos) == Ok(Scanned(Emit(t), start, e))
    requires ScanFrom(src, e) == Ok(rest)
    ensures ScanFrom(src, pos) == Ok([t] + rest)
  {
  }

  /** The driver drops a comment and carries on after it. */
  lemma ScanFromComment(src: seq<char>, pos: nat, start: nat, e: nat, rest: seq<Token>)
    requires pos < |src| && e <= |src|
    requires ScanToken(src, pos) == Ok(Scanned(Comment, start, e))
    requires ScanFrom(src, e) == Ok(rest)
    ensures ScanFrom(src, pos) == Ok(rest)
  {
  }

  /** The first error ends the drive, and the lexer reports it with no tokens. */
  lemma LexOfError(src: seq<char>, err: LexError)
    requires 0 < |src| && ScanToken(src, 0) == Err(err)
    ensures Lex(src) == Err(err)
  {
  }

  /** A successful drive from the start is the lexer's output, end-of-file appended. */
  lemma LexOfScan(src: seq<char>, ts: seq<Token>)
    requires ScanFrom(src, 0) == Ok(ts)
    ensures Lex(src) == Ok(ts + [EndOfFile])
  {
  }
}
