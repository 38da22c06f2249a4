/**
 * Tokens of the Mini-Lua lexer: the 21 reserved words, the 26 symbols, the
 * token sum type, the error taxonomy and the reserved-word table.
 */
module Tokens {

  /** The 21 reserved words, in the order of the source's enum. */
  datatype ReservedWord =
    | And | Break | Do | Else | ElseIf | End | False | For | Function | If | In
    | Local | Nil | Not | Or | Repeat | Return | Then | True | Until | While

  /** The 26 operator and punctuation symbols. */
  datatype Symbol =
    | Add | Minus | Multiply | Divide | Mod | Power | Length
    | Equal | GreaterEqual | LessEqual | Less | Greater | NotEqual
    | LeftParen | RightParen | LeftBrace | RightBrace | LeftBracket | RightBracket
    | Semicolon | Colon | Comma | Dot | Concat | Ellipsis | Assign

  /**
   * The value of a numeric literal. An integer literal (decimal or hex) keeps
   * its exact value; a floating literal keeps its lexeme, whose conversion to
   * a double is not modelled.
   */
  datatype NumberValue = Integer(n: nat) | Floating(lexeme: string)

  /**
   * A token of the output sequence. The comment pseudo-token is not a Token:
   * the scanner reports it as a separate kind of piece (see Lexer.Piece), so
   * the output sequence cannot hold one.
   */
  datatype Token =
    | Reserved(word: ReservedWord)
    | Number(value: NumberValue)
    | StringLit(text: string)
    | Sym(symbol: Symbol)
    | Name(name: string)
    | EndOfLine
    | EndOfFile

  /** The fatal lexical errors; each aborts the whole scan. */
  datatype LexError =
    | InvalidToken      // unknown leading character, or `~` without `=`
    | InvalidNumber     // a-f outside a hex literal, or a misplaced `.`
    | InvalidEscape     // a backslash followed by anything but \ n ' "
    | ConversionFailed  // the integer conversion rejects the digits (empty or over 64 bits)
    | Unterminated      // end of input inside a string literal

  /** Success with a value, or one of the fatal errors. */
  datatype Result<T> = Ok(value: T) | Err(error: LexError) {
    predicate IsFailure() {
      Err?
    }

    function PropagateFailure<U>(): Result<U>
      requires Err?
    {
      Err(error)
    }

    function Extract(): T
      requires Ok?
    {
      value
    }
  }

  datatype Option<T> = None | Some(value: T)

  /** The reserved-word table, keyed by exact (case-sensitive) spelling. */
  const ReservedWords: map<string, ReservedWord> := map[
    "and" := And,
    "break" := Break,
    "do" := Do,
    "else" := Else,
    "elseif" := ElseIf,
    "end" := End,
    "false" := False,
    "for" := For,
    "function" := Function,
    "if" := If,
    "in" := In,
    "local" := Local,
    "nil" := Nil,
    "not" := Not,
    "or" := Or,
    "repeat" := Repeat,
    "return" := Return,
    "then" := Then,
    "true" := True,
    "until" := Until,
    "while" := While
  ]

  /** The spelling of each reserved word, defined per constructor. */
  function Spelling(w: ReservedWord): string
  {
    match w
    case And => "and"
    case Break => "break"
    case Do => "do"
    case Else => "else"
    case ElseIf => "elseif"
    case End => "end"
    case False => "false"
    case For => "for"
    case Function => "function"
    case If => "if"
    case In => "in"
    case Local => "local"
    case Nil => "nil"
    case Not => "not"
    case Or => "or"
    case Repeat => "repeat"
    case Return => "return"
    case Then => "then"
    case True => "true"
    case Until => "until"
    case While => "while"
  }

  /** Looks a word up in the reserved-word table. */
  function KeywordOf(word: string): (r: Option<ReservedWord>)
    ensures r.Some? <==> word in ReservedWords
    ensures r.Some? ==> ReservedWords[word] == r.value
  {
    if word in ReservedWords then Some(ReservedWords[word]) else None
  }

  /** Every reserved word is in the table under its own spelling. */
  lemma TableEntry(w: ReservedWord)
    ensures Spelling(w) in ReservedWords && ReservedWords[Spelling(w)] == w
  {
    match w
    case And => {}
    case Break => {}
    case Do => {}
    case Else => {}
    case ElseIf => {}
    case End => {}
    case False => {}
    case For => {}
    case Function => {}
    case If => {}
    case In => {}
    case Local => {}
    case Nil => {}
    case Not => {}
    case Or => {}
    case Repeat => {}
    case Return => {}
    case Then => {}
    case True => {}
    case Until => {}
    case While => {}
  }

  /** Every key of the table is the spelling of the word it maps to. */
  lemma TableKey(s: string)
    requires s in ReservedWords
    ensures Spelling(ReservedWords[s]) == s
  {
  }

  /**
   * A word is a keyword exactly when it is the spelling of a reserved word,
   * and then the lookup yields that word.
   */
  lemma KeywordOfSpelling(word: string, w: ReservedWord)
    ensures KeywordOf(word) == Some(w) <==> word == Spelling(w)
  {
    TableEntry(w);
    if word in ReservedWords {
      TableKey(word);
    }
  }

  /**
   * The lookup finds a word exactly when the word spells some reserved word,
   * and what it finds is the word so spelled.
   */
  lemma KeywordOfComplete(word: string)
    ensures KeywordOf(word).Some? <==> exists w: ReservedWord :: word == Spelling(w)
    ensures KeywordOf(word).Some? ==> word == Spelling(KeywordOf(word).value)
  {
    forall w: ReservedWord
      ensures KeywordOf(word) == Some(w) <==> word == Spelling(w)
    {
      KeywordOfSpelling(word, w);
    }
  }

  /** Two reserved words with the same spelling are the same word. */
  lemma SpellingInjective(v: ReservedWord, w: ReservedWord)
    requires Spelling(v) == Spelling(w)
    ensures v == w
  {
    TableEntry(v);
    TableEntry(w);
  }

  /** The source text of each symbol: one, two or three characters. */
  function SymbolText(s: Symbol): string
  {
    match s
    case Add => "+"
    case Minus => "-"
    case Multiply => "*"
    case Divide => "/"
    case Mod => "%"
    case Power => "^"
    case Length => "#"
    case Equal => "=="
    case GreaterEqual => ">="
    case LessEqual => "<="
    case Less => "<"
    case Greater => ">"
    case NotEqual => "~="
    case LeftParen => "("
    case RightParen => ")"
    case LeftBrace => "{"
    case RightBrace => "}"
    case LeftBracket => "["
    case RightBracket => "]"
    case Semicolon => ";"
    case Colon => ":"
    case Comma => ","
    case Dot => "."
    case Concat => ".."
    case Ellipsis => "..."
    case Assign => "="
  }
}
