# Mini-Lua lexer in Dafny

This project models the lexer of Mini-Lua, a small interpreter for a subset
of Lua. The lexer turns a source text into a list of tokens:

- reserved words;
- numbers;
- string literals;
- the 26 operator and punctuation symbols;
- names;
- one end-of-line token per newline;
- one final end-of-file token.

It stops at the first lexical error. The C++ port (`mini-lua-cpp/src/main.cpp`) is
the reference. The Python and Rust ports read names back as name tokens, and the
model follows them there (see "## Findings").

The model is a set of pure functions over a source text `src: seq<char>` and a
cursor position `pos: nat`. `src` holds the bytes of the C++ input, one `char`
per byte. The original's mutable fields `current` and `start`
become values that are passed in and returned. Each function mirrors one method
of the original:

| module | file | models |
|---|---|---|
| `Tokens` | `tokens.dfy` | token kinds, the reserved-word table, symbol spellings, `Result`/`Option` |
| `Cursor` | `cursor.dfy` | `peek`, `previous`, `advance`, `match_char`, `extract_word`, `skip_whitespace`, `scan_comment` |
| `Numbers` | `number.dfy` | `scan_number`, including the hex prefix, the flag loop and the unsigned 64-bit conversion |
| `Strings` | `string.dfy` | `scan_string` and `parse_escape` |
| `Names` | `name.dfy` | `is_name_char` and `scan_name` |
| `Lexer` | `lexer.dfy` | `scan_token` (the dispatcher) and `scan_tokens` (the driver) |

Three more modules hold proofs rather than modelled code:

- `Render` (`render.dfy`) is an independent printer for token lists. Its main
  theorem, `Render.LexRender`, says that lexing the printed text of any
  well-formed token list gives back exactly that list followed by one
  end-of-file token.
- `Findings` (`findings.dfy`) models three places in the C++ code as written
  (the comment loop, the string loop and the token kind of a scanned name),
  next to the corrected definitions the rest of the model uses.
- `Examples` (`examples.dfy`) gives whole-input outcomes of the lexer for
  characteristic inputs.

The original throws exceptions, or panics in Rust. The model uses the error
values of `Tokens.LexError` instead:

| error | raised for |
|---|---|
| `InvalidToken` | an unknown character or a lone `~` |
| `InvalidNumber` | a misplaced `.` or hex letter in a number |
| `InvalidEscape` | a bad character after a backslash |
| `ConversionFailed` | `std::stoull` rejecting the digits: an empty hex part, or a value above 2^64 - 1 (the range check of `std::stod` is not modelled, see "## Left out") |
| `Unterminated` | a string literal with no closing quote |

A number literal such as `1..2` is rejected with `InvalidNumber`: the number
loop takes the first `.`, and the second one finds the literal already floating,
which the loop rejects (`mini-lua-cpp/src/main.cpp:344-346`).

Whitespace is the C `isspace` set without the newline: space, tab, vertical
tab, form feed and carriage return. The dispatcher skips it and then calls
`advance`. When the blanks run to the end of the input, `advance` returns NUL
without moving (`mini-lua-cpp/src/main.cpp:435-436`). NUL matches no case, so
the default branch looks at `previous()`, which is the last blank. A blank is
neither a digit nor a name character, so the result is `InvalidToken`
(`mini-lua-cpp/src/main.cpp:298-304`). The model gives the same error.

## Model

| member | source | states |
|---|---|---|
| Tokens.TableEntry | mini-lua-cpp/src/main.cpp:118-140 | every reserved word is in the table under its own spelling |
| Tokens.TableKey | mini-lua-cpp/src/main.cpp:118-140 | every key of the table is the spelling of the word it maps to |
| Tokens.KeywordOfSpelling | mini-lua-cpp/src/main.cpp:118-140 | looking up a word gives reserved word `w` if and only if the word is `w`'s spelling |
| Tokens.KeywordOfComplete | mini-lua-cpp/src/main.cpp:118-140 | the lookup fails exactly on words that spell no reserved word |
| Tokens.SpellingInjective | mini-lua-cpp/src/main.cpp:118-140 | no two reserved words share a spelling, so the table is a bijection |
| Tokens.KeywordOf | mini-lua-cpp/src/main.cpp:389-390 | definition: the lookup succeeds exactly for words in the table and returns the table's entry |
| Cursor.Advance | mini-lua-cpp/src/main.cpp:434-440 | at the end it yields NUL and does not move; otherwise it moves by one and the consumed character is then the previous one |
| Cursor.Peek | mini-lua-cpp/src/main.cpp:450-456 | definition: the character under the cursor, or NUL at the end of input |
| Cursor.Previous | mini-lua-cpp/src/main.cpp:442-448 | definition: the character just behind the cursor, or NUL at position 0 |
| Cursor.MatchChar | mini-lua-cpp/src/main.cpp:458-469 | consumes one character if and only if it is the target; otherwise the cursor stays put |
| Cursor.ExtractWord | mini-lua-cpp/src/main.cpp:406-408 | definition: the lexeme is the characters from the lexeme start up to the cursor, in order |
| Cursor.SkipWhitespace | mini-lua-cpp/src/main.cpp:410-414 | everything skipped is a blank other than newline, and skipping stops at the first character that is not such a blank |
| Cursor.ScanComment | mini-lua-cpp/src/main.cpp:309-313 | a comment body contains no newline and ends at a newline, which is not consumed, or at the end of input |
| Numbers.ToUnsigned64 | mini-lua-cpp/src/main.cpp:362-366 | the conversion succeeds if and only if the digits are non-empty and their value fits in 64 bits; it then returns the base-10 or base-16 value |
| Numbers.NumberLoop | mini-lua-cpp/src/main.cpp:327-357 | an error is InvalidNumber, and the input ahead then holds a `.` or, outside a hex literal, a letter `a`-`f` (Numbers.LoopOutcome says which character); on success the flags stay consistent, every consumed character is a number character, and the character at the end fits no branch of the loop |
| Numbers.Step | mini-lua-cpp/src/main.cpp:328-356 | one iteration: a character is rejected exactly when it is a `.` in a hex or floating literal or a non-exponent letter `a`-`f` outside a hex literal; the loop stops exactly on a character that fits no branch; a taken character never clears the hex or floating flag and keeps the flags consistent |
| Numbers.LoopReaches | mini-lua-cpp/src/main.cpp:327-357 | the characters the loop has taken change nothing about its outcome: the result from the start equals the result from the point reached |
| Numbers.LoopOutcome | mini-lua-cpp/src/main.cpp:327-357 | a successful loop has taken every character up to its end and stops on the next one; an InvalidNumber has a character the loop reaches and rejects |
| Numbers.LoopRejects | mini-lua-cpp/src/main.cpp:338-346 | conversely, a rejected character that the loop reaches makes it fail with InvalidNumber |
| Numbers.LoopStops | mini-lua-cpp/src/main.cpp:354-356 | conversely, a stopping character that the loop reaches ends the literal there with the flags it arrived with |
| Numbers.HexStart | mini-lua-cpp/src/main.cpp:319-321 | a literal is hex if and only if it opens with `0x` or `0X`, and then the prefix is consumed |
| Numbers.ScanNumber | mini-lua-cpp/src/main.cpp:315-368 | errors are InvalidNumber or ConversionFailed; the literal never stops before a digit or `.`; an integer value fits in 64 bits; a floating literal keeps its exact lexeme (its conversion to double is not modelled) |
| Numbers.ScanNumberHex | mini-lua-cpp/src/main.cpp:319-363 | a `0x` literal that scans is an integer: its value is the base-16 value of the non-empty hex-digit run after the prefix, and the scan stops at the first character that is not a hex digit |
| Numbers.ScanNumberDecimal | mini-lua-cpp/src/main.cpp:327-365 | a non-hex literal that scans as an integer is a run of decimal digits valued in base 10, followed by neither a hex digit nor a `.` |
| Numbers.ScanNumberFloating | mini-lua-cpp/src/main.cpp:322-360 | a literal is floating if and only if it has no hex prefix and its lexeme holds a `.` or an exponent mark |
| Numbers.ScanNumberInvalid | mini-lua-cpp/src/main.cpp:315-357 | a literal is InvalidNumber if and only if the loop, from after any hex prefix and with its starting flags, reaches a character it rejects |
| Numbers.DigitRun | mini-lua-cpp/src/main.cpp:329-333 | outside an exponent, a run of digits leaves the loop's state unchanged |
| Numbers.SecondDotIsInvalid | mini-lua-cpp/src/main.cpp:344-347 | after digits and one `.`, a second `.` is InvalidNumber |
| Numbers.DecimalRejectsHexLetter | mini-lua-cpp/src/main.cpp:338-343 | outside a hex literal, a letter `a`-`f` other than the exponent mark that the loop reaches is InvalidNumber, whether it follows the leading digits, a fraction or an exponent |
| Numbers.LoopSigns | mini-lua-cpp/src/main.cpp:351-353 | every `+` or `-` the loop takes comes directly after an exponent mark |
| Numbers.ExponentSign | mini-lua-cpp/src/main.cpp:351-353 | in any scanned literal, every `+` or `-` of the lexeme directly follows an exponent mark |
| Numbers.HexRun | mini-lua-cpp/src/main.cpp:338-340 | in a hex literal, a run of hex digits leaves the loop's state unchanged |
| Numbers.HexDigitsScanAsInteger | mini-lua-cpp/src/main.cpp:319-363 | conversely to Numbers.ScanNumberHex, `0x` and a run of hex digits followed by nothing that continues the literal scans to the integer of its base-16 value, or ConversionFailed above 2^64 - 1 |
| Numbers.FractionLoop | mini-lua-cpp/src/main.cpp:327-357 | digits with one `.` among them, followed by the end of input or any character the loop stops on (a sign or `x` included), are read to their end with only the floating flag set |
| Numbers.FractionScansAsFloating | mini-lua-cpp/src/main.cpp:322-360 | such a literal scans to the floating literal of exactly that lexeme |
| Numbers.DecimalTextValue | mini-lua-cpp/src/main.cpp:365 | the decimal spelling of `n` has the base-10 value `n` |
| Numbers.DigitsScanAsInteger | mini-lua-cpp/src/main.cpp:327-365 | a digit run without hex prefix, followed by the end of input or any character the loop stops on (a sign or `x` included), scans as the integer of its value, or ConversionFailed above 2^64 - 1 |
| Numbers.DecimalRoundTrip | mini-lua-cpp/src/main.cpp:315-368 | the decimal spelling of any 64-bit value, followed by any character the loop stops on (for `0`, other than `x`), scans back to that value, ending just after the spelling |
| Strings.EscapeChar | mini-lua-cpp/src/main.cpp:396-404 | exactly four characters follow a backslash: `\`, `n`, `'` and `"`; `n` stands for a newline and the other three for themselves |
| Strings.ParseEscape | mini-lua-cpp/src/main.cpp:396-404 | decoding succeeds if and only if a supported escape character follows; it yields that character's meaning and consumes one character; otherwise InvalidEscape |
| Strings.StringBody | mini-lua-cpp/src/main.cpp:373-380 | on success the closing quote is the one that opened the literal and is consumed; with no such quote ahead the result is an error; errors are Unterminated or InvalidEscape (Strings.InvalidEscapeBody places the bad backslash before the closing quote) |
| Strings.ClosedBody | mini-lua-cpp/src/main.cpp:373-380 | a successful scan closes on the first quote the loop reaches that is not part of an escape |
| Strings.UnterminatedBody | mini-lua-cpp/src/main.cpp:373-379 | an Unterminated scan reads everything up to the end of input without reaching a closing quote or a bad escape |
| Strings.InvalidEscapeBody | mini-lua-cpp/src/main.cpp:373-402 | an InvalidEscape is a backslash, followed by an unsupported character or by nothing, that the loop reaches before any closing quote |
| Strings.OpenBodySkip | mini-lua-cpp/src/main.cpp:373-379 | a stretch the loop reads without closing changes nothing about how the literal ends: same error, or the same end |
| Strings.ClosesAt | mini-lua-cpp/src/main.cpp:373-380 | conversely, a quote the loop reaches closes the literal just after it |
| Strings.FailsAt | mini-lua-cpp/src/main.cpp:374-375 | conversely, a bad backslash the loop reaches is InvalidEscape |
| Strings.RunsOut | mini-lua-cpp/src/main.cpp:373-379 | conversely, reaching the end of input without closing is Unterminated |
| Strings.ScanString | mini-lua-cpp/src/main.cpp:370-382 | the literal ends at a quote equal to the opening one; its errors are Unterminated or InvalidEscape |
| Strings.StringStep | mini-lua-cpp/src/main.cpp:373-378 | one encoded character, raw or escaped, decodes to that character and the scan continues after it |
| Strings.StringRoundTrip | mini-lua-cpp/src/main.cpp:370-382 | encoding any text, with backslash and the delimiting quote escaped, and then scanning the body gives that text back |
| Strings.LiteralRoundTrip | mini-lua-cpp/src/main.cpp:370-382 | a quoted, encoded text scans back to that text and ends after the closing quote |
| Names.NameCharIgnoresStart | mini-lua-cpp/src/main.cpp:420-428 | the `start` flag makes no difference: a name character is a letter, a digit or `_` |
| Names.NameEnd | mini-lua-cpp/src/main.cpp:385-387 | a name ends after the longest run of name characters |
| Names.ClassifyWord | mini-lua-python/mini-lua-python.py:324-327 | a word is a reserved-word token exactly when it spells a reserved word, and a name token of itself otherwise |
| Names.ScanName | mini-lua-python/mini-lua-python.py:320-327 | the lexeme is the longest run of name characters; the token is the reserved word it spells or, if it spells none, a name token of that lexeme |
| Lexer.SingleCharSymbol | mini-lua-cpp/src/main.cpp:236-281 | each one-character symbol is spelled by the character it is read from, and no following character can extend it |
| Lexer.Comparison | mini-lua-cpp/src/main.cpp:249-272 | a following `=` gives the paired operator over two characters; otherwise the lone operator over one character, or InvalidToken when there is none (`~`) |
| Lexer.ScanToken | mini-lua-cpp/src/main.cpp:230-307 | a token starts after the blanks and consumes at least one character; it is never end-of-file; blanks up to the end of input are InvalidToken |
| Lexer.ScanFrom | mini-lua-cpp/src/main.cpp:192-226 | the driver's tokens never include end-of-file, and there are no more of them than characters |
| Lexer.Lex | mini-lua-cpp/src/main.cpp:192-228 | the token list ends with exactly one end-of-file token and holds at most one token per character plus it |
| Lexer.ScanTokenLines | mini-lua-cpp/src/main.cpp:235-243 | a newline is exactly one end-of-line token; `--` opens a comment that stops before the next newline |
| Lexer.ScanTokenSymbols | mini-lua-cpp/src/main.cpp:236-293 | a symbol's lexeme is exactly its spelling, and the next character could not have extended it into a longer operator, a comment or a number |
| Lexer.SingleCharSymbolComplete | mini-lua-cpp/src/main.cpp:236-281 | every one-character symbol is read from its own spelling |
| Lexer.ReadSymbol | mini-lua-cpp/src/main.cpp:236-293 | the spelling of any symbol, followed by nothing that extends it, is read as that symbol |
| Lexer.ScanTokenWords | mini-lua-cpp/src/main.cpp:294-305 | names and reserved words are maximal runs of name characters, and a name is never a reserved word; strings start and end with the same quote; numbers start with a digit or with `.` followed by a digit |
| Lexer.LoneTildeIsInvalid | mini-lua-cpp/src/main.cpp:267-272 | `~` not followed by `=` is InvalidToken |
| Lexer.UnknownCharIsInvalid | mini-lua-cpp/src/main.cpp:297-305 | a character that opens no token is InvalidToken |
| Lexer.LeadingDotNumber | mini-lua-cpp/src/main.cpp:282-284 | `.` followed by a digit opens a number literal, which is floating and keeps its lexeme |
| Render.TextStartsToken | mini-lua-cpp/src/main.cpp:230-234 | every printed token is non-empty and starts with a character the blank skipper stops at |
| Render.ReadRendered | mini-lua-cpp/src/main.cpp:230-307 | one printed token after a blank is read back as that token, ending just after its text |
| Render.ScanFromRendered | mini-lua-cpp/src/main.cpp:192-226 | the driver reads any printed token sequence back token by token |
| Render.LexRender | mini-lua-cpp/src/main.cpp:192-307 | lexing the printed text of any well-formed token list gives that list followed by one end-of-file token |
| Findings.CommentWithoutNewlineSpins | mini-lua-cpp/src/main.cpp:309-313 | as written, the comment loop never stops when no newline follows |
| Findings.CommentAtEndSpins | mini-lua-cpp/src/main.cpp:309-313 | as written, the comment loop does not stop on the input `--` |
| Findings.CommentLoopAgrees | mini-lua-cpp/src/main.cpp:309-313 | wherever the loop as written stops, the corrected scanner stops at the same place |
| Findings.CommentLoopStops | mini-lua-cpp/src/main.cpp:309-313 | with a newline ahead, the loop as written stops where the corrected scanner does |
| Findings.CommentLoopAsWritten | mini-lua-cpp/src/main.cpp:309-313 | wherever the loop as written stops, it stops at the first newline |
| Findings.StringAtEndSpins | mini-lua-cpp/src/main.cpp:373-379 | as written, the string loop never stops at the end of input |
| Findings.LoneQuoteSpins | mini-lua-cpp/src/main.cpp:370-382 | as written, the string loop does not stop on a lone `"` |
| Findings.LoneQuoteIsUnterminated | mini-lua-cpp/src/main.cpp:370-382 | the corrected scanner reports a lone `"` as Unterminated |
| Findings.StringLoopAgrees | mini-lua-cpp/src/main.cpp:373-379 | wherever the loop as written stops, the corrected body scanner gives the same text, end or escape error |
| Findings.StringLoopAsWritten | mini-lua-cpp/src/main.cpp:373-379 | wherever the loop as written stops, it stops after the closing quote or with InvalidEscape; it can never report an unterminated literal |
| Findings.NameCollidesWithString | mini-lua-cpp/src/main.cpp:384-394 | as written, the name `x` and the literal `"x"` give the same string token, while the corrected scanner gives a name token |
| Findings.NameAsWrittenIsString | mini-lua-cpp/src/main.cpp:384-394 | the C++ name scanner differs from the corrected one exactly on non-reserved words, which it turns into string tokens of the same text |
| Findings.ScanNameAsWritten | mini-lua-cpp/src/main.cpp:384-394 | as written, a scanned word is never a name token: it is a reserved word or a string token of the lexeme |
| Examples.HexScan | mini-lua-cpp/src/main.cpp:319-363 | `0x1A` scans to the integer 26 |
| Examples.HexLiteral | mini-lua-cpp/src/main.cpp:319-363 | the input `0x1A` lexes to the integer 26 and end-of-file |
| Examples.ExponentScan | mini-lua-cpp/src/main.cpp:334-353 | `1e+2` scans as one floating literal |
| Examples.SignedExponent | mini-lua-cpp/src/main.cpp:334-360 | the input `1e+2` lexes to one floating number and end-of-file |
| Examples.SignAfterExponentDigitScan | mini-lua-cpp/src/main.cpp:351-355 | in `1e2+3` the sign comes after an exponent digit, so the literal is `1e2` and the scan stops before `+` |
| Examples.SignAfterInteger | mini-lua-cpp/src/main.cpp:351-355 | in `1+2` no exponent precedes the sign, so the literal is the integer 1 and the scan stops before `+` |
| Examples.DotAfterExponentScan | mini-lua-cpp/src/main.cpp:344-347 | a `.` after an exponent is InvalidNumber |
| Examples.DotAfterExponent | mini-lua-cpp/src/main.cpp:344-347 | the input `1e5.3` is InvalidNumber |
| Examples.HexLetterAfterFraction | mini-lua-cpp/src/main.cpp:338-343 | `1.5f` is InvalidNumber |
| Examples.HexLetterAfterExponent | mini-lua-cpp/src/main.cpp:338-343 | `1e5f` is InvalidNumber |
| Examples.DotInHex | mini-lua-cpp/src/main.cpp:344-346 | `0x1.` is InvalidNumber |
| Examples.EmptyHexDigits | mini-lua-cpp/src/main.cpp:362-363 | the input `0x` fails conversion |
| Examples.DigitThenTwoDots | mini-lua-cpp/src/main.cpp:344-347 | the input `1..2` is InvalidNumber |
| Examples.KeywordToken | mini-lua-cpp/src/main.cpp:384-391 | `and` is read as the reserved word And |
| Examples.LongerNameToken | mini-lua-rust/src/main.rs:288-297 | `andx` is read as a name, not as `and` followed by `x` |
| Examples.KeywordAndLongerName | mini-lua-cpp/src/main.cpp:192-228 | `and andx` lexes to And, the name `andx` and end-of-file |
| Examples.EscapeScan | mini-lua-cpp/src/main.cpp:370-404 | in the single-quoted literal `'a\n\""'` the `\n` and `\"` escapes are decoded and the second `"` is copied as it is |
| Examples.EscapedString | mini-lua-cpp/src/main.cpp:370-404 | the whole input of that literal lexes to its decoded string and end-of-file |
| Examples.CommentTokens | mini-lua-cpp/src/main.cpp:237-243 | `--c` is a comment that ends before the newline |
| Examples.CommentThenName | mini-lua-cpp/src/main.cpp:192-243 | `--c` newline `x` lexes to end-of-line, the name `x` and end-of-file |
| Examples.LoneTilde | mini-lua-cpp/src/main.cpp:267-272 | the input `~b` is InvalidToken |
| Examples.TrailingBlank | mini-lua-cpp/src/main.cpp:230-234 | a lone blank with no newline after it is InvalidToken |

## Left out

- Reading standard input, `main` and `clear_resources` are not modelled. They are I/O and memory release. The input is the parameter `src`.
- The trace line that `scan_tokens` prints for each token (`[NAME] x` and so on) is not modelled. It is output only and does not affect the token list.
- The double value of a floating literal is not modelled. `std::stod` is floating-point conversion, so `NumberValue.Floating` keeps the literal's lexeme instead.
- The cast of an integer literal from `unsigned long long` to `double` is not modelled. It is lossy above 2^53; `NumberValue.Integer` keeps the exact 64-bit value.
- The locale-dependent `std::isdigit`, `std::isalpha` and `std::isspace` are not modelled. ASCII classification is used, as under the C locale. Non-ASCII letters are not names.
- The `typeid` dispatch and the `logic_error` branches for comment and end-of-file tokens in `scan_tokens` cannot be reached. The model's `Piece` type makes them impossible.
- Lexer.ScanToken: requires input to remain at the cursor. Its only caller, the driver loop, guarantees this.
- Findings.CommentLoopAsWritten: the loop as written is followed for at most `fuel` iterations. Non-termination is stated as "None for every fuel".
- Findings.StringLoopAsWritten: likewise bounded by `fuel`.
- Render.LexRender: covers integer literals up to 2^64 - 1 written in decimal, and string literals written with double quotes. It does not cover floating or hex literals, single-quoted strings, or input without a blank before each token. Hex literals are read back by Numbers.HexDigitsScanAsInteger, fractions such as `12.5` by Numbers.FractionScansAsFloating, and single-quoted strings by Strings.LiteralRoundTrip. No lemma reads back a literal with an exponent.
- Numbers.ScanNumber: a floating literal is returned as its lexeme and is not converted. `std::stod` throws `out_of_range` when the value does not fit a double, as in `1e400`, or underflows, as in `1e-400` (`mini-lua-cpp/src/main.cpp:360`). The model returns the literal for these inputs instead of an error.

## Findings

| source | as written | input that shows it | evidently intended | confidence | as-written member | corrected member |
|---|---|---|---|---|---|---|
| mini-lua-cpp/src/main.cpp:309-313 | the comment loop stops only at a newline; at the end of input `peek` yields NUL and `advance` does not move | `--` with nothing after it | the comment ends at the end of input | not executed | Findings.CommentLoopAsWritten, Findings.CommentAtEndSpins | Cursor.ScanComment, Findings.CommentLoopStops |
| mini-lua-cpp/src/main.cpp:373-380 | the string loop stops only at the closing quote; at the end of input it appends NUL forever | `"` with nothing after it | an unterminated literal is a lexical error | not executed | Findings.StringLoopAsWritten, Findings.LoneQuoteSpins | Strings.StringBody, Findings.LoneQuoteIsUnterminated |
| mini-lua-cpp/src/main.cpp:391-393 | a word that is not reserved becomes a string token, not a name token | `x`, which gives the same token as `"x"` | a name token of the word, as in the Python and Rust ports | not executed | Findings.ScanNameAsWritten, Findings.NameCollidesWithString | Names.ScanName, Findings.NameAsWrittenIsString |
