# renrs-lang lexer, modelled in Dafny

This project models the lexer of renrs-lang, a small scripting language for
visual-novel content. The lexer turns a string into a lazy stream of tokens:

- operators and brackets (`=`, `+`, `-`, `{`, `}`, `(`, `)`);
- line ends (`\n` and `;`);
- identifiers;
- numbers;
- invalid characters.

Each token carries the position reached just after its first character.

The model has these modules:

- `Wrappers`: `Option` and `Result`.
- `LangErr`: the error types the lexer reports (`src/renrs_lang/err.rs`).
- `CompilerErr`: the compiler's copy of the error types, with its three
  discriminators (`src/compiler/renrs_lang/err.rs`).
- `Position`: `Pos` and `Pos::advance`. It also has `PosAt`, the position
  after `k` characters are consumed, and a closed form for its counters.
- `Scanner`: a pure specification of the lexer. `NextSpec(s, k)` is what one
  call of `next()` yields on input `s` after `k` characters were consumed, and
  where it leaves the cursor. `Classify` covers the character classification
  that follows the blank skip, and `Pulls` covers a series of calls. The
  lemmas state what every kind of token is made of, where it sits, and when a
  pull yields nothing.
- `Lexing`: the `Lexer` struct as a class with the fields `input`, `position`
  and `ch`. Its methods `ReadChar`, `ReadIdent`, `ReadNum`, `TakeWhitespace`
  and `Next` are loops and updates of those fields, as in the source. Each one
  is proved against `Scanner`. `Next` is proved to equal `NextSpec` on every
  input. The predicates `IsWhitespace`, `IsIdentChar`, `IsAlphanumeric` and
  `IsNumChar` model the helpers of the same names. They are used in the
  methods' loop guards and contracts.
- `LexerTests`: the Rust unit tests, restated as lemmas about `NextSpec` and
  `Pulls`. Further lemmas pin down behaviours the tests do not exercise.

The model follows the code in these places:

- Line and column: `Pos::advance` bumps `column` on a newline and `line` on
  every other character.
- Dot token: there is no standalone dot token. A `.` always starts a numeric
  run, so `asdf.sdf` lexes as `asdf` with the `.` consumed as the
  identifier's terminator, and then `sdf`.
- String literals: they are not lexed.
- Malformed numbers: because of `.ok()?`, a malformed number makes `next()`
  return none rather than an error item. Later calls still go on lexing.
- Terminators: the character that ends an identifier or number run is read
  and then discarded, so `a+b` lexes as `a` followed by `b`.

## Model

| member | source | states |
|---|---|---|
| CompilerErr.CompilationErrKind.IsInvalidString | src/compiler/renrs_lang/err.rs:28-30 | true exactly for the `InvalidString` kind |
| CompilerErr.CompilationErrKind.IsInvalidNumber | src/compiler/renrs_lang/err.rs:36-38 | true exactly for the `InvalidNumber` kind |
| CompilerErr.CompilationErrKind.IsUnreachable | src/compiler/renrs_lang/err.rs:44-46 | true exactly for the `Unreachable` kind |
| CompilerErr.ExactlyOneDiscriminator | src/compiler/renrs_lang/err.rs:7-21 | every kind answers yes to exactly one of the three discriminators |
| Position.Pos.Advance | src/renrs_lang/lexer.rs:40-48 | `raw` grows by one and `file` is kept; on a newline `column` grows by one and `line` is kept, on any other character `line` grows by one and `column` is kept; `line + column == raw` is preserved |
| Position.Occurrences | src/renrs_lang/lexer.rs:157 | the count of a character in a run is at most the run's length |
| Position.PosAt | src/renrs_lang/lexer.rs:93-102 | the position after consuming `k` characters from the default position has `raw == k`, no file, and `line + column == raw` |
| Position.PosAtCounts | src/renrs_lang/lexer.rs:40-48 | after `k` characters, `column` is the number of newlines consumed and `line` is the number of other characters |
| Scanner.SingleToken | src/renrs_lang/lexer.rs:185-195 | a character makes a token on its own exactly when it is an operator, a bracket, `\n` or `;`; the line-end characters make `EndOfLine`, and the others make a token carrying that character |
| Scanner.MalformedNumber | src/renrs_lang/lexer.rs:157 | the test `read_num` applies to its run; a rejected run is non-empty and holds a `.` (`NumberShape` gives the independent description) |
| Scanner.RunEnd | src/renrs_lang/lexer.rs:170-174 | the end of the maximal run of a character class: every character before it is in the class, and the one at it is not (or the input ends) |
| Scanner.NextSpec | src/renrs_lang/lexer.rs:180-208 | one pull never moves the cursor back and moves it forward when input remains; the current character is the last one consumed, or none at the end; a yielded item is never an error; at the end of input the pull yields none and stays put |
| Scanner.Classify | src/renrs_lang/lexer.rs:184-207 | classifying the first significant character consumes it; a token's position is the one just after it; identifiers start with a letter or `_`, numbers with a digit or `.`, and only a numeric run can yield none |
| Scanner.Drive | src/renrs_lang/lexer.rs:180-208 | `n` pulls move the cursor forward and never past the end of the input |
| Scanner.Pulls | src/renrs_lang/lexer.rs:180-208 | `n` pulls yield `n` results |
| Scanner.SkipsBlanks | src/renrs_lang/lexer.rs:181-182 | reading one character and then skipping the blank run it starts stops just after the first non-blank character |
| Scanner.BlankSkipped | src/renrs_lang/lexer.rs:170-174 | starting a pull before or after a blank makes no difference |
| Scanner.NextTokenPosition | src/renrs_lang/lexer.rs:181-183 | every token sits at the first non-blank character at or after the cursor, all characters skipped before it are blanks, and its position is `PosAt` just after that character |
| Scanner.NextSingleToken | src/renrs_lang/lexer.rs:185-195 | an operator, bracket or line-end token comes from the one character at its position, and the pull stops right after it |
| Scanner.ClassifiedSingle | src/renrs_lang/lexer.rs:185-195 | the same as `NextSingleToken`, for classification at a given index |
| Scanner.NextInvalidToken | src/renrs_lang/lexer.rs:203 | an invalid token carries the character at its position, which is neither blank, nor an operator, bracket or line end, nor the start of an identifier or number |
| Scanner.ClassifiedInvalid | src/renrs_lang/lexer.rs:203 | the same as `NextInvalidToken`, for classification at a given index |
| Scanner.IdentAt | src/renrs_lang/lexer.rs:197-198 | an identifier token is the maximal identifier run starting at its position with a letter or `_`, and the pull also consumes the character that ends the run |
| Scanner.ClassifiedIdent | src/renrs_lang/lexer.rs:197-198 | the same as `IdentAt`, for classification at a given index |
| Scanner.IdentRun | src/renrs_lang/lexer.rs:130-142 | an identifier run is non-empty, starts with a letter or `_`, holds only letters, digits and `_`, and is followed by a non-identifier character or the end |
| Scanner.NumRun | src/renrs_lang/lexer.rs:148-168 | an accepted numeric run is non-empty, holds only digits and `.`, has at most one `.`, is not the lone `.`, and is followed by a non-numeric character or the end |
| Scanner.NumAt | src/renrs_lang/lexer.rs:200-201 | a number token is the maximal digit-and-dot run at its position, is never malformed, and the pull also consumes the character that ends the run |
| Scanner.ClassifiedNum | src/renrs_lang/lexer.rs:200-201 | the same as `NumAt`, for classification at a given index |
| Scanner.NextNone | src/renrs_lang/lexer.rs:198-206 | a pull yields none if and only if only blanks remain, or the first significant character starts a malformed numeric run |
| Scanner.NumberShape | src/renrs_lang/lexer.rs:157 | the malformed-number test agrees with an independent description: a run of digits and dots is accepted exactly when it is all digits, or it has one dot among at least two characters |
| Scanner.NoDots | src/renrs_lang/lexer.rs:157 | a run of digits has no dot |
| Scanner.OneDot | src/renrs_lang/lexer.rs:157 | given a dot at one index, the dot count is one exactly when no other index holds a dot |
| Scanner.Absent | src/renrs_lang/lexer.rs:157 | a character's count is zero exactly when it does not occur |
| Scanner.TwoDots | src/renrs_lang/lexer.rs:157 | two dots at distinct indices make the count at least two |
| Scanner.SingleTokens | src/renrs_lang/lexer.rs:185-195 | the reference token list for input of operators, brackets and line ends: one item per character, in order, each carrying that character's token at the position just after it |
| Scanner.SingleTokenRun | src/renrs_lang/lexer.rs:185-195 | such input lexes to exactly the `SingleTokens` list: no single-character token consumes the character after it |
| Scanner.DrainedAfter | src/renrs_lang/lexer.rs:180-208 | the input is drained after at most as many pulls as there are characters left |
| Scanner.ExhaustedForever | src/renrs_lang/lexer.rs:93-97 | once the input is drained, every further pull yields none |
| Lexing.Lexer.constructor | src/renrs_lang/lexer.rs:84-91 | a new lexer holds the input, starts at the default position, and has no current character |
| Lexing.Lexer.ReadChar | src/renrs_lang/lexer.rs:93-102 | returns and stores the next character, or none at the end; it advances the position by that character, or leaves it unchanged at the end |
| Lexing.Lexer.PeakNextChar | src/renrs_lang/lexer.rs:104-109 | the next unread character, which exists exactly when input remains; the state is unchanged |
| Lexing.Lexer.IsWhitespace | src/renrs_lang/lexer.rs:111-119 | the current character is a space or a tab; such a character is no operator, bracket or line end and starts neither an identifier nor a number |
| Lexing.Lexer.IsIdentChar | src/renrs_lang/lexer.rs:121-123 | the current character is a letter or `_`, the start of an identifier, and so is never a numeric character |
| Lexing.Lexer.IsAlphanumeric | src/renrs_lang/lexer.rs:125-127 | the current character is a letter or digit; with `IsIdentChar` it admits exactly the characters that continue an identifier |
| Lexing.Lexer.IsNumChar | src/renrs_lang/lexer.rs:144-146 | the current character is a digit or `.`, and then it makes no single-character token |
| Lexing.Lexer.ReadIdent | src/renrs_lang/lexer.rs:130-142 | never fails; returns the maximal identifier run starting at the current character, or nothing when that is not an identifier character; the cursor stops on the character after the run |
| Lexing.Lexer.ReadNum | src/renrs_lang/lexer.rs:148-168 | collects the maximal run of digits and dots starting at the current character; a run with more than one dot, or the lone dot, gives an `InvalidNumber` error, and any other run is returned as is |
| Lexing.Lexer.TakeWhitespace | src/renrs_lang/lexer.rs:170-174 | skips the blank run starting at the current character, stopping on the first non-blank character, or does nothing when the current character is not blank |
| Lexing.Lexer.Next | src/renrs_lang/lexer.rs:180-208 | what a pull yields and the state it leaves are exactly `NextSpec` of the input and the characters consumed before it |
| Lexing.Lexer.Dispatch | src/renrs_lang/lexer.rs:183-207 | the match on the current character after blanks: none at the end of input, otherwise exactly `Classify` at that character |
| Lexing.Lexer.NextWord | src/renrs_lang/lexer.rs:196-204 | the default arm: identifier, number or invalid token, exactly as `Classify` says |
| LexerTests.EndOfFile | src/renrs_lang/lexer.rs:214-218 | empty input yields none, and none again on the next pull |
| LexerTests.OperatorAlone | src/renrs_lang/lexer.rs:219-237 | each operator or bracket alone lexes to its token at position line 1, column 0, raw 1 |
| LexerTests.SingleOperators | src/renrs_lang/lexer.rs:219-237 | `=`, `+` and `-` alone lex to `ASSIGN`, `PLUS` and `MINUS` |
| LexerTests.SingleCurlies | src/renrs_lang/lexer.rs:219-237 | `{` and `}` alone lex to `LCurly` and `RCurly` |
| LexerTests.SingleParens | src/renrs_lang/lexer.rs:219-237 | `(` and `)` alone lex to `LParen` and `RParen` |
| LexerTests.IdentUnderscore | src/renrs_lang/lexer.rs:240-244 | `_ident` lexes to one identifier |
| LexerTests.IdentHello | src/renrs_lang/lexer.rs:245-249 | `hello` lexes to one identifier |
| LexerTests.IdentAfterLineEnd | src/renrs_lang/lexer.rs:250-255 | blanks then a newline lex to `EndOfLine`, and the second pull yields `hello` |
| LexerTests.IdentAfterBlanks | src/renrs_lang/lexer.rs:256-257 | leading blanks are skipped and `h1` is one identifier, because digits may continue an identifier |
| LexerTests.Numbers | src/renrs_lang/lexer.rs:261-269 | `1`, `.1` and `1.1` lex to numbers |
| LexerTests.NumberAlone | src/renrs_lang/lexer.rs:261-269 | each of those inputs lexes to itself as a number |
| LexerTests.MalformedTwoDots | src/renrs_lang/lexer.rs:271-275 | `..` yields none, so unwrapping it panics |
| LexerTests.MalformedLoneDot | src/renrs_lang/lexer.rs:277-281 | `.` yields none |
| LexerTests.MalformedManyDigits | src/renrs_lang/lexer.rs:283-287 | `0000.10.0` yields none |
| LexerTests.ManyDigitsRun | src/renrs_lang/lexer.rs:285 | the numeric run of `0000.10.0` covers the whole input |
| LexerTests.TokenChain | src/renrs_lang/lexer.rs:289-296 | `a b c d` yields four one-letter identifiers and then none |
| LexerTests.TokenChainClient | src/renrs_lang/lexer.rs:289-296 | five calls of `Next` on a `Lexer` over `a b c d` return the four identifiers at their positions and then none |
| LexerTests.ChainIdent | src/renrs_lang/lexer.rs:289-296 | each letter of `a b c d` is an identifier at the position after it |
| LexerTests.DotForAccess | src/renrs_lang/lexer.rs:299-302 | the first pull on `asdf.sdf` yields `asdf` and consumes the `.` |
| LexerTests.DotForAccessRest | src/renrs_lang/lexer.rs:299-302 | the next pull yields `sdf`, so no dot token is ever made |
| LexerTests.TerminatorSwallowed | src/renrs_lang/lexer.rs:130-142 | `a+b` yields `a`, then `b`, then none: the `+` that ends `a` is lost |
| LexerTests.TerminatorSwallowedFirst | src/renrs_lang/lexer.rs:130-142 | the first pull on `a+b` stops after the `+` |
| LexerTests.TerminatorSwallowedSecond | src/renrs_lang/lexer.rs:130-142 | the second pull on `a+b` yields `b` |
| LexerTests.NewlineBumpsColumn | src/renrs_lang/lexer.rs:40-48 | in `a\nb`, `b` sits at line 2, column 1: the newline bumped the column |
| LexerTests.NewlineBumpsColumnFirst | src/renrs_lang/lexer.rs:40-48 | the first pull on `a\nb` yields `a` and consumes the newline |
| LexerTests.NewlineBumpsColumnSecond | src/renrs_lang/lexer.rs:40-48 | the second pull yields `b` at line 2, column 1 |
| LexerTests.NoneIsNotFinal | src/renrs_lang/lexer.rs:198-206 | `..a b` yields none for the malformed number, and then the identifier `b` |
| LexerTests.NoneIsNotFinalFirst | src/renrs_lang/lexer.rs:200-201 | the malformed run and its terminator `a` are consumed |
| LexerTests.NoneIsNotFinalSecond | src/renrs_lang/lexer.rs:197-198 | the pull after it yields `b` |

## Left out

- Character classes are ASCII only. Rust's `char::is_alphabetic`, `is_alphanumeric` and `is_numeric` accept all Unicode letters and digits, but here only `a`–`z`, `A`–`Z` and `0`–`9` count.
- The `Unreachable` error paths in `read_ident` and `read_num` are not modelled. The loop guards ensure a current character exists, so those errors can never be built.
- The `INTERNAL_ERR_MSG` text is not modelled. `ReadNum` builds the `InvalidNumber` message, but the message text is not part of any contract; only `kind` is.
- The `Iterator` trait plumbing (`for` loops, adapters) is left out. Only `next()` is modelled, and `Pulls` stands for repeated calls.
- `usize` arithmetic is modelled with unbounded naturals. Overflow of `raw`, `line` or `column` would need more characters than memory holds.
- Pos.Advance: returns the new value instead of `&Self`, because `Pos` is a plain value here.
- Lexing.Lexer.Next: the match is split into the methods `Dispatch` and `NextWord`, which keeps each proof small. The behaviour is the same.
- `CompilationErrKind::InvalidString` is never produced by the lexer. It appears only in the compiler's copy of the error types.
- The crate roots and module declarations (`lib.rs`, `mod.rs`) are not part of this model, and neither are the parser, compiler and runtime stubs.
