# floral front end in Dafny

floral is a toy compiler front end. A scanner turns source text into tokens.
A recursive-descent parser with one token of lookahead builds a syntax tree
for a single function: `fn NAME(): TYPE { STMT* }`. A statement is
`let IDENT = EXPR;` or `return EXPR;`. An expression is a number or a
variable, followed by any number of `+ - * /` operators and operands, folded
to the left with no precedence. A transpiler renders the tree as C-like text.
On the first error the parser stops, and the error is rendered as a
five-line report with a caret under the offending column.

This project models that core:

- `lexer.dfy`: the token kinds. The scanner's output is a sequence of
  lexemes (token or scanning error, slice, span), with what slices each
  token kind has.
- `ast.dfy`: the syntax tree.
- `parser.dfy`: each parsing routine as a function of the token stream and a
  cursor position. Then the `Parser` class, a cursor whose methods are proved
  equal to those functions.
- `grammar.dfy` and `soundness.dfy`: the token sequence ("spelling") each
  tree is written as. They prove that `parse_function` returns exactly the
  trees whose spelling the stream holds, and that no parse ever needs a
  precedence rule.
- `consequences.dfy`: what follows for streams a scanner can produce.
- `transpiler.dfy`: the C text and its layout.
- `error.dfy`: the `Display` messages, `find_line_info` and `pprint`.
- `terminal.dfy`: the report as a terminal shows it, with colour codes taking
  no column, and where the caret lands against the excerpt.
- `stdtext.dfy`: the pieces of Rust's standard library used on text
  (`i64` parsing, `to_string`, `str::lines`, right-aligned padding).
- `wrappers.dfy`: `Option` and `Result`.

`Transpile.TranspileExpr` parenthesises every binary node, the outermost one
included, so the stream `1 + 2 * 3` renders as `((1 + 2) * 3)`
(`Consequences.NoPrecedenceRendered`). Because every node is parenthesised,
the text of a parsed expression determines its tree
(`Consequences.ParsedExprTextDetermines`).

## Model

| member | source | states |
|---|---|---|
| Parsing.Parser.constructor | src/parser.rs:14-19 | the new parser's cursor is at the first lexeme, and its current token, slice and span are those of that lexeme |
| Parsing.Parser.Bump | src/parser.rs:24-28 | called only on a token, it advances the cursor by one and refreshes token, slice and span |
| Parsing.ExpectAt | src/parser.rs:30-47 | succeeds exactly on the expected token and consumes it; otherwise reports UnexpectedToken with the found token and its span, or UnexpectedEof when there is no token, without moving |
| Parsing.Parser.Expect | src/parser.rs:30-47 | returns the result `ExpectAt` gives and leaves the cursor where it says |
| Parsing.PrimaryAt | src/parser.rs:52-70 | succeeds exactly on a number or an identifier, consuming one token; a number's value is the slice parsed as `i64`; anything else is UnexpectedExprToken with its span, or UnexpectedEof |
| Parsing.Parser.ParsePrimary | src/parser.rs:52-70 | does what `PrimaryAt` says |
| Parsing.OpOf | src/parser.rs:73-81 | exactly the four operator tokens yield an operator, each the one it spells |
| Parsing.Parser.ParseOp | src/parser.rs:73-81 | on a valid parser, the operator `OpOf` gives for the current token; it is present exactly on `+ - * /`, and the cursor does not move |
| Parsing.ExprTailAt | src/parser.rs:87-95 | the operator loop stops only where no operator follows, and fails only with UnexpectedEof or UnexpectedExprToken |
| Parsing.ExprAt | src/parser.rs:84-98 | a successful expression consumes at least one token and stops before a token that is not an operator |
| Parsing.Parser.ParseExpr | src/parser.rs:84-98 | the loop computes `ExprAt`: result and final cursor |
| Parsing.IdentifierAt | src/parser.rs:101-113 | an identifier yields its slice and is consumed; anything else, or the end of input, is ExpectedIdentifier naming what is there, without moving |
| Parsing.Parser.ParseIdentifier | src/parser.rs:101-113 | does what `IdentifierAt` says |
| Parsing.LetRestAt | src/parser.rs:118-125 | a successful `let` consumes at least four tokens after the keyword and yields a `Let` |
| Parsing.ReturnRestAt | src/parser.rs:126-131 | a successful `return` consumes at least two tokens after the keyword and yields a `Return` |
| Parsing.StmtAt | src/parser.rs:116-137 | on a token other than `let` and `return` the result is UnexpectedExprToken with that token and its span, without moving |
| Parsing.Parser.ParseStmt | src/parser.rs:116-137 | does what `StmtAt` says; it is only called on a token, so the `unwrap` in its last arm cannot panic |
| Parsing.BodyFrom | src/parser.rs:149-155 | the statement loop stops only at `}` or where no token is, and keeps the statements parsed so far as a prefix of its result |
| Parsing.HeaderAt | src/parser.rs:141-147 | a successful header consumes exactly the seven tokens `fn NAME ( ) : TYPE {` |
| Parsing.FunctionAt | src/parser.rs:140-159 | a successful function consumes at least the eight tokens of its header and closing brace |
| Parsing.Parser.ParseFunction | src/parser.rs:140-159 | the method, with its statement loop, computes `FunctionAt`: result and final cursor |
| Grammar.DenotesSplit | src/parser.rs:140-159 | a stream spells a concatenation exactly when it spells the first part and then the second |
| Grammar.ExprComplete | src/parser.rs:84-98 | the spelling of any left-folded expression, followed by a non-operator, parses back to that expression and stops right after it |
| Grammar.TailComplete | src/parser.rs:87-95 | the loop folds operator and primary steps onto the left operand in order, from the first to the last |
| Grammar.LetComplete | src/parser.rs:118-125 | the spelling of a `let` parses back to it |
| Grammar.ReturnComplete | src/parser.rs:126-131 | the spelling of a `return` parses back to it |
| Grammar.StmtComplete | src/parser.rs:116-137 | the spelling of any statement parses back to it |
| Grammar.BodyComplete | src/parser.rs:149-155 | the spellings of a statement list, followed by `}`, parse back to the list |
| Grammar.HeaderComplete | src/parser.rs:141-147 | the spelling of a header parses back to its name and return type |
| Grammar.FunctionComplete | src/parser.rs:140-159 | the spelling of any well-formed function parses back to it and consumes exactly its tokens |
| Grammar.Spine | src/parser.rs:84-98 | every left-folded expression is a primary followed by operator steps whose folding gives it back |
| Soundness.ExprSound | src/parser.rs:84-98 | a successful expression parse yields a left-folded tree whose spelling is exactly the tokens consumed |
| Soundness.StmtSound | src/parser.rs:116-137 | a successful statement parse yields a statement whose spelling is exactly the tokens consumed |
| Soundness.BodySound | src/parser.rs:149-155 | the statement loop's result is spelled by the tokens it consumed |
| Soundness.FunctionSound | src/parser.rs:140-159 | a successful function parse yields a function whose spelling is exactly the tokens consumed |
| Soundness.FunctionParses | src/parser.rs:140-159 | `parse_function` returns `f` and stops at `next` if and only if `f` is well formed and the stream spells it from the start to `next` |
| Consequences.FunctionIgnoresRest | src/parser.rs:140-159 | the parse depends only on the tokens it consumed: another stream that agrees on them parses the same |
| Consequences.FunctionTokens | src/parser.rs:140-159 | a successful parse consumed only grammar tokens: no scanning error and none of `for in while break continue if else` |
| Consequences.FunctionNamed | src/parser.rs:101-113 | on a stream a scanner can produce, every name in the parsed function is identifier text and not a keyword |
| Consequences.EmptyBody | src/parser.rs:149-158 | a header followed at once by `}` parses to a function with no statements |
| Consequences.NoPrecedence | src/parser.rs:84-98 | on any stream spelling `a + b * c` followed by a non-operator, the expression parses as `(a + b) * c` |
| Consequences.NoPrecedenceRendered | src/transpiler.rs:7-27 | on any stream spelling `1 + 2 * 3` followed by a non-operator, the expression parses and renders as `((1 + 2) * 3)` |
| Consequences.ParsedExprTextDetermines | src/transpiler.rs:7-27 | two expressions parsed from streams a scanner can produce that render to the same text are the same tree |
| Consequences.LetMissingSemicolon | src/parser.rs:118-125 | a `let` whose expression is followed by anything but `;` fails there with UnexpectedToken naming `;`, the token found and its span, or with UnexpectedEof |
| Consequences.ReturnMissingSemicolon | src/parser.rs:126-131 | the same for a `return` |
| Consequences.LetWithoutName | src/parser.rs:118-120 | `let` followed by anything but an identifier fails on that token with ExpectedIdentifier naming it (or nothing, at the end) and its span, the cursor on it |
| Consequences.BodyStmtFails | src/parser.rs:150-154 | a statement that fails inside the body ends the loop with that statement's error and cursor |
| Consequences.BodyErrorSource | src/parser.rs:149-155 | every error of the statement loop is the error of a statement at a position the loop reached, on a token other than `}`; the loop adds no error of its own |
| Consequences.FunctionErrorSource | src/parser.rs:140-159 | `parse_function` fails only with the header's error, a body statement's error, or UnexpectedEof where the tokens end before `}` |
| Consequences.MissingSemicolonFunction | src/parser.rs:140-159 | `fn f(): int { let x = 1 }` fails with UnexpectedToken naming `;`, the `}` and the `}`'s span, the cursor left on the `}` |
| Consequences.LetReturnLines | src/transpiler.rs:30-41 | `fn f(): int { let x = 1; return x; }` renders as the lines `int f() {`, `    int x = 1;`, `    return x;` and `}` |
| Consequences.LetReturnText | src/transpiler.rs:44-58 | the same function's text is those four lines, each followed by a newline |
| Consequences.ParsedFunctionRenders | src/transpiler.rs:44-58 | a parsed function renders to one line for the header, one per statement and one for `}`, with balanced parentheses in each expression, one pair per binary node |
| Transpile.OpSymbol | src/transpiler.rs:12-17 | each operator is written as one of the four symbols |
| Transpile.TextDeterminesExpr | src/transpiler.rs:7-27 | with names that start with a letter or `_` and hold no blank or parenthesis, two expressions with the same text are equal |
| Transpile.PrefixFree | src/transpiler.rs:18-23 | an operand's text followed by a blank or `)` marks where the operand ends: texts that begin the same string that way come from the same expression |
| Transpile.TranspileExpr | src/transpiler.rs:7-27 | a number's text parses back to the number, and a binary node's text is wrapped in parentheses |
| Transpile.ExprBalanced | src/transpiler.rs:7-27 | the text of an expression has balanced parentheses and as many `(` as binary nodes |
| Transpile.ExprOneLine | src/transpiler.rs:7-27 | an expression whose names hold no newline renders on one line |
| Transpile.TranspileStmt | src/transpiler.rs:30-41 | every statement renders ending in `;` |
| Transpile.StmtOneLine | src/transpiler.rs:30-41 | a statement whose names hold no newline renders as a line `str::lines` gives back unchanged |
| Transpile.StmtLinesAt | src/transpiler.rs:49-54 | line `i` of the body is statement `i`, indented by four spaces |
| Transpile.TranspileFunction | src/transpiler.rs:44-58 | the loop builds the header line, then each statement's line in order, then `}`, each ending in a newline |
| Transpile.FunctionTextLines | src/transpiler.rs:44-58 | the text splits back into exactly the header, the statement lines and the closing brace |
| Diagnostics.TokenNameIsOneLine | src/error.rs:10-27 | every token's `Debug` name is non-empty and one line |
| Diagnostics.Message | src/error.rs:7-27 | every message is one line, and every message but the end-of-input one ends in " at " and the span |
| Diagnostics.Locate | src/error.rs:77-85 | the line found is the one whose range, counting one terminator byte per line, holds the offset |
| Diagnostics.LineInfo | src/error.rs:73-88 | line and column are 1-based and the line start is within the source; a found line starts at or before the offset, with column offset minus start plus one; otherwise the last line plus one, column 1, at the end of the source |
| Diagnostics.FindLineInfo | src/error.rs:73-88 | the loop computes `LineInfo` |
| Diagnostics.LinesLayout | src/error.rs:77-85 | in a text without `\r`, each line sits in the source at the offset the walk computes for it |
| Diagnostics.CaretUnderOffset | src/error.rs:52-54 | in a text without `\r`, the column computed for an offset on a character other than a newline indexes that very character of the excerpt printed |
| Diagnostics.CrLfDrift | src/error.rs:77-83 | with `\r\n` line ends the computed position drifts: the `b` of `a\r\nb` is reported at line 2, column 2, from offset 2 |
| Diagnostics.Pprint | src/error.rs:41-70 | end of input gives the fixed message with an unknown locator; any other error gives the five report lines, each terminated by a newline |
| Diagnostics.ReportLinesNoBreak | src/error.rs:57-67 | the report has five lines, none holding a newline, when message, file label and excerpt hold none |
| Terminal.ReportShown | src/error.rs:57-66 | with the colour codes taking no column, the numbered line shows the line number right-aligned in two columns, ` | ` and the excerpt; the caret line shows `   | `, `col - 1` blanks and `^` |
| Terminal.CaretAligned | src/error.rs:60-66 | the `^` shows in the column of the excerpt's `col`-th character exactly when the line number is below 100; otherwise it shows as many columns to the left as the number has digits beyond two |
| Diagnostics.ReportIsFiveLines | src/error.rs:41-70 | a positioned report splits back into its five lines and holds exactly five newlines, when the label has no line break and the source no `\r` |
| StdText.ParseI64 | src/parser.rs:55 | a digit string parses to its value exactly when that fits in `i64`; any result is within `i64` |
| StdText.IntText | src/transpiler.rs:9 | the decimal text of an `i64` parses back to it |
| StdText.PadLeft | src/error.rs:60 | the text right-aligned in the field: length the larger of width and text, the text at the end, spaces before it |
| StdText.LinesOfTerminated | src/error.rs:54 | `str::lines` gives back lines each written with a final newline, when none holds a newline or ends in `\r` |
| StdText.LinesShape | src/error.rs:54 | the lines `str::lines` yields hold no newline, and every character of them comes from the text |
| StdText.FirstLine | src/error.rs:54 | the first line of a text, or nothing, holds no newline and only characters of the text |
| Lexer.OverflowingNumberSlice | src/lexer.rs:44-45 | a digit string the number pattern accepts, one above `i64::MAX`, that parsing as `i64` rejects |
| Lexer.SliceNonEmpty | src/lexer.rs:7-128 | every slice a token can have is non-empty |
| Lexer.PatternSliceDeterminesToken | src/lexer.rs:37-45 | a slice of an identifier, a string or a number fits no other token kind: the patterns do not overlap each other or the fixed strings, and keyword strings go to the keywords |
| Lexer.SpansOrdered | src/parser.rs:24-28 | in a stream a scanner can produce, each later token starts no earlier than any earlier token ends |
| Lexer.CarriageReturnNotSkipped | src/lexer.rs:4-5 | a carriage return is neither skipped whitespace nor the end of a line comment |
| Lexer.WhitespaceRunEnd | src/lexer.rs:4 | the skipped run ends at the first character outside space, tab, newline and form feed |
| Lexer.LineCommentEnd | src/lexer.rs:5 | a line comment runs to the next newline, which it does not take, or to the end of the source |

## Left out

- The scanner itself (src/lexer.rs:3-128, the `logos` derive) is not modelled. Its output is an input: a sequence of lexemes. `Lexer.LexicallyValid` states the slice shapes and span order a scanner produces; only the lemmas in `consequences.dfy` rely on it.
- What the scanner reports for slice and span once it is exhausted is not known here; it is a parameter of the stream (`endSlice`, `endSpan`).
- Parsing.PrimaryAt: requires that every number literal of the stream fits in `i64` (`NumbersFit`). The code calls `unwrap` on the parse and panics on a literal such as `9223372036854775808`, which the number pattern accepts (`Lexer.OverflowingNumberSlice`). The panic is not modelled.
- Diagnostics.CaretUnderOffset: proved only for sources without `\r`. With `\r\n` line ends the computed line start drifts by one byte per earlier line (`Diagnostics.CrLfDrift`).
- Diagnostics.CaretUnderOffset: states that the column picks out the right character of the excerpt, not that the `^` shows under it. On screen the two agree only up to line 99. From line 100 on, the line number widens the gutter (src/error.rs:60) while the caret line's prefix stays five columns wide (src/error.rs:63), so the `^` lands left of the character (`Terminal.CaretAligned`).
- Consequences.FunctionIgnoresRest: requires every number literal of the second stream to fit in `i64`, including literals after the closing brace that the parse never reads. The parsing functions are only defined on such streams (see Parsing.PrimaryAt). For example, the code parses `fn f(): int { } 9223372036854775808` successfully, but the lemma says nothing about that stream.
- Diagnostics.ReportIsFiveLines: assumes the file label has no newline and the source no `\r`. Otherwise the report's text can split into more or other lines.
- ANSI colour codes are string constants (`Red`, `Blue`, `Reset`). A terminal is modelled only as far as `Terminal.Uncoloured` goes: a code takes no column. Colours themselves are not modelled.
- Error values hold no source location for `UnexpectedEof`, as in the code. Where the cursor's span points after the end of input is not modelled.
- `thiserror`'s derive is modelled by writing out the `Display` messages. `{:?}` on a span is written as `start..end`.
- Reading the source file, printing to the terminal and the process exit in `main.rs` are I/O and are left out.
- Strings are sequences of characters. Sources are taken to be ASCII, so byte offsets and character indices coincide; multi-byte UTF-8 text is not modelled.
