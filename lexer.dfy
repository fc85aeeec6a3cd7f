/** The token vocabulary of the language and the shape of what the scanner hands
    to the parser. The scanner itself (a derived automaton with longest-match and
    keyword-over-identifier priority) is not modelled: its output is taken as a
    sequence of lexemes, each a token kind (or a scanning error), the text it
    matched and the byte range of that text. */
module Lexer {
  import opened Wrappers
  import opened StdText

  /** Token kinds carry no payload; the parser compares them by plain equality. */
  datatype Token =
    // keywords
    | Fn | Return | Let | For | In | While | Break | Continue | If | Else
    // basics and literals
    | Identifier | String | Number
    // arithmetic
    | Plus | Minus | Star | Slash | Percent
    // assignment and comparison
    | Equal | Less | Greater | LessEqual | GreaterEqual | DoubleEqual | NotEqual
    // logical and bitwise
    | AndAnd | OrOr | Not | And | Or | Caret | Tilde | ShiftLeft | ShiftRight
    // punctuation and grouping
    | Comma | Semicolon | Colon | DoubleColon | Dot
    | LeftParen | RightParen | LeftBrace | RightBrace

  /** A half-open byte range `[start, end)` of the source. */
  datatype Span = Span(start: nat, end: nat)

  /** What one call of the scanner yields: a token, or an error for text that
      matches no pattern. */
  datatype Scanned = Matched(token: Token) | Unmatched

  datatype Lexeme = Lexeme(scanned: Scanned, slice: string, span: Span)

  /** Everything the scanner yields for one source text, in order, and the slice
      and span it reports once it has nothing more to yield. */
  datatype TokenStream = TokenStream(items: seq<Lexeme>, endSlice: string, endSpan: Span)

  /** The `Debug` name of a token: the name of its variant. */
  function TokenName(t: Token): string {
    match t
    case Fn => "Fn" case Return => "Return" case Let => "Let" case For => "For"
    case In => "In" case While => "While" case Break => "Break"
    case Continue => "Continue" case If => "If" case Else => "Else"
    case Identifier => "Identifier" case String => "String" case Number => "Number"
    case Plus => "Plus" case Minus => "Minus" case Star => "Star" case Slash => "Slash"
    case Percent => "Percent" case Equal => "Equal" case Less => "Less"
    case Greater => "Greater" case LessEqual => "LessEqual"
    case GreaterEqual => "GreaterEqual" case DoubleEqual => "DoubleEqual"
    case NotEqual => "NotEqual" case AndAnd => "AndAnd" case OrOr => "OrOr"
    case Not => "Not" case And => "And" case Or => "Or" case Caret => "Caret"
    case Tilde => "Tilde" case ShiftLeft => "ShiftLeft" case ShiftRight => "ShiftRight"
    case Comma => "Comma" case Semicolon => "Semicolon" case Colon => "Colon"
    case DoubleColon => "DoubleColon" case Dot => "Dot" case LeftParen => "LeftParen"
    case RightParen => "RightParen" case LeftBrace => "LeftBrace"
    case RightBrace => "RightBrace"
  }

  /** The literal text of a token declared by a fixed string; `None` for the
      three tokens declared by a pattern. */
  function FixedText(t: Token): Option<string> {
    match t
    case Fn => Some("fn") case Return => Some("return") case Let => Some("let")
    case For => Some("for") case In => Some("in") case While => Some("while")
    case Break => Some("break") case Continue => Some("continue")
    case If => Some("if") case Else => Some("else")
    case Identifier => None case String => None case Number => None
    case Plus => Some("+") case Minus => Some("-") case Star => Some("*")
    case Slash => Some("/") case Percent => Some("%") case Equal => Some("=")
    case Less => Some("<") case Greater => Some(">") case LessEqual => Some("<=")
    case GreaterEqual => Some(">=") case DoubleEqual => Some("==")
    case NotEqual => Some("!=") case AndAnd => Some("&&") case OrOr => Some("||")
    case Not => Some("!") case And => Some("&") case Or => Some("|")
    case Caret => Some("^") case Tilde => Some("~") case ShiftLeft => Some("<<")
    case ShiftRight => Some(">>") case Comma => Some(",") case Semicolon => Some(";")
    case Colon => Some(":") case DoubleColon => Some("::") case Dot => Some(".")
    case LeftParen => Some("(") case RightParen => Some(")")
    case LeftBrace => Some("{") case RightBrace => Some("}")
  }

  predicate IsKeyword(t: Token) {
    t.Fn? || t.Return? || t.Let? || t.For? || t.In? || t.While? || t.Break?
    || t.Continue? || t.If? || t.Else?
  }

  predicate IsIdentStart(c: char) {
    'a' <= c <= 'z' || 'A' <= c <= 'Z' || c == '_'
  }

  predicate IsIdentContinue(c: char) {
    IsIdentStart(c) || IsDigit(c)
  }

  /** The text `[a-zA-Z_][a-zA-Z0-9_]*` accepts. */
  predicate IsIdentifierSlice(s: string) {
    |s| > 0 && IsIdentStart(s[0]) && forall i :: 1 <= i < |s| ==> IsIdentContinue(s[i])
  }

  /** The text `[0-9]+` accepts. */
  predicate IsNumberSlice(s: string) {
    |s| > 0 && IsDigits(s)
  }

  /** The inside of a string literal: characters other than `"` and `\`, and
      escapes of a backslash followed by any character but a newline. */
  predicate StringBody(b: string)
    decreases |b|
  {
    b == []
    || (b[0] == '\\' && |b| >= 2 && b[1] != '\n' && StringBody(b[2..]))
    || (b[0] != '"' && b[0] != '\\' && StringBody(b[1..]))
  }

  /** The text `"([^"\\]|\\.)*"` accepts. */
  predicate IsStringSlice(s: string) {
    |s| >= 2 && s[0] == '"' && s[|s| - 1] == '"' && StringBody(s[1..|s| - 1])
  }

  /** The slice a scanner reports for a token of kind `t`. An identifier slice is
      never the text of a keyword, since a keyword's fixed string takes priority. */
  predicate SliceFits(t: Token, slice: string) {
    match t
    case Identifier =>
      IsIdentifierSlice(slice) && forall k: Token :: IsKeyword(k) ==> FixedText(k) != Some(slice)
    case String => IsStringSlice(slice)
    case Number => IsNumberSlice(slice)
    case _ => FixedText(t) == Some(slice)
  }

  predicate LexemeValid(x: Lexeme) {
    && x.span.start + |x.slice| == x.span.end
    && (x.scanned.Matched? ==> SliceFits(x.scanned.token, x.slice))
  }

  /** A stream a scanner can produce: every slice has the shape of its token and
      spans follow one another through the source. */
  predicate LexicallyValid(s: TokenStream) {
    && (forall i :: 0 <= i < |s.items| ==> LexemeValid(s.items[i]))
    && (forall i :: 0 <= i < |s.items| - 1 ==> s.items[i].span.end <= s.items[i + 1].span.start)
  }

  /** Every token the scanner matches covers at least one character. */
  lemma SliceNonEmpty(t: Token, slice: string)
    requires SliceFits(t, slice)
    ensures |slice| > 0
  {
  }

  /** A slice shaped as an identifier, a string or a number fits no other kind:
      the three patterns and the fixed strings do not overlap, and the
      keywords' strings are left to the keywords. */
  lemma PatternSliceDeterminesToken(t: Token, u: Token, slice: string)
    requires t == Identifier || t == String || t == Number
    requires SliceFits(t, slice) && SliceFits(u, slice)
    ensures t == u
  {
    SliceNonEmpty(t, slice);
    var c := slice[0];
    assert c == '"' || IsIdentStart(c) || IsDigit(c);
  }

  /** In a stream a scanner can produce, a later token starts no earlier than
      any earlier one ends. */
  lemma {:induction false} SpansOrdered(s: TokenStream, i: nat, j: nat)
    requires LexicallyValid(s) && i < j < |s.items|
    ensures s.items[i].span.end <= s.items[j].span.start
    decreases j - i
  {
    if j > i + 1 {
      SpansOrdered(s, i, j - 1);
      assert LexemeValid(s.items[j - 1]);
    }
  }

  // ---------------------------------------------------------------------------
  // What the scanner skips between tokens

  /** The characters of `[ \t\n\f]`: a carriage return is not among them. */
  predicate IsSkippedWhitespace(c: char) {
    c == ' ' || c == '\t' || c == '\n' || c == '\U{0C}'
  }

  /** The end of the run of skipped whitespace that starts at `i`. */
  function WhitespaceRunEnd(src: string, i: nat): (e: nat)
    requires i <= |src|
    ensures i <= e <= |src|
    ensures forall j :: i <= j < e ==> IsSkippedWhitespace(src[j])
    ensures e < |src| ==> !IsSkippedWhitespace(src[e])
    decreases |src| - i
  {
    if i < |src| && IsSkippedWhitespace(src[i]) then WhitespaceRunEnd(src, i + 1) else i
  }

  /** The end of the line comment `//[^\n]*` that starts at `i`: the comment takes
      every character up to the next newline, which it leaves to the whitespace
      rule, or up to the end of the source. */
  function LineCommentEnd(src: string, i: nat): (e: nat)
    requires i + 2 <= |src| && src[i] == '/' && src[i + 1] == '/'
    ensures i + 2 <= e <= |src|
    ensures forall j :: i + 2 <= j < e ==> src[j] != '\n'
    ensures e < |src| ==> src[e] == '\n'
  {
    i + 2 + NewlineIndex(src[i + 2..])
  }

  /** A carriage return neither belongs to a run of skipped whitespace nor ends a
      line comment; the scanner matches no pattern on it. */
  lemma CarriageReturnNotSkipped(src: string, i: nat)
    requires i < |src| && src[i] == '\r'
    ensures WhitespaceRunEnd(src, i) == i
    ensures forall k: nat :: k + 2 <= i && src[k] == '/' && src[k + 1] == '/'
              ==> LineCommentEnd(src, k) != i
  {
  }

  /** A digit string the number pattern accepts but `str::parse::<i64>` rejects:
      the literal one above `i64::MAX`. */
  lemma OverflowingNumberSlice()
    ensures IsNumberSlice(NatText(I64_MAX + 1)) && ParseI64(NatText(I64_MAX + 1)) == None
  {
  }
}
