/** Parse diagnostics: the four error kinds, their one-line messages, the mapping
    of a byte offset to a line and column, and the annotated report. */
module Diagnostics {
  import opened Wrappers
  import opened StdText
  import opened Lexer

  /** The parser's errors. The token `ExpectedIdentifier` carries is named
      `found` in the source; here it is `seen`, since it is an optional token
      and a destructor name can have only one type across constructors. */
  datatype ParserError =
    | UnexpectedEof
    | UnexpectedToken(expected: Token, found: Token, span: Span)
    | ExpectedIdentifier(seen: Option<Token>, span: Span)
    | UnexpectedExprToken(found: Token, span: Span)

  /** `Debug` of a span: `start..end`. */
  function SpanText(sp: Span): (r: string)
    ensures NoBreak(r)
  {
    DigitsOnly(NatText(sp.start));
    DigitsOnly(NatText(sp.end));
    NatText(sp.start) + ".." + NatText(sp.end)
  }

  /** A piece of text that holds neither a newline nor a carriage return. */
  predicate NoBreak(l: string) {
    '\n' !in l && '\r' !in l
  }

  lemma DigitsOnly(s: string)
    requires IsDigits(s)
    ensures NoBreak(s)
  {
  }

  /** `Debug` of an optional token. */
  function OptionTokenText(t: Option<Token>): (r: string)
    ensures NoBreak(r)
  {
    match t
    case None => "None"
    case Some(k) =>
      TokenNameIsOneLine(k);
      "Some(" + TokenName(k) + ")"
  }

  lemma KeywordNamesOneLine(t: Token)
    requires t in {Fn, Token.Return, Token.Let, For, In, While, Break, Continue, If, Else, Identifier}
    ensures NoBreak(TokenName(t)) && |TokenName(t)| > 0
  {
  }

  lemma OperatorNamesOneLine(t: Token)
    requires t in {String, Token.Number, Plus, Minus, Star, Slash, Percent, Equal, Less, Greater, LessEqual}
    ensures NoBreak(TokenName(t)) && |TokenName(t)| > 0
  {
  }

  lemma LogicNamesOneLine(t: Token)
    requires t in {GreaterEqual, DoubleEqual, NotEqual, AndAnd, OrOr, Not, And, Or, Caret, Tilde, ShiftLeft}
    ensures NoBreak(TokenName(t)) && |TokenName(t)| > 0
  {
  }

  lemma PunctuationNamesOneLine(t: Token)
    requires t in {ShiftRight, Comma, Semicolon, Colon, DoubleColon}
    ensures NoBreak(TokenName(t)) && |TokenName(t)| > 0
  {
  }

  lemma GroupingNamesOneLine(t: Token)
    requires t in {Dot, LeftParen, RightParen, LeftBrace, RightBrace}
    ensures NoBreak(TokenName(t)) && |TokenName(t)| > 0
  {
  }

  /** Every token name is a non-empty word on one line. */
  lemma TokenNameIsOneLine(t: Token)
    ensures NoBreak(TokenName(t)) && |TokenName(t)| > 0
  {
    if t in {Fn, Token.Return, Token.Let, For, In, While, Break, Continue, If, Else, Identifier} {
      KeywordNamesOneLine(t);
    } else if t in {String, Token.Number, Plus, Minus, Star, Slash, Percent, Equal, Less, Greater, LessEqual} {
      OperatorNamesOneLine(t);
    } else if t in {GreaterEqual, DoubleEqual, NotEqual, AndAnd, OrOr, Not, And, Or, Caret, Tilde, ShiftLeft} {
      LogicNamesOneLine(t);
    } else if t in {ShiftRight, Comma, Semicolon, Colon, DoubleColon} {
      PunctuationNamesOneLine(t);
    } else {
      GroupingNamesOneLine(t);
    }
  }

  lemma NoBreakAppend(a: string, b: string)
    requires NoBreak(a) && NoBreak(b)
    ensures NoBreak(a + b)
  {
  }

  function ExpectedButFound(expected: Token, found: Token): (r: string)
    ensures NoBreak(r)
  {
    TokenNameIsOneLine(expected);
    TokenNameIsOneLine(found);
    NoBreakAppend("Expected ", TokenName(expected));
    NoBreakAppend(", but found ", TokenName(found));
    NoBreakAppend("Expected " + TokenName(expected), ", but found " + TokenName(found));
    "Expected " + TokenName(expected) + (", but found " + TokenName(found))
  }

  function ExpectedIdentifierButFound(seen: Option<Token>): (r: string)
    ensures NoBreak(r)
  {
    NoBreakAppend("Expected identifier, but found ", OptionTokenText(seen));
    "Expected identifier, but found " + OptionTokenText(seen)
  }

  function UnexpectedInExpression(found: Token): (r: string)
    ensures NoBreak(r)
  {
    TokenNameIsOneLine(found);
    NoBreakAppend("Unexpected token in expression, ", TokenName(found));
    "Unexpected token in expression, " + TokenName(found)
  }

  /** The part of a message that comes before the span. */
  function MessageHead(e: ParserError): (h: string)
    requires !e.UnexpectedEof?
    ensures NoBreak(h)
  {
    match e
    case UnexpectedToken(expected, found, _) => ExpectedButFound(expected, found)
    case ExpectedIdentifier(seen, _) => ExpectedIdentifierButFound(seen)
    case UnexpectedExprToken(found, _) => UnexpectedInExpression(found)
  }

  /** The `Display` message of an error. Every message is a single line, and
      every message but the end-of-input one ends with the span it is about. */
  function Message(e: ParserError): (m: string)
    ensures NoBreak(m)
    ensures !e.UnexpectedEof? ==>
      |m| >= |SpanText(e.span)| + 4 && m[|m| - |SpanText(e.span)| - 4..] == " at " + SpanText(e.span)
  {
    if e.UnexpectedEof? then "Unexpected end of input"
    else
      var tail := " at " + SpanText(e.span);
      var m := MessageHead(e) + tail;
      assert m[|m| - |tail|..] == tail;
      m
  }

  // ---------------------------------------------------------------------------
  // Line and column of a byte offset

  /** Where line `k` starts when every line before it is followed by a
      one-byte terminator: the sum of `len + 1` over the earlier lines. */
  function LineStart(ls: seq<string>, k: nat): nat
    requires k <= |ls|
  {
    if k == 0 then 0 else LineStart(ls, k - 1) + |ls[k - 1]| + 1
  }

  lemma {:induction false} LineStartShift(ls: seq<string>, k: nat)
    requires 1 <= k <= |ls|
    ensures LineStart(ls, k) == |ls[0]| + 1 + LineStart(ls[1..], k - 1)
  {
    if k > 1 {
      LineStartShift(ls, k - 1);
      assert ls[1..][k - 2] == ls[k - 1];
    }
  }

  lemma {:induction false} LineStartMono(ls: seq<string>, i: nat, j: nat)
    requires i <= j <= |ls|
    ensures LineStart(ls, i) + (j - i) <= LineStart(ls, j)
    decreases j - i
  {
    if i < j {
      LineStartMono(ls, i, j - 1);
    }
  }

  /** The line whose range `[LineStart(k), LineStart(k + 1))` holds `offset`, if
      any line's does. */
  function Locate(ls: seq<string>, offset: nat): (r: Option<nat>)
    ensures r.Some? ==> r.value < |ls| && LineStart(ls, r.value) <= offset < LineStart(ls, r.value + 1)
    ensures r.None? ==> LineStart(ls, |ls|) <= offset
  {
    if ls == [] then None
    else if |ls[0]| + 1 > offset then Some(0)
    else
      match Locate(ls[1..], offset - |ls[0]| - 1)
      case Some(k) =>
        LineStartShift(ls, k + 1);
        LineStartShift(ls, k + 2);
        Some(k + 1)
      case None =>
        LineStartShift(ls, |ls|);
        None
  }

  /** At most one line's range holds an offset, so `Locate` finds exactly the
      line whose range holds it. */
  lemma LocateIs(ls: seq<string>, offset: nat, k: nat)
    requires k < |ls| && LineStart(ls, k) <= offset < LineStart(ls, k + 1)
    ensures Locate(ls, offset) == Some(k)
  {
    var r := Locate(ls, offset);
    if r.None? {
      LineStartMono(ls, k + 1, |ls|);
    } else if r.value < k {
      LineStartMono(ls, r.value + 1, k);
    } else if r.value > k {
      LineStartMono(ls, k + 1, r.value);
    }
  }

  /** No line follows the last one's range. */
  lemma LocateNone(ls: seq<string>, offset: nat)
    requires LineStart(ls, |ls|) <= offset
    ensures Locate(ls, offset) == None
  {
    var r := Locate(ls, offset);
    if r.Some? {
      LineStartMono(ls, r.value + 1, |ls|);
    }
  }

  /** No line reaches past the end of the text it was split from. */
  lemma {:induction false} LineWithinSource(s: string, k: nat)
    requires k < |Lines(s)|
    ensures LineStart(Lines(s), k) + |Lines(s)[k]| <= |s|
    decreases |s|
  {
    var n := NewlineIndex(s);
    if n < |s| && k > 0 {
      var rest := s[n + 1..];
      assert Lines(s) == [StripCR(s[..n])] + Lines(rest);
      assert Lines(s)[1..] == Lines(rest);
      LineStartShift(Lines(s), k);
      LineWithinSource(rest, k - 1);
    }
  }

  /** The 1-based line and column of `offset` and the offset where its line
      starts (`find_line_info`). The offset lies on the line whose range holds
      it; past every line the answer is the line after the last, column 1, at
      the end of the source. Line and column are never 0, so `col - 1` is a
      natural number. */
  function LineInfo(source: string, offset: nat): (r: (nat, nat, nat))
    ensures 1 <= r.0 <= |Lines(source)| + 1 && 1 <= r.1 && r.2 <= |source|
    ensures r.0 <= |Lines(source)| ==>
      && r.2 == LineStart(Lines(source), r.0 - 1)
      && r.2 <= offset < LineStart(Lines(source), r.0)
      && r.1 == offset - r.2 + 1
    ensures r.0 == |Lines(source)| + 1 ==>
      LineStart(Lines(source), |Lines(source)|) <= offset && r.1 == 1 && r.2 == |source|
  {
    var ls := Lines(source);
    match Locate(ls, offset)
    case Some(k) =>
      LineWithinSource(source, k);
      (k + 1, offset - LineStart(ls, k) + 1, LineStart(ls, k))
    case None => (|ls| + 1, 1, |source|)
  }

  /** `find_line_info`: walks the lines, accumulating where each starts, until
      the line whose range holds `offset`. */
  method FindLineInfo(source: string, offset: nat) returns (lineNum: nat, colNum: nat, lineStart: nat)
    ensures (lineNum, colNum, lineStart) == LineInfo(source, offset)
  {
    var lines := Lines(source);
    var start := 0;
    var num := 1;
    for idx := 0 to |lines|
      invariant start == LineStart(lines, idx) && start <= offset
      invariant num == idx + 1
    {
      var lineLen := |lines[idx]| + 1;
      if start + lineLen > offset {
        LocateIs(lines, offset, idx);
        return idx + 1, offset - start + 1, start;
      }
      start := start + lineLen;
      num := num + 1;
    }
    LocateNone(lines, offset);
    return num, 1, |source|;
  }

  // ---------------------------------------------------------------------------
  // Lines of a text without carriage returns sit where their offsets say

  lemma {:induction false} LinesCover(s: string)
    requires '\r' !in s
    ensures LineStart(Lines(s), |Lines(s)|) >= |s|
    decreases |s|
  {
    if s != [] {
      var n := NewlineIndex(s);
      if n == |s| {
        assert Lines(s) == [s];
      } else {
        var rest := s[n + 1..];
        assert forall c :: c in rest ==> c in s;
        assert Lines(s) == [StripCR(s[..n])] + Lines(rest);
        assert Lines(s)[1..] == Lines(rest);
        assert StripCR(s[..n]) == s[..n] by {
          if n > 0 { assert s[n - 1] in s; }
        }
        LinesCover(rest);
        LineStartShift(Lines(s), |Lines(s)|);
      }
    }
  }

  /** The first line of a text that starts with `l` and then a newline or its end. */
  lemma FirstLineIs(t: string, l: string)
    requires |l| <= |t| && t[..|l|] == l && '\n' !in l
    requires |l| < |t| ==> t[|l|] == '\n'
    requires |l| == 0 || l[|l| - 1] != '\r'
    ensures FirstLine(t) == l
  {
    if t != [] {
      var n := NewlineIndex(t);
      assert n == |l|;
    }
  }

  /** One step of `str::lines` on a text without carriage returns. */
  lemma LinesStep(s: string)
    requires '\r' !in s && s != []
    ensures NewlineIndex(s) == |s| ==> Lines(s) == [s]
    ensures NewlineIndex(s) < |s| ==>
      && Lines(s) == [s[..NewlineIndex(s)]] + Lines(s[NewlineIndex(s) + 1..])
      && '\r' !in s[NewlineIndex(s) + 1..]
  {
    var n := NewlineIndex(s);
    if n < |s| {
      var line, rest := s[..n], s[n + 1..];
      if n > 0 {
        assert line[n - 1] == s[n - 1] && s[n - 1] in s;
      }
      assert StripCR(line) == line;
      assert Lines(s) == [StripCR(line)] + Lines(rest);
      forall c | c in rest
        ensures c != '\r'
      {
        var i :| 0 <= i < |rest| && rest[i] == c;
        assert s[n + 1 + i] == c;
      }
    }
  }

  /** A line found at offset `b` of `s[n + 1..]` is found at `n + 1 + b` of `s`. */
  lemma SliceShift(s: string, n: nat, b: nat, l: string)
    requires n < |s| && b + |l| <= |s| - (n + 1) && s[n + 1..][b..b + |l|] == l
    requires b + |l| < |s| - (n + 1) ==> s[n + 1..][b + |l|] == '\n'
    ensures s[n + 1 + b..n + 1 + b + |l|] == l
    ensures n + 1 + b + |l| < |s| ==> s[n + 1 + b + |l|] == '\n'
  {
    forall i | 0 <= i < |l|
      ensures s[n + 1 + b + i] == l[i]
    {
      assert s[n + 1..][b..b + |l|][i] == l[i];
    }
  }

  /** `l` sits at offset `start` of `s`, followed by a newline or by the end of `s`. */
  predicate LineAt(s: string, start: nat, l: string) {
    && start + |l| <= |s|
    && s[start..start + |l|] == l
    && (start + |l| < |s| ==> s[start + |l|] == '\n')
  }

  /** Where line `k` of `s` sits, once line `k - 1` of `s[n + 1..]` is known
      to sit at `b` there: `s[..n]` is line 0 of `s`. */
  lemma LayoutShift(s: string, n: nat, ls: seq<string>, lr: seq<string>, k: nat)
    requires n < |s| && 0 < k < |ls| && ls == [s[..n]] + lr
    requires LineAt(s[n + 1..], LineStart(lr, k - 1), lr[k - 1])
    ensures LineAt(s, LineStart(ls, k), ls[k])
  {
    assert ls[1..] == lr;
    assert ls[k] == lr[k - 1];
    LineStartShift(ls, k);
    SliceShift(s, n, LineStart(lr, k - 1), lr[k - 1]);
  }

  /** Line 0 of a text without carriage returns starts it and runs to its first
      newline or to its end. */
  lemma LayoutFirst(s: string)
    requires '\r' !in s && s != []
    ensures LineAt(s, LineStart(Lines(s), 0), Lines(s)[0])
  {
    LinesStep(s);
  }

  /** In a text without carriage returns, line `k` is the text found at
      `LineStart(k)`, followed by a newline or by the end of the text. */
  lemma {:induction false} LinesLayout(s: string, k: nat)
    requires '\r' !in s && k < |Lines(s)|
    ensures LineAt(s, LineStart(Lines(s), k), Lines(s)[k])
    decreases |s|
  {
    if k == 0 {
      LayoutFirst(s);
    } else {
      LinesStep(s);
      var n := NewlineIndex(s);
      var rest := s[n + 1..];
      LinesLayout(rest, k - 1);
      LayoutShift(s, n, Lines(s), Lines(rest), k);
    }
  }

  /** The first line of the text from offset `a` on, when `l` sits at `a`
      followed by a newline or by the end of the text. */
  lemma FirstLineAt(s: string, a: nat, l: string)
    requires '\r' !in s && '\n' !in l && LineAt(s, a, l)
    ensures FirstLine(s[a..]) == l
  {
    assert s[a..][..|l|] == l;
    if |l| > 0 {
      assert l[|l| - 1] == s[a + |l| - 1];
      assert s[a + |l| - 1] in s;
    }
    FirstLineIs(s[a..], l);
  }

  /** The excerpt `pprint` prints for line `k` is that line. */
  lemma ExcerptIsLine(s: string, k: nat)
    requires '\r' !in s && k < |Lines(s)|
    ensures LineStart(Lines(s), k) <= |s|
    ensures FirstLine(s[LineStart(Lines(s), k)..]) == Lines(s)[k]
  {
    LinesLayout(s, k);
    LinesShape(s);
    FirstLineAt(s, LineStart(Lines(s), k), Lines(s)[k]);
  }

  /** An offset inside the range of a line that sits at `start`, and that is not
      on the newline closing it, falls on a character of that line. */
  lemma OffsetOnLine(source: string, offset: nat, start: nat, l: string)
    requires LineAt(source, start, l)
    requires start <= offset <= start + |l| && offset < |source| && source[offset] != '\n'
    ensures offset - start < |l| && l[offset - start] == source[offset]
  {
    assert offset != start + |l|;
    assert source[start..start + |l|][offset - start] == source[offset];
  }

  /** The caret `pprint` draws under column `column` of the printed `line`
      marks the character at `offset`. */
  predicate CaretMarks(source: string, offset: nat, line: string, column: nat)
    requires offset < |source|
  {
    1 <= column && column - 1 < |line| && line[column - 1] == source[offset]
  }

  /** In a text without carriage returns, an offset on a character other than a
      newline lies on a line, and its column picks out that very character of the
      line `pprint` prints. */
  lemma CaretUnderOffset(source: string, offset: nat)
    requires '\r' !in source && offset < |source| && source[offset] != '\n'
    ensures LineInfo(source, offset).0 <= |Lines(source)|
    ensures CaretMarks(source, offset, FirstLine(source[LineInfo(source, offset).2..]), LineInfo(source, offset).1)
  {
    var k := LineOfOffset(source, offset);
    CaretOnLine(source, offset, k);
  }

  /** An offset inside a text without carriage returns lies on line `k + 1`. */
  lemma LineOfOffset(source: string, offset: nat) returns (k: nat)
    requires '\r' !in source && offset < |source|
    ensures k < |Lines(source)|
    ensures LineStart(Lines(source), k) <= offset < LineStart(Lines(source), k + 1)
    ensures LineInfo(source, offset) == (k + 1, offset - LineStart(Lines(source), k) + 1, LineStart(Lines(source), k))
  {
    LinesCover(source);
    k := LineInfo(source, offset).0 - 1;
  }

  /** The same, for the line `k` whose range holds the offset. */
  lemma CaretOnLine(source: string, offset: nat, k: nat)
    requires '\r' !in source && offset < |source| && source[offset] != '\n'
    requires k < |Lines(source)|
    requires LineStart(Lines(source), k) <= offset < LineStart(Lines(source), k + 1)
    ensures LineStart(Lines(source), k) <= |source|
    ensures CaretMarks(source, offset, FirstLine(source[LineStart(Lines(source), k)..]),
                       offset - LineStart(Lines(source), k) + 1)
  {
    var ls := Lines(source);
    LinesLayout(source, k);
    ExcerptIsLine(source, k);
    OffsetOnLine(source, offset, LineStart(ls, k), ls[k]);
  }

  /** With `\r\n` line ends the lines lose their `\r` but the walk still counts
      one byte of terminator per line, so offsets drift: in `a\r\nb` the `b` at
      offset 3 is reported at column 2 of a line said to start at offset 2,
      which is the `\n`, not at column 1 of the line starting at offset 3. */
  lemma CrLfDrift()
    ensures Lines("a\r\nb") == ["a", "b"]
    ensures LineInfo("a\r\nb", 3) == (2, 2, 2)
    ensures FirstLine("a\r\nb"[2..]) == ""
  {
    var s := "a\r\nb";
    assert NewlineIndex(s) == 2;
    assert s[..2] == "a\r" && s[3..] == "b";
    assert NewlineIndex("b") == 1 && Lines("b") == ["b"];
    assert StripCR("a\r") == "a";
    assert Lines(s) == [StripCR(s[..2])] + Lines(s[3..]);
    assert s[2..] == "\nb";
    assert NewlineIndex("\nb") == 0;
    assert Lines("\nb") == [""] + Lines("b");
    LocateIs(["a", "b"], 3, 1);
  }

  // ---------------------------------------------------------------------------
  // The annotated report

  const Red := "\U{1B}[31m"
  const Blue := "\U{1B}[34m"
  const Reset := "\U{1B}[0m"

  /** The report for an error without a position: one fixed message and an
      unknown locator, with no source excerpt. */
  function EofReport(file: string): string {
    Red + "error" + Reset + ": Unexpected end of input\n --> " + file + ":??:??"
  }

  /** The five lines of a positioned report: summary, locator, gutter, numbered
      source line and caret line. */
  function ReportLines(msg: string, file: string, line: nat, col: nat, excerpt: string): seq<string>
    requires col >= 1
  {
    [ Red + "error" + Reset + ": " + msg,
      "  " + Blue + "-->" + Reset + " " + file + ":" + NatText(line) + ":" + NatText(col),
      "   " + Blue + "|" + Reset,
      Blue + PadLeft(NatText(line), 2) + " |" + Reset + " " + excerpt,
      "   " + Blue + "| " + Red + Spaces(col - 1) + "^" + Reset ]
  }

  /** The report for an error with a span: its line and column come from the
      span's start, and the excerpt is the line that starts there. */
  function Report(e: ParserError, source: string, file: string): seq<string>
    requires !e.UnexpectedEof?
  {
    var (line, col, start) := LineInfo(source, e.span.start);
    ReportLines(Message(e), file, line, col, FirstLine(source[start..]))
  }

  /** `pprint`: the fixed end-of-input message, or the five report lines each
      written with `writeln!`. */
  method Pprint(e: ParserError, source: string, file: string) returns (result: string)
    ensures e.UnexpectedEof? ==> result == EofReport(file)
    ensures !e.UnexpectedEof? ==> result == Terminated(Report(e, source, file))
  {
    if e.UnexpectedEof? {
      return EofReport(file);
    }
    var msg := Message(e);
    var lineNum, colNum, lineStart := FindLineInfo(source, e.span.start);
    var line := FirstLine(source[lineStart..]);
    var ls := ReportLines(msg, file, lineNum, colNum, line);
    result := "";
    result := result + ls[0] + "\n";
    result := result + ls[1] + "\n";
    result := result + ls[2] + "\n";
    result := result + ls[3] + "\n";
    result := result + ls[4] + "\n";
    FiveWrites(ls);
  }

  /** Five `writeln!` calls into an empty string leave the five lines, each
      terminated. */
  lemma FiveWrites(ls: seq<string>)
    requires |ls| == 5
    ensures "" + ls[0] + "\n" + ls[1] + "\n" + ls[2] + "\n" + ls[3] + "\n" + ls[4] + "\n" == Terminated(ls)
  {
    var acc := "";
    assert acc == Terminated(ls[..0]);
    TerminatedPrefix(ls, 0);
    acc := acc + ls[0] + "\n";
    TerminatedPrefix(ls, 1);
    acc := acc + ls[1] + "\n";
    TerminatedPrefix(ls, 2);
    acc := acc + ls[2] + "\n";
    TerminatedPrefix(ls, 3);
    acc := acc + ls[3] + "\n";
    TerminatedPrefix(ls, 4);
    acc := acc + ls[4] + "\n";
    assert ls[..5] == ls;
  }

  lemma ReportLinesNoBreak(msg: string, file: string, line: nat, col: nat, excerpt: string)
    requires col >= 1 && NoBreak(msg) && NoBreak(file) && NoBreak(excerpt)
    ensures |ReportLines(msg, file, line, col, excerpt)| == 5
    ensures forall k :: 0 <= k < 5 ==> NoBreak(ReportLines(msg, file, line, col, excerpt)[k])
  {
    DigitsOnly(NatText(line));
    DigitsOnly(NatText(col));
    var pad := PadLeft(NatText(line), 2);
    assert NoBreak(pad) by {
      assert forall c :: c in pad ==> c == ' ' || c in NatText(line);
    }
  }

  /** A positioned report is exactly five lines: `str::lines` gives back the five
      report lines, and the text holds five newlines, when neither the file label
      nor the source holds a carriage return or the label a newline. */
  lemma ReportIsFiveLines(e: ParserError, source: string, file: string)
    requires !e.UnexpectedEof? && NoBreak(file) && '\r' !in source
    ensures |Report(e, source, file)| == 5
    ensures Lines(Terminated(Report(e, source, file))) == Report(e, source, file)
    ensures CountChar(Terminated(Report(e, source, file)), '\n') == 5
  {
    var ls := Report(e, source, file);
    var (line, col, start) := LineInfo(source, e.span.start);
    ReportLinesNoBreak(Message(e), file, line, col, FirstLine(source[start..]));
    forall k | 0 <= k < 5 ensures PlainLine(ls[k]) {
      if |ls[k]| > 0 {
        assert ls[k][|ls[k]| - 1] in ls[k];
      }
    }
    LinesOfTerminated(ls);
    CountNewlinesTerminated(ls);
  }
}
