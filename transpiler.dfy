/** The back end: the rendering of a parsed function as C-like text.
    Expressions and statements render by structural recursion; the text of a
    function is built into one growing string, a line at a time. */
module Transpile {
  import opened Wrappers
  import opened StdText
  import opened Ast

  /** The C operator each binary operator is written as. */
  function OpSymbol(op: BinaryOp): (r: string)
    ensures |r| == 1 && r[0] in "+-*/"
  {
    match op
    case Add => "+"
    case Sub => "-"
    case Mul => "*"
    case Div => "/"
  }

  /** Distinct operators are written distinctly. */
  lemma OpSymbolInjective(a: BinaryOp, b: BinaryOp)
    requires OpSymbol(a) == OpSymbol(b)
    ensures a == b
  {
  }

  /** `transpile_expr`: a number in decimal, a variable by its name, and every
      binary node in parentheses, with a space on each side of its operator. */
  function TranspileExpr(e: Expr): (r: string)
    ensures e.Number? ==> ParseI64(r) == Some(e.n)
    ensures e.Binary? ==> |r| >= 2 && r[0] == '(' && r[|r| - 1] == ')'
  {
    match e
    case Number(n) => IntText(n)
    case Variable(x) => x
    case Binary(l, op, r) => "(" + TranspileExpr(l) + " " + OpSymbol(op) + " " + TranspileExpr(r) + ")"
  }

  /** `transpile_stmt`: a `let` as an `int` declaration, a `return` as is; both
      close with `;`. */
  function TranspileStmt(st: Stmt): (r: string)
    ensures |r| > 0 && r[|r| - 1] == ';'
  {
    match st
    case Let(x, e) => "int " + x + " = " + TranspileExpr(e) + ";"
    case Return(e) => "return " + TranspileExpr(e) + ";"
  }

  // ---------------------------------------------------------------------------
  // The text of a function

  /** `RET NAME() {`. */
  function Header(f: Function): string {
    f.returnType + " " + f.name + "() {"
  }

  /** A statement as it appears in the function: indented by four spaces. */
  function Indented(st: Stmt): string {
    "    " + TranspileStmt(st)
  }

  /** The indented lines of the statements, in order. */
  function StmtLines(body: seq<Stmt>): (ls: seq<string>)
    ensures |ls| == |body|
  {
    if body == [] then [] else StmtLines(body[..|body| - 1]) + [Indented(body[|body| - 1])]
  }

  lemma {:induction false} StmtLinesAt(body: seq<Stmt>, i: nat)
    requires i < |body|
    ensures StmtLines(body)[i] == Indented(body[i])
    decreases |body|
  {
    if i < |body| - 1 {
      StmtLinesAt(body[..|body| - 1], i);
    }
  }

  /** The lines of the function's text: its header, one line per statement in
      order, and the closing brace. */
  function RenderedLines(f: Function): seq<string> {
    [Header(f)] + StmtLines(f.body) + ["}"]
  }

  /** What `transpile_function` returns: each rendered line followed by a newline. */
  function FunctionText(f: Function): string {
    Terminated(RenderedLines(f))
  }

  lemma TerminatedSnoc(ls: seq<string>, l: string)
    ensures Terminated(ls + [l]) == Terminated(ls) + l + "\n"
  {
    TerminatedAppend(ls, [l]);
    assert [l][1..] == [];
  }

  /** The statement lines of a body one statement longer. */
  lemma StmtLinesSnoc(body: seq<Stmt>, i: nat)
    requires i < |body|
    ensures StmtLines(body[..i + 1]) == StmtLines(body[..i]) + [Indented(body[i])]
  {
    assert body[..i + 1][..i] == body[..i];
  }

  /** The text once the header and the first `i` statements are written. */
  function TextSoFar(f: Function, i: nat): string
    requires i <= |f.body|
  {
    Terminated([Header(f)] + StmtLines(f.body[..i]))
  }

  lemma TextSoFarStart(f: Function)
    ensures TextSoFar(f, 0) == f.returnType + " " + f.name + "() {\n"
  {
    assert f.body[..0] == [];
    assert [Header(f)] + StmtLines(f.body[..0]) == [] + [Header(f)];
    TerminatedSnoc([], Header(f));
  }

  lemma TextSoFarStep(f: Function, i: nat)
    requires i < |f.body|
    ensures TextSoFar(f, i + 1) == TextSoFar(f, i) + "    " + TranspileStmt(f.body[i]) + "\n"
  {
    var before := [Header(f)] + StmtLines(f.body[..i]);
    StmtLinesSnoc(f.body, i);
    assert [Header(f)] + StmtLines(f.body[..i + 1]) == before + [Indented(f.body[i])];
    TerminatedSnoc(before, Indented(f.body[i]));
  }

  lemma TextSoFarEnd(f: Function)
    ensures TextSoFar(f, |f.body|) + "}\n" == FunctionText(f)
  {
    assert f.body[..|f.body|] == f.body;
    TerminatedSnoc([Header(f)] + StmtLines(f.body), "}");
  }

  /** `transpile_function`: the header line, then each statement's line, then
      the closing brace, pushed in turn onto one string. */
  method TranspileFunction(f: Function) returns (output: string)
    ensures output == FunctionText(f)
  {
    output := "";
    output := output + (f.returnType + " " + f.name + "() {\n");
    TextSoFarStart(f);
    for i := 0 to |f.body|
      invariant output == TextSoFar(f, i)
    {
      var line := TranspileStmt(f.body[i]);
      output := output + "    ";
      output := output + line;
      output := output + "\n";
      TextSoFarStep(f, i);
    }
    output := output + "}\n";
    TextSoFarEnd(f);
  }

  // ---------------------------------------------------------------------------
  // Parentheses

  /** Opening minus closing parentheses in `s`. */
  function Depth(s: string): int {
    CountChar(s, '(') - CountChar(s, ')')
  }

  /** No prefix of `s` closes a parenthesis it has not opened, and `s` closes
      every one it opens. */
  predicate Balanced(s: string) {
    Depth(s) == 0 && forall k :: 0 <= k <= |s| ==> Depth(s[..k]) >= 0
  }

  predicate ParenFree(x: string) {
    '(' !in x && ')' !in x
  }

  lemma DepthAppend(a: string, b: string)
    ensures Depth(a + b) == Depth(a) + Depth(b)
  {
    CountCharAppend(a, b, '(');
    CountCharAppend(a, b, ')');
  }

  /** Text without parentheses is balanced. */
  lemma FlatBalanced(x: string)
    requires ParenFree(x)
    ensures Balanced(x) && CountChar(x, '(') == 0
  {
    forall k | 0 <= k <= |x|
      ensures Depth(x[..k]) == 0
    {
      assert forall c :: c in x[..k] ==> c in x;
      CountCharAbsent(x[..k], '(');
      CountCharAbsent(x[..k], ')');
    }
    assert x[..|x|] == x;
  }

  lemma BalancedConcat(a: string, b: string)
    requires Balanced(a) && Balanced(b)
    ensures Balanced(a + b)
  {
    DepthAppend(a, b);
    forall k | 0 <= k <= |a + b|
      ensures Depth((a + b)[..k]) >= 0
    {
      if k <= |a| {
        assert (a + b)[..k] == a[..k];
      } else {
        assert (a + b)[..k] == a + b[..k - |a|];
        assert a[..|a|] == a;
        DepthAppend(a, b[..k - |a|]);
      }
    }
  }

  /** Wrapping balanced text in one more pair keeps it balanced. */
  lemma WrapBalanced(x: string)
    requires Balanced(x)
    ensures Balanced("(" + x + ")")
  {
    var w := "(" + x + ")";
    assert CountChar("(", '(') == 1 && CountChar("(", ')') == 0 by {
      assert "("[..0] == "";
    }
    assert CountChar(")", '(') == 0 && CountChar(")", ')') == 1 by {
      assert ")"[..0] == "";
    }
    DepthAppend("(", x);
    DepthAppend("(" + x, ")");
    forall k | 0 <= k <= |w|
      ensures Depth(w[..k]) >= 0
    {
      if k == 0 {
        assert w[..k] == "";
      } else if k <= |x| + 1 {
        assert w[..k] == "(" + x[..k - 1];
        DepthAppend("(", x[..k - 1]);
      } else {
        assert w[..k] == w;
      }
    }
  }

  /** The text of an integer holds a sign and digits only. */
  lemma IntTextChars(n: int)
    ensures forall c :: c in IntText(n) ==> c == '-' || IsDigit(c)
  {
    if n < 0 {
      assert IntText(n) == "-" + NatText(-n);
    }
  }

  /** The rendered operator and the blanks around it hold no parentheses. */
  lemma OperatorFlat(op: BinaryOp)
    ensures ParenFree(" " + OpSymbol(op) + " ")
  {
  }

  /** A binary node's text is balanced when its operands' texts are, and
      holds one pair of parentheses more than they do together. */
  lemma BinaryBalanced(L: string, op: BinaryOp, R: string)
    requires Balanced(L) && Balanced(R)
    ensures Balanced("(" + L + " " + OpSymbol(op) + " " + R + ")")
    ensures CountChar("(" + L + " " + OpSymbol(op) + " " + R + ")", '(') == CountChar(L, '(') + 1 + CountChar(R, '(')
  {
    var mid := " " + OpSymbol(op) + " ";
    OperatorFlat(op);
    FlatBalanced(mid);
    BalancedConcat(L, mid);
    BalancedConcat(L + mid, R);
    var inner := L + mid + R;
    WrapBalanced(inner);
    assert "(" + L + " " + OpSymbol(op) + " " + R + ")" == "(" + inner + ")";
    CountCharAppend(L, mid, '(');
    CountCharAppend(L + mid, R, '(');
    CountCharAppend("(", inner, '(');
    CountCharAppend("(" + inner, ")", '(');
    assert CountChar("(", '(') == 1 && CountChar(")", '(') == 0 by {
      assert "("[..0] == "" && ")"[..0] == "";
    }
  }

  /** With parenthesis-free variable names, the rendering of an expression is
      balanced and holds exactly one pair of parentheses per binary node. */
  lemma {:induction false} ExprBalanced(e: Expr)
    requires VariablesSatisfy(e, ParenFree)
    ensures Balanced(TranspileExpr(e))
    ensures CountChar(TranspileExpr(e), '(') == BinaryCount(e)
    ensures CountChar(TranspileExpr(e), ')') == BinaryCount(e)
  {
    match e
    case Number(n) =>
      IntTextChars(n);
      FlatBalanced(IntText(n));
    case Variable(x) =>
      FlatBalanced(x);
    case Binary(l, op, r) =>
      ExprBalanced(l);
      ExprBalanced(r);
      BinaryBalanced(TranspileExpr(l), op, TranspileExpr(r));
  }

  // ---------------------------------------------------------------------------
  // The text determines the tree

  /** A variable name the text can be read back from: it starts with a letter
      or `_` and holds no blank and no parenthesis. */
  predicate Word(x: string) {
    && |x| > 0 && ('a' <= x[0] <= 'z' || 'A' <= x[0] <= 'Z' || x[0] == '_')
    && ' ' !in x && ParenFree(x)
  }

  /** What may follow an operand in the text of a binary node. */
  predicate Delimiter(c: char) {
    c == ' ' || c == ')'
  }

  /** The index of the first delimiter of `s`, or `|s|`. */
  function DelimiterIndex(s: string): (k: nat)
    ensures k <= |s|
  {
    if s == [] || Delimiter(s[0]) then 0 else 1 + DelimiterIndex(s[1..])
  }

  lemma {:induction false} DelimiterAfter(t: string, c: char, r: string)
    requires forall i :: 0 <= i < |t| ==> !Delimiter(t[i])
    requires Delimiter(c)
    ensures DelimiterIndex(t + [c] + r) == |t|
    decreases |t|
  {
    if t != [] {
      assert (t + [c] + r)[1..] == t[1..] + [c] + r;
      DelimiterAfter(t[1..], c, r);
    }
  }

  lemma Cancel(a: string, x: string, y: string)
    requires a + x == a + y
    ensures x == y
  {
    assert x == (a + x)[|a|..];
    assert y == (a + y)[|a|..];
  }

  lemma SameHead(a: string, x: string, b: string, y: string)
    requires a + x == b + y && |a| > 0 && |b| > 0
    ensures a[0] == b[0]
  {
    assert (a + x)[0] == a[0] && (b + y)[0] == b[0];
  }

  /** How the text of an expression starts: a binary node with `(`; a number
      with a sign or a digit; a variable with its name's first letter. */
  lemma TextHead(e: Expr)
    requires VariablesSatisfy(e, Word)
    ensures |TranspileExpr(e)| > 0
    ensures e.Binary? ==> TranspileExpr(e)[0] == '('
    ensures e.Number? ==> TranspileExpr(e)[0] == '-' || IsDigit(TranspileExpr(e)[0])
    ensures e.Variable? ==> TranspileExpr(e)[0] != '-' && !IsDigit(TranspileExpr(e)[0]) && TranspileExpr(e)[0] != '('
  {
    if e.Number? {
      IntTextChars(e.n);
      assert TranspileExpr(e)[0] in TranspileExpr(e);
    }
  }

  /** The text of a number or a variable holds no delimiter. */
  lemma PrimaryUndelimited(e: Expr)
    requires VariablesSatisfy(e, Word) && !e.Binary?
    ensures forall i :: 0 <= i < |TranspileExpr(e)| ==> !Delimiter(TranspileExpr(e)[i])
  {
    var t := TranspileExpr(e);
    if e.Number? {
      IntTextChars(e.n);
    }
    forall i | 0 <= i < |t|
      ensures !Delimiter(t[i])
    {
      assert t[i] in t;
    }
  }

  lemma Regroup(t: string, c: char, r: string)
    ensures t + [c] + r == t + ([c] + r)
  {
  }

  /** Two numbers or variables whose texts, each followed by a delimiter,
      begin the same string are equal. */
  lemma PrimaryPrefixFree(e1: Expr, c1: char, r1: string, e2: Expr, c2: char, r2: string)
    requires VariablesSatisfy(e1, Word) && VariablesSatisfy(e2, Word)
    requires !e1.Binary? && !e2.Binary?
    requires Delimiter(c1) && Delimiter(c2)
    requires TranspileExpr(e1) + [c1] + r1 == TranspileExpr(e2) + [c2] + r2
    ensures e1 == e2
  {
    var t1, t2 := TranspileExpr(e1), TranspileExpr(e2);
    TextHead(e1);
    TextHead(e2);
    PrimaryUndelimited(e1);
    PrimaryUndelimited(e2);
    DelimiterAfter(t1, c1, r1);
    DelimiterAfter(t2, c2, r2);
    var s := t1 + [c1] + r1;
    assert t1 == s[..|t1|];
    assert t2 == (t2 + [c2] + r2)[..|t2|];
    if e1.Number? && e2.Number? {
      assert ParseI64(t1) == Some(e1.n) && ParseI64(t2) == Some(e2.n);
    } else if e1.Number? || e2.Number? {
      assert false;
    }
  }

  /** The text of a binary node followed by `c` and `r`, cut after its `(`
      and after its left operand's text. */
  lemma BinaryText(e: Expr, c: char, r: string) returns (w: string)
    requires e.Binary?
    ensures TranspileExpr(e) + [c] + r == "(" + ((TranspileExpr(e.left) + [' ']) + w)
    ensures w == (OpSymbol(e.op) + " ") + (TranspileExpr(e.right) + [')'] + ([c] + r))
  {
    w := (OpSymbol(e.op) + " ") + (TranspileExpr(e.right) + [')'] + ([c] + r));
  }

  /** An operator followed by a blank is read back from the text. */
  lemma OperatorStep(op1: BinaryOp, k1: string, op2: BinaryOp, k2: string)
    requires (OpSymbol(op1) + " ") + k1 == (OpSymbol(op2) + " ") + k2
    ensures op1 == op2 && k1 == k2
  {
    SameHead(OpSymbol(op1) + " ", k1, OpSymbol(op2) + " ", k2);
    assert OpSymbol(op1) == [OpSymbol(op1)[0]] && OpSymbol(op2) == [OpSymbol(op2)[0]];
    OpSymbolInjective(op1, op2);
    Cancel(OpSymbol(op1) + " ", k1, k2);
  }

  /** The text of an operand, followed by a delimiter, marks where the operand
      ends: two expressions whose texts followed by delimiters begin the same
      string are the same expression. */
  lemma {:induction false} PrefixFree(e1: Expr, c1: char, r1: string, e2: Expr, c2: char, r2: string)
    requires VariablesSatisfy(e1, Word) && VariablesSatisfy(e2, Word)
    requires Delimiter(c1) && Delimiter(c2)
    requires TranspileExpr(e1) + [c1] + r1 == TranspileExpr(e2) + [c2] + r2
    ensures e1 == e2
    decreases e1, 1
  {
    var t1, t2 := TranspileExpr(e1), TranspileExpr(e2);
    TextHead(e1);
    TextHead(e2);
    Regroup(t1, c1, r1);
    Regroup(t2, c2, r2);
    SameHead(t1, [c1] + r1, t2, [c2] + r2);
    if !e1.Binary? && !e2.Binary? {
      PrimaryPrefixFree(e1, c1, r1, e2, c2, r2);
    } else if e1.Binary? && e2.Binary? {
      BinaryPrefixFree(e1, c1, r1, e2, c2, r2);
    } else {
      assert false;
    }
  }

  /** The binary case of `PrefixFree`: after the `(`, the left operands'
      texts are followed by a blank, and the right operands' by `)`. */
  lemma {:induction false} BinaryPrefixFree(e1: Expr, c1: char, r1: string, e2: Expr, c2: char, r2: string)
    requires VariablesSatisfy(e1, Word) && VariablesSatisfy(e2, Word)
    requires e1.Binary? && e2.Binary?
    requires TranspileExpr(e1) + [c1] + r1 == TranspileExpr(e2) + [c2] + r2
    ensures e1 == e2
    decreases e1, 0
  {
    var w1 := BinaryText(e1, c1, r1);
    var w2 := BinaryText(e2, c2, r2);
    var L1, L2 := TranspileExpr(e1.left), TranspileExpr(e2.left);
    Cancel("(", (L1 + [' ']) + w1, (L2 + [' ']) + w2);
    PrefixFree(e1.left, ' ', w1, e2.left, ' ', w2);
    Cancel(L1 + [' '], w1, w2);
    OperatorStep(e1.op, TranspileExpr(e1.right) + [')'] + ([c1] + r1), e2.op, TranspileExpr(e2.right) + [')'] + ([c2] + r2));
    PrefixFree(e1.right, ')', [c1] + r1, e2.right, ')', [c2] + r2);
  }

  /** With names that are words, distinct expressions render distinctly: the
      full parenthesisation records the grouping the parser built. */
  lemma TextDeterminesExpr(e1: Expr, e2: Expr)
    requires VariablesSatisfy(e1, Word) && VariablesSatisfy(e2, Word)
    requires TranspileExpr(e1) == TranspileExpr(e2)
    ensures e1 == e2
  {
    PrefixFree(e1, ' ', "", e2, ' ', "");
  }

  // ---------------------------------------------------------------------------
  // Lines

  predicate NoNewline(x: string) {
    '\n' !in x
  }

  /** With newline-free variable names, an expression renders on one line. */
  lemma {:induction false} ExprOneLine(e: Expr)
    requires VariablesSatisfy(e, NoNewline)
    ensures NoNewline(TranspileExpr(e))
  {
    match e
    case Number(n) =>
      IntTextChars(n);
    case Variable(x) =>
    case Binary(l, op, r) =>
      ExprOneLine(l);
      ExprOneLine(r);
  }

  /** A statement with newline-free names renders as a line `str::lines` gives
      back unchanged. */
  lemma StmtOneLine(st: Stmt)
    requires st.Let? ==> NoNewline(st.name)
    requires VariablesSatisfy(StmtExpr(st), NoNewline)
    ensures PlainLine(Indented(st))
  {
    ExprOneLine(StmtExpr(st));
    var r := Indented(st);
    assert r[|r| - 1] == ';';
  }

  lemma HeaderPlain(f: Function)
    requires NoNewline(f.name) && NoNewline(f.returnType)
    ensures PlainLine(Header(f))
  {
    var h := Header(f);
    assert h == f.returnType + " " + f.name + "() {";
    assert h[|h| - 1] == '{';
  }

  lemma StmtLinePlain(f: Function, j: nat)
    requires NamesSatisfy(f, NoNewline) && j < |f.body|
    ensures PlainLine(StmtLines(f.body)[j])
  {
    StmtLinesAt(f.body, j);
    StmtOneLine(f.body[j]);
  }

  lemma PlainConcat(a: seq<string>, b: seq<string>)
    requires forall k :: 0 <= k < |a| ==> PlainLine(a[k])
    requires forall k :: 0 <= k < |b| ==> PlainLine(b[k])
    ensures forall k :: 0 <= k < |a + b| ==> PlainLine((a + b)[k])
  {
    forall k | 0 <= k < |a + b|
      ensures PlainLine((a + b)[k])
    {
      if k >= |a| {
        assert (a + b)[k] == b[k - |a|];
      }
    }
  }

  /** With newline-free names, every rendered line is one `str::lines` gives
      back unchanged. */
  lemma RenderedPlain(f: Function)
    requires NamesSatisfy(f, NoNewline)
    ensures forall i :: 0 <= i < |RenderedLines(f)| ==> PlainLine(RenderedLines(f)[i])
  {
    var body := StmtLines(f.body);
    HeaderPlain(f);
    forall j | 0 <= j < |body|
      ensures PlainLine(body[j])
    {
      StmtLinePlain(f, j);
    }
    PlainConcat([Header(f)], body);
    PlainConcat([Header(f)] + body, ["}"]);
  }

  /** With newline-free names, the text of a function splits back into its
      rendered lines: the header, one line per statement, and the closing
      brace, so `|body| + 2` lines and as many newlines. */
  lemma FunctionTextLines(f: Function)
    requires NamesSatisfy(f, NoNewline)
    ensures Lines(FunctionText(f)) == RenderedLines(f)
    ensures |Lines(FunctionText(f))| == |f.body| + 2
    ensures CountChar(FunctionText(f), '\n') == |f.body| + 2
  {
    RenderedPlain(f);
    LinesOfTerminated(RenderedLines(f));
    CountNewlinesTerminated(RenderedLines(f));
  }
}
