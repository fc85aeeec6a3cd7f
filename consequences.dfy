/** What follows from the exact characterisation of `parse_function`: the
    parse never looks past the closing brace, consumes only tokens of the
    grammar, returns names that are identifiers, and yields trees whose C
    rendering has one line per statement and balanced parentheses. */
module Consequences {
  import opened Wrappers
  import opened StdText
  import opened Lexer
  import opened Ast
  import opened Diagnostics
  import opened Parsing
  import opened Grammar
  import opened Soundness
  import opened Transpile

  // ---------------------------------------------------------------------------
  // Nothing after the closing brace is examined

  /** Two streams show the cursor the same tokens and slices from `lo` up to `hi`. */
  predicate AgreeOn(s: TokenStream, t: TokenStream, lo: nat, hi: nat) {
    forall i :: lo <= i < hi ==> CurrAt(s, i) == CurrAt(t, i) && SliceAt(s, i) == SliceAt(t, i)
  }

  lemma {:induction false} DenotesAgree(s: TokenStream, t: TokenStream, pos: nat, ps: seq<Piece>)
    requires Denotes(s, pos, ps) && AgreeOn(s, t, pos, pos + |ps|)
    ensures Denotes(t, pos, ps)
    decreases |ps|
  {
    if ps != [] {
      assert CurrAt(s, pos) == CurrAt(t, pos) && SliceAt(s, pos) == SliceAt(t, pos);
      DenotesAgree(s, t, pos + 1, ps[1..]);
    }
  }

  /** `parse_function` gives the same function, stopping at the same place, on
      any stream that agrees with the tokens it consumed: whatever comes after
      the closing brace (more tokens, a scanning error or the end of input)
      makes no difference. */
  lemma FunctionIgnoresRest(s: TokenStream, t: TokenStream, pos: nat, f: Function, next: nat)
    requires NumbersFit(s) && NumbersFit(t)
    requires FunctionAt(s, pos) == Parsed(Ok(f), next) && AgreeOn(s, t, pos, next)
    ensures FunctionAt(t, pos) == Parsed(Ok(f), next)
  {
    FunctionParses(s, pos, f, next);
    DenotesAgree(s, t, pos, FunctionPieces(f));
    FunctionParses(t, pos, f, next);
  }

  // ---------------------------------------------------------------------------
  // Only tokens of the grammar are consumed

  /** The tokens some rule of the grammar accepts. */
  predicate GrammarToken(t: Token) {
    t in {Fn, Identifier, LeftParen, RightParen, Colon, LeftBrace, RightBrace,
          Token.Let, Equal, Semicolon, Token.Return, Token.Number, Plus, Minus, Star, Slash}
  }

  /** Every fixed piece of a spelling is a token of the grammar. */
  predicate GrammarPieces(ps: seq<Piece>) {
    forall i :: 0 <= i < |ps| && ps[i].Fixed? ==> GrammarToken(ps[i].token)
  }

  lemma GrammarPiecesAppend(a: seq<Piece>, b: seq<Piece>)
    requires GrammarPieces(a) && GrammarPieces(b)
    ensures GrammarPieces(a + b)
  {
    forall i | 0 <= i < |a + b| && (a + b)[i].Fixed?
      ensures GrammarToken((a + b)[i].token)
    {
      if i >= |a| {
        assert (a + b)[i] == b[i - |a|];
      }
    }
  }

  lemma {:induction false} ExprGrammar(e: Expr)
    ensures GrammarPieces(ExprPieces(e))
  {
    match e
    case Number(_) =>
    case Variable(_) =>
    case Binary(l, op, r) =>
      ExprGrammar(l);
      ExprGrammar(r);
      GrammarPiecesAppend(ExprPieces(l), [Fixed(OpToken(op))]);
      GrammarPiecesAppend(ExprPieces(l) + [Fixed(OpToken(op))], ExprPieces(r));
  }

  lemma StmtGrammar(st: Stmt)
    ensures GrammarPieces(StmtPieces(st))
  {
    ExprGrammar(StmtExpr(st));
    match st
    case Let(x, e) =>
      GrammarPiecesAppend([Fixed(Token.Let), Ident(x), Fixed(Equal)], ExprPieces(e));
      GrammarPiecesAppend([Fixed(Token.Let), Ident(x), Fixed(Equal)] + ExprPieces(e), [Fixed(Semicolon)]);
    case Return(e) =>
      GrammarPiecesAppend([Fixed(Token.Return)], ExprPieces(e));
      GrammarPiecesAppend([Fixed(Token.Return)] + ExprPieces(e), [Fixed(Semicolon)]);
  }

  lemma {:induction false} BodyGrammar(body: seq<Stmt>)
    ensures GrammarPieces(BodyPieces(body))
    decreases |body|
  {
    if body != [] {
      StmtGrammar(body[0]);
      BodyGrammar(body[1..]);
      GrammarPiecesAppend(StmtPieces(body[0]), BodyPieces(body[1..]));
    }
  }

  lemma FunctionGrammar(f: Function)
    ensures GrammarPieces(FunctionPieces(f))
  {
    BodyGrammar(f.body);
    GrammarPiecesAppend(HeaderPieces(f.name, f.returnType), BodyPieces(f.body));
    GrammarPiecesAppend(HeaderPieces(f.name, f.returnType) + BodyPieces(f.body), [Fixed(RightBrace)]);
  }

  /** A token the pieces of a spelling hold in place. */
  lemma DenotesToken(s: TokenStream, pos: nat, ps: seq<Piece>, i: nat)
    requires Denotes(s, pos, ps) && GrammarPieces(ps) && i < |ps|
    ensures CurrAt(s, pos + i).Some? && GrammarToken(CurrAt(s, pos + i).value)
  {
    DenotesAt(s, pos, ps, i);
  }

  /** A successful `parse_function` consumed a token at every position, each a
      token of the grammar: in particular none of the keywords `for`, `in`,
      `while`, `break`, `continue`, `if` and `else`, which the scanner
      recognises but no rule accepts, nor a scanning error. */
  lemma FunctionTokens(s: TokenStream, pos: nat, f: Function, next: nat)
    requires NumbersFit(s) && FunctionAt(s, pos) == Parsed(Ok(f), next)
    ensures forall i :: pos <= i < next ==> CurrAt(s, i).Some? && GrammarToken(CurrAt(s, i).value)
    ensures forall i :: pos <= i < next ==> CurrAt(s, i) !in {Some(For), Some(In), Some(While), Some(Break),
                                                               Some(Continue), Some(If), Some(Else)}
  {
    FunctionSound(s, pos, f, next);
    FunctionGrammar(f);
    forall i | pos <= i < next
      ensures CurrAt(s, i).Some? && GrammarToken(CurrAt(s, i).value)
      ensures CurrAt(s, i) !in {Some(For), Some(In), Some(While), Some(Break), Some(Continue), Some(If), Some(Else)}
    {
      DenotesToken(s, pos, FunctionPieces(f), i - pos);
    }
  }

  // ---------------------------------------------------------------------------
  // Parsed names are identifiers

  /** A name as the scanner hands it over: identifier text that is not a keyword. */
  predicate IsName(x: string) {
    IsIdentifierSlice(x) && forall k: Token :: IsKeyword(k) ==> FixedText(k) != Some(x)
  }

  /** Every identifier piece of a spelling names a name. */
  predicate NamedPieces(ps: seq<Piece>) {
    forall i :: 0 <= i < |ps| && ps[i].Ident? ==> IsName(ps[i].name)
  }

  lemma NamedPiecesSplit(a: seq<Piece>, b: seq<Piece>)
    requires NamedPieces(a + b)
    ensures NamedPieces(a) && NamedPieces(b)
  {
    forall i | 0 <= i < |b| && b[i].Ident?
      ensures IsName(b[i].name)
    {
      assert (a + b)[|a| + i] == b[i];
    }
    forall i | 0 <= i < |a| && a[i].Ident?
      ensures IsName(a[i].name)
    {
      assert (a + b)[i] == a[i];
    }
  }

  /** In a stream a scanner can produce, the identifier pieces a spelling
      holds in place are names. */
  lemma DenotesNamed(s: TokenStream, pos: nat, ps: seq<Piece>)
    requires LexicallyValid(s) && Denotes(s, pos, ps)
    ensures NamedPieces(ps)
  {
    forall i | 0 <= i < |ps| && ps[i].Ident?
      ensures IsName(ps[i].name)
    {
      DenotesAt(s, pos, ps, i);
      DenotesWithin(s, pos, ps);
      assert LexemeValid(s.items[pos + i]);
    }
  }

  lemma {:induction false} ExprNamed(e: Expr)
    requires NamedPieces(ExprPieces(e))
    ensures VariablesSatisfy(e, IsName)
  {
    match e
    case Number(_) =>
    case Variable(x) =>
      assert ExprPieces(e)[0] == Ident(x);
    case Binary(l, op, r) =>
      NamedPiecesSplit(ExprPieces(l) + [Fixed(OpToken(op))], ExprPieces(r));
      NamedPiecesSplit(ExprPieces(l), [Fixed(OpToken(op))]);
      ExprNamed(l);
      ExprNamed(r);
  }

  lemma StmtNamed(st: Stmt)
    requires NamedPieces(StmtPieces(st))
    ensures st.Let? ==> IsName(st.name)
    ensures VariablesSatisfy(StmtExpr(st), IsName)
  {
    match st
    case Let(x, e) =>
      var head := [Fixed(Token.Let), Ident(x), Fixed(Equal)];
      NamedPiecesSplit(head + ExprPieces(e), [Fixed(Semicolon)]);
      NamedPiecesSplit(head, ExprPieces(e));
      assert head[1] == Ident(x);
      ExprNamed(e);
    case Return(e) =>
      NamedPiecesSplit([Fixed(Token.Return)] + ExprPieces(e), [Fixed(Semicolon)]);
      NamedPiecesSplit([Fixed(Token.Return)], ExprPieces(e));
      ExprNamed(e);
  }

  lemma {:induction false} BodyNamed(body: seq<Stmt>)
    requires NamedPieces(BodyPieces(body))
    ensures forall i :: 0 <= i < |body| ==>
      (body[i].Let? ==> IsName(body[i].name)) && VariablesSatisfy(StmtExpr(body[i]), IsName)
    decreases |body|
  {
    if body != [] {
      NamedPiecesSplit(StmtPieces(body[0]), BodyPieces(body[1..]));
      StmtNamed(body[0]);
      BodyNamed(body[1..]);
      forall i | 1 <= i < |body|
        ensures (body[i].Let? ==> IsName(body[i].name)) && VariablesSatisfy(StmtExpr(body[i]), IsName)
      {
        assert body[i] == body[1..][i - 1];
      }
    }
  }

  /** In a stream a scanner can produce, every name of a parsed function (its
      own, its return type, each `let` and each variable) is identifier text
      and no keyword. */
  lemma FunctionNamed(s: TokenStream, pos: nat, f: Function, next: nat)
    requires NumbersFit(s) && LexicallyValid(s) && FunctionAt(s, pos) == Parsed(Ok(f), next)
    ensures NamesSatisfy(f, IsName)
  {
    FunctionParses(s, pos, f, next);
    var hp := HeaderPieces(f.name, f.returnType);
    DenotesNamed(s, pos, FunctionPieces(f));
    NamedPiecesSplit(hp + BodyPieces(f.body), [Fixed(RightBrace)]);
    NamedPiecesSplit(hp, BodyPieces(f.body));
    assert hp[1] == Ident(f.name) && hp[5] == Ident(f.returnType);
    BodyNamed(f.body);
  }

  // ---------------------------------------------------------------------------
  // From the parser to the C text

  /** A name holds neither a newline nor a parenthesis. */
  lemma NameIsPlain(x: string)
    requires IsName(x)
    ensures NoNewline(x) && ParenFree(x)
  {
    forall c | c in x
      ensures c != '\n' && c != '(' && c != ')'
    {
      var i :| 0 <= i < |x| && x[i] == c;
      assert i == 0 || IsIdentContinue(x[i]);
    }
  }

  lemma {:induction false} NamedExprPlain(e: Expr)
    requires VariablesSatisfy(e, IsName)
    ensures VariablesSatisfy(e, NoNewline) && VariablesSatisfy(e, ParenFree)
  {
    match e
    case Number(_) =>
    case Variable(x) =>
      NameIsPlain(x);
    case Binary(l, _, r) =>
      NamedExprPlain(l);
      NamedExprPlain(r);
  }

  /** The C text of a function parsed from a stream a scanner can produce has
      one line for the header, one per statement and one for the closing
      brace, and every statement's expression renders with balanced
      parentheses, one pair per binary node. */
  lemma ParsedFunctionRenders(s: TokenStream, pos: nat, f: Function, next: nat)
    requires NumbersFit(s) && LexicallyValid(s) && FunctionAt(s, pos) == Parsed(Ok(f), next)
    ensures Lines(FunctionText(f)) == RenderedLines(f) && |Lines(FunctionText(f))| == |f.body| + 2
    ensures forall i :: 0 <= i < |f.body| ==>
      Balanced(TranspileExpr(StmtExpr(f.body[i])))
      && CountChar(TranspileExpr(StmtExpr(f.body[i])), '(') == BinaryCount(StmtExpr(f.body[i]))
  {
    FunctionNamed(s, pos, f, next);
    NameIsPlain(f.name);
    NameIsPlain(f.returnType);
    forall i | 0 <= i < |f.body|
      ensures (f.body[i].Let? ==> NoNewline(f.body[i].name))
      ensures VariablesSatisfy(StmtExpr(f.body[i]), NoNewline)
      ensures Balanced(TranspileExpr(StmtExpr(f.body[i])))
      ensures CountChar(TranspileExpr(StmtExpr(f.body[i])), '(') == BinaryCount(StmtExpr(f.body[i]))
    {
      if f.body[i].Let? {
        NameIsPlain(f.body[i].name);
      }
      NamedExprPlain(StmtExpr(f.body[i]));
      ExprBalanced(StmtExpr(f.body[i]));
    }
    FunctionTextLines(f);
  }

  // ---------------------------------------------------------------------------
  // An empty body

  /** `{` followed at once by `}` gives a function with no statements. */
  lemma EmptyBody(s: TokenStream, pos: nat, name: string, returnType: string)
    requires NumbersFit(s) && Denotes(s, pos, HeaderPieces(name, returnType))
    requires CurrAt(s, pos + 7) == Some(RightBrace)
    ensures FunctionAt(s, pos) == Parsed(Ok(Function(name, returnType, [])), pos + 8)
  {
    var f := Function(name, returnType, []);
    var hp := HeaderPieces(name, returnType);
    assert Denotes(s, pos + 7, [Fixed(RightBrace)]);
    DenotesSplit(s, pos, hp, [Fixed(RightBrace)]);
    assert FunctionPieces(f) == hp + [Fixed(RightBrace)];
    assert StmtsFolded(f.body);
    FunctionComplete(s, pos, f);
  }

  // ---------------------------------------------------------------------------
  // No operator precedence

  /** `a + b * c` parses as `(a + b) * c`: the operators fold from left to
      right whatever their usual precedence. */
  lemma NoPrecedence(s: TokenStream, pos: nat, a: string, b: string, c: string)
    requires NumbersFit(s)
    requires Denotes(s, pos, [Ident(a), Fixed(Plus), Ident(b), Fixed(Star), Ident(c)])
    requires OpOf(CurrAt(s, pos + 5)).None?
    ensures ExprAt(s, pos) == Parsed(Ok(Binary(Binary(Variable(a), Add, Variable(b)), Mul, Variable(c))), pos + 5)
  {
    var sum := Binary(Variable(a), Add, Variable(b));
    var e := Binary(sum, Mul, Variable(c));
    assert ExprPieces(sum) == [Ident(a)] + [Fixed(Plus)] + [Ident(b)];
    assert ExprPieces(e) == ExprPieces(sum) + [Fixed(Star)] + [Ident(c)];
    assert ExprPieces(e) == [Ident(a), Fixed(Plus), Ident(b), Fixed(Star), Ident(c)];
    ExprComplete(s, pos, e);
  }

  /** `(1 + 2) * 3`, the tree `1 + 2 * 3` parses to. */
  function SumTimesThree(): Expr {
    Binary(Binary(Expr.Number(1), Add, Expr.Number(2)), Mul, Expr.Number(3))
  }

  lemma SumTimesThreeParses(s: TokenStream, pos: nat)
    requires NumbersFit(s)
    requires Denotes(s, pos, [Num(1), Fixed(Plus), Num(2), Fixed(Star), Num(3)])
    requires OpOf(CurrAt(s, pos + 5)).None?
    ensures ExprAt(s, pos) == Parsed(Ok(SumTimesThree()), pos + 5)
  {
    var e := SumTimesThree();
    assert ExprPieces(e.left) == [Num(1)] + [Fixed(Plus)] + [Num(2)];
    assert ExprPieces(e) == ExprPieces(e.left) + [Fixed(Star)] + [Num(3)];
    assert ExprPieces(e) == [Num(1), Fixed(Plus), Num(2), Fixed(Star), Num(3)];
    ExprComplete(s, pos, e);
  }

  lemma SumTimesThreeText()
    ensures TranspileExpr(SumTimesThree()) == "(" + "(" + "1" + " + " + "2" + ")" + " * " + "3" + ")"
  {
    assert IntText(1) == "1" && IntText(2) == "2" && IntText(3) == "3";
  }

  /** The stream `1 + 2 * 3` renders with the grouping written out, as
      `((1 + 2) * 3)`. */
  lemma NoPrecedenceRendered(s: TokenStream, pos: nat)
    requires NumbersFit(s)
    requires Denotes(s, pos, [Num(1), Fixed(Plus), Num(2), Fixed(Star), Num(3)])
    requires OpOf(CurrAt(s, pos + 5)).None?
    ensures ExprAt(s, pos).next == pos + 5 && ExprAt(s, pos).result.Ok?
    ensures TranspileExpr(ExprAt(s, pos).result.value) == "(" + "(" + "1" + " + " + "2" + ")" + " * " + "3" + ")"
  {
    SumTimesThreeParses(s, pos);
    SumTimesThreeText();
  }

  /** A name is a word the C text can be read back from. */
  lemma NameIsWord(x: string)
    requires IsName(x)
    ensures Word(x)
  {
    NameIsPlain(x);
    assert ' ' !in x by {
      forall i | 0 <= i < |x|
        ensures x[i] != ' '
      {
        assert i == 0 || IsIdentContinue(x[i]);
      }
    }
  }

  lemma {:induction false} NamedExprWord(e: Expr)
    requires VariablesSatisfy(e, IsName)
    ensures VariablesSatisfy(e, Word)
  {
    match e
    case Number(_) =>
    case Variable(x) =>
      NameIsWord(x);
    case Binary(l, _, r) =>
      NamedExprWord(l);
      NamedExprWord(r);
  }

  /** The C text of an expression parsed from a stream a scanner can produce
      determines the expression: the parentheses record the grouping the
      parser built, so no two parses render alike. */
  lemma ParsedExprTextDetermines(s: TokenStream, p: nat, e1: Expr, n1: nat, t: TokenStream, q: nat, e2: Expr, n2: nat)
    requires NumbersFit(s) && LexicallyValid(s) && ExprAt(s, p) == Parsed(Ok(e1), n1)
    requires NumbersFit(t) && LexicallyValid(t) && ExprAt(t, q) == Parsed(Ok(e2), n2)
    requires TranspileExpr(e1) == TranspileExpr(e2)
    ensures e1 == e2
  {
    ExprSound(s, p, e1, n1);
    ExprSound(t, q, e2, n2);
    DenotesNamed(s, p, ExprPieces(e1));
    DenotesNamed(t, q, ExprPieces(e2));
    ExprNamed(e1);
    ExprNamed(e2);
    NamedExprWord(e1);
    NamedExprWord(e2);
    TextDeterminesExpr(e1, e2);
  }

  // ---------------------------------------------------------------------------
  // How errors reach the caller

  /** A `let` followed by anything but an identifier fails on that token:
      `let 5` gives ExpectedIdentifier with the number token and its span. */
  lemma LetWithoutName(s: TokenStream, pos: nat)
    requires NumbersFit(s)
    requires CurrAt(s, pos) == Some(Token.Let) && CurrAt(s, pos + 1) != Some(Identifier)
    ensures StmtAt(s, pos) == Parsed(Err(ExpectedIdentifier(CurrAt(s, pos + 1), SpanAt(s, pos + 1))), pos + 1)
  {
    assert StmtAt(s, pos) == LetRestAt(s, pos + 1);
  }

  /** A statement that fails inside the body ends the loop with its error,
      left where the statement left it. */
  lemma BodyStmtFails(s: TokenStream, pos: nat, acc: seq<Stmt>)
    requires NumbersFit(s) && pos <= |s.items|
    requires CurrAt(s, pos).Some? && CurrAt(s, pos) != Some(RightBrace)
    requires StmtAt(s, pos).result.Err?
    ensures BodyFrom(s, pos, acc) == Parsed(Err(StmtAt(s, pos).result.error), StmtAt(s, pos).next)
  {
  }

  /** Every error of the statement loop is the error of one statement, at a
      position the loop reached: the loop adds no error of its own. */
  lemma {:induction false} BodyErrorSource(s: TokenStream, pos: nat, acc: seq<Stmt>) returns (q: nat)
    requires NumbersFit(s) && pos <= |s.items|
    requires BodyFrom(s, pos, acc).result.Err?
    ensures pos <= q < |s.items|
    ensures CurrAt(s, q).Some? && CurrAt(s, q) != Some(RightBrace)
    ensures StmtAt(s, q).result.Err?
    ensures BodyFrom(s, pos, acc) == Parsed(Err(StmtAt(s, q).result.error), StmtAt(s, q).next)
    decreases |s.items| - pos
  {
    var st := StmtAt(s, pos);
    if st.result.Err? {
      q := pos;
    } else {
      q := BodyErrorSource(s, st.next, acc + [st.result.value]);
    }
  }

  /** `parse_function` fails with the header's error, or with the error of a
      statement of the body, or with UnexpectedEof where the tokens end
      before the closing `}`; nothing else. */
  lemma FunctionErrorSource(s: TokenStream, pos: nat) returns (q: nat)
    requires NumbersFit(s) && FunctionAt(s, pos).result.Err?
    ensures var r := FunctionAt(s, pos);
      || (HeaderAt(s, pos).result.Err? && r == Fail(HeaderAt(s, pos)))
      || (&& HeaderAt(s, pos).result.Ok? && pos + 7 <= q < |s.items|
          && CurrAt(s, q).Some? && CurrAt(s, q) != Some(RightBrace) && StmtAt(s, q).result.Err?
          && r == Parsed(Err(StmtAt(s, q).result.error), StmtAt(s, q).next))
      || (&& HeaderAt(s, pos).result.Ok? && BodyFrom(s, pos + 7, []).result.Ok?
          && r == Parsed(Err(UnexpectedEof), BodyFrom(s, pos + 7, []).next)
          && CurrAt(s, r.next).None?)
  {
    q := pos;
    var header := HeaderAt(s, pos);
    if header.result.Ok? {
      var body := BodyFrom(s, pos + 7, []);
      if body.result.Err? {
        q := BodyErrorSource(s, pos + 7, []);
      }
    }
  }

  /** `let x = 1 }` fails on the `}`. */
  lemma LetBeforeBrace(s: TokenStream, p: nat)
    requires NumbersFit(s)
    requires Denotes(s, p, [Fixed(Token.Let), Ident("x"), Fixed(Equal), Num(1), Fixed(RightBrace)])
    ensures StmtAt(s, p) == Parsed(Err(UnexpectedToken(Semicolon, RightBrace, SpanAt(s, p + 4))), p + 4)
  {
    var ps := [Fixed(Token.Let), Ident("x"), Fixed(Equal), Num(1), Fixed(RightBrace)];
    DenotesAt(s, p, ps, 0);
    DenotesAt(s, p, ps, 1);
    DenotesAt(s, p, ps, 2);
    DenotesAt(s, p, ps, 3);
    DenotesAt(s, p, ps, 4);
    assert Denotes(s, p + 3, [Num(1)]);
    assert ExprPieces(Expr.Number(1)) == [Num(1)];
    ExprComplete(s, p + 3, Expr.Number(1));
    LetMissingSemicolon(s, p, "x", Expr.Number(1), p + 4);
  }

  /** `fn f(): int { let x = 1 }`: the missing `;` surfaces from
      `parse_function` as UnexpectedToken naming `;`, the `}` found instead
      and its span, with the cursor left on the `}`. */
  lemma MissingSemicolonFunction(s: TokenStream, pos: nat)
    requires NumbersFit(s)
    requires Denotes(s, pos, HeaderPieces("f", "int"))
    requires Denotes(s, pos + 7, [Fixed(Token.Let), Ident("x"), Fixed(Equal), Num(1), Fixed(RightBrace)])
    ensures FunctionAt(s, pos) == Parsed(Err(UnexpectedToken(Semicolon, RightBrace, SpanAt(s, pos + 11))), pos + 11)
  {
    HeaderComplete(s, pos, "f", "int");
    LetBeforeBrace(s, pos + 7);
    DenotesAt(s, pos + 7, [Fixed(Token.Let), Ident("x"), Fixed(Equal), Num(1), Fixed(RightBrace)], 0);
    DenotesWithin(s, pos + 7, [Fixed(Token.Let), Ident("x"), Fixed(Equal), Num(1), Fixed(RightBrace)]);
    BodyStmtFails(s, pos + 7, []);
  }

  // ---------------------------------------------------------------------------
  // A missing semicolon

  /** A `let` whose expression is followed by anything but `;` fails there:
      with UnexpectedToken naming `;`, the token found and its span, or with
      UnexpectedEof where no token is. */
  lemma LetMissingSemicolon(s: TokenStream, pos: nat, x: string, e: Expr, n: nat)
    requires NumbersFit(s)
    requires CurrAt(s, pos) == Some(Token.Let)
    requires CurrAt(s, pos + 1) == Some(Identifier) && CurrAt(s, pos + 2) == Some(Equal)
    requires ExprAt(s, pos + 3) == Parsed(Ok(e), n) && CurrAt(s, n) != Some(Semicolon)
    ensures CurrAt(s, n).Some? ==>
      StmtAt(s, pos) == Parsed(Err(UnexpectedToken(Semicolon, CurrAt(s, n).value, SpanAt(s, n))), n)
    ensures CurrAt(s, n).None? ==> StmtAt(s, pos) == Parsed(Err(UnexpectedEof), n)
  {
    assert StmtAt(s, pos) == LetRestAt(s, pos + 1);
  }

  /** The same for a `return`. */
  lemma ReturnMissingSemicolon(s: TokenStream, pos: nat, e: Expr, n: nat)
    requires NumbersFit(s)
    requires CurrAt(s, pos) == Some(Token.Return)
    requires ExprAt(s, pos + 1) == Parsed(Ok(e), n) && CurrAt(s, n) != Some(Semicolon)
    ensures CurrAt(s, n).Some? ==>
      StmtAt(s, pos) == Parsed(Err(UnexpectedToken(Semicolon, CurrAt(s, n).value, SpanAt(s, n))), n)
    ensures CurrAt(s, n).None? ==> StmtAt(s, pos) == Parsed(Err(UnexpectedEof), n)
  {
    assert StmtAt(s, pos) == ReturnRestAt(s, pos + 1);
  }

  // ---------------------------------------------------------------------------
  // The fixed statement shape

  /** Four lines, each written with a final newline. */
  lemma TerminatedFour(a: string, b: string, c: string, d: string)
    ensures Terminated([a, b, c, d]) == a + "\n" + b + "\n" + c + "\n" + d + "\n"
  {
    assert [d][1..] == [] && [c, d][1..] == [d] && [b, c, d][1..] == [c, d] && [a, b, c, d][1..] == [b, c, d];
    assert Terminated([d]) == d + "\n";
    assert Terminated([c, d]) == c + "\n" + (d + "\n");
    assert Terminated([b, c, d]) == b + "\n" + (c + "\n" + (d + "\n"));
    assert Terminated([a, b, c, d]) == a + "\n" + (b + "\n" + (c + "\n" + (d + "\n")));
  }

  /** `fn f(): int { let x = 1; return x; }`. */
  function LetReturnFunction(): Function {
    Function("f", "int", [Stmt.Let("x", Expr.Number(1)), Stmt.Return(Variable("x"))])
  }

  lemma LetReturnLines()
    ensures RenderedLines(LetReturnFunction()) == ["int f() {", "    int x = 1;", "    return x;", "}"]
  {
    var f := LetReturnFunction();
    assert IntText(1) == "1";
    assert Header(f) == "int f() {";
    assert Indented(f.body[0]) == "    int x = 1;";
    assert Indented(f.body[1]) == "    return x;";
    assert StmtLines(f.body) == [Indented(f.body[0]), Indented(f.body[1])] by {
      StmtLinesAt(f.body, 0);
      StmtLinesAt(f.body, 1);
    }
  }

  /** The function renders as a C function of four lines. */
  lemma LetReturnText()
    ensures FunctionText(LetReturnFunction()) ==
      "int f() {" + "\n" + "    int x = 1;" + "\n" + "    return x;" + "\n" + "}" + "\n"
  {
    LetReturnLines();
    TerminatedFour("int f() {", "    int x = 1;", "    return x;", "}");
  }
}
