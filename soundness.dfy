/** Soundness of the parser: a successful parse returns a tree the parser can
    build, the tokens it consumed spell that tree, and it stops right after
    them. Together with completeness this characterises `parse_function`
    exactly, and shows what it never does: look past the closing brace, accept
    a token outside the grammar, or return a name that is not an identifier. */
module Soundness {
  import opened Wrappers
  import opened StdText
  import opened Lexer
  import opened Ast
  import opened Diagnostics
  import opened Parsing
  import opened Grammar

  // ---------------------------------------------------------------------------
  // Building spellings one piece at a time

  lemma DenotesCons(s: TokenStream, pos: nat, p: Piece, ps: seq<Piece>)
    requires PieceAt(s, pos, p) && Denotes(s, pos + 1, ps)
    ensures Denotes(s, pos, [p] + ps)
  {
    assert ([p] + ps)[1..] == ps;
  }

  lemma DenotesSnoc(s: TokenStream, pos: nat, ps: seq<Piece>, p: Piece)
    requires Denotes(s, pos, ps) && PieceAt(s, pos + |ps|, p)
    ensures Denotes(s, pos, ps + [p])
  {
    DenotesCons(s, pos + |ps|, p, []);
    assert [p] + [] == [p];
    DenotesSplit(s, pos, ps, [p]);
  }

  // ---------------------------------------------------------------------------
  // One step of each routine, read off its definition

  lemma PrimarySound(s: TokenStream, pos: nat, e: Expr, next: nat)
    requires NumbersFit(s) && PrimaryAt(s, pos) == Parsed(Ok(e), next)
    ensures IsPrimary(e) && PieceAt(s, pos, PrimaryPiece(e)) && next == pos + 1
  {
  }

  /** A round of the operator loop that ends in a parse: the primary after
      the operator parses, and the loop goes on two tokens later with it
      folded in. */
  lemma TailStep(s: TokenStream, left: Expr, pos: nat, op: BinaryOp, e: Expr, end: nat)
      returns (right: Expr)
    requires NumbersFit(s) && pos <= |s.items| && OpOf(CurrAt(s, pos)) == Some(op)
    requires ExprTailAt(s, left, pos) == Parsed(Ok(e), end)
    ensures PrimaryAt(s, pos + 1) == Parsed(Ok(right), pos + 2) && pos + 2 <= |s.items|
    ensures ExprTailAt(s, Binary(left, op, right), pos + 2) == Parsed(Ok(e), end)
  {
    right := PrimaryAt(s, pos + 1).result.value;
  }

  /** The operator loop where no operator follows returns what it has. */
  lemma TailStop(s: TokenStream, left: Expr, start: nat, pos: nat, e: Expr, end: nat)
    requires NumbersFit(s) && pos <= |s.items| && OpOf(CurrAt(s, pos)).None?
    requires SpellsExpr(s, start, left, pos)
    requires ExprTailAt(s, left, pos) == Parsed(Ok(e), end)
    ensures e == left && end == pos
    ensures SpellsExpr(s, start, e, end)
  {
  }

  /** Folding one more operator and primary onto a spelled expression spells
      the larger expression. */
  lemma FoldSpelled(s: TokenStream, start: nat, left: Expr, mid: nat, op: BinaryOp, right: Expr)
    requires SpellsExpr(s, start, left, mid) && IsPrimary(right)
    requires CurrAt(s, mid) == Some(OpToken(op)) && PieceAt(s, mid + 1, PrimaryPiece(right))
    ensures SpellsExpr(s, start, Binary(left, op, right), mid + 2)
  {
    var lp := ExprPieces(left);
    DenotesSnoc(s, start, lp, Fixed(OpToken(op)));
    DenotesSnoc(s, start, lp + [Fixed(OpToken(op))], PrimaryPiece(right));
    assert ExprPieces(right) == [PrimaryPiece(right)];
  }

  /** The operator loop, started after a spelled left operand, ends on a tree
      the parser can build, spelled by everything consumed since `start`. */
  lemma {:induction false} TailSound(s: TokenStream, left: Expr, start: nat, pos: nat, e: Expr, end: nat)
    requires NumbersFit(s) && pos <= |s.items| && SpellsExpr(s, start, left, pos)
    requires ExprTailAt(s, left, pos) == Parsed(Ok(e), end)
    ensures SpellsExpr(s, start, e, end)
    decreases |s.items| - pos
  {
    match OpOf(CurrAt(s, pos))
    case None =>
      TailStop(s, left, start, pos, e, end);
    case Some(op) =>
      var right := TailSpelled(s, left, start, pos, op, e, end);
      TailSound(s, Binary(left, op, right), start, pos + 2, e, end);
  }

  /** A round of the operator loop ending in a parse extends the spelled
      left operand by the operator and the primary after it. */
  lemma TailSpelled(s: TokenStream, left: Expr, start: nat, pos: nat, op: BinaryOp, e: Expr, end: nat)
      returns (right: Expr)
    requires NumbersFit(s) && pos <= |s.items| && SpellsExpr(s, start, left, pos)
    requires OpOf(CurrAt(s, pos)) == Some(op) && ExprTailAt(s, left, pos) == Parsed(Ok(e), end)
    ensures pos + 2 <= |s.items| && SpellsExpr(s, start, Binary(left, op, right), pos + 2)
    ensures ExprTailAt(s, Binary(left, op, right), pos + 2) == Parsed(Ok(e), end)
  {
    right := TailStep(s, left, pos, op, e, end);
    PrimarySound(s, pos + 1, right, pos + 2);
    FoldSpelled(s, start, left, pos, op, right);
  }

  /** A parsed expression starts with a parsed primary. */
  lemma ExprStep(s: TokenStream, pos: nat, e: Expr, end: nat) returns (first: Expr)
    requires NumbersFit(s) && ExprAt(s, pos) == Parsed(Ok(e), end)
    ensures PrimaryAt(s, pos) == Parsed(Ok(first), pos + 1) && pos + 1 <= |s.items|
    ensures ExprTailAt(s, first, pos + 1) == Parsed(Ok(e), end)
  {
    first := PrimaryAt(s, pos).result.value;
  }

  /** `parse_expr` succeeds only on a primary followed by operator and primary
      pairs, and returns their left fold, stopping right after them. */
  lemma ExprSound(s: TokenStream, pos: nat, e: Expr, end: nat)
    requires NumbersFit(s) && ExprAt(s, pos) == Parsed(Ok(e), end)
    ensures SpellsExpr(s, pos, e, end)
  {
    var first := ExprStep(s, pos, e, end);
    PrimarySound(s, pos, first, pos + 1);
    DenotesCons(s, pos, PrimaryPiece(first), []);
    assert ExprPieces(first) == [PrimaryPiece(first)] + [];
    TailSound(s, first, pos, pos + 1, e, end);
  }

  // ---------------------------------------------------------------------------
  // Statements

  /** What a successful rest of a `let` statement consumed. */
  lemma LetRestStep(s: TokenStream, pos: nat, st: Stmt, end: nat) returns (e: Expr, n: nat)
    requires NumbersFit(s) && LetRestAt(s, pos) == Parsed(Ok(st), end)
    ensures CurrAt(s, pos) == Some(Identifier) && CurrAt(s, pos + 1) == Some(Equal)
    ensures ExprAt(s, pos + 2) == Parsed(Ok(e), n) && CurrAt(s, n) == Some(Semicolon)
    ensures st == Stmt.Let(SliceAt(s, pos), e) && end == n + 1
  {
    e, n := ExprAt(s, pos + 2).result.value, ExprAt(s, pos + 2).next;
  }

  /** What a successful `let` statement consumed. */
  lemma LetStep(s: TokenStream, pos: nat, st: Stmt, end: nat) returns (e: Expr, n: nat)
    requires NumbersFit(s) && CurrAt(s, pos) == Some(Token.Let) && StmtAt(s, pos) == Parsed(Ok(st), end)
    ensures CurrAt(s, pos + 1) == Some(Identifier) && CurrAt(s, pos + 2) == Some(Equal)
    ensures ExprAt(s, pos + 3) == Parsed(Ok(e), n) && CurrAt(s, n) == Some(Semicolon)
    ensures st == Stmt.Let(SliceAt(s, pos + 1), e) && end == n + 1
  {
    assert StmtAt(s, pos) == LetRestAt(s, pos + 1);
    e, n := LetRestStep(s, pos + 1, st, end);
  }

  /** What a successful rest of a `return` statement consumed. */
  lemma ReturnRestStep(s: TokenStream, pos: nat, st: Stmt, end: nat) returns (e: Expr, n: nat)
    requires NumbersFit(s) && ReturnRestAt(s, pos) == Parsed(Ok(st), end)
    ensures ExprAt(s, pos) == Parsed(Ok(e), n) && CurrAt(s, n) == Some(Semicolon)
    ensures st == Stmt.Return(e) && end == n + 1
  {
    e, n := ExprAt(s, pos).result.value, ExprAt(s, pos).next;
  }

  /** What a successful `return` statement consumed. */
  lemma ReturnStep(s: TokenStream, pos: nat, st: Stmt, end: nat) returns (e: Expr, n: nat)
    requires NumbersFit(s) && CurrAt(s, pos) == Some(Token.Return) && StmtAt(s, pos) == Parsed(Ok(st), end)
    ensures ExprAt(s, pos + 1) == Parsed(Ok(e), n) && CurrAt(s, n) == Some(Semicolon)
    ensures st == Stmt.Return(e) && end == n + 1
  {
    assert StmtAt(s, pos) == ReturnRestAt(s, pos + 1);
    e, n := ReturnRestStep(s, pos + 1, st, end);
  }

  lemma LetSpelled(s: TokenStream, pos: nat, x: string, e: Expr, n: nat)
    requires CurrAt(s, pos) == Some(Token.Let)
    requires CurrAt(s, pos + 1) == Some(Identifier) && SliceAt(s, pos + 1) == x
    requires CurrAt(s, pos + 2) == Some(Equal)
    requires SpellsExpr(s, pos + 3, e, n) && CurrAt(s, n) == Some(Semicolon)
    ensures SpellsStmt(s, pos, Stmt.Let(x, e), n + 1)
  {
    var ep := ExprPieces(e);
    var head := [Fixed(Token.Let), Ident(x), Fixed(Equal)];
    DenotesCons(s, pos + 2, Fixed(Equal), []);
    DenotesCons(s, pos + 1, Ident(x), [Fixed(Equal)] + []);
    DenotesCons(s, pos, Fixed(Token.Let), [Ident(x)] + ([Fixed(Equal)] + []));
    assert [Fixed(Token.Let)] + ([Ident(x)] + ([Fixed(Equal)] + [])) == head;
    DenotesSplit(s, pos, head, ep);
    DenotesSnoc(s, pos, head + ep, Fixed(Semicolon));
  }

  lemma ReturnSpelled(s: TokenStream, pos: nat, e: Expr, n: nat)
    requires CurrAt(s, pos) == Some(Token.Return)
    requires SpellsExpr(s, pos + 1, e, n) && CurrAt(s, n) == Some(Semicolon)
    ensures SpellsStmt(s, pos, Stmt.Return(e), n + 1)
  {
    var ep := ExprPieces(e);
    DenotesCons(s, pos, Fixed(Token.Return), ep);
    DenotesSnoc(s, pos, [Fixed(Token.Return)] + ep, Fixed(Semicolon));
  }

  lemma LetSound(s: TokenStream, pos: nat, st: Stmt, end: nat)
    requires NumbersFit(s) && CurrAt(s, pos) == Some(Token.Let) && StmtAt(s, pos) == Parsed(Ok(st), end)
    ensures SpellsStmt(s, pos, st, end)
  {
    var e, n := LetStep(s, pos, st, end);
    ExprSound(s, pos + 3, e, n);
    LetSpelled(s, pos, SliceAt(s, pos + 1), e, n);
  }

  lemma ReturnSound(s: TokenStream, pos: nat, st: Stmt, end: nat)
    requires NumbersFit(s) && CurrAt(s, pos) == Some(Token.Return) && StmtAt(s, pos) == Parsed(Ok(st), end)
    ensures SpellsStmt(s, pos, st, end)
  {
    var e, n := ReturnStep(s, pos, st, end);
    ExprSound(s, pos + 1, e, n);
    ReturnSpelled(s, pos, e, n);
  }

  /** `parse_stmt` succeeds only on `let IDENT = expr ;` or `return expr ;`,
      returning the statement they spell and stopping right after the `;`. */
  lemma StmtSound(s: TokenStream, pos: nat, st: Stmt, end: nat)
    requires NumbersFit(s) && CurrAt(s, pos).Some? && StmtAt(s, pos) == Parsed(Ok(st), end)
    ensures SpellsStmt(s, pos, st, end)
  {
    if CurrAt(s, pos) == Some(Token.Let) {
      LetSound(s, pos, st, end);
    } else {
      ReturnSound(s, pos, st, end);
    }
  }

  // ---------------------------------------------------------------------------
  // Bodies and functions

  /** A round of the statement loop, on a token other than `}`, that ends in
      a parse. */
  lemma BodyStep(s: TokenStream, pos: nat, acc: seq<Stmt>, all: seq<Stmt>, end: nat)
    requires NumbersFit(s) && pos <= |s.items| && BodyFrom(s, pos, acc) == Parsed(Ok(all), end)
    requires CurrAt(s, pos).Some? && CurrAt(s, pos) != Some(RightBrace)
    ensures StmtAt(s, pos).result.Ok? && StmtAt(s, pos).next <= |s.items|
    ensures BodyFrom(s, StmtAt(s, pos).next, acc + [StmtAt(s, pos).result.value]) == Parsed(Ok(all), end)
  {
  }

  /** The statement loop on `}` or where no token is. */
  lemma BodyStop(s: TokenStream, pos: nat, acc: seq<Stmt>)
    requires NumbersFit(s) && pos <= |s.items|
    requires CurrAt(s, pos).None? || CurrAt(s, pos) == Some(RightBrace)
    ensures BodyFrom(s, pos, acc) == Parsed(Ok(acc), pos)
  {
  }

  lemma StmtsFoldedCons(st: Stmt, rest: seq<Stmt>)
    requires LeftFolded(StmtExpr(st)) && StmtsFolded(rest)
    ensures StmtsFolded([st] + rest)
  {
    assert forall i :: 0 < i < |[st] + rest| ==> ([st] + rest)[i] == rest[i - 1];
  }

  lemma BodyPiecesCons(st: Stmt, rest: seq<Stmt>)
    ensures BodyPieces([st] + rest) == StmtPieces(st) + BodyPieces(rest)
  {
    assert ([st] + rest)[1..] == rest;
  }

  /** A spelled statement followed by spelled statements spells them all. */
  lemma BodyCons(s: TokenStream, pos: nat, st: Stmt, mid: nat, rest: seq<Stmt>, end: nat)
    requires SpellsStmt(s, pos, st, mid) && SpellsStmts(s, mid, rest, end)
    ensures SpellsStmts(s, pos, [st] + rest, end)
  {
    StmtsFoldedCons(st, rest);
    BodyPiecesCons(st, rest);
    DenotesSplit(s, pos, StmtPieces(st), BodyPieces(rest));
  }

  lemma SliceAfter<T>(all: seq<T>, acc: seq<T>, x: T)
    requires |all| >= |acc| + 1 && all[..|acc| + 1] == acc + [x]
    ensures all[|acc|..] == [x] + all[|acc| + 1..]
  {
    assert all[|acc|] == x;
  }

  /** The statement loop stops only on `}` or where no token is, and the
      statements it added to `acc` are spelled by what it consumed. */
  lemma {:induction false} BodySound(s: TokenStream, pos: nat, acc: seq<Stmt>, all: seq<Stmt>, end: nat)
    requires NumbersFit(s) && pos <= |s.items| && BodyFrom(s, pos, acc) == Parsed(Ok(all), end)
    ensures |acc| <= |all| && SpellsStmts(s, pos, all[|acc|..], end)
    decreases |s.items| - pos
  {
    var c := CurrAt(s, pos);
    if c.None? || c == Some(RightBrace) {
      BodyStop(s, pos, acc);
      assert all[|acc|..] == [];
    } else {
      BodyStep(s, pos, acc, all, end);
      var st := StmtAt(s, pos).result.value;
      var mid := StmtAt(s, pos).next;
      StmtSound(s, pos, st, mid);
      BodySound(s, mid, acc + [st], all, end);
      SliceAfter(all, acc, st);
      BodyCons(s, pos, st, mid, all[|acc| + 1..], end);
    }
  }

  /** What a successful `parse_function` consumed: a header, a body and a `}`. */
  lemma FunctionStep(s: TokenStream, pos: nat, f: Function, end: nat)
    requires NumbersFit(s) && FunctionAt(s, pos) == Parsed(Ok(f), end)
    ensures HeaderAt(s, pos).result.Ok? && HeaderAt(s, pos).next == pos + 7
    ensures BodyFrom(s, pos + 7, []).result.Ok?
    ensures CurrAt(s, BodyFrom(s, pos + 7, []).next) == Some(RightBrace)
    ensures f == Function(HeaderAt(s, pos).result.value.0, HeaderAt(s, pos).result.value.1,
                          BodyFrom(s, pos + 7, []).result.value)
    ensures end == BodyFrom(s, pos + 7, []).next + 1
  {
  }

  /** What a successful header consumed: its seven tokens. */
  lemma HeaderUnfold(s: TokenStream, pos: nat)
    requires HeaderAt(s, pos).result.Ok?
    ensures CurrAt(s, pos) == Some(Fn)
    ensures CurrAt(s, pos + 1) == Some(Identifier) && SliceAt(s, pos + 1) == HeaderAt(s, pos).result.value.0
    ensures CurrAt(s, pos + 2) == Some(LeftParen) && CurrAt(s, pos + 3) == Some(RightParen)
    ensures CurrAt(s, pos + 4) == Some(Colon)
    ensures CurrAt(s, pos + 5) == Some(Identifier) && SliceAt(s, pos + 5) == HeaderAt(s, pos).result.value.1
    ensures CurrAt(s, pos + 6) == Some(LeftBrace)
  {
    assert NameAt(s, pos).result.Ok?;
    assert ParamsAt(s, pos + 2).result.Ok?;
    assert ReturnTypeAt(s, pos + 5).result.Ok?;
  }

  lemma HeaderSpelled(s: TokenStream, pos: nat, name: string, returnType: string)
    requires CurrAt(s, pos) == Some(Fn)
    requires CurrAt(s, pos + 1) == Some(Identifier) && SliceAt(s, pos + 1) == name
    requires CurrAt(s, pos + 2) == Some(LeftParen) && CurrAt(s, pos + 3) == Some(RightParen)
    requires CurrAt(s, pos + 4) == Some(Colon)
    requires CurrAt(s, pos + 5) == Some(Identifier) && SliceAt(s, pos + 5) == returnType
    requires CurrAt(s, pos + 6) == Some(LeftBrace)
    ensures Denotes(s, pos, HeaderPieces(name, returnType))
  {
    var p6 := [Fixed(LeftBrace)];
    DenotesCons(s, pos + 6, Fixed(LeftBrace), []);
    assert [Fixed(LeftBrace)] + [] == p6;
    DenotesCons(s, pos + 5, Ident(returnType), p6);
    var p5 := [Ident(returnType)] + p6;
    DenotesCons(s, pos + 4, Fixed(Colon), p5);
    var p4 := [Fixed(Colon)] + p5;
    DenotesCons(s, pos + 3, Fixed(RightParen), p4);
    var p3 := [Fixed(RightParen)] + p4;
    DenotesCons(s, pos + 2, Fixed(LeftParen), p3);
    var p2 := [Fixed(LeftParen)] + p3;
    DenotesCons(s, pos + 1, Ident(name), p2);
    var p1 := [Ident(name)] + p2;
    DenotesCons(s, pos, Fixed(Fn), p1);
    assert [Fixed(Fn)] + p1 == HeaderPieces(name, returnType);
  }

  /** A spelled header, spelled statements and a `}` spell the function. */
  lemma FunctionSpelled(s: TokenStream, pos: nat, name: string, returnType: string, all: seq<Stmt>, close: nat)
    requires Denotes(s, pos, HeaderPieces(name, returnType))
    requires SpellsStmts(s, pos + 7, all, close) && CurrAt(s, close) == Some(RightBrace)
    ensures SpellsFunction(s, pos, Function(name, returnType, all), close + 1)
  {
    var hp := HeaderPieces(name, returnType);
    var bp := BodyPieces(all);
    DenotesSplit(s, pos, hp, bp);
    DenotesSnoc(s, pos, hp + bp, Fixed(RightBrace));
  }

  /** `parse_function` succeeds only on `fn IDENT ( ) : IDENT { stmt* }`,
      returns the function that spells, and stops right after its `}`. */
  lemma FunctionSound(s: TokenStream, pos: nat, f: Function, end: nat)
    requires NumbersFit(s) && FunctionAt(s, pos) == Parsed(Ok(f), end)
    ensures SpellsFunction(s, pos, f, end)
  {
    FunctionStep(s, pos, f, end);
    HeaderUnfold(s, pos);
    var header := HeaderAt(s, pos).result.value;
    var body := BodyFrom(s, pos + 7, []);
    HeaderSpelled(s, pos, header.0, header.1);
    var none: seq<Stmt> := [];
    BodySound(s, pos + 7, none, body.result.value, body.next);
    assert body.result.value[|none|..] == body.result.value;
    FunctionSpelled(s, pos, header.0, header.1, body.result.value, body.next);
  }

  /** `parse_function` returns `f`, stopping at `next`, exactly when `f` is a
      tree the parser can build and the stream spells it from `pos` to `next`. */
  lemma FunctionParses(s: TokenStream, pos: nat, f: Function, next: nat)
    requires NumbersFit(s)
    ensures FunctionAt(s, pos) == Parsed(Ok(f), next) <==> SpellsFunction(s, pos, f, next)
  {
    if FunctionAt(s, pos) == Parsed(Ok(f), next) {
      FunctionSound(s, pos, f, next);
    }
    if SpellsFunction(s, pos, f, next) {
      FunctionComplete(s, pos, f);
    }
  }
}
