/** The language the parser accepts, written as the token sequence each syntax
    tree is spelled by, and the proof that the parser reads exactly these
    sequences back: every tree is parsed from its spelling (completeness), and
    every successful parse returns a tree whose spelling is the tokens it
    consumed (soundness). Expressions fold to the left with no precedence, so
    the trees the parser yields are those whose right operands are primaries. */
module Grammar {
  import opened Wrappers
  import opened StdText
  import opened Lexer
  import opened Ast
  import opened Diagnostics
  import opened Parsing

  // ---------------------------------------------------------------------------
  // Spellings

  /** What one token of a spelling must be: a fixed token, an identifier with
      a given slice, or a number literal with a given value. */
  datatype Piece = Fixed(token: Token) | Ident(name: string) | Num(value: int)

  predicate PieceAt(s: TokenStream, pos: nat, p: Piece) {
    match p
    case Fixed(t) => CurrAt(s, pos) == Some(t)
    case Ident(x) => CurrAt(s, pos) == Some(Identifier) && SliceAt(s, pos) == x
    case Num(n) => CurrAt(s, pos) == Some(Token.Number) && ParseI64(SliceAt(s, pos)) == Some(n)
  }

  /** The stream holds the spelling `ps` from `pos` on. */
  predicate Denotes(s: TokenStream, pos: nat, ps: seq<Piece>)
    decreases |ps|
  {
    ps == [] || (PieceAt(s, pos, ps[0]) && Denotes(s, pos + 1, ps[1..]))
  }

  lemma {:induction false} DenotesAt(s: TokenStream, pos: nat, ps: seq<Piece>, i: nat)
    requires Denotes(s, pos, ps) && i < |ps|
    ensures PieceAt(s, pos + i, ps[i])
    decreases i
  {
    if i > 0 {
      DenotesAt(s, pos + 1, ps[1..], i - 1);
    }
  }

  lemma DenotesWithin(s: TokenStream, pos: nat, ps: seq<Piece>)
    requires Denotes(s, pos, ps) && ps != []
    ensures pos + |ps| <= |s.items|
  {
    DenotesAt(s, pos, ps, |ps| - 1);
  }

  lemma {:induction false} DenotesSplit(s: TokenStream, pos: nat, a: seq<Piece>, b: seq<Piece>)
    ensures Denotes(s, pos, a + b) <==> Denotes(s, pos, a) && Denotes(s, pos + |a|, b)
    decreases |a|
  {
    if a == [] {
      assert a + b == b;
    } else {
      assert (a + b)[0] == a[0];
      assert (a + b)[1..] == a[1..] + b;
      DenotesSplit(s, pos + 1, a[1..], b);
    }
  }

  predicate IsPrimary(e: Expr) {
    !e.Binary?
  }

  function PrimaryPiece(e: Expr): Piece
    requires IsPrimary(e)
  {
    match e
    case Number(n) => Num(n)
    case Variable(x) => Ident(x)
  }

  function ExprPieces(e: Expr): (ps: seq<Piece>)
    ensures |ps| >= 1
  {
    match e
    case Number(n) => [Num(n)]
    case Variable(x) => [Ident(x)]
    case Binary(l, op, r) => ExprPieces(l) + [Fixed(OpToken(op))] + ExprPieces(r)
  }

  /** The trees the parser builds: every right operand is a primary. */
  predicate LeftFolded(e: Expr) {
    match e
    case Binary(l, _, r) => LeftFolded(l) && IsPrimary(r)
    case _ => true
  }

  function StmtPieces(st: Stmt): (ps: seq<Piece>)
    ensures |ps| >= 3
  {
    match st
    case Let(x, e) => [Fixed(Token.Let), Ident(x), Fixed(Equal)] + ExprPieces(e) + [Fixed(Semicolon)]
    case Return(e) => [Fixed(Token.Return)] + ExprPieces(e) + [Fixed(Semicolon)]
  }

  function BodyPieces(body: seq<Stmt>): seq<Piece> {
    if body == [] then [] else StmtPieces(body[0]) + BodyPieces(body[1..])
  }

  function HeaderPieces(name: string, returnType: string): seq<Piece> {
    [Fixed(Fn), Ident(name), Fixed(LeftParen), Fixed(RightParen), Fixed(Colon),
     Ident(returnType), Fixed(LeftBrace)]
  }

  /** `fn NAME ( ) : TYPE { STMT* }`. */
  function FunctionPieces(f: Function): seq<Piece> {
    HeaderPieces(f.name, f.returnType) + BodyPieces(f.body) + [Fixed(RightBrace)]
  }

  /** Every statement's expression is one the parser can build. */
  predicate StmtsFolded(body: seq<Stmt>) {
    forall i :: 0 <= i < |body| ==> LeftFolded(StmtExpr(body[i]))
  }

  predicate WellFormed(f: Function) {
    StmtsFolded(f.body)
  }

  /** Tokens `pos` up to `end` spell `e`, a tree the parser can build. */
  predicate SpellsExpr(s: TokenStream, pos: nat, e: Expr, end: nat) {
    LeftFolded(e) && Denotes(s, pos, ExprPieces(e)) && end == pos + |ExprPieces(e)|
  }

  predicate SpellsStmt(s: TokenStream, pos: nat, st: Stmt, end: nat) {
    LeftFolded(StmtExpr(st)) && Denotes(s, pos, StmtPieces(st)) && end == pos + |StmtPieces(st)|
  }

  predicate SpellsStmts(s: TokenStream, pos: nat, body: seq<Stmt>, end: nat) {
    StmtsFolded(body) && Denotes(s, pos, BodyPieces(body)) && end == pos + |BodyPieces(body)|
  }

  predicate SpellsFunction(s: TokenStream, pos: nat, f: Function, end: nat) {
    WellFormed(f) && Denotes(s, pos, FunctionPieces(f)) && end == pos + |FunctionPieces(f)|
  }

  // ---------------------------------------------------------------------------
  // Expressions as a primary followed by operator steps

  datatype Step = Step(op: BinaryOp, operand: Expr)

  predicate Primaries(t: seq<Step>) {
    forall i :: 0 <= i < |t| ==> IsPrimary(t[i].operand)
  }

  /** Fold the steps onto `left`, from the first to the last. */
  function FoldLeft(left: Expr, t: seq<Step>): Expr
    decreases |t|
  {
    if t == [] then left else FoldLeft(Binary(left, t[0].op, t[0].operand), t[1..])
  }

  function TailPieces(t: seq<Step>): (ps: seq<Piece>)
    requires Primaries(t)
    ensures |ps| == 2 * |t|
  {
    if t == [] then []
    else [Fixed(OpToken(t[0].op)), PrimaryPiece(t[0].operand)] + TailPieces(t[1..])
  }

  lemma {:induction false} FoldLeftSnoc(left: Expr, t: seq<Step>, x: Step)
    ensures FoldLeft(left, t + [x]) == Binary(FoldLeft(left, t), x.op, x.operand)
    decreases |t|
  {
    if t == [] {
      assert [x][1..] == [];
    } else {
      assert (t + [x])[1..] == t[1..] + [x];
      FoldLeftSnoc(Binary(left, t[0].op, t[0].operand), t[1..], x);
    }
  }

  lemma {:induction false} TailPiecesSnoc(t: seq<Step>, x: Step)
    requires Primaries(t) && IsPrimary(x.operand)
    ensures Primaries(t + [x])
    ensures TailPieces(t + [x]) == TailPieces(t) + [Fixed(OpToken(x.op)), PrimaryPiece(x.operand)]
    decreases |t|
  {
    assert forall i :: 0 <= i < |t| ==> (t + [x])[i] == t[i];
    if t == [] {
      assert [x][1..] == [];
    } else {
      assert (t + [x])[1..] == t[1..] + [x];
      TailPiecesSnoc(t[1..], x);
    }
  }

  /** A left-folded expression is its leftmost primary followed by steps. */
  function Spine(e: Expr): (r: (Expr, seq<Step>))
    requires LeftFolded(e)
    ensures IsPrimary(r.0) && Primaries(r.1)
    ensures FoldLeft(r.0, r.1) == e
    ensures ExprPieces(e) == [PrimaryPiece(r.0)] + TailPieces(r.1)
  {
    match e
    case Binary(l, op, right) =>
      var (p, t) := Spine(l);
      FoldLeftSnoc(p, t, Step(op, right));
      TailPiecesSnoc(t, Step(op, right));
      (p, t + [Step(op, right)])
    case _ => (e, [])
  }

  // ---------------------------------------------------------------------------
  // Completeness: the spelling of a tree parses back to the tree

  lemma PrimaryComplete(s: TokenStream, pos: nat, e: Expr)
    requires NumbersFit(s) && IsPrimary(e) && PieceAt(s, pos, PrimaryPiece(e))
    ensures PrimaryAt(s, pos) == Parsed(Ok(e), pos + 1)
  {
  }

  /** The operator loop where no operator follows. */
  lemma TailStopFrom(s: TokenStream, left: Expr, pos: nat)
    requires NumbersFit(s) && pos <= |s.items| && OpOf(CurrAt(s, pos)).None?
    ensures ExprTailAt(s, left, pos) == Parsed(Ok(left), pos)
  {
  }

  /** A round of the operator loop on an operator and a primary. */
  lemma TailStepFrom(s: TokenStream, left: Expr, pos: nat, op: BinaryOp, right: Expr)
    requires NumbersFit(s) && pos <= |s.items| && CurrAt(s, pos) == Some(OpToken(op))
    requires PrimaryAt(s, pos + 1) == Parsed(Ok(right), pos + 2)
    ensures pos + 2 <= |s.items|
    ensures ExprTailAt(s, left, pos) == ExprTailAt(s, Binary(left, op, right), pos + 2)
  {
  }

  /** The first step of a spelled tail, and the rest of it. */
  lemma TailHead(s: TokenStream, pos: nat, t: seq<Step>)
    requires Primaries(t) && t != [] && Denotes(s, pos, TailPieces(t))
    ensures CurrAt(s, pos) == Some(OpToken(t[0].op)) && IsPrimary(t[0].operand)
    ensures PieceAt(s, pos + 1, PrimaryPiece(t[0].operand))
    ensures Primaries(t[1..]) && Denotes(s, pos + 2, TailPieces(t[1..]))
  {
    var head := [Fixed(OpToken(t[0].op)), PrimaryPiece(t[0].operand)];
    DenotesSplit(s, pos, head, TailPieces(t[1..]));
    DenotesAt(s, pos, head, 0);
    DenotesAt(s, pos, head, 1);
    assert forall i :: 0 <= i < |t[1..]| ==> t[1..][i] == t[i + 1];
  }

  lemma {:induction false} TailComplete(s: TokenStream, left: Expr, pos: nat, t: seq<Step>)
    requires NumbersFit(s) && pos <= |s.items| && Primaries(t)
    requires Denotes(s, pos, TailPieces(t)) && OpOf(CurrAt(s, pos + 2 * |t|)).None?
    ensures ExprTailAt(s, left, pos) == Parsed(Ok(FoldLeft(left, t)), pos + 2 * |t|)
    decreases |t|
  {
    if t == [] {
      TailStopFrom(s, left, pos);
    } else {
      var next := Binary(left, t[0].op, t[0].operand);
      TailHead(s, pos, t);
      PrimaryComplete(s, pos + 1, t[0].operand);
      TailStepFrom(s, left, pos, t[0].op, t[0].operand);
      assert pos + 2 + 2 * |t[1..]| == pos + 2 * |t|;
      TailComplete(s, next, pos + 2, t[1..]);
      assert FoldLeft(left, t) == FoldLeft(next, t[1..]);
    }
  }

  /** `parse_expr` is its primary followed by the operator loop. */
  lemma ExprFrom(s: TokenStream, pos: nat, p: Expr, e: Expr, next: nat)
    requires NumbersFit(s) && PrimaryAt(s, pos) == Parsed(Ok(p), pos + 1)
    requires ExprTailAt(s, p, pos + 1) == Parsed(Ok(e), next)
    ensures ExprAt(s, pos) == Parsed(Ok(e), next)
  {
  }

  /** A spelled left-folded expression is its leftmost primary followed by a
      spelled tail. */
  lemma ExprShape(s: TokenStream, pos: nat, e: Expr) returns (p: Expr, t: seq<Step>)
    requires LeftFolded(e) && Denotes(s, pos, ExprPieces(e))
    ensures IsPrimary(p) && Primaries(t) && FoldLeft(p, t) == e
    ensures PieceAt(s, pos, PrimaryPiece(p)) && Denotes(s, pos + 1, TailPieces(t))
    ensures |ExprPieces(e)| == 1 + 2 * |t| && pos + 1 <= |s.items|
  {
    var spine := Spine(e);
    p, t := spine.0, spine.1;
    DenotesSplit(s, pos, [PrimaryPiece(p)], TailPieces(t));
    DenotesAt(s, pos, [PrimaryPiece(p)], 0);
    DenotesWithin(s, pos, ExprPieces(e));
  }

  /** A left-folded expression, spelled out and followed by anything but an
      operator, parses back to itself and no further. */
  lemma ExprComplete(s: TokenStream, pos: nat, e: Expr)
    requires NumbersFit(s) && LeftFolded(e) && Denotes(s, pos, ExprPieces(e))
    requires OpOf(CurrAt(s, pos + |ExprPieces(e)|)).None?
    ensures ExprAt(s, pos) == Parsed(Ok(e), pos + |ExprPieces(e)|)
  {
    var p, t := ExprShape(s, pos, e);
    PrimaryComplete(s, pos, p);
    TailComplete(s, p, pos + 1, t);
    ExprFrom(s, pos, p, e, pos + |ExprPieces(e)|);
  }

  /** `let` parses once its identifier, `=`, expression and `;` are in place. */
  lemma LetRestFrom(s: TokenStream, pos: nat, x: string, e: Expr, n: nat)
    requires NumbersFit(s)
    requires CurrAt(s, pos) == Some(Identifier) && SliceAt(s, pos) == x
    requires CurrAt(s, pos + 1) == Some(Equal)
    requires ExprAt(s, pos + 2) == Parsed(Ok(e), n) && CurrAt(s, n) == Some(Semicolon)
    ensures LetRestAt(s, pos) == Parsed(Ok(Stmt.Let(x, e)), n + 1)
  {
  }

  /** The tokens of `IDENT = expr ;` in place. */
  lemma LetShape(s: TokenStream, pos: nat, x: string, e: Expr)
    requires Denotes(s, pos, [Ident(x), Fixed(Equal)] + ExprPieces(e) + [Fixed(Semicolon)])
    ensures CurrAt(s, pos) == Some(Identifier) && SliceAt(s, pos) == x && CurrAt(s, pos + 1) == Some(Equal)
    ensures Denotes(s, pos + 2, ExprPieces(e)) && CurrAt(s, pos + 2 + |ExprPieces(e)|) == Some(Semicolon)
  {
    var ep := ExprPieces(e);
    var head := [Ident(x), Fixed(Equal)];
    DenotesSplit(s, pos, head + ep, [Fixed(Semicolon)]);
    DenotesSplit(s, pos, head, ep);
    DenotesAt(s, pos, head, 0);
    DenotesAt(s, pos, head, 1);
    DenotesAt(s, pos + 2 + |ep|, [Fixed(Semicolon)], 0);
  }

  lemma LetComplete(s: TokenStream, pos: nat, x: string, e: Expr)
    requires NumbersFit(s) && LeftFolded(e)
    requires Denotes(s, pos, [Ident(x), Fixed(Equal)] + ExprPieces(e) + [Fixed(Semicolon)])
    ensures LetRestAt(s, pos) == Parsed(Ok(Stmt.Let(x, e)), pos + 3 + |ExprPieces(e)|)
  {
    var n := pos + 2 + |ExprPieces(e)|;
    LetShape(s, pos, x, e);
    ExprComplete(s, pos + 2, e);
    LetRestFrom(s, pos, x, e, n);
  }

  /** `return` parses once its expression and `;` are in place. */
  lemma ReturnRestFrom(s: TokenStream, pos: nat, e: Expr, n: nat)
    requires NumbersFit(s)
    requires ExprAt(s, pos) == Parsed(Ok(e), n) && CurrAt(s, n) == Some(Semicolon)
    ensures ReturnRestAt(s, pos) == Parsed(Ok(Stmt.Return(e)), n + 1)
  {
  }

  /** The tokens of `expr ;` in place. */
  lemma ReturnShape(s: TokenStream, pos: nat, e: Expr)
    requires Denotes(s, pos, ExprPieces(e) + [Fixed(Semicolon)])
    ensures Denotes(s, pos, ExprPieces(e)) && CurrAt(s, pos + |ExprPieces(e)|) == Some(Semicolon)
  {
    var ep := ExprPieces(e);
    DenotesSplit(s, pos, ep, [Fixed(Semicolon)]);
    DenotesAt(s, pos + |ep|, [Fixed(Semicolon)], 0);
  }

  lemma ReturnComplete(s: TokenStream, pos: nat, e: Expr)
    requires NumbersFit(s) && LeftFolded(e)
    requires Denotes(s, pos, ExprPieces(e) + [Fixed(Semicolon)])
    ensures ReturnRestAt(s, pos) == Parsed(Ok(Stmt.Return(e)), pos + 1 + |ExprPieces(e)|)
  {
    ReturnShape(s, pos, e);
    ExprComplete(s, pos, e);
    ReturnRestFrom(s, pos, e, pos + |ExprPieces(e)|);
  }

  /** `parse_stmt` on `let` or `return` hands over to the rest of that
      statement. */
  lemma StmtOn(s: TokenStream, pos: nat)
    requires NumbersFit(s) && CurrAt(s, pos).Some?
    ensures CurrAt(s, pos) == Some(Token.Let) ==> StmtAt(s, pos) == LetRestAt(s, pos + 1)
    ensures CurrAt(s, pos) == Some(Token.Return) ==> StmtAt(s, pos) == ReturnRestAt(s, pos + 1)
  {
  }

  lemma LetPieces(x: string, e: Expr)
    ensures StmtPieces(Stmt.Let(x, e)) == [Fixed(Token.Let)] + ([Ident(x), Fixed(Equal)] + ExprPieces(e) + [Fixed(Semicolon)])
    ensures |StmtPieces(Stmt.Let(x, e))| == 4 + |ExprPieces(e)|
  {
  }

  lemma ReturnPieces(e: Expr)
    ensures StmtPieces(Stmt.Return(e)) == [Fixed(Token.Return)] + (ExprPieces(e) + [Fixed(Semicolon)])
    ensures |StmtPieces(Stmt.Return(e))| == 2 + |ExprPieces(e)|
  {
  }

  lemma LetStmtComplete(s: TokenStream, pos: nat, x: string, e: Expr)
    requires NumbersFit(s) && LeftFolded(e) && Denotes(s, pos, StmtPieces(Stmt.Let(x, e)))
    ensures CurrAt(s, pos) == Some(Token.Let)
    ensures StmtAt(s, pos) == Parsed(Ok(Stmt.Let(x, e)), pos + |StmtPieces(Stmt.Let(x, e))|)
  {
    var rest := [Ident(x), Fixed(Equal)] + ExprPieces(e) + [Fixed(Semicolon)];
    LetPieces(x, e);
    DenotesSplit(s, pos, [Fixed(Token.Let)], rest);
    DenotesAt(s, pos, [Fixed(Token.Let)], 0);
    StmtOn(s, pos);
    LetComplete(s, pos + 1, x, e);
  }

  lemma ReturnStmtComplete(s: TokenStream, pos: nat, e: Expr)
    requires NumbersFit(s) && LeftFolded(e) && Denotes(s, pos, StmtPieces(Stmt.Return(e)))
    ensures CurrAt(s, pos) == Some(Token.Return)
    ensures StmtAt(s, pos) == Parsed(Ok(Stmt.Return(e)), pos + |StmtPieces(Stmt.Return(e))|)
  {
    var rest := ExprPieces(e) + [Fixed(Semicolon)];
    ReturnPieces(e);
    DenotesSplit(s, pos, [Fixed(Token.Return)], rest);
    DenotesAt(s, pos, [Fixed(Token.Return)], 0);
    StmtOn(s, pos);
    ReturnComplete(s, pos + 1, e);
  }

  lemma StmtComplete(s: TokenStream, pos: nat, st: Stmt)
    requires NumbersFit(s) && LeftFolded(StmtExpr(st)) && Denotes(s, pos, StmtPieces(st))
    ensures CurrAt(s, pos) == Some(Token.Let) || CurrAt(s, pos) == Some(Token.Return)
    ensures StmtAt(s, pos) == Parsed(Ok(st), pos + |StmtPieces(st)|)
  {
    match st
    case Let(x, e) => LetStmtComplete(s, pos, x, e);
    case Return(e) => ReturnStmtComplete(s, pos, e);
  }

  lemma MoveFirst<T>(acc: seq<T>, body: seq<T>)
    requires body != []
    ensures acc + body == (acc + [body[0]]) + body[1..]
  {
    assert body == [body[0]] + body[1..];
  }

  /** A round of the statement loop on a statement that parses. */
  lemma BodyStepFrom(s: TokenStream, pos: nat, acc: seq<Stmt>, st: Stmt, next: nat)
    requires NumbersFit(s) && pos <= |s.items| && next <= |s.items|
    requires CurrAt(s, pos).Some? && CurrAt(s, pos) != Some(RightBrace)
    requires StmtAt(s, pos) == Parsed(Ok(st), next)
    ensures BodyFrom(s, pos, acc) == BodyFrom(s, next, acc + [st])
  {
  }

  /** One statement of a body, spelled out, is consumed by one round of the
      statement loop. */
  lemma BodyStepComplete(s: TokenStream, pos: nat, acc: seq<Stmt>, st: Stmt, next: nat)
    requires NumbersFit(s) && pos <= |s.items|
    requires SpellsStmt(s, pos, st, next)
    ensures next <= |s.items|
    ensures BodyFrom(s, pos, acc) == BodyFrom(s, next, acc + [st])
  {
    StmtComplete(s, pos, st);
    DenotesWithin(s, pos, StmtPieces(st));
    BodyStepFrom(s, pos, acc, st, next);
  }

  /** The first statement of a spelled body, and the rest of it. */
  lemma BodyHead(s: TokenStream, pos: nat, body: seq<Stmt>, end: nat) returns (mid: nat)
    requires body != [] && SpellsStmts(s, pos, body, end)
    ensures SpellsStmt(s, pos, body[0], mid) && SpellsStmts(s, mid, body[1..], end)
  {
    var sp := StmtPieces(body[0]);
    var rest := body[1..];
    assert BodyPieces(body) == sp + BodyPieces(rest);
    DenotesSplit(s, pos, sp, BodyPieces(rest));
    forall i | 0 <= i < |rest|
      ensures LeftFolded(StmtExpr(rest[i]))
    {
      assert rest[i] == body[i + 1];
    }
    mid := pos + |sp|;
  }

  /** The statements of a body, spelled out and followed by `}` or by no
      token, are consumed by the statement loop, which stops at `end`. */
  lemma {:induction false} BodyComplete(s: TokenStream, pos: nat, end: nat, acc: seq<Stmt>, body: seq<Stmt>)
    requires NumbersFit(s) && pos <= |s.items| && SpellsStmts(s, pos, body, end)
    requires CurrAt(s, end).None? || CurrAt(s, end) == Some(RightBrace)
    ensures BodyFrom(s, pos, acc) == Parsed(Ok(acc + body), end)
    decreases |body|
  {
    if body == [] {
      assert acc + body == acc;
    } else {
      var mid := BodyHead(s, pos, body, end);
      BodyStepComplete(s, pos, acc, body[0], mid);
      MoveFirst(acc, body);
      BodyComplete(s, mid, end, acc + [body[0]], body[1..]);
    }
  }


  /** The header parses once its seven tokens are in place. */
  lemma HeaderFrom(s: TokenStream, pos: nat, name: string, returnType: string)
    requires CurrAt(s, pos) == Some(Fn)
    requires CurrAt(s, pos + 1) == Some(Identifier) && SliceAt(s, pos + 1) == name
    requires CurrAt(s, pos + 2) == Some(LeftParen) && CurrAt(s, pos + 3) == Some(RightParen)
    requires CurrAt(s, pos + 4) == Some(Colon)
    requires CurrAt(s, pos + 5) == Some(Identifier) && SliceAt(s, pos + 5) == returnType
    requires CurrAt(s, pos + 6) == Some(LeftBrace)
    ensures HeaderAt(s, pos) == Parsed(Ok((name, returnType)), pos + 7)
  {
    assert NameAt(s, pos) == Parsed(Ok(name), pos + 2);
    assert ParamsAt(s, pos + 2) == Parsed(Ok(()), pos + 5);
    assert ReturnTypeAt(s, pos + 5) == Parsed(Ok(returnType), pos + 7);
  }

  lemma HeaderComplete(s: TokenStream, pos: nat, name: string, returnType: string)
    requires Denotes(s, pos, HeaderPieces(name, returnType))
    ensures HeaderAt(s, pos) == Parsed(Ok((name, returnType)), pos + 7)
  {
    var hp := HeaderPieces(name, returnType);
    DenotesAt(s, pos, hp, 0);
    DenotesAt(s, pos, hp, 1);
    DenotesAt(s, pos, hp, 2);
    DenotesAt(s, pos, hp, 3);
    DenotesAt(s, pos, hp, 4);
    DenotesAt(s, pos, hp, 5);
    DenotesAt(s, pos, hp, 6);
    HeaderFrom(s, pos, name, returnType);
  }

  /** A function parses once its header, its statements and its `}` are in
      place. */
  lemma FunctionFrom(s: TokenStream, pos: nat, f: Function, close: nat)
    requires NumbersFit(s)
    requires HeaderAt(s, pos) == Parsed(Ok((f.name, f.returnType)), pos + 7)
    requires BodyFrom(s, pos + 7, []) == Parsed(Ok(f.body), close)
    requires CurrAt(s, close) == Some(RightBrace)
    ensures FunctionAt(s, pos) == Parsed(Ok(f), close + 1)
  {
  }

  /** The spelling of a function splits into its header, its statements and
      its closing brace. */
  lemma FunctionFrame(s: TokenStream, pos: nat, f: Function)
    requires Denotes(s, pos, FunctionPieces(f))
    ensures pos + 8 <= pos + |FunctionPieces(f)| <= |s.items|
    ensures Denotes(s, pos, HeaderPieces(f.name, f.returnType))
    ensures Denotes(s, pos + 7, BodyPieces(f.body))
    ensures pos + |FunctionPieces(f)| - 1 == pos + 7 + |BodyPieces(f.body)|
    ensures CurrAt(s, pos + |FunctionPieces(f)| - 1) == Some(RightBrace)
  {
    var hp := HeaderPieces(f.name, f.returnType);
    var bp := BodyPieces(f.body);
    var close := pos + |FunctionPieces(f)| - 1;
    assert close == pos + 7 + |bp|;
    DenotesSplit(s, pos, hp + bp, [Fixed(RightBrace)]);
    DenotesSplit(s, pos, hp, bp);
    DenotesAt(s, close, [Fixed(RightBrace)], 0);
  }

  /** The statements of a well-formed function, spelled out and followed by its
      closing brace, are parsed back up to that brace. */
  lemma FunctionBody(s: TokenStream, pos: nat, close: nat, f: Function)
    requires NumbersFit(s) && WellFormed(f) && pos + 7 <= |s.items|
    requires Denotes(s, pos + 7, BodyPieces(f.body)) && close == pos + 7 + |BodyPieces(f.body)|
    requires CurrAt(s, close) == Some(RightBrace)
    ensures BodyFrom(s, pos + 7, []) == Parsed(Ok(f.body), close)
  {
    BodyComplete(s, pos + 7, close, [], f.body);
    assert [] + f.body == f.body;
  }

  /** A well-formed function, spelled out, parses back to itself, and the parse
      ends right after its closing brace. */
  lemma FunctionComplete(s: TokenStream, pos: nat, f: Function)
    requires NumbersFit(s) && WellFormed(f) && Denotes(s, pos, FunctionPieces(f))
    ensures FunctionAt(s, pos) == Parsed(Ok(f), pos + |FunctionPieces(f)|)
  {
    var close := pos + |FunctionPieces(f)| - 1;
    FunctionFrame(s, pos, f);
    HeaderComplete(s, pos, f.name, f.returnType);
    FunctionBody(s, pos, close, f);
    FunctionFrom(s, pos, f, close);
  }
}
