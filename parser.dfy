/** The recursive-descent parser: one token of lookahead over the scanner's
    output, stopping at the first error.

    The first half gives each parsing routine as a function of the token stream
    and a position in it, returning what the routine returns and the position
    it leaves the cursor at. The second half is the parser object itself, a
    cursor whose methods are proved to do exactly what those functions say. */
module Parsing {
  import opened Wrappers
  import opened StdText
  import opened Lexer
  import opened Ast
  import opened Diagnostics

  // ---------------------------------------------------------------------------
  // The cursor's view of the stream

  /** What the cursor holds at `pos`: the token, or `None` at a scanning error
      and past the end of the stream, as `.transpose().ok().flatten()` gives. */
  function CurrAt(s: TokenStream, pos: nat): Option<Token> {
    if pos < |s.items| && s.items[pos].scanned.Matched? then Some(s.items[pos].scanned.token)
    else None
  }

  function SliceAt(s: TokenStream, pos: nat): string {
    if pos < |s.items| then s.items[pos].slice else s.endSlice
  }

  function SpanAt(s: TokenStream, pos: nat): Span {
    if pos < |s.items| then s.items[pos].span else s.endSpan
  }

  /** A number literal that fits in an `i64`, so the `unwrap` of its parse
      succeeds; any other lexeme. */
  predicate NumberFits(l: Lexeme) {
    l.scanned == Matched(Token.Number) ==> ParseI64(l.slice).Some?
  }

  /** Every number literal of the stream fits in an `i64`. */
  predicate NumbersFit(s: TokenStream) {
    AllNumbersFit(s.items)
  }

  predicate AllNumbersFit(items: seq<Lexeme>)
    decreases |items|
  {
    items == [] || (NumberFits(items[0]) && AllNumbersFit(items[1..]))
  }

  lemma {:induction false} NumberFitsAt(items: seq<Lexeme>, i: nat)
    requires AllNumbersFit(items) && i < |items|
    ensures NumberFits(items[i])
    decreases i
  {
    if i > 0 {
      NumberFitsAt(items[1..], i - 1);
    }
  }

  /** What a parsing routine returns, and where it leaves the cursor. */
  datatype Parsed<+T> = Parsed(result: Result<T, ParserError>, next: nat)

  /** The same failure, for a routine with another result type (Rust's `?`). */
  function Fail<T, U>(p: Parsed<T>): Parsed<U>
    requires p.result.Err?
  {
    Parsed(Err(p.result.error), p.next)
  }

  // ---------------------------------------------------------------------------
  // The parsing routines as functions of the stream

  /** `expect`: consume the expected token, or fail without moving. */
  function ExpectAt(s: TokenStream, pos: nat, expected: Token): (r: Parsed<()>)
    ensures r.result.Ok? <==> CurrAt(s, pos) == Some(expected)
    ensures CurrAt(s, pos) == Some(expected) ==> r == Parsed(Ok(()), pos + 1) && pos < |s.items|
    ensures CurrAt(s, pos).None? ==> r == Parsed(Err(UnexpectedEof), pos)
    ensures CurrAt(s, pos).Some? && CurrAt(s, pos) != Some(expected) ==>
      r == Parsed(Err(UnexpectedToken(expected, CurrAt(s, pos).value, SpanAt(s, pos))), pos)
  {
    match CurrAt(s, pos)
    case Some(token) =>
      if token == expected then Parsed(Ok(()), pos + 1)
      else Parsed(Err(UnexpectedToken(expected, token, SpanAt(s, pos))), pos)
    case None => Parsed(Err(UnexpectedEof), pos)
  }

  /** `parse_primary`: a number literal or a variable. */
  function PrimaryAt(s: TokenStream, pos: nat): (r: Parsed<Expr>)
    requires NumbersFit(s)
    ensures r.result.Ok? <==> CurrAt(s, pos) == Some(Token.Number) || CurrAt(s, pos) == Some(Identifier)
    ensures r.result.Ok? ==> pos < |s.items| && r.next == pos + 1
    ensures CurrAt(s, pos) == Some(Token.Number) ==>
      ParseI64(SliceAt(s, pos)).Some? && r.result == Ok(Expr.Number(ParseI64(SliceAt(s, pos)).value))
    ensures CurrAt(s, pos) == Some(Identifier) ==> r.result == Ok(Variable(SliceAt(s, pos)))
    ensures r.result.Err? ==> r.next == pos
    ensures CurrAt(s, pos).None? ==> r.result == Err(UnexpectedEof)
    ensures r.result.Err? && CurrAt(s, pos).Some? ==>
      r.result == Err(UnexpectedExprToken(CurrAt(s, pos).value, SpanAt(s, pos)))
  {
    match CurrAt(s, pos)
    case Some(token) =>
      if token == Token.Number then
        NumberFitsAt(s.items, pos);
        Parsed(Ok(Expr.Number(ParseI64(SliceAt(s, pos)).value)), pos + 1)
      else if token == Identifier then
        Parsed(Ok(Variable(SliceAt(s, pos))), pos + 1)
      else
        Parsed(Err(UnexpectedExprToken(token, SpanAt(s, pos))), pos)
    case None => Parsed(Err(UnexpectedEof), pos)
  }

  /** The token that spells an operator. */
  function OpToken(op: BinaryOp): Token {
    match op
    case Add => Plus
    case Sub => Minus
    case Mul => Star
    case Div => Slash
  }

  /** `parse_op`: the operator the current token spells, if it spells one.
      Exactly the four operator tokens spell one, each the operator it stands
      for. */
  function OpOf(c: Option<Token>): (r: Option<BinaryOp>)
    ensures r.Some? <==> c == Some(Plus) || c == Some(Minus) || c == Some(Star) || c == Some(Slash)
    ensures r.Some? ==> c == Some(OpToken(r.value))
    ensures forall op: BinaryOp :: c == Some(OpToken(op)) ==> r == Some(op)
  {
    match c
    case Some(Plus) => Some(Add)
    case Some(Minus) => Some(Sub)
    case Some(Star) => Some(Mul)
    case Some(Slash) => Some(Div)
    case _ => None
  }

  /** The loop of `parse_expr` from `pos` on, with `left` parsed so far: while
      an operator follows, consume it and the next primary and fold. */
  function ExprTailAt(s: TokenStream, left: Expr, pos: nat): (r: Parsed<Expr>)
    requires NumbersFit(s) && pos <= |s.items|
    ensures pos <= r.next <= |s.items|
    ensures r.result.Ok? ==> OpOf(CurrAt(s, r.next)).None?
    ensures r.result.Err? ==> r.result.error.UnexpectedEof? || r.result.error.UnexpectedExprToken?
    decreases |s.items| - pos
  {
    match OpOf(CurrAt(s, pos))
    case None => Parsed(Ok(left), pos)
    case Some(op) =>
      var right := PrimaryAt(s, pos + 1);
      if right.result.Err? then right
      else ExprTailAt(s, Binary(left, op, right.result.value), right.next)
  }

  /** `parse_expr`: a primary, then the operator loop. */
  function ExprAt(s: TokenStream, pos: nat): (r: Parsed<Expr>)
    requires NumbersFit(s)
    ensures pos <= r.next
    ensures r.result.Ok? ==> pos < r.next <= |s.items| && OpOf(CurrAt(s, r.next)).None?
  {
    var first := PrimaryAt(s, pos);
    if first.result.Err? then first
    else ExprTailAt(s, first.result.value, first.next)
  }

  /** `parse_identifier`: the slice of an identifier, or an error naming what
      is there instead (`None` at the end of input) without moving. */
  function IdentifierAt(s: TokenStream, pos: nat): (r: Parsed<string>)
    ensures CurrAt(s, pos) == Some(Identifier) ==> r == Parsed(Ok(SliceAt(s, pos)), pos + 1) && pos < |s.items|
    ensures CurrAt(s, pos) != Some(Identifier) ==>
      r == Parsed(Err(ExpectedIdentifier(CurrAt(s, pos), SpanAt(s, pos))), pos)
  {
    if CurrAt(s, pos) == Some(Identifier) then Parsed(Ok(SliceAt(s, pos)), pos + 1)
    else Parsed(Err(ExpectedIdentifier(CurrAt(s, pos), SpanAt(s, pos))), pos)
  }

  /** `let IDENT = expr ;` after the `let` at `pos - 1`. */
  function LetRestAt(s: TokenStream, pos: nat): (r: Parsed<Stmt>)
    requires NumbersFit(s)
    ensures pos <= r.next
    ensures r.result.Ok? ==> pos + 4 <= r.next <= |s.items| && r.result.value.Let?
  {
    var name := IdentifierAt(s, pos);
    if name.result.Err? then Fail(name) else
    var eq := ExpectAt(s, name.next, Equal);
    if eq.result.Err? then Fail(eq) else
    var value := ExprAt(s, eq.next);
    if value.result.Err? then Fail(value) else
    var semi := ExpectAt(s, value.next, Semicolon);
    if semi.result.Err? then Fail(semi) else
    Parsed(Ok(Stmt.Let(name.result.value, value.result.value)), semi.next)
  }

  /** `return expr ;` after the `return` at `pos - 1`. */
  function ReturnRestAt(s: TokenStream, pos: nat): (r: Parsed<Stmt>)
    requires NumbersFit(s)
    ensures pos <= r.next
    ensures r.result.Ok? ==> pos + 2 <= r.next <= |s.items| && r.result.value.Return?
  {
    var value := ExprAt(s, pos);
    if value.result.Err? then Fail(value) else
    var semi := ExpectAt(s, value.next, Semicolon);
    if semi.result.Err? then Fail(semi) else
    Parsed(Ok(Stmt.Return(value.result.value)), semi.next)
  }

  /** `parse_stmt`, which is only ever called on a token: a `let` or a
      `return` statement; any other token is unexpected, and the cursor stays
      on it. */
  function StmtAt(s: TokenStream, pos: nat): (r: Parsed<Stmt>)
    requires NumbersFit(s) && CurrAt(s, pos).Some?
    ensures pos <= r.next
    ensures r.result.Ok? ==> pos < r.next <= |s.items|
    ensures CurrAt(s, pos) != Some(Token.Let) && CurrAt(s, pos) != Some(Token.Return) ==>
      r == Parsed(Err(UnexpectedExprToken(CurrAt(s, pos).value, SpanAt(s, pos))), pos)
  {
    var token := CurrAt(s, pos).value;
    if token == Token.Let then LetRestAt(s, pos + 1)
    else if token == Token.Return then ReturnRestAt(s, pos + 1)
    else Parsed(Err(UnexpectedExprToken(token, SpanAt(s, pos))), pos)
  }

  lemma PrefixOfPrefix<T>(v: seq<T>, acc: seq<T>, x: T)
    requires |v| >= |acc| + 1 && v[..|acc| + 1] == acc + [x]
    ensures v[..|acc|] == acc
  {
    assert v[..|acc|] == v[..|acc| + 1][..|acc|];
  }

  /** The statement loop of `parse_function` from `pos` on, with `acc` parsed so
      far: it stops on `}` or where the cursor holds no token. */
  function BodyFrom(s: TokenStream, pos: nat, acc: seq<Stmt>): (r: Parsed<seq<Stmt>>)
    requires NumbersFit(s) && pos <= |s.items|
    ensures pos <= r.next <= |s.items|
    ensures r.result.Ok? ==> CurrAt(s, r.next).None? || CurrAt(s, r.next) == Some(RightBrace)
    ensures r.result.Ok? ==> |r.result.value| >= |acc| && r.result.value[..|acc|] == acc
    decreases |s.items| - pos
  {
    var c := CurrAt(s, pos);
    if c.None? || c == Some(RightBrace) then Parsed(Ok(acc), pos)
    else
      var st := StmtAt(s, pos);
      if st.result.Err? then Fail(st)
      else
        var r := BodyFrom(s, st.next, acc + [st.result.value]);
        if r.result.Ok? then PrefixOfPrefix(r.result.value, acc, st.result.value); r else r
  }

  /** `fn IDENT`, giving the function's name. */
  function NameAt(s: TokenStream, pos: nat): (r: Parsed<string>)
    ensures pos <= r.next
    ensures r.result.Ok? ==> r.next == pos + 2 <= |s.items|
  {
    var fnKw := ExpectAt(s, pos, Fn);
    if fnKw.result.Err? then Fail(fnKw) else
    IdentifierAt(s, fnKw.next)
  }

  /** `( ) :`: the empty parameter list and the colon before the return type. */
  function ParamsAt(s: TokenStream, pos: nat): (r: Parsed<()>)
    ensures pos <= r.next
    ensures r.result.Ok? ==> r.next == pos + 3 <= |s.items|
  {
    var lp := ExpectAt(s, pos, LeftParen);
    if lp.result.Err? then lp else
    var rp := ExpectAt(s, lp.next, RightParen);
    if rp.result.Err? then rp else
    ExpectAt(s, rp.next, Colon)
  }

  /** `IDENT {`, giving the return type. */
  function ReturnTypeAt(s: TokenStream, pos: nat): (r: Parsed<string>)
    ensures pos <= r.next
    ensures r.result.Ok? ==> r.next == pos + 2 <= |s.items|
  {
    var ret := IdentifierAt(s, pos);
    if ret.result.Err? then ret else
    var lb := ExpectAt(s, ret.next, LeftBrace);
    if lb.result.Err? then Fail(lb) else
    Parsed(Ok(ret.result.value), lb.next)
  }

  /** `fn IDENT ( ) : IDENT {`, giving the function's name and return type. */
  function HeaderAt(s: TokenStream, pos: nat): (r: Parsed<(string, string)>)
    ensures pos <= r.next
    ensures r.result.Ok? ==> r.next == pos + 7 <= |s.items|
  {
    var name := NameAt(s, pos);
    if name.result.Err? then Fail(name) else
    var params := ParamsAt(s, name.next);
    if params.result.Err? then Fail(params) else
    var ret := ReturnTypeAt(s, params.next);
    if ret.result.Err? then Fail(ret) else
    Parsed(Ok((name.result.value, ret.result.value)), ret.next)
  }

  /** `parse_function`: the header, the statements, and the closing `}`. */
  function FunctionAt(s: TokenStream, pos: nat): (r: Parsed<Function>)
    requires NumbersFit(s)
    ensures pos <= r.next
    ensures r.result.Ok? ==> pos + 8 <= r.next <= |s.items|
  {
    var header := HeaderAt(s, pos);
    if header.result.Err? then Fail(header) else
    var body := BodyFrom(s, header.next, []);
    if body.result.Err? then Fail(body) else
    var rb := ExpectAt(s, body.next, RightBrace);
    if rb.result.Err? then Fail(rb) else
    Parsed(Ok(Function(header.result.value.0, header.result.value.1, body.result.value)), rb.next)
  }

  /** `parse_expr` opens with a primary and hands over to the operator loop. */
  lemma ExprUnfold(s: TokenStream, pos: nat)
    requires NumbersFit(s)
    ensures PrimaryAt(s, pos).result.Err? ==> ExprAt(s, pos) == PrimaryAt(s, pos)
    ensures PrimaryAt(s, pos).result.Ok? ==>
      pos + 1 <= |s.items| && ExprAt(s, pos) == ExprTailAt(s, PrimaryAt(s, pos).result.value, pos + 1)
  {
  }

  /** A round of the operator loop on operator `op`. */
  lemma TailUnfold(s: TokenStream, left: Expr, pos: nat, op: BinaryOp)
    requires NumbersFit(s) && pos <= |s.items| && OpOf(CurrAt(s, pos)) == Some(op)
    ensures PrimaryAt(s, pos + 1).result.Err? ==> ExprTailAt(s, left, pos) == PrimaryAt(s, pos + 1)
    ensures PrimaryAt(s, pos + 1).result.Ok? ==>
      pos + 2 <= |s.items|
      && ExprTailAt(s, left, pos) == ExprTailAt(s, Binary(left, op, PrimaryAt(s, pos + 1).result.value), pos + 2)
  {
  }

  // ---------------------------------------------------------------------------
  // The parser object

  /** The scanner, positioned at `pos`, and a copy of what it last yielded:
      the current token, its slice and its span. */
  class Parser {
    const stream: TokenStream
    var pos: nat
    var curr: Option<Token>
    var currSlice: string
    var currSpan: Span

    /** The copies agree with the scanner's position. */
    ghost predicate Valid()
      reads this
    {
      && pos <= |stream.items|
      && curr == CurrAt(stream, pos)
      && currSlice == SliceAt(stream, pos)
      && currSpan == SpanAt(stream, pos)
      && NumbersFit(stream)
    }

    /** `Parser::new`: pull the first token. */
    constructor (lexer: TokenStream)
      requires NumbersFit(lexer)
      ensures Valid() && stream == lexer && pos == 0
    {
      stream := lexer;
      pos := 0;
      curr := CurrAt(lexer, 0);
      currSlice := SliceAt(lexer, 0);
      currSpan := SpanAt(lexer, 0);
    }

    /** `bump`: pull the next token. Only ever called on a token, never at the
        end of input or at a scanning error. */
    method Bump()
      requires Valid() && curr.Some?
      modifies this
      ensures Valid() && pos == old(pos) + 1
    {
      pos := pos + 1;
      curr := CurrAt(stream, pos);
      currSlice := SliceAt(stream, pos);
      currSpan := SpanAt(stream, pos);
    }

    method Expect(expected: Token) returns (r: Result<(), ParserError>)
      requires Valid()
      modifies this
      ensures Valid() && Parsed(r, pos) == ExpectAt(stream, old(pos), expected)
    {
      if curr.Some? {
        if curr.value == expected {
          Bump();
          return Ok(());
        } else {
          return Err(UnexpectedToken(expected, curr.value, currSpan));
        }
      } else {
        return Err(UnexpectedEof);
      }
    }

    method ParsePrimary() returns (r: Result<Expr, ParserError>)
      requires Valid()
      modifies this
      ensures Valid() && Parsed(r, pos) == PrimaryAt(stream, old(pos))
    {
      match curr
      case Some(token) =>
        if token == Token.Number {
          NumberFitsAt(stream.items, pos);
          var num := ParseI64(currSlice).value;
          Bump();
          return Ok(Expr.Number(num));
        } else if token == Identifier {
          var name := currSlice;
          Bump();
          return Ok(Variable(name));
        } else {
          return Err(UnexpectedExprToken(token, currSpan));
        }
      case None =>
        return Err(UnexpectedEof);
    }

    /** `parse_op`: looks at the current token and leaves the cursor alone. */
    function ParseOp(): (r: Option<BinaryOp>)
      reads this
      ensures Valid() ==> r == OpOf(CurrAt(stream, pos))
      ensures r.Some? <==> curr == Some(Plus) || curr == Some(Minus) || curr == Some(Star) || curr == Some(Slash)
    {
      OpOf(curr)
    }

    method ParseExpr() returns (r: Result<Expr, ParserError>)
      requires Valid()
      modifies this
      ensures Valid() && Parsed(r, pos) == ExprAt(stream, old(pos))
    {
      ExprUnfold(stream, pos);
      var left :- ParsePrimary();
      while ParseOp().Some?
        invariant Valid() && pos <= |stream.items|
        invariant ExprAt(stream, old(pos)) == ExprTailAt(stream, left, pos)
        decreases |stream.items| - pos
      {
        var op := ParseOp().value;
        ghost var at := pos;
        TailUnfold(stream, left, at, op);
        Bump();
        var right :- ParsePrimary();
        assert PrimaryAt(stream, at + 1) == Parsed(Ok(right), pos);
        assert ExprTailAt(stream, left, at) == ExprTailAt(stream, Binary(left, op, right), pos);
        left := Binary(left, op, right);
      }
      return Ok(left);
    }

    method ParseIdentifier() returns (r: Result<string, ParserError>)
      requires Valid()
      modifies this
      ensures Valid() && Parsed(r, pos) == IdentifierAt(stream, old(pos))
    {
      if curr == Some(Identifier) {
        var ident := currSlice;
        Bump();
        return Ok(ident);
      }
      return Err(ExpectedIdentifier(curr, currSpan));
    }

    /** `parse_stmt`. Its callers call it on a token only, so the `unwrap` of
        the current token in its last arm always has a token to unwrap. */
    method ParseStmt() returns (r: Result<Stmt, ParserError>)
      requires Valid() && curr.Some?
      modifies this
      ensures Valid() && Parsed(r, pos) == StmtAt(stream, old(pos))
    {
      if curr == Some(Token.Let) {
        assert StmtAt(stream, pos) == LetRestAt(stream, pos + 1);
        Bump();
        var name :- ParseIdentifier();
        var eq :- Expect(Equal);
        var value :- ParseExpr();
        var semi :- Expect(Semicolon);
        return Ok(Stmt.Let(name, value));
      } else if curr == Some(Token.Return) {
        assert StmtAt(stream, pos) == ReturnRestAt(stream, pos + 1);
        Bump();
        var value :- ParseExpr();
        var semi :- Expect(Semicolon);
        return Ok(Stmt.Return(value));
      }
      return Err(UnexpectedExprToken(curr.value, currSpan));
    }

    method ParseFunction() returns (r: Result<Function, ParserError>)
      requires Valid()
      modifies this
      ensures Valid() && Parsed(r, pos) == FunctionAt(stream, old(pos))
    {
      var fnKw :- Expect(Fn);
      var name :- ParseIdentifier();
      var lp :- Expect(LeftParen);
      var rp :- Expect(RightParen);
      var colon :- Expect(Colon);
      var returnType :- ParseIdentifier();
      var lb :- Expect(LeftBrace);

      var bodyStart := pos;
      var body: seq<Stmt> := [];
      while curr.Some?
        invariant Valid() && bodyStart <= pos
        invariant BodyFrom(stream, bodyStart, []) == BodyFrom(stream, pos, body)
        decreases |stream.items| - pos
      {
        if curr.value == RightBrace {
          break;
        }
        var st :- ParseStmt();
        body := body + [st];
      }

      var rb :- Expect(RightBrace);
      return Ok(Function(name, returnType, body));
    }
  }
}
