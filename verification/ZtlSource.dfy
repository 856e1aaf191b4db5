/** Program text: every tree the front end can build is written as text that the front end reads as that tree. */
module ZtlSource {
  import opened Text
  import opened ZtlReading
  import opened ZtlSyntax
  import opened ZtlRender
  import opened ZtlFrontEnd
  import Lexer = ZtlLexer
  import Parser = ZtlParser
  import RoundTrip = ZtlRoundTrip

  // ---- trees with writable names ----

  /** The operators, names and number literals are the language's own; string literals are arbitrary. */
  predicate Named(e: Expr)
    decreases e, 0
  {
    match e
    case LiteralNumber(text) => IsNumber(text) && InRange(text)
    case Identifier(name) => IsName(name)
    case MemberAccess(o, member) => Named(o) && IsName(member)
    case ScopedAccess(scope, name) => IsName(scope) && IsName(name)
    case Call(c, args, block) => Named(c) && NamedArgs(args) && (block.Braces? ==> NamedBody(block.body))
    case UnaryOp(op, x) => IsUnary(op) && Named(x)
    case BinaryOp(op, l, r) => IsBinary(op) && Named(l) && Named(r)
    case _ => true
  }

  predicate NamedArg(arg: CallArg)
    decreases arg, 0
  {
    (arg.name == "" || IsName(arg.name)) && Named(arg.value)
  }

  predicate NamedArgs(args: seq<CallArg>)
    decreases args, 1
  {
    args == [] || (NamedArg(args[0]) && NamedArgs(args[1..]))
  }

  predicate NamedBody(body: seq<Stmt>)
    decreases body, 1
  {
    body == [] || (NamedStmt(body[0]) && NamedBody(body[1..]))
  }

  predicate NamedStmt(s: Stmt)
    decreases s, 0
  {
    match s
    case ExprStmt(e) => Named(e)
    case AssignStmt(target, e) => IsName(target) && Named(e)
    case IfStmt(c, t, f) => Named(c) && NamedBody(t) && NamedBody(f)
    case ReturnStmt(v) => v.Given? ==> Named(v.e)
    case IncludeStmt(_) => true
  }

  lemma {:induction false} NamedIsWellFormed(e: Expr)
    requires Named(e)
    ensures WellFormed(e)
    decreases e, 0
  {
    hide IsUnary, IsBinary, IsName, IsNumber, InRange;
    match e
    case MemberAccess(o, _) => NamedIsWellFormed(o);
    case Call(c, args, block) =>
      NamedIsWellFormed(c);
      NamedArgsAreWellFormed(args);
      if block.Braces? {
        NamedBodyIsWellFormed(block.body);
      }
    case UnaryOp(_, x) => NamedIsWellFormed(x);
    case BinaryOp(_, l, r) =>
      NamedIsWellFormed(l);
      NamedIsWellFormed(r);
    case _ =>
  }

  lemma {:induction false} NamedArgsAreWellFormed(args: seq<CallArg>)
    requires NamedArgs(args)
    ensures WellFormedArgs(args)
    decreases args, 1
  {
    hide Named, WellFormed;
    if args != [] {
      NamedIsWellFormed(args[0].value);
      NamedArgsAreWellFormed(args[1..]);
    }
  }

  lemma {:induction false} NamedBodyIsWellFormed(body: seq<Stmt>)
    requires NamedBody(body)
    ensures WellFormedBody(body)
    decreases body, 1
  {
    hide NamedStmt, WellFormedStmt;
    if body != [] {
      NamedStmtIsWellFormed(body[0]);
      NamedBodyIsWellFormed(body[1..]);
    }
  }

  lemma {:induction false} NamedStmtIsWellFormed(s: Stmt)
    requires NamedStmt(s)
    ensures WellFormedStmt(s)
    decreases s, 0
  {
    hide Named, WellFormed, NamedBody, WellFormedBody, IsName;
    match s
    case ExprStmt(e) => NamedIsWellFormed(e);
    case AssignStmt(_, e) => NamedIsWellFormed(e);
    case IfStmt(c, t, f) =>
      NamedIsWellFormed(c);
      NamedBodyIsWellFormed(t);
      NamedBodyIsWellFormed(f);
    case ReturnStmt(v) =>
      if v.Given? {
        NamedIsWellFormed(v.e);
      }
    case IncludeStmt(_) =>
  }

  // ---- their tokens can be written ----

  lemma Append(ts: seq<Token>, us: seq<Token>)
    ensures AllWritable(ts + us) <==> AllWritable(ts) && AllWritable(us)
  {
    hide Writable;
    assert forall k | 0 <= k < |ts| :: (ts + us)[k] == ts[k];
    assert forall k | 0 <= k < |us| :: (ts + us)[|ts| + k] == us[k];
  }

  lemma FixedWritable(ty: TokenType)
    requires ty != NUMBER && ty != STRING && ty != IDENT && ty != END_OF_FILE
    ensures Writable(Fixed(ty)) && AllWritable([Fixed(ty)])
  {
    hide Spelling;
  }

  lemma OperatorWritable(op: string)
    requires IsUnary(op) || IsBinary(op)
    ensures AllWritable([Operator(op)])
  {
  }

  lemma NameWritable(name: string)
    requires IsName(name)
    ensures AllWritable([Name(name)])
  {
  }

  lemma Between(first: TokenType, ts: seq<Token>, last: TokenType)
    requires AllWritable(ts)
    requires first == LPAREN || first == LBRACE
    requires last == RPAREN || last == RBRACE
    ensures AllWritable([Fixed(first)] + (ts + [Fixed(last)]))
  {
    hide Writable, AllWritable;
    FixedWritable(first);
    FixedWritable(last);
    Append(ts, [Fixed(last)]);
    Append([Fixed(first)], ts + [Fixed(last)]);
  }

  lemma {:induction false} RenderWritable(level: nat, e: Expr)
    requires level <= 6 && Named(e)
    ensures AllWritable(Render(level, e))
    decreases e, 1, 0
  {
    hide Spelling, Bare, AllWritable, Named;
    BareWritable(e);
    Between(LPAREN, Bare(e), RPAREN);
  }

  lemma AtomWritable(e: Expr)
    requires Named(e) && !e.MemberAccess? && !e.Call? && !e.UnaryOp? && !e.BinaryOp?
    ensures AllWritable(Bare(e))
  {
    hide Spelling;
  }

  lemma {:induction false} BareWritable(e: Expr)
    requires Named(e)
    ensures AllWritable(Bare(e))
    decreases e, 0, 1
  {
    hide Spelling, Render, AllWritable, IsName, IsNumber, IsUnary, IsBinary, RenderArgs, RenderBlock, NamedArgs,
        NamedBody;
    if e.MemberAccess? {
      RenderWritable(6, e.base);
      FixedWritable(DOT);
      NameWritable(e.member);
      Append([Fixed(DOT)], [Name(e.member)]);
      Append(Render(6, e.base), [Fixed(DOT)] + [Name(e.member)]);
      assert [Fixed(DOT)] + [Name(e.member)] == [Fixed(DOT), Name(e.member)];
    } else if e.Call? {
      CallWritable(e);
    } else if e.UnaryOp? {
      OperatorWritable(e.op);
      RenderWritable(5, e.operand);
      Append([Operator(e.op)], Render(5, e.operand));
    } else if e.BinaryOp? {
      var level := BinaryLevel(e.op);
      OperatorWritable(e.op);
      RenderWritable(level, e.lhs);
      RenderWritable(level + 1, e.rhs);
      Append([Operator(e.op)], Render(level + 1, e.rhs));
      Append(Render(level, e.lhs), [Operator(e.op)] + Render(level + 1, e.rhs));
      assert level < 5 by { BinaryIsBelowUnary(e.op); }
    } else {
      AtomWritable(e);
    }
  }

  lemma BinaryIsBelowUnary(op: string)
    requires IsBinary(op)
    ensures BinaryLevel(op) < 5
  {
  }

  lemma {:induction false} CallWritable(e: Expr)
    requires Named(e) && e.Call?
    ensures AllWritable(Bare(e))
    decreases e, 0, 0
  {
    hide Spelling, Render, AllWritable, RenderArgs, RenderBlock, RenderBody, NamedArgs, NamedBody, Writable;
    RenderWritable(6, e.callee);
    ArgsWritable(e.args);
    Between(LPAREN, RenderArgs(e.args), RPAREN);
    NothingWritable();
    var args := if ImplicitCall(e) then [] else [OPEN] + (RenderArgs(e.args) + [CLOSE]);
    var block := if e.block.Braces? then RenderBlock(e.block.body) else [];
    if e.block.Braces? {
      BlockWritable(e.block.body);
    }
    Append(args, block);
    Append(Render(6, e.callee), args + block);
  }

  lemma NothingWritable()
    ensures AllWritable([])
  {
  }

  lemma {:induction false} ArgsWritable(args: seq<CallArg>)
    requires NamedArgs(args)
    ensures AllWritable(RenderArgs(args))
    decreases args, 2
  {
    hide Spelling, AllWritable, RenderArg, NamedArg;
    NothingWritable();
    if args != [] {
      var rest := if |args| == 1 then [] else [Fixed(COMMA)] + RenderArgs(args[1..]);
      ArgWritable(args[0]);
      FixedWritable(COMMA);
      ArgsWritable(args[1..]);
      Append([Fixed(COMMA)], RenderArgs(args[1..]));
      Append(RenderArg(args[0]), rest);
    }
  }

  lemma {:induction false} ArgWritable(arg: CallArg)
    requires NamedArg(arg)
    ensures AllWritable(RenderArg(arg))
    decreases arg, 0
  {
    hide Spelling, AllWritable, Render, Named, IsName;
    NothingWritable();
    RenderWritable(0, arg.value);
    if arg.name != "" {
      NameWritable(arg.name);
      FixedWritable(COLON);
      Append([Name(arg.name)], [Fixed(COLON)]);
      assert [Name(arg.name)] + [Fixed(COLON)] == [Name(arg.name), Fixed(COLON)];
      Append([Name(arg.name), Fixed(COLON)], Render(0, arg.value));
    } else {
      Append([], Render(0, arg.value));
    }
  }

  lemma {:induction false} BlockWritable(body: seq<Stmt>)
    requires NamedBody(body)
    ensures AllWritable(RenderBlock(body))
    decreases body, 3
  {
    hide Spelling, AllWritable, RenderBody, NamedBody;
    BodyWritable(body);
    Between(LBRACE, RenderBody(body), RBRACE);
  }

  lemma {:induction false} BodyWritable(body: seq<Stmt>)
    requires NamedBody(body)
    ensures AllWritable(RenderBody(body))
    decreases body, 2
  {
    hide Spelling, AllWritable, RenderStmt, NamedStmt;
    NothingWritable();
    if body != [] {
      StmtWritable(body[0]);
      BodyWritable(body[1..]);
      Append(RenderStmt(body[0]), RenderBody(body[1..]));
    }
  }

  lemma {:induction false} SentenceWritable(e: Expr)
    requires Named(e)
    ensures AllWritable(Render(0, e) + [SEMI])
    decreases e, 2
  {
    hide Spelling, AllWritable, Render, Named;
    RenderWritable(0, e);
    FixedWritable(SEMICOLON);
    Append(Render(0, e), [SEMI]);
  }

  lemma {:induction false} StmtWritable(s: Stmt)
    requires NamedStmt(s)
    ensures AllWritable(RenderStmt(s))
    decreases s, 1
  {
    hide Spelling, AllWritable, Render, Named, IsName, RenderBlock, RenderElse, NamedBody;
    match s
    case ExprStmt(e) => SentenceWritable(e);
    case AssignStmt(target, e) =>
      SentenceWritable(e);
      NameWritable(target);
      FixedWritable(ASSIGN);
      Append([Name(target)], [Fixed(ASSIGN)]);
      assert [Name(target)] + [Fixed(ASSIGN)] == [Name(target), Fixed(ASSIGN)];
      Append([Name(target), Fixed(ASSIGN)], Render(0, e) + [SEMI]);
    case IfStmt(_, _, _) => IfWritable(s);
    case ReturnStmt(NoValue) => ReturnWritable();
    case ReturnStmt(Given(e)) =>
      SentenceWritable(e);
      FixedWritable(RETURN_KW);
      Append([Fixed(RETURN_KW)], Render(0, e) + [SEMI]);
    case IncludeStmt(name) => IncludeWritable(name);
  }

  lemma ReturnWritable()
    ensures AllWritable([Fixed(RETURN_KW), SEMI])
  {
    FixedWritable(RETURN_KW);
    FixedWritable(SEMICOLON);
    hide Spelling, Writable;
  }

  lemma IncludeWritable(name: string)
    ensures AllWritable([Fixed(INCLUDE_KW), OPEN, Token(STRING, name), CLOSE, SEMI])
  {
    FixedWritable(INCLUDE_KW);
    FixedWritable(LPAREN);
    FixedWritable(RPAREN);
    FixedWritable(SEMICOLON);
    assert Writable(Token(STRING, name));
    hide Spelling, Writable;
  }

  lemma {:induction false} IfWritable(s: Stmt)
    requires NamedStmt(s) && s.IfStmt?
    ensures AllWritable(RenderStmt(s))
    decreases s, 0
  {
    hide Spelling, AllWritable, Render, Named, RenderBlock, RenderElse, NamedBody, Writable;
    var c, t, f := Render(0, s.condition), RenderBlock(s.thenBranch), RenderElse(s.elseBranch);
    RenderWritable(0, s.condition);
    BlockWritable(s.thenBranch);
    ElseWritable(s.elseBranch);
    FixedWritable(IF_KW);
    FixedWritable(LPAREN);
    FixedWritable(RPAREN);
    Append(t, f);
    Append([CLOSE], t + f);
    Append(c, [CLOSE] + (t + f));
    Append([Fixed(IF_KW)], [OPEN]);
    assert [Fixed(IF_KW)] + [OPEN] == [Fixed(IF_KW), OPEN];
    Append([Fixed(IF_KW), OPEN], c + ([CLOSE] + (t + f)));
  }

  lemma {:induction false} ElseWritable(body: seq<Stmt>)
    requires NamedBody(body)
    ensures AllWritable(RenderElse(body))
    decreases body, 4
  {
    hide Spelling, AllWritable, RenderBlock, RenderStmt, NamedStmt;
    NothingWritable();
    if body != [] {
      var rest := if |body| == 1 && body[0].IfStmt? then RenderStmt(body[0]) else RenderBlock(body);
      StmtWritable(body[0]);
      BlockWritable(body);
      FixedWritable(ELSE_KW);
      Append([Fixed(ELSE_KW)], rest);
    }
  }

  // ---- from text to tree ----

  /** The whole front end: the program a source text stands for, if the lexer and the parser accept it. */
  ghost predicate Accepts(src: string, p: Program) {
    var lexed := Lexer.Lex(src, 0);
    && lexed.Ok?
    && var toks := Tokens(lexed.value);
       Parser.Terminated(toks) && Parser.ParseProgram(toks, 0) == Ok(p, |toks| - 1)
  }

  /** A program as text: its tokens with the parentheses the grammar needs, each followed by a space. */
  function Format(p: Program): string {
    Write(RenderBody(p))
  }

  lemma SourceRoundTrip(p: Program)
    requires NamedBody(p)
    ensures Accepts(Format(p), p)
  {
    NamedBodyIsWellFormed(p);
    BodyWritable(p);
    LexRoundTrip(RenderBody(p));
    RoundTrip.ParseRendered(p);
    hide Spelling, RenderBody, Parser.ParseProgram, Lexer.Lex, Write, AllWritable, Tokens;
  }
}
