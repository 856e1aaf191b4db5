/** The recursive-descent parser of ZTL: what it computes, as functions on a token vector. */
module ZtlParser {
  import opened ZtlReading
  import opened ZtlSyntax

  /** What a ParseError says was expected, or the exception of std::stod. */
  datatype Expected =
    | IncludeOpen | ModuleName | IncludeClose | IfOpen | IfClose | BlockOpen | BlockClose
    | MemberName | ScopedName | ArgsOpen | Close | SomethingElse | OutOfRange

  type Parsed<+T> = Reading<T, Expected>

  /** What the lexer delivers: a vector that ends in END_OF_FILE. */
  predicate Terminated(toks: seq<Token>) {
    toks != [] && toks[|toks| - 1].ty == END_OF_FILE
  }

  predicate Within(toks: seq<Token>, pos: nat) {
    Terminated(toks) && pos < |toks|
  }

  function TypeAt(toks: seq<Token>, pos: nat): TokenType
    requires Terminated(toks)
  {
    if pos < |toks| then toks[pos].ty else END_OF_FILE
  }

  predicate Advanced<T>(r: Parsed<T>, toks: seq<Token>, pos: nat) {
    r.Ok? ==> pos < r.pos < |toks|
  }

  function Expect(toks: seq<Token>, pos: nat, ty: TokenType, what: Expected): (r: Parsed<string>)
    requires Within(toks, pos) && ty != END_OF_FILE
    ensures Advanced(r, toks, pos) && (r.Ok? ==> r.pos == pos + 1)
  {
    if toks[pos].ty == ty then Ok(toks[pos].text, pos + 1) else Err(what, pos)
  }

  /** Past an optional semicolon. */
  function Semi(toks: seq<Token>, pos: nat): (p: nat)
    requires Within(toks, pos)
    ensures pos <= p < |toks|
  {
    if toks[pos].ty == SEMICOLON then pos + 1 else pos
  }

  // ---- statements ----

  function ParseProgram(toks: seq<Token>, pos: nat): (r: Parsed<Program>)
    requires Within(toks, pos)
    ensures r.Ok? ==> pos <= r.pos < |toks|
    decreases |toks| - pos, 10
  {
    if toks[pos].ty == END_OF_FILE then Ok([], pos)
    else
      var (s, p) :- ParseStatement(toks, pos);
      var (rest, q) :- ParseProgram(toks, p);
      Ok([s] + rest, q)
  }

  function ParseStatement(toks: seq<Token>, pos: nat): (r: Parsed<Stmt>)
    requires Within(toks, pos)
    ensures Advanced(r, toks, pos)
    decreases |toks| - pos, 9
  {
    var ty := toks[pos].ty;
    if ty == INCLUDE_KW then ParseInclude(toks, pos)
    else if ty == IF_KW then ParseIf(toks, pos)
    else if ty == RETURN_KW then ParseReturn(toks, pos)
    else if ty == IDENT && TypeAt(toks, pos + 1) == ASSIGN then
      var (value, p) :- ParseLevel(0, toks, pos + 2);
      Ok(AssignStmt(toks[pos].text, value), Semi(toks, p))
    else
      var (e, p) :- ParseLevel(0, toks, pos);
      Ok(ExprStmt(e), Semi(toks, p))
  }

  function ParseInclude(toks: seq<Token>, pos: nat): (r: Parsed<Stmt>)
    requires Within(toks, pos) && toks[pos].ty == INCLUDE_KW
    ensures Advanced(r, toks, pos)
  {
    var (_, p) :- Expect(toks, pos + 1, LPAREN, IncludeOpen);
    var (name, q) :- Expect(toks, p, STRING, ModuleName);
    var (_, end) :- Expect(toks, q, RPAREN, IncludeClose);
    Ok(IncludeStmt(name), Semi(toks, end))
  }

  function ParseIf(toks: seq<Token>, pos: nat): (r: Parsed<Stmt>)
    requires Within(toks, pos) && toks[pos].ty == IF_KW
    ensures Advanced(r, toks, pos)
    decreases |toks| - pos, 8
  {
    var (_, p) :- Expect(toks, pos + 1, LPAREN, IfOpen);
    var (condition, q) :- ParseLevel(0, toks, p);
    var (_, b) :- Expect(toks, q, RPAREN, IfClose);
    var (thenBranch, e) :- ParseBlock(toks, b);
    var (elseBranch, end) :- ParseElse(toks, e);
    Ok(IfStmt(condition, thenBranch, elseBranch), end)
  }

  /** What may follow a then-branch: nothing, another if as the only statement, or a block. */
  function ParseElse(toks: seq<Token>, pos: nat): (r: Parsed<seq<Stmt>>)
    requires Within(toks, pos)
    ensures r.Ok? ==> pos <= r.pos < |toks|
    decreases |toks| - pos, 9
  {
    if toks[pos].ty != ELSE_KW then Ok([], pos)
    else if toks[pos + 1].ty == IF_KW then
      var (s, end) :- ParseIf(toks, pos + 1);
      Ok([s], end)
    else ParseBlock(toks, pos + 1)
  }

  predicate EndsReturn(ty: TokenType) {
    ty == SEMICOLON || ty == RBRACE || ty == END_OF_FILE
  }

  function ParseReturn(toks: seq<Token>, pos: nat): (r: Parsed<Stmt>)
    requires Within(toks, pos) && toks[pos].ty == RETURN_KW
    ensures Advanced(r, toks, pos)
    decreases |toks| - pos, 8
  {
    if EndsReturn(toks[pos + 1].ty) then Ok(ReturnStmt(NoValue), Semi(toks, pos + 1))
    else
      var (e, p) :- ParseLevel(0, toks, pos + 1);
      Ok(ReturnStmt(Given(e)), Semi(toks, p))
  }

  function ParseBlock(toks: seq<Token>, pos: nat): (r: Parsed<seq<Stmt>>)
    requires Within(toks, pos)
    ensures Advanced(r, toks, pos)
    decreases |toks| - pos, 1
  {
    var (_, p) :- Expect(toks, pos, LBRACE, BlockOpen);
    var (body, q) :- ParseBody(toks, p);
    var (_, end) :- Expect(toks, q, RBRACE, BlockClose);
    Ok(body, end)
  }

  function ParseBody(toks: seq<Token>, pos: nat): (r: Parsed<seq<Stmt>>)
    requires Within(toks, pos)
    ensures r.Ok? ==> pos <= r.pos < |toks|
    decreases |toks| - pos, 10
  {
    if toks[pos].ty == RBRACE || toks[pos].ty == END_OF_FILE then Ok([], pos)
    else
      var (s, p) :- ParseStatement(toks, pos);
      var (rest, q) :- ParseBody(toks, p);
      Ok([s] + rest, q)
  }

  // ---- expressions ----

  /** Levels 0..4 are the binary layers or, and, equality, comparison and additive; 5 is unary. */
  function ParseLevel(level: nat, toks: seq<Token>, pos: nat): (r: Parsed<Expr>)
    requires level <= 5 && Within(toks, pos)
    ensures Advanced(r, toks, pos)
    decreases |toks| - pos, 7 - level
  {
    if level == 5 then
      if IsOperator(5, toks[pos].ty) then
        var (operand, p) :- ParseLevel(5, toks, pos + 1);
        Ok(UnaryOp(toks[pos].text, operand), p)
      else ParsePostfix(toks, pos)
    else
      var (lhs, p) :- ParseLevel(level + 1, toks, pos);
      BinaryTail(level, lhs, toks, p)
  }

  /** The loop of a binary layer, once its first operand is there. */
  function BinaryTail(level: nat, lhs: Expr, toks: seq<Token>, pos: nat): (r: Parsed<Expr>)
    requires level < 5 && Within(toks, pos)
    ensures r.Ok? ==> pos <= r.pos < |toks|
    decreases |toks| - pos, 7 - level
  {
    if IsOperator(level, toks[pos].ty) then
      var (rhs, p) :- ParseLevel(level + 1, toks, pos + 1);
      BinaryTail(level, BinaryOp(toks[pos].text, lhs, rhs), toks, p)
    else Ok(lhs, pos)
  }

  function ParsePostfix(toks: seq<Token>, pos: nat): (r: Parsed<Expr>)
    requires Within(toks, pos)
    ensures Advanced(r, toks, pos)
    decreases |toks| - pos, 1
  {
    var (node, p) :- ParsePrimary(toks, pos);
    PostfixTail(node, toks, p)
  }

  function PostfixTail(node: Expr, toks: seq<Token>, pos: nat): (r: Parsed<Expr>)
    requires Within(toks, pos)
    ensures r.Ok? ==> pos <= r.pos < |toks|
    decreases |toks| - pos, 3
  {
    if toks[pos].ty == DOT then
      var (name, p) :- Expect(toks, pos + 1, IDENT, MemberName);
      PostfixTail(MemberAccess(node, name), toks, p)
    else if toks[pos].ty == LPAREN then
      var (args, p) :- ParseCallArgs(toks, pos);
      if toks[p].ty == LBRACE then
        var (body, q) :- ParseBlock(toks, p);
        PostfixTail(Call(node, args, Braces(body)), toks, q)
      else PostfixTail(Call(node, args, NoBlock), toks, p)
    else if toks[pos].ty == LBRACE then
      var (body, p) :- ParseBlock(toks, pos);
      PostfixTail(Call(node, [], Braces(body)), toks, p)
    else Ok(node, pos)
  }

  function ParseCallArgs(toks: seq<Token>, pos: nat): (r: Parsed<seq<CallArg>>)
    requires Within(toks, pos)
    ensures Advanced(r, toks, pos)
    decreases |toks| - pos, 2
  {
    var (_, p) :- Expect(toks, pos, LPAREN, ArgsOpen);
    var (args, q) :- ParseArgs(toks, p);
    var (_, end) :- Expect(toks, q, RPAREN, Close);
    Ok(args, end)
  }

  /** A named argument starts with an identifier and a colon. */
  predicate NamedAt(toks: seq<Token>, pos: nat)
    requires Within(toks, pos)
  {
    toks[pos].ty == IDENT && TypeAt(toks, pos + 1) == COLON
  }

  function ParseArgs(toks: seq<Token>, pos: nat): (r: Parsed<seq<CallArg>>)
    requires Within(toks, pos)
    ensures r.Ok? ==> pos <= r.pos < |toks|
    decreases |toks| - pos, 9
  {
    if toks[pos].ty == RPAREN || toks[pos].ty == END_OF_FILE then Ok([], pos)
    else
      var (arg, p) :- ParseArg(toks, pos);
      if toks[p].ty != COMMA then Ok([arg], p)
      else
        var (rest, q) :- ParseArgs(toks, p + 1);
        Ok([arg] + rest, q)
  }

  function ParseArg(toks: seq<Token>, pos: nat): (r: Parsed<CallArg>)
    requires Within(toks, pos)
    ensures Advanced(r, toks, pos)
    decreases |toks| - pos, 8
  {
    if NamedAt(toks, pos) then
      var (value, p) :- ParseLevel(0, toks, pos + 2);
      Ok(CallArg(toks[pos].text, value), p)
    else
      var (value, p) :- ParseLevel(0, toks, pos);
      Ok(CallArg("", value), p)
  }

  function ParsePrimary(toks: seq<Token>, pos: nat): (r: Parsed<Expr>)
    requires Within(toks, pos)
    ensures Advanced(r, toks, pos)
    decreases |toks| - pos, 0
  {
    var t := toks[pos];
    if t.ty == NUMBER then
      if InRange(t.text) then Ok(LiteralNumber(t.text), pos + 1) else Err(OutOfRange, pos)
    else if t.ty == STRING then Ok(LiteralString(t.text), pos + 1)
    else if t.ty == TRUE_KW then Ok(LiteralBool(true), pos + 1)
    else if t.ty == FALSE_KW then Ok(LiteralBool(false), pos + 1)
    else if t.ty == NULL_KW then Ok(LiteralNull, pos + 1)
    else if t.ty == IDENT then
      if toks[pos + 1].ty == SCOPE then
        var (name, p) :- Expect(toks, pos + 2, IDENT, ScopedName);
        Ok(ScopedAccess(t.text, name), p)
      else Ok(Identifier(t.text), pos + 1)
    else if t.ty == LPAREN then
      var (e, p) :- ParseLevel(0, toks, pos + 1);
      var (_, end) :- Expect(toks, p, RPAREN, Close);
      Ok(e, end)
    else Err(SomethingElse, pos)
  }

  // ---- one step of the recursive functions ----

  lemma UnfoldLevel(level: nat, toks: seq<Token>, pos: nat)
    requires level < 5 && Within(toks, pos)
    ensures var lhs := ParseLevel(level + 1, toks, pos);
            ParseLevel(level, toks, pos) ==
            if lhs.Ok? then BinaryTail(level, lhs.value, toks, lhs.pos) else Err(lhs.error, lhs.at)
  {
    hide BinaryTail;
  }

  lemma UnfoldTail(level: nat, lhs: Expr, toks: seq<Token>, pos: nat)
    requires level < 5 && Within(toks, pos)
    ensures IsOperator(level, toks[pos].ty) ==> pos + 1 < |toks|
    ensures BinaryTail(level, lhs, toks, pos) ==
            if IsOperator(level, toks[pos].ty) then
              var rhs := ParseLevel(level + 1, toks, pos + 1);
              if rhs.Ok? then BinaryTail(level, BinaryOp(toks[pos].text, lhs, rhs.value), toks, rhs.pos)
              else Err(rhs.error, rhs.at)
            else Ok(lhs, pos)
  {
    hide ParseLevel;
  }

  lemma UnfoldArgs(toks: seq<Token>, pos: nat)
    requires Within(toks, pos)
    ensures toks[pos].ty == RPAREN || toks[pos].ty == END_OF_FILE ==> ParseArgs(toks, pos) == Ok([], pos)
    ensures toks[pos].ty != RPAREN && toks[pos].ty != END_OF_FILE ==>
              var arg := ParseArg(toks, pos);
              ParseArgs(toks, pos) ==
              if arg.Err? then Err(arg.error, arg.at)
              else if toks[arg.pos].ty != COMMA then Ok([arg.value], arg.pos)
              else Prepend([arg.value], ParseArgs(toks, arg.pos + 1))
  {
    hide ParseArg;
  }

  lemma UnfoldUnary(toks: seq<Token>, pos: nat)
    requires Within(toks, pos)
    ensures ParseLevel(5, toks, pos) ==
            if IsOperator(5, toks[pos].ty) then
              var operand := ParseLevel(5, toks, pos + 1);
              if operand.Ok? then Ok(UnaryOp(toks[pos].text, operand.value), operand.pos)
              else Err(operand.error, operand.at)
            else ParsePostfix(toks, pos)
  {
    hide ParsePostfix;
  }

  lemma UnfoldPostfix(toks: seq<Token>, pos: nat)
    requires Within(toks, pos)
    ensures var node := ParsePrimary(toks, pos);
            ParsePostfix(toks, pos) ==
            if node.Ok? then PostfixTail(node.value, toks, node.pos) else Err(node.error, node.at)
  {
    hide ParsePrimary, PostfixTail;
  }

  lemma TailMember(node: Expr, toks: seq<Token>, pos: nat)
    requires Within(toks, pos) && toks[pos].ty == DOT && toks[pos + 1].ty == IDENT
    ensures pos + 2 < |toks|
    ensures PostfixTail(node, toks, pos) == PostfixTail(MemberAccess(node, toks[pos + 1].text), toks, pos + 2)
  {
  }

  lemma TailCall(node: Expr, toks: seq<Token>, pos: nat)
    requires Within(toks, pos) && toks[pos].ty == LPAREN
    ensures var args := ParseCallArgs(toks, pos);
            args.Ok? ==>
              PostfixTail(node, toks, pos) ==
              if toks[args.pos].ty != LBRACE then PostfixTail(Call(node, args.value, NoBlock), toks, args.pos)
              else
                var body := ParseBlock(toks, args.pos);
                if body.Ok? then PostfixTail(Call(node, args.value, Braces(body.value)), toks, body.pos)
                else Err(body.error, body.at)
  {
    hide ParseCallArgs, ParseBlock;
  }

  lemma TailBlock(node: Expr, toks: seq<Token>, pos: nat)
    requires Within(toks, pos) && toks[pos].ty == LBRACE
    ensures var body := ParseBlock(toks, pos);
            PostfixTail(node, toks, pos) ==
            if body.Ok? then PostfixTail(Call(node, [], Braces(body.value)), toks, body.pos)
            else Err(body.error, body.at)
  {
    hide ParseBlock;
  }

  lemma TailEnd(node: Expr, toks: seq<Token>, pos: nat)
    requires Within(toks, pos) && toks[pos].ty != DOT && toks[pos].ty != LPAREN && toks[pos].ty != LBRACE
    ensures PostfixTail(node, toks, pos) == Ok(node, pos)
  {
  }

  lemma UnfoldParens(toks: seq<Token>, pos: nat)
    requires Within(toks, pos) && toks[pos].ty == LPAREN
    ensures var e := ParseLevel(0, toks, pos + 1);
            e.Ok? && toks[e.pos].ty == RPAREN ==> ParsePrimary(toks, pos) == Ok(e.value, e.pos + 1)
  {
    hide ParseLevel;
  }

  lemma UnfoldCallArgs(toks: seq<Token>, pos: nat)
    requires Within(toks, pos) && toks[pos].ty == LPAREN
    ensures var args := ParseArgs(toks, pos + 1);
            args.Ok? && toks[args.pos].ty == RPAREN ==> ParseCallArgs(toks, pos) == Ok(args.value, args.pos + 1)
  {
    hide ParseArgs;
  }

  lemma UnfoldBlock(toks: seq<Token>, pos: nat)
    requires Within(toks, pos) && toks[pos].ty == LBRACE
    ensures var body := ParseBody(toks, pos + 1);
            body.Ok? && toks[body.pos].ty == RBRACE ==> ParseBlock(toks, pos) == Ok(body.value, body.pos + 1)
  {
    hide ParseBody;
  }

  lemma UnfoldBody(toks: seq<Token>, pos: nat)
    requires Within(toks, pos)
    ensures toks[pos].ty == RBRACE || toks[pos].ty == END_OF_FILE ==> ParseBody(toks, pos) == Ok([], pos)
    ensures toks[pos].ty != RBRACE && toks[pos].ty != END_OF_FILE ==>
              var s := ParseStatement(toks, pos);
              ParseBody(toks, pos) ==
              if s.Ok? then Prepend([s.value], ParseBody(toks, s.pos)) else Err(s.error, s.at)
  {
    hide ParseStatement;
  }

  lemma UnfoldProgram(toks: seq<Token>, pos: nat)
    requires Within(toks, pos)
    ensures toks[pos].ty == END_OF_FILE ==> ParseProgram(toks, pos) == Ok([], pos)
    ensures toks[pos].ty != END_OF_FILE ==>
              var s := ParseStatement(toks, pos);
              ParseProgram(toks, pos) ==
              if s.Ok? then Prepend([s.value], ParseProgram(toks, s.pos)) else Err(s.error, s.at)
  {
    hide ParseStatement;
  }

  lemma UnfoldIf(toks: seq<Token>, pos: nat)
    requires Within(toks, pos) && toks[pos].ty == IF_KW && toks[pos + 1].ty == LPAREN
    ensures pos + 2 < |toks|
    ensures var c := ParseLevel(0, toks, pos + 2);
            c.Ok? && toks[c.pos].ty == RPAREN ==>
              var t := ParseBlock(toks, c.pos + 1);
              t.Ok? ==>
                var f := ParseElse(toks, t.pos);
                f.Ok? ==> ParseIf(toks, pos) == Ok(IfStmt(c.value, t.value, f.value), f.pos)
  {
    hide ParseLevel, ParseBlock, ParseElse;
  }

  lemma UnfoldReturn(toks: seq<Token>, pos: nat)
    requires Within(toks, pos) && toks[pos].ty == RETURN_KW
    ensures EndsReturn(toks[pos + 1].ty) ==>
              ParseStatement(toks, pos) == Ok(ReturnStmt(NoValue), Semi(toks, pos + 1))
    ensures !EndsReturn(toks[pos + 1].ty) ==>
              var e := ParseLevel(0, toks, pos + 1);
              e.Ok? ==> ParseStatement(toks, pos) == Ok(ReturnStmt(Given(e.value)), Semi(toks, e.pos))
  {
    hide ParseLevel, ParseIf, ParseInclude;
  }

  lemma UnfoldAssign(toks: seq<Token>, pos: nat)
    requires Within(toks, pos) && toks[pos].ty == IDENT && TypeAt(toks, pos + 1) == ASSIGN
    ensures pos + 2 < |toks|
    ensures var e := ParseLevel(0, toks, pos + 2);
            e.Ok? ==> ParseStatement(toks, pos) == Ok(AssignStmt(toks[pos].text, e.value), Semi(toks, e.pos))
  {
    hide ParseLevel, ParseIf, ParseInclude, ParseReturn;
  }

  lemma UnfoldExprStmt(toks: seq<Token>, pos: nat)
    requires Within(toks, pos)
    requires toks[pos].ty != INCLUDE_KW && toks[pos].ty != IF_KW && toks[pos].ty != RETURN_KW
    requires toks[pos].ty == IDENT ==> TypeAt(toks, pos + 1) != ASSIGN
    ensures var e := ParseLevel(0, toks, pos);
            e.Ok? ==> ParseStatement(toks, pos) == Ok(ExprStmt(e.value), Semi(toks, e.pos))
  {
    hide ParseLevel, ParseIf, ParseInclude, ParseReturn;
  }
}
