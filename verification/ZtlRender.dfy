/** Writing a syntax tree as tokens, with the parentheses the grammar needs and no others. */
module ZtlRender {
  import opened ZtlSyntax

  // ---- operators and their tokens ----

  function OperatorType(op: string): TokenType {
    if op == "||" then OR
    else if op == "&&" then AND
    else if op == "==" then EQ
    else if op == "!=" then NEQ
    else if op == "<" then LT
    else if op == ">" then GT
    else if op == "<=" then LTE
    else if op == ">=" then GTE
    else if op == "+" then PLUS
    else if op == "-" then MINUS
    else BANG
  }

  function BinaryLevel(op: string): (level: nat)
    ensures level <= 5
  {
    var ty := OperatorType(op);
    if ty == OR then 0
    else if ty == AND then 1
    else if ty == EQ || ty == NEQ then 2
    else if ty == LT || ty == GT || ty == LTE || ty == GTE then 3
    else if ty == PLUS || ty == MINUS then 4
    else 5
  }

  predicate IsBinary(op: string) {
    BinaryLevel(op) < 5
  }

  predicate IsUnary(op: string) {
    op == "!" || op == "-"
  }

  lemma BinaryOperator(op: string)
    requires IsBinary(op)
    ensures forall level | level <= 5 :: IsOperator(level, OperatorType(op)) <==>
              level == BinaryLevel(op) || (level == 5 && op == "-")
  {
  }

  /** 0..4 for the binary layers, 5 for unary operators, 6 for everything that postfix accepts. */
  function Level(e: Expr): (level: nat)
    ensures level <= 6
  {
    match e
    case BinaryOp(op, _, _) => BinaryLevel(op)
    case UnaryOp(_, _) => 5
    case _ => 6
  }

  /** The operators are the language's own, and the numbers are doubles. */
  predicate WellFormed(e: Expr)
    decreases e, 0
  {
    match e
    case BinaryOp(op, l, r) => IsBinary(op) && WellFormed(l) && WellFormed(r)
    case UnaryOp(op, x) => IsUnary(op) && WellFormed(x)
    case MemberAccess(o, _) => WellFormed(o)
    case LiteralNumber(text) => InRange(text)
    case Call(c, args, block) =>
      WellFormed(c) && WellFormedArgs(args) && (block.Braces? ==> WellFormedBody(block.body))
    case _ => true
  }

  predicate WellFormedArgs(args: seq<CallArg>)
    decreases args, 1
  {
    args == [] || (WellFormed(args[0].value) && WellFormedArgs(args[1..]))
  }

  predicate WellFormedBody(body: seq<Stmt>)
    decreases body, 1
  {
    body == [] || (WellFormedStmt(body[0]) && WellFormedBody(body[1..]))
  }

  predicate WellFormedStmt(s: Stmt)
    decreases s, 0
  {
    match s
    case ExprStmt(e) => WellFormed(e)
    case AssignStmt(_, e) => WellFormed(e)
    case IfStmt(c, t, f) => WellFormed(c) && WellFormedBody(t) && WellFormedBody(f)
    case ReturnStmt(v) => v.Given? ==> WellFormed(v.e)
    case IncludeStmt(_) => true
  }

  // ---- tokens of a tree ----

  const OPEN := Fixed(LPAREN)
  const CLOSE := Fixed(RPAREN)
  const OPEN_BRACE := Fixed(LBRACE)
  const CLOSE_BRACE := Fixed(RBRACE)
  const SEMI := Fixed(SEMICOLON)

  function Name(name: string): Token {
    Token(IDENT, name)
  }

  function Operator(op: string): Token {
    Token(OperatorType(op), op)
  }

  /** A call without a block: a brace that followed it would be taken for its block. */
  predicate OpenCall(e: Expr) {
    e.Call? && e.block.NoBlock?
  }

  /** `plugin.run { ... }`: a block that makes the call by itself, without parentheses. */
  predicate ImplicitCall(e: Expr) {
    e.Call? && e.block.Braces? && e.args == [] && !OpenCall(e.callee)
  }

  /** The expression where layer `level` is expected. */
  function Render(level: nat, e: Expr): (ts: seq<Token>)
    requires level <= 6
    ensures ts != []
    decreases e, 1, 0
  {
    if Level(e) < level then [OPEN] + (Bare(e) + [CLOSE]) else Bare(e)
  }

  function Bare(e: Expr): (ts: seq<Token>)
    ensures ts != []
    decreases e, 0, 0
  {
    match e
    case LiteralNull => [Fixed(NULL_KW)]
    case LiteralBool(b) => [if b then Fixed(TRUE_KW) else Fixed(FALSE_KW)]
    case LiteralNumber(text) => [Token(NUMBER, text)]
    case LiteralString(s) => [Token(STRING, s)]
    case Identifier(name) => [Name(name)]
    case ScopedAccess(scope, name) => [Name(scope), Fixed(SCOPE), Name(name)]
    case MemberAccess(o, member) => Render(6, o) + [Fixed(DOT), Name(member)]
    case Call(callee, args, block) =>
      Render(6, callee)
      + ((if ImplicitCall(e) then [] else [OPEN] + (RenderArgs(args) + [CLOSE]))
         + (if block.Braces? then RenderBlock(block.body) else []))
    case UnaryOp(op, x) => [Operator(op)] + Render(5, x)
    case BinaryOp(op, l, r) =>
      var level := if BinaryLevel(op) < 5 then BinaryLevel(op) else 4;
      Render(level, l) + ([Operator(op)] + Render(level + 1, r))
  }

  function RenderArgs(args: seq<CallArg>): seq<Token>
    decreases args, 0, 0
  {
    if args == [] then []
    else RenderArg(args[0]) + (if |args| == 1 then [] else [Fixed(COMMA)] + RenderArgs(args[1..]))
  }

  function RenderArg(arg: CallArg): (ts: seq<Token>)
    ensures ts != []
    decreases arg, 0, 0
  {
    (if arg.name == "" then [] else [Name(arg.name), Fixed(COLON)]) + Render(0, arg.value)
  }

  function RenderBlock(body: seq<Stmt>): seq<Token>
    decreases body, 1, 0
  {
    [OPEN_BRACE] + (RenderBody(body) + [CLOSE_BRACE])
  }

  function RenderBody(body: seq<Stmt>): seq<Token>
    decreases body, 0, 0
  {
    if body == [] then [] else RenderStmt(body[0]) + RenderBody(body[1..])
  }

  function RenderStmt(s: Stmt): (ts: seq<Token>)
    ensures ts != []
    decreases s, 0, 0
  {
    match s
    case ExprStmt(e) => Render(0, e) + [SEMI]
    case AssignStmt(target, e) => [Name(target), Fixed(ASSIGN)] + (Render(0, e) + [SEMI])
    case IfStmt(c, t, f) =>
      [Fixed(IF_KW), OPEN] + (Render(0, c) + ([CLOSE] + (RenderBlock(t) + RenderElse(f))))
    case ReturnStmt(NoValue) => [Fixed(RETURN_KW), SEMI]
    case ReturnStmt(Given(e)) => [Fixed(RETURN_KW)] + (Render(0, e) + [SEMI])
    case IncludeStmt(name) => [Fixed(INCLUDE_KW), OPEN, Token(STRING, name), CLOSE, SEMI]
  }

  /** An else-branch that is a single if is written `else if`. */
  function RenderElse(body: seq<Stmt>): seq<Token>
    decreases body, 2, 0
  {
    if body == [] then []
    else [Fixed(ELSE_KW)] + (if |body| == 1 && body[0].IfStmt? then RenderStmt(body[0]) else RenderBlock(body))
  }

  function RenderProgram(p: Program): seq<Token> {
    RenderBody(p) + [Fixed(END_OF_FILE)]
  }
}
