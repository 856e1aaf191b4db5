/** Tokens and syntax trees of the plugin language ZTL, without source positions. */
module ZtlSyntax {
  import Text

  datatype TokenType =
    | NUMBER | STRING | IDENT | TRUE_KW | FALSE_KW | NULL_KW
    | INCLUDE_KW | IF_KW | ELSE_KW | RETURN_KW
    | LPAREN | RPAREN | LBRACE | RBRACE | LBRACKET | RBRACKET
    | COMMA | COLON | SCOPE | DOT | SEMICOLON | ASSIGN
    | EQ | NEQ | LT | GT | LTE | GTE | BANG | AND | OR | PLUS | MINUS
    | END_OF_FILE

  datatype Token = Token(ty: TokenType, text: string)

  /** The only text a token of this type can have; empty for the types whose text varies. */
  function Spelling(ty: TokenType): string {
    match ty
    case TRUE_KW => "true"
    case FALSE_KW => "false"
    case NULL_KW => "null"
    case INCLUDE_KW => "include"
    case IF_KW => "if"
    case ELSE_KW => "else"
    case RETURN_KW => "return"
    case LPAREN => "("
    case RPAREN => ")"
    case LBRACE => "{"
    case RBRACE => "}"
    case LBRACKET => "["
    case RBRACKET => "]"
    case COMMA => ","
    case COLON => ":"
    case SCOPE => "::"
    case DOT => "."
    case SEMICOLON => ";"
    case ASSIGN => "="
    case EQ => "=="
    case NEQ => "!="
    case LT => "<"
    case GT => ">"
    case LTE => "<="
    case GTE => ">="
    case BANG => "!"
    case AND => "&&"
    case OR => "||"
    case PLUS => "+"
    case MINUS => "-"
    case _ => ""
  }

  function Fixed(ty: TokenType): Token {
    Token(ty, Spelling(ty))
  }

  datatype Expr =
    | LiteralNull
    | LiteralBool(b: bool)
    | LiteralNumber(text: string)
    | LiteralString(s: string)
    | Identifier(name: string)
    | MemberAccess(base: Expr, member: string)
    | ScopedAccess(scope: string, name: string)
    | Call(callee: Expr, args: seq<CallArg>, block: Block)
    | UnaryOp(op: string, operand: Expr)
    | BinaryOp(op: string, lhs: Expr, rhs: Expr)

  /** The name is empty for a positional argument. */
  datatype CallArg = CallArg(name: string, value: Expr)

  datatype Block = NoBlock | Braces(body: seq<Stmt>)

  datatype Value = NoValue | Given(e: Expr)

  datatype Stmt =
    | ExprStmt(expr: Expr)
    | AssignStmt(target: string, value: Expr)
    | IfStmt(condition: Expr, thenBranch: seq<Stmt>, elseBranch: seq<Stmt>)
    | ReturnStmt(result: Value)
    | IncludeStmt(moduleName: string)

  type Program = seq<Stmt>

  // ---- numbers ----

  /** 2^960, from which the limits of a double are built. */
  function Big(): int {
    var word := 0x1_0000_0000_0000_0000;
    var five := word * word * word * word * word;
    five * five * five
  }

  function TenTo(k: nat): (p: nat)
    ensures p > 0
  {
    if k == 0 then 1 else 10 * TenTo(k - 1)
  }

  /** The value rounds to infinity from 2^1024 less half the distance of the largest doubles on. The limit is whole,
      so the fraction does not count. */
  predicate Overflows(whole: nat) {
    whole >= 0xFFFF_FFFF_FFFF_FC00 * Big()
  }

  /** The fraction part / 10^k stays below the normal doubles when rounded to 53 bits, that is below
      (2^54 - 1) / 2^1076, and is no multiple of the smallest double, 1 / 2^1074. */
  predicate Underflows(part: nat, k: nat) {
    var smallest := 0x4_0000_0000_0000_0000_0000_0000_0000 * Big();
    part * smallest * 4 < 0x3F_FFFF_FFFF_FFFF * TenTo(k) && part * smallest % TenTo(k) != 0
  }

  /** A numeral that std::stod takes without an exception, on the GNU C library: it sets ERANGE exactly if the value
      overflows, or is tiny and inexact. */
  predicate InRange(text: string) {
    var e := Text.DigitsEnd(text, 0);
    var whole := Text.Numeral(text, 0, e);
    && !Overflows(whole)
    && (whole == 0 && e < |text| ==>
          var f := Text.DigitsEnd(text, e + 1); !Underflows(Text.Numeral(text, e + 1, f), f - e - 1))
  }

  // ---- operators ----

  /** Binary levels 0..4 from loosest to tightest, 5 for the unary operators. */
  predicate IsOperator(level: nat, ty: TokenType) {
    match level
    case 0 => ty == OR
    case 1 => ty == AND
    case 2 => ty == EQ || ty == NEQ
    case 3 => ty == LT || ty == GT || ty == LTE || ty == GTE
    case 4 => ty == PLUS || ty == MINUS
    case 5 => ty == BANG || ty == MINUS
    case _ => false
  }
}
