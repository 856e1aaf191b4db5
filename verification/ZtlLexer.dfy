/** What the ZTL lexer makes of a source text. */
module ZtlLexer {
  import opened Text
  import opened ZtlReading
  import opened ZtlSyntax

  datatype LexError = UnterminatedString | TruncatedHex | BadHex | ExpectedAnd | ExpectedOr | UnexpectedCharacter

  type Lexed<+T> = Reading<T, LexError>

  /** A token and the position of its first character. */
  datatype Lexeme = Lexeme(token: Token, at: nat)

  /** The character at i; NUL past the end. */
  function Peek(src: string, i: nat): char {
    if i < |src| then src[i] else '\0'
  }

  // ---- white space and comments ----

  predicate IsSpace(c: char) {
    c == ' ' || c == '\t' || c == '\r' || c == '\n'
  }

  function LineEnd(src: string, i: nat): (e: nat)
    requires i <= |src|
    ensures i <= e <= |src|
    ensures i < |src| && src[i] != '\n' ==> i < e
    decreases |src| - i
  {
    if i < |src| && src[i] != '\n' then LineEnd(src, i + 1) else i
  }

  /** Just past the end of a block comment, from a position inside it. */
  function CommentEnd(src: string, i: nat): (e: nat)
    requires i <= |src|
    ensures i <= e <= |src|
    decreases |src| - i
  {
    if i == |src| then i
    else if src[i] == '*' && Peek(src, i + 1) == '/' then i + 2
    else CommentEnd(src, i + 1)
  }

  function Skip(src: string, i: nat): (p: nat)
    requires i <= |src|
    ensures i <= p <= |src|
    decreases |src| - i
  {
    if i == |src| then i
    else if IsSpace(src[i]) then Skip(src, i + 1)
    else if src[i] == '/' && Peek(src, i + 1) == '/' then Skip(src, LineEnd(src, i))
    else if src[i] == '/' && Peek(src, i + 1) == '*' then Skip(src, CommentEnd(src, i + 2))
    else if src[i] == '#' then Skip(src, LineEnd(src, i))
    else i
  }

  // ---- literals and words ----

  function Hex(c: char): int {
    if '0' <= c <= '9' then c as int - '0' as int
    else if 'a' <= c <= 'f' then 10 + c as int - 'a' as int
    else if 'A' <= c <= 'F' then 10 + c as int - 'A' as int
    else -1
  }

  /** The character a one-letter escape stands for. */
  function Unescape(esc: char): char {
    if esc == 'n' then '\n'
    else if esc == 't' then '\t'
    else if esc == 'r' then '\r'
    else if esc == '0' then '\0'
    else esc
  }

  /** The rest of a string literal that opened at `start`, from position i on. */
  function StringRest(src: string, start: nat, i: nat, out: string): (r: Lexed<string>)
    requires i <= |src|
    ensures r.Ok? ==> i < r.pos <= |src|
    decreases |src| - i
  {
    if i == |src| then Err(UnterminatedString, start)
    else if src[i] == '"' then Ok(out, i + 1)
    else if src[i] == '\\' && i + 1 < |src| then
      if src[i + 1] != 'x' then StringRest(src, start, i + 2, out + [Unescape(src[i + 1])])
      else if i + 3 >= |src| then Err(TruncatedHex, start)
      else if Hex(src[i + 2]) < 0 || Hex(src[i + 3]) < 0 then Err(BadHex, start)
      else StringRest(src, start, i + 4, out + [(Hex(src[i + 2]) * 16 + Hex(src[i + 3])) as char])
    else StringRest(src, start, i + 1, out + [src[i]])
  }

  function NumberEnd(src: string, i: nat): (e: nat)
    requires i <= |src|
    ensures i <= e <= |src|
  {
    var e := DigitsEnd(src, i);
    if Peek(src, e) == '.' && IsDigit(Peek(src, e + 1)) then DigitsEnd(src, e + 1) else e
  }

  predicate IsWordChar(c: char) {
    IsAlpha(c) || IsDigit(c) || c == '_'
  }

  function WordEnd(src: string, i: nat): (e: nat)
    requires i <= |src|
    ensures i <= e <= |src|
    decreases |src| - i
  {
    if i < |src| && IsWordChar(src[i]) then WordEnd(src, i + 1) else i
  }

  function WordType(word: string): TokenType {
    if word == "include" then INCLUDE_KW
    else if word == "if" then IF_KW
    else if word == "else" then ELSE_KW
    else if word == "return" then RETURN_KW
    else if word == "true" then TRUE_KW
    else if word == "false" then FALSE_KW
    else if word == "null" then NULL_KW
    else IDENT
  }

  // ---- punctuation ----

  /** A character that is a token on its own; END_OF_FILE for the others. */
  function SingleType(c: char): TokenType {
    match c
    case '(' => LPAREN
    case ')' => RPAREN
    case '{' => LBRACE
    case '}' => RBRACE
    case '[' => LBRACKET
    case ']' => RBRACKET
    case ',' => COMMA
    case ';' => SEMICOLON
    case '.' => DOT
    case '+' => PLUS
    case '-' => MINUS
    case _ => END_OF_FILE
  }

  /** A character that may be doubled or followed by '=': its second character, the type with it and the
      type without it, where END_OF_FILE means that it cannot stand alone. */
  function PairOf(c: char): (char, TokenType, TokenType) {
    match c
    case ':' => (':', SCOPE, COLON)
    case '=' => ('=', EQ, ASSIGN)
    case '!' => ('=', NEQ, BANG)
    case '<' => ('=', LTE, LT)
    case '>' => ('=', GTE, GT)
    case '&' => ('&', AND, END_OF_FILE)
    case '|' => ('|', OR, END_OF_FILE)
    case _ => ('\0', END_OF_FILE, END_OF_FILE)
  }

  function Punctuation(src: string, i: nat): (r: Lexed<Token>)
    requires i < |src|
    ensures r.Ok? ==> i < r.pos <= |src|
  {
    var c := src[i];
    var (second, pair, single) := PairOf(c);
    if SingleType(c) != END_OF_FILE then Ok(Fixed(SingleType(c)), i + 1)
    else if pair == END_OF_FILE then Err(UnexpectedCharacter, i)
    else if Peek(src, i + 1) == second && i + 1 < |src| then Ok(Fixed(pair), i + 2)
    else if single != END_OF_FILE then Ok(Fixed(single), i + 1)
    else Err(if c == '&' then ExpectedAnd else ExpectedOr, i)
  }

  // ---- the token stream ----

  /** The token that starts at a position Skip stopped at. */
  function NextToken(src: string, i: nat): (r: Lexed<Token>)
    requires i < |src|
    ensures r.Ok? ==> i < r.pos <= |src|
  {
    if src[i] == '"' then
      var (text, e) :- StringRest(src, i, i + 1, "");
      Ok(Token(STRING, text), e)
    else if IsDigit(src[i]) then
      assert DigitsEnd(src, i) > i;
      Ok(Token(NUMBER, src[i..NumberEnd(src, i)]), NumberEnd(src, i))
    else if IsAlpha(src[i]) || src[i] == '_' then
      assert WordEnd(src, i) > i;
      var word := src[i..WordEnd(src, i)];
      Ok(Token(WordType(word), word), WordEnd(src, i))
    else Punctuation(src, i)
  }

  function Lex(src: string, i: nat): (r: Lexed<seq<Lexeme>>)
    requires i <= |src|
    decreases |src| - i
  {
    var p := Skip(src, i);
    if p == |src| then Ok([Lexeme(Fixed(END_OF_FILE), p)], p)
    else
      var (t, e) :- NextToken(src, p);
      var (rest, end) :- Lex(src, e);
      Ok([Lexeme(t, p)] + rest, end)
  }

  // ---- lines and columns ----

  function LineAt(src: string, i: nat): nat
    requires i <= |src|
  {
    if i == 0 then 1 else LineAt(src, i - 1) + (if src[i - 1] == '\n' then 1 else 0)
  }

  function ColAt(src: string, i: nat): nat
    requires i <= |src|
  {
    if i == 0 || src[i - 1] == '\n' then 1 else ColAt(src, i - 1) + 1
  }

  /** A column counts the characters of its line, and a line the line feeds before it. */
  lemma {:induction false} LineAndColumn(src: string, i: nat)
    requires i <= |src|
    ensures var start := i - (ColAt(src, i) - 1);
            && 0 <= start <= i
            && (start == 0 || src[start - 1] == '\n')
            && (forall k | start <= k < i :: src[k] != '\n')
    ensures LineAt(src, i) == 1 + multiset(src[..i])['\n']
  {
    if i > 0 {
      LineAndColumn(src, i - 1);
      assert src[..i] == src[..i - 1] + [src[i - 1]];
    }
  }
}
