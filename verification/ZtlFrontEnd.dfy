/** From program tree to source text and back. */
module ZtlFrontEnd {
  import opened Sequences
  import opened Text
  import opened ZtlReading
  import opened ZtlSyntax
  import opened ZtlRender
  import Lexer = ZtlLexer
  import Parser = ZtlParser
  import RoundTrip = ZtlRoundTrip

  // ---- tokens that can be written down ----

  predicate IsNumber(text: string) {
    text != "" && IsDigit(text[0]) && Lexer.NumberEnd(text, 0) == |text|
  }

  predicate IsWord(text: string) {
    text != "" && (IsAlpha(text[0]) || text[0] == '_') && forall k | 0 <= k < |text| :: Lexer.IsWordChar(text[k])
  }

  predicate IsName(text: string) {
    IsWord(text) && Lexer.WordType(text) == IDENT
  }

  /** A token the lexer can produce, other than the final one. */
  predicate Writable(t: Token) {
    match t.ty
    case NUMBER => IsNumber(t.text)
    case STRING => true
    case IDENT => IsName(t.text)
    case END_OF_FILE => false
    case _ => t.text == Spelling(t.ty)
  }

  function Escape(s: string): string {
    if s == "" then ""
    else (if s[0] == '"' || s[0] == '\\' then ['\\', s[0]] else [s[0]]) + Escape(s[1..])
  }

  function Show(t: Token): string {
    if t.ty == STRING then ['"'] + (Escape(t.text) + ['"']) else t.text
  }

  /** The tokens in a row, each followed by a space. */
  function Write(ts: seq<Token>): string {
    if ts == [] then "" else Show(ts[0]) + ([' '] + Write(ts[1..]))
  }

  // ---- a piece of the source ----

  lemma Next(src: string, i: nat, c: char, rest: string)
    requires At(src, i, [c] + rest)
    ensures i < |src| && src[i] == c && At(src, i + 1, rest)
  {
    Halves(src, i, [c], rest);
    ItemAt(src, i, [c], 0);
  }

  // ---- one token ----

  /** The token is read whole, and the space after it is not part of it. */
  ghost predicate ReadsAs(src: string, i: nat, t: Token) {
    i < |src| && Lexer.NextToken(src, i) == Ok(t, i + |Show(t)|)
  }

  lemma {:induction false} WordEndAt(src: string, i: nat, e: nat)
    requires i <= e < |src| && !Lexer.IsWordChar(src[e])
    requires forall k | i <= k < e :: Lexer.IsWordChar(src[k])
    ensures Lexer.WordEnd(src, i) == e
    decreases e - i
  {
    if i < e {
      WordEndAt(src, i + 1, e);
    }
  }

  lemma ReadWord(src: string, i: nat, word: string)
    requires IsWord(word) && At(src, i, word) && i + |word| < |src| && src[i + |word|] == ' '
    ensures Lexer.NextToken(src, i) == Ok(Token(Lexer.WordType(word), word), i + |word|)
  {
    hide Lexer.WordType, Lexer.Punctuation;
    var e := i + |word|;
    forall k | i <= k < e ensures Lexer.IsWordChar(src[k]) {
      ItemAt(src, i, word, k - i);
    }
    WordEndAt(src, i, e);
    ItemAt(src, i, word, 0);
  }

  lemma {:induction false} DigitsEndMoves(src: string, i: nat, text: string, k: nat)
    requires At(src, i, text) && i + |text| < |src| && src[i + |text|] == ' ' && k <= |text|
    ensures DigitsEnd(src, i + k) == i + DigitsEnd(text, k)
    decreases |text| - k
  {
    if k < |text| {
      ItemAt(src, i, text, k);
      DigitsEndMoves(src, i, text, k + 1);
    }
  }

  lemma ReadNumber(src: string, i: nat, text: string)
    requires IsNumber(text) && At(src, i, text) && i + |text| < |src| && src[i + |text|] == ' '
    ensures Lexer.NextToken(src, i) == Ok(Token(NUMBER, text), i + |text|)
  {
    var e := DigitsEnd(text, 0);
    DigitsEndMoves(src, i, text, 0);
    ItemAt(src, i, text, 0);
    if e < |text| {
      ItemAt(src, i, text, e);
      ItemAt(src, i, text, e + 1);
      DigitsEndMoves(src, i, text, e + 1);
    }
    assert Lexer.NumberEnd(src, i) == i + |text|;
  }

  lemma {:induction false} ReadString(src: string, start: nat, i: nat, out: string, s: string)
    requires At(src, i, Escape(s) + ['"'])
    ensures Lexer.StringRest(src, start, i, out) == Ok(out + s, i + |Escape(s)| + 1)
    decreases |s|
  {
    if s == "" {
      Next(src, i, '"', "");
      assert out + s == out;
    } else {
      var rest := Escape(s[1..]) + ['"'];
      if s[0] == '"' || s[0] == '\\' {
        assert Escape(s) + ['"'] == ['\\'] + ([s[0]] + rest);
        Next(src, i, '\\', [s[0]] + rest);
        Next(src, i + 1, s[0], rest);
        ReadString(src, start, i + 2, out + [s[0]], s[1..]);
      } else {
        assert Escape(s) + ['"'] == [s[0]] + rest;
        Next(src, i, s[0], rest);
        ReadString(src, start, i + 1, out + [s[0]], s[1..]);
      }
      assert out + [s[0]] + s[1..] == out + s;
    }
  }

  lemma ReadStringToken(src: string, i: nat, s: string)
    requires At(src, i, ['"'] + (Escape(s) + ['"']))
    ensures i < |src| && Lexer.NextToken(src, i) == Ok(Token(STRING, s), i + |Escape(s)| + 2)
  {
    hide Escape;
    Next(src, i, '"', Escape(s) + ['"']);
    ReadString(src, i, i + 1, "", s);
    assert "" + s == s;
  }

  predicate IsPunctuation(ty: TokenType) {
    ty == LPAREN || ty == RPAREN || ty == LBRACE || ty == RBRACE || ty == LBRACKET || ty == RBRACKET || ty == COMMA
    || ty == COLON || ty == SCOPE || ty == DOT || ty == SEMICOLON || ty == ASSIGN || ty == EQ || ty == NEQ || ty == LT
    || ty == GT || ty == LTE || ty == GTE || ty == BANG || ty == AND || ty == OR || ty == PLUS || ty == MINUS
  }

  /** How the lexer's two tables and the spellings fit together. */
  lemma PunctuationShape(ty: TokenType)
    requires IsPunctuation(ty)
    ensures var text := Spelling(ty);
            && 1 <= |text| <= 2 && !IsAlpha(text[0]) && !IsDigit(text[0]) && text[0] != '_' && text[0] != '"'
            && var alone, (second, pair, single) := Lexer.SingleType(text[0]), Lexer.PairOf(text[0]);
               && (|text| == 1 ==>
                     alone == ty || (alone == END_OF_FILE && single == ty && pair != END_OF_FILE && second != ' '))
               && (|text| == 2 ==> alone == END_OF_FILE && pair == ty && second == text[1])
  {
  }

  lemma ReadPunctuation(src: string, i: nat, ty: TokenType)
    requires IsPunctuation(ty)
    requires At(src, i, Spelling(ty)) && i + |Spelling(ty)| < |src| && src[i + |Spelling(ty)|] == ' '
    ensures Lexer.NextToken(src, i) == Ok(Fixed(ty), i + |Spelling(ty)|)
  {
    var text := Spelling(ty);
    PunctuationShape(ty);
    ItemAt(src, i, text, 0);
    if |text| == 2 {
      ItemAt(src, i, text, 1);
    }
    hide Spelling, At;
  }

  lemma WordTypes(ty: TokenType)
    requires !IsPunctuation(ty) && ty != NUMBER && ty != STRING && ty != IDENT && ty != END_OF_FILE
    ensures IsWord(Spelling(ty)) && Lexer.WordType(Spelling(ty)) == ty
  {
  }

  lemma ReadToken(src: string, i: nat, t: Token)
    requires Writable(t)
    requires At(src, i, Show(t)) && i + |Show(t)| < |src| && src[i + |Show(t)|] == ' '
    ensures ReadsAs(src, i, t)
  {
    hide Lexer.NextToken, Lexer.WordType, IsNumber, Spelling, Escape, At, IsPunctuation;
    if t.ty == STRING {
      ReadStringToken(src, i, t.text);
    } else if t.ty == NUMBER {
      ReadNumber(src, i, t.text);
    } else if t.ty == IDENT {
      ReadWord(src, i, t.text);
    } else {
      ReadFixed(src, i, t.ty);
    }
  }

  lemma ReadFixed(src: string, i: nat, ty: TokenType)
    requires ty != NUMBER && ty != STRING && ty != IDENT && ty != END_OF_FILE
    requires At(src, i, Spelling(ty)) && i + |Spelling(ty)| < |src| && src[i + |Spelling(ty)|] == ' '
    ensures Lexer.NextToken(src, i) == Ok(Fixed(ty), i + |Spelling(ty)|)
  {
    hide Lexer.NextToken, Lexer.WordType, Spelling, At, IsPunctuation;
    if IsPunctuation(ty) {
      ReadPunctuation(src, i, ty);
    } else {
      WordTypes(ty);
      ReadWord(src, i, Spelling(ty));
    }
  }

  /** No token starts with white space or with the start of a comment. */
  lemma TokenIsNotSkipped(src: string, i: nat, t: Token)
    requires Writable(t) && At(src, i, Show(t)) && i < |src|
    ensures Show(t) != "" && Lexer.Skip(src, i) == i
  {
    ShowStarts(t);
    ItemAt(src, i, Show(t), 0);
  }

  lemma ShowStarts(t: Token)
    requires Writable(t)
    ensures Show(t) != ""
    ensures var c := Show(t)[0]; !Lexer.IsSpace(c) && c != '/' && c != '#'
  {
  }

  // ---- the whole text ----

  function Tokens(lexemes: seq<Lexer.Lexeme>): seq<Token> {
    seq(|lexemes|, k requires 0 <= k < |lexemes| => lexemes[k].token)
  }

  ghost predicate LexesTo(src: string, i: nat, ts: seq<Token>) {
    i <= |src| && Lexer.Lex(src, i).Ok? && Tokens(Lexer.Lex(src, i).value) == ts + [Fixed(END_OF_FILE)]
  }

  predicate AllWritable(ts: seq<Token>) {
    forall k | 0 <= k < |ts| :: Writable(ts[k])
  }

  lemma {:induction false} LexWritten(src: string, i: nat, ts: seq<Token>)
    requires AllWritable(ts) && At(src, i, Write(ts)) && i + |Write(ts)| == |src|
    ensures LexesTo(src, i, ts)
    decreases |ts|
  {
    hide Writable, Show, At, LexesTo, Spelling;
    if ts == [] {
      NothingLeft(src, i);
    } else {
      var t, rest := ts[0], ts[1..];
      var e := i + |Show(t)|;
      Halves(src, i, Show(t), [' '] + Write(rest));
      Next(src, e, ' ', Write(rest));
      TokenIsNotSkipped(src, i, t);
      ReadToken(src, i, t);
      LexWritten(src, e + 1, rest);
      SpaceBefore(src, e);
      LexStep(src, i, t, e, rest);
      assert ts == [t] + rest;
    }
  }

  lemma NothingLeft(src: string, i: nat)
    requires i == |src|
    ensures LexesTo(src, i, [])
  {
    hide Spelling;
    assert Tokens([Lexer.Lexeme(Fixed(END_OF_FILE), i)]) == [] + [Fixed(END_OF_FILE)];
  }

  lemma LexStep(src: string, i: nat, t: Token, e: nat, rest: seq<Token>)
    requires i < e <= |src| && Lexer.Skip(src, i) == i && Lexer.NextToken(src, i) == Ok(t, e)
    requires LexesTo(src, e, rest)
    ensures LexesTo(src, i, [t] + rest)
  {
    hide Lexer.NextToken, Lexer.Skip, Spelling;
    var lexemes := Lexer.Lex(src, e).value;
    assert Lexer.Lex(src, i).value == [Lexer.Lexeme(t, i)] + lexemes;
    assert Tokens([Lexer.Lexeme(t, i)] + lexemes) == [t] + Tokens(lexemes);
    assert [t] + (rest + [Fixed(END_OF_FILE)]) == [t] + rest + [Fixed(END_OF_FILE)];
  }

  lemma SpaceBefore(src: string, i: nat)
    requires i < |src| && src[i] == ' '
    ensures Lexer.Lex(src, i) == Lexer.Lex(src, i + 1)
    ensures forall ts | LexesTo(src, i + 1, ts) :: LexesTo(src, i, ts)
  {
    hide Lexer.NextToken, Spelling, Tokens;
    assert Lexer.Skip(src, i) == Lexer.Skip(src, i + 1);
  }

  /** Writable tokens lex back to themselves, whatever the string literals contain. */
  lemma LexRoundTrip(ts: seq<Token>)
    requires AllWritable(ts)
    ensures LexesTo(Write(ts), 0, ts)
  {
    LexWritten(Write(ts), 0, ts);
  }
}
