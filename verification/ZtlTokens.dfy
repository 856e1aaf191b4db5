/** Tokens are what stands in the source, and where none can stand the lexer fails. */
module ZtlTokens {
  import opened Text
  import opened ZtlReading
  import opened ZtlSyntax
  import opened ZtlFrontEnd
  import Lexer = ZtlLexer

  /** Other than a string literal, a token is the text between its position and the one behind it. */
  lemma TokenIsItsText(src: string, i: nat, t: Token, e: nat)
    requires i < |src| && Lexer.NextToken(src, i) == Ok(t, e) && t.ty != STRING
    ensures e <= |src| && src[i..e] == t.text
  {
    hide Lexer.StringRest, Lexer.WordType;
    if src[i] != '"' && !IsDigit(src[i]) && !IsAlpha(src[i]) && src[i] != '_' {
      PunctuationIsItsText(src, i);
    }
  }

  lemma PunctuationIsItsText(src: string, i: nat)
    requires i < |src|
    ensures var r := Lexer.Punctuation(src, i);
            r.Ok? ==> r.pos <= |src| && src[i..r.pos] == r.value.text
  {
    var c := src[i];
    var (second, pair, single) := Lexer.PairOf(c);
    SingleIs(c);
    PairIs(c);
    assert src[i..i + 1] == [c];
    if i + 1 < |src| {
      assert src[i..i + 2] == [c, src[i + 1]];
    }
    hide Lexer.SingleType, Lexer.PairOf, Spelling;
  }

  lemma SingleIs(c: char)
    ensures Lexer.SingleType(c) != END_OF_FILE ==> Spelling(Lexer.SingleType(c)) == [c]
  {
  }

  lemma PairIs(c: char)
    ensures var (second, pair, single) := Lexer.PairOf(c);
            && (pair != END_OF_FILE ==> Spelling(pair) == [c, second])
            && (single != END_OF_FILE ==> Spelling(single) == [c])
  {
  }

  /** The characters that are tokens, or begin one, by themselves. */
  const SIGNS: string := "(){}[],;.+-:=!<>"

  /** Where neither a literal nor a word starts, the lexer fails exactly if there is none of these characters and no
      doubled `&` or `|`; a single one of those is an error of its own. */
  lemma FailsIff(src: string, i: nat)
    requires i < |src| && src[i] != '"' && !IsDigit(src[i]) && !IsAlpha(src[i]) && src[i] != '_'
    ensures var c, r := src[i], Lexer.NextToken(src, i);
            && (r.Err? <==> c !in SIGNS && !((c == '&' || c == '|') && i + 1 < |src| && src[i + 1] == c))
            && (r.Err? ==>
                  && r.at == i
                  && r.error == (if c == '&' then Lexer.ExpectedAnd
                                 else if c == '|' then Lexer.ExpectedOr
                                 else Lexer.UnexpectedCharacter))
  {
    hide Lexer.StringRest, Lexer.WordType;
    SignsAre(src[i]);
  }

  lemma SignsAre(c: char)
    ensures c in SIGNS <==> Lexer.SingleType(c) != END_OF_FILE || Lexer.PairOf(c).2 != END_OF_FILE
    ensures c !in SIGNS ==>
              Lexer.PairOf(c) == if c == '&' then ('&', AND, END_OF_FILE)
                                 else if c == '|' then ('|', OR, END_OF_FILE)
                                 else ('\0', END_OF_FILE, END_OF_FILE)
  {
    var s := SIGNS;
    assert s[0] == '(' && s[1] == ')' && s[2] == '{' && s[3] == '}' && s[4] == '[' && s[5] == ']' && s[6] == ',';
    assert s[7] == ';' && s[8] == '.' && s[9] == '+' && s[10] == '-' && s[11] == ':' && s[12] == '=' && s[13] == '!';
    assert s[14] == '<' && s[15] == '>' && |s| == 16;
  }

  /** Words and numbers are taken as long as they go on. */
  lemma LongestWord(src: string, i: nat)
    requires i < |src| && (IsDigit(src[i]) || IsAlpha(src[i]) || src[i] == '_')
    ensures var r := Lexer.NextToken(src, i);
            && r.Ok?
            && (IsDigit(src[i]) ==> r.value.ty == NUMBER && (r.pos < |src| ==> !IsDigit(src[r.pos])))
            && (!IsDigit(src[i]) ==>
                  r.pos < |src| ==> !IsAlpha(src[r.pos]) && !IsDigit(src[r.pos]) && src[r.pos] != '_')
  {
    hide Lexer.StringRest, Lexer.WordType, Lexer.Punctuation;
    WordEnds(src, i);
  }

  lemma {:induction false} WordEnds(src: string, i: nat)
    requires i <= |src|
    ensures var e := Lexer.WordEnd(src, i); e < |src| ==> !Lexer.IsWordChar(src[e])
    decreases |src| - i
  {
    if i < |src| && Lexer.IsWordChar(src[i]) {
      WordEnds(src, i + 1);
    }
  }
}
