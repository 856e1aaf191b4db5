/** The lexer as it runs: position, line and column move together through the source. */
module ZtlLexerClass {
  import opened Text
  import opened ZtlReading
  import opened ZtlSyntax
  import Spec = ZtlLexer

  datatype LocatedToken = LocatedToken(token: Token, line: nat, col: nat)

  /** A LexError with the line and column it carries. */
  datatype LocatedError = LocatedError(error: Spec.LexError, line: nat, col: nat)

  predicate IsFailureAt<T>(r: Attempt<T, LocatedError>, error: Spec.LexError, src: string, at: nat) {
    at <= |src| && r == Failed(LocatedError(error, Spec.LineAt(src, at), Spec.ColAt(src, at)))
  }

  function Locate(src: string, lexemes: seq<Spec.Lexeme>): seq<LocatedToken>
    requires forall k | 0 <= k < |lexemes| :: lexemes[k].at <= |src|
  {
    seq(|lexemes|, k requires 0 <= k < |lexemes| =>
      LocatedToken(lexemes[k].token, Spec.LineAt(src, lexemes[k].at), Spec.ColAt(src, lexemes[k].at)))
  }

  class Lexer {
    const src: string
    var pos: nat
    var line: nat
    var col: nat

    ghost predicate Valid()
      reads this
    {
      pos <= |src| && line == Spec.LineAt(src, pos) && col == Spec.ColAt(src, pos)
    }

    constructor (src: string)
      ensures Valid() && this.src == src && pos == 0
    {
      this.src := src;
      pos, line, col := 0, 1, 1;
    }

    function Peek(offset: nat): char
      reads this
    {
      if pos + offset >= |src| then '\0' else src[pos + offset]
    }

    method Advance() returns (c: char)
      requires Valid() && pos < |src|
      modifies this
      ensures Valid() && pos == old(pos) + 1 && c == src[old(pos)]
    {
      c := src[pos];
      pos := pos + 1;
      if c == '\n' {
        line, col := line + 1, 1;
      } else {
        col := col + 1;
      }
    }

    method SkipLine()
      requires Valid()
      modifies this
      ensures Valid() && pos == Spec.LineEnd(src, old(pos))
    {
      while pos < |src| && Peek(0) != '\n'
        invariant Valid()
        invariant Spec.LineEnd(src, old(pos)) == Spec.LineEnd(src, pos)
        decreases |src| - pos
      {
        var _ := Advance();
      }
    }

    method SkipBlockComment()
      requires Valid()
      modifies this
      ensures Valid() && pos == Spec.CommentEnd(src, old(pos))
    {
      while pos < |src| && !(Peek(0) == '*' && Peek(1) == '/')
        invariant Valid()
        invariant Spec.CommentEnd(src, old(pos)) == Spec.CommentEnd(src, pos)
        decreases |src| - pos
      {
        var _ := Advance();
      }
      if pos < |src| {
        var _ := Advance();
        var _ := Advance();
      }
    }

    method SkipWhitespaceAndComments()
      requires Valid()
      modifies this
      ensures Valid() && pos == Spec.Skip(src, old(pos))
    {
      while pos < |src|
        invariant Valid()
        invariant Spec.Skip(src, old(pos)) == Spec.Skip(src, pos)
        decreases |src| - pos
      {
        var c := Peek(0);
        if Spec.IsSpace(c) {
          var _ := Advance();
        } else if c == '/' && Peek(1) == '/' {
          SkipLine();
        } else if c == '/' && Peek(1) == '*' {
          var _ := Advance();
          var _ := Advance();
          SkipBlockComment();
        } else if c == '#' {
          SkipLine();
        } else {
          break;
        }
      }
    }

    ghost predicate Tokenizes(r: Attempt<string, LocatedError>, spec: Spec.Lexed<string>)
      reads this
    {
      match spec
      case Ok(text, end) => r == Done(text) && pos == end
      case Err(error, at) => IsFailureAt(r, error, src, at)
    }

    /** Two hexadecimal digits as one code, or -1. */
    method ReadHex() returns (code: int)
      requires Valid() && pos + 1 < |src|
      modifies this
      ensures Valid() && pos == old(pos) + 2
      ensures var h, l := Spec.Hex(src[old(pos)]), Spec.Hex(src[old(pos) + 1]);
              code == (if h < 0 || l < 0 then -1 else h * 16 + l) && code < 256
    {
      var h := Advance();
      var l := Advance();
      code := if Spec.Hex(h) < 0 || Spec.Hex(l) < 0 then -1 else Spec.Hex(h) * 16 + Spec.Hex(l);
    }

    method ReadString() returns (r: Attempt<string, LocatedError>)
      requires Valid() && pos < |src| && src[pos] == '"'
      modifies this
      ensures Valid() && Tokenizes(r, Spec.StringRest(src, old(pos), old(pos) + 1, ""))
    {
      hide Spec.Hex, Spec.Unescape, Spec.LineAt, Spec.ColAt;
      var startLine, startCol := line, col;
      ghost var start := pos;
      var _ := Advance();
      var out := "";
      while pos < |src| && Peek(0) != '"'
        invariant Valid() && start <= |src|
        invariant Spec.StringRest(src, start, start + 1, "") == Spec.StringRest(src, start, pos, out)
        decreases |src| - pos
      {
        var c := Advance();
        if c == '\\' && pos < |src| {
          var esc := Advance();
          if esc == 'x' {
            if pos + 1 >= |src| {
              return Failed(LocatedError(Spec.TruncatedHex, startLine, startCol));
            }
            var code := ReadHex();
            if code < 0 {
              return Failed(LocatedError(Spec.BadHex, startLine, startCol));
            }
            out := out + [code as char];
          } else {
            out := out + [Spec.Unescape(esc)];
          }
        } else {
          out := out + [c];
        }
      }
      if pos >= |src| {
        return Failed(LocatedError(Spec.UnterminatedString, startLine, startCol));
      }
      var _ := Advance();
      return Done(out);
    }

    method ReadDigits() returns (out: string)
      requires Valid()
      modifies this
      ensures Valid() && old(pos) <= pos == DigitsEnd(src, old(pos)) && out == src[old(pos)..pos]
    {
      out := "";
      while IsDigit(Peek(0))
        invariant Valid() && old(pos) <= pos && out == src[old(pos)..pos]
        invariant DigitsEnd(src, old(pos)) == DigitsEnd(src, pos)
        decreases |src| - pos
      {
        var c := Advance();
        out := out + [c];
      }
    }

    method ReadNumber() returns (out: string)
      requires Valid()
      modifies this
      ensures Valid() && pos == Spec.NumberEnd(src, old(pos)) && out == src[old(pos)..pos]
    {
      out := ReadDigits();
      if Peek(0) == '.' && IsDigit(Peek(1)) {
        ghost var dot := pos;
        var point := Advance();
        var fraction := ReadDigits();
        assert src[old(pos)..pos] == src[old(pos)..dot] + [src[dot]] + src[dot + 1..pos];
        out := out + [point] + fraction;
      }
    }

    method ReadWord() returns (out: string)
      requires Valid()
      modifies this
      ensures Valid() && old(pos) <= pos == Spec.WordEnd(src, old(pos)) && out == src[old(pos)..pos]
    {
      out := "";
      while Spec.IsWordChar(Peek(0))
        invariant Valid() && old(pos) <= pos && out == src[old(pos)..pos]
        invariant Spec.WordEnd(src, old(pos)) == Spec.WordEnd(src, pos)
        decreases |src| - pos
      {
        var c := Advance();
        out := out + [c];
      }
    }

    method ReadPunctuation() returns (r: Attempt<Token, LocatedError>)
      requires Valid() && pos < |src|
      modifies this
      ensures Valid() && old(pos) < pos
      ensures match Spec.Punctuation(src, old(pos))
              case Ok(t, end) => r == Done(t) && pos == end
              case Err(error, at) => IsFailureAt(r, error, src, at)
    {
      var l, c := line, col;
      ghost var start := pos;
      var ch := Advance();
      if Spec.SingleType(ch) != END_OF_FILE {
        return Done(Fixed(Spec.SingleType(ch)));
      }
      var (second, pair, single) := Spec.PairOf(ch);
      if pair == END_OF_FILE {
        return Failed(LocatedError(Spec.UnexpectedCharacter, l, c));
      }
      if pos < |src| && Peek(0) == second {
        var _ := Advance();
        return Done(Fixed(pair));
      }
      if single != END_OF_FILE {
        return Done(Fixed(single));
      }
      return Failed(LocatedError(if ch == '&' then Spec.ExpectedAnd else Spec.ExpectedOr, l, c));
    }

    method ReadToken() returns (r: Attempt<Token, LocatedError>)
      requires Valid() && pos < |src|
      modifies this
      ensures Valid()
      ensures match Spec.NextToken(src, old(pos))
              case Ok(t, end) => r == Done(t) && pos == end
              case Err(error, at) => IsFailureAt(r, error, src, at)
    {
      hide Spec.StringRest, Spec.Punctuation, Spec.NumberEnd, Spec.WordEnd, Spec.WordType, Spec.LineAt, Spec.ColAt;
      var ch := Peek(0);
      if ch == '"' {
        var text :- ReadString();
        return Done(Token(STRING, text));
      } else if IsDigit(ch) {
        var text := ReadNumber();
        return Done(Token(NUMBER, text));
      } else if IsAlpha(ch) || ch == '_' {
        var word := ReadWord();
        return Done(Token(Spec.WordType(word), word));
      } else {
        r := ReadPunctuation();
      }
    }

    /** The tokens of the specification, each with the line and column of its first character. */
    method Tokenize() returns (r: Attempt<seq<LocatedToken>, LocatedError>)
      requires Valid() && pos == 0
      modifies this
      ensures match Spec.Lex(src, 0)
              case Ok(lexemes, _) =>
                (forall k | 0 <= k < |lexemes| :: lexemes[k].at <= |src|) && r == Done(Locate(src, lexemes))
              case Err(error, at) => IsFailureAt(r, error, src, at)
    {
      hide Spec.NextToken, Spec.Skip, Spec.LineAt, Spec.ColAt;
      var tokens: seq<LocatedToken> := [];
      ghost var lexemes: seq<Spec.Lexeme> := [];
      PrependNothing(Spec.Lex(src, 0));
      while true
        invariant Valid()
        invariant forall k | 0 <= k < |lexemes| :: lexemes[k].at <= |src|
        invariant tokens == Locate(src, lexemes)
        invariant Spec.Lex(src, 0) == Prepend(lexemes, Spec.Lex(src, pos))
        decreases |src| - pos
      {
        ghost var from := pos;
        SkipWhitespaceAndComments();
        if pos >= |src| {
          break;
        }
        var l, c := line, col;
        ghost var start := pos;
        var t :- ReadToken();
        PrependTwice(lexemes, [Spec.Lexeme(t, start)], Spec.Lex(src, pos));
        LocateAppend(src, lexemes, Spec.Lexeme(t, start));
        lexemes := lexemes + [Spec.Lexeme(t, start)];
        tokens := tokens + [LocatedToken(t, l, c)];
      }
      LocateAppend(src, lexemes, Spec.Lexeme(Fixed(END_OF_FILE), pos));
      return Done(tokens + [LocatedToken(Fixed(END_OF_FILE), line, col)]);
    }
  }

  lemma LocateAppend(src: string, lexemes: seq<Spec.Lexeme>, next: Spec.Lexeme)
    requires forall k | 0 <= k < |lexemes| :: lexemes[k].at <= |src|
    requires next.at <= |src|
    ensures forall k | 0 <= k < |lexemes + [next]| :: (lexemes + [next])[k].at <= |src|
    ensures Locate(src, lexemes + [next])
         == Locate(src, lexemes) + [LocatedToken(next.token, Spec.LineAt(src, next.at), Spec.ColAt(src, next.at))]
  {
  }
}
