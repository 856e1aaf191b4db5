/** The trees the front end can build are exactly those that can be written down. */
module ZtlClosure {
  import opened Text
  import opened ZtlReading
  import opened ZtlSyntax
  import opened ZtlParser
  import opened ZtlRender
  import opened ZtlFrontEnd
  import opened ZtlSource
  import Lexer = ZtlLexer

  // ---- the lexer delivers writable tokens ----

  lemma {:induction false} DigitsEndInside(src: string, i: nat, e: nat, k: nat)
    requires i + k <= e <= |src| && DigitsEnd(src, i + k) <= e
    ensures DigitsEnd(src[i..e], k) == DigitsEnd(src, i + k) - i
    decreases e - (i + k)
  {
    var text := src[i..e];
    if i + k < e {
      assert text[k] == src[i + k];
      if IsDigit(src[i + k]) {
        DigitsEndInside(src, i, e, k + 1);
      }
    }
  }

  lemma NumberIsNumber(src: string, i: nat)
    requires i < |src| && IsDigit(src[i])
    ensures IsNumber(src[i..Lexer.NumberEnd(src, i)])
  {
    hide DigitsEnd;
    var d, e := DigitsEnd(src, i), Lexer.NumberEnd(src, i);
    var text := src[i..e];
    FirstDigit(src, i);
    assert d <= e by {
      hide IsNumber;
    }
    DigitsEndInside(src, i, e, 0);
    if d < e {
      assert text[d - i] == '.' && text[d + 1 - i] == src[d + 1];
      DigitsEndInside(src, i, e, d + 1 - i);
    }
    assert text[0] == src[i];
  }

  lemma FirstDigit(src: string, i: nat)
    requires i < |src| && IsDigit(src[i])
    ensures i < DigitsEnd(src, i)
    ensures DigitsEnd(src, i) <= Lexer.NumberEnd(src, i)
    ensures DigitsEnd(src, i) < Lexer.NumberEnd(src, i) ==>
              var d := DigitsEnd(src, i);
              && d + 1 < Lexer.NumberEnd(src, i) && src[d] == '.' && IsDigit(src[d + 1])
              && Lexer.NumberEnd(src, i) == DigitsEnd(src, d + 1)
  {
  }

  lemma {:induction false} WordInside(src: string, i: nat, k: nat)
    requires i <= |src| && i <= k < Lexer.WordEnd(src, i)
    ensures Lexer.IsWordChar(src[k])
    decreases k - i
  {
    if i < k {
      WordInside(src, i + 1, k);
    }
  }

  lemma WordIsWritable(src: string, i: nat)
    requires i < |src| && (IsAlpha(src[i]) || src[i] == '_')
    ensures var word := src[i..Lexer.WordEnd(src, i)]; Writable(Token(Lexer.WordType(word), word))
  {
    var e := Lexer.WordEnd(src, i);
    var word := src[i..e];
    assert i < e;
    hide Lexer.WordEnd, Lexer.WordType;
    forall k | 0 <= k < |word| ensures Lexer.IsWordChar(word[k]) {
      WordInside(src, i, i + k);
    }
    KeywordSpelling(word);
  }

  lemma KeywordSpelling(word: string)
    ensures var ty := Lexer.WordType(word);
            && ty != NUMBER && ty != STRING && ty != END_OF_FILE
            && (ty != IDENT ==> word == Spelling(ty))
  {
  }

  lemma PunctuationIsWritable(src: string, i: nat)
    requires i < |src|
    ensures var r := Lexer.Punctuation(src, i); r.Ok? ==> Writable(r.value)
  {
    hide Spelling, Writable;
    PunctuationIsFixed(src, i);
    var r := Lexer.Punctuation(src, i);
    if r.Ok? {
      FixedWritable(r.value.ty);
    }
  }

  lemma PunctuationIsFixed(src: string, i: nat)
    requires i < |src|
    ensures var r := Lexer.Punctuation(src, i);
            r.Ok? ==>
              var ty := r.value.ty;
              r.value == Fixed(ty) && ty != NUMBER && ty != STRING && ty != IDENT && ty != END_OF_FILE
  {
    hide Spelling, Lexer.Peek, Lexer.SingleType, Lexer.PairOf;
    TablesHoldPunctuation(src[i]);
  }

  lemma TablesHoldPunctuation(c: char)
    ensures var single := Lexer.SingleType(c);
            single != NUMBER && single != STRING && single != IDENT
    ensures var (_, pair, single) := Lexer.PairOf(c);
            && pair != NUMBER && pair != STRING && pair != IDENT
            && single != NUMBER && single != STRING && single != IDENT
  {
  }

  lemma NextIsWritable(src: string, i: nat)
    requires i < |src|
    ensures var r := Lexer.NextToken(src, i); r.Ok? ==> Writable(r.value)
  {
    hide Spelling, Lexer.Punctuation, Lexer.StringRest, Lexer.WordType, Lexer.WordEnd, Lexer.NumberEnd, IsNumber,
        IsName;
    if src[i] == '"' {
    } else if IsDigit(src[i]) {
      NumberIsNumber(src, i);
    } else if IsAlpha(src[i]) || src[i] == '_' {
      WordIsWritable(src, i);
    } else {
      PunctuationIsWritable(src, i);
    }
  }

  /** Writable tokens, and END_OF_FILE at the end and nowhere else. */
  ghost predicate FromSource(toks: seq<Token>) {
    Terminated(toks) && AllWritable(toks[..|toks| - 1])
  }

  lemma {:induction false} LexedIsWritable(src: string, i: nat)
    requires i <= |src|
    ensures var r := Lexer.Lex(src, i); r.Ok? ==> r.value != [] && FromSource(Tokens(r.value))
    decreases |src| - i
  {
    hide Spelling, Lexer.NextToken, Lexer.Skip, Writable;
    var p := Lexer.Skip(src, i);
    if p < |src| && Lexer.NextToken(src, p).Ok? && Lexer.Lex(src, Lexer.NextToken(src, p).pos).Ok? {
      var t, e := Lexer.NextToken(src, p).value, Lexer.NextToken(src, p).pos;
      NextIsWritable(src, p);
      LexedIsWritable(src, e);
      var rest := Lexer.Lex(src, e).value;
      assert Lexer.Lex(src, i).value == [Lexer.Lexeme(t, p)] + rest;
      assert Tokens([Lexer.Lexeme(t, p)] + rest) == [t] + Tokens(rest);
      OneMore(t, Tokens(rest));
    }
  }

  lemma OneMore(t: Token, toks: seq<Token>)
    requires Writable(t) && FromSource(toks)
    ensures FromSource([t] + toks)
  {
    hide Writable;
    assert ([t] + toks)[..|toks|] == [t] + toks[..|toks| - 1];
  }

  // ---- the parser builds trees of them ----

  lemma TokenAt(toks: seq<Token>, pos: nat)
    requires FromSource(toks) && pos < |toks| && toks[pos].ty != END_OF_FILE
    ensures pos + 1 < |toks| && Writable(toks[pos])
  {
    hide Writable;
    assert pos < |toks| - 1;
    assert toks[..|toks| - 1][pos] == toks[pos];
  }

  lemma NameAt(toks: seq<Token>, pos: nat)
    requires FromSource(toks) && pos < |toks| && toks[pos].ty == IDENT
    ensures IsName(toks[pos].text)
  {
    hide Spelling;
    TokenAt(toks, pos);
  }

  lemma OperatorAt(toks: seq<Token>, pos: nat, level: nat)
    requires FromSource(toks) && pos < |toks| && level <= 5 && IsOperator(level, toks[pos].ty)
    ensures level == 5 ==> IsUnary(toks[pos].text)
    ensures level < 5 ==> IsBinary(toks[pos].text)
  {
    TokenAt(toks, pos);
    OperatorTexts(toks[pos].ty, level);
  }

  lemma OperatorTexts(ty: TokenType, level: nat)
    requires level <= 5 && IsOperator(level, ty)
    ensures level == 5 ==> IsUnary(Spelling(ty))
    ensures level < 5 ==> IsBinary(Spelling(ty))
  {
    if level < 3 {
      LooseOperators(ty, level);
    } else if level == 3 {
      Comparisons(ty);
    } else {
      Signs(ty, level);
    }
    hide Spelling, IsBinary, IsUnary, IsOperator;
  }

  lemma LooseOperators(ty: TokenType, level: nat)
    requires level < 3 && IsOperator(level, ty)
    ensures IsBinary(Spelling(ty))
  {
  }

  lemma Comparisons(ty: TokenType)
    requires IsOperator(3, ty)
    ensures IsBinary(Spelling(ty))
  {
  }

  lemma Signs(ty: TokenType, level: nat)
    requires 4 <= level <= 5 && IsOperator(level, ty)
    ensures level == 5 ==> IsUnary(Spelling(ty))
    ensures level == 4 ==> IsBinary(Spelling(ty))
  {
  }

  lemma {:induction false} LevelBuilds(level: nat, toks: seq<Token>, pos: nat)
    requires level <= 5 && FromSource(toks) && Within(toks, pos)
    ensures var r := ParseLevel(level, toks, pos); r.Ok? ==> Named(r.value)
    decreases |toks| - pos, 7 - level
  {
    hide Spelling, FromSource, IsOperator, IsUnary, IsBinary, ParsePostfix, BinaryTail, ParseLevel;
    if level == 5 {
      UnfoldUnary(toks, pos);
      if IsOperator(5, toks[pos].ty) {
        OperatorAt(toks, pos, 5);
        NotTheEnd(toks, pos);
        LevelBuilds(5, toks, pos + 1);
      } else {
        PostfixBuilds(toks, pos);
      }
    } else {
      UnfoldLevel(level, toks, pos);
      LevelBuilds(level + 1, toks, pos);
      var lhs := ParseLevel(level + 1, toks, pos);
      if lhs.Ok? {
        TailBuilds(level, lhs.value, toks, lhs.pos);
      }
    }
  }

  lemma NotTheEnd(toks: seq<Token>, pos: nat)
    requires Within(toks, pos)
    ensures IsOperator(5, toks[pos].ty) ==> pos + 1 < |toks|
  {
  }

  lemma {:induction false} TailBuilds(level: nat, lhs: Expr, toks: seq<Token>, pos: nat)
    requires level < 5 && FromSource(toks) && Within(toks, pos) && Named(lhs)
    ensures var r := BinaryTail(level, lhs, toks, pos); r.Ok? ==> Named(r.value)
    decreases |toks| - pos, 7 - level
  {
    hide Spelling, FromSource, IsOperator, IsUnary, IsBinary, ParseLevel, BinaryTail;
    UnfoldTail(level, lhs, toks, pos);
    if IsOperator(level, toks[pos].ty) {
      OperatorAt(toks, pos, level);
      LevelBuilds(level + 1, toks, pos + 1);
      var rhs := ParseLevel(level + 1, toks, pos + 1);
      if rhs.Ok? {
        TailBuilds(level, BinaryOp(toks[pos].text, lhs, rhs.value), toks, rhs.pos);
      }
    }
  }

  lemma {:induction false} PostfixBuilds(toks: seq<Token>, pos: nat)
    requires FromSource(toks) && Within(toks, pos)
    ensures var r := ParsePostfix(toks, pos); r.Ok? ==> Named(r.value)
    decreases |toks| - pos, 1
  {
    hide Spelling, FromSource, Named, ParsePrimary, PostfixTail, ParsePostfix;
    UnfoldPostfix(toks, pos);
    PrimaryBuilds(toks, pos);
    var node := ParsePrimary(toks, pos);
    if node.Ok? {
      PostfixTailBuilds(node.value, toks, node.pos);
    }
  }

  lemma {:induction false} PrimaryBuilds(toks: seq<Token>, pos: nat)
    requires FromSource(toks) && Within(toks, pos)
    ensures var r := ParsePrimary(toks, pos); r.Ok? ==> Named(r.value)
    decreases |toks| - pos, 0
  {
    hide Spelling, FromSource, ParseLevel, IsName, IsNumber, InRange;
    var ty := toks[pos].ty;
    if ty == LPAREN {
      LevelBuilds(0, toks, pos + 1);
      var e := ParseLevel(0, toks, pos + 1);
    } else {
      AtomBuilds(toks, pos);
    }
  }

  lemma AtomBuilds(toks: seq<Token>, pos: nat)
    requires FromSource(toks) && Within(toks, pos) && toks[pos].ty != LPAREN
    ensures var r := ParsePrimary(toks, pos); r.Ok? ==> Named(r.value)
  {
    hide Spelling, FromSource, IsName, IsNumber, InRange;
    var ty := toks[pos].ty;
    if ty == NUMBER {
      TokenAt(toks, pos);
    } else if ty == IDENT {
      NameAt(toks, pos);
      if toks[pos + 1].ty == SCOPE && toks[pos + 2].ty == IDENT {
        NameAt(toks, pos + 2);
      }
    }
  }

  lemma {:induction false} PostfixTailBuilds(node: Expr, toks: seq<Token>, pos: nat)
    requires FromSource(toks) && Within(toks, pos) && Named(node)
    ensures var r := PostfixTail(node, toks, pos); r.Ok? ==> Named(r.value)
    decreases |toks| - pos, 3
  {
    hide Spelling, FromSource, ParseCallArgs, ParseBlock, PostfixTail, NamedArgs, NamedBody, IsName;
    if toks[pos].ty == DOT {
      MemberFails(node, toks, pos);
      if toks[pos + 1].ty == IDENT {
        TailMember(node, toks, pos);
        NameAt(toks, pos + 1);
        PostfixTailBuilds(MemberAccess(node, toks[pos + 1].text), toks, pos + 2);
      }
    } else if toks[pos].ty == LPAREN {
      TailCall(node, toks, pos);
      CallArgsBuild(toks, pos);
      var args := ParseCallArgs(toks, pos);
      if args.Err? {
        CallFails(node, toks, pos);
      } else {
        CallTailBuilds(node, args.value, toks, pos, args.pos);
      }
    } else if toks[pos].ty == LBRACE {
      TailBlock(node, toks, pos);
      BlockBuilds(toks, pos);
      var body := ParseBlock(toks, pos);
      if body.Ok? {
        NoArgs();
        PostfixTailBuilds(Call(node, [], Braces(body.value)), toks, body.pos);
      }
    } else {
      TailEnd(node, toks, pos);
    }
  }

  lemma {:induction false} CallTailBuilds(node: Expr, args: seq<CallArg>, toks: seq<Token>, pos: nat, p: nat)
    requires FromSource(toks) && Within(toks, pos) && Named(node) && NamedArgs(args) && pos < p && Within(toks, p)
    ensures toks[p].ty != LBRACE ==>
              var r := PostfixTail(Call(node, args, NoBlock), toks, p);
              r.Ok? ==> Named(r.value)
    ensures var body := ParseBlock(toks, p);
            toks[p].ty == LBRACE && body.Ok? ==>
              var r := PostfixTail(Call(node, args, Braces(body.value)), toks, body.pos);
              r.Ok? ==> Named(r.value)
    decreases |toks| - p, 4
  {
    hide Spelling, FromSource, ParseBlock, PostfixTail, NamedArgs, NamedBody, IsName;
    if toks[p].ty != LBRACE {
      PostfixTailBuilds(Call(node, args, NoBlock), toks, p);
    } else {
      BlockBuilds(toks, p);
      var body := ParseBlock(toks, p);
      if body.Ok? {
        PostfixTailBuilds(Call(node, args, Braces(body.value)), toks, body.pos);
      }
    }
  }

  lemma NoArgs()
    ensures NamedArgs([])
  {
  }

  lemma MemberFails(node: Expr, toks: seq<Token>, pos: nat)
    requires Within(toks, pos) && toks[pos].ty == DOT
    ensures pos + 1 < |toks|
    ensures toks[pos + 1].ty != IDENT ==> PostfixTail(node, toks, pos).Err?
  {
  }

  lemma CallFails(node: Expr, toks: seq<Token>, pos: nat)
    requires Within(toks, pos) && toks[pos].ty == LPAREN && ParseCallArgs(toks, pos).Err?
    ensures PostfixTail(node, toks, pos).Err?
  {
    hide ParseCallArgs;
  }

  lemma {:induction false} CallArgsBuild(toks: seq<Token>, pos: nat)
    requires FromSource(toks) && Within(toks, pos)
    ensures var r := ParseCallArgs(toks, pos); r.Ok? ==> NamedArgs(r.value)
    decreases |toks| - pos, 2
  {
    hide Spelling, FromSource, ParseArgs, NamedArgs;
    if toks[pos].ty == LPAREN {
      ArgsBuild(toks, pos + 1);
    }
  }

  lemma {:induction false} ArgsBuild(toks: seq<Token>, pos: nat)
    requires FromSource(toks) && Within(toks, pos)
    ensures var r := ParseArgs(toks, pos); r.Ok? ==> NamedArgs(r.value)
    decreases |toks| - pos, 9
  {
    hide Spelling, FromSource, ParseArg, NamedArg, ParseArgs;
    UnfoldArgs(toks, pos);
    if toks[pos].ty != RPAREN && toks[pos].ty != END_OF_FILE {
      ArgBuilds(toks, pos);
      var arg := ParseArg(toks, pos);
      if arg.Ok? {
        ArgsCons(arg.value, []);
        if toks[arg.pos].ty == COMMA {
          ArgsBuild(toks, arg.pos + 1);
          var rest := ParseArgs(toks, arg.pos + 1);
          if rest.Ok? {
            ArgsCons(arg.value, rest.value);
          }
        }
      }
    }
  }

  lemma ArgsCons(arg: CallArg, rest: seq<CallArg>)
    requires NamedArg(arg) && NamedArgs(rest)
    ensures NamedArgs([arg] + rest) && [arg] + [] == [arg]
  {
    hide NamedArg;
    assert ([arg] + rest)[1..] == rest;
  }

  lemma {:induction false} ArgBuilds(toks: seq<Token>, pos: nat)
    requires FromSource(toks) && Within(toks, pos)
    ensures var r := ParseArg(toks, pos); r.Ok? ==> NamedArg(r.value)
    decreases |toks| - pos, 8
  {
    hide Spelling, FromSource, ParseLevel, Named, IsName;
    if NamedAt(toks, pos) {
      NameAt(toks, pos);
      LevelBuilds(0, toks, pos + 2);
    } else {
      LevelBuilds(0, toks, pos);
    }
  }

  lemma {:induction false} BlockBuilds(toks: seq<Token>, pos: nat)
    requires FromSource(toks) && Within(toks, pos)
    ensures var r := ParseBlock(toks, pos); r.Ok? ==> NamedBody(r.value)
    decreases |toks| - pos, 1
  {
    hide Spelling, FromSource, ParseBody, NamedBody;
    if toks[pos].ty == LBRACE {
      BodyBuilds(toks, pos + 1);
    }
  }

  lemma BodyCons(s: Stmt, rest: seq<Stmt>)
    requires NamedStmt(s) && NamedBody(rest)
    ensures NamedBody([s] + rest)
  {
    hide NamedStmt;
    assert ([s] + rest)[1..] == rest;
  }

  lemma {:induction false} BodyBuilds(toks: seq<Token>, pos: nat)
    requires FromSource(toks) && Within(toks, pos)
    ensures var r := ParseBody(toks, pos); r.Ok? ==> NamedBody(r.value)
    decreases |toks| - pos, 10
  {
    hide Spelling, FromSource, ParseStatement, NamedStmt, ParseBody;
    UnfoldBody(toks, pos);
    if toks[pos].ty != RBRACE && toks[pos].ty != END_OF_FILE {
      StatementBuilds(toks, pos);
      var s := ParseStatement(toks, pos);
      if s.Ok? {
        BodyBuilds(toks, s.pos);
        var rest := ParseBody(toks, s.pos);
        if rest.Ok? {
          BodyCons(s.value, rest.value);
        }
      }
    }
  }

  lemma {:induction false} StatementBuilds(toks: seq<Token>, pos: nat)
    requires FromSource(toks) && Within(toks, pos)
    ensures var r := ParseStatement(toks, pos); r.Ok? ==> NamedStmt(r.value)
    decreases |toks| - pos, 9
  {
    hide Spelling, FromSource, ParseIf, ParseReturn, ParseLevel, Named, IsName, NamedBody;
    var ty := toks[pos].ty;
    if ty == INCLUDE_KW {
    } else if ty == IF_KW {
      IfBuilds(toks, pos);
    } else if ty == RETURN_KW {
      ReturnBuilds(toks, pos);
    } else if ty == IDENT && TypeAt(toks, pos + 1) == ASSIGN {
      NameAt(toks, pos);
      LevelBuilds(0, toks, pos + 2);
    } else {
      LevelBuilds(0, toks, pos);
    }
  }

  lemma {:induction false} ReturnBuilds(toks: seq<Token>, pos: nat)
    requires FromSource(toks) && Within(toks, pos) && toks[pos].ty == RETURN_KW
    ensures var r := ParseReturn(toks, pos); r.Ok? ==> NamedStmt(r.value)
    decreases |toks| - pos, 8
  {
    hide Spelling, FromSource, ParseLevel, Named;
    LevelBuilds(0, toks, pos + 1);
  }

  lemma {:induction false} IfBuilds(toks: seq<Token>, pos: nat)
    requires FromSource(toks) && Within(toks, pos) && toks[pos].ty == IF_KW
    ensures var r := ParseIf(toks, pos); r.Ok? ==> NamedStmt(r.value)
    decreases |toks| - pos, 8
  {
    hide Spelling, FromSource, ParseLevel, ParseBlock, ParseElse, Named, NamedBody;
    if toks[pos + 1].ty == LPAREN {
      LevelBuilds(0, toks, pos + 2);
      var c := ParseLevel(0, toks, pos + 2);
      if c.Ok? && toks[c.pos].ty == RPAREN {
        BlockBuilds(toks, c.pos + 1);
        var t := ParseBlock(toks, c.pos + 1);
        if t.Ok? {
          ElseBuilds(toks, t.pos);
        }
      }
    }
  }

  lemma {:induction false} ElseBuilds(toks: seq<Token>, pos: nat)
    requires FromSource(toks) && Within(toks, pos)
    ensures var r := ParseElse(toks, pos); r.Ok? ==> NamedBody(r.value)
    decreases |toks| - pos, 9
  {
    hide Spelling, FromSource, ParseBlock, ParseIf, NamedStmt, NamedBody;
    NoBody();
    if toks[pos].ty == ELSE_KW {
      if toks[pos + 1].ty == IF_KW {
        IfBuilds(toks, pos + 1);
        var s := ParseIf(toks, pos + 1);
        if s.Ok? {
          BodyCons(s.value, []);
          assert [s.value] + [] == [s.value];
        }
      } else {
        BlockBuilds(toks, pos + 1);
      }
    }
  }

  lemma NoBody()
    ensures NamedBody([])
  {
  }

  lemma {:induction false} ProgramBuilds(toks: seq<Token>, pos: nat)
    requires FromSource(toks) && Within(toks, pos)
    ensures var r := ParseProgram(toks, pos); r.Ok? ==> NamedBody(r.value)
    decreases |toks| - pos
  {
    hide Spelling, FromSource, ParseStatement, ParseProgram, NamedStmt;
    UnfoldProgram(toks, pos);
    if toks[pos].ty != END_OF_FILE {
      StatementBuilds(toks, pos);
      var s := ParseStatement(toks, pos);
      if s.Ok? {
        ProgramBuilds(toks, s.pos);
        var rest := ParseProgram(toks, s.pos);
        if rest.Ok? {
          BodyCons(s.value, rest.value);
        }
      }
    }
  }

  // ---- the whole front end ----

  /** Any text the front end accepts can be rewritten canonically without changing what it means, and a tree is
      the meaning of some text exactly if its names, operators and numbers are the language's own. */
  lemma FormattingKeepsMeaning(src: string, p: Program)
    requires Accepts(src, p)
    ensures NamedBody(p) && Accepts(Format(p), p)
  {
    LexedIsWritable(src, 0);
    var toks := Tokens(Lexer.Lex(src, 0).value);
    ProgramBuilds(toks, 0);
    hide Spelling, ParseProgram, Lexer.Lex, Tokens, FromSource, NamedBody, Format;
    SourceRoundTrip(p);
  }

  lemma AcceptedProgramsAreTheNamedOnes(p: Program)
    ensures NamedBody(p) <==> exists src :: Accepts(src, p)
  {
    hide Accepts, NamedBody, Format;
    if NamedBody(p) {
      SourceRoundTrip(p);
    }
    forall src | Accepts(src, p) ensures NamedBody(p) {
      FormattingKeepsMeaning(src, p);
    }
  }
}
