/** The parser as it runs: one position that moves through the tokens, and loops that collect. */
module ZtlParserClass {
  import opened ZtlReading
  import opened ZtlSyntax
  import Spec = ZtlParser

  /** What a ParseError reports: a position and the expectation. */
  datatype Unexpected = Unexpected(at: nat, what: Spec.Expected)

  type Parsing<+T> = Attempt<T, Unexpected>

  /** The attempt that ended at `pos` is what the specification says. */
  predicate Agrees<T(==)>(a: Parsing<T>, pos: nat, spec: Spec.Parsed<T>) {
    match a
    case Done(value) => spec == Ok(value, pos)
    case Failed(Unexpected(at, what)) => spec == Err(what, at)
  }

  class Parser {
    const tokens: seq<Token>
    var pos: nat

    ghost predicate Valid()
      reads this
    {
      Spec.Within(tokens, pos)
    }

    constructor (tokens: seq<Token>)
      requires Spec.Terminated(tokens)
      ensures Valid() && this.tokens == tokens && pos == 0
    {
      this.tokens := tokens;
      pos := 0;
    }

    function Peek(offset: nat): TokenType
      requires Spec.Terminated(tokens)
      reads this
    {
      if pos + offset >= |tokens| then tokens[|tokens| - 1].ty else tokens[pos + offset].ty
    }

    method Advance() returns (t: Token)
      requires Valid()
      modifies this
      ensures Valid() && t == tokens[old(pos)]
      ensures pos == if old(pos) + 1 < |tokens| then old(pos) + 1 else old(pos)
    {
      t := tokens[pos];
      if pos + 1 < |tokens| {
        pos := pos + 1;
      }
    }

    method Match(ty: TokenType) returns (matched: bool)
      requires Valid() && ty != END_OF_FILE
      modifies this
      ensures Valid() && matched == (tokens[old(pos)].ty == ty)
      ensures pos == if matched then old(pos) + 1 else old(pos)
    {
      matched := Peek(0) == ty;
      if matched {
        var _ := Advance();
      }
    }

    method Expect(ty: TokenType, what: Spec.Expected) returns (r: Parsing<string>)
      requires Valid() && ty != END_OF_FILE
      modifies this
      ensures Valid() && Agrees(r, pos, Spec.Expect(tokens, old(pos), ty, what))
    {
      if Peek(0) != ty {
        return Failed(Unexpected(pos, what));
      }
      var t := Advance();
      return Done(t.text);
    }

    method ParseProgram() returns (r: Parsing<Program>)
      requires Valid()
      modifies this
      ensures Valid() && Agrees(r, pos, Spec.ParseProgram(tokens, old(pos)))
      decreases |tokens| - pos, 12
    {
      hide Spec.ParseStatement;
      var statements: Program := [];
      PrependNothing(Spec.ParseProgram(tokens, pos));
      while Peek(0) != END_OF_FILE
        invariant Valid() && pos >= old(pos)
        invariant Spec.ParseProgram(tokens, old(pos)) == Prepend(statements, Spec.ParseProgram(tokens, pos))
        decreases |tokens| - pos
      {
        ghost var spec := Spec.ParseProgram(tokens, pos);
        var s :- ParseStatement();
        assert spec == Prepend([s], Spec.ParseProgram(tokens, pos));
        PrependTwice(statements, [s], Spec.ParseProgram(tokens, pos));
        statements := statements + [s];
      }
      assert statements + [] == statements;
      return Done(statements);
    }

    method ParseStatement() returns (r: Parsing<Stmt>)
      requires Valid()
      modifies this
      ensures Valid() && Agrees(r, pos, Spec.ParseStatement(tokens, old(pos)))
      decreases |tokens| - pos, 10
    {
      hide Spec.ParseInclude, Spec.ParseIf, Spec.ParseReturn, Spec.ParseLevel;
      if Peek(0) == INCLUDE_KW {
        r := ParseInclude();
      } else if Peek(0) == IF_KW {
        r := ParseIf();
      } else if Peek(0) == RETURN_KW {
        r := ParseReturn();
      } else if Peek(0) == IDENT && Peek(1) == ASSIGN {
        var id := Advance();
        var _ := Advance();
        var value :- ParseLevel(0);
        var _ := Match(SEMICOLON);
        return Done(AssignStmt(id.text, value));
      } else {
        var e :- ParseLevel(0);
        var _ := Match(SEMICOLON);
        return Done(ExprStmt(e));
      }
    }

    method ParseInclude() returns (r: Parsing<Stmt>)
      requires Valid() && tokens[pos].ty == INCLUDE_KW
      modifies this
      ensures Valid() && Agrees(r, pos, Spec.ParseInclude(tokens, old(pos)))
    {
      var _ := Advance();
      var _ :- Expect(LPAREN, Spec.IncludeOpen);
      var name :- Expect(STRING, Spec.ModuleName);
      var _ :- Expect(RPAREN, Spec.IncludeClose);
      var _ := Match(SEMICOLON);
      return Done(IncludeStmt(name));
    }

    method ParseIf() returns (r: Parsing<Stmt>)
      requires Valid() && tokens[pos].ty == IF_KW
      modifies this
      ensures Valid() && Agrees(r, pos, Spec.ParseIf(tokens, old(pos)))
      decreases |tokens| - pos, 9
    {
      hide Spec.ParseLevel, Spec.ParseBlock, Spec.ParseElse;
      var _ := Advance();
      var _ :- Expect(LPAREN, Spec.IfOpen);
      var condition :- ParseLevel(0);
      var _ :- Expect(RPAREN, Spec.IfClose);
      var thenBranch :- ParseBlock();
      var elseBranch :- ParseElse();
      return Done(IfStmt(condition, thenBranch, elseBranch));
    }

    method ParseElse() returns (r: Parsing<seq<Stmt>>)
      requires Valid()
      modifies this
      ensures Valid() && Agrees(r, pos, Spec.ParseElse(tokens, old(pos)))
      decreases |tokens| - pos, 10
    {
      hide Spec.ParseIf, Spec.ParseBlock;
      var hasElse := Match(ELSE_KW);
      if !hasElse {
        return Done([]);
      }
      if Peek(0) == IF_KW {
        var s :- ParseIf();
        return Done([s]);
      }
      r := ParseBlock();
    }

    method ParseReturn() returns (r: Parsing<Stmt>)
      requires Valid() && tokens[pos].ty == RETURN_KW
      modifies this
      ensures Valid() && Agrees(r, pos, Spec.ParseReturn(tokens, old(pos)))
      decreases |tokens| - pos, 9
    {
      hide Spec.ParseLevel;
      var _ := Advance();
      var value := NoValue;
      if Peek(0) != SEMICOLON && Peek(0) != RBRACE && Peek(0) != END_OF_FILE {
        var e :- ParseLevel(0);
        value := Given(e);
      }
      var _ := Match(SEMICOLON);
      return Done(ReturnStmt(value));
    }

    method ParseBlock() returns (r: Parsing<seq<Stmt>>)
      requires Valid()
      modifies this
      ensures Valid() && Agrees(r, pos, Spec.ParseBlock(tokens, old(pos)))
      decreases |tokens| - pos, 1
    {
      hide Spec.ParseStatement;
      var _ :- Expect(LBRACE, Spec.BlockOpen);
      ghost var start := pos;
      var body: seq<Stmt> := [];
      PrependNothing(Spec.ParseBody(tokens, pos));
      while Peek(0) != RBRACE && Peek(0) != END_OF_FILE
        invariant Valid() && pos >= start
        invariant Spec.ParseBody(tokens, start) == Prepend(body, Spec.ParseBody(tokens, pos))
        decreases |tokens| - pos
      {
        ghost var spec := Spec.ParseBody(tokens, pos);
        var s :- ParseStatement();
        assert spec == Prepend([s], Spec.ParseBody(tokens, pos));
        PrependTwice(body, [s], Spec.ParseBody(tokens, pos));
        body := body + [s];
      }
      assert body + [] == body;
      var _ :- Expect(RBRACE, Spec.BlockClose);
      return Done(body);
    }

    /** The five binary layers differ only in their operators and in the layer below. */
    method ParseLevel(level: nat) returns (r: Parsing<Expr>)
      requires Valid() && level <= 5
      modifies this
      ensures Valid() && Agrees(r, pos, Spec.ParseLevel(level, tokens, old(pos)))
      decreases |tokens| - pos, 8 - level
    {
      hide Spec.ParseLevel, Spec.BinaryTail;
      if level == 5 {
        r := ParseUnary();
        return;
      }
      Spec.UnfoldLevel(level, tokens, pos);
      var lhs :- ParseLevel(level + 1);
      r := ParseOperators(level, lhs);
    }

    method ParseOperators(level: nat, first: Expr) returns (r: Parsing<Expr>)
      requires Valid() && level < 5
      modifies this
      ensures Valid() && Agrees(r, pos, Spec.BinaryTail(level, first, tokens, old(pos)))
      decreases |tokens| - pos, 7 - level
    {
      hide Spec.ParseLevel, Spec.BinaryTail, IsOperator;
      var lhs := first;
      while IsOperator(level, Peek(0))
        invariant Valid() && pos >= old(pos)
        invariant Spec.BinaryTail(level, first, tokens, old(pos)) == Spec.BinaryTail(level, lhs, tokens, pos)
        decreases |tokens| - pos
      {
        Spec.UnfoldTail(level, lhs, tokens, pos);
        var op := Advance();
        var rhs :- ParseLevel(level + 1);
        lhs := BinaryOp(op.text, lhs, rhs);
      }
      Spec.UnfoldTail(level, lhs, tokens, pos);
      return Done(lhs);
    }

    method ParseUnary() returns (r: Parsing<Expr>)
      requires Valid()
      modifies this
      ensures Valid() && Agrees(r, pos, Spec.ParseLevel(5, tokens, old(pos)))
      decreases |tokens| - pos, 2
    {
      hide Spec.ParseLevel, Spec.ParsePostfix;
      Spec.UnfoldUnary(tokens, pos);
      if Peek(0) == BANG || Peek(0) == MINUS {
        var op := Advance();
        var operand :- ParseUnary();
        return Done(UnaryOp(op.text, operand));
      }
      r := ParsePostfix();
    }

    method ParseCallArgs() returns (r: Parsing<seq<CallArg>>)
      requires Valid()
      modifies this
      ensures Valid() && Agrees(r, pos, Spec.ParseCallArgs(tokens, old(pos)))
      decreases |tokens| - pos, 2
    {
      hide Spec.ParseArgs;
      var _ :- Expect(LPAREN, Spec.ArgsOpen);
      var args :- ParseArgList();
      var _ :- Expect(RPAREN, Spec.Close);
      return Done(args);
    }

    method ParseArgList() returns (r: Parsing<seq<CallArg>>)
      requires Valid()
      modifies this
      ensures Valid() && Agrees(r, pos, Spec.ParseArgs(tokens, old(pos)))
      decreases |tokens| - pos, 10
    {
      hide Spec.ParseLevel, Spec.ParseArgs;
      var args: seq<CallArg> := [];
      PrependNothing(Spec.ParseArgs(tokens, pos));
      while Peek(0) != RPAREN && Peek(0) != END_OF_FILE
        invariant Valid() && pos >= old(pos)
        invariant Spec.ParseArgs(tokens, old(pos)) == Prepend(args, Spec.ParseArgs(tokens, pos))
        decreases |tokens| - pos
      {
        Spec.UnfoldArgs(tokens, pos);
        var arg :- ParseArg();
        var more := Match(COMMA);
        if !more {
          return Done(args + [arg]);
        }
        PrependTwice(args, [arg], Spec.ParseArgs(tokens, pos));
        args := args + [arg];
      }
      Spec.UnfoldArgs(tokens, pos);
      assert args + [] == args;
      return Done(args);
    }

    method ParseArg() returns (r: Parsing<CallArg>)
      requires Valid() && tokens[pos].ty != END_OF_FILE
      modifies this
      ensures Valid() && Agrees(r, pos, Spec.ParseArg(tokens, old(pos)))
      decreases |tokens| - pos, 9
    {
      hide Spec.ParseLevel;
      var name := "";
      if Peek(0) == IDENT && Peek(1) == COLON {
        var id := Advance();
        name := id.text;
        var _ := Advance();
      }
      var value :- ParseLevel(0);
      return Done(CallArg(name, value));
    }

    method ParsePostfix() returns (r: Parsing<Expr>)
      requires Valid()
      modifies this
      ensures Valid() && Agrees(r, pos, Spec.ParsePostfix(tokens, old(pos)))
      decreases |tokens| - pos, 1
    {
      hide Spec.ParsePrimary, Spec.ParseCallArgs, Spec.ParseBlock;
      var node :- ParsePrimary();
      ghost var first, start := node, pos;
      while true
        invariant Valid() && pos >= start > old(pos)
        invariant Spec.PostfixTail(first, tokens, start) == Spec.PostfixTail(node, tokens, pos)
        decreases |tokens| - pos
      {
        if Peek(0) == DOT {
          var _ := Advance();
          var name :- Expect(IDENT, Spec.MemberName);
          node := MemberAccess(node, name);
        } else if Peek(0) == LPAREN {
          var args :- ParseCallArgs();
          if Peek(0) == LBRACE {
            var body :- ParseBlock();
            node := Call(node, args, Braces(body));
          } else {
            node := Call(node, args, NoBlock);
          }
        } else if Peek(0) == LBRACE {
          var body :- ParseBlock();
          node := Call(node, [], Braces(body));
        } else {
          break;
        }
      }
      return Done(node);
    }

    method ParsePrimary() returns (r: Parsing<Expr>)
      requires Valid()
      modifies this
      ensures Valid() && Agrees(r, pos, Spec.ParsePrimary(tokens, old(pos)))
      decreases |tokens| - pos, 0
    {
      hide Spec.ParseLevel, InRange;
      var ty, text := Peek(0), tokens[pos].text;
      if ty == NUMBER {
        if !InRange(text) {
          return Failed(Unexpected(pos, Spec.OutOfRange));
        }
        var _ := Advance();
        return Done(LiteralNumber(text));
      } else if ty == STRING {
        var _ := Advance();
        return Done(LiteralString(text));
      } else if ty == TRUE_KW {
        var _ := Advance();
        return Done(LiteralBool(true));
      } else if ty == FALSE_KW {
        var _ := Advance();
        return Done(LiteralBool(false));
      } else if ty == NULL_KW {
        var _ := Advance();
        return Done(LiteralNull);
      } else if ty == IDENT {
        var _ := Advance();
        if Peek(0) == SCOPE {
          var _ := Advance();
          var name :- Expect(IDENT, Spec.ScopedName);
          return Done(ScopedAccess(text, name));
        }
        return Done(Identifier(text));
      } else if ty == LPAREN {
        var _ := Advance();
        var e :- ParseLevel(0);
        var _ :- Expect(RPAREN, Spec.Close);
        return Done(e);
      }
      return Failed(Unexpected(pos, Spec.SomethingElse));
    }
  }
}
