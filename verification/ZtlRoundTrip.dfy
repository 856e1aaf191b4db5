/** Parsing what Render wrote gives the tree back. */
module ZtlRoundTrip {
  import opened Sequences
  import opened ZtlReading
  import opened ZtlSyntax
  import opened ZtlParser
  import opened ZtlRender

  // ---- a piece of the token vector ----

  lemma First(toks: seq<Token>, pos: nat, ts: seq<Token>)
    requires At(toks, pos, ts) && ts != []
    ensures pos < |toks| && toks[pos] == ts[0]
    ensures |ts| > 1 ==> pos + 1 < |toks| && toks[pos + 1] == ts[1]
  {
    var all := toks[pos..pos + |ts|];
    assert all[0] == ts[0];
    assert |ts| > 1 ==> all[1] == ts[1];
  }

  lemma Next(toks: seq<Token>, pos: nat, t: Token, ts: seq<Token>)
    requires At(toks, pos, [t] + ts)
    ensures pos < |toks| && toks[pos] == t && At(toks, pos + 1, ts)
  {
    Halves(toks, pos, [t], ts);
    First(toks, pos, [t]);
  }

  // ---- how a rendering starts ----

  /** Types a postfix expression can start with. */
  predicate Opens(ty: TokenType) {
    ty == NUMBER || ty == STRING || ty == IDENT || ty == TRUE_KW || ty == FALSE_KW || ty == NULL_KW || ty == LPAREN
  }

  predicate OpensExpr(ty: TokenType) {
    Opens(ty) || ty == BANG || ty == MINUS
  }

  /** A leading identifier is not followed by '=' or ':', so it is no assignment and no argument name. */
  predicate Starts(ts: seq<Token>) {
    && ts != [] && OpensExpr(ts[0].ty)
    && (|ts| > 1 && ts[0].ty == IDENT ==> ts[1].ty != ASSIGN && ts[1].ty != COLON)
  }

  lemma StartsAppend(ts: seq<Token>, us: seq<Token>)
    requires Starts(ts) && us != [] && us[0].ty != ASSIGN && us[0].ty != COLON
    ensures Starts(ts + us) && (ts + us)[0] == ts[0]
  {
  }

  lemma {:induction false} RenderStarts(level: nat, e: Expr)
    requires level <= 6 && WellFormed(e)
    ensures Starts(Render(level, e))
    ensures level == 6 || (level == 5 && !e.UnaryOp?) ==> Opens(Render(level, e)[0].ty)
    decreases e, 1
  {
    hide Spelling, Bare;
    BareStarts(e);
    if Level(e) < level {
      assert Render(level, e)[0] == OPEN;
    }
  }

  lemma {:induction false} BareStarts(e: Expr)
    requires WellFormed(e)
    ensures Starts(Bare(e))
    ensures Level(e) == 6 ==> Opens(Bare(e)[0].ty)
    decreases e, 0
  {
    hide Spelling, Render;
    match e
    case MemberAccess(o, member) =>
      RenderStarts(6, o);
      StartsAppend(Render(6, o), [Fixed(DOT), Name(member)]);
    case Call(callee, args, block) =>
      RenderStarts(6, callee);
      var tail := (if ImplicitCall(e) then [] else [OPEN] + (RenderArgs(args) + [CLOSE]))
                  + (if block.Braces? then RenderBlock(block.body) else []);
      assert tail != [] && (tail[0] == OPEN || tail[0] == OPEN_BRACE);
      StartsAppend(Render(6, callee), tail);
    case UnaryOp(op, x) =>
      RenderStarts(5, x);
      assert Bare(e)[0] == Operator(op);
    case BinaryOp(op, l, r) =>
      RenderStarts(BinaryLevel(op), l);
      BinaryOperator(op);
      StartsAppend(Render(BinaryLevel(op), l), [Operator(op)] + Render(BinaryLevel(op) + 1, r));
    case _ =>
  }

  // ---- what may follow ----

  /** Nothing that a layer tighter than `level` would take into the expression. */
  predicate Stops(level: nat, ty: TokenType) {
    && ty != DOT && ty != LPAREN && ty != LBRACE && ty != SCOPE
    && (forall l | level < l < 5 :: !IsOperator(l, ty))
  }

  /** What may come after an expression to which a postfix form is applied. */
  predicate MayApply(e: Expr, ty: TokenType) {
    ty != SCOPE && (OpenCall(e) ==> ty != LBRACE)
  }

  predicate Follows(level: nat, e: Expr, ty: TokenType) {
    if level == 6 then MayApply(e, ty) else Stops(level, ty)
  }

  predicate Closes(ty: TokenType) {
    ty == RPAREN || ty == COMMA || ty == SEMICOLON
  }

  lemma ClosesStops(level: nat, ty: TokenType)
    requires Closes(ty)
    ensures Stops(level, ty) && (level < 5 ==> !IsOperator(level, ty))
  {
  }

  /** The expression has been read, and what comes next at this layer is up to the rest of the input. */
  ghost predicate Reads(level: nat, e: Expr, toks: seq<Token>, pos: nat, end: nat) {
    && level <= 6 && Within(toks, pos) && Within(toks, end)
    && (level == 6 ==> ParsePostfix(toks, pos) == PostfixTail(e, toks, end))
    && (level == 5 ==> ParseLevel(5, toks, pos) == Ok(e, end))
    && (level < 5 ==> ParseLevel(level, toks, pos) == BinaryTail(level, e, toks, end))
  }

  lemma ReadsAll(level: nat, e: Expr, toks: seq<Token>, pos: nat, end: nat)
    requires level <= 5 && Reads(level, e, toks, pos, end)
    requires level < 5 ==> !IsOperator(level, toks[end].ty)
    ensures ParseLevel(level, toks, pos) == Ok(e, end)
  {
    hide Spelling, ParseLevel;
    if level < 5 {
      UnfoldTail(level, e, toks, end);
    }
  }

  // ---- expressions ----

  ghost predicate Placed(level: nat, e: Expr, toks: seq<Token>, pos: nat) {
    && level <= 6
    && At(toks, pos, Render(level, e))
    && Within(toks, pos + |Render(level, e)|)
    && Follows(level, e, toks[pos + |Render(level, e)|].ty)
  }

  lemma RenderShapes(level: nat, e: Expr)
    requires level <= 6
    ensures Level(e) >= level ==> Render(level, e) == Bare(e)
    ensures Level(e) < level ==> Render(level, e) == [OPEN] + (Bare(e) + [CLOSE])
  {
  }

  lemma {:induction false} ReadExpr(level: nat, e: Expr, toks: seq<Token>, pos: nat)
    requires WellFormed(e) && Placed(level, e, toks, pos)
    ensures Reads(level, e, toks, pos, pos + |Render(level, e)|)
    decreases e, (if level > Level(e) then 1 else 0), 6 - level, 9
  {
    hide Spelling, Render, Bare, RenderArgs, RenderArg, RenderBlock, RenderBody, RenderStmt, RenderElse, WellFormed;
    hide WellFormedArgs, WellFormedBody, WellFormedStmt, At, ParsePostfix, PostfixTail, ParseLevel, BinaryTail;
    hide IsOperator, BinaryLevel, Stops;
    LevelMeans(e);
    if level == 6 {
      if Level(e) == 6 {
        ReadPostfixForm(e, toks, pos);
      } else {
        ReadParens(e, toks, pos);
      }
    } else if level == Level(e) {
      if level == 5 {
        ReadUnary(e, toks, pos);
      } else {
        ReadBinary(e, toks, pos);
      }
    } else {
      PlacedAbove(level, e, toks, pos);
      ReadExpr(level + 1, e, toks, pos);
      LevelFromAbove(level, e, toks, pos);
    }
  }

  lemma LevelMeans(e: Expr)
    requires WellFormed(e)
    ensures Level(e) == 5 <==> e.UnaryOp?
    ensures Level(e) < 5 <==> e.BinaryOp?
  {
  }

  lemma PlacedAbove(level: nat, e: Expr, toks: seq<Token>, pos: nat)
    requires level < 6 && level != Level(e) && Placed(level, e, toks, pos)
    ensures Render(level + 1, e) == Render(level, e) && Placed(level + 1, e, toks, pos)
  {
    hide Spelling, Render, Bare, RenderArgs, RenderArg, RenderBlock, RenderBody, RenderStmt, RenderElse, WellFormed;
    hide WellFormedArgs, WellFormedBody, WellFormedStmt, At;
    RenderShapes(level, e);
    RenderShapes(level + 1, e);
  }

  /** An expression read at the next tighter layer is read at this one. */
  lemma LevelFromAbove(level: nat, e: Expr, toks: seq<Token>, pos: nat)
    requires level < 6 && level != Level(e) && WellFormed(e)
    requires Placed(level, e, toks, pos)
    requires Render(level + 1, e) == Render(level, e)
    requires Reads(level + 1, e, toks, pos, pos + |Render(level, e)|)
    ensures Reads(level, e, toks, pos, pos + |Render(level, e)|)
  {
    hide Spelling, Render, Bare, RenderArgs, RenderArg, RenderBlock, RenderBody, RenderStmt, RenderElse, WellFormed;
    hide WellFormedArgs, WellFormedBody, WellFormedStmt, At, ParsePostfix, PostfixTail, ParseLevel, BinaryTail;
    var end := pos + |Render(level, e)|;
    if level == 5 {
      RenderStarts(6, e);
      First(toks, pos, Render(6, e));
      UnfoldUnary(toks, pos);
      TailEnd(e, toks, end);
    } else {
      ReadsAll(level + 1, e, toks, pos, end);
      UnfoldLevel(level, toks, pos);
    }
  }

  lemma ParensPlaced(e: Expr, toks: seq<Token>, pos: nat)
    requires Level(e) < 6 && Placed(6, e, toks, pos)
    ensures var end := pos + 1 + |Bare(e)|;
            && Within(toks, pos) && toks[pos].ty == LPAREN && |Render(6, e)| == |Bare(e)| + 2
            && Render(0, e) == Bare(e) && At(toks, pos + 1, Bare(e))
            && Within(toks, end + 1) && toks[end].ty == RPAREN
  {
    hide Spelling, Render, Bare, At, Level, Follows;
    RenderShapes(6, e);
    RenderShapes(0, e);
    Next(toks, pos, OPEN, Bare(e) + [CLOSE]);
    Halves(toks, pos + 1, Bare(e), [CLOSE]);
    First(toks, pos + 1 + |Bare(e)|, [CLOSE]);
  }

  lemma {:induction false} ReadParens(e: Expr, toks: seq<Token>, pos: nat)
    requires WellFormed(e) && Level(e) < 6 && Placed(6, e, toks, pos)
    ensures Reads(6, e, toks, pos, pos + |Render(6, e)|)
    decreases e, 0, 9, 0
  {
    hide Spelling, Render, Bare, RenderArgs, RenderArg, RenderBlock, RenderBody, RenderStmt, RenderElse;
    hide WellFormed, WellFormedArgs, WellFormedBody, WellFormedStmt, At, Level, Stops;
    hide ParsePostfix, PostfixTail, ParseLevel, ParsePrimary, Placed;
    ParensPlaced(e, toks, pos);
    ReadWhole(e, toks, pos + 1);
    UnfoldParens(toks, pos);
    UnfoldPostfix(toks, pos);
  }

  lemma {:induction false} ReadUnary(e: Expr, toks: seq<Token>, pos: nat)
    requires WellFormed(e) && e.UnaryOp? && Placed(5, e, toks, pos)
    ensures Reads(5, e, toks, pos, pos + |Render(5, e)|)
    decreases e, 0, 1, 0
  {
    hide Spelling, Render, Bare, RenderArgs, RenderArg, RenderBlock, RenderBody, RenderStmt, RenderElse, WellFormed;
    hide WellFormedArgs, WellFormedBody, WellFormedStmt, At, ParsePostfix, PostfixTail, ParseLevel, BinaryTail;
    hide Stops, IsOperator;
    UnaryShape(e);
    Next(toks, pos, Operator(e.op), Render(5, e.operand));
    ReadExpr(5, e.operand, toks, pos + 1);
    UnfoldUnary(toks, pos);
  }

  lemma UnaryShape(e: Expr)
    requires WellFormed(e) && e.UnaryOp?
    ensures Render(5, e) == [Operator(e.op)] + Render(5, e.operand)
    ensures WellFormed(e.operand) && IsOperator(5, OperatorType(e.op))
  {
    RenderShapes(5, e);
    hide Spelling, Render;
  }

  lemma BinaryShape(e: Expr)
    requires WellFormed(e) && e.BinaryOp?
    ensures var level := BinaryLevel(e.op);
            && level == Level(e) < 5 && IsOperator(level, OperatorType(e.op)) && Stops(level, OperatorType(e.op))
            && Render(level, e) == Render(level, e.lhs) + ([Operator(e.op)] + Render(level + 1, e.rhs))
    ensures WellFormed(e.lhs) && WellFormed(e.rhs)
  {
    RenderShapes(BinaryLevel(e.op), e);
    hide Spelling, Render;
    BinaryOperator(e.op);
    OperatorStops(BinaryLevel(e.op), e.op);
  }

  lemma {:induction false} ReadBinary(e: Expr, toks: seq<Token>, pos: nat)
    requires WellFormed(e) && e.BinaryOp? && Placed(Level(e), e, toks, pos)
    ensures Reads(Level(e), e, toks, pos, pos + |Render(Level(e), e)|)
    decreases e, 0, 6 - Level(e), 0
  {
    hide Spelling, Render, Bare, RenderArgs, RenderArg, RenderBlock, RenderBody, RenderStmt, RenderElse, WellFormed;
    hide WellFormedArgs, WellFormedBody, WellFormedStmt, At, ParsePostfix, PostfixTail, ParseLevel, BinaryTail;
    hide OperatorType, IsOperator, Stops, BinaryLevel;
    BinaryShape(e);
    var level := BinaryLevel(e.op);
    var tail := [Operator(e.op)] + Render(level + 1, e.rhs);
    Halves(toks, pos, Render(level, e.lhs), tail);
    var p := pos + |Render(level, e.lhs)|;
    Next(toks, p, Operator(e.op), Render(level + 1, e.rhs));
    ReadExpr(level, e.lhs, toks, pos);
    StopsAbove(level, toks[pos + |Render(level, e)|].ty);
    ReadExpr(level + 1, e.rhs, toks, p + 1);
    ReadsAll(level + 1, e.rhs, toks, p + 1, p + 1 + |Render(level + 1, e.rhs)|);
    UnfoldTail(level, e.lhs, toks, p);
  }

  lemma StopsAbove(level: nat, ty: TokenType)
    requires level < 5 && Stops(level, ty)
    ensures Stops(level + 1, ty) && (level < 4 ==> !IsOperator(level + 1, ty))
  {
  }

  lemma OperatorStops(level: nat, op: string)
    requires IsBinary(op) && level == BinaryLevel(op)
    ensures Stops(level, OperatorType(op))
  {
  }

  lemma {:induction false} ReadPostfixForm(e: Expr, toks: seq<Token>, pos: nat)
    requires WellFormed(e) && Level(e) == 6 && Placed(6, e, toks, pos)
    ensures Reads(6, e, toks, pos, pos + |Render(6, e)|)
    decreases e, 0, 0, 3
  {
    hide Spelling, Render, Bare, RenderArgs, RenderArg, RenderBlock, RenderBody, RenderStmt, RenderElse, WellFormed;
    hide WellFormedArgs, WellFormedBody, WellFormedStmt, At, ParsePostfix, PostfixTail, ParsePrimary, Placed, Reads;
    if e.MemberAccess? {
      ReadMember(e, toks, pos);
    } else if e.Call? {
      ReadCall(e, toks, pos);
    } else {
      ReadSimple(e, toks, pos);
    }
  }

  lemma {:induction false} ReadMember(e: Expr, toks: seq<Token>, pos: nat)
    requires WellFormed(e) && e.MemberAccess? && Placed(6, e, toks, pos)
    ensures Reads(6, e, toks, pos, pos + |Render(6, e)|)
    decreases e, 0, 0, 2
  {
    hide Spelling, Render, Bare, RenderArgs, RenderArg, RenderBlock, RenderBody, RenderStmt, RenderElse, WellFormed;
    hide WellFormedArgs, WellFormedBody, WellFormedStmt, At, ParsePostfix, PostfixTail, Stops;
    var dot := [Fixed(DOT), Name(e.member)];
    MemberShape(e);
    Halves(toks, pos, Render(6, e.base), dot);
    var p := pos + |Render(6, e.base)|;
    First(toks, p, dot);
    ReadExpr(6, e.base, toks, pos);
    TailMember(e.base, toks, p);
  }

  lemma MemberShape(e: Expr)
    requires WellFormed(e) && e.MemberAccess?
    ensures Render(6, e) == Render(6, e.base) + [Fixed(DOT), Name(e.member)] && WellFormed(e.base)
  {
    RenderShapes(6, e);
    hide Spelling, Render;
  }

  lemma ReadSimple(e: Expr, toks: seq<Token>, pos: nat)
    requires WellFormed(e) && Level(e) == 6 && !e.MemberAccess? && !e.Call? && Placed(6, e, toks, pos)
    ensures Reads(6, e, toks, pos, pos + |Render(6, e)|)
  {
    hide Spelling, Render, RenderArgs, RenderArg, RenderBlock, RenderBody, RenderStmt, RenderElse, WellFormed;
    hide WellFormedArgs, WellFormedBody, WellFormedStmt, At, PostfixTail, ParsePostfix, ParsePrimary;
    RenderShapes(6, e);
    ReadAtom(e, toks, pos);
    UnfoldPostfix(toks, pos);
  }

  lemma ReadAtom(e: Expr, toks: seq<Token>, pos: nat)
    requires WellFormed(e) && Level(e) == 6 && !e.MemberAccess? && !e.Call?
    requires At(toks, pos, Bare(e)) && Within(toks, pos + |Bare(e)|) && toks[pos + |Bare(e)|].ty != SCOPE
    ensures ParsePrimary(toks, pos) == Ok(e, pos + |Bare(e)|)
  {
    hide Spelling, Render, At, InRange;
    First(toks, pos, Bare(e));
    if e.ScopedAccess? {
      assert Bare(e) == [Name(e.scope)] + [Fixed(SCOPE), Name(e.name)];
      Next(toks, pos, Name(e.scope), [Fixed(SCOPE), Name(e.name)]);
      First(toks, pos + 1, [Fixed(SCOPE), Name(e.name)]);
    }
  }

  // ---- calls ----

  function ArgsPart(e: Expr): seq<Token>
    requires e.Call?
  {
    if ImplicitCall(e) then [] else [OPEN] + (RenderArgs(e.args) + [CLOSE])
  }

  function BlockPart(e: Expr): seq<Token>
    requires e.Call?
  {
    if e.block.Braces? then RenderBlock(e.block.body) else []
  }

  lemma {:induction false} ReadCall(e: Expr, toks: seq<Token>, pos: nat)
    requires WellFormed(e) && e.Call? && Placed(6, e, toks, pos)
    ensures Reads(6, e, toks, pos, pos + |Render(6, e)|)
    decreases e, 0, 0, 2
  {
    hide Spelling, Render, Bare, RenderArgs, RenderArg, RenderBlock, RenderBody, RenderStmt, RenderElse, WellFormed;
    hide WellFormedArgs, WellFormedBody, WellFormedStmt, ArgsPart, BlockPart, At, ParsePostfix, PostfixTail, Stops;
    CallShape(e);
    var callee := Render(6, e.callee);
    Halves(toks, pos, callee, ArgsPart(e) + BlockPart(e));
    First(toks, pos + |callee|, ArgsPart(e) + BlockPart(e));
    ReadExpr(6, e.callee, toks, pos);
    Halves(toks, pos + |callee|, ArgsPart(e), BlockPart(e));
    ReadApplication(e, toks, pos + |callee|);
  }

  /** What stands after the callee turns it into the call. */
  lemma {:induction false} ReadApplication(e: Expr, toks: seq<Token>, p: nat)
    requires WellFormed(e) && e.Call? && Within(toks, p)
    requires At(toks, p, ArgsPart(e)) && At(toks, p + |ArgsPart(e)|, BlockPart(e))
    requires Within(toks, p + |ArgsPart(e)| + |BlockPart(e)|)
    requires OpenCall(e) ==> toks[p + |ArgsPart(e)|].ty != LBRACE
    ensures PostfixTail(e.callee, toks, p) == PostfixTail(e, toks, p + |ArgsPart(e)| + |BlockPart(e)|)
    decreases e, 0, 0, 1
  {
    hide Spelling, Render, Bare, RenderArgs, RenderArg, RenderBlock, RenderBody, RenderStmt, RenderElse, WellFormed;
    hide WellFormedArgs, WellFormedBody, WellFormedStmt, At, PostfixTail, ParseCallArgs, ParseBlock;
    CallShape(e);
    if e.block.Braces? {
      ReadBlock(e.block.body, toks, p + |ArgsPart(e)|);
      BlockStarts(e.block.body, toks, p + |ArgsPart(e)|);
    }
    if !ImplicitCall(e) {
      ReadCallArgs(e.args, toks, p);
      Next(toks, p, OPEN, RenderArgs(e.args) + [CLOSE]);
    }
    Apply(e, toks, p, p + |ArgsPart(e)|);
  }

  lemma Apply(e: Expr, toks: seq<Token>, p: nat, q: nat)
    requires e.Call? && Within(toks, p) && Within(toks, q)
    requires if ImplicitCall(e) then p == q else toks[p].ty == LPAREN && ParseCallArgs(toks, p) == Ok(e.args, q)
    requires e.block.Braces? ==> toks[q].ty == LBRACE && ParseBlock(toks, q).Ok?
                                 && ParseBlock(toks, q).value == e.block.body
    requires e.block.NoBlock? ==> toks[q].ty != LBRACE
    ensures PostfixTail(e.callee, toks, p) == PostfixTail(e, toks, if e.block.Braces? then ParseBlock(toks,
        q).pos else q)
  {
    hide Spelling, PostfixTail, ParseCallArgs, ParseBlock;
    if ImplicitCall(e) {
      TailBlock(e.callee, toks, p);
    } else {
      TailCall(e.callee, toks, p);
    }
  }

  lemma CallShape(e: Expr)
    requires WellFormed(e) && e.Call?
    ensures var tail := ArgsPart(e) + BlockPart(e);
            && Render(6, e) == Render(6, e.callee) + tail
            && tail != [] && tail[0] == (if ImplicitCall(e) then OPEN_BRACE else OPEN)
            && (OpenCall(e) ==> BlockPart(e) == [])
    ensures WellFormed(e.callee) && WellFormedArgs(e.args) && (e.block.Braces? ==> WellFormedBody(e.block.body))
  {
    RenderShapes(6, e);
    hide Spelling, Render;
  }

  // ---- arguments ----

  lemma {:induction false} ReadCallArgs(args: seq<CallArg>, toks: seq<Token>, pos: nat)
    requires WellFormedArgs(args)
    requires At(toks, pos, [OPEN] + (RenderArgs(args) + [CLOSE])) && Terminated(toks)
    ensures Within(toks, pos + |RenderArgs(args)| + 2)
    ensures ParseCallArgs(toks, pos) == Ok(args, pos + |RenderArgs(args)| + 2)
    decreases args, 2, 0, 0
  {
    hide Spelling, Render, Bare, RenderArgs, RenderArg, RenderBlock, RenderBody, RenderStmt, RenderElse, WellFormed;
    hide WellFormedArgs, WellFormedBody, WellFormedStmt, At, ParseCallArgs, ParseArgs;
    Next(toks, pos, OPEN, RenderArgs(args) + [CLOSE]);
    Halves(toks, pos + 1, RenderArgs(args), [CLOSE]);
    First(toks, pos + 1 + |RenderArgs(args)|, [CLOSE]);
    ReadArgs(args, toks, pos + 1);
    UnfoldCallArgs(toks, pos);
  }

  lemma {:induction false} ReadArgs(args: seq<CallArg>, toks: seq<Token>, pos: nat)
    requires WellFormedArgs(args) && Terminated(toks)
    requires At(toks, pos, RenderArgs(args))
    requires Within(toks, pos + |RenderArgs(args)|) && toks[pos + |RenderArgs(args)|].ty == RPAREN
    ensures ParseArgs(toks, pos) == Ok(args, pos + |RenderArgs(args)|)
    decreases args, 1, 0, 0
  {
    hide Spelling, Render, Bare, RenderArgs, RenderArg, RenderBlock, RenderBody, RenderStmt, RenderElse, WellFormed;
    hide WellFormedArgs, WellFormedBody, WellFormedStmt, At, ParseArgs, ParseArg;
    ArgsShape(args);
    UnfoldArgs(toks, pos);
    if |args| == 1 {
      ReadArg(args[0], toks, pos);
      assert args == [args[0]];
    } else if args != [] {
      ReadMoreArgs(args, toks, pos);
    }
  }

  lemma {:induction false} ReadMoreArgs(args: seq<CallArg>, toks: seq<Token>, pos: nat)
    requires |args| > 1 && WellFormedArgs(args) && Terminated(toks)
    requires At(toks, pos, RenderArgs(args))
    requires Within(toks, pos + |RenderArgs(args)|) && toks[pos + |RenderArgs(args)|].ty == RPAREN
    ensures ParseArgs(toks, pos) == Ok(args, pos + |RenderArgs(args)|)
    decreases args, 0, 0, 0
  {
    hide Spelling, Render, Bare, RenderArgs, RenderArg, RenderBlock, RenderBody, RenderStmt, RenderElse, WellFormed;
    hide WellFormedArgs, WellFormedBody, WellFormedStmt, At, ParseArgs, ParseArg;
    ArgsShape(args);
    var arg, rest := args[0], args[1..];
    var comma := Fixed(COMMA);
    var p := pos + |RenderArg(arg)|;
    Halves(toks, pos, RenderArg(arg), [comma] + RenderArgs(rest));
    Next(toks, p, comma, RenderArgs(rest));
    ReadArg(arg, toks, pos);
    ReadArgs(rest, toks, p + 1);
    UnfoldArgs(toks, pos);
    HeadAndTail(args);
  }

  lemma HeadAndTail<T>(xs: seq<T>)
    requires xs != []
    ensures xs == [xs[0]] + xs[1..]
  {
  }

  lemma ArgsShape(args: seq<CallArg>)
    requires WellFormedArgs(args)
    ensures args == [] ==> RenderArgs(args) == []
    ensures args != [] ==> WellFormed(args[0].value) && WellFormedArgs(args[1..])
    ensures |args| == 1 ==> RenderArgs(args) == RenderArg(args[0])
    ensures |args| > 1 ==> RenderArgs(args) == RenderArg(args[0]) + ([Fixed(COMMA)] + RenderArgs(args[1..]))
  {
    hide Spelling, RenderArg, WellFormed;
  }

  lemma {:induction false} ReadArg(arg: CallArg, toks: seq<Token>, pos: nat)
    requires WellFormed(arg.value) && Terminated(toks)
    requires At(toks, pos, RenderArg(arg)) && Within(toks, pos + |RenderArg(arg)|)
    requires Closes(toks[pos + |RenderArg(arg)|].ty)
    ensures OpensExpr(toks[pos].ty)
    ensures ParseArg(toks, pos) == Ok(arg, pos + |RenderArg(arg)|)
    decreases arg, 0, 0, 0
  {
    hide Spelling, Render, Bare, RenderArgs, RenderBlock, RenderBody, RenderStmt, RenderElse;
    hide WellFormed, WellFormedArgs, WellFormedBody, WellFormedStmt, At, ParseLevel;
    var value := Render(0, arg.value);
    if arg.name == "" {
      assert RenderArg(arg) == value;
      ReadWhole(arg.value, toks, pos);
    } else {
      var name := [Name(arg.name), Fixed(COLON)];
      assert RenderArg(arg) == name + value;
      Halves(toks, pos, name, value);
      First(toks, pos, name);
      ReadWhole(arg.value, toks, pos + 2);
    }
  }

  // ---- statements ----

  lemma {:induction false} ReadBlock(body: seq<Stmt>, toks: seq<Token>, pos: nat)
    requires WellFormedBody(body) && Terminated(toks)
    requires At(toks, pos, RenderBlock(body))
    ensures Within(toks, pos + |RenderBlock(body)|)
    ensures ParseBlock(toks, pos) == Ok(body, pos + |RenderBlock(body)|)
    decreases body, 1, 0, 0
  {
    hide Spelling, Render, Bare, RenderArgs, RenderArg, RenderBody, RenderStmt, RenderElse, WellFormed, WellFormedArgs;
    hide WellFormedBody, WellFormedStmt, At, ParseBlock, ParseBody;
    Next(toks, pos, OPEN_BRACE, RenderBody(body) + [CLOSE_BRACE]);
    Halves(toks, pos + 1, RenderBody(body), [CLOSE_BRACE]);
    var end := pos + 1 + |RenderBody(body)|;
    First(toks, end, [CLOSE_BRACE]);
    ReadBody(body, toks, pos + 1);
    UnfoldBlock(toks, pos);
  }

  lemma {:induction false} ReadBody(body: seq<Stmt>, toks: seq<Token>, pos: nat)
    requires WellFormedBody(body) && Terminated(toks)
    requires At(toks, pos, RenderBody(body)) && Within(toks, pos + |RenderBody(body)|)
    requires toks[pos + |RenderBody(body)|].ty == RBRACE
    ensures ParseBody(toks, pos) == Ok(body, pos + |RenderBody(body)|)
    decreases body, 0, 1, 0
  {
    hide Spelling, Render, Bare, RenderArgs, RenderArg, RenderBlock, RenderBody, RenderStmt, RenderElse, WellFormed;
    hide WellFormedArgs, WellFormedBody, WellFormedStmt, At, ParseStatement, ParseBody;
    UnfoldBody(toks, pos);
    BodyShape(body);
    if body != [] {
      var s, rest := body[0], body[1..];
      var p := pos + |RenderStmt(s)|;
      FirstStatement(body, toks, pos);
      ReadStmt(s, toks, pos);
      ReadBody(rest, toks, p);
      HeadAndTail(body);
    }
  }

  /** The first statement of a list, and what may come after it. */
  lemma FirstStatement(body: seq<Stmt>, toks: seq<Token>, pos: nat)
    requires body != [] && WellFormedBody(body) && Terminated(toks)
    requires At(toks, pos, RenderBody(body)) && Within(toks, pos + |RenderBody(body)|)
    requires toks[pos + |RenderBody(body)|].ty != ELSE_KW
    ensures var p := pos + |RenderStmt(body[0])|;
            && At(toks, pos, RenderStmt(body[0])) && Within(toks, p) && toks[p].ty != ELSE_KW
            && At(toks, p, RenderBody(body[1..]))
            && p + |RenderBody(body[1..])| == pos + |RenderBody(body)|
            && toks[pos].ty != RBRACE && toks[pos].ty != END_OF_FILE
  {
    hide Spelling, Render, Bare, RenderArgs, RenderArg, RenderBlock, RenderBody, RenderStmt, RenderElse, WellFormed;
    hide WellFormedArgs, WellFormedBody, WellFormedStmt, At;
    BodyShape(body);
    var s, rest := body[0], body[1..];
    BodyStarts(body);
    BodyStarts(rest);
    var p := pos + |RenderStmt(s)|;
    Halves(toks, pos, RenderStmt(s), RenderBody(rest));
    First(toks, pos, RenderStmt(s));
    if RenderBody(rest) != [] {
      First(toks, p, RenderBody(rest));
    }
  }

  lemma BodyShape(body: seq<Stmt>)
    requires WellFormedBody(body)
    ensures body == [] ==> RenderBody(body) == []
    ensures body != [] ==> RenderBody(body) == RenderStmt(body[0]) + RenderBody(body[1..])
    ensures body != [] ==> WellFormedStmt(body[0]) && WellFormedBody(body[1..])
  {
    hide Spelling, RenderStmt, WellFormedStmt;
  }

  lemma BodyStarts(body: seq<Stmt>)
    requires WellFormedBody(body)
    ensures RenderBody(body) == [] <==> body == []
    ensures body != [] ==>
              var ty := RenderBody(body)[0].ty;
              && RenderStmt(body[0])[0].ty == ty
              && ty != RBRACE && ty != END_OF_FILE && ty != ELSE_KW
  {
    hide Spelling, Render, Bare, RenderArgs, RenderArg, RenderBlock, RenderStmt, RenderElse, WellFormed, WellFormedArgs;
    hide WellFormedStmt;
    if body != [] {
      StmtStarts(body[0]);
    }
  }

  lemma StmtStarts(s: Stmt)
    requires WellFormedStmt(s)
    ensures var ty := RenderStmt(s)[0].ty; ty != RBRACE && ty != END_OF_FILE && ty != ELSE_KW
  {
    hide Spelling, Render;
    if s.ExprStmt? {
      RenderStarts(0, s.expr);
    }
  }

  lemma {:induction false} ReadStmt(s: Stmt, toks: seq<Token>, pos: nat)
    requires WellFormedStmt(s) && Terminated(toks)
    requires At(toks, pos, RenderStmt(s)) && Within(toks, pos + |RenderStmt(s)|)
    requires toks[pos + |RenderStmt(s)|].ty != ELSE_KW
    ensures Within(toks, pos) && ParseStatement(toks, pos) == Ok(s, pos + |RenderStmt(s)|)
    decreases s, 0, 3, 0
  {
    hide Spelling, Render, Bare, RenderArgs, RenderArg, RenderBlock, RenderBody, RenderStmt, RenderElse, WellFormed;
    hide WellFormedArgs, WellFormedBody, WellFormedStmt, At, ParseInclude, ParseIf, ParseReturn, ParseLevel;
    First(toks, pos, RenderStmt(s));
    match s
    case ExprStmt(_) => ReadExprStmt(s, toks, pos);
    case AssignStmt(_, _) => ReadAssign(s, toks, pos);
    case IfStmt(_, _, _) => ReadIf(s, toks, pos);
    case ReturnStmt(_) => ReadReturn(s, toks, pos);
    case IncludeStmt(_) => ReadInclude(s, toks, pos);
  }

  /** A whole expression, ended by a token no expression goes on with. */
  lemma {:induction false} ReadWhole(e: Expr, toks: seq<Token>, pos: nat)
    requires WellFormed(e) && Terminated(toks)
    requires At(toks, pos, Render(0, e)) && Within(toks, pos + |Render(0, e)|)
    requires Closes(toks[pos + |Render(0, e)|].ty)
    ensures Within(toks, pos) && ParseLevel(0, toks, pos) == Ok(e, pos + |Render(0, e)|)
    ensures OpensExpr(toks[pos].ty)
    ensures toks[pos].ty == IDENT ==> TypeAt(toks, pos + 1) != ASSIGN && TypeAt(toks, pos + 1) != COLON
    decreases e, 0, 8, 0
  {
    hide Spelling, Render, Bare, RenderArgs, RenderArg, RenderBlock, RenderBody, RenderStmt, RenderElse;
    hide WellFormed, WellFormedArgs, WellFormedBody, WellFormedStmt, At, ParseLevel, BinaryTail, Stops, IsOperator,
        Level;
    var end := pos + |Render(0, e)|;
    ClosesStops(0, toks[end].ty);
    ReadExpr(0, e, toks, pos);
    ReadsAll(0, e, toks, pos, end);
    RenderStarts(0, e);
    First(toks, pos, Render(0, e));
  }

  /** The same with the semicolon that ends it. */
  lemma {:induction false} ReadToSemicolon(e: Expr, toks: seq<Token>, pos: nat)
    requires WellFormed(e) && Terminated(toks)
    requires At(toks, pos, Render(0, e) + [SEMI])
    ensures var end := pos + |Render(0, e)|;
            && Within(toks, pos) && Within(toks, end) && toks[end] == SEMI
            && ParseLevel(0, toks, pos) == Ok(e, end) && Semi(toks, end) == end + 1
    ensures OpensExpr(toks[pos].ty)
    ensures toks[pos].ty == IDENT ==> TypeAt(toks, pos + 1) != ASSIGN
    decreases e, 3, 0, 0
  {
    hide Spelling, Render, Bare, RenderArgs, RenderArg, RenderBlock, RenderBody, RenderStmt, RenderElse;
    hide WellFormed, WellFormedArgs, WellFormedBody, WellFormedStmt, At, ParseLevel;
    var end := pos + |Render(0, e)|;
    Halves(toks, pos, Render(0, e), [SEMI]);
    First(toks, end, [SEMI]);
    ReadWhole(e, toks, pos);
  }

  lemma ExprStmtShape(s: Stmt)
    requires WellFormedStmt(s) && s.ExprStmt?
    ensures WellFormed(s.expr) && RenderStmt(s) == Render(0, s.expr) + [SEMI]
  {
    hide Spelling, Render, WellFormed;
  }

  lemma AssignShape(s: Stmt)
    requires WellFormedStmt(s) && s.AssignStmt?
    ensures WellFormed(s.value)
    ensures RenderStmt(s) == [Name(s.target), Fixed(ASSIGN)] + (Render(0, s.value) + [SEMI])
  {
    hide Spelling, Render, WellFormed;
  }

  lemma ReturnShape(s: Stmt)
    requires WellFormedStmt(s) && s.ReturnStmt?
    ensures s.result.NoValue? ==> RenderStmt(s) == [Fixed(RETURN_KW), SEMI]
    ensures s.result.Given? ==>
              WellFormed(s.result.e) && RenderStmt(s) == [Fixed(RETURN_KW)] + (Render(0, s.result.e) + [SEMI])
  {
    hide Spelling, Render, WellFormed;
  }

  lemma {:induction false} ReadExprStmt(s: Stmt, toks: seq<Token>, pos: nat)
    requires WellFormedStmt(s) && Terminated(toks) && s.ExprStmt?
    requires At(toks, pos, RenderStmt(s)) && Within(toks, pos + |RenderStmt(s)|)
    ensures Within(toks, pos) && ParseStatement(toks, pos) == Ok(s, pos + |RenderStmt(s)|)
    decreases s, 0, 2, 0
  {
    hide Spelling, Render, Bare, RenderArgs, RenderArg, RenderBlock, RenderBody, RenderStmt, RenderElse, At;
    hide WellFormed, WellFormedArgs, WellFormedBody, WellFormedStmt, ParseStatement, ParseLevel;
    ExprStmtShape(s);
    ReadToSemicolon(s.expr, toks, pos);
    UnfoldExprStmt(toks, pos);
  }

  lemma {:induction false} ReadAssign(s: Stmt, toks: seq<Token>, pos: nat)
    requires WellFormedStmt(s) && Terminated(toks) && s.AssignStmt?
    requires At(toks, pos, RenderStmt(s)) && Within(toks, pos + |RenderStmt(s)|)
    ensures Within(toks, pos) && ParseStatement(toks, pos) == Ok(s, pos + |RenderStmt(s)|)
    decreases s, 0, 2, 0
  {
    hide Spelling, Render, Bare, RenderArgs, RenderArg, RenderBlock, RenderBody, RenderStmt, RenderElse, At;
    hide WellFormed, WellFormedArgs, WellFormedBody, WellFormedStmt, ParseStatement, ParseLevel;
    AssignShape(s);
    var target := [Name(s.target), Fixed(ASSIGN)];
    Halves(toks, pos, target, Render(0, s.value) + [SEMI]);
    First(toks, pos, target);
    ReadToSemicolon(s.value, toks, pos + 2);
    UnfoldAssign(toks, pos);
  }

  lemma {:induction false} ReadReturn(s: Stmt, toks: seq<Token>, pos: nat)
    requires WellFormedStmt(s) && Terminated(toks) && s.ReturnStmt?
    requires At(toks, pos, RenderStmt(s)) && Within(toks, pos + |RenderStmt(s)|)
    ensures Within(toks, pos) && ParseStatement(toks, pos) == Ok(s, pos + |RenderStmt(s)|)
    decreases s, 0, 2, 0
  {
    hide Spelling, Render, Bare, RenderArgs, RenderArg, RenderBlock, RenderBody, RenderStmt, RenderElse, At;
    hide WellFormed, WellFormedArgs, WellFormedBody, WellFormedStmt, ParseStatement, ParseLevel;
    ReturnShape(s);
    if s.result.Given? {
      var e := s.result.e;
      Next(toks, pos, Fixed(RETURN_KW), Render(0, e) + [SEMI]);
      ReadToSemicolon(e, toks, pos + 1);
    } else {
      First(toks, pos, [Fixed(RETURN_KW), SEMI]);
    }
    UnfoldReturn(toks, pos);
  }

  lemma ReadInclude(s: Stmt, toks: seq<Token>, pos: nat)
    requires Terminated(toks) && s.IncludeStmt?
    requires At(toks, pos, RenderStmt(s)) && Within(toks, pos + |RenderStmt(s)|)
    ensures Within(toks, pos) && ParseStatement(toks, pos) == Ok(s, pos + |RenderStmt(s)|)
  {
    hide Spelling, Render, Bare, RenderArgs, RenderArg, RenderBlock, RenderBody, RenderElse, WellFormed, WellFormedArgs;
    hide WellFormedBody, WellFormedStmt, At, ParseIf, ParseReturn, ParseLevel;
    var name := Token(STRING, s.moduleName);
    assert RenderStmt(s) == [Fixed(INCLUDE_KW), OPEN] + ([name, CLOSE] + [SEMI]);
    Halves(toks, pos, [Fixed(INCLUDE_KW), OPEN], [name, CLOSE] + [SEMI]);
    Halves(toks, pos + 2, [name, CLOSE], [SEMI]);
    First(toks, pos, [Fixed(INCLUDE_KW), OPEN]);
    First(toks, pos + 2, [name, CLOSE]);
    First(toks, pos + 4, [SEMI]);
  }

  /** A condition with the parenthesis that ends it. */
  lemma {:induction false} ReadCondition(e: Expr, toks: seq<Token>, pos: nat)
    requires WellFormed(e) && Terminated(toks)
    requires At(toks, pos, Render(0, e) + [CLOSE])
    ensures var end := pos + |Render(0, e)|;
            && Within(toks, pos) && end < |toks| && toks[end].ty == RPAREN
            && ParseLevel(0, toks, pos) == Ok(e, end)
    decreases e, 3, 0, 0
  {
    hide Spelling, Render, Bare, RenderArgs, RenderArg, RenderBlock, RenderBody, RenderStmt, RenderElse;
    hide WellFormed, WellFormedArgs, WellFormedBody, WellFormedStmt, At, ParseLevel;
    var end := pos + |Render(0, e)|;
    Halves(toks, pos, Render(0, e), [CLOSE]);
    First(toks, end, [CLOSE]);
    ReadWhole(e, toks, pos);
  }

  lemma {:induction false} ReadIf(s: Stmt, toks: seq<Token>, pos: nat)
    requires WellFormedStmt(s) && Terminated(toks) && s.IfStmt?
    requires At(toks, pos, RenderStmt(s)) && Within(toks, pos + |RenderStmt(s)|)
    requires toks[pos + |RenderStmt(s)|].ty != ELSE_KW
    ensures Within(toks, pos) && toks[pos].ty == IF_KW
    ensures ParseIf(toks, pos) == Ok(s, pos + |RenderStmt(s)|)
    decreases s, 0, 2, 0
  {
    hide Spelling, Render, Bare, RenderArgs, RenderArg, RenderBlock, RenderBody, RenderStmt, RenderElse, WellFormed;
    hide WellFormedArgs, WellFormedBody, WellFormedStmt, At, ParseIf, ParseBlock, ParseElse, ParseLevel;
    var c, t := |Render(0, s.condition)|, |RenderBlock(s.thenBranch)|;
    IfParts(s, toks, pos);
    ReadCondition(s.condition, toks, pos + 2);
    ReadBlock(s.thenBranch, toks, pos + 3 + c);
    ReadElse(s.elseBranch, toks, pos + 3 + c + t);
    UnfoldIf(toks, pos);
  }

  lemma IfParts(s: Stmt, toks: seq<Token>, pos: nat)
    requires WellFormedStmt(s) && Terminated(toks) && s.IfStmt?
    requires At(toks, pos, RenderStmt(s)) && Within(toks, pos + |RenderStmt(s)|)
    ensures WellFormed(s.condition) && WellFormedBody(s.thenBranch) && WellFormedBody(s.elseBranch)
    ensures var c, t, f := Render(0, s.condition), RenderBlock(s.thenBranch), RenderElse(s.elseBranch);
            var p := pos + 2 + |c|;
            && |RenderStmt(s)| == 3 + |c| + |t| + |f| && pos + 2 <= |toks|
            && toks[pos].ty == IF_KW && toks[pos + 1].ty == LPAREN
            && At(toks, pos + 2, c + [CLOSE]) && At(toks, p + 1, t) && At(toks, p + 1 + |t|, f)
  {
    hide Spelling, Render, Bare, RenderArgs, RenderArg, RenderBlock, RenderBody, RenderElse, WellFormed, WellFormedArgs;
    hide WellFormedBody, At;
    var head := [Fixed(IF_KW), OPEN];
    var c, t, f := Render(0, s.condition), RenderBlock(s.thenBranch), RenderElse(s.elseBranch);
    Halves(toks, pos, head, c + ([CLOSE] + (t + f)));
    First(toks, pos, head);
    assert c + ([CLOSE] + (t + f)) == (c + [CLOSE]) + (t + f);
    Halves(toks, pos + 2, c + [CLOSE], t + f);
    Halves(toks, pos + 3 + |c|, t, f);
  }

  lemma {:induction false} ReadElse(body: seq<Stmt>, toks: seq<Token>, pos: nat)
    requires WellFormedBody(body) && Terminated(toks)
    requires At(toks, pos, RenderElse(body)) && Within(toks, pos + |RenderElse(body)|)
    requires toks[pos + |RenderElse(body)|].ty != ELSE_KW
    ensures Within(toks, pos) && ParseElse(toks, pos) == Ok(body, pos + |RenderElse(body)|)
    decreases body, 2, 0, 0
  {
    hide Spelling, Render, Bare, RenderArgs, RenderArg, RenderBlock, RenderBody, RenderStmt, WellFormed, WellFormedArgs;
    hide WellFormedStmt, At, ParseIf, ParseBlock;
    if body != [] {
      var keyword := Fixed(ELSE_KW);
      if |body| == 1 && body[0].IfStmt? {
        Next(toks, pos, keyword, RenderStmt(body[0]));
        ReadIf(body[0], toks, pos + 1);
        assert body == [body[0]];
      } else {
        Next(toks, pos, keyword, RenderBlock(body));
        ReadBlock(body, toks, pos + 1);
        BlockStarts(body, toks, pos + 1);
      }
    }
  }

  lemma BlockStarts(body: seq<Stmt>, toks: seq<Token>, pos: nat)
    requires At(toks, pos, RenderBlock(body))
    ensures pos < |toks| && toks[pos].ty == LBRACE
  {
    hide Spelling, Render, Bare, RenderArgs, RenderArg, RenderBody, RenderStmt, RenderElse, WellFormed, WellFormedArgs;
    hide WellFormedBody, WellFormedStmt, At;
    First(toks, pos, RenderBlock(body));
  }

  // ---- programs ----

  lemma {:induction false} ReadProgramFrom(p: Program, toks: seq<Token>, pos: nat)
    requires WellFormedBody(p) && Terminated(toks)
    requires At(toks, pos, RenderBody(p)) && pos + |RenderBody(p)| + 1 == |toks|
    ensures ParseProgram(toks, pos) == Ok(p, |toks| - 1)
    decreases p
  {
    hide Spelling, Render, Bare, RenderArgs, RenderArg, RenderBlock, RenderBody, RenderStmt, RenderElse, WellFormed;
    hide WellFormedArgs, WellFormedBody, WellFormedStmt, At, ParseStatement, ParseProgram;
    UnfoldProgram(toks, pos);
    BodyShape(p);
    if p != [] {
      FirstStatement(p, toks, pos);
      ReadStmt(p[0], toks, pos);
      ReadProgramFrom(p[1..], toks, pos + |RenderStmt(p[0])|);
      HeadAndTail(p);
    }
  }

  /** Every well-formed program is what parsing its own rendering yields. */
  lemma ParseRendered(p: Program)
    requires WellFormedBody(p)
    ensures var toks := RenderProgram(p);
            Terminated(toks) && ParseProgram(toks, 0) == Ok(p, |toks| - 1)
  {
    hide Spelling, RenderBody, ParseProgram, WellFormedBody;
    var toks := RenderProgram(p);
    assert At(toks, 0, RenderBody(p));
    ReadProgramFrom(p, toks, 0);
  }
}
