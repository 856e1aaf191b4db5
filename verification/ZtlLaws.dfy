/** Laws of the language: which values steer execution, and what the operators give. None of them mentions the
    functions the evaluator is made of. */
module ZtlLaws {
  import opened Wrappers
  import opened ZtlSyntax
  import opened ZtlInterpreter

  /** The expression has this value, and leaves everything as it was. */
  ghost predicate Gives<W>(n: Natives<W>, e: Expr, fs: Frames, w: W, v: RtValue)
    requires fs != []
  {
    var r := Eval(n, e, fs, w);
    r.outcome == Normal(v) && r.frames == fs && r.world == w
  }

  ghost predicate Fails<W>(n: Natives<W>, e: Expr, fs: Frames, w: W, problem: Problem)
    requires fs != []
  {
    var r := Eval(n, e, fs, w);
    r.outcome == Error(problem) && r.frames == fs && r.world == w
  }

  /** Both runs end with the same outcome, frames and native state. */
  ghost predicate SameEnd<W>(a: Run<W>, b: Run<W>) {
    a.outcome == b.outcome && a.frames == b.frames && a.world == b.world
  }

  // ---- branches ----

  /** An if-statement ends as its else branch on exactly four values, and otherwise as its then branch. */
  lemma IfLaw<W>(n: Natives<W>, s: Stmt, fs: Frames, w: W, v: RtValue)
    requires fs != [] && s.IfStmt? && Eval(n, s.condition, fs, w).outcome == Normal(v)
    ensures var c, r := Eval(n, s.condition, fs, w), Exec(n, s, fs, w);
            if v == Null || v == Bool(false) || v == Num(0.0) || v == Str("") then
              if s.elseBranch == [] then SameEnd(r, c)
              else SameEnd(r, ExecBlock(n, s.elseBranch, c.frames, c.world))
            else SameEnd(r, ExecBlock(n, s.thenBranch, c.frames, c.world))
  {
    IfUnfolds(n, s, fs, w);
    hide Eval, Exec, ExecBlock;
  }

  /** If the condition fails, so does the statement, and neither branch runs. */
  lemma IfFails<W>(n: Natives<W>, s: Stmt, fs: Frames, w: W)
    requires fs != [] && s.IfStmt? && !Eval(n, s.condition, fs, w).outcome.Normal?
    ensures SameEnd(Exec(n, s, fs, w), Eval(n, s.condition, fs, w))
  {
    IfUnfolds(n, s, fs, w);
    hide Eval, Exec, ExecBlock;
  }

  lemma IfUnfolds<W>(n: Natives<W>, s: Stmt, fs: Frames, w: W)
    requires fs != [] && s.IfStmt?
    ensures Exec(n, s, fs, w) == Visit(ExecIf(n, s, fs, w))
  {
    hide ExecIf;
  }

  /** Negation is true on exactly these values. */
  lemma NotLaw<W>(n: Natives<W>, e: Expr, fs: Frames, w: W, v: RtValue)
    requires fs != [] && Eval(n, e, fs, w).outcome == Normal(v)
    ensures var c, r := Eval(n, e, fs, w), Eval(n, UnaryOp("!", e), fs, w);
            && r.outcome == Normal(Bool(v == Null || v == Bool(false) || v == Num(0.0) || v == Str("")))
            && r.frames == c.frames && r.world == c.world
  {
    hide Eval;
    UnaryUnfolds(n, "!", e, fs, w);
  }

  /** `&&` is its left value, without a visit to its right operand, on exactly these values, and otherwise its right
      operand; `||` the other way round. */
  lemma LogicLaw<W>(n: Natives<W>, op: string, x: Expr, y: Expr, fs: Frames, w: W, v: RtValue)
    requires fs != [] && (op == "&&" || op == "||") && Eval(n, x, fs, w).outcome == Normal(v)
    ensures var l, r := Eval(n, x, fs, w), Eval(n, BinaryOp(op, x, y), fs, w);
            var no := v == Null || v == Bool(false) || v == Num(0.0) || v == Str("");
            if op == "&&" <==> no then SameEnd(r, l) && r.visited == [[]] + Under(0, l.visited)
            else
              var m := Eval(n, y, l.frames, l.world);
              SameEnd(r, m) && r.visited == [[]] + (Under(0, l.visited) + Under(1, m.visited))
  {
    hide Eval;
    BinaryUnfolds(n, op, x, y, fs, w);
  }

  lemma UnaryUnfolds<W>(n: Natives<W>, op: string, x: Expr, fs: Frames, w: W)
    requires fs != []
    ensures var r := In(0, Eval(n, x, fs, w));
            Eval(n, UnaryOp(op, x), fs, w)
            == Visit(if r.outcome.Normal? then r.(outcome := Unary(op, r.outcome.v)) else r)
  {
    hide Unary;
  }

  lemma BinaryUnfolds<W>(n: Natives<W>, op: string, x: Expr, y: Expr, fs: Frames, w: W)
    requires fs != []
    ensures Eval(n, BinaryOp(op, x, y), fs, w) == Visit(EvalBinary(n, BinaryOp(op, x, y), fs, w))
  {
    hide EvalBinary;
  }

  // ---- operators ----

  lemma OperatorUnfolds<W>(n: Natives<W>, op: string, x: Expr, y: Expr, fs: Frames, w: W, a: RtValue, b: RtValue)
    requires fs != [] && Gives(n, x, fs, w, a) && Gives(n, y, fs, w, b) && op != "&&" && op != "||"
    ensures var r := Eval(n, BinaryOp(op, x, y), fs, w);
            r.outcome == Binary(n, w, op, a, b) && r.frames == fs && r.world == w
  {
    hide Eval, Binary;
    BinaryUnfolds(n, op, x, y, fs, w);
  }

  /** Comparisons of numbers are those of the numbers. */
  lemma NumbersCompare<W>(n: Natives<W>, x: Expr, y: Expr, fs: Frames, w: W, a: real, b: real)
    requires fs != [] && Gives(n, x, fs, w, Num(a)) && Gives(n, y, fs, w, Num(b))
    ensures Gives(n, BinaryOp("<", x, y), fs, w, Bool(a < b))
    ensures Gives(n, BinaryOp(">", x, y), fs, w, Bool(a > b))
    ensures Gives(n, BinaryOp("<=", x, y), fs, w, Bool(a <= b))
    ensures Gives(n, BinaryOp(">=", x, y), fs, w, Bool(a >= b))
  {
    hide Eval;
    OperatorUnfolds(n, "<", x, y, fs, w, Num(a), Num(b));
    OperatorUnfolds(n, ">", x, y, fs, w, Num(a), Num(b));
    OperatorUnfolds(n, "<=", x, y, fs, w, Num(a), Num(b));
    OperatorUnfolds(n, ">=", x, y, fs, w, Num(a), Num(b));
  }

  /** The order laws of the language: converse, negation, and what they say about each other. */
  lemma OrderLaws<W>(n: Natives<W>, x: Expr, y: Expr, fs: Frames, w: W, a: real, b: real, v: RtValue)
    requires fs != [] && Gives(n, x, fs, w, Num(a)) && Gives(n, y, fs, w, Num(b))
    ensures Gives(n, BinaryOp("<", x, y), fs, w, v) <==> Gives(n, BinaryOp(">", y, x), fs, w, v)
    ensures Gives(n, BinaryOp("<", x, y), fs, w, v) <==> Gives(n, UnaryOp("!", BinaryOp(">=", x, y)), fs, w, v)
    ensures Gives(n, BinaryOp("<=", x, y), fs, w, v) <==> Gives(n, UnaryOp("!", BinaryOp(">", x, y)), fs, w, v)
  {
    NumbersCompare(n, x, y, fs, w, a, b);
    NumbersCompare(n, y, x, fs, w, b, a);
    hide Eval;
    NotLaw(n, BinaryOp(">=", x, y), fs, w, Bool(a >= b));
    NotLaw(n, BinaryOp(">", x, y), fs, w, Bool(a > b));
  }

  lemma Arithmetic<W>(n: Natives<W>, x: Expr, y: Expr, fs: Frames, w: W, a: real, b: real)
    requires fs != [] && Gives(n, x, fs, w, Num(a)) && Gives(n, y, fs, w, Num(b))
    ensures Gives(n, BinaryOp("+", x, y), fs, w, Num(a + b))
    ensures Gives(n, BinaryOp("-", x, y), fs, w, Num(a - b))
    ensures Gives(n, UnaryOp("-", x), fs, w, Num(-a))
  {
    hide Eval;
    OperatorUnfolds(n, "+", x, y, fs, w, Num(a), Num(b));
    OperatorUnfolds(n, "-", x, y, fs, w, Num(a), Num(b));
    UnaryUnfolds(n, "-", x, fs, w);
  }

  /** Adding back what was taken away, and negating twice, change nothing. */
  lemma Inverses<W>(n: Natives<W>, x: Expr, y: Expr, fs: Frames, w: W, a: real, b: real)
    requires fs != [] && Gives(n, x, fs, w, Num(a)) && Gives(n, y, fs, w, Num(b))
    ensures Gives(n, BinaryOp("+", BinaryOp("-", x, y), y), fs, w, Num(a))
    ensures Gives(n, UnaryOp("-", UnaryOp("-", x)), fs, w, Num(a))
  {
    Arithmetic(n, x, y, fs, w, a, b);
    hide Eval, Gives;
    Arithmetic(n, BinaryOp("-", x, y), y, fs, w, a - b, b);
    Arithmetic(n, UnaryOp("-", x), y, fs, w, -a, b);
  }

  /** Equality is that of the values, of any types, and `!=` its opposite. */
  lemma EqualityLaw<W>(n: Natives<W>, x: Expr, y: Expr, fs: Frames, w: W, a: RtValue, b: RtValue)
    requires fs != [] && Gives(n, x, fs, w, a) && Gives(n, y, fs, w, b)
    ensures Gives(n, BinaryOp("==", x, y), fs, w, Bool(a == b))
    ensures Gives(n, BinaryOp("!=", x, y), fs, w, Bool(a != b))
  {
    hide Eval;
    OperatorUnfolds(n, "==", x, y, fs, w, a, b);
    OperatorUnfolds(n, "!=", x, y, fs, w, a, b);
  }

  /** As soon as one side is no number, `+` joins the texts of both, and the other operators on numbers fail. */
  lemma NotNumbers<W>(n: Natives<W>, x: Expr, y: Expr, fs: Frames, w: W, a: RtValue, b: RtValue)
    requires fs != [] && Gives(n, x, fs, w, a) && Gives(n, y, fs, w, b) && !(a.Num? && b.Num?)
    ensures Gives(n, BinaryOp("+", x, y), fs, w, Str(n.show(w, a) + n.show(w, b)))
    ensures forall op | op == "-" || op == "<" || op == ">" || op == "<=" || op == ">=" ::
              Fails(n, BinaryOp(op, x, y), fs, w, NotANumber)
    ensures !a.Num? ==> Fails(n, UnaryOp("-", x), fs, w, NotANumber)
  {
    hide Eval;
    OperatorUnfolds(n, "+", x, y, fs, w, a, b);
    forall op | op == "-" || op == "<" || op == ">" || op == "<=" || op == ">="
      ensures Fails(n, BinaryOp(op, x, y), fs, w, NotANumber)
    {
      OperatorUnfolds(n, op, x, y, fs, w, a, b);
    }
    UnaryUnfolds(n, "-", x, fs, w);
  }

  // ---- names and members ----

  /** Literals are themselves, and a name is what the innermost frame with it says. */
  lemma AtomLaw<W>(n: Natives<W>, fs: Frames, w: W, name: string, scope: string, text: string, b: bool)
    requires fs != []
    ensures Gives(n, LiteralNull, fs, w, Null) && Gives(n, LiteralBool(b), fs, w, Bool(b))
    ensures Gives(n, LiteralString(text), fs, w, Str(text))
    ensures Gives(n, LiteralNumber(text), fs, w, Num(n.number(text)))
    ensures match Lookup(fs, name)
            case Some(v) => Gives(n, Identifier(name), fs, w, v)
            case None => Fails(n, Identifier(name), fs, w, UndefinedName)
    ensures match Lookup(fs, scope + "::" + name)
            case Some(v) => Gives(n, ScopedAccess(scope, name), fs, w, v)
            case None => Fails(n, ScopedAccess(scope, name), fs, w, UndefinedName)
  {
    hide Lookup, Eval;
    PartsUnfold(n, LiteralNull, fs, w);
    PartsUnfold(n, LiteralBool(b), fs, w);
    PartsUnfold(n, LiteralString(text), fs, w);
    PartsUnfold(n, LiteralNumber(text), fs, w);
    PartsUnfold(n, Identifier(name), fs, w);
    PartsUnfold(n, ScopedAccess(scope, name), fs, w);
  }

  lemma PartsUnfold<W>(n: Natives<W>, e: Expr, fs: Frames, w: W)
    requires fs != []
    ensures Eval(n, e, fs, w) == Visit(EvalParts(n, e, fs, w))
  {
    hide EvalParts;
  }

  /** A member is the field, or else the method bound to the object, or else an error. */
  lemma MemberLaw<W>(n: Natives<W>, x: Expr, name: string, fs: Frames, w: W, a: RtValue)
    requires fs != [] && Gives(n, x, fs, w, a)
    ensures !a.Obj? ==> Fails(n, MemberAccess(x, name), fs, w, NotAnObject)
    ensures a.Obj? ==>
              var field, bound := n.field(w, a.o, name), n.bound(w, a.o, name);
              if field.Some? then Gives(n, MemberAccess(x, name), fs, w, field.value)
              else if bound.Some? then Gives(n, MemberAccess(x, name), fs, w, Fn(bound.value))
              else Fails(n, MemberAccess(x, name), fs, w, NoMember)
  {
    MemberUnfolds(n, x, name, fs, w);
    hide Eval;
  }

  lemma MemberUnfolds<W>(n: Natives<W>, x: Expr, name: string, fs: Frames, w: W)
    requires fs != []
    ensures var r := In(0, Eval(n, x, fs, w));
            Eval(n, MemberAccess(x, name), fs, w)
            == Visit(if r.outcome.Normal? then r.(outcome := Member(n, r.world, r.outcome.v, name)) else r)
  {
    hide Member;
  }

  // ---- calls ----

  /** What a native call answers: its value, or an error; and the state it leaves. */
  ghost predicate Answers<W>(r: Run<W>, fs: Frames, answer: (W, Option<RtValue>)) {
    && r.frames == fs && r.world == answer.0
    && r.outcome == match answer.1 case Some(v) => Normal(v) case None => Error(NativeError)
  }

  /** `x.m()` asks the receiver: a string for one of its own methods, an object for the function bound to it, which is
      called with the receiver and with whether there is a block. */
  lemma MethodCallLaw<W>(n: Natives<W>, x: Expr, m: string, block: Block, fs: Frames, w: W, a: RtValue)
    requires fs != [] && Gives(n, x, fs, w, a)
    requires a.Obj? ==> n.bound(w, a.o, m).None? || !n.isRun(n.bound(w, a.o, m).value)
    ensures var e, r := Call(MemberAccess(x, m), [], block), Eval(n, Call(MemberAccess(x, m), [], block), fs, w);
            if a.Str? then Answers(r, fs, (w, n.stringMethod(a.s, m, [])))
            else if !a.Obj? then Fails(n, e, fs, w, NotAnObject)
            else
              match n.bound(w, a.o, m)
              case None => Fails(n, e, fs, w, NoMember)
              case Some(f) => Answers(r, fs, n.call(w, f, a, [], map[], block.Braces?))
  {
    var e := Call(MemberAccess(x, m), [], block);
    CallUnfolds(n, e, fs, w);
    NoArguments(n, e, fs, w);
    hide Eval, Arguments;
  }

  /** A call of anything but a member needs a function, which gets no receiver. */
  lemma FunctionCallLaw<W>(n: Natives<W>, x: Expr, block: Block, fs: Frames, w: W, a: RtValue)
    requires fs != [] && Gives(n, x, fs, w, a) && !x.MemberAccess? && (a.Fn? ==> !n.isRun(a.f))
    ensures var e, r := Call(x, [], block), Eval(n, Call(x, [], block), fs, w);
            if a.Fn? then Answers(r, fs, n.call(w, a.f, Null, [], map[], block.Braces?))
            else Fails(n, e, fs, w, NotCallable)
  {
    var e := Call(x, [], block);
    CallUnfolds(n, e, fs, w);
    NoArguments(n, e, fs, w);
    hide Eval, Arguments;
  }

  lemma CallUnfolds<W>(n: Natives<W>, e: Expr, fs: Frames, w: W)
    requires fs != [] && e.Call?
    ensures Eval(n, e, fs, w) == Visit(EvalCall(n, e, fs, w))
  {
    hide EvalCall;
  }

  lemma NoArguments<W>(n: Natives<W>, e: Expr, fs: Frames, w: W)
    requires fs != [] && e.Call? && e.args == []
    ensures var a := Arguments(n, e, fs, w);
            && a.run.outcome == Normal(Null) && a.run.frames == fs && a.run.world == w
            && a.pos == [] && a.named == map[]
  {
  }
}
