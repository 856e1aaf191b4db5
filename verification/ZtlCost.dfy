/** Evaluation visits no place of the program text twice, so native calls are bounded by the calls written in it. */
module ZtlCost {
  import opened Sequences
  import opened Wrappers
  import opened ZtlSyntax
  import opened ZtlInterpreter
  import opened ZtlScoping

  // ---- places ----

  /** Only these places, and none of them twice. */
  ghost predicate Once(paths: seq<Path>, places: set<Path>) {
    Distinct(paths) && forall k | 0 <= k < |paths| :: paths[k] in places
  }

  lemma {:induction false} OnceCounts(paths: seq<Path>, places: set<Path>)
    requires Once(paths, places)
    ensures |paths| <= |places|
  {
    if paths != [] {
      OnceCounts(paths[1..], places - {paths[0]});
    }
  }

  lemma OnceUnder(i: nat, paths: seq<Path>, places: set<Path>)
    requires Once(paths, places)
    ensures Once(Under(i, paths), Below(i, places))
  {
    forall j, k | 0 <= j < k < |paths| ensures Under(i, paths)[j] != Under(i, paths)[k] {
      assert ([i] + paths[j])[1..] == paths[j] && ([i] + paths[k])[1..] == paths[k];
    }
  }

  lemma {:induction false} BelowCounts(i: nat, places: set<Path>)
    ensures |Below(i, places)| == |places|
  {
    if places != {} {
      var p :| p in places;
      BelowCounts(i, places - {p});
      var rest := Below(i, places - {p});
      forall q | q in places - {p} ensures [i] + q != [i] + p {
        assert ([i] + q)[1..] == q && ([i] + p)[1..] == p;
      }
      assert Below(i, places) == rest + {[i] + p};
    }
  }

  /** Every place lies in a child whose index is one of these. */
  ghost predicate Among(a: Places, children: set<nat>) {
    && (forall p | p in a.nodes :: p != [] && p[0] in children)
    && (forall p | p in a.calls :: p != [] && p[0] in children)
  }

  ghost predicate Apart(a: Places, b: Places) {
    a.nodes !! b.nodes && a.calls !! b.calls
  }

  lemma InsideIsAmong(i: nat, a: Places)
    ensures Among(Inside(i, a), {i}) && Apart(Here(true), Inside(i, a))
  {
  }

  lemma AmongBoth(a: Places, b: Places, x: set<nat>, y: set<nat>)
    requires Among(a, x) && Among(b, y)
    ensures Among(Both(a, b), x + y) && Apart(Here(true), Both(a, b)) && (x !! y ==> Apart(a, b))
  {
  }

  // ---- runs ----

  /** A quantity of the native state, such as the number of findings, that one native call adds at most one to. */
  ghost predicate OnePerCall<W(!new)>(count: W -> nat, n: Natives<W>) {
    forall w, f, self, pos, named, b :: count(n.call(w, f, self, pos, named, b).0) <= count(w) + 1
  }

  /** Only these places visited, each once, a native call at most once for each of these calls, and no more added to
      the quantity than there were native calls. */
  ghost predicate Within<W>(count: W -> nat, w: W, r: Run<W>, a: Places) {
    Once(r.visited, a.nodes) && Once(r.calls, a.calls) && count(r.world) <= count(w) + |r.calls|
  }

  lemma NothingWithin<W>(count: W -> nat, w: W, r: Run<W>)
    requires r.visited == [] && r.calls == [] && r.world == w
    ensures Within(count, w, r, Nowhere)
  {
  }

  lemma SequenceWithin<W>(count: W -> nat, w: W, a: Run<W>, b: Run<W>, x: Places, y: Places)
    requires Within(count, w, a, x) && Within(count, a.world, b, y) && Apart(x, y)
    ensures Within(count, w, Then(a, b), Both(x, y))
  {
  }

  lemma InWithin<W>(count: W -> nat, w: W, i: nat, r: Run<W>, x: Places)
    requires Within(count, w, r, x)
    ensures Within(count, w, In(i, r), Inside(i, x))
  {
    OnceUnder(i, r.visited, x.nodes);
    OnceUnder(i, r.calls, x.calls);
  }

  /** Two children one after the other. */
  lemma ChildrenWithin<W>(count: W -> nat, w: W, i: nat, a: Run<W>, j: nat, b: Run<W>, x: Places, y: Places)
    requires Within(count, w, a, x) && Within(count, a.world, b, y) && i != j
    ensures Within(count, w, In(i, a), Inside(i, x))
    ensures Within(count, w, Then(In(i, a), In(j, b)), Both(Inside(i, x), Inside(j, y)))
  {
    hide Within;
    InWithin(count, w, i, a, x);
    InWithin(count, a.world, j, b, y);
    InsideIsAmong(i, x);
    InsideIsAmong(j, y);
    AmongBoth(Inside(i, x), Inside(j, y), {i}, {j});
    SequenceWithin(count, w, In(i, a), In(j, b), Inside(i, x), Inside(j, y));
  }

  ghost predicate Covers(a: Places, b: Places) {
    b.nodes <= a.nodes && b.calls <= a.calls
  }

  lemma WithinMore<W>(count: W -> nat, w: W, r: Run<W>, x: Places, y: Places)
    requires Within(count, w, r, x) && Covers(y, x)
    ensures Within(count, w, r, y)
  {
  }

  lemma VisitWithin<W>(count: W -> nat, w: W, r: Run<W>, x: Places)
    requires Within(count, w, r, x) && [] !in x.nodes
    ensures Within(count, w, Visit(r), Places({[]} + x.nodes, x.calls))
  {
  }

  /** The native call itself. */
  lemma CalledWithin<W>(count: W -> nat, w: W, c: Run<W>, r: Run<W>, x: Places)
    requires Within(count, w, c, x) && [] !in x.calls
    requires r.visited == c.visited && r.calls == Called(c).calls && count(r.world) <= count(c.world) + 1
    ensures Within(count, w, r, Places(x.nodes, x.calls + {[]}))
  {
  }

  // ---- expressions ----

  /** What remains of an expression once its own node is visited. */
  function Rest(e: Expr): Places {
    Places(PlacesBelow(e).nodes, PlacesOf(e).calls)
  }

  lemma RootIsNotBelow(e: Expr)
    ensures [] !in PlacesBelow(e).nodes && [] !in PlacesBelow(e).calls
  {
    hide PlacesOf, PlacesOfArgs, PlacesOfBody, PlacesOfBlock;
  }

  lemma {:induction false} EvalWithin<W(!new)>(count: W -> nat, n: Natives<W>, e: Expr, fs: Frames, w: W)
    requires OnePerCall(count, n) && fs != []
    ensures Within(count, w, Eval(n, e, fs, w), PlacesOf(e))
    decreases e, 3
  {
    hide EvalParts, PlacesBelow, Within;
    RestWithin(count, n, e, fs, w);
    RootIsNotBelow(e);
    VisitWithin(count, w, EvalParts(n, e, fs, w), Rest(e));
  }

  lemma {:induction false} RestWithin<W(!new)>(count: W -> nat, n: Natives<W>, e: Expr, fs: Frames, w: W)
    requires OnePerCall(count, n) && fs != []
    ensures Within(count, w, EvalParts(n, e, fs, w), Rest(e))
    decreases e, 2
  {
    hide Eval, EvalCall, EvalBinary, Lookup, Member, Unary, Binary, Inside, Under;
    match e
    case MemberAccess(o, _) => ChildWithin(count, n, o, fs, w);
    case UnaryOp(_, x) => ChildWithin(count, n, x, fs, w);
    case Call(_, _, _) => CallWithin(count, n, e, fs, w);
    case BinaryOp(_, _, _) => BinaryWithin(count, n, e, fs, w);
    case _ =>
  }

  /** An expression that is child 0. */
  lemma {:induction false} ChildWithin<W(!new)>(count: W -> nat, n: Natives<W>, e: Expr, fs: Frames, w: W)
    requires OnePerCall(count, n) && fs != []
    ensures Within(count, w, In(0, Eval(n, e, fs, w)), Inside(0, PlacesOf(e)))
    decreases e, 4
  {
    hide Eval, PlacesOf, Within, Under, Inside;
    EvalWithin(count, n, e, fs, w);
    InWithin(count, w, 0, Eval(n, e, fs, w), PlacesOf(e));
  }

  lemma {:induction false} BinaryWithin<W(!new)>(count: W -> nat, n: Natives<W>, e: Expr, fs: Frames, w: W)
    requires OnePerCall(count, n) && fs != [] && e.BinaryOp?
    ensures Within(count, w, EvalBinary(n, e, fs, w), Both(Inside(0, PlacesOf(e.lhs)), Inside(1, PlacesOf(e.rhs))))
    decreases e, 1
  {
    hide Eval, Decides, Binary, PlacesOf, Inside;
    ChildWithin(count, n, e.lhs, fs, w);
    var l := In(0, Eval(n, e.lhs, fs, w));
    if l.outcome.Normal? && !Decides(e.op, l.outcome.v) {
      EvalWithin(count, n, e.lhs, fs, w);
      EvalWithin(count, n, e.rhs, l.frames, l.world);
      ChildrenWithin(count, w, 0, Eval(n, e.lhs, fs, w), 1, Eval(n, e.rhs, l.frames, l.world), PlacesOf(e.lhs),
          PlacesOf(e.rhs));
    }
  }

  // ---- calls ----

  function Sources(e: Expr): Places
    requires e.Call?
  {
    Both(Inside(1, PlacesOfArgs(e.args)), Inside(0, PlacesOf(e.callee)))
  }

  function WithCall(a: Places): Places {
    Places(a.nodes, a.calls + {[]})
  }

  lemma SourcesAreApart(e: Expr)
    requires e.Call?
    ensures Among(Sources(e), {0, 1}) && [] !in Sources(e).calls
    ensures Apart(Inside(1, PlacesOfArgs(e.args)), Inside(0, PlacesOf(e.callee)))
    ensures Apart(WithCall(Sources(e)), Inside(2, PlacesOfBlock(e.block)))
  {
    hide PlacesOf, PlacesOfArgs, PlacesOfBlock, Inside;
    InsideIsAmong(1, PlacesOfArgs(e.args));
    InsideIsAmong(0, PlacesOf(e.callee));
    InsideIsAmong(2, PlacesOfBlock(e.block));
    AmongBoth(Inside(1, PlacesOfArgs(e.args)), Inside(0, PlacesOf(e.callee)), {1}, {0});
  }

  lemma CallHasParts(e: Expr)
    requires e.Call?
    ensures Rest(e) == Both(WithCall(Sources(e)), Inside(2, PlacesOfBlock(e.block)))
  {
    hide PlacesOfArgs, PlacesOfBlock, Inside;
  }

  lemma {:induction false} TargetWithin<W(!new)>(count: W -> nat, n: Natives<W>, e: Expr, a: ArgRun<W>)
    requires OnePerCall(count, n) && a.run.frames != [] && e.Call?
    ensures var r := Eval(n, Target(e), a.run.frames, a.run.world);
            var t := if e.callee.MemberAccess? then In(0, r) else r;
            Within(count, a.run.world, In(0, t), Inside(0, PlacesOf(e.callee)))
    decreases e, 0
  {
    hide Eval, Within, Inside, Under;
    ChildWithin(count, n, Target(e), a.run.frames, a.run.world);
    if e.callee.MemberAccess? {
      var r := In(0, Eval(n, Target(e), a.run.frames, a.run.world));
      assert PlacesBelow(e.callee) == Inside(0, PlacesOf(Target(e)));
      WithinMore(count, a.run.world, r, Inside(0, PlacesOf(Target(e))), PlacesOf(e.callee));
      InWithin(count, a.run.world, 0, r, PlacesOf(e.callee));
    }
  }

  lemma {:induction false} CallWithin<W(!new)>(count: W -> nat, n: Natives<W>, e: Expr, fs: Frames, w: W)
    requires OnePerCall(count, n) && fs != [] && e.Call?
    ensures Within(count, w, EvalCall(n, e, fs, w), Rest(e))
    decreases e, 1
  {
    hide Eval, EvalArgs, EvalCall, Invoke, PlacesOf, PlacesOfArgs, PlacesOfBlock, PlacesBelow, Within, Inside, Under,
        Apart, Among;
    var block := Inside(2, PlacesOfBlock(e.block));
    var a := Arguments(n, e, fs, w);
    ArgsWithin(count, n, e.args, fs, w, [], map[]);
    InWithin(count, w, 1, EvalArgs(n, e.args, fs, w, [], map[]).run, PlacesOfArgs(e.args));
    SourcesAreApart(e);
    CallHasParts(e);
    if a.run.outcome.Normal? {
      TargetWithin(count, n, e, a);
      var c := Receive(n, e, a);
      var r := Eval(n, Target(e), a.run.frames, a.run.world);
      var t := In(0, if e.callee.MemberAccess? then In(0, r) else r);
      SequenceWithin(count, w, a.run, t, Inside(1, PlacesOfArgs(e.args)), Inside(0, PlacesOf(e.callee)));
      WithinMore(count, w, c, Sources(e), Rest(e));
      var f, self := CallResolves(n, e, fs, w);
      InvokeWithin(count, n, w, e, f, self, a, c);
      SameCost(count, w, c, EvalCall(n, e, fs, w), Rest(e));
    } else {
      ArgsFail(n, e, fs, w);
      WithinMore(count, w, a.run, Inside(1, PlacesOfArgs(e.args)), Rest(e));
    }
  }

  lemma SameCost<W>(count: W -> nat, w: W, c: Run<W>, r: Run<W>, a: Places)
    requires Within(count, w, c, a)
    ensures r == c.(outcome := r.outcome) ==> Within(count, w, r, a)
  {
  }

  lemma ArgsFail<W>(n: Natives<W>, e: Expr, fs: Frames, w: W)
    requires fs != [] && e.Call? && !Arguments(n, e, fs, w).run.outcome.Normal?
    ensures EvalCall(n, e, fs, w) == Arguments(n, e, fs, w).run
  {
    hide Eval, Arguments, Receive, Invoke;
  }

  lemma {:induction false} InvokeWithin<W(!new)>(count: W -> nat, n: Natives<W>, w: W, e: Expr, f: nat,
      self: RtValue, a: ArgRun<W>, c: Run<W>)
    requires OnePerCall(count, n) && e.Call? && c.frames != [] && Within(count, w, c, Sources(e))
    ensures Within(count, w, Invoke(n, e, f, self, a, c), Rest(e))
    decreases e, 0
  {
    hide RunBlock, Sources, Rest, Inside, PlacesOfBlock, Within, Apart;
    SourcesAreApart(e);
    CallHasParts(e);
    var r := Invoke(n, e, f, self, a, c);
    if n.isRun(f) {
      CalledWithin(count, w, c, Called(c), Sources(e));
      RunBlockWithin(count, n, w, e.block, Called(c), WithCall(Sources(e)));
    } else {
      CalledWithin(count, w, c, r, Sources(e));
      WithinMore(count, w, r, WithCall(Sources(e)), Rest(e));
    }
  }

  lemma {:induction false} RunBlockWithin<W(!new)>(count: W -> nat, n: Natives<W>, w: W, block: Block, c: Run<W>,
      x: Places)
    requires OnePerCall(count, n) && c.frames != [] && Within(count, w, c, x)
    requires Apart(x, Inside(2, PlacesOfBlock(block)))
    ensures Within(count, w, RunBlock(n, block, c), Both(x, Inside(2, PlacesOfBlock(block))))
    decreases block, 6
  {
    hide ExecBody, PlacesOfBody, Inside, Under, Apart;
    var y := Inside(2, PlacesOfBlock(block));
    if block.Braces? && n.runs(c.world) {
      BodyWithin(count, n, block.body, [c.frames[0], map[]], c.world);
      var b := ExecBody(n, block.body, [c.frames[0], map[]], c.world);
      InWithin(count, c.world, 2, b, PlacesOfBlock(block));
      SequenceWithin(count, w, c, In(2, b), x, y);
      SameTrace(count, w, Then(c, In(2, b)), RunBlock(n, block, c), Both(x, y));
    } else {
      WithinMore(count, w, c, x, Both(x, y));
      SameTrace(count, w, c, RunBlock(n, block, c), Both(x, y));
    }
  }

  lemma SameTrace<W>(count: W -> nat, w: W, c: Run<W>, r: Run<W>, a: Places)
    requires Within(count, w, c, a) && r.visited == c.visited && r.calls == c.calls && r.world == c.world
    ensures Within(count, w, r, a)
  {
  }

  lemma {:induction false} ArgsWithin<W(!new)>(count: W -> nat, n: Natives<W>, args: seq<CallArg>, fs: Frames, w: W,
      pos: seq<RtValue>, named: map<string, RtValue>)
    requires OnePerCall(count, n) && fs != []
    ensures Within(count, w, EvalArgs(n, args, fs, w, pos, named).run, PlacesOfArgs(args))
    decreases args, 5
  {
    hide Eval, PlacesOf, Inside, Under, Within;
    if args == [] {
      NothingWithin(count, w, EvalArgs(n, args, fs, w, pos, named).run);
    } else {
      var r := Eval(n, args[0].value, fs, w);
      ChildWithin(count, n, args[0].value, fs, w);
      if r.outcome.Normal? {
        var v := r.outcome.v;
        var pos' := if args[0].name == "" then pos + [v] else pos;
        var named' := if args[0].name == "" then named else named[args[0].name := v];
        EvalWithin(count, n, args[0].value, fs, w);
        ArgsWithin(count, n, args[1..], r.frames, r.world, pos', named');
        ChildrenWithin(count, w, 0, r, 1, EvalArgs(n, args[1..], r.frames, r.world, pos', named').run,
            PlacesOf(args[0].value), PlacesOfArgs(args[1..]));
      } else {
        WithinMore(count, w, In(0, r), Inside(0, PlacesOf(args[0].value)), PlacesOfArgs(args));
      }
    }
  }

  // ---- statements ----

  lemma {:induction false} StmtWithin<W(!new)>(count: W -> nat, n: Natives<W>, s: Stmt, fs: Frames, w: W)
    requires OnePerCall(count, n) && fs != []
    ensures Within(count, w, Exec(n, s, fs, w), PlacesOfStmt(s))
    decreases s, 4
  {
    hide ExecParts, PlacesBelowStmt, Within;
    StmtPartsWithin(count, n, s, fs, w);
    RootIsNotBelowStmt(s);
    VisitWithin(count, w, ExecParts(n, s, fs, w), PlacesBelowStmt(s));
    assert PlacesOfStmt(s).calls == PlacesBelowStmt(s).calls;
  }

  lemma RootIsNotBelowStmt(s: Stmt)
    ensures [] !in PlacesBelowStmt(s).nodes
  {
    hide PlacesOf, PlacesOfBody;
  }

  lemma {:induction false} StmtPartsWithin<W(!new)>(count: W -> nat, n: Natives<W>, s: Stmt, fs: Frames, w: W)
    requires OnePerCall(count, n) && fs != []
    ensures Within(count, w, ExecParts(n, s, fs, w), PlacesBelowStmt(s))
    decreases s, 3
  {
    hide Eval, ExecIf, Store, PlacesOf, PlacesOfBody, Inside, Under;
    match s
    case ExprStmt(e) => ChildWithin(count, n, e, fs, w);
    case AssignStmt(_, e) => ChildWithin(count, n, e, fs, w);
    case IfStmt(_, _, _) => IfWithin(count, n, s, fs, w);
    case ReturnStmt(Given(e)) => ChildWithin(count, n, e, fs, w);
    case _ =>
  }

  lemma {:induction false} IfWithin<W(!new)>(count: W -> nat, n: Natives<W>, s: Stmt, fs: Frames, w: W)
    requires OnePerCall(count, n) && fs != [] && s.IfStmt?
    ensures Within(count, w, ExecIf(n, s, fs, w), PlacesBelowStmt(s))
    decreases s, 2
  {
    hide Eval, ExecBlock, Truthy, PlacesOf, PlacesOfBody, Inside, Under, Within;
    var test := Eval(n, s.condition, fs, w);
    EvalWithin(count, n, s.condition, fs, w);
    InWithin(count, w, 0, test, PlacesOf(s.condition));
    var c := In(0, test);
    if c.outcome.Normal? && (Truthy(c.outcome.v) || s.elseBranch != []) {
      var i, body := if Truthy(c.outcome.v) then 1 else 2, if Truthy(c.outcome.v) then s.thenBranch else s.elseBranch;
      BlockWithin(count, n, body, c.frames, c.world);
      var b := ExecBlock(n, body, c.frames, c.world);
      ChildrenWithin(count, w, 0, test, i, b, PlacesOf(s.condition), PlacesOfBody(body));
      WithinMore(count, w, Then(c, In(i, b)), Both(Inside(0, PlacesOf(s.condition)), Inside(i, PlacesOfBody(body))),
          PlacesBelowStmt(s));
    } else {
      WithinMore(count, w, c, Inside(0, PlacesOf(s.condition)), PlacesBelowStmt(s));
    }
  }

  lemma {:induction false} BlockWithin<W(!new)>(count: W -> nat, n: Natives<W>, body: seq<Stmt>, fs: Frames, w: W)
    requires OnePerCall(count, n) && fs != []
    ensures Within(count, w, ExecBlock(n, body, fs, w), PlacesOfBody(body))
    decreases body, 6
  {
    hide ExecBody, PlacesOfBody;
    BodyWithin(count, n, body, fs + [map[]], w);
  }

  lemma {:induction false} BodyWithin<W(!new)>(count: W -> nat, n: Natives<W>, body: seq<Stmt>, fs: Frames, w: W)
    requires OnePerCall(count, n) && fs != []
    ensures Within(count, w, ExecBody(n, body, fs, w), PlacesOfBody(body))
    decreases body, 5
  {
    hide Exec, PlacesOfStmt, Inside, Under, Within;
    if body == [] {
      NothingWithin(count, w, ExecBody(n, body, fs, w));
    } else {
      StmtWithin(count, n, body[0], fs, w);
      var r := Exec(n, body[0], fs, w);
      InWithin(count, w, 0, r, PlacesOfStmt(body[0]));
      if r.outcome.Normal? {
        BodyWithin(count, n, body[1..], r.frames, r.world);
        ChildrenWithin(count, w, 0, r, 1, ExecBody(n, body[1..], r.frames, r.world), PlacesOfStmt(body[0]),
            PlacesOfBody(body[1..]));
      } else {
        WithinMore(count, w, In(0, r), Inside(0, PlacesOfStmt(body[0])), PlacesOfBody(body));
      }
    }
  }

  // ---- programs ----

  lemma BothCount(a: Places, b: Places)
    requires Apart(a, b)
    ensures |Both(a, b).calls| == |a.calls| + |b.calls|
  {
  }

  /** Two different children. */
  lemma ChildrenCount(i: nat, a: Places, j: nat, b: Places)
    requires i != j
    ensures |Both(Inside(i, a), Inside(j, b)).calls| == |a.calls| + |b.calls|
    ensures Among(Both(Inside(i, a), Inside(j, b)), {i, j}) && |Inside(i, a).calls| == |a.calls|
  {
    BelowCounts(i, a.calls);
    BelowCounts(j, b.calls);
    InsideIsAmong(i, a);
    InsideIsAmong(j, b);
    AmongBoth(Inside(i, a), Inside(j, b), {i}, {j});
    BothCount(Inside(i, a), Inside(j, b));
  }

  /** Three different children. */
  lemma ThreeChildrenCount(i: nat, a: Places, j: nat, b: Places, k: nat, c: Places)
    requires i != j && i != k && j != k
    ensures |Both(Both(Inside(i, a), Inside(j, b)), Inside(k, c)).calls| == |a.calls| + |b.calls| + |c.calls|
  {
    ChildrenCount(i, a, j, b);
    InsideIsAmong(k, c);
    BelowCounts(k, c.calls);
    AmongBoth(Both(Inside(i, a), Inside(j, b)), Inside(k, c), {i, j}, {k});
    BothCount(Both(Inside(i, a), Inside(j, b)), Inside(k, c));
  }

  lemma {:induction false} CallPlaces(e: Expr)
    ensures |PlacesOf(e).calls| == CallsIn(e)
    decreases e, 2
  {
    hide Inside, PlacesOfArgs, PlacesOfBody, CallsInArgs, CallsInBody;
    RootIsNotBelow(e);
    match e
    case MemberAccess(o, _) => ChildPlaces(o);
    case UnaryOp(_, x) => ChildPlaces(x);
    case BinaryOp(_, l, r) =>
      CallPlaces(l);
      CallPlaces(r);
      ChildrenCount(0, PlacesOf(l), 1, PlacesOf(r));
    case Call(c, args, block) => PartPlaces(e);
    case _ =>
  }

  lemma {:induction false} PartPlaces(e: Expr)
    requires e.Call?
    ensures |PlacesBelow(e).calls| + 1 == CallsIn(e)
    decreases e, 0
  {
    hide PlacesOf, PlacesOfArgs, PlacesOfBody, CallsInArgs, CallsInBody, Inside;
    CallPlaces(e.callee);
    ArgPlaces(e.args);
    if e.block.Braces? {
      BodyPlaces(e.block.body);
    }
    ThreeChildrenCount(1, PlacesOfArgs(e.args), 0, PlacesOf(e.callee), 2, PlacesOfBlock(e.block));
  }

  lemma {:induction false} ChildPlaces(e: Expr)
    ensures |Inside(0, PlacesOf(e)).calls| == CallsIn(e)
    decreases e, 3
  {
    hide PlacesOf, CallsIn;
    CallPlaces(e);
    BelowCounts(0, PlacesOf(e).calls);
  }

  lemma {:induction false} ArgPlaces(args: seq<CallArg>)
    ensures |PlacesOfArgs(args).calls| == CallsInArgs(args)
    decreases args, 0
  {
    hide PlacesOf, CallsIn;
    if args != [] {
      CallPlaces(args[0].value);
      ArgPlaces(args[1..]);
      ChildrenCount(0, PlacesOf(args[0].value), 1, PlacesOfArgs(args[1..]));
    }
  }

  lemma {:induction false} StmtPlaces(s: Stmt)
    ensures |PlacesOfStmt(s).calls| == CallsInStmt(s)
    decreases s, 0
  {
    hide PlacesOf, CallsIn, PlacesOfBody, CallsInBody, Inside;
    match s
    case IfStmt(c, t, f) =>
      CallPlaces(c);
      BodyPlaces(t);
      BodyPlaces(f);
      ThreeChildrenCount(0, PlacesOf(c), 1, PlacesOfBody(t), 2, PlacesOfBody(f));
    case ExprStmt(e) => ChildPlaces(e);
    case AssignStmt(_, e) => ChildPlaces(e);
    case ReturnStmt(Given(e)) => ChildPlaces(e);
    case _ =>
  }

  lemma {:induction false} BodyPlaces(body: seq<Stmt>)
    ensures |PlacesOfBody(body).calls| == CallsInBody(body)
    decreases body, 0
  {
    hide PlacesOfStmt, CallsInStmt;
    if body != [] {
      StmtPlaces(body[0]);
      BodyPlaces(body[1..]);
      ChildrenCount(0, PlacesOfStmt(body[0]), 1, PlacesOfBody(body[1..]));
    }
  }

  /** One run of a program, through any nesting of Plugin.run blocks: every place of the text visited at most once, a
      native call made at most once for each call expression, and so no more findings than there are of those. */
  lemma ProgramIsLinear<W(!new)>(count: W -> nat, n: Natives<W>, p: Program, globals: Frame, w: W)
    requires OnePerCall(count, n)
    ensures var r := RunProgram(n, p, globals, w);
            && Distinct(r.visited) && (forall k | 0 <= k < |r.visited| :: r.visited[k] in PlacesOfBody(p).nodes)
            && Distinct(r.calls) && (forall k | 0 <= k < |r.calls| :: r.calls[k] in PlacesOfBody(p).calls)
            && |r.visited| <= |PlacesOfBody(p).nodes|
            && |r.calls| <= CallsInBody(p)
            && count(r.world) <= count(w) + CallsInBody(p)
  {
    var r := RunProgram(n, p, globals, w);
    BodyWithin(count, n, p, [globals], w);
    OnceCounts(r.visited, PlacesOfBody(p).nodes);
    OnceCounts(r.calls, PlacesOfBody(p).calls);
    BodyPlaces(p);
    hide ExecBody, PlacesOfBody;
  }
}
