/** Scoping, and what evaluation leaves as it was. */
module ZtlScoping {
  import opened Wrappers
  import opened ZtlSyntax
  import opened ZtlInterpreter

  // ---- stores ----

  /** No frame gains or loses a name. */
  ghost predicate SameNames(fs: Frames, gs: Frames) {
    |gs| == |fs| && forall i | 0 <= i < |fs| :: gs[i].Keys == fs[i].Keys
  }

  lemma {:induction false} AssignKeepsNames(fs: Frames, name: string, v: RtValue)
    ensures SameNames(fs, Assign(fs, name, v).1)
  {
    if fs != [] {
      AssignKeepsNames(fs[..|fs| - 1], name, v);
    }
  }

  /** Assignment reaches the innermost frame that has the name, and only that one changes. */
  lemma {:induction false} AssignReachesBinding(fs: Frames, name: string, v: RtValue) returns (k: nat)
    requires Lookup(fs, name).Some?
    ensures k < |fs| && name in fs[k] && forall i | k < i < |fs| :: name !in fs[i]
    ensures Assign(fs, name, v) == (true, fs[k := fs[k][name := v]])
  {
    var n := |fs| - 1;
    if name in fs[n] {
      k := n;
    } else {
      k := AssignReachesBinding(fs[..n], name, v);
      assert fs[..n][k := fs[k][name := v]] + [fs[n]] == fs[k := fs[k][name := v]];
    }
  }

  lemma {:induction false} UnboundIsNowhere(fs: Frames, name: string, v: RtValue)
    requires Lookup(fs, name).None?
    ensures Assign(fs, name, v) == (false, fs) && forall i | 0 <= i < |fs| :: name !in fs[i]
  {
    if fs != [] {
      var n := |fs| - 1;
      UnboundIsNowhere(fs[..n], name, v);
      assert fs[..n] + [fs[n]] == fs;
      assert forall i | 0 <= i < n :: fs[..n][i] == fs[i];
    }
  }

  lemma {:induction false} LookupAfterAssign(fs: Frames, k: nat, name: string, v: RtValue, other: string)
    requires k < |fs| && name in fs[k] && forall i | k < i < |fs| :: name !in fs[i]
    ensures Lookup(fs[k := fs[k][name := v]], other) == if other == name then Some(v) else Lookup(fs, other)
    decreases |fs|
  {
    var gs := fs[k := fs[k][name := v]];
    var n := |fs| - 1;
    if k < n {
      LookupAfterAssign(fs[..n], k, name, v, other);
      assert gs[..n] == fs[..n][k := fs[k][name := v]];
    } else {
      assert gs[..n] == fs[..n];
    }
  }

  /** After a store the name has the value and every other name what it had. */
  lemma StoreIsRead(fs: Frames, name: string, v: RtValue, other: string)
    requires fs != []
    ensures Lookup(Store(fs, name, v), other) == if other == name then Some(v) else Lookup(fs, other)
  {
    if Lookup(fs, name).Some? {
      var k := AssignReachesBinding(fs, name, v);
      LookupAfterAssign(fs, k, name, v, other);
    } else {
      UnboundIsNowhere(fs, name, v);
      var n := |fs| - 1;
      assert Define(fs, name, v)[..n] == fs[..n];
    }
  }

  // ---- what evaluation keeps ----

  /** A value or an error, only values of globals changed, no name anywhere added. */
  ghost predicate ExprKeeps<W>(fs: Frames, r: Run<W>) {
    && !r.outcome.Return?
    && |r.frames| == |fs| && fs != []
    && r.frames[0].Keys == fs[0].Keys
    && r.frames[1..] == fs[1..]
  }

  /** Names only in the innermost frame, and only these. */
  ghost predicate AddsOnly(fs: Frames, gs: Frames, names: set<string>) {
    && |gs| == |fs| && fs != []
    && (forall i | 0 <= i < |fs| - 1 :: gs[i].Keys == fs[i].Keys)
    && fs[|fs| - 1].Keys <= gs[|fs| - 1].Keys <= fs[|fs| - 1].Keys + names
  }

  /** The targets of the assignments that stand directly in a body. */
  function Assigned(body: seq<Stmt>): set<string> {
    if body == [] then {} else AssignedBy(body[0]) + Assigned(body[1..])
  }

  function AssignedBy(s: Stmt): set<string> {
    if s.AssignStmt? then {s.target} else {}
  }

  lemma ExprKeepsTrans<W>(fs: Frames, a: Run<W>, b: Run<W>)
    requires ExprKeeps(fs, a) && ExprKeeps(a.frames, b)
    ensures ExprKeeps(fs, b) && ExprKeeps(fs, Then(a, b))
  {
  }

  lemma ExprAddsNothing<W>(fs: Frames, r: Run<W>)
    requires ExprKeeps(fs, r)
    ensures AddsOnly(fs, r.frames, {}) && SameNames(fs, r.frames)
  {
    forall i | 0 <= i < |fs| ensures r.frames[i].Keys == fs[i].Keys {
      if i > 0 {
        assert r.frames[1..][i - 1] == fs[1..][i - 1];
      }
    }
  }

  lemma AddsTrans(fs: Frames, gs: Frames, hs: Frames, a: set<string>, b: set<string>)
    requires AddsOnly(fs, gs, a) && AddsOnly(gs, hs, b)
    ensures AddsOnly(fs, hs, a + b)
  {
  }

  lemma {:induction false} EvalKeeps<W>(n: Natives<W>, e: Expr, fs: Frames, w: W)
    requires fs != []
    ensures ExprKeeps(fs, Eval(n, e, fs, w))
    decreases e, 3
  {
    hide Lookup, Member, EvalCall, EvalBinary, Binary;
    match e
    case MemberAccess(o, _) => EvalKeeps(n, o, fs, w);
    case UnaryOp(_, x) => EvalKeeps(n, x, fs, w);
    case Call(_, _, _) => CallKeeps(n, e, fs, w);
    case BinaryOp(_, _, _) => BinaryKeeps(n, e, fs, w);
    case _ =>
  }

  lemma {:induction false} BinaryKeeps<W>(n: Natives<W>, e: Expr, fs: Frames, w: W)
    requires fs != [] && e.BinaryOp?
    ensures ExprKeeps(fs, EvalBinary(n, e, fs, w))
    decreases e, 2
  {
    hide Eval, Decides;
    EvalKeeps(n, e.lhs, fs, w);
    var l := Eval(n, e.lhs, fs, w);
    if l.outcome.Normal? && !Decides(e.op, l.outcome.v) {
      EvalKeeps(n, e.rhs, l.frames, l.world);
      ExprKeepsTrans(fs, l, Eval(n, e.rhs, l.frames, l.world));
    }
  }

  lemma {:induction false} CallKeeps<W>(n: Natives<W>, e: Expr, fs: Frames, w: W)
    requires fs != [] && e.Call?
    ensures ExprKeeps(fs, EvalCall(n, e, fs, w))
    decreases e, 2
  {
    hide Eval, EvalArgs, Invoke, Found;
    var a := Arguments(n, e, fs, w);
    ArgsKeep(n, e.args, fs, w, [], map[]);
    if a.run.outcome.Normal? {
      var t := Eval(n, Target(e), a.run.frames, a.run.world);
      EvalKeeps(n, Target(e), a.run.frames, a.run.world);
      ExprKeepsTrans(fs, a.run, t);
      var c := Receive(n, e, a);
      var f, self := CallResolves(n, e, fs, w);
      if c.outcome.Normal? {
        InvokeKeeps(n, e, f, self, a, c);
        ExprKeepsTrans(fs, c, Invoke(n, e, f, self, a, c));
      }
    }
  }

  /** The ways a call can go once its arguments and its receiver have values. */
  lemma CallResolves<W>(n: Natives<W>, e: Expr, fs: Frames, w: W) returns (f: nat, self: RtValue)
    requires fs != [] && e.Call? && Arguments(n, e, fs, w).run.outcome.Normal?
    ensures var a := Arguments(n, e, fs, w);
            var c := Receive(n, e, a);
            var r := EvalCall(n, e, fs, w);
            && (!c.outcome.Normal? ==> r == c)
            && (c.outcome.Normal? ==>
                  || (!r.outcome.Return? && r == c.(outcome := r.outcome))
                  || r == Invoke(n, e, f, self, a, c))
  {
    hide Eval, Arguments, Receive, Invoke;
    f, self := 0, Null;
    var a := Arguments(n, e, fs, w);
    var c := Receive(n, e, a);
    if c.outcome.Normal? && c.outcome.v.Fn? && !e.callee.MemberAccess? {
      f := c.outcome.v.f;
    } else if c.outcome.Normal? && c.outcome.v.Obj? && e.callee.MemberAccess? {
      self := c.outcome.v;
      var bound := n.bound(c.world, self.o, e.callee.member);
      f := if bound.Some? then bound.value else 0;
    }
  }

  lemma {:induction false} InvokeKeeps<W>(n: Natives<W>, e: Expr, f: nat, self: RtValue, a: ArgRun<W>, c: Run<W>)
    requires e.Call? && c.frames != [] && c.outcome.Normal?
    ensures ExprKeeps(c.frames, Invoke(n, e, f, self, a, c))
    decreases e, 1
  {
    hide RunBlock;
    if n.isRun(f) {
      RunBlockKeeps(n, e.block, Called(c));
    }
  }

  lemma {:induction false} RunBlockKeeps<W>(n: Natives<W>, block: Block, c: Run<W>)
    requires c.frames != []
    ensures ExprKeeps(c.frames, RunBlock(n, block, c))
    decreases block, 6
  {
    hide ExecBody;
    if block.Braces? && n.runs(c.world) {
      BodyKeeps(n, block.body, [c.frames[0], map[]], c.world);
    }
  }

  lemma {:induction false} ArgsKeep<W>(n: Natives<W>, args: seq<CallArg>, fs: Frames, w: W, pos: seq<RtValue>,
      named: map<string, RtValue>)
    requires fs != []
    ensures ExprKeeps(fs, EvalArgs(n, args, fs, w, pos, named).run)
    decreases args, 5
  {
    hide Eval;
    if args != [] {
      var r := Eval(n, args[0].value, fs, w);
      EvalKeeps(n, args[0].value, fs, w);
      if r.outcome.Normal? {
        var v := r.outcome.v;
        var pos' := if args[0].name == "" then pos + [v] else pos;
        var named' := if args[0].name == "" then named else named[args[0].name := v];
        ArgsKeep(n, args[1..], r.frames, r.world, pos', named');
        ExprKeepsTrans(fs, r, EvalArgs(n, args[1..], r.frames, r.world, pos', named').run);
      }
    }
  }

  lemma StoreAddsOnly(fs: Frames, name: string, v: RtValue)
    requires fs != []
    ensures AddsOnly(fs, Store(fs, name, v), {name})
  {
    AssignKeepsNames(fs, name, v);
    hide Assign;
  }

  /** A statement adds at most its own target, in the innermost frame; so it does when it returns or fails. */
  lemma {:induction false} StmtKeeps<W>(n: Natives<W>, s: Stmt, fs: Frames, w: W)
    requires fs != []
    ensures AddsOnly(fs, Exec(n, s, fs, w).frames, AssignedBy(s))
    decreases s, 4
  {
    hide Eval, Store, AddsOnly, ExprKeeps, ExecIf;
    match s
    case IncludeStmt(_) => Unchanged(fs, AssignedBy(s));
    case ExprStmt(e) => ExprAdds(n, e, fs, w);
    case AssignStmt(target, e) =>
      ExprAdds(n, e, fs, w);
      var r := Eval(n, e, fs, w);
      if r.outcome.Normal? {
        StoreAddsOnly(r.frames, target, r.outcome.v);
        AddsTrans(fs, r.frames, Store(r.frames, target, r.outcome.v), {}, {target});
        assert {} + {target} == {target};
      } else {
        More(fs, r.frames, {target});
      }
    case IfStmt(_, _, _) => IfKeeps(n, s, fs, w);
    case ReturnStmt(NoValue) => Unchanged(fs, {});
    case ReturnStmt(Given(e)) => ExprAdds(n, e, fs, w);
  }

  lemma Unchanged(fs: Frames, names: set<string>)
    requires fs != []
    ensures AddsOnly(fs, fs, names)
  {
  }

  lemma More(fs: Frames, gs: Frames, names: set<string>)
    requires AddsOnly(fs, gs, {})
    ensures AddsOnly(fs, gs, names)
  {
  }

  lemma {:induction false} ExprAdds<W>(n: Natives<W>, e: Expr, fs: Frames, w: W)
    requires fs != []
    ensures AddsOnly(fs, Eval(n, e, fs, w).frames, {})
    decreases e, 5
  {
    hide Eval, AddsOnly, ExprKeeps;
    EvalKeeps(n, e, fs, w);
    ExprAddsNothing(fs, Eval(n, e, fs, w));
  }

  lemma {:induction false} IfKeeps<W>(n: Natives<W>, s: Stmt, fs: Frames, w: W)
    requires fs != [] && s.IfStmt?
    ensures AddsOnly(fs, ExecIf(n, s, fs, w).frames, {})
    decreases s, 2
  {
    hide Eval, ExecBlock, AddsOnly, Truthy;
    ExprAdds(n, s.condition, fs, w);
    var c := Eval(n, s.condition, fs, w);
    if c.outcome.Normal? && (Truthy(c.outcome.v) || s.elseBranch != []) {
      var body := if Truthy(c.outcome.v) then s.thenBranch else s.elseBranch;
      BlockKeeps(n, body, c.frames, c.world);
      SameNamesAdd(fs, c.frames, ExecBlock(n, body, c.frames, c.world).frames);
    }
  }

  lemma SameNamesAdd(fs: Frames, gs: Frames, hs: Frames)
    requires AddsOnly(fs, gs, {}) && SameNames(gs, hs)
    ensures AddsOnly(fs, hs, {})
  {
  }

  /** A block adds no name to any frame around it, however it ends. */
  lemma {:induction false} BlockKeeps<W>(n: Natives<W>, body: seq<Stmt>, fs: Frames, w: W)
    requires fs != []
    ensures SameNames(fs, ExecBlock(n, body, fs, w).frames)
    decreases body, 6
  {
    hide ExecBody;
    BodyKeeps(n, body, fs + [map[]], w);
  }

  lemma {:induction false} BodyKeeps<W>(n: Natives<W>, body: seq<Stmt>, fs: Frames, w: W)
    requires fs != []
    ensures AddsOnly(fs, ExecBody(n, body, fs, w).frames, Assigned(body))
    decreases body, 5
  {
    hide Exec, AddsOnly, AssignedBy;
    if body == [] {
      Unchanged(fs, {});
    } else {
      StmtKeeps(n, body[0], fs, w);
      var r := Exec(n, body[0], fs, w);
      if r.outcome.Normal? {
        BodyKeeps(n, body[1..], r.frames, r.world);
        AddsTrans(fs, r.frames, ExecBody(n, body[1..], r.frames, r.world).frames, AssignedBy(body[0]),
            Assigned(body[1..]));
      } else {
        Widen(fs, r.frames, AssignedBy(body[0]), Assigned(body));
      }
    }
  }

  lemma Widen(fs: Frames, gs: Frames, a: set<string>, b: set<string>)
    requires AddsOnly(fs, gs, a) && a <= b
    ensures AddsOnly(fs, gs, b)
  {
  }

  /** A program defines globals only by assignments that stand at its top level. */
  lemma ProgramKeeps<W>(n: Natives<W>, p: Program, globals: Frame, w: W)
    ensures var gs := RunProgram(n, p, globals, w).frames;
            |gs| == 1 && globals.Keys <= gs[0].Keys <= globals.Keys + Assigned(p)
  {
    BodyKeeps(n, p, [globals], w);
    hide ExecBody;
  }
}
