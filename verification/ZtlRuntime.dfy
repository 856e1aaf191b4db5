/** The interpreter as it runs: environments linked by parent pointers and updated in place. Every method ends as
    the evaluator says. */
module ZtlRuntime {
  import opened Wrappers
  import opened ZtlSyntax
  import opened ZtlInterpreter

  class Environment {
    const parent: Environment?
    var vars: Frame
    /** The environments from the outermost to this one. */
    ghost const chain: seq<Environment>

    constructor (parent: Environment?)
      requires parent != null ==> parent.Linked()
      ensures Linked() && vars == map[] && this.parent == parent
      ensures chain == (if parent == null then [] else parent.chain) + [this]
    {
      this.parent := parent;
      vars := map[];
      chain := (if parent == null then [] else parent.chain) + [this];
    }

    ghost predicate Linked()
      decreases |chain|
    {
      && chain != [] && chain[|chain| - 1] == this
      && (forall i, j | 0 <= i < j < |chain| :: chain[i] != chain[j])
      && (parent == null ==> chain == [this])
      && (parent != null ==> chain == parent.chain + [this] && parent.Linked())
    }

    method Define(name: string, v: RtValue)
      requires Linked()
      modifies this
      ensures FramesOf(chain) == ZtlInterpreter.Define(old(FramesOf(chain)), name, v)
    {
      vars := vars[name := v];
    }

    method Assign(name: string, v: RtValue) returns (found: bool)
      requires Linked()
      modifies chain
      ensures (found, FramesOf(chain)) == ZtlInterpreter.Assign(old(FramesOf(chain)), name, v)
      decreases |chain|
    {
      ghost var n := |chain| - 1;
      FramesPrefix(chain, n);
      if name in vars {
        vars := vars[name := v];
        assert FramesOf(chain) == old(FramesOf(chain))[n := vars];
        return true;
      }
      if parent == null {
        assert FramesOf(chain)[..n] == [] && FramesOf(chain) == [] + [vars];
        return false;
      }
      assert chain[..n] == parent.chain;
      found := parent.Assign(name, v);
      assert FramesOf(chain) == FramesOf(parent.chain) + [vars];
    }

    method Find(name: string) returns (v: Option<RtValue>)
      requires Linked()
      ensures v == Lookup(FramesOf(chain), name)
      decreases |chain|
    {
      ghost var n := |chain| - 1;
      FramesPrefix(chain, n);
      if name in vars {
        return Some(vars[name]);
      }
      if parent == null {
        assert FramesOf(chain)[..n] == [];
        return None;
      }
      assert chain[..n] == parent.chain;
      v := parent.Find(name);
    }
  }

  ghost function FramesOf(chain: seq<Environment>): (fs: Frames)
    reads chain
    ensures |fs| == |chain|
  {
    seq(|chain|, i requires 0 <= i < |chain| reads chain => chain[i].vars)
  }

  lemma FramesPrefix(chain: seq<Environment>, n: nat)
    requires n <= |chain|
    ensures FramesOf(chain)[..n] == FramesOf(chain[..n])
    ensures n < |chain| ==> FramesOf(chain)[n] == chain[n].vars
  {
  }

  /** The same outcome, frames and native state. */
  ghost predicate Ends<W>(o: Outcome, fs: Frames, w: W, r: Run<W>) {
    o == r.outcome && fs == r.frames && w == r.world
  }

  class Interpreter<W(!new)> {
    const globals: Environment
    const natives: Natives<W>
    var world: W

    ghost predicate Sees(env: Environment) {
      env.Linked() && env.chain[0] == globals && globals.Linked() && globals.chain == [globals]
    }

    constructor (natives: Natives<W>, world: W)
      ensures Sees(globals) && globals.vars == map[] && this.natives == natives && this.world == world
    {
      var g := new Environment(null);
      globals := g;
      this.natives := natives;
      this.world := world;
    }

    // ---- expressions ----

    method EvalExpr(e: Expr, env: Environment) returns (o: Outcome)
      requires Sees(env)
      modifies this, env.chain
      ensures Ends(o, FramesOf(env.chain), world, Eval(natives, e, old(FramesOf(env.chain)), old(world)))
      decreases e, 4
    {
      hide EvalCall, EvalBinary, Member, Unary, Lookup, Found, FramesOf;
      match e
      case LiteralNull => o := Normal(Null);
      case LiteralBool(b) => o := Normal(Bool(b));
      case LiteralNumber(text) => o := Normal(Num(natives.number(text)));
      case LiteralString(s) => o := Normal(Str(s));
      case Identifier(name) =>
        var v := env.Find(name);
        o := Found(v, UndefinedName);
      case ScopedAccess(scope, name) =>
        var v := env.Find(scope + "::" + name);
        o := Found(v, UndefinedName);
      case MemberAccess(base, member) =>
        o := EvalExpr(base, env);
        if o.Normal? {
          o := Member(natives, world, o.v, member);
        }
      case Call(_, _, _) => o := CallExpr(e, env);
      case UnaryOp(op, x) =>
        o := EvalExpr(x, env);
        if o.Normal? {
          o := Unary(op, o.v);
        }
      case BinaryOp(_, _, _) => o := BinaryExpr(e, env);
    }

    method BinaryExpr(e: Expr, env: Environment) returns (o: Outcome)
      requires Sees(env) && e.BinaryOp?
      modifies this, env.chain
      ensures Ends(o, FramesOf(env.chain), world, EvalBinary(natives, e, old(FramesOf(env.chain)), old(world)))
      decreases e, 2
    {
      hide Eval, FramesOf, Binary;
      o := EvalExpr(e.lhs, env);
      if !o.Normal? || (e.op == "&&" && !Truthy(o.v)) || (e.op == "||" && Truthy(o.v)) {
        return;
      }
      var l := o.v;
      o := EvalExpr(e.rhs, env);
      if o.Normal? && e.op != "&&" && e.op != "||" {
        o := Binary(natives, world, e.op, l, o.v);
      }
    }

    method CallExpr(e: Expr, env: Environment) returns (o: Outcome)
      requires Sees(env) && e.Call?
      modifies this, env.chain
      ensures Ends(o, FramesOf(env.chain), world, EvalCall(natives, e, old(FramesOf(env.chain)), old(world)))
      decreases e, 2
    {
      hide Eval, ZtlInterpreter.EvalArgs, Invoke, FramesOf;
      var pos, named;
      o, pos, named := EvalArgs(e.args, env);
      if !o.Normal? {
        return;
      }
      label Args:
      o := EvalExpr(Target(e), env);
      if !o.Normal? {
        return;
      }
      var receiver := o.v;
      ghost var a := Arguments(natives, e, old(FramesOf(env.chain)), old(world));
      ghost var c := Receive(natives, e, a);
      if !e.callee.MemberAccess? {
        if !receiver.Fn? {
          return Error(NotCallable);
        }
        o := InvokeFunction(e, receiver.f, Null, pos, named, env, a, c);
      } else if receiver.Str? {
        o := Found(natives.stringMethod(receiver.s, e.callee.member, pos), NativeError);
      } else if !receiver.Obj? {
        o := Error(NotAnObject);
      } else {
        var f := natives.bound(world, receiver.o, e.callee.member);
        if f.None? {
          return Error(NoMember);
        }
        o := InvokeFunction(e, f.value, receiver, pos, named, env, a, c);
      }
    }

    method InvokeFunction(e: Expr, f: nat, self: RtValue, pos: seq<RtValue>, named: map<string, RtValue>,
        env: Environment,
                          ghost a: ArgRun<W>, ghost c: Run<W>)
      returns (o: Outcome)
      requires Sees(env) && e.Call?
      requires pos == a.pos && named == a.named && FramesOf(env.chain) == c.frames && world == c.world
      modifies this, env.chain
      ensures Ends(o, FramesOf(env.chain), world, Invoke(natives, e, f, self, a, c))
      decreases e, 1
    {
      hide FramesOf, RunBlock;
      if natives.isRun(f) {
        o := RunPlugin(e.block, env, Called(c));
      } else {
        var (w, reply) := natives.call(world, f, self, pos, named, e.block.Braces?);
        world := w;
        o := Found(reply, NativeError);
      }
    }

    /** Plugin.run. */
    method RunPlugin(block: Block, env: Environment, ghost c: Run<W>) returns (o: Outcome)
      requires Sees(env)
      requires FramesOf(env.chain) == c.frames && world == c.world
      modifies this, env.chain
      ensures Ends(o, FramesOf(env.chain), world, RunBlock(natives, block, c))
      decreases block, 6
    {
      hide ZtlInterpreter.ExecBody;
      if block.NoBlock? {
        return Error(NoBlockGiven);
      }
      if !natives.runs(world) {
        return Normal(Null);
      }
      var scope := new Environment(globals);
      assert FramesOf(scope.chain) == [c.frames[0], map[]];
      o := ExecBody(block.body, scope);
      OnlyTheGlobals(env, c.frames, FramesOf(scope.chain));
      if !o.Error? {
        o := Normal(Null);
      }
    }

    lemma OnlyTheGlobals(env: Environment, fs: Frames, gs: Frames)
      requires Sees(env) && |fs| == |env.chain| && gs != [] && globals.vars == gs[0]
      requires forall i | 0 < i < |fs| :: env.chain[i].vars == fs[i]
      ensures FramesOf(env.chain) == [gs[0]] + fs[1..]
    {
    }

    method EvalArgs(args: seq<CallArg>, env: Environment) returns (o: Outcome, pos: seq<RtValue>, named: map<string,
        RtValue>)
      requires Sees(env)
      modifies this, env.chain
      ensures var r := ZtlInterpreter.EvalArgs(natives, args, old(FramesOf(env.chain)), old(world), [], map[]);
              Ends(o, FramesOf(env.chain), world, r.run) && (o.Normal? ==> pos == r.pos && named == r.named)
      decreases args, 5
    {
      hide Eval, FramesOf;
      o, pos, named := Normal(Null), [], map[];
      ghost var all := ZtlInterpreter.EvalArgs(natives, args, FramesOf(env.chain), world, [], map[]);
      var k := 0;
      while k < |args|
        invariant k <= |args|
        invariant SameArgs(all, ZtlInterpreter.EvalArgs(natives, args[k..], FramesOf(env.chain), world, pos, named))
      {
        ghost var rest := args[k..];
        assert rest[0] == args[k] && rest[1..] == args[k + 1..];
        o := EvalExpr(args[k].value, env);
        if !o.Normal? {
          return;
        }
        if args[k].name == "" {
          pos := pos + [o.v];
        } else {
          named := named[args[k].name := o.v];
        }
        k := k + 1;
      }
      o := Normal(Null);
    }

    // ---- statements ----

    method ExecStmt(s: Stmt, env: Environment) returns (o: Outcome)
      requires Sees(env)
      modifies this, env.chain
      ensures Ends(o, FramesOf(env.chain), world, Exec(natives, s, old(FramesOf(env.chain)), old(world)))
      decreases s, 4
    {
      hide Eval, ExecIf, FramesOf, ZtlInterpreter.Assign, ZtlInterpreter.Define;
      match s
      case IncludeStmt(_) => o := Normal(Null);
      case ExprStmt(e) => o := EvalExpr(e, env);
      case AssignStmt(target, e) =>
        o := EvalExpr(e, env);
        if o.Normal? {
          ghost var fs := FramesOf(env.chain);
          var found := env.Assign(target, o.v);
          if !found {
            assert FramesOf(env.chain) == fs by {
              NotAssigned(fs, target, o.v);
            }
            env.Define(target, o.v);
          }
        }
      case IfStmt(_, _, _) => o := ExecIfStmt(s, env);
      case ReturnStmt(NoValue) => o := Return(Null);
      case ReturnStmt(Given(e)) =>
        o := EvalExpr(e, env);
        if o.Normal? {
          o := Return(o.v);
        }
    }

    method ExecIfStmt(s: Stmt, env: Environment) returns (o: Outcome)
      requires Sees(env) && s.IfStmt?
      modifies this, env.chain
      ensures Ends(o, FramesOf(env.chain), world, ExecIf(natives, s, old(FramesOf(env.chain)), old(world)))
      decreases s, 2
    {
      hide Eval, ZtlInterpreter.ExecBlock, FramesOf, Truthy;
      o := EvalExpr(s.condition, env);
      if !o.Normal? {
        return;
      }
      if Truthy(o.v) {
        o := ExecBlock(s.thenBranch, env);
      } else if s.elseBranch != [] {
        o := ExecBlock(s.elseBranch, env);
      }
    }

    method ExecBlock(body: seq<Stmt>, env: Environment) returns (o: Outcome)
      requires Sees(env)
      modifies this, env.chain
      ensures Ends(o, FramesOf(env.chain), world, ZtlInterpreter.ExecBlock(natives, body, old(FramesOf(env.chain)),
          old(world)))
      decreases body, 6
    {
      hide ZtlInterpreter.ExecBody;
      var scope := new Environment(env);
      assert FramesOf(scope.chain) == FramesOf(env.chain) + [map[]];
      o := ExecBody(body, scope);
      FramesPrefix(scope.chain, |env.chain|);
      assert scope.chain[..|env.chain|] == env.chain;
    }

    method ExecBody(body: seq<Stmt>, env: Environment) returns (o: Outcome)
      requires Sees(env)
      modifies this, env.chain
      ensures Ends(o, FramesOf(env.chain), world, ZtlInterpreter.ExecBody(natives, body, old(FramesOf(env.chain)),
          old(world)))
      decreases body, 5
    {
      hide Exec, FramesOf;
      o := Normal(Null);
      ghost var all := ZtlInterpreter.ExecBody(natives, body, FramesOf(env.chain), world);
      var k := 0;
      while k < |body|
        invariant k <= |body|
        invariant SameEnd(all, ZtlInterpreter.ExecBody(natives, body[k..], FramesOf(env.chain), world))
      {
        ghost var rest := body[k..];
        assert rest[0] == body[k] && rest[1..] == body[k + 1..];
        o := ExecStmt(body[k], env);
        if !o.Normal? {
          return;
        }
        k := k + 1;
      }
      o := Normal(Null);
    }

    /** A program runs in the globals, and leaves them and the native state as the evaluator says. */
    method RunAll(p: Program) returns (o: Outcome)
      requires Sees(globals)
      modifies this, globals
      ensures Ends(o, [globals.vars], world, RunProgram(natives, p, old(globals.vars), old(world)))
    {
      hide ZtlInterpreter.ExecBody;
      assert FramesOf(globals.chain) == [globals.vars];
      o := ExecBody(p, globals);
      assert FramesOf(globals.chain) == [globals.vars];
    }
  }

  ghost predicate SameEnd<W>(a: Run<W>, b: Run<W>) {
    a.outcome == b.outcome && a.frames == b.frames && a.world == b.world
  }

  ghost predicate SameArgs<W>(a: ArgRun<W>, b: ArgRun<W>) {
    SameEnd(a.run, b.run) && a.pos == b.pos && a.named == b.named
  }

  lemma {:induction false} NotAssigned(fs: Frames, name: string, v: RtValue)
    requires !Assign(fs, name, v).0
    ensures Assign(fs, name, v).1 == fs
  {
    if fs != [] {
      NotAssigned(fs[..|fs| - 1], name, v);
    }
  }
}
