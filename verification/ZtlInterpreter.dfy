/** What running a ZTL program does: an evaluator over a chain of frames and the state of the native functions. */
module ZtlInterpreter {
  import opened Wrappers
  import opened ZtlSyntax

  /** Objects and functions are references; their contents belong to the native side. */
  datatype RtValue = Null | Bool(b: bool) | Num(n: real) | Str(s: string) | Obj(o: nat) | Fn(f: nat)

  datatype Problem =
    | UndefinedName | NotAnObject | NoMember | NotANumber | UnknownOperator | NotCallable | NoBlockGiven | NativeError

  /** How evaluation ends: with a value, with the ReturnException or with a RuntimeError. */
  datatype Outcome = Normal(v: RtValue) | Return(v: RtValue) | Error(problem: Problem)

  /** The native side, with a state W that no environment is part of. `isRun` tells which functions are Plugin.run,
      and `runs` whether the filter and the mode of this run let its block execute. */
  datatype Natives<!W> = Natives(
    number: string -> real,
    show: (W, RtValue) -> string,
    field: (W, nat, string) -> Option<RtValue>,
    bound: (W, nat, string) -> Option<nat>,
    stringMethod: (string, string, seq<RtValue>) -> Option<RtValue>,
    isRun: nat -> bool,
    runs: W -> bool,
    call: (W, nat, RtValue, seq<RtValue>, map<string, RtValue>, bool) -> (W, Option<RtValue>))

  // ---- frames ----

  type Frame = map<string, RtValue>

  /** A chain of environments: the globals first, the innermost scope last. */
  type Frames = seq<Frame>

  function Lookup(fs: Frames, name: string): Option<RtValue> {
    if fs == [] then None
    else if name in fs[|fs| - 1] then Some(fs[|fs| - 1][name])
    else Lookup(fs[..|fs| - 1], name)
  }

  function Assign(fs: Frames, name: string, v: RtValue): (r: (bool, Frames))
    ensures |r.1| == |fs|
  {
    if fs == [] then (false, fs)
    else
      var n := |fs| - 1;
      if name in fs[n] then (true, fs[n := fs[n][name := v]])
      else
        var (found, outer) := Assign(fs[..n], name, v);
        (found, outer + [fs[n]])
  }

  function Define(fs: Frames, name: string, v: RtValue): (r: Frames)
    requires fs != []
    ensures |r| == |fs|
  {
    fs[|fs| - 1 := fs[|fs| - 1][name := v]]
  }

  function Store(fs: Frames, name: string, v: RtValue): (r: Frames)
    requires fs != []
    ensures |r| == |fs|
  {
    var (found, stored) := Assign(fs, name, v);
    if found then stored else Define(fs, name, v)
  }

  // ---- values ----

  predicate Truthy(v: RtValue) {
    match v
    case Null => false
    case Bool(b) => b
    case Num(x) => x != 0.0
    case Str(s) => s != ""
    case _ => true
  }

  function Unary(op: string, v: RtValue): (o: Outcome)
    ensures !o.Return?
  {
    if op == "!" then Normal(Bool(!Truthy(v)))
    else if op != "-" then Error(UnknownOperator)
    else if v.Num? then Normal(Num(-v.n))
    else Error(NotANumber)
  }

  function Binary<W>(n: Natives<W>, w: W, op: string, l: RtValue, r: RtValue): (o: Outcome)
    ensures !o.Return?
  {
    if op == "==" then Normal(Bool(l == r))
    else if op == "!=" then Normal(Bool(l != r))
    else if op == "+" then
      if l.Num? && r.Num? then Normal(Num(l.n + r.n)) else Normal(Str(n.show(w, l) + n.show(w, r)))
    else if op == "-" || op == "<" || op == ">" || op == "<=" || op == ">=" then
      if !(l.Num? && r.Num?) then Error(NotANumber)
      else Normal(
        if op == "-" then Num(l.n - r.n)
        else Bool(
          if op == "<" then l.n < r.n
          else if op == ">" then l.n > r.n
          else if op == "<=" then l.n <= r.n
          else l.n >= r.n))
    else Error(UnknownOperator)
  }

  function Found(v: Option<RtValue>, otherwise: Problem): (o: Outcome)
    ensures !o.Return?
  {
    match v
    case Some(x) => Normal(x)
    case None => Error(otherwise)
  }

  /** Fields come before methods. */
  function Member<W>(n: Natives<W>, w: W, receiver: RtValue, name: string): (o: Outcome)
    ensures !o.Return?
  {
    if !receiver.Obj? then Error(NotAnObject)
    else match n.field(w, receiver.o, name)
      case Some(v) => Normal(v)
      case None =>
        match n.bound(w, receiver.o, name)
        case Some(f) => Normal(Fn(f))
        case None => Error(NoMember)
  }

  // ---- runs ----

  /** Where a node stands in a piece of syntax: which child to enter, step by step. A member access and a unary
      operator have child 0, a binary operator 0 and 1, a call 0 for the callee, 1 for the arguments and 2 for the
      block; a statement has 0 for its expression, and an if 1 and 2 for its branches; a list has 0 for its first item
      and 1 for the rest. */
  type Path = seq<nat>

  /** The end of a piece of evaluation, with the nodes it visited and the call expressions it made a native call for,
      each in order. */
  datatype Run<W> = Run(outcome: Outcome, frames: Frames, world: W, visited: seq<Path>, calls: seq<Path>)

  function Begin<W>(v: RtValue, fs: Frames, w: W): Run<W> {
    Run(Normal(v), fs, w, [], [])
  }

  function Then<W>(a: Run<W>, b: Run<W>): Run<W> {
    Run(b.outcome, b.frames, b.world, a.visited + b.visited, a.calls + b.calls)
  }

  function Under(i: nat, paths: seq<Path>): (r: seq<Path>)
    ensures |r| == |paths|
  {
    seq(|paths|, k requires 0 <= k < |paths| => [i] + paths[k])
  }

  /** The run of child i, its paths seen from the parent. */
  function In<W>(i: nat, r: Run<W>): Run<W> {
    r.(visited := Under(i, r.visited), calls := Under(i, r.calls))
  }

  function Visit<W>(r: Run<W>): Run<W> {
    r.(visited := [[]] + r.visited)
  }

  function Called<W>(r: Run<W>): Run<W> {
    r.(calls := r.calls + [[]])
  }

  datatype ArgRun<W> = ArgRun(run: Run<W>, pos: seq<RtValue>, named: map<string, RtValue>)

  // ---- expressions ----

  function Eval<W>(n: Natives<W>, e: Expr, fs: Frames, w: W): (r: Run<W>)
    requires fs != []
    ensures |r.frames| == |fs|
    decreases e, 4
  {
    Visit(EvalParts(n, e, fs, w))
  }

  function EvalParts<W>(n: Natives<W>, e: Expr, fs: Frames, w: W): (r: Run<W>)
    requires fs != []
    ensures |r.frames| == |fs|
    decreases e, 3
  {
    match e
    case LiteralNull => Begin(Null, fs, w)
    case LiteralBool(b) => Begin(Bool(b), fs, w)
    case LiteralNumber(text) => Begin(Num(n.number(text)), fs, w)
    case LiteralString(s) => Begin(Str(s), fs, w)
    case Identifier(name) => Begin(Null, fs, w).(outcome := Found(Lookup(fs, name), UndefinedName))
    case ScopedAccess(scope, name) => Begin(Null, fs, w).(outcome := Found(Lookup(fs, scope + "::" + name),
        UndefinedName))
    case MemberAccess(o, name) =>
      var r := In(0, Eval(n, o, fs, w));
      if r.outcome.Normal? then r.(outcome := Member(n, r.world, r.outcome.v, name)) else r
    case Call(_, _, _) => EvalCall(n, e, fs, w)
    case UnaryOp(op, x) =>
      var r := In(0, Eval(n, x, fs, w));
      if r.outcome.Normal? then r.(outcome := Unary(op, r.outcome.v)) else r
    case BinaryOp(_, _, _) => EvalBinary(n, e, fs, w)
  }

  /** `&&` and `||` stop at a left operand that decides. */
  predicate Decides(op: string, l: RtValue) {
    (op == "&&" && !Truthy(l)) || (op == "||" && Truthy(l))
  }

  function EvalBinary<W>(n: Natives<W>, e: Expr, fs: Frames, w: W): (r: Run<W>)
    requires fs != [] && e.BinaryOp?
    ensures |r.frames| == |fs|
    decreases e, 2
  {
    var l := In(0, Eval(n, e.lhs, fs, w));
    if !l.outcome.Normal? || Decides(e.op, l.outcome.v) then l
    else
      var r := Then(l, In(1, Eval(n, e.rhs, l.frames, l.world)));
      if !r.outcome.Normal? || e.op == "&&" || e.op == "||" then r
      else r.(outcome := Binary(n, r.world, e.op, l.outcome.v, r.outcome.v))
  }

  /** Arguments first, left to right, then the receiver or the callee. */
  function EvalCall<W>(n: Natives<W>, e: Expr, fs: Frames, w: W): (r: Run<W>)
    requires fs != [] && e.Call?
    ensures |r.frames| == |fs|
    decreases e, 2
  {
    var a := Arguments(n, e, fs, w);
    if !a.run.outcome.Normal? then a.run
    else
      var c := Receive(n, e, a);
      if !c.outcome.Normal? then c
      else if !e.callee.MemberAccess? then
        if c.outcome.v.Fn? then Invoke(n, e, c.outcome.v.f, Null, a, c) else c.(outcome := Error(NotCallable))
      else if c.outcome.v.Str? then
        c.(outcome := Found(n.stringMethod(c.outcome.v.s, e.callee.member, a.pos), NativeError))
      else if !c.outcome.v.Obj? then c.(outcome := Error(NotAnObject))
      else
        match n.bound(c.world, c.outcome.v.o, e.callee.member)
        case None => c.(outcome := Error(NoMember))
        case Some(f) => Invoke(n, e, f, c.outcome.v, a, c)
  }

  function Arguments<W>(n: Natives<W>, e: Expr, fs: Frames, w: W): (a: ArgRun<W>)
    requires fs != [] && e.Call?
    ensures |a.run.frames| == |fs|
    decreases e, 1
  {
    var a := EvalArgs(n, e.args, fs, w, [], map[]);
    a.(run := In(1, a.run))
  }

  function Receive<W>(n: Natives<W>, e: Expr, a: ArgRun<W>): (r: Run<W>)
    requires a.run.frames != [] && e.Call?
    ensures |r.frames| == |a.run.frames|
    decreases e, 1
  {
    var r := Eval(n, Target(e), a.run.frames, a.run.world);
    Then(a.run, In(0, if e.callee.MemberAccess? then In(0, r) else r))
  }

  function Target(e: Expr): (t: Expr)
    requires e.Call?
    ensures t < e
  {
    if e.callee.MemberAccess? then e.callee.base else e.callee
  }

  function Invoke<W>(n: Natives<W>, e: Expr, f: nat, self: RtValue, a: ArgRun<W>, c: Run<W>): (r: Run<W>)
    requires e.Call? && c.frames != []
    ensures |r.frames| == |c.frames|
    decreases e, 1
  {
    if n.isRun(f) then RunBlock(n, e.block, Called(c))
    else
      var (w, reply) := n.call(c.world, f, self, a.pos, a.named, e.block.Braces?);
      Called(c).(outcome := Found(reply, NativeError), world := w)
  }

  /** Plugin.run: the block sees the globals and a scope of its own, nothing in between, and its return ends here. */
  function RunBlock<W>(n: Natives<W>, block: Block, c: Run<W>): (r: Run<W>)
    requires c.frames != []
    ensures |r.frames| == |c.frames|
    decreases block, 6
  {
    if block.NoBlock? then c.(outcome := Error(NoBlockGiven))
    else if !n.runs(c.world) then c.(outcome := Normal(Null))
    else
      var b := In(2, ExecBody(n, block.body, [c.frames[0], map[]], c.world));
      Then(c, b.(outcome := if b.outcome.Error? then b.outcome else Normal(Null),
                 frames := [b.frames[0]] + c.frames[1..]))
  }

  function EvalArgs<W>(n: Natives<W>, args: seq<CallArg>, fs: Frames, w: W, pos: seq<RtValue>, named: map<string,
      RtValue>)
    : (r: ArgRun<W>)
    requires fs != []
    ensures |r.run.frames| == |fs|
    decreases args, 5
  {
    if args == [] then ArgRun(Begin(Null, fs, w), pos, named)
    else
      var r := In(0, Eval(n, args[0].value, fs, w));
      if !r.outcome.Normal? then ArgRun(r, pos, named)
      else
        var v := r.outcome.v;
        var rest := EvalArgs(n, args[1..], r.frames, r.world,
                             if args[0].name == "" then pos + [v] else pos,
                             if args[0].name == "" then named else named[args[0].name := v]);
        rest.(run := Then(r, In(1, rest.run)))
  }

  // ---- statements ----

  function Exec<W>(n: Natives<W>, s: Stmt, fs: Frames, w: W): (r: Run<W>)
    requires fs != []
    ensures |r.frames| == |fs|
    decreases s, 4
  {
    Visit(ExecParts(n, s, fs, w))
  }

  function ExecParts<W>(n: Natives<W>, s: Stmt, fs: Frames, w: W): (r: Run<W>)
    requires fs != []
    ensures |r.frames| == |fs|
    decreases s, 3
  {
    match s
    case IncludeStmt(_) => Begin(Null, fs, w)
    case ExprStmt(e) => In(0, Eval(n, e, fs, w))
    case AssignStmt(target, e) =>
      var r := In(0, Eval(n, e, fs, w));
      if r.outcome.Normal? then r.(frames := Store(r.frames, target, r.outcome.v)) else r
    case IfStmt(_, _, _) => ExecIf(n, s, fs, w)
    case ReturnStmt(NoValue) => Begin(Null, fs, w).(outcome := Return(Null))
    case ReturnStmt(Given(e)) =>
      var r := In(0, Eval(n, e, fs, w));
      if r.outcome.Normal? then r.(outcome := Return(r.outcome.v)) else r
  }

  function ExecIf<W>(n: Natives<W>, s: Stmt, fs: Frames, w: W): (r: Run<W>)
    requires fs != [] && s.IfStmt?
    ensures |r.frames| == |fs|
    decreases s, 2
  {
    var c := In(0, Eval(n, s.condition, fs, w));
    if !c.outcome.Normal? then c
    else if Truthy(c.outcome.v) then Then(c, In(1, ExecBlock(n, s.thenBranch, c.frames, c.world)))
    else if s.elseBranch != [] then Then(c, In(2, ExecBlock(n, s.elseBranch, c.frames, c.world)))
    else c
  }

  /** A block runs in a new innermost scope that is gone afterwards, however the block ends. */
  function ExecBlock<W>(n: Natives<W>, body: seq<Stmt>, fs: Frames, w: W): (r: Run<W>)
    requires fs != []
    ensures |r.frames| == |fs|
    decreases body, 6
  {
    var r := ExecBody(n, body, fs + [map[]], w);
    r.(frames := r.frames[..|fs|])
  }

  function ExecBody<W>(n: Natives<W>, body: seq<Stmt>, fs: Frames, w: W): (r: Run<W>)
    requires fs != []
    ensures |r.frames| == |fs|
    decreases body, 5
  {
    if body == [] then Begin(Null, fs, w)
    else
      var r := In(0, Exec(n, body[0], fs, w));
      if !r.outcome.Normal? then r else Then(r, In(1, ExecBody(n, body[1..], r.frames, r.world)))
  }

  /** A program runs in the global scope. */
  function RunProgram<W>(n: Natives<W>, p: Program, globals: Frame, w: W): Run<W> {
    ExecBody(n, p, [globals], w)
  }

  // ---- the text of a program ----

  /** The paths of all expressions and statements of a piece of syntax, and those of its call expressions. */
  datatype Places = Places(nodes: set<Path>, calls: set<Path>)

  const Nowhere := Places({}, {})

  function Here(call: bool): Places {
    Places({[]}, if call then {[]} else {})
  }

  function Both(a: Places, b: Places): Places {
    Places(a.nodes + b.nodes, a.calls + b.calls)
  }

  function Below(i: nat, paths: set<Path>): set<Path> {
    set p | p in paths :: [i] + p
  }

  function Inside(i: nat, a: Places): Places {
    Places(Below(i, a.nodes), Below(i, a.calls))
  }

  function PlacesOf(e: Expr): Places
    decreases e, 1
  {
    Both(Here(e.Call?), PlacesBelow(e))
  }

  function PlacesBelow(e: Expr): Places
    decreases e, 0
  {
    match e
    case MemberAccess(o, _) => Inside(0, PlacesOf(o))
    case Call(c, args, block) =>
      Both(Both(Inside(1, PlacesOfArgs(args)), Inside(0, PlacesOf(c))), Inside(2, PlacesOfBlock(block)))
    case UnaryOp(_, x) => Inside(0, PlacesOf(x))
    case BinaryOp(_, l, r) => Both(Inside(0, PlacesOf(l)), Inside(1, PlacesOf(r)))
    case _ => Nowhere
  }

  function PlacesOfBlock(block: Block): Places
    decreases block, 1
  {
    if block.Braces? then PlacesOfBody(block.body) else Nowhere
  }

  function PlacesOfArgs(args: seq<CallArg>): Places
    decreases args, 0
  {
    if args == [] then Nowhere else Both(Inside(0, PlacesOf(args[0].value)), Inside(1, PlacesOfArgs(args[1..])))
  }

  function PlacesOfStmt(s: Stmt): Places
    decreases s, 1
  {
    Both(Here(false), PlacesBelowStmt(s))
  }

  function PlacesBelowStmt(s: Stmt): Places
    decreases s, 0
  {
    match s
    case ExprStmt(e) => Inside(0, PlacesOf(e))
    case AssignStmt(_, e) => Inside(0, PlacesOf(e))
    case IfStmt(c, t, f) =>
      Both(Both(Inside(0, PlacesOf(c)), Inside(1, PlacesOfBody(t))), Inside(2, PlacesOfBody(f)))
    case ReturnStmt(Given(e)) => Inside(0, PlacesOf(e))
    case _ => Nowhere
  }

  function PlacesOfBody(body: seq<Stmt>): Places
    decreases body, 0
  {
    if body == [] then Nowhere else Both(Inside(0, PlacesOfStmt(body[0])), Inside(1, PlacesOfBody(body[1..])))
  }

  /** The number of call expressions in a piece of syntax. */
  function CallsIn(e: Expr): nat
    decreases e, 0
  {
    match e
    case MemberAccess(o, _) => CallsIn(o)
    case Call(c, args, block) => 1 + CallsIn(c) + CallsInArgs(args) + CallsInBlock(block)
    case UnaryOp(_, x) => CallsIn(x)
    case BinaryOp(_, l, r) => CallsIn(l) + CallsIn(r)
    case _ => 0
  }

  function CallsInBlock(block: Block): nat
    decreases block, 1
  {
    if block.Braces? then CallsInBody(block.body) else 0
  }

  function CallsInArgs(args: seq<CallArg>): nat
    decreases args, 0
  {
    if args == [] then 0 else CallsIn(args[0].value) + CallsInArgs(args[1..])
  }

  function CallsInStmt(s: Stmt): nat
    decreases s, 0
  {
    match s
    case ExprStmt(e) => CallsIn(e)
    case AssignStmt(_, e) => CallsIn(e)
    case IfStmt(c, t, f) => CallsIn(c) + CallsInBody(t) + CallsInBody(f)
    case ReturnStmt(Given(e)) => CallsIn(e)
    case _ => 0
  }

  function CallsInBody(body: seq<Stmt>): nat
    decreases body, 0
  {
    if body == [] then 0 else CallsInStmt(body[0]) + CallsInBody(body[1..])
  }
}
