/** A port-range scan behind the web interface: the worker tasks, the thread that feeds and joins the pool, and the
    job record they share. One step is one locked section or one atomic operation. */
module ScanServer {
  import opened Findings
  import opened ThreadPool

  /** What the task of a port hands on: an open port comes with its findings. */
  datatype Probed = Closed | Open(port: Port, findings: seq<Finding>)

  /** A scan of the ports from `first` up to but not including `limit`. */
  datatype Scan = Scan(first: nat, limit: nat, threads: nat, probe: nat -> Probed)

  /** How far the task of a port has come: shown to the live stream, kept for the result, counted as progress. */
  datatype Stage = Fresh | Shown | Kept | Counted

  /** The scan thread. `failed` is set when an exception is on its way out. */
  datatype Main = Queued | Filling | Closing(failed: bool) | Collecting(failed: bool) | Finished

  const RUNNING := 1
  const DONE := 2
  const ERROR := 3

  /** `ports`, `findings`, `scanned` and `status` are the job record; `outPorts` and `outFindings` the result being
      built; `filled` the loop variable of the scan thread. The last three are history: which ports were shown, kept
      and counted, in order. */
  datatype Server = Server(
    pool: Pool<nat>, stage: map<nat, Stage>, main: Main, filled: nat,
    status: nat, scanned: nat, ports: seq<Port>, findings: seq<Finding>,
    outPorts: seq<Port>, outFindings: seq<Finding>,
    shown: seq<nat>, kept: seq<nat>, counted: seq<nat>)

  datatype ServerStep =
    | Launch
    | Enqueue
    | EnqueueThrows
    | EndOfRange
    | PoolMoves(step: Step<nat>)
    | ShowOpen(w: nat)
    | Keep(w: nat)
    | Count(w: nat)
    | Join
    | Report
    | ReportThrows
    | SaveThrows

  function Begin(c: Scan): Server {
    Server(Start(c.threads), map[], Queued, c.first, 0, 0, [], [], [], [], [], [], [])
  }

  function StageOf(s: Server, p: nat): Stage {
    if p in s.stage then s.stage[p] else Fresh
  }

  predicate RunsAt(s: Server, w: nat, stage: Stage) {
    w < |s.pool.workers| && s.pool.workers[w].Running? && StageOf(s, s.pool.workers[w].task) == stage
  }

  /** The pool's own moves. A task is finished after its progress increment, and the scan thread sets `stop` and
      notifies only in the destructor, when none of its enqueue calls is still at work. */
  ghost predicate PoolMay(s: Server, step: Step<nat>) {
    && Enabled(s.pool, step)
    && match step
       case Push(_) => false
       case Finish(w) => RunsAt(s, w, Counted)
       case SetStop => s.main.Closing? && s.pool.pending == 0
       case NotifyAll => s.main.Closing?
       case _ => true
  }

  ghost predicate May(c: Scan, s: Server, step: ServerStep) {
    match step
    case Launch => s.main.Queued?
    case Enqueue => s.main.Filling? && s.filled < c.limit && s.pool.pending == 0 && !s.pool.stop
    case EnqueueThrows => s.main.Filling? && s.pool.pending == 0
    case EndOfRange => s.main.Filling? && s.filled >= c.limit && s.pool.pending == 0
    case PoolMoves(step) => PoolMay(s, step)
    case ShowOpen(w) => RunsAt(s, w, Fresh) && c.probe(s.pool.workers[w].task).Open?
    case Keep(w) => RunsAt(s, w, Shown) && c.probe(s.pool.workers[w].task).Open?
    case Count(w) => RunsAt(s, w, Kept) || (RunsAt(s, w, Fresh) && c.probe(s.pool.workers[w].task).Closed?)
    case Join => s.main.Closing? && s.pool.notified && Joined(s.pool)
    case Report => s.main == Collecting(false)
    case ReportThrows => s.main.Collecting?
    case SaveThrows => s.main.Finished? && s.status == DONE
  }

  function Do(c: Scan, s: Server, step: ServerStep): Server
    requires May(c, s, step)
  {
    match step
    case Launch => s.(main := Filling, status := RUNNING)
    case Enqueue => s.(pool := Apply(s.pool, Push(s.filled)), filled := s.filled + 1)
    case EnqueueThrows => s.(main := Closing(true))
    case EndOfRange => s.(main := Closing(false))
    case PoolMoves(step) => s.(pool := Apply(s.pool, step))
    case ShowOpen(w) =>
      var p := s.pool.workers[w].task;
      s.(ports := s.ports + [c.probe(p).port], findings := s.findings + c.probe(p).findings,
         stage := s.stage[p := Shown], shown := s.shown + [p])
    case Keep(w) =>
      var p := s.pool.workers[w].task;
      s.(outPorts := s.outPorts + [c.probe(p).port], outFindings := s.outFindings + c.probe(p).findings,
         stage := s.stage[p := Kept], kept := s.kept + [p])
    case Count(w) =>
      var p := s.pool.workers[w].task;
      s.(scanned := s.scanned + 1, stage := s.stage[p := Counted], counted := s.counted + [p])
    case Join => s.(main := Collecting(s.main.failed))
    case Report => s.(main := Finished, status := DONE)
    case ReportThrows => s.(main := Finished, status := ERROR)
    case SaveThrows => s.(status := ERROR)
  }

  ghost predicate RunsTo(c: Scan, s: Server, steps: seq<ServerStep>, e: Server)
    decreases |steps|
  {
    if steps == [] then s == e else May(c, s, steps[0]) && RunsTo(c, Do(c, s, steps[0]), steps[1..], e)
  }

  ghost predicate Occurs(c: Scan, s: Server) {
    exists steps :: RunsTo(c, Begin(c), steps, s)
  }

  // ---- what the lists should hold ----

  function PortsOf(c: Scan, ps: seq<nat>): seq<Port> {
    if ps == [] then []
    else
      var n := |ps| - 1;
      PortsOf(c, ps[..n]) + (match c.probe(ps[n]) case Open(port, _) => [port] case Closed => [])
  }

  function FindingsOf(c: Scan, ps: seq<nat>): seq<Finding> {
    if ps == [] then []
    else
      var n := |ps| - 1;
      FindingsOf(c, ps[..n]) + (match c.probe(ps[n]) case Open(_, fs) => fs case Closed => [])
  }

  function Between(a: nat, b: nat): seq<nat> {
    if b <= a then [] else Between(a, b - 1) + [b - 1]
  }

  function OpenPorts(c: Scan, a: nat, b: nat): seq<nat> {
    if b <= a then [] else OpenPorts(c, a, b - 1) + (if c.probe(b - 1).Open? then [b - 1] else [])
  }
}
