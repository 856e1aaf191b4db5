/** What every interleaving of the scan keeps. */
module ScanInvariants {
  import opened Sequences
  import opened Findings
  import opened ThreadPool
  import opened ScanServer

  /** The vectors and the counter hold exactly what the history says. */
  ghost predicate Logged(c: Scan, s: Server) {
    && s.ports == PortsOf(c, s.shown) && s.findings == FindingsOf(c, s.shown)
    && s.outPorts == PortsOf(c, s.kept) && s.outFindings == FindingsOf(c, s.kept)
    && s.scanned == |s.counted|
  }

  ghost predicate ListsMatch(c: Scan, s: Server, p: nat) {
    && (p in s.shown <==> c.probe(p).Open? && StageOf(s, p) != Fresh)
    && (p in s.kept <==> c.probe(p).Open? && (StageOf(s, p) == Kept || StageOf(s, p) == Counted))
    && (p in s.counted <==> StageOf(s, p) == Counted)
    && (StageOf(s, p) == Shown || StageOf(s, p) == Kept ==> c.probe(p).Open?)
  }

  /** No port is shown, kept or counted twice, and each list holds the ports whose task has come that far. */
  ghost predicate Staged(c: Scan, s: Server) {
    && Distinct(s.shown) && Distinct(s.kept) && Distinct(s.counted)
    && forall p: nat :: ListsMatch(c, s, p)
  }

  /** Only ports a worker has taken have left the first stage, and finished tasks have passed the last one. */
  ghost predicate Taken(s: Server) {
    && (forall p: nat | StageOf(s, p) != Fresh :: p in s.pool.started)
    && (forall p: nat | p in s.pool.done :: StageOf(s, p) == Counted)
  }

  ghost predicate Fed(c: Scan, s: Server) {
    && s.pool.enqueued == Between(c.first, s.filled)
    && c.first <= s.filled && (s.filled <= c.limit || s.filled == c.first)
  }

  ghost predicate Phased(c: Scan, s: Server) {
    match s.main
    case Queued => s.status == 0 && !s.pool.stop
    case Filling => s.status == RUNNING && !s.pool.stop
    case Closing(failed) => s.status == RUNNING && (!failed ==> s.filled >= c.limit)
    case Collecting(failed) =>
      s.status == RUNNING && (!failed ==> s.filled >= c.limit) && s.pool.notified && Joined(s.pool)
    case Finished =>
      && (s.status == ERROR || (s.status == DONE && s.filled >= c.limit))
      && s.pool.notified && Joined(s.pool)
  }

  ghost predicate ServerInv(c: Scan, s: Server) {
    && Inv(s.pool) && |s.pool.workers| == c.threads
    && Logged(c, s) && Staged(c, s) && Taken(s) && Fed(c, s) && Phased(c, s)
  }

  lemma BeginInv(c: Scan)
    ensures ServerInv(c, Begin(c))
  {
    StartInv<nat>(c.threads);
    hide Inv;
  }

  // ---- the worker tasks ----

  lemma RunningIsStarted(pool: Pool<nat>, w: nat)
    requires Inv(pool) && w < |pool.workers| && pool.workers[w].Running?
    ensures pool.workers[w].task in pool.started
  {
    var p := pool.workers[w].task;
    TallySplits(pool.workers, w);
    assert One(pool.workers[w]).running == multiset{p};
    hide TallyOf, One;
    assert p in multiset(pool.started);
  }

  lemma DistinctAppend(ps: seq<nat>, p: nat)
    requires Distinct(ps) && p !in ps
    ensures Distinct(ps + [p])
    ensures forall q: nat :: q in ps + [p] <==> q in ps || q == p
  {
    assert p in [p];
  }

  /** A task changes only its own stage. */
  lemma Unmoved(s: Server, e: Server, p: nat, stage: Stage)
    requires e.stage == s.stage[p := stage]
    ensures StageOf(e, p) == stage
    ensures forall q: nat | q != p :: StageOf(e, q) == StageOf(s, q)
  {
  }

  lemma PortsOfAppend(c: Scan, ps: seq<nat>, p: nat)
    requires c.probe(p).Open?
    ensures PortsOf(c, ps + [p]) == PortsOf(c, ps) + [c.probe(p).port]
    ensures FindingsOf(c, ps + [p]) == FindingsOf(c, ps) + c.probe(p).findings
  {
    assert (ps + [p])[..|ps|] == ps;
  }

  lemma TaskInv(c: Scan, s: Server, w: nat, step: ServerStep)
    requires ServerInv(c, s) && May(c, s, step)
    requires step == ShowOpen(w) || step == Keep(w) || step == Count(w)
    ensures ServerInv(c, Do(c, s, step))
  {
    hide Inv, PortsOf, FindingsOf, Fed, Phased;
    var e := Do(c, s, step);
    var p := s.pool.workers[w].task;
    TaskLogged(c, s, w, step);
    TaskStaged(c, s, w, step);
    RunningIsStarted(s.pool, w);
    Unmoved(s, e, p, e.stage[p]);
    TaskKeepsTheRest(c, s, w, step);
    hide Staged, Logged, Do, May;
    forall q: nat | q in e.pool.done ensures StageOf(e, q) == Counted {
      assert StageOf(s, q) == Counted;
    }
  }

  lemma TaskKeepsTheRest(c: Scan, s: Server, w: nat, step: ServerStep)
    requires Fed(c, s) && Phased(c, s) && May(c, s, step)
    requires step == ShowOpen(w) || step == Keep(w) || step == Count(w)
    ensures var e := Do(c, s, step);
            Fed(c, e) && Phased(c, e) && e.pool == s.pool && e.main == s.main && e.status == s.status
                && e.filled == s.filled
  {
  }

  lemma TaskLogged(c: Scan, s: Server, w: nat, step: ServerStep)
    requires Logged(c, s) && May(c, s, step)
    requires step == ShowOpen(w) || step == Keep(w) || step == Count(w)
    ensures Logged(c, Do(c, s, step))
  {
    var p := s.pool.workers[w].task;
    if step == ShowOpen(w) {
      PortsOfAppend(c, s.shown, p);
    } else if step == Keep(w) {
      PortsOfAppend(c, s.kept, p);
    }
    hide PortsOf, FindingsOf;
  }

  lemma TaskStaged(c: Scan, s: Server, w: nat, step: ServerStep)
    requires Staged(c, s) && May(c, s, step)
    requires step == ShowOpen(w) || step == Keep(w) || step == Count(w)
    ensures Staged(c, Do(c, s, step))
  {
    var e := Do(c, s, step);
    var p := s.pool.workers[w].task;
    Unmoved(s, e, p, e.stage[p]);
    assert ListsMatch(c, s, p);
    var list := if step == ShowOpen(w) then s.shown else if step == Keep(w) then s.kept else s.counted;
    DistinctAppend(list, p);
    hide StageOf, Distinct;
    forall q: nat ensures ListsMatch(c, e, q) {
      assert ListsMatch(c, s, q);
    }
  }

  // ---- the pool and the scan thread ----

  lemma PoolMoveInv(c: Scan, s: Server, step: Step<nat>)
    requires ServerInv(c, s) && PoolMay(s, step)
    ensures ServerInv(c, Do(c, s, PoolMoves(step)))
  {
    hide Inv, Logged, Staged, Fed, Phased, Taken;
    StepInv(s.pool, step);
    PoolMoveTaken(s, step);
    PoolMovePhased(c, s, step);
    PoolMoveKeeps(c, s, step);
  }

  lemma PoolMoveKeeps(c: Scan, s: Server, step: Step<nat>)
    requires Logged(c, s) && Staged(c, s) && Fed(c, s) && PoolMay(s, step)
    ensures var e := s.(pool := Apply(s.pool, step)); Logged(c, e) && Staged(c, e) && Fed(c, e)
  {
    hide Distinct, PortsOf, FindingsOf, Between;
    var e := s.(pool := Apply(s.pool, step));
    assert e.pool.enqueued == s.pool.enqueued;
    forall p: nat ensures ListsMatch(c, e, p) {
      assert ListsMatch(c, s, p);
    }
  }

  lemma PoolMoveTaken(s: Server, step: Step<nat>)
    requires Taken(s) && PoolMay(s, step)
    ensures Taken(s.(pool := Apply(s.pool, step)))
  {
    var e := s.(pool := Apply(s.pool, step));
    forall p: nat | StageOf(e, p) != Fresh ensures p in e.pool.started {
      assert StageOf(s, p) != Fresh;
    }
    forall p: nat | p in e.pool.done ensures StageOf(e, p) == Counted {
      assert StageOf(s, p) == StageOf(e, p);
      if p !in s.pool.done {
        assert step.Finish? && p == s.pool.workers[step.w].task;
      }
    }
  }

  lemma {:induction false} WokenExited<T>(ws: seq<Phase<T>>)
    requires forall w | 0 <= w < |ws| :: ws[w].Exited?
    ensures WakeAll(ws) == ws
  {
    if ws != [] {
      WokenExited(ws[1..]);
    }
  }

  /** Nothing moves a pool whose workers have all exited. */
  lemma JoinedStays<T>(s: Pool<T>, step: Step<T>)
    requires Joined(s) && Enabled(s, step)
    ensures Joined(Apply(s, step))
  {
    if step.NotifyAll? {
      WokenExited(s.workers);
    }
  }

  lemma PoolMovePhased(c: Scan, s: Server, step: Step<nat>)
    requires Phased(c, s) && PoolMay(s, step)
    ensures Phased(c, s.(pool := Apply(s.pool, step)))
  {
    if s.main.Collecting? || s.main.Finished? {
      JoinedStays(s.pool, step);
      assert Apply(s.pool, step).notified;
      hide Apply, Joined, PoolMay;
    }
  }

  lemma BetweenAppend(a: nat, b: nat)
    requires a <= b
    ensures Between(a, b + 1) == Between(a, b) + [b]
  {
  }

  lemma EnqueueInv(c: Scan, s: Server)
    requires ServerInv(c, s) && May(c, s, Enqueue)
    ensures ServerInv(c, Do(c, s, Enqueue))
  {
    hide Inv, PortsOf, FindingsOf, Distinct;
    StepInv(s.pool, Push(s.filled));
    BetweenAppend(c.first, s.filled);
    var e := Do(c, s, Enqueue);
    forall p: nat ensures ListsMatch(c, e, p) {
      assert ListsMatch(c, s, p);
    }
    hide Between;
  }

  lemma ScanThreadInv(c: Scan, s: Server, step: ServerStep)
    requires ServerInv(c, s) && May(c, s, step)
    requires step.Launch? || step.EnqueueThrows? || step.EndOfRange? || step.Join? || step.Report? || step.ReportThrows?
             || step.SaveThrows?
    ensures ServerInv(c, Do(c, s, step))
  {
    hide Inv, PortsOf, FindingsOf, Distinct, Between;
    var e := Do(c, s, step);
    assert e == s.(main := e.main, status := e.status);
    forall p: nat ensures ListsMatch(c, e, p) {
      assert ListsMatch(c, s, p);
    }
  }

  lemma DoInv(c: Scan, s: Server, step: ServerStep)
    requires ServerInv(c, s) && May(c, s, step)
    ensures ServerInv(c, Do(c, s, step))
  {
    hide ServerInv, Do;
    match step
    case ShowOpen(w) => TaskInv(c, s, w, step);
    case Keep(w) => TaskInv(c, s, w, step);
    case Count(w) => TaskInv(c, s, w, step);
    case PoolMoves(step) => PoolMoveInv(c, s, step);
    case Enqueue => EnqueueInv(c, s);
    case _ => ScanThreadInv(c, s, step);
  }

  lemma {:induction false} RunsToInv(c: Scan, s: Server, steps: seq<ServerStep>, e: Server)
    requires ServerInv(c, s) && RunsTo(c, s, steps, e)
    ensures ServerInv(c, e)
    decreases |steps|
  {
    hide ServerInv, Do, May;
    if steps != [] {
      DoInv(c, s, steps[0]);
      RunsToInv(c, Do(c, s, steps[0]), steps[1..], e);
    }
  }

  /** In every state any interleaving can reach. */
  lemma AlwaysInv(c: Scan, s: Server)
    requires Occurs(c, s)
    ensures ServerInv(c, s)
  {
    hide ServerInv;
    BeginInv(c);
    var steps :| RunsTo(c, Begin(c), steps, s);
    RunsToInv(c, Begin(c), steps, s);
  }
}
