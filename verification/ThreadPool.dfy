/** The thread pool as a transition system: one step is one critical section, one notification or one finished
    task, in any order the threads can interleave them. A history of the tasks is kept beside the real state. */
module ThreadPool {

  /** Where a worker is. Sleeping is inside condition.wait, AtLock anywhere it is about to lock the mutex. */
  datatype Phase<+T> = AtLock | Sleeping | Running(task: T) | Exited

  /** `pending` counts the enqueue calls that have pushed and not yet notified. The last three fields are history:
      the tasks in the order of their push, of their removal from the queue and of their completion. */
  datatype Pool<+T> = Pool(
    workers: seq<Phase<T>>, queue: seq<T>, stop: bool, notified: bool, pending: nat,
    enqueued: seq<T>, started: seq<T>, done: seq<T>)

  datatype Step<+T> =
    | Push(task: T)
    | NotifyOne(w: nat)
    | NotifyNobody
    | WakeSpuriously(w: nat)
    | Section(w: nat)
    | Finish(w: nat)
    | SetStop
    | NotifyAll

  // ---- the critical section of a worker ----

  datatype Verdict<+T> = Wait | Return | Run(task: T)

  function Decide<T>(queue: seq<T>, stop: bool): (Verdict<T>, seq<T>) {
    if queue != [] then (Run(queue[0]), queue[1..])
    else if stop then (Return, [])
    else (Wait, [])
  }

  // ---- steps ----

  function Start<T>(threads: nat): Pool<T> {
    Pool(seq(threads, _ => AtLock), [], false, false, 0, [], [], [])
  }

  ghost predicate Enabled<T>(s: Pool<T>, step: Step<T>) {
    match step
    case Push(_) => !s.stop
    case NotifyOne(w) => s.pending > 0 && w < |s.workers| && s.workers[w] == Sleeping
    case NotifyNobody => s.pending > 0 && forall w | 0 <= w < |s.workers| :: s.workers[w] != Sleeping
    case WakeSpuriously(w) => w < |s.workers| && s.workers[w] == Sleeping
    case Section(w) => w < |s.workers| && s.workers[w] == AtLock
    case Finish(w) => w < |s.workers| && s.workers[w].Running?
    case SetStop => !s.stop
    case NotifyAll => s.stop && !s.notified
  }

  function Woken<T>(p: Phase<T>): Phase<T> {
    if p.Sleeping? then AtLock else p
  }

  function WakeAll<T>(workers: seq<Phase<T>>): (woken: seq<Phase<T>>)
    ensures |woken| == |workers|
  {
    if workers == [] then [] else [Woken(workers[0])] + WakeAll(workers[1..])
  }

  function Apply<T>(s: Pool<T>, step: Step<T>): Pool<T>
    requires Enabled(s, step)
  {
    match step
    case Push(t) => s.(queue := s.queue + [t], pending := s.pending + 1, enqueued := s.enqueued + [t])
    case NotifyOne(w) => s.(workers := s.workers[w := AtLock], pending := s.pending - 1)
    case NotifyNobody => s.(pending := s.pending - 1)
    case WakeSpuriously(w) => s.(workers := s.workers[w := AtLock])
    case Section(w) => (
      var (verdict, rest) := Decide(s.queue, s.stop);
      match verdict
      case Run(t) => s.(workers := s.workers[w := Running(t)], queue := rest, started := s.started + [t])
      case Return => s.(workers := s.workers[w := Exited])
      case Wait => s.(workers := s.workers[w := Sleeping]))
    case Finish(w) => s.(workers := s.workers[w := AtLock], done := s.done + [s.workers[w].task])
    case SetStop => s.(stop := true)
    case NotifyAll => s.(workers := WakeAll(s.workers), notified := true)
  }

  /** The state after a run, if every step of it was possible. */
  ghost predicate Leads<T(!new)>(s: Pool<T>, steps: seq<Step<T>>, e: Pool<T>)
    decreases |steps|
  {
    if steps == [] then s == e
    else Enabled(s, steps[0]) && Leads(Apply(s, steps[0]), steps[1..], e)
  }

  ghost predicate Reachable<T(!new)>(threads: nat, s: Pool<T>) {
    exists steps :: Leads(Start(threads), steps, s)
  }

  // ---- counting workers ----

  datatype Tally<T> = Tally(sleeping: nat, atLock: nat, running: multiset<T>, exited: nat)

  ghost function One<T>(p: Phase<T>): Tally<T> {
    match p
    case AtLock => Tally(0, 1, multiset{}, 0)
    case Sleeping => Tally(1, 0, multiset{}, 0)
    case Running(t) => Tally(0, 0, multiset{t}, 0)
    case Exited => Tally(0, 0, multiset{}, 1)
  }

  ghost function Add<T>(a: Tally<T>, b: Tally<T>): Tally<T> {
    Tally(a.sleeping + b.sleeping, a.atLock + b.atLock, a.running + b.running, a.exited + b.exited)
  }

  ghost function TallyOf<T>(ws: seq<Phase<T>>): Tally<T> {
    if ws == [] then Tally(0, 0, multiset{}, 0) else Add(One(ws[0]), TallyOf(ws[1..]))
  }

  lemma TallyUnfolds<T>(ws: seq<Phase<T>>)
    requires ws != []
    ensures TallyOf(ws) == Add(One(ws[0]), TallyOf(ws[1..]))
  {
    hide Add, One;
  }

  lemma {:induction false} TallySplits<T>(ws: seq<Phase<T>>, w: nat)
    requires w < |ws|
    ensures TallyOf(ws) == Add(One(ws[w]), TallyOf(ws[..w] + ws[w + 1..]))
  {
    if w == 0 {
      assert ws[..0] + ws[1..] == ws[1..];
    } else {
      TallySplits(ws[1..], w - 1);
      var others := ws[..w] + ws[w + 1..];
      assert others[1..] == ws[1..][..w - 1] + ws[1..][w..];
    }
  }

  /** When one worker changes phase the others still count as before. */
  lemma TallyReplaced<T>(ws: seq<Phase<T>>, w: nat, p: Phase<T>) returns (others: Tally<T>)
    requires w < |ws|
    ensures TallyOf(ws) == Add(One(ws[w]), others)
    ensures TallyOf(ws[w := p]) == Add(One(p), others)
  {
    others := TallyOf(ws[..w] + ws[w + 1..]);
    TallySplits(ws, w);
    TallySplits(ws[w := p], w);
    assert ws[w := p][..w] + ws[w := p][w + 1..] == ws[..w] + ws[w + 1..];
  }

  lemma {:induction false} TallyWoken<T>(ws: seq<Phase<T>>)
    ensures TallyOf(WakeAll(ws)) == AllWoken(TallyOf(ws))
  {
    hide One, Add, Woken;
    if ws != [] {
      hide TallyOf, AllWoken;
      TallyWoken(ws[1..]);
      assert WakeAll(ws)[1..] == WakeAll(ws[1..]);
      TallyUnfolds(ws);
      TallyUnfolds(WakeAll(ws));
      OneWoken(ws[0]);
      AddWoken(One(ws[0]), TallyOf(ws[1..]));
    }
  }

  ghost function AllWoken<T>(t: Tally<T>): Tally<T> {
    Tally(0, t.atLock + t.sleeping, t.running, t.exited)
  }

  lemma AddWoken<T>(a: Tally<T>, b: Tally<T>)
    ensures Add(AllWoken(a), AllWoken(b)) == AllWoken(Add(a, b))
  {
  }

  lemma OneWoken<T>(p: Phase<T>)
    ensures One(Woken(p)) == AllWoken(One(p))
  {
  }

  lemma {:induction false} TallyStart<T>(ws: seq<Phase<T>>)
    requires forall w | 0 <= w < |ws| :: ws[w] == AtLock
    ensures TallyOf(ws) == Tally(0, |ws|, multiset{}, 0)
  {
    if ws != [] {
      TallyStart(ws[1..]);
    }
  }

  lemma {:induction false} TallyTotal<T>(ws: seq<Phase<T>>)
    ensures var t := TallyOf(ws); |ws| == t.sleeping + t.atLock + |t.running| + t.exited
  {
    if ws != [] {
      TallyTotal(ws[1..]);
    }
  }

  lemma {:induction false} FindSleeper<T>(ws: seq<Phase<T>>) returns (w: nat)
    requires TallyOf(ws).sleeping > 0
    ensures w < |ws| && ws[w] == Sleeping
  {
    if ws[0].Sleeping? {
      w := 0;
    } else {
      TallyUnfolds(ws);
      hide TallyOf;
      var v := FindSleeper(ws[1..]);
      w := v + 1;
    }
  }

  // ---- what every step keeps ----

  /** Tasks leave in the order they came, and each is queued, running or done, exactly once. */
  ghost predicate Conserved<T>(s: Pool<T>) {
    && s.enqueued == s.started + s.queue
    && multiset(s.started) == TallyOf(s.workers).running + multiset(s.done)
  }

  /** While any worker sleeps, every queued task has a worker at the lock or a notification of its own. */
  ghost predicate Covered<T>(s: Pool<T>) {
    TallyOf(s.workers).sleeping > 0 ==> |s.queue| <= s.pending + TallyOf(s.workers).atLock
  }

  /** Workers leave only when there is nothing left to do, and nobody sleeps through the shutdown. */
  ghost predicate Orderly<T>(s: Pool<T>) {
    && (TallyOf(s.workers).exited > 0 ==> s.stop && s.queue == [])
    && (s.notified ==> s.stop && TallyOf(s.workers).sleeping == 0)
    && (s.workers == [] ==> s.started == [])
  }

  ghost predicate Inv<T>(s: Pool<T>) {
    Conserved(s) && Covered(s) && Orderly(s)
  }

  lemma StartInv<T>(threads: nat)
    ensures Inv(Start<T>(threads))
  {
    var s := Start<T>(threads);
    TallyStart(s.workers);
    assert TallyOf(s.workers).running == multiset{};
    hide TallyOf, Start;
    NothingYet(s);
  }

  lemma NothingYet<T>(s: Pool<T>)
    requires s.enqueued == [] && s.started == [] && s.done == [] && s.queue == []
        && TallyOf(s.workers).running == multiset{}
    ensures Conserved(s)
  {
    hide TallyOf;
    var none: seq<T> := [];
    assert none + none == none;
    assert multiset(none) == multiset{};
  }

  lemma SectionInv<T>(s: Pool<T>, w: nat)
    requires Inv(s) && Enabled(s, Section(w))
    ensures Inv(Apply(s, Section(w)))
  {
    hide TallyOf;
    var e := Apply(s, Section(w));
    var others := TallyReplaced(s.workers, w, e.workers[w]);
    if s.queue != [] {
      TakeConserves(s, w);
    } else {
      assert e.queue == [];
    }
    hide Enabled, Apply;
  }

  lemma TakeConserves<T>(s: Pool<T>, w: nat)
    requires Conserved(s) && Enabled(s, Section(w)) && s.queue != []
    ensures Conserved(Apply(s, Section(w)))
  {
    hide TallyOf;
    var t := s.queue[0];
    var e := Apply(s, Section(w));
    var others := TallyReplaced(s.workers, w, Running(t));
    assert s.queue == [t] + e.queue;
    assert s.started + ([t] + e.queue) == s.started + [t] + e.queue;
    assert multiset(s.started + [t]) == multiset(s.started) + multiset{t};
  }

  lemma FinishInv<T>(s: Pool<T>, w: nat)
    requires Inv(s) && Enabled(s, Finish(w))
    ensures Inv(Apply(s, Finish(w)))
  {
    hide TallyOf;
    var others := TallyReplaced(s.workers, w, AtLock);
    var t := s.workers[w].task;
    assert multiset(s.done + [t]) == multiset(s.done) + multiset{t};
  }

  lemma WakeInv<T>(s: Pool<T>, w: nat, step: Step<T>)
    requires Inv(s) && Enabled(s, step) && (step == NotifyOne(w) || step == WakeSpuriously(w))
    ensures Inv(Apply(s, step))
  {
    hide TallyOf;
    var others := TallyReplaced(s.workers, w, AtLock);
  }

  lemma OtherInv<T>(s: Pool<T>, step: Step<T>)
    requires Inv(s) && Enabled(s, step)
    requires step.Push? || step.NotifyNobody? || step.SetStop? || step.NotifyAll?
    ensures Inv(Apply(s, step))
  {
    hide TallyOf;
    match step
    case Push(t) => assert s.started + s.queue + [t] == s.started + (s.queue + [t]);
    case NotifyNobody =>
      if TallyOf(s.workers).sleeping > 0 {
        var w := FindSleeper(s.workers);
      }
    case SetStop =>
    case NotifyAll => TallyWoken(s.workers);
  }

  lemma StepInv<T>(s: Pool<T>, step: Step<T>)
    requires Inv(s) && Enabled(s, step)
    ensures Inv(Apply(s, step)) && |Apply(s, step).workers| == |s.workers|
  {
    hide Inv;
    match step
    case Section(w) => SectionInv(s, w);
    case Finish(w) => FinishInv(s, w);
    case NotifyOne(w) => WakeInv(s, w, step);
    case WakeSpuriously(w) => WakeInv(s, w, step);
    case _ => OtherInv(s, step);
  }

  lemma {:induction false} RunInv<T(!new)>(s: Pool<T>, steps: seq<Step<T>>, e: Pool<T>)
    requires Inv(s) && Leads(s, steps, e)
    ensures Inv(e) && |e.workers| == |s.workers|
    decreases |steps|
  {
    hide Inv, Apply;
    if steps != [] {
      StepInv(s, steps[0]);
      RunInv(Apply(s, steps[0]), steps[1..], e);
    }
  }

  /** In every reachable state, whatever the interleaving: FIFO order, each task in exactly one place, no wakeup
      lost, no worker gone early. */
  lemma ReachableInv<T(!new)>(threads: nat, s: Pool<T>)
    requires Reachable(threads, s)
    ensures Inv(s) && |s.workers| == threads
  {
    hide Inv;
    StartInv<T>(threads);
    var steps :| Leads(Start(threads), steps, s);
    RunInv(Start(threads), steps, s);
  }

  /** With at least one worker, a task in the queue has an awake worker or a notification on its way. */
  lemma NoLostWakeup<T(!new)>(threads: nat, s: Pool<T>)
    requires Reachable(threads, s) && threads > 0 && s.queue != [] && s.pending == 0
    ensures exists w :: 0 <= w < |s.workers| && (s.workers[w].AtLock? || s.workers[w].Running?)
  {
    ReachableInv(threads, s);
    TallyTotal(s.workers);
    if forall w | 0 <= w < |s.workers| :: s.workers[w].Sleeping? || s.workers[w].Exited? {
      NobodyAwake(s.workers);
      assert false;
    }
  }

  lemma {:induction false} NobodyAwake<T>(ws: seq<Phase<T>>)
    requires forall w | 0 <= w < |ws| :: ws[w].Sleeping? || ws[w].Exited?
    ensures TallyOf(ws).atLock == 0 && TallyOf(ws).running == multiset{}
  {
    if ws != [] {
      NobodyAwake(ws[1..]);
    }
  }

  // ---- shutting down ----

  ghost function Weight<T>(s: Pool<T>): nat {
    var t := TallyOf(s.workers);
    2 * |s.queue| + t.atLock + 2 * t.sleeping + 2 * |t.running| + s.pending + (if s.notified then 0 else 1)
  }

  lemma SectionCounts<T>(s: Pool<T>, w: nat)
    requires Inv(s) && s.stop && Enabled(s, Section(w))
    ensures Weight(Apply(s, Section(w))) < Weight(s)
  {
    hide TallyOf, Inv;
    var e := Apply(s, Section(w));
    var others := TallyReplaced(s.workers, w, e.workers[w]);
  }

  lemma AwakeCounts<T>(s: Pool<T>, w: nat, step: Step<T>)
    requires s.stop && Enabled(s, step) && (step == NotifyOne(w) || step == WakeSpuriously(w) || step == Finish(w))
    ensures Weight(Apply(s, step)) < Weight(s)
  {
    hide TallyOf;
    var others := TallyReplaced(s.workers, w, AtLock);
  }

  /** Once `stop` is set every step, spurious wakeups included, brings the end nearer. */
  lemma StopCountsDown<T>(s: Pool<T>, step: Step<T>)
    requires Inv(s) && s.stop && Enabled(s, step)
    ensures Apply(s, step).stop && Weight(Apply(s, step)) < Weight(s)
  {
    hide TallyOf, Inv;
    match step
    case Section(w) => SectionCounts(s, w);
    case Finish(w) => AwakeCounts(s, w, step);
    case NotifyOne(w) => AwakeCounts(s, w, step);
    case WakeSpuriously(w) => AwakeCounts(s, w, step);
    case NotifyNobody =>
    case NotifyAll => TallyWoken(s.workers);
    case SetStop =>
    case Push(_) =>
  }

  lemma {:induction false} ShutdownIsBounded<T(!new)>(s: Pool<T>, steps: seq<Step<T>>, e: Pool<T>)
    requires Inv(s) && s.stop && Leads(s, steps, e)
    ensures |steps| + Weight(e) <= Weight(s)
    decreases |steps|
  {
    hide Inv, Apply, Weight;
    if steps != [] {
      StepInv(s, steps[0]);
      StopCountsDown(s, steps[0]);
      ShutdownIsBounded(Apply(s, steps[0]), steps[1..], e);
    }
  }

  ghost predicate Joined<T>(s: Pool<T>) {
    forall w | 0 <= w < |s.workers| :: s.workers[w].Exited?
  }

  lemma SleeperCounts<T>(ws: seq<Phase<T>>, w: nat)
    requires w < |ws| && ws[w].Sleeping?
    ensures TallyOf(ws).sleeping > 0
  {
    TallySplits(ws, w);
    hide TallyOf;
  }

  /** Until the last worker has exited, something other than a spurious wakeup can happen. */
  lemma ShutdownIsNeverStuck<T(!new)>(threads: nat, s: Pool<T>)
    requires Reachable(threads, s) && s.stop && !Joined(s)
    ensures exists step :: Enabled(s, step) && !step.WakeSpuriously?
  {
    ReachableInv(threads, s);
    hide TallyOf, Conserved, Covered, Reachable;
    if !s.notified {
      assert Enabled(s, NotifyAll);
    } else {
      var w :| 0 <= w < |s.workers| && !s.workers[w].Exited?;
      if s.workers[w].AtLock? {
        assert Enabled(s, Section(w));
      } else if s.workers[w].Running? {
        assert Enabled(s, Finish(w));
      } else {
        SleeperCounts(s.workers, w);
      }
    }
  }

  lemma {:induction false} AllExited<T>(ws: seq<Phase<T>>)
    requires forall w | 0 <= w < |ws| :: ws[w].Exited?
    ensures TallyOf(ws) == Tally(0, 0, multiset{}, |ws|)
  {
    if ws != [] {
      AllExited(ws[1..]);
    }
  }

  lemma JoinedPool<T>(s: Pool<T>)
    requires Inv(s) && Joined(s) && s.workers != []
    ensures s.queue == [] && s.started == s.enqueued && multiset(s.done) == multiset(s.enqueued)
  {
    AllExited(s.workers);
    hide TallyOf;
    assert s.started + [] == s.started;
  }

  /** After the last join every task has run exactly once, provided there was a worker to run it. */
  lemma JoinedMeansDone<T(!new)>(threads: nat, s: Pool<T>)
    requires Reachable(threads, s) && Joined(s)
    ensures multiset(s.done) == multiset(s.enqueued) <==> threads > 0 || s.enqueued == []
    ensures threads > 0 ==> s.queue == [] && s.started == s.enqueued
  {
    ReachableInv(threads, s);
    if threads > 0 {
      JoinedPool(s);
    } else {
      AllExited(s.workers);
      hide TallyOf;
      assert multiset(s.done) == multiset{};
      if s.enqueued != [] {
        assert s.enqueued[0] in multiset(s.enqueued);
      }
    }
  }

  /** While the pool is open: when no worker is at the lock or running and no notification is due, all is done. */
  lemma QuietMeansDone<T(!new)>(threads: nat, s: Pool<T>)
    requires Reachable(threads, s) && threads > 0
    requires forall step :: Enabled(s, step) ==> step.Push? || step.SetStop? || step.WakeSpuriously?
    ensures multiset(s.done) == multiset(s.enqueued)
  {
    ReachableInv(threads, s);
    hide Inv;
    NothingPending(s);
    forall w | 0 <= w < |s.workers| ensures s.workers[w].Sleeping? || s.workers[w].Exited? {
      assert !Enabled(s, Section(w)) && !Enabled(s, Finish(w));
    }
    NobodyAwake(s.workers);
    QuietPool(s);
  }

  lemma NothingPending<T(!new)>(s: Pool<T>)
    requires forall step :: Enabled(s, step) ==> step.Push? || step.SetStop? || step.WakeSpuriously?
    ensures s.pending == 0
  {
    if s.pending > 0 {
      assert !Enabled(s, NotifyNobody);
      var w :| 0 <= w < |s.workers| && s.workers[w] == Sleeping;
      assert Enabled(s, NotifyOne(w));
    }
  }

  lemma QuietPool<T>(s: Pool<T>)
    requires Inv(s) && s.workers != [] && s.pending == 0
    requires TallyOf(s.workers).atLock == 0 && TallyOf(s.workers).running == multiset{}
    ensures multiset(s.done) == multiset(s.enqueued)
  {
    TallyTotal(s.workers);
    hide TallyOf;
    assert multiset(s.enqueued) == multiset(s.started) + multiset(s.queue);
    assert s.queue == [];
  }
}
