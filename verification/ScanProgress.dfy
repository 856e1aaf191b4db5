/** A scan never gets stuck and takes a bounded number of steps, apart from spurious wakeups. */
module ScanProgress {
  import opened Sequences
  import opened ThreadPool
  import opened ScanServer
  import opened ScanInvariants
  import opened ScanResult

  // ---- something can always happen ----

  predicate IsSpurious(step: ServerStep) {
    step.PoolMoves? && step.step.WakeSpuriously?
  }

  /** An exception of the scan thread leaves one of its calls. */
  predicate Throws(step: ServerStep) {
    step.EnqueueThrows? || step.ReportThrows? || step.SaveThrows?
  }

  /** No exception is on its way out, and none has ended the scan. */
  predicate Fine(s: Server) {
    s.main != Closing(true) && s.main != Collecting(true) && s.status != ERROR
  }

  ghost predicate CanGoOn(c: Scan, s: Server) {
    exists step :: May(c, s, step) && !IsSpurious(step) && (Fine(s) ==> !Throws(step))
  }

  lemma NotifyGoesOn(c: Scan, s: Server)
    requires s.pool.pending > 0
    ensures CanGoOn(c, s)
  {
    if forall w | 0 <= w < |s.pool.workers| :: s.pool.workers[w] != Sleeping {
      assert May(c, s, PoolMoves(NotifyNobody));
    } else {
      var w :| 0 <= w < |s.pool.workers| && s.pool.workers[w] == Sleeping;
      assert May(c, s, PoolMoves(NotifyOne(w)));
    }
  }

  lemma TaskGoesOn(c: Scan, s: Server, w: nat)
    requires w < |s.pool.workers| && s.pool.workers[w].Running? && ListsMatch(c, s, s.pool.workers[w].task)
    ensures CanGoOn(c, s)
  {
    var p := s.pool.workers[w].task;
    match StageOf(s, p)
    case Fresh =>
      if c.probe(p).Open? {
        assert May(c, s, ShowOpen(w));
      } else {
        assert May(c, s, Count(w));
      }
    case Shown => assert May(c, s, Keep(w));
    case Kept => assert May(c, s, Count(w));
    case Counted => assert May(c, s, PoolMoves(Finish(w)));
  }

  lemma ShutdownGoesOn(c: Scan, s: Server)
    requires ServerInv(c, s) && s.main.Closing? && s.pool.pending == 0
    ensures CanGoOn(c, s)
  {
    hide TallyOf, Conserved, Covered, Logged, Taken, Fed, CanGoOn, StageOf;
    if !s.pool.stop {
      assert May(c, s, PoolMoves(SetStop));
      GoesOn(c, s, PoolMoves(SetStop));
    } else if !s.pool.notified {
      assert May(c, s, PoolMoves(NotifyAll));
      GoesOn(c, s, PoolMoves(NotifyAll));
    } else if Joined(s.pool) {
      GoesOn(c, s, Join);
    } else {
      var w :| 0 <= w < |s.pool.workers| && !s.pool.workers[w].Exited?;
      if s.pool.workers[w].Sleeping? {
        SleeperCounts(s.pool.workers, w);
        assert false;
      } else if s.pool.workers[w].AtLock? {
        assert May(c, s, PoolMoves(Section(w)));
        GoesOn(c, s, PoolMoves(Section(w)));
      } else {
        assert ListsMatch(c, s, s.pool.workers[w].task);
        TaskGoesOn(c, s, w);
      }
    }
  }

  lemma GoesOn(c: Scan, s: Server, step: ServerStep)
    requires May(c, s, step) && !IsSpurious(step) && (Fine(s) ==> !Throws(step))
    ensures CanGoOn(c, s)
  {
  }

  /** Until the scan thread has finished, some thread can move without waiting for a spurious wakeup, and without an
      exception unless there has been one. */
  lemma NeverStuck(c: Scan, s: Server)
    requires Occurs(c, s) && !s.main.Finished?
    ensures exists step :: May(c, s, step) && !IsSpurious(step) && (Fine(s) ==> !Throws(step))
  {
    AlwaysInv(c, s);
    hide Occurs;
    GoesOnAnyway(c, s);
  }

  lemma GoesOnAnyway(c: Scan, s: Server)
    requires ServerInv(c, s) && !s.main.Finished?
    ensures CanGoOn(c, s)
  {
    hide CanGoOn;
    if s.pool.pending > 0 {
      NotifyGoesOn(c, s);
    } else if s.main.Closing? {
      ShutdownGoesOn(c, s);
    } else {
      hide Inv, Logged, Staged, Taken, Fed;
      GoesOn(c, s, match s.main
                   case Queued => Launch
                   case Filling => if s.filled < c.limit then Enqueue else EndOfRange
                   case _ => if s.main == Collecting(false) then Report else ReportThrows);
    }
  }

  // ---- and not for ever ----

  function PhaseWork(s: Server): nat {
    match s.main
    case Queued => 5
    case Filling => 4
    case Closing(_) => 3
    case Collecting(_) => 2
    case Finished => if s.status == DONE then 1 else 0
  }

  function Size(c: Scan): nat {
    if c.first <= c.limit then c.limit - c.first else 0
  }

  ghost function PoolWork(pool: Pool<nat>): nat {
    var t := TallyOf(pool.workers);
    2 * t.atLock + t.sleeping + 3 * |t.running| + 2 * |pool.queue| + 2 * pool.pending
    + (if pool.notified then 0 else |pool.workers| + 1) + (if pool.stop then 0 else 1)
  }

  /** Work left for the scan thread and for the tasks. */
  function ScanWork(c: Scan, s: Server): int {
    5 * (if s.filled < c.limit then c.limit - s.filled else 0) + PhaseWork(s)
    + 3 * Size(c) - |s.shown| - |s.kept| - |s.counted|
  }

  ghost function Work(c: Scan, s: Server): int {
    PoolWork(s.pool) + ScanWork(c, s)
  }

  lemma SectionWork(pool: Pool<nat>, w: nat)
    requires Enabled(pool, Section(w))
    ensures PoolWork(Apply(pool, Section(w))) < PoolWork(pool)
  {
    hide TallyOf;
    var e := Apply(pool, Section(w));
    var others := TallyReplaced(pool.workers, w, e.workers[w]);
  }

  lemma WakeWork(pool: Pool<nat>, w: nat, step: Step<nat>)
    requires Enabled(pool, step) && (step == NotifyOne(w) || step == WakeSpuriously(w) || step == Finish(w))
    ensures PoolWork(Apply(pool, step)) <= PoolWork(pool) + (if step.WakeSpuriously? then 1 else -1)
  {
    hide TallyOf;
    var others := TallyReplaced(pool.workers, w, AtLock);
  }

  lemma NotifyAllWork(pool: Pool<nat>)
    requires Enabled(pool, NotifyAll)
    ensures PoolWork(Apply(pool, NotifyAll)) < PoolWork(pool)
  {
    TallyWoken(pool.workers);
    TallyTotal(pool.workers);
    hide TallyOf, WakeAll;
  }

  lemma PoolMoveWork(pool: Pool<nat>, step: Step<nat>)
    requires Enabled(pool, step) && !step.Push?
    ensures PoolWork(Apply(pool, step)) <= PoolWork(pool) + (if step.WakeSpuriously? then 1 else -1)
  {
    hide TallyOf;
    match step
    case Section(w) => SectionWork(pool, w);
    case Finish(w) => WakeWork(pool, w, step);
    case NotifyOne(w) => WakeWork(pool, w, step);
    case WakeSpuriously(w) => WakeWork(pool, w, step);
    case NotifyAll => NotifyAllWork(pool);
    case NotifyNobody =>
    case SetStop =>
  }

  lemma EnqueueWork(c: Scan, s: Server)
    requires May(c, s, Enqueue)
    ensures Work(c, Do(c, s, Enqueue)) < Work(c, s)
  {
    hide TallyOf;
  }

  lemma OtherWork(c: Scan, s: Server, step: ServerStep)
    requires May(c, s, step) && Phased(c, s) && !step.PoolMoves? && !step.Enqueue?
    ensures Do(c, s, step).pool == s.pool && ScanWork(c, Do(c, s, step)) < ScanWork(c, s)
  {
    hide Joined;
  }

  /** Every step but a spurious wakeup leaves less work; a spurious wakeup adds one unit. */
  lemma StepsWork(c: Scan, s: Server, step: ServerStep)
    requires May(c, s, step) && Phased(c, s)
    ensures Work(c, Do(c, s, step)) <= Work(c, s) + (if IsSpurious(step) then 1 else -1)
  {
    if step.PoolMoves? {
      hide PoolWork, Apply, Joined, Phased;
      PoolMoveWork(s.pool, step.step);
    } else {
      hide PoolWork, ScanWork, Do, May, Phased;
      if step.Enqueue? {
        EnqueueWork(c, s);
      } else {
        OtherWork(c, s, step);
      }
    }
  }

  function SpuriousIn(steps: seq<ServerStep>): nat {
    if steps == [] then 0 else (if IsSpurious(steps[0]) then 1 else 0) + SpuriousIn(steps[1..])
  }

  lemma {:induction false} RunWork(c: Scan, s: Server, steps: seq<ServerStep>, e: Server)
    requires ServerInv(c, s) && RunsTo(c, s, steps, e)
    ensures |steps| + Work(c, e) <= Work(c, s) + 2 * SpuriousIn(steps)
    decreases |steps|
  {
    hide ServerInv, Work, May, Do, IsSpurious;
    if steps != [] {
      PhasedIn(c, s);
      StepsWork(c, s, steps[0]);
      DoInv(c, s, steps[0]);
      RunWork(c, Do(c, s, steps[0]), steps[1..], e);
    }
  }

  lemma PhasedIn(c: Scan, s: Server)
    requires ServerInv(c, s)
    ensures Phased(c, s)
  {
  }

  /** A list of distinct ports of the range is no longer than the range. */
  lemma {:induction false} Fits(ps: seq<nat>, a: nat, b: nat)
    requires Distinct(ps) && a <= b && forall p | p in ps :: a <= p < b
    ensures |ps| <= b - a
  {
    BetweenHolds(a, b);
    var range := Between(a, b);
    hide Between;
    var m: multiset<nat>, r: multiset<nat> := multiset(ps), multiset(range);
    forall p: nat ensures m[p] <= r[p] {
      DistinctCount(ps, p);
      DistinctCount(range, p);
    }
    assert r == m + (r - m);
    assert |m| == |ps| && |r| == |range|;
  }

  lemma WorkIsNotNegative(c: Scan, s: Server)
    requires ServerInv(c, s)
    ensures Work(c, s) >= 0
  {
    var b := c.first + Size(c);
    ListsInRange(c, s);
    hide ServerInv, PoolWork, Distinct;
    Fits(s.shown, c.first, b);
    Fits(s.kept, c.first, b);
    Fits(s.counted, c.first, b);
  }

  lemma ListsInRange(c: Scan, s: Server)
    requires ServerInv(c, s)
    ensures var b := c.first + Size(c);
            && Distinct(s.shown) && Distinct(s.kept) && Distinct(s.counted)
            && (forall p | p in s.shown :: c.first <= p < b)
            && (forall p | p in s.kept :: c.first <= p < b)
            && (forall p | p in s.counted :: c.first <= p < b)
  {
    hide Logged, Phased;
    BetweenHolds(c.first, s.filled);
    EnqueuedHoldsStarted(s.pool);
    hide Inv, Between, StageOf, Distinct;
    forall p: nat | p in s.shown || p in s.kept || p in s.counted ensures c.first <= p < c.first + Size(c) {
      assert ListsMatch(c, s, p);
      assert p in s.pool.started;
    }
  }

  lemma EnqueuedHoldsStarted(pool: Pool<nat>)
    requires Inv(pool)
    ensures forall p | p in pool.started :: p in pool.enqueued
  {
  }

  /** Any run of the scan, complete or not, however the threads are scheduled. */
  lemma ScanIsBounded(c: Scan, steps: seq<ServerStep>, s: Server)
    requires RunsTo(c, Begin(c), steps, s)
    ensures |steps| <= 8 * Size(c) + 3 * c.threads + 7 + 2 * SpuriousIn(steps)
  {
    BeginInv(c);
    BeginWork(c);
    hide ServerInv, Work, RunsTo, SpuriousIn;
    var b := Begin(c);
    RunWork(c, b, steps, s);
    assert ServerInv(c, s) by {
      RunsToInv(c, b, steps, s);
    }
    WorkIsNotNegative(c, s);
  }

  lemma BeginWork(c: Scan)
    ensures Work(c, Begin(c)) == 8 * Size(c) + 3 * c.threads + 7
  {
    TallyStart(Begin(c).pool.workers);
    hide TallyOf;
  }

  // ---- and it can succeed ----

  ghost predicate NoneThrows(steps: seq<ServerStep>) {
    forall k | 0 <= k < |steps| :: !Throws(steps[k])
  }

  /** Where the scan thread is, the status says: running until the end, then done or failed. */
  ghost predicate Told(s: Server) {
    && (s.main.Queued? ==> s.status == 0)
    && (s.main.Filling? || s.main.Closing? || s.main.Collecting? ==> s.status == RUNNING)
    && (s.main.Finished? ==> s.status == DONE || s.status == ERROR)
  }

  lemma StepTells(c: Scan, s: Server, step: ServerStep)
    requires Told(s) && May(c, s, step)
    ensures Told(Do(c, s, step)) && (Fine(Do(c, s, step)) <==> Fine(s) && !Throws(step))
  {
  }

  lemma {:induction false} RunTells(c: Scan, s: Server, steps: seq<ServerStep>, e: Server)
    requires Told(s) && RunsTo(c, s, steps, e)
    ensures Told(e) && (Fine(e) <==> Fine(s) && NoneThrows(steps))
    decreases |steps|
  {
    hide Told, Fine, Throws, May, Do;
    if steps != [] {
      StepTells(c, s, steps[0]);
      RunTells(c, Do(c, s, steps[0]), steps[1..], e);
      assert steps == [steps[0]] + steps[1..];
    }
  }

  /** When the scan thread has finished, the status is "done" exactly if no exception has left one of its calls, and
      "error" otherwise. */
  lemma StatusTells(c: Scan, steps: seq<ServerStep>, s: Server)
    requires RunsTo(c, Begin(c), steps, s) && s.main.Finished?
    ensures s.status == if NoneThrows(steps) then DONE else ERROR
  {
    hide RunsTo;
    RunTells(c, Begin(c), steps, s);
  }

  /** From every state that is fine the scan can go on to its successful end. */
  lemma {:induction false} CanComplete(c: Scan, s: Server) returns (steps: seq<ServerStep>, e: Server)
    requires ServerInv(c, s) && Told(s) && Fine(s)
    ensures RunsTo(c, s, steps, e) && NoneThrows(steps) && e.main.Finished? && e.status == DONE
    decreases Work(c, s)
  {
    hide ServerInv, May, Do, Work, Throws, RunsTo, Phased;
    if s.main.Finished? {
      steps, e := [], s;
      NoStep(c, s);
    } else {
      GoesOnAnyway(c, s);
      var step :| May(c, s, step) && !IsSpurious(step) && (Fine(s) ==> !Throws(step));
      WorkIsNotNegative(c, s);
      PhasedIn(c, s);
      StepsWork(c, s, step);
      StepTells(c, s, step);
      DoInv(c, s, step);
      var rest;
      rest, e := CanComplete(c, Do(c, s, step));
      steps := [step] + rest;
      OneStepMore(c, s, step, rest, e);
    }
  }

  lemma NoStep(c: Scan, s: Server)
    ensures RunsTo(c, s, [], s) && NoneThrows([])
  {
  }

  lemma OneStepMore(c: Scan, s: Server, step: ServerStep, rest: seq<ServerStep>, e: Server)
    requires May(c, s, step) && RunsTo(c, Do(c, s, step), rest, e) && !Throws(step) && NoneThrows(rest)
    ensures RunsTo(c, s, [step] + rest, e) && NoneThrows([step] + rest)
  {
    hide May, Do, Throws;
    assert ([step] + rest)[1..] == rest;
  }

  /** So every scan can succeed, and then it has collected its result without an exception. */
  lemma ScanCanSucceed(c: Scan) returns (steps: seq<ServerStep>, e: Server)
    ensures RunsTo(c, Begin(c), steps, e) && NoneThrows(steps) && e.main.Finished? && e.status == DONE
  {
    BeginInv(c);
    hide ServerInv, RunsTo;
    steps, e := CanComplete(c, Begin(c));
  }
}
