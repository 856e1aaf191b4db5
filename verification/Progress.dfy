/** The command-line progress bar: concurrent ticks that publish a growing percentage with a compare-exchange loop. An
    int has 32 bits; a product that does not fit is undefined in C++ and wraps around here, as the machine does it. */
module Progress {
  import opened Arithmetic
  import opened Sequences

  const LIMIT := 0x8000_0000

  type Int32 = x: int | -LIMIT <= x < LIMIT

  function Wrap(x: int): Int32 {
    (x + LIMIT) % (2 * LIMIT) - LIMIT
  }

  /** Division rounds towards zero. */
  function Quotient(a: int, b: int): int
    requires b > 0
  {
    if a >= 0 then a / b else -(-a / b)
  }

  /** What tick computes from the counter. */
  function PercentOf(total: Int32, done: Int32): int {
    if total > 0 then Quotient(Wrap(done * 100), total) else 100
  }

  predicate OverflowsOf(total: Int32, done: Int32) {
    total > 0 && !(-LIMIT <= done * 100 < LIMIT)
  }

  /** The same after n ticks: the counter is atomic and wraps around. */
  function Percent(total: Int32, n: nat): int {
    PercentOf(total, Wrap(n))
  }

  predicate Overflows(total: Int32, n: nat) {
    OverflowsOf(total, Wrap(n))
  }

  /** The share of the work done. */
  function Share(total: Int32, n: nat): int {
    if total > 0 then n * 100 / total else 100
  }

  /** The largest count whose product with 100 is an int. */
  const SAFE := 21_474_836

  /** Where one call of tick is; `done` is the number of increments up to its own. Trying holds the value its
      compare-exchange expects; Printing has published. */
  datatype Tick =
    | NotStarted
    | Incremented(done: nat)
    | Trying(done: nat, expected: int)
    | Printing(done: nat)
    | Finished(done: nat)

  /** `completed` is the number of increments; the counter holds it wrapped. `published` is history: the values of the
      successful exchanges. `printed` is the output. */
  datatype Bar = Bar(total: Int32, completed: nat, lastPercent: int, ticks: seq<Tick>, published: seq<int>,
      printed: seq<int>)

  /** One atomic operation of tick k. Exchange may fail spuriously, so failure is possible at any time. */
  datatype Step =
    | Increment(k: nat)
    | Load(k: nat)
    | Exchange(k: nat)
    | ExchangeFails(k: nat)
    | Leave(k: nat)
    | Print(k: nat)

  function Begin(total: Int32, calls: nat): Bar {
    Bar(total, 0, -1, seq(calls, _ => NotStarted), [], [])
  }

  predicate Wants(b: Bar, t: Tick) {
    t.Trying? && Percent(b.total, t.done) > t.expected
  }

  predicate Enabled(b: Bar, step: Step) {
    && step.k < |b.ticks|
    && var t := b.ticks[step.k];
       match step
       case Increment(_) => t.NotStarted?
       case Load(_) => t.Incremented?
       case Exchange(_) => Wants(b, t) && b.lastPercent == t.expected
       case ExchangeFails(_) => Wants(b, t)
       case Leave(_) => t.Trying? && !Wants(b, t)
       case Print(_) => t.Printing?
  }

  function Apply(b: Bar, step: Step): Bar
    requires Enabled(b, step)
  {
    var k := step.k;
    var t := b.ticks[k];
    match step
    case Increment(_) => b.(completed := b.completed + 1, ticks := b.ticks[k := Incremented(b.completed + 1)])
    case Load(_) => b.(ticks := b.ticks[k := Trying(t.done, b.lastPercent)])
    case Exchange(_) =>
      var p := Percent(b.total, t.done);
      b.(lastPercent := p, published := b.published + [p], ticks := b.ticks[k := Printing(t.done)])
    case ExchangeFails(_) => b.(ticks := b.ticks[k := Trying(t.done, b.lastPercent)])
    case Leave(_) => b.(ticks := b.ticks[k := Finished(t.done)])
    case Print(_) => b.(printed := b.printed + [Percent(b.total, t.done)], ticks := b.ticks[k := Finished(t.done)])
  }

  ghost predicate Leads(b: Bar, steps: seq<Step>, e: Bar)
    decreases |steps|
  {
    if steps == [] then b == e else Enabled(b, steps[0]) && Leads(Apply(b, steps[0]), steps[1..], e)
  }

  // ---- invariants ----

  lemma ShareGrows(total: Int32, a: nat, b: nat)
    requires a <= b
    ensures Share(total, a) <= Share(total, b)
  {
    if total > 0 {
      DivisionGrows(a * 100, b * 100, total);
    }
  }

  lemma WrapFits(x: int)
    requires -LIMIT <= x < LIMIT
    ensures Wrap(x) == x
  {
  }

  lemma ProductBelow(n: nat)
    ensures Wrap(Wrap(n) * 100) <= n * 100
    ensures n <= SAFE ==> Wrap(Wrap(n) * 100) == n * 100
  {
    var product := Wrap(Wrap(n) * 100);
    if n <= SAFE {
      WrapFits(n);
      WrapFits(n * 100);
    } else if n < LIMIT {
      WrapFits(n);
    }
    hide Wrap;
  }

  /** Wrapping around only ever loses. */
  lemma PercentBelowShare(total: Int32, n: nat)
    ensures Percent(total, n) <= Share(total, n)
    ensures n <= SAFE ==> Percent(total, n) == Share(total, n)
  {
    hide Wrap;
    ProductBelow(n);
    var product := Wrap(Wrap(n) * 100);
    if total > 0 {
      QuotientGrows(product, n * 100, total);
    }
  }

  lemma QuotientGrows(x: int, y: nat, d: nat)
    requires x <= y && d > 0
    ensures Quotient(x, d) <= y / d
  {
    if x >= 0 {
      DivisionGrows(x, y, d);
    }
  }

  lemma DivisionGrows(x: nat, y: nat, d: nat)
    requires x <= y && d > 0
    ensures x / d <= y / d
  {
    if y / d < x / d {
      ProductGrows(d, y / d, x / d);
    }
  }

  /** The published values grow strictly and the last of them is the current one, never ahead of the ticks. */
  ghost predicate Published(b: Bar) {
    && Increasing(b.published)
    && b.lastPercent == (if b.published == [] then -1 else b.published[|b.published| - 1])
    && (b.published != [] ==> b.lastPercent <= Share(b.total, b.completed))
  }

  /** A tick past its loop has seen at least its own percentage published. */
  ghost predicate TickInv(b: Bar, t: Tick) {
    && (!t.NotStarted? ==> 1 <= t.done <= b.completed)
    && (t.Trying? ==> t.expected <= b.lastPercent)
    && (t.Printing? || t.Finished? ==> Percent(b.total, t.done) <= b.lastPercent)
  }

  ghost predicate Counted(b: Bar) {
    forall k | 0 <= k < |b.ticks| :: TickInv(b, b.ticks[k])
  }

  /** Each number up to the counter belongs to a tick, there are as many of these, and the bar stands at the percentage
      of one of them. */
  ghost predicate Accounted(b: Bar) {
    && (forall n | 1 <= n <= b.completed :: Taken(b.ticks, n))
    && b.completed == Started(b.ticks)
    && (b.published != [] ==> Stands(b.total, b.completed, b.lastPercent))
  }

  ghost predicate Stands(total: Int32, completed: nat, percent: int) {
    exists n :: 1 <= n <= completed && percent == Percent(total, n)
  }

  ghost predicate Taken(ticks: seq<Tick>, n: nat) {
    exists k :: 0 <= k < |ticks| && !ticks[k].NotStarted? && ticks[k].done == n
  }

  function Started(ticks: seq<Tick>): nat {
    if ticks == [] then 0
    else
      var n := |ticks| - 1;
      Started(ticks[..n]) + if ticks[n].NotStarted? then 0 else 1
  }

  /** What the ticks that have published still have to print. */
  function Owed(total: Int32, ticks: seq<Tick>): multiset<int> {
    if ticks == [] then multiset{}
    else Owed(total, ticks[..|ticks| - 1]) + Due(total, ticks[|ticks| - 1])
  }

  function Due(total: Int32, t: Tick): multiset<int> {
    if t.Printing? then multiset{Percent(total, t.done)} else multiset{}
  }

  ghost predicate Inv(b: Bar) {
    Published(b) && Counted(b) && Accounted(b)
    && multiset(b.printed) + Owed(b.total, b.ticks) == multiset(b.published)
  }

  lemma OwedAppend(total: Int32, ticks: seq<Tick>, t: Tick)
    ensures Owed(total, ticks + [t]) == Owed(total, ticks) + Due(total, t)
  {
    assert (ticks + [t])[..|ticks|] == ticks;
  }

  lemma {:induction false} OwedReplaced(total: Int32, ticks: seq<Tick>, k: nat, t: Tick)
    requires k < |ticks|
    ensures Owed(total, ticks[k := t]) + Due(total, ticks[k]) == Owed(total, ticks) + Due(total, t)
  {
    hide Due, Owed;
    var n := |ticks| - 1;
    var before, last := ticks[..n], ticks[n];
    assert ticks == before + [last];
    OwedAppend(total, before, last);
    if k == n {
      assert ticks[k := t] == before + [t];
      OwedAppend(total, before, t);
    } else {
      assert ticks[k := t] == before[k := t] + [last];
      OwedReplaced(total, before, k, t);
      OwedAppend(total, before[k := t], last);
    }
  }

  lemma StartedAppend(ticks: seq<Tick>, t: Tick)
    ensures Started(ticks + [t]) == Started(ticks) + if t.NotStarted? then 0 else 1
  {
    assert (ticks + [t])[..|ticks|] == ticks;
  }

  lemma {:induction false} StartedReplaced(ticks: seq<Tick>, k: nat, t: Tick)
    requires k < |ticks| && !t.NotStarted?
    ensures Started(ticks[k := t]) == Started(ticks) + if ticks[k].NotStarted? then 1 else 0
  {
    hide Started;
    var n := |ticks| - 1;
    var before, last := ticks[..n], ticks[n];
    assert ticks == before + [last];
    StartedAppend(before, last);
    if k == n {
      assert ticks[k := t] == before + [t];
      StartedAppend(before, t);
    } else {
      assert ticks[k := t] == before[k := t] + [last];
      StartedReplaced(before, k, t);
      StartedAppend(before[k := t], last);
    }
  }

  lemma {:induction false} NoneStarted(ticks: seq<Tick>)
    requires forall k | 0 <= k < |ticks| :: ticks[k].NotStarted?
    ensures Started(ticks) == 0
  {
    if ticks != [] {
      NoneStarted(ticks[..|ticks| - 1]);
    }
  }

  lemma {:induction false} AllStarted(ticks: seq<Tick>)
    requires forall k | 0 <= k < |ticks| :: !ticks[k].NotStarted?
    ensures Started(ticks) == |ticks|
  {
    if ticks != [] {
      AllStarted(ticks[..|ticks| - 1]);
    }
  }

  lemma StillTaken(ticks: seq<Tick>, k: nat, t: Tick, n: nat)
    requires k < |ticks| && !t.NotStarted? && (ticks[k].NotStarted? || t.done == ticks[k].done)
    requires Taken(ticks, n) || t.done == n
    ensures Taken(ticks[k := t], n)
  {
    var after := ticks[k := t];
    if t.done == n {
      assert !after[k].NotStarted?;
    } else {
      var j :| 0 <= j < |ticks| && !ticks[j].NotStarted? && ticks[j].done == n;
      assert !after[j].NotStarted? && after[j].done == n;
    }
  }

  lemma {:induction false} NothingOwed(total: Int32, ticks: seq<Tick>)
    requires forall k | 0 <= k < |ticks| :: !ticks[k].Printing?
    ensures Owed(total, ticks) == multiset{}
  {
    if ticks != [] {
      NothingOwed(total, ticks[..|ticks| - 1]);
    }
  }

  lemma BeginInv(total: Int32, calls: nat)
    ensures Inv(Begin(total, calls))
  {
    NothingOwed(total, Begin(total, calls).ticks);
    NoneStarted(Begin(total, calls).ticks);
    hide Owed, Started;
  }

  lemma OutputKept(b: Bar, step: Step)
    requires Inv(b) && Enabled(b, step)
    ensures var e := Apply(b, step); multiset(e.printed) + Owed(e.total, e.ticks) == multiset(e.published)
  {
    hide Owed, Percent, Published, Counted, Accounted;
    var e := Apply(b, step);
    OwedReplaced(b.total, b.ticks, step.k, e.ticks[step.k]);
    assert e.ticks == b.ticks[step.k := e.ticks[step.k]];
    var before, after := Due(b.total, b.ticks[step.k]), Due(b.total, e.ticks[step.k]);
    assert multiset(e.published) == multiset(b.published) + after;
    assert multiset(e.printed) == multiset(b.printed) + before;
    Balance(multiset(b.printed), Owed(b.total, b.ticks), before, Owed(e.total, e.ticks), after);
  }

  lemma Balance(printed: multiset<int>, owed: multiset<int>, before: multiset<int>, owed': multiset<int>,
      after: multiset<int>)
    requires owed' + before == owed + after
    ensures printed + before + owed' == printed + owed + after
  {
    forall p ensures (printed + before + owed')[p] == (printed + owed + after)[p] {
      assert (owed' + before)[p] == (owed + after)[p];
    }
  }

  lemma PublishedKept(b: Bar, step: Step)
    requires Inv(b) && Enabled(b, step)
    ensures Published(Apply(b, step))
  {
    hide Owed, Accounted, Percent, Share;
    var t := b.ticks[step.k];
    assert TickInv(b, t);
    ShareGrows(b.total, b.completed, b.completed + 1);
    if !t.NotStarted? {
      PercentBelowShare(b.total, t.done);
      ShareGrows(b.total, t.done, b.completed);
    }
    hide Counted;
  }

  lemma CountedKept(b: Bar, step: Step)
    requires Inv(b) && Enabled(b, step)
    ensures Counted(Apply(b, step))
  {
    hide Owed, Percent, Accounted;
    var e := Apply(b, step);
    assert TickInv(b, b.ticks[step.k]);
    forall k | 0 <= k < |e.ticks| ensures TickInv(e, e.ticks[k]) {
      assert TickInv(b, b.ticks[k]);
    }
  }

  lemma AccountedKept(b: Bar, step: Step)
    requires Inv(b) && Enabled(b, step)
    ensures Accounted(Apply(b, step))
  {
    hide Owed, Percent, Published, Share, Started, Taken;
    var e := Apply(b, step);
    var t := e.ticks[step.k];
    assert TickInv(b, b.ticks[step.k]) && e.ticks == b.ticks[step.k := t];
    StartedReplaced(b.ticks, step.k, t);
    forall n | 1 <= n <= e.completed ensures Taken(e.ticks, n) {
      StillTaken(b.ticks, step.k, t, n);
    }
    hide Counted, Enabled;
  }

  lemma StepInv(b: Bar, step: Step)
    requires Inv(b) && Enabled(b, step)
    ensures Inv(Apply(b, step)) && Apply(b, step).total == b.total
  {
    OutputKept(b, step);
    PublishedKept(b, step);
    CountedKept(b, step);
    AccountedKept(b, step);
    hide Published, Counted, Accounted, Owed, Percent, Enabled;
  }

  lemma {:induction false} RunInv(b: Bar, steps: seq<Step>, e: Bar)
    requires Inv(b) && Leads(b, steps, e)
    ensures Inv(e) && e.total == b.total
    decreases |steps|
  {
    hide Inv, Apply, Enabled;
    if steps != [] {
      StepInv(b, steps[0]);
      RunInv(Apply(b, steps[0]), steps[1..], e);
    }
  }

  // ---- the main results ----

  lemma {:induction false} IncreasingCount(ps: seq<int>, p: int)
    requires Increasing(ps)
    ensures multiset(ps)[p] <= 1
  {
    if ps != [] {
      var n := |ps| - 1;
      IncreasingCount(ps[..n], p);
      assert ps == ps[..n] + [ps[n]];
    }
  }

  /** Under every interleaving: published values strictly increase, nothing is printed twice or unpublished, and the
      bar is never ahead of the work. */
  lemma NeverPrintedTwice(total: Int32, calls: nat, steps: seq<Step>, b: Bar)
    requires Leads(Begin(total, calls), steps, b)
    ensures Increasing(b.published)
    ensures forall p :: multiset(b.printed)[p] <= 1 && (p in b.printed ==> p in b.published)
    ensures b.lastPercent == -1 || b.lastPercent <= Share(total, b.completed)
  {
    BeginInv(total, calls);
    RunInv(Begin(total, calls), steps, b);
    hide Owed, Leads, Counted, Accounted, Share;
    assert multiset(b.printed) <= multiset(b.published);
    forall p ensures multiset(b.printed)[p] <= 1 && (p in b.printed ==> p in b.published) {
      IncreasingCount(b.published, p);
      if p in b.printed {
        assert p in multiset(b.printed);
        assert p in multiset(b.published);
      }
    }
  }

  /** No tick so far has computed a product that does not fit. */
  ghost predicate NoneOverflows(b: Bar) {
    forall k | 0 <= k < |b.ticks| && !b.ticks[k].NotStarted? :: !Overflows(b.total, b.ticks[k].done)
  }

  /** When every started tick has finished, the bar stands at the largest percentage that any of them computed, and
      everything published has been printed. Up to 21474836 ticks that is the share done, and with a total that is not
      positive it is 100 at once, without a product. */
  lemma EndsExact(total: Int32, calls: nat, steps: seq<Step>, b: Bar)
    requires Leads(Begin(total, calls), steps, b)
    requires forall k | 0 <= k < |b.ticks| :: b.ticks[k].NotStarted? || b.ticks[k].Finished?
    ensures forall n | 1 <= n <= b.completed :: Percent(total, n) <= b.lastPercent
    ensures b.lastPercent == -1 || Stands(total, b.completed, b.lastPercent)
    ensures 0 < b.completed <= SAFE ==> b.lastPercent == Share(total, b.completed)
    ensures total <= 0 ==> NoneOverflows(b) && (b.completed > 0 ==> b.lastPercent == 100)
    ensures multiset(b.printed) == multiset(b.published)
  {
    BeginInv(total, calls);
    RunInv(Begin(total, calls), steps, b);
    NothingOwed(total, b.ticks);
    hide Owed, Leads, Percent, Share;
    forall n | 1 <= n <= b.completed ensures Percent(total, n) <= b.lastPercent {
      assert Taken(b.ticks, n);
      var k :| 0 <= k < |b.ticks| && !b.ticks[k].NotStarted? && b.ticks[k].done == n;
      assert TickInv(b, b.ticks[k]);
    }
    if b.completed > 0 {
      EndsAtTheShare(b);
    }
  }

  lemma EndsAtTheShare(b: Bar)
    requires Published(b) && b.completed > 0 && Percent(b.total, b.completed) <= b.lastPercent
    requires b.lastPercent == -1 || Stands(b.total, b.completed, b.lastPercent)
    ensures b.completed <= SAFE ==> b.lastPercent == Share(b.total, b.completed)
    ensures b.total <= 0 ==> b.lastPercent == 100
  {
    PercentBelowShare(b.total, b.completed);
    ShareNotNegative(b.total, b.completed);
    hide Percent, Share;
    if b.total <= 0 {
      AllDone(b.total, b.completed);
    }
  }

  lemma ShareNotNegative(total: Int32, n: nat)
    ensures Share(total, n) >= 0
  {
  }

  lemma AllDone(total: Int32, n: nat)
    requires total <= 0 || n == total
    ensures Share(total, n) == 100
    ensures total <= 0 ==> Percent(total, n) == 100
  {
    if total > 0 {
      Cancel(total, 100);
      var product := n * 100;
      assert product == total * 100 && product / total == 100;
    }
  }

  /** The product does not fit from the count on that SAFE precedes. */
  lemma SafeIsExact(total: Int32, n: nat)
    requires total > 0
    ensures n <= SAFE ==> !Overflows(total, n)
    ensures Overflows(total, SAFE + 1)
  {
    WrapFits(SAFE + 1);
    if n <= SAFE {
      WrapFits(n);
    }
    hide Wrap;
  }

  /** And with a larger total no percentage reaches 100. */
  lemma BelowHundred(total: Int32, n: nat)
    requires total > SAFE
    ensures Percent(total, n) < 100
  {
    hide Wrap, Quotient;
    QuotientBelow(Wrap(Wrap(n) * 100), total);
  }

  lemma QuotientBelow(x: int, d: int)
    requires x < LIMIT && d > SAFE
    ensures Quotient(x, d) < 100
  {
    if x >= 0 {
      var q := x / d;
      if q >= 100 {
        DivisionIsBelow(x, d, q);
        ProductAtLeast(d, q);
      }
    }
  }

  lemma ProductAtLeast(d: nat, q: nat)
    requires q >= 100
    ensures d * q >= d * 100
  {
    if q > 100 {
      ProductGrows(d, 100, q);
    }
  }

  lemma DivisionIsBelow(x: nat, d: nat, q: nat)
    requires d > 0 && q <= x / d
    ensures d * q <= x
  {
    DivMod(x, d);
    if q < x / d {
      ProductGrows(d, q, x / d);
    }
  }

  /** A bar whose total is the number of its ticks, as the scan sets it up, ends at 100 exactly if the total is at most
      21474836, and exactly then no product overflows. */
  lemma EndsAtHundredIff(total: Int32, steps: seq<Step>, b: Bar)
    requires total > 0 && Leads(Begin(total, total), steps, b)
    requires forall k | 0 <= k < |b.ticks| :: b.ticks[k].Finished?
    ensures b.completed == total
    ensures b.lastPercent == 100 <==> total <= SAFE
    ensures NoneOverflows(b) <==> total <= SAFE
  {
    EndsExact(total, total, steps, b);
    BeginInv(total, total);
    RunInv(Begin(total, total), steps, b);
    AllStarted(b.ticks);
    TicksKept(Begin(total, total), steps, b);
    AllDone(total, total);
    hide Owed, Leads, Percent, Share, Overflows, Started, Published;
    forall n: nat ensures total > SAFE ==> Percent(total, n) < 100 {
      if total > SAFE {
        BelowHundred(total, n);
      }
    }
    if total <= SAFE {
      forall k | 0 <= k < |b.ticks| ensures !Overflows(total, b.ticks[k].done) {
        assert TickInv(b, b.ticks[k]);
        SafeIsExact(total, b.ticks[k].done);
      }
    } else {
      SafeIsExact(total, 0);
      assert Taken(b.ticks, SAFE + 1);
    }
  }

  lemma {:induction false} TicksKept(b: Bar, steps: seq<Step>, e: Bar)
    requires Leads(b, steps, e)
    ensures |e.ticks| == |b.ticks|
    decreases |steps|
  {
    hide Percent;
    if steps != [] {
      TicksKept(Apply(b, steps[0]), steps[1..], e);
    }
  }

  lemma LargePercents()
    ensures forall n: nat :: Percent(33_554_432, n) <= 63
    ensures Percent(33_554_432, SAFE) == 63 && Percent(33_554_432, 33_554_432) == -28
  {
    forall n: nat ensures Percent(33_554_432, n) <= 63 {
      QuotientGrows(Wrap(Wrap(n) * 100), LIMIT - 1, 33_554_432);
    }
  }

  /** All ports of the 512 hosts of a /23: the bar stops at 63, and the last tick computes -28. */
  lemma LargeScan(total: Int32, steps: seq<Step>, b: Bar)
    requires total == 512 * 65536 && Leads(Begin(total, total), steps, b)
    requires forall k | 0 <= k < |b.ticks| :: b.ticks[k].Finished?
    ensures b.lastPercent == 63 && Percent(total, total) == -28 && b.completed == total
  {
    hide Leads, Share, Percent;
    LargePercents();
    EndsExact(total, total, steps, b);
    EndsAtHundredIff(total, steps, b);
  }

  lemma Cancel(d: nat, q: nat)
    requires d > 0
    ensures d * q / d == q
  {
    var r := d * q / d;
    if r < q {
      ProductGrows(d, r, q);
    } else if r > q {
      ProductGrows(d, q, r);
    }
  }
}
