/** The result of a scan does not depend on how its threads interleave. */
module ScanResult {
  import opened Sequences
  import opened Findings
  import opened DedupProperties
  import opened PortTask
  import opened ThreadPool
  import opened ScanServer
  import opened ScanInvariants

  // ---- lists of distinct ports ----

  lemma {:induction false} DistinctCount(ps: seq<nat>, p: nat)
    requires Distinct(ps)
    ensures multiset(ps)[p] == if p in ps then 1 else 0
  {
    if ps != [] {
      var n := |ps| - 1;
      DistinctCount(ps[..n], p);
      assert ps == ps[..n] + [ps[n]];
    }
  }

  lemma SameMembers(ps: seq<nat>, qs: seq<nat>)
    requires Distinct(ps) && Distinct(qs) && forall p: nat :: p in ps <==> p in qs
    ensures multiset(ps) == multiset(qs)
  {
    forall p: nat ensures multiset(ps)[p] == multiset(qs)[p] {
      DistinctCount(ps, p);
      DistinctCount(qs, p);
    }
  }

  lemma {:induction false} BetweenHolds(a: nat, b: nat)
    ensures Distinct(Between(a, b)) && forall p: nat :: p in Between(a, b) <==> a <= p < b
    ensures a <= b ==> |Between(a, b)| == b - a
  {
    if a < b {
      BetweenHolds(a, b - 1);
      DistinctAppend(Between(a, b - 1), b - 1);
    }
  }

  lemma {:induction false} OpenPortsHold(c: Scan, a: nat, b: nat)
    ensures Distinct(OpenPorts(c, a, b)) && forall p: nat :: p in OpenPorts(c, a, b) <==> a <= p < b && c.probe(p).Open?
  {
    if a < b {
      OpenPortsHold(c, a, b - 1);
      if c.probe(b - 1).Open? {
        DistinctAppend(OpenPorts(c, a, b - 1), b - 1);
      }
    }
  }

  // ---- the vectors are the same in every order, as multisets ----

  function Gather<T>(f: nat -> seq<T>, ps: seq<nat>): seq<T> {
    if ps == [] then [] else Gather(f, ps[..|ps| - 1]) + f(ps[|ps| - 1])
  }

  lemma GatherAppend<T>(f: nat -> seq<T>, ps: seq<nat>, p: nat)
    ensures multiset(Gather(f, ps + [p])) == multiset(Gather(f, ps)) + multiset(f(p))
  {
    assert (ps + [p])[..|ps|] == ps;
  }

  lemma {:induction false} GatherRemove<T>(f: nat -> seq<T>, ps: seq<nat>, i: nat)
    requires i < |ps|
    ensures multiset(Gather(f, ps)) == multiset(Gather(f, ps[..i] + ps[i + 1..])) + multiset(f(ps[i]))
    decreases |ps|
  {
    hide Gather;
    var n := |ps| - 1;
    var before, last := ps[..n], ps[n];
    assert ps == before + [last];
    GatherAppend(f, before, last);
    if i == n {
      assert ps[..i] + ps[i + 1..] == before;
    } else {
      GatherRemove(f, before, i);
      var rest := before[..i] + before[i + 1..];
      assert ps[..i] + ps[i + 1..] == rest + [last];
      GatherAppend(f, rest, last);
    }
  }

  lemma {:induction false} GatherAnyOrder<T>(f: nat -> seq<T>, ps: seq<nat>, qs: seq<nat>)
    requires multiset(ps) == multiset(qs)
    ensures multiset(Gather(f, ps)) == multiset(Gather(f, qs))
    decreases |ps|
  {
    SameLength(ps, qs);
    if ps != [] {
      var n := |ps| - 1;
      var i := Find(qs, ps[n]);
      var rest := qs[..i] + qs[i + 1..];
      Removed(ps, n);
      Removed(qs, i);
      assert ps[..n] + ps[n + 1..] == ps[..n];
      GatherRemove(f, ps, n);
      GatherRemove(f, qs, i);
      hide Gather;
      GatherAnyOrder(f, ps[..n], rest);
    } else {
      assert qs == [];
    }
  }

  lemma SameLength<T>(ps: seq<T>, qs: seq<T>)
    requires multiset(ps) == multiset(qs)
    ensures |ps| == |qs| && forall p | p in ps :: p in qs
  {
    assert |ps| == |multiset(ps)| && |qs| == |multiset(qs)|;
    forall p | p in ps ensures p in qs {
      assert p in multiset(ps);
    }
  }

  lemma Find<T>(ps: seq<T>, p: T) returns (i: nat)
    requires p in ps
    ensures i < |ps| && ps[i] == p
  {
    i :| 0 <= i < |ps| && ps[i] == p;
  }

  lemma Removed(ps: seq<nat>, i: nat)
    requires i < |ps|
    ensures multiset(ps[..i] + ps[i + 1..]) == multiset(ps) - multiset{ps[i]}
  {
    assert ps == ps[..i] + [ps[i]] + ps[i + 1..];
  }

  function PortAt(c: Scan, p: nat): seq<Port> {
    match c.probe(p) case Open(port, _) => [port] case Closed => []
  }

  function FindingsAt(c: Scan, p: nat): seq<Finding> {
    match c.probe(p) case Open(_, fs) => fs case Closed => []
  }

  lemma {:induction false} AsGathered(c: Scan, ps: seq<nat>, f: nat -> seq<Port>, g: nat -> seq<Finding>)
    requires forall p: nat :: f(p) == PortAt(c, p) && g(p) == FindingsAt(c, p)
    ensures PortsOf(c, ps) == Gather(f, ps) && FindingsOf(c, ps) == Gather(g, ps)
  {
    if ps != [] {
      AsGathered(c, ps[..|ps| - 1], f, g);
    }
  }

  lemma VectorsInAnyOrder(c: Scan, ps: seq<nat>, qs: seq<nat>)
    requires multiset(ps) == multiset(qs)
    ensures multiset(PortsOf(c, ps)) == multiset(PortsOf(c, qs))
    ensures multiset(FindingsOf(c, ps)) == multiset(FindingsOf(c, qs))
  {
    var f, g := (p: nat) => PortAt(c, p), (p: nat) => FindingsAt(c, p);
    AsGathered(c, ps, f, g);
    AsGathered(c, qs, f, g);
    hide PortsOf, FindingsOf, Gather;
    GatherAnyOrder(f, ps, qs);
    GatherAnyOrder(g, ps, qs);
  }

  // ---- when the pool has been joined ----

  lemma JoinedServer(c: Scan, s: Server)
    requires ServerInv(c, s) && c.threads > 0 && (s.main.Collecting? || s.main.Finished?)
    ensures s.pool.started == Between(c.first, s.filled)
    ensures multiset(s.pool.done) == multiset(Between(c.first, s.filled))
  {
    hide Inv, Logged, Staged, Taken, Between;
    JoinedPool(s.pool);
    hide Joined;
  }

  /** Every port whose task was enqueued has been through all its stages, and no other port has been touched. */
  lemma AllCounted(c: Scan, s: Server, p: nat)
    requires ServerInv(c, s) && c.threads > 0 && (s.main.Collecting? || s.main.Finished?)
    ensures StageOf(s, p) == if c.first <= p < s.filled then Counted else Fresh
  {
    JoinedServer(c, s);
    BetweenHolds(c.first, s.filled);
    hide Inv, Logged, Staged, Fed, Phased, Joined, StageOf, Between, Distinct;
    var range := Between(c.first, s.filled);
    if p in range {
      assert p in multiset(range);
      assert p in multiset(s.pool.done);
    } else {
      assert p !in s.pool.started;
    }
  }

  lemma CountedInv(c: Scan, s: Server)
    requires ServerInv(c, s) && c.threads > 0 && (s.main.Collecting? || s.main.Finished?)
    ensures multiset(s.counted) == multiset(Between(c.first, s.filled)) && s.scanned == s.filled - c.first
    ensures multiset(s.shown) == multiset(OpenPorts(c, c.first, s.filled))
    ensures multiset(s.kept) == multiset(OpenPorts(c, c.first, s.filled))
  {
    hide Inv, PortsOf, FindingsOf, Taken, Phased;
    BetweenHolds(c.first, s.filled);
    OpenPortsHold(c, c.first, s.filled);
    hide StageOf, Between, OpenPorts, Distinct;
    forall p: nat
      ensures (p in s.counted <==> p in Between(c.first, s.filled))
      ensures (p in s.shown <==> p in OpenPorts(c, c.first, s.filled))
      ensures (p in s.kept <==> p in OpenPorts(c, c.first, s.filled))
    {
      AllCounted(c, s, p);
      assert ListsMatch(c, s, p);
    }
    SameMembers(s.counted, Between(c.first, s.filled));
    SameMembers(s.shown, OpenPorts(c, c.first, s.filled));
    SameMembers(s.kept, OpenPorts(c, c.first, s.filled));
    assert |s.counted| == |multiset(s.counted)|;
  }

  /** Each port fed to the pool has been counted exactly once, and each open one shown and kept exactly once. */
  lemma EveryPortOnce(c: Scan, s: Server)
    requires Occurs(c, s) && c.threads > 0 && (s.main.Collecting? || s.main.Finished?)
    ensures multiset(s.counted) == multiset(Between(c.first, s.filled)) && s.scanned == s.filled - c.first
    ensures multiset(s.shown) == multiset(OpenPorts(c, c.first, s.filled))
    ensures multiset(s.kept) == multiset(OpenPorts(c, c.first, s.filled))
  {
    AlwaysInv(c, s);
    hide ServerInv, Occurs, Between, OpenPorts;
    CountedInv(c, s);
  }

  // ---- sorting ----

  ghost predicate PortsSorted(ports: seq<Port>) {
    forall i, j | 0 <= i < j < |ports| :: ports[i].number <= ports[j].number
  }

  ghost predicate Ascending(ports: seq<Port>) {
    forall i, j | 0 <= i < j < |ports| :: ports[i].number < ports[j].number
  }

  /** However the sort treats equal keys, there is only one way to sort ports with different numbers. */
  lemma {:induction false} SortedOneWay(a: seq<Port>, b: seq<Port>)
    requires Ascending(a) && PortsSorted(b) && multiset(a) == multiset(b)
    ensures a == b
    decreases |a|
  {
    SameLength(a, b);
    if a != [] {
      var n := |a| - 1;
      SameLast(a, b);
      WithoutLast(a);
      WithoutLast(b);
      SortedOneWay(a[..n], b[..n]);
    }
  }

  lemma SameLast(a: seq<Port>, b: seq<Port>)
    requires Ascending(a) && PortsSorted(b) && multiset(a) == multiset(b) && a != [] && |a| == |b|
    ensures a[|a| - 1] == b[|a| - 1]
  {
    var n := |a| - 1;
    SameLength(a, b);
    SameLength(b, a);
    var i := Find(b, a[n]);
    var j := Find(a, b[n]);
  }

  lemma WithoutLast<T>(a: seq<T>)
    requires a != []
    ensures multiset(a[..|a| - 1]) == multiset(a) - multiset{a[|a| - 1]}
  {
    assert a == a[..|a| - 1] + [a[|a| - 1]];
  }

  // ---- what a task hands on ----

  /** A task reports its own port, and its findings are about that port, on the target, one per identity. */
  ghost predicate HonestAt(c: Scan, target: string, p: nat) {
    c.probe(p).Open? ==>
      && c.probe(p).port.number == p
      && (forall f | f in c.probe(p).findings :: f.host == target && f.scope == "PORT" && f.port == p)
      && DistinctIds(c.probe(p).findings)
  }

  ghost predicate DistinctIds(fs: seq<Finding>) {
    forall i, j | 0 <= i < j < |fs| :: Identity(fs[i]) != Identity(fs[j])
  }

  ghost predicate Honest(c: Scan, target: string) {
    forall p: nat :: HonestAt(c, target, p)
  }

  ghost predicate AscendingBelow(ports: seq<Port>, b: nat) {
    Ascending(ports) && forall i | 0 <= i < |ports| :: ports[i].number < b
  }

  lemma AscendingAppend(ports: seq<Port>, port: Port)
    requires AscendingBelow(ports, port.number)
    ensures AscendingBelow(ports + [port], port.number + 1)
  {
  }

  lemma {:induction false} OpenPortsAscend(c: Scan, target: string, a: nat, b: nat)
    requires Honest(c, target)
    ensures AscendingBelow(PortsOf(c, OpenPorts(c, a, b)), b)
  {
    if a < b {
      hide PortsOf, Ascending;
      OpenPortsAscend(c, target, a, b - 1);
      assert HonestAt(c, target, b - 1);
      var before := OpenPorts(c, a, b - 1);
      if c.probe(b - 1).Open? {
        PortsOfAppend(c, before, b - 1);
        AscendingAppend(PortsOf(c, before), c.probe(b - 1).port);
      } else {
        assert OpenPorts(c, a, b) == before;
      }
    }
  }

  // ---- findings of different ports ----

  lemma {:induction false} FindingsOfPorts(c: Scan, target: string, ps: seq<nat>, i: nat)
    requires Honest(c, target) && i < |FindingsOf(c, ps)|
    ensures var f := FindingsOf(c, ps)[i]; f.host == target && f.scope == "PORT" && f.port in ps
  {
    var n := |ps| - 1;
    var before := FindingsOf(c, ps[..n]);
    if i < |before| {
      FindingsOfPorts(c, target, ps[..n], i);
    } else {
      assert HonestAt(c, target, ps[n]);
      assert FindingsOf(c, ps)[i] == c.probe(ps[n]).findings[i - |before|];
    }
  }

  lemma {:induction false} FindingsDistinct(c: Scan, target: string, ps: seq<nat>)
    requires Honest(c, target) && Distinct(ps)
    ensures DistinctIds(FindingsOf(c, ps))
  {
    if ps != [] {
      var n := |ps| - 1;
      var before, fs := FindingsOf(c, ps[..n]), FindingsAt(c, ps[n]);
      FindingsDistinct(c, target, ps[..n]);
      assert FindingsOf(c, ps) == before + fs;
      assert HonestAt(c, target, ps[n]);
      hide Identity, FindingsOf, Distinct;
      forall i, j | 0 <= i < |before| && 0 <= j < |fs| ensures Identity(before[i]) != Identity(fs[j]) {
        FindingsOfPorts(c, target, ps[..n], i);
        NotAgain(ps);
        assert fs[j] in c.probe(ps[n]).findings;
        if Identity(before[i]) == Identity(fs[j]) {
          PortsNeverCollide(before[i], fs[j]);
        }
      }
      hide Honest, HonestAt;
      DistinctJoin(before, fs);
    }
  }

  lemma NotAgain(ps: seq<nat>)
    requires ps != [] && Distinct(ps)
    ensures ps[|ps| - 1] !in ps[..|ps| - 1]
  {
  }

  lemma DistinctJoin(a: seq<Finding>, b: seq<Finding>)
    requires DistinctIds(a) && DistinctIds(b)
    requires forall i, j | 0 <= i < |a| && 0 <= j < |b| :: Identity(a[i]) != Identity(b[j])
    ensures DistinctIds(a + b)
  {
    hide Identity;
  }

  lemma {:induction false} DistinctFindingCount(fs: seq<Finding>, f: Finding)
    requires DistinctIds(fs)
    ensures multiset(fs)[f] <= 1
  {
    hide Identity;
    if fs != [] {
      var n := |fs| - 1;
      DistinctFindingCount(fs[..n], f);
      assert fs == fs[..n] + [fs[n]];
      forall i | 0 <= i < n ensures fs[..n][i] != fs[n] {
        assert Identity(fs[i]) != Identity(fs[n]);
      }
    }
  }

  lemma TwicePresent(fs: seq<Finding>, i: nat, j: nat)
    requires i < j < |fs| && fs[i] == fs[j]
    ensures multiset(fs)[fs[i]] >= 2
  {
    assert fs == fs[..j] + [fs[j]] + fs[j + 1..];
    assert fs[i] in fs[..j];
  }

  lemma DistinctInAnyOrder(fs: seq<Finding>, gs: seq<Finding>)
    requires DistinctIds(fs) && multiset(fs) == multiset(gs)
    ensures DistinctIds(gs)
  {
    hide Identity;
    forall i, j | 0 <= i < j < |gs| ensures Identity(gs[i]) != Identity(gs[j]) {
      if gs[i] == gs[j] {
        TwicePresent(gs, i, j);
        DistinctFindingCount(fs, gs[i]);
      } else {
        assert gs[i] in multiset(fs) && gs[j] in multiset(fs);
        var k :| 0 <= k < |fs| && fs[k] == gs[i];
        var m :| 0 <= m < |fs| && fs[m] == gs[j];
        assert k != m;
      }
    }
  }

  /** Deduplication leaves a list alone exactly if no identity occurs twice in it. */
  lemma DedupKeepsIff(fs: seq<Finding>)
    ensures Dedup(fs) == fs <==> DistinctIds(fs)
  {
    DedupDistinct(fs);
    if DistinctIds(fs) {
      DedupOfDistinct(fs);
    }
  }

  // ---- what the checks of a port find ----

  /** The scan whose tasks fill in and deduplicate what their checks collect. */
  function ScanOf(target: string, first: nat, limit: nat, threads: nat, check: nat -> Checked): Scan {
    Scan(first, limit, threads, (p: nat) => HandOn(target, check(p)))
  }

  /** A check reports its own port, and its findings are about that port, on the target where they name a host. */
  ghost predicate ChecksItsPort(target: string, p: nat, checked: Checked) {
    checked.Answers? ==>
      && checked.port.number == p
      && forall f | f in checked.local + checked.known ::
           (f.host == "" || f.host == target) && f.scope == "PORT" && f.port == p
  }

  /** Then so is what the task hands on, and deduplication has left one finding per identity. */
  lemma HandsOnHonestly(c: Scan, target: string, p: nat, checked: Checked)
    requires c.probe(p) == HandOn(target, checked) && ChecksItsPort(target, p, checked)
    ensures HonestAt(c, target, p)
  {
    hide Dedup, Identity, Collected;
    if checked.Answers? {
      var filled := FillAll(Collected(checked), target, checked.port);
      DedupHasDistinctIds(filled);
      forall i | 0 <= i < |Dedup(filled)|
        ensures var f := Dedup(filled)[i]; f.host == target && f.scope == "PORT" && f.port == p
      {
        var k := DedupMember(filled, i);
        assert filled[k] == Fill(Collected(checked)[k], target, checked.port);
        CollectedIff(checked, Collected(checked)[k]);
      }
    }
  }

  lemma DedupHasDistinctIds(fs: seq<Finding>)
    ensures DistinctIds(Dedup(fs))
  {
    DedupDistinct(fs);
  }

  // ---- the main results ----

  /** What a completed scan has collected, whatever the schedule. */
  lemma CompletedVectors(c: Scan, s: Server, findings: seq<Finding>)
    requires Occurs(c, s) && c.threads > 0 && c.first <= c.limit && s.main == Collecting(false)
    requires multiset(findings) == multiset(s.outFindings)
    ensures s.scanned == c.limit - c.first && multiset(s.counted) == multiset(Between(c.first, c.limit))
    ensures var open := OpenPorts(c, c.first, c.limit);
            && multiset(s.outPorts) == multiset(s.ports) == multiset(PortsOf(c, open))
            && multiset(findings) == multiset(s.findings) == multiset(FindingsOf(c, open))
  {
    EveryPortOnce(c, s);
    Complete(c, s);
    hide Occurs, PortsOf, FindingsOf, OpenPorts, Between;
    var open := OpenPorts(c, c.first, c.limit);
    VectorsInAnyOrder(c, s.kept, open);
    VectorsInAnyOrder(c, s.shown, open);
  }

  /** Whatever the schedule, a completed scan returns the same sorted ports and the same findings up to their order,
      which are the ports and findings that were streamed live, and has counted each port of the range once. */
  lemma ScheduleIndependence(
      target: string, first: nat, limit: nat, threads: nat, check: nat -> Checked,
      s: Server, ports: seq<Port>, findings: seq<Finding>)
    requires threads > 0 && first <= limit && forall p: nat :: ChecksItsPort(target, p, check(p))
    requires Occurs(ScanOf(target, first, limit, threads, check), s) && s.main == Collecting(false)
    requires PortsSorted(ports) && multiset(ports) == multiset(s.outPorts)
    requires multiset(findings) == multiset(s.outFindings)
    ensures var c := ScanOf(target, first, limit, threads, check);
            && ports == PortsOf(c, OpenPorts(c, first, limit))
            && multiset(findings) == multiset(FindingsOf(c, OpenPorts(c, first, limit)))
    ensures Dedup(findings) == findings
    ensures multiset(s.ports) == multiset(ports) && multiset(s.findings) == multiset(findings)
    ensures s.scanned == limit - first && multiset(s.counted) == multiset(Between(first, limit))
  {
    hide Occurs, PortsOf, FindingsOf, OpenPorts, Between, PortsSorted, HonestAt, ChecksItsPort, HandOn, Dedup;
    var c := ScanOf(target, first, limit, threads, check);
    forall p: nat ensures HonestAt(c, target, p) {
      HandsOnHonestly(c, target, p, check(p));
    }
    var open := OpenPorts(c, first, limit);
    CompletedVectors(c, s, findings);
    OpenPortsAscend(c, target, first, limit);
    AscendingIs(PortsOf(c, open), limit);
    SortedOneWay(PortsOf(c, open), ports);
    OpenPortsHold(c, first, limit);
    FindingsDistinct(c, target, open);
    DistinctInAnyOrder(FindingsOf(c, open), findings);
    DedupKeepsIff(findings);
  }

  lemma AscendingIs(ports: seq<Port>, b: nat)
    requires AscendingBelow(ports, b)
    ensures Ascending(ports)
  {
  }

  lemma Complete(c: Scan, s: Server)
    requires Occurs(c, s) && s.main == Collecting(false) && c.first <= c.limit
    ensures s.filled == c.limit
    ensures s.ports == PortsOf(c, s.shown) && s.findings == FindingsOf(c, s.shown)
    ensures s.outPorts == PortsOf(c, s.kept) && s.outFindings == FindingsOf(c, s.kept)
  {
    AlwaysInv(c, s);
    hide Inv, PortsOf, FindingsOf, Staged, Taken, Between, Joined;
  }

  /** Of any completed scan, whatever its tasks hand on: the final deduplication returns what was streamed, up to
      order, if and only if no two findings of the range share an identity. */
  lemma StreamedIsReturnedIff(c: Scan, s: Server, findings: seq<Finding>)
    requires Occurs(c, s) && c.threads > 0 && c.first <= c.limit && s.main == Collecting(false)
    requires multiset(findings) == multiset(s.outFindings)
    ensures multiset(Dedup(findings)) == multiset(s.findings) <==>
            DistinctIds(FindingsOf(c, OpenPorts(c, c.first, c.limit)))
  {
    hide Occurs, FindingsOf, OpenPorts, Between, PortsOf, Dedup, DistinctIds;
    CompletedVectors(c, s, findings);
    var fs := FindingsOf(c, OpenPorts(c, c.first, c.limit));
    DedupKeepsIff(findings);
    if DistinctIds(fs) {
      DistinctInAnyOrder(fs, findings);
    }
    if multiset(Dedup(findings)) == multiset(fs) {
      DedupHasDistinctIds(findings);
      DistinctInAnyOrder(Dedup(findings), fs);
    }
  }

  // ---- the result in terms of the checks ----

  /** `c` is a finding that the check of port p gathered as `f`, completed. */
  ghost predicate From(target: string, check: nat -> Checked, p: nat, f: Finding, c: Finding) {
    Gathers(check(p), f) && Completes(c, f, target, check(p).port)
  }

  lemma {:induction false} InFindingsOf(c: Scan, ps: seq<nat>, g: Finding)
    ensures g in FindingsOf(c, ps) <==> exists p :: p in ps && g in FindingsAt(c, p)
  {
    if ps != [] {
      var n := |ps| - 1;
      InFindingsOf(c, ps[..n], g);
      assert ps == ps[..n] + [ps[n]];
      if g in FindingsAt(c, ps[n]) {
        assert ps[n] in ps;
      }
    }
  }

  lemma {:induction false} InPortsOf(c: Scan, ps: seq<nat>, port: Port)
    requires forall p | p in ps :: c.probe(p).Open?
    ensures port in PortsOf(c, ps) <==> exists p :: p in ps && c.probe(p).port == port
  {
    if ps != [] {
      var n := |ps| - 1;
      assert ps == ps[..n] + [ps[n]];
      InPortsOf(c, ps[..n], port);
    }
  }

  lemma SameContents<T>(xs: seq<T>, ys: seq<T>, x: T)
    requires multiset(xs) == multiset(ys)
    ensures x in xs <==> x in ys
  {
    assert x in xs <==> x in multiset(xs);
    assert x in ys <==> x in multiset(ys);
  }

  lemma Answering(checked: Checked, f: Finding)
    requires Gathers(checked, f)
    ensures checked.Answers?
  {
  }

  lemma FromMeans(target: string, check: nat -> Checked, p: nat, f: Finding, d: Finding)
    requires check(p).Answers?
    ensures From(target, check, p, f, d) <==> Gathers(check(p), f) && Completes(d, f, target, check(p).port)
  {
    hide Gathers, Completes;
  }

  /** The returned findings are those of the open ports. */
  lemma InResult(c: Scan, findings: seq<Finding>, g: Finding)
    requires multiset(findings) == multiset(FindingsOf(c, OpenPorts(c, c.first, c.limit)))
    ensures g in findings <==> exists p: nat :: c.first <= p < c.limit && c.probe(p).Open? && g in FindingsAt(c, p)
  {
    hide FindingsOf, FindingsAt, OpenPorts;
    var open := OpenPorts(c, c.first, c.limit);
    SameContents(findings, FindingsOf(c, open), g);
    InFindingsOf(c, open, g);
    OpenPortsHold(c, c.first, c.limit);
  }

  lemma InPortResult(c: Scan, ports: seq<Port>, port: Port)
    requires ports == PortsOf(c, OpenPorts(c, c.first, c.limit))
    ensures port in ports <==>
            exists p: nat :: c.first <= p < c.limit && c.probe(p).Open? && c.probe(p).port == port
  {
    hide PortsOf, OpenPorts;
    var open := OpenPorts(c, c.first, c.limit);
    OpenPortsHold(c, c.first, c.limit);
    InPortsOf(c, open, port);
  }

  /** What a completed scan returns, in terms of what the checks report: the ports that answered, and for every finding
      gathered on one of them a finding with its identity once completed; nothing else. */
  lemma ResultOfChecks(
      target: string, first: nat, limit: nat, threads: nat, check: nat -> Checked,
      s: Server, ports: seq<Port>, findings: seq<Finding>)
    requires threads > 0 && first <= limit && forall p: nat :: ChecksItsPort(target, p, check(p))
    requires Occurs(ScanOf(target, first, limit, threads, check), s) && s.main == Collecting(false)
    requires PortsSorted(ports) && multiset(ports) == multiset(s.outPorts)
    requires multiset(findings) == multiset(s.outFindings)
    ensures forall port :: port in ports <==>
              exists p: nat :: first <= p < limit && check(p).Answers? && check(p).port == port
    ensures forall p: nat, f | first <= p < limit && Gathers(check(p), f) ::
              exists g, d :: g in findings && From(target, check, p, f, d) && Identity(g) == Identity(d)
    ensures forall g | g in findings ::
              exists p: nat, f, d :: first <= p < limit && From(target, check, p, f, d) && SameButFilled(g, d)
  {
    hide Occurs, PortsOf, FindingsOf, OpenPorts, Between, PortsSorted, ChecksItsPort, HandOn, Dedup, From, Gathers,
        Completes, Identity;
    var c := ScanOf(target, first, limit, threads, check);
    ScheduleIndependence(target, first, limit, threads, check, s, ports, findings);
    forall p: nat
      ensures c.probe(p) == HandOn(target, check(p))
      ensures c.probe(p).Open? <==> check(p).Answers?
      ensures check(p).Answers? ==> c.probe(p).port == check(p).port
    {
      PortIsHandedOn(target, check(p));
    }
    forall port ensures port in ports <==>
              exists p: nat :: first <= p < limit && check(p).Answers? && check(p).port == port
    {
      InPortResult(c, ports, port);
    }
    forall p: nat, f | first <= p < limit && Gathers(check(p), f)
      ensures exists g, d :: g in findings && From(target, check, p, f, d) && Identity(g) == Identity(d)
    {
      var g, d := IsHandedOn(target, check(p), f);
      Answering(check(p), f);
      FromMeans(target, check, p, f, d);
      InResult(c, findings, g);
    }
    forall g | g in findings
      ensures exists p: nat, f, d :: first <= p < limit && From(target, check, p, f, d) && SameButFilled(g, d)
    {
      InResult(c, findings, g);
      var p: nat :| first <= p < limit && c.probe(p).Open? && g in FindingsAt(c, p);
      var f, d := ComesFrom(target, check(p), g);
      FromMeans(target, check, p, f, d);
    }
  }

  /** A returned finding has evidence exactly if some finding gathered in the scan has, with its identity once
      completed. */
  lemma EvidenceOfResult(
      target: string, first: nat, limit: nat, threads: nat, check: nat -> Checked, s: Server, ports: seq<Port>,
      findings: seq<Finding>, g: Finding)
    requires threads > 0 && first <= limit && forall p: nat :: ChecksItsPort(target, p, check(p))
    requires Occurs(ScanOf(target, first, limit, threads, check), s) && s.main == Collecting(false)
    requires PortsSorted(ports) && multiset(ports) == multiset(s.outPorts)
    requires multiset(findings) == multiset(s.outFindings) && g in findings
    ensures g.evidence != "" <==>
            exists p: nat, f, d ::
              first <= p < limit && From(target, check, p, f, d) && Identity(d) == Identity(g) && f.evidence != ""
  {
    hide Occurs, PortsOf, FindingsOf, FindingsAt, OpenPorts, Between, PortsSorted, ChecksItsPort, HandOn, Dedup, From,
        Gathers, Identity;
    var c := ScanOf(target, first, limit, threads, check);
    ScheduleIndependence(target, first, limit, threads, check, s, ports, findings);
    InResult(c, findings, g);
    var p: nat :| first <= p < limit && c.probe(p).Open? && g in FindingsAt(c, p);
    EvidenceAtPort(target, first, limit, threads, check, p, g);
    forall q: nat, f, d |
      first <= q < limit && From(target, check, q, f, d) && Identity(d) == Identity(g) && f.evidence != ""
      ensures q == p
    {
      SamePort(target, first, limit, threads, check, p, q, f, d, g);
    }
  }

  /** Within a port that is deduplication's; and no other port has findings of the same identity. */
  lemma EvidenceAtPort(target: string, first: nat, limit: nat, threads: nat, check: nat -> Checked, p: nat, g: Finding)
    requires var c := ScanOf(target, first, limit, threads, check); c.probe(p).Open? && g in FindingsAt(c, p)
    ensures g.evidence != "" <==>
            exists f, d :: From(target, check, p, f, d) && Identity(d) == Identity(g) && f.evidence != ""
  {
    hide Identity, HandOn, Gathers, Completes;
    PortIsHandedOn(target, check(p));
    EvidenceIsHandedOn(target, check(p), g);
  }

  lemma SamePort(
      target: string, first: nat, limit: nat, threads: nat, check: nat -> Checked, p: nat, q: nat, f: Finding,
      d: Finding, g: Finding)
    requires forall r: nat :: ChecksItsPort(target, r, check(r))
    requires var c := ScanOf(target, first, limit, threads, check); c.probe(p).Open? && g in FindingsAt(c, p)
    requires From(target, check, q, f, d) && Identity(d) == Identity(g)
    ensures p == q
  {
    hide Identity, Dedup, Collected, HandOn;
    var c := ScanOf(target, first, limit, threads, check);
    HandsOnHonestly(c, target, p, check(p));
    assert ChecksItsPort(target, q, check(q)) && f in check(q).local + check(q).known;
    PortsNeverCollide(d, g);
  }
}
