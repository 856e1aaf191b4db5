/** A client that follows a running scan by index, interleaved with it in any way. */
module ScanStream {
  import opened Sequences
  import opened Findings
  import opened ThreadPool
  import opened ScanServer
  import opened ScanInvariants
  import opened ScanResult

  datatype Event =
    | Hello
    | Progress(scanned: int)
    | PortEvent(port: Port)
    | FindingEvent(f: Finding)
    | StatusEvent(status: nat)
    | End

  /** Where the client loop is; the values it has loaded in this turn go along. Gone is a failed write. */
  datatype Place =
    | LoadStatus
    | LoadScanned(status: nat)
    | TakeSnapshot(status: nat, scanned: int)
    | Sending(status: nat)
    | Over
    | Gone

  /** `outbox` holds the events this turn still has to write, `sent` those that have been written. */
  datatype Client = Client(
    place: Place, sentPorts: nat, sentFindings: nat, lastScanned: int, lastStatus: int,
    outbox: seq<Event>, sent: seq<Event>)

  datatype Move =
    | ServerMoves(step: ServerStep)
    | LoadsStatus
    | LoadsScanned
    | Snapshots
    | Writes
    | WriteFails
    | EndsTurn

  datatype World = World(server: Server, client: Client)

  predicate Terminal(status: nat) {
    status == DONE || status == ERROR
  }

  function Connect(): Client {
    Client(Sending(0), 0, 0, -1, -1, [Hello], [])
  }

  function PortEvents(ports: seq<Port>): seq<Event> {
    seq(|ports|, i requires 0 <= i < |ports| => PortEvent(ports[i]))
  }

  function FindingEvents(fs: seq<Finding>): seq<Event> {
    seq(|fs|, i requires 0 <= i < |fs| => FindingEvent(fs[i]))
  }

  /** What one turn writes after its snapshot. */
  function Turn(c: Client, status: nat, scanned: int, ports: seq<Port>, findings: seq<Finding>): seq<Event> {
    (if scanned != c.lastScanned then [Progress(scanned)] else [])
    + (PortEvents(ports) + (FindingEvents(findings)
    + ((if status != c.lastStatus then [StatusEvent(status)] else [])
    + (if Terminal(status) then [End] else []))))
  }

  ghost predicate MoveMay(scan: Scan, w: World, move: Move) {
    match move
    case ServerMoves(step) => May(scan, w.server, step)
    case LoadsStatus => w.client.place.LoadStatus?
    case LoadsScanned => w.client.place.LoadScanned?
    case Snapshots => w.client.place.TakeSnapshot?
    case Writes => w.client.place.Sending? && w.client.outbox != []
    case WriteFails => w.client.place.Sending? && w.client.outbox != []
    case EndsTurn => w.client.place.Sending? && w.client.outbox == []
  }

  /** The new entries beyond those already taken; none if the vector were shorter than that. */
  function Beyond<T>(items: seq<T>, taken: nat): seq<T> {
    if |items| > taken then items[taken..] else []
  }

  function ClientMoves(c: Client, s: Server, move: Move): Client
    requires !move.ServerMoves?
    requires move.LoadsScanned? ==> c.place.LoadScanned?
    requires move.Snapshots? ==> c.place.TakeSnapshot?
    requires move.Writes? ==> c.outbox != []
    requires move.EndsTurn? ==> c.place.Sending?
  {
    match move
    case LoadsStatus => c.(place := LoadScanned(s.status))
    case LoadsScanned => c.(place := TakeSnapshot(c.place.status, s.scanned))
    case Snapshots =>
      var TakeSnapshot(status, scanned) := c.place;
      Client(Sending(status),
             if |s.ports| > c.sentPorts then |s.ports| else c.sentPorts,
             if |s.findings| > c.sentFindings then |s.findings| else c.sentFindings,
             scanned, status,
             Turn(c, status, scanned, Beyond(s.ports, c.sentPorts), Beyond(s.findings, c.sentFindings)),
                 c.sent + c.outbox)
    case Writes => c.(sent := c.sent + [c.outbox[0]], outbox := c.outbox[1..])
    case WriteFails => c.(place := Gone)
    case EndsTurn => c.(place := if Terminal(c.place.status) then Over else LoadStatus)
  }

  function MoveTo(scan: Scan, w: World, move: Move): World
    requires MoveMay(scan, w, move)
  {
    if move.ServerMoves? then w.(server := Do(scan, w.server, move.step))
    else w.(client := ClientMoves(w.client, w.server, move))
  }

  ghost predicate MovesTo(scan: Scan, w: World, moves: seq<Move>, e: World)
    decreases |moves|
  {
    if moves == [] then w == e
    else MoveMay(scan, w, moves[0]) && MovesTo(scan, MoveTo(scan, w, moves[0]), moves[1..], e)
  }

  /** The client may connect at any time of the scan. */
  ghost predicate Happens(scan: Scan, w: World) {
    exists s, moves :: Occurs(scan, s) && MovesTo(scan, World(s, Connect()), moves, w)
  }

  // ---- reading a stream ----

  function PortsIn(es: seq<Event>): seq<Port> {
    if es == [] then []
    else PortsIn(es[..|es| - 1]) + (if es[|es| - 1].PortEvent? then [es[|es| - 1].port] else [])
  }

  function FindingsIn(es: seq<Event>): seq<Finding> {
    if es == [] then []
    else FindingsIn(es[..|es| - 1]) + (if es[|es| - 1].FindingEvent? then [es[|es| - 1].f] else [])
  }

  function ProgressIn(es: seq<Event>): seq<int> {
    if es == [] then []
    else ProgressIn(es[..|es| - 1]) + (if es[|es| - 1].Progress? then [es[|es| - 1].scanned] else [])
  }

  lemma ReadAppend(es: seq<Event>, e: Event)
    ensures PortsIn(es + [e]) == PortsIn(es) + (if e.PortEvent? then [e.port] else [])
    ensures FindingsIn(es + [e]) == FindingsIn(es) + (if e.FindingEvent? then [e.f] else [])
    ensures ProgressIn(es + [e]) == ProgressIn(es) + (if e.Progress? then [e.scanned] else [])
  {
    assert (es + [e])[..|es|] == es;
  }

  lemma {:induction false} ReadConcat(es: seq<Event>, fs: seq<Event>)
    ensures PortsIn(es + fs) == PortsIn(es) + PortsIn(fs)
    ensures FindingsIn(es + fs) == FindingsIn(es) + FindingsIn(fs)
    ensures ProgressIn(es + fs) == ProgressIn(es) + ProgressIn(fs)
    decreases |fs|
  {
    if fs == [] {
      assert es + fs == es;
    } else {
      hide PortsIn, FindingsIn, ProgressIn;
      var fs', e := fs[..|fs| - 1], fs[|fs| - 1];
      ReadConcat(es, fs');
      ReadAppend(fs', e);
      ReadAppend(es + fs', e);
      assert fs == fs' + [e] && es + fs == es + fs' + [e];
    }
  }

  lemma {:induction false} ReadPortEvents(ports: seq<Port>)
    ensures PortsIn(PortEvents(ports)) == ports
    ensures FindingsIn(PortEvents(ports)) == [] && ProgressIn(PortEvents(ports)) == []
  {
    if ports != [] {
      var n := |ports| - 1;
      ReadPortEvents(ports[..n]);
      assert PortEvents(ports)[..n] == PortEvents(ports[..n]);
    }
  }

  lemma {:induction false} ReadFindingEvents(fs: seq<Finding>)
    ensures FindingsIn(FindingEvents(fs)) == fs
    ensures PortsIn(FindingEvents(fs)) == [] && ProgressIn(FindingEvents(fs)) == []
  {
    if fs != [] {
      var n := |fs| - 1;
      ReadFindingEvents(fs[..n]);
      assert FindingEvents(fs)[..n] == FindingEvents(fs[..n]);
    }
  }

  lemma ReadOne(e: Event)
    ensures PortsIn([e]) == (if e.PortEvent? then [e.port] else [])
    ensures FindingsIn([e]) == (if e.FindingEvent? then [e.f] else [])
    ensures ProgressIn([e]) == (if e.Progress? then [e.scanned] else [])
  {
    assert [e][..0] == [];
  }

  lemma ReadNone()
    ensures PortsIn([]) == [] && FindingsIn([]) == [] && ProgressIn([]) == []
  {
  }

  /** A turn carries the new ports and findings in order, and its progress value if that has changed. */
  lemma ReadTurn(c: Client, status: nat, scanned: int, ports: seq<Port>, findings: seq<Finding>)
    ensures var t := Turn(c, status, scanned, ports, findings);
            && PortsIn(t) == ports && FindingsIn(t) == findings
            && ProgressIn(t) == if scanned != c.lastScanned then [scanned] else []
  {
    var a := if scanned != c.lastScanned then [Progress(scanned)] else [];
    var p, f := PortEvents(ports), FindingEvents(findings);
    var d := if status != c.lastStatus then [StatusEvent(status)] else [];
    var e := if Terminal(status) then [End] else [];
    ReadOne(Progress(scanned));
    ReadOne(StatusEvent(status));
    ReadOne(End);
    ReadNone();
    ReadPortEvents(ports);
    ReadFindingEvents(findings);
    hide PortsIn, FindingsIn, ProgressIn, PortEvents, FindingEvents;
    ReadConcat(d, e);
    ReadConcat(f, d + e);
    ReadConcat(p, f + (d + e));
    ReadConcat(a, p + (f + (d + e)));
  }

  // ---- what every move keeps ----

  function All(c: Client): seq<Event> {
    c.sent + c.outbox
  }

  /** Sent and still to send, in order: a prefix of what the job has collected. */
  ghost predicate Follows(c: Client, s: Server) {
    && c.sentPorts <= |s.ports| && PortsIn(All(c)) == s.ports[..c.sentPorts]
    && c.sentFindings <= |s.findings| && FindingsIn(All(c)) == s.findings[..c.sentFindings]
  }

  /** The progress values grow, and the last one is `lastScanned`. */
  ghost predicate Counts(c: Client, s: Server) {
    var ns := ProgressIn(All(c));
    && Increasing(ns) && c.lastScanned == (if ns == [] then -1 else ns[|ns| - 1]) && c.lastScanned <= s.scanned
  }

  /** Everything the job will ever hold is sent or about to be. */
  ghost predicate CaughtUp(c: Client, s: Server) {
    s.main.Finished? && c.sentPorts == |s.ports| && c.sentFindings == |s.findings| && c.lastScanned == s.scanned
  }

  /** What a loaded status tells: the status is loaded first, so what is loaded after it is at least as recent. */
  ghost predicate Knows(c: Client, s: Server) {
    match c.place
    case LoadScanned(status) => Terminal(status) ==> s.main.Finished?
    case TakeSnapshot(status, scanned) =>
      && c.lastScanned <= scanned <= s.scanned
      && (Terminal(status) ==> s.main.Finished? && scanned == s.scanned)
    case Sending(status) => Terminal(status) ==> CaughtUp(c, s)
    case _ => true
  }

  /** Only the very last event is End, and then the client has caught up. */
  ghost predicate Ends(c: Client, s: Server) {
    && (forall i | 0 <= i < |All(c)| && All(c)[i] == End :: i == |All(c)| - 1 && CaughtUp(c, s))
    && (c.place.LoadStatus? || c.place.LoadScanned? || c.place.TakeSnapshot? ==> c.outbox == [] && End !in All(c))
    && (c.place.Sending? && !Terminal(c.place.status) ==> End !in All(c))
  }

  /** A DONE status is only ever loaded when the whole range was fed to the pool. */
  ghost predicate DoneMeansAll(scan: Scan, c: Client, s: Server) {
    && (forall i | 0 <= i < |All(c)| && All(c)[i] == StatusEvent(DONE) :: s.filled >= scan.limit)
    && ((c.place.LoadScanned? || c.place.TakeSnapshot? || c.place.Sending?) && c.place.status == DONE
        ==> s.filled >= scan.limit)
  }

  ghost predicate ClientInv(scan: Scan, c: Client, s: Server) {
    Follows(c, s) && Counts(c, s) && Knows(c, s) && Ends(c, s) && DoneMeansAll(scan, c, s)
  }

  lemma ConnectInv(scan: Scan, s: Server)
    ensures ClientInv(scan, Connect(), s)
  {
    var c := Connect();
    assert All(c) == [Hello];
    ReadOne(Hello);
  }

  /** The job only grows, and not at all once the scan has finished. */
  ghost predicate Grows(s: Server, e: Server) {
    && s.ports <= e.ports && s.findings <= e.findings && s.scanned <= e.scanned && s.filled <= e.filled
    && (s.main.Finished? ==>
          e.main.Finished? && e.ports == s.ports && e.findings == s.findings && e.scanned == s.scanned)
  }

  lemma ServerGrows(scan: Scan, s: Server, step: ServerStep)
    requires ServerInv(scan, s) && May(scan, s, step)
    ensures Grows(s, Do(scan, s, step))
  {
    hide Inv, Logged, Staged, Taken, Fed, StageOf, PoolMay;
  }

  lemma ServerMoveInv(scan: Scan, c: Client, s: Server, e: Server)
    requires ClientInv(scan, c, s) && Grows(s, e)
    ensures ClientInv(scan, c, e)
  {
    hide PortsIn, FindingsIn, ProgressIn;
    assert e.ports[..c.sentPorts] == s.ports[..c.sentPorts];
    assert e.findings[..c.sentFindings] == s.findings[..c.sentFindings];
  }

  lemma LoadInv(scan: Scan, c: Client, s: Server, move: Move)
    requires ClientInv(scan, c, s) && Phased(scan, s)
    requires (move == LoadsStatus && c.place.LoadStatus?) || (move == LoadsScanned && c.place.LoadScanned?)
    ensures ClientInv(scan, ClientMoves(c, s, move), s)
  {
    hide PortsIn, FindingsIn, ProgressIn, Joined;
    assert All(ClientMoves(c, s, move)) == All(c);
  }

  lemma WriteInv(scan: Scan, c: Client, s: Server, move: Move)
    requires ClientInv(scan, c, s)
    requires c.place.Sending?
    requires if move == EndsTurn then c.outbox == [] else (move == Writes || move == WriteFails) && c.outbox != []
    ensures ClientInv(scan, ClientMoves(c, s, move), s)
  {
    hide PortsIn, FindingsIn, ProgressIn;
    var d := ClientMoves(c, s, move);
    if move == Writes {
      assert c.outbox == [c.outbox[0]] + c.outbox[1..];
    }
    assert All(d) == All(c);
  }

  lemma SnapshotInv(scan: Scan, c: Client, s: Server)
    requires ClientInv(scan, c, s) && c.place.TakeSnapshot?
    ensures ClientInv(scan, ClientMoves(c, s, Snapshots), s)
  {
    SnapshotFollows(scan, c, s);
    SnapshotEnds(scan, c, s);
    hide PortsIn, FindingsIn, ProgressIn, Turn, Follows, Counts, Ends, DoneMeansAll, All;
  }

  lemma SnapshotFollows(scan: Scan, c: Client, s: Server)
    requires ClientInv(scan, c, s) && c.place.TakeSnapshot?
    ensures var d := ClientMoves(c, s, Snapshots); Follows(d, s) && Counts(d, s)
  {
    hide PortsIn, FindingsIn, ProgressIn, Turn, DoneMeansAll;
    var d := ClientMoves(c, s, Snapshots);
    var ports, findings := s.ports[c.sentPorts..], s.findings[c.sentFindings..];
    assert c.sent + c.outbox == All(c) == c.sent;
    assert Beyond(s.ports, c.sentPorts) == ports && Beyond(s.findings, c.sentFindings) == findings;
    ReadTurn(c, c.place.status, c.place.scanned, ports, findings);
    ReadConcat(All(c), d.outbox);
    assert All(d) == All(c) + d.outbox;
    hide Ends, Knows;
    assert s.ports == s.ports[..c.sentPorts] + ports;
    assert s.findings == s.findings[..c.sentFindings] + findings;
  }

  lemma TurnEvents(c: Client, status: nat, scanned: int, ports: seq<Port>, findings: seq<Finding>)
    ensures var t := Turn(c, status, scanned, ports, findings);
            && (forall i | 0 <= i < |t| && t[i] == End :: i == |t| - 1 && Terminal(status))
            && (forall i | 0 <= i < |t| && t[i].StatusEvent? :: t[i].status == status)
  {
  }

  lemma SnapshotEnds(scan: Scan, c: Client, s: Server)
    requires ClientInv(scan, c, s) && c.place.TakeSnapshot?
    ensures var d := ClientMoves(c, s, Snapshots); Ends(d, s) && DoneMeansAll(scan, d, s) && Knows(d, s)
  {
    hide PortsIn, FindingsIn, ProgressIn, Turn, Follows, Counts;
    var d := ClientMoves(c, s, Snapshots);
    assert c.sent + c.outbox == All(c);
    TurnEvents(c, c.place.status, c.place.scanned, Beyond(s.ports, c.sentPorts), Beyond(s.findings, c.sentFindings));
    if Terminal(c.place.status) {
      SnapshotCatchesUp(scan, c, s);
    }
    var before, added := All(c), d.outbox;
    forall i | 0 <= i < |All(d)| && All(d)[i] == End ensures i == |All(d)| - 1 && CaughtUp(d, s) {
      assert i >= |before|;
      assert added[i - |before|] == End;
    }
    forall i | 0 <= i < |All(d)| && All(d)[i] == StatusEvent(DONE) ensures s.filled >= scan.limit {
      if i >= |before| {
        assert added[i - |before|] == StatusEvent(DONE);
      }
    }
  }

  lemma SnapshotCatchesUp(scan: Scan, c: Client, s: Server)
    requires ClientInv(scan, c, s) && c.place.TakeSnapshot? && Terminal(c.place.status)
    ensures CaughtUp(ClientMoves(c, s, Snapshots), s)
  {
    hide PortsIn, FindingsIn, ProgressIn, Turn, Counts, Ends;
  }

  lemma MoveInv(scan: Scan, w: World, move: Move)
    requires ServerInv(scan, w.server) && ClientInv(scan, w.client, w.server) && MoveMay(scan, w, move)
    ensures var e := MoveTo(scan, w, move); ServerInv(scan, e.server) && ClientInv(scan, e.client, e.server)
  {
    hide ServerInv, ClientInv, May, Do, ClientMoves;
    match move
    case ServerMoves(step) =>
      DoInv(scan, w.server, step);
      ServerGrows(scan, w.server, step);
      ServerMoveInv(scan, w.client, w.server, Do(scan, w.server, step));
    case LoadsStatus => PhasedOf(scan, w.server); LoadInv(scan, w.client, w.server, move);
    case LoadsScanned => PhasedOf(scan, w.server); LoadInv(scan, w.client, w.server, move);
    case Snapshots => SnapshotInv(scan, w.client, w.server);
    case _ => WriteInv(scan, w.client, w.server, move);
  }

  lemma PhasedOf(scan: Scan, s: Server)
    requires ServerInv(scan, s)
    ensures Phased(scan, s)
  {
  }

  lemma {:induction false} MovesInv(scan: Scan, w: World, moves: seq<Move>, e: World)
    requires ServerInv(scan, w.server) && ClientInv(scan, w.client, w.server) && MovesTo(scan, w, moves, e)
    ensures ServerInv(scan, e.server) && ClientInv(scan, e.client, e.server)
    decreases |moves|
  {
    hide ServerInv, ClientInv, MoveMay, MoveTo;
    if moves != [] {
      MoveInv(scan, w, moves[0]);
      MovesInv(scan, MoveTo(scan, w, moves[0]), moves[1..], e);
    }
  }

  lemma HappensInv(scan: Scan, w: World)
    requires Happens(scan, w)
    ensures ServerInv(scan, w.server) && ClientInv(scan, w.client, w.server)
  {
    hide ServerInv, ClientInv, Occurs;
    var s, moves :| Occurs(scan, s) && MovesTo(scan, World(s, Connect()), moves, w);
    AlwaysInv(scan, s);
    ConnectInv(scan, s);
    MovesInv(scan, World(s, Connect()), moves, w);
  }

  // ---- the main results ----

  lemma {:induction false} ReadPrefix(es: seq<Event>, fs: seq<Event>)
    ensures PortsIn(es) <= PortsIn(es + fs) && FindingsIn(es) <= FindingsIn(es + fs)
  {
    ReadConcat(es, fs);
  }

  /** At any moment the events already written are a prefix of the job's ports and of its findings, in order. */
  lemma StreamIsPrefix(scan: Scan, w: World)
    requires Happens(scan, w)
    ensures PortsIn(w.client.sent) <= w.server.ports && FindingsIn(w.client.sent) <= w.server.findings
  {
    hide ServerInv, Happens, PortsIn, FindingsIn, ProgressIn;
    HappensInv(scan, w);
    ReadPrefix(w.client.sent, w.client.outbox);
  }

  /** Once End is written everything has been written, and nothing will be added. After a completed scan the last
      progress event says that every port of the range was scanned. */
  lemma StreamIsComplete(scan: Scan, w: World)
    requires Happens(scan, w) && End in w.client.sent
    ensures PortsIn(w.client.sent) == w.server.ports && FindingsIn(w.client.sent) == w.server.findings
    ensures w.server.main.Finished?
    ensures var ns := ProgressIn(w.client.sent); Increasing(ns) && ns != [] && ns[|ns| - 1] == w.server.scanned
    ensures scan.threads > 0 && scan.first <= scan.limit && StatusEvent(DONE) in w.client.sent ==>
              && w.server.scanned == scan.limit - scan.first
              && multiset(w.server.ports) == multiset(PortsOf(scan, OpenPorts(scan, scan.first, scan.limit)))
              && multiset(w.server.findings) == multiset(FindingsOf(scan, OpenPorts(scan, scan.first, scan.limit)))
  {
    hide ServerInv, ClientInv, Happens, PortsIn, FindingsIn, ProgressIn, PortsOf, FindingsOf, OpenPorts, Increasing;
    HappensInv(scan, w);
    EndedStream(scan, w.client, w.server);
    if scan.threads > 0 && scan.first <= scan.limit && StatusEvent(DONE) in w.client.sent {
      WholeRange(scan, w.client, w.server);
    }
  }

  lemma EndedStream(scan: Scan, c: Client, s: Server)
    requires ClientInv(scan, c, s) && End in c.sent
    ensures All(c) == c.sent && CaughtUp(c, s)
    ensures PortsIn(c.sent) == s.ports && FindingsIn(c.sent) == s.findings
    ensures var ns := ProgressIn(c.sent); Increasing(ns) && ns != [] && ns[|ns| - 1] == s.scanned
  {
    hide PortsIn, FindingsIn, ProgressIn, Knows, DoneMeansAll;
    var i :| 0 <= i < |c.sent| && c.sent[i] == End;
    assert All(c)[i] == End;
    assert All(c) == c.sent;
    assert s.ports[..|s.ports|] == s.ports && s.findings[..|s.findings|] == s.findings;
  }

  lemma WholeRange(scan: Scan, c: Client, s: Server)
    requires ServerInv(scan, s) && ClientInv(scan, c, s) && s.main.Finished? && StatusEvent(DONE) in c.sent
    requires scan.threads > 0 && scan.first <= scan.limit
    ensures s.scanned == scan.limit - scan.first
    ensures multiset(s.ports) == multiset(PortsOf(scan, OpenPorts(scan, scan.first, scan.limit)))
    ensures multiset(s.findings) == multiset(FindingsOf(scan, OpenPorts(scan, scan.first, scan.limit)))
  {
    DoneSent(scan, c, s);
    hide ClientInv, Inv, PortsOf, FindingsOf, OpenPorts, Staged, Taken, Phased;
    CountedInv(scan, s);
    VectorsInAnyOrder(scan, s.shown, OpenPorts(scan, scan.first, scan.limit));
  }

  lemma DoneSent(scan: Scan, c: Client, s: Server)
    requires DoneMeansAll(scan, c, s) && StatusEvent(DONE) in c.sent
    ensures s.filled >= scan.limit
  {
    var i :| 0 <= i < |c.sent| && c.sent[i] == StatusEvent(DONE);
    assert All(c)[i] == StatusEvent(DONE);
  }
}
