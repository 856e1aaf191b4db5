/** A streaming client gets to its end: once the scan has ended, every move of the client is one fewer left. */
module StreamProgress {
  import opened Sequences
  import opened ScanServer
  import opened ScanStream

  predicate Closed(c: Client) {
    c.place.Over? || c.place.Gone?
  }

  /** The longest a turn can be. */
  function LongestTurn(s: Server): nat {
    3 + |s.ports| + |s.findings|
  }

  /** The moves left in a turn that has loaded a status, and then in the last turn unless this is it. */
  function Left(c: Client, s: Server): nat {
    var turn := LongestTurn(s) + 1;
    var more := (status: nat) => if Terminal(status) then 0 else 3 + turn;
    match c.place
    case Over => 0
    case Gone => 0
    case LoadStatus => 3 + turn
    case LoadScanned(status) => 2 + turn + more(status)
    case TakeSnapshot(status, _) => 1 + turn + more(status)
    case Sending(status) => 1 + |c.outbox| + more(status)
  }

  lemma TurnIsShort(c: Client, status: nat, scanned: int, s: Server)
    ensures |Turn(c, status, scanned, Beyond(s.ports, c.sentPorts), Beyond(s.findings, c.sentFindings))|
         <= LongestTurn(s)
  {
  }

  /** Once the scan has ended, each move of the client, a failed write included, leaves fewer. */
  lemma MovesRunOut(scan: Scan, w: World, move: Move)
    requires MoveMay(scan, w, move) && !move.ServerMoves? && Terminal(w.server.status)
    ensures Left(MoveTo(scan, w, move).client, w.server) < Left(w.client, w.server)
    ensures MoveTo(scan, w, move).server == w.server
  {
    if move.Snapshots? {
      hide Turn, Beyond;
      TurnIsShort(w.client, w.client.place.status, w.client.place.scanned, w.server);
    }
  }

  /** Until it has ended or lost its connection the client can move by itself. */
  lemma ClientNeverStuck(scan: Scan, w: World) returns (move: Move)
    requires !Closed(w.client)
    ensures MoveMay(scan, w, move) && !move.ServerMoves? && !move.WriteFails?
  {
    move := match w.client.place
      case LoadStatus => LoadsStatus
      case LoadScanned(_) => LoadsScanned
      case TakeSnapshot(_, _) => Snapshots
      case _ => if w.client.outbox == [] then EndsTurn else Writes;
  }

  /** So once the scan has ended the client comes to its own end, with every write made. */
  lemma {:induction false} StreamEnds(scan: Scan, w: World) returns (moves: seq<Move>, e: World)
    requires Terminal(w.server.status) && !w.client.place.Gone?
    ensures MovesTo(scan, w, moves, e) && e.server == w.server && e.client.place.Over?
    ensures |moves| <= Left(w.client, w.server)
    decreases Left(w.client, w.server)
  {
    hide Left, MoveMay, MoveTo, Terminal;
    if w.client.place.Over? {
      moves, e := [], w;
    } else {
      var move := ClientNeverStuck(scan, w);
      MovesRunOut(scan, w, move);
      StaysConnected(scan, w, move);
      var rest;
      rest, e := StreamEnds(scan, MoveTo(scan, w, move));
      moves := [move] + rest;
      assert moves[1..] == rest;
    }
  }

  lemma StaysConnected(scan: Scan, w: World, move: Move)
    requires MoveMay(scan, w, move) && !move.WriteFails? && !w.client.place.Gone?
    ensures !MoveTo(scan, w, move).client.place.Gone?
  {
    hide May, Do;
  }

  // ---- and then everything has arrived ----

  /** The turn with a terminal status writes End last. */
  ghost predicate Closing(c: Client) {
    && (c.place.Sending? && Terminal(c.place.status) ==> End in c.sent || End in c.outbox)
    && (c.place.Over? ==> End in c.sent)
  }

  lemma LastEvent(c: Client, status: nat, scanned: int, s: Server)
    requires Terminal(status)
    ensures End in Turn(c, status, scanned, Beyond(s.ports, c.sentPorts), Beyond(s.findings, c.sentFindings))
  {
    var turn := Turn(c, status, scanned, Beyond(s.ports, c.sentPorts), Beyond(s.findings, c.sentFindings));
    assert turn[|turn| - 1] == End;
  }

  lemma MoveCloses(scan: Scan, w: World, move: Move)
    requires MoveMay(scan, w, move) && Closing(w.client)
    ensures Closing(MoveTo(scan, w, move).client)
  {
    hide Turn, Beyond, May, Do, Terminal;
    var c := w.client;
    if move.Snapshots? && Terminal(c.place.status) {
      LastEvent(c, c.place.status, c.place.scanned, w.server);
    }
    if move.Writes? {
      assert c.outbox == [c.outbox[0]] + c.outbox[1..];
    }
  }

  lemma {:induction false} RunCloses(scan: Scan, w: World, moves: seq<Move>, e: World)
    requires Closing(w.client) && MovesTo(scan, w, moves, e)
    ensures Closing(e.client)
    decreases |moves|
  {
    hide Closing, MoveMay, MoveTo;
    if moves != [] {
      MoveCloses(scan, w, moves[0]);
      RunCloses(scan, MoveTo(scan, w, moves[0]), moves[1..], e);
    }
  }

  lemma {:induction false} MovesJoin(scan: Scan, w: World, some: seq<Move>, v: World, more: seq<Move>, e: World)
    requires MovesTo(scan, w, some, v) && MovesTo(scan, v, more, e)
    ensures MovesTo(scan, w, some + more, e)
    decreases |some|
  {
    hide MoveMay, MoveTo;
    if some == [] {
      assert some + more == more;
    } else {
      MovesJoin(scan, MoveTo(scan, w, some[0]), some[1..], v, more, e);
      assert (some + more)[1..] == some[1..] + more && (some + more)[0] == some[0];
    }
  }

  /** A client that keeps its connection gets the whole result: from wherever it is when the scan has ended it comes to
      its end, and what it has written by then are the ports and findings of the job, all of them and in order. */
  lemma StreamDelivers(scan: Scan, w: World) returns (moves: seq<Move>, e: World)
    requires Happens(scan, w) && Terminal(w.server.status) && !w.client.place.Gone?
    ensures MovesTo(scan, w, moves, e) && e.server == w.server && e.client.place.Over?
    ensures PortsIn(e.client.sent) == w.server.ports && FindingsIn(e.client.sent) == w.server.findings
  {
    moves, e := StreamEnds(scan, w);
    hide MovesTo, Left, Occurs, Closing, PortsIn, FindingsIn;
    var s, before :| Occurs(scan, s) && MovesTo(scan, World(s, Connect()), before, w);
    ConnectCloses();
    MovesJoin(scan, World(s, Connect()), before, w, moves, e);
    RunCloses(scan, World(s, Connect()), before + moves, e);
    EndIsSent(e.client);
    assert Happens(scan, e);
    StreamIsComplete(scan, e);
  }

  lemma ConnectCloses()
    ensures Closing(Connect())
  {
  }

  lemma EndIsSent(c: Client)
    requires Closing(c) && c.place.Over?
    ensures End in c.sent
  {
  }
}
