/** The job record and the per-connection state of its stream, updated in place, with the locked sections as methods. */
module ScanJobClass {
  import opened Findings
  import opened ScanServer
  import opened ScanStream

  class ScanJob {
    var status: nat
    var scanned: nat
    var ports: seq<Port>
    var findings: seq<Finding>

    ghost predicate Shows(s: Server)
      reads this
    {
      s.status == status && s.scanned == scanned && s.ports == ports && s.findings == findings
    }

    constructor ()
      ensures forall c: Scan :: Shows(Begin(c))
    {
      status, scanned, ports, findings := 0, 0, [], [];
    }

    /** The callback a worker runs for an open port, under the results lock. */
    method OnPortOpen(port: Port, fs: seq<Finding>)
      modifies this`ports, this`findings
      ensures ports == old(ports) + [port] && findings == old(findings) + fs
      ensures forall c: Scan, s: Server, w: nat ::
                old(Shows(s)) && May(c, s, ShowOpen(w)) && c.probe(s.pool.workers[w].task) == Open(port, fs) ==>
                  Shows(Do(c, s, ShowOpen(w)))
    {
      ports := ports + [port];
      ghost var before := findings;
      for k := 0 to |fs|
        invariant ports == old(ports) + [port] && findings == before + fs[..k]
      {
        assert fs[..k + 1] == fs[..k] + [fs[k]];
        findings := findings + [fs[k]];
      }
      assert fs[..|fs|] == fs;
    }

    method Tick()
      modifies this`scanned
      ensures scanned == old(scanned) + 1
      ensures forall c: Scan, s: Server, w: nat :: old(Shows(s)) && May(c, s, Count(w)) ==> Shows(Do(c, s, Count(w)))
    {
      scanned := scanned + 1;
    }
  }

  /** The local variables of one streaming connection. */
  class Stream {
    var sentPorts: nat
    var sentFindings: nat
    var lastScanned: int
    var lastStatus: int

    ghost predicate Holds(c: Client)
      reads this
    {
      c.sentPorts == sentPorts && c.sentFindings == sentFindings && c.lastScanned == lastScanned
          && c.lastStatus == lastStatus
    }

    constructor ()
      ensures Holds(Connect())
    {
      sentPorts, sentFindings, lastScanned, lastStatus := 0, 0, -1, -1;
    }

    /** The locked section of a turn: the entries that are new since the last one. */
    method TakeNew(job: ScanJob) returns (ports: seq<Port>, findings: seq<Finding>)
      modifies this`sentPorts, this`sentFindings
      ensures ports == Beyond(job.ports, old(sentPorts)) && findings == Beyond(job.findings, old(sentFindings))
      ensures sentPorts == if |job.ports| > old(sentPorts) then |job.ports| else old(sentPorts)
      ensures sentFindings == if |job.findings| > old(sentFindings) then |job.findings| else old(sentFindings)
    {
      ports, findings := [], [];
      if |job.ports| > sentPorts {
        ports := job.ports[sentPorts..];
        sentPorts := |job.ports|;
      }
      if |job.findings| > sentFindings {
        findings := job.findings[sentFindings..];
        sentFindings := |job.findings|;
      }
    }

    static method PortFrames(ports: seq<Port>) returns (events: seq<Event>)
      ensures events == PortEvents(ports)
    {
      events := [];
      for k := 0 to |ports|
        invariant events == PortEvents(ports[..k])
      {
        assert PortEvents(ports[..k + 1]) == PortEvents(ports[..k]) + [PortEvent(ports[k])];
        events := events + [PortEvent(ports[k])];
      }
      assert ports[..|ports|] == ports;
    }

    static method FindingFrames(findings: seq<Finding>) returns (events: seq<Event>)
      ensures events == FindingEvents(findings)
    {
      events := [];
      for k := 0 to |findings|
        invariant events == FindingEvents(findings[..k])
      {
        assert FindingEvents(findings[..k + 1]) == FindingEvents(findings[..k]) + [FindingEvent(findings[k])];
        events := events + [FindingEvent(findings[k])];
      }
      assert findings[..|findings|] == findings;
    }

    /** The writes of a turn, in the order the browser gets them. */
    method WriteTurn(status: nat, scanned: int, ports: seq<Port>, findings: seq<Finding>) returns (events: seq<Event>)
      modifies this`lastScanned, this`lastStatus
      ensures forall c: Client :: old(Holds(c)) ==> events == Turn(c, status, scanned, ports, findings)
      ensures lastScanned == scanned && lastStatus == status
    {
      hide PortEvents, FindingEvents;
      var progress, delta, end := [], [], [];
      if scanned != lastScanned {
        progress := [Progress(scanned)];
        lastScanned := scanned;
      }
      var portFrames := PortFrames(ports);
      var findingFrames := FindingFrames(findings);
      if status != lastStatus {
        delta := [StatusEvent(status)];
        lastStatus := status;
      }
      if status == DONE || status == ERROR {
        end := [End];
      }
      events := progress + (portFrames + (findingFrames + (delta + end)));
    }

    /** A whole turn after the status and the counter have been loaded: the snapshot move of the client. */
    method RunTurn(job: ScanJob, status: nat, scanned: int) returns (events: seq<Event>, over: bool)
      modifies this
      ensures over <==> Terminal(status)
      ensures forall c: Client, s: Server ::
                old(Holds(c)) && job.Shows(s) && c.place == TakeSnapshot(status, scanned) ==>
                  events == ClientMoves(c, s, Snapshots).outbox && Holds(ClientMoves(c, s, Snapshots))
    {
      hide Turn;
      var ports, findings := TakeNew(job);
      label Taken:
      events := WriteTurn(status, scanned, ports, findings);
      over := Terminal(status);
      forall c: Client, s: Server | old(Holds(c)) && job.Shows(s) && c.place == TakeSnapshot(status, scanned)
        ensures events == ClientMoves(c, s, Snapshots).outbox
      {
        var d := c.(sentPorts := old@Taken(sentPorts), sentFindings := old@Taken(sentFindings));
        assert old@Taken(Holds(d));
        SameTurn(c, d, status, scanned, ports, findings);
      }
    }
  }

  lemma SameTurn(c: Client, d: Client, status: nat, scanned: int, ports: seq<Port>, findings: seq<Finding>)
    requires c.lastScanned == d.lastScanned && c.lastStatus == d.lastStatus
    ensures Turn(c, status, scanned, ports, findings) == Turn(d, status, scanned, ports, findings)
  {
    hide PortEvents, FindingEvents;
  }
}
