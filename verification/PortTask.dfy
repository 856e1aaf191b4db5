/** The end of a port task: the findings of the checks are gathered, completed and deduplicated. */
module PortTask {
  import opened Findings
  import opened DedupProperties
  import opened ScanServer

  /** A port that does not answer, or one that does with the findings of its native checks and plugins, and with those
      the CVE table has for it. */
  datatype Checked = Shut | Answers(port: Port, local: seq<Finding>, known: seq<Finding>)

  /** A check of the task itself has reported this id. */
  predicate Reported(local: seq<Finding>, cve: string) {
    cve != "" && exists f :: f in local && f.cve == cve
  }

  /** What the table adds: nothing about an id that is reported already. */
  function Unreported(local: seq<Finding>, known: seq<Finding>): seq<Finding> {
    if known == [] then []
    else
      var n := |known| - 1;
      Unreported(local, known[..n]) + (if Reported(local, known[n].cve) then [] else [known[n]])
  }

  function Collected(checked: Checked): seq<Finding>
    requires checked.Answers?
  {
    checked.local + Unreported(checked.local, checked.known)
  }

  /** What a check left open is filled in from the target and the port. */
  function Fill(f: Finding, target: string, port: Port): Finding {
    f.(host := if f.host == "" then target else f.host,
       protocol := if f.protocol == UNKNOWN then port.protocol else f.protocol,
       service := if f.service == "" then port.service else f.service)
  }

  function FillAll(fs: seq<Finding>, target: string, port: Port): (filled: seq<Finding>)
    ensures |filled| == |fs|
  {
    seq(|fs|, i requires 0 <= i < |fs| => Fill(fs[i], target, port))
  }

  function HandOn(target: string, checked: Checked): Probed {
    match checked
    case Shut => Closed
    case Answers(port, _, _) => Open(port, Dedup(FillAll(Collected(checked), target, port)))
  }

  // ---- the loops ----

  method GatherFindings(target: string, port: Port, local: seq<Finding>, known: seq<Finding>)
    returns (findings: seq<Finding>)
    ensures Open(port, findings) == HandOn(target, Answers(port, local, known))
  {
    hide Dedup;
    var reported: set<string> := {};
    for i := 0 to |local|
      invariant forall cve :: cve in reported <==> Reported(local[..i], cve)
    {
      assert local[..i + 1] == local[..i] + [local[i]];
      if local[i].cve != "" {
        reported := reported + {local[i].cve};
      }
    }
    assert local[..|local|] == local;
    findings := local;
    for i := 0 to |known|
      invariant findings == local + Unreported(local, known[..i])
    {
      assert known[..i + 1][..i] == known[..i] && known[..i + 1][i] == known[i];
      if known[i].cve !in reported {
        findings := findings + [known[i]];
      }
    }
    assert known[..|known|] == known;
    ghost var collected := findings;
    for i := 0 to |findings|
      invariant |findings| == |collected|
      invariant forall k | 0 <= k < i :: findings[k] == Fill(collected[k], target, port)
      invariant forall k | i <= k < |findings| :: findings[k] == collected[k]
    {
      var f := findings[i];
      if f.host == "" {
        f := f.(host := target);
      }
      if f.protocol == UNKNOWN {
        f := f.(protocol := port.protocol);
      }
      if f.service == "" {
        f := f.(service := port.service);
      }
      findings := findings[i := f];
    }
    assert findings == FillAll(collected, target, port);
    findings := Deduplicate(findings);
  }

  // ---- what is gathered ----

  lemma {:induction false} UnreportedIff(local: seq<Finding>, known: seq<Finding>, f: Finding)
    ensures f in Unreported(local, known) <==>
            f in known && (f.cve == "" || forall g | g in local :: g.cve != f.cve)
  {
    if known != [] {
      var n := |known| - 1;
      UnreportedIff(local, known[..n], f);
      assert known == known[..n] + [known[n]];
    }
  }

  /** The task gathers the finding: from its own checks, or from the table if they did not report its id. */
  ghost predicate Gathers(checked: Checked, f: Finding) {
    && checked.Answers?
    && (f in checked.local || (f in checked.known && (f.cve == "" || forall g | g in checked.local :: g.cve != f.cve)))
  }

  lemma CollectedIff(checked: Checked, f: Finding)
    requires checked.Answers?
    ensures f in Collected(checked) <==> Gathers(checked, f)
  {
    UnreportedIff(checked.local, checked.known, f);
  }

  /** The finding with its three open fields filled in, each only if it was open. */
  ghost predicate Completes(g: Finding, f: Finding, target: string, port: Port) {
    && g == f.(host := g.host, protocol := g.protocol, service := g.service)
    && (if f.host == "" then g.host == target else g.host == f.host)
    && (if f.protocol == UNKNOWN then g.protocol == port.protocol else g.protocol == f.protocol)
    && (if f.service == "" then g.service == port.service else g.service == f.service)
  }

  /** Every finding gathered on a port that answers leaves one with its identity, completed. */
  lemma IsHandedOn(target: string, checked: Checked, f: Finding) returns (g: Finding, c: Finding)
    requires Gathers(checked, f)
    ensures HandOn(target, checked).Open? && g in HandOn(target, checked).findings
    ensures Completes(c, f, target, checked.port) && Identity(g) == Identity(c)
  {
    CollectedIff(checked, f);
    hide Dedup, Identity, Collected, Gathers;
    var collected := Collected(checked);
    var filled := FillAll(collected, target, checked.port);
    var i :| 0 <= i < |collected| && collected[i] == f;
    var k := SurvivorOf(filled, i);
    g, c := Dedup(filled)[k], filled[i];
  }

  /** And everything handed on is one of those, but for the texts a merge fills in. */
  lemma ComesFrom(target: string, checked: Checked, g: Finding) returns (f: Finding, c: Finding)
    requires HandOn(target, checked).Open? && g in HandOn(target, checked).findings
    ensures Gathers(checked, f) && Completes(c, f, target, checked.port) && SameButFilled(g, c)
  {
    hide Dedup, Identity, Collected, Gathers;
    var collected := Collected(checked);
    var filled := FillAll(collected, target, checked.port);
    var i :| 0 <= i < |Dedup(filled)| && Dedup(filled)[i] == g;
    var k := DedupMember(filled, i);
    f, c := collected[k], filled[k];
    CollectedIff(checked, f);
  }

  /** The port itself is handed on as it is. */
  lemma PortIsHandedOn(target: string, checked: Checked)
    ensures HandOn(target, checked).Open? <==> checked.Answers?
    ensures checked.Answers? ==> HandOn(target, checked).port == checked.port
  {
  }

  /** What is handed on has evidence exactly if a finding of its identity, once completed, had. */
  lemma EvidenceIsHandedOn(target: string, checked: Checked, g: Finding)
    requires HandOn(target, checked).Open? && g in HandOn(target, checked).findings
    ensures g.evidence != "" <==>
            exists f, c :: Gathers(checked, f) && Completes(c, f, target, checked.port) && Identity(c) == Identity(g)
                           && f.evidence != ""
  {
    hide Identity, Dedup, Collected, Gathers;
    var collected := Collected(checked);
    var filled := FillAll(collected, target, checked.port);
    var k :| 0 <= k < |Dedup(filled)| && Dedup(filled)[k] == g;
    EvidenceSurvives(filled, k);
    if g.evidence != "" {
      var i :| 0 <= i < |filled| && Identity(filled[i]) == Identity(g) && filled[i].evidence != "";
      CollectedIff(checked, collected[i]);
      assert Completes(filled[i], collected[i], target, checked.port);
    }
    forall f, c |
      Gathers(checked, f) && Completes(c, f, target, checked.port) && Identity(c) == Identity(g) && f.evidence != ""
      ensures g.evidence != ""
    {
      CollectedIff(checked, f);
      var i :| 0 <= i < |collected| && collected[i] == f;
      assert filled[i] == c;
    }
  }
}
