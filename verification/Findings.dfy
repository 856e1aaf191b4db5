/** Findings, their identity, and the deduplication that keeps one finding per identity. */
module Findings {

  datatype Protocol = UNKNOWN | TCP | UDP | ICMP

  function ProtocolName(p: Protocol): string {
    match p
    case UNKNOWN => "UNKNOWN"
    case TCP => "TCP"
    case UDP => "UDP"
    case ICMP => "ICMP"
  }

  /** `details` stands for the fields deduplication only carries along. */
  datatype Finding = Finding(
    pluginName: string, title: string, verification: string, score: real,
    host: string, port: nat, protocol: Protocol, scope: string, service: string, cve: string,
    description: string, evidence: string, details: string)

  /** What is known about an open port. */
  datatype Port = Port(
    number: nat, protocol: Protocol, service: string, product: string, version: string, distro: string)

  function Digit(d: nat): char
    requires d < 10
  {
    ('0' as int + d) as char
  }

  function Decimal(n: nat): (s: string)
    ensures s != "" && '|' !in s
  {
    if n < 10 then [Digit(n)] else Decimal(n / 10) + [Digit(n % 10)]
  }

  function Prefix(f: Finding): string {
    f.host + "|" + f.scope + "|"
  }

  function Suffix(f: Finding): string {
    f.service + "|" + (if f.cve == "" then f.pluginName + "|" + f.title else f.cve)
  }

  function Identity(f: Finding): string {
    Prefix(f) + (ProtocolName(f.protocol) + "|"
    + ((if f.scope != "HOST" then Decimal(f.port) + "|" else "") + Suffix(f)))
  }

  function Rank(verification: string): int {
    if verification == "ACTIVE_CHECK" then 3
    else if verification == "CONFIG_MATCH" then 2
    else if verification == "VERSION_MATCH" then 1
    else 0
  }

  /** Strictly better: a higher rank, or the same rank with a higher score. */
  predicate Better(f: Finding, g: Finding) {
    Rank(f.verification) > Rank(g.verification) || (Rank(f.verification) == Rank(g.verification) && f.score > g.score)
  }

  /** What stays of `current` when `f` with the same identity arrives. */
  function Merge(current: Finding, f: Finding): Finding {
    if Better(f, current) || current.evidence == "" then
      f.(evidence := if f.evidence == "" then current.evidence else f.evidence,
         description := if f.description == "" then current.description else f.description)
    else current
  }

  // ---- the specification: one survivor per identity, in order of first occurrence ----

  function Ids(xs: seq<Finding>): (ids: seq<string>)
    ensures |ids| == |xs|
  {
    seq(|xs|, i requires 0 <= i < |xs| => Identity(xs[i]))
  }

  /** The distinct entries, in order of first occurrence. */
  function Uniq(ids: seq<string>): seq<string> {
    if ids == [] then []
    else
      var n := |ids| - 1;
      var before := Uniq(ids[..n]);
      if ids[n] in before then before else before + [ids[n]]
  }

  /** The findings with one identity, in order. */
  function Class(xs: seq<Finding>, id: string): seq<Finding> {
    if xs == [] then []
    else
      var n := |xs| - 1;
      Class(xs[..n], id) + (if Identity(xs[n]) == id then [xs[n]] else [])
  }

  function Survivor(c: seq<Finding>): Finding
    requires c != []
  {
    var n := |c| - 1;
    if n == 0 then c[0] else Merge(Survivor(c[..n]), c[n])
  }

  lemma {:induction false} UniqExact(ids: seq<string>)
    ensures forall id :: id in Uniq(ids) <==> id in ids
    ensures forall i, j | 0 <= i < j < |Uniq(ids)| :: Uniq(ids)[i] != Uniq(ids)[j]
    ensures |Uniq(ids)| <= |ids|
  {
    if ids != [] {
      var n := |ids| - 1;
      UniqExact(ids[..n]);
      assert ids == ids[..n] + [ids[n]];
    }
  }

  lemma {:induction false} ClassInhabited(xs: seq<Finding>, id: string)
    ensures Class(xs, id) != [] <==> id in Ids(xs)
  {
    hide Identity;
    if xs != [] {
      var n := |xs| - 1;
      ClassInhabited(xs[..n], id);
      assert Ids(xs) == Ids(xs[..n]) + [Identity(xs[n])];
    }
  }

  ghost predicate IsDedup(xs: seq<Finding>, unique: seq<Finding>) {
    var ids := Uniq(Ids(xs));
    && |unique| == |ids|
    && Inhabited(xs, ids)
    && forall i | 0 <= i < |ids| :: unique[i] == Survivor(Class(xs, ids[i]))
  }

  ghost predicate Inhabited(xs: seq<Finding>, ids: seq<string>) {
    forall i | 0 <= i < |ids| :: Class(xs, ids[i]) != []
  }

  lemma ClassesInhabited(xs: seq<Finding>)
    ensures Inhabited(xs, Uniq(Ids(xs)))
  {
    hide Class, Identity;
    var ids := Uniq(Ids(xs));
    UniqExact(Ids(xs));
    forall i | 0 <= i < |ids| ensures Class(xs, ids[i]) != [] {
      assert ids[i] in ids;
      ClassInhabited(xs, ids[i]);
    }
  }

  function Survivors(xs: seq<Finding>, ids: seq<string>): (survivors: seq<Finding>)
    requires Inhabited(xs, ids)
    ensures |survivors| == |ids|
    ensures forall i | 0 <= i < |ids| :: survivors[i] == Survivor(Class(xs, ids[i]))
  {
    if ids == [] then []
    else Survivors(xs, ids[..|ids| - 1]) + [Survivor(Class(xs, ids[|ids| - 1]))]
  }

  function Dedup(xs: seq<Finding>): (unique: seq<Finding>)
    ensures IsDedup(xs, unique)
  {
    ClassesInhabited(xs);
    Survivors(xs, Uniq(Ids(xs)))
  }

  lemma DedupUnique(xs: seq<Finding>, unique: seq<Finding>)
    requires IsDedup(xs, unique)
    ensures unique == Dedup(xs)
  {
  }

  // ---- the loop ----

  lemma IdsAppend(xs: seq<Finding>, f: Finding)
    ensures Ids(xs + [f]) == Ids(xs) + [Identity(f)]
  {
    hide Identity;
  }

  lemma UniqAppend(ids: seq<string>, id: string)
    ensures Uniq(ids + [id]) == if id in Uniq(ids) then Uniq(ids) else Uniq(ids) + [id]
  {
    assert (ids + [id])[..|ids|] == ids;
  }

  lemma ClassAppend(xs: seq<Finding>, f: Finding, id: string)
    ensures Class(xs + [f], id) == Class(xs, id) + (if Identity(f) == id then [f] else [])
  {
    hide Identity;
    assert (xs + [f])[..|xs|] == xs;
  }

  lemma ClassKept(xs: seq<Finding>, f: Finding, id: string)
    requires Identity(f) != id
    ensures Class(xs + [f], id) == Class(xs, id)
  {
    hide Identity;
    ClassAppend(xs, f, id);
  }

  lemma SurvivorAppend(c: seq<Finding>, f: Finding)
    ensures Survivor(c + [f]) == if c == [] then f else Merge(Survivor(c), f)
  {
    hide Merge;
    assert (c + [f])[..|c|] == c;
  }

  lemma StepNew(xs: seq<Finding>, unique: seq<Finding>, f: Finding)
    requires IsDedup(xs, unique) && Identity(f) !in Uniq(Ids(xs))
    ensures IsDedup(xs + [f], unique + [f])
  {
    hide Identity, Merge, Survivor, Uniq, Class, Ids;
    IdsAppend(xs, f);
    UniqAppend(Ids(xs), Identity(f));
    var ids := Uniq(Ids(xs));
    forall i | 0 <= i < |ids| ensures Class(xs + [f], ids[i]) == Class(xs, ids[i]) {
      ClassKept(xs, f, ids[i]);
    }
    UniqExact(Ids(xs));
    ClassInhabited(xs, Identity(f));
    ClassAppend(xs, f, Identity(f));
    assert [] + [f] == [f];
    SurvivorAppend([], f);
  }

  lemma StepOld(xs: seq<Finding>, unique: seq<Finding>, f: Finding, k: nat)
    requires IsDedup(xs, unique)
    requires k < |unique| && Uniq(Ids(xs))[k] == Identity(f)
    ensures IsDedup(xs + [f], unique[k := Merge(unique[k], f)])
  {
    hide Identity, Merge, Survivor, Uniq, Class, Ids;
    IdsAppend(xs, f);
    UniqAppend(Ids(xs), Identity(f));
    UniqExact(Ids(xs));
    var ids := Uniq(Ids(xs));
    forall i | 0 <= i < |ids| && i != k ensures Class(xs + [f], ids[i]) == Class(xs, ids[i]) {
      ClassKept(xs, f, ids[i]);
    }
    ClassAppend(xs, f, ids[k]);
    SurvivorAppend(Class(xs, ids[k]), f);
  }

  method Deduplicate(findings: seq<Finding>) returns (unique: seq<Finding>)
    ensures unique == Dedup(findings)
  {
    hide Identity, Dedup, IsDedup, Better;
    unique := [];
    var positions: map<string, nat> := map[];
    EmptyDedup();
    for i := 0 to |findings|
      invariant IsDedup(findings[..i], unique)
      invariant |unique| == |Uniq(Ids(findings[..i]))|
      invariant forall id :: id in positions <==> id in Uniq(Ids(findings[..i]))
      invariant forall id | id in positions :: positions[id] < |unique| && Uniq(Ids(findings[..i]))[positions[id]] == id
    {
      var finding := findings[i];
      var key := Identity(finding);
      assert findings[..i + 1] == findings[..i] + [finding];
      IdsAppend(findings[..i], finding);
      UniqAppend(Ids(findings[..i]), key);
      if key !in positions {
        StepNew(findings[..i], unique, finding);
        positions := positions[key := |unique|];
        unique := unique + [finding];
      } else {
        var k := positions[key];
        StepOld(findings[..i], unique, finding, k);
        var current := unique[k];
        if Better(finding, current) || current.evidence == "" {
          var merged := finding;
          if merged.evidence == "" {
            merged := merged.(evidence := current.evidence);
          }
          if merged.description == "" {
            merged := merged.(description := current.description);
          }
          unique := unique[k := merged];
        } else {
          assert unique == unique[k := Merge(current, finding)];
        }
      }
    }
    assert findings[..|findings|] == findings;
    DedupUnique(findings, unique);
  }

  lemma EmptyDedup()
    ensures IsDedup([], []) && Uniq(Ids([])) == []
  {
  }
}
