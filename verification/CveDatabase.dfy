/** The CVE table, its version ranges, and the findings a port gets from them. */
module CveDatabase {
  import opened Text
  import Padded = PaddedOrder
  import Dpkg
  import Backport
  import opened Findings

  const INT_MAX := 0x7fff_ffff

  datatype Entry = Entry(cve: string, product: string, minimum: string, maximum: string, description: string)

  /** What a plugin is told about an id. */
  datatype VerificationResult = VerificationResult(cve: string, vulnerable: bool, verification: string)

  // ---- version numbers ----

  function FirstDigit(raw: string, from: nat): (k: nat)
    requires from <= |raw|
    ensures from <= k <= |raw|
    ensures k < |raw| ==> IsDigit(raw[k])
    ensures forall i | from <= i < k :: !IsDigit(raw[i])
    decreases |raw| - from
  {
    if from == |raw| || IsDigit(raw[from]) then from else FirstDigit(raw, from + 1)
  }

  /** The numbers of a dotted run that starts at `cursor`; none at all when one of them does not fit an int. */
  function Numbers(raw: string, cursor: nat, before: seq<int>): seq<int>
    requires cursor <= |raw|
    decreases |raw| - cursor
  {
    if cursor == |raw| || !IsDigit(raw[cursor]) then before
    else
      var end := DigitsEnd(raw, cursor);
      var value := Numeral(raw, cursor, end);
      if value > INT_MAX then []
      else if end == |raw| || raw[end] != '.' then before + [value]
      else Numbers(raw, end + 1, before + [value])
  }

  function Components(raw: string): seq<int> {
    Numbers(raw, FirstDigit(raw, 0), [])
  }

  method ParseComponents(raw: string) returns (components: seq<int>)
    ensures components == Components(raw)
  {
    components := [];
    var cursor := 0;
    while cursor < |raw| && !IsDigit(raw[cursor])
      invariant cursor <= |raw|
      invariant FirstDigit(raw, 0) == FirstDigit(raw, cursor)
    {
      cursor := cursor + 1;
    }
    while cursor < |raw|
      invariant cursor <= |raw|
      invariant Components(raw) == Numbers(raw, cursor, components)
      decreases |raw| - cursor
    {
      if !IsDigit(raw[cursor]) {
        break;
      }
      var length := Dpkg.CountDigits(raw, cursor);
      var end := cursor + length;
      var value := Numeral(raw, cursor, end);
      if value > INT_MAX {
        return [];
      }
      if end >= |raw| || raw[end] != '.' {
        return components + [value];
      }
      components := components + [value];
      cursor := end + 1;
    }
  }

  /** Components compare position by position, a missing one as 0. */
  method CompareComponents(left: seq<int>, right: seq<int>) returns (sign: int)
    ensures sign == Padded.Compare(left, right)
  {
    var count := if |left| > |right| then |left| else |right|;
    var i := 0;
    while i < count
      invariant i <= count
      invariant forall k: nat | k < i :: Padded.At(left, k) == Padded.At(right, k)
    {
      var l := if i < |left| then left[i] else 0;
      var r := if i < |right| then right[i] else 0;
      if l != r {
        Padded.FirstDifference(left, right, i);
        return if l < r then -1 else 1;
      }
      i := i + 1;
    }
    Padded.FirstDifference(left, right, count);
    return 0;
  }

  function InRange(version: string, minimum: string, maximum: string): bool {
    var v := Components(version);
    && v != []
    && (minimum == "*" || Padded.Compare(v, Components(minimum)) >= 0)
    && (maximum == "*" || Padded.Compare(v, Components(maximum)) <= 0)
  }

  method VersionInRange(version: string, minimum: string, maximum: string) returns (within: bool)
    ensures within == InRange(version, minimum, maximum)
  {
    hide Components;
    var v := ParseComponents(version);
    if v == [] {
      return false;
    }
    if minimum != "*" {
      var low := ParseComponents(minimum);
      var sign := CompareComponents(v, low);
      if sign < 0 {
        return false;
      }
    }
    if maximum != "*" {
      var high := ParseComponents(maximum);
      var sign := CompareComponents(v, high);
      if sign > 0 {
        return false;
      }
    }
    return true;
  }

  /** A version between two versions of a range is in the range. */
  lemma RangeIsConvex(low: string, version: string, high: string, minimum: string, maximum: string)
    requires InRange(low, minimum, maximum) && InRange(high, minimum, maximum)
    requires Components(version) != []
    requires Padded.Compare(Components(low), Components(version)) <= 0
    requires Padded.Compare(Components(version), Components(high)) <= 0
    ensures InRange(version, minimum, maximum)
  {
    hide Components, Padded.Compare;
    var l, v, h := Components(low), Components(version), Components(high);
    if minimum != "*" {
      Padded.Antisymmetric(Components(minimum), l);
      Padded.Transitive(Components(minimum), l, v);
      Padded.Antisymmetric(Components(minimum), v);
    }
    if maximum != "*" {
      Padded.Transitive(v, h, Components(maximum));
    }
  }

  // ---- lookups ----

  predicate Matches(entry: Entry, product: string, version: string) {
    Lower(entry.product) == Lower(product) && InRange(version, entry.minimum, entry.maximum)
  }

  /** The entry `match` takes: the first that matches and, when an id is given, has that id. */
  function FirstMatch(db: seq<Entry>, cve: string, product: string, version: string, from: nat): (k: nat)
    requires from <= |db|
    ensures from <= k <= |db|
    ensures k < |db| ==> (cve == "" || db[k].cve == cve) && Matches(db[k], product, version)
    ensures forall i | from <= i < k :: !((cve == "" || db[i].cve == cve) && Matches(db[i], product, version))
    decreases |db| - from
  {
    if from == |db| || ((cve == "" || db[from].cve == cve) && Matches(db[from], product, version)) then from
    else FirstMatch(db, cve, product, version, from + 1)
  }

  method Match(db: seq<Entry>, cve: string, product: string, version: string) returns (k: nat)
    ensures k == if product == "" || version == "" then |db| else FirstMatch(db, cve, product, version, 0)
  {
    if product == "" || version == "" {
      return |db|;
    }
    hide InRange;
    k := 0;
    while k < |db|
      invariant k <= |db|
      invariant FirstMatch(db, cve, product, version, 0) == FirstMatch(db, cve, product, version, k)
    {
      var entry := db[k];
      if (cve == "" || entry.cve == cve) && Lower(entry.product) == Lower(product)
         && InRange(version, entry.minimum, entry.maximum) {
        return;
      }
      k := k + 1;
    }
  }

  /** Without a product or a version nothing is known; otherwise the id is either confirmed or ruled out. */
  function VerifyVersion(db: seq<Entry>, cve: string, product: string, version: string): VerificationResult {
    if product == "" || version == "" then VerificationResult(cve, false, "UNKNOWN")
    else
      var k := FirstMatch(db, cve, product, version, 0);
      if k < |db| then VerificationResult(db[k].cve, true, "VERSION_MATCH")
      else VerificationResult(cve, false, "NOT_VULNERABLE")
  }

  method Verify(db: seq<Entry>, cve: string, product: string, version: string) returns (result: VerificationResult)
    ensures result == VerifyVersion(db, cve, product, version)
  {
    hide FirstMatch;
    result := VerificationResult(cve, false, "UNKNOWN");
    if product == "" || version == "" {
      return;
    }
    var k := Match(db, cve, product, version);
    if k == |db| {
      result := result.(verification := "NOT_VULNERABLE");
      return;
    }
    result := VerificationResult(db[k].cve, true, "VERSION_MATCH");
  }

  // ---- findings of a port ----

  /** The finding for a matching entry. The fixed wording around the description is left out. */
  function Report(entry: Entry, port: Port, backport: Backport.Outcome): Finding {
    Finding("cve-database",
            entry.cve + ": " + (if backport.patched then "already patched by " + backport.via else entry.description),
            if backport.patched then "NOT_VULNERABLE" else "VERSION_MATCH",
            if backport.patched then 0.9 else 0.5,
            "", port.number, port.protocol, "PORT", port.service, entry.cve,
            if backport.patched then backport.via else entry.description,
            port.product + " " + port.version, "")
  }

  function Verdict(entry: Entry, port: Port, tag: Backport.DistroTag, fixes: seq<Backport.DistroFix>): Finding {
    Report(entry, port, Backport.Decide(fixes, entry.cve, port.version, tag))
  }

  function PortFindings(db: seq<Entry>, port: Port, tag: Backport.DistroTag, fixes: seq<Backport.DistroFix>)
    : seq<Finding>
  {
    if db == [] then []
    else
      var n := |db| - 1;
      PortFindings(db[..n], port, tag, fixes)
      + (if Matches(db[n], port.product, port.version) then [Verdict(db[n], port, tag, fixes)] else [])
  }

  /** What a port task may assume about the findings it collects: each is about the port itself and leaves the host to
      be filled in. */
  lemma {:induction false} FindingsAreAboutThePort(db: seq<Entry>, port: Port, tag: Backport.DistroTag,
      fixes: seq<Backport.DistroFix>)
    ensures forall f | f in PortFindings(db, port, tag, fixes) ::
              f.scope == "PORT" && f.port == port.number && f.host == ""
  {
    hide Matches, Backport.Decide;
    if db != [] {
      FindingsAreAboutThePort(db[..|db| - 1], port, tag, fixes);
    }
  }

  /** The backport check of every matching entry comes to an end. */
  predicate ChecksEnd(db: seq<Entry>, port: Port, tag: Backport.DistroTag, fixes: seq<Backport.DistroFix>) {
    port.product == "" || port.version == ""
    || forall k | 0 <= k < |db| && Matches(db[k], port.product, port.version) ::
         Backport.DecideEnds(fixes, db[k].cve, port.version, tag)
  }

  method CheckPort(db: seq<Entry>, port: Port, tag: Backport.DistroTag, fixes: Backport.FixTable)
    returns (findings: seq<Finding>)
    requires fixes.Valid()
    requires ChecksEnd(db, port, tag, fixes.table)
    ensures findings ==
            if port.product == "" || port.version == "" then [] else PortFindings(db, port, tag, fixes.table)
  {
    findings := [];
    if port.product == "" || port.version == "" {
      return;
    }
    for i := 0 to |db|
      invariant findings == PortFindings(db[..i], port, tag, fixes.table)
    {
      var entry := db[i];
      assert db[..i + 1][..i] == db[..i];
      if Lower(entry.product) != Lower(port.product) || !InRange(port.version, entry.minimum, entry.maximum) {
        continue;
      }
      var backport := fixes.CheckBackport(entry.cve, port.version, tag);
      findings := findings + [Report(entry, port, backport)];
    }
    assert db[..|db|] == db;
  }

  /** A newer package revision leaves every finding in its place and never turns a patched one back. */
  lemma {:induction false} UpgradeNeverReopens(
      db: seq<Entry>, port: Port, distro: string, r: string, newer: string, fixes: seq<Backport.DistroFix>)
    requires '-' !in r && '-' !in newer && newer != ""
    requires Dpkg.Compare(r, newer) <= 0
    ensures var before := PortFindings(db, port, Backport.DistroTag(distro, r), fixes);
            var after := PortFindings(db, port, Backport.DistroTag(distro, newer), fixes);
            && |before| == |after|
            && forall k | 0 <= k < |before| ::
                 && before[k].cve == after[k].cve
                 && (before[k].verification == "NOT_VULNERABLE" ==> after[k].verification == "NOT_VULNERABLE")
  {
    hide Dpkg.Compare, Matches, Backport.Decide, Report;
    if db != [] {
      var entry := db[|db| - 1];
      UpgradeNeverReopens(db[..|db| - 1], port, distro, r, newer, fixes);
      var i, n := Backport.DistroTag(distro, r), Backport.DistroTag(distro, newer);
      ReportTells(entry, port, Backport.Decide(fixes, entry.cve, port.version, i));
      ReportTells(entry, port, Backport.Decide(fixes, entry.cve, port.version, n));
      if Backport.Decide(fixes, entry.cve, port.version, i).patched {
        Backport.UpgradeStaysPatched(fixes, entry.cve, port.version, distro, r, newer);
      }
    }
  }

  lemma ReportTells(entry: Entry, port: Port, backport: Backport.Outcome)
    ensures var f := Report(entry, port, backport);
            f.cve == entry.cve && (f.verification == "NOT_VULNERABLE" <==> backport.patched)
  {
  }

  /** A plugin that asks about an id is told "vulnerable" exactly when the port gets a finding with it. */
  lemma {:induction false} VerifyAgreesWithFindings(
      db: seq<Entry>, cve: string, port: Port, tag: Backport.DistroTag, fixes: seq<Backport.DistroFix>)
    requires cve != "" && port.product != "" && port.version != ""
    ensures VerifyVersion(db, cve, port.product, port.version)
         == if exists f :: f in PortFindings(db, port, tag, fixes) && f.cve == cve
            then VerificationResult(cve, true, "VERSION_MATCH")
            else VerificationResult(cve, false, "NOT_VULNERABLE")
  {
    FindingsComeFromMatches(db, cve, port, tag, fixes);
  }

  lemma {:induction false} FindingsComeFromMatches(
      db: seq<Entry>, cve: string, port: Port, tag: Backport.DistroTag, fixes: seq<Backport.DistroFix>)
    ensures (exists f :: f in PortFindings(db, port, tag, fixes) && f.cve == cve) <==>
            (exists k :: 0 <= k < |db| && db[k].cve == cve && Matches(db[k], port.product, port.version))
  {
    hide Matches, Backport.Decide;
    if db != [] {
      var n := |db| - 1;
      FindingsComeFromMatches(db[..n], cve, port, tag, fixes);
      var before, after := PortFindings(db[..n], port, tag, fixes), PortFindings(db, port, tag, fixes);
      if exists f :: f in before && f.cve == cve {
        var f :| f in before && f.cve == cve;
        assert f in after;
        var k :| 0 <= k < n && db[..n][k].cve == cve && Matches(db[..n][k], port.product, port.version);
        assert db[k].cve == cve;
      } else if Matches(db[n], port.product, port.version) && db[n].cve == cve {
        assert after[|after| - 1].cve == cve && after[|after| - 1] in after;
      } else {
        assert forall k | 0 <= k < n :: db[..n][k] == db[k];
      }
    }
  }
}
