/** Distro fix table, its index, and the decision whether an installed package already carries a fix. */
module Backport {
  import opened Text
  import Dpkg
  import Padded = PaddedOrder

  datatype DistroFix = DistroFix(
    cve: string, distro: string, release: string, package: string, fixedVersion: string, status: string)

  /** What the tag in a banner says about the installed package. */
  datatype DistroTag = DistroTag(distro: string, revision: string)

  datatype Outcome = Outcome(patched: bool, releaseNotAffected: bool, via: string)

  const UNPATCHED := Outcome(false, false, "")

  function FixKey(cve: string, distro: string): string {
    cve + "|" + Lower(distro)
  }

  function RowKey(row: DistroFix): string {
    FixKey(row.cve, row.distro)
  }

  // ---- loading ----

  /** The positions of the rows with a key, in ascending order. */
  function Positions(table: seq<DistroFix>, key: string): (ps: seq<nat>)
    ensures forall p | p in ps :: p < |table|
  {
    if table == [] then []
    else
      var n := |table| - 1;
      Positions(table[..n], key) + (if RowKey(table[n]) == key then [n] else [])
  }

  lemma {:induction false} PositionsAscendExactly(table: seq<DistroFix>, key: string)
    ensures var ps := Positions(table, key);
            && (forall p: nat :: p in ps <==> p < |table| && RowKey(table[p]) == key)
            && (forall i, j | 0 <= i < j < |ps| :: ps[i] < ps[j])
  {
    if table != [] {
      var n := |table| - 1;
      PositionsAscendExactly(table[..n], key);
      var before, ps := Positions(table[..n], key), Positions(table, key);
      forall i, j | 0 <= i < j < |ps| ensures ps[i] < ps[j] {
        if j == |before| {
          assert before[i] in before;
        }
      }
    }
  }

  ghost predicate Indexes(index: map<string, seq<nat>>, table: seq<DistroFix>) {
    && (forall key | key in index :: index[key] == Positions(table, key))
    && (forall key | key !in index :: Positions(table, key) == [])
  }

  /** A row as the loader stores it: the line split at tabs, distro and status in lower case. */
  function RowOf(line: string): DistroFix
    requires Loadable(line)
  {
    var f := Split(line, '\t');
    DistroFix(f[0], Lower(f[1]), f[2], f[3], f[4], Lower(f[5]))
  }

  predicate Loadable(line: string) {
    line != "" && line[0] != '#' && |Split(line, '\t')| >= 6
  }

  function RowsOf(lines: seq<string>): seq<DistroFix> {
    if lines == [] then []
    else
      var n := |lines| - 1;
      RowsOf(lines[..n]) + (if Loadable(lines[n]) then [RowOf(lines[n])] else [])
  }

  class FixTable {
    var table: seq<DistroFix>
    var index: map<string, seq<nat>>

    ghost predicate Valid()
      reads this
    {
      Indexes(index, table)
    }

    constructor ()
      ensures Valid() && table == []
    {
      table, index := [], map[];
    }

    method Append(row: DistroFix)
      requires Valid()
      modifies this
      ensures Valid() && table == old(table) + [row]
    {
      var key := RowKey(row);
      var before := if key in index then index[key] else [];
      table := table + [row];
      index := index[key := before + [|table| - 1]];
      assert table[..|table| - 1] == old(table);
    }

    method Load(lines: seq<string>)
      modifies this
      ensures Valid() && table == RowsOf(lines)
    {
      table, index := [], map[];
      var i := 0;
      while i < |lines|
        invariant i <= |lines|
        invariant Valid() && table == RowsOf(lines[..i])
      {
        var line := lines[i];
        assert lines[..i + 1][..i] == lines[..i];
        if line != "" && line[0] != '#' {
          var f := Split(line, '\t');
          if |f| >= 6 {
            Append(DistroFix(f[0], Lower(f[1]), f[2], f[3], f[4], Lower(f[5])));
          }
        }
        i := i + 1;
      }
      assert lines[..i] == lines;
    }

    static method IsCovered(fix: DistroFix, installed: string) returns (covered: bool)
      requires CoverEnds(fix, installed)
      ensures covered == Covers(fix, installed)
    {
      hide Dpkg.Settled, Dpkg.Compare, Dpkg.Parse;
      var hasFix := fix.status == "released" || fix.status == "resolved" || fix.status == "fixed";
      if !hasFix || fix.fixedVersion == "" {
        return false;
      }
      var fv := Dpkg.ParseVersion(fix.fixedVersion);
      var iv := Dpkg.ParseVersion(installed);
      var upstream := Dpkg.CompareStr(fv.upstream, iv.upstream);
      if upstream != 0 {
        return false;
      }
      var revision := Dpkg.CompareStr(iv.revision, fv.revision);
      return revision >= 0;
    }

    /** Follows the index, and decides as a scan of the whole table from its first row would. */
    method CheckBackport(cve: string, version: string, tag: DistroTag) returns (result: Outcome)
      requires Valid()
      requires DecideEnds(table, cve, version, tag)
      ensures result == Decide(table, cve, version, tag)
    {
      hide Covers, CoverEnds, FixKey, Positions;
      result := UNPATCHED;
      if version == "" || tag.distro == "" || tag.revision == "" {
        return;
      }
      var installed := version + "-" + tag.revision;
      var key := FixKey(cve, tag.distro);
      if key !in index {
        PositionsAscendExactly(table, key);
        SkipOthers(table, key, installed, tag.distro, 0, |table|, false);
        return;
      }
      var ps := index[key];
      PositionsAscendExactly(table, key);
      var k := 0;
      ghost var from := 0;
      while k < |ps|
        invariant k <= |ps| && from <= |table|
        invariant from == if k == 0 then 0 else ps[k - 1] + 1
        invariant result == Outcome(false, result.releaseNotAffected, "")
        invariant Scan(table, key, installed, tag.distro, 0, false)
               == Scan(table, key, installed, tag.distro, from, result.releaseNotAffected)
        invariant ScanEnds(table, key, installed, from)
      {
        assert ps[k] in ps;
        var fix := table[ps[k]];
        OthersBetween(table, key, k, from);
        SkipOthers(table, key, installed, tag.distro, from, ps[k], result.releaseNotAffected);
        SkipOthersEnds(table, key, installed, from, ps[k]);
        from := ps[k] + 1;
        k := k + 1;
        if fix.status == "not-affected" {
          result := result.(releaseNotAffected := true);
          continue;
        }
        var covered := IsCovered(fix, installed);
        if !covered {
          continue;
        }
        var via := tag.distro + " " + fix.release + ": " + fix.package + " " + fix.fixedVersion;
        result := Outcome(true, result.releaseNotAffected, via);
        return;
      }
      OthersBetween(table, key, k, from);
      SkipOthers(table, key, installed, tag.distro, from, |table|, result.releaseNotAffected);
    }
  }

  // ---- what the decision is ----

  function Via(distro: string, fix: DistroFix): string {
    distro + " " + fix.release + ": " + fix.package + " " + fix.fixedVersion
  }

  /** The row ships a fix, for this upstream version, at or below the installed revision. */
  predicate Covers(fix: DistroFix, installed: string) {
    && fix.status in {"released", "resolved", "fixed"}
    && fix.fixedVersion != ""
    && var fv, iv := Dpkg.Parse(fix.fixedVersion), Dpkg.Parse(installed);
       && Dpkg.Compare(fv.upstream, iv.upstream) == 0
       && Dpkg.Compare(iv.revision, fv.revision) >= 0
  }

  /** The first row with this key that covers the installed version decides; rows before it that say
      "not-affected" are remembered. */
  function Scan(table: seq<DistroFix>, key: string, installed: string, distro: string, from: nat, notAffected: bool)
      : Outcome
    requires from <= |table|
    decreases |table| - from
  {
    if from == |table| then Outcome(false, notAffected, "")
    else
      var row := table[from];
      if RowKey(row) != key then Scan(table, key, installed, distro, from + 1, notAffected)
      else if row.status == "not-affected" then Scan(table, key, installed, distro, from + 1, true)
      else if Covers(row, installed) then Outcome(true, notAffected, Via(distro, row))
      else Scan(table, key, installed, distro, from + 1, notAffected)
  }

  /** The comparisons a row takes come to an end. */
  predicate CoverEnds(fix: DistroFix, installed: string) {
    fix.status in {"released", "resolved", "fixed"} && fix.fixedVersion != "" ==>
      var fv, iv := Dpkg.Parse(fix.fixedVersion), Dpkg.Parse(installed);
      && Dpkg.Settled(fv.upstream, iv.upstream)
      && (Dpkg.Compare(fv.upstream, iv.upstream) == 0 ==> Dpkg.Settled(iv.revision, fv.revision))
  }

  /** And so do those of every row up to the one that decides. */
  predicate ScanEnds(table: seq<DistroFix>, key: string, installed: string, from: nat)
    requires from <= |table|
    decreases |table| - from
  {
    from == |table|
    || (if RowKey(table[from]) != key || table[from].status == "not-affected" then
          ScanEnds(table, key, installed, from + 1)
        else
          CoverEnds(table[from], installed)
          && (Covers(table[from], installed) || ScanEnds(table, key, installed, from + 1)))
  }

  predicate DecideEnds(table: seq<DistroFix>, cve: string, version: string, tag: DistroTag) {
    version == "" || tag.distro == "" || tag.revision == ""
    || ScanEnds(table, FixKey(cve, tag.distro), version + "-" + tag.revision, 0)
  }

  lemma {:induction false} SkipOthersEnds(table: seq<DistroFix>, key: string, installed: string, from: nat, until: nat)
    requires from <= until <= |table|
    requires forall p | from <= p < until :: RowKey(table[p]) != key
    ensures ScanEnds(table, key, installed, from) == ScanEnds(table, key, installed, until)
    decreases until - from
  {
    hide Covers, CoverEnds, RowKey;
    if from < until {
      SkipOthersEnds(table, key, installed, from + 1, until);
    }
  }

  /** Without NULs in the installed version and in the table the check ends. */
  lemma NulFreeCheckEnds(table: seq<DistroFix>, cve: string, version: string, tag: DistroTag)
    requires Dpkg.NulFree(version) && Dpkg.NulFree(tag.revision)
    requires forall row | row in table :: Dpkg.NulFree(row.fixedVersion)
    ensures DecideEnds(table, cve, version, tag)
  {
    hide ScanEnds, FixKey;
    NulFreeScanEnds(table, FixKey(cve, tag.distro), version + "-" + tag.revision, 0);
  }

  lemma {:induction false} NulFreeScanEnds(table: seq<DistroFix>, key: string, installed: string, from: nat)
    requires from <= |table| && Dpkg.NulFree(installed)
    requires forall row | row in table :: Dpkg.NulFree(row.fixedVersion)
    ensures ScanEnds(table, key, installed, from)
    decreases |table| - from
  {
    hide Covers, RowKey, Dpkg.Parse, Dpkg.Compare;
    if from < |table| {
      NulFreeScanEnds(table, key, installed, from + 1);
      assert table[from] in table;
      Dpkg.PartsNulFree(table[from].fixedVersion);
      Dpkg.PartsNulFree(installed);
    }
  }

  /** A row whose comparisons end covers only versions without a NUL in the upstream part. */
  lemma CoveredIsNulFree(fix: DistroFix, installed: string)
    requires CoverEnds(fix, installed) && Covers(fix, installed)
    ensures Dpkg.NulFree(Dpkg.Parse(fix.fixedVersion).upstream) && Dpkg.NulFree(Dpkg.Parse(installed).upstream)
  {
    hide Dpkg.Parse, Dpkg.Compare;
  }

  function Decide(table: seq<DistroFix>, cve: string, version: string, tag: DistroTag): Outcome {
    if version == "" || tag.distro == "" || tag.revision == "" then UNPATCHED
    else Scan(table, FixKey(cve, tag.distro), version + "-" + tag.revision, tag.distro, 0, false)
  }

  lemma {:induction false} SkipOthers(
      table: seq<DistroFix>, key: string, installed: string, distro: string, from: nat, until: nat, notAffected: bool)
    requires from <= until <= |table|
    requires forall p | from <= p < until :: RowKey(table[p]) != key
    ensures Scan(table, key, installed, distro, from, notAffected)
         == Scan(table, key, installed, distro, until, notAffected)
    decreases until - from
  {
    if from < until {
      SkipOthers(table, key, installed, distro, from + 1, until, notAffected);
    }
  }

  /** Between two neighbouring positions of the index no row has the key. */
  lemma OthersBetween(table: seq<DistroFix>, key: string, k: nat, from: nat)
    requires k <= |Positions(table, key)|
    requires from == if k == 0 then 0 else Positions(table, key)[k - 1] + 1
    ensures var until := if k < |Positions(table, key)| then Positions(table, key)[k] else |table|;
            from <= until <= |table| && forall p | from <= p < until :: RowKey(table[p]) != key
  {
    PositionsAscendExactly(table, key);
    var ps := Positions(table, key);
    assert forall i | 0 <= i < |ps| :: ps[i] in ps;
    assert forall i | 0 <= i < |ps| :: i < k ==> ps[i] < from;
  }

  predicate Fixes(row: DistroFix, key: string, installed: string) {
    RowKey(row) == key && Covers(row, installed)
  }

  /** The scan stops at the first row that fixes, with the "not-affected" rows seen before it. */
  lemma {:induction false} ScanStopsAtFirstFix(
      table: seq<DistroFix>, key: string, installed: string, distro: string, from: nat, p: nat, notAffected: bool)
    requires from <= p <= |table|
    requires forall q | from <= q < p :: !Fixes(table[q], key, installed)
    requires p < |table| ==> Fixes(table[p], key, installed)
    ensures var seen := notAffected ||
              (exists q :: from <= q < p && RowKey(table[q]) == key && table[q].status == "not-affected");
            Scan(table, key, installed, distro, from, notAffected)
            == if p < |table| then Outcome(true, seen, Via(distro, table[p])) else Outcome(false, seen, "")
    decreases p - from
  {
    hide Covers, Via, RowKey;
    if from < p {
      var row := table[from];
      var marks := RowKey(row) == key && row.status == "not-affected";
      ScanStopsAtFirstFix(table, key, installed, distro, from + 1, p, notAffected || marks);
    } else if p < |table| {
      CoversIsNotUnaffected(table[p], installed);
    }
  }

  lemma CoversIsNotUnaffected(fix: DistroFix, installed: string)
    requires Covers(fix, installed)
    ensures fix.status != "not-affected"
  {
  }

  /** The first row at or after `from` that fixes, or |table|. */
  lemma {:induction false} FirstFix(table: seq<DistroFix>, key: string, installed: string, from: nat) returns (p: nat)
    requires from <= |table|
    ensures from <= p <= |table|
    ensures forall q | from <= q < p :: !Fixes(table[q], key, installed)
    ensures p < |table| ==> Fixes(table[p], key, installed)
    decreases |table| - from
  {
    hide Fixes;
    if from == |table| || Fixes(table[from], key, installed) {
      p := from;
    } else {
      p := FirstFix(table, key, installed, from + 1);
    }
  }

  /** Patched if and only if some row with the key covers the installed version. */
  lemma PatchedIff(table: seq<DistroFix>, key: string, installed: string, distro: string)
    ensures Scan(table, key, installed, distro, 0, false).patched <==>
            exists p :: 0 <= p < |table| && Fixes(table[p], key, installed)
  {
    hide Fixes, Scan;
    var p := FirstFix(table, key, installed, 0);
    ScanStopsAtFirstFix(table, key, installed, distro, 0, p, false);
  }

  /** A covering row still covers a version with the same upstream part and a revision at least as high. */
  lemma CoversIsMonotone(fix: DistroFix, installed: string, newer: string)
    requires Covers(fix, installed)
    requires Dpkg.Compare(Dpkg.Parse(installed).upstream, Dpkg.Parse(newer).upstream) == 0
    requires Dpkg.Compare(Dpkg.Parse(installed).revision, Dpkg.Parse(newer).revision) <= 0
    ensures Covers(fix, newer)
  {
    hide Dpkg.Compare, Dpkg.Parse;
    var f, i, n := Dpkg.Parse(fix.fixedVersion), Dpkg.Parse(installed), Dpkg.Parse(newer);
    Dpkg.CompareIsTotalPreorder(f.upstream, i.upstream, n.upstream);
    Dpkg.CompareIsTotalPreorder(i.upstream, f.upstream, n.upstream);
    Dpkg.CompareIsTotalPreorder(f.revision, i.revision, n.revision);
    Dpkg.CompareIsTotalPreorder(n.revision, f.revision, i.revision);
  }

  /** Whatever the revisions look like: what counts is how the full version strings parse. */
  lemma PatchedStaysPatched(table: seq<DistroFix>, cve: string, version: string, tag: DistroTag, newer: DistroTag)
    requires tag.distro == newer.distro && newer.revision != ""
    requires Decide(table, cve, version, tag).patched
    requires var i, n := Dpkg.Parse(version + "-" + tag.revision), Dpkg.Parse(version + "-" + newer.revision);
             Dpkg.Compare(i.upstream, n.upstream) == 0 && Dpkg.Compare(i.revision, n.revision) <= 0
    ensures Decide(table, cve, version, newer).patched
  {
    var key := FixKey(cve, tag.distro);
    var i, n := version + "-" + tag.revision, version + "-" + newer.revision;
    PatchedIff(table, key, i, tag.distro);
    PatchedIff(table, key, n, tag.distro);
    var p :| 0 <= p < |table| && Fixes(table[p], key, i);
    CoversIsMonotone(table[p], i, n);
  }

  /** A revision without a dash is the whole of what follows the last dash. */
  lemma InstalledParses(version: string, revision: string)
    requires '-' !in revision
    ensures Dpkg.Parse(version + "-" + revision) == Dpkg.Parse(version + "-").(revision := revision)
  {
    hide Dpkg.EpochOf, Dpkg.SplitRevision;
    var full, bare := version + "-" + revision, version + "-";
    SameEpoch(bare, revision);
    assert full == bare + revision;
    var epoch := Dpkg.EpochOf(full);
    var skip := if epoch == "" then 0 else |epoch| + 1;
    assert skip <= |version|;
    var rest := version[skip..];
    assert full[skip..] == rest + "-" + revision && bare[skip..] == rest + "-";
    LastDash(epoch, rest, revision);
    LastDash(epoch, rest, "");
    assert rest + "-" + "" == rest + "-";
  }

  lemma LastDash(epoch: string, rest: string, revision: string)
    requires '-' !in revision
    ensures Dpkg.SplitRevision(epoch, rest + "-" + revision) == Dpkg.Version(epoch, rest, revision)
  {
    var s := rest + "-" + revision;
    assert s[|rest|] == '-' && s[..|rest|] == rest && s[|rest| + 1..] == revision;
    assert forall i | |rest| < i < |s| :: s[i] == revision[i - |rest| - 1];
  }

  /** Text after a dash cannot change the epoch: the dash is no digit. */
  lemma SameEpoch(bare: string, revision: string)
    requires bare != "" && bare[|bare| - 1] == '-'
    ensures Dpkg.EpochOf(bare + revision) == Dpkg.EpochOf(bare)
    ensures Dpkg.EpochOf(bare) != "" ==> |Dpkg.EpochOf(bare)| < |bare| - 1
  {
    var full := bare + revision;
    var k, m := IndexFrom(bare, ':', 0), IndexFrom(full, ':', 0);
    assert forall i | 0 <= i < |bare| :: full[i] == bare[i];
    if m < |bare| {
      assert k == m;
      assert bare[..k] == full[..k];
    } else {
      assert !IsDigit(full[|bare| - 1]);
      assert k >= |bare| - 1;
    }
  }

  /** Raising the revision of an installed package never turns a patched host unpatched, as long as the
      revisions have no dash. */
  lemma UpgradeStaysPatched(table: seq<DistroFix>, cve: string, version: string, distro: string, r: string,
      newer: string)
    requires '-' !in r && '-' !in newer && newer != ""
    requires Dpkg.Compare(r, newer) <= 0
    requires Decide(table, cve, version, DistroTag(distro, r)).patched
    ensures Decide(table, cve, version, DistroTag(distro, newer)).patched
  {
    hide Decide, Dpkg.Parse, Dpkg.Compare;
    InstalledParses(version, r);
    InstalledParses(version, newer);
    var up := Dpkg.Parse(version + "-").upstream;
    Dpkg.CompareIsTotalPreorder(up, up, up);
    PatchedStaysPatched(table, cve, version, DistroTag(distro, r), DistroTag(distro, newer));
  }

  /** With a dash in the revision, what comes before its last dash goes to the upstream version. */
  lemma DashedInstalledParses(version: string, p: string, q: string)
    requires '-' !in q
    ensures var bare := Dpkg.Parse(version + "-");
            Dpkg.Parse(version + "-" + (p + "-" + q)) == Dpkg.Version(bare.epoch, bare.upstream + "-" + p, q)
  {
    hide Dpkg.EpochOf, Dpkg.SplitRevision;
    var full, bare := version + "-" + (p + "-" + q), version + "-";
    assert full == bare + (p + "-" + q);
    SameEpoch(bare, p + "-" + q);
    var epoch := Dpkg.EpochOf(full);
    var skip := if epoch == "" then 0 else |epoch| + 1;
    assert skip <= |version|;
    var rest := version[skip..];
    assert full[skip..] == (rest + "-" + p) + "-" + q && bare[skip..] == rest + "-";
    LastDash(epoch, rest + "-" + p, q);
    LastDash(epoch, rest, "");
    assert rest + "-" + "" == rest + "-";
  }

  /** An epoch holds no NUL, so the upstream part has those of the whole version. */
  lemma UpstreamNul(version: string)
    ensures Dpkg.NulFrom(Dpkg.Parse(version + "-").upstream, 0) <==> '\0' in version
  {
    hide Dpkg.EpochOf, Dpkg.SplitRevision;
    var bare := version + "-";
    var epoch := Dpkg.EpochOf(bare);
    assert bare == bare + "";
    SameEpoch(bare, "");
    EpochHasNoNul(bare);
    var skip := if epoch == "" then 0 else |epoch| + 1;
    var rest := version[skip..];
    assert bare[skip..] == rest + "-" + "";
    LastDash(epoch, rest, "");
    assert Dpkg.Parse(bare).upstream == rest;
    hide Dpkg.Parse;
    if '\0' in version {
      var k :| 0 <= k < |version| && version[k] == '\0';
      assert bare[k] == '\0';
      assert rest[k - skip] == '\0';
    }
    if Dpkg.NulFrom(rest, 0) {
      var k :| 0 <= k < |rest| && rest[k] == '\0';
      assert version[k + skip] == '\0';
    }
  }

  lemma EpochHasNoNul(raw: string)
    ensures var epoch := Dpkg.EpochOf(raw);
            var skip := if epoch == "" then 0 else |epoch| + 1;
            skip <= |raw| && forall k | 0 <= k < skip :: raw[k] != '\0'
  {
    var k := IndexFrom(raw, ':', 0);
    assert forall i | 0 <= i < k :: raw[..k][i] == raw[i];
  }

  /** How an undashed and any other revision of one version parse: the upstream part has the NULs of the version, and
      a dash in the second revision shows in its upstream part. */
  lemma RevisionsOfOneVersion(version: string, r: string, newer: string)
    requires '-' !in r
    ensures var i, n := Dpkg.Parse(version + "-" + r), Dpkg.Parse(version + "-" + newer);
            && i.revision == r && (Dpkg.NulFree(i.upstream) <==> '\0' !in version)
            && ('-' !in newer ==> n.upstream == i.upstream && n.revision == newer)
            && ('-' in newer && '\0' !in version ==> Dpkg.Compare(i.upstream, n.upstream) != 0)
            && Dpkg.Compare(i.upstream, i.upstream) == 0
  {
    hide Dpkg.Parse, Dpkg.Compare;
    InstalledParses(version, r);
    UpstreamNul(version);
    var up := Dpkg.Parse(version + "-").upstream;
    Dpkg.CompareIsTotalPreorder(up, up, up);
    if '-' !in newer {
      InstalledParses(version, newer);
    } else {
      var dash := AfterLast(newer, '-', |newer|);
      var p, q := newer[..dash - 1], newer[dash..];
      assert newer == p + "-" + q;
      DashedInstalledParses(version, p, q);
      SuffixOfUpstream(up, p);
    }
  }

  lemma SuffixOfUpstream(up: string, p: string)
    ensures Dpkg.Compare(up, up + "-" + p) == 0 <==> Dpkg.NulFrom(up, 0)
  {
    hide Dpkg.Key;
    Dpkg.SuffixDecides(up, '-', p, 0);
    assert up + ['-'] + p == up + "-" + p;
    Dpkg.CompareIsTotalPreorder(up, up + "-" + p, up);
  }

  /** A fix for exactly the installed version. */
  function OwnFix(cve: string, distro: string, installed: string): DistroFix {
    DistroFix(cve, distro, "", "", installed, "released")
  }

  // ---- upgrades that keep every fix ----

  /** Both checks, before and after the upgrade, come to an end. */
  predicate BothEnd(table: seq<DistroFix>, cve: string, version: string, distro: string, r: string, newer: string) {
    && DecideEnds(table, cve, version, DistroTag(distro, r))
    && DecideEnds(table, cve, version, DistroTag(distro, newer))
  }

  /** No table with which the checks end shows a fix before the upgrade and none after it. */
  ghost predicate KeepsFixes(cve: string, version: string, distro: string, r: string, newer: string) {
    forall table
      | BothEnd(table, cve, version, distro, r, newer) && Decide(table, cve, version, DistroTag(distro, r)).patched ::
      Decide(table, cve, version, DistroTag(distro, newer)).patched
  }

  /** In terms of the two installed versions as they parse: equivalent upstream parts and no lower revision. A NUL in
      an upstream part makes every upgrade safe, because no check that ends finds such a version covered, or passes by
      a row that would. */
  predicate Safe(i: Dpkg.Version, n: Dpkg.Version) {
    || !Dpkg.NulFree(i.upstream)
    || (Dpkg.Compare(i.upstream, n.upstream) == 0
        && (!Dpkg.NulFree(n.upstream) || Dpkg.Compare(i.revision, n.revision) <= 0))
  }

  /** The row that decides ends its comparisons. */
  lemma {:induction false} DecidingRow(
      table: seq<DistroFix>, key: string, installed: string, distro: string, from: nat, notAffected: bool)
    returns (p: nat)
    requires from <= |table| && ScanEnds(table, key, installed, from)
    requires Scan(table, key, installed, distro, from, notAffected).patched
    ensures p < |table| && Fixes(table[p], key, installed) && CoverEnds(table[p], installed)
    decreases |table| - from
  {
    hide Covers, CoverEnds, RowKey, Via;
    var row := table[from];
    if RowKey(row) == key && row.status != "not-affected" && Covers(row, installed) {
      p := from;
    } else {
      var seen := notAffected || (RowKey(row) == key && row.status == "not-affected");
      p := DecidingRow(table, key, installed, distro, from + 1, seen);
    }
  }

  /** If no row decides, the comparisons of every row with the key end. */
  lemma {:induction false} PassedRowEnds(table: seq<DistroFix>, key: string, installed: string, from: nat, p: nat)
    requires from <= p < |table| && ScanEnds(table, key, installed, from)
    requires forall q | from <= q < |table| :: !Fixes(table[q], key, installed)
    requires RowKey(table[p]) == key && table[p].status != "not-affected"
    ensures CoverEnds(table[p], installed)
    decreases p - from
  {
    hide Covers, CoverEnds, RowKey;
    assert !Fixes(table[from], key, installed);
    if from < p {
      PassedRowEnds(table, key, installed, from + 1, p);
    }
  }

  lemma SafeKeepsFixes(table: seq<DistroFix>, cve: string, version: string, distro: string, r: string, newer: string)
    requires newer != "" && BothEnd(table, cve, version, distro, r, newer)
    requires Safe(Dpkg.Parse(version + "-" + r), Dpkg.Parse(version + "-" + newer))
    requires Decide(table, cve, version, DistroTag(distro, r)).patched
    ensures Decide(table, cve, version, DistroTag(distro, newer)).patched
  {
    hide Dpkg.Parse, Dpkg.Compare, Scan, ScanEnds, FixKey, RowKey, Covers, CoverEnds, Dpkg.NulFree;
    var key, before, after := FixKey(cve, distro), version + "-" + r, version + "-" + newer;
    var i, n := Dpkg.Parse(before), Dpkg.Parse(after);
    var p := DecidingRow(table, key, before, distro, 0, false);
    CoveredIsNulFree(table[p], before);
    if Dpkg.Compare(i.revision, n.revision) <= 0 {
      PatchedStaysPatched(table, cve, version, DistroTag(distro, r), DistroTag(distro, newer));
    } else {
      PatchedIff(table, key, after, distro);
      if forall q | 0 <= q < |table| :: !Fixes(table[q], key, after) {
        CoversIsNotUnaffected(table[p], before);
        PassedRowEnds(table, key, after, 0, p);
        NulBlocksTheRow(table[p], before, after);
      }
    }
  }

  lemma NulBlocksTheRow(fix: DistroFix, installed: string, newer: string)
    requires Covers(fix, installed) && !Dpkg.NulFree(Dpkg.Parse(newer).upstream)
    requires Dpkg.Compare(Dpkg.Parse(installed).upstream, Dpkg.Parse(newer).upstream) == 0
    ensures !CoverEnds(fix, newer)
  {
    hide Dpkg.Parse, Dpkg.Compare, Dpkg.NulFree;
    var f, i, n := Dpkg.Parse(fix.fixedVersion), Dpkg.Parse(installed), Dpkg.Parse(newer);
    Dpkg.CompareIsTotalPreorder(f.upstream, i.upstream, n.upstream);
  }

  /** A fix for the upstream part and at the revision given. */
  ghost predicate FixAt(row: DistroFix, cve: string, distro: string, upstream: string, revision: string) {
    && row == OwnFix(cve, distro, row.fixedVersion) && row.fixedVersion != ""
    && Dpkg.Parse(row.fixedVersion).upstream == upstream && Dpkg.Parse(row.fixedVersion).revision == revision
  }

  lemma OneRow(row: DistroFix, cve: string, distro: string, version: string, r: string, upstream: string, w: string)
    requires version != "" && distro != "" && r != "" && FixAt(row, cve, distro, upstream, w)
    ensures var i, tag := Dpkg.Parse(version + "-" + r), DistroTag(distro, r);
            && Decide([row], cve, version, tag).patched
               == (Dpkg.Compare(upstream, i.upstream) == 0 && Dpkg.Compare(i.revision, w) >= 0)
            && DecideEnds([row], cve, version, tag)
               == (Dpkg.Settled(upstream, i.upstream)
                   && (Dpkg.Compare(upstream, i.upstream) == 0 ==> Dpkg.Settled(i.revision, w)))
  {
    hide Dpkg.Parse, Dpkg.Compare, Dpkg.Settled, FixKey, Scan;
    var key, installed := FixKey(cve, distro), version + "-" + r;
    PatchedIff([row], key, installed, distro);
    assert [row][0] == row && RowKey(row) == key;
    assert ScanEnds([row], key, installed, 1);
  }

  lemma NoDashInRevision(raw: string)
    ensures '-' !in Dpkg.Parse(raw).revision
  {
  }

  /** The revision of a fix that the installed revision still reaches, in a comparison that ends, and the newer one,
      if it is lower, does not. */
  lemma RevisionToLose(r: string, newer: string) returns (w: string)
    requires '-' !in r && '-' !in newer
    ensures Dpkg.Settled(r, w) && Dpkg.Compare(r, w) >= 0 && '-' !in w
    ensures Dpkg.Compare(r, newer) > 0 ==> Dpkg.Compare(newer, w) < 0
    ensures if Dpkg.NulFree(r) then w == r else w != ""
  {
    hide Dpkg.Compare;
    Dpkg.CompareIsTotalPreorder(newer, r, newer);
    if Dpkg.NulFree(r) {
      w := r;
      Dpkg.CompareIsTotalPreorder(r, r, r);
    } else {
      if Dpkg.Compare(r, newer) > 0 {
        w := Dpkg.Between(newer, r);
      } else {
        w := Dpkg.Below(r);
      }
      Dpkg.CompareIsTotalPreorder(w, r, w);
    }
  }

  /** Every upgrade that is not safe loses the fix of a table of one row. Without a NUL in the revision that row is the
      version that is installed. */
  lemma UnsafeUpgrade(cve: string, version: string, distro: string, r: string, newer: string)
    returns (row: DistroFix)
    requires version != "" && distro != "" && r != "" && newer != ""
    requires !Safe(Dpkg.Parse(version + "-" + r), Dpkg.Parse(version + "-" + newer))
    ensures BothEnd([row], cve, version, distro, r, newer)
    ensures Decide([row], cve, version, DistroTag(distro, r)).patched
    ensures !Decide([row], cve, version, DistroTag(distro, newer)).patched
    ensures Dpkg.NulFree(Dpkg.Parse(version + "-" + r).revision) ==> row == OwnFix(cve, distro, version + "-" + r)
  {
    hide Dpkg.Parse, Dpkg.Compare, Decide, DecideEnds, Dpkg.NulFree;
    var installed := version + "-" + r;
    var i, n := Dpkg.Parse(installed), Dpkg.Parse(version + "-" + newer);
    NoDashInRevision(installed);
    NoDashInRevision(version + "-" + newer);
    var w := RevisionToLose(i.revision, n.revision);
    if Dpkg.NulFree(i.revision) {
      row := OwnFix(cve, distro, installed);
    } else {
      row := OwnFix(cve, distro, Dpkg.Print(Dpkg.Version("0", i.upstream, w)));
      Dpkg.ParsePrinted(Dpkg.Version("0", i.upstream, w));
    }
    Dpkg.CompareIsTotalPreorder(i.upstream, i.upstream, i.upstream);
    OneRow(row, cve, distro, version, r, i.upstream, w);
    OneRow(row, cve, distro, version, newer, i.upstream, w);
  }

  /** Exactly which upgrades keep every fix, whatever the table with which the checks end. */
  lemma UpgradeKeepsFixesIff(cve: string, version: string, distro: string, r: string, newer: string)
    requires version != "" && distro != "" && r != "" && newer != ""
    ensures KeepsFixes(cve, version, distro, r, newer) <==>
            Safe(Dpkg.Parse(version + "-" + r), Dpkg.Parse(version + "-" + newer))
  {
    hide Decide, BothEnd, Safe;
    if Safe(Dpkg.Parse(version + "-" + r), Dpkg.Parse(version + "-" + newer)) {
      forall table |
        BothEnd(table, cve, version, distro, r, newer) && Decide(table, cve, version, DistroTag(distro, r)).patched
        ensures Decide(table, cve, version, DistroTag(distro, newer)).patched
      {
        SafeKeepsFixes(table, cve, version, distro, r, newer);
      }
    } else {
      var row := UnsafeUpgrade(cve, version, distro, r, newer);
    }
  }

  /** In terms of the revisions themselves: from an undashed one, the safe upgrades are those to an undashed revision
      that is not lower. An upgrade from "1" to "2-0" can lose a fix although it is higher, because the part before
      the last dash then counts as upstream version. With a NUL in the version there is never a fix to lose. */
  lemma UpgradeIsSafeIff(cve: string, version: string, distro: string, r: string, newer: string)
    requires version != "" && distro != "" && r != "" && newer != "" && '-' !in r
    ensures KeepsFixes(cve, version, distro, r, newer) <==>
            '\0' in version || ('-' !in newer && Dpkg.Compare(r, newer) <= 0)
  {
    hide KeepsFixes, Dpkg.Parse, Dpkg.Compare;
    RevisionsOfOneVersion(version, r, newer);
    UpgradeKeepsFixesIff(cve, version, distro, r, newer);
  }

  /** The joined key tells rows apart as the pair of its parts does, up to where the bar between them stands: a bar
      inside a CVE id is the only way for two pairs to share a key. */
  lemma KeyIsThePair(cve: string, distro: string, row: DistroFix)
    ensures row.cve == cve && Lower(row.distro) == Lower(distro) <==>
            RowKey(row) == FixKey(cve, distro) && |row.cve| == |cve|
    ensures '|' !in cve && '|' !in row.cve && RowKey(row) == FixKey(cve, distro) ==> |row.cve| == |cve|
  {
    if RowKey(row) == FixKey(cve, distro) {
      var k, m := |cve|, |row.cve|;
      var key := FixKey(cve, distro);
      assert key[k] == '|' && key[m] == '|';
      assert forall i | 0 <= i < m :: row.cve[i] == key[i];
      assert forall i | 0 <= i < k :: cve[i] == key[i];
      if k == m {
        assert key[..k] == cve && key[..m] == row.cve;
        assert key[k + 1..] == Lower(distro) && key[m + 1..] == Lower(row.distro);
      }
    }
  }
}
