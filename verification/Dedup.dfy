/** What deduplication promises: exactly one finding per identity, which one, and when chunks may be
    deduplicated first. */
module DedupProperties {
  import opened Findings

  /** Equal but for the two fields a merge may fill in. */
  predicate SameButFilled(f: Finding, g: Finding) {
    f == g.(evidence := f.evidence, description := f.description)
  }

  lemma IdentityIgnoresFilling(f: Finding, g: Finding)
    requires SameButFilled(f, g)
    ensures Identity(f) == Identity(g)
  {
  }

  // ---- which member of a class survives ----

  ghost predicate IsFirstBest(c: seq<Finding>, from: nat, k: nat) {
    && from <= k < |c|
    && (forall i | from <= i < |c| :: !Better(c[i], c[k]))
    && (forall i | from <= i < k :: Better(c[k], c[i]))
  }

  /** The first member that has evidence, or the last member when none has. */
  function Anchor(c: seq<Finding>): (e: nat)
    requires c != []
    ensures e < |c|
    ensures forall i | 0 <= i < e :: c[i].evidence == ""
    ensures c[e].evidence == "" ==> e == |c| - 1
  {
    var n := |c| - 1;
    if n == 0 then 0
    else
      var e := Anchor(c[..n]);
      if c[e].evidence == "" then n else e
  }

  lemma BetterIsStrictWeakOrder(f: Finding, g: Finding, h: Finding)
    ensures !Better(f, f)
    ensures Better(f, g) ==> !Better(g, f)
    ensures Better(f, g) && !Better(h, g) ==> Better(f, h)
    ensures !Better(g, f) && Better(g, h) ==> Better(f, h)
  {
  }

  /** An active check beats a configuration match, that a version match, and that everything else, whatever the
      scores; among equals the higher score wins, and what is no such verification counts as equal. */
  lemma BetterIff(f: Finding, g: Finding)
    ensures var order := ["ACTIVE_CHECK", "CONFIG_MATCH", "VERSION_MATCH"];
            Better(f, g) <==>
            || (exists k | 0 <= k < 3 :: f.verification == order[k] && g.verification !in order[..k + 1])
            || (f.score > g.score && (f.verification == g.verification
                                      || (f.verification !in order && g.verification !in order)))
  {
    var order := ["ACTIVE_CHECK", "CONFIG_MATCH", "VERSION_MATCH"];
    assert order[..1] == [order[0]] && order[..2] == [order[0], order[1]] && order[..3] == order;
    assert order[0] == "ACTIVE_CHECK" && order[1] == "CONFIG_MATCH" && order[2] == "VERSION_MATCH";
    assert |order[0]| == 12 && |order[1]| == 12 && |order[2]| == 13 && order[0][0] != order[1][0];
  }

  lemma BetterIgnoresFilling(s: Finding, g: Finding, f: Finding)
    requires SameButFilled(s, g)
    ensures Better(f, s) == Better(f, g)
  {
  }

  /** The survivor is the first best member from the anchor on: members before it are displaced whatever
      their rank, because they had no evidence to defend themselves with. */
  lemma {:induction false} SurvivorIsFirstBest(c: seq<Finding>) returns (k: nat)
    requires c != []
    ensures IsFirstBest(c, Anchor(c), k)
    ensures SameButFilled(Survivor(c), c[k])
    ensures c[k].evidence != "" ==> Survivor(c).evidence == c[k].evidence
    ensures c[k].description != "" ==> Survivor(c).description == c[k].description
    ensures Survivor(c).evidence == "" <==> forall i | 0 <= i < |c| :: c[i].evidence == ""
  {
    hide Better;
    var n := |c| - 1;
    BetterIsStrictWeakOrder(c[n], c[n], c[n]);
    if n == 0 {
      return 0;
    }
    var before := c[..n];
    var m := SurvivorIsFirstBest(before);
    k := Displaces(c, m);
  }

  /** One merge: the newcomer becomes the survivor, or the survivor stays. */
  lemma Displaces(c: seq<Finding>, m: nat) returns (k: nat)
    requires |c| > 1
    requires var before := c[..|c| - 1];
             && IsFirstBest(before, Anchor(before), m)
             && SameButFilled(Survivor(before), before[m])
             && (before[m].evidence != "" ==> Survivor(before).evidence == before[m].evidence)
             && (before[m].description != "" ==> Survivor(before).description == before[m].description)
             && (Survivor(before).evidence == "" <==> forall i | 0 <= i < |before| :: before[i].evidence == "")
    ensures IsFirstBest(c, Anchor(c), k)
    ensures SameButFilled(Survivor(c), c[k])
    ensures c[k].evidence != "" ==> Survivor(c).evidence == c[k].evidence
    ensures c[k].description != "" ==> Survivor(c).description == c[k].description
    ensures Survivor(c).evidence == "" <==> forall i | 0 <= i < |c| :: c[i].evidence == ""
  {
    hide Better;
    var n := |c| - 1;
    var before := c[..n];
    var s, f := Survivor(before), c[n];
    assert Survivor(c) == Merge(s, f);
    hide Survivor;
    var e := Anchor(before);
    assert Anchor(c) == if s.evidence == "" then n else e;
    BetterIgnoresFilling(s, before[m], f);
    BetterIsStrictWeakOrder(f, f, f);
    k := if Better(f, s) || s.evidence == "" then n else m;
    if Better(f, s) && s.evidence != "" {
      forall i | e <= i < n ensures Better(c[n], c[i]) && !Better(c[i], c[n]) {
        BetterIsStrictWeakOrder(f, before[m], before[i]);
        BetterIsStrictWeakOrder(f, before[i], f);
      }
    }
  }

  /** The survivor is the first best of its whole class if and only if every member before the anchor is
      worse than the first best member from the anchor on. */
  lemma SurvivorIsMaximumIff(c: seq<Finding>, e: nat, k: nat)
    requires IsFirstBest(c, e, k)
    ensures IsFirstBest(c, 0, k) <==> forall i | 0 <= i < e :: Better(c[k], c[i])
  {
    hide Better;
    forall i | 0 <= i < e && Better(c[k], c[i]) ensures !Better(c[i], c[k]) {
      BetterIsStrictWeakOrder(c[k], c[i], c[i]);
    }
    if forall i | 0 <= i < e :: Better(c[k], c[i]) {
      assert forall i | 0 <= i < |c| :: i < e || !Better(c[i], c[k]);
      assert forall i | 0 <= i < k :: i < e || Better(c[k], c[i]);
      assert IsFirstBest(c, 0, k);
    }
  }

  /** A finding with rank 3 and no evidence loses to a later one of rank 0. */
  lemma BetterFindingLost()
    ensures var strong := Finding("p", "t", "ACTIVE_CHECK", 1.0, "h", 1, TCP, "PORT", "", "", "d", "", "");
            var weak := strong.(verification := "UNKNOWN", score := 0.0);
            Dedup([strong, weak]) == [weak]
  {
    hide Identity;
    var strong := Finding("p", "t", "ACTIVE_CHECK", 1.0, "h", 1, TCP, "PORT", "", "", "d", "", "");
    var weak := strong.(verification := "UNKNOWN", score := 0.0);
    assert Identity(strong) == Identity(weak) by {
      IdentityByPlace(strong, weak);
    }
    EmptyDedup();
    StepNew([], [], strong);
    assert [] + [strong] == [strong];
    IdsAppend([], strong);
    UniqAppend(Ids([]), Identity(strong));
    StepOld([strong], [strong], weak, 0);
    assert [strong] + [weak] == [strong, weak] && [strong][0 := weak] == [weak];
    DedupUnique([strong, weak], [weak]);
  }

  lemma IdentityByPlace(f: Finding, g: Finding)
    requires Prefix(f) == Prefix(g) && f.protocol == g.protocol && f.scope == g.scope && f.port == g.port
    requires Suffix(f) == Suffix(g)
    ensures Identity(f) == Identity(g)
  {
  }

  // ---- shape of the result ----

  lemma {:induction false} ClassMember(xs: seq<Finding>, id: string, k: nat) returns (p: nat)
    requires k < |Class(xs, id)|
    ensures p < |xs| && xs[p] == Class(xs, id)[k] && Identity(xs[p]) == id
  {
    hide Identity;
    var n := |xs| - 1;
    if k < |Class(xs[..n], id)| {
      p := ClassMember(xs[..n], id, k);
    } else {
      p := n;
    }
  }

  /** The identities of the result are those of the input, each once, in order of first occurrence. */
  lemma DedupIds(xs: seq<Finding>)
    ensures Ids(Dedup(xs)) == Uniq(Ids(xs))
  {
    var unique, ids := Dedup(xs), Uniq(Ids(xs));
    forall i | 0 <= i < |ids| ensures Identity(unique[i]) == ids[i] {
      var c := Class(xs, ids[i]);
      var k := SurvivorIsFirstBest(c);
      var p := ClassMember(xs, ids[i], k);
      IdentityIgnoresFilling(unique[i], c[k]);
    }
  }

  lemma {:induction false} UniqKeepsOrder(ids: seq<string>, i: nat, j: nat) returns (p: nat, q: nat)
    requires i < j < |Uniq(ids)|
    ensures p < q < |ids| && ids[p] == Uniq(ids)[i] && ids[q] == Uniq(ids)[j]
    ensures ids[p] !in ids[..p] && ids[q] !in ids[..q]
  {
    var n := |ids| - 1;
    var before := Uniq(ids[..n]);
    UniqExact(ids[..n]);
    if j < |before| {
      p, q := UniqKeepsOrder(ids[..n], i, j);
      assert ids[..n][..p] == ids[..p] && ids[..n][..q] == ids[..q];
    } else {
      p := FirstPlace(ids[..n], before[i]);
      q := n;
      assert ids[..n][..p] == ids[..p];
    }
  }

  lemma {:induction false} FirstPlace(ids: seq<string>, id: string) returns (p: nat)
    requires id in ids
    ensures p < |ids| && ids[p] == id && id !in ids[..p]
  {
    if ids[0] == id {
      p := 0;
    } else {
      p := FirstPlace(ids[1..], id);
      p := p + 1;
      assert ids[..p] == [ids[0]] + ids[1..][..p - 1];
    }
  }

  lemma {:induction false} UniqOfDistinct(ids: seq<string>)
    requires forall i, j | 0 <= i < j < |ids| :: ids[i] != ids[j]
    ensures Uniq(ids) == ids
  {
    if ids != [] {
      var n := |ids| - 1;
      UniqOfDistinct(ids[..n]);
      assert ids[n] !in ids[..n];
      assert ids[..n] + [ids[n]] == ids;
    }
  }

  /** A list without repeated identities is left as it is. */
  lemma DedupOfDistinct(xs: seq<Finding>)
    requires forall i, j | 0 <= i < j < |xs| :: Identity(xs[i]) != Identity(xs[j])
    ensures Dedup(xs) == xs
  {
    hide Identity, Dedup;
    DistinctIsDedup(xs);
    DedupUnique(xs, xs);
  }

  lemma {:induction false} DistinctIsDedup(xs: seq<Finding>)
    requires forall i, j | 0 <= i < j < |xs| :: Identity(xs[i]) != Identity(xs[j])
    ensures IsDedup(xs, xs)
  {
    hide Identity;
    if xs != [] {
      hide IsDedup, Uniq;
      var n := |xs| - 1;
      DistinctIsDedup(xs[..n]);
      assert xs == xs[..n] + [xs[n]];
      UniqHas(Ids(xs[..n]), Identity(xs[n]));
      StepNew(xs[..n], xs[..n], xs[n]);
    }
  }

  lemma DedupDistinct(xs: seq<Finding>)
    ensures forall i, j | 0 <= i < j < |Dedup(xs)| :: Identity(Dedup(xs)[i]) != Identity(Dedup(xs)[j])
  {
    hide Identity;
    DedupIds(xs);
    UniqExact(Ids(xs));
    var unique := Dedup(xs);
    forall i, j | 0 <= i < j < |unique| ensures Identity(unique[i]) != Identity(unique[j]) {
      assert Ids(unique)[i] != Ids(unique)[j];
    }
  }

  /** Every output finding is, but for what was filled in, one of the input. */
  lemma DedupMember(xs: seq<Finding>, i: nat) returns (p: nat)
    requires i < |Dedup(xs)|
    ensures p < |xs| && SameButFilled(Dedup(xs)[i], xs[p])
  {
    hide Identity, Merge, Survivor, Class;
    var id := Uniq(Ids(xs))[i];
    ClassesInhabited(xs);
    var k := SurvivorIsFirstBest(Class(xs, id));
    p := ClassMember(xs, id, k);
  }

  lemma DedupIdempotent(xs: seq<Finding>)
    ensures Dedup(Dedup(xs)) == Dedup(xs)
  {
    DedupDistinct(xs);
    DedupOfDistinct(Dedup(xs));
  }

  lemma {:induction false} ClassHolds(xs: seq<Finding>, p: nat) returns (k: nat)
    requires p < |xs|
    ensures k < |Class(xs, Identity(xs[p]))| && Class(xs, Identity(xs[p]))[k] == xs[p]
  {
    hide Identity;
    var n := |xs| - 1;
    if p < n {
      k := ClassHolds(xs[..n], p);
    } else {
      k := |Class(xs[..n], Identity(xs[n]))|;
    }
  }

  /** A survivor has evidence if and only if some finding with its identity had evidence. */
  lemma EvidenceSurvives(xs: seq<Finding>, i: nat)
    requires i < |Dedup(xs)|
    ensures Dedup(xs)[i].evidence != "" <==>
            exists p :: 0 <= p < |xs| && Identity(xs[p]) == Identity(Dedup(xs)[i]) && xs[p].evidence != ""
  {
    hide Identity, Class, Survivor, Uniq, Dedup;
    DedupIds(xs);
    var unique, id := Dedup(xs), Uniq(Ids(xs))[i];
    assert Ids(unique)[i] == id == Identity(unique[i]);
    var c := Class(xs, id);
    var k := SurvivorIsFirstBest(c);
    if unique[i].evidence != "" {
      var m :| 0 <= m < |c| && c[m].evidence != "";
      var p := ClassMember(xs, id, m);
    } else {
      forall p | 0 <= p < |xs| && Identity(xs[p]) == id ensures xs[p].evidence == "" {
        var m := ClassHolds(xs, p);
      }
    }
  }

  // ---- chunks ----

  predicate Complete(f: Finding) {
    f.evidence != "" && f.description != ""
  }

  lemma {:induction false} ClassOfConcat(xs: seq<Finding>, ys: seq<Finding>, id: string)
    ensures Class(xs + ys, id) == Class(xs, id) + Class(ys, id)
  {
    hide Identity;
    if ys == [] {
      assert xs + ys == xs && Class(ys, id) == [];
    } else {
      hide *;
      var n := |ys| - 1;
      var before, f := ys[..n], ys[n];
      ClassOfConcat(xs, before, id);
      assert ys == before + [f];
      assert xs + ys == (xs + before) + [f];
      ClassAppend(xs + before, f, id);
      ClassAppend(before, f, id);
    }
  }

  // ---- what may be deduplicated first ----

  /** The first of the best members. */
  function FirstBest(c: seq<Finding>): (k: nat)
    requires c != []
    ensures k < |c|
  {
    var n := |c| - 1;
    if n == 0 then 0
    else
      var k := FirstBest(c[..n]);
      if Better(c[n], c[k]) then n else k
  }

  lemma {:induction false} FirstBestIsBest(c: seq<Finding>)
    requires c != []
    ensures IsFirstBest(c, 0, FirstBest(c))
  {
    hide Better;
    var n := |c| - 1;
    BetterIsStrictWeakOrder(c[n], c[n], c[n]);
    if n > 0 {
      var k := FirstBest(c[..n]);
      FirstBestIsBest(c[..n]);
      forall i | 0 <= i < n && Better(c[n], c[k]) ensures Better(c[n], c[i]) && !Better(c[i], c[n]) {
        BetterIsStrictWeakOrder(c[n], c[k], c[i]);
        BetterIsStrictWeakOrder(c[n], c[i], c[n]);
      }
    }
  }

  /** A survivor with evidence that nothing later is better than. */
  lemma {:induction false} StaysPut(c: seq<Finding>, d: seq<Finding>)
    requires c != [] && Survivor(c).evidence != "" && forall i | 0 <= i < |d| :: !Better(d[i], Survivor(c))
    ensures Survivor(c + d) == Survivor(c)
  {
    hide Better;
    if d == [] {
      assert c + d == c;
    } else {
      var n := |d| - 1;
      StaysPut(c, d[..n]);
      assert c + d == c + d[..n] + [d[n]];
      SurvivorAppend(c + d[..n], d[n]);
    }
  }

  /** Only the survivor so far counts for what follows. */
  lemma {:induction false} SurvivorStandsFor(c: seq<Finding>, d: seq<Finding>)
    requires c != []
    ensures Survivor(c + d) == Survivor([Survivor(c)] + d)
  {
    hide Merge;
    var s := Survivor(c);
    if d == [] {
      assert c + d == c && [s] + d == [s];
    } else {
      var n := |d| - 1;
      SurvivorStandsFor(c, d[..n]);
      assert c + d == c + d[..n] + [d[n]] && [s] + d == [s] + d[..n] + [d[n]];
      hide Survivor;
      SurvivorAppend(c + d[..n], d[n]);
      SurvivorAppend([s] + d[..n], d[n]);
    }
  }

  lemma MergeIntoNothing(s: Finding, g: Finding, h: Finding)
    requires s.evidence == ""
    ensures Merge(Merge(s, g), h) == Merge(s, Merge(g, h))
  {
  }

  /** Without evidence in front, a chunk may always be deduplicated first. */
  lemma {:induction false} BehindNoEvidence(s: Finding, d: seq<Finding>)
    requires s.evidence == "" && d != []
    ensures Survivor([s] + d) == Merge(s, Survivor(d))
  {
    hide Merge;
    var n := |d| - 1;
    assert [s] + d == [s] + d[..n] + [d[n]];
    SurvivorAppend([s] + d[..n], d[n]);
    SurvivorAppend(d[..n], d[n]);
    assert d[..n] + [d[n]] == d;
    if n == 0 {
      assert [s] + d[..n] == [s];
    } else {
      BehindNoEvidence(s, d[..n]);
      MergeIntoNothing(s, Survivor(d[..n]), d[n]);
    }
  }

  lemma {:induction false} EvidenceOfFirst(s: Finding, d: seq<Finding>)
    requires s.evidence != "" && forall i | 0 <= i < |d| :: d[i].evidence == ""
    ensures Survivor([s] + d).evidence == s.evidence
  {
    hide Better;
    if d == [] {
      assert [s] + d == [s];
    } else {
      var n := |d| - 1;
      EvidenceOfFirst(s, d[..n]);
      assert [s] + d == [s] + d[..n] + [d[n]];
      hide Survivor;
      SurvivorAppend([s] + d[..n], d[n]);
    }
  }

  /** If the survivor of d has no description, none of its members hands one on to what stood before. */
  lemma {:induction false} DescriptionOfFirst(s: Finding, d: seq<Finding>)
    requires s.evidence != "" && (d != [] ==> Survivor(d).description == "")
    ensures Survivor([s] + d).description == s.description && Survivor([s] + d).evidence != ""
  {
    hide Better;
    if d == [] {
      assert [s] + d == [s];
    } else {
      var n := |d| - 1;
      assert [s] + d == [s] + d[..n] + [d[n]] && d == d[..n] + [d[n]];
      if n == 0 {
        assert [s] + d[..n] == [s];
        SurvivorAppend([s], d[n]);
      } else {
        SurvivorAppend(d[..n], d[n]);
        DescriptionOfFirst(s, d[..n]);
        if Better(d[n], Survivor([s] + d[..n])) {
          BetterThanBoth(s, d[..n], d[n]);
        }
        hide Survivor;
        SurvivorAppend([s] + d[..n], d[n]);
      }
    }
  }

  lemma BetterThanBoth(s: Finding, d: seq<Finding>, f: Finding)
    requires s.evidence != "" && d != [] && Better(f, Survivor([s] + d))
    ensures Better(f, Survivor(d))
  {
    hide Better, Survivor;
    var k := SurvivorIsFirstBest([s] + d);
    var m := SurvivorIsFirstBest(d);
    AnchorAtFirst(s, d);
    BetterIgnoresFilling(Survivor([s] + d), ([s] + d)[k], f);
    BetterIgnoresFilling(Survivor(d), d[m], f);
    assert ([s] + d)[m + 1] == d[m];
    BetterIsStrictWeakOrder(f, ([s] + d)[k], d[m]);
  }

  lemma {:induction false} AnchorAtFirst(s: Finding, d: seq<Finding>)
    requires s.evidence != ""
    ensures Anchor([s] + d) == 0
  {
    if d != [] {
      var n := |d| - 1;
      AnchorAtFirst(s, d[..n]);
      assert ([s] + d)[..n + 1] == [s] + d[..n];
    }
  }

  lemma FirstBestUnique(c: seq<Finding>, from: nat, k: nat, m: nat)
    requires IsFirstBest(c, from, k) && IsFirstBest(c, from, m)
    ensures k == m
  {
    hide Better;
    var x, y := c[k], c[m];
    assert !Better(x, y) && !Better(y, x);
  }

  /** The survivor is the first best member as it stands: nothing displaced it or filled it in. */
  predicate Plain(d: seq<Finding>)
    requires d != []
  {
    Survivor(d) == d[FirstBest(d)]
  }

  /** A plain chunk may be deduplicated first behind any survivor with evidence. */
  lemma BehindEvidence(s: Finding, d: seq<Finding>)
    requires s.evidence != "" && d != [] && Plain(d)
    ensures Survivor([s] + d) == Merge(s, Survivor(d))
  {
    hide Better, Survivor;
    var m := FirstBest(d);
    FirstBestIsBest(d);
    SurvivorOfOne(s);
    if !Better(d[m], s) {
      forall i | 0 <= i < |d| ensures !Better(d[i], s) {
        BetterIsStrictWeakOrder(d[i], s, d[m]);
      }
      StaysPut([s], d);
    } else {
      FirstBestBehind(s, d, m);
      var k := SurvivorIsFirstBest([s] + d);
      AnchorAtFirst(s, d);
      FirstBestUnique([s] + d, 0, k, m + 1);
      var j := SurvivorIsFirstBest(d);
      if d[m].evidence == "" {
        EvidenceOfFirst(s, d);
      }
      if d[m].description == "" {
        DescriptionOfFirst(s, d);
      }
    }
  }

  lemma SurvivorOfOne(s: Finding)
    ensures Survivor([s]) == s
  {
  }

  lemma FirstBestBehind(s: Finding, d: seq<Finding>, m: nat)
    requires IsFirstBest(d, 0, m) && Better(d[m], s)
    ensures IsFirstBest([s] + d, 0, m + 1)
  {
    hide Better;
    var c := [s] + d;
    BetterIsStrictWeakOrder(d[m], s, s);
    assert forall i | 0 < i < |c| :: c[i] == d[i - 1];
  }

  /** A chunk that is not plain must not be deduplicated first: a finding that is worse than its first best, but than
      nothing before that, tells the difference. */
  lemma TellsApart(d: seq<Finding>) returns (s: Finding)
    requires d != [] && !Plain(d)
    ensures Identity(s) == Identity(d[FirstBest(d)])
    ensures Survivor([s] + d) != Merge(s, Survivor(d))
  {
    hide Better, Survivor, Identity;
    var m := FirstBest(d);
    FirstBestIsBest(d);
    var low := Lower(d, m);
    var e := d[m].evidence + Survivor(d).evidence + "x";
    var t := d[m].description + Survivor(d).description + "x";
    s := d[m].(verification := low.verification, score := low.score, evidence := e, description := t);
    SameQuality(d[m], s, low);
    forall i | 0 <= i < m ensures !Better(d[..m][i], s) {
      SameQuality(d[i], s, low);
    }
    SameIdentity(s, d[m]);
    SurvivorOfOne(s);
    StaysPut([s], d[..m]);
    SurvivorAppend([s] + d[..m], d[m]);
    var reached := [s] + d[..m] + [d[m]];
    var stays := Survivor(reached);
    assert stays == Merge(s, d[m]);
    BetterIgnoresFilling(stays, d[m], d[m]);
    var after := d[m + 1..];
    forall i | 0 <= i < |after| ensures !Better(after[i], stays) {
      BetterIgnoresFilling(stays, d[m], after[i]);
    }
    StaysPut(reached, after);
    assert reached + after == [s] + d;
    BetterIsStrictWeakOrder(d[m], s, s);
    LongerThan(d[m].evidence, Survivor(d).evidence);
    LongerThan(d[m].description, Survivor(d).description);
  }

  /** Something worse than the first best member, but not than any before it. */
  lemma Lower(d: seq<Finding>, m: nat) returns (low: Finding)
    requires IsFirstBest(d, 0, m)
    ensures Better(d[m], low) && forall i | 0 <= i < m :: !Better(d[i], low)
  {
    if m == 0 {
      low := d[0].(verification := "UNKNOWN", score := d[0].score - 1.0);
    } else {
      FirstBestIsBest(d[..m]);
      hide Better;
      low := d[FirstBest(d[..m])];
      assert forall i | 0 <= i < m :: d[..m][i] == d[i];
    }
  }

  lemma SameQuality(f: Finding, s: Finding, low: Finding)
    requires s.verification == low.verification && s.score == low.score
    ensures Better(f, s) == Better(f, low)
  {
  }

  lemma SameIdentity(s: Finding, f: Finding)
    requires s == f.(verification := s.verification, score := s.score, evidence := s.evidence,
        description := s.description)
    ensures Identity(s) == Identity(f)
  {
  }

  lemma LongerThan(a: string, b: string)
    ensures a + b + "x" != a && a + b + "x" != b && a + b + "x" != ""
  {
    assert |a + b + "x"| == |a| + |b| + 1;
  }

  function Without(ids: seq<string>, seen: seq<string>): seq<string> {
    if ids == [] then []
    else
      var n := |ids| - 1;
      Without(ids[..n], seen) + (if ids[n] in seen then [] else [ids[n]])
  }

  lemma {:induction false} UniqOfConcat(ids: seq<string>, more: seq<string>)
    ensures Uniq(ids + more) == Uniq(ids) + Without(Uniq(more), ids)
  {
    if more == [] {
      assert ids + more == ids;
    } else {
      var n := |more| - 1;
      UniqOfConcat(ids, more[..n]);
      assert more == more[..n] + [more[n]];
      UniqOfConcatAppend(ids, more[..n], more[n]);
    }
  }

  lemma UniqOfConcatAppend(ids: seq<string>, before: seq<string>, id: string)
    requires Uniq(ids + before) == Uniq(ids) + Without(Uniq(before), ids)
    ensures Uniq(ids + (before + [id])) == Uniq(ids) + Without(Uniq(before + [id]), ids)
  {
    hide Uniq, Without;
    assert ids + (before + [id]) == (ids + before) + [id];
    UniqAppend(ids + before, id);
    UniqAppend(before, id);
    UniqHas(ids + before, id);
    UniqHas(before, id);
    if id !in before {
      WithoutAppend(Uniq(before), id, ids);
    }
  }

  lemma UniqHas(ids: seq<string>, id: string)
    ensures id in Uniq(ids) <==> id in ids
  {
    UniqExact(ids);
  }

  lemma WithoutAppend(ids: seq<string>, id: string, seen: seq<string>)
    ensures Without(ids + [id], seen) == Without(ids, seen) + (if id in seen then [] else [id])
  {
    assert (ids + [id])[..|ids|] == ids;
  }

  lemma IdsOfConcat(xs: seq<Finding>, ys: seq<Finding>)
    ensures Ids(xs + ys) == Ids(xs) + Ids(ys)
  {
    hide Identity;
  }

  /** The class of an identity in a deduplicated list: its survivor, or nothing. */
  lemma ClassOfDedup(xs: seq<Finding>, id: string)
    ensures Class(Dedup(xs), id) == if Class(xs, id) == [] then [] else [Survivor(Class(xs, id))]
  {
    hide Identity, Class, Survivor;
    DedupIds(xs);
    UniqExact(Ids(xs));
    var unique := Dedup(xs);
    DedupDistinct(xs);
    ClassOfDistinct(unique, id);
    ClassInhabited(xs, id);
    ClassInhabited(unique, id);
    if Class(xs, id) != [] {
      var i :| 0 <= i < |unique| && Uniq(Ids(xs))[i] == id;
      assert Ids(unique)[i] == id;
    }
  }

  lemma {:induction false} ClassOfDistinct(xs: seq<Finding>, id: string)
    requires forall i, j | 0 <= i < j < |xs| :: Identity(xs[i]) != Identity(xs[j])
    ensures forall i | 0 <= i < |xs| && Identity(xs[i]) == id :: Class(xs, id) == [xs[i]]
  {
    hide Identity;
    if xs != [] {
      var n := |xs| - 1;
      ClassOfDistinct(xs[..n], id);
      if Identity(xs[n]) == id {
        forall i | 0 <= i < n ensures Identity(xs[..n][i]) != id {
        }
        NoClass(xs[..n], id);
      }
    }
  }

  lemma NoClass(xs: seq<Finding>, id: string)
    requires forall i | 0 <= i < |xs| :: Identity(xs[i]) != id
    ensures Class(xs, id) == []
  {
    ClassInhabited(xs, id);
  }

  /** Every identity of the chunk has its first best finding, as it stands, for its survivor. */
  ghost predicate Harmless(ys: seq<Finding>) {
    forall id | Class(ys, id) != [] :: Plain(Class(ys, id))
  }

  lemma SurvivorOfTwo(f: Finding, g: Finding)
    ensures Survivor([f] + [g]) == Merge(f, g)
  {
    assert ([f] + [g])[..1] == [f];
  }

  /** Deduplicating a chunk first does not change the survivor of an identity. */
  lemma SameSurvivor(xs: seq<Finding>, ys: seq<Finding>, id: string)
    requires Class(ys, id) != [] ==> Plain(Class(ys, id))
    requires Class(xs + ys, id) != [] && Class(xs + Dedup(ys), id) != []
    ensures Survivor(Class(xs + Dedup(ys), id)) == Survivor(Class(xs + ys, id))
  {
    hide Identity, Dedup, Merge, Class, Survivor, Plain;
    ClassOfConcat(xs, ys, id);
    ClassOfConcat(xs, Dedup(ys), id);
    ClassOfDedup(ys, id);
    var c, d := Class(xs, id), Class(ys, id);
    if d != [] {
      SurvivorBehind(c, d);
    }
  }

  lemma SurvivorBehind(c: seq<Finding>, d: seq<Finding>)
    requires d != [] && Plain(d)
    ensures Survivor(c + [Survivor(d)]) == Survivor(c + d)
  {
    hide Merge, Survivor, Plain;
    var s := Survivor(d);
    SurvivorAppend(c, s);
    if c == [] {
      assert c + d == d;
    } else {
      SurvivorStandsFor(c, d);
      if Survivor(c).evidence == "" {
        BehindNoEvidence(Survivor(c), d);
      } else {
        BehindEvidence(Survivor(c), d);
      }
    }
  }

  lemma UniqBehind(xs: seq<Finding>, ys: seq<Finding>)
    ensures Uniq(Ids(xs + Dedup(ys))) == Uniq(Ids(xs + ys))
  {
    hide Dedup, Identity, Uniq, Ids;
    DedupIds(ys);
    IdsOfConcat(xs, Dedup(ys));
    IdsOfConcat(xs, ys);
    UniqOfConcat(Ids(xs), Uniq(Ids(ys)));
    UniqOfConcat(Ids(xs), Ids(ys));
    UniqExact(Ids(ys));
    UniqOfDistinct(Uniq(Ids(ys)));
  }

  lemma DedupBehind(xs: seq<Finding>, ys: seq<Finding>)
    requires Harmless(ys)
    ensures Dedup(xs + Dedup(ys)) == Dedup(xs + ys)
  {
    hide Identity, Dedup, Survivor, Merge, Plain, Class;
    UniqBehind(xs, ys);
    var parts, whole := xs + Dedup(ys), xs + ys;
    var ids := Uniq(Ids(whole));
    ClassesInhabited(whole);
    forall i | 0 <= i < |ids| ensures Dedup(parts)[i] == Survivor(Class(whole, ids[i])) {
      ClassesInhabited(parts);
      SameSurvivor(xs, ys, ids[i]);
    }
    DedupUnique(whole, Dedup(parts));
  }

  /** What has been deduplicated alike goes on alike. */
  lemma {:induction false} DedupGoesOn(xs: seq<Finding>, ys: seq<Finding>, zs: seq<Finding>)
    requires Dedup(xs) == Dedup(ys)
    ensures Dedup(xs + zs) == Dedup(ys + zs)
  {
    hide Identity, Dedup, IsDedup, Merge, Uniq, Ids;
    if zs == [] {
      assert xs + zs == xs && ys + zs == ys;
    } else {
      var n := |zs| - 1;
      DedupGoesOn(xs, ys, zs[..n]);
      assert xs + zs == xs + zs[..n] + [zs[n]] && ys + zs == ys + zs[..n] + [zs[n]];
      DedupNext(xs + zs[..n], ys + zs[..n], zs[n]);
    }
  }

  lemma DedupNext(xs: seq<Finding>, ys: seq<Finding>, f: Finding)
    requires Dedup(xs) == Dedup(ys)
    ensures Dedup(xs + [f]) == Dedup(ys + [f])
  {
    hide Identity, Dedup, IsDedup, Merge, Uniq, Ids;
    DedupIds(xs);
    DedupIds(ys);
    var unique, ids := Dedup(xs), Uniq(Ids(xs));
    DedupIsDedup(xs);
    DedupIsDedup(ys);
    SameLength(unique);
    if Identity(f) in ids {
      var k :| 0 <= k < |ids| && ids[k] == Identity(f);
      StepOld(xs, unique, f, k);
      StepOld(ys, unique, f, k);
      DedupUnique(xs + [f], unique[k := Merge(unique[k], f)]);
      DedupUnique(ys + [f], unique[k := Merge(unique[k], f)]);
    } else {
      StepNew(xs, unique, f);
      StepNew(ys, unique, f);
      DedupUnique(xs + [f], unique + [f]);
      DedupUnique(ys + [f], unique + [f]);
    }
  }

  lemma SameLength(xs: seq<Finding>)
    ensures |Ids(xs)| == |xs|
  {
  }

  lemma DedupedInFront(xs: seq<Finding>, ys: seq<Finding>)
    ensures Dedup(Dedup(xs) + ys) == Dedup(xs + ys)
  {
    hide Dedup, Identity;
    DedupIdempotent(xs);
    DedupGoesOn(Dedup(xs), xs, ys);
  }

  /** Deduplicating two parts and then what is left equals deduplicating everything at once, whatever the first part
      is, exactly if each identity of the second part has its first best finding, as it stands, for its survivor. */
  lemma DedupOfPartsIff(ys: seq<Finding>)
    ensures (forall xs :: Dedup(Dedup(xs) + Dedup(ys)) == Dedup(xs + ys)) <==> Harmless(ys)
  {
    hide Dedup, Identity, Plain, Survivor, Class;
    if Harmless(ys) {
      forall xs ensures Dedup(Dedup(xs) + Dedup(ys)) == Dedup(xs + ys) {
        DedupBehind(xs, ys);
        DedupedInFront(xs, Dedup(ys));
      }
    } else {
      var id :| Class(ys, id) != [] && !Plain(Class(ys, id));
      var s := PartsDiffer(ys, id);
      assert Dedup(Dedup([s]) + Dedup(ys)) != Dedup([s] + ys);
    }
  }

  lemma PartsDiffer(ys: seq<Finding>, id: string) returns (s: Finding)
    requires Class(ys, id) != [] && !Plain(Class(ys, id))
    ensures Dedup(Dedup([s]) + Dedup(ys)) != Dedup([s] + ys)
  {
    hide Dedup, Identity, Plain, Survivor, Class, Merge;
    var d := Class(ys, id);
    s := TellsApart(d);
    var p := ClassMember(ys, id, FirstBest(d));
    DedupOfOne(s);
    ClassOfOne(s, id);
    ClassOfConcat([s], ys, id);
    ClassOfConcat([s], Dedup(ys), id);
    ClassOfDedup(ys, id);
    SurvivorOfTwo(s, Survivor(d));
    ClassOfDedup([s] + ys, id);
    ClassOfDedup([s] + Dedup(ys), id);
    assert Class(Dedup([s] + ys), id)[0] != Class(Dedup([s] + Dedup(ys)), id)[0];
  }

  lemma ClassOfOne(s: Finding, id: string)
    requires Identity(s) == id
    ensures Class([s], id) == [s]
  {
    hide Identity;
    assert [s][..0] == [];
  }

  /** Findings with evidence and a description make a chunk harmless. */
  lemma CompleteIsHarmless(ys: seq<Finding>)
    requires forall f | f in ys :: Complete(f)
    ensures Harmless(ys)
  {
    hide Identity, Class, Survivor;
    forall id | Class(ys, id) != [] ensures Plain(Class(ys, id)) {
      var c := Class(ys, id);
      forall k | 0 <= k < |c| ensures Complete(c[k]) {
        var p := ClassMember(ys, id, k);
      }
      var k := SurvivorIsFirstBest(c);
      FirstBestIsBest(c);
      FirstBestUnique(c, 0, k, FirstBest(c));
    }
  }

  // ---- any number of chunks ----

  function Flatten(chunks: seq<seq<Finding>>): seq<Finding> {
    if chunks == [] then [] else chunks[0] + Flatten(chunks[1..])
  }

  function DedupEach(chunks: seq<seq<Finding>>): seq<seq<Finding>> {
    if chunks == [] then [] else [Dedup(chunks[0])] + DedupEach(chunks[1..])
  }

  lemma {:induction false} ChunksBehind(xs: seq<Finding>, chunks: seq<seq<Finding>>)
    requires forall k | 0 <= k < |chunks| :: Harmless(chunks[k])
    ensures Dedup(xs + Flatten(DedupEach(chunks))) == Dedup(xs + Flatten(chunks))
    decreases |chunks|
  {
    if chunks != [] {
      var first, rest := chunks[0], chunks[1..];
      DedupEachOfMore(chunks);
      hide *;
      ChunksBehind(xs + Dedup(first), rest);
      OneMoreChunk(xs, first, Flatten(DedupEach(rest)), Flatten(rest));
    }
  }

  lemma DedupEachOfMore(chunks: seq<seq<Finding>>)
    requires chunks != []
    ensures Flatten(chunks) == chunks[0] + Flatten(chunks[1..])
    ensures Flatten(DedupEach(chunks)) == Dedup(chunks[0]) + Flatten(DedupEach(chunks[1..]))
  {
    hide Dedup;
    assert DedupEach(chunks)[1..] == DedupEach(chunks[1..]);
  }

  lemma OneMoreChunk(xs: seq<Finding>, first: seq<Finding>, rest': seq<Finding>, rest: seq<Finding>)
    requires Harmless(first) && Dedup(xs + Dedup(first) + rest') == Dedup(xs + Dedup(first) + rest)
    ensures Dedup(xs + (Dedup(first) + rest')) == Dedup(xs + (first + rest))
  {
    hide *;
    DedupBehind(xs, first);
    DedupGoesOn(xs + Dedup(first), xs + first, rest);
    assert xs + (first + rest) == xs + first + rest;
    assert xs + (Dedup(first) + rest') == xs + Dedup(first) + rest';
  }

  /** Deduplicating each chunk and then their concatenation equals deduplicating once, when all chunks but the first
      are harmless. */
  lemma DedupOfChunks(chunks: seq<seq<Finding>>)
    requires forall k | 0 < k < |chunks| :: Harmless(chunks[k])
    ensures Dedup(Flatten(DedupEach(chunks))) == Dedup(Flatten(chunks))
  {
    if chunks != [] {
      DedupEachOfMore(chunks);
      hide *;
      ChunksBehind(Dedup(chunks[0]), chunks[1..]);
      DedupedInFront(chunks[0], Flatten(chunks[1..]));
    }
  }

  lemma DedupOfOne(f: Finding)
    ensures Dedup([f]) == [f]
  {
    hide Identity;
    DedupOfDistinct([f]);
  }

  /** One more finding of the identity that is the only one so far. */
  lemma DedupOfOneMore(xs: seq<Finding>, s: Finding, f: Finding)
    requires Dedup(xs) == [s] && Identity(f) == Identity(s)
    ensures Dedup(xs + [f]) == [Merge(s, f)]
  {
    hide Identity, Merge, Uniq, Dedup, IsDedup, Ids;
    DedupIds(xs);
    assert Ids([s])[0] == Identity(s) by {
      IdsOfOne(s);
    }
    DedupIsDedup(xs);
    StepOld(xs, [s], f, 0);
    DedupUnique(xs + [f], [s][0 := Merge(s, f)]);
    assert [s][0 := Merge(s, f)] == [Merge(s, f)];
  }

  lemma IdsOfOne(s: Finding)
    ensures |Ids([s])| == 1 && Ids([s])[0] == Identity(s)
  {
  }

  lemma DedupIsDedup(xs: seq<Finding>)
    ensures IsDedup(xs, Dedup(xs))
  {
  }

  lemma MergeKeepsIdentity(f: Finding, g: Finding)
    requires Identity(f) == Identity(g)
    ensures Identity(Merge(f, g)) == Identity(f)
  {
    IdentityIgnoresFilling(Merge(f, g), if Better(g, f) || f.evidence == "" then g else f);
    hide Identity;
  }

  lemma ThreeAtOnce(f: Finding, g: Finding, h: Finding)
    requires Identity(f) == Identity(g) == Identity(h)
    ensures Dedup([f, g, h]) == [Merge(Merge(f, g), h)]
  {
    hide Identity, Dedup, Merge;
    DedupOfOne(f);
    DedupOfOneMore([f], f, g);
    MergeKeepsIdentity(f, g);
    DedupOfOneMore([f] + [g], Merge(f, g), h);
    assert [f] + [g] + [h] == [f, g, h];
  }

  lemma TwoAtOnce(f: Finding, g: Finding)
    requires Identity(f) == Identity(g)
    ensures Dedup([f, g]) == [Merge(f, g)]
  {
    hide Identity, Dedup, Merge;
    DedupOfOne(f);
    DedupOfOneMore([f], f, g);
    assert [f] + [g] == [f, g];
  }

  lemma FlattenTwo(chunks: seq<seq<Finding>>)
    requires |chunks| == 2
    ensures Flatten(chunks) == chunks[0] + chunks[1]
    ensures DedupEach(chunks) == [Dedup(chunks[0]), Dedup(chunks[1])]
  {
    hide Dedup;
    var last := chunks[1..];
    assert last[1..] == [];
    assert Flatten(last) == chunks[1] + [];
    assert DedupEach(last) == [Dedup(chunks[1])] + [];
  }

  /** Three findings of one identity, at once and with the first in a chunk of its own: two ways to merge. */
  lemma ThreeOfOneIdentity(f: Finding, g: Finding, h: Finding)
    requires Identity(f) == Identity(g) == Identity(h)
    ensures var chunks := [[f], [g, h]];
            && Dedup(Flatten(chunks)) == [Merge(Merge(f, g), h)]
            && Dedup(Flatten(DedupEach(chunks))) == [Merge(f, Merge(g, h))]
  {
    hide Identity, Dedup, Merge, Flatten, DedupEach;
    var chunks := [[f], [g, h]];
    ThreeAtOnce(f, g, h);
    FlattenTwo(chunks);
    assert [f] + [g, h] == [f, g, h];
    DedupOfOne(f);
    TwoAtOnce(g, h);
    MergeKeepsIdentity(g, h);
    TwoAtOnce(f, Merge(g, h));
    FlattenTwo([[f], [Merge(g, h)]]);
    assert [f] + [Merge(g, h)] == [f, Merge(g, h)];
  }

  /** Without evidence everywhere the chunks do matter: alone in its chunk with the third, the second finding, which
      has no evidence, gives way to it, and the first one stays; all at once, the second one stays. */
  lemma ChunksMatterWithoutEvidence()
    ensures var f := Finding("p", "t", "VERSION_MATCH", 0.0, "h", 1, TCP, "PORT", "", "", "d", "e", "");
            var g := f.(verification := "CONFIG_MATCH", evidence := "");
            var h := f.(verification := "UNKNOWN");
            var chunks := [[f], [g, h]];
            Dedup(Flatten(DedupEach(chunks))) != Dedup(Flatten(chunks))
  {
    hide Identity, Dedup, DedupEach, Flatten;
    var f := Finding("p", "t", "VERSION_MATCH", 0.0, "h", 1, TCP, "PORT", "", "", "d", "e", "");
    var g := f.(verification := "CONFIG_MATCH", evidence := "");
    var h := f.(verification := "UNKNOWN");
    IdentityByPlace(f, g);
    IdentityByPlace(f, h);
    ThreeOfOneIdentity(f, g, h);
    assert Merge(Merge(f, g), h).verification == "CONFIG_MATCH";
    assert Merge(f, Merge(g, h)).verification == "VERSION_MATCH";
  }

  // ---- ports never collide ----

  lemma {:induction false} DecimalInjective(n: nat, m: nat)
    requires Decimal(n) == Decimal(m)
    ensures n == m
  {
    var s, t := Decimal(n), Decimal(m);
    assert |s| == 1 <==> n < 10;
    assert |t| == 1 <==> m < 10;
    if n >= 10 && m >= 10 {
      assert s[..|s| - 1] == Decimal(n / 10) && t[..|t| - 1] == Decimal(m / 10);
      assert s[|s| - 1] == Digit(n % 10) && t[|t| - 1] == Digit(m % 10);
      DecimalInjective(n / 10, m / 10);
    }
  }

  /** Two texts that continue after their first bar agree before it and after it. */
  lemma CutAtBar(a: string, b: string, x: string, y: string)
    requires '|' !in a && '|' !in b
    requires a + "|" + x == b + "|" + y
    ensures a == b && x == y
  {
    var s := a + "|" + x;
    assert s[|a|] == '|' && s[|b|] == '|';
    assert forall i | 0 <= i < |a| :: s[i] == a[i];
    assert forall i | 0 <= i < |b| :: s[i] == b[i];
    assert |a| == |b|;
    assert s[..|a|] == a && s[..|b|] == b && s[|a| + 1..] == x && s[|b| + 1..] == y;
  }

  /** Findings of one host and one scope other than HOST have different identities on different ports. */
  lemma PortsNeverCollide(f: Finding, g: Finding)
    requires f.host == g.host && f.scope == g.scope && f.scope != "HOST"
    requires Identity(f) == Identity(g)
    ensures f.port == g.port
  {
    var p := Prefix(f);
    var x, y := Decimal(f.port) + "|" + Suffix(f), Decimal(g.port) + "|" + Suffix(g);
    var a, b := ProtocolName(f.protocol), ProtocolName(g.protocol);
    assert Identity(f) == p + (a + "|" + x);
    assert Identity(g) == p + (b + "|" + y);
    assert Identity(f)[|p|..] == a + "|" + x && Identity(g)[|p|..] == b + "|" + y;
    CutAtBar(a, b, x, y);
    CutAtBar(Decimal(f.port), Decimal(g.port), Suffix(f), Suffix(g));
    DecimalInjective(f.port, g.port);
  }

  // ---- what an identity is made of ----

  /** No bar in the fields the key joins with bars; a title may have some. */
  predicate NoBars(f: Finding) {
    '|' !in f.host && '|' !in f.scope && '|' !in f.service && '|' !in f.cve && '|' !in f.pluginName
  }

  lemma CutIff(a: string, b: string, x: string, y: string)
    requires '|' !in a && '|' !in b
    ensures a + "|" + x == b + "|" + y <==> a == b && x == y
  {
    if a + "|" + x == b + "|" + y {
      CutAtBar(a, b, x, y);
    }
  }

  lemma ProtocolNames(p: Protocol, q: Protocol)
    ensures '|' !in ProtocolName(p) && '|' !in ProtocolName(q) && (ProtocolName(p) == ProtocolName(q) <==> p == q)
  {
    var a, b := ProtocolName(p), ProtocolName(q);
    assert |a| == |b| && a != [] && b != [] && a[0] == b[0] ==> p == q;
  }

  lemma SuffixIff(f: Finding, g: Finding)
    requires NoBars(f) && NoBars(g)
    ensures Suffix(f) == Suffix(g) <==>
            && f.service == g.service && f.cve == g.cve
            && (f.cve == "" ==> f.pluginName == g.pluginName && f.title == g.title)
  {
    var x := if f.cve == "" then f.pluginName + "|" + f.title else f.cve;
    var y := if g.cve == "" then g.pluginName + "|" + g.title else g.cve;
    CutIff(f.service, g.service, x, y);
    CutIff(f.pluginName, g.pluginName, f.title, g.title);
    assert f.cve == "" ==> x[|f.pluginName|] == '|' && '|' in x;
    assert g.cve == "" ==> y[|g.pluginName|] == '|' && '|' in y;
  }

  /** Two findings have one identity exactly if they agree in host, scope, protocol and service, in the port unless
      they are about the host, and in the CVE id or, without one, in plugin and title. */
  lemma IdentityIff(f: Finding, g: Finding)
    requires NoBars(f) && NoBars(g)
    ensures Identity(f) == Identity(g) <==>
            && f.host == g.host && f.scope == g.scope && f.protocol == g.protocol && f.service == g.service
            && (f.scope != "HOST" ==> f.port == g.port)
            && f.cve == g.cve && (f.cve == "" ==> f.pluginName == g.pluginName && f.title == g.title)
  {
    hide Suffix, Decimal, ProtocolName;
    SuffixIff(f, g);
    ProtocolNames(f.protocol, g.protocol);
    var x := (if f.scope != "HOST" then Decimal(f.port) + "|" else "") + Suffix(f);
    var y := (if g.scope != "HOST" then Decimal(g.port) + "|" else "") + Suffix(g);
    if f.scope == g.scope {
      PortPart(f, g);
    }
    var a, b := ProtocolName(f.protocol), ProtocolName(g.protocol);
    CutIff(a, b, x, y);
    CutIff(f.scope, g.scope, a + "|" + x, b + "|" + y);
    CutIff(f.host, g.host, f.scope + "|" + (a + "|" + x), g.scope + "|" + (b + "|" + y));
    KeyParts(f, x);
    KeyParts(g, y);
  }

  lemma KeyParts(f: Finding, x: string)
    requires x == (if f.scope != "HOST" then Decimal(f.port) + "|" else "") + Suffix(f)
    ensures Identity(f) == f.host + "|" + (f.scope + "|" + (ProtocolName(f.protocol) + "|" + x))
  {
    hide Suffix, Decimal, ProtocolName;
    var name := ProtocolName(f.protocol);
    assert f.host + "|" + f.scope + "|" + (name + "|" + x) == f.host + "|" + (f.scope + "|" + (name + "|" + x));
  }

  lemma PortPart(f: Finding, g: Finding)
    requires f.scope == g.scope
    ensures (if f.scope != "HOST" then Decimal(f.port) + "|" else "") + Suffix(f)
         == (if g.scope != "HOST" then Decimal(g.port) + "|" else "") + Suffix(g)
        <==> (f.scope != "HOST" ==> f.port == g.port) && Suffix(f) == Suffix(g)
  {
    hide Suffix;
    CutIff(Decimal(f.port), Decimal(g.port), Suffix(f), Suffix(g));
    if Decimal(f.port) == Decimal(g.port) {
      DecimalInjective(f.port, g.port);
    }
    hide Decimal;
    assert "" + Suffix(f) == Suffix(f) && "" + Suffix(g) == Suffix(g);
  }

  /** Every finding leaves a survivor with its identity. */
  lemma SurvivorOf(xs: seq<Finding>, p: nat) returns (k: nat)
    requires p < |xs|
    ensures k < |Dedup(xs)| && Identity(Dedup(xs)[k]) == Identity(xs[p])
  {
    hide Identity, Dedup, Uniq;
    DedupIds(xs);
    UniqExact(Ids(xs));
    assert Ids(xs)[p] in Ids(xs);
    k :| 0 <= k < |Uniq(Ids(xs))| && Uniq(Ids(xs))[k] == Ids(xs)[p];
    assert Ids(Dedup(xs))[k] == Identity(Dedup(xs)[k]);
  }

  /** A finding with a CVE id leaves a survivor with that id, on its host and port and of its service; findings with
      different ids leave different ones. */
  lemma CvesSurvive(xs: seq<Finding>, p: nat, q: nat) returns (k: nat, m: nat)
    requires p < |xs| && q < |xs| && xs[p].cve != xs[q].cve && forall f | f in xs :: NoBars(f)
    ensures k < |Dedup(xs)| && m < |Dedup(xs)| && k != m
    ensures Dedup(xs)[k].cve == xs[p].cve && Dedup(xs)[m].cve == xs[q].cve
    ensures Dedup(xs)[k].host == xs[p].host && Dedup(xs)[k].service == xs[p].service
    ensures xs[p].scope != "HOST" ==> Dedup(xs)[k].port == xs[p].port
  {
    hide Identity, Dedup, NoBars;
    k := SurvivorOf(xs, p);
    m := SurvivorOf(xs, q);
    var i := DedupMember(xs, k);
    var j := DedupMember(xs, m);
    SurvivorHasNoBars(xs, k, i);
    SurvivorHasNoBars(xs, m, j);
    IdentityIff(Dedup(xs)[k], xs[p]);
    IdentityIff(Dedup(xs)[m], xs[q]);
  }

  lemma SurvivorHasNoBars(xs: seq<Finding>, k: nat, i: nat)
    requires k < |Dedup(xs)| && i < |xs| && SameButFilled(Dedup(xs)[k], xs[i]) && forall f | f in xs :: NoBars(f)
    ensures NoBars(Dedup(xs)[k])
  {
    hide Dedup;
    assert NoBars(xs[i]);
  }
}
