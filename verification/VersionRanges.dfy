/** Version texts and ranges in terms of the numbers they are written with. */
module VersionRanges {
  import opened Sequences
  import opened Text
  import opened Findings
  import opened CveDatabase
  import Dpkg
  import Backport
  import Padded = PaddedOrder

  // ---- writing versions ----

  ghost predicate Naturals(ns: seq<int>) {
    forall k | 0 <= k < |ns| :: ns[k] >= 0
  }

  /** All of them are ints. */
  ghost predicate Fit(ns: seq<int>) {
    forall k | 0 <= k < |ns| :: ns[k] <= 0x7fff_ffff
  }

  function Dotted(ns: seq<int>): string
    requires forall k | 0 <= k < |ns| :: ns[k] >= 0
  {
    if ns == [] then ""
    else Decimal(ns[0]) + (if |ns| == 1 then "" else "." + Dotted(ns[1..]))
  }

  predicate NoDigits(s: string) {
    forall k | 0 <= k < |s| :: !IsDigit(s[k])
  }

  /** What may follow the numbers: no digit, and no digit behind a dot. */
  predicate Ends(tail: string) {
    tail == "" || (!IsDigit(tail[0]) && (tail[0] == '.' ==> |tail| == 1 || !IsDigit(tail[1])))
  }

  lemma {:induction false} DecimalIsDigits(n: nat)
    ensures forall k | 0 <= k < |Decimal(n)| :: IsDigit(Decimal(n)[k])
    ensures Numeral(Decimal(n), 0, |Decimal(n)|) == n
  {
    var s := Decimal(n);
    if n >= 10 {
      DecimalIsDigits(n / 10);
      var t := Decimal(n / 10);
      assert s == t + [Findings.Digit(n % 10)];
      assert s[0..|t|] == t[0..|t|];
      Dpkg.SameDigits(s, 0, t, 0, |t|);
    }
  }

  lemma DigitsAt(s: string, i: nat, digits: string, rest: string)
    requires At(s, i, digits + rest) && i + |digits| + |rest| == |s| && digits != ""
    requires (rest == "" || !IsDigit(rest[0])) && forall k | 0 <= k < |digits| :: IsDigit(digits[k])
    ensures var e := i + |digits|;
            && e <= |s| && IsDigit(s[i]) && DigitsEnd(s, i) == e
            && (forall k | i <= k < e :: IsDigit(s[k])) && s[i..e] == digits
  {
    var e := i + |digits|;
    Halves(s, i, digits, rest);
    AtMeans(s, i, digits);
    forall k | i <= k < e ensures IsDigit(s[k]) {
      ItemAt(s, i, digits, k - i);
    }
    if rest != "" {
      ItemAt(s, e, rest, 0);
    }
    hide At, IsDigit;
    Dpkg.DigitsEndIsUnique(s, i, e);
  }

  lemma NumeralAt(s: string, i: nat, n: nat, rest: string)
    requires At(s, i, Decimal(n) + rest) && i + |Decimal(n)| + |rest| == |s| && (rest == "" || !IsDigit(rest[0]))
    ensures var e := i + |Decimal(n)|;
            && e <= |s| && IsDigit(s[i]) && DigitsEnd(s, i) == e
            && (forall k | i <= k < e :: IsDigit(s[k])) && Numeral(s, i, e) == n
  {
    hide At, Decimal, IsDigit, DigitsEnd;
    var t := Decimal(n);
    DecimalIsDigits(n);
    DigitsAt(s, i, t, rest);
    assert t[0..0 + |t|] == t;
    Dpkg.SameDigits(s, i, t, 0, |t|);
  }

  /** The last number of a version. */
  lemma OneNumber(raw: string, cursor: nat, before: seq<int>, n: nat, tail: string)
    requires Ends(tail) && At(raw, cursor, Decimal(n) + tail) && cursor + |Decimal(n)| + |tail| == |raw|
    ensures cursor <= |raw| && Numbers(raw, cursor, before) == if n <= INT_MAX then before + [n] else []
  {
    EndsMeans(tail);
    hide *;
    NumeralAt(raw, cursor, n, tail);
    Halves(raw, cursor, Decimal(n), tail);
    LastNumber(raw, cursor + |Decimal(n)|, tail);
    DecimalHasLength(n);
    LastOf(raw, cursor, before, cursor + |Decimal(n)|);
  }

  lemma DecimalHasLength(n: nat)
    ensures |Decimal(n)| > 0
  {
  }

  /** A number with a dot and more behind it. */
  lemma NumberAndMore(raw: string, cursor: nat, before: seq<int>, n: nat, rest: string)
    requires At(raw, cursor, Decimal(n) + ("." + rest)) && cursor + |Decimal(n)| + 1 + |rest| == |raw|
    ensures var next := cursor + |Decimal(n)| + 1;
            && next <= |raw| && At(raw, next, rest)
            && Numbers(raw, cursor, before) == if n <= INT_MAX then Numbers(raw, next, before + [n]) else []
  {
    DotIsNoDigit();
    hide *;
    var end := cursor + |Decimal(n)|;
    NumeralAt(raw, cursor, n, "." + rest);
    Halves(raw, cursor, Decimal(n), "." + rest);
    Halves(raw, end, ".", rest);
    ItemAt(raw, end, ".", 0);
    DecimalHasLength(n);
    NumberAndDot(raw, cursor, before, end);
  }

  /** The numbers are read back, and none at all if one of them does not fit an int. */
  lemma {:induction false} NumbersOfDotted(raw: string, cursor: nat, before: seq<int>, ns: seq<int>, tail: string)
    requires Naturals(ns) && ns != [] && Ends(tail)
    requires At(raw, cursor, Dotted(ns) + tail) && cursor + |Dotted(ns)| + |tail| == |raw|
    ensures cursor <= |raw| && Numbers(raw, cursor, before) == if Fit(ns) then before + ns else []
    decreases |ns|
  {
    DottedUnfolds(ns);
    hide *;
    if |ns| == 1 {
      OneNumber(raw, cursor, before, ns[0], tail);
      OnlyOne(ns);
    } else {
      Regroup(Decimal(ns[0]), "." + Dotted(ns[1..]), tail);
      Regroup(".", Dotted(ns[1..]), tail);
      NumberAndMore(raw, cursor, before, ns[0], Dotted(ns[1..]) + tail);
      NaturalsRest(ns);
      NumbersOfDotted(raw, cursor + |Decimal(ns[0])| + 1, before + [ns[0]], ns[1..], tail);
      Regroup(before, [ns[0]], ns[1..]);
    }
  }

  lemma OnlyOne(ns: seq<int>)
    requires |ns| == 1
    ensures ns == [ns[0]] && (Fit(ns) <==> ns[0] <= INT_MAX)
  {
  }

  lemma NaturalsRest(ns: seq<int>)
    requires ns != [] && Naturals(ns)
    ensures Naturals(ns[1..]) && (ns == [ns[0]] + ns[1..])
    ensures Fit(ns) <==> ns[0] <= INT_MAX && Fit(ns[1..])
  {
    if ns[0] <= INT_MAX && Fit(ns[1..]) {
      forall k | 0 <= k < |ns| ensures ns[k] <= INT_MAX {
        if k > 0 {
          assert ns[1..][k - 1] == ns[k];
        }
      }
    }
  }

  lemma DottedUnfolds(ns: seq<int>)
    requires Naturals(ns) && ns != []
    ensures |ns| == 1 ==> Dotted(ns) == Decimal(ns[0])
    ensures |ns| > 1 ==> Naturals(ns[1..]) && Dotted(ns) == Decimal(ns[0]) + ("." + Dotted(ns[1..]))
  {
    hide Decimal;
  }

  lemma NumberAndDot(raw: string, cursor: nat, before: seq<int>, end: nat)
    requires cursor < end < |raw| && IsDigit(raw[cursor]) && DigitsEnd(raw, cursor) == end && raw[end] == '.'
    ensures var value := Numeral(raw, cursor, end);
            Numbers(raw, cursor, before) == if value <= INT_MAX then Numbers(raw, end + 1, before + [value]) else []
  {
  }

  lemma DotIsNoDigit()
    ensures !IsDigit('.')
  {
  }

  lemma EndsMeans(tail: string)
    requires Ends(tail)
    ensures tail == "" || !IsDigit(tail[0])
  {
  }

  lemma LastNumber(raw: string, end: nat, tail: string)
    requires Ends(tail) && At(raw, end, tail) && end + |tail| == |raw|
    ensures end < |raw| && raw[end] == '.' ==> end + 1 == |raw| || !IsDigit(raw[end + 1])
  {
    if tail != "" {
      ItemAt(raw, end, tail, 0);
      if |tail| > 1 {
        ItemAt(raw, end, tail, 1);
      }
    }
  }

  lemma LastOf(raw: string, cursor: nat, before: seq<int>, end: nat)
    requires cursor < end <= |raw| && IsDigit(raw[cursor]) && DigitsEnd(raw, cursor) == end
    requires end < |raw| && raw[end] == '.' ==> end + 1 == |raw| || !IsDigit(raw[end + 1])
    ensures var value := Numeral(raw, cursor, end);
            Numbers(raw, cursor, before) == if value <= INT_MAX then before + [value] else []
  {
  }

  lemma {:induction false} FirstDigitAt(raw: string, from: nat, k: nat)
    requires from <= k < |raw| && IsDigit(raw[k]) && forall i | from <= i < k :: !IsDigit(raw[i])
    ensures FirstDigit(raw, from) == k
    decreases k - from
  {
    if from < k {
      FirstDigitAt(raw, from + 1, k);
    }
  }

  /** A version written with dots, behind any text without digits and before anything that does not go on with a
      number, has just these components; none if one of them is too large. */
  lemma ComponentsOfDotted(prefix: string, ns: seq<int>, tail: string)
    requires NoDigits(prefix) && Naturals(ns) && ns != [] && Ends(tail)
    ensures Components(prefix + (Dotted(ns) + tail))
         == if Fit(ns) then ns else []
  {
    var raw := prefix + (Dotted(ns) + tail);
    var cursor := |prefix|;
    assert raw[cursor..] == Dotted(ns) + tail;
    DecimalIsDigits(ns[0]);
    assert raw[cursor] == Dotted(ns)[0] == Decimal(ns[0])[0];
    FirstDigitAt(raw, 0, cursor);
    NumbersOfDotted(raw, cursor, [], ns, tail);
    assert [] + ns == ns;
  }

  /** Without a digit there are none. */
  lemma ComponentsOfNothing(raw: string)
    requires NoDigits(raw)
    ensures Components(raw) == []
  {
  }

  // ---- ranges ----

  /** At the first position where they differ, missing numbers counting as 0, a has the smaller number. */
  ghost predicate Under(a: seq<int>, b: seq<int>) {
    exists k: nat :: Differs(a, b, k)
  }

  ghost predicate Differs(a: seq<int>, b: seq<int>, k: nat) {
    Padded.At(a, k) < Padded.At(b, k) && forall j: nat | j < k :: Padded.At(a, j) == Padded.At(b, j)
  }

  lemma {:induction false} FirstDiffering(a: seq<int>, b: seq<int>, k: nat) returns (m: nat)
    requires forall j: nat | j < k :: Padded.At(a, j) == Padded.At(b, j)
    ensures forall j: nat | j < m :: Padded.At(a, j) == Padded.At(b, j)
    ensures Padded.At(a, m) != Padded.At(b, m) || (m >= |a| && m >= |b|)
    decreases |a| + |b| - k
  {
    if Padded.At(a, k) != Padded.At(b, k) || (k >= |a| && k >= |b|) {
      m := k;
    } else {
      m := FirstDiffering(a, b, k + 1);
    }
  }

  lemma UnderIff(a: seq<int>, b: seq<int>)
    ensures Under(a, b) <==> Padded.Compare(a, b) < 0
  {
    hide Padded.Compare;
    if Under(a, b) {
      var k: nat :| Differs(a, b, k);
      Padded.FirstDifference(a, b, k);
    }
    if Padded.Compare(a, b) < 0 {
      var m := FirstDiffering(a, b, 0);
      Padded.FirstDifference(a, b, m);
      assert Differs(a, b, m);
    }
  }

  /** The version has numbers, which are not below those of a minimum nor above those of a maximum. */
  ghost predicate Within(v: seq<int>, minimum: string, maximum: string) {
    && v != []
    && (minimum == "*" || !Under(v, Components(minimum)))
    && (maximum == "*" || !Under(Components(maximum), v))
  }

  lemma InRangeIff(version: string, minimum: string, maximum: string)
    ensures InRange(version, minimum, maximum) <==> Within(Components(version), minimum, maximum)
  {
    hide Components, Under, Padded.Compare;
    var v := Components(version);
    UnderIff(v, Components(minimum));
    UnderIff(Components(maximum), v);
    Padded.Antisymmetric(v, Components(maximum));
  }

  /** Read off the texts: a version is in a range exactly if its numbers are between those of the bounds, which
      themselves belong to it; a bound that is a star does not restrict. */
  lemma RangeInNumbers(
      prefix: string, vs: seq<int>, tail: string, lows: seq<int>, highs: seq<int>, lower: bool, upper: bool)
    requires NoDigits(prefix) && Ends(tail) && vs != [] && Naturals(vs) && Fit(vs)
    requires lows != [] && Naturals(lows) && Fit(lows) && highs != [] && Naturals(highs) && Fit(highs)
    ensures InRange(prefix + (Dotted(vs) + tail), if lower then Dotted(lows) else "*",
                    if upper then Dotted(highs) else "*")
        <==> (lower ==> !Under(vs, lows)) && (upper ==> !Under(highs, vs))
  {
    hide Components, Under, Fit, NoDigits, Ends, InRange;
    ComponentsOfDotted(prefix, vs, tail);
    BoundIs(lows);
    BoundIs(highs);
    InRangeIff(prefix + (Dotted(vs) + tail), if lower then Dotted(lows) else "*", if upper then Dotted(highs) else "*");
  }

  lemma BoundIs(ns: seq<int>)
    requires ns != [] && Naturals(ns) && Fit(ns)
    ensures Dotted(ns) != "*" && Components(Dotted(ns)) == ns
  {
    ComponentsOfDotted("", ns, "");
    assert "" + (Dotted(ns) + "") == Dotted(ns);
    DecimalIsDigits(ns[0]);
    DecimalHasLength(ns[0]);
    assert Dotted(ns)[0] == Decimal(ns[0])[0];
  }

  /** A port gets a finding with an id exactly if the table has a row with this id for its product, in letters of any
      case, and with its version in the range; never one whose ranges with that id all end below the version. */
  lemma ReportedIff(
      db: seq<Entry>, cve: string, port: Port, tag: Backport.DistroTag, fixes: seq<Backport.DistroFix>)
    ensures (exists f :: f in PortFindings(db, port, tag, fixes) && f.cve == cve) <==>
            exists k :: 0 <= k < |db| && db[k].cve == cve && SameLetters(db[k].product, port.product)
                        && Within(Components(port.version), db[k].minimum, db[k].maximum)
    ensures (forall k | 0 <= k < |db| && db[k].cve == cve ::
               db[k].maximum != "*" && Under(Components(db[k].maximum), Components(port.version)))
            ==> forall f | f in PortFindings(db, port, tag, fixes) :: f.cve != cve
  {
    hide InRange, Components, Under, PortFindings, SameLetters;
    FindingsComeFromMatches(db, cve, port, tag, fixes);
    forall k | 0 <= k < |db|
      ensures Matches(db[k], port.product, port.version) <==>
              SameLetters(db[k].product, port.product)
              && Within(Components(port.version), db[k].minimum, db[k].maximum)
    {
      LowerIff(db[k].product, port.product);
      InRangeIff(port.version, db[k].minimum, db[k].maximum);
    }
  }

  /** What a finding says: the id, the port with its product and version for evidence, and whether the fix is already
      installed, which names the fix and makes it a verdict of "not vulnerable" of high confidence. */
  ghost predicate Says(f: Finding, entry: Entry, port: Port, fixed: Backport.Outcome) {
    && f.cve == entry.cve && f.pluginName == "cve-database"
    && f.protocol == port.protocol && f.service == port.service && f.evidence == port.product + " " + port.version
    && f.verification == (if fixed.patched then "NOT_VULNERABLE" else "VERSION_MATCH")
    && f.score == (if fixed.patched then 0.9 else 0.5)
    && f.description == (if fixed.patched then fixed.via else entry.description)
    && f.title == entry.cve + ": " + (if fixed.patched then "already patched by " + fixed.via else entry.description)
  }

  lemma {:induction false} FindingsSay(
      db: seq<Entry>, port: Port, tag: Backport.DistroTag, fixes: seq<Backport.DistroFix>, f: Finding)
    returns (entry: Entry)
    requires f in PortFindings(db, port, tag, fixes)
    ensures entry in db && Says(f, entry, port, Backport.Decide(fixes, entry.cve, port.version, tag))
  {
    hide Matches, Backport.Decide, Says, Report;
    var n := |db| - 1;
    if f in PortFindings(db[..n], port, tag, fixes) {
      entry := FindingsSay(db[..n], port, tag, fixes, f);
    } else {
      entry := db[n];
      ReportSays(entry, port, Backport.Decide(fixes, entry.cve, port.version, tag));
    }
  }

  lemma ReportSays(entry: Entry, port: Port, fixed: Backport.Outcome)
    ensures Says(Report(entry, port, fixed), entry, port, fixed)
  {
  }
}
