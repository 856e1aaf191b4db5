/** Debian package version comparison, section 5.6.12 of the Debian Policy Manual. */
module Dpkg {
  import opened Text
  import Padded = PaddedOrder

  /** Weight of a character in a non-digit run: '~' below the end of the run, letters above it, then
      everything else. `char` is signed, so a byte above 127 is negative before 256 is added. */
  function CharOrder(c: char): int {
    if c == '\0' then 0
    else if c == '~' then -1
    else if IsAlpha(c) then c as int
    else (if c as int < 128 then c as int else c as int - 256) + 256
  }

  lemma NulWeighsZero()
    ensures CharOrder('\0') == 0
    ensures forall c | CharOrder(c) == 0 :: c == '\0'
  {
  }

  predicate NulFree(s: string) {
    '\0' !in s
  }

  /** No character at i, or a NUL: a position the comparison cannot move past. */
  predicate Blocked(s: string, i: nat) {
    i >= |s| || s[i] == '\0'
  }

  /** The sort key of s[i..] up to a NUL: the weights of a non-digit run, closed by 0, then the value of the digit
      run, and so on. What an ended string would add is zeros only, so the padded order supplies it. */
  function Key(s: string, i: nat): seq<int>
    requires i <= |s|
    decreases |s| - i
  {
    if Blocked(s, i) then []
    else if IsDigit(s[i]) then
      var e := DigitsEnd(s, i);
      [0, Numeral(s, i, e)] + Key(s, e)
    else [CharOrder(s[i])] + Key(s, i + 1)
  }

  function Compare(a: string, b: string): int {
    Padded.Compare(Key(a, 0), Key(b, 0))
  }

  // ---- values of digit runs ----

  lemma {:induction false} LeadingZero(s: string, i: nat, e: nat)
    requires i < e <= |s| && s[i] == '0'
    requires forall k | i <= k < e :: IsDigit(s[k])
    ensures Numeral(s, i, e) == Numeral(s, i + 1, e)
    decreases e
  {
    if i + 1 < e {
      LeadingZero(s, i, e - 1);
    }
  }

  lemma {:induction false} Positive(s: string, i: nat, e: nat)
    requires i < e <= |s| && s[i] != '0'
    requires forall k | i <= k < e :: IsDigit(s[k])
    ensures Numeral(s, i, e) > 0
    decreases e
  {
    if i + 1 < e {
      Positive(s, i, e - 1);
    }
  }

  /** Without a leading zero, the longer digit run is the larger number. */
  lemma {:induction false} ShorterIsSmaller(s: string, i: nat, e: nat, t: string, j: nat, f: nat)
    requires i <= e <= |s| && forall k | i <= k < e :: IsDigit(s[k])
    requires j < f <= |t| && forall k | j <= k < f :: IsDigit(t[k])
    requires t[j] != '0' && e - i < f - j
    ensures Numeral(s, i, e) < Numeral(t, j, f)
    decreases e
  {
    if i == e {
      Positive(t, j, f);
    } else {
      ShorterIsSmaller(s, i, e - 1, t, j, f - 1);
    }
  }

  /** Runs of one length compare as their first different digits do. */
  lemma {:induction false} FirstDigitDecides(s: string, i: nat, t: string, j: nat, k: nat, n: nat)
    requires k < n && i + n <= |s| && j + n <= |t|
    requires forall m | i <= m < i + n :: IsDigit(s[m])
    requires forall m | j <= m < j + n :: IsDigit(t[m])
    requires s[i..i + k] == t[j..j + k] && s[i + k] < t[j + k]
    ensures Numeral(s, i, i + n) < Numeral(t, j, j + n)
    decreases n
  {
    if n == k + 1 {
      SameDigits(s, i, t, j, k);
    } else {
      FirstDigitDecides(s, i, t, j, k, n - 1);
    }
  }

  lemma {:induction false} SameDigits(s: string, i: nat, t: string, j: nat, n: nat)
    requires i + n <= |s| && j + n <= |t|
    requires forall m | i <= m < i + n :: IsDigit(s[m])
    requires forall m | j <= m < j + n :: IsDigit(t[m])
    requires s[i..i + n] == t[j..j + n]
    ensures Numeral(s, i, i + n) == Numeral(t, j, j + n)
    decreases n
  {
    if n > 0 {
      assert s[i..i + n][..n - 1] == s[i..i + n - 1];
      assert t[j..j + n][..n - 1] == t[j..j + n - 1];
      assert s[i..i + n][n - 1] == t[j..j + n][n - 1];
      SameDigits(s, i, t, j, n - 1);
    }
  }

  // ---- one turn of the outer loop ----

  /** The character the non-digit loop sees at i: NUL for a digit and past the end. */
  function Seen(s: string, i: nat): char {
    if i < |s| && !IsDigit(s[i]) then s[i] else '\0'
  }

  /** A difference that decides, or the positions reached. */
  datatype Turned = Decided(sign: int) | Moved(i: nat, j: nat)

  /** Past two non-digit runs of equal weights. */
  function SkipRun(a: string, b: string, i: nat, j: nat): (t: Turned)
    requires i <= |a| && j <= |b|
    ensures t.Moved? ==> i <= t.i <= |a| && j <= t.j <= |b| && Seen(a, t.i) == Seen(b, t.j) == '\0'
    ensures t.Moved? && (Seen(a, i) != '\0' || Seen(b, j) != '\0') ==> t.i > i && t.j > j
    decreases |a| - i
  {
    NulWeighsZero();
    var ca, cb := Seen(a, i), Seen(b, j);
    if ca == '\0' && cb == '\0' then Moved(i, j)
    else if CharOrder(ca) != CharOrder(cb) then Decided(if CharOrder(ca) < CharOrder(cb) then -1 else 1)
    else SkipRun(a, b, i + 1, j + 1)
  }

  /** Then the digit runs that follow, compared as numbers. */
  function Turn(a: string, b: string, i: nat, j: nat): (t: Turned)
    requires i <= |a| && j <= |b|
    ensures t.Moved? ==> i <= t.i <= |a| && j <= t.j <= |b|
  {
    match SkipRun(a, b, i, j)
    case Decided(sign) => Decided(sign)
    case Moved(k, m) =>
      var e, f := DigitsEnd(a, k), DigitsEnd(b, m);
      var v, w := Numeral(a, k, e), Numeral(b, m, f);
      if v < w then Decided(-1) else if v > w then Decided(1) else Moved(e, f)
  }

  /** A turn leaves both positions where they were exactly when each string is at its end or at a NUL. */
  lemma TurnStallsIff(a: string, b: string, i: nat, j: nat)
    requires i <= |a| && j <= |b|
    ensures Turn(a, b, i, j) == Moved(i, j) <==> Blocked(a, i) && Blocked(b, j)
  {
  }

  /** At digits, at a NUL or at the end the key starts with the closing 0 and the number. */
  lemma KeyAtDigits(s: string, i: nat)
    requires i <= |s| && Seen(s, i) == '\0'
    ensures Padded.Head(Key(s, i)) == 0
    ensures var e := DigitsEnd(s, i);
            && Padded.Head(Padded.Tail(Key(s, i))) == Numeral(s, i, e)
            && Padded.Tail(Padded.Tail(Key(s, i))) == Key(s, e)
  {
    if !Blocked(s, i) {
      var e := DigitsEnd(s, i);
      assert Key(s, i) == [0, Numeral(s, i, e)] + Key(s, e);
      assert Key(s, i)[1..] == [Numeral(s, i, e)] + Key(s, e);
      assert Key(s, i)[1..][1..] == Key(s, e);
    }
  }

  /** Comparing two keys that both stand at digits: first the numbers, then what follows. */
  lemma CompareAtDigits(a: string, i: nat, b: string, j: nat)
    requires i <= |a| && j <= |b| && Seen(a, i) == Seen(b, j) == '\0'
    ensures var e, f := DigitsEnd(a, i), DigitsEnd(b, j);
            var v, w := Numeral(a, i, e), Numeral(b, j, f);
            Padded.Compare(Key(a, i), Key(b, j)) ==
            if v < w then -1 else if v > w then 1 else Padded.Compare(Key(a, e), Key(b, f))
  {
    KeyAtDigits(a, i);
    KeyAtDigits(b, j);
    var x, y := Key(a, i), Key(b, j);
    assert Padded.Compare(x, y) == Padded.Compare(Padded.Tail(x), Padded.Tail(y));
  }

  lemma KeyHead(s: string, i: nat)
    requires i <= |s|
    ensures Padded.Head(Key(s, i)) == CharOrder(Seen(s, i))
    ensures Seen(s, i) != '\0' ==> Padded.Tail(Key(s, i)) == Key(s, i + 1) && CharOrder(Seen(s, i)) != 0
  {
  }

  /** A turn decides as the keys do, or leaves the comparison of the keys to the positions it reaches. */
  lemma {:induction false} SkipRunCompares(a: string, b: string, i: nat, j: nat)
    requires i <= |a| && j <= |b|
    ensures var t, c := SkipRun(a, b, i, j), Padded.Compare(Key(a, i), Key(b, j));
            match t case Decided(sign) => c == sign != 0 case Moved(k, m) => c == Padded.Compare(Key(a, k), Key(b, m))
    decreases |a| - i
  {
    hide Key, CharOrder;
    NulWeighsZero();
    KeyHead(a, i);
    KeyHead(b, j);
    if (Seen(a, i) != '\0' || Seen(b, j) != '\0') && CharOrder(Seen(a, i)) == CharOrder(Seen(b, j)) {
      SkipRunCompares(a, b, i + 1, j + 1);
    }
  }

  lemma TurnCompares(a: string, b: string, i: nat, j: nat)
    requires i <= |a| && j <= |b|
    ensures var t, c := Turn(a, b, i, j), Padded.Compare(Key(a, i), Key(b, j));
            match t case Decided(sign) => c == sign != 0 case Moved(k, m) => c == Padded.Compare(Key(a, k), Key(b, m))
  {
    hide Key, SkipRun, Padded.Compare;
    SkipRunCompares(a, b, i, j);
    var t := SkipRun(a, b, i, j);
    if t.Moved? {
      CompareAtDigits(a, t.i, b, t.j);
    }
  }

  method SkipNonDigits(a: string, b: string, i0: nat, j0: nat) returns (t: Turned)
    requires i0 <= |a| && j0 <= |b|
    ensures t == SkipRun(a, b, i0, j0)
  {
    hide CharOrder;
    var i: nat, j: nat := i0, j0;
    NulWeighsZero();
    while i < |a| || j < |b|
      invariant i <= |a| && j <= |b|
      invariant SkipRun(a, b, i0, j0) == SkipRun(a, b, i, j)
      decreases |a| - i + |b| - j
    {
      var ca, cb := Seen(a, i), Seen(b, j);
      if ca == '\0' && cb == '\0' {
        break;
      }
      var oa, ob := CharOrder(ca), CharOrder(cb);
      if oa != ob {
        return Decided(if oa < ob then -1 else 1);
      }
      if ca != '\0' {
        i := i + 1;
      }
      if cb != '\0' {
        j := j + 1;
      }
    }
    return Moved(i, j);
  }

  method SkipZeros(s: string, i0: nat) returns (i: nat)
    requires i0 <= |s|
    ensures i0 <= i <= DigitsEnd(s, i0) == DigitsEnd(s, i)
    ensures i < |s| ==> s[i] != '0'
    ensures Numeral(s, i0, DigitsEnd(s, i0)) == Numeral(s, i, DigitsEnd(s, i))
  {
    i := i0;
    while i < |s| && s[i] == '0'
      invariant i0 <= i <= |s|
      invariant DigitsEnd(s, i0) == DigitsEnd(s, i)
      invariant Numeral(s, i0, DigitsEnd(s, i0)) == Numeral(s, i, DigitsEnd(s, i))
    {
      LeadingZero(s, i, DigitsEnd(s, i));
      i := i + 1;
    }
  }

  method CountDigits(s: string, i: nat) returns (n: nat)
    requires i <= |s|
    ensures i + n == DigitsEnd(s, i)
  {
    n := 0;
    while i + n < |s| && IsDigit(s[i + n])
      invariant i + n <= |s|
      invariant DigitsEnd(s, i) == DigitsEnd(s, i + n)
    {
      n := n + 1;
    }
  }

  /** Two digit runs of one length, digit by digit. */
  method CompareDigits(a: string, i: nat, b: string, j: nat, n: nat) returns (sign: int)
    requires i + n <= |a| && j + n <= |b|
    requires forall m | i <= m < i + n :: IsDigit(a[m])
    requires forall m | j <= m < j + n :: IsDigit(b[m])
    ensures var v, w := Numeral(a, i, i + n), Numeral(b, j, j + n);
            sign == if v < w then -1 else if v > w then 1 else 0
  {
    var k := 0;
    while k < n
      invariant k <= n
      invariant a[i..i + k] == b[j..j + k]
    {
      if a[i + k] != b[j + k] {
        if a[i + k] < b[j + k] {
          FirstDigitDecides(a, i, b, j, k, n);
          return -1;
        } else {
          FirstDigitDecides(b, j, a, i, k, n);
          return 1;
        }
      }
      assert a[i..i + k + 1] == a[i..i + k] + [a[i + k]];
      assert b[j..j + k + 1] == b[j..j + k] + [b[j + k]];
      k := k + 1;
    }
    SameDigits(a, i, b, j, n);
    return 0;
  }

  /** The digit half of a pass: leading zeros ignored, then length, then digit by digit. */
  method CompareNumbers(a: string, b: string, i0: nat, j0: nat) returns (sign: int, i: nat, j: nat)
    requires i0 <= |a| && j0 <= |b|
    ensures i0 <= i <= |a| && j0 <= j <= |b|
    ensures sign == 0 ==> i == DigitsEnd(a, i0) && j == DigitsEnd(b, j0)
    ensures var v, w := Numeral(a, i0, DigitsEnd(a, i0)), Numeral(b, j0, DigitsEnd(b, j0));
            sign == if v < w then -1 else if v > w then 1 else 0
  {
    i := SkipZeros(a, i0);
    j := SkipZeros(b, j0);
    var da := CountDigits(a, i);
    var db := CountDigits(b, j);
    if da < db {
      ShorterIsSmaller(a, i, i + da, b, j, j + db);
      sign := -1;
    } else if db < da {
      ShorterIsSmaller(b, j, j + db, a, i, i + da);
      sign := 1;
    } else {
      sign := CompareDigits(a, i, b, j, da);
      i, j := i + da, j + db;
    }
  }

  method Pass(a: string, b: string, i0: nat, j0: nat) returns (t: Turned)
    requires i0 <= |a| && j0 <= |b|
    ensures t == Turn(a, b, i0, j0)
  {
    t := SkipNonDigits(a, b, i0, j0);
    if t.Moved? {
      var sign, i, j := CompareNumbers(a, b, t.i, t.j);
      t := if sign != 0 then Decided(sign) else Moved(i, j);
    }
  }

  // ---- the whole loop ----

  /** Where the loop stands after n turns. */
  function After(a: string, b: string, n: nat): (t: Turned)
    ensures t.Moved? ==> t.i <= |a| && t.j <= |b|
  {
    if n == 0 then Moved(0, 0)
    else
      var t := After(a, b, n - 1);
      if Finished(a, b, t) then t else Turn(a, b, t.i, t.j)
  }

  predicate Finished(a: string, b: string, t: Turned) {
    t.Decided? || (t.i == |a| && t.j == |b|)
  }

  ghost predicate Ends(a: string, b: string) {
    exists n: nat :: Finished(a, b, After(a, b, n))
  }

  /** No NUL to get stuck at, or a difference before that. */
  predicate Settled(a: string, b: string) {
    (NulFree(a) && NulFree(b)) || Compare(a, b) != 0
  }

  predicate NulFreeBefore(s: string, i: nat) {
    i <= |s| && forall k | 0 <= k < i :: s[k] != '\0'
  }

  lemma {:induction false} SkipRunPassesNoNul(a: string, b: string, i: nat, j: nat)
    requires NulFreeBefore(a, i) && NulFreeBefore(b, j)
    ensures var t := SkipRun(a, b, i, j); t.Moved? ==> NulFreeBefore(a, t.i) && NulFreeBefore(b, t.j)
    decreases |a| - i
  {
    hide CharOrder;
    NulWeighsZero();
    if (Seen(a, i) != '\0' || Seen(b, j) != '\0') && CharOrder(Seen(a, i)) == CharOrder(Seen(b, j)) {
      SkipRunPassesNoNul(a, b, i + 1, j + 1);
    }
  }

  /** The loop never passes a NUL, and what is left to compare decides what the whole strings do. */
  lemma {:induction false} AfterCompares(a: string, b: string, n: nat)
    ensures var t := After(a, b, n);
            match t
            case Decided(sign) => Compare(a, b) == sign != 0
            case Moved(i, j) =>
              NulFreeBefore(a, i) && NulFreeBefore(b, j) && Compare(a, b) == Padded.Compare(Key(a, i), Key(b, j))
  {
    hide Key, Padded.Compare, SkipRun;
    if n > 0 {
      AfterCompares(a, b, n - 1);
      var t := After(a, b, n - 1);
      if !Finished(a, b, t) {
        TurnCompares(a, b, t.i, t.j);
        SkipRunPassesNoNul(a, b, t.i, t.j);
      }
    }
  }

  lemma {:induction false} Terminates(a: string, b: string, n: nat)
    requires Settled(a, b)
    ensures Ends(a, b)
    decreases var t := After(a, b, n); if t.Moved? then |a| - t.i + |b| - t.j else 0
  {
    hide Key, Padded.Compare, Turn, Compare;
    var t := After(a, b, n);
    if !Finished(a, b, t) {
      AfterCompares(a, b, n);
      TurnStallsIff(a, b, t.i, t.j);
      if Blocked(a, t.i) && Blocked(b, t.j) {
        NothingLeft(a, b, t.i, t.j);
      } else if !Finished(a, b, After(a, b, n + 1)) {
        Terminates(a, b, n + 1);
      }
    }
  }

  lemma NothingLeft(a: string, b: string, i: nat, j: nat)
    requires i <= |a| && j <= |b| && Blocked(a, i) && Blocked(b, j)
    ensures Padded.Compare(Key(a, i), Key(b, j)) == 0
    ensures NulFree(a) && NulFree(b) ==> i == |a| && j == |b|
  {
  }

  /** The loop comes to an end if and only if neither string has a NUL or a difference comes before it, and then it
      has found the order of the keys. */
  lemma EndsIff(a: string, b: string)
    ensures Ends(a, b) <==> Settled(a, b)
    ensures forall n: nat | Finished(a, b, After(a, b, n)) ::
              var t := After(a, b, n); Compare(a, b) == if t.Decided? then t.sign else 0
  {
    hide Key, Padded.Compare, Compare, After;
    if Settled(a, b) {
      Terminates(a, b, 0);
    }
    forall n: nat | Finished(a, b, After(a, b, n))
      ensures Settled(a, b)
      ensures var t := After(a, b, n); Compare(a, b) == if t.Decided? then t.sign else 0
    {
      AfterCompares(a, b, n);
      var t := After(a, b, n);
      if t.Moved? {
        NothingLeft(a, b, t.i, t.j);
      }
    }
  }

  method CompareStr(a: string, b: string) returns (sign: int)
    requires Settled(a, b)
    ensures sign == Compare(a, b)
  {
    hide Key, Padded.Compare, Turn;
    var i: nat, j: nat := 0, 0;
    while i < |a| || j < |b|
      invariant i <= |a| && j <= |b|
      invariant Compare(a, b) == Padded.Compare(Key(a, i), Key(b, j))
      decreases |a| - i + |b| - j
    {
      TurnCompares(a, b, i, j);
      TurnStallsIff(a, b, i, j);
      if Blocked(a, i) && Blocked(b, j) {
        NothingLeft(a, b, i, j);
      }
      var t := Pass(a, b, i, j);
      if t.Decided? {
        return t.sign;
      }
      i, j := t.i, t.j;
    }
    NothingLeft(a, b, i, j);
    return 0;
  }

  /** A NUL at the end of one of two otherwise equal strings keeps the loop going for ever. */
  lemma NulNeverEnds()
    ensures Compare("a\0", "a") == 0 && !Ends("a\0", "a")
  {
    assert Key("a\0", 0) == [CharOrder('a')] + Key("a\0", 1);
    assert Key("a", 0) == [CharOrder('a')] + Key("a", 1);
    assert "a\0"[1] == '\0';
    Padded.Reflexive([CharOrder('a')]);
    EndsIff("a\0", "a");
  }

  /** The string up to its first NUL. */
  function Cut(s: string): string {
    s[..IndexFrom(s, '\0', 0)]
  }

  lemma {:induction false} KeyOfCut(s: string, i: nat)
    requires i <= |Cut(s)|
    ensures Key(s, i) == Key(Cut(s), i)
    decreases |s| - i
  {
    var cut := Cut(s);
    assert forall k | 0 <= k < |cut| :: cut[k] == s[k] != '\0';
    if i < |cut| {
      if IsDigit(s[i]) {
        var e := DigitsEnd(cut, i);
        DigitsEndIsUnique(s, i, e);
        assert s[i..i + (e - i)] == cut[i..i + (e - i)];
        SameDigits(s, i, cut, i, e - i);
        KeyOfCut(s, e);
      } else {
        KeyOfCut(s, i + 1);
      }
    }
  }

  /** The order of two strings is that of their parts before the first NUL. */
  lemma CompareSeesTheCut(a: string, b: string)
    ensures NulFree(Cut(a)) && NulFree(Cut(b)) && Compare(a, b) == Compare(Cut(a), Cut(b))
  {
    KeyOfCut(a, 0);
    KeyOfCut(b, 0);
  }

  // ---- the order ----

  lemma CompareIsTotalPreorder(a: string, b: string, c: string)
    ensures Compare(a, a) == 0
    ensures Compare(b, a) == -Compare(a, b)
    ensures Compare(a, b) <= 0 && Compare(b, c) <= 0 ==> Compare(a, c) <= 0
    ensures Compare(a, b) <= 0 && Compare(b, c) <= 0 && Compare(a, c) == 0 ==> Compare(a, b) == Compare(b, c) == 0
    ensures Compare(a, b) == 0 ==> Compare(a, c) == Compare(b, c)
  {
    var x, y, z := Key(a, 0), Key(b, 0), Key(c, 0);
    Padded.Reflexive(x);
    Padded.Antisymmetric(x, y);
    Padded.Antisymmetric(x, z);
    Padded.Antisymmetric(y, z);
    if Compare(a, b) <= 0 && Compare(b, c) <= 0 {
      Padded.Transitive(x, y, z);
    }
    if Compare(a, b) == 0 {
      if Compare(b, c) <= 0 {
        Padded.Transitive(x, y, z);
      }
      if Compare(a, c) <= 0 {
        Padded.Transitive(y, x, z);
      }
      if Compare(c, b) <= 0 {
        Padded.Transitive(z, y, x);
      }
      if Compare(c, a) <= 0 {
        Padded.Transitive(z, x, y);
      }
    }
  }

  predicate NulFrom(s: string, i: nat) {
    exists k :: i <= k < |s| && s[k] == '\0'
  }

  /** What follows s decides against s alone as its first character does: a tilde sorts below the end of the string,
      whatever comes after it ("1.0~rc1" comes before "1.0"), and every other non-digit above it. Behind a NUL nothing
      decides. */
  lemma {:induction false} SuffixDecides(s: string, c: char, t: string, i: nat)
    requires i <= |s| && !IsDigit(c) && c != '\0'
    ensures Padded.Compare(Key(s + [c] + t, i), Key(s, i)) == if NulFrom(s, i) then 0 else if c == '~' then -1 else 1
    decreases |s| - i
  {
    var u := s + [c] + t;
    if i == |s| {
      assert Key(u, i) == [CharOrder(c)] + Key(u, i + 1);
    } else if s[i] == '\0' {
      assert u[i] == '\0';
    } else if IsDigit(s[i]) {
      hide Key;
      var e := DigitsEnd(s, i);
      SameNumber(s, c, t, i);
      SuffixDecides(s, c, t, e);
      CompareAtDigits(u, i, s, i);
      assert NulFrom(s, i) <==> NulFrom(s, e);
    } else {
      hide Padded.Compare;
      SuffixDecides(s, c, t, i + 1);
      assert u[i] == s[i];
      assert Key(u, i) == [CharOrder(s[i])] + Key(u, i + 1);
      assert Key(s, i) == [CharOrder(s[i])] + Key(s, i + 1);
      assert NulFrom(s, i) <==> NulFrom(s, i + 1);
      hide Key;
      SameHead(CharOrder(s[i]), Key(u, i + 1), Key(s, i + 1));
    }
  }

  lemma SameHead(h: int, x: seq<int>, y: seq<int>)
    ensures Padded.Compare([h] + x, [h] + y) == Padded.Compare(x, y)
  {
    assert ([h] + x)[1..] == x && ([h] + y)[1..] == y;
  }

  /** A digit run of s is the same run, with the same value, when a non-digit follows s. */
  lemma SameNumber(s: string, c: char, t: string, i: nat)
    requires i < |s| && !IsDigit(c)
    ensures var u, e := s + [c] + t, DigitsEnd(s, i);
            DigitsEnd(u, i) == e && Numeral(u, i, e) == Numeral(s, i, e)
  {
    var u, e := s + [c] + t, DigitsEnd(s, i);
    assert forall k | 0 <= k < |s| :: u[k] == s[k];
    DigitsEndIsUnique(u, i, e);
    assert u[i..i + (e - i)] == s[i..i + (e - i)];
    SameDigits(u, i, s, i, e - i);
  }

  lemma {:induction false} DigitsEndIsUnique(s: string, i: nat, e: nat)
    requires i <= e <= |s|
    requires forall k | i <= k < e :: IsDigit(s[k])
    requires e < |s| ==> !IsDigit(s[e])
    ensures DigitsEnd(s, i) == e
    decreases e - i
  {
    if i < e {
      DigitsEndIsUnique(s, i + 1, e);
    }
  }

  /** Which character sorts first: a tilde, then letters, then the rest; within these by their codes, where a byte
      above 127 is negative. */
  predicate Precedes(a: char, b: char) {
    if a == '~' || b == '~' then a == '~' && b != '~'
    else
      var letterA := 'a' <= a <= 'z' || 'A' <= a <= 'Z';
      var letterB := 'a' <= b <= 'z' || 'A' <= b <= 'Z';
      if letterA || letterB then letterA && (letterB ==> a < b)
      else if a as int > 127 then b as int <= 127 || a < b
      else b as int <= 127 && a < b
  }

  lemma WeightsAre(a: char, b: char)
    requires a as int < 256 && b as int < 256 && a != '\0' && b != '\0'
    ensures CharOrder(a) < CharOrder(b) <==> Precedes(a, b)
  {
  }

  /** Behind a common beginning the first different non-digits decide, whatever follows. */
  lemma {:induction false} CharactersDecide(s: string, a: char, t: string, b: char, u: string, i: nat)
    requires i <= |s| && NulFree(s) && !IsDigit(a) && !IsDigit(b) && a != b
    requires a as int < 256 && b as int < 256 && a != '\0' && b != '\0'
    ensures Padded.Compare(Key(s + [a] + t, i), Key(s + [b] + u, i)) < 0 <==> Precedes(a, b)
    decreases |s| - i
  {
    var x, y := s + [a] + t, s + [b] + u;
    if i == |s| {
      WeightsAre(a, b);
      WeightsAre(b, a);
      OneFirst(a, b);
      assert Key(x, i) == [CharOrder(a)] + Key(x, i + 1);
      assert Key(y, i) == [CharOrder(b)] + Key(y, i + 1);
    } else if IsDigit(s[i]) {
      hide Key;
      var e := DigitsEnd(s, i);
      SameNumber(s, a, t, i);
      SameNumber(s, b, u, i);
      CharactersDecide(s, a, t, b, u, e);
      CompareAtDigits(x, i, y, i);
    } else {
      hide Padded.Compare;
      CharactersDecide(s, a, t, b, u, i + 1);
      assert x[i] == y[i] == s[i] != '\0';
      assert Key(x, i) == [CharOrder(s[i])] + Key(x, i + 1);
      assert Key(y, i) == [CharOrder(s[i])] + Key(y, i + 1);
      hide Key;
      SameHead(CharOrder(s[i]), Key(x, i + 1), Key(y, i + 1));
    }
  }

  lemma OneFirst(a: char, b: char)
    requires a != b
    ensures Precedes(a, b) <==> !Precedes(b, a)
  {
  }

  // ---- between two strings ----

  /** What sorts below the end of a string still does when something follows it, and what sorts above it still does
      when a tilde follows. */
  lemma {:induction false} SignStays(s: string, c: char, i: nat)
    requires i <= |s| && NulFree(s) && !IsDigit(c) && c != '\0'
    ensures Padded.Compare(Key(s, i), []) < 0 ==> Padded.Compare(Key(s + [c], i), []) < 0
    ensures Padded.Compare([], Key(s, i)) < 0 ==> Padded.Compare([], Key(s + [c], i)) < 0
    decreases |s| - i
  {
    var u := s + [c];
    if i < |s| {
      assert u[i] == s[i] != '\0';
      NulWeighsZero();
      hide Padded.Compare, Key;
      AgainstNothing(Key(s, i));
      AgainstNothing(Key(u, i));
      if IsDigit(s[i]) {
        var e := DigitsEnd(s, i);
        assert s + [c] + "" == u;
        SameNumber(s, c, "", i);
        SignStays(s, c, e);
        KeyAtDigits(s, i);
        KeyAtDigits(u, i);
        AgainstNothing(Padded.Tail(Key(s, i)));
        AgainstNothing(Padded.Tail(Key(u, i)));
      } else {
        SignStays(s, c, i + 1);
        KeyHead(s, i);
        KeyHead(u, i);
      }
    }
  }

  lemma AgainstNothing(x: seq<int>)
    ensures Padded.Compare(x, []) ==
            if Padded.Head(x) < 0 then -1 else if Padded.Head(x) > 0 then 1 else Padded.Compare(Padded.Tail(x), [])
    ensures Padded.Compare([], x) == -Padded.Compare(x, [])
  {
    Padded.Antisymmetric(x, []);
  }

  /** If a sorts below b, then it does so below b with a tilde behind it, or with a letter behind itself. */
  lemma {:induction false} RoomBetween(a: string, b: string, i: nat, j: nat)
    requires i <= |a| && j <= |b| && NulFree(a) && NulFree(b)
    requires Padded.Compare(Key(a, i), Key(b, j)) < 0
    ensures Padded.Compare(Key(a, i), Key(b + "~", j)) < 0 || Padded.Compare(Key(a + "a", i), Key(b, j)) < 0
    decreases |a| - i
  {
    var u, v := a + "a", b + "~";
    if i == |a| {
      SignStays(b, '~', j);
    } else if j == |b| {
      SignStays(a, 'a', i);
    } else {
      assert u[i] == a[i] != '\0' && v[j] == b[j] != '\0';
      NulWeighsZero();
      hide Padded.Compare, Key;
      if IsDigit(a[i]) && IsDigit(b[j]) {
        NumbersBetween(a, b, i, j);
      } else {
        KeyHead(a, i);
        KeyHead(b, j);
        KeyHead(u, i);
        KeyHead(v, j);
        HeadsDecide(Key(a, i), Key(b, j), Key(u, i), Key(v, j));
        if CharOrder(Seen(a, i)) == CharOrder(Seen(b, j)) {
          RoomBetween(a, b, i + 1, j + 1);
        }
      }
    }
  }

  lemma HeadsDecide(x: seq<int>, y: seq<int>, u: seq<int>, v: seq<int>)
    requires Padded.Head(u) == Padded.Head(x) && Padded.Head(v) == Padded.Head(y)
    requires Padded.Compare(x, y) < 0
    ensures Padded.Head(x) != Padded.Head(y) ==> Padded.Compare(x, v) < 0
    ensures Padded.Head(x) == Padded.Head(y) ==>
              && Padded.Compare(Padded.Tail(x), Padded.Tail(y)) < 0
              && Padded.Compare(x, v) == Padded.Compare(Padded.Tail(x), Padded.Tail(v))
              && Padded.Compare(u, y) == Padded.Compare(Padded.Tail(u), Padded.Tail(y))
  {
  }

  lemma {:induction false} NumbersBetween(a: string, b: string, i: nat, j: nat)
    requires i < |a| && j < |b| && NulFree(a) && NulFree(b) && IsDigit(a[i]) && IsDigit(b[j])
    requires Padded.Compare(Key(a, i), Key(b, j)) < 0
    ensures Padded.Compare(Key(a, i), Key(b + "~", j)) < 0 || Padded.Compare(Key(a + "a", i), Key(b, j)) < 0
    decreases |a| - i, 0
  {
    hide Padded.Compare, Key;
    assert a + ['a'] + "" == a + "a" && b + ['~'] + "" == b + "~";
    SameNumber(a, 'a', "", i);
    SameNumber(b, '~', "", j);
    assert (a + "a")[i] == a[i] && (b + "~")[j] == b[j];
    CompareAtDigits(a, i, b, j);
    CompareAtDigits(a, i, b + "~", j);
    CompareAtDigits(a + "a", i, b, j);
    var e, f := DigitsEnd(a, i), DigitsEnd(b, j);
    if Numeral(a, i, e) == Numeral(b, j, f) {
      RoomBetween(a, b, e, f);
    }
  }

  /** The order is dense: strictly between two strings there is one without a NUL or a dash, if they have no dash. */
  lemma Between(a: string, b: string) returns (w: string)
    requires Compare(a, b) < 0 && '-' !in a && '-' !in b
    ensures Compare(a, w) < 0 && Compare(w, b) < 0 && NulFree(w) && '-' !in w && w != ""
  {
    CompareSeesTheCut(a, b);
    var x, y := Cut(a), Cut(b);
    RoomBetween(x, y, 0, 0);
    w := if Padded.Compare(Key(x, 0), Key(y + "~", 0)) < 0 then y + "~" else x + "a";
    hide Key;
    SuffixDecides(y, '~', "", 0);
    SuffixDecides(x, 'a', "", 0);
    assert y + ['~'] + "" == y + "~" && x + ['a'] + "" == x + "a";
    Padded.Antisymmetric(Key(x, 0), Key(x + "a", 0));
    assert NulFree(w) && Cut(w) == w;
    CompareSeesTheCut(a, w);
    CompareSeesTheCut(w, b);
  }

  /** And below every string there is one. */
  lemma Below(b: string) returns (w: string)
    requires '-' !in b
    ensures Compare(w, b) < 0 && NulFree(w) && '-' !in w && w != ""
  {
    var y := Cut(b);
    w := y + "~";
    CompareSeesTheCut(b, b);
    SuffixDecides(y, '~', "", 0);
    assert y + ['~'] + "" == w;
    assert NulFree(w) && Cut(w) == w;
    CompareSeesTheCut(w, b);
  }

  // ---- epoch, upstream version, revision ----

  datatype Version = Version(epoch: string, upstream: string, revision: string)

  predicate DigitPrefix(s: string, n: nat)
    requires n <= |s|
  {
    forall i | 0 <= i < n :: IsDigit(s[i])
  }

  predicate AllDigits(s: string) {
    DigitPrefix(s, |s|)
  }

  /** Everything before the first colon, when that is a non-empty run of digits. */
  function EpochOf(raw: string): (epoch: string)
    ensures epoch != "" ==> |epoch| < |raw|
  {
    var k := IndexFrom(raw, ':', 0);
    if 0 < k < |raw| && DigitPrefix(raw, k) then raw[..k] else ""
  }

  /** The revision is what follows the last dash. */
  function SplitRevision(epoch: string, rest: string): Version {
    var dash := AfterLast(rest, '-', |rest|);
    if dash > 0 then Version(epoch, rest[..dash - 1], rest[dash..]) else Version(epoch, rest, "")
  }

  function Parse(raw: string): Version {
    var epoch := EpochOf(raw);
    var rest := if epoch == "" then raw else raw[|epoch| + 1..];
    SplitRevision(epoch, rest)
  }

  method ReadEpoch(raw: string) returns (epoch: string)
    ensures epoch == EpochOf(raw)
  {
    var colon := IndexFrom(raw, ':', 0);
    if colon == |raw| {
      return "";
    }
    var allDigits := colon > 0;
    var k := 0;
    while k < colon
      invariant k <= colon
      invariant allDigits == (colon > 0)
      invariant DigitPrefix(raw, k)
    {
      if !IsDigit(raw[k]) {
        return "";
      }
      k := k + 1;
    }
    return if allDigits then raw[..colon] else "";
  }

  method ParseVersion(raw: string) returns (v: Version)
    ensures v == Parse(raw)
  {
    var epoch := ReadEpoch(raw);
    hide EpochOf;
    var rest := if epoch == "" then raw else raw[|epoch| + 1..];
    var dash := AfterLast(rest, '-', |rest|);
    if dash > 0 {
      v := Version(epoch, rest[..dash - 1], rest[dash..]);
    } else {
      v := Version(epoch, rest, "");
    }
  }

  function Print(v: Version): string {
    (if v.epoch == "" then "" else v.epoch + ":") + v.upstream
    + (if v.revision == "" then "" else "-" + v.revision)
  }

  lemma SplitPrinted(v: Version)
    requires '-' !in v.revision
    requires v.revision == "" ==> '-' !in v.upstream
    ensures SplitRevision(v.epoch, v.upstream + (if v.revision == "" then "" else "-" + v.revision)) == v
  {
    var n := |v.upstream|;
    if v.revision != "" {
      var rest := v.upstream + ("-" + v.revision);
      assert rest[n] == '-' && rest[..n] == v.upstream && rest[n + 1..] == v.revision;
      assert forall i | n < i < |rest| :: rest[i] == v.revision[i - n - 1];
    } else {
      assert v.upstream + "" == v.upstream;
    }
  }

  lemma EpochPrinted(epoch: string, rest: string)
    requires epoch != "" && AllDigits(epoch)
    ensures EpochOf(epoch + ":" + rest) == epoch
  {
    var raw := epoch + ":" + rest;
    assert raw[|epoch|] == ':';
    assert forall i | 0 <= i < |epoch| :: raw[i] == epoch[i] && IsDigit(epoch[i]);
    assert raw[..|epoch|] == epoch;
  }

  /** Parsing gives back the three parts a version was put together from: an epoch of digits, an upstream
      version that a revision or an epoch keeps apart from its neighbours, and a revision without dashes. */
  lemma ParsePrinted(v: Version)
    requires AllDigits(v.epoch)
    requires v.epoch == "" ==> EpochOf(Print(v)) == ""
    requires '-' !in v.revision
    requires v.revision == "" ==> '-' !in v.upstream
    ensures Parse(Print(v)) == v
  {
    hide EpochOf, SplitRevision;
    var rest := v.upstream + (if v.revision == "" then "" else "-" + v.revision);
    SplitPrinted(v);
    if v.epoch == "" {
      assert Print(v) == rest;
    } else {
      assert Print(v) == v.epoch + ":" + rest;
      EpochPrinted(v.epoch, rest);
      assert Print(v)[|v.epoch| + 1..] == rest;
    }
  }

  function EpochText(v: Version): string {
    if v.epoch == "" then "0" else v.epoch
  }

  /** Epoch first, then the upstream version, then the revision. */
  function CompareVersions(a: string, b: string): int {
    var x, y := Parse(a), Parse(b);
    var e := Compare(EpochText(x), EpochText(y));
    var u := Compare(x.upstream, y.upstream);
    if e != 0 then e else if u != 0 then u else Compare(x.revision, y.revision)
  }

  /** A version without an epoch is one with epoch 0. */
  lemma NoEpochIsZero(raw: string)
    requires EpochOf(raw) == ""
    ensures CompareVersions("0:" + raw, raw) == 0
  {
    hide Compare, SplitRevision;
    assert "0:" + raw == "0" + ":" + raw;
    EpochPrinted("0", raw);
    assert ("0:" + raw)[2..] == raw;
    SplitKeepsEpoch("0", "", raw);
    var v := Parse(raw);
    CompareIsTotalPreorder("0", "0", "0");
    CompareIsTotalPreorder(v.upstream, v.upstream, v.upstream);
    CompareIsTotalPreorder(v.revision, v.revision, v.revision);
  }

  lemma SplitKeepsEpoch(epoch: string, other: string, rest: string)
    ensures SplitRevision(epoch, rest) == SplitRevision(other, rest).(epoch := epoch)
    ensures SplitRevision(other, rest).epoch == other
  {
  }

  /** Epochs compare as numbers, and before anything else. */
  lemma EpochDecides(e: string, f: string, v: string, w: string)
    requires e != "" && f != "" && AllDigits(e) && AllDigits(f)
    requires Numeral(e, 0, |e|) < Numeral(f, 0, |f|)
    ensures CompareVersions(e + ":" + v, f + ":" + w) < 0
  {
    FirstIsDigit(e);
    FirstIsDigit(f);
    EpochPrinted(e, v);
    EpochPrinted(f, w);
    SplitKeepsEpoch(e, "", v);
    SplitKeepsEpoch(f, "", w);
    DigitsEndIsUnique(e, 0, |e|);
    DigitsEndIsUnique(f, 0, |f|);
    hide Key, EpochOf;
    CompareAtDigits(e, 0, f, 0);
    assert Compare(e, f) == -1;
    assert (e + ":" + v)[|e| + 1..] == v && (f + ":" + w)[|f| + 1..] == w;
    hide SplitRevision;
  }

  lemma FirstIsDigit(s: string)
    requires s != "" && AllDigits(s)
    ensures IsDigit(s[0]) && Seen(s, 0) == '\0'
  {
  }

  lemma PartsNulFree(raw: string)
    requires NulFree(raw)
    ensures var v := Parse(raw); NulFree(v.epoch) && NulFree(v.upstream) && NulFree(v.revision)
  {
  }

  /** Each comparison that is reached comes to an end. */
  predicate VersionsSettled(a: string, b: string) {
    var x, y := Parse(a), Parse(b);
    Compare(EpochText(x), EpochText(y)) == 0 ==>
      && Settled(x.upstream, y.upstream)
      && (Compare(x.upstream, y.upstream) == 0 ==> Settled(x.revision, y.revision))
  }

  /** Epochs are digits, so comparing them always ends. */
  lemma EpochsSettle(a: string, b: string)
    ensures Settled(EpochText(Parse(a)), EpochText(Parse(b)))
  {
    hide Compare;
  }

  method DpkgCompare(a: string, b: string) returns (sign: int)
    requires VersionsSettled(a, b)
    ensures sign == CompareVersions(a, b)
  {
    hide Compare, Settled;
    var x := ParseVersion(a);
    var y := ParseVersion(b);
    EpochsSettle(a, b);
    sign := CompareStr(EpochText(x), EpochText(y));
    if sign != 0 {
      return;
    }
    sign := CompareStr(x.upstream, y.upstream);
    if sign != 0 {
      return;
    }
    sign := CompareStr(x.revision, y.revision);
  }

  lemma CompareVersionsIsTotalPreorder(a: string, b: string, c: string)
    ensures CompareVersions(a, a) == 0
    ensures CompareVersions(b, a) == -CompareVersions(a, b)
    ensures CompareVersions(a, b) <= 0 && CompareVersions(b, c) <= 0 ==> CompareVersions(a, c) <= 0
  {
    hide Compare, Parse;
    var x, y, z := Parse(a), Parse(b), Parse(c);
    CompareIsTotalPreorder(EpochText(x), EpochText(y), EpochText(z));
    CompareIsTotalPreorder(EpochText(z), EpochText(y), EpochText(x));
    CompareIsTotalPreorder(x.upstream, y.upstream, z.upstream);
    CompareIsTotalPreorder(z.upstream, y.upstream, x.upstream);
    CompareIsTotalPreorder(x.revision, y.revision, z.revision);
  }
}
