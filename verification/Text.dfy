/** The byte-string helpers of the C++ library that several components use. */
module Text {

  predicate IsDigit(c: char) {
    '0' <= c <= '9'
  }

  predicate IsAlpha(c: char) {
    ('a' <= c <= 'z') || ('A' <= c <= 'Z')
  }

  function LowerChar(c: char): char {
    if 'A' <= c <= 'Z' then (c as int + 32) as char else c
  }

  function Lower(s: string): (r: string)
    ensures |r| == |s|
  {
    seq(|s|, i requires 0 <= i < |s| => LowerChar(s[i]))
  }

  /** The same letter in either case, or the same character. */
  predicate SameLetter(a: char, b: char) {
    || a == b
    || ('A' <= a <= 'Z' && 'a' <= b <= 'z' && a as int - 'A' as int == b as int - 'a' as int)
    || ('a' <= a <= 'z' && 'A' <= b <= 'Z' && a as int - 'a' as int == b as int - 'A' as int)
  }

  predicate SameLetters(a: string, b: string) {
    |a| == |b| && forall k | 0 <= k < |a| :: SameLetter(a[k], b[k])
  }

  /** Lower case identifies exactly the two cases of each letter, and leaves everything else. */
  lemma LowerIff(a: string, b: string)
    ensures Lower(a) == Lower(b) <==> SameLetters(a, b)
    ensures SameLetters(Lower(a), a) && Lower(Lower(a)) == Lower(a)
    ensures forall k | 0 <= k < |a| :: !('A' <= Lower(a)[k] <= 'Z')
  {
    if Lower(a) == Lower(b) {
      forall k | 0 <= k < |a| ensures SameLetter(a[k], b[k]) {
        assert Lower(a)[k] == Lower(b)[k];
      }
    }
  }

  /** The end of the digit run that starts at i. */
  function DigitsEnd(s: string, i: nat): (e: nat)
    requires i <= |s|
    ensures i <= e <= |s|
    ensures forall k | i <= k < e :: IsDigit(s[k])
    ensures e < |s| ==> !IsDigit(s[e])
    decreases |s| - i
  {
    if i < |s| && IsDigit(s[i]) then DigitsEnd(s, i + 1) else i
  }

  /** The number a digit run stands for. */
  function Numeral(s: string, i: nat, e: nat): (v: nat)
    requires i <= e <= |s|
    requires forall k | i <= k < e :: IsDigit(s[k])
  {
    if i == e then 0
    else
      assert IsDigit(s[e - 1]);
      10 * Numeral(s, i, e - 1) + (s[e - 1] as int - '0' as int)
  }

  /** Position of the first `c` at or after `from`, or |s|. */
  function IndexFrom(s: string, c: char, from: nat): (k: nat)
    requires from <= |s|
    ensures from <= k <= |s|
    ensures forall i | from <= i < k :: s[i] != c
    ensures k < |s| ==> s[k] == c
    decreases |s| - from
  {
    if from == |s| || s[from] == c then from else IndexFrom(s, c, from + 1)
  }

  /** Position after the last `c` among the first `to` characters, or 0. */
  function AfterLast(s: string, c: char, to: nat): (k: nat)
    requires to <= |s|
    ensures k <= to
    ensures forall i | k <= i < to :: s[i] != c
    ensures k > 0 ==> s[k - 1] == c
  {
    if to == 0 || s[to - 1] == c then to else AfterLast(s, c, to - 1)
  }

  /** What repeated std::getline with a separator yields: no piece for what follows a final separator
      when nothing does. */
  function Split(s: string, sep: char): (pieces: seq<string>)
    decreases |s|
  {
    if s == [] then []
    else
      var k := IndexFrom(s, sep, 0);
      [s[..k]] + (if k < |s| then Split(s[k + 1..], sep) else [])
  }
}
