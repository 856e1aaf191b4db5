/** Sequences of integers compared lexicographically, the shorter one read as if it went on with zeros.
    Both version comparisons of the scanner reduce to this order. */
module PaddedOrder {

  function Head(s: seq<int>): int {
    if s == [] then 0 else s[0]
  }

  function Tail(s: seq<int>): seq<int> {
    if s == [] then [] else s[1..]
  }

  /** -1, 0 or 1. */
  function Compare(a: seq<int>, b: seq<int>): (sign: int)
    ensures -1 <= sign <= 1
    decreases |a| + |b|
  {
    if a == [] && b == [] then 0
    else if Head(a) != Head(b) then (if Head(a) < Head(b) then -1 else 1)
    else Compare(Tail(a), Tail(b))
  }

  lemma {:induction false} Reflexive(a: seq<int>)
    ensures Compare(a, a) == 0
  {
    if a != [] {
      Reflexive(Tail(a));
    }
  }

  lemma {:induction false} Antisymmetric(a: seq<int>, b: seq<int>)
    ensures Compare(b, a) == -Compare(a, b)
    decreases |a| + |b|
  {
    if a != [] || b != [] {
      Antisymmetric(Tail(a), Tail(b));
    }
  }

  /** Transitive, and strict as soon as one of the two steps is strict. */
  lemma {:induction false} Transitive(a: seq<int>, b: seq<int>, c: seq<int>)
    requires Compare(a, b) <= 0 && Compare(b, c) <= 0
    ensures Compare(a, c) <= 0
    ensures Compare(a, c) == 0 ==> Compare(a, b) == 0 && Compare(b, c) == 0
    decreases |a| + |b| + |c|
  {
    if a != [] || b != [] || c != [] {
      if Head(a) == Head(b) == Head(c) {
        assert Compare(a, b) == Compare(Tail(a), Tail(b));
        assert Compare(b, c) == Compare(Tail(b), Tail(c));
        assert Compare(a, c) == Compare(Tail(a), Tail(c));
        Transitive(Tail(a), Tail(b), Tail(c));
      }
    }
  }

  function At(s: seq<int>, k: nat): int {
    if k < |s| then s[k] else 0
  }

  /** The order is decided by the first position at which the padded sequences differ, and by nothing else. */
  lemma {:induction false} FirstDifference(a: seq<int>, b: seq<int>, k: nat)
    requires forall i: nat | i < k :: At(a, i) == At(b, i)
    ensures At(a, k) < At(b, k) ==> Compare(a, b) == -1
    ensures At(a, k) > At(b, k) ==> Compare(a, b) == 1
    ensures k >= |a| && k >= |b| ==> Compare(a, b) == 0
    decreases |a| + |b|
  {
    if a != [] || b != [] {
      assert At(a, 0) == Head(a) && At(b, 0) == Head(b);
      if k > 0 {
        assert forall i: nat :: At(Tail(a), i) == At(a, i + 1) && At(Tail(b), i) == At(b, i + 1);
        FirstDifference(Tail(a), Tail(b), k - 1);
      }
    }
  }
}
