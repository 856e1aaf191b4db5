/** A few facts about sequences that several components use. */
module Sequences {

  /** `piece` stands in `whole` at a position. */
  ghost predicate At<T>(whole: seq<T>, pos: nat, piece: seq<T>) {
    pos + |piece| <= |whole| && whole[pos..pos + |piece|] == piece
  }

  lemma Halves<T>(whole: seq<T>, pos: nat, a: seq<T>, b: seq<T>)
    requires At(whole, pos, a + b)
    ensures At(whole, pos, a) && At(whole, pos + |a|, b)
  {
    var all := whole[pos..pos + |a + b|];
    assert all[..|a|] == a && all[|a|..] == b;
  }

  lemma ItemAt<T>(whole: seq<T>, pos: nat, piece: seq<T>, k: nat)
    requires At(whole, pos, piece) && k < |piece|
    ensures pos + k < |whole| && whole[pos + k] == piece[k]
  {
    assert whole[pos..pos + |piece|][k] == piece[k];
  }

  lemma AtMeans<T>(whole: seq<T>, pos: nat, piece: seq<T>)
    requires At(whole, pos, piece)
    ensures pos + |piece| <= |whole| && whole[pos..pos + |piece|] == piece
  {
  }

  lemma Regroup<T>(a: seq<T>, b: seq<T>, c: seq<T>)
    ensures a + (b + c) == a + b + c
  {
  }

  ghost predicate Increasing(ns: seq<int>) {
    forall i, j | 0 <= i < j < |ns| :: ns[i] < ns[j]
  }

  ghost predicate Distinct<T>(items: seq<T>) {
    forall i, j | 0 <= i < j < |items| :: items[i] != items[j]
  }
}
