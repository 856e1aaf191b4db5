/** The limits of number literals are those of a double. */
module ZtlNumbers {
  import opened Arithmetic
  import opened Text
  import opened ZtlSyntax

  lemma SmallPowers()
    ensures Pow2(64) == 0x1_0000_0000_0000_0000 && Pow2(54) == 0x40_0000_0000_0000
    ensures Pow2(10) == 0x400 && Pow2(2) == 4
  {
    assert Pow2(4) == 0x10;
    assert Pow2(8) == 0x100;
    assert Pow2(12) == 0x1000;
    assert Pow2(16) == 0x1_0000;
    assert Pow2(20) == 0x10_0000;
    assert Pow2(24) == 0x100_0000;
    assert Pow2(28) == 0x1000_0000;
    assert Pow2(32) == 0x1_0000_0000;
    assert Pow2(36) == 0x10_0000_0000;
    assert Pow2(40) == 0x100_0000_0000;
    assert Pow2(44) == 0x1000_0000_0000;
    assert Pow2(48) == 0x1_0000_0000_0000;
    assert Pow2(52) == 0x10_0000_0000_0000;
    assert Pow2(56) == 0x100_0000_0000_0000;
    assert Pow2(60) == 0x1000_0000_0000_0000;
  }

  lemma Sum(a: nat, b: nat, x: int, y: int)
    requires Pow2(a) == x && Pow2(b) == y
    ensures Pow2(a + b) == x * y
  {
    PowersMultiply(a, b);
  }

  lemma BigIs(n: nat)
    requires n == 64
    ensures Big() == Pow2(15 * n)
  {
    SmallPowers();
    hide Pow2;
    var word := 0x1_0000_0000_0000_0000;
    Sum(n, n, word, word);
    Sum(2 * n, n, word * word, word);
    Sum(3 * n, n, word * word * word, word);
    Sum(4 * n, n, word * word * word * word, word);
    var five := word * word * word * word * word;
    Sum(5 * n, 5 * n, five, five);
    Sum(10 * n, 5 * n, five * five, five);
  }

  /** The two limits as powers of two: 2^1024 - 2^970, and 2^-1074 with (2^54 - 1) / 2^1076. */
  lemma LimitsAre(n: nat)
    requires n == 64
    ensures 0xFFFF_FFFF_FFFF_FC00 * Big() == Pow2(16 * n) - Pow2(15 * n + 10)
    ensures 0x4_0000_0000_0000_0000_0000_0000_0000 * Big() == Pow2(16 * n + 50)
    ensures 0x4_0000_0000_0000_0000_0000_0000_0000 * Big() * 4 == Pow2(16 * n + 52)
    ensures 0x3F_FFFF_FFFF_FFFF == Pow2(54) - 1
  {
    SmallPowers();
    BigIs(n);
    hide Big;
    var word := 0x1_0000_0000_0000_0000;
    Fifty();
    hide Pow2;
    Sum(15 * n, n, Big(), word);
    Sum(15 * n, 10, Big(), 0x400);
    Sum(16 * n, 50, Big() * word, 0x4_0000_0000_0000);
    Sum(16 * n + 50, 2, Big() * word * 0x4_0000_0000_0000, 4);
  }

  lemma Fifty()
    ensures Pow2(50) == 0x4_0000_0000_0000
  {
    assert Pow2(4) == 0x10;
    assert Pow2(8) == 0x100;
    assert Pow2(12) == 0x1000;
    assert Pow2(16) == 0x1_0000;
    assert Pow2(20) == 0x10_0000;
    assert Pow2(24) == 0x100_0000;
    assert Pow2(28) == 0x1000_0000;
    assert Pow2(32) == 0x1_0000_0000;
    assert Pow2(36) == 0x10_0000_0000;
    assert Pow2(40) == 0x100_0000_0000;
    assert Pow2(44) == 0x1000_0000_0000;
    assert Pow2(48) == 0x1_0000_0000_0000;
  }

  /** A number literal without a fraction is a double exactly if it is below 2^1024 - 2^970. One with a fraction is so
      too, unless its whole part is 0 and the fraction f / 10^k is less than (2^54 - 1) / 2^1076 and no multiple of
      2^-1074. */
  lemma InRangeIff(text: string, n: nat)
    requires n == 64
    ensures var e := DigitsEnd(text, 0);
            var whole := Numeral(text, 0, e);
            InRange(text) <==>
            && whole < Pow2(16 * n) - Pow2(15 * n + 10)
            && (e == |text| || whole > 0
                || var end := DigitsEnd(text, e + 1);
                   var f, k := Numeral(text, e + 1, end), end - e - 1;
                   f * Pow2(16 * n + 52) >= (Pow2(54) - 1) * TenTo(k) || f * Pow2(16 * n + 50) % TenTo(k) == 0)
  {
    LimitsAre(n);
    hide Pow2, Big, TenTo, Numeral;
    var e := DigitsEnd(text, 0);
    if Numeral(text, 0, e) == 0 && e < |text| {
      var end := DigitsEnd(text, e + 1);
      UnderflowIs(Numeral(text, e + 1, end), end - e - 1, n);
    }
  }

  lemma UnderflowIs(f: nat, k: nat, n: nat)
    requires n == 64
    ensures Underflows(f, k) <==>
            f * Pow2(16 * n + 52) < (Pow2(54) - 1) * TenTo(k) && f * Pow2(16 * n + 50) % TenTo(k) != 0
  {
    LimitsAre(n);
    hide Pow2, Big, TenTo;
    var smallest := 0x4_0000_0000_0000_0000_0000_0000_0000 * Big();
    assert f * smallest * 4 == f * (smallest * 4);
  }

  function OneAndZeros(k: nat): string {
    if k == 0 then "1" else OneAndZeros(k - 1) + "0"
  }

  /** The power of ten is what a one with k zeros stands for. */
  lemma {:induction false} TenToIs(k: nat)
    ensures |OneAndZeros(k)| == k + 1 && forall i | 0 <= i <= k :: IsDigit(OneAndZeros(k)[i])
    ensures Numeral(OneAndZeros(k), 0, k + 1) == TenTo(k)
  {
    if k > 0 {
      TenToIs(k - 1);
      NumeralOfPrefix(OneAndZeros(k - 1), "0", k);
    }
  }

  lemma {:induction false} NumeralOfPrefix(s: string, t: string, e: nat)
    requires e <= |s| && forall i | 0 <= i < e :: IsDigit(s[i])
    ensures forall i | 0 <= i < e :: IsDigit((s + t)[i])
    ensures Numeral(s + t, 0, e) == Numeral(s, 0, e)
  {
    assert forall i | 0 <= i < e :: (s + t)[i] == s[i];
    if e > 0 {
      NumeralOfPrefix(s, t, e - 1);
    }
  }
}
