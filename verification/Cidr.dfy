/** CIDR expansion: masks and addresses as 32-bit words. */
module Cidr {
  import opened Arithmetic
  import opened Text
  import opened Wrappers

  const WORD := 0x1_0000_0000
  const MAX_HOSTS := 65536

  /** Bitwise and. */
  function And(a: nat, b: nat): nat {
    if a == 0 || b == 0 then 0
    else (if a % 2 == 1 && b % 2 == 1 then 1 else 0) + 2 * And(a / 2, b / 2)
  }

  /** All ones shifted left by 32 - prefix within 32 bits; the shift by 32 is avoided. */
  function Mask(prefix: nat): nat
    requires prefix <= 32
  {
    if prefix == 0 then 0 else (WORD - 1) * Pow2(32 - prefix) % WORD
  }

  function Network(base: nat, prefix: nat): nat
    requires prefix <= 32
  {
    And(base, Mask(prefix))
  }

  function Count(prefix: nat): nat
    requires prefix <= 32
  {
    var count := if prefix == 32 then 1 else Pow2(32 - prefix);
    if count > MAX_HOSTS then MAX_HOSTS else count
  }

  /** The library routines: std::stoi, inet_pton and inet_ntop. */
  datatype Library = Library(number: string -> Option<int>, parse: string -> Option<nat>, show: nat -> string)

  /** An address is a 32-bit word. */
  ghost predicate ParsesWords(lib: Library) {
    forall s :: lib.parse(s).Some? ==> lib.parse(s).value < WORD
  }

  /** What the text in front of the first slash and the text behind it stand for. */
  predicate Accepted(lib: Library, base: string, prefix: string) {
    lib.number(prefix).Some? && 0 <= lib.number(prefix).value <= 32 && lib.parse(base).Some?
  }

  method ExpandCidr(lib: Library, input: string) returns (hosts: seq<string>)
    requires ParsesWords(lib)
    ensures var slash := IndexFrom(input, '/', 0);
            if slash == |input| then hosts == [input]
            else
              var base, prefix := input[..slash], input[slash + 1..];
              if !Accepted(lib, base, prefix) then hosts == []
              else Lists(lib, hosts, lib.parse(base).value, lib.number(prefix).value)
  {
    var slash := IndexFrom(input, '/', 0);
    if slash == |input| {
      return [input];
    }
    var base, prefix := input[..slash], input[slash + 1..];
    var length := lib.number(prefix);
    if length.None? || length.value < 0 || length.value > 32 {
      return [];
    }
    var address := lib.parse(base);
    if address.None? {
      return [];
    }
    var network, count := Network(address.value, length.value), Count(length.value);
    NeverWraps(address.value, length.value);
    hide Network, Count;
    hosts := [];
    for i := 0 to count
      invariant |hosts| == i
      invariant forall k | 0 <= k < i :: hosts[k] == lib.show(network + k)
    {
      hosts := hosts + [lib.show((network + i) % WORD)];
    }
  }

  ghost predicate Lists(lib: Library, hosts: seq<string>, base: nat, prefix: nat)
    requires prefix <= 32
  {
    |hosts| == Count(prefix) && forall i | 0 <= i < |hosts| :: hosts[i] == lib.show(Network(base, prefix) + i)
  }

  // ---- masks ----

  lemma HalfMod(a: nat, m: nat)
    requires m > 0
    ensures a % (2 * m) == a % 2 + 2 * (a / 2 % m)
  {
    var h := a / 2;
    var q, r := h / m, h % m;
    assert a == 2 * h + a % 2 && h == q * m + r;
    assert a == q * (2 * m) + (a % 2 + 2 * r);
    ModUnique(a, 2 * m, q, a % 2 + 2 * r);
  }

  lemma AndUnfolds(a: nat, b: nat)
    ensures And(a, b) == (if a % 2 == 1 && b % 2 == 1 then 1 else 0) + 2 * And(a / 2, b / 2)
  {
  }

  lemma Odd(p: nat)
    requires p > 0
    ensures (2 * p - 1) / 2 == p - 1 && (2 * p - 1) % 2 == 1
  {
  }

  lemma {:induction false} AndAllOnes(a: nat, n: nat)
    requires a < Pow2(n)
    ensures And(a, Pow2(n) - 1) == a
  {
    if n > 0 {
      var p := Pow2(n - 1);
      assert Pow2(n) == 2 * p;
      hide Pow2, And;
      Odd(p);
      AndUnfolds(a, 2 * p - 1);
      AndAllOnes(a / 2, n - 1);
    }
  }

  lemma {:induction false} Pow2Grows(k: nat, n: nat)
    requires k <= n
    ensures Pow2(k) <= Pow2(n)
  {
    if k < n {
      Pow2Grows(k, n - 1);
    }
  }

  /** And with a mask of ones above the k lowest bits clears those bits. */
  lemma {:induction false} AndMask(a: nat, n: nat, k: nat)
    requires k <= n && a < Pow2(n)
    ensures Pow2(k) <= Pow2(n) && And(a, Pow2(n) - Pow2(k)) == a - a % Pow2(k)
    decreases k
  {
    Pow2Grows(k, n);
    if k == 0 {
      AndAllOnes(a, n);
      hide And;
    } else {
      var p, q := Pow2(n - 1), Pow2(k - 1);
      assert Pow2(n) == 2 * p && Pow2(k) == 2 * q;
      hide Pow2, And;
      AndMask(a / 2, n - 1, k - 1);
      ClearsHalf(a, q);
      AndDoubled(a, p - q);
    }
  }

  lemma ClearsHalf(a: nat, q: nat)
    requires q > 0
    ensures 2 * (a / 2 - a / 2 % q) == a - a % (2 * q)
  {
    HalfMod(a, q);
  }

  lemma AndDoubled(a: nat, half: nat)
    ensures And(a, 2 * half) == 2 * And(a / 2, half)
  {
    hide And;
    AndUnfolds(a, 2 * half);
    Even(half);
  }

  lemma Even(p: nat)
    ensures 2 * p / 2 == p && 2 * p % 2 == 0
  {
  }

  lemma Words()
    ensures Pow2(32) == WORD && Pow2(16) == MAX_HOSTS
  {
    assert Pow2(4) == 16;
    assert Pow2(8) == 256;
    assert Pow2(12) == 4096;
    assert Pow2(16) == 65536;
    assert Pow2(20) == 0x10_0000;
    assert Pow2(24) == 0x100_0000;
    assert Pow2(28) == 0x1000_0000;
    assert Pow2(32) == WORD;
  }

  lemma MaskIs(prefix: nat)
    requires prefix <= 32
    ensures Pow2(32 - prefix) <= WORD && Mask(prefix) == WORD - Pow2(32 - prefix)
  {
    Words();
    Pow2Grows(32 - prefix, 32);
    var s := Pow2(32 - prefix);
    if prefix > 0 {
      Pow2Grows(32 - prefix, 31);
      assert Pow2(32) == 2 * Pow2(31);
      assert (WORD - 1) * s == (s - 1) * WORD + (WORD - s);
      ModUnique((WORD - 1) * s, WORD, s - 1, WORD - s);
    }
  }

  /** The network is the base rounded down to a multiple of the block size. */
  lemma NetworkRounds(base: nat, prefix: nat)
    requires base < WORD && prefix <= 32
    ensures Network(base, prefix) == base - base % Pow2(32 - prefix)
  {
    Words();
    MaskIs(prefix);
    hide And, Mask, Pow2;
    AndMask(base, 32, 32 - prefix);
  }

  lemma BlockFits(base: nat, size: nat, k: nat, n: nat)
    requires size == Pow2(k) && k <= n && base < Pow2(n)
    ensures base - base % size + size <= Pow2(n)
  {
    PowersMultiply(k, n - k);
    assert k + (n - k) == n;
    hide Pow2;
    RoundUp(base, size, Pow2(n - k));
  }

  lemma RoundUp(base: nat, size: nat, m: nat)
    requires size > 0 && base < m * size
    ensures base - base % size + size <= m * size
  {
    DivMod(base, size);
    BelowTheEnd(base, size, base / size, base % size, m);
  }

  lemma BelowTheEnd(base: nat, size: nat, q: nat, r: nat, m: nat)
    requires base == q * size + r && base < m * size
    ensures base - r + size <= m * size
  {
    if m < q {
      ProductGrows(size, m, q);
    } else if q < m {
      ProductGrows(size, q, m);
    }
  }

  /** `network + i` stays within 32 bits. */
  lemma NeverWraps(base: nat, prefix: nat)
    requires base < WORD && prefix <= 32
    ensures Network(base, prefix) + Count(prefix) <= WORD
  {
    Words();
    NetworkRounds(base, prefix);
    BlockFits(base, Pow2(32 - prefix), 32 - prefix, 32);
    assert Pow2(0) == 1;
    hide Network, Pow2;
  }

  // ---- what is listed ----

  ghost predicate SameNetwork(a: nat, base: nat, prefix: nat)
    requires prefix <= 32
  {
    a < WORD && And(a, Mask(prefix)) == And(base, Mask(prefix))
  }

  lemma InBlockIff(a: nat, base: nat, prefix: nat)
    requires a < WORD && base < WORD && prefix <= 32
    ensures SameNetwork(a, base, prefix) <==> Network(base, prefix) <= a < Network(base, prefix) + Pow2(32 - prefix)
  {
    NetworkRounds(base, prefix);
    NetworkRounds(a, prefix);
    hide And, Mask, Pow2;
    RoundsAlike(a, base, Pow2(32 - prefix));
  }

  lemma RoundsAlike(a: nat, base: nat, size: nat)
    requires size > 0
    ensures a - a % size == base - base % size <==> base - base % size <= a < base - base % size + size
  {
    DivMod(a, size);
    DivMod(base, size);
    var n := base - base % size;
    if n <= a < n + size {
      ModUnique(a, size, base / size, a - n);
    }
  }

  /** For prefixes 16 to 32 the listed addresses are exactly those that share the base's prefix, ascending, each once
      (section 3.1 of RFC 4632); for 0 to 15 they are the first 65536 of the block. */
  lemma ExpansionIsTheBlock(lib: Library, hosts: seq<string>, base: nat, prefix: nat) returns (words: seq<nat>)
    requires base < WORD && prefix <= 32 && Lists(lib, hosts, base, prefix)
    ensures |hosts| == |words| && forall i | 0 <= i < |words| :: hosts[i] == lib.show(words[i])
    ensures forall i, j | 0 <= i < j < |words| :: words[i] < words[j]
    ensures forall a: nat :: a in words <==>
              SameNetwork(a, base, prefix) && (prefix >= 16 || a < Network(base, prefix) + MAX_HOSTS)
    ensures prefix < 16 ==> |words| == MAX_HOSTS
  {
    CountIs(prefix);
    NeverWraps(base, prefix);
    hide Network, Pow2, Count;
    var n := Network(base, prefix);
    words := seq(|hosts|, i => n + i);
    forall a: nat
      ensures a in words <==> SameNetwork(a, base, prefix) && (prefix >= 16 || a < n + MAX_HOSTS)
    {
      if a < WORD {
        InBlockIff(a, base, prefix);
      }
      if n <= a < n + |hosts| {
        assert words[a - n] == a;
      }
    }
  }

  lemma CountIs(prefix: nat)
    requires prefix <= 32
    ensures prefix >= 16 ==> Count(prefix) == Pow2(32 - prefix)
    ensures prefix < 16 ==> Count(prefix) == MAX_HOSTS <= Pow2(32 - prefix)
  {
    Words();
    if prefix >= 16 {
      Pow2Grows(32 - prefix, 16);
    } else {
      Pow2Grows(17, 32 - prefix);
      assert Pow2(17) == 2 * Pow2(16);
    }
    assert Pow2(0) == 1;
    hide Pow2;
  }
}
