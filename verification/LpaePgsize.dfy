/** The choice of a page size by the highest and the lowest bit set. Addresses and sizes are counted in pages of 4K. */
module LpaePgsize {
  import opened FastBits
  import opened LpaeTree

  /** The bitwise or. */
  function Or(x: nat, y: nat): (r: nat)
    ensures r == 0 <==> x == 0 && y == 0
  {
    if x == 0 && y == 0 then 0
    else 2 * Or(x / 2, y / 2) + if x % 2 == 1 || y % 2 == 1 then 1 else 0
  }

  /** __fls */
  function HighBit(n: int): nat
    requires n >= 1
  {
    if n == 1 then 0 else 1 + HighBit(n / 2)
  }

  /** __ffs */
  function LowBit(n: int): nat
    requires n >= 1
  {
    if n % 2 == 1 then 0 else 1 + LowBit(n / 2)
  }

  lemma {:induction false} HighBitIff(n: int, k: nat)
    requires n >= 1
    ensures HighBit(n) >= k <==> n >= Pow2(k)
    decreases k
  {
    if k > 0 && n > 1 {
      HighBitIff(n / 2, k - 1);
    }
  }

  lemma ModHalf(n: int, m: int)
    requires n >= 0 && m >= 1
    ensures n % (2 * m) == 0 <==> n % 2 == 0 && n / 2 % m == 0
  {
    if n % 2 == 0 && n / 2 % m == 0 {
      var q := n / 2 / m;
      assert n / 2 == m * q;
      assert n == (2 * m) * q by { assert 2 * (m * q) == (2 * m) * q; }
      Whole(2 * m, q);
    }
    if n % (2 * m) == 0 {
      var q := n / (2 * m);
      assert n == (2 * m) * q;
      assert n == 2 * (m * q) by { assert 2 * (m * q) == (2 * m) * q; }
      assert n / 2 == m * q;
      Whole(m, q);
    }
  }

  lemma Whole(m: int, q: int)
    requires m >= 1
    ensures m * q % m == 0
  {
    var r, d := m * q % m, m * q / m;
    assert m * q == m * d + r;
    assert r == m * (q - d) by { assert m * q - m * d == m * (q - d); }
    assert q - d >= 1 ==> m * (q - d) >= m;
    assert q - d <= -1 ==> m * (q - d) <= -m;
  }

  predicate MultipleOf(n: int, k: nat) {
    n % Pow2(k) == 0
  }

  lemma {:induction false} LowBitIff(n: int, k: nat)
    requires n >= 1
    ensures LowBit(n) >= k <==> MultipleOf(n, k)
    decreases k
  {
    if k > 0 {
      ModHalf(n, Pow2(k - 1));
      if n % 2 == 0 {
        LowBitIff(n / 2, k - 1);
      }
    }
  }

  /** Both addresses are multiples of 2^k exactly if their bitwise or is. */
  lemma {:induction false} OrMultiple(x: nat, y: nat, k: nat)
    ensures MultipleOf(Or(x, y), k) <==> MultipleOf(x, k) && MultipleOf(y, k)
    decreases k
  {
    if k > 0 {
      ModHalf(x, Pow2(k - 1));
      ModHalf(y, Pow2(k - 1));
      ModHalf(Or(x, y), Pow2(k - 1));
      OrMultiple(x / 2, y / 2, k - 1);
      assert Or(x, y) / 2 == Or(x / 2, y / 2);
    }
  }

  lemma Sizes()
    ensures Pow2(9) == 512 == Size(2) && Pow2(18) == 0x4_0000 == Size(1)
  {
    assert Pow2(6) == 64;
    assert Pow2(12) == 4096;
  }

  /** The index of the largest page size that the addresses and the length allow, sizes not supported included. */
  function Index(iova: nat, pa: nat, size: int): nat
    requires size >= 1
  {
    var merge, idx := Or(iova, pa), HighBit(size);
    if merge != 0 && LowBit(merge) < idx then LowBit(merge) else idx
  }

  lemma IndexIff(iova: nat, pa: nat, size: int, k: nat)
    requires size >= 1
    ensures Index(iova, pa, size) >= k <==> Pow2(k) <= size && MultipleOf(iova, k) && MultipleOf(pa, k)
  {
    hide Or, HighBit, LowBit, Pow2, MultipleOf;
    HighBitIff(size, k);
    OrMultiple(iova, pa, k);
    if Or(iova, pa) != 0 {
      LowBitIff(Or(iova, pa), k);
    } else {
      ZeroMultiple(k);
    }
  }

  lemma ZeroMultiple(k: nat)
    ensures MultipleOf(0, k)
  {
  }

  /**
   arm_lpae_pgsize as a level: of 4K, 2M and 1G the largest whose bit is not above the index. It is the largest page
   size that divides both addresses and does not exceed the size.
   */
  function Pgsize(iova: nat, pa: nat, size: int): (leaf: int)
    requires size >= 1
    ensures 1 <= leaf <= 3 && Size(leaf) <= size && iova % Size(leaf) == 0 && pa % Size(leaf) == 0
    ensures forall l :: 1 <= l < leaf ==> !(Size(l) <= size && iova % Size(l) == 0 && pa % Size(l) == 0)
  {
    Sizes();
    IndexIff(iova, pa, size, 9);
    IndexIff(iova, pa, size, 18);
    var idx := Index(iova, pa, size);
    if idx >= 18 then 1 else if idx >= 9 then 2 else 3
  }
}
