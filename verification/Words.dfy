/** Numbers as 64-bit words. */
module Words {
  import opened FastBits
  import DmaSg

  function Plus(a: bv64, b: bv64): bv64 {
    a + b
  }

  function And(a: bv64, b: bv64): bv64 {
    a & b
  }

  /** The word moved up by one bit. */
  function Shift(w: bv64, bit: bv64): bv64 {
    2 * w + bit
  }

  /** The word of a number, modulo 2^64. */
  function Num(k: int): bv64
    decreases if k >= 0 then k else -k
  {
    if k == 0 then 0 else if k > 0 then Plus(Num(k - 1), 1) else Num(k + 1) - 1
  }

  lemma {:induction false} NumSucc(k: int)
    ensures Num(k + 1) == Plus(Num(k), 1)
  {
    if k < 0 {
      var w := Num(k + 1);
      assert Num(k) == w - 1;
      hide Num;
      BackForth(w);
    }
  }

  lemma BackForth(w: bv64)
    ensures Plus(w - 1, 1) == w
  {
  }

  lemma PlusIs(a: bv64, b: bv64, s: bv64)
    requires s == Plus(a, b)
    ensures s == a + b
  {
  }

  lemma PlusRight(a: bv64, b: bv64, s: bv64)
    requires s == b + 1
    ensures Plus(a, s) == a + b + 1
  {
  }

  lemma PlusLeft(a: bv64, b: bv64, s: bv64)
    requires s == a + b
    ensures Plus(s, 1) == a + b + 1
  {
  }

  lemma Shuffle(a: bv64, b: bv64)
    ensures Plus(a, Plus(b, 1)) == Plus(Plus(a, b), 1)
  {
    hide Plus;
    PlusIs(b, 1, Plus(b, 1));
    PlusRight(a, b, Plus(b, 1));
    PlusIs(a, b, Plus(a, b));
    PlusLeft(a, b, Plus(a, b));
  }

  lemma Twice(w: bv64, bit: bv64)
    ensures Plus(Plus(w, w), bit) == Shift(w, bit)
  {
    hide Plus, Shift;
    PlusIs(w, w, Plus(w, w));
    TwiceWord(w, bit, Plus(w, w));
  }

  lemma TwiceWord(w: bv64, bit: bv64, s: bv64)
    requires s == w + w
    ensures Plus(s, bit) == Shift(w, bit)
  {
  }

  lemma Cancel(a: bv64, b: bv64)
    requires Plus(a, 1) == Plus(b, 1)
    ensures a == b
  {
  }

  lemma PlusZero(a: bv64)
    ensures Plus(a, 0) == a
  {
  }

  lemma NumZero()
    ensures Num(0) == 0 && Num(1) == 1
  {
  }

  lemma {:induction false} NumAdd(x: int, y: int)
    ensures Num(x + y) == Plus(Num(x), Num(y))
    decreases if y >= 0 then y else -y
  {
    hide Num, Plus;
    if y > 0 {
      NumAdd(x, y - 1);
      NumSucc(x + y - 1);
      NumSucc(y - 1);
      Shuffle(Num(x), Num(y - 1));
    } else if y < 0 {
      NumAdd(x, y + 1);
      NumSucc(x + y);
      NumSucc(y);
      Shuffle(Num(x), Num(y));
      Cancel(Num(x + y), Plus(Num(x), Num(y)));
    } else {
      NumZero();
      PlusZero(Num(x));
    }
  }

  lemma NumDouble(x: int, r: int)
    requires 0 <= r <= 1
    ensures Num(2 * x + r) == Shift(Num(x), Num(r))
  {
    hide Num, Plus, Shift;
    NumAdd(x, x);
    assert x + x == 2 * x;
    NumAdd(2 * x, r);
    Twice(Num(x), Num(r));
  }

  /** The mask of the low k bits. */
  function Mask(k: nat): bv64 {
    if k == 0 then 0 else Shift(Mask(k - 1), 1)
  }

  /** A mask of low bits. */
  predicate IsMask(m: bv64) {
    m & (m + 1) == 0
  }

  lemma {:induction false} MaskIs(k: nat)
    ensures Plus(Mask(k), 1) == Num(Pow2(k)) && IsMask(Mask(k))
  {
    hide Num, Shift, Plus, IsMask;
    NumZero();
    NoMask();
    if k > 0 {
      MaskIs(k - 1);
      NumDouble(Pow2(k - 1), 0);
      MaskNext(Mask(k - 1));
    }
  }

  lemma NoMask()
    ensures IsMask(0) && Plus(0, 1) == 1
  {
  }

  lemma MaskNext(m: bv64)
    requires IsMask(m)
    ensures IsMask(Shift(m, 1)) && Plus(Shift(m, 1), 1) == Shift(Plus(m, 1), 0)
  {
  }

  lemma MaskBit(y: bv64, m: bv64, bit: bv64)
    requires bit <= 1
    ensures And(Shift(y, bit), Shift(m, 1)) == Shift(And(y, m), bit) && And(y, 0) == 0
  {
  }

  lemma ModHalf(x: int, p: int)
    requires p > 0
    ensures x % (2 * p) == 2 * (x / 2 % p) + x % 2
  {
    var a, r := x / 2, x % 2;
    var q, s := a / p, a % p;
    assert a == q * p + s;
    assert x == q * (2 * p) + (2 * s + r) by { assert 2 * (q * p) == q * (2 * p); }
    DmaSg.ModUnique(x, 2 * p, q, 2 * s + r);
  }

  /** Masking a word is taking the number modulo the power of two. */
  lemma {:induction false} MaskMod(x: int, k: nat)
    ensures And(Num(x), Mask(k)) == Num(x % Pow2(k))
    decreases k
  {
    hide Num, Shift, And, Plus;
    NumZero();
    if k == 0 {
      MaskBit(Num(x), 0, 0);
      assert x % Pow2(0) == 0;
    } else {
      var a, r, p := x / 2, x % 2, Pow2(k - 1);
      MaskMod(a, k - 1);
      NumDouble(a, r);
      NumDouble(a % p, r);
      ModHalf(x, p);
      MaskBit(Num(a), Mask(k - 1), Num(r));
      assert x == 2 * a + r && x % Pow2(k) == 2 * (a % p) + r;
    }
  }

  lemma MaskValues()
    ensures Mask(12) == 0xfff && Mask(13) == 0x1fff && Mask(48) == 0xffff_ffff_ffff && Mask(56) == 0xff_ffff_ffff_ffff
  {
    assert Mask(4) == 0xf;
    assert Mask(8) == 0xff;
    assert Mask(12) == 0xfff;
    assert Mask(16) == 0xffff;
    assert Mask(20) == 0xfffff;
    assert Mask(24) == 0xffffff;
    assert Mask(28) == 0xfffffff;
    assert Mask(32) == 0xffffffff;
    assert Mask(36) == 0xfffffffff;
    assert Mask(40) == 0xffffffffff;
    assert Mask(44) == 0xfffffffffff;
    assert Mask(52) == 0xfffffffffffff;
  }

  /** A number that fits under a mask is not changed by it. */
  lemma Small(x: int, k: nat)
    requires 0 <= x < Pow2(k)
    ensures And(Num(x), Mask(k)) == Num(x)
  {
    hide Num, Mask, And, Pow2;
    MaskMod(x, k);
    DmaSg.ModUnique(x, Pow2(k), 0, x);
  }

  /** A number below 2^56 has the zero word only if it is zero. */
  lemma {:induction false} NonZero(x: nat)
    requires x < 0x100_0000_0000_0000
    ensures Num(x) == 0 <==> x == 0
  {
    NumZero();
    if x > 0 {
      hide Num, Shift, And, Mask, Pow2;
      NonZero(x / 2);
      NumDouble(x / 2, x % 2);
      PowValues();
      MaskValues();
      Small(x / 2, 56);
      BitsZero(Num(x / 2), Num(x % 2));
    }
  }

  /** Numbers below 2^56 with the same word are the same. */
  lemma SameNum(x: nat, y: nat)
    requires x < 0x100_0000_0000_0000 && y < 0x100_0000_0000_0000 && Num(x) == Num(y)
    ensures x == y
  {
    hide Num, Plus;
    var a, b := if x < y then x else y, if x < y then y else x;
    NumAdd(a, b - a);
    NothingAdded(Num(a), Num(b - a));
    NonZero(b - a);
  }

  lemma NothingAdded(w: bv64, d: bv64)
    requires Plus(w, d) == w
    ensures d == 0
  {
  }

  lemma PowValues()
    ensures Pow2(12) == 0x1000 && Pow2(13) == 0x2000 && Pow2(48) == 0x1_0000_0000_0000 && Pow2(56) == 0x100_0000_0000_0000
  {
    assert Pow2(4) == 0x10;
    assert Pow2(8) == 0x100;
    assert Pow2(12) == 0x1000;
    assert Pow2(16) == 0x10000;
    assert Pow2(20) == 0x100000;
    assert Pow2(24) == 0x1000000;
    assert Pow2(28) == 0x10000000;
    assert Pow2(32) == 0x100000000;
    assert Pow2(36) == 0x1000000000;
    assert Pow2(40) == 0x10000000000;
    assert Pow2(44) == 0x100000000000;
    assert Pow2(52) == 0x10000000000000;
  }

  lemma BitsZero(w: bv64, bit: bv64)
    requires And(w, 0xff_ffff_ffff_ffff) == w && bit <= 1
    ensures Shift(w, bit) == 0 <==> w == 0 && bit == 0
  {
  }
}
