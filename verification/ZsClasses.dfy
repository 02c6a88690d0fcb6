/** The size classes of a pool: how zs_create_pool builds them and which one a request gets.  Sizes are in bytes. */
module ZsClasses {
  import opened ZsChain

  datatype SizeClass = SizeClass(size: nat, pages: nat, objs: nat, index: nat)

  /** The nominal size of class index `i`: ZS_MIN_ALLOC_SIZE + i * ZS_SIZE_CLASS_DELTA. */
  function Size(i: nat): nat {
    32 + 16 * i
  }

  /** get_size_class_index */
  function SizeClassIndex(size: nat): (idx: nat)
    ensures idx < 255
    ensures size <= 4096 ==> size <= Size(idx) && (idx > 0 ==> Size(idx - 1) < size)
    ensures size > 4096 ==> idx == 254
  {
    var idx := if size > 32 then (size - 32 + 15) / 16 else 0;
    if idx < 254 then idx else 254
  }

  /** The bytes left over at the end of a chain of `pages` pages. */
  function Waste(size: nat, pages: nat): nat
    requires size > 0
  {
    (pages * 4096) % size
  }

  /** `c` is the shortest chain of at most `n` pages with the least waste. */
  ghost predicate LeastWaste(size: nat, n: nat, c: nat) {
    && size > 0 && 1 <= c <= n
    && (forall i :: 1 <= i <= n ==> Waste(size, c) <= Waste(size, i))
    && (forall i :: 1 <= i < c ==> Waste(size, c) < Waste(size, i))
  }

  predicate IsPowerOf2(size: nat) {
    size in {1, 2, 4, 8, 16, 32, 64, 128, 256, 512, 1024, 2048, 4096}
  }

  /** calculate_zspage_chain_size; the shortcut for powers of two agrees with the search. */
  method ChainSize(size: nat, n: nat) returns (chain: nat)
    requires 0 < size <= 4096 && 1 <= n
    ensures LeastWaste(size, n, chain)
  {
    chain := 1;
    if IsPowerOf2(size) {
      assert Waste(size, 1) == 0;
      return;
    }
    var minWaste := 0x7FFF_FFFF;
    for i := 1 to n + 1
      invariant i == 1 ==> minWaste == 0x7FFF_FFFF
      invariant i > 1 ==> 1 <= chain < i && minWaste == Waste(size, chain)
      invariant forall j :: 1 <= j < i ==> minWaste <= Waste(size, j)
      invariant forall j :: 1 <= j < chain ==> minWaste < Waste(size, j)
    {
      var waste := Waste(size, i);
      if waste < minWaste {
        minWaste := waste;
        chain := i;
      }
    }
  }

  /** The geometry computed for a nominal size. */
  ghost predicate Fits(size: nat, n: nat, pages: nat, objs: nat) {
    LeastWaste(size, n, pages) && objs == pages * 4096 / size
  }

  /**
   Entry `i` serves every request of nominal size Size(i): it is a class built for a size at
   least as large, with the geometry computed for Size(i) itself.
   */
  ghost predicate EntryOk(table: seq<SizeClass>, n: nat, i: nat)
    requires i < |table|
  {
    var c := table[i];
    && i <= c.index < |table| && table[c.index] == c
    && c.size == Size(c.index) && Fits(c.size, n, c.pages, c.objs)
    && Fits(Size(i), n, c.pages, c.objs)
  }

  /** `hugeSize` is 0 if every chain is one page, else what the first class with a longer chain leaves to the ones above it. */
  ghost predicate HugeOk(table: seq<SizeClass>, hugeSize: nat, from: nat) {
    if hugeSize == 0 then
      forall i :: from <= i < |table| ==> table[i].pages == 1
    else
      exists k :: from <= k < |table| && hugeSize == Size(k) - 7 && table[k].pages != 1 &&
                  forall i :: k < i < |table| ==> table[i].pages == 1
  }

  /** The quotient is the `q` with q * b <= a < (q + 1) * b. */
  lemma DivBounds(a: nat, b: nat)
    requires b > 0
    ensures (a / b) * b <= a < (a / b + 1) * b
  {
    assert a == (a / b) * b + a % b;
  }

  lemma {:induction false} MulLess(p: nat, q: nat, b: nat)
    requires p < q
    ensures (p + 1) * b <= q * b
  {
    assert q * b == (p + 1) * b + (q - p - 1) * b;
  }

  lemma DivUnique(a: nat, b: nat, q: nat)
    requires b > 0 && q * b <= a < (q + 1) * b
    ensures a / b == q
  {
    DivBounds(a, b);
    var r := a / b;
    if r < q { MulLess(r, q, b); } else if q < r { MulLess(q, r, b); }
  }

  /** An object alone in its zspage needs one page only. */
  lemma AloneIsOnePage(size: nat, pages: nat)
    requires 0 < size <= 4096 && pages * 4096 / size == 1
    ensures pages == 1
  {
    DivBounds(pages * 4096, size);
  }

  /** The class loop of zs_create_pool, from the largest class down. */
  method CreateClasses(n: nat) returns (table: seq<SizeClass>, hugeSize: nat)
    requires 1 <= n
    ensures |table| == 255
    ensures forall i :: 0 <= i < 255 ==> EntryOk(table, n, i)
    ensures HugeOk(table, hugeSize, 0)
  {
    var blank := SizeClass(0, 0, 0, 0);
    var arr := new SizeClass[255](_ => blank);
    hugeSize := 0;
    var prev := blank;
    var i := 255;
    while i > 0
      invariant 0 <= i <= 255
      invariant i < 255 ==> prev == arr[i]
      invariant forall k :: i <= k < 255 ==> EntryOk(arr[..], n, k)
      invariant HugeOk(arr[..], hugeSize, i)
    {
      i := i - 1;
      var size := Size(i);
      var pages := ChainSize(size, n);
      var objs := pages * 4096 / size;
      ghost var was := hugeSize;
      if pages != 1 && objs != 1 && hugeSize == 0 {
        hugeSize := size - 7;
      }
      ghost var before := arr[..];
      if i < 254 && prev.pages == pages && prev.objs == objs {
        arr[i] := prev;
      } else {
        prev := SizeClass(size, pages, objs, i);
        arr[i] := prev;
      }
      assert arr[..] == before[i := prev];
      StepOk(before, n, i, prev, pages, objs, arr[..]);
      StepHuge(before, was, i, prev, objs, hugeSize);
    }
    table := arr[..];
  }

  lemma StepOk(before: seq<SizeClass>, n: nat, i: nat, c: SizeClass, pages: nat, objs: nat, after: seq<SizeClass>)
    requires |before| == 255 && i < 255 && 1 <= n
    requires forall k :: i < k < 255 ==> EntryOk(before, n, k)
    requires Fits(Size(i), n, pages, objs) && c.pages == pages && c.objs == objs
    requires c == SizeClass(Size(i), pages, objs, i) || (i < 254 && c == before[i + 1])
    requires after == before[i := c]
    ensures forall k :: i <= k < 255 ==> EntryOk(after, n, k)
  {
    forall k | i <= k < 255 ensures EntryOk(after, n, k) {
      if k > i { assert EntryOk(before, n, k); }
      if k == i && c != SizeClass(Size(i), pages, objs, i) { assert EntryOk(before, n, i + 1); }
    }
  }

  lemma StepHuge(before: seq<SizeClass>, was: nat, i: nat, c: SizeClass, objs: nat, hugeSize: nat)
    requires |before| == 255 && i < 255 && HugeOk(before, was, i + 1)
    requires objs == c.pages * 4096 / Size(i) && Size(i) <= 4096
    requires hugeSize == if c.pages != 1 && objs != 1 && was == 0 then Size(i) - 7 else was
    ensures HugeOk(before[i := c], hugeSize, i)
  {
    var after := before[i := c];
    if objs == 1 { AloneIsOnePage(Size(i), c.pages); }
    if was != 0 {
      var k :| i + 1 <= k < |before| && was == Size(k) - 7 && before[k].pages != 1 &&
               forall j :: k < j < |before| ==> before[j].pages == 1;
      assert after[k].pages != 1;
    } else if hugeSize != 0 {
      assert after[i].pages != 1 && hugeSize == Size(i) - 7;
    }
  }

  predicate IsHuge(c: SizeClass) {
    c.objs == 1 && c.pages == 1
  }

  /** The class zs_malloc uses for a request of `size` bytes. */
  function ClassFor(table: seq<SizeClass>, size: nat): SizeClass
    requires |table| == 255
  {
    table[SizeClassIndex(size + 8)]
  }

  lemma LastIsOnePage(table: seq<SizeClass>, n: nat)
    requires |table| == 255 && 1 <= n && EntryOk(table, n, 254)
    ensures table[254].size == 4096 && table[254].pages == 1 && table[254].objs == 1
  {
    assert Waste(4096, 1) == 0;
  }

  /** Every request from 1 to 4096 bytes gets a class with room for it, and for its handle unless the class is huge. */
  lemma RequestFits(table: seq<SizeClass>, n: nat, size: nat)
    requires |table| == 255 && 1 <= n && 1 <= size <= 4096
    requires forall i :: 0 <= i < 255 ==> EntryOk(table, n, i)
    ensures var c := ClassFor(table, size);
            if IsHuge(c) then size <= c.size else size + 8 <= c.size
  {
    var idx := SizeClassIndex(size + 8);
    var c := table[idx];
    assert EntryOk(table, n, idx);
    if size + 8 > 4096 {
      assert c.size == 4096 && c.index == 254;
      LastIsOnePage(table, n);
    }
  }

  /** Every request of at least zs_huge_class_size bytes is stored in a single-page zspage. */
  lemma HugeRequestIsOnePage(table: seq<SizeClass>, n: nat, hugeSize: nat, size: nat)
    requires |table| == 255 && 1 <= n && HugeOk(table, hugeSize, 0) && hugeSize <= size
    requires forall i :: 0 <= i < 255 ==> EntryOk(table, n, i)
    ensures ClassFor(table, size).pages == 1
  {
    LastIsOnePage(table, n);
    if hugeSize != 0 {
      var k :| 0 <= k < |table| && hugeSize == Size(k) - 7 && table[k].pages != 1 &&
               forall i :: k < i < |table| ==> table[i].pages == 1;
      assert size + 8 <= 4096 ==> Size(k) < Size(SizeClassIndex(size + 8));
    }
  }

  /** The class in the words of the zspage model. */
  function ToWords(c: SizeClass): Class {
    Class(c.size / 8, c.pages, c.objs, c.index)
  }

  lemma WordGeometry(w: nat, pages: nat)
    requires w > 0
    ensures pages * 4096 / (8 * w) == pages * 512 / w
  {
    var q := pages * 512 / w;
    DivBounds(pages * 512, w);
    assert q * (8 * w) == 8 * (q * w) && (q + 1) * (8 * w) == 8 * ((q + 1) * w);
    DivUnique(pages * 4096, 8 * w, q);
  }

  lemma GeometryOk(g: Class)
    requires 2 <= g.size <= 512 && 1 <= g.pages <= 16 && g.objs == g.pages * 512 / g.size
    ensures ClassOk(g)
  {
    DivBounds(g.pages * 512, g.size);
    StartIsProduct(g, g.objs);
    StartIsProduct(g, g.objs + 1);
    ObjsBound(g.pages * 512, g.size);
  }

  lemma ToWordsOk(table: seq<SizeClass>, n: nat, i: nat)
    requires |table| == 255 && 1 <= n <= 16 && i < 255 && EntryOk(table, n, i)
    ensures ClassOk(ToWords(table[i])) && Huge(ToWords(table[i])) == IsHuge(table[i])
  {
    var g := ToWords(table[i]);
    assert 1 <= g.pages <= n && 8 * g.size == table[i].size;
    hide LeastWaste, ClassOk;
    WordGeometry(g.size, g.pages);
    GeometryOk(g);
  }

  lemma ObjsBound(a: nat, b: nat)
    requires 2 <= b <= a < 0x2000_0000
    ensures 1 <= a / b < 0x1000_0000
  {
    DivBounds(a, b);
    var q := a / b;
    assert q * b >= q * 2 by {
      assert q * b == q * 2 + q * (b - 2);
    }
    assert q == 0 ==> (q + 1) * b == b;
  }
}
