/** The fast page table as it is built, mapped and unmapped in place. */
module FastTable {
  import opened OptionType
  import opened FastPte
  import opened FastPgtable

  /** The descriptor at a flat index. */
  function FlatRead(mem: Memory, pmds: seq<Page>, k: int): bv64 {
    if 0 <= k / 512 < |pmds| && pmds[k / 512] in mem && |mem[pmds[k / 512]]| == 512 then mem[pmds[k / 512]][k % 512] else 0
  }

  function FlatWrite(mem: Memory, pmds: seq<Page>, k: int, v: bv64): Memory
    requires 0 <= k / 512 < |pmds| && pmds[k / 512] in mem && |mem[pmds[k / 512]]| == 512
  {
    mem[pmds[k / 512] := mem[pmds[k / 512]][k % 512 := v]]
  }

  /** The last-level pages are distinct, apart from the upper levels, and have 512 descriptors each. */
  predicate LeavesOk(mem: Memory, pgd: Page, puds: seq<Page>, pmds: seq<Page>, lo: int, hi: int) {
    && |puds| == 4 && 0 <= lo && hi <= 4
    && (forall i :: 0 <= i < |pmds| ==> pmds[i] in mem && |mem[pmds[i]]| == 512 && pmds[i] != pgd)
    && (forall i, q :: 0 <= i < |pmds| && lo <= q < hi ==> pmds[i] != puds[q])
    && (forall i, j :: 0 <= i < j < |pmds| ==> pmds[i] != pmds[j])
  }

  /** The three levels for the range from base to end. */
  predicate Built(mem: Memory, pgd: Page, puds: seq<Page>, pmds: seq<Page>, base: int, end: int) {
    && 0 <= base <= end <= SZ_4G
    && PudsOk(mem, pgd, puds, base / SZ_1G, (end + (SZ_1G - 1)) / SZ_1G)
    && PmdsOk(mem, puds, pmds, base / SZ_2M, (end + (SZ_2M - 1)) / SZ_2M)
    && LeavesOk(mem, pgd, puds, pmds, base / SZ_1G, (end + (SZ_1G - 1)) / SZ_1G)
  }

  /** Writing one flat descriptor changes that one only, and leaves the levels above. */
  lemma FlatWriteOk(mem: Memory, pgd: Page, puds: seq<Page>, pmds: seq<Page>, base: int, end: int, k: int, v: bv64)
    requires Built(mem, pgd, puds, pmds, base, end) && 0 <= k / 512 < |pmds|
    ensures pmds[k / 512] in mem && |mem[pmds[k / 512]]| == 512
    ensures Built(FlatWrite(mem, pmds, k, v), pgd, puds, pmds, base, end)
    ensures forall j :: 0 <= j < 512 * |pmds| ==>
      FlatRead(FlatWrite(mem, pmds, k, v), pmds, j) == if j == k then v else FlatRead(mem, pmds, j)
  {
    var mem' := FlatWrite(mem, pmds, k, v);
    ChunkGiga(base, end);
    UpperKept(mem, mem', pmds[k / 512], pgd, puds, pmds, base, end);
    forall j | 0 <= j < 512 * |pmds| ensures FlatRead(mem', pmds, j) == if j == k then v else FlatRead(mem, pmds, j) {
      FlatOther(mem, pmds, k, j, v);
    }
  }

  lemma FlatOther(mem: Memory, pmds: seq<Page>, k: int, j: int, v: bv64)
    requires 0 <= k / 512 < |pmds| && 0 <= j < 512 * |pmds|
    requires forall i :: 0 <= i < |pmds| ==> pmds[i] in mem && |mem[pmds[i]]| == 512
    requires forall i, j :: 0 <= i < j < |pmds| ==> pmds[i] != pmds[j]
    ensures FlatRead(FlatWrite(mem, pmds, k, v), pmds, j) == if j == k then v else FlatRead(mem, pmds, j)
  {
    assert j == 512 * (j / 512) + j % 512 && k == 512 * (k / 512) + k % 512;
  }

  lemma ChunkGiga(base: int, end: int)
    requires 0 <= base <= end <= SZ_4G
    ensures forall x :: base / SZ_2M <= x < (end + (SZ_2M - 1)) / SZ_2M ==>
      base / SZ_1G <= x / 512 < (end + (SZ_1G - 1)) / SZ_1G
  {
  }

  lemma UpperKept(mem: Memory, mem': Memory, page: Page, pgd: Page, puds: seq<Page>, pmds: seq<Page>, base: int, end: int)
    requires Built(mem, pgd, puds, pmds, base, end) && page in pmds
    requires forall x :: base / SZ_2M <= x < (end + (SZ_2M - 1)) / SZ_2M ==>
      base / SZ_1G <= x / 512 < (end + (SZ_1G - 1)) / SZ_1G
    requires mem'.Keys == mem.Keys && page in mem && |mem'[page]| == |mem[page]|
    requires forall p :: p in mem && p != page ==> mem'[p] == mem[p]
    ensures Built(mem', pgd, puds, pmds, base, end)
  {
    var lo, hi := base / SZ_1G, (end + (SZ_1G - 1)) / SZ_1G;
    forall q | lo <= q < hi ensures Follow(mem', pgd, q) == Some(puds[q]) {
      assert Follow(mem, pgd, q) == Some(puds[q]);
    }
    forall x | base / SZ_2M <= x < (end + (SZ_2M - 1)) / SZ_2M
      ensures Follow(mem', puds[x / 512], x % 512) == Some(pmds[x - base / SZ_2M])
    {
      assert lo <= x / 512 < hi && Follow(mem, puds[x / 512], x % 512) == Some(pmds[x - base / SZ_2M]);
      assert puds[x / 512] != page;
    }
  }

  /** The physical address of the i-th page of a mapping. */
  function PhysAt(paddr: bv64, i: nat): bv64 {
    if i == 0 then paddr & ADDR_MASK else PhysAt(paddr, i - 1) + 0x1000
  }

  lemma {:induction false} PhysIsPage(paddr: bv64, i: nat)
    ensures IsPage(PhysAt(paddr, i))
  {
    hide IsPage;
    if i == 0 {
      MaskPage(paddr);
    } else {
      PhysIsPage(paddr, i - 1);
      NextPage(PhysAt(paddr, i - 1));
    }
  }

  /** Where a page's descriptor is, and which pages a flat range has. */
  lemma FlatRange(base: int, iova: int, size: int, j: int)
    requires 0 <= base && iova % SZ_4K == 0 && size % SZ_4K == 0
    ensures var k := FlatIndex(base, iova);
            && (k <= FlatIndex(base, j) < k + size / SZ_4K <==> iova <= j < iova + size)
            && (iova <= j ==> FlatIndex(base, j) - k == (j - iova) / SZ_4K)
  {
    var c, a, n := 512 * (base / SZ_2M), iova / SZ_4K, size / SZ_4K;
    assert base / SZ_2M * SZ_2M == SZ_4K * c && iova == SZ_4K * a && size == SZ_4K * n;
    DivShift(iova, c);
    DivShift(j, c);
    DivShift(j, a);
  }

  lemma DivShift(j: int, c: int)
    ensures (j - SZ_4K * c) / SZ_4K == j / SZ_4K - c
  {
  }

  /** Translation reads the flat descriptor. */
  lemma TranslateIsFlat(mem: Memory, pgd: Page, puds: seq<Page>, pmds: seq<Page>, base: int, end: int, j: int)
    requires Built(mem, pgd, puds, pmds, base, end) && base <= j < end
    ensures var v := FlatRead(mem, pmds, FlatIndex(base, j));
            Translate(mem, pgd, j) == if v & 3 == TYPE_PAGE then Some(v & ADDR_MASK) else None
    ensures 0 <= FlatIndex(base, j) < 512 * |pmds|
  {
    FlatIsWalk(mem, pgd, puds, pmds, base, end, j);
    hide Walk, FlatIndex, PudsOk, PmdsOk;
    var k := FlatIndex(base, j);
    assert 0 <= k / 512 < |pmds| && pmds[k / 512] in mem;
  }

  class Table {
    var mem: Memory
    var pgd: Page
    var puds: seq<Page>
    var pmds: seq<Page>
    var base: int
    var end: int
    /** data->nr_pages */
    var pages: int

    ghost predicate Valid()
      reads this
    {
      Built(mem, pgd, puds, pmds, base, end)
    }

    /** The physical page that the walk finds for an IOVA. */
    ghost function Phys(j: int): Option<bv64>
      reads this
    {
      Translate(mem, pgd, j)
    }

    constructor ()
      ensures Valid() && base == end == 0
    {
      mem, pgd, puds, pmds, base, end, pages := map[], Page(0), [Page(0), Page(0), Page(0), Page(0)], [], 0, 0, 0;
    }

    /** The loop of av8l_fast_map and the memset of __av8l_fast_unmap: n descriptors from a flat index. */
    method FillFlat(k: int, n: int, v: nat -> bv64)
      requires Valid() && 0 <= k && 0 <= n && k + n <= 512 * |pmds|
      modifies this`mem
      ensures Valid()
      ensures forall j :: 0 <= j < 512 * |pmds| ==>
        FlatRead(mem, pmds, j) == if k <= j < k + n then v(j - k) else FlatRead(old(mem), pmds, j)
    {
      hide Built, FlatRead, FlatWrite;
      var i := 0;
      while i < n
        invariant 0 <= i <= n && Valid()
        invariant forall j :: 0 <= j < 512 * |pmds| ==>
          FlatRead(mem, pmds, j) == if k <= j < k + i then v(j - k) else FlatRead(old(mem), pmds, j)
      {
        FlatWriteOk(mem, pgd, puds, pmds, base, end, k + i, v(i));
        mem := FlatWrite(mem, pmds, k + i, v(i));
        i := i + 1;
      }
    }

    /**
     av8l_fast_map: from `iova` on, page by page, the walk finds the physical pages from `paddr` on, each cut to the
     address field; all other translations are as before. An IOVA below the base is refused.
     */
    method Map(iova: int, paddr: bv64, size: int, prot: Prot) returns (ok: bool)
      requires Valid() && iova % SZ_4K == 0 && size % SZ_4K == 0 && 0 <= size && iova + size <= end
      modifies this`mem
      ensures Valid() && ok == (iova >= base)
      ensures forall j :: base <= j < end ==>
        Phys(j) == if ok && iova <= j < iova + size then Some(PhysAt(paddr, (j - iova) / SZ_4K) & ADDR_MASK) else old(Phys(j))
    {
      hide Translate, FlatRead, FlatIndex, PhysAt, IsPage, Built, ProtToPte;
      if iova < base {
        return false;
      }
      ok := true;
      ghost var before := mem;
      var k, n := FlatIndex(base, iova), size / SZ_4K;
      RangeFits(iova, size);
      var pte := ProtToPte(prot);
      FillFlat(k, n, (i: nat) => pte | PhysAt(paddr, i));
      forall j | base <= j < end
        ensures Phys(j) == if iova <= j < iova + size then Some(PhysAt(paddr, (j - iova) / SZ_4K) & ADDR_MASK) else old(Phys(j))
      {
        TranslateIsFlat(before, pgd, puds, pmds, base, end, j);
        TranslateIsFlat(mem, pgd, puds, pmds, base, end, j);
        FlatRange(base, iova, size, j);
        if iova <= j < iova + size {
          PhysIsPage(paddr, (j - iova) / SZ_4K);
          PageEntry(prot, PhysAt(paddr, (j - iova) / SZ_4K));
        }
      }
    }

    lemma RangeFits(iova: int, size: int)
      requires Valid() && base <= iova && iova % SZ_4K == 0 && size % SZ_4K == 0 && 0 <= size && iova + size <= end
      ensures 0 <= base && 0 <= FlatIndex(base, iova) && FlatIndex(base, iova) + size / SZ_4K <= 512 * |pmds|
    {
    }

    /**
     __av8l_fast_unmap: from the page of `iova` on the range has no translation any more; the result is the number of
     bytes unmapped.
     */
    method Unmap(iova: int, size: int) returns (n: int)
      requires Valid() && size % SZ_4K == 0 && 0 <= size && iova / SZ_4K * SZ_4K + size <= end && base % SZ_4K == 0
      modifies this`mem
      ensures Valid() && n == if iova >= base then size else 0
      ensures forall j :: base <= j < end ==>
        Phys(j) == if iova / SZ_4K * SZ_4K <= j < iova / SZ_4K * SZ_4K + n then None else old(Phys(j))
    {
      hide Translate, FlatRead, FlatIndex;
      if iova < base {
        return 0;
      }
      n := size;
      ghost var before, down := mem, iova / SZ_4K * SZ_4K;
      SamePage(base, iova);
      RangeFits(down, size);
      FillFlat(FlatIndex(base, iova), size / SZ_4K, i => 0);
      forall j | base <= j < end ensures Phys(j) == if down <= j < down + size then None else old(Phys(j)) {
        TranslateIsFlat(before, pgd, puds, pmds, base, end, j);
        TranslateIsFlat(mem, pgd, puds, pmds, base, end, j);
        FlatRange(base, down, size, j);
      }
    }
  }

  /** All bytes of a page have its descriptor. */
  lemma SamePage(base: int, iova: int)
    requires base <= iova && base % SZ_4K == 0
    ensures var down := iova / SZ_4K * SZ_4K; down % SZ_4K == 0 && base <= down && FlatIndex(base, down) == FlatIndex(base, iova)
  {
    var c := 512 * (base / SZ_2M);
    assert base / SZ_2M * SZ_2M == SZ_4K * c;
    DivShift(iova, c);
    DivShift(iova / SZ_4K * SZ_4K, c);
  }
}
