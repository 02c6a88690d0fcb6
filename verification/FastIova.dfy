/**
 The fast IOVA allocator: one bitmap of the pages in use, one of the pages whose TLB entry may not be reused yet.
 Unmapping leaves the TLB alone; it is flushed as a whole when no clean run is left.
 */
module FastIova {
  import opened FastBits

  /** FAST_PAGE_SIZE */
  const PAGE := 4096

  /** ALIGN(n, FAST_PAGE_SIZE) */
  function RoundUp(n: int): (r: int)
    requires n >= 0
    ensures r % PAGE == 0 && n <= r < n + PAGE
  {
    (n + (PAGE - 1)) / PAGE * PAGE
  }

  /** The pages of a range. */
  function Pages(at: int, n: int): (s: set<int>)
    ensures forall p :: p in s <==> at <= p < at + n
    decreases if n > 0 then n else 0
  {
    if n <= 0 then {} else Pages(at, n - 1) + {at + n - 1}
  }

  /** The page table with n pages from `at` mapped to consecutive physical pages. */
  function Mapped(pt: map<int, int>, at: int, n: int, phys: int): map<int, int> {
    map p | p in pt.Keys + Pages(at, n) :: if at <= p < at + n then phys + (p - at) else pt[p]
  }

  function Unmapped(pt: map<int, int>, at: int, n: int): map<int, int> {
    map p | p in pt && !(at <= p < at + n) :: pt[p]
  }

  /** Some run of n clear bits begins on a multiple of the least power of two that is not below n. */
  ghost predicate HasRoom(b: seq<bool>, n: int) {
    exists at :: Suits(b, at, n, Pow2(Order(n)))
  }

  /** No aligned run of n clear bits. */
  ghost predicate NoRun(b: seq<bool>, n: int, align: int) {
    forall at :: 0 <= at ==> !Suits(b, at, n, align)
  }

  class Mapping {
    const base: int
    const bitmap: array<bool>
    const clean: array<bool>
    var nextStart: int
    var haveStale: bool

    /** The page table, and what the TLB of the device may hold. */
    ghost var pt: map<int, int>
    ghost var tlb: map<int, int>
    /** The pages handed out since the last flush. */
    ghost var handed: set<int>

    ghost predicate Valid()
      reads this, bitmap, clean
    {
      && bitmap != clean && clean.Length == bitmap.Length > 0
      && base % PAGE == 0 && base >= 0
      && 0 <= nextStart < bitmap.Length
      // bitmap is contained in clean_bitmap, and equal to it when nothing is stale
      && (forall p :: 0 <= p < bitmap.Length ==> bitmap[p] ==> clean[p])
      && (!haveStale ==> bitmap[..] == clean[..])
      // only pages in use are mapped
      && (forall p :: p in pt ==> 0 <= p < bitmap.Length && bitmap[p])
      // a TLB entry is that of the page table, or its page is out of use and not clean
      && (forall p :: p in tlb ==> 0 <= p < bitmap.Length && clean[p])
      && (forall p :: p in tlb && p in pt ==> tlb[p] == pt[p])
      && (forall p :: p in tlb && p !in pt ==> !bitmap[p])
      && (forall p :: p in handed ==> 0 <= p < bitmap.Length && clean[p])
    }

    ghost function Used(): seq<bool>
      reads bitmap
    {
      bitmap[..]
    }

    constructor (base: int, pages: int)
      requires pages > 0 && base >= 0 && base % PAGE == 0
      ensures Valid() && fresh(bitmap) && fresh(clean) && bitmap.Length == pages && this.base == base
      ensures Used() == seq(pages, _ => false) && pt == map[] && tlb == map[]
      ensures nextStart == 0 && ZeroRun(clean[..], 0, pages)
    {
      this.base := base;
      bitmap := new bool[pages](_ => false);
      clean := new bool[pages](_ => false);
      nextStart, haveStale := 0, false;
      pt, tlb, handed := map[], map[], {};
    }

    /** The hardware may cache the translation of a mapped page at any time. */
    ghost method TlbFill(p: int)
      requires Valid() && p in pt
      modifies this`tlb
      ensures Valid() && tlb == old(tlb)[p := pt[p]]
    {
      tlb := tlb[p := pt[p]];
    }

    /** The hardware may forget an entry at any time. */
    ghost method TlbEvict(p: int)
      requires Valid()
      modifies this`tlb
      ensures Valid() && tlb == old(tlb) - {p}
    {
      tlb := tlb - {p};
    }

    /** iommu_flush_iotlb_all() and bitmap_copy() */
    method Flush()
      requires Valid()
      modifies clean, this`haveStale, this`tlb, this`handed
      ensures Valid() && clean[..] == bitmap[..] && tlb == map[] && handed == {} && !haveStale
    {
      tlb, handed := map[], {};
      CopyBits(clean, bitmap);
      haveStale := false;
    }

    /** The three searches: from next_start, from 0, and from 0 again after a flush if something was stale. */
    method Search(n: int, align: int) returns (ok: bool, bit: int, ghost flushed: bool)
      requires Valid() && n >= 1 && align >= 1
      modifies this`haveStale, this`tlb, this`handed, clean
      ensures Valid()
      ensures ok ==> Suits(clean[..], bit, n, align)
      ensures !ok ==> NoRun(bitmap[..], n, align)
      ensures flushed ==> tlb == map[] && handed == {}
      ensures flushed <==> old(haveStale) && NoRun(old(clean[..]), n, align)
      ensures !flushed ==> tlb == old(tlb) && handed == old(handed) && clean[..] == old(clean[..])
      ensures Suits(old(clean[..]), old(nextStart), n, align) ==> ok && bit == old(nextStart)
    {
      flushed, ok := false, true;
      ghost var c := clean[..];
      bit := FindNextZeroArea(clean, nextStart, n, align);
      if bit > clean.Length {
        bit := FindNextZeroArea(clean, 0, n, align);
        if bit > clean.Length {
          assert c == clean[..] && NoRun(clean[..], n, align);
          if !haveStale {
            return false, bit, false;
          }
          Flush();
          flushed := true;
          bit := FindNextZeroArea(clean, 0, n, align);
          if bit > clean.Length {
            assert NoRun(clean[..], n, align);
            return false, bit, true;
          }
        }
      }
    }

    /**
     __fast_smmu_alloc_iova for n pages. It fails exactly when no aligned run of n pages is out of use. The run it
     hands out is out of use, has no entry in the TLB, and none of its pages was handed out since the last flush; it is
     the one at next_start if that is clean.
     */
    method Alloc(n: int) returns (ok: bool, bit: int, ghost flushed: bool)
      requires Valid() && n >= 1
      modifies this`nextStart, this`haveStale, this`tlb, this`handed, bitmap, clean
      ensures Valid()
      ensures ok <==> HasRoom(old(Used()), n)
      ensures ok ==> Suits(old(Used()), bit, n, Pow2(Order(n))) && Used() == SetRange(old(Used()), bit, n, true)
      ensures !ok ==> Used() == old(Used())
      ensures tlb == if flushed then map[] else old(tlb)
      ensures flushed <==> old(haveStale) && NoRun(old(clean[..]), n, Pow2(Order(n)))
      ensures ok ==> forall p :: bit <= p < bit + n ==> p !in tlb && p !in pt
      ensures handed == (if flushed then {} else old(handed)) + (if ok then Pages(bit, n) else {})
      ensures ok && !flushed ==> Pages(bit, n) !! old(handed)
      ensures Suits(old(clean[..]), old(nextStart), n, Pow2(Order(n))) ==> ok && bit == old(nextStart) && !flushed
      ensures ok ==> nextStart == if bit + n < bitmap.Length then bit + n else 0
      ensures ok && !flushed ==> clean[..] == SetRange(old(clean[..]), bit, n, true)
    {
      ok, bit, flushed := Search(n, Pow2(Order(n)));
      assert Used() == old(Used());
      if ok {
        CleanIsUnused(n, bit, Pow2(Order(n)));
        assert Suits(old(Used()), bit, n, Pow2(Order(n)));
        assert HasRoom(old(Used()), n);
        Take(bit, n);
      }
    }

    /** The run is marked in both bitmaps, and the next search begins after it. */
    method Take(bit: int, n: int)
      requires Valid() && n >= 1 && ZeroRun(clean[..], bit, n)
      requires forall p :: bit <= p < bit + n ==> p !in tlb && p !in pt && p !in handed
      modifies this`nextStart, this`handed, bitmap, clean
      ensures Valid() && Used() == SetRange(old(Used()), bit, n, true) && handed == old(handed) + Pages(bit, n)
      ensures clean[..] == SetRange(old(clean[..]), bit, n, true) && nextStart == if bit + n < bitmap.Length then bit + n else 0
    {
      Fill(bitmap, bit, n, true);
      Fill(clean, bit, n, true);
      nextStart := bit + n;
      if nextStart >= bitmap.Length {
        nextStart := 0;
      }
      handed := handed + Pages(bit, n);
    }

    /** A run of clean pages is a run of pages out of use, without TLB entries and not handed out. */
    lemma CleanIsUnused(n: int, bit: int, align: int)
      requires Valid() && Suits(clean[..], bit, n, align)
      ensures Suits(Used(), bit, n, align)
      ensures forall p :: bit <= p < bit + n ==> p !in tlb && p !in pt && p !in handed
    {
      forall p | bit <= p < bit + n ensures !bitmap[p] && !clean[p] {
        assert !clean[..][p];
      }
    }

    /** av8l_fast_map_public on pages just allocated. */
    ghost method MapPages(at: int, n: int, phys: int)
      requires Valid() && 0 <= at && 0 <= n && at + n <= bitmap.Length
      requires forall p :: at <= p < at + n ==> bitmap[p] && p !in tlb
      modifies this`pt
      ensures Valid() && pt == Mapped(old(pt), at, n, phys)
    {
      pt := Mapped(pt, at, n, phys);
    }

    /** av8l_fast_unmap_public on pages about to be freed, and the freeing. */
    method UnmapFree(at: int, n: int)
      requires Valid() && 0 <= at && 0 <= n && at + n <= bitmap.Length
      modifies this`pt, this`haveStale, bitmap
      ensures Valid() && pt == Unmapped(old(pt), at, n) && Used() == SetRange(old(Used()), at, n, false)
    {
      Fill(bitmap, at, n, false);
      haveStale := true;
      pt := Unmapped(pt, at, n);
    }

    /** The pages from next_start on are clean. */
    ghost predicate CleanOnward()
      reads this, clean
    {
      ZeroRun(clean[..], nextStart, clean.Length - nextStart)
    }

    /** The bit of the page of an IOVA. */
    function PageOf(iova: int): int {
      (iova - base) / PAGE
    }
  }

  /** The pages that `size` bytes from an address touch. */
  function PageCount(addr: int, size: int): int
    requires addr >= 0 && size > 0
  {
    RoundUp(size + addr % PAGE) / PAGE
  }

  lemma PositivePages(addr: int, size: int)
    requires addr >= 0 && size > 0
    ensures PageCount(addr, size) >= 1
  {
  }

  /** The IOVA handed out has the page and the offset that unmapping computes from it. */
  lemma SamePages(base: int, bit: int, phys: int, size: int)
    requires base >= 0 && base % PAGE == 0 && bit >= 0 && phys >= 0 && size > 0
    ensures var iova := base + bit * PAGE + phys % PAGE;
            iova >= base && (iova - base) / PAGE == bit && iova % PAGE == phys % PAGE && PageCount(iova, size) == PageCount(phys, size)
  {
  }

  lemma UnmapMapped(pt: map<int, int>, at: int, n: int, phys: int, used: seq<bool>)
    requires ZeroRun(used, at, n) && (forall p :: p in pt ==> 0 <= p < |used| && used[p])
    ensures Unmapped(Mapped(pt, at, n, phys), at, n) == pt
  {
    forall p | p in pt ensures !(at <= p < at + n) {
      assert used[p];
    }
  }
}
