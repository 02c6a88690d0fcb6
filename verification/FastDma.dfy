/** The IOVA allocator with the page table it hands to the hardware: mapping and unmapping of single buffers. */
module FastDma {
  import opened OptionType
  import opened FastBits
  import opened FastIova
  import opened FastPte
  import opened FastPgtable
  import opened FastTable

  /** The physical address of a page frame. */
  function Addr(k: int): bv64
    decreases if k > 0 then k else 0
  {
    if k <= 0 then 0 else Addr(k - 1) + 0x1000
  }

  lemma {:induction false} AddrIsPage(k: int)
    ensures IsPage(Addr(k))
    decreases if k > 0 then k else 0
  {
    hide IsPage;
    if k <= 0 {
      assert Addr(k) == 0;
      ZeroIsPage();
    } else {
      AddrIsPage(k - 1);
      NextPage(Addr(k - 1));
    }
  }

  lemma ZeroIsPage()
    ensures IsPage(0)
  {
  }

  lemma NextSame(x: bv64, y: bv64)
    requires x & ADDR_MASK == y & ADDR_MASK
    requires IsPage(x) && IsPage(y)
    ensures (x + 0x1000) & ADDR_MASK == (y + 0x1000) & ADDR_MASK
  {
  }

  lemma MaskTwice(x: bv64)
    ensures (x & ADDR_MASK) & ADDR_MASK == x & ADDR_MASK
  {
  }

  /** The i-th page of a mapping is the i-th page frame. */
  lemma {:induction false} PhysIsFrame(k: int, i: nat)
    requires k >= 0
    ensures PhysAt(Addr(k), i) & ADDR_MASK == Addr(k + i) & ADDR_MASK
  {
    hide IsPage;
    if i == 0 {
      MaskTwice(Addr(k));
    } else {
      PhysIsFrame(k, i - 1);
      PhysIsPage(Addr(k), i - 1);
      AddrIsPage(k + i - 1);
      NextSame(PhysAt(Addr(k), i - 1), Addr(k + i - 1));
    }
  }

  /** What the hardware finds for page p. */
  ghost function Found(t: Table, base: int, p: int): Option<bv64>
    reads t
  {
    t.Phys(base + p * PAGE)
  }

  /** The page table translates exactly the pages that are mapped, each to its page frame. */
  ghost predicate Agrees(m: Mapping, t: Table)
    reads m, t
  {
    forall p :: 0 <= p < m.bitmap.Length ==> Found(t, m.base, p) == if p in m.pt then Some(Addr(m.pt[p]) & ADDR_MASK) else None
  }

  ghost predicate Joined(m: Mapping, t: Table)
    reads m, m.bitmap, m.clean, t
  {
    && m.Valid() && t.Valid() && t.base == m.base && t.end == m.base + m.bitmap.Length * PAGE
    && Agrees(m, t)
  }

  /** The page of a byte of the range. */
  lemma PageIn(base: int, length: int, bit: int, n: int, p: int)
    requires base % PAGE == 0 && 0 <= bit && 0 <= n && bit + n <= length && 0 <= p < length
    ensures var j, iova := base + p * PAGE, base + bit * PAGE;
      && base <= j < base + length * PAGE && iova % PAGE == 0 && iova + n * PAGE <= base + length * PAGE
      && (iova <= j < iova + n * PAGE <==> bit <= p < bit + n)
      && (bit <= p ==> (j - iova) / PAGE == p - bit)
  {
  }

  /** The table covers the pages from `base` on. */
  ghost predicate Covers(t: Table, base: int, length: int)
    reads t
  {
    t.Valid() && t.base == base && t.end == base + length * PAGE && base % PAGE == 0
  }

  /** av8l_fast_map for n pages from page `bit` on: it cannot fail. */
  method MapTable(t: Table, base: int, ghost length: int, bit: int, n: int, frame: int, prot: Prot) returns (ok: bool)
    requires Covers(t, base, length) && 0 <= bit && 0 <= n && bit + n <= length && frame >= 0
    modifies t`mem
    ensures ok && Covers(t, base, length)
    ensures forall p :: 0 <= p < length ==>
      Found(t, base, p) == if bit <= p < bit + n then Some(Addr(frame + (p - bit)) & ADDR_MASK) else old(Found(t, base, p))
  {
    hide Built, Translate, PhysAt, Addr;
    if length > 0 { PageIn(base, length, bit, n, 0); }
    ok := t.Map(base + bit * PAGE, Addr(frame), n * PAGE, prot);
    forall p | 0 <= p < length
      ensures Found(t, base, p) == if bit <= p < bit + n then Some(Addr(frame + (p - bit)) & ADDR_MASK) else old(Found(t, base, p))
    {
      PageIn(base, length, bit, n, p);
      if bit <= p < bit + n {
        PhysIsFrame(frame, p - bit);
      }
    }
  }

  /** av8l_fast_unmap for n pages from that of `iova` on. */
  method UnmapTable(t: Table, base: int, ghost length: int, iova: int, n: int)
    requires Covers(t, base, length) && base <= iova && 0 <= n && (iova - base) / PAGE + n <= length
    modifies t`mem
    ensures Covers(t, base, length)
    ensures var bit := (iova - base) / PAGE;
      forall p :: 0 <= p < length ==> Found(t, base, p) == if bit <= p < bit + n then None else old(Found(t, base, p))
  {
    hide Built, Translate;
    ghost var bit := (iova - base) / PAGE;
    DownTo(base, iova);
    if length > 0 { PageIn(base, length, bit, n, 0); }
    var done := t.Unmap(iova, n * PAGE);
    forall p | 0 <= p < length ensures Found(t, base, p) == if bit <= p < bit + n then None else old(Found(t, base, p)) {
      PageIn(base, length, bit, n, p);
    }
  }

  /** Mapping pages just allocated: it cannot fail, and the table agrees again. */
  method MapRun(m: Mapping, t: Table, bit: int, n: int, frame: int, prot: Prot) returns (ok: bool)
    requires Joined(m, t) && 0 <= bit && 0 <= n && bit + n <= m.bitmap.Length && frame >= 0
    requires forall p :: bit <= p < bit + n ==> m.bitmap[p] && p !in m.tlb
    modifies m`pt, t`mem
    ensures ok && Joined(m, t) && m.pt == Mapped(old(m.pt), bit, n, frame)
  {
    hide Built, Found, Addr;
    ok := MapTable(t, m.base, m.bitmap.Length, bit, n, frame, prot);
    m.MapPages(bit, n, frame);
  }

  /** Unmapping, with __fast_smmu_free_iova, the pages from that of `iova` on. */
  method UnmapRun(m: Mapping, t: Table, iova: int, n: int)
    requires Joined(m, t) && iova >= m.base && 0 <= n && m.PageOf(iova) + n <= m.bitmap.Length
    modifies m`pt, m`haveStale, m.bitmap, t`mem
    ensures Joined(m, t) && m.pt == Unmapped(old(m.pt), m.PageOf(iova), n)
    ensures m.Used() == SetRange(old(m.Used()), m.PageOf(iova), n, false)
  {
    hide Built, Found, Addr, SetRange;
    DownTo(m.base, iova);
    UnmapTable(t, m.base, m.bitmap.Length, iova, n);
    m.UnmapFree((iova - m.base) / PAGE, n);
  }

  lemma DownTo(base: int, iova: int)
    requires base % PAGE == 0 && base <= iova
    ensures iova / PAGE * PAGE == base + (iova - base) / PAGE * PAGE && (iova - base) / PAGE >= 0
  {
  }

  /** The allocator may take n pages at `at`. */
  ghost predicate Fits(at: int, n: int, length: int) {
    at % Pow2(Order(n)) == 0 && at + n <= length
  }

  /** __fast_smmu_alloc_iova changes no translation. While the pages from next_start on are clean, it takes them in turn. */
  method AllocRun(m: Mapping, t: Table, n: int) returns (ok: bool, bit: int)
    requires Joined(m, t) && n >= 1
    modifies m`nextStart, m`haveStale, m`tlb, m`handed, m.bitmap, m.clean
    ensures Joined(m, t) && (ok <==> HasRoom(old(m.Used()), n))
    ensures ok ==> Suits(old(m.Used()), bit, n, Pow2(Order(n))) && m.Used() == SetRange(old(m.Used()), bit, n, true)
    ensures ok ==> 0 <= bit && bit + n <= m.bitmap.Length && forall p :: bit <= p < bit + n ==> m.bitmap[p] && p !in m.tlb
    ensures !ok ==> m.Used() == old(m.Used())
    ensures old(m.CleanOnward()) && Fits(old(m.nextStart), n, m.bitmap.Length) ==>
      && ok && bit == old(m.nextStart)
      && (bit + n < m.bitmap.Length ==> m.nextStart == bit + n && m.CleanOnward())
  {
    hide Built, Found, Addr, HasRoom, NoRun, Pow2, Order;
    ghost var flushed;
    ok, bit, flushed := m.Alloc(n);
    assert old(m.CleanOnward()) && Fits(old(m.nextStart), n, m.bitmap.Length)
      ==> Suits(old(m.clean[..]), old(m.nextStart), n, Pow2(Order(n)));
    assert ok ==> forall p :: bit <= p < bit + n ==> m.Used()[p];
  }

  /**
   fast_smmu_map_page: the pages that hold `size` bytes from physical address `phys` are mapped at consecutive
   IOVA pages, or nothing changes because no aligned run is out of use. `gaveBack` says whether the path that gives the
   IOVA back after a failed mapping was taken; it never is.
   */
  method MapPage(m: Mapping, t: Table, phys: int, size: int, prot: Prot) returns (ok: bool, iova: int, gaveBack: bool, ghost bit: int)
    requires Joined(m, t) && phys >= 0 && size > 0
    modifies m, m.bitmap, m.clean, t`mem
    ensures Joined(m, t) && !gaveBack
    ensures ok <==> HasRoom(old(m.Used()), PageCount(phys, size))
    ensures ok ==> iova == m.base + bit * PAGE + phys % PAGE && Suits(old(m.Used()), bit, PageCount(phys, size), Pow2(Order(PageCount(phys, size))))
    ensures ok ==> m.Used() == SetRange(old(m.Used()), bit, PageCount(phys, size), true)
    ensures ok ==> m.pt == Mapped(old(m.pt), bit, PageCount(phys, size), phys / PAGE)
    ensures !ok ==> m.Used() == old(m.Used()) && m.pt == old(m.pt)
    ensures var n := PageCount(phys, size);
      old(m.CleanOnward()) && Fits(old(m.nextStart), n, m.bitmap.Length) ==>
        && ok && bit == old(m.nextStart)
        && (bit + n < m.bitmap.Length ==> m.nextStart == bit + n && m.CleanOnward())
  {
    hide Agrees, Mapped, SetRange, HasRoom, Pow2, Order;
    var offset := phys % PAGE;
    var len := RoundUp(size + offset);
    PositivePages(phys, size);
    var n, b := len / PAGE, 0;
    gaveBack := false;
    ok, b := AllocRun(m, t, n);
    bit := b;
    iova := m.base + b * PAGE + offset;
    if ok {
      var mapped := MapRun(m, t, b, n, phys / PAGE, prot);
      if !mapped {
        gaveBack := true;
      }
    }
  }

  /** fast_smmu_unmap_page */
  method UnmapPage(m: Mapping, t: Table, iova: int, size: int)
    requires Joined(m, t) && iova >= m.base && size > 0 && m.PageOf(iova) + PageCount(iova, size) <= m.bitmap.Length
    modifies m`pt, m`haveStale, m.bitmap, t`mem
    ensures Joined(m, t) && m.pt == Unmapped(old(m.pt), m.PageOf(iova), PageCount(iova, size))
    ensures m.Used() == SetRange(old(m.Used()), m.PageOf(iova), PageCount(iova, size), false)
  {
    hide Agrees, Unmapped, SetRange;
    PositivePages(iova, size);
    var len := RoundUp(size + iova % PAGE);
    UnmapRun(m, t, iova, len / PAGE);
  }

  /** A client that maps a buffer and unmaps what it was given gets back the bitmap and all translations as they were. */
  method MapUnmap(m: Mapping, t: Table, phys: int, size: int, prot: Prot) returns (ok: bool)
    requires Joined(m, t) && phys >= 0 && size > 0
    modifies m, m.bitmap, m.clean, t`mem
    ensures Joined(m, t) && m.Used() == old(m.Used()) && m.pt == old(m.pt) && (ok <==> HasRoom(old(m.Used()), PageCount(phys, size)))
    ensures forall p :: 0 <= p < m.bitmap.Length ==> Found(t, m.base, p) == old(Found(t, m.base, p))
  {
    hide Built, Translate, Mapped, Unmapped, SetRange, HasRoom, PageCount, Pow2, Order, Fits;
    ghost var used, pt := m.Used(), m.pt;
    ghost var bit: int;
    var iova, gaveBack;
    ok, iova, gaveBack, bit := MapPage(m, t, phys, size, prot);
    if ok {
      SamePages(m.base, bit, phys, size);
      var n := PageCount(phys, size);
      assert m.PageOf(iova) == bit && PageCount(iova, size) == n;
      UnmapPage(m, t, iova, size);
      SetClear(used, bit, n);
      UnmapMapped(pt, bit, n, phys / PAGE, used);
    }
  }
}
