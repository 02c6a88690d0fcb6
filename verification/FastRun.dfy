/** Every run of mapping, unmapping and TLB activity. */
module FastRun {
  import opened OptionType
  import opened FastBits
  import opened FastIova
  import opened FastPte
  import opened FastPgtable
  import opened FastTable
  import opened FastBuild
  import opened FastDma
  import opened DmaSg
  import opened DmaSgSegments
  import opened DmaSgMap
  import opened FastSg

  datatype Op =
    | DoMap(phys: int, size: int, prot: Prot)
    | DoMapSg(list: seq<Entry>, limits: Limits, prot: Prot)
    | DoUnmap(k: int)
    | DoFill(page: int)
    | DoEvict(page: int)

  /** What the client asked for and what it was given: an IOVA, or its list with the DMA segments. */
  datatype Client =
    | Single(iova: int, phys: int, size: int)
    | List(asked: seq<Entry>, given: seq<Entry>, limits: Limits)

  /** A buffer that is mapped, with the pages it has. */
  datatype Buffer = Buffer(bit: int, n: int, client: Client)

  predicate Apart(x: Buffer, y: Buffer) {
    x.bit + x.n <= y.bit || y.bit + y.n <= x.bit
  }

  predicate Has(x: Buffer, p: int) {
    x.bit <= p < x.bit + x.n
  }

  predicate InRange(pages: int, x: Buffer) {
    0 <= x.bit && 1 <= x.n && x.bit + x.n <= pages
  }

  /** The pages are those that the client's buffer or list needs, and the client has what it is to have. */
  ghost predicate ClientHas(base: int, pages: int, x: Buffer) {
    match x.client
    case Single(iova, phys, size) =>
      phys >= 0 && size > 0 && x.n == PageCount(phys, size) && iova == base + x.bit * PAGE + phys % PAGE
    case List(asked, given, limits) =>
      && ListOk(asked, limits) && |given| == |asked| && x.n == End(asked, |asked|, limits) / PAGE
      && HoldsSegs(given, Outs(asked, |asked|, base + x.bit * PAGE, limits).segs)
      && Restored(given, asked) && SegmentsFit(asked, base, pages, x.bit, limits)
  }

  ghost predicate BufferOk(base: int, pages: int, x: Buffer) {
    InRange(pages, x) && ClientHas(base, pages, x)
  }

  /** The page frame that page k of the buffer is to reach. */
  ghost function FrameOf(x: Buffer, k: int): int {
    match x.client
    case Single(_, phys, _) => phys / PAGE + k
    case List(asked, _, limits) => if LimitsOk(limits) then FrameAt(asked, |asked|, limits, k) else 0
  }

  /** A wide list. */
  ghost predicate Lost(x: Buffer) {
    x.client.List? && LimitsOk(x.client.limits) && Wide(x.client.asked, x.client.limits)
  }

  /** Every page of the buffer leads to its page frame; of a wide list, none leads anywhere. */
  ghost predicate Reaches(pt: map<int, int>, x: Buffer) {
    if Lost(x) then forall p :: x.bit <= p < x.bit + x.n ==> p !in pt
    else forall p :: x.bit <= p < x.bit + x.n ==> p in pt && pt[p] == FrameOf(x, p - x.bit)
  }

  /** The buffers lie apart, each reaches its memory, and the pages in use are theirs. */
  ghost predicate LiveOk(base: int, used: seq<bool>, pt: map<int, int>, live: seq<Buffer>) {
    && (forall k :: 0 <= k < |live| ==> BufferOk(base, |used|, live[k]) && Reaches(pt, live[k]))
    && (forall j, k :: 0 <= j < k < |live| ==> Apart(live[j], live[k]))
    && (forall p :: 0 <= p < |used| && used[p] ==> exists k :: 0 <= k < |live| && Has(live[k], p))
    && (forall k, p :: 0 <= k < |live| && Has(live[k], p) && 0 <= p < |used| ==> used[p])
  }

  /** The page table after mapping: the pages of x have its frames, the others are as they were. */
  ghost predicate Gained(pt: map<int, int>, pt': map<int, int>, x: Buffer) {
    Reaches(pt', x) && forall p :: !Has(x, p) ==> (p in pt' <==> p in pt) && (p in pt ==> pt'[p] == pt[p])
  }

  /** A buffer on pages out of use lies apart from the others. */
  lemma NewApart(base: int, used: seq<bool>, pt: map<int, int>, live: seq<Buffer>, x: Buffer, k: int)
    requires LiveOk(base, used, pt, live) && InRange(|used|, x) && ZeroRun(used, x.bit, x.n) && 0 <= k < |live|
    ensures Apart(live[k], x)
  {
    hide ClientHas, Reaches;
    var p := if x.bit > live[k].bit then x.bit else live[k].bit;
    assert Has(live[k], p) && 0 <= p < |used| ==> used[p];
  }

  lemma LiveAdd(base: int, used: seq<bool>, pt: map<int, int>, pt': map<int, int>, live: seq<Buffer>, x: Buffer)
    requires LiveOk(base, used, pt, live) && BufferOk(base, |used|, x) && ZeroRun(used, x.bit, x.n) && Gained(pt, pt', x)
    ensures LiveOk(base, SetRange(used, x.bit, x.n, true), pt', live + [x])
  {
    hide ClientHas, FrameOf, Lost;
    var used', live' := SetRange(used, x.bit, x.n, true), live + [x];
    forall k | 0 <= k < |live| ensures Apart(live[k], x) {
      NewApart(base, used, pt, live, x, k);
    }
    forall k | 0 <= k < |live'| ensures BufferOk(base, |used'|, live'[k]) && Reaches(pt', live'[k]) {
      if k < |live| {
        StillReaches(pt, pt', live[k], x);
      }
    }
    hide BufferOk, Reaches, Gained;
    forall p | 0 <= p < |used'| && used'[p] ensures exists k :: 0 <= k < |live'| && Has(live'[k], p) {
      if Has(x, p) {
        assert Has(live'[|live|], p);
      } else {
        var k :| 0 <= k < |live| && Has(live[k], p);
        assert Has(live'[k], p);
      }
    }
  }

  lemma SingleGains(pt: map<int, int>, x: Buffer)
    requires x.client.Single?
    ensures Gained(pt, Mapped(pt, x.bit, x.n, x.client.phys / PAGE), x)
  {
  }

  lemma ListGains(pt: map<int, int>, x: Buffer)
    requires x.client.List? && ListOk(x.client.asked, x.client.limits) && x.n == End(x.client.asked, |x.client.asked|, x.client.limits) / PAGE
    requires forall p :: x.bit <= p < x.bit + x.n ==> p !in pt
    ensures var es, c := x.client.asked, x.client.limits; Gained(pt, MappedSg(pt, x.bit, MappedBytes(es, c) / PAGE, es, |es|, c), x)
  {
    hide End, FrameAt, Wide;
  }

  lemma StillReaches(pt: map<int, int>, pt': map<int, int>, y: Buffer, x: Buffer)
    requires Reaches(pt, y) && Gained(pt, pt', x) && Apart(y, x)
    ensures Reaches(pt', y)
  {
    hide FrameOf, Lost;
  }

  lemma LiveDrop(base: int, used: seq<bool>, pt: map<int, int>, live: seq<Buffer>, k: int)
    requires LiveOk(base, used, pt, live) && 0 <= k < |live|
    ensures var x := live[k];
            LiveOk(base, SetRange(used, x.bit, x.n, false), Unmapped(pt, x.bit, x.n), live[..k] + live[k + 1..])
  {
    hide BufferOk, FrameOf, Lost;
    var x := live[k];
    var used', pt', live' := SetRange(used, x.bit, x.n, false), Unmapped(pt, x.bit, x.n), live[..k] + live[k + 1..];
    forall j | 0 <= j < |live'|
      ensures BufferOk(base, |used'|, live'[j]) && Reaches(pt', live'[j]) && Apart(live'[j], x)
    {
      var i := if j < k then j else j + 1;
      assert live'[j] == live[i] && Reaches(pt, live[i]);
    }
    forall p | 0 <= p < |used'| && used'[p] ensures exists j :: 0 <= j < |live'| && Has(live'[j], p) {
      var i :| 0 <= i < |live| && Has(live[i], p);
      assert i != k;
      assert Has(live'[if i < k then i else i - 1], p);
    }
  }

  /**
   Whatever the order of mapping and unmapping of single buffers and scatterlists, TLB fills and TLB evictions: the
   mapped buffers lie apart, the page table leads each page of theirs to its memory, and the TLB never holds anything
   else for them; only the pages of a wide list lead nowhere.
   */
  method Run(m: Mapping, t: Table, ops: seq<Op>) returns (live: seq<Buffer>)
    requires Joined(m, t) && m.pt == map[] && (forall p :: 0 <= p < m.bitmap.Length ==> !m.bitmap[p])
    modifies m, m.bitmap, m.clean, t
    ensures Joined(m, t) && LiveOk(m.base, m.Used(), m.pt, live)
    ensures forall k, p :: 0 <= k < |live| && Has(live[k], p) ==>
      Found(t, m.base, p) == if Lost(live[k]) then None else Some(Addr(FrameOf(live[k], p - live[k].bit)) & ADDR_MASK)
    ensures forall k, p :: 0 <= k < |live| && Has(live[k], p) && p in m.tlb ==>
      !Lost(live[k]) && m.tlb[p] == FrameOf(live[k], p - live[k].bit)
  {
    hide Addr, Found, FrameOf, Lost;
    live := [];
    var i := 0;
    while i < |ops|
      invariant 0 <= i <= |ops| && Joined(m, t) && LiveOk(m.base, m.Used(), m.pt, live)
    {
      live := Do(m, t, ops[i], live);
      i := i + 1;
    }
    forall k, p | 0 <= k < |live| && Has(live[k], p)
      ensures Found(t, m.base, p) == if Lost(live[k]) then None else Some(Addr(FrameOf(live[k], p - live[k].bit)) & ADDR_MASK)
      ensures p in m.tlb ==> !Lost(live[k]) && m.tlb[p] == FrameOf(live[k], p - live[k].bit)
    {
      assert Reaches(m.pt, live[k]) && m.Used()[p];
    }
  }

  /** A mapping with its page table built in advance, from which runs begin. */
  method Start(pool: seq<Page>, base: int, pages: int) returns (ok: bool, m: Mapping, t: Table)
    requires base >= 0 && base % PAGE == 0 && pages > 0 && base + pages * PAGE <= SZ_4G && PoolOk(pool)
    ensures ok <==> |pool| >= PagesNeeded(base, base + pages * PAGE)
    ensures ok ==> fresh(m) && fresh(m.bitmap) && fresh(m.clean) && fresh(t)
    ensures ok ==> Joined(m, t) && m.base == base && m.bitmap.Length == pages && m.pt == map[]
    ensures ok ==> (forall p :: 0 <= p < m.bitmap.Length ==> !m.bitmap[p]) && m.CleanOnward() && m.nextStart == 0
  {
    hide Built, Translate, PagesNeeded;
    m := new Mapping(base, pages);
    t := new Table();
    ok := Prepopulate(t, true, true, pool, base, base + pages * PAGE);
    if ok {
      assert forall p :: 0 <= p < pages ==> !m.Used()[p];
      forall p | 0 <= p < pages ensures Found(t, base, p) == None {
        PageIn(base, pages, 0, 0, p);
      }
    }
  }

  method Do(m: Mapping, t: Table, op: Op, live: seq<Buffer>) returns (live': seq<Buffer>)
    requires Joined(m, t) && LiveOk(m.base, m.Used(), m.pt, live)
    modifies m, m.bitmap, m.clean, t
    ensures Joined(m, t) && LiveOk(m.base, m.Used(), m.pt, live')
  {
    hide LiveOk, Agrees;
    live' := live;
    match op
    case DoMap(phys, size, prot) =>
      if phys >= 0 && size > 0 {
        live' := AddSingle(m, t, phys, size, prot, live);
      }
    case DoMapSg(list, limits, prot) =>
      if ListOk(list, limits) {
        live' := AddList(m, t, list, limits, prot, live);
      }
    case DoUnmap(k) =>
      if 0 <= k < |live| {
        live' := Remove(m, t, k, live);
      }
    case DoFill(page) => Fill(m, t, page);
    case DoEvict(page) => Evict(m, t, page);
  }

  /** The hardware may cache what the page table says of a page. */
  ghost method Fill(m: Mapping, t: Table, page: int)
    requires Joined(m, t)
    modifies m`tlb
    ensures Joined(m, t)
  {
    hide Found, Addr;
    if page in m.pt {
      m.TlbFill(page);
    }
  }

  ghost method Evict(m: Mapping, t: Table, page: int)
    requires Joined(m, t)
    modifies m`tlb
    ensures Joined(m, t)
  {
    hide Found, Addr;
    m.TlbEvict(page);
  }

  method AddSingle(m: Mapping, t: Table, phys: int, size: int, prot: Prot, live: seq<Buffer>) returns (live': seq<Buffer>)
    requires Joined(m, t) && LiveOk(m.base, m.Used(), m.pt, live) && phys >= 0 && size > 0
    modifies m, m.bitmap, m.clean, t`mem
    ensures Joined(m, t) && LiveOk(m.base, m.Used(), m.pt, live')
  {
    hide LiveOk, Agrees, PageCount, SetRange, HasRoom, Pow2, Order, Fits, Mapped;
    ghost var used, pt := m.Used(), m.pt;
    live' := live;
    var ok, iova, gaveBack;
    ghost var bit;
    ok, iova, gaveBack, bit := MapPage(m, t, phys, size, prot);
    if ok {
      SamePages(m.base, bit, phys, size);
      PositivePages(phys, size);
      var x := Buffer(m.PageOf(iova), PageCount(phys, size), Single(iova, phys, size));
      hide Joined, Gained;
      SingleGains(pt, x);
      LiveAdd(m.base, used, pt, m.pt, live, x);
      live' := live + [x];
    }
  }

  method AddList(m: Mapping, t: Table, list: seq<Entry>, c: Limits, prot: Prot, live: seq<Buffer>) returns (live': seq<Buffer>)
    requires Joined(m, t) && LiveOk(m.base, m.Used(), m.pt, live) && ListOk(list, c)
    modifies m, m.bitmap, m.clean, t`mem
    ensures Joined(m, t) && LiveOk(m.base, m.Used(), m.pt, live')
  {
    hide LiveOk, Agrees, SetRange, HasRoom, Pow2, Order, End, Outs, HoldsSegs, Restored, SegmentsFit, FrameAt, Wide, Fits;
    ghost var used, pt := m.Used(), m.pt;
    live' := live;
    var a := new Entry[|list|](i requires 0 <= i < |list| => list[i]);
    assert a[..] == list;
    RangePages(list, c);
    var ok, count, bit := MapSg(m, t, a, c, prot);
    if ok {
      var x := Buffer(bit, End(list, |list|, c) / PAGE, List(list, a[..], c));
      hide Joined, Gained, MappedSg;
      ListGains(pt, x);
      LiveAdd(m.base, used, pt, m.pt, live, x);
      live' := live + [x];
    }
  }

  method Remove(m: Mapping, t: Table, k: int, live: seq<Buffer>) returns (live': seq<Buffer>)
    requires Joined(m, t) && LiveOk(m.base, m.Used(), m.pt, live) && 0 <= k < |live|
    modifies m, m.bitmap, m.clean, t`mem
    ensures Joined(m, t) && LiveOk(m.base, m.Used(), m.pt, live')
  {
    hide LiveOk, Agrees, SetRange, Unmapped, PageCount, End, Outs, HoldsSegs, Restored, SegmentsFit;
    ghost var used, pt := m.Used(), m.pt;
    var x := live[k];
    LiveAt(m.base, used, pt, live, k);
    match x.client {
      case Single(iova, phys, size) =>
        SamePages(m.base, x.bit, phys, size);
        UnmapPage(m, t, iova, size);
      case List(asked, given, limits) =>
        var a := new Entry[|given|](i requires 0 <= i < |given| => given[i]);
        assert a[..] == given;
        UnmapSg(m, t, a, asked, limits, x.bit);
    }
    LiveDrop(m.base, used, pt, live, k);
    live' := live[..k] + live[k + 1..];
  }

  lemma LiveAt(base: int, used: seq<bool>, pt: map<int, int>, live: seq<Buffer>, k: int)
    requires LiveOk(base, used, pt, live) && 0 <= k < |live|
    ensures BufferOk(base, |used|, live[k])
  {
  }
}
