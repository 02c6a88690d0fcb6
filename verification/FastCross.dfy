/** Which mappings can hand out a DMA segment that crosses a boundary, and the list that does. */
module FastCross {
  import opened FastBits
  import opened FastIova
  import opened FastPte
  import opened FastTable
  import opened FastDma
  import opened DmaSg
  import opened DmaSgSegments
  import opened DmaSgMap
  import opened FastPlace
  import opened FastSg

  /** 2^k entries of one byte, but the last of two bytes on two pages. */
  function AcrossList(k: nat): (es: seq<Entry>)
    ensures |es| == Pow2(k)
  {
    seq(Pow2(k), i => if i < Pow2(k) - 1 then Entry(0, 0, 1, 0, 0) else Entry(0, PAGE - 1, 2, 0, 0))
  }

  /** The limits let a segment have two bytes, and the list fits between two boundaries. */
  ghost predicate RoomFor(k: nat, c: Limits) {
    LimitsOk(c) && c.granule == PAGE && c.maxLen >= 2 && (Pow2(k) + 1) * PAGE <= c.boundary
  }

  lemma AcrossSpan(k: nat, i: nat, c: Limits)
    requires RoomFor(k, c) && i < Pow2(k)
    ensures Span(AcrossList(k)[i], c) == if i < Pow2(k) - 1 then PAGE else 2 * PAGE
  {
  }

  /** An entry that ends before the first boundary is not padded. */
  lemma NotPadded(end: int, e: Entry, c: Limits)
    requires LimitsOk(c) && 0 <= end && 1 <= Span(e, c) && end + Span(e, c) <= c.boundary
    ensures Begin(end, e, c) == end
  {
    hide Span;
    ModSmall(end, c.boundary);
  }

  lemma {:induction false} AcrossEnd(k: nat, i: nat, c: Limits)
    requires RoomFor(k, c) && i < Pow2(k)
    ensures var es := AcrossList(k); End(es, i, c) == i * PAGE && At(es, i, c) == i * PAGE
    decreases i
  {
    hide Span, Pow2, Begin, AcrossList;
    if i > 0 {
      AcrossEnd(k, i - 1, c);
      AcrossSpan(k, i - 1, c);
    }
    AcrossSpan(k, i, c);
    NotPadded(i * PAGE, AcrossList(k)[i], c);
  }

  lemma AcrossOk(k: nat, c: Limits)
    requires RoomFor(k, c)
    ensures ListOk(AcrossList(k), c) && End(AcrossList(k), Pow2(k), c) == (Pow2(k) + 1) * PAGE
  {
    var es := AcrossList(k);
    forall i | 0 <= i < |es|
      ensures es[i].page >= 0 && es[i].offset >= 0 && 1 <= es[i].length <= c.maxLen && Span(es[i], c) <= c.boundary
    {
      AcrossSpan(k, i, c);
    }
    hide Span, Pow2, AcrossList, Begin;
    AcrossEnd(k, |es| - 1, c);
    AcrossSpan(k, |es| - 1, c);
  }

  /** Its last entry is a segment of its own: two bytes around the end of its first page. */
  lemma AcrossSegment(k: nat, iova: int, c: Limits)
    requires RoomFor(k, c) && Narrow(AcrossList(k), c)
    ensures var segs := Outs(AcrossList(k), Pow2(k), iova, c).segs;
      segs != [] && segs[|segs| - 1] == Seg(iova + Pow2(k) * PAGE - 1, 2)
  {
    var es, n := AcrossList(k), Pow2(k);
    assert es[n - 1] == Entry(0, PAGE - 1, 2, 0, 0);
    hide AcrossList, Pow2, Outs, FieldLen, At, Narrow;
    AcrossOk(k, c);
    AcrossEnd(k, n - 1, c);
    OutsNext(es, n, iova, c);
  }

  /** Where the mapping is not well placed and a segment may have two bytes, this list is cut by the boundary. */
  lemma AcrossCrosses(base: int, pages: int, c: Limits)
    requires LimitsOk(c) && c.granule == PAGE && c.maxLen >= 2 && PowerBoundary(c.boundary) && base % PAGE == 0
    requires !WellPlaced(base, pages * PAGE, c.boundary) && pages * PAGE <= U32
    ensures var d := ToBoundary(base, c.boundary);
      && 1 <= d < pages
      && var es, bit := AcrossList(TwoPart(d)), d - Pow2(TwoPart(d));
      && ListOk(es, c) && End(es, |es|, c) / PAGE == Pow2(TwoPart(d)) + 1
      && MayBeAt(Pow2(TwoPart(d)) + 1, bit) && bit + Pow2(TwoPart(d)) + 1 <= pages
      && !NoneCrosses(Outs(es, |es|, base + bit * PAGE, c).segs, c)
  {
    hide Order, AcrossList, Outs, At, Span;
    Across(base, pages, c.boundary);
    var d := ToBoundary(base, c.boundary);
    var k := TwoPart(d);
    var es, bit := AcrossList(k), d - Pow2(k);
    BelowBoundary(base, d, k, c.boundary);
    hide Pow2, MayBeAt;
    AcrossOk(k, c);
    AllFieldsFit(es, c);
    AcrossSegment(k, base + bit * PAGE, c);
    ModStep(base + bit * PAGE, Pow2(k) * PAGE - 1, c.boundary);
    var segs := Outs(es, |es|, base + bit * PAGE, c).segs;
    assert segs[|segs| - 1].addr % c.boundary + segs[|segs| - 1].len > c.boundary;
  }

  lemma BelowBoundary(base: int, d: int, k: nat, boundary: int)
    requires PowerBoundary(boundary) && boundary > 0 && base % boundary > 0 && base % boundary + d * PAGE == boundary && Pow2(k) <= d
    ensures (Pow2(k) + 1) * PAGE <= boundary
  {
    var b: nat :| boundary == Pow2(b) * PAGE;
    hide Pow2;
  }

  /** Every list of the mapping crosses no boundary. */
  ghost predicate NeverCrosses(base: int, pages: int, c: Limits) {
    forall es, bit :: ListOk(es, c) && MayBeAt(End(es, |es|, c) / PAGE, bit) && bit + End(es, |es|, c) / PAGE <= pages
      ==> NoneCrosses(Outs(es, |es|, base + bit * PAGE, c).segs, c)
  }

  /**
   No list gets a segment that crosses a boundary, wherever the allocator may place it, if and only if the mapping is well
   placed or no segment has two bytes.
   */
  lemma CrossesIff(base: int, pages: int, c: Limits)
    requires LimitsOk(c) && c.granule == PAGE && PowerBoundary(c.boundary) && base % PAGE == 0 && pages * PAGE <= U32
    ensures NeverCrosses(base, pages, c) <==> c.maxLen <= 1 || WellPlaced(base, pages * PAGE, c.boundary)
  {
    hide Order, Outs, At, Span, End, Pow2;
    if c.maxLen <= 1 || WellPlaced(base, pages * PAGE, c.boundary) {
      forall es, bit | ListOk(es, c) && MayBeAt(End(es, |es|, c) / PAGE, bit) && bit + End(es, |es|, c) / PAGE <= pages
        ensures NoneCrosses(Outs(es, |es|, base + bit * PAGE, c).segs, c)
      {
        RangePages(es, c);
        Multiple4K(End(es, |es|, c));
        AllFieldsFit(es, c);
        ListFits(es, base, pages, bit, c);
      }
    } else {
      AcrossCrosses(base, pages, c);
      var d := ToBoundary(base, c.boundary);
      var es, bit := AcrossList(TwoPart(d)), d - Pow2(TwoPart(d));
      hide MayBeAt, NoneCrosses, AcrossList;
      assert ListOk(es, c) && MayBeAt(End(es, |es|, c) / PAGE, bit);
    }
  }

  /**
   From an unused mapping that is not well placed, a client gets to a segment that crosses: it maps single pages up to
   the place of the list, and then the list.
   */
  method Cross(m: Mapping, t: Table, c: Limits, prot: Prot) returns (a: array<Entry>, ghost asked: seq<Entry>, ghost segs: seq<Seg>)
    requires Joined(m, t) && m.CleanOnward() && m.nextStart == 0
    requires LimitsOk(c) && c.granule == PAGE && c.maxLen >= 2 && PowerBoundary(c.boundary)
    requires !WellPlaced(m.base, m.bitmap.Length * PAGE, c.boundary)
    modifies m, m.bitmap, m.clean, t`mem
    ensures Joined(m, t) && ListOk(asked, c) && Restored(a[..], asked) && HoldsSegs(a[..], segs) && !NoneCrosses(segs, c)
  {
    hide Joined, Order, Outs, At, Span, End, Pow2, AcrossList, NoneCrosses, TwoPart, WellPlaced, HoldsSegs, ToBoundary,
      Restored, ListOk, SegmentsFit, MappedSg, SetRange, HasRoom, PowerBoundary, ZeroRun;
    Small(m, t);
    AcrossCrosses(m.base, m.bitmap.Length, c);
    var d := ToBoundary(m.base, c.boundary);
    var es, bit := AcrossList(TwoPart(d)), d - Pow2(TwoPart(d));
    Singles(m, t, bit, prot);
    a := new Entry[|es|](i requires 0 <= i < |es| => es[i]);
    assert a[..] == es;
    var ok, count, at := MapSg(m, t, a, c, prot);
    asked, segs := es, Outs(es, |es|, m.base + bit * PAGE, c).segs;
  }

  /** `count` pages, one after the other. */
  method Singles(m: Mapping, t: Table, count: int, prot: Prot)
    requires Joined(m, t) && m.CleanOnward() && m.nextStart == 0 && 0 <= count < m.bitmap.Length
    modifies m, m.bitmap, m.clean, t`mem
    ensures Joined(m, t) && m.CleanOnward() && m.nextStart == count
  {
    hide Agrees;
    var i := 0;
    OnePage();
    while i < count
      invariant 0 <= i <= count && Joined(m, t) && m.CleanOnward() && m.nextStart == i
    {
      var ok, iova, gaveBack;
      ghost var bit;
      ok, iova, gaveBack, bit := MapPage(m, t, 0, 1, prot);
      i := i + 1;
    }
  }

  lemma OnePage()
    ensures PageCount(0, 1) == 1 && Pow2(Order(1)) == 1
  {
  }

  lemma Small(m: Mapping, t: Table)
    requires Joined(m, t)
    ensures m.bitmap.Length * PAGE <= U32 && m.base % PAGE == 0
  {
  }

  /**
   A list of one entry of 4G less a byte: its range is handed out, its segment is given to the device, and not one page of
   it is mapped.
   */
  method WideUnmapped(m: Mapping, t: Table, prot: Prot) returns (a: array<Entry>, ok: bool)
    requires Joined(m, t) && m.CleanOnward() && m.nextStart == 0 && m.base == 0 && m.bitmap.Length == 0x10_0000
    modifies m, m.bitmap, m.clean, t`mem
    ensures Joined(m, t) && ok && m.pt == old(m.pt) && (forall p :: 0 <= p < m.bitmap.Length ==> m.bitmap[p])
    ensures a.Length == 1 && a[0].dmaAddr == 0 && a[0].dmaLen == U32 - 1
  {
    hide Agrees, Order, Pow2;
    var c := Limits(PAGE, U32, U32 - 1);
    var e := Entry(0, 0, U32 - 1, 0, 0);
    WideList(e, c);
    a := new Entry[1](_ => e);
    assert a[..] == [e];
    var count, bit;
    ok, count, bit := MapSg(m, t, a, c, prot);
    assert forall p :: 0 <= p < m.bitmap.Length ==> m.Used()[p];
  }

  lemma WideList(e: Entry, c: Limits)
    requires e == Entry(0, 0, U32 - 1, 0, 0) && c == Limits(PAGE, U32, U32 - 1)
    ensures ListOk([e], c) && Wide([e], c) && End([e], 1, c) == U32 && Outs([e], 1, 0, c).segs == [Seg(0, U32 - 1)]
  {
  }
}
