/** Scatterlists on the fast path: the list is aligned, given an IOVA range, mapped entry by entry and given its DMA segments. */
module FastSg {
  import opened FastBits
  import opened FastIova
  import opened FastPte
  import opened FastTable
  import opened FastDma
  import opened DmaSg
  import opened DmaSgSegments
  import opened DmaSgMap
  import opened FastPlace

  /** The client's list for this path. */
  predicate ListOk(es: seq<Entry>, c: Limits) {
    ClientOk(es, c) && c.granule == PAGE && es != [] && forall i :: 0 <= i < |es| ==> es[i].page >= 0
  }

  /** The page frame of sg_phys(). */
  function Frame(e: Entry): int {
    e.page + e.offset / PAGE
  }

  /** The page frame of page p of the range, as the first i entries have it. */
  function FrameAt(es: seq<Entry>, i: nat, c: Limits, p: int): int
    requires LimitsOk(c) && i <= |es|
  {
    if i == 0 then 0
    else if p >= At(es, i - 1, c) / PAGE then Frame(es[i - 1]) + (p - At(es, i - 1, c) / PAGE)
    else FrameAt(es, i - 1, c, p)
  }

  /** The page table with the first k pages of a range mapped as the first i entries have them. */
  function MappedSg(pt: map<int, int>, bit: int, k: int, es: seq<Entry>, i: nat, c: Limits): map<int, int>
    requires LimitsOk(c) && i <= |es|
  {
    map p | p in pt.Keys + Pages(bit, k) :: if bit <= p < bit + k then FrameAt(es, i, c, p - bit) else pt[p]
  }

  lemma Multiple4K(x: int)
    requires x % PAGE == 0
    ensures x / PAGE * PAGE == x
  {
  }

  lemma SumPages(x: int, y: int)
    requires x % PAGE == 0 && y % PAGE == 0
    ensures (x + y) / PAGE == x / PAGE + y / PAGE
  {
  }

  /** Where entry i is and what it is mapped with, in pages. */
  lemma EntryPages(es: seq<Entry>, i: nat, c: Limits)
    requires ListOk(es, c) && i < |es|
    ensures At(es, i, c) >= 0 && MappedLen(es, i, c) >= 1 && At(es, i, c) % PAGE == 0 && MappedLen(es, i, c) % PAGE == 0
    ensures NextAt(es, i + 1, c) == At(es, i, c) + MappedLen(es, i, c)
    ensures NextAt(es, i + 1, c) / PAGE == At(es, i, c) / PAGE + MappedLen(es, i, c) / PAGE
    ensures NextAt(es, i, c) == At(es, i, c)
  {
    hide Span, Begin, MappedLen, At;
    AtFits(es, i, c);
    NextIs(es, i + 1, c);
    SumPages(At(es, i, c), MappedLen(es, i, c));
  }

  lemma {:induction false} NextAtGrows(es: seq<Entry>, i: nat, c: Limits)
    requires ListOk(es, c) && i <= |es|
    ensures NextAt(es, i, c) <= End(es, |es|, c)
    decreases |es| - i
  {
    hide Span, Begin, MappedLen, At;
    if i < |es| {
      EntryPages(es, i, c);
      NextAtGrows(es, i + 1, c);
    }
  }

  /** The range in pages. */
  lemma RangePages(es: seq<Entry>, c: Limits)
    requires ListOk(es, c)
    ensures End(es, |es|, c) % PAGE == 0 && End(es, |es|, c) / PAGE >= 1 && NextAt(es, 0, c) == 0 && NextAt(es, |es|, c) == End(es, |es|, c)
  {
    hide Span, Begin, MappedLen, At;
    EndGranule(es, |es|, c);
    EntryPages(es, 0, c);
    NextAtGrows(es, 1, c);
    FirstAt(es, c);
  }

  /** A list of one entry that is mapped with 4G: its length field holds 0. */
  predicate Wide(es: seq<Entry>, c: Limits)
    requires LimitsOk(c)
  {
    |es| == 1 && Span(es[0], c) == U32
  }

  /** The bytes of the list that are mapped. */
  function MappedBytes(es: seq<Entry>, c: Limits): int
    requires LimitsOk(c)
  {
    if Wide(es, c) then 0 else End(es, |es|, c)
  }

  /** In a range of at most 4G, the lengths fit their fields unless the list is wide. */
  lemma FieldsFit(es: seq<Entry>, i: nat, c: Limits)
    requires ListOk(es, c) && i < |es| && End(es, |es|, c) <= U32
    ensures MappedLen(es, i, c) <= U32 && (MappedLen(es, i, c) == U32 <==> Wide(es, c))
  {
    hide Span, Begin, At, NextAt, MappedLen;
    EntryPages(es, 0, c);
    EntryPages(es, i, c);
    RangePages(es, c);
    NextAtGrows(es, i + 1, c);
    if i + 1 < |es| {
      EntryPages(es, i + 1, c);
      NextAtGrows(es, i + 2, c);
    } else if i > 0 {
      EntriesGrow(es, 1, i, c);
    }
    OneEntry(es, c);
  }

  lemma OneEntry(es: seq<Entry>, c: Limits)
    requires LimitsOk(c)
    ensures |es| == 1 ==> MappedLen(es, 0, c) == Span(es[0], c)
  {
  }

  lemma {:induction false} EntriesGrow(es: seq<Entry>, i: nat, j: nat, c: Limits)
    requires ListOk(es, c) && i <= j < |es|
    ensures NextAt(es, i, c) <= At(es, j, c)
    decreases j - i
  {
    hide At, MappedLen, End;
    EntryPages(es, i, c);
    if i < j {
      EntriesGrow(es, i + 1, j, c);
    }
  }

  lemma AllFieldsFit(es: seq<Entry>, c: Limits)
    requires ListOk(es, c) && End(es, |es|, c) <= U32
    ensures Narrow(es, c)
  {
    hide Span, At, MappedLen, End;
    forall i | 0 <= i < |es| - 1 ensures MappedLen(es, i, c) < U32 {
      FieldsFit(es, i, c);
    }
  }

  /** One entry more. */
  lemma MappedNext(pt: map<int, int>, bit: int, es: seq<Entry>, i: nat, n: int, c: Limits)
    requires ListOk(es, c) && i < |es| && n >= 0
    ensures var k := At(es, i, c) / PAGE;
      Mapped(MappedSg(pt, bit, k, es, i, c), bit + k, n, Frame(es[i])) == MappedSg(pt, bit, k + n, es, i + 1, c)
  {
    EntryPages(es, i, c);
    hide At, Frame;
    var k := At(es, i, c) / PAGE;
    forall x: int ensures FrameAt(es, i + 1, c, x) == if x >= k then Frame(es[i]) + (x - k) else FrameAt(es, i, c, x) {
    }
    hide FrameAt;
  }

  /** The frames of an entry in the whole list are its own. */
  lemma {:induction false} EntryFrames(es: seq<Entry>, i: nat, j: nat, c: Limits, p: int)
    requires ListOk(es, c) && i < j <= |es| && At(es, i, c) / PAGE <= p < NextAt(es, i + 1, c) / PAGE
    ensures FrameAt(es, j, c, p) == Frame(es[i]) + (p - At(es, i, c) / PAGE)
    decreases j
  {
    hide At, MappedLen, Frame, End;
    if j > i + 1 {
      EntriesApart(es, i + 1, j - 1, c);
      EntryFrames(es, i, j - 1, c, p);
    }
  }

  /** An entry that was moved on to a boundary. */
  predicate Padded(es: seq<Entry>, i: nat, c: Limits)
    requires LimitsOk(c) && i < |es|
  {
    At(es, i, c) != End(es, i, c)
  }

  /** A page frame that holds bytes of the entry. */
  predicate OfData(e: Entry, f: int) {
    e.page + e.offset / PAGE <= f <= e.page + (e.offset + e.length - 1) / PAGE
  }

  /** The pages that entry i is mapped with. */
  predicate PageOfEntry(es: seq<Entry>, i: nat, c: Limits, p: int)
    requires LimitsOk(c) && i < |es|
  {
    At(es, i, c) / PAGE <= p < NextAt(es, i + 1, c) / PAGE
  }

  /** The pages of an entry reach the frames of its data, and behind these the frames that follow them. */
  lemma EntryData(es: seq<Entry>, i: nat, c: Limits, p: int)
    requires ListOk(es, c) && i < |es| && PageOfEntry(es, i, c, p)
    ensures var f := FrameAt(es, |es|, c, p);
      f == Frame(es[i]) + (p - At(es, i, c) / PAGE) && (OfData(es[i], f) <==> p < End(es, i + 1, c) / PAGE)
  {
    hide FrameAt, Span, At, End, Frame, OfData, NextAt, MappedLen, LimitsOk;
    EntryFrames(es, i, |es|, c, p);
    AtFits(es, i, c);
    SpanPages(es[i], c);
    EndIs(es, i, c);
    SumPages(At(es, i, c), Span(es[i], c));
    DataFrames(es[i], FrameAt(es, |es|, c, p));
  }

  lemma EndIs(es: seq<Entry>, i: nat, c: Limits)
    requires LimitsOk(c) && i < |es|
    ensures End(es, i + 1, c) == At(es, i, c) + Span(es[i], c)
  {
  }

  lemma DataFrames(e: Entry, f: int)
    ensures OfData(e, f) <==> Frame(e) <= f <= e.page + (e.offset + e.length - 1) / PAGE
  {
  }

  lemma SpanPages(e: Entry, c: Limits)
    requires LimitsOk(c) && c.granule == PAGE && e.offset >= 0 && e.length >= 1
    ensures e.page + (e.offset + e.length - 1) / PAGE == Frame(e) + Span(e, c) / PAGE - 1 && Span(e, c) % PAGE == 0
  {
  }

  /** Every page of the range holds data of the entry it was mapped for if and only if no entry was padded. */
  lemma PaddedIff(es: seq<Entry>, c: Limits)
    requires ListOk(es, c)
    ensures (forall i: nat, p :: i < |es| && PageOfEntry(es, i, c, p) ==> OfData(es[i], FrameAt(es, |es|, c, p)))
            <==> (forall i: nat :: i < |es| ==> !Padded(es, i, c))
  {
    hide FrameAt, OfData, At, Span, End;
    if i: nat :| i < |es| && Padded(es, i, c) {
      PadPage(es, i, c);
      EntryData(es, i - 1, c, End(es, i, c) / PAGE);
    } else {
      forall i: nat, p | i < |es| && PageOfEntry(es, i, c, p) ensures OfData(es[i], FrameAt(es, |es|, c, p)) {
        EntryData(es, i, c, p);
        assert NextAt(es, i + 1, c) == End(es, i + 1, c) by { assert i + 1 < |es| ==> !Padded(es, i + 1, c); }
      }
    }
  }

  /** The first page that an entry is padded with belongs to the entry before. */
  lemma PadPage(es: seq<Entry>, i: nat, c: Limits)
    requires ListOk(es, c) && i < |es| && Padded(es, i, c)
    ensures i > 0 && PageOfEntry(es, i - 1, c, End(es, i, c) / PAGE)
  {
    hide Span, Begin;
    FirstAt(es, c);
    AtFits(es, i, c);
    EndGranule(es, i, c);
    AtFits(es, i - 1, c);
    assert End(es, i, c) == At(es, i - 1, c) + Span(es[i - 1], c);
  }

  lemma {:induction false} EntriesApart(es: seq<Entry>, i: nat, j: nat, c: Limits)
    requires ListOk(es, c) && i <= j < |es|
    ensures NextAt(es, i, c) / PAGE <= At(es, j, c) / PAGE
  {
    hide At, MappedLen, End;
    EntriesGrow(es, i, j, c);
  }

  /** av8l_fast_map_sg on a range just allocated. */
  method MapEntries(m: Mapping, t: Table, a: array<Entry>, ghost es: seq<Entry>, c: Limits, bit: int, prot: Prot)
    requires Joined(m, t) && ListOk(es, c) && IsPrepared(a[..], es, c) && 0 <= bit && bit + End(es, |es|, c) / PAGE <= m.bitmap.Length
    requires forall p :: bit <= p < bit + End(es, |es|, c) / PAGE ==> m.bitmap[p] && p !in m.tlb
    requires End(es, |es|, c) <= U32
    modifies m`pt, t`mem
    ensures Joined(m, t) && m.pt == MappedSg(old(m.pt), bit, MappedBytes(es, c) / PAGE, es, |es|, c)
  {
    hide Joined, MappedSg, FrameAt, IsPrepared, At, MappedLen, End, NextAt, Span, FieldLen;
    RangePages(es, c);
    NothingMapped(m.pt, bit, es, c);
    PreparedCount(a[..], es, c);
    var i, at := 0, 0;
    while i < a.Length
      invariant 0 <= i <= a.Length == |es| && Joined(m, t)
      invariant at == if i < |es| then NextAt(es, i, c) else MappedBytes(es, c)
      invariant m.pt == MappedSg(old(m.pt), bit, at / PAGE, es, i, c)
      modifies m`pt, t`mem
    {
      EntryPages(es, i, c);
      PreparedEntry(a[..], es, i, c);
      NextAtGrows(es, i + 1, c);
      FieldIs(es, i, c);
      var mapped := MapRun(m, t, bit + at / PAGE, a[i].length / PAGE, a[i].page + a[i].offset / PAGE, prot);
      MappedNext(old(m.pt), bit, es, i, a[i].length / PAGE, c);
      SumPages(at, a[i].length);
      at := at + a[i].length;
      i := i + 1;
    }
  }

  /** What the field of entry i holds, and where it leads. */
  lemma FieldIs(es: seq<Entry>, i: nat, c: Limits)
    requires ListOk(es, c) && i < |es| && End(es, |es|, c) <= U32
    ensures var n := FieldLen(es, i, c);
      && n % PAGE == 0 && 0 <= n <= MappedLen(es, i, c)
      && At(es, i, c) + n == if i + 1 < |es| then NextAt(es, i + 1, c) else MappedBytes(es, c)
  {
    hide Span, At, MappedLen, End;
    EntryPages(es, i, c);
    RangePages(es, c);
    FieldsFit(es, i, c);
    FirstAt(es, c);
    assert i + 1 == |es| ==> NextAt(es, i + 1, c) == End(es, |es|, c);
  }

  lemma NothingMapped(pt: map<int, int>, bit: int, es: seq<Entry>, c: Limits)
    requires LimitsOk(c)
    ensures MappedSg(pt, bit, 0, es, 0, c) == pt
  {
  }

  lemma PreparedCount(a: seq<Entry>, es: seq<Entry>, c: Limits)
    requires IsPrepared(a, es, c)
    ensures |a| == |es|
  {
  }

  lemma PreparedEntry(a: seq<Entry>, es: seq<Entry>, i: nat, c: Limits)
    requires ListOk(es, c) && IsPrepared(a, es, c) && i < |es|
    ensures a[i].length == FieldLen(es, i, c) && a[i].page + a[i].offset / PAGE == Frame(es[i]) >= 0
  {
    assert a[i] == Prepared(es, i, c);
    hide FieldLen;
  }

  /** The segments of a list mapped at page `bit` are as the device wants them. */
  ghost predicate SegmentsFit(es: seq<Entry>, base: int, pages: int, bit: int, c: Limits)
    requires LimitsOk(c)
  {
    var iova := base + bit * PAGE;
    var segs := Outs(es, |es|, iova, c).segs;
    && SegBytes(segs) == DataBytes(es, |es|, iova, c)
    && (forall k :: 0 <= k < |segs| ==> SegOk(segs[k], c))
    && (PowerBoundary(c.boundary) && WellPlaced(base, pages * PAGE, c.boundary) ==> NoneCrosses(segs, c))
  }

  /**
   fast_smmu_map_sg. It fails exactly when no aligned run of the length is out of use, and then gives the client its
   list back. Otherwise the range is mapped as the entries have it, unless the list is wide and nothing is mapped; the
   client's fields are as they were, and the DMA fields hold the segments: they list exactly the bytes of the data in
   order, none is too long, and none crosses a boundary if the base of the mapping is on one or the mapping ends before
   the next.
   */
  method MapSg(m: Mapping, t: Table, a: array<Entry>, c: Limits, prot: Prot) returns (ok: bool, count: int, bit: int)
    requires Joined(m, t) && ListOk(a[..], c)
    modifies m, m.bitmap, m.clean, t`mem, a
    ensures Joined(m, t) && Restored(a[..], old(a[..]))
    ensures ok <==> HasRoom(old(m.Used()), End(old(a[..]), a.Length, c) / PAGE)
    ensures ok ==> var n := End(old(a[..]), a.Length, c) / PAGE;
      && Suits(old(m.Used()), bit, n, Pow2(Order(n))) && m.Used() == SetRange(old(m.Used()), bit, n, true)
      && m.pt == MappedSg(old(m.pt), bit, MappedBytes(old(a[..]), c) / PAGE, old(a[..]), a.Length, c)
    ensures ok ==> var segs := Outs(old(a[..]), a.Length, m.base + bit * PAGE, c).segs; HoldsSegs(a[..], segs) && count == |segs|
    ensures ok ==> SegmentsFit(old(a[..]), m.base, m.bitmap.Length, bit, c)
    ensures old(m.CleanOnward()) && Fits(old(m.nextStart), End(old(a[..]), a.Length, c) / PAGE, m.bitmap.Length)
      ==> ok && bit == old(m.nextStart)
    ensures !ok ==> count == 0 && HoldsSegs(a[..], []) && m.Used() == old(m.Used()) && m.pt == old(m.pt)
  {
    hide Joined, MappedSg, IsPrepared, At, MappedLen, End, Span, HasRoom, Pow2, Order, SetRange, Outs, HoldsSegs, Restored, SegmentsFit;
    ghost var es := a[..];
    var iovaLen := Prepare(a, c);
    RangePages(es, c);
    ok, bit := AllocRun(m, t, iovaLen / PAGE);
    if !ok {
      Invalidate(a, es, c);
      return false, 0, bit;
    }
    RangeNarrow(m, t, bit, es, c);
    MapEntries(m, t, a, es, c, bit, prot);
    count := Finalise(a, es, c, m.base + bit * PAGE);
    ListFits(es, m.base, m.bitmap.Length, bit, c);
  }

  /** A range of the mapping has at most 4G. */
  lemma RangeNarrow(m: Mapping, t: Table, bit: int, es: seq<Entry>, c: Limits)
    requires Joined(m, t) && ListOk(es, c) && 0 <= bit && bit + End(es, |es|, c) / PAGE <= m.bitmap.Length
    ensures End(es, |es|, c) <= U32 && Narrow(es, c)
  {
    hide Agrees, End, Narrow, At, Span;
    RangePages(es, c);
    Multiple4K(End(es, |es|, c));
    AllFieldsFit(es, c);
  }

  lemma ListFits(es: seq<Entry>, base: int, pages: int, bit: int, c: Limits)
    requires ListOk(es, c) && MayBeAt(End(es, |es|, c) / PAGE, bit) && bit + End(es, |es|, c) / PAGE <= pages && Narrow(es, c)
    ensures SegmentsFit(es, base, pages, bit, c)
  {
    hide Outs, SegBytes, DataBytes, SegOk, NoneCrosses, At, Span, Pow2, Order, End, Narrow;
    var n := End(es, |es|, c) / PAGE;
    RangePages(es, c);
    Multiple4K(End(es, |es|, c));
    SegmentsOk(es, base + bit * PAGE, c);
    if PowerBoundary(c.boundary) && WellPlaced(base, pages * PAGE, c.boundary) {
      RunWellPlaced(base, bit, n, pages, c.boundary);
    }
  }

  /** fast_smmu_unmap_sg on a list mapped at page `bit`: exactly the range that was allocated goes. */
  method UnmapSg(m: Mapping, t: Table, a: array<Entry>, ghost es: seq<Entry>, c: Limits, ghost bit: int)
    requires Joined(m, t) && ListOk(es, c) && a.Length == |es| && 0 <= bit && bit + End(es, |es|, c) / PAGE <= m.bitmap.Length
    requires HoldsSegs(a[..], Outs(es, |es|, m.base + bit * PAGE, c).segs)
    modifies m`pt, m`haveStale, m.bitmap, t`mem
    ensures Joined(m, t) && m.pt == Unmapped(old(m.pt), bit, End(es, |es|, c) / PAGE)
    ensures m.Used() == SetRange(old(m.Used()), bit, End(es, |es|, c) / PAGE, false)
  {
    hide Agrees, Unmapped, SetRange, At, End, Span, Outs, Up, Off, Narrow;
    RangeNarrow(m, t, bit, es, c);
    ghost var base := m.base + bit * PAGE;
    ghost var segs := Outs(es, |es|, base, c).segs;
    RangePages(es, c);
    BaseMultiple(m.base, bit);
    SegmentsOk(es, base, c);
    RangeOk(es, base, c);
    var start, len := UnmapRange(a, c, segs);
    FirstPage(m.base, bit, a[0].dmaAddr);
    UnmapRun(m, t, a[0].dmaAddr, len / PAGE);
  }

  lemma BaseMultiple(base: int, bit: int)
    requires base % PAGE == 0
    ensures (base + bit * PAGE) % PAGE == 0
  {
  }

  lemma FirstPage(base: int, bit: int, addr: int)
    requires base % PAGE == 0 && 0 <= bit && addr - addr % PAGE == base + bit * PAGE
    ensures addr >= base && (addr - base) / PAGE == bit
  {
  }
}
