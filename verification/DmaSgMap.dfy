/** The loops over the scatterlist, in place. */
module DmaSgMap {
  import opened DmaSg
  import opened DmaSgSegments

  /** Entries that hold something. */
  predicate Nonempty(es: seq<Entry>, c: Limits) {
    LimitsOk(c) && forall i :: 0 <= i < |es| ==> es[i].offset >= 0 && 1 <= es[i].length < U32
  }

  /** The list is as Prepare left it. */
  ghost predicate IsPrepared(a: seq<Entry>, es: seq<Entry>, c: Limits) {
    LimitsOk(c) && |a| == |es| && forall i :: 0 <= i < |es| ==> a[i] == Prepared(es, i, c)
  }

  /** The client's fields are as they were. */
  ghost predicate Restored(a: seq<Entry>, es: seq<Entry>) {
    |a| == |es| && forall i :: 0 <= i < |es| ==> a[i].page == es[i].page && a[i].offset == es[i].offset && a[i].length == es[i].length
  }

  /** The DMA fields hold the segments, one after the other, and are void after them. */
  ghost predicate HoldsSegs(a: seq<Entry>, segs: seq<Seg>) {
    && |segs| <= |a|
    && (forall k :: 0 <= k < |segs| ==> a[k].dmaAddr == segs[k].addr && a[k].dmaLen == segs[k].len)
    && (forall k :: |segs| <= k < |a| ==> a[k].dmaAddr == MAPPING_ERROR && a[k].dmaLen == 0)
  }

  /** The entries before i are prepared, the last of them not yet padded. */
  ghost predicate PreparedTo(a: seq<Entry>, es: seq<Entry>, i: nat, c: Limits) {
    && LimitsOk(c) && |a| == |es| && i <= |es|
    && (forall j :: 0 <= j < i - 1 ==> a[j] == Prepared(es, j, c))
    && (i > 0 ==> a[i - 1] == Prepared(es, i - 1, c).(length := Span(es[i - 1], c) % U32))
    && (forall j :: i <= j < |es| ==> a[j] == es[j])
  }

  /** qcom_iommu_dma_prepare_map_sg */
  method Prepare(a: array<Entry>, c: Limits) returns (iovaLen: int)
    requires Nonempty(a[..], c)
    modifies a
    ensures IsPrepared(a[..], old(a[..]), c) && iovaLen == End(old(a[..]), a.Length, c)
  {
    hide PreparedTo, Span, Prepared, End, Begin, At, Off, Pad, Up, LimitsOk, IsPrepared;
    ghost var es := a[..];
    iovaLen := 0;
    var i := 0;
    NothingPrepared(es, c);
    while i < a.Length
      invariant 0 <= i <= a.Length && PreparedTo(a[..], es, i, c) && iovaLen == End(es, i, c)
    {
      Untouched(a[..], es, i, c);
      var off, len := Off(a[i], c), a[i].length;
      var pad := Pad(iovaLen, c.boundary);
      NoPadAtFirst(es, i, c);
      ghost var before := a[..];
      var aligned := Up(len + off, c.granule);
      a[i] := Entry(a[i].page, a[i].offset - off, aligned % U32, off, len);
      if pad != 0 && pad < aligned - 1 {
        a[i - 1] := a[i - 1].(length := (a[i - 1].length + pad) % U32);
        iovaLen := iovaLen + pad;
      }
      iovaLen := iovaLen + aligned;
      PreparedNext(before, a[..], es, i, c);
      EndNext(es, i, c);
      i := i + 1;
    }
    PreparedAll(a[..], es, c);
  }

  lemma NothingPrepared(es: seq<Entry>, c: Limits)
    requires LimitsOk(c)
    ensures PreparedTo(es, es, 0, c) && End(es, 0, c) == 0 && c.boundary > 0 && c.granule > 0
  {
  }

  lemma Untouched(a: seq<Entry>, es: seq<Entry>, i: nat, c: Limits)
    requires PreparedTo(a, es, i, c) && i < |es|
    ensures |a| == |es| && a[i] == es[i] && LimitsOk(c)
  {
  }

  /** Before the first entry there is nothing to pad. */
  lemma NoPadAtFirst(es: seq<Entry>, i: nat, c: Limits)
    requires LimitsOk(c) && i < |es|
    ensures Pad(End(es, i, c), c.boundary) != 0 ==> i > 0
  {
  }

  lemma EndNext(es: seq<Entry>, i: nat, c: Limits)
    requires LimitsOk(c) && i < |es|
    ensures var p, s := Pad(End(es, i, c), c.boundary), Up(es[i].length + Off(es[i], c), c.granule);
            End(es, i + 1, c) == End(es, i, c) + (if p != 0 && p < s - 1 then p else 0) + s
  {
  }

  lemma PreparedNext(b: seq<Entry>, a: seq<Entry>, es: seq<Entry>, i: nat, c: Limits)
    requires PreparedTo(b, es, i, c) && i < |es| && |a| == |es|
    requires var e, p, s := es[i], Pad(End(es, i, c), c.boundary), Up(es[i].length + Off(es[i], c), c.granule);
             && a[i] == Entry(e.page, e.offset - Off(e, c), s % U32, Off(e, c), e.length)
             && (forall j :: 0 <= j < |es| && j != i && j != i - 1 ==> a[j] == b[j])
             && (i > 0 ==> a[i - 1] == if p != 0 && p < s - 1 then b[i - 1].(length := (b[i - 1].length + p) % U32) else b[i - 1])
    ensures PreparedTo(a, es, i + 1, c)
  {
    if i > 0 {
      assert MappedLen(es, i - 1, c) == At(es, i, c) - At(es, i - 1, c);
      assert End(es, i, c) == At(es, i - 1, c) + Span(es[i - 1], c);
      AddCut(Span(es[i - 1], c), At(es, i, c) - End(es, i, c));
    }
    hide End, At, Off;
  }

  /** Adding to what the field holds is cutting the sum. */
  lemma AddCut(x: int, y: int)
    ensures (x % U32 + y) % U32 == (x + y) % U32
  {
  }

  lemma PreparedAll(a: seq<Entry>, es: seq<Entry>, c: Limits)
    requires PreparedTo(a, es, |es|, c)
    ensures IsPrepared(a, es, c)
  {
    hide End, At, Off, Span;
  }

  /** qcom_iommu_dma_invalidate_sg: a failed mapping gives the client its list back with void DMA fields. */
  method Invalidate(a: array<Entry>, ghost es: seq<Entry>, c: Limits)
    requires Nonempty(es, c) && IsPrepared(a[..], es, c)
    modifies a
    ensures Restored(a[..], es) && HoldsSegs(a[..], [])
  {
    var i := 0;
    while i < a.Length
      invariant 0 <= i <= a.Length
      invariant forall j :: 0 <= j < i ==> a[j] == Entry(es[j].page, es[j].offset, es[j].length, MAPPING_ERROR, 0)
      invariant forall j :: i <= j < a.Length ==> a[j] == old(a[j])
    {
      assert old(a[..])[i] == Prepared(es, i, c);
      hide FieldLen;
      var e := a[i];
      if e.dmaAddr != MAPPING_ERROR {
        e := e.(offset := e.offset + e.dmaAddr);
      }
      if e.dmaLen != 0 {
        e := e.(length := e.dmaLen);
      }
      a[i] := e.(dmaAddr := MAPPING_ERROR, dmaLen := 0);
      i := i + 1;
    }
  }

  /** The entries before i are restored, the DMA fields before i hold the segments, the rest is as prepared. */
  ghost predicate FinalTo(a: seq<Entry>, es: seq<Entry>, i: nat, segs: seq<Seg>, c: Limits) {
    && LimitsOk(c) && |a| == |es| && i <= |es| && |segs| <= i
    && (forall j :: 0 <= j < i ==> a[j].page == es[j].page && a[j].offset == es[j].offset && a[j].length == es[j].length)
    && (forall k :: 0 <= k < |segs| ==> a[k].dmaAddr == segs[k].addr && a[k].dmaLen == segs[k].len)
    && (forall k :: |segs| <= k < i ==> a[k].dmaAddr == MAPPING_ERROR && a[k].dmaLen == 0)
    && (forall j :: i <= j < |es| ==> a[j] == Prepared(es, j, c))
  }

  /** qcom_iommu_dma_finalise_sg; the client's list is as it was, and its DMA fields hold the segments. */
  method Finalise(a: array<Entry>, ghost es: seq<Entry>, c: Limits, base: int) returns (count: int)
    requires Nonempty(es, c) && IsPrepared(a[..], es, c)
    modifies a
    ensures Restored(a[..], es) && HoldsSegs(a[..], Outs(es, |es|, base, c).segs)
    ensures count == |Outs(es, |es|, base, c).segs|
  {
    hide FinalTo, IsPrepared, Outs, OutStep, Pos, Off, FieldLen, LimitsOk, Restored, HoldsSegs, Prepared;
    FinalStart(a[..], es, base, c);
    var i, cur, curLen, dmaAddr := 0, 0, 0, base;
    count := 0;
    while i < a.Length
      invariant 0 <= i <= a.Length == |es| && count == |Outs(es, i, base, c).segs|
      invariant FinalTo(a[..], es, i, Outs(es, i, base, c).segs, c)
      invariant curLen == Outs(es, i, base, c).curLen && dmaAddr == base + Pos(es, i, c)
      invariant count <= i && (i > 0 ==> cur == count - 1) && (i == 0 ==> cur == 0)
    {
      ghost var o := Outs(es, i, base, c);
      ghost var before := a[..];
      FinalNow(a[..], es, i, base, c);
      var off, len, mapped := a[i].dmaAddr, a[i].dmaLen, a[i].length;
      a[i] := Entry(a[i].page, a[i].offset + off, len, MAPPING_ERROR, 0);
      if curLen != 0 && off == 0 && dmaAddr % c.boundary != 0 && (c.maxLen - curLen) % U32 >= len {
        curLen := (curLen + len) % U32;
      } else {
        if i > 0 {
          cur := cur + 1;
        }
        curLen := len;
        count := count + 1;
        a[cur] := a[cur].(dmaAddr := dmaAddr + off);
      }
      a[cur] := a[cur].(dmaLen := curLen);
      FinalNext(before, a[..], es, i, base, c, cur, curLen);
      dmaAddr := dmaAddr + mapped;
      if (len + off) % U32 < mapped {
        curLen := 0;
      }
      i := i + 1;
    }
    FinalEnd(a[..], es, base, c);
  }

  lemma FinalStart(a: seq<Entry>, es: seq<Entry>, base: int, c: Limits)
    requires Nonempty(es, c) && IsPrepared(a, es, c)
    ensures |a| == |es| && c.boundary > 0 && LimitsOk(c)
    ensures Outs(es, 0, base, c) == Out([], 0) && FinalTo(a, es, 0, [], c) && Pos(es, 0, c) == 0
  {
  }

  lemma FinalEnd(a: seq<Entry>, es: seq<Entry>, base: int, c: Limits)
    requires LimitsOk(c) && FinalTo(a, es, |es|, Outs(es, |es|, base, c).segs, c)
    ensures Restored(a, es) && HoldsSegs(a, Outs(es, |es|, base, c).segs)
  {
    hide Outs;
  }

  /** What the round reads of entry i. */
  lemma FinalNow(a: seq<Entry>, es: seq<Entry>, i: nat, base: int, c: Limits)
    requires LimitsOk(c) && |a| == |es| && i < |es| && FinalTo(a, es, i, Outs(es, i, base, c).segs, c)
    ensures a[i].dmaAddr == Off(es[i], c) && a[i].dmaLen == es[i].length && a[i].length == FieldLen(es, i, c)
    ensures a[i].page == es[i].page && a[i].offset == es[i].offset - Off(es[i], c)
    ensures Pos(es, i + 1, c) == Pos(es, i, c) + FieldLen(es, i, c)
    ensures i > 0 ==> Outs(es, i, base, c).segs != []
    ensures i == 0 ==> Outs(es, i, base, c) == Out([], 0)
  {
    OutsCount(es, i, base, c);
    hide OutStep, FieldLen, Off;
  }

  lemma FinalNext(b: seq<Entry>, a: seq<Entry>, es: seq<Entry>, i: nat, base: int, c: Limits, cur: int, curLen: int)
    requires LimitsOk(c) && |b| == |es| && |a| == |es| && i < |es| && FinalTo(b, es, i, Outs(es, i, base, c).segs, c)
    requires i > 0 ==> Outs(es, i, base, c).segs != []
    requires var o, addr, e := Outs(es, i, base, c), base + Pos(es, i, c), es[i];
             var joined := o.curLen != 0 && Off(e, c) == 0 && addr % c.boundary != 0 && (c.maxLen - o.curLen) % U32 >= e.length;
             && (joined ==> o.segs != [])
             && cur == (if joined then |o.segs| - 1 else |o.segs|)
             && curLen == (if joined then (o.curLen + e.length) % U32 else e.length)
             && 0 <= cur <= i
             && a[cur].dmaLen == curLen
             && (cur != i ==> a[cur].page == b[cur].page && a[cur].offset == b[cur].offset && a[cur].length == b[cur].length)
             && a[cur].dmaAddr == (if joined then (if cur == i then MAPPING_ERROR else b[cur].dmaAddr) else addr + Off(e, c))
             && a[i].page == e.page && a[i].offset == e.offset && a[i].length == e.length
             && (cur != i ==> a[i].dmaAddr == MAPPING_ERROR && a[i].dmaLen == 0)
             && (forall j :: 0 <= j < |es| && j != i && j != cur ==> a[j] == b[j])
    ensures FinalTo(a, es, i + 1, Outs(es, i + 1, base, c).segs, c)
    ensures Outs(es, i + 1, base, c).curLen == if (es[i].length + Off(es[i], c)) % U32 < FieldLen(es, i, c) then 0 else curLen
    ensures |Outs(es, i + 1, base, c).segs| == cur + 1
  {
    hide Off, FieldLen, Prepared, FinalTo, OutStep, Pos;
    assert Outs(es, i + 1, base, c)
        == OutStep(Outs(es, i, base, c), base + Pos(es, i, c), Off(es[i], c), es[i].length, FieldLen(es, i, c), c);
    FinalWrites(b, a, es, i, Outs(es, i, base, c), base + Pos(es, i, c), Off(es[i], c), FieldLen(es, i, c), c, cur, curLen);
  }

  lemma FinalWrites(b: seq<Entry>, a: seq<Entry>, es: seq<Entry>, i: nat, o: Out, addr: int, off: int, mapped: int,
                    c: Limits, cur: int, curLen: int)
    requires LimitsOk(c) && |b| == |es| && |a| == |es| && i < |es| && FinalTo(b, es, i, o.segs, c)
    requires var e := es[i];
             var joined := o.curLen != 0 && off == 0 && addr % c.boundary != 0 && (c.maxLen - o.curLen) % U32 >= e.length;
             && (joined ==> o.segs != [])
             && cur == (if joined then |o.segs| - 1 else |o.segs|)
             && curLen == (if joined then (o.curLen + e.length) % U32 else e.length)
             && 0 <= cur <= i
             && a[cur].dmaLen == curLen
             && (cur != i ==> a[cur].page == b[cur].page && a[cur].offset == b[cur].offset && a[cur].length == b[cur].length)
             && a[cur].dmaAddr == (if joined then (if cur == i then MAPPING_ERROR else b[cur].dmaAddr) else addr + off)
             && a[i].page == e.page && a[i].offset == e.offset && a[i].length == e.length
             && (cur != i ==> a[i].dmaAddr == MAPPING_ERROR && a[i].dmaLen == 0)
             && (forall j :: 0 <= j < |es| && j != i && j != cur ==> a[j] == b[j])
    ensures var o' := OutStep(o, addr, off, es[i].length, mapped, c);
            && FinalTo(a, es, i + 1, o'.segs, c) && |o'.segs| == cur + 1
            && o'.curLen == if (es[i].length + off) % U32 < mapped then 0 else curLen
  {
    hide Prepared;
    var o' := OutStep(o, addr, off, es[i].length, mapped, c);
    assert forall k :: 0 <= k < cur ==> o'.segs[k] == o.segs[k];
  }

  /** The range that fast_smmu_unmap_sg recomputes from the DMA fields. */
  method UnmapRange(a: array<Entry>, c: Limits, ghost segs: seq<Seg>) returns (start: int, len: int)
    requires a.Length > 0 && LimitsOk(c) && HoldsSegs(a[..], segs) && segs != []
    requires forall k :: 0 <= k < |segs| ==> segs[k].len >= 1
    ensures start == segs[0].addr - segs[0].addr % c.granule
    ensures len == Up(segs[|segs| - 1].addr + segs[|segs| - 1].len - start, c.granule)
  {
    hide Up;
    var last, i := 0, 1;
    while i < a.Length
      invariant 1 <= i <= a.Length && last == i - 1 && last < |segs|
    {
      if a[i].dmaLen == 0 {
        break;
      }
      last := i;
      i := i + 1;
    }
    assert last == |segs| - 1;
    var offset := a[0].dmaAddr % c.granule;
    start := a[0].dmaAddr - offset;
    len := Up(a[last].dmaAddr + a[last].dmaLen - start, c.granule);
  }
}
