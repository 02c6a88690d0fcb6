/** The DMA segments of a mapped scatterlist. */
module DmaSgSegments {
  import opened DmaSg

  /** A DMA segment. */
  datatype Seg = Seg(addr: int, len: int)

  /** The segments so far, and the length of the last one if the next entry may still be joined to it. */
  datatype Out = Out(segs: seq<Seg>, curLen: int)

  /** Whether the entry is joined to the last segment; the room left in that is computed in 32 bits. */
  predicate Joins(o: Out, addr: int, off: int, len: int, c: Limits)
    requires c.boundary > 0
  {
    o.curLen != 0 && off == 0 && addr % c.boundary != 0 && (c.maxLen - o.curLen) % U32 >= len && o.segs != []
  }

  /** The entry at IOVA `addr`, with what was kept in its DMA fields and the length in its own. */
  function OutStep(o: Out, addr: int, off: int, len: int, mapped: int, c: Limits): Out
    requires c.boundary > 0
  {
    var joined := Joins(o, addr, off, len, c);
    var cur := if joined then (o.curLen + len) % U32 else len;
    var segs := if joined then o.segs[..|o.segs| - 1] + [Seg(o.segs[|o.segs| - 1].addr, cur)]
                else o.segs + [Seg(addr + off, len)];
    Out(segs, if (len + off) % U32 < mapped then 0 else cur)
  }

  /** Where finalise takes entry i to be: behind the lengths that the fields before it hold. */
  function Pos(es: seq<Entry>, i: nat, c: Limits): int
    requires LimitsOk(c) && i <= |es|
  {
    if i == 0 then 0 else Pos(es, i - 1, c) + FieldLen(es, i - 1, c)
  }

  /** The segments after i entries of a list mapped at `base`. */
  function Outs(es: seq<Entry>, i: nat, base: int, c: Limits): Out
    requires LimitsOk(c) && i <= |es|
  {
    if i == 0 then Out([], 0)
    else OutStep(Outs(es, i - 1, base, c), base + Pos(es, i - 1, c), Off(es[i - 1], c), es[i - 1].length,
                 FieldLen(es, i - 1, c), c)
  }

  /** The length that each entry but the last is mapped with fits the field. */
  predicate Narrow(es: seq<Entry>, c: Limits)
    requires LimitsOk(c)
  {
    forall i :: 0 <= i < |es| - 1 ==> MappedLen(es, i, c) < U32
  }

  lemma {:induction false} PosIsAt(es: seq<Entry>, i: nat, c: Limits)
    requires ClientOk(es, c) && i < |es| && Narrow(es, c)
    ensures Pos(es, i, c) == At(es, i, c)
  {
    hide At, MappedLen;
    FirstAt(es, c);
    if i > 0 {
      PosIsAt(es, i - 1, c);
      AtFits(es, i - 1, c);
      NextIs(es, i, c);
      assert FieldLen(es, i - 1, c) == MappedLen(es, i - 1, c);
    }
  }

  /** The addresses of `len` bytes. */
  function Bytes(addr: int, len: int): (r: seq<int>)
    ensures |r| == if len > 0 then len else 0
    ensures forall k :: 0 <= k < |r| ==> r[k] == addr + k
    decreases if len > 0 then len else 0
  {
    if len <= 0 then [] else Bytes(addr, len - 1) + [addr + len - 1]
  }

  /** The bytes of segments, in order. */
  function SegBytes(segs: seq<Seg>): seq<int> {
    if segs == [] then [] else SegBytes(segs[..|segs| - 1]) + Bytes(segs[|segs| - 1].addr, segs[|segs| - 1].len)
  }

  /** The IOVA bytes of the client's data, in order: entry j begins at its position plus its offset in the granule. */
  function DataBytes(es: seq<Entry>, i: nat, base: int, c: Limits): seq<int>
    requires LimitsOk(c) && i <= |es|
  {
    if i == 0 then []
    else DataBytes(es, i - 1, base, c) + Bytes(base + At(es, i - 1, c) + Off(es[i - 1], c), es[i - 1].length)
  }

  /** A segment that is not too long. */
  predicate SegOk(s: Seg, c: Limits) {
    1 <= s.len <= c.maxLen
  }

  /** No segment crosses a boundary. */
  predicate NoneCrosses(segs: seq<Seg>, c: Limits)
    requires c.boundary > 0
  {
    forall k :: 0 <= k < |segs| ==> segs[k].addr % c.boundary + segs[k].len <= c.boundary
  }

  lemma BytesJoin(addr: int, m: int, n: int)
    requires 0 <= m && 0 <= n
    ensures Bytes(addr, m) + Bytes(addr + m, n) == Bytes(addr, m + n)
  {
  }

  lemma SegBytesPush(segs: seq<Seg>, s: Seg)
    ensures SegBytes(segs + [s]) == SegBytes(segs) + Bytes(s.addr, s.len)
  {
    assert (segs + [s])[..|segs|] == segs;
  }

  /** Joining adds the bytes at the end. */
  lemma SegBytesJoin(segs: seq<Seg>, len: int)
    requires segs != [] && segs[|segs| - 1].len >= 0 && len >= 0
    ensures var l := segs[|segs| - 1];
            SegBytes(segs[..|segs| - 1] + [Seg(l.addr, l.len + len)]) == SegBytes(segs) + Bytes(l.addr + l.len, len)
  {
    var front, l := segs[..|segs| - 1], segs[|segs| - 1];
    SegBytesPush(front, Seg(l.addr, l.len + len));
    SegBytesPush(front, l);
    assert segs == front + [l];
    BytesJoin(l.addr, l.len, len);
    hide SegBytes, Bytes;
    assert SegBytes(front) + (Bytes(l.addr, l.len) + Bytes(l.addr + l.len, len))
        == (SegBytes(front) + Bytes(l.addr, l.len)) + Bytes(l.addr + l.len, len);
  }

  /** What holds of the segments after some entries, if the last of them ended at `last` and the next is at `next`. */
  ghost predicate OutOk(o: Out, first: int, last: int, next: int, data: seq<int>, c: Limits) {
    && SegBytes(o.segs) == data
    && (forall k :: 0 <= k < |o.segs| ==> SegOk(o.segs[k], c))
    && (o.segs != [] ==> o.segs[0].addr == first && o.segs[|o.segs| - 1].addr + o.segs[|o.segs| - 1].len == last)
    && (o.curLen != 0 ==> o.segs != [] && o.segs[|o.segs| - 1].len == o.curLen && last == next)
  }

  lemma StepOk(o: Out, first: int, last: int, addr: int, data: seq<int>, off: int, len: int, mapped: int, next: int, c: Limits)
    requires c.boundary > 0 && c.maxLen < U32 && OutOk(o, first, last, addr, data, c)
    requires 0 <= off && 1 <= len <= c.maxLen
    requires o.segs == [] ==> first == addr + off
    requires (off + len) % U32 >= mapped ==> next == addr + off + len
    ensures OutOk(OutStep(o, addr, off, len, mapped, c), first, addr + off + len, next, data + Bytes(addr + off, len), c)
  {
    hide SegBytes, Bytes;
    if Joins(o, addr, off, len, c) {
      JoinRoom(o, len, c);
      SegBytesJoin(o.segs, len);
    } else {
      SegBytesPush(o.segs, Seg(addr + off, len));
    }
  }

  /** A segment that is not too long leaves the room that the code computes. */
  lemma JoinRoom(o: Out, len: int, c: Limits)
    requires 0 <= o.curLen <= c.maxLen < U32 && 1 <= len && (c.maxLen - o.curLen) % U32 >= len
    ensures o.curLen + len <= c.maxLen && (o.curLen + len) % U32 == o.curLen + len
  {
  }

  /** An entry that crosses no boundary makes no segment that does. */
  lemma StepCrosses(o: Out, first: int, last: int, addr: int, data: seq<int>, off: int, len: int, mapped: int, c: Limits)
    requires c.boundary > 0 && c.maxLen < U32 && OutOk(o, first, last, addr, data, c) && NoneCrosses(o.segs, c)
    requires 0 <= off && 1 <= len && addr % c.boundary + off + len <= c.boundary
    ensures NoneCrosses(OutStep(o, addr, off, len, mapped, c).segs, c)
  {
    hide SegBytes;
    if Joins(o, addr, off, len, c) {
      JoinRoom(o, len, c);
      var l := o.segs[|o.segs| - 1];
      ModStep(l.addr, l.len, c.boundary);
    } else {
      ModStep(addr, off, c.boundary);
    }
  }

  lemma ModBase(base: int, x: int, b: int)
    requires b > 0 && base % b == 0
    ensures (base + x) % b == x % b
  {
    var p, q := base / b, x / b;
    assert base == p * b && x == q * b + x % b;
    assert base + x == (p + q) * b + x % b;
    ModUnique(base + x, b, p + q, x % b);
  }

  /** Where the next entry has to be to be joined; nothing is joined at the end. */
  function Joint(es: seq<Entry>, i: nat, c: Limits): int
    requires LimitsOk(c) && i <= |es|
  {
    if i < |es| then At(es, i, c) else LastAt(es, i, c)
  }

  /** The position after i entries: that of the next entry, or the end. */
  function NextAt(es: seq<Entry>, i: nat, c: Limits): int
    requires LimitsOk(c) && i <= |es|
  {
    if i < |es| then At(es, i, c) else End(es, i, c)
  }

  /** Where the data of the entries before i ends. */
  function LastAt(es: seq<Entry>, i: nat, c: Limits): int
    requires LimitsOk(c) && i <= |es|
  {
    if i == 0 then 0 else At(es, i - 1, c) + Off(es[i - 1], c) + es[i - 1].length
  }

  /** No entry crosses a boundary where the list is mapped. */
  ghost predicate Placed(es: seq<Entry>, base: int, c: Limits)
    requires LimitsOk(c)
  {
    forall i :: 0 <= i < |es| ==> (base + At(es, i, c)) % c.boundary + Span(es[i], c) <= c.boundary
  }

  /** A list mapped on a boundary, or inside one window, crosses none. */
  lemma PlacedOk(es: seq<Entry>, base: int, c: Limits)
    requires ClientOk(es, c) && (base % c.boundary == 0 || base % c.boundary + End(es, |es|, c) <= c.boundary)
    ensures Placed(es, base, c)
  {
    forall i | 0 <= i < |es| ensures (base + At(es, i, c)) % c.boundary + Span(es[i], c) <= c.boundary {
      AtFits(es, i, c);
      if base % c.boundary == 0 {
        ModBase(base, At(es, i, c), c.boundary);
      } else {
        EndGrows(es, i + 1, |es|, c);
        assert End(es, i + 1, c) == At(es, i, c) + Span(es[i], c);
        ModStep(base, At(es, i, c), c.boundary);
        AtFitsSpan(es, i, c);
      }
    }
  }

  lemma AtFitsSpan(es: seq<Entry>, i: nat, c: Limits)
    requires ClientOk(es, c) && i < |es|
    ensures Span(es[i], c) >= 1
  {
    AtFits(es, i, c);
    hide Span;
  }

  lemma {:induction false} EndGrows(es: seq<Entry>, i: nat, j: nat, c: Limits)
    requires ClientOk(es, c) && i <= j <= |es|
    ensures End(es, i, c) <= End(es, j, c)
    decreases j - i
  {
    if i < j {
      AtFits(es, i, c);
      EndGrows(es, i + 1, j, c);
      assert End(es, i + 1, c) == At(es, i, c) + Span(es[i], c);
      hide Span;
      AtFitsSpan(es, i, c);
    }
  }

  lemma {:induction false} OutsOk(es: seq<Entry>, i: nat, base: int, c: Limits)
    requires ClientOk(es, c) && i <= |es| && es != [] && Narrow(es, c)
    ensures OutOk(Outs(es, i, base, c), base + Off(es[0], c), base + LastAt(es, i, c), base + Joint(es, i, c),
                  DataBytes(es, i, base, c), c)
    ensures (i > 0 ==> Outs(es, i, base, c).segs != []) && |Outs(es, i, base, c).segs| <= i
    decreases i
  {
    hide OutOk, OutStep, At, Off, FieldLen, End, Span, Bytes, Outs, LastAt, Joint, DataBytes, Narrow;
    OutsCount(es, i, base, c);
    if i > 0 {
      var e, addr := es[i - 1], base + At(es, i - 1, c);
      OutsOk(es, i - 1, base, c);
      AtFits(es, i - 1, c);
      FirstAt(es, c);
      JointIs(es, i, c);
      OutsNext(es, i, base, c);
      StepOk(Outs(es, i - 1, base, c), base + Off(es[0], c), base + LastAt(es, i - 1, c), addr,
             DataBytes(es, i - 1, base, c), Off(e, c), e.length, FieldLen(es, i - 1, c), base + Joint(es, i, c), c);
      assert addr + Off(e, c) + e.length == base + LastAt(es, i, c);
    } else {
      NoOuts(es, base, c);
    }
  }

  lemma {:induction false} OutsCross(es: seq<Entry>, i: nat, base: int, c: Limits)
    requires ClientOk(es, c) && i <= |es| && es != [] && Placed(es, base, c) && Narrow(es, c)
    ensures NoneCrosses(Outs(es, i, base, c).segs, c)
    decreases i
  {
    hide OutOk, OutStep, At, Off, FieldLen, End, Span, Outs, LastAt, Joint, DataBytes, NoneCrosses, Narrow;
    if i > 0 {
      var e, addr := es[i - 1], base + At(es, i - 1, c);
      OutsCross(es, i - 1, base, c);
      OutsOk(es, i - 1, base, c);
      AtFits(es, i - 1, c);
      assert (base + At(es, i - 1, c)) % c.boundary + Span(e, c) <= c.boundary;
      OutsNext(es, i, base, c);
      StepCrosses(Outs(es, i - 1, base, c), base + Off(es[0], c), base + LastAt(es, i - 1, c), addr,
                  DataBytes(es, i - 1, base, c), Off(e, c), e.length, FieldLen(es, i - 1, c), c);
    } else {
      NothingCrosses(es, base, c);
    }
  }

  lemma NothingCrosses(es: seq<Entry>, base: int, c: Limits)
    requires LimitsOk(c)
    ensures NoneCrosses(Outs(es, 0, base, c).segs, c)
  {
  }

  /** An entry mapped with exactly the length of its data is followed at once by the next. */
  lemma JointIs(es: seq<Entry>, i: nat, c: Limits)
    requires ClientOk(es, c) && 0 < i <= |es| && Narrow(es, c)
    ensures var off, len := Off(es[i - 1], c), es[i - 1].length;
      && ((off + len) % U32 >= FieldLen(es, i - 1, c) ==> Joint(es, i, c) == At(es, i - 1, c) + off + len)
      && LastAt(es, i, c) == At(es, i - 1, c) + off + len && Joint(es, i - 1, c) == At(es, i - 1, c)
  {
    hide At, MappedLen, Off, Span;
    if i < |es| {
      AtFits(es, i - 1, c);
      NextIs(es, i, c);
      NoneLeft(Off(es[i - 1], c) + es[i - 1].length, MappedLen(es, i - 1, c));
    }
  }

  lemma NoneLeft(n: int, mapped: int)
    requires 0 <= n <= mapped < U32
    ensures n % U32 >= mapped % U32 ==> n == mapped
  {
  }

  lemma NoOuts(es: seq<Entry>, base: int, c: Limits)
    requires LimitsOk(c) && es != []
    ensures OutOk(Outs(es, 0, base, c), base + Off(es[0], c), base + LastAt(es, 0, c), base + Joint(es, 0, c),
                  DataBytes(es, 0, base, c), c)
  {
    hide At, Off;
  }

  lemma OutsNext(es: seq<Entry>, i: nat, base: int, c: Limits)
    requires ClientOk(es, c) && 0 < i <= |es| && Narrow(es, c)
    ensures var e, addr := es[i - 1], base + At(es, i - 1, c);
            && Outs(es, i, base, c)
               == OutStep(Outs(es, i - 1, base, c), addr, Off(e, c), e.length, FieldLen(es, i - 1, c), c)
            && DataBytes(es, i, base, c) == DataBytes(es, i - 1, base, c) + Bytes(addr + Off(e, c), e.length)
            && Joint(es, i - 1, c) == At(es, i - 1, c)
  {
    hide OutStep, At, Off, FieldLen, Bytes, Narrow;
    PosIsAt(es, i - 1, c);
  }

  lemma {:induction false} OutsCount(es: seq<Entry>, i: nat, base: int, c: Limits)
    requires LimitsOk(c) && i <= |es|
    ensures |Outs(es, i, base, c).segs| <= i && (i > 0 ==> Outs(es, i, base, c).segs != [])
  {
    if i > 0 {
      OutsCount(es, i - 1, base, c);
      hide At, Off, FieldLen;
    }
  }

  lemma FirstAt(es: seq<Entry>, c: Limits)
    requires LimitsOk(c) && es != []
    ensures At(es, 0, c) == 0
  {
    hide Span;
  }

  lemma NextIs(es: seq<Entry>, i: nat, c: Limits)
    requires LimitsOk(c) && 0 < i <= |es|
    ensures NextAt(es, i, c) == At(es, i - 1, c) + MappedLen(es, i - 1, c)
  {
    hide Begin, Span;
  }

  /** The range lies between two boundaries, or begins on one. */
  predicate WellPlaced(base: int, len: int, boundary: int)
    requires boundary > 0
  {
    base % boundary == 0 || base % boundary + len <= boundary
  }

  /**
   Wherever the list is mapped, the DMA segments list exactly the IOVA bytes of the data, in order, and none is longer
   than allowed, if the lengths that position the entries fit their fields. If it is well placed, none crosses a boundary.
   */
  lemma SegmentsOk(es: seq<Entry>, base: int, c: Limits)
    requires ClientOk(es, c) && Narrow(es, c)
    ensures var segs := Outs(es, |es|, base, c).segs;
            && |segs| <= |es| && (es != [] ==> segs != [])
            && SegBytes(segs) == DataBytes(es, |es|, base, c)
            && (forall k :: 0 <= k < |segs| ==> SegOk(segs[k], c))
            && (WellPlaced(base, End(es, |es|, c), c.boundary) ==> NoneCrosses(segs, c))
  {
    if es != [] {
      hide Outs, DataBytes, SegBytes, SegOk, At, Off, Placed, NoneCrosses, Narrow;
      OutsOk(es, |es|, base, c);
      if WellPlaced(base, End(es, |es|, c), c.boundary) {
        PlacedOk(es, base, c);
        OutsCross(es, |es|, base, c);
      }
    } else {
      NothingCrosses(es, base, c);
    }
  }

  /** From the first and the last DMA segment, the range that was allocated, wherever it is. */
  lemma RangeOk(es: seq<Entry>, base: int, c: Limits)
    requires ClientOk(es, c) && base % c.granule == 0 && es != [] && Narrow(es, c)
    ensures var segs := Outs(es, |es|, base, c).segs;
            && segs != []
            && segs[0].addr - segs[0].addr % c.granule == base
            && Up(segs[|segs| - 1].addr + segs[|segs| - 1].len - base, c.granule) == End(es, |es|, c)
  {
    hide Outs, DataBytes, SegBytes, SegOk, Span, Up, Narrow;
    var n := |es|;
    OutsOk(es, n, base, c);
    AtFits(es, 0, c);
    AtFits(es, n - 1, c);
    ModBase(base, Off(es[0], c), c.granule);
    ModSmall(Off(es[0], c), c.granule);
    UpShift(At(es, n - 1, c), Off(es[n - 1], c) + es[n - 1].length, c.granule);
    LastEnd(es, c);
  }

  lemma LastEnd(es: seq<Entry>, c: Limits)
    requires LimitsOk(c) && es != []
    ensures End(es, |es|, c) == At(es, |es| - 1, c) + Up(Off(es[|es| - 1], c) + es[|es| - 1].length, c.granule)
    ensures LastAt(es, |es|, c) == At(es, |es| - 1, c) + Off(es[|es| - 1], c) + es[|es| - 1].length
  {
  }

  lemma ModSmall(x: int, g: int)
    requires 0 <= x < g
    ensures x % g == x
  {
  }

  lemma UpShift(a: int, x: int, g: int)
    requires g > 0 && a % g == 0
    ensures Up(a + x, g) == a + Up(x, g)
  {
    var p, y := a / g, x + g - 1;
    assert a == p * g;
    var q := y / g;
    assert y == q * g + y % g;
    assert a + y == (p + q) * g + y % g;
    ModUnique(a + y, g, p + q, y % g);
    assert (p + q) * g == p * g + q * g;
    assert a + x + g - 1 == a + y;
  }
}
