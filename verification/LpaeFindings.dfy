/** Calls on which the page table does not do what its callers may expect. */
module LpaeFindings {
  import opened OptionType
  import opened LpaeTree
  import opened LpaeVacant
  import opened LpaeCareless
  import opened LpaeEmpty
  import opened LpaeLast
  import opened LpaeSteps
  import opened LpaeOps
  import opened Lpae
  import opened LpaeSg

  /**
   A 2M block is mapped and its 512 pages are unmapped by one call for single pages: nothing is mapped there any more, but
   the empty table in its place keeps the block from being mapped again.
   */
  method BlockCannotReturn(pt: PageTable, iova: int, pa: int, attr: int) returns (first: Error, unmapped: int, again: Error)
    requires pt.Valid() && pt.plenty && 0 <= iova < Span(pt.start) && iova % 512 == 0 && pa >= 0 && pa % 512 == 0
    requires Vacant(pt.mem, pt.root, pt.start, 2, iova, 1)
    modifies pt
    ensures first == Done && unmapped == 512 && again == Exists
    ensures forall p :: iova <= p < iova + 512 ==> pt.Phys(p) == None
    ensures old(pt.Lean()) ==> !pt.Lean()
  {
    hide Ok, Walk, Idx, Vacant, NoEmptyLast, InBlock, Orphans, KeptOutside, Removed;
    RootIn(pt.mem, pt.meta, pt.root, pt.start);
    BlockPages(pt.start, iova);
    var m;
    ghost var n;
    first, m := pt.MapPages(iova, pa, 2, 1, attr, true);
    ghost var before := pt.mem;
    label Mapped:
    unmapped, n := pt.UnmapPages(iova, 3, 512);
    assert n < 512 ==> old@Mapped(pt.Phys(iova + n)) == None;
    WholeUnmapped(before, pt.mem, pt.root, pt.start, iova, unmapped);
    again, m := pt.MapPages(iova, pa, 2, 1, attr, true);
  }

  lemma BlockPages(start: int, iova: int)
    requires 0 <= start <= 2 && 0 <= iova < Span(start) && iova % 512 == 0
    ensures iova + 512 <= Span(start) && Room(2, iova, 1) == 1 && Room(3, iova, 512) == 512 && Sub(2, 0, 1) == 512
  {
  }

  lemma WholeUnmapped(mem: Memory, mem': Memory, root: int, start: int, lo: int, k: int)
    requires Removed(mem, mem', root, start, lo, lo + k) && 0 <= lo && lo + k <= Span(start)
    ensures forall p :: lo <= p < lo + k ==> Walk(mem', root, start, p) == None
  {
    hide Walk;
  }

  /** With page 0 alone mapped, unmapping page 1 takes the translation of page 0 away. */
  method CarelessLoses(start: int, pa: int, attr: int) returns (pt: PageTable, err: Error)
    requires 0 <= start <= 2 && pa >= 0
    ensures fresh(pt) && err == Done && pt.Shaped() && pt.start == start && pt.Phys(0) == None
  {
    hide Ok, Good, Walk, Idx, Vacant, NoEmptyLast, InBlock, MappedIn;
    pt := new PageTable(start, true);
    FirstPages(start);
    var m, k;
    ghost var n;
    err, m := pt.MapPages(0, pa, 3, 1, attr, true);
    ghost var before := pt.mem;
    forall p | 0 <= p < Span(start) ensures Walk(before, pt.root, start, p).Some? <==> p == 0 {
      assert pt.Phys(p).Some? <==> p == 0;
    }
    OnlyFirst(before, pt.root, start, 512);
    k, n := pt.UnmapPages(1, 3, 1);
    assert Walk(before, pt.root, start, 1) == None && Orphans(before, pt.root, start, 1, 1);
    ghost var p :| 0 <= p < Span(start) && !(1 <= p < 2) && Walk(pt.mem, pt.root, start, p) != Walk(before, pt.root, start, p);
  }

  lemma FirstPages(start: int)
    requires 0 <= start <= 2
    ensures 512 <= Span(start) && Room(3, 0, 1) == Room(3, 1, 1) == 1 && Region(3, 1) == 0 && Sub(3, 0, 1) == 1
    ensures Room(3, 0, 2) == 2 && Sub(3, 0, 2) == 2 && Sub(1, 0, 1) == 0x4_0000 && Size(1) == 0x4_0000
  {
  }

  lemma {:induction false} OnlyFirst(mem: Memory, root: int, start: int, n: nat)
    requires forall p :: 0 <= p < n ==> (Walk(mem, root, start, p).Some? <==> p == 0)
    ensures MappedIn(mem, root, start, 0, n) == if n == 0 then 0 else 1
  {
    hide Walk;
    if n > 0 {
      OnlyFirst(mem, root, start, n - 1);
    }
  }

  /** With a root of level 2 and two pages mapped, an unmap of 1G takes one page away and reports 1G. */
  method MoreThanUnmapped(pa: int, attr: int) returns (pt: PageTable, err: Error, unmapped: int)
    requires pa >= 0
    ensures fresh(pt) && err == Done && pt.Valid() && pt.start == 2
    ensures unmapped == 0x4_0000 && pt.Phys(0) == None && pt.Phys(1) == Some((pa + 1, attr))
  {
    hide Ok, Good, Walk, Idx, Vacant, NoEmptyLast, InBlock, Orphans, KeptOutside;
    pt := new PageTable(2, true);
    FirstPages(2);
    var m;
    ghost var n;
    err, m := pt.MapPages(0, pa, 3, 2, attr, true);
    assert pt.Phys(0).Some? && pt.Phys(1) == Some((pa + 1, attr));
    unmapped, n := pt.UnmapPages(0, 1, 1);
    assert Walk(pt.mem, pt.root, 2, 1) == Some((pa + 1, attr));
  }

  /**
   With a root of level 2, a list of 1G of memory on a multiple of 1G is refused on an empty table, although page by page
   it can be mapped.
   */
  method GigaRefused(pa: int, attr: int) returns (greedy: PageTable, refused: Error, single: PageTable, done: Error)
    requires pa >= 0 && pa % 0x4_0000 == 0
    ensures fresh(greedy) && greedy.Valid() && greedy.start == 2 && refused == Invalid
    ensures forall p :: 0 <= p < 0x4_0000 ==> greedy.Phys(p) == None
    ensures fresh(single) && single.Valid() && single.start == 2 && done == Done
    ensures forall p :: 0 <= p < 0x4_0000 ==> single.Phys(p) == Some((pa + p, attr))
  {
    hide Ok, Walk, Idx, Vacant, NoEmptyLast, InBlock, Failed, TooLarge, Adjacent;
    var sg := [Seg(pa, 0x4_0000)];
    OneSegment(pa);
    greedy := new PageTable(2, true);
    EmptyHasNoBlock(greedy);
    var m;
    refused, m := MapSg(greedy, sg, 0, attr, true);
    FailedIs(greedy, refused, m);
    single := new PageTable(2, true);
    done, m := MapEachPage(single, sg, 0, attr);
  }

  lemma OneSegment(pa: int)
    requires pa >= 0 && pa % 0x4_0000 == 0
    ensures var sg := [Seg(pa, 0x4_0000)];
      && ListOk(sg) && Total(sg, 1) == 0x4_0000 == Span(2) && ListTooLarge(2, sg, 0)
      && forall k :: 0 <= k ==> PageOf(sg, 1, k) == pa + k
  {
    var sg := [Seg(pa, 0x4_0000)];
    assert Total(sg, 0) == 0;
  }

  lemma EmptyHasNoBlock(pt: PageTable)
    requires pt.Valid() && pt.start == 2 && forall p :: 0 <= p < Span(2) ==> pt.Phys(p) == None
    ensures !InBlock(pt.mem, pt.root, 2, 0)
  {
    RootIn(pt.mem, pt.meta, pt.root, pt.start);
    assert pt.Phys(0) == None;
    At(pt.mem, pt.meta, pt.root, pt.start, pt.root);
    hide Ok;
  }

  lemma FailedIs(pt: PageTable, err: Error, m: int)
    requires pt.plenty && (!err.Done? ==> Failed(pt, err, m))
    ensures err in {Done, Exists, Invalid}
  {
  }
}
