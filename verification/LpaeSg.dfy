/** Mapping a scatterlist: runs of adjacent physical memory, greedy page sizes, and the last table kept at hand. */
module LpaeSg {
  import opened OptionType
  import opened LpaeTree
  import opened LpaeOps
  import opened LpaeFill
  import opened LpaeEmpty
  import opened LpaeLast
  import opened LpaeVacant
  import opened Lpae
  import opened LpaePgsize

  /** One entry of the list, in pages. */
  datatype Seg = Seg(pa: int, len: int)

  /** Nothing of some page size can be mapped at page p: what stands there has to be unmapped first. */
  ghost predicate Blocked(pt: PageTable, p: int)
    reads pt
  {
    exists leaf :: 1 <= leaf <= 3 && p % Size(leaf) == 0 && !Vacant(pt.mem, pt.root, pt.start, leaf, p, 1)
  }

  /** Why mapping failed at page p: something stands there, memory ran out, or the page size is above the root's level. */
  ghost predicate Failed(pt: PageTable, err: Error, p: int)
    reads pt
  {
    (err == Exists && Blocked(pt, p)) || (err == NoMemory && !pt.plenty) || (err == Invalid && pt.start == 2 && p == 0)
  }

  /** A range for which arm_lpae_pgsize picks 1G on a root of level 2: all of it, and the memory on a multiple of 1G. */
  predicate TooLarge(start: int, iova: int, pa: int, size: int) {
    start == 2 && iova == 0 && size == 0x4_0000 && pa % 0x4_0000 == 0
  }

  lemma TooLargeIff(start: int, iova: int, pa: int, size: int, mapped: int)
    requires 0 <= start <= 2 && 0 <= iova && iova + size <= Span(start) && pa >= 0 && 0 <= mapped < size
    ensures start == 2 && Pgsize(iova + mapped, pa + mapped, size - mapped) == 1 <==> mapped == 0 && TooLarge(start, iova, pa, size)
  {
    if mapped == 0 && TooLarge(start, iova, pa, size) {
      SizeOne();
    }
    hide Pgsize;
  }

  lemma SizeOne()
    ensures Size(1) == 0x4_0000
  {
  }

  /** No single page can be mapped under a block. */
  lemma BlockBlocks(pt: PageTable, p: int)
    requires pt.start == 2 && InBlock(pt.mem, pt.root, 2, p)
    ensures Blocked(pt, p)
  {
    assert p % Size(3) == 0 && !Vacant(pt.mem, pt.root, pt.start, 3, p, 1);
  }

  /** The page of an entry in use is mapped, so there is no room for it. */
  lemma InUse(pt: PageTable, t: int, i: int, iova: int)
    requires pt.Valid() && t in pt.meta && pt.meta[t].level == 3 && Covers(3, pt.meta[t].base, iova) && i == Idx(3, iova)
    requires t in pt.mem && |pt.mem[t]| == 512 && !pt.mem[t][i].Empty? && 0 <= iova < Span(pt.start)
    ensures Blocked(pt, iova)
  {
    hide Ok, CountsOk, Walk, Idx, Vacant;
    At(pt.mem, pt.meta, pt.root, pt.start, t);
    RootIn(pt.mem, pt.meta, pt.root, pt.start);
    IdxIs(3, pt.meta[t].base, iova);
    assert EntryOk(pt.meta, t, i, pt.mem[t][i]);
    WalkThrough(pt.mem, pt.meta, pt.root, pt.start, t, i, iova);
    if Vacant(pt.mem, pt.root, pt.start, 3, iova, 1) {
      VacantNone(pt.mem, pt.meta, pt.root, pt.start, pt.root, 3, iova, 1, iova);
    }
    assert iova % Size(3) == 0;
  }

  /**
   One round of arm_lpae_map_by_pgsize: through the table at hand if the page lies in it, by a full walk otherwise.
   */
  method MapRound(pt: PageTable, iova: int, pa: int, leaf: int, attr: int, ms: MapState) returns (err: Error, ms': MapState)
    requires pt.Valid() && StateOk(pt.meta, pt.root, ms, iova) && 0 <= iova < Span(pt.start) && pa >= 0
    requires 1 <= leaf <= 3 && iova % Size(leaf) == 0 && pa % Size(leaf) == 0
    modifies pt
    ensures pt.Valid()
    ensures err.Done? ==> StateOk(pt.meta, pt.root, ms', iova + 1)
    ensures err.Done? ==> forall p :: 0 <= p < Span(pt.start) ==>
      pt.Phys(p) == if iova <= p < iova + Size(leaf) then Some((pa + (p - iova), attr)) else old(pt.Phys(p))
    ensures !err.Done? ==> Failed(pt, err, iova) && forall p :: 0 <= p < Span(pt.start) ==> pt.Phys(p) == old(pt.Phys(p))
    ensures err == Invalid ==> pt.start == 2 && leaf == 1
    ensures pt.start == 2 && leaf == 1 ==> !err.Done? && (err == Exists <==> InBlock(old(pt.mem), pt.root, 2, iova))
  {
    hide Ok, CountsOk, Walk, Sub, Idx, Vacant, InBlock, Blocked;
    ms' := ms;
    if ms.State? && iova < ms.end {
      At(pt.mem, pt.meta, pt.root, pt.start, ms.table);
      SpanLast();
      InState(pt.meta, pt.root, ms, iova, leaf);
      var i := Idx(3, iova);
      PageEntryAt(pt.meta[ms.table].base, iova);
      var ok := pt.InitPte(ms.table, 3, i, 1, pa, attr, ms.q, ms.k);
      err := if ok then Done else Exists;
      if !ok { InUse(pt, ms.table, i, iova); }
      hide Span, Size;
    } else {
      RootIn(pt.mem, pt.meta, pt.root, pt.start);
      SubOne(leaf, iova);
      var n;
      err, n, ms' := pt.MapAt(pt.root, pt.start, iova, pa, leaf, 1, attr, pt.root, 0, true);
      OneRoom(leaf, iova);
      if err == Exists {
        if leaf < pt.start { BlockBlocks(pt, iova); } else { NoRoom(pt, leaf, iova); }
      }
    }
  }

  lemma OneRoom(leaf: int, iova: int)
    ensures Room(leaf, iova, 1) == 1
  {
  }

  lemma NoRoom(pt: PageTable, leaf: int, p: int)
    requires 1 <= leaf <= 3 && p % Size(leaf) == 0 && !Vacant(pt.mem, pt.root, pt.start, leaf, p, 1)
    ensures Blocked(pt, p)
  {
  }

  /** Inside the 2M of the table at hand the page size can only be 4K. */
  lemma InState(meta: Metas, root: int, ms: MapState, iova: int, leaf: int)
    requires ms.State? && StateOk(meta, root, ms, iova) && iova < ms.end && 1 <= leaf <= 3 && iova % Size(leaf) == 0
    requires meta[ms.table].base % 512 == 0
    ensures leaf == 3 && Covers(3, meta[ms.table].base, iova) && Size(3) == 1
  {
  }

  lemma PageEntryAt(base: int, iova: int)
    requires base % 512 == 0 && Covers(3, base, iova)
    ensures Idx(3, iova) + 1 <= 512 && Sub(3, base, Idx(3, iova)) == iova && Size(3) == 1
    ensures forall p :: InRun(3, base, Idx(3, iova), 1, p) <==> iova <= p < iova + 1
  {
  }

  lemma SpanLast()
    ensures Span(3) == 512
  {
  }

  /**
   arm_lpae_map_by_pgsize: the range is mapped page size by page size. What is reported as mapped is mapped, also when
   an error ends it early. Without access nothing is mapped but the range counts as mapped.
   */
  method MapByPgsize(pt: PageTable, iova: int, pa: int, size: int, attr: int, access: bool, ms0: MapState)
    returns (err: Error, mapped: int, ms: MapState)
    requires pt.Valid() && StateOk(pt.meta, pt.root, ms0, iova) && 0 <= iova && iova + size <= Span(pt.start) && pa >= 0 && size >= 1
    modifies pt
    ensures pt.Valid() && 0 <= mapped <= size && (err.Done? ==> mapped == size)
    ensures if err.Done? then StateOk(pt.meta, pt.root, ms, iova + size) else access && Failed(pt, err, iova + mapped)
    ensures err == Invalid ==> mapped == 0 && TooLarge(pt.start, iova, pa, size)
    ensures access && TooLarge(pt.start, iova, pa, size) ==>
      !err.Done? && mapped == 0 && (err == Exists <==> InBlock(old(pt.mem), pt.root, 2, 0))
    ensures forall p :: 0 <= p < Span(pt.start) ==>
      pt.Phys(p) == if access && iova <= p < iova + mapped then Some((pa + (p - iova), attr)) else old(pt.Phys(p))
  {
    hide Ok, CountsOk, Walk, Span, Sub, Size, Idx, Failed, InBlock, TooLarge, Pgsize;
    RootIn(pt.mem, pt.meta, pt.root, pt.start);
    err, mapped, ms := Done, 0, ms0;
    if !access {
      StateLater(pt.meta, pt.root, ms, iova, iova + size);
      return Done, size, ms;
    }
    while mapped < size
      invariant err.Done? && 0 <= mapped <= size && pt.Valid() && StateOk(pt.meta, pt.root, ms, iova + mapped)
      invariant mapped == 0 ==> pt.mem == old(pt.mem)
      invariant TooLarge(pt.start, iova, pa, size) ==> mapped == 0
      invariant forall p :: 0 <= p < Span(pt.start) ==>
        pt.Phys(p) == if iova <= p < iova + mapped then Some((pa + (p - iova), attr)) else old(pt.Phys(p))
    {
      TooLargeIff(pt.start, iova, pa, size, mapped);
      TooLargeAt(pt.start, iova, pa, size);
      var leaf := Pgsize(iova + mapped, pa + mapped, size - mapped);
      PositiveSize(leaf);
      label Before:
      err, ms := MapRound(pt, iova + mapped, pa + mapped, leaf, attr, ms);
      forall p | 0 <= p < Span(pt.start)
        ensures pt.Phys(p) ==
                if iova <= p < iova + mapped + (if err.Done? then Size(leaf) else 0) then Some((pa + (p - iova), attr)) else old(pt.Phys(p))
      {
        assert old@Before(pt.Phys(p)) == if iova <= p < iova + mapped then Some((pa + (p - iova), attr)) else old(pt.Phys(p));
      }
      if !err.Done? {
        return;
      }
      StateLater(pt.meta, pt.root, ms, iova + mapped + 1, iova + mapped + Size(leaf));
      mapped := mapped + Size(leaf);
    }
  }

  lemma TooLargeAt(start: int, iova: int, pa: int, size: int)
    ensures TooLarge(start, iova, pa, size) ==> start == 2 && iova == 0
  {
  }

  lemma PositiveSize(leaf: int)
    ensures Size(leaf) >= 1
  {
  }

  lemma StateLater(meta: Metas, root: int, ms: MapState, iova: int, later: int)
    requires StateOk(meta, root, ms, iova) && iova <= later
    ensures StateOk(meta, root, ms, later)
  {
  }

  /* The list. */

  /** The pages of the first n entries. */
  function Total(sg: seq<Seg>, n: nat): int
    requires n <= |sg|
  {
    if n == 0 then 0 else Total(sg, n - 1) + sg[n - 1].len
  }

  /** The physical page of page k of the list. */
  function PageOf(sg: seq<Seg>, n: nat, k: int): int
    requires n <= |sg|
  {
    if n == 0 then 0
    else if k < Total(sg, n - 1) then PageOf(sg, n - 1, k)
    else sg[n - 1].pa + (k - Total(sg, n - 1))
  }

  predicate ListOk(sg: seq<Seg>) {
    |sg| >= 1 && forall i :: 0 <= i < |sg| ==> sg[i].pa >= 0 && sg[i].len >= 1
  }

  lemma {:induction false} TotalGrows(sg: seq<Seg>, i: nat, j: nat)
    requires ListOk(sg) && i <= j <= |sg|
    ensures Total(sg, i) <= Total(sg, j) && (i < j ==> Total(sg, i) < Total(sg, j)) && Total(sg, i) >= 0
    decreases j
  {
    if i < j {
      TotalGrows(sg, i, j - 1);
    } else if i > 0 {
      TotalGrows(sg, i - 1, j - 1);
    }
  }

  /** A page of the first entries is the same page of the whole list. */
  lemma {:induction false} PageOfWhole(sg: seq<Seg>, i: nat, j: nat, k: int)
    requires ListOk(sg) && i <= j <= |sg| && k < Total(sg, i)
    ensures PageOf(sg, j, k) == PageOf(sg, i, k)
    decreases j
  {
    if i < j {
      TotalGrows(sg, i, j - 1);
      PageOfWhole(sg, i, j - 1, k);
    }
  }

  /** The collected run: `len` pages of the list from page `mapped` on, adjacent in physical memory. */
  ghost predicate Collected(sg: seq<Seg>, i: nat, mapped: int, pa: int, len: int)
    requires i <= |sg|
  {
    && 0 <= mapped && 0 <= len && mapped + len == Total(sg, i)
    && (forall k :: mapped <= k < mapped + len ==> PageOf(sg, i, k) == pa + (k - mapped))
    && (len > 0 ==> pa >= 0 && i >= 1 && pa + len == sg[i - 1].pa + sg[i - 1].len)
  }

  /** A new entry joins the run, or begins one. */
  lemma CollectNext(sg: seq<Seg>, i: nat, mapped: int, pa: int, len: int)
    requires ListOk(sg) && i < |sg| && Collected(sg, i, mapped, pa, len) && (len > 0 ==> sg[i].pa == pa + len)
    ensures Collected(sg, i + 1, mapped, if len > 0 then pa else sg[i].pa, len + sg[i].len)
  {
    var next: nat, pa' := i + 1, if len > 0 then pa else sg[i].pa;
    assert forall k :: mapped <= k < mapped + len + sg[i].len ==> PageOf(sg, next, k) == pa' + (k - mapped);
  }

  /** The pages of the run are those of the whole list. */
  lemma CollectedPages(sg: seq<Seg>, i: nat, mapped: int, pa: int, len: int)
    requires ListOk(sg) && i <= |sg| && Collected(sg, i, mapped, pa, len)
    ensures forall k :: mapped <= k < mapped + len ==> PageOf(sg, |sg|, k) == pa + (k - mapped)
  {
    hide Total, PageOf;
    forall k | mapped <= k < mapped + len ensures PageOf(sg, |sg|, k) == pa + (k - mapped) {
      PageOfWhole(sg, i, |sg|, k);
    }
  }

  /** The first i entries follow one another in physical memory. */
  predicate Adjacent(sg: seq<Seg>, i: int) {
    forall j :: 0 <= j < i - 1 && j + 1 < |sg| ==> sg[j].pa + sg[j].len == sg[j + 1].pa
  }

  /** A list for which the page size is above the level of the root. */
  predicate ListTooLarge(start: int, sg: seq<Seg>, iova: int)
    requires |sg| >= 1
  {
    Adjacent(sg, |sg|) && TooLarge(start, iova, sg[0].pa, Total(sg, |sg|))
  }

  /** Before anything is mapped, the run is the list from its beginning. */
  ghost predicate FromStart(sg: seq<Seg>, i: nat, mapped: int, pa: int)
    requires |sg| >= 1
  {
    mapped == 0 && 0 < i <= |sg| ==> pa == sg[0].pa && Adjacent(sg, i)
  }

  lemma StartNext(sg: seq<Seg>, i: nat, mapped: int, pa: int, len: int)
    requires ListOk(sg) && i < |sg| && FromStart(sg, i, mapped, pa) && Collected(sg, i, mapped, pa, len)
    requires (i > 0 && mapped == 0 ==> len > 0) && (len > 0 ==> sg[i].pa == pa + len) && (mapped == 0 && len == 0 ==> i == 0)
    ensures FromStart(sg, i + 1, mapped, if len > 0 then pa else sg[i].pa)
  {
    hide Total, PageOf;
  }

  /** A list without a gap is one run. */
  lemma OneRun(sg: seq<Seg>, i: nat, mapped: int, pa: int, len: int)
    requires ListOk(sg) && i < |sg| && Adjacent(sg, |sg|) && Collected(sg, i, mapped, pa, len) && len > 0
    ensures sg[i].pa == pa + len
  {
    hide Total, PageOf;
    assert sg[i - 1].pa + sg[i - 1].len == sg[i - 1 + 1].pa;
  }

  /** The run that is too large is the whole list. */
  lemma RunTooLarge(sg: seq<Seg>, i: nat, iova: int, mapped: int, pa: int, len: int, start: int)
    requires ListOk(sg) && i <= |sg| && Collected(sg, i, mapped, pa, len) && FromStart(sg, i, mapped, pa) && len > 0
    requires 0 <= iova && iova + Total(sg, |sg|) <= Span(start)
    ensures TooLarge(start, iova + mapped, pa, len) <==> i == |sg| && mapped == 0 && ListTooLarge(start, sg, iova)
  {
    hide PageOf;
    TotalGrows(sg, i, |sg|);
  }

  /**
   qcom_arm_lpae_map_sg: on success the whole list is mapped from `iova` on, page k of the list at page k of the range,
   and its total length is reported; no other translation changes. A list is refused as invalid only if the page size
   picked is above the level of the root, and such a list is never mapped.
   */
  method MapSg(pt: PageTable, sg: seq<Seg>, iova: int, attr: int, access: bool) returns (err: Error, mapped: int)
    requires pt.Valid() && ListOk(sg) && 0 <= iova && iova + Total(sg, |sg|) <= Span(pt.start)
    modifies pt
    ensures pt.Valid() && 0 <= mapped <= Total(sg, |sg|)
    ensures if err.Done? then mapped == Total(sg, |sg|) else access && Failed(pt, err, iova + mapped)
    ensures err == Invalid ==> mapped == 0 && ListTooLarge(pt.start, sg, iova)
    ensures access && ListTooLarge(pt.start, sg, iova) ==>
      !err.Done? && mapped == 0 && (err == Exists <==> InBlock(old(pt.mem), pt.root, 2, 0))
    ensures forall p :: 0 <= p < Span(pt.start) ==>
      pt.Phys(p) == if access && iova <= p < iova + mapped then Some((PageOf(sg, |sg|, p - iova), attr)) else old(pt.Phys(p))
  {
    hide Ok, CountsOk, Walk, Span, Total, PageOf, Collected, Failed, InBlock, TooLarge, ListTooLarge, Adjacent;
    var i, cur, len, pa, ms := 0, 0, 0, 0, NoState;
    err, mapped := Done, 0;
    NothingCollected(sg);
    while i <= |sg|
      invariant err.Done? && 0 <= i <= |sg| + 1 && cur == (if i < |sg| then i else |sg| - 1) && pt.Valid()
      invariant StateOk(pt.meta, pt.root, ms, iova + mapped) && 0 <= mapped <= Total(sg, |sg|)
      invariant i <= |sg| ==> Collected(sg, i, mapped, pa, len) && (i > 0 ==> len > 0)
      invariant i > |sg| ==> mapped == Total(sg, |sg|)
      invariant i <= |sg| ==> FromStart(sg, i, mapped, pa)
      invariant mapped == 0 ==> pt.mem == old(pt.mem)
      invariant access && ListTooLarge(pt.start, sg, iova) ==> i <= |sg| && mapped == 0
      invariant forall p :: 0 <= p < Span(pt.start) ==>
        pt.Phys(p) == if access && iova <= p < iova + mapped then Some((PageOf(sg, |sg|, p - iova), attr)) else old(pt.Phys(p))
      decreases |sg| + 1 - i
    {
      RunFits(sg, i, mapped, pa, len);
      if len != 0 {
        RunTooLarge(sg, i, iova, mapped, pa, len, pt.start);
        if i < |sg| && ListTooLarge(pt.start, sg, iova) { ListAdjacent(pt.start, sg, iova); OneRun(sg, i, mapped, pa, len); }
      }
      if len != 0 && sg[cur].pa != pa + len {
        CollectedPages(sg, i, mapped, pa, len);
        label Before:
        var m;
        err, m, ms := MapByPgsize(pt, iova + mapped, pa, len, attr, access, ms);
        forall p | 0 <= p < Span(pt.start)
          ensures pt.Phys(p) ==
                  if access && iova <= p < iova + mapped + m then Some((PageOf(sg, |sg|, p - iova), attr)) else old(pt.Phys(p))
        {
          assert old@Before(pt.Phys(p)) ==
                 if access && iova <= p < iova + mapped then Some((PageOf(sg, |sg|, p - iova), attr)) else old(pt.Phys(p));
        }
        mapped := mapped + m;
        if !err.Done? {
          return;
        }
        RunMapped(sg, i, mapped - len, pa, len);
        len := 0;
      }
      if i < |sg| {
        StartNext(sg, i, mapped, pa, len);
        CollectNext(sg, i, mapped, pa, len);
      }
      if len != 0 {
        len := len + sg[cur].len;
      } else {
        len := sg[cur].len;
        pa := sg[cur].pa;
      }
      i := i + 1;
      if i < |sg| {
        cur := i;
      }
    }
  }

  lemma ListAdjacent(start: int, sg: seq<Seg>, iova: int)
    requires |sg| >= 1 && ListTooLarge(start, sg, iova)
    ensures Adjacent(sg, |sg|) && start == 2 && iova == 0
  {
  }

  lemma NothingCollected(sg: seq<Seg>)
    requires ListOk(sg)
    ensures Collected(sg, 0, 0, 0, 0) && Total(sg, |sg|) >= 0
  {
    TotalGrows(sg, 0, |sg|);
  }

  /** The run lies in the list, and at the end of the list it is not continued. */
  lemma RunFits(sg: seq<Seg>, i: nat, mapped: int, pa: int, len: int)
    requires ListOk(sg) && i <= |sg| && Collected(sg, i, mapped, pa, len)
    ensures 0 <= len && mapped + len <= Total(sg, |sg|) && (len > 0 ==> pa >= 0)
    ensures i == |sg| && len > 0 ==> sg[|sg| - 1].pa != pa + len && mapped + len == Total(sg, |sg|)
  {
    TotalGrows(sg, i, |sg|);
  }

  /** After the run has been mapped nothing is collected. */
  lemma RunMapped(sg: seq<Seg>, i: nat, mapped: int, pa: int, len: int)
    requires ListOk(sg) && i <= |sg| && Collected(sg, i, mapped, pa, len)
    ensures Collected(sg, i, mapped + len, pa, 0)
  {
  }

  /** The same list mapped one page at a time, each by a full walk. */
  method MapEachPage(pt: PageTable, sg: seq<Seg>, iova: int, attr: int) returns (err: Error, mapped: int)
    requires pt.Valid() && ListOk(sg) && 0 <= iova && iova + Total(sg, |sg|) <= Span(pt.start)
    modifies pt
    ensures pt.Valid() && 0 <= mapped <= Total(sg, |sg|)
    ensures if err.Done? then mapped == Total(sg, |sg|)
            else mapped < Total(sg, |sg|) && ((err == Exists && pt.Phys(iova + mapped).Some?) || (err == NoMemory && !pt.plenty))
    ensures forall p :: 0 <= p < Span(pt.start) ==>
      pt.Phys(p) == if iova <= p < iova + mapped then Some((PageOf(sg, |sg|, p - iova), attr)) else old(pt.Phys(p))
  {
    hide Ok, CountsOk, Walk, Span, Total, PageOf, Sub, Size;
    err, mapped := Done, 0;
    NothingCollected(sg);
    SizeLast();
    RootIn(pt.mem, pt.meta, pt.root, pt.start);
    while mapped < Total(sg, |sg|)
      invariant err.Done? && 0 <= mapped <= Total(sg, |sg|) && pt.Valid()
      invariant forall p :: 0 <= p < Span(pt.start) ==>
        pt.Phys(p) == if iova <= p < iova + mapped then Some((PageOf(sg, |sg|, p - iova), attr)) else old(pt.Phys(p))
    {
      PagePositive(sg, |sg|, mapped);
      label Before:
      var n;
      err, n := pt.MapPages(iova + mapped, PageOf(sg, |sg|, mapped), 3, 1, attr, true);
      OnePage(iova + mapped);
      forall p | 0 <= p < Span(pt.start)
        ensures pt.Phys(p) ==
                if iova <= p < iova + mapped + n then Some((PageOf(sg, |sg|, p - iova), attr)) else old(pt.Phys(p))
      {
        assert old@Before(pt.Phys(p)) == if iova <= p < iova + mapped then Some((PageOf(sg, |sg|, p - iova), attr)) else old(pt.Phys(p));
      }
      if !err.Done? {
        if err == Exists {
          ghost var x :| iova + mapped <= x < iova + mapped + Room(3, iova + mapped, 1) && old@Before(pt.Phys(x)) != None;
          assert x == iova + mapped;
        }
        return;
      }
      mapped := mapped + 1;
    }
  }

  lemma SizeLast()
    ensures Size(3) == 1
  {
  }

  lemma OnePage(iova: int)
    ensures Sub(3, 0, Room(3, iova, 1)) == Room(3, iova, 1) == 1
  {
  }

  lemma {:induction false} PagePositive(sg: seq<Seg>, n: nat, k: int)
    requires ListOk(sg) && n <= |sg| && k >= 0
    ensures PageOf(sg, n, k) >= 0
  {
    if n > 0 {
      PagePositive(sg, n - 1, k);
    }
  }
}
