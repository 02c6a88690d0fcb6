/** Every run of map and unmap calls against a flat map from page to physical page and attributes. */
module LpaeRun {
  import opened OptionType
  import opened LpaeTree
  import opened LpaeLast
  import opened LpaeVacant
  import opened LpaeCareless
  import opened LpaeEmpty
  import opened Lpae

  type View = imap<int, (int, int)>

  ghost function ViewOf(pt: PageTable): View
    reads pt
  {
    imap p | 0 <= p < Span(pt.start) && pt.Phys(p).Some? :: pt.Phys(p).value
  }

  datatype Op =
    | DoMap(iova: int, pa: int, leaf: int, count: int, attr: int, access: bool)
    | DoUnmap(iova: int, leaf: int, count: int)

  ghost function With(v: View, lo: int, hi: int, pa: int, attr: int): View {
    imap p | p in v || lo <= p < hi :: if lo <= p < hi then (pa + (p - lo), attr) else v[p]
  }

  ghost function Without(v: View, lo: int, hi: int): View {
    imap p | p in v && !(lo <= p < hi) :: v[p]
  }

  /** What the caller gets; a call that it must not make is skipped. */
  datatype Result = Skipped | Mapped(err: Error, mapped: int) | Unmapped(unmapped: int)

  /** An address and a page size that the driver may be called with. */
  predicate Fine(start: int, iova: int, leaf: int) {
    0 <= iova < Span(start) && 1 <= leaf <= 3 && iova % Size(leaf) == 0
  }

  /** What a call returns and does to the map. */
  ghost predicate SpecStep(start: int, plenty: bool, op: Op, res: Result, v: View, v': View) {
    match op
    case DoMap(iova, pa, leaf, count, attr, access) =>
      if Fine(start, iova, leaf) && pa >= 0 && pa % Size(leaf) == 0 then SpecMap(start, plenty, op, res, v, v')
      else res == Skipped && v' == v
    case DoUnmap(iova, leaf, count) =>
      if Fine(start, iova, leaf) && (Unit(start, leaf) == 3 && count >= 1 ==> forall p :: iova <= p < iova + Room(3, iova, count) ==> p in v)
      then exists n :: TookAway(start, plenty, op, res, v, v', n)
      else res == Skipped && v' == v
  }

  /** A map adds its pages, none of which was mapped, or nothing for one of the reasons; for single pages, -EEXIST means that one was mapped. */
  ghost predicate SpecMap(start: int, plenty: bool, op: Op, res: Result, v: View, v': View)
    requires op.DoMap?
  {
    var hi := Sub(op.leaf, op.iova, Room(op.leaf, op.iova, op.count));
    var vacant := forall p :: op.iova <= p < hi ==> p !in v;
    && res.Mapped? && (op.count < 1 ==> res.err == Invalid)
    && (match res.err
        case Done =>
          if op.access then start <= op.leaf && res.mapped == hi - op.iova && vacant && v' == With(v, op.iova, hi, op.pa, op.attr)
          else res.mapped == 0 && v' == v
        case NoMemory => res.mapped == 0 && v' == v && !plenty
        case Invalid => res.mapped == 0 && v' == v && (op.count < 1 || op.leaf < start)
        case Exists => res.mapped == 0 && v' == v && op.count >= 1 && op.access && (op.leaf == 3 ==> !vacant))
  }

  /** An unmap takes n blocks from its first on, and says so; where tables can be had it stops early only where nothing is mapped. */
  ghost predicate TookAway(start: int, plenty: bool, op: Op, res: Result, v: View, v': View, n: int)
    requires op.DoUnmap?
  {
    var unit := Unit(start, op.leaf);
    var room := Room(unit, op.iova, op.count);
    && res == Unmapped(Sub(op.leaf, 0, n)) && v' == Without(v, op.iova, Sub(unit, op.iova, n))
    && (if op.count < 1 then n == 0 else 0 <= n <= room)
    && (op.count >= 1 && op.leaf < start ==> n == 0 || n == room)
    && (op.count >= 1 && start <= op.leaf && plenty && n < room ==> forall p :: p in v ==> !InUnit(op.leaf, op.iova, n, p))
  }

  /** Page p lies in block n from `iova` on. */
  predicate InUnit(leaf: int, iova: int, n: int, p: int) {
    Sub(leaf, iova, n) <= p < Sub(leaf, iova, n) + Size(leaf)
  }

  ghost predicate SpecRun(start: int, plenty: bool, ops: seq<Op>, rs: seq<Result>, views: seq<View>) {
    && |rs| == |ops| && |views| == |ops| + 1
    && forall i :: 0 <= i < |ops| ==> SpecStep(start, plenty, ops[i], rs[i], views[i], views[i + 1])
  }

  /** The page lies in what the call may unmap. */
  predicate MayUnmap(start: int, op: Op, p: int) {
    op.DoUnmap? && op.iova <= p < Sub(Unit(start, op.leaf), op.iova, Room(Unit(start, op.leaf), op.iova, op.count))
  }

  /** A mapped page reads the same until it is unmapped, whatever else is mapped and unmapped. */
  lemma {:induction false} StaysMapped(start: int, plenty: bool, ops: seq<Op>, rs: seq<Result>, views: seq<View>, i: nat, j: nat, p: int)
    requires SpecRun(start, plenty, ops, rs, views) && i <= j <= |ops| && p in views[i]
    requires forall k :: i <= k < j ==> !MayUnmap(start, ops[k], p)
    ensures p in views[j] && views[j][p] == views[i][p]
  {
    hide Size, Span, Idx;
    if i < j {
      StaysMapped(start, plenty, ops, rs, views, i, j - 1, p);
      assert SpecStep(start, plenty, ops[j - 1], rs[j - 1], views[j - 1], views[j - 1 + 1]);
      if ops[j - 1].DoUnmap? && views[j] != views[j - 1] {
        var n :| TookAway(start, plenty, ops[j - 1], rs[j - 1], views[j - 1], views[j], n);
        SubGrows(Unit(start, ops[j - 1].leaf), ops[j - 1].iova, n, Room(Unit(start, ops[j - 1].leaf), ops[j - 1].iova, ops[j - 1].count));
      }
    }
  }

  lemma SubGrows(leaf: int, iova: int, n: int, m: int)
    ensures n <= m ==> Sub(leaf, iova, n) <= Sub(leaf, iova, m)
    ensures Sub(leaf, iova, 0) == iova
  {
  }

  lemma AddedView(pt: PageTable, v: View, mem: Memory, lo: int, hi: int, pa: int, attr: int)
    requires v == imap p | 0 <= p < Span(pt.start) && Walk(mem, pt.root, pt.start, p).Some? :: Walk(mem, pt.root, pt.start, p).value
    requires 0 <= lo && hi <= Span(pt.start)
    requires forall p :: 0 <= p < Span(pt.start) ==>
      pt.Phys(p) == if lo <= p < hi then Some((pa + (p - lo), attr)) else Walk(mem, pt.root, pt.start, p)
    ensures ViewOf(pt) == With(v, lo, hi, pa, attr)
  {
    hide Walk, Span;
  }

  lemma SameView(pt: PageTable, v: View, mem: Memory)
    requires v == imap p | 0 <= p < Span(pt.start) && Walk(mem, pt.root, pt.start, p).Some? :: Walk(mem, pt.root, pt.start, p).value
    requires forall p :: 0 <= p < Span(pt.start) ==> pt.Phys(p) == Walk(mem, pt.root, pt.start, p)
    ensures ViewOf(pt) == v
  {
    hide Walk, Span;
  }

  lemma RemovedView(pt: PageTable, v: View, mem: Memory, lo: int, hi: int)
    requires v == imap p | 0 <= p < Span(pt.start) && Walk(mem, pt.root, pt.start, p).Some? :: Walk(mem, pt.root, pt.start, p).value
    requires Removed(mem, pt.mem, pt.root, pt.start, lo, hi)
    ensures ViewOf(pt) == Without(v, lo, hi)
  {
    hide Walk, Span;
    forall p | 0 <= p < Span(pt.start) ensures pt.Phys(p) == if lo <= p < hi then None else Walk(mem, pt.root, pt.start, p) {
    }
  }

  /** The pages of a run of blocks lie in the address range. */
  lemma RunInSpan(start: int, leaf: int, iova: int, count: int)
    requires 0 <= start <= leaf <= 3 && 1 <= leaf && start <= 2 && 0 <= iova < Span(start) && iova % Size(leaf) == 0 && count >= 1
    ensures Sub(leaf, iova, Room(leaf, iova, count)) <= Span(start) && Sub(leaf, iova, Room(leaf, iova, count)) == iova + Sub(leaf, 0, Room(leaf, iova, count))
  {
    var n := Room(leaf, iova, count);
    RegionOf(leaf, iova);
    var r := Region(leaf, iova);
    IdxFrom(leaf, r, iova);
    RegionEnd2(leaf, iova - r, n) by { AlignedFrom(leaf, iova); }
    RegionInSpan(start, leaf, iova);
  }

  lemma RegionEnd2(leaf: int, x: int, n: int)
    requires 1 <= leaf <= 3 && x >= 0 && x % Size(leaf) == 0 && x / Size(leaf) + n <= 512
    ensures Sub(leaf, x, n) <= Span(leaf)
  {
    if leaf == 3 {
    } else if leaf == 2 {
    } else {
    }
  }

  lemma RegionInSpan(start: int, leaf: int, iova: int)
    requires 0 <= start <= leaf <= 3 && 1 <= leaf && start <= 2 && 0 <= iova < Span(start)
    ensures Region(leaf, iova) + Span(leaf) <= Span(start)
  {
    if start == 2 {
      if leaf == 2 { } else { }
    } else if start == 1 {
      if leaf == 1 { } else if leaf == 2 { } else { }
    } else {
      if leaf == 1 { } else if leaf == 2 { } else { }
    }
  }

  /** Whether the pages that an unmap would clear one by one are mapped. */
  method IsCareful(pt: PageTable, leaf: int, iova: int, count: int) returns (yes: bool)
    requires pt.Valid() && Fine(pt.start, iova, leaf) && count >= 1
    ensures yes <==> (Unit(pt.start, leaf) == 3 ==> forall p :: iova <= p < iova + Room(3, iova, count) ==> p in ViewOf(pt))
    ensures yes ==> pt.Careful(Unit(pt.start, leaf), iova, count)
  {
    hide Ok, Walk, Span, Idx, Room;
    if Unit(pt.start, leaf) != 3 {
      return true;
    }
    var n, p := Room(3, iova, count), iova;
    while p < iova + n
      invariant iova <= p <= iova + n
      invariant forall q :: iova <= q < p ==> q in ViewOf(pt)
    {
      if p >= Span(pt.start) {
        assert p !in ViewOf(pt);
        return false;
      }
      var r := pt.IovaToPhys(p);
      if r.None? {
        assert p !in ViewOf(pt);
        return false;
      }
      p := p + 1;
    }
    assert forall q :: iova <= q < iova + n ==> q in ViewOf(pt) && pt.Phys(q).Some?;
    yes := true;
  }

  /** One call; a call that its caller must not make is not made. */
  method Step(pt: PageTable, op: Op) returns (res: Result)
    requires pt.Valid()
    modifies pt
    ensures pt.Valid() && SpecStep(pt.start, pt.plenty, op, res, old(ViewOf(pt)), ViewOf(pt))
  {
    hide Ok, Span, Idx, Sub, Room, Walk, SpecMap, TookAway, ViewOf;
    res := Skipped;
    match op
    case DoMap(iova, pa, leaf, count, attr, access) =>
      if Fine(pt.start, iova, leaf) && pa >= 0 && pa % Size(leaf) == 0 {
        res := MapStep(pt, iova, pa, leaf, count, attr, access);
      }
    case DoUnmap(iova, leaf, count) =>
      if Fine(pt.start, iova, leaf) {
        var careful := true;
        if count >= 1 {
          careful := IsCareful(pt, leaf, iova, count);
        }
        if careful {
          res := UnmapStep(pt, iova, leaf, count);
        }
      }
  }

  method MapStep(pt: PageTable, iova: int, pa: int, leaf: int, count: int, attr: int, access: bool) returns (res: Result)
    requires pt.Valid() && Fine(pt.start, iova, leaf) && pa >= 0 && pa % Size(leaf) == 0
    modifies pt
    ensures pt.Valid() && SpecMap(pt.start, pt.plenty, DoMap(iova, pa, leaf, count, attr, access), res, old(ViewOf(pt)), ViewOf(pt))
  {
    hide Ok, Walk, Span, Idx, Sub, Size, Vacant, NoEmptyLast, InBlock, With, Room;
    ghost var v, mem, meta := ViewOf(pt), pt.mem, pt.meta;
    RootIn(mem, meta, pt.root, pt.start);
    SubOfPages(iova, Room(3, iova, count));
    var err, mapped := pt.MapPages(iova, pa, leaf, count, attr, access);
    res := Mapped(err, mapped);
    if err.Done? && access {
      RunInSpan(pt.start, leaf, iova, count);
      ghost var hi := iova + mapped;
      forall p | iova <= p < hi ensures Walk(mem, pt.root, pt.start, p) == None {
        VacantNone(mem, meta, pt.root, pt.start, pt.root, leaf, iova, Room(leaf, iova, count), p);
      }
      AddedView(pt, v, mem, iova, hi, pa, attr);
    } else {
      SameView(pt, v, mem);
      if err == Exists && leaf == 3 {
        RunInSpan(pt.start, 3, iova, count);
        forall p | iova <= p < iova + Room(3, iova, count) && p !in v ensures old(pt.Phys(p)) == None {
          assert 0 <= p < Span(pt.start);
        }
      }
    }
  }

  lemma SubOfPages(iova: int, n: int)
    ensures Sub(3, iova, n) == iova + n
  {
  }

  method UnmapStep(pt: PageTable, iova: int, leaf: int, count: int) returns (res: Result)
    requires pt.Valid() && Fine(pt.start, iova, leaf) && (count >= 1 ==> pt.Careful(Unit(pt.start, leaf), iova, count))
    modifies pt
    ensures pt.Valid()
    ensures exists n :: TookAway(pt.start, pt.plenty, DoUnmap(iova, leaf, count), res, old(ViewOf(pt)), ViewOf(pt), n)
  {
    hide Ok, Walk, Span, Idx, Sub, Size, Vacant, NoEmptyLast, InBlock, Removed, Orphans, KeptOutside, Fewer;
    ghost var v, mem := ViewOf(pt), pt.mem;
    var unmapped;
    ghost var n;
    unmapped, n := pt.UnmapPages(iova, leaf, count);
    res := Unmapped(unmapped);
    if count < 1 {
      SubGrows(Unit(pt.start, leaf), iova, 0, 0);
    } else {
      RemovedView(pt, v, mem, iova, Sub(Unit(pt.start, leaf), iova, n));
    }
    assert TookAway(pt.start, pt.plenty, DoUnmap(iova, leaf, count), res, v, ViewOf(pt), n);
  }

  /**
   Every run of calls by careful callers, with what they return, is a run of the flat map, and the counts of the level-2
   descriptors are right throughout.
   */
  method Run(pt: PageTable, ops: seq<Op>) returns (rs: seq<Result>, ghost views: seq<View>)
    requires pt.Valid()
    modifies pt
    ensures pt.Valid() && SpecRun(pt.start, pt.plenty, ops, rs, views)
    ensures views[0] == old(ViewOf(pt)) && views[|ops|] == ViewOf(pt)
  {
    hide Ok, ViewOf, SpecStep;
    rs, views := [], [ViewOf(pt)];
    for i := 0 to |ops|
      invariant pt.Valid() && |rs| == i && |views| == i + 1 && views[0] == old(ViewOf(pt)) && views[i] == ViewOf(pt)
      invariant forall k :: 0 <= k < i ==> SpecStep(pt.start, pt.plenty, ops[k], rs[k], views[k], views[k + 1])
    {
      var res := Step(pt, ops[i]);
      rs, views := rs + [res], views + [ViewOf(pt)];
    }
  }
}
