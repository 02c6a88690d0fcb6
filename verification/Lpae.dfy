/** The page table with map, unmap and iova_to_phys, updated in place. */
module Lpae {
  import opened OptionType
  import opened LpaeTree
  import opened LpaeOps
  import opened LpaeCut
  import opened LpaeFill
  import opened LpaeCount
  import opened LpaeSteps
  import opened LpaeCareless
  import opened LpaeFree
  import opened LpaeVacant
  import opened LpaeEmpty
  import opened LpaeLast

  datatype Error = Done | Exists | NoMemory | Invalid

  /** struct map_state: the last-level table last used, where its 2M end, and the descriptor that leads to it. */
  datatype MapState = NoState | State(end: int, table: int, q: int, k: int)

  /** The table in the state is one of the last level, and `iova` lies after the beginning of its pages. */
  ghost predicate StateOk(meta: Metas, root: int, ms: MapState, iova: int) {
    ms.State? ==>
      && ms.table in meta && ms.table != root && meta[ms.table].level == 3
      && meta[ms.table].parent == ms.q && meta[ms.table].index == ms.k
      && meta[ms.table].base + 512 == ms.end && meta[ms.table].base < iova
  }

  lemma NewState(mem: Memory, meta: Metas, root: int, start: int, t: int, iova: int)
    requires Ok(mem, meta, root, start) && t in meta && meta[t].level == 3 && Covers(3, meta[t].base, iova)
    ensures t != root && StateOk(meta, root, State(iova / 512 * 512 + 512, t, meta[t].parent, meta[t].index), iova + 1)
  {
    At(mem, meta, root, start, t);
    hide Ok;
  }

  lemma RootIn(mem: Memory, meta: Metas, root: int, start: int)
    requires Ok(mem, meta, root, start)
    ensures root in meta && meta[root].level == start && meta[root].base == 0 && 0 <= start <= 2
  {
  }

  lemma FillNone(mem: Memory, t: int, i: int, level: int, pa: int, attr: int)
    ensures FillMem(mem, t, i, 0, level, pa, attr) == mem
  {
    if t in mem {
      assert Fill(mem[t], i, 0, level, pa, attr) == mem[t];
    }
  }

  class PageTable {
    const root: int
    const start: int
    /** Page allocation does not fail. */
    const plenty: bool
    var mem: Memory
    var next: int
    ghost var meta: Metas

    ghost predicate Valid()
      reads this
    {
      Good(mem, meta, root, start) && forall t :: t in meta ==> t < next
    }

    /** The tables are in order, whatever their counts say. */
    ghost predicate Shaped()
      reads this
    {
      Ok(mem, meta, root, start) && forall t :: t in meta ==> t < next
    }

    /** What the driver expects of its callers: pages whose last-level entries are cleared are mapped. */
    ghost predicate Careful(unit: int, iova: int, count: int)
      reads this
    {
      unit == 3 ==> forall p :: iova <= p < iova + Room(3, iova, count) ==> Phys(p).Some?
    }

    /** All pages that an unmap is asked for, up to the end of its table, are mapped. */
    ghost predicate AllMapped(leaf: int, iova: int, count: int)
      reads this
    {
      forall p :: iova <= p < Sub(leaf, iova, Room(leaf, iova, count)) && p < Span(start) ==> Phys(p).Some?
    }

    /** Every last-level table has an entry in use. */
    ghost predicate Lean()
      reads this
    {
      NoEmptyLast(mem, meta)
    }

    /** A block covers the page. */
    ghost predicate Blocked(p: int)
      reads this
    {
      InBlock(mem, root, start, p)
    }

    /** The translation of a page: its physical page and attributes. */
    ghost function Phys(p: int): Option<(int, int)>
      reads this
    {
      Walk(mem, root, start, p)
    }

    constructor (start: int, plenty: bool)
      requires 0 <= start <= 2
      ensures Valid() && Lean() && this.start == start && this.plenty == plenty
      ensures forall p :: 0 <= p < Span(start) ==> Phys(p) == None
    {
      this.start, this.plenty, root, next := start, plenty, 0, 1;
      mem := map[0 := Empties()];
      meta := map[0 := Meta(start, 0, 0, 0)];
    }

    /** arm_lpae_iova_to_phys */
    method IovaToPhys(p: int) returns (r: Option<(int, int)>)
      requires Valid() && 0 <= p < Span(start)
      ensures r == Phys(p)
    {
      hide Ok, Idx, Span, Size, Sub;
      var t, level := root, start;
      RootIn(mem, meta, root, start);
      while level < 4
        invariant start <= level <= 4 && Phys(p) == Walk(mem, t, level, p)
        invariant level < 4 ==> t in meta && meta[t].level == level && Covers(level, meta[t].base, p)
        decreases 4 - level
      {
        At(mem, meta, root, start, t);
        IdxIs(level, meta[t].base, p);
        var e := mem[t][Idx(level, p)];
        assert EntryOk(meta, t, Idx(level, p), e);
        if e.Empty? {
          return None;
        }
        if e.Leaf? {
          return Some((e.pa + p % Size(level), e.attr));
        }
        NextCovers(meta, t, Idx(level, p), e.next, p);
        t, level := e.next, level + 1;
      }
      r := None;
    }

    /** __arm_lpae_alloc_pages: a page that is not in use, or none. */
    method AllocPage() returns (ok: bool, n: int)
      requires Valid()
      modifies this`next
      ensures Valid() && n !in meta && n < next && (plenty ==> ok)
    {
      n := next;
      next := next + 1;
      ok := *;
      ok := ok || plenty;
    }

    /**
     arm_lpae_init_pte: the entries are written if all of them are empty; the count of the table's descriptor, if it
     has one, grows by their number.
     */
    method InitPte(t: int, level: int, i: int, num: int, pa: int, attr: int, q: int, k: int) returns (ok: bool)
      requires Valid() && t in meta && meta[t].level == level && 1 <= level <= 3
      requires 0 <= i && 1 <= num && i + num <= 512 && pa >= 0 && pa % Size(level) == 0
      requires t != root ==> q == meta[t].parent && k == meta[t].index
      modifies this`mem
      ensures Valid() && (ok <==> t in old(mem) && |old(mem)[t]| == 512 && forall j :: i <= j < i + num ==> old(mem)[t][j].Empty?)
      ensures !ok ==> mem == old(mem)
      ensures ok ==> mem == Inited(old(mem), meta, root, t, i, num, pa, attr)
      ensures ok ==> forall p :: 0 <= p < Span(start) ==>
        Phys(p) == if InRun(level, meta[t].base, i, num, p) then Some((pa + (p - Sub(level, meta[t].base, i)), attr)) else old(Phys(p))
    {
      hide Ok, CountsOk, Walk, Span, Size, Sub, InRun, EntryOk, ParentOk, FillMem, AddCount;
      At(mem, meta, root, start, t);
      ghost var before := mem;
      var j := i;
      while j < i + num
        invariant i <= j <= i + num && forall x :: i <= x < j ==> mem[t][x].Empty?
      {
        if !mem[t][j].Empty? {
          return false;
        }
        j := j + 1;
      }
      j := 0;
      FillNone(before, t, i, level, pa, attr);
      while j < num
        invariant 0 <= j <= num && t in mem && |mem[t]| == 512 && mem == FillMem(before, t, i, j, level, pa, attr)
      {
        FillNext(before, t, i, j + 1, level, pa, attr);
        mem := mem[t := mem[t][i + j := Leaf(Sub(level, pa, j), attr)]];
        j := j + 1;
      }
      if t != root {
        mem := AddCount(mem, q, k, num);
      }
      InitedTrans(before, meta, root, start, t, i, num, pa, attr);
      InitedCounts(before, meta, root, start, t, i, num, pa, attr);
      ok := true;
    }

    /** The branch of __arm_lpae_map for blocks of this level. */
    method MapHere(t: int, level: int, iova: int, pa: int, count: int, attr: int, q: int, k: int, track: bool)
      returns (err: Error, n: int, ms: MapState)
      requires Valid() && t in meta && meta[t].level == level && Covers(level, meta[t].base, iova)
      requires t != root ==> q == meta[t].parent && k == meta[t].index
      requires 1 <= level <= 3 && count >= 1 && pa >= 0 && iova % Size(level) == 0 && pa % Size(level) == 0
      modifies this`mem
      ensures Valid() && err in {Done, Exists}
      ensures err.Done? <==> Vacant(old(mem), t, level, level, iova, Room(level, iova, count))
      ensures err.Done? ==> n == Room(level, iova, count) && StateOk(meta, root, ms, iova + 1)
      ensures err.Done? ==> Added(old(mem), mem, root, start, iova, Sub(level, iova, n), pa, attr)
      ensures err.Done? && UsedBut(old(mem), meta, t) ==> Lean()
      ensures !err.Done? ==> n == 0 && mem == old(mem)
    {
      hide Ok, CountsOk, Walk, Span, Size, Sub, InRun, EntryOk, Idx, Vacant, NoEmptyLast, UsedBut, Inited;
      At(mem, meta, root, start, t);
      VacantHere(mem, t, level, level, iova, Room(level, iova, count));
      var i, num := Idx(level, iova), Room(level, iova, count);
      ms := NoState;
      if track && level == 3 {
        ms := State(iova / 512 * 512 + 512, t, q, k);
        NewState(mem, meta, root, start, t, iova);
      }
      var ok := InitPte(t, level, i, num, pa, attr, q, k);
      if !ok {
        return Exists, 0, ms;
      }
      MappedRun(level, meta[t].base, iova, num);
      forall p | 0 <= p < Span(start)
        ensures Walk(mem, root, start, p) == if iova <= p < Sub(level, iova, num) then Some((pa + (p - iova), attr)) else Walk(old(mem), root, start, p)
      {
        assert Phys(p) == if InRun(level, meta[t].base, i, num, p) then Some((pa + (p - iova), attr)) else old(Phys(p));
      }
      if UsedBut(old(mem), meta, t) { InitedLean(old(mem), meta, root, start, t, i, num, pa, attr); }
      return Done, num, ms;
    }

    /** A new empty table where nothing was. */
    method AddTable(t: int, level: int, i: int, page: int)
      requires Valid() && t in meta && meta[t].level == level < 3 && 0 <= i < 512 && t in mem && |mem[t]| == 512 && mem[t][i].Empty?
      requires page !in meta && page < next
      modifies this`mem, this`meta
      ensures Valid() && SameWalk(old(mem), mem, root, start) && page in mem && mem[page] == Empties()
      ensures t in meta && meta[t] == old(meta)[t] && page in meta && meta[page] == Meta(level + 1, Sub(level, meta[t].base, i), t, i)
      ensures OneTable(old(meta), meta, page)
      ensures old(Lean()) ==> UsedBut(mem, meta, page) && (Lean() <==> level != 2)
    {
      hide Ok, CountsOk, Walk, Span, Size, Sub, NoEmptyLast, UsedBut, Used, Install, InstallMeta, Empties;
      NewTable(mem, meta, root, start, t, i, page);
      NewLean(mem, meta, t, i, page);
      mem := Install(mem, t, i, page, Empties(), 0);
      meta := InstallMeta(meta, t, i, page);
    }

    /**
     __arm_lpae_map: from table t of the given level, the blocks of level `leaf` from page `iova` on are mapped, as many
     as the last table has room for. On failure nothing is mapped. With map state, the one page mapped leaves its
     table in the state, and a block clears it.
     */
    method MapAt(t: int, level: int, iova: int, pa: int, leaf: int, count: int, attr: int, q: int, k: int, track: bool)
      returns (err: Error, n: int, ms: MapState)
      requires Valid() && (track ==> count == 1) && t in meta && meta[t].level == level && Covers(level, meta[t].base, iova)
      requires t != root ==> q == meta[t].parent && k == meta[t].index
      requires 1 <= leaf <= 3 && count >= 1 && pa >= 0 && iova % Size(leaf) == 0 && pa % Size(leaf) == 0
      modifies this`mem, this`next, this`meta
      ensures Valid()
      ensures err.Done? ==> n == Room(leaf, iova, count)
      ensures err.Done? ==> Added(old(mem), mem, root, start, iova, Sub(leaf, iova, n), pa, attr)
      ensures !err.Done? ==> n == 0 && SameWalk(old(mem), mem, root, start)
      ensures err.Done? ==> StateOk(meta, root, ms, iova + 1)
      ensures err.Done? ==> level <= leaf && Vacant(old(mem), t, level, leaf, iova, Room(leaf, iova, count))
      ensures err == Exists && level <= leaf ==> mem == old(mem) && meta == old(meta) && !Vacant(mem, t, level, leaf, iova, Room(leaf, iova, count))
      ensures (err == NoMemory ==> !plenty) && (err == Invalid ==> leaf < level)
      ensures Grown(old(meta), meta, level, leaf) && (err.Done? && leaf == 3 ==> HasLast(meta, iova))
      ensures level <= leaf && (old(Lean()) || (level == 3 && err.Done? && UsedBut(old(mem), old(meta), t))) ==> Lean()
      ensures leaf < level == 2 && old(Lean()) ==> (Lean() <==> !(err == Invalid && t in old(mem) && |old(mem)[t]| == 512 && old(mem)[t][Idx(2, iova)].Empty?))
      ensures level == 3 ==> if leaf == 3 then err in {Done, Exists} else err == Invalid && mem == old(mem) && meta == old(meta)
      ensures leaf < level ==> err == Exists ==> mem == old(mem) && meta == old(meta)
      ensures leaf < level == 2 ==> !err.Done? && (err == Exists <==> InBlock(old(mem), t, 2, iova))
      decreases 4 - level
    {
      hide Ok, CountsOk, Walk, Span, Size, Sub, InRun, EntryOk, Idx, Vacant, NoEmptyLast, UsedBut, Used, Added, SameWalk, Grown, OneTable, StateOk, HasLast, InBlock;
      At(mem, meta, root, start, t);
      BlockHere(mem, t, level, iova);
      LeanBut(mem, meta, t);
      VacantHere(mem, t, level, leaf, iova, Room(leaf, iova, count));
      var i := Idx(level, iova);
      n, ms := 0, NoState;
      SameIs(mem, root, start);
      GrownSame(meta, level, leaf);
      if leaf == level {
        err, n, ms := MapHere(t, level, iova, pa, count, attr, q, k, track);
        if leaf == 3 { HasTable(meta, t, iova); }
        return;
      }
      if level >= 3 {
        return Invalid, 0, ms;
      }
      IdxIs(level, meta[t].base, iova);
      var e := mem[t][i];
      if e.Empty? {
        var ok, page := AllocPage();
        if !ok {
          return NoMemory, 0, ms;
        }
        AddTable(t, level, i, page);
        NextCovers(meta, t, i, page, iova);
        if level < leaf { VacantNew(mem, page, level + 1, leaf, iova, Room(leaf, iova, count)); }
        ghost var mid, one := mem, meta;
        err, n, ms := MapAt(page, level + 1, iova, pa, leaf, count, attr, t, i, track);
        SameAdded(old(mem), mid, mem, root, start, iova, Sub(leaf, iova, n), pa, attr);
        GrownOn(old(meta), one, meta, page, level, leaf);
      } else if e.Table? {
        EntryNext(mem, meta, root, start, t, i);
        NextCovers(meta, t, i, e.next, iova);
        NoBlockBelow(mem, e.next, iova);
        err, n, ms := MapAt(e.next, level + 1, iova, pa, leaf, count, attr, t, i, track);
        GrownUp(old(meta), meta, level, leaf);
      } else {
        err := Exists;
      }
    }

    lemma PagesVacant(iova: int, n: int)
      requires Valid() && 0 <= iova < Span(start) && 1 <= n && Idx(3, iova) + n <= 512
      ensures Vacant(mem, root, start, 3, iova, n) <==> forall p :: iova <= p < iova + n ==> Phys(p) == None
    {
      hide Ok, CountsOk, Walk, Span, Idx, Vacant;
      VacantIff(mem, meta, root, start, iova, n);
      if Vacant(mem, root, start, 3, iova, n) {
        forall p | iova <= p < iova + n ensures Phys(p) == None {
          assert Walk(mem, root, start, p) == None;
        }
      } else {
        var p :| iova <= p < iova + n && Walk(mem, root, start, p) != None;
        assert Phys(p) != None;
      }
    }

    /**
     qcom_arm_lpae_map_pages, for a page size, an IOVA and a physical address within the limits: on success exactly
     the reported range is mapped to consecutive physical pages, on failure nothing changes. Without read or write
     access nothing is done.
     */
    method MapPages(iova: int, pa: int, leaf: int, count: int, attr: int, access: bool) returns (err: Error, mapped: int)
      requires Valid() && 0 <= iova < Span(start) && 1 <= leaf <= 3 && pa >= 0
      requires iova % Size(leaf) == 0 && pa % Size(leaf) == 0
      modifies this`mem, this`next, this`meta
      ensures Valid() && (count < 1 ==> err == Invalid) && (count >= 1 && !access ==> err == Done)
      ensures err.Done? && access ==> mapped == Sub(leaf, 0, Room(leaf, iova, count)) > 0
      ensures err.Done? && !access ==> mapped == 0
      ensures err.Done? ==> forall p :: 0 <= p < Span(start) ==>
        Phys(p) == if iova <= p < iova + mapped then Some((pa + (p - iova), attr)) else old(Phys(p))
      ensures !err.Done? ==> mapped == 0 && forall p :: 0 <= p < Span(start) ==> Phys(p) == old(Phys(p))
      ensures (err == NoMemory ==> !plenty) && (err == Invalid ==> count < 1 || leaf < start)
      ensures count >= 1 && access && start <= leaf && err in {Done, Exists} ==>
        (err.Done? <==> Vacant(old(mem), root, start, leaf, iova, Room(leaf, iova, count)))
      ensures start <= leaf && err == Exists ==> mem == old(mem) && meta == old(meta)
      ensures start <= leaf && old(Lean()) ==> Lean()
      ensures leaf < start && old(Lean()) ==>
        (Lean() <==> !(err == Invalid && count >= 1 && access && root in old(mem) && |old(mem)[root]| == 512 && old(mem)[root][Idx(2, iova)].Empty?))
      ensures err.Done? && access ==> start <= leaf && (Blocked(iova) <==> leaf < 3)
      ensures count >= 1 && access && leaf == 3 && err in {Done, Exists} ==>
        (err.Done? <==> forall p :: iova <= p < iova + Room(3, iova, count) ==> old(Phys(p)) == None)
    {
      hide Ok, CountsOk, Walk, Span, Size, Idx, Vacant, NoEmptyLast, InBlock, HasLast;
      if count < 1 {
        return Invalid, 0;
      }
      if !access {
        return Done, 0;
      }
      RootIn(mem, meta, root, start);
      if leaf == 3 { PagesVacant(iova, Room(3, iova, count)); }
      var n, ms;
      err, n, ms := MapAt(root, start, iova, pa, leaf, count, attr, root, 0, false);
      mapped := if err.Done? then Sub(leaf, 0, n) else 0;
      forall p | 0 <= p < Span(start)
        ensures Phys(p) == if iova <= p < iova + mapped then Some((pa + (p - iova), attr)) else old(Phys(p))
      {
        assert Walk(mem, root, start, p) ==
               if iova <= p < iova + mapped then Some((pa + (p - iova), attr)) else Walk(old(mem), root, start, p);
      }
      if err.Done? && leaf == 3 {
        RootIn(mem, meta, root, start);
        LastNoBlock(mem, meta, root, start, root, iova);
      } else if err.Done? {
        NoLastYet(old(mem), old(meta), meta, root, start, leaf, iova, Room(leaf, iova, count));
        assert Phys(iova).Some?;
        BlockIff(mem, meta, root, start, root, iova);
      }
    }

    /**
     __arm_lpae_free_pgtable: the table and all tables below it are given back. `g` is the page table before the
     entry that led to it was cleared.
     */
    method FreeTable(t: int, level: int, ghost g: Memory)
      requires Ok(g, meta, root, start) && t in meta && meta[t].level == level
      requires forall x :: x in meta && Within(meta, x, level, meta[t].base) ==> x in mem && x in g && mem[x] == g[x]
      modifies this`mem
      ensures mem == Without(old(mem), meta, level, meta[t].base, meta[t].base + Span(level))
      decreases 4 - level
    {
      hide Ok, Span, Size, Sub, Without, EntryOk;
      ghost var before, m := mem, meta[t];
      At(g, meta, root, start, t);
      SpanPositive(level);
      if level < 3 {
        var i := 0;
        WithoutNone(before, meta, m.level, m.base);
        while i < 512
          invariant 0 <= i <= 512 && mem == Without(before, meta, level + 1, m.base, Sub(level, m.base, i))
        {
          StillThere(before, meta, t, level, i);
          if mem[t][i].Table? {
            var n := mem[t][i].next;
            EntryNext(g, meta, root, start, t, i);
            WithoutNext(before, meta, t, i, n);
            BelowStill(before, meta, g, t, i, n);
            FreeTable(n, level + 1, g);
          } else {
            NothingBelow(g, before, meta, root, start, t, i);
          }
          i := i + 1;
        }
        SubWhole(level, m.base);
      } else {
        WithoutLast(g, before, meta, root, start, t);
      }
      WithoutAll(g, before, meta, root, start, t);
      mem := mem - {t};
    }

    /** An entry set to zero, and the tables below it freed: its pages are unmapped, all others stay. */
    method ClearSlot(t: int, level: int, i: int)
      requires Valid() && t in meta && meta[t].level == level && 0 <= i < 512 && level < 3
      modifies this`mem, this`meta
      ensures Valid() && t in meta && meta[t] == old(meta)[t]
      ensures forall p :: 0 <= p < Span(start) ==> Phys(p) == if InEntry(meta, t, i, p) then None else old(Phys(p))
      ensures Pruned(old(mem), old(meta), mem, meta, t)
    {
      hide Ok, CountsOk, Walk, Span, Size, Sub, EntryOk, Cut, Without, CutMeta;
      At(mem, meta, root, start, t);
      ghost var g, m := mem, meta;
      var pte := mem[t][i];
      mem := WriteEntry(mem, t, i, Empty);
      if pte.Table? {
        EntryNext(g, m, root, start, t, i);
        CutIsWithout(g, m, root, start, t, i);
        BelowSame(g, m, root, start, t, i);
        FreeTable(pte.next, level + 1, g);
        CutGood(g, m, root, start, t, i);
        CutKeys(g, m, root, start, t, i);
        CutHas(g, m, t, i, t);
        CutPruned(g, m, root, start, t, i);
        meta := CutMeta(meta, t, i);
        forall p | 0 <= p < Span(start)
          ensures Phys(p) == if InEntry(m, t, i, p) then None else Walk(g, root, start, p)
        {
          CutTrans(g, m, root, start, t, i, p);
        }
      } else {
        EmptiedGood(g, m, root, start, t, i);
      }
    }

    /**
     The branch of __arm_lpae_unmap for entries of the last level under a level-2 descriptor. For a careful caller
     exactly these pages are unmapped, and their table is freed exactly when it has become empty. For any caller the
     other pages keep their translations if and only if the unmap makes no orphans.
     */
    method UnmapLeaves(t: int, i: int, iova: int, count: int) returns (n: int)
      requires Valid() && t in meta && meta[t].level == 2 && 0 <= i < 512 && count >= 1
      requires t in mem && |mem[t]| == 512 && mem[t][i].Table? && InEntry(meta, t, i, iova)
      modifies this`mem, this`meta
      ensures Shaped() && n == Room(3, iova, count)
      ensures mem == UnmapLast(old(mem), old(meta), t, i, Idx(3, iova), n)
        && meta == UnmapLastMeta(old(mem), old(meta), t, i, Idx(3, iova), n)
      ensures Fewer(old(mem), mem, root, start, iova, iova + n)
      ensures KeptOutside(old(mem), mem, root, start, iova, iova + n) <==> !Orphans(old(mem), root, start, iova, n)
      ensures old(Careful(3, iova, count)) ==> Valid() && Removed(old(mem), mem, root, start, iova, iova + n)
      ensures old(Careful(3, iova, count)) && old(Lean()) ==> Lean()
      ensures old(Careful(3, iova, count)) ==>
        var table := old(mem)[t][i].next;
        table in old(mem) && (table !in mem <==> forall j :: 0 <= j < 512 ==> Left(old(mem), table, Idx(3, iova), n, j).Empty?)
    {
      hide Ok, CountsOk, Walk, Span, Size, Sub, EntryOk, Cut, CutMeta, Idx, Cleared, InRun, Orphans, Left, NoEmptyLast, Fewer, KeptOutside, Removed;
      ghost var g, m := mem, meta;
      var table := mem[t][i].next;
      var u, num := Idx(3, iova), Room(3, iova, count);
      NextLevel(mem, meta, root, start, t, i);
      LastEffect(g, m, root, start, t, i, iova, num);
      LastOk(g, m, root, start, t, i, u, num);
      if Careful(3, iova, count) {
        forall p | iova <= p < iova + num ensures Walk(g, root, start, p).Some? {
          assert Phys(p).Some?;
        }
        LastCarefulEffect(g, m, root, start, t, i, iova, num);
      }
      ClearedTrans(g, m, root, start, t, i, u, num);
      ClearedHas(g, t, i, table, u, num);
      mem := AddCount(ClearMem(mem, table, u, num), t, i, -num);
      ClearedIs(g, t, i, table, u, num);
      if mem[t][i].cnt == 0 {
        ghost var h := mem;
        EntryNext(h, m, root, start, t, i);
        mem := WriteEntry(mem, t, i, Empty);
        CutIsWithout(h, m, root, start, t, i);
        BelowSame(h, m, root, start, t, i);
        FreeTable(table, 3, h);
        meta := CutMeta(meta, t, i);
      }
      assert meta == UnmapLastMeta(g, m, t, i, u, num);
      n := num;
    }

    /** Where an unmap stops short there was nothing to unmap, or no page for a table. */
    ghost predicate Stopped(leaf: int, iova: int, n: int)
      reads this
    {
      !plenty || forall p :: Sub(leaf, iova, n) <= p < Sub(leaf, iova, n) + Size(leaf) && p < Span(start) ==> Phys(p) == None
    }

    /** The branch of __arm_lpae_unmap for blocks of this level: entry by entry, up to the first that is empty. */
    method UnmapBlocks(t: int, level: int, iova: int, count: int) returns (n: int)
      requires Valid() && t in meta && meta[t].level == level && 1 <= level < 3 && count >= 1
      requires Covers(level, meta[t].base, iova) && iova % Size(level) == 0
      modifies this`mem, this`meta
      ensures Valid() && 0 <= n <= Room(level, iova, count)
      ensures Removed(old(mem), mem, root, start, iova, Sub(level, iova, n))
      ensures n < Room(level, iova, count) ==> old(Stopped(level, iova, n))
      ensures old(Lean()) ==> Lean()
    {
      hide Ok, CountsOk, Walk, Span, Size, Sub, EntryOk, Idx, NoEmptyLast, Pruned;
      At(mem, meta, root, start, t);
      var i, num := Idx(level, iova), Room(level, iova, count);
      ghost var m := meta[t];
      SubZero(level, iova);
      n := 0;
      while n < num
        invariant 0 <= n <= num && Valid() && t in meta && meta[t] == m && (old(Lean()) ==> Lean())
        invariant forall p :: 0 <= p < Span(start) ==> Phys(p) == if iova <= p < Sub(level, iova, n) then None else old(Phys(p))
      {
        At(mem, meta, root, start, t);
        BlockRun(level, m.base, iova, n);
        if mem[t][i + n].Empty? {
          forall p | Sub(level, iova, n) <= p < Sub(level, iova, n) + Size(level) && p < Span(start) ensures old(Phys(p)) == None {
            WalkThrough(mem, meta, root, start, t, i + n, p);
            assert Phys(p) == old(Phys(p));
          }
          break;
        }
        SpanPositive(level);
        label Before:
        ClearSlot(t, level, i + n);
        if old@Before(Lean()) { PrunedUsed(old@Before(mem), old@Before(meta), mem, meta, t); }
        forall p | 0 <= p < Span(start)
          ensures Phys(p) == if iova <= p < Sub(level, iova, n + 1) then None else old(Phys(p))
        {
          assert old@Before(Phys(p)) == if iova <= p < Sub(level, iova, n) then None else old(Phys(p));
        }
        n := n + 1;
      }
      forall p | 0 <= p < Span(start)
        ensures Walk(mem, root, start, p) == if iova <= p < Sub(level, iova, n) then None else Walk(old(mem), root, start, p)
      {
        assert Phys(p) == if iova <= p < Sub(level, iova, n) then None else old(Phys(p));
      }
    }

    /**
     __arm_lpae_unmap from table t on: blocks of level `leaf` from page `iova` on. A block size above the level of t is
     taken for single pages.
     */
    method UnmapAt(t: int, level: int, iova: int, leaf: int, count: int) returns (n: int)
      requires Valid() && t in meta && meta[t].level == level && Covers(level, meta[t].base, iova) && (level < 3 || leaf < 3)
      requires 1 <= leaf <= 3 && count >= 1 && iova % Size(leaf) == 0
      modifies this`mem, this`next, this`meta
      ensures Shaped() && 0 <= n <= Room(Unit(level, leaf), iova, count)
      ensures level <= leaf && n < Room(leaf, iova, count) ==> old(Stopped(leaf, iova, n))
      ensures leaf < level && 0 < n ==> n == Room(3, iova, count) && !InBlock(old(mem), t, level, iova)
      ensures leaf < level == 2 && n == 0 && old(Phys(iova)).Some? ==> InBlock(old(mem), t, level, iova)
      ensures Fewer(old(mem), mem, root, start, iova, Sub(Unit(level, leaf), iova, n))
      ensures old(Careful(Unit(level, leaf), iova, count)) ==>
        Valid() && Removed(old(mem), mem, root, start, iova, Sub(Unit(level, leaf), iova, n))
      ensures level < 3 && Unit(level, leaf) == 3 ==>
        (KeptOutside(old(mem), mem, root, start, iova, iova + Room(3, iova, count)) <==> !Orphans(old(mem), root, start, iova, Room(3, iova, count)))
      ensures old(Careful(Unit(level, leaf), iova, count)) && old(Lean()) ==>
        (Lean() <==> !(leaf == 3 && 0 < n && Room(3, iova, count) == 512 && InBlock(old(mem), t, level, iova)))
      ensures leaf == 3 && 0 < n && InBlock(old(mem), t, level, iova) ==> HasLast(meta, iova)
      ensures level == 3 ==> n == 0 && mem == old(mem) && meta == old(meta)
      decreases 4 - level, 0
    {
      hide Ok, CountsOk, Walk, Span, Size, Sub, EntryOk, Idx, NoEmptyLast, Fewer, KeptOutside, Removed, Orphans, InBlock, HasLast;
      At(mem, meta, root, start, t);
      IdxIs(level, meta[t].base, iova);
      ghost var u := Unit(level, leaf);
      ghost var g, m := mem, meta;
      var i := Idx(level, iova);
      var e := mem[t][i];
      SubZero(u, iova);
      BlockHere(mem, t, level, iova);
      if e.Empty? {
        n := 0;
        NothingRemoved(mem, root, start, iova, iova + Room(3, iova, count));
        if level <= leaf { NothingThere(mem, meta, root, start, t, i, leaf, iova); }
        WalkThrough(mem, meta, root, start, t, i, iova);
        if level < 3 { NoOrphans(mem, meta, root, start, t, i, iova, Room(3, iova, count)); }
      } else if leaf == level {
        n := UnmapBlocks(t, level, iova, count);
        RemovedIs(g, mem, root, start, iova, Sub(level, iova, n), Sub(level, iova, n));
      } else if level == 2 && e.Table? {
        n := UnmapLeaves(t, i, iova, count);
        LastSub(iova, n);
        NoBlockBelow(g, e.next, iova);
      } else if e.Leaf? {
        n := SplitUnmap(t, level, i, iova, leaf, count);
      } else {
        EntryNext(mem, meta, root, start, t, i);
        NextCovers(meta, t, i, e.next, iova);
        n := UnmapAt(e.next, level + 1, iova, leaf, count);
      }
    }

    /** The new table in the place of a block, without the `num` entries from u. */
    method SplitBlock(t: int, level: int, i: int, page: int, u: int, num: int)
      requires Valid() && t in meta && meta[t].level == level < 3 && 0 <= i < 512 && t in mem && |mem[t]| == 512 && mem[t][i].Leaf?
      requires page !in meta && page < next && 0 <= u && 0 <= num && u + num <= 512
      modifies this`mem, this`meta
      ensures Valid() && meta == InstallMeta(old(meta), t, i, page)
      ensures page in mem && |mem[page]| == 512 && (num == 0 ==> forall j :: 0 <= j < 512 ==> mem[page][j].Leaf?)
      ensures forall p :: 0 <= p < Span(start) ==>
        Walk(mem, root, start, p) ==
        if InEntry(old(meta), t, i, p) && u <= Idx(level + 1, p) < u + num then None else Walk(old(mem), root, start, p)
      ensures old(Lean()) ==> (Lean() <==> level < 2 || num < 512)
    {
      hide Ok, CountsOk, Walk, Span, Size, Sub, EntryOk, Idx, InEntry, NoEmptyLast, Used;
      ghost var g, m := mem, meta;
      var es, cnt := SplitTable(level + 1, mem[t][i], u, num);
      SplitGood(g, m, root, start, t, i, page, u, num);
      InstalledUsed(g, m, t, i, page, es, cnt);
      SplitUsed(level + 1, mem[t][i].pa, mem[t][i].attr, u, num);
      mem := Install(mem, t, i, page, es, cnt);
      meta := InstallMeta(meta, t, i, page);
    }

    /**
     arm_lpae_split_blk_unmap: a table takes the place of the block, without the part to be unmapped. There is no level
     below the last.
     */
    method SplitUnmap(t: int, level: int, i: int, iova: int, leaf: int, count: int) returns (n: int)
      requires Valid() && t in meta && meta[t].level == level && 0 <= i < 512 && InEntry(meta, t, i, iova)
      requires t in mem && |mem[t]| == 512 && mem[t][i].Leaf?
      requires 1 <= leaf <= 3 && leaf != level && count >= 1 && iova % Size(leaf) == 0
      modifies this`mem, this`next, this`meta
      ensures Valid() && 0 <= n <= Room(Unit(level, leaf), iova, count)
      ensures level < leaf && n < Room(leaf, iova, count) ==> old(Stopped(leaf, iova, n))
      ensures leaf < level ==> n == 0
      ensures Fewer(old(mem), mem, root, start, iova, Sub(Unit(level, leaf), iova, n))
      ensures Removed(old(mem), mem, root, start, iova, Sub(Unit(level, leaf), iova, n))
      ensures level < 3 && Unit(level, leaf) == 3 ==>
        (KeptOutside(old(mem), mem, root, start, iova, iova + Room(3, iova, count)) <==> !Orphans(old(mem), root, start, iova, Room(3, iova, count)))
      ensures old(Lean()) ==> (Lean() <==> !(leaf == 3 && 0 < n && Room(3, iova, count) == 512))
      ensures leaf == 3 && 0 < n ==> HasLast(meta, iova)
      ensures level == 3 ==> n == 0 && mem == old(mem) && meta == old(meta)
      decreases 4 - level - 1, 1
    {
      hide Ok, CountsOk, Walk, Span, Size, Sub, EntryOk, Idx, InEntry, NoEmptyLast, Used, Fewer, KeptOutside, Removed, Orphans, InBlock, HasLast;
      SubZero(Unit(level, leaf), iova);
      ghost var g, m := mem, meta;
      ghost var end := iova + Room(3, iova, count);
      At(mem, meta, root, start, t);
      NothingRemoved(mem, root, start, iova, end);
      if level < 3 { BlockNoOrphans(g, m, root, start, t, i, iova, Room(3, iova, count)); }
      if level == 3 {
        return 0;
      }
      LeafAt(g, m, root, start, t, i);
      var ok, page := AllocPage();
      if !ok {
        return 0;
      }
      var u, num := 0, 0;
      if leaf == level + 1 {
        u, num := Idx(leaf, iova), Room(leaf, iova, count);
      }
      SplitBlock(t, level, i, page, u, num);
      NewCovers(m, t, i, page, iova);
      if leaf == level + 1 {
        SplitRemoved(g, m, root, start, t, i, leaf, iova, num, mem);
        if leaf == 3 { HasTable(meta, page, iova); LastSub(iova, num); }
        RemovedIs(g, mem, root, start, iova, Sub(leaf, iova, num), if leaf == 3 then end else Sub(leaf, iova, num));
        return num;
      }
      assert SameWalk(g, mem, root, start);
      ghost var mid := mem;
      BlockCareful(g, m, root, start, t, i, iova, count);
      BlockHere(mem, page, level + 1, iova);
      label Whole:
      n := UnmapAt(page, level + 1, iova, leaf, count);
      LastSub(iova, n);
      SameRemoved(g, mid, mem, root, start, iova, iova + n, end);
      if plenty && level < leaf && n < Room(leaf, iova, count) {
        BlockAfter(g, m, root, start, t, i, leaf, iova, n);
        forall p | Sub(leaf, iova, n) <= p < Sub(leaf, iova, n) + Size(leaf) && p < Span(start) ensures old(Phys(p)) == None {
          assert old@Whole(Phys(p)) == None;
        }
      }
    }

    /** The pages of a block, up to the end of a last-level table, are mapped; splitting it changes none. */
    lemma BlockCareful(g: Memory, m: Metas, root: int, start: int, t: int, i: int, iova: int, count: int)
      requires root == this.root && start == this.start
      requires Ok(g, m, root, start) && t in m && m[t].level < 3 && 0 <= i < 512 && InEntry(m, t, i, iova) && count >= 1
      requires t in g && |g[t]| == 512 && g[t][i].Leaf? && SameWalk(g, mem, root, start)
      ensures Careful(3, iova, count)
    {
      hide Ok, Walk, Span, Size, Sub, Idx, InEntry;
      forall p | iova <= p < iova + Room(3, iova, count) ensures Phys(p).Some? {
        BlockMapped(g, m, root, start, t, i, iova, Room(3, iova, count), p);
      }
    }

    /** The entries of the new table and their number. */
    method SplitTable(level: int, blk: Entry, u: int, num: int) returns (es: seq<Entry>, cnt: int)
      requires blk.Leaf? && 0 <= u && 0 <= num && u + num <= 512
      ensures es == SplitEntries(level, blk.pa, blk.attr, u, num) && cnt == 512 - num
    {
      hide Sub;
      es, cnt := Empties(), 0;
      var j := 0;
      while j < 512
        invariant 0 <= j <= 512 && |es| == 512
        invariant forall x :: 0 <= x < 512 ==> es[x] == if x < j then SplitEntries(level, blk.pa, blk.attr, u, num)[x] else Empty
        invariant cnt == j - if j <= u then 0 else if j <= u + num then j - u else num
      {
        if !(u <= j < u + num) {
          es := es[j := Leaf(Sub(level, blk.pa, j), blk.attr)];
          cnt := cnt + 1;
        }
        j := j + 1;
      }
    }

    /**
     qcom_arm_lpae_unmap_pages, for a page size and an IOVA within the limits; n is the number of entries cleared.

     For a careful caller exactly their pages are unmapped, also where a block has to be split one or more levels down.
     If all pages asked for are mapped, exactly the reported range is unmapped if and only if the page size is not above
     the root's level or a block covers the first page (and then nothing is done). For any caller of single pages the
     other translations are kept if and only if the unmap makes no orphans. Every last-level table stays in use if and
     only if not all pages of a block are unmapped by one call for single pages.
     */
    method UnmapPages(iova: int, leaf: int, count: int) returns (unmapped: int, ghost n: int)
      requires Valid() && 0 <= iova < Span(start) && 1 <= leaf <= 3 && iova % Size(leaf) == 0
      modifies this`mem, this`next, this`meta
      ensures Shaped() && 0 <= n && unmapped == Sub(leaf, 0, n)
      ensures if count < 1 then n == 0 && mem == old(mem) && meta == old(meta) else n <= Room(Unit(start, leaf), iova, count)
      ensures count >= 1 && start <= leaf && n < Room(leaf, iova, count) ==> old(Stopped(leaf, iova, n))
      ensures start <= leaf ==> Fewer(old(mem), mem, root, start, iova, iova + unmapped)
      ensures count >= 1 && old(Careful(Unit(start, leaf), iova, count)) ==>
        Valid() && Removed(old(mem), mem, root, start, iova, Sub(Unit(start, leaf), iova, n))
      ensures count >= 1 && old(AllMapped(leaf, iova, count)) ==>
        (Removed(old(mem), mem, root, start, iova, iova + unmapped) <==> start <= leaf || old(Blocked(iova)))
      ensures count >= 1 && leaf < start && old(Phys(iova)).Some? ==> n == if old(Blocked(iova)) then 0 else Room(3, iova, count)
      ensures count >= 1 && Unit(start, leaf) == 3 ==>
        (KeptOutside(old(mem), mem, root, start, iova, iova + Room(3, iova, count)) <==> !Orphans(old(mem), root, start, iova, Room(3, iova, count)))
      ensures count >= 1 && old(Careful(Unit(start, leaf), iova, count)) && old(Lean()) ==>
        (Lean() <==> !(leaf == 3 && 0 < n && Room(3, iova, count) == 512 && old(Blocked(iova))))
      ensures leaf == 3 && 0 < n && old(Blocked(iova)) ==> !Vacant(mem, root, start, 2, iova, 1)
    {
      hide Ok, CountsOk, Walk, Span, Size, Idx, Sub, NoEmptyLast, Fewer, KeptOutside, Removed, Orphans, InBlock, HasLast, Vacant;
      n, unmapped := 0, 0;
      SubZero(leaf, 0);
      if count < 1 {
        NothingRemoved(mem, root, start, iova, iova);
        return;
      }
      RootIn(mem, meta, root, start);
      if AllMapped(leaf, iova, count) { AskedCareful(leaf, iova, count); }
      ghost var g, all := mem, AllMapped(leaf, iova, count);
      var k := UnmapAt(root, start, iova, leaf, count);
      n, unmapped := k, Sub(leaf, 0, k);
      SubFrom(leaf, iova, k);
      if all && leaf < start {
        assert old(Phys(iova)).Some? by { AskedFirst(start, leaf, iova, count); }
        if k > 0 {
          forall p | iova <= p < Sub(leaf, iova, Room(leaf, iova, count)) && p < Span(start) ensures Walk(g, root, start, p).Some? {
            assert old(Phys(p)).Some?;
          }
          Miscounted(g, mem, root, start, leaf, iova, count, k);
        } else {
          SubZero(3, iova);
        }
      }
      RootIn(mem, meta, root, start);
      if HasLast(meta, iova) { LastInWay(mem, meta, root, start, root, 2, iova, 1); }
    }

    /** Where all pages asked for are mapped, those of the entries cleared are. */
    lemma AskedCareful(leaf: int, iova: int, count: int)
      requires Shaped() && 0 <= iova < Span(start) && 1 <= leaf <= 3 && iova % Size(leaf) == 0 && count >= 1 && AllMapped(leaf, iova, count)
      ensures Careful(Unit(start, leaf), iova, count)
    {
      hide Ok, Walk;
      RootIn(mem, meta, root, start);
      forall p | iova <= p < iova + Room(3, iova, count) && Unit(start, leaf) == 3 ensures Phys(p).Some? {
        AskedHas(start, leaf, iova, count, p);
      }
    }
  }

  lemma AskedHas(start: int, leaf: int, iova: int, count: int, p: int)
    requires 0 <= start <= 2 && 0 <= iova < Span(start) && 1 <= leaf <= 3 && iova % Size(leaf) == 0 && count >= 1
    requires Unit(start, leaf) == 3 && iova <= p < iova + Room(3, iova, count)
    ensures p < Sub(leaf, iova, Room(leaf, iova, count)) && p < Span(start)
  {
    if leaf < start {
      assert iova == 0;
    } else {
      SameLeaf(iova, count, p);
      if start == 1 { Below1(iova); } else if start == 0 { Below0(iova); }
    }
  }

  lemma AskedFirst(start: int, leaf: int, iova: int, count: int)
    requires 1 <= leaf <= 3 && count >= 1
    ensures iova < Sub(leaf, iova, Room(leaf, iova, count))
  {
  }

  lemma Below1(iova: int)
    requires 0 <= iova < 0x800_0000
    ensures iova - iova % 512 + 512 <= 0x800_0000
  {
  }

  lemma Below0(iova: int)
    requires 0 <= iova < 0x10_0000_0000
    ensures iova - iova % 512 + 512 <= 0x10_0000_0000
  {
  }

  /** With a page size above the root's level more is reported than is unmapped: the page after the first 512 stays. */
  lemma Miscounted(mem: Memory, mem': Memory, root: int, start: int, leaf: int, iova: int, count: int, n: int)
    requires 0 <= start <= 2 && 1 <= leaf < start && 0 <= iova < Span(start) && iova % Size(leaf) == 0 && count >= 1
    requires 1 <= n <= Room(3, iova, count) && Removed(mem, mem', root, start, iova, Sub(3, iova, n))
    requires forall p :: iova <= p < Sub(leaf, iova, Room(leaf, iova, count)) && p < Span(start) ==> Walk(mem, root, start, p).Some?
    ensures !Removed(mem, mem', root, start, iova, iova + Sub(leaf, 0, n))
  {
    hide Walk;
    assert iova == 0;
    assert Walk(mem', root, start, 512) == Walk(mem, root, start, 512);
    assert Walk(mem, root, start, 512).Some?;
  }

  lemma VacantHere(mem: Memory, t: int, level: int, leaf: int, iova: int, n: int)
    requires t in mem && |mem[t]| == 512 && leaf <= 3 && (level == leaf ==> Idx(level, iova) + n <= 512)
    ensures level == leaf ==>
      (Vacant(mem, t, level, leaf, iova, n) <==> forall j :: Idx(level, iova) <= j < Idx(level, iova) + n ==> mem[t][j].Empty?)
    ensures level < leaf ==>
      var e := mem[t][Idx(level, iova)];
      Vacant(mem, t, level, leaf, iova, n) <==> e.Empty? || (e.Table? && Vacant(mem, e.next, level + 1, leaf, iova, n))
  {
  }

  /** The block that begins at a page of an empty entry is not mapped. */
  lemma NothingThere(mem: Memory, meta: Metas, root: int, start: int, t: int, i: int, leaf: int, iova: int)
    requires Ok(mem, meta, root, start) && t in meta && 0 <= i < 512 && InEntry(meta, t, i, iova)
    requires meta[t].level <= leaf <= 3 && 1 <= leaf && iova % Size(leaf) == 0 && t in mem && |mem[t]| == 512 && mem[t][i].Empty?
    ensures forall p :: iova <= p < iova + Size(leaf) ==> Walk(mem, root, start, p) == None
  {
    hide Ok, Walk, Span, Idx, Sub;
    At(mem, meta, root, start, t);
    SubOne(leaf, iova);
    forall p | iova <= p < iova + Size(leaf) ensures Walk(mem, root, start, p) == None {
      if meta[t].level < leaf {
        RunInEntry(meta, t, i, leaf, iova, 1, p);
      } else {
        AlignedIn(meta, t, i, iova, p);
      }
      WalkThrough(mem, meta, root, start, t, i, p);
    }
  }

  lemma BlockAfter(mem: Memory, meta: Metas, root: int, start: int, t: int, i: int, leaf: int, iova: int, n: int)
    requires Ok(mem, meta, root, start) && t in meta && 0 <= i < 512 && InEntry(meta, t, i, iova) && 0 <= n
    ensures 0 <= iova <= Sub(leaf, iova, n)
  {
    At(mem, meta, root, start, t);
  }

  lemma SubOne(leaf: int, iova: int)
    requires 1 <= leaf <= 3
    ensures Sub(leaf, iova, 1) == iova + Size(leaf)
  {
  }

  lemma AlignedIn(meta: Metas, t: int, i: int, iova: int, p: int)
    requires t in meta && 0 <= meta[t].level <= 3 && meta[t].base % Span(meta[t].level) == 0 && 0 <= i < 512
    requires InEntry(meta, t, i, iova) && iova % Size(meta[t].level) == 0 && iova <= p < iova + Size(meta[t].level)
    ensures InEntry(meta, t, i, p)
  {
    var m := meta[t];
    OffsetIn(m.level, m.base, i, iova);
  }

  lemma BlockHere(mem: Memory, t: int, level: int, p: int)
    requires t in mem && |mem[t]| == 512
    ensures InBlock(mem, t, level, p) <==>
      level < 3 && (mem[t][Idx(level, p)].Leaf? || (mem[t][Idx(level, p)].Table? && InBlock(mem, mem[t][Idx(level, p)].next, level + 1, p)))
  {
    hide Idx;
  }

  lemma NoBlockBelow(mem: Memory, t: int, p: int)
    ensures !InBlock(mem, t, 3, p)
  {
  }

  lemma NothingRemoved(mem: Memory, root: int, start: int, lo: int, end: int)
    ensures Removed(mem, mem, root, start, lo, lo) && Fewer(mem, mem, root, start, lo, lo) && KeptOutside(mem, mem, root, start, lo, end)
  {
  }

  ghost predicate SameWalk(mem: Memory, mem': Memory, root: int, start: int) {
    forall p :: 0 <= p < Span(start) ==> Walk(mem', root, start, p) == Walk(mem, root, start, p)
  }

  /** Exactly the pages from lo to before hi are mapped to the physical pages from pa on. */
  ghost predicate Added(mem: Memory, mem': Memory, root: int, start: int, lo: int, hi: int, pa: int, attr: int) {
    forall p :: 0 <= p < Span(start) ==>
      Walk(mem', root, start, p) == if lo <= p < hi then Some((pa + (p - lo), attr)) else Walk(mem, root, start, p)
  }

  lemma SameIs(mem: Memory, root: int, start: int)
    ensures SameWalk(mem, mem, root, start)
  {
  }

  lemma SameAdded(mem: Memory, mid: Memory, mem': Memory, root: int, start: int, lo: int, hi: int, pa: int, attr: int)
    requires SameWalk(mem, mid, root, start)
    ensures Added(mid, mem', root, start, lo, hi, pa, attr) ==> Added(mem, mem', root, start, lo, hi, pa, attr)
    ensures SameWalk(mid, mem', root, start) ==> SameWalk(mem, mem', root, start)
  {
    hide Walk, Span;
  }

  lemma SameRemoved(mem: Memory, mid: Memory, mem': Memory, root: int, start: int, lo: int, hi: int, end: int)
    requires SameWalk(mem, mid, root, start) && Removed(mid, mem', root, start, lo, hi) && hi <= end
    ensures Removed(mem, mem', root, start, lo, hi) && Fewer(mem, mem', root, start, lo, hi) && KeptOutside(mem, mem', root, start, lo, end)
  {
    hide Walk, Span;
  }

  lemma HasTable(meta: Metas, x: int, p: int)
    requires x in meta && meta[x].level == 3 && Covers(3, meta[x].base, p)
    ensures HasLast(meta, p)
  {
  }

  /** Pages of the last-level table region of a page lie in the entry that covers the page. */
  lemma RegionInEntry(meta: Metas, t: int, i: int, iova: int, p: int)
    requires t in meta && 0 <= meta[t].level < 3 && meta[t].base % Span(meta[t].level) == 0 && 0 <= i < 512
    requires InEntry(meta, t, i, iova) && Covers(3, Region(3, iova), p)
    ensures InEntry(meta, t, i, p)
  {
    var m := meta[t];
    RegionOf(3, iova);
    SubAligned(m.level, m.base, i);
    hide Region, Sub, Size;
    Nest(3, Region(3, iova), m.level + 1, Sub(m.level, m.base, i), iova);
  }

  lemma RegionHas(iova: int, k: int, p: int)
    requires Idx(3, iova) + k <= 512 && iova <= p < iova + k
    ensures Covers(3, Region(3, iova), p)
  {
  }

  /** Nothing is mapped under an empty entry, so nothing is lost. */
  lemma NoOrphans(mem: Memory, meta: Metas, root: int, start: int, t: int, i: int, iova: int, k: int)
    requires Ok(mem, meta, root, start) && t in meta && meta[t].level < 3 && 0 <= i < 512 && InEntry(meta, t, i, iova) && k >= 1
    requires t in mem && |mem[t]| == 512 && mem[t][i].Empty?
    ensures !Orphans(mem, root, start, iova, k)
  {
    hide Ok, Walk, Idx, Region, Sub, InEntry;
    At(mem, meta, root, start, t);
    forall p | Region(3, iova) <= p < Region(3, iova) + 512 ensures Walk(mem, root, start, p) == None {
      RegionInEntry(meta, t, i, iova, p);
      WalkThrough(mem, meta, root, start, t, i, p);
    }
    MappedNone(mem, root, start, Region(3, iova), 512);
  }

  /** The pages of a block are mapped. */
  lemma BlockMapped(mem: Memory, meta: Metas, root: int, start: int, t: int, i: int, iova: int, k: int, p: int)
    requires Ok(mem, meta, root, start) && t in meta && meta[t].level < 3 && 0 <= i < 512 && InEntry(meta, t, i, iova)
    requires t in mem && |mem[t]| == 512 && mem[t][i].Leaf? && Idx(3, iova) + k <= 512 && iova <= p < iova + k
    ensures Walk(mem, root, start, p).Some? && 0 <= p < Span(start)
  {
    RegionHas(iova, k, p);
    hide Ok, Walk, Idx, Region, Sub, Span;
    At(mem, meta, root, start, t);
    RegionInEntry(meta, t, i, iova, p);
    WalkThrough(mem, meta, root, start, t, i, p);
    SubIn(meta[t].level, meta[t].base, i);
    RootCovers(mem, meta, root, start, t, p);
  }

  lemma BlockNoOrphans(mem: Memory, meta: Metas, root: int, start: int, t: int, i: int, iova: int, k: int)
    requires Ok(mem, meta, root, start) && t in meta && meta[t].level < 3 && 0 <= i < 512 && InEntry(meta, t, i, iova)
    requires t in mem && |mem[t]| == 512 && mem[t][i].Leaf? && Idx(3, iova) + k <= 512
    ensures !Orphans(mem, root, start, iova, k)
  {
    hide Ok, Walk, Idx, Region, Sub, InEntry;
    forall p | iova <= p < iova + k ensures Walk(mem, root, start, p).Some? {
      BlockMapped(mem, meta, root, start, t, i, iova, k, p);
    }
  }

  lemma SplitRemoved(mem: Memory, meta: Metas, root: int, start: int, t: int, i: int, leaf: int, iova: int, k: int, mem': Memory)
    requires Ok(mem, meta, root, start) && t in meta && 0 <= i < 512 && meta[t].level < 3 && InEntry(meta, t, i, iova)
    requires leaf == meta[t].level + 1 && iova % Size(leaf) == 0 && 1 <= k && Idx(leaf, iova) + k <= 512
    requires forall p :: 0 <= p < Span(start) ==>
      Walk(mem', root, start, p) ==
      if InEntry(meta, t, i, p) && Idx(leaf, iova) <= Idx(leaf, p) < Idx(leaf, iova) + k then None else Walk(mem, root, start, p)
    ensures Removed(mem, mem', root, start, iova, Sub(leaf, iova, k))
  {
    hide Ok, Walk, Idx, InEntry, Sub, Span, Size;
    SplitRun(mem, meta, root, start, t, i, leaf, iova, k);
  }

  /** Cutting leaves the other tables as they are. */
  lemma CutPruned(mem: Memory, meta: Metas, root: int, start: int, t: int, i: int)
    requires Ok(mem, meta, root, start) && t in meta && t in mem && 0 <= i < |mem[t]|
    ensures Pruned(mem, meta, Cut(mem, meta, t, i), CutMeta(meta, t, i), t)
  {
    KeysIn(mem, meta, root, start);
    hide Ok, Cut, CutMeta;
    CutSub(meta, t, i);
    forall x | x in CutMeta(meta, t, i) ensures x in mem {
      CutHas(mem, meta, t, i, x);
    }
  }

  lemma ClearedIs(mem: Memory, t: int, i: int, n: int, u: int, k: int)
    ensures Cleared(mem, t, i, n, u, k) == AddCount(ClearMem(mem, n, u, k), t, i, -k)
  {
  }

  /** Mapping adds tables below the level it begins at, and none below the blocks it maps. */
  ghost predicate Grown(meta: Metas, meta': Metas, level: int, leaf: int) {
    && (forall x :: x in meta ==> x in meta' && meta'[x] == meta[x])
    && (level <= leaf < 3 ==> forall x :: x in meta' && x !in meta ==> meta'[x].level < 3)
  }

  /** One table more. */
  ghost predicate OneTable(meta: Metas, meta': Metas, n: int) {
    && (forall x :: x in meta ==> x in meta' && meta'[x] == meta[x])
    && (forall x :: x in meta' && x !in meta ==> x == n)
  }

  lemma GrownSame(meta: Metas, level: int, leaf: int)
    ensures Grown(meta, meta, level, leaf)
  {
  }

  lemma GrownOn(meta: Metas, mid: Metas, meta': Metas, n: int, level: int, leaf: int)
    requires OneTable(meta, mid, n) && n in mid && mid[n].level == level + 1 && Grown(mid, meta', level + 1, leaf) && leaf != level
    ensures Grown(meta, meta', level, leaf)
  {
  }

  lemma GrownUp(meta: Metas, meta': Metas, level: int, leaf: int)
    requires Grown(meta, meta', level + 1, leaf) && leaf != level
    ensures Grown(meta, meta', level, leaf)
  {
  }

  lemma LeanBut(mem: Memory, meta: Metas, t: int)
    ensures NoEmptyLast(mem, meta) ==> UsedBut(mem, meta, t)
  {
    hide Used;
  }

  /** A new empty table is the only one without entries, if it is one of the last level. */
  lemma NewLean(mem: Memory, meta: Metas, t: int, i: int, n: int)
    requires t in meta && meta[t].level < 3 && n !in meta && t in mem && |mem[t]| == 512 && 0 <= i < 512 && t != n
    ensures var mem', meta' := Install(mem, t, i, n, Empties(), 0), InstallMeta(meta, t, i, n);
      && (NoEmptyLast(mem, meta) ==> UsedBut(mem', meta', n) && (NoEmptyLast(mem', meta') <==> meta[t].level != 2))
      && n in meta' && meta'[n] == Meta(meta[t].level + 1, Sub(meta[t].level, meta[t].base, i), t, i)
      && n in mem' && mem'[n] == Empties() && t in mem'
      && OneTable(meta, meta', n)
  {
    hide Used, Sub;
    LeanBut(mem, meta, n);
    InstalledUsed(mem, meta, t, i, n, Empties(), 0);
    EmptyUnused();
  }

  lemma EmptyUnused()
    ensures !Used(Empties())
  {
  }

  /** Entries written put their table in use and touch no other of the last level. */
  lemma InitedLean(mem: Memory, meta: Metas, root: int, start: int, t: int, i: int, k: int, pa: int, attr: int)
    requires Ok(mem, meta, root, start) && t in meta && t in mem && |mem[t]| == 512 && 0 <= i && 1 <= k && i + k <= 512
    requires UsedBut(mem, meta, t)
    ensures NoEmptyLast(Inited(mem, meta, root, t, i, k, pa, attr), meta)
  {
    hide Ok, Sub, EntryOk, Used;
    if t != root { Descriptor(mem, meta, root, start, t); }
    At(mem, meta, root, start, t);
    var mem': Memory := Inited(mem, meta, root, t, i, k, pa, attr);
    SomeUsed(mem'[t], i);
  }

  lemma NoLastYet(mem: Memory, meta: Metas, meta': Metas, root: int, start: int, leaf: int, iova: int, n: int)
    requires Ok(mem, meta, root, start) && 0 <= iova < Span(start) && start <= leaf && 1 <= leaf <= 2 && n >= 1
    requires Vacant(mem, root, start, leaf, iova, n) && Grown(meta, meta', start, leaf)
    ensures !HasLast(meta', iova)
  {
    hide Ok, Vacant, Span;
    RootIn(mem, meta, root, start);
    if HasLast(meta', iova) {
      var x :| x in meta' && meta'[x].level == 3 && Covers(3, meta'[x].base, iova);
      assert x in meta;
      LastInWay(mem, meta, root, start, root, leaf, iova, n);
    }
  }

  /** No block of any size can be mapped over a last-level table. */
  lemma LastInWay(mem: Memory, meta: Metas, root: int, start: int, t: int, leaf: int, iova: int, n: int)
    requires Ok(mem, meta, root, start) && HasLast(meta, iova) && t in meta && meta[t].level <= leaf <= 2 && n >= 1
    requires Covers(meta[t].level, meta[t].base, iova)
    ensures !Vacant(mem, t, meta[t].level, leaf, iova, n)
    decreases 4 - meta[t].level
  {
    hide Ok, Span, Size, Sub, Idx;
    var x :| x in meta && meta[x].level == 3 && Covers(3, meta[x].base, iova);
    At(mem, meta, root, start, t);
    var i := Idx(meta[t].level, iova);
    IdxIs(meta[t].level, meta[t].base, iova);
    TableOnPath(mem, meta, root, start, t, i, x, iova);
    if meta[t].level < leaf {
      assert EntryOk(meta, t, i, mem[t][i]);
      NextCovers(meta, t, i, mem[t][i].next, iova);
      LastInWay(mem, meta, root, start, mem[t][i].next, leaf, iova, n);
    }
  }

  /** A page that is mapped without a last-level table is mapped by a block. */
  lemma BlockIff(mem: Memory, meta: Metas, root: int, start: int, t: int, p: int)
    requires Ok(mem, meta, root, start) && t in meta && meta[t].level < 3 && Covers(meta[t].level, meta[t].base, p)
    requires Walk(mem, root, start, p).Some? && !HasLast(meta, p)
    ensures InBlock(mem, t, meta[t].level, p)
    decreases 4 - meta[t].level
  {
    hide Ok, Walk, Span, Size, Sub, Idx;
    At(mem, meta, root, start, t);
    var i := Idx(meta[t].level, p);
    IdxIs(meta[t].level, meta[t].base, p);
    WalkThrough(mem, meta, root, start, t, i, p);
    TableHasLast(mem, meta, root, start, t, i, p);
    if mem[t][i].Table? {
      assert EntryOk(meta, t, i, mem[t][i]);
      NextCovers(meta, t, i, mem[t][i].next, p);
      BlockIff(mem, meta, root, start, mem[t][i].next, p);
    }
  }

  /** No block covers a page of a last-level table. */
  lemma LastNoBlock(mem: Memory, meta: Metas, root: int, start: int, t: int, p: int)
    requires Ok(mem, meta, root, start) && HasLast(meta, p) && t in meta && meta[t].level < 3 && Covers(meta[t].level, meta[t].base, p)
    ensures !InBlock(mem, t, meta[t].level, p)
    decreases 4 - meta[t].level
  {
    hide Ok, Span, Size, Sub, Idx;
    var x :| x in meta && meta[x].level == 3 && Covers(3, meta[x].base, p);
    At(mem, meta, root, start, t);
    var i := Idx(meta[t].level, p);
    IdxIs(meta[t].level, meta[t].base, p);
    TableOnPath(mem, meta, root, start, t, i, x, p);
    if meta[t].level < 2 {
      assert EntryOk(meta, t, i, mem[t][i]);
      NextCovers(meta, t, i, mem[t][i].next, p);
      LastNoBlock(mem, meta, root, start, mem[t][i].next, p);
    }
  }

  lemma TableHasLast(mem: Memory, meta: Metas, root: int, start: int, t: int, i: int, p: int)
    requires Ok(mem, meta, root, start) && t in meta && 0 <= i < 512 && InEntry(meta, t, i, p) && t in mem && |mem[t]| == 512
    ensures meta[t].level == 2 && mem[t][i].Table? ==> HasLast(meta, p)
  {
    hide Ok, Span, Size, Sub;
    At(mem, meta, root, start, t);
    if meta[t].level == 2 && mem[t][i].Table? {
      assert EntryOk(meta, t, i, mem[t][i]);
      NextCovers(meta, t, i, mem[t][i].next, p);
      HasTable(meta, mem[t][i].next, p);
    }
  }

  /** A new table has room. */
  lemma VacantNew(mem: Memory, t: int, level: int, leaf: int, iova: int, n: int)
    requires t in mem && mem[t] == Empties() && level <= leaf <= 3
    ensures Vacant(mem, t, level, leaf, iova, n)
  {
  }

  /** There is room for single pages if and only if none of them is mapped. */
  lemma VacantIff(mem: Memory, meta: Metas, root: int, start: int, iova: int, n: int)
    requires Ok(mem, meta, root, start) && 0 <= iova < Span(start) && 1 <= n && Idx(3, iova) + n <= 512
    ensures Vacant(mem, root, start, 3, iova, n) <==> forall p :: iova <= p < iova + n ==> Walk(mem, root, start, p) == None
  {
    RootIn(mem, meta, root, start);
    hide Ok, Walk, Span, Idx, Vacant;
    if Vacant(mem, root, start, 3, iova, n) {
      forall p | iova <= p < iova + n ensures Walk(mem, root, start, p) == None {
        VacantNone(mem, meta, root, start, root, 3, iova, n, p);
      }
    } else {
      var p := OccupiedSome(mem, meta, root, start, root, iova, n);
    }
  }

  /** Emptying an entry that leads to no table. */
  lemma EmptiedGood(mem: Memory, meta: Metas, root: int, start: int, t: int, i: int)
    requires Good(mem, meta, root, start) && t in meta && t in mem && |mem[t]| == 512 && 0 <= i < 512
    requires !mem[t][i].Table? && meta[t].level < 3
    ensures var mem' := WriteEntry(mem, t, i, Empty);
            && Good(mem', meta, root, start)
            && forall p :: 0 <= p < Span(start) ==>
              Walk(mem', root, start, p) == if InEntry(meta, t, i, p) then None else Walk(mem, root, start, p)
  {
    hide Ok, Walk, Span, Size, Sub, Live;
    var mem': Memory := WriteEntry(mem, t, i, Empty);
    WriteOk(mem, meta, root, start, t, i, Empty);
    KeysIn(mem, meta, root, start);
    forall x: int, j: int | x in meta && x in mem' && meta[x].level == 2 && 0 <= j < |mem'[x]| && mem'[x][j].Table?
      ensures x in mem && |mem[x]| == 512 && mem'[x][j] == mem[x][j] && mem[x][j].next in meta
    {
      NextLevel(mem, meta, root, start, x, 0);
      NextLevel(mem, meta, root, start, x, j);
    }
    CountsKept(mem, mem', meta, meta, root, start);
    forall p | 0 <= p < Span(start)
      ensures Walk(mem', root, start, p) == if InEntry(meta, t, i, p) then None else Walk(mem, root, start, p)
    {
      WriteTrans(mem, meta, root, start, t, i, Empty, p);
    }
  }

  /** Clearing an entry touches no table below it. */
  lemma BelowSame(mem: Memory, meta: Metas, root: int, start: int, t: int, i: int)
    requires Ok(mem, meta, root, start) && t in meta && t in mem && |mem[t]| == 512 && 0 <= i < 512
    requires mem[t][i].Table? && mem[t][i].next in meta && meta[mem[t][i].next].level > meta[t].level
    ensures var n, mem' := mem[t][i].next, WriteEntry(mem, t, i, Empty);
            forall x :: x in meta && Within(meta, x, meta[n].level, meta[n].base) ==> x in mem' && x in mem && mem'[x] == mem[x]
  {
    hide Span;
  }

  /** The run that was written, as pages from `iova` on. */
  lemma MappedRun(level: int, base: int, iova: int, n: int)
    requires 0 <= level <= 3 && base % Span(level) == 0 && Covers(level, base, iova) && iova % Size(level) == 0
    ensures Sub(level, base, Idx(level, iova)) == iova
    ensures forall p :: InRun(level, base, Idx(level, iova), n, p) <==> iova <= p < Sub(level, iova, n)
  {
    AlignedStart(level, base, iova);
    hide Idx, Span, Size, Sub, InRun;
    forall p ensures InRun(level, base, Idx(level, iova), n, p) <==> iova <= p < Sub(level, iova, n) {
      RunFrom(level, base, iova, n, p);
    }
  }

  lemma WithoutNone(mem: Memory, meta: Metas, level: int, base: int)
    ensures Without(mem, meta, level + 1, base, Sub(level, base, 0)) == mem
  {
  }

  lemma SubWhole(level: int, base: int)
    requires 0 <= level <= 3
    ensures Sub(level, base, 512) == base + Span(level)
  {
  }

  /** Nothing lies below a table of the last level. */
  lemma WithoutLast(g: Memory, mem: Memory, meta: Metas, root: int, start: int, t: int)
    requires Ok(g, meta, root, start) && t in meta && meta[t].level == 3
    ensures Without(mem, meta, 4, meta[t].base, meta[t].base + Span(3)) == mem
  {
    forall x | x in meta ensures meta[x].level <= 3 {
      hide Ok, Span;
      At(g, meta, root, start, x);
    }
  }

  /** The table itself is not below itself. */
  lemma StillThere(mem: Memory, meta: Metas, t: int, level: int, i: int)
    requires t in meta && meta[t].level == level && t in mem
    ensures var m := Without(mem, meta, level + 1, meta[t].base, Sub(level, meta[t].base, i)); t in m && m[t] == mem[t]
  {
    hide Sub;
  }

  /** What lies below the next entry is untouched so far. */
  lemma BelowStill(mem: Memory, meta: Metas, g: Memory, t: int, i: int, n: int)
    requires t in meta && n in meta && 0 <= meta[t].level < 3 && 0 <= i < 512 && meta[t].base % Span(meta[t].level) == 0
    requires meta[n] == Meta(meta[t].level + 1, Sub(meta[t].level, meta[t].base, i), t, i)
    requires forall x :: x in meta && Within(meta, x, meta[t].level, meta[t].base) ==> x in mem && x in g && mem[x] == g[x]
    ensures var m := Without(mem, meta, meta[t].level + 1, meta[t].base, Sub(meta[t].level, meta[t].base, i));
            forall x :: x in meta && Within(meta, x, meta[n].level, meta[n].base) ==> x in m && x in g && m[x] == g[x]
  {
    SubAligned(meta[t].level, meta[t].base, i);
    SubRoom(meta[t].level, meta[t].base, i);
    hide Sub, Span, Size;
  }

  lemma SubRoom(level: int, base: int, i: int)
    requires 0 <= level < 3 && 0 <= i < 512
    ensures base <= Sub(level, base, i) && Sub(level, base, i) + Span(level + 1) <= base + Span(level)
  {
  }

  lemma SubZero(level: int, p: int)
    ensures Sub(level, p, 0) == p
  {
  }

  lemma LastSub(p: int, n: int)
    ensures Sub(3, p, n) == p + n
  {
  }

  /** The pages of block n from an aligned page on. */
  lemma BlockRun(level: int, base: int, iova: int, n: int)
    requires 0 <= level <= 3 && base % Span(level) == 0 && Covers(level, base, iova) && iova % Size(level) == 0
    ensures Sub(level, base, Idx(level, iova) + n) == Sub(level, iova, n)
    ensures Sub(level, iova, n + 1) == Sub(level, iova, n) + Size(level)
    ensures n >= 0 ==> iova <= Sub(level, iova, n)
  {
    AlignedStart(level, base, iova);
    hide Idx;
  }

  lemma NewCovers(meta: Metas, t: int, i: int, page: int, p: int)
    requires t in meta && 0 <= meta[t].level < 3 && 0 <= i < 512 && InEntry(meta, t, i, p)
    ensures var m := InstallMeta(meta, t, i, page); m[page].level == meta[t].level + 1 && Covers(meta[t].level + 1, m[page].base, p)
  {
  }

  /** A block split in place. */
  lemma SplitGood(mem: Memory, meta: Metas, root: int, start: int, t: int, i: int, n: int, u: int, k: int)
    requires Good(mem, meta, root, start) && t in meta && 0 <= i < 512 && t in mem && |mem[t]| == 512 && meta[t].level < 3
    requires mem[t][i].Leaf? && n !in meta && 0 <= u && 0 <= k && u + k <= 512
    ensures var es := SplitEntries(meta[t].level + 1, mem[t][i].pa, mem[t][i].attr, u, k);
            var mem' := Install(mem, t, i, n, es, 512 - k);
            && Good(mem', InstallMeta(meta, t, i, n), root, start)
            && forall p :: 0 <= p < Span(start) ==>
              Walk(mem', root, start, p) ==
              if InEntry(meta, t, i, p) && u <= Idx(meta[t].level + 1, p) < u + k then None else Walk(mem, root, start, p)
  {
    hide Ok, CountsOk, Walk, Span, Size, Sub, Idx, Live, Install, InstallMeta, Flat, InEntry;
    var e, l := mem[t][i], meta[t].level;
    LeafAt(mem, meta, root, start, t, i);
    SplitFlat(l + 1, e.pa, e.attr, u, k);
    LiveSplit(l + 1, e.pa, e.attr, u, k, 512);
    InstallGood(mem, meta, root, start, t, i, n, SplitEntries(l + 1, e.pa, e.attr, u, k), 512 - k);
    forall p | 0 <= p < Span(start)
      ensures Walk(Install(mem, t, i, n, SplitEntries(l + 1, e.pa, e.attr, u, k), 512 - k), root, start, p) ==
              if InEntry(meta, t, i, p) && u <= Idx(l + 1, p) < u + k then None else Walk(mem, root, start, p)
    {
      SplitTrans(mem, meta, root, start, t, i, n, u, k, 512 - k, p);
    }
  }

  lemma LeafAt(mem: Memory, meta: Metas, root: int, start: int, t: int, i: int)
    requires Ok(mem, meta, root, start) && t in meta && t in mem && |mem[t]| == 512 && 0 <= i < 512 && mem[t][i].Leaf?
    ensures 1 <= meta[t].level <= 3 && mem[t][i].pa >= 0 && mem[t][i].pa % Size(meta[t].level) == 0
  {
    hide Span, Size, Sub;
    At(mem, meta, root, start, t);
    assert EntryOk(meta, t, i, mem[t][i]);
  }

  /** The part of a split block that was left out, as pages from `iova` on. */
  lemma SplitRun(mem: Memory, meta: Metas, root: int, start: int, t: int, i: int, leaf: int, iova: int, k: int)
    requires Ok(mem, meta, root, start) && t in meta && 0 <= i < 512 && meta[t].level < 3 && InEntry(meta, t, i, iova)
    requires leaf == meta[t].level + 1 && iova % Size(leaf) == 0 && 1 <= k && Idx(leaf, iova) + k <= 512
    ensures forall p :: InEntry(meta, t, i, p) && Idx(leaf, iova) <= Idx(leaf, p) < Idx(leaf, iova) + k <==> iova <= p < Sub(leaf, iova, k)
  {
    At(mem, meta, root, start, t);
    var m := meta[t];
    var base := Sub(m.level, m.base, i);
    SubAligned(m.level, m.base, i);
    hide Ok, Idx, Span;
    assert Span(leaf) == Size(m.level);
    AlignedStart(leaf, base, iova);
    forall p ensures InEntry(meta, t, i, p) && Idx(leaf, iova) <= Idx(leaf, p) < Idx(leaf, iova) + k <==> iova <= p < Sub(leaf, iova, k) {
      if Covers(leaf, base, p) {
        IdxIs(leaf, base, p);
      }
    }
  }
}
