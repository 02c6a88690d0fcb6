/** When pages or blocks can be mapped: their entries are empty, and no larger block stands in the way. */
module LpaeVacant {
  import opened OptionType
  import opened LpaeTree
  import opened LpaeOps
  import opened LpaeCut

  /** The n entries of level `leaf` from page `iova` on, found from table t, are empty or have no table yet. */
  predicate Vacant(mem: Memory, t: int, level: int, leaf: int, iova: int, n: int)
    decreases 4 - level
  {
    && t in mem && |mem[t]| == 512
    && if level >= 3 || level >= leaf then
         level == leaf && forall j :: Idx(level, iova) <= j < Idx(level, iova) + n && j < 512 ==> mem[t][j].Empty?
       else match mem[t][Idx(level, iova)]
         case Empty => true
         case Leaf(_, _) => false
         case Table(next, _) => Vacant(mem, next, level + 1, leaf, iova, n)
  }

  /** The last-level table region of a page. */
  function Region(leaf: int, iova: int): int {
    iova - iova % Span(leaf)
  }

  lemma RegionOf(leaf: int, iova: int)
    requires 1 <= leaf <= 3
    ensures Region(leaf, iova) % Span(leaf) == 0 && Covers(leaf, Region(leaf, iova), iova)
  {
    if leaf == 3 {
    } else if leaf == 2 {
    } else {
    }
  }

  lemma InBlocks(size: int, x: int, y: int, n: int)
    requires size > 0 && x % size == 0 && x <= y < x + size * n
    ensures x / size <= y / size < x / size + n
  {
    var a, b := x / size, y / size;
    assert x == size * a && y == size * b + y % size;
    assert b < a ==> size * (b + 1) <= size * a;
    assert b >= a + n ==> size * b >= size * (a + n);
  }

  lemma Aligned2(iova: int)
    requires iova % 512 == 0
    ensures (iova % 0x4_0000) % 512 == 0
  {
  }

  lemma Aligned1(iova: int)
    requires iova % 0x4_0000 == 0
    ensures (iova % 0x800_0000) % 0x4_0000 == 0
  {
  }

  lemma AlignedFrom(leaf: int, iova: int)
    requires 1 <= leaf <= 3 && iova % Size(leaf) == 0
    ensures (iova - Region(leaf, iova)) % Size(leaf) == 0
  {
    if leaf == 2 {
      Aligned2(iova);
    } else if leaf == 1 {
      Aligned1(iova);
    }
  }

  lemma SubSize(leaf: int, iova: int, n: int)
    requires 1 <= leaf <= 3
    ensures Sub(leaf, iova, n) == iova + Size(leaf) * n
  {
  }

  /** The pages of a run of blocks lie in the entries of the run. */
  lemma RunIdx(leaf: int, iova: int, n: int, p: int)
    requires 1 <= leaf <= 3 && iova % Size(leaf) == 0 && Idx(leaf, iova) + n <= 512 && iova <= p < Sub(leaf, iova, n)
    ensures Covers(leaf, Region(leaf, iova), p) && Idx(leaf, iova) <= Idx(leaf, p) < Idx(leaf, iova) + n
  {
    var r := Region(leaf, iova);
    RegionOf(leaf, iova);
    AlignedFrom(leaf, iova);
    SubSize(leaf, iova, n);
    IdxFrom(leaf, r, iova);
    hide Idx, Region, Sub;
    InBlocks(Size(leaf), iova - r, p - r, n);
    RegionEnd(leaf, iova - r, p - r, n);
    IdxFrom(leaf, r, p);
  }

  lemma RegionEnd(leaf: int, x: int, y: int, n: int)
    requires 1 <= leaf <= 3 && x >= 0 && x % Size(leaf) == 0 && x / Size(leaf) + n <= 512 && x <= y < x + Size(leaf) * n
    ensures 0 <= y < Span(leaf)
  {
    if leaf == 3 {
    } else if leaf == 2 {
    } else {
    }
  }

  /** A run of smaller blocks that begins in an entry stays in it. */
  lemma RunInEntry(meta: Metas, t: int, i: int, leaf: int, iova: int, n: int, p: int)
    requires t in meta && 0 <= meta[t].level < leaf <= 3 && meta[t].base % Span(meta[t].level) == 0 && 0 <= i < 512
    requires InEntry(meta, t, i, iova) && iova % Size(leaf) == 0 && Idx(leaf, iova) + n <= 512 && iova <= p < Sub(leaf, iova, n)
    ensures InEntry(meta, t, i, p)
  {
    var m := meta[t];
    RunIdx(leaf, iova, n, p);
    RegionOf(leaf, iova);
    SubAligned(m.level, m.base, i);
    hide Idx, Region, Sub, Size;
    Nest(leaf, Region(leaf, iova), m.level + 1, Sub(m.level, m.base, i), iova);
  }

  /** Nothing is translated where there is room. */
  lemma {:induction false} VacantNone(mem: Memory, meta: Metas, root: int, start: int, t: int, leaf: int, iova: int, n: int, p: int)
    requires Ok(mem, meta, root, start) && t in meta && meta[t].level <= leaf && Covers(meta[t].level, meta[t].base, iova)
    requires 1 <= leaf <= 3 && iova % Size(leaf) == 0 && Idx(leaf, iova) + n <= 512 && iova <= p < Sub(leaf, iova, n)
    requires Vacant(mem, t, meta[t].level, leaf, iova, n)
    ensures Walk(mem, root, start, p) == None
    decreases 4 - meta[t].level
  {
    hide Ok, Walk, Span, Size, Sub, Idx;
    At(mem, meta, root, start, t);
    var m := meta[t];
    if m.level == leaf {
      RunIdx(leaf, iova, n, p);
      RegionOf(leaf, iova);
      Nest(leaf, Region(leaf, iova), leaf, m.base, iova);
      IdxIs(leaf, m.base, p);
      WalkThrough(mem, meta, root, start, t, Idx(leaf, p), p);
    } else {
      var i := Idx(m.level, iova);
      IdxIs(m.level, m.base, iova);
      RunInEntry(meta, t, i, leaf, iova, n, p);
      if mem[t][i].Table? {
        assert EntryOk(meta, t, i, mem[t][i]);
        NextCovers(meta, t, i, mem[t][i].next, iova);
        VacantNone(mem, meta, root, start, mem[t][i].next, leaf, iova, n, p);
      } else {
        WalkThrough(mem, meta, root, start, t, i, p);
      }
    }
  }

  /** Where there is no room for single pages, one of them is mapped. */
  lemma {:induction false} OccupiedSome(mem: Memory, meta: Metas, root: int, start: int, t: int, iova: int, n: int) returns (p: int)
    requires Ok(mem, meta, root, start) && t in meta && Covers(meta[t].level, meta[t].base, iova)
    requires 1 <= n && Idx(3, iova) + n <= 512 && !Vacant(mem, t, meta[t].level, 3, iova, n)
    ensures iova <= p < iova + n && Walk(mem, root, start, p).Some?
    decreases 4 - meta[t].level
  {
    hide Ok, Walk, Span, Idx;
    At(mem, meta, root, start, t);
    var m := meta[t];
    var i := Idx(m.level, iova);
    IdxIs(m.level, m.base, iova);
    if m.level == 3 {
      var j :| i <= j < i + n && j < 512 && !mem[t][j].Empty?;
      p := m.base + j;
      assert EntryOk(meta, t, j, mem[t][j]);
      WalkThrough(mem, meta, root, start, t, j, p);
    } else {
      assert EntryOk(meta, t, i, mem[t][i]);
      if mem[t][i].Table? {
        NextCovers(meta, t, i, mem[t][i].next, iova);
        p := OccupiedSome(mem, meta, root, start, mem[t][i].next, iova, n);
      } else {
        p := iova;
        WalkThrough(mem, meta, root, start, t, i, p);
      }
    }
  }
}
