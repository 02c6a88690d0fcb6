/** Taking out a table with everything below it. */
module LpaeCut {
  import opened OptionType
  import opened LpaeTree
  import opened LpaeOps

  /** The table covers a part of the region of level `level` from `lo`, or all of it, and lies no higher. */
  predicate Within(meta: Metas, x: int, level: int, lo: int)
    requires x in meta
  {
    meta[x].level >= level && lo <= meta[x].base < lo + Span(level)
  }

  lemma MulOrder(s: int, x: int, y: int)
    requires s > 0 && x <= y
    ensures s * x <= s * y
  {
  }

  lemma MulNext(s: int, x: int, k: int)
    ensures s * (x + k) == s * x + s * k
  {
  }

  lemma NestUnits(s: int, k: int, a: int, l: int, p: int)
    requires s > 0 && k > 0 && s * a <= p < s * a + s && s * l <= p < s * l + s * k
    ensures s * l <= s * a && s * a + s <= s * l + s * k
  {
    MulNext(s, a, 1);
    MulNext(s, l, k);
    if a < l {
      MulOrder(s, a + 1, l);
    } else if a >= l + k {
      MulOrder(s, l + k, a);
    } else {
      MulOrder(s, l, a);
      MulOrder(s, a + 1, l + k);
    }
  }

  /** A region of s pages and one of k times as many, each aligned to its size, nest if they share a page. */
  lemma NestMul(s: int, k: int, base: int, lo: int, p: int)
    requires s > 0 && k > 0 && s * k > 0 && base % s == 0 && lo % (s * k) == 0
    requires base <= p < base + s && lo <= p < lo + s * k
    ensures lo <= base && base + s <= lo + s * k
  {
    var a, j := base / s, lo / (s * k);
    assert base == s * a && lo == (s * k) * j;
    MulAssoc(s, k, j);
    NestUnits(s, k, a, k * j, p);
  }

  lemma MulAssoc(s: int, k: int, j: int)
    ensures (s * k) * j == s * (k * j)
  {
  }

  /** Aligned regions nest. */
  lemma Nest(level: int, base: int, high: int, lo: int, p: int)
    requires 0 <= high <= level <= 3 && base % Span(level) == 0 && lo % Span(high) == 0
    requires Covers(level, base, p) && Covers(high, lo, p)
    ensures lo <= base && base + Span(level) <= lo + Span(high)
  {
    var up := level - high;
    var k := if up == 0 then 1 else if up == 1 then 512 else if up == 2 then 0x4_0000 else 0x800_0000;
    assert Span(high) == Span(level) * k;
    hide Span;
    NestMul(Span(level), k, base, lo, p);
  }

  /** The tables without those below slot i of t, and that slot empty. */
  function Cut(mem: Memory, meta: Metas, t: int, i: int): Memory
    requires t in meta && t in mem && 0 <= i < |mem[t]|
  {
    map x | x in mem && !(x in meta && Within(meta, x, meta[t].level + 1, Sub(meta[t].level, meta[t].base, i))) ::
      if x == t then mem[x][i := Empty] else mem[x]
  }

  function CutMeta(meta: Metas, t: int, i: int): Metas
    requires t in meta
  {
    map x | x in meta && !Within(meta, x, meta[t].level + 1, Sub(meta[t].level, meta[t].base, i)) :: meta[x]
  }

  /** A table entry that stays leads to a table that stays. */
  lemma NextStays(mem: Memory, meta: Metas, root: int, start: int, t: int, i: int, x: int, j: int)
    requires Ok(mem, meta, root, start) && t in meta && 0 <= i < 512 && meta[t].level < 3
    requires x in meta && 0 <= j < 512 && !(x == t && j == i)
    requires !Within(meta, x, meta[t].level + 1, Sub(meta[t].level, meta[t].base, i))
    requires x in mem && |mem[x]| == 512 && mem[x][j].Table?
    ensures mem[x][j].next in meta
    ensures !Within(meta, mem[x][j].next, meta[t].level + 1, Sub(meta[t].level, meta[t].base, i))
  {
    hide Ok, Span, Size, Sub;
    var lo, n := Sub(meta[t].level, meta[t].base, i), mem[x][j].next;
    At(mem, meta, root, start, x);
    At(mem, meta, root, start, t);
    assert EntryOk(meta, x, j, mem[x][j]);
    SubAligned(meta[t].level, meta[t].base, i);
    SubIn(meta[x].level, meta[x].base, j);
    if Within(meta, n, meta[t].level + 1, lo) {
      if meta[x].level > meta[t].level {
        SpanPositive(meta[n].level);
        Nest(meta[x].level, meta[x].base, meta[t].level + 1, lo, meta[n].base);
      } else {
        SubIn(meta[t].level, meta[t].base, i);
        Unique(mem, meta, root, start, x, t, meta[n].base);
        SubOnly(meta[t].level, meta[t].base, i, j);
      }
    }
  }

  lemma SpanPositive(level: int)
    ensures Span(level) > 0 && Size(level) > 0
  {
  }

  /** An entry lies in its table. */
  lemma SubIn(level: int, base: int, i: int)
    requires 0 <= level <= 3 && 0 <= i < 512
    ensures forall p :: Sub(level, base, i) <= p < Sub(level, base, i) + Size(level) ==> Covers(level, base, p)
    ensures Covers(level, base, Sub(level, base, i))
  {
  }

  lemma SubOnly(level: int, base: int, i: int, j: int)
    requires 0 <= level < 3 && Sub(level, base, i) <= Sub(level, base, j) < Sub(level, base, i) + Span(level + 1)
    ensures i == j
  {
  }

  /** The parent of a table that stays, stays. */
  lemma ParentStays(mem: Memory, meta: Metas, root: int, start: int, t: int, i: int, x: int)
    requires Ok(mem, meta, root, start) && t in meta && 0 <= i < 512 && meta[t].level < 3
    requires x in meta && x != root && !Within(meta, x, meta[t].level + 1, Sub(meta[t].level, meta[t].base, i))
    ensures meta[x].parent in meta
    ensures !Within(meta, meta[x].parent, meta[t].level + 1, Sub(meta[t].level, meta[t].base, i))
    ensures !(meta[x].parent == t && meta[x].index == i)
  {
    hide Ok, Span, Size, Sub;
    var q, lo := meta[x].parent, Sub(meta[t].level, meta[t].base, i);
    At(mem, meta, root, start, x);
    At(mem, meta, root, start, q);
    At(mem, meta, root, start, t);
    assert EntryOk(meta, q, meta[x].index, mem[q][meta[x].index]);
    SubAligned(meta[t].level, meta[t].base, i);
    SubIn(meta[q].level, meta[q].base, meta[x].index);
    SpanPositive(meta[t].level + 1);
    if Within(meta, q, meta[t].level + 1, lo) {
      SpanPositive(meta[q].level);
      Nest(meta[q].level, meta[q].base, meta[t].level + 1, lo, meta[q].base);
    }
  }

  /** What stays in the tables. */
  lemma CutHas(mem: Memory, meta: Metas, t: int, i: int, x: int)
    requires t in meta && t in mem && 0 <= i < |mem[t]| && x in meta && x in mem
    ensures var out := Within(meta, x, meta[t].level + 1, Sub(meta[t].level, meta[t].base, i));
            && (x in CutMeta(meta, t, i) <==> !out) && (x in Cut(mem, meta, t, i) <==> !out)
            && (!out ==> CutMeta(meta, t, i)[x] == meta[x])
            && (!out ==> Cut(mem, meta, t, i)[x] == if x == t then mem[x][i := Empty] else mem[x])
  {
    hide Within, Sub;
  }

  lemma CutTableOk(mem: Memory, meta: Metas, root: int, start: int, t: int, i: int, x: int)
    requires Ok(mem, meta, root, start) && t in meta && 0 <= i < 512 && t in mem && |mem[t]| == 512 && meta[t].level < 3
    requires x in CutMeta(meta, t, i)
    ensures TableOk(Cut(mem, meta, t, i), CutMeta(meta, t, i), x, start)
  {
    hide Ok, Span, Size, Sub, EntryOk, Within, Cut;
    var mem', meta' := Cut(mem, meta, t, i), CutMeta(meta, t, i);
    At(mem, meta, root, start, x);
    CutHas(mem, meta, t, i, x);
    forall j | 0 <= j < 512 ensures EntryOk(meta', x, j, mem'[x][j]) {
      assert EntryOk(meta, x, j, mem[x][j]);
      if mem[x][j].Table? && !(x == t && j == i) {
        NextStays(mem, meta, root, start, t, i, x, j);
      }
      StillOk(meta, meta', x, j, mem'[x][j]);
    }
  }

  lemma CutParentOk(mem: Memory, meta: Metas, root: int, start: int, t: int, i: int, x: int)
    requires Ok(mem, meta, root, start) && t in meta && 0 <= i < 512 && t in mem && |mem[t]| == 512 && meta[t].level < 3
    requires x in CutMeta(meta, t, i) && x != root
    ensures ParentOk(Cut(mem, meta, t, i), CutMeta(meta, t, i), x)
  {
    hide Ok, Span, Size, Sub, Within, Cut;
    At(mem, meta, root, start, x);
    ParentStays(mem, meta, root, start, t, i, x);
    CutHas(mem, meta, t, i, meta[x].parent);
    CutHas(mem, meta, t, i, x);
  }

  lemma CutKeys(mem: Memory, meta: Metas, root: int, start: int, t: int, i: int)
    requires Ok(mem, meta, root, start) && t in meta && 0 <= i < 512 && t in mem && |mem[t]| == 512
    ensures Cut(mem, meta, t, i).Keys == CutMeta(meta, t, i).Keys
    ensures root in CutMeta(meta, t, i) && CutMeta(meta, t, i)[root] == meta[root]
    ensures t in CutMeta(meta, t, i) && t in Cut(mem, meta, t, i)
  {
    hide Span, Size, Sub;
    assert TableOk(mem, meta, t, start);
  }

  lemma CutOk(mem: Memory, meta: Metas, root: int, start: int, t: int, i: int)
    requires Ok(mem, meta, root, start) && t in meta && 0 <= i < 512 && t in mem && |mem[t]| == 512 && meta[t].level < 3
    ensures Ok(Cut(mem, meta, t, i), CutMeta(meta, t, i), root, start)
  {
    hide Cut, CutMeta, TableOk, ParentOk, Sub;
    var mem', meta' := Cut(mem, meta, t, i), CutMeta(meta, t, i);
    CutKeys(mem, meta, root, start, t, i);
    forall x | x in meta' ensures TableOk(mem', meta', x, start) {
      CutTableOk(mem, meta, root, start, t, i, x);
    }
    forall x | x in meta' && x != root ensures ParentOk(mem', meta', x) {
      CutParentOk(mem, meta, root, start, t, i, x);
    }
  }

  lemma StillOk(meta: Metas, meta': Metas, x: int, j: int, e: Entry)
    requires x in meta && x in meta' && meta'[x] == meta[x]
    requires e == Empty || EntryOk(meta, x, j, e)
    requires e.Table? && e.next in meta ==> e.next in meta' && meta'[e.next] == meta[e.next]
    ensures EntryOk(meta', x, j, e)
  {
  }

  /** The pages of the slot have no translation any more; all others keep theirs. */
  lemma CutTrans(mem: Memory, meta: Metas, root: int, start: int, t: int, i: int, p: int)
    requires Ok(mem, meta, root, start) && t in meta && 0 <= i < 512 && t in mem && |mem[t]| == 512 && meta[t].level < 3
    requires 0 <= p < Span(start)
    ensures Walk(Cut(mem, meta, t, i), root, start, p) == if InEntry(meta, t, i, p) then None else Walk(mem, root, start, p)
  {
    hide Ok, Idx, Sub, Size, Walk;
    var mem', meta' := Cut(mem, meta, t, i), CutMeta(meta, t, i);
    CutOk(mem, meta, root, start, t, i);
    At(mem, meta, root, start, t);
    if InEntry(meta, t, i, p) {
      WalkThrough(mem', meta', root, start, t, i, p);
    } else {
      CutAgrees(mem, meta, root, start, t, i);
      At(mem', meta', root, start, t);
      WalkOther(mem', mem, meta', root, start, t, i, root, p);
    }
  }

  lemma CutAgrees(mem: Memory, meta: Metas, root: int, start: int, t: int, i: int)
    requires Ok(mem, meta, root, start) && t in meta && 0 <= i < 512 && t in mem && |mem[t]| == 512
    ensures AgreesBut(Cut(mem, meta, t, i), mem, CutMeta(meta, t, i), t, i)
  {
    hide Span, EntryOk, Sub, Size;
    forall y | y in meta ensures y in mem && |mem[y]| == 512 {
      assert TableOk(mem, meta, y, start);
    }
  }
}
