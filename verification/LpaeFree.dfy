/** Which tables lie below a table. */
module LpaeFree {
  import opened LpaeTree
  import opened LpaeOps
  import opened LpaeCut

  /** A lower table that covers a page of an entry is reached through it. */
  lemma {:induction false} TableOnPath(mem: Memory, meta: Metas, root: int, start: int, t: int, i: int, x: int, p: int)
    requires Ok(mem, meta, root, start) && t in meta && 0 <= i < 512 && x in meta && meta[x].level > meta[t].level
    requires Covers(meta[x].level, meta[x].base, p) && InEntry(meta, t, i, p)
    ensures t in mem && |mem[t]| == 512 && mem[t][i].Table?
    decreases meta[x].level
  {
    hide Ok, Idx, Span, Size, Sub;
    At(mem, meta, root, start, t);
    At(mem, meta, root, start, x);
    Up(mem, meta, root, start, x, p);
    if meta[x].level == meta[t].level + 1 {
      IdxOnly(meta[t].level, meta[t].base, p, i);
      Unique(mem, meta, root, start, meta[x].parent, t, p);
    } else {
      TableOnPath(mem, meta, root, start, t, i, meta[x].parent, p);
    }
  }

  /** The tables without those of level `level` or lower that begin from lo to before hi. */
  function Without(mem: Memory, meta: Metas, level: int, lo: int, hi: int): Memory {
    map x | x in mem && !(x in meta && meta[x].level >= level && lo <= meta[x].base < hi) :: mem[x]
  }

  /** Nothing lies below an entry that leads to no table. */
  lemma NothingBelow(g: Memory, mem: Memory, meta: Metas, root: int, start: int, t: int, i: int)
    requires Ok(g, meta, root, start) && t in meta && meta[t].level < 3 && 0 <= i < 512
    requires t in g && |g[t]| == 512 && !g[t][i].Table?
    ensures var m := meta[t];
            Without(mem, meta, m.level + 1, m.base, Sub(m.level, m.base, i + 1))
            == Without(mem, meta, m.level + 1, m.base, Sub(m.level, m.base, i))
  {
    var m := meta[t];
    SubStep(m.level, m.base, i);
    forall x | x in meta && meta[x].level >= m.level + 1
      ensures !(Sub(m.level, m.base, i) <= meta[x].base < Sub(m.level, m.base, i + 1))
    {
      hide Ok, Sub, Size, Without;
      At(g, meta, root, start, t);
      At(g, meta, root, start, x);
      SpanPositive(meta[x].level);
      SubStep(m.level, m.base, i);
      if InEntry(meta, t, i, meta[x].base) {
        TableOnPath(g, meta, root, start, t, i, x, meta[x].base);
      }
    }
  }

  lemma SubStep(level: int, base: int, i: int)
    ensures Sub(level, base, i) <= Sub(level, base, i + 1) == Sub(level, base, i) + Size(level)
  {
  }

  /** Taking out what lies below entry i after what lies below the entries before it. */
  lemma WithoutNext(mem: Memory, meta: Metas, t: int, i: int, n: int)
    requires t in meta && n in meta && 0 <= meta[t].level < 3 && 0 <= i < 512 && meta[t].base % Span(meta[t].level) == 0
    requires meta[n] == Meta(meta[t].level + 1, Sub(meta[t].level, meta[t].base, i), t, i)
    ensures var m := meta[t];
            Without(Without(mem, meta, m.level + 1, m.base, Sub(m.level, m.base, i)), meta, meta[n].level, meta[n].base,
                    meta[n].base + Span(meta[n].level))
            == Without(mem, meta, m.level + 1, m.base, Sub(m.level, m.base, i + 1))
  {
    var m := meta[t];
    SubAligned(m.level, m.base, i);
    SubStep(m.level, m.base, i);
    assert m.base <= Sub(m.level, m.base, i);
    hide Sub, Span, Size;
  }

  /** A table and all below it, and nothing else, lie in its region. */
  lemma WithoutAll(g: Memory, mem: Memory, meta: Metas, root: int, start: int, t: int)
    requires Ok(g, meta, root, start) && t in meta
    ensures var m := meta[t];
            Without(mem, meta, m.level + 1, m.base, m.base + Span(m.level)) - {t} == Without(mem, meta, m.level, m.base, m.base + Span(m.level))
  {
    hide Span;
    var m := meta[t];
    At(g, meta, root, start, t);
    SpanPositive(m.level);
    forall x | x in meta && meta[x].level == m.level && m.base <= meta[x].base < m.base + Span(m.level) ensures x == t {
      At(g, meta, root, start, x);
      Unique(g, meta, root, start, x, t, meta[x].base);
    }
  }

  /** Cutting a slot is emptying it and taking out what lay below. */
  lemma CutIsWithout(mem: Memory, meta: Metas, root: int, start: int, t: int, i: int)
    requires Ok(mem, meta, root, start) && t in meta && t in mem && |mem[t]| == 512 && 0 <= i < 512 && meta[t].level < 3
    requires mem[t][i].Table? && mem[t][i].next in meta
    ensures var n := mem[t][i].next;
            && Cut(mem, meta, t, i) == Without(WriteEntry(mem, t, i, Empty), meta, meta[n].level, meta[n].base, meta[n].base + Span(meta[n].level))
            && CutMeta(meta, t, i).Keys == Cut(mem, meta, t, i).Keys
  {
    At(mem, meta, root, start, t);
    assert EntryOk(meta, t, i, mem[t][i]);
    CutKeys(mem, meta, root, start, t, i);
    hide Ok, Span, Sub, Size;
  }
}
