/** What single changes of the tables do to the translation. */
module LpaeOps {
  import opened OptionType
  import opened LpaeTree

  /** The page is translated through this entry. */
  predicate InEntry(meta: Metas, t: int, i: int, p: int)
    requires t in meta
  {
    var lo := Sub(meta[t].level, meta[t].base, i);
    lo <= p < lo + Size(meta[t].level)
  }

  function WriteEntry(mem: Memory, t: int, i: int, e: Entry): Memory
    requires t in mem && 0 <= i < |mem[t]|
  {
    mem[t := mem[t][i := e]]
  }

  /** A table, its entry and its place, from the invariant. */
  lemma At(mem: Memory, meta: Metas, root: int, start: int, t: int)
    requires Ok(mem, meta, root, start) && t in meta
    ensures t in mem && |mem[t]| == 512 && start <= meta[t].level <= 3 && 0 <= start <= 2
    ensures meta[t].base >= 0 && meta[t].base % Span(meta[t].level) == 0
    ensures forall i :: 0 <= i < 512 ==> EntryOk(meta, t, i, mem[t][i])
    ensures t != root ==> ParentOk(mem, meta, t)
    ensures root in meta && meta[root].level == start && meta[root].base == 0
  {
    assert TableOk(mem, meta, t, start);
    hide Span, EntryOk;
  }

  /** The next table on a walk covers the page too. */
  lemma NextCovers(meta: Metas, t: int, i: int, n: int, p: int)
    requires t in meta && n in meta && 0 <= meta[t].level < 3 && 0 <= i < 512 && InEntry(meta, t, i, p)
    requires meta[t].base % Span(meta[t].level) == 0
    requires meta[n] == Meta(meta[t].level + 1, Sub(meta[t].level, meta[t].base, i), t, i)
    ensures Covers(meta[n].level, meta[n].base, p)
  {
    SubAligned(meta[t].level, meta[t].base, i);
  }

  /** Two tables of one level that cover the same page are the same. */
  lemma {:induction false} Unique(mem: Memory, meta: Metas, root: int, start: int, s: int, t: int, p: int)
    requires Ok(mem, meta, root, start) && s in meta && t in meta && meta[s].level == meta[t].level
    requires Covers(meta[s].level, meta[s].base, p) && Covers(meta[t].level, meta[t].base, p)
    ensures s == t
    decreases meta[s].level
  {
    hide Ok, Span, Idx, Size;
    At(mem, meta, root, start, s);
    At(mem, meta, root, start, t);
    if meta[s].level == start {
      OnlyRoot(mem, meta, root, start, s);
      OnlyRoot(mem, meta, root, start, t);
    } else {
      Up(mem, meta, root, start, s, p);
      Up(mem, meta, root, start, t, p);
      Unique(mem, meta, root, start, meta[s].parent, meta[t].parent, p);
    }
  }

  lemma OnlyRoot(mem: Memory, meta: Metas, root: int, start: int, t: int)
    requires Ok(mem, meta, root, start) && t in meta && meta[t].level == start
    ensures t == root
  {
    if t != root {
      BelowRoot(mem, meta, root, start, t);
    }
  }

  lemma BelowRoot(mem: Memory, meta: Metas, root: int, start: int, t: int)
    requires Ok(mem, meta, root, start) && t in meta && t != root
    ensures meta[t].level > start
  {
    hide Ok, Span;
    At(mem, meta, root, start, t);
    At(mem, meta, root, start, meta[t].parent);
    assert EntryOk(meta, meta[t].parent, meta[t].index, mem[meta[t].parent][meta[t].index]);
  }

  /** The parent of a table, one level up, covers its pages through its own index of them. */
  lemma Up(mem: Memory, meta: Metas, root: int, start: int, t: int, p: int)
    requires Ok(mem, meta, root, start) && t in meta && (t != root || meta[t].level != start)
    ensures t != root
    ensures Covers(meta[t].level, meta[t].base, p) ==>
      var m := meta[t];
      && m.parent in meta && meta[m.parent].level == m.level - 1 && Covers(m.level - 1, meta[m.parent].base, p)
      && m.parent in mem && |mem[m.parent]| == 512 && m.index == Idx(m.level - 1, p)
      && mem[m.parent][m.index].Table? && mem[m.parent][m.index].next == t
  {
    hide Ok, Idx;
    At(mem, meta, root, start, t);
    var m := meta[t];
    At(mem, meta, root, start, m.parent);
    assert EntryOk(meta, m.parent, m.index, mem[m.parent][m.index]);
    var q := meta[m.parent];
    SubAligned(q.level, q.base, m.index);
    IdxOnly(q.level, q.base, p, m.index);
  }

  /** Entries that lead to the same table, or to none. */
  predicate SameNext(e: Entry, f: Entry) {
    e.Table? == f.Table? && (e.Table? ==> e.next == f.next)
  }

  lemma WriteOk(mem: Memory, meta: Metas, root: int, start: int, t: int, i: int, e: Entry)
    requires Ok(mem, meta, root, start) && t in meta && 0 <= i < 512 && t in mem && |mem[t]| == 512
    requires SameNext(mem[t][i], e) && EntryOk(meta, t, i, e)
    ensures Ok(WriteEntry(mem, t, i, e), meta, root, start)
  {
    hide Span, EntryOk;
    var mem' := WriteEntry(mem, t, i, e);
    forall x | x in meta ensures TableOk(mem', meta, x, start) {
      assert TableOk(mem, meta, x, start);
    }
    forall x | x in meta && x != root ensures ParentOk(mem', meta, x) {
      assert ParentOk(mem, meta, x);
    }
  }

  /** The tables are the same but for one entry. */
  ghost predicate AgreesBut(mem: Memory, mem': Memory, meta: Metas, t: int, i: int) {
    forall y, j :: y in meta && 0 <= j < 512 && !(y == t && j == i) ==>
      y in mem && y in mem' && |mem[y]| == 512 && |mem'[y]| == 512 && mem'[y][j] == mem[y][j]
  }

  /** Pages outside an entry are translated as before it was written. */
  lemma {:induction false} WalkOther(mem: Memory, mem': Memory, meta: Metas, root: int, start: int, t: int, i: int, x: int, p: int)
    requires Ok(mem, meta, root, start) && t in meta && 0 <= i < 512 && x in meta
    requires AgreesBut(mem, mem', meta, t, i)
    requires Covers(meta[x].level, meta[x].base, p) && !InEntry(meta, t, i, p)
    ensures Walk(mem', x, meta[x].level, p) == Walk(mem, x, meta[x].level, p)
    decreases 4 - meta[x].level
  {
    hide Ok, Idx, Sub, Size, Span;
    At(mem, meta, root, start, x);
    var m := meta[x];
    var k := Idx(m.level, p);
    IdxIs(m.level, m.base, p);
    assert EntryOk(meta, x, k, mem[x][k]);
    assert mem'[x][k] == mem[x][k];
    if mem[x][k].Table? {
      NextCovers(meta, x, k, mem[x][k].next, p);
      WalkOther(mem, mem', meta, root, start, t, i, mem[x][k].next, p);
    }
  }

  /** A translation through the entry itself. */
  function Through(mem: Memory, e: Entry, level: int, p: int): Option<(int, int)> {
    match e
    case Empty => None
    case Leaf(pa, attr) => Some((pa + p % Size(level), attr))
    case Table(n, _) => if level >= 3 then None else Walk(mem, n, level + 1, p)
  }

  /** A page inside an entry is translated through it. */
  lemma WalkThrough(mem: Memory, meta: Metas, root: int, start: int, t: int, i: int, p: int)
    requires Ok(mem, meta, root, start) && t in meta && 0 <= i < 512 && InEntry(meta, t, i, p)
    ensures t in mem && |mem[t]| == 512
    ensures Walk(mem, root, start, p) == Through(mem, mem[t][i], meta[t].level, p)
  {
    hide Ok, Idx, Sub, Size, Span;
    At(mem, meta, root, start, t);
    IdxOnly(meta[t].level, meta[t].base, p, i);
    Reaches(mem, meta, root, start, t, p);
  }

  /** Writing a page, a block or nothing where no table was. */
  lemma WriteTrans(mem: Memory, meta: Metas, root: int, start: int, t: int, i: int, e: Entry, p: int)
    requires Ok(mem, meta, root, start) && t in meta && 0 <= i < 512 && t in mem && |mem[t]| == 512
    requires !mem[t][i].Table? && !e.Table? && EntryOk(meta, t, i, e) && 0 <= p < Span(start)
    ensures Walk(WriteEntry(mem, t, i, e), root, start, p) ==
            if InEntry(meta, t, i, p) then Through(mem, e, meta[t].level, p) else Walk(mem, root, start, p)
  {
    hide Ok, Idx, Sub, Size, Walk, EntryOk;
    var mem' := WriteEntry(mem, t, i, e);
    WriteOk(mem, meta, root, start, t, i, e);
    if InEntry(meta, t, i, p) {
      WalkThrough(mem', meta, root, start, t, i, p);
    } else {
      WriteAgrees(mem, meta, root, start, t, i, e);
      At(mem, meta, root, start, t);
      WalkOther(mem, mem', meta, root, start, t, i, root, p);
    }
  }

  lemma WriteAgrees(mem: Memory, meta: Metas, root: int, start: int, t: int, i: int, e: Entry)
    requires Ok(mem, meta, root, start) && t in meta && 0 <= i < 512 && t in mem && |mem[t]| == 512
    ensures AgreesBut(mem, WriteEntry(mem, t, i, e), meta, t, i)
  {
    hide Span, EntryOk;
    forall y | y in meta ensures y in mem && |mem[y]| == 512 {
      assert TableOk(mem, meta, y, start);
    }
  }

  /** Changing the count of a table descriptor changes no translation. */
  lemma {:induction false} CountTrans(mem: Memory, meta: Metas, root: int, start: int, t: int, i: int, c: int, x: int, p: int)
    requires Ok(mem, meta, root, start) && t in meta && 0 <= i < 512 && t in mem && |mem[t]| == 512 && mem[t][i].Table?
    requires x in meta && Covers(meta[x].level, meta[x].base, p)
    ensures Walk(WriteEntry(mem, t, i, mem[t][i].(cnt := c)), x, meta[x].level, p) == Walk(mem, x, meta[x].level, p)
    decreases 4 - meta[x].level
  {
    hide Ok, Idx, Sub, Size, Span;
    At(mem, meta, root, start, x);
    var k := Idx(meta[x].level, p);
    IdxIs(meta[x].level, meta[x].base, p);
    assert EntryOk(meta, x, k, mem[x][k]);
    if mem[x][k].Table? {
      NextCovers(meta, x, k, mem[x][k].next, p);
      CountTrans(mem, meta, root, start, t, i, c, mem[x][k].next, p);
    }
  }

  /* A new table. */

  /** The tables with a new one at address n, entered in slot i of t. */
  function Install(mem: Memory, t: int, i: int, n: int, es: seq<Entry>, c: int): Memory
    requires t in mem && 0 <= i < |mem[t]|
  {
    mem[n := es][t := mem[t][i := Table(n, c)]]
  }

  function InstallMeta(meta: Metas, t: int, i: int, n: int): Metas
    requires t in meta
  {
    meta[n := Meta(meta[t].level + 1, Sub(meta[t].level, meta[t].base, i), t, i)]
  }

  /** Entries that lead to no table and fit one of this level. */
  predicate Flat(es: seq<Entry>, level: int) {
    |es| == 512 && forall j :: 0 <= j < 512 ==>
      !es[j].Table? && (es[j].Leaf? ==> level >= 1 && es[j].pa >= 0 && es[j].pa % Size(level) == 0)
  }

  lemma InstallOk(mem: Memory, meta: Metas, root: int, start: int, t: int, i: int, n: int, es: seq<Entry>, c: int)
    requires Ok(mem, meta, root, start) && t in meta && 0 <= i < 512 && t in mem && |mem[t]| == 512
    requires meta[t].level < 3 && !mem[t][i].Table? && n !in meta && Flat(es, meta[t].level + 1) && 0 <= c < 8192
    ensures Ok(Install(mem, t, i, n, es, c), InstallMeta(meta, t, i, n), root, start)
  {
    var mem', meta' := Install(mem, t, i, n, es, c), InstallMeta(meta, t, i, n);
    assert TableOk(mem, meta, t, start);
    SubAligned(meta[t].level, meta[t].base, i);
    assert EntryOk(meta', t, i, mem'[t][i]);
    hide Span, Size;
    forall x | x in meta' ensures TableOk(mem', meta', x, start) {
      if x != n {
        assert TableOk(mem, meta, x, start);
        assert forall j :: 0 <= j < 512 ==> EntryOk(meta, x, j, mem[x][j]);
      }
    }
    forall x | x in meta' && x != root ensures ParentOk(mem', meta', x) {
      if x != n {
        assert ParentOk(mem, meta, x);
      }
    }
  }

  /** Pages outside the entry keep their translation, pages inside get that of the new table. */
  lemma InstallTrans(mem: Memory, meta: Metas, root: int, start: int, t: int, i: int, n: int, es: seq<Entry>, c: int, p: int)
    requires Ok(mem, meta, root, start) && t in meta && 0 <= i < 512 && t in mem && |mem[t]| == 512
    requires meta[t].level < 3 && !mem[t][i].Table? && n !in meta && Flat(es, meta[t].level + 1) && 0 <= c < 8192
    requires 0 <= p < Span(start)
    ensures Walk(Install(mem, t, i, n, es, c), root, start, p) ==
            if InEntry(meta, t, i, p) then Through(mem, es[Idx(meta[t].level + 1, p)], meta[t].level + 1, p)
            else Walk(mem, root, start, p)
  {
    hide Ok, Idx, Sub, Size;
    var mem', meta' := Install(mem, t, i, n, es, c), InstallMeta(meta, t, i, n);
    InstallOk(mem, meta, root, start, t, i, n, es, c);
    At(mem, meta, root, start, t);
    if InEntry(meta, t, i, p) {
      WalkThrough(mem', meta', root, start, t, i, p);
    } else {
      InstallAgrees(mem, meta, root, start, t, i, n, es, c);
      WalkOther(mem, mem', meta, root, start, t, i, root, p);
    }
  }

  lemma InstallAgrees(mem: Memory, meta: Metas, root: int, start: int, t: int, i: int, n: int, es: seq<Entry>, c: int)
    requires Ok(mem, meta, root, start) && t in meta && 0 <= i < 512 && t in mem && |mem[t]| == 512 && n !in meta
    ensures AgreesBut(mem, Install(mem, t, i, n, es, c), meta, t, i)
  {
    hide Span, EntryOk;
    forall y | y in meta ensures y in mem && |mem[y]| == 512 {
      assert TableOk(mem, meta, y, start);
    }
  }
}
