/** The steps of mapping and unmapping, each with its whole effect on the tables. */
module LpaeSteps {
  import opened OptionType
  import opened LpaeTree
  import opened LpaeOps
  import opened LpaeCut
  import opened LpaeFill
  import opened LpaeCount

  ghost predicate Good(mem: Memory, meta: Metas, root: int, start: int) {
    Ok(mem, meta, root, start) && CountsOk(mem, meta)
  }

  /** iopte_tblcnt_add on the descriptor that leads to t; the field has 13 bits. */
  function AddCount(mem: Memory, q: int, k: int, n: int): Memory {
    if q in mem && 0 <= k < |mem[q]| && mem[q][k].Table?
    then mem[q := mem[q][k := mem[q][k].(cnt := (mem[q][k].cnt + n) % 8192)]] else mem
  }

  /** The descriptor of a table that is not the root. */
  lemma Descriptor(mem: Memory, meta: Metas, root: int, start: int, t: int)
    requires Ok(mem, meta, root, start) && t in meta && t != root
    ensures var q, k := meta[t].parent, meta[t].index;
            && q in meta && q in mem && |mem[q]| == 512 && 0 <= k < 512 && q != t
            && mem[q][k].Table? && mem[q][k].next == t && 0 <= mem[q][k].cnt < 8192
            && EntryOk(meta, q, k, mem[q][k]) && meta[q].level == meta[t].level - 1
  {
    hide Span, Size, Sub;
    At(mem, meta, root, start, t);
    At(mem, meta, root, start, meta[t].parent);
    assert EntryOk(meta, meta[t].parent, meta[t].index, mem[meta[t].parent][meta[t].index]);
  }

  lemma CountEntryOk(meta: Metas, q: int, k: int, e: Entry, c: int)
    requires q in meta && EntryOk(meta, q, k, e) && e.Table? && 0 <= c < 8192
    ensures EntryOk(meta, q, k, e.(cnt := c))
  {
  }

  /** Counting changes no translation. */
  lemma AddCountOk(mem: Memory, meta: Metas, root: int, start: int, t: int, n: int)
    requires Ok(mem, meta, root, start) && t in meta && t != root
    ensures var mem' := AddCount(mem, meta[t].parent, meta[t].index, n);
            && Ok(mem', meta, root, start)
            && forall p :: 0 <= p < Span(start) ==> Walk(mem', root, start, p) == Walk(mem, root, start, p)
  {
    hide Ok, Walk, Span, Size, Sub, EntryOk;
    Descriptor(mem, meta, root, start, t);
    var q, k := meta[t].parent, meta[t].index;
    var c := (mem[q][k].cnt + n) % 8192;
    var e := mem[q][k].(cnt := c);
    CountEntryOk(meta, q, k, mem[q][k], c);
    WriteOk(mem, meta, root, start, q, k, e);
    At(mem, meta, root, start, t);
    forall p | 0 <= p < Span(start) ensures Walk(WriteEntry(mem, q, k, e), root, start, p) == Walk(mem, root, start, p) {
      CountTrans(mem, meta, root, start, q, k, c, root, p);
    }
  }

  /** The tables after arm_lpae_init_pte has written k entries of t. */
  function Inited(mem: Memory, meta: Metas, root: int, t: int, i: int, k: int, pa: int, attr: int): Memory
    requires t in meta
  {
    var m := FillMem(mem, t, i, k, meta[t].level, pa, attr);
    if t == root then m else AddCount(m, meta[t].parent, meta[t].index, k)
  }

  lemma InitedTrans(mem: Memory, meta: Metas, root: int, start: int, t: int, i: int, k: int, pa: int, attr: int)
    requires Ok(mem, meta, root, start) && t in meta && t in mem && |mem[t]| == 512 && 0 <= i && 0 <= k && i + k <= 512
    requires forall j :: i <= j < i + k ==> mem[t][j].Empty?
    requires 1 <= meta[t].level <= 3 && pa >= 0 && pa % Size(meta[t].level) == 0
    ensures var m := meta[t];
            var mem': Memory := Inited(mem, meta, root, t, i, k, pa, attr);
            && Ok(mem', meta, root, start)
            && forall p :: 0 <= p < Span(start) ==>
              Walk(mem', root, start, p) ==
              if InRun(m.level, m.base, i, k, p) then Some((pa + (p - Sub(m.level, m.base, i)), attr)) else Walk(mem, root, start, p)
  {
    hide Ok, Walk, Span, Size, Sub, FillMem, AddCount, InRun;
    FillTrans(mem, meta, root, start, t, i, k, pa, attr);
    if t != root {
      AddCountOk(FillMem(mem, t, i, k, meta[t].level, pa, attr), meta, root, start, t, k);
    }
  }

  lemma InitedCounts(mem: Memory, meta: Metas, root: int, start: int, t: int, i: int, k: int, pa: int, attr: int)
    requires Good(mem, meta, root, start) && t in meta && t in mem && |mem[t]| == 512 && 0 <= i && 0 <= k && i + k <= 512
    requires forall j :: i <= j < i + k ==> mem[t][j].Empty?
    requires 1 <= meta[t].level <= 3
    ensures CountsOk(Inited(mem, meta, root, t, i, k, pa, attr), meta)
  {
    hide Ok, Sub, EntryOk;
    var mem': Memory := Inited(mem, meta, root, t, i, k, pa, attr);
    KeysIn(mem, meta, root, start);
    if t != root {
      Descriptor(mem, meta, root, start, t);
    }
    if meta[t].level == 3 {
      ParentLevel(mem, meta, root, start, t);
      var q, x := meta[t].parent, meta[t].index;
      assert CountOk(mem, mem[q][x]);
      LiveFill(mem[t], i, k, 3, pa, attr, 512);
      CountsUpdate(mem, mem', meta, root, start, t);
    } else {
      InitedHigh(mem, meta, root, start, t, i, k, pa, attr);
    }
  }

  lemma InitedHigh(mem: Memory, meta: Metas, root: int, start: int, t: int, i: int, k: int, pa: int, attr: int)
    requires Good(mem, meta, root, start) && t in meta && t in mem && |mem[t]| == 512 && 0 <= i && 0 <= k && i + k <= 512
    requires 1 <= meta[t].level <= 2
    requires t != root ==> meta[t].parent in meta && meta[meta[t].parent].level == meta[t].level - 1 && meta[t].parent != t
    ensures CountsOk(Inited(mem, meta, root, t, i, k, pa, attr), meta)
  {
    var mem': Memory := Inited(mem, meta, root, t, i, k, pa, attr);
    KeysIn(mem, meta, root, start);
    hide Ok, Live, Sub;
    forall x: int, j: int | x in meta && x in mem' && meta[x].level == 2 && 0 <= j < |mem'[x]| && mem'[x][j].Table?
      ensures x in mem && |mem[x]| == 512 && mem'[x][j] == mem[x][j] && mem[x][j].next in meta
    {
      NextLevel(mem, meta, root, start, x, 0);
      NextLevel(mem, meta, root, start, x, j);
    }
    CountsKept(mem, mem', meta, meta, root, start);
  }

  lemma KeysIn(mem: Memory, meta: Metas, root: int, start: int)
    requires Ok(mem, meta, root, start)
    ensures mem.Keys == meta.Keys
  {
  }

  /* New tables. */

  lemma InstallGood(mem: Memory, meta: Metas, root: int, start: int, t: int, i: int, n: int, es: seq<Entry>, c: int)
    requires Good(mem, meta, root, start) && t in meta && 0 <= i < 512 && t in mem && |mem[t]| == 512
    requires meta[t].level < 3 && !mem[t][i].Table? && n !in meta && Flat(es, meta[t].level + 1) && 0 <= c < 8192
    requires meta[t].level == 2 ==> c == Live(es, 512)
    ensures Good(Install(mem, t, i, n, es, c), InstallMeta(meta, t, i, n), root, start)
  {
    var mem': Memory, meta' := Install(mem, t, i, n, es, c), InstallMeta(meta, t, i, n);
    InstallOk(mem, meta, root, start, t, i, n, es, c);
    KeysIn(mem, meta, root, start);
    hide Ok, Live, Sub, Size;
    forall x: int, j: int | x in meta' && x in mem' && meta'[x].level == 2 && 0 <= j < |mem'[x]|
      ensures CountOk(mem', mem'[x][j])
    {
      if x != n && !(x == t && j == i) {
        NextLevel(mem, meta, root, start, x, 0);
        NextLevel(mem, meta, root, start, x, j);
        assert CountOk(mem, mem[x][j]);
      }
    }
  }

  /** A table of nothing. */
  function Empties(): (es: seq<Entry>)
    ensures |es| == 512 && forall j :: 0 <= j < 512 ==> es[j] == Empty
  {
    seq(512, _ => Empty)
  }

  /** A new empty table where nothing was mapped: nothing is mapped through it. */
  lemma NewTable(mem: Memory, meta: Metas, root: int, start: int, t: int, i: int, n: int)
    requires Good(mem, meta, root, start) && t in meta && 0 <= i < 512 && t in mem && |mem[t]| == 512
    requires meta[t].level < 3 && mem[t][i].Empty? && n !in meta
    ensures var mem', meta' := Install(mem, t, i, n, Empties(), 0), InstallMeta(meta, t, i, n);
            && Good(mem', meta', root, start)
            && forall p :: 0 <= p < Span(start) ==> Walk(mem', root, start, p) == Walk(mem, root, start, p)
  {
    var mem' := Install(mem, t, i, n, Empties(), 0);
    LiveZero(Empties(), 512);
    hide Ok, CountsOk, Walk, Live, Idx, Sub, Size, Empties;
    InstallGood(mem, meta, root, start, t, i, n, Empties(), 0);
    forall p | 0 <= p < Span(start) ensures Walk(mem', root, start, p) == Walk(mem, root, start, p) {
      InstallTrans(mem, meta, root, start, t, i, n, Empties(), 0, p);
      if InEntry(meta, t, i, p) {
        WalkThrough(mem, meta, root, start, t, i, p);
      }
    }
  }

  /** The entries that a block is split into, without the k from u. */
  function SplitEntries(level: int, pa: int, attr: int, u: int, k: int): (es: seq<Entry>)
    ensures |es| == 512
  {
    seq(512, j requires 0 <= j < 512 => if u <= j < u + k then Empty else Leaf(Sub(level, pa, j), attr))
  }

  /** A page's offset in a block, from its entry in the table the block is split into. */
  lemma SplitOffset(level: int, p: int)
    requires 1 <= level <= 3 && p >= 0
    ensures p % Size(level - 1) == Sub(level, 0, Idx(level, p)) + p % Size(level)
  {
    if level == 3 {
    } else if level == 2 {
      var q := p / 512;
      assert p % 0x4_0000 == 512 * (q % 512) + p % 512;
    } else {
      var q := p / 0x4_0000;
      assert p % 0x800_0000 == 0x4_0000 * (q % 512) + p % 0x4_0000;
    }
  }

  lemma SplitFlat(level: int, pa: int, attr: int, u: int, k: int)
    requires 2 <= level <= 3 && pa >= 0 && pa % Size(level - 1) == 0
    ensures Flat(SplitEntries(level, pa, attr, u, k), level)
  {
    BlockAligned(level, pa);
    hide Size, Sub;
    forall j | 0 <= j < 512 ensures Sub(level, pa, j) >= 0 && Sub(level, pa, j) % Size(level) == 0 {
      SubMultiple(level, pa, j);
    }
  }

  lemma BlockAligned(level: int, pa: int)
    requires 2 <= level <= 3 && pa % Size(level - 1) == 0
    ensures pa % Size(level) == 0
  {
    if level == 2 {
      var k := pa / 0x4_0000;
      assert pa == 512 * (512 * k);
    }
  }

  /** Splitting a block keeps its translations but for the pages of the k entries from u. */
  lemma SplitTrans(mem: Memory, meta: Metas, root: int, start: int, t: int, i: int, n: int, u: int, k: int, c: int, p: int)
    requires Ok(mem, meta, root, start) && t in meta && 0 <= i < 512 && t in mem && |mem[t]| == 512
    requires 1 <= meta[t].level < 3 && mem[t][i].Leaf? && n !in meta && 0 <= u && 0 <= k && u + k <= 512 && 0 <= c < 8192
    requires 0 <= p < Span(start)
    ensures var e, m := mem[t][i], meta[t];
            var mem' := Install(mem, t, i, n, SplitEntries(m.level + 1, e.pa, e.attr, u, k), c);
            Walk(mem', root, start, p) ==
            if InEntry(meta, t, i, p) && u <= Idx(m.level + 1, p) < u + k then None else Walk(mem, root, start, p)
  {
    hide Ok, Walk, Idx, Sub, Size, Span;
    var e, m := mem[t][i], meta[t];
    At(mem, meta, root, start, t);
    assert EntryOk(meta, t, i, e);
    SplitFlat(m.level + 1, e.pa, e.attr, u, k);
    InstallTrans(mem, meta, root, start, t, i, n, SplitEntries(m.level + 1, e.pa, e.attr, u, k), c, p);
    if InEntry(meta, t, i, p) {
      WalkThrough(mem, meta, root, start, t, i, p);
      SplitOffset(m.level + 1, p);
      SubFrom(m.level + 1, e.pa, Idx(m.level + 1, p));
    }
  }

  lemma SubFrom(level: int, base: int, i: int)
    ensures Sub(level, base, i) == base + Sub(level, 0, i)
  {
  }

  lemma {:induction false} LiveSplit(level: int, pa: int, attr: int, u: int, k: int, n: nat)
    requires 0 <= u && 0 <= k && u + k <= 512 && n <= 512
    ensures Live(SplitEntries(level, pa, attr, u, k), n) == n - if n <= u then 0 else if n <= u + k then n - u else k
  {
    hide Sub;
    if n > 0 {
      LiveSplit(level, pa, attr, u, k, n - 1);
    }
  }

  /* Taking tables out. */

  lemma CutSub(meta: Metas, t: int, i: int)
    requires t in meta
    ensures forall x :: x in CutMeta(meta, t, i) ==> x in meta && CutMeta(meta, t, i)[x] == meta[x]
  {
    hide Within, Sub;
  }

  lemma CutGood(mem: Memory, meta: Metas, root: int, start: int, t: int, i: int)
    requires Good(mem, meta, root, start) && t in meta && 0 <= i < 512 && t in mem && |mem[t]| == 512 && meta[t].level < 3
    ensures Good(Cut(mem, meta, t, i), CutMeta(meta, t, i), root, start)
  {
    hide Ok, Live, Sub, Size, Within, Span, Cut, CutMeta;
    var mem': Memory, meta' := Cut(mem, meta, t, i), CutMeta(meta, t, i);
    CutOk(mem, meta, root, start, t, i);
    CutKeys(mem, meta, root, start, t, i);
    KeysIn(mem, meta, root, start);
    CutSub(meta, t, i);
    forall x: int, j: int | x in meta' && x in mem' && meta'[x].level == 2 && 0 <= j < |mem'[x]|
      ensures CountOk(mem', mem'[x][j])
    {
      CutHas(mem, meta, t, i, x);
      NextLevel(mem, meta, root, start, x, 0);
      NextLevel(mem, meta, root, start, x, j);
      NextLevel(mem', meta', root, start, x, j);
      if mem'[x][j].Table? {
        CutHas(mem, meta, t, i, mem'[x][j].next);
        assert CountOk(mem, mem[x][j]);
      }
    }
  }

  /** The tables after entries of the last level have been cleared and the count of their table reduced. */
  function Cleared(mem: Memory, t: int, i: int, n: int, u: int, k: int): Memory {
    AddCount(ClearMem(mem, n, u, k), t, i, -k)
  }

  lemma ClearedTrans(mem: Memory, meta: Metas, root: int, start: int, t: int, i: int, u: int, k: int)
    requires Ok(mem, meta, root, start) && t in meta && meta[t].level == 2 && 0 <= i < 512
    requires t in mem && |mem[t]| == 512 && mem[t][i].Table? && 0 <= u && 0 <= k && u + k <= 512
    ensures var n := mem[t][i].next;
            var mem' := Cleared(mem, t, i, n, u, k);
            && n in meta && Ok(mem', meta, root, start)
            && forall p :: 0 <= p < Span(start) ==>
              Walk(mem', root, start, p) == if InRun(3, meta[n].base, u, k, p) then None else Walk(mem, root, start, p)
  {
    hide Ok, Walk, Span, Size, Sub, ClearMem, AddCount, InRun, EntryOk;
    var n := mem[t][i].next;
    NextLevel(mem, meta, root, start, t, i);
    NoTables(mem, meta, root, start, n);
    ClearTrans(mem, meta, root, start, n, u, k);
    ParentLevel(mem, meta, root, start, n);
    AddCountOk(ClearMem(mem, n, u, k), meta, root, start, n, -k);
  }

  /** The last level leads to no tables. */
  lemma NoTables(mem: Memory, meta: Metas, root: int, start: int, n: int)
    requires Ok(mem, meta, root, start) && n in meta && meta[n].level == 3
    ensures n in mem && |mem[n]| == 512 && forall j :: 0 <= j < 512 ==> !mem[n][j].Table?
  {
    hide Span, Size, Sub;
    At(mem, meta, root, start, n);
    forall j | 0 <= j < 512 ensures !mem[n][j].Table? {
      assert EntryOk(meta, n, j, mem[n][j]);
    }
  }

  /** If all entries cleared were in use, the count is right again, and zero exactly when the table has become empty. */
  lemma ClearedCounts(mem: Memory, meta: Metas, root: int, start: int, t: int, i: int, u: int, k: int)
    requires Good(mem, meta, root, start) && t in meta && meta[t].level == 2 && 0 <= i < 512
    requires t in mem && |mem[t]| == 512 && mem[t][i].Table? && 0 <= u && 0 <= k && u + k <= 512
    requires var n := mem[t][i].next; n in mem && |mem[n]| == 512 && forall j :: u <= j < u + k ==> !mem[n][j].Empty?
    ensures var n := mem[t][i].next;
            var mem' := Cleared(mem, t, i, n, u, k);
            && CountsOk(mem', meta) && t in mem' && |mem'[t]| == 512 && mem'[t][i].Table? && mem'[t][i].next == n
            && n in mem' && |mem'[n]| == 512
            && (mem'[t][i].cnt == 0 <==> forall j :: 0 <= j < 512 ==> mem'[n][j].Empty?)
  {
    var n := mem[t][i].next;
    var mem' := Cleared(mem, t, i, n, u, k);
    hide Ok, Live, Sub, EntryOk;
    NextLevel(mem, meta, root, start, t, i);
    assert CountOk(mem, mem[t][i]);
    LiveClear(mem[n], u, k, 512);
    LiveZero(mem'[n], 512);
    CountsUpdate(mem, mem', meta, root, start, n);
  }
}
