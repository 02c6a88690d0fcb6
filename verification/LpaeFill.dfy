/** Runs of entries of one table, written or cleared, and the counts in table descriptors. */
module LpaeFill {
  import opened OptionType
  import opened LpaeTree
  import opened LpaeOps

  /** The k entries from i as pages or blocks of consecutive physical memory. */
  function Fill(es: seq<Entry>, i: int, k: int, level: int, pa: int, attr: int): (r: seq<Entry>)
    ensures |r| == |es|
  {
    seq(|es|, j requires 0 <= j < |es| => if i <= j < i + k then Leaf(Sub(level, pa, j - i), attr) else es[j])
  }

  /** The k entries from i empty. */
  function Clear(es: seq<Entry>, i: int, k: int): (r: seq<Entry>)
    ensures |r| == |es|
  {
    seq(|es|, j requires 0 <= j < |es| => if i <= j < i + k then Empty else es[j])
  }

  /** The number of entries in use among the first n. */
  function Live(es: seq<Entry>, n: nat): (c: nat)
    requires n <= |es|
    ensures c <= n
  {
    if n == 0 then 0 else Live(es, n - 1) + if es[n - 1].Empty? then 0 else 1
  }

  /** The pages of k entries from i. */
  predicate InRun(level: int, base: int, i: int, k: int, p: int) {
    Sub(level, base, i) <= p < Sub(level, base, i + k)
  }

  lemma SubNext(level: int, base: int, i: int)
    requires 0 <= level <= 3
    ensures Sub(level, base, i + 1) == Sub(level, base, i) + Size(level)
  {
  }

  lemma Offset2(base: int, i: int, p: int)
    requires base % 0x4_0000 == 0 && base + 512 * i <= p < base + 512 * i + 512
    ensures p % 512 == p - (base + 512 * i)
  {
    var k, r := base / 0x4_0000, p - (base + 512 * i);
    assert base == 512 * (512 * k);
    assert p == 512 * (512 * k + i) + r;
  }

  lemma Offset1(base: int, i: int, p: int)
    requires base % 0x800_0000 == 0 && base + 0x4_0000 * i <= p < base + 0x4_0000 * i + 0x4_0000
    ensures p % 0x4_0000 == p - (base + 0x4_0000 * i)
  {
    var k, r := base / 0x800_0000, p - (base + 0x4_0000 * i);
    assert base == 0x4_0000 * (512 * k);
    assert p == 0x4_0000 * (512 * k + i) + r;
  }

  lemma Offset0(base: int, i: int, p: int)
    requires base % 0x10_0000_0000 == 0 && base + 0x800_0000 * i <= p < base + 0x800_0000 * i + 0x800_0000
    ensures p % 0x800_0000 == p - (base + 0x800_0000 * i)
  {
    var k, r := base / 0x10_0000_0000, p - (base + 0x800_0000 * i);
    assert base == 0x800_0000 * (512 * k);
    assert p == 0x800_0000 * (512 * k + i) + r;
  }

  /** Inside an entry, a page's offset is its distance from the entry's first page. */
  lemma OffsetIn(level: int, base: int, i: int, p: int)
    requires 0 <= level <= 3 && base % Span(level) == 0 && Sub(level, base, i) <= p < Sub(level, base, i) + Size(level)
    ensures p % Size(level) == p - Sub(level, base, i)
  {
    if level == 2 {
      Offset2(base, i, p);
    } else if level == 1 {
      Offset1(base, i, p);
    } else if level == 0 {
      Offset0(base, i, p);
    }
  }

  lemma SubShift(level: int, base: int, i: int, j: int, pa: int)
    requires 0 <= level <= 3
    ensures Sub(level, pa, j - i) - Sub(level, pa, 0) == Sub(level, base, j) - Sub(level, base, i) && Sub(level, pa, 0) == pa
  {
  }

  lemma SubMultiple(level: int, pa: int, j: int)
    requires 0 <= level <= 3 && pa >= 0 && pa % Size(level) == 0 && j >= 0
    ensures Sub(level, pa, j) >= 0 && Sub(level, pa, j) % Size(level) == 0
  {
    if level == 2 {
      var k := pa / 512;
      assert Sub(level, pa, j) == 512 * (k + j);
    } else if level == 1 {
      var k := pa / 0x4_0000;
      assert Sub(level, pa, j) == 0x4_0000 * (k + j);
    } else if level == 0 {
      var k := pa / 0x800_0000;
      assert Sub(level, pa, j) == 0x800_0000 * (k + j);
    }
  }

  /** The tables with k entries of one of them written. */
  function FillMem(mem: Memory, t: int, i: int, k: int, level: int, pa: int, attr: int): Memory {
    if t in mem then mem[t := Fill(mem[t], i, k, level, pa, attr)] else mem
  }

  /** Writing k entries that were empty maps exactly their pages. */
  lemma {:induction false} FillTrans(mem: Memory, meta: Metas, root: int, start: int, t: int, i: int, k: int, pa: int, attr: int)
    requires Ok(mem, meta, root, start) && t in meta && t in mem && |mem[t]| == 512 && 0 <= i && 0 <= k && i + k <= 512
    requires forall j :: i <= j < i + k ==> mem[t][j].Empty?
    requires 1 <= meta[t].level <= 3 && pa >= 0 && pa % Size(meta[t].level) == 0
    ensures var m := meta[t];
            var mem' := FillMem(mem, t, i, k, m.level, pa, attr);
            && Ok(mem', meta, root, start)
            && forall p :: 0 <= p < Span(start) ==>
              Walk(mem', root, start, p) ==
              if InRun(m.level, m.base, i, k, p) then Some((pa + (p - Sub(m.level, m.base, i)), attr)) else Walk(mem, root, start, p)
    decreases k
  {
    var m := meta[t];
    if k == 0 {
      assert Fill(mem[t], i, 0, m.level, pa, attr) == mem[t];
      assert FillMem(mem, t, i, 0, m.level, pa, attr) == mem;
      hide Ok, Walk, Span;
    } else {
      hide Ok, Walk, Span, Size, Sub;
      FillTrans(mem, meta, root, start, t, i, k - 1, pa, attr);
      FillStep(mem, meta, root, start, t, i, k, pa, attr);
    }
  }

  lemma FillStep(mem: Memory, meta: Metas, root: int, start: int, t: int, i: int, k: int, pa: int, attr: int)
    requires t in meta && t in mem && |mem[t]| == 512 && 0 <= i && 1 <= k && i + k <= 512
    requires forall j :: i <= j < i + k ==> mem[t][j].Empty?
    requires 1 <= meta[t].level <= 3 && pa >= 0 && pa % Size(meta[t].level) == 0
    requires Ok(FillMem(mem, t, i, k - 1, meta[t].level, pa, attr), meta, root, start)
    ensures var m := meta[t];
            var before, after := FillMem(mem, t, i, k - 1, m.level, pa, attr), FillMem(mem, t, i, k, m.level, pa, attr);
            && Ok(after, meta, root, start)
            && (forall p :: 0 <= p < Span(start) ==>
              Walk(after, root, start, p) ==
              if InRun(m.level, m.base, i + k - 1, 1, p) then Some((pa + (p - Sub(m.level, m.base, i)), attr))
              else Walk(before, root, start, p))
            && (forall p :: InRun(m.level, m.base, i, k, p) <==>
              InRun(m.level, m.base, i, k - 1, p) || InRun(m.level, m.base, i + k - 1, 1, p))
  {
    hide Ok, Walk, Span, EntryOk, FillMem, Sub, Size, WriteEntry, InRun;
    var m, j := meta[t], i + k - 1;
    var before, after := FillMem(mem, t, i, k - 1, m.level, pa, attr), FillMem(mem, t, i, k, m.level, pa, attr);
    var e := Leaf(Sub(m.level, pa, k - 1), attr);
    FillNext(mem, t, i, k, m.level, pa, attr);
    RunNext(m.level, m.base, i, k);
    At(before, meta, root, start, t);
    SubMultiple(m.level, pa, k - 1);
    LeafOk(meta, t, j, e);
    WriteOk(before, meta, root, start, t, j, e);
    forall p | 0 <= p < Span(start)
      ensures Walk(after, root, start, p) ==
              if InRun(m.level, m.base, j, 1, p) then Some((pa + (p - Sub(m.level, m.base, i)), attr)) else Walk(before, root, start, p)
    {
      WriteTrans(before, meta, root, start, t, j, e, p);
      FilledPage(before, meta, t, i, j, pa, attr, p);
    }
  }

  lemma FilledPage(mem: Memory, meta: Metas, t: int, i: int, j: int, pa: int, attr: int, p: int)
    requires t in meta && 1 <= meta[t].level <= 3 && meta[t].base % Span(meta[t].level) == 0 && 0 <= i <= j
    ensures var m := meta[t];
            && (InEntry(meta, t, j, p) <==> InRun(m.level, m.base, j, 1, p))
            && (InEntry(meta, t, j, p) ==>
              Through(mem, Leaf(Sub(m.level, pa, j - i), attr), m.level, p) == Some((pa + (p - Sub(m.level, m.base, i)), attr)))
  {
    var m := meta[t];
    hide Sub, Size, Span;
    SubNext(m.level, m.base, j);
    if InEntry(meta, t, j, p) {
      OffsetIn(m.level, m.base, j, p);
      SubShift(m.level, m.base, i, j, pa);
    }
  }

  lemma LeafOk(meta: Metas, t: int, j: int, e: Entry)
    requires t in meta && e.Leaf? && meta[t].level >= 1 && e.pa >= 0 && e.pa % Size(meta[t].level) == 0
    ensures EntryOk(meta, t, j, e)
  {
  }

  lemma FillNext(mem: Memory, t: int, i: int, k: int, level: int, pa: int, attr: int)
    requires t in mem && |mem[t]| == 512 && 0 <= i && 1 <= k && i + k <= 512 && mem[t][i + k - 1].Empty?
    ensures var before := FillMem(mem, t, i, k - 1, level, pa, attr);
            && t in before && |before[t]| == 512 && before[t][i + k - 1].Empty?
            && FillMem(mem, t, i, k, level, pa, attr) == WriteEntry(before, t, i + k - 1, Leaf(Sub(level, pa, k - 1), attr))
  {
    hide Sub;
    assert Fill(mem[t], i, k, level, pa, attr) == Fill(mem[t], i, k - 1, level, pa, attr)[i + k - 1 := Leaf(Sub(level, pa, k - 1), attr)];
  }

  lemma RunNext(level: int, base: int, i: int, k: int)
    requires 0 <= level <= 3 && k >= 1
    ensures forall p :: InRun(level, base, i, k, p) <==> InRun(level, base, i, k - 1, p) || InRun(level, base, i + k - 1, 1, p)
  {
  }

  function ClearMem(mem: Memory, t: int, i: int, k: int): Memory {
    if t in mem then mem[t := Clear(mem[t], i, k)] else mem
  }

  /** Clearing k entries that lead to no table unmaps exactly their pages. */
  lemma {:induction false} ClearTrans(mem: Memory, meta: Metas, root: int, start: int, t: int, i: int, k: int)
    requires Ok(mem, meta, root, start) && t in meta && t in mem && |mem[t]| == 512 && 0 <= i && 0 <= k && i + k <= 512
    requires forall j :: i <= j < i + k ==> !mem[t][j].Table?
    requires 0 <= meta[t].level <= 3
    ensures var m := meta[t];
            var mem' := ClearMem(mem, t, i, k);
            && Ok(mem', meta, root, start)
            && forall p :: 0 <= p < Span(start) ==>
              Walk(mem', root, start, p) == if InRun(m.level, m.base, i, k, p) then None else Walk(mem, root, start, p)
    decreases k
  {
    var m := meta[t];
    if k == 0 {
      assert Clear(mem[t], i, 0) == mem[t];
      assert ClearMem(mem, t, i, 0) == mem;
      hide Ok, Walk, Span;
    } else {
      hide Ok, Walk, Span, Size, Sub;
      ClearTrans(mem, meta, root, start, t, i, k - 1);
      ClearStep(mem, meta, root, start, t, i, k);
    }
  }

  lemma ClearStep(mem: Memory, meta: Metas, root: int, start: int, t: int, i: int, k: int)
    requires t in meta && t in mem && |mem[t]| == 512 && 0 <= i && 1 <= k && i + k <= 512
    requires forall j :: i <= j < i + k ==> !mem[t][j].Table?
    requires 0 <= meta[t].level <= 3
    requires Ok(ClearMem(mem, t, i, k - 1), meta, root, start)
    ensures var m := meta[t];
            var before, after := ClearMem(mem, t, i, k - 1), ClearMem(mem, t, i, k);
            && Ok(after, meta, root, start)
            && (forall p :: 0 <= p < Span(start) ==>
              Walk(after, root, start, p) == if InRun(m.level, m.base, i + k - 1, 1, p) then None else Walk(before, root, start, p))
            && (forall p :: InRun(m.level, m.base, i, k, p) <==>
              InRun(m.level, m.base, i, k - 1, p) || InRun(m.level, m.base, i + k - 1, 1, p))
  {
    hide Ok, Walk, Span, ClearMem, Sub, Size, WriteEntry, InRun;
    var m, j := meta[t], i + k - 1;
    var before, after := ClearMem(mem, t, i, k - 1), ClearMem(mem, t, i, k);
    ClearNext(mem, t, i, k);
    RunNext(m.level, m.base, i, k);
    At(before, meta, root, start, t);
    WriteOk(before, meta, root, start, t, j, Empty);
    forall p | 0 <= p < Span(start)
      ensures Walk(after, root, start, p) == if InRun(m.level, m.base, j, 1, p) then None else Walk(before, root, start, p)
    {
      WriteTrans(before, meta, root, start, t, j, Empty, p);
      EntryIsRun(meta, t, j, p);
    }
  }

  lemma EntryIsRun(meta: Metas, t: int, j: int, p: int)
    requires t in meta && 0 <= meta[t].level <= 3
    ensures InEntry(meta, t, j, p) <==> InRun(meta[t].level, meta[t].base, j, 1, p)
  {
    hide Sub, Size;
    SubNext(meta[t].level, meta[t].base, j);
  }

  lemma ClearNext(mem: Memory, t: int, i: int, k: int)
    requires t in mem && |mem[t]| == 512 && 0 <= i && 1 <= k && i + k <= 512 && !mem[t][i + k - 1].Table?
    ensures var before := ClearMem(mem, t, i, k - 1);
            && t in before && |before[t]| == 512 && !before[t][i + k - 1].Table?
            && ClearMem(mem, t, i, k) == WriteEntry(before, t, i + k - 1, Empty)
  {
    assert Clear(mem[t], i, k) == Clear(mem[t], i, k - 1)[i + k - 1 := Empty];
  }

  /* Counts. */

  /** The count of a level-2 descriptor is the number of entries in use in its last-level table. */
  predicate CountOk(mem: Memory, e: Entry) {
    e.Table? ==> e.next in mem && |mem[e.next]| == 512 && e.cnt == Live(mem[e.next], 512)
  }

  predicate CountsOk(mem: Memory, meta: Metas) {
    forall t, i :: t in meta && t in mem && meta[t].level == 2 && 0 <= i < |mem[t]| ==> CountOk(mem, mem[t][i])
  }

  lemma {:induction false} LiveFill(es: seq<Entry>, i: int, k: int, level: int, pa: int, attr: int, n: nat)
    requires n <= |es| && 0 <= i && 0 <= k && i + k <= |es| && (forall j :: i <= j < i + k ==> es[j].Empty?)
    ensures Live(Fill(es, i, k, level, pa, attr), n) == Live(es, n) + if n <= i then 0 else if n <= i + k then n - i else k
  {
    hide Sub;
    if n > 0 {
      LiveFill(es, i, k, level, pa, attr, n - 1);
    }
  }

  lemma {:induction false} LiveClear(es: seq<Entry>, i: int, k: int, n: nat)
    requires n <= |es| && 0 <= i && 0 <= k && i + k <= |es| && (forall j :: i <= j < i + k ==> !es[j].Empty?)
    ensures Live(Clear(es, i, k), n) == Live(es, n) - if n <= i then 0 else if n <= i + k then n - i else k
  {
    if n > 0 {
      LiveClear(es, i, k, n - 1);
    }
  }

  /** A table without entries in use is empty, and only that. */
  lemma {:induction false} LiveZero(es: seq<Entry>, n: nat)
    requires n <= |es|
    ensures Live(es, n) == 0 <==> forall j :: 0 <= j < n ==> es[j].Empty?
  {
    if n > 0 {
      LiveZero(es, n - 1);
    }
  }
}
