/** av8l_fast_prepopulate_pgtables: the three levels for a whole range, page by page. */
module FastBuild {
  import opened OptionType
  import opened FastPte
  import opened FastPgtable
  import opened FastTable

  /** Distinct page addresses, as the page allocator hands them out; the allocation after the last one fails. */
  predicate PoolOk(pool: seq<Page>) {
    && (forall k :: 0 <= k < |pool| ==> IsAddr(pool[k].addr))
    && (forall j, k :: 0 <= j < k < |pool| ==> pool[j] != pool[k])
  }

  function Zeros(): (z: seq<bv64>)
    ensures |z| == 512 && forall k :: 0 <= k < 512 ==> z[k] == 0
  {
    seq(512, _ => 0)
  }

  /** The gigabytes and the 2M chunks of a range. */
  function FirstGiga(base: int): int { base / SZ_1G }
  function LastGiga(end: int): int { (end + (SZ_1G - 1)) / SZ_1G }
  function FirstChunk(base: int): int { base / SZ_2M }
  function LastChunk(end: int): int { (end + (SZ_2M - 1)) / SZ_2M }

  /** pud_next and pmd_next */
  function NextBoundary(addr: int, size: int, end: int): int
    requires size > 0
  {
    var b := (addr / size + 1) * size;
    if b - 1 < end - 1 then b else end
  }

  /** The tables with second-level pages for the gigabytes before i and last-level pages for the chunks before c. */
  ghost predicate Growing(mem: Memory, puds: seq<Page>, pool: seq<Page>, pg: int, i0: int, i: int, c0: int, c: int) {
    && |puds| == 4 && 0 <= i0 <= i <= 4 && 0 <= c0 <= c <= 2048
    && pg == 1 + (i - i0) + (c - c0) <= |pool| && PoolOk(pool)
    && (forall k :: 0 <= k < pg ==> pool[k] in mem && |mem[pool[k]]| == 512)
    && (forall k :: pg <= k < |pool| ==> pool[k] !in mem)
    && (forall q :: i0 <= q < i ==> puds[q] == pool[1 + q - i0])
    && (forall q :: i0 <= q < i ==> Follow(mem, pool[0], q) == Some(puds[q]))
    && (forall x :: c0 <= x < c ==> i0 <= x / 512 < i && Follow(mem, puds[x / 512], x % 512) == Some(pool[1 + (i - i0) + (x - c0)]))
    && (forall k, e :: 1 + (i - i0) <= k < pg && 0 <= e < 512 ==> mem[pool[k]][e] == 0)
  }

  /** A new page of zeros, entered in slot `index` of the table page `u`. */
  function AddTable(mem: Memory, p: Page, u: Page, index: int): Memory
    requires u in mem && 0 <= index < |mem[u]|
  {
    mem[p := Zeros()][u := mem[u][index := p.addr | TYPE_TABLE]]
  }

  lemma AddTableSizes(mem: Memory, p: Page, u: Page, index: int, x: Page)
    requires p !in mem && u in mem && 0 <= index < |mem[u]| && x in mem
    ensures var m := AddTable(mem, p, u, index);
            && x in m && |m[x]| == |mem[x]| && (x != u ==> m[x] == mem[x])
            && p in m && m[p] == Zeros()
  {
    hide Zeros;
  }

  lemma AddTableKeys(mem: Memory, p: Page, u: Page, index: int, x: Page)
    requires u in mem && 0 <= index < |mem[u]| && x != p && x !in mem
    ensures x !in AddTable(mem, p, u, index)
  {
    hide Zeros;
  }

  lemma AddTableFollow(mem: Memory, p: Page, u: Page, index: int, x: Page, k: int)
    requires p !in mem && u in mem && 0 <= index < |mem[u]| && x in mem && IsAddr(p.addr)
    ensures Follow(AddTable(mem, p, u, index), x, k) == if x == u && k == index then Some(p) else Follow(mem, x, k)
  {
    hide Zeros;
    TableEntry(p.addr);
  }

  /** A page for gigabyte i. */
  lemma GrowPud(mem: Memory, puds: seq<Page>, pool: seq<Page>, pg: int, i0: int, i: int, c0: int)
    requires Growing(mem, puds, pool, pg, i0, i, c0, c0) && i < 4 && pg < |pool|
    ensures pool[0] in mem && |mem[pool[0]]| == 512
    ensures Growing(AddTable(mem, pool[pg], pool[0], i), puds[i := pool[pg]], pool, pg + 1, i0, i + 1, c0, c0)
  {
    hide Follow, AddTable, IsAddr;
    var p := pool[pg];
    var mem' := AddTable(mem, p, pool[0], i);
    forall k | 0 <= k < pg + 1 ensures pool[k] in mem' && |mem'[pool[k]]| == 512 {
      AddTableSizes(mem, p, pool[0], i, pool[if k < pg then k else 0]);
    }
    forall k | pg + 1 <= k < |pool| ensures pool[k] !in mem' {
      AddTableKeys(mem, p, pool[0], i, pool[k]);
    }
    forall q | i0 <= q < i + 1 ensures Follow(mem', pool[0], q) == Some(puds[i := p][q]) {
      AddTableFollow(mem, p, pool[0], i, pool[0], q);
    }
  }

  /** A page for chunk c. */
  lemma GrowPmd(mem: Memory, puds: seq<Page>, pool: seq<Page>, pg: int, i0: int, i: int, c0: int, c: int)
    requires Growing(mem, puds, pool, pg, i0, i, c0, c) && c < 2048 && i0 <= c / 512 < i && pg < |pool|
    ensures puds[c / 512] in mem && |mem[puds[c / 512]]| == 512
    ensures Growing(AddTable(mem, pool[pg], puds[c / 512], c % 512), puds, pool, pg + 1, i0, i, c0, c + 1)
  {
    hide Follow, AddTable, IsAddr;
    var p, u := pool[pg], puds[c / 512];
    assert u == pool[1 + c / 512 - i0];
    var mem' := AddTable(mem, p, u, c % 512);
    forall k | 0 <= k < pg + 1 ensures pool[k] in mem' && |mem'[pool[k]]| == 512 {
      AddTableSizes(mem, p, u, c % 512, pool[if k < pg then k else 0]);
    }
    forall k | pg + 1 <= k < |pool| ensures pool[k] !in mem' {
      AddTableKeys(mem, p, u, c % 512, pool[k]);
    }
    forall q | i0 <= q < i ensures Follow(mem', pool[0], q) == Some(puds[q]) {
      AddTableFollow(mem, p, u, c % 512, pool[0], q);
    }
    forall x | c0 <= x < c + 1
      ensures i0 <= x / 512 < i && Follow(mem', puds[x / 512], x % 512) == Some(pool[1 + (i - i0) + (x - c0)])
    {
      assert puds[x / 512] == pool[1 + x / 512 - i0];
      AddTableFollow(mem, p, u, c % 512, puds[x / 512], x % 512);
    }
    forall k, e | 1 + (i - i0) <= k < pg + 1 && 0 <= e < 512 ensures mem'[pool[k]][e] == 0 {
      AddTableSizes(mem, p, u, c % 512, pool[if k < pg then k else 0]);
    }
  }

  /** All pages in place: the table is built and maps nothing. */
  lemma GrownIsBuilt(mem: Memory, puds: seq<Page>, pool: seq<Page>, pg: int, base: int, end: int)
    requires 0 <= base <= end <= SZ_4G && base < end
    requires Growing(mem, puds, pool, pg, FirstGiga(base), LastGiga(end), FirstChunk(base), LastChunk(end))
    ensures var pmds := pool[1 + LastGiga(end) - FirstGiga(base)..pg];
            && Built(mem, pool[0], puds, pmds, base, end)
            && forall j :: base <= j < end ==> Translate(mem, pool[0], j) == None
  {
    var first := 1 + LastGiga(end) - FirstGiga(base);
    var pmds := pool[first..pg];
    assert forall i :: 0 <= i < |pmds| ==> pmds[i] == pool[first + i];
    assert Built(mem, pool[0], puds, pmds, base, end);
    forall j | base <= j < end ensures Translate(mem, pool[0], j) == None {
      TranslateIsFlat(mem, pool[0], puds, pmds, base, end, j);
      var k := FlatIndex(base, j);
      hide Growing, Built, Translate, FlatIndex;
      assert FlatRead(mem, pmds, k) == 0;
    }
  }

  /** How many pages the range needs: never more than 1 + 4 + 2048. */
  function PagesNeeded(base: int, end: int): (n: int)
    requires 0 <= base < end <= SZ_4G
    ensures n <= 1 + 4 + 2048
  {
    1 + (LastGiga(end) - FirstGiga(base)) + (LastChunk(end) - FirstChunk(base))
  }

  lemma Boundaries(base: int, end: int)
    requires 0 <= base < end <= SZ_4G
    ensures 0 <= FirstGiga(base) < LastGiga(end) <= 4 && 0 <= FirstChunk(base) < LastChunk(end) <= 2048
    ensures forall x :: FirstChunk(base) <= x < LastChunk(end) ==> FirstGiga(base) <= x / 512 < LastGiga(end)
  {
    ChunkGiga(base, end);
  }

  /** The address at which a loop over gigabytes or chunks is in round i. */
  function LoopAddr(base: int, end: int, size: int, i: int): int
    requires size > 0
  {
    if i == base / size then base else if i * size < end then i * size else end
  }

  lemma GigaRound(base: int, end: int, i: int)
    requires 0 <= base < end <= SZ_4G && FirstGiga(base) <= i <= LastGiga(end)
    ensures LoopAddr(base, end, SZ_1G, i) < end <==> i < LastGiga(end)
    ensures i < LastGiga(end) ==>
      NextBoundary(LoopAddr(base, end, SZ_1G, i), SZ_1G, end) == LoopAddr(base, end, SZ_1G, i + 1)
  {
  }

  /** In gigabyte i: the loop over its chunks runs from the first to the last of them. */
  lemma ChunkRound(base: int, end: int, i: int, c: int)
    requires 0 <= base < end <= SZ_4G && FirstGiga(base) <= i < LastGiga(end)
    requires FirstOf(base, i) <= c <= FirstOf2(end, i + 1)
    ensures LoopAddr(base, end, SZ_2M, c) < LoopAddr(base, end, SZ_1G, i + 1) <==> c < FirstOf2(end, i + 1)
    ensures c < FirstOf2(end, i + 1) ==>
      && c / 512 == i
      && NextBoundary(LoopAddr(base, end, SZ_2M, c), SZ_2M, end) == LoopAddr(base, end, SZ_2M, c + 1)
  {
  }

  /** The first chunk of gigabyte i in the range. */
  function FirstOf(base: int, i: int): int {
    if i == FirstGiga(base) then FirstChunk(base) else i * 512
  }

  /** The chunk after the last of the gigabytes before i. */
  function FirstOf2(end: int, i: int): int {
    if i * 512 < LastChunk(end) then i * 512 else LastChunk(end)
  }

  lemma GrowStart(pool: seq<Page>, i0: int, c0: int)
    requires PoolOk(pool) && |pool| >= 1 && 0 <= i0 <= 4 && 0 <= c0 <= 2048
    ensures Growing(map[pool[0] := Zeros()], [Page(0), Page(0), Page(0), Page(0)], pool, 1, i0, i0, c0, c0)
  {
  }

  /** The first loop: a second-level page for each gigabyte. */
  method BuildPuds(pool: seq<Page>, base: int, end: int) returns (ok: bool, mem: Memory, puds: seq<Page>, pg: int)
    requires 0 <= base < end <= SZ_4G && PoolOk(pool)
    ensures ok <==> |pool| >= 1 + (LastGiga(end) - FirstGiga(base))
    ensures ok ==> Growing(mem, puds, pool, pg, FirstGiga(base), LastGiga(end), FirstChunk(base), FirstChunk(base))
  {
    hide Growing, LastGiga, LoopAddr, NextBoundary, FirstChunk, AddTable;
    Boundaries(base, end);
    mem, puds, pg := map[], [Page(0), Page(0), Page(0), Page(0)], 0;
    if |pool| == 0 {
      return false, mem, puds, pg;
    }
    mem, pg := map[pool[0] := Zeros()], 1;
    GrowStart(pool, FirstGiga(base), FirstChunk(base));
    var i, pud := FirstGiga(base), base;
    GigaStart(base, end);
    while pud < end
      invariant FirstGiga(base) <= i <= LastGiga(end) && pud == LoopAddr(base, end, SZ_1G, i)
      invariant pg == 1 + (i - FirstGiga(base)) <= |pool|
      invariant Growing(mem, puds, pool, pg, FirstGiga(base), i, FirstChunk(base), FirstChunk(base))
      decreases LastGiga(end) - i
    {
      GigaRound(base, end, i);
      if pg == |pool| {
        return false, mem, puds, pg;
      }
      GrowPud(mem, puds, pool, pg, FirstGiga(base), i, FirstChunk(base));
      PudsLength(mem, puds, pool, pg, FirstGiga(base), i, FirstChunk(base));
      mem, puds, pg := AddTable(mem, pool[pg], pool[0], i), puds[i := pool[pg]], pg + 1;
      i, pud := i + 1, NextBoundary(pud, SZ_1G, end);
    }
    GigaRound(base, end, i);
    ok := true;
  }

  lemma PudsLength(mem: Memory, puds: seq<Page>, pool: seq<Page>, pg: int, i0: int, i: int, c: int)
    requires Growing(mem, puds, pool, pg, i0, i, c, c)
    ensures |puds| == 4
  {
    hide Follow;
  }

  lemma GigaStart(base: int, end: int)
    requires 0 <= base < end <= SZ_4G
    ensures LoopAddr(base, end, SZ_1G, FirstGiga(base)) == base
  {
  }

  /** The chunks done when the loops are at chunk c of gigabyte i. */
  lemma ChunkStart(base: int, end: int, i: int)
    requires 0 <= base < end <= SZ_4G && FirstGiga(base) <= i < LastGiga(end)
    ensures LoopAddr(base, end, SZ_2M, FirstOf(base, i)) == LoopAddr(base, end, SZ_1G, i)
    ensures FirstOf(base, i) <= FirstOf2(end, i + 1)
    ensures i + 1 < LastGiga(end) ==> FirstOf(base, i + 1) == FirstOf2(end, i + 1)
    ensures FirstOf2(end, LastGiga(end)) == LastChunk(end)
  {
  }

  /** The inner loop: a last-level page for each chunk of gigabyte i. */
  method BuildGiga(mem0: Memory, puds: seq<Page>, pool: seq<Page>, pg0: int, base: int, end: int, i: int, pud: int)
    returns (ok: bool, mem: Memory, pg: int)
    requires 0 <= base < end <= SZ_4G && FirstGiga(base) <= i < LastGiga(end) && pud == LoopAddr(base, end, SZ_1G, i)
    requires Growing(mem0, puds, pool, pg0, FirstGiga(base), LastGiga(end), FirstChunk(base), FirstOf(base, i))
    ensures ok <==> |pool| - pg0 >= FirstOf2(end, i + 1) - FirstOf(base, i)
    ensures ok ==> pg == pg0 + FirstOf2(end, i + 1) - FirstOf(base, i)
    ensures ok ==> Growing(mem, puds, pool, pg, FirstGiga(base), LastGiga(end), FirstChunk(base), FirstOf2(end, i + 1))
  {
    hide Growing, LastGiga, LoopAddr, NextBoundary, FirstChunk, AddTable, FirstOf, FirstOf2, LastChunk;
    mem, pg := mem0, pg0;
    ChunkStart(base, end, i);
    GigaRound(base, end, i);
    InPool(mem, puds, pool, pg, FirstGiga(base), LastGiga(end), FirstChunk(base), FirstOf(base, i));
    var pmd := pud;
    ghost var c := FirstOf(base, i);
    ChunkRound(base, end, i, c);
    while pmd < NextBoundary(pud, SZ_1G, end)
      invariant FirstOf(base, i) <= c <= FirstOf2(end, i + 1) && pmd == LoopAddr(base, end, SZ_2M, c)
      invariant pg == pg0 + (c - FirstOf(base, i)) <= |pool|
      invariant Growing(mem, puds, pool, pg, FirstGiga(base), LastGiga(end), FirstChunk(base), c)
      decreases FirstOf2(end, i + 1) - c
    {
      ChunkRound(base, end, i, c);
      ChunkOf(base, end, i, c);
      if pg == |pool| {
        return false, mem, pg;
      }
      GrowPmd(mem, puds, pool, pg, FirstGiga(base), LastGiga(end), FirstChunk(base), c);
      var j := pmd / SZ_2M % 512;
      mem, pg := AddTable(mem, pool[pg], puds[i], j), pg + 1;
      pmd := NextBoundary(pmd, SZ_2M, end);
      c := c + 1;
    }
    ChunkRound(base, end, i, c);
    ok := true;
  }

  /** j is the chunk's index in its gigabyte. */
  lemma ChunkOf(base: int, end: int, i: int, c: int)
    requires 0 <= base < end <= SZ_4G && FirstGiga(base) <= i < LastGiga(end)
    requires FirstOf(base, i) <= c < FirstOf2(end, i + 1)
    ensures LoopAddr(base, end, SZ_2M, c) / SZ_2M % 512 == c % 512 && c < 2048
  {
  }

  lemma InPool(mem: Memory, puds: seq<Page>, pool: seq<Page>, pg: int, i0: int, i: int, c0: int, c: int)
    requires Growing(mem, puds, pool, pg, i0, i, c0, c)
    ensures 1 <= pg == 1 + (i - i0) + (c - c0) <= |pool| && |puds| == 4
  {
    hide Follow;
  }

  /**
   av8l_fast_prepopulate_pgtables. It succeeds exactly when the page array, the pages and the flat mapping can be had;
   then the table covers the range, translates nothing, and uses at most 1 + 4 + 2048 pages.
   */
  method Prepopulate(t: Table, arrayOk: bool, vmapOk: bool, pool: seq<Page>, base: int, end: int) returns (ok: bool)
    requires 0 <= base < end <= SZ_4G && PoolOk(pool)
    modifies t
    ensures ok <==> arrayOk && vmapOk && |pool| >= PagesNeeded(base, end)
    ensures ok ==> t.Valid() && t.base == base && t.end == end && t.pages == PagesNeeded(base, end) <= 1 + 4 + 2048
    ensures ok ==> forall j :: base <= j < end ==> t.Phys(j) == None
  {
    hide Growing, LastGiga, LoopAddr, NextBoundary, FirstChunk, FirstOf, FirstOf2, LastChunk, Translate, Built;
    if !arrayOk {
      return false;
    }
    Boundaries(base, end);
    var built, mem, puds, pg := BuildPuds(pool, base, end);
    if !built {
      return false;
    }
    ghost var i0, iN, c0 := FirstGiga(base), LastGiga(end), FirstChunk(base);
    InPool(mem, puds, pool, pg, i0, iN, c0, c0);
    var first := pg;
    var i, pud := FirstGiga(base), base;
    GigaStart(base, end);
    DoneAll(base, end);
    while pud < end
      invariant FirstGiga(base) <= i <= LastGiga(end) && pud == LoopAddr(base, end, SZ_1G, i)
      invariant Growing(mem, puds, pool, pg, i0, iN, c0, DoneBefore(base, end, i))
      invariant pg == first + (DoneBefore(base, end, i) - c0) <= |pool|
      decreases LastGiga(end) - i
    {
      GigaRound(base, end, i);
      DoneNext(base, end, i);
      var more;
      more, mem, pg := BuildGiga(mem, puds, pool, pg, base, end, i, pud);
      if !more {
        return false;
      }
      i, pud := i + 1, NextBoundary(pud, SZ_1G, end);
    }
    GigaRound(base, end, i);
    if !vmapOk {
      return false;
    }
    GrownIsBuilt(mem, puds, pool, pg, base, end);
    t.mem, t.pgd, t.puds, t.pmds, t.base, t.end, t.pages := mem, pool[0], puds, pool[first..pg], base, end, pg;
    ok := true;
  }

  /** The chunks before gigabyte i. */
  function DoneBefore(base: int, end: int, i: int): int {
    if i < LastGiga(end) then FirstOf(base, i) else LastChunk(end)
  }

  lemma DoneNext(base: int, end: int, i: int)
    requires 0 <= base < end <= SZ_4G && FirstGiga(base) <= i < LastGiga(end)
    ensures DoneBefore(base, end, i) == FirstOf(base, i) && DoneBefore(base, end, i + 1) == FirstOf2(end, i + 1)
    ensures FirstOf2(end, i + 1) <= LastChunk(end)
  {
    ChunkStart(base, end, i);
  }

  lemma DoneAll(base: int, end: int)
    requires 0 <= base < end <= SZ_4G
    ensures DoneBefore(base, end, LastGiga(end)) == LastChunk(end)
    ensures DoneBefore(base, end, FirstGiga(base)) == FirstChunk(base)
  {
    Boundaries(base, end);
  }
}
