/** The branch of unmap for last-level entries: what it leaves. */
module LpaeLast {
  import opened OptionType
  import opened LpaeTree
  import opened LpaeOps
  import opened LpaeCut
  import opened LpaeFill
  import opened LpaeCount
  import opened LpaeSteps
  import opened LpaeCareless
  import opened LpaeEmpty

  /** min(pgcount, max_entries) */
  function Room(leaf: int, iova: int, count: int): (n: int)
    ensures count >= 1 ==> 1 <= n <= count && Idx(leaf, iova) + n <= 512
  {
    if count <= 512 - Idx(leaf, iova) then count else 512 - Idx(leaf, iova)
  }

  /** The first page of the entry that an aligned page begins. */
  lemma AlignedStart(level: int, base: int, p: int)
    requires 0 <= level <= 3 && base % Span(level) == 0 && Covers(level, base, p) && p % Size(level) == 0
    ensures Sub(level, base, Idx(level, p)) == p
  {
    hide Idx, Span;
    IdxIs(level, base, p);
    OffsetIn(level, base, Idx(level, p), p);
  }

  /** A run from an aligned page, counted from that page. */
  lemma RunFrom(level: int, base: int, p0: int, n: int, p: int)
    requires 0 <= level <= 3 && base % Span(level) == 0 && Covers(level, base, p0) && p0 % Size(level) == 0
    ensures InRun(level, base, Idx(level, p0), n, p) <==> p0 <= p < Sub(level, p0, n)
  {
    hide Idx, Span;
    AlignedStart(level, base, p0);
  }

  lemma EntryNext(mem: Memory, meta: Metas, root: int, start: int, t: int, i: int)
    requires Ok(mem, meta, root, start) && t in meta && 0 <= i < 512
    ensures t in mem && |mem[t]| == 512
    ensures mem[t][i].Table? ==>
      var n := mem[t][i].next;
      meta[t].level < 3 && n in meta && meta[n] == Meta(meta[t].level + 1, Sub(meta[t].level, meta[t].base, i), t, i) && n != root
  {
    hide Span, Sub;
    At(mem, meta, root, start, t);
    assert EntryOk(meta, t, i, mem[t][i]);
  }

  /** An entry of a table after k from u have been cleared. */
  function Left(mem: Memory, n: int, u: int, k: int, j: int): Entry {
    if n in mem && 0 <= j < |mem[n]| && !(u <= j < u + k) then mem[n][j] else Empty
  }

  lemma ClearedLeaves(mem: Memory, t: int, i: int, n: int, u: int, k: int)
    requires n in mem && |mem[n]| == 512 && t != n
    ensures var mem' := Cleared(mem, t, i, n, u, k);
            n in mem' && |mem'[n]| == 512 && forall j :: 0 <= j < 512 ==> mem'[n][j] == Left(mem, n, u, k, j)
  {
  }

  /** The table itself goes with the cut. */
  lemma CutGone(mem: Memory, meta: Metas, root: int, start: int, t: int, i: int)
    requires Ok(mem, meta, root, start) && t in meta && meta[t].level == 2 && 0 <= i < 512 && t in mem && |mem[t]| == 512 && mem[t][i].Table?
    ensures mem[t][i].next !in Cut(mem, meta, t, i)
  {
    EntryNext(mem, meta, root, start, t, i);
    hide Ok;
  }

  lemma CutSmaller(meta: Metas, t: int, i: int)
    requires t in meta
    ensures forall x :: x in CutMeta(meta, t, i) ==> x in meta
  {
    hide Sub, Within;
  }

  /** The run of last-level entries from a page on, as pages. */
  lemma LeafRun(mem: Memory, meta: Metas, root: int, start: int, t: int, i: int, iova: int, num: int)
    requires Ok(mem, meta, root, start) && t in meta && meta[t].level == 2 && 0 <= i < 512
    requires t in mem && |mem[t]| == 512 && mem[t][i].Table? && InEntry(meta, t, i, iova)
    ensures var n := mem[t][i].next;
            n in meta && forall p :: InRun(3, meta[n].base, Idx(3, iova), num, p) <==> iova <= p < iova + num
  {
    hide Ok, EntryOk;
    var n := mem[t][i].next;
    NextLevel(mem, meta, root, start, t, i);
    InTableEntry(mem, meta, root, start, t, i, iova);
    At(mem, meta, root, start, n);
    AlignedStart(3, meta[n].base, iova);
    hide Idx;
  }

  /** Clearing leaves a table descriptor where it was. */
  lemma ClearedHas(mem: Memory, t: int, i: int, n: int, u: int, k: int)
    requires t in mem && |mem[t]| == 512 && 0 <= i < 512 && mem[t][i].Table? && t != n && n in mem
    ensures var mem' := Cleared(mem, t, i, n, u, k);
            t in mem' && |mem'[t]| == 512 && mem'[t][i].Table? && mem'[t][i].next == mem[t][i].next && n in mem'
  {
  }

  /** The entries of mapped pages are in use. */
  lemma LeavesInUse(mem: Memory, meta: Metas, root: int, start: int, t: int, i: int, iova: int, num: int)
    requires Ok(mem, meta, root, start) && t in meta && meta[t].level == 2 && 0 <= i < 512
    requires t in mem && |mem[t]| == 512 && mem[t][i].Table? && InEntry(meta, t, i, iova)
    requires 1 <= num && Idx(3, iova) + num <= 512
    requires forall p :: iova <= p < iova + num ==> Walk(mem, root, start, p).Some?
    ensures var n := mem[t][i].next;
            && n in meta && n in mem && |mem[n]| == 512
            && (forall j :: Idx(3, iova) <= j < Idx(3, iova) + num ==> !mem[n][j].Empty?)
  {
    hide Ok, Walk, EntryOk, Idx;
    var n := mem[t][i].next;
    NextLevel(mem, meta, root, start, t, i);
    InTableEntry(mem, meta, root, start, t, i, iova);
    At(mem, meta, root, start, n);
    AlignedStart(3, meta[n].base, iova);
    forall j | Idx(3, iova) <= j < Idx(3, iova) + num ensures !mem[n][j].Empty? {
      LastPage(mem, meta, root, start, n, j);
    }
  }

  lemma SameLeaf(iova: int, count: int, p: int)
    requires count >= 1 && iova <= p < iova + Room(3, iova, count)
    ensures var r := iova - iova % 512; r % 512 == 0 && r <= iova <= p < r + 512
  {
  }

  /** The level of the entries that an unmap clears: a block size above the level of a table is taken for single pages. */
  function Unit(level: int, leaf: int): int {
    if leaf < level then 3 else leaf
  }

  /** Exactly the pages from lo to before hi are unmapped. */
  ghost predicate Removed(mem: Memory, mem': Memory, root: int, start: int, lo: int, hi: int) {
    forall p :: 0 <= p < Span(start) ==> Walk(mem', root, start, p) == if lo <= p < hi then None else Walk(mem, root, start, p)
  }

  /** The pages from lo to before hi are unmapped; others keep their translation or lose it. */
  ghost predicate Fewer(mem: Memory, mem': Memory, root: int, start: int, lo: int, hi: int) {
    forall p :: 0 <= p < Span(start) ==>
      Walk(mem', root, start, p) == None || (Walk(mem', root, start, p) == Walk(mem, root, start, p) && !(lo <= p < hi))
  }

  /** The pages outside lo to before hi keep their translations. */
  ghost predicate KeptOutside(mem: Memory, mem': Memory, root: int, start: int, lo: int, hi: int) {
    forall p :: 0 <= p < Span(start) && !(lo <= p < hi) ==> Walk(mem', root, start, p) == Walk(mem, root, start, p)
  }

  lemma RemovedIs(mem: Memory, mem': Memory, root: int, start: int, lo: int, hi: int, end: int)
    requires Removed(mem, mem', root, start, lo, hi) && hi <= end
    ensures Fewer(mem, mem', root, start, lo, hi) && KeptOutside(mem, mem', root, start, lo, end)
  {
    hide Walk, Span;
  }

  /** The last-level entries of a table are in order: the pages that the branch unmaps. */
  ghost predicate LastRun(mem: Memory, meta: Metas, t: int, i: int, u: int, k: int) {
    && t in meta && meta[t].level == 2 && 0 <= i < 512 && t in mem && |mem[t]| == 512 && mem[t][i].Table?
    && 0 <= u && 1 <= k && u + k <= 512
  }

  lemma LastOk(mem: Memory, meta: Metas, root: int, start: int, t: int, i: int, u: int, k: int)
    requires Ok(mem, meta, root, start) && LastRun(mem, meta, t, i, u, k)
    ensures Ok(UnmapLast(mem, meta, t, i, u, k), UnmapLastMeta(mem, meta, t, i, u, k), root, start)
    ensures forall x :: x in UnmapLastMeta(mem, meta, t, i, u, k) ==> x in meta
  {
    hide Ok, Walk, Cleared, Cut, CutMeta, InRun;
    NextLevel(mem, meta, root, start, t, i);
    ClearedTrans(mem, meta, root, start, t, i, u, k);
    ClearedHas(mem, t, i, mem[t][i].next, u, k);
    CutOk(Cleared(mem, t, i, mem[t][i].next, u, k), meta, root, start, t, i);
    CutSmaller(meta, t, i);
  }

  /** The pages of the run are unmapped; others keep their translation or lose it. */
  lemma LastTrans(mem: Memory, meta: Metas, root: int, start: int, t: int, i: int, u: int, k: int, p: int)
    requires Ok(mem, meta, root, start) && LastRun(mem, meta, t, i, u, k) && 0 <= p < Span(start)
    ensures mem[t][i].next in meta
    ensures var w := Walk(UnmapLast(mem, meta, t, i, u, k), root, start, p);
      && (InRun(3, meta[mem[t][i].next].base, u, k, p) ==> w == None)
      && (w == None || w == Walk(mem, root, start, p))
  {
    hide Ok, Walk, Cleared, Cut, CutMeta, InRun, Span;
    var n := mem[t][i].next;
    NextLevel(mem, meta, root, start, t, i);
    ClearedTrans(mem, meta, root, start, t, i, u, k);
    ClearedHas(mem, t, i, n, u, k);
    CutTrans(Cleared(mem, t, i, n, u, k), meta, root, start, t, i, p);
  }

  /** If the pages were mapped, nothing else is lost, the counts are right, and the table goes exactly when it has become empty. */
  lemma LastCareful(mem: Memory, meta: Metas, root: int, start: int, t: int, i: int, u: int, k: int)
    requires Good(mem, meta, root, start) && LastRun(mem, meta, t, i, u, k)
    requires var n := mem[t][i].next; n in mem && |mem[n]| == 512 && forall j :: u <= j < u + k ==> !mem[n][j].Empty?
    ensures Good(UnmapLast(mem, meta, t, i, u, k), UnmapLastMeta(mem, meta, t, i, u, k), root, start)
    ensures mem[t][i].next !in UnmapLast(mem, meta, t, i, u, k) <==> forall j :: 0 <= j < 512 ==> Left(mem, mem[t][i].next, u, k, j).Empty?
  {
    hide Ok, Walk, CountsOk, Cleared, Cut, CutMeta, InRun, Live, EntryOk;
    var n := mem[t][i].next;
    NextLevel(mem, meta, root, start, t, i);
    ClearedTrans(mem, meta, root, start, t, i, u, k);
    ClearedCounts(mem, meta, root, start, t, i, u, k);
    ClearedLeaves(mem, t, i, n, u, k);
    var mem' := Cleared(mem, t, i, n, u, k);
    CutGood(mem', meta, root, start, t, i);
    CutGone(mem', meta, root, start, t, i);
  }

  lemma LastCarefulTrans(mem: Memory, meta: Metas, root: int, start: int, t: int, i: int, u: int, k: int, p: int)
    requires Good(mem, meta, root, start) && LastRun(mem, meta, t, i, u, k) && 0 <= p < Span(start)
    requires var n := mem[t][i].next; n in mem && |mem[n]| == 512 && forall j :: u <= j < u + k ==> !mem[n][j].Empty?
    ensures mem[t][i].next in meta
    ensures Walk(UnmapLast(mem, meta, t, i, u, k), root, start, p) ==
            if InRun(3, meta[mem[t][i].next].base, u, k, p) then None else Walk(mem, root, start, p)
  {
    hide Ok, Walk, CountsOk, Cleared, Cut, CutMeta, InRun, Live, EntryOk, Span;
    LastTrans(mem, meta, root, start, t, i, u, k, p);
    OthersKeptIff(mem, meta, root, start, t, i, u, k);
  }

  /** Among the last-level tables only the one that is cleared changes. */
  lemma LastUsed(mem: Memory, meta: Metas, root: int, start: int, t: int, i: int, u: int, k: int)
    requires Good(mem, meta, root, start) && LastRun(mem, meta, t, i, u, k) && NoEmptyLast(mem, meta)
    requires var n := mem[t][i].next; n in mem && |mem[n]| == 512 && forall j :: u <= j < u + k ==> !mem[n][j].Empty?
    ensures NoEmptyLast(UnmapLast(mem, meta, t, i, u, k), UnmapLastMeta(mem, meta, t, i, u, k))
  {
    hide Ok, CountsOk, Live, Used, Cut, CutMeta, Cleared;
    var n := mem[t][i].next;
    NextLevel(mem, meta, root, start, t, i);
    KeysIn(mem, meta, root, start);
    ClearedOthers(mem, t, i, n, u, k);
    ClearedCounts(mem, meta, root, start, t, i, u, k);
    var mem': Memory := Cleared(mem, t, i, n, u, k);
    if mem'[t][i].cnt == 0 {
      CutGone(mem', meta, root, start, t, i) by { ClearedTrans(mem, meta, root, start, t, i, u, k); }
      CutSub(meta, t, i);
      forall x | x in CutMeta(meta, t, i) && x in Cut(mem', meta, t, i) && meta[x].level == 3
        ensures Used(Cut(mem', meta, t, i)[x])
      {
        CutHas(mem', meta, t, i, x);
      }
    } else {
      assert Used(mem'[n]) by {
        var j :| 0 <= j < 512 && !mem'[n][j].Empty?;
        SomeUsed(mem'[n], j);
      }
    }
  }

  lemma SomeUsed(es: seq<Entry>, j: int)
    requires 0 <= j < |es| && !es[j].Empty?
    ensures Used(es)
  {
  }

  lemma ClearedOthers(mem: Memory, t: int, i: int, n: int, u: int, k: int)
    requires t in mem && |mem[t]| == 512 && 0 <= i < 512 && mem[t][i].Table? && t != n && n in mem
    ensures var mem' := Cleared(mem, t, i, n, u, k);
            mem'.Keys == mem.Keys && forall x :: x in mem && x != t && x != n ==> mem'[x] == mem[x]
  {
  }

  /** All that the branch does, in terms of pages. */
  lemma LastEffect(mem: Memory, meta: Metas, root: int, start: int, t: int, i: int, iova: int, k: int)
    requires Good(mem, meta, root, start) && LastRun(mem, meta, t, i, Idx(3, iova), k) && InEntry(meta, t, i, iova)
    ensures var mem' := UnmapLast(mem, meta, t, i, Idx(3, iova), k);
      && Fewer(mem, mem', root, start, iova, iova + k)
      && (KeptOutside(mem, mem', root, start, iova, iova + k) <==> !Orphans(mem, root, start, iova, k))
  {
    hide Ok, CountsOk, Walk, UnmapLast, InRun, Orphans, Span, Idx;
    var u, n := Idx(3, iova), mem[t][i].next;
    LeafRun(mem, meta, root, start, t, i, iova, k);
    forall p | 0 <= p < Span(start)
      ensures var w := Walk(UnmapLast(mem, meta, t, i, u, k), root, start, p);
              w == None || (w == Walk(mem, root, start, p) && !(iova <= p < iova + k))
    {
      LastTrans(mem, meta, root, start, t, i, u, k, p);
    }
    OthersKeptIff(mem, meta, root, start, t, i, u, k);
    OrphansIff(mem, meta, root, start, t, i, iova, k);
  }

  /** The same for a caller whose pages are mapped. */
  lemma LastCarefulEffect(mem: Memory, meta: Metas, root: int, start: int, t: int, i: int, iova: int, k: int)
    requires Good(mem, meta, root, start) && LastRun(mem, meta, t, i, Idx(3, iova), k) && InEntry(meta, t, i, iova)
    requires forall p :: iova <= p < iova + k ==> Walk(mem, root, start, p).Some?
    ensures var u, n := Idx(3, iova), mem[t][i].next;
      var mem', meta' := UnmapLast(mem, meta, t, i, u, k), UnmapLastMeta(mem, meta, t, i, u, k);
      && Good(mem', meta', root, start) && Removed(mem, mem', root, start, iova, iova + k)
      && (n !in mem' <==> forall j :: 0 <= j < 512 ==> Left(mem, n, u, k, j).Empty?)
      && (NoEmptyLast(mem, meta) ==> NoEmptyLast(mem', meta'))
  {
    hide Ok, CountsOk, Walk, UnmapLast, UnmapLastMeta, InRun, Span, Idx, Left, NoEmptyLast;
    var u, n := Idx(3, iova), mem[t][i].next;
    LeafRun(mem, meta, root, start, t, i, iova, k);
    LeavesInUse(mem, meta, root, start, t, i, iova, k);
    LastCareful(mem, meta, root, start, t, i, u, k);
    if NoEmptyLast(mem, meta) { LastUsed(mem, meta, root, start, t, i, u, k); }
    forall p | 0 <= p < Span(start)
      ensures Walk(UnmapLast(mem, meta, t, i, u, k), root, start, p) == if iova <= p < iova + k then None else Walk(mem, root, start, p)
    {
      LastCarefulTrans(mem, meta, root, start, t, i, u, k, p);
    }
  }
}
