/** What an unmap of pages that are not all mapped does to the other translations of its last-level table. */
module LpaeCareless {
  import opened OptionType
  import opened LpaeTree
  import opened LpaeOps
  import opened LpaeCut
  import opened LpaeFill
  import opened LpaeCount
  import opened LpaeSteps
  import opened LpaeVacant

  /** The last-level branch of __arm_lpae_unmap: entries cleared, count reduced, and the table freed at count zero. */
  function UnmapLast(mem: Memory, meta: Metas, t: int, i: int, u: int, k: int): Memory
    requires t in meta && t in mem && |mem[t]| == 512 && 0 <= i < 512 && mem[t][i].Table?
  {
    var mem' := Cleared(mem, t, i, mem[t][i].next, u, k);
    if t in mem' && |mem'[t]| == 512 && mem'[t][i].Table? && mem'[t][i].cnt == 0 then Cut(mem', meta, t, i) else mem'
  }

  function UnmapLastMeta(mem: Memory, meta: Metas, t: int, i: int, u: int, k: int): Metas
    requires t in meta && t in mem && |mem[t]| == 512 && 0 <= i < 512 && mem[t][i].Table?
  {
    var mem' := Cleared(mem, t, i, mem[t][i].next, u, k);
    if t in mem' && |mem'[t]| == 512 && mem'[t][i].Table? && mem'[t][i].cnt == 0 then CutMeta(meta, t, i) else meta
  }

  /** All pages but those of the k entries from u of table n keep their translations. */
  ghost predicate OthersKept(mem: Memory, mem': Memory, meta: Metas, root: int, start: int, n: int, u: int, k: int)
    requires n in meta
  {
    forall p :: 0 <= p < Span(start) && !InRun(3, meta[n].base, u, k, p) ==> Walk(mem', root, start, p) == Walk(mem, root, start, p)
  }

  lemma {:induction false} LiveInside(es: seq<Entry>, u: int, k: int, hole: int, n: nat)
    requires n <= |es| && 0 <= u <= hole < u + k <= |es| && es[hole].Empty?
    requires forall j :: 0 <= j < |es| && !(u <= j < u + k) ==> es[j].Empty?
    ensures Live(es, n) <= (if n <= u then 0 else if n <= u + k then n - u else k) - (if n > hole then 1 else 0)
  {
    if n > 0 {
      LiveInside(es, u, k, hole, n - 1);
    }
  }

  /** As many entries in use as the run is long, but a hole in the run: one in use lies outside. */
  lemma OneOutside(es: seq<Entry>, u: int, k: int, hole: int) returns (j: int)
    requires |es| == 512 && 0 <= u <= hole < u + k <= 512 && es[hole].Empty? && Live(es, 512) == k
    ensures 0 <= j < 512 && !(u <= j < u + k) && !es[j].Empty?
  {
    if forall j :: 0 <= j < |es| && !(u <= j < u + k) ==> es[j].Empty? {
      LiveInside(es, u, k, hole, 512);
    }
    j :| 0 <= j < 512 && !(u <= j < u + k) && !es[j].Empty?;
  }

  /** The page of an entry of the last level. */
  lemma LastPage(mem: Memory, meta: Metas, root: int, start: int, n: int, j: int)
    requires Ok(mem, meta, root, start) && n in meta && meta[n].level == 3 && 0 <= j < 512
    ensures n in mem && |mem[n]| == 512
    ensures 0 <= meta[n].base + j < Span(start) && InEntry(meta, n, j, meta[n].base + j)
    ensures Walk(mem, root, start, meta[n].base + j).Some? <==> mem[n][j].Leaf?
  {
    At(mem, meta, root, start, n);
    RootCovers(mem, meta, root, start, n, meta[n].base + j);
    hide Ok, Walk, Span, Idx;
    WalkThrough(mem, meta, root, start, n, j, meta[n].base + j);
  }

  lemma {:induction false} RootCovers(mem: Memory, meta: Metas, root: int, start: int, t: int, p: int)
    requires Ok(mem, meta, root, start) && t in meta && Covers(meta[t].level, meta[t].base, p)
    ensures 0 <= p < Span(start)
    decreases meta[t].level
  {
    hide Ok, Idx, Span, Size, Sub;
    At(mem, meta, root, start, t);
    if t != root {
      Up(mem, meta, root, start, t, p);
      RootCovers(mem, meta, root, start, meta[t].parent, p);
    }
  }

  /**
   Unmapping k last-level entries keeps every other translation if and only if not both the table has exactly k
   pages in use and one of the entries unmapped was not in use.
   */
  lemma OthersKeptIff(mem: Memory, meta: Metas, root: int, start: int, t: int, i: int, u: int, k: int)
    requires Good(mem, meta, root, start) && t in meta && meta[t].level == 2 && 0 <= i < 512
    requires t in mem && |mem[t]| == 512 && mem[t][i].Table? && 0 <= u && 1 <= k && u + k <= 512
    ensures var n := mem[t][i].next;
            && n in meta && n in mem && |mem[n]| == 512
            && (OthersKept(mem, UnmapLast(mem, meta, t, i, u, k), meta, root, start, n, u, k)
                <==> !(mem[t][i].cnt == k && exists j :: u <= j < u + k && mem[n][j].Empty?))
  {
    hide Ok, Walk, Live, Sub, EntryOk, Span, InRun;
    var n := mem[t][i].next;
    NextLevel(mem, meta, root, start, t, i);
    assert CountOk(mem, mem[t][i]);
    ClearedTrans(mem, meta, root, start, t, i, u, k);
    ClearedEntry(mem, t, i, n, u, k);
    if mem[t][i].cnt == k {
      if hole :| u <= hole < u + k && mem[n][hole].Empty? {
        var j := OneOutside(mem[n], u, k, hole);
        Lost(mem, meta, root, start, t, i, u, k, j);
      } else {
        EmptiedKept(mem, meta, root, start, t, i, u, k);
      }
    }
  }

  lemma ClearedEntry(mem: Memory, t: int, i: int, n: int, u: int, k: int)
    requires t in mem && |mem[t]| == 512 && 0 <= i < 512 && mem[t][i].Table? && t != n && 0 <= mem[t][i].cnt <= 512 && 1 <= k <= 512
    ensures var mem' := Cleared(mem, t, i, n, u, k);
            t in mem' && |mem'[t]| == 512 && mem'[t][i].Table? && (mem'[t][i].cnt == 0 <==> mem[t][i].cnt == k)
  {
  }

  /** A page in use outside the run loses its translation with the table. */
  lemma Lost(mem: Memory, meta: Metas, root: int, start: int, t: int, i: int, u: int, k: int, j: int)
    requires Good(mem, meta, root, start) && t in meta && meta[t].level == 2 && 0 <= i < 512
    requires t in mem && |mem[t]| == 512 && mem[t][i].Table? && 0 <= u && 1 <= k && u + k <= 512 && mem[t][i].cnt == k
    requires var n := mem[t][i].next; n in mem && |mem[n]| == 512 && 0 <= j < 512 && !(u <= j < u + k) && !mem[n][j].Empty?
    ensures mem[t][i].next in meta && !OthersKept(mem, UnmapLast(mem, meta, t, i, u, k), meta, root, start, mem[t][i].next, u, k)
  {
    hide Ok, Walk, Live, EntryOk;
    var n := mem[t][i].next;
    NextLevel(mem, meta, root, start, t, i);
    NoTables(mem, meta, root, start, n);
    LastPage(mem, meta, root, start, n, j);
    var p := meta[n].base + j;
    ClearedTrans(mem, meta, root, start, t, i, u, k);
    ClearedEntry(mem, t, i, n, u, k);
    var mem' := Cleared(mem, t, i, n, u, k);
    InTableEntry(mem, meta, root, start, t, i, p);
    CutTrans(mem', meta, root, start, t, i, p);
    assert !InRun(3, meta[n].base, u, k, p);
  }

  lemma InTableEntry(mem: Memory, meta: Metas, root: int, start: int, t: int, i: int, p: int)
    requires Ok(mem, meta, root, start) && t in meta && meta[t].level == 2 && 0 <= i < 512 && t in mem && |mem[t]| == 512 && mem[t][i].Table?
    ensures var n := mem[t][i].next; n in meta && (Covers(3, meta[n].base, p) <==> InEntry(meta, t, i, p))
  {
    At(mem, meta, root, start, t);
    assert EntryOk(meta, t, i, mem[t][i]);
  }

  /** A table that has become empty can go. */
  lemma EmptiedKept(mem: Memory, meta: Metas, root: int, start: int, t: int, i: int, u: int, k: int)
    requires Good(mem, meta, root, start) && t in meta && meta[t].level == 2 && 0 <= i < 512
    requires t in mem && |mem[t]| == 512 && mem[t][i].Table? && 0 <= u && 1 <= k && u + k <= 512 && mem[t][i].cnt == k
    requires var n := mem[t][i].next; n in mem && |mem[n]| == 512 && forall j :: u <= j < u + k ==> !mem[n][j].Empty?
    ensures mem[t][i].next in meta && OthersKept(mem, UnmapLast(mem, meta, t, i, u, k), meta, root, start, mem[t][i].next, u, k)
  {
    hide Ok, Walk, Live, EntryOk, Span, InRun, Sub;
    var n := mem[t][i].next;
    NextLevel(mem, meta, root, start, t, i);
    assert CountOk(mem, mem[t][i]);
    ClearedTrans(mem, meta, root, start, t, i, u, k);
    ClearedEntry(mem, t, i, n, u, k);
    ClearedCounts(mem, meta, root, start, t, i, u, k);
    var mem' := Cleared(mem, t, i, n, u, k);
    forall p | 0 <= p < Span(start) ensures Walk(Cut(mem', meta, t, i), root, start, p) == Walk(mem', root, start, p) {
      CutEmpty(mem', meta, root, start, t, i, p);
    }
  }

  lemma CutEmpty(mem: Memory, meta: Metas, root: int, start: int, t: int, i: int, p: int)
    requires Ok(mem, meta, root, start) && t in meta && meta[t].level == 2 && 0 <= i < 512 && t in mem && |mem[t]| == 512
    requires mem[t][i].Table? && 0 <= p < Span(start)
    requires var n := mem[t][i].next; n in mem && |mem[n]| == 512 && forall j :: 0 <= j < 512 ==> mem[n][j].Empty?
    ensures Walk(Cut(mem, meta, t, i), root, start, p) == Walk(mem, root, start, p)
  {
    hide Ok, Walk, Cut, Idx, EntryOk;
    CutTrans(mem, meta, root, start, t, i, p);
    if InEntry(meta, t, i, p) {
      InTableEntry(mem, meta, root, start, t, i, p);
      NextLevel(mem, meta, root, start, t, i);
      var n := mem[t][i].next;
      WalkThrough(mem, meta, root, start, n, p - meta[n].base, p);
    }
  }

  /* The same condition without the tables. */

  /** How many of the n pages from `base` on are mapped. */
  ghost function MappedIn(mem: Memory, root: int, start: int, base: int, n: nat): nat {
    if n == 0 then 0
    else MappedIn(mem, root, start, base, n - 1) + if Walk(mem, root, start, base + n - 1).Some? then 1 else 0
  }

  /** As many pages of the 2M around `iova` are mapped as the k to be unmapped, but one of the k is not. */
  ghost predicate Orphans(mem: Memory, root: int, start: int, iova: int, k: int) {
    && MappedIn(mem, root, start, Region(3, iova), 512) == k
    && exists p :: iova <= p < iova + k && Walk(mem, root, start, p) == None
  }

  /** The pages mapped are the entries in use. */
  lemma {:induction false} MappedLive(mem: Memory, meta: Metas, root: int, start: int, n: int, j: nat)
    requires Ok(mem, meta, root, start) && n in meta && meta[n].level == 3 && j <= 512
    ensures n in mem && |mem[n]| == 512 && MappedIn(mem, root, start, meta[n].base, j) == Live(mem[n], j)
  {
    hide Ok, Walk, Span;
    NoTables(mem, meta, root, start, n);
    if j > 0 {
      MappedLive(mem, meta, root, start, n, j - 1);
      LastPage(mem, meta, root, start, n, j - 1);
    }
  }

  lemma {:induction false} MappedNone(mem: Memory, root: int, start: int, base: int, n: nat)
    requires forall p :: base <= p < base + n ==> Walk(mem, root, start, p) == None
    ensures MappedIn(mem, root, start, base, n) == 0
  {
    hide Walk;
    if n > 0 {
      MappedNone(mem, root, start, base, n - 1);
    }
  }

  lemma RegionIs(base: int, iova: int)
    requires base % 512 == 0 && Covers(3, base, iova)
    ensures Region(3, iova) == base && Idx(3, iova) == iova - base
  {
  }

  /** For pages of a last-level table the condition says what its count and its entries say. */
  lemma OrphansIff(mem: Memory, meta: Metas, root: int, start: int, t: int, i: int, iova: int, k: int)
    requires Good(mem, meta, root, start) && t in meta && meta[t].level == 2 && 0 <= i < 512 && t in mem && |mem[t]| == 512
    requires mem[t][i].Table? && InEntry(meta, t, i, iova) && 1 <= k && Idx(3, iova) + k <= 512
    ensures var n, u := mem[t][i].next, Idx(3, iova);
            && n in mem && |mem[n]| == 512
            && (Orphans(mem, root, start, iova, k) <==> mem[t][i].cnt == k && exists j :: u <= j < u + k && mem[n][j].Empty?)
  {
    hide Ok, Walk, Live, EntryOk, MappedIn, Idx, Region;
    var n, u := mem[t][i].next, Idx(3, iova);
    NextLevel(mem, meta, root, start, t, i);
    assert CountOk(mem, mem[t][i]);
    InTableEntry(mem, meta, root, start, t, i, iova);
    At(mem, meta, root, start, n);
    RegionIs(meta[n].base, iova);
    MappedLive(mem, meta, root, start, n, 512);
    NoTables(mem, meta, root, start, n);
    forall p | iova <= p < iova + k ensures Walk(mem, root, start, p) == None <==> mem[n][p - meta[n].base].Empty? {
      LastPage(mem, meta, root, start, n, p - meta[n].base);
    }
    if j :| u <= j < u + k && mem[n][j].Empty? {
      assert Walk(mem, root, start, meta[n].base + j) == None;
    }
  }
}
