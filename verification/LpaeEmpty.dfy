/** Last-level tables in use, and pages that a block covers. */
module LpaeEmpty {
  import opened LpaeTree
  import opened LpaeOps
  import opened LpaeSteps

  ghost predicate Used(es: seq<Entry>) {
    exists j :: 0 <= j < |es| && !es[j].Empty?
  }

  /** Every last-level table but `x` has an entry in use. */
  ghost predicate UsedBut(mem: Memory, meta: Metas, x: int) {
    forall t :: t in meta && t in mem && meta[t].level == 3 && t != x ==> Used(mem[t])
  }

  /** Every last-level table has an entry in use. */
  ghost predicate NoEmptyLast(mem: Memory, meta: Metas) {
    forall t :: t in meta && t in mem && meta[t].level == 3 ==> Used(mem[t])
  }

  /** The walk of page p from table t on ends at a block. */
  predicate InBlock(mem: Memory, t: int, level: int, p: int)
    decreases 4 - level
  {
    && level < 3 && t in mem && |mem[t]| == 512
    && match mem[t][Idx(level, p)]
       case Empty => false
       case Leaf(_, _) => true
       case Table(n, _) => InBlock(mem, n, level + 1, p)
  }

  /** A last-level table covers page p. */
  ghost predicate HasLast(meta: Metas, p: int) {
    exists x :: x in meta && meta[x].level == 3 && Covers(3, meta[x].base, p)
  }

  /** The tables that are left are as they were, but for entries of t. */
  ghost predicate Pruned(mem: Memory, meta: Metas, mem': Memory, meta': Metas, t: int) {
    forall x :: x in meta' ==>
      && x in meta && meta'[x] == meta[x]
      && (x != t && x in mem' ==> x in mem && mem'[x] == mem[x])
  }

  lemma PrunedUsed(mem: Memory, meta: Metas, mem': Memory, meta': Metas, t: int)
    requires Pruned(mem, meta, mem', meta', t) && t in meta && meta[t].level < 3 && NoEmptyLast(mem, meta)
    ensures NoEmptyLast(mem', meta')
  {
    hide Used;
  }

  /** What a new table does to the last level. */
  lemma InstalledUsed(mem: Memory, meta: Metas, t: int, i: int, n: int, es: seq<Entry>, c: int)
    requires t in meta && meta[t].level < 3 && n !in meta && t in mem && 0 <= i < |mem[t]|
    ensures UsedBut(mem, meta, n) ==> UsedBut(Install(mem, t, i, n, es, c), InstallMeta(meta, t, i, n), n)
    ensures NoEmptyLast(mem, meta) ==>
      (NoEmptyLast(Install(mem, t, i, n, es, c), InstallMeta(meta, t, i, n)) <==> (meta[t].level == 2 ==> Used(es)))
  {
    hide Used, Sub;
    var mem', meta' := Install(mem, t, i, n, es, c), InstallMeta(meta, t, i, n);
    assert meta'[n].level == meta[t].level + 1 && mem'[n] == es;
  }

  lemma SplitUsed(level: int, pa: int, attr: int, u: int, k: int)
    requires 0 <= u && 0 <= k && u + k <= 512
    ensures Used(SplitEntries(level, pa, attr, u, k)) <==> k < 512
  {
    hide Sub;
    var es := SplitEntries(level, pa, attr, u, k);
    if k < 512 {
      assert !es[if u > 0 then 0 else k].Empty?;
    }
  }
}
