/** The counts of level-2 descriptors under the changes of the tables. */
module LpaeCount {
  import opened LpaeTree
  import opened LpaeOps
  import opened LpaeFill

  /** A table of level 2 leads to tables of level 3, each from one slot. */
  lemma NextLevel(mem: Memory, meta: Metas, root: int, start: int, t: int, i: int)
    requires Ok(mem, meta, root, start) && t in meta && meta[t].level == 2 && 0 <= i < 512
    ensures t in mem && |mem[t]| == 512
    ensures mem[t][i].Table? ==>
      var n := mem[t][i].next;
      n in meta && n in mem && |mem[n]| == 512 && meta[n].level == 3 && meta[n].parent == t && meta[n].index == i
  {
    hide Ok, Span, Size, Sub;
    At(mem, meta, root, start, t);
    assert EntryOk(meta, t, i, mem[t][i]);
    if mem[t][i].Table? {
      At(mem, meta, root, start, mem[t][i].next);
    }
  }

  lemma ParentLevel(mem: Memory, meta: Metas, root: int, start: int, y: int)
    requires Ok(mem, meta, root, start) && y in meta && meta[y].level == 3
    ensures meta[y].parent in meta && meta[meta[y].parent].level == 2 && y != root
    ensures meta[y].parent in mem && |mem[meta[y].parent]| == 512 && 0 <= meta[y].index < 512
    ensures mem[meta[y].parent][meta[y].index].Table? && mem[meta[y].parent][meta[y].index].next == y
  {
    At(mem, meta, root, start, y);
    hide Ok;
    Up(mem, meta, root, start, y, meta[y].base);
  }

  /** The entries of level-2 tables other than the one that leads to `y` have unchanged counts. */
  lemma CountsUpdate(mem: Memory, mem': Memory, meta: Metas, root: int, start: int, y: int)
    requires Ok(mem, meta, root, start) && CountsOk(mem, meta) && y in meta && meta[y].level == 3
    requires mem'.Keys == mem.Keys && (forall x :: x in meta && x != y && x != meta[y].parent ==> x in mem && mem'[x] == mem[x])
    requires y in mem' && |mem'[y]| == 512
    requires var q, k := meta[y].parent, meta[y].index;
             q in mem && 0 <= k < |mem[q]| && mem'[q] == mem[q][k := Table(y, Live(mem'[y], 512))]
    ensures CountsOk(mem', meta)
  {
    ParentLevel(mem, meta, root, start, y);
    hide Ok, Live;
    forall t, i | t in meta && t in mem' && meta[t].level == 2 && 0 <= i < |mem'[t]| ensures CountOk(mem', mem'[t][i]) {
      NextLevel(mem, meta, root, start, t, 0);
      NextLevel(mem, meta, root, start, t, i);
      assert CountOk(mem, mem[t][i]);
    }
  }

  /** Changes that leave last-level tables alone and add no table entries keep the counts. */
  lemma CountsKept(mem: Memory, mem': Memory, meta: Metas, meta': Metas, root: int, start: int)
    requires Ok(mem, meta, root, start) && CountsOk(mem, meta)
    requires forall x :: x in meta && meta[x].level == 3 && x in meta' ==> x in mem && x in mem' && mem'[x] == mem[x]
    requires forall t, i :: t in meta' && t in mem' && meta'[t].level == 2 && 0 <= i < |mem'[t]| && mem'[t][i].Table? ==>
      && t in meta && meta[t].level == 2 && i < 512 && t in mem && |mem[t]| == 512 && mem'[t][i] == mem[t][i] && mem[t][i].next in meta'
    ensures CountsOk(mem', meta')
  {
    hide Ok, Live;
    forall t, i | t in meta' && t in mem' && meta'[t].level == 2 && 0 <= i < |mem'[t]| ensures CountOk(mem', mem'[t][i]) {
      if mem'[t][i].Table? {
        NextLevel(mem, meta, root, start, t, i);
        assert CountOk(mem, mem[t][i]);
      }
    }
  }
}
