/**
 The radix page table of the LPAE format with the 4K granule: tables of 512 entries in memory, found by address.
 Addresses are counted in pages of 4K.
 */
module LpaeTree {
  import opened OptionType

  /**
   A descriptor: nothing, a page or block with its physical page and attributes, or a table with the count kept in
   the bits the hardware ignores.
   */
  datatype Entry = Empty | Leaf(pa: int, attr: int) | Table(next: int, cnt: int)

  /** What is known of a table: its level, the first page it covers, and the entry that leads to it. */
  datatype Meta = Meta(level: int, base: int, parent: int, index: int)

  type Memory = map<int, seq<Entry>>
  type Metas = map<int, Meta>

  /** ARM_LPAE_BLOCK_SIZE, in pages. */
  function Size(level: int): int {
    if level >= 3 then 1 else if level == 2 then 512 else if level == 1 then 0x4_0000 else 0x800_0000
  }

  /** What a whole table covers. */
  function Span(level: int): int {
    512 * Size(level)
  }

  /** The first page of an entry. */
  function Sub(level: int, base: int, i: int): int {
    if level >= 3 then base + i
    else if level == 2 then base + 512 * i
    else if level == 1 then base + 0x4_0000 * i
    else base + 0x800_0000 * i
  }

  /** ARM_LPAE_LVL_IDX */
  function Idx(level: int, p: int): (i: int)
    ensures 0 <= i < 512
  {
    p / Size(level) % 512
  }

  predicate Covers(level: int, base: int, p: int) {
    base <= p < base + Span(level)
  }

  lemma Div2(base: int, p: int)
    requires base % 0x4_0000 == 0 && base <= p < base + 0x4_0000
    ensures p / 512 % 512 == (p - base) / 512
  {
    var k, r := base / 0x4_0000, p - base;
    assert p == 512 * (512 * k) + r;
    assert p / 512 == 512 * k + r / 512;
  }

  lemma Div1(base: int, p: int)
    requires base % 0x800_0000 == 0 && base <= p < base + 0x800_0000
    ensures p / 0x4_0000 % 512 == (p - base) / 0x4_0000
  {
    var k, r := base / 0x800_0000, p - base;
    assert p == 0x4_0000 * (512 * k) + r;
    assert p / 0x4_0000 == 512 * k + r / 0x4_0000;
  }

  lemma Div0(base: int, p: int)
    requires base % 0x10_0000_0000 == 0 && base <= p < base + 0x10_0000_0000
    ensures p / 0x800_0000 % 512 == (p - base) / 0x800_0000
  {
    var k, r := base / 0x10_0000_0000, p - base;
    assert p == 0x800_0000 * (512 * k) + r;
    assert p / 0x800_0000 == 512 * k + r / 0x800_0000;
  }

  /** The entry of the page, counted from the base of its table. */
  lemma IdxFrom(level: int, base: int, p: int)
    requires 0 <= level <= 3 && base % Span(level) == 0 && Covers(level, base, p)
    ensures Idx(level, p) == (p - base) / Size(level)
  {
    if level == 2 {
      Div2(base, p);
    } else if level == 1 {
      Div1(base, p);
    } else if level == 0 {
      Div0(base, p);
    }
  }

  /** The page lies in the entry that the walk takes. */
  lemma IdxIs(level: int, base: int, p: int)
    requires 0 <= level <= 3 && base % Span(level) == 0 && Covers(level, base, p)
    ensures Sub(level, base, Idx(level, p)) <= p < Sub(level, base, Idx(level, p)) + Size(level)
  {
    hide Idx;
    IdxFrom(level, base, p);
  }

  /** Only its own entry has the page. */
  lemma IdxOnly(level: int, base: int, p: int, i: int)
    requires 0 <= level <= 3 && base % Span(level) == 0 && 0 <= i < 512
    ensures Sub(level, base, i) <= p < Sub(level, base, i) + Size(level) ==> Covers(level, base, p) && Idx(level, p) == i
  {
    hide Idx;
    if Sub(level, base, i) <= p < Sub(level, base, i) + Size(level) {
      IdxFrom(level, base, p);
    }
  }

  lemma SubAligned(level: int, base: int, i: int)
    requires 0 <= level < 3 && base % Span(level) == 0 && 0 <= i < 512
    ensures Sub(level, base, i) % Span(level + 1) == 0 && Span(level + 1) == Size(level)
  {
    if level == 2 {
    } else if level == 1 {
    } else {
    }
  }

  /** iova_to_phys from a table on: the physical page and the attributes. */
  function Walk(mem: Memory, t: int, level: int, p: int): Option<(int, int)>
    decreases 4 - level
  {
    if level > 3 || t !in mem || |mem[t]| != 512 then None
    else match mem[t][Idx(level, p)]
      case Empty => None
      case Leaf(pa, attr) => Some((pa + p % Size(level), attr))
      case Table(n, _) => if level == 3 then None else Walk(mem, n, level + 1, p)
  }

  /** The entry fits its table. */
  predicate EntryOk(meta: Metas, t: int, i: int, e: Entry)
    requires t in meta
  {
    match e
    case Empty => true
    case Leaf(pa, _) => meta[t].level >= 1 && pa >= 0 && pa % Size(meta[t].level) == 0
    case Table(n, c) =>
      && meta[t].level < 3 && n in meta && 0 <= c < 8192
      && meta[n] == Meta(meta[t].level + 1, Sub(meta[t].level, meta[t].base, i), t, i)
  }

  predicate TableOk(mem: Memory, meta: Metas, t: int, start: int)
    requires t in meta
  {
    && start <= meta[t].level <= 3
    && meta[t].base >= 0 && meta[t].base % Span(meta[t].level) == 0
    && t in mem && |mem[t]| == 512
    && (forall i :: 0 <= i < 512 ==> EntryOk(meta, t, i, mem[t][i]))
  }

  /** A table other than the root is where its parent's entry leads. */
  predicate ParentOk(mem: Memory, meta: Metas, t: int)
    requires t in meta
  {
    var m := meta[t];
    && m.parent in meta && m.parent in mem && |mem[m.parent]| == 512
    && 0 <= m.index < 512
    && mem[m.parent][m.index].Table? && mem[m.parent][m.index].next == t
  }

  ghost predicate Ok(mem: Memory, meta: Metas, root: int, start: int) {
    && 0 <= start <= 2
    && mem.Keys == meta.Keys
    && root in meta && meta[root].level == start && meta[root].base == 0
    && (forall t :: t in meta ==> TableOk(mem, meta, t, start))
    && (forall t :: t in meta && t != root ==> ParentOk(mem, meta, t))
  }

  /** Every table lies on the walk of every page it covers. */
  lemma {:induction false} Reaches(mem: Memory, meta: Metas, root: int, start: int, t: int, p: int)
    requires Ok(mem, meta, root, start) && t in meta && Covers(meta[t].level, meta[t].base, p)
    ensures Walk(mem, root, start, p) == Walk(mem, t, meta[t].level, p)
    decreases meta[t].level - start
  {
    hide Walk, Idx, Span;
    assert TableOk(mem, meta, t, start);
    if t != root {
      var m := meta[t];
      var q := m.parent;
      assert ParentOk(mem, meta, t) && TableOk(mem, meta, q, start);
      assert EntryOk(meta, q, m.index, mem[q][m.index]);
      SubAligned(meta[q].level, meta[q].base, m.index);
      IdxOnly(meta[q].level, meta[q].base, p, m.index);
      Reaches(mem, meta, root, start, q, p);
      WalkDown(mem, q, meta[q].level, p);
    }
  }

  lemma WalkDown(mem: Memory, t: int, level: int, p: int)
    requires level < 3 && t in mem && |mem[t]| == 512 && mem[t][Idx(level, p)].Table?
    ensures Walk(mem, t, level, p) == Walk(mem, mem[t][Idx(level, p)].next, level + 1, p)
  {
    hide Idx;
  }
}
