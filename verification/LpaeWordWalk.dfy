/** The walk over the descriptors in memory. */
module LpaeWordWalk {
  import opened OptionType
  import opened FastBits
  import opened Words
  import opened LpaeTree
  import opened LpaeBits
  import opened LpaeWords
  import DmaSg

  type WordMemory = map<int, seq<bv64>>

  /** Every table in memory holds the descriptors of its entries. */
  ghost predicate Encodes(words: WordMemory, mem: Memory, meta: Metas, flags: bv64) {
    && IsFlags(flags) && words.Keys == mem.Keys
    && forall t :: t in mem && t in meta ==> EncodesTable(words[t], mem[t], t, meta[t].level, flags)
  }

  ghost predicate EncodesTable(ws: seq<bv64>, es: seq<Entry>, t: int, level: int, flags: bv64) {
    && 0 <= t < 0x10_0000_0000 && |ws| == |es|
    && forall i :: 0 <= i < |es| ==> FitsWord(es[i]) && ws[i] == Word(es[i], level == 3, flags)
  }

  ghost predicate IsAt(words: WordMemory, a: bv64, n: int) {
    n in words && 0 <= n < 0x10_0000_0000 && Address(n) == a
  }

  /** iopte_deref: the table at an address. */
  ghost function Deref(words: WordMemory, a: bv64): int {
    if exists n :: IsAt(words, a, n) then var n :| IsAt(words, a, n); n else -1
  }

  /** arm_lpae_iova_to_phys for the first byte of page p. */
  ghost function WordWalk(words: WordMemory, t: int, level: int, p: int): Option<bv64>
    decreases 4 - level
  {
    if level > 3 || t !in words || |words[t]| != 512 then None
    else
      var w := words[t][Idx(level, p)];
      if w == 0 then None
      else if IopteLeaf(w, level == 3) then Some(Join(IopteToPaddr(w), Address(p % Size(level))))
      else WordWalk(words, Deref(words, IopteToPaddr(w)), level + 1, p)
  }

  function Join(a: bv64, b: bv64): bv64 {
    a | b
  }

  lemma DerefIs(words: WordMemory, n: int)
    requires n in words && 0 <= n < 0x10_0000_0000
    ensures Deref(words, Address(n)) == n
  {
    hide Num;
    assert IsAt(words, Address(n), n);
    var m := Deref(words, Address(n));
    SameNum(m * 4096, n * 4096);
  }

  /** Below the mask b is all there, a is not. */
  lemma JoinIs(a: bv64, b: bv64, m: bv64)
    requires And(a, m) == 0 && And(b, m) == b
    ensures Join(a, b) == Plus(a, b)
  {
    Disjoint(a, b, m);
    hide And, Plus, Join;
    JoinDisjoint(a, b);
  }

  lemma Disjoint(a: bv64, b: bv64, m: bv64)
    requires And(a, m) == 0 && And(b, m) == b
    ensures And(a, b) == 0
  {
  }

  lemma JoinDisjoint(a: bv64, b: bv64)
    requires And(a, b) == 0
    ensures Join(a, b) == Plus(a, b)
  {
    NoCarry(a, b);
  }

  lemma NoCarry(a: bv64, b: bv64)
    requires a & b == 0
    ensures a | b == a + b
  {
  }

  /** The bits of a page size. */
  function Bits(level: int): nat {
    if level >= 3 then 12 else if level == 2 then 21 else 30
  }

  lemma BitsOf(level: int)
    requires 1 <= level <= 3
    ensures Pow2(Bits(level)) == Size(level) * 4096
  {
    PowValues();
    assert Pow2(16) == 0x1_0000 && Pow2(21) == 0x20_0000;
    assert Pow2(26) == 0x400_0000 && Pow2(30) == 0x4000_0000;
  }

  lemma MultipleMod(x: int, s: int)
    requires s > 0 && x % s == 0
    ensures (x * 4096) % (s * 4096) == 0
  {
    var q := x / s;
    assert x * 4096 == q * (s * 4096) + 0 by { assert x == q * s; assert (q * s) * 4096 == q * (s * 4096); }
    DmaSg.ModUnique(x * 4096, s * 4096, q, 0);
  }

  /** A page of a block: the address of the block with the rest of the page's address put in. */
  lemma BlockAddress(pa: int, off: int, level: int)
    requires 1 <= level <= 3 && pa % Size(level) == 0 && 0 <= off < Size(level)
    ensures Join(Address(pa), Address(off)) == Address(pa + off)
  {
    hide Num, Mask, Pow2, And, Plus, Join, Size;
    var k := Bits(level);
    BitsOf(level);
    NumZero();
    MaskMod(pa * 4096, k);
    MultipleMod(pa, Size(level));
    Small(off * 4096, k);
    JoinIs(Address(pa), Address(off), Mask(k));
    NumAdd(pa * 4096, off * 4096);
  }

  /** What the walk over the entries finds, as an address. */
  function FoundAt(r: Option<(int, int)>): Option<bv64> {
    match r
    case None => None
    case Some(x) => Some(Address(x.0))
  }

  /** The walk over the descriptors finds what the walk over the entries finds. */
  lemma {:induction false} WalksSame(words: WordMemory, mem: Memory, meta: Metas, flags: bv64, root: int, start: int, t: int, p: int)
    requires Encodes(words, mem, meta, flags) && Ok(mem, meta, root, start) && t in meta
    ensures WordWalk(words, t, meta[t].level, p) == FoundAt(Walk(mem, t, meta[t].level, p))
    decreases 4 - meta[t].level
  {
    hide Num, Word, IopteLeaf, IopteToPaddr, IopteProt, TblCnt, IsFlags, Deref, Join, Address, Idx, Size, Span, FitsWord, Sub;
    var level, i := meta[t].level, Idx(meta[t].level, p);
    assert TableOk(mem, meta, t, start) && EntryOk(meta, t, i, mem[t][i]);
    assert EncodesTable(words[t], mem[t], t, level, flags);
    WordKind(mem[t][i], level == 3, flags);
    match mem[t][i]
    case Empty =>
    case Leaf(pa, attr) =>
      SizePositive(level);
      BlockAddress(pa, p % Size(level), level);
    case Table(n, c) =>
      assert n in mem && EncodesTable(words[n], mem[n], n, meta[n].level, flags);
      DerefIs(words, n);
      WalksSame(words, mem, meta, flags, root, start, n, p);
  }

  lemma SizePositive(level: int)
    ensures Size(level) > 0
  {
  }
}
