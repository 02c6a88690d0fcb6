/** The entries of the LPAE tables as the descriptors in memory. */
module LpaeWords {
  import opened FastBits
  import opened Words
  import opened LpaeTree
  import opened LpaeBits
  import opened LpaeSteps

  /** The address of a page. */
  function Address(page: int): bv64 {
    Num(page * 4096)
  }

  /** Addresses of 48 bits, attributes in the bits they have, a count of 13 bits. */
  predicate FitsWord(e: Entry) {
    match e
    case Empty => true
    case Leaf(pa, attr) => 0 <= pa < 0x10_0000_0000 && 0 <= attr < 0x100_0000_0000_0000 && IsAttr(Num(attr))
    case Table(n, c) => 0 <= n < 0x10_0000_0000 && 0 <= c < 8192
  }

  /** The descriptor; the type of a page differs from that of a block. */
  function Word(e: Entry, last: bool, flags: bv64): bv64 {
    match e
    case Empty => 0
    case Leaf(pa, attr) => LeafWord(Address(pa), Num(attr), last)
    case Table(n, c) => TableWord(Address(n), Num(c), flags)
  }

  lemma AddressOk(page: int)
    requires 0 <= page < 0x10_0000_0000
    ensures IsAddr(Address(page))
  {
    hide Num, Mask, Pow2, And;
    var x := page * 4096;
    PowValues();
    MaskValues();
    NumZero();
    MaskMod(x, 12);
    Small(x, 48);
    AddressBits(Num(x));
  }

  lemma AddressBits(a: bv64)
    requires And(a, 0xfff) == 0 && And(a, 0xffff_ffff_ffff) == a
    ensures IsAddr(a)
  {
  }

  lemma CountOk(c: int)
    requires 0 <= c < 8192
    ensures IsCount(Num(c))
  {
    hide Num, Mask, Pow2;
    PowValues();
    MaskValues();
    Small(c, 13);
  }

  /** A page or block reads back as one, with its address and its attributes. */
  lemma LeafReads(pa: int, attr: int, last: bool, flags: bv64)
    requires FitsWord(Leaf(pa, attr))
    ensures var w := Word(Leaf(pa, attr), last, flags);
      w != 0 && IopteLeaf(w, last) && IopteToPaddr(w) == Address(pa) && IopteProt(w) == Num(attr)
  {
    hide Num, LeafWord, IopteToPaddr, IopteProt, IopteLeaf, Address, IsAddr, IsAttr;
    AddressOk(pa);
    LeafType(Address(pa), Num(attr), last);
    LeafAddr(Address(pa), Num(attr), last);
    LeafProt(Address(pa), Num(attr), last);
  }

  /** A table reads back as one, with its address and its count, and is found to be empty exactly when the count is zero. */
  lemma TableReads(n: int, c: int, flags: bv64)
    requires FitsWord(Table(n, c)) && IsFlags(flags)
    ensures var w := Word(Table(n, c), false, flags);
      && w != 0 && !IopteLeaf(w, false) && IopteToPaddr(w) == Address(n)
      && TblCnt(w) == Num(c) && (TblCnt(w) == 0 <==> c == 0)
  {
    hide Num, TableWord, TblCnt, IopteToPaddr, IopteLeaf, Address, IsAddr, IsCount, IsFlags;
    AddressOk(n);
    CountOk(c);
    NonZero(c);
    TableRead(Address(n), Num(c), flags);
  }

  /** No two entries have the same descriptor. */
  lemma WordDecodes(e: Entry, e': Entry, last: bool, flags: bv64, flags': bv64)
    requires FitsWord(e) && FitsWord(e') && IsFlags(flags) && IsFlags(flags') && Word(e, last, flags) == Word(e', last, flags')
    requires last ==> !e.Table? && !e'.Table?
    ensures e == e'
  {
    hide Num, Word, IopteLeaf, IopteToPaddr, IopteProt, TblCnt, IsFlags, IsAttr;
    WordKind(e, last, flags);
    WordKind(e', last, flags');
    if e.Leaf? && e'.Leaf? {
      SameNum(e.pa * 4096, e'.pa * 4096);
      SameNum(e.attr, e'.attr);
    } else if e.Table? && e'.Table? {
      SameNum(e.next * 4096, e'.next * 4096);
      SameNum(e.cnt, e'.cnt);
    }
  }

  /** What a descriptor shows of its entry. */
  lemma WordKind(e: Entry, last: bool, flags: bv64)
    requires FitsWord(e) && IsFlags(flags) && (last ==> !e.Table?)
    ensures var w := Word(e, last, flags);
      && (w == 0 <==> e.Empty?) && (w != 0 && IopteLeaf(w, last) <==> e.Leaf?)
      && (e.Leaf? ==> IopteToPaddr(w) == Address(e.pa) && IopteProt(w) == Num(e.attr))
      && (e.Table? ==> IopteToPaddr(w) == Address(e.next) && TblCnt(w) == Num(e.cnt))
  {
    match e
    case Empty =>
    case Leaf(pa, attr) =>
      hide *;
      LeafReads(pa, attr, last, flags);
    case Table(n, c) =>
      hide *;
      TableReads(n, c, flags);
  }

  /** iopte_tblcnt_add and iopte_tblcnt_sub on the descriptor are AddCount on the entry. */
  lemma CountWord(mem: Memory, q: int, k: int, n: int, flags: bv64)
    requires q in mem && 0 <= k < |mem[q]| && mem[q][k].Table? && FitsWord(mem[q][k]) && IsFlags(flags)
    ensures var w, mem' := Word(mem[q][k], false, flags), AddCount(mem, q, k, n);
      && q in mem' && |mem'[q]| == |mem[q]|
      && TblCntSet(w, Plus(TblCnt(w), Num(n))) == Word(mem'[q][k], false, flags)
  {
    hide Num, Plus, Mask, Pow2, TblCntSet, TblCnt, Address, TableWord, IsFlags, IopteLeaf, IopteToPaddr;
    var c, a := mem[q][k].cnt, Address(mem[q][k].next);
    TableReads(mem[q][k].next, c, flags);
    NumAdd(c, n);
    MaskMod(c + n, 13);
    PowValues();
    MaskValues();
    TableRecount(a, Num(c), flags, Num(c + n));
  }
}
