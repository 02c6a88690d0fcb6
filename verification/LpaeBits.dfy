/** Descriptors as 64-bit words: address, type, attributes, and the count in the bits the hardware ignores. */
module LpaeBits {

  const ADDR_MASK: bv64 := 0x0000_ffff_ffff_f000
  const RESERVED_MASK: bv64 := 0x0070_0000_0000_0ffc
  const ATTR_MASK: bv64 := 0x0060_0000_0000_0ffc
  const TYPE_MASK: bv64 := 3
  const NSTABLE: bv64 := 0x8000_0000_0000_0000
  const SW_SYNC: bv64 := 0x0080_0000_0000_0000

  /** iopte_val */
  function IopteVal(pte: bv64): bv64 {
    pte & (0xffff_ffff_ffff_ffff ^ RESERVED_MASK)
  }

  /** iopte_tblcnt: bits 54..52 are the top, bits 11..2 the bottom of the count. */
  function TblCnt(pte: bv64): bv64 {
    (((pte >> 52) & 7) << 10) | ((pte >> 2) & 0x3ff)
  }

  /** iopte_tblcnt_set */
  function TblCntSet(pte: bv64, v: bv64): bv64 {
    IopteVal(pte) | (((v >> 10) & 7) << 52) | ((v & 0x3ff) << 2)
  }

  /** The count read is the count set, cut to 13 bits. */
  lemma CountSetGet(pte: bv64, v: bv64)
    ensures TblCnt(TblCntSet(pte, v)) == v & 0x1fff
  {
  }

  /** Setting the count leaves every other bit: address, type, security and synchronisation. */
  lemma CountKeepsRest(pte: bv64, v: bv64)
    ensures IopteVal(TblCntSet(pte, v)) == IopteVal(pte)
    ensures TblCntSet(pte, v) & ADDR_MASK == pte & ADDR_MASK && TblCntSet(pte, v) & TYPE_MASK == pte & TYPE_MASK
    ensures TblCntSet(pte, v) & (NSTABLE | SW_SYNC) == pte & (NSTABLE | SW_SYNC)
  {
  }

  /** paddr_to_iopte */
  function PaddrToIopte(pa: bv64): bv64 {
    (pa | (pa >> 36)) & ADDR_MASK
  }

  /** iopte_to_paddr for the 4K granule */
  function IopteToPaddr(pte: bv64): bv64 {
    IopteVal(pte) & ADDR_MASK
  }

  /** iopte_prot */
  function IopteProt(pte: bv64): bv64 {
    pte & ATTR_MASK
  }

  /** iopte_leaf */
  predicate IopteLeaf(pte: bv64, last: bool) {
    pte & TYPE_MASK == if last then 3 else 1
  }

  /** A page-aligned address of at most 48 bits. */
  predicate IsAddr(a: bv64) {
    a & ADDR_MASK == a
  }

  /** Attributes in the bits they have. */
  predicate IsAttr(attr: bv64) {
    attr & ATTR_MASK == attr
  }

  /** A count of 13 bits. */
  predicate IsCount(c: bv64) {
    c & 0x1fff == c
  }

  /** The non-secure and the software synchronisation bit. */
  predicate IsFlags(flags: bv64) {
    flags & (NSTABLE | SW_SYNC) == flags
  }

  /** What __arm_lpae_init_pte writes for a page or block. */
  function LeafWord(a: bv64, attr: bv64, last: bool): bv64 {
    attr | (if last then 3 else 1) | PaddrToIopte(a)
  }

  /** It reads back as one, at its own level. */
  lemma LeafType(a: bv64, attr: bv64, last: bool)
    requires IsAddr(a) && IsAttr(attr)
    ensures LeafWord(a, attr, last) != 0 && IopteLeaf(LeafWord(a, attr, last), last)
  {
    if last {
    } else {
    }
  }

  /** Its address reads back. */
  lemma LeafAddr(a: bv64, attr: bv64, last: bool)
    requires IsAddr(a) && IsAttr(attr)
    ensures IopteToPaddr(LeafWord(a, attr, last)) == a
  {
    if last {
    } else {
    }
  }

  /** Its attributes read back, so that the parts of a split block have those of the block. */
  lemma LeafProt(a: bv64, attr: bv64, last: bool)
    requires IsAddr(a) && IsAttr(attr)
    ensures IopteProt(LeafWord(a, attr, last)) == attr
  {
    if last {
    } else {
    }
  }

  /** What arm_lpae_install_table writes. */
  function TableWord(a: bv64, c: bv64, flags: bv64): bv64 {
    TblCntSet(a | 3 | flags, c)
  }

  /** It reads back as a table with its address and its count. */
  lemma TableRead(a: bv64, c: bv64, flags: bv64)
    requires IsAddr(a) && IsCount(c) && IsFlags(flags)
    ensures var w := TableWord(a, c, flags);
            w != 0 && !IopteLeaf(w, false) && IopteToPaddr(w) == a && TblCnt(w) == c
  {
    hide TblCntSet, TblCnt, IopteVal, IopteToPaddr;
    CountSetGet(a | 3 | flags, c);
    CountKeepsRest(a | 3 | flags, c);
    TableBits(a, flags, TableWord(a, c, flags));
  }

  lemma TableBits(a: bv64, flags: bv64, w: bv64)
    requires IsAddr(a) && IsFlags(flags)
    requires w & ADDR_MASK == (a | 3 | flags) & ADDR_MASK && w & TYPE_MASK == (a | 3 | flags) & TYPE_MASK
    ensures w != 0 && !IopteLeaf(w, false) && IopteToPaddr(w) == a
  {
  }

  /** Setting another count in it is writing it with that count, cut to 13 bits. */
  lemma TableRecount(a: bv64, c: bv64, flags: bv64, d: bv64)
    ensures TblCntSet(TableWord(a, c, flags), d) == TableWord(a, d & 0x1fff, flags)
  {
  }
}
