/** The descriptor bits of the fast page table. */
module FastPte {

  const ADDR_MASK: bv64 := 0xfffffffff000
  const TYPE_TABLE: bv64 := 3
  const TYPE_PAGE: bv64 := 3

  /** The mapping attributes that matter. */
  datatype Prot = Prot(mmio: bool, cache: bool, sysCache: bool, write: bool)

  /** av8l_fast_prot_to_pte */
  function ProtToPte(p: Prot): bv64 {
    var pte: bv64 := (3 << 53) | TYPE_PAGE | (1 << 10) | (1 << 11) | (2 << 8);
    var attr: bv64 := if p.mmio then 2 << 2 else if p.cache then 1 << 2 else if p.sysCache then 3 << 2 else 0;
    var ap: bv64 := if p.write then 1 << 6 else 3 << 6;
    pte | attr | ap
  }

  /** A page-aligned address of at most 48 bits. */
  predicate IsAddr(a: bv64) {
    a & ADDR_MASK == a
  }

  /** A table descriptor leads to the table's address. */
  lemma TableEntry(a: bv64)
    requires IsAddr(a)
    ensures (a | TYPE_TABLE) & 3 == TYPE_TABLE && (a | TYPE_TABLE) & ADDR_MASK == a
  {
  }

  /** A multiple of the page size. */
  predicate IsPage(a: bv64) {
    a & 0xfff == 0
  }

  /**
   A page descriptor has the page type and, in its address field, the page's address, whatever the attributes. Bits
   above the field run into the attributes and are not read back.
   */
  lemma PageEntry(p: Prot, a: bv64)
    requires IsPage(a)
    ensures (ProtToPte(p) | a) & 3 == TYPE_PAGE && (ProtToPte(p) | a) & ADDR_MASK == a & ADDR_MASK
  {
    var pte := ProtToPte(p);
    assert pte & ADDR_MASK == 0 && pte & 3 == 3;
    OrAddr(pte, a);
  }

  lemma OrAddr(pte: bv64, a: bv64)
    requires IsPage(a) && pte & ADDR_MASK == 0 && pte & 3 == 3
    ensures (pte | a) & 3 == 3 && (pte | a) & ADDR_MASK == a & ADDR_MASK
  {
  }

  lemma NextPage(a: bv64)
    requires IsPage(a)
    ensures IsPage(a + 0x1000)
  {
  }

  lemma MaskPage(a: bv64)
    ensures IsPage(a & ADDR_MASK)
  {
  }
}
