/**
 The fast page table: three levels built in advance for a whole IOVA range, with the last level also mapped as one
 flat array.
 */
module FastPgtable {
  import opened OptionType
  import opened FastPte

  const SZ_4K := 0x1000
  const SZ_2M := 0x20_0000
  const SZ_1G := 0x4000_0000
  const SZ_4G := 0x1_0000_0000

  /** Table pages by address, each with 512 descriptors. */
  datatype Page = Page(addr: bv64)

  type Memory = map<Page, seq<bv64>>

  /** A descriptor's place. */
  datatype Slot = Slot(page: Page, index: int)

  /** The table that a descriptor of this table leads to. */
  function Follow(mem: Memory, page: Page, index: int): Option<Page> {
    if page in mem && 0 <= index < |mem[page]| && mem[page][index] & 3 == TYPE_TABLE
    then Some(Page(mem[page][index] & ADDR_MASK)) else None
  }

  /** The walk of av8l_fast_iova_to_phys down to the last-level descriptor. */
  function Walk(mem: Memory, pgd: Page, iova: int): Option<Slot> {
    var pud := Follow(mem, pgd, iova / SZ_1G % 512);
    if pud.None? then None else
    var pmd := Follow(mem, pud.value, iova / SZ_2M % 512);
    if pmd.None? then None else Some(Slot(pmd.value, iova / SZ_4K % 512))
  }

  /** iopte_pmd_offset: the index in the flat array. */
  function FlatIndex(base: int, iova: int): int {
    (iova - base / SZ_2M * SZ_2M) / SZ_4K
  }

  /** The flat array is the last-level pages one after the other. */
  function FlatSlot(pmds: seq<Page>, k: int): Option<Slot> {
    if 0 <= k / 512 < |pmds| then Some(Slot(pmds[k / 512], k % 512)) else None
  }

  /** The address in the descriptor, if it is a page's. */
  function PageAt(mem: Memory, s: Option<Slot>): Option<bv64> {
    if s.Some? && s.value.page in mem && 0 <= s.value.index < |mem[s.value.page]|
       && mem[s.value.page][s.value.index] & 3 == TYPE_PAGE
    then Some(mem[s.value.page][s.value.index] & ADDR_MASK) else None
  }

  /** av8l_fast_iova_to_phys: the physical page of an IOVA. */
  function Translate(mem: Memory, pgd: Page, iova: int): Option<bv64> {
    PageAt(mem, Walk(mem, pgd, iova))
  }

  /** The first level leads to the second-level pages of the gigabytes from lo to hi. */
  predicate PudsOk(mem: Memory, pgd: Page, puds: seq<Page>, lo: int, hi: int) {
    |puds| == 4 && 0 <= lo && hi <= 4
    && forall q :: lo <= q < hi ==> Follow(mem, pgd, q) == Some(puds[q])
  }

  /** The second level leads to the last-level pages of the 2M chunks from lo to hi, in order. */
  predicate PmdsOk(mem: Memory, puds: seq<Page>, pmds: seq<Page>, lo: int, hi: int) {
    |puds| == 4 && 0 <= lo && hi <= 2048 && |pmds| == hi - lo
    && forall x :: lo <= x < hi ==> Follow(mem, puds[x / 512], x % 512) == Some(pmds[x - lo])
  }

  /** The flat index and the walk reach the same descriptor, for any base. */
  lemma FlatIsWalk(mem: Memory, pgd: Page, puds: seq<Page>, pmds: seq<Page>, base: int, end: int, iova: int)
    requires 0 <= base <= iova < end <= SZ_4G
    requires PudsOk(mem, pgd, puds, base / SZ_1G, (end + (SZ_1G - 1)) / SZ_1G)
    requires PmdsOk(mem, puds, pmds, base / SZ_2M, (end + (SZ_2M - 1)) / SZ_2M)
    ensures Walk(mem, pgd, iova) == FlatSlot(pmds, FlatIndex(base, iova)) && Walk(mem, pgd, iova).Some?
  {
    var q, x, k := iova / SZ_1G, iova / SZ_2M, FlatIndex(base, iova);
    IndexFacts(base, end, iova);
    hide Follow;
    assert Follow(mem, pgd, q) == Some(puds[q]);
    assert Follow(mem, puds[x / 512], x % 512) == Some(pmds[x - base / SZ_2M]);
  }

  lemma IndexFacts(base: int, end: int, iova: int)
    requires 0 <= base <= iova < end <= SZ_4G
    ensures var q, x, k := iova / SZ_1G, iova / SZ_2M, FlatIndex(base, iova);
            && q % 512 == q && base / SZ_1G <= q < (end + (SZ_1G - 1)) / SZ_1G
            && x / 512 == q && base / SZ_2M <= x < (end + (SZ_2M - 1)) / SZ_2M
            && k / 512 == x - base / SZ_2M && k % 512 == iova / SZ_4K % 512
  {
  }
}
