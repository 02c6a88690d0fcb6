/**
 The scatterlist of a DMA mapping, rewritten in place: aligned for the IOMMU with the unaligned parts kept in the
 DMA fields, then restored and given its DMA segments.
 */
module DmaSg {

  /** One entry of the scatterlist; `page` is the number of its first page frame. */
  datatype Entry = Entry(page: int, offset: int, length: int, dmaAddr: int, dmaLen: int)

  /** DMA_MAPPING_ERROR, all ones. */
  const MAPPING_ERROR := -1

  /** Lengths in the list are of 32 bits. */
  const U32 := 0x1_0000_0000

  /** The IOVA granule and the segment boundary (mask + 1), with the largest DMA segment. */
  datatype Limits = Limits(granule: int, boundary: int, maxLen: int)

  predicate LimitsOk(c: Limits) {
    1 < c.granule < U32 && c.boundary > 0 && c.boundary % c.granule == 0 && c.maxLen < U32
  }

  /** iova_offset() */
  function Off(e: Entry, c: Limits): int
    requires LimitsOk(c)
  {
    e.offset % c.granule
  }

  /** iova_align() */
  function Up(x: int, g: int): int
    requires g > 0
  {
    (x + g - 1) / g * g
  }

  /** The aligned length of an entry. */
  function Span(e: Entry, c: Limits): int
    requires LimitsOk(c)
  {
    Up(e.length + Off(e, c), c.granule)
  }

  /** From a position to the next boundary; (mask - iova_len + 1) & mask. */
  function Pad(at: int, b: int): int
    requires b > 0
  {
    if at % b == 0 then 0 else b - at % b
  }

  /** Where the entry begins if `end` is the end of the one before. */
  function Begin(end: int, e: Entry, c: Limits): int
    requires LimitsOk(c)
  {
    var p := Pad(end, c.boundary);
    if p != 0 && p < Span(e, c) - 1 then end + p else end
  }

  /** iova_len after i entries. */
  function End(es: seq<Entry>, i: nat, c: Limits): int
    requires LimitsOk(c) && i <= |es|
  {
    if i == 0 then 0 else Begin(End(es, i - 1, c), es[i - 1], c) + Span(es[i - 1], c)
  }

  /** The position of entry i in the IOVA range. */
  function At(es: seq<Entry>, i: nat, c: Limits): int
    requires LimitsOk(c) && i < |es|
  {
    Begin(End(es, i, c), es[i], c)
  }

  /** The length that entry i is mapped with: it reaches to the next entry. */
  function MappedLen(es: seq<Entry>, i: nat, c: Limits): int
    requires LimitsOk(c) && i < |es|
  {
    if i + 1 < |es| then At(es, i + 1, c) - At(es, i, c) else Span(es[i], c)
  }

  /** What of it the field holds. */
  function FieldLen(es: seq<Entry>, i: nat, c: Limits): (n: int)
    requires LimitsOk(c) && i < |es|
    ensures 0 <= n < U32
  {
    MappedLen(es, i, c) % U32
  }

  /** The entry as it is handed to the IOMMU driver. */
  function Prepared(es: seq<Entry>, i: nat, c: Limits): Entry
    requires LimitsOk(c) && i < |es|
  {
    Entry(es[i].page, es[i].offset - Off(es[i], c), FieldLen(es, i, c), Off(es[i], c), es[i].length)
  }

  /** The client's list: nonempty entries, each no longer than a DMA segment and than the boundary allows. */
  predicate ClientOk(es: seq<Entry>, c: Limits) {
    LimitsOk(c) && forall i :: 0 <= i < |es| ==>
      es[i].offset >= 0 && 1 <= es[i].length <= c.maxLen && Span(es[i], c) <= c.boundary
  }

  /* Arithmetic. */

  lemma UpIs(x: int, g: int)
    requires g > 0 && x >= 0
    ensures x <= Up(x, g) < x + g && Up(x, g) % g == 0
  {
    var q := (x + g - 1) / g;
    assert x + g - 1 == q * g + (x + g - 1) % g;
    Multiple(q, g);
  }

  lemma {:induction false} Multiple(q: int, g: int)
    requires g > 0
    ensures (q * g) % g == 0
    decreases if q < 0 then -q else q
  {
    if q > 0 {
      Multiple(q - 1, g);
      assert q * g == (q - 1) * g + g;
      ModStep((q - 1) * g, g, g);
    } else if q < 0 {
      Multiple(q + 1, g);
      assert (q + 1) * g == q * g + g;
      ModBack(q * g, g);
    }
  }

  /** Going on inside a window, or to its end. */
  lemma ModStep(x: int, k: int, b: int)
    requires b > 0 && 0 <= k && x % b + k <= b
    ensures (x + k) % b == if x % b + k == b then 0 else x % b + k
  {
    var q, r := x / b, x % b;
    assert x == q * b + r;
    if r + k == b {
      assert x + k == (q + 1) * b + 0;
      ModUnique(x + k, b, q + 1, 0);
    } else {
      ModUnique(x + k, b, q, r + k);
    }
  }

  lemma ModBack(x: int, b: int)
    requires b > 0 && (x + b) % b == 0
    ensures x % b == 0
  {
    var q := (x + b) / b;
    assert x + b == q * b;
    assert x == (q - 1) * b + 0;
    ModUnique(x, b, q - 1, 0);
  }

  lemma ModUnique(x: int, b: int, q: int, r: int)
    requires b > 0 && 0 <= r < b && x == q * b + r
    ensures x % b == r && x / b == q
  {
    var d := q - x / b;
    assert x == (x / b) * b + x % b;
    assert d * b == x % b - r;
    MulBig(d, b);
  }

  lemma MulBig(d: int, b: int)
    requires b > 0
    ensures (d >= 1 ==> d * b >= b) && (d <= -1 ==> d * b <= -b)
  {
  }

  /* The layout. */

  /** Every entry lies inside one window between boundaries. */
  lemma BeginFits(end: int, e: Entry, c: Limits)
    requires LimitsOk(c) && e.offset >= 0 && e.length >= 1 && Span(e, c) <= c.boundary && end % c.granule == 0
    ensures var b := Begin(end, e, c);
            b >= end && b % c.granule == 0 && b % c.boundary + Span(e, c) <= c.boundary
    ensures Off(e, c) + e.length <= Span(e, c) && Span(e, c) % c.granule == 0
  {
    var g, bd, p := c.granule, c.boundary, Pad(end, c.boundary);
    UpIs(e.length + Off(e, c), g);
    if p != 0 {
      ModStep(end, p, bd);
      GranuleMod(end, g, bd);
      hide Span, Up;
      if p < Span(e, c) - 1 {
        SumMultiple(end, p, g);
      } else {
        MultipleApart(p, Span(e, c), g);
      }
    }
  }

  lemma SumMultiple(x: int, y: int, g: int)
    requires g > 0 && x % g == 0 && y % g == 0
    ensures (x + y) % g == 0 && (x - y) % g == 0
  {
    var a, b := x / g, y / g;
    assert x == a * g && y == b * g;
    assert x + y == (a + b) * g && x - y == (a - b) * g;
    Multiple(a + b, g);
    Multiple(a - b, g);
  }

  /** The rest to a boundary is a multiple of the granule. */
  lemma GranuleMod(x: int, g: int, b: int)
    requires g > 0 && b > 0 && b % g == 0 && x % g == 0
    ensures (x % b) % g == 0 && (b - x % b) % g == 0
  {
    var q := x / b;
    assert x % b == x - q * b;
    var k := b / g;
    assert b == k * g && q * b == (q * k) * g by { assert q * (k * g) == (q * k) * g; }
    Multiple(q * k, g);
    SumMultiple(x, q * b, g);
    SumMultiple(b, x % b, g);
  }

  /** Of two multiples, the one not below the other less one is not below the other. */
  lemma MultipleApart(p: int, s: int, g: int)
    requires g > 1 && p % g == 0 && s % g == 0 && p >= s - 1
    ensures p >= s
  {
    SumMultiple(s, p, g);
  }

  lemma {:induction false} EndGranule(es: seq<Entry>, i: nat, c: Limits)
    requires ClientOk(es, c) && i <= |es|
    ensures End(es, i, c) >= 0 && End(es, i, c) % c.granule == 0
  {
    if i > 0 {
      EndGranule(es, i - 1, c);
      BeginFits(End(es, i - 1, c), es[i - 1], c);
      SumMultiple(Begin(End(es, i - 1, c), es[i - 1], c), Span(es[i - 1], c), c.granule);
    }
  }

  lemma AtFits(es: seq<Entry>, i: nat, c: Limits)
    requires ClientOk(es, c) && i < |es|
    ensures At(es, i, c) >= End(es, i, c) >= 0 && At(es, i, c) % c.granule == 0
    ensures At(es, i, c) % c.boundary + Span(es[i], c) <= c.boundary
    ensures Off(es[i], c) + es[i].length <= Span(es[i], c) && 0 <= Off(es[i], c) < c.granule
    ensures MappedLen(es, i, c) >= Span(es[i], c) >= 1 && MappedLen(es, i, c) % c.granule == 0
  {
    hide Span, Begin;
    EndGranule(es, i, c);
    BeginFits(End(es, i, c), es[i], c);
    if i + 1 < |es| {
      EndGranule(es, i + 1, c);
      BeginFits(End(es, i + 1, c), es[i + 1], c);
      SumMultiple(At(es, i + 1, c), At(es, i, c), c.granule);
    }
  }

  /** Padded to a boundary, an entry is mapped with no more than lies between two boundaries. */
  lemma MappedLenBound(es: seq<Entry>, i: nat, c: Limits)
    requires ClientOk(es, c) && i < |es|
    ensures MappedLen(es, i, c) <= c.boundary
  {
    AtFits(es, i, c);
    hide Span;
    if i + 1 < |es| {
      assert End(es, i + 1, c) == At(es, i, c) + Span(es[i], c);
      ModStep(At(es, i, c), Span(es[i], c), c.boundary);
    }
  }
}
