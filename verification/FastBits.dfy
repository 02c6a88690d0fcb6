/** Bitmaps of pages: ranges of bits and the search for an aligned run of clear bits. */
module FastBits {

  /** The bitmap with n bits from `at` given the value v. */
  function SetRange(b: seq<bool>, at: int, n: int, v: bool): (r: seq<bool>)
    ensures |r| == |b|
  {
    seq(|b|, i requires 0 <= i < |b| => if at <= i < at + n then v else b[i])
  }

  /** The n bits from `at` are clear. */
  predicate ZeroRun(b: seq<bool>, at: int, n: int) {
    0 <= at && at + n <= |b| && forall i :: at <= i < at + n ==> !b[i]
  }

  /** A run of clear bits that begins on a multiple of `align`. */
  predicate Suits(b: seq<bool>, at: int, n: int, align: int) {
    ZeroRun(b, at, n) && align > 0 && at % align == 0
  }

  /** Setting a run that was clear and clearing it again changes nothing. */
  lemma SetClear(b: seq<bool>, at: int, n: int)
    requires ZeroRun(b, at, n)
    ensures SetRange(SetRange(b, at, n, true), at, n, false) == b
  {
  }

  /** A power of two. */
  function Pow2(k: nat): (r: int)
    ensures r >= 1
  {
    if k == 0 then 1 else 2 * Pow2(k - 1)
  }

  /** get_order(), in pages: the least k with n <= 2^k. */
  function Order(n: int): (k: nat)
    ensures n <= Pow2(k) && (k > 0 ==> Pow2(k - 1) < n)
  {
    OrderFrom(n, 0)
  }

  function OrderFrom(n: int, k: nat): (r: nat)
    requires k > 0 ==> Pow2(k - 1) < n
    ensures n <= Pow2(r) && (r > 0 ==> Pow2(r - 1) < n)
    decreases n - Pow2(k)
  {
    if n <= Pow2(k) then k else OrderFrom(n, k + 1)
  }

  method AllClear(b: array<bool>, at: int, n: int) returns (yes: bool)
    requires 0 <= at && 0 <= n && at + n <= b.Length
    ensures yes <==> ZeroRun(b[..], at, n)
  {
    var i := at;
    while i < at + n
      invariant at <= i <= at + n
      invariant forall j :: at <= j < i ==> !b[j]
    {
      if b[i] {
        assert b[..][i];
        return false;
      }
      i := i + 1;
    }
    yes := true;
  }

  /**
   bitmap_find_next_zero_area: the lowest aligned run of n clear bits at or after `start`, or a value above the size.
   */
  method FindNextZeroArea(b: array<bool>, start: int, n: int, align: int) returns (bit: int)
    requires 0 <= start && n >= 1 && align >= 1
    ensures start <= bit && (forall j :: start <= j < bit ==> !Suits(b[..], j, n, align))
    ensures bit <= b.Length ==> Suits(b[..], bit, n, align)
    ensures bit > b.Length ==> forall j :: start <= j ==> !Suits(b[..], j, n, align)
  {
    bit := start;
    while bit + n <= b.Length
      invariant start <= bit
      invariant forall j :: start <= j < bit ==> !Suits(b[..], j, n, align)
    {
      if bit % align == 0 {
        var clear := AllClear(b, bit, n);
        if clear {
          return;
        }
      }
      bit := bit + 1;
    }
    forall j | bit <= j ensures !Suits(b[..], j, n, align) {
    }
    if bit <= b.Length {
      bit := b.Length + 1;
    }
  }

  /** bitmap_set and bitmap_clear */
  method Fill(b: array<bool>, at: int, n: int, v: bool)
    requires 0 <= at && 0 <= n && at + n <= b.Length
    modifies b
    ensures b[..] == SetRange(old(b[..]), at, n, v)
  {
    var i := at;
    while i < at + n
      invariant at <= i <= at + n
      invariant forall j :: 0 <= j < b.Length ==> b[j] == if at <= j < i then v else old(b[j])
    {
      b[i] := v;
      i := i + 1;
    }
    assert b[..] == SetRange(old(b[..]), at, n, v);
  }

  /** bitmap_copy */
  method CopyBits(dst: array<bool>, src: array<bool>)
    requires dst != src && dst.Length == src.Length
    modifies dst
    ensures dst[..] == src[..]
  {
    var i := 0;
    while i < dst.Length
      invariant 0 <= i <= dst.Length && forall j :: 0 <= j < i ==> dst[j] == src[j]
    {
      dst[i] := src[i];
      i := i + 1;
    }
  }
}
