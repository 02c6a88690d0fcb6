/** Where the IOVA allocator places a range with respect to segment boundaries. */
module FastPlace {
  import opened FastBits
  import opened FastIova
  import opened DmaSg
  import opened DmaSgSegments

  lemma {:induction false} PowSplit(o: nat, k: nat)
    ensures Pow2(o + k) == Pow2(k) * Pow2(o)
    decreases k
  {
    if k > 0 {
      PowSplit(o, k - 1);
      Twice(Pow2(k - 1), Pow2(o));
    }
  }

  lemma Twice(x: int, y: int)
    ensures 2 * (x * y) == (2 * x) * y
  {
  }

  lemma PowDivides(o: nat, b: nat)
    requires o <= b
    ensures Pow2(b) % Pow2(o) == 0
  {
    PowSplit(o, b - o);
    hide Pow2;
    Multiple(Pow2(b - o), Pow2(o));
  }

  lemma ModMul(x: int, a: int, b: int)
    requires a > 0 && b > 0 && a % b == 0 && x % a == 0
    ensures x % b == 0
  {
    var q, r := x / a, a / b;
    assert x == q * a && a == r * b;
    assert x == (q * r) * b by { assert q * (r * b) == (q * r) * b; }
    Multiple(q * r, b);
  }

  /** A multiple below another leaves room for one more. */
  lemma RoomForOne(r: int, b: int, a: int)
    requires a > 0 && r % a == 0 && b % a == 0 && r < b
    ensures r + a <= b
  {
    SumMultiple(b, r, a);
    var d := b - r;
    assert d == (d / a) * a;
    if d < a { SmallMultiple(d, a); }
  }

  lemma SmallMultiple(d: int, a: int)
    requires 0 < d < a
    ensures d % a != 0
  {
  }

  lemma ScaleMod(x: int, b: int)
    requires b > 0
    ensures (x * PAGE) % (b * PAGE) == (x % b) * PAGE
  {
    var q, r := x / b, x % b;
    assert x == q * b + r;
    assert x * PAGE == q * (b * PAGE) + r * PAGE by { assert (q * b) * PAGE == q * (b * PAGE); }
    assert r * PAGE < b * PAGE;
    ModUnique(x * PAGE, b * PAGE, q, r * PAGE);
  }

  /** A run aligned to the least sufficient power of two, in pages, does not cross a multiple of a power of two unless it begins on one. */
  lemma AlignedRun(n: int, bit: int, b: nat)
    requires n >= 1 && bit >= 0 && bit % Pow2(Order(n)) == 0
    ensures bit % Pow2(b) == 0 || bit % Pow2(b) + n <= Pow2(b)
  {
    hide Order;
    var o := Order(n);
    if o >= b {
      PowDivides(b, o);
      hide Pow2;
      ModMul(bit, Pow2(o), Pow2(b));
    } else {
      PowDivides(o, b);
      hide Pow2;
      GranuleMod(bit, Pow2(o), Pow2(b));
      RoomForOne(bit % Pow2(b), Pow2(b), Pow2(o));
    }
  }

  /** The boundary is a power of two of pages, as a mask makes it. */
  ghost predicate PowerBoundary(boundary: int) {
    exists b: nat :: boundary == Pow2(b) * PAGE
  }

  lemma RunPlaced(base: int, bit: int, n: int, boundary: int)
    requires PowerBoundary(boundary) && boundary > 0 && base % boundary == 0 && n >= 1 && bit >= 0 && bit % Pow2(Order(n)) == 0
    ensures WellPlaced(base + bit * PAGE, n * PAGE, boundary)
  {
    var b: nat :| boundary == Pow2(b) * PAGE;
    AlignedRun(n, bit, b);
    hide Pow2, Order;
    ModBase(base, bit * PAGE, boundary);
    ScaleMod(bit, Pow2(b));
  }

  /** The allocator may place n pages at `bit`. */
  ghost predicate MayBeAt(n: int, bit: int) {
    n >= 1 && bit >= 0 && bit % Pow2(Order(n)) == 0
  }

  predicate PlacedAt(base: int, n: int, bit: int, boundary: int)
    requires boundary > 0
  {
    WellPlaced(base + bit * PAGE, n * PAGE, boundary)
  }

  /** How often two divides d. */
  function TwoPart(d: int): (k: nat)
    requires d >= 1
    ensures Pow2(k) <= d && (d - Pow2(k)) % Pow2(k + 1) == 0
  {
    if d % 2 == 1 then 0 else
      var k := TwoPart(d / 2);
      DoubleMod(d / 2 - Pow2(k), Pow2(k + 1));
      k + 1
  }

  lemma DoubleMod(x: int, m: int)
    requires m > 0 && x % m == 0
    ensures (2 * x) % (2 * m) == 0
  {
    var q := x / m;
    assert 2 * x == q * (2 * m) by { assert x == q * m; }
    Multiple(q, 2 * m);
  }

  lemma {:induction false} PowGrows(j: nat, k: nat)
    requires j < k
    ensures Pow2(j) < Pow2(k)
    decreases k
  {
    if j < k - 1 {
      PowGrows(j, k - 1);
    }
  }

  /** One page more than a power of two needs the next one. */
  lemma {:induction false} OrderAbove(k: nat)
    ensures Order(Pow2(k) + 1) == k + 1
  {
    hide Pow2, Order;
    var o := Order(Pow2(k) + 1);
    if o <= k {
      if o < k { PowGrows(o, k); }
    } else if o > k + 1 {
      PowGrows(k, o - 1);
    }
  }

  /** The pages from the base of the mapping to the next boundary. */
  function ToBoundary(base: int, boundary: int): int
    requires boundary > 0
  {
    (boundary - base % boundary) / PAGE
  }

  /**
   If the mapping is not well placed, its first boundary is d pages from its base, and 2^k + 1 pages end on page d, where
   2^k is the power of two in d: the allocator may place them there.
   */
  lemma Across(base: int, pages: int, boundary: int)
    requires PowerBoundary(boundary) && boundary > 0 && base % PAGE == 0 && !WellPlaced(base, pages * PAGE, boundary)
    ensures var d := ToBoundary(base, boundary);
      && 1 <= d < pages && base % boundary + d * PAGE == boundary
      && var p := Pow2(TwoPart(d));
      && MayBeAt(p + 1, d - p) && (base + (d - p) * PAGE) % boundary == boundary - p * PAGE
  {
    var b: nat :| boundary == Pow2(b) * PAGE;
    hide Pow2, Order;
    var r := base % boundary;
    Multiple(Pow2(b), PAGE);
    GranuleMod(base, PAGE, boundary);
    var d := (boundary - r) / PAGE;
    assert boundary - r == d * PAGE;
    OrderAbove(TwoPart(d));
    var p := Pow2(TwoPart(d));
    ModStep(base, (d - p) * PAGE, boundary);
  }

  /**
   The allocator places every range inside a mapping well if and only if the mapping itself is: its base is on a boundary,
   or it ends before the next one.
   */
  lemma PlacedIff(base: int, pages: int, boundary: int)
    requires PowerBoundary(boundary) && boundary > 0 && base % PAGE == 0
    ensures (forall n, bit :: MayBeAt(n, bit) && bit + n <= pages ==> PlacedAt(base, n, bit, boundary))
            <==> WellPlaced(base, pages * PAGE, boundary)
  {
    hide Order, Pow2;
    if WellPlaced(base, pages * PAGE, boundary) {
      forall n, bit | MayBeAt(n, bit) && bit + n <= pages ensures PlacedAt(base, n, bit, boundary) {
        RunWellPlaced(base, bit, n, pages, boundary);
      }
    } else {
      Across(base, pages, boundary);
      var d := ToBoundary(base, boundary);
      var p := Pow2(TwoPart(d));
      assert MayBeAt(p + 1, d - p) && d - p + (p + 1) <= pages && !PlacedAt(base, p + 1, d - p, boundary);
    }
  }

  lemma RunWellPlaced(base: int, bit: int, n: int, pages: int, boundary: int)
    requires PowerBoundary(boundary) && boundary > 0 && WellPlaced(base, pages * PAGE, boundary)
    requires MayBeAt(n, bit) && bit + n <= pages
    ensures WellPlaced(base + bit * PAGE, n * PAGE, boundary)
  {
    hide Pow2, Order;
    if base % boundary == 0 {
      RunPlaced(base, bit, n, boundary);
    } else {
      ModStep(base, bit * PAGE, boundary);
    }
  }
}
