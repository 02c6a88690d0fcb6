/** A ring of N slots between two indices. */
module SmqRing {

  /** The slot i places after `base`. */
  function Slot(n: int, base: int, i: int): int {
    if base + i < n then base + i else base + i - n
  }

  /** (index + 1) % num_blocks */
  function NextIndex(n: int, i: int): (r: int)
    requires 0 <= i < n
    ensures r == Slot(n, i, 1)
  {
    (i + 1) % n
  }

  /** The slots from `base` to before `end` hold the items, oldest first; one slot at least is unused. */
  ghost predicate Ring<T>(n: int, buf: seq<T>, base: int, end: int, items: seq<T>) {
    && |buf| == n
    && 0 <= base < n
    && |items| < n
    && end == Slot(n, base, |items|)
    && forall i :: 0 <= i < |items| ==> buf[Slot(n, base, i)] == items[i]
  }

  /** Writing the slot at the end disturbs nothing. */
  lemma RingWrite<T>(n: int, buf: seq<T>, base: int, end: int, items: seq<T>, x: T)
    requires Ring(n, buf, base, end, items)
    ensures 0 <= end < n && Ring(n, buf[end := x], base, end, items)
  {
  }

  /** Moving the end past a written slot adds its item, as long as a slot stays unused. */
  lemma RingPush<T>(n: int, buf: seq<T>, base: int, end: int, items: seq<T>)
    requires Ring(n, buf, base, end, items) && |items| + 1 < n
    ensures 0 <= end < n && Ring(n, buf, base, NextIndex(n, end), items + [buf[end]])
  {
  }

  /** Moving the base drops the oldest item. */
  lemma RingPop<T>(n: int, buf: seq<T>, base: int, end: int, items: seq<T>)
    requires Ring(n, buf, base, end, items) && items != []
    ensures Ring(n, buf, NextIndex(n, base), end, items[1..])
  {
    var b := NextIndex(n, base);
    forall i | 0 <= i < |items[1..]| ensures buf[Slot(n, b, i)] == items[1..][i] {
      assert Slot(n, b, i) == Slot(n, base, i + 1);
    }
  }

  /** The indices differ exactly when there is an item, and the base slot holds the oldest. */
  lemma RingHead<T>(n: int, buf: seq<T>, base: int, end: int, items: seq<T>)
    requires Ring(n, buf, base, end, items)
    ensures base != end <==> items != []
    ensures items != [] ==> buf[base] == items[0]
  {
    assert items != [] ==> buf[Slot(n, base, 0)] == items[0];
  }
}
