/**
 The free list of a zspage, over the header words of its objects.  A free object's word is
 a link to the next free object; an allocated object's word is its handle with the
 allocation tag in bit 0.
 */
module ZsFreeList {

  /** A free object's link; freeobj is an unsigned int. */
  function Link(w: int): nat {
    (w / 2) % 0x1_0000_0000
  }

  /** The word that links to index `i`; the shift is done on an unsigned int. */
  function LinkWord(i: nat): int {
    (i * 2) % 0x1_0000_0000
  }

  /** The link word of the last object: -1UL << OBJ_TAG_BITS. */
  function LastLink(): int {
    0xFFFF_FFFF_FFFF_FFFE
  }

  lemma LinkRound(i: nat)
    requires i < 0x8000_0000
    ensures Link(LinkWord(i)) == i && LinkWord(i) % 2 == 0
  {
    assert (i * 2) / 2 == i;
  }

  /**
   What the last free object links to: the partial slot if the chain has one, else the
   terminator, which loses its top bit when a 32-bit shift writes it back.
   */
  predicate Bottom(n: nat, waste: bool, i: nat) {
    if waste then i == n else i == 0xFFFF_FFFF || i == 0x7FFF_FFFF
  }

  /** `xs` are free indices in list order, starting at `head`, followed by the index at the bottom. */
  ghost predicate Threaded(ws: seq<int>, waste: bool, head: nat, xs: seq<nat>) {
    && |xs| >= 1 && xs[0] == head
    && (forall k :: 0 <= k < |xs| - 1 ==> xs[k] < |ws|)
    && (forall k :: 0 <= k < |xs| - 1 ==> Link(ws[xs[k]]) == xs[k + 1])
    && Bottom(|ws|, waste, xs[|xs| - 1])
    && (forall j, k :: 0 <= j < k < |xs| ==> xs[j] != xs[k])
  }

  /** The list holds exactly the objects without the allocation tag, `inuse` fewer than all. */
  ghost predicate FreeList(ws: seq<int>, waste: bool, head: nat, inuse: nat, xs: seq<nat>) {
    && |xs| + inuse == |ws| + 1
    && Threaded(ws, waste, head, xs)
    && (forall i :: 0 <= i < |ws| ==> (i in xs <==> ws[i] % 2 == 0))
  }

  /** Taking the head and overwriting its word with a tagged one leaves the rest of the list. */
  lemma Pop(ws: seq<int>, waste: bool, head: nat, inuse: nat, xs: seq<nat>, w: int)
    requires FreeList(ws, waste, head, inuse, xs) && inuse < |ws| && w % 2 == 1
    ensures head < |ws|
    ensures FreeList(ws[head := w], waste, Link(ws[head]), inuse + 1, xs[1..])
  {
    var ys, vs := xs[1..], ws[head := w];
    forall k | 0 <= k < |ys| - 1
      ensures ys[k] < |vs| && Link(vs[ys[k]]) == ys[k + 1]
    {
      assert ys[k] == xs[k + 1] && ys[k + 1] == xs[k + 2] && xs[k + 1] != xs[0];
    }
    forall i | 0 <= i < |vs|
      ensures i in ys <==> vs[i] % 2 == 0
    {
      assert xs == [xs[0]] + ys;
    }
  }

  /** Writing the head as a link and reading it back gives the head again, or a terminator again. */
  lemma RelinkHead(n: nat, waste: bool, head: nat, last: bool)
    requires n < 0x1000_0000
    requires if last then Bottom(n, waste, head) else head < n
    ensures var next := Link(LinkWord(head));
            (if last then Bottom(n, waste, next) else next == head) && LinkWord(head) % 2 == 0
  {
    if head < 0x8000_0000 { LinkRound(head); }
  }

  /** Pushing a tagged object puts it in front of the list. */
  lemma Push(ws: seq<int>, waste: bool, head: nat, inuse: nat, xs: seq<nat>, i: nat) returns (ys: seq<nat>)
    requires FreeList(ws, waste, head, inuse, xs) && |ws| < 0x1000_0000
    requires i < |ws| && ws[i] % 2 == 1 && inuse > 0
    ensures FreeList(ws[i := LinkWord(head)], waste, i, inuse - 1, ys)
  {
    hide Link, LinkWord;
    var next := Link(LinkWord(head));
    RelinkHead(|ws|, waste, head, |xs| == 1);
    ys := [i, next] + xs[1..];
    var vs := ws[i := LinkWord(head)];
    forall k | 0 <= k < |ys| - 1
      ensures ys[k] < |vs| && Link(vs[ys[k]]) == ys[k + 1]
    {
      if k > 0 { assert ys[k] == xs[k - 1] && ys[k + 1] == xs[k]; }
    }
    forall j | 0 <= j < |vs|
      ensures j in ys <==> vs[j] % 2 == 0
    {
      assert xs == [xs[0]] + xs[1..];
    }
  }

  /** Distinct numbers below `n`: at most `n` of them, and all of them if there are `n`. */
  lemma DistinctBelow(xs: seq<nat>, n: nat)
    requires forall k :: 0 <= k < |xs| ==> xs[k] < n
    requires forall j, k :: 0 <= j < k < |xs| ==> xs[j] != xs[k]
    ensures |xs| <= n
    ensures |xs| == n ==> forall i :: 0 <= i < n ==> i in xs
    ensures |xs| < n ==> exists i :: 0 <= i < n && i !in xs
  {
    SubsetSize(Elements(xs), Range(n));
    if |xs| < n {
      assert Elements(xs) != Range(n);
      var i :| i in Range(n) && i !in Elements(xs);
    }
  }

  function Range(n: nat): (s: set<nat>)
    ensures |s| == n
    ensures forall i: nat :: i in s <==> i < n
  {
    if n == 0 then {} else Range(n - 1) + {n - 1}
  }

  function Elements(xs: seq<nat>): (s: set<nat>)
    requires forall j, k :: 0 <= j < k < |xs| ==> xs[j] != xs[k]
    ensures |s| == |xs|
    ensures forall x :: x in s <==> x in xs
  {
    if xs == [] then {} else
    var ys := xs[..|xs| - 1];
    assert xs == ys + [xs[|xs| - 1]];
    assert forall k :: 0 <= k < |ys| ==> ys[k] == xs[k];
    Elements(ys) + {xs[|xs| - 1]}
  }

  lemma {:induction false} SubsetSize<T>(s: set<T>, r: set<T>)
    requires s <= r
    ensures |s| <= |r|
    ensures |s| == |r| ==> s == r
  {
    if s != {} {
      var x :| x in s;
      SubsetSize(s - {x}, r - {x});
    }
  }

  /** With an object tagged, the zspage is in use; in use, it has a tagged object. */
  lemma InuseIffTagged(ws: seq<int>, waste: bool, head: nat, inuse: nat, xs: seq<nat>)
    requires FreeList(ws, waste, head, inuse, xs) && |ws| < 0x1000_0000
    ensures inuse > 0 <==> exists i :: 0 <= i < |ws| && ws[i] % 2 == 1
  {
    var ys := xs[..|xs| - 1];
    assert xs == ys + [xs[|xs| - 1]];
    DistinctBelow(ys, |ws|);
    if inuse > 0 {
      var i :| 0 <= i < |ws| && i !in ys;
      assert i !in xs;
    }
  }

  /** The words init_zspage writes: each object links to the next slot, the last to the bottom. */
  ghost predicate Fresh(ws: seq<int>, waste: bool) {
    forall i :: 0 <= i < |ws| ==> ws[i] == if i + 1 < |ws| || waste then LinkWord(i + 1) else LastLink()
  }

  /** The order in which a fresh zspage hands out its objects, and the bottom of its list. */
  function FreshOrder(n: nat, waste: bool): (xs: seq<nat>)
    ensures |xs| == n + 1
    ensures forall k :: 0 <= k < n ==> xs[k] == k
    ensures xs[n] == if waste then n else 0xFFFF_FFFF
  {
    seq(n + 1, k requires 0 <= k => if k < n then k else if waste then n else 0xFFFF_FFFF)
  }

  lemma FreshList(ws: seq<int>, waste: bool)
    requires Fresh(ws, waste) && 1 <= |ws| < 0x1000_0000
    ensures FreeList(ws, waste, 0, 0, FreshOrder(|ws|, waste))
  {
    var xs := FreshOrder(|ws|, waste);
    forall i | 0 <= i < |ws|
      ensures i in xs && ws[i] % 2 == 0 && Link(ws[i]) == xs[i + 1]
    {
      LinkRound(i + 1);
      assert xs[i] == i;
    }
  }
}
