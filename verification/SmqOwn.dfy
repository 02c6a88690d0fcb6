/** Which messages own which blocks. */
module SmqOwn {
  import opened SmqMap

  /** A message's place: its first block and its number of blocks. */
  datatype Node = Node(at: int, n: int)

  predicate Apart(x: Node, y: Node) {
    x.at + x.n <= y.at || y.at + y.n <= x.at
  }

  predicate Covers(x: Node, b: int) {
    x.at <= b < x.at + x.n
  }

  /** The entries of the message's blocks. */
  predicate Marked(m: Map, x: Node) {
    && 0 <= x.at && 1 <= x.n && x.at + x.n <= |m|
    && forall b :: x.at <= b < x.at + x.n ==> m[b] == x.at + x.n - b
  }

  /**
   The messages hold pairwise disjoint ranges of blocks, and these are exactly the nonzero part of the map.
   */
  ghost predicate Owns(m: Map, p: multiset<Node>) {
    && (forall x :: x in p ==> p[x] == 1 && Marked(m, x))
    && (forall x, y :: x in p && y in p && x != y ==> Apart(x, y))
    && (forall b :: 0 <= b < |m| && m[b] != 0 ==> exists x :: x in p && Covers(x, b))
  }

  /** Ranges apart from a new one stay marked. */
  lemma AllocateOther(m: Map, x: Node, y: Node)
    requires Marked(m, y) && Apart(x, y)
    ensures Marked(Allocate(m, x.at, x.n), y)
  {
  }

  /** A free window is apart from every marked range. */
  lemma WindowApart(m: Map, x: Node, y: Node)
    requires x.n >= 1 && Window(m, x.at, x.n) && Marked(m, y)
    ensures Apart(x, y)
  {
    assert m[x.at] == 0 && m[y.at] != 0;
  }

  lemma AllocateAt(m: Map, x: Node)
    requires x.n >= 1 && Window(m, x.at, x.n)
    ensures var m' := Allocate(m, x.at, x.n);
            Marked(m', x) && forall b :: 0 <= b < |m| && !Covers(x, b) ==> m'[b] == m[b]
  {
  }

  lemma OwnsAdd(m: Map, p: multiset<Node>, x: Node)
    requires Owns(m, p) && x.n >= 1 && Window(m, x.at, x.n)
    ensures x !in p && Owns(Allocate(m, x.at, x.n), p + multiset{x})
  {
    hide Allocate, Marked, Window;
    var m', p' := Allocate(m, x.at, x.n), p + multiset{x};
    AllocateAt(m, x);
    forall y | y in p ensures Apart(x, y) && Marked(m', y) {
      WindowApart(m, x, y);
      AllocateOther(m, x, y);
    }
    assert x !in p;
    forall b | 0 <= b < |m'| && m'[b] != 0 ensures exists y :: y in p' && Covers(y, b) {
      if Covers(x, b) {
        assert x in p';
      } else {
        var y :| y in p && Covers(y, b);
        assert y in p';
      }
    }
  }

  lemma OwnsStart(m: Map, p: multiset<Node>, x: Node)
    requires Owns(m, p) && x in p
    ensures 0 <= x.at < |m| && m[x.at] == x.n && Boundary(m, x.at)
  {
    if x.at > 0 && m[x.at - 1] != 0 {
      var y :| y in p && Covers(y, x.at - 1);
      assert Apart(x, y) && m[x.at - 1] == y.at + y.n - (x.at - 1);
    }
  }

  /** Ranges apart from a released one stay marked. */
  lemma ReleaseOther(m: Map, x: Node, y: Node)
    requires 0 <= x.at < |m| && m[x.at] == x.n && Marked(m, y)
    ensures Apart(x, y) ==> Marked(Release(m, x.at), y)
  {
  }

  lemma OwnsRemove(m: Map, p: multiset<Node>, x: Node)
    requires Owns(m, p) && x in p
    ensures Owns(Release(m, x.at), p - multiset{x})
  {
    var m', p' := Release(m, x.at), p - multiset{x};
    OwnsStart(m, p, x);
    assert p[x] == 1;
    forall y | y in p' ensures y in p && y != x && p'[y] == 1 && Marked(m', y) {
      ReleaseOther(m, x, y);
    }
    forall b | 0 <= b < |m'| && m'[b] != 0 ensures exists y :: y in p' && Covers(y, b) {
      var y :| y in p && Covers(y, b);
      assert y != x;
      assert y in p';
    }
  }

  /** The numbers below n. */
  function Below(n: nat): set<int> {
    if n == 0 then {} else Below(n - 1) + {n - 1}
  }

  lemma {:induction false} BelowSize(n: nat)
    ensures |Below(n)| == n && forall i :: 0 <= i < n <==> i in Below(n)
  {
    if n > 0 {
      BelowSize(n - 1);
    }
  }

  lemma {:induction false} StartsBound(p: multiset<Node>, starts: set<int>)
    requires forall x :: x in p ==> p[x] == 1 && x.at in starts && x.n >= 1
    requires forall x, y :: x in p && y in p && x != y ==> Apart(x, y)
    ensures |p| <= |starts|
    decreases |p|
  {
    if p != multiset{} {
      var x :| x in p;
      var q := p - multiset{x};
      forall y | y in q ensures y in p && q[y] == 1 && y.at in starts - {x.at} {
        assert p[x] == 1 && y != x;
        assert Apart(x, y);
      }
      StartsBound(q, starts - {x.at});
      assert |p| == |q| + 1;
    }
  }

  /** There are no more messages than blocks. */
  lemma OwnsBound(m: Map, p: multiset<Node>)
    requires Owns(m, p)
    ensures |p| <= |m|
  {
    BelowSize(|m|);
    StartsBound(p, Below(|m|));
  }
}
