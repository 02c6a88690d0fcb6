/** When compaction can free zspages, and why its loop comes to an end. */
module ZsCompact {
  import opened ZsAccount

  /** zs_can_compact */
  function CanCompact(a: Account, objs: nat, pages: nat): int
    requires |a.stats| == 14 && objs > 0
  {
    if a.stats[12] <= a.stats[13] then 0
    else ((a.stats[12] - a.stats[13]) / objs) * pages
  }

  /** The partly full zspages. */
  ghost function Partial(m: map<nat, nat>, objs: nat): set<nat> {
    set z | z in m && 0 < m[z] < objs
  }

  ghost predicate NoneEmpty(m: map<nat, nat>, objs: nat) {
    forall z :: z in m ==> 0 < m[z] <= objs
  }

  /** The free objects would fill a zspage. */
  ghost predicate Worthwhile(m: map<nat, nat>, objs: nat) {
    Sum(m) + objs <= objs * |m|
  }

  lemma AtMostOne(s: set<nat>, y: nat)
    requires s <= {y}
    ensures |s| <= 1
  {
    assert s == {} || s == {y};
  }

  lemma DivZero(a: nat, b: nat)
    requires b > 0
    ensures a / b > 0 <==> a >= b
  {
    var q := a / b;
    assert a == q * b + a % b;
    assert q <= 0 ==> q * b <= 0;
  }

  /** Compaction is worth while exactly when the free objects would fill a zspage. */
  lemma CanCompactIff(a: Account, objs: nat, pages: nat, m: map<nat, nat>)
    requires objs > 0 && pages > 0 && TotalsOk(a, objs, m)
    ensures CanCompact(a, objs, pages) != 0 <==> Worthwhile(m, objs)
  {
    var free := a.stats[12] - a.stats[13];
    if free > 0 {
      DivZero(free, objs);
      var q := free / objs;
      assert q > 0 ==> q * pages > 0;
    }
  }

  lemma {:induction false} SumBound(m: map<nat, nat>, objs: nat)
    requires forall z :: z in m ==> m[z] <= objs
    ensures Sum(m) <= objs * |m|
    decreases |m|
  {
    if m != map[] {
      var k :| k in m;
      SumOut(m, k);
      SumBound(m - {k}, objs);
      SizeOut(m, k);
      MulSucc(objs, |m|);
    }
  }

  lemma SizeOut(m: map<nat, nat>, k: nat)
    requires k in m
    ensures |m - {k}| == |m| - 1
  {
    assert (m - {k}).Keys == m.Keys - {k};
  }

  lemma {:induction false} SumFull(m: map<nat, nat>, objs: nat)
    requires forall z :: z in m ==> m[z] == objs
    ensures Sum(m) == objs * |m|
    decreases |m|
  {
    if m != map[] {
      var k :| k in m;
      SumOut(m, k);
      SumFull(m - {k}, objs);
      SizeOut(m, k);
      MulSucc(objs, |m|);
    }
  }

  /** With every zspage full but perhaps one, and that one not empty, less than a zspage's worth is free. */
  lemma OnePartial(m: map<nat, nat>, objs: nat, y: nat)
    requires objs > 0 && forall z :: z in m && z != y ==> m[z] == objs
    requires y in m ==> m[y] > 0
    ensures Sum(m) + objs > objs * |m|
  {
    if y in m {
      SumOut(m, y);
      SumFull(m - {y}, objs);
      SizeOut(m, y);
      MulSucc(objs, |m|);
    } else {
      SumFull(m, objs);
    }
  }

  /** With room for a zspage's worth of objects and none empty, some zspage other than `y` is partly full. */
  lemma TwoPartial(m: map<nat, nat>, objs: nat, y: nat)
    requires objs > 0 && NoneEmpty(m, objs) && Worthwhile(m, objs)
    ensures exists z :: z in Partial(m, objs) && z != y
  {
    hide Sum;
    if forall z :: z in m && z != y ==> m[z] == objs {
      OnePartial(m, objs, y);
    } else {
      var z :| z in m && z != y && m[z] != objs;
      assert z in Partial(m, objs);
    }
  }

  /** Where compaction stops: the fewest zspages that hold the objects in use, ceil(inuse / objs). */
  ghost predicate FewestZspages(m: map<nat, nat>, objs: nat) {
    |m| == 0 || objs * (|m| - 1) < Sum(m) <= objs * |m|
  }

  lemma StopsAtFewest(m: map<nat, nat>, objs: nat)
    requires objs > 0 && NoneEmpty(m, objs) && !Worthwhile(m, objs)
    ensures FewestZspages(m, objs)
  {
    SumBound(m, objs);
    MulSucc(objs, |m|);
  }

  /** A round of migration takes a zspage out of the partly full ones. */
  lemma RoundShrinks(m: map<nat, nat>, m': map<nat, nat>, objs: nat, src: nat, dst: nat)
    requires src in Partial(m, objs) && dst in Partial(m, objs) && src != dst
    requires m'.Keys <= m.Keys && forall z :: z in m' && z != src && z != dst ==> m'[z] == m[z]
    requires (dst in m' && m'[dst] == objs) || src !in m' || m'[src] == 0
    ensures Partial(m', objs) < Partial(m, objs)
  {
    assert dst !in Partial(m', objs) || src !in Partial(m', objs);
  }

  lemma SumMove(m: map<nat, nat>, src: nat, dst: nat, s: nat, t: nat)
    requires src in m && dst in m && src != dst && s + t == m[src] + m[dst]
    ensures Sum(m[src := s][dst := t]) == Sum(m)
  {
    SumUpdate(m, src, s);
    SumUpdate(m[src := s], dst, t);
  }

  /**
   What a round makes of the class: `s` objects left in `src`, `t` in `dst`, and `src` gone if it
   is empty and its page locks could be had.
   */
  lemma RoundEnd(m: map<nat, nat>, m': map<nat, nat>, objs: nat, src: nat, dst: nat, s: nat, t: nat, locked: bool)
    requires src in m && dst in m && src != dst && 0 < m[src] < objs && 0 < m[dst] < objs
    requires s + t == m[src] + m[dst] && s <= objs && t <= objs && (t == objs || s == 0)
    requires m' == if s == 0 && locked then m[src := s][dst := t] - {src} else m[src := s][dst := t]
    ensures Sum(m') == Sum(m) && Partial(m', objs) < Partial(m, objs)
    ensures locked && NoneEmpty(m, objs) ==> NoneEmpty(m', objs)
  {
    SumMove(m, src, dst, s, t);
    if s == 0 { SumOut(m[src := s][dst := t], src); }
    hide Sum;
    RoundShrinks(m, m', objs, src, dst);
  }
}
