/**
 The accounts of one size class: its fullness lists and its counters.

 The lists and counters must describe the zspages of the class, given here by how many
 objects each has in use.  During compaction a zspage can be isolated, that is, off the lists.
 */
module ZsAccount {

  /** Twelve fullness lists; counters 0..11 are their lengths, 12 is ZS_OBJS_ALLOCATED, 13 is ZS_OBJS_INUSE. */
  datatype Account = Account(lists: seq<seq<nat>>, stats: seq<int>)

  /** get_fullness_group */
  function Group(objs: nat, inuse: nat): nat
    requires objs > 0
  {
    if inuse == 0 then 0
    else if inuse == objs then 11
    else (100 * inuse / objs) / 10 + 1
  }

  /** A partly full zspage is in one of the groups 1 to 10. */
  lemma GroupPartial(objs: nat, inuse: nat)
    requires inuse <= objs && objs > 0
    ensures Group(objs, inuse) <= 11
    ensures 1 <= Group(objs, inuse) <= 10 <==> 0 < inuse < objs
    ensures Group(objs, inuse) == 0 <==> inuse == 0
    ensures Group(objs, inuse) == 11 <==> inuse == objs
  {
    if 0 < inuse < objs {
      var r := 100 * inuse / objs;
      assert 100 * inuse == r * objs + (100 * inuse) % objs;
      assert r * objs == 100 * objs + (r - 100) * objs;
    }
  }

  ghost predicate NoDup(xs: seq<nat>) {
    forall i, j :: 0 <= i < j < |xs| ==> xs[i] != xs[j]
  }

  /** list_del */
  function Without(xs: seq<nat>, z: nat): (ys: seq<nat>)
    ensures forall y :: y in ys ==> y in xs
    ensures forall y :: y in xs && y != z ==> y in ys
  {
    if xs == [] then []
    else if xs[0] == z then xs[1..]
    else [xs[0]] + Without(xs[1..], z)
  }

  lemma {:induction false} WithoutOk(xs: seq<nat>, z: nat)
    requires NoDup(xs) && z in xs
    ensures z !in Without(xs, z) && NoDup(Without(xs, z)) && |Without(xs, z)| == |xs| - 1
  {
    assert xs == [xs[0]] + xs[1..];
    if xs[0] != z {
      WithoutOk(xs[1..], z);
      var ys := Without(xs[1..], z);
      assert xs[0] !in ys;
      assert forall i :: 1 <= i <= |ys| ==> ([xs[0]] + ys)[i] in ys;
    }
  }

  /** The sum of the objects in use. */
  ghost function Sum(m: map<nat, nat>): nat
    decreases |m|
  {
    if m == map[] then 0 else
    var k :| k in m;
    m[k] + Sum(m - {k})
  }

  lemma {:induction false} SumOut(m: map<nat, nat>, k: nat)
    requires k in m
    ensures Sum(m) == m[k] + Sum(m - {k})
    decreases |m|
  {
    var j :| j in m && Sum(m) == m[j] + Sum(m - {j});
    if j != k {
      SumOut(m - {j}, k);
      SumOut(m - {k}, j);
      assert m - {j} - {k} == m - {k} - {j};
    }
  }

  lemma SumUpdate(m: map<nat, nat>, k: nat, v: nat)
    ensures k in m ==> Sum(m[k := v]) == Sum(m) - m[k] + v
    ensures k !in m ==> Sum(m[k := v]) == Sum(m) + v
  {
    SumOut(m[k := v], k);
    assert m[k := v] - {k} == m - {k};
    if k in m { SumOut(m, k); } else { assert m - {k} == m; }
  }

  /** Every zspage that is not isolated is on the list of its group, once, and no other. */
  ghost predicate ListsOk(lists: seq<seq<nat>>, objs: nat, inuse: map<nat, nat>, isolated: set<nat>) {
    && objs > 0 && |lists| == 12
    && (forall z :: z in inuse ==> inuse[z] <= objs)
    && (forall f, z :: 0 <= f < 12 ==>
          (z in lists[f] <==> z in inuse && z !in isolated && Group(objs, inuse[z]) == f))
    && (forall f :: 0 <= f < 12 ==> NoDup(lists[f]))
  }

  ghost predicate CountsOk(a: Account) {
    |a.lists| == 12 && |a.stats| == 14 && forall f :: 0 <= f < 12 ==> a.stats[f] == |a.lists[f]|
  }

  ghost predicate TotalsOk(a: Account, objs: nat, inuse: map<nat, nat>) {
    |a.stats| == 14 && a.stats[12] == objs * |inuse| && a.stats[13] == Sum(inuse)
  }

  /** `fullness` is the group each zspage remembers being inserted in. */
  ghost predicate RemembersGroup(objs: nat, inuse: map<nat, nat>, isolated: set<nat>, fullness: map<nat, nat>)
    requires objs > 0
  {
    forall z :: z in inuse && z !in isolated ==> z in fullness && fullness[z] == Group(objs, inuse[z])
  }

  ghost predicate AccountOk(a: Account, objs: nat, inuse: map<nat, nat>, isolated: set<nat>, fullness: map<nat, nat>) {
    && ListsOk(a.lists, objs, inuse, isolated)
    && CountsOk(a)
    && TotalsOk(a, objs, inuse)
    && RemembersGroup(objs, inuse, isolated, fullness)
  }

  /** insert_zspage, on the lists and counters */
  function Insert(a: Account, z: nat, f: nat): Account {
    if f < |a.lists| && f < |a.stats| then
      Account(a.lists[f := [z] + a.lists[f]], a.stats[f := a.stats[f] + 1])
    else a
  }

  /** remove_zspage */
  function Remove(a: Account, z: nat, f: nat): Account {
    if f < |a.lists| && f < |a.stats| then
      Account(a.lists[f := Without(a.lists[f], z)], a.stats[f := a.stats[f] - 1])
    else a
  }

  /** class_stat_add and class_stat_sub */
  function Stat(a: Account, i: nat, n: int): Account {
    if i < |a.stats| then a.(stats := a.stats[i := a.stats[i] + n]) else a
  }

  /** zspage->fullness */
  function FullnessOf(fullness: map<nat, nat>, z: nat): nat {
    if z in fullness then fullness[z] else 0
  }

  /** fix_fullness_group: the zspage moves to the list of its new group if that differs. */
  function Fix(a: Account, z: nat, from: nat, to: nat): Account {
    if from == to then a else Insert(Remove(a, z, from), z, to)
  }

  lemma RemoveLists(lists: seq<seq<nat>>, objs: nat, inuse: map<nat, nat>, isolated: set<nat>, z: nat, f: nat)
    requires ListsOk(lists, objs, inuse, isolated) && z in inuse && z !in isolated && f == Group(objs, inuse[z])
    ensures f < 12 && z in lists[f]
    ensures ListsOk(lists[f := Without(lists[f], z)], objs, inuse, isolated + {z})
    ensures |Without(lists[f], z)| == |lists[f]| - 1
  {
    GroupPartial(objs, inuse[z]);
    WithoutOk(lists[f], z);
  }

  lemma InsertLists(lists: seq<seq<nat>>, objs: nat, inuse: map<nat, nat>, isolated: set<nat>, z: nat, f: nat)
    requires ListsOk(lists, objs, inuse, isolated) && z in inuse && z in isolated && f == Group(objs, inuse[z])
    ensures f < 12
    ensures ListsOk(lists[f := [z] + lists[f]], objs, inuse, isolated - {z})
  {
    GroupPartial(objs, inuse[z]);
  }

  /** Taking a zspage off its list isolates it and nothing else. */
  lemma RemoveOk(a: Account, objs: nat, inuse: map<nat, nat>, isolated: set<nat>, fullness: map<nat, nat>, z: nat)
    requires AccountOk(a, objs, inuse, isolated, fullness) && z in inuse && z !in isolated
    ensures AccountOk(Remove(a, z, FullnessOf(fullness, z)), objs, inuse, isolated + {z}, fullness)
  {
    RemoveLists(a.lists, objs, inuse, isolated, z, fullness[z]);
    hide ListsOk, Without, Group;
  }

  /** Putting an isolated zspage on the list of its group. */
  lemma InsertOk(a: Account, objs: nat, inuse: map<nat, nat>, isolated: set<nat>, fullness: map<nat, nat>, z: nat)
    requires AccountOk(a, objs, inuse, isolated, fullness) && z in inuse && z in isolated
    ensures AccountOk(Insert(a, z, Group(objs, inuse[z])), objs, inuse, isolated - {z}, fullness[z := Group(objs, inuse[z])])
  {
    InsertLists(a.lists, objs, inuse, isolated, z, Group(objs, inuse[z]));
    hide ListsOk, Group;
  }

  /** An isolated zspage whose objects in use change, with the counter for it. */
  lemma ChangeOk(a: Account, objs: nat, inuse: map<nat, nat>, isolated: set<nat>, fullness: map<nat, nat>, z: nat, n: nat)
    requires AccountOk(a, objs, inuse, isolated, fullness) && z in inuse && z in isolated && n <= objs
    ensures AccountOk(Stat(a, 13, n - inuse[z]), objs, inuse[z := n], isolated, fullness)
  {
    SumUpdate(inuse, z, n);
    hide Group, NoDup;
    assert inuse[z := n].Keys == inuse.Keys;
    assert |inuse[z := n]| == |inuse|;
  }

  lemma MulSucc(a: int, b: int)
    ensures a * (b + 1) == a * b + a && a * (b - 1) == a * b - a
  {
  }

  lemma GrowLists(lists: seq<seq<nat>>, objs: nat, inuse: map<nat, nat>, isolated: set<nat>, z: nat, n: nat)
    requires ListsOk(lists, objs, inuse, isolated) && z !in inuse && n <= objs
    ensures ListsOk(lists, objs, inuse[z := n], isolated + {z})
  {
    hide Group, NoDup;
  }

  lemma ShrinkLists(lists: seq<seq<nat>>, objs: nat, inuse: map<nat, nat>, isolated: set<nat>, z: nat)
    requires ListsOk(lists, objs, inuse, isolated) && z in inuse && z in isolated
    ensures ListsOk(lists, objs, inuse - {z}, isolated - {z})
  {
    hide Group, NoDup;
  }

  /** A new zspage, isolated at first. */
  lemma GrowOk(a: Account, objs: nat, inuse: map<nat, nat>, isolated: set<nat>, fullness: map<nat, nat>, z: nat, n: nat)
    requires AccountOk(a, objs, inuse, isolated, fullness) && z !in inuse && n <= objs
    ensures AccountOk(Stat(Stat(a, 12, objs), 13, n), objs, inuse[z := n], isolated + {z}, fullness)
  {
    GrowLists(a.lists, objs, inuse, isolated, z, n);
    hide Group, ListsOk;
    SumUpdate(inuse, z, n);
    assert inuse[z := n].Keys == inuse.Keys + {z};
    assert |inuse[z := n]| == |inuse| + 1;
    MulSucc(objs, |inuse|);
  }

  /** An isolated empty zspage is given up. */
  lemma ShrinkOk(a: Account, objs: nat, inuse: map<nat, nat>, isolated: set<nat>, fullness: map<nat, nat>, z: nat)
    requires AccountOk(a, objs, inuse, isolated, fullness) && z in inuse && z in isolated && inuse[z] == 0
    ensures AccountOk(Stat(a, 12, 0 - objs), objs, inuse - {z}, isolated - {z}, fullness)
  {
    ShrinkLists(a.lists, objs, inuse, isolated, z);
    hide Group, ListsOk;
    SumOut(inuse, z);
    assert (inuse - {z}).Keys == inuse.Keys - {z};
    assert |inuse - {z}| == |inuse| - 1;
    MulSucc(objs, |inuse|);
  }

  /** A change of `inuse` that leaves the group alone needs no list operation. */
  lemma SameGroupLists(lists: seq<seq<nat>>, objs: nat, inuse: map<nat, nat>, isolated: set<nat>, z: nat, n: nat)
    requires ListsOk(lists, objs, inuse, isolated) && z in inuse && n <= objs && Group(objs, n) == Group(objs, inuse[z])
    ensures ListsOk(lists, objs, inuse[z := n], isolated)
  {
    hide Group, NoDup;
  }

  /** An object more or less in use: the counter, and the list if the group changes. */
  lemma FixOk(a: Account, objs: nat, inuse: map<nat, nat>, isolated: set<nat>, fullness: map<nat, nat>, z: nat, n: nat)
    requires AccountOk(a, objs, inuse, isolated, fullness) && z in inuse && z !in isolated && n <= objs
    ensures AccountOk(Stat(Fix(a, z, FullnessOf(fullness, z), Group(objs, n)), 13, n - inuse[z]), objs, inuse[z := n],
                      isolated, fullness[z := Group(objs, n)])
  {
    GroupPartial(objs, n);
    GroupPartial(objs, inuse[z]);
    if Group(objs, n) == fullness[z] {
      SameGroupLists(a.lists, objs, inuse, isolated, z, n);
      hide Group, ListsOk;
      SumUpdate(inuse, z, n);
      assert inuse[z := n].Keys == inuse.Keys && |inuse[z := n]| == |inuse|;
    } else {
      hide Group, ListsOk, CountsOk, TotalsOk, RemembersGroup, Without;
      RemoveOk(a, objs, inuse, isolated, fullness, z);
      var b := Remove(a, z, fullness[z]);
      ChangeOk(b, objs, inuse, isolated + {z}, fullness, z, n);
      var c := Stat(b, 13, n - inuse[z]);
      InsertOk(c, objs, inuse[z := n], isolated + {z}, fullness, z);
      assert isolated + {z} - {z} == isolated;
      assert Insert(c, z, Group(objs, n)) == Stat(Insert(b, z, Group(objs, n)), 13, n - inuse[z]) by {
        hide *;
        StatInsert(b, z, Group(objs, n), n - inuse[z]);
      }
    }
  }

  lemma StatInsert(a: Account, z: nat, f: nat, n: int)
    requires f < 12
    ensures Insert(Stat(a, 13, n), z, f) == Stat(Insert(a, z, f), 13, n)
  {
  }

  /** Only the zspages of the class matter to its accounts. */
  lemma OtherClass(a: Account, objs: nat, inuse: map<nat, nat>, iso: set<nat>, iso': set<nat>,
                   fullness: map<nat, nat>, fullness': map<nat, nat>)
    requires AccountOk(a, objs, inuse, iso, fullness)
    requires forall z :: z in inuse ==> (z in iso' <==> z in iso)
    requires forall z :: z in inuse && z in fullness ==> z in fullness' && fullness'[z] == fullness[z]
    ensures AccountOk(a, objs, inuse, iso', fullness')
  {
    hide Group, NoDup;
  }
}
