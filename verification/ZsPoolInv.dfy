/** What holds of a whole pool between operations, and how each kind of step keeps it. */
module ZsPoolInv {
  import opened ZsChain
  import opened ZsPage
  import opened ZsHandles
  import opened ZsData
  import opened ZsAccount
  import opened ZsMigrate
  import opened ZsCompact

  /** How many objects each zspage of class `c` has in use. */
  ghost function InuseOf(d: Data, c: nat): (m: map<nat, nat>) {
    map z | z in d.zspages && d.zspages[z].cls == c :: d.zspages[z].inuse
  }

  /** How many pages each zspage has. */
  ghost function PagesOf(d: Data, cs: seq<Class>): map<nat, nat>
    requires ZspagesOk(d, cs)
  {
    map z | z in d.zspages :: assert ZspageOk(d, cs, z); ClassOf(d, cs, z).pages
  }

  ghost predicate AccountsOk(cs: seq<Class>, d: Data, accounts: seq<Account>, fullness: map<nat, nat>, iso: set<nat>) {
    && |accounts| == |cs|
    && forall c :: 0 <= c < |cs| ==> AccountOk(accounts[c], cs[c].objs, InuseOf(d, c), iso, fullness)
  }

  /** The data means what it should, every class's accounts are right, and so is the page total. */
  ghost predicate PoolOk(cs: seq<Class>, d: Data, accounts: seq<Account>, fullness: map<nat, nat>, pages: int, iso: set<nat>) {
    && ClassesOk(cs) && DataOk(d, cs)
    && AccountsOk(cs, d, accounts, fullness, iso)
    && pages == Sum(PagesOf(d, cs))
  }

  /** Only zspage `zid` changed, and it kept its class. */
  ghost predicate OneZspage(d: Data, d': Data, cs: seq<Class>, zid: nat) {
    && ZspagesOk(d, cs) && ZspagesOk(d', cs) && zid in d.zspages && zid in d'.zspages
    && d'.zspages == d.zspages[zid := d'.zspages[zid]]
    && d'.zspages[zid].cls == d.zspages[zid].cls
  }

  lemma OneZspageInuse(d: Data, d': Data, cs: seq<Class>, zid: nat, c: nat)
    requires OneZspage(d, d', cs, zid)
    ensures c == d.zspages[zid].cls ==> zid in InuseOf(d, c) && InuseOf(d, c)[zid] == d.zspages[zid].inuse && InuseOf(d', c) == InuseOf(d, c)[zid := d'.zspages[zid].inuse]
    ensures c != d.zspages[zid].cls ==> zid !in InuseOf(d, c) && InuseOf(d', c) == InuseOf(d, c)
  {
    hide ZspagesOk;
  }

  lemma OneZspagePages(d: Data, d': Data, cs: seq<Class>, zid: nat)
    requires OneZspage(d, d', cs, zid)
    ensures PagesOf(d', cs) == PagesOf(d, cs)
  {
    hide Good, Shape;
  }

  lemma InuseBound(d: Data, cs: seq<Class>, zid: nat)
    requires ZspagesOk(d, cs) && zid in d.zspages
    ensures ZspageOk(d, cs, zid) && d.zspages[zid].inuse <= ClassOf(d, cs, zid).objs
    ensures zid in InuseOf(d, d.zspages[zid].cls)
  {
  }

  /** The accounts of class `c` after zspage `z` of it went from `was` to `now` objects in use. */
  function Recount(accounts: seq<Account>, c: nat, z: nat, fullness: map<nat, nat>, group: nat, delta: int): seq<Account>
    requires c < |accounts|
  {
    accounts[c := Stat(Fix(accounts[c], z, FullnessOf(fullness, z), group), 13, delta)]
  }

  /**
   An object of zspage `zid` was allocated or freed (`d` became `d'`): class_stat_add or
   class_stat_sub of ZS_OBJS_INUSE and fix_fullness_group restore the accounts.
   */
  lemma CountObject(cs: seq<Class>, d: Data, d': Data, accounts: seq<Account>, fullness: map<nat, nat>, zid: nat, c: nat, group: nat)
    requires AccountsOk(cs, d, accounts, fullness, {}) && OneZspage(d, d', cs, zid)
    requires c == d.zspages[zid].cls < |accounts| == |cs| && cs[c].objs > 0 && group == Group(cs[c].objs, d'.zspages[zid].inuse)
    ensures AccountsOk(cs, d', Recount(accounts, c, zid, fullness, group, d'.zspages[zid].inuse - d.zspages[zid].inuse),
                       fullness[zid := group], {})
  {
    hide Sum, AccountOk, Good, Shape, InuseOf, Fix, Stat, FullnessOf, Group;
    InuseBound(d', cs, zid);
    var n := d'.zspages[zid].inuse;
    OneZspageInuse(d, d', cs, zid, c);
    FixOk(accounts[c], cs[c].objs, InuseOf(d, c), {}, fullness, zid, n);
    var accounts' := Recount(accounts, c, zid, fullness, group, n - d.zspages[zid].inuse);
    forall b | 0 <= b < |cs| ensures AccountOk(accounts'[b], cs[b].objs, InuseOf(d', b), {}, fullness[zid := group]) {
      if b != c {
        OneZspageInuse(d, d', cs, zid, b);
        OtherClass(accounts[b], cs[b].objs, InuseOf(d, b), {}, {}, fullness, fullness[zid := group]);
      }
    }
  }

  /** `d'` has one zspage more than `d`. */
  lemma OneMoreInuse(d: Data, d': Data, cs: seq<Class>, zid: nat, c: nat)
    requires OneMore(d, d', cs, zid)
    ensures c == d'.zspages[zid].cls ==> InuseOf(d', c) == InuseOf(d, c)[zid := d'.zspages[zid].inuse] && InuseOf(d, c) == InuseOf(d', c) - {zid}
    ensures c != d'.zspages[zid].cls ==> InuseOf(d', c) == InuseOf(d, c) && zid !in InuseOf(d', c)
    ensures zid !in InuseOf(d, c)
  {
    hide ZspagesOk;
  }

  lemma OneMorePages(d: Data, d': Data, cs: seq<Class>, zid: nat)
    requires OneMore(d, d', cs, zid) && ZspagesOk(d', cs)
    ensures Sum(PagesOf(d', cs)) == Sum(PagesOf(d, cs)) + ClassOf(d', cs, zid).pages
  {
    hide Good, Shape, Sum;
    SumUpdate(PagesOf(d, cs), zid, ClassOf(d', cs, zid).pages);
    assert PagesOf(d', cs) == PagesOf(d, cs)[zid := ClassOf(d', cs, zid).pages];
  }

  /** insert_zspage of a new zspage and the counters for it. */
  function Enlist(accounts: seq<Account>, c: nat, z: nat, group: nat, objs: nat, n: nat): seq<Account>
    requires c < |accounts|
  {
    accounts[c := Stat(Stat(Insert(accounts[c], z, group), 12, objs), 13, n)]
  }

  lemma StatsInsert(a: Account, z: nat, f: nat, m: int, n: int)
    requires f < 12
    ensures Insert(Stat(Stat(a, 12, m), 13, n), z, f) == Stat(Stat(Insert(a, z, f), 12, m), 13, n)
  {
  }

  /** A new zspage with its first object: the accounts follow. */
  lemma CountNew(cs: seq<Class>, d: Data, d': Data, accounts: seq<Account>, fullness: map<nat, nat>, zid: nat, c: nat, group: nat)
    requires AccountsOk(cs, d, accounts, fullness, {}) && OneMore(d, d', cs, zid) && ZspagesOk(d', cs)
    requires c == d'.zspages[zid].cls < |accounts| == |cs| && cs[c].objs > 0 && group == Group(cs[c].objs, d'.zspages[zid].inuse)
    ensures AccountsOk(cs, d', Enlist(accounts, c, zid, group, cs[c].objs, d'.zspages[zid].inuse), fullness[zid := group], {})
  {
    hide Sum, AccountOk, Good, Shape, InuseOf, Insert, Stat, Group;
    InuseBound(d', cs, zid);
    var n := d'.zspages[zid].inuse;
    GroupPartial(cs[c].objs, n);
    OneMoreInuse(d, d', cs, zid, c);
    assert {} + {zid} == {zid} && {zid} - {zid} == {};
    GrowOk(accounts[c], cs[c].objs, InuseOf(d, c), {}, fullness, zid, n);
    InsertOk(Stat(Stat(accounts[c], 12, cs[c].objs), 13, n), cs[c].objs, InuseOf(d', c), {zid}, fullness, zid);
    StatsInsert(accounts[c], zid, group, cs[c].objs, n);
    var accounts' := Enlist(accounts, c, zid, group, cs[c].objs, n);
    forall b | 0 <= b < |cs| ensures AccountOk(accounts'[b], cs[b].objs, InuseOf(d', b), {}, fullness[zid := group]) {
      if b != c {
        OneMoreInuse(d, d', cs, zid, b);
        OtherClass(accounts[b], cs[b].objs, InuseOf(d, b), {}, {}, fullness, fullness[zid := group]);
      }
    }
  }

  /** remove_zspage of an empty zspage and the counter for it. */
  function Delist(accounts: seq<Account>, c: nat, z: nat, fullness: map<nat, nat>, objs: nat): seq<Account>
    requires c < |accounts|
  {
    accounts[c := Stat(Remove(accounts[c], z, FullnessOf(fullness, z)), 12, 0 - objs)]
  }

  /** An empty zspage is freed: the accounts follow.  `d` is the pool after it. */
  lemma CountGone(cs: seq<Class>, d: Data, d': Data, accounts: seq<Account>, fullness: map<nat, nat>, iso: set<nat>, zid: nat, c: nat)
    requires AccountsOk(cs, d', accounts, fullness, iso) && zid !in iso && OneMore(d, d', cs, zid) && ZspagesOk(d', cs)
    requires c == d'.zspages[zid].cls < |accounts| == |cs| && d'.zspages[zid].inuse == 0
    ensures AccountsOk(cs, d, Delist(accounts, c, zid, fullness, cs[c].objs), fullness, iso)
  {
    hide Sum, AccountOk, Good, Shape, Remove, Stat, FullnessOf, ZspagesOk;
    OneMoreInuse(d, d', cs, zid, c);
    RemoveOk(accounts[c], cs[c].objs, InuseOf(d', c), iso, fullness, zid);
    ShrinkOk(Remove(accounts[c], zid, FullnessOf(fullness, zid)), cs[c].objs, InuseOf(d', c), iso + {zid}, fullness, zid);
    assert iso + {zid} - {zid} == iso;
    var accounts' := Delist(accounts, c, zid, fullness, cs[c].objs);
    hide InuseOf;
    forall b | 0 <= b < |cs| ensures AccountOk(accounts'[b], cs[b].objs, InuseOf(d, b), iso, fullness) {
      if b != c { OneMoreInuse(d, d', cs, zid, b); }
    }
  }

  /** Isolating a zspage: off its list, otherwise untouched. */
  lemma CountIsolated(cs: seq<Class>, d: Data, accounts: seq<Account>, fullness: map<nat, nat>, iso: set<nat>, zid: nat, c: nat)
    requires AccountsOk(cs, d, accounts, fullness, iso) && zid in d.zspages && zid !in iso
    requires c == d.zspages[zid].cls < |accounts| == |cs|
    ensures AccountsOk(cs, d, accounts[c := Remove(accounts[c], zid, FullnessOf(fullness, zid))], fullness, iso + {zid})
  {
    hide AccountOk, Remove, FullnessOf;
    RemoveOk(accounts[c], cs[c].objs, InuseOf(d, c), iso, fullness, zid);
    forall b | 0 <= b < |cs| && b != c ensures AccountOk(accounts[b], cs[b].objs, InuseOf(d, b), iso + {zid}, fullness) {
      OtherClass(accounts[b], cs[b].objs, InuseOf(d, b), iso, iso + {zid}, fullness, fullness);
    }
  }

  /** putback_zspage */
  lemma CountPutback(cs: seq<Class>, d: Data, accounts: seq<Account>, fullness: map<nat, nat>, iso: set<nat>, zid: nat, c: nat, group: nat)
    requires AccountsOk(cs, d, accounts, fullness, iso) && zid in d.zspages && zid in iso
    requires c == d.zspages[zid].cls < |accounts| == |cs| && cs[c].objs > 0 && group == Group(cs[c].objs, d.zspages[zid].inuse)
    ensures AccountsOk(cs, d, accounts[c := Insert(accounts[c], zid, group)], fullness[zid := group], iso - {zid})
  {
    hide AccountOk, Insert, Group;
    InsertOk(accounts[c], cs[c].objs, InuseOf(d, c), iso, fullness, zid);
    forall b | 0 <= b < |cs| && b != c ensures AccountOk(accounts[b], cs[b].objs, InuseOf(d, b), iso - {zid}, fullness[zid := group]) {
      OtherClass(accounts[b], cs[b].objs, InuseOf(d, b), iso, iso - {zid}, fullness, fullness[zid := group]);
    }
  }

  /** Objects moved between two isolated zspages of a class: the accounts do not change. */
  lemma CountMoved(cs: seq<Class>, d: Data, d': Data, accounts: seq<Account>, fullness: map<nat, nat>, iso: set<nat>, c: nat, src: nat, dst: nat)
    requires AccountsOk(cs, d, accounts, fullness, iso) && src in iso && dst in iso && src != dst && c < |cs|
    requires InuseOf(d', c).Keys == InuseOf(d, c).Keys && src in InuseOf(d, c) && dst in InuseOf(d, c)
    requires forall b :: b != c ==> InuseOf(d', b) == InuseOf(d, b)
    requires InuseOf(d', c) == InuseOf(d, c)[src := InuseOf(d', c)[src]][dst := InuseOf(d', c)[dst]]
    requires InuseOf(d', c)[src] + InuseOf(d', c)[dst] == InuseOf(d, c)[src] + InuseOf(d, c)[dst]
    requires InuseOf(d', c)[src] <= cs[c].objs && InuseOf(d', c)[dst] <= cs[c].objs
    ensures AccountsOk(cs, d', accounts, fullness, iso)
  {
    hide InuseOf, AccountOk, Stat, Sum;
    var a, m := accounts[c], InuseOf(d, c);
    var s: int, t: int := InuseOf(d', c)[src], InuseOf(d', c)[dst];
    ChangeOk(a, cs[c].objs, m, iso, fullness, src, s);
    ChangeOk(Stat(a, 13, s - m[src]), cs[c].objs, m[src := s], iso, fullness, dst, t);
    StatBack(a, s - m[src], t - m[dst]);
    forall b | 0 <= b < |cs| && b != c ensures AccountOk(accounts[b], cs[b].objs, InuseOf(d', b), iso, fullness) {
      assert InuseOf(d', b) == InuseOf(d, b);
    }
  }

  lemma StatBack(a: Account, m: int, n: int)
    requires m + n == 0
    ensures Stat(Stat(a, 13, m), 13, n) == a
  {
  }

  /** A zspage of class `c` that is on a list and has objects free. */
  ghost predicate Candidate(cs: seq<Class>, d: Data, iso: set<nat>, c: nat, z: nat)
    requires c < |cs|
  {
    z in d.zspages && d.zspages[z].cls == c && z !in iso && d.zspages[z].inuse < cs[c].objs
  }

  /** What the list of group `f` says about zspage `z`. */
  lemma ListMeans(cs: seq<Class>, d: Data, accounts: seq<Account>, fullness: map<nat, nat>, iso: set<nat>, c: nat, f: nat, z: nat)
    requires AccountsOk(cs, d, accounts, fullness, iso) && c < |cs| && f < 11
    ensures cs[c].objs > 0 && |accounts[c].lists| == 12
    ensures z in accounts[c].lists[f] <==> Candidate(cs, d, iso, c, z) && Group(cs[c].objs, d.zspages[z].inuse) == f
    ensures Candidate(cs, d, iso, c, z) ==> Group(cs[c].objs, d.zspages[z].inuse) <= 10
  {
    hide Group, NoDup;
    var m := InuseOf(d, c);
    assert AccountOk(accounts[c], cs[c].objs, m, iso, fullness);
    assert z in m <==> z in d.zspages && d.zspages[z].cls == c;
    if z in m { GroupPartial(cs[c].objs, m[z]); }
  }

  lemma PoolData(cs: seq<Class>, d: Data, accounts: seq<Account>, fullness: map<nat, nat>, pages: int, iso: set<nat>)
    requires PoolOk(cs, d, accounts, fullness, pages, iso)
    ensures DataOk(d, cs)
  {
  }

  /** The zspage is in order, and what obj_malloc would take from it is an object. */
  lemma Ready(cs: seq<Class>, d: Data, accounts: seq<Account>, fullness: map<nat, nat>, pages: int, iso: set<nat>, zid: nat)
    requires PoolOk(cs, d, accounts, fullness, pages, iso) && zid in d.zspages
    ensures ClassesOk(cs) && DataOk(d, cs) && ZspagesOk(d, cs) && ZspageOk(d, cs, zid)
    ensures d.zspages[zid].cls < |cs| == |accounts| && cs[d.zspages[zid].cls].objs > 0
    ensures d.zspages[zid].inuse <= cs[d.zspages[zid].cls].objs
    ensures d.zspages[zid].inuse < cs[d.zspages[zid].cls].objs ==> d.zspages[zid].freeobj < cs[d.zspages[zid].cls].objs
  {
    hide Inv, OwnerOk, AccountOk, FirstOff;
    assert ZspageOk(d, cs, zid);
    if d.zspages[zid].inuse < cs[d.zspages[zid].cls].objs {
      HeadIsObject(d.zspages[zid], cs[d.zspages[zid].cls]);
    }
  }

  /** obj_malloc, fix_fullness_group and class_stat_add: one handle more, and the accounts right. */
  lemma MallocStep(cs: seq<Class>, d: Data, accounts: seq<Account>, fullness: map<nat, nat>, pages: int,
                   zid: nat, h: int, c: nat, d': Data, group: nat)
    requires PoolOk(cs, d, accounts, fullness, pages, {}) && zid in d.zspages && IsHandle(h) && h !in d.handles
    requires c == d.zspages[zid].cls < |cs| == |accounts| && d.zspages[zid].inuse < cs[c].objs
    requires ZspageOk(d, cs, zid) && d.zspages[zid].freeobj < cs[c].objs && d' == MallocIn(d, cs, zid, h)
    requires group == Group(cs[c].objs, d'.zspages[zid].inuse)
    ensures PoolOk(cs, d', Recount(accounts, c, zid, fullness, group, 1), fullness[zid := group], pages, {})
    ensures Meaning(d', cs).Keys == Meaning(d, cs).Keys + {h} && Meaning(d', cs) - {h} == Meaning(d, cs)
    ensures |Meaning(d', cs)[h]| == PayloadSize(cs[c])
  {
    hide DataOk, AccountsOk, Meaning, Good, Group, Recount, Sum, PagesOf;
    Ready(cs, d, accounts, fullness, pages, {}, zid);
    MallocInOk(d, cs, zid, h);
    assert h !in Meaning(d, cs) by { MeaningKeys(d, cs); }
    DataZspages(d', cs);
    CountObject(cs, d, d', accounts, fullness, zid, c, group);
    OneZspagePages(d, d', cs, zid);
    hide PoolOk, ZspagesOk, ZspageOk;
  }

  lemma MeaningKeys(d: Data, cs: seq<Class>)
    requires DataOk(d, cs)
    ensures Meaning(d, cs).Keys == d.handles.Keys
  {
    hide Inv;
  }

  lemma DataZspages(d: Data, cs: seq<Class>)
    requires DataOk(d, cs)
    ensures ZspagesOk(d, cs)
  {
  }

  /** The slow path of zs_malloc: a new zspage `z`, its first object for `h`, insert_zspage and the counters. */
  lemma NewStep(cs: seq<Class>, d: Data, accounts: seq<Account>, fullness: map<nat, nat>, pages: int,
                zid: nat, z: Zspage, h: int, c: nat, d1: Data, d2: Data, group: nat)
    requires PoolOk(cs, d, accounts, fullness, pages, {}) && IsHandle(h) && h !in d.handles && zid !in d.zspages
    requires c == z.cls < |cs| == |accounts| && z.inuse == 0 && Shape(z, cs[c]) && Good(z, cs[c])
    requires forall i :: 0 <= i < cs[c].objs ==> Header(z, cs[c], i) % 2 == 0
    requires forall p :: p in z.pfns ==> p !in d.owner
    requires forall p, q :: 0 <= p < q < |z.pfns| ==> z.pfns[p] != z.pfns[q]
    requires d1 == AddIn(d, zid, z) && ZspageOk(d1, cs, zid) && z.freeobj < cs[c].objs && d2 == MallocIn(d1, cs, zid, h)
    requires group == Group(cs[c].objs, d2.zspages[zid].inuse)
    ensures PoolOk(cs, d2, Enlist(accounts, c, zid, group, cs[c].objs, 1), fullness[zid := group], pages + cs[c].pages, {})
    ensures Meaning(d2, cs).Keys == Meaning(d, cs).Keys + {h} && Meaning(d2, cs) - {h} == Meaning(d, cs)
    ensures |Meaning(d2, cs)[h]| == PayloadSize(cs[c])
  {
    hide DataOk, AccountsOk, Meaning, Good, Group, Enlist, Sum, PagesOf, Shape, Header;
    AddInOk(d, cs, zid, z);
    MallocInOk(d1, cs, zid, h);
    MeaningKeys(d, cs);
    DataZspages(d, cs);
    DataZspages(d2, cs);
    assert d2.zspages == d.zspages[zid := d2.zspages[zid]];
    CountNew(cs, d, d2, accounts, fullness, zid, c, group);
    OneMorePages(d, d2, cs, zid);
    hide PoolOk, ZspagesOk, ZspageOk, OneMore;
  }

  /** zs_free of the object, with the zspage kept. */
  lemma FreeStep(cs: seq<Class>, d: Data, accounts: seq<Account>, fullness: map<nat, nat>, pages: int,
                 h: int, zid: nat, c: nat, d': Data, group: nat)
    requires PoolOk(cs, d, accounts, fullness, pages, {}) && h in d.handles && ObjPfn(d.handles[h]) in d.owner
    requires zid == ZidOf(d, h) && ZspageOk(d, cs, zid) && d.zspages[zid].inuse > 0
    requires c == d.zspages[zid].cls < |cs| == |accounts| && IdxOf(d, h) < cs[c].objs
    requires d' == FreeIn(d, cs, h) && group == Group(cs[c].objs, d'.zspages[zid].inuse)
    ensures PoolOk(cs, d', Recount(accounts, c, zid, fullness, group, -1), fullness[zid := group], pages, {})
    ensures Meaning(d', cs) == Meaning(d, cs) - {h}
    ensures group == 0 <==> d'.zspages[zid].inuse == 0
  {
    hide DataOk, AccountsOk, Meaning, Good, Recount, Sum, PagesOf;
    FreeInOk(d, cs, h);
    DataZspages(d, cs);
    DataZspages(d', cs);
    CountObject(cs, d, d', accounts, fullness, zid, c, group);
    OneZspagePages(d, d', cs, zid);
    InuseBound(d', cs, zid);
    GroupPartial(cs[c].objs, d'.zspages[zid].inuse);
    hide PoolOk, ZspagesOk, ZspageOk, Group;
  }

  /** Where zs_free finds the object. */
  lemma FreeReady(cs: seq<Class>, d: Data, accounts: seq<Account>, fullness: map<nat, nat>, pages: int, h: int)
    requires PoolOk(cs, d, accounts, fullness, pages, {}) && h in d.handles
    ensures ObjPfn(d.handles[h]) in d.owner && ZspageOk(d, cs, ZidOf(d, h)) && d.zspages[ZidOf(d, h)].inuse > 0
    ensures d.zspages[ZidOf(d, h)].cls < |cs| == |accounts| && IdxOf(d, h) < cs[d.zspages[ZidOf(d, h)].cls].objs
    ensures ClassesOk(cs) && DataOk(d, cs)
  {
    hide DataOk;
    FreeInOk(d, cs, h);
  }

  /** free_zspage with the page locks taken: the empty zspage is gone, its pages with it. */
  lemma DropStep(cs: seq<Class>, d: Data, accounts: seq<Account>, fullness: map<nat, nat>, pages: int, iso: set<nat>, zid: nat, c: nat)
    requires PoolOk(cs, d, accounts, fullness, pages, iso) && zid in d.zspages && zid !in iso && d.zspages[zid].inuse == 0
    requires c == d.zspages[zid].cls < |cs| == |accounts|
    ensures PoolOk(cs, DropIn(d, zid), Delist(accounts, c, zid, fullness, cs[c].objs), fullness, pages - cs[c].pages, iso)
    ensures Meaning(DropIn(d, zid), cs) == Meaning(d, cs)
  {
    hide DataOk, AccountsOk, Meaning, Good, Delist, Sum, PagesOf, Shape;
    Ready(cs, d, accounts, fullness, pages, iso, zid);
    DropInOk(d, cs, zid);
    var d' := DropIn(d, zid);
    DataZspages(d', cs);
    assert d.zspages == d'.zspages[zid := d.zspages[zid]];
    CountGone(cs, d', d, accounts, fullness, iso, zid, c);
    OneMorePages(d', d, cs, zid);
    hide PoolOk, ZspagesOk, ZspageOk, OneMore;
  }

  /** A payload store changes what that handle reads and no account. */
  lemma StoreStep(cs: seq<Class>, d: Data, accounts: seq<Account>, fullness: map<nat, nat>, pages: int,
                  h: int, zid: nat, g: Class, payload: seq<int>, pages': Chain)
    requires PoolOk(cs, d, accounts, fullness, pages, {}) && h in d.handles && ObjPfn(d.handles[h]) in d.owner
    requires zid == ZidOf(d, h) && ZspageOk(d, cs, zid) && g == ClassOf(d, cs, zid) && IdxOf(d, h) < g.objs
    requires |payload| == PayloadSize(g) && Start(g, IdxOf(d, h)) + g.size <= g.pages * 512
    requires Wrote(d.zspages[zid].pages, Start(g, IdxOf(d, h)) + HeaderSize(g), payload, pages')
    ensures PoolOk(cs, StoreIn(d, h, pages'), accounts, fullness, pages, {})
    ensures Meaning(StoreIn(d, h, pages'), cs) == Meaning(d, cs)[h := payload]
  {
    hide DataOk, AccountOk, Meaning, Good, Sum, PagesOf, Wrote, Shape, Start;
    StoreInOk(d, cs, h, payload, pages');
    var d' := StoreIn(d, h, pages');
    DataZspages(d, cs);
    DataZspages(d', cs);
    OneZspagePages(d, d', cs, zid);
    forall c | 0 <= c < |cs| ensures InuseOf(d', c) == InuseOf(d, c) {
      OneZspageInuse(d, d', cs, zid, c);
    }
  }

  /** Neither NULL nor an error code is a live handle. */
  lemma KeysPositive(cs: seq<Class>, d: Data, h: int)
    requires DataOk(d, cs) && h <= 0
    ensures h !in Meaning(d, cs)
  {
    MeaningKeys(d, cs);
    hide Inv;
    if h in d.handles { Lookup(d, cs, h); }
  }

  lemma MovedInuse(cs: seq<Class>, d: Data, d': Data, src: nat, dst: nat, g: Class, c: nat, b: nat)
    requires DataOk(d, cs) && Moved(d, d', cs, src, dst, g) && c == d.zspages[src].cls
    ensures b == c ==> src in InuseOf(d, b) && dst in InuseOf(d, b) && InuseOf(d', b) == InuseOf(d, b)[src := d'.zspages[src].inuse][dst := d'.zspages[dst].inuse]
    ensures b == c ==> InuseOf(d, b)[src] == d.zspages[src].inuse && InuseOf(d, b)[dst] == d.zspages[dst].inuse
    ensures b != c ==> InuseOf(d', b) == InuseOf(d, b)
  {
    hide DataOk, Meaning, Good, Shape;
  }

  lemma MovedPages(cs: seq<Class>, d: Data, d': Data, src: nat, dst: nat, g: Class)
    requires DataOk(d, cs) && Moved(d, d', cs, src, dst, g)
    ensures ZspagesOk(d, cs) && ZspagesOk(d', cs) && PagesOf(d', cs) == PagesOf(d, cs)
  {
    hide Inv, Meaning, Good, Shape, OwnerOk;
  }

  /** migrate_zspage between two isolated zspages keeps the pool sound. */
  lemma MovedStep(cs: seq<Class>, d: Data, d': Data, accounts: seq<Account>, fullness: map<nat, nat>, pages: int,
                  iso: set<nat>, src: nat, dst: nat, g: Class, c: nat)
    requires PoolOk(cs, d, accounts, fullness, pages, iso) && src in iso && dst in iso
    requires Moved(d, d', cs, src, dst, g) && c == d.zspages[src].cls < |cs| && g == cs[c]
    ensures PoolOk(cs, d', accounts, fullness, pages, iso)
    ensures InuseOf(d', c) == InuseOf(d, c)[src := d'.zspages[src].inuse][dst := d'.zspages[dst].inuse]
    ensures src in InuseOf(d, c) && dst in InuseOf(d, c)
    ensures InuseOf(d, c)[src] == d.zspages[src].inuse && InuseOf(d, c)[dst] == d.zspages[dst].inuse
    ensures forall b :: b != c ==> InuseOf(d', b) == InuseOf(d, b)
  {
    hide DataOk, Meaning, Good, Shape, AccountsOk, Sum, PagesOf, InuseOf;
    MovedPages(cs, d, d', src, dst, g);
    forall b: nat ensures b != c ==> InuseOf(d', b) == InuseOf(d, b) {
      MovedInuse(cs, d, d', src, dst, g, c, b);
    }
    MovedInuse(cs, d, d', src, dst, g, c, c);
    InuseBounded(d', cs, src);
    InuseBounded(d', cs, dst);
    CountMoved(cs, d, d', accounts, fullness, iso, c, src, dst);
  }

  /** The objects in use in a class are counted zspage by zspage. */
  lemma ClassTotals(cs: seq<Class>, d: Data, accounts: seq<Account>, fullness: map<nat, nat>, pages: int, iso: set<nat>, c: nat)
    requires PoolOk(cs, d, accounts, fullness, pages, iso) && c < |cs|
    ensures |accounts| == |cs| && TotalsOk(accounts[c], cs[c].objs, InuseOf(d, c)) && |accounts[c].lists| == 12
    ensures ClassOk(cs[c]) && forall z :: z in InuseOf(d, c) ==> InuseOf(d, c)[z] <= cs[c].objs
  {
    hide DataOk, Sum, PagesOf, InuseOf, Group, NoDup;
    assert AccountOk(accounts[c], cs[c].objs, InuseOf(d, c), iso, fullness);
  }

  /** Partly full zspages are those on the lists 1 to 10. */
  lemma PartialListed(cs: seq<Class>, d: Data, accounts: seq<Account>, fullness: map<nat, nat>, iso: set<nat>, c: nat, f: nat, z: nat)
    requires AccountsOk(cs, d, accounts, fullness, iso) && c < |cs| && 1 <= f <= 10
    ensures cs[c].objs > 0 && |accounts[c].lists| == 12
    ensures z in accounts[c].lists[f] ==> PartlyFull(cs, d, iso, c, z)
    ensures z in accounts[c].lists[f] <==> Candidate(cs, d, iso, c, z) && Group(cs[c].objs, d.zspages[z].inuse) == f
    ensures PartlyFull(cs, d, iso, c, z) ==> 1 <= Group(cs[c].objs, d.zspages[z].inuse) <= 10
  {
    ListMeans(cs, d, accounts, fullness, iso, c, f, z);
    if Candidate(cs, d, iso, c, z) { GroupPartial(cs[c].objs, d.zspages[z].inuse); }
    hide AccountsOk, Group;
  }

  ghost predicate PartlyFull(cs: seq<Class>, d: Data, iso: set<nat>, c: nat, z: nat)
    requires c < |cs|
  {
    Candidate(cs, d, iso, c, z) && d.zspages[z].inuse > 0
  }

  /** While compaction is worth while, some zspage other than the destination is a source. */
  lemma SourceExists(cs: seq<Class>, d: Data, iso: set<nat>, c: nat, dst: nat)
    requires c < |cs| && cs[c].objs > 0 && iso <= {dst}
    requires NoneEmpty(InuseOf(d, c), cs[c].objs) && Worthwhile(InuseOf(d, c), cs[c].objs)
    ensures exists z :: PartlyFull(cs, d, iso, c, z)
  {
    TwoPartial(InuseOf(d, c), cs[c].objs, dst);
    hide Sum;
    var z :| z in Partial(InuseOf(d, c), cs[c].objs) && z != dst;
    assert PartlyFull(cs, d, iso, c, z);
  }

  /** Two partly full zspages of a class are a pair that migrate_zspage can work on. */
  lemma PairReady(cs: seq<Class>, d: Data, accounts: seq<Account>, fullness: map<nat, nat>, pages: int, iso: set<nat>, c: nat, src: nat, dst: nat)
    requires PoolOk(cs, d, accounts, fullness, pages, iso) && c < |cs| && src != dst
    requires PartlyFull(cs, d, {}, c, src) && PartlyFull(cs, d, {}, c, dst)
    ensures DataOk(d, cs) && Pair(d, cs, src, dst, cs[c])
  {
    hide DataOk, AccountsOk, Sum, PagesOf;
    Ready(cs, d, accounts, fullness, pages, iso, src);
    Ready(cs, d, accounts, fullness, pages, iso, dst);
  }

  lemma DroppedInuse(cs: seq<Class>, d: Data, zid: nat, c: nat, b: nat)
    requires zid in d.zspages && c == d.zspages[zid].cls
    ensures InuseOf(DropIn(d, zid), b) == if b == c then InuseOf(d, b) - {zid} else InuseOf(d, b)
  {
  }

  /** The zspage of a page frame, and the frame's place in its chain. */
  lemma MigrateReady(cs: seq<Class>, d: Data, accounts: seq<Account>, fullness: map<nat, nat>, pages: int, page: nat)
    requires PoolOk(cs, d, accounts, fullness, pages, {}) && page in d.owner
    ensures d.owner[page] in d.zspages && ZspageOk(d, cs, d.owner[page]) && page in d.zspages[d.owner[page]].pfns
    ensures forall i, j :: 0 <= i < j < |d.zspages[d.owner[page]].pfns| ==> d.zspages[d.owner[page]].pfns[i] != d.zspages[d.owner[page]].pfns[j]
    ensures DataOk(d, cs)
  {
    hide Inv, Good, Shape, AccountsOk, Sum, PagesOf;
    var zid := d.owner[page];
    assert ZspageOk(d, cs, zid);
  }

  lemma ReplaceStep(cs: seq<Class>, d: Data, accounts: seq<Account>, fullness: map<nat, nat>, pages: int, zid: nat, p: nat, newpage: nat)
    requires PoolOk(cs, d, accounts, fullness, pages, {}) && zid in d.zspages && p < |d.zspages[zid].pfns| && newpage !in d.owner
    ensures PoolOk(cs, ReplaceIn(d, zid, p, newpage), accounts, fullness, pages, {})
    ensures DataOk(ReplaceIn(d, zid, p, newpage), cs) && Meaning(ReplaceIn(d, zid, p, newpage), cs) == Meaning(d, cs)
  {
    hide DataOk, AccountOk, Meaning, Good, Sum, PagesOf, Shape;
    ReplaceInOk(d, cs, zid, p, newpage);
    var d' := ReplaceIn(d, zid, p, newpage);
    DataZspages(d, cs);
    DataZspages(d', cs);
    OneZspagePages(d, d', cs, zid);
    forall c | 0 <= c < |cs| ensures InuseOf(d', c) == InuseOf(d, c) {
      OneZspageInuse(d, d', cs, zid, c);
    }
  }
}
