/** The pool object and its operations; each public operation is one atomic step. */
module ZsPool {
  import opened ZsChain
  import opened ZsPage
  import opened ZsInit
  import opened ZsHandles
  import opened ZsData
  import opened ZsAccount
  import opened ZsPoolInv
  import opened ZsClasses
  import opened ZsMigrate
  import opened ZsCompact
  import opened ZsPageMigrate

  datatype MallocResult = Handle(h: int) | Einval | Enospc | Enomem

  function WordClasses(table: seq<SizeClass>): (cs: seq<Class>)
    ensures |cs| == |table|
    ensures forall i :: 0 <= i < |table| ==> cs[i] == ToWords(table[i])
  {
    seq(|table|, i requires 0 <= i < |table| => ToWords(table[i]))
  }

  ghost predicate TableOk(table: seq<SizeClass>, n: nat) {
    |table| == 255 && 1 <= n <= 16 && forall i :: 0 <= i < 255 ==> EntryOk(table, n, i)
  }

  lemma TableClasses(table: seq<SizeClass>, n: nat)
    requires TableOk(table, n)
    ensures ClassesOk(WordClasses(table))
  {
    forall i | 0 <= i < 255 ensures ClassOk(WordClasses(table)[i]) {
      ToWordsOk(table, n, i);
    }
  }

  /** The words from `at` on overwritten. */
  function Patched(payload: seq<int>, at: nat, words: seq<int>): (r: seq<int>)
    requires at + |words| <= |payload|
    ensures |r| == |payload|
    ensures forall i :: 0 <= i < |r| ==> r[i] == if at <= i < at + |words| then words[i - at] else payload[i]
  {
    payload[..at] + words + payload[at + |words|..]
  }

  class Pool {
    /** CONFIG_ZSMALLOC_CHAIN_SIZE */
    const maxPages: nat
    const table: seq<SizeClass>
    const cs: seq<Class>
    var data: Data
    var accounts: seq<Account>
    var fullness: map<nat, nat>
    var pagesAllocated: int

    /** The pool is in order; the zspages in `iso` are off the fullness lists. */
    ghost predicate Sound(iso: set<nat>)
      reads this
    {
      && TableOk(table, maxPages) && cs == WordClasses(table)
      && PoolOk(cs, data, accounts, fullness, pagesAllocated, iso)
    }

    ghost predicate Valid()
      reads this
    {
      Sound({})
    }

    /** What each live handle's owner reads. */
    ghost function View(): map<int, seq<int>>
      reads this
      requires Valid()
    {
      Meaning(data, cs)
    }

    /** zs_create_pool */
    constructor (n: nat)
      requires 1 <= n <= 16
      ensures Valid() && View() == map[] && pagesAllocated == 0
    {
      hide PoolOk, Meaning, EntryOk, ToWords;
      var t, _ := CreateClasses(n);
      maxPages, table, cs := n, t, WordClasses(t);
      data := Data(map[], map[], map[]);
      accounts := seq(255, _ => Account(seq(12, _ => []), seq(14, _ => 0)));
      fullness := map[];
      pagesAllocated := 0;
      new;
      TableClasses(table, n);
      EmptyOk(cs, accounts);
    }

    /** find_get_zspage: from the fullest group with room down to the empty zspages. */
    method FindGetZspage(c: nat) returns (found: bool, zid: nat)
      requires Valid() && c < 255
      ensures |cs| == 255 && cs[c].objs > 0
      ensures found ==> Candidate(cs, data, {}, c, zid)
      ensures found ==> forall z :: Candidate(cs, data, {}, c, z) ==>
                          Group(cs[c].objs, data.zspages[z].inuse) <= Group(cs[c].objs, data.zspages[zid].inuse)
      ensures !found ==> forall z :: !Candidate(cs, data, {}, c, z)
    {
      hide DataOk, AccountOk, Group;
      found, zid := false, 0;
      var i := 10;
      ListMeans(cs, data, accounts, fullness, {}, c, 10, 0);
      forall z: nat ensures Candidate(cs, data, {}, c, z) ==> Group(cs[c].objs, data.zspages[z].inuse) <= 10 {
        ListMeans(cs, data, accounts, fullness, {}, c, 10, z);
      }
      while i >= 0 && !found
        invariant -1 <= i <= 10
        invariant !found ==> forall z :: Candidate(cs, data, {}, c, z) ==> Group(cs[c].objs, data.zspages[z].inuse) <= i
        invariant found ==> Candidate(cs, data, {}, c, zid) && Group(cs[c].objs, data.zspages[zid].inuse) == i
        invariant found ==> forall z :: Candidate(cs, data, {}, c, z) ==> Group(cs[c].objs, data.zspages[z].inuse) <= i
        decreases i + 1, !found
      {
        forall z: nat
          ensures z in accounts[c].lists[i] <==> Candidate(cs, data, {}, c, z) && Group(cs[c].objs, data.zspages[z].inuse) == i
        {
          ListMeans(cs, data, accounts, fullness, {}, c, i, z);
        }
        var list := accounts[c].lists[i];
        if list != [] {
          found, zid := true, list[0];
          assert zid in list;
        } else {
          i := i - 1;
        }
      }
    }

    /** alloc_zspage: a chain on the frames that alloc_page gave, threaded by init_zspage. */
    method AllocZspage(c: nat, frames: seq<nat>, junk: Chain) returns (z: Zspage)
      requires ClassesOk(cs) && c < |cs| && cs[c].pages <= |frames| && cs[c].pages <= |junk| && Wf(junk)
      ensures z.cls == c && z.inuse == 0 && z.pfns == frames[..cs[c].pages]
      ensures Shape(z, cs[c]) && Good(z, cs[c])
      ensures forall i :: 0 <= i < cs[c].objs ==> Header(z, cs[c], i) % 2 == 0
    {
      var g := cs[c];
      var pages, firstOff := InitZspage(junk[..g.pages], g);
      z := Zspage(frames[..g.pages], pages, firstOff, 0, 0, 0, c);
      FreshGood(z, g);
    }

    /** The fast path of zs_malloc: an object of a zspage that has one free. */
    method MallocFrom(c: nat, zid: nat, h: int)
      requires Valid() && IsHandle(h) && h !in data.handles
      requires zid in data.zspages && data.zspages[zid].cls == c < |cs| && data.zspages[zid].inuse < cs[c].objs
      modifies this`data, this`accounts, this`fullness
      ensures Valid() && View().Keys == old(View()).Keys + {h} && View() - {h} == old(View())
      ensures |View()[h]| == PayloadSize(cs[c]) && data.zspages.Keys == old(data.zspages.Keys)
    {
      hide PoolOk, DataOk, AccountsOk, Meaning, Good, Shape, Group, Payload;
      Ready(cs, data, accounts, fullness, pagesAllocated, {}, zid);
      var d' := MallocIn(data, cs, zid, h);
      var group := Group(cs[c].objs, d'.zspages[zid].inuse);
      MallocStep(cs, data, accounts, fullness, pagesAllocated, zid, h, c, d', group);
      accounts := Recount(accounts, c, zid, fullness, group, 1);
      data, fullness := d', fullness[zid := group];
    }

    /** The slow path of zs_malloc: a new zspage. */
    method MallocNew(c: nat, zid: nat, frames: seq<nat>, junk: Chain, h: int)
      requires Valid() && IsHandle(h) && h !in data.handles && c < |cs| && zid !in data.zspages
      requires cs[c].pages <= |frames| && cs[c].pages <= |junk| && Wf(junk)
      requires forall p :: p in frames ==> p !in data.owner
      requires forall p, q :: 0 <= p < q < |frames| ==> frames[p] != frames[q]
      modifies this`data, this`accounts, this`fullness, this`pagesAllocated
      ensures Valid() && View().Keys == old(View()).Keys + {h} && View() - {h} == old(View())
      ensures |View()[h]| == PayloadSize(cs[c]) && data.zspages.Keys == old(data.zspages.Keys) + {zid}
    {
      hide DataOk, Meaning, Good, Shape, Header, Group, AccountOk, Sum, PagesOf;
      var z := AllocZspage(c, frames, junk);
      HeadIsObject(z, cs[c]);
      var d1 := AddIn(data, zid, z);
      var d2 := MallocIn(d1, cs, zid, h);
      var group := Group(cs[c].objs, d2.zspages[zid].inuse);
      NewStep(cs, data, accounts, fullness, pagesAllocated, zid, z, h, c, d1, d2, group);
      hide PoolOk;
      accounts := Enlist(accounts, c, zid, group, cs[c].objs, 1);
      data, fullness := d2, fullness[zid := group];
      pagesAllocated := pagesAllocated + cs[c].pages;
    }

    /** The class that serves a request of `size` bytes. */
    ghost function ClassIndex(size: nat): (c: nat)
      reads this
      requires Valid()
      ensures c < |cs|
    {
      assert EntryOk(table, maxPages, SizeClassIndex(size + 8));
      ClassFor(table, size).index
    }

    /** No zspage of the class that serves `size` has an object free. */
    ghost predicate NoRoom(size: nat)
      reads this
      requires Valid()
    {
      forall z :: !Candidate(cs, data, {}, ClassIndex(size), z)
    }

    /**
     zs_malloc.  `h` is what the handle cache gave, 0 if it had none; `canAlloc` says whether a
     new zspage could be had, in which case its pages are the first of `frames`.
     */
    method Malloc(size: nat, h: int, canAlloc: bool, zid: nat, frames: seq<nat>, junk: Chain) returns (r: MallocResult)
      requires Valid() && (h == 0 || (IsHandle(h) && h !in data.handles))
      requires zid !in data.zspages && |frames| >= maxPages && |junk| >= maxPages && Wf(junk)
      requires forall p :: p in frames ==> p !in data.owner
      requires forall p, q :: 0 <= p < q < |frames| ==> frames[p] != frames[q]
      modifies this`data, this`accounts, this`fullness, this`pagesAllocated
      ensures Valid()
      ensures r == Einval <==> size == 0
      ensures r == Enospc <==> size > 4096
      ensures r == Enomem <==> (1 <= size <= 4096 && (h == 0 || (!canAlloc && old(NoRoom(size)))))
      ensures r.Handle? ==> r.h == h && View().Keys == old(View()).Keys + {h} && View() - {h} == old(View())
      ensures r.Handle? ==> size <= 8 * |View()[h]| && |View()[h]| == PayloadSize(cs[ClassIndex(size)])
      ensures r.Handle? ==> data.zspages.Keys == old(data.zspages.Keys) + if old(NoRoom(size)) then {zid} else {}
      ensures !r.Handle? ==> unchanged(this)
    {
      hide PoolOk, DataOk, Meaning, Good, Group, EntryOk;
      if size == 0 { return Einval; }
      if size > 4096 { return Enospc; }
      if h == 0 { return Enomem; }
      RequestRoom(table, maxPages, size);
      var c := table[SizeClassIndex(size + 8)].index;
      var found, z := FindGetZspage(c);
      assert found ==> Candidate(cs, data, {}, ClassIndex(size), z);
      if found {
        MallocFrom(c, z, h);
        return Handle(h);
      }
      if !canAlloc { return Enomem; }
      MallocNew(c, zid, frames, junk, h);
      return Handle(h);
    }

    /** The zspage in which the object of `h` is the only one, if there is one. */
    ghost function Lone(h: int): set<nat>
      reads this
    {
      set z | z in data.zspages && data.zspages[z].inuse == 1 && h in data.handles
              && ObjPfn(data.handles[h]) in data.owner && data.owner[ObjPfn(data.handles[h])] == z
    }

    /** zs_free.  `locked` says whether trylock_zspage got every page lock of the zspage. */
    method Free(h: int, locked: bool)
      requires Valid() && (h <= 0 || h in data.handles)
      modifies this`data, this`accounts, this`fullness, this`pagesAllocated
      ensures Valid() && View() == old(View()) - {h}
      ensures data.zspages.Keys == old(data.zspages.Keys) - if locked && h > 0 then old(Lone(h)) else {}
    {
      hide DataOk, Meaning, Good, Shape, Group, AccountOk, Sum, PagesOf;
      if h <= 0 {
        assert h !in View() by { KeysPositive(cs, data, h); }
        return;
      }
      FreeReady(cs, data, accounts, fullness, pagesAllocated, h);
      var zid := ZidOf(data, h);
      var c := data.zspages[zid].cls;
      var d' := FreeIn(data, cs, h);
      var group := Group(cs[c].objs, d'.zspages[zid].inuse);
      FreeStep(cs, data, accounts, fullness, pagesAllocated, h, zid, c, d', group);
      accounts := Recount(accounts, c, zid, fullness, group, -1);
      data, fullness := d', fullness[zid := group];
      if group == 0 && locked {
        DropStep(cs, data, accounts, fullness, pagesAllocated, {}, zid, c);
        hide PoolOk;
        accounts := Delist(accounts, c, zid, fullness, cs[c].objs);
        data := DropIn(data, zid);
        pagesAllocated := pagesAllocated - cs[c].pages;
      }
    }

    /** zs_map_object and zs_unmap_object for reading. */
    method Load(h: int) returns (payload: seq<int>)
      requires Valid() && h in data.handles
      ensures h in View() && payload == View()[h]
    {
      hide DataOk, Meaning, Good, AccountOk, Sum, PagesOf, Payload;
      FreeReady(cs, data, accounts, fullness, pagesAllocated, h);
      var zid, idx := ZidOf(data, h), IdxOf(data, h);
      var g := ClassOf(data, cs, zid);
      var buf, _ := MapObject(data.zspages[zid].pages, g, idx);
      payload := buf[HeaderSize(g)..];
      MeaningAt(data, cs, h);
      LoadedPayload(data.zspages[zid], g, idx, buf);
    }

    /** zs_map_object in read-write mode, a store of some words through the mapping, zs_unmap_object. */
    method Store(h: int, at: nat, words: seq<int>)
      requires Valid() && h in data.handles && at + |words| <= |View()[h]|
      modifies this`data
      ensures Valid() && View() == old(View())[h := Patched(old(View()[h]), at, words)]
    {
      hide DataOk, Meaning, Good, AccountOk, Sum, PagesOf, Payload, Wrote;
      FreeReady(cs, data, accounts, fullness, pagesAllocated, h);
      var zid, idx := ZidOf(data, h), IdxOf(data, h);
      var g := ClassOf(data, cs, zid);
      MeaningAt(data, cs, h);
      PayloadLength(data.zspages[zid], g, idx);
      var buf, _ := MapObject(data.zspages[zid].pages, g, idx);
      LoadedPayload(data.zspages[zid], g, idx, buf);
      var payload := Patched(buf[HeaderSize(g)..], at, words);
      var pages := UnmapObject(data.zspages[zid].pages, g, idx, payload);
      StoreStep(cs, data, accounts, fullness, pagesAllocated, h, zid, g, payload, pages);
      hide PoolOk;
      data := StoreIn(data, h, pages);
    }

    /** isolate_src_zspage: the first zspage of the least full group. */
    method IsolateSrc(c: nat, ghost iso: set<nat>) returns (found: bool, zid: nat)
      requires Sound(iso) && c < |cs|
      modifies this`accounts
      ensures cs[c].objs > 0
      ensures found ==> PartlyFull(cs, data, iso, c, zid) && Sound(iso + {zid})
      ensures found ==> forall z :: PartlyFull(cs, data, iso, c, z) ==>
                          Group(cs[c].objs, data.zspages[zid].inuse) <= Group(cs[c].objs, data.zspages[z].inuse)
      ensures !found ==> Sound(iso) && forall z :: !PartlyFull(cs, data, iso, c, z)
    {
      hide DataOk, AccountOk, Group, Sum, PagesOf, TableOk;
      found, zid := false, 0;
      forall z: nat ensures cs[c].objs > 0 && |accounts[c].lists| == 12
                    ensures PartlyFull(cs, data, iso, c, z) ==> 1 <= Group(cs[c].objs, data.zspages[z].inuse) <= 10 {
        PartialListed(cs, data, accounts, fullness, iso, c, 1, z);
      }
      PartialListed(cs, data, accounts, fullness, iso, c, 1, 0);
      var fg := 1;
      while fg <= 10
        invariant 1 <= fg <= 11
        invariant forall z :: PartlyFull(cs, data, iso, c, z) ==> Group(cs[c].objs, data.zspages[z].inuse) >= fg
      {
        forall z: nat
          ensures z in accounts[c].lists[fg] ==> PartlyFull(cs, data, iso, c, z)
          ensures z in accounts[c].lists[fg] <==> Candidate(cs, data, iso, c, z) && Group(cs[c].objs, data.zspages[z].inuse) == fg
        {
          PartialListed(cs, data, accounts, fullness, iso, c, fg, z);
        }
        var list := accounts[c].lists[fg];
        if list != [] {
          found, zid := true, list[0];
          assert zid in list;
          CountIsolated(cs, data, accounts, fullness, iso, zid, c);
          accounts := accounts[c := Remove(accounts[c], zid, FullnessOf(fullness, zid))];
          return;
        }
        fg := fg + 1;
      }
    }

    /** isolate_dst_zspage: the first zspage of the fullest group that has room. */
    method IsolateDst(c: nat, ghost iso: set<nat>) returns (found: bool, zid: nat)
      requires Sound(iso) && c < |cs|
      modifies this`accounts
      ensures cs[c].objs > 0
      ensures found ==> PartlyFull(cs, data, iso, c, zid) && Sound(iso + {zid})
      ensures found ==> forall z :: PartlyFull(cs, data, iso, c, z) ==>
                          Group(cs[c].objs, data.zspages[zid].inuse) >= Group(cs[c].objs, data.zspages[z].inuse)
      ensures !found ==> Sound(iso) && forall z :: !PartlyFull(cs, data, iso, c, z)
    {
      hide DataOk, AccountOk, Group, Sum, PagesOf, TableOk;
      found, zid := false, 0;
      forall z: nat ensures cs[c].objs > 0 && |accounts[c].lists| == 12
                    ensures PartlyFull(cs, data, iso, c, z) ==> 1 <= Group(cs[c].objs, data.zspages[z].inuse) <= 10 {
        PartialListed(cs, data, accounts, fullness, iso, c, 1, z);
      }
      PartialListed(cs, data, accounts, fullness, iso, c, 1, 0);
      var fg := 10;
      while fg >= 1
        invariant 0 <= fg <= 10
        invariant forall z :: PartlyFull(cs, data, iso, c, z) ==> Group(cs[c].objs, data.zspages[z].inuse) <= fg
      {
        forall z: nat
          ensures z in accounts[c].lists[fg] ==> PartlyFull(cs, data, iso, c, z)
          ensures z in accounts[c].lists[fg] <==> Candidate(cs, data, iso, c, z) && Group(cs[c].objs, data.zspages[z].inuse) == fg
        {
          PartialListed(cs, data, accounts, fullness, iso, c, fg, z);
        }
        var list := accounts[c].lists[fg];
        if list != [] {
          found, zid := true, list[0];
          assert zid in list;
          CountIsolated(cs, data, accounts, fullness, iso, zid, c);
          accounts := accounts[c := Remove(accounts[c], zid, FullnessOf(fullness, zid))];
          return;
        }
        fg := fg - 1;
      }
    }

    /** putback_zspage */
    method Putback(c: nat, zid: nat, ghost iso: set<nat>) returns (group: nat)
      requires zid in iso && zid in data.zspages && c == data.zspages[zid].cls < |cs| && Sound(iso)
      modifies this`accounts, this`fullness
      ensures Sound(iso - {zid})
      ensures group == 0 <==> data.zspages[zid].inuse == 0
      ensures group == 11 <==> data.zspages[zid].inuse == cs[c].objs
    {
      hide DataOk, AccountOk, Group, Sum, PagesOf, TableOk;
      Ready(cs, data, accounts, fullness, pagesAllocated, iso, zid);
      GroupPartial(cs[c].objs, data.zspages[zid].inuse);
      group := Group(cs[c].objs, data.zspages[zid].inuse);
      CountPutback(cs, data, accounts, fullness, iso, zid, c, group);
      accounts := accounts[c := Insert(accounts[c], zid, group)];
      fullness := fullness[zid := group];
    }

    /** No zspage of class `c` is empty, and at least a zspage's worth of objects is free. */
    ghost predicate Compactable(c: nat)
      reads this
      requires c < |cs|
    {
      NoneEmpty(InuseOf(data, c), cs[c].objs) && Worthwhile(InuseOf(data, c), cs[c].objs)
    }

    /**
     Class `c` lost a partly full zspage, kept its objects, and no other class changed.  It got
     no empty zspage if the page locks could be had.
     */
    twostate predicate Progress(c: nat, locked: bool)
      reads this
      requires c < |cs|
    {
      && Partial(InuseOf(data, c), cs[c].objs) < old(Partial(InuseOf(data, c), cs[c].objs))
      && (locked && old(NoneEmpty(InuseOf(data, c), cs[c].objs)) ==> NoneEmpty(InuseOf(data, c), cs[c].objs))
      && Sum(InuseOf(data, c)) == old(Sum(InuseOf(data, c)))
      && forall b :: b != c ==> InuseOf(data, b) == old(InuseOf(data, b))
    }

    /** free_zspage of an empty zspage whose pages are all locked. */
    method FreeZspage(c: nat, zid: nat, ghost iso: set<nat>)
      requires Sound(iso) && zid !in iso && zid in data.zspages && c == data.zspages[zid].cls < |cs| && data.zspages[zid].inuse == 0
      modifies this`data, this`accounts, this`pagesAllocated
      ensures Sound(iso) && Meaning(data, cs) == old(Meaning(data, cs))
      ensures data == old(DropIn(data, zid)) && pagesAllocated == old(pagesAllocated) - cs[c].pages
      ensures forall b :: InuseOf(data, b) == if b == c then old(InuseOf(data, b)) - {zid} else old(InuseOf(data, b))
    {
      hide DataOk, AccountOk, Meaning, Sum, PagesOf, TableOk, InuseOf;
      DropStep(cs, data, accounts, fullness, pagesAllocated, iso, zid, c);
      forall b: nat ensures InuseOf(DropIn(data, zid), b) == if b == c then InuseOf(data, b) - {zid} else InuseOf(data, b) {
        DroppedInuse(cs, data, zid, c, b);
      }
      hide PoolOk;
      accounts := Delist(accounts, c, zid, fullness, cs[c].objs);
      data := DropIn(data, zid);
      pagesAllocated := pagesAllocated - cs[c].pages;
    }

    /**
     A round of __zs_compact with destination and source isolated: migrate, put the source back,
     and free it if that emptied it and trylock_zspage got its page locks.  The pages count as
     freed whether it did or not; `missed` says that it did not.
     */
    method CompactRound(c: nat, src: nat, dst: nat, locked: bool) returns (freed: nat, ghost missed: bool)
      requires c < |cs| && Sound({dst, src}) && src != dst
      requires PartlyFull(cs, data, {}, c, src) && PartlyFull(cs, data, {}, c, dst)
      modifies this`data, this`accounts, this`fullness, this`pagesAllocated
      ensures Sound({dst}) && Meaning(data, cs) == old(Meaning(data, cs)) && Progress(c, locked)
      ensures dst in data.zspages && data.zspages[dst].cls == c && data.zspages[dst].inuse > 0
      ensures freed in {0, cs[c].pages} && (missed <==> !locked && src in data.zspages && data.zspages[src].inuse == 0)
      ensures pagesAllocated == old(pagesAllocated) - freed + if missed then cs[c].pages else 0
    {
      hide DataOk, AccountOk, AccountsOk, Meaning, Sum, PagesOf, TableOk, Group, Good, Shape, InuseOf, PoolOk, NoneEmpty, Partial;
      ghost var m := InuseOf(data, c);
      var g := cs[c];
      assert {dst, src} - {src} == {dst};
      PairReady(cs, data, accounts, fullness, pagesAllocated, {dst, src}, c, src, dst);
      var d' := MigrateZspage(data, cs, src, dst, g);
      MovedStep(cs, data, d', accounts, fullness, pagesAllocated, {dst, src}, src, dst, g, c);
      InuseBounded(d', cs, src);
      InuseBounded(d', cs, dst);
      ghost var s, t := d'.zspages[src].inuse, d'.zspages[dst].inuse;
      data := d';
      var group := Putback(c, src, {dst, src});
      freed, missed := 0, false;
      if group == 0 {
        if locked { FreeZspage(c, src, {dst}); }
        freed, missed := g.pages, !locked;
      }
      RoundEnd(m, InuseOf(data, c), g.objs, src, dst, s, t, locked);
    }

    /** Between the rounds of __zs_compact: perhaps a destination is isolated, and it is partly full. */
    ghost predicate Compacting(c: nat, isolated: bool, dst: nat)
      reads this
      requires c < |cs|
    {
      && Sound(if isolated then {dst} else {}) && DataOk(data, cs)
      && (isolated ==> PartlyFull(cs, data, {}, c, dst))
    }

    /** The loop guard of __zs_compact says what it should. */
    lemma GuardMeans(c: nat, isolated: bool, dst: nat)
      requires c < |cs| && Compacting(c, isolated, dst)
      ensures ClassOk(cs[c]) && |accounts| == |cs| && |accounts[c].stats| == 14
      ensures CanCompact(accounts[c], cs[c].objs, cs[c].pages) != 0 <==> Worthwhile(InuseOf(data, c), cs[c].objs)
    {
      hide DataOk, AccountsOk, Sum, PagesOf, TableOk, InuseOf, PoolOk, CanCompact, Worthwhile;
      ClassTotals(cs, data, accounts, fullness, pagesAllocated, if isolated then {dst} else {}, c);
      CanCompactIff(accounts[c], cs[c].objs, cs[c].pages, InuseOf(data, c));
    }

    /** The break for want of a destination or a source, and why it needs an empty zspage. */
    lemma BreakMeans(c: nat, dst: nat)
      requires c < |cs| && cs[c].objs > 0
      requires forall z :: PartlyFull(cs, data, {}, c, z) ==> z == dst
      ensures !Compactable(c) && Partial(InuseOf(data, c), cs[c].objs) <= {dst}
    {
      hide Sum, Worthwhile;
      forall z ensures !PartlyFull(cs, data, {dst}, c, z) {
        assert PartlyFull(cs, data, {}, c, z) ==> z == dst;
      }
      if Compactable(c) { SourceExists(cs, data, {dst}, c, dst); }
      forall z | z in Partial(InuseOf(data, c), cs[c].objs) ensures z == dst {
        assert PartlyFull(cs, data, {}, c, z);
      }
    }

    /** One iteration of __zs_compact; `stop` says that it took one of the breaks. */
    method CompactStep(c: nat, isolated0: bool, dst0: nat, quiet: bool) returns (stop: bool, isolated: bool, dst: nat, freed: nat, ghost missed: bool)
      requires c < |cs| && Compacting(c, isolated0, dst0)
      modifies this`data, this`accounts, this`fullness, this`pagesAllocated
      ensures Compacting(c, isolated, dst) && Meaning(data, cs) == old(Meaning(data, cs))
      ensures stop ==> data == old(data) && Partial(InuseOf(data, c), cs[c].objs) <= {dst} && !Compactable(c)
      ensures !stop ==> Progress(c, quiet)
      ensures pagesAllocated == old(pagesAllocated) - freed + (if missed then cs[c].pages else 0) && (quiet ==> !missed)
    {
      hide DataOk, AccountsOk, Meaning, Sum, PagesOf, TableOk, Group, InuseOf, PoolOk, NoneEmpty, Partial, Worthwhile;
      stop, isolated, dst, freed, missed := true, isolated0, dst0, 0, false;
      if !isolated {
        isolated, dst := IsolateDst(c, {});
        if !isolated { BreakMeans(c, dst); return; }
        assert {} + {dst} == {dst};
      }
      var found, src := IsolateSrc(c, {dst});
      if !found { OnlyDst(c, dst); BreakMeans(c, dst); return; }
      stop := false;
      assert {dst} + {src} == {dst, src};
      var locked: bool := *;
      locked := locked || quiet;
      freed, missed := CompactRound(c, src, dst, locked);
      PoolData(cs, data, accounts, fullness, pagesAllocated, {dst});
      Ready(cs, data, accounts, fullness, pagesAllocated, {dst}, dst);
      var contended: bool := *;
      if data.zspages[dst].inuse == cs[c].objs || contended {
        var _ := Putback(c, dst, {dst});
        isolated := false;
        assert {dst} - {dst} == {};
      }
    }

    lemma OnlyDst(c: nat, dst: nat)
      requires c < |cs| && forall z :: !PartlyFull(cs, data, {dst}, c, z)
      ensures forall z :: PartlyFull(cs, data, {}, c, z) ==> z == dst
    {
      forall z | PartlyFull(cs, data, {}, c, z) ensures z == dst {
        assert !PartlyFull(cs, data, {dst}, c, z);
      }
    }

    /** The pages of emptied zspages that were kept. */
    static ghost function Kept(missed: nat, pages: nat): nat {
      missed * pages
    }

    static lemma KeptIs(missed: nat, pages: nat)
      ensures Kept(0, pages) == 0 && Kept(missed + 1, pages) == Kept(missed, pages) + pages
    {
    }

    /** What compaction has done to class `c`: its objects are in as few zspages as can be, and no other class changed. */
    twostate predicate Compacted(c: nat, quiet: bool)
      reads this
      requires c < |cs|
    {
      && (!Worthwhile(InuseOf(data, c), cs[c].objs) || |Partial(InuseOf(data, c), cs[c].objs)| <= 1)
      && (quiet && old(NoneEmpty(InuseOf(data, c), cs[c].objs)) ==>
            NoneEmpty(InuseOf(data, c), cs[c].objs) && FewestZspages(InuseOf(data, c), cs[c].objs))
      && Sum(InuseOf(data, c)) == old(Sum(InuseOf(data, c)))
      && forall b :: b != c ==> InuseOf(data, b) == old(InuseOf(data, b))
    }

    /**
     __zs_compact.  Whether the migrate lock is contended after a round is arbitrary, and so is
     whether the locks of an emptied zspage can be had, unless `quiet`.  It ends with less than
     a zspage's worth of objects free or with at most one zspage partly full.  A class that starts
     with no empty zspage ends with the fewest zspages that can hold its objects.  The pages it reports are the pages freed
     exactly when the locks of every emptied zspage were had; `missed` counts those whose were not.
     */
    method Compact(c: nat, quiet: bool) returns (freed: nat, ghost missed: nat)
      requires c < |cs| && Valid()
      modifies this`data, this`accounts, this`fullness, this`pagesAllocated
      ensures Valid() && View() == old(View())
      ensures Compacted(c, quiet)
      ensures pagesAllocated == old(pagesAllocated) - freed + Kept(missed, cs[c].pages) && (quiet ==> missed == 0)
      ensures freed == old(pagesAllocated) - pagesAllocated <==> missed == 0
    {
      hide DataOk, AccountsOk, Meaning, Sum, PagesOf, TableOk, Group, InuseOf, PoolOk, NoneEmpty, Partial, CanCompact, FewestZspages, Worthwhile, Kept;
      PoolData(cs, data, accounts, fullness, pagesAllocated, {});
      var stop, isolated, dst := false, false, 0;
      freed, missed := 0, 0;
      GuardMeans(c, isolated, dst);
      KeptIs(0, cs[c].pages);
      while CanCompact(accounts[c], cs[c].objs, cs[c].pages) != 0
        invariant Compacting(c, isolated, dst) && |accounts| == |cs| && |accounts[c].stats| == 14 && cs[c].objs > 0
        invariant CanCompact(accounts[c], cs[c].objs, cs[c].pages) != 0 <==> Worthwhile(InuseOf(data, c), cs[c].objs)
        invariant Meaning(data, cs) == old(Meaning(data, cs))
        invariant pagesAllocated == old(pagesAllocated) - freed + Kept(missed, cs[c].pages) && (quiet ==> missed == 0)
        invariant Kept(missed, cs[c].pages) == 0 <==> missed == 0
        invariant quiet && old(NoneEmpty(InuseOf(data, c), cs[c].objs)) ==> NoneEmpty(InuseOf(data, c), cs[c].objs)
        invariant Sum(InuseOf(data, c)) == old(Sum(InuseOf(data, c)))
        invariant forall b :: b != c ==> InuseOf(data, b) == old(InuseOf(data, b))
        invariant !stop
        decreases Partial(InuseOf(data, c), cs[c].objs)
      {
        var n;
        ghost var miss;
        stop, isolated, dst, n, miss := CompactStep(c, isolated, dst, quiet);
        KeptIs(missed, cs[c].pages);
        freed, missed := freed + n, if miss then missed + 1 else missed;
        if stop { break; }
        GuardMeans(c, isolated, dst);
      }
      if stop { AtMostOne(Partial(InuseOf(data, c), cs[c].objs), dst); }
      if !stop && NoneEmpty(InuseOf(data, c), cs[c].objs) { StopsAtFewest(InuseOf(data, c), cs[c].objs); }
      if isolated {
        var _ := Putback(c, dst, {dst});
        assert {dst} - {dst} == {};
      }
    }

    /** zs_page_migrate: frame `newpage`, which holds `junk`, takes over from frame `page`. */
    method PageMigrate(page: nat, newpage: nat, junk: seq<int>)
      requires Valid() && page in data.owner && newpage !in data.owner
      modifies this`data
      ensures Valid() && View() == old(View())
      ensures data.owner.Keys == old(data.owner.Keys) - {page} + {newpage}
    {
      hide DataOk, Meaning, Good, AccountsOk, Sum, PagesOf, TableOk, FramesOf;
      MigrateReady(cs, data, accounts, fullness, pagesAllocated, page);
      var zid := data.owner[page];
      var z := data.zspages[zid];
      NewFrame(cs, data, zid, newpage);
      FramesHold(z.pfns, z.pages);
      var frames := FramesOf(z.pfns, z.pages)[newpage := junk];
      frames := frames[newpage := frames[page]];
      var pfns, p := ReplaceSubPage(z.pfns, page, newpage);
      ghost var first := FirstExists(z, ClassOf(data, cs, zid), p);
      var hs := RecordObjects(data, cs, zid, p, page, newpage, first);
      assert frames == FramesOf(z.pfns, z.pages)[newpage := FramesOf(z.pfns, z.pages)[page]];
      CopiedChain(z.pfns, z.pages, p, newpage, frames, pfns);
      ReplaceStep(cs, data, accounts, fullness, pagesAllocated, zid, p, newpage);
      data := Data(data.zspages[zid := z.(pfns := pfns, pages := ChainOf(pfns, frames))], (data.owner - {page})[newpage := zid], hs);
    }
  }

  /** A frame without an owner is in no chain. */
  lemma NewFrame(cs: seq<Class>, d: Data, zid: nat, newpage: nat)
    requires DataOk(d, cs) && zid in d.zspages && newpage !in d.owner
    ensures newpage !in d.zspages[zid].pfns
  {
    hide Inv, Good, Shape, ZspageOk;
  }

  lemma PayloadLength(z: Zspage, g: Class, i: nat)
    requires Shape(z, g) && i < g.objs
    ensures |Payload(z, g, i)| == PayloadSize(g)
  {
  }

  lemma LoadedPayload(z: Zspage, g: Class, i: nat, buf: seq<int>)
    requires Shape(z, g) && i < g.objs && Start(g, i) + g.size <= |z.pages| * 512 && buf == Read(z.pages, Start(g, i), g.size)
    ensures |buf| >= HeaderSize(g) && buf[HeaderSize(g)..] == Payload(z, g, i)
  {
  }

  lemma RequestRoom(table: seq<SizeClass>, n: nat, size: nat)
    requires TableOk(table, n) && 1 <= size <= 4096
    ensures var c := table[SizeClassIndex(size + 8)].index;
      && c < 255 && c == ClassFor(table, size).index
      && size <= 8 * PayloadSize(WordClasses(table)[c]) && WordClasses(table)[c].pages <= n
  {
    RequestFits(table, n, size);
    var i := SizeClassIndex(size + 8);
    EntryFacts(table, n, i);
    hide TableOk, EntryOk, SizeClassIndex;
  }

  lemma EntryFacts(table: seq<SizeClass>, n: nat, i: nat)
    requires TableOk(table, n) && i < 255
    ensures table[i].index < 255 && table[table[i].index] == table[i]
    ensures table[i].pages <= n && table[i].size >= 32 && table[i].size % 16 == 0
  {
    assert EntryOk(table, n, i);
  }

  lemma EmptyOk(cs: seq<Class>, accounts: seq<Account>)
    requires ClassesOk(cs) && |accounts| == |cs|
    requires forall c :: 0 <= c < |cs| ==> accounts[c].lists == seq(12, _ => []) && accounts[c].stats == seq(14, _ => 0)
    ensures PoolOk(cs, Data(map[], map[], map[]), accounts, map[], 0, {}) && DataOk(Data(map[], map[], map[]), cs)
    ensures Meaning(Data(map[], map[], map[]), cs) == map[]
  {
    hide Good, Shape, Header, Payload;
  }
}
