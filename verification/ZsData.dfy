/**
 The pool's data: the zspages, page_private of their pages, and what each handle records.
 Each operation on it is one of the handle-table transitions of ZsHandles.
 */
module ZsData {
  import opened ZsChain
  import opened ZsPage
  import opened ZsHandles

  datatype Data = Data(zspages: map<nat, Zspage>, owner: map<nat, nat>, handles: map<int, nat>)

  ghost predicate ClassesOk(cs: seq<Class>) {
    forall k :: 0 <= k < |cs| ==> ClassOk(cs[k])
  }

  ghost predicate ZspageOk(d: Data, cs: seq<Class>, zid: nat) {
    && zid in d.zspages
    && d.zspages[zid].cls < |cs|
    && Shape(d.zspages[zid], cs[d.zspages[zid].cls])
    && Good(d.zspages[zid], cs[d.zspages[zid].cls])
  }

  ghost predicate ZspagesOk(d: Data, cs: seq<Class>) {
    forall zid :: zid in d.zspages ==> ZspageOk(d, cs, zid)
  }

  function ClassOf(d: Data, cs: seq<Class>, zid: nat): Class
    requires zid in d.zspages && d.zspages[zid].cls < |cs|
  {
    cs[d.zspages[zid].cls]
  }

  /** The page frame on which object `i` starts. */
  function ObjPage(z: Zspage, g: Class, i: nat): nat
    requires Shape(z, g) && i < g.objs
  {
    StartRoom(g, i);
    z.pfns[Start(g, i) / 512]
  }

  ghost function SlotOf(z: Zspage, g: Class, i: nat): Slot
    requires Shape(z, g) && i < g.objs
  {
    Slot(Header(z, g, i), Payload(z, g, i), ObjPage(z, g, i))
  }

  ghost predicate IsKey(d: Data, cs: seq<Class>, k: Key)
    requires ZspagesOk(d, cs)
  {
    k.zid in d.zspages && ZspageOk(d, cs, k.zid) && k.idx < ClassOf(d, cs, k.zid).objs
  }

  ghost function SlotAt(d: Data, cs: seq<Class>, k: Key): Slot
    requires ZspagesOk(d, cs) && IsKey(d, cs, k)
  {
    SlotOf(d.zspages[k.zid], ClassOf(d, cs, k.zid), k.idx)
  }

  ghost function Slots(d: Data, cs: seq<Class>): (m: map<Key, Slot>)
    requires ZspagesOk(d, cs)
    ensures forall k :: k in m <==> IsKey(d, cs, k)
    ensures forall k :: k in m ==> IsKey(d, cs, k) && m[k] == SlotAt(d, cs, k)
  {
    map zid: nat, i: nat | zid in d.zspages && ZspageOk(d, cs, zid) && i < ClassOf(d, cs, zid).objs
      :: Key(zid, i) := SlotOf(d.zspages[zid], ClassOf(d, cs, zid), i)
  }

  ghost function TableOf(d: Data, cs: seq<Class>): Table
    requires ZspagesOk(d, cs)
  {
    Table(Slots(d, cs), d.owner, d.handles)
  }

  /** Page frames and zspages refer to each other, so no frame is in two places. */
  ghost predicate OwnerOk(d: Data) {
    && (forall zid :: zid in d.zspages ==> PagesOwned(d, zid))
    && (forall pfn :: pfn in d.owner ==> d.owner[pfn] in d.zspages && pfn in d.zspages[d.owner[pfn]].pfns)
  }

  /** The pages of a zspage are distinct and belong to it. */
  ghost predicate PagesOwned(d: Data, zid: nat)
    requires zid in d.zspages
  {
    var pfns := d.zspages[zid].pfns;
    && (forall p :: 0 <= p < |pfns| ==> pfns[p] in d.owner && d.owner[pfns[p]] == zid)
    && (forall p, q :: 0 <= p < q < |pfns| ==> pfns[p] != pfns[q])
  }

  ghost predicate DataOk(d: Data, cs: seq<Class>) {
    ZspagesOk(d, cs) && OwnerOk(d) && Inv(TableOf(d, cs))
  }

  /** What each live handle's owner reads. */
  ghost function Meaning(d: Data, cs: seq<Class>): map<int, seq<int>>
    requires DataOk(d, cs)
  {
    Abs(TableOf(d, cs))
  }

  /** `d'` differs from `d` in object `i` of `zid` only, and possibly in the handles. */
  ghost predicate Touched(d: Data, d': Data, cs: seq<Class>, zid: nat, i: nat) {
    && ZspageOk(d, cs, zid) && i < ClassOf(d, cs, zid).objs
    && d'.owner == d.owner && zid in d'.zspages
    && d'.zspages == d.zspages[zid := d'.zspages[zid]]
    && Shape(d'.zspages[zid], ClassOf(d, cs, zid))
    && Good(d'.zspages[zid], ClassOf(d, cs, zid))
    && OnlyObject(d.zspages[zid], d'.zspages[zid], ClassOf(d, cs, zid), i)
  }

  lemma TouchedOk(d: Data, d': Data, cs: seq<Class>, zid: nat, i: nat)
    requires ZspagesOk(d, cs) && Touched(d, d', cs, zid, i)
    ensures ZspagesOk(d', cs)
    ensures forall y :: y in d'.zspages <==> y in d.zspages
    ensures forall y :: y in d'.zspages ==> d'.zspages[y].pfns == d.zspages[y].pfns && ClassOf(d', cs, y) == ClassOf(d, cs, y)
  {
    forall y | y in d'.zspages ensures ZspageOk(d', cs, y) {
      assert ZspageOk(d, cs, y);
    }
  }

  lemma SamePagesOwner(d: Data, d': Data)
    requires OwnerOk(d) && d'.owner == d.owner
    requires forall y :: y in d'.zspages <==> y in d.zspages
    requires forall y :: y in d'.zspages ==> d'.zspages[y].pfns == d.zspages[y].pfns
    ensures OwnerOk(d')
  {
  }

  lemma TouchedSlot(d: Data, d': Data, cs: seq<Class>, zid: nat, i: nat, k: Key)
    requires ZspagesOk(d, cs) && Touched(d, d', cs, zid, i) && ZspagesOk(d', cs)
    ensures IsKey(d', cs, k) <==> IsKey(d, cs, k)
    ensures IsKey(d, cs, k) ==>
      SlotAt(d', cs, k) == if k == Key(zid, i) then SlotOf(d'.zspages[zid], ClassOf(d, cs, zid), i) else SlotAt(d, cs, k)
  {
    TouchedOk(d, d', cs, zid, i);
    hide Good, Shape, Header, Payload;
    if IsKey(d, cs, k) && k.zid == zid && k.idx != i {
      assert SameObject(d.zspages[zid], d'.zspages[zid], ClassOf(d, cs, zid), k.idx);
    }
  }

  lemma TouchedSlots(d: Data, d': Data, cs: seq<Class>, zid: nat, i: nat)
    requires ZspagesOk(d, cs) && Touched(d, d', cs, zid, i) && ZspagesOk(d', cs)
    ensures Slots(d', cs) == Slots(d, cs)[Key(zid, i) := SlotOf(d'.zspages[zid], ClassOf(d, cs, zid), i)]
  {
    hide Good, Shape, OnlyObject, SlotOf;
    var m, m' := Slots(d, cs), Slots(d', cs);
    var changed := SlotOf(d'.zspages[zid], ClassOf(d, cs, zid), i);
    assert Key(zid, i) in m;
    forall k ensures k in m' <==> k in m
    {
      TouchedSlot(d, d', cs, zid, i, k);
    }
    forall k | k in m ensures m'[k] == if k == Key(zid, i) then changed else m[k]
    {
      TouchedSlot(d, d', cs, zid, i, k);
    }
    hide *;
    assert m' == m[Key(zid, i) := changed];
  }

  lemma TouchedTable(d: Data, d': Data, cs: seq<Class>, zid: nat, i: nat)
    requires DataOk(d, cs) && Touched(d, d', cs, zid, i)
    ensures ZspagesOk(d', cs) && OwnerOk(d')
    ensures IsKey(d, cs, Key(zid, i))
    ensures Slots(d', cs) == Slots(d, cs)[Key(zid, i) := SlotOf(d'.zspages[zid], ClassOf(d, cs, zid), i)]
    ensures ObjPage(d'.zspages[zid], ClassOf(d, cs, zid), i) == ObjPage(d.zspages[zid], ClassOf(d, cs, zid), i)
  {
    TouchedOk(d, d', cs, zid, i);
    SamePagesOwner(d, d');
    TouchedSlots(d, d', cs, zid, i);
  }

  /** The object a handle leads to is tagged with that handle. */
  lemma Lookup(d: Data, cs: seq<Class>, h: int)
    requires DataOk(d, cs) && h in d.handles
    ensures IsHandle(h) && ObjPfn(d.handles[h]) in d.owner
    ensures var k := Where(TableOf(d, cs), h); IsKey(d, cs, k) && SlotAt(d, cs, k).header == h + 1
  {
    assert HandleOk(TableOf(d, cs), h);
  }

  /** obj_malloc in zspage `zid`: the head of its free list now belongs to `h`. */
  function MallocIn(d: Data, cs: seq<Class>, zid: nat, h: int): Data
    requires ZspageOk(d, cs, zid) && d.zspages[zid].freeobj < ClassOf(d, cs, zid).objs
  {
    var z, g := d.zspages[zid], ClassOf(d, cs, zid);
    Data(d.zspages[zid := ObjMalloc(z, g, h)], d.owner, d.handles[h := LocationToObj(ObjPage(z, g, z.freeobj), z.freeobj)])
  }

  /** Tagging an untagged object for a new handle adds that handle and changes no other. */
  lemma AddAt(d: Data, d': Data, cs: seq<Class>, zid: nat, i: nat, h: int)
    requires DataOk(d, cs) && Touched(d, d', cs, zid, i) && IsHandle(h) && h !in d.handles
    requires Header(d.zspages[zid], ClassOf(d, cs, zid), i) % 2 == 0
    requires Header(d'.zspages[zid], ClassOf(d, cs, zid), i) == h + 1
    requires d'.handles == d.handles[h := LocationToObj(ObjPage(d.zspages[zid], ClassOf(d, cs, zid), i), i)]
    ensures DataOk(d', cs)
    ensures Meaning(d', cs) == Meaning(d, cs)[h := Payload(d'.zspages[zid], ClassOf(d, cs, zid), i)]
  {
    hide Good, OnlyObject, Shape, Payload, Header, ObjPage, Slots, OwnerOk, SlotOk, HandleOk, Abs;
    TouchedTable(d, d', cs, zid, i);
    var g := ClassOf(d, cs, zid);
    var t := AddHandle(TableOf(d, cs), Key(zid, i), h, Payload(d'.zspages[zid], g, i));
    assert TableOf(d', cs) == t;
  }

  lemma MallocInOk(d: Data, cs: seq<Class>, zid: nat, h: int)
    requires DataOk(d, cs) && zid in d.zspages && ZspageOk(d, cs, zid)
    requires d.zspages[zid].inuse < ClassOf(d, cs, zid).objs && IsHandle(h) && h !in d.handles
    ensures d.zspages[zid].freeobj < ClassOf(d, cs, zid).objs
    ensures var d' := MallocIn(d, cs, zid, h);
            && DataOk(d', cs) && ZspageOk(d', cs, zid)
            && d'.zspages[zid].inuse == d.zspages[zid].inuse + 1
            && Meaning(d', cs) == Meaning(d, cs)[h := Payload(d'.zspages[zid], ClassOf(d, cs, zid), d.zspages[zid].freeobj)]
  {
    MallocEffect(d.zspages[zid], ClassOf(d, cs, zid), h);
    hide Good, OnlyObject, Payload, Header, ObjPage;
    AddAt(d, MallocIn(d, cs, zid, h), cs, zid, d.zspages[zid].freeobj, h);
  }

  /** The zspage that the code finds from handle `h`. */
  function ZidOf(d: Data, h: int): nat
    requires h in d.handles && ObjPfn(d.handles[h]) in d.owner
  {
    d.owner[ObjPfn(d.handles[h])]
  }

  function IdxOf(d: Data, h: int): nat
    requires h in d.handles
  {
    ObjIdx(d.handles[h])
  }

  /** obj_free of the object that `h` records, and the end of `h`. */
  function FreeIn(d: Data, cs: seq<Class>, h: int): Data
    requires h in d.handles && ObjPfn(d.handles[h]) in d.owner
    requires ZspageOk(d, cs, ZidOf(d, h)) && d.zspages[ZidOf(d, h)].inuse > 0
    requires IdxOf(d, h) < ClassOf(d, cs, ZidOf(d, h)).objs
  {
    var zid := ZidOf(d, h);
    Data(d.zspages[zid := ObjFree(d.zspages[zid], ClassOf(d, cs, zid), IdxOf(d, h))], d.owner, d.handles - {h})
  }

  lemma FreeInOk(d: Data, cs: seq<Class>, h: int)
    requires DataOk(d, cs) && h in d.handles
    ensures ObjPfn(d.handles[h]) in d.owner && ZspageOk(d, cs, ZidOf(d, h)) && d.zspages[ZidOf(d, h)].inuse > 0
    ensures IdxOf(d, h) < ClassOf(d, cs, ZidOf(d, h)).objs
    ensures var d', zid := FreeIn(d, cs, h), ZidOf(d, h);
            && DataOk(d', cs) && ZspageOk(d', cs, zid)
            && d'.zspages[zid].inuse == d.zspages[zid].inuse - 1
            && Meaning(d', cs) == Meaning(d, cs) - {h}
  {
    hide Good, OnlyObject, Shape, Payload, Header, ObjPage, Slots, OwnerOk, SlotOk, HandleOk, Abs;
    Lookup(d, cs, h);
    var zid, i := ZidOf(d, h), IdxOf(d, h);
    var z, g := d.zspages[zid], ClassOf(d, cs, zid);
    FreeEffect(z, g, i);
    var d' := FreeIn(d, cs, h);
    TouchedTable(d, d', cs, zid, i);
    var t := RemoveHandle(TableOf(d, cs), Key(zid, i), Header(d'.zspages[zid], g, i), Payload(d'.zspages[zid], g, i));
    assert TableOf(d', cs) == t;
  }

  /** zs_map_object, a store through the mapping, and zs_unmap_object. */
  function StoreIn(d: Data, h: int, pages: Chain): Data
    requires h in d.handles && ObjPfn(d.handles[h]) in d.owner && ZidOf(d, h) in d.zspages
  {
    d.(zspages := d.zspages[ZidOf(d, h) := d.zspages[ZidOf(d, h)].(pages := pages)])
  }

  lemma StoreInOk(d: Data, cs: seq<Class>, h: int, payload: seq<int>, pages: Chain)
    requires DataOk(d, cs) && h in d.handles && ObjPfn(d.handles[h]) in d.owner && ZspageOk(d, cs, ZidOf(d, h))
    requires IdxOf(d, h) < ClassOf(d, cs, ZidOf(d, h)).objs
    requires var g := ClassOf(d, cs, ZidOf(d, h));
             && |payload| == PayloadSize(g)
             && Start(g, IdxOf(d, h)) + g.size <= g.pages * 512
             && Wrote(d.zspages[ZidOf(d, h)].pages, Start(g, IdxOf(d, h)) + HeaderSize(g), payload, pages)
    ensures DataOk(StoreIn(d, h, pages), cs)
    ensures Meaning(StoreIn(d, h, pages), cs) == Meaning(d, cs)[h := payload]
  {
    hide Good, OnlyObject, Shape, Payload, Header, ObjPage, Slots, OwnerOk, SlotOk, HandleOk, Abs;
    Lookup(d, cs, h);
    var zid, i := ZidOf(d, h), IdxOf(d, h);
    var z, g := d.zspages[zid], ClassOf(d, cs, zid);
    hide Wrote;
    WriteEffect(z, g, i, payload, pages);
    var d' := StoreIn(d, h, pages);
    TouchedTable(d, d', cs, zid, i);
    var t := WriteHandle(TableOf(d, cs), Key(zid, i), payload);
    assert TableOf(d', cs) == t;
  }

  /**
   One object of migrate_zspage: obj_malloc in `dst` for the same handle, zs_object_copy over
   it (`pages` is the result), and obj_free of the source object.
   */
  function MoveIn(d: Data, cs: seq<Class>, h: int, dst: nat, pages: Chain): Data
    requires h in d.handles && ObjPfn(d.handles[h]) in d.owner
    requires ZspageOk(d, cs, ZidOf(d, h)) && d.zspages[ZidOf(d, h)].inuse > 0
    requires IdxOf(d, h) < ClassOf(d, cs, ZidOf(d, h)).objs
    requires ZspageOk(d, cs, dst) && d.zspages[dst].freeobj < ClassOf(d, cs, dst).objs
  {
    var src, zd, gd := ZidOf(d, h), d.zspages[dst], ClassOf(d, cs, dst);
    Data(d.zspages[dst := ObjMalloc(zd, gd, h).(pages := pages)]
                  [src := ObjFree(d.zspages[src], ClassOf(d, cs, src), IdxOf(d, h))],
         d.owner, d.handles[h := LocationToObj(ObjPage(zd, gd, zd.freeobj), zd.freeobj)])
  }

  lemma CopiedObject(zs: Zspage, zd: Zspage, g: Class, si: nat, h: int, pages: Chain)
    requires Good(zs, g) && Good(zd, g) && !Huge(g) && si < g.objs && IsHandle(h) && Header(zs, g, si) == h + 1
    requires zd.inuse < g.objs && zd.freeobj < g.objs
    requires Start(g, si) + g.size <= g.pages * 512 && Start(g, zd.freeobj) + g.size <= g.pages * 512
    requires Wrote(ObjMalloc(zd, g, h).pages, Start(g, zd.freeobj), Read(zs.pages, Start(g, si), g.size), pages)
    ensures var z', i := ObjMalloc(zd, g, h).(pages := pages), zd.freeobj;
            && Shape(z', g) && Good(z', g) && OnlyObject(zd, z', g, i)
            && Header(zd, g, i) % 2 == 0 && Header(z', g, i) == h + 1 && Payload(z', g, i) == Payload(zs, g, si)
            && z'.inuse == zd.inuse + 1
  {
    assert Shape(zs, g) && Shape(zd, g);
    hide Good, Wrote, OnlyObject, Header, Payload, Word, ObjMalloc, Start;
    var i, data := zd.freeobj, Read(zs.pages, Start(g, si), g.size);
    MallocEffect(zd, g, h);
    var z1 := ObjMalloc(zd, g, h);
    ObjectWords(zs, g, si);
    ObjectWords(z1, g, i);
    CopyIsStore(z1.pages, g, i, data, pages);
    WriteEffect(z1, g, i, data[1..], pages);
    OnlyTwice(zd, z1, z1.(pages := pages), g, i);
  }

  lemma OnlyTwice(z: Zspage, z1: Zspage, z2: Zspage, g: Class, i: nat)
    requires Shape(z, g) && Shape(z1, g) && Shape(z2, g)
    requires OnlyObject(z, z1, g, i) && OnlyObject(z1, z2, g, i)
    ensures OnlyObject(z, z2, g, i)
  {
    hide Shape, Header, Payload;
    forall j | 0 <= j < g.objs && j != i ensures SameObject(z, z2, g, j) {
      assert SameObject(z, z1, g, j) && SameObject(z1, z2, g, j);
    }
  }

  /** Moving an object keeps every handle's contents, the moved one's included. */
  lemma MoveInOk(d: Data, cs: seq<Class>, h: int, dst: nat, pages: Chain)
    requires DataOk(d, cs) && h in d.handles && ObjPfn(d.handles[h]) in d.owner && ZspageOk(d, cs, ZidOf(d, h))
    requires ZspageOk(d, cs, dst) && dst != ZidOf(d, h) && ClassOf(d, cs, dst) == ClassOf(d, cs, ZidOf(d, h))
    requires var g, zd := ClassOf(d, cs, dst), d.zspages[dst];
      && !Huge(g) && IdxOf(d, h) < g.objs && zd.inuse < g.objs && zd.freeobj < g.objs
      && Start(g, IdxOf(d, h)) + g.size <= g.pages * 512 && Start(g, zd.freeobj) + g.size <= g.pages * 512
      && Wrote(ObjMalloc(zd, g, h).pages, Start(g, zd.freeobj),
               Read(d.zspages[ZidOf(d, h)].pages, Start(g, IdxOf(d, h)), g.size), pages)
    ensures d.zspages[ZidOf(d, h)].inuse > 0
    ensures var d', src := MoveIn(d, cs, h, dst, pages), ZidOf(d, h);
      && DataOk(d', cs) && Meaning(d', cs) == Meaning(d, cs)
      && ZspageOk(d', cs, src) && d'.zspages[src].inuse == d.zspages[src].inuse - 1
      && ZspageOk(d', cs, dst) && d'.zspages[dst].inuse == d.zspages[dst].inuse + 1
  {
    hide Good, OnlyObject, Shape, Payload, Header, ObjPage, Slots, OwnerOk, SlotOk, HandleOk, Abs, Wrote;
    Lookup(d, cs, h);
    var src, si, g, zd := ZidOf(d, h), IdxOf(d, h), ClassOf(d, cs, dst), d.zspages[dst];
    CopiedObject(d.zspages[src], zd, g, si, h, pages);
    FreeInOk(d, cs, h);
    var d1, d' := FreeIn(d, cs, h), MoveIn(d, cs, h, dst, pages);
    assert d'.zspages == d1.zspages[dst := d'.zspages[dst]];
    assert d'.handles == d1.handles[h := LocationToObj(ObjPage(zd, g, zd.freeobj), zd.freeobj)];
    AddAt(d1, d', cs, dst, zd.freeobj, h);
    MeaningAt(d, cs, h);
  }

  lemma MeaningAt(d: Data, cs: seq<Class>, h: int)
    requires DataOk(d, cs) && h in d.handles && ObjPfn(d.handles[h]) in d.owner
    requires ZspageOk(d, cs, ZidOf(d, h)) && IdxOf(d, h) < ClassOf(d, cs, ZidOf(d, h)).objs
    ensures h in Meaning(d, cs)
    ensures Meaning(d, cs)[h] == Payload(d.zspages[ZidOf(d, h)], ClassOf(d, cs, ZidOf(d, h)), IdxOf(d, h))
  {
  }

  function PfnSet(pfns: seq<nat>): set<nat> {
    set p | p in pfns
  }

  /** A zspage that has just been built joins the pool. */
  function AddIn(d: Data, zid: nat, z: Zspage): Data {
    Data(d.zspages[zid := z], d.owner + (map p | p in PfnSet(z.pfns) :: zid), d.handles)
  }

  lemma AddInOwner(d: Data, zid: nat, z: Zspage)
    requires OwnerOk(d) && zid !in d.zspages
    requires forall p :: p in z.pfns ==> p !in d.owner
    requires forall p, q :: 0 <= p < q < |z.pfns| ==> z.pfns[p] != z.pfns[q]
    ensures OwnerOk(AddIn(d, zid, z))
  {
  }

  /** The objects of one zspage. */
  ghost function SlotsOf(d: Data, cs: seq<Class>, zid: nat): map<Key, Slot>
    requires ZspagesOk(d, cs)
  {
    map k | k in Slots(d, cs) && k.zid == zid :: Slots(d, cs)[k]
  }

  /** Two pools that agree on every zspage but `zid`, which only `d'` has. */
  ghost predicate OneMore(d: Data, d': Data, cs: seq<Class>, zid: nat) {
    && ZspagesOk(d, cs) && zid !in d.zspages
    && ZspageOk(d', cs, zid) && d'.zspages == d.zspages[zid := d'.zspages[zid]]
  }

  lemma OneMoreOk(d: Data, d': Data, cs: seq<Class>, zid: nat)
    requires OneMore(d, d', cs, zid)
    ensures ZspagesOk(d', cs)
  {
    hide Good, Shape;
    forall y | y in d'.zspages ensures ZspageOk(d', cs, y) {
      if y != zid { assert ZspageOk(d, cs, y); }
    }
  }

  lemma OneMoreSlot(d: Data, d': Data, cs: seq<Class>, zid: nat, k: Key)
    requires OneMore(d, d', cs, zid) && ZspagesOk(d', cs)
    ensures k in Slots(d, cs) <==> k in Slots(d', cs) && k.zid != zid
    ensures k in Slots(d, cs) ==> Slots(d', cs)[k] == Slots(d, cs)[k]
  {
    hide Good, Shape, SlotOf, Slots;
    assert IsKey(d, cs, k) <==> IsKey(d', cs, k) && k.zid != zid;
  }

  lemma SlotsPlus(d: Data, d': Data, cs: seq<Class>, zid: nat)
    requires OneMore(d, d', cs, zid) && ZspagesOk(d', cs)
    ensures Slots(d', cs) == Slots(d, cs) + SlotsOf(d', cs, zid)
    ensures Slots(d, cs) == Slots(d', cs) - SlotsOf(d', cs, zid).Keys
  {
    hide Good, Shape, SlotOf, Slots, IsKey, ZspageOk;
    forall k
      ensures k in Slots(d, cs) <==> k in Slots(d', cs) && k.zid != zid
      ensures k in Slots(d, cs) ==> Slots(d', cs)[k] == Slots(d, cs)[k]
    {
      OneMoreSlot(d, d', cs, zid, k);
    }
  }

  lemma AddInOk(d: Data, cs: seq<Class>, zid: nat, z: Zspage)
    requires DataOk(d, cs) && zid !in d.zspages && z.cls < |cs| && Shape(z, cs[z.cls]) && Good(z, cs[z.cls])
    requires forall i :: 0 <= i < cs[z.cls].objs ==> Header(z, cs[z.cls], i) % 2 == 0
    requires forall p :: p in z.pfns ==> p !in d.owner
    requires forall p, q :: 0 <= p < q < |z.pfns| ==> z.pfns[p] != z.pfns[q]
    ensures DataOk(AddIn(d, zid, z), cs) && Meaning(AddIn(d, zid, z), cs) == Meaning(d, cs)
  {
    hide Good, Shape, Payload, Header, ObjPage, OwnerOk, SlotOk, HandleOk, Abs, Slots;
    var d' := AddIn(d, zid, z);
    AddInOwner(d, zid, z);
    OneMoreOk(d, d', cs, zid);
    SlotsPlus(d, d', cs, zid);
    var fresh' := SlotsOf(d', cs, zid);
    forall k | k in fresh'
      ensures fresh'[k].home in PfnSet(z.pfns) && fresh'[k].header % 2 == 0 && k.idx < 0x1000_0000 && k !in Slots(d, cs)
    {
      HomeIsPage(z, cs[z.cls], k.idx);
      OneMoreSlot(d, d', cs, zid, k);
    }
    var t := AddZspage(TableOf(d, cs), zid, fresh', PfnSet(z.pfns));
    assert TableOf(d', cs) == t;
  }

  lemma HomeIsPage(z: Zspage, g: Class, i: nat)
    requires Shape(z, g) && i < g.objs
    ensures ObjPage(z, g, i) in z.pfns && i < 0x1000_0000
  {
    StartRoom(g, i);
  }

  /** __free_zspage: an empty zspage leaves the pool. */
  function DropIn(d: Data, zid: nat): Data
    requires zid in d.zspages
  {
    Data(d.zspages - {zid}, d.owner - PfnSet(d.zspages[zid].pfns), d.handles)
  }

  lemma DropInOwner(d: Data, zid: nat)
    requires OwnerOk(d) && zid in d.zspages
    ensures OwnerOk(DropIn(d, zid))
  {
  }

  /** A page frame is in the zspage that owns it and in no other. */
  lemma HomeOwner(d: Data, cs: seq<Class>, k: Key, zid: nat)
    requires ZspagesOk(d, cs) && OwnerOk(d) && IsKey(d, cs, k) && zid in d.zspages
    ensures k.zid == zid <==> SlotAt(d, cs, k).home in PfnSet(d.zspages[zid].pfns)
  {
    HomeIsPage(d.zspages[k.zid], ClassOf(d, cs, k.zid), k.idx);
    hide Good, Shape, ObjPage;
  }

  lemma DropInOk(d: Data, cs: seq<Class>, zid: nat)
    requires DataOk(d, cs) && zid in d.zspages && ZspageOk(d, cs, zid) && d.zspages[zid].inuse == 0
    ensures DataOk(DropIn(d, zid), cs) && Meaning(DropIn(d, zid), cs) == Meaning(d, cs)
  {
    hide Good, Shape, Payload, Header, ObjPage, SlotOk, HandleOk, Abs, Slots, OwnerOk;
    InuseTagged(d.zspages[zid], ClassOf(d, cs, zid));
    DropInOwner(d, zid);
    var d', pfns := DropIn(d, zid), PfnSet(d.zspages[zid].pfns);
    forall y | y in d'.zspages ensures ZspageOk(d', cs, y) { assert ZspageOk(d, cs, y); }
    SlotsPlus(d', d, cs, zid);
    var gone := SlotsOf(d, cs, zid).Keys;
    forall k | k in Slots(d, cs)
      ensures k in gone <==> Slots(d, cs)[k].home in pfns
      ensures k in gone ==> Slots(d, cs)[k].header % 2 == 0
    {
      HomeOwner(d, cs, k, zid);
    }
    var t := DropZspage(TableOf(d, cs), gone, pfns);
    assert TableOf(d', cs) == t;
  }

  /** The pool after zs_page_migrate has moved page `p` of `zid` to the frame `newpage`. */
  function ReplaceIn(d: Data, zid: nat, p: nat, newpage: nat): Data
    requires zid in d.zspages && p < |d.zspages[zid].pfns|
  {
    var z := d.zspages[zid];
    Data(d.zspages[zid := z.(pfns := z.pfns[p := newpage])],
         (d.owner - {z.pfns[p]})[newpage := zid],
         map h | h in d.handles :: Rerecord(d.handles[h], z.pfns[p], newpage))
  }

  lemma ReplaceInOwner(d: Data, zid: nat, p: nat, newpage: nat)
    requires OwnerOk(d) && zid in d.zspages && p < |d.zspages[zid].pfns| && newpage !in d.owner
    ensures OwnerOk(ReplaceIn(d, zid, p, newpage))
  {
    var d', pfns := ReplaceIn(d, zid, p, newpage), d.zspages[zid].pfns;
    forall z | z in d'.zspages ensures PagesOwned(d', z) {
      assert PagesOwned(d, zid) && PagesOwned(d, z);
      ReplacePages(d, zid, p, newpage, z);
    }
    forall pfn | pfn in d'.owner
      ensures d'.owner[pfn] in d'.zspages && pfn in d'.zspages[d'.owner[pfn]].pfns
    {
      if pfn == newpage {
        assert pfns[p := newpage][p] == newpage;
      } else if d.owner[pfn] == zid {
        var q :| 0 <= q < |pfns| && pfns[q] == pfn;
        assert pfns[p := newpage][q] == pfn;
      }
    }
  }

  lemma ReplacePages(d: Data, zid: nat, p: nat, newpage: nat, z: nat)
    requires zid in d.zspages && p < |d.zspages[zid].pfns| && newpage !in d.owner && z in d.zspages
    requires PagesOwned(d, zid) && PagesOwned(d, z)
    ensures PagesOwned(ReplaceIn(d, zid, p, newpage), z)
  {
    var d', page := ReplaceIn(d, zid, p, newpage), d.zspages[zid].pfns[p];
    assert d.owner[page] == zid;
    forall q | 0 <= q < |d'.zspages[z].pfns|
      ensures d'.zspages[z].pfns[q] in d'.owner && d'.owner[d'.zspages[z].pfns[q]] == z
    {
      assert d.zspages[z].pfns[q] in d.owner;
    }
  }

  lemma ReplaceInGood(d: Data, cs: seq<Class>, zid: nat, p: nat, newpage: nat)
    requires ZspagesOk(d, cs) && zid in d.zspages && p < |d.zspages[zid].pfns|
    ensures ZspagesOk(ReplaceIn(d, zid, p, newpage), cs)
  {
    var d' := ReplaceIn(d, zid, p, newpage);
    forall y | y in d'.zspages ensures ZspageOk(d', cs, y) {
      assert ZspageOk(d, cs, y);
      if y == zid { RenamedGood(d.zspages[zid], cs[d.zspages[zid].cls], p, newpage); }
    }
  }

  lemma RenamedGood(z: Zspage, g: Class, p: nat, newpage: nat)
    requires Good(z, g) && p < |z.pfns|
    ensures Good(z.(pfns := z.pfns[p := newpage]), g)
  {
    hide FirstOff;
  }

  lemma ReplaceInSlot(d: Data, cs: seq<Class>, zid: nat, p: nat, newpage: nat, k: Key)
    requires ZspagesOk(d, cs) && OwnerOk(d) && zid in d.zspages && p < |d.zspages[zid].pfns| && newpage !in d.owner
    requires ZspagesOk(ReplaceIn(d, zid, p, newpage), cs)
    ensures var d' := ReplaceIn(d, zid, p, newpage);
      && (IsKey(d', cs, k) <==> IsKey(d, cs, k))
      && (IsKey(d, cs, k) ==> SlotAt(d', cs, k) == Rehome(SlotAt(d, cs, k), d.zspages[zid].pfns[p], newpage))
  {
    hide Good;
    var d' := ReplaceIn(d, zid, p, newpage);
    if IsKey(d, cs, k) {
      assert ZspageOk(d', cs, k.zid);
      HomeOwner(d, cs, k, zid);
      StartRoom(ClassOf(d, cs, k.zid), k.idx);
    }
  }

  /** Replacing a page changes no handle's contents. */
  lemma ReplaceInOk(d: Data, cs: seq<Class>, zid: nat, p: nat, newpage: nat)
    requires DataOk(d, cs) && zid in d.zspages && p < |d.zspages[zid].pfns| && newpage !in d.owner
    ensures DataOk(ReplaceIn(d, zid, p, newpage), cs)
    ensures Meaning(ReplaceIn(d, zid, p, newpage), cs) == Meaning(d, cs)
  {
    hide Good, Shape, SlotOf, Slots, IsKey, ZspageOk, SlotOk, HandleOk, Abs, Rehome, Rerecord;
    ReplaceInOwner(d, zid, p, newpage);
    ReplaceInGood(d, cs, zid, p, newpage);
    var d', page := ReplaceIn(d, zid, p, newpage), d.zspages[zid].pfns[p];
    forall k
      ensures k in Slots(d', cs) <==> k in Slots(d, cs)
      ensures k in Slots(d, cs) ==> Slots(d', cs)[k] == Rehome(Slots(d, cs)[k], page, newpage)
    {
      ReplaceInSlot(d, cs, zid, p, newpage, k);
    }
    var t := ReplacePage(TableOf(d, cs), page, newpage);
    hide OwnerOk;
    assert TableOf(d', cs) == t;
  }
}
