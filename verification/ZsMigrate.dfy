/** Moving the objects of one zspage into another. */
module ZsMigrate {
  import opened ZsChain
  import opened ZsPage
  import opened ZsHandles
  import opened ZsData

  lemma {:induction false} StartAdd(g: Class, i: nat, j: nat)
    ensures Start(g, i + j) == Start(g, i) + Start(g, j)
  {
    if j > 0 { StartAdd(g, i, j - 1); }
  }

  function ObjectsSize(g: Class, n: nat): (r: nat)
    ensures r == Start(g, n)
  {
    StartIsProduct(g, n);
    g.size * n
  }

  /** Slot `first` is the first that starts on page `page`. */
  ghost predicate FirstOn(z: Zspage, g: Class, page: nat, first: nat)
    requires Shape(z, g)
  {
    page < g.pages && z.firstOff[page] < g.size && Start(g, first) == page * 512 + z.firstOff[page]
  }

  lemma FirstExists(z: Zspage, g: Class, page: nat) returns (first: nat)
    requires Good(z, g) && page < g.pages
    ensures FirstOn(z, g, page, first)
  {
    assert FirstOff(g, page, z.firstOff[page]);
    first :| IsSlot(g, first) && Start(g, first) == page * 512 + z.firstOff[page];
  }

  /** The slot after the last one of a page is the first of the next page. */
  lemma FirstIsNext(z: Zspage, g: Class, page: nat, first: nat, i: nat)
    requires Good(z, g) && FirstOn(z, g, page, first)
    requires page * 512 <= Start(g, i) && (i > 0 ==> Start(g, i - 1) < page * 512)
    ensures first == i
  {
    if first < i {
      StartMono(g, first, i - 1);
    } else if i < first {
      StartSep(g, i, first);
    }
  }

  lemma StartMono(g: Class, i: nat, j: nat)
    requires i <= j
    ensures Start(g, i) <= Start(g, j)
  {
    if i < j { StartSep(g, i, j); }
  }

  /** No object below slot `n` is tagged. */
  ghost predicate ClearBelow(z: Zspage, g: Class, n: nat)
    requires Shape(z, g)
  {
    forall j :: 0 <= j < n && j < g.objs ==> Header(z, g, j) % 2 == 0
  }

  /** The word find_alloced_obj looks at on `page` at `offset`. */
  function TagWord(z: Zspage, g: Class, page: nat, offset: nat): int
    requires Shape(z, g) && page < g.pages && offset < 512
  {
    if Huge(g) then z.tag else z.pages[page][offset]
  }

  /** It is the header of the slot that starts there, and a partial slot is never tagged. */
  lemma TagWordIsHeader(z: Zspage, g: Class, page: nat, offset: nat, i: nat)
    requires Good(z, g) && !Huge(g) && page < g.pages && offset < 512 && Start(g, i) == page * 512 + offset
    ensures i < g.objs ==> Header(z, g, i) == TagWord(z, g, page, offset)
    ensures i >= g.objs ==> TagWord(z, g, page, offset) % 2 == 0
  {
    SlotIff(g, i);
    assert Start(g, i) / 512 == page && Start(g, i) % 512 == offset;
  }

  /** The scan has passed `objIdx` objects of the page and found nothing tagged before slot first + objIdx. */
  ghost predicate Scan(z: Zspage, g: Class, page: nat, first: nat, objIdx: nat)
    requires Shape(z, g)
  {
    && FirstOn(z, g, page, first) && ClearBelow(z, g, first + objIdx)
    && (objIdx > 0 ==> Start(g, first + objIdx - 1) < (page + 1) * 512)
  }

  lemma ScanNext(z: Zspage, g: Class, page: nat, first: nat, objIdx: nat, offset: nat)
    requires Shape(z, g) && Good(z, g) && !Huge(g) && Scan(z, g, page, first, objIdx)
    requires offset < 512 && Start(g, first + objIdx) == page * 512 + offset
    ensures g.size >= 2 && page < g.pages && Start(g, first + objIdx + 1) == page * 512 + offset + g.size
    ensures TagWord(z, g, page, offset) % 2 == 0 ==> Scan(z, g, page, first, objIdx + 1)
    ensures TagWord(z, g, page, offset) % 2 == 1 ==> first + objIdx < g.objs && Header(z, g, first + objIdx) == TagWord(z, g, page, offset)
  {
    hide Good, Header;
    TagWordIsHeader(z, g, page, offset, first + objIdx);
  }

  lemma ScanFrom(z: Zspage, g: Class, page: nat, first: nat, objIdx: nat)
    requires Shape(z, g) && Scan(z, g, page, first, objIdx)
    ensures page < g.pages && Start(g, first + objIdx) == page * 512 + z.firstOff[page] + ObjectsSize(g, objIdx)
  {
    StartAdd(g, first, objIdx);
  }

  /**
   find_alloced_obj on a zspage that is not huge: from the object `objIdx0` places after the
   first of the page, the next tagged object on the page, or 0.
   */
  method FindAllocedObj(z: Zspage, g: Class, page: nat, objIdx0: nat, ghost first: nat) returns (handle: int, objIdx: nat)
    requires Shape(z, g) && Good(z, g) && !Huge(g) && Scan(z, g, page, first, objIdx0)
    requires forall i :: 0 <= i < g.objs && Header(z, g, i) % 2 == 1 ==> Header(z, g, i) > 1
    ensures Scan(z, g, page, first, objIdx)
    ensures handle != 0 ==> Start(g, first + objIdx) < (page + 1) * 512
    ensures handle != 0 ==> first + objIdx < g.objs && Header(z, g, first + objIdx) == handle + 1 && handle % 2 == 0
    ensures handle == 0 ==> Start(g, first + objIdx) >= (page + 1) * 512
  {
    hide Good, Header, Start, ClassOk, Scan, TagWord, ObjectsSize;
    objIdx := objIdx0;
    handle := 0;
    ScanFrom(z, g, page, first, objIdx);
    var offset: nat := z.firstOff[page] + ObjectsSize(g, objIdx);
    while offset < 512
      invariant Start(g, first + objIdx) == page * 512 + offset && Scan(z, g, page, first, objIdx)
      decreases 512 - offset
    {
      ScanNext(z, g, page, first, objIdx, offset);
      var w := TagWord(z, g, page, offset);
      if w % 2 == 1 {
        handle := w - 1;
        return;
      }
      offset := offset + g.size;
      objIdx := objIdx + 1;
    }
  }

  /** Two zspages of one class that is not huge. */
  ghost predicate Pair(d: Data, cs: seq<Class>, src: nat, dst: nat, g: Class) {
    && src != dst && !Huge(g)
    && ZspageOk(d, cs, src) && ZspageOk(d, cs, dst)
    && ClassOf(d, cs, src) == g && d.zspages[src].cls == d.zspages[dst].cls
  }

  /** `d'` differs from `d` in `src` and `dst` only; objects moved from one to the other and no contents changed. */
  ghost predicate Moved(d: Data, d': Data, cs: seq<Class>, src: nat, dst: nat, g: Class)
    requires DataOk(d, cs)
  {
    && Pair(d, cs, src, dst, g) && Pair(d', cs, src, dst, g)
    && DataOk(d', cs) && Meaning(d', cs) == Meaning(d, cs)
    && d'.zspages == d.zspages[src := d'.zspages[src]][dst := d'.zspages[dst]]
    && d'.zspages[src].cls == d.zspages[src].cls
    && d'.zspages[src].inuse + d'.zspages[dst].inuse == d.zspages[src].inuse + d.zspages[dst].inuse
    && d'.zspages[src].firstOff == d.zspages[src].firstOff
  }

  /** A tagged object's handle leads back to it. */
  lemma HandleAt(d: Data, cs: seq<Class>, zid: nat, i: nat, h: int)
    requires DataOk(d, cs) && ZspageOk(d, cs, zid) && i < ClassOf(d, cs, zid).objs
    requires Header(d.zspages[zid], ClassOf(d, cs, zid), i) == h + 1 && h % 2 == 0
    ensures h in d.handles && IsHandle(h) && ObjPfn(d.handles[h]) in d.owner && ZidOf(d, h) == zid && IdxOf(d, h) == i
  {
    hide Good, Shape, Payload, ObjPage, OwnerOk;
    var t := TableOf(d, cs);
    assert IsKey(d, cs, Key(zid, i));
    assert t.slots[Key(zid, i)].header == h + 1;
    Found(t, Key(zid, i));
  }

  lemma TagsCarryHandles(d: Data, cs: seq<Class>, zid: nat)
    requires DataOk(d, cs) && ZspageOk(d, cs, zid)
    ensures var z, g := d.zspages[zid], ClassOf(d, cs, zid);
            forall i :: 0 <= i < g.objs && Header(z, g, i) % 2 == 1 ==> Header(z, g, i) > 1
  {
    hide Good, Payload, ObjPage, OwnerOk, Inv, Header;
    var z, g := d.zspages[zid], ClassOf(d, cs, zid);
    forall i | 0 <= i < g.objs && Header(z, g, i) % 2 == 1 ensures Header(z, g, i) > 1 {
      HandleAt(d, cs, zid, i, Header(z, g, i) - 1);
    }
  }

  lemma MovedTwice(d0: Data, d: Data, d': Data, cs: seq<Class>, src: nat, dst: nat, g: Class)
    requires DataOk(d0, cs) && Moved(d0, d, cs, src, dst, g) && Moved(d, d', cs, src, dst, g)
    ensures Moved(d0, d', cs, src, dst, g)
  {
    hide DataOk, Meaning, ZspageOk;
  }

  /** The source zspage after the object at slot `i` has left. */
  lemma ClearAfterFree(z: Zspage, g: Class, i: nat)
    requires Good(z, g) && i < g.objs && Header(z, g, i) % 2 == 1 && ClearBelow(z, g, i)
    ensures z.inuse > 0 && ClearBelow(ObjFree(z, g, i), g, i + 1)
  {
    FreeEffect(z, g, i);
    var z' := ObjFree(z, g, i);
    hide Good, Header, Payload;
    forall j | 0 <= j < i + 1 && j < g.objs ensures Header(z', g, j) % 2 == 0 {
      if j != i { assert SameObject(z, z', g, j); }
    }
  }

  /** One round of migrate_zspage: the object with handle `h` at slot `i` of `src` moves to `dst`. */
  method MoveOne(d: Data, cs: seq<Class>, src: nat, dst: nat, g: Class, h: int, ghost i: nat) returns (d': Data)
    requires DataOk(d, cs) && Pair(d, cs, src, dst, g) && i < g.objs && h % 2 == 0
    requires Header(d.zspages[src], g, i) == h + 1 && ClearBelow(d.zspages[src], g, i)
    requires d.zspages[dst].inuse < g.objs
    ensures Moved(d, d', cs, src, dst, g)
    ensures d'.zspages[src].inuse == d.zspages[src].inuse - 1
    ensures ClearBelow(d'.zspages[src], g, i + 1)
  {
    hide DataOk, Meaning, Good, Header, ClearBelow, OwnerOk, Inv, Wrote, Start;
    HandleAt(d, cs, src, i, h);
    HeadIsObject(d.zspages[dst], g);
    ClearAfterFree(d.zspages[src], g, i);
    var idx := IdxOf(d, h);
    var zd := ObjMalloc(d.zspages[dst], g, h);
    var pages, _ := ObjectCopy(d.zspages[src].pages, zd.pages, g, idx, d.zspages[dst].freeobj);
    MoveInOk(d, cs, h, dst, pages);
    d' := MoveIn(d, cs, h, dst, pages);
  }

  /** Past the last object of a page the scan goes on with the first of the next. */
  lemma NextPage(z: Zspage, g: Class, page: nat, first: nat, objIdx: nat) returns (first': nat)
    requires Shape(z, g) && Good(z, g) && Scan(z, g, page, first, objIdx)
    requires Start(g, first + objIdx) >= (page + 1) * 512 && page + 1 < g.pages
    ensures Scan(z, g, page + 1, first', 0)
  {
    hide Header;
    first' := FirstExists(z, g, page + 1);
    hide Good;
    FirstIsNext(z, g, page + 1, first', first + objIdx);
  }

  /** Past the last page nothing is tagged. */
  lemma NoneLeft(z: Zspage, g: Class, page: nat, first: nat, objIdx: nat)
    requires Shape(z, g) && Good(z, g) && Scan(z, g, page, first, objIdx)
    requires Start(g, first + objIdx) >= (page + 1) * 512 && page + 1 == g.pages
    ensures z.inuse == 0
  {
    hide Header;
    SlotIff(g, first + objIdx);
    InuseTagged(z, g);
  }

  /** After a move the source zspage is scanned on from the next object. */
  lemma ScanOn(z: Zspage, z': Zspage, g: Class, page: nat, first: nat, objIdx: nat)
    requires Shape(z, g) && Shape(z', g) && z'.firstOff == z.firstOff && Scan(z, g, page, first, objIdx)
    requires Start(g, first + objIdx) < (page + 1) * 512 && ClearBelow(z', g, first + objIdx + 1)
    ensures Scan(z', g, page, first, objIdx + 1)
  {
  }

  /** migrate_zspage: moves objects until the destination is full or the source empty. */
  method MigrateZspage(d: Data, cs: seq<Class>, src: nat, dst: nat, g: Class) returns (d': Data)
    requires DataOk(d, cs) && Pair(d, cs, src, dst, g) && d.zspages[dst].inuse < g.objs
    ensures Moved(d, d', cs, src, dst, g)
    ensures d'.zspages[dst].inuse == g.objs || d'.zspages[src].inuse == 0
  {
    hide DataOk, Meaning, Good, Header, ClearBelow, Start, Scan;
    d' := d;
    var page, objIdx := 0, 0;
    ghost var first := ScanStart(d.zspages[src], g);
    while true
      invariant Moved(d, d', cs, src, dst, g) && d'.zspages[dst].inuse < g.objs
      invariant 0 <= page < g.pages && Scan(d'.zspages[src], g, page, first, objIdx)
      decreases d'.zspages[src].inuse + (g.pages - page)
    {
      TagsCarryHandles(d', cs, src);
      var handle;
      handle, objIdx := FindAllocedObj(d'.zspages[src], g, page, objIdx, first);
      if handle == 0 {
        if page + 1 == g.pages {
          NoneLeft(d'.zspages[src], g, page, first, objIdx);
          break;
        }
        first := NextPage(d'.zspages[src], g, page, first, objIdx);
        page, objIdx := page + 1, 0;
      } else {
        ghost var was := d';
        ScanClear(d'.zspages[src], g, page, first, objIdx);
        d' := MoveOne(d', cs, src, dst, g, handle, first + objIdx);
        MovedTwice(d, was, d', cs, src, dst, g);
        if d'.zspages[dst].inuse == g.objs { break; }
        if d'.zspages[src].inuse == 0 { break; }
        InuseBounded(d', cs, dst);
        ScanOn(was.zspages[src], d'.zspages[src], g, page, first, objIdx);
        objIdx := objIdx + 1;
      }
    }
  }

  lemma ScanStart(z: Zspage, g: Class) returns (first: nat)
    requires Shape(z, g) && Good(z, g)
    ensures Scan(z, g, 0, first, 0)
  {
    first := FirstExists(z, g, 0);
    FirstIsNext(z, g, 0, first, 0);
  }

  lemma ScanClear(z: Zspage, g: Class, page: nat, first: nat, objIdx: nat)
    requires Shape(z, g) && Scan(z, g, page, first, objIdx)
    ensures ClearBelow(z, g, first + objIdx)
  {
  }

  lemma InuseBounded(d: Data, cs: seq<Class>, zid: nat)
    requires ZspageOk(d, cs, zid)
    ensures d.zspages[zid].inuse <= ClassOf(d, cs, zid).objs
  {
  }
}
