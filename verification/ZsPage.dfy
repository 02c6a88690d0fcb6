/**
 One zspage: its page chain, the free list threaded through the free objects, and the
 allocation tag in each object's header word.
 */
module ZsPage {
  import opened ZsChain
  import opened ZsFreeList
  import opened ZsHandles

  /**
   `pfns` are the page frames of the chain and `pages` their contents; `firstOff[p]` is the
   offset of the first object that starts on page `p`; `tag` is page->index of a huge page.
   */
  datatype Zspage = Zspage(pfns: seq<nat>, pages: Chain, firstOff: seq<nat>, tag: int,
                           inuse: nat, freeobj: nat, cls: nat)

  ghost predicate Shape(z: Zspage, g: Class) {
    && ClassOk(g) && Wf(z.pages)
    && |z.pages| == |z.pfns| == |z.firstOff| == g.pages
  }

  /** A chain with waste ends in a partial slot, whose index is objs_per_zspage. */
  predicate HasWaste(g: Class) {
    Start(g, g.objs) < g.pages * 512
  }

  /** The index of every object start on the chain: the whole objects and the partial slot. */
  predicate IsSlot(g: Class, i: nat) {
    i < g.objs || (i == g.objs && HasWaste(g))
  }

  lemma SlotIff(g: Class, i: nat)
    requires ClassOk(g)
    ensures IsSlot(g, i) <==> Start(g, i) < g.pages * 512
  {
    if i < g.objs {
      StartRoom(g, i);
    } else if i > g.objs + 1 {
      StartSep(g, g.objs + 1, i);
    }
  }

  lemma SlotsApart(g: Class, i: nat, j: nat)
    requires i != j
    ensures Start(g, i) + g.size <= Start(g, j) || Start(g, j) + g.size <= Start(g, i)
  {
    if i < j { StartSep(g, i, j); } else { StartSep(g, j, i); }
  }

  /** The header word of slot `i` of a chain. */
  function Word(c: Chain, g: Class, i: nat): int
    requires ClassOk(g) && Wf(c) && |c| == g.pages && IsSlot(g, i)
  {
    SlotIff(g, i);
    At(c, Start(g, i))
  }

  /** The header words of the whole objects. */
  function Words(c: Chain, g: Class): (ws: seq<int>)
    requires ClassOk(g) && Wf(c) && |c| == g.pages
    ensures |ws| == g.objs
    ensures forall i :: 0 <= i < g.objs ==> ws[i] == Word(c, g, i)
  {
    seq(g.objs, i requires 0 <= i < g.objs => Word(c, g, i))
  }

  /** The word that carries the handle and the allocation tag. */
  function Header(z: Zspage, g: Class, i: nat): int
    requires Shape(z, g) && IsSlot(g, i)
  {
    if Huge(g) then z.tag else Word(z.pages, g, i)
  }

  /** `off` is where the first object that starts on page `p` starts. */
  ghost predicate FirstOff(g: Class, p: nat, off: nat) {
    off < g.size && off < 512 && exists i :: IsSlot(g, i) && Start(g, i) == p * 512 + off
  }

  ghost predicate ListOk(z: Zspage, g: Class)
    requires Shape(z, g)
  {
    exists xs :: FreeList(Words(z.pages, g), HasWaste(g), z.freeobj, z.inuse, xs)
  }

  /** The partial slot never carries a tag. */
  ghost predicate PartialUntagged(z: Zspage, g: Class)
    requires Shape(z, g)
  {
    HasWaste(g) ==> Word(z.pages, g, g.objs) % 2 == 0
  }

  /** The state of every zspage between operations. */
  ghost predicate Good(z: Zspage, g: Class) {
    && Shape(z, g)
    && z.inuse <= g.objs
    && (forall p :: 0 <= p < g.pages ==> FirstOff(g, p, z.firstOff[p]))
    && if Huge(g) then
         if z.inuse == 0 then z.freeobj == 0 && z.tag == 0 else z.tag % 2 == 1
       else
         ListOk(z, g) && PartialUntagged(z, g)
  }

  /** Stores `w` in the header word of slot `i`. */
  function PutWord(c: Chain, g: Class, i: nat, w: int): (c': Chain)
    requires ClassOk(g) && Wf(c) && |c| == g.pages && IsSlot(g, i)
    ensures Wf(c') && |c'| == g.pages
  {
    SlotIff(g, i);
    Put(c, Start(g, i), w)
  }

  /** A store inside object `i` leaves every other slot's header word as it was. */
  lemma WordFrame(c: Chain, g: Class, i: nat, at: nat, data: seq<int>, c': Chain, j: nat)
    requires ClassOk(g) && Wf(c) && |c| == g.pages && IsSlot(g, j) && i != j
    requires Start(g, i) <= at && at + |data| <= Start(g, i) + g.size && at + |data| <= g.pages * 512
    requires Wrote(c, at, data, c')
    ensures Word(c', g, j) == Word(c, g, j)
  {
    SlotsApart(g, i, j);
    SlotIff(g, j);
  }

  lemma PutWordWords(c: Chain, g: Class, i: nat, w: int)
    requires ClassOk(g) && Wf(c) && |c| == g.pages && IsSlot(g, i)
    ensures forall j: nat :: IsSlot(g, j) ==>
              Word(PutWord(c, g, i, w), g, j) == if j == i then w else Word(c, g, j)
    ensures i < g.objs ==> Words(PutWord(c, g, i, w), g) == Words(c, g)[i := w]
  {
    SlotIff(g, i);
    PutWrote(c, Start(g, i), w);
    forall j: nat | IsSlot(g, j)
      ensures Word(PutWord(c, g, i, w), g, j) == if j == i then w else Word(c, g, j)
    {
      if j != i { WordFrame(c, g, i, Start(g, i), [w], PutWord(c, g, i, w), j); }
    }
  }

  /** obj_malloc on the zspage: takes the head of the free list and tags it with the handle. */
  function ObjMalloc(z: Zspage, g: Class, h: int): (z': Zspage)
    requires Shape(z, g) && z.freeobj < g.objs
    ensures Shape(z', g)
  {
    var next := Link(Word(z.pages, g, z.freeobj));
    if Huge(g) then
      z.(freeobj := next, tag := h + 1, inuse := z.inuse + 1)
    else
      z.(freeobj := next, pages := PutWord(z.pages, g, z.freeobj, h + 1), inuse := z.inuse + 1)
  }

  /** obj_free on the zspage: pushes object `i` on the free list and clears its tag. */
  function ObjFree(z: Zspage, g: Class, i: nat): (z': Zspage)
    requires Shape(z, g) && z.inuse > 0 && i < g.objs
    ensures Shape(z', g)
  {
    if Huge(g) then
      z.(freeobj := i, tag := 0, inuse := z.inuse - 1)
    else
      z.(freeobj := i, pages := PutWord(z.pages, g, i, LinkWord(z.freeobj)), inuse := z.inuse - 1)
  }

  /** The contents of object `i` as its owner sees them. */
  function Payload(z: Zspage, g: Class, i: nat): seq<int>
    requires Shape(z, g) && i < g.objs
  {
    StartRoom(g, i);
    Read(z.pages, Start(g, i) + HeaderSize(g), PayloadSize(g))
  }

  /** Object `j` of `z` and of `z'` hold the same handle, tag and payload. */
  ghost predicate SameObject(z: Zspage, z': Zspage, g: Class, j: nat)
    requires Shape(z, g) && Shape(z', g) && j < g.objs
  {
    Header(z', g, j) == Header(z, g, j) && Payload(z', g, j) == Payload(z, g, j)
  }

  /** `z'` is on the same pages and differs from `z` in at most object `i`, the list head and `inuse`. */
  ghost predicate OnlyObject(z: Zspage, z': Zspage, g: Class, i: nat)
    requires Shape(z, g) && Shape(z', g)
  {
    && z'.pfns == z.pfns && z'.firstOff == z.firstOff && z'.cls == z.cls
    && forall j :: 0 <= j < g.objs && j != i ==> SameObject(z, z', g, j)
  }

  /** A store inside object `i` leaves every other object as it was. */
  lemma StoreOnly(z: Zspage, g: Class, i: nat, at: nat, data: seq<int>, z': Zspage)
    requires Shape(z, g) && i < g.objs && Shape(z', g) && z'.tag == z.tag
    requires Start(g, i) <= at && at + |data| <= Start(g, i) + g.size && at + |data| <= g.pages * 512
    requires Wrote(z.pages, at, data, z'.pages)
    requires z'.pfns == z.pfns && z'.firstOff == z.firstOff && z'.cls == z.cls
    ensures OnlyObject(z, z', g, i)
  {
    forall j | 0 <= j < g.objs && j != i
      ensures SameObject(z, z', g, j)
    {
      WordFrame(z.pages, g, i, at, data, z'.pages, j);
      SlotsApart(g, i, j);
      StartRoom(g, j);
      WroteElsewhere(z.pages, at, data, z'.pages, Start(g, j) + HeaderSize(g), PayloadSize(g));
    }
  }

  lemma PutWordOnly(z: Zspage, g: Class, i: nat, w: int, z': Zspage)
    requires Shape(z, g) && i < g.objs && !Huge(g) && z'.tag == z.tag
    requires z'.pages == PutWord(z.pages, g, i, w)
    requires z'.pfns == z.pfns && z'.firstOff == z.firstOff && z'.cls == z.cls
    ensures Shape(z', g) && OnlyObject(z, z', g, i) && Header(z', g, i) == w
    ensures PartialUntagged(z, g) ==> PartialUntagged(z', g)
  {
    PutWordWords(z.pages, g, i, w);
    StartRoom(g, i);
    PutWrote(z.pages, Start(g, i), w);
    StoreOnly(z, g, i, Start(g, i), [w], z');
  }

  /** The partial slot and the terminator are never handed out. */
  lemma HeadIsObject(z: Zspage, g: Class)
    requires Good(z, g) && z.inuse < g.objs
    ensures z.freeobj < g.objs && Header(z, g, z.freeobj) % 2 == 0
  {
    if !Huge(g) {
      var xs :| FreeList(Words(z.pages, g), HasWaste(g), z.freeobj, z.inuse, xs);
      Pop(Words(z.pages, g), HasWaste(g), z.freeobj, z.inuse, xs, 1);
      assert z.freeobj in xs;
    }
  }

  /** obj_malloc keeps the free-list invariant, hands out an untagged object and touches no other. */
  lemma MallocEffect(z: Zspage, g: Class, h: int)
    requires Good(z, g) && z.inuse < g.objs && IsHandle(h)
    ensures z.freeobj < g.objs && Header(z, g, z.freeobj) % 2 == 0
    ensures var z' := ObjMalloc(z, g, h);
            && Shape(z', g) && Good(z', g) && OnlyObject(z, z', g, z.freeobj)
            && Header(z', g, z.freeobj) == h + 1 && z'.inuse == z.inuse + 1
  {
    HeadIsObject(z, g);
    var z' := ObjMalloc(z, g, h);
    if !Huge(g) {
      var ws := Words(z.pages, g);
      var xs :| FreeList(ws, HasWaste(g), z.freeobj, z.inuse, xs);
      Pop(ws, HasWaste(g), z.freeobj, z.inuse, xs, h + 1);
      PutWordWords(z.pages, g, z.freeobj, h + 1);
      PutWordOnly(z, g, z.freeobj, h + 1, z');
      assert ListOk(z', g);
    }
  }

  lemma InuseTagged(z: Zspage, g: Class)
    requires Good(z, g)
    ensures z.inuse > 0 <==> exists i :: 0 <= i < g.objs && Header(z, g, i) % 2 == 1
  {
    if Huge(g) {
      assert z.inuse > 0 ==> Header(z, g, 0) % 2 == 1;
    } else {
      var ws := Words(z.pages, g);
      var xs :| FreeList(ws, HasWaste(g), z.freeobj, z.inuse, xs);
      InuseIffTagged(ws, HasWaste(g), z.freeobj, z.inuse, xs);
      assert forall i :: 0 <= i < g.objs ==> ws[i] == Header(z, g, i);
    }
  }

  /** obj_free keeps the free-list invariant, untags the object and touches no other. */
  lemma FreeEffect(z: Zspage, g: Class, i: nat)
    requires Good(z, g) && i < g.objs && Header(z, g, i) % 2 == 1
    ensures z.inuse > 0
    ensures var z' := ObjFree(z, g, i);
            && Shape(z', g) && Good(z', g) && OnlyObject(z, z', g, i) && Header(z', g, i) % 2 == 0
            && z'.inuse == z.inuse - 1
  {
    InuseTagged(z, g);
    var z' := ObjFree(z, g, i);
    if !Huge(g) {
      var ws := Words(z.pages, g);
      var xs :| FreeList(ws, HasWaste(g), z.freeobj, z.inuse, xs);
      var ys := Push(ws, HasWaste(g), z.freeobj, z.inuse, xs, i);
      PutWordWords(z.pages, g, i, LinkWord(z.freeobj));
      PutWordOnly(z, g, i, LinkWord(z.freeobj), z');
      assert i in ys;
      assert ListOk(z', g);
    }
  }

  /** A payload store leaves every header word as it was. */
  lemma PayloadKeepsWords(c: Chain, g: Class, i: nat, payload: seq<int>, c': Chain)
    requires ClassOk(g) && Wf(c) && |c| == g.pages && i < g.objs && !Huge(g) && |payload| == PayloadSize(g)
    requires Start(g, i) + g.size <= g.pages * 512
    requires Wrote(c, Start(g, i) + HeaderSize(g), payload, c')
    ensures forall j: nat :: IsSlot(g, j) ==> Word(c', g, j) == Word(c, g, j)
    ensures Words(c', g) == Words(c, g)
  {
    forall j: nat | IsSlot(g, j) ensures Word(c', g, j) == Word(c, g, j) {
      if j != i { WordFrame(c, g, i, Start(g, i) + HeaderSize(g), payload, c', j); }
    }
  }

  lemma WriteKeepsGood(z: Zspage, g: Class, i: nat, payload: seq<int>, c': Chain)
    requires Good(z, g) && i < g.objs && |payload| == PayloadSize(g)
    requires Start(g, i) + g.size <= g.pages * 512
    requires Wrote(z.pages, Start(g, i) + HeaderSize(g), payload, c')
    ensures Good(z.(pages := c'), g) && Header(z.(pages := c'), g, i) == Header(z, g, i)
  {
    if !Huge(g) {
      PayloadKeepsWords(z.pages, g, i, payload, c');
      hide Wrote, FreeList, FirstOff, Words;
      assert ListOk(z.(pages := c'), g);
    }
  }

  /** A payload store keeps the free-list invariant and is what the owner reads back. */
  lemma WriteEffect(z: Zspage, g: Class, i: nat, payload: seq<int>, c': Chain)
    requires Good(z, g) && i < g.objs && |payload| == PayloadSize(g)
    requires Start(g, i) + g.size <= g.pages * 512
    requires Wrote(z.pages, Start(g, i) + HeaderSize(g), payload, c')
    ensures var z' := z.(pages := c');
            && Shape(z', g) && Good(z', g) && OnlyObject(z, z', g, i) && Header(z', g, i) == Header(z, g, i)
            && Payload(z', g, i) == payload
  {
    WriteKeepsGood(z, g, i, payload, c');
    assert Shape(z, g) && Shape(z.(pages := c'), g);
    hide Good, Wrote, OnlyObject;
    StoreOnly(z, g, i, Start(g, i) + HeaderSize(g), payload, z.(pages := c'));
    WroteReads(z.pages, Start(g, i) + HeaderSize(g), payload, c');
  }

  /** A whole-object copy whose header word is already there is a payload store. */
  lemma CopyIsStore(c: Chain, g: Class, i: nat, data: seq<int>, c': Chain)
    requires ClassOk(g) && Wf(c) && |c| == g.pages && i < g.objs && !Huge(g) && |data| == g.size
    requires Start(g, i) + g.size <= g.pages * 512
    requires Wrote(c, Start(g, i), data, c') && data[0] == Word(c, g, i)
    ensures Wrote(c, Start(g, i) + HeaderSize(g), data[1..], c')
  {
  }

  /** The words of an object are its header and its payload. */
  lemma ObjectWords(z: Zspage, g: Class, i: nat)
    requires Shape(z, g) && !Huge(g) && i < g.objs && Start(g, i) + g.size <= g.pages * 512
    ensures Read(z.pages, Start(g, i), g.size)[0] == Header(z, g, i) == Word(z.pages, g, i)
    ensures Read(z.pages, Start(g, i), g.size)[1..] == Payload(z, g, i)
  {
  }
}
