/**
 Handles and the objects they record.  The pool's meaning is a map from live handle to
 payload; each operation is stated here as its effect on that map.
 */
module ZsHandles {

  /** Object `idx` of zspage `zid`. */
  datatype Key = Key(zid: nat, idx: nat)

  /** An object's header word, its payload and the page frame on which it starts. */
  datatype Slot = Slot(header: int, payload: seq<int>, home: nat)

  /** `owner` is page_private of each page frame; `handles` is what each live handle records. */
  datatype Table = Table(slots: map<Key, Slot>, owner: map<nat, nat>, handles: map<int, nat>)

  /** location_to_obj, with OBJ_INDEX_BITS == 28. */
  function LocationToObj(pfn: nat, idx: nat): nat {
    pfn * 0x1000_0000 + idx % 0x1000_0000
  }

  /** obj_to_location */
  function ObjPfn(obj: nat): nat { obj / 0x1000_0000 }
  function ObjIdx(obj: nat): nat { obj % 0x1000_0000 }

  lemma LocationRound(pfn: nat, idx: nat)
    requires idx < 0x1000_0000
    ensures ObjPfn(LocationToObj(pfn, idx)) == pfn && ObjIdx(LocationToObj(pfn, idx)) == idx
  {
  }

  /** Handles are aligned addresses, so `handle | OBJ_ALLOCATED_TAG` adds one. */
  predicate IsHandle(h: int) {
    h > 0 && h % 2 == 0
  }

  /** A page frame belongs to the zspage whose object starts there; a tagged object's handle records it. */
  ghost predicate SlotOk(t: Table, k: Key)
    requires k in t.slots
  {
    var s := t.slots[k];
    && k.idx < 0x1000_0000
    && s.home in t.owner && t.owner[s.home] == k.zid
    && (s.header % 2 == 1 ==>
          s.header - 1 in t.handles && t.handles[s.header - 1] == LocationToObj(s.home, k.idx))
  }

  /** The object that the code finds from handle `h`. */
  function Where(t: Table, h: int): Key
    requires h in t.handles && ObjPfn(t.handles[h]) in t.owner
  {
    Key(t.owner[ObjPfn(t.handles[h])], ObjIdx(t.handles[h]))
  }

  /** A handle records a tagged object whose header carries it. */
  ghost predicate HandleOk(t: Table, h: int)
    requires h in t.handles
  {
    && IsHandle(h)
    && ObjPfn(t.handles[h]) in t.owner
    && Where(t, h) in t.slots
    && t.slots[Where(t, h)].header == h + 1
  }

  ghost predicate Inv(t: Table) {
    && (forall k :: k in t.slots ==> SlotOk(t, k))
    && (forall h :: h in t.handles ==> HandleOk(t, h))
  }

  /** A tagged object is where its handle leads. */
  lemma Found(t: Table, k: Key)
    requires Inv(t) && k in t.slots && t.slots[k].header % 2 == 1
    ensures var h := t.slots[k].header - 1;
            h in t.handles && HandleOk(t, h) && Where(t, h) == k && ObjPfn(t.handles[h]) == t.slots[k].home
  {
    assert SlotOk(t, k);
    LocationRound(t.slots[k].home, k.idx);
  }

  /** The abstract value of the pool: what each live handle's owner reads. */
  ghost function Abs(t: Table): map<int, seq<int>>
    requires Inv(t)
  {
    map h | h in t.handles :: assert HandleOk(t, h); t.slots[Where(t, h)].payload
  }

  /** Handing an untagged object to a new handle adds exactly that handle. */
  lemma AddHandle(t: Table, k: Key, h: int, payload: seq<int>) returns (t': Table)
    requires Inv(t) && k in t.slots && IsHandle(h) && h !in t.handles && t.slots[k].header % 2 == 0
    ensures t' == Table(t.slots[k := Slot(h + 1, payload, t.slots[k].home)], t.owner,
                        t.handles[h := LocationToObj(t.slots[k].home, k.idx)])
    ensures Inv(t') && Abs(t') == Abs(t)[h := payload]
  {
    t' := Table(t.slots[k := Slot(h + 1, payload, t.slots[k].home)], t.owner,
                t.handles[h := LocationToObj(t.slots[k].home, k.idx)]);
    assert SlotOk(t, k);
    LocationRound(t.slots[k].home, k.idx);
    forall j | j in t'.slots ensures SlotOk(t', j) { assert SlotOk(t, j); }
    forall g | g in t'.handles ensures HandleOk(t', g) {
      if g != h { assert HandleOk(t, g) && Where(t, g) != k; }
    }
  }

  /** Untagging a handle's object and forgetting the handle removes exactly that handle. */
  lemma RemoveHandle(t: Table, k: Key, header: int, payload: seq<int>) returns (t': Table)
    requires Inv(t) && k in t.slots && t.slots[k].header % 2 == 1 && header % 2 == 0
    ensures t' == Table(t.slots[k := Slot(header, payload, t.slots[k].home)], t.owner,
                        t.handles - {t.slots[k].header - 1})
    ensures Inv(t') && Abs(t') == Abs(t) - {t.slots[k].header - 1}
  {
    var h := t.slots[k].header - 1;
    t' := Table(t.slots[k := Slot(header, payload, t.slots[k].home)], t.owner, t.handles - {h});
    Found(t, k);
    forall j | j in t'.slots ensures SlotOk(t', j) {
      assert SlotOk(t, j);
      if j != k && t.slots[j].header % 2 == 1 { Found(t, j); }
    }
    forall g | g in t'.handles ensures HandleOk(t', g) && Where(t', g) == Where(t, g) != k { assert HandleOk(t, g); }
  }

  /** Storing a payload changes exactly what that handle reads. */
  lemma WriteHandle(t: Table, k: Key, payload: seq<int>) returns (t': Table)
    requires Inv(t) && k in t.slots && t.slots[k].header % 2 == 1
    ensures t' == Table(t.slots[k := t.slots[k].(payload := payload)], t.owner, t.handles)
    ensures Inv(t') && Abs(t') == Abs(t)[t.slots[k].header - 1 := payload]
  {
    t' := Table(t.slots[k := t.slots[k].(payload := payload)], t.owner, t.handles);
    Found(t, k);
    forall j | j in t'.slots ensures SlotOk(t', j) { assert SlotOk(t, j); }
    forall g | g in t'.handles ensures HandleOk(t', g) && Where(t', g) == Where(t, g) { assert HandleOk(t, g); }
  }

  /** A new zspage, nothing tagged, on page frames that no zspage uses. */
  lemma AddZspage(t: Table, zid: nat, slots: map<Key, Slot>, pfns: set<nat>) returns (t': Table)
    requires Inv(t)
    requires forall k :: k in slots ==> k !in t.slots && k.zid == zid && k.idx < 0x1000_0000
    requires forall k :: k in slots ==> slots[k].home in pfns && slots[k].header % 2 == 0
    requires forall p :: p in pfns ==> p !in t.owner
    ensures t' == Table(t.slots + slots, t.owner + (map p | p in pfns :: zid), t.handles)
    ensures Inv(t') && Abs(t') == Abs(t)
  {
    t' := Table(t.slots + slots, t.owner + (map p | p in pfns :: zid), t.handles);
    forall k | k in t'.slots ensures SlotOk(t', k) {
      if k !in slots { assert SlotOk(t, k); }
    }
    forall g | g in t'.handles ensures HandleOk(t', g) && Where(t', g) == Where(t, g) && Where(t, g) !in slots { assert HandleOk(t, g); }
  }

  /** Giving up a zspage with nothing tagged. */
  lemma DropZspage(t: Table, slots: set<Key>, pfns: set<nat>) returns (t': Table)
    requires Inv(t)
    requires forall k :: k in t.slots ==> (k in slots <==> t.slots[k].home in pfns)
    requires forall k :: k in t.slots && k in slots ==> t.slots[k].header % 2 == 0
    ensures t' == Table(t.slots - slots, t.owner - pfns, t.handles)
    ensures Inv(t') && Abs(t') == Abs(t)
  {
    t' := Table(t.slots - slots, t.owner - pfns, t.handles);
    forall k | k in t'.slots ensures SlotOk(t', k) { assert SlotOk(t, k); }
    forall g | g in t'.handles ensures HandleOk(t', g) && Where(t', g) == Where(t, g) {
      assert HandleOk(t, g);
      Found(t, Where(t, g));
    }
  }

  /** An object that starts on page frame `page` starts on `newpage` instead. */
  function Rehome(s: Slot, page: nat, newpage: nat): Slot {
    if s.home == page then s.(home := newpage) else s
  }

  function Rerecord(obj: nat, page: nat, newpage: nat): nat {
    if ObjPfn(obj) == page then LocationToObj(newpage, ObjIdx(obj)) else obj
  }

  /** Replacing one page frame and re-recording the handles of the objects that start on it. */
  lemma ReplacePage(t: Table, page: nat, newpage: nat) returns (t': Table)
    requires Inv(t) && page in t.owner && newpage !in t.owner
    ensures t' == Table(map k | k in t.slots :: Rehome(t.slots[k], page, newpage),
                        (t.owner - {page})[newpage := t.owner[page]],
                        map h | h in t.handles :: Rerecord(t.handles[h], page, newpage))
    ensures Inv(t') && Abs(t') == Abs(t)
  {
    t' := Table(map k | k in t.slots :: Rehome(t.slots[k], page, newpage),
                (t.owner - {page})[newpage := t.owner[page]],
                map h | h in t.handles :: Rerecord(t.handles[h], page, newpage));
    forall k | k in t'.slots ensures SlotOk(t', k) {
      assert SlotOk(t, k);
      if t.slots[k].header % 2 == 1 { Found(t, k); }
    }
    forall g | g in t'.handles ensures HandleOk(t', g) && Where(t', g) == Where(t, g) {
      assert HandleOk(t, g);
      LocationRound(newpage, ObjIdx(t.handles[g]));
    }
  }
}
