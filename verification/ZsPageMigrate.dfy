/** zs_page_migrate: one page of a zspage is replaced by another page frame. */
module ZsPageMigrate {
  import opened ZsChain
  import opened ZsPage
  import opened ZsHandles
  import opened ZsData
  import opened ZsMigrate

  /** replace_sub_page: the chain with `page`, found at place `p`, replaced. */
  method ReplaceSubPage(pfns: seq<nat>, page: nat, newpage: nat) returns (pfns': seq<nat>, p: nat)
    requires page in pfns && forall i, j :: 0 <= i < j < |pfns| ==> pfns[i] != pfns[j]
    ensures p < |pfns| && pfns[p] == page && pfns' == pfns[p := newpage]
  {
    pfns', p := [], |pfns|;
    for idx := 0 to |pfns|
      invariant |pfns'| == idx && (p < |pfns| ==> pfns[p] == page && p < idx)
      invariant forall i :: 0 <= i < idx ==> pfns'[i] == if i == p then newpage else pfns[i]
      invariant p >= |pfns| ==> page !in pfns[..idx]
    {
      if pfns[idx] == page {
        pfns' := pfns' + [newpage];
        p := idx;
      } else {
        pfns' := pfns' + [pfns[idx]];
      }
    }
    assert pfns[..|pfns|] == pfns;
  }

  /** What the page frames hold. */
  type Frames = map<nat, seq<int>>

  /** The frames of a chain. */
  function FramesOf(pfns: seq<nat>, pages: Chain): Frames
    requires |pfns| == |pages|
  {
    if pfns == [] then map[]
    else FramesOf(pfns[..|pfns| - 1], pages[..|pages| - 1])[pfns[|pfns| - 1] := pages[|pages| - 1]]
  }

  /** The chain that frames hold. */
  function ChainOf(pfns: seq<nat>, frames: Frames): (c: Chain)
    requires forall i :: 0 <= i < |pfns| ==> pfns[i] in frames
    ensures |c| == |pfns| && forall i :: 0 <= i < |pfns| ==> c[i] == frames[pfns[i]]
  {
    seq(|pfns|, i requires 0 <= i < |pfns| => frames[pfns[i]])
  }

  lemma {:induction false} FramesHold(pfns: seq<nat>, pages: Chain)
    requires |pfns| == |pages| && forall i, j :: 0 <= i < j < |pfns| ==> pfns[i] != pfns[j]
    ensures FramesOf(pfns, pages).Keys == (set f | f in pfns)
    ensures forall i :: 0 <= i < |pfns| ==> pfns[i] in FramesOf(pfns, pages) && FramesOf(pfns, pages)[pfns[i]] == pages[i]
  {
    if pfns != [] {
      FramesHold(pfns[..|pfns| - 1], pages[..|pages| - 1]);
      assert pfns == pfns[..|pfns| - 1] + [pfns[|pfns| - 1]];
    }
  }

  /** copy_page: with the old frame's contents in the new one, the chain on the new frames holds what the old one held. */
  lemma CopiedChain(pfns: seq<nat>, pages: Chain, p: nat, newpage: nat, frames: Frames, pfns': seq<nat>)
    requires |pfns| == |pages| && p < |pfns| && newpage !in pfns && forall i, j :: 0 <= i < j < |pfns| ==> pfns[i] != pfns[j]
    requires pfns' == pfns[p := newpage] && pfns[p] in FramesOf(pfns, pages)
    requires frames == FramesOf(pfns, pages)[newpage := FramesOf(pfns, pages)[pfns[p]]]
    ensures (forall i :: 0 <= i < |pfns'| ==> pfns'[i] in frames) && ChainOf(pfns', frames) == pages
  {
    FramesHold(pfns, pages);
  }

  /** The object of `h` starts on frame `page`, and its slot is below `n`. */
  ghost predicate OnPageBelow(d: Data, page: nat, n: nat, h: int)
    requires h in d.handles
  {
    ObjPfn(d.handles[h]) == page && ObjIdx(d.handles[h]) < n
  }

  /** The handles when those of the objects on `page` below slot `n` have been recorded anew. */
  ghost predicate RecordedTo(d: Data, page: nat, newpage: nat, n: nat, hs: map<int, nat>) {
    && hs.Keys == d.handles.Keys
    && forall h :: h in hs ==> hs[h] == if OnPageBelow(d, page, n, h) then LocationToObj(newpage, ObjIdx(d.handles[h])) else d.handles[h]
  }

  /** A handle records the page on which its object starts. */
  lemma HandleHome(d: Data, cs: seq<Class>, h: int)
    requires DataOk(d, cs) && h in d.handles
    ensures ObjPfn(d.handles[h]) in d.owner && ZspageOk(d, cs, ZidOf(d, h)) && IdxOf(d, h) < ClassOf(d, cs, ZidOf(d, h)).objs
    ensures ObjPfn(d.handles[h]) == ObjPage(d.zspages[ZidOf(d, h)], ClassOf(d, cs, ZidOf(d, h)), IdxOf(d, h))
    ensures Header(d.zspages[ZidOf(d, h)], ClassOf(d, cs, ZidOf(d, h)), IdxOf(d, h)) == h + 1 && IsHandle(h)
  {
    hide Good, Shape, Header, Payload, ObjPage, OwnerOk;
    Lookup(d, cs, h);
    var t := TableOf(d, cs);
    Found(t, Where(t, h));
  }

  /** Page `p` of zspage `zid` is frame `page`; slot `first` is the first that starts on it. */
  ghost predicate PageAt(d: Data, cs: seq<Class>, zid: nat, p: nat, page: nat, first: nat) {
    && ZspageOk(d, cs, zid) && p < ClassOf(d, cs, zid).pages
    && d.zspages[zid].pfns[p] == page
    && FirstOn(d.zspages[zid], ClassOf(d, cs, zid), p, first)
  }

  /** The handles recorded on `page` are those of the tagged objects that start on it. */
  lemma OnPage(d: Data, cs: seq<Class>, zid: nat, p: nat, page: nat, first: nat, h: int)
    requires DataOk(d, cs) && PageAt(d, cs, zid, p, page, first) && h in d.handles && ObjPfn(d.handles[h]) == page
    ensures ObjIdx(d.handles[h]) < ClassOf(d, cs, zid).objs && first <= ObjIdx(d.handles[h])
    ensures p * 512 <= Start(ClassOf(d, cs, zid), ObjIdx(d.handles[h])) < (p + 1) * 512
    ensures Header(d.zspages[zid], ClassOf(d, cs, zid), ObjIdx(d.handles[h])) == h + 1 && h % 2 == 0
  {
    hide Inv, Good, Header, FirstOff;
    HandleHome(d, cs, h);
    var z, g, i := d.zspages[zid], ClassOf(d, cs, zid), ObjIdx(d.handles[h]);
    assert ZidOf(d, h) == zid;
    StartRoom(g, i);
    var q := Start(g, i) / 512;
    assert z.pfns[q] == z.pfns[p];
    assert q == p;
    if i < first { StartSep(g, i, first); }
  }

  /** One tagged object's handle is recorded anew. */
  lemma RecordNext(d: Data, cs: seq<Class>, zid: nat, p: nat, page: nat, newpage: nat, first: nat, n: nat, hs: map<int, nat>, h: int)
    requires DataOk(d, cs) && PageAt(d, cs, zid, p, page, first) && RecordedTo(d, page, newpage, n, hs)
    requires n < ClassOf(d, cs, zid).objs && p * 512 <= Start(ClassOf(d, cs, zid), n) < (p + 1) * 512
    requires Header(d.zspages[zid], ClassOf(d, cs, zid), n) == h + 1 && h % 2 == 0
    ensures h in hs && ObjIdx(hs[h]) == n
    ensures RecordedTo(d, page, newpage, n + 1, hs[h := LocationToObj(newpage, ObjIdx(hs[h]))])
  {
    hide DataOk, Good, Header, OwnerOk;
    HandleAt(d, cs, zid, n, h);
    HandleHome(d, cs, h);
    assert ObjPfn(d.handles[h]) == page by {
      assert Start(ClassOf(d, cs, zid), n) / 512 == p;
    }
    hide Start;
    forall k | k in hs && k != h
      ensures hs[k] == if OnPageBelow(d, page, n + 1, k) then LocationToObj(newpage, ObjIdx(d.handles[k])) else d.handles[k]
    {
      if ObjPfn(d.handles[k]) == page && ObjIdx(d.handles[k]) == n {
        OnPage(d, cs, zid, p, page, first, k);
      }
    }
  }

  /** A slot with no tag needs no record. */
  lemma RecordSkip(d: Data, cs: seq<Class>, zid: nat, p: nat, page: nat, newpage: nat, first: nat, n: nat, hs: map<int, nat>)
    requires DataOk(d, cs) && PageAt(d, cs, zid, p, page, first) && RecordedTo(d, page, newpage, n, hs)
    requires n < ClassOf(d, cs, zid).objs ==> Header(d.zspages[zid], ClassOf(d, cs, zid), n) % 2 == 0
    ensures RecordedTo(d, page, newpage, n + 1, hs)
  {
    hide DataOk, Good, Header, PageAt, LocationToObj;
    forall k | k in hs
      ensures hs[k] == if OnPageBelow(d, page, n + 1, k) then LocationToObj(newpage, ObjIdx(d.handles[k])) else d.handles[k]
    {
      if ObjPfn(d.handles[k]) == page && ObjIdx(d.handles[k]) == n {
        OnPage(d, cs, zid, p, page, first, k);
      }
    }
  }

  /** record_obj for the handle in word `w`, if it is tagged. */
  function Rerecorded(hs: map<int, nat>, w: int, newpage: nat): map<int, nat> {
    if w % 2 == 1 && w - 1 in hs then hs[w - 1 := LocationToObj(newpage, ObjIdx(hs[w - 1]))] else hs
  }

  /** The slots of a page, one after the other. */
  ghost predicate SlotHere(g: Class, p: nat, offset: nat, n: nat) {
    offset < 512 && Start(g, n) == p * 512 + offset
  }

  lemma RecordStep(d: Data, cs: seq<Class>, zid: nat, p: nat, page: nat, newpage: nat, first: nat, n: nat, hs: map<int, nat>, g: Class, offset: nat)
    requires DataOk(d, cs) && PageAt(d, cs, zid, p, page, first) && RecordedTo(d, page, newpage, n, hs)
    requires g == ClassOf(d, cs, zid) && !Huge(g) && SlotHere(g, p, offset, n)
    ensures var w := TagWord(d.zspages[zid], g, p, offset);
            (w % 2 == 1 ==> w - 1 in hs) && RecordedTo(d, page, newpage, n + 1, Rerecorded(hs, w, newpage))
  {
    hide DataOk, Good, Header, TagWord, RecordedTo, Rerecorded, OnPageBelow;
    var w := TagWord(d.zspages[zid], g, p, offset);
    TagWordIsHeader(d.zspages[zid], g, p, offset, n);
    RerecordedIs(hs, w, newpage);
    if w % 2 == 1 {
      RecordNext(d, cs, zid, p, page, newpage, first, n, hs, w - 1);
    } else {
      RecordSkip(d, cs, zid, p, page, newpage, first, n, hs);
    }
  }

  /** A huge page has one object, recorded at the first step; the later steps repeat it. */
  lemma RecordHuge(d: Data, cs: seq<Class>, zid: nat, page: nat, newpage: nat, n: nat, hs: map<int, nat>, g: Class)
    requires DataOk(d, cs) && PageAt(d, cs, zid, 0, page, 0) && RecordedTo(d, page, newpage, n, hs)
    requires g == ClassOf(d, cs, zid) && Huge(g)
    ensures var w := d.zspages[zid].tag;
            (w % 2 == 1 ==> w - 1 in hs) && RecordedTo(d, page, newpage, n + 1, Rerecorded(hs, w, newpage))
  {
    hide DataOk, Good, Header, RecordedTo, Rerecorded;
    var w := d.zspages[zid].tag;
    HugeTag(d, cs, zid, page, g);
    if n == 0 {
      if w % 2 == 1 {
        RecordNext(d, cs, zid, 0, page, newpage, 0, 0, hs, w - 1);
      } else {
        RecordSkip(d, cs, zid, 0, page, newpage, 0, 0, hs);
      }
      RerecordedIs(hs, w, newpage);
    } else {
      RecordSkip(d, cs, zid, 0, page, newpage, 0, n, hs);
      RecordAgain(d, cs, zid, page, newpage, n, hs, g);
    }
  }

  lemma RerecordedIs(hs: map<int, nat>, w: int, newpage: nat)
    ensures Rerecorded(hs, w, newpage) == if w % 2 == 1 && w - 1 in hs then hs[w - 1 := LocationToObj(newpage, ObjIdx(hs[w - 1]))] else hs
  {
  }

  /** The header of the only object of a huge page is kept outside it. */
  lemma HugeTag(d: Data, cs: seq<Class>, zid: nat, page: nat, g: Class)
    requires PageAt(d, cs, zid, 0, page, 0) && g == ClassOf(d, cs, zid) && Huge(g)
    ensures d.zspages[zid].tag == Header(d.zspages[zid], g, 0) && g.objs == 1
  {
  }

  /** Recording the object again changes nothing. */
  lemma RecordAgain(d: Data, cs: seq<Class>, zid: nat, page: nat, newpage: nat, n: nat, hs: map<int, nat>, g: Class)
    requires DataOk(d, cs) && PageAt(d, cs, zid, 0, page, 0) && RecordedTo(d, page, newpage, n, hs) && n >= 1
    requires g == ClassOf(d, cs, zid) && Huge(g)
    ensures var w := d.zspages[zid].tag; (w % 2 == 1 ==> w - 1 in hs) && Rerecorded(hs, w, newpage) == hs
  {
    hide DataOk, Good, Header;
    var w := d.zspages[zid].tag;
    HugeTag(d, cs, zid, page, g);
    if w % 2 == 1 {
      HandleAt(d, cs, zid, 0, w - 1);
      HandleHome(d, cs, w - 1);
      LocationRound(newpage, 0);
    }
  }

  lemma AllRecorded(d: Data, cs: seq<Class>, zid: nat, p: nat, page: nat, newpage: nat, first: nat, n: nat, hs: map<int, nat>, g: Class)
    requires DataOk(d, cs) && PageAt(d, cs, zid, p, page, first) && RecordedTo(d, page, newpage, n, hs)
    requires g == ClassOf(d, cs, zid) && (if Huge(g) then n >= 1 else Start(g, n) >= (p + 1) * 512)
    ensures hs == map h | h in d.handles :: Rerecord(d.handles[h], page, newpage)
  {
    hide DataOk, Good, Header, Shape;
    forall h | h in hs ensures hs[h] == Rerecord(d.handles[h], page, newpage) {
      if ObjPfn(d.handles[h]) == page {
        OnPage(d, cs, zid, p, page, first, h);
        if !Huge(g) && n <= ObjIdx(d.handles[h]) { StartMono(g, n, ObjIdx(d.handles[h])); }
      }
    }
  }

  /** The loop of zs_page_migrate over the objects that start on the page. */
  method RecordObjects(d: Data, cs: seq<Class>, zid: nat, p: nat, page: nat, newpage: nat, ghost first: nat) returns (hs: map<int, nat>)
    requires DataOk(d, cs) && PageAt(d, cs, zid, p, page, first)
    ensures hs == map h | h in d.handles :: Rerecord(d.handles[h], page, newpage)
  {
    hide DataOk, Good, Header, RecordedTo, Start, ClassOk;
    var z, g := d.zspages[zid], ClassOf(d, cs, zid);
    GeometryFacts(z, g, p, first);
    hs := d.handles;
    var offset: nat := z.firstOff[p];
    ghost var n: nat := first;
    NothingBefore(d, cs, zid, p, page, newpage, first);
    while offset < 512
      invariant Start(g, n) == p * 512 + offset && RecordedTo(d, page, newpage, n, hs)
      invariant first <= n && (offset >= 512 ==> n > first)
      decreases 512 - offset
    {
      if Huge(g) {
        RecordHuge(d, cs, zid, page, newpage, n, hs, g);
      } else {
        RecordStep(d, cs, zid, p, page, newpage, first, n, hs, g, offset);
      }
      hs := Rerecorded(hs, TagWord(z, g, p, offset), newpage);
      StartNext(g, n);
      offset := offset + g.size;
      n := n + 1;
    }
    AllRecorded(d, cs, zid, p, page, newpage, first, n, hs, g);
  }

  lemma StartNext(g: Class, i: nat)
    ensures Start(g, i + 1) == Start(g, i) + g.size
  {
  }

  lemma GeometryFacts(z: Zspage, g: Class, p: nat, first: nat)
    requires Good(z, g) && Shape(z, g) && FirstOn(z, g, p, first)
    ensures g.size >= 2 && z.firstOff[p] < 512 && (Huge(g) ==> p == 0 && first == 0)
  {
    assert FirstOff(g, p, z.firstOff[p]);
    if Huge(g) { FirstIsNext(z, g, 0, first, 0); }
  }

  lemma NothingBefore(d: Data, cs: seq<Class>, zid: nat, p: nat, page: nat, newpage: nat, first: nat)
    requires DataOk(d, cs) && PageAt(d, cs, zid, p, page, first)
    ensures RecordedTo(d, page, newpage, first, d.handles)
  {
    hide DataOk, Good, Header, LocationToObj;
    forall h | h in d.handles ensures !OnPageBelow(d, page, first, h) {
      if ObjPfn(d.handles[h]) == page { OnPage(d, cs, zid, p, page, first, h); }
    }
  }
}
