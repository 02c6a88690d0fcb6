/** Threading the free list of a newly allocated zspage. */
module ZsInit {
  import opened ZsChain
  import opened ZsFreeList
  import opened ZsPage

  /** What init_zspage leaves in slot `i`: a link to the next slot, or the last link. */
  function FreshWord(g: Class, i: nat): int {
    if IsSlot(g, i + 1) then LinkWord(i + 1) else LastLink()
  }

  /** The first `n` slots are linked. */
  ghost predicate Linked(c: Chain, g: Class, n: nat)
    requires ClassOk(g) && Wf(c) && |c| == g.pages
  {
    forall i :: 0 <= i < n && IsSlot(g, i) ==> Word(c, g, i) == FreshWord(g, i)
  }

  /** The link cursor of init_zspage is on the slot before `freeobj`. */
  ghost predicate LinkAt(g: Class, page: nat, link: nat, freeobj: nat) {
    && link < 512 && page < g.pages && freeobj >= 1
    && page * 512 + link == Start(g, freeobj - 1)
  }

  lemma LinkStore(c: Chain, g: Class, page: nat, link: nat, freeobj: nat, w: int)
    requires ClassOk(g) && Wf(c) && |c| == g.pages && LinkAt(g, page, link, freeobj)
    requires Linked(c, g, freeobj - 1) && w == FreshWord(g, freeobj - 1)
    ensures var c' := c[page := c[page][link := w]];
            Wf(c') && |c'| == g.pages && Linked(c', g, freeobj)
  {
    var i := freeobj - 1;
    SlotIff(g, i);
    var a := page * 512 + link;
    assert a / 512 == page && a % 512 == link;
    assert c[page := c[page][link := w]] == PutWord(c, g, i, w);
    PutWordWords(c, g, i, w);
  }

  /** The slot after the one at (page, link): on this page, on the next, or none. */
  lemma LinkStep(g: Class, page: nat, link: nat, freeobj: nat)
    requires ClassOk(g) && LinkAt(g, page, link, freeobj)
    ensures IsSlot(g, freeobj - 1)
    ensures page * 512 + link + g.size == Start(g, freeobj)
    ensures link + g.size < 512 || page + 1 < g.pages ==> IsSlot(g, freeobj)
    ensures link + g.size >= 512 && page + 1 == g.pages ==> !IsSlot(g, freeobj)
    ensures link + g.size >= 512 ==> (link + g.size) % 512 == link + g.size - 512 < g.size
  {
    SlotIff(g, freeobj - 1);
    SlotIff(g, freeobj);
  }

  /** The links init_zspage writes on one page, up to the last object that starts there. */
  method LinkPage(c0: Chain, g: Class, page: nat, off0: nat, freeobj0: nat)
    returns (c: Chain, link: nat, freeobj: nat)
    requires ClassOk(g) && Wf(c0) && |c0| == g.pages && LinkAt(g, page, off0, freeobj0)
    requires Linked(c0, g, freeobj0 - 1)
    ensures Wf(c) && |c| == g.pages && LinkAt(g, page, link, freeobj) && link + g.size >= 512
    ensures Linked(c, g, freeobj - 1)
  {
    c := c0;
    freeobj := freeobj0;
    link := off0;
    var off := off0 + g.size;
    while off < 512
      invariant Wf(c) && |c| == g.pages && LinkAt(g, page, link, freeobj) && off == link + g.size
      invariant Linked(c, g, freeobj - 1)
    {
      LinkStep(g, page, link, freeobj);
      LinkStore(c, g, page, link, freeobj, LinkWord(freeobj));
      c := c[page := c[page][link := LinkWord(freeobj)]];
      freeobj := freeobj + 1;
      link := link + g.size;
      off := off + g.size;
    }
  }

  lemma FirstOffAt(g: Class, page: nat, off: nat, freeobj: nat)
    requires ClassOk(g) && LinkAt(g, page, off, freeobj) && off < g.size
    ensures FirstOff(g, page, off)
  {
    SlotIff(g, freeobj - 1);
  }

  /** Past the last slot there are no more. */
  lemma NoMoreSlots(g: Class, n: nat)
    requires ClassOk(g) && !IsSlot(g, n)
    ensures forall i: nat :: IsSlot(g, i) ==> i < n
  {
  }

  /** init_zspage: threads every object start of the chain into one list, page by page. */
  method InitZspage(c0: Chain, g: Class) returns (c: Chain, firstOff: seq<nat>)
    requires ClassOk(g) && Wf(c0) && |c0| == g.pages
    ensures Wf(c) && |c| == g.pages == |firstOff|
    ensures forall i: nat :: IsSlot(g, i) ==> Word(c, g, i) == FreshWord(g, i)
    ensures forall p :: 0 <= p < g.pages ==> FirstOff(g, p, firstOff[p])
  {
    var freeobj: nat, off: nat, page: nat := 1, 0, 0;
    c := c0;
    firstOff := [];
    while true
      invariant Wf(c) && |c| == g.pages && |firstOff| == page
      invariant LinkAt(g, page, off, freeobj) && off < g.size
      invariant Linked(c, g, freeobj - 1)
      invariant forall p :: 0 <= p < page ==> FirstOff(g, p, firstOff[p])
      decreases g.pages - page
    {
      firstOff := firstOff + [off];
      FirstOffAt(g, page, off, freeobj);
      hide FirstOff;
      var link;
      c, link, freeobj := LinkPage(c, g, page, off, freeobj);
      LinkStep(g, page, link, freeobj);
      if page + 1 < g.pages {
        LinkStore(c, g, page, link, freeobj, LinkWord(freeobj));
        c := c[page := c[page][link := LinkWord(freeobj)]];
        freeobj := freeobj + 1;
        off := (link + g.size) % 512;
        page := page + 1;
      } else {
        LinkStore(c, g, page, link, freeobj, LastLink());
        c := c[page := c[page][link := LastLink()]];
        NoMoreSlots(g, freeobj);
        break;
      }
    }
  }

  /** A freshly initialised zspage: every object free, in index order, nothing tagged. */
  lemma FreshGood(z: Zspage, g: Class)
    requires Shape(z, g) && z.inuse == 0 && z.freeobj == 0 && z.tag == 0
    requires forall i: nat :: IsSlot(g, i) ==> Word(z.pages, g, i) == FreshWord(g, i)
    requires forall p :: 0 <= p < g.pages ==> FirstOff(g, p, z.firstOff[p])
    ensures Good(z, g)
    ensures forall i :: 0 <= i < g.objs ==> Header(z, g, i) % 2 == 0
  {
    var ws := Words(z.pages, g);
    assert Fresh(ws, HasWaste(g)) by {
      assert forall i :: 0 <= i < |ws| ==> ws[i] == FreshWord(g, i);
    }
    FreshList(ws, HasWaste(g));
    assert forall i :: 0 <= i < g.objs ==> ws[i] == Word(z.pages, g, i);
    forall i | 0 <= i < g.objs ensures ws[i] % 2 == 0 {
      assert FreshOrder(|ws|, HasWaste(g))[i] == i;
    }
    if HasWaste(g) { assert Word(z.pages, g, g.objs) == FreshWord(g, g.objs); }
  }
}
