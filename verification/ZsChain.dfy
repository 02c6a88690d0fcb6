/**
 The memory of a zspage: a chain of 4 KiB pages seen as 8-byte words.

 Every offset and size zsmalloc computes with is a multiple of ZS_ALIGN (8 bytes), so a
 page is 512 words.  Address `a` of a chain is word `a % 512` of its page `a / 512`; an
 object may start near the end of one page and continue on the next.
 */
module ZsChain {

  type Chain = seq<seq<int>>

  /** The geometry of a size class; `size` is in words. */
  datatype Class = Class(size: nat, pages: nat, objs: nat, index: nat)

  /** `objs` is the number of whole objects in `pages` pages, and an object index fits OBJ_INDEX_BITS. */
  ghost predicate ClassOk(g: Class) {
    && 2 <= g.size <= 512
    && 1 <= g.pages
    && 1 <= g.objs < 0x1000_0000
    && Start(g, g.objs) <= g.pages * 512 < Start(g, g.objs + 1)
  }

  /** A huge class keeps its single object's handle outside the page. */
  predicate Huge(g: Class) {
    g.objs == 1 && g.pages == 1
  }

  predicate Wf(c: Chain) {
    forall i :: 0 <= i < |c| ==> |c[i]| == 512
  }

  function At(c: Chain, a: nat): int
    requires Wf(c) && a < |c| * 512
  {
    c[a / 512][a % 512]
  }

  /** The logical contents of `n` words from address `a`. */
  function Read(c: Chain, a: nat, n: nat): (r: seq<int>)
    requires Wf(c) && a + n <= |c| * 512
    ensures |r| == n
    ensures forall i :: 0 <= i < n ==> r[i] == At(c, a + i)
  {
    seq(n, i requires 0 <= i < n => At(c, a + i))
  }

  /** `c'` is `c` with `data` stored from address `a`, and nothing else changed. */
  ghost predicate Wrote(c: Chain, a: nat, data: seq<int>, c': Chain)
    requires Wf(c) && a + |data| <= |c| * 512
  {
    && Wf(c') && |c'| == |c|
    && forall x :: 0 <= x < |c| * 512 ==>
         At(c', x) == if a <= x < a + |data| then data[x - a] else At(c, x)
  }

  /** Where object `i` starts: `i` objects from the front. */
  function Start(g: Class, i: nat): nat {
    if i == 0 then 0 else Start(g, i - 1) + g.size
  }

  lemma {:induction false} StartIsProduct(g: Class, i: nat)
    ensures Start(g, i) == g.size * i
  {
    if i > 0 {
      StartIsProduct(g, i - 1);
      assert g.size * i == g.size * (i - 1) + g.size;
    }
  }

  lemma {:induction false} StartSep(g: Class, i: nat, j: nat)
    requires i < j
    ensures Start(g, i) + g.size <= Start(g, j)
  {
    if i + 1 < j { StartSep(g, i, j - 1); }
  }

  /** A whole object lies inside the chain. */
  lemma StartRoom(g: Class, i: nat)
    requires ClassOk(g) && i < g.objs
    ensures Start(g, i) + g.size <= g.pages * 512
  {
    StartSep(g, i, g.objs);
  }

  /** memcpy into one page. */
  function PageWrite(p: seq<int>, off: nat, data: seq<int>): seq<int>
    requires off + |data| <= |p|
  {
    p[..off] + data + p[off + |data|..]
  }

  lemma PageWriteChain(c: Chain, k: nat, off: nat, data: seq<int>)
    requires Wf(c) && k < |c| && off + |data| <= 512
    ensures Wrote(c, k * 512 + off, data, c[k := PageWrite(c[k], off, data)])
  {
    var c' := c[k := PageWrite(c[k], off, data)];
    forall x | 0 <= x < |c| * 512
      ensures At(c', x) == if k * 512 + off <= x < k * 512 + off + |data| then data[x - (k * 512 + off)] else At(c, x)
    {
      var q, r := x / 512, x % 512;
      assert x == q * 512 + r;
    }
  }

  /** Stores one word. */
  function Put(c: Chain, a: nat, w: int): (c': Chain)
    requires Wf(c) && a < |c| * 512
    ensures Wf(c') && |c'| == |c|
  {
    c[a / 512 := c[a / 512][a % 512 := w]]
  }

  lemma PutWrote(c: Chain, a: nat, w: int)
    requires Wf(c) && a < |c| * 512
    ensures Wrote(c, a, [w], Put(c, a, w))
  {
    PageWriteChain(c, a / 512, a % 512, [w]);
    assert c[a / 512][a % 512 := w] == PageWrite(c[a / 512], a % 512, [w]);
  }

  lemma WroteTwice(c: Chain, a: nat, d1: seq<int>, c1: Chain, d2: seq<int>, c2: Chain)
    requires Wf(c) && a + |d1| + |d2| <= |c| * 512
    requires Wrote(c, a, d1, c1) && Wrote(c1, a + |d1|, d2, c2)
    ensures Wrote(c, a, d1 + d2, c2)
  {
  }

  lemma WroteReads(c: Chain, a: nat, data: seq<int>, c': Chain)
    requires Wf(c) && a + |data| <= |c| * 512
    requires Wrote(c, a, data, c')
    ensures Read(c', a, |data|) == data
  {
  }

  /** A read of a range that a write does not touch is unchanged by it. */
  lemma WroteElsewhere(c: Chain, a: nat, data: seq<int>, c': Chain, b: nat, n: nat)
    requires Wf(c) && a + |data| <= |c| * 512 && b + n <= |c| * 512
    requires Wrote(c, a, data, c')
    requires b + n <= a || a + |data| <= b
    ensures Read(c', b, n) == Read(c, b, n)
  {
  }

  /** zs_map_object in read-write mode: the whole object, through the copy buffer if it spans two pages. */
  method MapObject(c: Chain, g: Class, idx: nat) returns (buf: seq<int>, straddle: bool)
    requires ClassOk(g) && Wf(c) && |c| == g.pages && idx < g.objs
    ensures Start(g, idx) + g.size <= |c| * 512
    ensures buf == Read(c, Start(g, idx), g.size)
    ensures straddle <==> Start(g, idx) / 512 != (Start(g, idx) + g.size - 1) / 512
  {
    hide Start, Read;
    StartRoom(g, idx);
    var a := g.size * idx;
    StartIsProduct(g, idx);
    PageOf(c, a, g.size);
    var page, off := a / 512, a % 512;
    if off + g.size <= 512 {
      straddle := false;
      buf := c[page][off..off + g.size];
    } else {
      straddle := true;
      var size0 := 512 - off;
      var size1 := g.size - size0;
      buf := c[page][off..] + c[page + 1][..size1];
    }
  }

  /** A range of at most a page's length, read from the page it begins on and perhaps the next. */
  lemma PageOf(c: Chain, a: nat, n: nat)
    requires Wf(c) && 1 <= n <= 512 && a + n <= |c| * 512
    ensures var page, off := a / 512, a % 512;
            && page < |c| && |c[page]| == 512
            && (off + n <= 512 <==> page == (a + n - 1) / 512)
            && (off + n <= 512 ==> c[page][off..off + n] == Read(c, a, n))
            && (off + n > 512 ==>
              page + 1 < |c| && |c[page + 1]| == 512 && c[page][off..] + c[page + 1][..n - (512 - off)] == Read(c, a, n))
  {
    var page, off, r := a / 512, a % 512, Read(c, a, n);
    assert a == page * 512 + off;
    if off + n <= 512 {
      forall i | 0 <= i < n ensures c[page][off + i] == r[i] {
        assert (a + i) / 512 == page && (a + i) % 512 == off + i;
      }
    } else {
      var s := c[page][off..] + c[page + 1][..n - (512 - off)];
      forall i | 0 <= i < n ensures s[i] == r[i] {
        assert (a + i) / 512 == (if i < 512 - off then page else page + 1);
        assert (a + i) % 512 == (if i < 512 - off then off + i else i - (512 - off));
      }
    }
  }

  /** zs_unmap_object after a read-write mapping: writes back the payload and never the header word. */
  method UnmapObject(c: Chain, g: Class, idx: nat, payload: seq<int>) returns (c': Chain)
    requires ClassOk(g) && Wf(c) && |c| == g.pages && idx < g.objs
    requires |payload| == PayloadSize(g)
    ensures Start(g, idx) + g.size <= |c| * 512
    ensures Wrote(c, Start(g, idx) + HeaderSize(g), payload, c')
  {
    hide Start, Wrote, PageWrite;
    StartRoom(g, idx);
    var a := g.size * idx;
    StartIsProduct(g, idx);
    var page, off := a / 512, a % 512;
    assert a == page * 512 + off && page < |c| && (off + g.size > 512 ==> page + 1 < |c|);
    if off + g.size <= 512 {
      c' := c[page := PageWrite(c[page], off + HeaderSize(g), payload)];
      PageWriteChain(c, page, off + HeaderSize(g), payload);
    } else {
      off := off + HeaderSize(g);
      var size0 := 512 - off;
      WriteTwoPages(c, page, off, payload);
      var c1 := c[page := PageWrite(c[page], off, payload[..size0])];
      c' := c1[page + 1 := PageWrite(c1[page + 1], 0, payload[size0..])];
    }
  }

  /** A write that goes on at the beginning of the next page. */
  lemma WriteTwoPages(c: Chain, page: nat, off: nat, data: seq<int>)
    requires Wf(c) && page + 1 < |c| && off <= 512 <= off + |data| <= 1024
    ensures |c[page]| == 512 && |c[page + 1]| == 512
    ensures var size0 := 512 - off;
            var c1 := c[page := PageWrite(c[page], off, data[..size0])];
            Wrote(c, page * 512 + off, data, c1[page + 1 := PageWrite(c1[page + 1], 0, data[size0..])])
  {
    var size0 := 512 - off;
    var c1 := c[page := PageWrite(c[page], off, data[..size0])];
    var c2 := c1[page + 1 := PageWrite(c1[page + 1], 0, data[size0..])];
    PageWriteChain(c, page, off, data[..size0]);
    PageWriteChain(c1, page + 1, 0, data[size0..]);
    hide PageWrite, Wrote;
    WroteTwice(c, page * 512 + off, data[..size0], c1, data[size0..], c2);
    assert data[..size0] + data[size0..] == data;
  }

  /** One word of handle precedes the payload, except in huge classes. */
  function HeaderSize(g: Class): nat {
    if Huge(g) then 0 else 1
  }

  function PayloadSize(g: Class): nat {
    if g.size > 0 then g.size - HeaderSize(g) else 0
  }

  /** A page, an offset in it and the words of the object left on that page. */
  datatype Cursor = Cursor(page: nat, off: nat, left: nat)

  /** The cursor of a copy of `n` words from address `a` of which `written` are done. */
  ghost predicate CursorAt(u: Cursor, a: nat, n: nat, written: nat) {
    && u.off < 512 && written <= n
    && u.page * 512 + u.off == a + written
    && u.left == (if u.off + (n - written) > 512 then 512 - u.off else n - written)
  }

  /** Moves a cursor on by `size` words, to the next page if this one is used up. */
  function Advance(u: Cursor, size: nat, remaining: nat): Cursor
    requires size <= u.left
  {
    if u.off + size >= 512 then Cursor(u.page + 1, 0, remaining)
    else Cursor(u.page, u.off + size, u.left - size)
  }

  lemma AdvanceKeeps(u: Cursor, a: nat, n: nat, written: nat, size: nat)
    requires CursorAt(u, a, n, written) && n <= 512 && size <= u.left && written + size < n
    ensures CursorAt(Advance(u, size, n - written - size), a, n, written + size)
    ensures Advance(u, size, n - written - size).page >= u.page
    ensures size == u.left ==> Advance(u, size, n - written - size).page == u.page + 1
  {
  }

  /** A cursor inside the object is on the object's first or second page. */
  lemma CursorPage(u: Cursor, a: nat, n: nat, written: nat, pages: nat)
    requires CursorAt(u, a, n, written) && n <= 512 && written < n && a + n <= pages * 512
    ensures a / 512 <= u.page <= a / 512 + 1 && u.page < pages
    ensures 1 <= u.left && u.off + u.left <= 512 && written + u.left <= n
  {
  }

  function ObjectCursor(a: nat, n: nat): Cursor {
    Cursor(a / 512, a % 512, if a % 512 + n > 512 then 512 - a % 512 else n)
  }

  /** One page-bounded memcpy extends a contiguous copy by `size` words. */
  lemma CopyPiece(src: Chain, dst: Chain, d: Chain, s0: nat, d0: nat, n: nat, written: nat, size: nat,
                  s: Cursor, t: Cursor)
    requires Wf(src) && Wf(dst) && s0 + n <= |src| * 512 && d0 + n <= |dst| * 512
    requires written + size <= n && s.off + size <= 512 && t.off + size <= 512
    requires CursorAt(s, s0, n, written) && CursorAt(t, d0, n, written)
    requires s.page < |src| && t.page < |dst|
    requires Wrote(dst, d0, Read(src, s0, n)[..written], d)
    ensures Wf(d) && |d| == |dst|
    ensures var d' := d[t.page := PageWrite(d[t.page], t.off, src[s.page][s.off..s.off + size])];
            Wrote(dst, d0, Read(src, s0, n)[..written + size], d') && Wf(d')
  {
    var data := Read(src, s0, n);
    var piece := src[s.page][s.off..s.off + size];
    PieceIs(src, s0, n, written, size, s);
    PageWriteChain(d, t.page, t.off, piece);
    hide Read, PageWrite;
    WroteTwice(dst, d0, data[..written], d, piece, d[t.page := PageWrite(d[t.page], t.off, piece)]);
  }

  /** The words under a cursor are the next words to be copied. */
  lemma PieceIs(src: Chain, s0: nat, n: nat, written: nat, size: nat, s: Cursor)
    requires Wf(src) && s0 + n <= |src| * 512 && written + size <= n && s.off + size <= 512 && s.page < |src|
    requires CursorAt(s, s0, n, written)
    ensures |src[s.page]| == 512
    ensures Read(src, s0, n)[..written] + src[s.page][s.off..s.off + size] == Read(src, s0, n)[..written + size]
  {
    var data, piece := Read(src, s0, n), src[s.page][s.off..s.off + size];
    forall i | 0 <= i < size ensures data[written + i] == piece[i] {
      assert data[written + i] == At(src, s0 + written + i);
      assert (s0 + written + i) / 512 == s.page && (s0 + written + i) % 512 == s.off + i;
    }
  }

  lemma CursorStart(a: nat, n: nat)
    requires n <= 512
    ensures CursorAt(ObjectCursor(a, n), a, n, 0) && ObjectCursor(a, n).page == a / 512
  {
  }

  lemma NothingWritten(c: Chain, a: nat, data: seq<int>)
    requires Wf(c) && a + |data| <= |c| * 512
    ensures Wrote(c, a, data[..0], c)
  {
  }

  /** The copy loop of zs_object_copy: page-bounded pieces that amount to one contiguous copy. */
  method CopyWords(src: Chain, dst: Chain, s0: nat, d0: nat, n: nat) returns (d: Chain, rounds: nat)
    requires Wf(src) && Wf(dst) && 1 <= n <= 512
    requires s0 + n <= |src| * 512 && d0 + n <= |dst| * 512
    ensures Wrote(dst, d0, Read(src, s0, n), d)
    ensures rounds <= 3
  {
    hide Wrote, CursorAt, PageWrite, Advance, Read, ObjectCursor;
    var s, t := ObjectCursor(s0, n), ObjectCursor(d0, n);
    var written := 0;
    d := dst;
    rounds := 0;
    CursorStart(s0, n);
    CursorStart(d0, n);
    NothingWritten(dst, d0, Read(src, s0, n));
    while true
      invariant 0 <= written < n
      invariant CursorAt(s, s0, n, written) && CursorAt(t, d0, n, written)
      invariant rounds <= (s.page - s0 / 512) + (t.page - d0 / 512)
      invariant Wrote(dst, d0, Read(src, s0, n)[..written], d)
      invariant Wf(d) && |d| == |dst|
      decreases n - written
    {
      CursorPage(s, s0, n, written, |src|);
      CursorPage(t, d0, n, written, |dst|);
      var size := if s.left < t.left then s.left else t.left;
      CopyPiece(src, dst, d, s0, d0, n, written, size, s, t);
      d := d[t.page := PageWrite(d[t.page], t.off, src[s.page][s.off..s.off + size])];
      rounds := rounds + 1;
      if written + size == n {
        assert Read(src, s0, n)[..n] == Read(src, s0, n);
        break;
      }
      AdvanceKeeps(s, s0, n, written, size);
      AdvanceKeeps(t, d0, n, written, size);
      written := written + size;
      s := Advance(s, size, n - written);
      t := Advance(t, size, n - written);
    }
  }

  /** zs_object_copy: copies object `sIdx` of one zspage over object `dIdx` of another. */
  method ObjectCopy(src: Chain, dst: Chain, g: Class, sIdx: nat, dIdx: nat)
    returns (d: Chain, rounds: nat)
    requires ClassOk(g) && Wf(src) && Wf(dst) && |src| == |dst| == g.pages
    requires sIdx < g.objs && dIdx < g.objs
    ensures Start(g, sIdx) + g.size <= g.pages * 512 && Start(g, dIdx) + g.size <= g.pages * 512
    ensures Wrote(dst, Start(g, dIdx), Read(src, Start(g, sIdx), g.size), d)
    ensures rounds <= 3
  {
    StartRoom(g, sIdx);
    StartRoom(g, dIdx);
    d, rounds := CopyWords(src, dst, Start(g, sIdx), Start(g, dIdx), g.size);
  }
}
