/** Whole runs of a pool against the map from live handle to payload. */
module ZsRun {
  import opened ZsChain
  import opened ZsHandles
  import opened ZsData
  import opened ZsAccount
  import opened ZsPoolInv
  import opened ZsCompact
  import opened ZsPool

  datatype Op =
    | DoMalloc(size: nat, h: int, canAlloc: bool, zid: nat, frames: seq<nat>, junk: Chain)
    | DoFree(h: int, locked: bool)
    | DoStore(h: int, at: nat, words: seq<int>)
    | DoLoad(h: int)
    | DoCompact(c: nat, quiet: bool)
    | DoMigrate(page: nat, newpage: nat, held: seq<int>)

  type View = map<int, seq<int>>

  /** What the caller gets; a call that it must not make is skipped. */
  datatype Result = Skipped | Done | Got(r: MallocResult) | Words(words: seq<int>) | Freed(pages: nat)

  /** What each operation returns and does to the map. */
  ghost predicate SpecStep(op: Op, res: Result, v: View, v': View) {
    match op
    case DoMalloc(size, h, canAlloc, _, _, _) => SpecMalloc(size, h, canAlloc, res, v, v')
    case DoFree(h, _) => if h <= 0 || h in v then res == Done && v' == v - {h} else res == Skipped && v' == v
    case DoStore(h, at, words) =>
      if h in v && at + |words| <= |v[h]| then res == Done && v' == v[h := Patched(v[h], at, words)]
      else res == Skipped && v' == v
    case DoLoad(h) => res == (if h in v then Words(v[h]) else Skipped) && v' == v
    case DoCompact(c, _) => (if c < 255 then res.Freed? else res == Skipped) && v' == v
    case DoMigrate(_, _, _) => res in {Done, Skipped} && v' == v
  }

  /** zs_malloc: only a handle changes the map, and each error has its reason. */
  ghost predicate SpecMalloc(size: nat, h: int, canAlloc: bool, res: Result, v: View, v': View) {
    match res
    case Skipped => v' == v
    case Got(r) =>
      && h !in v && (r == Einval <==> size == 0) && (r == Enospc <==> size > 4096)
      && (h == 0 && 1 <= size <= 4096 ==> r == Enomem) && (r == Enomem ==> 1 <= size <= 4096 && (h == 0 || !canAlloc))
      && (r.Handle? ==> r.h == h && v'.Keys == v.Keys + {h} && v' - {h} == v && size <= 8 * |v'[h]|)
      && (!r.Handle? ==> v' == v)
    case _ => false
  }

  ghost predicate SpecRun(ops: seq<Op>, rs: seq<Result>, views: seq<View>) {
    && |rs| == |ops| && |views| == |ops| + 1
    && forall i :: 0 <= i < |ops| ==> SpecStep(ops[i], rs[i], views[i], views[i + 1])
  }

  /** The operation is about handle `h`. */
  predicate Names(op: Op, h: int) {
    (op.DoMalloc? && op.h == h) || (op.DoFree? && op.h == h) || (op.DoStore? && op.h == h)
  }

  /** A live handle reads the same until an operation names it. */
  lemma {:induction false} ReadsBack(ops: seq<Op>, rs: seq<Result>, views: seq<View>, i: nat, j: nat, h: int)
    requires SpecRun(ops, rs, views) && i <= j <= |ops| && h in views[i]
    requires forall k :: i <= k < j ==> !Names(ops[k], h)
    ensures h in views[j] && views[j][h] == views[i][h]
  {
    if i < j {
      ReadsBack(ops, rs, views, i, j - 1, h);
      assert SpecStep(ops[j - 1], rs[j - 1], views[j - 1], views[j - 1 + 1]);
      var op, v, v' := ops[j - 1], views[j - 1], views[j];
      if op.DoMalloc? && v' != v {
        assert (v' - {op.h})[h] == v[h];
      }
    }
  }

  /** What a store through a live handle wrote, over what was there, is what a load gets before an operation names the handle. */
  lemma StoreReadsBack(ops: seq<Op>, rs: seq<Result>, views: seq<View>, i: nat, j: nat, h: int, at: nat, words: seq<int>)
    requires SpecRun(ops, rs, views) && i < j < |ops| && ops[i] == DoStore(h, at, words) && rs[i] == Done && ops[j] == DoLoad(h)
    requires forall k :: i < k < j ==> !Names(ops[k], h)
    ensures h in views[i] && at + |words| <= |views[i][h]| && rs[j] == Words(Patched(views[i][h], at, words))
  {
    assert SpecStep(ops[i], rs[i], views[i], views[i + 1]);
    ReadsBack(ops, rs, views, i + 1, j, h);
    assert SpecStep(ops[j], rs[j], views[j], views[j + 1]);
  }

  /** A load through a handle that was got, before an operation names it, gets at least the bytes asked for. */
  lemma MallocLoads(ops: seq<Op>, rs: seq<Result>, views: seq<View>, i: nat, j: nat)
    requires SpecRun(ops, rs, views) && i < j < |ops| && ops[i].DoMalloc? && rs[i] == Got(Handle(ops[i].h)) && ops[j] == DoLoad(ops[i].h)
    requires forall k :: i < k < j ==> !Names(ops[k], ops[i].h)
    ensures rs[j].Words? && ops[i].size <= 8 * |rs[j].words|
  {
    assert SpecStep(ops[i], rs[i], views[i], views[i + 1]);
    ReadsBack(ops, rs, views, i + 1, j, ops[i].h);
    assert SpecStep(ops[j], rs[j], views[j], views[j + 1]);
  }

  /** What zs_malloc needs from the allocators below it: a new zspage and page frames not in use. */
  predicate FreshFrames(d: Data, n: nat, zid: nat, frames: seq<nat>, junk: Chain) {
    && zid !in d.zspages && |frames| >= n && |junk| >= n && Wf(junk)
    && (forall p :: p in frames ==> p !in d.owner)
    && (forall p, q :: 0 <= p < q < |frames| ==> frames[p] != frames[q])
  }

  /** One operation; a call that its caller must not make is not made. */
  method Step(pool: Pool, op: Op) returns (res: Result)
    requires pool.Valid()
    modifies pool
    ensures pool.Valid() && SpecStep(op, res, old(pool.View()), pool.View())
  {
    hide PoolOk, Meaning, NoneEmpty;
    LiveKeys(pool);
    res := Skipped;
    match op
    case DoMalloc(size, h, canAlloc, zid, frames, junk) =>
      if (h == 0 || (IsHandle(h) && h !in pool.data.handles)) && FreshFrames(pool.data, pool.maxPages, zid, frames, junk) {
        var r := pool.Malloc(size, h, canAlloc, zid, frames, junk);
        res := Got(r);
      }
    case DoFree(h, locked) =>
      if h <= 0 || h in pool.data.handles {
        pool.Free(h, locked);
        res := Done;
      }
    case DoStore(h, at, words) =>
      if h in pool.data.handles {
        var was := pool.Load(h);
        if at + |words| <= |was| {
          pool.Store(h, at, words);
          res := Done;
        }
      }
    case DoLoad(h) =>
      if h in pool.data.handles {
        var words := pool.Load(h);
        res := Words(words);
      }
    case DoCompact(c, quiet) =>
      if c < 255 {
        var pages, _ := pool.Compact(c, quiet);
        res := Freed(pages);
      }
    case DoMigrate(page, newpage, held) =>
      if page in pool.data.owner && newpage !in pool.data.owner {
        pool.PageMigrate(page, newpage, held);
        res := Done;
      }
  }

  lemma LiveKeys(pool: Pool)
    requires pool.Valid()
    ensures pool.View().Keys == pool.data.handles.Keys && |pool.cs| == 255 && 0 !in pool.View()
  {
    hide AccountsOk, DataOk, Meaning, Sum, PagesOf;
    MeaningKeys(pool.data, pool.cs);
    KeysPositive(pool.cs, pool.data, 0);
  }

  /** Every run of the pool, with what it returns, is a run of the map. */
  method Run(pool: Pool, ops: seq<Op>) returns (rs: seq<Result>, ghost views: seq<View>)
    requires pool.Valid()
    modifies pool
    ensures pool.Valid() && SpecRun(ops, rs, views)
    ensures views[0] == old(pool.View()) && views[|ops|] == pool.View()
  {
    hide PoolOk, Meaning, SpecStep;
    rs, views := [], [pool.View()];
    for i := 0 to |ops|
      invariant pool.Valid() && |rs| == i && |views| == i + 1
      invariant views[0] == old(pool.View()) && views[i] == pool.View()
      invariant forall k :: 0 <= k < i ==> SpecStep(ops[k], rs[k], views[k], views[k + 1])
    {
      var res := Step(pool, ops[i]);
      rs, views := rs + [res], views + [pool.View()];
    }
  }
}
