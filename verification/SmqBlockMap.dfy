/** The block map with its array, updated in place. */
module SmqBlockMap {
  import opened SmqMap
  import opened SmqHalt

  class BlockMap {
    var indexRead: nat
    const numBlocks: nat
    const map_: array<int>

    ghost predicate Valid()
      reads this, map_
    {
      && 0 < numBlocks <= 255
      && map_.Length == numBlocks + 1
      && indexRead < numBlocks
      && WellFormed(Contents())
      && map_[numBlocks] == 0
    }

    ghost function Contents(): (m: Map)
      reads this, map_
      requires map_.Length == numBlocks + 1
      ensures |m| == numBlocks
    {
      map_[..numBlocks]
    }

    /** smq_blockmap_ctor: one of the blocks is never used. */
    constructor (blocks: nat)
      requires 1 < blocks <= 256
      ensures Valid() && fresh(map_) && numBlocks == blocks - 1 && indexRead == 0
      ensures forall i :: 0 <= i < numBlocks ==> Contents()[i] == 0
    {
      map_ := new int[blocks](_ => 0);
      numBlocks := blocks - 1;
      indexRead := 0;
    }

    /** The branch for one block: the first free block from index_read on, going round once. */
    method GetOne() returns (ok: bool, at: nat)
      requires Valid()
      modifies this`indexRead, map_
      ensures Valid()
      ensures ok <==> HasFree(old(Contents()))
      ensures ok ==> Window(old(Contents()), at, 1) && Contents() == Allocate(old(Contents()), at, 1)
      ensures !ok ==> Contents() == old(Contents())
    {
      hide HasFree, Allocate, WellFormed, Window;
      ghost var m := Contents();
      var start := indexRead;
      at := 0;
      ghost var wrapped := false;
      while true
        invariant Valid() && Contents() == m
        invariant !wrapped ==> start <= indexRead && TakenIn(m, start, indexRead)
        invariant wrapped ==> indexRead < start && TakenIn(m, start, |m|) && TakenIn(m, 0, indexRead)
        decreases !wrapped, numBlocks - indexRead
      {
        if map_[indexRead] == 0 {
          at := indexRead;
          TakeOne(m, at);
          AllocateWellFormed(m, at, 1);
          map_[indexRead] := 1;
          indexRead := indexRead + 1;
          indexRead := indexRead % numBlocks;
          assert Contents() == m[at := 1];
          return true, at;
        }
        assert m[indexRead] != 0;
        Mod(indexRead, numBlocks);
        indexRead := indexRead + 1;
        indexRead := indexRead % numBlocks;
        if indexRead == start {
          break;
        }
        if indexRead == 0 {
          wrapped := true;
        }
      }
      AllTaken(m, start);
      ok := false;
    }

    /**
     The branch for several blocks, followed for so many rounds of its loop; `ended` says whether it has returned by
     then. It never does if it has not ended after any number of rounds.
     */
    method GetMany(n: nat, rounds: nat) returns (ended: bool, ok: bool, at: nat)
      requires Valid() && n != 1
      modifies this`indexRead, map_
      ensures Valid()
      ensures ended <==> !After(old(Contents()), n, First(old(Contents()), old(indexRead)), rounds).More?
      ensures ended ==> (ok <==> n >= 1 && HasWindow(old(Contents()), n))
      ensures ok ==> Window(old(Contents()), at, n) && Contents() == Allocate(old(Contents()), at, n)
      ensures ok ==> indexRead == at + n - 1
      ensures !ok ==> Contents() == old(Contents())
    {
      hide After, ScanStep, HasWindow, Allocate, EndOk, Window;
      ghost var m := Contents();
      ok, at := false, 0;
      var start, mark, found, left := indexRead, numBlocks, 0, rounds;
      ghost var first := First(m, indexRead);
      FirstOk(m, n, indexRead);
      AfterOk(m, n, first, indexRead, rounds);
      ghost var r := After(m, n, first, rounds);
      EndTells(m, n, r);
      while left > 0
        invariant Valid() && Contents() == m && !ok
        invariant InRange(m, Scan(indexRead, start, mark, found)) && 0 <= mark && 0 <= found
        invariant After(m, n, Scan(indexRead, start, mark, found), left) == r
      {
        ghost var s := Scan(indexRead, start, mark, found);
        AfterStep(m, n, s, left);
        StepFree(m, n, s);
        StepTaken(m, n, s);
        if map_[indexRead] == 0 {
          if mark > indexRead {
            mark, start, found := indexRead, indexRead, 0;
          }
          found := found + 1;
          if found == n {
            at := mark;
            Mark(mark, n);
            return true, true, at;
          }
        } else {
          found := 0;
          indexRead := indexRead + map_[indexRead] - 1;
          mark := numBlocks;
        }
        indexRead := indexRead + 1;
        indexRead := indexRead % numBlocks;
        left := left - 1;
        if start == indexRead {
          return true, false, at;
        }
      }
      AfterNone(m, n, Scan(indexRead, start, mark, found));
      ended := false;
    }

    /** The loop that writes n, n-1, ..., 1, each cut to a byte. */
    method Mark(at: nat, n: nat)
      requires Valid() && 1 <= n <= 255 && Window(Contents(), at, n) && indexRead == at + n - 1
      modifies this`indexRead, map_
      ensures Valid() && Contents() == Allocate(old(Contents()), at, n) && indexRead == at + n - 1
    {
      ghost var m := Contents();
      AllocateWellFormed(m, at, n);
      var i := 0;
      while i < n
        invariant 0 <= i <= n && map_[numBlocks] == 0 && indexRead == at + n - 1
        invariant forall j :: 0 <= j < numBlocks ==> map_[j] == if at <= j < at + i then at + n - j else m[j]
      {
        map_[at + i] := (n - i) % 256;
        i := i + 1;
      }
      assert Contents() == Allocate(m, at, n);
      indexRead := indexRead + map_[indexRead] - 1;
    }

    /** smq_blockmap_get, followed for so many rounds. */
    method Get(n: nat, rounds: nat) returns (ended: bool, ok: bool, at: nat)
      requires Valid()
      modifies this`indexRead, map_
      ensures Valid()
      ensures ended <==> n == 1 || !After(old(Contents()), n, First(old(Contents()), old(indexRead)), rounds).More?
      ensures ended ==> (ok <==> n >= 1 && HasWindow(old(Contents()), n))
      ensures ok ==> Window(old(Contents()), at, n) && Contents() == Allocate(old(Contents()), at, n)
      ensures !ok ==> Contents() == old(Contents())
    {
      if n == 1 {
        ok, at := GetOne();
        OneIsFree(old(Contents()));
        ended := true;
      } else {
        ended, ok, at := GetMany(n, rounds);
      }
    }

    /** smq_blockmap_put */
    method Put(at: nat)
      requires Valid() && at <= numBlocks && Boundary(Contents(), at)
      modifies map_
      ensures Valid() && Contents() == Release(old(Contents()), at)
    {
      ghost var m := Contents();
      if at < numBlocks {
        ReleaseWellFormed(m, at);
        if m[at] > 0 {
          ChunkTaken(m, at);
        }
      } else {
        assert Release(m, at) == m;
      }
      var i, left := at, map_[at];
      while left > 0
        invariant 0 <= left && at <= i && map_[numBlocks] == 0
        invariant i + left == at + (if at < numBlocks then m[at] else 0) <= numBlocks
        invariant forall j :: 0 <= j < numBlocks ==> map_[j] == if at <= j < i then 0 else m[j]
      {
        left := left - 1;
        map_[i] := 0;
        i := i + 1;
      }
      assert Contents() == Release(m, at);
    }
  }

  lemma TakeOne(m: Map, at: nat)
    requires at < |m| && m[at] == 0
    ensures HasFree(m) && Window(m, at, 1) && m[at := 1] == Allocate(m, at, 1)
  {
  }

  lemma AllTaken(m: Map, start: nat)
    requires start < |m| && TakenIn(m, start, |m|) && TakenIn(m, 0, start)
    ensures !HasFree(m)
  {
  }

  lemma EndTells(m: Map, n: int, r: Next)
    requires !r.More? ==> EndOk(m, n, r)
    ensures r.Found? ==> n >= 1 && Window(m, r.at, n) && 0 <= r.at && n <= |m| && HasWindow(m, n) && r.pos == r.at + n - 1
    ensures r.NoMemory? ==> n >= 1 ==> !HasWindow(m, n)
  {
  }

  lemma AfterStep(m: Map, n: int, s: Scan, k: nat)
    requires WellFormed(m) && InRange(m, s) && k > 0
    ensures var r := ScanStep(m, n, s);
            if r.More? then InRange(m, r.s) && After(m, n, r.s, k - 1) == After(m, n, s, k) else r == After(m, n, s, k)
  {
    hide ScanStep;
    StepPos(m, n, s);
  }

  lemma AfterNone(m: Map, n: int, s: Scan)
    requires WellFormed(m) && InRange(m, s)
    ensures After(m, n, s, 0).More?
  {
  }

  lemma StepFree(m: Map, n: int, s: Scan)
    requires WellFormed(m) && InRange(m, s)
    ensures m[s.pos] == 0 ==>
            var a := Arm(s);
            var p := (s.pos + 1) % |m|;
            ScanStep(m, n, s) == if a.found + 1 == n then Found(a.mark, s.pos)
                                 else if p == a.start then NoMemory(p) else More(Scan(p, a.start, a.mark, a.found + 1))
  {
  }

  lemma StepTaken(m: Map, n: int, s: Scan)
    requires WellFormed(m) && InRange(m, s)
    ensures m[s.pos] != 0 ==>
            var p := (s.pos + m[s.pos]) % |m|;
            ScanStep(m, n, s) == if p == s.start then NoMemory(p) else More(Scan(p, s.start, |m|, 0))
  {
  }

  lemma OneIsFree(m: Map)
    ensures HasFree(m) <==> HasWindow(m, 1)
  {
    if HasFree(m) {
      var i :| 0 <= i < |m| && m[i] == 0;
      assert Window(m, i, 1);
    }
    if HasWindow(m, 1) {
      var at :| Window(m, at, 1);
      assert m[at] == 0;
    }
  }
}
