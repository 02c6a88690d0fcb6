/** When the scan for n blocks comes to an end, and when it goes round for ever. */
module SmqHalt {
  import opened SmqMap

  ghost predicate Ends(m: Map, n: int, s: Scan)
    requires WellFormed(m) && InRange(m, s)
  {
    exists k: nat :: !After(m, n, s, k).More?
  }

  lemma EndsNext(m: Map, n: int, s: Scan)
    requires WellFormed(m) && InRange(m, s)
    requires ScanStep(m, n, s).More? ==> InRange(m, ScanStep(m, n, s).s) && Ends(m, n, ScanStep(m, n, s).s)
    ensures Ends(m, n, s)
  {
    hide ScanStep;
    var r := ScanStep(m, n, s);
    if r.More? {
      var k: nat :| !After(m, n, r.s, k).More?;
      assert !After(m, n, s, k + 1).More?;
    } else {
      assert !After(m, n, s, 1).More?;
    }
  }

  ghost predicate HasFree(m: Map) {
    exists i :: 0 <= i < |m| && m[i] == 0
  }

  /* With room for n blocks: found in the second lap at the latest. */

  /** From the second lap on, no window has been passed, and a stretch being counted is counted from its beginning. */
  ghost predicate NonePassed(m: Map, n: int, s: Scan) {
    && (forall at :: at + n <= s.pos ==> !Window(m, at, n))
    && (0 < s.mark <= s.pos < |m| ==> m[s.mark - 1] != 0)
    && (0 < s.pos < s.mark && s.pos < |m| ==> m[s.pos - 1] != 0)
  }

  lemma NonePassedStep(m: Map, n: int, s: Scan, e: int)
    requires WellFormed(m) && ScanOk(m, n, s, e) && n >= 2 && NonePassed(m, n, s) && ScanStep(m, n, s).More?
    ensures var p := s.pos + if m[s.pos] == 0 then 1 else m[s.pos];
            && (forall at :: at + n <= p ==> !Window(m, at, n))
            && (p < |m| ==> NonePassed(m, n, ScanStep(m, n, s).s))
  {
    StepPos(m, n, s);
    var p := s.pos + if m[s.pos] == 0 then 1 else m[s.pos];
    if m[s.pos] != 0 {
      ChunkTaken(m, s.pos);
    }
    forall at | at + n <= p && s.pos < at + n ensures !Window(m, at, n) {
      if m[s.pos] != 0 {
        assert 0 <= at ==> m[at + n - 1] != 0;
      } else if 0 <= at {
        FreeWindow(m, n, s, e, at);
      }
    }
  }

  lemma FreeWindow(m: Map, n: int, s: Scan, e: int, at: int)
    requires WellFormed(m) && ScanOk(m, n, s, e) && n >= 2 && NonePassed(m, n, s) && ScanStep(m, n, s).More?
    requires m[s.pos] == 0 && at + n == s.pos + 1 && 0 <= at
    ensures !Window(m, at, n)
  {
    if s.mark <= s.pos {
      assert s.mark > at;
      assert m[s.mark - 1] != 0;
    } else {
      assert m[s.pos - 1] != 0;
    }
  }

  lemma {:induction false} EndsWithWindow(m: Map, n: int, s: Scan, e: int, lap: int)
    requires WellFormed(m) && ScanOk(m, n, s, e) && n >= 2 && HasWindow(m, n)
    requires 0 <= lap <= 1 && (lap == 1 ==> NonePassed(m, n, s))
    ensures Ends(m, n, s)
    decreases 1 - lap, |m| - s.pos
  {
    hide ScanStep, ScanOk, Ends, NonePassed;
    assert InRange(m, s) by { WindowRange(m, n, s, e); }
    var r := ScanStep(m, n, s);
    StepPos(m, n, s);
    if r.More? {
      StepOk(m, n, s, e);
      if lap == 1 {
        NonePassedStep(m, n, s, e);
        WindowLeft(m, n, s);
        EndsWithWindow(m, n, r.s, NextSeen(m, s, e), 1);
      } else if r.s.pos > s.pos {
        EndsWithWindow(m, n, r.s, NextSeen(m, s, e), 0);
      } else {
        LapBegins(m, n, r.s, NextSeen(m, s, e));
        EndsWithWindow(m, n, r.s, NextSeen(m, s, e), 1);
      }
    }
    EndsNext(m, n, s);
  }

  lemma WindowRange(m: Map, n: int, s: Scan, e: int)
    requires ScanOk(m, n, s, e)
    ensures InRange(m, s)
  {
  }

  /** If no window has been passed, the end of the map has not been reached. */
  lemma WindowLeft(m: Map, n: int, s: Scan)
    requires HasWindow(m, n) && 0 <= s.pos < |m|
    ensures var p := s.pos + if m[s.pos] == 0 then 1 else m[s.pos];
            (forall at :: at + n <= p ==> !Window(m, at, n)) ==> p < |m|
  {
  }

  lemma LapBegins(m: Map, n: int, s: Scan, e: int)
    requires ScanOk(m, n, s, e) && s.pos == 0 && n >= 1
    ensures NonePassed(m, n, s)
  {
  }

  /* With one stretch of free blocks: the second lap makes its beginning the start, the third ends there. */

  ghost predicate Rearmed(m: Map, s: Scan, lo: int, lap: int) {
    && (lap == 1 && s.pos > lo ==> s.start == lo && (0 <= s.pos < |m| && m[s.pos] == 0 ==> s.mark == lo))
    && (lap == 2 ==> s.start == lo && s.pos < lo)
  }

  lemma RearmedStep(m: Map, n: int, s: Scan, e: int, lo: int, hi: int, lap: int)
    requires WellFormed(m) && ScanOk(m, n, s, e) && n != 1 && OneRun(m, lo, hi) && 0 <= lap <= 2
    requires Rearmed(m, s, lo, lap) && ScanStep(m, n, s).More?
    ensures ScanStep(m, n, s).s.pos > s.pos ==> Rearmed(m, ScanStep(m, n, s).s, lo, lap)
    ensures ScanStep(m, n, s).s.pos <= s.pos ==> lap < 2 && Rearmed(m, ScanStep(m, n, s).s, lo, lap + 1)
  {
    StepPos(m, n, s);
    if m[s.pos] != 0 {
      ChunkTaken(m, s.pos);
      assert m[lo] == 0;
    } else {
      assert lo > 0 ==> m[lo - 1] != 0;
    }
  }

  lemma {:induction false} EndsWithOneRun(m: Map, n: int, s: Scan, e: int, lo: int, hi: int, lap: int)
    requires WellFormed(m) && ScanOk(m, n, s, e) && n != 1 && OneRun(m, lo, hi) && 0 <= lap <= 2
    requires Rearmed(m, s, lo, lap)
    ensures InRange(m, s) && Ends(m, n, s)
    decreases 2 - lap, |m| - s.pos
  {
    hide ScanStep, ScanOk, Ends, Rearmed, OneRun;
    WindowRange(m, n, s, e);
    var r := ScanStep(m, n, s);
    StepPos(m, n, s);
    if r.More? {
      StepOk(m, n, s, e);
      RearmedStep(m, n, s, e, lo, hi, lap);
      EndsWithOneRun(m, n, r.s, NextSeen(m, s, e), lo, hi, if r.s.pos > s.pos then lap else lap + 1);
    }
    EndsNext(m, n, s);
  }

  /* With no free block: the scan jumps from allocation to allocation. */

  predicate Full(m: Map) {
    TakenIn(m, 0, |m|)
  }

  lemma FullStep(m: Map, n: int, s: Scan)
    requires WellFormed(m) && InRange(m, s) && Full(m)
    ensures var r := ScanStep(m, n, s);
            && !r.Found?
            && (r.More? ==> r.s.start == s.start && Boundary(m, r.s.pos) && r.s.pos != s.start)
            && (r.NoMemory? ==> Boundary(m, s.start))
  {
    StepPos(m, n, s);
    ChunkTaken(m, s.pos);
  }

  /** A boundary is not jumped over. */
  lemma NoJumpOver(m: Map, i: int, p: int)
    requires WellFormed(m) && 0 <= i < p < |m| && Full(m) && Boundary(m, p)
    ensures i + m[i] <= p
  {
    if i + m[i] > p {
      Chunk(m, i, p - i);
      Chunk(m, i, p - 1 - i);
    }
  }

  lemma {:induction false} EndsFull(m: Map, n: int, s: Scan, lap: int)
    requires WellFormed(m) && InRange(m, s) && Full(m) && Boundary(m, s.start)
    requires 0 <= lap <= 1 && (lap == 0 ==> s.pos >= s.start) && (lap == 1 ==> s.pos < s.start)
    ensures Ends(m, n, s)
    decreases 1 - lap, |m| - s.pos
  {
    hide ScanStep, Ends, Full, Boundary;
    var r := ScanStep(m, n, s);
    StepPos(m, n, s);
    FullStep(m, n, s);
    if r.More? {
      if lap == 1 {
        NoJumpOver(m, s.pos, s.start);
      }
      FullTaken(m, s.pos);
      EndsFull(m, n, r.s, if r.s.pos > s.pos then lap else 1);
    }
    EndsNext(m, n, s);
  }

  lemma FullTaken(m: Map, i: int)
    requires WellFormed(m) && Full(m) && 0 <= i < |m|
    ensures m[i] > 0
  {
  }

  /** From the middle of an allocation in a full map the scan never meets its start again. */
  lemma {:induction false} FullNeverEnds(m: Map, n: int, s: Scan, k: nat)
    requires WellFormed(m) && InRange(m, s) && Full(m) && !Boundary(m, s.start)
    ensures After(m, n, s, k).More?
    decreases k
  {
    if k > 0 {
      hide ScanStep, Full, Boundary;
      StepPos(m, n, s);
      FullStep(m, n, s);
      FullNeverEnds(m, n, ScanStep(m, n, s).s, k - 1);
    }
  }

  /** With two stretches of free blocks, none long enough, the scan never ends. */
  lemma {:induction false} ShortRunsNeverEnd(m: Map, n: int, s: Scan, e: int, k: nat)
    requires WellFormed(m) && ScanOk(m, n, s, e) && n != 1 && TwoRuns(m) && (n >= 1 ==> !HasWindow(m, n))
    ensures InRange(m, s) && After(m, n, s, k).More?
  {
    AfterOk(m, n, s, e, k);
    hide After, TwoRuns;
    var r := After(m, n, s, k);
    assert EndOk(m, n, r) ==> r.More?;
  }

  lemma FirstOk(m: Map, n: int, p: int)
    requires 0 <= p < |m|
    ensures ScanOk(m, n, First(m, p), p)
  {
  }

  lemma {:induction false} FindRun(m: Map, lo: int, hi: int) returns (end: int)
    requires 0 <= lo < hi <= |m| && m[lo] == 0 && !TwoRuns(m)
    requires FreeIn(m, lo, hi) && (lo > 0 ==> TakenIn(m, 0, lo))
    ensures OneRun(m, lo, end)
    decreases |m| - hi
  {
    if hi < |m| && m[hi] == 0 {
      end := FindRun(m, lo, hi + 1);
    } else {
      end := hi;
      forall i | hi <= i < |m| ensures m[i] != 0 {
        assert hi < i && m[i] == 0 ==> TwoRuns(m);
      }
    }
  }

  lemma {:induction false} FirstFree(m: Map, from: int) returns (lo: int)
    requires 0 <= from <= |m| && TakenIn(m, 0, from) && HasFree(m)
    ensures 0 <= lo < |m| && m[lo] == 0 && TakenIn(m, 0, lo)
    decreases |m| - from
  {
    if from < |m| && m[from] == 0 {
      lo := from;
    } else {
      lo := FirstFree(m, from + 1);
    }
  }

  /**
   Exactly when a request for n blocks, n other than 1, returns at all: there is room for it, or the free blocks
   are one stretch, or there is none and index_read is at the first block of an allocation.
   */
  lemma EndsIff(m: Map, n: int, p: int)
    requires WellFormed(m) && 0 <= p < |m| && n >= 0 && n != 1
    ensures Ends(m, n, First(m, p)) <==>
            (n >= 1 && HasWindow(m, n)) || (HasFree(m) && !TwoRuns(m)) || (!HasFree(m) && Boundary(m, p))
  {
    var s := First(m, p);
    FirstOk(m, n, p);
    if n >= 1 && HasWindow(m, n) {
      EndsWithWindow(m, n, s, p, 0);
    } else if !HasFree(m) {
      if Boundary(m, p) {
        EndsFull(m, n, s, 0);
      } else {
        forall k: nat ensures After(m, n, s, k).More? {
          FullNeverEnds(m, n, s, k);
        }
      }
    } else if TwoRuns(m) {
      forall k: nat ensures After(m, n, s, k).More? {
        ShortRunsNeverEnd(m, n, s, p, k);
      }
    } else {
      var lo := FirstFree(m, 0);
      var hi := FindRun(m, lo, lo + 1);
      EndsWithOneRun(m, n, s, p, lo, hi, 0);
    }
  }

  /** One message that fills an empty queue leaves index_read where the next request of two blocks or more never returns. */
  lemma FullQueueHangs(blocks: int, n: int)
    requires 2 <= blocks <= 255 && n >= 2
    ensures var empty := seq(blocks, _ => 0);
            var full := Allocate(empty, 0, blocks);
            Window(empty, 0, blocks) && WellFormed(full) && !Ends(full, n, First(full, blocks - 1))
  {
    var empty := seq(blocks, _ => 0);
    AllocateWellFormed(empty, 0, blocks);
    var full := Allocate(empty, 0, blocks);
    assert full[blocks - 2] == 2;
    EndsIff(full, n, blocks - 1);
    forall at ensures !Window(full, at, n) {
      assert 0 <= at < blocks ==> full[at] != 0;
    }
  }

  /** Two free blocks apart from each other: a request for two never returns, wherever it starts. */
  lemma ScatteredHangs(p: int)
    requires 0 <= p < 4
    ensures WellFormed([0, 1, 0, 1]) && !Ends([0, 1, 0, 1], 2, First([0, 1, 0, 1], p))
  {
    var m := [0, 1, 0, 1];
    EndsIff(m, 2, p);
    assert m[0] == 0 && m[1] == 1 && m[2] == 0 && m[3] == 1;
    forall at ensures !Window(m, at, 2) {
      assert 0 <= at && at + 2 <= 4 ==> m[at] != 0 || m[at + 1] != 0;
    }
  }
}
