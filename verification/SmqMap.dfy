/**
 The producer's block map: an allocation of n blocks is written n, n-1, ..., 1 and a free block 0.
 The scan of smq_blockmap_get for n other than 1, step by step, and when it comes to an end.
 */
module SmqMap {

  type Map = seq<int>

  /** Every entry above 1 is followed by the entry one less. */
  predicate WellFormed(m: Map) {
    && (forall i :: 0 <= i < |m| ==> 0 <= m[i] <= 255)
    && (forall i :: 0 <= i < |m| ==> Descends(m, i))
  }

  predicate Descends(m: Map, i: int)
    requires 0 <= i < |m|
  {
    m[i] > 1 ==> i + 1 < |m| && m[i + 1] == m[i] - 1
  }

  predicate FreeIn(m: Map, lo: int, hi: int) {
    forall i :: lo <= i < hi && 0 <= i < |m| ==> m[i] == 0
  }

  predicate TakenIn(m: Map, lo: int, hi: int) {
    forall i :: lo <= i < hi && 0 <= i < |m| ==> m[i] != 0
  }

  /** The n blocks from `at` are free. */
  predicate Window(m: Map, at: int, n: int) {
    0 <= at && at + n <= |m| && FreeIn(m, at, at + n)
  }

  ghost predicate HasWindow(m: Map, n: int) {
    exists at :: Window(m, at, n)
  }

  /** The block is the first of an allocation, or free. */
  predicate Boundary(m: Map, i: int) {
    0 < i <= |m| ==> m[i - 1] <= 1
  }

  /** The map with n blocks from `at` marked as one allocation. */
  function Allocate(m: Map, at: int, n: int): (r: Map)
    ensures |r| == |m|
  {
    seq(|m|, i requires 0 <= i < |m| => if at <= i < at + n then at + n - i else m[i])
  }

  /** The map with the allocation from `at` taken out. */
  function Release(m: Map, at: int): (r: Map)
    ensures |r| == |m|
  {
    var n := if 0 <= at < |m| then m[at] else 0;
    seq(|m|, i requires 0 <= i < |m| => if at <= i < at + n then 0 else m[i])
  }

  /** An allocation reaches to its end without a gap. */
  lemma {:induction false} Chunk(m: Map, i: int, j: int)
    requires WellFormed(m) && 0 <= i < |m| && 0 <= j < m[i]
    ensures i + j < |m| && m[i + j] == m[i] - j
    decreases j
  {
    if j > 0 {
      Chunk(m, i, j - 1);
      var k := i + (j - 1);
      assert m[k] == m[i] - (j - 1) > 1 && Descends(m, k);
    }
  }

  lemma ChunkTaken(m: Map, i: int)
    requires WellFormed(m) && 0 <= i < |m| && m[i] > 0
    ensures i + m[i] <= |m| && TakenIn(m, i, i + m[i]) && m[i + m[i] - 1] == 1
  {
    Chunk(m, i, m[i] - 1);
    forall k | i <= k < i + m[i] && 0 <= k < |m| ensures m[k] != 0 {
      Chunk(m, i, k - i);
    }
  }

  lemma AllocateWellFormed(m: Map, at: int, n: int)
    requires WellFormed(m) && Window(m, at, n) && 1 <= n <= 255
    ensures WellFormed(Allocate(m, at, n))
  {
    var r := Allocate(m, at, n);
    forall i | 0 <= i < |r| ensures Descends(r, i) {
      assert Descends(m, i) && m[at] == 0;
    }
  }

  lemma ReleaseWellFormed(m: Map, at: int)
    requires WellFormed(m) && 0 <= at < |m| && Boundary(m, at)
    ensures WellFormed(Release(m, at))
  {
    var r := Release(m, at);
    if m[at] > 0 {
      ChunkTaken(m, at);
    }
    forall i | 0 <= i < |r| ensures Descends(r, i) {
      assert Descends(m, i);
    }
  }

  /* The scan. */

  /** index_read, start, mark and found */
  datatype Scan = Scan(pos: int, start: int, mark: int, found: int)

  datatype Next = Found(at: int, pos: int) | NoMemory(pos: int) | More(s: Scan)

  /** The end of the loop body: index_read moves on, and the loop ends where it started. */
  function Advance(m: Map, s: Scan): Next
    requires |m| > 0
  {
    var pos := (s.pos + 1) % |m|;
    if pos == s.start then NoMemory(pos) else More(s.(pos := pos))
  }

  /** A free block: a new stretch begins unless one is being counted. */
  function Arm(s: Scan): Scan {
    if s.mark > s.pos then Scan(s.pos, s.pos, s.pos, 0) else s
  }

  /** One round of the loop. */
  function ScanStep(m: Map, n: int, s: Scan): Next
    requires |m| > 0 && 0 <= s.pos < |m|
  {
    if m[s.pos] == 0 then
      var a := Arm(s);
      if a.found + 1 == n then Found(a.mark, s.pos) else Advance(m, a.(found := a.found + 1))
    else Advance(m, Scan(s.pos + m[s.pos] - 1, s.start, |m|, 0))
  }

  function First(m: Map, p: int): Scan {
    Scan(p, p, |m|, 0)
  }

  predicate InRange(m: Map, s: Scan) {
    |m| > 0 && 0 <= s.pos < |m| && 0 <= s.start < |m|
  }

  lemma Mod(x: int, n: int)
    requires 0 <= x < n
    ensures (x + 1) % n == if x + 1 == n then 0 else x + 1
  {
  }

  /** The position after a round. */
  function NextPos(m: Map, s: Scan): int
    requires 0 <= s.pos < |m|
  {
    var e := s.pos + (if m[s.pos] == 0 then 1 else m[s.pos]);
    if e >= |m| then 0 else e
  }

  lemma StepPos(m: Map, n: int, s: Scan)
    requires WellFormed(m) && InRange(m, s)
    ensures var r := ScanStep(m, n, s);
            && (r.More? ==> r.s.pos == NextPos(m, s) && InRange(m, r.s))
            && (r.NoMemory? ==> r.pos == NextPos(m, s))
            && (r.Found? ==> r.pos == s.pos)
    ensures s.pos + m[s.pos] <= |m|
  {
    if m[s.pos] != 0 {
      ChunkTaken(m, s.pos);
    }
    Mod(s.pos + (if m[s.pos] == 0 then 0 else m[s.pos] - 1), |m|);
  }

  /* What the scan has seen. */

  /** While a stretch is being counted, it is free, begins at `mark` and is `found` long. */
  predicate Counting(m: Map, s: Scan) {
    && (s.mark <= s.pos ==> s.start == s.mark && s.found == s.pos - s.mark && 0 <= s.mark < s.pos && FreeIn(m, s.mark, s.pos))
    && (s.mark > s.pos ==> s.mark == |m| || (s.pos == 0 && s.mark == s.start))
  }

  /** Of the blocks passed since `start`, the free ones are those before `e`. */
  predicate Seen(m: Map, s: Scan, e: int) {
    && s.start <= e <= |m|
    && FreeIn(m, s.start, e)
    && if s.pos >= s.start then e <= s.pos && TakenIn(m, e, s.pos) else TakenIn(m, e, |m|) && TakenIn(m, 0, s.pos)
  }

  /** What holds at every round. */
  predicate ScanOk(m: Map, n: int, s: Scan, e: int) {
    InRange(m, s) && Counting(m, s) && Seen(m, s, e) && (n > 0 ==> e - s.start < n && s.found < n)
  }

  /** The free blocks are one stretch. */
  predicate OneRun(m: Map, lo: int, hi: int) {
    && 0 <= lo < hi <= |m|
    && forall i :: 0 <= i < |m| ==> (m[i] == 0 <==> lo <= i < hi)
  }

  function NextSeen(m: Map, s: Scan, e: int): int
    requires 0 <= s.pos < |m|
  {
    if m[s.pos] == 0 then s.pos + 1 else e
  }

  lemma FreeStep(m: Map, n: int, s: Scan, e: int)
    requires WellFormed(m) && ScanOk(m, n, s, e) && m[s.pos] == 0 && n != 1
    ensures var r := ScanStep(m, n, s);
            && (r.Found? ==> n >= 1 && Window(m, r.at, n) && r.pos == r.at + n - 1)
            && (r.NoMemory? ==> OneRun(m, Arm(s).start, s.pos + 1) && (n > 0 ==> s.pos + 1 - Arm(s).start < n))
            && (r.More? ==> ScanOk(m, n, r.s, s.pos + 1))
  {
    StepPos(m, n, s);
    Mod(s.pos, |m|);
    if s.mark > s.pos {
      assert FreeIn(m, s.pos, s.pos + 1);
    } else {
      assert FreeIn(m, s.mark, s.pos + 1);
    }
  }

  lemma TakenStep(m: Map, n: int, s: Scan, e: int)
    requires WellFormed(m) && ScanOk(m, n, s, e) && m[s.pos] != 0
    ensures var r := ScanStep(m, n, s);
            && !r.Found?
            && (r.NoMemory? ==> (e == s.start && TakenIn(m, 0, |m|)) || OneRun(m, s.start, e))
            && (r.More? ==> ScanOk(m, n, r.s, e))
  {
    StepPos(m, n, s);
    ChunkTaken(m, s.pos);
  }

  /** The scan after at most k rounds. */
  function After(m: Map, n: int, s: Scan, k: nat): Next
    requires WellFormed(m) && InRange(m, s)
    decreases k
  {
    if k == 0 then More(s)
    else
      var r := ScanStep(m, n, s);
      StepPos(m, n, s);
      if r.More? then After(m, n, r.s, k - 1) else r
  }

  /** What an ended scan tells. */
  ghost predicate EndOk(m: Map, n: int, r: Next) {
    && (r.Found? ==> n >= 1 && Window(m, r.at, n) && r.pos == r.at + n - 1)
    && (r.NoMemory? ==> 0 <= r.pos < |m| && !TwoRuns(m) && (n >= 1 ==> !HasWindow(m, n)))
  }

  /** There are two stretches of free blocks with a taken block between them. */
  ghost predicate TwoRuns(m: Map) {
    exists i, j, k :: 0 <= i < j < k < |m| && m[i] == 0 && m[j] != 0 && m[k] == 0
  }

  lemma OneRunEnd(m: Map, n: int, lo: int, hi: int)
    requires OneRun(m, lo, hi) && (n > 0 ==> hi - lo < n)
    ensures !TwoRuns(m) && (n >= 1 ==> !HasWindow(m, n))
  {
    forall at | n >= 1 && 0 <= at && at + n <= |m| ensures !Window(m, at, n) {
      assert m[at] == 0 && m[at + n - 1] == 0 ==> lo <= at && at + n - 1 < hi;
    }
  }

  lemma AllTakenEnd(m: Map, n: int)
    requires TakenIn(m, 0, |m|)
    ensures !TwoRuns(m) && (n >= 1 ==> !HasWindow(m, n))
  {
    forall at | n >= 1 && 0 <= at && at + n <= |m| ensures !Window(m, at, n) {
      assert m[at] != 0;
    }
  }

  /** One round keeps what holds at every round, and a scan that ends tells the truth. */
  lemma StepOk(m: Map, n: int, s: Scan, e: int)
    requires WellFormed(m) && ScanOk(m, n, s, e) && n != 1
    ensures var r := ScanStep(m, n, s);
            if r.More? then ScanOk(m, n, r.s, NextSeen(m, s, e)) else EndOk(m, n, r)
  {
    StepPos(m, n, s);
    var r := ScanStep(m, n, s);
    if m[s.pos] == 0 {
      FreeStep(m, n, s, e);
      if r.NoMemory? {
        OneRunEnd(m, n, Arm(s).start, s.pos + 1);
      }
    } else {
      TakenStep(m, n, s, e);
      if r.NoMemory? {
        if OneRun(m, s.start, e) {
          OneRunEnd(m, n, s.start, e);
        } else {
          AllTakenEnd(m, n);
        }
      }
    }
  }

  /** A scan that ends has found a window, or there is none and the free blocks are one stretch at most. */
  lemma {:induction false} AfterOk(m: Map, n: int, s: Scan, e: int, k: nat)
    requires WellFormed(m) && ScanOk(m, n, s, e) && n != 1
    ensures !After(m, n, s, k).More? ==> EndOk(m, n, After(m, n, s, k))
    decreases k
  {
    if k > 0 {
      hide ScanStep, ScanOk, EndOk;
      StepOk(m, n, s, e);
      StepPos(m, n, s);
      var r := ScanStep(m, n, s);
      if r.More? {
        AfterOk(m, n, r.s, NextSeen(m, s, e), k - 1);
      }
    }
  }
}
