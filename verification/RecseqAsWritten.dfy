/**
 * The record check as it is written: the compaction that moves too few entries, and the last
 * flush without a sort.  When each does no harm, what harm they do, and when the report is
 * right all the same.
 */
module RecseqAsWritten {
  import opened Recseq
  import opened RecseqReport

  // ---------- the two places ----------

  /**
   * As written, compaction keeps the surviving ends exactly when no more survive than were
   * flushed, or all are equal.
   */
  lemma CompressExact(ends: seq<int>, i: nat)
    requires Sorted(ends) && 0 < i <= |ends|
    ensures Compress(ends, i, true) == ends[i..] <==> |ends| <= 2 * i || ends[i] == ends[|ends| - 1]
  {
    var r := Compress(ends, i, true);
    if r == ends[i..] && 2 * i < |ends| {
      forall j | i <= j < |ends| - i ensures ends[j] == ends[i + j] {
        assert r[j] == ends[i..][j];
      }
      EqualStride(ends, i, |ends| - 1);
    }
  }

  lemma {:induction false} EqualStride(ends: seq<int>, i: nat, k: nat)
    requires Sorted(ends) && 0 < i && 2 * i < |ends| && i <= k < |ends|
    requires forall j :: i <= j < |ends| - i ==> ends[j] == ends[i + j]
    ensures ends[k] == ends[i]
  {
    if k > 2 * i {
      EqualStride(ends, i, k - i);
      assert ends[k - i] == ends[i + (k - i)];
    } else {
      assert ends[i] == ends[i + i];
    }
  }

  lemma {:induction false} FinalExtends(s: Sweep, pos: nat)
    requires pos <= |s.ends|
    ensures s.out <= FlushFinal(s, pos).out
    decreases |s.ends| - pos
  {
    if pos < |s.ends| {
      FinalExtends(Flush(s, pos, s.ends[pos] + 1), SkipEqual(s.ends, pos, pos + 1));
    }
  }

  lemma {:induction false} PrefixReports(out: seq<Range>, k: nat, lo: int, next: int, bs: seq<Block>) returns (m: int)
    requires k <= |out| && Reports(out, lo, next, bs)
    ensures Reports(out[..k], lo, m, bs)
  {
    if k == |out| {
      assert out[..k] == out;
      m := next;
    } else {
      var r, before := out[|out| - 1], out[..|out| - 1];
      assert before[..k] == out[..k];
      m := PrefixReports(before, k, lo, if IsEmpty(r) then next else r.lo, bs);
    }
  }

  /** If as many ends as there are from `pos` on reach `x`, and none before, then all of those do. */
  lemma {:induction false} ReachFull(ends: seq<int>, pos: nat, x: int)
    requires pos <= |ends| && (forall j :: 0 <= j < pos ==> ends[j] < x) && Reach(ends, x) == |ends| - pos
    ensures forall j :: pos <= j < |ends| ==> ends[j] >= x
  {
    if pos < |ends| {
      ReachFull(ends[1..], if pos > 0 then pos - 1 else 0, x);
    }
  }

  lemma {:induction false} FinalOnlySorted(s: Sweep, pos: nat, lo: int, next: int, bs: seq<Block>)
    requires pos <= |s.ends| && (forall j :: 0 <= j < pos ==> s.ends[j] < s.start) &&
      (pos < |s.ends| ==> s.ends[pos] >= s.start)
    requires forall x :: x >= s.start ==> Cover(bs, x) == Reach(s.ends, x)
    requires Reports(FlushFinal(s, pos).out, lo, next, bs)
    ensures forall i, j :: pos <= i < j < |s.ends| ==> s.ends[i] <= s.ends[j]
    decreases |s.ends| - pos
  {
    if pos < |s.ends| {
      var t, epos := Flush(s, pos, s.ends[pos] + 1), SkipEqual(s.ends, pos, pos + 1);
      FinalExtends(t, epos);
      var m := PrefixReports(FlushFinal(s, pos).out, |t.out|, lo, next, bs);
      assert FlushFinal(s, pos).out[..|t.out|] == t.out;
      assert t.out[|t.out| - 1] == Range(s.start, s.ends[pos], |s.ends| - pos);
      assert Cover(bs, s.ends[pos]) == |s.ends| - pos;
      ReachFull(s.ends, pos, s.ends[pos]);
      FinalOnlySorted(t, epos, lo, next, bs);
    }
  }

  /** The report is exact, wherever it ends. */
  ghost predicate Exact(out: seq<Range>, first: int, bs: seq<Block>) {
    exists next :: Reports(out, first, next, bs)
  }

  /** The last flush as written, without a sort, reports exactly when the open ends happen to be sorted. */
  lemma {:induction false} FinalFlushExact(s: Sweep, first: int, bs: seq<Block>)
    requires s.ends != [] && Window(s, 0) && Reports(s.out, first, s.start, bs)
    requires forall x :: x >= s.start ==> Cover(bs, x) == Reach(s.ends, x)
    ensures Exact(FlushFinal(s, 0).out, first, bs) <==> Sorted(s.ends)
  {
    var out := FlushFinal(s, 0).out;
    if Sorted(s.ends) {
      FinalReports(s, first, bs);
      assert Reports(out, first, s.ends[|s.ends| - 1] + 1, bs);
    }
    if Exact(out, first, bs) {
      var next :| Reports(out, first, next, bs);
      FinalOnlySorted(s, 0, first, next, bs);
    }
  }

  // ---------- when the report is right as written ----------

  /** Taking in a block, the compaction keeps the surviving ends: none is dropped, few survive, or all are equal. */
  predicate CompactsRight(s: Sweep, b: Block) {
    var s0 := s.(ends := SortEnds(s.ends));
    var n, i := |s0.ends|, FlushDead(s0, 0, b.lo).1;
    || Continued(s0.ends, b.lo, 0) < n || b.lo <= s.start
    || i == 0 || n <= 2 * i || s0.ends[i] == s0.ends[n - 1]
  }

  /** Every compaction of the sweep is right. */
  ghost predicate AllCompactRight(bs: seq<Block>) {
    forall k {:trigger bs[..k]} :: 0 <= k < |bs| ==> CompactsRight(TakeAll(bs[..k], true), bs[k])
  }

  /** Every compaction is right, and the ends the last flush meets are sorted. */
  ghost predicate Harmless(bs: seq<Block>) {
    AllCompactRight(bs) && Sorted(TakeAll(bs, true).ends)
  }

  lemma AdvanceSame(s: Sweep, lo: int)
    requires Sorted(s.ends)
    requires var n, i := |s.ends|, FlushDead(s, 0, lo).1; i == 0 || n <= 2 * i || s.ends[i] == s.ends[n - 1]
    ensures Advance(s, lo, true) == Advance(s, lo, false)
  {
    var i := FlushDead(s, 0, lo).1;
    if i > 0 { CompressExact(s.ends, i); } else { assert Compress(s.ends, 0, true) == s.ends[0..]; }
  }

  lemma CompactsSame(s: Sweep, b: Block)
    requires CompactsRight(s, b)
    ensures TakeBlock(s, b, true) == TakeBlock(s, b, false)
  {
    SortedEnds(s.ends);
    var s0 := s.(ends := SortEnds(s.ends));
    if Continued(s0.ends, b.lo, 0) == |s0.ends| && b.lo > s.start { AdvanceSame(s0, b.lo); }
  }

  lemma {:induction false} SameSweep(bs: seq<Block>, k: nat)
    requires k <= |bs| && forall j {:trigger bs[..j]} :: 0 <= j < k ==> CompactsRight(TakeAll(bs[..j], true), bs[j])
    ensures TakeAll(bs[..k], true) == TakeAll(bs[..k], false)
  {
    if k > 0 {
      SameSweep(bs, k - 1);
      assert bs[..k][..k - 1] == bs[..k - 1];
      CompactsSame(TakeAll(bs[..k - 1], true), bs[k - 1]);
    }
  }

  lemma {:induction false} SortedStays(ends: seq<int>)
    requires Sorted(ends)
    ensures SortEnds(ends) == ends
  {
    if ends != [] {
      SortedStays(ends[1..]);
      assert ends == [ends[0]] + ends[1..];
    }
  }

  lemma SameReport(bs: seq<Block>)
    requires Harmless(bs)
    ensures Process(bs, true) == Process(bs, false)
  {
    SameSweep(bs, |bs|);
    assert bs[..|bs|] == bs;
    SortedStays(TakeAll(bs, true).ends);
  }

  /** The code as written reports right whenever every compaction and the last flush do no harm. */
  lemma AsWrittenExact(recs: seq<int>) returns (lo: int, hi: int)
    requires recs != [] && Positive(recs) && Harmless(Blocks(recs))
    ensures Right(NonEmpty(Process(Blocks(recs), true)), recs, lo, hi)
  {
    SameReport(Blocks(recs));
    lo, hi := ReportExact(recs);
  }

  /** Where every compaction is right, the sweep as written reports exactly when its final ends are sorted. */
  lemma SweepExact(bs: seq<Block>)
    requires ProperBlocks(bs) && bs != [] && AllCompactRight(bs)
    ensures Exact(Process(bs, true), bs[0].lo, bs) <==> Sorted(TakeAll(bs, true).ends)
  {
    SameSweep(bs, |bs|);
    TakeAllKeeps(|bs|, bs);
    assert bs[..|bs|] == bs;
    FinalFlushExact(TakeAll(bs, true), bs[0].lo, bs);
  }

  /** The report is right, for some span. */
  ghost predicate RightReport(report: seq<Range>, recs: seq<int>) {
    exists lo, hi :: Right(report, recs, lo, hi)
  }

  lemma LowestScanned(recs: seq<int>, bs: seq<Block>, lo: int)
    requires ProperBlocks(bs) && bs != [] && forall x :: Cover(bs, x) == multiset(recs)[x]
    requires lo in recs && forall r :: r in recs ==> lo <= r
    ensures lo == bs[0].lo
  {
    LowestBlock(bs);
    assert multiset(recs)[bs[0].lo] >= 1;
    assert bs[0].lo in recs;
    assert Cover(bs, lo) == multiset(recs)[lo] && multiset(recs)[lo] >= 1;
  }

  lemma CountedInBlocks(report: seq<Range>, recs: seq<int>, bs: seq<Block>, lo: int, hi: int)
    requires Right(report, recs, lo, hi) && forall x :: Cover(bs, x) == multiset(recs)[x]
    ensures AllCounted(report, bs)
  {
    forall i | 0 <= i < |report| ensures Counted(report[i], bs) {
      forall x | report[i].lo <= x <= report[i].hi ensures Cover(bs, x) == report[i].n {
        assert multiset(recs)[x] == report[i].n;
      }
    }
  }

  /** A right report is an exact one of the blocks scanned. */
  lemma RightIsExact(out: seq<Range>, recs: seq<int>, bs: seq<Block>)
    requires ProperBlocks(bs) && bs != [] && forall x :: Cover(bs, x) == multiset(recs)[x]
    requires RightReport(NonEmpty(out), recs)
    ensures Exact(out, bs[0].lo, bs)
  {
    var lo, hi :| Right(NonEmpty(out), recs, lo, hi);
    CountedInBlocks(NonEmpty(out), recs, bs, lo, hi);
    LowestScanned(recs, bs, lo);
    ReportsTile(out, lo, hi + 1, bs);
  }

  /** Where every compaction is right, the code as written reports right if and only if its final ends are sorted. */
  lemma FlushDecides(recs: seq<int>)
    requires recs != [] && Positive(recs) && AllCompactRight(Blocks(recs))
    ensures RightReport(NonEmpty(Process(Blocks(recs), true)), recs) <==> Sorted(TakeAll(Blocks(recs), true).ends)
  {
    var bs := Blocks(recs);
    BlocksCount(recs);
    if Sorted(TakeAll(bs, true).ends) {
      var lo, hi := AsWrittenExact(recs);
    }
    if RightReport(NonEmpty(Process(bs, true)), recs) {
      RightIsExact(Process(bs, true), recs, bs);
      SweepExact(bs);
    }
  }

  // ---------- numbers that do not repeat ----------

  ghost predicate Distinct(recs: seq<int>) {
    forall x :: multiset(recs)[x] <= 1
  }

  /** No number lies in two blocks. */
  ghost predicate NoRepeats(bs: seq<Block>) {
    forall x :: Cover(bs, x) <= 1
  }

  lemma {:induction false} CoverMonotone(bs: seq<Block>, k: nat, x: int)
    requires k <= |bs|
    ensures 0 <= Cover(bs[..k], x) <= Cover(bs, x)
    decreases |bs| - k
  {
    if k < |bs| {
      CoverMonotone(bs, k + 1, x);
      assert bs[..k + 1] == bs[..k] + [bs[k]];
      CoverAppend(bs[..k], bs[k], x);
    } else {
      assert bs[..k] == bs;
    }
    CoverNonNegative(bs[..k], x);
  }

  /** Without repeats there is never more than one open block. */
  lemma OneOpen(s: Sweep, k: nat, bs: seq<Block>)
    requires SweepOk(s, k, bs) && NoRepeats(bs)
    ensures |s.ends| <= 1
  {
    ReachSplit(s.ends, 0, s.start);
    CoverMonotone(bs, k, s.start);
  }

  lemma {:induction false} FewOpen(bs: seq<Block>, k: nat)
    requires ProperBlocks(bs) && NoRepeats(bs) && k <= |bs|
    ensures TakeAll(bs[..k], true) == TakeAll(bs[..k], false) && |TakeAll(bs[..k], true).ends| <= 1
  {
    if k > 0 {
      FewOpen(bs, k - 1);
      assert bs[..k][..k - 1] == bs[..k - 1];
      var s := TakeAll(bs[..k - 1], true);
      SortedEnds(s.ends);
      CompactsSame(s, bs[k - 1]);
      TakeAllKeeps(k, bs);
      OneOpen(TakeAll(bs[..k], false), k, bs);
    }
  }

  /** Where no number repeats, both places do no harm. */
  lemma DistinctHarmless(recs: seq<int>)
    requires recs != [] && Positive(recs) && Distinct(recs)
    ensures Harmless(Blocks(recs))
  {
    BlocksCount(recs);
    var bs := Blocks(recs);
    forall k | 0 <= k < |bs| ensures CompactsRight(TakeAll(bs[..k], true), bs[k]) {
      FewOpen(bs, k);
      SortedEnds(TakeAll(bs[..k], true).ends);
    }
    FewOpen(bs, |bs|);
    assert bs[..|bs|] == bs;
  }

  // ---------- what goes wrong ----------

  lemma ExampleBlocks()
    ensures Blocks([1, 2, 3, 2]) == [Block(1, 3), Block(2, 2)]
  {
    var s0 := Scan(0, 0, []);
    assert [1, 2, 3, 2][..3] == [1, 2, 3] && [1, 2, 3][..2] == [1, 2] && [1, 2][..1] == [1] && [1][..0] == [];
    assert AddAll(s0, [1]) == Scan(1, 1, []);
    assert AddAll(s0, [1, 2]) == Scan(1, 2, []);
    assert AddAll(s0, [1, 2, 3]) == Scan(1, 3, []);
    assert DbWrite([], Block(1, 3)) == [Block(1, 3)];
    assert AddAll(s0, [1, 2, 3, 2]) == Scan(2, 2, [Block(1, 3)]);
    assert DbWrite([], Block(2, 2)) == [Block(2, 2)];
  }

  lemma ExampleSweep()
    ensures TakeAll([Block(1, 3), Block(2, 2)], true) == Sweep(2, [3, 2], [Range(1, 1, 1)])
  {
    var b1, b2 := Block(1, 3), Block(2, 2);
    assert [b1, b2][..1] == [b1] && [b1][..0] == [];
    assert TakeAll([], true) == Sweep(0, [], []);
    assert Compress([], 0, true) == [];
    assert TakeAll([b1], true) == Sweep(1, [3], []);
    var s := Sweep(1, [3], []);
    assert SortEnds([3]) == [3] && Continued([3], 2, 0) == 1;
    assert Compress([3], 0, true) == [3];
    assert FlushDead(s, 0, 2) == (s, 0);
    assert SkipEqual([3], 0, 1) == 1;
    assert FlushActive(s, 0, 2) == Sweep(2, [3], [Range(1, 1, 1)]);
    assert Advance(s, 2, true) == Sweep(2, [3], [Range(1, 1, 1)]);
    assert [3] + [2] == [3, 2];
  }

  /** Scanning 1, 2, 3, 2, the code as written reports record 3 twice. */
  lemma AsWrittenMiscounts()
    ensures Process(Blocks([1, 2, 3, 2]), true) == [Range(1, 1, 1), Range(2, 3, 2), Range(4, 2, 1)]
    ensures multiset([1, 2, 3, 2])[3] == 1
  {
    ExampleBlocks();
    ExampleSweep();
    ExampleFlush();
  }

  lemma ExampleFlush()
    ensures FlushFinal(Sweep(2, [3, 2], [Range(1, 1, 1)]), 0).out == [Range(1, 1, 1), Range(2, 3, 2), Range(4, 2, 1)]
  {
    var s := Sweep(2, [3, 2], [Range(1, 1, 1)]);
    assert SkipEqual([3, 2], 0, 1) == 1 && SkipEqual([3, 2], 1, 2) == 2;
    var s1 := Flush(s, 0, 4);
    assert s1 == Sweep(4, [3, 2], [Range(1, 1, 1), Range(2, 3, 2)]);
    assert FlushFinal(s, 0) == FlushFinal(s1, 1);
    assert FlushFinal(s1, 1) == Flush(s1, 1, 3);
  }

  function Upto(lo: int, hi: int): seq<int>
    decreases hi - lo
  {
    if hi < lo then [] else Upto(lo, hi - 1) + [hi]
  }

  lemma {:induction false} UptoFrom(lo: int, hi: int)
    ensures forall x :: x in Upto(lo, hi) ==> lo <= x
    decreases hi - lo
  {
    if lo <= hi { UptoFrom(lo, hi - 1); }
  }

  lemma {:induction false} AddAppend(s: Scan, a: seq<int>, b: seq<int>)
    ensures AddAll(s, a + b) == AddAll(AddAll(s, a), b)
  {
    if b == [] {
      assert a + b == a;
    } else {
      AddAppend(s, a, b[..|b| - 1]);
      assert (a + b)[..|a + b| - 1] == a + b[..|b| - 1];
    }
  }

  /** Consecutive numbers that do not follow on from the open block close it and become the open block. */
  lemma {:induction false} AddRun(s: Scan, lo: int, hi: int)
    requires 0 < lo <= hi && (s.begin > 0 ==> lo != s.recno + 1)
    ensures AddAll(s, Upto(lo, hi)) ==
      Scan(lo, hi, if s.begin > 0 then DbWrite(s.db, Block(s.begin, s.recno)) else s.db)
    decreases hi - lo
  {
    var front := Upto(lo, hi - 1);
    assert Upto(lo, hi)[..|Upto(lo, hi)| - 1] == front;
    if lo < hi { AddRun(s, lo, hi - 1); } else { assert front == []; }
  }

  lemma {:induction false} WriteLast(db: seq<Block>, b: Block)
    requires forall i :: 0 <= i < |db| ==> Before(db[i], b)
    ensures DbWrite(db, b) == db + [b]
  {
    if db != [] {
      WriteLast(db[1..], b);
      assert db + [b] == [db[0]] + (db[1..] + [b]);
    }
  }

  /** Scanning one more stretch of consecutive numbers after blocks that sort before the open one. */
  lemma {:induction false} ThenRun(recs: seq<int>, s: Scan, lo: int, hi: int)
    requires AddAll(Scan(0, 0, []), recs) == s && 0 < lo <= hi && s.begin > 0 && lo != s.recno + 1
    requires forall i :: 0 <= i < |s.db| ==> Before(s.db[i], Block(s.begin, s.recno))
    ensures AddAll(Scan(0, 0, []), recs + Upto(lo, hi)) == Scan(lo, hi, s.db + [Block(s.begin, s.recno)])
  {
    AddAppend(Scan(0, 0, []), recs, Upto(lo, hi));
    AddRun(s, lo, hi);
    WriteLast(s.db, Block(s.begin, s.recno));
  }

  /** Record 1, then 1 to `e`, 1 to `f` and `m` to `h`. */
  function Scanned(m: int, e: int, f: int, h: int): seq<int> {
    [1] + Upto(1, e) + Upto(1, f) + Upto(m, h)
  }

  function Found(m: int, e: int, f: int, h: int): seq<Block> {
    [Block(1, 1), Block(1, e), Block(1, f), Block(m, h)]
  }

  lemma FirstRuns(e: int) returns (recs: seq<int>)
    requires 2 < e
    ensures recs == [1] + Upto(1, e) && AddAll(Scan(0, 0, []), recs) == Scan(1, e, [Block(1, 1)])
  {
    var one := [1];
    assert one[..0] == [] && AddAll(Scan(0, 0, []), one) == Scan(1, 1, []);
    ThenRun(one, Scan(1, 1, []), 1, e);
    assert [] + [Block(1, 1)] == [Block(1, 1)];
    recs := one + Upto(1, e);
  }

  lemma FoundBlocks(m: int, e: int, f: int, h: int)
    requires 2 < m <= e < f < h
    ensures Blocks(Scanned(m, e, f, h)) == Found(m, e, f, h)
  {
    var recs := FirstRuns(e);
    ThenRun(recs, Scan(1, e, [Block(1, 1)]), 1, f);
    assert [Block(1, 1)] + [Block(1, e)] == [Block(1, 1), Block(1, e)];
    ThenRun(recs + Upto(1, f), Scan(1, f, [Block(1, 1), Block(1, e)]), m, h);
    assert [Block(1, 1), Block(1, e)] + [Block(1, f)] == [Block(1, 1), Block(1, e), Block(1, f)];
    WriteLast([Block(1, 1), Block(1, e), Block(1, f)], Block(m, h));
  }

  lemma ScannedPositive(m: int, e: int, f: int, h: int)
    requires m > 0
    ensures Positive(Scanned(m, e, f, h))
  {
    UptoFrom(1, e);
    UptoFrom(1, f);
    UptoFrom(m, h);
    var recs := Scanned(m, e, f, h);
    forall i | 0 <= i < |recs| ensures recs[i] > 0 { assert recs[i] in recs; }
  }

  lemma {:induction false} FirstTaken(b: Block, asWritten: bool)
    requires b.lo > 0
    ensures TakeAll([b], asWritten) == Sweep(b.lo, [b.hi], [])
  {
    assert [b][..0] == [] && Compress([], 0, asWritten) == [];
  }

  /** A block that starts where the window does, and continues none, is one more open block. */
  lemma {:induction false} OpensHere(bs: seq<Block>, s: Sweep, b: Block, asWritten: bool)
    requires TakeAll(bs, asWritten) == s && Sorted(s.ends) && b.lo == s.start
    requires forall i :: 0 <= i < |s.ends| ==> s.ends[i] + 1 != b.lo
    ensures TakeAll(bs + [b], asWritten) == s.(ends := s.ends + [b.hi])
  {
    assert (bs + [b])[..|bs|] == bs;
    SortedStays(s.ends);
  }

  /** The first two blocks start together, */
  lemma TwoOpen(e: int) returns (bs: seq<Block>)
    requires 2 < e
    ensures bs == [Block(1, 1), Block(1, e)] && TakeAll(bs, true) == Sweep(1, [1, e], [])
  {
    bs := [Block(1, 1)];
    FirstTaken(Block(1, 1), true);
    OpensHere(bs, Sweep(1, [1], []), Block(1, e), true);
    bs := bs + [Block(1, e)];
    assert [1] + [e] == [1, e];
  }

  /** and so does the third. */
  lemma ThreeOpen(e: int, f: int) returns (bs: seq<Block>)
    requires 2 < e < f
    ensures bs == [Block(1, 1), Block(1, e), Block(1, f)] && TakeAll(bs, true) == Sweep(1, [1, e, f], [])
  {
    bs := TwoOpen(e);
    OpensHere(bs, Sweep(1, [1, e], []), Block(1, f), true);
    bs := bs + [Block(1, f)];
    assert [1, e] + [f] == [1, e, f];
  }

  /** The window moves on to `m`: the end 1 is dead, and of `e` and `f` the compaction keeps `e` twice. */
  lemma Miscompacted(m: int, e: int, f: int)
    requires 2 < m <= e < f
    ensures Advance(Sweep(1, [1, e, f], []), m, true) == Sweep(m, [e, e], [Range(1, 1, 3), Range(2, m - 1, 2)])
  {
    var s, t := Sweep(1, [1, e, f], []), Sweep(2, [1, e, f], [Range(1, 1, 3)]);
    assert SkipEqual([1, e, f], 0, 1) == 1 && Flush(s, 0, m) == t;
    assert FlushDead(s, 0, m) == FlushDead(t, 1, m) == (t, 1);
    assert Compress([1, e, f], 1, true) == [e, e];
    assert SkipEqual([e, e], 0, 1) == SkipEqual([e, e], 0, 2) == 2;
    var u, v := Sweep(2, [e, e], [Range(1, 1, 3)]), Sweep(m, [e, e], [Range(1, 1, 3), Range(2, m - 1, 2)]);
    assert Flush(u, 0, m) == v;
    assert FlushActive(u, 0, m) == FlushActive(v, 2, m) == v;
  }

  lemma FourTaken(m: int, e: int, f: int, h: int)
    requires 2 < m <= e < f < h
    ensures TakeAll(Found(m, e, f, h), true) == Sweep(m, [e, e, h], [Range(1, 1, 3), Range(2, m - 1, 2)])
  {
    var bs := ThreeOpen(e, f);
    Miscompacted(m, e, f);
    assert Found(m, e, f, h)[..3] == bs;
    SortedStays([1, e, f]);
    assert [e, e] + [h] == [e, e, h];
  }

  lemma FourFlushed(m: int, e: int, h: int)
    requires 2 < m <= e < h
    ensures var s := Sweep(m, [e, e, h], [Range(1, 1, 3), Range(2, m - 1, 2)]);
            FlushFinal(s, 0).out == [Range(1, 1, 3), Range(2, m - 1, 2), Range(m, e, 3), Range(e + 1, h, 1)]
  {
    var s := Sweep(m, [e, e, h], [Range(1, 1, 3), Range(2, m - 1, 2)]);
    assert SkipEqual([e, e, h], 0, 1) == SkipEqual([e, e, h], 0, 2) == 2 && SkipEqual([e, e, h], 2, 3) == 3;
    var t := Flush(s, 0, e + 1);
    assert t == Sweep(e + 1, [e, e, h], [Range(1, 1, 3), Range(2, m - 1, 2), Range(m, e, 3)]);
    assert FlushFinal(s, 0) == FlushFinal(t, 2) == FlushFinal(Flush(t, 2, h + 1), 3) == Flush(t, 2, h + 1);
  }

  /**
   * The last flush meets sorted ends, yet the numbers after `e` up to `f`, which were scanned
   * twice, are reported once; with 3, 5, 7 and 9 these are 6 and 7.
   */
  lemma CompactionMiscounts(m: int, e: int, f: int, h: int)
    requires 2 < m <= e < f < h
    ensures Sorted(TakeAll(Blocks(Scanned(m, e, f, h)), true).ends)
    ensures Process(Blocks(Scanned(m, e, f, h)), true)
         == [Range(1, 1, 3), Range(2, m - 1, 2), Range(m, e, 3), Range(e + 1, h, 1)]
    ensures forall x :: e < x <= f ==> multiset(Scanned(m, e, f, h))[x] == 2
  {
    FoundBlocks(m, e, f, h);
    FourTaken(m, e, f, h);
    FourFlushed(m, e, h);
    ScannedPositive(m, e, f, h);
    BlocksCount(Scanned(m, e, f, h));
    forall x | e < x <= f ensures Cover(Found(m, e, f, h), x) == 2 { FoundTwice(m, e, f, h, x); }
  }

  lemma {:induction false} FoundTwice(m: int, e: int, f: int, h: int, x: int)
    requires 2 < m <= e < f < h && e < x <= f
    ensures Cover(Found(m, e, f, h), x) == 2
  {
    var b1, b2, b3, b4 := Block(1, 1), Block(1, e), Block(1, f), Block(m, h);
    assert Found(m, e, f, h)[1..] == [b2, b3, b4] && [b2, b3, b4][1..] == [b3, b4] && [b3, b4][1..] == [b4];
    assert Cover([b4], x) == Holds(b4, x);
    assert Cover([b3, b4], x) == Holds(b3, x) + Holds(b4, x);
    assert Cover([b2, b3, b4], x) == Holds(b2, x) + Holds(b3, x) + Holds(b4, x);
  }

  /** Record 1, then 1 to `e`, 1 to `f` twice, and `m` to `e`. */
  function Twice(m: int, e: int, f: int): seq<int> {
    [1] + Upto(1, e) + Upto(1, f) + Upto(1, f) + Upto(m, e)
  }

  lemma TwiceBlocks(m: int, e: int, f: int)
    requires 2 < m <= e < f
    ensures Blocks(Twice(m, e, f)) == [Block(1, 1), Block(1, e), Block(1, f), Block(1, f), Block(m, e)]
  {
    var recs := FirstRuns(e);
    var two := [Block(1, 1), Block(1, e)];
    ThenRun(recs, Scan(1, e, [Block(1, 1)]), 1, f);
    assert [Block(1, 1)] + [Block(1, e)] == two;
    ThenRun(recs + Upto(1, f), Scan(1, f, two), 1, f);
    ThenRun(recs + Upto(1, f) + Upto(1, f), Scan(1, f, two + [Block(1, f)]), m, e);
    WriteLast(two + [Block(1, f)] + [Block(1, f)], Block(m, e));
  }

  lemma FourOpen(e: int, f: int) returns (bs: seq<Block>)
    requires 2 < e < f
    ensures bs == [Block(1, 1), Block(1, e), Block(1, f), Block(1, f)]
    ensures TakeAll(bs, true) == Sweep(1, [1, e, f, f], [])
  {
    bs := ThreeOpen(e, f);
    OpensHere(bs, Sweep(1, [1, e, f], []), Block(1, f), true);
    bs := bs + [Block(1, f)];
    assert [1, e, f] + [f] == [1, e, f, f];
  }

  /** The window moves on to `m`: the compaction keeps `e` twice and only one of the two `f`. */
  lemma OneLost(m: int, e: int, f: int)
    requires 2 < m <= e < f
    ensures Advance(Sweep(1, [1, e, f, f], []), m, true)
         == Sweep(m, [e, e, f], [Range(1, 1, 4), Range(2, m - 1, 3), Range(m, m - 1, 1)])
  {
    var s, t := Sweep(1, [1, e, f, f], []), Sweep(2, [1, e, f, f], [Range(1, 1, 4)]);
    assert SkipEqual(s.ends, 0, 1) == 1 && Flush(s, 0, m) == t;
    assert FlushDead(s, 0, m) == FlushDead(t, 1, m) == (t, 1);
    assert Compress(s.ends, 1, true) == [e, e, f];
    assert SkipEqual([e, e, f], 0, 1) == SkipEqual([e, e, f], 0, 2) == 2 && SkipEqual([e, e, f], 2, 3) == 3;
    var u, v := Sweep(2, [e, e, f], [Range(1, 1, 4)]), Sweep(m, [e, e, f], [Range(1, 1, 4), Range(2, m - 1, 3)]);
    assert Flush(u, 0, m) == v;
    assert FlushActive(u, 0, m) == FlushActive(v, 2, m) == FlushActive(Flush(v, 2, m), 3, m) == Flush(v, 2, m);
  }

  lemma FiveTaken(m: int, e: int, f: int) returns (bs: seq<Block>)
    requires 2 < m <= e < f
    ensures bs == [Block(1, 1), Block(1, e), Block(1, f), Block(1, f)] && !CompactsRight(TakeAll(bs, true), Block(m, e))
    ensures TakeAll(bs + [Block(m, e)], true)
         == Sweep(m, [e, e, f, e], [Range(1, 1, 4), Range(2, m - 1, 3), Range(m, m - 1, 1)])
  {
    bs := FourOpen(e, f);
    WrongHere(m, e, f);
    FifthTaken(m, e, f);
    TakesNext(bs, Sweep(1, [1, e, f, f], []), Block(m, e), true);
  }

  lemma {:induction false} TakesNext(bs: seq<Block>, s: Sweep, b: Block, asWritten: bool)
    requires TakeAll(bs, asWritten) == s
    ensures TakeAll(bs + [b], asWritten) == TakeBlock(s, b, asWritten)
  {
    assert (bs + [b])[..|bs|] == bs;
  }

  lemma FifthTaken(m: int, e: int, f: int)
    requires 2 < m <= e < f
    ensures TakeBlock(Sweep(1, [1, e, f, f], []), Block(m, e), true)
         == Sweep(m, [e, e, f, e], [Range(1, 1, 4), Range(2, m - 1, 3), Range(m, m - 1, 1)])
  {
    OneLost(m, e, f);
    SortedStays([1, e, f, f]);
    assert [e, e, f] + [e] == [e, e, f, e];
  }

  lemma WrongHere(m: int, e: int, f: int)
    requires 2 < m <= e < f
    ensures !CompactsRight(Sweep(1, [1, e, f, f], []), Block(m, e))
  {
    SortedStays([1, e, f, f]);
    var s := Sweep(1, [1, e, f, f], []);
    assert SkipEqual(s.ends, 0, 1) == 1 && FlushDead(s, 0, m).1 == FlushDead(Flush(s, 0, m), 1, m).1 == 1;
  }

  lemma FiveFlushed(m: int, e: int, f: int, out: seq<Range>)
    requires 2 < m <= e < f
    ensures FlushFinal(Sweep(m, [e, e, f, e], out), 0).out
         == out + [Range(m, e, 4)] + [Range(e + 1, f, 2)] + [Range(f + 1, e, 1)]
  {
    var ends := [e, e, f, e];
    assert SkipEqual(ends, 0, 1) == SkipEqual(ends, 0, 2) == 2 && SkipEqual(ends, 2, 3) == 3;
    var s := Sweep(m, ends, out);
    var t := Flush(s, 0, e + 1);
    var u := Flush(t, 2, f + 1);
    var v := Flush(u, 3, e + 1);
    assert FlushFinal(s, 0) == FlushFinal(t, 2) == FlushFinal(u, 3) == FlushFinal(v, 4) == v;
  }

  lemma {:induction false} NonEmptySnoc(out: seq<Range>, r: Range)
    ensures NonEmpty(out + [r]) == NonEmpty(out) + if IsEmpty(r) then [] else [r]
  {
    assert (out + [r])[..|out|] == out;
  }

  lemma FiveRanges(m: int, e: int, f: int)
    requires 2 < m <= e < f
    ensures NonEmpty([Range(1, 1, 4), Range(2, m - 1, 3), Range(m, m - 1, 1)] +
              [Range(m, e, 4)] + [Range(e + 1, f, 2)] + [Range(f + 1, e, 1)])
         == [Range(1, 1, 4), Range(2, m - 1, 3), Range(m, e, 4), Range(e + 1, f, 2)]
  {
    var out: seq<Range> := [];
    NonEmptySnoc(out, Range(1, 1, 4));
    NonEmptySnoc([Range(1, 1, 4)], Range(2, m - 1, 3));
    NonEmptySnoc([Range(1, 1, 4)] + [Range(2, m - 1, 3)], Range(m, m - 1, 1));
    out := [Range(1, 1, 4)] + [Range(2, m - 1, 3)] + [Range(m, m - 1, 1)];
    assert out == [Range(1, 1, 4), Range(2, m - 1, 3), Range(m, m - 1, 1)] && [] + [Range(1, 1, 4)] == [Range(1, 1, 4)];
    NonEmptySnoc(out, Range(m, e, 4));
    NonEmptySnoc(out + [Range(m, e, 4)], Range(e + 1, f, 2));
    NonEmptySnoc(out + [Range(m, e, 4)] + [Range(e + 1, f, 2)], Range(f + 1, e, 1));
  }

  /** How often each number is scanned. */
  function TimesScanned(m: int, e: int, f: int, x: int): nat {
    if x < 1 || x > f then 0 else if x == 1 || m <= x <= e then 4 else if x < m then 3 else 2
  }

  lemma {:induction false} TwiceCover(m: int, e: int, f: int, x: int)
    requires 2 < m <= e < f
    ensures var n := Cover([Block(1, 1), Block(1, e), Block(1, f), Block(1, f), Block(m, e)], x);
            n == TimesScanned(m, e, f, x)
  {
    var b1, b2, b3, b5 := Block(1, 1), Block(1, e), Block(1, f), Block(m, e);
    assert [b1, b2, b3, b3, b5][1..] == [b2, b3, b3, b5] && [b2, b3, b3, b5][1..] == [b3, b3, b5];
    assert [b3, b3, b5][1..] == [b3, b5] && [b3, b5][1..] == [b5];
    assert Cover([b5], x) == Holds(b5, x) && Cover([b3, b5], x) == Holds(b3, x) + Holds(b5, x);
    assert Cover([b3, b3, b5], x) == Holds(b3, x) + Holds(b3, x) + Holds(b5, x);
  }

  lemma TwicePositive(m: int, e: int, f: int)
    requires m > 0
    ensures Positive(Twice(m, e, f))
  {
    UptoFrom(1, e);
    UptoFrom(1, f);
    UptoFrom(m, e);
    var recs := Twice(m, e, f);
    forall i | 0 <= i < |recs| ensures recs[i] > 0 { assert recs[i] in recs; }
  }

  lemma TwiceCounts(m: int, e: int, f: int)
    requires 2 < m <= e < f
    ensures forall x :: multiset(Twice(m, e, f))[x] == TimesScanned(m, e, f, x)
  {
    var recs := Twice(m, e, f);
    TwicePositive(m, e, f);
    TwiceBlocks(m, e, f);
    BlocksCount(recs);
    forall x ensures multiset(recs)[x] == TimesScanned(m, e, f, x) {
      TwiceCover(m, e, f, x);
      assert Cover(Blocks(recs), x) == multiset(recs)[x];
    }
  }

  lemma CountedRight(recs: seq<int>, m: int, e: int, f: int)
    requires 2 < m <= e < f && forall x :: multiset(recs)[x] == TimesScanned(m, e, f, x)
    ensures Right([Range(1, 1, 4), Range(2, m - 1, 3), Range(m, e, 4), Range(e + 1, f, 2)], recs, 1, f)
  {
    assert multiset(recs)[1] > 0 && multiset(recs)[f] > 0;
    forall r | r in recs ensures 1 <= r <= f { assert multiset(recs)[r] > 0; }
  }

  lemma FiveReported(m: int, e: int, f: int)
    requires 2 < m <= e < f
    ensures var s := Sweep(m, [e, e, f, e], [Range(1, 1, 4), Range(2, m - 1, 3), Range(m, m - 1, 1)]);
            var report := NonEmpty(FlushFinal(s, 0).out);
            report == [Range(1, 1, 4), Range(2, m - 1, 3), Range(m, e, 4), Range(e + 1, f, 2)]
  {
    FiveFlushed(m, e, f, [Range(1, 1, 4), Range(2, m - 1, 3), Range(m, m - 1, 1)]);
    FiveRanges(m, e, f);
  }

  lemma FiveCancel(m: int, e: int, f: int) returns (bs: seq<Block>)
    requires 2 < m <= e < f
    ensures bs == [Block(1, 1), Block(1, e), Block(1, f), Block(1, f), Block(m, e)]
    ensures !CompactsRight(TakeAll(bs[..4], true), bs[4]) && !Sorted(TakeAll(bs, true).ends)
    ensures NonEmpty(Process(bs, true)) == [Range(1, 1, 4), Range(2, m - 1, 3), Range(m, e, 4), Range(e + 1, f, 2)]
  {
    var four := FiveTaken(m, e, f);
    bs := four + [Block(m, e)];
    assert bs[..4] == four;
    var s := TakeAll(bs, true);
    assert s.ends[2] > s.ends[3];
    FiveReported(m, e, f);
  }

  /**
   * Two errors can cancel out: here a compaction is wrong and the last flush meets unsorted
   * ends, and the report is right.
   */
  lemma ErrorsCancel(m: int, e: int, f: int) returns (bs: seq<Block>)
    requires 2 < m <= e < f
    ensures bs == Blocks(Twice(m, e, f)) && |bs| == 5
    ensures !CompactsRight(TakeAll(bs[..4], true), bs[4]) && !Sorted(TakeAll(bs, true).ends)
    ensures Right(NonEmpty(Process(bs, true)), Twice(m, e, f), 1, f)
  {
    bs := FiveCancel(m, e, f);
    TwiceBlocks(m, e, f);
    TwiceCounts(m, e, f);
    CountedRight(Twice(m, e, f), m, e, f);
  }
}
