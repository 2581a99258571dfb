/**
 * What the sweep reports: the ranges tile the span that was scanned, and every count is
 * exact.
 */
module RecseqReport {
  import opened Recseq

  // ---------- pass 2 reports exactly ----------

  /** One flush adds a right range when the number of remaining ends is the count on that range. */
  lemma {:induction false} FlushReports(s: Sweep, pos: nat, before: int, lo: int, bs: seq<Block>)
    requires pos < |s.ends| && Reports(s.out, lo, s.start, bs)
    requires s.start <= s.ends[pos] + 1 && s.start <= before
    requires forall x :: s.start <= x <= s.ends[pos] && x < before ==> Cover(bs, x) == |s.ends| - pos
    ensures var t := Flush(s, pos, before); Reports(t.out, lo, t.start, bs) && t.ends == s.ends
  {
    var t := Flush(s, pos, before);
    assert t.out[..|t.out| - 1] == s.out;
  }

  /** On s.start .. before-1 the report still to be made is what the open blocks reach. */
  ghost predicate Owes(s: Sweep, before: int, bs: seq<Block>) {
    forall x :: s.start <= x < before ==> Cover(bs, x) == Reach(s.ends, x)
  }

  /** The ends before `pos` lie before the window, the others in or after it. */
  ghost predicate Window(s: Sweep, pos: nat) {
    && pos <= |s.ends|
    && (forall j :: 0 <= j < pos ==> s.ends[j] < s.start)
    && (forall j :: pos <= j < |s.ends| ==> s.ends[j] >= s.start)
  }

  /** Up to its first end the window owes the number of ends in it. */
  lemma {:induction false} OwesCount(s: Sweep, pos: nat, before: int, bs: seq<Block>)
    requires Sorted(s.ends) && Window(s, pos) && pos < |s.ends| && Owes(s, before, bs)
    ensures forall x :: s.start <= x <= s.ends[pos] && x < before ==> Cover(bs, x) == |s.ends| - pos
  {
    forall x | s.start <= x <= s.ends[pos] && x < before ensures Cover(bs, x) == |s.ends| - pos {
      ReachSplit(s.ends, pos, x);
    }
  }

  /** What holds before the dead blocks from `pos` on are flushed ... */
  ghost predicate DeadPre(s: Sweep, pos: nat, before: int, lo: int, bs: seq<Block>) {
    && Sorted(s.ends) && Window(s, pos) && s.start < before && Owes(s, before, bs) && Reports(s.out, lo, s.start, bs)
    && forall j :: 0 <= j < |s.ends| ==> s.ends[j] + 1 != before
  }

  /** ... and afterwards, with the survivors starting at `i`. */
  ghost predicate DeadPost(s: Sweep, pos: nat, t: Sweep, i: nat, before: int, lo: int, bs: seq<Block>) {
    && pos <= i <= |s.ends| && t.ends == s.ends
    && Window(t, i) && t.start < before && Owes(t, before, bs) && Reports(t.out, lo, t.start, bs)
    && (i < |s.ends| ==> s.ends[i] >= before)
    && (i > pos ==> t.start == s.ends[i - 1] + 1) && (i == pos ==> t.start == s.start)
  }

  /** Flushing the first end in the window leaves the window starting at the next different one. */
  lemma {:induction false} NextWindow(s: Sweep, pos: nat, t: Sweep, epos: nat)
    requires Sorted(s.ends) && Window(s, pos) && pos < |s.ends|
    requires t.ends == s.ends && t.start == s.ends[pos] + 1 && epos == SkipEqual(s.ends, pos, pos + 1)
    ensures Window(t, epos)
  {
    forall j | epos <= j < |s.ends| ensures s.ends[j] >= t.start {
      assert s.ends[pos] <= s.ends[epos] <= s.ends[j];
    }
    forall j | 0 <= j < epos ensures s.ends[j] < t.start {
      assert j <= pos || s.ends[j] == s.ends[pos];
    }
  }

  lemma {:induction false} FlushOneDead(s: Sweep, pos: nat, before: int, lo: int, bs: seq<Block>)
    requires DeadPre(s, pos, before, lo, bs) && pos < |s.ends| && s.ends[pos] < before
    ensures DeadPre(Flush(s, pos, before), SkipEqual(s.ends, pos, pos + 1), before, lo, bs)
    ensures Flush(s, pos, before).start == s.ends[pos] + 1
  {
    var t := Flush(s, pos, before);
    assert Reports(t.out, lo, t.start, bs) by {
      OwesCount(s, pos, before, bs);
      FlushReports(s, pos, before, lo, bs);
    }
    NextWindow(s, pos, t, SkipEqual(s.ends, pos, pos + 1));
  }

  lemma {:induction false} FlushDeadReports(s: Sweep, pos: nat, before: int, lo: int, bs: seq<Block>)
    requires DeadPre(s, pos, before, lo, bs)
    ensures DeadPost(s, pos, FlushDead(s, pos, before).0, FlushDead(s, pos, before).1, before, lo, bs)
    decreases |s.ends| - pos
  {
    if pos < |s.ends| && s.ends[pos] < before {
      FlushOneDead(s, pos, before, lo, bs);
      var t, epos := Flush(s, pos, before), SkipEqual(s.ends, pos, pos + 1);
      FlushDeadReports(t, epos, before, lo, bs);
      var (u, i) := FlushDead(t, epos, before);
      DeadOnward(s, pos, t, epos, u, i, before, lo, bs);
    }
  }

  /** What holds after the flush of the rest holds after the flush of all. */
  lemma {:induction false} DeadOnward(s: Sweep, pos: nat, t: Sweep, epos: nat, u: Sweep, i: nat, before: int,
    lo: int, bs: seq<Block>)
    requires pos < |s.ends| && t.ends == s.ends && t.start == s.ends[pos] + 1 && epos == SkipEqual(s.ends, pos, pos + 1)
    requires DeadPost(t, epos, u, i, before, lo, bs)
    ensures DeadPost(s, pos, u, i, before, lo, bs)
  {
    if i == epos { assert epos - 1 == pos || s.ends[epos - 1] == s.ends[pos]; }
  }

  lemma {:induction false} FlushActiveReports(s: Sweep, pos: nat, before: int, lo: int, bs: seq<Block>)
    requires pos <= |s.ends| && s.start <= before && Reports(s.out, lo, s.start, bs)
    requires forall j :: 0 <= j < |s.ends| ==> s.ends[j] >= before
    requires forall x :: s.start <= x < before ==> Cover(bs, x) == |s.ends| - pos
    ensures var t := FlushActive(s, pos, before);
      t.ends == s.ends && Reports(t.out, lo, t.start, bs) && t.start == (if pos < |s.ends| then before else s.start)
    decreases |s.ends| - pos
  {
    if pos < |s.ends| {
      FlushReports(s, pos, before, lo, bs);
      FlushActiveReports(Flush(s, pos, before), SkipEqual(s.ends, pos, pos + 1), before, lo, bs);
    }
  }

  /** The last flush is the flush of dead blocks with nothing after it. */
  lemma {:induction false} FinalIsDead(s: Sweep, pos: nat, before: int)
    requires pos <= |s.ends| && forall j :: 0 <= j < |s.ends| ==> s.ends[j] + 1 < before
    ensures FlushFinal(s, pos) == FlushDead(s, pos, before).0 && FlushDead(s, pos, before).1 == |s.ends|
    decreases |s.ends| - pos
  {
    if pos < |s.ends| {
      FinalIsDead(Flush(s, pos, before), SkipEqual(s.ends, pos, pos + 1), before);
    }
  }

  /** Between blocks: the window, the open ends and the report agree with the blocks taken so far. */
  ghost predicate SweepOk(s: Sweep, k: nat, bs: seq<Block>) {
    && 0 < k <= |bs|
    && s.ends != [] && Window(s, 0)
    && s.start <= bs[k - 1].lo
    && (forall x :: x >= s.start ==> Cover(bs[..k], x) == Reach(s.ends, x))
    && Reports(s.out, bs[0].lo, s.start, bs)
  }

  ghost predicate ProperBlocks(bs: seq<Block>) {
    SortedBlocks(bs) && forall i :: 0 <= i < |bs| ==> ProperBlock(bs[i])
  }

  lemma {:induction false} CloseWindowReports(s: Sweep, left: seq<int>, lo: int, lastEnd: int, first: int,
    bs: seq<Block>)
    requires s.start < lo && Reports(s.out, first, s.start, bs)
    requires forall j :: 0 <= j < |left| ==> left[j] >= lo
    requires forall x :: s.start <= x < lo ==> Cover(bs, x) == |left|
    requires if left == [] then lastEnd + 1 == s.start else lastEnd >= lo
    ensures var t := CloseWindow(s, left, lo, lastEnd);
      t.start == lo && t.ends == left && Reports(t.out, first, lo, bs)
  {
    FlushActiveReports(s.(ends := left), 0, lo, first, bs);
    var t := CloseWindow(s, left, lo, lastEnd);
    if left == [] {
      assert t.out[..|t.out| - 1] == s.out;
    }
  }

  /** Before the next block starts, the open blocks are all there is to report. */
  lemma OwesBefore(s: Sweep, k: nat, bs: seq<Block>)
    requires ProperBlocks(bs) && k < |bs| && SweepOk(s, k, bs)
    ensures Owes(s, bs[k].lo, bs) && s.start <= bs[k].lo
  {
    assert Before(bs[k - 1], bs[k]);
    forall x | s.start <= x < bs[k].lo ensures Cover(bs, x) == Reach(s.ends, x) {
      forall j | k <= j < |bs| ensures x < bs[j].lo {
        assert k < j ==> Before(bs[k], bs[j]);
      }
      CoverPrefix(bs, k, x);
    }
  }

  /** Once the dead ends are flushed, the rest reach all the way to `lo`. */
  lemma {:induction false} StillOpen(t: Sweep, i: nat, lo: int, bs: seq<Block>)
    requires Window(t, i) && t.start < lo && Owes(t, lo, bs)
    requires forall j :: i <= j < |t.ends| ==> t.ends[j] >= lo
    ensures forall x :: t.start <= x < lo ==> Cover(bs, x) == |t.ends| - i
    ensures forall x :: x >= lo ==> Reach(t.ends[i..], x) == Reach(t.ends, x)
  {
    forall x | t.start <= x < lo ensures Cover(bs, x) == |t.ends| - i {
      ReachSplit(t.ends, i, x);
    }
    forall x | x >= lo ensures Reach(t.ends[i..], x) == Reach(t.ends, x) {
      ReachDrop(t.ends, i, x);
    }
  }

  /** After the dead ends are flushed, the survivors all reach `lo` and are all that counts up to there. */
  lemma {:induction false} AfterDead(s: Sweep, t: Sweep, i: nat, lo: int, first: int, bs: seq<Block>)
    requires Sorted(s.ends) && DeadPost(s, 0, t, i, lo, first, bs)
    ensures forall j :: i <= j < |s.ends| ==> s.ends[j] >= lo
    ensures forall x :: t.start <= x < lo ==> Cover(bs, x) == |s.ends| - i
    ensures forall x :: x >= lo ==> Reach(s.ends[i..], x) == Reach(s.ends, x)
  {
    StillOpen(t, i, lo, bs);
  }

  /** Moving the window to the next block's start reports everything before it. */
  lemma {:induction false} AdvanceReports(s: Sweep, lo: int, first: int, bs: seq<Block>)
    requires DeadPre(s, 0, lo, first, bs) && s.ends != []
    ensures var t := Advance(s, lo, false);
      && t.start == lo && Window(t, 0) && Reports(t.out, first, lo, bs)
      && forall x :: x >= lo ==> Reach(t.ends, x) == Reach(s.ends, x)
  {
    FlushDeadReports(s, 0, lo, first, bs);
    var (t, i) := FlushDead(s, 0, lo);
    AfterDead(s, t, i, lo, first, bs);
    var lastEnd := if i < |s.ends| then s.ends[i] else s.ends[|s.ends| - 1];
    CloseWindowReports(t, s.ends[i..], lo, lastEnd, first, bs);
  }

  /** A block that continues an open one just moves that end. */
  lemma ContinueKeeps(s: Sweep, k: nat, bs: seq<Block>, i: nat)
    requires ProperBlocks(bs) && k < |bs| && SweepOk(s, k, bs) && i < |s.ends| && s.ends[i] + 1 == bs[k].lo
    ensures SweepOk(s.(ends := s.ends[i := bs[k].hi]), k + 1, bs)
  {
    assert Before(bs[k - 1], bs[k]) && ProperBlock(bs[k]);
    assert bs[..k + 1] == bs[..k] + [bs[k]];
    var ends' := s.ends[i := bs[k].hi];
    forall x | x >= s.start ensures Cover(bs[..k + 1], x) == Reach(ends', x) {
      CoverAppend(bs[..k], bs[k], x);
      ReachUpdate(s.ends, i, bs[k].hi, x);
    }
  }

  /** A block that starts where the window starts becomes one more open block. */
  lemma {:induction false} OpenKeeps(s: Sweep, k: nat, bs: seq<Block>)
    requires ProperBlocks(bs) && k < |bs| && s.start == bs[k].lo && Window(s, 0)
    requires forall x :: x >= s.start ==> Cover(bs[..k], x) == Reach(s.ends, x)
    requires Reports(s.out, bs[0].lo, s.start, bs)
    ensures SweepOk(s.(ends := s.ends + [bs[k].hi]), k + 1, bs)
  {
    assert ProperBlock(bs[k]);
    assert bs[..k + 1] == bs[..k] + [bs[k]];
    forall x | x >= s.start ensures Cover(bs[..k + 1], x) == Reach(s.ends + [bs[k].hi], x) {
      CoverAppend(bs[..k], bs[k], x);
      ReachAppend(s.ends, bs[k].hi, x);
    }
  }

  /** Sorting the ends changes nothing the sweep relies on. */
  lemma SortKeeps(s: Sweep, k: nat, bs: seq<Block>)
    requires SweepOk(s, k, bs)
    ensures SweepOk(s.(ends := SortEnds(s.ends)), k, bs) && Sorted(SortEnds(s.ends))
  {
    SortedEnds(s.ends);
    var r := SortEnds(s.ends);
    forall j | 0 <= j < |r| ensures r[j] >= s.start {
      assert r[j] in r;
    }
  }

  lemma {:induction false} CoverNonNegative(bs: seq<Block>, x: int)
    ensures 0 <= Cover(bs, x)
  {
    if bs != [] { CoverNonNegative(bs[1..], x); }
  }

  lemma TakeBlockKeeps(s: Sweep, k: nat, bs: seq<Block>)
    requires ProperBlocks(bs) && k < |bs| && SweepOk(s, k, bs)
    ensures SweepOk(TakeBlock(s, bs[k], false), k + 1, bs)
  {
    SortKeeps(s, k, bs);
    var s0 := s.(ends := SortEnds(s.ends));
    var i := Continued(s0.ends, bs[k].lo, 0);
    if i < |s0.ends| {
      ContinueKeeps(s0, k, bs, i);
    } else {
      OwesBefore(s0, k, bs);
      if bs[k].lo > s0.start {
        AdvanceReports(s0, bs[k].lo, bs[0].lo, bs);
      }
      OpenKeeps(Advance(s0, bs[k].lo, false), k, bs);
    }
  }

  lemma {:induction false} TakeAllKeeps(k: nat, bs: seq<Block>)
    requires ProperBlocks(bs) && 0 < k <= |bs|
    ensures SweepOk(TakeAll(bs[..k], false), k, bs)
  {
    assert bs[..k][..k - 1] == bs[..k - 1];
    if k == 1 {
      assert TakeAll(bs[..0], false) == Sweep(0, [], []);
      assert ProperBlock(bs[0]);
      OpenKeeps(Sweep(bs[0].lo, [], []), 0, bs);
    } else {
      TakeAllKeeps(k - 1, bs);
      TakeBlockKeeps(TakeAll(bs[..k - 1], false), k - 1, bs);
    }
  }

  lemma {:induction false} HighestEnd(ends: seq<int>)
    requires Sorted(ends) && ends != []
    ensures Reach(ends, ends[|ends| - 1]) >= 1
    ensures forall x :: x > ends[|ends| - 1] ==> Reach(ends, x) == 0
  {
    var front, hi := ends[..|ends| - 1], ends[|ends| - 1];
    assert ends == front + [hi];
    ReachAppend(front, hi, hi);
    forall x | x > hi ensures Reach(ends, x) == 0 {
      ReachSplit(ends, |ends|, x);
    }
  }

  /** The last flush of sorted ends reports all that is owed. */
  lemma {:induction false} FinalReports(s: Sweep, first: int, bs: seq<Block>)
    requires Sorted(s.ends) && s.ends != [] && Window(s, 0) && Reports(s.out, first, s.start, bs)
    requires Owes(s, s.ends[|s.ends| - 1] + 2, bs)
    ensures Reports(FlushFinal(s, 0).out, first, s.ends[|s.ends| - 1] + 1, bs)
  {
    var hi := s.ends[|s.ends| - 1];
    FinalIsDead(s, 0, hi + 2);
    FlushDeadReports(s, 0, hi + 2, first, bs);
  }

  /** Pass 2: the report tiles the span of the blocks and every count is exact. */
  lemma ProcessReports(bs: seq<Block>) returns (hi: int)
    requires ProperBlocks(bs) && bs != []
    ensures Reports(Process(bs, false), bs[0].lo, hi + 1, bs)
    ensures Cover(bs, hi) >= 1 && forall x :: x > hi ==> Cover(bs, x) == 0
  {
    assert bs[..|bs|] == bs;
    TakeAllKeeps(|bs|, bs);
    var s := TakeAll(bs, false);
    SortKeeps(s, |bs|, bs);
    var s0 := s.(ends := SortEnds(s.ends));
    hi := s0.ends[|s0.ends| - 1];
    FinalReports(s0, bs[0].lo, bs);
    HighestEnd(s0.ends);
  }

  // ---------- the report, read off ----------

  function NonEmpty(out: seq<Range>): seq<Range> {
    if out == [] then []
    else NonEmpty(out[..|out| - 1]) + (if IsEmpty(out[|out| - 1]) then [] else [out[|out| - 1]])
  }

  /** The ranges follow each other without gap or overlap from `lo` to `hi`. */
  ghost predicate Tiles(rs: seq<Range>, lo: int, hi: int) {
    && (rs == [] ==> lo == hi + 1)
    && (rs != [] ==> rs[0].lo == lo && rs[|rs| - 1].hi == hi)
    && (forall i :: 0 <= i < |rs| ==> rs[i].lo <= rs[i].hi)
    && (forall i :: 0 <= i < |rs| - 1 ==> rs[i + 1].lo == rs[i].hi + 1)
  }

  /** One more range at the end. */
  lemma TilesSnoc(front: seq<Range>, r: Range, lo: int, hi: int)
    ensures Tiles(front + [r], lo, hi) <==> Tiles(front, lo, r.lo - 1) && r.lo <= r.hi && r.hi == hi
  {
    var rs := front + [r];
    assert rs[|front|] == r && forall i :: 0 <= i < |front| ==> rs[i] == front[i];
    if Tiles(rs, lo, hi) {
      forall i | 0 <= i < |front| - 1 ensures front[i + 1].lo == front[i].hi + 1 {
        assert rs[i + 1].lo == rs[i].hi + 1;
      }
      if front != [] { assert rs[|front| - 1 + 1].lo == rs[|front| - 1].hi + 1; }
    }
    if Tiles(front, lo, r.lo - 1) && r.lo <= r.hi && r.hi == hi {
      forall i | 0 <= i < |rs| - 1 ensures rs[i + 1].lo == rs[i].hi + 1 {
        if i < |front| - 1 { assert front[i + 1].lo == front[i].hi + 1; }
      }
    }
  }

  ghost predicate AllCounted(rs: seq<Range>, bs: seq<Block>) {
    forall i {:trigger Counted(rs[i], bs)} :: 0 <= i < |rs| ==> Counted(rs[i], bs)
  }

  lemma CountedSnoc(front: seq<Range>, r: Range, bs: seq<Block>)
    ensures AllCounted(front + [r], bs) <==> AllCounted(front, bs) && Counted(r, bs)
  {
    var rs := front + [r];
    if AllCounted(rs, bs) {
      assert Counted(rs[|front|], bs);
      forall i | 0 <= i < |front| ensures Counted(front[i], bs) { assert Counted(rs[i], bs); }
    }
    if AllCounted(front, bs) && Counted(r, bs) {
      forall i | 0 <= i < |rs| ensures Counted(rs[i], bs) { if i < |front| { assert Counted(front[i], bs); } }
    }
  }

  /** The ranges tile from `lo` to `hi` and count right. */
  ghost predicate TileRight(rs: seq<Range>, lo: int, hi: int, bs: seq<Block>) {
    Tiles(rs, lo, hi) && AllCounted(rs, bs)
  }

  lemma LastRange(front: seq<Range>, r: Range, lo: int, next: int, bs: seq<Block>)
    requires !IsEmpty(r)
    ensures next == r.hi + 1 && TileRight(front, lo, r.lo - 1, bs) && Counted(r, bs)
      <==> TileRight(front + [r], lo, next - 1, bs)
  {
    TilesSnoc(front, r, lo, next - 1);
    CountedSnoc(front, r, bs);
  }

  lemma {:induction false} NonEmptyLast(out: seq<Range>)
    requires out != []
    ensures var r, front := out[|out| - 1], NonEmpty(out[..|out| - 1]);
            NonEmpty(out) == if IsEmpty(r) then front else front + [r]
  {
  }

  lemma {:induction false} ReportsLast(out: seq<Range>, lo: int, next: int, bs: seq<Block>)
    requires out != []
    ensures var r, before := out[|out| - 1], out[..|out| - 1];
            Reports(out, lo, next, bs) <==>
            if IsEmpty(r) then Reports(before, lo, next, bs)
            else next == r.hi + 1 && Reports(before, lo, r.lo, bs) && Counted(r, bs)
  {
  }

  /** A report is non-empty ranges that tile and count right. */
  lemma {:induction false} ReportsTile(out: seq<Range>, lo: int, next: int, bs: seq<Block>)
    ensures Reports(out, lo, next, bs) <==> TileRight(NonEmpty(out), lo, next - 1, bs)
  {
    if out == [] {
      assert NonEmpty(out) == [];
    } else {
      var r, before := out[|out| - 1], out[..|out| - 1];
      NonEmptyLast(out);
      ReportsLast(out, lo, next, bs);
      ReportsTile(before, lo, if IsEmpty(r) then next else r.lo, bs);
      if !IsEmpty(r) { LastRange(NonEmpty(before), r, lo, next, bs); }
    }
  }

  /**
   * The ranges of `report` tile the span from the lowest to the highest number scanned, and
   * the count of each range is how often each of its numbers was scanned.
   */
  ghost predicate Right(report: seq<Range>, recs: seq<int>, lo: int, hi: int) {
    && lo in recs && hi in recs && (forall r :: r in recs ==> lo <= r <= hi)
    && Tiles(report, lo, hi)
    && forall i, x :: 0 <= i < |report| && report[i].lo <= x <= report[i].hi ==> multiset(recs)[x] == report[i].n
  }

  /**
   * For every non-empty sequence of positive record numbers, in any order and with any
   * repeats, the non-empty ranges reported are right.
   */
  lemma ReportExact(recs: seq<int>) returns (lo: int, hi: int)
    requires recs != [] && Positive(recs)
    ensures Right(NonEmpty(Process(Blocks(recs), false)), recs, lo, hi)
  {
    BlocksCount(recs);
    var bs := Blocks(recs);
    hi := ProcessReports(bs);
    lo := bs[0].lo;
    ReportsTile(Process(bs, false), lo, hi + 1, bs);
    var report := NonEmpty(Process(bs, false));
    forall i, x | 0 <= i < |report| && report[i].lo <= x <= report[i].hi ensures multiset(recs)[x] == report[i].n {
      assert Counted(report[i], bs);
    }
    LowestBlock(bs);
    assert multiset(recs)[lo] >= 1 && multiset(recs)[hi] >= 1;
    forall r | r in recs ensures lo <= r <= hi {
      assert multiset(recs)[r] >= 1;
      assert Cover(bs, r) >= 1;
    }
  }

  lemma {:induction false} LowestBlock(bs: seq<Block>)
    requires ProperBlocks(bs) && bs != []
    ensures Cover(bs, bs[0].lo) >= 1
    ensures forall x :: x < bs[0].lo ==> Cover(bs, x) == 0
  {
    assert ProperBlock(bs[0]);
    CoverNonNegative(bs[1..], bs[0].lo);
    forall x | x < bs[0].lo ensures Cover(bs, x) == 0 {
      forall j | 0 <= j < |bs| ensures x < bs[j].lo {
        assert j > 0 ==> Before(bs[0], bs[j]);
      }
      CoverPrefix(bs, 0, x);
    }
  }
}
