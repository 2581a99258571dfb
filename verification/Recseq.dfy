/**
 * The record-sequence check of gdp-log-check.
 *
 * Pass 1 folds the scanned record numbers into blocks of consecutive numbers and
 * keeps them sorted.  Pass 2 sweeps the blocks and reports ranges of numbers with
 * the number of times each occurs.  The functions below say what the two passes
 * compute; the class `RecordCheck` in module `LogCheck` is the code, loop by loop.
 *
 * The parameter `asWritten` selects the code exactly as it stands: the compaction
 * that moves `i` entries, and the last flush without a sort.  With `asWritten`
 * false these two places do what the comments document.
 */
module Recseq {
  import opened Collections

  datatype Block = Block(lo: int, hi: int)
  datatype Range = Range(lo: int, hi: int, n: int)

  // ---------- what is to be reported ----------

  function Holds(b: Block, x: int): int {
    if b.lo <= x <= b.hi then 1 else 0
  }

  /** How many blocks contain `x`. */
  function Cover(bs: seq<Block>, x: int): int {
    if bs == [] then 0 else Holds(bs[0], x) + Cover(bs[1..], x)
  }

  /** How many of the open blocks still reach `x`. */
  function Reach(ends: seq<int>, x: int): (n: int)
    ensures 0 <= n <= |ends|
  {
    if ends == [] then 0 else (if ends[0] >= x then 1 else 0) + Reach(ends[1..], x)
  }

  predicate IsEmpty(r: Range) { r.hi < r.lo }

  /** The non-empty ranges of `out` tile lo .. next-1 from left to right, each with the right count. */
  ghost predicate Reports(out: seq<Range>, lo: int, next: int, bs: seq<Block>) {
    if out == [] then lo == next else
    var r, before := out[|out| - 1], out[..|out| - 1];
    if IsEmpty(r) then Reports(before, lo, next, bs)
    else next == r.hi + 1 && Reports(before, lo, r.lo, bs) && Counted(r, bs)
  }

  /** Every number in the range lies in as many blocks as the range says. */
  ghost predicate Counted(r: Range, bs: seq<Block>) {
    forall x :: r.lo <= x <= r.hi ==> Cover(bs, x) == r.n
  }

  // ---------- pass 1 ----------

  predicate Before(a: Block, b: Block) {
    a.lo < b.lo || (a.lo == b.lo && a.hi <= b.hi)
  }

  ghost predicate SortedBlocks(bs: seq<Block>) {
    forall i, j :: 0 <= i < j < |bs| ==> Before(bs[i], bs[j])
  }

  /** The sorted database after writing one more block. */
  function DbWrite(db: seq<Block>, b: Block): seq<Block> {
    if db == [] || !Before(db[0], b) then [b] + db else [db[0]] + DbWrite(db[1..], b)
  }

  /** The scan: the block being extended (none while `begin` is 0) and the blocks written so far. */
  datatype Scan = Scan(begin: int, recno: int, db: seq<Block>)

  function AddRecno(s: Scan, recno: int): Scan {
    if s.begin > 0 && recno == s.recno + 1 then s.(recno := recno)
    else Scan(recno, recno, if s.begin > 0 then DbWrite(s.db, Block(s.begin, s.recno)) else s.db)
  }

  function AddAll(s: Scan, recs: seq<int>): Scan {
    if recs == [] then s else AddRecno(AddAll(s, recs[..|recs| - 1]), recs[|recs| - 1])
  }

  /** The blocks found in a scan. */
  function Blocks(recs: seq<int>): seq<Block> {
    var s := AddAll(Scan(0, 0, []), recs);
    DbWrite(s.db, Block(s.begin, s.recno))
  }

  // ---------- pass 2 ----------

  /** `start` and the open blocks' ends, all of which begin there; `out` is the report so far. */
  datatype Sweep = Sweep(start: int, ends: seq<int>, out: seq<Range>)

  function InsertEnd(ends: seq<int>, e: int): seq<int> {
    if ends == [] || e <= ends[0] then [e] + ends else [ends[0]] + InsertEnd(ends[1..], e)
  }

  function SortEnds(ends: seq<int>): seq<int> {
    if ends == [] then [] else InsertEnd(SortEnds(ends[1..]), ends[0])
  }

  ghost predicate Sorted(ends: seq<int>) {
    forall i, j :: 0 <= i < j < |ends| ==> ends[i] <= ends[j]
  }

  /** The first position after `pos` whose end differs from the one at `pos`. */
  function SkipEqual(ends: seq<int>, pos: nat, epos: nat): (r: nat)
    requires pos < epos <= |ends|
    ensures epos <= r <= |ends|
    ensures forall k :: epos <= k < r ==> ends[k] == ends[pos]
    ensures r < |ends| ==> ends[r] != ends[pos]
    decreases |ends| - epos
  {
    if epos < |ends| && ends[pos] == ends[epos] then SkipEqual(ends, pos, epos + 1) else epos
  }

  /** Report from `start` up to the end at `pos`, or up to `before` if that comes first. */
  function Flush(s: Sweep, pos: nat, before: int): Sweep
    requires pos < |s.ends|
  {
    var last := if s.ends[pos] < before - 1 then s.ends[pos] else before - 1;
    s.(start := last + 1, out := s.out + [Range(s.start, last, |s.ends| - pos)])
  }

  /** Flush the blocks that end before `before`; the second result is where they stop. */
  function FlushDead(s: Sweep, pos: nat, before: int): (r: (Sweep, nat))
    requires pos <= |s.ends|
    ensures r.0.ends == s.ends && pos <= r.1 <= |s.ends|
    decreases |s.ends| - pos
  {
    if pos < |s.ends| && s.ends[pos] < before
    then FlushDead(Flush(s, pos, before), SkipEqual(s.ends, pos, pos + 1), before)
    else (s, pos)
  }

  /** Flush what comes before `before` for the blocks that go on. */
  function FlushActive(s: Sweep, pos: nat, before: int): Sweep
    requires pos <= |s.ends|
    decreases |s.ends| - pos
  {
    if pos < |s.ends| then FlushActive(Flush(s, pos, before), SkipEqual(s.ends, pos, pos + 1), before) else s
  }

  /** Flush everything. */
  function FlushFinal(s: Sweep, pos: nat): Sweep
    requires pos <= |s.ends|
    decreases |s.ends| - pos
  {
    if pos < |s.ends| then FlushFinal(Flush(s, pos, s.ends[pos] + 1), SkipEqual(s.ends, pos, pos + 1)) else s
  }

  /** What is left of the ends after the first `i` are dropped; as written, only `i` entries are moved down. */
  function Compress(ends: seq<int>, i: nat, asWritten: bool): (r: seq<int>)
    requires i <= |ends|
    ensures |r| == |ends| - i
  {
    if asWritten then seq(|ends| - i, j requires 0 <= j < |ends| - i => if j < i then ends[i + j] else ends[j])
    else ends[i..]
  }

  /** The first open block that `lo` continues. */
  function Continued(ends: seq<int>, lo: int, i: nat): (r: nat)
    requires i <= |ends|
    ensures i <= r <= |ends|
    ensures r < |ends| ==> ends[r] + 1 == lo
    ensures forall k :: i <= k < r ==> ends[k] + 1 != lo
    decreases |ends| - i
  {
    if i < |ends| && ends[i] + 1 != lo then Continued(ends, lo, i + 1) else i
  }

  /** Flush what comes before `lo` for the blocks that are `left`, then the gap if none is. */
  function CloseWindow(s: Sweep, left: seq<int>, lo: int, lastEnd: int): Sweep {
    var t := FlushActive(s.(ends := left), 0, lo).(start := lo);
    if lastEnd < lo - 1 then t.(out := t.out + [Range(lastEnd + 1, lo - 1, 0)]) else t
  }

  /** The flushing half of one iteration: everything before `lo`, when the window moves. */
  function Advance(s: Sweep, lo: int, asWritten: bool): Sweep {
    if lo <= s.start then s else
    var (t, i) := FlushDead(s, 0, lo);
    var lastEnd := if i < |s.ends| then s.ends[i] else if |s.ends| > 0 then s.ends[|s.ends| - 1] else lo;
    CloseWindow(t, Compress(s.ends, i, asWritten), lo, lastEnd)
  }

  /** One iteration: take in the next block. */
  function TakeBlock(s: Sweep, b: Block, asWritten: bool): Sweep {
    var s0 := s.(ends := SortEnds(s.ends));
    var i := Continued(s0.ends, b.lo, 0);
    if i < |s0.ends| then s0.(ends := s0.ends[i := b.hi]) else
    var s1 := Advance(s0, b.lo, asWritten);
    s1.(ends := s1.ends + [b.hi])
  }

  function TakeAll(bs: seq<Block>, asWritten: bool): Sweep {
    if bs == [] then Sweep(0, [], []) else TakeBlock(TakeAll(bs[..|bs| - 1], asWritten), bs[|bs| - 1], asWritten)
  }

  /** The report on a sorted list of blocks. */
  function Process(bs: seq<Block>, asWritten: bool): seq<Range> {
    var s := TakeAll(bs, asWritten);
    FlushFinal(if asWritten then s else s.(ends := SortEnds(s.ends)), 0).out
  }

  // ---------- pass 1 loses nothing ----------

  lemma {:induction false} WriteDb(db: seq<Block>, b: Block)
    requires SortedBlocks(db)
    ensures SortedBlocks(DbWrite(db, b))
    ensures forall c :: c in DbWrite(db, b) <==> c == b || c in db
    ensures forall x :: Cover(DbWrite(db, b), x) == Cover(db, x) + Holds(b, x)
  {
    if db != [] && Before(db[0], b) {
      WriteDb(db[1..], b);
      var r := DbWrite(db[1..], b);
      assert forall c :: c in db <==> c == db[0] || c in db[1..];
      forall j | 0 <= j < |r| ensures Before(db[0], r[j]) {
        assert r[j] in r;
      }
    }
  }

  ghost predicate ProperBlock(b: Block) { 0 < b.lo <= b.hi }

  ghost predicate Positive(recs: seq<int>) { forall i :: 0 <= i < |recs| ==> recs[i] > 0 }

  /** What the scan has seen, number by number, is in the blocks written and the block being extended. */
  lemma {:induction false} ScanCounts(recs: seq<int>)
    requires Positive(recs)
    ensures var s := AddAll(Scan(0, 0, []), recs);
      && (recs != [] ==> ProperBlock(Block(s.begin, s.recno))) && (recs == [] ==> s == Scan(0, 0, []))
      && SortedBlocks(s.db) && (forall b :: b in s.db ==> ProperBlock(b))
      && forall x :: Cover(s.db, x) + (if recs == [] then 0 else Holds(Block(s.begin, s.recno), x)) == multiset(recs)[x]
  {
    if recs != [] {
      var front, last := recs[..|recs| - 1], recs[|recs| - 1];
      assert recs == front + [last];
      ScanCounts(front);
      var s := AddAll(Scan(0, 0, []), front);
      WriteDb(s.db, Block(s.begin, s.recno));
    }
  }

  /** Pass 1: the sorted blocks contain each number as often as it was scanned. */
  lemma BlocksCount(recs: seq<int>)
    requires Positive(recs) && recs != []
    ensures SortedBlocks(Blocks(recs)) && |Blocks(recs)| > 0
    ensures forall b :: b in Blocks(recs) ==> ProperBlock(b)
    ensures forall x :: Cover(Blocks(recs), x) == multiset(recs)[x]
  {
    ScanCounts(recs);
    var s := AddAll(Scan(0, 0, []), recs);
    WriteDb(s.db, Block(s.begin, s.recno));
    assert Block(s.begin, s.recno) in Blocks(recs);
  }

  // ---------- counting ----------

  lemma {:induction false} CoverAppend(a: seq<Block>, b: Block, x: int)
    ensures Cover(a + [b], x) == Cover(a, x) + Holds(b, x)
  {
    if a == [] {
      assert a + [b] == [b];
    } else {
      assert (a + [b])[1..] == a[1..] + [b];
      CoverAppend(a[1..], b, x);
    }
  }

  /** Blocks that start after `x` do not contain it. */
  lemma {:induction false} CoverPrefix(bs: seq<Block>, k: nat, x: int)
    requires k <= |bs| && forall j :: k <= j < |bs| ==> x < bs[j].lo
    ensures Cover(bs, x) == Cover(bs[..k], x)
    decreases |bs| - k
  {
    if k < |bs| {
      CoverPrefix(bs, k + 1, x);
      assert bs[..k + 1] == bs[..k] + [bs[k]];
      CoverAppend(bs[..k], bs[k], x);
    } else {
      assert bs[..k] == bs;
    }
  }

  lemma {:induction false} ReachAppend(ends: seq<int>, e: int, x: int)
    ensures Reach(ends + [e], x) == Reach(ends, x) + (if e >= x then 1 else 0)
  {
    if ends == [] {
      assert ends + [e] == [e];
    } else {
      assert (ends + [e])[1..] == ends[1..] + [e];
      ReachAppend(ends[1..], e, x);
    }
  }

  lemma {:induction false} ReachUpdate(ends: seq<int>, i: nat, e: int, x: int)
    requires i < |ends|
    ensures Reach(ends[i := e], x) == Reach(ends, x) - (if ends[i] >= x then 1 else 0) + (if e >= x then 1 else 0)
  {
    if i > 0 {
      assert ends[i := e][1..] == ends[1..][i - 1 := e];
      ReachUpdate(ends[1..], i - 1, e, x);
    }
  }

  /** When the ends before `i` are below `x` and the others are not, the others are the ones that count. */
  lemma {:induction false} ReachSplit(ends: seq<int>, i: nat, x: int)
    requires i <= |ends|
    requires forall j :: 0 <= j < i ==> ends[j] < x
    requires forall j :: i <= j < |ends| ==> ends[j] >= x
    ensures Reach(ends, x) == |ends| - i
  {
    if ends != [] {
      ReachSplit(ends[1..], if i > 0 then i - 1 else 0, x);
    }
  }

  /** Dropping ends below `x` does not change what reaches `x`. */
  lemma {:induction false} ReachDrop(ends: seq<int>, i: nat, x: int)
    requires i <= |ends| && forall j :: 0 <= j < i ==> ends[j] < x
    ensures Reach(ends[i..], x) == Reach(ends, x)
  {
    if i > 0 {
      assert ends[i..] == ends[1..][i - 1..];
      ReachDrop(ends[1..], i - 1, x);
    } else {
      assert ends[i..] == ends;
    }
  }

  lemma {:induction false} InsertedEnd(ends: seq<int>, e: int)
    requires Sorted(ends)
    ensures Sorted(InsertEnd(ends, e)) && |InsertEnd(ends, e)| == |ends| + 1
    ensures forall d :: d in InsertEnd(ends, e) <==> d == e || d in ends
    ensures forall x :: Reach(InsertEnd(ends, e), x) == Reach(ends, x) + (if e >= x then 1 else 0)
  {
    if ends != [] && e > ends[0] {
      InsertedEnd(ends[1..], e);
      var r := InsertEnd(ends[1..], e);
      assert forall d :: d in ends <==> d == ends[0] || d in ends[1..];
      forall j | 0 <= j < |r| ensures ends[0] <= r[j] {
        assert r[j] in r;
      }
    }
  }

  lemma {:induction false} SortedEnds(ends: seq<int>)
    ensures Sorted(SortEnds(ends)) && |SortEnds(ends)| == |ends|
    ensures forall d :: d in SortEnds(ends) <==> d in ends
    ensures forall x :: Reach(SortEnds(ends), x) == Reach(ends, x)
  {
    if ends != [] {
      SortedEnds(ends[1..]);
      InsertedEnd(SortEnds(ends[1..]), ends[0]);
      assert forall d :: d in ends <==> d == ends[0] || d in ends[1..];
    }
  }
}
