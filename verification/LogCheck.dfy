/** The record check as a program: the context it updates as it scans and sweeps. */
module LogCheck {
  import opened Recseq
  import opened RecseqReport

  // ---------- the code ----------

  lemma {:induction false} TakeNext(bs: seq<Block>, k: nat, asWritten: bool)
    requires k < |bs|
    ensures TakeAll(bs[..k + 1], asWritten) == TakeBlock(TakeAll(bs[..k], asWritten), bs[k], asWritten)
  {
    assert bs[..k + 1][..k] == bs[..k];
  }

  /** The context of a run over a log: the scan, the temporary database, the vector of ends and what was output. */
  class RecordCheck {
    var begin: int
    var recno: int
    var db: seq<Block>
    var start: int
    var ends: seq<int>
    var out: seq<Range>

    constructor ()
      ensures Scanned() == Scan(0, 0, []) && Swept() == Sweep(0, [], [])
    {
      begin, recno, db, start, ends, out := 0, 0, [], 0, [], [];
    }

    function Scanned(): Scan
      reads this
    {
      Scan(begin, recno, db)
    }

    function Swept(): Sweep
      reads this
    {
      Sweep(start, ends, out)
    }

    method AddRecord(r: int)
      modifies `begin, `recno, `db
      ensures Scanned() == AddRecno(old(Scanned()), r)
    {
      if begin > 0 {
        if r == recno + 1 {
          recno := r;
          return;
        }
        db := DbWrite(db, Block(begin, recno));
      }
      begin, recno := r, r;
    }

    /** The open block joins the database: it stays sorted, and covers the numbers of that block once more. */
    method LastRecord()
      modifies `db
      ensures db == DbWrite(old(db), Block(begin, recno))
      ensures old(SortedBlocks(db)) ==> SortedBlocks(db)
      ensures old(SortedBlocks(db)) ==>
                forall x :: Cover(db, x) == Cover(old(db), x) + (if begin <= x <= recno then 1 else 0)
    {
      ghost var block := Block(begin, recno);
      if SortedBlocks(db) { WriteDb(db, block); }
      db := DbWrite(db, Block(begin, recno));
    }

    /** Flush at `pos`, skipping the entries with the same end. */
    method FlushAt(pos: nat, before: int) returns (epos: nat)
      requires pos < |ends|
      modifies `start, `out
      ensures Swept() == Flush(old(Swept()), pos, before)
      ensures epos == SkipEqual(ends, pos, pos + 1)
    {
      epos := pos + 1;
      while epos < |ends| && ends[pos] == ends[epos]
        invariant pos < epos <= |ends|
        invariant SkipEqual(ends, pos, pos + 1) == SkipEqual(ends, pos, epos)
      {
        epos := epos + 1;
      }
      var last := before - 1;
      if ends[pos] < last {
        last := ends[pos];
      }
      out := out + [Range(start, last, |ends| - pos)];
      start := last + 1;
    }

    /** Flush the ends that are completely dead. */
    method FlushDeadEnds(lo: int) returns (i: nat)
      modifies `start, `out
      ensures (Swept(), i) == FlushDead(old(Swept()), 0, lo)
    {
      i := 0;
      while i < |ends| && ends[i] < lo
        invariant i <= |ends| && FlushDead(Swept(), i, lo) == FlushDead(old(Swept()), 0, lo)
        decreases |ends| - i
      {
        i := FlushAt(i, lo);
      }
    }

    /** Flush what is still active. */
    method FlushActiveEnds(lo: int)
      modifies `start, `out
      ensures Swept() == FlushActive(old(Swept()), 0, lo)
    {
      var i := 0;
      while i < |ends|
        invariant i <= |ends| && FlushActive(Swept(), i, lo) == FlushActive(old(Swept()), 0, lo)
        decreases |ends| - i
      {
        i := FlushAt(i, lo);
      }
    }

    /** The window moves to `lo`: flush, compact, flush again, report a gap. */
    method MoveWindow(lo: int, asWritten: bool)
      modifies `start, `ends, `out
      ensures Swept() == Advance(old(Swept()), lo, asWritten)
    {
      if lo <= start { return; }
      var lastEnd := lo;
      var i := FlushDeadEnds(lo);
      if i < |ends| {
        lastEnd := ends[i];
      } else if |ends| > 0 {
        lastEnd := ends[|ends| - 1];
      }
      ends := Compress(ends, i, asWritten);
      CloseAt(lo, lastEnd);
    }

    /** Flush what goes on, and report the gap if nothing does. */
    method CloseAt(lo: int, lastEnd: int)
      modifies `start, `out
      ensures Swept() == CloseWindow(old(Swept()), ends, lo, lastEnd)
    {
      FlushActiveEnds(lo);
      start := lo;
      if lastEnd < lo - 1 {
        out := out + [Range(lastEnd + 1, lo - 1, 0)];
      }
    }

    /** One iteration of pass 2. */
    method TakeIn(b: Block, asWritten: bool)
      modifies `start, `ends, `out
      ensures Swept() == TakeBlock(old(Swept()), b, asWritten)
    {
      ends := SortEnds(ends);
      var i := 0;
      while i < |ends| && ends[i] + 1 != b.lo
        invariant i <= |ends|
        invariant Continued(ends, b.lo, 0) == Continued(ends, b.lo, i)
      {
        i := i + 1;
      }
      if i < |ends| {
        ends := ends[i := b.hi];
      } else {
        MoveWindow(b.lo, asWritten);
        ends := ends + [b.hi];
      }
    }

    /** Pass 2 over the sorted database. */
    method Sweeps(asWritten: bool)
      requires Swept() == Sweep(0, [], [])
      modifies `start, `ends, `out
      ensures out == Process(db, asWritten)
    {
      for k := 0 to |db|
        invariant Swept() == TakeAll(db[..k], asWritten)
      {
        TakeNext(db, k, asWritten);
        TakeIn(db[k], asWritten);
      }
      assert db[..|db|] == db;
      if !asWritten {
        ends := SortEnds(ends);
      }
      FlushRest();
    }

    /** The last flush. */
    method FlushRest()
      modifies `start, `out
      ensures Swept() == FlushFinal(old(Swept()), 0)
    {
      var i := 0;
      while i < |ends|
        invariant i <= |ends|
        invariant FlushFinal(Swept(), i) == FlushFinal(old(Swept()), 0)
        decreases |ends| - i
      {
        i := FlushAt(i, ends[i] + 1);
      }
    }
  }

  /** The whole check, with the two places as documented: scan, then sweep. */
  method CheckRecords(recs: seq<int>) returns (out: seq<Range>)
    requires recs != [] && Positive(recs)
    ensures exists lo, hi :: Right(NonEmpty(out), recs, lo, hi)
  {
    var c := new RecordCheck();
    for k := 0 to |recs|
      invariant c.Scanned() == AddAll(Scan(0, 0, []), recs[..k]) && c.Swept() == Sweep(0, [], [])
    {
      assert recs[..k + 1][..k] == recs[..k];
      c.AddRecord(recs[k]);
    }
    assert recs[..|recs|] == recs;
    c.LastRecord();
    c.Sweeps(false);
    out := c.out;
    var lo, hi := ReportExact(recs);
  }
}
