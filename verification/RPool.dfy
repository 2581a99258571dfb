/**
 * Resource pools: memory handed out from a list of segments, growing a block in place
 * where it is the last one of the first segment, and releasing everything at once.
 */
module RPool {
  import opened Bytes

  /** The size of a segment descriptor. */
  const HEADER := 32

  /** A segment: its descriptor, its memory, how much of it is used, and whether the memory was allocated apart. */
  datatype Seg = Seg(desc: int, base: int, size: nat, used: nat, apart: bool)

  datatype Block = Block(addr: int, size: nat)

  /** Addresses the heap returns for a new descriptor and, where wanted, for its memory. */
  datatype Grant = Grant(desc: int, base: int)

  type Memory = int -> Byte

  function MemAlign(n: nat): (r: nat)
    ensures n <= r < n + 4 && r % 4 == 0
  {
    (n + 3) / 4 * 4
  }

  lemma AlignTwice(n: nat)
    ensures MemAlign(MemAlign(n)) == MemAlign(n)
  {
  }

  predicate OnPage(n: int, page: nat) {
    page > 0 && n % page == 0
  }

  function Left(s: Seg): int {
    s.size - s.used
  }

  function End(s: Seg): int {
    s.base + s.used
  }

  /** Whether a request (of rounded size `n`) cannot be met from the first segment. */
  predicate NeedsSeg(segs: seq<Seg>, n: nat, page: nat) {
    segs == [] || Left(segs[0]) < n || (OnPage(n, page) && !OnPage(End(segs[0]), page))
  }

  /** The segment made for a request: page multiples get memory of their own and no more of it. */
  function NewSeg(n: nat, qsize: nat, page: nat, g: Grant): Seg {
    if OnPage(n, page) then Seg(g.desc, g.base, n, 0, true)
    else Seg(g.desc, g.desc + HEADER, if n < qsize then qsize else n, 0, false)
  }

  /** The emptier of the new segment and the old first one comes first. */
  function Position(segs: seq<Seg>, s: Seg, n: nat): (at: nat)
    ensures at <= |segs|
  {
    if segs != [] && Left(segs[0]) > s.size - n then 1 else 0
  }

  function Inserted(segs: seq<Seg>, at: nat, s: Seg): seq<Seg>
    requires at <= |segs|
  {
    segs[..at] + [s] + segs[at..]
  }

  /** The segments with room made for `n` bytes, and which one has it. */
  function MakeRoom(segs: seq<Seg>, n: nat, qsize: nat, page: nat, g: Grant): (r: (seq<Seg>, nat))
    ensures r.1 < |r.0| && Left(r.0[r.1]) >= n
  {
    if NeedsSeg(segs, n, page) then
      var s := NewSeg(n, qsize, page, g);
      var at := Position(segs, s, n);
      (Inserted(segs, at, s), at)
    else
      (segs, 0)
  }

  function Taken(segs: seq<Seg>, at: nat, n: nat): seq<Seg>
    requires at < |segs|
  {
    segs[at := segs[at].(used := segs[at].used + n)]
  }

  // ---------- what holds of the memory handed out ----------

  predicate Disjoint(a: int, m: nat, b: int, n: nat) {
    m == 0 || n == 0 || a + m <= b || b + n <= a
  }

  predicate SegOk(s: Seg) {
    s.used <= s.size && s.base % 4 == 0 && s.used % 4 == 0 && (!s.apart ==> s.base == s.desc + HEADER)
  }

  predicate SegsApart(s: Seg, t: Seg) {
    Disjoint(s.base, s.size, t.base, t.size)
  }

  ghost predicate SegsOk(segs: seq<Seg>) {
    && (forall i {:trigger SegOk(segs[i])} :: 0 <= i < |segs| ==> SegOk(segs[i]))
    && (forall i, j {:trigger SegsApart(segs[i], segs[j])} :: 0 <= i < |segs| && 0 <= j < |segs| && i != j ==>
      SegsApart(segs[i], segs[j]))
  }

  predicate BlocksApart(b: Block, c: Block) {
    Disjoint(b.addr, b.size, c.addr, c.size)
  }

  predicate Inside(b: Block, s: Seg) {
    s.base <= b.addr && b.addr + b.size <= End(s) && b.addr % 4 == 0
  }

  /** The block lies in the used part of one segment. */
  ghost predicate Housed(b: Block, segs: seq<Seg>) {
    exists i {:trigger Inside(b, segs[i])} :: 0 <= i < |segs| && Inside(b, segs[i])
  }

  predicate Within(a: int, b: Block) {
    b.addr <= a < b.addr + b.size
  }

  ghost predicate Covered(a: int, blocks: seq<Block>) {
    exists k {:trigger Within(a, blocks[k])} :: 0 <= k < |blocks| && Within(a, blocks[k])
  }

  /** Every used byte belongs to a block. */
  ghost predicate Tiled(s: Seg, blocks: seq<Block>) {
    forall a {:trigger Covered(a, blocks)} :: s.base <= a < End(s) ==> Covered(a, blocks)
  }

  ghost predicate Inv(segs: seq<Seg>, blocks: seq<Block>) {
    && SegsOk(segs)
    && (forall k {:trigger Housed(blocks[k], segs)} :: 0 <= k < |blocks| ==> Housed(blocks[k], segs))
    && (forall k, l {:trigger BlocksApart(blocks[k], blocks[l])} ::
      0 <= k < |blocks| && 0 <= l < |blocks| && k != l ==> BlocksApart(blocks[k], blocks[l]))
    && (forall i {:trigger Tiled(segs[i], blocks)} :: 0 <= i < |segs| ==> Tiled(segs[i], blocks))
  }

  /** What the heap gave the pool for a segment. */
  function OwnedOf(s: Seg): seq<int> {
    (if s.apart then [s.base] else []) + [s.desc]
  }

  function Owned(segs: seq<Seg>): seq<int> {
    if segs == [] then [] else OwnedOf(segs[0]) + Owned(segs[1..])
  }

  /**
   * What the heap promises for a new segment: memory that is aligned and apart from all
   * other segments, and addresses that it has not given already.
   */
  ghost predicate Granted(segs: seq<Seg>, s: Seg) {
    && s.base % 4 == 0
    && (forall i {:trigger SegsApart(segs[i], s)} :: 0 <= i < |segs| ==> SegsApart(segs[i], s))
    && s.desc !in Owned(segs) && (s.apart ==> s.base !in Owned(segs) && s.base != s.desc)
  }

  lemma InsertKeeps(segs: seq<Seg>, at: nat, s: Seg, blocks: seq<Block>)
    requires Inv(segs, blocks) && at <= |segs| && Granted(segs, s) && SegOk(s) && s.used == 0
    ensures Inv(Inserted(segs, at, s), blocks)
  {
    var r := Inserted(segs, at, s);
    forall i | 0 <= i < |r| ensures SegOk(r[i]) && Tiled(r[i], blocks) {
      if i != at {
        var i' := if i < at then i else i - 1;
        assert r[i] == segs[i'] && SegOk(segs[i']) && Tiled(segs[i'], blocks);
      }
    }
    forall i, j | 0 <= i < |r| && 0 <= j < |r| && i != j ensures SegsApart(r[i], r[j]) {
      var i', j' := if i < at then i else i - 1, if j < at then j else j - 1;
      if i == at {
        assert r[j] == segs[j'] && SegsApart(segs[j'], s);
      } else if j == at {
        assert r[i] == segs[i'] && SegsApart(segs[i'], s);
      } else {
        assert r[i] == segs[i'] && r[j] == segs[j'] && SegsApart(segs[i'], segs[j']);
      }
    }
    forall k | 0 <= k < |blocks| ensures Housed(blocks[k], r) {
      assert Housed(blocks[k], segs);
      var i :| 0 <= i < |segs| && Inside(blocks[k], segs[i]);
      assert Inside(blocks[k], r[if i < at then i else i + 1]);
    }
  }

  /** Using more of a segment keeps the segments in order and the blocks in them. */
  lemma TakenKeeps(segs: seq<Seg>, at: nat, n: nat, blocks: seq<Block>)
    requires Inv(segs, blocks) && at < |segs| && n <= Left(segs[at]) && n % 4 == 0
    ensures SegsOk(Taken(segs, at, n))
    ensures forall k {:trigger Housed(blocks[k], Taken(segs, at, n))} :: 0 <= k < |blocks| ==>
      Housed(blocks[k], Taken(segs, at, n))
  {
    var r := Taken(segs, at, n);
    forall i | 0 <= i < |r| ensures SegOk(r[i]) {
      assert SegOk(segs[i]);
    }
    forall i, j | 0 <= i < |r| && 0 <= j < |r| && i != j ensures SegsApart(r[i], r[j]) {
      assert SegsApart(segs[i], segs[j]);
    }
    forall k | 0 <= k < |blocks| ensures Housed(blocks[k], r) {
      assert Housed(blocks[k], segs);
      var i :| 0 <= i < |segs| && Inside(blocks[k], segs[i]);
      assert Inside(blocks[k], r[i]);
    }
  }

  /** A block that starts where the used part of a segment ends meets no other block. */
  lemma FreeSpaceApart(segs: seq<Seg>, at: nat, n: nat, blocks: seq<Block>, k: nat)
    requires Inv(segs, blocks) && at < |segs| && n <= Left(segs[at]) && k < |blocks|
    ensures Disjoint(End(segs[at]), n, blocks[k].addr, blocks[k].size)
  {
    assert Housed(blocks[k], segs);
    var i :| 0 <= i < |segs| && Inside(blocks[k], segs[i]);
    assert SegOk(segs[i]) && SegOk(segs[at]);
    if i != at { assert SegsApart(segs[i], segs[at]); }
  }

  lemma CoveredMore(a: int, blocks: seq<Block>, more: seq<Block>)
    requires Covered(a, blocks) && |blocks| <= |more|
    requires forall k :: 0 <= k < |blocks| ==> blocks[k].addr == more[k].addr && blocks[k].size <= more[k].size
    ensures Covered(a, more)
  {
    var k :| 0 <= k < |blocks| && Within(a, blocks[k]);
    assert Within(a, more[k]);
  }

  /** Handing out the next `n` bytes of a segment. */
  lemma TakeKeeps(segs: seq<Seg>, at: nat, n: nat, blocks: seq<Block>)
    requires Inv(segs, blocks) && at < |segs| && n <= Left(segs[at]) && n % 4 == 0
    ensures Inv(Taken(segs, at, n), blocks + [Block(End(segs[at]), n)])
  {
    var r, b := Taken(segs, at, n), Block(End(segs[at]), n);
    var more := blocks + [b];
    TakenKeeps(segs, at, n, blocks);
    assert SegOk(segs[at]);
    forall k | 0 <= k < |more| ensures Housed(more[k], r) {
      if k < |blocks| { assert Housed(blocks[k], r); } else { assert Inside(more[k], r[at]); }
    }
    forall k, l | 0 <= k < |more| && 0 <= l < |more| && k != l ensures BlocksApart(more[k], more[l]) {
      if k < |blocks| && l < |blocks| {
        assert BlocksApart(blocks[k], blocks[l]);
      } else {
        FreeSpaceApart(segs, at, n, blocks, if k < l then k else l);
      }
    }
    forall i | 0 <= i < |r| ensures Tiled(r[i], more) {
      forall a | r[i].base <= a < End(r[i]) ensures Covered(a, more) {
        if a < End(segs[i]) {
          assert Tiled(segs[i], blocks) && Covered(a, blocks);
          CoveredMore(a, blocks, more);
        } else {
          assert Within(a, more[|blocks|]);
        }
      }
    }
  }

  // ---------- allocating ----------

  function Alloc(segs: seq<Seg>, nbytes: nat, qsize: nat, page: nat, g: Grant): (r: (seq<Seg>, Block)) {
    var n := MemAlign(nbytes);
    var (room, at) := MakeRoom(segs, n, qsize, page, g);
    (Taken(room, at, n), Block(End(room[at]), n))
  }

  /** A request is met from the first segment if there is room in it, and for whole pages only on a page boundary. */
  lemma ReusesExactly(segs: seq<Seg>, nbytes: nat, qsize: nat, page: nat, g: Grant)
    requires page > 0
    ensures var (segs', b) := Alloc(segs, nbytes, qsize, page, g);
      var n := MemAlign(nbytes);
      && (|segs'| == |segs| <==>
            && segs != [] && n <= segs[0].size - segs[0].used
            && (n % page == 0 ==> (segs[0].base + segs[0].used) % page == 0))
      && (|segs'| == |segs| ==>
            segs' == segs[0 := segs[0].(used := segs[0].used + n)] && b == Block(segs[0].base + segs[0].used, n))
  {
  }

  /** A new segment is of the usual size, or the size of the request; whole pages get memory of their own. */
  lemma NewSegIs(segs: seq<Seg>, nbytes: nat, qsize: nat, page: nat, g: Grant) returns (s: Seg)
    requires page > 0 && NeedsSeg(segs, MemAlign(nbytes), page)
    ensures var n := MemAlign(nbytes);
      s == if n % page == 0 then Seg(g.desc, g.base, n, n, true)
           else Seg(g.desc, g.desc + HEADER, if n < qsize then qsize else n, n, false)
    ensures Alloc(segs, nbytes, qsize, page, g).1 == Block(s.base, MemAlign(nbytes))
    ensures multiset(Alloc(segs, nbytes, qsize, page, g).0) == multiset(segs) + multiset{s}
  {
    var n := MemAlign(nbytes);
    var empty := NewSeg(n, qsize, page, g);
    s := empty.(used := n);
    TakenInserted(segs, Position(segs, empty, n), empty, n);
  }

  lemma TakenInserted(segs: seq<Seg>, at: nat, s: Seg, n: nat)
    requires at <= |segs| && s.used == 0
    ensures at < |Inserted(segs, at, s)| && Inserted(segs, at, s)[at] == s
    ensures multiset(Taken(Inserted(segs, at, s), at, n)) == multiset(segs) + multiset{s.(used := n)}
  {
    assert Taken(Inserted(segs, at, s), at, n) == Inserted(segs, at, s.(used := n));
    InsertedHas(segs, at, s.(used := n));
  }

  lemma InsertedHas(segs: seq<Seg>, at: nat, s: Seg)
    requires at <= |segs|
    ensures multiset(Inserted(segs, at, s)) == multiset(segs) + multiset{s}
  {
    assert segs == segs[..at] + segs[at..];
  }

  /** What the heap must promise for this request. */
  ghost predicate HeapOk(segs: seq<Seg>, nbytes: nat, qsize: nat, page: nat, g: Grant) {
    NeedsSeg(segs, MemAlign(nbytes), page) ==> Granted(segs, NewSeg(MemAlign(nbytes), qsize, page, g))
  }

  /**
   * The block is aligned, lies in one segment, is at least as long as asked for, and shares no
   * byte with any block before it.
   */
  lemma AllocKeeps(segs: seq<Seg>, blocks: seq<Block>, nbytes: nat, qsize: nat, page: nat, g: Grant)
    requires Inv(segs, blocks) && HeapOk(segs, nbytes, qsize, page, g)
    ensures var (segs', b) := Alloc(segs, nbytes, qsize, page, g);
            Inv(segs', blocks + [b]) && b.size == MemAlign(nbytes)
  {
    var n := MemAlign(nbytes);
    var (room, at) := MakeRoom(segs, n, qsize, page, g);
    if NeedsSeg(segs, n, page) {
      InsertKeeps(segs, at, room[at], blocks);
    }
    TakeKeeps(room, at, n, blocks);
  }

  /** A request for whole pages is met on a page boundary, given that the heap puts whole pages on one. */
  lemma AllocOnPage(segs: seq<Seg>, nbytes: nat, qsize: nat, page: nat, g: Grant)
    requires OnPage(MemAlign(nbytes), page) && OnPage(g.base, page)
    ensures OnPage(Alloc(segs, nbytes, qsize, page, g).1.addr, page)
  {
  }

  /** A new segment never hides more free space than the first segment then has. */
  lemma RoomiestFirst(segs: seq<Seg>, nbytes: nat, qsize: nat, page: nat, g: Grant)
    requires NeedsSeg(segs, MemAlign(nbytes), page) && segs != []
    ensures var segs' := Alloc(segs, nbytes, qsize, page, g).0;
            |segs'| == |segs| + 1 && Left(segs'[0]) >= Left(segs'[1]) && Left(segs'[0]) >= Left(segs[0])
  {
  }

  // ---------- growing ----------

  /** Whether a block of `had` bytes can become one of `want` bytes where it is. */
  predicate GrowsInPlace(segs: seq<Seg>, addr: int, had: nat, want: nat) {
    && segs != [] && Left(segs[0]) > 0
    && segs[0].base < addr < End(segs[0]) && addr + had == End(segs[0])
    && had <= want && want - had <= Left(segs[0])
  }

  function Copy(mem: Memory, dst: int, src: int, n: nat): Memory {
    a => if dst <= a < dst + n then mem(src + (a - dst)) else mem(a)
  }

  lemma GrowKeeps(segs: seq<Seg>, blocks: seq<Block>, k: nat, n: nat)
    requires Inv(segs, blocks) && k < |blocks| && n % 4 == 0 && blocks[k].size % 4 == 0
    requires GrowsInPlace(segs, blocks[k].addr, blocks[k].size, n)
    ensures Inv(Taken(segs, 0, n - blocks[k].size), blocks[k := Block(blocks[k].addr, n)])
  {
    var b, d := blocks[k], n - blocks[k].size;
    var r, more := Taken(segs, 0, d), blocks[k := Block(b.addr, n)];
    TakenKeeps(segs, 0, d, blocks);
    assert SegOk(segs[0]);
    assert b.addr % 4 == 0 by { assert Housed(b, segs); }
    forall l | 0 <= l < |more| ensures Housed(more[l], r) {
      if l == k { assert Inside(more[k], r[0]); } else { assert Housed(blocks[l], r); }
    }
    forall l, m | 0 <= l < |more| && 0 <= m < |more| && l != m ensures BlocksApart(more[l], more[m]) {
      assert BlocksApart(blocks[l], blocks[m]);
      if l == k {
        FreeSpaceApart(segs, 0, d, blocks, m);
      } else if m == k {
        FreeSpaceApart(segs, 0, d, blocks, l);
      }
    }
    forall i | 0 <= i < |r| ensures Tiled(r[i], more) {
      forall a | r[i].base <= a < End(r[i]) ensures Covered(a, more) {
        if a < End(segs[i]) {
          assert Tiled(segs[i], blocks) && Covered(a, blocks);
          CoveredMore(a, blocks, more);
        } else {
          assert Within(a, more[k]);
        }
      }
    }
  }

  // ---------- the memory seen by clients ----------

  function Zeroed(mem: Memory, b: Block): Memory {
    a => if Within(a, b) then 0 else mem(a)
  }

  /** ep_rpool_mfree: nothing is reclaimed, but eight bytes of junk are written at the start. */
  function Scribbled(mem: Memory, addr: int, junk: seq<Byte>): Memory
    requires |junk| == 8
  {
    a => if addr <= a < addr + 8 then junk[a - addr] else mem(a)
  }

  /**
   * The junk goes only into the block itself and into free space of its segment exactly when
   * the block is long enough, or last and not at the very end.
   */
  lemma ScribbleExact(b: Block, s: Seg)
    requires Inside(b, s) && SegOk(s) && b.size % 4 == 0
    ensures (forall a :: b.addr <= a < b.addr + 8 ==> Within(a, b) || End(s) <= a < s.base + s.size)
            <==> b.size >= 8 || (b.addr + b.size == End(s) && b.addr + 8 <= s.base + s.size)
  {
    if b.size < 8 {
      assert !Within(b.addr + b.size, b) && !Within(b.addr + 7, b);
    }
  }

  /** A short block that is not the last of its segment takes the first byte of another block with it. */
  lemma ShortBlockHurts(segs: seq<Seg>, i: nat, blocks: seq<Block>, k: nat, mem: Memory, junk: seq<Byte>)
    returns (l: nat)
    requires Inv(segs, blocks) && i < |segs| && k < |blocks| && |junk| == 8
    requires Inside(blocks[k], segs[i]) && blocks[k].size < 8 && blocks[k].addr + blocks[k].size < End(segs[i])
    ensures l < |blocks| && l != k
    ensures var a := blocks[k].addr + blocks[k].size;
            Within(a, blocks[l]) && Scribbled(mem, blocks[k].addr, junk)(a) == junk[blocks[k].size]
  {
    var a := blocks[k].addr + blocks[k].size;
    assert Tiled(segs[i], blocks) && Covered(a, blocks);
    l :| 0 <= l < |blocks| && Within(a, blocks[l]);
  }

  function Contents(b: Block, mem: Memory): (r: seq<Byte>)
    ensures |r| == b.size
  {
    seq(b.size, i requires 0 <= i < b.size => mem(b.addr + i))
  }

  datatype State = State(segs: seq<Seg>, blocks: seq<Block>, mem: Memory)

  datatype Op =
    | Malloc(nbytes: nat, zero: bool, g: Grant)
    | Write(k: nat, i: nat, v: Byte)
    | Grow(k: nat, had: nat, want: nat, g: Grant, junk: seq<Byte>)

  function Malloced(s: State, nbytes: nat, zero: bool, qsize: nat, page: nat, g: Grant): State {
    var (segs, b) := Alloc(s.segs, nbytes, qsize, page, g);
    State(segs, s.blocks + [b], if zero then Zeroed(s.mem, b) else s.mem)
  }

  /** ep_rpool_realloc of block `k`, which was asked for with `had` bytes. */
  function Grown(s: State, k: nat, had: nat, want: nat, qsize: nat, page: nat, g: Grant, junk: seq<Byte>): State
    requires k < |s.blocks| && |junk| == 8
  {
    var (addr, h, w) := (s.blocks[k].addr, MemAlign(had), MemAlign(want));
    if GrowsInPlace(s.segs, addr, h, w) then
      State(Taken(s.segs, 0, w - h), s.blocks[k := Block(addr, w)], s.mem)
    else
      var (segs, b) := Alloc(s.segs, w, qsize, page, g);
      State(segs, s.blocks + [b], Scribbled(Copy(s.mem, b.addr, addr, h), addr, junk))
  }

  /**
   * A block grows where it is if and only if it is the last of the first segment, but not its
   * first, and there is some room left there, enough for the difference.
   */
  lemma InPlaceExactly(s: State, k: nat, had: nat, want: nat, qsize: nat, page: nat, g: Grant, junk: seq<Byte>)
    requires k < |s.blocks| && |junk| == 8
    ensures var s', addr, h, w := Grown(s, k, had, want, qsize, page, g, junk), s.blocks[k].addr, MemAlign(had),
                                  MemAlign(want);
      |s'.blocks| == |s.blocks| <==>
      && s.segs != [] && s.segs[0].used < s.segs[0].size
      && s.segs[0].base < addr < s.segs[0].base + s.segs[0].used && addr + h == s.segs[0].base + s.segs[0].used
      && h <= w <= h + (s.segs[0].size - s.segs[0].used)
  {
  }

  /** Clients write to their blocks and name the size they have; the heap keeps its promise. */
  ghost predicate Possible(s: State, op: Op, qsize: nat, page: nat) {
    match op
    case Malloc(nbytes, _, g) => HeapOk(s.segs, nbytes, qsize, page, g)
    case Write(k, i, _) => k < |s.blocks| && i < s.blocks[k].size
    case Grow(k, had, want, g, junk) =>
      && k < |s.blocks| && s.blocks[k].size == MemAlign(had) && |junk| == 8
      && HeapOk(s.segs, want, qsize, page, g)
  }

  /** The eight bytes of junk at `addr` go no further than its first `h`, or miss block `c` beyond them. */
  predicate Spares(addr: int, h: nat, c: Block) {
    h >= 8 || Disjoint(addr + h, 8 - h, c.addr, c.size)
  }

  /** The junk written when block `k` is left for block `b` spares all other blocks, and what was copied to `b`. */
  ghost predicate Spared(blocks: seq<Block>, k: nat, b: Block)
    requires k < |blocks|
  {
    var addr, h := blocks[k].addr, blocks[k].size;
    && Spares(addr, h, Block(b.addr, h))
    && forall l {:trigger Spares(addr, h, blocks[l])} :: 0 <= l < |blocks| && l != k ==> Spares(addr, h, blocks[l])
  }

  /** Block `k` grows in place, or leaving it spares everything. */
  ghost predicate GrowsSafely(segs: seq<Seg>, blocks: seq<Block>, k: nat, want: nat, qsize: nat, page: nat, g: Grant)
    requires k < |blocks|
  {
    || GrowsInPlace(segs, blocks[k].addr, blocks[k].size, MemAlign(want))
    || Spared(blocks, k, Alloc(segs, MemAlign(want), qsize, page, g).1)
  }

  /** Blocks are only made longer, and safely. */
  ghost predicate Careful(s: State, op: Op, qsize: nat, page: nat)
    requires Possible(s, op, qsize, page)
  {
    op.Grow? ==> op.had <= op.want && GrowsSafely(s.segs, s.blocks, op.k, op.want, qsize, page, op.g)
  }

  function Apply(s: State, op: Op, qsize: nat, page: nat): State
    requires op.Write? ==> op.k < |s.blocks|
    requires op.Grow? ==> op.k < |s.blocks| && |op.junk| == 8
  {
    match op
    case Malloc(nbytes, zero, g) => Malloced(s, nbytes, zero, qsize, page, g)
    case Write(k, i, v) => s.(mem := (a: int) => if a == s.blocks[k].addr + i then v else s.mem(a))
    case Grow(k, had, want, g, junk) => Grown(s, k, had, want, qsize, page, g, junk)
  }

  /** The block an operation is about, if it is about one that is already there. */
  predicate Names(op: Op, l: nat) {
    !op.Malloc? && op.k == l
  }

  ghost predicate Same(s: State, s': State, l: nat)
    requires l < |s.blocks|
  {
    l < |s'.blocks| && s'.blocks[l] == s.blocks[l] && Contents(s'.blocks[l], s'.mem) == Contents(s.blocks[l], s.mem)
  }

  /** Each block is an array of its own: this is what an operation does to it. */
  ghost predicate ArrayStep(s: State, op: Op, s': State) {
    var n := |s.blocks|;
    && (forall l {:trigger s'.blocks[l]} :: 0 <= l < n && !Names(op, l) ==> Same(s, s', l))
    && match op
       case Malloc(nbytes, zero, _) =>
         && |s'.blocks| == n + 1 && s'.blocks[n].size == MemAlign(nbytes)
         && (zero ==> forall i :: 0 <= i < MemAlign(nbytes) ==> Contents(s'.blocks[n], s'.mem)[i] == 0)
       case Write(k, i, v) =>
         && k < n && i < s.blocks[k].size && s'.blocks == s.blocks
         && Contents(s'.blocks[k], s'.mem) == Contents(s.blocks[k], s.mem)[i := v]
       case Grow(k, _, want, _, _) =>
         var m := if |s'.blocks| == n then k else n;
         && k < n && m < |s'.blocks| && s'.blocks[m].size == MemAlign(want)
         && Contents(s.blocks[k], s.mem) <= Contents(s'.blocks[m], s'.mem)
  }

  lemma ZeroKeeps(mem: Memory, b: Block, c: Block)
    ensures BlocksApart(b, c) ==> Contents(c, Zeroed(mem, b)) == Contents(c, mem)
    ensures forall i :: 0 <= i < b.size ==> Contents(b, Zeroed(mem, b))[i] == 0
  {
    forall i | 0 <= i < b.size ensures Contents(b, Zeroed(mem, b))[i] == 0 {
      assert Within(b.addr + i, b);
    }
    if BlocksApart(b, c) {
      forall i | 0 <= i < c.size ensures Contents(c, Zeroed(mem, b))[i] == Contents(c, mem)[i] {
        assert !Within(c.addr + i, b);
      }
    }
  }

  lemma MallocStep(s: State, op: Op, qsize: nat, page: nat)
    requires Inv(s.segs, s.blocks) && op.Malloc? && Possible(s, op, qsize, page)
    ensures var s' := Apply(s, op, qsize, page); Inv(s'.segs, s'.blocks) && ArrayStep(s, op, s')
  {
    AllocKeeps(s.segs, s.blocks, op.nbytes, qsize, page, op.g);
    var s' := Apply(s, op, qsize, page);
    var n := |s.blocks|;
    forall l | 0 <= l < n ensures Same(s, s', l) {
      assert BlocksApart(s'.blocks[l], s'.blocks[n]);
      ZeroKeeps(s.mem, s'.blocks[n], s'.blocks[l]);
    }
    ZeroKeeps(s.mem, s'.blocks[n], s'.blocks[n]);
  }

  lemma WriteStep(s: State, op: Op, qsize: nat, page: nat)
    requires Inv(s.segs, s.blocks) && op.Write? && Possible(s, op, qsize, page)
    ensures var s' := Apply(s, op, qsize, page); Inv(s'.segs, s'.blocks) && ArrayStep(s, op, s')
  {
    var s' := Apply(s, op, qsize, page);
    forall l | 0 <= l < |s.blocks| && l != op.k ensures Same(s, s', l) {
      assert BlocksApart(s.blocks[l], s.blocks[op.k]);
    }
    assert Contents(s'.blocks[op.k], s'.mem) == Contents(s.blocks[op.k], s.mem)[op.i := op.v];
  }

  /** A growth keeps the blocks apart, inside and tiling, whatever it does to their contents. */
  lemma GrowInv(s: State, op: Op, qsize: nat, page: nat)
    requires Inv(s.segs, s.blocks) && op.Grow? && Possible(s, op, qsize, page)
    ensures var s' := Apply(s, op, qsize, page); Inv(s'.segs, s'.blocks)
  {
    var k, w := op.k, MemAlign(op.want);
    if GrowsInPlace(s.segs, s.blocks[k].addr, MemAlign(op.had), w) {
      GrowKeeps(s.segs, s.blocks, k, w);
    } else {
      AlignTwice(op.want);
      AllocKeeps(s.segs, s.blocks, w, qsize, page, op.g);
    }
  }

  /** After the copy and the junk: what the junk misses is as the copy left it. */
  lemma MissedByJunk(mem: Memory, b: Block, addr: int, h: nat, c: Block, junk: seq<Byte>)
    requires |junk| == 8 && Disjoint(addr, h, c.addr, c.size) && Spares(addr, h, c)
    ensures Contents(c, Scribbled(Copy(mem, b.addr, addr, h), addr, junk)) == Contents(c, Copy(mem, b.addr, addr, h))
  {
  }

  /** Moving: the old bytes are copied, and then the old block is scribbled on. */
  lemma MoveStep(s: State, op: Op, qsize: nat, page: nat)
    requires Inv(s.segs, s.blocks) && op.Grow? && Possible(s, op, qsize, page) && op.had <= op.want
    requires !GrowsInPlace(s.segs, s.blocks[op.k].addr, MemAlign(op.had), MemAlign(op.want))
    requires Spared(s.blocks, op.k, Alloc(s.segs, MemAlign(op.want), qsize, page, op.g).1)
    ensures ArrayStep(s, op, Apply(s, op, qsize, page))
  {
    AlignTwice(op.want);
    AllocKeeps(s.segs, s.blocks, MemAlign(op.want), qsize, page, op.g);
    var s' := Apply(s, op, qsize, page);
    var n, k := |s.blocks|, op.k;
    var b, addr, h := s'.blocks[n], s.blocks[k].addr, s.blocks[k].size;
    assert s'.blocks[k] == s.blocks[k] && BlocksApart(s'.blocks[k], b);
    forall l | 0 <= l < n && l != k ensures Same(s, s', l) {
      assert BlocksApart(s'.blocks[l], b) && BlocksApart(s'.blocks[l], s'.blocks[k]);
      assert Spares(addr, h, s.blocks[l]);
      MissedByJunk(s.mem, b, addr, h, s.blocks[l], op.junk);
    }
    var copied := Block(b.addr, h);
    MissedByJunk(s.mem, b, addr, h, copied, op.junk);
    CopyCopies(s.mem, b.addr, s.blocks[k]);
    Prefixes(s'.mem, b, h);
  }

  lemma CopyCopies(mem: Memory, dst: int, b: Block)
    ensures Contents(Block(dst, b.size), Copy(mem, dst, b.addr, b.size)) == Contents(b, mem)
  {
  }

  lemma Prefixes(mem: Memory, b: Block, h: nat)
    requires h <= b.size
    ensures Contents(Block(b.addr, h), mem) <= Contents(b, mem)
  {
  }

  lemma InPlaceStep(s: State, op: Op, qsize: nat, page: nat)
    requires Inv(s.segs, s.blocks) && op.Grow? && Possible(s, op, qsize, page)
    requires GrowsInPlace(s.segs, s.blocks[op.k].addr, MemAlign(op.had), MemAlign(op.want))
    ensures ArrayStep(s, op, Apply(s, op, qsize, page))
  {
    var s', k := Apply(s, op, qsize, page), op.k;
    forall l | 0 <= l < |s.blocks| && l != k ensures Same(s, s', l) {
    }
    assert Contents(s.blocks[k], s.mem) <= Contents(s'.blocks[k], s'.mem);
  }

  // ---------- when growing keeps what was there ----------

  /** A growth treats the blocks as separate arrays, with this memory and this junk. */
  ghost predicate KeepsArrays(segs: seq<Seg>, blocks: seq<Block>, op: Op, mem: Memory, junk: seq<Byte>,
    qsize: nat, page: nat)
    requires op.Grow? && op.k < |blocks| && |junk| == 8
  {
    var s := State(segs, blocks, mem);
    ArrayStep(s, op.(junk := junk), Grown(s, op.k, op.had, op.want, qsize, page, op.g, junk))
  }

  const ZEROS: Memory := a => 0
  const ONES: seq<Byte> := [1, 1, 1, 1, 1, 1, 1, 1]

  /** Junk that meets a block shows in it. */
  lemma JunkShows(b: Block, addr: int, h: nat, c: Block)
    requires !Spares(addr, h, c)
    ensures exists i :: 0 <= i < c.size && Contents(c, Scribbled(Copy(ZEROS, b.addr, addr, h), addr, ONES))[i] == 1
  {
    var i := if addr + h < c.addr then 0 else addr + h - c.addr;
    assert Contents(c, Scribbled(Copy(ZEROS, b.addr, addr, h), addr, ONES))[i] == 1;
  }

  lemma ZerosAre(c: Block, i: nat)
    requires i < c.size
    ensures Contents(c, ZEROS)[i] == 0
  {
  }

  lemma UnsafeShows(segs: seq<Seg>, blocks: seq<Block>, op: Op, qsize: nat, page: nat)
    requires Inv(segs, blocks) && op.Grow? && Possible(State(segs, blocks, ZEROS), op, qsize, page) && op.had <= op.want
    requires !GrowsSafely(segs, blocks, op.k, op.want, qsize, page, op.g)
    ensures !KeepsArrays(segs, blocks, op, ZEROS, ONES, qsize, page)
  {
    AllocKeeps(segs, blocks, MemAlign(op.want), qsize, page, op.g);
    var s, k, n := State(segs, blocks, ZEROS), op.k, |blocks|;
    var s' := Grown(s, k, op.had, op.want, qsize, page, op.g, ONES);
    var b, addr, h := s'.blocks[n], blocks[k].addr, blocks[k].size;
    if !Spares(addr, h, Block(b.addr, h)) {
      JunkShows(b, addr, h, Block(b.addr, h));
      var i :| 0 <= i < h && Contents(Block(b.addr, h), s'.mem)[i] == 1;
      ZerosAre(blocks[k], i);
      assert Contents(b, s'.mem)[i] == 1;
    } else {
      var l :| 0 <= l < n && l != k && !Spares(addr, h, blocks[l]);
      JunkShows(b, addr, h, blocks[l]);
      var i :| 0 <= i < blocks[l].size && Contents(blocks[l], s'.mem)[i] == 1;
      ZerosAre(blocks[l], i);
      assert s'.blocks[l] == blocks[l] && !Same(s, s', l);
    }
  }

  /**
   * Whatever is in memory, growing a block keeps its contents and those of all others, if and
   * only if it grows in place or the junk written on leaving it spares them.
   */
  lemma GrowExact(segs: seq<Seg>, blocks: seq<Block>, op: Op, qsize: nat, page: nat)
    requires Inv(segs, blocks) && op.Grow? && Possible(State(segs, blocks, ZEROS), op, qsize, page) && op.had <= op.want
    ensures (forall mem, junk {:trigger KeepsArrays(segs, blocks, op, mem, junk, qsize, page)} ::
               |junk| == 8 ==> KeepsArrays(segs, blocks, op, mem, junk, qsize, page))
            <==> GrowsSafely(segs, blocks, op.k, op.want, qsize, page, op.g)
  {
    if GrowsSafely(segs, blocks, op.k, op.want, qsize, page, op.g) {
      forall mem, junk | |junk| == 8 ensures KeepsArrays(segs, blocks, op, mem, junk, qsize, page) {
        var s, o := State(segs, blocks, mem), op.(junk := junk);
        if GrowsInPlace(segs, blocks[op.k].addr, MemAlign(op.had), MemAlign(op.want)) {
          InPlaceStep(s, o, qsize, page);
        } else {
          MoveStep(s, o, qsize, page);
        }
      }
    } else {
      UnsafeShows(segs, blocks, op, qsize, page);
    }
  }

  /**
   * For a block of four bytes with four more bytes behind it in its segment, leaving it
   * spares everything if and only if it is the last block of the segment even then.
   */
  lemma SparedIfLast(segs: seq<Seg>, i: nat, blocks: seq<Block>, k: nat, b: Block)
    requires Inv(segs, blocks + [b]) && i < |segs| && k < |blocks| && b.size >= 4
    requires Inside(blocks[k], segs[i]) && blocks[k].size == 4 && blocks[k].addr + 8 <= segs[i].base + segs[i].size
    ensures Spared(blocks, k, b) <==> blocks[k].addr + 4 == End(segs[i])
  {
    var all, a := blocks + [b], blocks[k].addr + 4;
    assert all[k] == blocks[k] && all[|blocks|] == b && BlocksApart(all[k], all[|blocks|]);
    assert Housed(all[|blocks|], segs);
    if a < End(segs[i]) {
      assert Tiled(segs[i], all) && Covered(a, all);
      var l :| 0 <= l < |all| && Within(a, all[l]);
      if l < |blocks| {
        assert !Spares(a - 4, 4, blocks[l]);
      } else {
        assert !Spares(a - 4, 4, Block(b.addr, 4));
      }
    } else {
      FreeSpaceApart(segs, i, 4, all, |blocks|);
      forall l | 0 <= l < |blocks| && l != k ensures Spares(a - 4, 4, blocks[l]) {
        FreeSpaceApart(segs, i, 4, all, l);
        assert all[l] == blocks[l];
      }
    }
  }

  // ---------- whole runs ----------

  function After(s: State, ops: seq<Op>, careful: bool, qsize: nat, page: nat): State
    requires Runs(s, ops, careful, qsize, page)
    decreases |ops|
  {
    if ops == [] then s else After(Apply(s, ops[0], qsize, page), ops[1..], careful, qsize, page)
  }

  /** Each operation is possible where it comes, and careful where that is asked. */
  ghost predicate Runs(s: State, ops: seq<Op>, careful: bool, qsize: nat, page: nat)
    decreases |ops|
  {
    ops == [] ||
    (&& Possible(s, ops[0], qsize, page)
     && (careful ==> Careful(s, ops[0], qsize, page))
     && Runs(Apply(s, ops[0], qsize, page), ops[1..], careful, qsize, page))
  }

  lemma StepInv(s: State, op: Op, qsize: nat, page: nat)
    requires Inv(s.segs, s.blocks) && Possible(s, op, qsize, page)
    ensures var s' := Apply(s, op, qsize, page); Inv(s'.segs, s'.blocks)
  {
    match op
    case Malloc(_, _, _) => MallocStep(s, op, qsize, page);
    case Write(_, _, _) => WriteStep(s, op, qsize, page);
    case Grow(_, _, _, _, _) => GrowInv(s, op, qsize, page);
  }

  /** Every careful operation treats the blocks as separate arrays. */
  lemma StepRefines(s: State, op: Op, qsize: nat, page: nat)
    requires Inv(s.segs, s.blocks) && Possible(s, op, qsize, page) && Careful(s, op, qsize, page)
    ensures ArrayStep(s, op, Apply(s, op, qsize, page))
  {
    match op
    case Malloc(_, _, _) => MallocStep(s, op, qsize, page);
    case Write(_, _, _) => WriteStep(s, op, qsize, page);
    case Grow(k, had, want, _, _) =>
      if GrowsInPlace(s.segs, s.blocks[k].addr, MemAlign(had), MemAlign(want)) {
        InPlaceStep(s, op, qsize, page);
      } else {
        MoveStep(s, op, qsize, page);
      }
  }

  /**
   * Through any run blocks stay aligned, apart and inside their segments; through a careful
   * one, a block no operation names keeps its place and contents.
   */
  lemma {:induction false} RunKeeps(s: State, ops: seq<Op>, careful: bool, l: nat, qsize: nat, page: nat)
    requires Inv(s.segs, s.blocks) && Runs(s, ops, careful, qsize, page)
    ensures var e := After(s, ops, careful, qsize, page);
            && Inv(e.segs, e.blocks)
            && (careful && l < |s.blocks| && (forall j :: 0 <= j < |ops| ==> !Names(ops[j], l)) ==> Same(s, e, l))
    decreases |ops|
  {
    if ops != [] {
      StepInv(s, ops[0], qsize, page);
      if careful { StepRefines(s, ops[0], qsize, page); }
      RunKeeps(Apply(s, ops[0], qsize, page), ops[1..], careful, l, qsize, page);
      assert ops[0] in ops;
    }
  }

  /** A block of four bytes moved to just behind itself is scribbled over. */
  lemma MovedNextDoor(mem: Memory, addr: int, junk: seq<Byte>)
    requires |junk| == 8
    ensures Contents(Block(addr + 4, 8), Scribbled(Copy(mem, addr + 4, addr, 4), addr, junk))[..4] == junk[4..]
  {
  }

  /** Growing the first block of a pool from four bytes loses what was in it, whatever it was. */
  lemma FirstBlockLost(mem: Memory, qsize: nat, page: nat, g: Grant, h: Grant, junk: seq<Byte>)
    requires |junk| == 8 && page > 8 && qsize >= 12
    ensures var s := Malloced(State([], [], mem), 4, false, qsize, page, g);
            var s' := Grown(s, 0, 4, 8, qsize, page, h, junk);
            |s'.blocks| == 2 && s'.blocks[1].size == 8 && Contents(s'.blocks[1], s'.mem)[..4] == junk[4..]
  {
    assert !OnPage(4, page) && !OnPage(8, page);
    assert Inserted([], 0, NewSeg(4, qsize, page, g)) == [NewSeg(4, qsize, page, g)];
    var (segs, b) := Alloc([], 4, qsize, page, g);
    assert segs == [Seg(g.desc, g.desc + HEADER, qsize, 4, false)] && b == Block(g.desc + HEADER, 4);
    MovedNextDoor(mem, g.desc + HEADER, junk);
  }

  // ---------- releasing a pool ----------

  /** What ep_rpool_free gives back: it recognises memory of its own by its address. */
  function FreedOf(s: Seg): seq<int> {
    (if s.base != s.desc + HEADER then [s.base] else []) + [s.desc]
  }

  function Freed(segs: seq<Seg>): seq<int> {
    if segs == [] then [] else FreedOf(segs[0]) + Freed(segs[1..])
  }

  // ---------- the pool ----------

  lemma RoundUp(n: nat, page: nat)
    requires page > 0
    ensures n <= (n + page - 1) / page * page && OnPage((n + page - 1) / page * page, page)
  {
    var q := (n + page - 1) / page;
    assert n + page - 1 == q * page + (n + page - 1) % page;
    MultipleOnPage(q, page);
  }

  lemma NonNegative(a: nat, b: nat)
    ensures a * b >= 0
  {
  }

  lemma AtLeastOnce(d: nat, page: nat)
    requires d > 0
    ensures d * page >= page
  {
    NonNegative(d - 1, page);
    assert d * page == (d - 1) * page + page;
  }

  /** A multiple of the page size has no remainder: the quotient cannot be any other. */
  lemma MultipleOnPage(q: nat, page: nat)
    requires page > 0
    ensures OnPage(q * page, page)
  {
    var x := q * page;
    var k, r := x / page, x % page;
    var d := q - k;
    assert x == k * page + r;
    assert d * page == r && (-d) * page == -r;
    if d > 0 { AtLeastOnce(d, page); } else if d < 0 { AtLeastOnce(-d, page); }
  }

  /** A call of an attached function, and how much memory had been given back when it was made. */
  datatype Call = Call(func: int, released: nat)

  /** Each of the functions is called, in this order, with so much given back. */
  function Calls(funcs: seq<int>, released: nat): (r: seq<Call>)
    ensures |r| == |funcs|
  {
    seq(|funcs|, i requires 0 <= i < |funcs| => Call(funcs[i], released))
  }

  class RPool {
    const qsize: nat
    const page: nat
    var segs: seq<Seg>
    var mem: Memory
    var beingFreed: bool
    const record: int
    var released: seq<int>
    var attached: seq<int>
    var called: seq<Call>
    ghost var blocks: seq<Block>

    ghost predicate Valid()
      reads this
    {
      page > 0 && Inv(segs, blocks)
    }

    ghost function Now(): State
      reads this
    {
      State(segs, blocks, mem)
    }

    /** ep_rpool_new: segments are made so that with their descriptor they fill whole pages. */
    constructor (wanted: nat, page: nat, mem: Memory, record: int)
      requires page > 0
      ensures Valid() && Now() == State([], [], mem) && this.page == page && this.record == record
      ensures !beingFreed && released == [] && attached == [] && called == []
      ensures wanted <= qsize < wanted + page && OnPage(qsize + HEADER, page)
    {
      RoundUp(wanted + HEADER, page);
      this.page, this.record := page, record;
      this.qsize := (wanted + HEADER + page - 1) / page * page - HEADER;
      this.mem := mem;
      segs, blocks, released, beingFreed, attached, called := [], [], [], false, [], [];
    }

    /** ep_rpool_ialloc. */
    method Alloc(nbytes: nat, zero: bool, g: Grant) returns (p: int)
      requires Valid() && HeapOk(segs, nbytes, qsize, page, g)
      modifies `segs, `mem, `blocks
      ensures Valid() && Now() == Malloced(old(Now()), nbytes, zero, qsize, page, g)
      ensures blocks == old(blocks) + [Block(p, MemAlign(nbytes))]
    {
      AllocKeeps(segs, blocks, nbytes, qsize, page, g);
      var n := MemAlign(nbytes);
      var at := 0;
      if NeedsSeg(segs, n, page) {
        var s := NewSeg(n, qsize, page, g);
        at := Position(segs, s, n);
        segs := Inserted(segs, at, s);
      }
      p := End(segs[at]);
      segs := Taken(segs, at, n);
      blocks := blocks + [Block(p, n)];
      if zero { mem := Zeroed(mem, Block(p, n)); }
    }

    /** ep_rpool_mfree: nothing is reclaimed, and every block outside the first eight bytes keeps its contents. */
    method Mfree(addr: int, junk: seq<Byte>)
      requires Valid() && |junk| == 8
      modifies `mem
      ensures Valid() && mem == Scribbled(old(mem), addr, junk)
      ensures forall l {:trigger blocks[l]} ::
        0 <= l < |blocks| && Disjoint(addr, 8, blocks[l].addr, blocks[l].size) ==>
                Contents(blocks[l], mem) == Contents(blocks[l], old(mem))
    {
      mem := Scribbled(mem, addr, junk);
    }

    /**
     * ep_rpool_realloc: in place for the last, but not first, block of the first segment if it
     * fits; otherwise a new block.
     */
    method Realloc(ghost k: nat, addr: int, had: nat, want: nat, g: Grant, junk: seq<Byte>) returns (p: int)
      requires Valid() && k < |blocks| && blocks[k] == Block(addr, MemAlign(had)) && |junk| == 8
      requires HeapOk(segs, want, qsize, page, g)
      modifies `segs, `mem, `blocks
      ensures Valid() && Now() == Grown(old(Now()), k, had, want, qsize, page, g, junk)
      ensures exists m {:trigger blocks[m]} :: 0 <= m < |blocks| && blocks[m] == Block(p, MemAlign(want))
    {
      var h, w := MemAlign(had), MemAlign(want);
      if GrowsInPlace(segs, addr, h, w) {
        Lengthen(k, addr, h, w);
        p := addr;
        assert blocks[k] == Block(p, w);
      } else {
        p := Move(addr, h, w, g, junk);
        assert blocks[|blocks| - 1] == Block(p, w);
      }
    }

    /** The block at `addr`, the last of the first segment, becomes longer where it is. */
    method Lengthen(ghost k: nat, addr: int, h: nat, w: nat)
      requires Valid() && k < |blocks| && blocks[k] == Block(addr, h) && GrowsInPlace(segs, addr, h, w)
      requires h % 4 == 0 && w % 4 == 0
      modifies `segs, `blocks
      ensures Valid() && blocks == old(blocks)[k := Block(addr, w)]
      ensures segs == Taken(old(segs), 0, w - h)
    {
      GrowKeeps(segs, blocks, k, w);
      segs := Taken(segs, 0, w - h);
      blocks := blocks[k := Block(addr, w)];
    }

    /** The block at `addr` goes somewhere else; where it was is given up. */
    method Move(addr: int, h: nat, w: nat, g: Grant, junk: seq<Byte>) returns (p: int)
      requires Valid() && HeapOk(segs, w, qsize, page, g) && MemAlign(w) == w && |junk| == 8
      modifies `segs, `mem, `blocks
      ensures Valid() && blocks == old(blocks) + [Block(p, w)]
      ensures var made := Malloced(old(Now()), w, false, qsize, page, g);
              Now() == made.(mem := Scribbled(Copy(old(mem), p, addr, h), addr, junk))
    {
      p := Alloc(w, false, g);
      mem := Copy(mem, p, addr, h);
      Mfree(addr, junk);
    }

    /** ep_rpool_attach: the function attached last comes first. */
    method Attach(func: int)
      modifies `attached
      ensures attached == [func] + old(attached)
    {
      attached := [func] + attached;
    }

    /** The attached functions are called one after the other. */
    method CallAttached()
      modifies `called
      ensures called == old(called) + Calls(attached, |released|)
    {
      ghost var all := Calls(attached, |released|);
      for i := 0 to |attached|
        invariant called == old(called) + all[..i]
      {
        called := called + [Call(attached[i], |released|)];
      }
    }

    /**
     * ep_rpool_free: each attached function is called, the last attached first, before any memory
     * goes; a second call, made while the first is at work, does nothing.
     */
    method Free()
      requires Valid()
      modifies `beingFreed, `released, `called
      ensures beingFreed
      ensures released == if old(beingFreed) then old(released) else old(released) + Freed(segs) + [record]
      ensures called == if old(beingFreed) then old(called) else old(called) + Calls(attached, |old(released)|)
    {
      if beingFreed { return; }
      beingFreed := true;
      CallAttached();
      ReleaseAll();
      released := released + [record];
    }

    /** All segments go, each with its descriptor. */
    method ReleaseAll()
      modifies `released
      ensures released == old(released) + Freed(segs)
    {
      var i := 0;
      assert segs[0..] == segs;
      while i < |segs|
        invariant i <= |segs| && released + Freed(segs[i..]) == old(released) + Freed(segs)
      {
        assert segs[i..][1..] == segs[i + 1..] && segs[i..][0] == segs[i];
        ghost var before := released;
        if segs[i].base != segs[i].desc + HEADER { released := released + [segs[i].base]; }
        released := released + [segs[i].desc];
        assert released == before + FreedOf(segs[i]);
        i := i + 1;
      }
      assert segs[i..] == [] && released + [] == released;
    }
  }
}
