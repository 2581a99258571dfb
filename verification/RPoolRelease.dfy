/**
 * Releasing a resource pool: over every run, what the heap gave is given back, each address
 * once.
 */
module RPoolRelease {
  import opened RPool

  predicate Recognised(s: Seg) {
    s.apart ==> s.base != s.desc + HEADER
  }

  ghost predicate AllRecognised(segs: seq<Seg>) {
    forall i {:trigger Recognised(segs[i])} :: 0 <= i < |segs| ==> Recognised(segs[i])
  }

  lemma FreedOne(s: Seg)
    requires SegOk(s)
    ensures multiset(FreedOf(s)) <= multiset(OwnedOf(s))
    ensures if Recognised(s) then FreedOf(s) == OwnedOf(s) else |FreedOf(s)| < |OwnedOf(s)|
  {
    if !Recognised(s) { assert multiset(OwnedOf(s)) == multiset{s.base, s.desc}; }
  }

  /** Nothing is given back that was not given, and everything is exactly when no memory of its own is mistaken. */
  lemma {:induction false} FreedWithin(segs: seq<Seg>)
    requires forall i {:trigger SegOk(segs[i])} :: 0 <= i < |segs| ==> SegOk(segs[i])
    ensures multiset(Freed(segs)) <= multiset(Owned(segs))
    ensures if AllRecognised(segs) then Freed(segs) == Owned(segs) else |Freed(segs)| < |Owned(segs)|
  {
    if segs != [] {
      var rest := segs[1..];
      forall i | 0 <= i < |rest| ensures SegOk(rest[i]) { assert SegOk(segs[i + 1]); }
      FreedWithin(rest);
      assert SegOk(segs[0]);
      FreedOne(segs[0]);
      RecognisedCons(segs);
    }
  }

  lemma RecognisedCons(segs: seq<Seg>)
    requires segs != []
    ensures AllRecognised(segs) <==> Recognised(segs[0]) && AllRecognised(segs[1..])
  {
    var rest := segs[1..];
    if Recognised(segs[0]) && AllRecognised(rest) {
      forall i | 0 <= i < |segs| ensures Recognised(segs[i]) {
        if i > 0 { assert Recognised(rest[i - 1]); }
      }
    }
    if AllRecognised(segs) {
      assert Recognised(segs[0]);
      forall i | 0 <= i < |rest| ensures Recognised(rest[i]) { assert Recognised(segs[i + 1]); }
    }
  }

  lemma {:induction false} OwnedAppend(a: seq<Seg>, b: seq<Seg>)
    ensures Owned(a + b) == Owned(a) + Owned(b)
  {
    if a == [] {
      assert a + b == b;
    } else {
      OwnedAppend(a[1..], b);
      assert (a + b)[1..] == a[1..] + b;
    }
  }

  lemma Shuffled(a: seq<int>, o: seq<int>, b: seq<int>)
    ensures multiset(a + o + b) == multiset(a + b) + multiset(o)
  {
  }

  lemma {:induction false} OwnedInserted(segs: seq<Seg>, at: nat, s: Seg)
    requires at <= |segs|
    ensures multiset(Owned(Inserted(segs, at, s))) == multiset(Owned(segs)) + multiset(OwnedOf(s))
  {
    var a, b := segs[..at], segs[at..];
    OwnedSplit(segs, at);
    OwnedAppend(a + [s], b);
    OwnedAppend(a, [s]);
    OwnedSingle(s);
    Shuffled(Owned(a), OwnedOf(s), Owned(b));
  }

  lemma {:induction false} OwnedSplit(segs: seq<Seg>, at: nat)
    requires at <= |segs|
    ensures Owned(segs) == Owned(segs[..at]) + Owned(segs[at..])
  {
    OwnedAppend(segs[..at], segs[at..]);
    assert segs[..at] + segs[at..] == segs;
  }

  lemma OwnedSingle(s: Seg)
    ensures Owned([s]) == OwnedOf(s)
  {
    assert [s][1..] == [] && OwnedOf(s) + [] == OwnedOf(s);
  }

  lemma {:induction false} OwnedTaken(segs: seq<Seg>, at: nat, n: nat)
    requires at < |segs|
    ensures Owned(Taken(segs, at, n)) == Owned(segs)
  {
    if at == 0 {
      assert Taken(segs, at, n)[1..] == segs[1..];
    } else {
      OwnedTaken(segs[1..], at - 1, n);
      assert Taken(segs, at, n)[1..] == Taken(segs[1..], at - 1, n);
    }
  }

  /** The addresses the heap gives for a request, for an operation, and during a run. */
  function GivenFor(segs: seq<Seg>, nbytes: nat, qsize: nat, page: nat, g: Grant): seq<int> {
    if NeedsSeg(segs, MemAlign(nbytes), page) then OwnedOf(NewSeg(MemAlign(nbytes), qsize, page, g)) else []
  }

  function GivenBy(s: State, op: Op, qsize: nat, page: nat): seq<int>
    requires op.Grow? ==> op.k < |s.blocks|
  {
    match op
    case Malloc(nbytes, _, g) => GivenFor(s.segs, nbytes, qsize, page, g)
    case Write(_, _, _) => []
    case Grow(k, had, want, g, _) =>
      if GrowsInPlace(s.segs, s.blocks[k].addr, MemAlign(had), MemAlign(want)) then []
      else GivenFor(s.segs, MemAlign(want), qsize, page, g)
  }

  function Given(s: State, ops: seq<Op>, careful: bool, qsize: nat, page: nat): seq<int>
    requires Runs(s, ops, careful, qsize, page)
    decreases |ops|
  {
    if ops == [] then []
    else GivenBy(s, ops[0], qsize, page) + Given(Apply(s, ops[0], qsize, page), ops[1..], careful, qsize, page)
  }

  ghost predicate OnceEach(a: seq<int>) {
    forall x {:trigger multiset(a)[x]} :: multiset(a)[x] <= 1
  }

  /** What is owned grows by what is given, and stays without repeats. */
  ghost predicate Adds(segs: seq<Seg>, segs': seq<Seg>, given: seq<int>) {
    && multiset(Owned(segs')) == multiset(Owned(segs)) + multiset(given)
    && (OnceEach(Owned(segs)) ==> OnceEach(Owned(segs')))
  }

  lemma AddsNothing(segs: seq<Seg>, at: nat, n: nat)
    requires at < |segs|
    ensures Adds(segs, Taken(segs, at, n), [])
  {
    OwnedTaken(segs, at, n);
  }

  lemma OnceStays(a: seq<int>, o: seq<int>, b: seq<int>)
    requires OnceEach(a) && OnceEach(o) && multiset(b) == multiset(a) + multiset(o) && forall x :: x in o ==> x !in a
    ensures OnceEach(b)
  {
    forall x ensures multiset(b)[x] <= 1 {
      assert multiset(b)[x] == multiset(a)[x] + multiset(o)[x];
      assert x in o <==> x in multiset(o);
      assert x in a <==> x in multiset(a);
    }
  }

  lemma OwnedOnce(s: Seg)
    requires s.apart ==> s.base != s.desc
    ensures OnceEach(OwnedOf(s))
  {
    assert multiset(OwnedOf(s)) == if s.apart then multiset{s.base, s.desc} else multiset{s.desc};
  }

  lemma InsertedAdds(segs: seq<Seg>, at: nat, s: Seg)
    requires at <= |segs| && Granted(segs, s)
    ensures Adds(segs, Inserted(segs, at, s), OwnedOf(s))
  {
    OwnedInserted(segs, at, s);
    OwnedOnce(s);
    if OnceEach(Owned(segs)) { OnceStays(Owned(segs), OwnedOf(s), Owned(Inserted(segs, at, s))); }
  }

  lemma TakenAdds(segs: seq<Seg>, room: seq<Seg>, at: nat, n: nat, given: seq<int>)
    requires Adds(segs, room, given) && at < |room|
    ensures Adds(segs, Taken(room, at, n), given)
  {
    OwnedTaken(room, at, n);
  }

  /** A request adds what the heap gives for it to what the pool owns. */
  lemma AllocOwned(segs: seq<Seg>, nbytes: nat, qsize: nat, page: nat, g: Grant)
    requires HeapOk(segs, nbytes, qsize, page, g)
    ensures Adds(segs, Alloc(segs, nbytes, qsize, page, g).0, GivenFor(segs, nbytes, qsize, page, g))
  {
    var n := MemAlign(nbytes);
    var (room, at) := MakeRoom(segs, n, qsize, page, g);
    if NeedsSeg(segs, n, page) {
      InsertedAdds(segs, at, NewSeg(n, qsize, page, g));
      TakenAdds(segs, room, at, n, OwnedOf(NewSeg(n, qsize, page, g)));
    } else {
      AddsNothing(segs, at, n);
    }
  }

  lemma GrowOwned(s: State, op: Op, qsize: nat, page: nat)
    requires op.Grow? && Possible(s, op, qsize, page)
    ensures Adds(s.segs, Apply(s, op, qsize, page).segs, GivenBy(s, op, qsize, page))
  {
    var h, w := MemAlign(op.had), MemAlign(op.want);
    if GrowsInPlace(s.segs, s.blocks[op.k].addr, h, w) {
      AddsNothing(s.segs, 0, w - h);
    } else {
      AlignTwice(op.want);
      AllocOwned(s.segs, w, qsize, page, op.g);
    }
  }

  lemma StepOwned(s: State, op: Op, qsize: nat, page: nat)
    requires Possible(s, op, qsize, page)
    ensures Adds(s.segs, Apply(s, op, qsize, page).segs, GivenBy(s, op, qsize, page))
  {
    match op
    case Malloc(nbytes, _, g) => AllocOwned(s.segs, nbytes, qsize, page, g);
    case Write(_, _, _) =>
    case Grow(_, _, _, _, _) => GrowOwned(s, op, qsize, page);
  }

  lemma {:induction false} RunOwned(s: State, ops: seq<Op>, careful: bool, qsize: nat, page: nat)
    requires Runs(s, ops, careful, qsize, page)
    ensures Adds(s.segs, After(s, ops, careful, qsize, page).segs, Given(s, ops, careful, qsize, page))
    decreases |ops|
  {
    if ops != [] {
      var s1 := Apply(s, ops[0], qsize, page);
      StepOwned(s, ops[0], qsize, page);
      RunOwned(s1, ops[1..], careful, qsize, page);
      AddsOn(s.segs, s1.segs, After(s, ops, careful, qsize, page).segs, GivenBy(s, ops[0], qsize, page),
        Given(s1, ops[1..], careful, qsize, page));
    }
  }

  lemma AddsOn(a: seq<Seg>, b: seq<Seg>, c: seq<Seg>, first: seq<int>, rest: seq<int>)
    requires Adds(a, b, first) && Adds(b, c, rest)
    ensures Adds(a, c, first + rest)
  {
  }

  /**
   * After any run of a new pool, releasing it gives the heap no address twice and none it did
   * not give, and gives back all that it gave during the run if and only if no memory
   * allocated apart happens to follow its own descriptor.
   */
  lemma {:induction false} FreedExact(mem: Memory, ops: seq<Op>, careful: bool, qsize: nat, page: nat)
    requires Runs(State([], [], mem), ops, careful, qsize, page)
    ensures var s := State([], [], mem);
            var e, given := After(s, ops, careful, qsize, page), Given(s, ops, careful, qsize, page);
            && OnceEach(Freed(e.segs)) && multiset(Freed(e.segs)) <= multiset(given)
            && (multiset(Freed(e.segs)) == multiset(given) <==> AllRecognised(e.segs))
  {
    var s := State([], [], mem);
    RunKeeps(s, ops, careful, 0, qsize, page);
    RunOwned(s, ops, careful, qsize, page);
    var e, given := After(s, ops, careful, qsize, page), Given(s, ops, careful, qsize, page);
    FreedWithin(e.segs);
    assert multiset(Owned(e.segs)) == multiset(given);
    forall x ensures multiset(Freed(e.segs))[x] <= 1 {
      assert multiset(Freed(e.segs))[x] <= multiset(Owned(e.segs))[x];
    }
    assert |multiset(Freed(e.segs))| == |Freed(e.segs)| && |multiset(Owned(e.segs))| == |Owned(e.segs)|;
  }

  /** A page the heap happens to give right behind its descriptor is not given back. */
  lemma PageKept(mem: Memory, desc: int, qsize: nat, page: nat)
    requires desc % 4 == 0 && page > 0 && page % 4 == 0
    ensures var s, ops := State([], [], mem), [Malloc(page, false, Grant(desc, desc + HEADER))];
            && Runs(s, ops, true, qsize, page) && Given(s, ops, true, qsize, page) == [desc + HEADER, desc]
            && Freed(After(s, ops, true, qsize, page).segs) == [desc]
  {
    var s, op := State([], [], mem), Malloc(page, false, Grant(desc, desc + HEADER));
    var seg := Seg(desc, desc + HEADER, page, 0, true);
    assert MemAlign(page) == page && OnPage(page, page) && NewSeg(page, qsize, page, op.g) == seg;
    assert [op][1..] == [] && Inserted([], 0, seg) == [seg];
    assert Apply(s, op, qsize, page).segs == [seg.(used := page)];
    assert [seg.(used := page)][1..] == [];
  }
}
