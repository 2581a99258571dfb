/**
 * What every run of the GOB protocol guarantees: references, lookups, frees,
 * the agreement of the lists with the flags, and the order of the usage list.
 */
module GobSafety {
  import opened Collections
  import opened GobProtocol

  /** A run: an initial state and a chain of enabled steps. */
  ghost predicate IsRun(states: seq<State>, steps: seq<Step>) {
    && |states| == |steps| + 1
    && Init(states[0])
    && forall i {:trigger Follows(states, steps, i)} :: 0 <= i < |steps| ==> Follows(states, steps, i)
  }

  ghost predicate Follows(states: seq<State>, steps: seq<Step>, i: nat)
    requires i < |steps| && |states| == |steps| + 1
  {
    Enabled(states[i], steps[i]) && states[i + 1] == Apply(states[i], steps[i])
  }

  /** No open that fails discards a GOB to which somebody else got a reference. */
  ghost predicate FreesExclusively(states: seq<State>, steps: seq<Step>)
    requires IsRun(states, steps)
  {
    forall i {:trigger Follows(states, steps, i)} :: 0 <= i < |steps| ==>
      Follows(states, steps, i) && Exclusive(states[i], steps[i])
  }

  lemma LookKeepsInv(s: State, step: Step)
    requires Inv(s) && Enabled(s, step) && Looks(step)
    ensures Inv(Apply(s, step))
  {
    match step
    case GetBegin(_, _, _) | GetNewFail(_) => KeepsGetBegin(s, step);
    case GetSearch(_) => KeepsGetSearch(s, step);
    case GetLock(_) => KeepsGetLock(s, step);
    case GetAbandon(_) => KeepsGetAbandon(s, step);
    case GetTake(_, _) => if s.pcs[step.t].flags.peek { KeepsGetPeek(s, step); } else { KeepsGetTake(s, step); }
    case GetNew(_, _, _) => KeepsGetNew(s, step);
    case GetAdd(_) => KeepsGetAdd(s, step);
    case GetReturn(_) => KeepsGetReturn(s, step);
    case _ =>
  }

  lemma UseKeepsInv(s: State, step: Step)
    requires Inv(s) && Enabled(s, step) && FreesNothing(step) && !Looks(step)
    ensures Inv(Apply(s, step))
  {
    match step
    case Unlock(_) => KeepsUnlock(s, step);
    case Relock(_, _) => KeepsRelock(s, step);
    case Incref(_, _) => KeepsIncref(s, step);
    case Mark(_, _, _) => KeepsMark(s, step);
    case ChangeName(_, _) => KeepsChangeName(s, step);
    case Rename(_) => KeepsRename(s, step);
    case Tick(_) => KeepsTick(s, step);
    case _ =>
  }

  lemma FreeKeepsInv(s: State, step: Step)
    requires Inv(s) && Enabled(s, step) && !FreesNothing(step) && Exclusive(s, step)
    ensures Inv(Apply(s, step))
  {
    match step
    case Decref(_, _) => KeepsDecref(s, step);
    case ForceFree(_, _) => KeepsForceFree(s, step);
    case DropUnlock(_) => KeepsDropUnlock(s, step);
    case DropTakeCache(_) => KeepsDropTakeCache(s, step);
    case DropReturn(_) => KeepsDropReturn(s, step);
    case DropTakeGob(_) => KeepsDropTakeGob(s, step);
    case DropUnlink(_) => KeepsDropUnlink(s, step);
    case ScrubUnlock(_) => KeepsScrubUnlock(s, step);
    case ClearFlags(_) => KeepsClearFlags(s, step);
    case PushFree(_) => KeepsPushFree(s, step);
    case ReclaimBegin(_, _) => KeepsReclaimBegin(s, step);
    case ReclaimEnd(_) => KeepsReclaimEnd(s, step);
    case ReclaimBusy(_) => KeepsReclaimBusy(s, step);
    case ReclaimTry(_) => KeepsReclaimTry(s, step);
    case ReclaimKeep(_) => KeepsReclaimKeep(s, step);
    case ReclaimDrop(_) => KeepsReclaimDrop(s, step);
    case _ =>
  }

  /** The invariant survives every step of every thread, except exactly a forced free of a GOB others refer to. */
  lemma StepKeepsInv(s: State, step: Step)
    requires Inv(s) && Enabled(s, step)
    ensures Inv(Apply(s, step)) <==> Exclusive(s, step)
  {
    if Looks(step) {
      LookKeepsInv(s, step);
    } else if FreesNothing(step) {
      UseKeepsInv(s, step);
    } else if Exclusive(s, step) {
      FreeKeepsInv(s, step);
    } else {
      var s', g := Apply(s, step), s.pcs[step.t].g;
      assert ThreadOk(s, step.t) && GobOk(s, g);
      DropRef(s.refs, step.r);
      assert !GobOk(s', g);
    }
  }

  lemma InitInv(s: State)
    requires Init(s)
    ensures Inv(s)
  {
    forall t | t in s.pcs ensures ThreadOk(s, t) { }
  }

  lemma {:induction false} RunKeepsInv(states: seq<State>, steps: seq<Step>, i: nat)
    requires IsRun(states, steps) && FreesExclusively(states, steps) && i < |states|
    ensures Inv(states[i])
  {
    if i == 0 {
      InitInv(states[0]);
    } else {
      RunKeepsInv(states, steps, i - 1);
      assert Follows(states, steps, i - 1);
      StepKeepsInv(states[i - 1], steps[i - 1]);
    }
  }

  /** The invariant holds all along a run if and only if every forced free in it is exclusive. */
  lemma InvariantExact(states: seq<State>, steps: seq<Step>)
    requires IsRun(states, steps)
    ensures (forall i {:trigger Inv(states[i])} :: 0 <= i < |states| ==> Inv(states[i])) <==>
      FreesExclusively(states, steps)
  {
    if FreesExclusively(states, steps) {
      forall i | 0 <= i < |states| ensures Inv(states[i]) { RunKeepsInv(states, steps, i); }
    } else if forall i {:trigger Inv(states[i])} :: 0 <= i < |states| ==> Inv(states[i]) {
      forall i | 0 <= i < |steps| ensures Follows(states, steps, i) && Exclusive(states[i], steps[i]) {
        assert Follows(states, steps, i) && Inv(states[i]) && Inv(states[i + 1]);
        StepKeepsInv(states[i], steps[i]);
      }
    }
  }

  /**
   * At every moment every outstanding reference points at an allocated GOB that is
   * not being torn down and not on the free list, and the reference count of each
   * GOB is the number of references to it.
   */
  lemma ReferencedGobsLive(states: seq<State>, steps: seq<Step>, i: nat, r: RefId)
    requires IsRun(states, steps) && FreesExclusively(states, steps) && i < |states|
    requires r in states[i].refs
    ensures states[i].refs[r] in states[i].gobs
    ensures var g := states[i].refs[r]; var b := states[i].gobs[g];
            b.inuse && !b.dropping && b.dropper.None? && g !in states[i].free && b.refcnt == |RefsTo(states[i].refs, g)|
  {
    RunKeepsInv(states, steps, i);
    RefCounted(states[i].refs, r);
    assert GobOk(states[i], states[i].refs[r]);
  }

  /**
   * A GOB put on the free list is unreferenced, unlocked, in no list, and was not
   * there already: frees never get ahead of allocations, by more than the GOB in hand.
   */
  lemma FreedOncePerAllocation(states: seq<State>, steps: seq<Step>, i: nat)
    requires IsRun(states, steps) && FreesExclusively(states, steps) && i < |steps|
    ensures forall g :: g in states[i].gobs ==>
      states[i].gobs[g].frees <= states[i].gobs[g].allocs <= states[i].gobs[g].frees + 1
    ensures steps[i].PushFree? ==>
      && steps[i].t in states[i].pcs && states[i].pcs[steps[i].t].Bury?
      && var g := states[i].pcs[steps[i].t].g;
      && g in states[i].gobs && g !in states[i].free && g !in states[i].lru && states[i].gobs[g].lock.None?
      && RefsTo(states[i].refs, g) == {}
      && states[i].gobs[g].allocs == states[i].gobs[g].frees + 1
      && g in states[i + 1].gobs && states[i + 1].gobs[g].allocs == states[i + 1].gobs[g].frees
      && states[i + 1].free == [g] + states[i].free
  {
    RunKeepsInv(states, steps, i);
    forall g | g in states[i].gobs
      ensures states[i].gobs[g].frees <= states[i].gobs[g].allocs <= states[i].gobs[g].frees + 1
    {
      assert GobOk(states[i], g);
    }
    assert Follows(states, steps, i);
    if steps[i].PushFree? {
      assert ThreadOk(states[i], steps[i].t);
      assert GobOk(states[i], states[i].pcs[steps[i].t].g);
    }
  }

  /** A lookup returns, locked, a cached GOB of the name asked for that nobody is dropping. */
  lemma LookupReturnsLiveGob(states: seq<State>, steps: seq<Step>, i: nat)
    requires IsRun(states, steps) && FreesExclusively(states, steps) && i < |steps|
    requires steps[i].GetReturn? && steps[i].t in states[i].pcs && states[i].pcs[steps[i].t].GetDone?
    requires states[i].pcs[steps[i].t].found.Some?
    ensures var t := steps[i].t; var g := states[i].pcs[t].found.value;
      && t in states[i + 1].pcs && states[i + 1].pcs[t] == Using(g) && g in states[i + 1].gobs
      && Returned(states[i + 1].gobs[g], states[i].pcs[t].name)
      && states[i + 1].gobs[g].lock == Some(t)
  {
    RunKeepsInv(states, steps, i);
    assert Follows(states, steps, i);
    assert ThreadOk(states[i], steps[i].t);
  }

  /** INCACHE marks exactly the usage list, which holds each GOB once and shares none with the free list. */
  lemma CacheStructure(states: seq<State>, steps: seq<Step>, i: nat)
    requires IsRun(states, steps) && FreesExclusively(states, steps) && i < |states|
    ensures NoDup(states[i].lru) && NoDup(states[i].free)
    ensures forall g :: g in states[i].lru <==> g in states[i].gobs && states[i].gobs[g].incache
    ensures forall g :: g in states[i].lru ==> g !in states[i].free && states[i].gobs[g].inuse
    ensures forall n :: n in states[i].hash ==>
      states[i].hash[n] in states[i].lru && states[i].gobs[states[i].hash[n]].name == n
  {
    RunKeepsInv(states, steps, i);
    forall g | g in states[i].gobs
      ensures g in states[i].lru <==> states[i].gobs[g].incache
      ensures g in states[i].lru ==> g !in states[i].free && states[i].gobs[g].inuse
    {
      assert GobOk(states[i], g);
    }
  }

  /** The usage list is always ordered by non-increasing time of use. */
  lemma UsageOrder(states: seq<State>, steps: seq<Step>, i: nat)
    requires IsRun(states, steps) && FreesExclusively(states, steps) && i < |states|
    ensures LruOrdered(states[i].gobs, states[i].lru)
  {
    RunKeepsInv(states, steps, i);
  }

  /** A thread that is back outside the library holds neither the cache mutex nor any GOB mutex. */
  lemma IdleHoldsNoLock(states: seq<State>, steps: seq<Step>, i: nat, t: Tid)
    requires IsRun(states, steps) && FreesExclusively(states, steps) && i < |states|
    requires t in states[i].pcs && states[i].pcs[t].Idle?
    ensures states[i].cacheLock != Some(t)
    ensures forall g :: g in states[i].gobs ==> states[i].gobs[g].lock != Some(t)
  {
    RunKeepsInv(states, steps, i);
    assert ThreadOk(states[i], t);
    forall g | g in states[i].gobs ensures states[i].gobs[g].lock != Some(t) {
      assert GobOk(states[i], g);
    }
  }

  /** At most one thread is ever tearing a GOB down, from the DROPPING mark to the free list. */
  lemma OneDropper(states: seq<State>, steps: seq<Step>, i: nat, t: Tid, u: Tid)
    requires IsRun(states, steps) && FreesExclusively(states, steps) && i < |states|
    requires t in states[i].pcs && u in states[i].pcs
    requires states[i].pcs[t].Tearing().Some? && states[i].pcs[t].Tearing() == states[i].pcs[u].Tearing()
    ensures t == u
  {
    RunKeepsInv(states, steps, i);
    assert ThreadOk(states[i], t) && ThreadOk(states[i], u);
  }

  /** The place a reclaim scan will resume from stays on the usage list while it frees a GOB. */
  lemma CursorStaysListed(states: seq<State>, steps: seq<Step>, i: nat, t: Tid)
    requires IsRun(states, steps) && FreesExclusively(states, steps) && i < |states|
    requires t in states[i].pcs
    ensures states[i].pcs[t].Scan? && states[i].pcs[t].cursor.Some? ==> states[i].pcs[t].cursor.value in states[i].lru
    ensures (states[i].pcs[t].Scrub? || states[i].pcs[t].Corpse? || states[i].pcs[t].Bury?) ==>
      KnowsCursor(states[i], states[i].pcs[t].after)
  {
    RunKeepsInv(states, steps, i);
    assert ThreadOk(states[i], t);
  }

  // ---------- when the hash and the usage list agree ----------

  /** The hash and the usage list hold the same GOBs. */
  ghost predicate SameGobs(s: State) {
    forall g :: g in s.lru <==> g in s.hash.Values
  }

  /** Every listed GOB is the one the hash finds under its name. */
  ghost predicate ListInHash(s: State) {
    forall g {:trigger Findable(s, g)} :: g in s.lru ==> Findable(s, g)
  }

  ghost predicate Findable(s: State, g: GobId) {
    g in s.gobs && s.gobs[g].name in s.hash && s.hash[s.gobs[g].name] == g
  }

  lemma SameGobsIs(s: State)
    requires Inv(s)
    ensures SameGobs(s) <==> ListInHash(s)
  {
    if SameGobs(s) {
      forall g | g in s.lru ensures Findable(s, g) {
        assert g in s.hash.Values;
        var n :| n in s.hash && s.hash[n] == g;
      }
    }
    if ListInHash(s) {
      forall g ensures g in s.lru <==> g in s.hash.Values {
        if g in s.lru { assert Findable(s, g); }
      }
    }
  }

  /** A new GOB is filed, or a GOB renamed, under a name the hash already has for another one. */
  predicate Overwrites(s: State, step: Step)
    requires Enabled(s, step)
  {
    || (step.GetAdd? && s.gobs[s.pcs[step.t].g].name in s.hash)
    || (step.Rename? && s.pcs[step.t].name in s.hash && s.hash[s.pcs[step.t].name] != s.pcs[step.t].g)
  }

  /** The only entries a lookup gives up on are being dropped, or pending when it did not ask for pending ones. */
  lemma AbandonedEntries(s: State, step: Step)
    requires Inv(s) && Enabled(s, step) && step.GetAbandon?
    ensures var b := s.gobs[s.pcs[step.t].g]; b.dropping || (b.pending && !s.pcs[step.t].flags.getPending)
  {
    assert ThreadOk(s, step.t) && GobOk(s, s.pcs[step.t].g);
  }

  /** The steps that relink the usage list or the hash. */
  predicate Relinks(step: Step) {
    step.GetTake? || step.GetAdd? || step.Rename? || step.DropUnlink? || step.ReclaimDrop?
  }

  /** Nothing a listed GOB is found by has changed. */
  ghost predicate KeepsFiling(s: State, s': State) {
    && s'.hash == s.hash && s'.lru == s.lru
    && forall g :: g in s.lru && g in s.gobs ==> g in s'.gobs && s'.gobs[g].name == s.gobs[g].name
  }

  lemma LooksKeepFiling(s: State, step: Step)
    requires Enabled(s, step) && !Relinks(step) && Looks(step) && (step.GetNew? ==> step.g !in s.lru)
    ensures KeepsFiling(s, Apply(s, step))
  {
  }

  lemma UsesKeepFiling(s: State, step: Step)
    requires Enabled(s, step) && !Relinks(step) && FreesNothing(step) && !Looks(step)
    ensures KeepsFiling(s, Apply(s, step))
  {
  }

  lemma FreesKeepFiling(s: State, step: Step)
    requires Enabled(s, step) && !Relinks(step) && !FreesNothing(step)
    ensures KeepsFiling(s, Apply(s, step))
  {
  }

  lemma FilingKept(s: State, s': State)
    requires ListInHash(s) && KeepsFiling(s, s')
    ensures ListInHash(s')
  {
    forall g | g in s'.lru ensures Findable(s', g) { assert Findable(s, g); }
  }

  lemma OthersAgree(s: State, step: Step)
    requires Inv(s) && ListInHash(s) && Enabled(s, step) && !Relinks(step)
    ensures ListInHash(Apply(s, step))
  {
    if step.GetNew? && step.g in s.gobs { assert GobOk(s, step.g); }
    if Looks(step) {
      LooksKeepFiling(s, step);
    } else if FreesNothing(step) {
      UsesKeepFiling(s, step);
    } else {
      FreesKeepFiling(s, step);
    }
    FilingKept(s, Apply(s, step));
  }

  lemma TakeAgrees(s: State, step: Step)
    requires Inv(s) && ListInHash(s) && Enabled(s, step) && step.GetTake?
    ensures ListInHash(Apply(s, step))
  {
    var s' := Apply(s, step);
    WithoutProperties(s.lru, s.pcs[step.t].g);
    assert ThreadOk(s, step.t);
    forall g | g in s'.lru ensures Findable(s', g) { assert Findable(s, g); }
  }

  lemma UnlinkAgrees(s: State, step: Step)
    requires Inv(s) && ListInHash(s) && Enabled(s, step) && (step.DropUnlink? || step.ReclaimDrop?)
    ensures ListInHash(Apply(s, step))
  {
    var s', h := Apply(s, step), s.pcs[step.t].g;
    assert ThreadOk(s, step.t) && GobOk(s, h) && Findable(s, h);
    WithoutProperties(s.lru, h);
    forall g | g in s'.lru ensures Findable(s', g) { assert Findable(s, g); }
  }

  lemma AddAgrees(s: State, step: Step)
    requires Inv(s) && ListInHash(s) && Enabled(s, step) && step.GetAdd?
    ensures ListInHash(Apply(s, step)) <==> !Overwrites(s, step)
  {
    var s', h := Apply(s, step), s.pcs[step.t].g;
    assert ThreadOk(s, step.t) && GobOk(s, h);
    if Overwrites(s, step) {
      assert !Findable(s', s.hash[s.gobs[h].name]);
    } else {
      forall g | g in s'.lru ensures Findable(s', g) { if g != h { assert Findable(s, g); } }
    }
  }

  lemma RenameAgrees(s: State, step: Step)
    requires Inv(s) && ListInHash(s) && Enabled(s, step) && step.Rename?
    ensures ListInHash(Apply(s, step)) <==> !Overwrites(s, step)
  {
    var s', h, n := Apply(s, step), s.pcs[step.t].g, s.pcs[step.t].name;
    assert ThreadOk(s, step.t) && GobOk(s, h) && Findable(s, h);
    if Overwrites(s, step) {
      assert !Findable(s', s.hash[n]);
    } else {
      forall g | g in s'.lru ensures Findable(s', g) { if g != h { assert Findable(s, g); } }
    }
  }

  /** From a state where the hash and the list agree, a step keeps them so if and only if it does not overwrite. */
  lemma AgreeExact(s: State, step: Step)
    requires Inv(s) && ListInHash(s) && Enabled(s, step)
    ensures ListInHash(Apply(s, step)) <==> !Overwrites(s, step)
  {
    if !Relinks(step) {
      OthersAgree(s, step);
    } else if step.GetAdd? {
      AddAgrees(s, step);
    } else if step.Rename? {
      RenameAgrees(s, step);
    } else if step.GetTake? {
      TakeAgrees(s, step);
    } else {
      UnlinkAgrees(s, step);
    }
  }

  ghost predicate Files(states: seq<State>, steps: seq<Step>, i: nat)
    requires i < |steps| && |states| == |steps| + 1
  {
    Follows(states, steps, i) && !Overwrites(states[i], steps[i])
  }

  lemma {:induction false} AgreesWhile(states: seq<State>, steps: seq<Step>, i: nat)
    requires IsRun(states, steps) && FreesExclusively(states, steps) && i < |states|
    requires forall k {:trigger Files(states, steps, k)} :: 0 <= k < i ==> Files(states, steps, k)
    ensures ListInHash(states[i])
  {
    if i > 0 {
      AgreesWhile(states, steps, i - 1);
      RunKeepsInv(states, steps, i - 1);
      assert Files(states, steps, i - 1);
      AgreeExact(states[i - 1], steps[i - 1]);
    }
  }

  lemma AgreeingStep(states: seq<State>, steps: seq<Step>, i: nat)
    requires IsRun(states, steps) && FreesExclusively(states, steps) && i < |steps|
    requires SameGobs(states[i]) && SameGobs(states[i + 1])
    ensures Files(states, steps, i)
  {
    RunKeepsInv(states, steps, i);
    RunKeepsInv(states, steps, i + 1);
    SameGobsIs(states[i]);
    SameGobsIs(states[i + 1]);
    assert Follows(states, steps, i);
    AgreeExact(states[i], steps[i]);
  }

  /** Along a run the hash and the usage list hold the same GOBs in every state if and only if no step overwrites. */
  lemma HashEqualsList(states: seq<State>, steps: seq<Step>)
    requires IsRun(states, steps) && FreesExclusively(states, steps)
    ensures (forall i {:trigger SameGobs(states[i])} :: 0 <= i < |states| ==> SameGobs(states[i]))
      <==> (forall i {:trigger Files(states, steps, i)} :: 0 <= i < |steps| ==> Files(states, steps, i))
  {
    if forall i {:trigger Files(states, steps, i)} :: 0 <= i < |steps| ==> Files(states, steps, i) {
      forall i | 0 <= i < |states| ensures SameGobs(states[i]) {
        AgreesWhile(states, steps, i);
        RunKeepsInv(states, steps, i);
        SameGobsIs(states[i]);
      }
    }
    if forall i {:trigger SameGobs(states[i])} :: 0 <= i < |states| ==> SameGobs(states[i]) {
      forall i | 0 <= i < |steps| ensures Files(states, steps, i) {
        assert SameGobs(states[i]) && SameGobs(states[i + 1]);
        AgreeingStep(states, steps, i);
      }
    }
  }

  // ---------- where overwriting comes from ----------

  /** A thread that is about to create a GOB has a name the hash does not have. */
  predicate NameFree(s: State, t: Tid)
    requires t in s.pcs
  {
    s.pcs[t].MustCreate? || s.pcs[t].AddNew? ==> s.pcs[t].name !in s.hash
  }

  /** A creating lookup gives up on the entry it found. */
  predicate GivesUp(s: State, step: Step)
    requires Enabled(s, step)
  {
    step.GetAbandon? && s.pcs[step.t].flags.create
  }

  /** At most thread `t` is somewhere else. */
  ghost predicate OnlyMoves(s: State, s': State, t: Tid) {
    s'.pcs == s.pcs || (t in s.pcs && t in s'.pcs && s'.pcs == s.pcs[t := s'.pcs[t]])
  }

  lemma LookMovesOne(s: State, step: Step)
    requires Enabled(s, step) && Looks(step)
    ensures OnlyMoves(s, Apply(s, step), step.t)
  {
  }

  lemma UseMovesOne(s: State, step: Step)
    requires Enabled(s, step) && FreesNothing(step) && !Looks(step) && !step.Tick?
    ensures OnlyMoves(s, Apply(s, step), step.t)
  {
  }

  lemma FreeMovesOne(s: State, step: Step)
    requires Enabled(s, step) && !FreesNothing(step)
    ensures OnlyMoves(s, Apply(s, step), step.t)
  {
    var s' := Apply(s, step);
    assert step.t in s'.pcs && s'.pcs == s.pcs[step.t := s'.pcs[step.t]];
  }

  /** A step of another thread leaves a thread where it is, and threads neither come nor go. */
  lemma OthersStand(s: State, step: Step, u: Tid)
    requires Enabled(s, step)
    ensures u in Apply(s, step).pcs <==> u in s.pcs
    ensures u in s.pcs && (step.Tick? || step.t != u) ==> Apply(s, step).pcs[u] == s.pcs[u]
  {
    if !step.Tick? {
      if Looks(step) {
        LookMovesOne(s, step);
      } else if FreesNothing(step) {
        UseMovesOne(s, step);
      } else {
        FreeMovesOne(s, step);
      }
    }
  }

  /** While a thread has the cache mutex, no other changes the hash. */
  lemma HashIsMine(s: State, step: Step, t: Tid)
    requires Inv(s) && Enabled(s, step) && s.cacheLock == Some(t) && (step.Tick? || step.t != t)
    ensures Apply(s, step).hash == s.hash
  {
    if !step.Tick? { assert ThreadOk(s, step.t); }
  }

  /** A lookup comes to create under a name that is taken exactly by giving up on the entry there. */
  lemma OwnName(s: State, step: Step)
    requires Inv(s) && Enabled(s, step) && Looks(step) && step.t in Apply(s, step).pcs && NameFree(s, step.t)
    ensures NameFree(Apply(s, step), step.t) <==> !GivesUp(s, step)
  {
    assert ThreadOk(s, step.t);
  }

  /** Clients do not create, */
  lemma UseCreatesNothing(s: State, step: Step)
    requires Enabled(s, step) && FreesNothing(step) && !Looks(step) && !step.Tick? && step.t in Apply(s, step).pcs
    ensures NameFree(Apply(s, step), step.t)
  {
  }

  /** nor do threads that free. */
  lemma FreeCreatesNothing(s: State, step: Step)
    requires Enabled(s, step) && !FreesNothing(step) && step.t in Apply(s, step).pcs
    ensures NameFree(Apply(s, step), step.t)
  {
  }

  /** Whatever the threads do, a creating thread finds its name free, unless it gave up on an entry. */
  lemma NameFreeExact(s: State, step: Step, t: Tid)
    requires Inv(s) && Enabled(s, step) && t in s.pcs && t in Apply(s, step).pcs && NameFree(s, t)
    ensures NameFree(Apply(s, step), t) <==> !(GivesUp(s, step) && step.t == t)
  {
    if step.Tick? || step.t != t {
      OthersStand(s, step, t);
      assert ThreadOk(s, t);
      if s.cacheLock == Some(t) { HashIsMine(s, step, t); }
    } else if Looks(step) {
      OwnName(s, step);
    } else if FreesNothing(step) {
      UseCreatesNothing(s, step);
    } else {
      FreeCreatesNothing(s, step);
    }
  }

  /** The step neither gives up on an entry to create another, nor takes the name of another GOB. */
  ghost predicate Considerate(states: seq<State>, steps: seq<Step>, i: nat)
    requires i < |steps| && |states| == |steps| + 1
  {
    && Follows(states, steps, i) && !GivesUp(states[i], steps[i])
    && (steps[i].Rename? ==> !Overwrites(states[i], steps[i]))
  }

  /** A thread about to create under a name that is taken gave up on an entry before. */
  lemma {:induction false} GaveUp(states: seq<State>, steps: seq<Step>, i: nat, t: Tid) returns (k: nat)
    requires IsRun(states, steps) && FreesExclusively(states, steps) && i < |states|
    requires t in states[i].pcs && !NameFree(states[i], t)
    ensures k < i && Follows(states, steps, k) && GivesUp(states[k], steps[k]) && steps[k].t == t
  {
    if i > 0 {
      StillThere(states, steps, i - 1, t);
      if NameFree(states[i - 1], t) {
        GivesUpNow(states, steps, i - 1, t);
        k := i - 1;
      } else {
        k := GaveUp(states, steps, i - 1, t);
      }
    }
  }

  lemma StillThere(states: seq<State>, steps: seq<Step>, i: nat, t: Tid)
    requires IsRun(states, steps) && i < |steps|
    ensures Follows(states, steps, i) && (t in states[i].pcs <==> t in states[i + 1].pcs)
  {
    assert Follows(states, steps, i);
    OthersStand(states[i], steps[i], t);
  }

  lemma GivesUpNow(states: seq<State>, steps: seq<Step>, i: nat, t: Tid)
    requires IsRun(states, steps) && FreesExclusively(states, steps) && i < |steps| && Follows(states, steps, i)
    requires t in states[i].pcs && t in states[i + 1].pcs && NameFree(states[i], t) && !NameFree(states[i + 1], t)
    ensures GivesUp(states[i], steps[i]) && steps[i].t == t
  {
    RunKeepsInv(states, steps, i);
    NameFreeExact(states[i], steps[i], t);
  }

  /** A creation that overwrites comes after its thread gave up on an entry. */
  lemma OverwriteNeedsGivingUp(states: seq<State>, steps: seq<Step>, i: nat) returns (k: nat)
    requires IsRun(states, steps) && FreesExclusively(states, steps) && i < |steps|
    requires Follows(states, steps, i) && steps[i].GetAdd? && Overwrites(states[i], steps[i])
    ensures k < i && Follows(states, steps, k) && GivesUp(states[k], steps[k]) && steps[k].t == steps[i].t
    ensures !Considerate(states, steps, k)
  {
    RunKeepsInv(states, steps, i);
    assert ThreadOk(states[i], steps[i].t);
    k := GaveUp(states, steps, i, steps[i].t);
  }

  /** Where no creating lookup gives up and no GOB takes another's name, the hash and the list agree throughout. */
  lemma ConsiderateRunsAgree(states: seq<State>, steps: seq<Step>)
    requires IsRun(states, steps) && FreesExclusively(states, steps)
    requires forall i {:trigger Considerate(states, steps, i)} :: 0 <= i < |steps| ==> Considerate(states, steps, i)
    ensures forall i {:trigger SameGobs(states[i])} :: 0 <= i < |states| ==> SameGobs(states[i])
  {
    forall i | 0 <= i < |steps| ensures Files(states, steps, i) {
      assert Considerate(states, steps, i);
      if Overwrites(states[i], steps[i]) {
        var k := OverwriteNeedsGivingUp(states, steps, i);
        assert false;
      }
    }
    HashEqualsList(states, steps);
  }

  // ---------- the two assumptions are needed ----------

  /** Forcing a free is harmless exactly when the forcing thread's reference is the only one. */
  lemma ForceFreeExact(s: State, step: Step)
    requires Inv(s) && Enabled(s, step) && step.ForceFree?
    ensures var s' := Apply(s, step);
      (forall r :: r in s'.refs ==> s'.refs[r] in s'.gobs && !s'.gobs[s'.refs[r]].dropping) <==> Exclusive(s, step)
  {
    var s', g := Apply(s, step), s.pcs[step.t].g;
    assert ThreadOk(s, step.t) && GobOk(s, g);
    DropRef(s.refs, step.r);
    if Exclusive(s, step) {
      StepKeepsInv(s, step);
      forall r | r in s'.refs ensures !s'.gobs[s'.refs[r]].dropping {
        RefCounted(s'.refs, r);
        assert GobOk(s', s'.refs[r]);
      }
    } else {
      var r :| r in RefsTo(s'.refs, g);
      assert s'.refs[r] == g;
    }
  }

  lemma Extend(states: seq<State>, steps: seq<Step>, step: Step) returns (states': seq<State>, steps': seq<Step>)
    requires IsRun(states, steps) && Enabled(states[|states| - 1], step)
    ensures IsRun(states', steps') && states'[|states'| - 1] == Apply(states[|states| - 1], step)
  {
    states', steps' := states + [Apply(states[|steps|], step)], steps + [step];
    forall i | 0 <= i < |steps'| ensures Follows(states', steps', i) {
      if i < |steps| { assert Follows(states, steps, i); }
    }
  }

  const START := State(map[], map[], [], [], None, map[0 := Idle, 1 := Idle], map[], 0)

  lemma NewGobRun() returns (states: seq<State>, steps: seq<Step>)
    ensures IsRun(states, steps)
    ensures states[|states| - 1] == State(
              map[0 := Gob(true, false, false, true, false, 1, 7, 0, Some(0), None, 1, 0)],
              map[], [], [], Some(0), map[0 := AddNew(7, 0), 1 := Idle], map[0 := 0], 0)
  {
    states, steps := [START], [];
    states, steps := Extend(states, steps, GetBegin(0, 7, GetFlags(true, false, false)));
    states, steps := Extend(states, steps, GetSearch(0));
    states, steps := Extend(states, steps, GetNew(0, 0, 0));
  }

  /** Thread 0 creates GOB 0 under the name 7, which stays pending, and lets go of its lock. */
  lemma PendingRun() returns (states: seq<State>, steps: seq<Step>)
    ensures IsRun(states, steps)
    ensures states[|states| - 1] == State(
              map[0 := Gob(true, true, false, true, false, 1, 7, 0, None, None, 1, 0)],
              map[7 := 0], [0], [], None, map[0 := Idle, 1 := Idle], map[0 := 0], 0)
  {
    states, steps := NewGobRun();
    states, steps := Extend(states, steps, GetAdd(0));
    states, steps := Extend(states, steps, GetReturn(0));
    states, steps := Extend(states, steps, Unlock(0));
  }

  /** A creating lookup that meets a pending entry leaves a listed GOB the hash cannot find. */
  lemma LostEntryRun() returns (states: seq<State>, steps: seq<Step>)
    ensures IsRun(states, steps) && 0 in states[|states| - 1].lru && 0 !in states[|states| - 1].hash.Values
  {
    states, steps := PendingRun();
    states, steps := Extend(states, steps, GetBegin(1, 7, GetFlags(true, false, false)));
    states, steps := Extend(states, steps, GetSearch(1));
    states, steps := Extend(states, steps, GetLock(1));
    states, steps := Extend(states, steps, GetAbandon(1));
    states, steps := Extend(states, steps, GetNew(1, 1, 1));
    states, steps := Extend(states, steps, GetAdd(1));
  }

  /** Thread 1 finds the pending GOB and takes its lock. */
  lemma FoundPendingRun() returns (states: seq<State>, steps: seq<Step>)
    ensures IsRun(states, steps)
    ensures states[|states| - 1] == State(
              map[0 := Gob(true, true, false, true, false, 1, 7, 0, Some(1), None, 1, 0)],
              map[7 := 0], [0], [], Some(1), map[0 := Idle, 1 := Check(7, GetFlags(false, true, false), 0)],
              map[0 := 0], 0)
  {
    states, steps := PendingRun();
    states, steps := Extend(states, steps, GetBegin(1, 7, GetFlags(false, true, false)));
    states, steps := Extend(states, steps, GetSearch(1));
    states, steps := Extend(states, steps, GetLock(1));
  }

  lemma SharedPendingRun() returns (states: seq<State>, steps: seq<Step>)
    ensures IsRun(states, steps)
    ensures states[|states| - 1] == State(
              map[0 := Gob(true, true, false, true, false, 2, 7, 0, Some(1), None, 1, 0)],
              map[7 := 0], [0], [], None, map[0 := Idle, 1 := Using(0)], map[0 := 0, 1 := 0], 0)
  {
    states, steps := FoundPendingRun();
    states, steps := Extend(states, steps, GetTake(1, 1));
    states, steps := Extend(states, steps, GetReturn(1));
  }

  /** An open that fails after somebody looked up the pending GOB leaves that reference pointing at a dropped GOB. */
  lemma StaleReferenceRun() returns (states: seq<State>, steps: seq<Step>)
    ensures IsRun(states, steps)
    ensures var s := states[|states| - 1]; 1 in s.refs && s.refs[1] in s.gobs && s.gobs[s.refs[1]].dropping
  {
    states, steps := SharedPendingRun();
    states, steps := Extend(states, steps, Unlock(1));
    states, steps := Extend(states, steps, Relock(0, 0));
    states, steps := Extend(states, steps, ForceFree(0, 0));
  }
}
