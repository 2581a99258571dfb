/**
 * Lock order in the GOB protocol.  The cache mutex is taken before a GOB's lock, which is
 * why the release path gives its lock up first; only a renaming takes the cache mutex with
 * its GOB locked.  Threads wait for one another for ever exactly when a renaming meets a
 * thread that has the cache mutex and wants the same GOB.
 */
module GobProgress {
  import opened Collections
  import opened GobProtocol
  import opened GobSafety

  // ---------- who can move ----------

  ghost predicate CanMove(s: State, t: Tid) {
    exists step {:trigger Enabled(s, step)} :: Enabled(s, step) && !step.Tick? && step.t == t
  }

  /** The thread's next step needs the cache mutex. */
  predicate WantsCache(pc: Pc) {
    pc.Renaming? || pc.DropLockCache?
  }

  /** The thread's next step needs the lock of the GOB `pc.g`. */
  predicate WantsGob(pc: Pc) {
    pc.LockFound? || pc.DropLockGob?
  }

  /** The thread that has what thread `t` needs. */
  function WaitsFor(s: State, t: Tid): Option<Tid>
    requires t in s.pcs
  {
    var pc := s.pcs[t];
    if WantsCache(pc) then s.cacheLock
    else if WantsGob(pc) && pc.g in s.gobs then s.gobs[pc.g].lock
    else None
  }

  /** The step a busy thread takes next; `n` is a number not yet used for a GOB or a reference. */
  function NextStep(s: State, t: Tid, n: nat): Step
    requires t in s.pcs
  {
    var pc := s.pcs[t];
    match pc
    case Idle => Tick(s.now)
    case Search(_, _) => GetSearch(t)
    case LockFound(_, _, _) => GetLock(t)
    case Check(_, flags, g) => if g in s.gobs && Usable(s.gobs[g], flags) then GetTake(t, n) else GetAbandon(t)
    case MustCreate(_) => GetNew(t, if s.free == [] then n else s.free[0], n)
    case AddNew(_, _) => GetAdd(t)
    case GetDone(_, _) => GetReturn(t)
    case Using(_) => Unlock(t)
    case Renaming(_, _) => Rename(t)
    case FreeBegin(_) => DropUnlock(t)
    case DropLockCache(_) => DropTakeCache(t)
    case DropLockGob(_) => DropTakeGob(t)
    case DropRemove(_) => DropUnlink(t)
    case DropDone(_) => DropReturn(t)
    case Scrub(_, _) => ScrubUnlock(t)
    case Corpse(_, _) => ClearFlags(t)
    case Bury(_, _) => PushFree(t)
    case Scan(cursor, _) =>
      if cursor.None? then ReclaimEnd(t)
      else if cursor.value in s.gobs && s.gobs[cursor.value].lock.None? then ReclaimTry(t) else ReclaimBusy(t)
    case Visit(g, mintime) =>
      if g in s.gobs && Reclaimable(s.gobs[g], mintime) then ReclaimDrop(t) else ReclaimKeep(t)
  }

  lemma {:induction false} Unused(ids: set<nat>) returns (n: nat)
    ensures forall i :: i in ids ==> i < n
  {
    n := 0;
    if ids != {} {
      var i :| i in ids;
      var m := Unused(ids - {i});
      n := if i < m then m else i + 1;
      forall j | j in ids ensures j < n { if j != i { assert j in ids - {i}; } }
    }
  }

  lemma NextStepEnabled(s: State, t: Tid, n: nat)
    requires Inv(s) && t in s.pcs && !s.pcs[t].Idle? && n !in s.refs && n !in s.gobs
    requires WaitsFor(s, t).None?
    ensures var step := NextStep(s, t, n); Enabled(s, step) && !step.Tick? && step.t == t
  {
    assert ThreadOk(s, t);
  }

  lemma BlockedCannotMove(s: State, t: Tid, step: Step)
    requires t in s.pcs && WaitsFor(s, t).Some? && Enabled(s, step) && !step.Tick?
    ensures step.t != t
  {
  }

  /** A busy thread can move if and only if nobody has what it needs. */
  lemma MovesUnlessWaiting(s: State, t: Tid)
    requires Inv(s) && t in s.pcs && !s.pcs[t].Idle?
    ensures CanMove(s, t) <==> WaitsFor(s, t).None?
  {
    if WaitsFor(s, t).None? {
      var n := Unused(s.refs.Keys + s.gobs.Keys);
      NextStepEnabled(s, t, n);
    } else {
      forall step | Enabled(s, step) && !step.Tick? ensures step.t != t { BlockedCannotMove(s, t, step); }
    }
  }

  // ---------- deadlock ----------

  /** Thread `c` has the cache mutex and wants a GOB; thread `u` has that GOB and wants the cache mutex. */
  predicate Cycle(s: State, c: Tid, u: Tid) {
    && s.cacheLock == Some(c) && c in s.pcs && u in s.pcs
    && WantsGob(s.pcs[c]) && s.pcs[c].g in s.gobs && s.gobs[s.pcs[c].g].lock == Some(u)
    && s.pcs[u].Renaming?
  }

  ghost predicate Deadlocked(s: State) {
    exists c, u :: Cycle(s, c, u)
  }

  /**
   * Whom a thread waits for is itself busy; and its wait is at most for the owner of the cache
   * mutex, and then for one more.
   */
  lemma Chain(s: State, t: Tid)
    requires Inv(s) && t in s.pcs && WaitsFor(s, t).Some?
    ensures var u := WaitsFor(s, t).value;
      && u in s.pcs && !s.pcs[u].Idle?
      && (WantsCache(s.pcs[t]) ==> s.cacheLock == Some(u))
      && (WantsGob(s.pcs[t]) ==> s.cacheLock == Some(t) && (WaitsFor(s, u).Some? ==> Cycle(s, t, u)))
  {
    assert ThreadOk(s, t);
    var u := WaitsFor(s, t).value;
    if WantsGob(s.pcs[t]) { assert GobOk(s, s.pcs[t].g); }
    assert ThreadOk(s, u);
  }

  /** The last thread of the chain that starts with `t`. */
  function Root(s: State, t: Tid): Tid
    requires t in s.pcs
  {
    match WaitsFor(s, t)
    case None => t
    case Some(u) =>
      if u !in s.pcs then t else
      match WaitsFor(s, u)
      case None => u
      case Some(v) => v
  }

  lemma RootMoves(s: State, t: Tid)
    requires Inv(s) && t in s.pcs && !s.pcs[t].Idle? && !Deadlocked(s)
    ensures CanMove(s, Root(s, t))
  {
    MovesUnlessWaiting(s, t);
    if WaitsFor(s, t).Some? {
      Chain(s, t);
      var u := WaitsFor(s, t).value;
      MovesUnlessWaiting(s, u);
      assert ThreadOk(s, u);
      if WaitsFor(s, u).Some? {
        Chain(s, u);
        MovesUnlessWaiting(s, WaitsFor(s, u).value);
      }
    }
  }

  lemma CycleHoldsUp(s: State, t: Tid, c: Tid, u: Tid)
    requires Inv(s) && t in s.pcs && WaitsFor(s, t).Some? && Cycle(s, c, u)
    ensures !CanMove(s, Root(s, t))
  {
    Chain(s, t);
    assert Root(s, t) == c || Root(s, t) == u;
    MovesUnlessWaiting(s, c);
    MovesUnlessWaiting(s, u);
  }

  /**
   * Every busy thread either moves, or waits for one that moves, or for one that waits for
   * one that moves: if and only if it does not wait while there is a cycle.
   */
  lemma ProgressExact(s: State, t: Tid)
    requires Inv(s) && t in s.pcs && !s.pcs[t].Idle?
    ensures CanMove(s, Root(s, t)) <==> !(WaitsFor(s, t).Some? && Deadlocked(s))
  {
    if !Deadlocked(s) {
      RootMoves(s, t);
    } else if WaitsFor(s, t).Some? {
      var c, u :| Cycle(s, c, u);
      CycleHoldsUp(s, t, c, u);
    } else {
      MovesUnlessWaiting(s, t);
    }
  }

  /** A step of another thread takes no lock from a thread that has it. */
  lemma OthersKeepLocks(s: State, step: Step, c: Tid, u: Tid, g: GobId)
    requires Enabled(s, step) && Inv(s) && s.cacheLock == Some(c) && g in s.gobs && s.gobs[g].lock == Some(u)
    requires !step.Tick? ==> step.t != c && step.t != u
    ensures var s' := Apply(s, step); s'.cacheLock == Some(c) && g in s'.gobs && s'.gobs[g].lock == Some(u)
  {
    if !step.Tick? { assert ThreadOk(s, step.t); }
    assert GobOk(s, g);
  }

  /** A cycle is for good: neither of its threads ever moves, whatever the others do. */
  lemma CycleStays(s: State, step: Step, c: Tid, u: Tid)
    requires Enabled(s, step) && Cycle(s, c, u) && Inv(s)
    ensures Cycle(Apply(s, step), c, u) && Apply(s, step).pcs[c] == s.pcs[c] && Apply(s, step).pcs[u] == s.pcs[u]
  {
    if !step.Tick? {
      BlockedCannotMove(s, c, step);
      BlockedCannotMove(s, u, step);
    }
    OthersStand(s, step, c);
    OthersStand(s, step, u);
    OthersKeepLocks(s, step, c, u, s.pcs[c].g);
  }

  /** From a cycle on, the two threads stand where they are in every later state of a run. */
  lemma {:induction false} CycleForever(states: seq<State>, steps: seq<Step>, i: nat, k: nat, c: Tid, u: Tid)
    requires IsRun(states, steps) && FreesExclusively(states, steps) && i <= k < |states| && Cycle(states[i], c, u)
    ensures Cycle(states[k], c, u) && states[k].pcs[c] == states[i].pcs[c] && states[k].pcs[u] == states[i].pcs[u]
    decreases k
  {
    if i < k {
      CycleForever(states, steps, i, k - 1, c, u);
      RunKeepsInv(states, steps, k - 1);
      assert Follows(states, steps, k - 1);
      CycleStays(states[k - 1], steps[k - 1], c, u);
    }
  }

  ghost predicate NobodyRenames(s: State) {
    forall t {:trigger s.pcs[t]} :: t in s.pcs ==> !s.pcs[t].Renaming?
  }

  /** A run in which no GOB is renamed never deadlocks: every busy thread moves or waits for one that does. */
  lemma {:induction false} NoRenamingNoDeadlock(states: seq<State>, steps: seq<Step>, i: nat)
    requires IsRun(states, steps) && i < |states|
    requires forall k {:trigger steps[k]} :: 0 <= k < i ==> !steps[k].ChangeName?
    ensures NobodyRenames(states[i]) && !Deadlocked(states[i])
  {
    if i > 0 {
      NoRenamingNoDeadlock(states, steps, i - 1);
      assert Follows(states, steps, i - 1) && !steps[i - 1].ChangeName?;
      NobodyStarts(states[i - 1], steps[i - 1]);
    }
  }

  lemma NobodyStarts(s: State, step: Step)
    requires Enabled(s, step) && NobodyRenames(s) && !step.ChangeName?
    ensures NobodyRenames(Apply(s, step))
  {
    if Looks(step) {
      NobodyStartsLooking(s, step);
    } else if FreesNothing(step) {
      NobodyStartsUsing(s, step);
    } else {
      NobodyStartsFreeing(s, step);
    }
  }

  lemma NobodyStartsLooking(s: State, step: Step)
    requires Enabled(s, step) && NobodyRenames(s) && Looks(step)
    ensures NobodyRenames(Apply(s, step))
  {
  }

  lemma NobodyStartsUsing(s: State, step: Step)
    requires Enabled(s, step) && NobodyRenames(s) && !step.ChangeName? && FreesNothing(step) && !Looks(step)
    ensures NobodyRenames(Apply(s, step))
  {
  }

  lemma NobodyStartsFreeing(s: State, step: Step)
    requires Enabled(s, step) && NobodyRenames(s) && !FreesNothing(step)
    ensures NobodyRenames(Apply(s, step))
  {
  }

  /** Thread 0 renames the GOB it has just opened while thread 1, with the cache mutex, waits for it. */
  lemma DeadlockRun() returns (states: seq<State>, steps: seq<Step>)
    ensures IsRun(states, steps) && Cycle(states[|states| - 1], 1, 0)
  {
    states, steps := NewGobRun();
    states, steps := Extend(states, steps, GetAdd(0));
    states, steps := Extend(states, steps, GetReturn(0));
    states, steps := Extend(states, steps, GetBegin(1, 7, GetFlags(false, true, false)));
    states, steps := Extend(states, steps, GetSearch(1));
    states, steps := Extend(states, steps, ChangeName(0, 8));
  }
}
