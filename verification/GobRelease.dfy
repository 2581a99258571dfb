/**
 * When a GOB goes: what a release, a forced free and a reclaim scan each do to it, and that
 * nothing else tears a GOB down; what a lookup accepts; and that a scan looks at every entry.
 */
module GobRelease {
  import opened Collections
  import opened GobProtocol
  import opened GobSafety

  // ---------- the last reference ----------

  lemma RefGone(refs: map<RefId, GobId>, r: RefId)
    requires r in refs
    ensures RefsTo(refs - {r}, refs[r]) == RefsTo(refs, refs[r]) - {r}
    ensures |RefsTo(refs, refs[r])| == 1 <==> RefsTo(refs - {r}, refs[r]) == {}
  {
    DropRef(refs, r);
  }

  /**
   * A release tears its GOB down if and only if it was the only reference and the GOB is not
   * to be kept; otherwise the GOB stays where it is, unlocked, and the thread is done.
   */
  lemma DecrefExact(s: State, step: Step)
    requires Inv(s) && Enabled(s, step) && step.Decref?
    ensures var s', t, g := Apply(s, step), step.t, s.pcs[step.t].g;
      && g in s'.gobs && t in s'.pcs && s'.hash == s.hash && s'.lru == s.lru
      && RefsTo(s'.refs, g) == RefsTo(s.refs, g) - {step.r}
      && (s'.gobs[g].dropping && s'.gobs[g].dropper == Some(t) <==>
            |RefsTo(s.refs, g)| == 1 && !s.gobs[g].deferFree)
      && (s'.gobs[g].dropping ==> s'.pcs[t] == FreeBegin(g) && s'.gobs[g].lock == Some(t))
      && (!s'.gobs[g].dropping ==> s'.pcs[t].Idle? && s'.gobs[g].lock.None?)
  {
    assert ThreadOk(s, step.t) && GobOk(s, s.pcs[step.t].g);
    RefGone(s.refs, step.r);
    DropRef(s.refs, step.r);
  }

  // ---------- nothing else tears a GOB down ----------

  /** The GOB was not being torn down before, and is now. */
  predicate Drops(s: State, s': State, g: GobId) {
    g in s.gobs && !s.gobs[g].dropping && g in s'.gobs && s'.gobs[g].dropping
  }

  /** A thread gives back the only reference to a GOB that is not to be kept. */
  ghost predicate LastRelease(s: State, step: Step, g: GobId) {
    && step.Decref? && step.t in s.pcs && s.pcs[step.t] == Using(g)
    && g in s.gobs && !s.gobs[g].deferFree && |RefsTo(s.refs, g)| == 1
  }

  /** An open that failed discards the pending GOB it made. */
  ghost predicate Forced(s: State, step: Step, g: GobId) {
    step.ForceFree? && step.t in s.pcs && s.pcs[step.t] == Using(g) && g in s.gobs && s.gobs[g].pending
  }

  /** A scan takes a GOB last used by its time limit to which no reference leads. */
  ghost predicate Taken(s: State, step: Step, g: GobId) {
    && step.ReclaimDrop? && step.t in s.pcs && s.pcs[step.t].Visit? && s.pcs[step.t].g == g
    && g in s.gobs && s.gobs[g].utime <= s.pcs[step.t].mintime && RefsTo(s.refs, g) == {}
  }

  lemma LooksDropNothing(s: State, step: Step, g: GobId)
    requires Enabled(s, step) && Looks(step)
    ensures !Drops(s, Apply(s, step), g)
  {
  }

  lemma UsesDropNothing(s: State, step: Step, g: GobId)
    requires Enabled(s, step) && FreesNothing(step) && !Looks(step)
    ensures !Drops(s, Apply(s, step), g)
  {
  }

  lemma TearingDropsNothing(s: State, step: Step, g: GobId)
    requires Enabled(s, step) && !FreesNothing(step) && !step.Decref? && !step.ForceFree? && !step.ReclaimDrop?
    ensures !Drops(s, Apply(s, step), g)
  {
  }

  lemma ReleaseDrops(s: State, step: Step, g: GobId)
    requires Inv(s) && Enabled(s, step) && step.Decref?
    ensures Drops(s, Apply(s, step), g) <==> LastRelease(s, step, g)
  {
    assert ThreadOk(s, step.t);
    DecrefExact(s, step);
  }

  lemma ForceDrops(s: State, step: Step, g: GobId)
    requires Inv(s) && Enabled(s, step) && step.ForceFree?
    ensures Drops(s, Apply(s, step), g) <==> Forced(s, step, g)
  {
    assert ThreadOk(s, step.t);
  }

  lemma ScanDrops(s: State, step: Step, g: GobId)
    requires Inv(s) && Enabled(s, step) && step.ReclaimDrop?
    ensures Drops(s, Apply(s, step), g) <==> Taken(s, step, g)
  {
    assert ThreadOk(s, step.t) && GobOk(s, s.pcs[step.t].g);
  }

  /** A GOB comes to be torn down exactly by the release of its last reference, a forced free, or a scan. */
  lemma DropsExact(s: State, step: Step, g: GobId)
    requires Inv(s) && Enabled(s, step)
    ensures Drops(s, Apply(s, step), g) <==> LastRelease(s, step, g) || Forced(s, step, g) || Taken(s, step, g)
  {
    if Looks(step) {
      LooksDropNothing(s, step, g);
    } else if FreesNothing(step) {
      UsesDropNothing(s, step, g);
    } else if step.Decref? {
      ReleaseDrops(s, step, g);
    } else if step.ForceFree? {
      ForceDrops(s, step, g);
    } else if step.ReclaimDrop? {
      ScanDrops(s, step, g);
    } else {
      TearingDropsNothing(s, step, g);
    }
  }

  /** In a run a GOB that is to be kept goes only by a forced free or a scan. */
  lemma KeptUntilReclaimed(states: seq<State>, steps: seq<Step>, i: nat, g: GobId)
    requires IsRun(states, steps) && FreesExclusively(states, steps) && i < |steps|
    requires Drops(states[i], states[i + 1], g)
    ensures LastRelease(states[i], steps[i], g) || Forced(states[i], steps[i], g) || Taken(states[i], steps[i], g)
    ensures states[i].gobs[g].deferFree ==> Forced(states[i], steps[i], g) || Taken(states[i], steps[i], g)
  {
    RunKeepsInv(states, steps, i);
    assert Follows(states, steps, i);
    DropsExact(states[i], steps[i], g);
  }

  /** Whether a GOB is to be kept has changed. */
  predicate Remarked(s: State, s': State, g: GobId) {
    g in s.gobs && g in s'.gobs && s'.gobs[g].deferFree != s.gobs[g].deferFree
  }

  lemma LooksRemark(s: State, step: Step, g: GobId)
    requires Enabled(s, step) && Looks(step) && Remarked(s, Apply(s, step), g)
    ensures step.GetNew? && step.g == g && !Apply(s, step).gobs[g].deferFree
  {
  }

  lemma UsesRemark(s: State, step: Step, g: GobId)
    requires Enabled(s, step) && FreesNothing(step) && !Looks(step) && Remarked(s, Apply(s, step), g)
    ensures step.Mark? && s.pcs[step.t] == Using(g) && Apply(s, step).gobs[g].deferFree == step.deferFree
  {
  }

  lemma FreesRemark(s: State, step: Step, g: GobId)
    requires Enabled(s, step) && !FreesNothing(step) && Remarked(s, Apply(s, step), g)
    ensures step.ClearFlags? && s.pcs[step.t].g == g && !Apply(s, step).gobs[g].deferFree
  {
  }

  /** Whether a GOB is to be kept is what a client said last; a new record, or a freed one, is not. */
  lemma KeptAsMarked(s: State, step: Step, g: GobId)
    requires Enabled(s, step) && Remarked(s, Apply(s, step), g)
    ensures !step.Tick? && step.t in s.pcs
    ensures if step.Mark? then s.pcs[step.t] == Using(g) && Apply(s, step).gobs[g].deferFree == step.deferFree
            else (step.GetNew? || step.ClearFlags?) && !Apply(s, step).gobs[g].deferFree
  {
    if Looks(step) {
      LooksRemark(s, step, g);
    } else if FreesNothing(step) {
      UsesRemark(s, step, g);
    } else {
      FreesRemark(s, step, g);
    }
  }

  lemma MarkExact(s: State, step: Step)
    requires Inv(s) && Enabled(s, step) && step.Mark?
    ensures var b, b' := s.gobs[s.pcs[step.t].g], Apply(s, step).gobs[s.pcs[step.t].g];
            b' == b.(pending := b'.pending, deferFree := b'.deferFree) &&
            (b'.pending <==> step.pending) && (b'.deferFree <==> step.deferFree)
  {
  }

  // ---------- what a scan judges ----------

  /** A scan leaves a GOB alone exactly when that was used after its time limit, is being dropped, or is referred to. */
  lemma ScanJudges(states: seq<State>, steps: seq<Step>, i: nat)
    requires IsRun(states, steps) && FreesExclusively(states, steps) && i < |steps|
    requires steps[i].ReclaimDrop? || steps[i].ReclaimKeep?
    ensures steps[i].t in states[i].pcs && states[i].pcs[steps[i].t].Visit?
    ensures var s, s', pc := states[i], states[i + 1], states[i].pcs[steps[i].t];
      && pc.g in s.gobs && pc.g in s.lru && pc.g in s'.gobs
      && (steps[i].ReclaimKeep? <==>
            s.gobs[pc.g].utime > pc.mintime || s.gobs[pc.g].dropping || RefsTo(s.refs, pc.g) != {})
      && (steps[i].ReclaimKeep? ==> s'.lru == s.lru && s'.hash == s.hash && s'.gobs[pc.g].lock.None?)
      && (steps[i].ReclaimDrop? ==> pc.g !in s'.lru && pc.g !in s'.hash.Values)
  {
    RunKeepsInv(states, steps, i);
    RunKeepsInv(states, steps, i + 1);
    assert Follows(states, steps, i);
    var s, g := states[i], states[i].pcs[steps[i].t].g;
    assert ThreadOk(s, steps[i].t) && GobOk(s, g);
    if steps[i].ReclaimDrop? { assert GobOk(states[i + 1], g); }
  }

  /** A scan passes over an entry exactly when its lock is taken, and else takes the lock. */
  lemma ScanTries(s: State, t: Tid)
    requires Inv(s) && t in s.pcs && s.pcs[t].Scan? && s.pcs[t].cursor.Some?
    ensures s.pcs[t].cursor.value in s.gobs
    ensures Enabled(s, ReclaimBusy(t)) <==> s.gobs[s.pcs[t].cursor.value].lock.Some?
    ensures Enabled(s, ReclaimTry(t)) <==> s.gobs[s.pcs[t].cursor.value].lock.None?
  {
    assert ThreadOk(s, t);
  }

  /** What a thread's scan has still to look at. */
  ghost function Todo(s: State, t: Tid): seq<GobId>
    requires t in s.pcs
  {
    match s.pcs[t]
    case Scan(cursor, _) => From(s.lru, cursor)
    case Visit(g, _) => From(s.lru, Some(g))
    case Scrub(_, after) => Ahead(s.lru, after)
    case Corpse(_, after) => Ahead(s.lru, after)
    case Bury(_, after) => Ahead(s.lru, after)
    case _ => []
  }

  function From(lru: seq<GobId>, cursor: Option<GobId>): seq<GobId> {
    if cursor.Some? && cursor.value in lru then lru[IndexOf(lru, cursor.value)..] else []
  }

  function Ahead(lru: seq<GobId>, after: After): seq<GobId> {
    if after.Resume? then From(lru, after.cursor) else []
  }

  lemma FromFirst(a: seq<GobId>, b: seq<GobId>)
    requires NoDup(a + b)
    ensures From(a + b, First(b)) == b
  {
    var all := a + b;
    if b != [] {
      assert all[|a|] == b[0] && b[0] in all;
      var i := IndexOf(all, b[0]);
      assert all[i] == all[|a|] && i == |a|;
      assert all[|a|..] == b;
    }
  }

  /** The list around one of its entries. */
  lemma Around(lru: seq<GobId>, g: GobId) returns (a: seq<GobId>, b: seq<GobId>)
    requires NoDup(lru) && g in lru
    ensures lru == a + [g] + b && Without(lru, g) == a + b && Successor(lru, g) == First(b)
  {
    var i := IndexOf(lru, g);
    a, b := lru[..i], lru[i + 1..];
  }

  lemma FromSuccessor(lru: seq<GobId>, g: GobId)
    requires NoDup(lru) && g in lru
    ensures From(lru, Some(g)) == [g] + From(lru, Successor(lru, g))
    ensures From(Without(lru, g), Successor(lru, g)) == From(lru, Successor(lru, g))
  {
    var a, b := Around(lru, g);
    FromEntry(lru, a, g, b);
    WithoutProperties(lru, g);
    FromFirst(a, b);
  }

  lemma FromEntry(lru: seq<GobId>, a: seq<GobId>, g: GobId, b: seq<GobId>)
    requires NoDup(lru) && lru == a + [g] + b
    ensures From(lru, Some(g)) == [g] + b && From(lru, First(b)) == b
  {
    assert lru == a + ([g] + b) && First([g] + b) == Some(g);
    FromFirst(a, [g] + b);
    FromFirst(a + [g], b);
  }

  /** The GOB a step decides about: one whose lock is taken, one kept, or one dropped. */
  function Judged(s: State, step: Step): seq<GobId>
    requires Enabled(s, step)
  {
    if step.ReclaimBusy? then [s.pcs[step.t].cursor.value]
    else if step.ReclaimKeep? || step.ReclaimDrop? then [s.pcs[step.t].g]
    else []
  }

  /** While a thread scans, no other changes the usage list. */
  lemma ListIsMine(s: State, step: Step, t: Tid)
    requires Inv(s) && Enabled(s, step) && s.cacheLock == Some(t) && (step.Tick? || step.t != t)
    ensures Apply(s, step).lru == s.lru
  {
    if !step.Tick? { assert ThreadOk(s, step.t); }
  }

  lemma OthersScan(s: State, step: Step, t: Tid)
    requires Inv(s) && Enabled(s, step) && t in s.pcs && (step.Tick? || step.t != t)
    ensures t in Apply(s, step).pcs && Todo(Apply(s, step), t) == Todo(s, t)
  {
    OthersStand(s, step, t);
    assert ThreadOk(s, t);
    if s.pcs[t].HoldsCache() { ListIsMine(s, step, t); }
  }

  lemma ScanPasses(s: State, step: Step)
    requires Enabled(s, step) && step.ReclaimBusy?
    ensures step.t in Apply(s, step).pcs
    ensures var g := s.pcs[step.t].cursor.value;
      Todo(s, step.t) == From(s.lru, Some(g)) && Todo(Apply(s, step), step.t) == From(s.lru, Successor(s.lru, g))
  {
  }

  lemma ScanKeeps(s: State, step: Step)
    requires Enabled(s, step) && step.ReclaimKeep?
    ensures step.t in Apply(s, step).pcs
    ensures Todo(Apply(s, step), step.t) == From(s.lru, Successor(s.lru, s.pcs[step.t].g))
  {
  }

  lemma ScanVisits(s: State, t: Tid)
    requires t in s.pcs && s.pcs[t].Visit?
    ensures Todo(s, t) == From(s.lru, Some(s.pcs[t].g))
  {
  }

  lemma ScanTakes(s: State, step: Step)
    requires Enabled(s, step) && step.ReclaimDrop?
    ensures step.t in Apply(s, step).pcs
    ensures var g := s.pcs[step.t].g;
      Todo(Apply(s, step), step.t) == From(Without(s.lru, g), Successor(s.lru, g))
  {
    var s', g, pc := Apply(s, step), s.pcs[step.t].g, s.pcs[step.t];
    assert s'.lru == Without(s.lru, g) && s'.pcs[step.t] == Scrub(g, Resume(Successor(s.lru, g), pc.mintime));
  }

  lemma JudgesNext(s: State, step: Step)
    requires NoDup(s.lru) && Enabled(s, step) && (step.ReclaimBusy? || step.ReclaimKeep? || step.ReclaimDrop?)
    ensures step.t in Apply(s, step).pcs && Todo(s, step.t) == Judged(s, step) + Todo(Apply(s, step), step.t)
  {
    if step.ReclaimBusy? {
      ScanPasses(s, step);
      FromSuccessor(s.lru, s.pcs[step.t].cursor.value);
    } else {
      ScanVisits(s, step.t);
      if step.ReclaimKeep? { ScanKeeps(s, step); } else { ScanTakes(s, step); }
      FromSuccessor(s.lru, s.pcs[step.t].g);
    }
  }

  lemma TriesNext(s: State, step: Step)
    requires Enabled(s, step) && step.ReclaimTry?
    ensures step.t in Apply(s, step).pcs && Todo(Apply(s, step), step.t) == Todo(s, step.t)
  {
  }

  lemma BuriesNext(s: State, step: Step)
    requires Enabled(s, step) && (step.ScrubUnlock? || step.ClearFlags? || step.PushFree?)
    ensures step.t in Apply(s, step).pcs && Todo(Apply(s, step), step.t) == Todo(s, step.t)
  {
  }

  /** The thread is in the middle of a scan, with the cache mutex. */
  predicate Scanning(s: State, t: Tid) {
    t in s.pcs && (s.pcs[t].Scan? || s.pcs[t].Visit? ||
                   ((s.pcs[t].Scrub? || s.pcs[t].Corpse? || s.pcs[t].Bury?) && s.pcs[t].after.Resume?))
  }

  /** The steps a thread takes in the middle of a scan. */
  lemma ScanSteps(s: State, step: Step)
    requires Enabled(s, step) && !step.Tick? && Scanning(s, step.t) && Scanning(Apply(s, step), step.t)
    ensures step.ReclaimBusy? || step.ReclaimTry? || step.ReclaimKeep? || step.ReclaimDrop? || step.ScrubUnlock? ||
      step.ClearFlags? || step.PushFree?
  {
  }

  /** Each step of a scan takes the entry it decides about off the front of what is still to be looked at. */
  lemma ScanMovesOn(s: State, step: Step, t: Tid)
    requires Inv(s) && Enabled(s, step) && Scanning(s, t) && Scanning(Apply(s, step), t)
    ensures Todo(s, t) == (if !step.Tick? && step.t == t then Judged(s, step) else []) + Todo(Apply(s, step), t)
  {
    if step.Tick? || step.t != t {
      OthersScan(s, step, t);
    } else if step.ReclaimTry? {
      TriesNext(s, step);
    } else if step.ReclaimBusy? || step.ReclaimKeep? || step.ReclaimDrop? {
      JudgesNext(s, step);
    } else {
      ScanSteps(s, step);
      BuriesNext(s, step);
    }
  }

  /** A scan starts with the whole usage list to look at. */
  lemma ScanStarts(s: State, step: Step)
    requires Inv(s) && Enabled(s, step) && step.ReclaimBegin?
    ensures Scanning(Apply(s, step), step.t) && Todo(Apply(s, step), step.t) == s.lru
  {
    if s.lru != [] { assert IndexOf(s.lru, s.lru[0]) == 0; }
  }

  /** The entries thread `t` decides about from step `i` up to step `k`, in order. */
  ghost function JudgedBy(states: seq<State>, steps: seq<Step>, t: Tid, i: nat, k: nat): seq<GobId>
    requires i <= k <= |steps| && |states| == |steps| + 1
    decreases k - i
  {
    if i == k then [] else JudgedAt(states, steps, t, i) + JudgedBy(states, steps, t, i + 1, k)
  }

  ghost function JudgedAt(states: seq<State>, steps: seq<Step>, t: Tid, k: nat): seq<GobId>
    requires k < |steps| && |states| == |steps| + 1
  {
    if Follows(states, steps, k) && !steps[k].Tick? && steps[k].t == t then Judged(states[k], steps[k]) else []
  }

  ghost function TodoAt(states: seq<State>, t: Tid, k: nat): seq<GobId>
    requires k < |states|
  {
    if t in states[k].pcs then Todo(states[k], t) else []
  }

  lemma ScanStep(states: seq<State>, steps: seq<Step>, t: Tid, k: nat)
    requires IsRun(states, steps) && FreesExclusively(states, steps) && k < |steps|
    requires Scanning(states[k], t) && Scanning(states[k + 1], t)
    ensures TodoAt(states, t, k) == JudgedAt(states, steps, t, k) + TodoAt(states, t, k + 1)
  {
    RunKeepsInv(states, steps, k);
    assert Follows(states, steps, k);
    ScanMovesOn(states[k], steps[k], t);
  }

  lemma ScanBegins(states: seq<State>, steps: seq<Step>, t: Tid, i: nat)
    requires IsRun(states, steps) && FreesExclusively(states, steps) && i < |steps|
    requires steps[i].ReclaimBegin? && steps[i].t == t
    ensures TodoAt(states, t, i + 1) == states[i].lru
  {
    RunKeepsInv(states, steps, i);
    assert Follows(states, steps, i);
    ScanStarts(states[i], steps[i]);
  }

  /** Thread `t` is in the same scan from state `i` up to state `k`. */
  ghost predicate ScansOn(states: seq<State>, t: Tid, i: nat, k: nat)
    requires i <= k < |states|
  {
    forall j {:trigger Scanning(states[j], t)} :: i <= j <= k ==> Scanning(states[j], t)
  }

  lemma ScanOn(states: seq<State>, steps: seq<Step>, t: Tid, i: nat, k: nat, p: nat)
    requires IsRun(states, steps) && FreesExclusively(states, steps)
    requires i <= p < k < |states| && ScansOn(states, t, i, k)
    ensures TodoAt(states, t, p) == JudgedAt(states, steps, t, p) + TodoAt(states, t, p + 1)
  {
    assert Scanning(states[p], t) && Scanning(states[p + 1], t);
    ScanStep(states, steps, t, p);
  }

  lemma Narrower(states: seq<State>, t: Tid, i: nat, k: nat)
    requires i < k < |states| && ScansOn(states, t, i, k)
    ensures ScansOn(states, t, i + 1, k)
  {
  }

  /** The first entry of the rest of a scan. */
  lemma ScanOff(states: seq<State>, steps: seq<Step>, t: Tid, i: nat, k: nat, todo: seq<GobId>)
    returns (off: seq<GobId>, next: seq<GobId>)
    requires IsRun(states, steps) && FreesExclusively(states, steps) && i < k < |states| && ScansOn(states, t, i, k)
    requires todo == TodoAt(states, t, i)
    ensures off == JudgedAt(states, steps, t, i) && next == TodoAt(states, t, i + 1) && todo == off + next
    ensures ScansOn(states, t, i + 1, k)
  {
    ScanOn(states, steps, t, i, k, i);
    Narrower(states, t, i, k);
    off, next := JudgedAt(states, steps, t, i), TodoAt(states, t, i + 1);
  }

  lemma {:induction false} ScanFrom(states: seq<State>, steps: seq<Step>, t: Tid, i: nat, k: nat, todo: seq<GobId>)
    returns (judged: seq<GobId>, left: seq<GobId>)
    requires IsRun(states, steps) && FreesExclusively(states, steps) && i <= k < |states| && ScansOn(states, t, i, k)
    requires todo == TodoAt(states, t, i)
    ensures judged == JudgedBy(states, steps, t, i, k) && left == TodoAt(states, t, k) && judged + left == todo
    decreases k - i
  {
    if i == k {
      judged, left := [], todo;
    } else {
      var off, next := ScanOff(states, steps, t, i, k, todo);
      var rest;
      rest, left := ScanFrom(states, steps, t, i + 1, k, next);
      Joined(off, rest, left);
      judged := JudgedFirst(states, steps, t, i, k, off, rest);
    }
  }

  lemma {:induction false} JudgedFirst(states: seq<State>, steps: seq<Step>, t: Tid, i: nat, k: nat, off: seq<GobId>,
    rest: seq<GobId>) returns (judged: seq<GobId>)
    requires i < k <= |steps| && |states| == |steps| + 1
    requires off == JudgedAt(states, steps, t, i) && rest == JudgedBy(states, steps, t, i + 1, k)
    ensures judged == JudgedBy(states, steps, t, i, k) && judged == off + rest
  {
    judged := off + rest;
  }

  lemma Joined(a: seq<GobId>, b: seq<GobId>, c: seq<GobId>)
    ensures a + (b + c) == (a + b) + c
  {
  }

  /**
   * Through a scan, what has been decided about and what is still to be looked at are together
   * the usage list as it was when the scan began, in its order.
   */
  lemma ScanInOrder(states: seq<State>, steps: seq<Step>, t: Tid, i: nat, k: nat)
    requires IsRun(states, steps) && FreesExclusively(states, steps) && i < k < |states|
    requires steps[i].ReclaimBegin? && steps[i].t == t && ScansOn(states, t, i + 1, k)
    ensures JudgedBy(states, steps, t, i + 1, k) + TodoAt(states, t, k) == states[i].lru
  {
    ScanBegins(states, steps, t, i);
    var judged, left := ScanFrom(states, steps, t, i + 1, k, states[i].lru);
  }

  // ---------- what a lookup does ----------

  /** A search goes for the GOB filed under the name; without one it creates if it may, and else finds nothing. */
  lemma SearchExact(s: State, step: Step)
    requires Inv(s) && Enabled(s, step) && step.GetSearch?
    ensures step.t in Apply(s, step).pcs
    ensures var pc, pc' := s.pcs[step.t], Apply(s, step).pcs[step.t];
      && (pc'.LockFound? <==> pc.name in s.hash)
      && (pc'.LockFound? ==> pc'.g in s.lru && pc'.g in s.gobs && s.gobs[pc'.g].name == pc.name)
      && (pc'.MustCreate? <==> pc.name !in s.hash && pc.flags.create)
      && (pc' == GetDone(pc.name, None) <==> pc.name !in s.hash && !pc.flags.create)
  {
  }

  /** A lookup takes the entry it has locked unless that is dropping, or pending against its wish; then it gives up. */
  lemma LookupDecides(s: State, t: Tid, r: RefId)
    requires Inv(s) && t in s.pcs && s.pcs[t].Check? && r !in s.refs
    ensures s.pcs[t].g in s.gobs
    ensures var b, flags := s.gobs[s.pcs[t].g], s.pcs[t].flags;
      && (Enabled(s, GetTake(t, r)) <==> !b.dropping && (b.pending ==> flags.getPending))
      && (Enabled(s, GetAbandon(t)) <==> b.dropping || (b.pending && !flags.getPending))
  {
    assert ThreadOk(s, t) && GobOk(s, s.pcs[t].g);
  }

  /** A new GOB is the first of the free list, or else fresh, and comes pending, locked, and with one reference. */
  lemma NewExact(s: State, step: Step)
    requires Inv(s) && Enabled(s, step) && step.GetNew?
    ensures var s', g := Apply(s, step), step.g;
      && (if s.free == [] then g !in s.gobs else s.free == [g] + s'.free) && g !in s'.free
      && g in s'.gobs && s'.gobs[g].inuse && s'.gobs[g].pending && !s'.gobs[g].deferFree && !s'.gobs[g].incache
      && s'.gobs[g].lock == Some(step.t) && RefsTo(s'.refs, g) == {step.r} && s'.gobs[g].name == s.pcs[step.t].name
  {
    if step.g in s.gobs { assert GobOk(s, step.g); }
    NoRefs(s, step.g);
    assert RefsTo(s.refs[step.r := step.g], step.g) == RefsTo(s.refs, step.g) + {step.r};
  }

  lemma NoRefs(s: State, g: GobId)
    requires Inv(s) && (g !in s.gobs || g in s.free)
    ensures RefsTo(s.refs, g) == {}
  {
    if g in s.gobs { assert GobOk(s, g); }
  }

  /** Giving up, a lookup lets go of the entry and creates another if it may. */
  lemma GivesUpExact(s: State, step: Step)
    requires Inv(s) && Enabled(s, step) && step.GetAbandon?
    ensures var s', pc := Apply(s, step), s.pcs[step.t];
      && pc.g in s'.gobs && s'.gobs[pc.g].lock.None? && s'.refs == s.refs && s'.lru == s.lru && step.t in s'.pcs
      && s'.pcs[step.t] == if pc.flags.create then MustCreate(pc.name) else GetDone(pc.name, None)
  {
  }

  /** A lookup adds one reference to the GOB it takes, and none if it only peeks. */
  lemma TakesOneReference(s: State, step: Step)
    requires Inv(s) && Enabled(s, step) && step.GetTake?
    ensures var s', pc := Apply(s, step), s.pcs[step.t];
      && pc.g in s'.gobs && step.t in s'.pcs && s'.pcs[step.t] == GetDone(pc.name, Some(pc.g))
      && RefsTo(s'.refs, pc.g) == RefsTo(s.refs, pc.g) + (if pc.flags.peek then {} else {step.r})
      && s'.gobs[pc.g].utime == (if pc.flags.peek then s.gobs[pc.g].utime else s.now)
      && (pc.flags.peek ==> s'.lru == s.lru)
      && (!pc.flags.peek ==> s'.lru != [] && s'.lru[0] == pc.g)
  {
  }
}
