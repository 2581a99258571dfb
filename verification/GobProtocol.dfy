/**
 * The GOB cache as an interleaving of threads.
 *
 * A state holds the GOB records, the name-to-handle hash, the usage list, the
 * free list, the cache mutex and one program counter per thread; GOB mutexes
 * are a field of the GOB.  A step is one thread moving between two points of
 * the lookup, release or reclaim code.  The point of interest is the release
 * path, which gives up the GOB lock between marking the GOB as DROPPING and
 * taking the cache mutex.
 */
module GobProtocol {
  import opened Collections

  type Tid = nat      // a thread
  type GobId = nat    // the address of a GOB record
  type RefId = nat    // one reference held by some client
  type Name = nat     // a 256-bit name, read as a number

  datatype GetFlags = GetFlags(create: bool, getPending: bool, peek: bool)

  datatype Gob = Gob(
    inuse: bool,
    incache: bool,
    dropping: bool,
    pending: bool,
    deferFree: bool,
    refcnt: nat,
    name: Name,
    utime: int,
    lock: Option<Tid>,      // owner of the GOB mutex
    dropper: Option<Tid>,   // auxiliary: the thread tearing this GOB down
    allocs: nat,            // auxiliary: times handed out by _gdp_gob_new
    frees: nat)             // auxiliary: times put on the free list

  /** What a thread does once a GOB is freed: return, or carry on with a reclaim scan. */
  datatype After = Return | Resume(cursor: Option<GobId>, mintime: int)

  datatype Pc =
    | Idle
    | Search(name: Name, flags: GetFlags)
    | LockFound(name: Name, flags: GetFlags, g: GobId)
    | Check(name: Name, flags: GetFlags, g: GobId)
    | MustCreate(name: Name)
    | AddNew(name: Name, g: GobId)
    | GetDone(name: Name, found: Option<GobId>)
    | Using(g: GobId)
    | Renaming(name: Name, g: GobId)
    | FreeBegin(g: GobId)
    | DropLockCache(g: GobId)
    | DropLockGob(g: GobId)
    | DropRemove(g: GobId)
    | DropDone(g: GobId)
    | Scrub(g: GobId, after: After)
    | Corpse(g: GobId, after: After)
    | Bury(g: GobId, after: After)
    | Scan(cursor: Option<GobId>, mintime: int)
    | Visit(g: GobId, mintime: int)
  {
    /** The thread owns the cache mutex at this point. */
    predicate HoldsCache() {
      Search? || LockFound? || Check? || MustCreate? || AddNew? || GetDone? ||
      DropLockGob? || DropRemove? || DropDone? || Scan? || Visit? ||
      ((Scrub? || Corpse? || Bury?) && after.Resume?)
    }

    /** The GOB whose mutex the thread owns at this point. */
    function HeldGob(): Option<GobId> {
      if Check? || AddNew? || Using? || Renaming? || FreeBegin? || DropRemove? || DropDone? || Scrub? || Visit?
      then Some(g)
      else if GetDone? then found
      else None
    }

    /** The GOB the thread is tearing down at this point. */
    function Tearing(): Option<GobId> {
      if FreeBegin? || DropLockCache? || DropLockGob? || DropRemove? || DropDone? || Scrub? || Corpse? || Bury?
      then Some(g) else None
    }
  }

  datatype State = State(
    gobs: map<GobId, Gob>,
    hash: map<Name, GobId>,
    lru: seq<GobId>,
    free: seq<GobId>,
    cacheLock: Option<Tid>,
    pcs: map<Tid, Pc>,
    refs: map<RefId, GobId>,
    now: int)

  datatype Step =
    // _gdp_gob_cache_get
    | GetBegin(t: Tid, name: Name, flags: GetFlags)
    | GetSearch(t: Tid)
    | GetLock(t: Tid)
    | GetAbandon(t: Tid)
    | GetTake(t: Tid, r: RefId)
    | GetNew(t: Tid, g: GobId, r: RefId)
    | GetNewFail(t: Tid)
    | GetAdd(t: Tid)
    | GetReturn(t: Tid)
    // clients
    | Unlock(t: Tid)
    | Relock(t: Tid, r: RefId)
    | Incref(t: Tid, r: RefId)
    | Mark(t: Tid, pending: bool, deferFree: bool)
    // _gdp_gob_cache_changename, by a caller assumed to have the GOB locked
    | ChangeName(t: Tid, name: Name)
    | Rename(t: Tid)
    // _gdp_gob_decref, _gdp_gob_free, _gdp_gob_cache_drop
    | Decref(t: Tid, r: RefId)
    | ForceFree(t: Tid, r: RefId)
    | DropUnlock(t: Tid)
    | DropTakeCache(t: Tid)
    | DropTakeGob(t: Tid)
    | DropUnlink(t: Tid)
    | DropReturn(t: Tid)
    | ScrubUnlock(t: Tid)
    | ClearFlags(t: Tid)
    | PushFree(t: Tid)
    // _gdp_gob_cache_reclaim
    | ReclaimBegin(t: Tid, mintime: int)
    | ReclaimBusy(t: Tid)
    | ReclaimTry(t: Tid)
    | ReclaimKeep(t: Tid)
    | ReclaimDrop(t: Tid)
    | ReclaimEnd(t: Tid)
    // the clock
    | Tick(now: int)

  // ---------- the transition system ----------

  /** The test a looked-up GOB must pass before it is returned. */
  predicate Usable(b: Gob, flags: GetFlags) {
    b.inuse && b.incache && !b.dropping && (b.pending ==> flags.getPending)
  }

  /** What the reclaim scan takes: old, unreferenced and not already being dropped. */
  predicate Reclaimable(b: Gob, mintime: int) {
    b.utime <= mintime && !b.dropping && b.refcnt == 0
  }

  predicate Enabled(s: State, step: Step) {
    if step.Tick? then s.now <= step.now else
    step.t in s.pcs && var pc := s.pcs[step.t];
    match step
    case GetBegin(_, _, _) => pc.Idle? && s.cacheLock.None?
    case GetSearch(_) => pc.Search?
    case GetLock(_) => pc.LockFound? && pc.g in s.gobs && s.gobs[pc.g].lock.None?
    case GetAbandon(_) => pc.Check? && pc.g in s.gobs && !Usable(s.gobs[pc.g], pc.flags)
    case GetTake(_, r) => pc.Check? && pc.g in s.gobs && Usable(s.gobs[pc.g], pc.flags) && r !in s.refs
    case GetNew(_, g, r) =>
      pc.MustCreate? && r !in s.refs && (if s.free == [] then g !in s.gobs else g == s.free[0] && g in s.gobs)
    case GetNewFail(_) => pc.MustCreate?
    case GetAdd(_) => pc.AddNew? && pc.g in s.gobs
    case GetReturn(_) => pc.GetDone?
    case Unlock(_) => pc.Using? && pc.g in s.gobs
    case Relock(_, r) => pc.Idle? && r in s.refs && s.refs[r] in s.gobs && s.gobs[s.refs[r]].lock.None?
    case Incref(_, r) => pc.Using? && pc.g in s.gobs && r !in s.refs
    case Mark(_, _, _) => pc.Using? && pc.g in s.gobs
    case ChangeName(_, _) => pc.Using? && pc.g in s.gobs && s.gobs[pc.g].incache
    case Rename(_) => pc.Renaming? && pc.g in s.gobs && s.cacheLock.None?
    case Decref(_, r) => pc.Using? && pc.g in s.gobs && r in s.refs && s.refs[r] == pc.g
    case ForceFree(_, r) => pc.Using? && pc.g in s.gobs && r in s.refs && s.refs[r] == pc.g && s.gobs[pc.g].pending
    case DropUnlock(_) => pc.FreeBegin? && pc.g in s.gobs
    case DropTakeCache(_) => pc.DropLockCache? && s.cacheLock.None?
    case DropTakeGob(_) => pc.DropLockGob? && pc.g in s.gobs && s.gobs[pc.g].lock.None?
    case DropUnlink(_) => pc.DropRemove? && pc.g in s.gobs
    case DropReturn(_) => pc.DropDone?
    case ScrubUnlock(_) => pc.Scrub? && pc.g in s.gobs
    case ClearFlags(_) => pc.Corpse? && pc.g in s.gobs
    case PushFree(_) => pc.Bury? && pc.g in s.gobs
    case ReclaimBegin(_, _) => pc.Idle? && s.cacheLock.None?
    case ReclaimBusy(_) => pc.Scan? && pc.cursor.Some? && pc.cursor.value in s.gobs && pc.cursor.value in s.lru &&
      s.gobs[pc.cursor.value].lock.Some?
    case ReclaimTry(_) => pc.Scan? && pc.cursor.Some? && pc.cursor.value in s.gobs && s.gobs[pc.cursor.value].lock.None?
    case ReclaimKeep(_) => pc.Visit? && pc.g in s.gobs && pc.g in s.lru && !Reclaimable(s.gobs[pc.g], pc.mintime)
    case ReclaimDrop(_) => pc.Visit? && pc.g in s.gobs && pc.g in s.lru && Reclaimable(s.gobs[pc.g], pc.mintime)
    case ReclaimEnd(_) => pc.Scan?
  }

  function SetGob(s: State, g: GobId, b: Gob): State {
    s.(gobs := s.gobs[g := b])
  }

  function SetPc(s: State, t: Tid, pc: Pc): State {
    s.(pcs := s.pcs[t := pc])
  }

  /** Where a lookup goes when it has no GOB to return. */
  function Missed(name: Name, flags: GetFlags): Pc {
    if flags.create then MustCreate(name) else GetDone(name, None)
  }

  function AfterFree(after: After): Pc {
    match after
    case Return => Idle
    case Resume(cursor, mintime) => Scan(cursor, mintime)
  }

  function Apply(s: State, step: Step): State
    requires Enabled(s, step)
  {
    if step.Tick? then s.(now := step.now) else
    var t := step.t;
    var pc := s.pcs[t];
    match step
    case GetBegin(_, name, flags) => SetPc(s, t, Search(name, flags)).(cacheLock := Some(t))
    case GetSearch(_) =>
      SetPc(s, t,
        if pc.name in s.hash then LockFound(pc.name, pc.flags, s.hash[pc.name]) else Missed(pc.name, pc.flags))
    case GetLock(_) => SetGob(SetPc(s, t, Check(pc.name, pc.flags, pc.g)), pc.g, s.gobs[pc.g].(lock := Some(t)))
    case GetAbandon(_) => SetGob(SetPc(s, t, Missed(pc.name, pc.flags)), pc.g, s.gobs[pc.g].(lock := None))
    case GetTake(_, r) =>
      var s1 := SetPc(s, t, GetDone(pc.name, Some(pc.g)));
      if pc.flags.peek then s1 else
      var b := s.gobs[pc.g];
      SetGob(s1, pc.g, b.(refcnt := b.refcnt + 1, utime := s.now))
        .(refs := s.refs[r := pc.g], lru := [pc.g] + Without(s.lru, pc.g))
    case GetNew(_, g, r) =>
      var (allocs, frees) := if s.free == [] then (0, 0) else (s.gobs[g].allocs, s.gobs[g].frees);
      SetGob(SetPc(s, t, AddNew(pc.name, g)), g,
        Gob(true, false, false, true, false, 1, pc.name, s.now, Some(t), None, allocs + 1, frees))
        .(refs := s.refs[r := g], free := if s.free == [] then [] else s.free[1..])
    case GetNewFail(_) => SetPc(s, t, GetDone(pc.name, None))
    case GetAdd(_) =>
      var b := s.gobs[pc.g];
      SetGob(SetPc(s, t, GetDone(pc.name, Some(pc.g))), pc.g, b.(incache := true, utime := s.now))
        .(hash := s.hash[b.name := pc.g], lru := [pc.g] + s.lru)
    case GetReturn(_) => SetPc(s, t, if pc.found.Some? then Using(pc.found.value) else Idle).(cacheLock := None)
    case Unlock(_) => SetGob(SetPc(s, t, Idle), pc.g, s.gobs[pc.g].(lock := None))
    case Relock(_, r) => SetGob(SetPc(s, t, Using(s.refs[r])), s.refs[r], s.gobs[s.refs[r]].(lock := Some(t)))
    case Incref(_, r) => SetGob(s, pc.g, s.gobs[pc.g].(refcnt := s.gobs[pc.g].refcnt + 1)).(refs := s.refs[r := pc.g])
    case Mark(_, pending, deferFree) => SetGob(s, pc.g, s.gobs[pc.g].(pending := pending, deferFree := deferFree))
    case ChangeName(_, name) => SetPc(s, t, Renaming(name, pc.g))
    case Rename(_) =>
      SetGob(SetPc(s, t, Using(pc.g)), pc.g, s.gobs[pc.g].(name := pc.name))
        .(hash := (s.hash - {s.gobs[pc.g].name})[pc.name := pc.g])
    case Decref(_, r) =>
      var b := s.gobs[pc.g].(refcnt := if s.gobs[pc.g].refcnt > 0 then s.gobs[pc.g].refcnt - 1 else 0);
      if b.refcnt == 0 && !b.deferFree then
        SetGob(SetPc(s, t, FreeBegin(pc.g)), pc.g, b.(dropping := true, dropper := Some(t))).(refs := s.refs - {r})
      else
        SetGob(SetPc(s, t, Idle), pc.g, b.(lock := None)).(refs := s.refs - {r})
    case ForceFree(_, r) =>
      SetGob(SetPc(s, t, FreeBegin(pc.g)), pc.g, s.gobs[pc.g].(refcnt := 0, dropping := true, dropper := Some(t)))
        .(refs := s.refs - {r})
    case DropUnlock(_) =>
      if s.gobs[pc.g].incache then SetGob(SetPc(s, t, DropLockCache(pc.g)), pc.g, s.gobs[pc.g].(lock := None))
      else SetPc(s, t, Scrub(pc.g, Return))
    case DropTakeCache(_) => SetPc(s, t, DropLockGob(pc.g)).(cacheLock := Some(t))
    case DropTakeGob(_) => SetGob(SetPc(s, t, DropRemove(pc.g)), pc.g, s.gobs[pc.g].(lock := Some(t)))
    case DropUnlink(_) =>
      SetGob(SetPc(s, t, DropDone(pc.g)), pc.g, s.gobs[pc.g].(incache := false))
        .(hash := s.hash - {s.gobs[pc.g].name}, lru := Without(s.lru, pc.g))
    case DropReturn(_) => SetPc(s, t, Scrub(pc.g, Return)).(cacheLock := None)
    case ScrubUnlock(_) => SetGob(SetPc(s, t, Corpse(pc.g, pc.after)), pc.g, s.gobs[pc.g].(lock := None))
    case ClearFlags(_) =>
      SetGob(SetPc(s, t, Bury(pc.g, pc.after)), pc.g,
             s.gobs[pc.g].(inuse := false, incache := false, dropping := false, pending := false, deferFree := false))
    case PushFree(_) =>
      SetGob(SetPc(s, t, AfterFree(pc.after)), pc.g, s.gobs[pc.g].(dropper := None, frees := s.gobs[pc.g].frees + 1))
        .(free := [pc.g] + s.free)
    case ReclaimBegin(_, mintime) => SetPc(s, t, Scan(First(s.lru), mintime)).(cacheLock := Some(t))
    case ReclaimBusy(_) => SetPc(s, t, Scan(Successor(s.lru, pc.cursor.value), pc.mintime))
    case ReclaimTry(_) =>
      SetGob(SetPc(s, t, Visit(pc.cursor.value, pc.mintime)), pc.cursor.value,
        s.gobs[pc.cursor.value].(lock := Some(t)))
    case ReclaimKeep(_) =>
      SetGob(SetPc(s, t, Scan(Successor(s.lru, pc.g), pc.mintime)), pc.g, s.gobs[pc.g].(lock := None))
    case ReclaimDrop(_) =>
      SetGob(SetPc(s, t, Scrub(pc.g, Resume(Successor(s.lru, pc.g), pc.mintime))), pc.g,
             s.gobs[pc.g].(incache := false, dropping := true, dropper := Some(t)))
        .(hash := s.hash - {s.gobs[pc.g].name}, lru := Without(s.lru, pc.g))
    case ReclaimEnd(_) => SetPc(s, t, Idle).(cacheLock := None)
  }

  /** Nothing allocated, nothing locked, any number of idle threads. */
  ghost predicate Init(s: State) {
    s.gobs == map[] && s.hash == map[] && s.lru == [] && s.free == [] && s.cacheLock.None? && s.refs == map[] &&
    forall t :: t in s.pcs ==> s.pcs[t].Idle?
  }

  // ---------- the invariant ----------

  ghost function RefsTo(refs: map<RefId, GobId>, g: GobId): set<RefId> {
    set r | r in refs && refs[r] == g
  }

  /** What a thread may rely on at each program point. */
  ghost predicate Knows(s: State, pc: Pc) {
    match pc
    case LockFound(n, _, g) => n in s.hash && s.hash[n] == g
    case Check(n, _, g) => n in s.hash && s.hash[n] == g
    case AddNew(n, g) =>
      g in s.gobs && s.gobs[g].inuse && !s.gobs[g].incache && !s.gobs[g].dropping && s.gobs[g].name == n
    case GetDone(n, found) => found.Some? ==> found.value in s.gobs && Returned(s.gobs[found.value], n)
    case Using(g) => g in s.gobs && s.gobs[g].inuse && !s.gobs[g].dropping
    case Renaming(_, g) => g in s.gobs && s.gobs[g].inuse && !s.gobs[g].dropping && s.gobs[g].incache
    case FreeBegin(g) => g in s.gobs && s.gobs[g].inuse
    case DropLockCache(g) => g in s.gobs && s.gobs[g].inuse && s.gobs[g].incache
    case DropLockGob(g) => g in s.gobs && s.gobs[g].inuse && s.gobs[g].incache
    case DropRemove(g) => g in s.gobs && s.gobs[g].inuse && s.gobs[g].incache
    case DropDone(g) => g in s.gobs && s.gobs[g].inuse && !s.gobs[g].incache
    case Scrub(g, after) => g in s.gobs && s.gobs[g].inuse && !s.gobs[g].incache && KnowsCursor(s, after)
    case Corpse(g, after) => g in s.gobs && s.gobs[g].inuse && !s.gobs[g].incache && KnowsCursor(s, after)
    case Bury(g, after) => g in s.gobs && !s.gobs[g].inuse && KnowsCursor(s, after)
    case Scan(cursor, _) => cursor.Some? ==> cursor.value in s.lru
    case Visit(g, _) => g in s.lru
    case _ => true
  }

  /** What a lookup for `n` hands out. */
  ghost predicate Returned(b: Gob, n: Name) {
    b.inuse && b.incache && !b.dropping && b.name == n
  }

  ghost predicate KnowsCursor(s: State, after: After) {
    after.Resume? && after.cursor.Some? ==> after.cursor.value in s.lru
  }

  ghost predicate ThreadOk(s: State, t: Tid)
    requires t in s.pcs
  {
    var pc := s.pcs[t];
    && (s.cacheLock == Some(t) <==> pc.HoldsCache())
    && (pc.HeldGob().Some? ==> pc.HeldGob().value in s.gobs && s.gobs[pc.HeldGob().value].lock == Some(t))
    && (pc.Tearing().Some? ==> pc.Tearing().value in s.gobs && s.gobs[pc.Tearing().value].dropper == Some(t))
    && Knows(s, pc)
  }

  ghost predicate GobOk(s: State, g: GobId)
    requires g in s.gobs
  {
    var b := s.gobs[g];
    && (b.lock.Some? ==> b.lock.value in s.pcs && s.pcs[b.lock.value].HeldGob() == Some(g))
    && (b.dropper.Some? ==> b.dropper.value in s.pcs && s.pcs[b.dropper.value].Tearing() == Some(g))
    && (b.inuse ==> (b.dropping <==> b.dropper.Some?))
    && (!b.inuse ==> !b.incache && !b.dropping && b.refcnt == 0 && b.lock.None?)
    && (b.dropping ==> b.refcnt == 0)
    && (b.incache <==> g in s.lru)
    && (g in s.free <==> !b.inuse && b.dropper.None?)
    && b.refcnt == |RefsTo(s.refs, g)|
    && b.allocs == b.frees + (if g in s.free then 0 else 1)
    && b.utime <= s.now
  }

  /** Every list node and every hash entry is a live record, and the hash files it under its own name. */
  ghost predicate ListsOk(s: State) {
    && NoDup(s.lru) && NoDup(s.free)
    && (forall g :: g in s.lru || g in s.free ==> g in s.gobs)
    && (forall n :: n in s.hash ==> s.hash[n] in s.lru && s.hash[n] in s.gobs && s.gobs[s.hash[n]].name == n)
    && (forall r :: r in s.refs ==> s.refs[r] in s.gobs)
    && (s.cacheLock.Some? ==> s.cacheLock.value in s.pcs)
  }

  /** The usage list runs from the most to the least recently used GOB. */
  ghost predicate LruOrdered(gobs: map<GobId, Gob>, lru: seq<GobId>) {
    && (forall i :: 0 <= i < |lru| ==> lru[i] in gobs)
    && (forall i, j :: 0 <= i < j < |lru| ==> gobs[lru[i]].utime >= gobs[lru[j]].utime)
  }

  ghost predicate Inv(s: State) {
    && ListsOk(s)
    && LruOrdered(s.gobs, s.lru)
    && (forall t {:trigger ThreadOk(s, t)} :: t in s.pcs ==> ThreadOk(s, t))
    && (forall g {:trigger GobOk(s, g)} :: g in s.gobs ==> GobOk(s, g))
  }

  /** A forced free only discards the reference of the thread that forces it. */
  predicate Exclusive(s: State, step: Step)
    requires Enabled(s, step)
  {
    step.ForceFree? ==> s.gobs[s.pcs[step.t].g].refcnt == 1
  }

  lemma AddRef(refs: map<RefId, GobId>, r: RefId, g: GobId)
    requires r !in refs
    ensures |RefsTo(refs[r := g], g)| == |RefsTo(refs, g)| + 1
    ensures forall h :: h != g ==> RefsTo(refs[r := g], h) == RefsTo(refs, h)
  {
    assert RefsTo(refs[r := g], g) == RefsTo(refs, g) + {r};
  }

  lemma DropRef(refs: map<RefId, GobId>, r: RefId)
    requires r in refs
    ensures |RefsTo(refs - {r}, refs[r])| == |RefsTo(refs, refs[r])| - 1
    ensures forall h :: h != refs[r] ==> RefsTo(refs - {r}, h) == RefsTo(refs, h)
  {
    assert RefsTo(refs, refs[r]) == RefsTo(refs - {r}, refs[r]) + {r};
  }

  // ---------- one thread moves, at most one GOB changes ----------

  /** Thread `t` moved and only the GOB `at`, if any, changed; everything belonging to another thread was left alone. */
  ghost predicate Moves(s: State, s': State, t: Tid, at: Option<GobId>) {
    && t in s.pcs && t in s'.pcs
    && (forall u :: u != t ==> (u in s'.pcs <==> u in s.pcs) && (u in s.pcs ==> s'.pcs[u] == s.pcs[u]))
    && (forall h :: h in s'.gobs <==> h in s.gobs || Some(h) == at)
    && s'.now == s.now
    && (forall h {:trigger Untouched(s, s', h)} :: h in s.gobs && Some(h) != at ==> Untouched(s, s', h))
    && (at.Some? && at.value in s.gobs ==> Respected(s.gobs[at.value], s'.gobs[at.value], t))
    && LockMoves(s.cacheLock, s'.cacheLock, t)
    && (s.cacheLock.Some? && s.cacheLock.value != t ==> s'.hash == s.hash && s'.lru == s.lru)
    && SameExcept(s.pcs[t].HeldGob(), s'.pcs[t].HeldGob(), at)
    && SameExcept(s.pcs[t].Tearing(), s'.pcs[t].Tearing(), at)
  }

  ghost predicate Untouched(s: State, s': State, h: GobId)
    requires h in s.gobs
  {
    && h in s'.gobs && s'.gobs[h] == s.gobs[h]
    && (h in s'.lru <==> h in s.lru)
    && (h in s'.free <==> h in s.free)
    && |RefsTo(s'.refs, h)| == |RefsTo(s.refs, h)|
  }

  /** A GOB locked by another thread is not changed; one being torn down by another thread keeps its standing. */
  ghost predicate Respected(b: Gob, b': Gob, t: Tid) {
    && (b.lock.Some? && b.lock.value != t ==> b' == b)
    && (b.dropper.Some? && b.dropper.value != t ==>
      b'.inuse == b.inuse && b'.incache == b.incache && b'.dropper == b.dropper)
  }

  ghost predicate SameExcept(a: Option<GobId>, a': Option<GobId>, at: Option<GobId>) {
    a' == a || ((a.None? || a == at) && (a'.None? || a' == at))
  }

  lemma OtherThread(s: State, s': State, t: Tid, at: Option<GobId>, u: Tid)
    requires Inv(s) && Moves(s, s', t, at) && u in s.pcs && u != t
    ensures ThreadOk(s', u)
  {
    assert ThreadOk(s, u);
    var pc := s.pcs[u];
    assert s'.pcs[u] == pc;
    if pc.HeldGob().Some? && pc.HeldGob() != at {
      assert Untouched(s, s', pc.HeldGob().value);
    }
    if pc.Tearing().Some? && pc.Tearing() != at {
      assert Untouched(s, s', pc.Tearing().value);
    }
  }

  lemma OtherGob(s: State, s': State, t: Tid, at: Option<GobId>, h: GobId)
    requires Inv(s) && Moves(s, s', t, at) && h in s.gobs && Some(h) != at
    ensures GobOk(s', h)
  {
    assert GobOk(s, h) && Untouched(s, s', h);
  }

  /** It is enough to check the moving thread, the changed GOB and the lists. */
  lemma Assemble(s: State, s': State, t: Tid, at: Option<GobId>)
    requires Inv(s) && Moves(s, s', t, at)
    requires ThreadOk(s', t) && ListsOk(s') && LruOrdered(s'.gobs, s'.lru)
    requires at.Some? ==> GobOk(s', at.value)
    ensures Inv(s')
  {
    forall u | u in s'.pcs ensures ThreadOk(s', u) {
      if u != t { OtherThread(s, s', t, at, u); }
    }
    forall h | h in s'.gobs ensures GobOk(s', h) {
      if Some(h) != at { OtherGob(s, s', t, at, h); }
    }
  }

  // ---------- steps that leave the lists and the references alone ----------

  ghost predicate LockMoves(before: Option<Tid>, after: Option<Tid>, t: Tid) {
    after == before || (before.None? && after == Some(t)) || (before == Some(t) && after.None?)
  }

  lemma QuietPc(s: State, s': State, t: Tid)
    requires Inv(s) && t in s.pcs && t in s'.pcs
    requires s' == SetPc(s, t, s'.pcs[t]).(cacheLock := s'.cacheLock)
    requires LockMoves(s.cacheLock, s'.cacheLock, t)
    requires s'.pcs[t].HeldGob() == s.pcs[t].HeldGob() && s'.pcs[t].Tearing() == s.pcs[t].Tearing()
    requires ThreadOk(s', t)
    ensures Inv(s')
  {
    assert Moves(s, s', t, None);
    Assemble(s, s', t, None);
  }

  lemma QuietGob(s: State, s': State, t: Tid, g: GobId)
    requires Inv(s) && t in s.pcs && t in s'.pcs && g in s.gobs && g in s'.gobs
    requires s' == SetGob(SetPc(s, t, s'.pcs[t]), g, s'.gobs[g]).(cacheLock := s'.cacheLock)
    requires LockMoves(s.cacheLock, s'.cacheLock, t)
    requires SameExcept(s.pcs[t].HeldGob(), s'.pcs[t].HeldGob(), Some(g))
    requires SameExcept(s.pcs[t].Tearing(), s'.pcs[t].Tearing(), Some(g))
    requires s'.gobs[g].name == s.gobs[g].name && s'.gobs[g].utime == s.gobs[g].utime
    requires Respected(s.gobs[g], s'.gobs[g], t)
    requires ThreadOk(s', t) && GobOk(s', g)
    ensures Inv(s')
  {
    assert Moves(s, s', t, Some(g));
    Assemble(s, s', t, Some(g));
  }

  // ---------- the order of the usage list ----------

  ghost predicate SameUtime(gobs: map<GobId, Gob>, gobs': map<GobId, Gob>, g: GobId) {
    forall h :: h in gobs && h != g ==> h in gobs' && gobs'[h].utime == gobs[h].utime
  }

  lemma Unlinked(s: State, gobs': map<GobId, Gob>, g: GobId)
    requires NoDup(s.lru) && LruOrdered(s.gobs, s.lru) && SameUtime(s.gobs, gobs', g)
    ensures LruOrdered(gobs', Without(s.lru, g))
  {
    WithoutProperties(s.lru, g);
  }

  /** A GOB stamped with the current time goes to the front. */
  lemma Fronted(s: State, gobs': map<GobId, Gob>, g: GobId, rest: seq<GobId>)
    requires Inv(s) && SameUtime(s.gobs, gobs', g) && g in gobs' && gobs'[g].utime == s.now
    requires LruOrdered(gobs', rest) && g !in rest && forall h :: h in rest ==> h in s.gobs
    ensures LruOrdered(gobs', [g] + rest)
  {
    forall i | 0 <= i < |rest| ensures gobs'[rest[i]].utime <= s.now {
      assert rest[i] in rest && GobOk(s, rest[i]);
    }
  }

  // ---------- every step keeps the invariant ----------

  lemma RefCounted(refs: map<RefId, GobId>, r: RefId)
    requires r in refs
    ensures |RefsTo(refs, refs[r])| > 0
  {
    assert r in RefsTo(refs, refs[r]);
  }

  /** Whoever holds a GOB lock is tearing that GOB down, or the GOB is listed or not being dropped. */
  lemma Holder(s: State, u: Tid)
    requires Inv(s) && u in s.pcs && s.pcs[u].HeldGob().Some?
    ensures var g := s.pcs[u].HeldGob().value;
            g in s.gobs && (s.gobs[g].dropper == Some(u) || g in s.lru || !s.gobs[g].dropping)
  {
    assert ThreadOk(s, u);
  }

  /** The GOB whose lock the thread is going to take next. */
  function Awaits(pc: Pc): Option<GobId> {
    if pc.LockFound? || pc.DropLockGob? then Some(pc.g) else if pc.Scan? then pc.cursor else None
  }

  /**
   * "gob should be inaccessible now": nobody has the lock of a GOB whose corpse is being
   * cleared, no thread is on its way to take it, and no reference leads to it.
   */
  lemma CorpseUnlocked(s: State, t: Tid)
    requires Inv(s) && t in s.pcs && s.pcs[t].Corpse?
    ensures s.pcs[t].g in s.gobs && s.gobs[s.pcs[t].g].lock.None? && RefsTo(s.refs, s.pcs[t].g) == {}
    ensures forall u {:trigger Awaits(s.pcs[u])} :: u in s.pcs ==> Awaits(s.pcs[u]) != Some(s.pcs[t].g)
  {
    var g := s.pcs[t].g;
    assert ThreadOk(s, t) && GobOk(s, g);
    if s.gobs[g].lock.Some? {
      Holder(s, s.gobs[g].lock.value);
    }
    forall u | u in s.pcs ensures Awaits(s.pcs[u]) != Some(g) {
      assert ThreadOk(s, u);
    }
  }

  // ---------- steps that change one list or the references ----------

  /** Only `g`'s references change. */
  lemma RefsStep(s: State, s': State, t: Tid, g: GobId)
    requires Inv(s) && t in s.pcs && t in s'.pcs && g in s.gobs && g in s'.gobs
    requires SameExcept(s.pcs[t].HeldGob(), s'.pcs[t].HeldGob(), Some(g))
    requires SameExcept(s.pcs[t].Tearing(), s'.pcs[t].Tearing(), Some(g))
    requires Respected(s.gobs[g], s'.gobs[g], t)
    requires ThreadOk(s', t) && GobOk(s', g)
    requires s' == SetGob(SetPc(s, t, s'.pcs[t]), g, s'.gobs[g]).(refs := s'.refs)
    requires s'.gobs[g].name == s.gobs[g].name && s'.gobs[g].utime == s.gobs[g].utime
    requires forall h :: h != g ==> RefsTo(s'.refs, h) == RefsTo(s.refs, h)
    requires forall r :: r in s'.refs ==> s'.refs[r] == g || (r in s.refs && s'.refs[r] == s.refs[r])
    ensures Inv(s')
  {
    assert Moves(s, s', t, Some(g));
    Assemble(s, s', t, Some(g));
  }

  /** `g` leaves the usage list, and whatever the hash holds under its name goes too. */
  lemma UnlinkStep(s: State, s': State, t: Tid, g: GobId)
    requires Inv(s) && t in s.pcs && t in s'.pcs && g in s.gobs && g in s'.gobs
    requires SameExcept(s.pcs[t].HeldGob(), s'.pcs[t].HeldGob(), Some(g))
    requires SameExcept(s.pcs[t].Tearing(), s'.pcs[t].Tearing(), Some(g))
    requires Respected(s.gobs[g], s'.gobs[g], t)
    requires ThreadOk(s', t) && GobOk(s', g)
    requires s.cacheLock == Some(t)
    requires s' ==
      SetGob(SetPc(s, t, s'.pcs[t]), g, s'.gobs[g]).(hash := s.hash - {s.gobs[g].name}, lru := Without(s.lru, g))
    ensures Inv(s')
  {
    WithoutProperties(s.lru, g);
    Unlinked(s, s'.gobs, g);
    UnlinkMoves(s, s', t, g);
    Assemble(s, s', t, Some(g));
  }

  lemma UnlinkMoves(s: State, s': State, t: Tid, g: GobId)
    requires t in s.pcs && t in s'.pcs && g in s.gobs && g in s'.gobs && NoDup(s.lru)
    requires SameExcept(s.pcs[t].HeldGob(), s'.pcs[t].HeldGob(), Some(g))
    requires SameExcept(s.pcs[t].Tearing(), s'.pcs[t].Tearing(), Some(g))
    requires Respected(s.gobs[g], s'.gobs[g], t) && s.cacheLock == Some(t)
    requires s' ==
      SetGob(SetPc(s, t, s'.pcs[t]), g, s'.gobs[g]).(hash := s.hash - {s.gobs[g].name}, lru := Without(s.lru, g))
    ensures Moves(s, s', t, Some(g))
  {
    WithoutProperties(s.lru, g);
  }

  /** `g`, stamped with the current time, goes to the front of the usage list; it may take over its hash slot. */
  lemma FrontStep(s: State, s': State, t: Tid, g: GobId)
    requires Inv(s) && FrontAt(s, s', t, g) && ThreadOk(s', t) && GobOk(s', g)
    ensures Inv(s')
  {
    WithoutProperties(s.lru, g);
    Unlinked(s, s'.gobs, g);
    Fronted(s, s'.gobs, g, Without(s.lru, g));
    assert Moves(s, s', t, Some(g));
    Assemble(s, s', t, Some(g));
  }

  ghost predicate FrontAt(s: State, s': State, t: Tid, g: GobId) {
    && t in s.pcs && t in s'.pcs && g in s.gobs && g in s'.gobs
    && SameExcept(s.pcs[t].HeldGob(), s'.pcs[t].HeldGob(), Some(g))
    && SameExcept(s.pcs[t].Tearing(), s'.pcs[t].Tearing(), Some(g))
    && Respected(s.gobs[g], s'.gobs[g], t) && s.cacheLock == Some(t)
    && s' == SetGob(SetPc(s, t, s'.pcs[t]), g, s'.gobs[g]).(hash := s'.hash, lru := [g] + Without(s.lru, g))
    && (s'.hash == s.hash || s'.hash == s.hash[s.gobs[g].name := g])
    && s'.gobs[g].name == s.gobs[g].name && s'.gobs[g].utime == s.now
  }

  /** Only `g` enters or leaves the free list, alone or with its references. */
  lemma FreeListStep(s: State, s': State, t: Tid, g: GobId)
    requires Inv(s) && t in s.pcs && t in s'.pcs && g in s'.gobs && g !in s.lru
    requires SameExcept(s.pcs[t].HeldGob(), s'.pcs[t].HeldGob(), Some(g))
    requires SameExcept(s.pcs[t].Tearing(), s'.pcs[t].Tearing(), Some(g))
    requires g in s.gobs ==> Respected(s.gobs[g], s'.gobs[g], t)
    requires ThreadOk(s', t) && GobOk(s', g)
    requires s' == SetGob(SetPc(s, t, s'.pcs[t]), g, s'.gobs[g]).(refs := s'.refs, free := s'.free)
    requires NoDup(s'.free) && forall h :: h != g ==> (h in s'.free <==> h in s.free)
    requires forall h :: h != g ==> RefsTo(s'.refs, h) == RefsTo(s.refs, h)
    requires forall r :: r in s'.refs ==> s'.refs[r] == g || (r in s.refs && s'.refs[r] == s.refs[r])
    ensures Inv(s')
  {
    assert Moves(s, s', t, Some(g));
    Assemble(s, s', t, Some(g));
  }

  // ---------- the steps one by one ----------

  /** A lookup starts, or ends without a GOB. */
  lemma KeepsGetBegin(s: State, step: Step)
    requires Inv(s) && Enabled(s, step) && (step.GetBegin? || step.GetNewFail?)
    ensures Inv(Apply(s, step))
  {
    assert ThreadOk(s, step.t);
    QuietPc(s, Apply(s, step), step.t);
  }

  /** A lookup searches the hash. */
  lemma KeepsGetSearch(s: State, step: Step)
    requires Inv(s) && Enabled(s, step) && step.GetSearch?
    ensures Inv(Apply(s, step))
  {
    assert ThreadOk(s, step.t);
    QuietPc(s, Apply(s, step), step.t);
  }

  /** A lookup returns. */
  lemma KeepsGetReturn(s: State, step: Step)
    requires Inv(s) && Enabled(s, step) && step.GetReturn?
    ensures Inv(Apply(s, step))
  {
    assert ThreadOk(s, step.t);
    QuietPc(s, Apply(s, step), step.t);
  }

  /** A drop takes the cache mutex. */
  lemma KeepsDropTakeCache(s: State, step: Step)
    requires Inv(s) && Enabled(s, step) && step.DropTakeCache?
    ensures Inv(Apply(s, step))
  {
    assert ThreadOk(s, step.t);
    QuietPc(s, Apply(s, step), step.t);
  }

  /** A drop returns. */
  lemma KeepsDropReturn(s: State, step: Step)
    requires Inv(s) && Enabled(s, step) && step.DropReturn?
    ensures Inv(Apply(s, step))
  {
    assert ThreadOk(s, step.t);
    QuietPc(s, Apply(s, step), step.t);
  }

  /** A reclaim scan starts. */
  lemma KeepsReclaimBegin(s: State, step: Step)
    requires Inv(s) && Enabled(s, step) && step.ReclaimBegin?
    ensures Inv(Apply(s, step))
  {
    assert ThreadOk(s, step.t);
    QuietPc(s, Apply(s, step), step.t);
  }

  /** A reclaim scan ends. */
  lemma KeepsReclaimEnd(s: State, step: Step)
    requires Inv(s) && Enabled(s, step) && step.ReclaimEnd?
    ensures Inv(Apply(s, step))
  {
    assert ThreadOk(s, step.t);
    QuietPc(s, Apply(s, step), step.t);
  }

  /** A reclaim scan passes over a GOB whose lock is taken. */
  lemma KeepsReclaimBusy(s: State, step: Step)
    requires Inv(s) && Enabled(s, step) && step.ReclaimBusy?
    ensures Inv(Apply(s, step))
  {
    assert ThreadOk(s, step.t);
    QuietPc(s, Apply(s, step), step.t);
  }

  /** A lookup takes the lock of the GOB it found. */
  lemma KeepsGetLock(s: State, step: Step)
    requires Inv(s) && Enabled(s, step) && step.GetLock?
    ensures Inv(Apply(s, step))
  {
    assert ThreadOk(s, step.t);
    assert GobOk(s, s.pcs[step.t].g);
    QuietGob(s, Apply(s, step), step.t, s.pcs[step.t].g);
  }

  /** A lookup gives up on the GOB it found. */
  lemma KeepsGetAbandon(s: State, step: Step)
    requires Inv(s) && Enabled(s, step) && step.GetAbandon?
    ensures Inv(Apply(s, step))
  {
    assert ThreadOk(s, step.t);
    assert GobOk(s, s.pcs[step.t].g);
    QuietGob(s, Apply(s, step), step.t, s.pcs[step.t].g);
  }

  /** A client lets go of its GOB. */
  lemma KeepsUnlock(s: State, step: Step)
    requires Inv(s) && Enabled(s, step) && step.Unlock?
    ensures Inv(Apply(s, step))
  {
    assert ThreadOk(s, step.t);
    assert GobOk(s, s.pcs[step.t].g);
    QuietGob(s, Apply(s, step), step.t, s.pcs[step.t].g);
  }

  /** A client changes the marks of its GOB. */
  lemma KeepsMark(s: State, step: Step)
    requires Inv(s) && Enabled(s, step) && step.Mark?
    ensures Inv(Apply(s, step))
  {
    assert ThreadOk(s, step.t);
    assert GobOk(s, s.pcs[step.t].g);
    QuietGob(s, Apply(s, step), step.t, s.pcs[step.t].g);
  }

  /** A drop of a cached GOB gives up its lock, to take the cache mutex first. */
  lemma DropGivesUp(s: State, step: Step)
    requires Inv(s) && Enabled(s, step) && step.DropUnlock? && s.gobs[s.pcs[step.t].g].incache
    ensures Inv(Apply(s, step))
  {
    assert ThreadOk(s, step.t);
    assert GobOk(s, s.pcs[step.t].g);
    QuietGob(s, Apply(s, step), step.t, s.pcs[step.t].g);
  }

  /** A GOB that is not cached needs no drop. */
  lemma DropPasses(s: State, step: Step)
    requires Inv(s) && Enabled(s, step) && step.DropUnlock? && !s.gobs[s.pcs[step.t].g].incache
    ensures Inv(Apply(s, step))
  {
    assert ThreadOk(s, step.t);
    QuietPc(s, Apply(s, step), step.t);
  }

  lemma KeepsDropUnlock(s: State, step: Step)
    requires Inv(s) && Enabled(s, step) && step.DropUnlock?
    ensures Inv(Apply(s, step))
  {
    if s.gobs[s.pcs[step.t].g].incache { DropGivesUp(s, step); } else { DropPasses(s, step); }
  }

  lemma KeepsDropTakeGob(s: State, step: Step)
    requires Inv(s) && Enabled(s, step) && step.DropTakeGob?
    ensures Inv(Apply(s, step))
  {
    assert ThreadOk(s, step.t);
    assert GobOk(s, s.pcs[step.t].g);
    QuietGob(s, Apply(s, step), step.t, s.pcs[step.t].g);
  }

  lemma KeepsScrubUnlock(s: State, step: Step)
    requires Inv(s) && Enabled(s, step) && step.ScrubUnlock?
    ensures Inv(Apply(s, step))
  {
    assert ThreadOk(s, step.t);
    assert GobOk(s, s.pcs[step.t].g);
    QuietGob(s, Apply(s, step), step.t, s.pcs[step.t].g);
  }

  lemma KeepsReclaimKeep(s: State, step: Step)
    requires Inv(s) && Enabled(s, step) && step.ReclaimKeep?
    ensures Inv(Apply(s, step))
  {
    assert ThreadOk(s, step.t);
    assert GobOk(s, s.pcs[step.t].g);
    QuietGob(s, Apply(s, step), step.t, s.pcs[step.t].g);
  }

  lemma KeepsRelock(s: State, step: Step)
    requires Inv(s) && Enabled(s, step) && step.Relock?
    ensures Inv(Apply(s, step))
  {
    assert ThreadOk(s, step.t);
    assert GobOk(s, s.refs[step.r]);
    RefCounted(s.refs, step.r);
    QuietGob(s, Apply(s, step), step.t, s.refs[step.r]);
  }

  lemma KeepsClearFlags(s: State, step: Step)
    requires Inv(s) && Enabled(s, step) && step.ClearFlags?
    ensures Inv(Apply(s, step))
  {
    assert ThreadOk(s, step.t);
    assert GobOk(s, s.pcs[step.t].g);
    CorpseUnlocked(s, step.t);
    QuietGob(s, Apply(s, step), step.t, s.pcs[step.t].g);
  }

  lemma KeepsReclaimTry(s: State, step: Step)
    requires Inv(s) && Enabled(s, step) && step.ReclaimTry?
    ensures Inv(Apply(s, step))
  {
    assert ThreadOk(s, step.t);
    assert GobOk(s, s.pcs[step.t].cursor.value);
    QuietGob(s, Apply(s, step), step.t, s.pcs[step.t].cursor.value);
  }

  lemma KeepsGetPeek(s: State, step: Step)
    requires Inv(s) && Enabled(s, step) && step.GetTake? && s.pcs[step.t].flags.peek
    ensures Inv(Apply(s, step))
  {
    assert ThreadOk(s, step.t);
    assert GobOk(s, s.pcs[step.t].g);
    QuietPc(s, Apply(s, step), step.t);
  }

  /** The reference half of a successful lookup. */
  lemma Takes(s: State, s1: State, t: Tid, r: RefId)
    requires Inv(s) && t in s.pcs && s.pcs[t].Check? && s.pcs[t].g in s.gobs &&
      Usable(s.gobs[s.pcs[t].g], s.pcs[t].flags)
    requires r !in s.refs
    requires var g := s.pcs[t].g;
             s1 == SetGob(s, g, s.gobs[g].(refcnt := s.gobs[g].refcnt + 1)).(refs := s.refs[r := g])
    ensures Inv(s1)
  {
    var g := s.pcs[t].g;
    assert ThreadOk(s, t) && GobOk(s, g);
    AddRef(s.refs, r, g);
    RefsStep(s, s1, t, g);
  }

  lemma KeepsGetTake(s: State, step: Step)
    requires Inv(s) && Enabled(s, step) && step.GetTake? && !s.pcs[step.t].flags.peek
    ensures Inv(Apply(s, step))
  {
    var g := s.pcs[step.t].g;
    var s1 := SetGob(s, g, s.gobs[g].(refcnt := s.gobs[g].refcnt + 1)).(refs := s.refs[step.r := g]);
    Takes(s, s1, step.t, step.r);
    TakenOk(s, s1, step);
    TakenFront(s, s1, step);
    FrontStep(s1, Apply(s, step), step.t, g);
  }

  lemma TakenFront(s: State, s1: State, step: Step)
    requires Enabled(s, step) && step.GetTake? && !s.pcs[step.t].flags.peek && s.cacheLock == Some(step.t)
    requires var g := s.pcs[step.t].g;
             && s.gobs[g].lock == Some(step.t) && (s.gobs[g].dropper.None? || s.gobs[g].dropper == Some(step.t))
             && s1 == SetGob(s, g, s.gobs[g].(refcnt := s.gobs[g].refcnt + 1)).(refs := s.refs[step.r := g])
    ensures FrontAt(s1, Apply(s, step), step.t, s.pcs[step.t].g)
  {
  }

  /** The thread and the GOB after a successful lookup, from how they are once the reference is there. */
  lemma TakenOk(s: State, s1: State, step: Step)
    requires Inv(s1) && Enabled(s, step) && step.GetTake? && !s.pcs[step.t].flags.peek
    requires var g := s.pcs[step.t].g;
             s1 == SetGob(s, g, s.gobs[g].(refcnt := s.gobs[g].refcnt + 1)).(refs := s.refs[step.r := g])
    ensures var s', g := Apply(s, step), s.pcs[step.t].g;
            && step.t in s'.pcs && g in s'.gobs && ThreadOk(s', step.t) && GobOk(s', g)
            && s.cacheLock == Some(step.t) && s.gobs[g].lock == Some(step.t) && s.gobs[g].dropper.None?
  {
    assert ThreadOk(s1, step.t) && GobOk(s1, s.pcs[step.t].g);
  }

  lemma KeepsGetNew(s: State, step: Step)
    requires Inv(s) && Enabled(s, step) && step.GetNew?
    ensures Inv(Apply(s, step))
  {
    assert ThreadOk(s, step.t);
    if step.g in s.gobs { assert GobOk(s, step.g); }
    AddRef(s.refs, step.r, step.g);
    FreeListStep(s, Apply(s, step), step.t, step.g);
  }

  lemma KeepsGetAdd(s: State, step: Step)
    requires Inv(s) && Enabled(s, step) && step.GetAdd?
    ensures Inv(Apply(s, step))
  {
    var g := s.pcs[step.t].g;
    assert ThreadOk(s, step.t) && GobOk(s, g);
    FrontStep(s, Apply(s, step), step.t, g);
  }

  lemma KeepsIncref(s: State, step: Step)
    requires Inv(s) && Enabled(s, step) && step.Incref?
    ensures Inv(Apply(s, step))
  {
    var g := s.pcs[step.t].g;
    assert ThreadOk(s, step.t) && GobOk(s, g);
    AddRef(s.refs, step.r, g);
    RefsStep(s, Apply(s, step), step.t, g);
  }

  lemma KeepsChangeName(s: State, step: Step)
    requires Inv(s) && Enabled(s, step) && step.ChangeName?
    ensures Inv(Apply(s, step))
  {
    assert ThreadOk(s, step.t);
    QuietPc(s, Apply(s, step), step.t);
  }

  /** A listed GOB takes another name, and the hash slot of that name. */
  lemma RenameStep(s: State, s': State, t: Tid, g: GobId, n: Name)
    requires Inv(s) && t in s.pcs && t in s'.pcs && g in s.gobs && g in s.lru && s.cacheLock.None?
    requires s' ==
      SetGob(SetPc(s, t, s'.pcs[t]), g, s.gobs[g].(name := n)).(hash := (s.hash - {s.gobs[g].name})[n := g])
    requires s.pcs[t].HeldGob() == s'.pcs[t].HeldGob() && s.pcs[t].Tearing() == s'.pcs[t].Tearing()
    requires s.gobs[g].lock == Some(t) && ThreadOk(s', t)
    ensures Inv(s')
  {
    assert GobOk(s, g);
    assert GobOk(s', g);
    assert Moves(s, s', t, Some(g));
    Assemble(s, s', t, Some(g));
  }

  lemma KeepsRename(s: State, step: Step)
    requires Inv(s) && Enabled(s, step) && step.Rename?
    ensures Inv(Apply(s, step))
  {
    var g := s.pcs[step.t].g;
    assert ThreadOk(s, step.t) && GobOk(s, g);
    RenameStep(s, Apply(s, step), step.t, g, s.pcs[step.t].name);
  }

  lemma KeepsDecref(s: State, step: Step)
    requires Inv(s) && Enabled(s, step) && step.Decref?
    ensures Inv(Apply(s, step))
  {
    var g := s.pcs[step.t].g;
    assert ThreadOk(s, step.t) && GobOk(s, g);
    DropRef(s.refs, step.r);
    RefsStep(s, Apply(s, step), step.t, g);
  }

  lemma KeepsForceFree(s: State, step: Step)
    requires Inv(s) && Enabled(s, step) && step.ForceFree? && Exclusive(s, step)
    ensures Inv(Apply(s, step))
  {
    var g := s.pcs[step.t].g;
    assert ThreadOk(s, step.t) && GobOk(s, g);
    DropRef(s.refs, step.r);
    RefsStep(s, Apply(s, step), step.t, g);
  }

  lemma KeepsDropUnlink(s: State, step: Step)
    requires Inv(s) && Enabled(s, step) && step.DropUnlink?
    ensures Inv(Apply(s, step))
  {
    var g := s.pcs[step.t].g;
    assert ThreadOk(s, step.t) && GobOk(s, g);
    WithoutProperties(s.lru, g);
    UnlinkStep(s, Apply(s, step), step.t, g);
  }

  lemma KeepsPushFree(s: State, step: Step)
    requires Inv(s) && Enabled(s, step) && step.PushFree?
    ensures Inv(Apply(s, step))
  {
    var g := s.pcs[step.t].g;
    assert ThreadOk(s, step.t) && GobOk(s, g);
    BuriedOk(s, step);
    FreeListStep(s, Apply(s, step), step.t, g);
  }

  /** The thread and the GOB once that is on the free list. */
  lemma BuriedOk(s: State, step: Step)
    requires Enabled(s, step) && step.PushFree? && ThreadOk(s, step.t) && GobOk(s, s.pcs[step.t].g)
    ensures var s', g := Apply(s, step), s.pcs[step.t].g;
            step.t in s'.pcs && g in s'.gobs && ThreadOk(s', step.t) && GobOk(s', g)
  {
  }

  lemma KeepsReclaimDrop(s: State, step: Step)
    requires Inv(s) && Enabled(s, step) && step.ReclaimDrop?
    ensures Inv(Apply(s, step))
  {
    var g := s.pcs[step.t].g;
    assert ThreadOk(s, step.t) && GobOk(s, g);
    WithoutProperties(s.lru, g);
    UnlinkStep(s, Apply(s, step), step.t, g);
  }

  lemma KeepsTick(s: State, step: Step)
    requires Inv(s) && Enabled(s, step) && step.Tick?
    ensures Inv(Apply(s, step))
  {
    var s' := Apply(s, step);
    forall t | t in s'.pcs ensures ThreadOk(s', t) {
      assert ThreadOk(s, t);
    }
    forall g | g in s'.gobs ensures GobOk(s', g) {
      assert GobOk(s, g);
    }
  }

  /** The steps of a lookup. */
  predicate Looks(step: Step) {
    step.GetBegin? || step.GetSearch? || step.GetLock? || step.GetAbandon? || step.GetTake? || step.GetNew? ||
    step.GetNewFail? || step.GetAdd? || step.GetReturn?
  }

  /** The steps of a lookup, of a client and of the clock; the rest free GOBs. */
  predicate FreesNothing(step: Step) {
    Looks(step) || step.Unlock? || step.Relock? || step.Incref? || step.Mark? || step.ChangeName? || step.Rename? ||
    step.Tick?
  }
}
