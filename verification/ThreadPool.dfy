/**
 * The thread pool as an interleaving of submitting clients and worker threads.
 *
 * The pool mutex is `mutex`; a worker in `Waiting` is inside ep_thr_cond_wait and is
 * `signalled` once a signal, or a spurious wakeup, has released it.  Clients pass
 * through ep_thr_pool_run step by step, so a worker may run between the moment a job
 * is queued and the moment the condition is signalled only if the mutex allows it.
 */
module ThreadPool {
  import opened Collections

  type Tid = nat
  type RecId = nat    // the address of a work record

  datatype Item = Item(rec: RecId, job: nat)

  datatype Worker =
    | Entering
    | Looking
    | Waiting(signalled: bool)
    | Taken(item: Item)
    | Running(item: Item)
    | Freeing(rec: RecId)
  {
    predicate HoldsMutex() { Looking? || Taken? }
    /** Counted in free_threads. */
    predicate Idle() { Looking? || Waiting? }
    /** Asleep with nothing to wake it. */
    predicate Asleep() { Waiting? && !signalled }
    /** On its way to look at the queue. */
    predicate Heading() { Entering? || Looking? || (Waiting? && signalled) }
    function Record(): Option<RecId> {
      if Taken? || Running? then Some(item.rec) else if Freeing? then Some(rec) else None
    }
    function Job(): Option<nat> {
      if Taken? || Running? then Some(item.job) else None
    }
  }

  datatype Client =
    | Outside
    | Have(rec: RecId)
    | Locked(rec: RecId)
    | Inserted
    | Unlocking
  {
    predicate HoldsMutex() { Locked? || Inserted? || Unlocking? }
    function Record(): Option<RecId> {
      if Have? || Locked? then Some(rec) else None
    }
  }

  datatype Owner = Nobody | ByClient(c: Tid) | ByWorker(w: Tid)

  /** Auxiliary: where a work record is, and what became of a job. */
  datatype Place = Free | Queued | WithClient(c: Tid) | WithWorker(w: Tid)
  datatype JobPlace = InQueue | Held(w: Tid) | Ran

  datatype State = State(
    queue: seq<Item>,
    free: seq<RecId>,
    workers: map<Tid, Worker>,
    clients: map<Tid, Client>,
    mutex: Owner,
    freeThreads: int,
    numThreads: int,
    minThreads: nat,
    maxThreads: nat,
    place: map<RecId, Place>,
    jobs: seq<JobPlace>,    // one entry per job submitted
    taken: nat)             // how many jobs have been dequeued

  datatype Step =
    | TworkNew(c: Tid, rec: RecId)
    | ClientLock(c: Tid)
    | Enqueue(c: Tid)
    | Grow(c: Tid, w: Tid)
    | GrowFails(c: Tid)
    | Signal(c: Tid, woken: set<Tid>)
    | ClientUnlock(c: Tid)
    | WorkerLock(w: Tid)
    | Sleep(w: Tid)
    | Spurious(w: Tid)
    | Wake(w: Tid)
    | Take(w: Tid)
    | WorkerUnlock(w: Tid)
    | Run(w: Tid)
    | TworkFree(w: Tid)
  {
    predicate ByClient() {
      TworkNew? || ClientLock? || Enqueue? || Grow? || GrowFails? || Signal? || ClientUnlock?
    }
  }

  // ---------- the transition system ----------

  /** The test at the end of ep_thr_pool_run: start a thread rather than signal one. */
  predicate WantsThread(s: State) {
    s.freeThreads == 0 && s.numThreads < s.maxThreads
  }

  ghost function Sleepers(s: State): set<Tid> {
    set w | w in s.workers && s.workers[w].Asleep()
  }

  ghost predicate ClientEnabled(s: State, step: Step)
    requires step.ByClient()
  {
    step.c in s.clients && var pc := s.clients[step.c];
    match step
    case TworkNew(_, rec) => pc.Outside? && if s.free == [] then rec !in s.place else rec == s.free[0]
    case ClientLock(_) => pc.Have? && s.mutex.Nobody?
    case Enqueue(_) => pc.Locked?
    case Grow(_, w) => pc.Inserted? && WantsThread(s) && w !in s.workers
    case GrowFails(_) => pc.Inserted? && WantsThread(s)
    case Signal(_, woken) =>
      pc.Inserted? && !WantsThread(s) && woken <= Sleepers(s) && (Sleepers(s) != {} ==> woken != {})
    case ClientUnlock(_) => pc.Unlocking?
  }

  predicate WorkerEnabled(s: State, step: Step)
    requires !step.ByClient()
  {
    step.w in s.workers && var pc := s.workers[step.w];
    match step
    case WorkerLock(_) => pc.Entering? && s.mutex.Nobody?
    case Sleep(_) => pc.Looking? && s.queue == []
    case Spurious(_) => pc.Asleep()
    case Wake(_) => pc.Waiting? && pc.signalled && s.mutex.Nobody?
    case Take(_) => pc.Looking? && s.queue != [] && s.taken < |s.jobs|
    case WorkerUnlock(_) => pc.Taken?
    case Run(_) => pc.Running? && pc.item.job < |s.jobs|
    case TworkFree(_) => pc.Freeing?
  }

  ghost predicate Enabled(s: State, step: Step) {
    if step.ByClient() then ClientEnabled(s, step) else WorkerEnabled(s, step)
  }

  function SetClient(s: State, c: Tid, pc: Client): State {
    s.(clients := s.clients[c := pc])
  }

  function SetWorker(s: State, w: Tid, pc: Worker): State {
    s.(workers := s.workers[w := pc])
  }

  ghost function ClientApply(s: State, step: Step): State
    requires step.ByClient() && ClientEnabled(s, step)
  {
    var c, pc := step.c, s.clients[step.c];
    match step
    case TworkNew(_, rec) =>
      SetClient(s, c, Have(rec)).(free := if s.free == [] then [] else s.free[1..],
        place := s.place[rec := WithClient(c)])
    case ClientLock(_) => SetClient(s, c, Locked(pc.rec)).(mutex := Owner.ByClient(c))
    case Enqueue(_) =>
      SetClient(s, c, Inserted).(queue := s.queue + [Item(pc.rec, |s.jobs|)], jobs := s.jobs + [InQueue],
        place := s.place[pc.rec := Queued])
    case Grow(_, w) => SetWorker(SetClient(s, c, Unlocking), w, Entering).(numThreads := s.numThreads + 1)
    case GrowFails(_) => SetClient(s, c, Unlocking)
    case Signal(_, woken) =>
      SetClient(s, c, Unlocking).(workers := map w | w in s.workers ::
        if w in woken then Waiting(true) else s.workers[w])
    case ClientUnlock(_) => SetClient(s, c, Outside).(mutex := Nobody)
  }

  function WorkerApply(s: State, step: Step): State
    requires !step.ByClient() && WorkerEnabled(s, step)
  {
    var w, pc := step.w, s.workers[step.w];
    match step
    case WorkerLock(_) => SetWorker(s, w, Looking).(mutex := ByWorker(w), freeThreads := s.freeThreads + 1)
    case Sleep(_) => SetWorker(s, w, Waiting(false)).(mutex := Nobody)
    case Spurious(_) => SetWorker(s, w, Waiting(true))
    case Wake(_) => SetWorker(s, w, Looking).(mutex := ByWorker(w))
    case Take(_) =>
      var item := s.queue[0];
      SetWorker(s, w, Taken(item)).(queue := s.queue[1..], freeThreads := s.freeThreads - 1, taken := s.taken + 1,
        place := s.place[item.rec := WithWorker(w)], jobs := s.jobs[s.taken := Held(w)])
    case WorkerUnlock(_) => SetWorker(s, w, Running(pc.item)).(mutex := Nobody)
    case Run(_) => SetWorker(s, w, Freeing(pc.item.rec)).(jobs := s.jobs[pc.item.job := Ran])
    case TworkFree(_) => SetWorker(s, w, Entering).(free := [pc.rec] + s.free, place := s.place[pc.rec := Free])
  }

  ghost function Apply(s: State, step: Step): State
    requires Enabled(s, step)
  {
    if step.ByClient() then ClientApply(s, step) else WorkerApply(s, step)
  }

  /** After ep_thr_pool_init: no work, at most `min_threads` workers about to start. */
  ghost predicate Init(s: State) {
    && s.queue == [] && s.free == [] && s.place == map[] && s.jobs == [] && s.taken == 0 && s.mutex.Nobody?
    && s.freeThreads == 0 && s.numThreads == |s.workers| <= s.minThreads
    && (forall w :: w in s.workers ==> s.workers[w].Entering?)
    && (forall c :: c in s.clients ==> s.clients[c].Outside?)
  }

  // ---------- who holds what ----------

  ghost predicate WorkerOk(s: State, w: Tid)
    requires w in s.workers
  {
    var pc := s.workers[w];
    && (s.mutex == ByWorker(w) <==> pc.HoldsMutex())
    && (pc.Record().Some? ==> pc.Record().value in s.place && s.place[pc.Record().value] == WithWorker(w))
    && (pc.Job().Some? ==> pc.Job().value < |s.jobs| && s.jobs[pc.Job().value] == Held(w))
  }

  ghost predicate ClientOk(s: State, c: Tid)
    requires c in s.clients
  {
    var pc := s.clients[c];
    && (s.mutex == Owner.ByClient(c) <==> pc.HoldsMutex())
    && (pc.Record().Some? ==> pc.Record().value in s.place && s.place[pc.Record().value] == WithClient(c))
  }

  /** A record is where `place` says, and nowhere else. */
  ghost predicate RecordOk(s: State, r: RecId)
    requires r in s.place
  {
    var p := s.place[r];
    && (p.Free? <==> r in s.free)
    && (p.Queued? <==> exists i :: 0 <= i < |s.queue| && s.queue[i].rec == r)
    && (p.WithClient? ==> p.c in s.clients && s.clients[p.c].Record() == Some(r))
    && (p.WithWorker? ==> p.w in s.workers && s.workers[p.w].Record() == Some(r))
  }

  /** The queue holds the jobs not yet taken, in the order of submission. */
  ghost predicate JobOk(s: State, j: nat)
    requires j < |s.jobs|
  {
    var p := s.jobs[j];
    && (p.InQueue? <==> s.taken <= j)
    && (p.Held? ==> p.w in s.workers && s.workers[p.w].Job() == Some(j))
  }

  ghost predicate QueueOk(s: State) {
    && s.taken <= |s.jobs| && |s.queue| == |s.jobs| - s.taken
    && (forall i :: 0 <= i < |s.queue| ==> s.queue[i].job == s.taken + i && s.queue[i].rec in s.place)
    && (forall i, j :: 0 <= i < j < |s.queue| ==> s.queue[i].rec != s.queue[j].rec)
    && NoDup(s.free) && (forall r :: r in s.free ==> r in s.place)
    && (s.mutex.ByWorker? ==> s.mutex.w in s.workers) && (s.mutex.ByClient? ==> s.mutex.c in s.clients)
  }

  ghost predicate Accounted(s: State) {
    && QueueOk(s)
    && (forall w {:trigger WorkerOk(s, w)} :: w in s.workers ==> WorkerOk(s, w))
    && (forall c {:trigger ClientOk(s, c)} :: c in s.clients ==> ClientOk(s, c))
    && (forall r {:trigger RecordOk(s, r)} :: r in s.place ==> RecordOk(s, r))
    && (forall j {:trigger JobOk(s, j)} :: 0 <= j < |s.jobs| ==> JobOk(s, j))
  }

  // ---------- every step keeps the accounts ----------

  /** A client takes and releases the mutex. */
  lemma AccountClient(s: State, step: Step)
    requires Accounted(s) && Enabled(s, step) && (step.ClientLock? || step.ClientUnlock?)
    ensures Accounted(Apply(s, step))
  {
    var s' := Apply(s, step);
    assert ClientOk(s, step.c);
    forall w | w in s'.workers ensures WorkerOk(s', w) { if w in s.workers { assert WorkerOk(s, w); } }
    forall c | c in s'.clients ensures ClientOk(s', c) { assert ClientOk(s, c); }
    forall r | r in s'.place ensures RecordOk(s', r) { if r in s.place { assert RecordOk(s, r); } }
    forall j | 0 <= j < |s'.jobs| ensures JobOk(s', j) { if j < |s.jobs| { assert JobOk(s, j); } }
  }

  /** A client wakes or adds a thread. */
  lemma AccountGrow(s: State, step: Step)
    requires Accounted(s) && Enabled(s, step) && (step.GrowFails? || step.Grow? || step.Signal?)
    ensures Accounted(Apply(s, step))
  {
    var s' := Apply(s, step);
    assert ClientOk(s, step.c);
    forall w | w in s'.workers ensures WorkerOk(s', w) { if w in s.workers { assert WorkerOk(s, w); } }
    forall c | c in s'.clients ensures ClientOk(s', c) { assert ClientOk(s, c); }
    forall r | r in s'.place ensures RecordOk(s', r) { if r in s.place { assert RecordOk(s, r); } }
    forall j | 0 <= j < |s'.jobs| ensures JobOk(s', j) { if j < |s.jobs| { assert JobOk(s, j); } }
  }

  /** A client gets a work record. */
  lemma AccountRecord(s: State, step: Step)
    requires Accounted(s) && Enabled(s, step) && step.TworkNew?
    ensures Accounted(Apply(s, step))
  {
    var s' := Apply(s, step);
    assert ClientOk(s, step.c);
    if step.rec in s.place { assert RecordOk(s, step.rec); }
    forall w | w in s'.workers ensures WorkerOk(s', w) { if w in s.workers { assert WorkerOk(s, w); } }
    forall c | c in s'.clients ensures ClientOk(s', c) { assert ClientOk(s, c); }
    forall r | r in s'.place ensures RecordOk(s', r) { if r in s.place { assert RecordOk(s, r); } }
    forall j | 0 <= j < |s'.jobs| ensures JobOk(s', j) { if j < |s.jobs| { assert JobOk(s, j); } }
  }

  /** A client queues its work record. */
  lemma AccountEnqueue(s: State, step: Step)
    requires Accounted(s) && Enabled(s, step) && step.Enqueue?
    ensures Accounted(Apply(s, step))
  {
    var s' := Apply(s, step);
    assert ClientOk(s, step.c) && RecordOk(s, s.clients[step.c].rec);
    assert s'.queue[|s.queue|].rec == s.clients[step.c].rec;
    assert forall i :: 0 <= i < |s.queue| ==> s'.queue[i] == s.queue[i];
    forall w | w in s'.workers ensures WorkerOk(s', w) { if w in s.workers { assert WorkerOk(s, w); } }
    forall c | c in s'.clients ensures ClientOk(s', c) { assert ClientOk(s, c); }
    forall r | r in s'.place ensures RecordOk(s', r) { if r in s.place { assert RecordOk(s, r); } }
    forall j | 0 <= j < |s'.jobs| ensures JobOk(s', j) { if j < |s.jobs| { assert JobOk(s, j); } }
  }

  /** A thread takes and releases the mutex. */
  lemma AccountWorker(s: State, step: Step)
    requires Accounted(s) && Enabled(s, step) && (step.WorkerLock? || step.WorkerUnlock?)
    ensures Accounted(Apply(s, step))
  {
    var s' := Apply(s, step);
    assert WorkerOk(s, step.w);
    forall w | w in s'.workers ensures WorkerOk(s', w) { if w in s.workers { assert WorkerOk(s, w); } }
    forall c | c in s'.clients ensures ClientOk(s', c) { assert ClientOk(s, c); }
    forall r | r in s'.place ensures RecordOk(s', r) { if r in s.place { assert RecordOk(s, r); } }
    forall j | 0 <= j < |s'.jobs| ensures JobOk(s', j) { if j < |s.jobs| { assert JobOk(s, j); } }
  }

  /** A thread goes to sleep and wakes up. */
  lemma AccountSleep(s: State, step: Step)
    requires Accounted(s) && Enabled(s, step) && (step.Sleep? || step.Spurious? || step.Wake?)
    ensures Accounted(Apply(s, step))
  {
    var s' := Apply(s, step);
    assert WorkerOk(s, step.w);
    forall w | w in s'.workers ensures WorkerOk(s', w) { if w in s.workers { assert WorkerOk(s, w); } }
    forall c | c in s'.clients ensures ClientOk(s', c) { assert ClientOk(s, c); }
    forall r | r in s'.place ensures RecordOk(s', r) { if r in s.place { assert RecordOk(s, r); } }
    forall j | 0 <= j < |s'.jobs| ensures JobOk(s', j) { if j < |s.jobs| { assert JobOk(s, j); } }
  }

  /** A thread takes the first job from the queue. */
  lemma AccountTake(s: State, step: Step)
    requires Accounted(s) && Enabled(s, step) && step.Take?
    ensures Accounted(Apply(s, step))
  {
    var s' := Apply(s, step);
    assert WorkerOk(s, step.w);
    assert RecordOk(s, s.queue[0].rec) && JobOk(s, s.taken);
    assert forall i :: 0 < i < |s.queue| ==> s.queue[i] == s'.queue[i - 1];
    forall w | w in s'.workers ensures WorkerOk(s', w) { if w in s.workers { assert WorkerOk(s, w); } }
    forall c | c in s'.clients ensures ClientOk(s', c) { assert ClientOk(s, c); }
    forall r | r in s'.place ensures RecordOk(s', r) { if r in s.place { assert RecordOk(s, r); } }
    forall j | 0 <= j < |s'.jobs| ensures JobOk(s', j) { if j < |s.jobs| { assert JobOk(s, j); } }
  }

  /** A thread runs its job and frees the record. */
  lemma AccountFinish(s: State, step: Step)
    requires Accounted(s) && Enabled(s, step) && (step.Run? || step.TworkFree?)
    ensures Accounted(Apply(s, step))
  {
    var s' := Apply(s, step);
    assert WorkerOk(s, step.w);
    if step.TworkFree? { assert RecordOk(s, s.workers[step.w].rec); }
    forall w | w in s'.workers ensures WorkerOk(s', w) { if w in s.workers { assert WorkerOk(s, w); } }
    forall c | c in s'.clients ensures ClientOk(s', c) { assert ClientOk(s, c); }
    forall r | r in s'.place ensures RecordOk(s', r) { if r in s.place { assert RecordOk(s, r); } }
    forall j | 0 <= j < |s'.jobs| ensures JobOk(s', j) { if j < |s.jobs| { assert JobOk(s, j); } }
  }

  lemma StepKeepsAccounts(s: State, step: Step)
    requires Accounted(s) && Enabled(s, step)
    ensures Accounted(Apply(s, step))
  {
    match step
    case TworkNew(_, _) => AccountRecord(s, step);
    case ClientLock(_) => AccountClient(s, step);
    case Enqueue(_) => AccountEnqueue(s, step);
    case Grow(_, _) => AccountGrow(s, step);
    case GrowFails(_) => AccountGrow(s, step);
    case Signal(_, _) => AccountGrow(s, step);
    case ClientUnlock(_) => AccountClient(s, step);
    case WorkerLock(_) => AccountWorker(s, step);
    case Sleep(_) => AccountSleep(s, step);
    case Spurious(_) => AccountSleep(s, step);
    case Wake(_) => AccountSleep(s, step);
    case Take(_) => AccountTake(s, step);
    case WorkerUnlock(_) => AccountWorker(s, step);
    case Run(_) => AccountFinish(s, step);
    case TworkFree(_) => AccountFinish(s, step);
  }

  // ---------- counting threads ----------

  predicate IsIdle(x: Worker) { x.Idle() }
  predicate IsHeading(x: Worker) { x.Heading() }

  ghost function Those(ws: map<Tid, Worker>, p: Worker -> bool): set<Tid> {
    set w | w in ws && p(ws[w])
  }

  lemma Moved(ws: map<Tid, Worker>, w: Tid, pc: Worker, p: Worker -> bool)
    ensures |Those(ws[w := pc], p)| ==
      |Those(ws, p)| - (if w in ws && p(ws[w]) then 1 else 0) + (if p(pc) then 1 else 0)
  {
    forall u | u != w ensures u in Those(ws, p) <==> u in Those(ws[w := pc], p) { NotMoved(ws, w, pc, p, u); }
    SameBut(Those(ws, p), Those(ws[w := pc], p), w);
    LeftOut(Those(ws, p), w);
    LeftOut(Those(ws[w := pc], p), w);
  }

  lemma NotMoved(ws: map<Tid, Worker>, w: Tid, pc: Worker, p: Worker -> bool, u: Tid)
    requires u != w
    ensures u in Those(ws, p) <==> u in Those(ws[w := pc], p)
  {
  }

  lemma SameBut(a: set<Tid>, b: set<Tid>, w: Tid)
    requires forall u :: u != w ==> (u in a <==> u in b)
    ensures a - {w} == b - {w}
  {
  }

  lemma LeftOut(a: set<Tid>, w: Tid)
    ensures |a - {w}| == |a| - (if w in a then 1 else 0)
  {
    if w in a { assert a == (a - {w}) + {w}; } else { assert a == a - {w}; }
  }

  /** A client has queued a job and not yet decided whom to wake. */
  predicate Inserting(s: State) {
    s.mutex.ByClient? && s.mutex.c in s.clients && s.clients[s.mutex.c].Inserted?
  }

  ghost predicate Counted(s: State) {
    && s.freeThreads == |Those(s.workers, IsIdle)|
    && s.numThreads == |s.workers|
    && s.numThreads <= (if s.minThreads > s.maxThreads then s.minThreads else s.maxThreads)
  }

  /** While any thread sleeps unsignalled, every queued job has a thread of its own on the way. */
  ghost predicate Wakeful(s: State) {
    Sleepers(s) != {} ==> |s.queue| <= |Those(s.workers, IsHeading)| + (if Inserting(s) then 1 else 0)
  }

  /** Queued work has at least one thread to run it. */
  ghost predicate Staffed(s: State) {
    s.queue != [] && !Inserting(s) ==> s.workers != map[]
  }

  ghost predicate Inv(s: State) {
    Accounted(s) && Counted(s) && Wakeful(s) && Staffed(s)
  }

  lemma NoIdleNoSleepers(s: State)
    requires Counted(s) && s.freeThreads == 0
    ensures Sleepers(s) == {}
  {
    assert Sleepers(s) <= Those(s.workers, IsIdle);
  }

  lemma WorkerCounts(s: State, step: Step)
    requires Counted(s) && Enabled(s, step) && !step.ByClient()
    ensures Counted(Apply(s, step))
  {
    var s' := Apply(s, step);
    Moved(s.workers, step.w, s'.workers[step.w], IsIdle);
    assert s'.workers.Keys == s.workers.Keys;
  }

  lemma WorkerWakes(s: State, step: Step)
    requires Inv(s) && Enabled(s, step) && !step.ByClient()
    ensures Wakeful(Apply(s, step)) && Staffed(Apply(s, step))
  {
    var s' := Apply(s, step);
    assert WorkerOk(s, step.w);
    Moved(s.workers, step.w, s'.workers[step.w], IsHeading);
    if !step.Sleep? {
      assert Sleepers(s') <= Sleepers(s);
    }
  }

  lemma SignalCounts(s: State, step: Step)
    requires Counted(s) && Enabled(s, step) && step.Signal?
    ensures Counted(Apply(s, step))
  {
    var s' := Apply(s, step);
    assert Those(s'.workers, IsIdle) == Those(s.workers, IsIdle);
    assert s'.workers.Keys == s.workers.Keys;
  }

  lemma SignalWakes(s: State, step: Step)
    requires Inv(s) && Enabled(s, step) && step.Signal? && s.maxThreads >= 1
    ensures var s' := Apply(s, step); Wakeful(s') && Staffed(s')
  {
    var s', woken := Apply(s, step), step.woken;
    assert ClientOk(s, step.c);
    assert Those(s'.workers, IsHeading) == Those(s.workers, IsHeading) + woken;
    assert s'.workers.Keys == s.workers.Keys;
    assert Sleepers(s') == Sleepers(s) - woken;
    assert Those(s.workers, IsIdle) <= s.workers.Keys;
  }

  lemma OneMore(ws: map<Tid, Worker>, w: Tid, pc: Worker)
    requires w !in ws
    ensures |ws[w := pc]| == |ws| + 1
  {
    assert ws[w := pc].Keys == ws.Keys + {w};
  }

  lemma GrowCounts(s: State, step: Step)
    requires Counted(s) && Enabled(s, step) && step.Grow?
    ensures Counted(Apply(s, step))
  {
    Moved(s.workers, step.w, Entering, IsIdle);
    OneMore(s.workers, step.w, Entering);
  }

  lemma GrowWakes(s: State, step: Step)
    requires Inv(s) && Enabled(s, step) && step.Grow?
    ensures var s' := Apply(s, step); Wakeful(s') && Staffed(s')
  {
    var s' := Apply(s, step);
    NoIdleNoSleepers(s);
    assert step.w in s'.workers;
    assert Sleepers(s') == {};
  }

  lemma GrowFailsWakes(s: State, step: Step)
    requires Inv(s) && Enabled(s, step) && step.GrowFails? && s.workers != map[]
    ensures var s' := Apply(s, step); Wakeful(s') && Staffed(s')
  {
    assert ClientOk(s, step.c);
    NoIdleNoSleepers(s);
    assert Sleepers(Apply(s, step)) == {};
  }

  lemma ClientKeeps(s: State, step: Step)
    requires Inv(s) && Enabled(s, step) && (step.TworkNew? || step.ClientLock? || step.Enqueue? || step.ClientUnlock?)
    ensures var s' := Apply(s, step); Wakeful(s') && Staffed(s')
  {
    var s' := Apply(s, step);
    assert ClientOk(s, step.c);
    assert s'.workers == s.workers && Sleepers(s') == Sleepers(s);
    if s.mutex.ByClient? { assert ClientOk(s, s.mutex.c); }
  }

  /** Every step keeps the two counters right. */
  lemma StepKeepsCounts(s: State, step: Step)
    requires Counted(s) && Enabled(s, step)
    ensures Counted(Apply(s, step)) && Apply(s, step).maxThreads == s.maxThreads
  {
    if !step.ByClient() {
      WorkerCounts(s, step);
    } else if step.Signal? {
      SignalCounts(s, step);
    } else if step.Grow? {
      GrowCounts(s, step);
    }
  }

  /**
   * With a job queued, a client starts a thread if none is free and fewer than the maximum
   * exist, and otherwise wakes one.
   */
  lemma StartsExactly(s: State, c: Tid, w: Tid)
    requires Counted(s) && c in s.clients && s.clients[c].Inserted? && w !in s.workers
    ensures Enabled(s, Grow(c, w)) <==> Those(s.workers, IsIdle) == {} && |s.workers| < s.maxThreads
    ensures Enabled(s, GrowFails(c)) <==> Those(s.workers, IsIdle) == {} && |s.workers| < s.maxThreads
    ensures Enabled(s, Signal(c, Sleepers(s))) <==> Those(s.workers, IsIdle) != {} || |s.workers| >= s.maxThreads
  {
  }

  /** A thread can be created whenever there is none yet. */
  ghost predicate CreatesThreads(s: State, step: Step) {
    step.GrowFails? ==> s.workers != map[]
  }

  lemma StepKeepsInv(s: State, step: Step)
    requires Inv(s) && Enabled(s, step) && s.maxThreads >= 1 && CreatesThreads(s, step)
    ensures Inv(Apply(s, step)) && Apply(s, step).maxThreads == s.maxThreads
  {
    StepKeepsAccounts(s, step);
    StepKeepsCounts(s, step);
    if !step.ByClient() {
      WorkerWakes(s, step);
    } else if step.Signal? {
      SignalWakes(s, step);
    } else if step.Grow? {
      GrowWakes(s, step);
    } else if step.GrowFails? {
      GrowFailsWakes(s, step);
    } else {
      ClientKeeps(s, step);
    }
  }

  // ---------- runs ----------

  ghost predicate Follows(states: seq<State>, steps: seq<Step>, i: nat)
    requires i < |steps| && |states| == |steps| + 1
  {
    Enabled(states[i], steps[i]) && states[i + 1] == Apply(states[i], steps[i])
  }

  ghost predicate IsRun(states: seq<State>, steps: seq<Step>) {
    && |states| == |steps| + 1 && Init(states[0])
    && forall i {:trigger Follows(states, steps, i)} :: 0 <= i < |steps| ==> Follows(states, steps, i)
  }

  ghost predicate ThreadsCreated(states: seq<State>, steps: seq<Step>)
    requires IsRun(states, steps)
  {
    forall i {:trigger Follows(states, steps, i)} :: 0 <= i < |steps| ==>
      Follows(states, steps, i) && CreatesThreads(states[i], steps[i])
  }

  lemma InitInv(s: State)
    requires Init(s)
    ensures Inv(s)
  {
    assert Those(s.workers, IsIdle) == {};
    forall w | w in s.workers ensures WorkerOk(s, w) { }
    forall c | c in s.clients ensures ClientOk(s, c) { }
  }

  lemma {:induction false} RunAccounted(states: seq<State>, steps: seq<Step>, i: nat)
    requires IsRun(states, steps) && i < |states|
    ensures Accounted(states[i])
  {
    if i == 0 {
      InitInv(states[0]);
    } else {
      RunAccounted(states, steps, i - 1);
      assert Follows(states, steps, i - 1);
      StepKeepsAccounts(states[i - 1], steps[i - 1]);
    }
  }

  lemma {:induction false} RunKeepsInv(states: seq<State>, steps: seq<Step>, i: nat)
    requires IsRun(states, steps) && ThreadsCreated(states, steps) && states[0].maxThreads >= 1 && i < |states|
    ensures Inv(states[i]) && states[i].maxThreads == states[0].maxThreads
  {
    if i == 0 {
      InitInv(states[0]);
    } else {
      RunKeepsInv(states, steps, i - 1);
      assert Follows(states, steps, i - 1);
      StepKeepsInv(states[i - 1], steps[i - 1]);
    }
  }

  /**
   * No wakeup is lost: outside the moment between queuing a job and waking somebody, while a
   * thread sleeps unsignalled there are at least as many threads on their way to the queue as
   * jobs in it, and whenever a job is queued some thread is not asleep.
   */
  lemma NoLostWakeup(states: seq<State>, steps: seq<Step>, i: nat)
    requires IsRun(states, steps) && ThreadsCreated(states, steps) && states[0].maxThreads >= 1 && i < |states|
    requires !Inserting(states[i])
    ensures Sleepers(states[i]) != {} ==> |states[i].queue| <= |Those(states[i].workers, IsHeading)|
    ensures states[i].queue != [] ==> exists w :: w in states[i].workers && !states[i].workers[w].Asleep()
  {
    RunKeepsInv(states, steps, i);
    var s := states[i];
    if s.queue != [] {
      var w :| w in s.workers;
      if s.workers[w].Asleep() {
        assert w in Sleepers(s);
        var u :| u in Those(s.workers, IsHeading);
        assert !s.workers[u].Asleep();
      }
    }
  }

  /** free_threads counts the threads between its increment and its decrement, and the pool stays within its bound. */
  lemma {:induction false} ThreadCounts(states: seq<State>, steps: seq<Step>, i: nat)
    requires IsRun(states, steps) && i < |states|
    ensures Counted(states[i]) && states[i].maxThreads == states[0].maxThreads
  {
    if i == 0 {
      InitInv(states[0]);
    } else {
      ThreadCounts(states, steps, i - 1);
      assert Follows(states, steps, i - 1);
      StepKeepsCounts(states[i - 1], steps[i - 1]);
    }
  }

  /** In every run a client wakes a thread only when one is free or no more are allowed, and else starts one. */
  lemma StartsWhenNoneFree(states: seq<State>, steps: seq<Step>, i: nat)
    requires IsRun(states, steps) && i < |steps|
    ensures steps[i].Signal? ==>
      Those(states[i].workers, IsIdle) != {} || |states[i].workers| >= states[0].maxThreads
    ensures steps[i].Grow? || steps[i].GrowFails? ==>
      Those(states[i].workers, IsIdle) == {} && |states[i].workers| < states[0].maxThreads
    ensures steps[i].Grow? ==> |states[i + 1].workers| == |states[i].workers| + 1
  {
    ThreadCounts(states, steps, i);
    assert Follows(states, steps, i);
    if steps[i].Grow? { OneMore(states[i].workers, steps[i].w, Entering); }
  }

  /** Work is dequeued in the order of submission. */
  lemma TakenInOrder(states: seq<State>, steps: seq<Step>, i: nat)
    requires IsRun(states, steps) && i < |steps| && steps[i].Take?
    ensures states[i].queue != [] && states[i].queue[0].job == states[i].taken
    ensures var w := steps[i].w; w in states[i + 1].workers && states[i + 1].workers[w] == Taken(states[i].queue[0])
    ensures states[i + 1].taken == states[i].taken + 1
  {
    RunAccounted(states, steps, i);
    assert Follows(states, steps, i);
  }

  /** A job about to be run is held by exactly the thread that runs it, and has not run. */
  lemma RunsHeldJob(states: seq<State>, steps: seq<Step>, i: nat)
    requires IsRun(states, steps) && i < |steps| && steps[i].Run?
    ensures var w := steps[i].w; w in states[i].workers && states[i].workers[w].Running?
    ensures var w := steps[i].w; var j := states[i].workers[w].item.job;
      j < |states[i].jobs| && states[i].jobs[j] == Held(w) && j < |states[i + 1].jobs| && states[i + 1].jobs[j].Ran?
  {
    RunAccounted(states, steps, i);
    assert Follows(states, steps, i);
    assert WorkerOk(states[i], steps[i].w);
  }

  /** A job that has run never becomes anything else, so it is never run again. */
  lemma {:induction false} RanStays(states: seq<State>, steps: seq<Step>, i: nat, k: nat, j: nat)
    requires IsRun(states, steps) && i <= k < |states| && j < |states[i].jobs| && states[i].jobs[j].Ran?
    ensures j < |states[k].jobs| && states[k].jobs[j].Ran?
    decreases k - i
  {
    if i < k {
      RunAccounted(states, steps, i);
      assert Follows(states, steps, i);
      assert JobOk(states[i], j);
      RanStays(states, steps, i + 1, k, j);
    }
  }

  /** Two executions in a run are executions of different jobs. */
  lemma RunsAtMostOnce(states: seq<State>, steps: seq<Step>, i: nat, k: nat)
    requires IsRun(states, steps) && i < k < |steps| && steps[i].Run? && steps[k].Run?
    ensures var w, u := steps[i].w, steps[k].w;
      && w in states[i].workers && states[i].workers[w].Running?
      && u in states[k].workers && states[k].workers[u].Running?
      && states[i].workers[w].item.job != states[k].workers[u].item.job
  {
    RunsHeldJob(states, steps, i);
    RunsHeldJob(states, steps, k);
    RanStays(states, steps, i + 1, k, states[i].workers[steps[i].w].item.job);
  }

  /** Every work record is in exactly one of the free list, the queue and one thread's hands. */
  lemma RecordsInOnePlace(states: seq<State>, steps: seq<Step>, i: nat, r: RecId)
    requires IsRun(states, steps) && i < |states| && r in states[i].place
    ensures var s := states[i];
      && (r in s.free <==> s.place[r] == Free)
      && ((exists k :: 0 <= k < |s.queue| && s.queue[k].rec == r) <==> s.place[r] == Queued)
      && (forall w :: w in s.workers ==> (s.workers[w].Record() == Some(r) <==> s.place[r] == WithWorker(w)))
      && (forall c :: c in s.clients ==> (s.clients[c].Record() == Some(r) <==> s.place[r] == WithClient(c)))
  {
    RunAccounted(states, steps, i);
    var s := states[i];
    assert RecordOk(s, r);
    forall w | w in s.workers ensures s.workers[w].Record() == Some(r) <==> s.place[r] == WithWorker(w) {
      assert WorkerOk(s, w);
    }
    forall c | c in s.clients ensures s.clients[c].Record() == Some(r) <==> s.place[r] == WithClient(c) {
      assert ClientOk(s, c);
    }
  }

  // ---------- a pool of no threads ----------

  lemma Extend(states: seq<State>, steps: seq<Step>, step: Step) returns (states': seq<State>, steps': seq<Step>)
    requires IsRun(states, steps) && Enabled(states[|states| - 1], step)
    ensures IsRun(states', steps') && states'[0] == states[0] &&
      states'[|states'| - 1] == Apply(states[|states| - 1], step)
    ensures ThreadsCreated(states, steps) && !step.GrowFails? ==> ThreadsCreated(states', steps')
  {
    states', steps' := states + [Apply(states[|steps|], step)], steps + [step];
    forall i | 0 <= i < |steps'|
      ensures Follows(states', steps', i)
      ensures ThreadsCreated(states, steps) && !step.GrowFails? ==> CreatesThreads(states'[i], steps'[i])
    {
      if i < |steps| { assert Follows(states, steps, i); }
    }
  }

  /** With a maximum of zero threads, which initialisation accepts, a job stays queued with nobody to run it. */
  lemma NoThreadsRun() returns (states: seq<State>, steps: seq<Step>)
    ensures IsRun(states, steps) && ThreadsCreated(states, steps) && states[0].maxThreads == 0
    ensures var s := states[|states| - 1]; s.queue != [] && s.mutex.Nobody? && s.workers == map[]
  {
    var s := State([], [], map[], map[0 := Outside], Nobody, 0, 0, 0, 0, map[], [], 0);
    states, steps := [s], [];
    states, steps := Extend(states, steps, TworkNew(0, 0));
    states, steps := Extend(states, steps, ClientLock(0));
    states, steps := Extend(states, steps, Enqueue(0));
    assert Sleepers(states[|states| - 1]) == {};
    states, steps := Extend(states, steps, Signal(0, {}));
    states, steps := Extend(states, steps, ClientUnlock(0));
  }

  ghost predicate SomebodyAwake(s: State) {
    exists w :: w in s.workers && !s.workers[w].Asleep()
  }

  /** State `i` of this run has work queued, with nobody in the middle of submitting it, and every thread asleep. */
  ghost predicate StuckAt(states: seq<State>, steps: seq<Step>, i: nat, max: nat) {
    && IsRun(states, steps) && ThreadsCreated(states, steps) && states[0].maxThreads == max
    && i < |states| && !Inserting(states[i]) && states[i].queue != [] && !SomebodyAwake(states[i])
  }

  /** Exactly the pools that may have a thread never get stuck. */
  lemma WakeupsExact(max: nat)
    ensures (forall states, steps, i :: !StuckAt(states, steps, i, max)) <==> max >= 1
  {
    if max >= 1 {
      forall states, steps, i ensures !StuckAt(states, steps, i, max) {
        if StuckAt(states, steps, i, max) { NoLostWakeup(states, steps, i); }
      }
    } else {
      var states, steps := NoThreadsRun();
      assert StuckAt(states, steps, |states| - 1, max);
    }
  }
}
