/**
 * Pending events of a request: ordering on wrapping sequence numbers, insertion, and
 * release to the active and callback lists.
 */
module Events {

  const SEQNO_BASE := 0x8000

  datatype Kind = FreeEvent | Done | Data

  /** `number` is the unbounded sequence number the sender had in mind; the event carries its residue. */
  datatype Event = Event(id: nat, kind: Kind, number: int, hasCallback: bool, timeout: int)
  {
    function Seqno(): int { number % SEQNO_BASE }
  }

  // ---------- comparing wrapped numbers ----------

  /** The modular comparison of 15-bit sequence numbers. */
  predicate ModuloGt(a: int, b: int) {
    if a < b && b - a > SEQNO_BASE / 2 then true
    else if a > b && a - b > SEQNO_BASE / 2 then false
    else a > b
  }

  /** For numbers less than 2^14 apart the comparison of their residues is the true comparison. */
  lemma ModuloGtExact(x: int, y: int)
    requires -0x4000 < x - y < 0x4000
    ensures ModuloGt(x % SEQNO_BASE, y % SEQNO_BASE) <==> x > y
  {
    var q, r := x / SEQNO_BASE, y / SEQNO_BASE;
    assert x == q * SEQNO_BASE + x % SEQNO_BASE && y == r * SEQNO_BASE + y % SEQNO_BASE;
    assert -1 <= q - r <= 1;
  }

  /**
   * In general only the distance modulo 2^15 counts: up to 2^14 ahead is greater, more is
   * not, and at exactly 2^14 the answer depends on where the numbers wrap.
   */
  lemma ModuloGtResidue(x: int, y: int)
    ensures var d := (x - y) % SEQNO_BASE;
      ModuloGt(x % SEQNO_BASE, y % SEQNO_BASE) <==> 0 < d < 0x4000 || (d == 0x4000 && x % SEQNO_BASE > y % SEQNO_BASE)
  {
    var a, b, d := x % SEQNO_BASE, y % SEQNO_BASE, (x - y) % SEQNO_BASE;
    var q := (x - y) / SEQNO_BASE - x / SEQNO_BASE + y / SEQNO_BASE;
    assert a - b == d + q * SEQNO_BASE;
    assert -1 <= q <= 0;
  }

  // ---------- insertion ----------

  /** Where the backward scan from the tail stops: it tests the event it stands on, not the one before. */
  function ScanBack(events: seq<Event>, seqno: int, at: nat): (r: nat)
    requires at < |events|
    ensures r <= at
  {
    if at > 0 && ModuloGt(seqno, events[at].Seqno()) then ScanBack(events, seqno, at - 1) else at
  }

  /** The pending list with one more event. */
  function Insert(events: seq<Event>, ev: Event): seq<Event> {
    if ev.kind.FreeEvent? then events
    else if ev.kind.Done? || events == [] || ModuloGt(ev.Seqno(), events[|events| - 1].Seqno()) then events + [ev]
    else
      var at := ScanBack(events, ev.Seqno(), |events| - 1);
      events[..at] + [ev] + events[at..]
  }

  /** An event that does not belong at the tail always lands just before it. */
  lemma InsertNearTail(events: seq<Event>, ev: Event)
    requires ev.kind.Data? && events != [] && !ModuloGt(ev.Seqno(), events[|events| - 1].Seqno())
    ensures Insert(events, ev) == events[..|events| - 1] + [ev, events[|events| - 1]]
  {
    var n := |events|;
    assert ScanBack(events, ev.Seqno(), n - 1) == n - 1;
    assert events[n - 1..] == [events[n - 1]];
  }

  /** Nothing is lost or duplicated by an insertion. */
  lemma InsertKeeps(events: seq<Event>, ev: Event)
    requires !ev.kind.FreeEvent?
    ensures multiset(Insert(events, ev)) == multiset(events) + multiset{ev}
  {
    if !(ev.kind.Done? || events == [] || ModuloGt(ev.Seqno(), events[|events| - 1].Seqno())) {
      var at := ScanBack(events, ev.Seqno(), |events| - 1);
      assert events == events[..at] + events[at..];
    }
  }

  /** An event is last after its insertion if and only if it is a DONE event, alone, or newer than the tail. */
  lemma InsertLast(events: seq<Event>, ev: Event)
    requires !ev.kind.FreeEvent? && ev !in events
    ensures |Insert(events, ev)| == |events| + 1
    ensures Insert(events, ev)[|events|] == ev <==>
      ev.kind.Done? || events == [] || ModuloGt(ev.Seqno(), events[|events| - 1].Seqno())
  {
    if ev.kind.Data? && events != [] && !ModuloGt(ev.Seqno(), events[|events| - 1].Seqno()) {
      InsertNearTail(events, ev);
    }
  }

  // ---------- the tail is the newest ----------

  /** All numbers lie within half the sequence space of each other. */
  ghost predicate InWindow(events: seq<Event>) {
    forall i, j :: 0 <= i < |events| && 0 <= j < |events| ==> -0x4000 < events[i].number - events[j].number < 0x4000
  }

  ghost predicate TailNewest(events: seq<Event>) {
    forall i :: 0 <= i < |events| ==> events[i].number <= events[|events| - 1].number
  }

  datatype Op = Arrive(ev: Event) | RemoveHead

  function ApplyOp(events: seq<Event>, op: Op): seq<Event> {
    match op
    case Arrive(ev) => Insert(events, ev)
    case RemoveHead => if events == [] then [] else events[1..]
  }

  function ApplyAll(ops: seq<Op>): seq<Event> {
    if ops == [] then [] else ApplyOp(ApplyAll(ops[..|ops| - 1]), ops[|ops| - 1])
  }

  /** At every arrival of the run the event is a data event within the window of what is pending. */
  ghost predicate WindowedRun(ops: seq<Op>) {
    forall k {:trigger ops[k]} :: 0 <= k < |ops| && ops[k].Arrive? ==>
      ops[k].ev.kind.Data? && InWindow(ApplyAll(ops[..k]) + [ops[k].ev])
  }

  lemma InsertKeepsTail(events: seq<Event>, ev: Event)
    requires TailNewest(events) && ev.kind.Data? && InWindow(events + [ev])
    ensures TailNewest(Insert(events, ev))
  {
    if events != [] {
      var n := |events|;
      var last := events[n - 1];
      assert (events + [ev])[n] == ev && (events + [ev])[n - 1] == last;
      ModuloGtExact(ev.number, last.number);
      if !ModuloGt(ev.Seqno(), last.Seqno()) {
        InsertNearTail(events, ev);
      }
    }
  }

  /** Over any run of arrivals and head removals inside the window the tail is the newest event. */
  lemma {:induction false} TailAlwaysNewest(ops: seq<Op>)
    requires WindowedRun(ops)
    ensures TailNewest(ApplyAll(ops))
  {
    if ops != [] {
      var front, op := ops[..|ops| - 1], ops[|ops| - 1];
      forall k | 0 <= k < |front| && front[k].Arrive?
        ensures front[k].ev.kind.Data? && InWindow(ApplyAll(front[..k]) + [front[k].ev])
      {
        assert front[k] == ops[k] && front[..k] == ops[..k];
      }
      TailAlwaysNewest(front);
      if op.Arrive? {
        InsertKeepsTail(ApplyAll(front), op.ev);
      }
    }
  }

  // ---------- the list is not an insertion sort ----------

  ghost predicate Ascending(events: seq<Event>) {
    forall i, j :: 0 <= i < j < |events| ==> events[i].number < events[j].number
  }

  /**
   * An insertion into a sorted list keeps it sorted exactly when the event is newer than the
   * last event but one, and not the tail's twin.
   */
  lemma InsertSortsExactly(events: seq<Event>, ev: Event)
    requires ev.kind.Data? && Ascending(events) && InWindow(events + [ev])
    ensures Ascending(Insert(events, ev)) <==>
      && (events != [] ==> ev.number != events[|events| - 1].number)
      && (|events| >= 2 ==> ev.number > events[|events| - 2].number)
  {
    var r, n := Insert(events, ev), |events|;
    if n > 0 {
      var last := events[n - 1];
      assert (events + [ev])[n] == ev && (events + [ev])[n - 1] == last;
      ModuloGtExact(ev.number, last.number);
      if ModuloGt(ev.Seqno(), last.Seqno()) {
        assert forall i :: 0 <= i < n ==> events[i].number <= last.number;
      } else {
        InsertNearTail(events, ev);
        assert r[n - 1] == ev && r[n] == last;
        if n >= 2 { assert r[n - 2] == events[n - 2]; }
        assert forall i :: 0 <= i < n - 1 ==> r[i] == events[i];
        assert n >= 2 ==> forall i :: 0 <= i < n - 1 ==> events[i].number <= events[n - 2].number;
      }
    }
  }

  /** Events 3, 4, 5 pending, event 2 arrives: it lands between 4 and 5. */
  lemma InsertUnsorted()
    ensures var e := (n: int) => Event(0, Data, n, false, 0);
      Insert([e(3), e(4), e(5)], e(2)) == [e(3), e(4), e(2), e(5)]
  {
    var e := (n: int) => Event(0, Data, n, false, 0);
    var events := [e(3), e(4), e(5)];
    InsertNearTail(events, e(2));
    assert events[..2] == [e(3), e(4)];
  }

  // ---------- release ----------

  function Bump(ev: Event): int { (ev.Seqno() + 1) % SEQNO_BASE }

  /** An event goes out if the list is being flushed, if it is the one expected, or if it has matured. */
  predicate Due(ev: Event, seqnext: int, now: int, flush: bool) {
    flush || ev.Seqno() == seqnext || now >= ev.timeout
  }

  /** The sequence number expected when `i` events have gone out. */
  function Expected(events: seq<Event>, seqnext: int, i: nat): int
    requires i <= |events|
  {
    if i == 0 then seqnext else Bump(events[i - 1])
  }

  /** How many events a release takes off the head of the list. */
  function ReleaseCount(events: seq<Event>, seqnext: int, now: int, flush: bool): (k: nat)
    ensures k <= |events|
  {
    if events == [] || !Due(events[0], seqnext, now, flush) then 0
    else 1 + ReleaseCount(events[1..], Bump(events[0]), now, flush)
  }

  /** A release takes the longest prefix of due events: every event in it is due in its turn, the next one is not. */
  lemma {:induction false} ReleaseDue(events: seq<Event>, seqnext: int, now: int, flush: bool)
    ensures var k := ReleaseCount(events, seqnext, now, flush);
      && (forall i :: 0 <= i < k ==> Due(events[i], Expected(events, seqnext, i), now, flush))
      && (k < |events| ==> !Due(events[k], Expected(events, seqnext, k), now, flush))
      && (flush ==> k == |events|)
  {
    if events != [] && Due(events[0], seqnext, now, flush) {
      var rest := events[1..];
      ReleaseDue(rest, Bump(events[0]), now, flush);
      var k := ReleaseCount(events, seqnext, now, flush);
      forall i | 0 <= i < k ensures Due(events[i], Expected(events, seqnext, i), now, flush) {
        if i > 0 {
          assert events[i] == rest[i - 1];
          assert Expected(events, seqnext, i) == Expected(rest, Bump(events[0]), i - 1);
        }
      }
    }
  }

  /** Event `i` has the number after the one before it, or the one expected first. */
  predicate InTurn(events: seq<Event>, seqnext: int, i: nat)
    requires i < |events|
  {
    events[i].Seqno() == if i == 0 then seqnext else (events[i - 1].Seqno() + 1) % 0x8000
  }

  /**
   * A release without flush takes events as long as each has the number after the one before
   * it, or has matured, and stops at the first that has neither; with flush it takes all.
   */
  lemma ReleaseExact(events: seq<Event>, seqnext: int, now: int, flush: bool)
    ensures var k := ReleaseCount(events, seqnext, now, flush);
      && (forall i :: 0 <= i < k ==> flush || now >= events[i].timeout || InTurn(events, seqnext, i))
      && (k < |events| ==> !flush && now < events[k].timeout && !InTurn(events, seqnext, k))
  {
    ReleaseDue(events, seqnext, now, flush);
    var k := ReleaseCount(events, seqnext, now, flush);
    forall i | 0 <= i < k ensures flush || now >= events[i].timeout || InTurn(events, seqnext, i) {
      assert Due(events[i], Expected(events, seqnext, i), now, flush);
    }
  }

  /** The whole consecutive run at the head, starting with the expected number, goes out. */
  lemma {:induction false} RunReleased(events: seq<Event>, seqnext: int, now: int, flush: bool, m: nat)
    requires m <= |events| && 0 <= seqnext < SEQNO_BASE
    requires forall i :: 0 <= i < m ==> events[i].Seqno() == (seqnext + i) % SEQNO_BASE
    ensures ReleaseCount(events, seqnext, now, flush) >= m
  {
    if m > 0 {
      assert events[0].Seqno() == (seqnext + 0) % SEQNO_BASE == seqnext;
      var next := Bump(events[0]);
      forall i | 0 <= i < m - 1 ensures events[1..][i].Seqno() == (next + i) % SEQNO_BASE {
        assert events[1..][i] == events[i + 1];
        WrapStep(seqnext, i);
      }
      RunReleased(events[1..], next, now, flush, m - 1);
    }
  }

  lemma WrapStep(seqnext: int, i: nat)
    requires 0 <= seqnext < SEQNO_BASE
    ensures ((seqnext + 1) % SEQNO_BASE + i) % SEQNO_BASE == (seqnext + (i + 1)) % SEQNO_BASE
  {
  }

  /** Which of the released events go to the callback thread, or to the active list, in order. */
  function Sent(events: seq<Event>, withCallback: bool): (r: seq<Event>) {
    if events == [] then [] else
    var last := events[|events| - 1];
    Sent(events[..|events| - 1], withCallback) +
      (if last.hasCallback == withCallback && !last.kind.FreeEvent? then [last] else [])
  }

  /** What has been sent when one more event goes out. */
  lemma {:induction false} SentNext(events: seq<Event>, i: nat, before: seq<Event>, withCallback: bool)
    requires i < |events|
    ensures before + Sent(events[..i], withCallback) + Sent([events[i]], withCallback) ==
      before + Sent(events[..i + 1], withCallback)
  {
    assert events[..i + 1][..i] == events[..i] && [events[i]][..0] == [];
  }

  /** An event goes to the callbacks if it has one, and else to the active list. */
  lemma {:induction false} SentAre(events: seq<Event>, withCallback: bool, ev: Event)
    ensures ev in Sent(events, withCallback) <==>
      ev in events && !ev.kind.FreeEvent? && ev.hasCallback == withCallback
  {
    if events != [] {
      var front, last := events[..|events| - 1], events[|events| - 1];
      SentAre(front, withCallback, ev);
      assert ev in events <==> ev in front || ev == last;
    }
  }

  /** A release neither loses nor duplicates an event. */
  lemma {:induction false} SentKeeps(events: seq<Event>)
    requires forall i :: 0 <= i < |events| ==> !events[i].kind.FreeEvent?
    ensures multiset(Sent(events, true)) + multiset(Sent(events, false)) == multiset(events)
  {
    if events != [] {
      var front, last := events[..|events| - 1], events[|events| - 1];
      SentKeeps(front);
      assert events == front + [last];
      assert multiset(Sent(events, last.hasCallback)) == multiset(Sent(front, last.hasCallback)) + multiset{last};
      assert Sent(events, !last.hasCallback) == Sent(front, !last.hasCallback);
    }
  }

  /** Events waiting, with nothing due: all newer than what is expected next, none matured. */
  ghost predicate Waiting(events: seq<Event>, next: int, now: int) {
    forall i :: 0 <= i < |events| ==> next < events[i].number < next + 0x4000 && now < events[i].timeout
  }

  /**
   * The event everyone waits for releases something on arrival exactly when at most one event
   * is pending; behind two or more it is buried just before the tail.
   */
  lemma {:induction false} ExpectedArrivalExact(events: seq<Event>, ev: Event, now: int)
    requires ev.kind.Data? && Waiting(events, ev.number, now)
    ensures ReleaseCount(Insert(events, ev), ev.Seqno(), now, false) > 0 <==> |events| <= 1
  {
    var n := |events|;
    if n > 0 {
      ModuloGtExact(ev.number, events[n - 1].number);
      InsertNearTail(events, ev);
      ModuloGtExact(events[0].number, ev.number);
      assert events[0].Seqno() != ev.Seqno();
      if n >= 2 { assert Insert(events, ev)[0] == events[0]; }
    }
  }

  // ---------- the code ----------

  datatype Timer = Off | PendingTimer(delay: int) | DoneTimer(delay: int)

  /** A request that is not persistent, with the two lists its events go out on. */
  class Request {
    var events: seq<Event>
    var seqnext: int
    var active: seq<Event>
    var callbacks: seq<Event>
    var timer: Timer

    constructor (seqnext: int)
      ensures events == [] && this.seqnext == seqnext && active == [] && callbacks == [] && timer == Off
    {
      events, this.seqnext, active, callbacks, timer := [], seqnext, [], [], Off;
    }

    /** Hand an event to whoever waits for it. */
    method Trigger(ev: Event)
      modifies `seqnext, `active, `callbacks
      ensures seqnext == Bump(ev) && seqnext == (ev.number % 0x8000 + 1) % 0x8000
      ensures active == old(active) + Sent([ev], false) && callbacks == old(callbacks) + Sent([ev], true)
      ensures callbacks == old(callbacks) + if ev.hasCallback && !ev.kind.FreeEvent? then [ev] else []
      ensures active == old(active) + if !ev.hasCallback && !ev.kind.FreeEvent? then [ev] else []
    {
      seqnext := (ev.Seqno() + 1) % SEQNO_BASE;
      assert [ev][..0] == [];
      if !ev.kind.FreeEvent? {
        if !ev.hasCallback {
          active := active + [ev];
        } else {
          callbacks := callbacks + [ev];
        }
      }
    }

    /** Release what is due and set the timer for what is left. */
    method TriggerPending(flush: bool, now: int)
      modifies this
      ensures var k := ReleaseCount(old(events), old(seqnext), now, flush);
        && events == old(events)[k..]
        && active == old(active) + Sent(old(events)[..k], false)
        && callbacks == old(callbacks) + Sent(old(events)[..k], true)
        && seqnext == Expected(old(events), old(seqnext), k)
      ensures |events| <= |old(events)| && events == old(events)[|old(events)| - |events|..]
      ensures events != [] ==> !flush && events[0].Seqno() != seqnext && now < events[0].timeout
      ensures forall i :: 0 <= i < |old(events)| - |events| ==>
        flush || now >= old(events)[i].timeout || InTurn(old(events), old(seqnext), i)
      ensures events != [] ==>
        var delay := events[0].timeout - now;
        timer == if events[0].kind.Done? then DoneTimer(delay) else PendingTimer(delay)
      ensures events == [] ==> timer == old(timer)
    {
      ReleaseExact(events, seqnext, now, flush);
      ReleaseDueNow(flush, now);
      if events != [] {
        var delay := events[0].timeout - now;
        timer := if events[0].kind.Done? then DoneTimer(delay) else PendingTimer(delay);
      }
    }

    /** The release loop. */
    method ReleaseDueNow(flush: bool, now: int)
      modifies `events, `seqnext, `active, `callbacks
      ensures var k := ReleaseCount(old(events), old(seqnext), now, flush);
        && events == old(events)[k..]
        && active == old(active) + Sent(old(events)[..k], false)
        && callbacks == old(callbacks) + Sent(old(events)[..k], true)
        && seqnext == Expected(old(events), old(seqnext), k)
      ensures events != [] ==> !flush && events[0].Seqno() != seqnext && now < events[0].timeout
    {
      ghost var all, next := events, seqnext;
      ghost var i := 0;
      assert all[..0] == [];
      while events != [] && (flush || events[0].Seqno() == seqnext || !(now < events[0].timeout))
        invariant i <= |all| && events == all[i..] && seqnext == Expected(all, next, i)
        invariant ReleaseCount(all, next, now, flush) == i + ReleaseCount(events, seqnext, now, flush)
        invariant active == old(active) + Sent(all[..i], false) && callbacks == old(callbacks) + Sent(all[..i], true)
        decreases |events|
      {
        var ev := events[0];
        events := events[1..];
        Trigger(ev);
        SentNext(all, i, old(active), false);
        SentNext(all, i, old(callbacks), true);
        i := i + 1;
      }
    }

    /** The backward scan for the place of an event. */
    method FindPlace(seqno: int) returns (at: nat)
      requires events != []
      ensures at < |events| && at == ScanBack(events, seqno, |events| - 1)
    {
      at := |events| - 1;
      while at > 0 && ModuloGt(seqno, events[at].Seqno())
        invariant at < |events|
        invariant ScanBack(events, seqno, at) == ScanBack(events, seqno, |events| - 1)
      {
        at := at - 1;
      }
    }

    /** Sort a new event in, as the code does, and release what is due. */
    method InsertPending(ev: Event, doneTimeout: int, dataTimeout: int, now: int)
      modifies this
      ensures ev.kind.FreeEvent? ==>
        events == old(events) && active == old(active) && callbacks == old(callbacks) && seqnext == old(seqnext)
      ensures !ev.kind.FreeEvent? ==>
        var e := ev.(timeout := now + (if ev.kind.Done? then doneTimeout else dataTimeout));
        var all := Insert(old(events), e);
        var k := ReleaseCount(all, old(seqnext), now, false);
        && events == all[k..] && seqnext == Expected(all, old(seqnext), k)
        && active == old(active) + Sent(all[..k], false) && callbacks == old(callbacks) + Sent(all[..k], true)
      ensures !ev.kind.FreeEvent? && events != [] ==> events[0].Seqno() != seqnext && now < events[0].timeout
    {
      if ev.kind.FreeEvent? { return; }
      var e := ev.(timeout := now + (if ev.kind.Done? then doneTimeout else dataTimeout));
      Place(e);
      TriggerPending(false, now);
    }

    /** A DONE event goes to the end, any other where the scan says. */
    method Place(e: Event)
      requires !e.kind.FreeEvent?
      modifies `events
      ensures events == Insert(old(events), e)
      ensures e.kind.Done? ==> events == old(events) + [e]
    {
      if e.kind.Done? || events == [] || ModuloGt(e.Seqno(), events[|events| - 1].Seqno()) {
        events := events + [e];
      } else {
        var at := FindPlace(e.Seqno());
        events := events[..at] + [e] + events[at..];
      }
    }
  }
}
