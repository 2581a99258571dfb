/**
 * The GOB cache, GOB records and GIN handles as one thread sees them: opening, closing
 * and reclaiming, call by call, with every lock taken and released.
 *
 * `Store` is the data; `Library` is the code that updates it.  GOBs whose mutex some
 * other thread owns are in `busy`.  Clock readings, file descriptor counts, the outcome
 * of the open request and new addresses are parameters.
 */
module GobCache {
  import opened Collections

  type GobId = nat
  type GinId = nat
  type Name = nat    // a 256-bit name, read as a number; zero is not a valid name

  datatype Gob = Gob(
    inuse: bool, incache: bool, dropping: bool, pending: bool, deferFree: bool, refcnt: nat, name: Name, utime: int)

  datatype Store = Store(
    gobs: map<GobId, Gob>,
    hash: map<Name, GobId>,
    lru: seq<GobId>,
    freeGobs: seq<GobId>,
    gins: map<GinId, GobId>,    // the GINs in use and the GOB each points at
    freeGins: seq<GinId>)

  datatype Lock = CacheMutex | OpenMutex | GobLock(g: GobId) | GinLock(gin: GinId)

  // ---------- the state between calls ----------

  ghost function GinsOf(gins: map<GinId, GobId>, g: GobId): set<GinId> {
    set i | i in gins && gins[i] == g
  }

  /** `fly` is a GOB with a reference in hand that no GIN has yet. */
  ghost predicate GobOk(st: Store, now: int, fly: Option<GobId>, g: GobId)
    requires g in st.gobs
  {
    var b := st.gobs[g];
    && (b.inuse <==> g in st.lru) && (b.incache <==> g in st.lru) && (b.inuse <==> g !in st.freeGobs)
    && !b.dropping
    && b.refcnt == |GinsOf(st.gins, g)| + (if fly == Some(g) then 1 else 0)
    && (b.inuse && b.refcnt == 0 ==> b.deferFree)
    && (b.pending ==> fly == Some(g))
    && b.utime <= now
  }

  /** The hash finds a listed GOB under the GOB's own name ... */
  ghost predicate NameOk(st: Store, n: Name)
    requires n in st.hash
  {
    st.hash[n] in st.lru && st.hash[n] in st.gobs && st.gobs[st.hash[n]].name == n
  }

  /** ... and every listed GOB. */
  ghost predicate EntryOk(st: Store, g: GobId) {
    g in st.gobs && st.gobs[g].name in st.hash && st.hash[st.gobs[g].name] == g
  }

  ghost predicate HashOk(st: Store) {
    && (forall n {:trigger NameOk(st, n)} :: n in st.hash ==> NameOk(st, n))
    && (forall g {:trigger EntryOk(st, g)} :: g in st.lru ==> EntryOk(st, g))
  }

  ghost predicate GinOk(st: Store, i: GinId)
    requires i in st.gins
  {
    st.gins[i] in st.lru && i !in st.freeGins
  }

  ghost predicate Ordered(gobs: map<GobId, Gob>, lru: seq<GobId>) {
    && (forall i :: 0 <= i < |lru| ==> lru[i] in gobs)
    && (forall i, j :: 0 <= i < j < |lru| ==> gobs[lru[i]].utime >= gobs[lru[j]].utime)
  }

  ghost predicate StoreOk(st: Store, now: int, fly: Option<GobId>) {
    && NoDup(st.lru) && NoDup(st.freeGobs) && NoDup(st.freeGins)
    && (forall g :: g in st.freeGobs ==> g in st.gobs)
    && (fly.Some? ==> fly.value in st.lru)
    && HashOk(st) && Ordered(st.gobs, st.lru)
    && (forall i {:trigger GinOk(st, i)} :: i in st.gins ==> GinOk(st, i))
    && (forall g {:trigger GobOk(st, now, fly, g)} :: g in st.gobs ==> GobOk(st, now, fly, g))
  }

  // ---------- the updates ----------

  /** A lookup that hits: one more reference, and to the front of the usage list. */
  function Hit(st: Store, g: GobId, now: int): Store
    requires g in st.gobs
  {
    st.(gobs := st.gobs[g := st.gobs[g].(refcnt := st.gobs[g].refcnt + 1, utime := now)],
      lru := [g] + Without(st.lru, g))
  }

  /** The record _gdp_gob_new hands out: the head of the free list, or a new one. */
  function NewGob(st: Store, addr: GobId): GobId {
    if st.freeGobs == [] then addr else st.freeGobs[0]
  }

  /** A lookup that misses and creates: a pending GOB with one reference, cached. */
  function Create(st: Store, g: GobId, name: Name, now: int): Store {
    st.(gobs := st.gobs[g := Gob(true, true, false, true, false, 1, name, now)],
        freeGobs := if st.freeGobs == [] then [] else st.freeGobs[1..],
        hash := st.hash[name := g], lru := [g] + st.lru)
  }

  /** A GOB marked as dropping leaves the hash and the usage list. */
  function Unlink(st: Store, g: GobId): Store
    requires g in st.gobs
  {
    st.(gobs := st.gobs[g := st.gobs[g].(dropping := true, incache := false)],
        hash := st.hash - {st.gobs[g].name}, lru := Without(st.lru, g))
  }

  /** Marking a GOB as dropping first makes no difference. */
  lemma MarkedUnlinks(st: Store, g: GobId)
    requires g in st.gobs
    ensures Unlink(st.(gobs := st.gobs[g := st.gobs[g].(dropping := true)]), g) == Unlink(st, g)
  {
    var b := st.gobs[g].(dropping := true, incache := false);
    assert st.gobs[g := st.gobs[g].(dropping := true)][g := b] == st.gobs[g := b];
  }

  /** The flags of a GOB are cleared and its record goes on the free list. */
  function Bury(st: Store, g: GobId): Store
    requires g in st.gobs
  {
    st.(gobs := st.gobs[g := Gob(false, false, false, false, false, 0, st.gobs[g].name, st.gobs[g].utime)],
        freeGobs := [g] + st.freeGobs)
  }

  /** The end of a GOB. */
  function Retire(st: Store, g: GobId): Store
    requires g in st.gobs
  {
    Bury(Unlink(st, g), g)
  }

  /** Giving back one reference, as _gdp_gob_decref does. */
  function Release(st: Store, g: GobId): Store
    requires g in st.gobs
  {
    var n := if st.gobs[g].refcnt > 0 then st.gobs[g].refcnt - 1 else 0;
    if n == 0 && !st.gobs[g].deferFree then Retire(st, g)
    else st.(gobs := st.gobs[g := st.gobs[g].(refcnt := n)])
  }

  /** What the reclaim scan leaves alone. */
  predicate Spared(gobs: map<GobId, Gob>, busy: set<GobId>, mintime: int, g: GobId) {
    g in busy || g !in gobs || gobs[g].utime > mintime || gobs[g].dropping || gobs[g].refcnt > 0
  }

  /** The usage list after a full reclaim pass: the spared GOBs in their old order. */
  function Survivors(gobs: map<GobId, Gob>, busy: set<GobId>, mintime: int, lru: seq<GobId>): seq<GobId> {
    if lru == [] then []
    else (if Spared(gobs, busy, mintime, lru[0]) then [lru[0]] else []) + Survivors(gobs, busy, mintime, lru[1..])
  }

  // ---------- each update keeps the state in order ----------

  lemma UnlinkOrder(gobs: map<GobId, Gob>, gobs': map<GobId, Gob>, lru: seq<GobId>, g: GobId)
    requires NoDup(lru) && Ordered(gobs, lru)
    requires forall h :: h in gobs && h != g ==> h in gobs' && gobs'[h].utime == gobs[h].utime
    ensures Ordered(gobs', Without(lru, g))
  {
    WithoutProperties(lru, g);
  }

  /** A GOB stamped no earlier than any other goes to the front. */
  lemma FrontOrder(gobs: map<GobId, Gob>, rest: seq<GobId>, g: GobId)
    requires Ordered(gobs, rest) && g in gobs && forall h :: h in rest ==> gobs[h].utime <= gobs[g].utime
    ensures Ordered(gobs, [g] + rest)
  {
  }

  /** Renumbering and reordering GOBs without renaming them keeps the hash right. */
  lemma SameHash(st: Store, st': Store)
    requires HashOk(st) && st'.hash == st.hash && forall g :: g in st.lru <==> g in st'.lru
    requires forall g :: g in st.gobs ==> g in st'.gobs && st'.gobs[g].name == st.gobs[g].name
    ensures HashOk(st')
  {
    forall n | n in st'.hash ensures NameOk(st', n) { assert NameOk(st, n); }
    forall g | g in st'.lru ensures EntryOk(st', g) { assert EntryOk(st, g); }
  }

  lemma UnlinkHash(st: Store, st': Store, g: GobId)
    requires HashOk(st) && EntryOk(st, g) && st'.hash == st.hash - {st.gobs[g].name}
    requires forall h :: h in st'.lru <==> h in st.lru && h != g
    requires forall h :: h in st.gobs ==> h in st'.gobs && st'.gobs[h].name == st.gobs[h].name
    ensures HashOk(st')
  {
    forall n | n in st'.hash ensures NameOk(st', n) { assert NameOk(st, n); }
    forall h | h in st'.lru ensures EntryOk(st', h) { assert EntryOk(st, h); }
  }

  lemma CreateHash(st: Store, st': Store, g: GobId, name: Name)
    requires HashOk(st) && g !in st.lru && name !in st.hash && st'.hash == st.hash[name := g] && st'.lru == [g] + st.lru
    requires g in st'.gobs && st'.gobs[g].name == name
    requires forall h :: h in st.gobs && h != g ==> h in st'.gobs && st'.gobs[h].name == st.gobs[h].name
    ensures HashOk(st')
  {
    forall n | n in st'.hash ensures NameOk(st', n) { if n != name { assert NameOk(st, n); } }
    forall h | h in st'.lru ensures EntryOk(st', h) { if h != g { assert EntryOk(st, h); } }
  }

  lemma HitKeeps(st: Store, g: GobId, now: int, now': int)
    requires StoreOk(st, now, None) && g in st.lru && now <= now'
    ensures StoreOk(Hit(st, g, now'), now', Some(g))
  {
    var st' := Hit(st, g, now');
    assert GobOk(st, now, None, g);
    WithoutProperties(st.lru, g);
    forall h | h in st'.gobs ensures GobOk(st', now', Some(g), h) {
      assert GobOk(st, now, None, h);
    }
    HitOrdered(st, g, now, now');
    forall i | i in st'.gins ensures GinOk(st', i) { assert GinOk(st, i); }
    SameHash(st, st');
  }

  lemma HitOrdered(st: Store, g: GobId, now: int, now': int)
    requires StoreOk(st, now, None) && g in st.lru && g in st.gobs && now <= now'
    ensures Ordered(Hit(st, g, now').gobs, Hit(st, g, now').lru)
  {
    var st', rest := Hit(st, g, now'), Without(st.lru, g);
    WithoutProperties(st.lru, g);
    UnlinkOrder(st.gobs, st'.gobs, st.lru, g);
    forall h | h in rest ensures st'.gobs[h].utime <= now' { assert GobOk(st, now, None, h); }
    FrontOrder(st'.gobs, rest, g);
  }

  lemma CreateKeeps(st: Store, addr: GobId, name: Name, now: int, now': int)
    requires StoreOk(st, now, None) && addr !in st.gobs && name !in st.hash && now <= now'
    ensures StoreOk(Create(st, NewGob(st, addr), name, now'), now', Some(NewGob(st, addr)))
  {
    var g := NewGob(st, addr);
    var st' := Create(st, g, name, now');
    if g in st.gobs { assert GobOk(st, now, None, g); }
    forall i | i in st'.gins ensures GinOk(st', i) && st.gins[i] != g { assert GinOk(st, i); }
    assert GinsOf(st.gins, g) == {};
    CreateHash(st, st', g, name);
    forall h | h in st'.gobs ensures GobOk(st', now', Some(g), h) {
      if h in st.gobs { assert GobOk(st, now, None, h); }
    }
    assert Ordered(st'.gobs, st'.lru) by {
      forall h | h in st.lru ensures st'.gobs[h].utime <= now' { assert GobOk(st, now, None, h); }
      assert Ordered(st'.gobs, st.lru);
      FrontOrder(st'.gobs, st.lru, g);
    }
  }

  /** Retiring is safe for a GOB no GIN points at. */
  lemma RetireKeeps(st: Store, now: int, fly: Option<GobId>, g: GobId)
    requires StoreOk(st, now, fly) && g in st.lru && (fly.Some? ==> fly.value == g) && GinsOf(st.gins, g) == {}
    ensures StoreOk(Retire(st, g), now, None)
  {
    var st' := Retire(st, g);
    assert GobOk(st, now, fly, g);
    WithoutProperties(st.lru, g);
    forall i | i in st'.gins ensures GinOk(st', i) {
      assert GinOk(st, i) && i !in GinsOf(st.gins, g);
    }
    assert EntryOk(st, g);
    forall h | h in st'.gobs ensures GobOk(st', now, None, h) {
      assert GobOk(st, now, fly, h);
    }
    UnlinkOrder(st.gobs, st'.gobs, st.lru, g);
    UnlinkHash(st, st', g);
  }

  // ---------- handles ----------

  /** A GIN takes over the reference in hand. */
  function Attach(st: Store, g: GobId, gin: GinId, keep: bool): Store
    requires g in st.gobs
  {
    st.(gobs := st.gobs[g := st.gobs[g].(pending := false, deferFree := st.gobs[g].deferFree || keep)],
        gins := st.gins[gin := g], freeGins := if st.freeGins == [] then [] else st.freeGins[1..])
  }

  /** The GIN _gdp_gin_new hands out. */
  function NewGin(st: Store, addr: GinId): GinId {
    if st.freeGins == [] then addr else st.freeGins[0]
  }

  lemma AttachGins(st: Store, now: int, g: GobId, addr: GinId, keep: bool)
    requires StoreOk(st, now, Some(g)) && g in st.gobs && addr !in st.gins && addr !in st.freeGins
    ensures var gin := NewGin(st, addr); var st' := Attach(st, g, gin, keep);
      && gin !in st.gins && NoDup(st'.freeGins) && GinsOf(st'.gins, g) == GinsOf(st.gins, g) + {gin}
      && (forall i :: i in st'.gins ==> GinOk(st', i))
      && forall h :: h != g ==> GinsOf(st'.gins, h) == GinsOf(st.gins, h)
  {
    var gin := NewGin(st, addr);
    var st' := Attach(st, g, gin, keep);
    assert gin in st.gins ==> GinOk(st, gin);
    forall i | i in st'.gins ensures GinOk(st', i) { if i != gin { assert GinOk(st, i); } }
  }

  lemma SameOrder(gobs: map<GobId, Gob>, gobs': map<GobId, Gob>, lru: seq<GobId>)
    requires Ordered(gobs, lru) && forall g :: g in gobs ==> g in gobs' && gobs'[g].utime == gobs[g].utime
    ensures Ordered(gobs', lru)
  {
  }

  lemma AttachKeeps(st: Store, now: int, g: GobId, addr: GinId, keep: bool)
    requires StoreOk(st, now, Some(g)) && g in st.gobs && addr !in st.gins && addr !in st.freeGins
    ensures StoreOk(Attach(st, g, NewGin(st, addr), keep), now, None)
  {
    var st' := Attach(st, g, NewGin(st, addr), keep);
    AttachGins(st, now, g, addr, keep);
    forall h | h in st'.gobs ensures GobOk(st', now, None, h) {
      assert GobOk(st, now, Some(g), h);
    }
    SameHash(st, st');
    SameOrder(st.gobs, st'.gobs, st.lru);
  }

  /** The GIN is gone but its reference is still in hand. */
  function Detach(st: Store, gin: GinId): Store {
    st.(gins := st.gins - {gin}, freeGins := [gin] + st.freeGins)
  }

  lemma DetachKeeps(st: Store, now: int, gin: GinId)
    requires StoreOk(st, now, None) && gin in st.gins
    ensures StoreOk(Detach(st, gin), now, Some(st.gins[gin]))
  {
    var st', g := Detach(st, gin), st.gins[gin];
    assert GinsOf(st.gins, g) == GinsOf(st'.gins, g) + {gin};
    forall h | h in st'.gobs ensures GobOk(st', now, Some(g), h) {
      assert GobOk(st, now, None, h);
      assert h != g ==> GinsOf(st'.gins, h) == GinsOf(st.gins, h);
    }
    assert GinOk(st, gin);
    forall i | i in st'.gins ensures GinOk(st', i) { assert GinOk(st, i); }
    SameHash(st, st');
  }

  lemma ReleaseKeeps(st: Store, now: int, g: GobId)
    requires StoreOk(st, now, Some(g)) && g in st.gobs && !st.gobs[g].pending
    ensures StoreOk(Release(st, g), now, None)
  {
    var st' := Release(st, g);
    assert GobOk(st, now, Some(g), g);
    if st.gobs[g].refcnt == 1 && !st.gobs[g].deferFree {
      RetireKeeps(st, now, Some(g), g);
    } else {
      forall h | h in st'.gobs ensures GobOk(st', now, None, h) {
        assert GobOk(st, now, Some(g), h);
      }
      forall i | i in st'.gins ensures GinOk(st', i) { assert GinOk(st, i); }
      SameHash(st, st');
    }
  }

  // ---------- reclaiming ----------

  /** A reclaim pass over `todo`, the part of the usage list not yet visited. */
  function Reclaimed(st: Store, busy: set<GobId>, mintime: int, todo: seq<GobId>): Store
    decreases |todo|
  {
    if todo == [] then st
    else Reclaimed(if Spared(st.gobs, busy, mintime, todo[0]) then st else Retire(st, todo[0]), busy,
      mintime, todo[1..])
  }

  /** Whether a GOB is spared depends on its own record only. */
  lemma {:induction false} SurvivorsSame(gobs: map<GobId, Gob>, gobs': map<GobId, Gob>, busy: set<GobId>,
    mintime: int, lru: seq<GobId>)
    requires forall g :: g in lru ==> (g in gobs <==> g in gobs') && (g in gobs ==> gobs'[g] == gobs[g])
    ensures Survivors(gobs', busy, mintime, lru) == Survivors(gobs, busy, mintime, lru)
  {
    if lru != [] {
      SurvivorsSame(gobs, gobs', busy, mintime, lru[1..]);
    }
  }

  /** The survivors are exactly the spared GOBs. */
  lemma {:induction false} SurvivorsSpared(gobs: map<GobId, Gob>, busy: set<GobId>, mintime: int, lru: seq<GobId>)
    ensures forall g :: g in Survivors(gobs, busy, mintime, lru) <==> g in lru && Spared(gobs, busy, mintime, g)
  {
    if lru != [] {
      SurvivorsSpared(gobs, busy, mintime, lru[1..]);
      assert forall g :: g in lru <==> g == lru[0] || g in lru[1..];
    }
  }

  /**
   * An entry survives a pass if and only if its lock is taken, it was used after the limit, it
   * is being dropped, or a handle points at it.
   */
  lemma SurvivorsAre(st: Store, now: int, busy: set<GobId>, mintime: int, part: seq<GobId>, g: GobId)
    requires StoreOk(st, now, None) && g in part && g in st.lru
    ensures g in st.gobs
    ensures g in Survivors(st.gobs, busy, mintime, part) <==>
      g in busy || st.gobs[g].utime > mintime || st.gobs[g].dropping || GinsOf(st.gins, g) != {}
  {
    SurvivorsSpared(st.gobs, busy, mintime, part);
    assert EntryOk(st, g) && GobOk(st, now, None, g);
  }

  /** The same for every entry of a stretch of the usage list. */
  ghost predicate Outlive(st: Store, lru': seq<GobId>, busy: set<GobId>, mintime: int, part: seq<GobId>) {
    forall g :: g in part ==>
      g in st.gobs &&
      (g in lru' <==> g in busy || st.gobs[g].utime > mintime || st.gobs[g].dropping || GinsOf(st.gins, g) != {})
  }

  lemma AllOutlive(st: Store, now: int, busy: set<GobId>, mintime: int, k: nat)
    requires StoreOk(st, now, None) && k <= |st.lru|
    ensures Outlive(st, Survivors(st.gobs, busy, mintime, st.lru[..k]) + st.lru[k..], busy, mintime, st.lru[..k])
    ensures k == |st.lru| ==> Outlive(st, Survivors(st.gobs, busy, mintime, st.lru), busy, mintime, st.lru)
  {
    var part, rest := st.lru[..k], st.lru[k..];
    forall g | g in part ensures g !in rest {
      var i :| 0 <= i < k && st.lru[i] == g;
      assert forall j :: 0 <= j < |rest| ==> rest[j] == st.lru[k + j];
    }
    forall g | g in part ensures g in st.lru { }
    forall g | g in part
      ensures g in st.gobs
      ensures g in Survivors(st.gobs, busy, mintime, part) <==>
        g in busy || st.gobs[g].utime > mintime || st.gobs[g].dropping || GinsOf(st.gins, g) != {}
    {
      SurvivorsAre(st, now, busy, mintime, part, g);
    }
    if k == |st.lru| { assert part == st.lru; }
  }

  lemma WithoutMiddle(a: seq<GobId>, g: GobId, b: seq<GobId>)
    requires NoDup(a + [g] + b)
    ensures Without(a + [g] + b, g) == a + b
  {
    var s := a + [g] + b;
    assert s[|a|] == g && IndexOf(s, g) == |a|;
    assert s[..|a|] == a && s[|a| + 1..] == b;
  }

  /** A pass leaves a GOB it does not visit, or spares, as it is. */
  lemma {:induction false} ReclaimSpares(st: Store, busy: set<GobId>, mintime: int, todo: seq<GobId>, h: GobId)
    requires NoDup(todo) && h in st.gobs && (h in todo ==> Spared(st.gobs, busy, mintime, h))
    ensures var r := Reclaimed(st, busy, mintime, todo); h in r.gobs && r.gobs[h] == st.gobs[h] && r.gins == st.gins
    decreases |todo|
  {
    if todo != [] {
      ReclaimSpares(if Spared(st.gobs, busy, mintime, todo[0]) then st else Retire(st, todo[0]), busy, mintime,
        todo[1..], h);
    }
  }

  /**
   * A pass removes from the part of the usage list it visits exactly the GOBs that are
   * lockable, old, unreferenced and not being dropped, and keeps the order of the rest.
   */
  lemma {:induction false} ReclaimExact(st: Store, busy: set<GobId>, mintime: int, seen: seq<GobId>, todo: seq<GobId>,
    left: seq<GobId>)
    requires NoDup(st.lru) && st.lru == seen + todo + left
    ensures Reclaimed(st, busy, mintime, todo).lru == seen + Survivors(st.gobs, busy, mintime, todo) + left
    decreases |todo|
  {
    if todo != [] {
      var g, rest := todo[0], todo[1..];
      assert todo == [g] + rest;
      JoinOne(seen, g, rest);
      if Spared(st.gobs, busy, mintime, g) {
        ReclaimExact(st, busy, mintime, seen + [g], rest, left);
        JoinOne(seen, g, Survivors(st.gobs, busy, mintime, rest));
      } else {
        RetireOne(st, seen, g, rest, left);
        SurvivorsSame(st.gobs, Retire(st, g).gobs, busy, mintime, rest);
        ReclaimExact(Retire(st, g), busy, mintime, seen, rest, left);
      }
    }
  }

  /** The usage list after retiring one GOB from the middle. */
  lemma RetireOne(st: Store, seen: seq<GobId>, g: GobId, rest: seq<GobId>, left: seq<GobId>)
    requires NoDup(st.lru) && g in st.gobs && st.lru == (seen + [g]) + rest + left
    ensures Retire(st, g).lru == seen + rest + left && NoDup(Retire(st, g).lru) && g !in rest
  {
    assert st.lru == seen + [g] + (rest + left) && seen + (rest + left) == seen + rest + left;
    WithoutMiddle(seen, g, rest + left);
    WithoutProperties(st.lru, g);
    NotBetween(seen, rest, left, g);
  }

  lemma NotBetween(a: seq<GobId>, b: seq<GobId>, c: seq<GobId>, g: GobId)
    requires g !in a + b + c
    ensures g !in b
  {
    assert forall h :: h in b ==> h in a + b + c;
  }

  /** A pass never frees a GOB that a GIN points at, and keeps the store in order. */
  lemma {:induction false} ReclaimKeeps(st: Store, now: int, busy: set<GobId>, mintime: int, todo: seq<GobId>)
    requires StoreOk(st, now, None) && NoDup(todo) && forall g :: g in todo ==> g in st.lru
    ensures StoreOk(Reclaimed(st, busy, mintime, todo), now, None)
    decreases |todo|
  {
    if todo != [] {
      var g := todo[0];
      if Spared(st.gobs, busy, mintime, g) {
        ReclaimKeeps(st, now, busy, mintime, todo[1..]);
      } else {
        assert GobOk(st, now, None, g);
        RetireKeeps(st, now, None, g);
        WithoutProperties(st.lru, g);
        ReclaimKeeps(Retire(st, g), now, busy, mintime, todo[1..]);
      }
    }
  }

  /** A later pass with a later limit subsumes the earlier ones. */
  lemma {:induction false} PassesCompose(gobs: map<GobId, Gob>, gobs': map<GobId, Gob>, busy: set<GobId>, m1: int,
    m2: int, lru: seq<GobId>)
    requires m1 <= m2
    requires forall g :: g in Survivors(gobs, busy, m1, lru) ==> g in gobs && g in gobs' && gobs'[g] == gobs[g]
    ensures Survivors(gobs', busy, m2, Survivors(gobs, busy, m1, lru)) == Survivors(gobs, busy, m2, lru)
  {
    if lru != [] {
      var first, rest := lru[0], Survivors(gobs, busy, m1, lru[1..]);
      PassesCompose(gobs, gobs', busy, m1, m2, lru[1..]);
      if Spared(gobs, busy, m1, first) {
        var s := [first] + rest;
        assert Survivors(gobs, busy, m1, lru) == s && first in s && s[1..] == rest;
        assert Spared(gobs', busy, m2, first) == Spared(gobs, busy, m2, first);
      } else {
        assert Survivors(gobs, busy, m1, lru) == rest;
        assert !Spared(gobs, busy, m2, first);
      }
    }
  }

  /** Visiting one more GOB at the end of a pass. */
  lemma {:induction false} ReclaimNext(st: Store, busy: set<GobId>, mintime: int, todo: seq<GobId>, g: GobId)
    ensures var r := Reclaimed(st, busy, mintime, todo);
      Reclaimed(st, busy, mintime, todo + [g]) == if Spared(r.gobs, busy, mintime, g) then r else Retire(r, g)
    decreases |todo|
  {
    if todo == [] {
      assert [] + [g] == [g];
    } else {
      assert (todo + [g])[1..] == todo[1..] + [g];
      ReclaimNext(if Spared(st.gobs, busy, mintime, todo[0]) then st else Retire(st, todo[0]), busy, mintime,
        todo[1..], g);
    }
  }

  lemma SuccessorMiddle(a: seq<GobId>, g: GobId, b: seq<GobId>)
    requires NoDup(a + [g] + b)
    ensures g in a + [g] + b && Successor(a + [g] + b, g) == First(b)
  {
    var s := a + [g] + b;
    assert s[|a|] == g && IndexOf(s, g) == |a|;
  }

  /** What is left of the usage list when a pass has come to `g`. */
  lemma {:induction false} PassReaches(st: Store, busy: set<GobId>, mintime: int, done: seq<GobId>, g: GobId,
    rest: seq<GobId>)
    requires NoDup(st.lru) && st.lru == done + [g] + rest
    ensures Reclaimed(st, busy, mintime, done).lru == Survivors(st.gobs, busy, mintime, done) + [g] + rest
  {
    assert [] + done + ([g] + rest) == st.lru;
    ReclaimExact(st, busy, mintime, [], done, [g] + rest);
    var kept := Survivors(st.gobs, busy, mintime, done);
    assert [] + kept + ([g] + rest) == kept + [g] + rest;
  }

  /** After visiting `k` GOBs the next one is still listed, unchanged, and followed by the one after it. */
  lemma {:induction false} NextToVisit(st: Store, now: int, busy: set<GobId>, mintime: int, k: nat)
    requires StoreOk(st, now, None) && k < |st.lru|
    ensures var r := Reclaimed(st, busy, mintime, st.lru[..k]);
      && st.lru[k] in r.lru && st.lru[k] in r.gobs && r.gobs[st.lru[k]].incache
      && Successor(r.lru, st.lru[k]) == (if k + 1 < |st.lru| then Some(st.lru[k + 1]) else None)
  {
    var done, g, rest := st.lru[..k], st.lru[k], st.lru[k + 1..];
    var r := Reclaimed(st, busy, mintime, done);
    assert st.lru == done + [g] + rest;
    PassReaches(st, busy, mintime, done, g, rest);
    ReclaimKeeps(st, now, busy, mintime, done);
    SuccessorMiddle(Survivors(st.gobs, busy, mintime, done), g, rest);
    assert EntryOk(r, g) && GobOk(r, now, None, g);
  }

  /** The store before and after a visit. */
  lemma VisitGives(st: Store, now: int, busy: set<GobId>, mintime: int, k: nat) returns (r: Store, r': Store)
    requires StoreOk(st, now, None) && k < |st.lru|
    ensures r == Reclaimed(st, busy, mintime, st.lru[..k]) && r' == Reclaimed(st, busy, mintime, st.lru[..k + 1])
    ensures var g := st.lru[k];
      && g in r.lru && g in r.gobs && r.gobs[g].incache
      && r' == (if Spared(r.gobs, busy, mintime, g) then r else Retire(r, g))
      && Successor(r.lru, g) == (if k + 1 < |st.lru| then Some(st.lru[k + 1]) else None)
  {
    NextToVisit(st, now, busy, mintime, k);
    ReclaimNext(st, busy, mintime, st.lru[..k], st.lru[k]);
    assert st.lru[..k + 1] == st.lru[..k] + [st.lru[k]];
    r, r' := Reclaimed(st, busy, mintime, st.lru[..k]), Reclaimed(st, busy, mintime, st.lru[..k + 1]);
  }

  lemma {:induction false} FewerSurvive(gobs: map<GobId, Gob>, busy: set<GobId>, mintime: int, lru: seq<GobId>)
    ensures |Survivors(gobs, busy, mintime, lru)| <= |lru|
  {
    if lru != [] { FewerSurvive(gobs, busy, mintime, lru[1..]); }
  }

  /** A full pass: who survives, and that the survivors and the handles are untouched. */
  lemma {:induction false} FullPass(st: Store, now: int, busy: set<GobId>, mintime: int)
    requires StoreOk(st, now, None)
    ensures var r := Reclaimed(st, busy, mintime, st.lru);
      && r.lru == Survivors(st.gobs, busy, mintime, st.lru) && |r.lru| <= |st.lru| && r.gins == st.gins
      && forall g :: g in r.lru ==> g in st.gobs && g in r.gobs && r.gobs[g] == st.gobs[g]
  {
    var r := Reclaimed(st, busy, mintime, st.lru);
    var kept := Survivors(st.gobs, busy, mintime, st.lru);
    assert st.lru == [] + st.lru + [] && kept == [] + kept + [];
    ReclaimExact(st, busy, mintime, [], st.lru, []);
    SurvivorsSpared(st.gobs, busy, mintime, st.lru);
    FewerSurvive(st.gobs, busy, mintime, st.lru);
    forall g | g in r.lru ensures g in st.gobs && g in r.gobs && r.gobs[g] == st.gobs[g] {
      assert EntryOk(st, g);
      ReclaimSpares(st, busy, mintime, st.lru, g);
    }
    SameGins(st, busy, mintime, st.lru);
  }

  lemma {:induction false} SameGins(st: Store, busy: set<GobId>, mintime: int, todo: seq<GobId>)
    ensures Reclaimed(st, busy, mintime, todo).gins == st.gins
    decreases |todo|
  {
    if todo != [] {
      SameGins(if Spared(st.gobs, busy, mintime, todo[0]) then st else Retire(st, todo[0]), busy, mintime, todo[1..]);
    }
  }

  /** `r` is `st` less the GOBs a full pass with this limit takes. */
  ghost predicate Pruned(st: Store, r: Store, now: int, busy: set<GobId>, mintime: int) {
    && StoreOk(r, now, None) && r.gins == st.gins && |r.lru| <= |st.lru|
    && r.lru == Survivors(st.gobs, busy, mintime, st.lru)
    && forall g :: g in r.lru ==> g in st.gobs && g in r.gobs && r.gobs[g] == st.gobs[g]
  }

  lemma {:induction false} PassOnce(st: Store, now: int, busy: set<GobId>, mintime: int)
    requires StoreOk(st, now, None)
    ensures Pruned(st, Reclaimed(st, busy, mintime, st.lru), now, busy, mintime)
  {
    FullPass(st, now, busy, mintime);
    ReclaimKeeps(st, now, busy, mintime, st.lru);
  }

  /** A pass with a later limit over what an earlier one left is the later one alone. */
  lemma PassAgain(st: Store, r: Store, r': Store, now: int, busy: set<GobId>, m1: int, m2: int)
    requires Pruned(st, r, now, busy, m1) && Pruned(r, r', now, busy, m2) && m1 <= m2
    ensures Pruned(st, r', now, busy, m2)
  {
    SurvivorsSpared(r.gobs, busy, m2, r.lru);
    PassesCompose(st.gobs, r.gobs, busy, m1, m2, st.lru);
  }

  /** The age limit of the next round: three quarters of the last, rounded up, but at least one second less. */
  function Shortened(age: int): (r: int)
    ensures r < age && (age >= 4 ==> 3 * age <= 4 * r < 3 * age + 4) && (age < 8 ==> r == age - 1)
  {
    age - if age < 4 then 1 else age / 4
  }

  /** The clock does not run back. */
  ghost predicate NeverBack(clock: nat -> int) {
    forall i, j :: 0 <= i <= j ==> clock(i) <= clock(j)
  }

  /** No round before this one brought enough. */
  ghost predicate NotYet(enough: nat -> bool, rounds: nat) {
    forall i :: 0 <= i < rounds ==> !enough(i)
  }

  function AgeAfter(maxage: int, rounds: nat): int {
    if rounds == 0 then maxage else Shortened(AgeAfter(maxage, rounds - 1))
  }

  /** The store after a round: in order, with its handles, and pruned if the scan did not give up early. */
  ghost predicate Rounded(st: Store, r: Store, now: int, busy: set<GobId>, mintime: int, maxgobs: nat) {
    && StoreOk(r, now, None) && r.gins == st.gins
    && (|st.lru| <= maxgobs + 1 ==> Pruned(st, r, now, busy, mintime))
  }

  /** Every round so far shortened the age and brought too little. */
  ghost predicate TooLittle(enough: nat -> bool, maxage: int, rounds: nat, age: int) {
    age == AgeAfter(maxage, rounds) && NotYet(enough, rounds)
  }

  lemma {:induction false} OneMoreRound(enough: nat -> bool, maxage: int, rounds: nat, age: int)
    requires TooLittle(enough, maxage, rounds, age) && !enough(rounds)
    ensures TooLittle(enough, maxage, rounds + 1, Shortened(age))
  {
  }

  /** The last of these rounds, at the time `time`, left this store. */
  ghost predicate SoFar(st: Store, r: Store, now: int, busy: set<GobId>, maxgobs: nat, time: int,
    enough: nat -> bool, maxage: int, rounds: nat, age: int)
  {
    TooLittle(enough, maxage, rounds, age) && Rounded(st, r, now, busy, time - age, maxgobs)
  }

  lemma RoundedOutlive(st: Store, r: Store, now: int, busy: set<GobId>, mintime: int, maxgobs: nat)
    requires StoreOk(st, now, None) && Rounded(st, r, now, busy, mintime, maxgobs)
    ensures |st.lru| <= maxgobs + 1 ==>
      r.lru == Survivors(st.gobs, busy, mintime, st.lru) && Outlive(st, r.lru, busy, mintime, st.lru)
  {
    AllOutlive(st, now, busy, mintime, |st.lru|);
  }

  lemma RoundAgain(st: Store, r: Store, r': Store, now: int, busy: set<GobId>, m1: int, m2: int, maxgobs: nat)
    requires Rounded(st, r, now, busy, m1, maxgobs) && Rounded(r, r', now, busy, m2, maxgobs) && m1 <= m2
    ensures Rounded(st, r', now, busy, m2, maxgobs)
  {
    if |st.lru| <= maxgobs + 1 { PassAgain(st, r, r', now, busy, m1, m2); }
  }

  /** What a lookup finds is usable. */
  lemma LookupHits(st: Store, now: int, name: Name, time: int)
    requires StoreOk(st, now, None) && name in st.hash && now <= time
    ensures var g := st.hash[name];
      && g in st.gobs && st.gobs[g].inuse && st.gobs[g].incache && !st.gobs[g].dropping && !st.gobs[g].pending
      && StoreOk(Hit(st, g, time), time, Some(g))
  {
    assert NameOk(st, name) && GobOk(st, now, None, st.hash[name]);
    HitKeeps(st, st.hash[name], now, time);
  }

  /** Closing a handle gives back one reference and keeps the store in order. */
  lemma CloseKeeps(st: Store, now: int, gin: GinId)
    requires StoreOk(st, now, None) && gin in st.gins
    ensures var g := st.gins[gin]; g in st.gobs && st.gobs[g].incache && StoreOk(Release(Detach(st, gin), g), now, None)
  {
    var g := st.gins[gin];
    DetachKeeps(st, now, gin);
    assert GinOk(st, gin) && EntryOk(st, g) && GobOk(st, now, None, g);
    ReleaseKeeps(Detach(st, gin), now, g);
  }

  /** The GOB a lookup finds or makes, and the store with it. */
  function Looked(st: Store, name: Name, addr: GobId, time: int): (GobId, Store)
    requires name in st.hash ==> st.hash[name] in st.gobs
  {
    if name in st.hash then (st.hash[name], Hit(st, st.hash[name], time))
    else (NewGob(st, addr), Create(st, NewGob(st, addr), name, time))
  }

  /**
   * An opened GOB is filed under its name, first in the list, not pending, and to be kept if
   * that was asked for now or before.
   */
  lemma OpenedIs(st: Store, now: int, name: Name, addr: GobId, time: int, gin: GinId, keep: bool)
    requires StoreOk(st, now, None) && addr !in st.gobs && (name in st.hash ==> st.hash[name] in st.gobs)
    ensures var (g, st') := Looked(st, name, addr, time);
      g in st'.gobs && Opens(st, Attach(st', g, gin, keep), name, g, time, keep)
  {
    var (g, st') := Looked(st, name, addr, time);
    if name in st.hash {
      assert NameOk(st, name);
    } else {
      NotListed(st, now, g);
    }
  }

  lemma NotListed(st: Store, now: int, g: GobId)
    requires StoreOk(st, now, None) && (g !in st.gobs || g in st.freeGobs)
    ensures g !in st.lru
  {
    if g in st.gobs { assert GobOk(st, now, None, g); }
  }

  ghost predicate Opens(st: Store, r: Store, name: Name, g: GobId, time: int, keep: bool) {
    && g in r.gobs && !r.gobs[g].pending && r.gobs[g].utime == time && r.gobs[g].name == name
    && (r.gobs[g].deferFree <==>
        keep || (name in st.hash && st.hash[name] in st.gobs && st.gobs[st.hash[name]].deferFree))
    && r.hash == st.hash[name := g] && (name in st.hash ==> g == st.hash[name])
    && r.lru == [g] + Without(st.lru, g)
  }

  /** A closed GOB stays, under its name, if it is to be kept or another handle points at it, and else it is gone. */
  lemma CloseExact(st: Store, now: int, gin: GinId)
    requires StoreOk(st, now, None) && gin in st.gins && st.gins[gin] in st.gobs
    ensures var g := st.gins[gin];
      var r := Release(Detach(st, gin), g);
      && gin !in r.gins && st.gobs[g].name in st.hash
      && (if st.gobs[g].deferFree || GinsOf(st.gins, g) != {gin}
          then r.lru == st.lru && r.hash == st.hash
          else g !in r.lru && st.gobs[g].name !in r.hash)
  {
    var g := st.gins[gin];
    assert GinOk(st, gin) && EntryOk(st, g) && GobOk(st, now, None, g);
    assert gin in GinsOf(st.gins, g);
    OnlyOne(GinsOf(st.gins, g), gin);
    WithoutProperties(st.lru, g);
  }

  lemma OnlyOne(s: set<GinId>, x: GinId)
    requires x in s
    ensures |s| == 1 <==> s == {x}
  {
    if |s| == 1 { assert |s - {x}| == 0; }
  }

  // ---------- the code ----------

  datatype IoMode = ReadOnly | AppendOnly | ReadAppend | OtherMode
  datatype OpenResult = Opened(gin: GinId) | BadIoMode | NameInvalid | OpenFailed
  datatype CloseResult = Closed | BadGin

  class Library {
    var gobs: map<GobId, Gob>
    var hash: map<Name, GobId>
    var lru: seq<GobId>
    var freeGobs: seq<GobId>
    var gins: map<GinId, GobId>
    var freeGins: seq<GinId>
    var held: set<Lock>       // the locks this thread owns

    constructor ()
      ensures View() == Store(map[], map[], [], [], map[], []) && held == {} && forall now :: StoreOk(View(), now, None)
    {
      gobs, hash, lru, freeGobs, gins, freeGins, held := map[], map[], [], [], map[], [], {};
    }

    function View(): Store
      reads this
    {
      Store(gobs, hash, lru, freeGobs, gins, freeGins)
    }

    /** Taking a lock one already owns would hang. */
    method Acquire(l: Lock)
      requires l !in held
      modifies `held
      ensures held == old(held) + {l}
    {
      held := held + {l};
    }

    method Drop(l: Lock)
      requires l in held
      modifies `held
      ensures held == old(held) - {l}
    {
      held := held - {l};
    }

    /** What a lookup does with a GOB it found: lock, count and move to the front. */
    method Found(g: GobId, time: int)
      requires g in gobs && GobLock(g) !in held
      modifies `gobs, `lru, `held
      ensures View() == Hit(old(View()), g, time) && held == old(held) + {GobLock(g)}
    {
      Acquire(GobLock(g));
      gobs := gobs[g := gobs[g].(refcnt := gobs[g].refcnt + 1, utime := time)];
      lru := [g] + Without(lru, g);
    }

    /** _gdp_gob_new and add_cache_unlocked. */
    method Make(name: Name, addr: GobId, time: int) returns (g: GobId)
      requires forall h :: GobLock(h) !in held
      modifies `gobs, `hash, `lru, `freeGobs, `held
      ensures g == NewGob(old(View()), addr) && View() == Create(old(View()), g, name, time)
      ensures held == old(held) + {GobLock(g)}
    {
      if freeGobs != [] {
        g := freeGobs[0];
        freeGobs := freeGobs[1..];
      } else {
        g := addr;
      }
      gobs := gobs[g := Gob(true, false, false, true, false, 1, name, time)];
      Acquire(GobLock(g));
      hash := hash[name := g];
      lru := [g] + lru;
      gobs := gobs[g := gobs[g].(incache := true)];
      assert gobs == old(gobs)[g := gobs[g]];
    }

    /** _gdp_gob_cache_get with CREATE: the GOB comes back locked and referenced. */
    method CacheGet(name: Name, addr: GobId, ghost now: int, time: int) returns (g: GobId)
      requires StoreOk(View(), now, None) && now <= time && addr !in gobs
      requires CacheMutex !in held && forall h :: GobLock(h) !in held
      modifies this
      ensures held == old(held) + {GobLock(g)} && g in gobs && StoreOk(View(), time, Some(g))
      ensures gobs[g].pending <==> name !in old(hash)
      ensures name !in old(hash) ==> g == if old(freeGobs) == [] then addr else old(freeGobs)[0]
      ensures name in old(hash) ==> g == old(hash)[name] && g in old(gobs) && View() == Hit(old(View()), g, time)
      ensures name !in old(hash) ==> g == NewGob(old(View()), addr) && View() == Create(old(View()), g, name, time)
    {
      ghost var before := View();
      Acquire(CacheMutex);
      if name in hash {
        g := hash[name];
        LookupHits(before, now, name, time);
        assert gobs[g].inuse && gobs[g].incache && !gobs[g].dropping && !gobs[g].pending;
        Found(g, time);
      } else {
        CreateKeeps(before, addr, name, now, time);
        g := Make(name, addr, time);
      }
      Drop(CacheMutex);
    }

    /** _gdp_gob_cache_drop; with `cleanup` the caller already owns the cache mutex. */
    method CacheDrop(g: GobId, cleanup: bool)
      requires g in gobs && GobLock(g) in held && (cleanup <==> CacheMutex in held)
      modifies `gobs, `hash, `lru, `held
      ensures View() == Unlink(old(View()), g) && held == old(held)
    {
      MarkedUnlinks(View(), g);
      gobs := gobs[g := gobs[g].(dropping := true)];
      if cleanup { Unfile(g); } else { UnfileAlone(g); }
    }

    /** The way out of the cache for a caller without the cache mutex. */
    method UnfileAlone(g: GobId)
      requires g in gobs && gobs[g].dropping && GobLock(g) in held && CacheMutex !in held
      modifies `gobs, `hash, `lru, `held
      ensures View() == Unlink(old(View()), g) && held == old(held)
    {
      LockBoth(g);
      Unfile(g);
      Drop(CacheMutex);
    }

    /** The cache mutex comes first, so the lock of the GOB is given up and taken again. */
    method LockBoth(g: GobId)
      requires GobLock(g) in held && CacheMutex !in held
      modifies `held
      ensures held == old(held) + {CacheMutex}
    {
      Drop(GobLock(g));
      Acquire(CacheMutex);
      Acquire(GobLock(g));
    }

    /** A GOB already marked leaves the hash and the list. */
    method Unfile(g: GobId)
      requires g in gobs && gobs[g].dropping
      modifies `gobs, `hash, `lru
      ensures View() == Unlink(old(View()), g)
    {
      hash := hash - {gobs[g].name};
      lru := Without(lru, g);
      gobs := gobs[g := gobs[g].(incache := false)];
    }

    /** _gdp_gob_free: the GOB ends up unlocked, out of the cache and on the free list. */
    method GobFree(g: GobId)
      requires g in gobs && GobLock(g) in held && (gobs[g].incache ==> CacheMutex !in held)
      modifies `gobs, `hash, `lru, `freeGobs, `held
      ensures View() == Bury(if old(gobs[g].incache) then Unlink(old(View()), g) else old(View()), g)
      ensures held == old(held) - {GobLock(g)}
    {
      gobs := gobs[g := gobs[g].(dropping := true, refcnt := 0)];
      if gobs[g].incache {
        CacheDrop(g, false);
      }
      Drop(GobLock(g));
      gobs := gobs[g := gobs[g].(inuse := false, incache := false, dropping := false, pending := false,
        deferFree := false)];
      freeGobs := [g] + freeGobs;
    }

    /** _gdp_gob_decref: give back a reference, freeing the GOB if that was the last one. */
    method Decref(g: GobId)
      requires g in gobs && GobLock(g) in held && CacheMutex !in held && gobs[g].incache
      modifies `gobs, `hash, `lru, `freeGobs, `held
      ensures View() == Release(old(View()), g) && held == old(held) - {GobLock(g)}
    {
      if gobs[g].refcnt > 0 {
        gobs := gobs[g := gobs[g].(refcnt := gobs[g].refcnt - 1)];
      }
      if gobs[g].refcnt == 0 && !gobs[g].deferFree {
        GobFree(g);
      } else {
        Drop(GobLock(g));
      }
    }

    /** The open request for a new GOB failed: it is freed again. */
    method Abandon(g: GobId, ghost time: int)
      requires StoreOk(View(), time, Some(g)) && g in gobs && gobs[g].refcnt == 1 && GobLock(g) in held &&
        CacheMutex !in held
      modifies `gobs, `hash, `lru, `freeGobs, `held
      ensures View() == Retire(old(View()), g) && StoreOk(View(), time, None) && held == old(held) - {GobLock(g)}
    {
      ghost var before := View();
      assert GobOk(before, time, Some(g), g);
      assert |GinsOf(gins, g)| == 0;
      RetireKeeps(before, time, Some(g), g);
      GobFree(g);
    }

    /** _gdp_gin_new and the end of the open call: a handle, recycled or new, points at the GOB. */
    method NewHandle(g: GobId, ginAddr: GinId, keep: bool) returns (gin: GinId)
      requires g in gobs
      modifies `gobs, `gins, `freeGins
      ensures gin == NewGin(old(View()), ginAddr) && View() == Attach(old(View()), g, gin, keep)
    {
      gobs := gobs[g := gobs[g].(pending := false)];
      gin := ginAddr;
      if freeGins != [] {
        gin := freeGins[0];
        freeGins := freeGins[1..];
      }
      gins := gins[gin := g];
      if keep {
        gobs := gobs[g := gobs[g].(deferFree := true)];
      }
      assert gobs == old(gobs)[g := gobs[g]];
    }

    /** A new GIN takes over the reference. */
    method TakeOver(g: GobId, ginAddr: GinId, keep: bool, ghost time: int) returns (gin: GinId)
      requires StoreOk(View(), time, Some(g)) && g in gobs && ginAddr !in gins && ginAddr !in freeGins &&
        GobLock(g) in held
      modifies `gobs, `gins, `freeGins, `held
      ensures gin == NewGin(old(View()), ginAddr) && gin !in old(gins) && View() == Attach(old(View()), g, gin, keep)
      ensures gin == if old(freeGins) == [] then ginAddr else old(freeGins)[0]
      ensures StoreOk(View(), time, None) && held == old(held) - {GobLock(g)}
    {
      ghost var before := View();
      AttachKeeps(before, time, g, ginAddr, keep);
      AttachGins(before, time, g, ginAddr, keep);
      gin := NewHandle(g, ginAddr, keep);
      Drop(GobLock(g));
    }

    /** gdp_gin_open: every outcome leaves the reference counts right and no lock behind. */
    method GinOpen(name: Name, mode: IoMode, keep: bool, accepted: bool, gobAddr: GobId, ginAddr: GinId,
      ghost now: int, time: int) returns (r: OpenResult)
      requires StoreOk(View(), now, None) && now <= time && held == {}
      requires gobAddr !in gobs && ginAddr !in gins && ginAddr !in freeGins
      modifies this
      ensures StoreOk(View(), time, None) && held == {}
      ensures r.BadIoMode? <==> mode.OtherMode?
      ensures r.NameInvalid? <==> !mode.OtherMode? && name == 0
      ensures r.BadIoMode? || r.NameInvalid? ==> View() == old(View())
      ensures r.OpenFailed? <==> !mode.OtherMode? && name != 0 && name !in old(hash) && !accepted
      ensures r.OpenFailed? ==> gins == old(gins) && hash == old(hash) && lru == old(lru)
      ensures r.Opened? ==> r.gin !in old(gins) && name in hash && gins == old(gins)[r.gin := hash[name]]
      ensures r.Opened? ==> Opens(old(View()), View(), name, hash[name], time, keep)
    {
      OrderLater(View(), now, time);
      if mode.OtherMode? { return BadIoMode; }
      if name == 0 { return NameInvalid; }
      Acquire(OpenMutex);
      ghost var before := View();
      var g := CacheGet(name, gobAddr, now, time);
      if gobs[g].pending && !accepted {
        CreatedAndRetired(before, g, name, time);
        Abandon(g, time);
        r := OpenFailed;
      } else {
        assert g in lru && EntryOk(View(), g);
        var gin := TakeOver(g, ginAddr, keep, time);
        OpenedIs(before, now, name, gobAddr, time, gin, keep);
        r := Opened(gin);
      }
      Drop(OpenMutex);
    }

    /** gdp_gin_close: the handle is freed and its reference given back. */
    method GinClose(gin: GinId, ghost now: int) returns (r: CloseResult)
      requires StoreOk(View(), now, None) && held == {}
      modifies this
      ensures StoreOk(View(), now, None) && held == {}
      ensures r.Closed? <==> gin in old(gins)
      ensures r.BadGin? ==> View() == old(View())
      ensures r.Closed? ==> old(gins)[gin] in old(gobs) && View() == Release(Detach(old(View()), gin), old(gins)[gin])
      ensures r.Closed? ==>
        var g := old(gins)[gin];
        && gin !in gins && old(gobs)[g].name in old(hash)
        && (if old(gobs)[g].deferFree || GinsOf(old(gins), g) != {gin}
            then lru == old(lru) && hash == old(hash)
            else g !in lru && old(gobs)[g].name !in hash)
    {
      Acquire(GinLock(gin));
      if gin !in gins {
        Drop(GinLock(gin));
        return BadGin;
      }
      var g := gins[gin];
      CloseKeeps(View(), now, gin);
      CloseExact(View(), now, gin);
      FreeHandle(gin, g);
      Drop(GinLock(gin));
      r := Closed;
    }

    /** The reference is given back, and the handle goes to the free list. */
    method FreeHandle(gin: GinId, g: GobId)
      requires gin in gins && g in gobs && gobs[g].incache && held == {GinLock(gin)}
      modifies this
      ensures View() == Release(Detach(old(View()), gin), g) && held == old(held)
    {
      Acquire(GobLock(g));
      Decref(g);
      gins := gins - {gin};
      freeGins := [gin] + freeGins;
    }

    /** The body of the scan: try the lock, look at the GOB, and drop and free it if it qualifies. */
    method VisitOne(g: GobId, busy: set<GobId>, mintime: int)
      requires g in gobs && gobs[g].incache && held == {CacheMutex}
      modifies `gobs, `hash, `lru, `freeGobs, `held
      ensures View() == (if Spared(old(gobs), busy, mintime, g) then old(View()) else Retire(old(View()), g)) &&
        held == {CacheMutex}
      ensures View() == old(View()) <==>
        g in busy || old(gobs)[g].utime > mintime || old(gobs)[g].dropping || old(gobs)[g].refcnt > 0
    {
      if g in busy { return; }
      Acquire(GobLock(g));
      if gobs[g].utime > mintime || gobs[g].dropping || gobs[g].refcnt > 0 {
        Drop(GobLock(g));
      } else {
        CacheDrop(g, true);
        GobFree(g);
      }
    }

    /** One pass of _gdp_gob_cache_reclaim, giving up after `maxgobs` more GOBs than the first. */
    method ReclaimPass(busy: set<GobId>, mintime: int, maxgobs: nat, ghost now: int)
      requires StoreOk(View(), now, None) && held == {}
      modifies `gobs, `hash, `lru, `freeGobs, `held
      ensures held == {} && StoreOk(View(), now, None)
      ensures var k := if |old(lru)| <= maxgobs + 1 then |old(lru)| else maxgobs + 1;
        && View() == Reclaimed(old(View()), busy, mintime, old(lru)[..k])
        && lru == Survivors(old(gobs), busy, mintime, old(lru)[..k]) + old(lru)[k..]
        && forall g :: g in old(lru)[..k] ==>
             g in old(gobs) &&
             (g in lru <==>
              g in busy || old(gobs)[g].utime > mintime || old(gobs)[g].dropping || GinsOf(old(gins), g) != {})
    {
      ghost var st := View();
      Acquire(CacheMutex);
      var count := ScanList(busy, mintime, maxgobs, now);
      Drop(CacheMutex);
      PassDone(st, now, busy, mintime, count);
      AllOutlive(st, now, busy, mintime, count);
    }

    /** The loop of a pass, under the cache mutex. */
    method ScanList(busy: set<GobId>, mintime: int, maxgobs: nat, ghost now: int) returns (count: nat)
      requires StoreOk(View(), now, None) && held == {CacheMutex}
      modifies `gobs, `hash, `lru, `freeGobs, `held
      ensures held == {CacheMutex} && count == if |old(lru)| <= maxgobs + 1 then |old(lru)| else maxgobs + 1
      ensures View() == Reclaimed(old(View()), busy, mintime, old(lru)[..count])
    {
      ghost var st := View();
      var g1 := First(lru);
      count := 0;
      while g1.Some? && count <= maxgobs
        invariant count <= |st.lru| && count <= maxgobs + 1 && held == {CacheMutex}
        invariant View() == Reclaimed(st, busy, mintime, st.lru[..count])
        invariant g1 == if count < |st.lru| then Some(st.lru[count]) else None
        decreases |st.lru| - count
      {
        g1 := VisitNext(st, busy, mintime, g1.value, count, now);
        count := count + 1;
      }
    }

    /** Visit the GOB the scan has come to; the one to come to next is found before that. */
    method VisitNext(ghost st: Store, busy: set<GobId>, mintime: int, g: GobId, ghost k: nat, ghost now: int)
      returns (g2: Option<GobId>)
      requires StoreOk(st, now, None) && k < |st.lru| && g == st.lru[k] && held == {CacheMutex}
      requires View() == Reclaimed(st, busy, mintime, st.lru[..k])
      modifies `gobs, `hash, `lru, `freeGobs, `held
      ensures held == {CacheMutex} && View() == Reclaimed(st, busy, mintime, st.lru[..k + 1])
      ensures g2 == if k + 1 < |st.lru| then Some(st.lru[k + 1]) else None
    {
      ghost var r, r' := VisitGives(st, now, busy, mintime, k);
      g2 := Successor(lru, g);
      VisitOne(g, busy, mintime);
    }

    /**
     * _gdp_gob_cache_reclaim: passes with a shrinking age limit until enough descriptors are
     * free.  When no pass gives up early, the outcome is that of the last pass alone.
     */
    method Reclaim(maxage: int, busy: set<GobId>, maxgobs: nat, clock: nat -> int, enough: nat -> bool, ghost now: int)
      returns (rounds: nat, age: int)
      requires StoreOk(View(), now, None) && held == {}
      requires NeverBack(clock)
      modifies `gobs, `hash, `lru, `freeGobs, `held
      ensures held == {} && StoreOk(View(), now, None) && gins == old(gins)
      ensures |old(lru)| <= maxgobs + 1 ==> lru == Survivors(old(gobs), busy, clock(rounds) - age, old(lru))
      ensures |old(lru)| <= maxgobs + 1 ==>
        forall g :: g in old(lru) ==>
          g in old(gobs) &&
          (g in lru <==>
           g in busy || old(gobs)[g].utime > clock(rounds) - age || old(gobs)[g].dropping || GinsOf(old(gins), g) != {})
      ensures age == AgeAfter(maxage, rounds) && (enough(rounds) || Shortened(age) <= 0)
      ensures NotYet(enough, rounds)
    {
      ghost var st := View();
      rounds, age := Rounds(maxage, busy, maxgobs, clock, enough, now);
      RoundedOutlive(st, View(), now, busy, clock(rounds) - age, maxgobs);
    }

    /** A first round, and further ones as long as needed. */
    method Rounds(maxage: int, busy: set<GobId>, maxgobs: nat, clock: nat -> int, enough: nat -> bool, ghost now: int)
      returns (rounds: nat, age: int)
      requires StoreOk(View(), now, None) && held == {}
      requires NeverBack(clock)
      modifies `gobs, `hash, `lru, `freeGobs, `held
      ensures held == {} && Rounded(old(View()), View(), now, busy, clock(rounds) - age, maxgobs)
      ensures age == AgeAfter(maxage, rounds) && (enough(rounds) || Shortened(age) <= 0)
      ensures NotYet(enough, rounds)
    {
      ghost var st := View();
      Round(busy, clock(0) - maxage, maxgobs, now);
      rounds, age := Retry(st, maxage, busy, maxgobs, clock, enough, now);
    }

    /** Further rounds, until there is room enough or no age left to shorten. */
    method Retry(ghost st: Store, maxage: int, busy: set<GobId>, maxgobs: nat, clock: nat -> int, enough: nat -> bool,
                 ghost now: int)
      returns (rounds: nat, age: int)
      requires Rounded(st, View(), now, busy, clock(0) - maxage, maxgobs) && held == {}
      requires NeverBack(clock)
      modifies `gobs, `hash, `lru, `freeGobs, `held
      ensures held == {} && Rounded(st, View(), now, busy, clock(rounds) - age, maxgobs)
      ensures age == AgeAfter(maxage, rounds) && (enough(rounds) || Shortened(age) <= 0)
      ensures NotYet(enough, rounds)
    {
      rounds, age := 0, maxage;
      while !enough(rounds) && Shortened(age) > 0
        invariant held == {} && SoFar(st, View(), now, busy, maxgobs, clock(rounds), enough, maxage, rounds, age)
        decreases age
      {
        assert clock(rounds) <= clock(rounds + 1);
        age := Again(st, maxage, busy, maxgobs, clock(rounds), clock(rounds + 1), enough, rounds, age, now);
        rounds := rounds + 1;
      }
    }

    /** One more round, at the time `time`. */
    method Again(ghost st: Store, ghost maxage: int, busy: set<GobId>, maxgobs: nat, ghost earlier: int, time: int,
                 ghost enough: nat -> bool, ghost rounds: nat, age: int, ghost now: int) returns (next: int)
      requires SoFar(st, View(), now, busy, maxgobs, earlier, enough, maxage, rounds, age) && held == {}
      requires earlier <= time && !enough(rounds)
      modifies `gobs, `hash, `lru, `freeGobs, `held
      ensures held == {} && next == Shortened(age)
      ensures SoFar(st, View(), now, busy, maxgobs, time, enough, maxage, rounds + 1, next)
    {
      OneMoreRound(enough, maxage, rounds, age);
      next := Shortened(age);
      NextRound(st, busy, earlier - age, time - next, maxgobs, now);
    }

    method NextRound(ghost st: Store, busy: set<GobId>, ghost before: int, mintime: int, maxgobs: nat, ghost now: int)
      requires Rounded(st, View(), now, busy, before, maxgobs) && before <= mintime && held == {}
      modifies `gobs, `hash, `lru, `freeGobs, `held
      ensures held == {} && Rounded(st, View(), now, busy, mintime, maxgobs)
    {
      ghost var r := View();
      Round(busy, mintime, maxgobs, now);
      RoundAgain(st, r, View(), now, busy, before, mintime, maxgobs);
    }

    method Round(busy: set<GobId>, mintime: int, maxgobs: nat, ghost now: int)
      requires StoreOk(View(), now, None) && held == {}
      modifies `gobs, `hash, `lru, `freeGobs, `held
      ensures held == {} && Rounded(old(View()), View(), now, busy, mintime, maxgobs)
    {
      ghost var st := View();
      PassOnce(st, now, busy, mintime);
      assert lru[..|lru|] == lru;
      ReclaimPass(busy, mintime, maxgobs, now);
      SameGins(st, busy, mintime, st.lru[..if |st.lru| <= maxgobs + 1 then |st.lru| else maxgobs + 1]);
    }
  }

  lemma {:induction false} PassDone(st: Store, now: int, busy: set<GobId>, mintime: int, k: nat)
    requires StoreOk(st, now, None) && k <= |st.lru|
    ensures var r := Reclaimed(st, busy, mintime, st.lru[..k]);
      StoreOk(r, now, None) && r.lru == Survivors(st.gobs, busy, mintime, st.lru[..k]) + st.lru[k..]
  {
    var front, back := st.lru[..k], st.lru[k..];
    assert st.lru == front + back;
    FrontPassed(st, busy, mintime, front, back);
    ReclaimKeeps(st, now, busy, mintime, front);
  }

  lemma {:induction false} FrontPassed(st: Store, busy: set<GobId>, mintime: int, front: seq<GobId>, back: seq<GobId>)
    requires NoDup(st.lru) && st.lru == front + back
    ensures Reclaimed(st, busy, mintime, front).lru == Survivors(st.gobs, busy, mintime, front) + back
  {
    var kept := Survivors(st.gobs, busy, mintime, front);
    assert st.lru == [] + front + back && [] + kept + back == kept + back;
    ReclaimExact(st, busy, mintime, [], front, back);
  }

  /** The order of the store does not depend on how late it is. */
  lemma OrderLater(st: Store, now: int, time: int)
    requires StoreOk(st, now, None) && now <= time
    ensures StoreOk(st, time, None)
  {
    forall g | g in st.gobs ensures GobOk(st, time, None, g) { assert GobOk(st, now, None, g); }
  }

  /** A GOB created and at once retired leaves no trace in the cache. */
  lemma CreatedAndRetired(st: Store, g: GobId, name: Name, time: int)
    requires NoDup([g] + st.lru) && name !in st.hash
    ensures var st' := Retire(Create(st, g, name, time), g);
            st'.hash == st.hash && st'.lru == st.lru && st'.gins == st.gins
  {
    assert [] + [g] + st.lru == [g] + st.lru && [] + st.lru == st.lru;
    WithoutMiddle([], g, st.lru);
    assert st.hash[name := g] - {name} == st.hash;
  }
}
