/**
 * The chained hash table: a finite map from byte strings to values, where a deleted key
 * leaves its node behind with no value.
 */
module Hash {
  import opened Assoc
  import Bytes
  import opened Collections

  type Key = seq<Bytes.Byte>

  /** A node; a deleted one has no value. */
  type Node<V> = Entry<Key, Option<V>>

  // ---------- the default hash function ----------

  function Xor(a: nat, b: nat): nat
    decreases a
  {
    if a == 0 then b else (if a % 2 == b % 2 then 0 else 1) + 2 * Xor(a / 2, b / 2)
  }

  function Bit(n: nat, k: nat): nat {
    if k == 0 then n % 2 else Bit(n / 2, k - 1)
  }

  /** Bit by bit, a sum without carry. */
  lemma {:induction false} XorBits(a: nat, b: nat, k: nat)
    ensures Bit(Xor(a, b), k) == if Bit(a, k) == Bit(b, k) then 0 else 1
    decreases k
  {
    if a == 0 {
      NoBits(k);
    } else if k > 0 {
      XorBits(a / 2, b / 2, k - 1);
      Halved(if a % 2 == b % 2 then 0 else 1, Xor(a / 2, b / 2));
    } else {
      Halved(if a % 2 == b % 2 then 0 else 1, Xor(a / 2, b / 2));
    }
  }

  lemma Halved(low: nat, x: nat)
    requires low < 2
    ensures (low + 2 * x) / 2 == x && (low + 2 * x) % 2 == low
  {
  }

  lemma {:induction false} NoBits(k: nat)
    ensures Bit(0, k) == 0
    ensures forall b :: Bit(b, k) == 0 || Bit(b, k) == 1
  {
    if k > 0 { NoBits(k - 1); }
  }

  function Pow2(k: nat): (p: nat)
    ensures p > 0
  {
    if k == 0 then 1 else 2 * Pow2(k - 1)
  }

  lemma {:induction false} XorBound(a: nat, b: nat, k: nat)
    requires a < Pow2(k) && b < Pow2(k)
    ensures Xor(a, b) < Pow2(k)
  {
    if a > 0 { XorBound(a / 2, b / 2, k - 1); }
  }

  /** One turn of the default hash, before the remainder is taken. */
  function Mixed(h: nat, b: Bytes.Byte): nat {
    Xor(h * 2, b)
  }

  function DefHash(key: Key, tabsize: nat): (h: nat)
    requires tabsize > 0
    ensures h < tabsize
  {
    if key == [] then 0 else Mixed(DefHash(key[..|key| - 1], tabsize), key[|key| - 1]) % tabsize
  }

  /** For tables of up to 2^30 chains no intermediate value leaves the 31 bits of a non-negative int. */
  lemma MixedFits(h: nat, b: Bytes.Byte, tabsize: nat)
    requires h < tabsize <= 0x4000_0000
    ensures Mixed(h, b) < 0x8000_0000
  {
    Powers();
    XorBound(h * 2, b, 31);
  }

  lemma Powers()
    ensures Pow2(31) == 0x8000_0000
  {
    assert Pow2(8) == 256;
    assert Pow2(16) == 0x1_0000;
    assert Pow2(24) == 0x100_0000;
  }

  /** The hash of short keys: a byte, and two bytes of which the first is doubled. */
  lemma {:induction false} ShortKeys(none: Key, a: Bytes.Byte, b: Bytes.Byte, tabsize: nat)
    requires none == [] && tabsize >= 512
    ensures DefHash(none + [a], tabsize) == a && DefHash(none + [a] + [b], tabsize) == Xor(2 * a, b)
  {
    DefHashSnoc(none, a, tabsize);
    assert Mixed(0, a) == a;
    Small(a, tabsize);
    DefHashSnoc(none + [a], b, tabsize);
    Nine(a, b);
    Small(Xor(2 * a, b), tabsize);
  }

  lemma Small(x: nat, m: nat)
    requires x < m
    ensures x % m == x
  {
  }

  lemma {:induction false} DefHashSnoc(key: Key, b: Bytes.Byte, tabsize: nat)
    requires tabsize > 0
    ensures DefHash(key + [b], tabsize) == Mixed(DefHash(key, tabsize), b) % tabsize
  {
    assert (key + [b])[..|key|] == key;
  }

  lemma Nine(a: Bytes.Byte, b: Bytes.Byte)
    ensures Xor(2 * a, b) < 512
  {
    assert Pow2(8) == 256 && Pow2(9) == 512;
    XorBound(2 * a, b, 9);
  }

  /** def_hfunc. */
  method DefaultHash(key: Key, tabsize: nat) returns (h: nat)
    requires tabsize > 0
    ensures h == DefHash(key, tabsize)
  {
    h := 0;
    for i := 0 to |key|
      invariant h == DefHash(key[..i], tabsize)
    {
      assert key[..i + 1][..i] == key[..i];
      h := Mixed(h, key[i]) % tabsize;
    }
    assert key[..|key|] == key;
  }

  // ---------- one chain ----------

  type Chain<V> = seq<Node<V>>

  /** The value of a key; a node without a value is as good as none. */
  function Get<V>(chain: Chain<V>, key: Key): Option<V> {
    match Find(chain, key)
    case None => None
    case Some(val) => val
  }

  /** Deleting forgets the value of a node that is there and adds none. */
  function Erase<V>(chain: Chain<V>, key: Key): Chain<V> {
    if Slot(chain, key) < |chain| then Set(chain, key, None) else chain
  }

  lemma EraseGet<V>(chain: Chain<V>, key: Key, other: Key)
    requires Distinct(chain)
    ensures Distinct(Erase(chain, key))
    ensures Get(Erase(chain, key), other) == if other == key then None else Get(chain, other)
  {
    if Slot(chain, key) < |chain| { SetFind(chain, key, None, other); }
  }

  // ---------- the table ----------

  /** Every node is in the chain its key hashes to, and no chain holds a key twice. */
  ghost predicate TableOk<V>(tab: seq<seq<Node<V>>>, hfunc: Key -> nat) {
    && (forall k {:trigger hfunc(k)} :: hfunc(k) < |tab|)
    && (forall c {:trigger tab[c]} :: 0 <= c < |tab| ==> Distinct(tab[c]))
    && (forall c, i {:trigger tab[c][i]} :: 0 <= c < |tab| && 0 <= i < |tab[c]| ==> hfunc(tab[c][i].key) == c)
  }

  function Value<V>(tab: seq<seq<Node<V>>>, hfunc: Key -> nat, key: Key): Option<V>
    requires hfunc(key) < |tab|
  {
    Get(tab[hfunc(key)], key)
  }

  lemma InsertIs<V>(tab: seq<seq<Node<V>>>, hfunc: Key -> nat, key: Key, val: Option<V>)
    requires TableOk(tab, hfunc)
    ensures var tab' := tab[hfunc(key) := Set(tab[hfunc(key)], key, val)];
            && TableOk(tab', hfunc)
            && forall k {:trigger Value(tab', hfunc, k)} ::
              Value(tab', hfunc, k) == if k == key then val else Value(tab, hfunc, k)
  {
    var c := hfunc(key);
    var tab' := tab[c := Set(tab[c], key, val)];
    forall k ensures Value(tab', hfunc, k) == (if k == key then val else Value(tab, hfunc, k)) && Distinct(tab'[c]) {
      SetFind(tab[c], key, val, k);
    }
    assert Distinct(tab'[c]) by { SetFind(tab[c], key, val, key); }
  }

  lemma DeleteIs<V>(tab: seq<seq<Node<V>>>, hfunc: Key -> nat, key: Key)
    requires TableOk(tab, hfunc)
    ensures var tab' := tab[hfunc(key) := Erase(tab[hfunc(key)], key)];
            && TableOk(tab', hfunc)
            && forall k {:trigger Value(tab', hfunc, k)} ::
              Value(tab', hfunc, k) == if k == key then None else Value(tab, hfunc, k)
  {
    var c := hfunc(key);
    var tab' := tab[c := Erase(tab[c], key)];
    forall k ensures Value(tab', hfunc, k) == (if k == key then None else Value(tab, hfunc, k)) && Distinct(tab'[c]) {
      EraseGet(tab[c], key, k);
    }
    assert Distinct(tab'[c]) by { EraseGet(tab[c], key, key); }
  }

  // ---------- visiting every node ----------

  function Nodes<V>(tab: seq<seq<Node<V>>>): seq<Node<V>> {
    if tab == [] then [] else Nodes(tab[..|tab| - 1]) + tab[|tab| - 1]
  }

  /** Every node visited is in the table, in the chain of its key. */
  lemma {:induction false} NodesFrom<V>(tab: seq<seq<Node<V>>>, i: nat)
    requires i < |Nodes(tab)|
    ensures exists c, j {:trigger tab[c][j]} :: 0 <= c < |tab| && 0 <= j < |tab[c]| && tab[c][j] == Nodes(tab)[i]
  {
    var rest := tab[..|tab| - 1];
    if i < |Nodes(rest)| {
      NodesFrom(rest, i);
      var c, j :| 0 <= c < |rest| && 0 <= j < |rest[c]| && rest[c][j] == Nodes(rest)[i];
      assert tab[c][j] == Nodes(tab)[i];
    } else {
      assert tab[|tab| - 1][i - |Nodes(rest)|] == Nodes(tab)[i];
    }
  }

  lemma {:induction false} NodesAll<V>(tab: seq<seq<Node<V>>>, c: nat, j: nat)
    requires c < |tab| && j < |tab[c]|
    ensures tab[c][j] in Nodes(tab)
  {
    if c < |tab| - 1 { NodesAll(tab[..|tab| - 1], c, j); }
  }

  ghost predicate Placed<V>(tab: seq<seq<Node<V>>>, hfunc: Key -> nat) {
    && (forall c {:trigger tab[c]} :: 0 <= c < |tab| ==> Distinct(tab[c]))
    && (forall c, i {:trigger tab[c][i]} :: 0 <= c < |tab| && 0 <= i < |tab[c]| ==> hfunc(tab[c][i].key) == c)
  }

  /** No key is visited twice. */
  lemma {:induction false} NodesDistinct<V>(tab: seq<seq<Node<V>>>, hfunc: Key -> nat)
    requires Placed(tab, hfunc)
    ensures Distinct(Nodes(tab))
  {
    if tab != [] {
      var rest: seq<seq<Node<V>>> := tab[..|tab| - 1];
      assert Placed(rest, hfunc) by {
        forall c, i | 0 <= c < |rest| && 0 <= i < |rest[c]| ensures hfunc(rest[c][i].key) == c {
          assert tab[c][i] == rest[c][i];
        }
      }
      NodesDistinct(rest, hfunc);
      var a: seq<Node<V>>, b: seq<Node<V>> := Nodes(rest), tab[|tab| - 1];
      forall i, j | 0 <= i < j < |a + b| ensures (a + b)[i].key != (a + b)[j].key {
        if i < |a| && j >= |a| {
          NodesFrom(rest, i);
          var c, d :| 0 <= c < |rest| && 0 <= d < |rest[c]| && rest[c][d] == a[i];
          assert hfunc(tab[c][d].key) == c && hfunc(tab[|tab| - 1][j - |a|].key) == |tab| - 1;
        }
      }
    }
  }

  /** ep_hash_forall sees every key with a value exactly once, with that value, and nothing but nodes of the table. */
  lemma {:induction false} VisitsExactly<V>(tab: seq<seq<Node<V>>>, hfunc: Key -> nat, key: Key)
    requires TableOk(tab, hfunc)
    ensures Distinct(Nodes(tab))
    ensures Slot(Nodes(tab), key) < |Nodes(tab)| <==> Slot(tab[hfunc(key)], key) < |tab[hfunc(key)]|
    ensures Get(Nodes(tab), key) == Value(tab, hfunc, key)
  {
    NodesDistinct(tab, hfunc);
    var c := hfunc(key);
    var all, i := Nodes(tab), Slot(tab[c], key);
    SlotFirst(all, key);
    SlotFirst(tab[c], key);
    if i < |tab[c]| {
      NodesAll(tab, c, i);
      var m :| 0 <= m < |all| && all[m] == tab[c][i];
      SlotIs(all, key, m);
    } else if Slot(all, key) < |all| {
      NodesFrom(tab, Slot(all, key));
    }
  }

  class Table<V> {
    const tabsize: nat
    const hfunc: Key -> nat
    const tab: array<seq<Node<V>>>

    ghost predicate Valid()
      reads this, tab
    {
      tabsize >= 2 && tab.Length == tabsize && TableOk(tab[..], hfunc)
    }

    ghost function Val(key: Key): Option<V>
      requires Valid()
      reads this, tab
    {
      Value(tab[..], hfunc, key)
    }

    /** ep_hash_new, with a hash function that stays in the table. */
    constructor (hfunc: Key -> nat, tabsize: nat)
      requires tabsize >= 2 && forall k :: hfunc(k) < tabsize
      ensures Valid() && fresh(tab) && this.tabsize == tabsize && this.hfunc == hfunc
      ensures forall k :: Val(k) == None
    {
      this.tabsize, this.hfunc := tabsize, hfunc;
      tab := new seq<Node<V>>[tabsize](_ => []);
    }

    /** find_node_ptr: the position of the node of a key, or the end of its chain. */
    method FindNode(key: Key) returns (c: nat, i: nat)
      requires Valid()
      ensures c == hfunc(key) && c < tab.Length && i == Slot(tab[c], key)
    {
      c := hfunc(key);
      assert tab[..][c] == tab[c];
      i := 0;
      while i < |tab[c]| && tab[c][i].key != key
        invariant i <= |tab[c]| && forall j :: 0 <= j < i ==> tab[c][j].key != key
      {
        i := i + 1;
      }
      SlotIs(tab[c], key, i);
    }

    method Search(key: Key) returns (val: Option<V>)
      requires Valid()
      ensures val == Val(key)
    {
      var c, i := FindNode(key);
      val := if i == |tab[c]| then None else tab[c][i].val;
    }

    method Insert(key: Key, val: Option<V>) returns (prev: Option<V>)
      requires Valid()
      modifies tab
      ensures Valid() && prev == old(Val(key))
      ensures forall k {:trigger Val(k)} :: Val(k) == if k == key then val else old(Val(k))
    {
      InsertIs(tab[..], hfunc, key, val);
      var c, i := FindNode(key);
      ghost var next := tab[..][c := Set(tab[c], key, val)];
      if i < |tab[c]| {
        prev := tab[c][i].val;
        tab[c] := tab[c][i := Entry(key, val)];
      } else {
        prev := None;
        tab[c] := tab[c] + [Entry(key, val)];
      }
      assert tab[..] == next;
    }

    method Delete(key: Key) returns (prev: Option<V>)
      requires Valid()
      modifies tab
      ensures Valid() && prev == old(Val(key))
      ensures forall k {:trigger Val(k)} :: Val(k) == if k == key then None else old(Val(k))
    {
      DeleteIs(tab[..], hfunc, key);
      var c, i := FindNode(key);
      ghost var next := tab[..][c := Erase(tab[c], key)];
      prev := None;
      if i < |tab[c]| {
        prev := tab[c][i].val;
        tab[c] := tab[c][i := Entry(key, None)];
      }
      assert tab[..] == next;
    }

    /** ep_hash_forall: the nodes in the order the function is applied to them. */
    method ForAll() returns (visited: seq<Node<V>>)
      requires Valid()
      ensures visited == Nodes(tab[..])
    {
      visited := [];
      for c := 0 to tabsize
        invariant visited == Nodes(tab[..c])
      {
        ghost var before := visited;
        assert tab[..c + 1][..c] == tab[..c];
        for i := 0 to |tab[c]|
          invariant visited == before + tab[c][..i]
        {
          visited := visited + [tab[c][i]];
        }
        assert tab[c][..|tab[c]|] == tab[c];
      }
      assert tab[..tabsize] == tab[..];
    }
  }
}
