/** Association lists searched from the front: the chains of the hash table and the metadata list. */
module Assoc {
  import opened Collections

  datatype Entry<K, V> = Entry(key: K, val: V)

  /** Where a key is, or where its entry would go. */
  function Slot<K(==), V>(list: seq<Entry<K, V>>, key: K): (i: nat)
    ensures i <= |list| && (i < |list| ==> list[i].key == key)
  {
    if list == [] || list[0].key == key then 0 else 1 + Slot(list[1..], key)
  }

  function Find<K(==), V>(list: seq<Entry<K, V>>, key: K): Option<V> {
    var i := Slot(list, key);
    if i < |list| then Some(list[i].val) else None
  }

  /** Replace the value of a key that is there, or add an entry at the end. */
  function Set<K(==), V>(list: seq<Entry<K, V>>, key: K, val: V): seq<Entry<K, V>> {
    var i := Slot(list, key);
    if i < |list| then list[i := Entry(key, val)] else list + [Entry(key, val)]
  }

  ghost predicate Distinct<K, V>(list: seq<Entry<K, V>>) {
    forall i, j :: 0 <= i < j < |list| ==> list[i].key != list[j].key
  }

  lemma {:induction false} SlotFirst<K, V>(list: seq<Entry<K, V>>, key: K)
    ensures forall j :: 0 <= j < Slot(list, key) ==> list[j].key != key
  {
    if list != [] && list[0].key != key {
      SlotFirst(list[1..], key);
      forall j | 0 <= j < Slot(list, key) ensures list[j].key != key {
        assert j > 0 ==> list[j] == list[1..][j - 1];
      }
    }
  }

  /** The first place the key is at is its slot. */
  lemma {:induction false} SlotIs<K, V>(list: seq<Entry<K, V>>, key: K, i: nat)
    requires i <= |list| && (i < |list| ==> list[i].key == key)
    requires forall j :: 0 <= j < i ==> list[j].key != key
    ensures Slot(list, key) == i
  {
    SlotFirst(list, key);
  }

  /** What is put under a key is found under it; no other key notices, no key comes twice, and the order stays. */
  lemma SetFind<K, V>(list: seq<Entry<K, V>>, key: K, val: V, other: K)
    requires Distinct(list)
    ensures Distinct(Set(list, key, val))
    ensures Find(Set(list, key, val), other) == if other == key then Some(val) else Find(list, other)
    ensures |list| <= |Set(list, key, val)| && forall j :: 0 <= j < |list| ==> Set(list, key, val)[j].key == list[j].key
  {
    SlotFirst(list, key);
    SlotFirst(list, other);
    var r, i, j := Set(list, key, val), Slot(list, key), Slot(list, other);
    if other == key {
      SlotIs(r, key, i);
    } else {
      SlotIs(r, other, if j < |list| then j else |r|);
    }
  }
}
