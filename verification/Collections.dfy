/** Small vocabulary shared by the models: optional values and lists without repeats. */
module Collections {

  datatype Option<+T> = None | Some(value: T)

  lemma JoinOne<T>(a: seq<T>, x: T, b: seq<T>)
    ensures a + ([x] + b) == (a + [x]) + b
  {
  }

  /** No element occurs twice. */
  ghost predicate NoDup<T>(s: seq<T>) {
    forall i, j :: 0 <= i < j < |s| ==> s[i] != s[j]
  }

  /** Position of the first occurrence of `x`. */
  function IndexOf<T(==)>(s: seq<T>, x: T): (i: nat)
    requires x in s
    ensures i < |s| && s[i] == x
    ensures x !in s[..i]
  {
    if s[0] == x then 0 else 1 + IndexOf(s[1..], x)
  }

  /** `s` after unlinking the first node holding `x`. */
  function Without<T(==)>(s: seq<T>, x: T): (r: seq<T>) {
    if x in s then s[..IndexOf(s, x)] + s[IndexOf(s, x) + 1..] else s
  }

  /** Unlinking removes `x` and nothing else, and keeps the rest distinct. */
  lemma WithoutProperties<T>(s: seq<T>, x: T)
    requires NoDup(s)
    ensures NoDup(Without(s, x))
    ensures x !in Without(s, x)
    ensures forall y :: y != x ==> (y in s <==> y in Without(s, x))
    ensures |Without(s, x)| <= |s|
  {
    if x in s {
      var i := IndexOf(s, x);
      assert s == s[..i] + [x] + s[i + 1..];
      assert forall y :: y in s <==> y in s[..i] || y == x || y in s[i + 1..];
    }
  }

  /** The node after `x` in the list, if there is one. */
  function Successor<T(==)>(s: seq<T>, x: T): (r: Option<T>)
    requires x in s
    ensures r.Some? ==> r.value in s
  {
    var i := IndexOf(s, x);
    if i + 1 < |s| then Some(s[i + 1]) else None
  }

  /** The first node of the list, if there is one. */
  function First<T>(s: seq<T>): (r: Option<T>)
    ensures r.Some? ==> r.value in s
  {
    if |s| > 0 then Some(s[0]) else None
  }
}
