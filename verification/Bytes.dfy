/** Bytes and the big-endian fields of the wire formats. */
module Bytes {

  type Byte = x: int | 0 <= x < 256

  /** The low `k` bytes of `n`, high byte first: PUT8, PUT16 and PUT32. */
  function Put(n: nat, k: nat): (b: seq<Byte>)
    ensures |b| == k
  {
    if k == 0 then [] else Put(n / 256, k - 1) + [n % 256]
  }

  /** The number a field spells: GET8, GET16 and GET32. */
  function Get(b: seq<Byte>): nat {
    if b == [] then 0 else Get(b[..|b| - 1]) * 256 + b[|b| - 1]
  }

  /** How many numbers fit in `k` bytes. */
  function Span(k: nat): nat {
    if k == 0 then 1 else 256 * Span(k - 1)
  }

  lemma Spans()
    ensures Span(1) == 0x100 && Span(2) == 0x1_0000 && Span(4) == 0x1_0000_0000
  {
    assert Span(3) == 0x100_0000;
  }

  /** The fields of the wire formats, byte by byte: the high one comes first. */
  lemma {:induction false} HighByteFirst(n: nat)
    ensures Put(n, 1) == [n % 256]
    ensures Put(n, 2) == [n / 256 % 256, n % 256]
    ensures Put(n, 4) == [n / 256 / 256 / 256 % 256, n / 256 / 256 % 256, n / 256 % 256, n % 256]
  {
    var n1 := n / 256;
    var n2 := n1 / 256;
    var n3 := n2 / 256;
    assert Put(n3, 1) == [n3 % 256] && Put(n2, 2) == Put(n3, 1) + [n2 % 256];
    assert Put(n1, 3) == Put(n2, 2) + [n1 % 256] && Put(n, 4) == Put(n1, 3) + [n % 256];
  }

  lemma Splits(a: seq<Byte>, b: seq<Byte>)
    ensures (a + b)[..|a|] == a && (a + b)[|a|..] == b
  {
  }

  lemma Regroup(a: seq<Byte>, b: seq<Byte>, c: seq<Byte>)
    ensures a + b + c == a + (b + c)
  {
  }

  /** Reading back what was written gives the number, if it fits. */
  lemma {:induction false} GetPut(n: nat, k: nat)
    requires n < Span(k)
    ensures Get(Put(n, k)) == n
  {
    if k > 0 {
      GetPut(n / 256, k - 1);
      assert Put(n, k)[..k - 1] == Put(n / 256, k - 1);
    }
  }

  /** Writing what was read gives the same bytes. */
  lemma {:induction false} PutGet(b: seq<Byte>)
    ensures Get(b) < Span(|b|) && Put(Get(b), |b|) == b
  {
    if b != [] {
      var front, last := b[..|b| - 1], b[|b| - 1];
      PutGet(front);
      assert Get(b) / 256 == Get(front) && Get(b) % 256 == last;
      assert b == front + [last];
    }
  }
}
