/**
 * Log metadata: the list of identified data, its serialized form, from whose hash the
 * name of a log is made, and reading that form back.
 */
module Md {
  import opened Assoc
  import opened Bytes
  import opened Collections

  const WORD := 0x1_0000_0000
  const MINMDS := 4

  /** Bytes in the count and in each field of a header. */
  const COUNT: nat := 2
  const FIELD: nat := 4

  const EOLIST := 0

  /** A length and, unless the slot is only reserved, that many bytes. */
  datatype Datum = Datum(len: nat, data: Option<seq<Byte>>)

  type Item = Entry<nat, Datum>
  type Header = Entry<nat, nat>

  /** Fields fit in 32 bits, and the data are there. */
  predicate Ready(x: Item) {
    x.key < WORD && x.val.len < WORD && x.val.data.Some? && |x.val.data.value| == x.val.len
  }

  ghost predicate AllReady(l: seq<Item>) {
    forall i {:trigger Ready(l[i])} :: 0 <= i < |l| ==> Ready(l[i])
  }

  predicate Fits(h: Header) {
    h.key < WORD && h.val < WORD
  }

  ghost predicate AllFit(hs: seq<Header>) {
    forall i {:trigger Fits(hs[i])} :: 0 <= i < |hs| ==> Fits(hs[i])
  }

  function Data(x: Item): seq<Byte> {
    if x.val.data.Some? then x.val.data.value else []
  }

  // ---------- the serialized form ----------

  function Heads(l: seq<Item>): (r: seq<Header>)
    ensures |r| == |l|
  {
    seq(|l|, i requires 0 <= i < |l| => Entry(l[i].key, l[i].val.len))
  }

  function PutHeader(h: Header): (b: seq<Byte>)
    ensures |b| == 8
  {
    Put(h.key, FIELD) + Put(h.val, FIELD)
  }

  function PutHeaders(hs: seq<Header>): (b: seq<Byte>)
    ensures |b| == 8 * |hs|
  {
    if hs == [] then [] else PutHeaders(hs[..|hs| - 1]) + PutHeader(hs[|hs| - 1])
  }

  function Datas(l: seq<Item>): seq<Byte> {
    if l == [] then [] else Datas(l[..|l| - 1]) + Data(l[|l| - 1])
  }

  function Serialize(l: seq<Item>): (b: seq<Byte>) {
    Put(|l|, COUNT) + PutHeaders(Heads(l)) + Datas(l)
  }

  /** Where header `i` stands, and what is in it. */
  lemma {:induction false} HeaderAt(hs: seq<Header>, i: nat)
    requires i < |hs|
    ensures var b := PutHeaders(hs);
      b[8 * i..8 * i + 4] == Put(hs[i].key, 4) && b[8 * i + 4..8 * i + 8] == Put(hs[i].val, 4)
  {
    var front, h := hs[..|hs| - 1], hs[|hs| - 1];
    var a, d := PutHeaders(front), PutHeader(h);
    if i < |front| {
      HeaderAt(front, i);
      assert (a + d)[8 * i..8 * i + 4] == a[8 * i..8 * i + 4];
      assert (a + d)[8 * i + 4..8 * i + 8] == a[8 * i + 4..8 * i + 8];
    } else {
      assert (a + d)[8 * i..8 * i + 4] == d[..4] && (a + d)[8 * i + 4..8 * i + 8] == d[4..];
    }
  }

  /** Where the data of entry `i` stand among the data. */
  lemma {:induction false} DataAt(l: seq<Item>, i: nat)
    requires i < |l|
    ensures |Datas(l[..i])| + |Data(l[i])| <= |Datas(l)|
    ensures Datas(l)[|Datas(l[..i])|..][..|Data(l[i])|] == Data(l[i])
  {
    var front, x := l[..|l| - 1], l[|l| - 1];
    if i < |front| {
      DataAt(front, i);
      assert front[..i] == l[..i];
      var at, n := |Datas(l[..i])|, |Data(l[i])|;
      assert (Datas(front) + Data(x))[at..][..n] == Datas(front)[at..][..n];
    } else {
      assert l[..i] == front;
    }
  }

  /** The format: a count of two bytes, then a header of eight for each entry, then the data of all. */
  lemma Layout(l: seq<Item>, i: nat)
    requires i < |l|
    ensures var b, n := Serialize(l), |l|;
      && |b| == 2 + 8 * n + |Datas(l)| && b[..2] == Put(n, 2) && b[2 + 8 * n..] == Datas(l)
      && b[2 + 8 * i..2 + 8 * i + 4] == Put(l[i].key, 4) && b[2 + 8 * i + 4..2 + 8 * i + 8] == Put(l[i].val.len, 4)
  {
    var c, h, d := Put(|l|, COUNT), PutHeaders(Heads(l)), Datas(l);
    var b := c + h + d;
    HeaderAt(Heads(l), i);
    Middle(c, h, d, 8 * i, 8 * i + 4);
    Middle(c, h, d, 8 * i + 4, 8 * i + 8);
    Outer(c, h, d);
  }

  lemma Middle(a: seq<Byte>, b: seq<Byte>, c: seq<Byte>, i: nat, j: nat)
    requires i <= j <= |b|
    ensures (a + b + c)[|a| + i..|a| + j] == b[i..j]
  {
  }

  lemma Outer(a: seq<Byte>, b: seq<Byte>, c: seq<Byte>)
    ensures (a + b + c)[..|a|] == a && (a + b + c)[|a| + |b|..] == c
  {
  }

  // ---------- reading it back ----------

  /** No list, or a read past the end of the input, or a list. */
  datatype Result = Null | OverRead | Ok(list: seq<Item>)

  function GetHeader(b: seq<Byte>): Header
    requires |b| == 8
  {
    Entry(Get(b[..4]), Get(b[4..]))
  }

  function GetHeaders(b: seq<Byte>, c: nat): (hs: seq<Header>)
    requires |b| == 8 * c
    ensures |hs| == c
  {
    if c == 0 then [] else GetHeaders(b[..8 * (c - 1)], c - 1) + [GetHeader(b[8 * (c - 1)..])]
  }

  function Total(hs: seq<Header>): nat {
    if hs == [] then 0 else Total(hs[..|hs| - 1]) + hs[|hs| - 1].val
  }

  /** The data cut up by the lengths in the headers. */
  function Attach(hs: seq<Header>, b: seq<Byte>): (l: seq<Item>)
    requires |b| == Total(hs)
    ensures |l| == |hs|
  {
    if hs == [] then [] else
    var front, h := hs[..|hs| - 1], hs[|hs| - 1];
    var cut := Total(front);
    Attach(front, b[..cut]) + [Entry(h.key, Datum(h.val, Some(b[cut..])))]
  }

  /** The headers read so far and what is left of the input, or a header that is not wholly there. */
  datatype Progress = PastEnd | Headers(hs: seq<Header>, rest: seq<Byte>)

  /** The first `c` headers, eight bytes at a time. */
  function TakeHeaders(b: seq<Byte>, c: nat): Progress {
    if c == 0 then Headers([], b) else
    match TakeHeaders(b, c - 1)
    case PastEnd => PastEnd
    case Headers(hs, rest) => if |rest| < 8 then PastEnd else Headers(hs + [GetHeader(rest[..8])], rest[8..])
  }

  /** The part after the count: the headers, and data of exactly the length they announce. */
  function Entries(b: seq<Byte>, c: nat): Result {
    match TakeHeaders(b, c)
    case PastEnd => OverRead
    case Headers(hs, rest) => if |rest| != Total(hs) then Null else Ok(Attach(hs, rest))
  }

  function Deserialize(b: seq<Byte>): Result {
    if |b| < 2 then Null else
    var c := Get(b[..2]);
    if c == 0 || |b| - 2 < 8 then Null
    else Entries(b[2..], c)
  }

  // ---------- the two directions ----------

  lemma HeaderRoundTrip(h: Header)
    requires Fits(h)
    ensures GetHeader(PutHeader(h)) == h
  {
    Spans();
    GetPut(h.key, FIELD);
    GetPut(h.val, FIELD);
    assert PutHeader(h)[..4] == Put(h.key, FIELD) && PutHeader(h)[4..] == Put(h.val, FIELD);
  }

  lemma GetHeadersSnoc(b: seq<Byte>, c: nat, d: seq<Byte>)
    requires |b| == 8 * c && |d| == 8
    ensures GetHeaders(b + d, c + 1) == GetHeaders(b, c) + [GetHeader(d)]
  {
    Splits(b, d);
  }

  lemma {:induction false} HeaderAdded(b: seq<Byte>, front: seq<Header>, h: Header)
    requires |b| == 8 * |front| && GetHeaders(b, |front|) == front && Fits(h)
    ensures GetHeaders(b + PutHeader(h), |front| + 1) == front + [h]
  {
    HeaderRoundTrip(h);
    GetHeadersSnoc(b, |front|, PutHeader(h));
  }

  lemma {:induction false} PutHeadersSnoc(front: seq<Header>, h: Header)
    ensures PutHeaders(front + [h]) == PutHeaders(front) + PutHeader(h)
  {
    assert (front + [h])[..|front|] == front;
  }

  lemma {:induction false} HeadersRoundTrip(hs: seq<Header>)
    requires AllFit(hs)
    ensures GetHeaders(PutHeaders(hs), |hs|) == hs
  {
    if hs != [] {
      var front, h := hs[..|hs| - 1], hs[|hs| - 1];
      assert Fits(h) && AllFit(front) && hs == front + [h];
      HeadersRoundTrip(front);
      HeaderAdded(PutHeaders(front), front, h);
      PutHeadersSnoc(front, h);
    }
  }

  /** Header by header, the reading comes to its end exactly when the input holds them all. */
  lemma {:induction false} TakeHeadersIs(b: seq<Byte>, c: nat)
    ensures TakeHeaders(b, c) == if |b| < 8 * c then PastEnd else Headers(GetHeaders(b[..8 * c], c), b[8 * c..])
  {
    if c > 0 {
      TakeHeadersIs(b, c - 1);
      if |b| >= 8 * c {
        var at := 8 * (c - 1);
        assert b[at..][..8] == b[..8 * c][at..] && b[at..][8..] == b[8 * c..];
        assert b[..8 * c][..at] == b[..at];
      }
    }
  }

  /** A header that is not there is not made up for by later ones. */
  lemma {:induction false} PastEndStays(b: seq<Byte>, i: nat, c: nat)
    requires i <= c && TakeHeaders(b, i).PastEnd?
    ensures TakeHeaders(b, c).PastEnd?
    decreases c
  {
    if i < c { PastEndStays(b, i, c - 1); }
  }

  lemma HeaderBack(b: seq<Byte>)
    requires |b| == 8
    ensures PutHeader(GetHeader(b)) == b && Fits(GetHeader(b))
  {
    Spans();
    PutGet(b[..4]);
    PutGet(b[4..]);
    assert b[..4] + b[4..] == b;
  }

  lemma {:induction false} HeaderPutBack(front: seq<Byte>, hs: seq<Header>, last: seq<Byte>)
    requires PutHeaders(hs) == front && AllFit(hs) && |last| == 8
    ensures PutHeaders(hs + [GetHeader(last)]) == front + last && AllFit(hs + [GetHeader(last)])
  {
    HeaderBack(last);
    var all := hs + [GetHeader(last)];
    assert all[..|hs|] == hs;
    forall i | 0 <= i < |all| ensures Fits(all[i]) {
      assert i < |hs| ==> Fits(hs[i]);
    }
  }

  lemma LastHeader(b: seq<Byte>, c: nat) returns (front: seq<Byte>, last: seq<Byte>)
    requires |b| == 8 * (c + 1)
    ensures b == front + last && |front| == 8 * c && |last| == 8
    ensures GetHeaders(b, c + 1) == GetHeaders(front, c) + [GetHeader(last)]
  {
    front, last := b[..8 * c], b[8 * c..];
    GetHeadersSnoc(front, c, last);
    assert front + last == b;
  }

  lemma {:induction false} HeadersPutBack(b: seq<Byte>, c: nat, hs: seq<Header>)
    requires |b| == 8 * c && hs == GetHeaders(b, c)
    ensures PutHeaders(hs) == b && AllFit(hs)
    decreases c
  {
    if c > 0 {
      var front, last := LastHeader(b, c - 1);
      var hs0 := GetHeaders(front, c - 1);
      HeadersPutBack(front, c - 1, hs0);
      HeaderPutBack(front, hs0, last);
    }
  }

  lemma {:induction false} HeadersBack(b: seq<Byte>, c: nat)
    requires |b| == 8 * c
    ensures PutHeaders(GetHeaders(b, c)) == b && AllFit(GetHeaders(b, c))
  {
    HeadersPutBack(b, c, GetHeaders(b, c));
  }

  lemma HeadsFit(l: seq<Item>)
    requires AllReady(l)
    ensures AllFit(Heads(l))
  {
    forall i | 0 <= i < |l| ensures Fits(Heads(l)[i]) {
      assert Ready(l[i]);
    }
  }

  lemma HeadsSnoc(l: seq<Item>, x: Item)
    ensures Heads(l + [x]) == Heads(l) + [Entry(x.key, x.val.len)]
  {
  }

  lemma {:induction false} AttachSnoc(hs: seq<Header>, h: Header, a: seq<Byte>, d: seq<Byte>)
    requires |a| == Total(hs) && |d| == h.val
    ensures Total(hs + [h]) == |a + d| &&
      Attach(hs + [h], a + d) == Attach(hs, a) + [Entry(h.key, Datum(h.val, Some(d)))]
  {
    assert (hs + [h])[..|hs|] == hs;
    Splits(a, d);
  }

  lemma {:induction false} AttachOwn(l: seq<Item>)
    requires AllReady(l)
    ensures |Datas(l)| == Total(Heads(l)) && Attach(Heads(l), Datas(l)) == l
  {
    if l != [] {
      var front, x := l[..|l| - 1], l[|l| - 1];
      assert Ready(x) && AllReady(front) && l == front + [x];
      AttachOwn(front);
      AttachOwnSnoc(front, x);
    }
  }

  lemma {:induction false} AttachOwnSnoc(l: seq<Item>, x: Item)
    requires Ready(x) && |Datas(l)| == Total(Heads(l)) && Attach(Heads(l), Datas(l)) == l
    ensures |Datas(l + [x])| == Total(Heads(l + [x])) && Attach(Heads(l + [x]), Datas(l + [x])) == l + [x]
  {
    HeadsSnoc(l, x);
    DatasSnoc(l, x);
    AttachSnoc(Heads(l), Entry(x.key, x.val.len), Datas(l), Data(x));
  }

  lemma {:induction false} AttachBack(hs: seq<Header>, b: seq<Byte>)
    requires |b| == Total(hs)
    ensures Heads(Attach(hs, b)) == hs && Datas(Attach(hs, b)) == b
  {
    if hs != [] {
      var front, h := hs[..|hs| - 1], hs[|hs| - 1];
      var cut := Total(front);
      var a, d := b[..cut], b[cut..];
      assert a + d == b && front + [h] == hs;
      AttachBack(front, a);
      AttachBackSnoc(front, h, a, d);
    }
  }

  lemma {:induction false} AttachBackSnoc(hs: seq<Header>, h: Header, a: seq<Byte>, d: seq<Byte>)
    requires |a| == Total(hs) && |d| == h.val && Heads(Attach(hs, a)) == hs && Datas(Attach(hs, a)) == a
    ensures Total(hs + [h]) == |a + d| && Heads(Attach(hs + [h], a + d)) == hs + [h] &&
      Datas(Attach(hs + [h], a + d)) == a + d
  {
    var l, x := Attach(hs, a), Entry(h.key, Datum(h.val, Some(d)));
    AttachSnoc(hs, h, a, d);
    HeadsSnoc(l, x);
    DatasSnoc(l, x);
  }

  lemma {:induction false} DatasSnoc(l: seq<Item>, x: Item)
    ensures Datas(l + [x]) == Datas(l) + Data(x)
  {
    assert (l + [x])[..|l|] == l;
  }

  lemma {:induction false} AttachReady(hs: seq<Header>, b: seq<Byte>)
    requires |b| == Total(hs) && AllFit(hs)
    ensures AllReady(Attach(hs, b))
  {
    if hs != [] {
      var front, h := hs[..|hs| - 1], hs[|hs| - 1];
      assert Fits(h);
      assert AllFit(front) by {
        forall i | 0 <= i < |front| ensures Fits(front[i]) { assert Fits(hs[i]); }
      }
      AttachReady(front, b[..Total(front)]);
      var l := Attach(front, b[..Total(front)]);
      forall i | 0 <= i <= |l| ensures Ready(Attach(hs, b)[i]) {
        assert i < |l| ==> Ready(l[i]);
      }
    }
  }

  lemma {:induction false} CountFits(n: nat)
    requires n < 0x1_0000
    ensures Get(Put(n, COUNT)) == n
  {
    Spans();
    GetPut(n, COUNT);
  }

  /** A longer list has its count written modulo 65536. */
  lemma {:induction false} CountWraps(n: nat)
    ensures Get(Put(n, COUNT)) == n % 0x1_0000
  {
    var b := Put(n, COUNT);
    assert b[..1] == Put(n / 256, 1) && b[..1][..0] == [] && Put(n / 256, 1)[0] == n / 256 % 256;
    assert Get(b[..1]) == n / 256 % 256;
  }

  lemma {:induction false} CountRead(n: nat, c: nat, rest: seq<Byte>)
    requires |rest| >= 8 * c && Get(Put(n, COUNT)) == c
    ensures Deserialize(Put(n, COUNT) + rest) == if c == 0 then Null else Entries(rest, c)
  {
    Splits(Put(n, COUNT), rest);
  }

  lemma {:induction false} EntriesRoundTrip(l: seq<Item>)
    requires AllReady(l)
    ensures Entries(PutHeaders(Heads(l)) + Datas(l), |l|) == Ok(l)
  {
    var b := PutHeaders(Heads(l)) + Datas(l);
    TakeHeadersIs(b, |l|);
    Splits(PutHeaders(Heads(l)), Datas(l));
    HeadsFit(l);
    HeadersRoundTrip(Heads(l));
    AttachOwn(l);
  }

  lemma {:induction false} Prefixed(n: nat, c: nat, heads: seq<Byte>, datas: seq<Byte>)
    requires |heads| >= 8 * c && Get(Put(n, COUNT)) == c
    ensures Deserialize(Put(n, COUNT) + heads + datas) == if c == 0 then Null else Entries(heads + datas, c)
  {
    Regroup(Put(n, COUNT), heads, datas);
    CountRead(n, c, heads + datas);
  }

  lemma RoundTrips(l: seq<Item>)
    requires AllReady(l) && 1 <= |l| < 0x1_0000
    ensures Deserialize(Serialize(l)) == Ok(l)
  {
    EntriesRoundTrip(l);
    CountFits(|l|);
    Prefixed(|l|, |l|, PutHeaders(Heads(l)), Datas(l));
  }

  lemma {:induction false} TotalPrefix(l: seq<Item>, c: nat)
    requires AllReady(l) && c <= |l|
    ensures Total(Heads(l)[..c]) <= |Datas(l)|
    decreases |l|
  {
    if c == |l| {
      AttachOwn(l);
      assert Heads(l)[..c] == Heads(l);
    } else {
      var front := l[..|l| - 1];
      assert AllReady(front) by {
        forall i | 0 <= i < |front| ensures Ready(front[i]) { assert Ready(l[i]); }
      }
      TotalPrefix(front, c);
      assert Heads(l)[..c] == Heads(front)[..c];
    }
  }

  lemma {:induction false} HeadersPrefix(hs: seq<Header>, c: nat)
    requires c <= |hs|
    ensures PutHeaders(hs)[..8 * c] == PutHeaders(hs[..c])
    decreases |hs|
  {
    if c == |hs| {
      assert hs[..c] == hs && PutHeaders(hs)[..8 * c] == PutHeaders(hs);
    } else {
      var front := hs[..|hs| - 1];
      HeadersPrefix(front, c);
      assert PutHeaders(hs)[..8 * c] == PutHeaders(front)[..8 * c] && front[..c] == hs[..c];
    }
  }

  /** Fewer entries than were written leave data over. */
  lemma {:induction false} EntriesLeftOver(hs: seq<Header>, datas: seq<Byte>, c: nat)
    requires AllFit(hs) && c < |hs| && Total(hs[..c]) <= |datas|
    ensures Entries(PutHeaders(hs) + datas, c) == Null
  {
    TakeHeadersIs(PutHeaders(hs) + datas, c);
    assert (PutHeaders(hs) + datas)[..8 * c] == PutHeaders(hs)[..8 * c];
    HeadersPrefix(hs, c);
    assert AllFit(hs[..c]) by {
      forall i | 0 <= i < c ensures Fits(hs[..c][i]) { assert Fits(hs[i]); }
    }
    HeadersRoundTrip(hs[..c]);
  }

  /** The empty list, and lists whose count does not fit in 16 bits, are read back as no list. */
  lemma NotReadBack(l: seq<Item>)
    requires AllReady(l) && (l == [] || |l| >= 0x1_0000)
    ensures Deserialize(Serialize(l)) == Null
  {
    var c := |l| % 0x1_0000;
    CountWraps(|l|);
    Prefixed(|l|, c, PutHeaders(Heads(l)), Datas(l));
    if c > 0 {
      HeadsFit(l);
      TotalPrefix(l, c);
      EntriesLeftOver(Heads(l), Datas(l), c);
    }
  }

  /** Serializing and reading back is the identity exactly on lists of 1 to 65535 entries. */
  lemma RoundTripExact(l: seq<Item>)
    requires AllReady(l)
    ensures Deserialize(Serialize(l)) == Ok(l) <==> 1 <= |l| <= 65535
    ensures Deserialize(Serialize(l)) == Null <==> l == [] || |l| > 65535
  {
    if 1 <= |l| <= 65535 { RoundTrips(l); } else { NotReadBack(l); }
  }

  lemma EntriesAre(b: seq<Byte>, c: nat) returns (raw: seq<Byte>, rest: seq<Byte>)
    requires Entries(b, c).Ok?
    ensures b == raw + rest && |raw| == 8 * c && Total(GetHeaders(raw, c)) == |rest|
    ensures Entries(b, c).list == Attach(GetHeaders(raw, c), rest)
  {
    TakeHeadersIs(b, c);
    raw, rest := b[..8 * c], b[8 * c..];
  }

  lemma {:induction false} AttachedBack(raw: seq<Byte>, c: nat, rest: seq<Byte>)
    requires |raw| == 8 * c && Total(GetHeaders(raw, c)) == |rest|
    ensures var l := Attach(GetHeaders(raw, c), rest);
            |l| == c && AllReady(l) && PutHeaders(Heads(l)) + Datas(l) == raw + rest
  {
    HeadersBack(raw, c);
    AttachBack(GetHeaders(raw, c), rest);
    AttachReady(GetHeaders(raw, c), rest);
  }

  lemma EntriesBack(b: seq<Byte>, c: nat)
    requires Entries(b, c).Ok?
    ensures var l := Entries(b, c).list; |l| == c && AllReady(l) && PutHeaders(Heads(l)) + Datas(l) == b
  {
    var raw, rest := EntriesAre(b, c);
    AttachedBack(raw, c, rest);
  }

  /** Whatever is accepted is the serialized form of what was read: there is one form for each list. */
  lemma Canonical(b: seq<Byte>)
    requires Deserialize(b).Ok?
    ensures AllReady(Deserialize(b).list) && Serialize(Deserialize(b).list) == b
  {
    EntriesBack(b[2..], Get(b[..2]));
    PutGet(b[..2]);
    var l := Deserialize(b).list;
    Regroup(Put(|l|, COUNT), PutHeaders(Heads(l)), Datas(l));
    assert b[..2] + b[2..] == b;
  }

  /**
   * The read past the end happens exactly when a count is given for which the input is too
   * short, beyond one header.
   */
  lemma OverReadExact(b: seq<Byte>)
    ensures Deserialize(b).OverRead? <==> |b| >= 10 && |b| < 2 + 8 * Get(b[..2])
  {
    if |b| >= 2 { TakeHeadersIs(b[2..], Get(b[..2])); }
  }

  /**
   * Different lists have different serialized forms, so a name with no collision in the hash
   * is the name of one list.
   */
  lemma NameDetermines<N>(sha: seq<Byte> -> N, a: seq<Item>, b: seq<Item>)
    requires AllReady(a) && AllReady(b) && 1 <= |a| <= 65535 && 1 <= |b| <= 65535
    requires sha(Serialize(a)) == sha(Serialize(b)) ==> Serialize(a) == Serialize(b)
    ensures sha(Serialize(a)) == sha(Serialize(b)) <==> a == b
  {
    RoundTrips(a);
    RoundTrips(b);
  }

  // ---------- the list in memory ----------

  datatype Status = OK | ReadOnly

  /** gdp_md_add: what becomes of the list. */
  function Added(l: seq<Item>, id: nat, d: Datum): seq<Item> {
    if id == EOLIST then l else Set(l, id, d)
  }

  class Metadata {
    var nalloc: nat
    var mds: seq<Item>
    var readonly: bool

    /** No identifier twice in a list built here; the entries fit in the space, which can always grow. */
    ghost predicate Valid()
      reads this
    {
      |mds| <= nalloc && (!readonly ==> nalloc >= MINMDS && Distinct(mds))
    }

    /** gdp_md_new. */
    constructor (nentries: int)
      ensures Valid() && mds == [] && !readonly && nalloc >= nentries
    {
      nalloc := if nentries > MINMDS then nentries else MINMDS;
      mds, readonly := [], false;
    }

    /** What _gdp_md_deserialize makes of a list it has read. */
    constructor Read(l: seq<Item>)
      ensures Valid() && mds == l && readonly
    {
      nalloc, mds, readonly := |l|, l, true;
    }

    /** gdp_md_add. */
    method Add(id: nat, d: Datum) returns (st: Status)
      requires Valid()
      modifies `mds, `nalloc
      ensures Valid()
      ensures st == (if readonly then ReadOnly else OK) && mds == if readonly then old(mds) else Added(old(mds), id, d)
      ensures !readonly && id != 0 ==> Assoc.Find(mds, id) == Some(d)
      ensures readonly || id == 0 ==> mds == old(mds)
      ensures forall other {:trigger Assoc.Find(mds, other)} :: readonly || other != id ==>
        Assoc.Find(mds, other) == old(Assoc.Find(mds, other))
    {
      if readonly { return ReadOnly; }
      if id == EOLIST { return OK; }
      forall other
        ensures Assoc.Find(Set(mds, id, d), other) == if other == id then Some(d) else Assoc.Find(mds, other)
      {
        SetFind(mds, id, d, other);
      }
      assert Distinct(Set(mds, id, d)) by { SetFind(mds, id, d, id); }
      var i := 0;
      while i < |mds| && mds[i].key != id
        invariant i <= |mds| && forall j :: 0 <= j < i ==> mds[j].key != id
      {
        i := i + 1;
      }
      SlotIs(mds, id, i);
      if i < |mds| {
        mds := mds[i := Entry(id, d)];
      } else {
        if |mds| >= nalloc { nalloc := nalloc / 2 * 3; }
        mds := mds + [Entry(id, d)];
      }
      return OK;
    }

    /** gdp_md_find. */
    method Find(id: nat) returns (r: Option<Datum>)
      ensures r == Assoc.Find(mds, id)
    {
      var i := 0;
      while i < |mds| && mds[i].key != id
        invariant i <= |mds| && forall j :: 0 <= j < i ==> mds[j].key != id
      {
        i := i + 1;
      }
      SlotIs(mds, id, i);
      r := if i < |mds| then Some(mds[i].val) else None;
    }

    /** _gdp_md_serialize. */
    method Write() returns (b: seq<Byte>)
      ensures b == Serialize(mds)
    {
      b := Put(|mds|, COUNT);
      var heads := [];
      for i := 0 to |mds|
        invariant heads == PutHeaders(Heads(mds)[..i])
      {
        assert Heads(mds)[..i + 1][..i] == Heads(mds)[..i];
        heads := heads + PutHeader(Entry(mds[i].key, mds[i].val.len));
      }
      assert Heads(mds)[..|mds|] == Heads(mds);
      var datas := [];
      for i := 0 to |mds|
        invariant datas == Datas(mds[..i])
      {
        assert mds[..i + 1][..i] == mds[..i];
        datas := datas + Data(mds[i]);
      }
      assert mds[..|mds|] == mds;
      b := b + heads + datas;
    }
  }

  lemma {:induction false} TotalSnoc(hs: seq<Header>, h: Header)
    ensures Total(hs + [h]) == Total(hs) + h.val
  {
    assert (hs + [h])[..|hs|] == hs;
  }

  /** The header loop: eight bytes at a time, adding up the lengths. */
  method ReadHeaders(b: seq<Byte>, nmd: nat) returns (p: Progress, tlen: nat)
    ensures p == TakeHeaders(b, nmd) && (p.Headers? ==> tlen == Total(p.hs))
  {
    var hs, rest := [], b;
    tlen := 0;
    for i := 0 to nmd
      invariant TakeHeaders(b, i) == Headers(hs, rest) && tlen == Total(hs)
    {
      if |rest| < 8 {
        PastEndStays(b, i + 1, nmd);
        return PastEnd, tlen;
      }
      var h := GetHeader(rest[..8]);
      TotalSnoc(hs, h);
      hs, rest := hs + [h], rest[8..];
      tlen := tlen + h.val;
    }
    p := Headers(hs, rest);
  }

  /** _gdp_md_deserialize, up to the point where it would read past the end of its input. */
  method Parse(b: seq<Byte>) returns (r: Result)
    ensures r == Deserialize(b)
  {
    if |b| < 2 { return Null; }
    var nmd := Get(b[..2]);
    if nmd == 0 { return Null; }
    if |b| - 2 < 8 { return Null; }
    var p, tlen := ReadHeaders(b[2..], nmd);
    if p.PastEnd? { return OverRead; }
    if |p.rest| != tlen { return Null; }
    var l := Cut(p.hs, p.rest);
    r := Ok(l);
  }

  /** The data of the entries, one after the other. */
  method Cut(hs: seq<Header>, b: seq<Byte>) returns (l: seq<Item>)
    requires |b| == Total(hs)
    ensures l == Attach(hs, b)
  {
    l := [];
    var at := 0;
    for i := 0 to |hs|
      invariant at == Total(hs[..i]) && at <= |b| && l == Attach(hs[..i], b[..at])
    {
      TotalGrows(hs, i + 1);
      assert hs[..i + 1][..i] == hs[..i];
      var next := at + hs[i].val;
      assert b[..next][..at] == b[..at] && b[..next][at..] == b[at..next];
      l := l + [Entry(hs[i].key, Datum(hs[i].val, Some(b[at..next])))];
      at := next;
    }
    assert hs[..|hs|] == hs && b[..at] == b;
  }

  lemma {:induction false} TotalGrows(hs: seq<Header>, i: nat)
    requires i <= |hs|
    ensures Total(hs[..i]) <= Total(hs)
    decreases |hs|
  {
    if i == |hs| {
      assert hs[..i] == hs;
    } else {
      TotalGrows(hs[..|hs| - 1], i);
      assert hs[..|hs| - 1][..i] == hs[..i];
    }
  }
}
