/**
 * Transport framing: cutting the byte stream from the router into PDUs.
 *
 * `ReadHeader` looks at the front of the input buffer, `Drain` is one run of the
 * read callback over the whole buffer, and `Channel` is the code.  Incoming data
 * arrives in chunks that need not respect PDU boundaries.
 */
module Chan {

  import opened Bytes
  import opened Collections
  import opened Framing

  const PROTO_VERSION: Byte := 4
  const MIN_HEADER_LENGTH := 1 + 1 + 1 + 1 + 4 + 2 + 2 + 32 + 32
  const TTL_DEFAULT: Byte := 15

  datatype Fault = VersionMismatch | Corrupt | NakNoRoute

  datatype Outcome =
    | KeepReading
    | Failed(fault: Fault, drained: nat)
    | Ready(src: seq<Byte>, dst: seq<Byte>, seqno: int, hdrLen: nat, payloadLen: nat)

  /** What the receive callback is given. */
  datatype Delivery = Delivery(src: seq<Byte>, dst: seq<Byte>, seqno: int, payload: seq<Byte>)

  function Min(a: nat, b: nat): nat {
    if a < b then a else b
  }

  /** Decode the header at the front of the buffer; a failure says how much input it throws away. */
  function ReadHeader(ibuf: seq<Byte>): (o: Outcome)
    ensures o.Ready? ==> MIN_HEADER_LENGTH <= o.hdrLen && o.hdrLen + o.payloadLen <= |ibuf|
    ensures o.Failed? ==> o.drained <= |ibuf|
  {
    if |ibuf| < MIN_HEADER_LENGTH then KeepReading
    else if ibuf[0] != PROTO_VERSION then Failed(VersionMismatch, |ibuf|)
    else
      var hdrLen := ibuf[1] % 0x40 * 4;
      if hdrLen < MIN_HEADER_LENGTH then Failed(Corrupt, Min(hdrLen, |ibuf|))
      else if |ibuf| < hdrLen then KeepReading
      else
        var flags := ibuf[2];
        var seqno := Get(ibuf[4..8]) / 0x1_0000 % 0x8000;
        var payloadLen := Get(ibuf[10..12]);
        var drained := Min(hdrLen + payloadLen, |ibuf|);
        if flags % 8 != 0 then Failed(Corrupt, drained)
        else if flags / 0x20 == 4 then Failed(NakNoRoute, drained)
        else if flags / 0x20 != 0 then Failed(Corrupt, drained)
        else if |ibuf| < hdrLen + payloadLen then KeepReading
        else Ready(ibuf[44..76], ibuf[12..44], seqno, hdrLen, payloadLen)
  }

  /** One run of the read callback over the buffer; `spins` where it would never return. */
  function Drain(ibuf: seq<Byte>): (r: Drained<Delivery, Fault>)
    decreases |ibuf|
  {
    if |ibuf| < MIN_HEADER_LENGTH then Drained([], [], ibuf, false) else
    match ReadHeader(ibuf)
    case KeepReading => Drained([], [], ibuf, false)
    case Failed(fault, drained) =>
      if drained == 0 then Drained([], [fault], ibuf, true)
      else var r := Drain(ibuf[drained..]); r.(faults := [fault] + r.faults)
    case Ready(src, dst, seqno, hdrLen, payloadLen) =>
      var r := Drain(ibuf[hdrLen + payloadLen..]);
      r.(delivered := [Delivery(src, dst, seqno, ibuf[hdrLen..hdrLen + payloadLen])] + r.delivered)
  }

  // ---------- well-formed PDUs ----------

  /**
   * A PDU, with every field of the format: the reserved length bits, the header length in
   * words, its type, the two flag bits and the address format, options filling the header,
   * and the payload.  It is legal if its type is regular and its addresses are two names.
   */
  datatype Pdu = Pdu(
    reserved: nat, words: nat, kind: nat, flagBits: nat, addrFormat: nat, ttl: Byte, moreFrags: bool, seqno: nat,
    fragOff: nat, fragLen: nat, dst: seq<Byte>, src: seq<Byte>, options: seq<Byte>, payload: seq<Byte>)
  {
    ghost predicate Legal() {
      WellFormed() && kind == 0 && addrFormat == 0
    }

    ghost predicate WellFormed() {
      && reserved < 4 && 19 <= words < 64 && kind < 8 && flagBits < 4 && addrFormat < 8
      && seqno < 0x8000 && fragOff < 0x1_0000 && fragLen < 0x1_0000
      && |dst| == 32 && |src| == 32 && |options| == words * 4 - MIN_HEADER_LENGTH && |payload| < 0x1_0000
    }

    function SeqField(): nat {
      (if moreFrags then 0x8000_0000 else 0) + seqno * 0x1_0000 + fragOff
    }

    function Fixed(): seq<Byte>
      requires reserved < 4 && words < 64 && kind < 8 && flagBits < 4 && addrFormat < 8
    {
      [PROTO_VERSION, reserved * 0x40 + words, FlagOctet(), ttl] + Put(SeqField(), 4) + Put(fragLen, 2) +
        Put(|payload|, 2)
    }

    function Wire(): seq<Byte>
      requires reserved < 4 && words < 64 && kind < 8 && flagBits < 4 && addrFormat < 8
    {
      Fixed() + dst + src + options + payload
    }

    function FlagOctet(): nat {
      kind * 0x20 + flagBits * 8 + addrFormat
    }

    function Content(): Delivery {
      Delivery(src, dst, seqno, payload)
    }
  }

  lemma WireLayout(p: Pdu)
    requires p.WellFormed()
    ensures var w := p.Wire();
      && |w| == p.words * 4 + |p.payload| && w[..12] == p.Fixed() && w[12..44] == p.dst && w[44..76] == p.src
      && w[p.words * 4..] == p.payload && w[4..8] == Put(p.SeqField(), 4) && w[10..12] == Put(|p.payload|, 2)
      && w[8..10] == Put(p.fragLen, 2) && w[76..p.words * 4] == p.options
  {
    var w, f := p.Wire(), p.Fixed();
    assert |f| == 12 && w == f + (p.dst + (p.src + (p.options + p.payload)));
    assert w[..12] == f;
    assert w[4..8] == f[4..8] && w[8..10] == f[8..10] && w[10..12] == f[10..12];
    assert w[76..p.words * 4] == p.options;
  }

  /** The first four octets: version, length in words, type with flags and address format, time to live. */
  lemma FirstOctetsOf(p: Pdu)
    requires p.WellFormed()
    ensures p.Fixed()[0] == 4 && p.Fixed()[1] == p.reserved * 64 + p.words
    ensures p.Fixed()[2] == p.kind * 32 + p.flagBits * 8 + p.addrFormat && p.Fixed()[3] == p.ttl
  {
  }

  /** The second word: a bit for more fragments, 15 bits of sequence number, 16 of fragment offset. */
  lemma SeqFieldBits(p: Pdu)
    requires p.WellFormed()
    ensures p.SeqField() < 0x1_0000_0000
    ensures (p.SeqField() >= 0x8000_0000 <==> p.moreFrags) && p.SeqField() % 0x1_0000 == p.fragOff
    ensures p.SeqField() / 0x1_0000 % 0x8000 == p.seqno
  {
    SeqnoField(p);
  }

  /** The fixed fields depend on the first 76 bytes only. */
  lemma SameFields(b: seq<Byte>, w: seq<Byte>)
    requires |b| >= MIN_HEADER_LENGTH && |w| >= MIN_HEADER_LENGTH && b[..MIN_HEADER_LENGTH] == w[..MIN_HEADER_LENGTH]
    ensures b[0] == w[0] && b[1] == w[1] && b[2] == w[2] && b[4..8] == w[4..8] && b[10..12] == w[10..12]
    ensures b[12..44] == w[12..44] && b[44..76] == w[44..76]
  {
    assert forall i :: 0 <= i < 76 ==> b[i] == b[..76][i] && w[i] == w[..76][i];
  }

  lemma FirstFields(p: Pdu)
    requires p.WellFormed() && |p.Wire()| >= MIN_HEADER_LENGTH
    ensures var w := p.Wire(); w[0] == PROTO_VERSION && w[1] % 0x40 * 4 == p.words * 4 && w[2] == p.FlagOctet()
  {
    WireLayout(p);
    var w := p.Wire();
    assert w[0] == w[..12][0] && w[1] == w[..12][1] && w[2] == w[..12][2];
  }

  /** A prefix of a PDU shows its fields as soon as it is long enough to hold them. */
  lemma {:induction false} FixedFields(p: Pdu, b: seq<Byte>)
    requires p.WellFormed() && |b| >= MIN_HEADER_LENGTH && |p.Wire()| >= MIN_HEADER_LENGTH
    requires b[..MIN_HEADER_LENGTH] == p.Wire()[..MIN_HEADER_LENGTH]
    ensures b[0] == PROTO_VERSION && b[1] % 0x40 * 4 == p.words * 4 && b[2] == p.FlagOctet()
    ensures Get(b[4..8]) == p.SeqField() && Get(b[10..12]) == |p.payload|
    ensures b[12..44] == p.dst && b[44..76] == p.src
  {
    FirstFields(p);
    WireLayout(p);
    SameFields(b, p.Wire());
    Spans();
    GetPut(p.SeqField(), 4);
    GetPut(|p.payload|, 2);
  }

  lemma SeqnoField(p: Pdu)
    requires p.WellFormed()
    ensures p.SeqField() / 0x1_0000 % 0x8000 == p.seqno
  {
  }

  /** A complete PDU at the front of the buffer is read back field for field. */
  lemma {:induction false} ReadsWhole(p: Pdu, rest: seq<Byte>)
    requires p.Legal()
    ensures ReadHeader(p.Wire() + rest) == Ready(p.src, p.dst, p.seqno, p.words * 4, |p.payload|)
    ensures (p.Wire() + rest)[p.words * 4..p.words * 4 + |p.payload|] == p.payload
    ensures (p.Wire() + rest)[p.words * 4 + |p.payload|..] == rest
  {
    WireLayout(p);
    var b := p.Wire() + rest;
    assert b[..76] == p.Wire()[..76];
    FixedFields(p, b);
    SeqnoField(p);
    assert b[p.words * 4..p.words * 4 + |p.payload|] == p.Wire()[p.words * 4..];
  }

  lemma {:induction false} KeepsReading(p: Pdu, b: seq<Byte>)
    requires p.Legal() && b < p.Wire()
    ensures ReadHeader(b).KeepReading?
  {
    WireLayout(p);
    if |b| >= MIN_HEADER_LENGTH {
      assert b[..76] == p.Wire()[..76];
      FixedFields(p, b);
    }
  }

  /** An incomplete PDU is left alone. */
  lemma {:induction false} WaitsForRest(p: Pdu, b: seq<Byte>)
    requires p.Legal() && b < p.Wire()
    ensures Drain(b) == Drained([], [], b, false)
  {
    KeepsReading(p, b);
  }

  /** A complete PDU is delivered first, whatever follows it. */
  lemma {:induction false} DrainsOne(p: Pdu, rest: seq<Byte>)
    requires p.Legal()
    ensures Drain(p.Wire() + rest) == Drain(rest).(delivered := [p.Content()] + Drain(rest).delivered)
  {
    ReadsWhole(p, rest);
    WireLayout(p);
  }

  // ---------- PDUs that are not for the client ----------

  /** What a PDU that is not legal is reported as: a router's NAK, or else corrupt. */
  function FaultOf(p: Pdu): Fault {
    if p.kind == 4 && p.addrFormat == 0 then NakNoRoute else Corrupt
  }

  lemma FlagParts(p: Pdu)
    requires p.WellFormed()
    ensures p.FlagOctet() % 8 == p.addrFormat && p.FlagOctet() / 0x20 == p.kind
  {
    Quotient8(p.FlagOctet(), p.kind * 4 + p.flagBits, p.addrFormat);
    Quotient32(p.FlagOctet(), p.kind, p.flagBits * 8 + p.addrFormat);
  }

  lemma Quotient8(n: int, q: int, r: int)
    requires n == 8 * q + r && 0 <= r < 8
    ensures n % 8 == r
  {
  }

  lemma Quotient32(n: int, q: int, r: int)
    requires n == 0x20 * q + r && 0 <= r < 0x20
    ensures n / 0x20 == q
  {
  }

  lemma {:induction false} ReadsFault(p: Pdu, b: seq<Byte>)
    requires p.WellFormed() && !p.Legal() && |b| >= p.words * 4
    requires b[..MIN_HEADER_LENGTH] == p.Wire()[..MIN_HEADER_LENGTH]
    ensures ReadHeader(b) == Failed(FaultOf(p), Min(p.words * 4 + |p.payload|, |b|))
  {
    WireLayout(p);
    FixedFields(p, b);
    FlagParts(p);
  }

  /** A complete NAK is reported as one, any other PDU that is not legal as corrupt; it is thrown away, and no more. */
  lemma {:induction false} FaultDrained(p: Pdu, rest: seq<Byte>)
    requires p.WellFormed() && !p.Legal()
    ensures var f := if p.kind == 4 && p.addrFormat == 0 then NakNoRoute else Corrupt;
            Drain(p.Wire() + rest) == Drain(rest).(faults := [f] + Drain(rest).faults)
  {
    WireLayout(p);
    var b := p.Wire() + rest;
    assert b[..MIN_HEADER_LENGTH] == p.Wire()[..MIN_HEADER_LENGTH];
    ReadsFault(p, b);
    assert b[|p.Wire()|..] == rest;
  }

  /** Cut within its payload, it is reported as well, and takes all there is with it. */
  lemma {:induction false} FaultCut(p: Pdu, b: seq<Byte>)
    requires p.WellFormed() && !p.Legal() && b < p.Wire() && |b| >= p.words * 4
    ensures var f := if p.kind == 4 && p.addrFormat == 0 then NakNoRoute else Corrupt;
            Drain(b) == Drained([], [f], [], false)
  {
    WireLayout(p);
    assert b[..MIN_HEADER_LENGTH] == p.Wire()[..MIN_HEADER_LENGTH];
    ReadsFault(p, b);
    assert b[|b|..] == [] && Drain([]) == Drained([], [], [], false);
  }

  /** Cut within its header, it is left alone. */
  lemma {:induction false} FaultWaits(p: Pdu, b: seq<Byte>)
    requires p.WellFormed() && b < p.Wire() && |b| < p.words * 4
    ensures Drain(b) == Drained([], [], b, false)
  {
    WireLayout(p);
    if |b| >= MIN_HEADER_LENGTH {
      assert b[..MIN_HEADER_LENGTH] == p.Wire()[..MIN_HEADER_LENGTH];
      FixedFields(p, b);
    }
  }

  /** A header of another version takes the whole buffer with it. */
  lemma {:induction false} WrongVersion(b: seq<Byte>)
    requires |b| >= MIN_HEADER_LENGTH && b[0] != PROTO_VERSION
    ensures Drain(b) == Drained([], [VersionMismatch], [], false)
  {
    assert b[|b|..] == [] && Drain([]) == Drained([], [], [], false);
  }

  /** A header that claims to be shorter than any is corrupt, and just what it claims is thrown away. */
  lemma {:induction false} ShortHeader(b: seq<Byte>)
    requires |b| >= MIN_HEADER_LENGTH && b[0] == PROTO_VERSION && 0 < b[1] % 0x40 < 19
    ensures var rest := Drain(b[b[1] % 0x40 * 4..]);
            Drain(b) == rest.(faults := [Corrupt] + rest.faults)
  {
  }

  ghost predicate AllWellFormed(ps: seq<Pdu>) {
    forall i :: 0 <= i < |ps| ==> ps[i].WellFormed()
  }

  ghost function WireAll(ps: seq<Pdu>): seq<Byte>
    requires AllWellFormed(ps)
  {
    if ps == [] then [] else ps[0].Wire() + WireAll(ps[1..])
  }

  ghost function ContentAll(ps: seq<Pdu>): seq<Delivery> {
    if ps == [] then [] else (if ps[0].Legal() then [ps[0].Content()] else []) + ContentAll(ps[1..])
  }

  ghost function FaultAll(ps: seq<Pdu>): seq<Fault> {
    if ps == [] then [] else (if ps[0].Legal() then [] else [FaultOf(ps[0])]) + FaultAll(ps[1..])
  }

  /** Of any PDUs that have arrived, the legal ones are delivered and the others reported, each in order. */
  lemma {:induction false} MixedStream(ps: seq<Pdu>)
    requires AllWellFormed(ps)
    ensures Drain(WireAll(ps)) == Drained(ContentAll(ps), FaultAll(ps), [], false)
  {
    if ps != [] {
      MixedStream(ps[1..]);
      var rest := WireAll(ps[1..]);
      if ps[0].Legal() { DrainsOne(ps[0], rest); } else { FaultDrained(ps[0], rest); }
    }
  }

  // ---------- streams of PDUs ----------

  ghost predicate AllLegal(ps: seq<Pdu>) {
    forall i :: 0 <= i < |ps| ==> ps[i].Legal()
  }

  /** The PDUs as frames. */
  ghost function Frames(ps: seq<Pdu>): seq<Frame<Delivery>>
    requires AllLegal(ps)
  {
    seq(|ps|, i requires 0 <= i < |ps| => Frame(ps[i].Wire(), ps[i].Content()))
  }

  lemma HandlesPdu(p: Pdu)
    requires p.Legal()
    ensures Handles(Drain, Frame(p.Wire(), p.Content()))
  {
    forall rest ensures Drain(p.Wire() + rest) == Drain(rest).(delivered := [p.Content()] + Drain(rest).delivered) {
      DrainsOne(p, rest);
    }
    forall b | b < p.Wire() ensures Drain(b) == Drained([], [], b, false) {
      WaitsForRest(p, b);
    }
    WireLayout(p);
  }

  lemma ReadsPdus(ps: seq<Pdu>)
    requires AllLegal(ps)
    ensures Reads(Drain, Frames(ps))
  {
    forall f | f in Frames(ps) ensures Handles(Drain, f) {
      var i :| 0 <= i < |ps| && f == Frames(ps)[i];
      HandlesPdu(ps[i]);
    }
  }

  /**
   * For every list of regular PDUs and every way of cutting (any part of) their bytes into
   * chunks, exactly the complete PDUs are delivered, in order, and what stays buffered is a
   * proper prefix of the next one.
   */
  lemma StreamDelivered(ps: seq<Pdu>, chunks: seq<seq<Byte>>) returns (k: nat)
    requires AllLegal(ps) && Flatten(chunks) <= Stream(Frames(ps))
    ensures k <= |ps|
    ensures Feed(Drain, chunks).faults == [] && !Feed(Drain, chunks).spins
    ensures |Feed(Drain, chunks).delivered| == k && forall i :: 0 <= i < k ==>
      Feed(Drain, chunks).delivered[i] == ps[i].Content()
    ensures Flatten(chunks) == Stream(Frames(ps)[..k]) + Feed(Drain, chunks).rest
    ensures if k < |ps| then Feed(Drain, chunks).rest < ps[k].Wire() else Feed(Drain, chunks).rest == []
  {
    ReadsPdus(ps);
    var done, todo := ChunksDoNotMatter(Drain, Frames(ps), chunks);
    k := |done|;
    assert Frames(ps)[..k] == done;
    if k < |ps| { assert todo[0] == Frames(ps)[k]; }
    assert forall i :: 0 <= i < k ==> done[i] == Frames(ps)[i];
  }

  /** When the chunks make up the whole stream, every PDU is delivered and nothing stays behind. */
  lemma {:induction false} WholeStreamDelivered(ps: seq<Pdu>, chunks: seq<seq<Byte>>)
    requires AllLegal(ps) && Flatten(chunks) == Stream(Frames(ps))
    ensures Feed(Drain, chunks) == Drained(Contents(Frames(ps)), [], [], false)
  {
    ReadsPdus(ps);
    WholeStream(Drain, Frames(ps), chunks);
  }

  // ---------- malformed input ----------

  /** The callback stops making progress exactly on a header that claims length zero. */
  lemma SpinsExactly(b: seq<Byte>)
    requires |b| >= MIN_HEADER_LENGTH
    ensures ReadHeader(b).Failed? && ReadHeader(b).drained == 0 <==> b[0] == PROTO_VERSION && b[1] % 0x40 == 0
  {
  }

  /** Once such a header is at the front, nothing that arrives later helps: no PDU is ever delivered again. */
  lemma {:induction false} StuckForGood(b: seq<Byte>, chunks: seq<seq<Byte>>)
    requires |b| >= MIN_HEADER_LENGTH && b[0] == PROTO_VERSION && b[1] % 0x40 == 0
    ensures var s := Feed(Drain, [b] + chunks); s.delivered == [] && s.rest == b + Flatten(chunks) && s.spins
    decreases |chunks|
  {
    var all := [b] + chunks;
    if chunks == [] {
      assert all == [b] && all[..0] == [] && [] + b == b && b + [] == b;
    } else {
      var front, last := chunks[..|chunks| - 1], chunks[|chunks| - 1];
      assert all[..|all| - 1] == [b] + front && all[|all| - 1] == last;
      StuckForGood(b, front);
      Regroup(b, Flatten(front), last);
      SpinsExactly(b + Flatten(front) + last);
    }
  }

  // ---------- sending ----------

  datatype SendResult = Sent(bytes: seq<Byte>) | DeadDaemon | TooLong | WriteFailed(bytes: seq<Byte>)

  /** The PDU a channel sends: no sequence number, no fragments, no options. */
  function SentPdu(src: seq<Byte>, dst: seq<Byte>, payload: seq<Byte>, flagBits: nat): Pdu {
    Pdu(0, MIN_HEADER_LENGTH / 4, 0, flagBits, 0, TTL_DEFAULT, false, 0, 0, 0, dst, src, [], payload)
  }

  /** The fields of the header that is sent for `len` bytes of payload. */
  ghost predicate HasHeader(b: seq<Byte>, src: seq<Byte>, dst: seq<Byte>, len: nat, tos: Byte) {
    && |b| >= 76 && b[0] == 4 && b[1] == 19 && b[2] == tos && b[3] == 15
    && Get(b[4..8]) == 0 && Get(b[8..10]) == 0 && Get(b[10..12]) == len
    && b[12..44] == dst && b[44..76] == src
  }

  function FirstOctets(tos: Byte): seq<Byte> {
    [PROTO_VERSION, MIN_HEADER_LENGTH / 4, tos, TTL_DEFAULT]
  }

  lemma HeaderLayout(pb: seq<Byte>, first: seq<Byte>, a: seq<Byte>, b: seq<Byte>, c: seq<Byte>, dst: seq<Byte>,
    src: seq<Byte>)
    requires |first| == 4 && |a| == 4 && |b| == 2 && |c| == 2 && |dst| == 32 && |src| == 32
    requires pb == first + a + b + c + dst + src
    ensures |pb| == MIN_HEADER_LENGTH && pb[..4] == first && pb[4..8] == a && pb[8..10] == b && pb[10..12] == c
    ensures pb[12..44] == dst && pb[44..76] == src
  {
  }

  lemma {:induction false} HeaderFields(pb: seq<Byte>, src: seq<Byte>, dst: seq<Byte>, len: nat, tos: Byte)
    requires |src| == 32 && |dst| == 32 && len < 0x1_0000
    requires pb == FirstOctets(tos) + Put(0, 4) + Put(0, 2) + Put(len, 2) + dst + src
    ensures |pb| == MIN_HEADER_LENGTH && HasHeader(pb, src, dst, len, tos)
  {
    HeaderLayout(pb, FirstOctets(tos), Put(0, 4), Put(0, 2), Put(len, 2), dst, src);
    Spans();
    GetPut(0, 4);
    GetPut(0, 2);
    GetPut(len, 2);
    assert pb[0] == pb[..4][0] && pb[1] == pb[..4][1] && pb[2] == pb[..4][2] && pb[3] == pb[..4][3];
  }

  lemma FieldsStay(pb: seq<Byte>, payload: seq<Byte>, src: seq<Byte>, dst: seq<Byte>, len: nat, tos: Byte)
    requires HasHeader(pb, src, dst, len, tos)
    ensures HasHeader(pb + payload, src, dst, len, tos)
  {
    var b := pb + payload;
    assert b[4..8] == pb[4..8] && b[8..10] == pb[8..10] && b[10..12] == pb[10..12];
    assert b[12..44] == pb[12..44] && b[44..76] == pb[44..76];
  }

  lemma {:induction false} SentFixed(src: seq<Byte>, dst: seq<Byte>, payload: seq<Byte>, tos: Byte)
    requires |src| == 32 && |dst| == 32 && |payload| < 0x1_0000 && tos % 8 == 0 && tos < 0x20
    ensures var pdu := SentPdu(src, dst, payload, tos / 8);
            pdu.Legal() && pdu.Fixed() == FirstOctets(tos) + Put(0, 4) + Put(0, 2) + Put(|payload|, 2)
  {
    assert tos / 8 * 8 == tos;
  }

  /** With the bits of a regular PDU, this is the header of one. */
  lemma {:induction false} HeaderOfPdu(pb: seq<Byte>, src: seq<Byte>, dst: seq<Byte>, payload: seq<Byte>, tos: Byte)
    requires |src| == 32 && |dst| == 32 && |payload| < 0x1_0000 && tos % 8 == 0 && tos < 0x20
    requires pb == FirstOctets(tos) + Put(0, 4) + Put(0, 2) + Put(|payload|, 2) + dst + src
    ensures var pdu := SentPdu(src, dst, payload, tos / 8); pdu.Legal() && pdu.Wire() == pb + payload
  {
    SentFixed(src, dst, payload, tos);
    assert pb + [] == pb;
  }

  /**
   * Build the header byte by byte and write it, then the payload.  Each of the two writes may
   * fail; when the second does, the header is already on its way without its payload.
   */
  method Send(open: bool, src: seq<Byte>, dst: seq<Byte>, payload: seq<Byte>, tos: Byte,
              headerOk: bool, payloadOk: bool)
    returns (r: SendResult)
    requires |src| == 32 && |dst| == 32
    ensures r.DeadDaemon? <==> !open
    ensures r.TooLong? <==> open && |payload| >= 0x1_0000
    ensures r.WriteFailed? <==> open && |payload| < 0x1_0000 && !(headerOk && (payload == [] || payloadOk))
    ensures r.Sent? || (r.WriteFailed? && headerOk) ==>
      HasHeader(r.bytes, src, dst, |payload|, tos) && r.bytes[MIN_HEADER_LENGTH..] == if r.Sent? then payload else []
    ensures r.WriteFailed? && !headerOk ==> r.bytes == []
    ensures r.Sent? && tos % 8 == 0 && tos < 0x20 ==>
      var pdu := SentPdu(src, dst, payload, tos / 8); pdu.Legal() && r.bytes == pdu.Wire()
  {
    if !open { return DeadDaemon; }
    if |payload| > 0xffff { return TooLong; }
    var pb := FirstOctets(tos);
    pb := pb + Put(0, 4);
    pb := pb + Put(0, 2);
    pb := pb + Put(|payload|, 2);
    pb := pb + dst;
    pb := pb + src;
    HeaderFields(pb, src, dst, |payload|, tos);
    if !headerOk { return WriteFailed([]); }
    if |payload| > 0 && !payloadOk { return WriteFailed(pb); }
    FieldsStay(pb, payload, src, dst, |payload|, tos);
    if tos % 8 == 0 && tos < 0x20 { HeaderOfPdu(pb, src, dst, payload, tos); }
    r := Sent(pb + payload);
  }

  // ---------- the code ----------

  /** The state of the callback after it has dealt with what `ReadHeader` found. */
  function Next(s: Drained<Delivery, Fault>): Drained<Delivery, Fault> {
    var b := s.rest;
    match ReadHeader(b)
    case KeepReading => s
    case Failed(fault, drained) => Drained(s.delivered, s.faults + [fault], b[drained..], s.spins || drained == 0)
    case Ready(src, dst, seqno, hdrLen, payloadLen) =>
      Drained(s.delivered + [Delivery(src, dst, seqno, b[hdrLen..hdrLen + payloadLen])], s.faults,
        b[hdrLen + payloadLen..], s.spins)
  }

  lemma GoesOnReady(s: Drained<Delivery, Fault>)
    requires |s.rest| >= MIN_HEADER_LENGTH && ReadHeader(s.rest).Ready?
    ensures |Next(s).rest| < |s.rest| && Onward(s, Drain(s.rest)) == Onward(Next(s), Drain(Next(s).rest))
  {
    var o, r := ReadHeader(s.rest), Drain(Next(s).rest);
    JoinOne(s.delivered, Delivery(o.src, o.dst, o.seqno, s.rest[o.hdrLen..o.hdrLen + o.payloadLen]), r.delivered);
  }

  lemma GoesOnFailed(s: Drained<Delivery, Fault>)
    requires |s.rest| >= MIN_HEADER_LENGTH && ReadHeader(s.rest).Failed? && ReadHeader(s.rest).drained > 0
    ensures |Next(s).rest| < |s.rest| && Onward(s, Drain(s.rest)) == Onward(Next(s), Drain(Next(s).rest))
  {
    JoinOne(s.faults, ReadHeader(s.rest).fault, Drain(Next(s).rest).faults);
  }

  lemma GoesOn(s: Drained<Delivery, Fault>, s': Drained<Delivery, Fault>)
    requires |s.rest| >= MIN_HEADER_LENGTH && !ReadHeader(s.rest).KeepReading? && s' == Next(s) && !s'.spins
    ensures |s'.rest| < |s.rest| && Onward(s, Drain(s.rest)) == Onward(s', Drain(s'.rest))
  {
    if ReadHeader(s.rest).Failed? { GoesOnFailed(s); } else { GoesOnReady(s); }
  }

  lemma NextStops(s: Drained<Delivery, Fault>)
    requires |s.rest| < MIN_HEADER_LENGTH || ReadHeader(s.rest).KeepReading? || (Next(s).spins && !s.spins)
    ensures Onward(s, Drain(s.rest)) == if |s.rest| < MIN_HEADER_LENGTH then s else Next(s)
  {
  }

  /** A channel: its input buffer, and what it has handed to its two callbacks. */
  class Channel {
    var ibuf: seq<Byte>
    var delivered: seq<Delivery>
    var faults: seq<Fault>

    constructor ()
      ensures Now() == Drained([], [], [], false)
    {
      ibuf, delivered, faults := [], [], [];
    }

    function Now(): Drained<Delivery, Fault>
      reads this
    {
      Drained(delivered, faults, ibuf, false)
    }

    /** Deal with the header found at the front: a PDU is delivered, a header in error is thrown away. */
    method Handle() returns (spins: bool)
      requires |ibuf| >= MIN_HEADER_LENGTH && !ReadHeader(ibuf).KeepReading?
      modifies this
      ensures Now().(spins := spins) == Next(old(Now()))
    {
      var o := ReadHeader(ibuf);
      if o.Failed? {
        faults := faults + [o.fault];
        ibuf := ibuf[o.drained..];
        return o.drained == 0;
      }
      delivered := delivered + [Delivery(o.src, o.dst, o.seqno, ibuf[o.hdrLen..o.hdrLen + o.payloadLen])];
      ibuf := ibuf[o.hdrLen + o.payloadLen..];
      spins := false;
    }

    /** The read callback.  It returns true where the original would never return. */
    method ReadCallback() returns (spins: bool)
      modifies this
      ensures Now().(spins := spins) == Onward(old(Now()), Drain(old(ibuf)))
    {
      ghost var end := Onward(Now(), Drain(ibuf));
      while |ibuf| >= MIN_HEADER_LENGTH
        invariant Onward(Now(), Drain(ibuf)) == end
        decreases |ibuf|
      {
        ghost var s := Now();
        if ReadHeader(ibuf).KeepReading? {
          NextStops(s);
          return false;
        }
        spins := Handle();
        if spins {
          NextStops(s);
          return;
        }
        GoesOn(s, Now());
      }
      NextStops(Now());
      spins := false;
    }

    /** Data arrives, and the callback runs. */
    method Receive(chunk: seq<Byte>) returns (spins: bool)
      modifies this
      ensures Now().(spins := spins) == Onward(old(Now()), Drain(old(ibuf) + chunk))
    {
      ibuf := ibuf + chunk;
      spins := ReadCallback();
    }
  }

  /** A channel fed chunk by chunk does what `Feed` says. */
  method ReceiveAll(chunks: seq<seq<Byte>>) returns (delivered: seq<Delivery>, rest: seq<Byte>)
    ensures delivered == Feed(Drain, chunks).delivered && rest == Feed(Drain, chunks).rest
  {
    var c := new Channel();
    for i := 0 to |chunks|
      invariant c.Now() == Feed(Drain, chunks[..i]).(spins := false)
    {
      assert chunks[..i + 1][..i] == chunks[..i];
      var _ := c.Receive(chunks[i]);
    }
    assert chunks[..|chunks|] == chunks;
    delivered, rest := c.delivered, c.ibuf;
  }
}
