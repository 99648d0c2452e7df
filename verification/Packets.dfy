/**
 * Whole packets: the send buffer of an interface (babeld/message.c), flushed whenever it fills
 * up, and the loop that parses a received packet. Every packet can be understood on its own.
 */
module Packets {
  import opened Basics
  import opened Wire

  // ----- what goes into a packet

  datatype Op =
    | Advertise(link: Link, advert: Advert)
    | RetractEverything(seqno: Short)
    | Other(tlv: Tlv)

  /** Messages that do not touch what either side remembers. */
  predicate GoodOp(op: Op) {
    match op
    case Advertise(link, a) => GoodLink(link) && GoodAdvert(a)
    case RetractEverything(_) => true
    case Other(t) => WellFormed(t) && t.ty != MESSAGE_ROUTER_ID && t.ty != MESSAGE_NH && t.ty != MESSAGE_UPDATE
  }

  predicate AllGood(ops: seq<Op>) {
    forall i :: 0 <= i < |ops| ==> GoodOp(ops[i])
  }

  function WildcardBody(seqno: Short): (r: seq<Byte>)
    ensures |r| == 10
  {
    [0, 0x40, 0, 0] + ShortBytes(0xFFFF) + ShortBytes(seqno) + ShortBytes(0xFFFF)
  }

  function Emit(e: Encoder, op: Op): (Encoder, seq<Tlv>)
    requires GoodOp(op)
  {
    match op
    case Advertise(link, a) => SendUpdate(e, link, a)
    case RetractEverything(seqno) => (e.(id := None), [Tlv(MESSAGE_UPDATE, WildcardBody(seqno))])
    case Other(t) => (e, [t])
  }

  /** The messages of a packet, and what the sender remembers at its end. */
  function Packet(ops: seq<Op>): (Encoder, seq<Tlv>)
    requires AllGood(ops)
  {
    if ops == [] then (EMPTY, [])
    else
      var (e, ts) := Packet(ops[..|ops| - 1]);
      var (e', more) := Emit(e, ops[|ops| - 1]);
      (e', ts + more)
  }

  function MeantBy(rx: Receiver, op: Op): seq<Heard>
    requires GoodOp(op)
  {
    match op
    case Advertise(link, a) => Delivered(rx, link, a)
    case RetractEverything(_) => [RetractAll]
    case Other(_) => []
  }

  function Meant(rx: Receiver, ops: seq<Op>): seq<Heard>
    requires AllGood(ops)
  {
    if ops == [] then [] else Meant(rx, ops[..|ops| - 1]) + MeantBy(rx, ops[|ops| - 1])
  }

  /** An operation that carries a prefix carries it with no bits set beyond its length. */
  predicate PrefixMasked(op: Op) {
    op.Advertise? && !(IsV4(op.advert) && op.link.ipv4.None?) ==> Masked(op.advert.prefix, op.advert.plen)
  }

  predicate AllMasked(ops: seq<Op>) {
    forall i :: 0 <= i < |ops| ==> PrefixMasked(ops[i])
  }

  lemma EmitWellFormed(e: Encoder, op: Op)
    requires GoodOp(op)
    ensures AllWellFormed(Emit(e, op).1)
  {
  }

  lemma {:induction false} PacketWellFormed(ops: seq<Op>)
    requires AllGood(ops)
    ensures AllWellFormed(Packet(ops).1)
  {
    if ops != [] {
      PacketWellFormed(ops[..|ops| - 1]);
      EmitWellFormed(Packet(ops[..|ops| - 1]).0, ops[|ops| - 1]);
    }
  }

  /** The bytes of a packet: the header and the messages. */
  function Framed(body: seq<Byte>): seq<Byte>
    requires |body| < 0x1_0000
  {
    [42, 2] + ShortBytes(|body|) + body
  }

  function BodyOf(packet: seq<Byte>): seq<Byte> {
    if |packet| < 4 || packet[0] != 42 || packet[1] != 2 then []
    else packet[4..4 + Min(ToShort(packet[2], packet[3]), |packet| - 4)]
  }

  function Decode(rx: Receiver, packet: seq<Byte>): seq<Heard> {
    HearTlvs(rx, FRESH, Tlvs(BodyOf(packet))).1
  }

  lemma BodyOfFramed(body: seq<Byte>)
    requires |body| < 0x1_0000
    ensures BodyOf(Framed(body)) == body
  {
    var p := Framed(body);
    assert p[2..4] == ShortBytes(|body|);
    assert p[2] == p[2..4][0] && p[3] == p[2..4][1];
    ShortRoundTrip(|body|);
    assert p[4..4 + |body|] == body;
  }

  // ----- packets mean what was put into them

  lemma EmitRoundTrip(rx: Receiver, e: Encoder, d: Decoder, op: Op)
    requires GoodOp(op) && PrefixMasked(op) && InStep(e, d)
    ensures var (e', ts) := Emit(e, op);
            var (d', h) := HearTlvs(rx, d, ts);
            InStep(e', d') && h == MeantBy(rx, op)
  {
    match op
    case Advertise(link, a) =>
      if !(IsV4(a) && link.ipv4.None?) {
        UpdateRoundTrip(rx, e, d, link, a);
      }
    case RetractEverything(seqno) =>
      HearWildcard(rx, d, seqno);
      HearOne(rx, d, Tlv(MESSAGE_UPDATE, WildcardBody(seqno)));
    case Other(t) =>
      HearOne(rx, d, t);
  }

  lemma HearWildcard(rx: Receiver, d: Decoder, seqno: Short)
    ensures HearUpdate(rx, d, WildcardBody(seqno)) == (d.(id := Some(Zeroes(8))), [RetractAll])
  {
    var b := WildcardBody(seqno);
    assert b[8..10] == ShortBytes(0xFFFF);
    assert b[8] == b[8..10][0] && b[9] == b[8..10][1];
    assert MaskPrefix(Zeroes(16), 0)[8..] == Zeroes(8);
  }

  lemma {:induction false} PacketInStep(rx: Receiver, ops: seq<Op>)
    requires AllGood(ops) && AllMasked(ops)
    ensures var (e, ts) := Packet(ops);
            var (d, h) := HearTlvs(rx, FRESH, ts);
            InStep(e, d) && h == Meant(rx, ops)
  {
    if ops != [] {
      var before, op := ops[..|ops| - 1], ops[|ops| - 1];
      PacketInStep(rx, before);
      var (e, ts) := Packet(before);
      EmitRoundTrip(rx, e, HearTlvs(rx, FRESH, ts).0, op);
      HearTlvsAppend(rx, FRESH, ts, Emit(e, op).1);
    }
  }

  /** A packet decodes, with nothing remembered from other packets, to what was put into it. */
  lemma PacketRoundTrip(rx: Receiver, ops: seq<Op>)
    requires AllGood(ops) && AllMasked(ops)
    ensures AllWellFormed(Packet(ops).1)
    ensures var body := Flatten(Packet(ops).1);
            |body| < 0x1_0000 ==> Decode(rx, Framed(body)) == Meant(rx, ops)
  {
    PacketWellFormed(ops);
    var ts := Packet(ops).1;
    if |Flatten(ts)| < 0x1_0000 {
      BodyOfFramed(Flatten(ts));
      TlvsFlatten(ts);
      PacketInStep(rx, ops);
    }
  }

  // ----- and only when prefixes are masked

  predicate HeardMasked(h: Heard) {
    h.Announced? ==> Masked(h.prefix, h.plen)
  }

  predicate AllHeardMasked(hs: seq<Heard>) {
    forall i :: 0 <= i < |hs| ==> HeardMasked(hs[i])
  }

  lemma HeardMaskedParts(a: seq<Heard>, b: seq<Heard>)
    ensures AllHeardMasked(a + b) <==> AllHeardMasked(a) && AllHeardMasked(b)
  {
    assert forall i :: 0 <= i < |a| ==> (a + b)[i] == a[i];
    assert forall i :: 0 <= i < |b| ==> (a + b)[|a| + i] == b[i];
  }

  lemma UpdatePrefixMasked(d: Decoder, body: seq<Byte>)
    requires |body| >= 10
    ensures var p := UpdatePrefix(d, body);
            p.Some? ==> Masked(p.value.0, if body[0] == 1 then body[2] as int + 96 else body[2])
  {
    var dp := if body[0] == 1 then d.v4Prefix else d.v6Prefix;
    NetworkPrefixMasked(body[0], body[2], body[3], body[10..], dp);
  }

  lemma NetworkPrefixMasked(ae: Byte, plen: Byte, omitted: Byte, p: seq<Byte>, dp: Option<Address>)
    ensures var r := NetworkPrefix(ae, plen, omitted, p, dp);
            r.Some? ==> Masked(r.value.0, if ae == 1 then plen as int + 96 else plen)
  {
    var r := NetworkPrefix(ae, plen, omitted, p, dp);
    if r.Some? {
      var bits: nat := if ae == 1 then plen as int + 96 else plen;
      var a: Address :| r.value.0 == MaskPrefix(a, bits);
      MaskTwice(a, bits);
    }
  }

  lemma HearTlvMasked(rx: Receiver, d: Decoder, t: Tlv)
    ensures AllHeardMasked(HearTlv(rx, d, t).1)
  {
    if t.ty == MESSAGE_UPDATE && |t.body| >= 10 {
      UpdatePrefixMasked(d, t.body);
    }
  }

  lemma {:induction false} HearTlvsMasked(rx: Receiver, d: Decoder, ts: seq<Tlv>)
    ensures AllHeardMasked(HearTlvs(rx, d, ts).1)
    decreases |ts|
  {
    if ts != [] {
      HearTlvMasked(rx, d, ts[0]);
      HearTlvsMasked(rx, HearTlv(rx, d, ts[0]).0, ts[1..]);
      HeardMaskedParts(HearTlv(rx, d, ts[0]).1, HearTlvs(rx, HearTlv(rx, d, ts[0]).0, ts[1..]).1);
    }
  }

  lemma {:induction false} MeantMasked(rx: Receiver, ops: seq<Op>)
    requires AllGood(ops) && rx.ipv4
    requires AllHeardMasked(Meant(rx, ops))
    ensures AllMasked(ops)
  {
    if ops != [] {
      var before, op := ops[..|ops| - 1], ops[|ops| - 1];
      HeardMaskedParts(Meant(rx, before), MeantBy(rx, op));
      MeantMasked(rx, before);
      MeantByMasked(rx, op);
    }
  }

  lemma MeantByMasked(rx: Receiver, op: Op)
    requires GoodOp(op) && rx.ipv4 && AllHeardMasked(MeantBy(rx, op))
    ensures PrefixMasked(op)
  {
    var h := MeantBy(rx, op);
    assert h != [] ==> HeardMasked(h[0]);
  }

  /** For a receiver that takes IPv4, a packet is understood exactly when its prefixes are masked. */
  lemma RoundTripExactly(rx: Receiver, ops: seq<Op>)
    requires AllGood(ops) && rx.ipv4
    ensures AllWellFormed(Packet(ops).1)
    ensures var body := Flatten(Packet(ops).1);
            |body| < 0x1_0000 ==> (Decode(rx, Framed(body)) == Meant(rx, ops) <==> AllMasked(ops))
  {
    PacketWellFormed(ops);
    var body := Flatten(Packet(ops).1);
    if |body| < 0x1_0000 {
      if AllMasked(ops) {
        PacketRoundTrip(rx, ops);
      } else if Decode(rx, Framed(body)) == Meant(rx, ops) {
        HearTlvsMasked(rx, FRESH, Tlvs(BodyOf(Framed(body))));
        MeantMasked(rx, ops);
      }
    }
  }

  lemma {:induction false} FlattenBounded(ts: seq<Tlv>)
    requires AllWellFormed(ts)
    ensures |Flatten(ts)| <= 257 * |ts|
  {
    if ts != [] {
      FlattenBounded(ts[1..]);
    }
  }

  lemma AloneInPacket(op: Op)
    requires GoodOp(op)
    ensures AllGood([op]) && Packet([op]).1 == Emit(EMPTY, op).1 && AllWellFormed(Packet([op]).1)
    ensures |Flatten(Packet([op]).1)| < 0x1_0000
  {
    assert [op][..0] == [];
    EmitWellFormed(EMPTY, op);
    assert [] + Emit(EMPTY, op).1 == Emit(EMPTY, op).1;
    FlattenBounded(Emit(EMPTY, op).1);
  }

  /** An update whose prefix has bits set beyond its length is not heard as it was meant. */
  lemma UnmaskedLost(rx: Receiver, op: Op)
    requires rx.ipv4 && GoodOp(op) && !PrefixMasked(op)
    ensures AllGood([op]) && AllWellFormed(Packet([op]).1) && |Flatten(Packet([op]).1)| < 0x1_0000
    ensures Decode(rx, Framed(Flatten(Packet([op]).1))) != Meant(rx, [op])
  {
    AloneInPacket(op);
    RoundTripExactly(rx, [op]);
    assert !PrefixMasked([op][0]);
  }

  const ONE_BIT: Address := [1, 0, 0, 0, 0, 0, 0, 0, 0, 0, 0, 0, 0, 0, 0, 0]

  /** There are such updates: a prefix of length 0 with a bit set. */
  lemma UnmaskedExists(id: RouterId, link: Link)
    requires GoodLink(link)
    ensures var op := Advertise(link, Advert(id, ONE_BIT, 0, 0, 0, None)); GoodOp(op) && !PrefixMasked(op)
  {
    assert MaskPrefix(ONE_BIT, 0)[0] == 0 && ONE_BIT[0] == 1;
  }

  // ----- receiving

  /** `parse_route_attributes`. */
  method ParseAttributes(a: seq<Byte>, initial: seq<Byte>) returns (channels: seq<Byte>)
    ensures channels == Attributes(a, initial)
  {
    channels := initial;
    var i := 0;
    while i < |a|
      invariant 0 <= i <= |a|
      invariant Attributes(a[i..], channels) == Attributes(a, initial)
    {
      var rest := a[i..];
      if a[i] == 0 {
        assert rest[1..] == a[i + 1..];
        i := i + 1;
        continue;
      }
      if i + 1 >= |a| || i + a[i + 1] > |a| {
        return;
      }
      var length: nat := a[i + 1];
      if a[i] == 2 {
        length := Min(length, DIVERSITY_HOPS);
        if i + 2 + length > |a| {
          return;
        }
        assert rest[2..2 + length] == a[i + 2..i + 2 + length];
        if 0 in a[i + 2..i + 2 + length] {
          return;
        }
        channels := a[i + 2..i + 2 + length];
      }
      var next := Min(i + 2 + length, |a|);
      assert rest[next - i..] == a[next..];
      i := next;
    }
  }

  lemma SkipPad(b: seq<Byte>, i: nat)
    requires i < |b| && b[i] == MESSAGE_PAD1
    ensures Tlvs(b[i..]) == Tlvs(b[i + 1..])
  {
    assert b[i..][1..] == b[i + 1..];
  }

  lemma NoMore(b: seq<Byte>, i: nat)
    requires i <= |b|
    requires i < |b| ==> b[i] != MESSAGE_PAD1
    requires i + 1 < |b| ==> i + 2 + b[i + 1] as int > |b|
    ensures Tlvs(b[i..]) == []
  {
  }

  lemma FirstTlv(b: seq<Byte>, i: nat, length: nat)
    requires i + 1 < |b| && b[i] != MESSAGE_PAD1 && b[i + 1] == length && i + 2 + length <= |b|
    ensures Tlvs(b[i..]) == [Tlv(b[i], b[i + 2..i + 2 + length])] + Tlvs(b[i + 2 + length..])
  {
    var rest := b[i..];
    assert rest[2..2 + length] == b[i + 2..i + 2 + length] && rest[2 + length..] == b[i + 2 + length..];
  }

  /** What the rest of a body tells a receiver that remembers `d`. */
  function Rest(rx: Receiver, d: Decoder, b: seq<Byte>): seq<Heard> {
    HearTlvs(rx, d, Tlvs(b)).1
  }

  lemma HearNext(rx: Receiver, d: Decoder, b: seq<Byte>, i: nat, length: nat)
    requires i + 1 < |b| && b[i] != MESSAGE_PAD1 && b[i + 1] == length && i + 2 + length <= |b|
    ensures var (d', h) := HearTlv(rx, d, Tlv(b[i], b[i + 2..i + 2 + length]));
            Rest(rx, d, b[i..]) == h + Rest(rx, d', b[i + 2 + length..])
  {
    var t, ts := Tlv(b[i], b[i + 2..i + 2 + length]), Tlvs(b[i + 2 + length..]);
    FirstTlv(b, i, length);
    assert ([t] + ts)[1..] == ts;
  }

  /** `parse_packet`, for the messages that make up updates. */
  method ParsePacket(rx: Receiver, packet: seq<Byte>) returns (heard: seq<Heard>)
    ensures heard == Decode(rx, packet)
  {
    if |packet| < 4 || packet[0] != 42 || packet[1] != 2 {
      return [];
    }
    heard := ParseBody(rx, packet[4..4 + Min(ToShort(packet[2], packet[3]), |packet| - 4)]);
  }

  method ParseBody(rx: Receiver, body: seq<Byte>) returns (heard: seq<Heard>)
    ensures heard == Rest(rx, FRESH, body)
  {
    heard := [];
    var d, i, stop := FRESH, 0, false;
    assert body[0..] == body;
    while i < |body| && !stop
      invariant 0 <= i <= |body|
      invariant Rest(rx, FRESH, body) == heard + if stop then [] else Rest(rx, d, body[i..])
      decreases |body| - i, !stop
    {
      var h;
      d, h, i, stop := ParseMessage(rx, d, body, i);
      heard := heard + h;
    }
    NoMore(body, |body|);
  }

  method HearMessage(rx: Receiver, d: Decoder, b: seq<Byte>, i: nat, length: nat) returns (d': Decoder, h: seq<Heard>)
    requires i + 1 < |b| && b[i] != MESSAGE_PAD1 && b[i + 1] == length && i + 2 + length <= |b|
    ensures Rest(rx, d, b[i..]) == h + Rest(rx, d', b[i + 2 + length..])
  {
    HearNext(rx, d, b, i, length);
    var heard := HearTlv(rx, d, Tlv(b[i], b[i + 2..i + 2 + length]));
    d', h := heard.0, heard.1;
  }

  /** One turn of the loop: the message at `i`, unless it is truncated. */
  method ParseMessage(rx: Receiver, d: Decoder, body: seq<Byte>, i: nat)
    returns (d': Decoder, h: seq<Heard>, next: nat, stop: bool)
    requires i < |body|
    ensures if stop then next == i else i < next <= |body|
    ensures Rest(rx, d, body[i..]) == h + if stop then [] else Rest(rx, d', body[next..])
  {
    d', h, next, stop := d, [], i, true;
    if body[i] == MESSAGE_PAD1 {
      SkipPad(body, i);
      next, stop := i + 1, false;
    } else if i + 1 < |body| && i + 2 + body[i + 1] as int <= |body| {
      var length: nat := body[i + 1];
      d', h := HearMessage(rx, d, body, i, length);
      next, stop := i + 2 + length, false;
    } else {
      NoMore(body, i);
    }
  }
}
