/**
 * Update messages of the Babel protocol (sections 4.4 to 4.4.9 of RFC 6126): the compressor of
 * babeld/message.c, which leaves out what the receiver can remember from earlier messages of
 * the same packet, and the receiver that remembers it.
 */
module Wire {
  import opened Basics

  type RouterId = s: seq<Byte> | |s| == 8 witness seq(8, i => 0)

  const DIVERSITY_HOPS := 8
  const CHANNEL_INTERFERING: Byte := 255

  const MESSAGE_PAD1: Byte := 0
  const MESSAGE_ROUTER_ID: Byte := 6
  const MESSAGE_NH: Byte := 7
  const MESSAGE_UPDATE: Byte := 8

  // ----- bytes

  predicate Bit(flags: Byte, bit: int)
    requires bit == 0x80 || bit == 0x40
  {
    if bit == 0x80 then flags / 0x80 % 2 == 1 else flags / 0x40 % 2 == 1
  }

  function Zeroes(n: nat): (r: seq<Byte>)
    ensures |r| == n
  {
    seq(n, i => 0)
  }

  // ----- prefixes

  /** The upper `n` bits of a byte, for n < 8. */
  function MaskByte(b: Byte, n: nat): (r: Byte)
    requires n < 8
  {
    match n
    case 0 => 0
    case 1 => 128 * (b / 128)
    case 2 => 64 * (b / 64)
    case 3 => 32 * (b / 32)
    case 4 => 16 * (b / 16)
    case 5 => 8 * (b / 8)
    case 6 => 4 * (b / 4)
    case 7 => 2 * (b / 2)
  }

  lemma MaskByteTwice(b: Byte, n: nat)
    requires n < 8
    ensures MaskByte(MaskByte(b, n), n) == MaskByte(b, n)
  {
    match n
    case 0 =>
    case 1 => assert 128 * (b / 128) / 128 == b / 128;
    case 2 => assert 64 * (b / 64) / 64 == b / 64;
    case 3 => assert 32 * (b / 32) / 32 == b / 32;
    case 4 => assert 16 * (b / 16) / 16 == b / 16;
    case 5 => assert 8 * (b / 8) / 8 == b / 8;
    case 6 => assert 4 * (b / 4) / 4 == b / 4;
    case 7 => assert 2 * (b / 2) / 2 == b / 2;
  }

  lemma MaskByteClearsABit(b: Byte, n: nat)
    requires n < 8
    ensures MaskByte(b, n) < 255
  {
    match n
    case 0 =>
    case 1 => assert b / 128 <= 1;
    case 2 => assert b / 64 <= 3;
    case 3 => assert b / 32 <= 7;
    case 4 => assert b / 16 <= 15;
    case 5 => assert b / 8 <= 31;
    case 6 => assert b / 4 <= 63;
    case 7 => assert b / 2 <= 127;
  }

  /** `mask_prefix`. */
  function MaskPrefix(prefix: Address, plen: nat): (r: Address) {
    if plen >= 128 then prefix
    else seq(16, i requires 0 <= i < 16 =>
                   if i < plen / 8 then prefix[i]
                   else if i == plen / 8 then MaskByte(prefix[i], plen % 8)
                   else 0)
  }

  predicate Masked(prefix: Address, plen: nat) {
    MaskPrefix(prefix, plen) == prefix
  }

  lemma MaskTwice(prefix: Address, plen: nat)
    ensures Masked(MaskPrefix(prefix, plen), plen)
  {
    if plen < 128 {
      MaskByteTwice(prefix[plen / 8], plen % 8);
    }
  }

  function V4ToV6(a: seq<Byte>): Address
    requires |a| == 4
  {
    V4PREFIX + a
  }

  /** A masked prefix shorter than 96 bits cannot be v4-mapped. */
  lemma ShortPrefixNotV4(prefix: Address, plen: nat)
    requires Masked(prefix, plen) && plen < 96
    ensures !V4Mapped(prefix)
  {
    MaskByteClearsABit(prefix[11], plen % 8);
    assert prefix[11] == MaskPrefix(prefix, plen)[11] < 255;
    assert prefix[..12][11] == prefix[11];
  }

  function PrefixBytes(plen: nat): nat {
    (plen + 7) / 8
  }

  /** Only the first PrefixBytes(plen) bytes of a prefix matter. */
  lemma MaskDependsOnFirstBytes(a: Address, b: Address, plen: nat)
    requires plen <= 128 && a[..PrefixBytes(plen)] == b[..PrefixBytes(plen)]
    ensures MaskPrefix(a, plen) == MaskPrefix(b, plen)
  {
    var n := PrefixBytes(plen);
    assert forall i :: 0 <= i < n ==> a[i] == a[..n][i] && b[i] == b[..n][i];
    if plen == 128 {
      assert a[..16] == a && b[..16] == b;
    } else {
      assert plen % 8 == 0 ==> forall c: Byte :: MaskByte(c, 0) == 0;
      assert MaskPrefix(a, plen) == MaskPrefix(b, plen);
    }
  }

  /** The prefix that starts with these bytes. */
  function Padded(bytes: seq<Byte>, plen: nat): Address
    requires |bytes| <= 16
  {
    MaskPrefix(bytes + Zeroes(16 - |bytes|), plen)
  }

  /** A masked prefix is determined by its first PrefixBytes(plen) bytes. */
  lemma PaddedBack(prefix: Address, plen: nat)
    requires plen <= 128 && Masked(prefix, plen)
    ensures Padded(prefix[..PrefixBytes(plen)], plen) == prefix
  {
    var bytes := prefix[..PrefixBytes(plen)];
    var whole: Address := bytes + Zeroes(16 - |bytes|);
    assert whole[..PrefixBytes(plen)] == bytes;
    MaskDependsOnFirstBytes(whole, prefix, plen);
  }

  /**
   * `network_prefix`: rebuild a prefix from its address encoding, the bytes present, and the
   * remembered prefix whose first `omitted` bytes were left out. Returns the bytes consumed.
   */
  function NetworkPrefix(ae: Byte, plen: Byte, omitted: Byte, p: seq<Byte>, dp: Option<Address>): Option<(Address,
                        nat)> {
    var pb := PrefixBytes(plen);
    if pb > 16 then None
    else if ae == 0 then Some((MaskPrefix(Zeroes(16), plen), 0))
    else if ae == 1 then
      if omitted > 4 || pb > 4 || omitted > pb || |p| < pb - omitted then None
      else if omitted > 0 && (dp.None? || !V4Mapped(dp.value)) then None
      else
        var head: seq<Byte> := if omitted > 0 then dp.value[..12 + omitted] else V4PREFIX;
        Some((Padded(head + p[..pb - omitted], plen + 96), pb - omitted))
    else if ae == 2 then
      if omitted > 16 || omitted > pb || |p| < pb - omitted then None
      else if omitted > 0 && (dp.None? || V4Mapped(dp.value)) then None
      else
        var head: seq<Byte> := if omitted > 0 then dp.value[..omitted] else [];
        Some((Padded(head + p[..pb - omitted], plen), pb - omitted))
    else if ae == 3 then
      if pb < 8 || |p| < pb - 8 then None
      else Some((Padded([0xFE, 0x80] + Zeroes(6) + p[..pb - 8], plen), pb - 8))
    else None
  }

  /** `network_address`. */
  function NetworkAddress(ae: Byte, p: seq<Byte>): Option<Address> {
    if ae == 0 then Some(Zeroes(16))
    else if ae == 1 then if |p| < 4 then None else Some(V4ToV6(p[..4]))
    else if ae == 2 then if |p| < 16 then None else Some(p[..16])
    else if ae == 3 then if |p| < 8 then None else Some([0xFE, 0x80] + Zeroes(6) + p[..8])
    else None
  }

  // ----- receiving

  /** What the receiver remembers while it parses a packet. */
  datatype Decoder = Decoder(id: Option<RouterId>, v4Prefix: Option<Address>, v6Prefix: Option<Address>,
                             v4Nh: Option<Address>, v6Nh: Option<Address>)

  const FRESH: Decoder := Decoder(None, None, None, None, None)

  datatype Receiver = Receiver(ipv4: bool, faraway: bool)

  /** A route update as it reaches update_route; without a next hop the neighbour's address is used. */
  datatype Heard =
    | Announced(id: RouterId, prefix: Address, plen: nat, seqno: Short, metric: Short, interval: Short,
                nexthop: Option<Address>, channels: seq<Byte>)
    | RetractAll

  datatype Tlv = Tlv(ty: Byte, body: seq<Byte>)

  function HearRouterId(d: Decoder, body: seq<Byte>): Decoder {
    d.(id := if |body| < 10 then None else Some(body[2..10]))
  }

  function HearNextHop(d: Decoder, body: seq<Byte>): Decoder {
    var nh := if |body| < 2 then None else NetworkAddress(body[0], body[2..]);
    if nh.None? then d.(v4Nh := None, v6Nh := None)
    else if body[0] == 1 then d.(v4Nh := nh)
    else d.(v6Nh := nh)
  }

  /** `parse_route_attributes`: the channels after reading the attributes, starting from `ch`. */
  function Attributes(a: seq<Byte>, ch: seq<Byte>): seq<Byte>
    decreases |a|
  {
    if a == [] then ch
    else if a[0] == 0 then Attributes(a[1..], ch)
    else if |a| < 2 || a[1] > |a| then ch
    else if a[0] != 2 then
      var length: nat := a[1];
      Attributes(a[Min(2 + length, |a|)..], ch)
    else
      var n := Min(a[1], DIVERSITY_HOPS);
      if |a| < 2 + n || 0 in a[2..2 + n] then ch else Attributes(a[2 + n..], a[2..2 + n])
  }

  function Channels(rx: Receiver, metric: Short, attributes: seq<Byte>): seq<Byte> {
    if rx.faraway then []
    else Attributes(attributes, if metric < 256 then [] else [CHANNEL_INTERFERING])
  }

  /** The prefix of an update and the number of prefix bytes it carries. */
  function UpdatePrefix(d: Decoder, body: seq<Byte>): Option<(Address, nat)>
    requires |body| >= 10
  {
    if body[3] == 0 || (if body[1] == 1 then d.v4Prefix.Some? else d.v6Prefix.Some?)
    then NetworkPrefix(body[0], body[2], body[3], body[10..], if body[0] == 1 then d.v4Prefix else d.v6Prefix)
    else None
  }

  /** What the flags of an update make the receiver remember. */
  function Remember(d: Decoder, ae: Byte, flags: Byte, prefix: Address): Decoder {
    var d1 := if !Bit(flags, 0x80) then d
              else if ae == 1 then d.(v4Prefix := Some(prefix)) else d.(v6Prefix := Some(prefix));
    if !Bit(flags, 0x40) then d1
    else d1.(id := Some(if ae == 1 then Zeroes(4) + prefix[12..] else prefix[8..]))
  }

  /** What of a parsed update goes on to the route table. */
  function PassOn(rx: Receiver, d: Decoder, ae: Byte, prefix: Address, plen: Byte, seqno: Short, metric: Short,
                  interval: Short, attributes: seq<Byte>): seq<Heard> {
    if ae == 0 then if metric < 0xFFFF then [] else [RetractAll]
    else if d.id.None? || (ae == 1 && (d.v4Nh.None? || !rx.ipv4)) then []
    else
      var total: nat := plen;
      [Announced(d.id.value, prefix, if ae == 1 then total + 96 else total, seqno, metric, interval,
                 if ae == 1 then d.v4Nh else d.v6Nh, Channels(rx, metric, attributes))]
  }

  function HearUpdate(rx: Receiver, d: Decoder, body: seq<Byte>): (Decoder, seq<Heard>) {
    if |body| < 10 then
      (if |body| < 2 || Bit(body[1], 0x80) then d.(v4Prefix := None, v6Prefix := None) else d, [])
    else
      var parsed := UpdatePrefix(d, body);
      if parsed.None? then
        (if Bit(body[1], 0x80) then d.(v4Prefix := None, v6Prefix := None) else d, [])
      else
        var (ae, prefix) := (body[0], parsed.value.0);
        var d' := Remember(d, ae, body[1], prefix);
        var (interval, seqno, metric) :=
          (ToShort(body[4], body[5]), ToShort(body[6], body[7]), ToShort(body[8], body[9]));
        var rest := body[Min(10 + parsed.value.1, |body|)..];
        (d', PassOn(rx, d', ae, prefix, body[2], seqno, metric, interval, rest))
  }

  function HearTlv(rx: Receiver, d: Decoder, t: Tlv): (Decoder, seq<Heard>) {
    if t.ty == MESSAGE_ROUTER_ID then (HearRouterId(d, t.body), [])
    else if t.ty == MESSAGE_NH then (HearNextHop(d, t.body), [])
    else if t.ty == MESSAGE_UPDATE then HearUpdate(rx, d, t.body)
    else (d, [])
  }

  function HearTlvs(rx: Receiver, d: Decoder, ts: seq<Tlv>): (Decoder, seq<Heard>)
    decreases |ts|
  {
    if ts == [] then (d, [])
    else
      var (d1, h1) := HearTlv(rx, d, ts[0]);
      var (d2, h2) := HearTlvs(rx, d1, ts[1..]);
      (d2, h1 + h2)
  }

  lemma HearOne(rx: Receiver, d: Decoder, t: Tlv)
    ensures HearTlvs(rx, d, [t]) == HearTlv(rx, d, t)
  {
    var (d1, h1) := HearTlv(rx, d, t);
    assert [t][1..] == [] && h1 + [] == h1;
    assert HearTlvs(rx, d1, []) == (d1, []);
  }

  lemma {:induction false} HearTlvsAppend(rx: Receiver, d: Decoder, a: seq<Tlv>, b: seq<Tlv>)
    ensures var (d1, h1) := HearTlvs(rx, d, a);
            var (d2, h2) := HearTlvs(rx, d1, b);
            HearTlvs(rx, d, a + b) == (d2, h1 + h2)
    decreases |a|
  {
    if a == [] {
      var (d2, h2) := HearTlvs(rx, d, b);
      assert a + b == b && [] + h2 == h2;
    } else {
      assert (a + b)[1..] == a[1..] + b;
      var (d1, h1) := HearTlv(rx, d, a[0]);
      HearTlvsAppend(rx, d1, a[1..], b);
      var (d2, h2) := HearTlvs(rx, d1, a[1..]);
      var (d3, h3) := HearTlvs(rx, d2, b);
      assert h1 + (h2 + h3) == (h1 + h2) + h3;
    }
  }

  // ----- framing

  /** The messages in a packet body; what follows a truncated message is not looked at. */
  function Tlvs(b: seq<Byte>): seq<Tlv> {
    if b == [] then []
    else if b[0] == MESSAGE_PAD1 then Tlvs(b[1..])
    else if |b| < 2 then []
    else
      var length: nat := b[1];
      if |b| < 2 + length then [] else [Tlv(b[0], b[2..2 + length])] + Tlvs(b[2 + length..])
  }

  predicate WellFormed(t: Tlv) {
    t.ty != MESSAGE_PAD1 && |t.body| < 256
  }

  predicate AllWellFormed(ts: seq<Tlv>) {
    forall i :: 0 <= i < |ts| ==> WellFormed(ts[i])
  }

  function TlvBytes(t: Tlv): seq<Byte>
    requires WellFormed(t)
  {
    [t.ty, |t.body|] + t.body
  }

  function Flatten(ts: seq<Tlv>): seq<Byte>
    requires AllWellFormed(ts)
  {
    if ts == [] then [] else TlvBytes(ts[0]) + Flatten(ts[1..])
  }

  lemma {:induction false} FlattenAppend(a: seq<Tlv>, b: seq<Tlv>)
    requires AllWellFormed(a) && AllWellFormed(b)
    ensures AllWellFormed(a + b) && Flatten(a + b) == Flatten(a) + Flatten(b)
  {
    if a == [] {
      assert a + b == b;
    } else {
      FlattenAppend(a[1..], b);
      FlattenFirst(a[0], a[1..] + b);
      assert a + b == [a[0]] + (a[1..] + b);
      Associative(TlvBytes(a[0]), Flatten(a[1..]), Flatten(b));
    }
  }

  lemma FlattenFirst(t: Tlv, ts: seq<Tlv>)
    requires WellFormed(t) && AllWellFormed(ts)
    ensures AllWellFormed([t] + ts) && Flatten([t] + ts) == TlvBytes(t) + Flatten(ts)
  {
    assert ([t] + ts)[1..] == ts;
  }

  /** Splitting a body into messages undoes writing them one after another. */
  lemma {:induction false} TlvsFlatten(ts: seq<Tlv>)
    requires AllWellFormed(ts)
    ensures Tlvs(Flatten(ts)) == ts
  {
    if ts != [] {
      TlvsFlatten(ts[1..]);
      TlvsFirst(ts[0], Flatten(ts[1..]));
      assert ts == [ts[0]] + ts[1..];
    }
  }

  lemma TlvsFirst(t: Tlv, rest: seq<Byte>)
    requires WellFormed(t)
    ensures Tlvs(TlvBytes(t) + rest) == [t] + Tlvs(rest)
  {
    var b := TlvBytes(t) + rest;
    assert b[0] == t.ty && b[1] == |t.body| && b[2..2 + |t.body|] == t.body;
    assert b[2 + |t.body|..] == rest;
  }

  // ----- sending

  /** What the sender remembers having put into the current packet. */
  datatype Encoder = Encoder(id: Option<RouterId>, nh: Option<seq<Byte>>, prefix: Option<Address>)

  const EMPTY: Encoder := Encoder(None, None, None)

  /** The interface an update leaves through: its IPv4 address and update interval. */
  datatype Link = Link(ipv4: Option<seq<Byte>>, interval: Short)

  /** An update to send; without channels no channel attribute is written. */
  datatype Advert = Advert(id: RouterId, prefix: Address, plen: nat, seqno: Short, metric: Short,
                           channels: Option<seq<Byte>>)

  predicate GoodLink(link: Link) {
    link.ipv4.Some? ==> |link.ipv4.value| == 4
  }

  predicate GoodAdvert(a: Advert) {
    a.plen <= 128 &&
    (a.channels.Some? ==> |a.channels.value| <= DIVERSITY_HOPS && 0 !in a.channels.value)
  }

  predicate IsV4(a: Advert) {
    a.plen >= 96 && V4Mapped(a.prefix)
  }

  /** How many leading bytes of `b`, at most `n`, repeat those of `a`. */
  function Common(a: Address, b: Address, n: nat): (r: nat)
    requires n <= 16
    ensures r <= n && a[..r] == b[..r]
    ensures r < n ==> a[r] != b[r]
  {
    if n == 0 then 0
    else
      var r := Common(a, b, n - 1);
      if r == n - 1 && a[n - 1] == b[n - 1] then
        assert a[..n] == a[..n - 1] + [a[n - 1]] && b[..n] == b[..n - 1] + [b[n - 1]];
        n
      else r
  }

  function Omitted(e: Encoder, a: Advert): (r: nat)
    requires GoodAdvert(a)
    ensures r <= a.plen / 8
  {
    if IsV4(a) || e.prefix.None? then 0 else Common(e.prefix.value, a.prefix, a.plen / 8)
  }

  predicate StoresPrefix(e: Encoder, a: Advert) {
    !IsV4(a) && (e.prefix.None? || a.plen >= 48)
  }

  /** The router-id can be read off the prefix. */
  predicate IdInPrefix(a: Advert) {
    !IsV4(a) && a.plen == 128 && a.prefix[8..] == a.id
  }

  function Flags(e: Encoder, a: Advert): Byte {
    (if StoresPrefix(e, a) then 0x80 else 0) + (if e.id != Some(a.id) && IdInPrefix(a) then 0x40 else 0)
  }

  function RealPlen(a: Advert): (r: nat)
    requires GoodAdvert(a)
    ensures r <= 128 && (IsV4(a) ==> r <= 32)
  {
    if IsV4(a) then a.plen - 96 else a.plen
  }

  function ChannelBytes(channels: Option<seq<Byte>>): (r: seq<Byte>)
    requires channels.Some? ==> |channels.value| <= DIVERSITY_HOPS
    ensures |r| <= 10
  {
    if channels.None? then [] else [2, |channels.value|] + channels.value
  }

  function CarriedBytes(e: Encoder, a: Advert): (r: seq<Byte>)
    requires GoodAdvert(a)
    ensures |r| == PrefixBytes(RealPlen(a)) - Omitted(e, a) <= 16
  {
    (if IsV4(a) then a.prefix[12..] else a.prefix)[Omitted(e, a)..PrefixBytes(RealPlen(a))]
  }

  function UpdateHeader(e: Encoder, link: Link, a: Advert): (r: seq<Byte>)
    requires GoodAdvert(a)
    ensures |r| == 10
  {
    [if IsV4(a) then 1 else 2, Flags(e, a), RealPlen(a), Omitted(e, a)] +
    ShortBytes(link.interval) + ShortBytes(a.seqno) + ShortBytes(a.metric)
  }

  function UpdateBody(e: Encoder, link: Link, a: Advert): (r: seq<Byte>)
    requires GoodAdvert(a)
    ensures |r| <= 36
  {
    UpdateHeader(e, link, a) + CarriedBytes(e, a) + ChannelBytes(a.channels)
  }

  /** The Next Hop message an update needs first, if any. */
  function NextHopTlvs(e: Encoder, link: Link, a: Advert): (r: seq<Tlv>)
    requires IsV4(a) ==> link.ipv4.Some?
  {
    if IsV4(a) && e.nh != link.ipv4 then [Tlv(MESSAGE_NH, [1, 0] + link.ipv4.value)] else []
  }

  /** The Router-Id message an update needs first, if any. */
  function RouterIdTlvs(e: Encoder, a: Advert): (r: seq<Tlv>) {
    if e.id == Some(a.id) || IdInPrefix(a) then [] else [Tlv(MESSAGE_ROUTER_ID, [0, 0] + a.id)]
  }

  /** `really_send_update`. */
  function SendUpdate(e: Encoder, link: Link, a: Advert): (Encoder, seq<Tlv>)
    requires GoodAdvert(a) && GoodLink(link)
  {
    if IsV4(a) && link.ipv4.None? then (e, [])
    else
      (Encoder(Some(a.id), if IsV4(a) then link.ipv4 else e.nh,
               if StoresPrefix(e, a) then Some(a.prefix) else e.prefix),
       NextHopTlvs(e, link, a) + RouterIdTlvs(e, a) + [Tlv(MESSAGE_UPDATE, UpdateBody(e, link, a))])
  }

  /** What a receiver should hear of an update. */
  function Delivered(rx: Receiver, link: Link, a: Advert): seq<Heard>
    requires GoodAdvert(a) && GoodLink(link)
  {
    if IsV4(a) && (link.ipv4.None? || !rx.ipv4) then []
    else
      [Announced(a.id, a.prefix, a.plen, a.seqno, a.metric, link.interval,
                 if IsV4(a) then Some(V4ToV6(link.ipv4.value)) else None,
                 if rx.faraway then []
                 else if a.channels.Some? then a.channels.value
                 else if a.metric < 256 then [] else [CHANNEL_INTERFERING])]
  }

  // ----- the receiver follows the sender

  /** The receiver remembers whatever the sender counts on. */
  predicate InStep(e: Encoder, d: Decoder) {
    && (e.id.Some? ==> d.id == e.id)
    && (e.nh.Some? ==> |e.nh.value| == 4 && d.v4Nh == Some(V4ToV6(e.nh.value)))
    && d.v6Nh == None
    && d.v6Prefix == e.prefix
    && (e.prefix.Some? ==> !V4Mapped(e.prefix.value))
  }

  lemma ShortRoundTrip(x: Short)
    ensures ToShort(ShortBytes(x)[0], ShortBytes(x)[1]) == x
  {
  }

  lemma FlagBits(e: Encoder, a: Advert)
    ensures Bit(Flags(e, a), 0x80) == StoresPrefix(e, a)
    ensures Bit(Flags(e, a), 0x40) == (e.id != Some(a.id) && IdInPrefix(a))
    ensures Flags(e, a) != 1
  {
  }

  lemma BodyFields(e: Encoder, link: Link, a: Advert)
    requires GoodAdvert(a)
    ensures var b := UpdateBody(e, link, a);
            && |b| >= 10 && b[0] == (if IsV4(a) then 1 else 2) && b[1] == Flags(e, a)
            && b[2] == RealPlen(a) && b[3] == Omitted(e, a)
            && ToShort(b[4], b[5]) == link.interval && ToShort(b[6], b[7]) == a.seqno
            && ToShort(b[8], b[9]) == a.metric
            && b[10..] == CarriedBytes(e, a) + ChannelBytes(a.channels)
            && b[10 + |CarriedBytes(e, a)|..] == ChannelBytes(a.channels)
  {
    var h, c, ch := UpdateHeader(e, link, a), CarriedBytes(e, a), ChannelBytes(a.channels);
    var b := UpdateBody(e, link, a);
    assert b == h + c + ch == h + (c + ch);
    assert forall i :: 0 <= i < 10 ==> b[i] == h[i];
    assert h[4..6] == ShortBytes(link.interval) && h[6..8] == ShortBytes(a.seqno) && h[8..10] == ShortBytes(a.metric);
    ShortRoundTrip(link.interval);
    ShortRoundTrip(a.seqno);
    ShortRoundTrip(a.metric);
  }

  lemma RebuildV4(prefix: Address, plen: nat, rest: seq<Byte>, dp: Option<Address>)
    requires 96 <= plen <= 128 && V4Mapped(prefix) && Masked(prefix, plen)
    ensures var pb := PrefixBytes(plen - 96);
            NetworkPrefix(1, plen - 96, 0, prefix[12..][..pb] + rest, dp) == Some((prefix, pb))
  {
    var pb := PrefixBytes(plen - 96);
    var c := prefix[12..][..pb];
    assert (c + rest)[..pb] == c;
    assert V4PREFIX + c == prefix[..12 + pb];
    PaddedBack(prefix, plen);
  }

  lemma RebuildV6(prefix: Address, plen: nat, omitted: nat, rest: seq<Byte>, dp: Option<Address>)
    requires plen <= 128 && omitted <= PrefixBytes(plen) && Masked(prefix, plen)
    requires omitted > 0 ==> dp.Some? && !V4Mapped(dp.value) && dp.value[..omitted] == prefix[..omitted]
    ensures var pb := PrefixBytes(plen);
            NetworkPrefix(2, plen, omitted, prefix[omitted..pb] + rest, dp) == Some((prefix, pb - omitted))
  {
    var pb := PrefixBytes(plen);
    var c := prefix[omitted..pb];
    assert (c + rest)[..pb - omitted] == c;
    var head: seq<Byte> := if omitted > 0 then dp.value[..omitted] else [];
    assert head + c == prefix[..pb];
    PaddedBack(prefix, plen);
  }

  /** What was left out of the prefix is put back. */
  lemma PrefixRoundTrip(e: Encoder, d: Decoder, a: Advert, rest: seq<Byte>)
    requires GoodAdvert(a) && Masked(a.prefix, a.plen) && InStep(e, d)
    ensures var dp := if IsV4(a) then d.v4Prefix else d.v6Prefix;
            NetworkPrefix(if IsV4(a) then 1 else 2, RealPlen(a), Omitted(e, a), CarriedBytes(e, a) + rest, dp)
              == Some((a.prefix, |CarriedBytes(e, a)|))
  {
    Carried(e, a);
    if IsV4(a) {
      RebuildV4(a.prefix, a.plen, rest, d.v4Prefix);
    } else {
      RebuildV6(a.prefix, a.plen, Omitted(e, a), rest, d.v6Prefix);
    }
  }

  lemma Carried(e: Encoder, a: Advert)
    requires GoodAdvert(a)
    ensures var pb := PrefixBytes(RealPlen(a));
            if IsV4(a) then
              Omitted(e, a) == 0 && CarriedBytes(e, a) == a.prefix[12..][..pb] && |CarriedBytes(e, a)| == pb
            else CarriedBytes(e, a) == a.prefix[Omitted(e, a)..pb] && |CarriedBytes(e, a)| == pb - Omitted(e, a)
    ensures !IsV4(a) && Omitted(e, a) > 0 ==>
              e.prefix.Some? && e.prefix.value[..Omitted(e, a)] == a.prefix[..Omitted(e, a)]
  {
  }

  lemma ChannelsRoundTrip(rx: Receiver, a: Advert)
    requires GoodAdvert(a)
    ensures Channels(rx, a.metric, ChannelBytes(a.channels)) ==
            if rx.faraway then [] else if a.channels.Some? then a.channels.value
            else if a.metric < 256 then [] else [CHANNEL_INTERFERING]
  {
    if a.channels.Some? {
      var ch := a.channels.value;
      var bytes := ChannelBytes(a.channels);
      assert bytes[2..2 + |ch|] == ch && bytes[2 + |ch|..] == [];
      assert Attributes([], ch) == ch;
    }
  }

  lemma HearOwnNextHop(rx: Receiver, e: Encoder, d: Decoder, link: Link, a: Advert)
    requires GoodLink(link) && InStep(e, d) && (IsV4(a) ==> link.ipv4.Some?)
    ensures var (d', h) := HearTlvs(rx, d, NextHopTlvs(e, link, a));
            && h == [] && InStep(if IsV4(a) then e.(nh := link.ipv4) else e, d')
  {
    if IsV4(a) && e.nh != link.ipv4 {
      var body: seq<Byte> := [1, 0] + link.ipv4.value;
      assert body[2..] == link.ipv4.value && link.ipv4.value[..4] == link.ipv4.value;
      HearOne(rx, d, Tlv(MESSAGE_NH, body));
    }
  }

  lemma HearOwnRouterId(rx: Receiver, e: Encoder, d: Decoder, a: Advert)
    requires InStep(e, d)
    ensures var (d', h) := HearTlvs(rx, d, RouterIdTlvs(e, a));
            && h == [] && InStep(e.(id := None), d')
            && (e.id == Some(a.id) || !IdInPrefix(a) ==> d'.id == Some(a.id))
  {
    if e.id != Some(a.id) && !IdInPrefix(a) {
      var body: seq<Byte> := [0, 0] + a.id;
      assert body[2..10] == a.id;
      HearOne(rx, d, Tlv(MESSAGE_ROUTER_ID, body));
    }
  }

  lemma OwnPrefix(e: Encoder, d: Decoder, link: Link, a: Advert)
    requires GoodAdvert(a) && Masked(a.prefix, a.plen) && InStep(e.(id := None), d)
    ensures UpdatePrefix(d, UpdateBody(e, link, a)) == Some((a.prefix, |CarriedBytes(e, a)|))
  {
    BodyFields(e, link, a);
    FlagBits(e, a);
    assert Omitted(e.(id := None), a) == Omitted(e, a);
    PrefixRoundTrip(e.(id := None), d, a, ChannelBytes(a.channels));
  }

  /** The update message itself, once the next hop and router-id it relies on were heard. */
  lemma HearOwnUpdate(rx: Receiver, e: Encoder, d: Decoder, link: Link, a: Advert)
    requires GoodAdvert(a) && GoodLink(link) && Masked(a.prefix, a.plen)
    requires InStep(e.(id := None), d)
    requires d.id == Some(a.id) || (e.id != Some(a.id) && IdInPrefix(a))
    requires IsV4(a) ==> link.ipv4.Some? && d.v4Nh == Some(V4ToV6(link.ipv4.value))
    ensures HearUpdate(rx, d, UpdateBody(e, link, a)) ==
            (Remember(d, if IsV4(a) then 1 else 2, Flags(e, a), a.prefix), Delivered(rx, link, a))
  {
    var ae := if IsV4(a) then 1 else 2;
    var d' := Remember(d, ae, Flags(e, a), a.prefix);
    BodyFields(e, link, a);
    OwnPrefix(e, d, link, a);
    assert HearUpdate(rx, d, UpdateBody(e, link, a)) ==
           (d', PassOn(rx, d', ae, a.prefix, RealPlen(a), a.seqno, a.metric, link.interval, ChannelBytes(a.channels)));
    PassOwnOn(rx, e, d, link, a);
  }

  lemma PassOwnOn(rx: Receiver, e: Encoder, d: Decoder, link: Link, a: Advert)
    requires GoodAdvert(a) && GoodLink(link) && d.v6Nh == None
    requires d.id == Some(a.id) || (e.id != Some(a.id) && IdInPrefix(a))
    requires IsV4(a) ==> link.ipv4.Some? && d.v4Nh == Some(V4ToV6(link.ipv4.value))
    ensures var ae := if IsV4(a) then 1 else 2;
            PassOn(rx, Remember(d, ae, Flags(e, a), a.prefix), ae, a.prefix, RealPlen(a), a.seqno, a.metric,
                   link.interval, ChannelBytes(a.channels)) == Delivered(rx, link, a)
  {
    FlagBits(e, a);
    ChannelsRoundTrip(rx, a);
  }

  lemma RememberInStep(e: Encoder, d: Decoder, link: Link, a: Advert)
    requires GoodAdvert(a) && GoodLink(link) && Masked(a.prefix, a.plen)
    requires InStep(e.(id := None), d)
    requires d.id == Some(a.id) || (e.id != Some(a.id) && IdInPrefix(a))
    requires IsV4(a) ==> link.ipv4.Some? && e.nh == link.ipv4
    ensures InStep(SendUpdate(e, link, a).0, Remember(d, if IsV4(a) then 1 else 2, Flags(e, a), a.prefix))
  {
    FlagBits(e, a);
    if StoresPrefix(e, a) && a.plen < 96 {
      ShortPrefixNotV4(a.prefix, a.plen);
    }
  }

  /** Messages that only change what is remembered, and one more. */
  lemma HearThird(rx: Receiver, d: Decoder, a: seq<Tlv>, b: seq<Tlv>, t: Tlv)
    requires HearTlvs(rx, d, a).1 == [] && HearTlvs(rx, HearTlvs(rx, d, a).0, b).1 == []
    ensures HearTlvs(rx, d, a + b + [t]) == HearTlv(rx, HearTlvs(rx, HearTlvs(rx, d, a).0, b).0, t)
  {
    var d2 := HearTlvs(rx, HearTlvs(rx, d, a).0, b).0;
    HearTlvsAppend(rx, d, a, b);
    assert HearTlvs(rx, d, a + b) == (d2, []);
    HearTlvsAppend(rx, d, a + b, [t]);
    HearOne(rx, d2, t);
    assert [] + HearTlv(rx, d2, t).1 == HearTlv(rx, d2, t).1;
  }

  /** One update, with the messages sent ahead of it, is heard as it was meant. */
  lemma UpdateRoundTrip(rx: Receiver, e: Encoder, d: Decoder, link: Link, a: Advert)
    requires GoodAdvert(a) && GoodLink(link) && Masked(a.prefix, a.plen) && InStep(e, d)
    ensures var (e', ts) := SendUpdate(e, link, a);
            var (d', h) := HearTlvs(rx, d, ts);
            InStep(e', d') && h == Delivered(rx, link, a)
  {
    if !IsV4(a) || link.ipv4.Some? {
      var nhs, ids, up := NextHopTlvs(e, link, a), RouterIdTlvs(e, a), Tlv(MESSAGE_UPDATE, UpdateBody(e, link, a));
      var e1 := if IsV4(a) then e.(nh := link.ipv4) else e;
      HearOwnNextHop(rx, e, d, link, a);
      var d1 := HearTlvs(rx, d, nhs).0;
      HearOwnRouterId(rx, e1, d1, a);
      var d2 := HearTlvs(rx, d1, ids).0;
      HearThird(rx, d, nhs, ids, up);
      HearOwnUpdate(rx, e1, d2, link, a);
      RememberInStep(e1, d2, link, a);
      assert UpdateBody(e1, link, a) == UpdateBody(e, link, a);
    }
  }
}
