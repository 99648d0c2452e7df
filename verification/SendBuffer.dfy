/**
 * The send buffer of an interface (babeld/message.c, babeld/babel_interface.c): messages are
 * written into a fixed array which is flushed, as one packet, whenever the next one would not fit.
 */
module SendBuffer {
  import opened Basics
  import opened Wire
  import opened Packets

  /** The space an update may need: a next hop, a router-id and the update itself. */
  const WORST_CASE := 20 + 12 + 28

  function Concat<T>(ss: seq<seq<T>>): seq<T> {
    if ss == [] then [] else Concat(ss[..|ss| - 1]) + ss[|ss| - 1]
  }

  lemma ConcatAppend<T>(ss: seq<seq<T>>, s: seq<T>)
    ensures Concat(ss + [s]) == Concat(ss) + s
  {
    assert (ss + [s])[..|ss|] == ss;
  }

  /** `packet` carries the operations `ops`. */
  ghost predicate Carries(packet: seq<Byte>, ops: seq<Op>) {
    && AllGood(ops) && AllWellFormed(Packet(ops).1)
    && |Flatten(Packet(ops).1)| < 0x1_0000
    && packet == Framed(Flatten(Packet(ops).1))
  }

  lemma PacketAppend(ops: seq<Op>, op: Op)
    requires AllGood(ops) && GoodOp(op)
    ensures AllGood(ops + [op])
    ensures var (e, ts) := Packet(ops);
            var (e', more) := Emit(e, op);
            Packet(ops + [op]) == (e', ts + more)
  {
    assert (ops + [op])[..|ops|] == ops;
  }

  // ----- updates waiting to be flushed

  /** An update that `flushupdates` is to send; which they are is decided by FlushUpdates. */
  datatype Pending = Pending(link: Link, advert: Advert)

  predicate GoodPending(ps: seq<Pending>) {
    forall i :: 0 <= i < |ps| ==> GoodLink(ps[i].link) && GoodAdvert(ps[i].advert)
  }

  /** An update for an IPv4 prefix is dropped on a link without an IPv4 address. */
  function Operation(p: Pending): seq<Op> {
    if IsV4(p.advert) && p.link.ipv4.None? then [] else [Advertise(p.link, p.advert)]
  }

  function Operations(ps: seq<Pending>): seq<Op> {
    if ps == [] then [] else Operations(ps[..|ps| - 1]) + Operation(ps[|ps| - 1])
  }

  /** The operations that a flush on the way has added: all pending updates, or none. */
  function Drained(before: seq<Pending>, after: seq<Pending>): seq<Op> {
    if after == before then [] else Operations(before)
  }

  lemma FlattenLast(ts: seq<Tlv>, t: Tlv)
    requires AllWellFormed(ts) && WellFormed(t)
    ensures AllWellFormed(ts + [t]) && Flatten(ts + [t]) == Flatten(ts) + TlvBytes(t)
  {
    FlattenAppend(ts, [t]);
    assert [t][1..] == [] && Flatten([t]) == TlvBytes(t);
  }

  lemma OperationsNext(log: seq<Op>, ps: seq<Pending>, i: nat)
    requires i < |ps|
    ensures log + Operations(ps[..i]) + [] + Operation(ps[i]) == log + Operations(ps[..i + 1])
  {
    assert ps[..i + 1][..i] == ps[..i] && ps[..i + 1][i] == ps[i];
  }

  lemma CommonUnique(a: Address, b: Address, n: nat, r: nat)
    requires r <= n <= 16 && a[..r] == b[..r] && (r < n ==> a[r] != b[r])
    ensures r == Common(a, b, n)
  {
    Agree(a, b, r);
    Agree(a, b, Common(a, b, n));
  }

  lemma Agree(a: Address, b: Address, r: nat)
    requires r <= 16 && a[..r] == b[..r]
    ensures forall i :: 0 <= i < r ==> a[i] == b[i]
  {
    assert forall i :: 0 <= i < r ==> a[i] == a[..r][i] && b[i] == b[..r][i];
  }

  class SendBuffer {
    const sendbuf: array<Byte>
    var buffered: nat
    var haveId: bool
    var bufferedId: RouterId
    var haveNh: bool
    var bufferedNh: seq<Byte>
    var havePrefix: bool
    var bufferedPrefix: Address
    var packets: seq<seq<Byte>>
    var pending: seq<Pending>

    ghost var tlvs: seq<Tlv>
    ghost var ops: seq<Op>
    ghost var history: seq<seq<Op>>

    /** The buffer holds whole messages, and every packet sent carries its recorded operations. */
    ghost predicate Valid()
      reads this, sendbuf
    {
      && WORST_CASE <= sendbuf.Length < 0x1_0000 && buffered <= sendbuf.Length
      && AllWellFormed(tlvs) && sendbuf[..buffered] == Flatten(tlvs)
      && GoodPending(pending)
      && |packets| == |history|
      && (forall i :: 0 <= i < |packets| ==> Carries(packets[i], history[i]))
    }

    ghost function Remembered(): Encoder
      reads this
    {
      Encoder(if haveId then Some(bufferedId) else None, if haveNh then Some(bufferedNh) else None,
              if havePrefix then Some(bufferedPrefix) else None)
    }

    /** Between operations, the buffer and the compression state are those of a packet. */
    ghost predicate InSync()
      reads this
    {
      AllGood(ops) && Packet(ops) == (Remembered(), tlvs) && (ops == [] || buffered > 0)
    }

    /** Every operation so far, sent or still buffered. */
    ghost function Log(): seq<Op>
      reads this
    {
      Concat(history) + ops
    }

    constructor (size: nat)
      requires WORST_CASE <= size < 0x1_0000
      ensures Valid() && InSync() && Log() == [] && packets == [] && pending == []
      ensures sendbuf.Length == size && fresh(sendbuf)
    {
      sendbuf := new Byte[size](i => 0);
      buffered, haveId, haveNh, havePrefix := 0, false, false, false;
      bufferedId, bufferedNh, bufferedPrefix := Zeroes(8), [], Zeroes(16);
      packets, pending, tlvs, ops, history := [], [], [], [], [];
    }

    /** Once the buffer is flushed, whoever received the packets has heard everything that was logged. */
    lemma Received(rx: Receiver)
      requires Valid() && ops == [] && AllMasked(Log())
      ensures AllGood(Log()) && DecodeAll(rx, packets) == Meant(rx, Log())
    {
      assert Log() == Concat(history);
      ConcatMasked(history);
      PacketsMeanTheirOperations(rx, packets, history);
    }

    /** `buffer_update` and changes of the routing table decide what is waiting to be sent. */
    method SetPending(ps: seq<Pending>)
      requires Valid() && InSync() && GoodPending(ps)
      modifies `pending
      ensures Valid() && InSync() && pending == ps && Log() == old(Log())
    {
      pending := ps;
    }

    /** The part of flushbuf that sends what is in the buffer. */
    method Transmit()
      requires Valid() && InSync()
      modifies `packets, `history, `buffered, `haveId, `haveNh, `havePrefix, `tlvs, `ops
      ensures Valid() && InSync() && Log() == old(Log())
      ensures buffered == 0 && ops == [] && Remembered() == EMPTY
      ensures packets == if old(buffered) == 0 then old(packets) else old(packets) + [Framed(old(sendbuf[..buffered]))]
    {
      if buffered > 0 {
        packets := packets + [Framed(sendbuf[..buffered])];
        history := history + [ops];
        ConcatAppend(old(history), ops);
        assert Carries(packets[|packets| - 1], ops);
      }
      buffered, haveId, haveNh, havePrefix := 0, false, false, false;
      tlvs, ops := [], [];
    }

    /**
     * `flushbuf`: the pending updates are written first. Each of them may find the buffer full
     * and call flushbuf again, which then finds nothing pending.
     */
    method FlushBuf()
      requires Valid() && InSync()
      modifies this, sendbuf
      ensures Valid() && InSync() && Log() == old(Log()) + Operations(old(pending)) && pending == []
      ensures buffered == 0 && ops == [] && Remembered() == EMPTY
      decreases |pending|, 1
    {
      FlushPending();
      Transmit();
    }

    /** `flushupdates`, given what there is to send. */
    method FlushPending()
      requires Valid() && InSync()
      modifies this, sendbuf
      ensures Valid() && InSync() && Log() == old(Log()) + Operations(old(pending)) && pending == []
      decreases |pending|, 0
    {
      if pending == [] {
        return;
      }
      var todo := pending;
      pending := [];
      var i := 0;
      while i < |todo|
        invariant i <= |todo| && Valid() && InSync() && pending == []
        invariant Log() == old(Log()) + Operations(todo[..i])
      {
        SendNext(todo, i, old(Log()));
        i := i + 1;
      }
      assert todo[..i] == todo;
    }

    /** One turn of the sending loop of flushupdates. */
    method SendNext(todo: seq<Pending>, i: nat, ghost log: seq<Op>)
      requires Valid() && InSync() && GoodPending(todo) && i < |todo| && pending == []
      requires Log() == log + Operations(todo[..i])
      modifies this, sendbuf
      ensures Valid() && InSync() && pending == [] && Log() == log + Operations(todo[..i + 1])
      decreases |pending|, 4
    {
      OperationsNext(log, todo, i);
      SendUpdate(todo[i].link, todo[i].advert);
    }

    /** `ensure_space`. */
    method EnsureSpace(space: nat)
      requires Valid() && InSync() && space <= sendbuf.Length
      modifies this, sendbuf
      ensures Valid() && InSync() && (pending == old(pending) || pending == [])
      ensures Log() == old(Log()) + Drained(old(pending), pending)
      ensures sendbuf.Length - buffered >= space
      decreases |pending|, 2
    {
      if sendbuf.Length - buffered < space {
        FlushBuf();
      }
    }

    /** A message that fits: `start_message`, the accumulators and `end_message`. */
    method Put(t: Tlv)
      requires Valid() && WellFormed(t)
      requires sendbuf.Length - buffered >= 2 + |t.body|
      modifies this`buffered, this`tlvs, sendbuf
      ensures Valid() && tlvs == old(tlvs) + [t]
      ensures buffered == old(buffered) + 2 + |t.body|
    {
      WriteBytes(t);
      FlattenLast(tlvs, t);
      buffered := buffered + 2 + |t.body|;
      tlvs := tlvs + [t];
    }

    /** The bytes of a message, behind those in the buffer. */
    method WriteBytes(t: Tlv)
      requires WellFormed(t) && buffered + 2 + |t.body| <= sendbuf.Length
      modifies sendbuf
      ensures sendbuf[..buffered + 2 + |t.body|] == old(sendbuf[..buffered]) + TlvBytes(t)
    {
      sendbuf[buffered] := t.ty;
      sendbuf[buffered + 1] := |t.body|;
      forall i | 0 <= i < |t.body| {
        sendbuf[buffered + 2 + i] := t.body[i];
      }
      assert sendbuf[..buffered] == old(sendbuf[..buffered]);
      assert sendbuf[buffered..buffered + 2 + |t.body|] == TlvBytes(t);
      assert sendbuf[..buffered + 2 + |t.body|] == sendbuf[..buffered] + sendbuf[buffered..buffered + 2 + |t.body|];
    }

    method PutNextHop(link: Link, a: Advert)
      requires Valid() && GoodLink(link) && IsV4(a) && link.ipv4.Some?
      requires sendbuf.Length - buffered >= 8
      modifies this`buffered, this`tlvs, this`haveNh, this`bufferedNh, sendbuf
      ensures Valid() && tlvs == old(tlvs) + NextHopTlvs(old(Remembered()), link, a)
      ensures Remembered() == old(Remembered()).(nh := link.ipv4)
      ensures old(buffered) <= buffered <= old(buffered) + 8
    {
      if !haveNh || bufferedNh != link.ipv4.value {
        Put(Tlv(MESSAGE_NH, [1, 0] + link.ipv4.value));
        bufferedNh, haveNh := link.ipv4.value, true;
      }
    }

    method PutRouterId(a: Advert) returns (inPrefix: bool)
      requires Valid() && GoodAdvert(a)
      requires sendbuf.Length - buffered >= 12
      modifies this`buffered, this`tlvs, this`haveId, this`bufferedId, sendbuf
      ensures Valid() && tlvs == old(tlvs) + RouterIdTlvs(old(Remembered()), a)
      ensures Remembered() == old(Remembered()).(id := Some(a.id))
      ensures old(buffered) <= buffered <= old(buffered) + 12
      ensures inPrefix == (old(Remembered()).id != Some(a.id) && IdInPrefix(a))
    {
      inPrefix := false;
      if !haveId || a.id != bufferedId {
        if RealPlen(a) == 128 && a.prefix[8..] == a.id {
          inPrefix := true;
        } else {
          Put(Tlv(MESSAGE_ROUTER_ID, [0, 0] + a.id));
        }
        bufferedId, haveId := a.id, true;
      }
    }

    method CountOmitted(a: Advert) returns (omit: nat)
      requires GoodAdvert(a) && !IsV4(a)
      ensures omit == Omitted(Remembered(), a)
    {
      omit := 0;
      if havePrefix {
        while omit < a.plen / 8 && bufferedPrefix[omit] == a.prefix[omit]
          invariant omit <= a.plen / 8
          invariant bufferedPrefix[..omit] == a.prefix[..omit]
        {
          assert bufferedPrefix[..omit + 1] == bufferedPrefix[..omit] + [bufferedPrefix[omit]];
          assert a.prefix[..omit + 1] == a.prefix[..omit] + [a.prefix[omit]];
          omit := omit + 1;
        }
        CommonUnique(bufferedPrefix, a.prefix, a.plen / 8, omit);
      }
    }

    /** The operation just completed joins the current packet. */
    ghost method Record(e: Encoder, ts: seq<Tlv>, op: Op)
      requires Valid() && GoodOp(op) && AllGood(ops) && Packet(ops) == (e, ts)
      requires (Remembered(), tlvs) == (Emit(e, op).0, ts + Emit(e, op).1)
      requires buffered > 0
      modifies this`ops
      ensures Valid() && InSync() && Log() == old(Log()) + [op]
    {
      PacketAppend(ops, op);
      ops := ops + [op];
    }

    /** The update message, compressed against what the packet held before, `e`. */
    method PutUpdate(link: Link, a: Advert, omit: nat, stores: bool, inPrefix: bool, ghost e: Encoder)
      requires Valid() && GoodAdvert(a)
      requires omit == Omitted(e, a) && stores == StoresPrefix(e, a)
      requires inPrefix == (e.id != Some(a.id) && IdInPrefix(a))
      requires sendbuf.Length - buffered >= 38
      modifies this`buffered, this`tlvs, this`havePrefix, this`bufferedPrefix, sendbuf
      ensures Valid() && tlvs == old(tlvs) + [Tlv(MESSAGE_UPDATE, UpdateBody(e, link, a))]
      ensures Remembered() == if stores then old(Remembered()).(prefix := Some(a.prefix)) else old(Remembered())
      ensures buffered > old(buffered)
    {
      var flags: Byte := (if stores then 0x80 else 0) + (if inPrefix then 0x40 else 0);
      var source := if IsV4(a) then a.prefix[12..] else a.prefix;
      var body := [if IsV4(a) then 1 else 2, flags, RealPlen(a), omit] + ShortBytes(link.interval) +
                  ShortBytes(a.seqno) + ShortBytes(a.metric) +
                  source[omit..PrefixBytes(RealPlen(a))] + ChannelBytes(a.channels);
      assert body == UpdateBody(e, link, a);
      Put(Tlv(MESSAGE_UPDATE, body));
      if stores {
        bufferedPrefix, havePrefix := a.prefix, true;
      }
    }

    /** The messages of one update; there is room for all of them, so no flush comes between. */
    method PutMessages(link: Link, a: Advert)
      requires Valid() && GoodLink(link) && GoodAdvert(a) && (IsV4(a) ==> link.ipv4.Some?)
      requires sendbuf.Length - buffered >= WORST_CASE
      modifies this`buffered, this`tlvs, this`havePrefix, this`bufferedPrefix
      modifies this`haveId, this`bufferedId, this`haveNh, this`bufferedNh, sendbuf
      ensures Valid() && buffered > 0
      ensures Remembered() == Wire.SendUpdate(old(Remembered()), link, a).0
      ensures tlvs == old(tlvs) + Wire.SendUpdate(old(Remembered()), link, a).1
    {
      ghost var e := Remembered();
      var omit, stores := 0, false;
      if IsV4(a) {
        PutNextHop(link, a);
      } else {
        omit := CountOmitted(a);
        stores := !havePrefix || a.plen >= 48;
      }
      var inPrefix := PutRouterId(a);
      PutUpdate(link, a, omit, stores, inPrefix, e);
    }

    /** `really_send_update`, for an interface that is up and an update no filter suppresses. */
    method SendUpdate(link: Link, a: Advert)
      requires Valid() && InSync() && GoodLink(link) && GoodAdvert(a)
      modifies this, sendbuf
      ensures Valid() && InSync() && (pending == old(pending) || pending == [])
      ensures Log() == old(Log()) + Drained(old(pending), pending) + Operation(Pending(link, a))
      decreases |pending|, 3
    {
      EnsureSpace(WORST_CASE);
      if IsV4(a) && link.ipv4.None? {
        return;
      }
      ghost var e, ts := Remembered(), tlvs;
      PutMessages(link, a);
      Record(e, ts, Advertise(link, a));
    }

    /** `send_wildcard_retraction`. */
    method SendWildcardRetraction(seqno: Short)
      requires Valid() && InSync()
      modifies this, sendbuf
      ensures Valid() && InSync() && (pending == old(pending) || pending == [])
      ensures Log() == old(Log()) + Drained(old(pending), pending) + [RetractEverything(seqno)]
    {
      EnsureSpace(12);
      ghost var e, ts := Remembered(), tlvs;
      Put(Tlv(MESSAGE_UPDATE, WildcardBody(seqno)));
      haveId := false;
      Record(e, ts, RetractEverything(seqno));
    }

    /** Any other message: acknowledgements, hellos, IHUs, requests. */
    method SendOther(t: Tlv)
      requires Valid() && InSync() && GoodOp(Other(t)) && 2 + |t.body| <= sendbuf.Length
      modifies this, sendbuf
      ensures Valid() && InSync() && (pending == old(pending) || pending == [])
      ensures Log() == old(Log()) + Drained(old(pending), pending) + [Other(t)]
    {
      EnsureSpace(2 + |t.body|);
      ghost var e, ts := Remembered(), tlvs;
      Put(t);
      Record(e, ts, Other(t));
    }
  }

  lemma {:induction false} ConcatMasked(ss: seq<seq<Op>>)
    requires AllMasked(Concat(ss))
    ensures forall i :: 0 <= i < |ss| ==> AllMasked(ss[i])
  {
    if ss != [] {
      var front, last := ss[..|ss| - 1], ss[|ss| - 1];
      MaskedParts(Concat(front), last);
      ConcatMasked(front);
    }
  }

  lemma MaskedParts(a: seq<Op>, b: seq<Op>)
    ensures AllMasked(a + b) <==> AllMasked(a) && AllMasked(b)
  {
    if AllMasked(a + b) {
      forall i | 0 <= i < |a| ensures PrefixMasked(a[i]) {
        assert (a + b)[i] == a[i];
      }
      forall i | 0 <= i < |b| ensures PrefixMasked(b[i]) {
        assert (a + b)[|a| + i] == b[i];
      }
    }
  }

  lemma {:induction false} MeantConcat(rx: Receiver, a: seq<Op>, b: seq<Op>)
    requires AllGood(a) && AllGood(b)
    ensures AllGood(a + b) && Meant(rx, a + b) == Meant(rx, a) + Meant(rx, b)
  {
    if b == [] {
      assert a + b == a;
    } else {
      assert (a + b)[..|a + b| - 1] == a + b[..|b| - 1];
      MeantConcat(rx, a, b[..|b| - 1]);
    }
  }

  /** Everything a receiver hears from packets received in order. */
  function DecodeAll(rx: Receiver, packets: seq<seq<Byte>>): seq<Heard> {
    if packets == [] then [] else DecodeAll(rx, packets[..|packets| - 1]) + Decode(rx, packets[|packets| - 1])
  }

  /**
   * However the operations were split over packets, whoever receives the packets hears what was
   * meant by the operations, in order.
   */
  lemma {:induction false} PacketsMeanTheirOperations(rx: Receiver, packets: seq<seq<Byte>>, history: seq<seq<Op>>)
    requires |packets| == |history|
    requires forall i :: 0 <= i < |packets| ==> Carries(packets[i], history[i]) && AllMasked(history[i])
    ensures AllGood(Concat(history)) && DecodeAll(rx, packets) == Meant(rx, Concat(history))
  {
    if packets != [] {
      var n := |packets| - 1;
      PacketsMeanTheirOperations(rx, packets[..n], history[..n]);
      PacketRoundTrip(rx, history[n]);
      MeantConcat(rx, Concat(history[..n]), history[n]);
    }
  }
}
