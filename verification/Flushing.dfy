/**
 * From the prefixes buffered for an interface to what its neighbours hear: `flushupdates` decides
 * what to send, the send buffer compresses it into packets, and a receiver makes sense of them.
 */
module Flushing {
  import opened Basics
  import opened Wire
  import opened Packets
  import opened SendBuffer
  import F = FlushUpdates

  /** What an installed route says in an update. */
  datatype Contents = Contents(seqno: Short, metric: Short, channels: seq<Byte>)

  /** Our own sequence number, whether channels are sent at all, and the installed routes. */
  datatype Details = Details(myseqno: Short, diversity: bool, routes: map<Prefix, Contents>)

  predicate Complete(t: F.Table, d: Details) {
    && (forall p :: p in t.routes ==> p in d.routes && GoodChannels(d.routes[p].channels))
    && (forall p :: p in t.xroutes ==> t.xroutes[p] <= INFINITY)
  }

  predicate GoodChannels(channels: seq<Byte>) {
    |channels| <= DIVERSITY_HOPS && 0 !in channels
  }

  /** The update that is due for a prefix, unless it is withheld. */
  function AdvertOf(t: F.Table, d: Details, p: Prefix): Advert
    requires Complete(t, d)
  {
    match F.FateOf(t, p)
    case OwnRoute =>
      Advert(t.myid, p.address, p.plen, d.myseqno, t.xroutes[p], if d.diversity then Some([]) else None)
    case Retraction => Advert(t.myid, p.address, p.plen, d.myseqno, INFINITY, None)
    case _ =>
      var c := d.routes[p];
      Advert(t.routes[p].id, p.address, p.plen, c.seqno, c.metric, if d.diversity then Some(c.channels) else None)
  }

  function PendingOf(link: Link, t: F.Table, d: Details, out: seq<F.Sent>): (ps: seq<Pending>)
    requires Complete(t, d)
    ensures |ps| == |out|
    ensures forall i :: 0 <= i < |out| ==> ps[i] == Pending(link, AdvertOf(t, d, out[i].prefix))
  {
    if out == [] then []
    else
      var n := |out| - 1;
      PendingOf(link, t, d, out[..n]) + [Pending(link, AdvertOf(t, d, out[n].prefix))]
  }

  predicate MaskedPrefix(p: Prefix) {
    p.plen <= 128 && Masked(p.address, p.plen)
  }

  predicate AllMaskedPrefixes(ps: seq<Prefix>) {
    forall i :: 0 <= i < |ps| ==> MaskedPrefix(ps[i])
  }

  // ----- what is called for

  function PrefixHeard(h: Heard): Prefix
    requires h.Announced?
  {
    Prefix(h.prefix, h.plen)
  }

  function HeardFor(hs: seq<Heard>, p: Prefix): nat {
    if hs == [] then 0
    else
      var h := hs[|hs| - 1];
      HeardFor(hs[..|hs| - 1], p) + (if h.Announced? && PrefixHeard(h) == p then 1 else 0)
  }

  /** IPv4 prefixes need an IPv4 address here and IPv4 at the receiver. */
  predicate Audible(rx: Receiver, link: Link, p: Prefix) {
    p.plen >= 96 && V4Mapped(p.address) ==> link.ipv4.Some? && rx.ipv4
  }

  /** Every update heard says what the tables say about its prefix. */
  predicate SaysSo(rx: Receiver, link: Link, t: F.Table, d: Details, h: Heard)
    requires Complete(t, d) && GoodLink(link)
  {
    && h.Announced? && GoodAdvert(AdvertOf(t, d, PrefixHeard(h)))
    && Delivered(rx, link, AdvertOf(t, d, PrefixHeard(h))) == [h]
  }

  /** The buffered prefixes call for these updates: each prefix as often as it is due, with the right contents. */
  ghost predicate CalledFor(rx: Receiver, link: Link, t: F.Table, d: Details, ps: seq<Prefix>, hs: seq<Heard>)
    requires Complete(t, d) && GoodLink(link)
  {
    && (forall p :: HeardFor(hs, p) == if Audible(rx, link, p) then F.Due(t, p, F.Times(ps, p)) else 0)
    && (forall i :: 0 <= i < |hs| ==> SaysSo(rx, link, t, d, hs[i]))
  }

  // ----- every update sent is heard

  lemma HeardForMore(hs: seq<Heard>, h: Heard, p: Prefix)
    ensures HeardFor(hs + [h], p) == HeardFor(hs, p) + (if h.Announced? && PrefixHeard(h) == p then 1 else 0)
  {
    assert (hs + [h])[..|hs|] == hs;
  }

  lemma OperationMeans(rx: Receiver, q: Pending)
    requires GoodLink(q.link) && GoodAdvert(q.advert)
    ensures AllGood(Operation(q)) && Meant(rx, Operation(q)) == Delivered(rx, q.link, q.advert)
  {
    var ops := Operation(q);
    if ops != [] {
      assert ops[..0] == [] && Meant(rx, ops) == [] + MeantBy(rx, ops[0]);
    }
  }

  /** The updates for which `out` was taken from good prefixes. */
  predicate GoodOut(out: seq<F.Sent>) {
    forall i :: 0 <= i < |out| ==> MaskedPrefix(out[i].prefix)
  }

  ghost predicate HeardAsSent(rx: Receiver, link: Link, t: F.Table, d: Details, out: seq<F.Sent>, hs: seq<Heard>)
    requires Complete(t, d) && GoodLink(link)
  {
    && (forall p :: HeardFor(hs, p) == if Audible(rx, link, p) then F.SentFor(out, p) else 0)
    && (forall i :: 0 <= i < |hs| ==> SaysSo(rx, link, t, d, hs[i]))
  }

  lemma OneMoreHeard(rx: Receiver, link: Link, t: F.Table, d: Details, out: seq<F.Sent>, s: F.Sent, hs: seq<Heard>)
    requires Complete(t, d) && GoodLink(link) && MaskedPrefix(s.prefix) && HeardAsSent(rx, link, t, d, out, hs)
    ensures GoodAdvert(AdvertOf(t, d, s.prefix))
    ensures HeardAsSent(rx, link, t, d, out + [s], hs + Delivered(rx, link, AdvertOf(t, d, s.prefix)))
  {
    var more := Delivered(rx, link, AdvertOf(t, d, s.prefix));
    forall p ensures HeardFor(hs + more, p) == if Audible(rx, link, p) then F.SentFor(out + [s], p) else 0 {
      F.SentForMore(out, s, p);
      if more == [] {
        assert hs + more == hs;
      } else {
        HeardForMore(hs, more[0], p);
        assert more == [more[0]];
      }
    }
  }

  function OpsOf(link: Link, t: F.Table, d: Details, out: seq<F.Sent>): seq<Op>
    requires Complete(t, d)
  {
    Operations(PendingOf(link, t, d, out))
  }

  lemma OpsLast(link: Link, t: F.Table, d: Details, out: seq<F.Sent>, s: F.Sent)
    requires Complete(t, d)
    ensures OpsOf(link, t, d, out + [s])
            == OpsOf(link, t, d, out) + Operation(Pending(link, AdvertOf(t, d, s.prefix)))
  {
    var ps, q := PendingOf(link, t, d, out), Pending(link, AdvertOf(t, d, s.prefix));
    assert PendingOf(link, t, d, out + [s]) == ps + [q];
    assert (ps + [q])[..|ps|] == ps;
  }

  lemma OneMasked(link: Link, t: F.Table, d: Details, p: Prefix)
    requires Complete(t, d) && MaskedPrefix(p)
    ensures GoodAdvert(AdvertOf(t, d, p)) && AllMasked(Operation(Pending(link, AdvertOf(t, d, p))))
  {
  }

  lemma {:induction false} AllHeard(rx: Receiver, link: Link, t: F.Table, d: Details, out: seq<F.Sent>)
    requires Complete(t, d) && GoodLink(link) && GoodOut(out)
    ensures var ops := OpsOf(link, t, d, out);
            AllGood(ops) && AllMasked(ops) && HeardAsSent(rx, link, t, d, out, Meant(rx, ops))
  {
    if out != [] {
      var front, s := out[..|out| - 1], out[|out| - 1];
      AllHeard(rx, link, t, d, front);
      assert out == front + [s];
      NextHeard(rx, link, t, d, front, s);
    }
  }

  lemma NextHeard(rx: Receiver, link: Link, t: F.Table, d: Details, out: seq<F.Sent>, s: F.Sent)
    requires Complete(t, d) && GoodLink(link) && MaskedPrefix(s.prefix)
    requires var ops := OpsOf(link, t, d, out);
             AllGood(ops) && AllMasked(ops) && HeardAsSent(rx, link, t, d, out, Meant(rx, ops))
    ensures var ops := OpsOf(link, t, d, out + [s]);
            AllGood(ops) && AllMasked(ops) && HeardAsSent(rx, link, t, d, out + [s], Meant(rx, ops))
  {
    var ops, q := OpsOf(link, t, d, out), Pending(link, AdvertOf(t, d, s.prefix));
    OneMoreHeard(rx, link, t, d, out, s, Meant(rx, ops));
    OneMasked(link, t, d, s.prefix);
    OperationMeans(rx, q);
    OpsLast(link, t, d, out, s);
    MeantConcat(rx, ops, Operation(q));
    MaskedParts(ops, Operation(q));
  }

  // ----- flushing an interface

  /** Only buffered prefixes are sent. */
  lemma SentAreBuffered(t: F.Table, ps: seq<Prefix>, out: seq<F.Sent>)
    requires AllMaskedPrefixes(ps) && forall p :: F.SentFor(out, p) == F.Due(t, p, F.Times(ps, p))
    ensures GoodOut(out)
  {
    forall i | 0 <= i < |out| ensures MaskedPrefix(out[i].prefix) {
      F.SentForSome(out, i);
      assert F.Times(ps, out[i].prefix) > 0;
      assert out[i].prefix in ps;
    }
  }

  lemma SentIsCalledFor(rx: Receiver, link: Link, t: F.Table, d: Details, ps: seq<Prefix>, out: seq<F.Sent>)
    requires Complete(t, d) && GoodLink(link) && GoodOut(out)
    requires forall p :: F.SentFor(out, p) == F.Due(t, p, F.Times(ps, p))
    ensures var ops := OpsOf(link, t, d, out);
            AllGood(ops) && AllMasked(ops) && CalledFor(rx, link, t, d, ps, Meant(rx, ops))
  {
    AllHeard(rx, link, t, d, out);
  }

  /**
   * `flushbuf` with the prefixes `ps` buffered; they determine what is pending at that moment. Whoever
   * received all packets of the interface has heard what was logged before, and then exactly the
   * updates the prefixes call for.
   */
  method FlushInterface(buf: SendBuffer, link: Link, t: F.Table, d: Details, ps: seq<Prefix>)
    returns (ghost ops: seq<Op>)
    requires buf.Valid() && buf.InSync() && AllMasked(buf.Log())
    requires GoodLink(link) && Complete(t, d) && AllMaskedPrefixes(ps)
    modifies buf, buf.sendbuf
    ensures buf.Valid() && buf.InSync() && buf.pending == [] && buf.buffered == 0
    ensures buf.Log() == old(buf.Log()) + ops && AllGood(old(buf.Log())) && AllGood(ops)
    ensures forall rx :: DecodeAll(rx, buf.packets) == Meant(rx, old(buf.Log())) + Meant(rx, ops)
    ensures forall rx :: CalledFor(rx, link, t, d, ps, Meant(rx, ops))
  {
    var out := F.Flush(t, ps);
    SentAreBuffered(t, ps, out);
    var pending := PendingOf(link, t, d, out);
    buf.SetPending(pending);
    ghost var log := buf.Log();
    ops := OpsOf(link, t, d, out);
    buf.FlushBuf();
    forall rx
      ensures AllGood(log) && AllGood(ops) && CalledFor(rx, link, t, d, ps, Meant(rx, ops))
      ensures DecodeAll(rx, buf.packets) == Meant(rx, log) + Meant(rx, ops)
    {
      SentIsCalledFor(rx, link, t, d, ps, out);
      MaskedParts(log, ops);
      buf.Received(rx);
      GoodParts(log, ops);
      MeantConcat(rx, log, ops);
    }
    SentIsCalledFor(Receiver(true, false), link, t, d, ps, out);
  }

  lemma GoodParts(a: seq<Op>, b: seq<Op>)
    requires AllGood(a + b)
    ensures AllGood(a) && AllGood(b)
  {
    forall i | 0 <= i < |a| ensures GoodOp(a[i]) {
      assert (a + b)[i] == a[i];
    }
    forall i | 0 <= i < |b| ensures GoodOp(b[i]) {
      assert (a + b)[|a| + i] == b[i];
    }
  }
}
