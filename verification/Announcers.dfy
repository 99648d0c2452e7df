/**
 * Packets follow the installed route of a prefix, whatever its source. Their path is loop-free
 * exactly when at most one router announces the prefix.
 */
module Announcers {
  import opened Basics
  import opened SeqNo
  import opened Selection
  import opened Network
  import opened LoopFreedom
  import opened Scenario

  /** Router `a` forwards packets for the prefix to router `b`. */
  ghost predicate Hops(net: Net, a: RouterId, b: RouterId) {
    a in net.nodes && exists k :: k in net.nodes[a].slot.tab && IsHop(net.nodes[a].slot.tab[k], b)
  }

  predicate IsHop(r: Route, b: RouterId) {
    r.installed && r.refmetric < INFINITY && r.neigh.router == b
  }

  ghost predicate PacketLoop(net: Net, p: seq<RouterId>) {
    && |p| >= 2 && p[0] == p[|p| - 1]
    && forall i :: 0 <= i < |p| - 1 ==> Hops(net, p[i], p[i + 1])
  }

  // ----- one announcer

  /** Only router `o` is heard of. */
  ghost predicate OneOrigin(net: Net, o: RouterId) {
    && (forall n :: n in net.nodes && n != o ==> net.nodes[n].xroute.None?)
    && (forall m :: m in net.sent && m.metric < INFINITY ==> m.id == o)
    && (forall n :: n in net.nodes ==> RoutesTo(net.nodes[n].slot, o))
  }

  predicate RoutesTo(s: Slot<Key>, o: RouterId) {
    forall k :: k in s.tab && s.tab[k].refmetric < INFINITY ==> s.tab[k].src == o
  }

  /** The event makes nobody outside `os` announce the prefix. */
  predicate Keeps(e: Event, os: set<RouterId>) {
    e.AddXroute? && e.metric < INFINITY ==> e.n in os
  }

  ghost predicate OnlyAnnounce(net: Net, es: seq<Event>, os: set<RouterId>) {
    && (forall n :: n in net.nodes && net.nodes[n].xroute.Some? ==> n in os)
    && (forall i :: 0 <= i < |es| ==> Keeps(es[i], os))
  }

  lemma LocalKeepsOrigin(net: Net, e: Event, o: RouterId)
    requires Enabled(net, e) && !e.Send? && AllValid(net) && OneOrigin(net, o) && Keeps(e, {o})
    ensures RoutesTo(Local(net, e).slot, o) && (e.n != o ==> Local(net, e).xroute.None?)
  {
    LocalEvolves(net, e);
    var s, s' := net.nodes[e.n].slot, Local(net, e).slot;
    forall k | k in s'.tab && s'.tab[k].refmetric < INFINITY ensures s'.tab[k].src == o {
      assert Explained(s, k, s'.tab[k], Told(e));
    }
  }

  lemma SendKeepsOrigin(net: Net, e: Event, o: RouterId)
    requires Enabled(net, e) && e.Send? && AllValid(net) && OneOrigin(net, o)
    ensures Flushed(net, e).0.slot.tab == net.nodes[e.n].slot.tab && Flushed(net, e).0.xroute == net.nodes[e.n].xroute
    ensures Flushed(net, e).1.Some? && Flushed(net, e).1.value.metric < INFINITY ==> Flushed(net, e).1.value.id == o
  {
    assert RoutesTo(net.nodes[e.n].slot, o);
  }

  lemma NextKeepsOrigin(net: Net, e: Event, o: RouterId)
    requires Enabled(net, e) && AllValid(net) && OneOrigin(net, o) && Keeps(e, {o})
    ensures OneOrigin(Step(net, e), o)
  {
    if e.Send? {
      SendKeepsOrigin(net, e, o);
    } else {
      LocalKeepsOrigin(net, e, o);
    }
  }

  lemma {:induction false} RunKeepsOrigin(w: World, es: seq<Event>, o: RouterId)
    requires AllValid(w.net) && Runs(w, es) && OneOrigin(w.net, o)
    requires forall i :: 0 <= i < |es| ==> Keeps(es[i], {o})
    ensures OneOrigin(Final(w, es).net, o)
    decreases |es|
  {
    if es != [] {
      NextKeepsOrigin(w.net, es[0], o);
      NextValid(w, es[0]);
      forall i | 0 <= i < |es[1..]| ensures Keeps(es[1..][i], {o}) {
        assert Keeps(es[i + 1], {o});
      }
      RunKeepsOrigin(Next(w, es[0]), es[1..], o);
    }
  }

  lemma HopsForward(net: Net, o: RouterId, p: seq<RouterId>)
    requires OneOrigin(net, o) && PacketLoop(net, p)
    ensures ForwardingLoop(net, o, p)
  {
    forall i | 0 <= i < |p| - 1 ensures Forwards(net, o, p[i], p[i + 1]) {
      assert Hops(net, p[i], p[i + 1]);
      var k :| k in net.nodes[p[i]].slot.tab && IsHop(net.nodes[p[i]].slot.tab[k], p[i + 1]);
      assert RoutesTo(net.nodes[p[i]].slot, o);
      assert IsEdge(net.nodes[p[i]].slot.tab[k], o, p[i + 1]);
    }
  }

  /** With one announcer no packet loops in any reachable state. */
  lemma OneAnnouncerLoopFree(w: World, es: seq<Event>, o: RouterId)
    requires Initial(w) && AllValid(w.net) && Runs(w, es) && OnlyAnnounce(w.net, es, {o})
    ensures forall p :: !PacketLoop(Final(w, es).net, p)
  {
    RunKeepsOrigin(w, es, o);
    LoopFree(w, es);
    forall p ensures !PacketLoop(Final(w, es).net, p) {
      if PacketLoop(Final(w, es).net, p) {
        HopsForward(Final(w, es).net, o, p);
      }
    }
  }

  // ----- two announcers

  /** Some run in which nobody outside `os` announces the prefix leads from `w` to `v`. */
  ghost predicate Goes(w: World, v: World, os: set<RouterId>) {
    && AllValid(w.net) && AllValid(v.net)
    && exists es :: Runs(w, es) && Final(w, es) == v && OnlyAnnounce(w.net, es, os)
  }

  lemma GoesNext(w: World, v: World, e: Event, os: set<RouterId>)
    requires Goes(w, v, os) && Allowed(v, e) && Keeps(e, os)
    ensures Goes(w, Next(v, e), os)
  {
    var es :| Runs(w, es) && Final(w, es) == v && OnlyAnnounce(w.net, es, os);
    RunsAppend(w, es, e);
    NextValid(v, e);
    AnnounceMore(w.net, es, e, os);
  }

  lemma AnnounceMore(net: Net, es: seq<Event>, e: Event, os: set<RouterId>)
    requires OnlyAnnounce(net, es, os) && Keeps(e, os)
    ensures OnlyAnnounce(net, es + [e], os)
  {
  }

  /** Reached without tainting a route. */
  ghost predicate Comes(w: World, net: Net, os: set<RouterId>) {
    net.arith.Exact? && Goes(w, World(net, {}), os)
  }

  lemma ComesNext(w: World, net: Net, e: Event, net': Net, os: set<RouterId>)
    requires Comes(w, net, os) && Takes(net, e, net') && AllFinite(net'.nodes[e.n].slot) && Keeps(e, os)
    ensures Comes(w, net', os)
  {
    FreshGuarded(net, e);
    assert NextTaint(net, net', e.n, {}) == {};
    assert Next(World(net, {}), e) == World(net', {});
    GoesNext(w, World(net, {}), e, os);
  }

  function Put(net: Net, x: RouterId, s: Slot<Key>): Net {
    net.(nodes := net.nodes[x := At(s, None)])
  }

  predicate Holds(net: Net, x: RouterId, s: Slot<Key>) {
    net.arith.Exact? && x in net.nodes && net.nodes[x] == At(s, None)
  }

  /** The slot of a router that knows one route, heard in `m`. */
  function Knows(srcs: map<RouterId, Source>, m: Msg): Slot<Key> {
    Slot([0], map[0 := Route(m.id, m.metric, 1, 0, m.seqno, Neighbour(m.from, 0), HOP, 0, 15, true)], srcs)
  }

  lemma Accepts(x: RouterId, srcs: map<RouterId, Source>, m: Msg)
    requires m.id != x && m.id !in srcs && m.metric < INFINITY
    ensures Valid(Blank(srcs))
    ensures Accept(Own(x, 0), Blank(srcs), Said(m, 1), 0) == Knows(srcs[m.id := Source(m.seqno, INFINITY, 0)], m)
  {
    FirstRoute(x, srcs, m, 1);
  }

  lemma Learns(w: World, net: Net, os: set<RouterId>, x: RouterId, srcs: map<RouterId, Source>, m: Msg)
    requires Comes(w, net, os) && Holds(net, x, Blank(srcs)) && AtZero(srcs)
    requires m in net.sent && m.id != x && m.id !in srcs && m.metric < INFINITY
    ensures Comes(w, Put(net, x, Knows(srcs[m.id := Source(m.seqno, INFINITY, 0)], m)), os)
  {
    var e := Hear(x, m, 1, 0);
    Accepts(x, srcs, m);
    ComesNext(w, net, e, Put(net, x, Knows(srcs[m.id := Source(m.seqno, INFINITY, 0)], m)), os);
  }

  function Passing(x: RouterId, m: Msg): Msg {
    Msg(x, m.id, m.seqno, m.metric + 1)
  }

  /** What `x` records once it has passed `m` on. */
  function Kept(m: Msg): map<RouterId, Source> {
    map[m.id := Source(m.seqno, m.metric + 1, 0)]
  }

  lemma KnowsValid(srcs: map<RouterId, Source>, m: Msg)
    requires m.id in srcs
    ensures Valid(Knows(srcs, m)) && Installed(Knows(srcs, m)) == Some(0)
  {
  }

  lemma Passes(w: World, net: Net, os: set<RouterId>, x: RouterId, srcs: map<RouterId, Source>, m: Msg)
    requires Comes(w, net, os) && AtZero(srcs) && m.id in srcs && m.metric + 1 < INFINITY
    requires srcs[m.id] == Source(m.seqno, INFINITY, 0) && Holds(net, x, Knows(srcs, m))
    ensures Comes(w, Put(net, x, Knows(srcs[m.id := Source(m.seqno, m.metric + 1, 0)], m))
                     .(sent := net.sent + {Passing(x, m)}), os)
  {
    KnowsValid(srcs, m);
    Tells(net, x, Knows(srcs, m), 0);
    var s' := Knows(srcs[m.id := Source(m.seqno, m.metric + 1, 0)], m);
    assert Recorded(Knows(srcs, m), 0) == s';
    ComesNext(w, net, Tell(x), Put(net, x, s').(sent := net.sent + {Passing(x, m)}), os);
  }

  /** The route is flushed, and route_lost finds nothing to put in its place. */
  lemma Forgets(w: World, net: Net, os: set<RouterId>, x: RouterId, srcs: map<RouterId, Source>, m: Msg)
    requires Comes(w, net, os) && AtZero(srcs) && m.id in srcs && Holds(net, x, Knows(srcs, m))
    ensures Comes(w, Put(net, x, Blank(srcs)), os)
  {
    KnowsValid(srcs, m);
    assert Remove([0], 0) == [];
    SameSlot(Unlink(Knows(srcs, m), 0), Blank(srcs));
    var net' := Put(net, x, Blank(srcs));
    ComesNext(w, net, FlushRoute(x, 0, 0), net', os);
    assert net'.nodes[x := net'.nodes[x]] == net'.nodes;
    ComesNext(w, net', Lost(x, 0), net', os);
  }

  /** Router `x` hears `m` and passes it on. */
  lemma PassedOn(w: World, net: Net, os: set<RouterId>, x: RouterId, m: Msg)
    requires Comes(w, net, os) && Holds(net, x, Blank(map[]))
    requires m in net.sent && m.id != x && m.metric + 1 < INFINITY
    ensures Comes(w, Put(net, x, Knows(Kept(m), m)).(sent := net.sent + {Passing(x, m)}), os)
  {
    Learns(w, net, os, x, map[], m);
    var srcs := map[m.id := Source(m.seqno, INFINITY, 0)];
    KeptIs(m);
    Passes(w, Put(net, x, Knows(srcs, m)), os, x, srcs, m);
    PutTwice(net, x, Knows(srcs, m), Knows(Kept(m), m));
  }

  lemma KeptIs(m: Msg)
    ensures map[m.id := Source(m.seqno, INFINITY, 0)][m.id := Source(m.seqno, m.metric + 1, 0)] == Kept(m)
    ensures map[][m.id := Source(m.seqno, INFINITY, 0)] == map[m.id := Source(m.seqno, INFINITY, 0)]
  {
  }

  lemma PutTwice(net: Net, x: RouterId, s: Slot<Key>, s': Slot<Key>)
    ensures Put(Put(net, x, s), x, s') == Put(net, x, s')
  {
    assert net.nodes[x := At(s, None)][x := At(s', None)] == net.nodes[x := At(s', None)];
  }

  /** Router `x` hears `m`, passes it on, and loses its route again. */
  lemma Passed(w: World, net: Net, os: set<RouterId>, x: RouterId, m: Msg) returns (net': Net)
    requires Comes(w, net, os) && Holds(net, x, Blank(map[]))
    requires m in net.sent && m.id != x && m.metric + 1 < INFINITY
    ensures Comes(w, net', os) && Holds(net', x, Blank(Kept(m))) && net'.sent == net.sent + {Passing(x, m)}
    ensures forall y :: y in net.nodes && y != x ==> y in net'.nodes && net'.nodes[y] == net.nodes[y]
  {
    PassedOn(w, net, os, x, m);
    var net1 := Put(net, x, Knows(Kept(m), m)).(sent := net.sent + {Passing(x, m)});
    Forgets(w, net1, os, x, Kept(m), m);
    net' := Put(net1, x, Blank(Kept(m)));
    PutTwice(net, x, Knows(Kept(m), m), Blank(Kept(m)));
  }

  lemma Announces(w: World, net: Net, os: set<RouterId>, o: RouterId)
    requires Comes(w, net, os) && o in net.nodes && net.nodes[o] == At(EMPTY, Some(0))
    ensures Comes(w, net.(sent := net.sent + {First(o)}), os)
  {
    assert net.nodes[o := net.nodes[o]] == net.nodes;
    ComesNext(w, net, Tell(o), net.(sent := net.sent + {First(o)}), os);
  }

  /** Routers `o` and `q` announce the prefix; two others know nothing. */
  function Two(o: RouterId, q: RouterId): World {
    World(Net(Exact, map[o := At(EMPTY, Some(0)), q := At(EMPTY, Some(0)),
                         o + q + 1 := At(EMPTY, None), o + q + 2 := At(EMPTY, None)], {}),
          {})
  }

  lemma TwoStart(o: RouterId, q: RouterId, os: set<RouterId>)
    requires o in os && q in os
    ensures Initial(Two(o, q)) && Comes(Two(o, q), Two(o, q).net, os)
  {
    var w := Two(o, q);
    InitialInv(w);
    assert Runs(w, []) && Final(w, []) == w && OnlyAnnounce(w.net, [], os);
  }

  /** Both routers have passed on what they heard and lost their routes. */
  predicate BothLost(net: Net, o: RouterId, q: RouterId, a: RouterId, b: RouterId) {
    && Holds(net, a, Blank(Kept(First(o)))) && Holds(net, b, Blank(Kept(First(q))))
    && Passing(a, First(o)) in net.sent && Passing(b, First(q)) in net.sent
  }

  /** What an announcer says. */
  function First(o: RouterId): Msg {
    Msg(o, o, 0, 0)
  }

  lemma BothAnnounced(o: RouterId, q: RouterId, os: set<RouterId>) returns (net: Net)
    requires o in os && q in os && o != q
    ensures Comes(Two(o, q), net, os) && First(o) in net.sent && First(q) in net.sent
    ensures Holds(net, o + q + 1, Blank(map[])) && Holds(net, o + q + 2, Blank(map[]))
  {
    var w := Two(o, q);
    TwoStart(o, q, os);
    Announces(w, w.net, os, o);
    net := w.net.(sent := {} + {First(o)});
    Announces(w, net, os, q);
    net := net.(sent := net.sent + {First(q)});
  }

  lemma TwoMiddle(o: RouterId, q: RouterId, os: set<RouterId>) returns (net: Net)
    requires o in os && q in os && o != q
    ensures Comes(Two(o, q), net, os) && BothLost(net, o, q, o + q + 1, o + q + 2)
  {
    net := BothAnnounced(o, q, os);
    net := BothPass(Two(o, q), net, os, o, q, o + q + 1, o + q + 2);
  }

  lemma BothPass(w: World, net: Net, os: set<RouterId>, o: RouterId, q: RouterId, a: RouterId, b: RouterId)
    returns (net': Net)
    requires Comes(w, net, os) && Holds(net, a, Blank(map[])) && Holds(net, b, Blank(map[]))
    requires a != b && o != a && q != b
    requires First(o) in net.sent && First(q) in net.sent
    ensures Comes(w, net', os) && BothLost(net', o, q, a, b)
  {
    net' := Passed(w, net, os, a, First(o));
    net' := Passed(w, net', os, b, First(q));
  }

  /** They then take each other's word and forward to each other. */
  lemma BothBelieve(w: World, net: Net, os: set<RouterId>, o: RouterId, q: RouterId, a: RouterId, b: RouterId)
    returns (net': Net)
    requires Comes(w, net, os) && BothLost(net, o, q, a, b)
    requires a != b && o != q && a != q && b != o
    ensures Comes(w, net', os) && PacketLoop(net', [a, b, a])
  {
    var ma, mb := Passing(b, First(q)), Passing(a, First(o));
    var sa := Knows(Kept(First(o))[q := Source(0, INFINITY, 0)], ma);
    var sb := Knows(Kept(First(q))[o := Source(0, INFINITY, 0)], mb);
    Learns(w, net, os, a, Kept(First(o)), ma);
    Learns(w, Put(net, a, sa), os, b, Kept(First(q)), mb);
    net' := Put(Put(net, a, sa), b, sb);
    Facing(net', a, b, sa, sb);
  }

  lemma Facing(net: Net, a: RouterId, b: RouterId, sa: Slot<Key>, sb: Slot<Key>)
    requires Holds(net, a, sa) && Holds(net, b, sb)
    requires 0 in sa.tab && IsHop(sa.tab[0], b) && 0 in sb.tab && IsHop(sb.tab[0], a)
    ensures PacketLoop(net, [a, b, a])
  {
    assert IsHop(net.nodes[a].slot.tab[0], b) && Hops(net, a, b);
    assert IsHop(net.nodes[b].slot.tab[0], a) && Hops(net, b, a);
  }

  lemma TwoLoop(o: RouterId, q: RouterId, os: set<RouterId>) returns (net: Net)
    requires o in os && q in os && o != q
    ensures Initial(Two(o, q)) && Comes(Two(o, q), net, os)
    ensures PacketLoop(net, [o + q + 1, o + q + 2, o + q + 1])
  {
    TwoStart(o, q, os);
    net := TwoMiddle(o, q, os);
    net := BothBelieve(Two(o, q), net, os, o, q, o + q + 1, o + q + 2);
  }

  predicate AtMostOne(os: set<RouterId>) {
    forall a, b :: a in os && b in os ==> a == b
  }

  /** Packets never loop, whatever the run, if and only if at most one router may announce the prefix. */
  lemma PacketsSafeExactly(os: set<RouterId>)
    ensures (forall w, v, p :: Initial(w) && Goes(w, v, os) ==> !PacketLoop(v.net, p)) <==> AtMostOne(os)
  {
    if AtMostOne(os) {
      forall w, v, p | Initial(w) && Goes(w, v, os) ensures !PacketLoop(v.net, p) {
        var es :| Runs(w, es) && Final(w, es) == v && OnlyAnnounce(w.net, es, os);
        var o := if os == {} then 0 else var x :| x in os; x;
        assert os <= {o};
        assert OnlyAnnounce(w.net, es, {o});
        OneAnnouncerLoopFree(w, es, o);
      }
    } else {
      var o, q :| o in os && q in os && o != q;
      var net := TwoLoop(o, q, os);
    }
  }
}
