/**
 * A network of three routers on its way to trouble: router 1 is the source, router 2 loses
 * its route to it, and router 3 has come to depend on router 2. Revival and Ageing continue
 * the run each in its own way.
 */
module Scenario {
  import opened Basics
  import opened SeqNo
  import opened Selection
  import opened Network
  import opened LoopFreedom

  /** All routers use one next-hop address. */
  const HOP: Address := [0, 0, 0, 0, 0, 0, 0, 0, 0, 0, 0, 0, 0, 0, 0, 0]

  const CFG: Config := Config(-1, false, 0, 256)

  /** The source's first update, and what routers 2 and 3 make of it. */
  const FROM_SOURCE: Msg := Msg(1, 1, 0, 0)
  const FROM_B: Msg := Msg(3, 1, 0, 50)
  const FROM_N: Msg := Msg(2, 1, 0, 10)
  const B_RETRACTS: Msg := Msg(3, 1, 0, INFINITY)
  const B_VIA_N: Msg := Msg(3, 1, 0, 20)

  function Via(router: RouterId, refmetric: nat, cost: nat, installed: bool): Route {
    Route(1, refmetric, cost, 0, 0, Neighbour(router, 0), HOP, 0, 15, installed)
  }

  function Hear(n: RouterId, m: Msg, cost: nat, newKey: Key): Event {
    Deliver(n, 0, m, 0, HOP, cost, 0, 0, newKey)
  }

  function Tell(n: RouterId): Event {
    Send(n, 0, true, false, true, 0)
  }

  function At(s: Slot<Key>, xroute: Option<nat>): Node {
    Node(s, 0, xroute, CFG)
  }

  /** Router 1 is the source; the slots of routers 2 and 3 and the updates sent so far vary. */
  function State(n: Slot<Key>, b: Slot<Key>, sent: set<Msg>): Net {
    Net(Exact, map[1 := At(Slot([], map[], map[]), Some(0)), 2 := At(n, None), 3 := At(b, None)], sent)
  }

  function Src(metric: nat): map<RouterId, Source> { map[1 := Source(0, metric, 0)] }

  const EMPTY: Slot<Key> := Slot([], map[], map[])
  const B1: Slot<Key> := Slot([0], map[0 := Via(1, 0, 50, true)], Src(INFINITY))
  const B2: Slot<Key> := B1.(srcs := Src(50))
  const B3: Slot<Key> := B2.(tab := map[0 := Via(1, 0, INFINITY, true)])
  const B4: Slot<Key> := Slot([1, 0], map[0 := Via(1, 0, INFINITY, false), 1 := Via(2, 10, 10, true)], Src(50))
  const B5: Slot<Key> := B4.(srcs := Src(20))
  const N1: Slot<Key> := Slot([0], map[0 := Via(1, 0, 10, true)], Src(INFINITY))
  const N2: Slot<Key> := Slot([0, 1], map[0 := Via(1, 0, 10, true), 1 := Via(3, 50, 10, false)], Src(INFINITY))
  const N3: Slot<Key> := N2.(srcs := Src(10))
  const N4: Slot<Key> := Slot([1], map[1 := Via(3, 50, 10, false)], Src(10))

  /** One step from a valid state with fresh sources. */
  ghost predicate Takes(net: Net, e: Event, net': Net) {
    Enabled(net, e) && Valid(net.nodes[e.n].slot) && SourcesFresh(net, e) && Step(net, e) == net'
  }

  const M1 := {FROM_SOURCE}
  const M2 := M1 + {FROM_B}
  const M3 := M2 + {FROM_N}
  const M4 := M3 + {B_RETRACTS}
  const M5 := M4 + {B_VIA_N}

  /** Equal slots, field by field. */
  lemma SameSlot(s: Slot<Key>, s': Slot<Key>)
    requires s.order == s'.order && s.tab == s'.tab && s.srcs == s'.srcs
    ensures s == s'
  {
  }

  /** All routes of the slot are finite. */
  predicate AllFinite(s: Slot<Key>) {
    forall k :: k in s.tab ==> s.tab[k].refmetric < INFINITY
  }

  /** Routers 2 and 3 know nothing yet. */
  const START: World := World(State(EMPTY, EMPTY, {}), {})

  lemma StartInitial()
    ensures Initial(START)
  {
  }

  /** Reached without installing a retracted route. */
  ghost predicate Reached(net: Net) {
    net.arith.Exact? && Reaches(START, World(net, {}))
  }

  /** A fresh step, with whatever it taints. */
  lemma Tainting(net: Net, e: Event, net': Net, t: Taint)
    requires Reached(net) && Takes(net, e, net') && t == NextTaint(net, net', e.n, {})
    ensures Reaches(START, World(net', t))
  {
    var w := World(net, {});
    FreshGuarded(net, e);
    assert Next(w, e) == World(net', t);
    ReachesNext(START, w, e);
  }

  lemma Onward(net: Net, e: Event, net': Net)
    requires Reached(net) && Takes(net, e, net') && AllFinite(net'.nodes[e.n].slot)
    ensures Reached(net')
  {
    assert NextTaint(net, net', e.n, {}) == {};
    Tainting(net, e, net', {});
  }

  lemma NTakes(n: Slot<Key>, n': Slot<Key>, b: Slot<Key>, sent: set<Msg>, e: Event)
    requires var net := State(n, b, sent);
             e.n == 2 && !e.Send? && Enabled(net, e) && Valid(n)
             && SourcesFresh(net, e) && Local(net, e) == At(n', None)
    ensures Takes(State(n, b, sent), e, State(n', b, sent))
  {
    NReplaced(n, n', b, sent);
  }

  lemma NSteps(n: Slot<Key>, n': Slot<Key>, b: Slot<Key>, sent: set<Msg>, e: Event)
    requires var net := State(n, b, sent);
             e.n == 2 && !e.Send? && Enabled(net, e) && Valid(n)
             && SourcesFresh(net, e) && Local(net, e) == At(n', None)
    requires AllFinite(n')
    ensures Reached(State(n, b, sent)) ==> Reached(State(n', b, sent))
  {
    NTakes(n, n', b, sent, e);
    if Reached(State(n, b, sent)) {
      Onward(State(n, b, sent), e, State(n', b, sent));
    }
  }

  lemma NReplaced(n: Slot<Key>, n': Slot<Key>, b: Slot<Key>, sent: set<Msg>)
    ensures State(n, b, sent).nodes[2 := At(n', None)] == State(n', b, sent).nodes
  {
  }

  lemma BTakes(n: Slot<Key>, b: Slot<Key>, b': Slot<Key>, sent: set<Msg>, e: Event)
    requires var net := State(n, b, sent);
             e.n == 3 && !e.Send? && Enabled(net, e) && Valid(b)
             && SourcesFresh(net, e) && Local(net, e) == At(b', None)
    ensures Takes(State(n, b, sent), e, State(n, b', sent))
  {
    BReplaced(n, b, b', sent);
  }

  lemma BSteps(n: Slot<Key>, b: Slot<Key>, b': Slot<Key>, sent: set<Msg>, e: Event)
    requires var net := State(n, b, sent);
             e.n == 3 && !e.Send? && Enabled(net, e) && Valid(b)
             && SourcesFresh(net, e) && Local(net, e) == At(b', None)
    requires AllFinite(b')
    ensures Reached(State(n, b, sent)) ==> Reached(State(n, b', sent))
  {
    BTakes(n, b, b', sent, e);
    if Reached(State(n, b, sent)) {
      Onward(State(n, b, sent), e, State(n, b', sent));
    }
  }

  lemma BReplaced(n: Slot<Key>, b: Slot<Key>, b': Slot<Key>, sent: set<Msg>)
    ensures State(n, b, sent).nodes[3 := At(b', None)] == State(n, b', sent).nodes
  {
  }

  // ----- hearing and telling, on slots

  function Own(n: RouterId, now: int): Env {
    Env(Exact, n, None, -1, false, now)
  }

  function Said(m: Msg, cost: nat): Update {
    Update(m.id, m.seqno, m.metric, cost, 0, Neighbour(m.from, 0), HOP, 0)
  }

  /** All sources were last advertised or created at time 0. */
  predicate AtZero(srcs: map<RouterId, Source>) {
    forall id :: id in srcs ==> srcs[id].time == 0
  }

  lemma NHears(n: Slot<Key>, n': Slot<Key>, b: Slot<Key>, sent: set<Msg>, m: Msg, cost: nat, newKey: Key)
    requires Valid(n) && AtZero(n.srcs) && m in sent && newKey !in n.tab && AllFinite(n')
    requires Accept(Own(2, 0), n, Said(m, cost), newKey) == n'
    ensures Reached(State(n, b, sent)) ==> Reached(State(n', b, sent))
  {
    NSteps(n, n', b, sent, Hear(2, m, cost, newKey));
  }

  lemma BHears(n: Slot<Key>, b: Slot<Key>, b': Slot<Key>, sent: set<Msg>, m: Msg, cost: nat, newKey: Key)
    requires Valid(b) && AtZero(b.srcs) && m in sent && newKey !in b.tab && AllFinite(b')
    requires Accept(Own(3, 0), b, Said(m, cost), newKey) == b'
    ensures Reached(State(n, b, sent)) ==> Reached(State(n, b', sent))
  {
    BSteps(n, b, b', sent, Hear(3, m, cost, newKey));
  }

  lemma NCosts(n: Slot<Key>, n': Slot<Key>, b: Slot<Key>, sent: set<Msg>, k: Key, cost: nat)
    requires Valid(n) && AtZero(n.srcs) && AllFinite(n') && k in n.tab
    requires UpdateRouteMetric(Own(2, 0), n, k, cost, 0) == n'
    ensures Reached(State(n, b, sent)) ==> Reached(State(n', b, sent))
  {
    NSteps(n, n', b, sent, LinkChange(2, 0, k, cost, 0));
  }

  lemma NDrops(n: Slot<Key>, b: Slot<Key>, sent: set<Msg>, k: Key)
    requires Valid(n) && AtZero(n.srcs) && AllFinite(n) && k in n.tab
    ensures Reached(State(n, b, sent)) ==> Reached(State(Unlink(n, k), b, sent))
  {
    NSteps(n, Unlink(n, k), b, sent, FlushRoute(2, 0, k));
  }

  /** The slot after its installed route `k` was advertised at time 0. */
  function Recorded(s: Slot<Key>, k: Key): Slot<Key>
    requires k in s.tab && s.tab[k].src in s.srcs
  {
    var r := s.tab[k];
    s.(srcs := s.srcs[r.src := UpdateSource(Exact, s.srcs[r.src], r.seqno, Metric(r), 0)])
  }

  function Repeated(n: RouterId, r: Route): Msg {
    Msg(n, r.src, r.seqno, Metric(r))
  }

  lemma Tells(net: Net, n: RouterId, s: Slot<Key>, k: Key)
    requires net.arith.Exact? && n in net.nodes && net.nodes[n] == At(s, None) && Valid(s) && Installed(s) == Some(k)
    ensures s.tab[k].src in s.srcs
    ensures Flushed(net, Tell(n)) == (At(Recorded(s, k), None), Some(Repeated(n, s.tab[k])))
  {
  }

  lemma NTells(n: Slot<Key>, b: Slot<Key>, sent: set<Msg>, k: Key)
    requires Valid(n) && AtZero(n.srcs) && AllFinite(n) && Installed(n) == Some(k)
    ensures n.tab[k].src in n.srcs
    ensures Reached(State(n, b, sent)) ==> Reached(State(Recorded(n, k), b, sent + {Repeated(2, n.tab[k])}))
  {
    var net := State(n, b, sent);
    Tells(net, 2, n, k);
    var net' := State(Recorded(n, k), b, sent + {Repeated(2, n.tab[k])});
    NReplaced(n, Recorded(n, k), b, sent);
    assert Takes(net, Tell(2), net');
    if Reached(net) {
      Onward(net, Tell(2), net');
    }
  }

  lemma BTells(n: Slot<Key>, b: Slot<Key>, sent: set<Msg>, k: Key)
    requires Valid(b) && AtZero(b.srcs) && AllFinite(b) && Installed(b) == Some(k)
    ensures b.tab[k].src in b.srcs
    ensures Reached(State(n, b, sent)) ==> Reached(State(n, Recorded(b, k), sent + {Repeated(3, b.tab[k])}))
  {
    var net := State(n, b, sent);
    Tells(net, 3, b, k);
    var net' := State(n, Recorded(b, k), sent + {Repeated(3, b.tab[k])});
    BReplaced(n, b, Recorded(b, k), sent);
    assert Takes(net, Tell(3), net');
    if Reached(net) {
      Onward(net, Tell(3), net');
    }
  }

  /** The only route of a slot, not installed yet, is considered and installed. */
  lemma OnlyRouteTaken(env: Env, k: Key, srcs: map<RouterId, Source>, r: Route)
    requires env.xroute.None? && r.src in srcs && !r.installed && RouteFeasible(env, srcs, r)
    ensures Valid(Slot([k], map[k := r], srcs))
    ensures Consider(env, Slot([k], map[k := r], srcs), k) == Slot([k], map[k := r.(installed := true)], srcs)
  {
    var v: Slot<Key> := Slot([k], map[k := r], srcs);
    assert Remove([k], k) == [];
    SameSlot(Switch(v, None, k), Slot([k], map[k := r.(installed := true)], srcs));
  }

  function Blank(srcs: map<RouterId, Source>): Slot<Key> {
    Slot([], map[], srcs)
  }

  /** The first update a router hears makes its first route. */
  lemma FirstRoute(n: RouterId, srcs: map<RouterId, Source>, m: Msg, cost: nat)
    requires m.id != n && m.id !in srcs && m.metric < INFINITY && cost < INFINITY
    ensures Valid(Blank(srcs))
    ensures Accept(Own(n, 0), Blank(srcs), Said(m, cost), 0) ==
            Slot([0], map[0 := NewRoute(Own(n, 0), Said(m, cost)).(installed := true)],
                 srcs[m.id := Source(m.seqno, INFINITY, 0)])
  {
    var env, u := Own(n, 0), Said(m, cost);
    var srcs' := srcs[m.id := Source(m.seqno, INFINITY, 0)];
    FirstAppended(env, srcs, u);
    OnlyRouteTaken(env, 0, srcs', NewRoute(env, u));
  }

  lemma FirstAppended(env: Env, srcs: map<RouterId, Source>, u: Update)
    requires u.id !in srcs && env.now == 0 && !Ignored(env, u) && u.refmetric < INFINITY
    ensures Valid(Blank(srcs)) && Valid(Appended(env, Blank(srcs), u, 0))
    ensures Appended(env, Blank(srcs), u, 0)
            == Slot([0], map[0 := NewRoute(env, u)], srcs[u.id := Source(u.seqno, INFINITY, 0)])
    ensures Accept(env, Blank(srcs), u, 0) == Consider(env, Appended(env, Blank(srcs), u, 0), 0)
  {
    var s := Blank(srcs);
    AppendedValid(env, s, u, 0);
    SameSlot(Appended(env, s, u, 0), Slot([0], map[0 := NewRoute(env, u)], srcs[u.id := Source(u.seqno, INFINITY, 0)]));
  }

  // ----- the steps

  lemma SourceTells()
    ensures Reached(State(EMPTY, EMPTY, {})) ==> Reached(State(EMPTY, EMPTY, M1))
  {
    var net, net' := State(EMPTY, EMPTY, {}), State(EMPTY, EMPTY, M1);
    assert Step(net, Tell(1)).nodes == net'.nodes;
    if Reached(net) {
      Onward(net, Tell(1), net');
    }
  }

  lemma BHearsSource()
    ensures Reached(State(EMPTY, EMPTY, M1)) ==> Reached(State(EMPTY, B1, M1))
  {
    FirstRoute(3, map[], FROM_SOURCE, 50);
    SameSlot(Accept(Own(3, 0), EMPTY, Said(FROM_SOURCE, 50), 0), B1);
    BHears(EMPTY, EMPTY, B1, M1, FROM_SOURCE, 50, 0);
  }

  lemma BTellsFirst()
    ensures Reached(State(EMPTY, B1, M1)) ==> Reached(State(EMPTY, B2, M2))
  {
    BTells(EMPTY, B1, M1, 0);
    SameSlot(Recorded(B1, 0), B2);
  }

  lemma NHearsSource()
    ensures Reached(State(EMPTY, B2, M2)) ==> Reached(State(N1, B2, M2))
  {
    FirstRoute(2, map[], FROM_SOURCE, 10);
    SameSlot(Accept(Own(2, 0), EMPTY, Said(FROM_SOURCE, 10), 0), N1);
    NHears(EMPTY, N1, B2, M2, FROM_SOURCE, 10, 0);
  }

  lemma N2Valid()
    ensures Valid(N2) && Installed(N2) == Some(0) && Valid(N3)
  {
  }

  /** Router 2 keeps the better route it has. */
  lemma NKeepsBoth()
    ensures Valid(N1) && Accept(Own(2, 0), N1, Said(FROM_B, 10), 1) == N2
  {
    var env, u := Own(2, 0), Said(FROM_B, 10);
    NAppends(env, u);
    N2Valid();
    assert Consider(env, N2, 1) == N2;
  }

  lemma NAppends(env: Env, u: Update)
    requires env == Own(2, 0) && u == Said(FROM_B, 10)
    ensures Valid(N1) && Appended(env, N1, u, 1) == N2 && Accept(env, N1, u, 1) == AcceptNew(env, N1, u, 1)
  {
    SameSlot(Appended(env, N1, u, 1), N2);
  }

  lemma NHearsB()
    ensures Reached(State(N1, B2, M2)) ==> Reached(State(N2, B2, M2))
  {
    NKeepsBoth();
    NHears(N1, N2, B2, M2, FROM_B, 10, 1);
  }

  lemma NTellsFirst()
    ensures Reached(State(N2, B2, M2)) ==> Reached(State(N3, B2, M3))
  {
    N2Recorded();
    NTells(N2, B2, M2, 0);
  }

  lemma N2Recorded()
    ensures Valid(N2) && Installed(N2) == Some(0) && Recorded(N2, 0) == N3
  {
    N2Valid();
    SameSlot(Recorded(N2, 0), N3);
  }

  lemma BWorsens()
    ensures Valid(B2) && UpdateRouteMetric(Own(3, 0), B2, 0, INFINITY, 0) == B3
  {
    SameSlot(WithMetric(B2, 0, 0, INFINITY, 0, 0), B3);
    assert Valid(B3) && BestOf(Own(3, 0), B3, 0, []) == 0;
  }

  lemma BLosesLink()
    ensures Reached(State(N3, B2, M3)) ==> Reached(State(N3, B3, M3))
  {
    BWorsens();
    BSteps(N3, B2, B3, M3, LinkChange(3, 0, 0, INFINITY, 0));
  }

  lemma BRetracts()
    ensures Reached(State(N3, B3, M3)) ==> Reached(State(N3, B3, M4))
  {
    B3Recorded();
    BTells(N3, B3, M3, 0);
  }

  lemma B3Recorded()
    ensures Valid(B3) && Installed(B3) == Some(0) && Recorded(B3, 0) == B3
  {
    SameSlot(Recorded(B3, 0), B3);
  }

  /** Router 3 prefers the stale route through router 2 to the one it lost. */
  lemma BSwitches()
    ensures Valid(B3) && Accept(Own(3, 0), B3, Said(FROM_N, 10), 1) == B4
  {
    BAppends();
    BConsiders(Own(3, 0));
  }

  const B3N: Slot<Key> := Slot([0, 1], map[0 := Via(1, 0, INFINITY, true), 1 := Via(2, 10, 10, false)], Src(50))

  lemma BAppends()
    ensures Valid(B3) && Valid(B3N) && Accept(Own(3, 0), B3, Said(FROM_N, 10), 1) == Consider(Own(3, 0), B3N, 1)
  {
    SameSlot(Appended(Own(3, 0), B3, Said(FROM_N, 10), 1), B3N);
    AppendedValid(Own(3, 0), B3, Said(FROM_N, 10), 1);
  }

  lemma BConsiders(env: Env)
    requires env == Own(3, 0) && Valid(B3N)
    ensures Consider(env, B3N, 1) == B4
  {
    assert B3N.order[1..] == [1] && Remove(B3N.order, 1) == [0];
    assert Consider(env, B3N, 1) == Switch(B3N, Some(0), 1);
    SameSlot(Switch(B3N, Some(0), 1), B4);
  }

  lemma BHearsN()
    ensures Reached(State(N3, B3, M4)) ==> Reached(State(N3, B4, M4))
  {
    BSwitches();
    BHears(N3, B3, B4, M4, FROM_N, 10, 1);
  }

  lemma B4Valid()
    ensures Valid(B4) && Installed(B4) == Some(1)
  {
    assert B4.order[0] == 1 && B4.order[1] == 0;
  }

  lemma BTellsAgain()
    ensures Reached(State(N3, B4, M4)) ==> Reached(State(N3, B5, M5))
  {
    B4Recorded();
    BTells(N3, B4, M4, 1);
  }

  lemma B4Recorded()
    ensures Valid(B4) && Installed(B4) == Some(1) && Recorded(B4, 1) == B5
  {
    B4Valid();
    SameSlot(Recorded(B4, 1), B5);
  }

  lemma NUnlinks()
    ensures Valid(N3) && Unlink(N3, 0) == N4
  {
    N2Valid();
    assert Remove([0, 1], 0) == [1];
    SameSlot(Unlink(N3, 0), N4);
  }

  lemma NLosesLink()
    ensures Reached(State(N3, B5, M5)) ==> Reached(State(N4, B5, M5))
  {
    NUnlinks();
    NDrops(N3, B5, M5, 0);
  }

  lemma NFindsNothing(env: Env)
    requires env == Own(2, 0)
    ensures Valid(N4) && RouteLost(env, N4) == N4
  {
    assert BestOf(env, N4, 1, []) == 1;
  }

  /** The call of route_lost that follows finds nothing feasible. */
  lemma NLooksAround()
    ensures Takes(State(N4, B5, M5), Lost(2, 0), State(N4, B5, M5))
  {
    NFindsNothing(Own(2, 0));
    NTakes(N4, N4, B5, M5, Lost(2, 0));
  }

  // ----- the run so far

  lemma FirstSteps()
    ensures Reached(State(N3, B2, M3))
  {
    StartInitial();
    InitialInv(START);
    ReachesSelf(START);
    SourceTells();
    BHearsSource();
    BTellsFirst();
    NHearsSource();
    NHearsB();
    NTellsFirst();
  }

  /** Router 2 has the source as next hop, router 3 has router 2. */
  lemma Depending()
    ensures Reached(State(N3, B5, M5))
  {
    FirstSteps();
    BLosesLink();
    BRetracts();
    BHearsN();
    BTellsAgain();
  }

  /** Router 2 has lost its route and rightly refuses what router 3 offers. */
  lemma Bereft()
    ensures Reached(State(N4, B5, M5)) && Takes(State(N4, B5, M5), Lost(2, 0), State(N4, B5, M5))
  {
    Depending();
    NLosesLink();
    NLooksAround();
  }

  /** If router 2 then forwards to router 3, the two form a loop. */
  lemma Loops(n: Slot<Key>, sent: set<Msg>)
    requires 1 in n.tab && IsEdge(n.tab[1], 1, 3) && n.tab[1].refmetric < INFINITY
    ensures ForwardingLoop(State(n, B5, sent), 1, [2, 3, 2])
  {
    var net := State(n, B5, sent);
    assert IsEdge(net.nodes[2].slot.tab[1], 1, 3) && Forwards(net, 1, 2, 3);
    assert IsEdge(net.nodes[3].slot.tab[1], 1, 2) && Forwards(net, 1, 3, 2);
  }
}
