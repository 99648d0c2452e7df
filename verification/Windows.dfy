/**
 * How long a network may run before 16-bit sequence numbers become ambiguous: the numbers of a
 * source stay within a window that grows only when a router increments one.
 */
module Windows {
  import opened Basics
  import opened SeqNo
  import opened Selection
  import opened Network
  import opened LoopFreedom
  import opened Wrapping

  // ----- where sequence numbers come from

  /** The route kept its number, or took the update's, or one more than its source records. */
  predicate Numbered(s: Slot<Key>, k: Key, r: Route, u: Option<Update>, bumped: bool) {
    || (k in s.tab && r.src == s.tab[k].src && r.seqno == s.tab[k].seqno)
    || (u.Some? && r.src == u.value.id && r.seqno == u.value.seqno)
    || (bumped && r.src in s.srcs && r.seqno == s.srcs[r.src].seqno + 1)
  }

  /** The source kept its number, or was created with the update's. */
  predicate Recorded(s: Slot<Key>, id: RouterId, src: Source, u: Option<Update>) {
    || (id in s.srcs && src.seqno == s.srcs[id].seqno)
    || (u.Some? && id == u.value.id && src.seqno == u.value.seqno)
  }

  ghost predicate Traced(s: Slot<Key>, s': Slot<Key>, u: Option<Update>, bumped: bool) {
    && (forall k :: k in s'.tab ==> Numbered(s, k, s'.tab[k], u, bumped))
    && (forall id :: id in s'.srcs ==> Recorded(s, id, s'.srcs[id], u))
  }

  lemma ReselectedTraced(env: Env, s: Slot<Key>, s1: Slot<Key>, s2: Slot<Key>, u: Option<Update>, bumped: bool)
    requires Valid(s1) && Traced(s, s1, u, bumped) && Reselected(env, s1, s2)
    ensures Traced(s, s2, u, bumped)
  {
    forall k | k in s2.tab ensures Numbered(s, k, s2.tab[k], u, bumped) {
      assert k in s1.tab && Numbered(s, k, s1.tab[k], u, bumped);
    }
  }

  lemma UnchangedTraced(s: Slot<Key>, u: Option<Update>, bumped: bool)
    ensures Traced(s, s, u, bumped)
  {
  }

  lemma SourceTraced(env: Env, s: Slot<Key>, u: Update)
    ensures Traced(s, s.(srcs := FindSource(s.srcs, u.id, u.seqno, env.now)), Some(u), false)
  {
  }

  lemma WrittenTraced(env: Env, s: Slot<Key>, u: Update, k: Key)
    requires Valid(s) && k in s.tab
    ensures Traced(s, Written(env, s, u, k), Some(u), false)
  {
    SourceTraced(env, s, u);
  }

  lemma AcceptKnownTraced(env: Env, s: Slot<Key>, u: Update, k: Key)
    requires Valid(s) && k in s.tab && FindRoute(s, s.order, u.neigh, u.nexthop) == Some(k)
    ensures Traced(s, AcceptKnown(env, s, u, k), Some(u), false)
  {
    var s1 := Written(env, s, u, k);
    WrittenEvolves(env, s, u, k);
    WrittenTraced(env, s, u, k);
    RouteChangedReselects(env, s1, k, Metric(s.tab[k]));
    ReselectedTraced(env, s, s1, RouteChanged(env, s1, k, Metric(s.tab[k])), Some(u), false);
  }

  lemma AppendedTraced(env: Env, s: Slot<Key>, u: Update, newKey: Key)
    requires newKey !in s.tab
    ensures Traced(s, Appended(env, s, u, newKey), Some(u), false)
  {
    SourceTraced(env, s, u);
  }

  lemma AcceptNewTraced(env: Env, s: Slot<Key>, u: Update, newKey: Key)
    requires Valid(s) && newKey !in s.tab
    ensures Traced(s, AcceptNew(env, s, u, newKey), Some(u), false)
  {
    SourceTraced(env, s, u);
    var s1 := Appended(env, s, u, newKey);
    AppendedValid(env, s, u, newKey);
    AppendedTraced(env, s, u, newKey);
    ConsiderReselects(env, s1, newKey);
    ReselectedTraced(env, s, s1, Consider(env, s1, newKey), Some(u), false);
  }

  lemma AcceptTraced(env: Env, s: Slot<Key>, u: Update, newKey: Key)
    requires Valid(s) && newKey !in s.tab
    ensures Traced(s, Accept(env, s, u, newKey), Some(u), false)
  {
    var found := FindRoute(s, s.order, u.neigh, u.nexthop);
    if Ignored(env, u) {
      UnchangedTraced(s, Some(u), false);
    } else if found.Some? {
      AcceptKnownTraced(env, s, u, found.value);
    } else {
      AcceptNewTraced(env, s, u, newKey);
    }
  }

  lemma WithMetricTraced(s: Slot<Key>, k: Key, refmetric: nat, cost: nat, addMetric: nat, seqno: int, bumped: bool)
    requires Valid(s) && k in s.tab
    requires seqno == s.tab[k].seqno || (bumped && seqno == s.srcs[s.tab[k].src].seqno + 1)
    ensures Traced(s, WithMetric(s, k, refmetric, cost, addMetric, seqno), None, bumped)
  {
  }

  lemma RemetricTraced(env: Env, s: Slot<Key>, k: Key, refmetric: nat, cost: nat, addMetric: nat, seqno: int,
                       bumped: bool)
    requires Valid(s) && k in s.tab
    requires refmetric >= INFINITY || (refmetric == s.tab[k].refmetric && seqno == s.tab[k].seqno)
    requires seqno == s.tab[k].seqno || (bumped && seqno == s.srcs[s.tab[k].src].seqno + 1)
    ensures Traced(s, Remetric(env, s, k, refmetric, cost, addMetric, seqno), None, bumped)
  {
    var s1 := WithMetric(s, k, refmetric, cost, addMetric, seqno);
    WithMetricEvolves(env, s, k, refmetric, cost, addMetric, seqno);
    WithMetricTraced(s, k, refmetric, cost, addMetric, seqno, bumped);
    RouteChangedReselects(env, s1, k, Metric(s.tab[k]));
    ReselectedTraced(env, s, s1, RouteChanged(env, s1, k, Metric(s.tab[k])), None, bumped);
  }

  lemma RouteLostTraced(env: Env, s: Slot<Key>)
    requires Valid(s)
    ensures Traced(s, RouteLost(env, s), None, false)
  {
    UnchangedTraced(s, None, false);
    RouteLostReselects(env, s);
    ReselectedTraced(env, s, s, RouteLost(env, s), None, false);
  }

  // ----- the window

  /** The event makes some router increment a sequence number: its own, or that of an expired route. */
  predicate Increments(net: Net, e: Event)
    requires Enabled(net, e)
  {
    e.BumpSeqno? || (e.LinkChange? && Expired(net.nodes[e.n].slot.tab[e.k], e.now)
                     && net.nodes[e.n].slot.tab[e.k].refmetric < INFINITY)
  }

  lemma LocalTraced(net: Net, e: Event)
    requires Enabled(net, e) && !e.Send? && Valid(net.nodes[e.n].slot) && net.arith.Exact?
    ensures Traced(net.nodes[e.n].slot, Local(net, e).slot, if e.Deliver? then Some(UpdateOf(e)) else None,
                   Increments(net, e))
  {
    var s, env := net.nodes[e.n].slot, EnvOf(net, e.n, e.now);
    UnchangedTraced(s, None, Increments(net, e));
    if e.Deliver? {
      AcceptTraced(env, s, UpdateOf(e), e.newKey);
    } else if e.Lost? {
      RouteLostTraced(env, s);
    } else if e.LinkChange? {
      LinkChangeTraced(env, s, e.k, e.cost, e.addMetric);
    } else if e.RetractRoute? {
      RemetricTraced(env, s, e.k, INFINITY, INFINITY, 0, s.tab[e.k].seqno, false);
    }
  }

  lemma LinkChangeTraced(env: Env, s: Slot<Key>, k: Key, cost: nat, addMetric: nat)
    requires Valid(s) && k in s.tab && env.arith.Exact?
    ensures Traced(s, UpdateRouteMetric(env, s, k, cost, addMetric), None,
                   Expired(s.tab[k], env.now) && s.tab[k].refmetric < INFINITY)
  {
    var r := s.tab[k];
    if !Expired(r, env.now) {
      RemetricTraced(env, s, k, r.refmetric, cost, addMetric, r.seqno, false);
    } else if r.refmetric < INFINITY {
      RemetricTraced(env, s, k, INFINITY, INFINITY, 0, s.srcs[r.src].seqno + 1, true);
    } else {
      UnchangedTraced(s, None, false);
    }
  }

  /** At most `c` above the number the source started with. */
  predicate Between(base: map<RouterId, int>, c: nat, id: RouterId, seqno: int) {
    id in base && base[id] <= seqno <= base[id] + c
  }

  predicate SlotWithin(s: Slot<Key>, base: map<RouterId, int>, c: nat) {
    && (forall k :: k in s.tab ==> Between(base, c, s.tab[k].src, s.tab[k].seqno))
    && (forall id :: id in s.srcs ==> Between(base, c, id, s.srcs[id].seqno))
  }

  predicate NodeWithin(n: RouterId, x: Node, base: map<RouterId, int>, c: nat) {
    Between(base, c, n, x.myseqno) && SlotWithin(x.slot, base, c)
  }

  predicate Within(net: Net, base: map<RouterId, int>, c: nat) {
    && (forall n :: n in net.nodes ==> NodeWithin(n, net.nodes[n], base, c))
    && (forall m :: m in net.sent ==> Between(base, c, m.id, m.seqno))
  }

  lemma TracedWithin(s: Slot<Key>, s': Slot<Key>, u: Option<Update>, bumped: bool, base: map<RouterId, int>, c: nat)
    requires Traced(s, s', u, bumped) && SlotWithin(s, base, c)
    requires u.Some? ==> Between(base, c, u.value.id, u.value.seqno)
    ensures SlotWithin(s', base, if bumped then c + 1 else c)
  {
    forall k | k in s'.tab ensures Between(base, if bumped then c + 1 else c, s'.tab[k].src, s'.tab[k].seqno) {
      assert Numbered(s, k, s'.tab[k], u, bumped);
    }
    forall id | id in s'.srcs ensures Between(base, if bumped then c + 1 else c, id, s'.srcs[id].seqno) {
      assert Recorded(s, id, s'.srcs[id], u);
    }
  }

  function After(net: Net, e: Event, c: nat): nat
    requires Enabled(net, e)
  {
    if Increments(net, e) then c + 1 else c
  }

  lemma LocalWithin(net: Net, e: Event, base: map<RouterId, int>, c: nat)
    requires Enabled(net, e) && !e.Send? && Valid(net.nodes[e.n].slot) && net.arith.Exact? && Within(net, base, c)
    ensures NodeWithin(e.n, Local(net, e), base, After(net, e, c))
  {
    LocalTraced(net, e);
    TracedWithin(net.nodes[e.n].slot, Local(net, e).slot, if e.Deliver? then Some(UpdateOf(e)) else None,
                 Increments(net, e), base, c);
  }

  lemma SendWithin(net: Net, e: Event, base: map<RouterId, int>, c: nat)
    requires Enabled(net, e) && e.Send? && Valid(net.nodes[e.n].slot) && net.arith.Exact? && Within(net, base, c)
    ensures NodeWithin(e.n, Flushed(net, e).0, base, c)
    ensures Flushed(net, e).1.Some? ==> Between(base, c, Flushed(net, e).1.value.id, Flushed(net, e).1.value.seqno)
  {
    var x := net.nodes[e.n];
    assert NodeWithin(e.n, x, base, c);
    var inst := Installed(x.slot);
    if inst.Some? {
      assert Between(base, c, x.slot.tab[inst.value].src, x.slot.tab[inst.value].seqno);
    }
  }

  lemma Wider(net: Net, base: map<RouterId, int>, c: nat, c': nat)
    requires Within(net, base, c) && c <= c'
    ensures Within(net, base, c')
  {
    forall n | n in net.nodes ensures NodeWithin(n, net.nodes[n], base, c') {
      assert NodeWithin(n, net.nodes[n], base, c);
    }
  }

  lemma StepWithin(net: Net, e: Event, base: map<RouterId, int>, c: nat)
    requires Enabled(net, e) && Valid(net.nodes[e.n].slot) && net.arith.Exact? && Within(net, base, c)
    ensures Within(Step(net, e), base, After(net, e, c))
  {
    Wider(net, base, c, After(net, e, c));
    if e.Send? {
      SendWithin(net, e, base, c);
    } else {
      LocalWithin(net, e, base, c);
    }
  }

  lemma WithinNear(net: Net, e: Event, base: map<RouterId, int>, c: nat)
    requires Enabled(net, e) && Within(net, base, c) && c < HALF
    ensures NearStep(net, e)
  {
    assert NodeWithin(e.n, net.nodes[e.n], base, c);
  }

  // ----- runs

  /** How many events of the run increment a sequence number. */
  ghost function Incrementing(w: World, es: seq<Event>): nat
    requires AllValid(w.net) && Runs(w, es)
    decreases |es|
  {
    if es == [] then 0
    else NextValid(w, es[0]); After(w.net, es[0], Incrementing(Next(w, es[0]), es[1..]))
  }

  lemma {:induction false} RunNear(w: World, es: seq<Event>, base: map<RouterId, int>, c: nat)
    requires AllValid(w.net) && Runs(w, es) && w.net.arith.Exact? && Within(w.net, base, c)
    requires c + Incrementing(w, es) < HALF
    ensures NearRun(w, es)
    decreases |es|
  {
    if es != [] {
      WithinNear(w.net, es[0], base, c);
      StepWithin(w.net, es[0], base, c);
      NextValid(w, es[0]);
      RunNear(Next(w, es[0]), es[1..], base, After(w.net, es[0], c));
    }
  }

  lemma InitialWithin(w: World)
    requires Initial(w)
    ensures Within(w.net, map n | n in w.net.nodes :: w.net.nodes[n].myseqno, 0)
  {
  }

  /**
   * The network with 16-bit sequence numbers is loop-free for as long as fewer than half of them
   * have been used up.
   */
  lemma CountedLoopFree16(w: World, es: seq<Event>)
    requires Initial(w) && AllValid(w.net) && Runs(w, es) && Incrementing(w, es) < HALF
    ensures NearRun(w, es) && Runs16(WNet(w.net), WEvents(es))
    ensures forall id, p :: !ForwardingLoop(Final16(WNet(w.net), WEvents(es)), id, p)
  {
    InitialWithin(w);
    RunNear(w, es, map n | n in w.net.nodes :: w.net.nodes[n].myseqno, 0);
    LoopFree16(w, es);
  }
}
