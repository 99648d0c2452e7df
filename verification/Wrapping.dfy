/**
 * The 16-bit network simulates the network with unbounded seqnos as long as every comparison
 * a router makes is between seqnos less than half the circle apart, so the loop-freedom
 * theorem holds of the arithmetic the program really uses.
 */
module Wrapping {
  import opened Basics
  import opened SeqNo
  import opened Selection
  import opened Network
  import opened LoopFreedom

  function WSource(src: Source): Source { src.(seqno := Wrap(src.seqno)) }
  function WRoute(r: Route): Route { r.(seqno := Wrap(r.seqno)) }
  function WMsg(m: Msg): Msg { m.(seqno := Wrap(m.seqno)) }
  function WUpdate(u: Update): Update { u.(seqno := Wrap(u.seqno)) }

  function WSources(srcs: map<RouterId, Source>): map<RouterId, Source> {
    map id | id in srcs :: WSource(srcs[id])
  }

  function WTab(tab: map<Key, Route>): map<Key, Route> {
    map k | k in tab :: WRoute(tab[k])
  }

  function WSlot(s: Slot<Key>): Slot<Key> {
    Slot(s.order, WTab(s.tab), WSources(s.srcs))
  }

  function WNode(x: Node): Node {
    x.(slot := WSlot(x.slot), myseqno := Wrap(x.myseqno))
  }

  function WSent(sent: set<Msg>): set<Msg> {
    set m | m in sent :: WMsg(m)
  }

  function WNet(net: Net): Net {
    Net(Wrapped16, map n | n in net.nodes :: WNode(net.nodes[n]), WSent(net.sent))
  }

  function WEvent(e: Event): Event {
    if e.Deliver? then e.(msg := WMsg(e.msg)) else e
  }

  function WEnv(env: Env): Env { env.(arith := Wrapped16) }

  // ----- windows

  /** Every route's seqno is comparable with its source's. */
  predicate InWindow(s: Slot<Key>)
  {
    forall k :: k in s.tab && s.tab[k].src in s.srcs ==> Near(s.tab[k].seqno, s.srcs[s.tab[k].src].seqno)
  }

  predicate NearUpdate(s: Slot<Key>, id: RouterId, seqno: int) {
    id in s.srcs ==> Near(seqno, s.srcs[id].seqno)
  }

  predicate NearStep(net: Net, e: Event)
    requires Enabled(net, e)
  {
    InWindow(net.nodes[e.n].slot) && (e.Deliver? ==> NearUpdate(net.nodes[e.n].slot, e.msg.id, e.msg.seqno))
  }

  // ----- selection commutes with wrapping

  lemma WValid(s: Slot<Key>)
    requires Valid(s)
    ensures Valid(WSlot(s))
    ensures Installed(WSlot(s)) == Installed(s)
  {
  }

  lemma WFeasible(env: Env, src: Source, seqno: int, refmetric: nat)
    requires env.arith.Exact? && Near(seqno, src.seqno)
    ensures UpdateFeasible(WEnv(env), WSource(src), Wrap(seqno), refmetric)
            == UpdateFeasible(env, src, seqno, refmetric)
  {
    StoredAgrees(Wrapped16, seqno, src.seqno);
  }

  lemma WRouteFeasible(env: Env, s: Slot<Key>, k: Key)
    requires env.arith.Exact? && Valid(s) && InWindow(s) && k in s.tab
    ensures RouteFeasible(WEnv(env), WSlot(s).srcs, WSlot(s).tab[k]) == RouteFeasible(env, s.srcs, s.tab[k])
  {
    WFeasible(env, s.srcs[s.tab[k].src], s.tab[k].seqno, s.tab[k].refmetric);
  }

  lemma WSetInstalled(s: Slot<Key>, k: Key, on: bool)
    requires k in s.tab
    ensures SetInstalled(WSlot(s), k, on) == WSlot(SetInstalled(s, k, on))
  {
    assert SetInstalled(WSlot(s), k, on).tab == WSlot(SetInstalled(s, k, on)).tab;
  }

  lemma WSwitch(s: Slot<Key>, prev: Option<Key>, k: Key)
    requires Valid(s) && k in s.tab && prev == Installed(s)
    ensures Valid(WSlot(s)) && prev == Installed(WSlot(s))
    ensures Switch(WSlot(s), prev, k) == WSlot(Switch(s, prev, k))
  {
    WValid(s);
    WSetInstalled(s, k, true);
    if prev.Some? {
      WSetInstalled(s, prev.value, false);
      WSetInstalled(SetInstalled(s, prev.value, false), k, true);
    }
  }

  lemma WConsider(env: Env, s: Slot<Key>, k: Key)
    requires env.arith.Exact? && Valid(s) && InWindow(s) && k in s.tab
    ensures Valid(WSlot(s))
    ensures Consider(WEnv(env), WSlot(s), k) == WSlot(Consider(env, s, k))
  {
    WSwitch(s, Installed(s), k);
    WRouteFeasible(env, s, k);
    WMetric(s, k);
    if Installed(s).Some? {
      WMetric(s, Installed(s).value);
    }
  }

  lemma WMetric(s: Slot<Key>, k: Key)
    requires k in s.tab
    ensures Metric(WSlot(s).tab[k]) == Metric(s.tab[k])
    ensures WSlot(s).tab[k].installed == s.tab[k].installed
  {
  }

  lemma {:induction false} WBestOf(env: Env, s: Slot<Key>, best: Key, rest: seq<Key>)
    requires env.arith.Exact? && Valid(s) && InWindow(s)
    requires best in s.tab && (forall x :: x in rest ==> x in s.tab)
    ensures Valid(WSlot(s))
    ensures BestOf(WEnv(env), WSlot(s), best, rest) == BestOf(env, s, best, rest)
    decreases |rest|
  {
    WValid(s);
    if rest != [] {
      assert rest[0] in rest;
      WPreferred(env, s, best, rest[0]);
      WBestOf(env, s, if Preferred(env, s, best, rest[0]) then rest[0] else best, rest[1..]);
    }
  }

  predicate Preferred(env: Env, s: Slot<Key>, best: Key, k: Key)
    requires Valid(s) && best in s.tab && k in s.tab
  {
    !Expired(s.tab[k], env.now) && RouteFeasible(env, s.srcs, s.tab[k]) && Metric(s.tab[k]) < Metric(s.tab[best])
  }

  lemma WPreferred(env: Env, s: Slot<Key>, best: Key, k: Key)
    requires env.arith.Exact? && Valid(s) && InWindow(s) && best in s.tab && k in s.tab
    ensures Valid(WSlot(s)) && Preferred(WEnv(env), WSlot(s), best, k) == Preferred(env, s, best, k)
  {
    WValid(s);
    WRouteFeasible(env, s, k);
  }

  lemma WFindBest(env: Env, s: Slot<Key>)
    requires env.arith.Exact? && Valid(s) && InWindow(s)
    ensures Valid(WSlot(s))
    ensures FindBest(WEnv(env), WSlot(s)) == FindBest(env, s)
  {
    WValid(s);
    if s.order != [] {
      WBestOf(env, s, s.order[0], s.order[1..]);
    }
  }

  lemma WRouteChanged(env: Env, s: Slot<Key>, k: Key, oldMetric: nat)
    requires env.arith.Exact? && Valid(s) && InWindow(s) && k in s.tab
    ensures Valid(WSlot(s))
    ensures RouteChanged(WEnv(env), WSlot(s), k, oldMetric) == WSlot(RouteChanged(env, s, k, oldMetric))
  {
    WValid(s);
    WMetric(s, k);
    if !s.tab[k].installed {
      WConsider(env, s, k);
    } else {
      WFindBest(env, s);
      var better := FindBest(env, s);
      if better.Some? {
        WMetric(s, better.value);
        WConsider(env, s, better.value);
      }
    }
  }

  lemma WRouteLost(env: Env, s: Slot<Key>)
    requires env.arith.Exact? && Valid(s) && InWindow(s)
    ensures Valid(WSlot(s))
    ensures RouteLost(WEnv(env), WSlot(s)) == WSlot(RouteLost(env, s))
  {
    WFindBest(env, s);
    var best := FindBest(env, s);
    if best.Some? {
      WConsider(env, s, best.value);
    }
  }

  lemma {:induction false} WFindRoute(s: Slot<Key>, order: seq<Key>, neigh: Neighbour, nexthop: Address)
    requires forall k :: k in order ==> k in s.tab
    ensures FindRoute(WSlot(s), order, neigh, nexthop) == FindRoute(s, order, neigh, nexthop)
    decreases |order|
  {
    if order != [] {
      WFindRoute(s, order[1..], neigh, nexthop);
    }
  }

  lemma WFindSource(env: Env, s: Slot<Key>, u: Update)
    requires env.arith.Exact? && NearUpdate(s, u.id, u.seqno)
    ensures FindSource(WSources(s.srcs), u.id, Wrap(u.seqno), env.now)
            == WSources(FindSource(s.srcs, u.id, u.seqno, env.now))
    ensures var src := FindSource(s.srcs, u.id, u.seqno, env.now)[u.id];
            && Near(u.seqno, src.seqno)
            && UpdateFeasible(WEnv(env), WSource(src), Wrap(u.seqno), u.refmetric)
               == UpdateFeasible(env, src, u.seqno, u.refmetric)
  {
    WFeasible(env, FindSource(s.srcs, u.id, u.seqno, env.now)[u.id], u.seqno, u.refmetric);
  }

  lemma WWritten(env: Env, s: Slot<Key>, u: Update, k: Key)
    requires env.arith.Exact? && Valid(s) && InWindow(s) && NearUpdate(s, u.id, u.seqno) && k in s.tab
    ensures Valid(WSlot(s))
    ensures Written(WEnv(env), WSlot(s), WUpdate(u), k) == WSlot(Written(env, s, u, k))
    ensures InWindow(Written(env, s, u, k))
  {
    WValid(s);
    WFindSource(env, s, u);
    var srcs := FindSource(s.srcs, u.id, u.seqno, env.now);
    WRewritten(env, s.tab[k], u, UpdateFeasible(env, srcs[u.id], u.seqno, u.refmetric));
    WTabSet(s.tab, k, Rewritten(env, s.tab[k], u, UpdateFeasible(env, srcs[u.id], u.seqno, u.refmetric)));
    WrittenInWindow(env, s, u, k);
  }

  lemma WTabSet(tab: map<Key, Route>, k: Key, r: Route)
    ensures WTab(tab[k := r]) == WTab(tab)[k := WRoute(r)]
  {
  }

  lemma WrittenInWindow(env: Env, s: Slot<Key>, u: Update, k: Key)
    requires env.arith.Exact? && Valid(s) && InWindow(s) && NearUpdate(s, u.id, u.seqno) && k in s.tab
    ensures InWindow(Written(env, s, u, k))
  {
    WFindSource(env, s, u);
  }

  lemma WRewritten(env: Env, r: Route, u: Update, feasible: bool)
    ensures Rewritten(WEnv(env), WRoute(r), WUpdate(u), feasible) == WRoute(Rewritten(env, r, u, feasible))
  {
  }

  lemma WAppended(env: Env, s: Slot<Key>, u: Update, newKey: Key)
    requires env.arith.Exact? && Valid(s) && InWindow(s) && NearUpdate(s, u.id, u.seqno)
    ensures Appended(WEnv(env), WSlot(s), WUpdate(u), newKey) == WSlot(Appended(env, s, u, newKey))
    ensures InWindow(Appended(env, s, u, newKey))
  {
    WFindSource(env, s, u);
    WTabSet(s.tab, newKey, NewRoute(env, u));
    AppendedInWindow(env, s, u, newKey);
  }

  lemma AppendedInWindow(env: Env, s: Slot<Key>, u: Update, newKey: Key)
    requires env.arith.Exact? && Valid(s) && InWindow(s) && NearUpdate(s, u.id, u.seqno)
    ensures InWindow(Appended(env, s, u, newKey))
  {
    WFindSource(env, s, u);
  }

  lemma WAcceptKnown(env: Env, s: Slot<Key>, u: Update, k: Key)
    requires env.arith.Exact? && Valid(s) && InWindow(s) && NearUpdate(s, u.id, u.seqno)
    requires k in s.tab && FindRoute(s, s.order, u.neigh, u.nexthop) == Some(k)
    ensures Valid(WSlot(s)) && FindRoute(WSlot(s), s.order, u.neigh, u.nexthop) == Some(k)
    ensures AcceptKnown(WEnv(env), WSlot(s), WUpdate(u), k) == WSlot(AcceptKnown(env, s, u, k))
  {
    WFindRoute(s, s.order, u.neigh, u.nexthop);
    WWritten(env, s, u, k);
    WrittenEvolves(env, s, u, k);
    WRouteChanged(env, Written(env, s, u, k), k, Metric(s.tab[k]));
  }

  lemma WAcceptNew(env: Env, s: Slot<Key>, u: Update, newKey: Key)
    requires env.arith.Exact? && Valid(s) && InWindow(s) && NearUpdate(s, u.id, u.seqno) && newKey !in s.tab
    ensures Valid(WSlot(s))
    ensures AcceptNew(WEnv(env), WSlot(s), WUpdate(u), newKey) == WSlot(AcceptNew(env, s, u, newKey))
  {
    WValid(s);
    WFindSource(env, s, u);
    WAppended(env, s, u, newKey);
    AppendedValid(env, s, u, newKey);
    WConsider(env, Appended(env, s, u, newKey), newKey);
  }

  lemma WAccept(env: Env, s: Slot<Key>, u: Update, newKey: Key)
    requires env.arith.Exact? && Valid(s) && InWindow(s) && NearUpdate(s, u.id, u.seqno) && newKey !in s.tab
    ensures Valid(WSlot(s))
    ensures Accept(WEnv(env), WSlot(s), WUpdate(u), newKey) == WSlot(Accept(env, s, u, newKey))
  {
    WValid(s);
    WFindRoute(s, s.order, u.neigh, u.nexthop);
    var found := FindRoute(s, s.order, u.neigh, u.nexthop);
    if found.Some? {
      WAcceptKnown(env, s, u, found.value);
    } else {
      WAcceptNew(env, s, u, newKey);
    }
  }

  lemma WWithMetric(s: Slot<Key>, k: Key, refmetric: nat, cost: nat, addMetric: nat, seqno: int)
    requires Valid(s) && InWindow(s) && k in s.tab && Near(seqno, s.srcs[s.tab[k].src].seqno)
    ensures WithMetric(WSlot(s), k, refmetric, cost, addMetric, Wrap(seqno))
            == WSlot(WithMetric(s, k, refmetric, cost, addMetric, seqno))
    ensures Valid(WithMetric(s, k, refmetric, cost, addMetric, seqno))
    ensures InWindow(WithMetric(s, k, refmetric, cost, addMetric, seqno))
  {
    var a := WithMetric(WSlot(s), k, refmetric, cost, addMetric, Wrap(seqno));
    var b := WSlot(WithMetric(s, k, refmetric, cost, addMetric, seqno));
    assert a.tab == b.tab;
  }

  lemma WRemetric(env: Env, s: Slot<Key>, k: Key, refmetric: nat, cost: nat, addMetric: nat, seqno: int)
    requires env.arith.Exact? && Valid(s) && InWindow(s) && k in s.tab && Near(seqno, s.srcs[s.tab[k].src].seqno)
    ensures Valid(WSlot(s))
    ensures Remetric(WEnv(env), WSlot(s), k, refmetric, cost, addMetric, Wrap(seqno))
            == WSlot(Remetric(env, s, k, refmetric, cost, addMetric, seqno))
  {
    WValid(s);
    WWithMetric(s, k, refmetric, cost, addMetric, seqno);
    WRouteChanged(env, WithMetric(s, k, refmetric, cost, addMetric, seqno), k, Metric(s.tab[k]));
  }

  lemma WUpdateRouteMetric(env: Env, s: Slot<Key>, k: Key, cost: nat, addMetric: nat)
    requires env.arith.Exact? && Valid(s) && InWindow(s) && k in s.tab
    ensures Valid(WSlot(s))
    ensures UpdateRouteMetric(WEnv(env), WSlot(s), k, cost, addMetric)
            == WSlot(UpdateRouteMetric(env, s, k, cost, addMetric))
  {
    WValid(s);
    var r := s.tab[k];
    var t := WSlot(s);
    assert t.tab[k] == WRoute(r) && t.srcs[r.src] == WSource(s.srcs[r.src]);
    if Expired(r, env.now) {
      var seqno := Plus(env.arith, s.srcs[r.src].seqno, 1);
      assert Plus(Wrapped16, t.srcs[r.src].seqno, 1) == Wrap(seqno) by {
        StoredPlus(Wrapped16, s.srcs[r.src].seqno, 1);
      }
      WRemetric(env, s, k, INFINITY, INFINITY, 0, seqno);
    } else {
      WRemetric(env, s, k, r.refmetric, cost, addMetric, r.seqno);
    }
  }

  lemma WRetract(env: Env, s: Slot<Key>, k: Key)
    requires env.arith.Exact? && Valid(s) && InWindow(s) && k in s.tab
    ensures Valid(WSlot(s))
    ensures Retract(WEnv(env), WSlot(s), k) == WSlot(Retract(env, s, k))
  {
    WValid(s);
    WRemetric(env, s, k, INFINITY, INFINITY, 0, s.tab[k].seqno);
  }

  lemma WUnlink(s: Slot<Key>, k: Key)
    requires k in s.tab
    ensures Unlink(WSlot(s), k) == WSlot(Unlink(s, k))
  {
    assert Unlink(WSlot(s), k).tab == WSlot(Unlink(s, k)).tab;
  }

  lemma WUninstall(s: Slot<Key>)
    requires Valid(s)
    ensures Valid(WSlot(s)) && Uninstall(WSlot(s)) == WSlot(Uninstall(s))
  {
    WValid(s);
    if Installed(s).Some? {
      WSetInstalled(s, Installed(s).value, false);
    }
  }

  // ----- steps and runs commute with wrapping

  lemma WNodeOf(net: Net, n: RouterId)
    requires n in net.nodes
    ensures n in WNet(net).nodes && WNet(net).nodes[n] == WNode(net.nodes[n])
  {
  }

  lemma WHeard(sent: set<Msg>, m: Msg)
    requires m in sent
    ensures WMsg(m) in WSent(sent)
  {
  }

  lemma WKeys(s: Slot<Key>, k: Key)
    ensures k in WSlot(s).tab <==> k in s.tab
  {
  }

  lemma WEnabled(net: Net, e: Event)
    requires Enabled(net, e) && Valid(net.nodes[e.n].slot)
    ensures Enabled(WNet(net), WEvent(e)) && Valid(WNet(net).nodes[e.n].slot)
    ensures net.arith.Exact? ==> EnvOf(WNet(net), e.n, e.now) == WEnv(EnvOf(net, e.n, e.now))
  {
    WNodeOf(net, e.n);
    WValid(net.nodes[e.n].slot);
    if e.Deliver? {
      WHeard(net.sent, e.msg);
      WKeys(net.nodes[e.n].slot, e.newKey);
    } else if e.LinkChange? || e.RetractRoute? || e.FlushRoute? {
      WKeys(net.nodes[e.n].slot, e.k);
    }
  }

  lemma WLocal(net: Net, e: Event)
    requires net.arith.Exact? && Enabled(net, e) && !e.Send? && Valid(net.nodes[e.n].slot) && NearStep(net, e)
    ensures Enabled(WNet(net), WEvent(e)) && Valid(WNet(net).nodes[e.n].slot)
    ensures Local(WNet(net), WEvent(e)) == WNode(Local(net, e))
  {
    WEnabled(net, e);
    if e.Deliver? {
      WDeliver(net, e);
    } else {
      WOther(net, e);
    }
  }

  lemma WDeliver(net: Net, e: Event)
    requires net.arith.Exact? && Enabled(net, e) && e.Deliver? && Valid(net.nodes[e.n].slot) && NearStep(net, e)
    requires Enabled(WNet(net), WEvent(e)) && Valid(WNet(net).nodes[e.n].slot)
    requires EnvOf(WNet(net), e.n, e.now) == WEnv(EnvOf(net, e.n, e.now))
    ensures Local(WNet(net), WEvent(e)) == WNode(Local(net, e))
  {
    WAccept(EnvOf(net, e.n, e.now), net.nodes[e.n].slot, UpdateOf(e), e.newKey);
  }

  lemma WOther(net: Net, e: Event)
    requires net.arith.Exact? && Enabled(net, e) && !e.Send? && !e.Deliver?
    requires Valid(net.nodes[e.n].slot) && NearStep(net, e)
    requires Enabled(WNet(net), WEvent(e)) && Valid(WNet(net).nodes[e.n].slot)
    requires EnvOf(WNet(net), e.n, e.now) == WEnv(EnvOf(net, e.n, e.now))
    ensures Local(WNet(net), WEvent(e)) == WNode(Local(net, e))
  {
    WNodeOf(net, e.n);
    if e.Lost? || e.LinkChange? || e.RetractRoute? {
      WReselects(net, e);
    } else if e.FlushRoute? {
      WUnlink(net.nodes[e.n].slot, e.k);
    } else if e.AddXroute? {
      WUninstall(net.nodes[e.n].slot);
    } else if e.BumpSeqno? {
      StoredPlus(Wrapped16, net.nodes[e.n].myseqno, 1);
    }
  }

  lemma WReselects(net: Net, e: Event)
    requires net.arith.Exact? && Enabled(net, e) && (e.Lost? || e.LinkChange? || e.RetractRoute?)
    requires Valid(net.nodes[e.n].slot) && NearStep(net, e) && Enabled(WNet(net), e)
    requires WNet(net).nodes[e.n] == WNode(net.nodes[e.n]) && Valid(WNet(net).nodes[e.n].slot)
    requires EnvOf(WNet(net), e.n, e.now) == WEnv(EnvOf(net, e.n, e.now))
    ensures Local(WNet(net), e) == WNode(Local(net, e))
  {
    var s, env := net.nodes[e.n].slot, EnvOf(net, e.n, e.now);
    if e.Lost? {
      WRouteLost(env, s);
    } else if e.LinkChange? {
      WUpdateRouteMetric(env, s, e.k, e.cost, e.addMetric);
    } else {
      WRetract(env, s, e.k);
    }
  }

  lemma WUpdateSource(src: Source, seqno: int, metric: nat, now: int)
    requires Near(seqno, src.seqno)
    ensures UpdateSource(Wrapped16, WSource(src), Wrap(seqno), metric, now)
            == WSource(UpdateSource(Exact, src, seqno, metric, now))
  {
    StoredAgrees(Wrapped16, src.seqno, seqno);
  }

  lemma WUpdatedSources(srcs: map<RouterId, Source>, id: RouterId, seqno: int, metric: nat, now: int)
    requires id in srcs && Near(seqno, srcs[id].seqno)
    ensures WSources(srcs)[id := UpdateSource(Wrapped16, WSources(srcs)[id], Wrap(seqno), metric, now)]
            == WSources(srcs[id := UpdateSource(Exact, srcs[id], seqno, metric, now)])
  {
    WUpdateSource(srcs[id], seqno, metric, now);
  }

  lemma WFlushed(net: Net, e: Event)
    requires net.arith.Exact? && Enabled(net, e) && e.Send? && Valid(net.nodes[e.n].slot) && NearStep(net, e)
    ensures Enabled(WNet(net), e) && Valid(WNet(net).nodes[e.n].slot)
    ensures Flushed(WNet(net), e).0 == WNode(Flushed(net, e).0)
    ensures Flushed(WNet(net), e).1 == WOut(Flushed(net, e).1)
  {
    WEnabled(net, e);
    WNodeOf(net, e.n);
    var x := net.nodes[e.n];
    WValid(x.slot);
    var inst := Installed(x.slot);
    if !AnnouncesItself(x) && inst.Some? && !e.splitHorizon {
      WFlushedRoute(net, e, inst.value);
    }
  }

  function WOut(out: Option<Msg>): Option<Msg> {
    if out.Some? then Some(WMsg(out.value)) else None
  }

  /** The case in which the installed route is advertised. */
  lemma WFlushedRoute(net: Net, e: Event, k: Key)
    requires net.arith.Exact? && Enabled(net, e) && e.Send? && Valid(net.nodes[e.n].slot) && NearStep(net, e)
    requires Enabled(WNet(net), e) && Valid(WSlot(net.nodes[e.n].slot)) && WNet(net).nodes[e.n] == WNode(net.nodes[e.n])
    requires Installed(net.nodes[e.n].slot) == Some(k) && Installed(WSlot(net.nodes[e.n].slot)) == Some(k)
    requires !AnnouncesItself(net.nodes[e.n]) && !e.splitHorizon
    ensures Flushed(WNet(net), e).0 == WNode(Flushed(net, e).0)
    ensures Flushed(WNet(net), e).1 == WOut(Flushed(net, e).1)
  {
    var x := net.nodes[e.n];
    var r := x.slot.tab[k];
    assert Advertised(WRoute(r), x.cfg, e.interferes) == Advertised(r, x.cfg, e.interferes);
    WUpdatedSources(x.slot.srcs, r.src, r.seqno, Advertised(r, x.cfg, e.interferes), e.now);
  }

  lemma WNodes(net: Net, n: RouterId, x: Node)
    requires n in net.nodes
    ensures WNet(net.(nodes := net.nodes[n := x])).nodes == WNet(net).nodes[n := WNode(x)]
  {
  }

  lemma WSentAdd(sent: set<Msg>, m: Msg)
    ensures WSent(sent + {m}) == WSent(sent) + {WMsg(m)}
  {
    forall x | x in WSent(sent) + {WMsg(m)} ensures x in WSent(sent + {m}) {
      if x in WSent(sent) {
        var y :| y in sent && WMsg(y) == x;
        assert y in sent + {m};
      } else {
        assert m in sent + {m};
      }
    }
  }

  lemma WStep(net: Net, e: Event)
    requires net.arith.Exact? && Enabled(net, e) && Valid(net.nodes[e.n].slot) && NearStep(net, e)
    ensures Enabled(WNet(net), WEvent(e)) && Valid(WNet(net).nodes[e.n].slot)
    ensures Step(WNet(net), WEvent(e)) == WNet(Step(net, e))
  {
    if e.Send? {
      WStepSend(net, e);
    } else {
      WLocal(net, e);
      WNodes(net, e.n, Local(net, e));
    }
  }

  lemma WStepSend(net: Net, e: Event)
    requires net.arith.Exact? && Enabled(net, e) && Valid(net.nodes[e.n].slot) && NearStep(net, e) && e.Send?
    ensures Enabled(WNet(net), e) && Valid(WNet(net).nodes[e.n].slot)
    ensures Step(WNet(net), e) == WNet(Step(net, e))
  {
    WFlushed(net, e);
    WNodes(net, e.n, Flushed(net, e).0);
    if Flushed(net, e).1.Some? {
      WSentAdd(net.sent, Flushed(net, e).1.value);
    }
  }

  /** The states of a 16-bit network under a list of events. */
  ghost predicate Runs16(net: Net, es: seq<Event>)
    decreases |es|
  {
    es == [] || (Enabled(net, es[0]) && Valid(net.nodes[es[0].n].slot) && Runs16(Step(net, es[0]), es[1..]))
  }

  ghost function Final16(net: Net, es: seq<Event>): Net
    requires Runs16(net, es)
    decreases |es|
  {
    if es == [] then net else Final16(Step(net, es[0]), es[1..])
  }

  function WEvents(es: seq<Event>): (r: seq<Event>)
    ensures |r| == |es|
  {
    if es == [] then [] else [WEvent(es[0])] + WEvents(es[1..])
  }

  ghost predicate NearRun(w: World, es: seq<Event>)
    requires AllValid(w.net) && Runs(w, es)
    decreases |es|
  {
    es == [] || (NearStep(w.net, es[0]) && (NextValid(w, es[0]); NearRun(Next(w, es[0]), es[1..])))
  }

  /** The 16-bit run is the residue of the unbounded run. */
  lemma {:induction false} WRun(w: World, es: seq<Event>)
    requires w.net.arith.Exact? && AllValid(w.net) && Runs(w, es) && NearRun(w, es)
    ensures Runs16(WNet(w.net), WEvents(es))
    ensures Final16(WNet(w.net), WEvents(es)) == WNet(Final(w, es).net)
    decreases |es|
  {
    if es != [] {
      WStep(w.net, es[0]);
      NextValid(w, es[0]);
      WRun(Next(w, es[0]), es[1..]);
      assert WEvents(es)[0] == WEvent(es[0]) && WEvents(es)[1..] == WEvents(es[1..]);
    }
  }

  lemma WForwards(net: Net, id: RouterId, a: RouterId, b: RouterId)
    ensures Forwards(WNet(net), id, a, b) ==> Forwards(net, id, a, b)
  {
    if Forwards(WNet(net), id, a, b) {
      var tab := WNet(net).nodes[a].slot.tab;
      var k :| k in tab && IsEdge(tab[k], id, b) && tab[k].refmetric < INFINITY;
      assert IsEdge(net.nodes[a].slot.tab[k], id, b);
    }
  }

  /** No reachable state of the 16-bit network has a loop of finite routes of one source. */
  lemma LoopFree16(w: World, es: seq<Event>)
    requires Initial(w) && Runs(w, es) && NearRun(w, es)
    ensures Runs16(WNet(w.net), WEvents(es))
    ensures forall id, p :: !ForwardingLoop(Final16(WNet(w.net), WEvents(es)), id, p)
  {
    WRun(w, es);
    LoopFree(w, es);
    var v := Final(w, es).net;
    forall id, p ensures !ForwardingLoop(WNet(v), id, p) {
      forall a, b ensures Forwards(WNet(v), id, a, b) ==> Forwards(v, id, a, b) {
        WForwards(v, id, a, b);
      }
      assert !ForwardingLoop(v, id, p);
    }
  }
}
