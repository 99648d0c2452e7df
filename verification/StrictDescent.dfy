/**
 * The protocol's own form of the loop-freedom invariant: along installed routes the
 * feasibility distance strictly improves, provided no link is free.
 */
module StrictDescent {
  import opened Basics
  import opened SeqNo
  import opened Selection
  import opened Network
  import opened LoopFreedom
  import opened Scenario

  /** The next hop's feasibility distance is strictly better than the router's own. */
  ghost predicate StrictlyDescends(net: Net, n: RouterId, r: Route) {
    Better(FD(net, r.neigh.router, r.src), FD(net, n, r.src))
  }

  ghost predicate AllStrict(net: Net, t: Taint) {
    forall n, k :: n in net.nodes && k in net.nodes[n].slot.tab && net.nodes[n].slot.tab[k].installed && (n, k) !in t
      ==> StrictlyDescends(net, n, net.nodes[n].slot.tab[k])
  }

  // ----- the condition on costs

  /** The route costs something, or is advertised where it does not interfere. */
  predicate Costs(cost: nat, addMetric: nat, interferes: bool) {
    !interferes || cost + addMetric > 0
  }

  lemma AdvertisedFarther(r: Route, cfg: Config, interferes: bool)
    requires r.refmetric < INFINITY
    ensures r.refmetric < Advertised(r, cfg, interferes) <==> Costs(r.cost, r.addMetric, interferes)
  {
  }

  /** Whether the event advertises the installed route `k`. */
  predicate Sends(net: Net, e: Event, k: Key)
    requires Enabled(net, e) && Valid(net.nodes[e.n].slot)
  {
    e.Send? && !AnnouncesItself(net.nodes[e.n]) && !e.splitHorizon && Installed(net.nodes[e.n].slot) == Some(k)
  }

  /** If the event advertises a finite route, that route is not free. */
  predicate PositiveCost(net: Net, e: Event)
    requires Enabled(net, e) && Valid(net.nodes[e.n].slot)
  {
    forall k :: k in net.nodes[e.n].slot.tab && Sends(net, e, k) ==> NotFree(net.nodes[e.n].slot.tab[k], e)
  }

  predicate NotFree(r: Route, e: Event)
    requires e.Send?
  {
    r.refmetric >= INFINITY || Costs(r.cost, r.addMetric, e.interferes)
  }

  /** A record that a route beats is still beaten after advertising it, if and only if the route is not free. */
  lemma BeatenExactly(src: Source, r: Route, cfg: Config, interferes: bool, now: int)
    requires r.refmetric < INFINITY && Improves(Exact, r.seqno, r.refmetric, src)
    ensures Improves(Exact, r.seqno, r.refmetric,
                     UpdateSource(Exact, src, r.seqno, Advertised(r, cfg, interferes), now))
            <==> Costs(r.cost, r.addMetric, interferes)
  {
    AdvertisedFarther(r, cfg, interferes);
  }

  /**
   * Advertising a route that beats its source keeps the descent along it strict if and only if
   * the route is not free, or the next hop has improved since it was heard.
   */
  lemma SendStrictExactly(net: Net, t: Taint, e: Event, k: Key)
    requires Enabled(net, e) && Inv(net, t) && Sends(net, e, k)
    requires var r := net.nodes[e.n].slot.tab[k];
             && r.refmetric < INFINITY && r.neigh.router != e.n
             && Improves(Exact, r.seqno, r.refmetric, net.nodes[e.n].slot.srcs[r.src])
    ensures var r := net.nodes[e.n].slot.tab[k];
            StrictlyDescends(Step(net, e), e.n, r) <==>
            Costs(r.cost, r.addMetric, e.interferes) || Better(FD(net, r.neigh.router, r.src), Heard(r))
  {
    var x := net.nodes[e.n];
    var r := x.slot.tab[k];
    BeatenExactly(x.slot.srcs[r.src], r, x.cfg, e.interferes, e.now);
    AdvertisedFarther(r, x.cfg, e.interferes);
    assert Honest(net, r);
    assert FD(Step(net, e), r.neigh.router, r.src) == FD(net, r.neigh.router, r.src);
  }

  // ----- every step keeps the descent strict

  lemma FlushedStrict(net: Net, t: Taint, e: Event, k: Key)
    requires Enabled(net, e) && e.Send? && SlotsValid(net) && net.arith.Exact?
    requires AdvertisesBetter(net, e) && PositiveCost(net, e)
    requires k in net.nodes[e.n].slot.tab && net.nodes[e.n].slot.tab[k].installed && (e.n, k) !in t
    ensures k in Flushed(net, e).0.slot.tab
    ensures Unmoved(e.n, net.nodes[e.n], Flushed(net, e).0, t, k) || NewAnchor(e.n, Flushed(net, e).0, k)
  {
    var x := net.nodes[e.n];
    OnlyHeadInstalled(x.slot);
    FlushedTable(net, e);
    var r := x.slot.tab[k];
    if Sends(net, e, k) && r.refmetric < INFINITY {
      assert NotFree(r, e);
      AdvertisedFarther(r, x.cfg, e.interferes);
      UpdateSourceImproves(x.slot.srcs[r.src], r.seqno, Advertised(r, x.cfg, e.interferes), e.now);
    }
  }

  /** Installed routes that are not tainted: unmoved, or strictly better than the router's own distance. */
  ghost predicate Anchored(n: RouterId, x: Node, x': Node, t: Taint, t': Taint) {
    forall k :: k in x'.slot.tab && x'.slot.tab[k].installed && (n, k) !in t' ==>
      Unmoved(n, x, x', t, k) || NewAnchor(n, x', k)
  }

  lemma FlushedAnchored(net: Net, t: Taint, e: Event)
    requires Enabled(net, e) && e.Send? && Inv(net, t) && AdvertisesBetter(net, e) && PositiveCost(net, e)
    ensures Anchored(e.n, net.nodes[e.n], Flushed(net, e).0, t, NextTaint(net, Step(net, e), e.n, t))
  {
    var x, x', t' := net.nodes[e.n], Flushed(net, e).0, NextTaint(net, Step(net, e), e.n, t);
    TaintAtNode(net, t, e.n);
    FlushedTable(net, e);
    forall k | k in x'.slot.tab && x'.slot.tab[k].installed && (e.n, k) !in t'
      ensures Unmoved(e.n, x, x', t, k) || NewAnchor(e.n, x', k)
    {
      assert (e.n, k) !in t;
      FlushedStrict(net, t, e, k);
    }
  }

  lemma NextAnchored(w: World, e: Event)
    requires Inv(w.net, w.taint) && AllValid(w.net) && Allowed(w, e) && PositiveCost(w.net, e)
    ensures Anchored(e.n, w.net.nodes[e.n], Next(w, e).net.nodes[e.n], w.taint, Next(w, e).taint)
  {
    if e.Send? {
      FlushedAnchored(w.net, w.taint, e);
    } else {
      LocalAnchors(w.net, w.taint, e);
    }
  }

  lemma BetterTransitive(a: Distance, b: Distance, c: Distance)
    requires AsGood(a, b) && Better(b, c)
    ensures Better(a, c)
  {
  }

  lemma KeepsStrict(net: Net, net': Net, n: RouterId, t: Taint, t': Taint)
    requires AllStrict(net, t) && NoLiesInTables(net') && n in net.nodes && n in net'.nodes
    requires net'.nodes == net.nodes[n := net'.nodes[n]] && t' == NextTaint(net, net', n, t)
    requires forall b, id :: AsGood(FD(net', b, id), FD(net, b, id))
    requires Anchored(n, net.nodes[n], net'.nodes[n], t, t')
    ensures AllStrict(net', t')
  {
    forall a, k | a in net'.nodes && k in net'.nodes[a].slot.tab && net'.nodes[a].slot.tab[k].installed && (a, k) !in t'
      ensures StrictlyDescends(net', a, net'.nodes[a].slot.tab[k])
    {
      var r := net'.nodes[a].slot.tab[k];
      if a != n {
        assert (a, k) !in t;
        KeptStrict(net, net', t, a, k);
      } else if Unmoved(n, net.nodes[n], net'.nodes[n], t, k) {
        KeptStrict(net, net', t, n, k);
      } else {
        assert Honest(net', r);
        BetterTransitive(FD(net', r.neigh.router, r.src), Heard(r), FD(net', n, r.src));
      }
    }
  }

  /** A route that was installed before, at a router whose own distance did not move. */
  lemma KeptStrict(net: Net, net': Net, t: Taint, a: RouterId, k: Key)
    requires AllStrict(net, t) && a in net.nodes && a in net'.nodes && (a, k) !in t
    requires forall b, id :: AsGood(FD(net', b, id), FD(net, b, id))
    requires k in net'.nodes[a].slot.tab && WasInstalled(net.nodes[a].slot, k, net'.nodes[a].slot.tab[k])
    requires var id := net'.nodes[a].slot.tab[k].src; FD(net', a, id) == FD(net, a, id)
    ensures StrictlyDescends(net', a, net'.nodes[a].slot.tab[k])
  {
    var r := net'.nodes[a].slot.tab[k];
    assert StrictlyDescends(net, a, net.nodes[a].slot.tab[k]);
    BetterTransitive(FD(net', r.neigh.router, r.src), FD(net, r.neigh.router, r.src), FD(net, a, r.src));
  }

  lemma NextStrict(w: World, e: Event)
    requires Inv(w.net, w.taint) && AllValid(w.net) && Allowed(w, e)
    requires PositiveCost(w.net, e) && AllStrict(w.net, w.taint)
    ensures AllStrict(Next(w, e).net, Next(w, e).taint)
  {
    NextInv(w, e);
    NextAnchored(w, e);
    KeepsStrict(w.net, Next(w, e).net, e.n, w.taint, Next(w, e).taint);
  }

  // ----- runs

  /** Runs in which no free route is advertised. */
  ghost predicate PositiveRun(w: World, es: seq<Event>)
    requires AllValid(w.net) && Runs(w, es)
    decreases |es|
  {
    es == [] || (PositiveCost(w.net, es[0]) && (NextValid(w, es[0]); PositiveRun(Next(w, es[0]), es[1..])))
  }

  lemma {:induction false} RunStrict(w: World, es: seq<Event>)
    requires AllValid(w.net) && Runs(w, es) && PositiveRun(w, es) && Inv(w.net, w.taint) && AllStrict(w.net, w.taint)
    ensures AllStrict(Final(w, es).net, Final(w, es).taint)
    decreases |es|
  {
    if es != [] {
      NextInv(w, es[0]);
      NextStrict(w, es[0]);
      NextValid(w, es[0]);
      RunStrict(Next(w, es[0]), es[1..]);
    }
  }

  /** In every reachable state the feasibility distance strictly improves along every installed finite route. */
  lemma StrictEverywhere(w: World, es: seq<Event>, n: RouterId, k: Key)
    requires Initial(w) && AllValid(w.net) && Runs(w, es) && PositiveRun(w, es)
    requires n in Final(w, es).net.nodes && k in Final(w, es).net.nodes[n].slot.tab
    requires var r := Final(w, es).net.nodes[n].slot.tab[k]; r.installed && r.refmetric < INFINITY
    ensures StrictlyDescends(Final(w, es).net, n, Final(w, es).net.nodes[n].slot.tab[k])
  {
    InitialInv(w);
    RunStrict(w, es);
    RunInv(w, es);
    TaintAtNode(Final(w, es).net, Final(w, es).taint, n);
  }

  // ----- the condition is exact

  /** A network in which distances strictly improve is about to advertise a route of these numbers. */
  ghost predicate Advertising(w: World, e: Event, refmetric: nat, cost: nat, addMetric: nat, interferes: bool) {
    && AllValid(w.net) && Inv(w.net, w.taint) && AllStrict(w.net, w.taint) && Allowed(w, e)
    && e.Send? && e.interferes == interferes
    && exists k :: k in w.net.nodes[e.n].slot.tab && Sends(w.net, e, k)
                   && Numbers(w.net.nodes[e.n].slot.tab[k], refmetric, cost, addMetric)
  }

  predicate Numbers(r: Route, refmetric: nat, cost: nat, addMetric: nat) {
    r.refmetric == refmetric && r.cost == cost && r.addMetric == addMetric
  }

  lemma AdvertisingPositive(w: World, e: Event, refmetric: nat, cost: nat, addMetric: nat, interferes: bool)
    requires Advertising(w, e, refmetric, cost, addMetric, interferes)
    requires refmetric >= INFINITY || Costs(cost, addMetric, interferes)
    ensures PositiveCost(w.net, e)
  {
  }

  /** Router 0 holds a free route to router 1, which is exactly as far from source 2 as the route says. */
  function Free(refmetric: nat): World {
    World(Net(Exact,
              map[0 := At(Slot([0], map[0 := FreeRoute(refmetric)], map[2 := Source(0, INFINITY, 0)]), None),
                  1 := At(Slot([], map[], map[2 := Source(0, refmetric, 0)]), None)],
              {}),
          {})
  }

  function FreeRoute(refmetric: nat): Route {
    Route(2, refmetric, 0, 0, 0, Neighbour(1, 0), HOP, 0, 15, true)
  }

  lemma FreeHolds(refmetric: nat)
    requires refmetric < INFINITY
    ensures var w := Free(refmetric); AllValid(w.net) && Inv(w.net, {}) && AllStrict(w.net, {})
  {
    var w := Free(refmetric);
    assert w.net.nodes[0].slot.order == [0];
    FreeAcyclic(refmetric);
    FreeStrict(refmetric);
    StrictDescends(w.net, {});
  }

  lemma FreeStrict(refmetric: nat)
    requires refmetric < INFINITY
    ensures NoLiesInTables(Free(refmetric).net) && AllStrict(Free(refmetric).net, {})
  {
  }

  lemma StrictDescends(net: Net, t: Taint)
    requires AllStrict(net, t)
    ensures AllDescend(net, t)
  {
    forall n, k | n in net.nodes && k in net.nodes[n].slot.tab && net.nodes[n].slot.tab[k].installed && (n, k) !in t
      ensures Descends(net, n, net.nodes[n].slot.tab[k])
    {
      assert StrictlyDescends(net, n, net.nodes[n].slot.tab[k]);
    }
  }

  lemma FreeAcyclic(refmetric: nat)
    ensures Acyclic(Free(refmetric).net, {})
  {
    var net := Free(refmetric).net;
    forall id, p ensures !IsCycle(net, {}, id, p) {
      if |p| >= 2 {
        assert forall b :: !Edge(net, {}, id, 1, b);
        assert Edge(net, {}, id, p[0], p[0 + 1]) ==> p[0] == 0 && p[1] == 1;
        if |p| >= 3 {
          assert !Edge(net, {}, id, p[1], p[1 + 1]) || p[1] == 0;
        }
      }
    }
  }

  /** Advertising it leaves router 0 exactly as far from the source as its next hop. */
  lemma FreeTies(refmetric: nat)
    requires refmetric < INFINITY
    ensures Advertising(Free(refmetric), Tell(0), refmetric, 0, 0, true)
    ensures var w' := Next(Free(refmetric), Tell(0)); !AllStrict(w'.net, w'.taint)
  {
    var w := Free(refmetric);
    FreeHolds(refmetric);
    FreshGuarded(w.net, Tell(0));
    assert Installed(w.net.nodes[0].slot) == Some(0) && Sends(w.net, Tell(0), 0);
    var w' := Next(w, Tell(0));
    FreeNext(refmetric);
    assert !StrictlyDescends(w'.net, 0, w'.net.nodes[0].slot.tab[0]);
  }

  lemma FreeNext(refmetric: nat)
    requires refmetric < INFINITY && AllValid(Free(refmetric).net)
    ensures var w' := Next(Free(refmetric), Tell(0));
            && 0 in w'.net.nodes && 0 in w'.net.nodes[0].slot.tab && w'.net.nodes[0].slot.tab[0] == FreeRoute(refmetric)
            && (0, 0) !in w'.taint
            && FD(w'.net, 0, 2) == Distance(0, refmetric) && FD(w'.net, 1, 2) == Distance(0, refmetric)
  {
    var w := Free(refmetric);
    Tells(w.net, 0, w.net.nodes[0].slot, 0);
  }

  /**
   * The condition is exact: advertising a route of these numbers keeps the descent strict in
   * every network where it was if and only if the route is retracted or not free.
   */
  lemma StrictExactly(refmetric: nat, cost: nat, addMetric: nat, interferes: bool)
    ensures (forall w, e :: Advertising(w, e, refmetric, cost, addMetric, interferes) ==>
                              AllStrict(Next(w, e).net, Next(w, e).taint))
            <==> (refmetric >= INFINITY || Costs(cost, addMetric, interferes))
  {
    if refmetric >= INFINITY || Costs(cost, addMetric, interferes) {
      forall w, e | Advertising(w, e, refmetric, cost, addMetric, interferes)
        ensures AllStrict(Next(w, e).net, Next(w, e).taint)
      {
        AdvertisingPositive(w, e, refmetric, cost, addMetric, interferes);
        NextStrict(w, e);
      }
    } else {
      FreeTies(refmetric);
    }
  }

  // ----- a run that ties

  const FREE: Slot<Key> := Slot([0], map[0 := Via(1, 0, 0, true)], Src(INFINITY))

  lemma NHearsForFree()
    ensures Reached(State(EMPTY, EMPTY, M1)) ==> Reached(State(FREE, EMPTY, M1))
  {
    FirstRoute(2, map[], FROM_SOURCE, 0);
    SameSlot(Accept(Own(2, 0), EMPTY, Said(FROM_SOURCE, 0), 0), FREE);
    NHears(EMPTY, FREE, EMPTY, M1, FROM_SOURCE, 0, 0);
  }

  lemma FreeReached()
    ensures Initial(START) && Reached(State(FREE, EMPTY, M1))
  {
    StartInitial();
    InitialInv(START);
    ReachesSelf(START);
    SourceTells();
    NHearsForFree();
  }

  lemma FreeStart()
    ensures AllStrict(State(FREE, EMPTY, M1), {})
  {
  }

  lemma FreeTold()
    ensures var w := World(State(FREE, EMPTY, M1), {});
            && Valid(FREE) && Enabled(w.net, Tell(2)) && SourcesFresh(w.net, Tell(2))
            && !AllStrict(Next(w, Tell(2)).net, Next(w, Tell(2)).taint)
  {
    var w := World(State(FREE, EMPTY, M1), {});
    assert Valid(FREE) && Installed(FREE) == Some(0);
    Tells(w.net, 2, FREE, 0);
    var w' := Next(w, Tell(2));
    assert w'.net.nodes[2].slot.tab[0] == Via(1, 0, 0, true) && (2, 0) !in w'.taint;
    assert !StrictlyDescends(w'.net, 2, w'.net.nodes[2].slot.tab[0]);
  }

  /** The neighbour's cost is 0: router 2 advertises itself as near as the source itself. */
  lemma FreeRouteCanTie() returns (w: World, e: Event)
    ensures Initial(START) && Reaches(START, w) && AllStrict(w.net, w.taint) && Allowed(w, e)
    ensures !AllStrict(Next(w, e).net, Next(w, e).taint)
  {
    w, e := World(State(FREE, EMPTY, M1), {}), Tell(2);
    FreeReached();
    FreeStart();
    FreeTold();
    FreshGuarded(w.net, e);
  }
}
