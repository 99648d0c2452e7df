/**
 * The forwarding graph of every source is loop-free in every reachable state (section 2.4 of
 * RFC 6126), and feasibility distances never claim more than the router ever advertised.
 */
module LoopFreedom {
  import opened Basics
  import opened SeqNo
  import opened Selection
  import opened Network

  // ----- the invariant

  /** Router `a` forwards packets for source `id` to router `b`. */
  ghost predicate Edge(net: Net, t: Taint, id: RouterId, a: RouterId, b: RouterId) {
    a in net.nodes && exists k :: k in net.nodes[a].slot.tab && IsEdge(net.nodes[a].slot.tab[k], id, b) && (a, k) !in t
  }

  predicate IsEdge(r: Route, id: RouterId, b: RouterId) {
    r.installed && r.src == id && r.neigh.router == b
  }

  ghost predicate IsCycle(net: Net, t: Taint, id: RouterId, p: seq<RouterId>) {
    && |p| >= 2 && p[0] == p[|p| - 1]
    && forall i :: 0 <= i < |p| - 1 ==> Edge(net, t, id, p[i], p[i + 1])
  }

  function Heard(r: Route): Distance {
    Distance(r.seqno, r.refmetric)
  }

  ghost predicate NoLiesInFlight(net: Net) {
    forall m :: m in net.sent && m.metric < INFINITY ==> AsGood(FD(net, m.from, m.id), Distance(m.seqno, m.metric))
  }

  /** What a route entry says is no better than its neighbour's current feasibility distance. */
  ghost predicate Honest(net: Net, r: Route) {
    r.refmetric < INFINITY ==> AsGood(FD(net, r.neigh.router, r.src), Heard(r))
  }

  ghost predicate NoLiesInTables(net: Net) {
    forall n, k :: n in net.nodes && k in net.nodes[n].slot.tab ==> Honest(net, net.nodes[n].slot.tab[k])
  }

  /** The next hop's feasibility distance is at least as good as the router's own. */
  ghost predicate Descends(net: Net, n: RouterId, r: Route) {
    AsGood(FD(net, r.neigh.router, r.src), FD(net, n, r.src))
  }

  ghost predicate AllDescend(net: Net, t: Taint) {
    forall n, k :: n in net.nodes && k in net.nodes[n].slot.tab && net.nodes[n].slot.tab[k].installed && (n, k) !in t
      ==> Descends(net, n, net.nodes[n].slot.tab[k])
  }

  ghost predicate Acyclic(net: Net, t: Taint) {
    forall id, p :: !IsCycle(net, t, id, p)
  }

  predicate TaintOk(net: Net, t: Taint) {
    forall p :: p in t ==> p.0 in net.nodes && p.1 in net.nodes[p.0].slot.tab
                           && net.nodes[p.0].slot.tab[p.1].installed
                           && net.nodes[p.0].slot.tab[p.1].refmetric >= INFINITY
  }

  ghost predicate SlotsValid(net: Net) {
    forall n :: n in net.nodes ==> SlotOk(n, net.nodes[n].slot)
  }

  ghost predicate SlotOk(n: RouterId, s: Slot<Key>) {
    Valid(s) && forall k :: k in s.tab ==> s.tab[k].src != n
  }

  ghost predicate AllValid(net: Net) {
    forall n :: n in net.nodes ==> Valid(net.nodes[n].slot)
  }

  ghost predicate Inv(net: Net, t: Taint) {
    && net.arith.Exact?
    && SlotsValid(net)
    && TaintOk(net, t)
    && NoLiesInFlight(net)
    && NoLiesInTables(net)
    && AllDescend(net, t)
    && Acyclic(net, t)
  }

  // ----- what a step does at the router that takes it

  /** An installed route that stays; if the router's own distance moved, the route's entry explains it. */
  ghost predicate KeptAnchor(n: RouterId, x: Node, x': Node, t: Taint, k: Key)
    requires k in x'.slot.tab
  {
    var r := x'.slot.tab[k];
    && WasInstalled(x.slot, k, r) && (n, k) !in t
    && (NodeFD(n, x', r.src) == NodeFD(n, x, r.src)
        || (r.refmetric < INFINITY && AsGood(Heard(r), NodeFD(n, x', r.src))))
  }

  /** A newly installed route is strictly better than the router's own distance. */
  ghost predicate NewAnchor(n: RouterId, x': Node, k: Key)
    requires k in x'.slot.tab
  {
    var r := x'.slot.tab[k];
    r.refmetric < INFINITY && Better(Heard(r), NodeFD(n, x', r.src))
  }

  ghost predicate Learned(x: Node, k: Key, r: Route, heard: Option<Msg>) {
    r.refmetric < INFINITY ==>
      || (k in x.slot.tab && x.slot.tab[k].refmetric < INFINITY && Heard(x.slot.tab[k]) == Heard(r)
          && x.slot.tab[k].src == r.src && x.slot.tab[k].neigh == r.neigh)
      || (heard.Some? && heard.value == Msg(r.neigh.router, r.src, r.seqno, r.refmetric))
  }

  ghost predicate Improved(n: RouterId, x: Node, x': Node) {
    forall id :: AsGood(NodeFD(n, x', id), NodeFD(n, x, id))
  }

  ghost predicate Truthful(n: RouterId, x': Node, out: Option<Msg>) {
    out.Some? && out.value.metric < INFINITY ==>
      out.value.from == n && AsGood(NodeFD(n, x', out.value.id), Distance(out.value.seqno, out.value.metric))
  }

  ghost predicate LocalStep(n: RouterId, x: Node, x': Node, t: Taint, t': Taint, heard: Option<Msg>, out: Option<Msg>) {
    && SlotOk(n, x'.slot)
    && Improved(n, x, x')
    && (forall k :: k in x'.slot.tab ==> Learned(x, k, x'.slot.tab[k], heard))
    && (forall k :: k in x'.slot.tab && x'.slot.tab[k].installed && (n, k) !in t' ==>
          KeptAnchor(n, x, x', t, k) || NewAnchor(n, x', k))
    && Truthful(n, x', out)
  }

  // ----- a local step keeps the invariant

  ghost predicate Stepped(net: Net, net': Net, n: RouterId, t: Taint, t': Taint, heard: Option<Msg>, out: Option<Msg>) {
    && n in net.nodes && n in net'.nodes
    && net'.arith == net.arith
    && net'.nodes == net.nodes[n := net'.nodes[n]]
    && net'.sent <= net.sent + (if out.Some? then {out.value} else {})
    && (heard.Some? ==> heard.value in net.sent)
    && t' == NextTaint(net, net', n, t)
    && LocalStep(n, net.nodes[n], net'.nodes[n], t, t', heard, out)
  }

  lemma DistancesImprove(net: Net, net': Net, n: RouterId, t: Taint, t': Taint, heard: Option<Msg>, out: Option<Msg>)
    requires Stepped(net, net', n, t, t', heard, out)
    ensures forall b, id :: AsGood(FD(net', b, id), FD(net, b, id))
  {
  }

  lemma AsGoodTransitive(a: Distance, b: Distance, c: Distance)
    requires AsGood(a, b) && AsGood(b, c)
    ensures AsGood(a, c)
  {
  }

  lemma KeepsNoLiesInFlight(net: Net, net': Net, n: RouterId, t: Taint, t': Taint, heard: Option<Msg>, out: Option<Msg>)
    requires Stepped(net, net', n, t, t', heard, out) && NoLiesInFlight(net)
    ensures NoLiesInFlight(net')
  {
    DistancesImprove(net, net', n, t, t', heard, out);
    forall m | m in net'.sent && m.metric < INFINITY
      ensures AsGood(FD(net', m.from, m.id), Distance(m.seqno, m.metric))
    {
      if m in net.sent {
        AsGoodTransitive(FD(net', m.from, m.id), FD(net, m.from, m.id), Distance(m.seqno, m.metric));
      }
    }
  }

  lemma KeepsNoLiesInTables(net: Net, net': Net, n: RouterId, t: Taint, t': Taint, heard: Option<Msg>, out: Option<Msg>)
    requires Stepped(net, net', n, t, t', heard, out) && NoLiesInFlight(net) && NoLiesInTables(net)
    ensures NoLiesInTables(net')
  {
    DistancesImprove(net, net', n, t, t', heard, out);
    forall a, k | a in net'.nodes && k in net'.nodes[a].slot.tab
      ensures Honest(net', net'.nodes[a].slot.tab[k])
    {
      var r := net'.nodes[a].slot.tab[k];
      assert AsGood(FD(net', r.neigh.router, r.src), FD(net, r.neigh.router, r.src));
      if a == n {
        assert Learned(net.nodes[n], k, r, heard);
      } else {
        assert Honest(net, net.nodes[a].slot.tab[k]);
      }
    }
  }

  lemma KeepsDescent(net: Net, net': Net, n: RouterId, t: Taint, t': Taint, heard: Option<Msg>, out: Option<Msg>)
    requires Stepped(net, net', n, t, t', heard, out) && NoLiesInTables(net') && AllDescend(net, t)
    ensures AllDescend(net', t')
  {
    DistancesImprove(net, net', n, t, t', heard, out);
    forall a, k | a in net'.nodes && k in net'.nodes[a].slot.tab && net'.nodes[a].slot.tab[k].installed && (a, k) !in t'
      ensures Descends(net', a, net'.nodes[a].slot.tab[k])
    {
      var r := net'.nodes[a].slot.tab[k];
      assert Honest(net', r);
      assert AsGood(FD(net', r.neigh.router, r.src), FD(net, r.neigh.router, r.src));
      if a != n {
        assert (a, k) !in t;
        assert Descends(net, a, r);
      } else if KeptAnchor(n, net.nodes[n], net'.nodes[n], t, k) {
        assert Descends(net, n, net.nodes[n].slot.tab[k]);
      }
    }
  }

  /** An edge of the new graph is an edge of the old one, or strictly descends. */
  lemma NewEdgesStrict(net: Net, net': Net, n: RouterId, t: Taint, t': Taint, heard: Option<Msg>, out: Option<Msg>,
                       id: RouterId, a: RouterId, b: RouterId)
    requires Stepped(net, net', n, t, t', heard, out) && NoLiesInTables(net')
    requires Edge(net', t', id, a, b)
    ensures Edge(net, t, id, a, b) || Better(FD(net', b, id), FD(net', a, id))
  {
    var k :| k in net'.nodes[a].slot.tab && IsEdge(net'.nodes[a].slot.tab[k], id, b) && (a, k) !in t';
    var r := net'.nodes[a].slot.tab[k];
    assert Honest(net', r);
    if a != n {
      assert (a, k) !in t && IsEdge(net.nodes[a].slot.tab[k], id, b);
    } else if KeptAnchor(n, net.nodes[n], net'.nodes[n], t, k) {
      assert IsEdge(net.nodes[n].slot.tab[k], id, b);
    }
  }

  /** Along a path the distances only get better. */
  lemma {:induction false} PathDescends(net: Net, t: Taint, id: RouterId, p: seq<RouterId>, i: nat, j: nat)
    requires AllDescend(net, t) && i <= j < |p|
    requires forall l :: 0 <= l < |p| - 1 ==> Edge(net, t, id, p[l], p[l + 1])
    ensures AsGood(FD(net, p[j], id), FD(net, p[i], id))
    decreases j - i
  {
    if i < j {
      PathDescends(net, t, id, p, i, j - 1);
      assert Edge(net, t, id, p[j - 1], p[j - 1 + 1]);
      var k :| k in net.nodes[p[j - 1]].slot.tab && IsEdge(net.nodes[p[j - 1]].slot.tab[k], id, p[j])
               && (p[j - 1], k) !in t;
      assert Descends(net, p[j - 1], net.nodes[p[j - 1]].slot.tab[k]);
      AsGoodTransitive(FD(net, p[j], id), FD(net, p[j - 1], id), FD(net, p[i], id));
    }
  }

  /** A cycle cannot contain a strictly descending edge. */
  lemma CycleHasNoStrictEdge(net: Net, t: Taint, id: RouterId, p: seq<RouterId>, i: nat)
    requires AllDescend(net, t) && IsCycle(net, t, id, p) && i < |p| - 1
    ensures !Better(FD(net, p[i + 1], id), FD(net, p[i], id))
  {
    PathDescends(net, t, id, p, 0, i);
    PathDescends(net, t, id, p, i + 1, |p| - 1);
    AsGoodTransitive(FD(net, p[i], id), FD(net, p[0], id), FD(net, p[i + 1], id));
  }

  lemma KeepsAcyclic(net: Net, net': Net, n: RouterId, t: Taint, t': Taint, heard: Option<Msg>, out: Option<Msg>)
    requires Stepped(net, net', n, t, t', heard, out) && NoLiesInTables(net') && AllDescend(net', t') && Acyclic(net, t)
    ensures Acyclic(net', t')
  {
    forall id, p ensures !IsCycle(net', t', id, p) {
      if IsCycle(net', t', id, p) {
        forall i | 0 <= i < |p| - 1 ensures Edge(net, t, id, p[i], p[i + 1]) {
          assert Edge(net', t', id, p[i], p[i + 1]);
          NewEdgesStrict(net, net', n, t, t', heard, out, id, p[i], p[i + 1]);
          CycleHasNoStrictEdge(net', t', id, p, i);
        }
        assert IsCycle(net, t, id, p);
      }
    }
  }

  lemma KeepsTaint(net: Net, net': Net, n: RouterId, t: Taint, t': Taint, heard: Option<Msg>, out: Option<Msg>)
    requires Stepped(net, net', n, t, t', heard, out) && TaintOk(net, t)
    ensures TaintOk(net', t')
  {
  }

  lemma StepKeepsInv(net: Net, net': Net, n: RouterId, t: Taint, t': Taint, heard: Option<Msg>, out: Option<Msg>)
    requires Stepped(net, net', n, t, t', heard, out) && Inv(net, t)
    ensures Inv(net', t')
  {
    KeepsNoLiesInFlight(net, net', n, t, t', heard, out);
    KeepsNoLiesInTables(net, net', n, t, t', heard, out);
    KeepsDescent(net, net', n, t, t', heard, out);
    KeepsAcyclic(net, net', n, t, t', heard, out);
    KeepsTaint(net, net', n, t, t', heard, out);
  }

  // ----- every event is such a step

  /** An installed route that stays, at a router whose own distance did not move. */
  ghost predicate Unmoved(n: RouterId, x: Node, x': Node, t: Taint, k: Key)
    requires k in x'.slot.tab
  {
    var r := x'.slot.tab[k];
    WasInstalled(x.slot, k, r) && (n, k) !in t && NodeFD(n, x', r.src) == NodeFD(n, x, r.src)
  }

  /** What `Evolves` and the hypotheses say about the routes that are installed afterwards. */
  lemma EvolvesAnchors(n: RouterId, x: Node, x': Node, t: Taint, env: Env, u: Option<Update>)
    requires env.arith.Exact? && env.me == n && SlotOk(n, x.slot) && SlotOk(n, x'.slot)
    requires Evolves(env, x.slot, x'.slot, u)
    requires AllInstalledBetter(Exact, x.slot, x'.slot)
    requires forall k :: (n, k) in t ==> k in x.slot.tab && x.slot.tab[k].refmetric >= INFINITY
    requires u.Some? && u.value.refmetric < INFINITY ==>
               var found := FindRoute(x.slot, x.slot.order, u.value.neigh, u.value.nexthop);
               found.Some? && (n, found.value) in t && x.slot.tab[found.value].src == u.value.id ==>
                 Improves(Exact, u.value.seqno, u.value.refmetric, x.slot.srcs[u.value.id])
    ensures forall k :: k in x'.slot.tab && x'.slot.tab[k].installed && (n, k) !in TaintedAt(n, x.slot, x'.slot, t) ==>
              Unmoved(n, x, x', t, k) || NewAnchor(n, x', k)
  {
    forall k | k in x'.slot.tab && x'.slot.tab[k].installed && (n, k) !in TaintedAt(n, x.slot, x'.slot, t)
      ensures Unmoved(n, x, x', t, k) || NewAnchor(n, x', k)
    {
      var r := x'.slot.tab[k];
      assert Explained(x.slot, k, r, u);
      if WasInstalled(x.slot, k, r) && (n, k) !in t {
        assert x.slot.tab[k].src in x.slot.srcs;
      } else {
        assert r.refmetric < INFINITY;
        assert InstalledBetter(Exact, x.slot, x'.slot, k);
      }
    }
  }

  lemma EvolvesLearned(x: Node, x': Node, env: Env, u: Option<Update>, heard: Option<Msg>)
    requires Valid(x.slot) && Evolves(env, x.slot, x'.slot, u)
    requires u.Some? ==> heard == Some(Msg(u.value.neigh.router, u.value.id, u.value.seqno, u.value.refmetric))
    ensures forall k :: k in x'.slot.tab ==> Learned(x, k, x'.slot.tab[k], heard)
  {
    forall k | k in x'.slot.tab ensures Learned(x, k, x'.slot.tab[k], heard) {
      assert Explained(x.slot, k, x'.slot.tab[k], u);
    }
  }

  lemma EvolvesSlotOk(n: RouterId, x: Node, x': Node, env: Env, u: Option<Update>)
    requires SlotOk(n, x.slot) && Evolves(env, x.slot, x'.slot, u)
    requires u.Some? ==> u.value.id != n
    ensures SlotOk(n, x'.slot)
  {
    forall k | k in x'.slot.tab ensures x'.slot.tab[k].src != n {
      assert Explained(x.slot, k, x'.slot.tab[k], u);
    }
  }

  /** The update a step writes into the table, if any. */
  function Told(e: Event): Option<Update> {
    if e.Deliver? && e.msg.id != e.n && e.addMetric < INFINITY then Some(UpdateOf(e)) else None
  }

  lemma LocalEvolves(net: Net, e: Event)
    requires Enabled(net, e) && !e.Send? && Valid(net.nodes[e.n].slot)
    ensures Evolves(EnvOf(net, e.n, e.now), net.nodes[e.n].slot, Local(net, e).slot, Told(e))
  {
    var s := net.nodes[e.n].slot;
    var env := EnvOf(net, e.n, e.now);
    UnchangedEvolves(env, s);
    if e.Deliver? {
      AcceptEvolves(env, s, UpdateOf(e), e.newKey);
    } else if e.Lost? {
      RouteLostEvolves(env, s);
    } else if e.LinkChange? {
      UpdateRouteMetricEvolves(env, s, e.k, e.cost, e.addMetric);
    } else if e.RetractRoute? {
      RetractEvolves(env, s, e.k);
    } else if e.FlushRoute? {
      UnlinkEvolves(env, s, e.k);
    } else if e.AddXroute? {
      UninstallEvolves(env, s);
    }
  }

  lemma LocalImproves(net: Net, e: Event)
    requires Enabled(net, e) && !e.Send? && Valid(net.nodes[e.n].slot) && net.arith.Exact?
    ensures Improved(e.n, net.nodes[e.n], Local(net, e))
  {
    LocalEvolves(net, e);
    var x, x' := net.nodes[e.n], Local(net, e);
    assert x'.myseqno >= x.myseqno;
  }

  lemma TaintAtNode(net: Net, t: Taint, n: RouterId)
    requires TaintOk(net, t) && n in net.nodes
    ensures forall k :: (n, k) in t ==> k in net.nodes[n].slot.tab && net.nodes[n].slot.tab[k].refmetric >= INFINITY
  {
    forall k | (n, k) in t ensures k in net.nodes[n].slot.tab && net.nodes[n].slot.tab[k].refmetric >= INFINITY {
      var p := (n, k);
      assert p in t;
    }
  }

  lemma LocalAnchors(net: Net, t: Taint, e: Event)
    requires Enabled(net, e) && !e.Send? && Inv(net, t) && InstallsBetter(net, e) && !Revives(net, t, e)
    ensures var x' := Local(net, e);
            forall k :: k in x'.slot.tab && x'.slot.tab[k].installed
                        && (e.n, k) !in TaintedAt(e.n, net.nodes[e.n].slot, x'.slot, t) ==>
              Unmoved(e.n, net.nodes[e.n], x', t, k) || NewAnchor(e.n, x', k)
  {
    var x, x' := net.nodes[e.n], Local(net, e);
    var env := EnvOf(net, e.n, e.now);
    LocalEvolves(net, e);
    EvolvesSlotOk(e.n, x, x', env, Told(e));
    TaintAtNode(net, t, e.n);
    EvolvesAnchors(e.n, x, x', t, env, Told(e));
  }

  lemma LocalAnchored(net: Net, t: Taint, e: Event)
    requires Enabled(net, e) && !e.Send? && Inv(net, t) && InstallsBetter(net, e) && !Revives(net, t, e)
    ensures var x' := Local(net, e);
            forall k :: k in x'.slot.tab && x'.slot.tab[k].installed
                        && (e.n, k) !in NextTaint(net, Step(net, e), e.n, t) ==>
              KeptAnchor(e.n, net.nodes[e.n], x', t, k) || NewAnchor(e.n, x', k)
  {
    LocalAnchors(net, t, e);
  }

  lemma LocalIsLocalStep(net: Net, t: Taint, e: Event)
    requires Enabled(net, e) && !e.Send? && Inv(net, t) && InstallsBetter(net, e) && !Revives(net, t, e)
    ensures var heard := if e.Deliver? then Some(e.msg) else None;
            LocalStep(e.n, net.nodes[e.n], Local(net, e), t, NextTaint(net, Step(net, e), e.n, t), heard, None)
  {
    var x, x' := net.nodes[e.n], Local(net, e);
    var env := EnvOf(net, e.n, e.now);
    LocalEvolves(net, e);
    EvolvesSlotOk(e.n, x, x', env, Told(e));
    EvolvesLearned(x, x', env, Told(e), if e.Deliver? then Some(e.msg) else None);
    LocalImproves(net, e);
    LocalAnchored(net, t, e);
  }

  /** Advertising, unless it makes the record of an aged source worse. */
  lemma UpdateSourceImproves(src: Source, seqno: int, metric: nat, now: int)
    requires metric >= INFINITY || !Stale(src, now) || AsGood(Distance(seqno, metric), Distance(src.seqno, src.metric))
    ensures var src' := UpdateSource(Exact, src, seqno, metric, now);
            && AsGood(Distance(src'.seqno, src'.metric), Distance(src.seqno, src.metric))
            && (metric < INFINITY ==> AsGood(Distance(src'.seqno, src'.metric), Distance(seqno, metric)))
            && ((src'.seqno == src.seqno && src'.metric == src.metric)
                || (metric < INFINITY && src'.seqno == seqno && src'.metric == metric))
  {
  }

  /**
   * Advertising makes a feasibility distance worse exactly when the source has aged out and
   * something finite but worse is advertised.
   */
  lemma UpdateSourceExactly(src: Source, seqno: int, metric: nat, now: int)
    ensures var src' := UpdateSource(Exact, src, seqno, metric, now);
            AsGood(Distance(src'.seqno, src'.metric), Distance(src.seqno, src.metric)) <==>
            metric >= INFINITY || !Stale(src, now) || AsGood(Distance(seqno, metric), Distance(src.seqno, src.metric))
  {
  }

  lemma FlushedImproves(net: Net, e: Event)
    requires Enabled(net, e) && e.Send? && SlotsValid(net) && net.arith.Exact? && AdvertisesBetter(net, e)
    ensures Improved(e.n, net.nodes[e.n], Flushed(net, e).0)
    ensures Truthful(e.n, Flushed(net, e).0, Flushed(net, e).1)
  {
    var x := net.nodes[e.n];
    var inst := Installed(x.slot);
    if !AnnouncesItself(x) && inst.Some? && !e.splitHorizon {
      var r := x.slot.tab[inst.value];
      UpdateSourceImproves(x.slot.srcs[r.src], r.seqno, Advertised(r, x.cfg, e.interferes), e.now);
    }
  }

  /** A Send keeps every feasibility distance from getting worse exactly when `AdvertisesBetter` holds. */
  lemma SendImprovesExactly(net: Net, e: Event)
    requires Enabled(net, e) && e.Send? && SlotsValid(net) && net.arith.Exact?
    ensures Improved(e.n, net.nodes[e.n], Flushed(net, e).0) <==> AdvertisesBetter(net, e)
  {
    if AdvertisesBetter(net, e) {
      FlushedImproves(net, e);
    } else {
      var x := net.nodes[e.n];
      var r := x.slot.tab[Installed(x.slot).value];
      UpdateSourceExactly(x.slot.srcs[r.src], r.seqno, Advertised(r, x.cfg, e.interferes), e.now);
      assert !AsGood(NodeFD(e.n, Flushed(net, e).0, r.src), NodeFD(e.n, x, r.src));
    }
  }

  lemma FlushedTable(net: Net, e: Event)
    requires Enabled(net, e) && e.Send? && SlotsValid(net)
    ensures Flushed(net, e).0.slot.tab == net.nodes[e.n].slot.tab
    ensures SlotOk(e.n, Flushed(net, e).0.slot)
  {
    assert Valid(net.nodes[e.n].slot);
  }

  /** The installed route explains any change of the router's own distance. */
  lemma FlushedAnchor(net: Net, t: Taint, e: Event, k: Key)
    requires Enabled(net, e) && e.Send? && SlotsValid(net) && net.arith.Exact? && AdvertisesBetter(net, e)
    requires k in net.nodes[e.n].slot.tab && net.nodes[e.n].slot.tab[k].installed && (e.n, k) !in t
    ensures k in Flushed(net, e).0.slot.tab && KeptAnchor(e.n, net.nodes[e.n], Flushed(net, e).0, t, k)
  {
    var x := net.nodes[e.n];
    OnlyHeadInstalled(x.slot);
    FlushedTable(net, e);
    if !AnnouncesItself(x) && !e.splitHorizon {
      var r := x.slot.tab[k];
      UpdateSourceImproves(x.slot.srcs[r.src], r.seqno, Advertised(r, x.cfg, e.interferes), e.now);
    }
  }

  lemma FlushedAnchors(net: Net, t: Taint, e: Event)
    requires Enabled(net, e) && e.Send? && SlotsValid(net) && net.arith.Exact?
    requires AdvertisesBetter(net, e) && TaintOk(net, t)
    ensures forall k :: k in Flushed(net, e).0.slot.tab && Flushed(net, e).0.slot.tab[k].installed
                        && (e.n, k) !in NextTaint(net, Step(net, e), e.n, t) ==>
              KeptAnchor(e.n, net.nodes[e.n], Flushed(net, e).0, t, k)
  {
    var x, x' := net.nodes[e.n], Flushed(net, e).0;
    TaintAtNode(net, t, e.n);
    FlushedTable(net, e);
    forall k | k in x'.slot.tab && x'.slot.tab[k].installed && (e.n, k) !in NextTaint(net, Step(net, e), e.n, t)
      ensures KeptAnchor(e.n, x, x', t, k)
    {
      assert (e.n, k) !in t;
      FlushedAnchor(net, t, e, k);
    }
  }

  lemma SendIsLocalStep(net: Net, t: Taint, e: Event)
    requires Enabled(net, e) && e.Send? && Inv(net, t) && AdvertisesBetter(net, e)
    ensures LocalStep(e.n, net.nodes[e.n], Flushed(net, e).0, t, NextTaint(net, Step(net, e), e.n, t),
                      None, Flushed(net, e).1)
  {
    FlushedTable(net, e);
    FlushedImproves(net, e);
    FlushedAnchors(net, t, e);
  }

  /** A router none of whose sources has aged out meets the guard whatever it does. */
  lemma FreshGuarded(net: Net, e: Event)
    requires Enabled(net, e) && AllValid(net) && net.arith.Exact? && SourcesFresh(net, e)
    ensures Guarded(net, e)
  {
    if e.Send? {
      var s := net.nodes[e.n].slot;
      assert Valid(s);
      var inst := Installed(s);
      if inst.Some? {
        assert s.tab[inst.value].src in s.srcs;
      }
    } else {
      LocalEvolves(net, e);
      var x, x' := net.nodes[e.n], Local(net, e);
      forall k | k in x'.slot.tab ensures InstalledBetter(net.arith, x.slot, x'.slot, k) {
        FreshInstalled(EnvOf(net, e.n, e.now), x.slot, x'.slot, Told(e), k);
      }
    }
  }

  lemma FreshInstalled(env: Env, s: Slot<Key>, s': Slot<Key>, u: Option<Update>, k: Key)
    requires Valid(s) && Evolves(env, s, s', u) && k in s'.tab
    requires forall id :: id in s.srcs ==> !Stale(s.srcs[id], env.now)
    ensures InstalledBetter(env.arith, s, s', k)
  {
    var r := s'.tab[k];
    assert r.src in s'.srcs;
  }

  // ----- runs

  /** A network together with the routes installed while retracted. */
  datatype World = World(net: Net, taint: Taint)

  function Next(w: World, e: Event): World
    requires Enabled(w.net, e) && Valid(w.net.nodes[e.n].slot)
  {
    World(Step(w.net, e), NextTaint(w.net, Step(w.net, e), e.n, w.taint))
  }

  lemma NextValid(w: World, e: Event)
    requires AllValid(w.net) && Enabled(w.net, e)
    ensures AllValid(Next(w, e).net)
  {
    if e.Send? {
      assert Valid(Flushed(w.net, e).0.slot);
    } else {
      LocalEvolves(w.net, e);
    }
  }

  /** The hypotheses on one step: no aged source misleads it, and it revives no retracted route. */
  ghost predicate Allowed(w: World, e: Event)
    requires AllValid(w.net)
  {
    Enabled(w.net, e) && Guarded(w.net, e) && !Revives(w.net, w.taint, e)
  }

  ghost predicate Runs(w: World, es: seq<Event>)
    requires AllValid(w.net)
    decreases |es|
  {
    es == [] || (Allowed(w, es[0]) && (NextValid(w, es[0]); Runs(Next(w, es[0]), es[1..])))
  }

  ghost function Final(w: World, es: seq<Event>): World
    requires AllValid(w.net) && Runs(w, es)
    decreases |es|
  {
    if es == [] then w else NextValid(w, es[0]); Final(Next(w, es[0]), es[1..])
  }

  /** Every router starts with an empty table; who announces the prefix is arbitrary. */
  ghost predicate Initial(w: World) {
    && w.net.arith.Exact? && w.net.sent == {} && w.taint == {}
    && forall n :: n in w.net.nodes ==> w.net.nodes[n].slot == Slot([], map[], map[])
  }

  lemma InitialInv(w: World)
    requires Initial(w)
    ensures AllValid(w.net) && Inv(w.net, w.taint)
  {
    forall id, p ensures !IsCycle(w.net, w.taint, id, p) {
      if |p| >= 2 {
        assert !Edge(w.net, w.taint, id, p[0], p[0 + 1]);
      }
    }
  }

  lemma NextInv(w: World, e: Event)
    requires Inv(w.net, w.taint) && AllValid(w.net) && Allowed(w, e)
    ensures Inv(Next(w, e).net, Next(w, e).taint)
    ensures forall n, id :: AsGood(FD(Next(w, e).net, n, id), FD(w.net, n, id))
  {
    var w' := Next(w, e);
    var heard := if e.Deliver? then Some(e.msg) else None;
    var out := if e.Send? then Flushed(w.net, e).1 else None;
    if e.Send? {
      SendIsLocalStep(w.net, w.taint, e);
    } else {
      LocalIsLocalStep(w.net, w.taint, e);
    }
    assert Stepped(w.net, w'.net, e.n, w.taint, w'.taint, heard, out);
    StepKeepsInv(w.net, w'.net, e.n, w.taint, w'.taint, heard, out);
    DistancesImprove(w.net, w'.net, e.n, w.taint, w'.taint, heard, out);
  }

  /** Every state of every run satisfies the invariant, and feasibility distances only improve. */
  lemma {:induction false} RunInv(w: World, es: seq<Event>)
    requires AllValid(w.net) && Runs(w, es) && Inv(w.net, w.taint)
    ensures Inv(Final(w, es).net, Final(w, es).taint)
    ensures forall n, id :: AsGood(FD(Final(w, es).net, n, id), FD(w.net, n, id))
    decreases |es|
  {
    if es != [] {
      var w' := Next(w, es[0]);
      NextInv(w, es[0]);
      NextValid(w, es[0]);
      RunInv(w', es[1..]);
      forall n, id ensures AsGood(FD(Final(w, es).net, n, id), FD(w.net, n, id)) {
        AsGoodTransitive(FD(Final(w, es).net, n, id), FD(w'.net, n, id), FD(w.net, n, id));
      }
    }
  }

  // ----- the theorems

  /** Router `a` forwards to `b` along an installed route that is not retracted. */
  ghost predicate Forwards(net: Net, id: RouterId, a: RouterId, b: RouterId) {
    a in net.nodes && exists k :: k in net.nodes[a].slot.tab && IsEdge(net.nodes[a].slot.tab[k], id, b)
                                  && net.nodes[a].slot.tab[k].refmetric < INFINITY
  }

  ghost predicate ForwardingLoop(net: Net, id: RouterId, p: seq<RouterId>) {
    && |p| >= 2 && p[0] == p[|p| - 1]
    && forall i :: 0 <= i < |p| - 1 ==> Forwards(net, id, p[i], p[i + 1])
  }

  lemma LoopIsCycle(net: Net, t: Taint, id: RouterId, p: seq<RouterId>)
    requires TaintOk(net, t) && ForwardingLoop(net, id, p)
    ensures IsCycle(net, t, id, p)
  {
    forall i | 0 <= i < |p| - 1 ensures Edge(net, t, id, p[i], p[i + 1]) {
      assert Forwards(net, id, p[i], p[i + 1]);
      var k :| k in net.nodes[p[i]].slot.tab && IsEdge(net.nodes[p[i]].slot.tab[k], id, p[i + 1])
               && net.nodes[p[i]].slot.tab[k].refmetric < INFINITY;
      TaintAtNode(net, t, p[i]);
    }
  }

  lemma InvLoopFree(net: Net, t: Taint, id: RouterId, p: seq<RouterId>)
    requires Inv(net, t)
    ensures !ForwardingLoop(net, id, p)
  {
    if ForwardingLoop(net, id, p) {
      LoopIsCycle(net, t, id, p);
    }
  }

  /** No reachable state has a loop of finite routes of one source. */
  lemma LoopFree(w: World, es: seq<Event>)
    requires Initial(w) && Runs(w, es)
    ensures forall id, p :: !ForwardingLoop(Final(w, es).net, id, p)
  {
    InitialInv(w);
    RunInv(w, es);
    var v := Final(w, es);
    forall id, p ensures !ForwardingLoop(v.net, id, p) {
      InvLoopFree(v.net, v.taint, id, p);
    }
  }

  /** Runs in which no retracted route is ever newly installed. */
  ghost predicate CleanRun(w: World, es: seq<Event>)
    requires AllValid(w.net)
    decreases |es|
  {
    w.taint == {} &&
    (es == [] || (Enabled(w.net, es[0]) && Guarded(w.net, es[0])
                  && (NextValid(w, es[0]); CleanRun(Next(w, es[0]), es[1..]))))
  }

  lemma {:induction false} CleanRunRuns(w: World, es: seq<Event>)
    requires AllValid(w.net) && CleanRun(w, es)
    ensures Runs(w, es) && Final(w, es).taint == {}
    decreases |es|
  {
    if es != [] {
      NextValid(w, es[0]);
      CleanRunRuns(Next(w, es[0]), es[1..]);
    }
  }

  /** In such runs not even retracted routes that are still installed can close a loop. */
  lemma CleanRunLoopFree(w: World, es: seq<Event>)
    requires Initial(w) && CleanRun(w, es)
    ensures Runs(w, es) && forall id, p :: !IsCycle(Final(w, es).net, {}, id, p)
  {
    InitialInv(w);
    CleanRunRuns(w, es);
    RunInv(w, es);
  }

  // ----- runs with fresh sources

  /** Runs in which no stepping router has an aged source. */
  ghost predicate FreshRun(w: World, es: seq<Event>)
    requires AllValid(w.net)
    decreases |es|
  {
    es == [] || (Enabled(w.net, es[0]) && SourcesFresh(w.net, es[0]) && !Revives(w.net, w.taint, es[0])
                 && (NextValid(w, es[0]); FreshRun(Next(w, es[0]), es[1..])))
  }

  lemma {:induction false} FreshRunRuns(w: World, es: seq<Event>)
    requires AllValid(w.net) && w.net.arith.Exact? && FreshRun(w, es)
    ensures Runs(w, es)
    decreases |es|
  {
    if es != [] {
      FreshGuarded(w.net, es[0]);
      NextValid(w, es[0]);
      FreshRunRuns(Next(w, es[0]), es[1..]);
    }
  }

  lemma FreshRunLoopFree(w: World, es: seq<Event>)
    requires Initial(w) && FreshRun(w, es)
    ensures Runs(w, es) && forall id, p :: !ForwardingLoop(Final(w, es).net, id, p)
  {
    InitialInv(w);
    FreshRunRuns(w, es);
    LoopFree(w, es);
  }

  // ----- reachable states

  /** Some run leads from `w` to `v`. */
  ghost predicate Reaches(w: World, v: World) {
    AllValid(w.net) && AllValid(v.net) && exists es :: Runs(w, es) && Final(w, es) == v
  }

  lemma RunsOne(w: World, e: Event)
    requires AllValid(w.net) && Allowed(w, e)
    ensures Runs(w, [e]) && Final(w, [e]) == Next(w, e)
  {
    NextValid(w, e);
    assert [e][1..] == [];
  }

  lemma RunsFirst(w: World, e: Event, es: seq<Event>)
    requires AllValid(w.net) && Allowed(w, e) && AllValid(Next(w, e).net) && Runs(Next(w, e), es)
    ensures Runs(w, [e] + es) && Final(w, [e] + es) == Final(Next(w, e), es)
  {
    assert ([e] + es)[1..] == es;
  }

  lemma HeadAndRest(es: seq<Event>, e: Event)
    requires es != []
    ensures es + [e] == [es[0]] + (es[1..] + [e])
  {
  }

  lemma {:induction false} RunsAppend(w: World, es: seq<Event>, e: Event)
    requires AllValid(w.net) && Runs(w, es) && AllValid(Final(w, es).net) && Allowed(Final(w, es), e)
    ensures Runs(w, es + [e]) && Final(w, es + [e]) == Next(Final(w, es), e)
    decreases |es|
  {
    if es == [] {
      RunsOne(w, e);
      assert [] + [e] == [e];
    } else {
      NextValid(w, es[0]);
      RunsAppend(Next(w, es[0]), es[1..], e);
      RunsFirst(w, es[0], es[1..] + [e]);
      HeadAndRest(es, e);
    }
  }

  lemma ReachesSelf(w: World)
    requires AllValid(w.net)
    ensures Reaches(w, w)
  {
    assert Runs(w, []) && Final(w, []) == w;
  }

  lemma ReachesNext(w: World, v: World, e: Event)
    requires Reaches(w, v) && Allowed(v, e)
    ensures Reaches(w, Next(v, e))
  {
    var es :| Runs(w, es) && Final(w, es) == v;
    RunsAppend(w, es, e);
    NextValid(v, e);
  }
}
