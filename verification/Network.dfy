/**
 * A network of routers running route selection for one prefix over a channel that may lose,
 * duplicate, delay and reorder updates; any number of routers may announce the prefix.
 */
module Network {
  import opened Basics
  import opened SeqNo
  import opened Selection

  type Key = nat

  datatype Msg = Msg(from: RouterId, id: RouterId, seqno: int, metric: nat)

  datatype Config = Config(allowDuplicates: int, keepUnfeasible: bool, kernelMetric: nat, diversityFactor: nat)

  datatype Node = Node(slot: Slot<Key>, myseqno: int, xroute: Option<nat>, cfg: Config)

  /** `sent` keeps every update ever sent: any of them may arrive at any time, or never. */
  datatype Net = Net(arith: Arith, nodes: map<RouterId, Node>, sent: set<Msg>)

  /** Steps of one router at a given time. The remaining fields are its environment's choices. */
  datatype Event =
    | Deliver(n: RouterId, now: int, msg: Msg, ifp: nat, nexthop: Address, cost: nat, addMetric: nat,
              interval: nat, newKey: Key)
    | Lost(n: RouterId, now: int)
    | LinkChange(n: RouterId, now: int, k: Key, cost: nat, addMetric: nat)
    | RetractRoute(n: RouterId, now: int, k: Key)
    | FlushRoute(n: RouterId, now: int, k: Key)
    | Send(n: RouterId, now: int, interferes: bool, splitHorizon: bool, passes: bool, outMetric: nat)
    | AddXroute(n: RouterId, now: int, metric: nat)
    | FlushXroute(n: RouterId, now: int)
    | BumpSeqno(n: RouterId, now: int)

  function EnvOf(net: Net, n: RouterId, now: int): Env
    requires n in net.nodes
  {
    var node := net.nodes[n];
    Env(net.arith, n, node.xroute, node.cfg.allowDuplicates, node.cfg.keepUnfeasible, now)
  }

  function UpdateOf(e: Event): Update
    requires e.Deliver?
  {
    Update(e.msg.id, e.msg.seqno, e.msg.metric, e.cost, e.addMetric, Neighbour(e.msg.from, e.ifp),
           e.nexthop, e.interval)
  }

  predicate Enabled(net: Net, e: Event) {
    && e.n in net.nodes
    && (e.Deliver? ==> e.msg in net.sent && e.newKey !in net.nodes[e.n].slot.tab)
    && (e.LinkChange? || e.RetractRoute? || e.FlushRoute? ==> e.k in net.nodes[e.n].slot.tab)
  }

  /** The metric `flushupdates` advertises for a route on an interface. */
  function Advertised(r: Route, cfg: Config, interferes: bool): (m: nat)
    ensures m <= INFINITY
    ensures r.refmetric <= INFINITY ==> r.refmetric <= m
  {
    if interferes then Metric(r) else MetricNoninterfering(r, cfg.diversityFactor)
  }

  /** Whether the router's own announcement goes out in place of its installed route. */
  predicate AnnouncesItself(node: Node)
    requires Valid(node.slot)
  {
    node.xroute.Some? && (Installed(node.slot).None? || node.xroute.value <= node.cfg.kernelMetric)
  }

  /** What `flushupdates` does for the prefix: the node afterwards, and the update written. */
  function Flushed(net: Net, e: Event): (Node, Option<Msg>)
    requires e.Send? && Enabled(net, e) && Valid(net.nodes[e.n].slot)
  {
    var node := net.nodes[e.n];
    var inst := Installed(node.slot);
    if AnnouncesItself(node) then
      (node, Some(Msg(e.n, e.n, node.myseqno, Min(node.xroute.value + e.outMetric, INFINITY))))
    else if inst.Some? then
      var r := node.slot.tab[inst.value];
      var m := Advertised(r, node.cfg, e.interferes);
      if e.splitHorizon then (node, None)
      else
        var src := UpdateSource(net.arith, node.slot.srcs[r.src], r.seqno, m, e.now);
        (node.(slot := node.slot.(srcs := node.slot.srcs[r.src := src])),
         Some(Msg(e.n, r.src, r.seqno, Min(m + e.outMetric, INFINITY))))
    else
      (node, Some(Msg(e.n, e.n, node.myseqno, INFINITY)))
  }

  /** `xroute_add_new_route` for a finite metric. */
  function XrouteAdded(node: Node, metric: nat): Node
    requires Valid(node.slot)
  {
    if node.xroute.Some? && node.xroute.value <= metric then node
    else
      var drop := node.cfg.allowDuplicates < 0 || metric < node.cfg.allowDuplicates;
      node.(xroute := Some(metric), slot := if drop then Uninstall(node.slot) else node.slot)
  }

  /** The slot of the stepping router after an event that is not a Send. */
  function Local(net: Net, e: Event): Node
    requires Enabled(net, e) && !e.Send? && Valid(net.nodes[e.n].slot)
  {
    var node := net.nodes[e.n];
    var env := EnvOf(net, e.n, e.now);
    match e
    case Deliver(_, _, _, _, _, _, _, _, newKey) => node.(slot := Accept(env, node.slot, UpdateOf(e), newKey))
    case Lost(_, _) => node.(slot := RouteLost(env, node.slot))
    case LinkChange(_, _, k, cost, add) => node.(slot := UpdateRouteMetric(env, node.slot, k, cost, add))
    case RetractRoute(_, _, k) => node.(slot := Retract(env, node.slot, k))
    case FlushRoute(_, _, k) => node.(slot := Unlink(node.slot, k))
    case AddXroute(_, _, metric) => if metric < INFINITY then XrouteAdded(node, metric) else node
    case FlushXroute(_, _) => node.(xroute := None)
    case BumpSeqno(_, _) => node.(myseqno := Plus(net.arith, node.myseqno, 1))
    case Send(_, _, _, _, _, _) => node
  }

  function Step(net: Net, e: Event): Net
    requires Enabled(net, e) && Valid(net.nodes[e.n].slot)
  {
    if e.Send? then
      var (node, out) := Flushed(net, e);
      Net(net.arith, net.nodes[e.n := node], if out.Some? && e.passes then net.sent + {out.value} else net.sent)
    else
      net.(nodes := net.nodes[e.n := Local(net, e)])
  }

  // ----- calls of the program as events

  function WithSlot(net: Net, n: RouterId, s: Slot<Key>): Net
    requires n in net.nodes
  {
    net.(nodes := net.nodes[n := net.nodes[n].(slot := s)])
  }

  lemma LostAfter(net: Net, n: RouterId, now: int, s: Slot<Key>)
    requires n in net.nodes && Valid(s)
    ensures Step(WithSlot(net, n, s), Lost(n, now)) == WithSlot(net, n, RouteLost(EnvOf(net, n, now), s))
  {
    var net' := WithSlot(net, n, s);
    assert EnvOf(net', n, now) == EnvOf(net, n, now);
    var x := net.nodes[n].(slot := RouteLost(EnvOf(net, n, now), s));
    assert net'.nodes[n := x] == net.nodes[n := x];
  }

  /** A whole call of update_route is a Deliver, followed by a Lost if its final call of route_lost is due. */
  lemma UpdateRouteAsEvents(net: Net, e: Event, r: Option<Key>)
    requires e.Deliver? && Enabled(net, e) && Valid(net.nodes[e.n].slot)
    requires Returns(EnvOf(net, e.n, e.now), net.nodes[e.n].slot, UpdateOf(e), r)
    requires r.Some? && r.value !in net.nodes[e.n].slot.tab ==> r.value == e.newKey
    ensures Valid(Step(net, e).nodes[e.n].slot)
    ensures var env, s, u := EnvOf(net, e.n, e.now), net.nodes[e.n].slot, UpdateOf(e);
            WithSlot(net, e.n, Updated(env, s, u, r)) ==
            if Loses(env, s, u) then Step(Step(net, e), Lost(e.n, e.now)) else Step(net, e)
  {
    var env, s, u := EnvOf(net, e.n, e.now), net.nodes[e.n].slot, UpdateOf(e);
    UpdatedIsAccept(env, s, u, r, e.newKey);
    var s' := Accept(env, s, u, e.newKey);
    assert Step(net, e) == WithSlot(net, e.n, s');
    LostAfter(net, e.n, e.now, s');
  }

  /** A whole call of flush_route is a FlushRoute, followed by a Lost if the route was installed. */
  lemma FlushRouteAsEvents(net: Net, e: Event)
    requires e.FlushRoute? && Enabled(net, e) && Valid(net.nodes[e.n].slot)
    ensures Valid(Step(net, e).nodes[e.n].slot)
    ensures var env, s := EnvOf(net, e.n, e.now), net.nodes[e.n].slot;
            WithSlot(net, e.n, Dropped(env, s, e.k)) ==
            if s.tab[e.k].installed then Step(Step(net, e), Lost(e.n, e.now)) else Step(net, e)
  {
    var s := net.nodes[e.n].slot;
    UnlinkValid(s, e.k);
    assert Step(net, e) == WithSlot(net, e.n, Unlink(s, e.k));
    LostAfter(net, e.n, e.now, Unlink(s, e.k));
  }

  // ----- feasibility distances

  datatype Distance = Unknown | Distance(seqno: int, metric: nat)

  /** At least as good: newer, or as new and no farther. */
  predicate AsGood(a: Distance, b: Distance) {
    b.Unknown? || (a.Distance? && (a.seqno > b.seqno || (a.seqno == b.seqno && a.metric <= b.metric)))
  }

  predicate Better(a: Distance, b: Distance) {
    AsGood(a, b) && !AsGood(b, a)
  }

  function NodeFD(n: RouterId, node: Node, id: RouterId): Distance {
    if n == id then Distance(node.myseqno, 0)
    else if id in node.slot.srcs then Distance(node.slot.srcs[id].seqno, node.slot.srcs[id].metric)
    else Unknown
  }

  /** The feasibility distance of a router for the source `id`. */
  function FD(net: Net, n: RouterId, id: RouterId): Distance {
    if n in net.nodes then NodeFD(n, net.nodes[n], id) else Unknown
  }

  // ----- routes installed while retracted

  type Taint = set<(RouterId, Key)>

  /**
   * The routes a step installs although they are retracted, and those installed so earlier
   * that are still retracted.
   */
  function TaintedAt(n: RouterId, s: Slot<Key>, s': Slot<Key>, t: Taint): Taint {
    set k | k in s'.tab && s'.tab[k].installed && s'.tab[k].refmetric >= INFINITY
            && (!WasInstalled(s, k, s'.tab[k]) || (n, k) in t) :: (n, k)
  }

  function NextTaint(net: Net, net': Net, n: RouterId, t: Taint): Taint
    requires n in net.nodes && n in net'.nodes
  {
    (set p | p in t && p.0 != n :: p) + TaintedAt(n, net.nodes[n].slot, net'.nodes[n].slot, t)
  }

  // ----- what endangers the network

  /**
   * An unfeasible finite update revives a route that was installed while it was retracted:
   * update_route writes it into the installed route of the same source.
   */
  predicate Revives(net: Net, t: Taint, e: Event)
    requires Enabled(net, e) && Valid(net.nodes[e.n].slot)
  {
    && e.Deliver?
    && e.msg.id != e.n && e.addMetric < INFINITY && e.msg.metric < INFINITY
    && var s := net.nodes[e.n].slot;
       var found := FindRoute(s, s.order, Neighbour(e.msg.from, e.ifp), e.nexthop);
       && found.Some? && (e.n, found.value) in t && s.tab[found.value].src == e.msg.id
       && !Improves(net.arith, e.msg.seqno, e.msg.metric, s.srcs[e.msg.id])
  }

  /** If the step newly installed the finite route `k`, it beats what its source records. */
  predicate InstalledBetter(ar: Arith, s: Slot<Key>, s': Slot<Key>, k: Key)
    requires k in s'.tab
  {
    var r := s'.tab[k];
    r.installed && r.refmetric < INFINITY && !WasInstalled(s, k, r) ==>
      r.src in s'.srcs && Improves(ar, r.seqno, r.refmetric, s'.srcs[r.src])
  }

  predicate AllInstalledBetter(ar: Arith, s: Slot<Key>, s': Slot<Key>) {
    forall k :: k in s'.tab ==> InstalledBetter(ar, s, s', k)
  }

  predicate InstallsBetter(net: Net, e: Event)
    requires Enabled(net, e) && !e.Send? && Valid(net.nodes[e.n].slot)
  {
    AllInstalledBetter(net.arith, net.nodes[e.n].slot, Local(net, e).slot)
  }

  /** Advertising `r` with metric `m` does not worsen an aged record of its source. */
  predicate AdvertisedBetter(r: Route, m: nat, src: Source, now: int) {
    m >= INFINITY || !Stale(src, now) || AsGood(Distance(r.seqno, m), Distance(src.seqno, src.metric))
  }

  predicate AdvertisesBetter(net: Net, e: Event)
    requires e.Send? && Enabled(net, e) && Valid(net.nodes[e.n].slot)
  {
    var node := net.nodes[e.n];
    var inst := Installed(node.slot);
    if AnnouncesItself(node) || inst.None? || e.splitHorizon then true
    else
      var r := node.slot.tab[inst.value];
      AdvertisedBetter(r, Advertised(r, node.cfg, e.interferes), node.slot.srcs[r.src], e.now)
  }

  /** An aged source misleads neither selection nor advertising in this step. */
  predicate Guarded(net: Net, e: Event)
    requires Enabled(net, e) && Valid(net.nodes[e.n].slot)
  {
    if e.Send? then AdvertisesBetter(net, e) else InstallsBetter(net, e)
  }

  /** No source of the stepping router has aged out. */
  predicate SourcesFresh(net: Net, e: Event)
    requires e.n in net.nodes
  {
    forall id :: id in net.nodes[e.n].slot.srcs ==> !Stale(net.nodes[e.n].slot.srcs[id], e.now)
  }
}
