/**
 * Route selection for one prefix on one router (babeld/route.c, babeld/source.c).
 *
 * A slot is everything the router knows about the prefix: its routes, in list order, and
 * its sources. Routes are named by keys of any type: the network model uses numbers, the
 * linked lists and the route table use the route objects themselves.
 */
module Selection {
  import opened Basics
  import opened SeqNo

  type RouterId = nat

  const SOURCE_GC_TIME := 200

  /** A neighbour: a router as seen through one interface. */
  datatype Neighbour = Neighbour(router: RouterId, ifp: nat)

  datatype Source = Source(seqno: int, metric: nat, time: int)

  datatype Route = Route(src: RouterId, refmetric: nat, cost: nat, addMetric: nat, seqno: int,
                         neigh: Neighbour, nexthop: Address, time: int, holdTime: int, installed: bool)

  datatype Slot<K> = Slot(order: seq<K>, tab: map<K, Route>, srcs: map<RouterId, Source>)

  /** The router's settings, its own announcement of the prefix, and the clock. */
  datatype Env = Env(arith: Arith, me: RouterId, xroute: Option<nat>, allowDuplicates: int,
                     keepUnfeasible: bool, now: int)

  /** An update as update_route receives it; link cost and filter metric are looked up. */
  datatype Update = Update(id: RouterId, seqno: int, refmetric: nat, cost: nat, addMetric: nat,
                           neigh: Neighbour, nexthop: Address, interval: nat)

  function U16(x: nat): (r: nat)
    ensures r <= INFINITY
  {
    x % 0x1_0000
  }

  // ----- metrics and feasibility

  function Metric(r: Route): (m: nat)
    ensures m <= INFINITY
    ensures r.refmetric <= INFINITY ==> r.refmetric <= m
  {
    Min(r.refmetric + r.cost + r.addMetric, INFINITY)
  }

  function MetricNoninterfering(r: Route, diversityFactor: nat): (m: nat)
    ensures m <= INFINITY
    ensures r.refmetric <= INFINITY ==> r.refmetric <= m
    ensures r.refmetric < INFINITY ==> r.refmetric < m
  {
    var m := r.refmetric + (diversityFactor * r.cost + 128) / 256 + r.addMetric;
    Min(Max(m, r.refmetric + 1), INFINITY)
  }

  predicate Stale(src: Source, now: int) {
    src.time < now - SOURCE_GC_TIME
  }

  /** (seqno, metric) strictly better than what the source recorded. */
  predicate Improves(ar: Arith, seqno: int, refmetric: nat, src: Source) {
    Compare(ar, seqno, src.seqno) > 0 || (src.seqno == seqno && refmetric < src.metric)
  }

  predicate UpdateFeasible(env: Env, src: Source, seqno: int, refmetric: nat) {
    Stale(src, env.now) || refmetric >= INFINITY || Improves(env.arith, seqno, refmetric, src)
  }

  predicate RouteFeasible(env: Env, srcs: map<RouterId, Source>, r: Route)
    requires r.src in srcs
  {
    UpdateFeasible(env, srcs[r.src], r.seqno, r.refmetric)
  }

  predicate Expired(r: Route, now: int) {
    r.time < now - r.holdTime
  }

  function HoldTime(interval: nat): (h: int)
    ensures h >= 15
  {
    Max((4 * interval) / 100 + interval / 50, 15)
  }

  /** `update_source`, called whenever a route is advertised. */
  function UpdateSource(ar: Arith, src: Source, seqno: int, metric: nat, now: int): Source {
    if metric >= INFINITY then src
    else if Stale(src, now) || Compare(ar, src.seqno, seqno) < 0
            || (src.seqno == seqno && src.metric > metric)
    then Source(seqno, metric, now)
    else src.(time := now)
  }

  /** `find_source` with `create` set. */
  function FindSource(srcs: map<RouterId, Source>, id: RouterId, seqno: int, now: int): map<RouterId, Source> {
    if id in srcs then srcs else srcs[id := Source(seqno, INFINITY, now)]
  }

  // ----- slots

  ghost predicate Valid<K>(s: Slot<K>) {
    && Distinct(s.order)
    && (forall k :: k in s.order ==> k in s.tab)
    && (forall k :: k in s.tab ==> k in s.order)
    && (forall k :: k in s.tab ==> s.tab[k].src in s.srcs)
    && (forall i :: 0 < i < |s.order| ==> !s.tab[s.order[i]].installed)
  }

  /** The route that find_installed_route returns. */
  function Installed<K(==)>(s: Slot<K>): (r: Option<K>)
    requires Valid(s)
    ensures r.Some? ==> r.value in s.tab && s.tab[r.value].installed
    ensures r.None? ==> forall k :: k in s.tab ==> !s.tab[k].installed
  {
    if |s.order| > 0 && s.tab[s.order[0]].installed then Some(s.order[0]) else None
  }

  lemma OnlyHeadInstalled<K>(s: Slot<K>)
    requires Valid(s)
    ensures forall k :: k in s.tab && s.tab[k].installed ==> Installed(s) == Some(k)
  {
    forall k | k in s.tab && s.tab[k].installed ensures Installed(s) == Some(k) {
      var i :| 0 <= i < |s.order| && s.order[i] == k;
    }
  }

  function Remove<K(==)>(s: seq<K>, k: K): (r: seq<K>)
    ensures forall x :: x in r ==> x in s
    ensures forall x :: x in s && x != k ==> x in r
  {
    if s == [] then [] else if s[0] == k then s[1..] else [s[0]] + Remove(s[1..], k)
  }

  lemma RemoveDistinct<K>(s: seq<K>, k: K)
    requires Distinct(s)
    ensures Distinct(Remove(s, k)) && k !in Remove(s, k)
  {
    if s != [] {
      assert s[0] !in s[1..];
      RemoveDistinct(s[1..], k);
      assert s[0] !in Remove(s[1..], k);
    }
  }

  /** `move_installed_route`. */
  function MoveToFront<K(==)>(s: seq<K>, k: K): seq<K> {
    [k] + Remove(s, k)
  }

  function SetInstalled<K>(s: Slot<K>, k: K, on: bool): Slot<K>
    requires k in s.tab
  {
    s.(tab := s.tab[k := s.tab[k].(installed := on)])
  }

  /** `install_route`. */
  function Install<K(==)>(s: Slot<K>, k: K): Slot<K>
    requires Valid(s) && k in s.tab
  {
    if s.tab[k].installed || Installed(s).Some? then s
    else SetInstalled(s, k, true).(order := MoveToFront(s.order, k))
  }

  /** `switch_routes`. */
  function Switch<K(==)>(s: Slot<K>, prev: Option<K>, k: K): Slot<K>
    requires Valid(s) && k in s.tab && prev == Installed(s)
  {
    if prev.None? then Install(s, k)
    else SetInstalled(SetInstalled(s, prev.value, false), k, true).(order := MoveToFront(s.order, k))
  }

  /** `consider_route`. */
  function Consider<K(==)>(env: Env, s: Slot<K>, k: K): (s': Slot<K>)
    requires Valid(s) && k in s.tab
  {
    var installed := Installed(s);
    if s.tab[k].installed || !RouteFeasible(env, s.srcs, s.tab[k]) then s
    else if env.xroute.Some? && (env.allowDuplicates < 0 || env.xroute.value >= env.allowDuplicates) then s
    else if installed.None? then Switch(s, None, k)
    else if Metric(s.tab[k]) >= INFINITY then s
    else if Metric(s.tab[installed.value]) >= INFINITY
            || Metric(s.tab[installed.value]) >= Metric(s.tab[k]) + 64
    then Switch(s, installed, k)
    else s
  }

  /** The scan of `find_best_route` (feasible = 1, exclude = NULL), starting from `best`. */
  function BestOf<K>(env: Env, s: Slot<K>, best: K, rest: seq<K>): (k: K)
    requires Valid(s) && best in s.tab && (forall x :: x in rest ==> x in s.tab)
    ensures k in s.tab
  {
    if rest == [] then best
    else
      var r := s.tab[rest[0]];
      var better := !Expired(r, env.now) && RouteFeasible(env, s.srcs, r) && Metric(r) < Metric(s.tab[best]);
      BestOf(env, s, if better then rest[0] else best, rest[1..])
  }

  function FindBest<K>(env: Env, s: Slot<K>): (k: Option<K>)
    requires Valid(s)
    ensures k.Some? ==> k.value in s.tab
    ensures k.None? <==> s.order == []
  {
    if s.order == [] then None else Some(BestOf(env, s, s.order[0], s.order[1..]))
  }

  /** `route_changed`. */
  function RouteChanged<K(==)>(env: Env, s: Slot<K>, k: K, oldMetric: nat): Slot<K>
    requires Valid(s) && k in s.tab
  {
    if !s.tab[k].installed then Consider(env, s, k)
    else if Metric(s.tab[k]) <= oldMetric then s
    else
      var better := FindBest(env, s);
      if better.Some? && Metric(s.tab[better.value]) <= Metric(s.tab[k]) - 96
      then Consider(env, s, better.value)
      else s
  }

  /** `route_lost`. */
  function RouteLost<K(==)>(env: Env, s: Slot<K>): Slot<K>
    requires Valid(s)
  {
    var best := FindBest(env, s);
    if best.Some? then Consider(env, s, best.value) else s
  }

  // ----- what selection may change

  /** Selection only moves the installed flag, and only onto feasible routes. */
  ghost predicate Reselected<K>(env: Env, s: Slot<K>, s': Slot<K>)
    requires Valid(s)
  {
    && Valid(s')
    && s'.srcs == s.srcs
    && s'.tab.Keys == s.tab.Keys
    && (forall k :: k in s.tab ==>
          && s'.tab[k] == s.tab[k].(installed := s'.tab[k].installed)
          && (s'.tab[k].installed && !s.tab[k].installed ==> RouteFeasible(env, s.srcs, s.tab[k])))
  }

  lemma PromotedValid<K>(s: Slot<K>, s': Slot<K>, k: K)
    requires Valid(s) && k in s.tab
    requires s'.srcs == s.srcs && s'.tab.Keys == s.tab.Keys && s'.order == MoveToFront(s.order, k)
    requires forall x :: x in s.tab ==> s'.tab[x].src == s.tab[x].src
    requires forall x :: x in s.tab && x != k ==> !s'.tab[x].installed
    ensures Valid(s')
  {
    RemoveDistinct(s.order, k);
    var rest := Remove(s.order, k);
    forall i | 0 < i < |s'.order| ensures s'.order[i] in s.tab && s'.order[i] != k {
      assert s'.order[i] == rest[i - 1] && rest[i - 1] in rest;
    }
  }

  lemma SwitchReselects<K>(env: Env, s: Slot<K>, prev: Option<K>, k: K)
    requires Valid(s) && k in s.tab && prev == Installed(s)
    requires !s.tab[k].installed && RouteFeasible(env, s.srcs, s.tab[k])
    ensures Reselected(env, s, Switch(s, prev, k))
    ensures Installed(Switch(s, prev, k)) == Some(k)
  {
    var s' := Switch(s, prev, k);
    OnlyHeadInstalled(s);
    PromotedValid(s, s', k);
  }

  /** Any slot that differs from `s` only in that `k` is installed and first is the result of a switch. */
  lemma SwitchIs<K>(s: Slot<K>, s': Slot<K>, k: K)
    requires Valid(s) && k in s.tab && !s.tab[k].installed
    requires s'.order == MoveToFront(s.order, k) && s'.srcs == s.srcs && s'.tab.Keys == s.tab.Keys
    requires forall x :: x in s.tab ==> s'.tab[x] == s.tab[x].(installed := x == k)
    ensures s' == Switch(s, Installed(s), k)
  {
    OnlyHeadInstalled(s);
    var t := Switch(s, Installed(s), k);
    assert forall x :: x in s.tab ==> t.tab[x] == s.tab[x].(installed := x == k);
    assert s'.tab == t.tab;
  }

  lemma ConsiderReselects<K>(env: Env, s: Slot<K>, k: K)
    requires Valid(s) && k in s.tab
    ensures Reselected(env, s, Consider(env, s, k))
  {
    var s' := Consider(env, s, k);
    if s' != s {
      SwitchReselects(env, s, Installed(s), k);
    }
  }

  /**
   * Exactly when consider_route installs a retracted route: nothing is installed, and no
   * announcement of our own forbids it.
   */
  lemma ConsiderInstallsRetracted<K>(env: Env, s: Slot<K>, k: K)
    requires Valid(s) && k in s.tab && !s.tab[k].installed
    ensures k in Consider(env, s, k).tab
    ensures (Consider(env, s, k).tab[k].installed && s.tab[k].refmetric >= INFINITY)
            <==> (s.tab[k].refmetric >= INFINITY && Installed(s).None?
                  && (env.xroute.None? || (0 <= env.allowDuplicates && env.xroute.value < env.allowDuplicates)))
  {
    ConsiderReselects(env, s, k);
  }

  lemma RouteChangedReselects<K>(env: Env, s: Slot<K>, k: K, oldMetric: nat)
    requires Valid(s) && k in s.tab
    ensures Reselected(env, s, RouteChanged(env, s, k, oldMetric))
  {
    ConsiderReselects(env, s, k);
    var better := FindBest(env, s);
    if better.Some? {
      ConsiderReselects(env, s, better.value);
    }
  }

  lemma RouteLostReselects<K>(env: Env, s: Slot<K>)
    requires Valid(s)
    ensures Reselected(env, s, RouteLost(env, s))
  {
    var best := FindBest(env, s);
    if best.Some? {
      ConsiderReselects(env, s, best.value);
    }
  }

  // ----- operations on a slot

  /** `find_route`: the first route in the list from this neighbour with this next hop. */
  function FindRoute<K>(s: Slot<K>, order: seq<K>, neigh: Neighbour, nexthop: Address): (r: Option<K>)
    requires forall k :: k in order ==> k in s.tab
    ensures r.Some? ==> r.value in order && s.tab[r.value].neigh == neigh && s.tab[r.value].nexthop == nexthop
    ensures r.None? ==> forall k :: k in order ==> s.tab[k].neigh != neigh || s.tab[k].nexthop != nexthop
  {
    if order == [] then None
    else if s.tab[order[0]].neigh == neigh && s.tab[order[0]].nexthop == nexthop then Some(order[0])
    else FindRoute(s, order[1..], neigh, nexthop)
  }

  /** A known route after an update was written into it, with the installed flag it keeps. */
  function Rewritten(env: Env, r: Route, u: Update, feasible: bool): Route {
    r.(src := u.id,
       time := if (feasible || env.keepUnfeasible) && u.refmetric < INFINITY then env.now else r.time,
       seqno := u.seqno, refmetric := u.refmetric, cost := U16(u.cost), addMetric := U16(u.addMetric),
       holdTime := HoldTime(u.interval),
       installed := r.installed && (feasible || r.src == u.id))
  }

  /** The state update_route reaches before it reselects. */
  function Written<K(==)>(env: Env, s: Slot<K>, u: Update, k: K): Slot<K>
    requires Valid(s) && k in s.tab
  {
    var srcs := FindSource(s.srcs, u.id, u.seqno, env.now);
    var feasible := UpdateFeasible(env, srcs[u.id], u.seqno, u.refmetric);
    s.(srcs := srcs, tab := s.tab[k := Rewritten(env, s.tab[k], u, feasible)])
  }

  function NewRoute(env: Env, u: Update): Route {
    Route(u.id, u.refmetric, U16(u.cost), U16(u.addMetric), u.seqno, u.neigh, u.nexthop, env.now,
          HoldTime(u.interval), false)
  }

  /** `update_route` for a route that is already in the list, up to its final call of route_lost. */
  function AcceptKnown<K(==)>(env: Env, s: Slot<K>, u: Update, k: K): Slot<K>
    requires Valid(s) && k in s.tab && FindRoute(s, s.order, u.neigh, u.nexthop) == Some(k)
  {
    WrittenEvolves(env, s, u, k);
    RouteChanged(env, Written(env, s, u, k), k, Metric(s.tab[k]))
  }

  /** Whether that final call is due: an unfeasible update switched the source of the installed route. */
  predicate LosesInstalled<K>(env: Env, s: Slot<K>, u: Update, k: K)
    requires k in s.tab
  {
    var src := FindSource(s.srcs, u.id, u.seqno, env.now)[u.id];
    s.tab[k].installed && s.tab[k].src != u.id && !UpdateFeasible(env, src, u.seqno, u.refmetric)
  }

  /** `update_route` when no route matches; `newKey` names the route that is then allocated. */
  function AcceptNew<K(==)>(env: Env, s: Slot<K>, u: Update, newKey: K): Slot<K>
    requires Valid(s) && newKey !in s.tab
  {
    var srcs := FindSource(s.srcs, u.id, u.seqno, env.now);
    var feasible := UpdateFeasible(env, srcs[u.id], u.seqno, u.refmetric);
    if u.refmetric >= INFINITY || (!feasible && !env.keepUnfeasible) then s.(srcs := srcs)
    else
      AppendedEvolves(env, s, u, newKey);
      Consider(env, Appended(env, s, u, newKey), newKey)
  }

  /** Updates of our own, and those the input filter refuses, are dropped. */
  predicate Ignored(env: Env, u: Update) {
    u.id == env.me || u.addMetric >= INFINITY
  }

  /** `update_route` up to its final call of route_lost. */
  function Accept<K(==)>(env: Env, s: Slot<K>, u: Update, newKey: K): Slot<K>
    requires Valid(s) && newKey !in s.tab
  {
    if Ignored(env, u) then s
    else
      var found := FindRoute(s, s.order, u.neigh, u.nexthop);
      if found.Some? then AcceptKnown(env, s, u, found.value) else AcceptNew(env, s, u, newKey)
  }

  function Appended<K(==)>(env: Env, s: Slot<K>, u: Update, newKey: K): Slot<K> {
    Slot(s.order + [newKey], s.tab[newKey := NewRoute(env, u)],
         FindSource(s.srcs, u.id, u.seqno, env.now))
  }

  /** `change_route_metric` as it leaves the route; the kernel is assumed to comply. */
  function WithMetric<K(==)>(s: Slot<K>, k: K, refmetric: nat, cost: nat, addMetric: nat, seqno: int): Slot<K>
    requires k in s.tab
  {
    s.(tab := s.tab[k := s.tab[k].(refmetric := refmetric, cost := U16(cost),
                                   addMetric := U16(addMetric), seqno := seqno)])
  }

  /** Change a route's metric and reselect if the metric as a whole moved. */
  function Remetric<K(==)>(env: Env, s: Slot<K>, k: K, refmetric: nat, cost: nat, addMetric: nat, seqno: int): Slot<K>
    requires Valid(s) && k in s.tab
  {
    var s' := WithMetric(s, k, refmetric, cost, addMetric, seqno);
    if Metric(s'.tab[k]) != Metric(s.tab[k]) then RouteChanged(env, s', k, Metric(s.tab[k])) else s'
  }

  /** `update_route_metric`, given the neighbour's cost and the input filter's metric. */
  function UpdateRouteMetric<K(==)>(env: Env, s: Slot<K>, k: K, cost: nat, addMetric: nat): Slot<K>
    requires Valid(s) && k in s.tab
  {
    var r := s.tab[k];
    if !Expired(r, env.now) then Remetric(env, s, k, r.refmetric, cost, addMetric, r.seqno)
    else if r.refmetric >= INFINITY then s
    else Remetric(env, s, k, INFINITY, INFINITY, 0, Plus(env.arith, s.srcs[r.src].seqno, 1))
  }

  /** The body of `retract_neighbour_routes` for one route. */
  function Retract<K(==)>(env: Env, s: Slot<K>, k: K): Slot<K>
    requires Valid(s) && k in s.tab
  {
    if s.tab[k].refmetric == INFINITY then s
    else Remetric(env, s, k, INFINITY, INFINITY, 0, s.tab[k].seqno)
  }

  /** `flush_route` up to its call of route_lost, which is due if the route was installed. */
  function Unlink<K(==)>(s: Slot<K>, k: K): Slot<K>
    requires k in s.tab
  {
    s.(order := Remove(s.order, k), tab := s.tab - {k})
  }

  /** `uninstall_route` on the installed route, if any. */
  function Uninstall<K(==)>(s: Slot<K>): Slot<K>
    requires Valid(s)
  {
    if Installed(s).Some? then SetInstalled(s, Installed(s).value, false) else s
  }

  // ----- what every operation keeps

  /** The (seqno, refmetric) of a route is carried over, or retracted, or comes from the update. */
  ghost predicate Explained<K>(s: Slot<K>, k: K, r: Route, u: Option<Update>)
    requires Valid(s)
  {
    || (k in s.tab && r.src == s.tab[k].src && r.neigh == s.tab[k].neigh
        && (r.refmetric >= INFINITY || (r.seqno == s.tab[k].seqno && r.refmetric == s.tab[k].refmetric)))
    || (u.Some? && r.src == u.value.id && r.neigh == u.value.neigh
        && r.seqno == u.value.seqno && r.refmetric == u.value.refmetric
        && (k in s.tab ==> FindRoute(s, s.order, u.value.neigh, u.value.nexthop) == Some(k)))
  }

  /** The route was already installed for the same source through the same neighbour. */
  predicate WasInstalled<K>(s: Slot<K>, k: K, r: Route) {
    k in s.tab && s.tab[k].installed && s.tab[k].src == r.src && s.tab[k].neigh == r.neigh
  }

  /** One operation: sources are kept, routes are explained, new installations are feasible. */
  ghost predicate Evolves<K>(env: Env, s: Slot<K>, s': Slot<K>, u: Option<Update>)
    requires Valid(s)
  {
    && Valid(s')
    && (forall id :: id in s.srcs ==> id in s'.srcs && s'.srcs[id] == s.srcs[id])
    && (forall id :: id in s'.srcs && id !in s.srcs ==> s'.srcs[id].time == env.now)
    && (forall k :: k in s'.tab ==> Explained(s, k, s'.tab[k], u))
    && (forall k :: k in s'.tab && s'.tab[k].installed ==>
          WasInstalled(s, k, s'.tab[k]) || RouteFeasible(env, s'.srcs, s'.tab[k]))
  }

  lemma EvolvesThenReselected<K>(env: Env, s: Slot<K>, s1: Slot<K>, s2: Slot<K>, u: Option<Update>)
    requires Valid(s) && Evolves(env, s, s1, u) && Reselected(env, s1, s2)
    ensures Evolves(env, s, s2, u)
  {
    forall k | k in s2.tab
      ensures Explained(s, k, s2.tab[k], u)
      ensures s2.tab[k].installed ==> WasInstalled(s, k, s2.tab[k]) || RouteFeasible(env, s2.srcs, s2.tab[k])
    {
      assert k in s1.tab && Explained(s, k, s1.tab[k], u);
    }
  }

  lemma UnchangedEvolves<K>(env: Env, s: Slot<K>)
    requires Valid(s)
    ensures Evolves(env, s, s, None)
  {
    forall k | k in s.tab ensures Explained(s, k, s.tab[k], None) {
    }
  }

  lemma WrittenEvolves<K>(env: Env, s: Slot<K>, u: Update, k: K)
    requires Valid(s) && k in s.tab && FindRoute(s, s.order, u.neigh, u.nexthop) == Some(k)
    ensures Evolves(env, s, Written(env, s, u, k), Some(u))
  {
    var s' := Written(env, s, u, k);
    assert s'.tab.Keys == s.tab.Keys;
    forall x | x in s'.tab
      ensures Explained(s, x, s'.tab[x], Some(u))
      ensures s'.tab[x].installed ==> WasInstalled(s, x, s'.tab[x]) || RouteFeasible(env, s'.srcs, s'.tab[x])
    {
    }
  }

  lemma AppendedValid<K>(env: Env, s: Slot<K>, u: Update, newKey: K)
    requires Valid(s) && newKey !in s.tab
    ensures Valid(Appended(env, s, u, newKey))
  {
    var s' := Appended(env, s, u, newKey);
    assert newKey !in s.order;
    forall k | k in s'.tab ensures k in s'.order {
      assert k == newKey || k in s.order;
    }
    forall i | 0 < i < |s'.order| ensures !s'.tab[s'.order[i]].installed {
      if i < |s.order| {
        assert s'.order[i] == s.order[i] && s.order[i] in s.order;
      }
    }
  }

  lemma AppendedEvolves<K>(env: Env, s: Slot<K>, u: Update, newKey: K)
    requires Valid(s) && newKey !in s.tab
    ensures Evolves(env, s, Appended(env, s, u, newKey), Some(u))
  {
    AppendedValid(env, s, u, newKey);
    var s' := Appended(env, s, u, newKey);
    forall k | k in s'.tab ensures Explained(s, k, s'.tab[k], Some(u)) {
    }
  }

  lemma SourceAddedEvolves<K>(env: Env, s: Slot<K>, u: Update)
    requires Valid(s)
    ensures Evolves(env, s, s.(srcs := FindSource(s.srcs, u.id, u.seqno, env.now)), Some(u))
  {
    var s' := s.(srcs := FindSource(s.srcs, u.id, u.seqno, env.now));
    assert Valid(s');
  }

  lemma AcceptKnownEvolves<K>(env: Env, s: Slot<K>, u: Update, k: K)
    requires Valid(s) && k in s.tab && FindRoute(s, s.order, u.neigh, u.nexthop) == Some(k)
    ensures Evolves(env, s, AcceptKnown(env, s, u, k), Some(u))
  {
    var s1 := Written(env, s, u, k);
    WrittenEvolves(env, s, u, k);
    RouteChangedReselects(env, s1, k, Metric(s.tab[k]));
    EvolvesThenReselected(env, s, s1, RouteChanged(env, s1, k, Metric(s.tab[k])), Some(u));
  }

  lemma AcceptNewEvolves<K>(env: Env, s: Slot<K>, u: Update, newKey: K)
    requires Valid(s) && newKey !in s.tab
    ensures Evolves(env, s, AcceptNew(env, s, u, newKey), Some(u))
  {
    SourceAddedEvolves(env, s, u);
    var s1 := Appended(env, s, u, newKey);
    AppendedEvolves(env, s, u, newKey);
    ConsiderReselects(env, s1, newKey);
    EvolvesThenReselected(env, s, s1, Consider(env, s1, newKey), Some(u));
  }

  lemma AcceptEvolves<K>(env: Env, s: Slot<K>, u: Update, newKey: K)
    requires Valid(s) && newKey !in s.tab
    ensures Evolves(env, s, Accept(env, s, u, newKey), Some(u))
  {
    var found := FindRoute(s, s.order, u.neigh, u.nexthop);
    if Ignored(env, u) {
      UnchangedEvolves(env, s);
    } else if found.Some? {
      AcceptKnownEvolves(env, s, u, found.value);
    } else {
      AcceptNewEvolves(env, s, u, newKey);
    }
  }

  lemma WithMetricEvolves<K>(env: Env, s: Slot<K>, k: K, refmetric: nat, cost: nat, addMetric: nat, seqno: int)
    requires Valid(s) && k in s.tab
    requires refmetric >= INFINITY || (refmetric == s.tab[k].refmetric && seqno == s.tab[k].seqno)
    ensures Evolves(env, s, WithMetric(s, k, refmetric, cost, addMetric, seqno), None)
  {
    var s' := WithMetric(s, k, refmetric, cost, addMetric, seqno);
    assert s'.tab.Keys == s.tab.Keys;
  }

  lemma RemetricEvolves<K>(env: Env, s: Slot<K>, k: K, refmetric: nat, cost: nat, addMetric: nat, seqno: int)
    requires Valid(s) && k in s.tab
    requires refmetric >= INFINITY || (refmetric == s.tab[k].refmetric && seqno == s.tab[k].seqno)
    ensures Evolves(env, s, Remetric(env, s, k, refmetric, cost, addMetric, seqno), None)
  {
    var s1 := WithMetric(s, k, refmetric, cost, addMetric, seqno);
    WithMetricEvolves(env, s, k, refmetric, cost, addMetric, seqno);
    RouteChangedReselects(env, s1, k, Metric(s.tab[k]));
    EvolvesThenReselected(env, s, s1, RouteChanged(env, s1, k, Metric(s.tab[k])), None);
  }

  lemma UpdateRouteMetricEvolves<K>(env: Env, s: Slot<K>, k: K, cost: nat, addMetric: nat)
    requires Valid(s) && k in s.tab
    ensures Evolves(env, s, UpdateRouteMetric(env, s, k, cost, addMetric), None)
  {
    var r := s.tab[k];
    UnchangedEvolves(env, s);
    if Expired(r, env.now) {
      RemetricEvolves(env, s, k, INFINITY, INFINITY, 0, Plus(env.arith, s.srcs[r.src].seqno, 1));
    } else {
      RemetricEvolves(env, s, k, r.refmetric, cost, addMetric, r.seqno);
    }
  }

  lemma RetractEvolves<K>(env: Env, s: Slot<K>, k: K)
    requires Valid(s) && k in s.tab
    ensures Evolves(env, s, Retract(env, s, k), None)
  {
    UnchangedEvolves(env, s);
    RemetricEvolves(env, s, k, INFINITY, INFINITY, 0, s.tab[k].seqno);
  }

  lemma UnlinkValid<K>(s: Slot<K>, k: K)
    requires Valid(s) && k in s.tab
    ensures Valid(Unlink(s, k))
  {
    RemoveDistinct(s.order, k);
    RemoveKeepsTail(s.order, k);
    var s' := Unlink(s, k);
    forall i | 0 < i < |s'.order| ensures s'.order[i] in s.tab && !s'.tab[s'.order[i]].installed {
      var j :| 0 <= j < |s.order[1..]| && s.order[1..][j] == s'.order[i];
      assert s.order[j + 1] == s'.order[i];
      assert s'.order[i] in s'.order;
    }
  }

  lemma UnlinkEvolves<K>(env: Env, s: Slot<K>, k: K)
    requires Valid(s) && k in s.tab
    ensures Evolves(env, s, Unlink(s, k), None)
  {
    UnlinkValid(s, k);
    var s' := Unlink(s, k);
    forall x | x in s'.tab
      ensures Explained(s, x, s'.tab[x], None) && (s'.tab[x].installed ==> WasInstalled(s, x, s'.tab[x]))
    {
    }
  }

  /** What is not first after a removal was not first before. */
  lemma RemoveKeepsTail<K>(s: seq<K>, k: K)
    ensures forall i :: 0 < i < |Remove(s, k)| ==> Remove(s, k)[i] in s[1..]
  {
    if s != [] && s[0] != k {
      var t := Remove(s[1..], k);
      forall i | 0 < i < |Remove(s, k)| ensures Remove(s, k)[i] in s[1..] {
        assert Remove(s, k)[i] == t[i - 1] && t[i - 1] in t;
      }
    }
  }

  lemma UninstallEvolves<K>(env: Env, s: Slot<K>)
    requires Valid(s)
    ensures Evolves(env, s, Uninstall(s), None)
  {
    var s' := Uninstall(s);
    assert s'.tab.Keys == s.tab.Keys;
  }

  lemma RouteLostEvolves<K>(env: Env, s: Slot<K>)
    requires Valid(s)
    ensures Evolves(env, s, RouteLost(env, s), None)
  {
    UnchangedEvolves(env, s);
    RouteLostReselects(env, s);
    EvolvesThenReselected(env, s, s, RouteLost(env, s), None);
  }

  // ----- whole operations, with their final call of route_lost

  /** `update_route` when route `k` matches the update. */
  function UpdatedKnown<K(==)>(env: Env, s: Slot<K>, u: Update, k: K): Slot<K>
    requires Valid(s) && k in s.tab && FindRoute(s, s.order, u.neigh, u.nexthop) == Some(k)
  {
    var s' := AcceptKnown(env, s, u, k);
    AcceptKnownEvolves(env, s, u, k);
    if LosesInstalled(env, s, u, k) then RouteLost(env, s') else s'
  }

  /** An update that matches no route adds one, unless it is retracted or refused. */
  predicate Adds<K>(env: Env, s: Slot<K>, u: Update) {
    Accepts(env, s.srcs, u)
  }

  predicate Accepts(env: Env, srcs: map<RouterId, Source>, u: Update) {
    var src := FindSource(srcs, u.id, u.seqno, env.now)[u.id];
    u.refmetric < INFINITY && (UpdateFeasible(env, src, u.seqno, u.refmetric) || env.keepUnfeasible)
  }

  /** The route that update_route returns: the one that matched or was added, if any. */
  ghost predicate Returns<K>(env: Env, s: Slot<K>, u: Update, r: Option<K>)
    requires Valid(s)
  {
    var found := FindRoute(s, s.order, u.neigh, u.nexthop);
    if Ignored(env, u) then r.None?
    else if found.Some? then r == found
    else if Adds(env, s, u) then r.Some? && r.value !in s.tab
    else r.None?
  }

  /** `update_route` on the slot of the update's prefix. */
  ghost function Updated<K>(env: Env, s: Slot<K>, u: Update, r: Option<K>): Slot<K>
    requires Valid(s) && Returns(env, s, u, r)
  {
    if Ignored(env, u) then s
    else if r.None? then s.(srcs := FindSource(s.srcs, u.id, u.seqno, env.now))
    else if r.value in s.tab then UpdatedKnown(env, s, u, r.value)
    else AcceptNew(env, s, u, r.value)
  }

  /** Whether update_route ends with a call of route_lost. */
  predicate Loses<K>(env: Env, s: Slot<K>, u: Update)
    requires Valid(s)
  {
    var found := FindRoute(s, s.order, u.neigh, u.nexthop);
    !Ignored(env, u) && found.Some? && LosesInstalled(env, s, u, found.value)
  }

  /** `update_route` is what it does up to that call, and the call if it is due. */
  lemma UpdatedIsAccept<K>(env: Env, s: Slot<K>, u: Update, r: Option<K>, newKey: K)
    requires Valid(s) && Returns(env, s, u, r) && newKey !in s.tab
    requires r.Some? && r.value !in s.tab ==> r.value == newKey
    ensures Valid(Accept(env, s, u, newKey))
    ensures Updated(env, s, u, r) ==
            if Loses(env, s, u) then RouteLost(env, Accept(env, s, u, newKey)) else Accept(env, s, u, newKey)
  {
    AcceptEvolves(env, s, u, newKey);
  }

  /** `flush_route` on the slot of the route. */
  function Dropped<K(==)>(env: Env, s: Slot<K>, k: K): Slot<K>
    requires Valid(s) && k in s.tab
  {
    UnlinkValid(s, k);
    if s.tab[k].installed then RouteLost(env, Unlink(s, k)) else Unlink(s, k)
  }

  /** Flushing drops one route; the others stay, and only their installed flag may change. */
  lemma DroppedKeeps<K>(env: Env, s: Slot<K>, k: K)
    requires Valid(s) && k in s.tab
    ensures var s' := Dropped(env, s, k);
            && Valid(s') && s'.srcs == s.srcs && s'.tab.Keys == s.tab.Keys - {k}
            && (forall x :: x in s'.tab ==> s'.tab[x] == s.tab[x].(installed := s'.tab[x].installed))
  {
    UnlinkValid(s, k);
    RouteLostReselects(env, Unlink(s, k));
  }

  // ----- who uses which source

  /** The routes that refer to a source. */
  function Users<K>(tab: map<K, Route>, id: RouterId): set<K> {
    set k | k in tab && tab[k].src == id
  }

  /** Selection leaves every reference in place. */
  lemma ReselectedUsers<K>(env: Env, s: Slot<K>, s': Slot<K>, id: RouterId)
    requires Valid(s) && Reselected(env, s, s')
    ensures Users(s'.tab, id) == Users(s.tab, id)
  {
  }

  lemma WrittenUsers<K>(env: Env, s: Slot<K>, u: Update, k: K, id: RouterId)
    requires Valid(s) && k in s.tab
    ensures Users(Written(env, s, u, k).tab, id)
            == if id == u.id then Users(s.tab, id) + {k} else Users(s.tab, id) - {k}
  {
  }

  /** An update moves one reference from the old source of the route to the new one. */
  lemma AcceptKnownUsers<K>(env: Env, s: Slot<K>, u: Update, k: K, id: RouterId)
    requires Valid(s) && k in s.tab && FindRoute(s, s.order, u.neigh, u.nexthop) == Some(k)
    ensures AcceptKnown(env, s, u, k).tab.Keys == s.tab.Keys
    ensures Users(AcceptKnown(env, s, u, k).tab, id)
            == if id == u.id then Users(s.tab, id) + {k} else Users(s.tab, id) - {k}
  {
    WrittenEvolves(env, s, u, k);
    WrittenUsers(env, s, u, k, id);
    var s1 := Written(env, s, u, k);
    var s2 := AcceptKnown(env, s, u, k);
    assert Reselected(env, s1, s2) by {
      RouteChangedReselects(env, s1, k, Metric(s.tab[k]));
    }
    ReselectedUsers(env, s1, s2, id);
  }

  lemma AppendedUsers<K>(env: Env, s: Slot<K>, u: Update, newKey: K, id: RouterId)
    requires newKey !in s.tab
    ensures Users(Appended(env, s, u, newKey).tab, id)
            == if id == u.id then Users(s.tab, id) + {newKey} else Users(s.tab, id)
  {
  }

  lemma ConsideredUsers<K>(env: Env, s: Slot<K>, k: K, id: RouterId)
    requires Valid(s) && k in s.tab
    ensures Consider(env, s, k).tab.Keys == s.tab.Keys && Users(Consider(env, s, k).tab, id) == Users(s.tab, id)
  {
    var s' := Consider(env, s, k);
    assert Reselected(env, s, s') by {
      ConsiderReselects(env, s, k);
    }
    ReselectedUsers(env, s, s', id);
  }

  lemma AcceptNewUsers<K>(env: Env, s: Slot<K>, u: Update, newKey: K, id: RouterId)
    requires Valid(s) && newKey !in s.tab
    ensures AcceptNew(env, s, u, newKey).tab.Keys == s.tab.Keys + (if Adds(env, s, u) then {newKey} else {})
    ensures Users(AcceptNew(env, s, u, newKey).tab, id)
            == if id == u.id && Adds(env, s, u) then Users(s.tab, id) + {newKey} else Users(s.tab, id)
  {
    if Adds(env, s, u) {
      AppendedValid(env, s, u, newKey);
      AppendedUsers(env, s, u, newKey, id);
      ConsideredUsers(env, Appended(env, s, u, newKey), newKey, id);
    }
  }

  /** Changing metrics and the installed flag leaves every reference in place. */
  lemma RemetricUsers<K>(env: Env, s: Slot<K>, k: K, refmetric: nat, cost: nat, addMetric: nat, seqno: int,
                         id: RouterId)
    requires Valid(s) && k in s.tab
    requires refmetric >= INFINITY || (refmetric == s.tab[k].refmetric && seqno == s.tab[k].seqno)
    ensures var s' := Remetric(env, s, k, refmetric, cost, addMetric, seqno);
            Valid(s') && s'.srcs == s.srcs && s'.tab.Keys == s.tab.Keys && Users(s'.tab, id) == Users(s.tab, id)
  {
    var s1 := WithMetric(s, k, refmetric, cost, addMetric, seqno);
    WithMetricEvolves(env, s, k, refmetric, cost, addMetric, seqno);
    assert Users(s1.tab, id) == Users(s.tab, id);
    RouteChangedReselects(env, s1, k, Metric(s.tab[k]));
    ReselectedUsers(env, s1, RouteChanged(env, s1, k, Metric(s.tab[k])), id);
  }

  lemma UpdateRouteMetricUsers<K>(env: Env, s: Slot<K>, k: K, cost: nat, addMetric: nat, id: RouterId)
    requires Valid(s) && k in s.tab
    ensures var s' := UpdateRouteMetric(env, s, k, cost, addMetric);
            Valid(s') && s'.srcs == s.srcs && s'.tab.Keys == s.tab.Keys && Users(s'.tab, id) == Users(s.tab, id)
  {
    var r := s.tab[k];
    if Expired(r, env.now) {
      RemetricUsers(env, s, k, INFINITY, INFINITY, 0, Plus(env.arith, s.srcs[r.src].seqno, 1), id);
    } else {
      RemetricUsers(env, s, k, r.refmetric, cost, addMetric, r.seqno, id);
    }
  }

  lemma UninstallUsers<K>(s: Slot<K>, id: RouterId)
    requires Valid(s)
    ensures var s' := Uninstall(s);
            Valid(s') && s'.srcs == s.srcs && s'.tab.Keys == s.tab.Keys && Users(s'.tab, id) == Users(s.tab, id)
  {
    var s' := Uninstall(s);
    assert s'.tab.Keys == s.tab.Keys;
  }
}
