/**
 * The linked lists of routes that babeld/route.c keeps, one per prefix. Every list method
 * walks the `next` links as the program does and is specified on the sequence of routes.
 */
module RouteList {
  import opened Basics
  import opened SeqNo
  import opened Selection

  class RouteObj {
    const prefix: Prefix
    const neigh: Neighbour
    const nexthop: Address
    var src: RouterId
    var refmetric: nat
    var cost: nat
    var addMetric: nat
    var seqno: int
    var time: int
    var holdTime: int
    var installed: bool
    var next: RouteObj?

    constructor (p: Prefix, r: Route)
      ensures prefix == p && Value() == r && next == null
    {
      prefix, neigh, nexthop := p, r.neigh, r.nexthop;
      src, refmetric, cost, addMetric, seqno := r.src, r.refmetric, r.cost, r.addMetric, r.seqno;
      time, holdTime, installed, next := r.time, r.holdTime, r.installed, null;
    }

    /** Overwrite everything but the identity and the link of the route. */
    method Store(r: Route)
      requires r.neigh == neigh && r.nexthop == nexthop
      modifies `src, `refmetric, `cost, `addMetric, `seqno, `time, `holdTime, `installed
      ensures Value() == r
    {
      src, refmetric, cost, addMetric, seqno := r.src, r.refmetric, r.cost, r.addMetric, r.seqno;
      time, holdTime, installed := r.time, r.holdTime, r.installed;
    }

    method SetMetric(refmetric: nat, cost: nat, addMetric: nat, seqno: int)
      modifies `refmetric, `cost, `addMetric, `seqno
      ensures Value() == old(Value()).(refmetric := refmetric, cost := cost, addMetric := addMetric, seqno := seqno)
    {
      this.refmetric, this.cost, this.addMetric, this.seqno := refmetric, cost, addMetric, seqno;
    }

    function Value(): Route
      reads this
    {
      Route(src, refmetric, cost, addMetric, seqno, neigh, nexthop, time, holdTime, installed)
    }
  }

  /** The routes of `s` in order, linked by `next` and ended by null. */
  ghost predicate Chain(s: seq<RouteObj>)
    reads s
  {
    Distinct(s) && forall j :: 0 <= j < |s| ==> s[j].next == After(s, j)
  }

  /** `rs` contains the routes of a list; it is what the list methods may write to. */
  ghost predicate Within(s: seq<RouteObj>, rs: set<RouteObj>) {
    forall j :: 0 <= j < |s| ==> s[j] in rs
  }

  function After(s: seq<RouteObj>, j: nat): RouteObj? {
    if j + 1 < |s| then s[j + 1] else null
  }

  ghost function Tab(s: seq<RouteObj>): map<RouteObj, Route>
    reads s
  {
    map r | r in s :: r.Value()
  }

  /** Removing the element at an index. */
  lemma {:induction false} RemoveAt<K>(s: seq<K>, j: nat)
    requires j < |s| && Distinct(s)
    ensures Remove(s, s[j]) == s[..j] + s[j + 1..]
  {
    if j > 0 {
      var t := s[1..];
      RemoveAt(t, j - 1);
      assert s[0] != s[j];
      assert t[..j - 1] + t[j..] == s[1..j] + s[j + 1..];
      assert s[..j] == [s[0]] + s[1..j];
    }
  }

  /** The walk of insert_route: link a route behind the last one. */
  method Append(head: RouteObj, r: RouteObj, ghost s: seq<RouteObj>, ghost rs: set<RouteObj>)
    requires Within(s, rs)
    requires Chain(s) && s != [] && s[0] == head && r !in s
    modifies rs`next, r`next
    ensures Chain(s + [r])
  {
    var last := head;
    ghost var j := 0;
    while last.next != null
      invariant j < |s| && s[j] == last
      decreases |s| - j
    {
      last := last.next;
      j := j + 1;
    }
    last.next := r;
    r.next := null;
    ghost var t := s + [r];
    forall i | 0 <= i < |t| ensures t[i].next == After(t, i) {
      assert i < |s| ==> t[i] == s[i];
    }
  }

  /** The walk of flush_route and move_installed_route: the route before `r`. */
  method Before(head: RouteObj, r: RouteObj, ghost s: seq<RouteObj>) returns (p: RouteObj, ghost j: nat)
    requires Chain(s) && r in s && s[0] == head && r != head
    ensures 0 < j < |s| && s[j] == r && p == s[j - 1] && p.next == r
  {
    ghost var k: nat :| k < |s| && s[k] == r;
    p := head;
    j := 1;
    while p.next != r
      invariant 1 <= j <= k && p == s[j - 1]
      decreases |s| - j
    {
      p := p.next;
      j := j + 1;
    }
    assert s[j - 1].next == s[j];
  }

  /** Take a route that is not the head out of its list. */
  method UnlinkInner(head: RouteObj, r: RouteObj, ghost s: seq<RouteObj>, ghost rs: set<RouteObj>)
    requires Within(s, rs)
    requires Chain(s) && r in s && s[0] == head && r != head
    modifies rs`next
    ensures Chain(Remove(s, r)) && r.next == null
    ensures |Remove(s, r)| > 0 && Remove(s, r)[0] == head
  {
    var p, j := Before(head, r, s);
    p.next := r.next;
    r.next := null;
    RemoveAt(s, j);
    RemoveDistinct(s, r);
    ghost var t := Remove(s, r);
    forall i | 0 <= i < |t| ensures t[i].next == After(t, i) {
      assert t[i] == if i < j then s[i] else s[i + 1];
    }
  }

  /** The links after a route was moved to the front. */
  lemma MovedChain(s: seq<RouteObj>, j: nat)
    requires Distinct(s) && 0 < j < |s|
    requires s[j].next == s[0] && s[j - 1].next == After(s, j)
    requires forall i :: 0 <= i < |s| && i != j && i != j - 1 ==> s[i].next == After(s, i)
    ensures Chain(MoveToFront(s, s[j]))
  {
    var t := MoveToFront(s, s[j]);
    RemoveAt(s, j);
    RemoveDistinct(s, s[j]);
    forall i | 0 <= i < |t| ensures t[i].next == After(t, i) {
      assert t[i] == if i == 0 then s[j] else if i <= j then s[i - 1] else s[i];
    }
  }

  /** `move_installed_route`: make a route the head of its list. */
  method MoveFirst(head: RouteObj, r: RouteObj, ghost s: seq<RouteObj>, ghost rs: set<RouteObj>)
    requires Within(s, rs)
    requires Chain(s) && r in s && s[0] == head
    modifies rs`next
    ensures Chain(MoveToFront(s, r))
  {
    if r != head {
      var p, j := Before(head, r, s);
      p.next := r.next;
      r.next := head;
      MovedChain(s, j);
    } else {
      RemoveAt(s, 0);
      assert MoveToFront(s, r) == s;
    }
  }

  // ----- route selection on one list

  /** A list is linked in order, and only its head may be installed. */
  ghost predicate ListOk(s: seq<RouteObj>)
    reads s
  {
    Chain(s) && forall j :: 0 < j < |s| ==> !s[j].installed
  }

  ghost predicate SlotOk(s: seq<RouteObj>, srcs: map<RouterId, Source>)
    reads s
  {
    ListOk(s) && forall r :: r in s ==> r.src in srcs
  }

  /** The same routes, perhaps in another order. */
  ghost predicate SameRoutes(s: seq<RouteObj>, s': seq<RouteObj>) {
    (forall x :: x in s' ==> x in s) && (forall x :: x in s ==> x in s')
  }

  /** A list as route selection sees it. */
  ghost function SlotOf(s: seq<RouteObj>, srcs: map<RouterId, Source>): (v: Slot<RouteObj>)
    requires SlotOk(s, srcs)
    reads s
    ensures Valid(v) && v.order == s && v.srcs == srcs
  {
    Slot(s, Tab(s), srcs)
  }

  lemma MovedListOk(s: seq<RouteObj>, r: RouteObj)
    requires Chain(MoveToFront(s, r)) && r in s
    requires forall x :: x in s && x != r ==> !x.installed
    ensures ListOk(MoveToFront(s, r))
  {
    var t := MoveToFront(s, r);
    forall j | 0 < j < |t| ensures !t[j].installed {
      assert t[j] == Remove(s, r)[j - 1] && t[j] in Remove(s, r) && t[0] != t[j];
    }
  }

  /** Mark a route as the installed one and make it the head of its list. */
  method Promote(head: RouteObj, r: RouteObj, ghost s: seq<RouteObj>, ghost rs: set<RouteObj>)
    requires Within(s, rs)
    requires ListOk(s) && r in s && s[0] == head && !r.installed
    modifies rs`next, head`installed, r`installed
    ensures ListOk(MoveToFront(s, r))
    ensures forall x :: x in s ==> x.Value() == old(x.Value()).(installed := x == r)
  {
    assert forall x :: x in s && x != head ==> !x.installed;
    head.installed := false;
    r.installed := true;
    MoveFirst(head, r, s, rs);
    MovedListOk(s, r);
  }

  /** `switch_routes` from the installed route, if any; the kernel is assumed to comply. */
  method SwitchRoutes(srcs: map<RouterId, Source>, head: RouteObj, r: RouteObj, ghost s: seq<RouteObj>,
                      ghost rs: set<RouteObj>)
    requires Within(s, rs)
    requires SlotOk(s, srcs) && r in s && s[0] == head && !r.installed
    modifies rs`next, rs`installed
    ensures SlotOk(MoveToFront(s, r), srcs)
    ensures SlotOf(MoveToFront(s, r), srcs) == Switch(old(SlotOf(s, srcs)), Installed(old(SlotOf(s, srcs))), r)
  {
    ghost var v := SlotOf(s, srcs);
    Promote(head, r, s, rs);
    ghost var s' := MoveToFront(s, r);
    assert forall x :: x in s' ==> x in s;
    SwitchIs(v, SlotOf(s', srcs), r);
  }

  /** `consider_route`, with switch_routes and install_route; the kernel is assumed to comply. */
  method ConsiderRoute(env: Env, srcs: map<RouterId, Source>, head: RouteObj, r: RouteObj, ghost s: seq<RouteObj>,
                       ghost rs: set<RouteObj>)
    returns (head': RouteObj, ghost s': seq<RouteObj>)
    requires Within(s, rs)
    requires SlotOk(s, srcs) && r in s && s[0] == head
    modifies rs`next, rs`installed
    ensures SlotOk(s', srcs) && s' != [] && s'[0] == head' && SameRoutes(s, s')
    ensures SlotOf(s', srcs) == Consider(env, old(SlotOf(s, srcs)), r)
  {
    head', s' := head, s;
    ghost var v := SlotOf(s, srcs);
    assert v.tab[r] == r.Value() && v.tab[head] == head.Value() && v.order[0] == head;
    if r.installed || !UpdateFeasible(env, srcs[r.src], r.seqno, r.refmetric) {
      return;
    }
    if env.xroute.Some? && (env.allowDuplicates < 0 || env.xroute.value >= env.allowDuplicates) {
      return;
    }
    if head.installed {
      if Metric(r.Value()) >= INFINITY {
        return;
      }
      if Metric(head.Value()) < INFINITY && Metric(head.Value()) < Metric(r.Value()) + 64 {
        return;
      }
    }
    SwitchRoutes(srcs, head, r, s, rs);
    head', s' := r, MoveToFront(s, r);
  }

  /** `find_best_route` for feasible routes of any neighbour. */
  method FindBestRoute(env: Env, srcs: map<RouterId, Source>, head: RouteObj,
                       ghost s: seq<RouteObj>) returns (best: RouteObj)
    requires SlotOk(s, srcs) && s != [] && s[0] == head
    ensures Some(best) == FindBest(env, SlotOf(s, srcs)) && best in s
  {
    ghost var v := SlotOf(s, srcs);
    best := head;
    var r := head.next;
    ghost var j := 1;
    while r != null
      invariant 1 <= j <= |s| && r == After(s, j - 1) && best in s
      invariant BestOf(env, v, best, s[j..]) == BestOf(env, v, head, s[1..])
      decreases |s| - j
    {
      assert s[j..][0] == r && s[j..][1..] == s[j + 1..];
      if !Expired(r.Value(), env.now) && UpdateFeasible(env, srcs[r.src], r.seqno, r.refmetric)
         && Metric(r.Value()) < Metric(best.Value())
      {
        best := r;
      }
      r := r.next;
      j := j + 1;
    }
  }

  /** `route_changed`. */
  method RouteChangedIn(env: Env, srcs: map<RouterId, Source>, head: RouteObj, r: RouteObj, oldMetric: nat,
                        ghost s: seq<RouteObj>, ghost rs: set<RouteObj>)
    returns (head': RouteObj, ghost s': seq<RouteObj>)
    requires Within(s, rs)
    requires SlotOk(s, srcs) && r in s && s[0] == head
    modifies rs`next, rs`installed
    ensures SlotOk(s', srcs) && s' != [] && s'[0] == head' && SameRoutes(s, s')
    ensures SlotOf(s', srcs) == RouteChanged(env, old(SlotOf(s, srcs)), r, oldMetric)
  {
    head', s' := head, s;
    if !r.installed {
      head', s' := ConsiderRoute(env, srcs, head, r, s, rs);
    } else if Metric(r.Value()) > oldMetric {
      var better := FindBestRoute(env, srcs, head, s);
      if Metric(better.Value()) <= Metric(r.Value()) - 96 {
        head', s' := ConsiderRoute(env, srcs, head, better, s, rs);
      }
    }
  }

  /** `route_lost` on a list that may have become empty. */
  method RouteLostIn(env: Env, srcs: map<RouterId, Source>, head: RouteObj?, ghost s: seq<RouteObj>,
                     ghost rs: set<RouteObj>)
    returns (head': RouteObj?, ghost s': seq<RouteObj>)
    requires Within(s, rs)
    requires SlotOk(s, srcs) && head == (if s == [] then null else s[0])
    modifies rs`next, rs`installed
    ensures SlotOk(s', srcs) && head' == (if s' == [] then null else s'[0]) && SameRoutes(s, s')
    ensures SlotOf(s', srcs) == RouteLost(env, old(SlotOf(s, srcs)))
  {
    head', s' := head, s;
    if head != null {
      var best := FindBestRoute(env, srcs, head, s);
      head', s' := ConsiderRoute(env, srcs, head, best, s, rs);
    }
  }

  /** The walk of `find_route`. */
  method FindRouteIn(head: RouteObj, neigh: Neighbour, nexthop: Address, ghost srcs: map<RouterId, Source>,
                     ghost s: seq<RouteObj>) returns (r: RouteObj?)
    requires SlotOk(s, srcs) && s != [] && s[0] == head
    ensures FindRoute(SlotOf(s, srcs), s, neigh, nexthop) == if r == null then None else Some(r)
  {
    ghost var v := SlotOf(s, srcs);
    r := head;
    ghost var j := 0;
    while r != null && !(r.neigh == neigh && r.nexthop == nexthop)
      invariant 0 <= j <= |s| && r == (if j < |s| then s[j] else null)
      invariant FindRoute(v, s[j..], neigh, nexthop) == FindRoute(v, s, neigh, nexthop)
      decreases |s| - j
    {
      assert s[j..][0] == r && s[j..][1..] == s[j + 1..];
      r := r.next;
      j := j + 1;
    }
    assert r != null ==> s[j..][0] == r;
  }

  /** The part of update_route that writes an update into a known route and reselects. */
  method UpdateKnown(env: Env, srcs: map<RouterId, Source>, head: RouteObj, r: RouteObj, u: Update,
                     ghost s: seq<RouteObj>, ghost before: map<RouterId, Source>, ghost rs: set<RouteObj>)
    returns (head': RouteObj, lost: bool, ghost s': seq<RouteObj>)
    requires Within(s, rs)
    requires SlotOk(s, before) && r in s && s[0] == head && srcs == FindSource(before, u.id, u.seqno, env.now)
    requires FindRoute(SlotOf(s, before), s, u.neigh, u.nexthop) == Some(r)
    modifies rs`next, rs`installed, r`src, r`refmetric, r`cost, r`addMetric, r`seqno, r`time, r`holdTime
    ensures SlotOk(s', srcs) && s' != [] && s'[0] == head' && SameRoutes(s, s')
    ensures SlotOf(s', srcs) == AcceptKnown(env, old(SlotOf(s, before)), u, r)
    ensures lost == LosesInstalled(env, old(SlotOf(s, before)), u, r)
  {
    var oldMetric := Metric(r.Value());
    lost := WriteUpdate(env, srcs, r, u, s, before);
    head', s' := RouteChangedIn(env, srcs, head, r, oldMetric, s, rs);
  }

  /** `update_route` for a route of the list, with its final call of route_lost. */
  method UpdateRouteIn(env: Env, srcs: map<RouterId, Source>, head: RouteObj, r: RouteObj, u: Update,
                       ghost s: seq<RouteObj>, ghost before: map<RouterId, Source>, ghost rs: set<RouteObj>)
    returns (head': RouteObj, ghost s': seq<RouteObj>)
    requires Within(s, rs)
    requires SlotOk(s, before) && r in s && s[0] == head && srcs == FindSource(before, u.id, u.seqno, env.now)
    requires FindRoute(SlotOf(s, before), s, u.neigh, u.nexthop) == Some(r)
    modifies rs
    ensures SlotOk(s', srcs) && s' != [] && s'[0] == head' && SameRoutes(s, s')
    ensures SlotOf(s', srcs) == UpdatedKnown(env, old(SlotOf(s, before)), u, r)
  {
    ghost var v := SlotOf(s, before);
    var lost;
    head', lost, s' := UpdateKnown(env, srcs, head, r, u, s, before, rs);
    if lost {
      SameWithin(s, s', rs);
      head', s' := RouteLostIn(env, srcs, head', s', rs);
    }
  }

  lemma SameWithin(s: seq<RouteObj>, s': seq<RouteObj>, rs: set<RouteObj>)
    requires Within(s, rs) && SameRoutes(s, s')
    ensures Within(s', rs)
  {
    forall j | 0 <= j < |s'| ensures s'[j] in rs {
      assert s'[j] in s';
    }
  }

  /** Overwriting a route of a list, without installing it. */
  method StoreIn(r: RouteObj, x: Route, ghost s: seq<RouteObj>)
    requires ListOk(s) && r in s && x.neigh == r.neigh && x.nexthop == r.nexthop && (x.installed ==> r.installed)
    modifies r`src, r`refmetric, r`cost, r`addMetric, r`seqno, r`time, r`holdTime, r`installed
    ensures ListOk(s) && Tab(s) == old(Tab(s))[r := x]
  {
    r.Store(x);
  }

  method WriteUpdate(env: Env, srcs: map<RouterId, Source>, r: RouteObj, u: Update, ghost s: seq<RouteObj>,
                     ghost before: map<RouterId, Source>)
    returns (lost: bool)
    requires SlotOk(s, before) && r in s && srcs == FindSource(before, u.id, u.seqno, env.now)
    modifies r`src, r`refmetric, r`cost, r`addMetric, r`seqno, r`time, r`holdTime, r`installed
    ensures SlotOk(s, srcs)
    ensures SlotOf(s, srcs) == Written(env, old(SlotOf(s, before)), u, r)
    ensures lost == LosesInstalled(env, old(SlotOf(s, before)), u, r)
  {
    ghost var v := SlotOf(s, before);
    var feasible := UpdateFeasible(env, srcs[u.id], u.seqno, u.refmetric);
    var time, installed := r.time, r.installed;
    lost := false;
    if !feasible && r.installed && r.src != u.id {
      installed := false;
      lost := true;
    }
    if (feasible || env.keepUnfeasible) && u.refmetric < INFINITY {
      time := env.now;
    }
    StoreIn(r, Route(u.id, u.refmetric, U16(u.cost), U16(u.addMetric), u.seqno, r.neigh, r.nexthop, time,
                     HoldTime(u.interval), installed), s);
    assert Tab(s) == Written(env, v, u, r).tab;
  }

  /** `change_route_metric` on a route of a list; the kernel is assumed to comply. */
  method ChangeRouteMetric(r: RouteObj, refmetric: nat, cost: nat, addMetric: nat, seqno: int, ghost s: seq<RouteObj>)
    requires ListOk(s) && r in s
    modifies r`refmetric, r`cost, r`addMetric, r`seqno
    ensures ListOk(s)
    ensures Tab(s) == old(Tab(s))[r := old(r.Value()).(refmetric := refmetric, cost := U16(cost),
                                                       addMetric := U16(addMetric), seqno := seqno)]
  {
    r.SetMetric(refmetric, U16(cost), U16(addMetric), seqno);
  }

  /** `change_route_metric` followed by `route_changed` when the metric moved. */
  method RemetricIn(env: Env, srcs: map<RouterId, Source>, head: RouteObj, r: RouteObj, refmetric: nat, cost: nat,
                    addMetric: nat, seqno: int, ghost s: seq<RouteObj>, ghost rs: set<RouteObj>)
    returns (head': RouteObj, ghost s': seq<RouteObj>)
    requires Within(s, rs)
    requires SlotOk(s, srcs) && r in s && s[0] == head
    modifies rs`next, rs`installed, r`refmetric, r`cost, r`addMetric, r`seqno
    ensures SlotOk(s', srcs) && s' != [] && s'[0] == head' && SameRoutes(s, s')
    ensures SlotOf(s', srcs) == Remetric(env, old(SlotOf(s, srcs)), r, refmetric, cost, addMetric, seqno)
  {
    ghost var v := SlotOf(s, srcs);
    var oldMetric := Metric(r.Value());
    ChangeRouteMetric(r, refmetric, cost, addMetric, seqno, s);
    assert SlotOf(s, srcs) == WithMetric(v, r, refmetric, cost, addMetric, seqno);
    head', s' := head, s;
    if Metric(r.Value()) != oldMetric {
      head', s' := RouteChangedIn(env, srcs, head, r, oldMetric, s, rs);
    }
  }

  /** `update_route_metric`, given the neighbour's cost and the input filter's metric. */
  method UpdateMetricIn(env: Env, srcs: map<RouterId, Source>, head: RouteObj, r: RouteObj, cost: nat,
                        addMetric: nat, ghost s: seq<RouteObj>, ghost rs: set<RouteObj>)
    returns (head': RouteObj, ghost s': seq<RouteObj>)
    requires Within(s, rs)
    requires SlotOk(s, srcs) && r in s && s[0] == head
    modifies rs
    ensures SlotOk(s', srcs) && s' != [] && s'[0] == head' && SameRoutes(s, s')
    ensures SlotOf(s', srcs) == UpdateRouteMetric(env, old(SlotOf(s, srcs)), r, cost, addMetric)
  {
    head', s' := head, s;
    if !Expired(r.Value(), env.now) {
      head', s' := RemetricIn(env, srcs, head, r, r.refmetric, cost, addMetric, r.seqno, s, rs);
    } else if r.refmetric < INFINITY {
      head', s' := RemetricIn(env, srcs, head, r, INFINITY, INFINITY, 0, Plus(env.arith, srcs[r.src].seqno, 1), s, rs);
    }
  }

  /** Take the first route off its list. */
  method UnlinkHead(r: RouteObj, ghost s: seq<RouteObj>) returns (head': RouteObj?)
    requires Chain(s) && s != [] && s[0] == r
    modifies r`next
    ensures Remove(s, r) == s[1..] && Chain(s[1..]) && head' == if s[1..] == [] then null else s[1]
  {
    head' := r.next;
    r.next := null;
    forall j | 0 <= j < |s[1..]| ensures s[1..][j].next == After(s[1..], j) {
      assert s[1..][j] == s[j + 1];
    }
  }

  /** Take a route out of its list, wherever it stands. */
  method UnlinkAny(head: RouteObj, r: RouteObj, ghost s: seq<RouteObj>,
                   ghost rs: set<RouteObj>) returns (head': RouteObj?)
    requires Within(s, rs)
    requires Chain(s) && r in s && s[0] == head
    modifies rs`next
    ensures Chain(Remove(s, r)) && head' == if Remove(s, r) == [] then null else Remove(s, r)[0]
  {
    if r == head {
      head' := UnlinkHead(r, s);
    } else {
      UnlinkInner(head, r, s, rs);
      head' := head;
    }
  }

  method UnlinkIn(head: RouteObj, r: RouteObj, ghost s: seq<RouteObj>, ghost srcs: map<RouterId, Source>,
                  ghost rs: set<RouteObj>)
    returns (head': RouteObj?)
    requires Within(s, rs)
    requires SlotOk(s, srcs) && r in s && s[0] == head
    modifies rs`next
    ensures SlotOk(Remove(s, r), srcs) && head' == (if Remove(s, r) == [] then null else Remove(s, r)[0])
    ensures SlotOf(Remove(s, r), srcs) == Unlink(old(SlotOf(s, srcs)), r)
  {
    ghost var v := SlotOf(s, srcs);
    head' := UnlinkAny(head, r, s, rs);
    UnlinkedSlot(v, r, Remove(s, r), srcs);
  }

  lemma UnlinkedSlot(v: Slot<RouteObj>, r: RouteObj, t: seq<RouteObj>, srcs: map<RouterId, Source>)
    requires Valid(v) && r in v.tab && v.srcs == srcs && t == Remove(v.order, r) && Chain(t)
    requires forall x :: x in t ==> x in v.tab && x.Value() == v.tab[x]
    ensures SlotOk(t, srcs) && SlotOf(t, srcs) == Unlink(v, r)
  {
    UnlinkValid(v, r);
    RemoveDistinct(v.order, r);
    forall j | 0 < j < |t| ensures !t[j].installed {
      assert t[j] in t;
    }
    assert Tab(t) == v.tab - {r};
  }

  /** `flush_route` on one list. */
  method FlushIn(env: Env, srcs: map<RouterId, Source>, head: RouteObj, r: RouteObj, ghost s: seq<RouteObj>,
                 ghost rs: set<RouteObj>)
    returns (head': RouteObj?, ghost s': seq<RouteObj>)
    requires Within(s, rs)
    requires SlotOk(s, srcs) && r in s && s[0] == head
    modifies rs
    ensures SlotOk(s', srcs) && head' == (if s' == [] then null else s'[0]) && (forall x :: x in s' ==> x in s)
    ensures SlotOf(s', srcs) == Dropped(env, old(SlotOf(s, srcs)), r)
  {
    ghost var v := SlotOf(s, srcs);
    assert v.tab[r] == r.Value();
    var lost := r.installed;
    head' := UnlinkIn(head, r, s, srcs, rs);
    UnlinkValid(v, r);
    s' := Remove(s, r);
    if lost {
      forall j | 0 <= j < |s'| ensures s'[j] in rs {
        assert s'[j] in s';
      }
      head', s' := RouteLostIn(env, srcs, head', s', rs);
    }
  }

  /** Append a route to a list, which may be empty. */
  method AppendAny(head: RouteObj?, r: RouteObj, ghost s: seq<RouteObj>, ghost rs: set<RouteObj>)
    returns (head': RouteObj)
    requires Within(s, rs)
    requires Chain(s) && head == (if s == [] then null else s[0]) && r !in s && r.next == null
    modifies rs`next, r`next
    ensures Chain(s + [r]) && head' == (s + [r])[0]
  {
    if head == null {
      head' := r;
    } else {
      Append(head, r, s, rs);
      head' := head;
    }
  }

  /** The part of update_route that appends a new route to a list and considers it. */
  method InsertIn(env: Env, srcs: map<RouterId, Source>, p: Prefix, head: RouteObj?, u: Update, ghost s: seq<RouteObj>,
                  ghost before: map<RouterId, Source>, ghost rs: set<RouteObj>)
    returns (r: RouteObj, head': RouteObj, ghost s': seq<RouteObj>)
    requires Within(s, rs) && head == (if s == [] then null else s[0])
    requires SlotOk(s, before) && srcs == FindSource(before, u.id, u.seqno, env.now)
    requires Adds(env, SlotOf(s, before), u)
    modifies rs
    ensures fresh(r) && r.prefix == p && SlotOk(s', srcs) && s' != [] && s'[0] == head' && SameRoutes(s + [r], s')
    ensures r !in old(SlotOf(s, before)).tab
    ensures SlotOf(s', srcs) == AcceptNew(env, old(SlotOf(s, before)), u, r)
  {
    ghost var v := SlotOf(s, before);
    r := new RouteObj(p, NewRoute(env, u));
    var first := AppendAny(head, r, s, rs);
    AppendedSlot(env, v, u, r, s, srcs);
    head', s' := ConsiderRoute(env, srcs, first, r, s + [r], rs + {r});
  }

  /** `uninstall_route` on the installed route, which is the head if there is one; the kernel is assumed to comply. */
  method UninstallIn(head: RouteObj, ghost s: seq<RouteObj>, ghost srcs: map<RouterId, Source>)
    requires SlotOk(s, srcs) && s != [] && s[0] == head
    modifies head
    ensures SlotOk(s, srcs) && SlotOf(s, srcs) == Uninstall(old(SlotOf(s, srcs)))
  {
    ghost var v := SlotOf(s, srcs);
    assert v.tab[head] == head.Value();
    if head.installed {
      UninstalledHead(v);
      StoreIn(head, head.Value().(installed := false), s);
    }
  }

  lemma UninstalledHead(v: Slot<RouteObj>)
    requires Valid(v) && v.order != [] && v.tab[v.order[0]].installed
    ensures var h := v.order[0];
            Uninstall(v) == v.(tab := v.tab[h := v.tab[h].(installed := false)])
  {
  }

  lemma AppendedSlot(env: Env, v: Slot<RouteObj>, u: Update, r: RouteObj, s: seq<RouteObj>, srcs: map<RouterId, Source>)
    requires Valid(v) && v.order == s && r !in v.tab && srcs == FindSource(v.srcs, u.id, u.seqno, env.now)
    requires Chain(s + [r]) && r.Value() == NewRoute(env, u)
    requires forall x :: x in s ==> x.Value() == v.tab[x]
    ensures SlotOk(s + [r], srcs) && SlotOf(s + [r], srcs) == Appended(env, v, u, r)
  {
    var t := s + [r];
    forall j | 0 < j < |t| ensures !t[j].installed {
      if j < |s| {
        assert t[j] == s[j] && s[j] in s;
      }
    }
    assert Tab(t) == Appended(env, v, u, r).tab;
  }
}
