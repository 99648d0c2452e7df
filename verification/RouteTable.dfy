/**
 * The route table of babeld/route.c: a growable array sorted by prefix whose elements are the
 * heads of linked lists of routes, and the reference-counted sources of babeld/source.c.
 *
 * The ghost field `entries` is the table as a value (see Slots). Every method is specified by
 * what it does to the slot of one prefix, and leaves array, links and value in agreement.
 */
module RouteTable {
  import opened Basics
  import opened SeqNo
  import opened Selection
  import opened RouteList
  import opened Slots

  function Maybe(r: RouteObj?): Option<RouteObj> {
    if r == null then None else Some(r)
  }

  /** The list that starts at `head` is linked in order and holds the routes of the entry. */
  ghost predicate Kept(e: Entry, head: RouteObj?)
    reads e.order
  {
    e.order != [] && head == e.order[0] && ListOk(e.order) && Tab(e.order) == e.tab
  }

  ghost predicate HeadAt(hs: seq<RouteObj?>, es: seq<Entry>, repr: set<RouteObj>, j: nat)
    requires j < |es| == |hs|
    reads repr
  {
    Within(es[j].order, repr) && Kept(es[j], hs[j])
  }

  /** `hs` are the heads of all lists, perhaps with one exception. */
  ghost predicate Heads(hs: seq<RouteObj?>, es: seq<Entry>, repr: set<RouteObj>, but: int)
    requires |es| == |hs|
    reads repr
  {
    forall j :: 0 <= j < |es| && j != but ==> HeadAt(hs, es, repr, j)
  }

  lemma Widen(hs: seq<RouteObj?>, es: seq<Entry>, few: set<RouteObj>, many: set<RouteObj>, but: int)
    requires |es| == |hs| && Heads(hs, es, few, but) && few <= many
    ensures Heads(hs, es, many, but)
  {
    forall j | 0 <= j < |es| && j != but ensures HeadAt(hs, es, many, j) {
      assert HeadAt(hs, es, few, j);
    }
  }

  /** The other lists do not reach into the routes of slot `i`. */
  lemma Narrow(hs: seq<RouteObj?>, es: seq<Entry>, repr: set<RouteObj>, i: nat, rs: set<RouteObj>)
    requires |es| == |hs| && Heads(hs, es, repr, -1) && Sorted(es) && forall j :: 0 <= j < |es| ==> Named(es[j])
    requires i < |es| && forall x :: x in rs ==> x in es[i].order
    ensures Heads(hs, es, repr - rs, i)
  {
    forall j | 0 <= j < |es| && j != i ensures HeadAt(hs, es, repr - rs, j) {
      assert HeadAt(hs, es, repr, j);
      Apart(es, i, j);
    }
  }

  lemma ReplacedHeads(hs: seq<RouteObj?>, es: seq<Entry>, repr: set<RouteObj>, i: nat, e: Entry, h: RouteObj?)
    requires |es| == |hs| && i < |es| && Heads(hs, es, repr, i) && Within(e.order, repr) && Kept(e, h)
    ensures Heads(hs[i := h], es[i := e], repr, -1)
  {
    var hs', es' := hs[i := h], es[i := e];
    forall j | 0 <= j < |es| ensures HeadAt(hs', es', repr, j) {
      assert j != i ==> HeadAt(hs, es, repr, j);
    }
  }

  lemma InsertedHeads(hs: seq<RouteObj?>, es: seq<Entry>, repr: set<RouteObj>, n: nat, e: Entry, h: RouteObj?)
    requires |es| == |hs| && n <= |es| && Heads(hs, es, repr, -1) && Within(e.order, repr) && Kept(e, h)
    ensures Heads(Inserted(hs, n, h), Inserted(es, n, e), repr, -1)
  {
    forall j | 0 <= j < |es| + 1 ensures HeadAt(Inserted(hs, n, h), Inserted(es, n, e), repr, j) {
      if j != n {
        assert HeadAt(hs, es, repr, if j < n then j else j - 1);
      }
    }
  }

  lemma DeletedHeads(hs: seq<RouteObj?>, es: seq<Entry>, repr: set<RouteObj>, i: nat)
    requires |es| == |hs| && i < |es| && Heads(hs, es, repr, i)
    ensures Heads(Deleted(hs, i), Deleted(es, i), repr, -1)
  {
    forall j | 0 <= j < |es| - 1 ensures HeadAt(Deleted(hs, i), Deleted(es, i), repr, j) {
      assert HeadAt(hs, es, repr, if j < i then j else j + 1);
    }
  }

  // ----- moving array elements

  /** Make room at `n` by moving elements n to k - 1 one place up. */
  method ShiftUp(a: array<RouteObj?>, n: nat, k: nat)
    requires n <= k < a.Length
    modifies a
    ensures a[..n] == old(a[..n]) && a[n + 1..k + 1] == old(a[n..k])
  {
    var j := k;
    while j > n
      invariant n <= j <= k
      invariant forall l :: 0 <= l < a.Length ==> a[l] == old(if j < l <= k then a[l - 1] else a[l])
    {
      a[j] := a[j - 1];
      j := j - 1;
    }
  }

  /** Close the gap at `i` by moving elements i + 1 to k - 1 one place down, and clear the last. */
  method ShiftDown(a: array<RouteObj?>, i: nat, k: nat)
    requires i < k <= a.Length
    modifies a
    ensures a[..k - 1] == Deleted(old(a[..k]), i) && a[k - 1] == null
  {
    var j := i;
    while j < k - 1
      invariant i <= j <= k - 1
      invariant forall l :: 0 <= l < j ==> a[l] == old(if l < i then a[l] else a[l + 1])
      invariant forall l :: j <= l < k ==> a[l] == old(a[l])
    {
      a[j] := a[j + 1];
      j := j + 1;
    }
    a[k - 1] := null;
    ghost var t := Deleted(old(a[..k]), i);
    assert forall l :: 0 <= l < k - 1 ==> a[..k - 1][l] == t[l];
  }

  /** A new array of the given length that starts with the first `k` elements of the old one. */
  method Copied(a: array<RouteObj?>, k: nat, length: nat) returns (b: array<RouteObj?>)
    requires k <= a.Length && k <= length
    ensures fresh(b) && b.Length == length && b[..k] == a[..k]
  {
    b := new RouteObj?[length](_ => null);
    var j := 0;
    while j < k
      invariant j <= k && forall l :: 0 <= l < j ==> b[l] == a[l]
    {
      b[j] := a[j];
      j := j + 1;
    }
  }

  // ----- changing one list among many

  /** The first `n` elements of the array are the heads of lists in order, and `s` is the list at `i`. */
  ghost predicate Listed(a: array<RouteObj?>, n: nat, es: seq<Entry>, repr: set<RouteObj>, i: nat, s: seq<RouteObj>)
    reads a, repr
  {
    && |es| == n <= a.Length && Heads(a[..n], es, repr, -1)
    && Sorted(es) && (forall j :: 0 <= j < |es| ==> Named(es[j]))
    && i < |es| && s == es[i].order && s != [] && a[i] == s[0] && Within(s, repr)
  }

  /** A list that is fit to become the slot of a prefix. */
  ghost predicate Ready(p: Prefix, head: RouteObj?, v: Slot<RouteObj>, repr: set<RouteObj>)
    reads v.order
  {
    Kept(Entry(p, v.order, v.tab), head) && Within(v.order, repr) && Named(Entry(p, v.order, v.tab))
  }

  /** A list that keeps the routes of a slot is fit to take its place. */
  lemma ReadyAgain(e: Entry, head: RouteObj, s: seq<RouteObj>, srcs: map<RouterId, Source>, repr: set<RouteObj>)
    requires Within(e.order, repr) && Named(e)
    requires RouteList.SlotOk(s, srcs) && s != [] && s[0] == head && forall x :: x in s ==> x in e.order
    ensures Ready(e.prefix, head, SlotOf(s, srcs), repr)
  {
    forall j | 0 <= j < |s| ensures s[j] in repr {
      assert s[j] in s;
    }
  }

  /** `UpdateRouteIn`, which leaves the other lists alone. */
  method UpdateFramed(env: Env, srcs: map<RouterId, Source>, a: array<RouteObj?>, n: nat, i: nat, r: RouteObj,
                      u: Update, ghost before: map<RouterId, Source>, ghost es: seq<Entry>,
                      ghost repr: set<RouteObj>, ghost s: seq<RouteObj>)
    returns (head: RouteObj, ghost s': seq<RouteObj>)
    requires Listed(a, n, es, repr, i, s) && RouteList.SlotOk(s, before)
    requires r in s && srcs == FindSource(before, u.id, u.seqno, env.now)
    requires FindRoute(SlotOf(s, before), s, u.neigh, u.nexthop) == Some(r)
    modifies s
    ensures Heads(a[..n], es, repr, i)
    ensures RouteList.SlotOk(s', srcs) && s' != [] && s'[0] == head && SameRoutes(s, s')
    ensures SlotOf(s', srcs) == UpdatedKnown(env, old(SlotOf(s, before)), u, r)
  {
    ghost var rs, hs := (set x | x in s), a[..n];
    Narrow(hs, es, repr, i, rs);
    head, s' := UpdateRouteIn(env, srcs, a[i], r, u, s, before, rs);
    assert a[..n] == hs;
    Widen(hs, es, repr - rs, repr, i);
  }

  method UpdateAmong(env: Env, srcs: map<RouterId, Source>, a: array<RouteObj?>, n: nat, i: nat, r: RouteObj, u: Update,
                     ghost es: seq<Entry>, ghost repr: set<RouteObj>, ghost s: seq<RouteObj>, ghost v: Slot<RouteObj>)
    returns (head: RouteObj, ghost v': Slot<RouteObj>)
    requires Listed(a, n, es, repr, i, s) && RouteList.SlotOk(s, v.srcs) && v == SlotOf(s, v.srcs)
    requires r in s && srcs == FindSource(v.srcs, u.id, u.seqno, env.now)
    requires FindRoute(v, s, u.neigh, u.nexthop) == Some(r)
    modifies s
    ensures Heads(a[..n], es, repr, i) && Ready(es[i].prefix, head, v', repr)
    ensures v' == UpdatedKnown(env, v, u, r) && v'.srcs == srcs
  {
    ghost var s';
    head, s' := UpdateFramed(env, srcs, a, n, i, r, u, v.srcs, es, repr, s);
    ReadyAgain(es[i], head, s', srcs, repr);
    v' := SlotOf(s', srcs);
  }

  /** `UpdateMetricIn`, which leaves the other lists alone. */
  method MetricAmong(env: Env, srcs: map<RouterId, Source>, a: array<RouteObj?>, n: nat, i: nat, r: RouteObj,
                     cost: nat, addMetric: nat, ghost es: seq<Entry>, ghost repr: set<RouteObj>, ghost s: seq<RouteObj>,
                     ghost v: Slot<RouteObj>)
    returns (head: RouteObj, ghost v': Slot<RouteObj>)
    requires Listed(a, n, es, repr, i, s) && RouteList.SlotOk(s, srcs) && v == SlotOf(s, srcs) && r in s
    modifies s
    ensures Heads(a[..n], es, repr, i) && Ready(es[i].prefix, head, v', repr)
    ensures v' == UpdateRouteMetric(env, v, r, cost, addMetric) && v'.srcs == srcs
  {
    ghost var rs := set x | x in s;
    ghost var hs := a[..n];
    Narrow(hs, es, repr, i, rs);
    ghost var s';
    head, s' := UpdateMetricIn(env, srcs, a[i], r, cost, addMetric, s, rs);
    assert a[..n] == hs;
    Widen(hs, es, repr - rs, repr, i);
    ReadyAgain(es[i], head, s', srcs, repr);
    v' := SlotOf(s', srcs);
  }

  /** `FlushIn`, which leaves the other lists alone. */
  method FlushFramed(env: Env, srcs: map<RouterId, Source>, a: array<RouteObj?>, n: nat, i: nat, r: RouteObj,
                     ghost es: seq<Entry>, ghost repr: set<RouteObj>, ghost s: seq<RouteObj>)
    returns (head: RouteObj?, ghost s': seq<RouteObj>)
    requires Listed(a, n, es, repr, i, s) && RouteList.SlotOk(s, srcs) && r in s
    modifies s
    ensures Heads(a[..n], es, repr, i)
    ensures RouteList.SlotOk(s', srcs) && head == (if s' == [] then null else s'[0]) && (forall x :: x in s' ==> x in s)
    ensures SlotOf(s', srcs) == Dropped(env, old(SlotOf(s, srcs)), r)
  {
    ghost var rs, hs := (set x | x in s), a[..n];
    Narrow(hs, es, repr, i, rs);
    head, s' := FlushIn(env, srcs, a[i], r, s, rs);
    assert a[..n] == hs;
    Widen(hs, es, repr - rs, repr, i);
  }

  method FlushAmong(env: Env, srcs: map<RouterId, Source>, a: array<RouteObj?>, n: nat, i: nat, r: RouteObj,
                    ghost es: seq<Entry>, ghost repr: set<RouteObj>, ghost s: seq<RouteObj>, ghost v: Slot<RouteObj>)
    returns (head: RouteObj?, ghost v': Slot<RouteObj>)
    requires Listed(a, n, es, repr, i, s) && RouteList.SlotOk(s, srcs) && v == SlotOf(s, srcs) && r in s
    modifies s
    ensures Heads(a[..n], es, repr, i) && v' == Dropped(env, v, r) && v'.srcs == srcs
    ensures if head == null then v'.order == [] else Ready(es[i].prefix, head, v', repr)
  {
    ghost var s';
    head, s' := FlushFramed(env, srcs, a, n, i, r, es, repr, s);
    v' := SlotOf(s', srcs);
    if head != null {
      ReadyAgain(es[i], head, s', srcs, repr);
    }
  }

  /** `UninstallIn`, which leaves the other lists alone. */
  method UninstallAmong(ghost srcs: map<RouterId, Source>, a: array<RouteObj?>, n: nat, i: nat,
                        ghost es: seq<Entry>, ghost repr: set<RouteObj>, ghost s: seq<RouteObj>,
                        ghost v: Slot<RouteObj>)
    returns (ghost v': Slot<RouteObj>)
    requires Listed(a, n, es, repr, i, s) && RouteList.SlotOk(s, srcs) && v == SlotOf(s, srcs)
    modifies s
    ensures Heads(a[..n], es, repr, i) && Ready(es[i].prefix, a[i], v', repr)
    ensures v' == Uninstall(v) && v'.srcs == srcs
  {
    ghost var rs := set x | x in s;
    ghost var hs := a[..n];
    Narrow(hs, es, repr, i, rs);
    UninstallIn(a[i], s, srcs);
    assert a[..n] == hs;
    Widen(hs, es, repr - rs, repr, i);
    ReadyAgain(es[i], a[i], s, srcs, repr);
    v' := SlotOf(s, srcs);
  }

  /** `InsertIn` on a list of the table, which leaves the other lists alone. */
  method InsertFramed(env: Env, srcs: map<RouterId, Source>, p: Prefix, a: array<RouteObj?>, n: nat, i: nat, u: Update,
                      ghost before: map<RouterId, Source>, ghost es: seq<Entry>, ghost repr: set<RouteObj>,
                      ghost s: seq<RouteObj>)
    returns (r: RouteObj, head: RouteObj, ghost s': seq<RouteObj>)
    requires Listed(a, n, es, repr, i, s) && RouteList.SlotOk(s, before)
    requires srcs == FindSource(before, u.id, u.seqno, env.now) && Adds(env, SlotOf(s, before), u)
    modifies s
    ensures fresh(r) && r.prefix == p && r !in old(SlotOf(s, before)).tab && Heads(a[..n], es, repr + {r}, i)
    ensures RouteList.SlotOk(s', srcs) && s' != [] && s'[0] == head && SameRoutes(s + [r], s')
    ensures SlotOf(s', srcs) == AcceptNew(env, old(SlotOf(s, before)), u, r)
  {
    ghost var rs, hs := (set x | x in s), a[..n];
    Narrow(hs, es, repr, i, rs);
    r, head, s' := InsertIn(env, srcs, p, a[i], u, s, before, rs);
    assert a[..n] == hs;
    Widen(hs, es, repr - rs, repr + {r}, i);
  }

  method InsertAmong(env: Env, srcs: map<RouterId, Source>, p: Prefix, a: array<RouteObj?>, n: nat, i: nat, u: Update,
                     ghost es: seq<Entry>, ghost repr: set<RouteObj>, ghost s: seq<RouteObj>, ghost v: Slot<RouteObj>)
    returns (r: RouteObj, head: RouteObj, ghost v': Slot<RouteObj>)
    requires Listed(a, n, es, repr, i, s) && RouteList.SlotOk(s, v.srcs) && v == SlotOf(s, v.srcs) && es[i].prefix == p
    requires srcs == FindSource(v.srcs, u.id, u.seqno, env.now) && Adds(env, v, u)
    modifies s
    ensures fresh(r) && r !in v.tab && Heads(a[..n], es, repr + {r}, i) && Ready(p, head, v', repr + {r})
    ensures v' == AcceptNew(env, v, u, r) && v'.srcs == srcs
  {
    ghost var s';
    r, head, s' := InsertFramed(env, srcs, p, a, n, i, u, v.srcs, es, repr, s);
    ReadyAgain(Entry(p, s + [r], map[]), head, s', srcs, repr + {r});
    v' := SlotOf(s', srcs);
  }

  /** `InsertIn` for a prefix that has no list yet. */
  method InsertFirst(env: Env, srcs: map<RouterId, Source>, p: Prefix, u: Update, ghost repr: set<RouteObj>,
                     ghost v: Slot<RouteObj>)
    returns (r: RouteObj, head: RouteObj, ghost v': Slot<RouteObj>)
    requires v == Slot([], map[], v.srcs) && srcs == FindSource(v.srcs, u.id, u.seqno, env.now) && Adds(env, v, u)
    ensures fresh(r) && Valid(v) && r !in v.tab && Ready(p, head, v', repr + {r})
    ensures v' == AcceptNew(env, v, u, r) && v'.srcs == srcs
  {
    assert SlotOf([], v.srcs) == v;
    ghost var s';
    r, head, s' := InsertIn(env, srcs, p, null, u, [], v.srcs, {});
    ReadyAgain(Entry(p, [] + [r], map[]), head, s', srcs, repr + {r});
    v' := SlotOf(s', srcs);
  }

  class RouteTable {
    var routes: array<RouteObj?>
    var routeSlots: nat
    var srcs: map<Prefix, map<RouterId, Source>>
    var routeCount: map<SourceKey, nat>
    ghost var entries: seq<Entry>
    ghost var repr: set<RouteObj>

    function SourcesOf(p: Prefix): map<RouterId, Source>
      reads this
    {
      SourcesIn(srcs, p)
    }

    /** What the table knows about a prefix, as route selection sees it. */
    ghost function View(p: Prefix): Slot<RouteObj>
      reads this
    {
      ViewOf(entries, srcs, p)
    }

    /** Slots are strictly sorted, non-empty and each about its own prefix, and fit the array. */
    ghost predicate Shape()
      reads this
    {
      && |entries| == routeSlots <= routes.Length
      && Sorted(entries)
      && (forall i :: 0 <= i < |entries| ==> entries[i].order != [] && Named(entries[i]))
    }

    ghost predicate PrefixOk(p: Prefix)
      reads this
    {
      GoodSlot(View(p), routeCount, p)
    }

    ghost predicate AllOk()
      reads this
    {
      forall p :: PrefixOk(p)
    }

    /** The table is in order, but the list of slot `i` may just be changing; `more` are routes it gained. */
    ghost predicate OpenAt(i: int, more: set<RouteObj>)
      reads this, routes, repr, more
    {
      Shape() && Heads(routes[..routeSlots], entries, repr + more, i) && AllOk()
    }

    ghost predicate TableOk()
      reads this, routes, repr
    {
      Shape() && Heads(routes[..routeSlots], entries, repr, -1) && AllOk()
    }

    constructor ()
      ensures TableOk() && fresh(routes) && repr == {} && forall p :: View(p) == Slot([], map[], map[])
    {
      routes, routeSlots, srcs, routeCount := new RouteObj?[0], 0, map[], map[];
      entries, repr := [], {};
    }

    // ----- lookups

    /** `find_route_slot`: binary search equals looking the prefix up. */
    method FindRouteSlot(p: Prefix) returns (found: bool, i: nat)
      requires Shape() && Heads(routes[..routeSlots], entries, repr, -1)
      ensures found ==> At(entries, p, i) && EntryOf(entries, p) == entries[i]
      ensures !found ==> GoesAt(entries, p, i) && EntryOf(entries, p) == Entry(p, [], map[])
    {
      if routeSlots < 1 {
        NoEntry(entries, p, 0);
        return false, 0;
      }
      var lo: int, hi: int := 0, routeSlots - 1;
      while lo <= hi
        invariant 0 <= lo <= hi + 1 <= |entries|
        invariant forall k :: 0 <= k < lo ==> Less(entries[k].prefix, p)
        invariant forall k :: hi < k < |entries| ==> Less(p, entries[k].prefix)
        decreases hi - lo
      {
        var m := (lo + hi) / 2;
        HeadOf(m);
        var c := ComparePrefix(p, routes[m].prefix);
        PrefixOrder(p, entries[m].prefix);
        if c == 0 {
          EntryAt(entries, p, m);
          return true, m;
        } else if c < 0 {
          forall k | m <= k < |entries| ensures Less(p, entries[k].prefix) {
            LessTransitive(p, entries[m].prefix, entries[k].prefix);
          }
          hi := m - 1;
        } else {
          forall k | 0 <= k <= m ensures Less(entries[k].prefix, p) {
            LessTransitive(entries[k].prefix, entries[m].prefix, p);
          }
          lo := m + 1;
        }
      }
      NoEntry(entries, p, lo);
      return false, lo;
    }

    lemma HeadOf(m: nat)
      requires Shape() && m < |entries| && HeadAt(routes[..routeSlots], entries, repr, m)
      ensures routes[m] != null && routes[m].prefix == entries[m].prefix
    {
      assert entries[m].order[0] in entries[m].order;
    }

    /** The list of a slot, as route selection sees it. */
    lemma ViewAt(p: Prefix, i: nat)
      requires TableOk() && At(entries, p, i)
      ensures RouteList.SlotOk(entries[i].order, SourcesOf(p)) && SlotOf(entries[i].order, SourcesOf(p)) == View(p)
      ensures Listed(routes, routeSlots, entries, repr, i, entries[i].order)
    {
      EntryAt(entries, p, i);
      assert HeadAt(routes[..routeSlots], entries, repr, i) && PrefixOk(p);
      forall r | r in entries[i].order ensures r.src in SourcesOf(p) {
        assert View(p).tab[r] == r.Value();
      }
    }

    /** `find_installed_route` finds the one installed route of the prefix, if there is one. */
    method FindInstalledRoute(p: Prefix) returns (r: RouteObj?)
      requires TableOk()
      ensures forall k :: k in View(p).tab ==> (View(p).tab[k].installed <==> r == k)
      ensures r != null ==> r in View(p).tab
    {
      var found, i := FindRouteSlot(p);
      assert PrefixOk(p);
      OnlyHeadInstalled(View(p));
      r := null;
      if found {
        ViewAt(p, i);
        assert View(p).tab[routes[i]] == routes[i].Value();
        if routes[i].installed {
          r := routes[i];
        }
      }
    }

    /** `find_route`, with the slot of the prefix or the place where one would go. */
    method FindRouteOf(p: Prefix, neigh: Neighbour, nexthop: Address) returns (r: RouteObj?, found: bool, i: nat)
      requires TableOk() && PrefixOk(p)
      ensures if found then At(entries, p, i) else GoesAt(entries, p, i)
      ensures FindRoute(View(p), View(p).order, neigh, nexthop) == Maybe(r) && (r != null ==> found && r in View(p).tab)
    {
      found, i := FindRouteSlot(p);
      r := null;
      if found {
        ViewAt(p, i);
        r := FindRouteIn(routes[i], neigh, nexthop, SourcesOf(p), entries[i].order);
      }
    }

    // ----- the array

    /** `resize_route_table`. */
    method Resize(m: nat)
      requires Shape() && Heads(routes[..routeSlots], entries, repr, -1) && routeSlots <= m
      modifies `routes
      ensures Shape() && Heads(routes[..routeSlots], entries, repr, -1) && fresh(routes) && routes.Length == m
    {
      routes := Copied(routes, routeSlots, m);
    }

    /** Store the head of a changed list where the old one was. */
    method SetHead(p: Prefix, i: nat, head: RouteObj, ghost s: seq<RouteObj>, ghost tab: map<RouteObj, Route>)
      requires Shape() && Heads(routes[..routeSlots], entries, repr, i) && At(entries, p, i)
      requires Kept(Entry(p, s, tab), head) && Within(s, repr) && Named(Entry(p, s, tab))
      modifies `entries, routes
      ensures Shape() && Heads(routes[..routeSlots], entries, repr, -1)
      ensures entries == old(entries)[i := Entry(p, s, tab)]
    {
      ReplacedHeads(routes[..routeSlots], entries, repr, i, Entry(p, s, tab), head);
      routes[i] := head;
      ReplacedEntries(entries, i, Entry(p, s, tab));
      entries := entries[i := Entry(p, s, tab)];
      assert routes[..routeSlots] == old(routes[..routeSlots])[i := head];
    }

    /** The array part of insert_route: make room, shift the tail and store a new head. */
    method InsertSlot(p: Prefix, n: nat, head: RouteObj, ghost s: seq<RouteObj>, ghost tab: map<RouteObj, Route>)
      requires Shape() && Heads(routes[..routeSlots], entries, repr, -1) && GoesAt(entries, p, n)
      requires Kept(Entry(p, s, tab), head) && Within(s, repr) && Named(Entry(p, s, tab))
      modifies `routes, `routeSlots, `entries, routes
      ensures Shape() && Heads(routes[..routeSlots], entries, repr, -1) && (routes == old(routes) || fresh(routes))
      ensures entries == Inserted(old(entries), n, Entry(p, s, tab))
    {
      if routeSlots >= routes.Length {
        Resize(if routes.Length < 1 then 8 else 2 * routes.Length);
      }
      StoreAt(p, n, head, s, tab);
    }

    /** Shift the tail and store a new head, in an array with room for it. */
    method StoreAt(p: Prefix, n: nat, head: RouteObj, ghost s: seq<RouteObj>, ghost tab: map<RouteObj, Route>)
      requires Shape() && Heads(routes[..routeSlots], entries, repr, -1)
      requires GoesAt(entries, p, n) && routeSlots < routes.Length
      requires Kept(Entry(p, s, tab), head) && Within(s, repr) && Named(Entry(p, s, tab))
      modifies `routeSlots, `entries, routes
      ensures Shape() && Heads(routes[..routeSlots], entries, repr, -1)
      ensures entries == Inserted(old(entries), n, Entry(p, s, tab))
    {
      InsertedSorted(entries, Entry(p, s, tab), n);
      InsertedHeads(routes[..routeSlots], entries, repr, n, Entry(p, s, tab), head);
      ShiftUp(routes, n, routeSlots);
      routes[n] := head;
      routeSlots := routeSlots + 1;
      entries := Inserted(entries, n, Entry(p, s, tab));
      assert routes[..routeSlots] == Inserted(old(routes[..routeSlots]), n, head);
    }

    /** The array part of flush_route: close the gap of an emptied slot and shrink the array. */
    method DeleteSlot(i: nat)
      requires Shape() && Heads(routes[..routeSlots], entries, repr, i) && i < |entries|
      modifies `routes, `routeSlots, `entries, routes
      ensures Shape() && Heads(routes[..routeSlots], entries, repr, -1) && (routes == old(routes) || fresh(routes))
      ensures entries == Deleted(old(entries), i)
    {
      RemoveAt(i);
      if routeSlots == 0 {
        Resize(0);
      } else if routes.Length > 8 && routeSlots < routes.Length / 4 {
        Resize(routes.Length / 2);
      }
    }

    method RemoveAt(i: nat)
      requires Shape() && Heads(routes[..routeSlots], entries, repr, i) && i < |entries|
      modifies `routeSlots, `entries, routes
      ensures Shape() && Heads(routes[..routeSlots], entries, repr, -1) && entries == Deleted(old(entries), i)
    {
      DeletedSorted(entries, i);
      DeletedHeads(routes[..routeSlots], entries, repr, i);
      ShiftDown(routes, i, routeSlots);
      routeSlots := routeSlots - 1;
      entries := Deleted(entries, i);
    }

    // ----- sources and their counts

    /** Store the sources of a prefix and the reference counts. */
    method SetBooks(p: Prefix, mine: map<RouterId, Source>, counts: map<SourceKey, nat>, ghost v: Slot<RouteObj>)
      requires EntryOf(entries, p).order == v.order && EntryOf(entries, p).tab == v.tab && v.srcs == mine
      requires GoodSlot(v, counts, p) && SameElsewhere(routeCount, counts, p) && forall q :: q != p ==> PrefixOk(q)
      modifies `srcs, `routeCount
      ensures View(p) == v && routeCount == counts && AllOk()
      ensures forall q :: q != p ==> View(q) == old(View(q))
    {
      srcs, routeCount := srcs[p := mine], counts;
      forall q ensures PrefixOk(q) {
        if q != p {
          assert old(PrefixOk(q));
          GoodElsewhere(View(q), old(routeCount), routeCount, p, q);
        }
      }
    }

    /** Store a changed list, its sources and the reference counts. */
    method Commit(p: Prefix, i: nat, head: RouteObj, mine: map<RouterId, Source>, counts: map<SourceKey, nat>,
                  ghost v: Slot<RouteObj>, ghost more: set<RouteObj>)
      requires OpenAt(i, more) && At(entries, p, i)
      requires Ready(p, head, v, repr + more)
      requires v.srcs == mine && GoodSlot(v, counts, p) && SameElsewhere(routeCount, counts, p)
      modifies `srcs, `routeCount, `entries, `repr, routes
      ensures TableOk() && View(p) == v && repr == old(repr) + more
      ensures entries == old(entries)[i := Entry(p, v.order, v.tab)]
      ensures forall q :: q != p ==> View(q) == old(View(q))
    {
      ReplacedEntries(entries, i, Entry(p, v.order, v.tab));
      repr := repr + more;
      SetHead(p, i, head, v.order, v.tab);
      forall q | q != p ensures PrefixOk(q) && View(q) == old(View(q)) {
        assert old(PrefixOk(q));
      }
      SetBooks(p, mine, counts, v);
    }

    /** Store a new list in a new slot, its sources and the reference counts. */
    method CommitNew(p: Prefix, n: nat, head: RouteObj, mine: map<RouterId, Source>, counts: map<SourceKey, nat>,
                     ghost v: Slot<RouteObj>, ghost more: set<RouteObj>)
      requires OpenAt(-1, more) && GoesAt(entries, p, n)
      requires Ready(p, head, v, repr + more)
      requires v.srcs == mine && GoodSlot(v, counts, p) && SameElsewhere(routeCount, counts, p)
      modifies `routes, `routeSlots, `srcs, `routeCount, `entries, `repr, routes
      ensures TableOk() && View(p) == v && repr == old(repr) + more && (routes == old(routes) || fresh(routes))
      ensures forall q :: q != p ==> View(q) == old(View(q))
    {
      InsertedEntries(entries, n, Entry(p, v.order, v.tab));
      repr := repr + more;
      InsertSlot(p, n, head, v.order, v.tab);
      forall q | q != p ensures PrefixOk(q) && View(q) == old(View(q)) {
        assert old(PrefixOk(q));
      }
      SetBooks(p, mine, counts, v);
    }

    /** Drop the slot of a list that became empty, and store the reference counts. */
    method CommitEmpty(p: Prefix, i: nat, counts: map<SourceKey, nat>, ghost v: Slot<RouteObj>)
      requires OpenAt(i, {}) && At(entries, p, i) && v == Slot([], map[], SourcesOf(p))
      requires GoodSlot(v, counts, p) && SameElsewhere(routeCount, counts, p)
      modifies `routes, `routeSlots, `srcs, `routeCount, `entries, routes
      ensures TableOk() && View(p) == v && (routes == old(routes) || fresh(routes))
      ensures entries == Deleted(old(entries), i)
      ensures forall q :: q != p ==> View(q) == old(View(q))
    {
      DeletedEntries(entries, i);
      assert repr + {} == repr;
      DeleteSlot(i);
      forall q | q != p ensures PrefixOk(q) && View(q) == old(View(q)) {
        assert old(PrefixOk(q));
      }
      SetBooks(p, SourcesOf(p), counts, v);
    }

    // ----- changing one list

    /** `update_route` for a route of slot `i`. */
    method UpdateFound(env: Env, p: Prefix, i: nat, r: RouteObj, u: Update)
      requires TableOk() && At(entries, p, i) && PrefixOk(p) && r in View(p).tab
      requires FindRoute(View(p), View(p).order, u.neigh, u.nexthop) == Some(r)
      modifies `srcs, `routeCount, `entries, `repr, routes, repr
      ensures TableOk() && repr == old(repr) && View(p) == UpdatedKnown(env, old(View(p)), u, r)
      ensures forall q :: q != p ==> View(q) == old(View(q))
    {
      ghost var before := View(p);
      UpdatedKnownGood(env, before, u, r, routeCount, p);
      ViewAt(p, i);
      assert r.src == before.tab[r].src;
      var counts := Moved(routeCount, p, u.id, r.src);
      var mine := FindSource(SourcesOf(p), u.id, u.seqno, env.now);
      var head;
      ghost var v;
      head, v := UpdateAmong(env, mine, routes, routeSlots, i, r, u, entries, repr, entries[i].order, before);
      assert repr + {} == repr;
      Commit(p, i, head, mine, counts, v, {});
    }

    /** The part of update_route that adds a route to slot `i`. */
    method AddHere(env: Env, p: Prefix, i: nat, u: Update) returns (r: RouteObj)
      requires TableOk() && At(entries, p, i) && PrefixOk(p) && Adds(env, View(p), u)
      modifies `srcs, `routeCount, `entries, `repr, routes, repr
      ensures TableOk() && fresh(r) && repr == old(repr) + {r} && r !in old(View(p)).tab
      ensures View(p) == AcceptNew(env, old(View(p)), u, r)
      ensures forall q :: q != p ==> View(q) == old(View(q))
    {
      ghost var before := View(p);
      ViewAt(p, i);
      var counts := Retained(Created(routeCount, SourceKey(u.id, p)), SourceKey(u.id, p));
      var mine := FindSource(SourcesOf(p), u.id, u.seqno, env.now);
      var head;
      ghost var v;
      r, head, v := InsertAmong(env, mine, p, routes, routeSlots, i, u, entries, repr, entries[i].order, before);
      AcceptNewGood(env, before, u, routeCount, p, r);
      Commit(p, i, head, mine, counts, v, {r});
    }

    /** The part of update_route that adds a route for a prefix without a slot. */
    method AddFirst(env: Env, p: Prefix, n: nat, u: Update) returns (r: RouteObj)
      requires TableOk() && GoesAt(entries, p, n) && PrefixOk(p) && Adds(env, View(p), u)
      modifies `routes, `routeSlots, `srcs, `routeCount, `entries, `repr, routes
      ensures TableOk() && fresh(r) && repr == old(repr) + {r} && r !in old(View(p)).tab
      ensures View(p) == AcceptNew(env, old(View(p)), u, r) && (routes == old(routes) || fresh(routes))
      ensures forall q :: q != p ==> View(q) == old(View(q))
    {
      ghost var before := View(p);
      NoEntry(entries, p, n);
      var counts := Retained(Created(routeCount, SourceKey(u.id, p)), SourceKey(u.id, p));
      var mine := FindSource(SourcesOf(p), u.id, u.seqno, env.now);
      var head;
      ghost var v;
      r, head, v := InsertFirst(env, mine, p, u, repr, before);
      AcceptNewGood(env, before, u, routeCount, p, r);
      Widen(routes[..routeSlots], entries, repr, repr + {r}, -1);
      CommitNew(p, n, head, mine, counts, v, {r});
    }

    /** An update that adds no route still creates its source. */
    method AddSource(env: Env, p: Prefix, u: Update)
      requires TableOk() && PrefixOk(p) && !Adds(env, View(p), u)
      modifies `srcs, `routeCount
      ensures TableOk()
      ensures View(p) == old(View(p)).(srcs := FindSource(old(SourcesOf(p)), u.id, u.seqno, env.now))
      ensures forall q :: q != p ==> View(q) == old(View(q))
    {
      SourceAddedGood(env, View(p), u, routeCount, p);
      var mine := FindSource(SourcesOf(p), u.id, u.seqno, env.now);
      SetBooks(p, mine, Created(routeCount, SourceKey(u.id, p)), View(p).(srcs := mine));
    }

    /** The part of update_route for an update that matches no route. */
    method AddRoute(env: Env, p: Prefix, found: bool, i: nat, u: Update) returns (r: RouteObj?)
      requires TableOk() && PrefixOk(p) && (if found then At(entries, p, i) else GoesAt(entries, p, i))
      requires !Ignored(env, u) && FindRoute(View(p), View(p).order, u.neigh, u.nexthop).None?
      modifies `routes, `routeSlots, `srcs, `routeCount, `entries, `repr, routes, repr
      ensures TableOk() && fresh(repr - old(repr)) && (routes == old(routes) || fresh(routes))
      ensures Returns(env, old(View(p)), u, Maybe(r))
      ensures View(p) == Updated(env, old(View(p)), u, Maybe(r))
      ensures forall q :: q != p ==> View(q) == old(View(q))
    {
      if !Accepts(env, SourcesOf(p), u) {
        AddSource(env, p, u);
        r := null;
      } else if found {
        r := AddHere(env, p, i, u);
      } else {
        r := AddFirst(env, p, i, u);
      }
    }

    /** `update_route`. */
    method UpdateRoute(env: Env, p: Prefix, u: Update) returns (r: RouteObj?)
      requires TableOk() && PrefixOk(p)
      modifies `routes, `routeSlots, `srcs, `routeCount, `entries, `repr, routes, repr
      ensures TableOk() && fresh(repr - old(repr)) && (routes == old(routes) || fresh(routes))
      ensures Returns(env, old(View(p)), u, Maybe(r))
      ensures View(p) == Updated(env, old(View(p)), u, Maybe(r))
      ensures forall q :: q != p ==> View(q) == old(View(q))
    {
      if Ignored(env, u) {
        return null;
      }
      var found, i;
      r, found, i := FindRouteOf(p, u.neigh, u.nexthop);
      if r != null {
        UpdateFound(env, p, i, r, u);
      } else {
        r := AddRoute(env, p, found, i, u);
      }
    }

    // ----- other operations on one route

    /** `update_route_metric`. */
    method UpdateMetric(env: Env, r: RouteObj, cost: nat, addMetric: nat)
      requires TableOk() && PrefixOk(r.prefix) && r in View(r.prefix).tab
      modifies `srcs, `routeCount, `entries, `repr, routes, repr
      ensures TableOk() && repr == old(repr)
      ensures View(r.prefix) == UpdateRouteMetric(env, old(View(r.prefix)), r, cost, addMetric)
      ensures forall q :: q != r.prefix ==> View(q) == old(View(q))
    {
      var p := r.prefix;
      var found, i := FindRouteSlot(p);
      ViewAt(p, i);
      MetricGood(env, View(p), r, cost, addMetric, routeCount, p);
      var head;
      ghost var v;
      head, v := MetricAmong(env, SourcesOf(p), routes, routeSlots, i, r, cost, addMetric,
                            entries, repr, entries[i].order, View(p));
      assert repr + {} == repr;
      Commit(p, i, head, SourcesOf(p), routeCount, v, {});
    }

    /** What `xroute_add_new_route` does to the table: our own announcement may displace the installed route. */
    method Displace(p: Prefix, metric: nat, allowDuplicates: int)
      requires TableOk() && PrefixOk(p)
      modifies `srcs, `routeCount, `entries, `repr, routes, repr
      ensures TableOk() && repr == old(repr)
      ensures View(p) ==
              if allowDuplicates < 0 || metric < allowDuplicates then Uninstall(old(View(p))) else old(View(p))
      ensures forall q :: q != p ==> View(q) == old(View(q))
    {
      var found, i := FindRouteSlot(p);
      if found && (allowDuplicates < 0 || metric < allowDuplicates) {
        DisplaceAt(p, i);
      }
    }

    method DisplaceAt(p: Prefix, i: nat)
      requires TableOk() && At(entries, p, i) && PrefixOk(p)
      modifies `srcs, `routeCount, `entries, `repr, routes, repr
      ensures TableOk() && repr == old(repr) && View(p) == Uninstall(old(View(p)))
      ensures forall q :: q != p ==> View(q) == old(View(q))
    {
      ViewAt(p, i);
      UninstallGood(View(p), routeCount, p);
      ghost var v := UninstallAmong(SourcesOf(p), routes, routeSlots, i, entries, repr, entries[i].order, View(p));
      assert repr + {} == repr;
      Commit(p, i, routes[i], SourcesOf(p), routeCount, v, {});
    }

    // ----- flushing

    /** Store what is left of a list, or drop its slot. */
    method CommitRest(p: Prefix, i: nat, head: RouteObj?, counts: map<SourceKey, nat>, ghost v: Slot<RouteObj>)
      requires OpenAt(i, {}) && At(entries, p, i) && v.srcs == SourcesOf(p)
      requires if head == null then v.order == [] else Ready(p, head, v, repr + {})
      requires GoodSlot(v, counts, p) && SameElsewhere(routeCount, counts, p)
      modifies `routes, `routeSlots, `srcs, `routeCount, `entries, `repr, routes
      ensures TableOk() && View(p) == v && repr == old(repr) && (routes == old(routes) || fresh(routes))
      ensures forall q :: q != p ==> View(q) == old(View(q))
      ensures entries == if v.order == [] then Deleted(old(entries), i) else old(entries)[i := Entry(p, v.order, v.tab)]
    {
      if head != null {
        Commit(p, i, head, SourcesOf(p), counts, v, {});
      } else {
        EmptyTab(v);
        CommitEmpty(p, i, counts, v);
      }
    }

    /** `flush_route`. */
    method FlushRoute(env: Env, r: RouteObj) returns (ghost i: nat)
      requires TableOk() && PrefixOk(r.prefix) && r in View(r.prefix).tab
      modifies `routes, `routeSlots, `srcs, `routeCount, `entries, `repr, routes, repr
      ensures TableOk() && repr == old(repr) && (routes == old(routes) || fresh(routes))
      ensures View(r.prefix) == Dropped(env, old(View(r.prefix)), r)
      ensures forall q :: q != r.prefix ==> View(q) == old(View(q))
      ensures At(old(entries), r.prefix, i)
      ensures entries == if View(r.prefix).order == [] then Deleted(old(entries), i)
                         else old(entries)[i := Entry(r.prefix, View(r.prefix).order, View(r.prefix).tab)]
    {
      var found, j := FindRouteSlot(r.prefix);
      FlushAt(env, j, r);
      i := j;
    }

    /** `flush_route`, once the slot is found. */
    method FlushAt(env: Env, i: nat, r: RouteObj)
      requires TableOk() && At(entries, r.prefix, i) && PrefixOk(r.prefix) && r in View(r.prefix).tab
      modifies `routes, `routeSlots, `srcs, `routeCount, `entries, `repr, routes, repr
      ensures TableOk() && repr == old(repr) && (routes == old(routes) || fresh(routes))
      ensures View(r.prefix) == Dropped(env, old(View(r.prefix)), r)
      ensures forall q :: q != r.prefix ==> View(q) == old(View(q))
      ensures entries == if View(r.prefix).order == [] then Deleted(old(entries), i)
                         else old(entries)[i := Entry(r.prefix, View(r.prefix).order, View(r.prefix).tab)]
    {
      var p := r.prefix;
      ViewAt(p, i);
      DroppedGood(env, View(p), r, routeCount, p);
      assert r.src == View(p).tab[r].src;
      var counts := Released(routeCount, SourceKey(r.src, p));
      var head;
      ghost var v;
      head, v := FlushAmong(env, SourcesOf(p), routes, routeSlots, i, r, entries, repr, entries[i].order, View(p));
      assert repr + {} == repr;
      CommitRest(p, i, head, counts, v);
    }

    /** The inner walk of the flush loops: the first matching route of a slot. */
    method FirstMatch(m: Match, i: nat) returns (r: RouteObj?)
      requires Shape() && i < |entries| && HeadAt(routes[..routeSlots], entries, repr, i)
      ensures r != null ==> r in entries[i].tab && Matches(m, entries[i].tab[r])
      ensures r == null ==> CleanEntry(m, entries[i])
    {
      ghost var s := entries[i].order;
      r := routes[i];
      ghost var j := 0;
      while r != null && !Matches(m, r.Value())
        invariant 0 <= j <= |s| && r == (if j < |s| then s[j] else null)
        invariant forall l :: 0 <= l < j ==> !Matches(m, s[l].Value())
        decreases |s| - j
      {
        r := r.next;
        j := j + 1;
      }
    }

    /** No route of the first `i` slots matches. */
    ghost predicate Clean(m: Match, i: nat)
      requires i <= |entries|
      reads this
    {
      forall j :: 0 <= j < i ==> CleanEntry(m, entries[j])
    }

    /** Nothing but matching routes is gone from the table. */
    ghost predicate AllPruned(m: Match, was: Prefix -> Slot<RouteObj>)
      reads this
    {
      forall p :: Pruned(m, was(p), View(p))
    }

    /** One turn of the flush loops. */
    method FlushOne(env: Env, m: Match, r: RouteObj, ghost i: nat, ghost was: Prefix -> Slot<RouteObj>)
      requires TableOk() && PrefixOk(r.prefix) && At(entries, r.prefix, i) && r in View(r.prefix).tab
      requires Matches(m, View(r.prefix).tab[r]) && Clean(m, i) && AllPruned(m, was)
      modifies `routes, `routeSlots, `srcs, `routeCount, `entries, `repr, routes, repr
      ensures TableOk() && repr == old(repr) && (routes == old(routes) || fresh(routes))
      ensures i <= |entries| && Clean(m, i) && Total(entries) < Total(old(entries)) && AllPruned(m, was)
    {
      ghost var v, es := View(r.prefix), entries;
      EntryAt(entries, r.prefix, i);
      DroppedKeeps(env, v, r);
      DroppedPruned(env, m, v, r);
      ghost var j := FlushRoute(env, r);
      EntryAt(es, r.prefix, j);
      DroppedArray(es, entries, j, v, View(r.prefix), r);
      forall q ensures Pruned(m, was(q), View(q)) {
        assert Pruned(m, was(q), old(View(q)));
        if q == r.prefix {
          PrunedTransitive(m, was(q), old(View(q)), View(q));
        }
      }
    }

    /** One turn of the loop over the slots: flush the first matching route of the slot, or go on. */
    method FlushTurn(env: Env, m: Match, i: nat, ghost was: Prefix -> Slot<RouteObj>) returns (next: nat)
      requires TableOk() && i < |entries| && Clean(m, i) && AllPruned(m, was)
      modifies `routes, `routeSlots, `srcs, `routeCount, `entries, `repr, routes, repr
      ensures TableOk() && repr == old(repr) && (routes == old(routes) || fresh(routes))
      ensures next <= |entries| && Clean(m, next) && AllPruned(m, was)
      ensures Total(entries) < Total(old(entries)) || (entries == old(entries) && next == i + 1)
    {
      assert HeadAt(routes[..routeSlots], entries, repr, i);
      EntryAt(entries, entries[i].prefix, i);
      next := i;
      var r := FirstMatch(m, i);
      if r != null {
        ViewAt(entries[i].prefix, i);
        assert r in entries[i].order && Named(entries[i]) && PrefixOk(r.prefix);
        FlushOne(env, m, r, i, was);
      } else {
        next := i + 1;
      }
    }

    lemma CleanEverywhere(m: Match, p: Prefix, k: RouteObj)
      requires Shape() && Clean(m, |entries|) && k in View(p).tab
      ensures !Matches(m, View(p).tab[k])
    {
      var j :| At(entries, p, j) && EntryOf(entries, p) == entries[j];
      assert CleanEntry(m, entries[j]);
    }

    /**
     * `flush_neighbour_routes` and `flush_interface_routes`: although every flush may drop a
     * slot and install another route, the loop ends with no matching route left and every
     * other route still there.
     */
    method FlushMatching(env: Env, m: Match)
      requires TableOk()
      modifies `routes, `routeSlots, `srcs, `routeCount, `entries, `repr, routes, repr
      ensures TableOk() && repr == old(repr) && (routes == old(routes) || fresh(routes))
      ensures forall p, k :: k in View(p).tab ==> !Matches(m, View(p).tab[k])
      ensures forall p :: Pruned(m, old(View(p)), View(p))
    {
      ghost var es, ss := entries, srcs;
      ghost var was: Prefix -> Slot<RouteObj> := p => ViewOf(es, ss, p);
      forall p ensures Pruned(m, was(p), View(p)) {
        PrunedSame(m, View(p));
      }
      var i: nat := 0;
      while i < routeSlots
        invariant TableOk() && repr == old(repr) && (routes == old(routes) || fresh(routes))
        invariant i <= |entries| && Clean(m, i) && AllPruned(m, was)
        decreases Total(entries), |entries| - i
      {
        i := FlushTurn(env, m, i, was);
      }
      forall p, k | k in View(p).tab ensures !Matches(m, View(p).tab[k]) {
        CleanEverywhere(m, p, k);
      }
      forall p ensures Pruned(m, old(View(p)), View(p)) {
        assert Pruned(m, was(p), View(p));
      }
    }

    // ----- expire_sources

    /** The body of `expire_sources` for one source, with `flush_source`. */
    method ExpireSource(k: SourceKey, now: int)
      requires TableOk() && PrefixOk(k.prefix) && k in routeCount && k.id in SourcesOf(k.prefix)
      modifies `srcs, `routeCount
      ensures TableOk()
      ensures View(k.prefix) == AfterExpiry(old(View(k.prefix)), k.id, now)
      ensures forall q :: q != k.prefix ==> View(q) == old(View(q))
      ensures routeCount.Keys == old(routeCount).Keys - (if k.id in SourcesOf(k.prefix) then {} else {k})
    {
      ghost var v := AfterExpiry(View(k.prefix), k.id, now);
      ExpiryGood(View(k.prefix), routeCount, k, now);
      var src := srcs[k.prefix][k.id];
      if src.time > now {
        src := src.(time := now);
      }
      if Stale(src, now) && routeCount[k] == 0 {
        SetBooks(k.prefix, srcs[k.prefix] - {k.id}, routeCount - {k}, v);
      } else {
        var mine: map<RouterId, Source> := srcs[k.prefix][k.id := src];
        SetBooks(k.prefix, mine, routeCount, v);
      }
    }

    /** `expire_sources` drops exactly the aged sources that no route uses. */
    method ExpireSources(now: int)
      requires TableOk()
      modifies `srcs, `routeCount
      ensures TableOk()
      ensures forall p :: View(p).order == old(View(p)).order && View(p).tab == old(View(p)).tab
      ensures forall p, id :: ExpiredOk(old(View(p)), View(p), id, now)
    {
      var todo := routeCount.Keys;
      ghost var all := todo;
      forall p, id | SourceKey(id, p) !in todo ensures id !in SourcesOf(p) {
        assert PrefixOk(p) && CountFor(routeCount, p, View(p), id);
      }
      while todo != {}
        invariant TableOk() && todo <= all && todo <= routeCount.Keys && all == old(routeCount.Keys)
        invariant forall p :: View(p).order == old(View(p)).order && View(p).tab == old(View(p)).tab
        invariant forall p, id :: if SourceKey(id, p) in todo then SameSource(old(View(p)), View(p), id)
                                  else ExpiredOk(old(View(p)), View(p), id, now)
        decreases todo
      {
        var k :| k in todo;
        assert PrefixOk(k.prefix) && CountFor(routeCount, k.prefix, View(k.prefix), k.id);
        label turn:
        ExpireSource(k, now);
        todo := todo - {k};
        forall p, id ensures if SourceKey(id, p) in todo then SameSource(old(View(p)), View(p), id)
                             else ExpiredOk(old(View(p)), View(p), id, now)
        {
          if SourceKey(id, p) == k {
            ExpiredNow(old(View(p)), old@turn(View(p)), id, now);
          } else if p == k.prefix {
            ExpiredElsewhere(old@turn(View(p)), k.id, id, now);
          }
        }
      }
    }
  }
}
