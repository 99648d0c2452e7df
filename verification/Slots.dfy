/**
 * What the route table stores, as values: the sorted array of slots and its meaning as a map
 * from prefixes to slots, the reference counts of the sources, and what the operations of
 * babeld/route.c and babeld/source.c do to them.
 */
module Slots {
  import opened Basics
  import opened Selection
  import opened RouteList

  type Key = RouteObj

  /** One slot of the array: the routes of a prefix in list order, and their contents. */
  datatype Entry = Entry(prefix: Prefix, order: seq<Key>, tab: map<Key, Route>)

  datatype SourceKey = SourceKey(id: RouterId, prefix: Prefix)

  /** `route_compare`: address bytes first, then prefix length. */
  function ComparePrefix(p: Prefix, q: Prefix): int {
    var c := Lex(p.address, q.address);
    if c != 0 then c else if p.plen < q.plen then -1 else if p.plen > q.plen then 1 else 0
  }

  predicate Less(p: Prefix, q: Prefix) {
    ComparePrefix(p, q) < 0
  }

  predicate Sorted(routes: seq<Entry>) {
    forall i, k :: 0 <= i < k < |routes| ==> Less(routes[i].prefix, routes[k].prefix)
  }

  /** Where a prefix that has no slot would go. */
  predicate GoesAt(routes: seq<Entry>, p: Prefix, n: nat) {
    && n <= |routes|
    && (forall k :: 0 <= k < n ==> Less(routes[k].prefix, p))
    && (forall k :: n <= k < |routes| ==> Less(p, routes[k].prefix))
  }

  function Inserted<T>(s: seq<T>, n: nat, x: T): (r: seq<T>)
    requires n <= |s|
    ensures |r| == |s| + 1
    ensures forall i :: 0 <= i < |r| ==> r[i] == if i < n then s[i] else if i == n then x else s[i - 1]
  {
    s[..n] + [x] + s[n..]
  }

  function Deleted<T>(s: seq<T>, n: nat): (r: seq<T>)
    requires n < |s|
    ensures |r| == |s| - 1
    ensures forall i :: 0 <= i < |r| ==> r[i] == if i < n then s[i] else s[i + 1]
  {
    s[..n] + s[n + 1..]
  }

  lemma InsertedSorted(routes: seq<Entry>, e: Entry, n: nat)
    requires Sorted(routes) && GoesAt(routes, e.prefix, n)
    ensures Sorted(Inserted(routes, n, e))
  {
    var t := Inserted(routes, n, e);
    forall i, k | 0 <= i < k < |t| ensures Less(t[i].prefix, t[k].prefix) {
      LessTransitive(t[i].prefix, e.prefix, t[k].prefix);
    }
  }

  lemma LessTransitive(p: Prefix, q: Prefix, s: Prefix)
    ensures Less(p, q) && Less(q, s) ==> Less(p, s)
  {
    LexIsAnOrder(p.address, q.address, s.address);
    LexIsAnOrder(q.address, s.address, p.address);
    LexIsAnOrder(s.address, p.address, q.address);
  }

  /** The comparison tells equal prefixes from others, and its sign from its mirror image. */
  lemma PrefixOrder(p: Prefix, q: Prefix)
    ensures ComparePrefix(p, q) == 0 <==> p == q
    ensures ComparePrefix(p, q) > 0 <==> Less(q, p)
  {
    LexIsAnOrder(p.address, q.address, p.address);
  }

  lemma LessIrreflexive(p: Prefix)
    ensures !Less(p, p)
  {
    LexIsAnOrder(p.address, p.address, p.address);
  }

  /** The routes of a slot are routes to its prefix. */
  predicate Named(e: Entry) {
    forall x :: x in e.order ==> x.prefix == e.prefix
  }

  /** No route stands in two slots. */
  lemma Apart(routes: seq<Entry>, i: nat, j: nat)
    requires Sorted(routes) && i < |routes| && j < |routes| && i != j && Named(routes[i]) && Named(routes[j])
    ensures forall x :: x in routes[i].order ==> x !in routes[j].order
  {
    LessIrreflexive(routes[i].prefix);
  }

  // ----- the table as a map from prefixes to slots

  ghost predicate At(routes: seq<Entry>, p: Prefix, i: int) {
    0 <= i < |routes| && routes[i].prefix == p
  }

  /** The entry of a prefix; an empty one if it has no slot. */
  ghost function EntryOf(routes: seq<Entry>, p: Prefix): Entry {
    if exists i :: At(routes, p, i) then
      var i :| At(routes, p, i);
      routes[i]
    else Entry(p, [], map[])
  }

  lemma EntryAt(routes: seq<Entry>, p: Prefix, i: int)
    requires Sorted(routes) && At(routes, p, i)
    ensures EntryOf(routes, p) == routes[i]
  {
    LessIrreflexive(p);
    var k :| At(routes, p, k) && EntryOf(routes, p) == routes[k];
  }

  lemma NoEntry(routes: seq<Entry>, p: Prefix, n: nat)
    requires GoesAt(routes, p, n)
    ensures EntryOf(routes, p) == Entry(p, [], map[])
    ensures forall i :: !At(routes, p, i)
  {
    LessIrreflexive(p);
  }

  function SourcesIn(srcs: map<Prefix, map<RouterId, Source>>, p: Prefix): map<RouterId, Source> {
    if p in srcs then srcs[p] else map[]
  }

  /** Everything that is known about a prefix. */
  ghost function ViewOf(routes: seq<Entry>, srcs: map<Prefix, map<RouterId, Source>>, p: Prefix): Slot<Key> {
    Slot(EntryOf(routes, p).order, EntryOf(routes, p).tab, SourcesIn(srcs, p))
  }

  lemma ReplacedEntries(routes: seq<Entry>, i: nat, e: Entry)
    requires Sorted(routes) && i < |routes| && e.prefix == routes[i].prefix
    ensures Sorted(routes[i := e]) && EntryOf(routes[i := e], e.prefix) == e
    ensures forall q :: q != e.prefix ==> EntryOf(routes[i := e], q) == EntryOf(routes, q)
  {
    var t := routes[i := e];
    EntryAt(t, e.prefix, i);
    forall q | q != e.prefix ensures EntryOf(t, q) == EntryOf(routes, q) {
      ReplacedOther(routes, i, e, q);
    }
  }

  lemma ReplacedOther(routes: seq<Entry>, i: nat, e: Entry, q: Prefix)
    requires Sorted(routes) && i < |routes| && e.prefix == routes[i].prefix && Sorted(routes[i := e]) && q != e.prefix
    ensures EntryOf(routes[i := e], q) == EntryOf(routes, q)
  {
    var t := routes[i := e];
    forall k | At(t, q, k) ensures At(routes, q, k) {
    }
    if exists k :: At(routes, q, k) {
      var k :| At(routes, q, k) && EntryOf(routes, q) == routes[k];
      EntryAt(t, q, k);
    }
  }

  lemma InsertedEntries(routes: seq<Entry>, n: nat, e: Entry)
    requires Sorted(routes) && GoesAt(routes, e.prefix, n)
    ensures Sorted(Inserted(routes, n, e)) && EntryOf(Inserted(routes, n, e), e.prefix) == e
    ensures forall q :: q != e.prefix ==> EntryOf(Inserted(routes, n, e), q) == EntryOf(routes, q)
  {
    var t := Inserted(routes, n, e);
    InsertedSorted(routes, e, n);
    EntryAt(t, e.prefix, n);
    forall q | q != e.prefix ensures EntryOf(t, q) == EntryOf(routes, q) {
      InsertedOther(routes, n, e, q);
    }
  }

  lemma InsertedBack(routes: seq<Entry>, n: nat, e: Entry, q: Prefix, k: int)
    requires n <= |routes| && q != e.prefix && At(Inserted(routes, n, e), q, k)
    ensures At(routes, q, if k < n then k else k - 1)
  {
  }

  lemma InsertedForth(routes: seq<Entry>, n: nat, e: Entry, q: Prefix, k: int)
    requires n <= |routes| && At(routes, q, k)
    ensures At(Inserted(routes, n, e), q, if k < n then k else k + 1)
    ensures Inserted(routes, n, e)[if k < n then k else k + 1] == routes[k]
  {
  }

  lemma InsertedOther(routes: seq<Entry>, n: nat, e: Entry, q: Prefix)
    requires Sorted(routes) && GoesAt(routes, e.prefix, n) && Sorted(Inserted(routes, n, e)) && q != e.prefix
    ensures EntryOf(Inserted(routes, n, e), q) == EntryOf(routes, q)
  {
    var t := Inserted(routes, n, e);
    if k :| At(t, q, k) {
      InsertedBack(routes, n, e, q, k);
      var j :| At(routes, q, j) && EntryOf(routes, q) == routes[j];
      InsertedForth(routes, n, e, q, j);
      EntryAt(t, q, if j < n then j else j + 1);
    } else {
      NotInserted(routes, n, e, q);
    }
  }

  lemma NotInserted(routes: seq<Entry>, n: nat, e: Entry, q: Prefix)
    requires n <= |routes| && forall k :: !At(Inserted(routes, n, e), q, k)
    ensures forall k :: !At(routes, q, k)
  {
    forall k ensures !At(routes, q, k) {
      if 0 <= k < |routes| {
        assert Inserted(routes, n, e)[if k < n then k else k + 1] == routes[k];
        assert !At(Inserted(routes, n, e), q, if k < n then k else k + 1);
      }
    }
  }

  lemma DeletedSorted(routes: seq<Entry>, i: nat)
    requires Sorted(routes) && i < |routes|
    ensures Sorted(Deleted(routes, i)) && GoesAt(Deleted(routes, i), routes[i].prefix, i)
  {
    var t := Deleted(routes, i);
    forall j, k | 0 <= j < k < |t| ensures Less(t[j].prefix, t[k].prefix) {
      assert t[j] == routes[if j < i then j else j + 1] && t[k] == routes[if k < i then k else k + 1];
    }
    forall k | i <= k < |t| ensures Less(routes[i].prefix, t[k].prefix) {
      assert t[k] == routes[k + 1];
    }
  }

  lemma DeletedBack(routes: seq<Entry>, i: nat, q: Prefix, k: int)
    requires i < |routes| && At(Deleted(routes, i), q, k)
    ensures At(routes, q, if k < i then k else k + 1)
  {
  }

  lemma DeletedForth(routes: seq<Entry>, i: nat, q: Prefix, k: int)
    requires i < |routes| && q != routes[i].prefix && At(routes, q, k)
    ensures At(Deleted(routes, i), q, if k < i then k else k - 1)
    ensures Deleted(routes, i)[if k < i then k else k - 1] == routes[k]
  {
  }

  lemma DeletedOther(routes: seq<Entry>, i: nat, q: Prefix)
    requires Sorted(routes) && i < |routes| && Sorted(Deleted(routes, i)) && q != routes[i].prefix
    ensures EntryOf(Deleted(routes, i), q) == EntryOf(routes, q)
  {
    var t := Deleted(routes, i);
    if k :| At(t, q, k) {
      DeletedBack(routes, i, q, k);
      var j :| At(routes, q, j) && EntryOf(routes, q) == routes[j];
      DeletedForth(routes, i, q, j);
      EntryAt(t, q, if j < i then j else j - 1);
    } else {
      NotDeleted(routes, i, q);
    }
  }

  lemma NotDeleted(routes: seq<Entry>, i: nat, q: Prefix)
    requires i < |routes| && q != routes[i].prefix && forall k :: !At(Deleted(routes, i), q, k)
    ensures forall k :: !At(routes, q, k)
  {
    forall k ensures !At(routes, q, k) {
      if 0 <= k < |routes| && k != i {
        assert Deleted(routes, i)[if k < i then k else k - 1] == routes[k];
        assert !At(Deleted(routes, i), q, if k < i then k else k - 1);
      }
    }
  }

  lemma DeletedEntries(routes: seq<Entry>, i: nat)
    requires Sorted(routes) && i < |routes|
    ensures Sorted(Deleted(routes, i))
    ensures EntryOf(Deleted(routes, i), routes[i].prefix) == Entry(routes[i].prefix, [], map[])
    ensures forall q :: q != routes[i].prefix ==> EntryOf(Deleted(routes, i), q) == EntryOf(routes, q)
  {
    DeletedSorted(routes, i);
    NoEntry(Deleted(routes, i), routes[i].prefix, i);
    forall q | q != routes[i].prefix ensures EntryOf(Deleted(routes, i), q) == EntryOf(routes, q) {
      DeletedOther(routes, i, q);
    }
  }

  // ----- reference counts

  /** Every source of the prefix counts exactly the routes that refer to it. */
  ghost predicate CountsFor(counts: map<SourceKey, nat>, p: Prefix, s: Slot<Key>) {
    forall id :: CountFor(counts, p, s, id)
  }

  ghost predicate CountFor(counts: map<SourceKey, nat>, p: Prefix, s: Slot<Key>, id: RouterId) {
    var k := SourceKey(id, p);
    && (k in counts <==> id in s.srcs)
    && (k in counts ==> counts[k] == |Users(s.tab, id)|)
  }

  /** `find_source` gives a new source the count 0. */
  function Created(counts: map<SourceKey, nat>, k: SourceKey): map<SourceKey, nat> {
    if k in counts then counts else counts[k := 0]
  }

  function Retained(counts: map<SourceKey, nat>, k: SourceKey): map<SourceKey, nat>
    requires k in counts
  {
    counts[k := counts[k] + 1]
  }

  function Released(counts: map<SourceKey, nat>, k: SourceKey): map<SourceKey, nat>
    requires k in counts && counts[k] > 0
  {
    counts[k := counts[k] - 1]
  }

  /** The counts of one prefix do not depend on those of another. */
  ghost predicate SameElsewhere(counts: map<SourceKey, nat>, counts': map<SourceKey, nat>, p: Prefix) {
    forall k: SourceKey :: k.prefix != p ==>
      (k in counts <==> k in counts') && (k in counts ==> counts[k] == counts'[k])
  }

  /** The route's old source is really counted, so releasing it cannot underflow. */
  lemma CountedUse(counts: map<SourceKey, nat>, p: Prefix, s: Slot<Key>, k: Key)
    requires Valid(s) && CountsFor(counts, p, s) && k in s.tab
    ensures SourceKey(s.tab[k].src, p) in counts && counts[SourceKey(s.tab[k].src, p)] > 0
  {
    assert CountFor(counts, p, s, s.tab[k].src);
    assert k in Users(s.tab, s.tab[k].src);
  }

  /** Moving a route from one source to another, retained before released. */
  function Moved(counts: map<SourceKey, nat>, p: Prefix, to: RouterId, from: RouterId): map<SourceKey, nat>
    requires SourceKey(from, p) in counts && counts[SourceKey(from, p)] > 0
  {
    Released(Retained(Created(counts, SourceKey(to, p)), SourceKey(to, p)), SourceKey(from, p))
  }

  lemma MovedCounts(counts: map<SourceKey, nat>, p: Prefix, s: Slot<Key>, s': Slot<Key>, k: Key, to: RouterId)
    requires Valid(s) && CountsFor(counts, p, s) && k in s.tab
    requires forall id :: id in s'.srcs <==> id in s.srcs || id == to
    requires forall id :: Users(s'.tab, id) == if id == to then Users(s.tab, id) + {k} else Users(s.tab, id) - {k}
    ensures SourceKey(s.tab[k].src, p) in counts && counts[SourceKey(s.tab[k].src, p)] > 0
    ensures CountsFor(Moved(counts, p, to, s.tab[k].src), p, s')
    ensures SameElsewhere(counts, Moved(counts, p, to, s.tab[k].src), p)
  {
    CountedUse(counts, p, s, k);
    var from := s.tab[k].src;
    forall id ensures CountFor(Moved(counts, p, to, from), p, s', id) {
      assert CountFor(counts, p, s, id);
      MovedCount(counts, p, s, s', k, to, id);
    }
  }

  lemma MovedCount(counts: map<SourceKey, nat>, p: Prefix, s: Slot<Key>, s': Slot<Key>, k: Key, to: RouterId,
                   id: RouterId)
    requires Valid(s) && k in s.tab && CountFor(counts, p, s, id)
    requires id in s'.srcs <==> id in s.srcs || id == to
    requires Users(s'.tab, id) == if id == to then Users(s.tab, id) + {k} else Users(s.tab, id) - {k}
    requires SourceKey(s.tab[k].src, p) in counts && counts[SourceKey(s.tab[k].src, p)] > 0
    ensures CountFor(Moved(counts, p, to, s.tab[k].src), p, s', id)
  {
    assert k in Users(s.tab, id) <==> id == s.tab[k].src;
    if id !in s.srcs {
      NoUsers(s, id);
    }
  }

  lemma NoUsers(s: Slot<Key>, id: RouterId)
    requires Valid(s) && id !in s.srcs
    ensures Users(s.tab, id) == {}
  {
  }

  lemma AddedCounts(counts: map<SourceKey, nat>, p: Prefix, s: Slot<Key>, s': Slot<Key>, k: Key, to: RouterId,
                    added: bool)
    requires Valid(s) && CountsFor(counts, p, s) && k !in s.tab
    requires forall id :: id in s'.srcs <==> id in s.srcs || id == to
    requires forall id :: Users(s'.tab, id) == if id == to && added then Users(s.tab, id) + {k} else Users(s.tab, id)
    ensures var c := Created(counts, SourceKey(to, p));
            var c' := if added then Retained(c, SourceKey(to, p)) else c;
            CountsFor(c', p, s') && SameElsewhere(counts, c', p)
  {
    var c := Created(counts, SourceKey(to, p));
    var c' := if added then Retained(c, SourceKey(to, p)) else c;
    forall id ensures CountFor(c', p, s', id) {
      assert CountFor(counts, p, s, id);
      if id !in s.srcs {
        NoUsers(s, id);
      }
    }
  }

  lemma RemovedCounts(counts: map<SourceKey, nat>, p: Prefix, s: Slot<Key>, s': Slot<Key>, k: Key)
    requires Valid(s) && CountsFor(counts, p, s) && k in s.tab && s'.srcs == s.srcs
    requires forall id :: Users(s'.tab, id) == Users(s.tab, id) - {k}
    ensures SourceKey(s.tab[k].src, p) in counts && counts[SourceKey(s.tab[k].src, p)] > 0
    ensures CountsFor(Released(counts, SourceKey(s.tab[k].src, p)), p, s')
    ensures SameElsewhere(counts, Released(counts, SourceKey(s.tab[k].src, p)), p)
  {
    CountedUse(counts, p, s, k);
    forall id ensures CountFor(Released(counts, SourceKey(s.tab[k].src, p)), p, s', id) {
      assert CountFor(counts, p, s, id);
      assert k in Users(s.tab, id) <==> id == s.tab[k].src;
    }
  }

  // ----- the table

  /** The slot of a prefix is in order and counts its references. */
  ghost predicate GoodSlot(s: Slot<Key>, counts: map<SourceKey, nat>, p: Prefix) {
    Valid(s) && CountsFor(counts, p, s)
  }

  lemma GoodElsewhere(s: Slot<Key>, counts: map<SourceKey, nat>, counts': map<SourceKey, nat>, p: Prefix,
                      q: Prefix)
    requires GoodSlot(s, counts, q) && SameElsewhere(counts, counts', p) && p != q
    ensures GoodSlot(s, counts', q)
  {
    forall id ensures CountFor(counts', q, s, id) {
      assert CountFor(counts, q, s, id);
    }
  }

  lemma UpdatedKnownGood(env: Env, s: Slot<Key>, u: Update, k: Key, counts: map<SourceKey, nat>, p: Prefix)
    requires GoodSlot(s, counts, p) && k in s.tab && FindRoute(s, s.order, u.neigh, u.nexthop) == Some(k)
    ensures SourceKey(s.tab[k].src, p) in counts && counts[SourceKey(s.tab[k].src, p)] > 0
    ensures var counts' := Moved(counts, p, u.id, s.tab[k].src);
            GoodSlot(UpdatedKnown(env, s, u, k), counts', p) && SameElsewhere(counts, counts', p)
    ensures UpdatedKnown(env, s, u, k).order != []
  {
    var s1, s2 := AcceptKnown(env, s, u, k), UpdatedKnown(env, s, u, k);
    AcceptKnownEvolves(env, s, u, k);
    RouteLostReselects(env, s1);
    forall id ensures Users(s2.tab, id) == if id == u.id then Users(s.tab, id) + {k} else Users(s.tab, id) - {k} {
      AcceptKnownUsers(env, s, u, k, id);
      ReselectedUsers(env, s1, RouteLost(env, s1), id);
    }
    AcceptKnownUsers(env, s, u, k, u.id);
    UpdatedKnownSources(env, s, u, k);
    MovedCounts(counts, p, s, s2, k, u.id);
    assert k in s2.tab && k in s2.order;
  }

  lemma UpdatedKnownSources(env: Env, s: Slot<Key>, u: Update, k: Key)
    requires Valid(s) && k in s.tab && FindRoute(s, s.order, u.neigh, u.nexthop) == Some(k)
    ensures forall id :: id in UpdatedKnown(env, s, u, k).srcs <==> id in s.srcs || id == u.id
  {
    var s1 := AcceptKnown(env, s, u, k);
    AcceptKnownEvolves(env, s, u, k);
    RouteLostReselects(env, s1);
    WrittenEvolves(env, s, u, k);
    RouteChangedReselects(env, Written(env, s, u, k), k, Metric(s.tab[k]));
  }

  lemma AcceptNewGood(env: Env, s: Slot<Key>, u: Update, counts: map<SourceKey, nat>, p: Prefix, n: Key)
    requires GoodSlot(s, counts, p) && n !in s.tab
    ensures var c := Created(counts, SourceKey(u.id, p));
            var counts' := if Adds(env, s, u) then Retained(c, SourceKey(u.id, p)) else c;
            GoodSlot(AcceptNew(env, s, u, n), counts', p) && SameElsewhere(counts, counts', p)
    ensures Adds(env, s, u) ==> AcceptNew(env, s, u, n).order != []
  {
    var s' := AcceptNew(env, s, u, n);
    AcceptNewEvolves(env, s, u, n);
    forall id ensures Users(s'.tab, id) ==
      if id == u.id && Adds(env, s, u) then Users(s.tab, id) + {n} else Users(s.tab, id) {
      AcceptNewUsers(env, s, u, n, id);
    }
    AcceptNewUsers(env, s, u, n, u.id);
    AcceptNewSources(env, s, u, n);
    AddedCounts(counts, p, s, s', n, u.id, Adds(env, s, u));
    if Adds(env, s, u) {
      assert n in s'.tab && n in s'.order;
    }
  }

  lemma SourceAddedGood(env: Env, s: Slot<Key>, u: Update, counts: map<SourceKey, nat>, p: Prefix)
    requires GoodSlot(s, counts, p)
    ensures var counts' := Created(counts, SourceKey(u.id, p));
            && GoodSlot(s.(srcs := FindSource(s.srcs, u.id, u.seqno, env.now)), counts', p)
            && SameElsewhere(counts, counts', p)
  {
    var s' := s.(srcs := FindSource(s.srcs, u.id, u.seqno, env.now));
    SourceAddedEvolves(env, s, u);
    forall id ensures CountFor(Created(counts, SourceKey(u.id, p)), p, s', id) {
      assert CountFor(counts, p, s, id);
      if id !in s.srcs {
        NoUsers(s, id);
      }
    }
  }

  lemma AcceptNewSources(env: Env, s: Slot<Key>, u: Update, n: Key)
    requires Valid(s) && n !in s.tab
    ensures forall id :: id in AcceptNew(env, s, u, n).srcs <==> id in s.srcs || id == u.id
    ensures !Adds(env, s, u) ==> AcceptNew(env, s, u, n) == s.(srcs := FindSource(s.srcs, u.id, u.seqno, env.now))
  {
    if Adds(env, s, u) {
      AppendedValid(env, s, u, n);
      ConsiderReselects(env, Appended(env, s, u, n), n);
    }
  }

  lemma DroppedGood(env: Env, s: Slot<Key>, k: Key, counts: map<SourceKey, nat>, p: Prefix)
    requires GoodSlot(s, counts, p) && k in s.tab
    ensures SourceKey(s.tab[k].src, p) in counts && counts[SourceKey(s.tab[k].src, p)] > 0
    ensures var counts' := Released(counts, SourceKey(s.tab[k].src, p));
            GoodSlot(Dropped(env, s, k), counts', p) && SameElsewhere(counts, counts', p)
  {
    var s' := Dropped(env, s, k);
    DroppedKeeps(env, s, k);
    forall id ensures Users(s'.tab, id) == Users(s.tab, id) - {k} {
      forall x ensures x in Users(s'.tab, id) <==> x in Users(s.tab, id) - {k} {
      }
    }
    RemovedCounts(counts, p, s, s', k);
  }

  /** Operations that leave every reference in place keep the slot good. */
  lemma SameUsersGood(s: Slot<Key>, s': Slot<Key>, counts: map<SourceKey, nat>, p: Prefix)
    requires GoodSlot(s, counts, p) && Valid(s') && s'.srcs == s.srcs
    requires forall id :: Users(s'.tab, id) == Users(s.tab, id)
    ensures GoodSlot(s', counts, p) && SameElsewhere(counts, counts, p)
  {
    forall id ensures CountFor(counts, p, s', id) {
      assert CountFor(counts, p, s, id);
    }
  }

  lemma MetricGood(env: Env, s: Slot<Key>, k: Key, cost: nat, addMetric: nat, counts: map<SourceKey, nat>, p: Prefix)
    requires GoodSlot(s, counts, p) && k in s.tab
    ensures GoodSlot(UpdateRouteMetric(env, s, k, cost, addMetric), counts, p)
  {
    forall id ensures Users(UpdateRouteMetric(env, s, k, cost, addMetric).tab, id) == Users(s.tab, id) {
      UpdateRouteMetricUsers(env, s, k, cost, addMetric, id);
    }
    UpdateRouteMetricUsers(env, s, k, cost, addMetric, 0);
    SameUsersGood(s, UpdateRouteMetric(env, s, k, cost, addMetric), counts, p);
  }

  lemma UninstallGood(s: Slot<Key>, counts: map<SourceKey, nat>, p: Prefix)
    requires GoodSlot(s, counts, p)
    ensures GoodSlot(Uninstall(s), counts, p)
  {
    forall id ensures Users(Uninstall(s).tab, id) == Users(s.tab, id) {
      UninstallUsers(s, id);
    }
    UninstallUsers(s, 0);
    SameUsersGood(s, Uninstall(s), counts, p);
  }

  // ----- flushing many routes

  /** The routes that flush_neighbour_routes or flush_interface_routes is to remove. */
  datatype Match = OfNeighbour(neigh: Neighbour) | OfInterface(ifp: nat, v4only: bool)

  predicate Matches(m: Match, r: Route) {
    match m
    case OfNeighbour(neigh) => r.neigh == neigh
    case OfInterface(ifp, v4only) => r.neigh.ifp == ifp && (!v4only || V4Mapped(r.nexthop))
  }

  /** Nothing but matching routes is gone, and of the others at most the installed flag changed. */
  ghost predicate Pruned(m: Match, s: Slot<Key>, s': Slot<Key>) {
    && s'.srcs == s.srcs
    && (forall k :: k in s'.tab ==> k in s.tab && s'.tab[k] == s.tab[k].(installed := s'.tab[k].installed))
    && (forall k :: k in s.tab && !Matches(m, s.tab[k]) ==> k in s'.tab)
  }

  ghost predicate CleanEntry(m: Match, e: Entry) {
    forall k :: k in e.tab ==> !Matches(m, e.tab[k])
  }

  lemma PrunedSame(m: Match, s: Slot<Key>)
    ensures Pruned(m, s, s)
  {
  }

  lemma PrunedTransitive(m: Match, s: Slot<Key>, s1: Slot<Key>, s2: Slot<Key>)
    requires Pruned(m, s, s1) && Pruned(m, s1, s2)
    ensures Pruned(m, s, s2)
  {
    forall k | k in s.tab && !Matches(m, s.tab[k]) ensures k in s2.tab {
      assert k in s1.tab && !Matches(m, s1.tab[k]);
    }
  }

  lemma DroppedPruned(env: Env, m: Match, s: Slot<Key>, k: Key)
    requires Valid(s) && k in s.tab && Matches(m, s.tab[k])
    ensures Pruned(m, s, Dropped(env, s, k))
  {
    DroppedKeeps(env, s, k);
  }

  ghost function Total(routes: seq<Entry>): nat {
    if routes == [] then 0 else |routes[0].tab| + Total(routes[1..])
  }

  lemma {:induction false} TotalAppend(a: seq<Entry>, b: seq<Entry>)
    ensures Total(a + b) == Total(a) + Total(b)
  {
    if a == [] {
      assert a + b == b;
    } else {
      assert (a + b)[1..] == a[1..] + b;
      TotalAppend(a[1..], b);
    }
  }

  /** Flushing a route leaves one route fewer. */
  lemma TotalDrops(routes: seq<Entry>, i: nat, e: Entry)
    requires i < |routes| && |e.tab| + 1 == |routes[i].tab|
    ensures Total(routes[i := e]) < Total(routes)
    ensures |e.tab| == 0 ==> Total(Deleted(routes, i)) < Total(routes)
  {
    var a, b := routes[..i], routes[i + 1..];
    assert routes == a + ([routes[i]] + b);
    assert routes[i := e] == a + ([e] + b);
    assert Deleted(routes, i) == a + b;
    TotalAppend(a, [routes[i]] + b);
    TotalAppend(a, [e] + b);
    TotalAppend(a, b);
  }

  /** What flushing a route does to the array. */
  lemma DroppedArray(was: seq<Entry>, now: seq<Entry>, i: nat, s: Slot<Key>, s': Slot<Key>, k: Key)
    requires i < |was| && was[i].tab == s.tab && k in s.tab
    requires Valid(s') && s'.tab.Keys == s.tab.Keys - {k}
    requires now == if s'.order == [] then Deleted(was, i) else was[i := Entry(was[i].prefix, s'.order, s'.tab)]
    ensures Total(now) < Total(was)
    ensures i <= |now| && forall j :: 0 <= j < i ==> now[j] == was[j]
  {
    assert |s'.tab| + 1 == |s.tab| by {
      assert |s'.tab.Keys| == |s.tab.Keys| - 1;
    }
    if s'.order == [] {
      EmptyTab(s');
    }
    TotalDrops(was, i, Entry(was[i].prefix, s'.order, s'.tab));
  }

  // ----- expiry of sources

  ghost predicate SameSource(s: Slot<Key>, s': Slot<Key>, id: RouterId) {
    (id in s'.srcs <==> id in s.srcs) && (id in s.srcs ==> s'.srcs[id] == s.srcs[id])
  }

  /** A source survives unless it is aged and unused; a time in the future is pulled back. */
  ghost predicate ExpiredOk(s: Slot<Key>, s': Slot<Key>, id: RouterId, now: int) {
    && (id in s'.srcs <==> id in s.srcs && (!Stale(s.srcs[id], now) || Users(s.tab, id) != {}))
    && (id in s'.srcs ==> s'.srcs[id] == s.srcs[id].(time := Min(s.srcs[id].time, now)))
  }

  lemma ExpiredNow(s: Slot<Key>, s1: Slot<Key>, id: RouterId, now: int)
    requires SameSource(s, s1, id) && s.tab == s1.tab && id in s1.srcs
    ensures ExpiredOk(s, AfterExpiry(s1, id, now), id, now)
  {
  }

  lemma ExpiredElsewhere(s: Slot<Key>, k: RouterId, id: RouterId, now: int)
    requires k in s.srcs && id != k
    ensures SameSource(s, AfterExpiry(s, k, now), id)
  {
  }

  ghost function AfterExpiry(s: Slot<Key>, id: RouterId, now: int): Slot<Key>
    requires id in s.srcs
  {
    if Stale(s.srcs[id], now) && Users(s.tab, id) == {} then s.(srcs := s.srcs - {id})
    else s.(srcs := s.srcs[id := s.srcs[id].(time := Min(s.srcs[id].time, now))])
  }

  lemma ExpiryGood(s: Slot<Key>, counts: map<SourceKey, nat>, k: SourceKey, now: int)
    requires GoodSlot(s, counts, k.prefix) && k in counts && k.id in s.srcs
    ensures counts[k] == 0 <==> Users(s.tab, k.id) == {}
    ensures var counts' := if Stale(s.srcs[k.id], now) && Users(s.tab, k.id) == {} then counts - {k} else counts;
            GoodSlot(AfterExpiry(s, k.id, now), counts', k.prefix) && SameElsewhere(counts, counts', k.prefix)
  {
    assert CountFor(counts, k.prefix, s, k.id);
    var counts' := if Stale(s.srcs[k.id], now) && Users(s.tab, k.id) == {} then counts - {k} else counts;
    var s' := AfterExpiry(s, k.id, now);
    forall x | x in s.tab ensures s.tab[x].src in s'.srcs {
      assert x in Users(s.tab, s.tab[x].src);
    }
    forall id ensures CountFor(counts', k.prefix, s', id) {
      assert CountFor(counts, k.prefix, s, id);
    }
  }

  lemma EmptyTab(s: Slot<Key>)
    requires Valid(s) && s.order == []
    ensures s.tab == map[]
  {
    assert forall k :: k !in s.tab;
  }
}
