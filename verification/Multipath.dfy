/**
 * The multipath set of a BGP route (bgpd/bgp_mpath.c): the paths chained behind the best one,
 * and the walk that brings an old chain in line with a new list of equal-cost paths.
 */
module Multipath {
  import opened Basics
  import Order = MultipathOrder

  class Path {
    const nexthop: Order.Nexthop
    const peer: int
    const ibgp: bool
    var prev: Path?
    var next: Path?
    var count: nat
    var multipath: bool
    var changed: bool

    constructor (nexthop: Order.Nexthop, peer: int, ibgp: bool)
      ensures this.nexthop == nexthop && this.peer == peer && this.ibgp == ibgp
      ensures prev == next == null && count == 0 && !multipath && !changed
    {
      this.nexthop, this.peer, this.ibgp := nexthop, peer, ibgp;
      prev, next, count, multipath, changed := null, null, 0, false, false;
    }
  }

  /** `bgp_info_mpath_cmp`; peers are compared as numbers. */
  function Compare(a: Path, b: Path): int {
    var c := Order.Compare(a.nexthop, b.nexthop);
    if c != 0 then c else a.peer - b.peer
  }

  predicate SameNexthop(a: Path, b: Path) {
    Order.Compare(a.nexthop, b.nexthop) == 0
  }

  predicate Sorted(s: seq<Path>) {
    forall i, j :: 0 <= i < j < |s| ==> Compare(s[i], s[j]) <= 0
  }

  // ----- the sorted list of candidates

  /** `bgp_mp_list_add`: in front of the first path that is greater. */
  function Added(s: seq<Path>, p: Path): (r: seq<Path>)
    ensures |r| == |s| + 1 && multiset(r) == multiset(s) + multiset{p}
  {
    if s == [] then [p]
    else if Compare(p, s[0]) < 0 then [p] + s
    else
      assert s == [s[0]] + s[1..];
      [s[0]] + Added(s[1..], p)
  }

  lemma CompareTransitive(ns: set<Order.Nexthop>, a: Path, b: Path, c: Path)
    requires Order.TotalPreorder(ns) && a.nexthop in ns && b.nexthop in ns && c.nexthop in ns
    requires Compare(a, b) <= 0 && Compare(b, c) <= 0
    ensures Compare(a, c) <= 0
  {
    Order.CompareAntisymmetric(a.nexthop, b.nexthop);
    Order.CompareAntisymmetric(b.nexthop, c.nexthop);
    Order.CompareAntisymmetric(a.nexthop, c.nexthop);
    assert Order.TransitiveAt(a.nexthop, b.nexthop, c.nexthop);
    assert Order.TransitiveAt(c.nexthop, a.nexthop, b.nexthop);
    assert Order.TransitiveAt(b.nexthop, c.nexthop, a.nexthop);
  }

  lemma SortedFront(p: Path, s: seq<Path>)
    requires Sorted(s) && forall i :: 0 <= i < |s| ==> Compare(p, s[i]) <= 0
    ensures Sorted([p] + s)
  {
  }

  /** Where next hops can be ordered, adding a candidate keeps the list sorted. */
  lemma {:induction false} AddedSorted(ns: set<Order.Nexthop>, s: seq<Path>, p: Path)
    requires Order.TotalPreorder(ns) && Sorted(s) && p.nexthop in ns
    requires forall i :: 0 <= i < |s| ==> s[i].nexthop in ns
    ensures Sorted(Added(s, p))
  {
    if s != [] {
      if Compare(p, s[0]) < 0 {
        forall i | 0 <= i < |s| ensures Compare(p, s[i]) <= 0 {
          if i > 0 {
            CompareTransitive(ns, p, s[0], s[i]);
          }
        }
        SortedFront(p, s);
      } else {
        AddedSorted(ns, s[1..], p);
        var r := Added(s[1..], p);
        Order.CompareAntisymmetric(p.nexthop, s[0].nexthop);
        forall i | 0 <= i < |r| ensures Compare(s[0], r[i]) <= 0 {
          assert r[i] in multiset(r);
          assert r[i] == p || r[i] in s[1..];
        }
        SortedFront(s[0], r);
      }
    }
  }

  // ----- the selection

  /** The last chosen path, the best one if none is. */
  function Last(best: Path, chosen: seq<Path>): Path {
    if chosen == [] then best else chosen[|chosen| - 1]
  }

  /** Does a candidate join the paths chosen so far? */
  predicate Takes(best: Path, max: nat, chosen: seq<Path>, p: Path) {
    1 + |chosen| < max && p != best && !SameNexthop(Last(best, chosen), p)
  }

  /** The selection: candidates in order, unless they repeat the next hop chosen last. */
  function Chosen(best: Path, max: nat, ms: seq<Path>): seq<Path> {
    if ms == [] then []
    else
      var c := Chosen(best, max, ms[..|ms| - 1]);
      var p := ms[|ms| - 1];
      if Takes(best, max, c, p) then c + [p] else c
  }

  lemma ChosenNext(best: Path, max: nat, ms: seq<Path>, i: nat)
    requires i < |ms|
    ensures var c := Chosen(best, max, ms[..i]);
            Chosen(best, max, ms[..i + 1]) == if Takes(best, max, c, ms[i]) then c + [ms[i]] else c
  {
    assert ms[..i + 1][..i] == ms[..i];
  }

  /** Once the limit is reached the rest of the candidates do not matter. */
  lemma {:induction false} ChosenFull(best: Path, max: nat, ms: seq<Path>, i: nat)
    requires i <= |ms| && 1 + |Chosen(best, max, ms[..i])| >= max
    ensures Chosen(best, max, ms) == Chosen(best, max, ms[..i])
  {
    if i == |ms| {
      assert ms[..i] == ms;
    } else {
      assert ms[..|ms| - 1][..i] == ms[..i];
      ChosenFull(best, max, ms[..|ms| - 1], i);
    }
  }

  lemma {:induction false} ChosenFrom(best: Path, max: nat, ms: seq<Path>)
    ensures var c := Chosen(best, max, ms); forall i :: 0 <= i < |c| ==> c[i] in ms && c[i] != best
    ensures 1 + |Chosen(best, max, ms)| <= (if max > 1 then max else 1)
  {
    if ms != [] {
      ChosenFrom(best, max, ms[..|ms| - 1]);
    }
  }

  predicate NexthopsIncrease(s: seq<Path>) {
    forall i, j :: 0 <= i < j < |s| ==> Order.Compare(s[i].nexthop, s[j].nexthop) < 0
  }

  lemma StrictlyAfter(ns: set<Order.Nexthop>, a: Path, b: Path, c: Path)
    requires Order.TotalPreorder(ns) && a.nexthop in ns && b.nexthop in ns && c.nexthop in ns
    requires Order.Compare(a.nexthop, b.nexthop) < 0 && Order.Compare(b.nexthop, c.nexthop) <= 0
    ensures Order.Compare(a.nexthop, c.nexthop) < 0
  {
    Order.CompareAntisymmetric(a.nexthop, b.nexthop);
    Order.CompareAntisymmetric(a.nexthop, c.nexthop);
    assert Order.TransitiveAt(b.nexthop, c.nexthop, a.nexthop);
  }

  /** No two of the chosen paths share a next hop. */
  lemma {:induction false} ChosenNexthopsDiffer(ns: set<Order.Nexthop>, best: Path, max: nat, ms: seq<Path>)
    requires Order.TotalPreorder(ns) && Sorted(ms)
    requires forall i :: 0 <= i < |ms| ==> ms[i].nexthop in ns
    ensures NexthopsIncrease(Chosen(best, max, ms))
  {
    if ms != [] {
      var n := |ms| - 1;
      ChosenNexthopsDiffer(ns, best, max, ms[..n]);
      ChosenFrom(best, max, ms[..n]);
      var c, p := Chosen(best, max, ms[..n]), ms[n];
      if Takes(best, max, c, p) && c != [] {
        forall i | 0 <= i < |c| ensures c[i] in ms[..n] {
        }
        LastBelow(ms, c[|c| - 1]);
        Appended(ns, c, p);
      }
    }
  }

  lemma LastBelow(ms: seq<Path>, last: Path)
    requires ms != [] && Sorted(ms) && last in ms[..|ms| - 1]
    ensures Compare(last, ms[|ms| - 1]) <= 0
  {
  }

  lemma Appended(ns: set<Order.Nexthop>, c: seq<Path>, p: Path)
    requires Order.TotalPreorder(ns) && NexthopsIncrease(c) && c != []
    requires p.nexthop in ns && forall i :: 0 <= i < |c| ==> c[i].nexthop in ns
    requires Compare(c[|c| - 1], p) <= 0 && !SameNexthop(c[|c| - 1], p)
    ensures NexthopsIncrease(c + [p])
  {
    forall i | 0 <= i < |c| ensures Order.Compare(c[i].nexthop, p.nexthop) < 0 {
      if i < |c| - 1 {
        StrictlyAfter(ns, c[i], c[|c| - 1], p);
      }
    }
  }

  // ----- when a chosen path repeats the best path's own next hop

  predicate LowerUpTo(best: Path, ms: seq<Path>, lo: nat) {
    && lo <= |ms|
    && (forall i :: 0 <= i < lo ==> Order.Compare(ms[i].nexthop, best.nexthop) < 0)
    && (lo < |ms| ==> Order.Compare(ms[lo].nexthop, best.nexthop) >= 0)
  }

  /** How many candidates at the front have a lower next hop than the best path. */
  function Lower(best: Path, ms: seq<Path>): (r: nat)
    ensures LowerUpTo(best, ms, r)
  {
    if ms == [] || Order.Compare(ms[0].nexthop, best.nexthop) >= 0 then 0 else 1 + Lower(best, ms[1..])
  }

  ghost predicate Repeats(best: Path, c: seq<Path>) {
    exists i :: 0 <= i < |c| && SameNexthop(best, c[i])
  }

  /** Another candidate has the best path's next hop. */
  ghost predicate Twin(best: Path, ms: seq<Path>) {
    exists i :: 0 <= i < |ms| && ms[i] != best && SameNexthop(best, ms[i])
  }

  ghost predicate Ordered(ns: set<Order.Nexthop>, best: Path, ms: seq<Path>) {
    && Order.TotalPreorder(ns) && Sorted(ms) && best.nexthop in ns
    && forall i :: 0 <= i < |ms| ==> ms[i].nexthop in ns
  }

  lemma NotBelow(ns: set<Order.Nexthop>, best: Path, ms: seq<Path>, lo: nat, i: nat)
    requires Ordered(ns, best, ms) && LowerUpTo(best, ms, lo) && lo <= i < |ms|
    ensures Order.Compare(best.nexthop, ms[i].nexthop) <= 0
  {
    Order.CompareAntisymmetric(best.nexthop, ms[lo].nexthop);
    if lo < i {
      assert Compare(ms[lo], ms[i]) <= 0;
      assert Order.TransitiveAt(best.nexthop, ms[lo].nexthop, ms[i].nexthop);
    }
  }

  lemma {:induction false} ChosenLower(best: Path, max: nat, ms: seq<Path>)
    requires forall i :: 0 <= i < |ms| ==> Order.Compare(ms[i].nexthop, best.nexthop) < 0
    ensures var c := Chosen(best, max, ms);
            && (forall i :: 0 <= i < |c| ==> Order.Compare(c[i].nexthop, best.nexthop) < 0)
            && (c != [] <==> ms != [] && max > 1)
  {
    if ms != [] {
      ChosenLower(best, max, ms[..|ms| - 1]);
      Order.CompareAntisymmetric(best.nexthop, ms[|ms| - 1].nexthop);
    }
  }

  /** Candidates between the lower ones and `i` that the selection passes over. */
  lemma {:induction false} PassedOver(best: Path, max: nat, ms: seq<Path>, lo: nat, i: nat)
    requires lo <= i <= |ms|
    requires forall k :: lo <= k < i ==>
               ms[k] == best || (SameNexthop(best, ms[k]) && Chosen(best, max, ms[..lo]) == [])
    ensures Chosen(best, max, ms[..i]) == Chosen(best, max, ms[..lo])
  {
    if lo < i {
      PassedOver(best, max, ms, lo, i - 1);
      ChosenNext(best, max, ms, i - 1);
    }
  }

  lemma TwinTaken(ns: set<Order.Nexthop>, best: Path, max: nat, ms: seq<Path>, lo: nat, k: nat)
    requires Ordered(ns, best, ms) && LowerUpTo(best, ms, lo) && lo <= k < |ms|
    requires var c := Chosen(best, max, ms[..lo]); c != [] && 1 + |c| < max
    requires ms[k] != best && SameNexthop(best, ms[k])
    requires forall i :: lo <= i < k ==> ms[i] == best
    ensures ms[k] in Chosen(best, max, ms[..k + 1])
  {
    PassedOver(best, max, ms, lo, k);
    ChosenLower(best, max, ms[..lo]);
    ChosenNext(best, max, ms, k);
    var last := Last(best, Chosen(best, max, ms[..k]));
    Order.CompareAntisymmetric(best.nexthop, ms[k].nexthop);
    ChosenFrom(best, max, ms[..lo]);
    assert last in ms[..lo];
    StrictlyAfter(ns, last, best, ms[k]);
  }

  lemma {:induction false} ChosenPrefix(best: Path, max: nat, ms: seq<Path>, i: nat)
    requires i <= |ms|
    ensures Chosen(best, max, ms[..i]) <= Chosen(best, max, ms)
  {
    if i == |ms| {
      assert ms[..i] == ms;
    } else {
      assert ms[..|ms| - 1][..i] == ms[..i];
      ChosenPrefix(best, max, ms[..|ms| - 1], i);
    }
  }

  lemma {:induction false} FirstTwin(best: Path, ms: seq<Path>, lo: nat, k: nat) returns (j: nat)
    requires lo <= k < |ms| && ms[k] != best && SameNexthop(best, ms[k])
    requires forall i :: lo <= i < k ==> SameNexthop(best, ms[i])
    ensures lo <= j <= k && ms[j] != best && SameNexthop(best, ms[j])
    ensures forall i :: lo <= i < j ==> ms[i] == best
    decreases k
  {
    if i :| lo <= i < k && ms[i] != best {
      j := FirstTwin(best, ms, lo, i);
    } else {
      j := k;
    }
  }

  lemma SameUpTo(ns: set<Order.Nexthop>, best: Path, ms: seq<Path>, lo: nat, k: nat)
    requires Ordered(ns, best, ms) && LowerUpTo(best, ms, lo) && k < |ms| && SameNexthop(best, ms[k])
    ensures lo <= k
    ensures forall i :: lo <= i < k ==> SameNexthop(best, ms[i])
  {
    Order.CompareAntisymmetric(best.nexthop, ms[k].nexthop);
    forall i | lo <= i < k ensures SameNexthop(best, ms[i]) {
      NotBelow(ns, best, ms, lo, i);
      assert Compare(ms[i], ms[k]) <= 0;
      Order.CompareAntisymmetric(best.nexthop, ms[i].nexthop);
      assert Order.TransitiveAt(ms[i].nexthop, ms[k].nexthop, best.nexthop);
    }
  }

  lemma SomeTwin(ns: set<Order.Nexthop>, best: Path, ms: seq<Path>, lo: nat) returns (j: nat)
    requires Ordered(ns, best, ms) && LowerUpTo(best, ms, lo) && Twin(best, ms)
    ensures lo <= j < |ms| && ms[j] != best && SameNexthop(best, ms[j])
    ensures forall i :: lo <= i < j ==> ms[i] == best
  {
    var k :| 0 <= k < |ms| && ms[k] != best && SameNexthop(best, ms[k]);
    SameUpTo(ns, best, ms, lo, k);
    j := FirstTwin(best, ms, lo, k);
  }

  lemma RepeatsFrom(best: Path, start: seq<Path>, c: seq<Path>, p: Path)
    requires start <= c && p in start && SameNexthop(best, p)
    ensures Repeats(best, c)
  {
    var i :| 0 <= i < |start| && start[i] == p;
    assert c[i] == p;
  }

  lemma TwinsAreTaken(ns: set<Order.Nexthop>, best: Path, max: nat, ms: seq<Path>, lo: nat)
    requires Ordered(ns, best, ms) && LowerUpTo(best, ms, lo) && Twin(best, ms)
    requires var c := Chosen(best, max, ms[..lo]); c != [] && 1 + |c| < max
    ensures Repeats(best, Chosen(best, max, ms))
  {
    var k := SomeTwin(ns, best, ms, lo);
    TwinTaken(ns, best, max, ms, lo, k);
    ChosenPrefix(best, max, ms, k + 1);
    RepeatsFrom(best, Chosen(best, max, ms[..k + 1]), Chosen(best, max, ms), ms[k]);
  }

  lemma LowerNoRepeats(best: Path, max: nat, ms: seq<Path>, lo: nat)
    requires LowerUpTo(best, ms, lo)
    ensures !Repeats(best, Chosen(best, max, ms[..lo]))
  {
    var c := Chosen(best, max, ms[..lo]);
    ChosenLower(best, max, ms[..lo]);
    forall k | 0 <= k < |c| ensures !SameNexthop(best, c[k]) {
      Order.CompareAntisymmetric(best.nexthop, c[k].nexthop);
    }
  }

  /** A candidate with the best path's next hop is passed over. */
  lemma SameNotTaken(ns: set<Order.Nexthop>, best: Path, max: nat, ms: seq<Path>, lo: nat, i: nat)
    requires Ordered(ns, best, ms) && LowerUpTo(best, ms, lo) && lo <= i < |ms| && SameNexthop(best, ms[i])
    requires var c := Chosen(best, max, ms[..lo]); c == [] || 1 + |c| >= max
    ensures Chosen(best, max, ms[..i + 1]) == Chosen(best, max, ms[..i])
  {
    if Chosen(best, max, ms[..lo]) == [] {
      SameUpTo(ns, best, ms, lo, i);
      PassedOver(best, max, ms, lo, i);
      PassedOver(best, max, ms, lo, i + 1);
    } else {
      FullNotTaken(best, max, ms, lo, i);
    }
  }

  lemma FullNotTaken(best: Path, max: nat, ms: seq<Path>, lo: nat, i: nat)
    requires lo <= i < |ms| && 1 + |Chosen(best, max, ms[..lo])| >= max
    ensures Chosen(best, max, ms[..i + 1]) == Chosen(best, max, ms[..i])
  {
    assert ms[..i][..lo] == ms[..lo] && ms[..i + 1][..lo] == ms[..lo];
    ChosenFull(best, max, ms[..i], lo);
    ChosenFull(best, max, ms[..i + 1], lo);
  }

  lemma NoRepeatsNext(ns: set<Order.Nexthop>, best: Path, max: nat, ms: seq<Path>, lo: nat, i: nat)
    requires Ordered(ns, best, ms) && LowerUpTo(best, ms, lo) && lo <= i < |ms|
    requires var c := Chosen(best, max, ms[..lo]); c == [] || 1 + |c| >= max
    requires !Repeats(best, Chosen(best, max, ms[..i]))
    ensures !Repeats(best, Chosen(best, max, ms[..i + 1]))
  {
    if SameNexthop(best, ms[i]) {
      SameNotTaken(ns, best, max, ms, lo, i);
    } else {
      ChosenNext(best, max, ms, i);
      assert !Repeats(best, Chosen(best, max, ms[..i]) + [ms[i]]);
    }
  }

  lemma {:induction false} NoRepeatsUpTo(ns: set<Order.Nexthop>, best: Path, max: nat, ms: seq<Path>, lo: nat, i: nat)
    requires Ordered(ns, best, ms) && LowerUpTo(best, ms, lo) && lo <= i <= |ms|
    requires var c := Chosen(best, max, ms[..lo]); c == [] || 1 + |c| >= max
    ensures !Repeats(best, Chosen(best, max, ms[..i]))
  {
    if i == lo {
      LowerNoRepeats(best, max, ms, lo);
    } else {
      var j := i - 1;
      NoRepeatsUpTo(ns, best, max, ms, lo, j);
      NoRepeatsNext(ns, best, max, ms, lo, j);
      assert ms[..j + 1] == ms[..i];
    }
  }

  // ----- how much room the lower next hops take

  predicate SeenBefore(ms: seq<Path>, p: Path) {
    exists j :: 0 <= j < |ms| && SameNexthop(ms[j], p)
  }

  /** How many different next hops there are. */
  function Nexthops(ms: seq<Path>): nat {
    if ms == [] then 0
    else Nexthops(ms[..|ms| - 1]) + (if SeenBefore(ms[..|ms| - 1], ms[|ms| - 1]) then 0 else 1)
  }

  lemma SameTransitive(ns: set<Order.Nexthop>, a: Path, b: Path, c: Path)
    requires Order.TotalPreorder(ns) && a.nexthop in ns && b.nexthop in ns && c.nexthop in ns
    requires SameNexthop(a, b)
    ensures SameNexthop(a, c) <==> SameNexthop(b, c)
  {
    Order.CompareAntisymmetric(a.nexthop, b.nexthop);
    Order.CompareAntisymmetric(a.nexthop, c.nexthop);
    Order.CompareAntisymmetric(b.nexthop, c.nexthop);
    assert Order.TransitiveAt(a.nexthop, b.nexthop, c.nexthop) && Order.TransitiveAt(b.nexthop, a.nexthop, c.nexthop);
    assert Order.TransitiveAt(c.nexthop, a.nexthop, b.nexthop) && Order.TransitiveAt(c.nexthop, b.nexthop, a.nexthop);
  }

  /** In a sorted list a next hop seen before is that of the path just before. */
  lemma SeenJustBefore(ns: set<Order.Nexthop>, ms: seq<Path>, p: Path)
    requires Order.TotalPreorder(ns) && Sorted(ms + [p]) && ms != []
    requires p.nexthop in ns && forall i :: 0 <= i < |ms| ==> ms[i].nexthop in ns
    ensures SeenBefore(ms, p) <==> SameNexthop(ms[|ms| - 1], p)
  {
    var s, n := ms + [p], |ms| - 1;
    assert s[n] == ms[n] && s[|ms|] == p;
    if SeenBefore(ms, p) {
      var j :| 0 <= j < |ms| && SameNexthop(ms[j], p);
      if j < n {
        assert s[j] == ms[j];
        assert Compare(s[j], s[n]) <= 0 && Compare(s[n], s[|ms|]) <= 0;
        Order.CompareAntisymmetric(ms[j].nexthop, p.nexthop);
        Order.CompareAntisymmetric(ms[n].nexthop, p.nexthop);
        assert Order.TransitiveAt(p.nexthop, ms[j].nexthop, ms[n].nexthop);
      }
    }
  }

  /** With room left, the last path chosen has the next hop of the last candidate. */
  lemma LastChosen(best: Path, max: nat, ms: seq<Path>)
    requires ms != [] && ms[|ms| - 1] != best && 1 + |Chosen(best, max, ms)| < max
    ensures SameNexthop(Last(best, Chosen(best, max, ms)), ms[|ms| - 1])
  {
  }

  lemma OneMore(best: Path, max: nat, front: seq<Path>, p: Path)
    ensures var c := Chosen(best, max, front);
            Chosen(best, max, front + [p]) == if Takes(best, max, c, p) then c + [p] else c
    ensures Nexthops(front + [p]) == Nexthops(front) + (if SeenBefore(front, p) then 0 else 1)
  {
    assert (front + [p])[..|front|] == front;
  }

  /** Candidates below the best path: one path is chosen for each next hop, as long as there is room. */
  lemma {:induction false} ChosenCount(ns: set<Order.Nexthop>, best: Path, max: nat, ms: seq<Path>)
    requires Ordered(ns, best, ms)
    requires forall i :: 0 <= i < |ms| ==> Order.Compare(ms[i].nexthop, best.nexthop) < 0
    ensures |Chosen(best, max, ms)| == Min(Nexthops(ms), Max(max - 1, 0))
  {
    if ms != [] {
      var front, p := ms[..|ms| - 1], ms[|ms| - 1];
      ChosenCount(ns, best, max, front);
      assert ms == front + [p];
      CountStep(ns, best, max, front, p);
    }
  }

  lemma CountStep(ns: set<Order.Nexthop>, best: Path, max: nat, front: seq<Path>, p: Path)
    requires Ordered(ns, best, front + [p])
    requires forall i :: 0 <= i < |front| ==> Order.Compare(front[i].nexthop, best.nexthop) < 0
    requires Order.Compare(p.nexthop, best.nexthop) < 0
    requires |Chosen(best, max, front)| == Min(Nexthops(front), Max(max - 1, 0))
    ensures |Chosen(best, max, front + [p])| == Min(Nexthops(front + [p]), Max(max - 1, 0))
  {
    OneMore(best, max, front, p);
    if front == [] {
      Order.CompareAntisymmetric(best.nexthop, p.nexthop);
    } else if 1 + |Chosen(best, max, front)| < max {
      forall i | 0 <= i < |front| ensures front[i].nexthop in ns {
        assert (front + [p])[i] == front[i];
      }
      assert (front + [p])[|front|] == p;
      SeenJustBefore(ns, front, p);
      TakesExactlyNew(ns, best, max, front, p);
    }
  }

  lemma TakesExactlyNew(ns: set<Order.Nexthop>, best: Path, max: nat, front: seq<Path>, p: Path)
    requires Ordered(ns, best, front + [p]) && front != [] && 1 + |Chosen(best, max, front)| < max
    requires forall i :: 0 <= i < |front| ==> Order.Compare(front[i].nexthop, best.nexthop) < 0
    requires Order.Compare(p.nexthop, best.nexthop) < 0
    ensures Takes(best, max, Chosen(best, max, front), p) <==> !SameNexthop(front[|front| - 1], p)
  {
    var c, q := Chosen(best, max, front), front[|front| - 1];
    assert (front + [p])[|front| - 1] == q && (front + [p])[|front|] == p;
    LastChosen(best, max, front);
    ChosenLower(best, max, front);
    ChosenFrom(best, max, front);
    assert Last(best, c) in front;
    var k :| 0 <= k < |front| && front[k] == Last(best, c);
    assert (front + [p])[k] == Last(best, c);
    SameTransitive(ns, Last(best, c), q, p);
  }

  lemma LowerOrdered(ns: set<Order.Nexthop>, best: Path, ms: seq<Path>, lo: nat)
    requires Ordered(ns, best, ms) && lo <= |ms|
    ensures Ordered(ns, best, ms[..lo])
  {
  }

  /**
   * The best path's own next hop is chosen again exactly when there are lower ones, there is room
   * for more paths than they and the best path take, and another candidate shares it.
   */
  lemma RepeatsExactly(ns: set<Order.Nexthop>, best: Path, max: nat, ms: seq<Path>)
    requires Ordered(ns, best, ms)
    ensures var lo := Lower(best, ms);
            Repeats(best, Chosen(best, max, ms)) <==>
            lo > 0 && 1 + Nexthops(ms[..lo]) < max && Twin(best, ms)
  {
    var lo := Lower(best, ms);
    LowerOrdered(ns, best, ms, lo);
    ChosenCount(ns, best, max, ms[..lo]);
    RepeatsIfRoom(ns, best, max, ms, lo);
  }

  lemma RepeatsIfRoom(ns: set<Order.Nexthop>, best: Path, max: nat, ms: seq<Path>, lo: nat)
    requires Ordered(ns, best, ms) && LowerUpTo(best, ms, lo)
    ensures Repeats(best, Chosen(best, max, ms)) <==>
            lo > 0 && 1 + |Chosen(best, max, ms[..lo])| < max && Twin(best, ms)
  {
    var c := Chosen(best, max, ms);
    ChosenLower(best, max, ms[..lo]);
    assert ms[..|ms|] == ms;
    if lo == 0 || 1 + |Chosen(best, max, ms[..lo])| >= max {
      NoRepeatsUpTo(ns, best, max, ms, lo, |ms|);
    } else if Twin(best, ms) {
      TwinsAreTaken(ns, best, max, ms, lo);
    } else {
      ChosenFrom(best, max, ms);
      assert forall i :: 0 <= i < |c| ==> c[i] in ms && c[i] != best;
    }
  }

  /** With next hops 1 and 2 and room for three paths, best path 2 is joined by the other path through 2. */
  method BestRepeated() returns (best: Path, ms: seq<Path>)
    ensures Sorted(ms) && best in ms && Repeats(best, Chosen(best, 3, ms))
  {
    var low := new Path(Order.Nexthop(1, 0, 0, 0), 0, false);
    best := new Path(Order.Nexthop(2, 0, 0, 0), 1, false);
    var twin := new Path(Order.Nexthop(2, 0, 0, 0), 2, false);
    ms := [low, best, twin];
    assert Chosen(best, 3, ms) == [low, twin] by {
      assert ms[..2] == [low, best] && ms[..2][..1] == [low] && ms[..2][..1][..0] == [];
      assert Chosen(best, 3, [low]) == [low];
      assert Chosen(best, 3, [low, best]) == [low];
    }
    assert SameNexthop(best, [low, twin][1]);
  }
}
