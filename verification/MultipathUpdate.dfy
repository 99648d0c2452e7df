/**
 * `bgp_info_mpath_update` (bgpd/bgp_mpath.c): a parallel walk over the old multipath chain and
 * the new sorted candidates that unlinks and relinks paths in place.
 */
module MultipathUpdate {
  import opened Basics
  import opened Multipath
  import Order = MultipathOrder

  /** Neighbours in `s` are linked to each other, and its ends to nothing. */
  ghost predicate Linked(s: seq<Path>)
    reads s
  {
    forall i :: 0 <= i < |s| ==> NodeOk(s, i)
  }

  ghost predicate NodeOk(s: seq<Path>, i: nat)
    requires i < |s|
    reads s[i]
  {
    && s[i].prev == (if i == 0 then null else s[i - 1])
    && s[i].next == (if i == |s| - 1 then null else s[i + 1])
  }

  function Without(s: seq<Path>, k: nat): (r: seq<Path>)
    requires k < |s|
    ensures |r| == |s| - 1
  {
    s[..k] + s[k + 1..]
  }

  /** The neighbours of an element once the one at `k` is gone. */
  lemma WithoutAt(s: seq<Path>, k: nat, i: nat)
    requires k < |s| && i < |s| - 1
    ensures var r := Without(s, k);
            && r[i] == s[if i < k then i else i + 1]
            && (i > 0 ==> r[i - 1] == s[if i <= k then i - 1 else i])
            && (i + 1 < |r| ==> r[i + 1] == s[if i + 1 < k then i + 1 else i + 2])
  {
  }

  lemma WithoutDistinct(s: seq<Path>, k: nat)
    requires k < |s| && Distinct(s)
    ensures Distinct(Without(s, k)) && s[k] !in Without(s, k)
    ensures forall p :: p in s && p != s[k] ==> p in Without(s, k)
    ensures forall p :: p in Without(s, k) ==> p in s
  {
  }

  /** Take the path at `k` out of the list it is in. */
  method Unlink(p: Path, ghost s: seq<Path>, ghost k: nat)
    requires Distinct(s) && Linked(s) && k < |s| && s[k] == p
    modifies p, p.prev, p.next
    ensures Linked(Without(s, k)) && p.prev == p.next == null && !p.multipath
    ensures forall q :: q in s ==> q.count == old(q.count) && q.changed == old(q.changed)
    ensures forall q :: q in s && q != p ==> q.multipath == old(q.multipath)
  {
    assert NodeOk(s, k);
    ghost var r := Without(s, k);
    assert k > 0 ==> NodeOk(s, k - 1);
    assert k + 1 < |s| ==> NodeOk(s, k + 1);
    if p.prev != null {
      p.prev.next := p.next;
    }
    if p.next != null {
      p.next.prev := p.prev;
    }
    p.next, p.prev, p.multipath := null, null, false;
    forall i | 0 <= i < |r| ensures NodeOk(r, i) {
      WithoutAt(s, k, i);
      assert old(NodeOk(s, if i < k then i else i + 1));
    }
  }

  /** `bgp_info_mpath_enqueue`: put a path behind the one at `k`. */
  method Enqueue(prev: Path, p: Path, ghost s: seq<Path>, ghost k: nat)
    requires Distinct(s) && Linked(s) && k < |s| && s[k] == prev && p !in s
    modifies p, prev, prev.next
    ensures Linked(s[..k + 1] + [p] + s[k + 1..]) && p.multipath
    ensures p.count == old(p.count) && p.changed == old(p.changed)
    ensures forall q :: q in s ==>
              q.count == old(q.count) && q.changed == old(q.changed) && q.multipath == old(q.multipath)
  {
    assert NodeOk(s, k);
    assert k + 1 < |s| ==> NodeOk(s, k + 1);
    ghost var r := s[..k + 1] + [p] + s[k + 1..];
    p.next, p.prev := prev.next, prev;
    if prev.next != null {
      prev.next.prev := p;
    }
    prev.next := p;
    p.multipath := true;
    forall i | 0 <= i < |r| ensures NodeOk(r, i) {
      assert i < k ==> old(NodeOk(s, i));
      assert i > k + 1 ==> old(NodeOk(s, i - 1));
    }
  }

  // ----- the chain being built and the chain being taken apart

  /**
   * Among the paths `all`: `chain` is the best path with its multipaths, `rest` what is left of
   * the old chain, and every other path is on its own. Paths in either list, except the best,
   * are marked as multipaths.
   */
  ghost predicate Split(all: set<Path>, chain: seq<Path>, rest: seq<Path>)
    reads all
  {
    && (forall i :: 0 <= i < |chain| ==> chain[i] in all && chain[i] !in rest)
    && (forall i :: 0 <= i < |rest| ==> rest[i] in all && rest[i] !in chain)
    && Distinct(chain) && Distinct(rest)
    && Linked(chain) && Linked(rest)
    && (forall p :: p in all ==> PathOk(p, chain, rest))
  }

  ghost predicate PathOk(p: Path, chain: seq<Path>, rest: seq<Path>)
    reads p
  {
    && (p !in chain && p !in rest ==> p.prev == p.next == null)
    && p.multipath == (p in rest || (p in chain && p != chain[0]))
  }

  /** `s` without `p`, if it is there. */
  function Minus(s: seq<Path>, p: Path?): (r: seq<Path>)
    ensures |r| <= |s|
    ensures forall i :: 0 <= i < |r| ==> r[i] in s
  {
    if s == [] then [] else if s[0] == p then s[1..] else [s[0]] + Minus(s[1..], p)
  }

  lemma {:induction false} MinusAt(s: seq<Path>, k: nat)
    requires k < |s| && Distinct(s)
    ensures Minus(s, s[k]) == Without(s, k)
  {
    if k > 0 {
      MinusAt(s[1..], k - 1);
      assert [s[0]] + Without(s[1..], k - 1) == Without(s, k);
    }
  }

  lemma {:induction false} MinusNone(s: seq<Path>, p: Path?)
    requires p == null || p !in s
    ensures Minus(s, p) == s
  {
    if s != [] {
      MinusNone(s[1..], p);
    }
  }

  lemma MinusSplit(s: seq<Path>, p: Path)
    requires Distinct(s)
    ensures Distinct(Minus(s, p)) && p !in Minus(s, p)
    ensures forall q :: q in s && q != p ==> q in Minus(s, p)
  {
    if p in s {
      var k :| 0 <= k < |s| && s[k] == p;
      MinusAt(s, k);
      WithoutDistinct(s, k);
    } else {
      MinusNone(s, p);
    }
  }

  /** The list a path is in: `list`, or the path alone. */
  lemma Locate(list: seq<Path>, p: Path) returns (s: seq<Path>, k: nat)
    requires Distinct(list) && Linked(list) && (p !in list ==> p.prev == p.next == null)
    ensures Distinct(s) && Linked(s) && k < |s| && s[k] == p
    ensures if p in list then s == list && Minus(list, p) == Without(list, k) else s == [p] && Minus(list, p) == list
  {
    if p in list {
      k :| 0 <= k < |list| && list[k] == p;
      s := list;
      MinusAt(list, k);
    } else {
      s, k := [p], 0;
      MinusNone(list, p);
    }
  }

  /** `bgp_info_mpath_dequeue`: a path leaves the list it is in, if any. */
  method Dequeue(p: Path, ghost list: seq<Path>)
    requires Distinct(list) && Linked(list) && (p !in list ==> p.prev == p.next == null)
    modifies p, p.prev, p.next
    ensures Linked(Minus(list, p)) && p.prev == p.next == null && !p.multipath
    ensures p.count == old(p.count) && p.changed == old(p.changed)
    ensures forall q :: q in list && q != p ==>
              q.count == old(q.count) && q.changed == old(q.changed) && q.multipath == old(q.multipath)
  {
    ghost var s, k := Locate(list, p);
    assert NodeOk(s, k);
    Unlink(p, s, k);
  }

  lemma Neighbours(list: seq<Path>, p: Path)
    requires Linked(list) && (p !in list ==> p.prev == p.next == null)
    ensures p.prev == null || p.prev in list
    ensures p.next == null || p.next in list
  {
    if p in list {
      var k :| 0 <= k < |list| && list[k] == p;
      assert NodeOk(list, k);
    }
  }

  /** Take a path out of what is left of the old chain, if it is there. */
  method DropOld(ghost all: set<Path>, ghost chain: seq<Path>, ghost rest: seq<Path>, p: Path)
    requires Split(all, chain, rest) && p in all && p !in chain
    modifies all
    ensures Split(all, chain, Minus(rest, p)) && p !in Minus(rest, p)
    ensures forall q :: q in all ==> q.count == old(q.count) && q.changed == old(q.changed)
  {
    assert PathOk(p, chain, rest);
    Neighbours(rest, p);
    MinusSplit(rest, p);
    Dequeue(p, rest);
    assert Linked(chain);
  }

  /** Put a path that is on its own at the end of the new chain. */
  method PushNew(ghost all: set<Path>, ghost chain: seq<Path>, ghost rest: seq<Path>, last: Path, p: Path)
    requires Split(all, chain, rest) && chain != [] && last == chain[|chain| - 1]
    requires p in all && p !in chain && p !in rest
    modifies all
    ensures Split(all, chain + [p], rest)
    ensures forall q :: q in all ==> q.count == old(q.count) && q.changed == old(q.changed)
  {
    assert NodeOk(chain, |chain| - 1);
    Enqueue(last, p, chain, |chain| - 1);
    assert chain[..|chain|] + [p] + chain[|chain|..] == chain + [p];
    assert Linked(rest);
  }

  /** Take a path out of the old chain, and put it behind the new one if it is to stay. */
  method Move(ghost all: set<Path>, ghost chain: seq<Path>, ghost rest: seq<Path>, last: Path, p: Path, stay: bool)
    requires Split(all, chain, rest) && chain != [] && last == chain[|chain| - 1]
    requires p in all && p !in chain
    modifies all
    ensures Split(all, if stay then chain + [p] else chain, Minus(rest, p))
    ensures forall q :: q in all ==> q.count == old(q.count) && q.changed == old(q.changed)
  {
    DropOld(all, chain, rest, p);
    if stay {
      PushNew(all, chain, Minus(rest, p), last, p);
    }
  }

  // ----- the walk

  function Headed(best: Path?, c: seq<Path>): seq<Path> {
    if best == null then [] else [best] + c
  }

  function First(s: seq<Path>): Path? {
    if s == [] then null else s[0]
  }

  /** The chain cannot become `was` any more, with only `ms` left to choose from. */
  ghost predicate Diverged(c: seq<Path>, was: seq<Path>, ms: seq<Path>) {
    !(c <= was) || exists i :: 0 <= i < |was| && was[i] !in c && was[i] !in ms
  }

  ghost predicate FlagOk(changed: bool, c: seq<Path>, rest: seq<Path>, was: seq<Path>, ms: seq<Path>, i: nat)
    requires i <= |ms|
  {
    && (!changed ==> was == c + rest)
    && (changed && Sorted(ms) ==> Diverged(c, was, ms[i..]))
  }

  /** The path was a multipath and still is a candidate. */
  lemma FlagKeep(changed: bool, c: seq<Path>, rest: seq<Path>, was: seq<Path>, ms: seq<Path>, i: nat)
    requires i < |ms| && Distinct(ms) && rest != [] && rest[0] == ms[i] && rest[0] !in c
    requires FlagOk(changed, c, rest, was, ms, i)
    ensures FlagOk(changed, c + [ms[i]], rest[1..], was, ms, i + 1)
    ensures FlagOk(true, c, rest[1..], was, ms, i + 1)
  {
    assert c + rest == (c + [ms[i]]) + rest[1..];
    assert ms[i..] == [ms[i]] + ms[i + 1..];
    assert ms[i] !in ms[i + 1..];
    if !changed {
      assert was[|c|] == ms[i];
    }
  }

  lemma NotLater(ms: seq<Path>, i: nat, p: Path)
    requires i < |ms| && Sorted(ms) && p != ms[i] && Compare(p, ms[i]) < 0
    ensures p !in ms[i..]
  {
    forall j | i < j < |ms| ensures ms[j] != p {
      Order.CompareAntisymmetric(ms[i].nexthop, ms[j].nexthop);
    }
  }

  /** A path of the old chain is no candidate any more. */
  lemma FlagPurge(changed: bool, c: seq<Path>, rest: seq<Path>, was: seq<Path>, ms: seq<Path>, i: nat)
    requires i <= |ms| && rest != [] && rest[0] !in c
    requires i < |ms| ==> rest[0] != ms[i] && Compare(rest[0], ms[i]) < 0
    requires FlagOk(changed, c, rest, was, ms, i)
    ensures FlagOk(true, c, rest[1..], was, ms, i)
  {
    if !changed && Sorted(ms) {
      assert was[|c|] == rest[0];
      if i < |ms| {
        NotLater(ms, i, rest[0]);
      }
    }
  }

  /** A candidate out of step with the old chain is taken, or passed over. */
  lemma FlagTake(changed: bool, c: seq<Path>, rest: seq<Path>, was: seq<Path>, ms: seq<Path>, i: nat)
    requires i < |ms| && First(rest) != ms[i] && ms[i] !in c
    requires FlagOk(changed, c, rest, was, ms, i)
    ensures FlagOk(true, c + [ms[i]], Minus(rest, ms[i]), was, ms, i + 1)
    ensures FlagOk(changed, c, rest, was, ms, i + 1)
  {
    assert ms[i..] == [ms[i]] + ms[i + 1..];
    if !changed {
      assert |was| > |c| ==> was[|c|] == rest[0];
      assert (c + [ms[i]])[|c|] == ms[i];
    }
  }

  /** What the walk keeps: the chosen paths are chained, the rest of the old chain still is. */
  ghost predicate Walking(all: set<Path>, best: Path?, max: nat, ms: seq<Path>, i: nat,
                          c: seq<Path>, rest: seq<Path>)
    reads all
  {
    && i <= |ms| && Distinct(ms) && (forall k :: 0 <= k < |ms| ==> ms[k] in all)
    && Split(all, Headed(best, c), rest)
    && (if best == null then c == [] && ms == [] else c == Chosen(best, max, ms[..i]))
  }

  lemma NotChosenYet(best: Path, max: nat, ms: seq<Path>, i: nat)
    requires i < |ms| && Distinct(ms)
    ensures ms[i] !in Chosen(best, max, ms[..i])
  {
    ChosenFrom(best, max, ms[..i]);
  }

  /** A candidate joins the chain if the selection takes it, leaving the old chain if it was there. */
  method Take(ghost all: set<Path>, best: Path, max: nat, ms: seq<Path>, i: nat, ghost j: nat, prev: Path, count: nat,
              ghost c: seq<Path>, ghost rest: seq<Path>)
    returns (taken: bool, ghost c': seq<Path>, ghost rest': seq<Path>)
    requires Walking(all, best, max, ms, i, c, rest) && i < |ms| && j == i + 1
    requires prev == Last(best, c) && count == 1 + |c|
    modifies all
    ensures taken == Takes(best, max, c, ms[i]) && c' == if taken then c + [ms[i]] else c
    ensures rest' == (if taken then Minus(rest, ms[i]) else rest) && Walking(all, best, max, ms, j, c', rest')
    ensures forall q :: q in all ==> q.count == old(q.count) && q.changed == old(q.changed)
  {
    taken := count < max && ms[i] != best && !SameNexthop(prev, ms[i]);
    if taken {
      c', rest' := TakeIt(all, best, max, ms, i, j, prev, c, rest);
    } else {
      c', rest' := c, rest;
      WalkedOn(all, best, max, ms, i, j, c, c, rest, false);
    }
  }

  method TakeIt(ghost all: set<Path>, best: Path, ghost max: nat, ms: seq<Path>, i: nat, ghost j: nat, prev: Path,
                ghost c: seq<Path>, ghost rest: seq<Path>) returns (ghost c': seq<Path>, ghost rest': seq<Path>)
    requires Walking(all, best, max, ms, i, c, rest) && i < |ms| && j == i + 1
    requires prev == Last(best, c) && Takes(best, max, c, ms[i])
    modifies all
    ensures c' == c + [ms[i]] && rest' == Minus(rest, ms[i]) && Walking(all, best, max, ms, j, c', rest')
    ensures forall q :: q in all ==> q.count == old(q.count) && q.changed == old(q.changed)
  {
    NotChosenYet(best, max, ms, i);
    Move(all, Headed(best, c), rest, prev, ms[i], true);
    c', rest' := c + [ms[i]], Minus(rest, ms[i]);
    WalkedOn(all, best, max, ms, i, j, c, c', rest', true);
  }

  lemma RestHead(all: set<Path>, best: Path?, max: nat, ms: seq<Path>, i: nat, c: seq<Path>, rest: seq<Path>)
    requires Walking(all, best, max, ms, i, c, rest) && rest != []
    ensures rest[0] in all && rest[0] != best && rest[0] !in c && rest[0] !in Headed(best, c)
    ensures rest[0].next == First(rest[1..]) && Minus(rest, rest[0]) == rest[1..]
  {
    assert NodeOk(rest, 0);
    forall k | 0 <= k < |c| ensures c[k] != rest[0] {
      assert Headed(best, c)[k + 1] == c[k];
    }
  }

  lemma RestApart(all: set<Path>, best: Path?, max: nat, ms: seq<Path>, i: nat, c: seq<Path>, rest: seq<Path>, k: nat)
    requires Walking(all, best, max, ms, i, c, rest) && k < |rest|
    ensures rest[k] in all && rest[k] != best && rest[k] !in Headed(best, c)
  {
  }

  /** A path of the old chain that is still a candidate stays if the selection takes it. */
  method Keep(ghost all: set<Path>, best: Path, max: nat, ms: seq<Path>, i: nat, ghost j: nat, prev: Path, count: nat,
              ghost c: seq<Path>, ghost rest: seq<Path>) returns (taken: bool, ghost c': seq<Path>)
    requires Walking(all, best, max, ms, i, c, rest) && i < |ms| && j == i + 1 && rest != [] && rest[0] == ms[i]
    requires prev == Last(best, c) && count == 1 + |c|
    modifies all
    ensures taken == Takes(best, max, c, ms[i]) && c' == if taken then c + [ms[i]] else c
    ensures Walking(all, best, max, ms, j, c', rest[1..])
    ensures forall q :: q in all ==> q.count == old(q.count) && q.changed == old(q.changed)
  {
    RestApart(all, best, max, ms, i, c, rest, 0);
    taken := count < max && !SameNexthop(prev, ms[i]);
    Move(all, Headed(best, c), rest, prev, ms[i], taken);
    assert Minus(rest, ms[i]) == rest[1..];
    c' := if taken then c + [ms[i]] else c;
    WalkedOn(all, best, max, ms, i, j, c, c', rest[1..], taken);
  }

  /** The walk after the candidate at `i` was taken or not. */
  lemma WalkedOn(all: set<Path>, best: Path, max: nat, ms: seq<Path>, i: nat, j: nat, c: seq<Path>, c': seq<Path>,
                 rest: seq<Path>, taken: bool)
    requires i < |ms| && j == i + 1 && Distinct(ms) && (forall k :: 0 <= k < |ms| ==> ms[k] in all)
    requires c == Chosen(best, max, ms[..i]) && taken == Takes(best, max, c, ms[i])
    requires c' == if taken then c + [ms[i]] else c
    requires Split(all, if taken then Headed(best, c) + [ms[i]] else Headed(best, c), rest)
    ensures Walking(all, best, max, ms, j, c', rest)
  {
    ChosenNext(best, max, ms, i);
    HeadedAppend(best, c, ms[i]);
  }

  lemma HeadedAppend(best: Path, c: seq<Path>, p: Path)
    ensures Headed(best, c) + [p] == Headed(best, c + [p])
  {
  }

  /** A path of the old chain leaves it. */
  method Purge(ghost all: set<Path>, best: Path?, max: nat, ms: seq<Path>, i: nat, cur: Path,
               ghost c: seq<Path>, ghost rest: seq<Path>)
    requires Walking(all, best, max, ms, i, c, rest) && rest != [] && rest[0] == cur
    modifies all
    ensures Walking(all, best, max, ms, i, c, Minus(rest, cur))
    ensures forall q :: q in all ==> q.count == old(q.count) && q.changed == old(q.changed)
  {
    RestApart(all, best, max, ms, i, c, rest, 0);
    DropOld(all, Headed(best, c), rest, cur);
  }

  /** Nothing of the old chain is left, and no candidate can be taken any more. */
  lemma WalkEnds(all: set<Path>, best: Path?, max: nat, ms: seq<Path>, i: nat, c: seq<Path>)
    requires Walking(all, best, max, ms, i, c, [])
    requires i < |ms| ==> 1 + |c| >= max
    ensures Walking(all, best, max, ms, |ms|, c, [])
  {
    assert ms[..|ms|] == ms;
    if best != null && i < |ms| {
      ChosenFull(best, max, ms, i);
    }
  }

  lemma FlagEnds(changed: bool, c: seq<Path>, was: seq<Path>, ms: seq<Path>, i: nat)
    requires i <= |ms| && FlagOk(changed, c, [], was, ms, i)
    ensures !changed ==> c == was
    ensures changed && Sorted(ms) ==> c != was
  {
    assert c + [] == c;
  }

  /** Where the walk is: the next candidate, the next old path, the last path chosen. */
  datatype Position = Position(i: nat, cur: Path?, prev: Path?, count: nat, changed: bool)

  /** The position fits the chain chosen so far, what is left of the old chain and the flag. */
  ghost predicate Marks(best: Path?, ms: seq<Path>, was: seq<Path>, w: Position, c: seq<Path>, rest: seq<Path>) {
    && w.i <= |ms| && w.cur == First(rest)
    && (if best == null then w.count == 0 else w.count == 1 + |c| && w.prev == Last(best, c))
    && FlagOk(w.changed, c, rest, was, ms, w.i)
  }

  ghost predicate At(all: set<Path>, best: Path?, max: nat, ms: seq<Path>, was: seq<Path>, w: Position,
                     c: seq<Path>, rest: seq<Path>)
    reads all
  {
    Walking(all, best, max, ms, w.i, c, rest) && Marks(best, ms, was, w, c, rest)
  }

  /** The position past an old path that is a candidate; `next` is the old path behind it. */
  lemma KeepMarks(best: Path, ms: seq<Path>, was: seq<Path>, w: Position, c: seq<Path>, rest: seq<Path>, taken: bool,
                  w': Position, c': seq<Path>)
    requires Marks(best, ms, was, w, c, rest) && w.i < |ms| && Distinct(ms)
    requires rest != [] && rest[0] == ms[w.i] && rest[0] !in c && c' == if taken then c + [ms[w.i]] else c
    requires w'.i == w.i + 1 && w'.cur == First(rest[1..]) && w'.changed == (w.changed || !taken)
    requires if taken then w'.prev == w.cur && w'.count == w.count + 1 else w'.prev == w.prev && w'.count == w.count
    ensures Marks(best, ms, was, w', c', rest[1..])
  {
    FlagKeep(w.changed, c, rest, was, ms, w.i);
  }

  method KeepStep(ghost all: set<Path>, best: Path, max: nat, ms: seq<Path>, ghost was: seq<Path>, w: Position,
                  ghost c: seq<Path>, ghost rest: seq<Path>) returns (w': Position, ghost c': seq<Path>)
    requires At(all, best, max, ms, was, w, c, rest) && w.i < |ms| && w.cur == ms[w.i]
    modifies all
    ensures At(all, best, max, ms, was, w', c', rest[1..]) && w'.i == w.i + 1
    ensures forall q :: q in all ==> q.count == old(q.count) && q.changed == old(q.changed)
  {
    RestHead(all, best, max, ms, w.i, c, rest);
    var next, j, taken := w.cur.next, w.i + 1, false;
    taken, c' := Keep(all, best, max, ms, w.i, j, w.prev, w.count, c, rest);
    if taken {
      w' := Position(j, next, w.cur, w.count + 1, w.changed);
    } else {
      w' := Position(j, next, w.prev, w.count, true);
    }
    KeepMarks(best, ms, was, w, c, rest, taken, w', c');
  }

  lemma PurgeMarks(best: Path?, ms: seq<Path>, was: seq<Path>, w: Position, c: seq<Path>, rest: seq<Path>)
    requires Marks(best, ms, was, w, c, rest) && rest != [] && rest[0] !in c
    requires w.i < |ms| ==> rest[0] != ms[w.i] && Compare(rest[0], ms[w.i]) < 0
    ensures Marks(best, ms, was, w.(cur := First(rest[1..]), changed := true), c, rest[1..])
  {
    FlagPurge(w.changed, c, rest, was, ms, w.i);
  }

  method PurgeStep(ghost all: set<Path>, best: Path?, max: nat, ms: seq<Path>, ghost was: seq<Path>, w: Position,
                   ghost c: seq<Path>, ghost rest: seq<Path>) returns (w': Position)
    requires At(all, best, max, ms, was, w, c, rest) && w.cur != null
    requires w.i < |ms| ==> w.cur != ms[w.i] && Compare(w.cur, ms[w.i]) < 0
    modifies all
    ensures At(all, best, max, ms, was, w', c, rest[1..]) && w'.i == w.i
    ensures forall q :: q in all ==> q.count == old(q.count) && q.changed == old(q.changed)
  {
    RestHead(all, best, max, ms, w.i, c, rest);
    PurgeMarks(best, ms, was, w, c, rest);
    var next := w.cur.next;
    Purge(all, best, max, ms, w.i, w.cur, c, rest);
    w' := w.(cur := next, changed := true);
  }

  lemma MinusHead(rest: seq<Path>, p: Path)
    requires First(rest) != p
    ensures First(Minus(rest, p)) == First(rest)
  {
  }

  lemma TakeMarks(best: Path, ms: seq<Path>, was: seq<Path>, w: Position, c: seq<Path>, rest: seq<Path>, taken: bool,
                  w': Position, c': seq<Path>, rest': seq<Path>)
    requires Marks(best, ms, was, w, c, rest) && w.i < |ms| && w.cur != ms[w.i] && ms[w.i] !in c
    requires c' == (if taken then c + [ms[w.i]] else c) && rest' == if taken then Minus(rest, ms[w.i]) else rest
    requires w'.i == w.i + 1 && w'.cur == w.cur && w'.changed == (w.changed || taken)
    requires if taken then w'.prev == ms[w.i] && w'.count == w.count + 1 else w'.prev == w.prev && w'.count == w.count
    ensures Marks(best, ms, was, w', c', rest')
  {
    FlagTake(w.changed, c, rest, was, ms, w.i);
    MinusHead(rest, ms[w.i]);
  }

  method TakeStep(ghost all: set<Path>, best: Path, max: nat, ms: seq<Path>, ghost was: seq<Path>, w: Position,
                  ghost c: seq<Path>, ghost rest: seq<Path>)
    returns (w': Position, ghost c': seq<Path>, ghost rest': seq<Path>)
    requires At(all, best, max, ms, was, w, c, rest) && w.i < |ms| && w.cur != ms[w.i]
    modifies all
    ensures At(all, best, max, ms, was, w', c', rest') && w'.i == w.i + 1 && |rest'| <= |rest|
    ensures forall q :: q in all ==> q.count == old(q.count) && q.changed == old(q.changed)
  {
    NotChosenYet(best, max, ms, w.i);
    var j, taken := w.i + 1, false;
    taken, c', rest' := Take(all, best, max, ms, w.i, j, w.prev, w.count, c, rest);
    if taken {
      w' := Position(j, w.cur, ms[w.i], w.count + 1, true);
    } else {
      w' := Position(j, w.cur, w.prev, w.count, w.changed);
    }
    TakeMarks(best, ms, was, w, c, rest, taken, w', c', rest');
  }

  /** The walk over both lists. */
  method Walk(ghost all: set<Path>, best: Path?, max: nat, ms: seq<Path>, first: Path?, ghost was: seq<Path>)
    returns (changed: bool, count: nat, ghost c: seq<Path>)
    requires Walking(all, best, max, ms, 0, [], was) && first == First(was)
    modifies all
    ensures Walking(all, best, max, ms, |ms|, c, [])
    ensures best != null ==> count == 1 + |c|
    ensures !changed ==> c == was
    ensures changed && Sorted(ms) ==> c != was
    ensures forall q :: q in all ==> q.count == old(q.count) && q.changed == old(q.changed)
  {
    var w := Position(0, first, best, if best == null then 0 else 1, false);
    ghost var rest := was;
    c := [];
    assert was == [] + was;
    while w.i < |ms| || w.cur != null
      invariant At(all, best, max, ms, was, w, c, rest)
      invariant forall q :: q in all ==> q.count == old(q.count) && q.changed == old(q.changed)
      decreases |ms| - w.i + |rest|
    {
      if w.cur == null && w.count >= max {
        break;
      }
      if w.i < |ms| && w.cur == ms[w.i] {
        w, c := KeepStep(all, best, max, ms, was, w, c, rest);
        rest := rest[1..];
      } else if w.cur != null && (w.i == |ms| || Compare(w.cur, ms[w.i]) < 0) {
        w := PurgeStep(all, best, max, ms, was, w, c, rest);
        rest := rest[1..];
      } else {
        w, c, rest := TakeStep(all, best, max, ms, was, w, c, rest);
      }
    }
    WalkEnds(all, best, max, ms, w.i, c);
    FlagEnds(w.changed, c, was, ms, w.i);
    changed, count := w.changed, w.count;
  }

  // ----- the update

  /** The new best path leaves the old chain, if it is in it. */
  method DetachNew(ghost all: set<Path>, ghost chain: seq<Path>, best: Path)
    requires Split(all, chain, []) && best in all && (chain == [] || best != chain[0])
    modifies all
    ensures Split(all, Minus(chain, best), []) && best !in Minus(chain, best)
    ensures forall q :: q in all ==> q.count == old(q.count) && q.changed == old(q.changed)
  {
    assert PathOk(best, chain, []);
    Neighbours(chain, best);
    MinusSplit(chain, best);
    assert chain != [] ==> First(Minus(chain, best)) == chain[0];
    Dequeue(best, chain);
  }

  /** The old best path leaves its chain, which is then all that is left of it. */
  method DetachOld(ghost all: set<Path>, oldBest: Path, ghost was: seq<Path>) returns (first: Path?)
    requires Split(all, [oldBest] + was, [])
    modifies all
    ensures Split(all, [], was) && first == First(was)
    ensures forall q :: q in all ==> q.count == old(q.count) && q.changed == old(q.changed)
  {
    ghost var chain := [oldBest] + was;
    assert NodeOk(chain, 0);
    assert Minus(chain, oldBest) == was;
    MinusSplit(chain, oldBest);
    Neighbours(chain, oldBest);
    first := oldBest.next;
    Dequeue(oldBest, chain);
  }

  lemma StartChain(all: set<Path>, best: Path, was: seq<Path>)
    requires Split(all, [], was) && best in all && best !in was
    ensures Split(all, [best], was)
  {
    assert PathOk(best, [], was);
    assert forall p :: p in all ==> PathOk(p, [], was);
  }

  /** Both best paths leave the old chain; what is left of it is walked next. */
  method Detach(ghost all: set<Path>, best: Path?, oldBest: Path?, ghost was: seq<Path>)
    returns (first: Path?, oldCount: nat)
    requires Split(all, Headed(oldBest, was), []) && (oldBest == null ==> was == [])
    requires best != null ==> best in all
    modifies all
    ensures Split(all, [], Minus(was, best)) && first == First(Minus(was, best))
    ensures best != null ==> best !in Minus(was, best)
    ensures oldCount == if oldBest == null then 0 else old(oldBest.count)
    ensures forall q :: q in all ==>
              q.changed == old(q.changed) && q.count == if q == oldBest then 0 else old(q.count)
  {
    first, oldCount := null, 0;
    if best != null && best != oldBest {
      DetachNew(all, Headed(oldBest, was), best);
      assert Minus(Headed(oldBest, was), best) == Headed(oldBest, Minus(was, best));
    } else {
      BestNotChained(all, best, oldBest, was);
    }
    if oldBest != null {
      first, oldCount := DetachHead(all, oldBest, Minus(was, best));
    }
  }

  method DetachHead(ghost all: set<Path>, oldBest: Path, ghost left: seq<Path>) returns (first: Path?, oldCount: nat)
    requires Split(all, [oldBest] + left, [])
    modifies all
    ensures Split(all, [], left) && first == First(left) && oldCount == old(oldBest.count)
    ensures forall q :: q in all ==>
              q.changed == old(q.changed) && q.count == if q == oldBest then 0 else old(q.count)
  {
    ghost var chain := [oldBest] + left;
    assert chain[0] in all;
    oldCount := oldBest.count;
    first := DetachOld(all, oldBest, left);
    Record(all, [], left, oldBest, 0, oldBest.changed);
  }

  /** The count and the flag of a path do not touch the chains. */
  method Record(ghost all: set<Path>, ghost chain: seq<Path>, ghost rest: seq<Path>, p: Path, count: nat, changed: bool)
    requires Split(all, chain, rest) && p in all
    modifies p`count, p`changed
    ensures Split(all, chain, rest) && p.count == count && p.changed == changed
  {
    p.count, p.changed := count, changed;
    forall i | 0 <= i < |chain| ensures NodeOk(chain, i) {
      assert old(NodeOk(chain, i));
    }
    forall i | 0 <= i < |rest| ensures NodeOk(rest, i) {
      assert old(NodeOk(rest, i));
    }
    forall q | q in all ensures PathOk(q, chain, rest) {
      assert old(PathOk(q, chain, rest));
    }
  }

  lemma BestNotChained(all: set<Path>, best: Path?, oldBest: Path?, was: seq<Path>)
    requires Split(all, Headed(oldBest, was), []) && (oldBest == null ==> was == [])
    requires best == null || best == oldBest
    ensures Minus(was, best) == was && (best != null ==> best !in was)
  {
    if best != null {
      HeadApart(best, was);
    }
    MinusNone(was, best);
  }

  lemma HeadApart(best: Path, was: seq<Path>)
    requires Distinct(Headed(best, was))
    ensures best !in was
  {
    var s := Headed(best, was);
    forall k | 0 <= k < |was| ensures was[k] != best {
      assert s[k + 1] == was[k] && s[0] != s[k + 1];
    }
  }

  /** The configured limits on the number of paths, the best one included. */
  datatype Limits = Limits(ibgp: nat, ebgp: nat)

  const DEFAULT_MAXPATHS := 1

  function MaxPaths(limits: Limits, best: Path?): nat {
    if best == null then DEFAULT_MAXPATHS else if best.ibgp then limits.ibgp else limits.ebgp
  }

  /**
   * `bgp_info_mpath_update`. `all` are the paths of the prefix and `was` the old chain. Whatever it
   * was, the chain behind the new best path is the selection, its length is recorded, every other
   * path is unlinked and unmarked, and a change is flagged if there is one; when the candidates
   * are sorted and the old length was recorded, only if there is one.
   */
  method Update(ghost all: set<Path>, best: Path?, oldBest: Path?, ms: seq<Path>, limits: Limits, ghost was: seq<Path>)
    requires Split(all, Headed(oldBest, was), []) && (oldBest == null ==> was == [])
    requires best != null ==> best in all
    requires Distinct(ms) && (forall k :: 0 <= k < |ms| ==> ms[k] in all)
    requires best == null ==> ms == []
    modifies all
    ensures best == null ==> Split(all, [], [])
    ensures best != null ==>
              var c := Chosen(best, MaxPaths(limits, best), ms);
              var oldCount := if oldBest == null then 0 else old(oldBest.count);
              && Split(all, [best] + c, []) && best.count == |c|
              && (oldCount >= |was| && !best.changed ==> c == was)
              && (oldCount == |was| && Sorted(ms) ==> best.changed == (old(best.changed) || c != was))
    ensures forall q :: q in all && q != best ==>
              q.changed == old(q.changed) && q.count == if q == oldBest then 0 else old(q.count)
  {
    var max := MaxPaths(limits, best);
    var first, oldCount := Detach(all, best, oldBest, was);
    ghost var left := Minus(was, best);
    if best != null {
      StartChain(all, best, left);
    }
    assert Headed(best, []) == if best == null then [] else [best];
    var changed, count;
    ghost var c;
    changed, count, c := Walk(all, best, max, ms, first, left);
    assert ms[..|ms|] == ms;
    if best != null {
      Record(all, Headed(best, c), [], best, count - 1, best.changed || changed || count - 1 != oldCount);
      FlagMeans(best, max, ms, was, left, changed, oldCount);
    }
  }

  /** The flag compares with the whole old chain, although the walk did not see the new best path. */
  lemma FlagMeans(best: Path, max: nat, ms: seq<Path>, was: seq<Path>, left: seq<Path>, changed: bool, oldCount: nat)
    requires left == Minus(was, best)
    requires var c := Chosen(best, max, ms); (!changed ==> c == left) && (changed && Sorted(ms) ==> c != left)
    ensures var c := Chosen(best, max, ms);
            && (oldCount >= |was| && !changed && |c| == oldCount ==> c == was)
            && (oldCount == |was| && Sorted(ms) ==> ((changed || |c| != oldCount) <==> c != was))
  {
    var c := Chosen(best, max, ms);
    ChosenFrom(best, max, ms);
    if best in was {
      var k :| 0 <= k < |was| && was[k] == best;
      MinusShorter(was, k);
      assert k < |c| ==> c[k] != was[k];
    } else {
      MinusNone(was, best);
    }
  }

  lemma {:induction false} MinusShorter(s: seq<Path>, k: nat)
    requires k < |s|
    ensures |Minus(s, s[k])| == |s| - 1
  {
    if s[0] != s[k] {
      MinusShorter(s[1..], k - 1);
    }
  }
}
