/**
 * AS paths (bgpd/bgp_aspath.c): segments of AS numbers, and the normal form that makes equal
 * paths identical (section 4.3 of RFC 4271, and RFC 5065 for the confederation segments).
 */
module AsPath {

  type Asn = n: nat | n < 0x1_0000_0000

  datatype Kind = AsSet | AsSequence | AsConfedSequence | AsConfedSet

  datatype Segment = Segment(kind: Kind, asns: seq<Asn>)

  predicate IsSet(k: Kind) { k == AsSet || k == AsConfedSet }

  // ----- sets in canonical order

  predicate Increasing(s: seq<Asn>) {
    forall i, j :: 0 <= i < j < |s| ==> s[i] < s[j]
  }

  predicate Ascending(s: seq<Asn>) {
    forall i :: 0 < i < |s| ==> s[i - 1] <= s[i]
  }

  ghost function Elements(s: seq<Asn>): set<Asn> {
    set x | x in s
  }

  lemma ElementsAppend(a: seq<Asn>, b: seq<Asn>)
    ensures Elements(a + b) == Elements(a) + Elements(b)
  {
  }

  /** Add a number to an increasing sequence, unless it is there. */
  function Insert(x: Asn, s: seq<Asn>): seq<Asn> {
    if s == [] || x < s[0] then [x] + s else if x == s[0] then s else [s[0]] + Insert(x, s[1..])
  }

  lemma IncreasingCons(x: Asn, s: seq<Asn>)
    requires Increasing(s) && (s != [] ==> x < s[0])
    ensures Increasing([x] + s) && Elements([x] + s) == Elements(s) + {x}
  {
    ElementsAppend([x], s);
    assert Elements([x]) == {x};
  }

  lemma IncreasingTail(s: seq<Asn>)
    requires Increasing(s) && s != []
    ensures Increasing(s[1..]) && (|s| > 1 ==> s[0] < s[1..][0])
    ensures s == [s[0]] + s[1..] && Elements(s) == Elements(s[1..]) + {s[0]}
  {
    assert s == [s[0]] + s[1..];
    ElementsAppend([s[0]], s[1..]);
    assert Elements([s[0]]) == {s[0]};
  }

  lemma {:induction false} InsertOk(x: Asn, s: seq<Asn>)
    requires Increasing(s)
    ensures Increasing(Insert(x, s)) && Elements(Insert(x, s)) == Elements(s) + {x}
    ensures Insert(x, s) != [] && Insert(x, s)[0] == if s == [] || x < s[0] then x else s[0]
  {
    if s == [] || x < s[0] {
      IncreasingCons(x, s);
    } else {
      IncreasingTail(s);
      if x > s[0] {
        InsertOk(x, s[1..]);
        IncreasingCons(s[0], Insert(x, s[1..]));
      }
    }
  }

  /** The members of a set, in increasing order and once each. */
  function Canonical(s: seq<Asn>): seq<Asn> {
    if s == [] then [] else Insert(s[0], Canonical(s[1..]))
  }

  lemma {:induction false} CanonicalOk(s: seq<Asn>)
    ensures Increasing(Canonical(s)) && Elements(Canonical(s)) == Elements(s)
  {
    if s != [] {
      CanonicalOk(s[1..]);
      InsertOk(s[0], Canonical(s[1..]));
      assert s == [s[0]] + s[1..] && Elements([s[0]]) == {s[0]};
      ElementsAppend([s[0]], s[1..]);
    }
  }

  /** Increasing sequences with the same members are the same. */
  lemma {:induction false} IncreasingUnique(a: seq<Asn>, b: seq<Asn>)
    requires Increasing(a) && Increasing(b) && Elements(a) == Elements(b)
    ensures a == b
  {
    if a == [] {
      assert forall i :: 0 <= i < |b| ==> b[i] in Elements(b);
    } else {
      assert a[0] in Elements(b) && (b != [] ==> b[0] in Elements(a));
      assert a[0] == b[0];
      assert Elements(a[1..]) == Elements(a) - {a[0]};
      assert Elements(b[1..]) == Elements(b) - {b[0]};
      IncreasingUnique(a[1..], b[1..]);
      assert a == [a[0]] + a[1..] && b == [b[0]] + b[1..];
    }
  }

  /** One turn of the loop that weeds out repetitions. */
  lemma WeedStep(kept: seq<Asn>, s: seq<Asn>, x: Asn)
    requires kept != [] && Increasing(kept) && Elements(kept) == Elements(s) && kept[|kept| - 1] <= x
    ensures var more := if kept[|kept| - 1] == x then kept else kept + [x];
            Increasing(more) && Elements(more) == Elements(s + [x])
  {
    var last := kept[|kept| - 1];
    assert Elements([x]) == {x} && last in Elements(kept);
    ElementsAppend(s, [x]);
    ElementsAppend(kept, [x]);
    assert last == x ==> Elements(kept) + {x} == Elements(kept);
  }

  /** Keep the number at `i` unless it repeats the one kept last. */
  method WeedOne(a: array<Asn>, last: nat, i: nat) returns (tail: nat)
    requires last < i < a.Length
    modifies a
    ensures last <= tail <= i && a[tail] == old(a[i])
    ensures a[..tail + 1] == if old(a[last] == a[i]) then old(a[..last + 1]) else old(a[..last + 1] + [a[i]])
    ensures forall k :: i < k < a.Length ==> a[k] == old(a[k])
  {
    tail := last;
    if a[tail] == a[i] {
      return;
    }
    tail := tail + 1;
    if tail < i {
      a[tail] := a[i];
    }
  }

  /** Weeding out repetitions from a sorted array, in place; returns how many numbers remain. */
  method WeedDuplicates(a: array<Asn>, length: nat) returns (kept: nat)
    requires length <= a.Length && Ascending(a[..length])
    modifies a
    ensures kept <= length && a[..kept] == Canonical(old(a[..length]))
  {
    if length == 0 {
      return 0;
    }
    ghost var s := a[..length];
    var tail := 0;
    assert s[..1] == a[..1];
    for i := 1 to length
      invariant 0 <= tail < i
      invariant forall k :: i <= k < length ==> a[k] == s[k]
      invariant Increasing(a[..tail + 1]) && a[tail] == s[i - 1]
      invariant Elements(a[..tail + 1]) == Elements(s[..i])
    {
      assert s[..i + 1] == s[..i] + [s[i]];
      WeedStep(a[..tail + 1], s[..i], s[i]);
      tail := WeedOne(a, tail, i);
    }
    assert s[..length] == s;
    CanonicalOk(s);
    IncreasingUnique(a[..tail + 1], Canonical(s));
    kept := tail + 1;
  }

  /** What `qsort` leaves in a set segment: the same numbers in ascending order. */
  function Sort(s: seq<Asn>): (r: seq<Asn>)
    ensures Ascending(r) && |r| == |s| && multiset(r) == multiset(s)
  {
    if s == [] then []
    else
      assert s == [s[0]] + s[1..];
      Place(s[0], Sort(s[1..]))
  }

  function Place(x: Asn, s: seq<Asn>): (r: seq<Asn>)
    requires Ascending(s)
    ensures Ascending(r) && |r| == |s| + 1 && multiset(r) == multiset(s) + multiset{x}
    ensures r[0] == if s == [] || x <= s[0] then x else s[0]
  {
    if s == [] || x <= s[0] then [x] + s
    else
      assert s == [s[0]] + s[1..];
      assert Ascending(s[1..]);
      [s[0]] + Place(x, s[1..])
  }

  lemma SameElements(a: seq<Asn>, b: seq<Asn>)
    requires multiset(a) == multiset(b)
    ensures Elements(a) == Elements(b)
  {
    forall x ensures x in a <==> x in b {
      assert x in multiset(a) <==> x in multiset(b);
    }
  }

  // ----- the normal form

  /** A segment with its members sorted and weeded, if it is a set. */
  function Tidy(s: Segment): Segment {
    if IsSet(s.kind) then s.(asns := Canonical(s.asns)) else s
  }

  /** Put a segment in front, joining it with a sequence if it is one. */
  function Join(s: Segment, rest: seq<Segment>): seq<Segment> {
    if s.kind.AsSequence? && rest != [] && rest[0].kind.AsSequence?
    then [Segment(AsSequence, s.asns + rest[0].asns)] + rest[1..]
    else [s] + rest
  }

  function Normalise(path: seq<Segment>): seq<Segment> {
    if path == [] then [] else Join(Tidy(path[0]), Normalise(path[1..]))
  }

  method TidySegment(s: Segment) returns (r: Segment)
    ensures r == Tidy(s)
  {
    r := s;
    if s.kind == AsSet || s.kind == AsConfedSet {
      var sorted := Sort(s.asns);
      var a := new Asn[|sorted|](i requires 0 <= i < |sorted| => sorted[i]);
      assert a[..|sorted|] == sorted;
      var kept := WeedDuplicates(a, |sorted|);
      SameElements(sorted, s.asns);
      CanonicalOk(sorted);
      CanonicalOk(s.asns);
      IncreasingUnique(Canonical(sorted), Canonical(s.asns));
      r := s.(asns := a[..kept]);
    }
  }

  lemma NormaliseAt(path: seq<Segment>, i: nat)
    requires i < |path|
    ensures Normalise(path[i..]) == Join(Tidy(path[i]), Normalise(path[i + 1..]))
  {
    assert path[i..][1..] == path[i + 1..];
  }

  /** `assegment_normalise`: one pass, appending the sequences that follow a pinned sequence to it. */
  method NormaliseSegments(path: seq<Segment>) returns (r: seq<Segment>)
    ensures r == Normalise(path)
  {
    r := [];
    var i := 0;
    assert path[0..] == path;
    while i < |path|
      invariant i <= |path|
      invariant Normalise(path) == r + Normalise(path[i..])
    {
      NormaliseAt(path, i);
      var pin := TidySegment(path[i]);
      pin, i := AppendSequences(pin, path, i + 1);
      r := r + [pin];
    }
  }

  method AppendSequences(first: Segment, path: seq<Segment>, start: nat) returns (pin: Segment, i: nat)
    requires start <= |path|
    ensures start <= i <= |path|
    ensures JoinedAt(first, path, start) == [pin] + Normalise(path[i..])
  {
    pin, i := first, start;
    while i < |path| && pin.kind.AsSequence? && path[i].kind.AsSequence?
      invariant start <= i <= |path|
      invariant JoinedAt(first, path, start) == JoinedAt(pin, path, i)
    {
      JoinNext(pin, path, i);
      pin := pin.(asns := pin.asns + path[i].asns);
      i := i + 1;
    }
    JoinApart(pin, path[i..]);
  }

  /** The normal form of a segment in front of the rest of a path. */
  function JoinedAt(pin: Segment, path: seq<Segment>, i: nat): seq<Segment>
    requires i <= |path|
  {
    Join(pin, Normalise(path[i..]))
  }

  lemma JoinNext(pin: Segment, path: seq<Segment>, i: nat)
    requires i < |path| && pin.kind.AsSequence? && path[i].kind.AsSequence?
    ensures JoinedAt(pin, path, i) == JoinedAt(pin.(asns := pin.asns + path[i].asns), path, i + 1)
  {
    NormaliseAt(path, i);
    JoinTwice(pin, path[i], Normalise(path[i + 1..]));
  }

  lemma JoinTwice(a: Segment, b: Segment, rest: seq<Segment>)
    requires a.kind.AsSequence? && b.kind.AsSequence?
    ensures Join(a, Join(b, rest)) == Join(a.(asns := a.asns + b.asns), rest)
  {
    if rest != [] && rest[0].kind.AsSequence? {
      assert a.asns + (b.asns + rest[0].asns) == (a.asns + b.asns) + rest[0].asns;
    }
  }

  lemma JoinApart(s: Segment, path: seq<Segment>)
    requires s.kind.AsSequence? && path != [] ==> !path[0].kind.AsSequence?
    ensures Join(s, Normalise(path)) == [s] + Normalise(path)
  {
  }

  // ----- what the normal form keeps

  /** `aspath_count_hops`. */
  function Hops(path: seq<Segment>): nat {
    if path == [] then 0
    else (match path[0].kind case AsSequence => |path[0].asns| case AsSet => 1 case _ => 0) + Hops(path[1..])
  }

  /** `aspath_count_confeds`. */
  function Confeds(path: seq<Segment>): nat {
    if path == [] then 0
    else (match path[0].kind case AsConfedSequence => |path[0].asns| case AsConfedSet => 1 case _ => 0) +
         Confeds(path[1..])
  }

  ghost function Members(path: seq<Segment>): set<Asn> {
    if path == [] then {} else Elements(path[0].asns) + Members(path[1..])
  }

  lemma JoinKeeps(s: Segment, rest: seq<Segment>)
    ensures Hops(Join(s, rest)) == Hops([s] + rest) && Confeds(Join(s, rest)) == Confeds([s] + rest)
    ensures Members(Join(s, rest)) == Elements(s.asns) + Members(rest)
  {
    assert ([s] + rest)[1..] == rest;
    if s.kind.AsSequence? && rest != [] && rest[0].kind.AsSequence? {
      var j := Join(s, rest);
      assert j[1..] == rest[1..];
      ElementsAppend(s.asns, rest[0].asns);
    }
  }

  /** Normalising changes neither the hop counts nor the AS numbers in a path. */
  lemma {:induction false} NormaliseKeeps(path: seq<Segment>)
    ensures Hops(Normalise(path)) == Hops(path) && Confeds(Normalise(path)) == Confeds(path)
    ensures Members(Normalise(path)) == Members(path)
  {
    if path != [] {
      NormaliseKeeps(path[1..]);
      var s, rest := Tidy(path[0]), Normalise(path[1..]);
      JoinKeeps(s, rest);
      assert ([s] + rest)[1..] == rest;
      CanonicalOk(path[0].asns);
    }
  }

  predicate NoAdjacentSequences(path: seq<Segment>) {
    forall i :: 0 < i < |path| && path[i - 1].kind.AsSequence? ==> !path[i].kind.AsSequence?
  }

  /** Sets are increasing, and no two sequences are next to each other. */
  predicate Normal(path: seq<Segment>) {
    && (forall i :: 0 <= i < |path| && IsSet(path[i].kind) ==> Increasing(path[i].asns))
    && NoAdjacentSequences(path)
  }

  lemma {:induction false} NormaliseNormal(path: seq<Segment>)
    ensures Normal(Normalise(path))
  {
    if path != [] {
      NormaliseNormal(path[1..]);
      CanonicalOk(path[0].asns);
    }
  }

  /** A path is its own normal form exactly when it is normal. */
  lemma {:induction false} NormalExactly(path: seq<Segment>)
    ensures Normal(path) <==> Normalise(path) == path
  {
    NormaliseNormal(path);
    if Normal(path) && path != [] {
      assert Normal(path[1..]);
      NormalExactly(path[1..]);
      CanonicalOk(path[0].asns);
      if IsSet(path[0].kind) {
        IncreasingUnique(Canonical(path[0].asns), path[0].asns);
      }
      assert path == [path[0]] + path[1..];
      assert |path| > 1 && path[0].kind.AsSequence? ==> !path[1].kind.AsSequence?;
    }
  }

  lemma NormaliseTwice(path: seq<Segment>)
    ensures Normalise(Normalise(path)) == Normalise(path)
  {
    NormaliseNormal(path);
    NormalExactly(Normalise(path));
  }
}
