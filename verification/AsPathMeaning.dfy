/**
 * What an AS path means, independently of how it is cut into segments, and that comparing
 * normal forms (`aspath_cmp` of bgpd/bgp_aspath.c) decides whether two paths mean the same.
 */
module AsPathMeaning {
  import opened AsPath

  /** Hops in order; a set is a set; confederation sequences keep their boundaries. */
  datatype Item = Hop(asn: Asn) | Group(kind: Kind, members: set<Asn>) | ConfedRun(asns: seq<Asn>)

  ghost function Items(s: Segment): (r: seq<Item>)
    ensures |r| == if s.kind.AsSequence? then |s.asns| else 1
  {
    match s.kind
    case AsSequence => seq(|s.asns|, i requires 0 <= i < |s.asns| => Hop(s.asns[i]))
    case AsConfedSequence => [ConfedRun(s.asns)]
    case k => [Group(k, Elements(s.asns))]
  }

  ghost function Meaning(path: seq<Segment>): seq<Item> {
    if path == [] then [] else Items(path[0]) + Meaning(path[1..])
  }

  lemma JoinMeaning(s: Segment, rest: seq<Segment>)
    ensures Meaning(Join(s, rest)) == Items(s) + Meaning(rest)
  {
    if s.kind.AsSequence? && rest != [] && rest[0].kind.AsSequence? {
      var j := Join(s, rest);
      assert j[1..] == rest[1..];
      assert Items(j[0]) == Items(s) + Items(rest[0]);
      assert Items(s) + Items(rest[0]) + Meaning(rest[1..]) == Items(s) + (Items(rest[0]) + Meaning(rest[1..]));
    } else {
      assert ([s] + rest)[1..] == rest;
    }
  }

  /** Normalising a path does not change what it means. */
  lemma {:induction false} NormaliseMeaning(path: seq<Segment>)
    ensures Meaning(Normalise(path)) == Meaning(path)
  {
    if path != [] {
      NormaliseMeaning(path[1..]);
      JoinMeaning(Tidy(path[0]), Normalise(path[1..]));
      CanonicalOk(path[0].asns);
    }
  }

  // ----- normal forms tell meanings apart

  predicate EmptySequence(s: Segment) {
    s.kind.AsSequence? && s.asns == []
  }

  predicate NoEmptySequence(path: seq<Segment>) {
    forall i :: 0 <= i < |path| ==> !EmptySequence(path[i])
  }

  /** How many hops a meaning starts with. */
  ghost function Leading(m: seq<Item>): nat {
    if m != [] && m[0].Hop? then 1 + Leading(m[1..]) else 0
  }

  lemma {:induction false} LeadingItems(m: seq<Item>, rest: seq<Item>)
    requires forall i :: 0 <= i < |m| ==> m[i].Hop?
    requires rest != [] ==> !rest[0].Hop?
    ensures Leading(m + rest) == |m|
  {
    if m == [] {
      assert m + rest == rest;
    } else {
      assert (m + rest)[1..] == m[1..] + rest;
      LeadingItems(m[1..], rest);
    }
  }

  lemma LeadingSegment(path: seq<Segment>)
    requires path != [] && Normal(path) && NoEmptySequence(path)
    ensures Meaning(path) != []
    ensures Leading(Meaning(path)) == if path[0].kind.AsSequence? then |path[0].asns| else 0
  {
    assert !EmptySequence(path[0]);
    if path[0].kind.AsSequence? {
      if |path| > 1 {
        assert !path[1].kind.AsSequence?;
        assert path[1..][0] == path[1];
        assert Meaning(path[1..]) == Items(path[1]) + Meaning(path[1..][1..]);
      }
      LeadingItems(Items(path[0]), Meaning(path[1..]));
    }
  }

  lemma SameSegment(s: Segment, t: Segment)
    requires Items(s) == Items(t) && !EmptySequence(s) && !EmptySequence(t)
    requires IsSet(s.kind) ==> Increasing(s.asns)
    requires IsSet(t.kind) ==> Increasing(t.asns)
    ensures s == t
  {
    if s.kind.AsSequence? {
      assert Items(s)[0].Hop? && Items(t)[0].Hop?;
      assert forall i :: 0 <= i < |s.asns| ==> Items(s)[i] == Hop(s.asns[i]) && Items(t)[i] == Hop(t.asns[i]);
    } else {
      assert Items(s)[0] == Items(t)[0];
      if IsSet(s.kind) {
        IncreasingUnique(s.asns, t.asns);
      }
    }
  }

  lemma SplitEqual(a: seq<Item>, x: seq<Item>, b: seq<Item>, y: seq<Item>)
    requires a + x == b + y && |a| == |b|
    ensures a == b && x == y
  {
    assert a == (a + x)[..|a|] && b == (b + y)[..|b|];
    assert x == (a + x)[|a|..] && y == (b + y)[|b|..];
  }

  lemma {:induction false} MeaningInjective(a: seq<Segment>, b: seq<Segment>)
    requires Normal(a) && Normal(b) && NoEmptySequence(a) && NoEmptySequence(b) && Meaning(a) == Meaning(b)
    ensures a == b
  {
    if a == [] || b == [] {
      if a != [] {
        LeadingSegment(a);
      }
      if b != [] {
        LeadingSegment(b);
      }
    } else {
      LeadingSegment(a);
      LeadingSegment(b);
      assert !EmptySequence(a[0]) && !EmptySequence(b[0]);
      SplitEqual(Items(a[0]), Meaning(a[1..]), Items(b[0]), Meaning(b[1..]));
      SameSegment(a[0], b[0]);
      assert Normal(a[1..]) && Normal(b[1..]);
      MeaningInjective(a[1..], b[1..]);
      assert a == [a[0]] + a[1..] && b == [b[0]] + b[1..];
    }
  }

  /** Two paths mean the same exactly when their normal forms are the same segments. */
  lemma MeaningExactly(a: seq<Segment>, b: seq<Segment>)
    requires NoEmptySequence(Normalise(a)) && NoEmptySequence(Normalise(b))
    ensures Meaning(a) == Meaning(b) <==> Normalise(a) == Normalise(b)
  {
    NormaliseMeaning(a);
    NormaliseMeaning(b);
    NormaliseNormal(a);
    NormaliseNormal(b);
    if Meaning(a) == Meaning(b) {
      MeaningInjective(Normalise(a), Normalise(b));
    }
  }

  // ----- the condition on empty sequences is needed

  function WithoutEmpty(path: seq<Segment>): (r: seq<Segment>)
    ensures NoEmptySequence(r)
  {
    if path == [] then []
    else if EmptySequence(path[0]) then WithoutEmpty(path[1..])
    else [path[0]] + WithoutEmpty(path[1..])
  }

  lemma {:induction false} WithoutEmptyMeaning(path: seq<Segment>)
    ensures Meaning(WithoutEmpty(path)) == Meaning(path)
  {
    if path != [] {
      WithoutEmptyMeaning(path[1..]);
      if EmptySequence(path[0]) {
        assert Items(path[0]) == [] && [] + Meaning(path[1..]) == Meaning(path[1..]);
      } else {
        assert WithoutEmpty(path)[1..] == WithoutEmpty(path[1..]);
      }
    }
  }

  lemma {:induction false} NormaliseNoEmpty(path: seq<Segment>)
    requires NoEmptySequence(path)
    ensures NoEmptySequence(Normalise(path))
  {
    if path != [] {
      NormaliseNoEmpty(path[1..]);
      assert !EmptySequence(path[0]);
    }
  }

  /** A path whose normal form has an empty sequence means the same as one that compares different. */
  lemma EmptySequenceHidesEquality(a: seq<Segment>)
    requires !NoEmptySequence(Normalise(a))
    ensures exists b :: Meaning(a) == Meaning(b) && Normalise(a) != Normalise(b)
  {
    var b := WithoutEmpty(a);
    WithoutEmptyMeaning(a);
    NormaliseNoEmpty(b);
    assert Meaning(a) == Meaning(b) && Normalise(a) != Normalise(b);
  }

  /** `aspath_cmp`. */
  method Same(a: seq<Segment>, b: seq<Segment>) returns (same: bool)
    ensures same == (a == b)
  {
    var i := 0;
    while i < |a| || i < |b|
      invariant i <= |a| && i <= |b| && a[..i] == b[..i]
      decreases |a| - i
    {
      if i >= |a| || i >= |b| || a[i].kind != b[i].kind || |a[i].asns| != |b[i].asns| {
        return false;
      }
      var k := 0;
      while k < |a[i].asns|
        invariant k <= |a[i].asns| && a[i].asns[..k] == b[i].asns[..k]
      {
        if a[i].asns[k] != b[i].asns[k] {
          return false;
        }
        k := k + 1;
      }
      assert a[i].asns == a[i].asns[..k] && b[i].asns == b[i].asns[..k];
      assert a[..i + 1] == a[..i] + [a[i]] && b[..i + 1] == b[..i] + [b[i]];
      i := i + 1;
    }
    assert a == a[..i] && b == b[..i];
    same := true;
  }
}
