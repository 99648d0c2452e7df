/**
 * Putting together AS_PATH, as old two-byte speakers pass it on, and AS4_PATH, as they do not
 * see it: `aspath_reconcile_as4` of bgpd/bgp_aspath.c (section 4.2.3 of RFC 6793).
 */
module AsPathReconcile {
  import opened Basics
  import opened AsPath
  import opened AsPathWire

  function Total(path: seq<Segment>): nat { Hops(path) + Confeds(path) }

  /** What a segment adds to the total. */
  function Weight(s: Segment): nat { if IsSet(s.kind) then 1 else |s.asns| }

  /** The front of a path, worth `hops` hops; confederation sequences are never split. */
  function Cut(path: seq<Segment>, hops: int): seq<Segment> {
    if path == [] || hops <= 0 then [] else [Part(path[0], hops)] + Cut(path[1..], hops - Weight(path[0]))
  }

  function Part(s: Segment, hops: int): Segment
    requires hops > 0
  {
    if s.kind.AsSequence? then s.(asns := s.asns[..Min(hops, |s.asns|)]) else s
  }

  function HopsToKeep(path: seq<Segment>, as4: seq<Segment>): int {
    if Total(path) < Hops(as4) then Hops(path) else Total(path) - Hops(as4)
  }

  function Reconcile(path: seq<Segment>, as4: seq<Segment>): seq<Segment> {
    var hops := HopsToKeep(path, as4);
    if hops == 0 then as4 else Normalise(Cut(path, hops) + as4)
  }

  /** The counting loops. */
  method CountHops(path: seq<Segment>) returns (hops: int, confeds: int)
    ensures hops == Hops(path) && confeds == Confeds(path)
  {
    hops, confeds := 0, 0;
    assert path[0..] == path;
    for i := 0 to |path|
      invariant Hops(path) == hops + Hops(path[i..]) && Confeds(path) == confeds + Confeds(path[i..])
    {
      assert path[i..][1..] == path[i + 1..];
      match path[i].kind
      case AsSequence => hops := hops + |path[i].asns|;
      case AsSet => hops := hops + 1;
      case AsConfedSequence => confeds := confeds + |path[i].asns|;
      case AsConfedSet => confeds := confeds + 1;
    }
  }

  /** `aspath_reconcile_as4`. */
  method ReconcileAs4(path: seq<Segment>, as4: seq<Segment>) returns (r: seq<Segment>)
    ensures r == Reconcile(path, as4)
  {
    var pathHops, pathConfeds := CountHops(path);
    var as4Hops, _ := CountHops(as4);
    var hops := pathHops + pathConfeds - as4Hops;
    if hops < 0 {
      hops := pathHops;
    }
    if hops == 0 {
      return as4;
    }
    var front := CutFront(path, hops);
    r := NormaliseSegments(front + as4);
  }

  lemma CutAt(path: seq<Segment>, i: nat, hops: int)
    requires i < |path| && hops > 0
    ensures Cut(path[i..], hops) == [Part(path[i], hops)] + Cut(path[i + 1..], hops - Weight(path[i]))
  {
    assert path[i..][1..] == path[i + 1..];
  }

  /** What is copied of a segment, and the hops still to go. */
  method CopyPart(s: Segment, wanted: int) returns (part: Segment, hops: int)
    requires wanted > 0
    ensures part == Part(s, wanted)
    ensures hops == wanted - Weight(s) || (hops <= 0 && wanted - Weight(s) <= 0)
  {
    hops := wanted;
    var copied := |s.asns|;
    match s.kind {
      case AsSet => hops := hops - 1;
      case AsConfedSet => hops := hops - 1;
      case AsConfedSequence =>
        if hops < |s.asns| {
          hops := |s.asns|;
        }
        hops := hops - |s.asns|;
      case AsSequence =>
        copied := Min(|s.asns|, hops);
        hops := hops - |s.asns|;
    }
    part := s.(asns := s.asns[..copied]);
  }

  method CutFront(path: seq<Segment>, wanted: int) returns (front: seq<Segment>)
    ensures front == Cut(path, wanted)
  {
    front := [];
    var i, hops := 0, wanted;
    assert path[0..] == path;
    while i < |path| && hops > 0
      invariant i <= |path|
      invariant Cut(path, wanted) == front + Cut(path[i..], hops)
    {
      CutAt(path, i, hops);
      ghost var left := hops - Weight(path[i]);
      var part;
      part, hops := CopyPart(path[i], hops);
      NothingCut(path[i + 1..], left);
      NothingCut(path[i + 1..], hops);
      front := front + [part];
      i := i + 1;
    }
    assert Cut(path[i..], hops) == [] && front + [] == front;
  }

  lemma NothingCut(path: seq<Segment>, hops: int)
    ensures hops <= 0 ==> Cut(path, hops) == [] == Cut(path, 0)
  {
  }

  // ----- a path that went through old speakers comes back

  lemma {:induction false} HopsTrans(path: seq<Segment>, wide: bool)
    ensures Hops(TransPath(path, wide)) == Hops(path) && Confeds(TransPath(path, wide)) == Confeds(path)
  {
    if path != [] {
      TransCons(path, wide);
      HopsTrans(path[1..], wide);
    }
  }

  /** The path with some numbers in front. */
  function Prepended(asns: seq<Asn>, path: seq<Segment>): seq<Segment> {
    if asns == [] then path else Normalise([Segment(AsSequence, asns)] + path)
  }

  lemma HopsPrepended(asns: seq<Asn>, path: seq<Segment>)
    ensures Hops(Prepended(asns, path)) == |asns| + Hops(path) && Confeds(Prepended(asns, path)) == Confeds(path)
  {
    if asns != [] {
      var whole := [Segment(AsSequence, asns)] + path;
      NormaliseKeeps(whole);
      assert whole[1..] == path;
    }
  }

  /** As many hops as were put in front cut off just those. */
  lemma CutPrepended(asns: seq<Asn>, path: seq<Segment>)
    requires asns != []
    ensures Cut(Prepended(asns, path), |asns|) == [Segment(AsSequence, asns)]
  {
    var s := Segment(AsSequence, asns);
    assert ([s] + path)[1..] == path;
    var whole := Prepended(asns, path);
    assert whole == Join(s, Normalise(path));
    assert whole[0].asns[..|asns|] == asns;
    NothingCut(whole[1..], |asns| - |whole[0].asns|);
  }

  /**
   * A path without confederation segments goes to old speakers as AS_TRANS where numbers are too
   * large, they put any numbers in front of it, and reconciling with the original carried in
   * AS4_PATH gives the original with those numbers in front.
   */
  lemma ReconcileRecovers(path: seq<Segment>, asns: seq<Asn>)
    requires Confeds(path) == 0
    ensures Reconcile(Prepended(asns, Normalise(TransPath(path, false))), path) == Prepended(asns, path)
  {
    var seen := Normalise(TransPath(path, false));
    HopsTrans(path, false);
    NormaliseKeeps(TransPath(path, false));
    HopsPrepended(asns, seen);
    assert HopsToKeep(Prepended(asns, seen), path) == |asns|;
    if asns != [] {
      CutPrepended(asns, seen);
    }
  }

  // ----- the hop count

  lemma TotalFirst(s: Segment, rest: seq<Segment>)
    ensures Total([s] + rest) == Weight(s) + Total(rest)
  {
    assert ([s] + rest)[1..] == rest;
  }

  lemma {:induction false} TotalAppend(a: seq<Segment>, b: seq<Segment>)
    ensures Total(a + b) == Total(a) + Total(b)
  {
    if a == [] {
      assert a + b == b;
    } else {
      assert a + b == [a[0]] + (a[1..] + b) && a == [a[0]] + a[1..];
      TotalAppend(a[1..], b);
      TotalFirst(a[0], a[1..] + b);
      TotalFirst(a[0], a[1..]);
    }
  }

  /** The cut falls inside a confederation sequence. */
  predicate SplitsConfed(path: seq<Segment>, hops: int) {
    path != [] && hops > 0 &&
    ((path[0].kind.AsConfedSequence? && hops < |path[0].asns|) || SplitsConfed(path[1..], hops - Weight(path[0])))
  }

  /** The cut is worth the hops asked for, or more if it would split a confederation sequence. */
  lemma {:induction false} CutTotal(path: seq<Segment>, hops: int)
    requires 0 <= hops <= Total(path)
    ensures Total(Cut(path, hops)) >= hops
    ensures Total(Cut(path, hops)) == hops <==> !SplitsConfed(path, hops)
    decreases |path|
  {
    if hops > 0 {
      var s, rest := path[0], path[1..];
      assert path == [s] + rest;
      TotalFirst(s, rest);
      if hops >= Weight(s) {
        CutTotal(rest, hops - Weight(s));
        TotalFirst(Part(s, hops), Cut(rest, hops - Weight(s)));
      } else {
        NothingCut(rest, hops - Weight(s));
        TotalFirst(Part(s, hops), []);
      }
    }
  }

  /**
   * When AS4_PATH is not the longer one, the result counts as many hops as AS_PATH, exactly when
   * no confederation sequence falls across the cut.
   */
  lemma ReconcileHops(path: seq<Segment>, as4: seq<Segment>)
    requires Total(path) >= Hops(as4)
    ensures Total(Reconcile(path, as4)) >= Total(path) + Confeds(as4)
    ensures Total(Reconcile(path, as4)) == Total(path) + Confeds(as4) <==> !SplitsConfed(path, Total(path) - Hops(as4))
  {
    var hops := Total(path) - Hops(as4);
    CutTotal(path, hops);
    NormaliseKeeps(Cut(path, hops) + as4);
    TotalAppend(Cut(path, hops), as4);
  }

  /** A confederation sequence of two and one AS4_PATH hop make three hops out of two. */
  lemma LengthenedAtConfed()
    ensures var path, as4 := [Segment(AsConfedSequence, [1, 2])], [Segment(AsSequence, [3])];
            Total(path) == 2 && Total(Reconcile(path, as4)) == 3
  {
    var path, as4 := [Segment(AsConfedSequence, [1, 2])], [Segment(AsSequence, [3])];
    assert Cut(path, 1) == path;
    assert path + as4 == [path[0], as4[0]];
    assert Total(path) == 2 && Hops(as4) == 1 && Confeds(as4) == 0;
    NormaliseKeeps(path + as4);
    TotalAppend(path, as4);
  }

  lemma {:induction false} MembersAppend(a: seq<Segment>, b: seq<Segment>)
    ensures Members(a + b) == Members(a) + Members(b)
  {
    if a == [] {
      assert a + b == b;
    } else {
      assert (a + b)[1..] == a[1..] + b;
      MembersAppend(a[1..], b);
    }
  }

  /** No AS number of AS4_PATH is lost, so loops stay visible. */
  lemma ReconcileKeepsAs4(path: seq<Segment>, as4: seq<Segment>)
    ensures Members(as4) <= Members(Reconcile(path, as4))
  {
    var front := Cut(path, HopsToKeep(path, as4));
    NormaliseKeeps(front + as4);
    MembersAppend(front, as4);
  }
}
