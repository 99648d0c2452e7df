/**
 * AS paths on the wire (`aspath_put` and `assegments_parse` of bgpd/bgp_aspath.c): segments of at
 * most 255 numbers, of two bytes or of four (section 4.3 of RFC 4271 and RFC 6793).
 */
module AsPathWire {
  import opened Basics
  import opened AsPath

  const AS_SEGMENT_MAX := 255
  const BGP_AS_MAX := 65535
  const BGP_AS_TRANS: Asn := 23456

  // ----- numbers

  function Width(wide: bool): nat { if wide then 4 else 2 }

  /** The bytes `n` numbers take. */
  function Size(n: nat, wide: bool): nat { if wide then 4 * n else 2 * n }

  /** The number an old speaker sees. */
  function Trans(n: Asn, wide: bool): Asn {
    if wide || n <= BGP_AS_MAX then n else BGP_AS_TRANS
  }

  function AsnBytes(n: Asn, wide: bool): (r: seq<Byte>)
    ensures |r| == Width(wide)
  {
    if wide then ShortBytes(n / 0x1_0000) + ShortBytes(n % 0x1_0000) else ShortBytes(Trans(n, false))
  }

  function ReadShort(b: seq<Byte>): (r: nat)
    requires |b| == 2
    ensures r < 0x1_0000
  {
    ToShort(b[0], b[1])
  }

  function ReadAsn(b: seq<Byte>, wide: bool): Asn
    requires |b| == Width(wide)
  {
    if wide then 0x1_0000 * ReadShort(b[..2]) + ReadShort(b[2..]) else ReadShort(b)
  }

  lemma AsnRoundTrip(n: Asn, wide: bool)
    ensures ReadAsn(AsnBytes(n, wide), wide) == Trans(n, wide)
  {
    if wide {
      var b := AsnBytes(n, true);
      assert b[..2] == ShortBytes(n / 0x1_0000) && b[2..] == ShortBytes(n % 0x1_0000);
    }
  }

  function Data(asns: seq<Asn>, wide: bool): (r: seq<Byte>)
    ensures |r| == Size(|asns|, wide)
  {
    if asns == [] then [] else AsnBytes(asns[0], wide) + Data(asns[1..], wide)
  }

  function ReadData(b: seq<Byte>, n: nat, wide: bool): (r: seq<Asn>)
    requires |b| == Size(n, wide)
    ensures |r| == n
  {
    if n == 0 then [] else [ReadAsn(b[..Width(wide)], wide)] + ReadData(b[Width(wide)..], n - 1, wide)
  }

  function TransAll(asns: seq<Asn>, wide: bool): (r: seq<Asn>)
    ensures |r| == |asns|
    ensures forall i :: 0 <= i < |r| ==> r[i] == Trans(asns[i], wide)
  {
    seq(|asns|, i requires 0 <= i < |asns| => Trans(asns[i], wide))
  }

  lemma {:induction false} DataRoundTrip(asns: seq<Asn>, wide: bool)
    ensures ReadData(Data(asns, wide), |asns|, wide) == TransAll(asns, wide)
  {
    if asns != [] {
      var d := Data(asns, wide);
      assert d[..Width(wide)] == AsnBytes(asns[0], wide) && d[Width(wide)..] == Data(asns[1..], wide);
      AsnRoundTrip(asns[0], wide);
      DataRoundTrip(asns[1..], wide);
      assert TransAll(asns, wide) == [Trans(asns[0], wide)] + TransAll(asns[1..], wide);
    }
  }

  // ----- segments

  function Code(k: Kind): Byte {
    match k
    case AsSet => 1
    case AsSequence => 2
    case AsConfedSequence => 3
    case AsConfedSet => 4
  }

  function KindOf(b: Byte): Option<Kind> {
    if b == 1 then Some(AsSet) else if b == 2 then Some(AsSequence)
    else if b == 3 then Some(AsConfedSequence) else if b == 4 then Some(AsConfedSet) else None
  }

  predicate OnWire(s: Segment) {
    0 < |s.asns| <= AS_SEGMENT_MAX
  }

  function SegmentBytes(s: Segment, wide: bool): (r: seq<Byte>)
    requires |s.asns| <= AS_SEGMENT_MAX
    ensures |r| == 2 + Size(|s.asns|, wide)
  {
    [Code(s.kind), |s.asns|] + Data(s.asns, wide)
  }

  predicate Brief(path: seq<Segment>) {
    forall i :: 0 <= i < |path| ==> |path[i].asns| <= AS_SEGMENT_MAX
  }

  function Wire(path: seq<Segment>, wide: bool): seq<Byte>
    requires Brief(path)
  {
    if path == [] then [] else SegmentBytes(path[0], wide) + Wire(path[1..], wide)
  }

  function TransPath(path: seq<Segment>, wide: bool): (r: seq<Segment>)
    ensures |r| == |path|
    ensures forall i :: 0 <= i < |r| ==> r[i] == Segment(path[i].kind, TransAll(path[i].asns, wide))
  {
    seq(|path|, i requires 0 <= i < |path| => Segment(path[i].kind, TransAll(path[i].asns, wide)))
  }

  /** The segment at the front of some bytes, and how many of them it takes. */
  function ParseHead(b: seq<Byte>, wide: bool): (r: Option<(Segment, nat)>)
    ensures r.Some? ==> 2 < r.value.1 <= |b|
  {
    if |b| <= 2 then None
    else
      var n: nat := b[1];
      var size := 2 + Size(n, wide);
      if size > |b| || n == 0 || KindOf(b[0]).None? then None
      else Some((Segment(KindOf(b[0]).value, ReadData(b[2..size], n, wide)), size))
  }

  /** The segments in a stretch of bytes, before they are normalised. */
  function ParseSegments(b: seq<Byte>, wide: bool): Option<seq<Segment>>
    decreases |b|
  {
    if b == [] then Some([])
    else
      var head := ParseHead(b, wide);
      if head.None? then None
      else
        var rest := ParseSegments(b[head.value.1..], wide);
        if rest.None? then None else Some([head.value.0] + rest.value)
  }

  /** `assegments_parse`. */
  function Parse(b: seq<Byte>, wide: bool): Option<seq<Segment>> {
    if |b| % 2 != 0 then None
    else
      var r := ParseSegments(b, wide);
      if r.None? then None else Some(Normalise(r.value))
  }

  lemma HeadRoundTrip(s: Segment, tail: seq<Byte>, wide: bool)
    requires OnWire(s)
    ensures ParseHead(SegmentBytes(s, wide) + tail, wide) ==
            Some((Segment(s.kind, TransAll(s.asns, wide)), |SegmentBytes(s, wide)|))
  {
    var b, size := SegmentBytes(s, wide) + tail, 2 + Size(|s.asns|, wide);
    assert b[0] == Code(s.kind) && b[1] == |s.asns|;
    assert b[2..size] == Data(s.asns, wide);
    DataRoundTrip(s.asns, wide);
  }

  lemma {:induction false} WireEven(path: seq<Segment>, wide: bool)
    requires Brief(path)
    ensures |Wire(path, wide)| % 2 == 0
  {
    if path != [] {
      WireEven(path[1..], wide);
      SegmentEven(path[0], wide);
      EvenSum(|SegmentBytes(path[0], wide)|, |Wire(path[1..], wide)|);
    }
  }

  lemma SegmentEven(s: Segment, wide: bool)
    requires |s.asns| <= AS_SEGMENT_MAX
    ensures |SegmentBytes(s, wide)| % 2 == 0
  {
    SizeEven(|s.asns|, wide);
  }

  lemma SizeEven(n: nat, wide: bool)
    ensures (2 + Size(n, wide)) % 2 == 0
  {
    assert 2 + Size(n, wide) == 2 * (1 + if wide then 2 * n else n);
  }

  lemma EvenSum(a: nat, b: nat)
    requires a % 2 == 0 && b % 2 == 0
    ensures (a + b) % 2 == 0
  {
  }

  lemma {:induction false} ParseWire(path: seq<Segment>, wide: bool)
    requires Brief(path) && forall i :: 0 <= i < |path| ==> OnWire(path[i])
    ensures ParseSegments(Wire(path, wide), wide) == Some(TransPath(path, wide))
  {
    if path != [] {
      var s, tail := path[0], Wire(path[1..], wide);
      ParseWire(path[1..], wide);
      HeadRoundTrip(s, tail, wide);
      var b := SegmentBytes(s, wide) + tail;
      assert b[|SegmentBytes(s, wide)|..] == tail;
      TransCons(path, wide);
    }
  }

  lemma TransCons(path: seq<Segment>, wide: bool)
    requires path != []
    ensures TransPath(path, wide) == [Segment(path[0].kind, TransAll(path[0].asns, wide))] + TransPath(path[1..], wide)
  {
  }

  // ----- what is written

  /** The pieces a segment is written in: each full one repeats the first 255 numbers. */
  function Pieces(s: Segment, written: nat): (r: seq<Segment>)
    requires written <= |s.asns|
    ensures forall i :: 0 <= i < |r| ==> |r[i].asns| <= AS_SEGMENT_MAX && r[i].kind == s.kind
    decreases |s.asns| - written
  {
    if |s.asns| - written > AS_SEGMENT_MAX
    then [s.(asns := s.asns[..AS_SEGMENT_MAX])] + Pieces(s, written + AS_SEGMENT_MAX)
    else [s.(asns := s.asns[written..])]
  }

  function AllPieces(path: seq<Segment>): (r: seq<Segment>)
    ensures Brief(r)
  {
    if path == [] then [] else Pieces(path[0], 0) + AllPieces(path[1..])
  }

  predicate NonEmpty(path: seq<Segment>) {
    forall i :: 0 <= i < |path| ==> path[i].asns != []
  }

  /** The segments written; nothing if the first one is empty. */
  function Written(path: seq<Segment>): (r: seq<Segment>)
    ensures Brief(r)
  {
    if path == [] || path[0].asns == [] then [] else AllPieces(path)
  }

  /** The numbers of the pieces, one after another. */
  function Rejoined(asns: seq<Asn>, written: nat): (r: seq<Asn>)
    requires written <= |asns|
    ensures |r| == |asns| - written
    decreases |asns| - written
  {
    if |asns| - written > AS_SEGMENT_MAX then asns[..AS_SEGMENT_MAX] + Rejoined(asns, written + AS_SEGMENT_MAX)
    else asns[written..]
  }

  /** Every full piece from `written` on is the first piece over again. */
  predicate Periodic(asns: seq<Asn>, written: nat)
    requires written <= |asns|
    decreases |asns| - written
  {
    |asns| - written > AS_SEGMENT_MAX ==>
      asns[written..written + AS_SEGMENT_MAX] == asns[..AS_SEGMENT_MAX] && Periodic(asns, written + AS_SEGMENT_MAX)
  }

  /** Up to 510 numbers, only the first piece is full. */
  lemma TwoPiecesFit(asns: seq<Asn>)
    requires |asns| <= 2 * AS_SEGMENT_MAX
    ensures Periodic(asns, 0)
  {
  }

  lemma {:induction false} RejoinedExactly(asns: seq<Asn>, written: nat)
    requires written <= |asns|
    ensures Rejoined(asns, written) == asns[written..] <==> Periodic(asns, written)
    decreases |asns| - written
  {
    var rest := asns[written..];
    if |rest| > AS_SEGMENT_MAX {
      RejoinedExactly(asns, written + AS_SEGMENT_MAX);
      var r := Rejoined(asns, written);
      assert r[..AS_SEGMENT_MAX] == asns[..AS_SEGMENT_MAX];
      assert r[AS_SEGMENT_MAX..] == Rejoined(asns, written + AS_SEGMENT_MAX);
      assert rest[..AS_SEGMENT_MAX] == asns[written..written + AS_SEGMENT_MAX];
      assert rest[AS_SEGMENT_MAX..] == asns[written + AS_SEGMENT_MAX..];
      assert r == r[..AS_SEGMENT_MAX] + r[AS_SEGMENT_MAX..] && rest == rest[..AS_SEGMENT_MAX] + rest[AS_SEGMENT_MAX..];
    }
  }

  predicate Fits(s: Segment) {
    if s.kind.AsSequence? then Periodic(s.asns, 0) else |s.asns| <= AS_SEGMENT_MAX
  }

  predicate AllFit(path: seq<Segment>) {
    forall i :: 0 <= i < |path| ==> Fits(path[i])
  }

  /** Normalising puts the pieces of a sequence back together. */
  lemma {:induction false} PiecesOfSequence(s: Segment, written: nat, rest: seq<Segment>)
    requires s.kind.AsSequence? && written <= |s.asns|
    ensures Normalise(Pieces(s, written) + rest) == Join(s.(asns := Rejoined(s.asns, written)), Normalise(rest))
    decreases |s.asns| - written
  {
    var ps := Pieces(s, written);
    assert (ps + rest)[1..] == ps[1..] + rest;
    if |s.asns| - written > AS_SEGMENT_MAX {
      assert ps[1..] == Pieces(s, written + AS_SEGMENT_MAX);
      PiecesOfSequence(s, written + AS_SEGMENT_MAX, rest);
      JoinTwice(ps[0], s.(asns := Rejoined(s.asns, written + AS_SEGMENT_MAX)), Normalise(rest));
    } else {
      assert ps[1..] + rest == rest;
    }
  }

  lemma PiecesOfFitting(s: Segment, rest: seq<Segment>)
    requires Fits(s)
    ensures Normalise(Pieces(s, 0) + rest) == Join(Tidy(s), Normalise(rest))
  {
    assert s.asns[0..] == s.asns;
    if s.kind.AsSequence? {
      PiecesOfSequence(s, 0, rest);
      RejoinedExactly(s.asns, 0);
    } else {
      assert Pieces(s, 0) == [s] && ([s] + rest)[1..] == rest;
    }
  }

  /** Cutting a path into pieces that fit does not change its normal form. */
  lemma {:induction false} PiecesNormalise(path: seq<Segment>)
    requires AllFit(path)
    ensures Normalise(AllPieces(path)) == Normalise(path)
  {
    if path != [] {
      assert Fits(path[0]);
      PiecesNormalise(path[1..]);
      PiecesOfFitting(path[0], AllPieces(path[1..]));
    }
  }

  // ----- the round trip

  function TransSegment(s: Segment, wide: bool): Segment {
    s.(asns := TransAll(s.asns, wide))
  }

  lemma TransSlice(asns: seq<Asn>, wide: bool, lo: nat, hi: nat)
    requires lo <= hi <= |asns|
    ensures TransAll(asns, wide)[lo..hi] == TransAll(asns[lo..hi], wide)
    ensures lo == 0 ==> TransAll(asns, wide)[..hi] == TransAll(asns[..hi], wide)
    ensures hi == |asns| ==> TransAll(asns, wide)[lo..] == TransAll(asns[lo..], wide)
  {
  }

  lemma TransFirst(s: Segment, more: seq<Segment>, wide: bool)
    ensures TransPath([s] + more, wide) == [TransSegment(s, wide)] + TransPath(more, wide)
  {
    TransCons([s] + more, wide);
    assert ([s] + more)[1..] == more;
  }

  lemma {:induction false} TransPieces(s: Segment, wide: bool, written: nat)
    requires written <= |s.asns|
    ensures TransPath(Pieces(s, written), wide) == Pieces(TransSegment(s, wide), written)
    decreases |s.asns| - written
  {
    if |s.asns| - written > AS_SEGMENT_MAX {
      TransPieces(s, wide, written + AS_SEGMENT_MAX);
      TransSlice(s.asns, wide, 0, AS_SEGMENT_MAX);
      TransFirst(s.(asns := s.asns[..AS_SEGMENT_MAX]), Pieces(s, written + AS_SEGMENT_MAX), wide);
    } else {
      TransSlice(s.asns, wide, written, |s.asns|);
      TransFirst(s.(asns := s.asns[written..]), [], wide);
    }
  }

  lemma TransAppend(a: seq<Segment>, b: seq<Segment>, wide: bool)
    ensures TransPath(a + b, wide) == TransPath(a, wide) + TransPath(b, wide)
  {
  }

  lemma {:induction false} TransAllPieces(path: seq<Segment>, wide: bool)
    ensures TransPath(AllPieces(path), wide) == AllPieces(TransPath(path, wide))
  {
    if path != [] {
      TransAllPieces(path[1..], wide);
      TransPieces(path[0], wide, 0);
      TransAppend(Pieces(path[0], 0), AllPieces(path[1..]), wide);
      TransCons(path, wide);
    }
  }

  lemma {:induction false} PeriodicTrans(asns: seq<Asn>, wide: bool, written: nat)
    requires written <= |asns| && Periodic(asns, written)
    ensures Periodic(TransAll(asns, wide), written)
    decreases |asns| - written
  {
    if |asns| - written > AS_SEGMENT_MAX {
      PeriodicTrans(asns, wide, written + AS_SEGMENT_MAX);
      TransSlice(asns, wide, written, written + AS_SEGMENT_MAX);
      TransSlice(asns, wide, 0, AS_SEGMENT_MAX);
    }
  }

  lemma FitTrans(path: seq<Segment>, wide: bool)
    requires AllFit(path)
    ensures AllFit(TransPath(path, wide))
  {
    forall i | 0 <= i < |path| ensures Fits(TransPath(path, wide)[i]) {
      assert Fits(path[i]);
      if path[i].kind.AsSequence? {
        PeriodicTrans(path[i].asns, wide, 0);
      }
    }
  }

  lemma {:induction false} PiecesNonEmpty(s: Segment, written: nat)
    requires written < |s.asns|
    ensures forall i :: 0 <= i < |Pieces(s, written)| ==> OnWire(Pieces(s, written)[i])
    decreases |s.asns| - written
  {
    if |s.asns| - written > AS_SEGMENT_MAX {
      PiecesNonEmpty(s, written + AS_SEGMENT_MAX);
    }
  }

  lemma {:induction false} AllPiecesNonEmpty(path: seq<Segment>)
    requires NonEmpty(path)
    ensures forall i :: 0 <= i < |AllPieces(path)| ==> OnWire(AllPieces(path)[i])
  {
    if path != [] {
      PiecesNonEmpty(path[0], 0);
      AllPiecesNonEmpty(path[1..]);
    }
  }

  /** Parsing undoes writing, up to the numbers an old speaker cannot see. */
  lemma WireRoundTrip(path: seq<Segment>, wide: bool)
    requires NonEmpty(path) && AllFit(path)
    ensures Parse(Wire(Written(path), wide), wide) == Some(Normalise(TransPath(path, wide)))
  {
    ParsesPieces(path, wide);
    FitTrans(path, wide);
    PiecesNormalise(TransPath(path, wide));
  }

  lemma ParsesPieces(path: seq<Segment>, wide: bool)
    requires NonEmpty(path)
    ensures Written(path) == AllPieces(path)
    ensures Parse(Wire(Written(path), wide), wide) == Some(Normalise(AllPieces(TransPath(path, wide))))
  {
    AllPiecesNonEmpty(path);
    ParseWire(AllPieces(path), wide);
    WireEven(AllPieces(path), wide);
    TransAllPieces(path, wide);
  }

  lemma TransWide(path: seq<Segment>)
    ensures TransPath(path, true) == path
  {
    forall i | 0 <= i < |path| ensures TransPath(path, true)[i] == path[i] {
      assert TransAll(path[i].asns, true) == path[i].asns;
    }
  }

  // ----- exactly which paths survive

  lemma FirstPiece(s: Segment, rest: seq<Segment>)
    requires !s.kind.AsSequence?
    ensures var n := Normalise(Pieces(s, 0) + rest);
            n != [] && n[0] == Tidy(Pieces(s, 0)[0])
  {
    var ps := Pieces(s, 0);
    assert (ps + rest)[0] == ps[0];
  }

  lemma {:induction false} InsertLength(x: Asn, s: seq<Asn>)
    ensures |Insert(x, s)| <= |s| + 1
  {
    if s != [] && x > s[0] {
      InsertLength(x, s[1..]);
    }
  }

  lemma {:induction false} CanonicalLength(s: seq<Asn>)
    ensures |Canonical(s)| <= |s|
  {
    if s != [] {
      CanonicalLength(s[1..]);
      InsertLength(s[0], Canonical(s[1..]));
    }
  }

  /** A segment that does not fit does not come back. */
  lemma LongLost(s: Segment, rest: seq<Segment>)
    requires !s.kind.AsSequence? && |s.asns| > AS_SEGMENT_MAX
    ensures Normalise(Pieces(s, 0) + rest) != [] && Normalise(Pieces(s, 0) + rest)[0] != s
  {
    FirstPiece(s, rest);
    CanonicalLength(Pieces(s, 0)[0].asns);
  }

  lemma FirstKind(path: seq<Segment>)
    requires path != []
    ensures AllPieces(path) != [] && AllPieces(path)[0].kind == path[0].kind
    ensures Normalise(AllPieces(path)) != [] && Normalise(AllPieces(path))[0].kind == path[0].kind
  {
    var ps := AllPieces(path);
    assert ps[0] == Pieces(path[0], 0)[0];
  }

  lemma SequenceSurvives(s: Segment, path: seq<Segment>)
    requires s.kind.AsSequence? && (path != [] ==> !path[0].kind.AsSequence?)
    ensures Normalise(Pieces(s, 0) + AllPieces(path)) == [s.(asns := Rejoined(s.asns, 0))] + Normalise(AllPieces(path))
  {
    PiecesOfSequence(s, 0, AllPieces(path));
    if path != [] {
      FirstKind(path);
    }
  }

  /** A normal path comes back unchanged exactly when all its segments fit. */
  lemma {:induction false} SurvivesExactly(path: seq<Segment>)
    requires Normal(path)
    ensures Normalise(AllPieces(path)) == path <==> AllFit(path)
  {
    if path != [] {
      var s, rest := path[0], path[1..];
      assert Normal(rest) && path == [s] + rest;
      SurvivesExactly(rest);
      assert AllFit(path) <==> Fits(s) && AllFit(rest) by {
        assert forall i :: 0 <= i < |rest| ==> rest[i] == path[i + 1];
        assert forall i :: 0 < i < |path| ==> path[i] == rest[i - 1];
      }
      if s.kind.AsSequence? {
        SequenceSurvives(s, rest);
        RejoinedExactly(s.asns, 0);
        assert s.asns[0..] == s.asns;
      } else if Fits(s) {
        PiecesOfFitting(s, AllPieces(rest));
        NormalExactly([s]);
        assert Normal([s]) && Normalise([s]) == [Tidy(s)];
      } else {
        LongLost(s, AllPieces(rest));
      }
    }
  }

  lemma RoundTripExactly(path: seq<Segment>)
    requires Normal(path) && NonEmpty(path)
    ensures Parse(Wire(Written(path), true), true) == Some(path) <==> AllFit(path)
  {
    ParsesPieces(path, true);
    TransWide(path);
    SurvivesExactly(path);
  }

  /** A sequence of more than 510 numbers whose second piece does not start like the first is lost. */
  lemma LongSequenceLost(asns: seq<Asn>)
    requires |asns| > 2 * AS_SEGMENT_MAX && asns[AS_SEGMENT_MAX] != asns[0]
    ensures Parse(Wire(Written([Segment(AsSequence, asns)]), true), true) != Some([Segment(AsSequence, asns)])
  {
    RoundTripExactly([Segment(AsSequence, asns)]);
    NotPeriodic(asns);
    assert !Fits([Segment(AsSequence, asns)][0]);
  }

  lemma NotPeriodic(asns: seq<Asn>)
    requires |asns| > 2 * AS_SEGMENT_MAX && asns[AS_SEGMENT_MAX] != asns[0]
    ensures !Periodic(asns, 0)
  {
    var n := AS_SEGMENT_MAX;
    assert asns[n..n + n][0] == asns[n] && asns[..n][0] == asns[0];
    assert !Periodic(asns, n);
  }

  /** The numbers from 0 to 510 are such a sequence. */
  lemma LostAt511()
    ensures var path := [Segment(AsSequence, seq(511, i requires 0 <= i => i))];
            Parse(Wire(Written(path), true), true) != Some(path)
  {
    LongSequenceLost(seq(511, i requires 0 <= i => i));
  }
}
