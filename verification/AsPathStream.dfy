/**
 * Writing an AS path to a stream and reading it back, as the loops of `aspath_put` and
 * `assegments_parse` do (bgpd/bgp_aspath.c).
 */
module AsPathStream {
  import opened Basics
  import opened AsPath
  import opened AsPathWire

  predicate Packable(s: Segment, next: Segment) {
    s.kind.AsSequence? && next.kind.AsSequence? && |s.asns| + |next.asns| <= AS_SEGMENT_MAX
  }

  // ----- the byte count `aspath_put` returns

  /** What is added up for one segment: each full piece counts everything written so far. */
  function Counted(s: Segment, written: nat, wide: bool): nat
    requires written <= |s.asns|
    decreases |s.asns| - written
  {
    if |s.asns| - written > AS_SEGMENT_MAX
    then 2 + Size(written + AS_SEGMENT_MAX, wide) + Counted(s, written + AS_SEGMENT_MAX, wide)
    else 2 + Size(|s.asns| - written, wide)
  }

  function CountedAll(path: seq<Segment>, wide: bool): nat {
    if path == [] then 0 else Counted(path[0], 0, wide) + CountedAll(path[1..], wide)
  }

  lemma {:induction false} WireAppend(a: seq<Segment>, b: seq<Segment>, wide: bool)
    requires Brief(a) && Brief(b)
    ensures Brief(a + b) && Wire(a + b, wide) == Wire(a, wide) + Wire(b, wide)
  {
    if a == [] {
      assert a + b == b;
    } else {
      WireAppend(a[1..], b, wide);
      WireFirst(a[0], a[1..] + b, wide);
      assert a + b == [a[0]] + (a[1..] + b);
      Associative(SegmentBytes(a[0], wide), Wire(a[1..], wide), Wire(b, wide));
    }
  }

  lemma WireFirst(s: Segment, rest: seq<Segment>, wide: bool)
    requires |s.asns| <= AS_SEGMENT_MAX && Brief(rest)
    ensures Brief([s] + rest) && Wire([s] + rest, wide) == SegmentBytes(s, wide) + Wire(rest, wide)
  {
    assert ([s] + rest)[1..] == rest;
  }

  /** The count is never too small, and right exactly when at most one piece is full. */
  lemma {:induction false} CountedExactly(s: Segment, written: nat, wide: bool)
    requires written <= |s.asns|
    ensures Counted(s, written, wide) >= |Wire(Pieces(s, written), wide)| >= 2 + Size(|s.asns| - written, wide)
    ensures Counted(s, written, wide) == |Wire(Pieces(s, written), wide)| <==>
            |s.asns| - written <= AS_SEGMENT_MAX || (written == 0 && |s.asns| <= 2 * AS_SEGMENT_MAX)
    decreases |s.asns| - written
  {
    if |s.asns| - written > AS_SEGMENT_MAX {
      CountedExactly(s, written + AS_SEGMENT_MAX, wide);
      WireFirst(s.(asns := s.asns[..AS_SEGMENT_MAX]), Pieces(s, written + AS_SEGMENT_MAX), wide);
    } else {
      WireFirst(s.(asns := s.asns[written..]), [], wide);
    }
  }

  /** The value returned is the number of bytes written exactly when no segment has more than 510 numbers. */
  lemma {:induction false} CountedAllExactly(path: seq<Segment>, wide: bool)
    ensures CountedAll(path, wide) >= |Wire(AllPieces(path), wide)|
    ensures CountedAll(path, wide) == |Wire(AllPieces(path), wide)| <==>
            forall i :: 0 <= i < |path| ==> |path[i].asns| <= 2 * AS_SEGMENT_MAX
  {
    if path != [] {
      CountedAllExactly(path[1..], wide);
      CountedExactly(path[0], 0, wide);
      WireAppend(Pieces(path[0], 0), AllPieces(path[1..]), wide);
      assert forall i :: 1 <= i < |path| ==> path[i] == path[1..][i - 1];
      assert forall i :: 0 <= i < |path[1..]| ==> path[1..][i] == path[i + 1];
    }
  }

  /** With 511 numbers the value returned is too large. */
  lemma MiscountedAt511(wide: bool)
    ensures var path := [Segment(AsSequence, seq(511, i requires 0 <= i => i))];
            CountedAll(path, wide) > |Wire(AllPieces(path), wide)|
  {
    var path := [Segment(AsSequence, seq(511, i requires 0 <= i => i))];
    CountedAllExactly(path, wide);
    assert |path[0].asns| == 511;
  }

  // ----- writing

  /** One segment in pieces, followed by any sequences that fit into its last piece. */
  method PutSegment(path: seq<Segment>, i: nat, wide: bool, before: seq<Byte>)
    returns (out: seq<Byte>, bytes: nat, next: nat)
    requires i < |path|
    ensures i < next <= |path|
    ensures NoAdjacentSequences(path) ==>
              next == i + 1 && out == before + Wire(Pieces(path[i], 0), wide) && bytes == Counted(path[i], 0, wide)
  {
    var s := path[i];
    var written;
    out, bytes, written := PutFull(s, wide, before);
    var lenp := |out| + 1;
    var last := s.(asns := s.asns[written..]);
    WireFirst(last, [], wide);
    out := out + SegmentBytes(last, wide);
    var packed;
    out, packed, next := Pack(path, i, written, wide, out, lenp);
    bytes := bytes + 2 + Size(|s.asns| - written + packed, wide);
  }

  /** The full pieces of a segment with more than 255 numbers. */
  method PutFull(s: Segment, wide: bool, before: seq<Byte>) returns (out: seq<Byte>, bytes: nat, written: nat)
    ensures written <= |s.asns| && |s.asns| - written <= AS_SEGMENT_MAX
    ensures out + Wire(Pieces(s, written), wide) == before + Wire(Pieces(s, 0), wide)
    ensures bytes + Counted(s, written, wide) == Counted(s, 0, wide)
  {
    out, bytes, written := before, 0, 0;
    while |s.asns| - written > AS_SEGMENT_MAX
      invariant 0 <= written <= |s.asns|
      invariant out + Wire(Pieces(s, written), wide) == before + Wire(Pieces(s, 0), wide)
      invariant bytes + Counted(s, written, wide) == Counted(s, 0, wide)
      decreases |s.asns| - written
    {
      var piece := s.(asns := s.asns[..AS_SEGMENT_MAX]);
      WireFirst(piece, Pieces(s, written + AS_SEGMENT_MAX), wide);
      out := out + SegmentBytes(piece, wide);
      written := written + AS_SEGMENT_MAX;
      bytes := bytes + 2 + Size(written, wide);
    }
  }

  /** Add the sequences behind a sequence to its last piece, and correct the length written. */
  method Pack(path: seq<Segment>, i: nat, written: nat, wide: bool, before: seq<Byte>, lenp: nat)
    returns (out: seq<Byte>, packed: nat, next: nat)
    requires i < |path| && written <= |path[i].asns| && lenp < |before|
    ensures i < next <= |path|
    ensures NoAdjacentSequences(path) ==> next == i + 1 && out == before && packed == 0
  {
    out, packed, next := before, 0, i + 1;
    while next < |path| && Packable(path[i], path[next])
      invariant i < next <= |path| && lenp < |out|
      invariant NoAdjacentSequences(path) ==> next == i + 1 && out == before && packed == 0
    {
      out := out + Data(path[next].asns, wide);
      out := out[lenp := |path[i].asns| - written + |path[next].asns|];
      packed := packed + |path[next].asns|;
      next := next + 1;
    }
  }

  /** What is still to be written from segment `i` on, and to be counted. */
  ghost function Left(path: seq<Segment>, i: nat, wide: bool): (seq<Byte>, nat)
    requires i <= |path|
  {
    (Wire(AllPieces(path[i..]), wide), CountedAll(path[i..], wide))
  }

  lemma PutMore(path: seq<Segment>, i: nat, wide: bool)
    requires i < |path|
    ensures Left(path, i, wide).0 == Wire(Pieces(path[i], 0), wide) + Left(path, i + 1, wide).0
    ensures Left(path, i, wide).1 == Counted(path[i], 0, wide) + Left(path, i + 1, wide).1
    ensures |Left(path, i, wide).0| >= 2 + Size(|path[i].asns|, wide)
  {
    assert path[i..][1..] == path[i + 1..];
    WireAppend(Pieces(path[i], 0), AllPieces(path[i + 1..]), wide);
    CountedExactly(path[i], 0, wide);
  }

  ghost predicate Progress(path: seq<Segment>, i: nat, wide: bool, out: seq<Byte>, bytes: nat)
    requires i <= |path|
  {
    Left(path, 0, wide) == (out + Left(path, i, wide).0, bytes + Left(path, i, wide).1)
  }

  lemma PutStep(path: seq<Segment>, i: nat, wide: bool, out: seq<Byte>, bytes: nat)
    requires i < |path| && Progress(path, i, wide, out, bytes)
    ensures Progress(path, i + 1, wide, out + Wire(Pieces(path[i], 0), wide), bytes + Counted(path[i], 0, wide))
  {
    PutMore(path, i, wide);
    Associative(out, Wire(Pieces(path[i], 0), wide), Left(path, i + 1, wide).0);
  }

  /** With enough space the loop stops only at the end of the path. */
  lemma PutDone(path: seq<Segment>, i: nat, wide: bool, out: seq<Byte>, bytes: nat, space: nat)
    requires i <= |path| && Progress(path, i, wide, out, bytes) && space >= |Left(path, 0, wide).0|
    requires i < |path| ==> 2 + Size(|path[i].asns|, wide) > space - |out|
    ensures Left(path, 0, wide) == (out, bytes)
  {
    if i < |path| {
      PutMore(path, i, wide);
    } else {
      assert Left(path, i, wide) == ([], 0) && out + [] == out;
    }
  }

  /** `aspath_put`, into a stream with `space` bytes left. */
  method Put(path: seq<Segment>, wide: bool, space: nat) returns (out: seq<Byte>, bytes: nat)
    ensures NoAdjacentSequences(path) && space >= |Wire(Written(path), wide)| ==>
              && out == Wire(Written(path), wide)
              && bytes == (if path == [] || path[0].asns == [] then 0 else CountedAll(path, wide))
  {
    if path == [] || |path[0].asns| == 0 {
      return [], 0;
    }
    out, bytes := PutAll(path, wide, space);
    assert path[0..] == path;
  }

  method PutAll(path: seq<Segment>, wide: bool, space: nat) returns (out: seq<Byte>, bytes: nat)
    ensures NoAdjacentSequences(path) && space >= |Left(path, 0, wide).0| ==> (out, bytes) == Left(path, 0, wide)
  {
    out, bytes := [], 0;
    ghost var fine := NoAdjacentSequences(path) && space >= |Left(path, 0, wide).0|;
    var i := 0;
    assert [] + Left(path, 0, wide).0 == Left(path, 0, wide).0;
    while i < |path| && 2 + Size(|path[i].asns|, wide) <= space - |out|
      invariant i <= |path|
      invariant fine ==> Progress(path, i, wide, out, bytes)
      decreases |path| - i
    {
      out, bytes, i := PutNext(path, i, wide, out, bytes);
    }
    if fine {
      PutDone(path, i, wide, out, bytes, space);
    }
  }

  method PutNext(path: seq<Segment>, i: nat, wide: bool, before: seq<Byte>, counted: nat)
    returns (out: seq<Byte>, bytes: nat, next: nat)
    requires i < |path|
    ensures i < next <= |path|
    ensures NoAdjacentSequences(path) && Progress(path, i, wide, before, counted) ==>
              Progress(path, next, wide, out, bytes)
  {
    if Progress(path, i, wide, before, counted) {
      PutStep(path, i, wide, before, counted);
    }
    out, bytes, next := PutSegment(path, i, wide, before);
    bytes := counted + bytes;
  }

  // ----- reading

  /** The segments read so far, in front of those still to come. */
  function Before(segments: seq<Segment>, rest: Option<seq<Segment>>): Option<seq<Segment>> {
    if rest.None? then None else Some(segments + rest.value)
  }

  lemma BeforeNothing(rest: Option<seq<Segment>>)
    ensures Before([], rest) == rest
  {
    if rest.Some? {
      assert [] + rest.value == rest.value;
    }
  }

  lemma BeforeTwice(segments: seq<Segment>, s: Segment, rest: Option<seq<Segment>>)
    ensures Before(segments, Before([s], rest)) == Before(segments + [s], rest)
  {
    if rest.Some? {
      assert segments + ([s] + rest.value) == (segments + [s]) + rest.value;
    }
  }

  lemma ParseMore(b: seq<Byte>, i: nat, wide: bool)
    requires i < |b|
    ensures var head := ParseHead(b[i..], wide);
            ParseSegments(b[i..], wide) ==
            if head.None? then None else Before([head.value.0], ParseSegments(b[i + head.value.1..], wide))
  {
    var head := ParseHead(b[i..], wide);
    if head.Some? {
      assert b[i..][head.value.1..] == b[i + head.value.1..];
    }
  }

  /** `assegments_parse`. */
  method ParseStream(b: seq<Byte>, wide: bool) returns (r: Option<seq<Segment>>)
    ensures r == Parse(b, wide)
  {
    if |b| % 2 != 0 {
      return None;
    }
    var segments := ReadSegments(b, wide);
    if segments.None? {
      return None;
    }
    var normal := NormaliseSegments(segments.value);
    r := Some(normal);
  }

  method ReadSegments(b: seq<Byte>, wide: bool) returns (r: Option<seq<Segment>>)
    ensures r == ParseSegments(b, wide)
  {
    var segments, bytes := [], 0;
    assert b[0..] == b;
    BeforeNothing(ParseSegments(b, wide));
    while bytes < |b|
      invariant bytes <= |b|
      invariant ParseSegments(b, wide) == Before(segments, ParseSegments(b[bytes..], wide))
    {
      var head := ReadOne(b, bytes, wide);
      if head.None? {
        return None;
      }
      BeforeTwice(segments, head.value.0, ParseSegments(b[head.value.1..], wide));
      segments := segments + [head.value.0];
      bytes := head.value.1;
    }
    assert b[bytes..] == [] && segments + [] == segments;
    r := Some(segments);
  }

  /** The segment at `i` and where the next one starts. */
  method ReadOne(b: seq<Byte>, i: nat, wide: bool) returns (r: Option<(Segment, nat)>)
    requires i < |b|
    ensures r.Some? ==> i < r.value.1 <= |b|
    ensures ParseSegments(b[i..], wide) ==
            if r.None? then None else Before([r.value.0], ParseSegments(b[r.value.1..], wide))
  {
    ParseMore(b, i, wide);
    var head := ParseHead(b[i..], wide);
    r := if head.None? then None else Some((head.value.0, i + head.value.1));
  }
}
