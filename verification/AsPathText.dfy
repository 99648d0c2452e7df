/**
 * AS paths as text (`aspath_make_str_count`, `aspath_gettoken` and `aspath_str2aspath` of
 * bgpd/bgp_aspath.c): what is printed, the buffer it is printed into, and reading it back.
 */
module AsPathText {
  import opened Basics
  import opened AsPath
  import opened AsPathMeaning

  const MODULUS := 0x1_0000_0000

  // ----- numbers

  function Digit(d: nat): char
    requires d < 10
  {
    ('0' as int + d) as char
  }

  predicate IsDigit(c: char) { '0' <= c <= '9' }

  function Value(c: char): nat
    requires IsDigit(c)
  {
    c as int - '0' as int
  }

  function Decimal(n: nat): (r: string)
    ensures r != [] && forall i :: 0 <= i < |r| ==> IsDigit(r[i])
  {
    if n < 10 then [Digit(n)] else Decimal(n / 10) + [Digit(n % 10)]
  }

  function Power10(k: nat): nat {
    if k == 0 then 1 else 10 * Power10(k - 1)
  }

  lemma {:induction false} DecimalLength(n: nat, k: nat)
    requires k > 0 && n < Power10(k)
    ensures |Decimal(n)| <= k
  {
    if n >= 10 {
      assert k > 1 by {
        assert Power10(1) == 10 * Power10(0);
      }
      DecimalLength(n / 10, k - 1);
    }
  }

  /** An AS number takes at most ten characters. */
  lemma AsnLength(n: Asn)
    ensures |Decimal(n)| <= 10
  {
    assert Power10(5) == 100000;
    assert Power10(10) == 10 * (10 * (10 * (10 * (10 * Power10(5)))));
    DecimalLength(n, 10);
  }

  /** Reading digits, in the arithmetic of 32 bits. */
  function ReadNumber(s: string, acc: nat): (nat, string) {
    if s != [] && IsDigit(s[0]) then ReadNumber(s[1..], (10 * acc + Value(s[0])) % MODULUS) else (acc, s)
  }

  predicate StartsNoDigit(s: string) {
    s != [] ==> !IsDigit(s[0])
  }

  function Fold(ds: string, acc: nat): nat
    requires forall i :: 0 <= i < |ds| ==> IsDigit(ds[i])
  {
    if ds == [] then acc else Fold(ds[1..], (10 * acc + Value(ds[0])) % MODULUS)
  }

  lemma {:induction false} ReadDigits(ds: string, rest: string, acc: nat)
    requires forall i :: 0 <= i < |ds| ==> IsDigit(ds[i])
    requires StartsNoDigit(rest)
    ensures ReadNumber(ds + rest, acc) == (Fold(ds, acc), rest)
    decreases |ds|
  {
    if ds == [] {
      assert ds + rest == rest;
    } else {
      assert (ds + rest)[1..] == ds[1..] + rest;
      ReadDigits(ds[1..], rest, (10 * acc + Value(ds[0])) % MODULUS);
    }
  }

  lemma {:induction false} FoldLast(ds: string, c: char, acc: nat)
    requires IsDigit(c) && forall i :: 0 <= i < |ds| ==> IsDigit(ds[i])
    ensures Fold(ds + [c], acc) == (10 * Fold(ds, acc) + Value(c)) % MODULUS
    decreases |ds|
  {
    if ds == [] {
      assert ds + [c] == [c] && [c][1..] == [];
    } else {
      assert (ds + [c])[1..] == ds[1..] + [c];
      FoldLast(ds[1..], c, (10 * acc + Value(ds[0])) % MODULUS);
    }
  }

  lemma {:induction false} FoldDecimal(n: nat)
    requires n < MODULUS
    ensures Fold(Decimal(n), 0) == n
  {
    if n < 10 {
      assert [Digit(n)][1..] == [];
    } else {
      FoldDecimal(n / 10);
      FoldLast(Decimal(n / 10), Digit(n % 10), 0);
    }
  }

  /** The number printed is the number read; 32 bits are enough on the way. */
  lemma NumberRoundTrip(n: Asn, rest: string)
    requires StartsNoDigit(rest)
    ensures ReadNumber(Decimal(n) + rest, 0) == (n, rest)
  {
    ReadDigits(Decimal(n), rest, 0);
    FoldDecimal(n);
  }

  // ----- printing

  function Opening(k: Kind): string {
    match k
    case AsSet => "{"
    case AsConfedSet => "["
    case AsConfedSequence => "("
    case AsSequence => ""
  }

  function Closing(k: Kind): string {
    match k
    case AsSet => "}"
    case AsConfedSet => "]"
    case AsConfedSequence => ")"
    case AsSequence => ""
  }

  function Separator(k: Kind): char { if IsSet(k) then ',' else ' ' }

  function PrintAsns(asns: seq<Asn>, separator: char): string {
    if asns == [] then ""
    else if |asns| == 1 then Decimal(asns[0])
    else Decimal(asns[0]) + [separator] + PrintAsns(asns[1..], separator)
  }

  function PrintSegment(s: Segment): string {
    Opening(s.kind) + PrintAsns(s.asns, Separator(s.kind)) + Closing(s.kind)
  }

  function Print(path: seq<Segment>): string {
    if path == [] then ""
    else PrintSegment(path[0]) + (if |path| == 1 then "" else " " + Print(path[1..]))
  }

  // ----- tokens

  datatype Token = Number(n: nat) | Open(kind: Kind) | Close(kind: Kind) | Unknown

  predicate IsSeparator(c: char) {
    c == ' ' || c == ',' || 9 <= c as int <= 13
  }

  function Bracket(c: char): Option<Token> {
    match c
    case '{' => Some(Open(AsSet))
    case '}' => Some(Close(AsSet))
    case '(' => Some(Open(AsConfedSequence))
    case ')' => Some(Close(AsConfedSequence))
    case '[' => Some(Open(AsConfedSet))
    case ']' => Some(Close(AsConfedSet))
    case _ => None
  }

  lemma ReadNumberShrinks(s: string, acc: nat)
    ensures |ReadNumber(s, acc).1| <= |s|
    decreases |s|
  {
  }

  /** `aspath_gettoken`, until the end of the string or a character it does not know. */
  function Tokens(s: string): seq<Token>
    decreases |s|
  {
    if s == [] || s[0] == '\0' then []
    else if IsSeparator(s[0]) then Tokens(s[1..])
    else if Bracket(s[0]).Some? then [Bracket(s[0]).value] + Tokens(s[1..])
    else if IsDigit(s[0]) then
      ReadNumberShrinks(s[1..], Value(s[0]));
      var (n, rest) := ReadNumber(s, 0);
      [Number(n)] + Tokens(rest)
    else [Unknown]
  }

  function Numbers(asns: seq<Asn>): (r: seq<Token>)
    ensures |r| == |asns|
  {
    seq(|asns|, i requires 0 <= i < |asns| => Number(asns[i]))
  }

  function SegmentTokens(s: Segment): seq<Token> {
    if s.kind.AsSequence? then Numbers(s.asns) else [Open(s.kind)] + Numbers(s.asns) + [Close(s.kind)]
  }

  function PathTokens(path: seq<Segment>): seq<Token> {
    if path == [] then [] else SegmentTokens(path[0]) + PathTokens(path[1..])
  }

  lemma TokensNumber(n: Asn, rest: string)
    requires StartsNoDigit(rest)
    ensures Tokens(Decimal(n) + rest) == [Number(n)] + Tokens(rest)
  {
    var s := Decimal(n) + rest;
    assert s[0] == Decimal(n)[0] && IsDigit(s[0]);
    NumberRoundTrip(n, rest);
  }

  lemma TokensChar(c: char, rest: string)
    requires IsSeparator(c) || Bracket(c).Some?
    ensures Tokens([c] + rest) == (if IsSeparator(c) then [] else [Bracket(c).value]) + Tokens(rest)
  {
    assert ([c] + rest)[1..] == rest;
  }

  lemma TokensListed(n: Asn, separator: char, rest: string)
    requires IsSeparator(separator)
    ensures Tokens(Decimal(n) + ([separator] + rest)) == [Number(n)] + Tokens(rest)
  {
    TokensNumber(n, [separator] + rest);
    TokensChar(separator, rest);
  }

  lemma PrintMore(asns: seq<Asn>, separator: char, rest: string)
    requires |asns| > 1
    ensures PrintAsns(asns, separator) + rest
            == Decimal(asns[0]) + ([separator] + (PrintAsns(asns[1..], separator) + rest))
  {
  }

  lemma NumbersCons(asns: seq<Asn>, more: seq<Token>)
    requires asns != []
    ensures Numbers(asns) + more == [Number(asns[0])] + (Numbers(asns[1..]) + more)
  {
  }

  lemma {:induction false} TokensAsns(asns: seq<Asn>, separator: char, rest: string)
    requires IsSeparator(separator) && StartsNoDigit(rest)
    ensures Tokens(PrintAsns(asns, separator) + rest) == Numbers(asns) + Tokens(rest)
  {
    if asns == [] {
      assert PrintAsns(asns, separator) + rest == rest;
    } else {
      NumbersCons(asns, Tokens(rest));
      if |asns| == 1 {
        TokensNumber(asns[0], rest);
        assert Numbers(asns[1..]) + Tokens(rest) == Tokens(rest);
      } else {
        TokensAsns(asns[1..], separator, rest);
        TokensListed(asns[0], separator, PrintAsns(asns[1..], separator) + rest);
        PrintMore(asns, separator, rest);
      }
    }
  }

  lemma TokensBracketed(s: Segment, o: char, c: char, rest: string)
    requires !s.kind.AsSequence? && Opening(s.kind) == [o] && Closing(s.kind) == [c]
    requires Bracket(o) == Some(Open(s.kind)) && Bracket(c) == Some(Close(s.kind))
    ensures Tokens([o] + (PrintAsns(s.asns, Separator(s.kind)) + ([c] + rest))) ==
            [Open(s.kind)] + (Numbers(s.asns) + ([Close(s.kind)] + Tokens(rest)))
  {
    TokensChar(c, rest);
    TokensAsns(s.asns, Separator(s.kind), [c] + rest);
    TokensChar(o, PrintAsns(s.asns, Separator(s.kind)) + ([c] + rest));
  }

  lemma TokensSegment(s: Segment, rest: string)
    requires StartsNoDigit(rest)
    ensures Tokens(PrintSegment(s) + rest) == SegmentTokens(s) + Tokens(rest)
  {
    var body := PrintAsns(s.asns, Separator(s.kind));
    if s.kind.AsSequence? {
      assert PrintSegment(s) + rest == body + rest;
      TokensAsns(s.asns, ' ', rest);
    } else {
      PrintBracketed(s, rest);
      TokensBracketed(s, Opening(s.kind)[0], Closing(s.kind)[0], rest);
      BracketedTokens(s, Tokens(rest));
    }
  }

  lemma PrintBracketed(s: Segment, rest: string)
    requires !s.kind.AsSequence?
    ensures PrintSegment(s) + rest
            == [Opening(s.kind)[0]] + (PrintAsns(s.asns, Separator(s.kind)) + ([Closing(s.kind)[0]] + rest))
  {
  }

  lemma BracketedTokens(s: Segment, ts: seq<Token>)
    requires !s.kind.AsSequence?
    ensures SegmentTokens(s) + ts == [Open(s.kind)] + (Numbers(s.asns) + ([Close(s.kind)] + ts))
  {
  }

  /** The tokens of a printed path are those of its segments. */
  lemma {:induction false} TokensPath(path: seq<Segment>)
    ensures Tokens(Print(path)) == PathTokens(path)
  {
    if path != [] {
      TokensPath(path[1..]);
      var rest := if |path| == 1 then "" else " " + Print(path[1..]);
      if |path| > 1 {
        TokensChar(' ', Print(path[1..]));
      }
      TokensSegment(path[0], rest);
    }
  }

  // ----- building a path from tokens

  function AddNumber(path: seq<Segment>, n: nat): seq<Segment> {
    if path == [] then path
    else
      var last := path[|path| - 1];
      path[..|path| - 1] + [last.(asns := last.asns + [n % MODULUS])]
  }

  /** `aspath_str2aspath`: the path so far, and whether the next number needs a new sequence. */
  function Build(ts: seq<Token>, path: seq<Segment>, needType: bool): Option<seq<Segment>>
    decreases |ts|
  {
    if ts == [] then Some(path)
    else
      match ts[0]
      case Number(n) =>
        Build(ts[1..], AddNumber(if needType then path + [Segment(AsSequence, [])] else path, n), false)
      case Open(k) => Build(ts[1..], path + [Segment(k, [])], false)
      case Close(_) => Build(ts[1..], path, true)
      case Unknown => None
  }

  function Read(s: string): Option<seq<Segment>> {
    Build(Tokens(s), [], true)
  }

  /** What is read back: empty sequences are gone, and sequences next to each other are one. */
  function Legible(path: seq<Segment>): seq<Segment> {
    if path == [] then []
    else if EmptySequence(path[0]) then Legible(path[1..])
    else Join(path[0], Legible(path[1..]))
  }

  lemma BuildNumber(n: Asn, ts: seq<Token>, path: seq<Segment>, last: Segment)
    ensures Build([Number(n)] + ts, path + [last], false) == Build(ts, path + [last.(asns := last.asns + [n])], false)
  {
    assert ([Number(n)] + ts)[1..] == ts;
    assert (path + [last])[..|path|] == path;
  }

  lemma {:induction false} BuildNumbers(asns: seq<Asn>, ts: seq<Token>, path: seq<Segment>, last: Segment)
    ensures Build(Numbers(asns) + ts, path + [last], false)
            == Build(ts, path + [last.(asns := last.asns + asns)], false)
    decreases |asns|
  {
    if asns == [] {
      assert Numbers(asns) + ts == ts && last.asns + asns == last.asns;
    } else {
      NumbersCons(asns, ts);
      BuildNumber(asns[0], Numbers(asns[1..]) + ts, path, last);
      BuildNumbers(asns[1..], ts, path, last.(asns := last.asns + [asns[0]]));
      assert last.asns + [asns[0]] + asns[1..] == last.asns + asns;
    }
  }

  /** The first number of a sequence opens it. */
  lemma BuildSequence(asns: seq<Asn>, ts: seq<Token>, path: seq<Segment>)
    requires asns != []
    ensures Build(Numbers(asns) + ts, path, true) == Build(ts, path + [Segment(AsSequence, asns)], false)
  {
    NumbersCons(asns, ts);
    var rest := Numbers(asns[1..]) + ts;
    assert ([Number(asns[0])] + rest)[1..] == rest;
    assert (path + [Segment(AsSequence, [])])[..|path|] == path && [] + [asns[0]] == [asns[0]];
    assert AddNumber(path + [Segment(AsSequence, [])], asns[0]) == path + [Segment(AsSequence, [asns[0]])];
    BuildNumbers(asns[1..], ts, path, Segment(AsSequence, [asns[0]]));
    assert [asns[0]] + asns[1..] == asns;
  }

  lemma BuildBracketed(s: Segment, ts: seq<Token>, path: seq<Segment>, needType: bool)
    requires !s.kind.AsSequence?
    ensures Build(SegmentTokens(s) + ts, path, needType) == Build(ts, path + [s], true)
  {
    var close := [Close(s.kind)] + ts;
    var rest := Numbers(s.asns) + close;
    assert SegmentTokens(s) + ts == [Open(s.kind)] + rest;
    assert ([Open(s.kind)] + rest)[1..] == rest;
    BuildNumbers(s.asns, close, path, Segment(s.kind, []));
    assert [] + s.asns == s.asns && close[1..] == ts;
  }

  /** With a sequence still open at the end of `path`, or without. */
  lemma {:induction false} BuildPath(path: seq<Segment>, done: seq<Segment>, open: Segment)
    ensures Build(PathTokens(path), done, true) == Some(done + Legible(path))
    ensures open.kind.AsSequence? ==>
              Build(PathTokens(path), done + [open], false) == Some(done + Join(open, Legible(path)))
    decreases |path|
  {
    if path == [] {
      assert done + [] == done && Join(open, []) == [open];
    } else {
      var s, rest := path[0], path[1..];
      var ts := PathTokens(rest);
      if EmptySequence(s) {
        assert PathTokens(path) == ts;
        BuildPath(rest, done, open);
      } else if s.kind.AsSequence? {
        BuildSequence(s.asns, ts, done);
        BuildPath(rest, done, s);
        if open.kind.AsSequence? {
          var joined := open.(asns := open.asns + s.asns);
          BuildNumbers(s.asns, ts, done, open);
          BuildPath(rest, done, joined);
          JoinTwice(open, s, Legible(rest));
        }
      } else {
        BuildPath(rest, done + [s], open);
        BuildPath(rest, done + [open] + [s], open);
        BuildAfter(s, rest, done, open);
      }
    }
  }

  lemma BuildAfter(s: Segment, rest: seq<Segment>, done: seq<Segment>, open: Segment)
    requires !s.kind.AsSequence?
    requires Build(PathTokens(rest), done + [s], true) == Some(done + [s] + Legible(rest))
    requires Build(PathTokens(rest), done + [open] + [s], true) == Some(done + [open] + [s] + Legible(rest))
    ensures Build(SegmentTokens(s) + PathTokens(rest), done, true) == Some(done + Join(s, Legible(rest)))
    ensures open.kind.AsSequence? ==>
              Build(SegmentTokens(s) + PathTokens(rest), done + [open], false)
                == Some(done + Join(open, Join(s, Legible(rest))))
  {
    BuildBracketed(s, PathTokens(rest), done, true);
    BuildBracketed(s, PathTokens(rest), done + [open], false);
    assert (done + [s]) + Legible(rest) == done + ([s] + Legible(rest));
    assert (done + [open] + [s]) + Legible(rest) == done + ([open] + ([s] + Legible(rest)));
  }

  /** Printing a path and reading it again. */
  lemma ReadPrinted(path: seq<Segment>)
    ensures Read(Print(path)) == Some(Legible(path))
  {
    TokensPath(path);
    BuildPath(path, [], Segment(AsSet, []));
    assert [] + Legible(path) == Legible(path);
  }

  lemma {:induction false} LegibleShape(path: seq<Segment>)
    ensures NoEmptySequence(Legible(path)) && NoAdjacentSequences(Legible(path))
  {
    if path != [] {
      LegibleShape(path[1..]);
    }
  }

  lemma {:induction false} LegibleSame(path: seq<Segment>)
    requires NoEmptySequence(path) && NoAdjacentSequences(path)
    ensures Legible(path) == path
  {
    if path != [] {
      assert !EmptySequence(path[0]);
      assert |path| > 1 && path[0].kind.AsSequence? ==> !path[1].kind.AsSequence?;
      LegibleSame(path[1..]);
      assert path == [path[0]] + path[1..];
    }
  }

  /** The same segments come back exactly when no sequence is empty or next to another. */
  lemma TextRoundTripExactly(path: seq<Segment>)
    ensures Read(Print(path)) == Some(path) <==> NoEmptySequence(path) && NoAdjacentSequences(path)
  {
    ReadPrinted(path);
    LegibleShape(path);
    if NoEmptySequence(path) && NoAdjacentSequences(path) {
      LegibleSame(path);
    }
  }

  // ----- the buffer

  const ASN_STR_LEN := 10 + 1
  const ASPATH_STR_DEFAULT_LEN := 32

  lemma {:induction false} AsnsLength(asns: seq<Asn>, separator: char)
    ensures |PrintAsns(asns, separator)| <= if asns == [] then 0 else ASN_STR_LEN * |asns| - 1
  {
    if asns != [] {
      AsnLength(asns[0]);
      if |asns| > 1 {
        AsnsLength(asns[1..], separator);
      }
    }
  }

  /** The room `SEGMENT_STR_LEN` provides. */
  function SegmentRoom(s: Segment): nat { ASN_STR_LEN * |s.asns| + 2 + 1 + 1 }

  lemma SegmentFits(s: Segment)
    ensures |PrintSegment(s)| + 1 < SegmentRoom(s)
  {
    AsnsLength(s.asns, Separator(s.kind));
  }

  /** `assegment_count_asns`. */
  function CountAsns(path: seq<Segment>): nat {
    if path == [] then 0 else |path[0].asns| + CountAsns(path[1..])
  }

  /** Print into the buffer; there is room, also for the terminating zero, so nothing is cut off. */
  method Write(buf: array<char>, len: nat, s: string) returns (end: nat)
    requires len + |s| < buf.Length
    modifies buf
    ensures end == len + |s| && buf[..end] == old(buf[..len]) + s
  {
    for i := 0 to |s|
      invariant buf[..len + i] == old(buf[..len]) + s[..i]
    {
      buf[len + i] := s[i];
    }
    end := len + |s|;
  }

  /** Make the buffer large enough for another segment. */
  method Grow(buf: array<char>, len: nat, s: Segment) returns (r: array<char>)
    requires len < buf.Length
    ensures len + SegmentRoom(s) <= r.Length && r[..len] == buf[..len]
    ensures r == buf || fresh(r)
  {
    r := buf;
    if len + SegmentRoom(s) > buf.Length {
      r := new char[len + SegmentRoom(s)];
      forall i | 0 <= i < len {
        r[i] := buf[i];
      }
    }
  }

  method WriteSegment(buf: array<char>, start: nat, s: Segment) returns (len: nat)
    requires start + |PrintSegment(s)| < buf.Length
    modifies buf
    ensures len == start + |PrintSegment(s)| && buf[..len] == old(buf[..start]) + PrintSegment(s)
  {
    ghost var whole := old(buf[..start]) + PrintSegment(s);
    len := Write(buf, start, Opening(s.kind));
    len := WriteAsns(buf, len, s.asns, Separator(s.kind));
    len := Write(buf, len, Closing(s.kind));
    assert buf[..len] == whole;
  }

  method WriteAsns(buf: array<char>, start: nat, asns: seq<Asn>, separator: char) returns (len: nat)
    requires start + |PrintAsns(asns, separator)| < buf.Length
    modifies buf
    ensures len == start + |PrintAsns(asns, separator)| && buf[..len] == old(buf[..start]) + PrintAsns(asns, separator)
  {
    ghost var whole := buf[..start] + PrintAsns(asns, separator);
    len := start;
    assert asns[0..] == asns;
    for i := 0 to |asns|
      invariant len <= |whole| < buf.Length && buf[..len] + PrintAsns(asns[i..], separator) == whole
    {
      assert asns[i..][1..] == asns[i + 1..];
      len := Write(buf, len, Decimal(asns[i]));
      if i < |asns| - 1 {
        len := Write(buf, len, [separator]);
      }
    }
  }

  /** `aspath_make_str_count`. */
  method MakeStr(path: seq<Segment>) returns (buf: array<char>, len: nat)
    ensures fresh(buf) && len < buf.Length && buf[..len] == Print(path) && buf[len] == '\0'
  {
    len := 0;
    if path == [] {
      buf := new char[1];
      buf[0] := '\0';
      return;
    }
    var count := CountAsns(path);
    var size := count * ASN_STR_LEN + 2 + 1;
    buf := new char[if size < ASPATH_STR_DEFAULT_LEN then ASPATH_STR_DEFAULT_LEN else size];
    ghost var text := "";
    assert path[0..] == path && "" + Print(path) == Print(path);
    for i := 0 to |path|
      invariant fresh(buf) && len < buf.Length && buf[..len] == text
      invariant Printed(path, i, text)
    {
      PrintNext(path, i, text);
      buf, len := WritePart(buf, len, path, i);
      text := text + PrintPart(path, i);
    }
    PrintDone(path, text);
    buf[len] := '\0';
  }

  /** `text` is what is printed before segment `i`. */
  ghost predicate Printed(path: seq<Segment>, i: nat, text: string)
    requires i <= |path|
  {
    text + Print(path[i..]) == Print(path)
  }

  lemma PrintDone(path: seq<Segment>, text: string)
    requires Printed(path, |path|, text)
    ensures text == Print(path)
  {
    assert path[|path|..] == [] && text + "" == text;
  }

  method WritePart(room: array<char>, start: nat, path: seq<Segment>, i: nat) returns (buf: array<char>, len: nat)
    requires start < room.Length && i < |path|
    modifies room
    ensures len < buf.Length && buf[..len] == old(room[..start]) + PrintPart(path, i)
    ensures buf == room || fresh(buf)
  {
    SegmentFits(path[i]);
    buf := Grow(room, start, path[i]);
    len := WriteSegment(buf, start, path[i]);
    if i < |path| - 1 {
      len := Write(buf, len, " ");
    }
  }

  /** A segment with the space that follows it. */
  function PrintPart(path: seq<Segment>, i: nat): string
    requires i < |path|
  {
    PrintSegment(path[i]) + (if i < |path| - 1 then " " else "")
  }

  lemma PrintNext(path: seq<Segment>, i: nat, text: string)
    requires i < |path| && Printed(path, i, text)
    ensures Printed(path, i + 1, text + PrintPart(path, i))
  {
    var s, rest := PrintSegment(path[i]), Print(path[i + 1..]);
    assert path[i..][1..] == path[i + 1..];
    if i < |path| - 1 {
      Associative(s, " ", rest);
      Associative(text, s + " ", rest);
    } else {
      assert rest == "" && text + (s + "") + "" == text + (s + "");
    }
  }

  // ----- the reader

  /** `aspath_gettoken`: the next token after `start`, and where it ends; none at the end of the string. */
  method GetToken(s: string, start: nat) returns (token: Option<Token>, i: nat)
    requires start <= |s|
    ensures start <= i <= |s|
    ensures token.None? ==> Tokens(s[start..]) == []
    ensures token == Some(Unknown) ==> Tokens(s[start..]) == [Unknown]
    ensures token.Some? && !token.value.Unknown? ==>
              start < i && Tokens(s[start..]) == [token.value] + Tokens(s[i..])
  {
    i := start;
    while i < |s| && s[i] != '\0' && IsSeparator(s[i])
      invariant start <= i <= |s|
      invariant Tokens(s[start..]) == Tokens(s[i..])
    {
      assert s[i..][1..] == s[i + 1..];
      i := i + 1;
    }
    if i == |s| || s[i] == '\0' {
      return None, i;
    }
    assert s[i..][1..] == s[i + 1..];
    token := Bracket(s[i]);
    if token.Some? {
      i := i + 1;
    } else if IsDigit(s[i]) {
      var n;
      n, i := GetNumber(s, i);
      token := Some(Number(n));
    } else {
      token := Some(Unknown);
    }
  }

  method GetNumber(s: string, start: nat) returns (n: nat, i: nat)
    requires start < |s| && IsDigit(s[start])
    ensures start < i <= |s| && ReadNumber(s[start..], 0) == (n, s[i..])
  {
    n, i := Value(s[start]), start + 1;
    assert s[start..][1..] == s[i..];
    while i < |s| && IsDigit(s[i])
      invariant start < i <= |s|
      invariant ReadNumber(s[start..], 0) == ReadNumber(s[i..], n)
    {
      assert s[i..][1..] == s[i + 1..];
      n := (10 * n + Value(s[i])) % MODULUS;
      i := i + 1;
    }
  }

  /** `aspath_str2aspath`. */
  method Str2AsPath(s: string) returns (r: Option<seq<Segment>>)
    ensures r == Read(s)
  {
    var path: seq<Segment>, needType, i := [], true, 0;
    assert s[0..] == s;
    while true
      invariant i <= |s|
      invariant Read(s) == Build(Tokens(s[i..]), path, needType)
      decreases |s| - i
    {
      var token, next := GetToken(s, i);
      if token.None? {
        return Some(path);
      }
      ghost var rest := Tokens(s[next..]);
      assert !token.value.Unknown? ==> ([token.value] + rest)[1..] == rest;
      match token.value {
        case Number(n) =>
          if needType {
            path, needType := path + [Segment(AsSequence, [])], false;
          }
          path := AddNumber(path, n);
        case Open(k) =>
          path, needType := path + [Segment(k, [])], false;
        case Close(_) =>
          needType := true;
        case Unknown =>
          return None;
      }
      i := next;
    }
  }
}
