/**
 * Flushing the buffered updates of an interface (`flushupdates` and `compare_buffered_updates`
 * of babeld/message.c): the prefixes waiting to be advertised are sorted, repetitions are
 * skipped by looking at the previous one only, and each is announced, withheld or retracted.
 */
module FlushUpdates {
  import opened Basics
  import opened Wire

  datatype Entry = Entry(prefix: Address, plen: nat, id: RouterId)

  function PrefixOf(e: Entry): Prefix { Prefix(e.prefix, e.plen) }

  // ----- the order

  predicate V4(e: Entry) {
    e.plen >= 96 && V4Mapped(e.prefix)
  }

  predicate HostRoute(e: Entry) {
    !V4(e) && e.plen == 128 && e.prefix[8..] == e.id
  }

  /** `compare_buffered_updates`. */
  function Compare(a: Entry, b: Entry): int {
    var rc := Lex(a.id, b.id);
    if rc != 0 then rc
    else if V4(a) && !V4(b) then 1
    else if !V4(a) && V4(b) then -1
    else if HostRoute(a) && !HostRoute(b) then -1
    else if HostRoute(b) && !HostRoute(a) then 1
    else if a.plen < b.plen then 1
    else if a.plen > b.plen then -1
    else Lex(a.prefix, b.prefix)
  }

  /** The comparison is a total order: zero exactly on equal entries. */
  lemma CompareIsAnOrder(a: Entry, b: Entry, c: Entry)
    ensures Compare(a, b) == 0 <==> a == b
    ensures Compare(a, b) < 0 <==> Compare(b, a) > 0
    ensures Compare(a, b) <= 0 && Compare(b, c) <= 0 ==> Compare(a, c) <= 0
  {
    LexIsAnOrder(a.id, b.id, c.id);
    LexIsAnOrder(b.id, c.id, a.id);
    LexIsAnOrder(a.id, c.id, b.id);
    LexIsAnOrder(a.prefix, b.prefix, c.prefix);
  }

  predicate Sorted(s: seq<Entry>) {
    forall i, j :: 0 <= i <= j < |s| ==> Compare(s[i], s[j]) <= 0
  }

  /** What `qsort` computes; `SortUnique` shows there is nothing to choose. */
  function Sort(s: seq<Entry>): (r: seq<Entry>)
    ensures Sorted(r) && multiset(r) == multiset(s)
  {
    if s == [] then []
    else
      assert s == [s[0]] + s[1..];
      Insert(s[0], Sort(s[1..]))
  }

  function Insert(e: Entry, s: seq<Entry>): (r: seq<Entry>)
    requires Sorted(s)
    ensures Sorted(r) && multiset(r) == multiset{e} + multiset(s)
  {
    if s == [] then
      CompareIsAnOrder(e, e, e);
      [e]
    else if Compare(e, s[0]) <= 0 then
      InsertFront(e, s);
      [e] + s
    else
      assert s == [s[0]] + s[1..];
      var r := Insert(e, s[1..]);
      InsertBehind(e, s, r);
      [s[0]] + r
  }

  lemma InsertFront(e: Entry, s: seq<Entry>)
    requires s != [] && Sorted(s) && Compare(e, s[0]) <= 0
    ensures Sorted([e] + s)
  {
    CompareIsAnOrder(e, e, e);
    forall j | 0 <= j < |s| ensures Compare(e, s[j]) <= 0 {
      CompareIsAnOrder(e, s[0], s[j]);
    }
  }

  lemma InsertBehind(e: Entry, s: seq<Entry>, r: seq<Entry>)
    requires s != [] && Sorted(s) && Compare(e, s[0]) > 0
    requires Sorted(r) && multiset(r) == multiset{e} + multiset(s[1..])
    ensures Sorted([s[0]] + r)
  {
    CompareIsAnOrder(s[0], e, e);
    CompareIsAnOrder(e, s[0], s[0]);
    CompareIsAnOrder(s[0], s[0], s[0]);
    forall j | 0 <= j < |r| ensures Compare(s[0], r[j]) <= 0 {
      assert r[j] in multiset(r);
      assert r[j] == e || r[j] in s[1..];
    }
  }

  lemma SmallestFirst(s: seq<Entry>, e: Entry)
    requires s != [] && Sorted(s) && e in multiset(s)
    ensures Compare(s[0], e) <= 0
  {
  }

  lemma TailOf(s: seq<Entry>)
    requires s != []
    ensures multiset(s[1..]) == multiset(s) - multiset{s[0]}
  {
    assert s == [s[0]] + s[1..];
  }

  lemma SameLength(a: seq<Entry>, b: seq<Entry>)
    requires multiset(a) == multiset(b)
    ensures |a| == |b|
  {
    assert |multiset(a)| == |a| && |multiset(b)| == |b|;
  }

  lemma SameFirst(a: seq<Entry>, b: seq<Entry>)
    requires Sorted(a) && Sorted(b) && multiset(a) == multiset(b) && a != [] && b != []
    ensures a[0] == b[0]
  {
    assert a[0] in multiset(a) && b[0] in multiset(b);
    SmallestFirst(a, b[0]);
    SmallestFirst(b, a[0]);
    CompareIsAnOrder(a[0], b[0], b[0]);
  }

  lemma SortedTail(s: seq<Entry>)
    requires s != [] && Sorted(s)
    ensures Sorted(s[1..])
  {
  }

  lemma FromTails(a: seq<Entry>, b: seq<Entry>)
    requires a != [] && b != [] && a[0] == b[0] && a[1..] == b[1..]
    ensures a == b
  {
    assert a == [a[0]] + a[1..] && b == [b[0]] + b[1..];
  }

  /** Whatever `qsort` does, there is one way to sort a buffer. */
  lemma {:induction false} SortUnique(a: seq<Entry>, b: seq<Entry>)
    requires Sorted(a) && Sorted(b) && multiset(a) == multiset(b)
    ensures a == b
  {
    SameLength(a, b);
    if a != [] {
      SameFirst(a, b);
      TailOf(a);
      TailOf(b);
      SortedTail(a);
      SortedTail(b);
      SortUnique(a[1..], b[1..]);
      FromTails(a, b);
    }
  }

  // ----- the loop

  datatype RouteInfo = RouteInfo(id: RouterId, interface: nat)

  /** What the loop looks up: installed routes, exported routes and the interface it runs for. */
  datatype Table = Table(myid: RouterId, routes: map<Prefix, RouteInfo>, xroutes: map<Prefix, nat>,
                         kernelMetric: nat, interface: nat, splitHorizon: bool)

  datatype Fate = OwnRoute | LearnedRoute | Withheld | Retraction

  function FateOf(t: Table, p: Prefix): Fate {
    if p in t.xroutes && (p !in t.routes || t.xroutes[p] <= t.kernelMetric) then OwnRoute
    else if p in t.routes then
      if t.splitHorizon && t.routes[p].interface == t.interface then Withheld else LearnedRoute
    else Retraction
  }

  datatype Sent = Sent(fate: Fate, prefix: Prefix)

  /** The router-id a buffered prefix is sorted under. */
  function Labelled(t: Table, p: Prefix): Entry {
    Entry(p.address, p.plen, if p in t.routes then t.routes[p].id else t.myid)
  }

  /** How often a prefix is in a buffer. */
  function Times(ps: seq<Prefix>, p: Prefix): nat {
    multiset(ps)[p]
  }

  function SentFor(out: seq<Sent>, p: Prefix): nat {
    if out == [] then 0
    else SentFor(out[..|out| - 1], p) + (if out[|out| - 1].prefix == p then 1 else 0)
  }

  /**
   * How many messages a prefix buffered `n` times should give: one if it is announced, none if it
   * is withheld, but a retraction each time.
   */
  function Due(t: Table, p: Prefix, n: nat): nat {
    match FateOf(t, p)
    case OwnRoute => if n > 0 then 1 else 0
    case LearnedRoute => if n > 0 then 1 else 0
    case Withheld => 0
    case Retraction => n
  }

  predicate Announced(f: Fate) { f == OwnRoute || f == LearnedRoute }

  /** The label depends on the prefix only. */
  predicate AllLabelled(t: Table, b: seq<Entry>) {
    forall i :: 0 <= i < |b| ==> b[i] == Labelled(t, PrefixOf(b[i]))
  }

  function Seen(t: Table, b: seq<Entry>, p: Prefix): nat {
    multiset(b)[Labelled(t, p)]
  }

  lemma SeenMore(t: Table, b: seq<Entry>, e: Entry, p: Prefix)
    requires e == Labelled(t, PrefixOf(e))
    ensures Seen(t, b + [e], p) == Seen(t, b, p) + (if PrefixOf(e) == p then 1 else 0)
  {
    assert PrefixOf(Labelled(t, p)) == p;
  }

  method Label(t: Table, ps: seq<Prefix>) returns (b: seq<Entry>)
    ensures AllLabelled(t, b) && forall p :: Seen(t, b, p) == Times(ps, p)
  {
    b := [];
    for i := 0 to |ps|
      invariant AllLabelled(t, b)
      invariant forall p :: Seen(t, b, p) == Times(ps[..i], p)
    {
      var e := Labelled(t, ps[i]);
      assert ps[..i + 1] == ps[..i] + [ps[i]];
      forall p ensures Seen(t, b + [e], p) == Times(ps[..i + 1], p) {
        SeenMore(t, b, e, p);
      }
      b := b + [e];
    }
    assert ps[..|ps|] == ps;
  }

  /** In a sorted buffer repetitions stand next to each other. */
  lemma RepetitionsAdjacent(t: Table, b: seq<Entry>, i: nat)
    requires AllLabelled(t, b) && Sorted(b) && i < |b|
    requires Seen(t, b[..i], PrefixOf(b[i])) > 0
    ensures i > 0 && b[i - 1] == b[i]
  {
    assert b[i] in multiset(b[..i]);
    var k :| 0 <= k < i && b[..i][k] == b[i];
    assert Compare(b[k], b[i - 1]) <= 0 && Compare(b[i - 1], b[i]) <= 0;
    CompareIsAnOrder(b[i - 1], b[i], b[i]);
  }

  ghost predicate Done(t: Table, b: seq<Entry>, out: seq<Sent>) {
    forall p :: SentFor(out, p) == Due(t, p, Seen(t, b, p))
  }

  /** What the loop remembers: the last announced prefix, which is the previous one if that was announced. */
  predicate LastOk(t: Table, b: seq<Entry>, last: Option<Prefix>) {
    && (last.Some? ==> Announced(FateOf(t, last.value)) && Seen(t, b, last.value) > 0)
    && (b != [] && Announced(FateOf(t, PrefixOf(b[|b| - 1]))) ==> last == Some(PrefixOf(b[|b| - 1])))
  }

  lemma SentForMore(out: seq<Sent>, s: Sent, p: Prefix)
    ensures SentFor(out + [s], p) == SentFor(out, p) + (if s.prefix == p then 1 else 0)
  {
    assert (out + [s])[..|out|] == out;
  }

  lemma SkipDone(t: Table, b: seq<Entry>, e: Entry, out: seq<Sent>)
    requires e == Labelled(t, PrefixOf(e)) && Done(t, b, out)
    requires FateOf(t, PrefixOf(e)) == Withheld || (Announced(FateOf(t, PrefixOf(e))) && Seen(t, b, PrefixOf(e)) > 0)
    ensures Done(t, b + [e], out)
  {
    forall p ensures SentFor(out, p) == Due(t, p, Seen(t, b + [e], p)) {
      SeenMore(t, b, e, p);
    }
  }

  lemma SendDone(t: Table, b: seq<Entry>, e: Entry, out: seq<Sent>, s: Sent)
    requires e == Labelled(t, PrefixOf(e)) && Done(t, b, out) && s.prefix == PrefixOf(e)
    requires FateOf(t, PrefixOf(e)) == Retraction || (Announced(FateOf(t, PrefixOf(e))) && Seen(t, b, PrefixOf(e)) == 0)
    ensures Done(t, b + [e], out + [s])
  {
    forall p ensures SentFor(out + [s], p) == Due(t, p, Seen(t, b + [e], p)) {
      SeenMore(t, b, e, p);
      SentForMore(out, s, p);
    }
  }

  /** `flushupdates`, for an interface that is up. */
  method Flush(t: Table, ps: seq<Prefix>) returns (out: seq<Sent>)
    ensures forall p :: SentFor(out, p) == Due(t, p, Times(ps, p))
    ensures forall i :: 0 <= i < |out| ==> out[i].fate == FateOf(t, out[i].prefix)
    ensures forall i, j :: 0 <= i <= j < |out| ==>
              Compare(Labelled(t, out[i].prefix), Labelled(t, out[j].prefix)) <= 0
  {
    var labelled := Label(t, ps);
    var b := Sort(labelled);
    assert AllLabelled(t, b) by {
      forall i | 0 <= i < |b| ensures b[i] == Labelled(t, PrefixOf(b[i])) {
        assert b[i] in multiset(b);
        assert b[i] in multiset(labelled);
      }
    }
    out := FlushSorted(t, b);
    forall p ensures SentFor(out, p) == Due(t, p, Times(ps, p)) {
      assert Seen(t, b, p) == Seen(t, labelled, p);
    }
  }

  lemma {:induction false} SentForSome(out: seq<Sent>, i: nat)
    requires i < |out|
    ensures SentFor(out, out[i].prefix) > 0
  {
    if i < |out| - 1 {
      SentForSome(out[..|out| - 1], i);
    }
  }

  lemma {:induction false} SentForAll(out: seq<Sent>, p: Prefix)
    requires forall i :: 0 <= i < |out| ==> out[i].prefix == p
    ensures SentFor(out, p) == |out|
  {
    if out != [] {
      SentForAll(out[..|out| - 1], p);
    }
  }

  /** A prefix without a route that was buffered twice is retracted twice. */
  method RetractedTwice(p: Prefix) returns (out: seq<Sent>)
    ensures out == [Sent(Retraction, p), Sent(Retraction, p)]
  {
    var t := Table(seq(8, i => 0), map[], map[], 0, 0, false);
    out := Flush(t, [p, p]);
    forall i | 0 <= i < |out| ensures out[i] == Sent(Retraction, p) {
      SentForSome(out, i);
      assert Times([p, p], out[i].prefix) > 0;
    }
    SentForAll(out, p);
    assert Times([p, p], p) == 2;
  }

  /** Looking at the last announced prefix is enough to see whether this one was announced before. */
  lemma LastTells(t: Table, b: seq<Entry>, i: nat, last: Option<Prefix>)
    requires AllLabelled(t, b) && Sorted(b) && i < |b| && LastOk(t, b[..i], last)
    requires Announced(FateOf(t, PrefixOf(b[i])))
    ensures last == Some(PrefixOf(b[i])) <==> Seen(t, b[..i], PrefixOf(b[i])) > 0
  {
    if Seen(t, b[..i], PrefixOf(b[i])) > 0 {
      RepetitionsAdjacent(t, b, i);
      assert b[..i][i - 1] == b[i];
    }
  }

  lemma LastKept(t: Table, b: seq<Entry>, i: nat, last: Option<Prefix>)
    requires AllLabelled(t, b) && i < |b| && LastOk(t, b[..i], last)
    ensures LastOk(t, b[..i + 1], if Announced(FateOf(t, PrefixOf(b[i]))) then Some(PrefixOf(b[i])) else last)
  {
    assert b[..i + 1] == b[..i] + [b[i]];
    SeenMore(t, b[..i], b[i], PrefixOf(b[i]));
    if last.Some? {
      SeenMore(t, b[..i], b[i], last.value);
    }
  }

  /** `out` was taken from the entries at the positions `from`, in order. */
  predicate TakenFrom(t: Table, b: seq<Entry>, out: seq<Sent>, from: seq<nat>) {
    && |from| == |out|
    && (forall k :: 0 <= k < |out| ==>
          from[k] < |b| && out[k] == Sent(FateOf(t, PrefixOf(b[from[k]])), PrefixOf(b[from[k]])))
    && (forall k, m :: 0 <= k <= m < |from| ==> from[k] <= from[m])
  }

  lemma TakeMore(t: Table, b: seq<Entry>, i: nat, out: seq<Sent>, from: seq<nat>)
    requires i < |b| && TakenFrom(t, b[..i], out, from)
    ensures TakenFrom(t, b[..i + 1], out, from)
    ensures TakenFrom(t, b[..i + 1], out + [Sent(FateOf(t, PrefixOf(b[i])), PrefixOf(b[i]))], from + [i])
  {
    var s, more := Sent(FateOf(t, PrefixOf(b[i])), PrefixOf(b[i])), from + [i];
    assert forall k :: 0 <= k < |out| ==> b[..i][from[k]] == b[..i + 1][from[k]];
    assert forall k :: 0 <= k < |more| ==> more[k] <= i;
  }

  lemma TakenInOrder(t: Table, b: seq<Entry>, out: seq<Sent>, from: seq<nat>, i: nat, j: nat)
    requires AllLabelled(t, b) && Sorted(b) && TakenFrom(t, b, out, from) && i <= j < |out|
    ensures Compare(Labelled(t, out[i].prefix), Labelled(t, out[j].prefix)) <= 0
  {
    assert Labelled(t, out[i].prefix) == b[from[i]] && Labelled(t, out[j].prefix) == b[from[j]];
  }

  /** The loop has dealt with the first `i` entries. */
  ghost predicate Progress(t: Table, b: seq<Entry>, i: nat, out: seq<Sent>, last: Option<Prefix>, from: seq<nat>) {
    i <= |b| && Done(t, b[..i], out) && LastOk(t, b[..i], last) && TakenFrom(t, b[..i], out, from)
  }

  /** One turn of the loop. */
  method FlushEntry(t: Table, b: seq<Entry>, i: nat, out: seq<Sent>, last: Option<Prefix>, ghost from: seq<nat>)
    returns (out': seq<Sent>, last': Option<Prefix>, ghost from': seq<nat>)
    requires AllLabelled(t, b) && Sorted(b) && i < |b| && Progress(t, b, i, out, last, from)
    ensures Progress(t, b, i + 1, out', last', from')
  {
    assert b[..i + 1] == b[..i] + [b[i]];
    TakeMore(t, b, i, out, from);
    LastKept(t, b, i, last);
    out', last', from' := out, last, from;
    var p := PrefixOf(b[i]);
    var fate := FateOf(t, p);
    if last == Some(p) || fate == Withheld {
      SkipDone(t, b[..i], b[i], out);
    } else {
      if Announced(fate) {
        LastTells(t, b, i, last);
        last' := Some(p);
      }
      SendDone(t, b[..i], b[i], out, Sent(fate, p));
      out', from' := out + [Sent(fate, p)], from + [i];
    }
  }

  method FlushSorted(t: Table, b: seq<Entry>) returns (out: seq<Sent>)
    requires AllLabelled(t, b) && Sorted(b)
    ensures Done(t, b, out)
    ensures forall i :: 0 <= i < |out| ==> out[i].fate == FateOf(t, out[i].prefix)
    ensures forall i, j :: 0 <= i <= j < |out| ==>
              Compare(Labelled(t, out[i].prefix), Labelled(t, out[j].prefix)) <= 0
  {
    out := [];
    var last: Option<Prefix> := None;
    ghost var from: seq<nat> := [];
    for i := 0 to |b|
      invariant Progress(t, b, i, out, last, from)
    {
      out, last, from := FlushEntry(t, b, i, out, last, from);
    }
    assert b[..|b|] == b;
    forall i, j | 0 <= i <= j < |out| ensures Compare(Labelled(t, out[i].prefix), Labelled(t, out[j].prefix)) <= 0 {
      TakenInOrder(t, b, out, from, i, j);
    }
  }
}
