/**
 * Interned BGP attributes (bgpd/bgp_attr.c, and `aspath_intern`/`aspath_unintern` of
 * bgpd/bgp_aspath.c): one object for each distinct attribute, AS path, community list and so on,
 * kept alive by reference counts. An attribute counts as one reference to each of its parts for
 * every reference to itself.
 */
module AttrIntern {
  import opened Basics

  type PartId = nat
  type AttrId = nat
  type Contents = seq<nat>

  /** AS path, communities, tarpan; then, in the extended attributes: extended communities, cluster list, transit. */
  const KINDS: nat := 6
  const PLAIN_KINDS: nat := 3

  /** An interned part of an attribute. */
  datatype Part = Part(kind: nat, contents: Contents, refcnt: nat)

  datatype Extra = Extra(aggregatorAs: nat, aggregatorAddr: nat, weight: nat, nexthopLen: nat, nexthopGlobal: nat,
                         nexthopLocal: nat, nexthopGlobalIn: nat, originatorId: nat)

  /** An attribute: plain values, and a pointer for each kind of part. */
  datatype Attr = Attr(flag: nat, origin: nat, nexthop: nat, med: nat, localPref: nat, extra: Option<Extra>,
                       parts: seq<Option<PartId>>)

  datatype Entry = Entry(id: AttrId, attr: Attr, refcnt: nat)

  predicate WellFormed(a: Attr) {
    && |a.parts| == KINDS
    && (a.extra.None? ==> forall k :: PLAIN_KINDS <= k < KINDS ==> a.parts[k] == None)
  }

  /** `attrhash_cmp`. */
  predicate Compare(a: Attr, b: Attr)
    requires WellFormed(a) && WellFormed(b)
  {
    && a.flag == b.flag && a.origin == b.origin && a.nexthop == b.nexthop
    && a.parts[0] == b.parts[0] && a.parts[1] == b.parts[1] && a.parts[2] == b.parts[2]
    && a.med == b.med && a.localPref == b.localPref
    && if a.extra.Some? && b.extra.Some? && CompareExtra(a, b) then true
       else if a.extra.Some? || b.extra.Some? then false
       else true
  }

  predicate CompareExtra(a: Attr, b: Attr)
    requires WellFormed(a) && WellFormed(b) && a.extra.Some? && b.extra.Some?
  {
    var (x, y) := (a.extra.value, b.extra.value);
    && x.aggregatorAs == y.aggregatorAs && x.aggregatorAddr == y.aggregatorAddr && x.weight == y.weight
    && x.nexthopLen == y.nexthopLen && x.nexthopGlobal == y.nexthopGlobal && x.nexthopLocal == y.nexthopLocal
    && x.nexthopGlobalIn == y.nexthopGlobalIn
    && a.parts[3] == b.parts[3] && a.parts[4] == b.parts[4] && a.parts[5] == b.parts[5]
    && x.originatorId == y.originatorId
  }

  lemma CompareIsEquality(a: Attr, b: Attr)
    requires WellFormed(a) && WellFormed(b)
    ensures Compare(a, b) <==> a == b
  {
    if Compare(a, b) {
      assert a.parts == [a.parts[0], a.parts[1], a.parts[2], a.parts[3], a.parts[4], a.parts[5]];
      assert b.parts == [b.parts[0], b.parts[1], b.parts[2], b.parts[3], b.parts[4], b.parts[5]];
    }
  }

  // ----- counting references

  predicate PointsTo(a: Attr, p: PartId) {
    Some(p) in a.parts
  }

  /** The references the interned attributes hold to a part: one for each reference to the attribute. */
  function Uses(attrs: seq<Entry>, p: PartId): nat {
    if attrs == [] then 0 else (if PointsTo(attrs[0].attr, p) then attrs[0].refcnt else 0) + Uses(attrs[1..], p)
  }

  lemma {:induction false} UsesSet(attrs: seq<Entry>, i: nat, e: Entry, p: PartId)
    requires i < |attrs| && e.attr == attrs[i].attr
    ensures Uses(attrs[i := e], p) == Uses(attrs, p) + (if PointsTo(e.attr, p) then e.refcnt - attrs[i].refcnt else 0)
  {
    var r := attrs[i := e];
    if i == 0 {
      assert r[1..] == attrs[1..];
    } else {
      assert r[1..] == attrs[1..][i - 1 := e];
      UsesSet(attrs[1..], i - 1, e, p);
    }
  }

  lemma {:induction false} UsesAppend(attrs: seq<Entry>, e: Entry, p: PartId)
    ensures Uses(attrs + [e], p) == Uses(attrs, p) + (if PointsTo(e.attr, p) then e.refcnt else 0)
  {
    if attrs == [] {
      assert attrs + [e] == [e] && [e][1..] == [];
    } else {
      assert (attrs + [e])[1..] == attrs[1..] + [e];
      UsesAppend(attrs[1..], e, p);
    }
  }

  lemma {:induction false} UsesRemove(attrs: seq<Entry>, i: nat, p: PartId)
    requires i < |attrs|
    ensures Uses(attrs[..i] + attrs[i + 1..], p) ==
            Uses(attrs, p) - (if PointsTo(attrs[i].attr, p) then attrs[i].refcnt else 0)
  {
    var r := attrs[..i] + attrs[i + 1..];
    if i == 0 {
      assert r == attrs[1..];
    } else {
      assert r[1..] == attrs[1..][..i - 1] + attrs[1..][i..];
      UsesRemove(attrs[1..], i - 1, p);
    }
  }

  lemma {:induction false} UsesAtLeast(attrs: seq<Entry>, i: nat, p: PartId)
    requires i < |attrs| && PointsTo(attrs[i].attr, p)
    ensures Uses(attrs, p) >= attrs[i].refcnt
  {
    if i > 0 {
      UsesAtLeast(attrs[1..], i - 1, p);
    }
  }

  // ----- the invariant

  /** The part a pointer leads to is there, and of the right kind. */
  predicate PointerOk(parts: map<PartId, Part>, pointer: Option<PartId>, kind: nat) {
    pointer.Some? ==> pointer.value in parts && parts[pointer.value].kind == kind
  }

  predicate AttrOk(parts: map<PartId, Part>, a: Attr) {
    WellFormed(a) && forall k :: 0 <= k < KINDS ==> PointerOk(parts, a.parts[k], k)
  }

  predicate EntryOk(parts: map<PartId, Part>, e: Entry) {
    AttrOk(parts, e.attr) && e.refcnt > 0
  }

  /** One object for each distinct attribute, with parts that exist. */
  predicate AttrsOk(parts: map<PartId, Part>, attrs: seq<Entry>) {
    && (forall i :: 0 <= i < |attrs| ==> EntryOk(parts, attrs[i]))
    && (forall i, j :: 0 <= i < j < |attrs| ==> attrs[i].id != attrs[j].id && attrs[i].attr != attrs[j].attr)
  }

  /** One object for each distinct part. */
  predicate PartsOk(parts: map<PartId, Part>) {
    forall p, q :: p in parts && q in parts && p != q ==>
      parts[p].kind != parts[q].kind || parts[p].contents != parts[q].contents
  }

  function Outside(outside: map<PartId, nat>, p: PartId): nat {
    if p in outside then outside[p] else 0
  }

  /** A part's count: outside holders, the attributes that use it, and `taken`, references in the making. */
  predicate CountOk(parts: map<PartId, Part>, attrs: seq<Entry>, outside: map<PartId, nat>, taken: seq<Option<PartId>>,
                    p: PartId) {
    if p in parts
    then parts[p].refcnt > 0 &&
         parts[p].refcnt == Outside(outside, p) + Uses(attrs, p) + (if Some(p) in taken then 1 else 0)
    else Outside(outside, p) == 0 && Uses(attrs, p) == 0 && Some(p) !in taken
  }

  ghost predicate CountsOk(parts: map<PartId, Part>, attrs: seq<Entry>, outside: map<PartId, nat>,
                        taken: seq<Option<PartId>>) {
    forall p :: CountOk(parts, attrs, outside, taken, p)
  }

  /** The whole store, with the references `taken` not yet held by anyone. */
  ghost predicate StoreOk(parts: map<PartId, Part>, attrs: seq<Entry>, outside: map<PartId, nat>,
                          taken: seq<Option<PartId>>) {
    PartsOk(parts) && AttrsOk(parts, attrs) && CountsOk(parts, attrs, outside, taken)
  }

  /** Parts keep their kind and contents; only the counts change. */
  ghost predicate SameParts(parts: map<PartId, Part>, parts': map<PartId, Part>) {
    forall p :: p in parts ==> p in parts' && parts'[p].kind == parts[p].kind && parts'[p].contents == parts[p].contents
  }

  lemma AttrsKept(parts: map<PartId, Part>, parts': map<PartId, Part>, attrs: seq<Entry>)
    requires AttrsOk(parts, attrs) && SameParts(parts, parts')
    ensures AttrsOk(parts', attrs)
  {
    forall i | 0 <= i < |attrs| ensures EntryOk(parts', attrs[i]) {
      assert EntryOk(parts, attrs[i]);
      forall k | 0 <= k < KINDS ensures PointerOk(parts', attrs[i].attr.parts[k], k) {
        assert PointerOk(parts, attrs[i].attr.parts[k], k);
      }
    }
  }

  /** Taking a reference to a part that is there. */
  lemma TakeKnown(parts: map<PartId, Part>, attrs: seq<Entry>, outside: map<PartId, nat>, taken: seq<Option<PartId>>,
                  p: PartId)
    requires StoreOk(parts, attrs, outside, taken) && p in parts && Some(p) !in taken
    ensures StoreOk(parts[p := parts[p].(refcnt := parts[p].refcnt + 1)], attrs, outside, taken + [Some(p)])
  {
    var parts' := parts[p := parts[p].(refcnt := parts[p].refcnt + 1)];
    AttrsKept(parts, parts', attrs);
    forall q ensures CountOk(parts', attrs, outside, taken + [Some(p)], q) {
      assert CountOk(parts, attrs, outside, taken, q);
    }
  }

  /** Adding a part, with one reference to it. */
  lemma TakeNew(parts: map<PartId, Part>, attrs: seq<Entry>, outside: map<PartId, nat>, taken: seq<Option<PartId>>,
                p: PartId, part: Part)
    requires StoreOk(parts, attrs, outside, taken) && p !in parts && part.refcnt == 1
    requires forall q :: q in parts ==> parts[q].kind != part.kind || parts[q].contents != part.contents
    ensures StoreOk(parts[p := part], attrs, outside, taken + [Some(p)])
  {
    var parts' := parts[p := part];
    AttrsKept(parts, parts', attrs);
    forall q ensures CountOk(parts', attrs, outside, taken + [Some(p)], q) {
      assert CountOk(parts, attrs, outside, taken, q);
    }
  }

  lemma TakeNone(parts: map<PartId, Part>, attrs: seq<Entry>, outside: map<PartId, nat>, taken: seq<Option<PartId>>)
    requires StoreOk(parts, attrs, outside, taken)
    ensures StoreOk(parts, attrs, outside, taken + [None])
  {
    forall q ensures CountOk(parts, attrs, outside, taken + [None], q) {
      assert CountOk(parts, attrs, outside, taken, q);
    }
  }

  /** The store after giving up one reference to a part. */
  function Dropped(parts: map<PartId, Part>, p: PartId): map<PartId, Part>
    requires p in parts && parts[p].refcnt > 0
  {
    if parts[p].refcnt == 1 then parts - {p} else parts[p := parts[p].(refcnt := parts[p].refcnt - 1)]
  }

  /** A part nothing refers to can be freed: no attribute points to it. */
  lemma FreeUnused(parts: map<PartId, Part>, attrs: seq<Entry>, p: PartId)
    requires AttrsOk(parts, attrs) && Uses(attrs, p) == 0
    ensures AttrsOk(parts - {p}, attrs)
  {
    forall i | 0 <= i < |attrs| ensures EntryOk(parts - {p}, attrs[i]) {
      assert EntryOk(parts, attrs[i]);
      NotPointedTo(parts, attrs, i, p);
      forall k | 0 <= k < KINDS ensures PointerOk(parts - {p}, attrs[i].attr.parts[k], k) {
        assert PointerOk(parts, attrs[i].attr.parts[k], k);
        assert attrs[i].attr.parts[k] != Some(p);
      }
    }
  }

  lemma NotPointedTo(parts: map<PartId, Part>, attrs: seq<Entry>, i: nat, p: PartId)
    requires AttrsOk(parts, attrs) && Uses(attrs, p) == 0 && i < |attrs|
    ensures !PointsTo(attrs[i].attr, p)
  {
    assert EntryOk(parts, attrs[i]);
    if PointsTo(attrs[i].attr, p) {
      UsesAtLeast(attrs, i, p);
    }
  }

  lemma DropTaken(parts: map<PartId, Part>, attrs: seq<Entry>, outside: map<PartId, nat>, p: PartId,
                  taken: seq<Option<PartId>>)
    requires StoreOk(parts, attrs, outside, [Some(p)] + taken) && Some(p) !in taken
    ensures p in parts && parts[p].refcnt > 0 && StoreOk(Dropped(parts, p), attrs, outside, taken)
  {
    assert CountOk(parts, attrs, outside, [Some(p)] + taken, p);
    var parts' := Dropped(parts, p);
    if parts[p].refcnt == 1 {
      FreeUnused(parts, attrs, p);
    } else {
      AttrsKept(parts, parts', attrs);
    }
    forall q ensures CountOk(parts', attrs, outside, taken, q) {
      assert CountOk(parts, attrs, outside, [Some(p)] + taken, q);
    }
  }

  lemma DropNone(parts: map<PartId, Part>, attrs: seq<Entry>, outside: map<PartId, nat>, taken: seq<Option<PartId>>)
    requires StoreOk(parts, attrs, outside, [None] + taken)
    ensures StoreOk(parts, attrs, outside, taken)
  {
    forall q ensures CountOk(parts, attrs, outside, taken, q) {
      assert CountOk(parts, attrs, outside, [None] + taken, q);
    }
  }

  // ----- the table of attributes

  /** One more reference to an attribute, which gets the id `newId` if it is new. */
  function Hold(attrs: seq<Entry>, a: Attr, newId: AttrId): seq<Entry> {
    if attrs == [] then [Entry(newId, a, 1)]
    else if attrs[0].attr == a then [attrs[0].(refcnt := attrs[0].refcnt + 1)] + attrs[1..]
    else [attrs[0]] + Hold(attrs[1..], a, newId)
  }

  /** One reference less; the attribute goes with the last one. */
  function Release(attrs: seq<Entry>, a: Attr): seq<Entry> {
    if attrs == [] then []
    else if attrs[0].attr != a then [attrs[0]] + Release(attrs[1..], a)
    else if attrs[0].refcnt <= 1 then attrs[1..]
    else [attrs[0].(refcnt := attrs[0].refcnt - 1)] + attrs[1..]
  }

  /** Giving up the reference just taken leaves the table as it was. */
  lemma {:induction false} ReleaseHold(attrs: seq<Entry>, a: Attr, newId: AttrId)
    requires forall i :: 0 <= i < |attrs| ==> attrs[i].refcnt > 0
    ensures Release(Hold(attrs, a, newId), a) == attrs
  {
    if attrs != [] {
      var h := Hold(attrs, a, newId);
      if attrs[0].attr == a {
        assert h[1..] == attrs[1..];
      } else {
        ReleaseHold(attrs[1..], a, newId);
        assert h[1..] == Hold(attrs[1..], a, newId);
      }
    }
  }

  lemma {:induction false} HoldAt(attrs: seq<Entry>, a: Attr, newId: AttrId, i: nat)
    requires i <= |attrs| && (forall j :: 0 <= j < i ==> attrs[j].attr != a) && (i < |attrs| ==> attrs[i].attr == a)
    ensures Hold(attrs, a, newId) == if i < |attrs| then attrs[i := attrs[i].(refcnt := attrs[i].refcnt + 1)]
                                     else attrs + [Entry(newId, a, 1)]
  {
    if i > 0 {
      HoldAt(attrs[1..], a, newId, i - 1);
    }
  }

  lemma {:induction false} ReleaseAt(attrs: seq<Entry>, a: Attr, i: nat)
    requires i < |attrs| && attrs[i].attr == a && forall j :: 0 <= j < i ==> attrs[j].attr != a
    ensures Release(attrs, a) == if attrs[i].refcnt <= 1 then attrs[..i] + attrs[i + 1..]
                                 else attrs[i := attrs[i].(refcnt := attrs[i].refcnt - 1)]
  {
    if i > 0 {
      ReleaseAt(attrs[1..], a, i - 1);
    }
  }

  lemma HoldKnown(parts: map<PartId, Part>, attrs: seq<Entry>, outside: map<PartId, nat>, i: nat)
    requires i < |attrs| && StoreOk(parts, attrs, outside, attrs[i].attr.parts)
    ensures StoreOk(parts, attrs[i := attrs[i].(refcnt := attrs[i].refcnt + 1)], outside, [])
  {
    var e := attrs[i].(refcnt := attrs[i].refcnt + 1);
    var attrs' := attrs[i := e];
    forall j | 0 <= j < |attrs'| ensures EntryOk(parts, attrs'[j]) {
      assert EntryOk(parts, attrs[j]);
    }
    forall q ensures CountOk(parts, attrs', outside, [], q) {
      assert CountOk(parts, attrs, outside, attrs[i].attr.parts, q);
      UsesSet(attrs, i, e, q);
    }
  }

  lemma HoldNew(parts: map<PartId, Part>, attrs: seq<Entry>, outside: map<PartId, nat>, e: Entry)
    requires StoreOk(parts, attrs, outside, e.attr.parts) && AttrOk(parts, e.attr) && e.refcnt == 1
    requires forall i :: 0 <= i < |attrs| ==> attrs[i].attr != e.attr && attrs[i].id != e.id
    ensures StoreOk(parts, attrs + [e], outside, [])
  {
    var attrs' := attrs + [e];
    forall j | 0 <= j < |attrs'| ensures EntryOk(parts, attrs'[j]) {
      assert j < |attrs| ==> EntryOk(parts, attrs[j]);
    }
    forall q ensures CountOk(parts, attrs', outside, [], q) {
      assert CountOk(parts, attrs, outside, e.attr.parts, q);
      UsesAppend(attrs, e, q);
    }
  }

  lemma ReleaseKeeps(parts: map<PartId, Part>, attrs: seq<Entry>, outside: map<PartId, nat>, i: nat)
    requires i < |attrs| && StoreOk(parts, attrs, outside, [])
    ensures var a := attrs[i].attr; StoreOk(parts, Release(attrs, a), outside, a.parts)
  {
    var a := attrs[i].attr;
    assert EntryOk(parts, attrs[i]);
    ReleaseAt(attrs, a, i);
    var attrs' := Release(attrs, a);
    var e := attrs[i].(refcnt := attrs[i].refcnt - 1);
    forall j | 0 <= j < |attrs'| ensures EntryOk(parts, attrs'[j]) {
      assert EntryOk(parts, if attrs[i].refcnt == 1 && j >= i then attrs[j + 1] else attrs[j]);
    }
    forall q ensures CountOk(parts, attrs', outside, a.parts, q) {
      assert CountOk(parts, attrs, outside, [], q);
      if attrs[i].refcnt == 1 {
        UsesRemove(attrs, i, q);
      } else {
        UsesSet(attrs, i, e, q);
      }
    }
  }

  // ----- consequences

  /** Equal attributes, parts compared by contents, are the same object. */
  lemma SameValueSameObject(parts: map<PartId, Part>, attrs: seq<Entry>, i: nat, j: nat)
    requires PartsOk(parts) && AttrsOk(parts, attrs) && i < |attrs| && j < |attrs|
    requires var (a, b) := (attrs[i].attr, attrs[j].attr); WellFormed(a) && WellFormed(b) && SameValue(parts, a, b)
    ensures i == j
  {
    var (a, b) := (attrs[i].attr, attrs[j].attr);
    assert EntryOk(parts, attrs[i]) && EntryOk(parts, attrs[j]);
    forall k | 0 <= k < KINDS ensures a.parts[k] == b.parts[k] {
      assert PointerOk(parts, a.parts[k], k) && PointerOk(parts, b.parts[k], k);
      assert SamePart(parts, a.parts[k], b.parts[k]);
    }
    assert a == b;
  }

  predicate SamePart(parts: map<PartId, Part>, p: Option<PartId>, q: Option<PartId>) {
    if p.None? || q.None? then p == q
    else p.value in parts && q.value in parts && parts[p.value].contents == parts[q.value].contents
  }

  predicate SameValue(parts: map<PartId, Part>, a: Attr, b: Attr)
    requires WellFormed(a) && WellFormed(b)
  {
    a.(parts := []) == b.(parts := []) && forall k :: 0 <= k < KINDS ==> SamePart(parts, a.parts[k], b.parts[k])
  }

  /** Nothing is leaked: without attributes and outside holders there are no parts. */
  lemma NoLeaks(parts: map<PartId, Part>, outside: map<PartId, nat>)
    requires StoreOk(parts, [], outside, []) && forall p :: Outside(outside, p) == 0
    ensures parts == map[]
  {
    forall p ensures p !in parts {
      assert CountOk(parts, [], outside, [], p);
    }
  }

  /** The references determine the parts: two stores that differ in nothing else are the same. */
  lemma CountsDetermineParts(parts: map<PartId, Part>, parts': map<PartId, Part>, attrs: seq<Entry>,
                             outside: map<PartId, nat>)
    requires StoreOk(parts, attrs, outside, []) && StoreOk(parts', attrs, outside, [])
    requires forall p :: p in parts && p in parts' ==>
               parts[p].kind == parts'[p].kind && parts[p].contents == parts'[p].contents
    ensures parts == parts'
  {
    forall p ensures p in parts <==> p in parts' {
      assert CountOk(parts, attrs, outside, [], p) && CountOk(parts', attrs, outside, [], p);
    }
    forall p | p in parts ensures parts[p] == parts'[p] {
      assert CountOk(parts, attrs, outside, [], p) && CountOk(parts', attrs, outside, [], p);
    }
  }
}
