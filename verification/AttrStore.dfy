/**
 * The attribute store as it changes in place: `bgp_attr_intern` and `bgp_attr_unintern` of
 * bgpd/bgp_attr.c, with the interning of their parts (bgpd/bgp_aspath.c).
 */
module AttrStore {
  import opened Basics
  import opened AttrIntern

  /** A part of an attribute to intern: none, a new object, or one that is interned already. */
  datatype PartArg = Absent | New(contents: Contents) | Held(id: PartId)

  /** The pointer leads to what was asked for. */
  predicate Resolves(parts: map<PartId, Part>, arg: PartArg, pointer: Option<PartId>, kind: nat) {
    match arg
    case Absent => pointer == None
    case New(c) => pointer.Some? && pointer.value in parts && parts[pointer.value].kind == kind &&
                   parts[pointer.value].contents == c
    case Held(p) => pointer == Some(p) && p in parts && parts[p].kind == kind
  }

  predicate ArgOk(parts: map<PartId, Part>, arg: PartArg, kind: nat) {
    arg.Held? ==> arg.id in parts && parts[arg.id].kind == kind
  }

  /** Pointers taken so far, one for each kind in turn. */
  predicate TakenOk(parts: map<PartId, Part>, args: seq<PartArg>, taken: seq<Option<PartId>>) {
    |taken| <= |args| && forall k :: 0 <= k < |taken| ==> Resolves(parts, args[k], taken[k], k)
  }

  lemma TakenKept(parts: map<PartId, Part>, parts': map<PartId, Part>, args: seq<PartArg>, taken: seq<Option<PartId>>)
    requires TakenOk(parts, args, taken) && SameParts(parts, parts')
    ensures TakenOk(parts', args, taken)
  {
    forall k | 0 <= k < |taken| ensures Resolves(parts', args[k], taken[k], k) {
      assert Resolves(parts, args[k], taken[k], k);
    }
  }

  lemma NotTakenYet(parts: map<PartId, Part>, args: seq<PartArg>, taken: seq<Option<PartId>>, p: PartId)
    requires TakenOk(parts, args, taken) && p in parts && parts[p].kind == |taken|
    ensures Some(p) !in taken
  {
    forall k | 0 <= k < |taken| ensures taken[k] != Some(p) {
      assert Resolves(parts, args[k], taken[k], k);
    }
  }

  class AttrStore {
    var parts: map<PartId, Part>
    var attrs: seq<Entry>
    var nextPart: PartId
    var nextAttr: AttrId

    /** How many references to each part are held from outside the attributes. */
    ghost var outside: map<PartId, nat>

    ghost predicate IdsOk()
      reads this
    {
      (forall p :: p in parts ==> p < nextPart) && (forall i :: 0 <= i < |attrs| ==> attrs[i].id < nextAttr)
    }

    ghost predicate Valid()
      reads this
    {
      StoreOk(parts, attrs, outside, []) && IdsOk()
    }

    constructor ()
      ensures Valid() && parts == map[] && attrs == [] && outside == map[]
    {
      parts, attrs, nextPart, nextAttr, outside := map[], [], 0, 0, map[];
      new;
      forall p ensures CountOk(parts, attrs, outside, [], p) {
      }
    }

    /** The part with these contents, if there is one. */
    method FindPart(kind: nat, contents: Contents) returns (found: Option<PartId>)
      ensures found.Some? ==>
                found.value in parts && parts[found.value].kind == kind && parts[found.value].contents == contents
      ensures found.None? ==> forall q :: q in parts ==> parts[q].kind != kind || parts[q].contents != contents
    {
      if p :| p in parts && parts[p].kind == kind && parts[p].contents == contents {
        found := Some(p);
      } else {
        found := None;
      }
    }

    /** Intern one part, or take another reference to it if it is interned. */
    method TakePart(kind: nat, arg: PartArg, ghost taken: seq<Option<PartId>>) returns (pointer: Option<PartId>)
      requires StoreOk(parts, attrs, outside, taken) && IdsOk() && ArgOk(parts, arg, kind)
      requires forall p :: p in parts && parts[p].kind == kind ==> Some(p) !in taken
      modifies this`parts, this`nextPart
      ensures StoreOk(parts, attrs, outside, taken + [pointer]) && IdsOk()
      ensures SameParts(old(parts), parts) && Resolves(parts, arg, pointer, kind)
    {
      match arg
      case Absent =>
        pointer := None;
        TakeNone(parts, attrs, outside, taken);
      case Held(p) =>
        pointer := Some(p);
        TakeRef(p, taken);
      case New(contents) =>
        pointer := FindPart(kind, contents);
        if pointer.None? {
          pointer := Some(nextPart);
          TakeNew(parts, attrs, outside, taken, nextPart, Part(kind, contents, 1));
          parts := parts[nextPart := Part(kind, contents, 1)];
          nextPart := nextPart + 1;
        } else {
          TakeRef(pointer.value, taken);
        }
    }

    method TakeRef(p: PartId, ghost taken: seq<Option<PartId>>)
      requires StoreOk(parts, attrs, outside, taken) && IdsOk() && p in parts && Some(p) !in taken
      modifies this`parts
      ensures StoreOk(parts, attrs, outside, taken + [Some(p)]) && IdsOk()
      ensures SameParts(old(parts), parts)
    {
      TakeKnown(parts, attrs, outside, taken, p);
      parts := parts[p := parts[p].(refcnt := parts[p].refcnt + 1)];
    }

    /** `aspath_intern` and its like: a reference held outside the attributes. */
    method InternPart(kind: nat, contents: Contents) returns (p: PartId)
      requires Valid()
      modifies this`parts, this`nextPart, this`outside
      ensures Valid() && p in parts && parts[p].kind == kind && parts[p].contents == contents
      ensures outside == old(outside)[p := Outside(old(outside), p) + 1]
      ensures SameParts(old(parts), parts)
    {
      var pointer := TakePart(kind, New(contents), []);
      p := pointer.value;
      ghost var before := outside;
      outside := outside[p := Outside(outside, p) + 1];
      forall q ensures CountOk(parts, attrs, outside, [], q) {
        assert CountOk(parts, attrs, before, [] + [Some(p)], q);
      }
    }

    /** `aspath_unintern` and its like. */
    method UninternPart(p: PartId)
      requires Valid() && Outside(outside, p) > 0
      modifies this`parts, this`outside
      ensures Valid() && outside == old(outside)[p := old(outside)[p] - 1]
      ensures forall q :: q in parts ==> q in old(parts) && parts[q].contents == old(parts)[q].contents
    {
      ghost var before := outside;
      outside := outside[p := outside[p] - 1];
      forall q ensures CountOk(parts, attrs, outside, [Some(p)] + [], q) {
        assert CountOk(parts, attrs, before, [], q);
      }
      DropTaken(parts, attrs, outside, p, []);
      parts := Dropped(parts, p);
    }

    /** Intern all parts of an attribute, or take references to them. */
    method TakeParts(args: seq<PartArg>) returns (taken: seq<Option<PartId>>)
      requires Valid() && |args| == KINDS && forall k :: 0 <= k < KINDS ==> ArgOk(parts, args[k], k)
      modifies this`parts, this`nextPart
      ensures StoreOk(parts, attrs, outside, taken) && IdsOk()
      ensures SameParts(old(parts), parts) && |taken| == KINDS && TakenOk(parts, args, taken)
    {
      taken := [];
      for k := 0 to KINDS
        invariant StoreOk(parts, attrs, outside, taken) && IdsOk()
        invariant SameParts(old(parts), parts) && |taken| == k && TakenOk(parts, args, taken)
      {
        assert ArgOk(old(parts), args[k], k);
        forall p | p in parts && parts[p].kind == k ensures Some(p) !in taken {
          NotTakenYet(parts, args, taken, p);
        }
        ghost var before := parts;
        var pointer := TakePart(k, args[k], taken);
        TakenKept(before, parts, args, taken);
        taken := taken + [pointer];
      }
    }

    /** The position of an attribute in the table, or its end. */
    method FindAttr(a: Attr) returns (i: nat)
      requires WellFormed(a) && AttrsOk(parts, attrs)
      ensures i <= |attrs| && (forall j :: 0 <= j < i ==> attrs[j].attr != a) && (i < |attrs| ==> attrs[i].attr == a)
    {
      i := 0;
      while i < |attrs|
        invariant i <= |attrs| && forall j :: 0 <= j < i ==> attrs[j].attr != a
      {
        assert EntryOk(parts, attrs[i]);
        CompareIsEquality(attrs[i].attr, a);
        if Compare(attrs[i].attr, a) {
          return;
        }
        i := i + 1;
      }
    }

    /** `bgp_attr_intern`. */
    method InternAttr(plain: Attr, args: seq<PartArg>) returns (id: AttrId, a: Attr)
      requires Valid() && |args| == KINDS && forall k :: 0 <= k < KINDS ==> ArgOk(parts, args[k], k)
      requires plain.extra.None? ==> forall k :: PLAIN_KINDS <= k < KINDS ==> args[k].Absent?
      modifies this`parts, this`attrs, this`nextPart, this`nextAttr
      ensures Valid() && SameParts(old(parts), parts)
      ensures a == plain.(parts := a.parts) && |a.parts| == KINDS && TakenOk(parts, args, a.parts)
      ensures attrs == Hold(old(attrs), a, old(nextAttr))
      ensures exists i :: 0 <= i < |attrs| && attrs[i].id == id && attrs[i].attr == a
    {
      var taken := TakeParts(args);
      a := plain.(parts := taken);
      TakenAttrOk(parts, args, a);
      var i := FindAttr(a);
      HoldAt(attrs, a, nextAttr, i);
      if i < |attrs| {
        HoldKnown(parts, attrs, outside, i);
        id := attrs[i].id;
        attrs := attrs[i := attrs[i].(refcnt := attrs[i].refcnt + 1)];
      } else {
        HoldNew(parts, attrs, outside, Entry(nextAttr, a, 1));
        id := nextAttr;
        attrs := attrs + [Entry(nextAttr, a, 1)];
        nextAttr := nextAttr + 1;
      }
      assert attrs[i].id == id && attrs[i].attr == a;
    }

    /** `bgp_attr_unintern_sub`: give up one reference to each part. */
    method DropParts(pointers: seq<Option<PartId>>)
      requires StoreOk(parts, attrs, outside, pointers) && IdsOk()
      requires |pointers| == KINDS && forall k :: 0 <= k < KINDS ==> PointerOk(parts, pointers[k], k)
      modifies this`parts
      ensures Valid()
      ensures forall q :: q in parts ==>
                q in old(parts) && parts[q].kind == old(parts)[q].kind && parts[q].contents == old(parts)[q].contents
    {
      assert pointers[0..] == pointers;
      for k := 0 to KINDS
        invariant StoreOk(parts, attrs, outside, pointers[k..]) && IdsOk()
        invariant forall q :: q in parts ==>
                    q in old(parts) && parts[q].kind == old(parts)[q].kind
                    && parts[q].contents == old(parts)[q].contents
      {
        assert pointers[k..] == [pointers[k]] + pointers[k + 1..];
        if pointers[k].Some? {
          PointersDiffer(old(parts), pointers, k);
          DropTaken(parts, attrs, outside, pointers[k].value, pointers[k + 1..]);
          parts := Dropped(parts, pointers[k].value);
        } else {
          DropNone(parts, attrs, outside, pointers[k + 1..]);
        }
      }
      assert pointers[KINDS..] == [];
    }

    /** `bgp_attr_unintern`. */
    method UninternAttr(id: AttrId, ghost a: Attr)
      requires Valid() && exists i :: 0 <= i < |attrs| && attrs[i].id == id && attrs[i].attr == a
      modifies this`parts, this`attrs
      ensures Valid() && attrs == Release(old(attrs), a)
      ensures forall q :: q in parts ==>
                q in old(parts) && parts[q].kind == old(parts)[q].kind && parts[q].contents == old(parts)[q].contents
    {
      var i := 0;
      while attrs[i].id != id
        invariant i < |attrs| && forall j :: 0 <= j < i ==> attrs[j].id != id
        decreases |attrs| - i
      {
        i := i + 1;
      }
      var e := attrs[i];
      assert EntryOk(parts, e);
      ReleaseKeeps(parts, attrs, outside, i);
      ReleaseAt(attrs, e.attr, i);
      if e.refcnt == 1 {
        attrs := attrs[..i] + attrs[i + 1..];
      } else {
        attrs := attrs[i := e.(refcnt := e.refcnt - 1)];
      }
      DropParts(e.attr.parts);
    }
  }

  lemma TakenAttrOk(parts: map<PartId, Part>, args: seq<PartArg>, a: Attr)
    requires |args| == |a.parts| == KINDS && TakenOk(parts, args, a.parts)
    requires a.extra.None? ==> forall k :: PLAIN_KINDS <= k < KINDS ==> args[k].Absent?
    ensures AttrOk(parts, a)
  {
    forall k | 0 <= k < KINDS ensures PointerOk(parts, a.parts[k], k) {
      assert Resolves(parts, args[k], a.parts[k], k);
    }
    forall k | PLAIN_KINDS <= k < KINDS && a.extra.None? ensures a.parts[k] == None {
      assert Resolves(parts, args[k], a.parts[k], k);
    }
  }

  lemma PointersDiffer(parts: map<PartId, Part>, pointers: seq<Option<PartId>>, k: nat)
    requires |pointers| == KINDS && k < KINDS && pointers[k].Some?
    requires forall j :: 0 <= j < KINDS ==> PointerOk(parts, pointers[j], j)
    ensures pointers[k] !in pointers[k + 1..]
  {
    forall j | k < j < KINDS ensures pointers[j] != pointers[k] {
      assert PointerOk(parts, pointers[j], j) && PointerOk(parts, pointers[k], k);
    }
  }
}
