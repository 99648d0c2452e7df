/**
 * The order BGP keeps its equal-cost paths in (bgpd/bgp_mpath.c): by next hop, then by peer.
 * The next hop comparison is not transitive; this module says exactly when it is.
 */
module MultipathOrder {

  /**
   * A next hop: the IPv4 one every path has, and what the extended attributes add. `kind` is the
   * length of the multiprotocol next hop, 0 when there is none to compare.
   */
  datatype Nexthop = Nexthop(ipv4: nat, kind: nat, global: nat, local: nat)

  predicate Comparable(kind: nat) {
    kind == 4 || kind == 12 || kind == 16 || kind == 32
  }

  /** `bgp_info_nexthop_cmp`; addresses are compared as the numbers their bytes spell. */
  function Compare(a: Nexthop, b: Nexthop): int {
    if a.ipv4 != b.ipv4 then a.ipv4 - b.ipv4
    else if a.kind != b.kind || !Comparable(a.kind) then 0
    else if a.global != b.global then a.global - b.global
    else if a.kind == 32 then a.local - b.local
    else 0
  }

  /** What the multipath code relies on. */
  ghost predicate TotalPreorder(s: set<Nexthop>) {
    forall a, b, c {:trigger TransitiveAt(a, b, c)} :: a in s && b in s && c in s ==> TransitiveAt(a, b, c)
  }

  predicate TransitiveAt(a: Nexthop, b: Nexthop, c: Nexthop) {
    Compare(a, b) <= 0 && Compare(b, c) <= 0 ==> Compare(a, c) <= 0
  }

  lemma CompareAntisymmetric(a: Nexthop, b: Nexthop)
    ensures Compare(a, b) == -Compare(b, a)
  {
  }

  /**
   * Next hops that share an IPv4 address either all have the same kind, or none of them can be
   * told apart.
   */
  ghost predicate Uniform(s: set<Nexthop>) {
    forall a, b, c :: a in s && b in s && c in s && a.ipv4 == b.ipv4 == c.ipv4 && a.kind != c.kind
      ==> Compare(a, b) == 0
  }

  lemma UniformTransitive(s: set<Nexthop>, a: Nexthop, b: Nexthop, c: Nexthop)
    requires Uniform(s) && a in s && b in s && c in s
    ensures TransitiveAt(a, b, c)
  {
    if a.ipv4 == b.ipv4 == c.ipv4 {
      if a.kind == c.kind && a.kind != b.kind {
        assert Compare(a, c) == 0;
      }
    }
  }

  /** The comparison orders a set of next hops exactly when the set is uniform. */
  lemma TransitiveExactly(s: set<Nexthop>)
    ensures TotalPreorder(s) <==> Uniform(s)
  {
    if Uniform(s) {
      forall a, b, c | a in s && b in s && c in s
        ensures TransitiveAt(a, b, c)
      {
        UniformTransitive(s, a, b, c);
      }
    }
    if TotalPreorder(s) {
      forall a, b, c | a in s && b in s && c in s && a.ipv4 == b.ipv4 == c.ipv4 && a.kind != c.kind
        ensures Compare(a, b) == 0
      {
        if a.kind == b.kind {
          assert TransitiveAt(a, c, b) && TransitiveAt(b, c, a);
          CompareAntisymmetric(a, b);
        }
      }
    }
  }

  /** A path with a plain IPv4 next hop is equal to two IPv6 next hops that differ. */
  lemma NotTransitive()
    ensures exists a, b, c :: Compare(a, b) == 0 && Compare(b, c) == 0 && Compare(a, c) != 0
  {
    var a, b, c := Nexthop(0, 16, 1, 0), Nexthop(0, 0, 0, 0), Nexthop(0, 16, 2, 0);
    assert Compare(a, b) == 0 && Compare(b, c) == 0 && Compare(a, c) != 0;
  }
}
