/** 16-bit circular sequence numbers (babeld/util.h) and the integers they stand for. */
module SeqNo {

  /** Seqnos are 16 bits wide in the program; the network proofs also use unbounded ones. */
  datatype Arith = Exact | Wrapped16

  const MODULUS: int := 0x1_0000
  const HALF: int := 0x8000

  function Wrap(s: int): (w: nat)
    ensures w < MODULUS
  {
    s % MODULUS
  }

  function Sign(d: int): int {
    if d == 0 then 0 else if d > 0 then 1 else -1
  }

  /** Bit 15 of a two's complement integer, that is, `x & 0x8000`. */
  predicate Bit15(x: int) {
    (x / HALF) % 2 == 1
  }

  /** `seqno_compare`. */
  function Compare16(s1: int, s2: int): int {
    if s1 == s2 then 0 else if Bit15(s2 - s1) then 1 else -1
  }

  /** `seqno_minus`: the 16-bit difference read as a signed short. */
  function Minus16(s1: int, s2: int): (d: int)
    ensures -HALF <= d < HALF
  {
    var u := (s1 - s2) % MODULUS;
    if u >= HALF then u - MODULUS else u
  }

  /** `seqno_plus`. */
  function Plus16(s: int, plus: int): (r: int)
    ensures 0 <= r < MODULUS
  {
    (s + plus) % MODULUS
  }

  function Compare(ar: Arith, s1: int, s2: int): int {
    if ar.Exact? then Sign(s1 - s2) else Compare16(s1, s2)
  }

  function Plus(ar: Arith, s: int, plus: int): int {
    if ar.Exact? then s + plus else Plus16(s, plus)
  }

  /** A seqno as a node using the given arithmetic stores it. */
  function Stored(ar: Arith, s: int): int {
    if ar.Exact? then s else Wrap(s)
  }

  /** Two integers whose residues compare like the integers themselves. */
  predicate Near(a: int, b: int) {
    -HALF < a - b < HALF
  }

  lemma WrapDifference(a: int, b: int, d: int)
    requires -MODULUS < a - b < MODULUS
    requires d == Wrap(a) - Wrap(b)
    ensures d == a - b || d == a - b + MODULUS || d == a - b - MODULUS
  {
    assert a == MODULUS * (a / MODULUS) + Wrap(a);
    assert b == MODULUS * (b / MODULUS) + Wrap(b);
  }

  /**
   * Exactly when circular comparison of residues is integer comparison: for integers less
   * than one full turn apart, it is right up to half a turn, and the boundary itself is
   * right in one direction only.
   */
  lemma CompareAgreesExactly(a: int, b: int)
    requires -MODULUS < a - b < MODULUS
    ensures Compare16(Wrap(a), Wrap(b)) == Sign(a - b) <==> -HALF < a - b <= HALF
  {
    WrapDifference(b, a, Wrap(b) - Wrap(a));
  }

  /** The order on residues is antisymmetric except at the antipode. */
  lemma CompareAntisymmetricExactly(s1: int, s2: int)
    requires 0 <= s1 < MODULUS && 0 <= s2 < MODULUS
    ensures Compare16(s1, s2) == -Compare16(s2, s1) <==> (s1 - s2) % MODULUS != HALF
  {
  }

  /** Half a turn apart, each residue claims to be newer than the other. */
  lemma AntipodesBothNewer()
    ensures Compare16(0, HALF) == 1 && Compare16(HALF, 0) == 1
  {
  }

  lemma MinusAgrees(a: int, b: int)
    requires -HALF <= a - b < HALF
    ensures Minus16(Wrap(a), Wrap(b)) == a - b
  {
    WrapDifference(a, b, Wrap(a) - Wrap(b));
  }

  lemma PlusAgrees(a: int, k: int)
    ensures Plus16(Wrap(a), k) == Wrap(a + k)
  {
    assert a == MODULUS * (a / MODULUS) + Wrap(a);
    assert (Wrap(a) + k) - (a + k) == MODULUS * -(a / MODULUS);
    ModuloShift(a + k, -(a / MODULUS));
  }

  lemma ModuloShift(x: int, q: int)
    ensures Wrap(x + MODULUS * q) == Wrap(x)
  {
    var y := x + MODULUS * q;
    assert y == MODULUS * (y / MODULUS) + Wrap(y);
    assert x == MODULUS * (x / MODULUS) + Wrap(x);
    assert Wrap(y) - Wrap(x) == MODULUS * (q + x / MODULUS - y / MODULUS);
  }

  /** What the route code needs of the residues of nearby seqnos. */
  lemma StoredAgrees(ar: Arith, a: int, b: int)
    requires Near(a, b)
    ensures Compare(ar, Stored(ar, a), Stored(ar, b)) == Sign(a - b)
    ensures Stored(ar, a) == Stored(ar, b) <==> a == b
  {
    if ar.Wrapped16? {
      CompareAgreesExactly(a, b);
      WrapDifference(a, b, Wrap(a) - Wrap(b));
    }
  }

  lemma StoredPlus(ar: Arith, a: int, k: int)
    ensures Plus(ar, Stored(ar, a), k) == Stored(ar, a + k)
  {
    PlusAgrees(a, k);
  }
}
