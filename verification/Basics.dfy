/** What several modules share. */
module Basics {

  datatype Option<+T> = None | Some(value: T)

  type Byte = x: int | 0 <= x < 256

  function Min(a: int, b: int): int { if a <= b then a else b }

  function Max(a: int, b: int): int { if a >= b then a else b }

  predicate Distinct<T(==)>(s: seq<T>) {
    forall i, j :: 0 <= i < j < |s| ==> s[i] != s[j]
  }

  lemma Associative<T>(a: seq<T>, b: seq<T>, c: seq<T>)
    ensures a + (b + c) == (a + b) + c
  {
  }

  // ----- numbers of two bytes, the higher one first

  type Short = x: int | 0 <= x < 0x1_0000

  function ShortBytes(x: Short): (r: seq<Byte>)
    ensures |r| == 2 && ToShort(r[0], r[1]) == x
  {
    [x / 256, x % 256]
  }

  function ToShort(hi: Byte, lo: Byte): Short {
    256 * hi + lo
  }

  // ----- Babel

  /** The metric of a retracted route. */
  const INFINITY: nat := 0xFFFF

  type Address = s: seq<Byte> | |s| == 16 witness seq(16, i => 0)

  datatype Prefix = Prefix(address: Address, plen: nat)

  const V4PREFIX: seq<Byte> := [0, 0, 0, 0, 0, 0, 0, 0, 0, 0, 0xFF, 0xFF]

  predicate V4Mapped(address: Address) {
    address[..12] == V4PREFIX
  }

  /** The sign `memcmp` gives for two blocks of the same length. */
  function Lex(a: seq<Byte>, b: seq<Byte>): (r: int)
    requires |a| == |b|
  {
    if a == [] then 0 else if a[0] != b[0] then a[0] as int - b[0] as int else Lex(a[1..], b[1..])
  }

  lemma {:induction false} LexIsAnOrder(a: seq<Byte>, b: seq<Byte>, c: seq<Byte>)
    requires |a| == |b| == |c|
    ensures Lex(a, b) == 0 <==> a == b
    ensures Lex(a, b) == -Lex(b, a)
    ensures Lex(a, b) <= 0 && Lex(b, c) <= 0 ==> Lex(a, c) <= 0
  {
    if a != [] {
      LexIsAnOrder(a[1..], b[1..], c[1..]);
      assert a == [a[0]] + a[1..] && b == [b[0]] + b[1..];
    }
  }
}
