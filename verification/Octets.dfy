/** Octets seen two ways: as a number below 256 and as eight bits. */
module Octets {

  type byte = x: int | 0 <= x < 256

  /** A `u8` by its bits, `b0` the least significant. */
  datatype Octet = Octet(b7: bool, b6: bool, b5: bool, b4: bool, b3: bool, b2: bool, b1: bool, b0: bool)

  function Bit(b: bool, rest: nat): nat {
    (if b then 1 else 0) + 2 * rest
  }

  predicate Odd(a: nat) {
    a % 2 == 1
  }

  function Value(u: Octet): byte {
    Bit(u.b0, Bit(u.b1, Bit(u.b2, Bit(u.b3, Bit(u.b4, Bit(u.b5, Bit(u.b6, Bit(u.b7, 0))))))))
  }

  function OfValue(a: byte): Octet {
    var a1 := a / 2;
    var a2 := a1 / 2;
    var a3 := a2 / 2;
    var a4 := a3 / 2;
    var a5 := a4 / 2;
    var a6 := a5 / 2;
    var a7 := a6 / 2;
    Octet(Odd(a7), Odd(a6), Odd(a5), Odd(a4), Odd(a3), Odd(a2), Odd(a1), Odd(a))
  }

  lemma HalveAndBit(a: nat)
    ensures a == Bit(Odd(a), a / 2)
  {}

  lemma BitParts(b: bool, rest: nat)
    ensures Odd(Bit(b, rest)) == b && Bit(b, rest) / 2 == rest
  {}

  lemma ValueOfValue(a: byte)
    ensures Value(OfValue(a)) == a
  {
    var a1 := a / 2;
    var a2 := a1 / 2;
    var a3 := a2 / 2;
    var a4 := a3 / 2;
    var a5 := a4 / 2;
    var a6 := a5 / 2;
    var a7 := a6 / 2;
    assert a7 / 2 == 0;
    hide Bit, Odd;
    HalveAndBit(a);
    HalveAndBit(a1);
    HalveAndBit(a2);
    HalveAndBit(a3);
    HalveAndBit(a4);
    HalveAndBit(a5);
    HalveAndBit(a6);
    HalveAndBit(a7);
  }

  lemma OfValueValue(u: Octet)
    ensures OfValue(Value(u)) == u
  {
    hide Bit, Odd;
    var r7 := Bit(u.b7, 0);
    var r6 := Bit(u.b6, r7);
    var r5 := Bit(u.b5, r6);
    var r4 := Bit(u.b4, r5);
    var r3 := Bit(u.b3, r4);
    var r2 := Bit(u.b2, r3);
    var r1 := Bit(u.b1, r2);
    BitParts(u.b0, r1);
    BitParts(u.b1, r2);
    BitParts(u.b2, r3);
    BitParts(u.b3, r4);
    BitParts(u.b4, r5);
    BitParts(u.b5, r6);
    BitParts(u.b6, r7);
    BitParts(u.b7, 0);
  }
}
