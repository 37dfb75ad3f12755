/** Bytes as numbers, and their exclusive or. */
module Bits {

  type Byte = b: int | 0 <= b < 256

  function Zeros(n: nat): (z: seq<Byte>)
    ensures |z| == n
  {
    seq(n, _ => 0)
  }

  function Pow2(n: nat): (r: nat)
    ensures r > 0
  {
    if n == 0 then 1 else 2 * Pow2(n - 1)
  }

  /** Bit by bit: a bit of the result is set where the two numbers differ. */
  function XorNat(a: nat, b: nat): nat
    decreases a + b
  {
    if a == 0 && b == 0 then 0 else (if a % 2 == b % 2 then 0 else 1) + 2 * XorNat(a / 2, b / 2)
  }

  lemma {:induction false} XorNatBound(a: nat, b: nat, n: nat)
    requires a < Pow2(n) && b < Pow2(n)
    ensures XorNat(a, b) < Pow2(n)
    decreases n
  {
    if n > 0 { XorNatBound(a / 2, b / 2, n - 1); }
  }

  lemma Pow2Of8()
    ensures Pow2(8) == 256
  {
    assert Pow2(4) == 16;
    assert Pow2(8) == 16 * Pow2(4);
  }

  function Xor(a: Byte, b: Byte): Byte {
    Pow2Of8();
    XorNatBound(a, b, 8);
    XorNat(a, b)
  }

  lemma {:induction false} XorNatTwice(a: nat, b: nat)
    ensures XorNat(XorNat(a, b), b) == a
    decreases a + b
  {
    if a + b > 0 {
      var x, r := XorNat(a / 2, b / 2), XorNat(a, b);
      assert r / 2 == x && r % 2 == (if a % 2 == b % 2 then 0 else 1);
      XorNatTwice(a / 2, b / 2);
    }
  }

  lemma {:induction false} XorNatCommutes(a: nat, b: nat)
    ensures XorNat(a, b) == XorNat(b, a)
    decreases a + b
  {
    if a + b > 0 { XorNatCommutes(a / 2, b / 2); }
  }

  lemma {:induction false} XorNatSelf(a: nat)
    ensures XorNat(a, a) == 0
  {
    if a > 0 { XorNatSelf(a / 2); }
  }

  lemma {:induction false} XorNatZero(a: nat)
    ensures XorNat(0, a) == a
  {
    if a > 0 { XorNatZero(a / 2); }
  }

  /** Masking twice gives the byte back. */
  lemma XorTwice(a: Byte, b: Byte)
    ensures Xor(Xor(a, b), b) == a
  {
    XorNatTwice(a, b);
  }

  lemma XorCommutes(a: Byte, b: Byte)
    ensures Xor(a, b) == Xor(b, a)
  {
    XorNatCommutes(a, b);
  }

  /** A byte flipped by a mask differs from itself by the mask. */
  lemma XorDifference(a: Byte, m: Byte)
    ensures Xor(a, Xor(a, m)) == m
  {
    XorCommutes(a, m);
    XorTwice(m, a);
    XorCommutes(Xor(m, a), a);
  }

  lemma XorIsZero(a: Byte, b: Byte)
    ensures Xor(a, b) == 0 <==> a == b
  {
    XorNatSelf(a);
    XorTwice(a, b);
    XorNatZero(b);
  }

  /** Distances to the same target tell bytes apart. */
  lemma XorInjective(a: Byte, b: Byte, t: Byte)
    requires Xor(a, t) == Xor(b, t)
    ensures a == b
  {
    XorTwice(a, t);
    XorTwice(b, t);
  }
}
