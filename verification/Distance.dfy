/** Hash distances (p2p/discover/node.go): hashes are compared by their exclusive or, read as a number. */
module Distance {
  import opened Bits

  type Bytes = seq<Byte>

  const HASH_LEN: nat := 32

  type Hash = h: Bytes | |h| == HASH_LEN witness seq(HASH_LEN, _ => 0)

  function XorSeq(a: Bytes, b: Bytes): (r: Bytes)
    requires |a| == |b|
    ensures |r| == |a|
  {
    seq(|a|, i requires 0 <= i < |a| => Xor(a[i], b[i]))
  }

  /** The big-endian number. */
  function Num(s: Bytes): nat {
    if s == [] then 0 else (s[0] as nat) * Pow2(8 * (|s| - 1)) + Num(s[1..])
  }

  function Dist(a: Hash, b: Hash): nat {
    Num(XorSeq(a, b))
  }

  /** The number of bits of a number. */
  function BitLen(n: nat): nat {
    if n == 0 then 0 else 1 + BitLen(n / 2)
  }

  // ----- numbers and their bytes

  lemma {:induction false} Pow2Add(m: nat, n: nat)
    ensures Pow2(m + n) == Pow2(m) * Pow2(n)
  {
    if m > 0 { Pow2Add(m - 1, n); }
  }

  lemma Pow2Byte(n: nat)
    ensures Pow2(8 * n + 8) == 256 * Pow2(8 * n)
  {
    Pow2Add(8, 8 * n);
    Pow2Of8();
  }

  lemma MulMono(a: nat, b: nat, c: nat)
    requires a <= b
    ensures a * c <= b * c
  {
  }

  lemma {:induction false} NumBound(s: Bytes)
    ensures Num(s) < Pow2(8 * |s|)
  {
    if s != [] {
      NumBound(s[1..]);
      Pow2Byte(|s| - 1);
      MulMono(s[0] as nat, 255, Pow2(8 * (|s| - 1)));
    }
  }

  /** The first byte where two numbers differ decides. */
  lemma {:induction false} NumDecides(u: Bytes, v: Bytes, i: nat)
    requires |u| == |v| && i < |u| && u[..i] == v[..i] && u[i] < v[i]
    ensures Num(u) < Num(v)
    decreases i
  {
    var p := Pow2(8 * (|u| - 1));
    if i == 0 {
      NumBound(u[1..]);
      MulMono((u[0] as nat) + 1, v[0] as nat, p);
      assert ((u[0] as nat) + 1) * p == (u[0] as nat) * p + p;
    } else {
      assert u[0] == u[..i][0] == v[..i][0] == v[0];
      assert u[1..][..i - 1] == u[..i][1..] && v[1..][..i - 1] == v[..i][1..];
      NumDecides(u[1..], v[1..], i - 1);
    }
  }

  lemma {:induction false} BitLenShift(h: nat, m: nat, r: nat)
    requires h > 0 && r < Pow2(m)
    ensures BitLen(h * Pow2(m) + r) == m + BitLen(h)
    decreases m
  {
    if m == 0 {
      assert h * Pow2(0) + r == h;
    } else {
      Halved(h, Pow2(m - 1), r);
      BitLenDouble(h * Pow2(m - 1) + r / 2, r % 2);
      BitLenShift(h, m - 1, r / 2);
    }
  }

  lemma Halved(h: nat, p: nat, r: nat)
    requires h > 0 && p > 0
    ensures h * (2 * p) + r == 2 * (h * p + r / 2) + r % 2 && h * p > 0
  {
    assert h * (2 * p) == 2 * (h * p);
    MulMono(1, h, p);
  }

  lemma BitLenDouble(x: nat, b: nat)
    requires x > 0 && b < 2
    ensures BitLen(2 * x + b) == 1 + BitLen(x)
  {
    assert (2 * x + b) / 2 == x;
  }

  /** Leading zero bytes do not count, and the first other byte gives the top bits. */
  lemma {:induction false} BitLenOfNum(s: Bytes, i: nat)
    requires i < |s| && s[i] != 0 && forall j :: 0 <= j < i ==> s[j] == 0
    ensures BitLen(Num(s)) == 8 * (|s| - i - 1) + BitLen(s[i])
    decreases i
  {
    if i == 0 {
      NumBound(s[1..]);
      BitLenShift(s[0], 8 * (|s| - 1), Num(s[1..]));
    } else {
      BitLenOfNum(s[1..], i - 1);
      assert s[0] == 0;
    }
  }

  lemma {:induction false} NumOfZeros(s: Bytes)
    requires forall j :: 0 <= j < |s| ==> s[j] == 0
    ensures Num(s) == 0
  {
    if s != [] { NumOfZeros(s[1..]); }
  }

  /** A number of `k` bits lies between the powers of two. */
  lemma {:induction false} BitLenIsLog(n: nat)
    requires n > 0
    ensures Pow2(BitLen(n) - 1) <= n < Pow2(BitLen(n))
  {
    if n > 1 { BitLenIsLog(n / 2); }
  }

  lemma {:induction false} BitLenUnique(n: nat, k: nat)
    requires k > 0 && Pow2(k - 1) <= n < Pow2(k)
    ensures BitLen(n) == k
    decreases k
  {
    if k > 1 {
      BitLenUnique(n / 2, k - 1);
    } else {
      assert n == 1 && BitLen(0) == 0;
    }
  }

  // ----- the order of distances

  /** Different hashes have different distances to a target. */
  lemma DistInjective(a: Hash, b: Hash, t: Hash)
    ensures Dist(a, t) == Dist(b, t) <==> a == b
  {
    if a != b {
      var i := FirstDifference(a, b);
      var u, v := XorSeq(a, t), XorSeq(b, t);
      assert u[..i] == v[..i];
      if u[i] == v[i] { XorInjective(a[i], b[i], t[i]); }
      if u[i] < v[i] { NumDecides(u, v, i); } else { NumDecides(v, u, i); }
    }
  }

  lemma {:induction false} FirstDifference(a: Bytes, b: Bytes) returns (i: nat)
    requires |a| == |b| && a != b
    ensures i < |a| && a[..i] == b[..i] && a[i] != b[i]
    decreases |a|
  {
    if a[0] != b[0] {
      i := 0;
    } else {
      assert a == [a[0]] + a[1..] && b == [b[0]] + b[1..];
      var k := FirstDifference(a[1..], b[1..]);
      i := k + 1;
      assert a[..i] == [a[0]] + a[1..][..k] && b[..i] == [b[0]] + b[1..][..k];
    }
  }

  /** The sign of the comparison of the two distances. */
  method DistCmp(target: Hash, a: Hash, b: Hash) returns (r: int)
    ensures r == -1 <==> Dist(a, target) < Dist(b, target)
    ensures r == 1 <==> Dist(a, target) > Dist(b, target)
    ensures r == 0 <==> a == b
    ensures -1 <= r <= 1
  {
    ghost var u, v := XorSeq(a, target), XorSeq(b, target);
    DistInjective(a, b, target);
    for i := 0 to HASH_LEN
      invariant u[..i] == v[..i]
    {
      var da, db := Xor(a[i], target[i]), Xor(b[i], target[i]);
      if da > db {
        NumDecides(v, u, i);
        return 1;
      } else if da < db {
        NumDecides(u, v, i);
        return -1;
      }
    }
    assert u == v;
    return 0;
  }

  // ----- logarithmic distance

  /** The table of leading zero counts of bytes. */
  function LzCount(x: Byte): nat {
    if x == 0 then 8 else if x < 2 then 7 else if x < 4 then 6 else if x < 8 then 5
    else if x < 16 then 4 else if x < 32 then 3 else if x < 64 then 2 else if x < 128 then 1 else 0
  }

  lemma LzCountIsBitLen(x: Byte)
    ensures LzCount(x) + BitLen(x) == 8
  {
    assert Pow2(0) == 1 && Pow2(1) == 2 && Pow2(2) == 4 && Pow2(3) == 8;
    assert Pow2(4) == 16 && Pow2(5) == 32 && Pow2(6) == 64 && Pow2(7) == 128;
    Pow2Of8();
    if x > 0 { BitLenUnique(x, 8 - LzCount(x)); }
  }

  method LogDist(a: Hash, b: Hash) returns (d: nat)
    ensures d == BitLen(Dist(a, b))
  {
    ghost var x := XorSeq(a, b);
    var lz := 0;
    for i := 0 to HASH_LEN
      invariant lz == 8 * i && forall j :: 0 <= j < i ==> x[j] == 0
    {
      var c := Xor(a[i], b[i]);
      LzCountIsBitLen(c);
      if c == 0 {
        lz := lz + 8;
      } else {
        BitLenOfNum(x, i);
        return HASH_LEN * 8 - (lz + LzCount(c));
      }
    }
    NumOfZeros(x);
    return 0;
  }

  // ----- a hash at a given distance

  /** The bit to flip: bit n-1, counted from the end. */
  function FlipBit(n: nat): (r: (nat, Byte))
    requires 0 < n <= 8 * HASH_LEN
    ensures r.0 < HASH_LEN
  {
    if n % 8 == 0 then (HASH_LEN - n / 8, 0x80)
    else (HASH_LEN - n / 8 - 1, [0, 1, 2, 4, 8, 16, 32, 64][n % 8])
  }

  lemma FlipBitPlace(n: nat)
    requires 0 < n <= 8 * HASH_LEN
    ensures FlipBit(n).1 != 0 && 8 * (HASH_LEN - FlipBit(n).0 - 1) + BitLen(FlipBit(n).1) == n
  {
    LzCountIsBitLen(FlipBit(n).1);
  }

  /** The hash keeps the bytes before the flipped bit; the bytes after it are random. */
  method HashAtDistance(a: Hash, n: nat, random: Hash) returns (b: Hash)
    requires n <= 8 * HASH_LEN
    ensures BitLen(Dist(a, b)) == n
  {
    if n == 0 {
      SelfDistance(a);
      return a;
    }
    var (pos, bit) := FlipBit(n);
    var r: Bytes := a[pos := Xor(a[pos], bit)];
    for i := pos + 1 to HASH_LEN
      invariant |r| == HASH_LEN && r[..pos] == a[..pos] && r[pos] == Xor(a[pos], bit)
    {
      r := r[i := random[i]];
    }
    b := r;
    ghost var x := XorSeq(a, b);
    forall j | 0 <= j < pos ensures x[j] == 0 {
      assert b[j] == r[..pos][j] == a[..pos][j];
      XorIsZero(a[j], b[j]);
    }
    XorDifference(a[pos], bit);
    FlipBitPlace(n);
    BitLenOfNum(x, pos);
  }

  lemma SelfDistance(a: Hash)
    ensures Dist(a, a) == 0
  {
    forall j | 0 <= j < HASH_LEN ensures XorSeq(a, a)[j] == 0 { XorIsZero(a[j], a[j]); }
    NumOfZeros(XorSeq(a, a));
  }
}
