/** The buffered sponge of crypto/sha3/sha3.go against the one-shot sponge of section 4 of FIPS 202,
    with the multi-rate padding of its section 5.1.  The permutation is a parameter. */
module Sponge {
  import opened Common
  import Bits

  type Byte = Bits.Byte

  const WIDTH: nat := 200
  const MAX_RATE: nat := 168

  /** The state as a byte string, as FIPS 202 sees it. */
  type State = s: seq<Byte> | |s| == WIDTH witness seq(WIDTH, _ => 0)

  predicate IsRate(r: nat) { 0 < r <= MAX_RATE && r % 8 == 0 }

  function Xor(s: State, t: State): State {
    seq(WIDTH, i requires 0 <= i < WIDTH => Bits.Xor(s[i], t[i]))
  }

  // ----- section 4: absorb, then squeeze

  function AbsorbBlock(f: State -> State, s: State, block: seq<Byte>): State
    requires |block| <= WIDTH
  {
    f(Xor(s, block + Bits.Zeros(WIDTH - |block|)))
  }

  function Absorb(f: State -> State, rate: nat, s: State, p: seq<Byte>): State
    requires IsRate(rate)
    decreases |p|
  {
    if |p| < rate then s else Absorb(f, rate, AbsorbBlock(f, s, p[..rate]), p[rate..])
  }

  function Squeeze(f: State -> State, rate: nat, s: State, d: nat): (z: seq<Byte>)
    requires IsRate(rate)
    ensures |z| == d
    decreases d
  {
    if d <= rate then s[..d] else s[..rate] + Squeeze(f, rate, f(s), d - rate)
  }

  /** The suffix bits, the first padding bit and the last padding bit, with zeros in between. */
  function Padding(q: nat, ds: Byte): (p: seq<Byte>)
    requires q > 0
    ensures |p| == q
  {
    if q == 1 then [Bits.Xor(ds, 0x80)] else [ds] + Bits.Zeros(q - 2) + [0x80]
  }

  function Pad(m: seq<Byte>, rate: nat, ds: Byte): seq<Byte>
    requires IsRate(rate)
  {
    m + Padding(rate - |m| % rate, ds)
  }

  function Absorbed(f: State -> State, rate: nat, ds: Byte, m: seq<Byte>): State
    requires IsRate(rate)
  {
    Absorb(f, rate, Bits.Zeros(WIDTH), Pad(m, rate, ds))
  }

  function OneShot(f: State -> State, rate: nat, ds: Byte, m: seq<Byte>, d: nat): (z: seq<Byte>)
    requires IsRate(rate)
    ensures |z| == d
  {
    Squeeze(f, rate, Absorbed(f, rate, ds, m), d)
  }

  /** A message shorter than a block is hashed by one permutation: of its padded block, filled up with zeros.
      The output is the front of the result, and behind a block of it comes the front of the next
      permutation. */
  lemma ShortMessage(f: State -> State, rate: nat, ds: Byte, m: seq<Byte>, d: nat)
    requires IsRate(rate) && |m| < rate && d <= 2 * rate
    ensures var s := f(m + Padding(rate - |m|, ds) + Bits.Zeros(WIDTH - rate));
            OneShot(f, rate, ds, m, d) == if d <= rate then s[..d] else s[..rate] + f(s)[..d - rate]
  {
    OneBlockAbsorbed(f, rate, ds, m);
    var s := f(m + Padding(rate - |m|, ds) + Bits.Zeros(WIDTH - rate));
    assert OneShot(f, rate, ds, m, d) == Squeeze(f, rate, s, d);
    TwoBlocksSqueezed(f, rate, s, d);
  }

  lemma OneBlockAbsorbed(f: State -> State, rate: nat, ds: Byte, m: seq<Byte>)
    requires IsRate(rate) && |m| < rate
    ensures Absorbed(f, rate, ds, m) == f(m + Padding(rate - |m|, ds) + Bits.Zeros(WIDTH - rate))
  {
    var p := m + Padding(rate - |m|, ds);
    SmallRemainder(|m|, rate);
    BlockOfZeros(f, rate, p);
  }

  lemma SmallRemainder(n: nat, rate: nat)
    requires n < rate
    ensures n % rate == n
  {
  }

  lemma BlockOfZeros(f: State -> State, rate: nat, p: seq<Byte>)
    requires IsRate(rate) && |p| == rate
    ensures Absorb(f, rate, Bits.Zeros(WIDTH), p) == f(p + Bits.Zeros(WIDTH - rate))
  {
    AbsorbOne(f, rate, Bits.Zeros(WIDTH), p);
    XorWithZeros(p + Bits.Zeros(WIDTH - rate));
  }

  lemma AbsorbOne(f: State -> State, rate: nat, s: State, p: seq<Byte>)
    requires IsRate(rate) && |p| == rate
    ensures Absorb(f, rate, s, p) == AbsorbBlock(f, s, p)
  {
    assert p[..rate] == p && p[rate..] == [];
  }

  lemma XorWithZeros(block: State)
    ensures Xor(Bits.Zeros(WIDTH), block) == block
  {
    forall i | 0 <= i < WIDTH ensures Xor(Bits.Zeros(WIDTH), block)[i] == block[i] {
      Bits.XorCommutes(0, block[i]);
      Bits.XorNatZero(block[i]);
    }
  }

  lemma TwoBlocksSqueezed(f: State -> State, rate: nat, s: State, d: nat)
    requires IsRate(rate) && d <= 2 * rate
    ensures Squeeze(f, rate, s, d) == if d <= rate then s[..d] else s[..rate] + f(s)[..d - rate]
  {
  }

  // ----- section 5.1: the padding, bit by bit

  function ByteBits(b: Byte): (r: seq<bool>)
    ensures |r| == 8
  {
    [b % 2 == 1, (b / 2) % 2 == 1, (b / 4) % 2 == 1, (b / 8) % 2 == 1,
     (b / 16) % 2 == 1, (b / 32) % 2 == 1, (b / 64) % 2 == 1, (b / 128) % 2 == 1]
  }

  function AllBits(s: seq<Byte>): (r: seq<bool>)
    ensures |r| == 8 * |s|
  {
    if s == [] then [] else ByteBits(s[0]) + AllBits(s[1..])
  }

  function Falses(n: nat): (z: seq<bool>)
    ensures |z| == n
  {
    seq(n, _ => false)
  }

  /** pad10*1: a one, as few zeros as possible, and a one. */
  function Pad101(x: nat, m: nat): (p: seq<bool>)
    requires x > 0
  {
    Frame((-(m as int) - 2) % x)
  }

  lemma Pad101Fills(x: nat, m: nat)
    requires x > 0
    ensures (m + |Pad101(x, m)|) % x == 0
  {
    ModNeg(m, x);
  }

  lemma ModNeg(m: nat, x: nat)
    requires x > 0
    ensures (m + 2 + (-(m as int) - 2) % x) % x == 0
  {
    var n := -(m as int) - 2;
    var q := n / x;
    assert n == x * q + n % x;
    MultipleMod(-q, x);
    assert (-q) * x == -(x * q);
  }

  lemma MultipleMod(q: int, x: nat)
    requires x > 0
    ensures (q * x) % x == 0
  {
    QuotientIsUnique(q * x, x, q, 0);
  }

  lemma MulAtLeast(x: nat, k: int)
    requires k >= 1
    ensures x * k >= x
  {
  }

  lemma QuotientIsUnique(a: int, x: nat, q: int, r: int)
    requires x > 0 && a == x * q + r && 0 <= r < x
    ensures a % x == r && a / x == q
  {
    SameQuotient(x, q, r, a / x, a % x);
  }

  lemma SameQuotient(x: nat, q: int, r: int, p: int, s: int)
    requires x * p + s == x * q + r && 0 <= r < x && 0 <= s < x
    ensures p == q && r == s
  {
    assert x * (p - q) == x * p - x * q && x * (q - p) == x * q - x * p;
    if p > q { MulAtLeast(x, p - q); }
    if p < q { MulAtLeast(x, q - p); }
  }

  /** A domain byte carries the suffix bits and the first one bit of the padding. */
  predicate Carries(ds: Byte, suffix: seq<bool>) {
    |suffix| <= 6 && ByteBits(ds) == suffix + [true] + Falses(7 - |suffix|)
  }

  /** Flipping a top bit that is not set adds it. */
  lemma {:induction false} XorTopBit(b: nat, k: nat)
    requires b < Bits.Pow2(k)
    ensures Bits.XorNat(b, Bits.Pow2(k)) == b + Bits.Pow2(k)
    decreases k
  {
    if k == 0 {
      assert Bits.XorNat(0, 1) == 1 + 2 * Bits.XorNat(0, 0);
    } else {
      assert Bits.Pow2(k) / 2 == Bits.Pow2(k - 1) && Bits.Pow2(k) % 2 == 0;
      XorTopBit(b / 2, k - 1);
    }
  }

  lemma LastBit(b: Byte)
    requires b < 128
    ensures Bits.Xor(b, 0x80) == b + 128
  {
    assert Bits.Pow2(7) == 128;
    XorTopBit(b, 7);
  }

  lemma FewBits()
    ensures ByteBits(0) == Falses(8) && ByteBits(0x80) == Falses(7) + [true]
  {
  }

  lemma {:induction false} AllBitsConcat(s: seq<Byte>, t: seq<Byte>)
    ensures AllBits(s + t) == AllBits(s) + AllBits(t)
  {
    if s == [] {
      assert s + t == t;
    } else {
      AllBitsConcat(s[1..], t);
      assert (s + t)[1..] == s[1..] + t;
      Regroup(ByteBits(s[0]), AllBits(s[1..]), AllBits(t));
    }
  }

  lemma {:induction false} ZeroBits(n: nat)
    ensures AllBits(Bits.Zeros(n)) == Falses(8 * n)
  {
    if n > 0 {
      ZeroBits(n - 1);
      FewBits();
      assert Bits.Zeros(n)[1..] == Bits.Zeros(n - 1);
      assert Falses(8) + Falses(8 * n - 8) == Falses(8 * n);
    }
  }

  lemma OneByteBits(b: Byte)
    ensures AllBits([b]) == ByteBits(b)
  {
  }

  /** The bits of one-one-zeros-one, with `j` zeros. */
  function Frame(j: nat): (p: seq<bool>)
    ensures |p| == j + 2
  {
    [true] + Falses(j) + [true]
  }

  /** Bit k of a number, and of the number with 128 added, for k below 7. */
  lemma SameBit(b: nat, k: nat, q: nat)
    requires k > 0 && q * (2 * k) == 128
    ensures ((b + 128) / k) % 2 == (b / k) % 2
  {
    assert (b + 128) / k == b / k + 2 * q by {
      QuotientIsUnique(b + 128, k, b / k + 2 * q, b % k);
    }
  }

  lemma TopBitAdded(b: Byte)
    requires b < 128
    ensures ByteBits(b + 128) == ByteBits(b)[..7] + [true]
  {
    SameBit(b, 1, 64);
    SameBit(b, 2, 32);
    SameBit(b, 4, 16);
    SameBit(b, 8, 8);
    SameBit(b, 16, 4);
    SameBit(b, 32, 2);
    SameBit(b, 64, 1);
  }

  lemma OnePaddingByte(ds: Byte, suffix: seq<bool>)
    requires Carries(ds, suffix)
    ensures ByteBits(Bits.Xor(ds, 0x80)) == suffix + Frame(6 - |suffix|)
  {
    assert !ByteBits(ds)[7];
    LastBit(ds);
    TopBitAdded(ds);
  }

  lemma PaddingBits(q: nat, ds: Byte, suffix: seq<bool>)
    requires q > 0 && Carries(ds, suffix)
    ensures AllBits(Padding(q, ds)) == suffix + Frame(8 * q - |suffix| - 2)
  {
    if q == 1 {
      OnePaddingByte(ds, suffix);
      OneByteBits(Bits.Xor(ds, 0x80));
    } else {
      LongPadding(q, ds);
      JoinFrame(suffix, 8 * (q - 2));
    }
  }

  lemma LongPadding(q: nat, ds: Byte)
    requires q >= 2
    ensures AllBits(Padding(q, ds)) == ByteBits(ds) + Falses(8 * (q - 2)) + (Falses(7) + [true])
  {
    AllBitsConcat([ds] + Bits.Zeros(q - 2), [0x80]);
    AllBitsConcat([ds], Bits.Zeros(q - 2));
    OneByteBits(ds);
    OneByteBits(0x80);
    ZeroBits(q - 2);
    FewBits();
  }

  lemma JoinFrame(suffix: seq<bool>, n: nat)
    requires |suffix| <= 6
    ensures suffix + [true] + Falses(7 - |suffix|) + Falses(n) + (Falses(7) + [true])
         == suffix + Frame(14 + n - |suffix|)
  {
  }

  lemma MessageBits(m: seq<Byte>, q: nat, ds: Byte, suffix: seq<bool>)
    requires q > 0 && Carries(ds, suffix)
    ensures AllBits(m + Padding(q, ds)) == AllBits(m) + suffix + Frame(8 * q - |suffix| - 2)
  {
    PaddingBits(q, ds, suffix);
    AppendBits(m, Padding(q, ds), suffix, Frame(8 * q - |suffix| - 2));
  }

  /** The padded message is the message, the suffix bits and pad10*1, for every message. */
  lemma PadIsPad101(m: seq<Byte>, rate: nat, ds: Byte, suffix: seq<bool>)
    requires IsRate(rate) && Carries(ds, suffix)
    ensures AllBits(Pad(m, rate, ds)) == AllBits(m) + suffix + Pad101(8 * rate, |AllBits(m) + suffix|)
  {
    MessageBits(m, rate - |m| % rate, ds, suffix);
    PadLength(|m|, rate, |suffix|);
  }

  lemma PadLength(n: nat, rate: nat, k: nat)
    requires IsRate(rate) && k <= 6
    ensures Pad101(8 * rate, 8 * n + k) == Frame(8 * (rate - n % rate) - k - 2)
  {
    ZerosNeeded(n, rate, k);
  }

  lemma AppendBits(m: seq<Byte>, t: seq<Byte>, a: seq<bool>, b: seq<bool>)
    requires AllBits(t) == a + b
    ensures AllBits(m + t) == AllBits(m) + a + b
  {
    AllBitsConcat(m, t);
    Regroup(AllBits(m), a, b);
  }

  lemma ZerosNeeded(n: nat, rate: nat, k: nat)
    requires IsRate(rate) && k <= 6
    ensures (-((8 * n + k) as int) - 2) % (8 * rate) == 8 * (rate - n % rate) - k - 2
  {
    var c, r := n / rate, n % rate;
    assert n == rate * c + r;
    var j := 8 * (rate - r) - k - 2;
    assert (8 * rate) * (-(c + 1)) == -8 * (rate * c) - 8 * rate;
    QuotientIsUnique(-((8 * n + k) as int) - 2, 8 * rate, -(c + 1), j);
  }

  /** The domain bytes of SHA-3, SHAKE and the original Keccak carry their suffixes. */
  lemma DomainBytes()
    ensures Carries(0x06, [false, true]) && Carries(0x1f, [true, true, true, true]) && Carries(0x01, [])
  {
    assert ByteBits(0x06) == [false, true, true, false, false, false, false, false];
    assert ByteBits(0x1f) == [true, true, true, true, true, false, false, false];
    assert ByteBits(0x01) == [true, false, false, false, false, false, false, false];
  }

  // ----- chunks

  /** The length of `n` blocks. */
  function Times(n: nat, rate: nat): nat {
    if n == 0 then 0 else Times(n - 1, rate) + rate
  }

  lemma {:induction false} TimesIsProduct(n: nat, rate: nat)
    ensures Times(n, rate) == n * rate
    decreases n
  {
    if n > 0 { TimesIsProduct(n - 1, rate); }
  }

  /** Absorbing whole blocks and then one more. */
  lemma {:induction false} AbsorbSnoc(f: State -> State, rate: nat, s: State, p: seq<Byte>, n: nat, block: seq<Byte>)
    requires IsRate(rate) && |p| == Times(n, rate) && |block| == rate
    ensures Absorb(f, rate, s, p + block) == AbsorbBlock(f, Absorb(f, rate, s, p), block)
    decreases n
  {
    if n == 0 {
      assert p + block == block && block[..rate] == block && block[rate..] == [];
      assert Absorb(f, rate, AbsorbBlock(f, s, block), []) == AbsorbBlock(f, s, block);
    } else {
      var t := AbsorbBlock(f, s, p[..rate]);
      assert (p + block)[..rate] == p[..rate] && (p + block)[rate..] == p[rate..] + block;
      AbsorbSnoc(f, rate, t, p[rate..], n - 1, block);
    }
  }

  function Iterate(f: State -> State, s: State, k: nat): State
    decreases k
  {
    if k == 0 then s else Iterate(f, f(s), k - 1)
  }

  lemma {:induction false} IterateSnoc(f: State -> State, s: State, k: nat)
    ensures Iterate(f, s, k + 1) == f(Iterate(f, s, k))
    decreases k
  {
    if k > 0 { IterateSnoc(f, f(s), k - 1); }
  }

  /** The output goes on inside the current block. */
  lemma {:induction false} SqueezeMore(f: State -> State, rate: nat, s: State, k: nat, lo: nat, n: nat, g: nat)
    requires IsRate(rate) && lo + n <= rate && g == Times(k, rate) + lo
    ensures Squeeze(f, rate, s, g + n) == Squeeze(f, rate, s, g) + Iterate(f, s, k)[lo..lo + n]
    decreases k
  {
    if k == 0 {
      assert s[..lo + n] == s[..lo] + s[lo..lo + n];
    } else {
      var h := g - rate;
      SqueezeMore(f, rate, f(s), k - 1, lo, n, h);
      SqueezeStep(f, rate, s, h);
      SqueezeStep(f, rate, s, h + n);
      Regroup(s[..rate], Squeeze(f, rate, f(s), h), Iterate(f, f(s), k - 1)[lo..lo + n]);
    }
  }

  lemma SqueezeStep(f: State -> State, rate: nat, s: State, g: nat)
    requires IsRate(rate)
    ensures Squeeze(f, rate, s, g + rate) == s[..rate] + Squeeze(f, rate, f(s), g)
  {
  }
}
