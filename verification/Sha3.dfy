/** The sponge object of crypto/sha3/sha3.go: the state, a byte buffer inside a fixed storage, and a
    direction.  A 64-bit lane is the eight bytes it is read from and written to, in little-endian order
    (crypto/sha3/xor_generic.go). */
module Sha3 {
  import opened Common
  import Bits
  import opened Sponge

  const LANE: nat := 8

  lemma XorNothing(b: Byte)
    ensures Bits.Xor(b, 0) == b && Bits.Xor(0, b) == b
  {
    Bits.XorNatZero(b);
    Bits.XorCommutes(0, b);
  }

  /** The first `n` bytes of the block have been xored in. */
  ghost predicate XoredUpTo(a: State, b: State, block: seq<Byte>, n: nat)
    requires n <= |block| <= WIDTH
  {
    && (forall j :: 0 <= j < n ==> b[j] == Bits.Xor(a[j], block[j]))
    && (forall j :: n <= j < WIDTH ==> b[j] == a[j])
  }

  lemma XoredAll(a: State, b: State, block: seq<Byte>)
    requires |block| <= WIDTH && XoredUpTo(a, b, block, |block|)
    ensures b == Xor(a, block + Bits.Zeros(WIDTH - |block|))
  {
    forall i | 0 <= i < WIDTH ensures b[i] == Xor(a, block + Bits.Zeros(WIDTH - |block|))[i] {
      XorNothing(a[i]);
    }
  }

  lemma HeadMod(n: nat, rate: nat, h: nat)
    requires h < rate
    ensures (Times(n, rate) + h) % rate == h
  {
    TimesIsProduct(n, rate);
    QuotientIsUnique(n * rate + h, rate, n, h);
  }

  /** The state after the padded message. */
  lemma PaddedBlock(f: State -> State, m: seq<Byte>, n: nat, rate: nat, h: nat, ds: Byte)
    requires IsRate(rate) && h < rate && |m| == Times(n, rate) + h
    ensures Absorbed(f, rate, ds, m)
         == AbsorbBlock(f, Absorb(f, rate, Bits.Zeros(WIDTH), m[..|m| - h]), m[|m| - h..] + Padding(rate - h, ds))
  {
    PadSplits(m, n, rate, h, ds);
    AbsorbSnoc(f, rate, Bits.Zeros(WIDTH), m[..|m| - h], n, m[|m| - h..] + Padding(rate - h, ds));
  }

  /** The output goes on with what the buffer holds. */
  lemma OutputMore(f: State -> State, rate: nat, ds: Byte, m: seq<Byte>, given: seq<Byte>, a: State, dry: nat,
                   lo: nat, k: nat)
    requires IsRate(rate) && lo + k <= rate && a == Iterate(f, Absorbed(f, rate, ds, m), dry)
    requires |given| == Times(dry, rate) + lo && given == OneShot(f, rate, ds, m, |given|)
    ensures given + a[lo..lo + k] == OneShot(f, rate, ds, m, |given| + k)
  {
    SqueezeMore(f, rate, Absorbed(f, rate, ds, m), dry, lo, k, |given|);
  }

  lemma NothingYet(f: State -> State, rate: nat, ds: Byte, m: seq<Byte>)
    requires IsRate(rate)
    ensures OneShot(f, rate, ds, m, 0) == [] && Iterate(f, Absorbed(f, rate, ds, m), 0) == Absorbed(f, rate, ds, m)
  {
  }

  lemma SameRange(s: seq<Byte>, t: seq<Byte>, n: nat, lo: nat, k: nat)
    requires n <= |s| && n <= |t| && s[..n] == t[..n] && lo + k <= n
    ensures s[lo..lo + k] == t[lo..lo + k]
  {
  }

  lemma LastByte(pre: seq<Byte>, ds: Byte, n: nat)
    requires n > 0
    ensures var b := pre + [ds] + Bits.Zeros(n - 1); b[|b| - 1 := Bits.Xor(b[|b| - 1], 0x80)] == pre + Padding(n, ds)
  {
    XorNothing(0x80);
  }

  method CopyRange(dst: array<Byte>, i: nat, src: array<Byte>, j: nat, n: nat)
    requires dst != src && i + n <= dst.Length && j + n <= src.Length
    modifies dst
    ensures dst[..i] == old(dst[..i]) && dst[i..i + n] == src[j..j + n]
  {
    for k := 0 to n
      invariant dst[..i] == old(dst[..i]) && dst[i..i + k] == src[j..j + k]
    {
      dst[i + k] := src[j + k];
      assert dst[i..i + k + 1] == dst[i..i + k] + [src[j + k]];
    }
  }

  /** The padded message is its whole blocks and one more block. */
  lemma PadSplits(m: seq<Byte>, n: nat, rate: nat, h: nat, ds: Byte)
    requires IsRate(rate) && h < rate && |m| == Times(n, rate) + h
    ensures Pad(m, rate, ds) == m[..|m| - h] + (m[|m| - h..] + Padding(rate - h, ds))
  {
    HeadMod(n, rate, h);
    assert m == m[..|m| - h] + m[|m| - h..];
    Regroup(m[..|m| - h], m[|m| - h..], Padding(rate - h, ds));
  }

  method CopyAll(dst: array<Byte>, src: array<Byte>)
    requires dst != src && dst.Length == src.Length
    modifies dst
    ensures dst[..] == src[..]
  {
    CopyRange(dst, 0, src, 0, src.Length);
    assert dst[..] == dst[0..0 + src.Length] && src[..] == src[0..0 + src.Length];
  }

  /** The whole blocks of the message are absorbed, and the rest is buffered. */
  ghost predicate Buffered(f: State -> State, rate: nat, a: State, buf: seq<Byte>, written: seq<Byte>, full: nat)
    requires IsRate(rate)
  {
    |buf| <= |written|
    && (|written|, a, buf)
    == (Times(full, rate) + |buf|, Absorb(f, rate, Bits.Zeros(WIDTH), written[..|written| - |buf|]),
        written[|written| - |buf|..])
  }

  /** More of the message goes into the buffer. */
  lemma BufferMore(f: State -> State, rate: nat, a: State, buf: seq<Byte>, written: seq<Byte>, full: nat,
                   part: seq<Byte>)
    requires IsRate(rate) && Buffered(f, rate, a, buf, written, full)
    ensures Buffered(f, rate, a, buf + part, written + part, full)
  {
    var n := |written| - |buf|;
    assert (written + part)[..n] == written[..n] && (written + part)[n..] == written[n..] + part;
  }

  /** A full buffer goes into the state. */
  lemma FullBufferAbsorbed(f: State -> State, rate: nat, a: State, buf: seq<Byte>, written: seq<Byte>, full: nat)
    requires IsRate(rate) && Buffered(f, rate, a, buf, written, full) && |buf| == rate
    ensures Buffered(f, rate, AbsorbBlock(f, a, buf), [], written, full + 1)
  {
    var n := |written| - |buf|;
    AbsorbSnoc(f, rate, Bits.Zeros(WIDTH), written[..n], full, buf);
    assert written == written[..n] + buf && written[..|written|] == written && written[|written|..] == [];
    assert Times(full + 1, rate) == Times(full, rate) + rate;
  }

  /** With an empty buffer a block of the message goes straight into the state. */
  lemma BlockAbsorbed(f: State -> State, rate: nat, a: State, written: seq<Byte>, full: nat, block: seq<Byte>)
    requires IsRate(rate) && Buffered(f, rate, a, [], written, full) && |block| == rate
    ensures Buffered(f, rate, AbsorbBlock(f, a, block), [], written + block, full + 1)
  {
    BufferMore(f, rate, a, [], written, full, block);
    assert [] + block == block;
    FullBufferAbsorbed(f, rate, a, block, written + block, full);
  }

  /** The padded rest goes into the state, and nothing is given yet. */
  lemma PaddedAbsorbed(f: State -> State, rate: nat, ds: Byte, a: State, buf: seq<Byte>, written: seq<Byte>, full: nat)
    requires IsRate(rate) && Buffered(f, rate, a, buf, written, full) && |buf| < rate
    ensures Squeezed(f, rate, ds, AbsorbBlock(f, a, buf + Padding(rate - |buf|, ds)), 0, written, [], 0)
  {
    PaddedBlock(f, written, full, rate, |buf|, ds);
    NothingYet(f, rate, ds, written);
  }

  lemma NextBlock(f: State -> State, rate: nat, ds: Byte, a: State, written: seq<Byte>, given: seq<Byte>, dry: nat)
    requires IsRate(rate) && Squeezed(f, rate, ds, a, rate, written, given, dry)
    ensures Squeezed(f, rate, ds, f(a), 0, written, given, dry + 1)
  {
    IterateSnoc(f, Absorbed(f, rate, ds, written), dry);
  }

  /** So many blocks are squeezed dry, and `lo` bytes of the next one are given. */
  ghost predicate Squeezed(f: State -> State, rate: nat, ds: Byte, a: State, lo: nat, written: seq<Byte>,
                           given: seq<Byte>, dry: nat)
    requires IsRate(rate)
  {
    (a, |given|, given)
    == (Iterate(f, Absorbed(f, rate, ds, written), dry), Times(dry, rate) + lo, OneShot(f, rate, ds, written, |given|))
  }

  class Hash {
    const f: State -> State
    const rate: nat
    const dsbyte: Byte
    const outputLen: nat
    const a: array<Byte>
    const storage: array<Byte>
    var lo: nat
    var hi: nat
    var squeezing: bool
    /** What has been written and what has been read; the whole blocks absorbed, and those squeezed dry. */
    ghost var written: seq<Byte>
    ghost var given: seq<Byte>
    ghost var full: nat
    ghost var dry: nat

    ghost predicate Shape() {
      IsRate(rate) && a.Length == WIDTH && storage.Length == MAX_RATE && a != storage
    }

    ghost predicate AbsorbingOk()
      requires Shape()
      reads this, a, storage
    {
      lo == 0 && hi <= rate && given == [] && Buffered(f, rate, a[..], storage[..hi], written, full)
    }

    ghost predicate SqueezingOk()
      requires Shape()
      reads this, a, storage
    {
      && lo <= rate && hi == rate && storage[..rate] == a[..rate]
      && Squeezed(f, rate, dsbyte, a[..], lo, written, given, dry)
    }

    ghost predicate Valid()
      reads this, a, storage
    {
      Shape() && if squeezing then SqueezingOk() && lo < rate else AbsorbingOk() && hi < rate
    }

    constructor (f: State -> State, rate: nat, dsbyte: Byte, outputLen: nat)
      requires IsRate(rate)
      ensures Valid() && !squeezing && written == [] && fresh(a) && fresh(storage)
      ensures this.f == f && this.rate == rate && this.dsbyte == dsbyte && this.outputLen == outputLen
    {
      this.f, this.rate, this.dsbyte, this.outputLen := f, rate, dsbyte, outputLen;
      a := new Byte[WIDTH](_ => 0);
      storage := new Byte[MAX_RATE](_ => 0);
      lo, hi, squeezing, written, given, full, dry := 0, 0, false, [], [], 0, 0;
      new;
      assert a[..] == Bits.Zeros(WIDTH);
    }

    /** Whole lanes of the block are xored into the state. */
    method XorIn(block: seq<Byte>)
      requires a.Length == WIDTH && |block| <= WIDTH && |block| % LANE == 0
      modifies a
      ensures a[..] == Xor(old(a[..]), block + Bits.Zeros(WIDTH - |block|))
    {
      for i := 0 to |block| / LANE
        invariant XoredUpTo(old(a[..]), a[..], block, LANE * i)
      {
        for k := 0 to LANE
          invariant XoredUpTo(old(a[..]), a[..], block, LANE * i + k)
        {
          a[LANE * i + k] := Bits.Xor(a[LANE * i + k], block[LANE * i + k]);
        }
      }
      XoredAll(old(a[..]), a[..], block);
    }

    /** The permutation, in place. */
    method KeccakF()
      requires a.Length == WIDTH
      modifies a
      ensures a[..] == f(old(a[..]))
    {
      var s := f(a[..]);
      for i := 0 to WIDTH
        invariant forall j :: 0 <= j < i ==> a[j] == s[j]
      {
        a[i] := s[i];
      }
    }

    method CopyOut()
      requires Shape()
      modifies storage
      ensures storage[..rate] == a[..rate]
    {
      for i := 0 to rate / LANE
        invariant storage[..LANE * i] == a[..LANE * i]
      {
        for k := 0 to LANE
          invariant storage[..LANE * i + k] == a[..LANE * i + k]
        {
          storage[LANE * i + k] := a[LANE * i + k];
        }
      }
    }

    /** A full block goes into the state. */
    method AbsorbFull(block: seq<Byte>)
      requires Shape() && |block| == rate
      modifies a
      ensures a[..] == AbsorbBlock(f, old(a[..]), block)
    {
      XorIn(block);
      KeccakF();
    }

    /** The buffer is full: xor it in, empty it, and permute. */
    method PermuteAbsorbing()
      requires Shape() && lo == 0 && hi == rate && !squeezing
      modifies a, this`hi
      ensures a[..] == AbsorbBlock(f, old(a[..]), old(storage[..rate])) && hi == 0
    {
      AbsorbFull(storage[..rate]);
      hi := 0;
    }

    /** The buffer is dry: permute, and take the next block of output. */
    method PermuteSqueezing()
      requires Shape() && squeezing
      modifies a, storage, this`lo, this`hi
      ensures a[..] == f(old(a[..])) && lo == 0 && hi == rate && storage[..rate] == a[..rate]
    {
      KeccakF();
      lo, hi := 0, rate;
      CopyOut();
    }

    /** Absorb more of the message, in any state of the buffer. */
    method Write(p: seq<Byte>) returns (n: nat)
      requires Valid() && !squeezing
      modifies this, a, storage
      ensures Valid() && !squeezing && n == |p|
      ensures written == old(written) + p
    {
      n := |p|;
      var i := 0;
      while i < |p|
        invariant i <= |p| && Valid() && !squeezing && written == old(written) + p[..i]
        decreases |p| - i
      {
        var todo := WriteSome(p, i);
        i := i + todo;
      }
      assert p[..|p|] == p;
    }

    /** One turn: a whole block directly, or as much as the buffer takes. */
    method WriteSome(p: seq<Byte>, i: nat) returns (todo: nat)
      requires Valid() && !squeezing && i < |p|
      modifies a, storage, this`hi, this`written, this`full
      ensures Valid() && 0 < todo <= |p| - i
      ensures written == old(written) + p[i..i + todo]
    {
      if hi == 0 && |p| - i >= rate {
        todo := rate;
        WriteDirect(p[i..i + todo]);
      } else {
        todo := if rate - hi > |p| - i then |p| - i else rate - hi;
        WriteBuffered(p[i..i + todo]);
      }
    }

    /** The fast path. */
    method WriteDirect(block: seq<Byte>)
      requires Valid() && !squeezing && hi == 0 && |block| == rate
      modifies a, this`written, this`full
      ensures Valid() && written == old(written) + block
    {
      assert storage[..hi] == [];
      BlockAbsorbed(f, rate, a[..], written, full, block);
      ghost var next := AbsorbBlock(f, a[..], block);
      AbsorbFull(block);
      written, full := written + block, full + 1;
      assert a[..] == next && storage[..hi] == [];
    }

    /** The slow path. */
    method WriteBuffered(part: seq<Byte>)
      requires Valid() && !squeezing && 0 < |part| <= rate - hi
      modifies a, storage, this`hi, this`written, this`full
      ensures Valid() && written == old(written) + part
    {
      Buffer(part);
      if hi == rate {
        Flush();
      }
    }

    method Buffer(part: seq<Byte>)
      requires Shape() && AbsorbingOk() && |part| <= rate - hi
      modifies storage, this`hi, this`written
      ensures AbsorbingOk() && written == old(written) + part
    {
      BufferMore(f, rate, a[..], storage[..hi], written, full, part);
      Append(part);
      written := written + part;
    }

    /** A full buffer is absorbed. */
    method Flush()
      requires Shape() && AbsorbingOk() && hi == rate && !squeezing
      modifies a, this`hi, this`full
      ensures Valid()
    {
      FullBufferAbsorbed(f, rate, a[..], storage[..hi], written, full);
      PermuteAbsorbing();
      full := full + 1;
    }

    method Append(part: seq<Byte>)
      requires Shape() && hi + |part| <= rate
      modifies storage, this`hi
      ensures hi == old(hi) + |part| && storage[..hi] == old(storage[..hi]) + part
    {
      var h := hi;
      for i := 0 to |part|
        invariant hi == h && storage[..h + i] == old(storage[..hi]) + part[..i]
      {
        storage[h + i] := part[i];
        assert storage[..h + i + 1] == storage[..h + i] + [part[i]];
      }
      hi := h + |part|;
    }

    /** The buffer with its padding: the domain byte, zeros, and the last one bit. */
    method PadBuffer()
      requires Shape() && lo == 0 && hi < rate
      modifies storage, this`hi
      ensures hi == rate && storage[..rate] == old(storage[..hi]) + Padding(rate - old(hi), dsbyte)
    {
      var h := hi;
      ghost var pre := storage[..h];
      ZeroFill();
      LastByte(pre, dsbyte, rate - h);
      ghost var b := storage[..rate];
      storage[rate - 1] := Bits.Xor(storage[rate - 1], 0x80);
      assert storage[..rate] == b[rate - 1 := Bits.Xor(b[rate - 1], 0x80)];
    }

    method ZeroFill()
      requires Shape() && lo == 0 && hi < rate
      modifies storage, this`hi
      ensures hi == rate && storage[..rate] == old(storage[..hi]) + [dsbyte] + Bits.Zeros(rate - old(hi) - 1)
    {
      var h := hi;
      storage[h] := dsbyte;
      for i := h + 1 to rate
        invariant storage[..i] == old(storage[..hi]) + [dsbyte] + Bits.Zeros(i - h - 1)
      {
        storage[i] := 0;
      }
      hi := rate;
    }

    method PadAndPermute()
      requires Valid() && !squeezing
      modifies this, a, storage
      ensures Valid() && squeezing && given == [] && written == old(written)
    {
      PaddedAbsorbed(f, rate, dsbyte, a[..], storage[..hi], written, full);
      PadBuffer();
      PermuteAbsorbing();
      TurnAround();
    }

    /** The sponge turns from absorbing to squeezing. */
    method TurnAround()
      requires Shape() && given == [] && Squeezed(f, rate, dsbyte, a[..], 0, written, [], 0)
      modifies this`squeezing, this`lo, this`hi, this`dry, storage
      ensures Valid() && squeezing
    {
      squeezing, lo, hi, dry := true, 0, rate, 0;
      CopyOut();
    }

    /** Squeeze into `out`: with what was read before, it is the one-shot output. */
    method Read(out: array<Byte>) returns (n: nat)
      requires Valid() && out != a && out != storage
      modifies this, a, storage, out
      ensures Valid() && squeezing && n == out.Length
      ensures written == old(written) && given == old(given) + out[..]
      ensures given == OneShot(f, rate, dsbyte, written, |given|)
    {
      if !squeezing {
        PadAndPermute();
      }
      n := out.Length;
      ReadOn(out);
    }

    method ReadOn(out: array<Byte>)
      requires Valid() && squeezing && out != a && out != storage
      modifies a, storage, this`lo, this`hi, this`dry, this`given, out
      ensures Valid() && given == old(given) + out[..]
    {
      var i := 0;
      ghost var before := given;
      while i < out.Length
        invariant i <= out.Length && Valid() && given == before + out[..i]
        decreases out.Length - i
      {
        ghost var done := out[..i];
        var k := Take(out, i);
        assert out[..i + k] == done + out[i..i + k];
        Regroup(before, done, out[i..i + k]);
        i := i + k;
      }
      assert out[..] == out[..i];
    }

    /** Copy from the buffer what it has and `out` can take, and refill it when it is dry. */
    method Take(out: array<Byte>, i: nat) returns (k: nat)
      requires Valid() && squeezing && out != a && out != storage && i < out.Length
      modifies a, storage, this`lo, this`hi, this`dry, this`given, out
      ensures Valid() && 0 < k <= out.Length - i
      ensures out[..i] == old(out[..i]) && given == old(given) + out[i..i + k]
    {
      k := if out.Length - i < hi - lo then out.Length - i else hi - lo;
      CopyRange(out, i, storage, lo, k);
      Advance(k);
    }

    method Advance(k: nat)
      requires Valid() && squeezing && k <= hi - lo
      modifies a, storage, this`lo, this`hi, this`dry, this`given
      ensures Valid() && given == old(given) + old(storage[lo..lo + k])
    {
      Give(k);
      if lo == hi {
        Refill();
      }
    }

    method Give(k: nat)
      requires Shape() && SqueezingOk() && k <= hi - lo
      modifies this`lo, this`given
      ensures SqueezingOk() && given == old(given) + storage[old(lo)..old(lo) + k]
    {
      OutputMore(f, rate, dsbyte, written, given, a[..], dry, lo, k);
      SameRange(a[..], storage[..], rate, lo, k);
      given := given + storage[lo..lo + k];
      lo := lo + k;
    }

    method Refill()
      requires Shape() && squeezing && SqueezingOk() && lo == rate
      modifies a, storage, this`lo, this`hi, this`dry
      ensures Valid()
    {
      NextBlock(f, rate, dsbyte, a[..], written, given, dry);
      PermuteSqueezing();
      dry := dry + 1;
    }

    method Clone() returns (h: Hash)
      requires Valid() && !squeezing
      ensures fresh(h) && fresh(h.a) && fresh(h.storage) && h.Valid() && !h.squeezing
      ensures h.f == f && h.rate == rate && h.dsbyte == dsbyte && h.outputLen == outputLen && h.written == written
    {
      h := new Hash(f, rate, dsbyte, outputLen);
      CopyAll(h.a, a);
      CopyAll(h.storage, storage);
      h.lo, h.hi, h.written, h.full := lo, hi, written, full;
      assert h.storage[..hi] == h.storage[..][..hi] == storage[..][..hi] == storage[..hi];
    }

    /** The hash of what has been written so far; the object itself is left as it was. */
    method Sum(prefix: seq<Byte>) returns (r: seq<Byte>)
      requires Valid() && !squeezing
      ensures r == prefix + OneShot(f, rate, dsbyte, written, outputLen)
    {
      var dup := Clone();
      var hash := ReadSome(dup, outputLen);
      assert dup.given == hash;
      r := prefix + hash;
    }
  }

  // ----- any chunking

  function Concat(chunks: seq<seq<Byte>>): seq<Byte> {
    if chunks == [] then [] else Concat(chunks[..|chunks| - 1]) + chunks[|chunks| - 1]
  }

  function Total(sizes: seq<nat>): nat {
    if sizes == [] then 0 else Total(sizes[..|sizes| - 1]) + sizes[|sizes| - 1]
  }

  /** Any chunking of the message into writes, with a Sum after each of them. */
  method WriteChunks(h: Hash, chunks: seq<seq<Byte>>) returns (sums: seq<seq<Byte>>)
    requires h.Valid() && !h.squeezing && h.written == []
    modifies h, h.a, h.storage
    ensures h.Valid() && !h.squeezing && h.written == Concat(chunks) && |sums| == |chunks|
    ensures SumsOf(h.f, h.rate, h.dsbyte, h.outputLen, chunks, sums)
    decreases |chunks|
  {
    sums := [];
    if chunks != [] {
      var n := |chunks| - 1;
      sums := WriteChunks(h, chunks[..n]);
      var sum := WriteAndSum(h, chunks[n]);
      SumsSnoc(h.f, h.rate, h.dsbyte, h.outputLen, chunks, sums, sum);
      sums := sums + [sum];
    }
  }

  lemma SumsSnoc(f: State -> State, rate: nat, ds: Byte, d: nat, chunks: seq<seq<Byte>>, sums: seq<seq<Byte>>,
                 sum: seq<Byte>)
    requires IsRate(rate) && chunks != [] && |sums| == |chunks| - 1 && SumsOf(f, rate, ds, d, chunks[..|sums|], sums)
    requires sum == OneShot(f, rate, ds, Concat(chunks), d)
    ensures SumsOf(f, rate, ds, d, chunks, sums + [sum])
  {
    forall j | 0 <= j < |sums| + 1 ensures (sums + [sum])[j] == OneShot(f, rate, ds, Concat(chunks[..j + 1]), d) {
      SameChunks(chunks, |sums|, j);
    }
  }

  lemma SameChunks(chunks: seq<seq<Byte>>, n: nat, j: nat)
    requires n + 1 == |chunks| && j <= n
    ensures if j < n then chunks[..n][..j + 1] == chunks[..j + 1] else chunks[..j + 1] == chunks
  {
  }

  /** Each sum is the hash of the chunks up to its own. */
  ghost predicate SumsOf(f: State -> State, rate: nat, ds: Byte, d: nat, chunks: seq<seq<Byte>>, sums: seq<seq<Byte>>)
    requires IsRate(rate)
  {
    |sums| == |chunks| && forall j :: 0 <= j < |sums| ==> sums[j] == OneShot(f, rate, ds, Concat(chunks[..j + 1]), d)
  }

  method WriteAndSum(h: Hash, chunk: seq<Byte>) returns (sum: seq<Byte>)
    requires h.Valid() && !h.squeezing
    modifies h, h.a, h.storage
    ensures h.Valid() && !h.squeezing && h.written == old(h.written) + chunk
    ensures sum == OneShot(h.f, h.rate, h.dsbyte, h.written, h.outputLen)
  {
    var _ := h.Write(chunk);
    sum := h.Sum([]);
    ghost var all := OneShot(h.f, h.rate, h.dsbyte, h.written, h.outputLen);
    assert [] + all == all;
  }

  method ReadSome(h: Hash, n: nat) returns (out: seq<Byte>)
    requires h.Valid()
    modifies h, h.a, h.storage
    ensures h.Valid() && h.squeezing && h.written == old(h.written) && |out| == n && h.given == old(h.given) + out
    ensures h.given == OneShot(h.f, h.rate, h.dsbyte, h.written, |h.given|)
  {
    var buf := new Byte[n];
    var _ := h.Read(buf);
    out := buf[..];
  }

  /** Any chunking of the output into reads. */
  method ReadChunks(h: Hash, sizes: seq<nat>) returns (outs: seq<seq<Byte>>)
    requires h.Valid() && !h.squeezing
    modifies h, h.a, h.storage
    ensures CutTo(outs, sizes)
    ensures Concat(outs) == OneShot(h.f, h.rate, h.dsbyte, old(h.written), Total(sizes))
  {
    outs := ReadEach(h, sizes);
    CutToTotal(outs, sizes);
    GivenIsOutput(h);
  }

  method ReadEach(h: Hash, sizes: seq<nat>) returns (outs: seq<seq<Byte>>)
    requires h.Valid() && h.given == []
    modifies h, h.a, h.storage
    ensures h.Valid() && h.written == old(h.written)
    ensures CutTo(outs, sizes) && h.given == Concat(outs)
    decreases |sizes|
  {
    outs := [];
    if sizes != [] {
      var n := |sizes| - 1;
      outs := ReadEach(h, sizes[..n]);
      var out := ReadSome(h, sizes[n]);
      OneMoreRead(outs, sizes, out);
      outs := outs + [out];
    }
  }

  /** The pieces have these sizes. */
  predicate CutTo(outs: seq<seq<Byte>>, sizes: seq<nat>) {
    |outs| == |sizes| && forall i :: 0 <= i < |sizes| ==> |outs[i]| == sizes[i]
  }

  lemma OneMoreRead(outs: seq<seq<Byte>>, sizes: seq<nat>, out: seq<Byte>)
    requires sizes != [] && CutTo(outs, sizes[..|sizes| - 1]) && |out| == sizes[|sizes| - 1]
    ensures CutTo(outs + [out], sizes) && Concat(outs + [out]) == Concat(outs) + out
  {
    ConcatSnoc(outs, out);
  }

  lemma {:induction false} CutToTotal(outs: seq<seq<Byte>>, sizes: seq<nat>)
    requires CutTo(outs, sizes)
    ensures |Concat(outs)| == Total(sizes)
    decreases |outs|
  {
    if outs != [] { CutToTotal(outs[..|outs| - 1], sizes[..|sizes| - 1]); }
  }

  lemma GivenIsOutput(h: Hash)
    requires h.Valid()
    ensures h.given == OneShot(h.f, h.rate, h.dsbyte, h.written, |h.given|)
  {
  }

  lemma ConcatSnoc(outs: seq<seq<Byte>>, out: seq<Byte>)
    ensures Concat(outs + [out]) == Concat(outs) + out
  {
  }

  /** The reads together give the one-shot output of the concatenated writes, however both are cut,
      and each Sum in between gives the hash of what was written until then. */
  method HashInChunks(f: State -> State, rate: nat, dsbyte: Byte, outputLen: nat, chunks: seq<seq<Byte>>,
                      sizes: seq<nat>)
    returns (outs: seq<seq<Byte>>, sums: seq<seq<Byte>>)
    requires IsRate(rate)
    ensures |outs| == |sizes| && |sums| == |chunks|
    ensures forall i :: 0 <= i < |sizes| ==> |outs[i]| == sizes[i]
    ensures Concat(outs) == OneShot(f, rate, dsbyte, Concat(chunks), Total(sizes))
    ensures forall i :: 0 <= i < |chunks| ==> sums[i] == OneShot(f, rate, dsbyte, Concat(chunks[..i + 1]), outputLen)
  {
    var h := new Hash(f, rate, dsbyte, outputLen);
    sums := WriteChunks(h, chunks);
    outs := ReadChunks(h, sizes);
  }
}
