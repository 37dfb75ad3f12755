/** The sparse byte codec of common/bitutil/compress.go: a recursive bitset encoding. */
module BitsetCodec {
  import opened Common

  type byte = bv8

  datatype Error = MissingData | UnreferencedData | ExceededTarget | ZeroContent
  datatype Partial = Decoded(out: seq<byte>, size: nat) | Rejected(error: Error)
  datatype Result = Ok(out: seq<byte>) | Err(error: Error)

  // ----- bits, most significant first

  function Mask(k: int): byte {
    if k == 0 then 128 else if k == 1 then 64 else if k == 2 then 32 else if k == 3 then 16
    else if k == 4 then 8 else if k == 5 then 4 else if k == 6 then 2 else 1
  }

  function Pack(b0: bool, b1: bool, b2: bool, b3: bool, b4: bool, b5: bool, b6: bool, b7: bool): byte {
    (if b0 then 128 else 0) | (if b1 then 64 else 0) | (if b2 then 32 else 0) | (if b3 then 16 else 0)
    | (if b4 then 8 else 0) | (if b5 then 4 else 0) | (if b6 then 2 else 0) | (if b7 then 1 else 0)
  }

  predicate Set(x: seq<byte>, i: int) {
    0 <= i < |x| && x[i] != 0
  }

  /** Byte j of the bitset of x: one bit for each of x[8j..8j+8]. */
  function PackByte(x: seq<byte>, j: nat): byte {
    Pack(Set(x, 8 * j), Set(x, 8 * j + 1), Set(x, 8 * j + 2), Set(x, 8 * j + 3),
         Set(x, 8 * j + 4), Set(x, 8 * j + 5), Set(x, 8 * j + 6), Set(x, 8 * j + 7))
  }

  function Bitset(x: seq<byte>): (bs: seq<byte>)
    ensures |bs| == (|x| + 7) / 8
  {
    seq((|x| + 7) / 8, j requires 0 <= j => PackByte(x, j))
  }

  predicate BitAt(b: byte, k: int) {
    b & Mask(k) != 0
  }

  predicate Bit(bs: seq<byte>, i: nat)
    requires i < 8 * |bs|
  {
    BitAt(bs[i / 8], i % 8)
  }

  lemma PackBits(b0: bool, b1: bool, b2: bool, b3: bool, b4: bool, b5: bool, b6: bool, b7: bool)
    ensures var p := Pack(b0, b1, b2, b3, b4, b5, b6, b7);
            && (BitAt(p, 0) <==> b0) && (BitAt(p, 1) <==> b1) && (BitAt(p, 2) <==> b2) && (BitAt(p, 3) <==> b3)
            && (BitAt(p, 4) <==> b4) && (BitAt(p, 5) <==> b5) && (BitAt(p, 6) <==> b6) && (BitAt(p, 7) <==> b7)
  {
  }

  /** A byte is the packing of its bits. */
  lemma PackIsAll(b: byte)
    ensures b == Pack(BitAt(b, 0), BitAt(b, 1), BitAt(b, 2), BitAt(b, 3),
                      BitAt(b, 4), BitAt(b, 5), BitAt(b, 6), BitAt(b, 7))
  {
  }

  /** Bit k counts from the most significant one. */
  lemma BitOrder(b: byte, k: nat)
    requires k < 8
    ensures BitAt(b, k) <==> (b >> (7 - k)) & 1 == 1
  {
    if k == 0 { assert b & 128 != 0 <==> (b >> 7) & 1 == 1; }
    else if k == 1 { assert b & 64 != 0 <==> (b >> 6) & 1 == 1; }
    else if k == 2 { assert b & 32 != 0 <==> (b >> 5) & 1 == 1; }
    else if k == 3 { assert b & 16 != 0 <==> (b >> 4) & 1 == 1; }
    else if k == 4 { assert b & 8 != 0 <==> (b >> 3) & 1 == 1; }
    else if k == 5 { assert b & 4 != 0 <==> (b >> 2) & 1 == 1; }
    else if k == 6 { assert b & 2 != 0 <==> (b >> 1) & 1 == 1; }
    else { assert b & 1 != 0 <==> (b >> 0) & 1 == 1; }
  }

  lemma PackByteBit(x: seq<byte>, j: nat, k: nat)
    requires k < 8
    ensures BitAt(PackByte(x, j), k) <==> Set(x, 8 * j + k)
  {
    PackBits(Set(x, 8 * j), Set(x, 8 * j + 1), Set(x, 8 * j + 2), Set(x, 8 * j + 3),
             Set(x, 8 * j + 4), Set(x, 8 * j + 5), Set(x, 8 * j + 6), Set(x, 8 * j + 7));
  }

  lemma BitsetBit(x: seq<byte>, i: nat)
    requires i < 8 * |Bitset(x)|
    ensures Bit(Bitset(x), i) <==> Set(x, i)
  {
    PackByteBit(x, i / 8, i % 8);
    assert i == 8 * (i / 8) + i % 8;
  }

  lemma ByteDetermined(x: seq<byte>, j: nat, b: byte)
    requires forall k: nat :: k < 8 ==> (BitAt(b, k) <==> Set(x, 8 * j + k))
    ensures b == PackByte(x, j)
  {
    assert BitAt(b, 0) <==> Set(x, 8 * j + 0);
    assert BitAt(b, 1) <==> Set(x, 8 * j + 1);
    assert BitAt(b, 2) <==> Set(x, 8 * j + 2);
    assert BitAt(b, 3) <==> Set(x, 8 * j + 3);
    assert BitAt(b, 4) <==> Set(x, 8 * j + 4);
    assert BitAt(b, 5) <==> Set(x, 8 * j + 5);
    assert BitAt(b, 6) <==> Set(x, 8 * j + 6);
    assert BitAt(b, 7) <==> Set(x, 8 * j + 7);
    PackIsAll(b);
  }

  /** A bitset is determined by its bits. */
  lemma BitsDetermine(x: seq<byte>, bs: seq<byte>)
    requires |bs| == (|x| + 7) / 8
    requires forall i: nat :: i < 8 * |bs| ==> (Bit(bs, i) <==> Set(x, i))
    ensures bs == Bitset(x)
  {
    forall j | 0 <= j < |bs| ensures bs[j] == Bitset(x)[j] {
      forall k: nat | k < 8 ensures BitAt(bs[j], k) <==> Set(x, 8 * j + k) {
        var i := 8 * j + k;
        assert i / 8 == j && i % 8 == k && Bit(bs, i) == BitAt(bs[j], k);
      }
      ByteDetermined(x, j, bs[j]);
    }
  }

  // ----- encoding

  function NonZero(x: seq<byte>): seq<byte> {
    if x == [] then [] else (if x[0] != 0 then [x[0]] else []) + NonZero(x[1..])
  }

  lemma {:induction false} NonZeroAppend(x: seq<byte>, y: seq<byte>)
    ensures NonZero(x + y) == NonZero(x) + NonZero(y)
  {
    if x == [] {
      assert x + y == y;
    } else {
      var head: seq<byte> := if x[0] != 0 then [x[0]] else [];
      NonZeroAppend(x[1..], y);
      assert (x + y)[1..] == x[1..] + y;
      assert head + (NonZero(x[1..]) + NonZero(y)) == head + NonZero(x[1..]) + NonZero(y);
    }
  }

  predicate AllZero(x: seq<byte>) {
    forall i :: 0 <= i < |x| ==> x[i] == 0
  }

  lemma {:induction false} NonZeroEmpty(x: seq<byte>)
    ensures NonZero(x) == [] <==> AllZero(x)
    ensures forall b :: b in NonZero(x) ==> b != 0
  {
    if x != [] {
      NonZeroEmpty(x[1..]);
      assert AllZero(x) <==> x[0] == 0 && AllZero(x[1..]);
    }
  }

  function Encode(x: seq<byte>): seq<byte>
    decreases |x|
  {
    if |x| == 0 then []
    else if |x| == 1 then if x[0] == 0 then [] else x
    else if NonZero(x) == [] then []
    else Encode(Bitset(x)) + NonZero(x)
  }

  // ----- decoding

  /** The bits of a bitset, in order. */
  function BitsOf(bs: seq<byte>): (m: seq<bool>)
    ensures |m| == 8 * |bs|
  {
    seq(8 * |bs|, i requires 0 <= i < 8 * |bs| => Bit(bs, i))
  }

  /** The distribution loop from mark i on: each mark takes the next byte of the data. */
  function Distribute(marks: seq<bool>, data: seq<byte>, ptr: nat, i: nat, decomp: seq<byte>): Partial
    requires i <= |marks|
    decreases |marks| - i
  {
    if i == |marks| then Decoded(decomp, ptr)
    else if !marks[i] then Distribute(marks, data, ptr, i + 1, decomp)
    else if ptr >= |data| then Rejected(MissingData)
    else if i >= |decomp| then Rejected(ExceededTarget)
    else if data[ptr] == 0 then Rejected(ZeroContent)
    else Distribute(marks, data, ptr + 1, i + 1, decomp[i := data[ptr]])
  }

  function Zeros(n: nat): (z: seq<byte>)
    ensures |z| == n && AllZero(z)
  {
    seq(n, _ => 0)
  }

  function DecodePartial(data: seq<byte>, target: nat): Partial
    decreases target
  {
    if target == 0 then Decoded([], 0)
    else if |data| == 0 then Decoded(Zeros(target), 0)
    else if target == 1 then Decoded([data[0]], if data[0] != 0 then 1 else 0)
    else match DecodePartial(data, (target + 7) / 8)
      case Rejected(e) => Rejected(e)
      case Decoded(bs, ptr) => Distribute(BitsOf(bs), data, ptr, 0, Zeros(target))
  }

  // ----- decode after encode

  function Min(a: nat, b: nat): nat { if a < b then a else b }

  /** The non-zero byte at position i stands after the non-zero bytes before it. */
  lemma NonZeroAt(x: seq<byte>, i: nat)
    requires i < |x|
    ensures NonZero(x[..i + 1]) == NonZero(x[..i]) + (if x[i] != 0 then [x[i]] else [])
    ensures x[i] != 0 ==> |NonZero(x[..i])| < |NonZero(x)| && NonZero(x)[|NonZero(x[..i])|] == x[i]
  {
    assert x[..i + 1] == x[..i] + [x[i]];
    NonZeroAppend(x[..i], [x[i]]);
    assert [x[i]][1..] == [] && NonZero([]) == [];
    assert NonZero([x[i]]) == if x[i] != 0 then [x[i]] else [];
    assert x == x[..i + 1] + x[i + 1..];
    NonZeroAppend(x[..i + 1], x[i + 1..]);
  }

  /** The first i bytes of x, the rest still zero. */
  function Partly(x: seq<byte>, i: nat): seq<byte> {
    if i >= |x| then x else x[..i] + Zeros(|x| - i)
  }

  /** The non-zero bytes of x are marked, and nothing behind its end. */
  ghost predicate Marks(marks: seq<bool>, x: seq<byte>) {
    |marks| >= |x| && forall i :: 0 <= i < |marks| ==> (marks[i] <==> Set(x, i))
  }

  lemma SkipSlot(marks: seq<bool>, data: seq<byte>, ptr: nat, i: nat, decomp: seq<byte>)
    requires i < |marks| && !marks[i]
    ensures Distribute(marks, data, ptr, i, decomp) == Distribute(marks, data, ptr, i + 1, decomp)
  {
  }

  lemma FillSlot(marks: seq<bool>, data: seq<byte>, ptr: nat, i: nat, decomp: seq<byte>)
    requires i < |marks| && marks[i] && ptr < |data| && i < |decomp| && data[ptr] != 0
    ensures Distribute(marks, data, ptr, i, decomp) == Distribute(marks, data, ptr + 1, i + 1, decomp[i := data[ptr]])
  {
  }

  /** How many of the first i bytes are not zero. */
  function Count(x: seq<byte>, i: nat): nat {
    if i == 0 then 0 else Count(x, i - 1) + if Set(x, i - 1) then 1 else 0
  }

  lemma {:induction false} CountIs(x: seq<byte>, i: nat)
    requires i <= |x|
    ensures Count(x, i) == |NonZero(x[..i])|
    decreases i
  {
    if i > 0 {
      CountIs(x, i - 1);
      NonZeroAt(x, i - 1);
    }
  }

  /** Behind the end there is nothing to count. */
  lemma {:induction false} CountAll(x: seq<byte>, i: nat)
    requires i >= |x|
    ensures Count(x, i) == |NonZero(x)|
    decreases i
  {
    if i > |x| {
      CountAll(x, i - 1);
    } else {
      CountIs(x, |x|);
      assert x[..|x|] == x;
    }
  }

  /** A marked slot takes the next non-zero byte. */
  lemma MarkedSlot(x: seq<byte>, data: seq<byte>, start: nat, i: nat)
    requires Set(x, i)
    requires start + |NonZero(x)| <= |data| && data[start..start + |NonZero(x)|] == NonZero(x)
    ensures start + Count(x, i) < |data| && data[start + Count(x, i)] == x[i]
  {
    NonZeroAt(x, i);
    CountIs(x, i);
    var k := Count(x, i);
    assert data[start + k] == data[start..start + |NonZero(x)|][k];
  }

  lemma PartlyFilled(x: seq<byte>, i: nat)
    ensures Set(x, i) ==> i < |Partly(x, i)| && Partly(x, i + 1) == Partly(x, i)[i := x[i]]
    ensures !Set(x, i) ==> Partly(x, i + 1) == Partly(x, i)
  {
  }

  /** The distribution from mark `i` on, with the slots before it already right. */
  function Rest(x: seq<byte>, marks: seq<bool>, data: seq<byte>, start: nat, i: nat): Partial
    requires i <= |marks|
  {
    Distribute(marks, data, start + Count(x, i), i, Partly(x, i))
  }

  /** One turn of the loop on a half rebuilt sequence. */
  lemma SlotRebuilt(x: seq<byte>, marks: seq<bool>, data: seq<byte>, start: nat, i: nat)
    requires Marks(marks, x) && i < |marks|
    requires start + |NonZero(x)| <= |data| && data[start..start + |NonZero(x)|] == NonZero(x)
    ensures Rest(x, marks, data, start, i) == Rest(x, marks, data, start, i + 1)
  {
    PartlyFilled(x, i);
    if marks[i] {
      MarkedSlot(x, data, start, i);
      FillSlot(marks, data, start + Count(x, i), i, Partly(x, i));
    } else {
      SkipSlot(marks, data, start + Count(x, i), i, Partly(x, i));
    }
  }

  lemma DistributeRebuilds(x: seq<byte>, marks: seq<bool>, data: seq<byte>, start: nat)
    requires Marks(marks, x)
    requires start + |NonZero(x)| <= |data| && data[start..start + |NonZero(x)|] == NonZero(x)
    ensures Rest(x, marks, data, start, 0) == Decoded(x, start + |NonZero(x)|)
  {
    var i := 0;
    while i < |marks|
      invariant i <= |marks| && Rest(x, marks, data, start, 0) == Rest(x, marks, data, start, i)
    {
      SlotRebuilt(x, marks, data, start, i);
      i := i + 1;
    }
    CountAll(x, |marks|);
  }

  lemma BitsetOfNonZero(x: seq<byte>)
    requires !AllZero(x)
    ensures !AllZero(Bitset(x))
  {
    var i :| 0 <= i < |x| && x[i] != 0;
    BitsetBit(x, i);
    assert Bitset(x)[i / 8] != 0;
  }

  lemma BitsetMarks(x: seq<byte>)
    ensures Marks(BitsOf(Bitset(x)), x)
  {
    forall i | 0 <= i < 8 * |Bitset(x)| ensures BitsOf(Bitset(x))[i] <==> Set(x, i) {
      BitsetBit(x, i);
    }
  }

  lemma DecodeStep(data: seq<byte>, target: nat, bs: seq<byte>, ptr: nat)
    requires target >= 2 && |data| > 0 && DecodePartial(data, (target + 7) / 8) == Decoded(bs, ptr)
    ensures DecodePartial(data, target) == Distribute(BitsOf(bs), data, ptr, 0, Zeros(target))
  {
  }

  lemma RestAtStart(x: seq<byte>, marks: seq<bool>, data: seq<byte>, start: nat)
    ensures Rest(x, marks, data, start, 0) == Distribute(marks, data, start, 0, Zeros(|x|))
  {
    assert Partly(x, 0) == Zeros(|x|);
  }

  /** With the bitset decoded from the front of the data, the bytes behind it rebuild x. */
  lemma RebuildBehind(x: seq<byte>, data: seq<byte>, ptr: nat)
    requires |x| >= 2 && |data| > 0 && ptr + |NonZero(x)| <= |data|
    requires data[ptr..ptr + |NonZero(x)|] == NonZero(x)
    requires DecodePartial(data, |Bitset(x)|) == Decoded(Bitset(x), ptr)
    ensures DecodePartial(data, |x|) == Decoded(x, ptr + |NonZero(x)|)
  {
    var marks := BitsOf(Bitset(x));
    DecodeStep(data, |x|, Bitset(x), ptr);
    BitsetMarks(x);
    DistributeRebuilds(x, marks, data, ptr);
    RestAtStart(x, marks, data, ptr);
  }

  lemma RebuildAfterBitset(x: seq<byte>, front: seq<byte>, rest: seq<byte>)
    requires |x| >= 2 && !AllZero(x)
    requires DecodePartial(front + (NonZero(x) + rest), |Bitset(x)|) == Decoded(Bitset(x), |front|)
    ensures DecodePartial(front + (NonZero(x) + rest), |x|) == Decoded(x, |front| + |NonZero(x)|)
  {
    var nz := NonZero(x);
    NonZeroEmpty(x);
    MiddlePart(front, nz, rest);
    RebuildBehind(x, front + (nz + rest), |front|);
  }

  lemma MiddlePart(a: seq<byte>, b: seq<byte>, c: seq<byte>)
    ensures (a + (b + c))[|a|..|a| + |b|] == b
  {
  }

  /** Whatever follows it, the encoding of a sequence that is not all zero decodes to that sequence. */
  lemma {:induction false} EncodeThenDecode(x: seq<byte>, rest: seq<byte>)
    requires !AllZero(x)
    ensures DecodePartial(Encode(x) + rest, |x|) == Decoded(x, |Encode(x)|)
    decreases |x|
  {
    if |x| >= 2 {
      var bs, nz := Bitset(x), NonZero(x);
      BitsetOfNonZero(x);
      EncodeThenDecode(bs, nz + rest);
      RebuildAfterBitset(x, Encode(bs), rest);
      EncodeByBitset(x);
      Regroup(Encode(bs), nz, rest);
    } else {
      assert (x + rest)[0] == x[0];
    }
  }

  lemma {:induction false} EncodeZeros(x: seq<byte>)
    ensures Encode(x) == [] <==> AllZero(x)
  {
    NonZeroEmpty(x);
  }

  lemma DecodeIsInverse(x: seq<byte>)
    ensures DecodePartial(Encode(x), |x|) == Decoded(x, |Encode(x)|)
  {
    EncodeZeros(x);
    if AllZero(x) {
      assert x == Zeros(|x|);
    } else {
      EncodeThenDecode(x, []);
      assert Encode(x) + [] == Encode(x);
    }
  }

  /** Two to eight bytes, not all zero: one byte that marks the places of the non-zero bytes from its most
      significant bit on, and then these bytes in order. */
  lemma ShortEncoding(x: seq<byte>)
    requires 2 <= |x| <= 8 && !AllZero(x)
    ensures |Encode(x)| >= 2 && Encode(x)[1..] == NonZero(x)
    ensures forall k: nat :: k < 8 ==> ((Encode(x)[0] >> (7 - k)) & 1 == 1 <==> k < |x| && x[k] != 0)
  {
    var bs := Bitset(x);
    NonZeroEmpty(x);
    BitsetOfNonZero(x);
    EncodeByBitset(x);
    assert |bs| == 1 && bs[0] != 0 && Encode(bs) == bs;
    ShortBitset(x);
  }

  lemma ShortBitset(x: seq<byte>)
    requires 1 <= |x| <= 8
    ensures forall k: nat :: k < 8 ==> ((Bitset(x)[0] >> (7 - k)) & 1 == 1 <==> k < |x| && x[k] != 0)
  {
    forall k: nat | k < 8 ensures (Bitset(x)[0] >> (7 - k)) & 1 == 1 <==> k < |x| && x[k] != 0 {
      BitOrder(Bitset(x)[0], k);
      BitsetBit(x, k);
    }
  }

  // ----- encode after decode

  /** From mark `i` on, `out` has the marked slots set to the bytes from `ptr` to `size`. */
  ghost predicate Faithful(marks: seq<bool>, data: seq<byte>, ptr: nat, i: nat, decomp: seq<byte>, out: seq<byte>,
                           size: nat)
  {
    && |out| == |decomp| && ptr <= size <= |data|
    && out[..Min(i, |decomp|)] == decomp[..Min(i, |decomp|)]
    && (forall k :: i <= k < |marks| ==> (marks[k] <==> Set(out, k)))
    && NonZero(out[Min(i, |decomp|)..]) == data[ptr..size]
  }

  /** A successful distribution sets exactly the marked slots, with the bytes it has taken. */
  lemma {:induction false} DistributeIsFaithful(marks: seq<bool>, data: seq<byte>, ptr: nat, i: nat, decomp: seq<byte>)
    requires i <= |marks| && |decomp| <= |marks| && ptr <= |data|
    requires forall k :: i <= k < |decomp| ==> decomp[k] == 0
    requires Distribute(marks, data, ptr, i, decomp).Decoded?
    ensures var r := Distribute(marks, data, ptr, i, decomp); Faithful(marks, data, ptr, i, decomp, r.out, r.size)
    decreases |marks| - i
  {
    var r := Distribute(marks, data, ptr, i, decomp);
    if i == |marks| {
      assert decomp[Min(i, |decomp|)..] == [];
    } else if marks[i] {
      DistributeIsFaithful(marks, data, ptr + 1, i + 1, decomp[i := data[ptr]]);
      MarkedIsFaithful(marks, data, ptr, i, decomp, r.out, r.size);
    } else {
      DistributeIsFaithful(marks, data, ptr, i + 1, decomp);
      UnmarkedIsFaithful(marks, data, ptr, i, decomp, r.out, r.size);
    }
  }

  lemma MarkedIsFaithful(marks: seq<bool>, data: seq<byte>, ptr: nat, i: nat, decomp: seq<byte>, out: seq<byte>,
                         size: nat)
    requires i < |marks| && marks[i] && i < |decomp| && ptr < |data| && data[ptr] != 0
    requires Faithful(marks, data, ptr + 1, i + 1, decomp[i := data[ptr]], out, size)
    ensures Faithful(marks, data, ptr, i, decomp, out, size)
  {
  }

  lemma UnmarkedIsFaithful(marks: seq<bool>, data: seq<byte>, ptr: nat, i: nat, decomp: seq<byte>, out: seq<byte>,
                           size: nat)
    requires i < |marks| && !marks[i] && (i < |decomp| ==> decomp[i] == 0)
    requires Faithful(marks, data, ptr, i + 1, decomp, out, size)
    ensures Faithful(marks, data, ptr, i, decomp, out, size)
  {
  }

  lemma MarksDetermine(x: seq<byte>, bs: seq<byte>)
    requires |bs| == (|x| + 7) / 8 && Marks(BitsOf(bs), x)
    ensures bs == Bitset(x)
  {
    forall i: nat | i < 8 * |bs| ensures Bit(bs, i) <==> Set(x, i) {
      assert BitsOf(bs)[i] == Bit(bs, i);
    }
    BitsDetermine(x, bs);
  }

  /** Whenever partial decoding succeeds, encoding the result gives back exactly the bytes consumed. */
  lemma {:induction false} DecodeThenEncode(data: seq<byte>, target: nat)
    requires DecodePartial(data, target).Decoded?
    ensures var r := DecodePartial(data, target);
            |r.out| == target && r.size <= |data| && Encode(r.out) == data[..r.size]
    decreases target
  {
    var r := DecodePartial(data, target);
    if target == 0 || |data| == 0 {
      EncodeZeros(r.out);
    } else if target >= 2 {
      var b := DecodePartial(data, (target + 7) / 8);
      DecodeThenEncode(data, (target + 7) / 8);
      DecodeStep(data, target, b.out, b.size);
      DistributeIsFaithful(BitsOf(b.out), data, b.size, 0, Zeros(target));
      EncodeDistributed(data, b.out, b.size, r.out, r.size);
    }
  }

  /** The bytes of a bitset and the bytes it distributes are the encoding of the result. */
  lemma EncodeDistributed(data: seq<byte>, bs: seq<byte>, ptr: nat, out: seq<byte>, size: nat)
    requires |out| >= 2 && |bs| == (|out| + 7) / 8 && ptr <= |data| && Encode(bs) == data[..ptr]
    requires Faithful(BitsOf(bs), data, ptr, 0, Zeros(|out|), out, size)
    ensures Encode(out) == data[..size]
  {
    FaithfulFromStart(BitsOf(bs), data, ptr, out, size);
    MarksDetermine(out, bs);
    Glue(data, ptr, size);
    EncodeByBitset(out);
  }

  lemma Glue(data: seq<byte>, i: nat, j: nat)
    requires i <= j <= |data|
    ensures data[..j] == data[..i] + data[i..j]
  {
  }

  lemma FaithfulFromStart(marks: seq<bool>, data: seq<byte>, ptr: nat, out: seq<byte>, size: nat)
    requires |marks| >= |out| && Faithful(marks, data, ptr, 0, Zeros(|out|), out, size)
    ensures Marks(marks, out) && ptr <= size <= |data| && NonZero(out) == data[ptr..size]
  {
    assert out[0..] == out;
  }

  /** The encoding is that of the bitset and the non-zero bytes, all zeros included. */
  lemma EncodeByBitset(x: seq<byte>)
    requires |x| >= 2
    ensures Encode(x) == Encode(Bitset(x)) + NonZero(x)
  {
    if NonZero(x) == [] {
      NonZeroEmpty(x);
      BitsetOfZeros(x);
      EncodeZeros(Bitset(x));
    }
  }

  lemma BitsetOfZeros(x: seq<byte>)
    requires AllZero(x)
    ensures AllZero(Bitset(x))
  {
  }

  // ----- the public functions

  function Compress(data: seq<byte>): seq<byte> {
    if |Encode(data)| < |data| then Encode(data) else data
  }

  function DecodeAll(data: seq<byte>, target: nat): Result {
    match DecodePartial(data, target)
    case Rejected(e) => Err(e)
    case Decoded(out, size) => if size != |data| then Err(UnreferencedData) else Ok(out)
  }

  function Decompress(data: seq<byte>, target: int): Result {
    if |data| > target then Err(ExceededTarget)
    else if |data| == target then Ok(data)
    else DecodeAll(data, target)
  }

  /** Decompression undoes compression for every byte sequence. */
  lemma RoundTrip(x: seq<byte>)
    ensures Decompress(Compress(x), |x|) == Ok(x)
  {
    DecodeIsInverse(x);
  }

  /** The converse: what decompresses below the target size is exactly what compression produces, so
      accepted inputs are canonical.  At the target size the input is taken as it is, and it is
      canonical if and only if encoding would not have shortened it. */
  lemma AcceptedIsCanonical(data: seq<byte>, target: int)
    requires Decompress(data, target).Ok?
    ensures |Decompress(data, target).out| == target
    ensures Compress(Decompress(data, target).out) == data <==> |data| < target || |Encode(data)| >= |data|
  {
    if |data| < target {
      DecodeThenEncode(data, target);
      assert data[..|data|] == data;
    }
  }

  /** A single zero byte is accepted as it is, and compression would have given nothing. */
  lemma AcceptedNeedNotBeCanonical()
    ensures Decompress([0], 1) == Ok([0]) && Compress([0]) == []
  {
  }

  /** Different sequences of one length never share an encoding. */
  lemma CompressIsInjective(x: seq<byte>, y: seq<byte>)
    requires |x| == |y| && Compress(x) == Compress(y)
    ensures x == y
  {
    RoundTrip(x);
    RoundTrip(y);
  }

  // ----- the loops

  lemma PackSet(x: seq<byte>, i: nat, j: nat)
    requires i < |x|
    ensures PackByte(x[..i + 1], j)
         == if j == i / 8 && x[i] != 0 then PackByte(x[..i], j) | Mask(i % 8) else PackByte(x[..i], j)
  {
    var a, b := x[..i], x[..i + 1];
    assert forall k: nat :: k != i ==> (Set(a, k) <==> Set(b, k));
    assert !Set(a, i) && (Set(b, i) <==> x[i] != 0);
    if j == i / 8 {
      assert i == 8 * j + i % 8;
    }
  }

  /** The bitset after the first i bytes have been looked at. */
  function BitsetUpTo(x: seq<byte>, i: nat): (bs: seq<byte>)
    requires i <= |x|
    ensures |bs| == (|x| + 7) / 8
  {
    seq((|x| + 7) / 8, j requires 0 <= j => PackByte(x[..i], j))
  }

  lemma BitsetGrows(x: seq<byte>, i: nat)
    requires i < |x|
    ensures BitsetUpTo(x, i + 1)
         == if x[i] != 0 then BitsetUpTo(x, i)[i / 8 := BitsetUpTo(x, i)[i / 8] | Mask(i % 8)] else BitsetUpTo(x, i)
  {
    forall j | 0 <= j < (|x| + 7) / 8
      ensures BitsetUpTo(x, i + 1)[j]
           == if j == i / 8 && x[i] != 0 then BitsetUpTo(x, i)[j] | Mask(i % 8) else BitsetUpTo(x, i)[j]
    {
      PackSet(x, i, j);
    }
  }

  method BitsetEncodeBytes(data: seq<byte>) returns (out: seq<byte>)
    ensures out == Encode(data)
    decreases |data|
  {
    if |data| == 0 {
      return [];
    }
    if |data| == 1 {
      return if data[0] == 0 then [] else data;
    }
    var bits, bytes := Collect(data);
    if |bytes| == 0 {
      return [];
    }
    var prefix := BitsetEncodeBytes(bits);
    out := prefix + bytes;
  }

  /** The bitset and the non-zero bytes, in one pass. */
  method Collect(data: seq<byte>) returns (bits: seq<byte>, bytes: seq<byte>)
    ensures bits == Bitset(data) && bytes == NonZero(data)
  {
    var set_ := new byte[(|data| + 7) / 8](_ => 0);
    bytes := [];
    BitsetUpToEnds(data);
    assert set_[..] == BitsetUpTo(data, 0);
    for i := 0 to |data|
      invariant bytes == NonZero(data[..i])
      invariant set_[..] == BitsetUpTo(data, i)
    {
      NonZeroAt(data, i);
      BitsetGrows(data, i);
      if data[i] != 0 {
        bytes := bytes + [data[i]];
        SetBit(set_, i);
      }
    }
    assert data[..|data|] == data;
    bits := set_[..];
  }

  method SetBit(a: array<byte>, i: nat)
    requires i / 8 < a.Length
    modifies a
    ensures a[..] == old(a[..])[i / 8 := old(a[i / 8]) | Mask(i % 8)]
  {
    a[i / 8] := a[i / 8] | Mask(i % 8);
  }

  lemma BitsetUpToEnds(x: seq<byte>)
    ensures BitsetUpTo(x, 0) == seq((|x| + 7) / 8, _ => 0) && BitsetUpTo(x, |x|) == Bitset(x)
  {
    assert x[..|x|] == x;
  }

  method CompressBytes(data: seq<byte>) returns (out: seq<byte>)
    ensures out == Compress(data)
    ensures |out| <= |data|
    ensures Decompress(out, |data|) == Ok(data)
  {
    RoundTrip(data);
    out := BitsetEncodeBytes(data);
    if |out| >= |data| {
      out := data;
    }
  }

  method BitsetDecodePartialBytes(data: seq<byte>, target: nat) returns (r: Partial)
    ensures r == DecodePartial(data, target)
    decreases target
  {
    if target == 0 {
      return Decoded([], 0);
    }
    var decomp := new byte[target](_ => 0);
    assert decomp[..] == Zeros(target);
    if |data| == 0 {
      return Decoded(decomp[..], 0);
    }
    if target == 1 {
      decomp[0] := data[0];
      assert decomp[..] == [data[0]];
      return Decoded(decomp[..], if data[0] != 0 then 1 else 0);
    }
    var b := BitsetDecodePartialBytes(data, (target + 7) / 8);
    if b.Rejected? {
      return b;
    }
    var bs, ptr: nat := b.out, b.size;
    for i := 0 to 8 * |bs|
      invariant DecodePartial(data, target) == Distribute(BitsOf(bs), data, ptr, i, decomp[..])
    {
      assert BitsOf(bs)[i] == BitAt(bs[i / 8], i % 8);
      if BitAt(bs[i / 8], i % 8) {
        if ptr >= |data| {
          return Rejected(MissingData);
        }
        if i >= decomp.Length {
          return Rejected(ExceededTarget);
        }
        if data[ptr] == 0 {
          return Rejected(ZeroContent);
        }
        ghost var before := decomp[..];
        decomp[i] := data[ptr];
        assert decomp[..] == before[i := data[ptr]];
        ptr := ptr + 1;
      }
    }
    r := Decoded(decomp[..], ptr);
  }

  method DecompressBytes(data: seq<byte>, target: int) returns (r: Result)
    ensures r == Decompress(data, target)
    ensures r.Ok? ==> |r.out| == target && (|data| < target ==> Encode(r.out) == data)
  {
    if |data| > target {
      return Err(ExceededTarget);
    }
    if |data| == target {
      return Ok(data);
    }
    var p := BitsetDecodePartialBytes(data, target);
    if p.Rejected? {
      return Err(p.error);
    }
    DecodeThenEncode(data, target);
    if p.size != |data| {
      return Err(UnreferencedData);
    }
    assert data[..p.size] == data;
    return Ok(p.out);
  }
}
