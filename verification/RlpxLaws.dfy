/** The bytes of an RLPx frame and what its two tags cover (p2p/rlpx.go), byte by byte. */
module RlpxLaws {
  import opened Common
  import opened Bits
  import opened Rlpx

  /** m is the MAC's input after a reseeding: what it was, and the encrypted sum of that under the seed. */
  ghost predicate Seeded(s: Suite, mac: Bytes, seed: Bytes, m: Bytes)
    requires Lengths(s) && |seed| >= 16
  {
    && |m| == |mac| + 16 && m[..|mac|] == mac
    && forall i :: 0 <= i < 16 ==> m[|mac| + i] == Xor(s.block(s.sum(mac))[i], seed[i])
  }

  lemma SeededIs(s: Suite, mac: Bytes, seed: Bytes, m: Bytes)
    requires Lengths(s) && |seed| >= 16
    ensures Seeded(s, mac, seed, m) <==> m == Reseeded(s, mac, seed)
  {
    var r := Reseeded(s, mac, seed);
    if Seeded(s, mac, seed, m) {
      forall k | 0 <= k < |m| ensures m[k] == r[k] {
        if k < |mac| { assert m[k] == m[..|mac|][k]; } else { assert m[|mac| + (k - |mac|)] == r[k]; }
      }
    }
  }

  /** A reseeded MAC depends on all of its input so far and on every byte of the seed. */
  lemma SeededDetermines(s: Suite, a: Bytes, x: Bytes, b: Bytes, y: Bytes, m: Bytes)
    requires Lengths(s) && |x| >= 16 && |y| >= 16 && Seeded(s, a, x, m) && Seeded(s, b, y, m)
    ensures a == b && x[..16] == y[..16]
  {
    assert a == m[..|a|] && b == m[..|b|];
    forall i | 0 <= i < 16 ensures x[i] == y[i] {
      var e := s.block(s.sum(a))[i];
      assert m[|a| + i] == Xor(e, x[i]) == Xor(e, y[i]);
      XorCancels(e, x[i], y[i]);
    }
  }

  lemma XorCancels(e: Byte, x: Byte, y: Byte)
    requires Xor(e, x) == Xor(e, y)
    ensures x == y
  {
    XorCommutes(e, x);
    XorCommutes(e, y);
    XorTwice(x, e);
    XorTwice(y, e);
  }

  /** The 16 bytes of a header before encryption: the size, big end first, the constant, and zeros. */
  lemma HeaderBytes(fsize: nat)
    ensures var h := Header(fsize);
            && (fsize < 16777216 ==> (h[0] as int) * 65536 + (h[1] as int) * 256 + h[2] as int == fsize)
            && h[3..6] == [0xC2, 0x80, 0x80] && forall i :: 6 <= i < 16 ==> h[i] == 0
  {
    Digits(fsize);
  }

  /** The frame on the wire: the header under the key stream, the tag of the MAC seeded with it, the content
      and its zeros under the key stream that follows, and the tag of the MAC after these, seeded with its
      own sum.  Content and zeros come to a multiple of 16. */
  ghost predicate Layout(s: Suite, d: Dir, content: Bytes, w: Bytes, m1: Bytes, m3: Bytes)
    requires Lengths(s)
  {
    && |w| % 16 == 0 && |content| <= |w| - 48 < |content| + 16
    && (forall i :: 0 <= i < 16 ==> w[i] == Xor(Header(|content|)[i], s.keystream(d.pos + i)))
    && Seeded(s, d.mac, w[..16], m1) && w[16..32] == s.sum(m1)[..16]
    && (forall i :: 0 <= i < |w| - 48 ==>
          w[32 + i] == Xor(if i < |content| then content[i] else 0, s.keystream(d.pos + 16 + i)))
    && Seeded(s, m1 + w[32..|w| - 16], s.sum(m1 + w[32..|w| - 16]), m3)
    && w[|w| - 16..] == s.sum(m3)[..16]
  }

  lemma FrameBytes(s: Suite, d: Dir, content: Bytes) returns (m1: Bytes, m3: Bytes)
    requires Lengths(s)
    ensures var f := Frame(s, d, |content|, content);
            Layout(s, d, content, f.wire, m1, m3) && f.d == Dir(d.pos + |f.wire| - 32, m3)
  {
    var n := |content|;
    var head := Masked(s, d.pos, Header(n));
    var body := Masked(s, d.pos + 16, content + Zeros(Padded(n) - n));
    m1 := Reseeded(s, d.mac, head);
    m3 := Reseeded(s, m1 + body, s.sum(m1 + body));
    assert Frame(s, d, n, content)
        == Sent(head + Tag(s, m1) + body + Tag(s, m3), Dir(d.pos + 16 + |body|, m3));
    LaidOut(s, d, content, head, m1, body, m3);
  }

  lemma LaidOut(s: Suite, d: Dir, content: Bytes, head: Bytes, m1: Bytes, body: Bytes, m3: Bytes)
    requires Lengths(s) && head == Masked(s, d.pos, Header(|content|)) && m1 == Reseeded(s, d.mac, head)
    requires body == Masked(s, d.pos + 16, content + Zeros(Padded(|content|) - |content|))
    requires m3 == Reseeded(s, m1 + body, s.sum(m1 + body))
    ensures Layout(s, d, content, head + Tag(s, m1) + body + Tag(s, m3), m1, m3)
  {
    SeededIs(s, d.mac, head, m1);
    SeededIs(s, m1 + body, s.sum(m1 + body), m3);
    BodyBytes(s, d.pos + 16, content, body);
    FromParts(s, d, content, head, Tag(s, m1), body, Tag(s, m3), m1, m3);
  }

  lemma FromParts(s: Suite, d: Dir, content: Bytes, head: Bytes, t1: Bytes, body: Bytes, t3: Bytes, m1: Bytes,
                  m3: Bytes)
    requires Lengths(s) && |head| == 16 && t1 == s.sum(m1)[..16] && t3 == s.sum(m3)[..16]
    requires |body| % 16 == 0 && |content| <= |body| < |content| + 16
    requires forall i :: 0 <= i < 16 ==> head[i] == Xor(Header(|content|)[i], s.keystream(d.pos + i))
    requires forall i :: 0 <= i < |body| ==>
      body[i] == Xor(if i < |content| then content[i] else 0, s.keystream(d.pos + 16 + i))
    requires Seeded(s, d.mac, head, m1) && Seeded(s, m1 + body, s.sum(m1 + body), m3)
    ensures Layout(s, d, content, head + t1 + body + t3, m1, m3)
  {
    FourParts(head, t1, body, t3);
    var w := head + t1 + body + t3;
    assert forall i :: 0 <= i < 16 ==> w[i] == w[..16][i];
  }

  lemma BodyBytes(s: Suite, pos: nat, content: Bytes, body: Bytes)
    requires body == Masked(s, pos, content + Zeros(Padded(|content|) - |content|))
    ensures |body| == Padded(|content|)
    ensures forall i :: 0 <= i < |body| ==>
      body[i] == Xor(if i < |content| then content[i] else 0, s.keystream(pos + i))
  {
  }

  lemma FourParts(a: Bytes, b: Bytes, c: Bytes, d: Bytes)
    requires |a| == 16 && |b| == 16 && |d| == 16
    ensures var w := a + b + c + d;
            && w[..16] == a && w[16..32] == b && w[32..|w| - 16] == c && w[|w| - 16..] == d
            && forall i :: 0 <= i < |c| ==> w[32 + i] == c[i]
  {
  }

  /** A header is refused if and only if the tag behind it is not that of the MAC seeded with it. */
  lemma HeaderRefusedIff(s: Suite, d: Dir, snappy: bool, wire: Bytes, m: Bytes)
    requires Lengths(s) && |wire| >= 32 && Seeded(s, d.mac, wire[..16], m)
    ensures Receive(s, d, snappy, wire).outcome == Failed(BadHeaderMac) <==> wire[16..32] != s.sum(m)[..16]
  {
    SeededIs(s, d.mac, wire[..16], m);
  }

  /** The rest of a frame whose header has passed, with `fsize` bytes of content: it is refused for its MAC
      if and only if the tag behind the padded content is not that of the MAC after that content. */
  lemma FrameRefusedIff(s: Suite, d: Dir, snappy: bool, fsize: nat, wire: Bytes, m: Bytes)
    requires Lengths(s)
    requires var r := 16 * ((fsize + 15) / 16);
             && |wire| >= r + 16 && Seeded(s, d.mac + wire[..r], s.sum(d.mac + wire[..r]), m)
    ensures var r := 16 * ((fsize + 15) / 16);
            ReceiveBody(s, d, snappy, fsize, wire).outcome == Failed(BadFrameMac) <==> wire[r..r + 16] != s.sum(m)[..16]
  {
    var r := 16 * ((fsize + 15) / 16);
    assert Padded(fsize) == r;
    SeededIs(s, d.mac + wire[..r], s.sum(d.mac + wire[..r]), m);
  }

  /** With the header changed and its tag kept, the frame passes this check only if two different inputs of
      the MAC have the same tag. */
  lemma ChangedHeaderNeedsCollision(s: Suite, d: Dir, snappy: bool, wire: Bytes, changed: Bytes, rest: Bytes)
    returns (m: Bytes, m': Bytes)
    requires Lengths(s) && |wire| >= 32 && |changed| == 16 && changed != wire[..16]
    requires Receive(s, d, snappy, wire).outcome != Failed(BadHeaderMac)
    requires Receive(s, d, snappy, changed + wire[16..32] + rest).outcome != Failed(BadHeaderMac)
    ensures m != m' && s.sum(m)[..16] == s.sum(m')[..16]
  {
    var w := changed + wire[16..32] + rest;
    assert w[..16] == changed && w[16..32] == wire[16..32];
    m, m' := Reseeded(s, d.mac, wire[..16]), Reseeded(s, d.mac, changed);
    SeededIs(s, d.mac, wire[..16], m);
    SeededIs(s, d.mac, changed, m');
    HeaderRefusedIff(s, d, snappy, wire, m);
    HeaderRefusedIff(s, d, snappy, w, m');
    if m == m' {
      SeededDetermines(s, d.mac, wire[..16], d.mac, changed, m);
    }
  }
}
