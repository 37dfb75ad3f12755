/** The frame reader and writer of p2p/rlpx.go, proved against Rlpx.Send and Rlpx.Receive. */
module RlpxConn {
  import opened Common
  import opened Bits
  import opened Rlpx

  lemma MaskedConcat(s: Suite, pos: nat, a: Bytes, b: Bytes)
    ensures Masked(s, pos, a + b) == Masked(s, pos, a) + Masked(s, pos + |a|, b)
  {
  }

  lemma {:induction false} FlattenSnoc(pieces: seq<Bytes>, p: Bytes)
    ensures Flatten(pieces + [p]) == Flatten(pieces) + p
  {
    if pieces == [] {
      OnePiece(p);
      assert pieces + [p] == [p];
    } else {
      FlattenSnoc(pieces[1..], p);
      assert (pieces + [p])[1..] == pieces[1..] + [p];
    }
  }

  method ReadAll(pieces: seq<Bytes>) returns (b: Bytes)
    ensures b == Flatten(pieces)
  {
    b := [];
    for i := 0 to |pieces|
      invariant b == Flatten(pieces[..i])
    {
      FlattenSnoc(pieces[..i], pieces[i]);
      assert pieces[..i + 1] == pieces[..i] + [pieces[i]];
      b := b + pieces[i];
    }
    assert pieces[..|pieces|] == pieces;
  }

  /** The MAC is reseeded with the encrypted sum, xored with the seed; its tag is what it sums to then. */
  method UpdateMac(s: Suite, mac: Bytes, seed: Bytes) returns (mac': Bytes, tag: Bytes)
    requires Lengths(s) && |seed| >= 16
    ensures mac' == Reseeded(s, mac, seed) && tag == Tag(s, mac')
  {
    var buf := s.block(s.sum(mac));
    for i := 0 to 16
      invariant |buf| == 16
      invariant forall j :: 0 <= j < i ==> buf[j] == Xor(s.block(s.sum(mac))[j], seed[j])
      invariant forall j :: i <= j < 16 ==> buf[j] == s.block(s.sum(mac))[j]
    {
      buf := buf[i := Xor(buf[i], seed[i])];
    }
    mac' := mac + buf;
    tag := s.sum(mac')[..16];
  }

  method XorKeyStream(s: Suite, pos: nat, data: Bytes) returns (r: Bytes)
    ensures r == Masked(s, pos, data)
  {
    r := [];
    for i := 0 to |data|
      invariant |r| == i && forall j :: 0 <= j < i ==> r[j] == Xor(data[j], s.keystream(pos + j))
    {
      r := r + [Xor(data[i], s.keystream(pos + i))];
    }
  }

  class FrameRW {
    const s: Suite
    var snappy: bool
    var enc: nat
    var dec: nat
    var egress: Bytes
    var ingress: Bytes
    /** What has been put on the wire, and what has come in and is not yet read. */
    var sent: Bytes
    var inbox: Bytes

    constructor (s: Suite, egress: Bytes, ingress: Bytes)
      ensures this.s == s && this.egress == egress && this.ingress == ingress
      ensures enc == 0 && dec == 0 && sent == [] && inbox == [] && !snappy
    {
      this.s, this.egress, this.ingress := s, egress, ingress;
      enc, dec, sent, inbox, snappy := 0, 0, [], [], false;
    }

    /** Since the writer was at `start`, with `wire` sent, the bytes of `done` have gone out encrypted. */
    ghost predicate HasTeed(start: Dir, wire: Bytes, done: Bytes)
      reads this
    {
      var c := Masked(s, start.pos, done);
      enc == start.pos + |done| && egress == start.mac + c && sent == wire + c
    }

    /** Encrypted, onto the wire and into the egress MAC. */
    method Tee(data: Bytes, ghost start: Dir, ghost wire: Bytes, ghost done: Bytes)
      requires HasTeed(start, wire, done)
      modifies this`enc, this`egress, this`sent
      ensures HasTeed(start, wire, done + data)
    {
      MaskedConcat(s, start.pos, done, data);
      var c := XorKeyStream(s, enc, data);
      enc, egress, sent := enc + |data|, egress + c, sent + c;
    }

    method WriteHeader(fsize: nat)
      requires Lengths(s)
      modifies this`enc, this`egress, this`sent
      ensures var head := Masked(s, old(enc), Header(fsize));
              && enc == old(enc) + 16
              && egress == Reseeded(s, old(egress), head)
              && sent == old(sent) + (head + Tag(s, egress))
    {
      var head := XorKeyStream(s, enc, PutInt24(fsize) + ZERO_HEADER + Zeros(10));
      var mac, tag := UpdateMac(s, egress, head);
      enc, egress, sent := enc + 16, mac, sent + (head + tag);
    }

    /** The payload goes out piece by piece. */
    method WriteBody(ptype: Bytes, pieces: seq<Bytes>, pad: nat)
      modifies this`enc, this`egress, this`sent
      ensures var body := Masked(s, old(enc), ptype + Flatten(pieces) + Zeros(pad));
              enc == old(enc) + |body| && egress == old(egress) + body && sent == old(sent) + body
    {
      ghost var start, wire := Dir(enc, egress), sent;
      Tee(ptype, start, wire, []);
      ghost var done := [] + ptype;
      for i := 0 to |pieces|
        invariant done == ptype + Flatten(pieces[..i]) && HasTeed(start, wire, done)
      {
        FlattenSnoc(pieces[..i], pieces[i]);
        assert pieces[..i + 1] == pieces[..i] + [pieces[i]];
        Tee(pieces[i], start, wire, done);
        done := done + pieces[i];
      }
      assert pieces[..|pieces|] == pieces;
      Tee(Zeros(pad), start, wire, done);
    }

    method WriteFrameMac()
      requires Lengths(s)
      modifies this`egress, this`sent
      ensures egress == Reseeded(s, old(egress), s.sum(old(egress))) && sent == old(sent) + Tag(s, egress)
    {
      var mac, tag := UpdateMac(s, egress, s.sum(egress));
      egress, sent := mac, sent + tag;
    }

    /** The wire and the writer are those of Rlpx.Send; a refused message changes nothing. */
    method WriteMsg(m: Outgoing) returns (ok: bool)
      requires Lengths(s)
      modifies this`enc, this`egress, this`sent
      ensures var w := Send(s, Dir(old(enc), old(egress)), snappy, m);
              && (ok <==> w.Sent?)
              && sent == old(sent) + (if ok then w.wire else [])
              && Dir(enc, egress) == (if ok then w.d else Dir(old(enc), old(egress)))
    {
      var ptype := s.encode(m.code);
      var pieces, size := m.pieces, m.size;
      if snappy {
        if m.size > MAX_UINT24 {
          return false;
        }
        var payload := ReadAll(m.pieces);
        payload := s.snap(payload);
        OnePiece(payload);
        pieces, size := [payload], |payload| % UINT32;
      }
      var fsize := (|ptype| + size) % UINT32;
      if fsize > MAX_UINT24 {
        return false;
      }
      WriteFrame(fsize, ptype, pieces);
      ok := true;
    }

    method WriteFrame(fsize: nat, ptype: Bytes, pieces: seq<Bytes>)
      requires Lengths(s)
      modifies this`enc, this`egress, this`sent
      ensures var w := Frame(s, Dir(old(enc), old(egress)), fsize, ptype + Flatten(pieces));
              sent == old(sent) + w.wire && Dir(enc, egress) == w.d
    {
      ghost var d, content, was := Dir(enc, egress), ptype + Flatten(pieces), sent;
      ghost var head := Masked(s, d.pos, Header(fsize));
      ghost var body := Masked(s, d.pos + 16, content + Zeros(Padded(fsize) - fsize));
      WriteHeader(fsize);
      ghost var mac1 := egress;
      WriteBody(ptype, pieces, Padded(fsize) - fsize);
      WriteFrameMac();
      assert sent == was + (head + Tag(s, mac1)) + body + Tag(s, egress);
      FrameParts(s, d, fsize, content, head, mac1, body, egress, was);
    }

    /** A frame behind what was sent before, part by part. */
    static lemma FrameParts(s: Suite, d: Dir, fsize: nat, content: Bytes, head: Bytes, mac1: Bytes, body: Bytes,
                            mac3: Bytes, was: Bytes)
      requires Lengths(s) && head == Masked(s, d.pos, Header(fsize)) && mac1 == Reseeded(s, d.mac, head)
      requires body == Masked(s, d.pos + 16, content + Zeros(Padded(fsize) - fsize))
      requires mac3 == Reseeded(s, mac1 + body, s.sum(mac1 + body))
      ensures var w := Frame(s, d, fsize, content);
              && w.d == Dir(d.pos + 16 + |body|, mac3)
              && was + w.wire == was + (head + Tag(s, mac1)) + body + Tag(s, mac3)
    {
    }

    /** The message and the reader are those of Rlpx.Receive. */
    method ReadMsg() returns (o: Outcome)
      requires Lengths(s)
      modifies this`dec, this`ingress, this`inbox
      ensures Received(Dir(dec, ingress), inbox, o) == Receive(s, Dir(old(dec), old(ingress)), snappy, old(inbox))
    {
      if |inbox| < 32 {
        inbox := [];
        return Failed(ShortHeader);
      }
      var head, mac := inbox[..16], inbox[16..32];
      inbox := inbox[32..];
      var tag;
      ingress, tag := UpdateMac(s, ingress, head);
      if tag != mac {
        return Failed(BadHeaderMac);
      }
      var plain := XorKeyStream(s, dec, head);
      dec := dec + 16;
      o := ReadFrame(ReadInt24(plain));
    }

    method ReadFrame(fsize: nat) returns (o: Outcome)
      requires Lengths(s)
      modifies this`dec, this`ingress, this`inbox
      ensures Received(Dir(dec, ingress), inbox, o)
           == ReceiveBody(s, Dir(old(dec), old(ingress)), snappy, fsize, old(inbox))
    {
      var rsize := Padded(fsize);
      if |inbox| < rsize {
        inbox := [];
        return Failed(ShortFrame);
      }
      var frame := inbox[..rsize];
      ingress := ingress + frame;
      if |inbox| < rsize + 16 {
        inbox := [];
        return Failed(ShortMac);
      }
      var mac := inbox[rsize..rsize + 16];
      inbox := inbox[rsize + 16..];
      var tag;
      ingress, tag := UpdateMac(s, ingress, s.sum(ingress));
      if tag != mac {
        return Failed(BadFrameMac);
      }
      var plain := XorKeyStream(s, dec, frame);
      dec := dec + rsize;
      o := Open(s, snappy, plain[..fsize]);
    }
  }
}
