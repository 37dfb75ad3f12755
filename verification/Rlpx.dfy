/** RLPx framing (p2p/rlpx.go): what one end writes, the other end reads, frame after frame, as long as
    the cipher positions and the MAC states of the two ends mirror each other. */
module Rlpx {
  import opened Common
  import opened Bits

  type Bytes = seq<Byte>

  const MAX_UINT24: nat := 0xff_ffff
  const UINT32: nat := 0x1_0000_0000
  const UINT64: nat := 0x1_0000_0000_0000_0000
  const ZERO_HEADER: Bytes := [0xC2, 0x80, 0x80]

  /** The parts that are not shown: the key stream, the MAC cipher and hash, and the codecs. */
  datatype Suite = Suite(
    keystream: nat -> Byte,
    block: Bytes -> Bytes,
    sum: Bytes -> Bytes,
    encode: nat -> Bytes,
    decode: Bytes -> Option<(nat, Bytes)>,
    snap: Bytes -> Bytes,
    snapLen: Bytes -> Option<nat>,
    unsnap: Bytes -> Option<Bytes>)

  ghost predicate Lengths(s: Suite) {
    && (forall m: Bytes :: |s.sum(m)| == 32)
    && (forall m: Bytes :: |s.block(m)| == 16)
  }

  /** Reading a message code, a 64-bit number, from the front of a stream. */
  ghost predicate CodeLaws(s: Suite) {
    && (forall c: nat, rest: Bytes :: c < UINT64 ==> s.decode(s.encode(c) + rest) == Some((c, rest)))
    && (forall b: Bytes :: s.decode(b).Some? ==> |s.decode(b).value.1| < |b|)
    && (forall c: nat :: c < UINT64 ==> 1 <= |s.encode(c)| <= 9)
  }

  /** The compressor is undone, and expands by at most a sixth. */
  ghost predicate SnappyLaws(s: Suite) {
    && (forall p: Bytes :: s.unsnap(s.snap(p)) == Some(p) && s.snapLen(s.snap(p)) == Some(|p|))
    && (forall p: Bytes :: |s.snap(p)| <= 32 + |p| + |p| / 6)
  }

  ghost predicate Lawful(s: Suite) { Lengths(s) && CodeLaws(s) && SnappyLaws(s) }

  /** One direction of a connection: how far the key stream is used, and what the MAC has hashed. */
  datatype Dir = Dir(pos: nat, mac: Bytes)

  /** A message to send; its payload comes in the pieces the reader yields, and `size` is what its
      sender claims. */
  datatype Outgoing = Outgoing(code: nat, size: nat, pieces: seq<Bytes>)

  datatype Msg = Msg(code: nat, size: nat, payload: Bytes)

  function Flatten(pieces: seq<Bytes>): Bytes {
    if pieces == [] then [] else pieces[0] + Flatten(pieces[1..])
  }

  function Masked(s: Suite, pos: nat, data: Bytes): (r: Bytes)
    ensures |r| == |data|
  {
    seq(|data|, i requires 0 <= i < |data| => Xor(data[i], s.keystream(pos + i)))
  }

  function Padded(n: nat): (r: nat)
    ensures r % 16 == 0 && n <= r < n + 16
  {
    if n % 16 > 0 then n + 16 - n % 16 else n
  }

  // ----- 24-bit numbers

  function PutInt24(v: nat): (b: Bytes)
    ensures |b| == 3
  {
    [(v / 65536) % 256, (v / 256) % 256, v % 256]
  }

  function ReadInt24(b: Bytes): (v: nat)
    requires |b| >= 3
    ensures v <= MAX_UINT24
  {
    (b[2] as int) + 256 * (b[1] as int) + 65536 * (b[0] as int)
  }

  /** What is put is read back exactly when it fits. */
  lemma Int24RoundTrip(v: nat, rest: Bytes)
    ensures ReadInt24(PutInt24(v) + rest) == v <==> v <= MAX_UINT24
  {
    Digits(v);
  }

  lemma Digits(v: nat)
    ensures v % 256 + 256 * ((v / 256) % 256) + 65536 * ((v / 65536) % 256) == v % 16777216
  {
    var a := v / 256;
    TwoDigits(a);
    Quotients(v, a / 256);
    Reassembled(v, a % 65536);
  }

  lemma TwoDigits(a: nat)
    ensures a % 256 + 256 * ((a / 256) % 256) == a % 65536
  {
    var b := a / 256;
    assert a == 65536 * (b / 256) + (256 * (b % 256) + a % 256);
  }

  lemma Quotients(v: nat, b: nat)
    requires b == v / 256 / 256
    ensures b == v / 65536
  {
  }

  lemma Reassembled(v: nat, low: nat)
    requires low == (v / 256) % 65536
    ensures v % 256 + 256 * low == v % 16777216
  {
    LowPart(v / 256 / 65536, v % 256 + 256 * low);
    assert v == 256 * (v / 256) + v % 256;
  }

  lemma LowPart(c: nat, r: nat)
    requires r < 16777216
    ensures (16777216 * c + r) % 16777216 == r
  {
  }

  // ----- one frame, as a value

  function Reseeded(s: Suite, mac: Bytes, seed: Bytes): Bytes
    requires Lengths(s) && |seed| >= 16
  {
    var e := s.block(s.sum(mac));
    mac + seq(16, i requires 0 <= i < 16 => Xor(e[i], seed[i]))
  }

  function Tag(s: Suite, mac: Bytes): (t: Bytes)
    requires Lengths(s)
    ensures |t| == 16
  {
    s.sum(mac)[..16]
  }

  function Header(fsize: nat): (h: Bytes)
    ensures |h| == 16
  {
    PutInt24(fsize) + ZERO_HEADER + Zeros(10)
  }

  datatype Written = Refused | Sent(wire: Bytes, d: Dir)

  function Frame(s: Suite, d: Dir, fsize: nat, content: Bytes): Written
    requires Lengths(s)
  {
    var head := Masked(s, d.pos, Header(fsize));
    var mac1 := Reseeded(s, d.mac, head);
    var body := Masked(s, d.pos + 16, content + Zeros(Padded(fsize) - fsize));
    var mac2 := mac1 + body;
    var mac3 := Reseeded(s, mac2, s.sum(mac2));
    Sent(head + Tag(s, mac1) + body + Tag(s, mac3), Dir(d.pos + 16 + |body|, mac3))
  }

  /** The bytes of the payload as they travel. */
  function Carried(s: Suite, snappy: bool, m: Outgoing): Bytes {
    if snappy then s.snap(Flatten(m.pieces)) else Flatten(m.pieces)
  }

  /** The frame size is a sum of 32-bit numbers, and it may wrap. */
  function FrameSize(s: Suite, snappy: bool, m: Outgoing): nat {
    (|s.encode(m.code)| + if snappy then |Carried(s, snappy, m)| % UINT32 else m.size) % UINT32
  }

  /** What WriteMsg puts on the wire. */
  function Send(s: Suite, d: Dir, snappy: bool, m: Outgoing): Written
    requires Lengths(s)
  {
    if (snappy && m.size > MAX_UINT24) || FrameSize(s, snappy, m) > MAX_UINT24 then Refused
    else Frame(s, d, FrameSize(s, snappy, m), s.encode(m.code) + Carried(s, snappy, m))
  }

  datatype Fault = ShortHeader | BadHeaderMac | ShortFrame | ShortMac | BadFrameMac | BadCode | BadSnappy | TooLarge

  datatype Outcome = Got(msg: Msg) | Failed(fault: Fault)

  /** After a read: the direction, the bytes not yet read, and what came of it. */
  datatype Received = Received(d: Dir, rest: Bytes, outcome: Outcome)

  function Open(s: Suite, snappy: bool, content: Bytes): Outcome {
    match s.decode(content)
    case None => Failed(BadCode)
    case Some((code, payload)) =>
      if !snappy then Got(Msg(code, |payload| % UINT32, payload))
      else
        match s.snapLen(payload)
        case None => Failed(BadSnappy)
        case Some(n) =>
          if n > MAX_UINT24 then Failed(TooLarge)
          else match s.unsnap(payload)
               case None => Failed(BadSnappy)
               case Some(p) => Got(Msg(code, n, p))
  }

  function ReceiveBody(s: Suite, d: Dir, snappy: bool, fsize: nat, wire: Bytes): Received
    requires Lengths(s)
  {
    var rsize := Padded(fsize);
    if |wire| < rsize then Received(d, [], Failed(ShortFrame))
    else
      var mac2 := d.mac + wire[..rsize];
      if |wire| < rsize + 16 then Received(Dir(d.pos, mac2), [], Failed(ShortMac))
      else
        var mac3 := Reseeded(s, mac2, s.sum(mac2));
        var rest := wire[rsize + 16..];
        if Tag(s, mac3) != wire[rsize..rsize + 16] then Received(Dir(d.pos, mac3), rest, Failed(BadFrameMac))
        else Received(Dir(d.pos + rsize, mac3), rest, Open(s, snappy, Masked(s, d.pos, wire[..rsize])[..fsize]))
  }

  function Receive(s: Suite, d: Dir, snappy: bool, wire: Bytes): Received
    requires Lengths(s)
  {
    if |wire| < 32 then Received(d, [], Failed(ShortHeader))
    else
      var mac1 := Reseeded(s, d.mac, wire[..16]);
      if Tag(s, mac1) != wire[16..32] then Received(Dir(d.pos, mac1), wire[32..], Failed(BadHeaderMac))
      else ReceiveBody(s, Dir(d.pos + 16, mac1), snappy, ReadInt24(Masked(s, d.pos, wire[..16])), wire[32..])
  }

  // ----- lockstep

  lemma MaskedTwice(s: Suite, pos: nat, data: Bytes)
    ensures Masked(s, pos, Masked(s, pos, data)) == data
  {
    forall i | 0 <= i < |data| ensures Masked(s, pos, Masked(s, pos, data))[i] == data[i] {
      XorTwice(data[i], s.keystream(pos + i));
    }
  }

  /** The frame on the wire, after its header and the header's tag. */
  lemma BodyIsReceived(s: Suite, d: Dir, snappy: bool, content: Bytes, body: Bytes, mac3: Bytes, more: Bytes)
    requires Lengths(s) && body == Masked(s, d.pos, content + Zeros(Padded(|content|) - |content|))
    requires mac3 == Reseeded(s, d.mac + body, s.sum(d.mac + body))
    ensures ReceiveBody(s, d, snappy, |content|, body + Tag(s, mac3) + more)
         == Received(Dir(d.pos + |body|, mac3), more, Open(s, snappy, content))
  {
    var plain := content + Zeros(Padded(|content|) - |content|);
    var wire := body + Tag(s, mac3) + more;
    var n := Padded(|content|);
    assert wire[..n] == body && wire[n..n + 16] == Tag(s, mac3) && wire[n + 16..] == more;
    MaskedTwice(s, d.pos, plain);
    assert plain[..|content|] == content;
  }

  /** The header on the wire. */
  lemma HeaderIsReceived(s: Suite, d: Dir, snappy: bool, fsize: nat, head: Bytes, rest: Bytes)
    requires Lengths(s) && fsize <= MAX_UINT24 && head == Masked(s, d.pos, Header(fsize))
    ensures var mac1 := Reseeded(s, d.mac, head);
            Receive(s, d, snappy, head + Tag(s, mac1) + rest)
              == ReceiveBody(s, Dir(d.pos + 16, mac1), snappy, fsize, rest)
  {
    var mac1 := Reseeded(s, d.mac, head);
    var wire := head + Tag(s, mac1) + rest;
    assert wire[..16] == head && wire[16..32] == Tag(s, mac1) && wire[32..] == rest;
    MaskedTwice(s, d.pos, Header(fsize));
    Int24RoundTrip(fsize, ZERO_HEADER + Zeros(10));
    assert Header(fsize) == PutInt24(fsize) + (ZERO_HEADER + Zeros(10));
  }

  lemma RegroupFrame(a: Bytes, b: Bytes, c: Bytes, d: Bytes, e: Bytes)
    ensures a + b + c + d + e == a + b + (c + d + e)
  {
  }

  lemma PartsAreReceived(s: Suite, d: Dir, snappy: bool, content: Bytes, head: Bytes, mac1: Bytes, body: Bytes,
                         mac3: Bytes, more: Bytes)
    requires Lengths(s) && |content| <= MAX_UINT24
    requires head == Masked(s, d.pos, Header(|content|)) && mac1 == Reseeded(s, d.mac, head)
    requires body == Masked(s, d.pos + 16, content + Zeros(Padded(|content|) - |content|))
    requires mac3 == Reseeded(s, mac1 + body, s.sum(mac1 + body))
    ensures Receive(s, d, snappy, head + Tag(s, mac1) + body + Tag(s, mac3) + more)
         == Received(Dir(d.pos + 16 + |body|, mac3), more, Open(s, snappy, content))
  {
    RegroupFrame(head, Tag(s, mac1), body, Tag(s, mac3), more);
    HeaderIsReceived(s, d, snappy, |content|, head, body + Tag(s, mac3) + more);
    BodyIsReceived(s, Dir(d.pos + 16, mac1), snappy, content, body, mac3, more);
  }

  /** A frame of the size its header says is opened to its content, and both ends move on alike. */
  lemma FrameIsReceived(s: Suite, d: Dir, snappy: bool, content: Bytes, more: Bytes)
    requires Lengths(s) && |content| <= MAX_UINT24
    ensures var f := Frame(s, d, |content|, content);
            Receive(s, d, snappy, f.wire + more) == Received(f.d, more, Open(s, snappy, content))
  {
    var head := Masked(s, d.pos, Header(|content|));
    var mac1 := Reseeded(s, d.mac, head);
    var body := Masked(s, d.pos + 16, content + Zeros(Padded(|content|) - |content|));
    var mac3 := Reseeded(s, mac1 + body, s.sum(mac1 + body));
    assert Frame(s, d, |content|, content)
        == Sent(head + Tag(s, mac1) + body + Tag(s, mac3), Dir(d.pos + 16 + |body|, mac3));
    PartsAreReceived(s, d, snappy, content, head, mac1, body, mac3, more);
  }

  /** The message as its receiver should see it. */
  function Delivered(m: Outgoing): Msg {
    Msg(m.code, m.size, Flatten(m.pieces))
  }

  /** The code fits its 64 bits; the sender's claim about the size of the payload is true, and fits its
      32 bits. */
  predicate Honest(m: Outgoing) {
    m.code < UINT64 && m.size == |Flatten(m.pieces)| < UINT32
  }

  /** The frame fits the 24-bit limit, and so does the plain message where it is compressed. */
  predicate Fits(s: Suite, snappy: bool, m: Outgoing) {
    if snappy
    then m.size <= MAX_UINT24 && |s.encode(m.code)| + |s.snap(Flatten(m.pieces))| <= MAX_UINT24
    else |s.encode(m.code)| + m.size <= MAX_UINT24
  }

  /** The laws of the codecs, for one message. */
  ghost predicate Readable(s: Suite, snappy: bool, code: nat, plain: Bytes, carried: Bytes) {
    && s.decode(s.encode(code) + carried) == Some((code, carried))
    && (snappy ==> s.unsnap(carried) == Some(plain) && s.snapLen(carried) == Some(|plain|))
  }

  lemma LawsMakeReadable(s: Suite, snappy: bool, m: Outgoing)
    requires Lawful(s) && m.code < UINT64
    ensures Readable(s, snappy, m.code, Flatten(m.pieces), Carried(s, snappy, m))
  {
  }

  lemma OpenContent(s: Suite, snappy: bool, m: Outgoing)
    requires Readable(s, snappy, m.code, Flatten(m.pieces), Carried(s, snappy, m)) && Honest(m) && Fits(s, snappy, m)
    ensures Open(s, snappy, s.encode(m.code) + Carried(s, snappy, m)) == Got(Delivered(m))
  {
  }

  lemma SizeFits(s: Suite, snappy: bool, m: Outgoing)
    requires Honest(m) && Fits(s, snappy, m)
    ensures FrameSize(s, snappy, m) == |s.encode(m.code) + Carried(s, snappy, m)| <= MAX_UINT24
  {
  }

  lemma SendFrames(s: Suite, d: Dir, snappy: bool, m: Outgoing)
    requires Lengths(s) && Honest(m) && Fits(s, snappy, m)
    ensures var content := s.encode(m.code) + Carried(s, snappy, m);
            |content| <= MAX_UINT24 && Send(s, d, snappy, m) == Frame(s, d, |content|, content)
  {
    SizeFits(s, snappy, m);
  }

  /** A message that fits is sent, read back exactly, and leaves the two ends mirrored. */
  lemma MessageIsReceived(s: Suite, d: Dir, snappy: bool, m: Outgoing, more: Bytes)
    requires Lawful(s) && Honest(m) && Fits(s, snappy, m)
    ensures var w := Send(s, d, snappy, m);
            w.Sent? && Receive(s, d, snappy, w.wire + more) == Received(w.d, more, Got(Delivered(m)))
  {
    LawsMakeReadable(s, snappy, m);
    ReadableIsReceived(s, d, snappy, m, more);
  }

  lemma ReadableIsReceived(s: Suite, d: Dir, snappy: bool, m: Outgoing, more: Bytes)
    requires Lengths(s) && Honest(m) && Fits(s, snappy, m)
    requires Readable(s, snappy, m.code, Flatten(m.pieces), Carried(s, snappy, m))
    ensures var w := Send(s, d, snappy, m);
            w.Sent? && Receive(s, d, snappy, w.wire + more) == Received(w.d, more, Got(Delivered(m)))
  {
    SendFrames(s, d, snappy, m);
    FrameIsReceived(s, d, snappy, s.encode(m.code) + Carried(s, snappy, m), more);
    OpenContent(s, snappy, m);
  }

  // ----- exactly when a message gets through

  /** The laws of the lengths, for one message. */
  lemma LawsBoundSize(s: Suite, snappy: bool, m: Outgoing)
    requires Lawful(s) && m.code < UINT64
    ensures 1 <= |s.encode(m.code)| <= 9
    ensures snappy ==> |Carried(s, snappy, m)| <= 32 + |Flatten(m.pieces)| + |Flatten(m.pieces)| / 6
  {
  }

  /** The frame size has wrapped around 32 bits. */
  predicate Wraps(s: Suite, snappy: bool, m: Outgoing) {
    !snappy && |s.encode(m.code)| + m.size >= UINT32
  }

  lemma SentIff(s: Suite, d: Dir, snappy: bool, m: Outgoing)
    requires Lawful(s) && Honest(m)
    ensures Send(s, d, snappy, m).Sent? <==> Fits(s, snappy, m) || Wraps(s, snappy, m)
  {
    LawsBoundSize(s, snappy, m);
    SizeIff(s, snappy, m);
    SentIffSize(s, d, snappy, m);
  }

  lemma SentIffSize(s: Suite, d: Dir, snappy: bool, m: Outgoing)
    requires Lengths(s)
    ensures Send(s, d, snappy, m).Sent? <==> !(snappy && m.size > MAX_UINT24) && FrameSize(s, snappy, m) <= MAX_UINT24
  {
  }

  lemma SizeIff(s: Suite, snappy: bool, m: Outgoing)
    requires Honest(m) && |s.encode(m.code)| <= 9
    requires snappy ==> |Carried(s, snappy, m)| <= 32 + |Flatten(m.pieces)| + |Flatten(m.pieces)| / 6
    ensures !(snappy && m.size > MAX_UINT24) && FrameSize(s, snappy, m) <= MAX_UINT24 <==>
      Fits(s, snappy, m) || Wraps(s, snappy, m)
  {
  }

  /** No frame holds a payload beyond the 24-bit limit. */
  lemma ReceivedIsSmall(s: Suite, d: Dir, wire: Bytes)
    requires Lengths(s) && CodeLaws(s)
    ensures var r := Receive(s, d, false, wire); r.outcome.Got? ==> |r.outcome.msg.payload| < MAX_UINT24
  {
  }

  /** Every honest message is sent and read back exactly if and only if it fits the limit: a message
      that does not fit is refused, unless its frame size wraps around 32 bits; then it is sent, and
      it is not what is read. */
  lemma ExactlyWhenItFits(s: Suite, d: Dir, snappy: bool, m: Outgoing, more: Bytes)
    requires Lawful(s) && Honest(m)
    ensures var w := Send(s, d, snappy, m);
            Fits(s, snappy, m) <==>
              w.Sent? && Receive(s, d, snappy, w.wire + more) == Received(w.d, more, Got(Delivered(m)))
  {
    SentIff(s, d, snappy, m);
    if Fits(s, snappy, m) {
      MessageIsReceived(s, d, snappy, m, more);
    } else if Wraps(s, snappy, m) {
      LawsBoundSize(s, snappy, m);
      ReceivedIsSmall(s, d, Send(s, d, snappy, m).wire + more);
    }
  }

  /** Four gigabytes less one byte, uncompressed, are accepted for sending and cannot be read. */
  lemma WrappedSizeIsAccepted(s: Suite, d: Dir, code: nat, more: Bytes)
    requires Lawful(s) && code < UINT64
    ensures var m := Outgoing(code, UINT32 - 1, [Zeros(UINT32 - 1)]);
            var w := Send(s, d, false, m);
            w.Sent? && Receive(s, d, false, w.wire + more).outcome != Got(Delivered(m))
  {
    var m := Outgoing(code, UINT32 - 1, [Zeros(UINT32 - 1)]);
    OnePiece(Zeros(UINT32 - 1));
    LawsBoundSize(s, false, m);
    SentIff(s, d, false, m);
    ReceivedIsSmall(s, d, Send(s, d, false, m).wire + more);
  }

  lemma OnePiece(p: Bytes)
    ensures Flatten([p]) == p
  {
  }

  // ----- whole conversations

  /** A sequence of messages is written; a refused one leaves the writer as it was. */
  function SendAll(s: Suite, d: Dir, snappy: bool, ms: seq<Outgoing>): (Bytes, Dir)
    requires Lengths(s)
    decreases |ms|
  {
    if ms == [] then ([], d)
    else
      match Send(s, d, snappy, ms[0])
      case Refused => SendAll(s, d, snappy, ms[1..])
      case Sent(w, e) =>
        var (rest, f) := SendAll(s, e, snappy, ms[1..]);
        (w + rest, f)
  }

  function ReceiveAll(s: Suite, d: Dir, snappy: bool, wire: Bytes, n: nat): (seq<Outcome>, Dir, Bytes)
    requires Lengths(s)
    decreases n
  {
    if n == 0 then ([], d, wire)
    else
      var r := Receive(s, d, snappy, wire);
      var (os, e, rest) := ReceiveAll(s, r.d, snappy, r.rest, n - 1);
      ([r.outcome] + os, e, rest)
  }

  /** The messages that fit, as their receiver should see them. */
  function Expected(s: Suite, snappy: bool, ms: seq<Outgoing>): seq<Outcome> {
    if ms == [] then []
    else (if Fits(s, snappy, ms[0]) then [Got(Delivered(ms[0]))] else []) + Expected(s, snappy, ms[1..])
  }

  /** The reader gets what is expected, and the ends are mirrored again. */
  ghost predicate InStep(s: Suite, d: Dir, snappy: bool, ms: seq<Outgoing>, more: Bytes)
    requires Lengths(s)
  {
    var (wire, e) := SendAll(s, d, snappy, ms);
    var os := Expected(s, snappy, ms);
    ReceiveAll(s, d, snappy, wire + more, |os|) == (os, e, more)
  }

  lemma RefusedKeepsStep(s: Suite, d: Dir, snappy: bool, ms: seq<Outgoing>, more: Bytes)
    requires Lengths(s) && ms != [] && Send(s, d, snappy, ms[0]).Refused? && !Fits(s, snappy, ms[0])
    requires InStep(s, d, snappy, ms[1..], more)
    ensures InStep(s, d, snappy, ms, more)
  {
    assert Expected(s, snappy, ms) == Expected(s, snappy, ms[1..]);
  }

  lemma SentKeepsStep(s: Suite, d: Dir, snappy: bool, ms: seq<Outgoing>, more: Bytes, w: Written, rest: Bytes)
    requires Lengths(s) && ms != [] && w == Send(s, d, snappy, ms[0]) && w.Sent? && Fits(s, snappy, ms[0])
    requires rest == SendAll(s, w.d, snappy, ms[1..]).0
    requires Receive(s, d, snappy, w.wire + (rest + more)) == Received(w.d, rest + more, Got(Delivered(ms[0])))
    requires InStep(s, w.d, snappy, ms[1..], more)
    ensures InStep(s, d, snappy, ms, more)
  {
    var os := Expected(s, snappy, ms[1..]);
    ReceiveOne(s, d, snappy, w.wire + (rest + more), |os|, Received(w.d, rest + more, Got(Delivered(ms[0]))));
    assert w.wire + (rest + more) == w.wire + rest + more;
    assert SendAll(s, d, snappy, ms) == (w.wire + rest, SendAll(s, w.d, snappy, ms[1..]).1);
    assert Expected(s, snappy, ms) == [Got(Delivered(ms[0]))] + os;
  }

  lemma ReceiveOne(s: Suite, d: Dir, snappy: bool, wire: Bytes, n: nat, r: Received)
    requires Lengths(s) && r == Receive(s, d, snappy, wire)
    ensures var t := ReceiveAll(s, r.d, snappy, r.rest, n);
            ReceiveAll(s, d, snappy, wire, n + 1) == ([r.outcome] + t.0, t.1, t.2)
  {
  }

  /** For every sequence of honest messages whose sizes do not wrap, and two ends that start mirrored:
      the reader gets exactly the messages that fit, in order, and the ends are mirrored again. */
  lemma {:induction false} Lockstep(s: Suite, d: Dir, snappy: bool, ms: seq<Outgoing>, more: Bytes)
    requires Lawful(s) && forall m :: m in ms ==> Honest(m) && !Wraps(s, snappy, m)
    ensures InStep(s, d, snappy, ms, more)
    decreases |ms|
  {
    if ms == [] {
      NothingSent(s, d, snappy, more);
    } else {
      Lockstep(s, AfterSend(s, d, snappy, ms[0]), snappy, ms[1..], more);
      LockstepHead(s, d, snappy, ms, more);
    }
  }

  /** The writer after a message; a refused one leaves it as it was. */
  function AfterSend(s: Suite, d: Dir, snappy: bool, m: Outgoing): Dir
    requires Lengths(s)
  {
    var w := Send(s, d, snappy, m);
    if w.Refused? then d else w.d
  }

  lemma NothingSent(s: Suite, d: Dir, snappy: bool, more: Bytes)
    requires Lengths(s)
    ensures InStep(s, d, snappy, [], more)
  {
    assert [] + more == more;
  }

  lemma LockstepHead(s: Suite, d: Dir, snappy: bool, ms: seq<Outgoing>, more: Bytes)
    requires Lawful(s) && ms != [] && Honest(ms[0]) && !Wraps(s, snappy, ms[0])
    requires InStep(s, AfterSend(s, d, snappy, ms[0]), snappy, ms[1..], more)
    ensures InStep(s, d, snappy, ms, more)
  {
    var w := Send(s, d, snappy, ms[0]);
    SentIff(s, d, snappy, ms[0]);
    if w.Refused? {
      RefusedKeepsStep(s, d, snappy, ms, more);
    } else {
      var rest := SendAll(s, w.d, snappy, ms[1..]).0;
      MessageIsReceived(s, d, snappy, ms[0], rest + more);
      SentKeepsStep(s, d, snappy, ms, more, w, rest);
    }
  }

  // ----- a suite that obeys the laws

  /** The big-endian bytes of a number, without leading zeros. */
  function Digits256(c: nat): Bytes {
    if c == 0 then [] else Digits256(c / 256) + [c % 256]
  }

  function Value256(b: Bytes): nat {
    if b == [] then 0 else 256 * Value256(b[..|b| - 1]) + b[|b| - 1]
  }

  lemma {:induction false} DigitsRoundTrip(c: nat)
    ensures Value256(Digits256(c)) == c
  {
    if c > 0 {
      DigitsRoundTrip(c / 256);
      var b := Digits256(c);
      assert b[..|b| - 1] == Digits256(c / 256) && b[|b| - 1] == c % 256;
    }
  }

  lemma {:induction false} DigitsLength(c: nat, n: nat)
    requires c < Pow2(8 * n)
    ensures |Digits256(c)| <= n
    decreases n
  {
    if c > 0 {
      assert Pow2(8 * n) == 256 * Pow2(8 * (n - 1)) by { EightMore(8 * (n - 1)); }
      DigitsLength(c / 256, n - 1);
    }
  }

  lemma EightMore(k: nat)
    ensures Pow2(k + 8) == 256 * Pow2(k)
  {
    assert Pow2(k + 2) == 4 * Pow2(k);
    assert Pow2(k + 4) == 4 * Pow2(k + 2);
    assert Pow2(k + 6) == 4 * Pow2(k + 4);
    assert Pow2(k + 8) == 4 * Pow2(k + 6);
  }

  /** An RLP integer of at most eight bytes. */
  function RlpEncode(c: nat): Bytes {
    if 0 < c < 128 then [c]
    else if |Digits256(c)| <= 8 then [128 + |Digits256(c)|] + Digits256(c)
    else []
  }

  function RlpDecode(b: Bytes): Option<(nat, Bytes)> {
    if b == [] || b[0] == 0 || b[0] > 136 then None
    else if b[0] < 128 then Some((b[0], b[1..]))
    else if |b| <= b[0] - 128 then None
    else Some((Value256(b[1..b[0] - 127]), b[b[0] - 127..]))
  }

  lemma RlpRoundTrip(c: nat, rest: Bytes)
    requires c < UINT64
    ensures RlpDecode(RlpEncode(c) + rest) == Some((c, rest)) && 1 <= |RlpEncode(c)| <= 9
  {
    if !(0 < c < 128) {
      UInt64IsPow();
      DigitsLength(c, 8);
      DigitsRoundTrip(c);
      var d := Digits256(c);
      var b := RlpEncode(c) + rest;
      assert b[1..b[0] - 127] == d && b[b[0] - 127..] == rest;
    } else {
      assert ([c] + rest)[1..] == rest;
    }
  }

  lemma UInt64IsPow()
    ensures Pow2(64) == UINT64
  {
    EightMore(0);
    EightMore(8);
    EightMore(16);
    EightMore(24);
    EightMore(32);
    EightMore(40);
    EightMore(48);
    EightMore(56);
  }

  /** The laws can be met: by RLP integers and a compressor that leaves its input alone. */
  lemma SomeSuiteIsLawful() returns (s: Suite)
    ensures Lawful(s)
  {
    s := Suite(_ => 0, _ => Zeros(16), _ => Zeros(32), RlpEncode, RlpDecode, p => p,
               (p: Bytes) => Some(|p|), (p: Bytes) => Some(p));
    forall c: nat, rest: Bytes | c < UINT64
      ensures s.decode(s.encode(c) + rest) == Some((c, rest)) && 1 <= |s.encode(c)| <= 9
    {
      RlpRoundTrip(c, rest);
    }
    forall c: nat | c < UINT64 ensures 1 <= |s.encode(c)| <= 9 { RlpRoundTrip(c, []); }
  }

  /** So the conversations that Lockstep speaks about exist: here one message goes through. */
  lemma SomeMessageIsReceived() returns (s: Suite, d: Dir, m: Outgoing)
    ensures Lawful(s) && Honest(m) && Fits(s, true, m) && Flatten(m.pieces) != []
    ensures var w := Send(s, d, true, m);
            w.Sent? && Receive(s, d, true, w.wire) == Received(w.d, [], Got(Delivered(m)))
  {
    s := SomeSuiteIsLawful();
    d, m := Dir(0, []), Outgoing(17, 3, [[1, 2], [3]]);
    assert [[1, 2], [3]][1..] == [[3]];
    OnePiece([3]);
    LawsBoundSize(s, true, m);
    MessageIsReceived(s, d, true, m, []);
    var w := Send(s, d, true, m);
    assert w.wire + [] == w.wire;
  }
}
