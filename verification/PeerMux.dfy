/** The message code space two peers negotiate independently (p2p/peer.go, p2p/protocol.go). */
module PeerMux {
  import opened Common

  datatype Cap = Cap(name: string, version: nat)
  datatype Protocol = Protocol(name: string, version: nat, length: nat)

  /** A running protocol with the first of its message codes. */
  datatype Running = Running(proto: Protocol, offset: int)

  const BASE_PROTOCOL_LENGTH: nat := 16
  const DISC_MSG: nat := 1
  const PING_MSG: nat := 2

  function CapOf(p: Protocol): Cap { Cap(p.name, p.version) }

  function CapsOf(ps: seq<Protocol>): (cs: seq<Cap>)
    ensures |cs| == |ps| && forall i :: 0 <= i < |ps| ==> cs[i] == CapOf(ps[i])
  {
    seq(|ps|, i requires 0 <= i < |ps| => CapOf(ps[i]))
  }

  /** The first own protocol with the name and version of a capability. */
  function FirstMatch(ps: seq<Protocol>, c: Cap): (r: Option<Protocol>)
    ensures r.Some? ==> r.value in ps && CapOf(r.value) == c
    ensures r.None? ==> forall p :: p in ps ==> CapOf(p) != c
  {
    if ps == [] then None else if CapOf(ps[0]) == c then Some(ps[0]) else FirstMatch(ps[1..], c)
  }

  // ----- the order on capabilities

  predicate Less(a: string, b: string) {
    |b| > 0 && (|a| == 0 || a[0] < b[0] || (a[0] == b[0] && Less(a[1..], b[1..])))
  }

  lemma {:induction false} LessTransitive(a: string, b: string, c: string)
    requires Less(a, b) && Less(b, c)
    ensures Less(a, c)
  {
    if |a| > 0 && a[0] == b[0] == c[0] { LessTransitive(a[1..], b[1..], c[1..]); }
  }

  lemma {:induction false} LessTotal(a: string, b: string)
    ensures Less(a, b) || a == b || Less(b, a)
    ensures !(Less(a, b) && Less(b, a)) && (a == b ==> !Less(a, b))
  {
    if |a| > 0 && |b| > 0 && a[0] == b[0] {
      LessTotal(a[1..], b[1..]);
      assert a == [a[0]] + a[1..] && b == [b[0]] + b[1..];
    }
  }

  predicate CapLess(c: Cap, d: Cap) {
    Less(c.name, d.name) || (c.name == d.name && c.version < d.version)
  }

  lemma CapLessOrder(c: Cap, d: Cap, e: Cap)
    ensures CapLess(c, d) && CapLess(d, e) ==> CapLess(c, e)
    ensures CapLess(c, d) || c == d || CapLess(d, c)
    ensures !(CapLess(c, d) && CapLess(d, c)) && !CapLess(c, c)
  {
    LessTotal(c.name, d.name);
    LessTotal(d.name, e.name);
    LessTotal(c.name, c.name);
    if Less(c.name, d.name) && Less(d.name, e.name) { LessTransitive(c.name, d.name, e.name); }
  }

  ghost predicate Sorted(cs: seq<Cap>) {
    forall i, j :: 0 <= i < j < |cs| ==> !CapLess(cs[j], cs[i])
  }

  ghost predicate StrictlySorted(cs: seq<Cap>) {
    forall i, j :: 0 <= i < j < |cs| ==> CapLess(cs[i], cs[j])
  }

  /** A strictly sorted list is determined by its elements. */
  lemma {:induction false} SortedUnique(a: seq<Cap>, b: seq<Cap>)
    requires StrictlySorted(a) && StrictlySorted(b) && forall c :: c in a <==> c in b
    ensures a == b
    decreases |a|
  {
    assert a == [] <==> b == [] by {
      assert a != [] ==> a[0] in a;
      assert b != [] ==> b[0] in b;
    }
    if a != [] {
      assert a[0] in b && b[0] in a;
      var i :| 0 <= i < |b| && b[i] == a[0];
      var j :| 0 <= j < |a| && a[j] == b[0];
      CapLessOrder(a[0], b[0], a[0]);
      assert a[0] == b[0];
      TailElements(a);
      TailElements(b);
      SortedUnique(a[1..], b[1..]);
      assert a == [a[0]] + a[1..] && b == [b[0]] + b[1..];
    }
  }

  lemma TailElements(a: seq<Cap>)
    requires a != [] && StrictlySorted(a)
    ensures StrictlySorted(a[1..]) && forall c :: c in a[1..] <==> c in a && c != a[0]
  {
    CapLessOrder(a[0], a[0], a[0]);
    assert a == [a[0]] + a[1..];
    forall c | c in a[1..] ensures c != a[0] {
      var k :| 0 <= k < |a[1..]| && a[1..][k] == c;
      assert CapLess(a[0], a[k + 1]);
    }
  }

  // ----- assigning offsets

  datatype Matching = Matching(result: map<string, Running>, offset: int)

  const EMPTY := Matching(map[], BASE_PROTOCOL_LENGTH)

  /** One matched capability: an older version of the same name is reverted first. */
  function Assign(m: Matching, p: Protocol): Matching {
    var off := if p.name in m.result then m.offset - m.result[p.name].proto.length else m.offset;
    Matching(m.result[p.name := Running(p, off)], off + p.length)
  }

  /** The loop over the sorted capabilities. */
  function AssignAll(ps: seq<Protocol>, cs: seq<Cap>): Matching {
    if cs == [] then EMPTY
    else
      var m, p := AssignAll(ps, cs[..|cs| - 1]), FirstMatch(ps, cs[|cs| - 1]);
      if p.Some? then Assign(m, p.value) else m
  }

  /** Protocols laid out one after the other, behind the base protocol. */
  ghost function Lay(st: seq<Protocol>): Matching {
    if st == [] then EMPTY
    else
      var m, p := Lay(st[..|st| - 1]), st[|st| - 1];
      Matching(m.result[p.name := Running(p, m.offset)], m.offset + p.length)
  }

  /** The protocols in force after the capabilities cs: names ascend, each name at its highest
      shared version, and nothing shared is left out. */
  ghost predicate InForce(ps: seq<Protocol>, cs: seq<Cap>, st: seq<Protocol>) {
    Ascending(st) && Chosen(ps, cs, st) && Covers(ps, cs, st)
  }

  ghost predicate Ascending(st: seq<Protocol>) {
    forall i, j :: 0 <= i < j < |st| ==> Less(st[i].name, st[j].name)
  }

  ghost predicate Chosen(ps: seq<Protocol>, cs: seq<Cap>, st: seq<Protocol>) {
    forall p :: p in st ==> CapOf(p) in cs && FirstMatch(ps, CapOf(p)) == Some(p)
  }

  ghost predicate HasAtLeast(st: seq<Protocol>, c: Cap) {
    exists p :: p in st && p.name == c.name && c.version <= p.version
  }

  ghost predicate Covers(ps: seq<Protocol>, cs: seq<Cap>, st: seq<Protocol>) {
    forall c :: c in cs && FirstMatch(ps, c).Some? ==> HasAtLeast(st, c)
  }

  lemma {:induction false} LayKeys(st: seq<Protocol>, n: string)
    ensures n in Lay(st).result <==> exists p :: p in st && p.name == n
    decreases |st|
  {
    if st != [] {
      var init, last := st[..|st| - 1], st[|st| - 1];
      LayKeys(init, n);
      assert st == init + [last];
      if last.name == n { assert last in st; }
      else {
        assert forall p :: p in st && p.name == n <==> p in init && p.name == n;
      }
    }
  }

  /** Sorted capabilities leave exactly the protocols in force, laid out in order. */
  lemma {:induction false} AssignAllLays(ps: seq<Protocol>, cs: seq<Cap>) returns (st: seq<Protocol>)
    requires Sorted(cs)
    ensures InForce(ps, cs, st) && AssignAll(ps, cs) == Lay(st)
    decreases |cs|
  {
    if cs == [] {
      st := [];
    } else {
      var init, c := cs[..|cs| - 1], cs[|cs| - 1];
      var s := AssignAllLays(ps, init);
      assert cs == init + [c];
      var m := FirstMatch(ps, c);
      if m.None? {
        st := s;
        StillInForce(ps, init, c, s);
      } else {
        st := Step(ps, init, c, s, m.value);
      }
    }
  }

  lemma StillInForce(ps: seq<Protocol>, cs: seq<Cap>, c: Cap, st: seq<Protocol>)
    requires InForce(ps, cs, st) && FirstMatch(ps, c).None?
    ensures InForce(ps, cs + [c], st)
  {
  }

  /** A matched capability replaces the last protocol if it has the same name, and is appended if not. */
  lemma Step(ps: seq<Protocol>, cs: seq<Cap>, c: Cap, s: seq<Protocol>, p: Protocol) returns (st: seq<Protocol>)
    requires Sorted(cs + [c]) && InForce(ps, cs, s) && FirstMatch(ps, c) == Some(p)
    ensures InForce(ps, cs + [c], st) && Assign(Lay(s), p) == Lay(st)
  {
    if s != [] && s[|s| - 1].name == c.name {
      st := s[..|s| - 1] + [p];
      assert s == s[..|s| - 1] + [s[|s| - 1]];
      LayReplaces(s[..|s| - 1], s[|s| - 1], p, Lay(s[..|s| - 1]));
      Replaces(ps, cs, c, s, p);
    } else {
      st := s + [p];
      forall q | q in s ensures Less(q.name, c.name) {
        NamesBefore(ps, cs, c, s, q);
      }
      LayAppends(s, p);
      Appends(ps, cs, c, s, p);
    }
  }

  lemma LaySnoc(front: seq<Protocol>, p: Protocol)
    ensures var m := Lay(front);
            Lay(front + [p]) == Matching(m.result[p.name := Running(p, m.offset)], m.offset + p.length)
  {
  }

  lemma LayReplaces(front: seq<Protocol>, last: Protocol, p: Protocol, m: Matching)
    requires last.name == p.name && m == Lay(front)
    ensures Assign(Lay(front + [last]), p) == Lay(front + [p])
  {
    LaySnoc(front, last);
    LaySnoc(front, p);
    AssignReplaces(m, last, p);
  }

  lemma AssignReplaces(m: Matching, last: Protocol, p: Protocol)
    requires last.name == p.name
    ensures Assign(Matching(m.result[p.name := Running(last, m.offset)], m.offset + last.length), p)
         == Matching(m.result[p.name := Running(p, m.offset)], m.offset + p.length)
  {
  }

  lemma LayAppends(s: seq<Protocol>, p: Protocol)
    requires forall q :: q in s ==> Less(q.name, p.name)
    ensures Assign(Lay(s), p) == Lay(s + [p])
  {
    assert (s + [p])[..|s|] == s;
    LayKeys(s, p.name);
    LessTotal(p.name, p.name);
  }

  /** In sorted order, a name that is not the last one laid out comes after all of them. */
  lemma NamesBefore(ps: seq<Protocol>, cs: seq<Cap>, c: Cap, s: seq<Protocol>, q: Protocol)
    requires Sorted(cs + [c]) && InForce(ps, cs, s) && q in s && s[|s| - 1].name != c.name
    ensures Less(q.name, c.name)
  {
    var last := s[|s| - 1];
    assert last in s;
    LastIsLargest(cs, c, CapOf(last));
    LargerName(CapOf(last), c);
    NotAfterLast(s, q);
    if q.name != last.name { LessTransitive(q.name, last.name, c.name); }
  }

  lemma NotAfterLast(s: seq<Protocol>, q: Protocol)
    requires Ascending(s) && q in s
    ensures q.name == s[|s| - 1].name || Less(q.name, s[|s| - 1].name)
  {
  }

  lemma LargerName(d: Cap, c: Cap)
    requires !CapLess(c, d) && d.name != c.name
    ensures Less(d.name, c.name)
  {
    LessTotal(d.name, c.name);
  }

  lemma LastIsLargest(cs: seq<Cap>, c: Cap, d: Cap)
    requires Sorted(cs + [c]) && d in cs
    ensures !CapLess(c, d)
  {
    var k :| 0 <= k < |cs| && cs[k] == d;
    assert (cs + [c])[k] == d && (cs + [c])[|cs|] == c;
  }

  lemma Appends(ps: seq<Protocol>, cs: seq<Cap>, c: Cap, s: seq<Protocol>, p: Protocol)
    requires InForce(ps, cs, s) && FirstMatch(ps, c) == Some(p) && forall q :: q in s ==> Less(q.name, c.name)
    ensures InForce(ps, cs + [c], s + [p])
  {
    assert Ascending(s + [p]) by { AppendsAscending(s, p); }
    assert Chosen(ps, cs + [c], s + [p]) by { ChosenGrows(ps, cs, c, s, p); }
    forall d | d in cs + [c] && FirstMatch(ps, d).Some? ensures HasAtLeast(s + [p], d) {
      CoveredAfter(ps, cs, c, s, s + [p], p, d);
    }
  }

  lemma AppendsAscending(s: seq<Protocol>, p: Protocol)
    requires Ascending(s) && forall q :: q in s ==> Less(q.name, p.name)
    ensures Ascending(s + [p])
  {
  }

  lemma ChosenGrows(ps: seq<Protocol>, cs: seq<Cap>, c: Cap, s: seq<Protocol>, p: Protocol)
    requires Chosen(ps, cs, s) && FirstMatch(ps, c) == Some(p)
    ensures Chosen(ps, cs + [c], s + [p])
  {
  }

  /** A capability that was covered stays so, if the new list covers what the old one does. */
  lemma CoveredAfter(ps: seq<Protocol>, cs: seq<Cap>, c: Cap, s: seq<Protocol>, st: seq<Protocol>, p: Protocol, d: Cap)
    requires Covers(ps, cs, s) && FirstMatch(ps, c) == Some(p) && p in st
    requires forall q :: q in s ==> q in st || (q.name == p.name && q.version <= p.version)
    requires d in cs + [c] && FirstMatch(ps, d).Some?
    ensures HasAtLeast(st, d)
  {
  }

  lemma Replaces(ps: seq<Protocol>, cs: seq<Cap>, c: Cap, s: seq<Protocol>, p: Protocol)
    requires Sorted(cs + [c]) && InForce(ps, cs, s) && FirstMatch(ps, c) == Some(p)
    requires s != [] && s[|s| - 1].name == c.name
    ensures InForce(ps, cs + [c], s[..|s| - 1] + [p])
  {
    var front, last := s[..|s| - 1], s[|s| - 1];
    var st := front + [p];
    LastIsLargest(cs, c, CapOf(last));
    assert s == front + [last];
    assert Chosen(ps, cs, front);
    ChosenGrows(ps, cs, c, front, p);
    forall d | d in cs + [c] && FirstMatch(ps, d).Some? ensures HasAtLeast(st, d) {
      CoveredAfter(ps, cs, c, s, st, p, d);
    }
    ReplacedAscending(s, p);
  }

  lemma ReplacedAscending(s: seq<Protocol>, p: Protocol)
    requires s != [] && Ascending(s) && s[|s| - 1].name == p.name
    ensures Ascending(s[..|s| - 1] + [p])
  {
  }

  // ----- both ends compute the same

  /** The two ends give the same length to every protocol version they both have. */
  ghost predicate AgreeOnLengths(ps: seq<Protocol>, qs: seq<Protocol>) {
    forall c :: FirstMatch(ps, c).Some? && FirstMatch(qs, c).Some? ==> FirstMatch(ps, c) == FirstMatch(qs, c)
  }

  /** cs lists what the protocols qs advertise. */
  ghost predicate Advertises(qs: seq<Protocol>, cs: seq<Cap>) {
    forall c :: c in cs <==> c in CapsOf(qs)
  }

  /** What is in force at one end is a candidate at the other. */
  lemma Mirrored(ps: seq<Protocol>, cs: seq<Cap>, st: seq<Protocol>, qs: seq<Protocol>, ds: seq<Cap>, p: Protocol)
    requires InForce(ps, cs, st) && AgreeOnLengths(ps, qs) && Advertises(qs, cs) && Advertises(ps, ds) && p in st
    ensures CapOf(p) in ds && FirstMatch(qs, CapOf(p)) == Some(p)
  {
  }

  /** What one end has in force, the other end has in force. */
  lemma InForceElements(ps: seq<Protocol>, cs: seq<Cap>, st: seq<Protocol>, qs: seq<Protocol>, ds: seq<Cap>,
                        su: seq<Protocol>, p: Protocol)
    requires InForce(ps, cs, st) && InForce(qs, ds, su)
    requires AgreeOnLengths(ps, qs) && AgreeOnLengths(qs, ps) && Advertises(qs, cs) && Advertises(ps, ds)
    requires p in st
    ensures p in su
  {
    Mirrored(ps, cs, st, qs, ds, p);
    var q := AtLeast(qs, ds, su, CapOf(p));
    Mirrored(qs, ds, su, ps, cs, q);
    var r := AtLeast(ps, cs, st, CapOf(q));
    OneOfEachName(ps, cs, st, p, r);
    SameMatch(qs, ds, su, p, q);
  }

  /** A candidate has a protocol of its name in force, at its version or a higher one. */
  lemma AtLeast(ps: seq<Protocol>, cs: seq<Cap>, st: seq<Protocol>, c: Cap) returns (p: Protocol)
    requires InForce(ps, cs, st) && c in cs && FirstMatch(ps, c).Some?
    ensures p in st && p.name == c.name && c.version <= p.version
  {
    assert HasAtLeast(st, c);
    p :| p in st && p.name == c.name && c.version <= p.version;
  }

  lemma SameMatch(ps: seq<Protocol>, cs: seq<Cap>, st: seq<Protocol>, p: Protocol, q: Protocol)
    requires InForce(ps, cs, st) && q in st && CapOf(q) == CapOf(p) && FirstMatch(ps, CapOf(p)) == Some(p)
    ensures p == q
  {
  }

  lemma OneOfEachName(ps: seq<Protocol>, cs: seq<Cap>, st: seq<Protocol>, p: Protocol, q: Protocol)
    requires InForce(ps, cs, st) && p in st && q in st && p.name == q.name
    ensures p == q
  {
    var i :| 0 <= i < |st| && st[i] == p;
    var j :| 0 <= j < |st| && st[j] == q;
    LessTotal(p.name, q.name);
  }

  lemma InForceCapsSorted(ps: seq<Protocol>, cs: seq<Cap>, st: seq<Protocol>)
    requires InForce(ps, cs, st)
    ensures StrictlySorted(CapsOf(st))
    ensures forall p :: p in st ==> CapOf(p) in CapsOf(st)
    ensures forall c :: c in CapsOf(st) ==> exists p :: p in st && CapOf(p) == c
  {
  }

  lemma SameInForce(ps: seq<Protocol>, cs: seq<Cap>, st: seq<Protocol>, qs: seq<Protocol>, ds: seq<Cap>,
                    su: seq<Protocol>)
    requires InForce(ps, cs, st) && InForce(qs, ds, su) && AgreeOnLengths(ps, qs)
    requires Advertises(qs, cs) && Advertises(ps, ds)
    ensures st == su
  {
    InForceCapsSorted(ps, cs, st);
    InForceCapsSorted(qs, ds, su);
    forall p | p in st ensures p in su { InForceElements(ps, cs, st, qs, ds, su, p); }
    forall p | p in su ensures p in st { InForceElements(qs, ds, su, ps, cs, st, p); }
    forall c ensures c in CapsOf(st) <==> c in CapsOf(su) {
      if c in CapsOf(st) { var p :| p in st && CapOf(p) == c; assert p in su; }
      if c in CapsOf(su) { var p :| p in su && CapOf(p) == c; assert p in st; }
    }
    SortedUnique(CapsOf(st), CapsOf(su));
    forall i | 0 <= i < |st| ensures st[i] == su[i] {
      assert st[i] in st && CapsOf(st)[i] == CapsOf(su)[i];
      OneOfEachName(qs, ds, su, st[i], su[i]);
    }
  }

  /** Two ends, each matching its own protocols against what the other advertises (in any order),
      compute the same map of names to protocols and offsets. */
  lemma EndsAgree(ps: seq<Protocol>, qs: seq<Protocol>, fromQs: seq<Cap>, fromPs: seq<Cap>)
    requires AgreeOnLengths(ps, qs) && Sorted(fromQs) && Sorted(fromPs)
    requires Advertises(qs, fromQs) && Advertises(ps, fromPs)
    ensures AssignAll(ps, fromQs) == AssignAll(qs, fromPs)
  {
    var st := AssignAllLays(ps, fromQs);
    var su := AssignAllLays(qs, fromPs);
    SameInForce(ps, fromQs, st, qs, fromPs, su);
  }

  // ----- the code space

  predicate InRange(r: Running, code: int) {
    r.offset <= code < r.offset + r.proto.length
  }

  /** The ranges tile the code space behind the base protocol: they do not overlap, and together they
      are exactly the codes from 16 up to the final offset. */
  ghost predicate Tiles(m: Matching) {
    && (forall n, code :: n in m.result && InRange(m.result[n], code) ==> BASE_PROTOCOL_LENGTH <= code < m.offset)
    && (forall n, k, code :: n in m.result && k in m.result && InRange(m.result[n], code) && InRange(m.result[k], code)
          ==> n == k)
    && (forall code :: BASE_PROTOCOL_LENGTH <= code < m.offset ==> Owned(m, code))
  }

  ghost predicate Owned(m: Matching, code: int) {
    exists n :: n in m.result && InRange(m.result[n], code)
  }

  lemma {:induction false} LayTiles(st: seq<Protocol>)
    requires forall i, j :: 0 <= i < j < |st| ==> st[i].name != st[j].name
    ensures Tiles(Lay(st)) && Lay(st).offset >= BASE_PROTOCOL_LENGTH
    decreases |st|
  {
    if st != [] {
      var init, p := st[..|st| - 1], st[|st| - 1];
      LayTiles(init);
      LayKeys(init, p.name);
      forall q | q in init ensures q.name != p.name {
        var k :| 0 <= k < |init| && init[k] == q;
        assert st[k].name != st[|st| - 1].name;
      }
      TilesExtend(Lay(init), p);
    }
  }

  lemma TilesExtend(m: Matching, p: Protocol)
    requires Tiles(m) && m.offset >= BASE_PROTOCOL_LENGTH && p.name !in m.result
    ensures Tiles(Matching(m.result[p.name := Running(p, m.offset)], m.offset + p.length))
  {
    var m' := Matching(m.result[p.name := Running(p, m.offset)], m.offset + p.length);
    forall code | BASE_PROTOCOL_LENGTH <= code < m'.offset ensures Owned(m', code) {
      if code < m.offset {
        assert Owned(m, code);
        var n :| n in m.result && InRange(m.result[n], code);
        assert n in m'.result && m'.result[n] == m.result[n];
      } else {
        assert p.name in m'.result && InRange(m'.result[p.name], code);
      }
    }
    forall n, k, code | n in m'.result && k in m'.result && InRange(m'.result[n], code) && InRange(m'.result[k], code)
      ensures n == k
    {
      assert n != p.name ==> m'.result[n] == m.result[n];
      assert k != p.name ==> m'.result[k] == m.result[k];
    }
    forall n, code | n in m'.result && InRange(m'.result[n], code) ensures BASE_PROTOCOL_LENGTH <= code < m'.offset {
      assert n != p.name ==> m'.result[n] == m.result[n];
    }
  }

  /** For any advertised capabilities the negotiated ranges tile the code space, and each running
      protocol is the highest shared version of its name. */
  lemma NegotiationIsSound(ps: seq<Protocol>, cs: seq<Cap>)
    requires Sorted(cs)
    ensures Tiles(AssignAll(ps, cs))
    ensures forall n, code :: n in AssignAll(ps, cs).result && InRange(AssignAll(ps, cs).result[n], code) ==> code >= 16
    ensures forall n :: n in AssignAll(ps, cs).result ==> IsHighestShared(ps, cs, n, AssignAll(ps, cs).result[n].proto)
    ensures forall c :: c in cs && FirstMatch(ps, c).Some? ==> c.name in AssignAll(ps, cs).result
  {
    var st := AssignAllLays(ps, cs);
    forall i, j | 0 <= i < j < |st| ensures st[i].name != st[j].name { LessTotal(st[i].name, st[j].name); }
    LayTiles(st);
    forall n | n in Lay(st).result ensures IsHighestShared(ps, cs, n, Lay(st).result[n].proto) {
      LayProto(st, n);
      var p := Lay(st).result[n].proto;
      forall c | c in cs && c.name == n && FirstMatch(ps, c).Some? ensures c.version <= p.version {
        var q :| q in st && q.name == c.name && c.version <= q.version;
        OneOfEachName(ps, cs, st, p, q);
      }
    }
    forall c | c in cs && FirstMatch(ps, c).Some? ensures c.name in Lay(st).result {
      var q :| q in st && q.name == c.name && c.version <= q.version;
      LayKeys(st, c.name);
    }
  }

  ghost predicate IsHighestShared(ps: seq<Protocol>, cs: seq<Cap>, n: string, p: Protocol) {
    && p.name == n && CapOf(p) in cs && FirstMatch(ps, CapOf(p)) == Some(p)
    && forall c :: c in cs && c.name == n && FirstMatch(ps, c).Some? ==> c.version <= p.version
  }

  lemma {:induction false} LayProto(st: seq<Protocol>, n: string)
    requires n in Lay(st).result
    ensures Lay(st).result[n].proto in st && Lay(st).result[n].proto.name == n
    decreases |st|
  {
    if st != [] {
      var init, last := st[..|st| - 1], st[|st| - 1];
      assert st == init + [last];
      if n != last.name { LayProto(init, n); }
    }
  }

  // ----- messages

  datatype Sent = OnWire(code: int) | NotHandled
  datatype Received = Ping | Disconnect | Ignored | Delivered(name: string, code: int) | OutOfRange

  function WriteMsg(rw: Running, code: nat): Sent {
    if code >= rw.proto.length then NotHandled else OnWire(code + rw.offset)
  }

  /** Any running protocol whose range holds the code; the map is searched in no particular order. */
  method GetProto(running: map<string, Running>, code: int) returns (found: Option<string>)
    ensures found.Some? ==> found.value in running && InRange(running[found.value], code)
    ensures found.None? ==> forall n :: n in running ==> !InRange(running[n], code)
  {
    var rest := running.Keys;
    while rest != {}
      invariant rest <= running.Keys
      invariant forall n :: n in running && n !in rest ==> !InRange(running[n], code)
      decreases rest
    {
      var n :| n in rest;
      if code >= running[n].offset && code < running[n].offset + running[n].proto.length {
        return Some(n);
      }
      rest := rest - {n};
    }
    return None;
  }

  /** The receiving side: base protocol codes first, then the protocol whose range holds the code;
      reading subtracts its offset again. */
  method Handle(running: map<string, Running>, code: nat) returns (r: Received)
    ensures code == PING_MSG ==> r == Ping
    ensures code == DISC_MSG ==> r == Disconnect
    ensures code < BASE_PROTOCOL_LENGTH && code != PING_MSG && code != DISC_MSG ==> r == Ignored
    ensures code >= BASE_PROTOCOL_LENGTH && r.Delivered? ==>
      r.name in running && InRange(running[r.name], code) && r.code == code - running[r.name].offset
    ensures code >= BASE_PROTOCOL_LENGTH && !r.Delivered? ==>
      r == OutOfRange && forall n :: n in running ==> !InRange(running[n], code)
  {
    if code == PING_MSG {
      return Ping;
    } else if code == DISC_MSG {
      return Disconnect;
    } else if code < BASE_PROTOCOL_LENGTH {
      return Ignored;
    }
    var found := GetProto(running, code);
    if found.None? {
      return OutOfRange;
    }
    return Delivered(found.value, code - running[found.value].offset);
  }

  /** What a Handle call may return for a code. */
  ghost predicate MayReceive(running: map<string, Running>, code: nat, r: Received) {
    code >= BASE_PROTOCOL_LENGTH ==>
      if r.Delivered? then
        r.name in running && InRange(running[r.name], code) && r.code == code - running[r.name].offset
      else r == OutOfRange && forall n :: n in running ==> !InRange(running[n], code)
  }

  /** A code written to a protocol at one end is delivered at the other end to the same protocol, at
      the same version, with the same code. */
  lemma MessageArrives(ps: seq<Protocol>, qs: seq<Protocol>, fromQs: seq<Cap>, fromPs: seq<Cap>, n: string, code: nat,
                       r: Received)
    requires AgreeOnLengths(ps, qs) && Sorted(fromQs) && Sorted(fromPs)
    requires Advertises(qs, fromQs) && Advertises(ps, fromPs)
    requires n in AssignAll(ps, fromQs).result && WriteMsg(AssignAll(ps, fromQs).result[n], code).OnWire?
    requires WriteMsg(AssignAll(ps, fromQs).result[n], code).code >= 0
    requires MayReceive(AssignAll(qs, fromPs).result, WriteMsg(AssignAll(ps, fromQs).result[n], code).code, r)
    ensures r == Delivered(n, code) && n in AssignAll(qs, fromPs).result
    ensures AssignAll(qs, fromPs).result[n] == AssignAll(ps, fromQs).result[n]
  {
    EndsAgree(ps, qs, fromQs, fromPs);
    NegotiationIsSound(ps, fromQs);
    var m := AssignAll(ps, fromQs);
    assert InRange(m.result[n], code + m.result[n].offset);
  }

  // ----- the loops

  method SortCaps(cs: seq<Cap>) returns (r: seq<Cap>)
    ensures Sorted(r) && forall c :: c in r <==> c in cs
  {
    r := [];
    for k := 0 to |cs|
      invariant Sorted(r) && forall c :: c in r <==> c in cs[..k]
    {
      r := InsertCap(r, cs[k]);
      assert cs[..k + 1] == cs[..k] + [cs[k]];
    }
    assert cs[..|cs|] == cs;
  }

  method InsertCap(r: seq<Cap>, c: Cap) returns (r': seq<Cap>)
    requires Sorted(r)
    ensures Sorted(r') && forall d :: d in r' <==> d in r || d == c
  {
    var i := |r|;
    while i > 0 && CapLess(c, r[i - 1])
      invariant 0 <= i <= |r|
      invariant forall j :: i <= j < |r| ==> CapLess(c, r[j])
    {
      i := i - 1;
    }
    r' := r[..i] + [c] + r[i..];
    assert r == r[..i] + r[i..];
    InsertedSorted(r, c, i);
  }

  lemma InsertedSorted(r: seq<Cap>, c: Cap, i: nat)
    requires Sorted(r) && i <= |r| && (forall j :: i <= j < |r| ==> CapLess(c, r[j]))
    requires i > 0 ==> !CapLess(c, r[i - 1])
    ensures Sorted(r[..i] + [c] + r[i..])
  {
    var t := r[..i] + [c] + r[i..];
    forall a, b | 0 <= a < b < |t| ensures !CapLess(t[b], t[a]) {
      assert a != i ==> t[a] == r[if a < i then a else a - 1];
      assert b != i ==> t[b] == r[if b < i then b else b - 1];
      if a == i { CapLessOrder(c, t[b], c); }
      if b == i {
        CapLessOrder(c, r[a], r[i - 1]);
        CapLessOrder(r[a], r[i - 1], c);
        assert a == i - 1 || !CapLess(r[i - 1], r[a]);
      }
    }
  }

  /** Every shared name runs at its highest shared version, on ranges that tile the code space; and the
      map is the one that both ends compute, whatever the order of the input. */
  method MatchProtocols(ps: seq<Protocol>, caps: seq<Cap>)
    returns (result: map<string, Running>, ghost sorted: seq<Cap>)
    ensures forall n :: n in result <==> exists c :: c in caps && c.name == n && FirstMatch(ps, c).Some?
    ensures forall n :: n in result ==> IsHighestShared(ps, caps, n, result[n].proto)
    ensures exists end :: Tiles(Matching(result, end))
    ensures Sorted(sorted) && (forall c :: c in sorted <==> c in caps)
    ensures result == AssignAll(ps, sorted).result
  {
    var cs := SortCaps(caps);
    sorted := cs;
    ghost var end;
    result, end := MatchSorted(ps, cs);
    SortedMatchIsSound(ps, cs, caps);
  }

  lemma SortedMatchIsSound(ps: seq<Protocol>, cs: seq<Cap>, caps: seq<Cap>)
    requires Sorted(cs) && forall c :: c in cs <==> c in caps
    ensures var m := AssignAll(ps, cs);
            && Tiles(Matching(m.result, m.offset))
            && (forall n :: n in m.result <==> exists c :: c in caps && c.name == n && FirstMatch(ps, c).Some?)
            && (forall n :: n in m.result ==> IsHighestShared(ps, caps, n, m.result[n].proto))
  {
    NegotiationIsSound(ps, cs);
    var m := AssignAll(ps, cs);
    forall n | n in m.result ensures exists c :: c in caps && c.name == n && FirstMatch(ps, c).Some? {
      assert IsHighestShared(ps, cs, n, m.result[n].proto);
      assert CapOf(m.result[n].proto) in caps;
    }
  }

  /** The loop with the running offset. */
  method MatchSorted(ps: seq<Protocol>, cs: seq<Cap>) returns (result: map<string, Running>, offset: int)
    ensures Matching(result, offset) == AssignAll(ps, cs)
  {
    offset := BASE_PROTOCOL_LENGTH;
    result := map[];
    for k := 0 to |cs|
      invariant Matching(result, offset) == AssignAll(ps, cs[..k])
    {
      var c := cs[k];
      assert cs[..k + 1][..k] == cs[..k];
      var i := 0;
      while i < |ps| && CapOf(ps[i]) != c
        invariant 0 <= i <= |ps|
        invariant FirstMatch(ps, c) == FirstMatch(ps[i..], c)
      {
        assert ps[i..][1..] == ps[i + 1..];
        i := i + 1;
      }
      if i < |ps| {
        assert FirstMatch(ps, c) == Some(ps[i]);
        if c.name in result {
          offset := offset - result[c.name].proto.length;
        }
        result := result[c.name := Running(ps[i], offset)];
        offset := offset + ps[i].length;
      }
    }
    assert cs[..|cs|] == cs;
  }
}
