/** What newTasks decides (p2p/dial.go), from the fields of the dialer: which nodes are dialled and why the
    others are not, when a lookup starts, and how long an idle dialer waits. */
module DialerLaws {
  import opened Common
  import opened Dialer

  /** Nothing speaks against dialling the node: no dial, no peer, not ourselves, not outside the whitelist,
      and no past dial in the history. */
  ghost predicate Open(d: DialState, peers: Peers, id: NodeId) {
    && id !in d.dialing && id !in peers && d.self != Some(id) && id !in d.banned
    && forall e :: e in d.hist ==> e.id != id
  }

  lemma FineIff(d: DialState, peers: Peers, id: NodeId)
    ensures CheckDial(d, peers, id) == Fine <==> Open(d, peers, id)
  {
    if InHist(d.hist, id) {
      var i :| 0 <= i < |d.hist| && d.hist[i].id == id;
      assert d.hist[i] in d.hist;
    }
  }

  /** One part of newTasks, from a to b: what a check looks at is only changed by new dials, each of them
      of a node in `from`, with these flags, that was open; and the nodes in `tried` are open no more. */
  ghost predicate Part(a: Acc, b: Acc, peers: Peers, from: set<NodeId>, tried: set<NodeId>, flags: Flags) {
    && b.d.hist == a.d.hist && b.d.self == a.d.self && b.d.banned == a.d.banned && b.d.start == a.d.start
    && (forall id :: id in a.d.dialing ==> id in b.d.dialing)
    && |a.tasks| <= |b.tasks| && b.tasks[..|a.tasks|] == a.tasks
    && (forall i :: |a.tasks| <= i < |b.tasks| ==>
          b.tasks[i].Dial? && b.tasks[i].id in from && b.tasks[i].flags == flags && Open(a.d, peers, b.tasks[i].id))
    && (forall id :: id in tried ==> !Open(b.d, peers, id))
  }

  lemma PartTransitive(a: Acc, b: Acc, c: Acc, peers: Peers, f: set<NodeId>, g: set<NodeId>, v: set<NodeId>,
                       w: set<NodeId>, flags: Flags)
    requires Part(a, b, peers, f, v, flags) && Part(b, c, peers, g, w, flags)
    ensures Part(a, c, peers, f + g, v + w, flags)
  {
    forall i | |a.tasks| <= i < |c.tasks|
      ensures c.tasks[i].Dial? && c.tasks[i].id in f + g && c.tasks[i].flags == flags && Open(a.d, peers, c.tasks[i].id)
    {
      if i < |b.tasks| { assert c.tasks[i] == c.tasks[..|b.tasks|][i] == b.tasks[i]; }
    }
    assert c.tasks[..|a.tasks|] == c.tasks[..|b.tasks|][..|a.tasks|];
  }

  lemma DynPart(a: Acc, peers: Peers, id: NodeId)
    ensures Part(a, AddDyn(a, peers, id), peers, {id}, {id}, DYN_DIALED)
    ensures AddDyn(a, peers, id).need == a.need - if Open(a.d, peers, id) then 1 else 0
    ensures AddDyn(a, peers, id).d.lookupBuf == a.d.lookupBuf && AddDyn(a, peers, id).d.statics == a.d.statics
    ensures AddDyn(a, peers, id).d.bootnodes == a.d.bootnodes
    ensures AddDyn(a, peers, id).d.lookupRunning == a.d.lookupRunning
  {
    FineIff(a.d, peers, id);
  }

  // ----- static nodes

  /** The static node is ourselves or outside the whitelist, and is neither dialled nor connected. */
  predicate Hopeless(d: DialState, peers: Peers, id: NodeId) {
    id !in d.dialing && id !in peers && (d.self == Some(id) || id in d.banned)
  }

  lemma StaticPart(a: Acc, peers: Peers, id: NodeId)
    ensures var b := AddStatic(a, peers, id);
            && Part(a, b, peers, {id}, {id}, STATIC_DIALED) && b.need == a.need
            && b.d.lookupBuf == a.d.lookupBuf && b.d.lookupRunning == a.d.lookupRunning
            && b.d.bootnodes == a.d.bootnodes
            && b.d.statics == (if Hopeless(a.d, peers, id) then a.d.statics - {id} else a.d.statics)
            && (forall k :: Hopeless(b.d, peers, k) <==> Hopeless(a.d, peers, k))
  {
    FineIff(a.d, peers, id);
  }

  ghost function SetOf(s: seq<NodeId>): set<NodeId> { set id | id in s }

  lemma {:induction false} StaticsPart(a: Acc, peers: Peers, order: seq<NodeId>)
    ensures var b := AddStatics(a, peers, order);
            && Part(a, b, peers, SetOf(order), SetOf(order), STATIC_DIALED) && b.need == a.need
            && b.d.lookupBuf == a.d.lookupBuf && b.d.lookupRunning == a.d.lookupRunning
            && b.d.bootnodes == a.d.bootnodes
            && (forall k :: k in b.d.statics <==> k in a.d.statics && !(k in order && Hopeless(a.d, peers, k)))
    decreases |order|
  {
    if order != [] {
      var id, rest := order[0], order[1..];
      var b := AddStatic(a, peers, id);
      StaticPart(a, peers, id);
      StaticsPart(b, peers, rest);
      PartTransitive(a, b, AddStatics(b, peers, rest), peers, {id}, SetOf(rest), {id}, SetOf(rest), STATIC_DIALED);
      assert SetOf(order) == {id} + SetOf(rest);
    }
  }

  // ----- dynamic nodes

  /** The conditions of the fallback. */
  predicate FallsBack(a: Acc, peers: Peers, now: Time) {
    peers == map[] && a.d.bootnodes != [] && a.need > 0 && a.d.start.Some? && now - a.d.start.value > 20
  }

  lemma BootnodePart(a: Acc, peers: Peers, now: Time)
    ensures var b, bs := AddBootnode(a, peers, now), a.d.bootnodes;
            && Part(a, b, peers, SetOf(bs[..if bs == [] then 0 else 1]),
                    if FallsBack(a, peers, now) then {bs[0]} else {}, DYN_DIALED)
            && b.d.bootnodes == (if FallsBack(a, peers, now) then bs[1..] + [bs[0]] else bs)
            && b.d.lookupBuf == a.d.lookupBuf && b.d.lookupRunning == a.d.lookupRunning
            && b.d.statics == a.d.statics
            && b.need == a.need - if FallsBack(a, peers, now) && Open(a.d, peers, bs[0]) then 1 else 0
  {
    var bs := a.d.bootnodes;
    if FallsBack(a, peers, now) {
      var c := a.(d := a.d.(bootnodes := bs[1..] + [bs[0]]));
      DynPart(c, peers, bs[0]);
      assert Open(c.d, peers, bs[0]) <==> Open(a.d, peers, bs[0]);
    }
  }

  lemma {:induction false} RandomPart(a: Acc, peers: Peers, nodes: seq<NodeId>, limit: int)
    ensures var b, k := AddRandom(a, peers, nodes, limit), Tried(nodes, limit);
            && Part(a, b, peers, SetOf(nodes[..k]), SetOf(nodes[..k]), DYN_DIALED) && b.need <= a.need
            && b.d.lookupBuf == a.d.lookupBuf && b.d.lookupRunning == a.d.lookupRunning
            && b.d.statics == a.d.statics && b.d.bootnodes == a.d.bootnodes
    decreases |nodes|
  {
    var k := Tried(nodes, limit);
    if k > 0 {
      var id, rest := nodes[0], nodes[1..];
      var b := AddDyn(a, peers, id);
      DynPart(a, peers, id);
      RandomPart(b, peers, rest, limit - 1);
      var s := SetOf(rest[..Tried(rest, limit - 1)]);
      PartTransitive(a, b, AddRandom(b, peers, rest, limit - 1), peers, {id}, s, {id}, s, DYN_DIALED);
      assert nodes[..k] == [id] + rest[..k - 1];
      assert SetOf(nodes[..k]) == {id} + s;
    } else {
      assert nodes[..k] == [];
    }
  }

  /** How many of the random nodes are tried. */
  function Tried(nodes: seq<NodeId>, limit: int): nat {
    if limit <= 0 then 0 else if limit < |nodes| then limit else |nodes|
  }

  /** The results tried leave the front of the buffer; the rest stays, and is only left when no dial is
      needed any more. */
  lemma {:induction false} LookupsPart(a: Acc, peers: Peers) returns (k: nat)
    ensures var b, buf := AddLookups(a, peers), a.d.lookupBuf;
            && k <= |buf| && b.d.lookupBuf == buf[k..] && (k < |buf| ==> b.need <= 0)
            && Part(a, b, peers, SetOf(buf[..k]), SetOf(buf[..k]), DYN_DIALED)
            && b.d.lookupRunning == a.d.lookupRunning
            && b.d.statics == a.d.statics && b.d.bootnodes == a.d.bootnodes
    decreases |a.d.lookupBuf|
  {
    var buf := a.d.lookupBuf;
    k := 0;
    assert buf[..0] == [] && buf[0..] == buf;
    if buf != [] && a.need > 0 {
      var id, rest := buf[0], buf[1..];
      var c := a.(d := a.d.(lookupBuf := rest));
      var b := AddDyn(c, peers, id);
      DynPart(c, peers, id);
      assert Part(a, b, peers, {id}, {id}, DYN_DIALED);
      var n := LookupsPart(b, peers);
      k := n + 1;
      var s := SetOf(rest[..n]);
      PartTransitive(a, b, AddLookups(b, peers), peers, {id}, s, {id}, s, DYN_DIALED);
      assert buf[..k] == [id] + rest[..n] && buf[k..] == rest[n..];
      assert SetOf(buf[..k]) == {id} + s;
    }
  }

  // ----- the end of newTasks

  /** A lookup starts if and only if dials are still needed and none is running. */
  lemma DiscoverLaw(a: Acc)
    requires a.need <= 0 || a.d.lookupBuf == []
    ensures var b := AddDiscover(a);
            && b.tasks == a.tasks + (if a.need > 0 && !a.d.lookupRunning then [Discover] else [])
            && b.d == a.d.(lookupRunning := a.d.lookupRunning || a.need > 0)
  {
  }

  lemma {:induction false} MinExpIsEarliest(h: seq<PastDial>)
    requires h != []
    ensures forall e :: e in h ==> MinExp(h) <= e.exp
    ensures exists e :: e in h && e.exp == MinExp(h)
    decreases |h|
  {
    if |h| > 1 {
      MinExpIsEarliest(h[1..]);
      assert forall e :: e in h <==> e == h[0] || e in h[1..];
    }
    assert h[0] in h;
  }

  /** With nothing running and nothing to do, the dialer waits until the first of its past dials expires. */
  lemma WaitLaw(a: Acc, nRunning: nat, now: Time)
    ensures var b := AddWait(a, nRunning, now);
            && b.d == a.d
            && if nRunning == 0 && a.tasks == [] && a.d.hist != []
               then && |b.tasks| == 1 && b.tasks[0].WaitExpire?
                    && (forall e :: e in a.d.hist ==> now + b.tasks[0].duration <= e.exp)
                    && (exists e :: e in a.d.hist && now + b.tasks[0].duration == e.exp)
               else b.tasks == a.tasks
  {
    if nRunning == 0 && a.tasks == [] && a.d.hist != [] { MinExpIsEarliest(a.d.hist); }
  }

  // ----- the whole of newTasks

  /** The dialer as a check sees it when newTasks begins: the expired entries of the history are gone. */
  ghost function Unexpired(d: DialState, now: Time): DialState { d.(hist := Expire(d.hist, now)) }

  /** The dynamic dials needed when newTasks begins. */
  ghost function Needed(d: DialState, peers: Peers): int {
    d.maxDynDials - |DynOf(peers)| - |DynOf(d.dialing)|
  }

  /** Half of the dials still needed are tried at random: of those needed at the start, less the one of a
      bootnode if there was one; and the first bootnode is tried and goes to the end exactly when there is
      no peer, a dial is needed and the start is more than 20 seconds ago. */
  lemma RandomAndBootnode(d: DialState, nRunning: nat, peers: Peers, now: Time, order: seq<NodeId>, random: seq<NodeId>)
    ensures var r, bs := NewTasks(d, nRunning, peers, now, order, random), d.bootnodes;
            var late := peers == map[] && bs != [] && Needed(d, peers) > 0
                        && d.start.Some? && now - d.start.value > 20;
            && r.d.bootnodes == (if late then bs[1..] + [bs[0]] else bs)
            && (late ==> !Open(r.d, peers, bs[0]))
            && (forall i :: 0 <= i < |random| && i < (Needed(d, peers) - if late then 1 else 0) / 2 ==>
                  !Open(r.d, peers, random[i]))
  {
    var a0 := Prepare(d, peers, now);
    var a1 := AddStatics(a0, peers, order);
    StaticsPart(a0, peers, order);
    var a2 := AddBootnode(a1, peers, now);
    BootnodePart(a1, peers, now);
    var k := Tried(random, a2.need / 2);
    var a3 := AddRandom(a2, peers, random, a2.need / 2);
    RandomPart(a2, peers, random, a2.need / 2);
    var n := LookupsPart(a3, peers);
    var a4 := AddLookups(a3, peers);
    TailOfTasks(a4, nRunning, now);
    forall i | 0 <= i < k ensures !Open(a4.d, peers, random[i]) {
      assert random[i] in random[..k];
      assert !Open(a3.d, peers, random[i]);
    }
  }

  /** Every static node and every candidate that was due is dialled now, or there is a reason against it;
      every new dial is of a static node or of such a candidate, with the flags of its kind, and there was
      nothing against it.  Hopeless static nodes are dropped, and no others. */
  lemma EveryDialHasItsReason(d: DialState, nRunning: nat, peers: Peers, now: Time, order: seq<NodeId>,
                              random: seq<NodeId>) returns (k: nat, n: nat)
    ensures var r := NewTasks(d, nRunning, peers, now, order, random);
            && r.d.self == d.self && r.d.banned == d.banned && r.d.hist == Expire(d.hist, now)
            && k <= |random| && n <= |d.lookupBuf| && r.d.lookupBuf == d.lookupBuf[n..]
            && (n < |d.lookupBuf| ==> r.need <= 0)
            && (forall id :: id in order || id in random[..k] || id in d.lookupBuf[..n] ==> !Open(r.d, peers, id))
            && (forall t :: t in r.tasks && t.Dial? ==>
                  && Open(Unexpired(d, now), peers, t.id)
                  && if t.flags == STATIC_DIALED then t.id in order
                     else t.flags == DYN_DIALED
                          && (t.id in d.bootnodes[..if d.bootnodes == [] then 0 else 1]
                              || t.id in random[..k] || t.id in d.lookupBuf[..n]))
            && (forall id :: id in r.d.statics <==>
                  id in d.statics && !(id in order && Hopeless(d, peers, id)))
  {
    var a0 := Prepare(d, peers, now);
    var a1 := AddStatics(a0, peers, order);
    StaticsPart(a0, peers, order);
    var a2 := AddBootnode(a1, peers, now);
    BootnodePart(a1, peers, now);
    k := Tried(random, a2.need / 2);
    var a3 := AddRandom(a2, peers, random, a2.need / 2);
    RandomPart(a2, peers, random, a2.need / 2);
    n := LookupsPart(a3, peers);
    var a4 := AddLookups(a3, peers);
    TailOfTasks(a4, nRunning, now);
    DynamicPart(a1, a2, a3, a4, peers, now, random, k, d.bootnodes, d.lookupBuf, n);
    AllParts(a0, a1, a4, NewTasks(d, nRunning, peers, now, order, random), peers, order, random[..k], d.lookupBuf[..n],
             d.bootnodes[..if d.bootnodes == [] then 0 else 1]);
  }

  /** What follows the dials adds no dial. */
  lemma TailOfTasks(a: Acc, nRunning: nat, now: Time)
    requires a.need <= 0 || a.d.lookupBuf == []
    ensures var r := AddWait(AddDiscover(a), nRunning, now);
            && r.d == a.d.(lookupRunning := r.d.lookupRunning) && r.need == a.need
            && (forall t :: t in r.tasks && t.Dial? ==> t in a.tasks)
  {
    DiscoverLaw(a);
    WaitLaw(AddDiscover(a), nRunning, now);
  }

  lemma DynamicPart(a1: Acc, a2: Acc, a3: Acc, a4: Acc, peers: Peers, now: Time, random: seq<NodeId>, k: nat,
                    bs: seq<NodeId>, buf: seq<NodeId>, n: nat)
    requires k <= |random| && n <= |buf| && a1.d.bootnodes == bs
    requires Part(a1, a2, peers, SetOf(bs[..if bs == [] then 0 else 1]),
                  if FallsBack(a1, peers, now) then {bs[0]} else {}, DYN_DIALED)
    requires Part(a2, a3, peers, SetOf(random[..k]), SetOf(random[..k]), DYN_DIALED)
    requires Part(a3, a4, peers, SetOf(buf[..n]), SetOf(buf[..n]), DYN_DIALED)
    ensures var b := SetOf(bs[..if bs == [] then 0 else 1]);
            var rs, ls := SetOf(random[..k]), SetOf(buf[..n]);
            Part(a1, a4, peers, b + rs + ls, rs + ls, DYN_DIALED)
  {
    var b := SetOf(bs[..if bs == [] then 0 else 1]);
    var v := if FallsBack(a1, peers, now) then {bs[0]} else {};
    var f, g := SetOf(random[..k]), SetOf(buf[..n]);
    PartTransitive(a1, a2, a3, peers, b, f, v, f, DYN_DIALED);
    PartTransitive(a1, a3, a4, peers, b + f, g, v + f, g, DYN_DIALED);
  }

  lemma AllParts(a0: Acc, a1: Acc, a4: Acc, r: Acc, peers: Peers, order: seq<NodeId>, rs: seq<NodeId>,
                 ls: seq<NodeId>, bs: seq<NodeId>)
    requires Part(a0, a1, peers, SetOf(order), SetOf(order), STATIC_DIALED) && a0.tasks == []
    requires Part(a1, a4, peers, SetOf(bs) + SetOf(rs) + SetOf(ls), SetOf(rs) + SetOf(ls), DYN_DIALED)
    requires r.d == a4.d.(lookupRunning := r.d.lookupRunning) && forall t :: t in r.tasks && t.Dial? ==> t in a4.tasks
    ensures forall id :: id in order || id in rs || id in ls ==> !Open(r.d, peers, id)
    ensures forall t :: t in r.tasks && t.Dial? ==>
      && Open(a0.d, peers, t.id)
      && if t.flags == STATIC_DIALED then t.id in order
         else t.flags == DYN_DIALED && (t.id in bs || t.id in rs || t.id in ls)
  {
    forall t | t in r.tasks && t.Dial?
      ensures Open(a0.d, peers, t.id)
      ensures if t.flags == STATIC_DIALED then t.id in order
              else t.flags == DYN_DIALED && (t.id in bs || t.id in rs || t.id in ls)
    {
      var i :| 0 <= i < |a4.tasks| && a4.tasks[i] == t;
      if i < |a1.tasks| { assert a4.tasks[..|a1.tasks|][i] == a1.tasks[i]; }
    }
    forall id | id in order || id in rs || id in ls ensures !Open(r.d, peers, id) {
      if id in order { assert !Open(a1.d, peers, id); } else { assert !Open(a4.d, peers, id); }
    }
  }

  /** A static node against which only the history can speak is dialled if and only if it has no past dial
      that is still unexpired. */
  lemma StaticIsDialled(d: DialState, nRunning: nat, peers: Peers, now: Time, order: seq<NodeId>, random: seq<NodeId>,
                        id: NodeId)
    requires id in order && id !in d.dialing && id !in peers && d.self != Some(id) && id !in d.banned
    ensures (exists f :: Dial(id, f) in NewTasks(d, nRunning, peers, now, order, random).tasks) <==>
      forall e :: e in d.hist && e.id == id ==> e.exp < now
  {
    var r := NewTasks(d, nRunning, peers, now, order, random);
    var _, _ := EveryDialHasItsReason(d, nRunning, peers, now, order, random);
    NewTasksBuilds(d, nRunning, peers, now, order, random);
    if forall e :: e in d.hist && e.id == id ==> e.exp < now {
      assert id in r.d.dialing;
      assert Dial(id, r.d.dialing[id]) in r.tasks;
    }
  }

  /** When newTasks starts a lookup and when it waits: a lookup if and only if dials are still needed and
      none is running; a timer if and only if nothing runs, nothing is to be done and there is a past
      dial, for as long as it takes the first of them to expire. */
  lemma LookupOrWait(d: DialState, nRunning: nat, peers: Peers, now: Time, order: seq<NodeId>, random: seq<NodeId>)
    ensures var r := NewTasks(d, nRunning, peers, now, order, random);
            && (Discover in r.tasks <==> r.need > 0 && !d.lookupRunning)
            && (forall t :: t in r.tasks && t.WaitExpire? ==>
                  && nRunning == 0 && r.tasks == [t]
                  && (forall e :: e in d.hist && e.exp >= now ==> now + t.duration <= e.exp)
                  && (exists e :: e in d.hist && e.exp >= now && now + t.duration == e.exp))
            && (nRunning == 0 && r.tasks == [] ==> forall e :: e in d.hist ==> e.exp < now)
  {
    var a := DialsOf(d, nRunning, peers, now, order, random);
    EndOfTasks(a, nRunning, now);
  }

  /** The accumulation when all dials are added. */
  lemma DialsOf(d: DialState, nRunning: nat, peers: Peers, now: Time, order: seq<NodeId>, random: seq<NodeId>)
    returns (a: Acc)
    ensures NewTasks(d, nRunning, peers, now, order, random) == AddWait(AddDiscover(a), nRunning, now)
    ensures (a.need <= 0 || a.d.lookupBuf == []) && forall t :: t in a.tasks ==> t.Dial?
    ensures a.d.lookupRunning == d.lookupRunning && a.d.hist == Expire(d.hist, now)
  {
    var a0 := Prepare(d, peers, now);
    var a1 := AddStatics(a0, peers, order);
    StaticsPart(a0, peers, order);
    var a2 := AddBootnode(a1, peers, now);
    BootnodePart(a1, peers, now);
    var a3 := AddRandom(a2, peers, random, a2.need / 2);
    RandomPart(a2, peers, random, a2.need / 2);
    var n := LookupsPart(a3, peers);
    a := AddLookups(a3, peers);
    OnlyDials(a0, a1, a2, a3, a);
  }

  lemma EndOfTasks(a: Acc, nRunning: nat, now: Time)
    requires (a.need <= 0 || a.d.lookupBuf == []) && forall t :: t in a.tasks ==> t.Dial?
    ensures var r := AddWait(AddDiscover(a), nRunning, now);
            && r.need == a.need && (Discover in r.tasks <==> r.need > 0 && !a.d.lookupRunning)
            && (forall t :: t in r.tasks && t.WaitExpire? ==>
                  && nRunning == 0 && r.tasks == [t]
                  && (forall e :: e in a.d.hist ==> now + t.duration <= e.exp)
                  && (exists e :: e in a.d.hist && now + t.duration == e.exp))
            && (nRunning == 0 && r.tasks == [] ==> a.d.hist == [])
  {
    DiscoverLaw(a);
    WaitLaw(AddDiscover(a), nRunning, now);
  }

  lemma OnlyDials(a0: Acc, a1: Acc, a2: Acc, a3: Acc, a4: Acc)
    requires a0.tasks == [] && Dials(a0, a1) && Dials(a1, a2) && Dials(a2, a3) && Dials(a3, a4)
    ensures forall t :: t in a4.tasks ==> t.Dial?
  {
    DialsTransitive(a0, a1, a2);
    DialsTransitive(a0, a2, a3);
    DialsTransitive(a0, a3, a4);
  }

  ghost predicate Dials(a: Acc, b: Acc) {
    && |a.tasks| <= |b.tasks| && b.tasks[..|a.tasks|] == a.tasks
    && forall i :: |a.tasks| <= i < |b.tasks| ==> b.tasks[i].Dial?
  }

  lemma DialsTransitive(a: Acc, b: Acc, c: Acc)
    requires Dials(a, b) && Dials(b, c)
    ensures Dials(a, c)
  {
    forall i | |a.tasks| <= i < |c.tasks| ensures c.tasks[i].Dial? {
      if i < |b.tasks| { assert c.tasks[i] == c.tasks[..|b.tasks|][i] == b.tasks[i]; }
    }
    assert c.tasks[..|a.tasks|] == c.tasks[..|b.tasks|][..|a.tasks|];
  }
}
