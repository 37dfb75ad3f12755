/** The loops of p2p/dial.go and of the run loop in p2p/server.go, proved against Dialer and
    ServerLoop. */
module DialLoop {
  import opened Common
  import opened Dialer
  import ServerLoop

  /** The number of dynamically dialled entries, counted one by one. */
  method CountDyn(m: map<NodeId, Flags>) returns (n: nat)
    ensures n == |DynOf(m)|
  {
    n := 0;
    var rest := m.Keys;
    ghost var seen: set<NodeId> := {};
    while rest != {}
      invariant rest <= m.Keys && seen == DynOf(m) - rest && n == |seen|
      decreases rest
    {
      var id :| id in rest;
      rest := rest - {id};
      if m[id].dyn {
        n := n + 1;
        assert DynOf(m) - rest == seen + {id};
        seen := seen + {id};
      } else {
        assert DynOf(m) - rest == seen;
      }
    }
    assert DynOf(m) - {} == DynOf(m);
  }

  /** The position of an entry with the earliest expiry: the top of the heap. */
  method Top(h: seq<PastDial>) returns (k: nat)
    requires h != []
    ensures k < |h| && h[k].exp == MinExp(h)
    ensures forall i :: 0 <= i < |h| ==> h[k].exp <= h[i].exp
  {
    k := 0;
    for i := 1 to |h|
      invariant k < i && forall j :: 0 <= j < i ==> h[k].exp <= h[j].exp
    {
      if h[i].exp < h[k].exp {
        k := i;
      }
    }
    MinExpIsLeast(h, k);
  }

  lemma {:induction false} MinExpIsLeast(h: seq<PastDial>, k: nat)
    requires k < |h| && forall i :: 0 <= i < |h| ==> h[k].exp <= h[i].exp
    ensures h[k].exp == MinExp(h)
    decreases |h|
  {
    if |h| > 1 {
      var m := SomeMin(h[1..]);
      assert h[1..][m] == h[m + 1];
      if k > 0 { MinExpIsLeast(h[1..], k - 1); }
    }
  }

  lemma {:induction false} SomeMin(h: seq<PastDial>) returns (m: nat)
    requires h != []
    ensures m < |h| && h[m].exp == MinExp(h)
    decreases |h|
  {
    if |h| == 1 || h[0].exp <= MinExp(h[1..]) {
      m := 0;
    } else {
      m := SomeMin(h[1..]);
      m := m + 1;
    }
  }

  /** Dropping an expired entry does not change what is left after expiry. */
  lemma {:induction false} ExpireCut(h: seq<PastDial>, k: nat, now: Time)
    requires k < |h| && h[k].exp < now
    ensures Expire(h[..k] + h[k + 1..], now) == Expire(h, now)
    decreases |h|
  {
    if k == 0 {
      assert h[..0] + h[1..] == h[1..];
    } else {
      ExpireCut(h[1..], k - 1, now);
      var g := h[..k] + h[k + 1..];
      assert g[0] == h[0] && g[1..] == h[1..][..k - 1] + h[1..][k..];
    }
  }

  lemma {:induction false} ExpireNothing(h: seq<PastDial>, now: Time)
    requires forall i :: 0 <= i < |h| ==> h[i].exp >= now
    ensures Expire(h, now) == h
  {
    if h != [] { ExpireNothing(h[1..], now); }
  }

  /** Pop the top of the heap while it has expired. */
  method ExpireHist(h: seq<PastDial>, now: Time) returns (r: seq<PastDial>)
    ensures r == Expire(h, now)
  {
    r := h;
    while r != []
      invariant Expire(r, now) == Expire(h, now)
      decreases |r|
    {
      var k := Top(r);
      if r[k].exp >= now {
        ExpireNothing(r, now);
        return;
      }
      ExpireCut(r, k, now);
      r := r[..k] + r[k + 1..];
    }
  }

  lemma {:induction false} AddStaticsSnoc(a: Acc, peers: Peers, order: seq<NodeId>, id: NodeId)
    ensures AddStatics(a, peers, order + [id]) == AddStatic(AddStatics(a, peers, order), peers, id)
    decreases |order|
  {
    if order == [] {
      assert [id][1..] == [] && order + [id] == [id];
      assert AddStatics(AddStatic(a, peers, id), peers, []) == AddStatic(a, peers, id);
    } else {
      AddStaticsSnoc(AddStatic(a, peers, order[0]), peers, order[1..], id);
      assert (order + [id])[1..] == order[1..] + [id];
    }
  }

  class DialScheduler {
    var d: DialState

    constructor (d: DialState)
      ensures this.d == d
    {
      this.d := d;
    }

    method TaskIsDone(t: Task, now: Time, results: seq<NodeId>)
      modifies this
      ensures d == TaskDone(old(d), t, now, results)
    {
      match t
      case Dial(id, _) =>
        d := d.(hist := d.hist + [PastDial(id, now + DIAL_HISTORY_EXPIRATION)]);
        d := d.(dialing := d.dialing - {id});
      case Discover =>
        d := d.(lookupRunning := false);
        d := d.(lookupBuf := d.lookupBuf + results);
      case WaitExpire(_) =>
    }

    method Launch(tasks: seq<Task>, id: NodeId, flags: Flags) returns (more: seq<Task>)
      modifies this
      ensures d == old(d).(dialing := old(d).dialing[id := flags]) && more == tasks + [Dial(id, flags)]
    {
      d := d.(dialing := d.dialing[id := flags]);
      more := tasks + [Dial(id, flags)];
    }

    method AddDial(tasks: seq<Task>, peers: Peers, id: NodeId, need: int) returns (more: seq<Task>, need': int)
      modifies this
      ensures Acc(d, more, need') == AddDyn(Acc(old(d), tasks, need), peers, id)
    {
      if CheckDial(d, peers, id) != Fine {
        return tasks, need;
      }
      more := Launch(tasks, id, DYN_DIALED);
      need' := need - 1;
    }

    /** The loop over the static nodes; `order` is the order in which the map yields them. */
    method DialStatics(peers: Peers, need: int) returns (tasks: seq<Task>, ghost order: seq<NodeId>)
      modifies this
      ensures Acc(d, tasks, need) == AddStatics(Acc(old(d), [], need), peers, order)
      ensures forall id :: id in order <==> id in old(d).statics
    {
      tasks, order := [], [];
      var rest := d.statics;
      while rest != {}
        invariant rest <= old(d).statics
        invariant forall id :: id in order <==> id in old(d).statics && id !in rest
        invariant Acc(d, tasks, need) == AddStatics(Acc(old(d), [], need), peers, order)
        decreases rest
      {
        var id :| id in rest;
        rest := rest - {id};
        AddStaticsSnoc(Acc(old(d), [], need), peers, order, id);
        order := order + [id];
        tasks := DialStatic(tasks, peers, id, need);
      }
    }

    method DialStatic(tasks: seq<Task>, peers: Peers, id: NodeId, ghost need: int) returns (more: seq<Task>)
      modifies this
      ensures Acc(d, more, need) == AddStatic(Acc(old(d), tasks, need), peers, id)
    {
      more := tasks;
      var v := CheckDial(d, peers, id);
      if v == NotWhitelisted || v == IsSelf {
        d := d.(statics := d.statics - {id});
      } else if v == Fine {
        more := Launch(tasks, id, STATIC_DIALED);
      }
    }

    method DialBootnode(tasks: seq<Task>, peers: Peers, need: int, now: Time) returns (more: seq<Task>, need': int)
      modifies this
      ensures Acc(d, more, need') == AddBootnode(Acc(old(d), tasks, need), peers, now)
    {
      more, need' := tasks, need;
      if |peers| == 0 && |d.bootnodes| > 0 && need > 0 && d.start.Some? && now - d.start.value > FALLBACK_INTERVAL {
        var b := d.bootnodes[0];
        d := d.(bootnodes := d.bootnodes[1..] + [b]);
        more, need' := AddDial(tasks, peers, b, need);
      }
    }

    method DialRandom(tasks: seq<Task>, peers: Peers, need: int, nodes: seq<NodeId>, limit: int)
      returns (more: seq<Task>, need': int)
      modifies this
      ensures Acc(d, more, need') == AddRandom(Acc(old(d), tasks, need), peers, nodes, limit)
    {
      more, need' := tasks, need;
      var i := 0;
      while i < limit && i < |nodes|
        invariant 0 <= i <= |nodes| && (i <= limit || i == 0)
        invariant AddRandom(Acc(old(d), tasks, need), peers, nodes, limit)
               == AddRandom(Acc(d, more, need'), peers, nodes[i..], limit - i)
        decreases |nodes| - i
      {
        assert nodes[i..][0] == nodes[i] && nodes[i..][1..] == nodes[i + 1..];
        more, need' := AddDial(more, peers, nodes[i], need');
        i := i + 1;
      }
    }

    /** Lookup results are taken off the buffer while dials are needed. */
    method DialLookups(tasks: seq<Task>, peers: Peers, need: int) returns (more: seq<Task>, need': int)
      modifies this
      ensures Acc(d, more, need') == AddLookups(Acc(old(d), tasks, need), peers)
    {
      more, need' := tasks, need;
      while d.lookupBuf != [] && need' > 0
        invariant AddLookups(Acc(old(d), tasks, need), peers) == AddLookups(Acc(d, more, need'), peers)
        decreases |d.lookupBuf|
      {
        var id := d.lookupBuf[0];
        d := d.(lookupBuf := d.lookupBuf[1..]);
        more, need' := AddDial(more, peers, id, need');
      }
    }

    /** The new tasks and the new dialer are the ones of Dialer.NewTasks, for the order in which the
        static nodes came up. */
    method NewTasksAt(nRunning: nat, peers: Peers, now: Time, random: seq<NodeId>)
      returns (tasks: seq<Task>, ghost order: seq<NodeId>)
      modifies this
      ensures var r := NewTasks(old(d), nRunning, peers, now, order, random); d == r.d && tasks == r.tasks
      ensures forall id :: id in order <==> id in old(d).statics
    {
      var need := Begin(peers, now);
      ghost var a0 := Acc(d, [], need);
      tasks, order := DialStatics(peers, need);
      ghost var a1 := Acc(d, tasks, need);
      tasks, need := DialBootnode(tasks, peers, need, now);
      ghost var a2 := Acc(d, tasks, need);
      tasks, need := DialRandom(tasks, peers, need, random, need / 2);
      ghost var a3 := Acc(d, tasks, need);
      tasks, need := DialLookups(tasks, peers, need);
      ghost var a4 := Acc(d, tasks, need);
      tasks := DiscoverAndWait(tasks, need, nRunning, now);
    }

    /** Note the start time, count what is needed and drop the expired history. */
    method Begin(peers: Peers, now: Time) returns (need: int)
      modifies this
      ensures Acc(d, [], need) == Prepare(old(d), peers, now)
    {
      if d.start.None? {
        d := d.(start := Some(now));
      }
      var dynPeers := CountDyn(peers);
      var dynDials := CountDyn(d.dialing);
      need := d.maxDynDials - dynPeers - dynDials;
      var h := ExpireHist(d.hist, now);
      d := d.(hist := h);
    }

    method DiscoverAndWait(tasks: seq<Task>, need: int, nRunning: nat, now: Time) returns (more: seq<Task>)
      modifies this
      ensures Acc(d, more, need) == AddWait(AddDiscover(Acc(old(d), tasks, need)), nRunning, now)
    {
      more := tasks;
      if |d.lookupBuf| < need && !d.lookupRunning {
        d := d.(lookupRunning := true);
        more := more + [Discover];
      }
      if nRunning == 0 && |more| == 0 && |d.hist| > 0 {
        var k := Top(d.hist);
        more := more + [WaitExpire(d.hist[k].exp - now)];
      }
    }
  }

  /** Start tasks until the limit is reached; the rest is returned. */
  method StartTasks(running: seq<Task>, ts: seq<Task>) returns (r: seq<Task>, rest: seq<Task>)
    ensures r == ServerLoop.StartTasks(running, ts).0 && rest == ServerLoop.StartTasks(running, ts).1
  {
    r := running;
    var i := 0;
    while |r| < MAX_ACTIVE_DIAL_TASKS && i < |ts|
      invariant 0 <= i <= |ts| && r == running + ts[..i]
      invariant i == 0 || |r| <= MAX_ACTIVE_DIAL_TASKS
    {
      r := r + [ts[i]];
      i := i + 1;
    }
    rest := ts[i..];
  }

  /** Remove a task from the running ones, if it is there. */
  method RemoveTask(running: seq<Task>, t: Task) returns (r: seq<Task>)
    ensures r == ServerLoop.DelTask(running, t)
  {
    for i := 0 to |running|
      invariant ServerLoop.DelTask(running, t) == running[..i] + ServerLoop.DelTask(running[i..], t)
    {
      if running[i] == t {
        assert running[i..][1..] == running[i + 1..];
        return running[..i] + running[i + 1..];
      }
      assert running[i..][1..] == running[i + 1..];
      assert running[..i + 1] == running[..i] + [running[i]];
    }
    assert running[..|running|] == running && running[|running|..] == [];
    r := running;
  }

  /** The variables of the run loop.  `clock` and `lastDone` are the history of the run. */
  class RunLoop {
    const dialer: DialScheduler
    const maxPeers: nat
    const maxInbound: int
    const selfId: NodeId
    var peers: Peers
    var inboundCount: int
    var running: seq<Task>
    var queued: seq<Task>
    ghost var clock: Time
    ghost var lastDone: map<NodeId, Time>

    ghost function View(): ServerLoop.Server
      reads this, dialer
    {
      ServerLoop.Server(dialer.d, peers, inboundCount, running, queued, maxPeers, maxInbound, selfId, clock, lastDone)
    }

    constructor (dialer: DialScheduler, maxPeers: nat, maxInbound: int, selfId: NodeId, now: Time)
      ensures this.dialer == dialer && this.maxPeers == maxPeers && this.maxInbound == maxInbound
      ensures this.selfId == selfId
      ensures peers == map[] && inboundCount == 0 && running == [] && queued == []
      ensures clock == now && lastDone == map[]
    {
      this.dialer, this.maxPeers, this.maxInbound, this.selfId := dialer, maxPeers, maxInbound, selfId;
      peers, inboundCount, running, queued := map[], 0, [], [];
      clock, lastDone := now, map[];
    }

    /** The head of every turn of the loop: queued tasks first; then, if there is room, new tasks start
        as far as they can and the others queue up. */
    method ScheduleTasks(now: Time, random: seq<NodeId>) returns (ghost order: seq<NodeId>)
      modifies this, dialer
      ensures View() == ServerLoop.Schedule(old(View()), now, order, random)
    {
      order := [];
      StartQueued(now);
      if |running| < MAX_ACTIVE_DIAL_TASKS {
        order := AskDialer(now, random);
      }
    }

    method StartQueued(ghost now: Time)
      modifies this`running, this`queued, this`clock
      ensures View() == ServerLoop.StartQueued(old(View()), now)
    {
      var r, rest := StartTasks(running, queued);
      running, queued, clock := r, rest, now;
    }

    method AskDialer(now: Time, random: seq<NodeId>) returns (ghost order: seq<NodeId>)
      modifies this`running, this`queued, dialer
      ensures View() == ServerLoop.AskDialer(old(View()), now, order, random)
    {
      var nt;
      ghost var d := dialer.d;
      nt, order := dialer.NewTasksAt(|running| + |queued|, peers, now, random);
      ghost var r := NewTasks(d, |running| + |queued|, peers, now, order, random);
      var rest;
      running, rest := StartTasks(running, nt);
      queued := queued + rest;
    }

    method TaskIsDone(t: Task, now: Time, results: seq<NodeId>)
      modifies this, dialer
      ensures View() == ServerLoop.Next(old(View()), ServerLoop.Done(t, now, results))
    {
      dialer.TaskIsDone(t, now, results);
      running := RemoveTask(running, t);
      clock := now;
      lastDone := if t.Dial? then lastDone[t.id := now] else lastDone;
    }

    method AddStaticNode(id: NodeId)
      modifies this, dialer
      ensures View() == ServerLoop.Next(old(View()), ServerLoop.AddStatic(id))
    {
      dialer.d := dialer.d.(statics := dialer.d.statics + {id});
    }

    method RemoveStaticNode(id: NodeId)
      modifies this, dialer
      ensures View() == ServerLoop.Next(old(View()), ServerLoop.RemoveStatic(id))
    {
      var h := ForgetDial(dialer.d.hist, id);
      dialer.d := dialer.d.(statics := dialer.d.statics - {id}, hist := h);
      lastDone := lastDone - {id};
    }

    method AddPeer(id: NodeId, f: Flags) returns (verdict: ServerLoop.Admission)
      modifies this
      ensures View() == ServerLoop.Next(old(View()), ServerLoop.AddPeer(id, f))
      ensures verdict == ServerLoop.Admitted <==> id !in old(peers) && id in peers
      ensures peers == if verdict == ServerLoop.Admitted then old(peers)[id := f] else old(peers)
      ensures old(inboundCount == |ServerLoop.InboundOf(peers)|) ==>
        inboundCount == |ServerLoop.InboundOf(peers)|
      ensures old(inboundCount == |ServerLoop.InboundOf(peers)|) ==>
        (verdict == ServerLoop.Admitted <==>
          && id !in old(peers) && id != selfId
          && (f.trusted || f.static_ || |old(peers)| < maxPeers)
          && (f.trusted || !f.inbound || |ServerLoop.InboundOf(old(peers))| < maxInbound))
    {
      if id !in peers { ServerLoop.InboundAdd(peers, id, f); }
      verdict := Check(id, f);
      if verdict == ServerLoop.Admitted {
        peers := peers[id := f];
        if f.inbound {
          inboundCount := inboundCount + 1;
        }
      }
    }

    method Check(id: NodeId, f: Flags) returns (verdict: ServerLoop.Admission)
      ensures verdict == ServerLoop.HandshakeCheck(View(), id, f)
    {
      if !(f.trusted || f.static_) && |peers| >= maxPeers {
        return ServerLoop.TooManyPeers;
      } else if !f.trusted && f.inbound && inboundCount >= maxInbound {
        return ServerLoop.TooManyPeers;
      } else if id in peers {
        return ServerLoop.AlreadyThere;
      } else if id == selfId {
        return ServerLoop.Ourselves;
      }
      return ServerLoop.Admitted;
    }

    method DelPeer(id: NodeId)
      requires id in peers
      modifies this
      ensures View() == ServerLoop.Next(old(View()), ServerLoop.DelPeer(id))
      ensures peers == old(peers) - {id}
      ensures old(inboundCount == |ServerLoop.InboundOf(peers)|) ==>
        inboundCount == |ServerLoop.InboundOf(peers)|
    {
      ServerLoop.InboundRemove(peers, id);
      if peers[id].inbound {
        inboundCount := inboundCount - 1;
      }
      peers := peers - {id};
    }
  }

  /** Remove the first entry of the node. */
  method ForgetDial(h: seq<PastDial>, id: NodeId) returns (r: seq<PastDial>)
    ensures r == Forget(h, id)
  {
    for i := 0 to |h|
      invariant Forget(h, id) == h[..i] + Forget(h[i..], id)
    {
      ForgetStep(h, i, id);
      if h[i].id == id {
        return h[..i] + h[i + 1..];
      }
    }
    assert h[..|h|] == h && h[|h|..] == [];
    r := h;
  }

  lemma ForgetStep(h: seq<PastDial>, i: nat, id: NodeId)
    requires i < |h|
    ensures h[i].id == id ==> h[..i] + Forget(h[i..], id) == h[..i] + h[i + 1..]
    ensures h[i].id != id ==> h[..i] + Forget(h[i..], id) == h[..i + 1] + Forget(h[i + 1..], id)
  {
  }
}
