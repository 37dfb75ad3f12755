/** The dial scheduler and the server's run loop (p2p/dial.go, p2p/server.go). */
module Dialer {
  import opened Common

  type NodeId = nat
  type Time = int

  /** Connection flags. */
  datatype Flags = Flags(dyn: bool, static_: bool, inbound: bool, trusted: bool)

  const DYN_DIALED := Flags(true, false, false, false)
  const STATIC_DIALED := Flags(false, true, false, false)

  datatype Task = Dial(id: NodeId, flags: Flags) | Discover | WaitExpire(duration: int)

  datatype PastDial = PastDial(id: NodeId, exp: Time)

  const DIAL_HISTORY_EXPIRATION := 30
  const FALLBACK_INTERVAL := 20
  const MAX_ACTIVE_DIAL_TASKS := 16

  /** `hist` is the content of the heap of past dials, in some order.  `self` is None without a
      discovery table; `banned` holds the nodes outside the whitelist. */
  datatype DialState = DialState(
    maxDynDials: nat, self: Option<NodeId>, banned: set<NodeId>,
    lookupRunning: bool, dialing: map<NodeId, Flags>, lookupBuf: seq<NodeId>,
    statics: set<NodeId>, hist: seq<PastDial>, start: Option<Time>, bootnodes: seq<NodeId>)

  type Peers = map<NodeId, Flags>

  datatype Verdict = Fine | AlreadyDialing | AlreadyConnected | IsSelf | NotWhitelisted | RecentlyDialed

  predicate InHist(h: seq<PastDial>, id: NodeId) {
    exists i :: 0 <= i < |h| && h[i].id == id
  }

  function CheckDial(d: DialState, peers: Peers, id: NodeId): Verdict {
    if id in d.dialing then AlreadyDialing
    else if id in peers then AlreadyConnected
    else if d.self == Some(id) then IsSelf
    else if id in d.banned then NotWhitelisted
    else if InHist(d.hist, id) then RecentlyDialed
    else Fine
  }

  /** The entries that have not expired: an entry goes when its time is strictly past. */
  function Expire(h: seq<PastDial>, now: Time): (r: seq<PastDial>)
    ensures forall e :: e in r <==> e in h && e.exp >= now
  {
    if h == [] then [] else (if h[0].exp >= now then [h[0]] else []) + Expire(h[1..], now)
  }

  /** Remove the first entry of the node, if there is one. */
  function Forget(h: seq<PastDial>, id: NodeId): seq<PastDial> {
    if h == [] then [] else if h[0].id == id then h[1..] else [h[0]] + Forget(h[1..], id)
  }

  function MinExp(h: seq<PastDial>): Time
    requires h != []
  {
    if |h| == 1 then h[0].exp
    else if h[0].exp <= MinExp(h[1..]) then h[0].exp else MinExp(h[1..])
  }

  // ----- computing new tasks

  /** What newTasks builds up: the dialer, the tasks, and the dynamic dials still needed. */
  datatype Acc = Acc(d: DialState, tasks: seq<Task>, need: int)

  function Launch(a: Acc, id: NodeId, flags: Flags): Acc {
    a.(d := a.d.(dialing := a.d.dialing[id := flags]), tasks := a.tasks + [Dial(id, flags)])
  }

  function AddDyn(a: Acc, peers: Peers, id: NodeId): Acc {
    if CheckDial(a.d, peers, id) == Fine then Launch(a, id, DYN_DIALED).(need := a.need - 1) else a
  }

  /** One static node. */
  function AddStatic(a: Acc, peers: Peers, id: NodeId): Acc {
    var v := CheckDial(a.d, peers, id);
    if v == NotWhitelisted || v == IsSelf then a.(d := a.d.(statics := a.d.statics - {id}))
    else if v == Fine then Launch(a, id, STATIC_DIALED)
    else a
  }

  /** The static nodes, in the order the map yields them. */
  function AddStatics(a: Acc, peers: Peers, order: seq<NodeId>): Acc
    decreases |order|
  {
    if order == [] then a else AddStatics(AddStatic(a, peers, order[0]), peers, order[1..])
  }

  function AddBootnode(a: Acc, peers: Peers, now: Time): Acc {
    if && |peers| == 0 && |a.d.bootnodes| > 0 && a.need > 0
       && a.d.start.Some? && now - a.d.start.value > FALLBACK_INTERVAL then
      var b := a.d.bootnodes[0];
      AddDyn(a.(d := a.d.(bootnodes := a.d.bootnodes[1..] + [b])), peers, b)
    else a
  }

  function AddRandom(a: Acc, peers: Peers, nodes: seq<NodeId>, limit: int): Acc
    decreases |nodes|
  {
    if limit <= 0 || nodes == [] then a else AddRandom(AddDyn(a, peers, nodes[0]), peers, nodes[1..], limit - 1)
  }

  /** Lookup results are tried in order while dials are needed; the rest stays buffered. */
  function AddLookups(a: Acc, peers: Peers): Acc
    decreases |a.d.lookupBuf|
  {
    if a.d.lookupBuf == [] || a.need <= 0 then a
    else
      var id := a.d.lookupBuf[0];
      AddLookups(AddDyn(a.(d := a.d.(lookupBuf := a.d.lookupBuf[1..])), peers, id), peers)
  }

  function AddDiscover(a: Acc): Acc {
    if |a.d.lookupBuf| < a.need && !a.d.lookupRunning
    then a.(d := a.d.(lookupRunning := true), tasks := a.tasks + [Discover]) else a
  }

  function AddWait(a: Acc, nRunning: nat, now: Time): Acc {
    if nRunning == 0 && a.tasks == [] && a.d.hist != []
    then a.(tasks := a.tasks + [WaitExpire(MinExp(a.d.hist) - now)]) else a
  }

  ghost function DynOf(m: map<NodeId, Flags>): set<NodeId> {
    set id | id in m && m[id].dyn
  }

  ghost function Prepare(d: DialState, peers: Peers, now: Time): Acc {
    Acc(d.(start := if d.start.None? then Some(now) else d.start, hist := Expire(d.hist, now)), [],
        d.maxDynDials - |DynOf(peers)| - |DynOf(d.dialing)|)
  }

  ghost function NewTasks(d: DialState, nRunning: nat, peers: Peers, now: Time, order: seq<NodeId>,
                          random: seq<NodeId>): Acc
  {
    var a := AddBootnode(AddStatics(Prepare(d, peers, now), peers, order), peers, now);
    AddWait(AddDiscover(AddLookups(AddRandom(a, peers, random, a.need / 2), peers)), nRunning, now)
  }

  function TaskDone(d: DialState, t: Task, now: Time, results: seq<NodeId>): DialState {
    match t
    case Dial(id, _) => d.(hist := d.hist + [PastDial(id, now + DIAL_HISTORY_EXPIRATION)], dialing := d.dialing - {id})
    case Discover => d.(lookupRunning := false, lookupBuf := d.lookupBuf + results)
    case WaitExpire(_) => d
  }

  // ----- what newTasks keeps

  ghost predicate DialTasksDistinct(ts: seq<Task>) {
    forall i, j :: 0 <= i < j < |ts| && ts[i].Dial? && ts[j].Dial? ==> ts[i].id != ts[j].id
  }

  /** Each new dial is for a node that was not being dialled, not connected and not in the history. */
  ghost predicate FreshDials(d: DialState, peers: Peers, dialing: map<NodeId, Flags>, ts: seq<Task>) {
    && (forall t :: t in ts && t.Dial? ==> t.id !in d.dialing && t.id !in peers && !InHist(d.hist, t.id))
    && (forall t :: t in ts && t.Dial? ==> t.id in dialing && dialing[t.id] == t.flags)
    && DialTasksDistinct(ts)
  }

  /** The dialing map has grown by the new dials and nothing else. */
  ghost predicate GrownBy(old_: map<NodeId, Flags>, dialing: map<NodeId, Flags>, ts: seq<Task>) {
    && (forall id :: id in old_ ==> id in dialing && dialing[id] == old_[id])
    && (forall id :: id in dialing ==> id in old_ || Dial(id, dialing[id]) in ts)
  }

  /** The count of dynamic dials still needed is exact, and dynamic dials were only added when needed. */
  ghost predicate NeedExact(d: DialState, peers: Peers, dialing: map<NodeId, Flags>, need: int) {
    && need == d.maxDynDials - |DynOf(peers)| - |DynOf(dialing)|
    && (DynOf(dialing) == DynOf(d.dialing) || need >= 0)
  }

  ghost predicate Built(d: DialState, peers: Peers, a: Acc) {
    && a.d.maxDynDials == d.maxDynDials && a.d.hist == d.hist
    && FreshDials(d, peers, a.d.dialing, a.tasks)
    && GrownBy(d.dialing, a.d.dialing, a.tasks)
    && NeedExact(d, peers, a.d.dialing, a.need)
  }

  lemma DynOfAdd(m: map<NodeId, Flags>, id: NodeId, f: Flags)
    requires id !in m
    ensures DynOf(m[id := f]) == DynOf(m) + (if f.dyn then {id} else {})
    ensures |DynOf(m[id := f])| == |DynOf(m)| + (if f.dyn then 1 else 0)
  {
    assert DynOf(m[id := f]) == DynOf(m) + (if f.dyn then {id} else {});
  }

  lemma LaunchKeepsFresh(d: DialState, peers: Peers, dialing: map<NodeId, Flags>, ts: seq<Task>, id: NodeId, f: Flags)
    requires FreshDials(d, peers, dialing, ts)
    requires id !in dialing && id !in d.dialing && id !in peers && !InHist(d.hist, id)
    ensures FreshDials(d, peers, dialing[id := f], ts + [Dial(id, f)])
  {
    var us := ts + [Dial(id, f)];
    forall i, j | 0 <= i < j < |us| && us[i].Dial? && us[j].Dial? ensures us[i].id != us[j].id {
      if j == |ts| { assert us[i] in ts; }
    }
  }

  lemma LaunchKeepsGrown(old_: map<NodeId, Flags>, dialing: map<NodeId, Flags>, ts: seq<Task>, id: NodeId, f: Flags)
    requires GrownBy(old_, dialing, ts) && id !in dialing
    ensures GrownBy(old_, dialing[id := f], ts + [Dial(id, f)])
  {
  }

  lemma LaunchKeepsBuilt(d: DialState, peers: Peers, a: Acc, id: NodeId, f: Flags)
    requires Built(d, peers, a) && CheckDial(a.d, peers, id) == Fine && (f.dyn ==> a.need > 0)
    ensures Built(d, peers, Launch(a, id, f).(need := if f.dyn then a.need - 1 else a.need))
  {
    DynOfAdd(a.d.dialing, id, f);
    LaunchKeepsFresh(d, peers, a.d.dialing, a.tasks, id, f);
    LaunchKeepsGrown(d.dialing, a.d.dialing, a.tasks, id, f);
  }

  /** The parts of the accumulation that no dial touches. */
  ghost predicate SameLookup(a: Acc, b: Acc) {
    b.d.lookupRunning == a.d.lookupRunning && (Discover in b.tasks ==> Discover in a.tasks)
  }

  lemma AddDynKeepsBuilt(d: DialState, peers: Peers, a: Acc, id: NodeId)
    requires Built(d, peers, a) && a.need > 0
    ensures Built(d, peers, AddDyn(a, peers, id)) && a.need - 1 <= AddDyn(a, peers, id).need <= a.need
    ensures SameLookup(a, AddDyn(a, peers, id))
  {
    if CheckDial(a.d, peers, id) == Fine { LaunchKeepsBuilt(d, peers, a, id, DYN_DIALED); }
  }

  lemma {:induction false} AddStaticsKeepsBuilt(d: DialState, peers: Peers, a: Acc, order: seq<NodeId>)
    requires Built(d, peers, a)
    ensures Built(d, peers, AddStatics(a, peers, order)) && SameLookup(a, AddStatics(a, peers, order))
    decreases |order|
  {
    if order != [] {
      if CheckDial(a.d, peers, order[0]) == Fine {
        LaunchKeepsBuilt(d, peers, a, order[0], STATIC_DIALED);
      }
      AddStaticsKeepsBuilt(d, peers, AddStatic(a, peers, order[0]), order[1..]);
    }
  }

  lemma AddBootnodeKeepsBuilt(d: DialState, peers: Peers, a: Acc, now: Time)
    requires Built(d, peers, a)
    ensures Built(d, peers, AddBootnode(a, peers, now)) && SameLookup(a, AddBootnode(a, peers, now))
  {
    if && |peers| == 0 && |a.d.bootnodes| > 0 && a.need > 0
       && a.d.start.Some? && now - a.d.start.value > FALLBACK_INTERVAL {
      var b := a.(d := a.d.(bootnodes := a.d.bootnodes[1..] + [a.d.bootnodes[0]]));
      assert Built(d, peers, b);
      AddDynKeepsBuilt(d, peers, b, a.d.bootnodes[0]);
    }
  }

  /** At most half of the needed dials are tried at random, so one is needed at each try. */
  lemma {:induction false} AddRandomKeepsBuilt(d: DialState, peers: Peers, a: Acc, nodes: seq<NodeId>, limit: int)
    requires Built(d, peers, a) && (limit <= 0 || limit <= a.need)
    ensures Built(d, peers, AddRandom(a, peers, nodes, limit)) && SameLookup(a, AddRandom(a, peers, nodes, limit))
    decreases |nodes|
  {
    if limit > 0 && nodes != [] {
      AddDynKeepsBuilt(d, peers, a, nodes[0]);
      AddRandomKeepsBuilt(d, peers, AddDyn(a, peers, nodes[0]), nodes[1..], limit - 1);
    }
  }

  lemma {:induction false} AddLookupsKeepsBuilt(d: DialState, peers: Peers, a: Acc)
    requires Built(d, peers, a)
    ensures Built(d, peers, AddLookups(a, peers)) && SameLookup(a, AddLookups(a, peers))
    decreases |a.d.lookupBuf|
  {
    if a.d.lookupBuf != [] && a.need > 0 {
      var b := a.(d := a.d.(lookupBuf := a.d.lookupBuf[1..]));
      assert Built(d, peers, b);
      AddDynKeepsBuilt(d, peers, b, a.d.lookupBuf[0]);
      AddLookupsKeepsBuilt(d, peers, AddDyn(b, peers, a.d.lookupBuf[0]));
    }
  }

  /** A task other than a dial may be appended freely. */
  lemma AppendKeepsBuilt(d: DialState, peers: Peers, a: Acc, t: Task, running: bool)
    requires Built(d, peers, a) && !t.Dial?
    ensures Built(d, peers, Acc(a.d.(lookupRunning := running), a.tasks + [t], a.need))
  {
    var us := a.tasks + [t];
    assert forall u :: u in us && u.Dial? ==> u in a.tasks;
    forall i, j | 0 <= i < j < |us| && us[i].Dial? && us[j].Dial? ensures us[i].id != us[j].id {
      assert j < |a.tasks| && us[i] == a.tasks[i] && us[j] == a.tasks[j];
    }
    forall id | id in a.d.dialing ensures id in d.dialing || Dial(id, a.d.dialing[id]) in us {
      if id !in d.dialing { assert Dial(id, a.d.dialing[id]) in a.tasks; }
    }
  }

  /** The new tasks: new dials only, dynamic ones only as needed, and at most one lookup. */
  lemma NewTasksBuilds(d: DialState, nRunning: nat, peers: Peers, now: Time, order: seq<NodeId>, random: seq<NodeId>)
    ensures var r := NewTasks(d, nRunning, peers, now, order, random);
            && Built(d.(hist := Expire(d.hist, now)), peers, r)
            && (Discover in r.tasks ==> !d.lookupRunning)
            && r.d.lookupRunning == (d.lookupRunning || Discover in r.tasks)
            && (forall i, j :: 0 <= i < j < |r.tasks| ==> !(r.tasks[i] == Discover && r.tasks[j] == Discover))
  {
    var e := d.(hist := Expire(d.hist, now));
    var a0 := Prepare(d, peers, now);
    assert Built(e, peers, a0);
    AddStaticsKeepsBuilt(e, peers, a0, order);
    var a1 := AddStatics(a0, peers, order);
    AddBootnodeKeepsBuilt(e, peers, a1, now);
    var a2 := AddBootnode(a1, peers, now);
    AddRandomKeepsBuilt(e, peers, a2, random, a2.need / 2);
    var a3 := AddRandom(a2, peers, random, a2.need / 2);
    AddLookupsKeepsBuilt(e, peers, a3);
    var a4 := AddLookups(a3, peers);
    assert Discover !in a4.tasks && a4.d.lookupRunning == d.lookupRunning;
    AppendKeepsBuilt(e, peers, a4, Discover, true);
    var a5 := AddDiscover(a4);
    AddWaitKeeps(e, peers, a5, nRunning, now);
  }

  lemma AddWaitKeeps(d: DialState, peers: Peers, a: Acc, nRunning: nat, now: Time)
    requires Built(d, peers, a)
    ensures Built(d, peers, AddWait(a, nRunning, now)) && AddWait(a, nRunning, now).d == a.d
    ensures || AddWait(a, nRunning, now).tasks == a.tasks
            || exists w :: AddWait(a, nRunning, now).tasks == a.tasks + [WaitExpire(w)]
  {
    if nRunning == 0 && a.tasks == [] && a.d.hist != [] {
      AppendKeepsBuilt(d, peers, a, WaitExpire(MinExp(a.d.hist) - now), a.d.lookupRunning);
    }
  }

  // ----- what newTasks does not miss

  /** No dial that was recorded is forgotten, and what a check looks at stays the same. */
  ghost predicate Extends(a: Acc, b: Acc) {
    a.d.dialing.Keys <= b.d.dialing.Keys && b.d.hist == a.d.hist && b.d.self == a.d.self && b.d.banned == a.d.banned
  }

  lemma {:induction false} AddRandomExtends(a: Acc, peers: Peers, nodes: seq<NodeId>, limit: int)
    ensures Extends(a, AddRandom(a, peers, nodes, limit))
    decreases |nodes|
  {
    if limit > 0 && nodes != [] { AddRandomExtends(AddDyn(a, peers, nodes[0]), peers, nodes[1..], limit - 1); }
  }

  /** The lookup results are used until no dial is needed or none is left. */
  lemma {:induction false} AddLookupsExtends(a: Acc, peers: Peers)
    ensures Extends(a, AddLookups(a, peers))
    ensures AddLookups(a, peers).need <= 0 || AddLookups(a, peers).d.lookupBuf == []
    decreases |a.d.lookupBuf|
  {
    if a.d.lookupBuf != [] && a.need > 0 {
      AddLookupsExtends(AddDyn(a.(d := a.d.(lookupBuf := a.d.lookupBuf[1..])), peers, a.d.lookupBuf[0]), peers);
    }
  }

  /** Every static node is dialled, unless there is a reason not to. */
  lemma {:induction false} StaticsAreTried(a: Acc, peers: Peers, order: seq<NodeId>)
    ensures var b := AddStatics(a, peers, order);
            Extends(a, b) && forall id :: id in order ==> CheckDial(b.d, peers, id) != Fine
    decreases |order|
  {
    if order != [] {
      var c := AddStatic(a, peers, order[0]);
      StaticsAreTried(c, peers, order[1..]);
      assert CheckDial(c.d, peers, order[0]) != Fine;
    }
  }

  lemma RefusalIsKept(a: Acc, b: Acc, peers: Peers, id: NodeId)
    requires Extends(a, b) && CheckDial(a.d, peers, id) != Fine
    ensures CheckDial(b.d, peers, id) != Fine
  {
    assert id in a.d.dialing ==> id in b.d.dialing.Keys;
  }

  lemma AddBootnodeExtends(a: Acc, peers: Peers, now: Time)
    ensures Extends(a, AddBootnode(a, peers, now))
  {
  }

  lemma TailExtends(a: Acc, nRunning: nat, now: Time)
    requires a.need <= 0 || a.d.lookupBuf == []
    ensures var r := AddWait(AddDiscover(a), nRunning, now);
            && Extends(a, r)
            && (r.need <= 0 || r.d.lookupRunning)
            && (nRunning == 0 && r.tasks == [] ==> r.d.hist == [])
  {
  }

  /** The scheduler does not go idle: after newTasks no static node is left that could be dialled; if
      dynamic dials are still needed, a lookup is running; and if nothing runs, nothing is waited for. */
  lemma NewTasksMissesNothing(d: DialState, nRunning: nat, peers: Peers, now: Time, order: seq<NodeId>,
                              random: seq<NodeId>)
    ensures var r := NewTasks(d, nRunning, peers, now, order, random);
            && (forall id :: id in order ==> CheckDial(r.d, peers, id) != Fine)
            && (r.need <= 0 || r.d.lookupRunning)
            && (nRunning == 0 && r.tasks == [] ==> r.d.hist == [])
  {
    var a0 := Prepare(d, peers, now);
    var a1 := AddStatics(a0, peers, order);
    StaticsAreTried(a0, peers, order);
    var a2 := AddBootnode(a1, peers, now);
    AddBootnodeExtends(a1, peers, now);
    var a3 := AddRandom(a2, peers, random, a2.need / 2);
    AddRandomExtends(a2, peers, random, a2.need / 2);
    var a4 := AddLookups(a3, peers);
    AddLookupsExtends(a3, peers);
    var r := AddWait(AddDiscover(a4), nRunning, now);
    TailExtends(a4, nRunning, now);
    ExtendsAll(a1, a2, a3, a4, r);
    forall id | id in order ensures CheckDial(r.d, peers, id) != Fine { RefusalIsKept(a1, r, peers, id); }
  }

  lemma ExtendsAll(a: Acc, b: Acc, c: Acc, d: Acc, e: Acc)
    requires Extends(a, b) && Extends(b, c) && Extends(c, d) && Extends(d, e)
    ensures Extends(a, e)
  {
  }
}
