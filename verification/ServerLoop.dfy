/** Runs of the server's main loop over the dial scheduler (p2p/server.go, p2p/dial.go). */
module ServerLoop {
  import opened Common
  import opened Dialer
  import DialerLaws

  /** `clock` is the latest time seen; `lastDone` records when the last dial of a node finished, unless
      removeStatic has intervened since. */
  datatype Server = Server(
    d: DialState, peers: Peers, inboundCount: int, running: seq<Task>, queued: seq<Task>,
    maxPeers: nat, maxInbound: int, selfId: NodeId, clock: Time, lastDone: map<NodeId, Time>)

  /** How many tasks can be started now. */
  function Room(running: seq<Task>, ts: seq<Task>): nat {
    var free := if |running| < MAX_ACTIVE_DIAL_TASKS then MAX_ACTIVE_DIAL_TASKS - |running| else 0;
    if free < |ts| then free else |ts|
  }

  function StartTasks(running: seq<Task>, ts: seq<Task>): (seq<Task>, seq<Task>) {
    var k := Room(running, ts);
    (running + ts[..k], ts[k..])
  }

  /** No task is lost, the limit is kept, and tasks wait only when it is reached. */
  lemma StartTasksKeeps(running: seq<Task>, ts: seq<Task>)
    ensures var (r, q) := StartTasks(running, ts);
            && r + q == running + ts
            && (|running| <= MAX_ACTIVE_DIAL_TASKS ==> |r| <= MAX_ACTIVE_DIAL_TASKS)
            && (|r| < MAX_ACTIVE_DIAL_TASKS ==> q == []) && (q != [] ==> |r| >= 16)
  {
    var k := Room(running, ts);
    assert running + ts == (running + ts[..k]) + ts[k..];
  }

  function StartQueued(s: Server, now: Time): Server {
    var p := StartTasks(s.running, s.queued);
    s.(running := p.0, queued := p.1, clock := now)
  }

  ghost function AskDialer(s: Server, now: Time, order: seq<NodeId>, random: seq<NodeId>): Server {
    var nt := NewTasks(s.d, |s.running| + |s.queued|, s.peers, now, order, random);
    var (r, q) := StartTasks(s.running, nt.tasks);
    s.(d := nt.d, running := r, queued := s.queued + q)
  }

  /** Start from the queue first; if there is room, ask the dialer for new tasks. */
  ghost function Schedule(s: Server, now: Time, order: seq<NodeId>, random: seq<NodeId>): Server {
    var t := StartQueued(s, now);
    if |t.running| < MAX_ACTIVE_DIAL_TASKS then AskDialer(t, now, order, random) else t
  }

  /** Remove the first occurrence of a task. */
  function DelTask(ts: seq<Task>, t: Task): seq<Task> {
    if ts == [] then [] else if ts[0] == t then ts[1..] else [ts[0]] + DelTask(ts[1..], t)
  }

  datatype Admission = Admitted | TooManyPeers | AlreadyThere | Ourselves

  function HandshakeCheck(s: Server, id: NodeId, f: Flags): Admission {
    if !(f.trusted || f.static_) && |s.peers| >= s.maxPeers then TooManyPeers
    else if !f.trusted && f.inbound && s.inboundCount >= s.maxInbound then TooManyPeers
    else if id in s.peers then AlreadyThere
    else if id == s.selfId then Ourselves
    else Admitted
  }

  datatype Event =
    | Scheduled(now: Time, order: seq<NodeId>, random: seq<NodeId>)
    | AddStatic(id: NodeId)
    | RemoveStatic(id: NodeId)
    | Done(t: Task, now: Time, results: seq<NodeId>)
    | AddPeer(id: NodeId, f: Flags)
    | DelPeer(id: NodeId)

  /** The clock does not go back; a task that finishes is running; a dynamically dialled connection
      is set up by its dial task, which is then still in flight; a peer that leaves is connected. */
  predicate Enabled(s: Server, e: Event) {
    match e
    case Scheduled(now, _, _) => now >= s.clock
    case AddStatic(_) => true
    case RemoveStatic(_) => true
    case Done(t, now, _) => t in s.running && now >= s.clock
    case AddPeer(id, f) => f.dyn ==> id in s.d.dialing && s.d.dialing[id].dyn
    case DelPeer(id) => id in s.peers
  }

  ghost function Next(s: Server, e: Event): Server {
    match e
    case Scheduled(now, order, random) => Schedule(s, now, order, random)
    case AddStatic(id) => s.(d := s.d.(statics := s.d.statics + {id}))
    case RemoveStatic(id) =>
      s.(d := s.d.(statics := s.d.statics - {id}, hist := Forget(s.d.hist, id)), lastDone := s.lastDone - {id})
    case Done(t, now, results) =>
      s.(d := TaskDone(s.d, t, now, results), running := DelTask(s.running, t), clock := now,
         lastDone := if t.Dial? then s.lastDone[t.id := now] else s.lastDone)
    case AddPeer(id, f) =>
      if HandshakeCheck(s, id, f) == Admitted
      then s.(peers := s.peers[id := f], inboundCount := s.inboundCount + if f.inbound then 1 else 0)
      else s
    case DelPeer(id) =>
      if id in s.peers
      then s.(peers := s.peers - {id}, inboundCount := s.inboundCount - if s.peers[id].inbound then 1 else 0)
      else s
  }

  // ----- the dialing map and the tasks

  /** The dialing map holds exactly the dial tasks, each node once. */
  ghost predicate Tracks(dialing: map<NodeId, Flags>, ts: seq<Task>) {
    && (forall t :: t in ts && t.Dial? ==> t.id in dialing && dialing[t.id] == t.flags)
    && (forall id :: id in dialing ==> Dial(id, dialing[id]) in ts)
    && DialTasksDistinct(ts)
  }

  /** A lookup is running exactly when there is a lookup task, and there is at most one. */
  ghost predicate OneLookup(running: bool, ts: seq<Task>) {
    && (running <==> Discover in ts)
    && forall i, j :: 0 <= i < j < |ts| ==> !(ts[i] == Discover && ts[j] == Discover)
  }

  lemma AppendTracks(dialing: map<NodeId, Flags>, ts: seq<Task>, d: DialState, peers: Peers, a: Acc)
    requires Tracks(dialing, ts) && dialing == d.dialing && Built(d, peers, a)
    ensures Tracks(a.d.dialing, ts + a.tasks)
  {
    var us := ts + a.tasks;
    forall i, j | 0 <= i < j < |us| && us[i].Dial? && us[j].Dial? ensures us[i].id != us[j].id {
      if i < |ts| <= j { assert us[i] in ts && us[j] in a.tasks; }
    }
    forall id | id in a.d.dialing ensures Dial(id, a.d.dialing[id]) in us {
      if id in d.dialing { assert Dial(id, dialing[id]) in ts; }
    }
  }

  lemma AppendOneLookup(running: bool, ts: seq<Task>, more: seq<Task>)
    requires OneLookup(running, ts) && (Discover in more ==> !running)
    requires forall i, j :: 0 <= i < j < |more| ==> !(more[i] == Discover && more[j] == Discover)
    ensures OneLookup(running || Discover in more, ts + more)
  {
  }

  lemma {:induction false} DelTaskCuts(ts: seq<Task>, t: Task) returns (i: nat)
    requires t in ts
    ensures i < |ts| && ts[i] == t && DelTask(ts, t) == ts[..i] + ts[i + 1..]
    decreases |ts|
  {
    if ts[0] == t {
      i := 0;
    } else {
      assert ts == [ts[0]] + ts[1..];
      var k := DelTaskCuts(ts[1..], t);
      i := k + 1;
      assert ts[..i] == [ts[0]] + ts[1..][..k] && ts[i + 1..] == ts[1..][k + 1..];
    }
  }

  lemma CutDistinct(ts: seq<Task>, i: nat)
    requires i < |ts| && DialTasksDistinct(ts)
    ensures DialTasksDistinct(ts[..i] + ts[i + 1..])
    ensures ts[i].Dial? ==> forall u :: u in ts[..i] + ts[i + 1..] && u.Dial? ==> u.id != ts[i].id
    ensures forall u :: u in ts[..i] + ts[i + 1..] ==> u in ts
    ensures forall u :: u in ts && u != ts[i] ==> u in ts[..i] + ts[i + 1..]
  {
  }

  lemma CutTracks(dialing: map<NodeId, Flags>, ts: seq<Task>, i: nat)
    requires i < |ts| && Tracks(dialing, ts)
    ensures Tracks(if ts[i].Dial? then dialing - {ts[i].id} else dialing, ts[..i] + ts[i + 1..])
  {
    CutDistinct(ts, i);
  }

  lemma CutOneLookup(running: bool, ts: seq<Task>, i: nat)
    requires i < |ts| && OneLookup(running, ts)
    ensures OneLookup(if ts[i] == Discover then false else running, ts[..i] + ts[i + 1..])
  {
  }

  // ----- the history

  ghost predicate DistinctIds(h: seq<PastDial>) {
    forall i, j :: 0 <= i < j < |h| ==> h[i].id != h[j].id
  }

  /** The history names each node once and none that is being dialled, with the expiry of its last dial; a
      finished dial is still in it until its expiry has strictly passed. */
  ghost predicate HistoryOk(h: seq<PastDial>, dialing: map<NodeId, Flags>, clock: Time, lastDone: map<NodeId, Time>) {
    && DistinctIds(h)
    && (forall e :: e in h ==>
          e.id !in dialing && e.id in lastDone && e.exp == lastDone[e.id] + DIAL_HISTORY_EXPIRATION)
    && (forall id :: id in lastDone ==>
          PastDial(id, lastDone[id] + DIAL_HISTORY_EXPIRATION) in h || lastDone[id] + DIAL_HISTORY_EXPIRATION < clock)
  }

  lemma {:induction false} ExpireDistinct(h: seq<PastDial>, now: Time)
    requires DistinctIds(h)
    ensures DistinctIds(Expire(h, now))
  {
    if h != [] {
      ExpireDistinct(h[1..], now);
      var r := Expire(h[1..], now);
      forall k | 0 <= k < |r| ensures r[k].id != h[0].id {
        assert r[k] in h[1..];
        var j :| 0 <= j < |h[1..]| && h[1..][j] == r[k];
        assert h[j + 1] == r[k];
      }
    }
  }

  lemma ExpireKeepsHistory(h: seq<PastDial>, dialing: map<NodeId, Flags>, clock: Time, lastDone: map<NodeId, Time>,
                           now: Time)
    requires HistoryOk(h, dialing, clock, lastDone) && now >= clock
    ensures HistoryOk(Expire(h, now), dialing, now, lastDone)
  {
    ExpireDistinct(h, now);
  }

  lemma {:induction false} ForgetKeeps(h: seq<PastDial>, id: NodeId)
    ensures forall e :: e in Forget(h, id) ==> e in h
    ensures forall e :: e in h && e.id != id ==> e in Forget(h, id)
    ensures DistinctIds(h) ==> DistinctIds(Forget(h, id)) && forall e :: e in Forget(h, id) ==> e.id != id
  {
    if h != [] && h[0].id == id && DistinctIds(h) {
      forall e | e in h[1..] ensures e.id != id {
        var j :| 0 <= j < |h[1..]| && h[1..][j] == e;
        assert h[j + 1] == e;
      }
    }
    if h != [] && h[0].id != id {
      ForgetKeeps(h[1..], id);
      assert h == [h[0]] + h[1..];
      var r := Forget(h[1..], id);
      if DistinctIds(h) {
        forall k | 0 <= k < |r| ensures r[k].id != h[0].id {
          assert r[k] in h[1..];
          var j :| 0 <= j < |h[1..]| && h[1..][j] == r[k];
          assert h[j + 1] == r[k];
        }
      }
    }
  }

  lemma DoneKeepsHistory(s: Server, id: NodeId, now: Time)
    requires HistoryOk(s.d.hist, s.d.dialing, s.clock, s.lastDone) && id in s.d.dialing && now >= s.clock
    ensures var hist := s.d.hist + [PastDial(id, now + DIAL_HISTORY_EXPIRATION)];
            HistoryOk(hist, s.d.dialing - {id}, now, s.lastDone[id := now])
  {
    assert forall e :: e in s.d.hist ==> e.id != id;
    OneMorePast(s.d.hist, PastDial(id, now + DIAL_HISTORY_EXPIRATION));
  }

  lemma OneMorePast(h: seq<PastDial>, e: PastDial)
    requires DistinctIds(h) && forall d :: d in h ==> d.id != e.id
    ensures DistinctIds(h + [e])
  {
    forall i, j | 0 <= i < j < |h + [e]| ensures (h + [e])[i].id != (h + [e])[j].id {
      if j == |h| { assert h[i] in h; }
    }
  }

  // ----- the invariant

  ghost function InboundOf(peers: Peers): set<NodeId> {
    set id | id in peers && peers[id].inbound
  }

  ghost predicate Inv(s: Server) {
    && |s.running| <= MAX_ACTIVE_DIAL_TASKS
    && Tracks(s.d.dialing, s.running + s.queued)
    && OneLookup(s.d.lookupRunning, s.running + s.queued)
    && |DynOf(s.peers) + DynOf(s.d.dialing)| <= s.d.maxDynDials
    && s.inboundCount == |InboundOf(s.peers)|
    && HistoryOk(s.d.hist, s.d.dialing, s.clock, s.lastDone)
  }

  lemma UnionBound<T>(a: set<T>, b: set<T>)
    ensures |a + b| <= |a| + |b|
  {
  }

  /** What scheduling changes: new tasks, if any were asked for, go behind the old ones, in running and
      queue together. */
  lemma ScheduleSplits(s: Server, now: Time, order: seq<NodeId>, random: seq<NodeId>) returns (asked: bool, n: nat)
    requires |s.running| <= MAX_ACTIVE_DIAL_TASKS
    ensures var t, nt := Schedule(s, now, order, random), NewTasks(s.d, n, s.peers, now, order, random);
            && |t.running| <= MAX_ACTIVE_DIAL_TASKS
            && t == s.(d := t.d, running := t.running, queued := t.queued, clock := now)
            && t.d == (if asked then nt.d else s.d)
            && t.running + t.queued == (if asked then (s.running + s.queued) + nt.tasks else s.running + s.queued)
            && n == |s.running| + |s.queued|
  {
    StartTasksKeeps(s.running, s.queued);
    var (r1, q1) := StartTasks(s.running, s.queued);
    n := |r1| + |q1|;
    asked := |r1| < MAX_ACTIVE_DIAL_TASKS;
    if asked {
      var nt := NewTasks(s.d, n, s.peers, now, order, random);
      StartTasksKeeps(r1, nt.tasks);
      var (r2, q2) := StartTasks(r1, nt.tasks);
      assert q1 == [] && q1 + q2 == q2 && r1 + q1 == r1;
      assert r2 + (q1 + q2) == (s.running + s.queued) + nt.tasks;
    }
  }

  lemma ScheduleKeepsInv(s: Server, now: Time, order: seq<NodeId>, random: seq<NodeId>)
    requires Inv(s) && now >= s.clock
    ensures Inv(Schedule(s, now, order, random))
  {
    var asked, n := ScheduleSplits(s, now, order, random);
    if asked {
      NewTasksKeepInv(s, n, now, order, random);
    }
  }

  lemma NewTasksKeepInv(s: Server, n: nat, now: Time, order: seq<NodeId>, random: seq<NodeId>)
    requires Inv(s) && now >= s.clock
    ensures var nt := NewTasks(s.d, n, s.peers, now, order, random);
            var ts := (s.running + s.queued) + nt.tasks;
            && Tracks(nt.d.dialing, ts) && OneLookup(nt.d.lookupRunning, ts)
            && nt.d.maxDynDials == s.d.maxDynDials
            && |DynOf(s.peers) + DynOf(nt.d.dialing)| <= s.d.maxDynDials
            && HistoryOk(nt.d.hist, nt.d.dialing, now, s.lastDone)
  {
    var nt := NewTasks(s.d, n, s.peers, now, order, random);
    var e := s.d.(hist := Expire(s.d.hist, now));
    NewTasksBuilds(s.d, n, s.peers, now, order, random);
    AppendTracks(s.d.dialing, s.running + s.queued, e, s.peers, nt);
    AppendOneLookup(s.d.lookupRunning, s.running + s.queued, nt.tasks);
    UnionBound(DynOf(s.peers), DynOf(nt.d.dialing));
    ExpireKeepsHistory(s.d.hist, s.d.dialing, s.clock, s.lastDone, now);
    NewDialsAvoidHistory(e, s.peers, nt);
  }

  lemma EntryIsInHist(h: seq<PastDial>, e: PastDial)
    requires e in h
    ensures InHist(h, e.id)
  {
  }

  lemma NewDialsAvoidHistory(d: DialState, peers: Peers, a: Acc)
    requires Built(d, peers, a) && forall e :: e in d.hist ==> e.id !in d.dialing
    ensures forall e :: e in a.d.hist ==> e.id !in a.d.dialing
  {
  }

  lemma DoneTasks(s: Server, t: Task) returns (i: nat)
    requires t in s.running
    ensures i < |s.running + s.queued| && (s.running + s.queued)[i] == t
    ensures DelTask(s.running, t) + s.queued == (s.running + s.queued)[..i] + (s.running + s.queued)[i + 1..]
    ensures |DelTask(s.running, t)| < |s.running|
  {
    i := DelTaskCuts(s.running, t);
    var ts := s.running + s.queued;
    assert ts[..i] == s.running[..i] && ts[i + 1..] == s.running[i + 1..] + s.queued;
  }

  lemma DialDoneKeepsInv(s: Server, id: NodeId, f: Flags, now: Time)
    requires Inv(s) && Dial(id, f) in s.running && now >= s.clock
    ensures var dialing := s.d.dialing - {id};
            && Tracks(dialing, DelTask(s.running, Dial(id, f)) + s.queued)
            && OneLookup(s.d.lookupRunning, DelTask(s.running, Dial(id, f)) + s.queued)
            && |DynOf(s.peers) + DynOf(dialing)| <= s.d.maxDynDials
            && HistoryOk(s.d.hist + [PastDial(id, now + DIAL_HISTORY_EXPIRATION)], dialing, now, s.lastDone[id := now])
            && |DelTask(s.running, Dial(id, f))| < |s.running|
  {
    var i := DoneTasks(s, Dial(id, f));
    var ts := s.running + s.queued;
    CutTracks(s.d.dialing, ts, i);
    CutOneLookup(s.d.lookupRunning, ts, i);
    assert Dial(id, f) in ts;
    DoneKeepsHistory(s, id, now);
    SubsetSize(DynOf(s.peers) + DynOf(s.d.dialing - {id}), DynOf(s.peers) + DynOf(s.d.dialing));
  }

  lemma OtherDoneKeepsInv(s: Server, t: Task)
    requires Inv(s) && t in s.running && !t.Dial?
    ensures Tracks(s.d.dialing, DelTask(s.running, t) + s.queued)
    ensures OneLookup(if t == Discover then false else s.d.lookupRunning, DelTask(s.running, t) + s.queued)
    ensures |DelTask(s.running, t)| < |s.running|
  {
    var i := DoneTasks(s, t);
    CutTracks(s.d.dialing, s.running + s.queued, i);
    CutOneLookup(s.d.lookupRunning, s.running + s.queued, i);
  }

  lemma DoneKeepsInv(s: Server, t: Task, now: Time, results: seq<NodeId>)
    requires Inv(s) && Enabled(s, Done(t, now, results))
    ensures Inv(Next(s, Done(t, now, results)))
  {
    if t.Dial? {
      DialDoneKeepsInv(s, t.id, t.flags, now);
    } else {
      OtherDoneKeepsInv(s, t);
      LaterClock(s.d.hist, s.d.dialing, s.clock, s.lastDone, now);
    }
  }

  lemma LaterClock(h: seq<PastDial>, dialing: map<NodeId, Flags>, clock: Time, lastDone: map<NodeId, Time>, now: Time)
    requires HistoryOk(h, dialing, clock, lastDone) && now >= clock
    ensures HistoryOk(h, dialing, now, lastDone)
  {
  }

  lemma InboundAdd(peers: Peers, id: NodeId, f: Flags)
    requires id !in peers
    ensures |InboundOf(peers[id := f])| == |InboundOf(peers)| + (if f.inbound then 1 else 0)
  {
    assert InboundOf(peers[id := f]) == InboundOf(peers) + (if f.inbound then {id} else {});
  }

  lemma InboundRemove(peers: Peers, id: NodeId)
    requires id in peers
    ensures |InboundOf(peers - {id})| == |InboundOf(peers)| - (if peers[id].inbound then 1 else 0)
  {
    assert InboundOf(peers - {id}) == InboundOf(peers) - {id};
  }

  lemma AddPeerKeepsInv(s: Server, id: NodeId, f: Flags)
    requires Inv(s) && Enabled(s, AddPeer(id, f))
    ensures Inv(Next(s, AddPeer(id, f)))
  {
    if HandshakeCheck(s, id, f) == Admitted {
      InboundAdd(s.peers, id, f);
      DialBecomesPeer(s.peers, s.d.dialing, id, f);
    }
  }

  /** A dynamic dial that becomes a peer was counted already. */
  lemma DialBecomesPeer(peers: Peers, dialing: map<NodeId, Flags>, id: NodeId, f: Flags)
    requires id !in peers && (f.dyn ==> id in dialing && dialing[id].dyn)
    ensures DynOf(peers[id := f]) + DynOf(dialing) == DynOf(peers) + DynOf(dialing)
  {
  }

  lemma DelPeerKeepsInv(s: Server, id: NodeId)
    requires Inv(s) && Enabled(s, DelPeer(id))
    ensures Inv(Next(s, DelPeer(id)))
  {
    InboundRemove(s.peers, id);
    SubsetSize(DynOf(s.peers - {id}) + DynOf(s.d.dialing), DynOf(s.peers) + DynOf(s.d.dialing));
  }

  lemma StaticsKeepInv(s: Server, id: NodeId)
    requires Inv(s)
    ensures Inv(Next(s, AddStatic(id))) && Inv(Next(s, RemoveStatic(id)))
  {
    ForgetKeepsHistory(s.d.hist, s.d.dialing, s.clock, s.lastDone, id);
  }

  lemma ForgetKeepsHistory(h: seq<PastDial>, dialing: map<NodeId, Flags>, clock: Time, lastDone: map<NodeId, Time>,
                           id: NodeId)
    requires HistoryOk(h, dialing, clock, lastDone)
    ensures HistoryOk(Forget(h, id), dialing, clock, lastDone - {id})
  {
    ForgetKeeps(h, id);
  }

  lemma StepKeepsInv(s: Server, e: Event)
    requires Inv(s) && Enabled(s, e)
    ensures Inv(Next(s, e))
  {
    match e {
      case Scheduled(now, order, random) => ScheduleKeepsInv(s, now, order, random);
      case AddStatic(id) => StaticsKeepInv(s, id);
      case RemoveStatic(id) => StaticsKeepInv(s, id);
      case Done(t, now, results) => DoneKeepsInv(s, t, now, results);
      case AddPeer(id, f) => AddPeerKeepsInv(s, id, f);
      case DelPeer(id) => DelPeerKeepsInv(s, id);
    }
  }

  /** A waiting timer is only started when no task is running or queued. */
  lemma WaitsOnlyWhenIdle(s: Server, now: Time, order: seq<NodeId>, random: seq<NodeId>, t: Task)
    requires Inv(s) && t.WaitExpire? && t !in s.running + s.queued
    requires var u := Schedule(s, now, order, random); t in u.running + u.queued
    ensures s.running == [] && s.queued == []
  {
    var asked, n := ScheduleSplits(s, now, order, random);
    if asked {
      DialerLaws.LookupOrWait(s.d, n, s.peers, now, order, random);
      WaitIsNew(s, NewTasks(s.d, n, s.peers, now, order, random).tasks, t);
    }
  }

  lemma WaitIsNew(s: Server, ts: seq<Task>, t: Task)
    requires t !in s.running + s.queued && t in (s.running + s.queued) + ts
    ensures t in ts
  {
  }

  // ----- whole runs

  ghost predicate Run(s: Server, es: seq<Event>, t: Server)
    decreases |es|
  {
    if es == [] then s == t else Enabled(s, es[0]) && Run(Next(s, es[0]), es[1..], t)
  }

  /** A server that has just started. */
  ghost predicate Initial(s: Server) {
    && s.d.dialing == map[] && !s.d.lookupRunning && s.d.hist == [] && s.peers == map[] && s.inboundCount == 0
    && s.running == [] && s.queued == [] && s.lastDone == map[]
  }

  lemma {:induction false} RunKeepsInv(s: Server, es: seq<Event>, t: Server)
    requires Inv(s) && Run(s, es, t)
    ensures Inv(t)
    decreases |es|
  {
    if es != [] {
      StepKeepsInv(s, es[0]);
      RunKeepsInv(Next(s, es[0]), es[1..], t);
    }
  }

  lemma InitialInv(s: Server)
    requires Initial(s)
    ensures Inv(s)
  {
    assert DynOf(s.peers) + DynOf(s.d.dialing) == {} && InboundOf(s.peers) == {};
  }

  /** In every run from the start: at most 16 tasks run; the dialing map's keys are exactly the nodes
      of running or queued dials, one task each; dynamic peers together with dynamic dials stay within
      the limit; and the inbound count is the number of inbound peers. */
  lemma EveryRun(s: Server, es: seq<Event>, t: Server)
    requires Initial(s) && Run(s, es, t)
    ensures |t.running| <= 16
    ensures forall id :: id in t.d.dialing <==> exists k :: k in t.running + t.queued && k.Dial? && k.id == id
    ensures DialTasksDistinct(t.running + t.queued)
    ensures |DynOf(t.peers) + DynOf(t.d.dialing)| <= t.d.maxDynDials
    ensures t.inboundCount == |InboundOf(t.peers)|
  {
    InitialInv(s);
    RunKeepsInv(s, es, t);
    forall id ensures id in t.d.dialing <==> exists k :: k in t.running + t.queued && k.Dial? && k.id == id {
      if id in t.d.dialing { assert Dial(id, t.d.dialing[id]) in t.running + t.queued; }
    }
  }

  /** With a clock that does not go back, a node is dialled again only strictly after the expiry that
      its last dial left in the history, unless removeStatic has intervened. */
  lemma RedialOnlyAfterExpiry(s: Server, es: seq<Event>, t: Server, now: Time, order: seq<NodeId>,
                              random: seq<NodeId>, n: nat, id: NodeId)
    requires Initial(s) && Run(s, es, t) && now >= t.clock
    requires exists f :: Dial(id, f) in NewTasks(t.d, n, t.peers, now, order, random).tasks
    requires id in t.lastDone
    ensures t.lastDone[id] + DIAL_HISTORY_EXPIRATION < now
  {
    InitialInv(s);
    RunKeepsInv(s, es, t);
    NewTasksBuilds(t.d, n, t.peers, now, order, random);
    var f :| Dial(id, f) in NewTasks(t.d, n, t.peers, now, order, random).tasks;
    var e := PastDial(id, t.lastDone[id] + DIAL_HISTORY_EXPIRATION);
    var h := Expire(t.d.hist, now);
    assert e !in h by {
      forall k | k in h ensures InHist(h, k.id) { EntryIsInHist(h, k); }
    }
  }

  /** In every run: a static node that is neither dialled nor connected, and not ourselves or outside the
      whitelist, is dialled by newTasks if and only if 30 seconds have passed since its last dial. */
  lemma StaticIsRedialled(s: Server, es: seq<Event>, t: Server, now: Time, order: seq<NodeId>, random: seq<NodeId>,
                          n: nat, id: NodeId)
    requires Initial(s) && Run(s, es, t) && now >= t.clock && id in order
    requires id !in t.d.dialing && id !in t.peers && t.d.self != Some(id) && id !in t.d.banned
    ensures (exists f :: Dial(id, f) in NewTasks(t.d, n, t.peers, now, order, random).tasks) <==>
      (id in t.lastDone ==> t.lastDone[id] + 30 < now)
  {
    InitialInv(s);
    RunKeepsInv(s, es, t);
    DialerLaws.StaticIsDialled(t.d, n, t.peers, now, order, random, id);
    RecentlyDialled(t, now, id);
  }

  lemma RecentlyDialled(t: Server, now: Time, id: NodeId)
    requires HistoryOk(t.d.hist, t.d.dialing, t.clock, t.lastDone) && now >= t.clock
    ensures (forall e :: e in t.d.hist && e.id == id ==> e.exp < now) <==>
      (id in t.lastDone ==> t.lastDone[id] + 30 < now)
  {
  }

  /** A finished dial is in the history for 30 seconds and is no dial any more; the results of a lookup come
      behind those that are buffered, and the lookup is over. */
  lemma FinishedTask(s: Server, t: Task, now: Time, results: seq<NodeId>)
    requires Inv(s) && Enabled(s, Done(t, now, results))
    ensures var u := Next(s, Done(t, now, results));
            && u.peers == s.peers && u.queued == s.queued && u.d.statics == s.d.statics
            && (t.Dial? ==>
                  && u.d.dialing == s.d.dialing - {t.id} && u.d.lookupBuf == s.d.lookupBuf
                  && u.d.hist == s.d.hist + [PastDial(t.id, now + 30)])
            && (t == Discover ==>
                  !u.d.lookupRunning && u.d.lookupBuf == s.d.lookupBuf + results && u.d.dialing == s.d.dialing)
            && (t.WaitExpire? ==> u.d == s.d)
            && multiset(u.running) == multiset(s.running) - multiset{t}
  {
    DelTaskRemovesOne(s.running, t);
  }

  lemma {:induction false} DelTaskRemovesOne(ts: seq<Task>, t: Task)
    requires t in ts
    ensures multiset(DelTask(ts, t)) == multiset(ts) - multiset{t}
    decreases |ts|
  {
    assert ts == [ts[0]] + ts[1..];
    if ts[0] != t { DelTaskRemovesOne(ts[1..], t); }
  }

  /** A node that is made static is one from now on; a node that is no longer static has no past dial either,
      so that it can be dialled again at once. */
  lemma StaticNodes(s: Server, id: NodeId)
    requires Inv(s)
    ensures Next(s, AddStatic(id)).d == s.d.(statics := s.d.statics + {id})
    ensures var u := Next(s, RemoveStatic(id));
            && u.d.statics == s.d.statics - {id} && u.d.dialing == s.d.dialing && u.peers == s.peers
            && (forall e :: e in u.d.hist <==> e in s.d.hist && e.id != id)
  {
    ForgetKeeps(s.d.hist, id);
  }

  // ----- admission

  /** Peers that are neither trusted nor static, and inbound peers that are not trusted. */
  ghost function Ordinary(peers: Peers): set<NodeId> {
    set id | id in peers && !(peers[id].trusted || peers[id].static_)
  }

  ghost function Untrusted(peers: Peers): set<NodeId> {
    set id | id in peers && peers[id].inbound && !peers[id].trusted
  }

  ghost predicate Limits(s: Server) {
    && |Ordinary(s.peers)| <= s.maxPeers
    && |Untrusted(s.peers)| <= (if s.maxInbound < 0 then 0 else s.maxInbound)
    && s.selfId !in s.peers
  }

  /** In every run: a connection is admitted if and only if its node is new and not ourselves, it is trusted
      or static or there is room among the peers, and it is trusted or not inbound or there is room among
      the inbound peers; and only then do the peers change, by this one. */
  lemma AdmittedIff(s: Server, es: seq<Event>, t: Server, id: NodeId, f: Flags)
    requires Initial(s) && Run(s, es, t)
    ensures var u := Next(t, AddPeer(id, f));
            if && id !in t.peers && id != t.selfId
               && (f.trusted || f.static_ || |t.peers| < t.maxPeers)
               && (f.trusted || !f.inbound || |InboundOf(t.peers)| < t.maxInbound)
            then u.peers == t.peers[id := f]
            else u == t
  {
    EveryRun(s, es, t);
    AdmitsExactly(t, id, f);
  }

  lemma AdmitsExactly(t: Server, id: NodeId, f: Flags)
    requires t.inboundCount == |InboundOf(t.peers)|
    ensures var u := Next(t, AddPeer(id, f));
            if && id !in t.peers && id != t.selfId
               && (f.trusted || f.static_ || |t.peers| < t.maxPeers)
               && (f.trusted || !f.inbound || |InboundOf(t.peers)| < t.maxInbound)
            then u.peers == t.peers[id := f]
            else u == t
  {
  }

  lemma OrdinaryAdd(peers: Peers, id: NodeId, f: Flags)
    requires id !in peers
    ensures |Ordinary(peers)| <= |peers|
    ensures |Ordinary(peers[id := f])| <= |Ordinary(peers)| + if f.trusted || f.static_ then 0 else 1
  {
    SubsetSize(Ordinary(peers), peers.Keys);
    SubsetSize(Ordinary(peers[id := f]), Ordinary(peers) + if f.trusted || f.static_ then {} else {id});
  }

  lemma UntrustedAdd(peers: Peers, id: NodeId, f: Flags)
    requires id !in peers
    ensures |Untrusted(peers)| <= |InboundOf(peers)|
    ensures |Untrusted(peers[id := f])| <= |Untrusted(peers)| + if f.inbound && !f.trusted then 1 else 0
  {
    SubsetSize(Untrusted(peers), InboundOf(peers));
    SubsetSize(Untrusted(peers[id := f]), Untrusted(peers) + if f.inbound && !f.trusted then {id} else {});
  }

  lemma AddPeerKeepsLimits(s: Server, id: NodeId, f: Flags)
    requires Inv(s) && Limits(s)
    ensures Limits(Next(s, AddPeer(id, f)))
  {
    if HandshakeCheck(s, id, f) == Admitted {
      OrdinaryAdd(s.peers, id, f);
      UntrustedAdd(s.peers, id, f);
    }
  }

  lemma DelPeerKeepsLimits(s: Server, id: NodeId)
    requires Limits(s)
    ensures Limits(Next(s, DelPeer(id)))
  {
    SubsetSize(Ordinary(s.peers - {id}), Ordinary(s.peers));
    SubsetSize(Untrusted(s.peers - {id}), Untrusted(s.peers));
  }

  lemma StepKeepsLimits(s: Server, e: Event)
    requires Inv(s) && Enabled(s, e) && Limits(s)
    ensures Limits(Next(s, e))
  {
    match e
    case Scheduled(now, order, random) => var _, _ := ScheduleSplits(s, now, order, random);
    case AddPeer(id, f) => AddPeerKeepsLimits(s, id, f);
    case DelPeer(id) => DelPeerKeepsLimits(s, id);
    case _ =>
  }

  lemma {:induction false} RunKeepsLimits(s: Server, es: seq<Event>, t: Server)
    requires Inv(s) && Limits(s) && Run(s, es, t)
    ensures Limits(t)
    decreases |es|
  {
    if es != [] {
      StepKeepsInv(s, es[0]);
      StepKeepsLimits(s, es[0]);
      RunKeepsLimits(Next(s, es[0]), es[1..], t);
    }
  }

  /** In every run from the start: peers that are neither trusted nor static never exceed the peer limit,
      untrusted inbound peers never exceed the inbound limit, and the node is never its own peer. */
  lemma AdmissionHoldsTheLimits(s: Server, es: seq<Event>, t: Server)
    requires Initial(s) && Run(s, es, t)
    ensures |Ordinary(t.peers)| <= t.maxPeers
    ensures |Untrusted(t.peers)| <= if t.maxInbound < 0 then 0 else t.maxInbound
    ensures t.selfId !in t.peers
  {
    InitialInv(s);
    assert Ordinary(s.peers) == {} && Untrusted(s.peers) == {};
    RunKeepsLimits(s, es, t);
  }
}
