/** The node discovery state machine (p2p/discv5/net.go): per-node verification states, nested
    transitions, and find-node queries that wait at their remote node. */
module Discovery {
  import opened Common
  import Bits

  type NodeId = nat
  type QueryId = nat
  type Token = seq<Bits.Byte>

  datatype NodeState = Unknown | VerifyInit | VerifyWait | RemoteVerifyWait | Known | Contested | Unresponsive

  predicate CanQuery(s: NodeState) { s.Known? || s.Contested? || s.Unresponsive? }

  /** The states that only a verified node may be in. */
  predicate Verified(s: NodeState) { s.RemoteVerifyWait? || CanQuery(s) }

  /** `ponged` holds the reply tokens of the node's pongs that have passed the check since the node last
      left the unknown state; `isSelf` says that the node carries the local node's ID. */
  datatype Node = Node(
    state: NodeState, pingEcho: Option<Token>, deferred: seq<QueryId>, pending: Option<QueryId>,
    queryTimeouts: nat, isSelf: bool, ponged: set<Token>)

  datatype Timer = PongTimeout | PingTimeout | NeighboursTimeout

  /** `remote` names the node each submitted query is for, `answers` counts the replies sent. */
  datatype Net = Net(
    self: NodeId, nodes: map<NodeId, Node>, timers: set<(Timer, NodeId)>,
    remote: map<QueryId, NodeId>, answers: multiset<QueryId>)

  const MAX_FINDNODE_FAILURES := 5

  function NewNode(isSelf: bool): Node { Node(Unknown, None, [], None, 0, isSelf, {}) }

  function Put(net: Net, n: NodeId, node: Node): Net { net.(nodes := net.nodes[n := node]) }

  // ----- the parts of a transition

  /** Send a ping unless one is outstanding or the node has our own ID; `hash` is what sending returns. */
  function Ping(net: Net, n: NodeId, hash: Option<Token>): Net
    requires n in net.nodes
  {
    var node := net.nodes[n];
    if node.pingEcho.Some? || node.isSelf then net
    else Put(net, n, node.(pingEcho := hash)).(timers := net.timers + {(PongTimeout, n)})
  }

  /** The queries a node holds. */
  function Held(node: Node): multiset<QueryId> {
    multiset(node.deferred) + if node.pending.Some? then multiset{node.pending.value} else multiset{}
  }

  function EnterUnknown(net: Net, n: NodeId): Net
    requires n in net.nodes
  {
    var node := net.nodes[n];
    Put(net, n, Node(Unknown, None, [], None, 0, node.isSelf, {})).(answers := net.answers + Held(node))
  }

  function EnterVerifyInit(net: Net, n: NodeId, hash: Option<Token>): Net
    requires n in net.nodes
  {
    Ping(Put(net, n, net.nodes[n].(state := VerifyInit)), n, hash)
  }

  function EnterRemoteVerifyWait(net: Net, n: NodeId): Net
    requires n in net.nodes
  {
    Put(net, n, net.nodes[n].(state := RemoteVerifyWait)).(timers := net.timers + {(PingTimeout, n)})
  }

  function EnterContested(net: Net, n: NodeId, hash: Option<Token>): Net
    requires n in net.nodes
  {
    Ping(Put(net, n, net.nodes[n].(state := Contested)), n, hash)
  }

  /** The first deferred query is sent if the node can take it now. */
  function StartNextQuery(net: Net, n: NodeId): Net
    requires n in net.nodes
  {
    var node := net.nodes[n];
    if node.deferred == [] || !CanQuery(node.state) || node.pending.Some? then net
    else Put(net, n, node.(pending := Some(node.deferred[0]), deferred := node.deferred[1..]))
           .(timers := net.timers + {(NeighboursTimeout, n)})
  }

  /** Entering known starts the next query; if the bucket is full its last node (`last`) is contested. */
  function EnterKnown(net: Net, n: NodeId, last: Option<NodeId>, hash: Option<Token>): Net
    requires n in net.nodes
  {
    AddToTable(StartNextQuery(Put(net, n, net.nodes[n].(state := Known, queryTimeouts := 0)), n), last, hash)
  }

  function AddToTable(net: Net, last: Option<NodeId>, hash: Option<Token>): Net {
    if last.Some? && last.value in net.nodes && net.nodes[last.value].state == Known
    then EnterContested(net, last.value, hash) else net
  }

  /** What the environment supplies to one event: ping hashes and the last node of the bucket. */
  datatype Env = Env(hash: Option<Token>, last: Option<NodeId>)

  function Transition(net: Net, n: NodeId, next: NodeState, env: Env): Net
    requires n in net.nodes
  {
    if net.nodes[n].state == next then net
    else match next
      case Unknown => EnterUnknown(net, n)
      case VerifyInit => EnterVerifyInit(net, n, env.hash)
      case VerifyWait => Put(net, n, net.nodes[n].(state := VerifyWait))
      case RemoteVerifyWait => EnterRemoteVerifyWait(net, n)
      case Known => EnterKnown(net, n, env.last, env.hash)
      case Contested => EnterContested(net, n, env.hash)
      case Unresponsive => Put(net, n, net.nodes[n].(state := Unresponsive))
  }

  // ----- queries

  /** Start a query: local ones are answered at once; a node that can take it gets it; an unknown
      node starts verification.  The flag says whether the query is out of the caller's hands. */
  function StartQuery(net: Net, q: QueryId, r: NodeId, env: Env): (Net, bool)
    requires r == net.self || r in net.nodes
  {
    if r == net.self then (net.(answers := net.answers + multiset{q}), true)
    else
      var node := net.nodes[r];
      if CanQuery(node.state) && node.pending.None? then
        (Put(net, r, node.(pending := Some(q))).(timers := net.timers + {(NeighboursTimeout, r)}), true)
      else if node.state == Unknown then (EnterVerifyInit(net, r, env.hash), false)
      else (net, false)
  }

  function Defer(net: Net, q: QueryId, r: NodeId): Net
    requires r in net.nodes
  {
    Put(net, r, net.nodes[r].(deferred := net.nodes[r].deferred + [q]))
  }

  function Submit(net: Net, q: QueryId, r: NodeId, env: Env): Net
    requires r == net.self || r in net.nodes
  {
    var (a, started) := StartQuery(net.(remote := net.remote[q := r]), q, r, env);
    if started || r !in a.nodes then a else Defer(a, q, r)
  }

  // ----- events

  /** One entry of a neighbours packet: rejected, or interned under its ID. */
  datatype Neighbour = Neighbour(id: NodeId, accepted: bool, hash: Option<Token>)

  datatype Event =
    | PingPacket
    | PongPacket(token: Token)
    | NeighboursPacket(found: seq<Neighbour>)
    | TopicNodesPacket(wrong: bool)
    | OtherPacket
    | TimedOut(timer: Timer)

  /** A node is added, in the unknown state, when it is first heard of. */
  function Intern(net: Net, n: NodeId, isSelf: bool): Net {
    if n in net.nodes then net else Put(net, n, NewNode(isSelf))
  }

  function VerifyIfUnknown(net: Net, n: NodeId, hash: Option<Token>): Net
    requires n in net.nodes
  {
    if net.nodes[n].state == Unknown then EnterVerifyInit(net, n, hash) else net
  }

  /** Each accepted neighbour is interned and, if unknown, starts verification. */
  function InternAll(net: Net, found: seq<Neighbour>): Net
    decreases |found|
  {
    if found == [] then net
    else if !found[0].accepted then InternAll(net, found[1..])
    else
      var a := Intern(net, found[0].id, false);
      InternAll(VerifyIfUnknown(a, found[0].id, found[0].hash), found[1..])
  }

  function AnswerPending(net: Net, n: NodeId): Net
    requires n in net.nodes
  {
    var node := net.nodes[n];
    if node.pending.None? then net
    else Put(net, n, node.(pending := None)).(answers := net.answers + multiset{node.pending.value})
  }

  function HandleNeighbours(net: Net, n: NodeId, found: seq<Neighbour>): Net
    requires n in net.nodes
  {
    if net.nodes[n].pending.None? then net
    else
      var a := InternAll(net, found);
      if n !in a.nodes then a
      else StartNextQuery(AnswerPending(a, n).(timers := a.timers - {(NeighboursTimeout, n)}), n)
  }

  /** One more failed query; too many make a known node contested. */
  function CountFailure(net: Net, n: NodeId, env: Env): Net
    requires n in net.nodes
  {
    var a := Put(net, n, net.nodes[n].(queryTimeouts := net.nodes[n].queryTimeouts + 1));
    if a.nodes[n].queryTimeouts > MAX_FINDNODE_FAILURES && a.nodes[n].state == Known
    then EnterContested(a, n, env.hash) else a
  }

  function HandleQueryEvent(net: Net, n: NodeId, ev: Event, env: Env): Net
    requires n in net.nodes
  {
    match ev
    case NeighboursPacket(found) => HandleNeighbours(net, n, found)
    case TopicNodesPacket(wrong) => if wrong then CountFailure(net, n, env) else net
    case TimedOut(NeighboursTimeout) => CountFailure(AnswerPending(net, n), n, env)
    case _ => net
  }

  /** A pong that was expected: its timer is stopped. */
  function HandleKnownPong(net: Net, n: NodeId): Net
    requires n in net.nodes
  {
    Put(net, n, net.nodes[n].(pingEcho := None)).(timers := net.timers - {(PongTimeout, n)})
  }

  /** The state's own handler, followed by the transition to the state it returns. */
  function StateHandle(net: Net, n: NodeId, ev: Event, env: Env): Net
    requires n in net.nodes
  {
    match net.nodes[n].state
    case Unknown =>
      if ev.PingPacket? then Transition(Ping(net, n, env.hash), n, VerifyWait, env) else net
    case VerifyInit =>
      if ev.PingPacket? then Transition(net, n, VerifyWait, env)
      else if ev.PongPacket? then Transition(HandleKnownPong(net, n), n, RemoteVerifyWait, env)
      else if ev == TimedOut(PongTimeout) then Transition(net, n, Unknown, env) else net
    case VerifyWait =>
      if ev.PongPacket? then Transition(HandleKnownPong(net, n), n, Known, env)
      else if ev == TimedOut(PongTimeout) then Transition(net, n, Unknown, env) else net
    case RemoteVerifyWait =>
      if ev == TimedOut(PingTimeout) then Transition(net, n, Known, env) else net
    case Known =>
      if ev.PingPacket? then net
      else if ev.PongPacket? then HandleKnownPong(net, n)
      else HandleQueryEvent(net, n, ev, env)
    case Contested =>
      if ev.PongPacket? then Transition(HandleKnownPong(net, n), n, Known, env)
      else if ev == TimedOut(PongTimeout) then Transition(net, n, Unresponsive, env)
      else if ev.PingPacket? then net
      else HandleQueryEvent(net, n, ev, env)
    case Unresponsive =>
      if ev.PingPacket? then Transition(net, n, Known, env)
      else if ev.PongPacket? then Transition(HandleKnownPong(net, n), n, Known, env)
      else HandleQueryEvent(net, n, ev, env)
  }

  /** The reply token of a pong must equal the hash of the outstanding ping; no ping and an empty
      token count as equal. */
  predicate TokenMatches(node: Node, token: Token) {
    token == match node.pingEcho case Some(h) => h case None => []
  }

  /** The pong is accepted: no ping is outstanding any more. */
  function Accept(node: Node, token: Token): Node {
    node.(pingEcho := None, ponged := if node.state == Unknown then {} else node.ponged + {token})
  }

  function Handle(net: Net, n: NodeId, ev: Event, env: Env): Net
    requires n in net.nodes
  {
    if ev.PongPacket? then
      var node := net.nodes[n];
      if !TokenMatches(node, ev.token) then net
      else StateHandle(Put(net, n, Accept(node, ev.token)), n, ev, env)
    else StateHandle(net, n, ev, env)
  }

  // ----- steps of the main loop

  datatype Step =
    | Packet(n: NodeId, isSelf: bool, ev: Event, env: Env)
    | Fire(timer: Timer, n: NodeId, env: Env)
    | Query(q: QueryId, r: NodeId, env: Env)
    | Seed(n: NodeId, isSelf: bool, hash: Option<Token>)
    | PingNode(n: NodeId, hash: Option<Token>)

  /** Packets are not timeouts; a timeout fires only while its timer is registered; query IDs are
      new; the node to ping is interned. */
  predicate Enabled(net: Net, s: Step) {
    match s
    case Packet(_, _, ev, _) => !ev.TimedOut?
    case Fire(t, n, _) => (t, n) in net.timers && n in net.nodes
    case Query(q, r, _) => q !in net.remote && (r == net.self || r in net.nodes)
    case Seed(_, _, _) => true
    case PingNode(n, _) => n in net.nodes
  }

  function Next(net: Net, s: Step): Net
    requires Enabled(net, s)
  {
    match s
    case Packet(n, isSelf, ev, env) => Handle(Intern(net, n, isSelf), n, ev, env)
    case Fire(t, n, env) => Handle(net.(timers := net.timers - {(t, n)}), n, TimedOut(t), env)
    case Query(q, r, env) => Submit(net, q, r, env)
    case Seed(n, isSelf, hash) => VerifyIfUnknown(Intern(net, n, isSelf), n, hash)
    case PingNode(n, hash) => Ping(net, n, hash)
  }

  function Start(self: NodeId): Net { Net(self, map[], {}, map[], multiset{}) }

  // ----- what every step keeps

  /** A query is deferred at its remote, pending at its remote, or answered: the three counts add up
      to one. */
  ghost function Load(net: Net, q: QueryId): nat
    requires q in net.remote
  {
    net.answers[q] + if net.remote[q] in net.nodes then Held(net.nodes[net.remote[q]])[q] else 0
  }

  /** Only its remote holds a query, and the query is in exactly one place. */
  ghost predicate Owned(net: Net, q: QueryId) {
    && (forall n :: n in net.nodes && q in Held(net.nodes[n]) ==> q in net.remote && net.remote[q] == n)
    && (q in net.answers ==> q in net.remote)
    && (q in net.remote ==> Load(net, q) == 1)
  }

  ghost predicate Balanced(net: Net) {
    forall q :: Owned(net, q)
  }

  /** Unknown nodes hold no query; a query is pending only at a node that can be queried, and exactly
      while its timer runs; we never wait for our own pong; verified states are only reached through an
      accepted pong. */
  ghost predicate LocalOk(node: Node, timers: set<(Timer, NodeId)>, n: NodeId) {
    && (node.state == Unknown ==> node.deferred == [] && node.pending.None?)
    && (node.pending.Some? ==> CanQuery(node.state))
    && (node.pending.Some? <==> (NeighboursTimeout, n) in timers)
    && (node.isSelf ==> (PongTimeout, n) !in timers)
    && (Verified(node.state) ==> node.ponged != {})
  }

  /** Timers run for interned nodes only. */
  ghost predicate NoStray(net: Net) {
    forall t, n :: (t, n) in net.timers ==> n in net.nodes
  }

  ghost predicate Inv(net: Net) {
    && Balanced(net) && NoStray(net)
    && forall n :: n in net.nodes ==> LocalOk(net.nodes[n], net.timers, n)
  }

  /** From net to net' only node n and its timers change, and the queries that n no longer holds are
      the ones newly answered. */
  ghost predicate Changes(net: Net, net': Net, n: NodeId) {
    && n in net.nodes && net'.nodes.Keys == net.nodes.Keys
    && net'.self == net.self && net'.remote == net.remote
    && (forall k :: k in net.nodes && k != n ==> net'.nodes[k] == net.nodes[k])
    && (forall t, k :: k != n ==> ((t, k) in net'.timers <==> (t, k) in net.timers))
    && net.answers <= net'.answers
    && net'.answers + Held(net'.nodes[n]) == net.answers + Held(net.nodes[n])
  }

  lemma Pointwise(a: multiset<QueryId>, b: multiset<QueryId>, c: multiset<QueryId>, d: multiset<QueryId>, q: QueryId)
    requires a + b == c + d
    ensures a[q] + b[q] == c[q] + d[q]
  {
    assert (a + b)[q] == (c + d)[q];
  }

  lemma ChangeKeepsOwned(net: Net, net': Net, n: NodeId, q: QueryId)
    requires Owned(net, q) && Changes(net, net', n)
    ensures Owned(net', q)
  {
    Pointwise(net'.answers, Held(net'.nodes[n]), net.answers, Held(net.nodes[n]), q);
    assert net.answers[q] <= net'.answers[q];
    assert Held(net'.nodes[n])[q] <= Held(net.nodes[n])[q];
    if q in net.remote { ChangeKeepsLoad(net, net', n, q); }
  }

  lemma ChangeKeepsLoad(net: Net, net': Net, n: NodeId, q: QueryId)
    requires Owned(net, q) && Changes(net, net', n) && q in net.remote
    ensures Load(net', q) == Load(net, q)
  {
    Pointwise(net'.answers, Held(net'.nodes[n]), net.answers, Held(net.nodes[n]), q);
    if net.remote[q] != n { assert Held(net.nodes[n])[q] == 0; }
  }

  lemma ChangeKeepsBalanced(net: Net, net': Net, n: NodeId)
    requires Balanced(net) && Changes(net, net', n)
    ensures Balanced(net')
  {
    forall q ensures Owned(net', q) {
      assert Owned(net, q);
      ChangeKeepsOwned(net, net', n, q);
    }
  }

  lemma ChangeKeepsInv(net: Net, net': Net, n: NodeId)
    requires Inv(net) && Changes(net, net', n) && LocalOk(net'.nodes[n], net'.timers, n)
    ensures Inv(net')
  {
    ChangeKeepsBalanced(net, net', n);
  }

  /** Setting fields of a node other than its queries. */
  lemma PutKeepsInv(net: Net, n: NodeId, node: Node)
    requires Inv(net) && n in net.nodes && LocalOk(node, net.timers, n)
    requires node.deferred == net.nodes[n].deferred && node.pending == net.nodes[n].pending
    ensures Inv(Put(net, n, node))
  {
    ChangeKeepsInv(net, Put(net, n, node), n);
  }

  lemma PingKeepsInv(net: Net, n: NodeId, hash: Option<Token>)
    requires Inv(net) && n in net.nodes
    ensures Inv(Ping(net, n, hash)) && n in Ping(net, n, hash).nodes
    ensures Ping(net, n, hash).nodes[n].state == net.nodes[n].state
    ensures Ping(net, n, hash).nodes[n].pending == net.nodes[n].pending
    ensures Ping(net, n, hash).nodes[n].ponged == net.nodes[n].ponged
  {
    PingChanges(net, n, hash);
    ChangeKeepsInv(net, Ping(net, n, hash), n);
  }

  lemma PingChanges(net: Net, n: NodeId, hash: Option<Token>)
    requires n in net.nodes && LocalOk(net.nodes[n], net.timers, n)
    ensures var p := Ping(net, n, hash); Changes(net, p, n) && LocalOk(p.nodes[n], p.timers, n)
  {
  }

  lemma StartNextKeepsInv(net: Net, n: NodeId)
    requires Inv(net) && n in net.nodes
    ensures Inv(StartNextQuery(net, n)) && n in StartNextQuery(net, n).nodes
  {
    var node := net.nodes[n];
    if !(node.deferred == [] || !CanQuery(node.state) || node.pending.Some?) {
      assert node.deferred == [node.deferred[0]] + node.deferred[1..];
      ChangeKeepsInv(net, StartNextQuery(net, n), n);
    }
  }

  lemma EnterUnknownKeepsInv(net: Net, n: NodeId)
    requires Inv(net) && n in net.nodes && net.nodes[n].pending.None?
    ensures Inv(EnterUnknown(net, n))
  {
    ChangeKeepsInv(net, EnterUnknown(net, n), n);
  }

  lemma EnterVerifyInitKeepsInv(net: Net, n: NodeId, hash: Option<Token>)
    requires Inv(net) && n in net.nodes && net.nodes[n].pending.None?
    ensures Inv(EnterVerifyInit(net, n, hash))
  {
    var a := Put(net, n, net.nodes[n].(state := VerifyInit));
    PutKeepsInv(net, n, a.nodes[n]);
    PingKeepsInv(a, n, hash);
  }

  lemma EnterContestedKeepsInv(net: Net, n: NodeId, hash: Option<Token>)
    requires Inv(net) && n in net.nodes && net.nodes[n].ponged != {}
    ensures Inv(EnterContested(net, n, hash))
  {
    PutKeepsInv(net, n, net.nodes[n].(state := Contested));
    PingKeepsInv(Put(net, n, net.nodes[n].(state := Contested)), n, hash);
  }

  lemma EnterKnownKeepsInv(net: Net, n: NodeId, last: Option<NodeId>, hash: Option<Token>)
    requires Inv(net) && n in net.nodes && net.nodes[n].ponged != {}
    ensures Inv(EnterKnown(net, n, last, hash))
  {
    var b := Put(net, n, net.nodes[n].(state := Known, queryTimeouts := 0));
    PutKeepsInv(net, n, b.nodes[n]);
    StartNextKeepsInv(b, n);
    var a := StartNextQuery(b, n);
    if last.Some? && last.value in a.nodes && a.nodes[last.value].state == Known {
      assert LocalOk(a.nodes[last.value], a.timers, last.value);
      EnterContestedKeepsInv(a, last.value, hash);
    }
  }

  /** Every transition the machine makes keeps the invariant: towards a verified state the node must
      have answered a ping, towards a state without queries it must have none pending. */
  lemma TransitionKeepsInv(net: Net, n: NodeId, next: NodeState, env: Env)
    requires Inv(net) && n in net.nodes
    requires Verified(next) ==> net.nodes[n].ponged != {}
    requires !CanQuery(next) ==> net.nodes[n].pending.None?
    ensures Inv(Transition(net, n, next, env))
  {
    if net.nodes[n].state != next {
      match next {
        case Unknown => EnterUnknownKeepsInv(net, n);
        case VerifyInit => EnterVerifyInitKeepsInv(net, n, env.hash);
        case VerifyWait => PutKeepsInv(net, n, net.nodes[n].(state := VerifyWait));
        case RemoteVerifyWait => ChangeKeepsInv(net, EnterRemoteVerifyWait(net, n), n);
        case Known => EnterKnownKeepsInv(net, n, env.last, env.hash);
        case Contested => EnterContestedKeepsInv(net, n, env.hash);
        case Unresponsive => PutKeepsInv(net, n, net.nodes[n].(state := Unresponsive));
      }
    }
  }

  lemma InternKeepsInv(net: Net, n: NodeId, isSelf: bool)
    requires Inv(net)
    ensures Inv(Intern(net, n, isSelf)) && n in Intern(net, n, isSelf).nodes
    ensures forall k :: k in net.nodes ==>
      k in Intern(net, n, isSelf).nodes && Intern(net, n, isSelf).nodes[k] == net.nodes[k]
    ensures Intern(net, n, isSelf).timers == net.timers && Intern(net, n, isSelf).remote == net.remote
  {
    var a := Intern(net, n, isSelf);
    if n !in net.nodes {
      forall q ensures Owned(a, q) {
        assert Owned(net, q);
        InternKeepsOwned(net, n, isSelf, q);
      }
    }
  }

  lemma InternKeepsOwned(net: Net, n: NodeId, isSelf: bool, q: QueryId)
    requires n !in net.nodes && Owned(net, q)
    ensures Owned(Intern(net, n, isSelf), q)
  {
    var a := Intern(net, n, isSelf);
    assert Held(NewNode(isSelf)) == multiset{};
    assert a == net.(nodes := net.nodes[n := NewNode(isSelf)]);
    if q in net.remote { assert Load(a, q) == Load(net, q); }
  }

  lemma VerifyKeepsInv(net: Net, n: NodeId, hash: Option<Token>)
    requires Inv(net) && n in net.nodes
    ensures Inv(VerifyIfUnknown(net, n, hash))
  {
    assert LocalOk(net.nodes[n], net.timers, n);
    if net.nodes[n].state == Unknown { EnterVerifyInitKeepsInv(net, n, hash); }
  }

  /** Interning neighbours leaves nodes that are not unknown alone. */
  lemma {:induction false} InternAllKeepsInv(net: Net, found: seq<Neighbour>, n: NodeId)
    requires Inv(net) && n in net.nodes && net.nodes[n].state != Unknown
    ensures var a := InternAll(net, found);
            Inv(a) && n in a.nodes && a.nodes[n] == net.nodes[n]
    decreases |found|
  {
    if found != [] {
      if !found[0].accepted {
        InternAllKeepsInv(net, found[1..], n);
      } else {
        var a := Intern(net, found[0].id, false);
        InternKeepsInv(net, found[0].id, false);
        VerifyKeepsInv(a, found[0].id, found[0].hash);
        InternAllKeepsInv(VerifyIfUnknown(a, found[0].id, found[0].hash), found[1..], n);
      }
    }
  }

  /** A query is answered, and its timer stops with it. */
  lemma AnswerKeepsInv(net: Net, n: NodeId)
    requires Inv(net) && n in net.nodes && net.nodes[n].pending.Some?
    ensures var a := AnswerPending(net, n).(timers := net.timers - {(NeighboursTimeout, n)});
            Inv(a) && a.nodes[n] == net.nodes[n].(pending := None)
  {
    ChangeKeepsInv(net, AnswerPending(net, n).(timers := net.timers - {(NeighboursTimeout, n)}), n);
  }

  /** The other timers may go at any time. */
  lemma StopTimerKeepsInv(net: Net, t: Timer, n: NodeId)
    requires Inv(net) && n in net.nodes && t != NeighboursTimeout
    ensures Inv(net.(timers := net.timers - {(t, n)}))
  {
    ChangeKeepsInv(net, net.(timers := net.timers - {(t, n)}), n);
  }

  lemma HandleNeighboursKeepsInv(net: Net, n: NodeId, found: seq<Neighbour>)
    requires Inv(net) && n in net.nodes && CanQuery(net.nodes[n].state)
    ensures Inv(HandleNeighbours(net, n, found))
  {
    if net.nodes[n].pending.Some? {
      InternAllKeepsInv(net, found, n);
      var a := InternAll(net, found);
      AnswerKeepsInv(a, n);
      StartNextKeepsInv(AnswerPending(a, n).(timers := a.timers - {(NeighboursTimeout, n)}), n);
    }
  }

  lemma CountFailureKeepsInv(net: Net, n: NodeId, env: Env)
    requires Inv(net) && n in net.nodes && CanQuery(net.nodes[n].state)
    ensures Inv(CountFailure(net, n, env))
  {
    assert LocalOk(net.nodes[n], net.timers, n);
    var a := Put(net, n, net.nodes[n].(queryTimeouts := net.nodes[n].queryTimeouts + 1));
    PutKeepsInv(net, n, a.nodes[n]);
    if a.nodes[n].queryTimeouts > MAX_FINDNODE_FAILURES && a.nodes[n].state == Known {
      EnterContestedKeepsInv(a, n, env.hash);
    }
  }

  lemma QueryEventKeepsInv(net: Net, n: NodeId, ev: Event, env: Env)
    requires Inv(net) && n in net.nodes && CanQuery(net.nodes[n].state) && ev != TimedOut(NeighboursTimeout)
    ensures Inv(HandleQueryEvent(net, n, ev, env))
  {
    var r := HandleQueryEvent(net, n, ev, env);
    if ev.NeighboursPacket? {
      HandleNeighboursKeepsInv(net, n, ev.found);
      assert r == HandleNeighbours(net, n, ev.found);
    } else if ev.TopicNodesPacket? && ev.wrong {
      CountFailureKeepsInv(net, n, env);
      assert r == CountFailure(net, n, env);
    } else {
      assert r == net;
    }
  }

  lemma KnownPongKeepsInv(net: Net, n: NodeId)
    requires Inv(net) && n in net.nodes
    ensures Inv(HandleKnownPong(net, n))
    ensures HandleKnownPong(net, n).nodes[n] == net.nodes[n].(pingEcho := None)
  {
    var a := Put(net, n, net.nodes[n].(pingEcho := None));
    PutKeepsInv(net, n, a.nodes[n]);
    StopTimerKeepsInv(a, PongTimeout, n);
    assert HandleKnownPong(net, n) == a.(timers := a.timers - {(PongTimeout, n)});
  }

  /** The handler of each state, for an event whose pong (if it is one) has been accepted. */
  lemma StateHandleKeepsInv(net: Net, n: NodeId, ev: Event, env: Env)
    requires Inv(net) && n in net.nodes && ev != TimedOut(NeighboursTimeout)
    requires ev.PongPacket? && net.nodes[n].state != Unknown ==> net.nodes[n].ponged != {}
    ensures Inv(StateHandle(net, n, ev, env))
  {
    assert LocalOk(net.nodes[n], net.timers, n);
    KnownPongKeepsInv(net, n);
    var p := HandleKnownPong(net, n);
    match net.nodes[n].state {
      case Unknown =>
        PingKeepsInv(net, n, env.hash);
        TransitionKeepsInv(Ping(net, n, env.hash), n, VerifyWait, env);
      case VerifyInit =>
        if ev.PingPacket? { TransitionKeepsInv(net, n, VerifyWait, env); }
        else if ev.PongPacket? { TransitionKeepsInv(p, n, RemoteVerifyWait, env); }
        else { TransitionKeepsInv(net, n, Unknown, env); }
      case VerifyWait =>
        if ev.PongPacket? { TransitionKeepsInv(p, n, Known, env); } else { TransitionKeepsInv(net, n, Unknown, env); }
      case RemoteVerifyWait => TransitionKeepsInv(net, n, Known, env);
      case Known => QueryEventKeepsInv(net, n, ev, env);
      case Contested =>
        TransitionKeepsInv(p, n, Known, env);
        TransitionKeepsInv(net, n, Unresponsive, env);
        QueryEventKeepsInv(net, n, ev, env);
      case Unresponsive =>
        TransitionKeepsInv(p, n, Known, env);
        TransitionKeepsInv(net, n, Known, env);
        QueryEventKeepsInv(net, n, ev, env);
    }
  }

  lemma HandleKeepsInv(net: Net, n: NodeId, ev: Event, env: Env)
    requires Inv(net) && n in net.nodes && ev != TimedOut(NeighboursTimeout)
    ensures Inv(Handle(net, n, ev, env))
  {
    var node := net.nodes[n];
    assert LocalOk(node, net.timers, n);
    if ev.PongPacket? {
      var checked := Accept(node, ev.token);
      PutKeepsInv(net, n, checked);
      StateHandleKeepsInv(Put(net, n, checked), n, ev, env);
    } else {
      StateHandleKeepsInv(net, n, ev, env);
    }
  }

  lemma NeighboursTimeoutHandled(net: Net, n: NodeId, env: Env)
    requires n in net.nodes && CanQuery(net.nodes[n].state)
    ensures Handle(net, n, TimedOut(NeighboursTimeout), env) == CountFailure(AnswerPending(net, n), n, env)
  {
  }

  /** A timeout event: its timer is gone before it is handled.  The neighbours timeout is special:
      between the two a query is pending without a timer. */
  lemma FireKeepsInv(net: Net, t: Timer, n: NodeId, env: Env)
    requires Inv(net) && n in net.nodes && (t, n) in net.timers
    ensures Inv(Handle(net.(timers := net.timers - {(t, n)}), n, TimedOut(t), env))
  {
    var a := net.(timers := net.timers - {(t, n)});
    assert LocalOk(net.nodes[n], net.timers, n);
    if t == NeighboursTimeout {
      NeighboursTimeoutHandled(a, n, env);
      AnswerKeepsInv(net, n);
      assert AnswerPending(a, n) == AnswerPending(net, n).(timers := a.timers);
      CountFailureKeepsInv(AnswerPending(a, n), n, env);
    } else {
      StopTimerKeepsInv(net, t, n);
      HandleKeepsInv(a, n, TimedOut(t), env);
    }
  }

  /** From net to net' the new query q for node r is answered, or r holds it; nothing else moved. */
  ghost predicate Places(net: Net, net': Net, q: QueryId, r: NodeId) {
    && q !in net.remote && net'.remote == net.remote[q := r]
    && net'.nodes.Keys == net.nodes.Keys
    && (forall k :: k in net.nodes && k != r ==> net'.nodes[k] == net.nodes[k])
    && (forall t, k :: k != r ==> ((t, k) in net'.timers <==> (t, k) in net.timers))
    && ((net'.answers == net.answers + multiset{q} && net'.nodes == net.nodes)
        || (net'.answers == net.answers && r in net.nodes && Held(net'.nodes[r]) == Held(net.nodes[r]) + multiset{q}))
  }

  lemma PlaceKeepsOld(net: Net, net': Net, q: QueryId, r: NodeId, p: QueryId)
    requires Owned(net, p) && Places(net, net', q, r) && p != q
    ensures Owned(net', p)
  {
    AddOther(net.answers, q, p);
    forall k | k in net.nodes ensures Held(net'.nodes[k])[p] == Held(net.nodes[k])[p] {
      if k == r { AddOther(Held(net.nodes[r]), q, p); }
    }
    SameCounts(net, net', p);
  }

  lemma AddOther(m: multiset<QueryId>, q: QueryId, p: QueryId)
    requires p != q
    ensures (m + multiset{q})[p] == m[p]
  {
  }

  lemma SameCounts(net: Net, net': Net, p: QueryId)
    requires Owned(net, p) && net'.nodes.Keys == net.nodes.Keys && net'.answers[p] == net.answers[p]
    requires (p in net.remote <==> p in net'.remote) && (p in net.remote ==> net'.remote[p] == net.remote[p])
    requires forall k :: k in net.nodes ==> Held(net'.nodes[k])[p] == Held(net.nodes[k])[p]
    ensures Owned(net', p)
  {
    forall k | k in net'.nodes && p in Held(net'.nodes[k]) ensures p in net'.remote && net'.remote[p] == k {
      assert p in Held(net.nodes[k]);
    }
  }

  lemma PlaceOwnsNew(net: Net, net': Net, q: QueryId, r: NodeId)
    requires Owned(net, q) && Places(net, net', q, r)
    ensures Owned(net', q)
  {
    assert net.answers[q] == 0;
    assert forall k :: k in net.nodes ==> Held(net.nodes[k])[q] == 0;
    if net'.answers == net.answers {
      assert Held(net'.nodes[r])[q] == 1;
    }
  }

  lemma PlaceKeepsInv(net: Net, net': Net, q: QueryId, r: NodeId)
    requires Inv(net) && Places(net, net', q, r)
    requires r in net.nodes ==> LocalOk(net'.nodes[r], net'.timers, r)
    requires r !in net.nodes ==> net'.timers == net.timers
    ensures Inv(net')
  {
    forall p ensures Owned(net', p) {
      assert Owned(net, p);
      if p == q { PlaceOwnsNew(net, net', q, r); } else { PlaceKeepsOld(net, net', q, r, p); }
    }
  }

  /** A query the node cannot take yet is deferred, after an unknown node has begun verification. */
  lemma DeferKeepsInv(net: Net, q: QueryId, r: NodeId)
    requires Inv(net) && q !in net.remote && r in net.nodes && net.nodes[r].state != Unknown
    ensures Inv(Defer(net.(remote := net.remote[q := r]), q, r))
  {
    var net' := Defer(net.(remote := net.remote[q := r]), q, r);
    assert LocalOk(net.nodes[r], net.timers, r);
    assert Held(net'.nodes[r]) == Held(net.nodes[r]) + multiset{q};
    PlaceKeepsInv(net, net', q, r);
  }

  lemma TakeKeepsInv(net: Net, q: QueryId, r: NodeId)
    requires Inv(net) && q !in net.remote && r in net.nodes && CanQuery(net.nodes[r].state)
    requires net.nodes[r].pending.None?
    ensures Inv(Put(net.(remote := net.remote[q := r]), r, net.nodes[r].(pending := Some(q)))
                  .(timers := net.timers + {(NeighboursTimeout, r)}))
  {
    var net' := Put(net.(remote := net.remote[q := r]), r, net.nodes[r].(pending := Some(q)))
                  .(timers := net.timers + {(NeighboursTimeout, r)});
    assert LocalOk(net.nodes[r], net.timers, r);
    assert Held(net'.nodes[r]) == Held(net.nodes[r]) + multiset{q};
    PlaceKeepsInv(net, net', q, r);
  }

  lemma SubmitKeepsInv(net: Net, q: QueryId, r: NodeId, env: Env)
    requires Inv(net) && q !in net.remote && (r == net.self || r in net.nodes)
    ensures Inv(Submit(net, q, r, env))
  {
    if r == net.self {
      PlaceKeepsInv(net, Submit(net, q, r, env), q, r);
    } else {
      var node := net.nodes[r];
      if CanQuery(node.state) && node.pending.None? {
        TakeKeepsInv(net, q, r);
      } else if node.state == Unknown {
        VerifyKeepsInv(net, r, env.hash);
        var a := VerifyIfUnknown(net, r, env.hash);
        DeferKeepsInv(a, q, r);
        assert Submit(net, q, r, env) == Defer(a.(remote := a.remote[q := r]), q, r);
      } else {
        DeferKeepsInv(net, q, r);
      }
    }
  }

  lemma StepKeepsInv(net: Net, s: Step)
    requires Inv(net) && Enabled(net, s)
    ensures Inv(Next(net, s))
  {
    match s {
      case Packet(n, isSelf, ev, env) =>
        InternKeepsInv(net, n, isSelf);
        HandleKeepsInv(Intern(net, n, isSelf), n, ev, env);
      case Fire(t, n, env) => FireKeepsInv(net, t, n, env);
      case Query(q, r, env) => SubmitKeepsInv(net, q, r, env);
      case Seed(n, isSelf, hash) =>
        InternKeepsInv(net, n, isSelf);
        VerifyKeepsInv(Intern(net, n, isSelf), n, hash);
      case PingNode(n, hash) => PingKeepsInv(net, n, hash);
    }
  }

  // ----- whole runs

  ghost predicate Run(net: Net, steps: seq<Step>, net': Net)
    decreases |steps|
  {
    if steps == [] then net == net'
    else Enabled(net, steps[0]) && Run(Next(net, steps[0]), steps[1..], net')
  }

  lemma {:induction false} RunKeepsInv(net: Net, steps: seq<Step>, net': Net)
    requires Inv(net) && Run(net, steps, net')
    ensures Inv(net')
    decreases |steps|
  {
    if steps != [] {
      StepKeepsInv(net, steps[0]);
      RunKeepsInv(Next(net, steps[0]), steps[1..], net');
    }
  }

  ghost predicate DeferredAt(net: Net, q: QueryId) {
    q in net.remote && net.remote[q] in net.nodes && q in net.nodes[net.remote[q]].deferred
  }

  ghost predicate PendingAt(net: Net, q: QueryId) {
    q in net.remote && net.remote[q] in net.nodes && net.nodes[net.remote[q]].pending == Some(q)
  }

  /** In every reachable state each submitted query is exactly one of deferred at its remote, pending
      at its remote, or answered; it is answered at most once; and no other node holds it. */
  lemma EachQueryInOnePlace(self: NodeId, steps: seq<Step>, net: Net, q: QueryId)
    requires Run(Start(self), steps, net) && q in net.remote
    ensures net.answers[q] <= 1
    ensures DeferredAt(net, q) || PendingAt(net, q) || q in net.answers
    ensures !(DeferredAt(net, q) && PendingAt(net, q)) && !(DeferredAt(net, q) && q in net.answers)
    ensures !(PendingAt(net, q) && q in net.answers)
    ensures forall n :: n in net.nodes && n != net.remote[q] ==>
      q !in net.nodes[n].deferred && net.nodes[n].pending != Some(q)
  {
    RunKeepsInv(Start(self), steps, net);
    assert Owned(net, q);
    if net.remote[q] in net.nodes {
      var node := net.nodes[net.remote[q]];
      assert q in node.deferred <==> multiset(node.deferred)[q] > 0;
    }
    forall n | n in net.nodes && n != net.remote[q]
      ensures q !in net.nodes[n].deferred && net.nodes[n].pending != Some(q)
    {
      assert q !in Held(net.nodes[n]);
      assert q !in multiset(net.nodes[n].deferred);
    }
  }

  /** In every reachable state a node in a verified state has had a pong accepted since it left the
      unknown state, an unknown node holds no query, and a pending query has its timer. */
  lemma EveryNodeIsVerified(self: NodeId, steps: seq<Step>, net: Net, n: NodeId)
    requires Run(Start(self), steps, net) && n in net.nodes
    ensures Verified(net.nodes[n].state) ==> net.nodes[n].ponged != {}
    ensures net.nodes[n].state == Unknown ==> net.nodes[n].deferred == [] && net.nodes[n].pending.None?
    ensures net.nodes[n].pending.Some? ==> CanQuery(net.nodes[n].state) && (NeighboursTimeout, n) in net.timers
  {
    RunKeepsInv(Start(self), steps, net);
    assert LocalOk(net.nodes[n], net.timers, n);
  }

  // ----- verification is never lost

  /** Every node stays interned, and one in a verified state stays in a verified state. */
  ghost predicate KeepsVerified(net: Net, net': Net) {
    forall k :: k in net.nodes ==> k in net'.nodes && (Verified(net.nodes[k].state) ==> Verified(net'.nodes[k].state))
  }

  lemma EnterKnownVerified(net: Net, n: NodeId, last: Option<NodeId>, hash: Option<Token>)
    requires n in net.nodes
    ensures KeepsVerified(net, EnterKnown(net, n, last, hash))
  {
    var a := StartNextQuery(Put(net, n, net.nodes[n].(state := Known, queryTimeouts := 0)), n);
    assert KeepsVerified(net, a);
  }

  lemma {:induction false} InternAllVerified(net: Net, found: seq<Neighbour>)
    ensures KeepsVerified(net, InternAll(net, found))
    decreases |found|
  {
    if found != [] {
      if !found[0].accepted {
        InternAllVerified(net, found[1..]);
      } else {
        var a := Intern(net, found[0].id, false);
        var b := VerifyIfUnknown(a, found[0].id, found[0].hash);
        assert KeepsVerified(net, a) && KeepsVerified(a, b);
        InternAllVerified(b, found[1..]);
      }
    }
  }

  lemma VerifiedTransitive(a: Net, b: Net, c: Net)
    requires KeepsVerified(a, b) && KeepsVerified(b, c)
    ensures KeepsVerified(a, c)
  {
  }

  lemma CountFailureVerified(net: Net, n: NodeId, env: Env)
    requires n in net.nodes
    ensures KeepsVerified(net, CountFailure(net, n, env))
  {
    var a := Put(net, n, net.nodes[n].(queryTimeouts := net.nodes[n].queryTimeouts + 1));
    assert KeepsVerified(net, a);
    assert KeepsVerified(a, EnterContested(a, n, env.hash));
  }

  lemma NeighboursVerified(net: Net, n: NodeId, found: seq<Neighbour>)
    requires n in net.nodes
    ensures KeepsVerified(net, HandleNeighbours(net, n, found))
  {
    InternAllVerified(net, found);
    var a := InternAll(net, found);
    var b := AnswerPending(a, n).(timers := a.timers - {(NeighboursTimeout, n)});
    assert KeepsVerified(a, b);
    assert KeepsVerified(b, StartNextQuery(b, n));
  }

  lemma QueryEventVerified(net: Net, n: NodeId, ev: Event, env: Env)
    requires n in net.nodes
    ensures KeepsVerified(net, HandleQueryEvent(net, n, ev, env))
  {
    match ev {
      case NeighboursPacket(found) => NeighboursVerified(net, n, found);
      case TopicNodesPacket(wrong) => CountFailureVerified(net, n, env);
      case TimedOut(NeighboursTimeout) =>
        var a := AnswerPending(net, n);
        assert KeepsVerified(net, a);
        CountFailureVerified(a, n, env);
      case _ =>
    }
  }

  /** From the unverified states. */
  lemma UnverifiedHandle(net: Net, n: NodeId, ev: Event, env: Env)
    requires n in net.nodes && !Verified(net.nodes[n].state)
    ensures KeepsVerified(net, StateHandle(net, n, ev, env))
  {
    var node, r := net.nodes[n], StateHandle(net, n, ev, env);
    if node.state == VerifyWait && ev.PongPacket? {
      var p := HandleKnownPong(net, n);
      assert KeepsVerified(net, p);
      EnterKnownVerified(p, n, env.last, env.hash);
      assert r == EnterKnown(p, n, env.last, env.hash);
    } else {
      UnverifiedOnly(net, n, ev, env);
    }
  }

  /** A handler that leaves the other nodes alone. */
  lemma UnverifiedOnly(net: Net, n: NodeId, ev: Event, env: Env)
    requires n in net.nodes && !Verified(net.nodes[n].state)
    requires net.nodes[n].state == VerifyWait ==> !ev.PongPacket?
    ensures KeepsVerified(net, StateHandle(net, n, ev, env))
  {
    var r := StateHandle(net, n, ev, env);
    assert n in r.nodes && forall k :: k in net.nodes && k != n ==> k in r.nodes && r.nodes[k] == net.nodes[k];
  }

  lemma PongVerified(net: Net, n: NodeId, ev: Event, env: Env)
    requires n in net.nodes && Verified(net.nodes[n].state) && ev.PongPacket?
    ensures KeepsVerified(net, StateHandle(net, n, ev, env))
  {
    var p := HandleKnownPong(net, n);
    assert KeepsVerified(net, p);
    var r := StateHandle(net, n, ev, env);
    if net.nodes[n].state == Contested || net.nodes[n].state == Unresponsive {
      assert r == EnterKnown(p, n, env.last, env.hash);
      EnterKnownVerified(p, n, env.last, env.hash);
      VerifiedTransitive(net, p, r);
    } else {
      assert r == net || r == p;
    }
  }

  lemma VerifiedHandle(net: Net, n: NodeId, ev: Event, env: Env)
    requires n in net.nodes && Verified(net.nodes[n].state)
    ensures KeepsVerified(net, StateHandle(net, n, ev, env))
  {
    if ev.PongPacket? {
      PongVerified(net, n, ev, env);
    } else if ev.PingPacket? || (net.nodes[n].state == RemoteVerifyWait && ev == TimedOut(PingTimeout)) {
      EnterKnownVerified(net, n, env.last, env.hash);
    } else if net.nodes[n].state == Contested && ev == TimedOut(PongTimeout) {
      assert KeepsVerified(net, Put(net, n, net.nodes[n].(state := Unresponsive)));
    } else if CanQuery(net.nodes[n].state) {
      QueryEventVerified(net, n, ev, env);
    }
  }

  lemma StateHandleVerified(net: Net, n: NodeId, ev: Event, env: Env)
    requires n in net.nodes
    ensures KeepsVerified(net, StateHandle(net, n, ev, env))
  {
    if Verified(net.nodes[n].state) { VerifiedHandle(net, n, ev, env); } else { UnverifiedHandle(net, n, ev, env); }
  }

  lemma HandleVerified(net: Net, n: NodeId, ev: Event, env: Env)
    requires n in net.nodes
    ensures KeepsVerified(net, Handle(net, n, ev, env))
  {
    if ev.PongPacket? {
      var b := Put(net, n, Accept(net.nodes[n], ev.token));
      assert KeepsVerified(net, b);
      StateHandleVerified(b, n, ev, env);
      VerifiedTransitive(net, b, StateHandle(b, n, ev, env));
    } else {
      StateHandleVerified(net, n, ev, env);
    }
  }

  lemma PacketVerified(net: Net, n: NodeId, isSelf: bool, ev: Event, env: Env)
    ensures KeepsVerified(net, Handle(Intern(net, n, isSelf), n, ev, env))
  {
    var a := Intern(net, n, isSelf);
    assert KeepsVerified(net, a);
    HandleVerified(a, n, ev, env);
    VerifiedTransitive(net, a, Handle(a, n, ev, env));
  }

  lemma StepVerified(net: Net, s: Step)
    requires Enabled(net, s)
    ensures KeepsVerified(net, Next(net, s))
  {
    match s {
      case Packet(n, isSelf, ev, env) => PacketVerified(net, n, isSelf, ev, env);
      case Fire(t, n, env) =>
        var a := net.(timers := net.timers - {(t, n)});
        assert KeepsVerified(net, a);
        HandleVerified(a, n, TimedOut(t), env);
      case Query(q, r, env) => SubmitVerified(net, q, r, env);
      case Seed(n, isSelf, hash) => SeedVerified(net, n, isSelf, hash);
      case PingNode(n, hash) => assert KeepsVerified(net, Ping(net, n, hash));
    }
  }

  lemma SubmitVerified(net: Net, q: QueryId, r: NodeId, env: Env)
    requires Enabled(net, Query(q, r, env))
    ensures KeepsVerified(net, Next(net, Query(q, r, env)))
  {
  }

  lemma SeedVerified(net: Net, n: NodeId, isSelf: bool, hash: Option<Token>)
    ensures KeepsVerified(net, VerifyIfUnknown(Intern(net, n, isSelf), n, hash))
  {
  }

  /** Over every run, a node that has been verified once never falls back to an unverified state. */
  lemma {:induction false} VerificationIsNeverLost(net: Net, steps: seq<Step>, net': Net, n: NodeId)
    requires Run(net, steps, net') && n in net.nodes && Verified(net.nodes[n].state)
    ensures n in net'.nodes && Verified(net'.nodes[n].state)
    decreases |steps|
  {
    if steps != [] {
      StepVerified(net, steps[0]);
      VerificationIsNeverLost(Next(net, steps[0]), steps[1..], net', n);
    }
  }

  // ----- does verification always go on?

  /** A node under verification has the timer that ends the wait, unless it carries our own ID; an
      unknown node has no ping outstanding. */
  ghost predicate ArmedAt(node: Node, timers: set<(Timer, NodeId)>, n: NodeId) {
    && (node.state == Unknown ==> node.pingEcho.None?)
    && ((node.state == VerifyInit || node.state == VerifyWait) && !node.isSelf ==> (PongTimeout, n) in timers)
    && (node.state == RemoteVerifyWait ==> (PingTimeout, n) in timers)
  }

  ghost predicate Armed(net: Net) {
    forall n :: n in net.nodes ==> ArmedAt(net.nodes[n], net.timers, n)
  }

  /** From net to net' only the node n and its timers may change. */
  ghost predicate OnlyAt(net: Net, net': Net, n: NodeId) {
    && n in net.nodes && net'.nodes.Keys == net.nodes.Keys
    && (forall k :: k in net.nodes && k != n ==> net'.nodes[k] == net.nodes[k])
    && (forall t, k :: k != n && (t, k) in net.timers ==> (t, k) in net'.timers)
  }

  lemma OnlyAtArmed(net: Net, net': Net, n: NodeId)
    requires Armed(net) && OnlyAt(net, net', n) && ArmedAt(net'.nodes[n], net'.timers, n)
    ensures Armed(net')
  {
  }

  lemma AddToTableArmed(net: Net, last: Option<NodeId>, hash: Option<Token>)
    requires Armed(net)
    ensures Armed(AddToTable(net, last, hash))
  {
    if last.Some? && last.value in net.nodes && net.nodes[last.value].state == Known {
      OnlyAtArmed(net, EnterContested(net, last.value, hash), last.value);
    }
  }

  /** Entering known at n, from a net that differs from an armed one at n only. */
  lemma EnterKnownArmed(armed: Net, net: Net, n: NodeId, last: Option<NodeId>, hash: Option<Token>)
    requires Armed(armed) && OnlyAt(armed, net, n)
    ensures Armed(EnterKnown(net, n, last, hash))
  {
    var b := Put(net, n, net.nodes[n].(state := Known, queryTimeouts := 0));
    OnlyAtArmed(armed, b, n);
    var a := StartNextQuery(b, n);
    OnlyAtArmed(b, a, n);
    AddToTableArmed(a, last, hash);
  }

  lemma {:induction false} InternAllArmed(net: Net, found: seq<Neighbour>)
    requires Armed(net)
    ensures Armed(InternAll(net, found))
    decreases |found|
  {
    if found != [] {
      if !found[0].accepted {
        InternAllArmed(net, found[1..]);
      } else {
        var a := Intern(net, found[0].id, false);
        InternArmed(net, found[0].id, false, found[0].hash);
        InternAllArmed(VerifyIfUnknown(a, found[0].id, found[0].hash), found[1..]);
      }
    }
  }

  lemma InternArmed(net: Net, n: NodeId, isSelf: bool, hash: Option<Token>)
    requires Armed(net)
    ensures Armed(Intern(net, n, isSelf)) && Armed(VerifyIfUnknown(Intern(net, n, isSelf), n, hash))
  {
    var a := Intern(net, n, isSelf);
    assert Armed(a);
    OnlyAtArmed(a, VerifyIfUnknown(a, n, hash), n);
  }

  lemma CountFailureArmed(net: Net, n: NodeId, env: Env)
    requires Armed(net) && n in net.nodes && CanQuery(net.nodes[n].state)
    ensures Armed(CountFailure(net, n, env))
  {
    OnlyAtArmed(net, CountFailure(net, n, env), n);
  }

  lemma NeighboursArmed(net: Net, n: NodeId, found: seq<Neighbour>)
    requires Armed(net) && n in net.nodes && CanQuery(net.nodes[n].state)
    ensures Armed(HandleNeighbours(net, n, found))
  {
    InternAllArmed(net, found);
    InternAllVerified(net, found);
    var a := InternAll(net, found);
    var b := AnswerPending(a, n).(timers := a.timers - {(NeighboursTimeout, n)});
    assert ArmedAt(a.nodes[n], a.timers, n);
    OnlyAtArmed(a, b, n);
    OnlyAtArmed(b, StartNextQuery(b, n), n);
  }

  lemma QueryEventArmed(net: Net, n: NodeId, ev: Event, env: Env)
    requires Armed(net) && n in net.nodes && CanQuery(net.nodes[n].state)
    ensures Armed(HandleQueryEvent(net, n, ev, env))
  {
    match ev {
      case NeighboursPacket(found) => NeighboursArmed(net, n, found);
      case TopicNodesPacket(wrong) => CountFailureArmed(net, n, env);
      case TimedOut(NeighboursTimeout) =>
        var a := AnswerPending(net, n);
        OnlyAtArmed(net, a, n);
        CountFailureArmed(a, n, env);
      case _ =>
    }
  }

  /** The event's timer, if it is a timeout, has just been taken out of the timers. */
  predicate TimerTaken(net: Net, was: set<(Timer, NodeId)>, n: NodeId, ev: Event) {
    if ev.TimedOut? then net.timers == was - {(ev.timer, n)} else net.timers == was
  }

  lemma QueriedArmed(net: Net, n: NodeId, ev: Event, env: Env)
    requires n in net.nodes && Armed(net) && CanQuery(net.nodes[n].state)
    ensures Armed(StateHandle(net, n, ev, env))
  {
    var p := HandleKnownPong(net, n);
    if ev.PongPacket? {
      OnlyAtArmed(net, p, n);
      EnterKnownArmed(net, p, n, env.last, env.hash);
    } else if ev.PingPacket? {
      EnterKnownArmed(net, net, n, env.last, env.hash);
    } else if net.nodes[n].state == Contested && ev == TimedOut(PongTimeout) {
      OnlyAtArmed(net, Put(net, n, net.nodes[n].(state := Unresponsive)), n);
    } else {
      QueryEventArmed(net, n, ev, env);
    }
  }

  lemma StateHandleArmed(net: Net, was: set<(Timer, NodeId)>, n: NodeId, ev: Event, env: Env)
    requires n in net.nodes && Armed(net.(timers := was)) && TimerTaken(net, was, n, ev)
    ensures Armed(StateHandle(net, n, ev, env))
  {
    var state, armed := net.nodes[n].state, net.(timers := was);
    if CanQuery(state) {
      OnlyAtArmed(armed, net, n);
      QueriedArmed(net, n, ev, env);
    } else if state == RemoteVerifyWait {
      if ev == TimedOut(PingTimeout) { EnterKnownArmed(armed, net, n, env.last, env.hash); }
      else { OnlyAtArmed(armed, net, n); }
    } else if state == VerifyWait {
      VerifyWaitArmed(net, was, n, ev, env);
    } else if state == VerifyInit {
      VerifyInitArmed(net, was, n, ev, env);
    } else {
      UnknownArmed(net, was, n, ev, env);
    }
  }

  lemma VerifyWaitArmed(net: Net, was: set<(Timer, NodeId)>, n: NodeId, ev: Event, env: Env)
    requires n in net.nodes && Armed(net.(timers := was)) && TimerTaken(net, was, n, ev)
    requires net.nodes[n].state == VerifyWait
    ensures Armed(StateHandle(net, n, ev, env))
  {
    var armed := net.(timers := was);
    assert ArmedAt(net.nodes[n], was, n);
    if ev.PongPacket? {
      EnterKnownArmed(armed, HandleKnownPong(net, n), n, env.last, env.hash);
    } else if ev == TimedOut(PongTimeout) {
      OnlyAtArmed(armed, EnterUnknown(net, n), n);
    } else {
      OnlyAtArmed(armed, net, n);
    }
  }

  lemma VerifyInitArmed(net: Net, was: set<(Timer, NodeId)>, n: NodeId, ev: Event, env: Env)
    requires n in net.nodes && Armed(net.(timers := was)) && TimerTaken(net, was, n, ev)
    requires net.nodes[n].state == VerifyInit
    ensures Armed(StateHandle(net, n, ev, env))
  {
    var armed := net.(timers := was);
    assert ArmedAt(net.nodes[n], was, n);
    if ev.PingPacket? {
      OnlyAtArmed(armed, Put(net, n, net.nodes[n].(state := VerifyWait)), n);
    } else if ev.PongPacket? {
      OnlyAtArmed(armed, EnterRemoteVerifyWait(HandleKnownPong(net, n), n), n);
    } else if ev == TimedOut(PongTimeout) {
      OnlyAtArmed(armed, EnterUnknown(net, n), n);
    } else {
      OnlyAtArmed(armed, net, n);
    }
  }

  lemma UnknownArmed(net: Net, was: set<(Timer, NodeId)>, n: NodeId, ev: Event, env: Env)
    requires n in net.nodes && Armed(net.(timers := was)) && TimerTaken(net, was, n, ev)
    requires net.nodes[n].state == Unknown
    ensures Armed(StateHandle(net, n, ev, env))
  {
    var armed := net.(timers := was);
    assert ArmedAt(net.nodes[n], was, n);
    if ev.PingPacket? {
      var a := Ping(net, n, env.hash);
      OnlyAtArmed(armed, Put(a, n, a.nodes[n].(state := VerifyWait)), n);
    } else {
      OnlyAtArmed(armed, net, n);
    }
  }

  /** Steps that do not ping an unknown node from outside keep every wait under a timer. */
  predicate Polite(net: Net, s: Step) {
    s.PingNode? && s.n in net.nodes ==> net.nodes[s.n].state != Unknown
  }

  lemma PacketArmed(net: Net, n: NodeId, ev: Event, env: Env)
    requires Armed(net) && n in net.nodes && !ev.TimedOut?
    ensures Armed(Handle(net, n, ev, env))
  {
    if ev.PongPacket? {
      var b := Put(net, n, Accept(net.nodes[n], ev.token));
      OnlyAtArmed(net, b, n);
      assert b.(timers := b.timers) == b;
      StateHandleArmed(b, b.timers, n, ev, env);
    } else {
      assert net.(timers := net.timers) == net;
      StateHandleArmed(net, net.timers, n, ev, env);
    }
  }

  lemma SubmitArmed(net: Net, q: QueryId, r: NodeId, env: Env)
    requires Armed(net) && Enabled(net, Query(q, r, env))
    ensures Armed(Next(net, Query(q, r, env)))
  {
    if r != net.self {
      SubmitOnlyAt(net, q, r, env);
      assert ArmedAt(net.nodes[r], net.timers, r);
      OnlyAtArmed(net, Submit(net, q, r, env), r);
    }
  }

  lemma SubmitOnlyAt(net: Net, q: QueryId, r: NodeId, env: Env)
    requires r != net.self && r in net.nodes
    ensures OnlyAt(net, Submit(net, q, r, env), r)
  {
  }

  lemma StepArmed(net: Net, s: Step)
    requires Armed(net) && Enabled(net, s) && Polite(net, s)
    ensures Armed(Next(net, s))
  {
    match s {
      case Packet(n, isSelf, ev, env) =>
        InternArmed(net, n, isSelf, None);
        PacketArmed(Intern(net, n, isSelf), n, ev, env);
      case Fire(t, n, env) =>
        StateHandleArmed(net.(timers := net.timers - {(t, n)}), net.timers, n, TimedOut(t), env);
      case Query(q, r, env) =>
        SubmitArmed(net, q, r, env);
      case Seed(n, isSelf, hash) => InternArmed(net, n, isSelf, hash);
      case PingNode(n, hash) => OnlyAtArmed(net, Ping(net, n, hash), n);
    }
  }

  ghost predicate PoliteRun(net: Net, steps: seq<Step>)
    decreases |steps|
  {
    steps != [] ==> Enabled(net, steps[0]) && Polite(net, steps[0]) && PoliteRun(Next(net, steps[0]), steps[1..])
  }

  lemma {:induction false} RunKeepsArmed(net: Net, steps: seq<Step>, net': Net)
    requires Armed(net) && Run(net, steps, net') && PoliteRun(net, steps)
    ensures Armed(net')
    decreases |steps|
  {
    if steps != [] {
      StepArmed(net, steps[0]);
      RunKeepsArmed(Next(net, steps[0]), steps[1..], net');
    }
  }

  /** The timer whose event ends the wait in a state: the pong we expect, the ping of the other side, or
      the answer to the query that is pending. */
  function WaitTimer(s: NodeState): Timer {
    if CanQuery(s) then NeighboursTimeout else if s == RemoteVerifyWait then PingTimeout else PongTimeout
  }

  /** Over every run in which no unknown node is pinged from outside the machine: a deferred query has the
      timer of its wait if and only if its node can be queried and has another query pending, or cannot
      be queried yet and is not ourselves, or waits for the other side's ping. */
  lemma DeferredHasTimerIff(self: NodeId, steps: seq<Step>, net: Net, q: QueryId)
    requires Run(Start(self), steps, net) && PoliteRun(Start(self), steps) && DeferredAt(net, q)
    ensures var n := net.remote[q];
            var node := net.nodes[n];
            (WaitTimer(node.state), n) in net.timers
            <==> if CanQuery(node.state) then node.pending.Some? else node.state == RemoteVerifyWait || !node.isSelf
  {
    RunKeepsInv(Start(self), steps, net);
    RunKeepsArmed(Start(self), steps, net);
    var n := net.remote[q];
    assert ArmedAt(net.nodes[n], net.timers, n) && LocalOk(net.nodes[n], net.timers, n);
  }

  /** The timer of the wait ends it: the query is answered, or the node can be queried and has the first
      of its deferred queries pending. */
  lemma WaitTimerEndsTheWait(net: Net, q: QueryId, env: Env)
    requires Inv(net) && DeferredAt(net, q) && !CanQuery(net.nodes[net.remote[q]].state)
    requires (WaitTimer(net.nodes[net.remote[q]].state), net.remote[q]) in net.timers
    ensures var n := net.remote[q];
            var node := net.nodes[n];
            var net' := Next(net, Fire(WaitTimer(node.state), n, env));
            if node.state == RemoteVerifyWait
            then n in net'.nodes && CanQuery(net'.nodes[n].state) && net'.nodes[n].pending == Some(node.deferred[0])
            else q in net'.answers
  {
    var n := net.remote[q];
    assert LocalOk(net.nodes[n], net.timers, n);
    var node := net.nodes[n];
    if node.state == RemoteVerifyWait {
      RemoteWaitEnds(net.(timers := net.timers - {(PingTimeout, n)}), n, env);
    } else {
      assert q in multiset(node.deferred) && q in Held(node);
    }
  }

  lemma RemoteWaitEnds(net: Net, n: NodeId, env: Env)
    requires n in net.nodes && net.nodes[n].deferred != [] && net.nodes[n].pending.None?
    ensures var a := EnterKnown(net, n, env.last, env.hash);
            n in a.nodes && CanQuery(a.nodes[n].state) && a.nodes[n].pending == Some(net.nodes[n].deferred[0])
  {
  }

  /** A query is deferred at a node that could take it, and nothing is pending there. */
  ghost predicate Stalled(net: Net, q: QueryId) {
    DeferredAt(net, q) && CanQuery(net.nodes[net.remote[q]].state) && net.nodes[net.remote[q]].pending.None?
  }

  /** From net to net' the node n keeps its queries and can still be queried. */
  ghost predicate StaysReady(net: Net, net': Net, n: NodeId) {
    && n in net.nodes && n in net'.nodes && net'.remote == net.remote
    && net'.nodes[n].deferred == net.nodes[n].deferred && net'.nodes[n].pending == net.nodes[n].pending
    && CanQuery(net'.nodes[n].state)
  }

  lemma EnterKnownStaysReady(net: Net, m: NodeId, env: Env, n: NodeId)
    requires m in net.nodes && n in net.nodes && n != m && CanQuery(net.nodes[n].state)
    ensures StaysReady(net, EnterKnown(net, m, env.last, env.hash), n)
  {
    var a := StartNextQuery(Put(net, m, net.nodes[m].(state := Known, queryTimeouts := 0)), m);
    assert a.nodes[n] == net.nodes[n] && a.remote == net.remote;
  }

  lemma TimeoutStaysReady(net: Net, t: Timer, m: NodeId, env: Env, n: NodeId)
    requires m in net.nodes && n in net.nodes && CanQuery(net.nodes[n].state)
    requires m == n ==> t != NeighboursTimeout
    ensures StaysReady(net, StateHandle(net, m, TimedOut(t), env), n)
  {
    if m == n {
      OwnTimeoutStaysReady(net, t, n, env);
    } else if net.nodes[m].state == RemoteVerifyWait {
      EnterKnownStaysReady(net, m, env, n);
    } else {
      TimeoutElsewhere(net, t, m, env, n);
    }
  }

  lemma OwnTimeoutStaysReady(net: Net, t: Timer, n: NodeId, env: Env)
    requires n in net.nodes && CanQuery(net.nodes[n].state) && t != NeighboursTimeout
    ensures StaysReady(net, StateHandle(net, n, TimedOut(t), env), n)
  {
    var ev := TimedOut(t);
    assert HandleQueryEvent(net, n, ev, env) == net;
  }

  lemma TimeoutElsewhere(net: Net, t: Timer, m: NodeId, env: Env, n: NodeId)
    requires m in net.nodes && n in net.nodes && m != n && net.nodes[m].state != RemoteVerifyWait
    ensures var a := StateHandle(net, m, TimedOut(t), env);
            n in a.nodes && a.nodes[n] == net.nodes[n] && a.remote == net.remote
  {
    if CanQuery(net.nodes[m].state) { QueryTimeoutElsewhere(net, t, m, env, n); }
  }

  lemma QueryTimeoutElsewhere(net: Net, t: Timer, m: NodeId, env: Env, n: NodeId)
    requires m in net.nodes && n in net.nodes && m != n
    ensures var a := HandleQueryEvent(net, m, TimedOut(t), env);
            n in a.nodes && a.nodes[n] == net.nodes[n] && a.remote == net.remote
  {
    var b := AnswerPending(net, m);
    assert b.nodes[n] == net.nodes[n] && b.remote == net.remote;
  }

  /** No timeout, of any node, starts or answers a stalled query: only a packet can. */
  lemma TimeoutsDoNotHelp(net: Net, q: QueryId, t: Timer, m: NodeId, env: Env)
    requires Inv(net) && Stalled(net, q) && Enabled(net, Fire(t, m, env))
    ensures Stalled(Next(net, Fire(t, m, env)), q)
  {
    var n := net.remote[q];
    assert LocalOk(net.nodes[n], net.timers, n);
    TimeoutStaysReady(net.(timers := net.timers - {(t, m)}), t, m, env, n);
  }

  ghost predicate OnlyTimeouts(steps: seq<Step>) { forall s :: s in steps ==> s.Fire? }

  /** In every reachable state, a stalled query outlasts every sequence of timeouts. */
  lemma {:induction false} StalledStays(net: Net, q: QueryId, steps: seq<Step>, net': Net)
    requires Inv(net) && Stalled(net, q) && Run(net, steps, net') && OnlyTimeouts(steps)
    ensures Stalled(net', q)
    decreases |steps|
  {
    if steps != [] {
      var s := steps[0];
      assert s in steps;
      TimeoutsDoNotHelp(net, q, s.timer, s.n, s.env);
      StepKeepsInv(net, s);
      StalledStays(Next(net, s), q, steps[1..], net');
    }
  }

  /** The timeout of a pending query leaves every query deferred at that node stalled. */
  lemma NeighboursTimeoutStalls(net: Net, n: NodeId, env: Env, q: QueryId)
    requires Inv(net) && Enabled(net, Fire(NeighboursTimeout, n, env)) && DeferredAt(net, q) && net.remote[q] == n
    ensures Stalled(Next(net, Fire(NeighboursTimeout, n, env)), q)
  {
    assert LocalOk(net.nodes[n], net.timers, n);
    NeighboursTimeoutHandled(net.(timers := net.timers - {(NeighboursTimeout, n)}), n, env);
  }

  /** A run that pings no unknown node and still leaves a query stalled, with no timer running at all: the
      timeout of the query before it does not start the next one. */
  lemma TimeoutLeavesQueryStalled() returns (steps: seq<Step>, net: Net)
    ensures Run(Start(0), steps, net) && PoliteRun(Start(0), steps)
    ensures Stalled(net, 8) && net.remote[8] == 1 && net.nodes[1].state == Known && net.timers == {}
  {
    var env := Env(Some([5]), None);
    var s1, s2 := Packet(1, false, PingPacket, env), Packet(1, false, PongPacket([5]), env);
    var s3, s4, s5 := Query(7, 1, env), Query(8, 1, env), Fire(NeighboursTimeout, 1, env);
    var n2 := VerifiedAtOnce();
    var n3, n4 := SecondQueryWaits(n2);
    net := FirstQueryTimesOut(n4);
    var rest := ThreeSteps(n2, n3, n4, net, s3, s4, s5);
    steps := TwoSteps(Start(0), Next(Start(0), s1), n2, net, s1, s2, rest);
  }

  lemma SecondQueryWaits(net: Net) returns (n3: Net, n4: Net)
    requires net == Net(0, map[1 := Node(Known, None, [], None, 0, false, {[5]})], {}, map[], multiset{})
    ensures var env := Env(Some([5]), None);
            && Enabled(net, Query(7, 1, env)) && n3 == Next(net, Query(7, 1, env))
            && Enabled(n3, Query(8, 1, env)) && n4 == Next(n3, Query(8, 1, env))
    ensures n4 == Net(0, map[1 := Node(Known, None, [8], Some(7), 0, false, {[5]})], {(NeighboursTimeout, 1)},
                      map[7 := 1, 8 := 1], multiset{})
  {
    var env := Env(Some([5]), None);
    n3 := Next(net, Query(7, 1, env));
    assert n3.nodes[1] == Node(Known, None, [], Some(7), 0, false, {[5]});
    assert n3.nodes == map[1 := Node(Known, None, [], Some(7), 0, false, {[5]})];
    assert n3.timers == {(NeighboursTimeout, 1)};
    n4 := Next(n3, Query(8, 1, env));
    assert n4.nodes[1] == Node(Known, None, [8], Some(7), 0, false, {[5]});
    assert n4.nodes == map[1 := Node(Known, None, [8], Some(7), 0, false, {[5]})];
  }

  lemma FirstQueryTimesOut(net: Net) returns (net': Net)
    requires net == Net(0, map[1 := Node(Known, None, [8], Some(7), 0, false, {[5]})], {(NeighboursTimeout, 1)},
                        map[7 := 1, 8 := 1], multiset{})
    ensures var s := Fire(NeighboursTimeout, 1, Env(Some([5]), None)); Enabled(net, s) && net' == Next(net, s)
    ensures Stalled(net', 8) && net'.remote[8] == 1 && net'.nodes[1].state == Known && net'.timers == {}
  {
    net' := Next(net, Fire(NeighboursTimeout, 1, Env(Some([5]), None)));
    assert net'.nodes[1] == Node(Known, None, [8], None, 1, false, {[5]});
  }

  /** A ping and an accepted pong make node 1 known. */
  lemma VerifiedAtOnce() returns (net: Net)
    ensures var env := Env(Some([5]), None);
            var s1, s2 := Packet(1, false, PingPacket, env), Packet(1, false, PongPacket([5]), env);
            && Enabled(Start(0), s1) && Enabled(Next(Start(0), s1), s2) && net == Next(Next(Start(0), s1), s2)
    ensures net == Net(0, map[1 := Node(Known, None, [], None, 0, false, {[5]})], {}, map[], multiset{})
  {
    var env := Env(Some([5]), None);
    var n1 := Next(Start(0), Packet(1, false, PingPacket, env));
    assert n1.nodes[1] == Node(VerifyWait, Some([5]), [], None, 0, false, {});
    assert n1.nodes == map[1 := Node(VerifyWait, Some([5]), [], None, 0, false, {})];
    assert n1.timers == {(PongTimeout, 1)};
    net := Next(n1, Packet(1, false, PongPacket([5]), env));
    assert net.nodes[1] == Node(Known, None, [], None, 0, false, {[5]});
    assert net.nodes == map[1 := Node(Known, None, [], None, 0, false, {[5]})];
  }

  lemma TwoSteps(n0: Net, n1: Net, n2: Net, net: Net, s1: Step, s2: Step, rest: seq<Step>) returns (steps: seq<Step>)
    requires Enabled(n0, s1) && n1 == Next(n0, s1) && Polite(n0, s1)
    requires Enabled(n1, s2) && n2 == Next(n1, s2) && Polite(n1, s2)
    requires Run(n2, rest, net) && PoliteRun(n2, rest)
    ensures Run(n0, steps, net) && PoliteRun(n0, steps)
  {
    OneMoreStep(n1, s2, n2, rest, net);
    OneMoreStep(n0, s1, n1, [s2] + rest, net);
    steps := [s1] + ([s2] + rest);
  }

  lemma ThreeSteps(n2: Net, n3: Net, n4: Net, n5: Net, s3: Step, s4: Step, s5: Step) returns (steps: seq<Step>)
    requires Enabled(n2, s3) && n3 == Next(n2, s3) && Polite(n2, s3)
    requires Enabled(n3, s4) && n4 == Next(n3, s4) && Polite(n3, s4)
    requires Enabled(n4, s5) && n5 == Next(n4, s5) && Polite(n4, s5)
    ensures Run(n2, steps, n5) && PoliteRun(n2, steps)
  {
    OneMoreStep(n4, s5, n5, [], n5);
    steps := TwoSteps(n2, n3, n4, n5, s3, s4, [s5] + []);
  }

  lemma OneMoreStep(net: Net, s: Step, net1: Net, rest: seq<Step>, net': Net)
    requires Enabled(net, s) && Polite(net, s) && net1 == Next(net, s)
    requires Run(net1, rest, net') && PoliteRun(net1, rest)
    ensures Run(net, [s] + rest, net') && PoliteRun(net, [s] + rest)
  {
    assert ([s] + rest)[1..] == rest;
  }

  /** A node that claims our own ID is never pinged: a query to it is deferred and waits without a timer. */
  lemma QueryToOurselvesWaits() returns (steps: seq<Step>, net: Net)
    ensures Run(Start(0), steps, net) && PoliteRun(Start(0), steps)
    ensures DeferredAt(net, 7) && net.remote[7] == 1 && net.nodes[1].state == VerifyInit && net.timers == {}
  {
    var env := Env(Some([5]), None);
    var s1, s2 := Packet(1, true, OtherPacket, env), Query(7, 1, env);
    var n1 := Next(Start(0), s1);
    assert n1.nodes == map[1 := NewNode(true)];
    net := Next(n1, s2);
    assert net.nodes[1].deferred == [7];
    steps := TwoSteps(Start(0), n1, net, net, s1, s2, []);
  }

  /** With such a ping the wait can lose its timer: the ping of an unknown node times out unnoticed,
      and the verification started later by a query finds a ping outstanding and sends none.  The
      query then stays deferred with no timer running at all. */
  lemma DeferredQueryCanStall() returns (steps: seq<Step>, net: Net)
    ensures Run(Start(0), steps, net) && !PoliteRun(Start(0), steps)
    ensures DeferredAt(net, 7) && 1 in net.nodes && net.nodes[1].state == VerifyInit && net.timers == {}
  {
    var env := Env(Some([5]), None);
    var s1, s2 := Packet(1, false, OtherPacket, env), PingNode(1, Some([9]));
    var s3, s4 := Fire(PongTimeout, 1, env), Query(7, 1, env);
    var n0 := Start(0);
    var n1 := Next(n0, s1);
    assert n1.nodes == map[1 := NewNode(false)];
    var n2 := Next(n1, s2);
    assert n2.timers == {(PongTimeout, 1)};
    var n3 := Next(n2, s3);
    assert n3.timers == {} && n3.nodes[1].pingEcho == Some([9]) && n3.nodes[1].state == Unknown;
    net := Next(n3, s4);
    assert net.nodes[1].deferred == [7];
    steps := [s1, s2, s3, s4];
    assert Run(n3, [s4], net) by { assert [s4][1..] == []; }
    assert Run(n2, [s3, s4], net) by { assert [s3, s4][1..] == [s4]; }
    assert Run(n1, [s2, s3, s4], net) by { assert [s2, s3, s4][1..] == [s3, s4]; }
    assert steps[1..] == [s2, s3, s4];
  }
}
