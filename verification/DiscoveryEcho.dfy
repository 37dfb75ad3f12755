/** What an accepted pong proves (p2p/discv5/net.go): whether a verified node has echoed the hash of a ping
    that was sent to it. */
module DiscoveryEcho {
  import opened Common
  import opened Discovery

  /** Some state of the run has a ping with this hash outstanding at the node: it was sent. */
  ghost predicate WasPinged(net: Net, steps: seq<Step>, n: NodeId, t: Token)
    decreases |steps|
  {
    || (n in net.nodes && net.nodes[n].pingEcho == Some(t))
    || (steps != [] && Enabled(net, steps[0]) && WasPinged(Next(net, steps[0]), steps[1..], n, t))
  }

  /** What is known of the hashes that sending returns: `full`, that none is empty; `sent`, that there is
      always one. */
  datatype Hashes = Hashes(full: bool, sent: bool)

  predicate HashOk(g: Hashes, h: Option<Token>) { (g.full ==> h != Some([])) && (g.sent ==> h.Some?) }

  predicate EventOk(g: Hashes, ev: Event) {
    ev.NeighboursPacket? ==> forall f :: f in ev.found ==> HashOk(g, f.hash)
  }

  predicate StepOk(g: Hashes, s: Step) {
    match s
    case Packet(_, _, ev, env) => EventOk(g, ev) && HashOk(g, env.hash)
    case Fire(_, _, env) => HashOk(g, env.hash)
    case Query(_, _, env) => HashOk(g, env.hash)
    case Seed(_, _, hash) => HashOk(g, hash)
    case PingNode(_, hash) => HashOk(g, hash)
  }

  predicate Echoed(node: Node) { exists t :: t in node.ponged && t != [] }

  /** The tokens accepted are in `s`; and where every ping is sent and has a hash, a node under verification
      has a ping outstanding and a verified one has echoed a hash, unless it has our own ID. */
  ghost predicate EchoOk(node: Node, n: NodeId, s: iset<(NodeId, Token)>, g: Hashes) {
    && (forall t :: t in node.ponged ==> (n, t) in s)
    && (g.full ==> node.pingEcho != Some([]))
    && (g.full && g.sent && !node.isSelf ==>
          && (node.state == VerifyInit || node.state == VerifyWait ==> node.pingEcho.Some? || Echoed(node))
          && (Verified(node.state) ==> Echoed(node)))
  }

  ghost predicate AllOk(net: Net, s: iset<(NodeId, Token)>, g: Hashes) {
    forall n :: n in net.nodes ==> EchoOk(net.nodes[n], n, s, g)
  }

  // ----- the parts of a transition

  lemma PutOk(net: Net, n: NodeId, node: Node, s: iset<(NodeId, Token)>, g: Hashes)
    requires AllOk(net, s, g) && EchoOk(node, n, s, g)
    ensures AllOk(Put(net, n, node), s, g)
  {
  }

  lemma PingOk(net: Net, n: NodeId, hash: Option<Token>, s: iset<(NodeId, Token)>, g: Hashes)
    requires AllOk(net, s, g) && n in net.nodes && HashOk(g, hash)
    ensures AllOk(Ping(net, n, hash), s, g)
  {
    var node := net.nodes[n];
    if !(node.pingEcho.Some? || node.isSelf) { PutOk(net, n, node.(pingEcho := hash), s, g); }
  }

  lemma EnterVerifyInitOk(net: Net, n: NodeId, hash: Option<Token>, s: iset<(NodeId, Token)>, g: Hashes)
    requires AllOk(net, s, g) && n in net.nodes && HashOk(g, hash)
    ensures AllOk(EnterVerifyInit(net, n, hash), s, g)
  {
    PingAfter(net, n, net.nodes[n].(state := VerifyInit), hash, s, g);
  }

  /** A ping makes up for a missing one. */
  lemma PingAfter(net: Net, n: NodeId, node: Node, hash: Option<Token>, s: iset<(NodeId, Token)>, g: Hashes)
    requires AllOk(net, s, g) && n in net.nodes && HashOk(g, hash)
    requires node.ponged <= net.nodes[n].ponged && (g.full ==> node.pingEcho != Some([]))
    requires g.full && g.sent && !node.isSelf && Verified(node.state) ==> Echoed(node)
    ensures AllOk(Ping(Put(net, n, node), n, hash), s, g)
  {
    var a := Ping(Put(net, n, node), n, hash);
    assert EchoOk(a.nodes[n], n, s, g);
    assert forall k :: k in a.nodes && k != n ==> k in net.nodes && a.nodes[k] == net.nodes[k];
  }

  lemma EnterContestedOk(net: Net, n: NodeId, hash: Option<Token>, s: iset<(NodeId, Token)>, g: Hashes)
    requires AllOk(net, s, g) && n in net.nodes && HashOk(g, hash) && Verified(net.nodes[n].state)
    ensures AllOk(EnterContested(net, n, hash), s, g)
  {
    PingAfter(net, n, net.nodes[n].(state := Contested), hash, s, g);
  }

  lemma StartNextOk(net: Net, n: NodeId, s: iset<(NodeId, Token)>, g: Hashes)
    requires AllOk(net, s, g) && n in net.nodes
    ensures AllOk(StartNextQuery(net, n), s, g)
  {
  }

  lemma EnterKnownOk(net: Net, n: NodeId, env: Env, s: iset<(NodeId, Token)>, g: Hashes)
    requires AllOk(net, s, g) && n in net.nodes && HashOk(g, env.hash)
    requires g.full && g.sent && !net.nodes[n].isSelf ==> Echoed(net.nodes[n])
    ensures AllOk(EnterKnown(net, n, env.last, env.hash), s, g)
  {
    var a := Put(net, n, net.nodes[n].(state := Known, queryTimeouts := 0));
    PutOk(net, n, a.nodes[n], s, g);
    StartNextOk(a, n, s, g);
    var b := StartNextQuery(a, n);
    if env.last.Some? && env.last.value in b.nodes && b.nodes[env.last.value].state == Known {
      EnterContestedOk(b, env.last.value, env.hash, s, g);
    }
  }

  lemma VerifyOk(net: Net, n: NodeId, hash: Option<Token>, s: iset<(NodeId, Token)>, g: Hashes)
    requires AllOk(net, s, g) && n in net.nodes && HashOk(g, hash)
    ensures AllOk(VerifyIfUnknown(net, n, hash), s, g)
  {
    if net.nodes[n].state == Unknown { EnterVerifyInitOk(net, n, hash, s, g); }
  }

  lemma InternOk(net: Net, n: NodeId, isSelf: bool, s: iset<(NodeId, Token)>, g: Hashes)
    requires AllOk(net, s, g)
    ensures AllOk(Intern(net, n, isSelf), s, g)
  {
  }

  lemma {:induction false} InternAllOk(net: Net, found: seq<Neighbour>, s: iset<(NodeId, Token)>, g: Hashes)
    requires AllOk(net, s, g) && forall f :: f in found ==> HashOk(g, f.hash)
    ensures AllOk(InternAll(net, found), s, g)
    decreases |found|
  {
    if found != [] {
      if !found[0].accepted {
        InternAllOk(net, found[1..], s, g);
      } else {
        var a := Intern(net, found[0].id, false);
        InternOk(net, found[0].id, false, s, g);
        VerifyOk(a, found[0].id, found[0].hash, s, g);
        InternAllOk(VerifyIfUnknown(a, found[0].id, found[0].hash), found[1..], s, g);
      }
    }
  }

  lemma AnswerOk(net: Net, n: NodeId, s: iset<(NodeId, Token)>, g: Hashes)
    requires AllOk(net, s, g) && n in net.nodes
    ensures AllOk(AnswerPending(net, n), s, g)
  {
  }

  lemma CountFailureOk(net: Net, n: NodeId, env: Env, s: iset<(NodeId, Token)>, g: Hashes)
    requires AllOk(net, s, g) && n in net.nodes && HashOk(g, env.hash)
    ensures AllOk(CountFailure(net, n, env), s, g)
  {
    var a := Put(net, n, net.nodes[n].(queryTimeouts := net.nodes[n].queryTimeouts + 1));
    PutOk(net, n, a.nodes[n], s, g);
    if a.nodes[n].state == Known { EnterContestedOk(a, n, env.hash, s, g); }
  }

  // ----- events

  lemma NeighboursOk(net: Net, n: NodeId, found: seq<Neighbour>, s: iset<(NodeId, Token)>, g: Hashes)
    requires AllOk(net, s, g) && n in net.nodes && forall f :: f in found ==> HashOk(g, f.hash)
    ensures AllOk(HandleNeighbours(net, n, found), s, g)
  {
    if net.nodes[n].pending.Some? {
      InternAllOk(net, found, s, g);
      var a := InternAll(net, found);
      if n in a.nodes {
        AnswerOk(a, n, s, g);
        StartNextOk(AnswerPending(a, n).(timers := a.timers - {(NeighboursTimeout, n)}), n, s, g);
      }
    }
  }

  lemma QueryEventOk(net: Net, n: NodeId, ev: Event, env: Env, s: iset<(NodeId, Token)>, g: Hashes)
    requires AllOk(net, s, g) && n in net.nodes && EventOk(g, ev) && HashOk(g, env.hash)
    ensures AllOk(HandleQueryEvent(net, n, ev, env), s, g)
  {
    match ev {
      case NeighboursPacket(found) => NeighboursOk(net, n, found, s, g);
      case TopicNodesPacket(wrong) => CountFailureOk(net, n, env, s, g);
      case TimedOut(NeighboursTimeout) =>
        AnswerOk(net, n, s, g);
        CountFailureOk(AnswerPending(net, n), n, env, s, g);
      case _ =>
    }
  }

  /** The transitions that the handlers ask for. */
  lemma TransitionOk(net: Net, n: NodeId, next: NodeState, env: Env, s: iset<(NodeId, Token)>, g: Hashes)
    requires AllOk(net, s, g) && n in net.nodes && HashOk(g, env.hash)
    requires next == VerifyWait && g.full && g.sent && !net.nodes[n].isSelf ==>
      net.nodes[n].pingEcho.Some? || Echoed(net.nodes[n])
    requires Verified(next) && g.full && g.sent && !net.nodes[n].isSelf ==> Echoed(net.nodes[n])
    requires next != VerifyInit && next != Contested
    ensures AllOk(Transition(net, n, next, env), s, g)
  {
    if next == Known {
      EnterKnownOk(net, n, env, s, g);
    } else {
      assert EchoOk(net.nodes[n].(state := next), n, s, g);
    }
  }

  lemma KnownPongOk(net: Net, n: NodeId, s: iset<(NodeId, Token)>, g: Hashes)
    requires AllOk(net, s, g) && n in net.nodes
    requires g.full && g.sent && !net.nodes[n].isSelf ==> Echoed(net.nodes[n])
    ensures AllOk(HandleKnownPong(net, n), s, g)
  {
    PutOk(net, n, net.nodes[n].(pingEcho := None), s, g);
  }

  /** A handler whose event is an accepted pong. */
  lemma PongOk(net: Net, n: NodeId, ev: Event, env: Env, s: iset<(NodeId, Token)>, g: Hashes)
    requires AllOk(net, s, g) && n in net.nodes && HashOk(g, env.hash) && ev.PongPacket?
    requires g.full && g.sent && !net.nodes[n].isSelf && net.nodes[n].state != Unknown ==> Echoed(net.nodes[n])
    ensures AllOk(StateHandle(net, n, ev, env), s, g)
  {
    var state := net.nodes[n].state;
    if state != Unknown && state != RemoteVerifyWait {
      KnownPongOk(net, n, s, g);
      TransitionOk(HandleKnownPong(net, n), n, if state == VerifyInit then RemoteVerifyWait else Known, env, s, g);
    }
  }

  lemma OtherEventOk(net: Net, n: NodeId, ev: Event, env: Env, s: iset<(NodeId, Token)>, g: Hashes)
    requires AllOk(net, s, g) && n in net.nodes && EventOk(g, ev) && HashOk(g, env.hash) && !ev.PongPacket?
    ensures AllOk(StateHandle(net, n, ev, env), s, g)
  {
    match net.nodes[n].state {
      case Unknown =>
        if ev.PingPacket? {
          PingOk(net, n, env.hash, s, g);
          TransitionOk(Ping(net, n, env.hash), n, VerifyWait, env, s, g);
        }
      case VerifyInit =>
        if ev.PingPacket? { TransitionOk(net, n, VerifyWait, env, s, g); }
        else if ev == TimedOut(PongTimeout) { TransitionOk(net, n, Unknown, env, s, g); }
      case VerifyWait => if ev == TimedOut(PongTimeout) { TransitionOk(net, n, Unknown, env, s, g); }
      case RemoteVerifyWait => if ev == TimedOut(PingTimeout) { TransitionOk(net, n, Known, env, s, g); }
      case Known => QueryEventOk(net, n, ev, env, s, g);
      case Contested =>
        if ev == TimedOut(PongTimeout) { TransitionOk(net, n, Unresponsive, env, s, g); }
        QueryEventOk(net, n, ev, env, s, g);
      case Unresponsive =>
        if ev.PingPacket? { TransitionOk(net, n, Known, env, s, g); }
        QueryEventOk(net, n, ev, env, s, g);
    }
  }

  /** An accepted token is the hash of the outstanding ping, or empty with none outstanding. */
  lemma HandleOk(net: Net, n: NodeId, ev: Event, env: Env, s: iset<(NodeId, Token)>, g: Hashes)
    requires AllOk(net, s, g) && n in net.nodes && EventOk(g, ev) && HashOk(g, env.hash)
    requires (n, []) in s && forall t :: net.nodes[n].pingEcho == Some(t) ==> (n, t) in s
    ensures AllOk(Handle(net, n, ev, env), s, g)
  {
    if !ev.PongPacket? {
      OtherEventOk(net, n, ev, env, s, g);
    } else if TokenMatches(net.nodes[n], ev.token) {
      var b := Put(net, n, Accept(net.nodes[n], ev.token));
      AcceptOk(net.nodes[n], n, ev.token, s, g);
      PutOk(net, n, b.nodes[n], s, g);
      PongOk(b, n, ev, env, s, g);
    }
  }

  lemma AcceptOk(node: Node, n: NodeId, token: Token, s: iset<(NodeId, Token)>, g: Hashes)
    requires EchoOk(node, n, s, g) && TokenMatches(node, token)
    requires (n, []) in s && forall t :: node.pingEcho == Some(t) ==> (n, t) in s
    ensures var b := Accept(node, token);
            && EchoOk(b, n, s, g)
            && (g.full && g.sent && !node.isSelf && node.state != Unknown ==> Echoed(b))
  {
    var b := Accept(node, token);
    if node.state != Unknown {
      assert node.ponged <= b.ponged && token in b.ponged;
      assert Echoed(node) ==> Echoed(b);
    }
  }

  lemma SubmitOk(net: Net, q: QueryId, r: NodeId, env: Env, s: iset<(NodeId, Token)>, g: Hashes)
    requires AllOk(net, s, g) && (r == net.self || r in net.nodes) && HashOk(g, env.hash)
    ensures AllOk(Submit(net, q, r, env), s, g)
  {
    if r != net.self && net.nodes[r].state == Unknown {
      EnterVerifyInitOk(net.(remote := net.remote[q := r]), r, env.hash, s, g);
    }
  }

  lemma NextOk(net: Net, step: Step, s: iset<(NodeId, Token)>, g: Hashes)
    requires AllOk(net, s, g) && Enabled(net, step) && StepOk(g, step)
    requires forall n: NodeId :: (n, []) in s
    requires forall n, t :: n in net.nodes && net.nodes[n].pingEcho == Some(t) ==> (n, t) in s
    ensures AllOk(Next(net, step), s, g)
  {
    match step {
      case Packet(n, isSelf, ev, env) =>
        InternOk(net, n, isSelf, s, g);
        HandleOk(Intern(net, n, isSelf), n, ev, env, s, g);
      case Fire(t, n, env) => HandleOk(net.(timers := net.timers - {(t, n)}), n, TimedOut(t), env, s, g);
      case Query(q, r, env) => SubmitOk(net, q, r, env, s, g);
      case Seed(n, isSelf, hash) =>
        InternOk(net, n, isSelf, s, g);
        VerifyOk(Intern(net, n, isSelf), n, hash, s, g);
      case PingNode(n, hash) => PingOk(net, n, hash, s, g);
    }
  }

  lemma {:induction false} RunOk(net: Net, steps: seq<Step>, net': Net, s: iset<(NodeId, Token)>, g: Hashes)
    requires AllOk(net, s, g) && Run(net, steps, net') && forall x :: x in steps ==> StepOk(g, x)
    requires forall n: NodeId, t: Token :: t == [] || WasPinged(net, steps, n, t) ==> (n, t) in s
    ensures AllOk(net', s, g)
    decreases |steps|
  {
    if steps != [] {
      NextOk(net, steps[0], s, g);
      RunOk(Next(net, steps[0]), steps[1..], net', s, g);
    }
  }

  /** No ping with an empty hash. */
  lemma {:induction false} PingedIsFull(net: Net, steps: seq<Step>, net': Net, s: iset<(NodeId, Token)>, g: Hashes,
                                        n: NodeId)
    requires AllOk(net, s, g) && Run(net, steps, net') && (forall x :: x in steps ==> StepOk(g, x)) && g.full
    requires forall k: NodeId, t: Token :: t == [] || WasPinged(net, steps, k, t) ==> (k, t) in s
    ensures !WasPinged(net, steps, n, [])
    decreases |steps|
  {
    if steps != [] {
      NextOk(net, steps[0], s, g);
      PingedIsFull(Next(net, steps[0]), steps[1..], net', s, g, n);
    }
  }

  // ----- whole runs

  /** The node has answered one of the pings sent to it in the run. */
  ghost predicate HasEchoed(self: NodeId, steps: seq<Step>, node: Node, n: NodeId) {
    exists t :: t in node.ponged && WasPinged(Start(self), steps, n, t)
  }

  /** The hashes sent in the run, and the empty token. */
  ghost function SentIn(self: NodeId, steps: seq<Step>): iset<(NodeId, Token)> {
    iset e: (NodeId, Token) | e.1 == [] || WasPinged(Start(self), steps, e.0, e.1)
  }

  lemma TokensWereSent(self: NodeId, steps: seq<Step>, net: Net, n: NodeId)
    requires Run(Start(self), steps, net) && n in net.nodes
    ensures forall t :: t in net.nodes[n].ponged && t != [] ==> WasPinged(Start(self), steps, n, t)
  {
    var s := SentIn(self, steps);
    RunOk(Start(self), steps, net, s, Hashes(false, false));
    assert EchoOk(net.nodes[n], n, s, Hashes(false, false));
  }

  /** Over every run in which no ping has an empty hash: a verified node has echoed a ping that was sent to
      it if and only if one of its accepted pongs had a token that is not empty. */
  lemma EchoedIff(self: NodeId, steps: seq<Step>, net: Net, n: NodeId)
    requires Run(Start(self), steps, net) && (forall s :: s in steps ==> StepOk(Hashes(true, false), s))
    requires n in net.nodes && Verified(net.nodes[n].state)
    ensures net.nodes[n].ponged != {}
    ensures HasEchoed(self, steps, net.nodes[n], n) <==> Echoed(net.nodes[n])
  {
    EveryNodeIsVerified(self, steps, net, n);
    TokensWereSent(self, steps, net, n);
    var s := SentIn(self, steps);
    PingedIsFull(Start(self), steps, net, s, Hashes(true, false), n);
  }

  /** If every ping is sent, and has a hash, then every verified node but one with our own ID has echoed a
      ping that was sent to it. */
  lemma VerifiedHasEchoed(self: NodeId, steps: seq<Step>, net: Net, n: NodeId)
    requires Run(Start(self), steps, net) && (forall s :: s in steps ==> StepOk(Hashes(true, true), s))
    requires n in net.nodes && Verified(net.nodes[n].state) && !net.nodes[n].isSelf
    ensures HasEchoed(self, steps, net.nodes[n], n)
  {
    TokensWereSent(self, steps, net, n);
    var s := SentIn(self, steps);
    RunOk(Start(self), steps, net, s, Hashes(true, true));
    assert EchoOk(net.nodes[n], n, s, Hashes(true, true));
  }

  /** A node becomes known although no ping was ever sent to it: the send failed, and a pong with an empty
      token passes the check. */
  lemma EmptyTokenVerifies() returns (steps: seq<Step>, net: Net)
    ensures Run(Start(0), steps, net) && 1 in net.nodes && net.nodes[1].state == Known && !net.nodes[1].isSelf
    ensures forall t :: !WasPinged(Start(0), steps, 1, t)
  {
    var env := Env(None, None);
    var s1, s2 := Packet(1, false, PingPacket, env), Packet(1, false, PongPacket([]), env);
    var n1 := Next(Start(0), s1);
    assert n1.nodes[1] == Node(VerifyWait, None, [], None, 0, false, {});
    net := Next(n1, s2);
    assert net.nodes[1] == Node(Known, None, [], None, 0, false, {[]});
    steps := [s1, s2];
    assert steps[1..] == [s2] && [s2][1..] == [];
    assert Run(n1, [s2], net);
    forall t ensures !WasPinged(Start(0), steps, 1, t) {
      assert !WasPinged(net, [], 1, t);
      assert !WasPinged(n1, [s2], 1, t);
    }
  }
}
