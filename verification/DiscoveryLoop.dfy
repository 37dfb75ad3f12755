/** The main loop's handlers of p2p/discv5/net.go as they update the network in place, each proved to
    do what the step functions of Discovery say. */
module DiscoveryLoop {
  import opened Common
  import opened Discovery

  class Network {
    const self: NodeId
    var nodes: map<NodeId, Node>
    var timers: set<(Timer, NodeId)>
    var answers: multiset<QueryId>
    ghost var remote: map<QueryId, NodeId>

    ghost function View(): Net
      reads this
    {
      Net(self, nodes, timers, remote, answers)
    }

    constructor (self: NodeId)
      ensures View() == Start(self)
    {
      this.self := self;
      nodes, timers, answers, remote := map[], {}, multiset{}, map[];
    }

    method SendPing(n: NodeId, hash: Option<Token>)
      requires n in nodes
      modifies this`nodes, this`timers
      ensures View() == Ping(old(View()), n, hash)
    {
      if nodes[n].pingEcho.Some? || nodes[n].isSelf {
        return;
      }
      nodes := nodes[n := nodes[n].(pingEcho := hash)];
      timers := timers + {(PongTimeout, n)};
    }

    /** Entering unknown: every query the node holds is answered with nothing. */
    method AbortQueries(n: NodeId)
      requires n in nodes
      modifies this`nodes, this`answers
      ensures View() == EnterUnknown(old(View()), n)
    {
      var node := nodes[n];
      var qs := node.deferred;
      for i := 0 to |qs|
        invariant nodes == old(nodes) && answers == old(answers) + multiset(qs[..i])
      {
        answers := answers + multiset{qs[i]};
        assert qs[..i + 1] == qs[..i] + [qs[i]];
      }
      assert qs[..|qs|] == qs;
      if node.pending.Some? {
        answers := answers + multiset{node.pending.value};
      }
      assert answers == old(answers) + Held(node);
      nodes := nodes[n := Node(Unknown, None, [], None, 0, node.isSelf, {})];
    }

    method StartNext(n: NodeId)
      requires n in nodes
      modifies this`nodes, this`timers
      ensures View() == StartNextQuery(old(View()), n)
    {
      var node := nodes[n];
      if |node.deferred| == 0 {
        return;
      }
      if CanQuery(node.state) && node.pending.None? {
        timers := timers + {(NeighboursTimeout, n)};
        nodes := nodes[n := node.(pending := Some(node.deferred[0]), deferred := node.deferred[1..])];
      }
    }

    method TransitionTo(n: NodeId, next: NodeState, env: Env)
      requires n in nodes
      modifies this`nodes, this`timers, this`answers
      ensures View() == Transition(old(View()), n, next, env)
    {
      if nodes[n].state == next {
        return;
      }
      match next {
        case Unknown => AbortQueries(n);
        case VerifyInit =>
          nodes := nodes[n := nodes[n].(state := VerifyInit)];
          SendPing(n, env.hash);
        case VerifyWait => nodes := nodes[n := nodes[n].(state := VerifyWait)];
        case RemoteVerifyWait =>
          nodes := nodes[n := nodes[n].(state := RemoteVerifyWait)];
          timers := timers + {(PingTimeout, n)};
        case Known => BecomeKnown(n, env);
        case Contested => Contest(n, env.hash);
        case Unresponsive => nodes := nodes[n := nodes[n].(state := Unresponsive)];
      }
    }

    method Contest(n: NodeId, hash: Option<Token>)
      requires n in nodes
      modifies this`nodes, this`timers
      ensures View() == EnterContested(old(View()), n, hash)
    {
      nodes := nodes[n := nodes[n].(state := Contested)];
      SendPing(n, hash);
    }

    /** Entering known: the next query goes out, and a full bucket contests its last node. */
    method BecomeKnown(n: NodeId, env: Env)
      requires n in nodes
      modifies this`nodes, this`timers
      ensures View() == EnterKnown(old(View()), n, env.last, env.hash)
    {
      nodes := nodes[n := nodes[n].(state := Known, queryTimeouts := 0)];
      StartNext(n);
      if env.last.Some? && env.last.value in nodes && nodes[env.last.value].state == Known {
        Contest(env.last.value, env.hash);
      }
    }

    method SubmitQuery(q: QueryId, r: NodeId, env: Env)
      requires r == self || r in nodes
      modifies this
      ensures View() == Submit(old(View()), q, r, env)
    {
      remote := remote[q := r];
      if r == self {
        answers := answers + multiset{q};
        return;
      }
      var node := nodes[r];
      if CanQuery(node.state) && node.pending.None? {
        timers := timers + {(NeighboursTimeout, r)};
        nodes := nodes[r := node.(pending := Some(q))];
        return;
      }
      if node.state == Unknown {
        TransitionTo(r, VerifyInit, env);
      }
      nodes := nodes[r := nodes[r].(deferred := nodes[r].deferred + [q])];
    }

    method InternNode(n: NodeId, isSelf: bool)
      modifies this`nodes
      ensures View() == Intern(old(View()), n, isSelf)
    {
      if n !in nodes {
        nodes := nodes[n := Node(Unknown, None, [], None, 0, isSelf, {})];
      }
    }

    method StartVerification(n: NodeId, hash: Option<Token>)
      requires n in nodes
      modifies this`nodes, this`timers, this`answers
      ensures View() == VerifyIfUnknown(old(View()), n, hash)
    {
      if nodes[n].state == Unknown {
        TransitionTo(n, VerifyInit, Env(hash, None));
      }
    }

    /** The loop over the entries of a neighbours packet. */
    method InternFound(found: seq<Neighbour>)
      modifies this`nodes, this`timers, this`answers
      ensures View() == InternAll(old(View()), found)
    {
      for i := 0 to |found|
        invariant remote == old(remote)
        invariant InternAll(old(View()), found) == InternAll(View(), found[i..])
      {
        assert found[i..][0] == found[i] && found[i..][1..] == found[i + 1..];
        if found[i].accepted {
          InternNode(found[i].id, false);
          StartVerification(found[i].id, found[i].hash);
        }
      }
    }

    method ReplyPending(n: NodeId)
      requires n in nodes
      modifies this`nodes, this`answers
      ensures View() == AnswerPending(old(View()), n)
    {
      var node := nodes[n];
      if node.pending.Some? {
        answers := answers + multiset{node.pending.value};
        nodes := nodes[n := node.(pending := None)];
      }
    }

    method NeighboursReceived(n: NodeId, found: seq<Neighbour>)
      requires n in nodes
      modifies this`nodes, this`timers, this`answers
      ensures View() == HandleNeighbours(old(View()), n, found)
    {
      if nodes[n].pending.None? {
        return;
      }
      InternAllVerified(View(), found);
      InternFound(found);
      ReplyPending(n);
      timers := timers - {(NeighboursTimeout, n)};
      StartNext(n);
    }

    method RecordFailure(n: NodeId, env: Env)
      requires n in nodes
      modifies this`nodes, this`timers
      ensures View() == CountFailure(old(View()), n, env)
    {
      nodes := nodes[n := nodes[n].(queryTimeouts := nodes[n].queryTimeouts + 1)];
      if nodes[n].queryTimeouts > MAX_FINDNODE_FAILURES && nodes[n].state == Known {
        Contest(n, env.hash);
      }
    }

    method QueryEvent(n: NodeId, ev: Event, env: Env)
      requires n in nodes
      modifies this`nodes, this`timers, this`answers
      ensures View() == HandleQueryEvent(old(View()), n, ev, env)
    {
      match ev {
        case NeighboursPacket(found) => NeighboursReceived(n, found);
        case TopicNodesPacket(wrong) =>
          if wrong {
            RecordFailure(n, env);
          }
        case TimedOut(NeighboursTimeout) =>
          ReplyPending(n);
          RecordFailure(n, env);
        case _ =>
      }
    }

    method PongReceived(n: NodeId)
      requires n in nodes
      modifies this`nodes, this`timers
      ensures View() == HandleKnownPong(old(View()), n)
    {
      timers := timers - {(PongTimeout, n)};
      nodes := nodes[n := nodes[n].(pingEcho := None)];
    }

    /** The handlers of the states in which a node cannot be queried. */
    method VerificationEvent(n: NodeId, ev: Event, env: Env)
      requires n in nodes && !CanQuery(nodes[n].state)
      modifies this`nodes, this`timers, this`answers
      ensures View() == StateHandle(old(View()), n, ev, env)
    {
      var next := nodes[n].state;
      match next {
        case Unknown =>
          if ev.PingPacket? {
            SendPing(n, env.hash);
            next := VerifyWait;
          }
        case VerifyInit =>
          if ev.PingPacket? {
            next := VerifyWait;
          } else if ev.PongPacket? {
            PongReceived(n);
            next := RemoteVerifyWait;
          } else if ev == TimedOut(PongTimeout) {
            next := Unknown;
          }
        case VerifyWait =>
          if ev.PongPacket? {
            PongReceived(n);
            next := Known;
          } else if ev == TimedOut(PongTimeout) {
            next := Unknown;
          }
        case RemoteVerifyWait =>
          if ev == TimedOut(PingTimeout) {
            next := Known;
          }
      }
      TransitionTo(n, next, env);
    }

    /** The handlers of known, contested and unresponsive. */
    method KnownEvent(n: NodeId, ev: Event, env: Env)
      requires n in nodes && CanQuery(nodes[n].state)
      modifies this`nodes, this`timers, this`answers
      ensures View() == StateHandle(old(View()), n, ev, env)
    {
      var state := nodes[n].state;
      if ev.PongPacket? {
        PongReceived(n);
        TransitionTo(n, Known, env);
      } else if ev.PingPacket? {
        if state == Unresponsive {
          TransitionTo(n, Known, env);
        }
      } else if state == Contested && ev == TimedOut(PongTimeout) {
        TransitionTo(n, Unresponsive, env);
      } else {
        QueryEvent(n, ev, env);
      }
    }

    method HandleEvent(n: NodeId, ev: Event, env: Env)
      requires n in nodes
      modifies this`nodes, this`timers, this`answers
      ensures View() == Handle(old(View()), n, ev, env)
    {
      var node := nodes[n];
      if ev.PongPacket? {
        if !TokenMatches(node, ev.token) {
          return;
        }
        nodes := nodes[n := Accept(node, ev.token)];
      }
      if CanQuery(node.state) {
        KnownEvent(n, ev, env);
      } else {
        VerificationEvent(n, ev, env);
      }
    }

    /** One turn of the main loop: it does what Next says, so everything proved of runs holds of it. */
    method Turn(s: Step)
      requires Enabled(View(), s)
      modifies this
      ensures View() == Next(old(View()), s)
      ensures Inv(old(View())) ==> Inv(View())
    {
      if Inv(View()) { StepKeepsInv(View(), s); }
      match s {
        case Packet(n, isSelf, ev, env) =>
          InternNode(n, isSelf);
          HandleEvent(n, ev, env);
        case Fire(t, n, env) =>
          timers := timers - {(t, n)};
          HandleEvent(n, TimedOut(t), env);
        case Query(q, r, env) => SubmitQuery(q, r, env);
        case Seed(n, isSelf, hash) =>
          InternNode(n, isSelf);
          StartVerification(n, hash);
        case PingNode(n, hash) => SendPing(n, hash);
      }
    }
  }
}
