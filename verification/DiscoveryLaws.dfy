/** Which state a node is in after a step of the discovery loop (p2p/discv5/net.go): the event that each
    change of state needs, and the state that each event leads to. */
module DiscoveryLaws {
  import opened Common
  import opened Discovery

  function StateOf(net: Net, n: NodeId): NodeState
    requires n in net.nodes
  {
    net.nodes[n].state
  }

  /** The pong of a node we know passes: it repeats the hash of the outstanding ping, or is empty with no
      ping outstanding. */
  predicate PongFrom(net: Net, s: Step, n: NodeId) {
    && s.Packet? && s.n == n && n in net.nodes && s.ev.PongPacket?
    && (if net.nodes[n].pingEcho.Some? then s.ev.token == net.nodes[n].pingEcho.value else s.ev.token == [])
  }

  predicate PingFrom(s: Step, n: NodeId) { s.Packet? && s.n == n && s.ev.PingPacket? }

  predicate TimeoutOf(s: Step, t: Timer, n: NodeId) { s.Fire? && s.timer == t && s.n == n }

  /** A query of the node failed: its answer timed out, or a reply was for another topic. */
  predicate FailedQuery(s: Step, n: NodeId) {
    TimeoutOf(s, NeighboursTimeout, n) || (s.Packet? && s.n == n && s.ev.TopicNodesPacket? && s.ev.wrong)
  }

  /** The step makes node n known. */
  predicate MakesKnown(net: Net, s: Step, n: NodeId) {
    && n in net.nodes
    && match StateOf(net, n)
       case VerifyWait => PongFrom(net, s, n)
       case RemoteVerifyWait => TimeoutOf(s, PingTimeout, n)
       case Contested => PongFrom(net, s, n)
       case Unresponsive => PongFrom(net, s, n) || PingFrom(s, n)
       case _ => false
  }

  /** What the environment names as the last node of the full bucket. */
  function LastOf(s: Step): Option<NodeId> {
    match s
    case Packet(_, _, _, env) => env.last
    case Fire(_, _, env) => env.last
    case _ => None
  }

  /** The answer to the pending query of node n lists node k. */
  predicate Lists(net: Net, s: Step, n: NodeId, k: NodeId) {
    && s.Packet? && s.n == n && n in net.nodes && s.ev.NeighboursPacket?
    && CanQuery(StateOf(net, n)) && net.nodes[n].pending.Some?
    && exists f :: f in s.ev.found && f.accepted && f.id == k
  }

  /** The reason for each change of state. */
  predicate Cause(net: Net, s: Step, k: NodeId, a: NodeState, b: NodeState) {
    match b
    case Unknown => (a == VerifyInit || a == VerifyWait) && TimeoutOf(s, PongTimeout, k)
    case VerifyInit =>
      a == Unknown && ((s.Query? && s.r == k) || (s.Seed? && s.n == k) || (s.Packet? && Lists(net, s, s.n, k)))
    case VerifyWait => (a == Unknown || a == VerifyInit) && PingFrom(s, k)
    case RemoteVerifyWait => a == VerifyInit && PongFrom(net, s, k)
    case Known => MakesKnown(net, s, k) && LastOf(s) != Some(k)
    case Contested =>
      || (LastOf(s) == Some(k) && (MakesKnown(net, s, k) || (a == Known && MakesOtherKnown(net, s, k))))
      || (a == Known && FailedQuery(s, k) && k in net.nodes && net.nodes[k].queryTimeouts >= 5)
    case Unresponsive => a == Contested && TimeoutOf(s, PongTimeout, k)
  }

  predicate MakesOtherKnown(net: Net, s: Step, k: NodeId) {
    (s.Packet? || s.Fire?) && s.n != k && MakesKnown(net, s, s.n)
  }

  // ----- the parts of a transition

  lemma PingStates(net: Net, n: NodeId, hash: Option<Token>, k: NodeId)
    requires n in net.nodes
    ensures var a := Ping(net, n, hash);
            (k in a.nodes <==> k in net.nodes) && (k in net.nodes ==> StateOf(a, k) == StateOf(net, k))
  {
  }

  lemma EnterKnownStates(net: Net, n: NodeId, env: Env, k: NodeId)
    requires n in net.nodes
    ensures var a := EnterKnown(net, n, env.last, env.hash);
            && (k in a.nodes <==> k in net.nodes)
            && (k in net.nodes ==>
                  var was := if k == n then Known else StateOf(net, k);
                  StateOf(a, k) == if env.last == Some(k) && was == Known then Contested else was)
  {
    var a := StartNextQuery(Put(net, n, net.nodes[n].(state := Known, queryTimeouts := 0)), n);
    assert k in a.nodes <==> k in net.nodes;
    assert k in net.nodes ==> StateOf(a, k) == if k == n then Known else StateOf(net, k);
  }

  lemma VerifyStates(net: Net, n: NodeId, hash: Option<Token>, k: NodeId)
    requires n in net.nodes
    ensures var a := VerifyIfUnknown(net, n, hash);
            && (k in a.nodes <==> k in net.nodes)
            && (k in net.nodes ==>
                  StateOf(a, k) == if k == n && StateOf(net, n) == Unknown then VerifyInit else StateOf(net, k))
  {
  }

  lemma {:induction false} InternAllStates(net: Net, found: seq<Neighbour>, k: NodeId)
    ensures var a := InternAll(net, found);
            && (k in net.nodes ==> k in a.nodes)
            && (k in net.nodes && StateOf(net, k) != Unknown ==> StateOf(a, k) == StateOf(net, k))
            && (k in net.nodes && StateOf(a, k) != StateOf(net, k) ==>
                  StateOf(a, k) == VerifyInit && exists f :: f in found && f.accepted && f.id == k)
            && (forall f :: f in found && f.accepted && f.id == k ==> k in a.nodes && StateOf(a, k) != Unknown)
    decreases |found|
  {
    if found != [] {
      var f := found[0];
      if !f.accepted {
        InternAllStates(net, found[1..], k);
      } else {
        var a := Intern(net, f.id, false);
        var b := VerifyIfUnknown(a, f.id, f.hash);
        VerifyStates(a, f.id, f.hash, k);
        VerifyStates(a, f.id, f.hash, f.id);
        InternAllStates(b, found[1..], k);
      }
      assert forall g :: g in found <==> g == f || g in found[1..];
    }
  }

  lemma CountFailureStates(net: Net, n: NodeId, env: Env, k: NodeId)
    requires n in net.nodes
    ensures var a := CountFailure(net, n, env);
            && (k in a.nodes <==> k in net.nodes)
            && (k in net.nodes ==>
                  StateOf(a, k) == if k == n && StateOf(net, n) == Known && net.nodes[n].queryTimeouts >= 5
                                   then Contested else StateOf(net, k))
  {
  }

  lemma NeighboursStates(net: Net, n: NodeId, found: seq<Neighbour>, k: NodeId)
    requires n in net.nodes && StateOf(net, n) != Unknown
    ensures var a := HandleNeighbours(net, n, found);
            && (k in net.nodes ==> k in a.nodes)
            && (k in net.nodes && StateOf(net, k) != Unknown ==> StateOf(a, k) == StateOf(net, k))
            && (k in net.nodes && StateOf(a, k) != StateOf(net, k) ==>
                  && StateOf(a, k) == VerifyInit && net.nodes[n].pending.Some?
                  && exists f :: f in found && f.accepted && f.id == k)
            && (net.nodes[n].pending.Some? ==>
                  forall f :: f in found && f.accepted && f.id == k ==> k in a.nodes && StateOf(a, k) != Unknown)
  {
    if net.nodes[n].pending.Some? {
      InternAllStates(net, found, k);
      InternAllStates(net, found, n);
    }
  }

  // ----- what each event leads to

  /** An accepted pong: under verification it leads on, and a node that was doubted is known again. */
  lemma AcceptedPong(net: Net, s: Step, n: NodeId)
    requires Enabled(net, s) && PongFrom(net, s, n)
    ensures var a, b := StateOf(net, n), Next(net, s);
            && n in b.nodes
            && StateOf(b, n) ==
                 if a == VerifyInit then RemoteVerifyWait
                 else if a == VerifyWait || a == Contested || a == Unresponsive then
                   (if s.env.last == Some(n) then Contested else Known)
                 else a
    ensures var b := Next(net, s);
            StateOf(net, n) != Unknown && StateOf(net, n) != RemoteVerifyWait && s.env.last != Some(n) ==>
              b.nodes[n].pingEcho == None && (PongTimeout, n) !in b.timers
  {
    var c := Put(net, n, Accept(net.nodes[n], s.ev.token));
    EnterKnownStates(HandleKnownPong(c, n), n, s.env, n);
  }

  /** A pong that does not pass changes nothing, except that an unseen node is interned. */
  lemma RefusedPong(net: Net, s: Step)
    requires Enabled(net, s) && s.Packet? && s.ev.PongPacket? && !PongFrom(net, s, s.n)
    ensures s.n in net.nodes ==> Next(net, s) == net
    ensures forall k :: k in net.nodes ==> k in Next(net, s).nodes && StateOf(Next(net, s), k) == StateOf(net, k)
  {
  }

  /** A ping of the other side. */
  lemma PingReceived(net: Net, s: Step, n: NodeId)
    requires Enabled(net, s) && PingFrom(s, n)
    ensures var a, b := if n in net.nodes then StateOf(net, n) else Unknown, Next(net, s);
            && n in b.nodes
            && StateOf(b, n) ==
                 if a == Unknown || a == VerifyInit then VerifyWait
                 else if a == Unresponsive then (if s.env.last == Some(n) then Contested else Known)
                 else a
  {
    var c := Intern(net, n, s.isSelf);
    PingStates(c, n, s.env.hash, n);
    EnterKnownStates(c, n, s.env, n);
  }

  /** No pong came: verification has failed, and a contested node does not respond. */
  lemma PongTimedOut(net: Net, s: Step, n: NodeId)
    requires Enabled(net, s) && TimeoutOf(s, PongTimeout, n)
    ensures var a, b := StateOf(net, n), Next(net, s);
            && n in b.nodes
            && StateOf(b, n) ==
                 if a == VerifyInit || a == VerifyWait then Unknown else if a == Contested then Unresponsive else a
  {
  }

  /** The other side had time to verify us. */
  lemma PingTimedOut(net: Net, s: Step, n: NodeId)
    requires Enabled(net, s) && TimeoutOf(s, PingTimeout, n)
    ensures var a, b := StateOf(net, n), Next(net, s);
            && n in b.nodes
            && StateOf(b, n) ==
                 if a != RemoteVerifyWait then a else if s.env.last == Some(n) then Contested else Known
  {
    if StateOf(net, n) == RemoteVerifyWait {
      EnterKnownStates(net.(timers := net.timers - {(PingTimeout, n)}), n, s.env, n);
    }
  }

  /** The sixth failed query in a row makes a known node contested. */
  lemma QueryTimedOut(net: Net, s: Step, n: NodeId)
    requires Enabled(net, s) && TimeoutOf(s, NeighboursTimeout, n)
    ensures var a, b := StateOf(net, n), Next(net, s);
            && n in b.nodes && StateOf(b, n) == (if a == Known && net.nodes[n].queryTimeouts >= 5 then Contested else a)
            && (CanQuery(a) ==> b.nodes[n].queryTimeouts == net.nodes[n].queryTimeouts + 1)
  {
    var c := net.(timers := net.timers - {(NeighboursTimeout, n)});
    if CanQuery(StateOf(net, n)) {
      NeighboursTimeoutHandled(c, n, s.env);
      CountFailureStates(AnswerPending(c, n), n, s.env, n);
    }
  }

  /** A reply for another topic counts as a failed query. */
  lemma WrongTopic(net: Net, s: Step, n: NodeId)
    requires Enabled(net, s) && s.Packet? && s.n == n && FailedQuery(s, n) && n in net.nodes
    requires CanQuery(StateOf(net, n))
    ensures var b := Next(net, s);
            && n in b.nodes && b.nodes[n].queryTimeouts == net.nodes[n].queryTimeouts + 1
            && StateOf(b, n) ==
                 if StateOf(net, n) == Known && net.nodes[n].queryTimeouts >= 5 then Contested else StateOf(net, n)
  {
  }

  /** A node that becomes known starts with no failed query. */
  lemma KnownStartsAfresh(net: Net, s: Step, n: NodeId)
    requires Enabled(net, s) && MakesKnown(net, s, n)
    ensures n in Next(net, s).nodes && Next(net, s).nodes[n].queryTimeouts == 0
  {
    if s.Fire? {
      EnterKnownAfresh(net.(timers := net.timers - {(s.timer, n)}), n, s.env);
    } else if s.ev.PongPacket? {
      EnterKnownAfresh(HandleKnownPong(Put(net, n, Accept(net.nodes[n], s.ev.token)), n), n, s.env);
    } else {
      EnterKnownAfresh(net, n, s.env);
    }
  }

  lemma EnterKnownAfresh(net: Net, n: NodeId, env: Env)
    requires n in net.nodes
    ensures var a := EnterKnown(net, n, env.last, env.hash); n in a.nodes && a.nodes[n].queryTimeouts == 0
  {
    var a := StartNextQuery(Put(net, n, net.nodes[n].(state := Known, queryTimeouts := 0)), n);
    assert n in a.nodes && a.nodes[n].queryTimeouts == 0;
  }

  /** The last node of the bucket, if it is known, is contested by every node that becomes known. */
  lemma LastIsContested(net: Net, s: Step, n: NodeId, k: NodeId)
    requires Enabled(net, s) && (s.Packet? || s.Fire?) && s.n == n && MakesKnown(net, s, n)
    requires k != n && k in net.nodes && StateOf(net, k) == Known && LastOf(s) == Some(k)
    ensures k in Next(net, s).nodes && StateOf(Next(net, s), k) == Contested
  {
    if s.Fire? {
      EnterKnownStates(net.(timers := net.timers - {(s.timer, n)}), n, s.env, k);
    } else if s.ev.PongPacket? {
      EnterKnownStates(HandleKnownPong(Put(net, n, Accept(net.nodes[n], s.ev.token)), n), n, s.env, k);
    } else {
      EnterKnownStates(net, n, s.env, k);
    }
  }

  /** The answer to a query: every node that it lists and that is accepted is interned and under
      verification or beyond. */
  lemma ListedIsVerified(net: Net, s: Step, n: NodeId, k: NodeId)
    requires Enabled(net, s) && Lists(net, s, n, k)
    ensures k in Next(net, s).nodes && StateOf(Next(net, s), k) != Unknown
  {
    NeighboursStates(net, n, s.ev.found, k);
  }

  /** A query or a seed starts the verification of an unknown node. */
  lemma AskedIsVerified(net: Net, s: Step, n: NodeId)
    requires Enabled(net, s) && ((s.Query? && s.r == n && n != net.self) || (s.Seed? && s.n == n))
    ensures var b := Next(net, s);
            && n in b.nodes
            && StateOf(b, n) ==
                 if n !in net.nodes || StateOf(net, n) == Unknown then VerifyInit else StateOf(net, n)
  {
  }

  /** Where a new query goes: answered at once if it is for ourselves, sent if its node can take it, and
      otherwise behind the queries that already wait there. */
  lemma NewQuery(net: Net, q: QueryId, r: NodeId, env: Env)
    requires Enabled(net, Query(q, r, env))
    ensures var b := Next(net, Query(q, r, env));
            if r == net.self then b.answers == net.answers + multiset{q} && b.nodes == net.nodes
            else
              && r in b.nodes && b.answers == net.answers
              && if CanQuery(StateOf(net, r)) && net.nodes[r].pending.None?
                 then b.nodes[r].pending == Some(q) && b.nodes[r].deferred == net.nodes[r].deferred
                      && (NeighboursTimeout, r) in b.timers
                 else b.nodes[r].pending == net.nodes[r].pending && b.nodes[r].deferred == net.nodes[r].deferred + [q]
  {
  }

  /** The answer to the pending query: it is answered, and the query that has waited longest is sent. */
  lemma AnswerReceived(net: Net, s: Step, n: NodeId)
    requires Inv(net) && Enabled(net, s) && s.Packet? && s.n == n && n in net.nodes && s.ev.NeighboursPacket?
    requires net.nodes[n].pending.Some?
    ensures var b, waiting := Next(net, s), net.nodes[n].deferred;
            && n in b.nodes && b.answers == net.answers + multiset{net.nodes[n].pending.value}
            && b.nodes[n].pending == (if waiting == [] then None else Some(waiting[0]))
            && b.nodes[n].deferred == (if waiting == [] then [] else waiting[1..])
  {
    assert LocalOk(net.nodes[n], net.timers, n);
    InternAllKeepsNode(net, s.ev.found, n);
  }

  lemma {:induction false} InternAllKeepsNode(net: Net, found: seq<Neighbour>, n: NodeId)
    requires n in net.nodes && StateOf(net, n) != Unknown
    ensures var a := InternAll(net, found); n in a.nodes && a.nodes[n] == net.nodes[n] && a.answers == net.answers
    decreases |found|
  {
    if found != [] {
      if !found[0].accepted {
        InternAllKeepsNode(net, found[1..], n);
      } else {
        var a := VerifyIfUnknown(Intern(net, found[0].id, false), found[0].id, found[0].hash);
        assert a.nodes[n] == net.nodes[n] && a.answers == net.answers;
        InternAllKeepsNode(a, found[1..], n);
      }
    }
  }

  // ----- every change of state

  lemma OtherPong(net: Net, s: Step, k: NodeId)
    requires Enabled(net, s) && s.Packet? && s.ev.PongPacket? && PongFrom(net, s, s.n) && k in net.nodes && k != s.n
    ensures var b := Next(net, s);
            && k in b.nodes
            && (StateOf(b, k) == StateOf(net, k) || Cause(net, s, k, StateOf(net, k), StateOf(b, k)))
  {
    var c := Put(net, s.n, Accept(net.nodes[s.n], s.ev.token));
    EnterKnownStates(HandleKnownPong(c, s.n), s.n, s.env, k);
  }

  lemma OtherPing(net: Net, s: Step, k: NodeId)
    requires Enabled(net, s) && s.Packet? && s.ev.PingPacket? && k in net.nodes && k != s.n
    ensures var b := Next(net, s);
            && k in b.nodes
            && (StateOf(b, k) == StateOf(net, k) || Cause(net, s, k, StateOf(net, k), StateOf(b, k)))
  {
    var c := Intern(net, s.n, s.isSelf);
    PingStates(c, s.n, s.env.hash, k);
    EnterKnownStates(c, s.n, s.env, k);
  }

  lemma PongChange(net: Net, s: Step, k: NodeId)
    requires Enabled(net, s) && s.Packet? && s.ev.PongPacket? && k in net.nodes
    ensures var b := Next(net, s);
            && k in b.nodes
            && (StateOf(b, k) == StateOf(net, k) || Cause(net, s, k, StateOf(net, k), StateOf(b, k)))
  {
    if !PongFrom(net, s, s.n) { RefusedPong(net, s); }
    else if k == s.n { AcceptedPong(net, s, k); }
    else { OtherPong(net, s, k); }
  }

  lemma PingChange(net: Net, s: Step, k: NodeId)
    requires Enabled(net, s) && s.Packet? && s.ev.PingPacket? && k in net.nodes
    ensures var b := Next(net, s);
            && k in b.nodes
            && (StateOf(b, k) == StateOf(net, k) || Cause(net, s, k, StateOf(net, k), StateOf(b, k)))
  {
    if k == s.n { PingReceived(net, s, k); } else { OtherPing(net, s, k); }
  }

  lemma QueryPackets(net: Net, s: Step, k: NodeId)
    requires Enabled(net, s) && s.Packet? && !s.ev.PingPacket? && !s.ev.PongPacket? && k in net.nodes
    ensures var b := Next(net, s);
            && k in b.nodes
            && (StateOf(b, k) == StateOf(net, k) || Cause(net, s, k, StateOf(net, k), StateOf(b, k)))
  {
    var c := Intern(net, s.n, s.isSelf);
    if CanQuery(StateOf(c, s.n)) {
      CountFailureStates(c, s.n, s.env, k);
      if s.ev.NeighboursPacket? { NeighboursStates(c, s.n, s.ev.found, k); }
    }
  }

  lemma OtherTimeout(net: Net, s: Step, k: NodeId)
    requires Enabled(net, s) && s.Fire? && k in net.nodes && k != s.n
    ensures var b := Next(net, s);
            && k in b.nodes
            && (StateOf(b, k) == StateOf(net, k) || Cause(net, s, k, StateOf(net, k), StateOf(b, k)))
  {
    var c := net.(timers := net.timers - {(s.timer, s.n)});
    if CanQuery(StateOf(net, s.n)) {
      TimeoutElsewhere(c, s.timer, s.n, s.env, k);
    } else {
      EnterKnownStates(c, s.n, s.env, k);
    }
  }

  /** No node changes its state in a step without the reason that the source gives for the change; and no
      node is forgotten. */
  lemma EveryChangeHasItsCause(net: Net, s: Step, k: NodeId)
    requires Enabled(net, s) && k in net.nodes
    ensures var b := Next(net, s);
            && k in b.nodes
            && (StateOf(b, k) == StateOf(net, k) || Cause(net, s, k, StateOf(net, k), StateOf(b, k)))
  {
    match s {
      case Packet(n, _, ev, _) =>
        if ev.PongPacket? { PongChange(net, s, k); }
        else if ev.PingPacket? { PingChange(net, s, k); }
        else { QueryPackets(net, s, k); }
      case Fire(t, n, _) =>
        if k != n { OtherTimeout(net, s, k); }
        else if t == PongTimeout { PongTimedOut(net, s, n); }
        else if t == PingTimeout { PingTimedOut(net, s, n); }
        else { QueryTimedOut(net, s, n); }
      case Query(q, r, env) => if k == r && r != net.self { AskedIsVerified(net, s, k); }
      case Seed(n, _, _) => if k == n { AskedIsVerified(net, s, k); }
      case PingNode(n, hash) => PingStates(net, n, hash, k);
    }
  }
}
