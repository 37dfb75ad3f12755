/** One-to-many event feed under every interleaving of Send, Subscribe and Unsubscribe
    (event/feed.go).  Steps are the stretches of code that run under the mutex, under the send lock,
    or as one channel operation. */
module Feed {
  import opened Common

  /** A channel's identity.  REMOVE_SUB is the feed's private channel for removal requests. */
  type Chan = nat
  const REMOVE_SUB: Chan := 0

  /** Where a Send is: none in progress, in the fast path at case i, or blocked in the select. */
  datatype Phase = Idle | Fast(i: nat) | Blocked

  /** What one finished Send did: the subscriptions at its start, those removed before they were
      served, the deliveries made, and the count returned. */
  datatype Report = Report(initial: multiset<Chan>, dropped: multiset<Chan>, delivered: multiset<Chan>, nsent: nat)

  /** `active` is the length of the slice `cases`, a prefix of sendCases in the same memory.
      `live` counts the subscriptions whose removal has not completed, `removing` those whose
      Unsubscribe waits in its select. */
  datatype State = State(
    inbox: seq<Chan>, sendCases: seq<Chan>, phase: Phase, active: nat, current: Report,
    live: multiset<Chan>, removing: multiset<Chan>, log: seq<Report>)

  const NO_REPORT := Report(multiset{}, multiset{}, multiset{}, 0)
  const INIT := State([], [REMOVE_SUB], Idle, 0, NO_REPORT, multiset{}, multiset{}, [])

  datatype Action =
    | Subscribe(ch: Chan)
    | Unsubscribe(ch: Chan)
    | RemoveUnderLock(ch: Chan)
    | SendBegin
    | TrySend(ok: bool)
    | Block
    | SelectSend(chosen: nat)
    | SelectRemove(ch: Chan)
    | SendEnd

  /** The position of the first case with the channel, or None. */
  function Find(cs: seq<Chan>, ch: Chan): (r: Option<nat>)
    ensures r.Some? ==> r.value < |cs| && cs[r.value] == ch && ch !in cs[..r.value]
    ensures r.None? ==> ch !in cs
  {
    if cs == [] then None
    else if cs[0] == ch then Some(0)
    else
      var rest := Find(cs[1..], ch);
      assert cs == [cs[0]] + cs[1..];
      assert rest.Some? ==> cs[..rest.value + 1] == [cs[0]] + cs[1..][..rest.value];
      if rest.None? then None else Some(rest.value + 1)
  }

  function Delete(cs: seq<Chan>, i: nat): seq<Chan>
    requires i < |cs|
  {
    cs[..i] + cs[i + 1..]
  }

  /** Swap case i with the last active one; the slice then shrinks by one. */
  function Deactivate(cs: seq<Chan>, i: nat, active: nat): seq<Chan>
    requires i < active <= |cs|
  {
    cs[i := cs[active - 1]][active - 1 := cs[i]]
  }

  /** The subscriptions among the cases: all but the first, which is the removal channel. */
  ghost function Subs(cs: seq<Chan>): multiset<Chan> {
    if cs == [] then multiset{} else multiset(cs[1..])
  }

  predicate Sending(s: State) { !s.phase.Idle? }

  /** When a step can be taken. */
  ghost predicate Enabled(s: State, a: Action) {
    match a
    case Subscribe(ch) => ch != REMOVE_SUB
    case Unsubscribe(ch) => s.removing[ch] < s.live[ch]
    case RemoveUnderLock(ch) => ch in s.removing && s.phase.Idle?
    case SendBegin => s.phase.Idle?
    case TrySend(_) => s.phase.Fast? && s.phase.i < s.active
    case Block => s.phase.Fast? && s.phase.i >= s.active && s.active != 1
    case SelectSend(k) => s.phase.Blocked? && 1 <= k < s.active
    case SelectRemove(ch) => ch in s.removing && s.phase.Blocked?
    case SendEnd => s.phase.Fast? && s.phase.i >= s.active && s.active == 1
  }

  function Served(s: State, i: nat): State
    requires i < s.active <= |s.sendCases|
  {
    s.(sendCases := Deactivate(s.sendCases, i, s.active), active := s.active - 1,
       current := s.current.(delivered := s.current.delivered + multiset{s.sendCases[i]}, nsent := s.current.nsent + 1))
  }

  /** Case i, of a channel whose removal was asked for, goes. */
  function Without(s: State, ch: Chan, i: nat): State
    requires i < |s.sendCases|
  {
    s.(sendCases := Delete(s.sendCases, i), live := s.live - multiset{ch}, removing := s.removing - multiset{ch})
  }

  function Dropping(r: Report, ch: Chan): Report {
    Report(r.initial, r.dropped + multiset{ch}, r.delivered, r.nsent)
  }

  /** The slice loses a case that was still active, and the fast path starts again. */
  function Shrunk(s: State, ch: Chan, i: nat): State {
    s.(phase := Fast(1), active := if i < s.active then s.active - 1 else s.active,
       current := if i < s.active then Dropping(s.current, ch) else s.current)
  }

  /** A removal request received by a Send. */
  function CutOut(s: State, ch: Chan, i: nat): State
    requires i < |s.sendCases|
  {
    Shrunk(Without(s, ch, i), ch, i)
  }

  /** The effect of a step.  A failed search in sendCases (which never happens) leaves them alone. */
  ghost function Next(s: State, a: Action): State {
    match a
    case Subscribe(ch) => s.(inbox := s.inbox + [ch], live := s.live + multiset{ch})
    case Unsubscribe(ch) =>
      var f := Find(s.inbox, ch);
      if f.Some? then s.(inbox := Delete(s.inbox, f.value), live := s.live - multiset{ch})
      else s.(removing := s.removing + multiset{ch})
    case RemoveUnderLock(ch) =>
      var f := Find(s.sendCases, ch);
      if f.Some? then Without(s, ch, f.value) else s
    case SendBegin =>
      var cs := s.sendCases + s.inbox;
      s.(sendCases := cs, inbox := [], phase := Fast(1), active := |cs|,
         current := Report(Subs(cs), multiset{}, multiset{}, 0))
    case TrySend(ok) =>
      if !s.phase.Fast? then s
      else if !ok || !(s.phase.i < s.active <= |s.sendCases|) then s.(phase := Fast(s.phase.i + 1))
      else Served(s, s.phase.i)
    case Block => s.(phase := Blocked)
    case SelectSend(k) =>
      if !(k < s.active <= |s.sendCases|) then s else Served(s, k).(phase := Fast(1))
    case SelectRemove(ch) =>
      var f := Find(s.sendCases, ch);
      if f.Some? then CutOut(s, ch, f.value) else s
    case SendEnd => s.(phase := Idle, log := s.log + [s.current])
  }

  // ----- what every step keeps

  /** The slice is split into the removal channel, the cases still to be served, and the served ones;
      every subscription present at the start of the Send is accounted for exactly once. */
  ghost predicate Split(cs: seq<Chan>, active: nat, cur: Report) {
    && 1 <= active <= |cs|
    && cur.delivered + cur.dropped + Subs(cs[..active]) == cur.initial
    && multiset(cs[active..]) <= cur.delivered
    && cur.nsent == |cur.delivered|
  }

  /** Every live subscription is in the inbox or among the send cases; waiting removals are for
      channels among the send cases. */
  ghost predicate Placed(cs: seq<Chan>, inbox: seq<Chan>, live: multiset<Chan>, removing: multiset<Chan>) {
    && cs != [] && cs[0] == REMOVE_SUB && REMOVE_SUB !in Subs(cs) && REMOVE_SUB !in inbox
    && live == multiset(inbox) + Subs(cs)
    && removing <= Subs(cs)
  }

  ghost predicate PhaseInv(p: Phase, active: nat) {
    && (p.Fast? ==> p.i >= 1)
    && (p.Blocked? ==> active > 1)
  }

  /** A finished Send delivered once to each subscription present at its start and not removed before
      its turn, to no other, and counted its deliveries. */
  ghost predicate Faithful(r: Report) {
    && r.delivered == r.initial - r.dropped && r.dropped <= r.initial
    && r.nsent == |r.delivered|
  }

  ghost predicate Inv(s: State) {
    && Placed(s.sendCases, s.inbox, s.live, s.removing)
    && PhaseInv(s.phase, s.active)
    && (Sending(s) ==> Split(s.sendCases, s.active, s.current))
    && forall r :: r in s.log ==> Faithful(r)
  }

  /** A removal that waits always finds its channel among the send cases, behind the first. */
  lemma RemovalFinds(s: State, ch: Chan)
    requires Inv(s) && ch in s.removing
    ensures Find(s.sendCases, ch).Some? && Find(s.sendCases, ch).value >= 1
  {
    assert ch in Subs(s.sendCases);
    assert ch in s.sendCases[1..];
  }

  lemma DeleteOne(a: seq<Chan>, i: nat)
    requires i < |a|
    ensures multiset(Delete(a, i)) == multiset(a) - multiset{a[i]} && a[i] in multiset(a)
  {
    assert a == a[..i] + [a[i]] + a[i + 1..];
  }

  lemma DeleteSubs(cs: seq<Chan>, i: nat)
    requires 1 <= i < |cs|
    ensures Subs(Delete(cs, i)) == Subs(cs) - multiset{cs[i]} && cs[i] in Subs(cs)
    ensures Delete(cs, i) != [] && Delete(cs, i)[0] == cs[0]
  {
    DeleteOne(cs[1..], i - 1);
    assert Delete(cs, i)[1..] == Delete(cs[1..], i - 1);
  }

  /** `b` is `a` with the last element moved into place i. */
  ghost predicate SwappedOut(a: seq<Chan>, b: seq<Chan>, i: nat)
    requires i < |a|
  {
    |b| == |a| - 1 && forall k :: 0 <= k < |b| ==> b[k] == if k == i then a[|a| - 1] else a[k]
  }

  /** Moving the last element into place i and cutting the end removes one occurrence of element i. */
  lemma SwapOut(a: seq<Chan>, b: seq<Chan>, i: nat)
    requires i < |a| && SwappedOut(a, b, i)
    ensures multiset(b) == multiset(a) - multiset{a[i]} && a[i] in multiset(a)
  {
    var n := |a| - 1;
    assert a == a[..n] + [a[n]];
    if i < n {
      assert b == a[..n][i := a[n]];
    } else {
      assert b == a[..n];
    }
  }

  lemma PrefixWithout(p: seq<Chan>, d: seq<Chan>, i: nat)
    requires 1 <= i < |p| && SwappedOut(p, d, i)
    ensures Subs(d) == Subs(p) - multiset{p[i]} && p[i] in Subs(p)
  {
    SwapOut(p[1..], d[1..], i - 1);
  }

  lemma DeactivatePrefix(cs: seq<Chan>, i: nat, active: nat)
    requires 1 <= i < active <= |cs|
    ensures Subs(Deactivate(cs, i, active)[..active - 1]) == Subs(cs[..active]) - multiset{cs[i]}
    ensures cs[i] in Subs(cs[..active])
  {
    PrefixWithout(cs[..active], Deactivate(cs, i, active)[..active - 1], i);
  }

  lemma DeactivateSuffix(cs: seq<Chan>, i: nat, active: nat)
    requires 1 <= i < active <= |cs|
    ensures multiset(Deactivate(cs, i, active)[active - 1..]) == multiset(cs[active..]) + multiset{cs[i]}
  {
    assert Deactivate(cs, i, active)[active - 1..] == [cs[i]] + cs[active..];
  }

  lemma DeactivateAll(cs: seq<Chan>, i: nat, active: nat)
    requires 1 <= i < active <= |cs|
    ensures Subs(Deactivate(cs, i, active)) == Subs(cs) && Deactivate(cs, i, active)[0] == cs[0]
  {
  }

  /** Serving a case moves it from the active to the served part. */
  lemma ServeKeepsSplit(cs: seq<Chan>, i: nat, active: nat, cur: Report)
    requires Split(cs, active, cur) && 1 <= i < active
    ensures Split(Deactivate(cs, i, active), active - 1,
                  cur.(delivered := cur.delivered + multiset{cs[i]}, nsent := cur.nsent + 1))
  {
    DeactivatePrefix(cs, i, active);
    DeactivateSuffix(cs, i, active);
    MoveOne(cur.delivered, cur.dropped, Subs(cs[..active]), cs[i]);
  }

  lemma ServeKeepsPlaced(s: State, i: nat)
    requires Placed(s.sendCases, s.inbox, s.live, s.removing) && 1 <= i < s.active <= |s.sendCases|
    ensures Placed(Deactivate(s.sendCases, i, s.active), s.inbox, s.live, s.removing)
  {
    DeactivateAll(s.sendCases, i, s.active);
  }

  lemma RemoveKeepsPlaced(cs: seq<Chan>, inbox: seq<Chan>, live: multiset<Chan>, removing: multiset<Chan>, i: nat)
    requires Placed(cs, inbox, live, removing) && 1 <= i < |cs| && cs[i] in removing
    ensures Placed(Delete(cs, i), inbox, live - multiset{cs[i]}, removing - multiset{cs[i]})
  {
    DeleteSubs(cs, i);
  }

  lemma DeletedActive(cs: seq<Chan>, i: nat, active: nat)
    requires 1 <= i < active <= |cs|
    ensures Subs(Delete(cs, i)[..active - 1]) == Subs(cs[..active]) - multiset{cs[i]} && cs[i] in Subs(cs[..active])
    ensures Delete(cs, i)[active - 1..] == cs[active..]
  {
    DeleteSubs(cs[..active], i);
    assert Delete(cs, i)[..active - 1] == Delete(cs[..active], i);
  }

  lemma DeletedServed(cs: seq<Chan>, i: nat, active: nat)
    requires active <= i < |cs|
    ensures Delete(cs, i)[..active] == cs[..active]
    ensures multiset(Delete(cs, i)[active..]) <= multiset(cs[active..])
  {
    DeleteOne(cs[active..], i - active);
    assert Delete(cs, i)[active..] == Delete(cs[active..], i - active);
  }

  lemma MoveOne(delivered: multiset<Chan>, dropped: multiset<Chan>, m: multiset<Chan>, c: Chan)
    requires c in m
    ensures delivered + (dropped + multiset{c}) + (m - multiset{c}) == delivered + dropped + m
    ensures (delivered + multiset{c}) + dropped + (m - multiset{c}) == delivered + dropped + m
  {
    assert m == (m - multiset{c}) + multiset{c};
  }

  /** Removing a case that is still active drops it. */
  lemma DropKeepsSplit(s: State, ch: Chan, i: nat)
    requires Split(s.sendCases, s.active, s.current) && 1 <= i < s.active && s.sendCases[i] == ch
    ensures var t := CutOut(s, ch, i); Split(t.sendCases, t.active, t.current) && t.current == Dropping(s.current, ch)
  {
    DeletedActive(s.sendCases, i, s.active);
    SplitWithout(s, CutOut(s, ch, i), ch);
  }

  lemma SplitWithout(s: State, t: State, ch: Chan)
    requires Split(s.sendCases, s.active, s.current) && s.active >= 2 && ch in Subs(s.sendCases[..s.active])
    requires t.active == s.active - 1 && t.current == Dropping(s.current, ch)
    requires |t.sendCases| == |s.sendCases| - 1 && t.sendCases[t.active..] == s.sendCases[s.active..]
    requires Subs(t.sendCases[..t.active]) == Subs(s.sendCases[..s.active]) - multiset{ch}
    ensures Split(t.sendCases, t.active, t.current)
  {
    MoveOne(s.current.delivered, s.current.dropped, Subs(s.sendCases[..s.active]), ch);
  }

  /** Removing a case that has been served changes nothing else. */
  lemma ForgetKeepsSplit(s: State, ch: Chan, i: nat)
    requires Split(s.sendCases, s.active, s.current) && s.active <= i < |s.sendCases|
    ensures var t := CutOut(s, ch, i); Split(t.sendCases, t.active, t.current) && t.current == s.current
  {
    DeletedServed(s.sendCases, i, s.active);
  }

  lemma UnsubscribeKeepsPlaced(cs: seq<Chan>, inbox: seq<Chan>, live: multiset<Chan>, removing: multiset<Chan>,
                               ch: Chan)
    requires Placed(cs, inbox, live, removing) && removing[ch] < live[ch]
    ensures Find(inbox, ch).Some? ==> Placed(cs, Delete(inbox, Find(inbox, ch).value), live - multiset{ch}, removing)
    ensures Find(inbox, ch).None? ==> Placed(cs, inbox, live, removing + multiset{ch})
  {
    if Find(inbox, ch).Some? {
      DeleteOne(inbox, Find(inbox, ch).value);
    } else {
      assert multiset(inbox)[ch] == 0;
    }
  }

  lemma BeginSplits(cs: seq<Chan>, inbox: seq<Chan>, live: multiset<Chan>, removing: multiset<Chan>)
    requires Placed(cs, inbox, live, removing)
    ensures Placed(cs + inbox, [], live, removing)
    ensures Split(cs + inbox, |cs + inbox|, Report(Subs(cs + inbox), multiset{}, multiset{}, 0))
  {
    var ds := cs + inbox;
    assert ds[1..] == cs[1..] + inbox && ds[..|ds|] == ds && ds[|ds|..] == [];
  }

  lemma EndIsFaithful(cs: seq<Chan>, cur: Report)
    requires Split(cs, 1, cur)
    ensures Faithful(cur)
  {
  }

  lemma StepKeepsInv(s: State, a: Action)
    requires Inv(s) && Enabled(s, a)
    ensures Inv(Next(s, a))
  {
    match a {
      case Subscribe(ch) => SubscribeStep(s, ch);
      case Unsubscribe(ch) => UnsubscribeStep(s, ch);
      case RemoveUnderLock(ch) => RemoveStep(s, ch);
      case SendBegin => BeginStep(s);
      case TrySend(ok) => TryStep(s, ok);
      case Block =>
      case SelectSend(k) => SelectSendStep(s, k);
      case SelectRemove(ch) => SelectRemoveStep(s, ch);
      case SendEnd => EndStep(s);
    }
  }

  lemma SubscribeStep(s: State, ch: Chan)
    requires Inv(s) && Enabled(s, Subscribe(ch))
    ensures Inv(Next(s, Subscribe(ch)))
  {
  }

  lemma UnsubscribeStep(s: State, ch: Chan)
    requires Inv(s) && Enabled(s, Unsubscribe(ch))
    ensures Inv(Next(s, Unsubscribe(ch)))
  {
    UnsubscribeKeepsPlaced(s.sendCases, s.inbox, s.live, s.removing, ch);
  }

  lemma BeginStep(s: State)
    requires Inv(s) && Enabled(s, SendBegin)
    ensures Inv(Next(s, SendBegin))
  {
    BeginSplits(s.sendCases, s.inbox, s.live, s.removing);
  }

  lemma ServedSplit(s: State, i: nat)
    requires Split(s.sendCases, s.active, s.current) && 1 <= i < s.active
    ensures var t := Served(s, i); Split(t.sendCases, t.active, t.current)
  {
    ServeKeepsSplit(s.sendCases, i, s.active, s.current);
  }

  lemma TryStep(s: State, ok: bool)
    requires Inv(s) && Enabled(s, TrySend(ok))
    ensures Inv(Next(s, TrySend(ok)))
  {
    if ok {
      ServedSplit(s, s.phase.i);
      ServeKeepsPlaced(s, s.phase.i);
    }
  }

  lemma SelectSendStep(s: State, k: nat)
    requires Inv(s) && Enabled(s, SelectSend(k))
    ensures Inv(Next(s, SelectSend(k)))
  {
    ServedSplit(s, k);
    ServeKeepsPlaced(s, k);
  }

  lemma RemoveStep(s: State, ch: Chan)
    requires Inv(s) && Enabled(s, RemoveUnderLock(ch))
    ensures Inv(Next(s, RemoveUnderLock(ch)))
  {
    RemovalFinds(s, ch);
    RemoveKeepsPlaced(s.sendCases, s.inbox, s.live, s.removing, Find(s.sendCases, ch).value);
  }

  lemma SelectRemoveStep(s: State, ch: Chan)
    requires Inv(s) && Enabled(s, SelectRemove(ch))
    ensures Inv(Next(s, SelectRemove(ch)))
  {
    RemovalFinds(s, ch);
    CutOutKeepsInv(s, ch, Find(s.sendCases, ch).value);
  }

  lemma CutOutKeepsInv(s: State, ch: Chan, i: nat)
    requires Inv(s) && Sending(s) && ch in s.removing && 1 <= i < |s.sendCases| && s.sendCases[i] == ch
    ensures Inv(CutOut(s, ch, i))
  {
    var t := CutOut(s, ch, i);
    RemoveKeepsPlaced(s.sendCases, s.inbox, s.live, s.removing, i);
    if i < s.active { DropKeepsSplit(s, ch, i); } else { ForgetKeepsSplit(s, ch, i); }
    assert PhaseInv(t.phase, t.active);
  }

  lemma EndStep(s: State)
    requires Inv(s) && Enabled(s, SendEnd)
    ensures Inv(Next(s, SendEnd))
  {
    EndIsFaithful(s.sendCases, s.current);
  }

  /** The states a run of steps leads through. */
  ghost predicate Run(s: State, acts: seq<Action>, t: State)
    decreases |acts|
  {
    if acts == [] then s == t else Enabled(s, acts[0]) && Run(Next(s, acts[0]), acts[1..], t)
  }

  lemma {:induction false} RunKeepsInv(s: State, acts: seq<Action>, t: State)
    requires Inv(s) && Run(s, acts, t)
    ensures Inv(t)
    decreases |acts|
  {
    if acts != [] {
      StepKeepsInv(s, acts[0]);
      RunKeepsInv(Next(s, acts[0]), acts[1..], t);
    }
  }

  /** In every interleaving: each live subscription is in the inbox or among the send cases, never in
      both; every finished Send is faithful; and a removal request always finds its channel. */
  lemma EveryInterleaving(acts: seq<Action>, t: State, ch: Chan)
    requires Run(INIT, acts, t)
    ensures t.live[ch] == multiset(t.inbox)[ch] + Subs(t.sendCases)[ch]
    ensures forall r :: r in t.log ==> Faithful(r)
    ensures ch in t.removing ==> Find(t.sendCases, ch).Some? && Find(t.sendCases, ch).value >= 1
  {
    RunKeepsInv(INIT, acts, t);
    if ch in t.removing { RemovalFinds(t, ch); }
  }

  /** A channel subscribed once when a Send starts, and not removed before its turn, gets the value
      exactly once by the end of that Send; during the Send it never gets it twice. */
  lemma ExactlyOnce(acts: seq<Action>, t: State, ch: Chan)
    requires Run(INIT, acts, t) && Sending(t) && t.current.initial[ch] == 1
    ensures t.current.delivered[ch] <= 1 && t.active <= |t.sendCases|
    ensures Enabled(t, SendEnd) && ch !in t.current.dropped ==> t.current.delivered[ch] == 1
    ensures t.current.delivered[ch] == 1 ==> ch !in Subs(t.sendCases[..t.active])
  {
    RunKeepsInv(INIT, acts, t);
    OnceInSend(t, ch);
  }

  lemma OnceInSend(t: State, ch: Chan)
    requires Inv(t) && Sending(t) && t.current.initial[ch] == 1
    ensures t.current.delivered[ch] <= 1 && t.active <= |t.sendCases|
    ensures t.active == 1 && ch !in t.current.dropped ==> t.current.delivered[ch] == 1
    ensures t.current.delivered[ch] == 1 ==> ch !in Subs(t.sendCases[..t.active])
  {
    SplitOnce(t.sendCases, t.active, t.current, ch);
  }

  /** A channel is delivered, dropped or still waiting, and only one of these if it was there once. */
  lemma SplitOnce(cs: seq<Chan>, active: nat, cur: Report, ch: Chan)
    requires Split(cs, active, cur) && cur.initial[ch] == 1
    ensures cur.delivered[ch] + cur.dropped[ch] + Subs(cs[..active])[ch] == 1
    ensures active == 1 ==> Subs(cs[..active])[ch] == 0
  {
  }

  /** Where each step leaves the Send: a Send, and the select whatever it took, begin the fast path at its
      first case; the fast path stays at a case that took the value, for another is in its place now, and
      moves on from one that did not. */
  lemma NextPhase(s: State, a: Action)
    requires Inv(s) && Enabled(s, a)
    ensures var p := Next(s, a).phase;
            match a
            case SendBegin => p == Fast(1)
            case TrySend(ok) => p == Fast(if ok then s.phase.i else s.phase.i + 1)
            case Block => p == Blocked
            case SelectSend(_) => p == Fast(1)
            case SelectRemove(_) => p == Fast(1)
            case SendEnd => p == Idle
            case _ => p == s.phase
  {
    if a.SelectRemove? { RemovalFinds(s, a.ch); }
  }

  /** Which subscription a step delivers to: that of the case the fast path is at, or of the case the select
      has chosen; no other step delivers. */
  lemma DeliversTo(s: State, a: Action)
    requires Inv(s) && Enabled(s, a) && !a.SendBegin?
    ensures Next(s, a).current.delivered ==
      if a.TrySend? && a.ok then s.current.delivered + multiset{s.sendCases[s.phase.i]}
      else if a.SelectSend? then s.current.delivered + multiset{s.sendCases[a.chosen]}
      else s.current.delivered
  {
    if a.TrySend? && a.ok { ServedDelivers(s, s.phase.i); }
    else if a.SelectSend? { ServedDelivers(s, a.chosen); }
    else { OthersDoNotDeliver(s, a); }
  }

  lemma ServedDelivers(s: State, i: nat)
    requires i < s.active <= |s.sendCases|
    ensures Served(s, i).current.delivered == s.current.delivered + multiset{s.sendCases[i]}
  {
  }

  lemma OthersDoNotDeliver(s: State, a: Action)
    requires !a.SendBegin? && !(a.TrySend? && a.ok) && !a.SelectSend?
    ensures Next(s, a).current.delivered == s.current.delivered
  {
  }

  /** Only a removal takes a subscription away before its turn. */
  lemma DroppedOnlyByRemoval(s: State, a: Action, ch: Chan)
    requires Enabled(s, a) && Sending(s) && Next(s, a).current.dropped[ch] > s.current.dropped[ch]
    ensures a == SelectRemove(ch)
  {
    if a.SelectRemove? { assert (s.current.dropped + multiset{a.ch})[ch] > s.current.dropped[ch]; }
  }

  // ----- slices over shared memory

  /** A slice: so many elements from the start of a block of memory that other slices may share. */
  datatype Slice = Slice(mem: array<Chan>, len: nat)

  ghost predicate InBounds(s: Slice) { s.len <= s.mem.Length }

  ghost function Of(s: Slice): seq<Chan>
    requires InBounds(s)
    reads s.mem
  {
    s.mem[..s.len]
  }

  /** Elements behind the deleted one move forward in place. */
  method DeleteIn(s: Slice, index: nat) returns (r: Slice)
    requires InBounds(s) && index < s.len
    modifies s.mem
    ensures r == Slice(s.mem, s.len - 1) && Of(r) == Delete(old(Of(s)), index)
  {
    ghost var before := s.mem[..s.len];
    for k := index to s.len - 1
      invariant s.mem[..k] == Delete(before, index)[..k]
      invariant s.mem[k + 1..s.len] == before[k + 1..]
    {
      assert s.mem[k + 1] == s.mem[k + 1..s.len][0] == before[k + 1] == Delete(before, index)[k];
      s.mem[k] := s.mem[k + 1];
      assert s.mem[..k + 1] == s.mem[..k] + [before[k + 1]];
    }
    r := Slice(s.mem, s.len - 1);
    assert Delete(before, index)[..s.len - 1] == Delete(before, index);
  }

  /** The chosen element and the last of the slice change places; the slice ends before it. */
  method DeactivateIn(c: Slice, i: nat) returns (r: Slice)
    requires InBounds(c) && i < c.len
    modifies c.mem
    ensures r == Slice(c.mem, c.len - 1) && c.mem[..] == Deactivate(old(c.mem[..]), i, c.len)
  {
    var last := c.len - 1;
    c.mem[i], c.mem[last] := c.mem[last], c.mem[i];
    r := Slice(c.mem, last);
  }

  /** In place if the memory suffices, otherwise into a new block with room to spare. */
  method AppendTo(s: Slice, xs: seq<Chan>, spare: nat) returns (r: Slice)
    requires InBounds(s)
    modifies s.mem
    ensures InBounds(r) && Of(r) == old(Of(s)) + xs && (r.mem == s.mem || fresh(r.mem))
  {
    var mem := s.mem;
    if s.len + |xs| > mem.Length {
      mem := Grown(s, s.len + |xs| + spare);
    }
    for k := 0 to |xs|
      invariant mem.Length >= s.len + |xs| && mem[..s.len + k] == old(Of(s)) + xs[..k]
    {
      mem[s.len + k] := xs[k];
      assert mem[..s.len + k + 1] == mem[..s.len + k] + [xs[k]];
    }
    r := Slice(mem, s.len + |xs|);
    assert xs[..|xs|] == xs;
  }

  method Grown(s: Slice, n: nat) returns (mem: array<Chan>)
    requires InBounds(s) && s.len <= n
    ensures fresh(mem) && mem.Length == n && mem[..s.len] == Of(s)
  {
    mem := new Chan[n](_ => 0);
    for k := 0 to s.len
      invariant mem[..k] == s.mem[..k]
    {
      mem[k] := s.mem[k];
    }
  }

  /** A deactivation through one slice, seen through a longer slice of the same memory. */
  lemma SeenThrough(before: seq<Chan>, after: seq<Chan>, i: nat, active: nat, n: nat)
    requires i < active <= n <= |before| && after == Deactivate(before, i, active)
    ensures after[..n] == Deactivate(before[..n], i, active)
  {
  }

  /** The feed's fields; `cases` is the slice of a Send, over the memory of sendCases.  `now` is the state
      that the properties speak about. */
  class Machine {
    var inbox: seq<Chan>
    var sendCases: Slice
    var cases: Slice
    var phase: Phase
    var nsent: nat
    ghost var now: State

    ghost predicate Valid()
      reads this, sendCases.mem
    {
      && InBounds(sendCases) && Of(sendCases) == now.sendCases && inbox == now.inbox
      && phase == now.phase && cases.len == now.active && (phase.Idle? || Shared())
    }

    /** While a Send is in progress its slice is a prefix of sendCases in the same memory, and its count is
        that of the deliveries. */
    ghost predicate Shared()
      reads this
    {
      cases.mem == sendCases.mem && cases.len <= sendCases.len && nsent == now.current.nsent
    }

    constructor ()
      ensures Valid() && now == INIT && fresh(sendCases.mem)
    {
      var mem := new Chan[1](_ => REMOVE_SUB);
      inbox, sendCases, cases, phase, nsent := [], Slice(mem, 1), Slice(mem, 0), Idle, 0;
      now := INIT;
    }

    /** The search loop. */
    static method FindIn(cs: seq<Chan>, ch: Chan) returns (index: int)
      ensures index == if Find(cs, ch).Some? then Find(cs, ch).value else -1
    {
      for i := 0 to |cs|
        invariant ch !in cs[..i]
      {
        if cs[i] == ch {
          FindFirst(cs, ch, i);
          return i;
        }
      }
      assert cs[..|cs|] == cs;
      return -1;
    }

    static lemma FindFirst(cs: seq<Chan>, ch: Chan, i: nat)
      requires i < |cs| && cs[i] == ch && ch !in cs[..i]
      ensures Find(cs, ch) == Some(i)
    {
    }

    method SubscribeCh(ch: Chan)
      requires Valid()
      modifies this`inbox, this`now
      ensures Valid() && now == Next(old(now), Subscribe(ch))
    {
      inbox := inbox + [ch];
      now := Next(now, Subscribe(ch));
    }

    /** The first half of remove: drop the channel from the inbox, or go on to wait in the select. */
    method UnsubscribeCh(ch: Chan) returns (waits: bool)
      requires Valid()
      modifies this`inbox, this`now
      ensures Valid() && now == Next(old(now), Unsubscribe(ch)) && waits == (ch !in old(inbox))
    {
      var index := FindIn(inbox, ch);
      waits := index == -1;
      if index != -1 {
        inbox := Delete(inbox, index);
      }
      now := Next(now, Unsubscribe(ch));
    }

    /** The second half of remove when no Send is in progress.  EveryInterleaving shows that the
        search succeeds in every reachable state. */
    method RemoveLocked(ch: Chan)
      requires Valid() && phase.Idle? && Find(now.sendCases, ch).Some?
      modifies this`sendCases, this`now, sendCases.mem
      ensures Valid() && now == Next(old(now), RemoveUnderLock(ch))
    {
      var index := FindIn(sendCases.mem[..sendCases.len], ch);
      sendCases := DeleteIn(sendCases, index);
      now := Next(now, RemoveUnderLock(ch));
    }

    method Begin(spare: nat)
      requires Valid()
      modifies this, sendCases.mem
      ensures Valid() && now == Next(old(now), SendBegin)
    {
      sendCases := AppendTo(sendCases, inbox, spare);
      inbox := [];
      cases := sendCases;
      phase, nsent := Fast(1), 0;
      now := Next(now, SendBegin);
    }

    method DeactivateCase(i: nat)
      requires Valid() && Shared() && i < cases.len
      modifies this`cases, this`nsent, this`now, sendCases.mem
      ensures Valid() && Shared() && now == Served(old(now), i)
    {
      ghost var before := sendCases.mem[..];
      cases := DeactivateIn(cases, i);
      SeenThrough(before, sendCases.mem[..], i, now.active, sendCases.len);
      nsent := nsent + 1;
      now := Served(now, i);
    }

    /** One turn of the fast path; `ok` is whether the channel took the value at once. */
    method Try(ok: bool)
      requires Valid() && phase.Fast? && phase.i < cases.len
      modifies this, sendCases.mem
      ensures Valid() && now == Next(old(now), TrySend(ok))
    {
      if ok {
        DeactivateCase(phase.i);
      } else {
        phase := Fast(phase.i + 1);
        now := Next(now, TrySend(ok));
      }
    }

    /** The check after the fast path: done, or wait in the select.  A finished Send returns the count
        that its report records. */
    method AfterFast() returns (done: bool)
      requires Valid() && phase.Fast? && phase.i >= cases.len
      modifies this`phase, this`now
      ensures Valid() && done == (cases.len == 1)
      ensures now == Next(old(now), if done then SendEnd else Block)
      ensures done ==> now.log == old(now.log) + [now.current] && nsent == now.current.nsent
    {
      done := cases.len == 1;
      phase := if done then Idle else Blocked;
      now := Next(now, if done then SendEnd else Block);
    }

    method Selected(chosen: nat)
      requires Valid() && Shared() && chosen < cases.len
      modifies this, sendCases.mem
      ensures Valid() && now == Next(old(now), SelectSend(chosen))
    {
      DeactivateCase(chosen);
      phase := Fast(1);
      now := now.(phase := Fast(1));
    }

    /** The select took a removal request: the case goes from the shared memory, and the slice that is
        still being served is cut from the new sendCases if the case was in it. */
    method SelectedRemoval(ch: Chan)
      requires Valid() && Shared() && Find(now.sendCases, ch).Some?
      modifies this, sendCases.mem
      ensures Valid() && now == Next(old(now), SelectRemove(ch))
    {
      var index := FindIn(sendCases.mem[..sendCases.len], ch);
      ghost var next := Next(now, SelectRemove(ch));
      assert next == CutOut(now, ch, index);
      sendCases := DeleteIn(sendCases, index);
      if index < cases.len {
        cases := Slice(sendCases.mem, cases.len - 1);
      }
      phase, now := Fast(1), next;
    }
  }
}
