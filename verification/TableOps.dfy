/** The loops of p2p/discover/table.go, proved against Table, and the search for the closest nodes. */
module TableOps {
  import opened Common
  import opened Distance
  import opened Table

  // ----- the nearest nodes, by sorting

  ghost function Key(target: Hash): Node -> nat {
    (n: Node) => Dist(n.sha, target)
  }

  ghost predicate Sorted(list: seq<Node>, key: Node -> nat) {
    forall i, j :: 0 <= i <= j < |list| ==> key(list[i]) <= key(list[j])
  }

  /** After the nodes that are not farther away. */
  ghost function Inserted(list: seq<Node>, n: Node, key: Node -> nat): seq<Node> {
    if list == [] || key(n) < key(list[0]) then [n] + list
    else [list[0]] + Inserted(list[1..], n, key)
  }

  ghost function SortedBy(nodes: seq<Node>, key: Node -> nat): seq<Node> {
    if nodes == [] then []
    else Inserted(SortedBy(nodes[..|nodes| - 1], key), nodes[|nodes| - 1], key)
  }

  ghost function Take(list: seq<Node>, k: nat): seq<Node> {
    if |list| <= k then list else list[..k]
  }

  lemma {:induction false} InsertedKeeps(list: seq<Node>, n: Node, key: Node -> nat)
    ensures multiset(Inserted(list, n, key)) == multiset(list) + multiset{n}
    decreases |list|
  {
    if list != [] && key(n) >= key(list[0]) {
      assert list == [list[0]] + list[1..];
      InsertedKeeps(list[1..], n, key);
    }
  }

  lemma MembersOf(list: seq<Node>, n: Node, key: Node -> nat)
    ensures forall m :: m in Inserted(list, n, key) ==> m == n || m in list
  {
  }

  lemma {:induction false} InsertedIsSorted(list: seq<Node>, n: Node, key: Node -> nat)
    requires Sorted(list, key)
    ensures Sorted(Inserted(list, n, key), key)
    decreases |list|
  {
    if list == [] || key(n) < key(list[0]) {
      ConsSorted(n, list, key);
    } else {
      InsertedIsSorted(list[1..], n, key);
      MembersOf(list[1..], n, key);
      ConsSorted(list[0], Inserted(list[1..], n, key), key);
    }
  }

  lemma ConsSorted(n: Node, list: seq<Node>, key: Node -> nat)
    requires Sorted(list, key) && forall m :: m in list ==> key(n) <= key(m)
    ensures Sorted([n] + list, key)
  {
  }

  /** Sorting sorts, and loses nothing. */
  lemma {:induction false} SortingIsRight(nodes: seq<Node>, key: Node -> nat)
    ensures Sorted(SortedBy(nodes, key), key)
    ensures multiset(SortedBy(nodes, key)) == multiset(nodes)
    decreases |nodes|
  {
    if nodes != [] {
      var k := |nodes| - 1;
      SortingIsRight(nodes[..k], key);
      InsertedIsSorted(SortedBy(nodes[..k], key), nodes[k], key);
      InsertedKeeps(SortedBy(nodes[..k], key), nodes[k], key);
      assert nodes == nodes[..k] + [nodes[k]];
    }
  }

  /** Only the first `k` nodes matter for the first `k` after an insertion. */
  lemma {:induction false} TakeInserted(list: seq<Node>, n: Node, key: Node -> nat, k: nat)
    ensures Take(Inserted(Take(list, k), n, key), k) == Take(Inserted(list, n, key), k)
    decreases |list|
  {
    if k > 0 && list != [] {
      var tail := list[1..];
      TakeCons(list[0], tail, k);
      assert list == [list[0]] + tail;
      if key(n) >= key(list[0]) {
        var t := Take(tail, k - 1);
        assert ([list[0]] + t)[1..] == t;
        TakeInserted(tail, n, key, k - 1);
        TakeCons(list[0], Inserted(t, n, key), k);
        TakeCons(list[0], Inserted(tail, n, key), k);
      } else {
        TakeCons(n, list, k);
        TakeCons(n, Take(list, k), k);
      }
    }
  }

  lemma TakeCons(n: Node, list: seq<Node>, k: nat)
    requires k > 0
    ensures Take([n] + list, k) == [n] + Take(list, k - 1)
  {
  }

  ghost predicate AllNearer(near: seq<Node>, far: multiset<Node>, key: Node -> nat) {
    forall m, n :: m in near && n in far ==> key(m) <= key(n)
  }

  /** As many as asked for, in order, and none that is left is nearer. */
  ghost predicate Nearest(near: seq<Node>, all: seq<Node>, key: Node -> nat, k: nat) {
    && |near| == (if |all| < k then |all| else k)
    && Sorted(near, key)
    && multiset(near) <= multiset(all)
    && AllNearer(near, multiset(all) - multiset(near), key)
  }

  lemma SplitSorted(s: seq<Node>, key: Node -> nat, k: nat)
    requires Sorted(s, key) && k <= |s|
    ensures AllNearer(s[..k], multiset(s[k..]), key)
  {
  }

  lemma TakeIsPart(s: seq<Node>, k: nat)
    requires k <= |s|
    ensures multiset(s) == multiset(s[..k]) + multiset(s[k..])
  {
    assert s == s[..k] + s[k..];
  }

  lemma Remainder(a: multiset<Node>, b: multiset<Node>, c: multiset<Node>)
    requires a == b + c
    ensures b <= a && a - b == c
  {
  }

  lemma PrefixSorted(s: seq<Node>, key: Node -> nat, k: nat)
    requires Sorted(s, key) && k <= |s|
    ensures Sorted(s[..k], key)
  {
  }

  lemma TakeIsNearest(s: seq<Node>, all: seq<Node>, key: Node -> nat, k: nat, near: seq<Node>)
    requires Sorted(s, key) && multiset(s) == multiset(all) && near == Take(s, k)
    ensures Nearest(near, all, key, k)
  {
    SameSize(s, all);
    var j := if |s| <= k then |s| else k;
    assert near == s[..j];
    TakeIsPart(s, j);
    SplitSorted(s, key, j);
    PrefixSorted(s, key, j);
    Remainder(multiset(all), multiset(near), multiset(s[j..]));
  }

  lemma SortAndTakeIsNearest(all: seq<Node>, key: Node -> nat, k: nat)
    ensures Nearest(Take(SortedBy(all, key), k), all, key, k)
  {
    SortingIsRight(all, key);
    TakeIsNearest(SortedBy(all, key), all, key, k, Take(SortedBy(all, key), k));
  }

  lemma SameSize(s: seq<Node>, t: seq<Node>)
    requires multiset(s) == multiset(t)
    ensures |s| == |t|
  {
    assert |multiset(s)| == |s| && |multiset(t)| == |t|;
  }

  // ----- push and closest

  /** Binary search for the first entry that is farther away than the node. */
  method Search(entries: seq<Node>, target: Hash, n: Node) returns (ix: nat)
    requires Sorted(entries, Key(target))
    ensures ix <= |entries|
    ensures forall i :: 0 <= i < ix ==> Key(target)(entries[i]) <= Key(target)(n)
    ensures forall i :: ix <= i < |entries| ==> Key(target)(entries[i]) > Key(target)(n)
  {
    var lo, hi := 0, |entries|;
    while lo < hi
      invariant lo <= hi <= |entries|
      invariant forall i :: 0 <= i < lo ==> Key(target)(entries[i]) <= Key(target)(n)
      invariant forall i :: hi <= i < |entries| ==> Key(target)(entries[i]) > Key(target)(n)
    {
      var mid := (lo + hi) / 2;
      var c := DistCmp(target, entries[mid].sha, n.sha);
      if c > 0 {
        hi := mid;
      } else {
        lo := mid + 1;
      }
    }
    ix := lo;
  }

  lemma {:induction false} InsertedAt(list: seq<Node>, n: Node, key: Node -> nat, ix: nat)
    requires ix <= |list|
    requires forall i :: 0 <= i < ix ==> key(list[i]) <= key(n)
    requires forall i :: ix <= i < |list| ==> key(list[i]) > key(n)
    ensures Inserted(list, n, key) == list[..ix] + [n] + list[ix..]
    decreases |list|
  {
    if ix == 0 {
      assert list[..0] + [n] + list[0..] == [n] + list;
    } else {
      InsertedAt(list[1..], n, key, ix - 1);
      assert list[..ix] == [list[0]] + list[1..][..ix - 1] && list[ix..] == list[1..][ix - 1..];
    }
  }

  /** Appending where there is room and shifting the tail by one. */
  lemma ShiftedIn(es: seq<Node>, n: Node, ix: nat, k: nat)
    requires ix <= |es| <= k
    ensures var grown := if |es| < k then es + [n] else es;
            var r := if ix < |grown| then grown[..ix] + [n] + grown[ix..|grown| - 1] else grown;
            r == Take(es[..ix] + [n] + es[ix..], k)
  {
  }

  class NodesByDistance {
    const target: Hash
    var entries: seq<Node>

    constructor (target: Hash)
      ensures this.target == target && entries == []
    {
      this.target := target;
      entries := [];
    }

    /** Keep the nearest of the entries and the node. */
    method Push(n: Node, maxElems: nat)
      requires Sorted(entries, Key(target)) && |entries| <= maxElems
      modifies this
      ensures entries == Take(Inserted(old(entries), n, Key(target)), maxElems)
      ensures Sorted(entries, Key(target)) && |entries| <= maxElems
    {
      var ix := Search(entries, target, n);
      InsertedAt(entries, n, Key(target), ix);
      InsertedIsSorted(entries, n, Key(target));
      ShiftedIn(entries, n, ix, maxElems);
      if |entries| < maxElems {
        entries := entries + [n];
      }
      if ix < |entries| {
        entries := entries[..ix] + [n] + entries[ix..|entries| - 1];
      }
    }
  }

  function AllEntries(buckets: seq<Bucket>): seq<Node> {
    if buckets == [] then [] else AllEntries(buckets[..|buckets| - 1]) + buckets[|buckets| - 1].entries
  }

  /** The state of the search after the nodes seen so far. */
  ghost predicate Searched(c: NodesByDistance, seen: seq<Node>, k: nat)
    reads c
  {
    c.entries == Take(SortedBy(seen, Key(c.target)), k)
  }

  method PushOne(c: NodesByDistance, ghost seen: seq<Node>, n: Node, k: nat)
    requires Searched(c, seen, k)
    modifies c
    ensures Searched(c, seen + [n], k)
  {
    SortingIsRight(seen, Key(c.target));
    TakeInserted(SortedBy(seen, Key(c.target)), n, Key(c.target), k);
    c.Push(n, k);
    assert (seen + [n])[..|seen|] == seen;
  }

  /** The closest nodes are those that sorting all of them would put first. */
  method Closest(buckets: seq<Bucket>, target: Hash, k: nat) returns (near: seq<Node>)
    ensures near == Take(SortedBy(AllEntries(buckets), Key(target)), k)
    ensures Nearest(near, AllEntries(buckets), Key(target), k)
  {
    var c := new NodesByDistance(target);
    for i := 0 to |buckets|
      invariant Searched(c, AllEntries(buckets[..i]), k)
    {
      var es := buckets[i].entries;
      ghost var before := AllEntries(buckets[..i]);
      assert before + es[..0] == before;
      for j := 0 to |es|
        invariant Searched(c, before + es[..j], k)
      {
        PushOne(c, before + es[..j], es[j], k);
        assert before + es[..j + 1] == before + es[..j] + [es[j]];
      }
      assert es[..|es|] == es && buckets[..i + 1][..i] == buckets[..i];
    }
    assert buckets[..|buckets|] == buckets;
    near := c.entries;
    SortAndTakeIsNearest(AllEntries(buckets), Key(target), k);
  }

  // ----- the table's operations

  lemma {:induction false} DeletedAt(list: seq<Node>, id: NodeId, i: nat)
    requires i < |list| && list[i].id == id && forall j :: 0 <= j < i ==> list[j].id != id
    ensures Deleted(list, id) == list[..i] + list[i + 1..] && id in Ids(list)
    decreases i
  {
    assert list[i] in list;
    if i > 0 {
      DeletedAt(list[1..], id, i - 1);
      assert list[..i] == [list[0]] + list[1..][..i - 1] && list[i + 1..] == list[1..][i..];
    }
  }

  lemma {:induction false} DeletedAbsent(list: seq<Node>, id: NodeId)
    requires forall j :: 0 <= j < |list| ==> list[j].id != id
    ensures Deleted(list, id) == list && id !in Ids(list)
  {
    if list != [] {
      DeletedAbsent(list[1..], id);
      assert list == [list[0]] + list[1..];
    }
  }

  method DeleteNode(list: seq<Node>, id: NodeId) returns (r: seq<Node>)
    ensures r == Deleted(list, id)
  {
    for i := 0 to |list|
      invariant forall j :: 0 <= j < i ==> list[j].id != id
    {
      if list[i].id == id {
        DeletedAt(list, id, i);
        return list[..i] + list[i + 1..];
      }
    }
    DeletedAbsent(list, id);
    return list;
  }

  method Contains(list: seq<Node>, id: NodeId) returns (found: bool)
    ensures found <==> id in Ids(list)
  {
    for i := 0 to |list|
      invariant forall j :: 0 <= j < i ==> list[j].id != id
    {
      if list[i].id == id {
        DeletedAt(list, id, i);
        return true;
      }
    }
    DeletedAbsent(list, id);
    return false;
  }

  /** The nodes before the found one move back by one place, and the node goes in front. */
  method Bump(list: seq<Node>, n: Node) returns (r: seq<Node>, found: bool)
    ensures r == Bumped(list, n) && (found <==> n.id in Ids(list))
  {
    for i := 0 to |list|
      invariant forall j :: 0 <= j < i ==> list[j].id != n.id
    {
      if list[i].id == n.id {
        DeletedAt(list, n.id, i);
        r := [n] + list[..i] + list[i + 1..];
        assert r == [n] + (list[..i] + list[i + 1..]);
        return r, true;
      }
    }
    DeletedAbsent(list, n.id);
    return list, false;
  }

  method PushNode(list: seq<Node>, n: Node, max: nat) returns (r: seq<Node>, removed: Option<Node>)
    requires 0 < max && |list| <= max
    ensures r == Pushed(list, n, max)
    ensures removed == if |list| < max then None else Some(list[|list| - 1])
  {
    if |list| < max {
      return [n] + list, None;
    }
    return [n] + list[..|list| - 1], Some(list[|list| - 1]);
  }

  class NodeTable {
    const selfId: NodeId
    const self: Hash
    var buckets: seq<Bucket>
    var checking: Option<(Node, nat)>

    ghost function View(): State
      reads this
    {
      State(buckets, checking)
    }

    /** As long as the buckets are. */
    ghost predicate Sized()
      reads this
    {
      |buckets| == N_BUCKETS && forall b :: b in buckets ==>
        |b.entries| <= BUCKET_SIZE && |b.replacements| <= MAX_REPLACEMENTS
    }

    constructor (selfId: NodeId, self: Hash)
      ensures this.selfId == selfId && this.self == self && View() == Empty()
    {
      this.selfId, this.self := selfId, self;
      buckets := seq(N_BUCKETS, _ => Bucket([], []));
      checking := None;
    }

    method BucketIndex(sha: Hash) returns (i: nat)
      ensures i == BucketOf(self, sha)
    {
      var d := LogDist(self, sha);
      LogDistBound(self, sha);
      i := if d <= BUCKET_MIN_DISTANCE then 0 else d - BUCKET_MIN_DISTANCE - 1;
    }

    method BumpOrAddIn(b: Bucket, n: Node, ipOk: bool) returns (c: Bucket, done: bool)
      requires |b.entries| <= BUCKET_SIZE
      ensures (c, done) == BumpOrAdd(b, n, ipOk)
    {
      var es, found := Bump(b.entries, n);
      if found {
        return Bucket(es, b.replacements), true;
      }
      if |b.entries| >= BUCKET_SIZE || !ipOk {
        return b, false;
      }
      var pushed, _ := PushNode(b.entries, n, BUCKET_SIZE);
      var rest := DeleteNode(b.replacements, n.id);
      return Bucket(pushed, rest), true;
    }

    method AddReplacementIn(b: Bucket, n: Node, ipOk: bool) returns (c: Bucket)
      requires |b.replacements| <= MAX_REPLACEMENTS
      ensures c == AddReplacement(b, n, ipOk)
    {
      var found := Contains(b.replacements, n.id);
      if found || !ipOk {
        return b;
      }
      var pushed, _ := PushNode(b.replacements, n, MAX_REPLACEMENTS);
      return Bucket(b.entries, pushed);
    }

    method Add(n: Node, ipOk: bool, ipOk2: bool)
      requires Sized()
      modifies this
      ensures View() == Next(old(View()), Event.Add(n, ipOk, ipOk2), selfId, self)
    {
      var i := BucketIndex(n.sha);
      var c, done := BumpOrAddIn(buckets[i], n, ipOk);
      if !done {
        c := AddReplacementIn(c, n, ipOk2);
      }
      buckets := buckets[i := c];
    }

    method Stuff(n: Node, ipOk: bool)
      requires Sized()
      modifies this
      ensures View() == Next(old(View()), Event.Stuff(n, ipOk), selfId, self)
    {
      if n.id == selfId {
        return;
      }
      var i := BucketIndex(n.sha);
      if |buckets[i].entries| < BUCKET_SIZE {
        var c, _ := BumpOrAddIn(buckets[i], n, ipOk);
        buckets := buckets[i := c];
      }
    }

    method Delete(n: Node)
      requires Sized()
      modifies this
      ensures View() == Next(old(View()), Event.Delete(n), selfId, self)
    {
      var i := BucketIndex(n.sha);
      var es := DeleteNode(buckets[i].entries, n.id);
      buckets := buckets[i := Bucket(es, buckets[i].replacements)];
    }

    method Answer(alive: bool, choice: nat)
      requires Enabled(View(), Event.Answer(alive, choice))
      modifies this
      ensures View() == Next(old(View()), Event.Answer(alive, choice), selfId, self)
    {
      var (last, i) := checking.value;
      var b := buckets[i];
      checking := None;
      if alive {
        var es, _ := Bump(b.entries, last);
        buckets := buckets[i := Bucket(es, b.replacements)];
      } else {
        var c := ReplaceIn(b, last, choice);
        buckets := buckets[i := c];
      }
    }

    method ReplaceIn(b: Bucket, last: Node, choice: nat) returns (c: Bucket)
      requires b.replacements != [] ==> choice < |b.replacements|
      ensures c == Replace(b, last, choice)
    {
      var k := |b.entries|;
      if k == 0 || b.entries[k - 1].id != last.id {
        return b;
      }
      if |b.replacements| == 0 {
        var es := DeleteNode(b.entries, last.id);
        return Bucket(es, []);
      }
      var r := b.replacements[choice];
      var rest := DeleteNode(b.replacements, r.id);
      return Bucket(b.entries[..k - 1] + [r], rest);
    }
  }

  /** What adding is for: a node that is, or gets, among the entries comes first, with its new endpoint,
      and no other entry is lost or changes its place relative to the others. */
  lemma AddedComesFirst(b: Bucket, n: Node, ipOk: bool)
    requires |b.entries| <= BUCKET_SIZE
    ensures var (c, done) := BumpOrAdd(b, n, ipOk);
            && (done <==> n.id in Ids(b.entries) || (|b.entries| < BUCKET_SIZE && ipOk))
            && (done ==>
                  c.entries == [n] + Deleted(b.entries, n.id) && Deleted(c.entries, n.id) == Deleted(b.entries, n.id))
            && (!done ==> c == b)
  {
    if n.id !in Ids(b.entries) {
      forall j | 0 <= j < |b.entries| ensures b.entries[j].id != n.id { assert b.entries[j] in b.entries; }
      DeletedAbsent(b.entries, n.id);
    }
  }
}
