/** The Merkle tree over a list of contents (common/merkletree.go), with parent pointers on the heap. */
module Merkle {
  import opened Common
  import opened Bits

  type Bytes = seq<Byte>

  /** A content is only known through its hash and its comparison; both may fail. */
  type Content = nat

  datatype Suite = Suite(digest: Content -> Option<Bytes>, eq: (Content, Content) -> Option<bool>, sha: Bytes -> Bytes)

  // ----- the root, on values

  /** The right neighbour; the last node of an odd level is its own. */
  function RightOf(n: nat, i: nat): (r: nat)
    requires 2 * i < n
    ensures r < n
  {
    if 2 * i + 1 == n then 2 * i else 2 * i + 1
  }

  function Half(n: nat): nat { (n + 1) / 2 }

  function Up(s: Suite, hs: seq<Bytes>): (r: seq<Bytes>)
    ensures |r| == Half(|hs|)
  {
    seq(Half(|hs|), i requires 0 <= i < Half(|hs|) => s.sha(hs[2 * i] + hs[RightOf(|hs|, i)]))
  }

  /** From two hashes on, the levels shrink and never skip over two. */
  function Root(s: Suite, hs: seq<Bytes>): Bytes
    requires |hs| >= 2
    decreases |hs|
  {
    if |hs| == 2 then s.sha(hs[0] + hs[1]) else Root(s, Up(s, hs))
  }

  function Padded(cs: seq<Content>): (r: seq<Content>)
    ensures cs != [] ==> |r| >= 2 && |r| % 2 == 0
  {
    if |cs| % 2 == 1 then cs + [cs[|cs| - 1]] else cs
  }

  predicate Hashable(s: Suite, cs: seq<Content>) {
    forall i :: 0 <= i < |cs| ==> s.digest(cs[i]).Some?
  }

  function HashesOf(s: Suite, cs: seq<Content>): (hs: seq<Bytes>)
    requires Hashable(s, cs)
    ensures |hs| == |cs|
  {
    seq(|cs|, i requires 0 <= i < |cs| => s.digest(cs[i]).value)
  }

  lemma PaddedHashable(s: Suite, cs: seq<Content>)
    requires Hashable(s, cs)
    ensures Hashable(s, Padded(cs))
  {
  }

  /** The root that a list of contents should have. */
  function RootOf(s: Suite, cs: seq<Content>): Bytes
    requires cs != [] && Hashable(s, cs)
  {
    PaddedHashable(s, cs);
    Root(s, HashesOf(s, Padded(cs)))
  }

  // ----- the root from above

  /** The doubled content is the last one. */
  lemma PaddedIs(cs: seq<Content>)
    ensures |Padded(cs)| == |cs| + |cs| % 2 && Padded(cs)[..|cs|] == cs
    ensures |cs| % 2 == 1 ==> Padded(cs)[|cs|] == cs[|cs| - 1]
  {
  }

  lemma RootOfPair(s: Suite, a: Bytes, b: Bytes)
    ensures Root(s, [a, b]) == s.sha(a + b)
  {
  }

  /** The root of two equal halves of 2^k hashes each is the hash of their roots, left before right. */
  lemma {:induction false} RootOfHalves(s: Suite, a: seq<Bytes>, b: seq<Bytes>, k: nat)
    requires k >= 1 && |a| == |b| == Pow2(k)
    ensures |a| >= 2 && Root(s, a + b) == s.sha(Root(s, a) + Root(s, b))
    decreases k
  {
    assert |a| == 2 * Pow2(k - 1);
    UpOfBoth(s, a, b);
    if k == 1 {
      assert Pow2(0) == 1;
      UpOfPair(s, a);
      UpOfPair(s, b);
    } else {
      assert Pow2(k - 1) == 2 * Pow2(k - 2);
      RootOfHalves(s, Up(s, a), Up(s, b), k - 1);
    }
  }

  lemma UpOfPair(s: Suite, a: seq<Bytes>)
    requires |a| == 2
    ensures Up(s, a) == [s.sha(a[0] + a[1])]
  {
    assert RightOf(2, 0) == 1 && Up(s, a)[0] == s.sha(a[2 * 0] + a[RightOf(2, 0)]);
  }

  lemma UpOfBoth(s: Suite, a: seq<Bytes>, b: seq<Bytes>)
    requires |a| % 2 == 0 && |b| % 2 == 0
    ensures Up(s, a + b) == Up(s, a) + Up(s, b)
  {
    var n := |a| / 2;
    forall i | 0 <= i < n + |b| / 2 ensures Up(s, a + b)[i] == (Up(s, a) + Up(s, b))[i] {
      assert RightOf(|a + b|, i) == 2 * i + 1;
      if i < n {
        assert RightOf(|a|, i) == 2 * i + 1;
      } else {
        var k := i - n;
        assert RightOf(|b|, k) == 2 * k + 1 && (a + b)[2 * i] == b[2 * k] && (a + b)[2 * i + 1] == b[2 * k + 1];
      }
    }
  }

  /** An odd level: its last hash is paired with itself, so three hashes have the root of four. */
  lemma RootOfThree(s: Suite, a: Bytes, b: Bytes, c: Bytes)
    ensures Root(s, [a, b, c]) == s.sha(s.sha(a + b) + s.sha(c + c))
  {
    var hs := [a, b, c];
    assert RightOf(3, 0) == 1 && RightOf(3, 1) == 2;
    assert Up(s, hs)[0] == s.sha(hs[0] + hs[1]) && Up(s, hs)[1] == s.sha(hs[2] + hs[2]);
    assert Up(s, hs) == [s.sha(a + b), s.sha(c + c)];
  }

  // ----- the nodes

  class Node {
    var parent: Node?
    const left: Node?
    const right: Node?
    const leaf: bool
    const dup: bool
    const hash: Bytes
    const content: Content

    constructor Leaf(c: Content, hash: Bytes, dup: bool)
      ensures parent == null && left == null && right == null && leaf && this.dup == dup && this.hash == hash
      ensures content == c
    {
      parent, left, right, leaf, this.dup, this.hash, content := null, null, null, true, dup, hash, c;
    }

    constructor Inner(left: Node, right: Node, hash: Bytes)
      ensures parent == null && this.left == left && this.right == right && !leaf && this.hash == hash
    {
      parent, this.left, this.right, leaf, dup, this.hash, content := null, left, right, false, false, hash, 0;
    }
  }

  // ----- levels of nodes

  /** A node over two neighbours. */
  ghost predicate Over(lower: seq<Node>, n: Node, i: nat)
    requires 2 * i < |lower|
  {
    !n.leaf && n.left == lower[2 * i] && n.right == lower[RightOf(|lower|, i)]
  }

  ghost predicate Seals(s: Suite, lower: seq<Node>, n: Node, i: nat)
    requires 2 * i < |lower|
  {
    n.hash == s.sha(lower[2 * i].hash + lower[RightOf(|lower|, i)].hash)
  }

  ghost predicate Shaped(lower: seq<Node>, upper: seq<Node>) {
    |upper| == Half(|lower|) && forall i :: 0 <= i < |upper| ==> Over(lower, upper[i], i)
  }

  ghost predicate Sealed(s: Suite, lower: seq<Node>, upper: seq<Node>) {
    |upper| == Half(|lower|) && forall i :: 0 <= i < |upper| ==> Seals(s, lower, upper[i], i)
  }

  /** Where the parent pointers of some nodes lead. */
  type Links = map<Node, Node?>

  ghost predicate Holds(up: Links)
    reads up.Keys
  {
    forall n :: n in up ==> n.parent == up[n]
  }

  ghost function LinksOf(l: seq<Node>): Links
    reads l
  {
    map n | n in l :: n.parent
  }

  ghost predicate Parented(lower: seq<Node>, upper: seq<Node>, up: Links) {
    |upper| == Half(|lower|) && forall j :: 0 <= j < |lower| ==> lower[j] in up && up[lower[j]] == upper[j / 2]
  }

  /** From the leaves up to a root that is alone on its level. */
  ghost predicate Tower(levels: seq<seq<Node>>) {
    |levels| >= 2 && Shaped(levels[0], levels[1])
    && if |levels| == 2 then |levels[0]| == 2 else |levels[0]| > 2 && Tower(levels[1..])
  }

  ghost predicate AllSealed(s: Suite, levels: seq<seq<Node>>) {
    |levels| >= 2 ==> Sealed(s, levels[0], levels[1]) && AllSealed(s, levels[1..])
  }

  /** The parent pointers lead up level by level, and end above the last one. */
  ghost predicate Climbs(levels: seq<seq<Node>>, up: Links) {
    if |levels| == 0 then true
    else if |levels| == 1 then forall n :: n in levels[0] ==> n in up && up[n] == null
    else Parented(levels[0], levels[1], up) && Climbs(levels[1..], up)
  }

  lemma {:induction false} ClimbsMore(levels: seq<seq<Node>>, up: Links, more: Links)
    requires Climbs(levels, up) && forall n :: n in up ==> n in more && more[n] == up[n]
    ensures Climbs(levels, more)
    decreases |levels|
  {
    if |levels| > 1 { ClimbsMore(levels[1..], up, more); }
  }

  function Hashes(l: seq<Node>): (hs: seq<Bytes>)
    ensures |hs| == |l|
  {
    seq(|l|, i requires 0 <= i < |l| => l[i].hash)
  }

  function Contents(l: seq<Node>): (cs: seq<Content>)
    ensures |cs| == |l|
  {
    seq(|l|, i requires 0 <= i < |l| => l[i].content)
  }

  lemma {:induction false} TowerAt(levels: seq<seq<Node>>, k: nat)
    requires Tower(levels) && k < |levels| - 1
    ensures Shaped(levels[k], levels[k + 1]) && |levels[k]| >= 2
    decreases k
  {
    if k > 0 { TowerAt(levels[1..], k - 1); }
  }

  lemma {:induction false} TowerTop(levels: seq<seq<Node>>)
    requires Tower(levels)
    ensures |levels[|levels| - 1]| == 1
    decreases |levels|
  {
    if |levels| > 2 { TowerTop(levels[1..]); }
  }

  /** The hash at the top of a sealed tower is the root of the hashes at its bottom. */
  lemma {:induction false} SealedRoot(s: Suite, levels: seq<seq<Node>>)
    requires Tower(levels) && AllSealed(s, levels)
    ensures |levels[0]| >= 2 && |levels[|levels| - 1]| == 1
    ensures levels[|levels| - 1][0].hash == Root(s, Hashes(levels[0]))
    decreases |levels|
  {
    var hs := Hashes(levels[0]);
    assert Seals(s, levels[0], levels[1][0], 0);
    if |levels| > 2 {
      SealedRoot(s, levels[1..]);
      forall i | 0 <= i < |levels[1]| ensures levels[1][i].hash == Up(s, hs)[i] {
        assert Seals(s, levels[0], levels[1][i], i);
      }
      assert Hashes(levels[1]) == Up(s, hs);
    }
  }

  // ----- building

  /** The levels above `nl`, with the links. */
  ghost predicate Built(s: Suite, nl: seq<Node>, root: Node, levels: seq<seq<Node>>, up: Links) {
    && Tower(levels) && AllSealed(s, levels) && Climbs(levels, up)
    && levels[0] == nl && levels[|levels| - 1] == [root]
  }

  ghost predicate Level(s: Suite, lower: seq<Node>, upper: seq<Node>, up: Links) {
    Shaped(lower, upper) && Sealed(s, lower, upper) && Parented(lower, upper, up)
  }

  lemma TwoLevels(s: Suite, nl: seq<Node>, nodes: seq<Node>, here: Links, root: Node)
    requires |nl| == 2 && Level(s, nl, nodes, here) && nodes == [root] && root !in nl
    ensures Built(s, nl, root, [nl, nodes], here[root := null])
  {
    assert [nl, nodes][1..] == [nodes];
    assert AllSealed(s, [nodes]);
    assert Climbs([nodes], here[root := null]);
    assert Parented(nl, nodes, here[root := null]);
  }

  lemma OneMoreLevel(s: Suite, nl: seq<Node>, nodes: seq<Node>, root: Node, above: seq<seq<Node>>, here: Links,
                     upper: Links)
    requires |nl| > 2 && Built(s, nodes, root, above, upper) && Level(s, nl, nodes, here)
    requires forall n :: n in nl ==> n !in upper
    ensures Built(s, nl, root, [nl] + above, here + upper)
  {
    assert ([nl] + above)[1..] == above;
    ClimbsMore(above, upper, here + upper);
    assert Parented(nl, above[0], here + upper);
  }

  lemma JoinHolds(here: Links, upper: Links)
    requires Holds(here) && Holds(upper)
    ensures Holds(here + upper)
  {
  }

  /** Build the levels above `nl`; two nodes or more, so that no level but the root has one node. */
  method BuildIntermediate(s: Suite, nl: seq<Node>) returns (root: Node, ghost levels: seq<seq<Node>>, ghost up: Links)
    requires |nl| >= 2 && NoDuplicates(nl)
    modifies nl
    ensures Built(s, nl, root, levels, up) && Holds(up)
    ensures forall n :: n in up ==> n in nl || fresh(n)
    decreases |nl|
  {
    if |nl| == 2 {
      root, levels, up := BuildTop(s, nl);
    } else {
      var nodes := BuildLevel(s, nl);
      ghost var here, above, upper := LinksOf(nl), [], map[];
      root, above, upper := BuildIntermediate(s, nodes);
      levels, up := [nl] + above, here + upper;
      JoinHolds(here, upper);
      OneMoreLevel(s, nl, nodes, root, above, here, upper);
    }
  }

  /** The last level, one node above a pair. */
  method BuildTop(s: Suite, nl: seq<Node>) returns (root: Node, ghost levels: seq<seq<Node>>, ghost up: Links)
    requires |nl| == 2 && NoDuplicates(nl)
    modifies nl
    ensures Built(s, nl, root, levels, up) && Holds(up)
    ensures forall n :: n in up ==> n in nl || fresh(n)
  {
    var nodes := BuildLevel(s, nl);
    ghost var here := LinksOf(nl);
    root := nodes[0];
    levels, up := [nl, nodes], here[root := null];
    TwoLevels(s, nl, nodes, here, root);
  }

  method BuildLevel(s: Suite, nl: seq<Node>) returns (nodes: seq<Node>)
    requires |nl| >= 2 && NoDuplicates(nl)
    modifies nl
    ensures Level(s, nl, nodes, LinksOf(nl))
    ensures NoDuplicates(nodes) && fresh(set n | n in nodes) && forall n :: n in nodes ==> n.parent == null
  {
    nodes := [];
    var p := 0;
    while 2 * p < |nl|
      invariant p == |nodes| <= Half(|nl|)
      invariant NoDuplicates(nodes) && fresh(set n | n in nodes) && forall n :: n in nodes ==> n.parent == null
      invariant OverUpTo(s, nl, nodes)
      invariant PointUpTo(nl, nodes, p)
    {
      var n := JoinNext(s, nl, nodes);
      nodes := nodes + [n];
      p := p + 1;
    }
    LevelIsDone(s, nl, nodes);
  }

  ghost predicate OverUpTo(s: Suite, nl: seq<Node>, nodes: seq<Node>) {
    |nodes| <= Half(|nl|) && forall q :: 0 <= q < |nodes| ==> Over(nl, nodes[q], q) && Seals(s, nl, nodes[q], q)
  }

  ghost predicate PointUpTo(nl: seq<Node>, nodes: seq<Node>, p: nat)
    reads nl
  {
    p == |nodes| && forall j :: 0 <= j < |nl| && j < 2 * p ==> nl[j].parent == nodes[j / 2]
  }

  lemma LevelIsDone(s: Suite, nl: seq<Node>, nodes: seq<Node>)
    requires OverUpTo(s, nl, nodes) && PointUpTo(nl, nodes, |nodes|) && |nodes| == Half(|nl|)
    ensures Level(s, nl, nodes, LinksOf(nl))
  {
  }

  /** The next pair gets its parent. */
  method JoinNext(s: Suite, nl: seq<Node>, nodes: seq<Node>) returns (n: Node)
    requires NoDuplicates(nl) && 2 * |nodes| < |nl| && OverUpTo(s, nl, nodes) && PointUpTo(nl, nodes, |nodes|)
    modifies nl
    ensures fresh(n) && n.parent == null
    ensures OverUpTo(s, nl, nodes + [n]) && PointUpTo(nl, nodes + [n], |nodes| + 1)
  {
    n := JoinPair(s, nl, |nodes|);
  }

  /** A new node over a pair, which becomes its parent. */
  method JoinPair(s: Suite, nl: seq<Node>, p: nat) returns (n: Node)
    requires 2 * p < |nl| && NoDuplicates(nl)
    modifies nl
    ensures fresh(n) && n.parent == null && Over(nl, n, p) && Seals(s, nl, n, p)
    ensures forall j :: 0 <= j < |nl| ==> nl[j].parent == if j / 2 == p then n else old(nl[j].parent)
  {
    var left, right := 2 * p, RightOf(|nl|, p);
    n := new Node.Inner(nl[left], nl[right], s.sha(nl[left].hash + nl[right].hash));
    nl[left].parent := n;
    nl[right].parent := n;
  }

  ghost predicate LeavesOk(s: Suite, leafs: seq<Node>) {
    forall i :: 0 <= i < |leafs| ==> leafs[i].leaf && s.digest(leafs[i].content) == Some(leafs[i].hash)
  }

  lemma LeafHashes(s: Suite, leafs: seq<Node>)
    requires LeavesOk(s, leafs)
    ensures Hashable(s, Contents(leafs)) && HashesOf(s, Contents(leafs)) == Hashes(leafs)
  {
  }

  /** The leaves of the contents, in order, with the last one doubled if they are odd. */
  method BuildLeafs(s: Suite, cs: seq<Content>) returns (ok: bool, leafs: seq<Node>)
    requires cs != []
    ensures ok <==> Hashable(s, cs)
    ensures ok ==> Contents(leafs) == Padded(cs) && LeavesOk(s, leafs) && NoDuplicates(leafs)
    ensures ok ==> |leafs| == |cs| + |cs| % 2 && forall i :: 0 <= i < |leafs| ==>
      if i < |cs| then leafs[i].content == cs[i] && !leafs[i].dup
      else leafs[i].content == cs[|cs| - 1] && leafs[i].dup
    ensures fresh(set n | n in leafs)
  {
    leafs := [];
    for i := 0 to |cs|
      invariant |leafs| == i && Contents(leafs) == cs[..i] && Hashable(s, cs[..i])
      invariant LeavesOk(s, leafs) && NoDuplicates(leafs) && fresh(set n | n in leafs)
      invariant forall j :: 0 <= j < i ==> leafs[j].content == cs[j] && !leafs[j].dup
    {
      if s.digest(cs[i]).None? {
        return false, leafs;
      }
      var n := new Node.Leaf(cs[i], s.digest(cs[i]).value, false);
      leafs := leafs + [n];
    }
    assert cs[..|cs|] == cs;
    if |leafs| % 2 == 1 {
      var last := leafs[|leafs| - 1];
      assert last.content == Contents(leafs)[|leafs| - 1];
      var n := new Node.Leaf(last.content, last.hash, true);
      leafs := leafs + [n];
    }
    ok := true;
  }

  // ----- recomputing the root

  /** The hashes `k` levels up. */
  function UpBy(s: Suite, hs: seq<Bytes>, k: nat): seq<Bytes>
    decreases k
  {
    if k == 0 then hs else UpBy(s, Up(s, hs), k - 1)
  }

  lemma {:induction false} UpBySnoc(s: Suite, hs: seq<Bytes>, k: nat)
    ensures UpBy(s, hs, k + 1) == Up(s, UpBy(s, hs, k))
    decreases k
  {
    if k > 0 { UpBySnoc(s, Up(s, hs), k - 1); }
  }

  lemma {:induction false} UpBySize(s: Suite, levels: seq<seq<Node>>, hs: seq<Bytes>, k: nat)
    requires Tower(levels) && |hs| == |levels[0]| && k < |levels|
    ensures |UpBy(s, hs, k)| == |levels[k]|
    decreases k
  {
    if k > 1 {
      UpBySize(s, levels[1..], Up(s, hs), k - 1);
    } else if k == 1 {
      assert UpBy(s, Up(s, hs), 0) == Up(s, hs);
    }
  }

  lemma UpTwo(s: Suite, hs: seq<Bytes>)
    requires |hs| == 2
    ensures Up(s, hs) == [Root(s, hs)]
  {
    assert RightOf(2, 0) == 1 && Half(2) == 1;
    assert Up(s, hs)[0] == s.sha(hs[2 * 0] + hs[RightOf(|hs|, 0)]);
  }

  lemma {:induction false} UpToTheRoot(s: Suite, levels: seq<seq<Node>>, hs: seq<Bytes>)
    requires Tower(levels) && |hs| == |levels[0]|
    ensures |hs| >= 2 && UpBy(s, hs, |levels| - 1) == [Root(s, hs)]
    decreases |levels|
  {
    if |levels| == 2 {
      UpTwo(s, hs);
      assert UpBy(s, Up(s, hs), 0) == Up(s, hs);
    } else {
      UpToTheRoot(s, levels[1..], Up(s, hs));
    }
  }

  lemma LeafLevel(levels: seq<seq<Node>>, k: nat, i: nat)
    requires Tower(levels) && k < |levels| && i < |levels[k]| && forall l :: l in levels[0] ==> l.leaf
    ensures levels[k][i].leaf <==> k == 0
  {
    if k > 0 {
      TowerAt(levels, k - 1);
      assert Over(levels[k - 1], levels[k][i], i);
    }
  }

  /** Down to the leaves and back: the hash recomputed from the contents below the node. */
  method VerifyNode(s: Suite, n: Node, ghost levels: seq<seq<Node>>, ghost k: nat, ghost i: nat)
    returns (r: Option<Bytes>)
    requires Tower(levels) && k < |levels| && i < |levels[k]| && n == levels[k][i]
    requires (forall l :: l in levels[0] ==> l.leaf) && Hashable(s, Contents(levels[0]))
    ensures |UpBy(s, HashesOf(s, Contents(levels[0])), k)| == |levels[k]|
    ensures r == Some(UpBy(s, HashesOf(s, Contents(levels[0])), k)[i])
    decreases k
  {
    ghost var hs := HashesOf(s, Contents(levels[0]));
    UpBySize(s, levels, hs, k);
    LeafLevel(levels, k, i);
    if n.leaf {
      assert n.content == Contents(levels[0])[i];
      return s.digest(n.content);
    }
    TowerAt(levels, k - 1);
    assert Over(levels[k - 1], levels[k][i], i);
    ghost var j := RightOf(|levels[k - 1]|, i);
    UpBySnoc(s, hs, k - 1);
    var right := VerifyNode(s, n.right, levels, k - 1, j);
    if right.None? {
      return None;
    }
    var left := VerifyNode(s, n.left, levels, k - 1, 2 * i);
    if left.None? {
      return None;
    }
    return Some(s.sha(left.value + right.value));
  }

  method CalculateNodeHash(s: Suite, n: Node) returns (r: Option<Bytes>)
    requires !n.leaf ==> n.left != null && n.right != null
    ensures r == if n.leaf then s.digest(n.content) else Some(s.sha(n.left.hash + n.right.hash))
  {
    if n.leaf {
      return s.digest(n.content);
    }
    return Some(s.sha(n.left.hash + n.right.hash));
  }

  // ----- looking for a content

  /** The first leaf that decides: a failed comparison, or an equal content. */
  function Decide(s: Suite, cs: seq<Content>, c: Content): Option<bool> {
    if cs == [] then Some(false)
    else if s.eq(cs[0], c).None? then None
    else if s.eq(cs[0], c).value then Some(true)
    else Decide(s, cs[1..], c)
  }

  /** When no comparison fails, the answer is whether some content is equal. */
  lemma {:induction false} DecideIff(s: Suite, cs: seq<Content>, c: Content)
    requires forall d :: d in cs ==> s.eq(d, c).Some?
    ensures Decide(s, cs, c) == Some(exists d :: d in cs && s.eq(d, c) == Some(true))
  {
    if cs != [] {
      DecideIff(s, cs[1..], c);
      assert cs == [cs[0]] + cs[1..];
    }
  }

  lemma {:induction false} SealedAt(s: Suite, levels: seq<seq<Node>>, k: nat)
    requires AllSealed(s, levels) && k + 1 < |levels|
    ensures Sealed(s, levels[k], levels[k + 1])
    decreases k
  {
    if k > 0 { SealedAt(s, levels[1..], k - 1); }
  }

  lemma {:induction false} ClimbsAt(levels: seq<seq<Node>>, up: Links, k: nat)
    requires Climbs(levels, up) && k < |levels|
    ensures k + 1 < |levels| ==> Parented(levels[k], levels[k + 1], up)
    ensures k + 1 == |levels| ==> forall n :: n in levels[k] ==> n in up && up[n] == null
    decreases k
  {
    if k > 0 { ClimbsAt(levels[1..], up, k - 1); }
  }

  /** In a sealed tower over good leaves, a node's hash is what its content or its children give. */
  ghost predicate HashIsRight(s: Suite, n: Node) {
    if n.leaf then s.digest(n.content) == Some(n.hash)
    else n.left != null && n.right != null && n.hash == s.sha(n.left.hash + n.right.hash)
  }

  lemma NodeHash(s: Suite, levels: seq<seq<Node>>, k: nat, i: nat)
    requires Tower(levels) && AllSealed(s, levels) && LeavesOk(s, levels[0]) && k < |levels| && i < |levels[k]|
    ensures HashIsRight(s, levels[k][i])
    ensures k > 0 ==> 2 * i < |levels[k - 1]| && Over(levels[k - 1], levels[k][i], i)
  {
    if k > 0 {
      TowerAt(levels, k - 1);
      SealedAt(s, levels, k - 1);
      assert Over(levels[k - 1], levels[k][i], i) && Seals(s, levels[k - 1], levels[k][i], i);
    }
  }

  /** A tree with its levels and links. */
  ghost predicate TreeOf(s: Suite, root: Node, leafs: seq<Node>, levels: seq<seq<Node>>, up: Links) {
    Built(s, leafs, root, levels, up) && LeavesOk(s, leafs) && |leafs| % 2 == 0
  }

  /** What verification needs: the shape of a tree over leaves that have a hash. */
  ghost predicate Verifiable(s: Suite, root: Node, leafs: seq<Node>, levels: seq<seq<Node>>) {
    && Tower(levels) && levels[0] == leafs && levels[|levels| - 1] == [root]
    && (forall l :: l in leafs ==> l.leaf) && Hashable(s, Contents(leafs))
  }

  class MerkleTree {
    const s: Suite
    var root: Node
    var merkleRoot: Bytes
    var leafs: seq<Node>
    ghost var levels: seq<seq<Node>>
    ghost var up: Links

    ghost predicate Valid()
      reads this, up.Keys
    {
      TreeOf(s, root, leafs, levels, up) && Holds(up) && merkleRoot == root.hash
    }

    constructor (s: Suite, root: Node, leafs: seq<Node>, ghost levels: seq<seq<Node>>, ghost up: Links)
      requires TreeOf(s, root, leafs, levels, up) && Holds(up)
      ensures Valid() && this.s == s && this.root == root && this.leafs == leafs && this.levels == levels
      ensures this.up == up
    {
      this.s, this.root, this.merkleRoot, this.leafs, this.levels, this.up := s, root, root.hash, leafs, levels, up;
    }

    /** The tree is rebuilt over new contents; if they cannot be built, it stays as it is. */
    method RebuildTreeWith(cs: seq<Content>) returns (ok: bool)
      requires Valid()
      modifies this
      ensures Valid() && (ok <==> cs != [] && Hashable(s, cs))
      ensures ok ==> merkleRoot == RootOf(s, cs) && Contents(leafs) == Padded(cs)
      ensures !ok ==> root == old(root) && merkleRoot == old(merkleRoot) && leafs == old(leafs)
    {
      var r, ls;
      ghost var ll, uu;
      ok, r, ls, ll, uu := BuildWithContent(s, cs);
      if ok {
        root, leafs, merkleRoot, levels, up := r.value, ls, r.value.hash, ll, uu;
      }
    }

    /** Rebuilding from its own leaves gives the same root. */
    method RebuildTree() returns (ok: bool)
      requires Valid()
      modifies this
      ensures Valid() && ok && merkleRoot == old(merkleRoot) && Contents(leafs) == old(Contents(leafs))
    {
      var cs := ContentsOf(leafs);
      OwnRoot(s, root, leafs, levels, up);
      ok := RebuildTreeWith(cs);
    }

    /** Accepts exactly when the stored root is the one the contents give. */
    method VerifyTree() returns (r: Option<bool>)
      requires Verifiable(s, root, leafs, levels)
      ensures r == Some(merkleRoot == Root(s, HashesOf(s, Contents(leafs))))
    {
      UpToTheRoot(s, levels, HashesOf(s, Contents(leafs)));
      var h := VerifyNode(s, root, levels, |levels| - 1, 0);
      if h.None? {
        return None;
      }
      return Some(merkleRoot == h.value);
    }

    method VerifyContent(c: Content) returns (r: Option<bool>)
      requires Valid()
      ensures r == Decide(s, Contents(leafs), c)
    {
      var i;
      r, i := FindLeaf(s, leafs, c);
      if r == Some(true) {
        FirstParent(s, root, leafs, levels, up, i);
        ghost var path := PathUp(s, root, leafs, levels, up, 1, i / 2);
        r := Climb(s, leafs[i].parent, up, path);
      }
    }
  }

  method ContentsOf(leafs: seq<Node>) returns (cs: seq<Content>)
    ensures cs == Contents(leafs)
  {
    cs := [];
    for i := 0 to |leafs|
      invariant cs == Contents(leafs)[..i]
    {
      cs := cs + [leafs[i].content];
    }
  }

  /** The first leaf whose comparison decides. */
  method FindLeaf(s: Suite, leafs: seq<Node>, c: Content) returns (r: Option<bool>, i: nat)
    ensures r == Decide(s, Contents(leafs), c) && (r == Some(true) ==> i < |leafs|)
  {
    ghost var cs := Contents(leafs);
    i := 0;
    while i < |leafs|
      invariant i <= |leafs| && Decide(s, cs, c) == Decide(s, cs[i..], c)
    {
      assert cs[i..][0] == leafs[i].content && cs[i..][1..] == cs[i + 1..];
      var e := s.eq(leafs[i].content, c);
      if e.None? {
        return None, i;
      }
      if e.value {
        return Some(true), i;
      }
      i := i + 1;
    }
    assert cs[|leafs|..] == [];
    return Some(false), i;
  }

  /** The parents from `n` up to the root, each of which can be checked. */
  ghost predicate LeadsUp(s: Suite, up: Links, n: Node?, path: seq<Node>) {
    if path == [] then n == null
    else n == path[0] && Checkable(s, path[0]) && path[0] in up && LeadsUp(s, up, up[path[0]], path[1..])
  }

  /** Up to the root, every hash is found right. */
  method Climb(s: Suite, n: Node?, ghost up: Links, ghost path: seq<Node>) returns (r: Option<bool>)
    requires LeadsUp(s, up, n, path) && Holds(up)
    ensures r == Some(true)
  {
    var cur := n;
    ghost var rest := path;
    while cur != null
      invariant LeadsUp(s, up, cur, rest)
      decreases |rest|
    {
      var ok := CheckNode(s, cur);
      if ok != Some(true) {
        return ok;
      }
      cur := cur.parent;
      rest := rest[1..];
    }
    return Some(true);
  }

  /** Compare a node's hash with the one its children give. */
  method CheckNode(s: Suite, n: Node) returns (r: Option<bool>)
    requires Checkable(s, n)
    ensures r == Some(true)
  {
    var right := CalculateNodeHash(s, n.right);
    if right.None? {
      return None;
    }
    var left := CalculateNodeHash(s, n.left);
    if left.None? {
      return None;
    }
    return Some(s.sha(left.value + right.value) == n.hash);
  }

  ghost predicate Checkable(s: Suite, n: Node) {
    !n.leaf && HashIsRight(s, n) && HashIsRight(s, n.left) && HashIsRight(s, n.right)
  }

  lemma FirstParent(s: Suite, root: Node, leafs: seq<Node>, levels: seq<seq<Node>>, up: Links, i: nat)
    requires TreeOf(s, root, leafs, levels, up) && i < |leafs|
    ensures leafs[i] in up && i / 2 < |levels[1]| && up[leafs[i]] == levels[1][i / 2]
  {
  }

  /** A node on the way up can be checked, and its parent is on the next level, or there is none. */
  lemma NextParent(s: Suite, root: Node, leafs: seq<Node>, levels: seq<seq<Node>>, up: Links, k: nat, j: nat)
    requires TreeOf(s, root, leafs, levels, up) && 1 <= k < |levels| && j < |levels[k]|
    ensures Checkable(s, levels[k][j]) && levels[k][j] in up
    ensures if k + 1 == |levels| then up[levels[k][j]] == null
            else j / 2 < |levels[k + 1]| && up[levels[k][j]] == levels[k + 1][j / 2]
  {
    NodeHash(s, levels, k, j);
    NodeHash(s, levels, k - 1, 2 * j);
    NodeHash(s, levels, k - 1, RightOf(|levels[k - 1]|, j));
    ClimbsAt(levels, up, k);
  }

  /** The climb from a node of level `k`: one node a level, up to the root. */
  lemma {:induction false} PathUp(s: Suite, root: Node, leafs: seq<Node>, levels: seq<seq<Node>>, up: Links, k: nat,
                                  j: nat)
    returns (path: seq<Node>)
    requires TreeOf(s, root, leafs, levels, up) && 1 <= k < |levels| && j < |levels[k]|
    ensures LeadsUp(s, up, levels[k][j], path) && |path| == |levels| - k
    decreases |levels| - k
  {
    NextParent(s, root, leafs, levels, up, k, j);
    var rest := [];
    if k + 1 < |levels| {
      rest := PathUp(s, root, leafs, levels, up, k + 1, j / 2);
    }
    path := [levels[k][j]] + rest;
    assert path[1..] == rest;
  }

  /** The root hash of a tree is the root of its own contents. */
  lemma OwnRoot(s: Suite, root: Node, leafs: seq<Node>, levels: seq<seq<Node>>, up: Links)
    requires TreeOf(s, root, leafs, levels, up)
    ensures |leafs| >= 2 && Verifiable(s, root, leafs, levels) && Padded(Contents(leafs)) == Contents(leafs)
    ensures root.hash == Root(s, HashesOf(s, Contents(leafs))) == RootOf(s, Contents(leafs))
  {
    LeafHashes(s, leafs);
    SealedRoot(s, levels);
  }

  /** Fails exactly on no contents or one that has no hash; otherwise the root is that of the contents. */
  method BuildWithContent(s: Suite, cs: seq<Content>)
    returns (ok: bool, root: Option<Node>, leafs: seq<Node>, ghost levels: seq<seq<Node>>, ghost up: Links)
    ensures ok <==> cs != [] && Hashable(s, cs)
    ensures ok <==> root.Some?
    ensures ok ==> TreeOf(s, root.value, leafs, levels, up) && Holds(up) && Contents(leafs) == Padded(cs)
    ensures ok ==> root.value.hash == RootOf(s, cs)
    ensures forall n :: n in up ==> fresh(n)
  {
    ok, root, leafs, levels, up := false, None, [], [], map[];
    if |cs| == 0 {
      return;
    }
    ok, leafs := BuildLeafs(s, cs);
    if ok {
      assert |leafs| == |Contents(leafs)|;
      var r;
      r, levels, up := BuildIntermediate(s, leafs);
      root := Some(r);
      OwnRoot(s, r, leafs, levels, up);
      PaddedRoot(s, cs);
    }
  }

  lemma PaddedRoot(s: Suite, cs: seq<Content>)
    requires cs != [] && Hashable(s, cs)
    ensures Hashable(s, Padded(cs)) && RootOf(s, Padded(cs)) == RootOf(s, cs)
  {
  }

  method NewTree(s: Suite, cs: seq<Content>) returns (t: Option<MerkleTree>)
    ensures t.Some? <==> cs != [] && Hashable(s, cs)
    ensures t.Some? ==> t.value.Valid() && t.value.s == s && fresh(t.value)
    ensures t.Some? ==> t.value.merkleRoot == RootOf(s, cs) && Contents(t.value.leafs) == Padded(cs)
  {
    var ok, root, leafs;
    ghost var levels, up;
    ok, root, leafs, levels, up := BuildWithContent(s, cs);
    if !ok {
      return None;
    }
    var m := new MerkleTree(s, root.value, leafs, levels, up);
    return Some(m);
  }

  /** Doubling the last content adds no content that was not there. */
  lemma SameMembers(cs: seq<Content>)
    ensures forall c :: c in Padded(cs) <==> c in cs
  {
  }

  /** Everything at once, for every list of contents: the build succeeds unless there is nothing to build
      or a hash fails; the tree verifies; a content is found exactly when an equal one is in the list;
      and rebuilding keeps the root. */
  method BuildAndVerify(s: Suite, cs: seq<Content>, c: Content)
    returns (built: bool, sound: bool, found: bool, same: bool)
    requires forall d :: d in cs ==> s.eq(d, c).Some?
    ensures built <==> cs != [] && Hashable(s, cs)
    ensures built ==> sound && same
    ensures built ==> (found <==> exists d :: d in cs && s.eq(d, c) == Some(true))
  {
    built, sound, found, same := false, false, false, false;
    var t := NewTree(s, cs);
    if t.Some? {
      built := true;
      SameMembers(cs);
      DecideIff(s, Padded(cs), c);
      OwnRoot(s, t.value.root, t.value.leafs, t.value.levels, t.value.up);
      var v := t.value.VerifyTree();
      var f := t.value.VerifyContent(c);
      sound, found := v == Some(true), f == Some(true);
      var before := t.value.merkleRoot;
      var _ := t.value.RebuildTree();
      same := t.value.merkleRoot == before;
    }
  }
}
