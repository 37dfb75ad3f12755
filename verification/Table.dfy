/** The node table (p2p/discover/table.go): buckets of live entries and replacements. */
module Table {
  import opened Common
  import opened Distance

  type NodeId = nat

  /** `endpoint` stands for the address and ports; `sha` is the hash of the ID. */
  datatype Node = Node(id: NodeId, sha: Hash, endpoint: nat)

  datatype Bucket = Bucket(entries: seq<Node>, replacements: seq<Node>)

  const BUCKET_SIZE: nat := 16
  const MAX_REPLACEMENTS: nat := 10
  const HASH_BITS: nat := 256
  const N_BUCKETS: nat := HASH_BITS / 15
  const BUCKET_MIN_DISTANCE: nat := HASH_BITS - N_BUCKETS

  lemma LogDistBound(a: Hash, b: Hash)
    ensures BitLen(Dist(a, b)) <= HASH_BITS
  {
    var x := XorSeq(a, b);
    NumBound(x);
    if Num(x) > 0 {
      BitLenIsLog(Num(x));
      if BitLen(Num(x)) > HASH_BITS { Pow2Grows(HASH_BITS, BitLen(Num(x)) - 1); }
    }
  }

  lemma {:induction false} Pow2Grows(m: nat, n: nat)
    requires m <= n
    ensures Bits.Pow2(m) <= Bits.Pow2(n)
    decreases n - m
  {
    if m < n { Pow2Grows(m, n - 1); }
  }

  /** The bucket of a hash, as seen from the local node. */
  function BucketOf(self: Hash, sha: Hash): (i: nat)
    ensures i < N_BUCKETS
  {
    LogDistBound(self, sha);
    var d := BitLen(Dist(self, sha));
    if d <= BUCKET_MIN_DISTANCE then 0 else d - BUCKET_MIN_DISTANCE - 1
  }

  // ----- lists of nodes

  function Ids(list: seq<Node>): set<NodeId> {
    set n | n in list :: n.id
  }

  ghost predicate Distinct(list: seq<Node>) {
    forall i, j :: 0 <= i < j < |list| ==> list[i].id != list[j].id
  }

  /** The list without its first node of this ID. */
  function Deleted(list: seq<Node>, id: NodeId): seq<Node> {
    if list == [] then [] else if list[0].id == id then list[1..] else [list[0]] + Deleted(list[1..], id)
  }

  /** The node in front, and the last one dropped if the list was full. */
  function Pushed(list: seq<Node>, n: Node, max: nat): seq<Node>
    requires 0 < max
  {
    [n] + if |list| < max then list else list[..|list| - 1]
  }

  lemma {:induction false} DeletedSubset(list: seq<Node>, id: NodeId)
    ensures forall n :: n in Deleted(list, id) ==> n in list
    ensures forall n :: n in list && n.id != id ==> n in Deleted(list, id)
    ensures |Deleted(list, id)| == if id in Ids(list) then |list| - 1 else |list|
  {
    if list != [] {
      DeletedSubset(list[1..], id);
      assert list == [list[0]] + list[1..];
      assert Ids(list) == {list[0].id} + Ids(list[1..]);
    }
  }

  lemma {:induction false} DeletedDistinct(list: seq<Node>, id: NodeId)
    requires Distinct(list)
    ensures Distinct(Deleted(list, id)) && Ids(Deleted(list, id)) == Ids(list) - {id}
  {
    if list != [] {
      var tail := list[1..];
      assert list == [list[0]] + tail;
      assert Ids(list) == {list[0].id} + Ids(tail);
      DeletedDistinct(tail, id);
      if list[0].id != id {
        ConsDistinct(list[0], Deleted(tail, id));
      }
    }
  }

  lemma ConsDistinct(n: Node, list: seq<Node>)
    requires Distinct(list) && n.id !in Ids(list)
    ensures Distinct([n] + list) && Ids([n] + list) == {n.id} + Ids(list)
  {
  }

  lemma PushedDistinct(list: seq<Node>, n: Node, max: nat)
    requires Distinct(list) && n.id !in Ids(list) && 0 < max && |list| <= max
    ensures Distinct(Pushed(list, n, max)) && |Pushed(list, n, max)| <= max
    ensures Ids(Pushed(list, n, max)) <= {n.id} + Ids(list)
    ensures |list| < max ==> Ids(Pushed(list, n, max)) == {n.id} + Ids(list)
    ensures forall m :: m in Pushed(list, n, max) ==> m == n || m in list
  {
  }

  // ----- what a bucket keeps

  /** The hash of every node is that of its ID, and it belongs in this bucket. */
  ghost predicate AtHome(list: seq<Node>, h: NodeId -> Hash, self: Hash, bi: nat) {
    forall n :: n in list ==> n.sha == h(n.id) && BucketOf(self, n.sha) == bi
  }

  ghost predicate BucketInv(b: Bucket, h: NodeId -> Hash, self: Hash, bi: nat) {
    && |b.entries| <= BUCKET_SIZE && |b.replacements| <= MAX_REPLACEMENTS
    && Distinct(b.entries) && Distinct(b.replacements) && Ids(b.entries) !! Ids(b.replacements)
    && AtHome(b.entries, h, self, bi) && AtHome(b.replacements, h, self, bi)
  }

  ghost predicate Belongs(n: Node, h: NodeId -> Hash, self: Hash, bi: nat) {
    n.sha == h(n.id) && BucketOf(self, n.sha) == bi
  }

  /** Move the node to the front, if its ID is there. */
  function Bumped(list: seq<Node>, n: Node): seq<Node> {
    if n.id in Ids(list) then [n] + Deleted(list, n.id) else list
  }

  lemma BumpedKeeps(list: seq<Node>, n: Node, h: NodeId -> Hash, self: Hash, bi: nat)
    requires Distinct(list) && AtHome(list, h, self, bi) && Belongs(n, h, self, bi)
    ensures Distinct(Bumped(list, n)) && Ids(Bumped(list, n)) == Ids(list)
    ensures |Bumped(list, n)| == |list| && AtHome(Bumped(list, n), h, self, bi)
  {
    if n.id in Ids(list) {
      DeletedSubset(list, n.id);
      DeletedDistinct(list, n.id);
      ConsDistinct(n, Deleted(list, n.id));
    }
  }

  /** The new bucket, and whether the node is in its entries. */
  function BumpOrAdd(b: Bucket, n: Node, ipOk: bool): (Bucket, bool) {
    if n.id in Ids(b.entries) then (Bucket(Bumped(b.entries, n), b.replacements), true)
    else if |b.entries| >= BUCKET_SIZE || !ipOk then (b, false)
    else (Bucket(Pushed(b.entries, n, BUCKET_SIZE), Deleted(b.replacements, n.id)), true)
  }

  function AddReplacement(b: Bucket, n: Node, ipOk: bool): Bucket {
    if n.id in Ids(b.replacements) || !ipOk then b
    else Bucket(b.entries, Pushed(b.replacements, n, MAX_REPLACEMENTS))
  }

  function AddTo(b: Bucket, n: Node, ipOk: bool, ipOk2: bool): Bucket {
    var (c, done) := BumpOrAdd(b, n, ipOk);
    if done then c else AddReplacement(c, n, ipOk2)
  }

  function Replace(b: Bucket, last: Node, choice: nat): Bucket
    requires b.replacements != [] ==> choice < |b.replacements|
  {
    var k := |b.entries|;
    if k == 0 || b.entries[k - 1].id != last.id then b
    else if b.replacements == [] then Bucket(Deleted(b.entries, last.id), [])
    else
      var r := b.replacements[choice];
      Bucket(b.entries[..k - 1] + [r], Deleted(b.replacements, r.id))
  }

  lemma AddEntryKeepsInv(b: Bucket, n: Node, h: NodeId -> Hash, self: Hash, bi: nat)
    requires BucketInv(b, h, self, bi) && Belongs(n, h, self, bi)
    requires n.id !in Ids(b.entries) && |b.entries| < BUCKET_SIZE
    ensures BucketInv(Bucket(Pushed(b.entries, n, BUCKET_SIZE), Deleted(b.replacements, n.id)), h, self, bi)
  {
    PushedDistinct(b.entries, n, BUCKET_SIZE);
    DeletedSubset(b.replacements, n.id);
    DeletedDistinct(b.replacements, n.id);
  }

  lemma BumpOrAddKeepsInv(b: Bucket, n: Node, ipOk: bool, h: NodeId -> Hash, self: Hash, bi: nat)
    requires BucketInv(b, h, self, bi) && Belongs(n, h, self, bi)
    ensures BucketInv(BumpOrAdd(b, n, ipOk).0, h, self, bi)
  {
    if n.id in Ids(b.entries) {
      BumpedKeeps(b.entries, n, h, self, bi);
    } else if |b.entries| < BUCKET_SIZE && ipOk {
      AddEntryKeepsInv(b, n, h, self, bi);
    }
  }

  lemma AddToKeepsInv(b: Bucket, n: Node, ipOk: bool, ipOk2: bool, h: NodeId -> Hash, self: Hash, bi: nat)
    requires BucketInv(b, h, self, bi) && Belongs(n, h, self, bi)
    ensures BucketInv(AddTo(b, n, ipOk, ipOk2), h, self, bi)
  {
    BumpOrAddKeepsInv(b, n, ipOk, h, self, bi);
    if !BumpOrAdd(b, n, ipOk).1 && n.id !in Ids(b.replacements) {
      PushedDistinct(b.replacements, n, MAX_REPLACEMENTS);
    }
  }

  lemma DeleteKeepsInv(b: Bucket, id: NodeId, h: NodeId -> Hash, self: Hash, bi: nat)
    requires BucketInv(b, h, self, bi)
    ensures BucketInv(Bucket(Deleted(b.entries, id), b.replacements), h, self, bi)
  {
    DeletedSubset(b.entries, id);
    DeletedDistinct(b.entries, id);
  }

  lemma SwapLast(list: seq<Node>, r: Node)
    requires list != [] && Distinct(list) && r.id !in Ids(list)
    ensures Distinct(list[..|list| - 1] + [r]) && Ids(list[..|list| - 1] + [r]) <= Ids(list) + {r.id}
    ensures forall m :: m in list[..|list| - 1] + [r] ==> m == r || m in list
  {
  }

  lemma ReplaceKeepsInv(b: Bucket, last: Node, choice: nat, h: NodeId -> Hash, self: Hash, bi: nat)
    requires BucketInv(b, h, self, bi) && (b.replacements != [] ==> choice < |b.replacements|)
    ensures BucketInv(Replace(b, last, choice), h, self, bi)
  {
    DeleteKeepsInv(b, last.id, h, self, bi);
    if b.entries != [] && b.replacements != [] {
      var r := b.replacements[choice];
      assert r in b.replacements;
      SwapLast(b.entries, r);
      DeletedSubset(b.replacements, r.id);
      DeletedDistinct(b.replacements, r.id);
    }
  }

  // ----- runs of the table

  /** `checking` is the node picked for revalidation whose answer is awaited, with its bucket. */
  datatype State = State(buckets: seq<Bucket>, checking: Option<(Node, nat)>)

  datatype Event =
    | Add(n: Node, ipOk: bool, ipOk2: bool)
    | Stuff(n: Node, ipOk: bool)
    | Delete(n: Node)
    | Pick(bi: nat)
    | Answer(alive: bool, choice: nat)

  /** One node at a time is revalidated, and the answer may come when the bucket has changed; the
      replacement is drawn from those there are. */
  predicate Enabled(s: State, e: Event) {
    && |s.buckets| == N_BUCKETS
    && match e
       case Add(_, _, _) => true
       case Stuff(_, _) => true
       case Delete(_) => true
       case Pick(bi) => bi < N_BUCKETS && s.buckets[bi].entries != [] && s.checking.None?
       case Answer(_, choice) =>
         && s.checking.Some? && s.checking.value.1 < N_BUCKETS
         && var b := s.buckets[s.checking.value.1]; b.replacements != [] ==> choice < |b.replacements|
  }

  /** A node that is added carries the hash of its ID. */
  predicate Hashed(e: Event, h: NodeId -> Hash) {
    match e
    case Add(n, _, _) => n.sha == h(n.id)
    case Stuff(n, _) => n.sha == h(n.id)
    case _ => true
  }

  function Next(s: State, e: Event, selfId: NodeId, self: Hash): State
    requires Enabled(s, e)
  {
    match e
    case Add(n, ipOk, ipOk2) =>
      var i := BucketOf(self, n.sha);
      State(s.buckets[i := AddTo(s.buckets[i], n, ipOk, ipOk2)], s.checking)
    case Stuff(n, ipOk) =>
      var i := BucketOf(self, n.sha);
      if n.id == selfId || |s.buckets[i].entries| >= BUCKET_SIZE then s
      else State(s.buckets[i := BumpOrAdd(s.buckets[i], n, ipOk).0], s.checking)
    case Delete(n) =>
      var i := BucketOf(self, n.sha);
      State(s.buckets[i := Bucket(Deleted(s.buckets[i].entries, n.id), s.buckets[i].replacements)], s.checking)
    case Pick(bi) =>
      var es := s.buckets[bi].entries;
      State(s.buckets, Some((es[|es| - 1], bi)))
    case Answer(alive, choice) =>
      var (last, i) := s.checking.value;
      var b := s.buckets[i];
      var c := if alive then Bucket(Bumped(b.entries, last), b.replacements) else Replace(b, last, choice);
      State(s.buckets[i := c], None)
  }

  ghost predicate Inv(s: State, h: NodeId -> Hash, self: Hash) {
    && |s.buckets| == N_BUCKETS
    && (forall i :: 0 <= i < N_BUCKETS ==> BucketInv(s.buckets[i], h, self, i))
    && (s.checking.Some? ==> s.checking.value.1 < N_BUCKETS && Belongs(s.checking.value.0, h, self, s.checking.value.1))
  }

  /** The node that answers may have moved meanwhile: it is bumped only where it still is. */
  lemma AnswerKeepsBucket(b: Bucket, last: Node, alive: bool, choice: nat, h: NodeId -> Hash, self: Hash, bi: nat)
    requires BucketInv(b, h, self, bi) && Belongs(last, h, self, bi)
    requires b.replacements != [] ==> choice < |b.replacements|
    ensures var c := if alive then Bucket(Bumped(b.entries, last), b.replacements) else Replace(b, last, choice);
            BucketInv(c, h, self, bi)
  {
    BumpedKeeps(b.entries, last, h, self, bi);
    ReplaceKeepsInv(b, last, choice, h, self, bi);
  }

  lemma StepKeepsInv(s: State, e: Event, selfId: NodeId, h: NodeId -> Hash, self: Hash)
    requires Inv(s, h, self) && Enabled(s, e) && Hashed(e, h)
    ensures Inv(Next(s, e, selfId, self), h, self)
  {
    match e
    case Add(n, ipOk, ipOk2) =>
      AddToKeepsInv(s.buckets[BucketOf(self, n.sha)], n, ipOk, ipOk2, h, self, BucketOf(self, n.sha));
    case Stuff(n, ipOk) =>
      BumpOrAddKeepsInv(s.buckets[BucketOf(self, n.sha)], n, ipOk, h, self, BucketOf(self, n.sha));
    case Delete(n) =>
      DeleteKeepsInv(s.buckets[BucketOf(self, n.sha)], n.id, h, self, BucketOf(self, n.sha));
    case Pick(bi) =>
      var es := s.buckets[bi].entries;
      assert es[|es| - 1] in es;
    case Answer(alive, choice) =>
      AnswerKeepsBucket(s.buckets[s.checking.value.1], s.checking.value.0, alive, choice, h, self, s.checking.value.1);
  }

  predicate Run(s: State, es: seq<Event>, t: State, selfId: NodeId, h: NodeId -> Hash, self: Hash)
    decreases |es|
  {
    if es == [] then s == t
    else Enabled(s, es[0]) && Hashed(es[0], h) && Run(Next(s, es[0], selfId, self), es[1..], t, selfId, h, self)
  }

  /** What every table holds to: small buckets, every node in the bucket of its own hash, and every ID
      at most once in the whole table, entries and replacements together. */
  ghost predicate Sound(s: State, h: NodeId -> Hash, self: Hash) {
    && |s.buckets| == N_BUCKETS
    && (forall b :: b in s.buckets ==> |b.entries| <= 16 && |b.replacements| <= 10)
    && (forall i, n :: 0 <= i < N_BUCKETS && n in s.buckets[i].entries + s.buckets[i].replacements ==>
          BucketOf(self, h(n.id)) == i)
    && (forall b :: b in s.buckets ==> Distinct(b.entries + b.replacements))
    && (forall i, j :: 0 <= i < j < N_BUCKETS ==>
          Ids(s.buckets[i].entries + s.buckets[i].replacements)
          !! Ids(s.buckets[j].entries + s.buckets[j].replacements))
  }

  lemma BucketIsSound(b: Bucket, h: NodeId -> Hash, self: Hash, bi: nat)
    requires BucketInv(b, h, self, bi)
    ensures Distinct(b.entries + b.replacements)
    ensures forall n :: n in b.entries + b.replacements ==> BucketOf(self, h(n.id)) == bi
  {
    var l := b.entries + b.replacements;
    forall i, j | 0 <= i < j < |l| ensures l[i].id != l[j].id {
      if i < |b.entries| <= j {
        assert l[i] in b.entries && l[j] in b.replacements;
        assert l[i].id in Ids(b.entries) && l[j].id in Ids(b.replacements);
      }
    }
  }

  lemma InvIsSound(s: State, h: NodeId -> Hash, self: Hash)
    requires Inv(s, h, self)
    ensures Sound(s, h, self)
  {
    forall i | 0 <= i < N_BUCKETS
      ensures Distinct(s.buckets[i].entries + s.buckets[i].replacements)
      ensures forall n :: n in s.buckets[i].entries + s.buckets[i].replacements ==> BucketOf(self, h(n.id)) == i
    {
      BucketIsSound(s.buckets[i], h, self, i);
    }
  }

  lemma {:induction false} RunKeepsInv(s: State, es: seq<Event>, t: State, selfId: NodeId, h: NodeId -> Hash,
                                       self: Hash)
    requires Inv(s, h, self) && Run(s, es, t, selfId, h, self)
    ensures Inv(t, h, self)
    decreases |es|
  {
    if es != [] {
      StepKeepsInv(s, es[0], selfId, h, self);
      RunKeepsInv(Next(s, es[0], selfId, self), es[1..], t, selfId, h, self);
    }
  }

  function Empty(): State {
    State(seq(N_BUCKETS, _ => Bucket([], [])), None)
  }

  /** Every table that a run of the operations builds from the empty one is sound. */
  lemma EveryTableIsSound(es: seq<Event>, t: State, selfId: NodeId, h: NodeId -> Hash, self: Hash)
    requires Run(Empty(), es, t, selfId, h, self)
    ensures Sound(t, h, self)
  {
    EmptyInv(h, self);
    RunKeepsInv(Empty(), es, t, selfId, h, self);
    InvIsSound(t, h, self);
  }

  lemma EmptyInv(h: NodeId -> Hash, self: Hash)
    ensures Inv(Empty(), h, self)
  {
  }
}
