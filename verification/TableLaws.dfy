/** What each operation of the node table does to a bucket, place by place (p2p/discover/table.go), and which
    distances a bucket is for. */
module TableLaws {
  import opened Common
  import opened Distance
  import opened Table
  import TableOps
  import Bits

  // ----- lists, place by place

  lemma {:induction false} DeletedAt(list: seq<Node>, id: NodeId, j: nat)
    requires Distinct(list) && j < |list| && list[j].id == id
    ensures Deleted(list, id) == list[..j] + list[j + 1..]
  {
    if j > 0 {
      assert Distinct(list[1..]);
      DeletedAt(list[1..], id, j - 1);
      assert list[..j] == [list[0]] + list[1..][..j - 1] && list[j + 1..] == list[1..][j..];
    }
  }

  /** The place of an ID in a list, or None. */
  function PlaceOf(list: seq<Node>, id: NodeId): (r: Option<nat>)
    ensures r.Some? ==> r.value < |list| && list[r.value].id == id
    ensures r.None? ==> forall j :: 0 <= j < |list| ==> list[j].id != id
  {
    if list == [] then None
    else if list[0].id == id then Some(0)
    else
      var rest := PlaceOf(list[1..], id);
      if rest.None? then None else Some(rest.value + 1)
  }

  /** The list without place j. */
  function Without(list: seq<Node>, j: nat): seq<Node>
    requires j < |list|
  {
    list[..j] + list[j + 1..]
  }

  lemma DeletedIs(list: seq<Node>, id: NodeId)
    requires Distinct(list)
    ensures var j := PlaceOf(list, id);
            && Deleted(list, id) == (if j.Some? then Without(list, j.value) else list)
            && (id in Ids(list) <==> j.Some?)
  {
    var j := PlaceOf(list, id);
    if j.Some? {
      DeletedAt(list, id, j.value);
      assert list[j.value] in list;
    } else {
      TableOps.DeletedAbsent(list, id);
    }
  }

  // ----- revalidation

  /** A node that did not answer and is still the last entry is gone: a former replacement has its place and
      is no replacement any more, or, with no replacement, the place is gone too.  In any other case nothing
      changes. */
  lemma DeadIsReplaced(s: State, choice: nat, selfId: NodeId, h: NodeId -> Hash, self: Hash)
    requires Inv(s, h, self) && Enabled(s, Answer(false, choice))
    ensures var (last, i) := s.checking.value;
            var b, t := s.buckets[i], Next(s, Answer(false, choice), selfId, self);
            var c, k := t.buckets[i], |b.entries|;
            && t.checking == None && (forall j :: 0 <= j < N_BUCKETS && j != i ==> t.buckets[j] == s.buckets[j])
            && (if k == 0 || b.entries[k - 1].id != last.id then c == b
                else if b.replacements == [] then c == Bucket(b.entries[..k - 1], [])
                else c == Bucket(b.entries[..k - 1] + [b.replacements[choice]], Without(b.replacements, choice)))
            && (k > 0 && b.entries[k - 1].id == last.id ==> last.id !in Ids(c.entries) + Ids(c.replacements))
  {
    var (last, i) := s.checking.value;
    var b := s.buckets[i];
    var k := |b.entries|;
    assert BucketInv(b, h, self, i);
    if k > 0 && b.entries[k - 1].id == last.id {
      assert b.entries[k - 1] in b.entries;
      DeletedAt(b.entries, last.id, k - 1);
      if b.replacements != [] {
        var r := b.replacements[choice];
        DeletedAt(b.replacements, r.id, choice);
        LastIsGone(b, choice);
      } else {
        LastIsOnce(b.entries);
      }
    }
  }

  lemma LastIsOnce(list: seq<Node>)
    requires list != [] && Distinct(list)
    ensures list[|list| - 1].id !in Ids(list[..|list| - 1])
  {
  }

  lemma LastIsGone(b: Bucket, choice: nat)
    requires Distinct(b.entries) && Ids(b.entries) !! Ids(b.replacements)
    requires b.entries != [] && choice < |b.replacements|
    ensures var k := |b.entries|;
            var id := b.entries[k - 1].id;
            id !in Ids(b.entries[..k - 1] + [b.replacements[choice]]) && id !in Ids(Without(b.replacements, choice))
  {
    var k := |b.entries|;
    LastIsOnce(b.entries);
    assert b.entries[k - 1] in b.entries && b.replacements[choice] in b.replacements;
    assert b.entries[k - 1].id in Ids(b.entries) && b.replacements[choice].id in Ids(b.replacements);
    forall n | n in Without(b.replacements, choice) ensures n.id in Ids(b.replacements) {
      assert n in b.replacements;
    }
  }

  /** A node that answered goes to the front if it is still an entry. */
  lemma AliveIsBumped(s: State, choice: nat, selfId: NodeId, h: NodeId -> Hash, self: Hash)
    requires Inv(s, h, self) && Enabled(s, Answer(true, choice))
    ensures var (last, i) := s.checking.value;
            var b, t := s.buckets[i], Next(s, Answer(true, choice), selfId, self);
            var j := PlaceOf(b.entries, last.id);
            && t.checking == None && (forall k :: 0 <= k < N_BUCKETS && k != i ==> t.buckets[k] == s.buckets[k])
            && t.buckets[i].replacements == b.replacements
            && t.buckets[i].entries == if j.Some? then [last] + Without(b.entries, j.value) else b.entries
  {
    var (last, i) := s.checking.value;
    assert BucketInv(s.buckets[i], h, self, i);
    DeletedIs(s.buckets[i].entries, last.id);
  }

  /** The node picked for revalidation is the last entry of its bucket. */
  lemma LastIsPicked(s: State, bi: nat, selfId: NodeId, self: Hash)
    requires Enabled(s, Pick(bi))
    ensures var t, es := Next(s, Pick(bi), selfId, self), s.buckets[bi].entries;
            t.buckets == s.buckets && t.checking == Some((es[|es| - 1], bi))
  {
  }

  // ----- adding and deleting

  /** The bucket after a node was added: an entry comes to the front with its new endpoint; a new node comes
      to the front if there is room and its address is accepted, and is no replacement then; otherwise it
      becomes the first replacement, unless it is one or its address is refused, and the last of ten goes. */
  lemma AddedNode(s: State, n: Node, ipOk: bool, ipOk2: bool, selfId: NodeId, h: NodeId -> Hash, self: Hash)
    requires Inv(s, h, self) && Enabled(s, Add(n, ipOk, ipOk2))
    ensures var i, t := BucketOf(self, n.sha), Next(s, Add(n, ipOk, ipOk2), selfId, self);
            var b, c := s.buckets[i], t.buckets[i];
            var j, r := PlaceOf(b.entries, n.id), PlaceOf(b.replacements, n.id);
            && t.checking == s.checking && (forall k :: 0 <= k < N_BUCKETS && k != i ==> t.buckets[k] == s.buckets[k])
            && if j.Some? then c == Bucket([n] + Without(b.entries, j.value), b.replacements)
               else if |b.entries| < 16 && ipOk then
                 c == Bucket([n] + b.entries, if r.Some? then Without(b.replacements, r.value) else b.replacements)
               else if r.Some? || !ipOk2 then c == b
               else c == Bucket(b.entries, [n] + if |b.replacements| < 10 then b.replacements else b.replacements[..9])
  {
    var b := s.buckets[BucketOf(self, n.sha)];
    assert BucketInv(b, h, self, BucketOf(self, n.sha));
    AddedTo(b, n, ipOk, ipOk2);
  }

  lemma AddedTo(b: Bucket, n: Node, ipOk: bool, ipOk2: bool)
    requires Distinct(b.entries) && Distinct(b.replacements) && |b.replacements| <= 10
    ensures var c, j, r := AddTo(b, n, ipOk, ipOk2), PlaceOf(b.entries, n.id), PlaceOf(b.replacements, n.id);
            if j.Some? then c == Bucket([n] + Without(b.entries, j.value), b.replacements)
            else if |b.entries| < 16 && ipOk then
              c == Bucket([n] + b.entries, if r.Some? then Without(b.replacements, r.value) else b.replacements)
            else if r.Some? || !ipOk2 then c == b
            else c == Bucket(b.entries, [n] + if |b.replacements| < 10 then b.replacements else b.replacements[..9])
  {
    DeletedIs(b.entries, n.id);
    DeletedIs(b.replacements, n.id);
  }

  /** Stuffing never adds ourselves, never touches a full bucket, and is otherwise adding without the
      replacements. */
  lemma StuffedNode(s: State, n: Node, ipOk: bool, selfId: NodeId, h: NodeId -> Hash, self: Hash)
    requires Inv(s, h, self) && Enabled(s, Stuff(n, ipOk))
    ensures var i, t := BucketOf(self, n.sha), Next(s, Stuff(n, ipOk), selfId, self);
            var b, c := s.buckets[i], t.buckets[i];
            var j, r := PlaceOf(b.entries, n.id), PlaceOf(b.replacements, n.id);
            && t.checking == s.checking && (forall k :: 0 <= k < N_BUCKETS && k != i ==> t.buckets[k] == s.buckets[k])
            && if n.id == selfId || |b.entries| == 16 then c == b
               else if j.Some? then c == Bucket([n] + Without(b.entries, j.value), b.replacements)
               else if !ipOk then c == b
               else c == Bucket([n] + b.entries, if r.Some? then Without(b.replacements, r.value) else b.replacements)
  {
    var b := s.buckets[BucketOf(self, n.sha)];
    assert BucketInv(b, h, self, BucketOf(self, n.sha));
    DeletedIs(b.entries, n.id);
    DeletedIs(b.replacements, n.id);
  }

  lemma DeletedNode(s: State, n: Node, selfId: NodeId, h: NodeId -> Hash, self: Hash)
    requires Inv(s, h, self) && Enabled(s, Delete(n))
    ensures var i, t := BucketOf(self, n.sha), Next(s, Delete(n), selfId, self);
            var b, c := s.buckets[i], t.buckets[i];
            var j := PlaceOf(b.entries, n.id);
            && t.checking == s.checking && (forall k :: 0 <= k < N_BUCKETS && k != i ==> t.buckets[k] == s.buckets[k])
            && c == Bucket(if j.Some? then Without(b.entries, j.value) else b.entries, b.replacements)
  {
    var b := s.buckets[BucketOf(self, n.sha)];
    assert BucketInv(b, h, self, BucketOf(self, n.sha));
    DeletedIs(b.entries, n.id);
  }

  // ----- the distances of a bucket

  /** Bucket 0 is for all distances below 2^240, bucket i for those from 2^(239 + i) up to 2^(240 + i). */
  lemma BucketByDistance(self: Hash, sha: Hash)
    ensures var i, d := BucketOf(self, sha), Dist(self, sha);
            d < Bits.Pow2(240 + i) && (i > 0 ==> Bits.Pow2(239 + i) <= d)
  {
    var d, i := Dist(self, sha), BucketOf(self, sha);
    LogDistBound(self, sha);
    if d > 0 {
      BitLenIsLog(d);
      Pow2Grows(BitLen(d), 240 + i);
    }
  }
}
