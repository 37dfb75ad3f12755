/** The growing circular list of blocks of common/queue/queue.go, refined to a plain sequence. */
module BlockQueue {
  import opened Common

  const BLOCK_SIZE: nat := 4096

  /** The index q blocks after `head` in a circle of n blocks. */
  function Around(head: nat, q: nat, n: nat): nat {
    if head + q < n then head + q else if head + q < 2 * n then head + q - n else 0
  }

  /** The number of blocks from `head` forward to `tail`. */
  function Distance(head: nat, tail: nat, n: nat): nat
    requires head < n
  {
    if tail >= head then tail - head else n - head + tail
  }

  lemma NextIndex(i: nat, n: nat)
    requires i < n
    ensures (i + 1) % n == (if i + 1 == n then 0 else i + 1)
  {
  }

  // ----- slots, on the values held by the blocks

  type View<T> = seq<seq<Option<T>>>

  /** What is stored p places after the start of block h, going around the circle. */
  function Slot<T>(v: View<T>, h: nat, p: nat): Option<T> {
    var i := Around(h, p / BLOCK_SIZE, |v|);
    if i < |v| && p % BLOCK_SIZE < |v[i]| then v[i][p % BLOCK_SIZE] else None
  }

  /** The slots from place `off` of block h on hold c. */
  ghost predicate Represents<T>(v: View<T>, h: nat, off: nat, c: seq<T>) {
    forall k: nat :: k < |c| ==> Slot(v, h, off + k) == Some(c[k])
  }

  ghost predicate Blocks<T>(v: View<T>) {
    forall i :: 0 <= i < |v| ==> |v[i]| == BLOCK_SIZE
  }

  /** Different places less than a full circle apart are different slots. */
  lemma SlotsDiffer(h: nat, n: nat, p: nat, r: nat)
    requires h < n && p < n * BLOCK_SIZE && r < n * BLOCK_SIZE && p != r
    ensures Around(h, p / BLOCK_SIZE, n) != Around(h, r / BLOCK_SIZE, n) || p % BLOCK_SIZE != r % BLOCK_SIZE
  {
  }

  lemma StoreRepresents<T>(v: View<T>, h: nat, off: nat, c: seq<T>, p: nat, x: T)
    requires h < |v| && Blocks(v) && Represents(v, h, off, c)
    requires p == off + |c| < |v| * BLOCK_SIZE
    ensures var i := Around(h, p / BLOCK_SIZE, |v|);
            && i < |v|
            && Represents(v[i := v[i][p % BLOCK_SIZE := Some(x)]], h, off, c + [x])
  {
    var i := Around(h, p / BLOCK_SIZE, |v|);
    assert p / BLOCK_SIZE < |v|;
    var v' := v[i := v[i][p % BLOCK_SIZE := Some(x)]];
    forall k: nat | k < |c| + 1 ensures Slot(v', h, off + k) == Some((c + [x])[k]) {
      if k < |c| {
        assert Slot(v, h, off + k) == Some(c[k]);
        SlotsDiffer(h, |v|, off + k, p);
      }
    }
  }

  /** w is v with b in front of place h. */
  ghost predicate Inserted<A>(v: seq<A>, w: seq<A>, h: nat, b: A) {
    h <= |v| && |w| == |v| + 1 && w[..h] == v[..h] && w[h] == b && w[h + 1..] == v[h..]
  }

  lemma InsertRepresents<T>(v: View<T>, w: View<T>, h: nat, off: nat, c: seq<T>, b: seq<Option<T>>)
    requires h < |v| && Represents(v, h, off, c) && off + |c| <= |v| * BLOCK_SIZE && Inserted(v, w, h, b)
    ensures Represents(w, h + 1, off, c)
  {
    forall k: nat | k < |c| ensures Slot(w, h + 1, off + k) == Some(c[k]) {
      assert Slot(v, h, off + k) == Some(c[k]);
      var q := (off + k) / BLOCK_SIZE;
      assert q < |v|;
      var i := Around(h, q, |v|);
      assert Around(h + 1, q, |v| + 1) == (if i >= h then i + 1 else i);
      if i >= h { assert w[h + 1..][i - h] == v[h..][i - h]; } else { assert w[..h][i] == v[..h][i]; }
    }
  }

  lemma ClearRepresents<T>(v: View<T>, h: nat, off: nat, c: seq<T>)
    requires h < |v| && Blocks(v) && off < BLOCK_SIZE && c != [] && Represents(v, h, off, c)
    requires off + |c| <= |v| * BLOCK_SIZE
    ensures v[h][off] == Some(c[0]) && Represents(v[h := v[h][off := None]], h, off + 1, c[1..])
  {
    assert Slot(v, h, off + 0) == Some(c[0]);
    var v' := v[h := v[h][off := None]];
    forall k: nat | k < |c| - 1 ensures Slot(v', h, off + 1 + k) == Some(c[1..][k]) {
      assert Slot(v, h, off + (k + 1)) == Some(c[k + 1]);
      SlotsDiffer(h, |v|, off, off + (k + 1));
    }
  }

  lemma NextHeadRepresents<T>(v: View<T>, h: nat, c: seq<T>)
    requires h < |v| && Represents(v, h, BLOCK_SIZE, c) && BLOCK_SIZE + |c| <= |v| * BLOCK_SIZE
    ensures Represents(v, if h + 1 == |v| then 0 else h + 1, 0, c)
  {
    var h' := if h + 1 == |v| then 0 else h + 1;
    forall k: nat | k < |c| ensures Slot(v, h', 0 + k) == Some(c[k]) {
      assert Slot(v, h, BLOCK_SIZE + k) == Some(c[k]);
      assert (BLOCK_SIZE + k) / BLOCK_SIZE == k / BLOCK_SIZE + 1 && (BLOCK_SIZE + k) % BLOCK_SIZE == k % BLOCK_SIZE;
      assert Around(h', k / BLOCK_SIZE, |v|) == Around(h, k / BLOCK_SIZE + 1, |v|);
    }
  }

  lemma InsertDistinct<A>(s: seq<A>, b: A, h: nat)
    requires NoDuplicates(s) && b !in s && h <= |s|
    ensures NoDuplicates(s[..h] + [b] + s[h..])
  {
  }

  class Queue<T> {
    var tailIdx: nat
    var headIdx: nat
    var tailOff: nat
    var headOff: nat
    var blocks: seq<array<Option<T>>>
    var head: array<Option<T>>
    var tail: array<Option<T>>
    ghost var contents: seq<T>

    /** What the blocks hold. */
    ghost var values: View<T>

    /** Distinct full-size blocks; head and tail are the blocks at their indices. */
    ghost predicate Shape()
      reads this, blocks
    {
      && headIdx < |blocks| && tailIdx < |blocks|
      && head == blocks[headIdx] && tail == blocks[tailIdx]
      && NoDuplicates(blocks) && Held()
    }

    ghost predicate Held()
      reads this, blocks
    {
      && |values| == |blocks|
      && forall i :: 0 <= i < |blocks| ==> blocks[i].Length == BLOCK_SIZE && values[i] == blocks[i][..]
    }

    /** The stretch from the head slot to the tail slot, which has room for the contents. */
    ghost predicate Span()
      reads this
    {
      && headIdx < |blocks| && tailIdx < |blocks|
      && headOff + |contents| == Distance(headIdx, tailIdx, |blocks|) * BLOCK_SIZE + tailOff
    }

    ghost predicate Valid()
      reads this, blocks
    {
      && Shape() && Span() && headOff < BLOCK_SIZE && tailOff < BLOCK_SIZE
      && Represents(values, headIdx, headOff, contents)
    }

    constructor ()
      ensures Valid() && contents == [] && forall b :: b in blocks ==> fresh(b)
    {
      var b := new Option<T>[BLOCK_SIZE](_ => None);
      blocks, head, tail := [b], b, b;
      tailIdx, headIdx, tailOff, headOff := 0, 0, 0, 0;
      contents, values := [], [b[..]];
    }

    method Push(data: T)
      requires Valid()
      modifies this, tail
      ensures Valid() && contents == old(contents) + [data]
      ensures forall b :: b in blocks ==> b in old(blocks) || fresh(b)
    {
      Store(data);
      if tailOff == BLOCK_SIZE {
        NextTail();
      }
    }

    method Store(data: T)
      requires Valid()
      modifies this`tailOff, this`contents, this`values, tail
      ensures Shape() && Span() && Represents(values, headIdx, headOff, contents)
      ensures contents == old(contents) + [data] && tailOff == old(tailOff) + 1
    {
      ghost var p := headOff + |contents|;
      assert p / BLOCK_SIZE == Distance(headIdx, tailIdx, |blocks|) && p % BLOCK_SIZE == tailOff;
      StoreRepresents(values, headIdx, headOff, contents, p, data);
      tail[tailOff] := Some(data);
      values := values[tailIdx := values[tailIdx][tailOff := Some(data)]];
      tailOff := tailOff + 1;
      contents := contents + [data];
    }

    /** The tail moves on to the next block; if that is the head block, a new one is inserted. */
    method NextTail()
      requires Shape() && Span() && headOff < BLOCK_SIZE && tailOff == BLOCK_SIZE
      requires Represents(values, headIdx, headOff, contents)
      modifies this
      ensures Valid() && contents == old(contents)
      ensures forall b :: b in blocks ==> b in old(blocks) || fresh(b)
    {
      NextIndex(tailIdx, |blocks|);
      tailOff := 0;
      tailIdx := (tailIdx + 1) % |blocks|;
      if tailIdx == headIdx {
        InsertBlock();
      } else {
        tail := blocks[tailIdx];
      }
    }

    /** Between full blocks, a new tail block goes in before the head block. */
    method InsertBlock()
      requires tailIdx == headIdx < |blocks| && tailOff == 0 && headOff < BLOCK_SIZE
      requires headOff + |contents| == |blocks| * BLOCK_SIZE
      requires NoDuplicates(blocks) && Held() && Represents(values, headIdx, headOff, contents)
      modifies this`blocks, this`headIdx, this`head, this`tail, this`values
      ensures Valid()
      ensures forall b :: b in blocks ==> b in old(blocks) || fresh(b)
    {
      var b := new Option<T>[BLOCK_SIZE](_ => None);
      MakeRoom(b);
      headIdx := headIdx + 1;
      head, tail := blocks[headIdx], blocks[tailIdx];
    }

    method MakeRoom(b: array<Option<T>>)
      requires tailIdx == headIdx < |blocks| && b !in blocks && b.Length == BLOCK_SIZE
      requires NoDuplicates(blocks) && Held() && Represents(values, headIdx, headOff, contents)
      requires headOff + |contents| == |blocks| * BLOCK_SIZE
      modifies this`blocks, this`values
      ensures NoDuplicates(blocks) && Held() && Represents(values, headIdx + 1, headOff, contents)
      ensures |blocks| == |old(blocks)| + 1 && forall x :: x in blocks ==> x == b || x in old(blocks)
    {
      ghost var was := values;
      PlaceBlock(b);
      InsertRepresents(was, values, headIdx, headOff, contents, b[..]);
    }

    method PlaceBlock(b: array<Option<T>>)
      requires tailIdx < |blocks| && b !in blocks && b.Length == BLOCK_SIZE && NoDuplicates(blocks) && Held()
      modifies this`blocks, this`values
      ensures NoDuplicates(blocks) && Held()
      ensures |blocks| == |old(blocks)| + 1 && forall x :: x in blocks ==> x == b || x in old(blocks)
      ensures Inserted(old(values), values, tailIdx, b[..])
    {
      InsertDistinct(blocks, b, tailIdx);
      blocks := blocks[..tailIdx] + [b] + blocks[tailIdx..];
      values := values[..tailIdx] + [b[..]] + values[tailIdx..];
    }

    method Pop() returns (res: T)
      requires Valid() && contents != []
      modifies this, head
      ensures Valid() && contents == old(contents)[1..] && res == old(contents)[0] && blocks == old(blocks)
    {
      res := TakeHead();
      if headOff == BLOCK_SIZE {
        NextHead();
      }
    }

    lemma SpanFits()
      requires Span() && tailOff < BLOCK_SIZE
      ensures headOff + |contents| < |blocks| * BLOCK_SIZE
    {
    }

    method TakeHead() returns (res: T)
      requires Valid() && contents != []
      modifies this`headOff, this`contents, this`values, head
      ensures Shape() && Span() && Represents(values, headIdx, headOff, contents)
      ensures contents == old(contents)[1..] && res == old(contents)[0] && headOff == old(headOff) + 1
    {
      SpanFits();
      ClearRepresents(values, headIdx, headOff, contents);
      res := head[headOff].value;
      ClearSlot();
      headOff, contents := headOff + 1, contents[1..];
    }

    method ClearSlot()
      requires Shape() && headOff < BLOCK_SIZE
      modifies this`values, head
      ensures Shape() && values == old(values)[headIdx := old(values)[headIdx][headOff := None]]
    {
      head[headOff] := None;
      values := values[headIdx := values[headIdx][headOff := None]];
    }

    method NextHead()
      requires Shape() && Span() && headOff == BLOCK_SIZE && tailOff < BLOCK_SIZE
      requires Represents(values, headIdx, headOff, contents)
      modifies this`headOff, this`headIdx, this`head
      ensures Valid()
    {
      NextIndex(headIdx, |blocks|);
      NextHeadRepresents(values, headIdx, contents);
      headOff := 0;
      headIdx := (headIdx + 1) % |blocks|;
      head := blocks[headIdx];
    }

    method Front() returns (res: T)
      requires Valid() && contents != []
      ensures res == contents[0]
    {
      ClearRepresents(values, headIdx, headOff, contents);
      res := head[headOff].value;
    }

    method Empty() returns (empty: bool)
      requires Valid()
      ensures empty <==> contents == []
    {
      empty := headIdx == tailIdx && headOff == tailOff;
    }

    method Size() returns (n: int)
      requires Valid()
      ensures n == |contents|
    {
      if tailIdx > headIdx {
        n := (tailIdx - headIdx) * BLOCK_SIZE - headOff + tailOff;
      } else if tailIdx < headIdx {
        n := (|blocks| - headIdx + tailIdx) * BLOCK_SIZE - headOff + tailOff;
      } else {
        n := tailOff - headOff;
      }
    }
  }

  // ----- whole runs

  /** A request to the queue; a pop of an empty queue is not made. */
  datatype Op<T> = PushOp(data: T) | PopOp

  /** What a plain first-in-first-out sequence answers to a run of requests. */
  function Answers<T>(q: seq<T>, ops: seq<Op<T>>): seq<T>
    decreases |ops|
  {
    if ops == [] then []
    else match ops[0]
      case PushOp(x) => Answers(q + [x], ops[1..])
      case PopOp => if q == [] then Answers(q, ops[1..]) else [q[0]] + Answers(q[1..], ops[1..])
  }

  function Left<T>(q: seq<T>, ops: seq<Op<T>>): seq<T>
    decreases |ops|
  {
    if ops == [] then q
    else match ops[0]
      case PushOp(x) => Left(q + [x], ops[1..])
      case PopOp => if q == [] then Left(q, ops[1..]) else Left(q[1..], ops[1..])
  }

  /** Everything pushed comes out once, in order, or is still there. */
  lemma {:induction false} FifoConserves<T>(q: seq<T>, ops: seq<Op<T>>)
    ensures q + Pushed(ops) == Answers(q, ops) + Left(q, ops)
    decreases |ops|
  {
    if ops == [] {
      assert q + [] == [] + q;
    } else {
      var rest := ops[1..];
      if ops[0].PushOp? {
        var q' := q + [ops[0].data];
        FifoConserves(q', rest);
        assert Pushed(ops) == [ops[0].data] + Pushed(rest);
        assert q + ([ops[0].data] + Pushed(rest)) == q' + Pushed(rest);
      } else if q == [] {
        FifoConserves(q, rest);
        assert Pushed(ops) == [] + Pushed(rest) == Pushed(rest);
      } else {
        FifoConserves(q[1..], rest);
        assert Pushed(ops) == [] + Pushed(rest) == Pushed(rest);
        ConsBoth(q[0], q[1..], Pushed(rest), Answers(q[1..], rest), Left(q[1..], rest));
        assert q == [q[0]] + q[1..];
      }
    }
  }

  lemma ConsBoth<T>(x: T, a: seq<T>, b: seq<T>, c: seq<T>, d: seq<T>)
    requires a + b == c + d
    ensures ([x] + a) + b == ([x] + c) + d
  {
    assert ([x] + a) + b == [x] + (a + b);
    assert ([x] + c) + d == [x] + (c + d);
  }

  function Pushed<T>(ops: seq<Op<T>>): seq<T> {
    if ops == [] then [] else (if ops[0].PushOp? then [ops[0].data] else []) + Pushed(ops[1..])
  }

  /** For every run of requests the block queue answers exactly as the plain sequence does. */
  method Serve<T>(ops: seq<Op<T>>) returns (answers: seq<T>, size: int)
    ensures answers == Answers([], ops) && size == |Left([], ops)|
  {
    var q := new Queue<T>();
    answers := [];
    for i := 0 to |ops|
      invariant q.Valid() && fresh(q) && forall b :: b in q.blocks ==> fresh(b)
      invariant Answers([], ops) == answers + Answers(q.contents, ops[i..])
      invariant Left([], ops) == Left(q.contents, ops[i..])
    {
      assert ops[i..][0] == ops[i] && ops[i..][1..] == ops[i + 1..];
      assert q.tail in q.blocks && q.head in q.blocks;
      if ops[i].PushOp? {
        q.Push(ops[i].data);
      } else {
        var empty := q.Empty();
        if !empty {
          var x := q.Pop();
          answers := answers + [x];
        }
      }
    }
    size := q.Size();
  }
}
