/** Stabilised units consume and create unspent outputs (transaction/stableprocess.go, consensus.go,
    transaction.go, utils.go). */
module Ledger {
  import opened Common

  type Hash = nat
  type Address = nat

  datatype Output = Output(address: Address, amount: int)
  datatype UTXO = UTXO(unitHash: Hash, messageIndex: int, outputIndex: int, output: Output, kind: string)
  datatype Input = Input(unitHash: Hash, messageIndex: int, outputIndex: int, kind: string, output: Output)
  datatype Message = Message(inputs: seq<Input>, outputs: seq<Output>)

  /** The fields of a unit that the ledger reads; `author` is the first author's address. */
  datatype Unit = Unit(
    hash: Hash, author: Address, messages: seq<Message>, headersCommission: int, payloadCommission: int,
    subStableAuthor: Address, invalid: bool)

  datatype Commission = Commission(address: Address, utxo: UTXO)

  /** Stored units by hash. */
  type Units = map<Hash, Unit>

  /** The stable outputs: the store is keyed by owner address and UTXO digest, and the digest
      determines the UTXO, so an entry is an (owner, UTXO) pair. */
  type Entry = (Address, UTXO)
  type Unspent = set<Entry>

  const ZERO_UTXO := UTXO(0, 0, 0, Output(0, 0), "")

  // ----- one unit

  /** The UTXO an input asks for; None when its source unit is not stored.  An input of unknown kind
      asks for the zero UTXO. */
  function PendingSpent(db: Units, x: Input): Option<UTXO> {
    if x.kind == "wc" || x.kind == "mc" then
      if x.unitHash in db then Some(UTXO(db[x.unitHash].hash, 0, 0, x.output, x.kind)) else None
    else if x.kind == "" then
      if x.unitHash in db then Some(UTXO(db[x.unitHash].hash, 0, x.outputIndex, x.output, "")) else None
    else Some(ZERO_UTXO)
  }

  datatype Status = Valid | DoubleSpent | SourceMissing

  /** `consumed` lists what was spent, each output with the address it was deleted under. */
  datatype Spending = Spending(left: Unspent, consumed: seq<Entry>, status: Status)

  /** Spend the inputs one after the other, stopping at the first that cannot be spent.  Presence is
      looked up under the owner named in the output, removal uses the author's address. */
  function Spend(l: Unspent, db: Units, author: Address, xs: seq<Input>): Spending
    decreases |xs|
  {
    if xs == [] then Spending(l, [], Valid)
    else match PendingSpent(db, xs[0])
      case None => Spending(l, [], SourceMissing)
      case Some(u) =>
        if (u.output.address, u) !in l then Spending(l, [], DoubleSpent)
        else
          var rest := Spend(l - {(author, u)}, db, author, xs[1..]);
          rest.(consumed := [(author, u)] + rest.consumed)
  }

  function OutputCommissions(u: Unit, i: nat): seq<Commission>
    requires i < |u.messages|
  {
    var outs := u.messages[i].outputs;
    seq(|outs|, z requires 0 <= z < |outs| => Commission(outs[z].address, UTXO(u.hash, i, z, outs[z], "")))
  }

  datatype Handled = Handled(left: Unspent, consumed: seq<Entry>, commissions: seq<Commission>, status: Status)

  /** Messages i and later: each spends its inputs, then its outputs become commissions. */
  function MessagesFrom(l: Unspent, db: Units, u: Unit, i: nat): Handled
    requires i <= |u.messages|
    decreases |u.messages| - i
  {
    if i == |u.messages| then Handled(l, [], [], Valid)
    else
      var s := Spend(l, db, u.author, u.messages[i].inputs);
      if s.status != Valid then Handled(s.left, s.consumed, [], s.status)
      else
        var rest := MessagesFrom(s.left, db, u, i + 1);
        rest.(consumed := s.consumed + rest.consumed, commissions := OutputCommissions(u, i) + rest.commissions)
  }

  function MinerCommission(u: Unit): Commission {
    Commission(u.subStableAuthor, UTXO(u.hash, 0, 0, Output(u.subStableAuthor, u.headersCommission), "mc"))
  }

  function UnitOutcome(l: Unspent, db: Units, u: Unit): Handled {
    var h := MessagesFrom(l, db, u, 0);
    if h.status == Valid then h.(commissions := h.commissions + [MinerCommission(u)]) else h
  }

  // ----- a batch

  datatype Batch = Batch(
    left: Unspent, consumed: seq<Entry>, commissions: seq<Commission>, valid: seq<Unit>, aborted: bool)

  /** The units of a batch in order; a missing source ends the batch. */
  function BatchOutcome(l: Unspent, db: Units, us: seq<Unit>): Batch
    decreases |us|
  {
    if us == [] then Batch(l, [], [], [], false)
    else
      var h := UnitOutcome(l, db, us[0]);
      if h.status == SourceMissing then Batch(h.left, h.consumed, [], [], true)
      else
        var db' := if h.status == Valid then db else db[us[0].hash := us[0].(invalid := true)];
        var rest := BatchOutcome(h.left, db', us[1..]);
        rest.(consumed := h.consumed + rest.consumed,
              commissions := h.commissions + rest.commissions,
              valid := (if h.status == Valid then [us[0]] else []) + rest.valid)
  }

  /** Each valid unit pays its payload commission to the author of the last valid unit. */
  function WitnessEarnings(us: seq<Unit>): seq<Commission> {
    seq(|us|, i requires 0 <= i < |us| =>
      var to := us[|us| - 1].author;
      Commission(to, UTXO(us[i].hash, 0, 0, Output(to, us[i].payloadCommission), "wc")))
  }

  function Entries(cs: seq<Commission>): Unspent {
    set c | c in cs :: (c.address, c.utxo)
  }

  /** A whole batch: an aborted one saves nothing. */
  function AfterBatch(l: Unspent, db: Units, us: seq<Unit>): Unspent {
    var b := BatchOutcome(l, db, us);
    if b.aborted then b.left else b.left + Entries(b.commissions + WitnessEarnings(b.valid))
  }

  // ----- the review checks

  function SumInputs(xs: seq<Input>): int {
    if xs == [] then 0 else xs[0].output.amount + SumInputs(xs[1..])
  }

  function SumOutputs(os: seq<Output>): int {
    if os == [] then 0 else os[0].amount + SumOutputs(os[1..])
  }

  function SumCommissions(cs: seq<Commission>): int {
    if cs == [] then 0 else cs[0].utxo.output.amount + SumCommissions(cs[1..])
  }

  lemma {:induction false} SumInputsAppend(xs: seq<Input>, ys: seq<Input>)
    ensures SumInputs(xs + ys) == SumInputs(xs) + SumInputs(ys)
  {
    if xs == [] { assert xs + ys == ys; }
    else { assert (xs + ys)[1..] == xs[1..] + ys; SumInputsAppend(xs[1..], ys); }
  }

  lemma {:induction false} SumOutputsAppend(xs: seq<Output>, ys: seq<Output>)
    ensures SumOutputs(xs + ys) == SumOutputs(xs) + SumOutputs(ys)
  {
    if xs == [] { assert xs + ys == ys; }
    else { assert (xs + ys)[1..] == xs[1..] + ys; SumOutputsAppend(xs[1..], ys); }
  }

  lemma {:induction false} SumCommissionsAppend(xs: seq<Commission>, ys: seq<Commission>)
    ensures SumCommissions(xs + ys) == SumCommissions(xs) + SumCommissions(ys)
  {
    if xs == [] { assert xs + ys == ys; }
    else { assert (xs + ys)[1..] == xs[1..] + ys; SumCommissionsAppend(xs[1..], ys); }
  }

  /** Inputs pay for outputs and commissions, in the first message. */
  ghost predicate AmountsMatch(u: Unit)
    requires |u.messages| > 0
  {
    SumInputs(u.messages[0].inputs) == SumOutputs(u.messages[0].outputs) + u.payloadCommission + u.headersCommission
  }

  /** Every input of the message belongs to the author. */
  ghost predicate Authored(u: Unit, i: nat)
    requires i < |u.messages|
  {
    forall x :: x in u.messages[i].inputs ==> x.output.address == u.author
  }

  // ----- totals

  ghost function Total(l: Unspent): int {
    if l == {} then 0 else var e :| e in l; e.1.output.amount + Total(l - {e})
  }

  lemma {:induction false} TotalRemove(l: Unspent, e: Entry)
    requires e in l
    ensures Total(l) == e.1.output.amount + Total(l - {e})
    decreases |l|
  {
    var f :| f in l && Total(l) == f.1.output.amount + Total(l - {f});
    if f != e {
      TotalRemove(l - {f}, e);
      TotalRemove(l - {e}, f);
      assert l - {f} - {e} == l - {e} - {f};
    }
  }

  lemma TotalAdd(l: Unspent, e: Entry)
    requires e !in l
    ensures Total(l + {e}) == Total(l) + e.1.output.amount
  {
    TotalRemove(l + {e}, e);
    assert l + {e} - {e} == l;
  }

  /** Nothing negative is stored. */
  ghost predicate NonNegative(l: Unspent) {
    forall e :: e in l ==> e.1.output.amount >= 0
  }

  // ----- what every batch keeps

  /** Each stored output sits under its owner and was created by a processed unit. */
  ghost predicate LedgerInv(l: Unspent, done: set<Hash>) {
    && 0 !in done
    && forall e :: e in l ==> e.0 == e.1.output.address && e.1.unitHash in done
  }

  ghost predicate UnderOwnHash(db: Units) {
    forall h :: h in db ==> db[h].hash == h
  }

  ghost predicate AllAuthored(u: Unit) {
    forall i :: 0 <= i < |u.messages| ==> Authored(u, i)
  }

  /** The output is spent by its owner; the deletion then finds it. */
  predicate Owned(e: Entry) { e.0 == e.1.output.address }

  /** Once its owner has spent an output, nobody spends it again. */
  ghost predicate Once(es: seq<Entry>) {
    forall i, j :: 0 <= i < j < |es| && es[i].1 == es[j].1 ==> !Owned(es[i])
  }

  lemma AppendOnce(a: seq<Entry>, b: seq<Entry>)
    requires Once(a) && Once(b) && forall d, e :: d in a && Owned(d) && e in b ==> d.1 != e.1
    ensures Once(a + b)
  {
    forall i, j | 0 <= i < j < |a + b| && (a + b)[i].1 == (a + b)[j].1 ensures !Owned((a + b)[i]) {
      if i < |a| <= j { assert (a + b)[i] in a && (a + b)[j] in b; }
    }
  }

  /** From l to left: what is consumed was stored; what its owner consumed is gone, once each; the rest
      stays, outputs that somebody else consumed included. */
  ghost predicate Consumes(l: Unspent, left: Unspent, consumed: seq<Entry>) {
    && left <= l
    && (forall e :: e in l ==> e in left || e in consumed)
    && (forall e :: e in consumed ==> (e.1.output.address, e.1) in l)
    && (forall e :: e in consumed && Owned(e) ==> e !in left)
    && Once(consumed)
  }

  lemma ConsumesTransitive(l: Unspent, m: Unspent, r: Unspent, a: seq<Entry>, b: seq<Entry>)
    requires Consumes(l, m, a) && Consumes(m, r, b)
    ensures Consumes(l, r, a + b)
  {
    forall d, e | d in a && Owned(d) && e in b ensures d.1 != e.1 {
      assert (e.1.output.address, e.1) in m;
    }
    AppendOnce(a, b);
  }

  /** The consumed outputs are those of a prefix of the inputs, all of them if the spending is valid;
      the total falls by the inputs of the author alone. */
  ghost predicate SpendAccount(l: Unspent, author: Address, xs: seq<Input>, s: Spending) {
    && Consumes(l, s.left, s.consumed)
    && Follows(author, xs, s.consumed)
    && (s.status == Valid ==> |s.consumed| == |xs|)
    && Total(s.left) == Total(l) - SumInputs(xs[..|s.consumed|]) + SumForeign(author, xs[..|s.consumed|])
  }

  ghost predicate Follows(author: Address, xs: seq<Input>, es: seq<Entry>) {
    |es| <= |xs| && forall i :: 0 <= i < |es| ==> es[i].0 == author && es[i].1.output == xs[i].output
  }

  /** The amounts of the inputs that belong to somebody else. */
  function SumForeign(author: Address, xs: seq<Input>): int {
    if xs == [] then 0
    else (if xs[0].output.address == author then 0 else xs[0].output.amount) + SumForeign(author, xs[1..])
  }

  lemma {:induction false} SpendAccounts(l: Unspent, done: set<Hash>, db: Units, author: Address, xs: seq<Input>)
    requires LedgerInv(l, done) && UnderOwnHash(db)
    ensures SpendAccount(l, author, xs, Spend(l, db, author, xs))
    decreases |xs|
  {
    var s := Spend(l, db, author, xs);
    if s.consumed == [] {
      assert xs[..0] == [];
    } else {
      var u, ys := s.consumed[0].1, xs[1..];
      assert u == PendingSpent(db, xs[0]).value && u != ZERO_UTXO && u.output == xs[0].output;
      var l' := l - {(author, u)};
      SpendAccounts(l', done, db, author, ys);
      TakeOne(l, author, u);
      SpendOneMore(l, l', author, u, xs, Spend(l', db, author, ys));
    }
  }

  /** Deleting under the author's address takes the output away exactly when it is the author's. */
  lemma TakeOne(l: Unspent, author: Address, u: UTXO)
    requires (u.output.address, u) in l && forall e :: e in l ==> Owned(e)
    ensures Consumes(l, l - {(author, u)}, [(author, u)])
    ensures Total(l - {(author, u)}) == Total(l) - if u.output.address == author then u.output.amount else 0
  {
    if u.output.address == author {
      TotalRemove(l, (author, u));
    } else {
      assert l - {(author, u)} == l;
    }
  }

  lemma SpendOneMore(l: Unspent, l': Unspent, author: Address, u: UTXO, xs: seq<Input>, r: Spending)
    requires xs != [] && u.output == xs[0].output && Consumes(l, l', [(author, u)])
    requires Total(l') == Total(l) - if u.output.address == author then u.output.amount else 0
    requires SpendAccount(l', author, xs[1..], r)
    ensures SpendAccount(l, author, xs, r.(consumed := [(author, u)] + r.consumed))
  {
    ConsumesTransitive(l, l', r.left, [(author, u)], r.consumed);
    SumOneMore(author, xs, |r.consumed|);
    FollowsOneMore(author, u, xs, r.consumed);
  }

  lemma FollowsOneMore(author: Address, u: UTXO, xs: seq<Input>, es: seq<Entry>)
    requires xs != [] && u.output == xs[0].output && Follows(author, xs[1..], es)
    ensures Follows(author, xs, [(author, u)] + es)
  {
    var fs := [(author, u)] + es;
    forall i | 0 <= i < |fs| ensures fs[i].0 == author && fs[i].1.output == xs[i].output {
      assert i > 0 ==> fs[i] == es[i - 1] && xs[1..][i - 1] == xs[i];
    }
  }

  lemma SumOneMore(author: Address, xs: seq<Input>, n: nat)
    requires n < |xs|
    ensures SumInputs(xs[..n + 1]) == xs[0].output.amount + SumInputs(xs[1..][..n])
    ensures SumForeign(author, xs[..n + 1])
         == (if xs[0].output.address == author then 0 else xs[0].output.amount) + SumForeign(author, xs[1..][..n])
  {
    assert xs[..n + 1][1..] == xs[1..][..n];
  }

  /** The commissions of messages i and later are new, distinct outputs of u. */
  ghost predicate OutputsOf(u: Unit, i: nat, cs: seq<Commission>) {
    && (forall c :: c in cs ==> c.utxo.unitHash == u.hash && c.utxo.kind == "" && c.utxo.messageIndex >= i
                                && c.address == c.utxo.output.address)
    && NoDuplicates(cs)
  }

  lemma OutputCommissionsAreNew(u: Unit, i: nat)
    requires i < |u.messages|
    ensures OutputsOf(u, i, OutputCommissions(u, i))
    ensures forall c :: c in OutputCommissions(u, i) ==>
      c.utxo.messageIndex == i && c.utxo.output in u.messages[i].outputs
    ensures SumCommissions(OutputCommissions(u, i)) == SumOutputs(u.messages[i].outputs)
  {
    SumOutputCommissions(u, i, |u.messages[i].outputs|);
    var cs := OutputCommissions(u, i);
    assert cs[..|cs|] == cs && u.messages[i].outputs[..|cs|] == u.messages[i].outputs;
  }

  lemma {:induction false} SumOutputCommissions(u: Unit, i: nat, n: nat)
    requires i < |u.messages| && n <= |u.messages[i].outputs|
    ensures SumCommissions(OutputCommissions(u, i)[..n]) == SumOutputs(u.messages[i].outputs[..n])
  {
    if n > 0 {
      SumOutputCommissions(u, i, n - 1);
      var cs, os := OutputCommissions(u, i), u.messages[i].outputs;
      assert cs[..n] == cs[..n - 1] + [cs[n - 1]] && os[..n] == os[..n - 1] + [os[n - 1]];
      SumCommissionsAppend(cs[..n - 1], [cs[n - 1]]);
      SumOutputsAppend(os[..n - 1], [os[n - 1]]);
    }
  }

  /** The amounts going in and out of messages i and later. */
  ghost function PaidIn(u: Unit, i: nat): int
    requires i <= |u.messages|
    decreases |u.messages| - i
  {
    if i == |u.messages| then 0 else SumInputs(u.messages[i].inputs) + PaidIn(u, i + 1)
  }

  ghost function PaidOut(u: Unit, i: nat): int
    requires i <= |u.messages|
    decreases |u.messages| - i
  {
    if i == |u.messages| then 0 else SumOutputs(u.messages[i].outputs) + PaidOut(u, i + 1)
  }

  /** The inputs of messages i and later that belong to somebody else: spent, but not taken away. */
  ghost function ForeignIn(u: Unit, i: nat): int
    requires i <= |u.messages|
    decreases |u.messages| - i
  {
    if i == |u.messages| then 0 else SumForeign(u.author, u.messages[i].inputs) + ForeignIn(u, i + 1)
  }

  /** Messages: a valid unit pays in and out what it declares, but what it spends of others stays. */
  lemma {:induction false} MessagesAccount(l: Unspent, done: set<Hash>, db: Units, u: Unit, i: nat)
    requires LedgerInv(l, done) && UnderOwnHash(db) && i <= |u.messages|
    ensures var h := MessagesFrom(l, db, u, i);
            && Consumes(l, h.left, h.consumed) && OutputsOf(u, i, h.commissions)
            && (forall e :: e in h.consumed ==> e.0 == u.author)
            && (h.status == Valid ==>
                  && Total(h.left) == Total(l) - PaidIn(u, i) + ForeignIn(u, i)
                  && SumCommissions(h.commissions) == PaidOut(u, i))
    decreases |u.messages| - i
  {
    if i < |u.messages| {
      var s := Spend(l, db, u.author, u.messages[i].inputs);
      SpendAccounts(l, done, db, u.author, u.messages[i].inputs);
      assert u.messages[i].inputs[..|u.messages[i].inputs|] == u.messages[i].inputs;
      if s.status == Valid {
        MessagesAccount(s.left, done, db, u, i + 1);
        var r := MessagesFrom(s.left, db, u, i + 1);
        ConsumesTransitive(l, s.left, r.left, s.consumed, r.consumed);
        OutputCommissionsAreNew(u, i);
        AppendNoDuplicates(OutputCommissions(u, i), r.commissions);
        SumCommissionsAppend(OutputCommissions(u, i), r.commissions);
      }
    }
  }

  /** The commissions of one unit: its outputs and, if it is valid, the miner's share. */
  ghost predicate CommissionsOf(u: Unit, cs: seq<Commission>) {
    && (forall c :: c in cs ==> c.utxo.unitHash == u.hash && c.utxo.kind != "wc" && c.address == c.utxo.output.address)
    && NoDuplicates(cs)
  }

  lemma UnitAccount(l: Unspent, done: set<Hash>, db: Units, u: Unit)
    requires LedgerInv(l, done) && UnderOwnHash(db)
    ensures var h := UnitOutcome(l, db, u);
            && Consumes(l, h.left, h.consumed) && CommissionsOf(u, h.commissions)
            && (forall e :: e in h.consumed ==> e.0 == u.author)
            && (h.status == Valid ==>
                  Total(h.left) + SumCommissions(h.commissions) == Total(l) + Gain(u) - u.payloadCommission)
  {
    MessagesAccount(l, done, db, u, 0);
    var h := MessagesFrom(l, db, u, 0);
    if h.status == Valid {
      AppendNoDuplicates(h.commissions, [MinerCommission(u)]);
      SumCommissionsAppend(h.commissions, [MinerCommission(u)]);
    }
  }

  // ----- batches

  ghost function HashesOf(us: seq<Unit>): set<Hash> {
    set u | u in us :: u.hash
  }

  /** The hypotheses on a batch: new units, each once. */
  ghost predicate NewBatch(us: seq<Unit>, done: set<Hash>) {
    && (forall i, j :: 0 <= i < j < |us| ==> us[i].hash != us[j].hash)
    && (forall u :: u in us ==> u.hash != 0 && u.hash !in done)
  }

  /** What a unit pays out more than it declares as paid in. */
  ghost function Imbalance(u: Unit): int {
    PaidOut(u, 0) + u.headersCommission + u.payloadCommission - PaidIn(u, 0)
  }

  /** What a unit adds to the total when it is valid: its imbalance, and what it spends of others. */
  ghost function Gain(u: Unit): int {
    Imbalance(u) + ForeignIn(u, 0)
  }

  ghost function SumGain(us: seq<Unit>): int {
    if us == [] then 0 else Gain(us[0]) + SumGain(us[1..])
  }

  ghost function SumPayload(us: seq<Unit>): int {
    if us == [] then 0 else us[0].payloadCommission + SumPayload(us[1..])
  }

  /** The commissions of a batch belong to its units, once each. */
  ghost predicate BatchCommissions(us: seq<Unit>, cs: seq<Commission>) {
    && (forall c :: c in cs ==>
          c.utxo.unitHash in HashesOf(us) && c.utxo.kind != "wc" && c.address == c.utxo.output.address)
    && NoDuplicates(cs)
  }

  /** All units of the batch are valid. */
  ghost predicate AllValid(l: Unspent, db: Units, us: seq<Unit>) {
    var b := BatchOutcome(l, db, us);
    !b.aborted && b.valid == us
  }

  lemma {:induction false} UnitsAccount(l: Unspent, done: set<Hash>, db: Units, us: seq<Unit>)
    requires LedgerInv(l, done) && UnderOwnHash(db) && NewBatch(us, done)
    ensures var b := BatchOutcome(l, db, us);
            && Consumes(l, b.left, b.consumed) && BatchCommissions(us, b.commissions)
            && (forall u :: u in b.valid ==> u in us) && |b.valid| <= |us|
            && (forall i, j :: 0 <= i < j < |b.valid| ==> b.valid[i].hash != b.valid[j].hash)
    decreases |us|
  {
    if us != [] {
      UnitAccount(l, done, db, us[0]);
      var h := UnitOutcome(l, db, us[0]);
      if h.status != SourceMissing {
        var db', rest := Marked(l, db, us[0]), us[1..];
        assert NewBatch(rest, done);
        UnitsAccount(h.left, done, db', rest);
        var r := BatchOutcome(h.left, db', rest);
        BatchGoesOn(l, db, us);
        ConsumesTransitive(l, h.left, r.left, h.consumed, r.consumed);
        BatchStep(us, h.commissions, r.commissions);
        ValidStep(us, r.valid);
      }
    }
  }

  lemma BatchGoesOn(l: Unspent, db: Units, us: seq<Unit>)
    requires us != [] && UnitOutcome(l, db, us[0]).status != SourceMissing
    ensures var b, h := BatchOutcome(l, db, us), UnitOutcome(l, db, us[0]);
            var r := BatchOutcome(h.left, Marked(l, db, us[0]), us[1..]);
            && b.left == r.left && b.aborted == r.aborted && b.consumed == h.consumed + r.consumed
            && b.commissions == h.commissions + r.commissions
            && b.valid == (if h.status == Valid then [us[0]] else []) + r.valid
  {
  }

  lemma ValidStep(us: seq<Unit>, valid: seq<Unit>)
    requires us != [] && (forall i, j :: 0 <= i < j < |us| ==> us[i].hash != us[j].hash)
    requires forall u :: u in valid ==> u in us[1..]
    ensures us[0].hash !in HashesOf(valid)
  {
  }

  lemma BatchStep(us: seq<Unit>, cs: seq<Commission>, rest: seq<Commission>)
    requires us != [] && (forall i, j :: 0 <= i < j < |us| ==> us[i].hash != us[j].hash)
    requires CommissionsOf(us[0], cs) && BatchCommissions(us[1..], rest)
    ensures BatchCommissions(us, cs + rest)
  {
    ValidStep(us, us[1..]);
    assert forall u :: u in us[1..] ==> u in us;
    AppendNoDuplicates(cs, rest);
  }

  /** When every unit is valid, what is left plus the commissions is the old total plus the units'
      gains, less their payload commissions, which are still to be paid out. */
  lemma {:induction false} ValidUnitsAccount(l: Unspent, done: set<Hash>, db: Units, us: seq<Unit>)
    requires LedgerInv(l, done) && UnderOwnHash(db) && NewBatch(us, done) && AllValid(l, db, us)
    ensures var b := BatchOutcome(l, db, us);
            Total(b.left) + SumCommissions(b.commissions) == Total(l) + SumGain(us) - SumPayload(us)
    decreases |us|
  {
    if us != [] {
      UnitAccount(l, done, db, us[0]);
      var h := UnitOutcome(l, db, us[0]);
      var rest := us[1..];
      assert NewBatch(rest, done);
      var db' := if h.status == Valid then db else db[us[0].hash := us[0].(invalid := true)];
      UnitsAccount(h.left, done, db', rest);
      assert h.status == Valid;
      var r := BatchOutcome(h.left, db, rest);
      assert us == [us[0]] + r.valid;
      assert r.valid == rest;
      ValidUnitsAccount(h.left, done, db, rest);
      SumCommissionsAppend(h.commissions, r.commissions);
    }
  }

  // ----- saving the commissions

  /** Every commission is a new entry of its owner. */
  ghost predicate Saveable(l: Unspent, cs: seq<Commission>) {
    && NoDuplicates(cs)
    && forall c :: c in cs ==> c.address == c.utxo.output.address && (c.address, c.utxo) !in l
  }

  lemma {:induction false} SavingAddsUp(l: Unspent, cs: seq<Commission>)
    requires Saveable(l, cs)
    ensures Total(l + Entries(cs)) == Total(l) + SumCommissions(cs)
    decreases |cs|
  {
    if cs == [] {
      assert l + Entries(cs) == l;
    } else {
      var e, rest := (cs[0].address, cs[0].utxo), cs[1..];
      assert forall i :: 0 <= i < |rest| ==> rest[i] == cs[i + 1];
      SavingAddsUp(l, rest);
      forall c | c in rest ensures (c.address, c.utxo) != e {
        assert c != cs[0];
      }
      assert forall c :: c in cs <==> c == cs[0] || c in rest;
      assert Entries(cs) == Entries(rest) + {e};
      TotalAdd(l + Entries(rest), e);
      assert l + Entries(cs) == l + Entries(rest) + {e};
    }
  }

  lemma {:induction false} SumEarnings(us: seq<Unit>, n: nat)
    requires n <= |us|
    ensures SumCommissions(WitnessEarnings(us)[..n]) == SumPayload(us[..n])
  {
    if n > 0 {
      SumEarnings(us, n - 1);
      var w := WitnessEarnings(us);
      assert w[..n] == w[..n - 1] + [w[n - 1]] && us[..n] == us[..n - 1] + [us[n - 1]];
      SumCommissionsAppend(w[..n - 1], [w[n - 1]]);
      SumPayloadAppend(us[..n - 1], [us[n - 1]]);
    }
  }

  lemma {:induction false} SumPayloadAppend(xs: seq<Unit>, ys: seq<Unit>)
    ensures SumPayload(xs + ys) == SumPayload(xs) + SumPayload(ys)
  {
    if xs == [] { assert xs + ys == ys; }
    else { assert (xs + ys)[1..] == xs[1..] + ys; SumPayloadAppend(xs[1..], ys); }
  }

  /** The commissions and witness earnings of a new batch are all new entries. */
  lemma BatchSaves(l: Unspent, done: set<Hash>, db: Units, us: seq<Unit>)
    requires LedgerInv(l, done) && UnderOwnHash(db) && NewBatch(us, done)
    ensures var b := BatchOutcome(l, db, us);
            && Saveable(b.left, b.commissions + WitnessEarnings(b.valid))
            && (forall c :: c in b.commissions + WitnessEarnings(b.valid) ==> c.utxo.unitHash in HashesOf(us))
            && SumCommissions(b.commissions + WitnessEarnings(b.valid))
               == SumCommissions(b.commissions) + SumPayload(b.valid)
  {
    UnitsAccount(l, done, db, us);
    var b := BatchOutcome(l, db, us);
    var w := WitnessEarnings(b.valid);
    EarningsAreNew(us, b.valid);
    AppendNoDuplicates(b.commissions, w);
    SumCommissionsAppend(b.commissions, w);
    SumEarnings(b.valid, |b.valid|);
    assert w[..|w|] == w && b.valid[..|b.valid|] == b.valid;
    forall c | c in b.commissions + w ensures (c.address, c.utxo) !in b.left {
      assert c.utxo.unitHash in HashesOf(us);
    }
  }

  lemma EarningsAreNew(us: seq<Unit>, valid: seq<Unit>)
    requires (forall u :: u in valid ==> u in us)
    requires forall i, j :: 0 <= i < j < |valid| ==> valid[i].hash != valid[j].hash
    ensures var w := WitnessEarnings(valid);
            && NoDuplicates(w)
            && forall c :: c in w ==>
                 c.utxo.unitHash in HashesOf(us) && c.utxo.kind == "wc" && c.address == c.utxo.output.address
  {
    var w := WitnessEarnings(valid);
    forall i, j | 0 <= i < j < |w| ensures w[i] != w[j] {
      assert w[i].utxo.unitHash == valid[i].hash && w[j].utxo.unitHash == valid[j].hash;
    }
    forall c | c in w
      ensures c.utxo.unitHash in HashesOf(us) && c.utxo.kind == "wc" && c.address == c.utxo.output.address
    {
      var i :| 0 <= i < |w| && w[i] == c;
      assert valid[i] in us;
    }
  }

  /** The ledger invariant is kept, the batch's units being processed now. */
  lemma BatchKeepsInv(l: Unspent, done: set<Hash>, db: Units, us: seq<Unit>)
    requires LedgerInv(l, done) && UnderOwnHash(db) && NewBatch(us, done)
    ensures LedgerInv(AfterBatch(l, db, us), done + HashesOf(us))
  {
    UnitsAccount(l, done, db, us);
    BatchSaves(l, done, db, us);
    var b := BatchOutcome(l, db, us);
    forall e | e in AfterBatch(l, db, us) ensures e.0 == e.1.output.address && e.1.unitHash in done + HashesOf(us) {
      if e !in b.left {
        var c :| c in b.commissions + WitnessEarnings(b.valid) && (c.address, c.utxo) == e;
      }
    }
  }

  /** A batch of valid units, whatever their messages, changes the total by exactly the units' gains: it
      is conserved if and only if imbalances and foreign inputs cancel. */
  lemma ValidBatchTotal(l: Unspent, done: set<Hash>, db: Units, us: seq<Unit>)
    requires LedgerInv(l, done) && UnderOwnHash(db) && NewBatch(us, done) && AllValid(l, db, us)
    ensures Total(AfterBatch(l, db, us)) == Total(l) + SumGain(us)
    ensures Total(AfterBatch(l, db, us)) == Total(l) <==> SumGain(us) == 0
  {
    ValidUnitsAccount(l, done, db, us);
    BatchSaves(l, done, db, us);
    var b := BatchOutcome(l, db, us);
    SavingAddsUp(b.left, b.commissions + WitnessEarnings(b.valid));
  }

  // ----- every batch, invalid and aborted ones included

  /** How far a unit gets: the messages done, and the inputs spent of the one that fails. */
  datatype Stop = Stop(message: nat, inputs: nat)

  function StopsAt(l: Unspent, db: Units, u: Unit, i: nat): Stop
    requires i <= |u.messages|
    decreases |u.messages| - i
  {
    if i == |u.messages| then Stop(i, 0)
    else
      var s := Spend(l, db, u.author, u.messages[i].inputs);
      if s.status != Valid then Stop(i, |s.consumed|) else StopsAt(s.left, db, u, i + 1)
  }

  predicate StopIn(u: Unit, i: nat, at: Stop) {
    i <= at.message <= |u.messages| && (at.message < |u.messages| ==> at.inputs <= |u.messages[at.message].inputs|)
  }

  /** The amounts of the inputs that are the author's. */
  function SumOwn(author: Address, xs: seq<Input>): int { SumInputs(xs) - SumForeign(author, xs) }

  /** What messages i and later take from the ledger and what they pay out, up to a stop. */
  ghost function TakenUpTo(u: Unit, i: nat, at: Stop): int
    requires StopIn(u, i, at)
    decreases |u.messages| - i
  {
    if i < at.message then SumOwn(u.author, u.messages[i].inputs) + TakenUpTo(u, i + 1, at)
    else if i == |u.messages| then 0
    else SumOwn(u.author, u.messages[i].inputs[..at.inputs])
  }

  ghost function MadeUpTo(u: Unit, i: nat, k: nat): int
    requires i <= k <= |u.messages|
    decreases |u.messages| - i
  {
    if i < k then SumOutputs(u.messages[i].outputs) + MadeUpTo(u, i + 1, k) else 0
  }

  lemma SpendTotals(l: Unspent, done: set<Hash>, db: Units, author: Address, xs: seq<Input>)
    requires LedgerInv(l, done) && UnderOwnHash(db)
    ensures var s := Spend(l, db, author, xs);
            && LedgerInv(s.left, done) && |s.consumed| <= |xs|
            && Total(s.left) == Total(l) - SumOwn(author, xs[..|s.consumed|])
            && (s.status == Valid ==> xs[..|s.consumed|] == xs)
  {
    SpendAccounts(l, done, db, author, xs);
  }

  /** What becomes of messages i and later is settled by where they stop. */
  lemma MessagesStop(l: Unspent, done: set<Hash>, db: Units, u: Unit, i: nat)
    requires LedgerInv(l, done) && UnderOwnHash(db) && i <= |u.messages|
    ensures var h, at := MessagesFrom(l, db, u, i), StopsAt(l, db, u, i);
            && StopIn(u, i, at) && (h.status == Valid <==> at.message == |u.messages|)
            && Total(h.left) == Total(l) - TakenUpTo(u, i, at)
            && SumCommissions(h.commissions) == MadeUpTo(u, i, at.message)
  {
    StopTaken(l, done, db, u, i);
    StopMade(l, db, u, i);
  }

  lemma {:induction false} StopTaken(l: Unspent, done: set<Hash>, db: Units, u: Unit, i: nat)
    requires LedgerInv(l, done) && UnderOwnHash(db) && i <= |u.messages|
    ensures var h, at := MessagesFrom(l, db, u, i), StopsAt(l, db, u, i);
            StopIn(u, i, at) && Total(h.left) == Total(l) - TakenUpTo(u, i, at)
    decreases |u.messages| - i
  {
    if i < |u.messages| {
      var xs := u.messages[i].inputs;
      var s := Spend(l, db, u.author, xs);
      SpendTotals(l, done, db, u.author, xs);
      if s.status != Valid {
        StopsHere(l, db, u, i);
      } else {
        GoesOnFrom(l, db, u, i);
        StopTaken(s.left, done, db, u, i + 1);
      }
    }
  }

  lemma {:induction false} StopMade(l: Unspent, db: Units, u: Unit, i: nat)
    requires i <= |u.messages|
    ensures var h, at := MessagesFrom(l, db, u, i), StopsAt(l, db, u, i);
            && i <= at.message <= |u.messages| && (h.status == Valid <==> at.message == |u.messages|)
            && SumCommissions(h.commissions) == MadeUpTo(u, i, at.message)
    decreases |u.messages| - i
  {
    if i < |u.messages| {
      var s := Spend(l, db, u.author, u.messages[i].inputs);
      if s.status != Valid {
        StopsHere(l, db, u, i);
      } else {
        GoesOnFrom(l, db, u, i);
        StopMade(s.left, db, u, i + 1);
        OutputCommissionsAreNew(u, i);
        SumCommissionsAppend(OutputCommissions(u, i), MessagesFrom(s.left, db, u, i + 1).commissions);
      }
    }
  }

  lemma StopsHere(l: Unspent, db: Units, u: Unit, i: nat)
    requires i < |u.messages| && Spend(l, db, u.author, u.messages[i].inputs).status != Valid
    ensures var s, h := Spend(l, db, u.author, u.messages[i].inputs), MessagesFrom(l, db, u, i);
            && StopsAt(l, db, u, i) == Stop(i, |s.consumed|)
            && h.left == s.left && h.commissions == [] && h.status != Valid
  {
  }

  lemma GoesOnFrom(l: Unspent, db: Units, u: Unit, i: nat)
    requires i < |u.messages| && Spend(l, db, u.author, u.messages[i].inputs).status == Valid
    ensures var s, h := Spend(l, db, u.author, u.messages[i].inputs), MessagesFrom(l, db, u, i);
            var r := MessagesFrom(s.left, db, u, i + 1);
            && StopsAt(l, db, u, i) == StopsAt(s.left, db, u, i + 1)
            && h.left == r.left && h.status == r.status && h.commissions == OutputCommissions(u, i) + r.commissions
  {
  }

  ghost function Taken(l: Unspent, done: set<Hash>, db: Units, u: Unit): int
    requires LedgerInv(l, done) && UnderOwnHash(db)
  {
    MessagesStop(l, done, db, u, 0);
    TakenUpTo(u, 0, StopsAt(l, db, u, 0))
  }

  /** The outputs of the messages done, and both commissions if these are all. */
  ghost function MadeBefore(u: Unit, k: nat): int
    requires k <= |u.messages|
  {
    MadeUpTo(u, 0, k) + if k == |u.messages| then u.headersCommission + u.payloadCommission else 0
  }

  ghost function Made(l: Unspent, done: set<Hash>, db: Units, u: Unit): int
    requires LedgerInv(l, done) && UnderOwnHash(db)
  {
    MessagesStop(l, done, db, u, 0);
    MadeBefore(u, StopsAt(l, db, u, 0).message)
  }

  lemma UnitStop(l: Unspent, done: set<Hash>, db: Units, u: Unit)
    requires LedgerInv(l, done) && UnderOwnHash(db)
    ensures var h := UnitOutcome(l, db, u);
            && Total(h.left) == Total(l) - Taken(l, done, db, u) && LedgerInv(h.left, done)
            && SumCommissions(h.commissions) + (if h.status == Valid then u.payloadCommission else 0)
               == Made(l, done, db, u)
  {
    MessagesStop(l, done, db, u, 0);
    UnitAccount(l, done, db, u);
    var h := MessagesFrom(l, db, u, 0);
    SumCommissionsAppend(h.commissions, [MinerCommission(u)]);
  }

  /** The stored units after one unit of a batch: an invalid one is marked. */
  function Marked(l: Unspent, db: Units, u: Unit): Units {
    if UnitOutcome(l, db, u).status == Valid then db else db[u.hash := u.(invalid := true)]
  }

  /** The stored units after a batch. */
  function MarkedBy(l: Unspent, db: Units, us: seq<Unit>): Units
    decreases |us|
  {
    if us == [] then db
    else
      var h := UnitOutcome(l, db, us[0]);
      if h.status == SourceMissing then db else MarkedBy(h.left, Marked(l, db, us[0]), us[1..])
  }

  /** What the units of a batch take and make, each in the ledger the ones before it leave. */
  ghost function TakenBy(l: Unspent, done: set<Hash>, db: Units, us: seq<Unit>): int
    requires LedgerInv(l, done) && UnderOwnHash(db)
    decreases |us|
  {
    if us == [] then 0
    else
      var h := UnitOutcome(l, db, us[0]);
      UnitStop(l, done, db, us[0]);
      Taken(l, done, db, us[0])
        + if h.status == SourceMissing then 0 else TakenBy(h.left, done, Marked(l, db, us[0]), us[1..])
  }

  ghost function MadeBy(l: Unspent, done: set<Hash>, db: Units, us: seq<Unit>): int
    requires LedgerInv(l, done) && UnderOwnHash(db)
    decreases |us|
  {
    if us == [] then 0
    else
      var h := UnitOutcome(l, db, us[0]);
      UnitStop(l, done, db, us[0]);
      Made(l, done, db, us[0])
        + if h.status == SourceMissing then 0 else MadeBy(h.left, done, Marked(l, db, us[0]), us[1..])
  }

  lemma {:induction false} UnitsStop(l: Unspent, done: set<Hash>, db: Units, us: seq<Unit>)
    requires LedgerInv(l, done) && UnderOwnHash(db)
    ensures var b := BatchOutcome(l, db, us);
            && Total(b.left) == Total(l) - TakenBy(l, done, db, us)
            && (!b.aborted ==> SumCommissions(b.commissions) + SumPayload(b.valid) == MadeBy(l, done, db, us))
    decreases |us|
  {
    if us != [] {
      UnitStop(l, done, db, us[0]);
      var h, db' := UnitOutcome(l, db, us[0]), Marked(l, db, us[0]);
      if h.status != SourceMissing {
        UnitsStop(h.left, done, db', us[1..]);
        var r := BatchOutcome(h.left, db', us[1..]);
        SumCommissionsAppend(h.commissions, r.commissions);
        SumPayloadAppend(if h.status == Valid then [us[0]] else [], r.valid);
        assert [us[0]][1..] == [];
      }
    }
  }

  /** The exact account of every batch: the total falls by what its units take up to where they stop and,
      unless the batch is aborted, rises by what they make, invalid units included. */
  lemma BatchTotal(l: Unspent, done: set<Hash>, db: Units, us: seq<Unit>)
    requires LedgerInv(l, done) && UnderOwnHash(db) && NewBatch(us, done)
    ensures var made := if BatchOutcome(l, db, us).aborted then 0 else MadeBy(l, done, db, us);
            && Total(AfterBatch(l, db, us)) == Total(l) - TakenBy(l, done, db, us) + made
            && (Total(AfterBatch(l, db, us)) > Total(l) <==> made > TakenBy(l, done, db, us))
  {
    UnitsStop(l, done, db, us);
    BatchSaves(l, done, db, us);
    var b := BatchOutcome(l, db, us);
    SavingAddsUp(b.left, b.commissions + WitnessEarnings(b.valid));
  }

  /** However far it gets, a unit has not made more than it has taken by then. */
  ghost predicate Thrifty(u: Unit) {
    forall k :: 0 <= k <= |u.messages| ==> MadeBefore(u, k) <= TakenUpTo(u, 0, Stop(k, 0))
  }

  /** The author's inputs spent of the message that fails. */
  ghost function LastPart(u: Unit, at: Stop): int
    requires StopIn(u, 0, at)
  {
    if at.message == |u.messages| then 0 else SumOwn(u.author, u.messages[at.message].inputs[..at.inputs])
  }

  lemma {:induction false} StopTakesMore(u: Unit, i: nat, at: Stop)
    requires StopIn(u, i, at)
    ensures TakenUpTo(u, i, at) == TakenUpTo(u, i, Stop(at.message, 0)) + LastPart(u, at)
    decreases at.message - i
  {
    if i < at.message { StopTakesMore(u, i + 1, at); }
  }

  lemma {:induction false} LastPartIsPositive(l: Unspent, done: set<Hash>, db: Units, u: Unit, i: nat)
    requires LedgerInv(l, done) && NonNegative(l) && UnderOwnHash(db) && i <= |u.messages|
    ensures var at := StopsAt(l, db, u, i); StopIn(u, i, at) && LastPart(u, at) >= 0
    decreases |u.messages| - i
  {
    if i < |u.messages| {
      var s := Spend(l, db, u.author, u.messages[i].inputs);
      SpendAccounts(l, done, db, u.author, u.messages[i].inputs);
      if s.status == Valid {
        LastPartIsPositive(s.left, done, db, u, i + 1);
      } else {
        SubsetTotal(l, s.left);
      }
    }
  }

  lemma ThriftyUnit(l: Unspent, done: set<Hash>, db: Units, u: Unit)
    requires LedgerInv(l, done) && NonNegative(l) && UnderOwnHash(db) && Thrifty(u)
    ensures Made(l, done, db, u) <= Taken(l, done, db, u)
  {
    MessagesStop(l, done, db, u, 0);
    LastPartIsPositive(l, done, db, u, 0);
    var at := StopsAt(l, db, u, 0);
    StopTakesMore(u, 0, at);
    assert MadeBefore(u, at.message) <= TakenUpTo(u, 0, Stop(at.message, 0));
  }

  lemma {:induction false} ThriftyUnits(l: Unspent, done: set<Hash>, db: Units, us: seq<Unit>)
    requires LedgerInv(l, done) && NonNegative(l) && UnderOwnHash(db) && forall u :: u in us ==> Thrifty(u)
    ensures MadeBy(l, done, db, us) <= TakenBy(l, done, db, us)
    decreases |us|
  {
    if us != [] {
      ThriftyUnit(l, done, db, us[0]);
      UnitAccount(l, done, db, us[0]);
      var h := UnitOutcome(l, db, us[0]);
      if h.status != SourceMissing { ThriftyUnits(h.left, done, Marked(l, db, us[0]), us[1..]); }
    }
  }

  /** Nothing that the unit pays is negative. */
  ghost predicate Paying(u: Unit) {
    && u.headersCommission >= 0 && u.payloadCommission >= 0
    && forall i, o :: 0 <= i < |u.messages| && o in u.messages[i].outputs ==> o.amount >= 0
  }

  ghost predicate NonNegativeAll(cs: seq<Commission>) {
    forall c :: c in cs ==> c.utxo.output.amount >= 0
  }

  lemma {:induction false} MessagesPay(l: Unspent, db: Units, u: Unit, i: nat)
    requires Paying(u) && i <= |u.messages|
    ensures NonNegativeAll(MessagesFrom(l, db, u, i).commissions)
    decreases |u.messages| - i
  {
    if i < |u.messages| {
      OutputCommissionsAreNew(u, i);
      MessagesPay(Spend(l, db, u.author, u.messages[i].inputs).left, db, u, i + 1);
    }
  }

  lemma {:induction false} BatchPays(l: Unspent, db: Units, us: seq<Unit>)
    requires forall u :: u in us ==> Paying(u)
    ensures NonNegativeAll(BatchOutcome(l, db, us).commissions)
    ensures forall u :: u in BatchOutcome(l, db, us).valid ==> Paying(u)
    decreases |us|
  {
    if us != [] {
      MessagesPay(l, db, us[0], 0);
      BatchPays(UnitOutcome(l, db, us[0]).left, Marked(l, db, us[0]), us[1..]);
    }
  }

  lemma EarningsPay(us: seq<Unit>)
    requires forall u :: u in us ==> Paying(u)
    ensures NonNegativeAll(WitnessEarnings(us))
  {
    forall c | c in WitnessEarnings(us) ensures c.utxo.output.amount >= 0 {
      var i :| 0 <= i < |us| && WitnessEarnings(us)[i] == c;
      assert Paying(us[i]);
    }
  }

  /** A batch of thrifty units, of any number of messages, never raises the total, whatever becomes of
      them; and if they pay nothing negative, nothing negative is stored. */
  lemma ThriftyNeverGrows(l: Unspent, done: set<Hash>, db: Units, us: seq<Unit>)
    requires LedgerInv(l, done) && NonNegative(l) && UnderOwnHash(db) && NewBatch(us, done)
    requires forall u :: u in us ==> Thrifty(u)
    ensures Total(AfterBatch(l, db, us)) <= Total(l)
    ensures (forall u :: u in us ==> Paying(u)) ==> NonNegative(AfterBatch(l, db, us))
  {
    ThriftyUnits(l, done, db, us);
    BatchTotal(l, done, db, us);
    UnitsAccount(l, done, db, us);
    var b := BatchOutcome(l, db, us);
    SubsetTotal(l, b.left);
    UnitsStop(l, done, db, us);
    if forall u :: u in us ==> Paying(u) {
      BatchPays(l, db, us);
      EarningsPay(b.valid);
    }
  }

  // ----- reviewed units

  /** What the review checks ask of a unit with one message. */
  ghost predicate Reviewed(u: Unit) {
    && |u.messages| == 1 && AmountsMatch(u) && Authored(u, 0)
    && Paying(u)
  }

  lemma {:induction false} ReviewedBalance(us: seq<Unit>)
    requires forall u :: u in us ==> Reviewed(u)
    ensures SumGain(us) == 0
  {
    if us != [] {
      ReviewedBalance(us[1..]);
      ReviewedGain(us[0]);
    }
  }

  lemma ReviewedGain(u: Unit)
    requires Reviewed(u)
    ensures Gain(u) == 0
  {
    assert PaidIn(u, 1) == 0 && PaidOut(u, 1) == 0 && ForeignIn(u, 1) == 0;
    AuthoredIsNotForeign(u.author, u.messages[0].inputs);
  }

  lemma {:induction false} AuthoredIsNotForeign(author: Address, xs: seq<Input>)
    requires forall x :: x in xs ==> x.output.address == author
    ensures SumForeign(author, xs) == 0
  {
    if xs != [] { AuthoredIsNotForeign(author, xs[1..]); }
  }

  lemma {:induction false} SubsetTotal(l: Unspent, m: Unspent)
    requires m <= l && NonNegative(l)
    ensures Total(m) <= Total(l)
    decreases |l|
  {
    if m != l {
      var e :| e in l && e !in m;
      TotalRemove(l, e);
      SubsetTotal(l - {e}, m);
    }
  }

  lemma ReviewedIsThrifty(u: Unit)
    requires Reviewed(u)
    ensures Thrifty(u)
  {
    var xs := u.messages[0].inputs;
    assert xs[..0] == [];
    AuthoredIsNotForeign(u.author, xs);
    assert TakenUpTo(u, 1, Stop(1, 0)) == 0 && MadeUpTo(u, 1, 1) == 0;
    assert MadeUpTo(u, 0, 1) == SumOutputs(u.messages[0].outputs) && TakenUpTo(u, 0, Stop(1, 0)) == SumInputs(xs);
  }

  /** The law of the ledger for reviewed units: the total is unchanged when all units of the batch are
      valid, and never grows otherwise, aborted batches included. */
  lemma Conservation(l: Unspent, done: set<Hash>, db: Units, us: seq<Unit>)
    requires LedgerInv(l, done) && NonNegative(l) && UnderOwnHash(db) && NewBatch(us, done)
    requires forall u :: u in us ==> Reviewed(u)
    ensures Total(AfterBatch(l, db, us)) <= Total(l)
    ensures AllValid(l, db, us) ==> Total(AfterBatch(l, db, us)) == Total(l)
    ensures NonNegative(AfterBatch(l, db, us))
  {
    forall u | u in us ensures Thrifty(u) && Paying(u) { ReviewedIsThrifty(u); }
    ThriftyNeverGrows(l, done, db, us);
    if AllValid(l, db, us) {
      ReviewedBalance(us);
      ValidBatchTotal(l, done, db, us);
    }
  }

  // ----- what an output that was spent is still good for

  /** After a unit, an output it has consumed is still stored if and only if it is not the author's. */
  lemma GoneIffAuthored(l: Unspent, done: set<Hash>, db: Units, u: Unit, e: Entry)
    requires LedgerInv(l, done) && UnderOwnHash(db) && e in UnitOutcome(l, db, u).consumed
    ensures (e.1.output.address, e.1) in UnitOutcome(l, db, u).left <==> e.1.output.address != u.author
  {
    UnitAccount(l, done, db, u);
  }

  /** The consumed outputs of a valid unit are those of its inputs, in every message. */
  lemma {:induction false} ConsumedAreInputs(l: Unspent, done: set<Hash>, db: Units, u: Unit, i: nat)
    requires LedgerInv(l, done) && UnderOwnHash(db) && i <= |u.messages| && MessagesFrom(l, db, u, i).status == Valid
    ensures var es := MessagesFrom(l, db, u, i).consumed;
            && (forall e :: e in es ==> exists k :: i <= k < |u.messages| && Asked(u.messages[k].inputs, e.1.output))
            && (forall k, x :: i <= k < |u.messages| && x in u.messages[k].inputs ==> Paid(es, x.output))
    decreases |u.messages| - i
  {
    if i < |u.messages| {
      var xs := u.messages[i].inputs;
      var s := Spend(l, db, u.author, xs);
      SpendAccounts(l, done, db, u.author, xs);
      ConsumedAreInputs(s.left, done, db, u, i + 1);
      var r := MessagesFrom(s.left, db, u, i + 1);
      var es := s.consumed + r.consumed;
      forall e | e in es ensures exists k :: i <= k < |u.messages| && Asked(u.messages[k].inputs, e.1.output) {
        if e in s.consumed { FollowsAsked(u.author, xs, s.consumed, e); }
      }
      forall k, x | i <= k < |u.messages| && x in u.messages[k].inputs ensures Paid(es, x.output) {
        if k == i { FollowsPaid(u.author, xs, s.consumed, x); } else { assert Paid(r.consumed, x.output); }
        PaidMore(s.consumed, r.consumed, x.output);
      }
    }
  }

  ghost predicate Asked(xs: seq<Input>, o: Output) { exists x :: x in xs && x.output == o }

  ghost predicate Paid(es: seq<Entry>, o: Output) { exists e :: e in es && e.1.output == o }

  lemma PaidMore(a: seq<Entry>, b: seq<Entry>, o: Output)
    requires Paid(a, o) || Paid(b, o)
    ensures Paid(a + b, o)
  {
    var e :| (e in a || e in b) && e.1.output == o;
    assert e in a + b;
  }

  lemma FollowsAsked(author: Address, xs: seq<Input>, es: seq<Entry>, e: Entry)
    requires Follows(author, xs, es) && e in es
    ensures Asked(xs, e.1.output)
  {
    var i :| 0 <= i < |es| && es[i] == e;
    assert xs[i] in xs;
  }

  lemma FollowsPaid(author: Address, xs: seq<Input>, es: seq<Entry>, x: Input)
    requires Follows(author, xs, es) && |es| == |xs| && x in xs
    ensures Paid(es, x.output)
  {
    var i :| 0 <= i < |xs| && xs[i] == x;
    assert es[i] in es;
  }

  /** After a valid unit, some output it has spent can be spent again if and only if some message spends
      an output that is not the author's. */
  lemma SpendableAgainIff(l: Unspent, done: set<Hash>, db: Units, u: Unit)
    requires LedgerInv(l, done) && UnderOwnHash(db) && UnitOutcome(l, db, u).status == Valid
    ensures var h := UnitOutcome(l, db, u);
            (exists e :: e in h.consumed && (e.1.output.address, e.1) in h.left) <==> !AllAuthored(u)
  {
    var h := UnitOutcome(l, db, u);
    ConsumedAreInputs(l, done, db, u, 0);
    forall e | e in h.consumed
      ensures (e.1.output.address, e.1) in h.left <==> e.1.output.address != u.author
    {
      GoneIffAuthored(l, done, db, u, e);
    }
    if !AllAuthored(u) {
      var k, x :| 0 <= k < |u.messages| && x in u.messages[k].inputs && x.output.address != u.author;
      assert Paid(h.consumed, x.output);
    }
    if AllAuthored(u) {
      forall e | e in h.consumed ensures e.1.output.address == u.author {
        var k :| 0 <= k < |u.messages| && Asked(u.messages[k].inputs, e.1.output);
        assert Authored(u, k);
      }
    }
  }

  // ----- units that pass the review and do not conserve

  /** The shape check: every message has inputs and outputs, and all outputs are positive; of the inputs
      of message i it looks at number i alone, which must exist. */
  predicate Formed(u: Unit) {
    |u.messages| > 0 && forall i :: 0 <= i < |u.messages| ==> FormedMessage(u.messages[i], i)
  }

  predicate FormedMessage(m: Message, i: nat) {
    && i < |m.inputs| && m.inputs[i].output.amount > 0
    && m.outputs != [] && forall o :: o in m.outputs ==> o.amount > 0
  }

  /** The shape, amount and author checks accept the unit. */
  ghost predicate Passes(u: Unit) { Formed(u) && AmountsMatch(u) && Authored(u, 0) }

  /** Output number k of the unit with hash 1, and the input that asks for it. */
  function Stored(k: int, o: Output): UTXO { UTXO(1, 0, k, o, "") }

  function Asking(k: int, o: Output): Input { Input(1, 0, k, "", o) }

  lemma SpendFirst(l: Unspent, db: Units, author: Address, k: int, o: Output, xs: seq<Input>)
    requires 1 in db && db[1].hash == 1 && (o.address, Stored(k, o)) in l
    ensures var r := Spend(l - {(author, Stored(k, o))}, db, author, xs);
            Spend(l, db, author, [Asking(k, o)] + xs) == r.(consumed := [(author, Stored(k, o))] + r.consumed)
  {
    assert ([Asking(k, o)] + xs)[1..] == xs;
  }

  /** A unit with two messages, the first with one input and the second with two. */
  function TwoMessages(author: Address, o: Output, p: Output, q: Output, outs: seq<Output>, outs': seq<Output>): Unit {
    Unit(2, author, [Message([Asking(0, o)], outs), Message([Asking(1, p), Asking(2, q)], outs')], 1, 1, author, false)
  }

  lemma TwoMessagesAreValid(l: Unspent, db: Units, author: Address, o: Output, p: Output, q: Output,
                            outs: seq<Output>, outs': seq<Output>)
    requires 1 in db && db[1].hash == 1
    requires (o.address, Stored(0, o)) in l && (p.address, Stored(1, p)) in l && (q.address, Stored(2, q)) in l
    ensures UnitOutcome(l, db, TwoMessages(author, o, p, q, outs, outs')).status == Valid
    ensures AllValid(l, db, [TwoMessages(author, o, p, q, outs, outs')])
    ensures var es := UnitOutcome(l, db, TwoMessages(author, o, p, q, outs, outs')).consumed;
            es == [(author, Stored(0, o)), (author, Stored(1, p)), (author, Stored(2, q))]
  {
    var u := TwoMessages(author, o, p, q, outs, outs');
    var l1 := l - {(author, Stored(0, o))};
    var l2 := l1 - {(author, Stored(1, p))};
    var l3 := l2 - {(author, Stored(2, q))};
    SpendFirst(l, db, author, 0, o, []);
    assert [Asking(0, o)] + [] == [Asking(0, o)];
    SpendFirst(l1, db, author, 1, p, [Asking(2, q)]);
    assert [Asking(1, p)] + [Asking(2, q)] == [Asking(1, p), Asking(2, q)];
    SpendFirst(l2, db, author, 2, q, []);
    assert [Asking(2, q)] + [] == [Asking(2, q)];
    assert MessagesFrom(l3, db, u, 2) == Handled(l3, [], [], Valid);
    assert MessagesFrom(l1, db, u, 1).consumed == [(author, Stored(1, p)), (author, Stored(2, q))] + [];
    assert MessagesFrom(l, db, u, 0).consumed == [(author, Stored(0, o))] + MessagesFrom(l1, db, u, 1).consumed;
    assert [u][1..] == [] && [u] + [] == [u];
  }

  lemma TwoMessagesGain(author: Address, o: Output, p: Output, q: Output, a: Output, b: Output)
    ensures var u := TwoMessages(author, o, p, q, [a], [b]);
            && Imbalance(u) == a.amount + b.amount + 2 - o.amount - p.amount - q.amount
            && ForeignIn(u, 0) == (if o.address == author then 0 else o.amount)
               + (if p.address == author then 0 else p.amount) + (if q.address == author then 0 else q.amount)
            && (AmountsMatch(u) <==> o.amount == a.amount + 2)
            && SumGain([u]) == Gain(u)
  {
    var u := TwoMessages(author, o, p, q, [a], [b]);
    assert PaidOut(u, 2) == 0 && PaidIn(u, 2) == 0 && ForeignIn(u, 2) == 0;
    var x, y, z := Asking(0, o), Asking(1, p), Asking(2, q);
    OneTerm(author, x, a);
    OneTerm(author, z, b);
    assert [y, z][1..] == [z];
    assert PaidOut(u, 1) == SumOutputs([b]) && PaidIn(u, 1) == SumInputs([y, z]);
    assert ForeignIn(u, 1) == SumForeign(author, [y, z]);
    assert [u][1..] == [];
  }

  lemma OneTerm(author: Address, x: Input, o: Output)
    ensures SumInputs([x]) == x.output.amount && SumOutputs([o]) == o.amount
    ensures SumForeign(author, [x]) == if x.output.address == author then 0 else x.output.amount
  {
    assert [x][1..] == [] && [o][1..] == [];
  }

  /** The shape, amount and author checks accept a unit whose second message pays out 5 more than it
      takes: the total grows although every input is the author's. */
  lemma TwoMessagesNeedNotBalance() returns (l: Unspent, done: set<Hash>, db: Units, u: Unit)
    ensures LedgerInv(l, done) && UnderOwnHash(db) && NewBatch([u], done) && AllValid(l, db, [u])
    ensures Formed(u) && AmountsMatch(u) && Authored(u, 0) && AllAuthored(u)
    ensures Total(AfterBatch(l, db, [u])) == Total(l) + 5
  {
    var o, p, a, b := Output(7, 12), Output(7, 1), Output(8, 10), Output(8, 7);
    u := TwoMessages(7, o, p, p, [a], [b]);
    l := {(7, Stored(0, o)), (7, Stored(1, p)), (7, Stored(2, p))};
    done, db := {1}, map[1 := Unit(1, 7, [], 0, 0, 7, false)];
    TwoMessagesAreValid(l, db, 7, o, p, p, [a], [b]);
    TwoMessagesGain(7, o, p, p, a, b);
    ValidBatchTotal(l, done, db, [u]);
  }

  /** The same checks accept a unit that spends 4 of another owner in its second message: its amounts
      cancel, and the total grows by 4, because that output stays. */
  lemma ForeignInputNeedNotBalance() returns (l: Unspent, done: set<Hash>, db: Units, u: Unit)
    ensures LedgerInv(l, done) && UnderOwnHash(db) && NewBatch([u], done) && AllValid(l, db, [u])
    ensures Formed(u) && AmountsMatch(u) && Authored(u, 0) && Imbalance(u) == 0
    ensures Total(AfterBatch(l, db, [u])) == Total(l) + 4
    ensures u.hash == 2 && u.author == 7 && done == {1} && 1 in db && db[1].hash == 1
    ensures UnitOutcome(l, db, u).status == Valid && (7, Stored(1, Output(8, 4))) in UnitOutcome(l, db, u).consumed
  {
    var o, p, q, a, b := Output(7, 12), Output(8, 4), Output(7, 1), Output(8, 10), Output(7, 5);
    u := TwoMessages(7, o, p, q, [a], [b]);
    l := {(7, Stored(0, o)), (8, Stored(1, p)), (7, Stored(2, q))};
    done, db := {1}, map[1 := Unit(1, 7, [], 0, 0, 7, false)];
    TwoMessagesAreValid(l, db, 7, o, p, q, [a], [b]);
    TwoMessagesGain(7, o, p, q, a, b);
    ValidBatchTotal(l, done, db, [u]);
  }

  /** A unit whose third message asks again for what the first has spent. */
  function ThreeMessages(o: Output, p: Output, a: Output, b: Output): Unit {
    var x := Asking(0, o);
    var ms := [Message([x], [a]), Message([Asking(1, p), Asking(2, p)], [b]), Message([x, x, x], [a])];
    Unit(2, o.address, ms, 1, 1, o.address, false)
  }

  lemma ThirdMessageFails(l: Unspent, db: Units, o: Output, p: Output, a: Output, b: Output)
    requires 1 in db && db[1].hash == 1 && o.address == p.address
    requires l == {(o.address, Stored(0, o)), (o.address, Stored(1, p)), (o.address, Stored(2, p))}
    ensures var u := ThreeMessages(o, p, a, b);
            UnitOutcome(l, db, u).status == DoubleSpent && StopsAt(l, db, u, 0) == Stop(2, 0)
  {
    var u, author := ThreeMessages(o, p, a, b), o.address;
    var l1 := l - {(author, Stored(0, o))};
    var l2 := l1 - {(author, Stored(1, p))};
    var l3 := l2 - {(author, Stored(2, p))};
    SpendFirst(l, db, author, 0, o, []);
    assert [Asking(0, o)] + [] == [Asking(0, o)];
    SpendFirst(l1, db, author, 1, p, [Asking(2, p)]);
    assert [Asking(1, p)] + [Asking(2, p)] == [Asking(1, p), Asking(2, p)];
    SpendFirst(l2, db, author, 2, p, []);
    assert [Asking(2, p)] + [] == [Asking(2, p)];
    assert Spend(l3, db, author, u.messages[2].inputs) == Spending(l3, [], DoubleSpent);
    assert MessagesFrom(l3, db, u, 2).status == DoubleSpent && StopsAt(l3, db, u, 2) == Stop(2, 0);
    assert MessagesFrom(l1, db, u, 1).status == DoubleSpent && StopsAt(l1, db, u, 1) == Stop(2, 0);
  }

  lemma ThreeMessagesAmounts(o: Output, p: Output, a: Output, b: Output)
    requires o.address == p.address
    ensures var u := ThreeMessages(o, p, a, b);
            && TakenUpTo(u, 0, Stop(2, 0)) == o.amount + 2 * p.amount && MadeUpTo(u, 0, 2) == a.amount + b.amount
            && (AmountsMatch(u) <==> o.amount == a.amount + 2)
  {
    var u, x, y, z := ThreeMessages(o, p, a, b), Asking(0, o), Asking(1, p), Asking(2, p);
    OneTerm(o.address, x, a);
    OneTerm(o.address, z, b);
    assert [y, z][1..] == [z] && [x, x, x][..0] == [];
    assert TakenUpTo(u, 2, Stop(2, 0)) == 0 && MadeUpTo(u, 2, 2) == 0;
    assert TakenUpTo(u, 1, Stop(2, 0)) == 2 * p.amount && MadeUpTo(u, 1, 2) == b.amount;
  }

  lemma ThreeMessagesPass(o: Output, p: Output, a: Output, b: Output)
    requires o.address == p.address && o.amount == a.amount + 2 && a.amount > 0 && b.amount > 0 && p.amount > 0
    ensures var u := ThreeMessages(o, p, a, b); Passes(u) && AllAuthored(u)
  {
    ThreeMessagesAmounts(o, p, a, b);
  }

  /** A unit that passes the checks, all inputs its author's, and is refused as a double spend: what its
      first two messages pay out stays, and the total goes from 14 to 110. */
  lemma RefusedUnitGrows() returns (l: Unspent, done: set<Hash>, db: Units, u: Unit)
    ensures LedgerInv(l, done) && NonNegative(l) && UnderOwnHash(db) && NewBatch([u], done)
    ensures Passes(u) && AllAuthored(u) && UnitOutcome(l, db, u).status == DoubleSpent
    ensures Total(AfterBatch(l, db, [u])) == Total(l) + 96
  {
    var o, p, a, b := Output(7, 12), Output(7, 1), Output(8, 10), Output(8, 100);
    u := ThreeMessages(o, p, a, b);
    l := {(7, Stored(0, o)), (7, Stored(1, p)), (7, Stored(2, p))};
    done, db := {1}, map[1 := Unit(1, 7, [], 0, 0, 7, false)];
    ThirdMessageFails(l, db, o, p, a, b);
    ThreeMessagesAmounts(o, p, a, b);
    ThreeMessagesPass(o, p, a, b);
    RefusedTotal(l, done, db, u);
  }

  lemma RefusedTotal(l: Unspent, done: set<Hash>, db: Units, u: Unit)
    requires LedgerInv(l, done) && UnderOwnHash(db) && NewBatch([u], done)
    requires UnitOutcome(l, db, u).status == DoubleSpent
    ensures Total(AfterBatch(l, db, [u])) == Total(l) + Made(l, done, db, u) - Taken(l, done, db, u)
  {
    BatchTotal(l, done, db, [u]);
    assert [u][1..] == [];
  }

  // ----- whole runs

  /** A batch with the stored units it is handled against. */
  datatype Step = Step(db: Units, batch: seq<Unit>)

  ghost predicate LawfulRun(steps: seq<Step>, done: set<Hash>) {
    steps != [] ==>
      && UnderOwnHash(steps[0].db) && NewBatch(steps[0].batch, done)
      && LawfulRun(steps[1..], done + HashesOf(steps[0].batch))
  }

  ghost function AfterRun(l: Unspent, steps: seq<Step>): Unspent
    decreases |steps|
  {
    if steps == [] then l else AfterRun(AfterBatch(l, steps[0].db, steps[0].batch), steps[1..])
  }

  ghost function ConsumedByRun(l: Unspent, steps: seq<Step>): seq<Entry>
    decreases |steps|
  {
    if steps == [] then []
    else
      var later := ConsumedByRun(AfterBatch(l, steps[0].db, steps[0].batch), steps[1..]);
      BatchOutcome(l, steps[0].db, steps[0].batch).consumed + later
  }

  /** Over a whole run of any units: once its owner has spent an output, nobody spends it again; and
      whatever is spent was in the ledger at the start or was created by a unit of the run. */
  lemma {:induction false} SpentOnceByItsOwner(l: Unspent, done: set<Hash>, steps: seq<Step>)
    requires LedgerInv(l, done) && LawfulRun(steps, done)
    ensures Once(ConsumedByRun(l, steps))
    ensures forall e :: e in ConsumedByRun(l, steps) ==> (e.1.output.address, e.1) in l || e.1.unitHash !in done
    decreases |steps|
  {
    if steps != [] {
      var db, us := steps[0].db, steps[0].batch;
      var b, l' := BatchOutcome(l, db, us), AfterBatch(l, db, us);
      BatchKeepsInv(l, done, db, us);
      UnitsAccount(l, done, db, us);
      SpentOnceByItsOwner(l', done + HashesOf(us), steps[1..]);
      var later := ConsumedByRun(l', steps[1..]);
      forall e | e in later
        ensures (e.1.output.address, e.1) in l || e.1.unitHash !in done
        ensures forall d :: d in b.consumed && Owned(d) ==> d.1 != e.1
      {
        LaterIsNew(l, done, db, us, e.1);
      }
      AppendOnce(b.consumed, later);
    }
  }

  /** What is stored after a batch was left over, or was created by it. */
  lemma LaterIsNew(l: Unspent, done: set<Hash>, db: Units, us: seq<Unit>, u: UTXO)
    requires LedgerInv(l, done) && UnderOwnHash(db) && NewBatch(us, done)
    requires (u.output.address, u) in AfterBatch(l, db, us) || u.unitHash !in done + HashesOf(us)
    ensures (u.output.address, u) in BatchOutcome(l, db, us).left || u.unitHash !in done
    ensures forall d :: d in BatchOutcome(l, db, us).consumed && Owned(d) ==> d.1 != u
  {
    UnitsAccount(l, done, db, us);
    BatchSaves(l, done, db, us);
    var b := BatchOutcome(l, db, us);
    if (u.output.address, u) in AfterBatch(l, db, us) && (u.output.address, u) !in b.left {
      var c :| c in b.commissions + WitnessEarnings(b.valid) && (c.address, c.utxo) == (u.output.address, u);
      assert u.unitHash in HashesOf(us);
    }
    assert (u.output.address, u) in b.left || u.unitHash !in done;
    forall d | d in b.consumed && Owned(d) ensures d.1 != u {
      assert d == (d.1.output.address, d.1);
      assert d in l && d !in b.left;
      assert d.1.unitHash in done;
    }
  }

  // ----- never twice

  ghost predicate AllOwned(es: seq<Entry>) { forall e :: e in es ==> Owned(e) }

  /** What messages i and later consume, of a valid unit or not, is the author's if all inputs are. */
  lemma {:induction false} MessagesOwned(l: Unspent, done: set<Hash>, db: Units, u: Unit, i: nat)
    requires LedgerInv(l, done) && UnderOwnHash(db) && AllAuthored(u) && i <= |u.messages|
    ensures AllOwned(MessagesFrom(l, db, u, i).consumed)
    decreases |u.messages| - i
  {
    if i < |u.messages| {
      var xs := u.messages[i].inputs;
      var s := Spend(l, db, u.author, xs);
      SpendAccounts(l, done, db, u.author, xs);
      assert Authored(u, i);
      forall e | e in s.consumed ensures Owned(e) {
        FollowsAsked(u.author, xs, s.consumed, e);
      }
      if s.status == Valid { MessagesOwned(s.left, done, db, u, i + 1); }
    }
  }

  lemma {:induction false} BatchOwned(l: Unspent, done: set<Hash>, db: Units, us: seq<Unit>)
    requires LedgerInv(l, done) && UnderOwnHash(db) && forall u :: u in us ==> AllAuthored(u)
    ensures AllOwned(BatchOutcome(l, db, us).consumed)
    decreases |us|
  {
    if us != [] {
      MessagesOwned(l, done, db, us[0], 0);
      UnitAccount(l, done, db, us[0]);
      var h := UnitOutcome(l, db, us[0]);
      var db' := if h.status == Valid then db else db[us[0].hash := us[0].(invalid := true)];
      if h.status != SourceMissing { BatchOwned(h.left, done, db', us[1..]); }
    }
  }

  ghost predicate RunAuthored(steps: seq<Step>) {
    forall s, u :: s in steps && u in s.batch ==> AllAuthored(u)
  }

  lemma {:induction false} RunOwned(l: Unspent, done: set<Hash>, steps: seq<Step>)
    requires LedgerInv(l, done) && LawfulRun(steps, done) && RunAuthored(steps)
    ensures AllOwned(ConsumedByRun(l, steps))
    decreases |steps|
  {
    if steps != [] {
      var db, us := steps[0].db, steps[0].batch;
      assert steps[0] in steps;
      BatchOwned(l, done, db, us);
      BatchKeepsInv(l, done, db, us);
      RunOwned(AfterBatch(l, db, us), done + HashesOf(us), steps[1..]);
    }
  }

  /** All consumed outputs are different. */
  ghost predicate Distinct(es: seq<Entry>) {
    forall i, j :: 0 <= i < j < |es| ==> es[i].1 != es[j].1
  }

  /** Over a whole run of units whose inputs are all their authors', no output is consumed twice, whether
      the units turn out valid or not. */
  lemma NeverSpentTwice(l: Unspent, done: set<Hash>, steps: seq<Step>)
    requires LedgerInv(l, done) && LawfulRun(steps, done) && RunAuthored(steps)
    ensures Distinct(ConsumedByRun(l, steps)) && NoDuplicates(ConsumedByRun(l, steps))
  {
    RunOwned(l, done, steps);
    SpentOnceByItsOwner(l, done, steps);
    var es := ConsumedByRun(l, steps);
    forall i, j | 0 <= i < j < |es| ensures es[i].1 != es[j].1 {
      assert es[i] in es;
    }
  }

  lemma ReviewedNeverSpentTwice(l: Unspent, done: set<Hash>, steps: seq<Step>)
    requires LedgerInv(l, done) && LawfulRun(steps, done)
    requires forall s, u :: s in steps && u in s.batch ==> Reviewed(u)
    ensures Distinct(ConsumedByRun(l, steps)) && NoDuplicates(ConsumedByRun(l, steps))
  {
    forall s, u | s in steps && u in s.batch ensures AllAuthored(u) {
      assert Reviewed(u);
    }
    NeverSpentTwice(l, done, steps);
  }

  /** A run that goes on after the unit u with units whose inputs are all their authors'. */
  ghost predicate GoesOn(db: Units, u: Unit, done: set<Hash>, rest: seq<Step>) {
    LawfulRun([Step(db, [u])] + rest, done) && RunAuthored(rest)
  }

  ghost function SpentFrom(l: Unspent, db: Units, u: Unit, rest: seq<Step>): seq<Entry> {
    ConsumedByRun(l, [Step(db, [u])] + rest)
  }

  /** The exact condition, for any valid unit: it opens the way to a second spending of an output, with all
      later spending by the owners, if and only if some input is not its author's. */
  lemma SpentTwiceIff(l: Unspent, done: set<Hash>, db: Units, u: Unit)
    requires LedgerInv(l, done) && UnderOwnHash(db) && NewBatch([u], done) && UnitOutcome(l, db, u).status == Valid
    ensures (exists rest :: GoesOn(db, u, done, rest) && !Distinct(SpentFrom(l, db, u, rest))) <==> !AllAuthored(u)
  {
    if AllAuthored(u) {
      forall rest | GoesOn(db, u, done, rest) ensures Distinct(SpentFrom(l, db, u, rest)) {
        forall s, v | s in [Step(db, [u])] + rest && v in s.batch ensures AllAuthored(v) {
          assert s == Step(db, [u]) || s in rest;
        }
        NeverSpentTwice(l, done, [Step(db, [u])] + rest);
      }
    } else {
      SpendableAgainIff(l, done, db, u);
      var e :| e in UnitOutcome(l, db, u).consumed && (e.1.output.address, e.1) in UnitOutcome(l, db, u).left;
      var rest := SpendAgain(l, done, db, u, e);
    }
  }

  /** The owner of an output that was spent and is still stored can spend it. */
  lemma SpendAgain(l: Unspent, done: set<Hash>, db: Units, u: Unit, e: Entry) returns (rest: seq<Step>)
    requires LedgerInv(l, done) && UnderOwnHash(db) && NewBatch([u], done) && UnitOutcome(l, db, u).status == Valid
    requires e in UnitOutcome(l, db, u).consumed && (e.1.output.address, e.1) in UnitOutcome(l, db, u).left
    ensures GoesOn(db, u, done, rest) && !Distinct(SpentFrom(l, db, u, rest))
  {
    var k, x := AskedBy(l, db, u, 0, e);
    var h := NewHash(done + {u.hash});
    var v := Unit(h, e.1.output.address, [Message([x], [])], 0, 0, 0, false);
    rest := [Step(db, [v])];
    TwoStepRun(l, done, db, u, v);
    assert [Step(db, [u])] + rest == [Step(db, [u]), Step(db, [v])];
    assert RunAuthored(rest) by {
      UnitStop(l, done, db, u);
      OneInputAuthored(db, v, x, e.1);
    }
    SecondSpend(l, db, u, v, x, e);
  }

  /** A unit that takes one input asking for an output of its author. */
  lemma OneInputAuthored(db: Units, v: Unit, x: Input, o: UTXO)
    requires PendingSpent(db, x) == Some(o) && o.unitHash != 0 && o.output.address == v.author
    requires |v.messages| == 1 && v.messages[0].inputs == [x]
    ensures AllAuthored(v)
  {
  }

  lemma SecondSpend(l: Unspent, db: Units, u: Unit, v: Unit, x: Input, e: Entry)
    requires UnitOutcome(l, db, u).status == Valid && |v.messages| == 1 && v.messages[0].inputs == [x]
    requires e in UnitOutcome(l, db, u).consumed && (e.1.output.address, e.1) in UnitOutcome(l, db, u).left
    requires PendingSpent(db, x) == Some(e.1)
    ensures !Distinct(UnitOutcome(l, db, u).consumed + BatchOutcome(AfterBatch(l, db, [u]), db, [v]).consumed)
  {
    OneUnitBatch(l, db, u);
    SpendAsked(AfterBatch(l, db, [u]), db, v, x, e.1);
    SameOutput(UnitOutcome(l, db, u).consumed, e, (v.author, e.1));
  }

  /** Every consumed output was asked for by an input. */
  lemma {:induction false} AskedBy(l: Unspent, db: Units, u: Unit, i: nat, e: Entry) returns (k: nat, x: Input)
    requires i <= |u.messages| && e in MessagesFrom(l, db, u, i).consumed
    ensures k < |u.messages| && x in u.messages[k].inputs && PendingSpent(db, x) == Some(e.1)
    decreases |u.messages| - i
  {
    var s := Spend(l, db, u.author, u.messages[i].inputs);
    if e in s.consumed {
      k := i;
      x := SpendAskedBy(l, db, u.author, u.messages[i].inputs, e);
    } else {
      k, x := AskedBy(s.left, db, u, i + 1, e);
    }
  }

  lemma {:induction false} SpendAskedBy(l: Unspent, db: Units, author: Address, xs: seq<Input>, e: Entry)
    returns (x: Input)
    requires e in Spend(l, db, author, xs).consumed
    ensures x in xs && PendingSpent(db, x) == Some(e.1)
    decreases |xs|
  {
    var u := PendingSpent(db, xs[0]).value;
    if e == (author, u) {
      x := xs[0];
    } else {
      x := SpendAskedBy(l - {(author, u)}, db, author, xs[1..], e);
    }
  }

  lemma {:induction false} NewHash(used: set<Hash>) returns (h: Hash)
    ensures h > 0 && forall k :: k in used ==> k < h
    decreases |used|
  {
    h := 1;
    if used != {} {
      var x :| x in used;
      var g := NewHash(used - {x});
      h := if g > x then g else x + 1;
      assert forall k :: k in used ==> k == x || k in used - {x};
    }
  }

  lemma SpendAsked(l: Unspent, db: Units, v: Unit, x: Input, o: UTXO)
    requires PendingSpent(db, x) == Some(o) && (o.output.address, o) in l
    requires |v.messages| == 1 && v.messages[0].inputs == [x]
    ensures BatchOutcome(l, db, [v]).consumed == [(v.author, o)]
  {
    var m := l - {(v.author, o)};
    assert [x][1..] == [];
    assert Spend(l, db, v.author, [x]) == Spending(m, [(v.author, o)] + [], Valid);
    assert MessagesFrom(m, db, v, 1).consumed == [];
    assert UnitOutcome(l, db, v).consumed == [(v.author, o)] + [];
    assert [v][1..] == [];
  }

  /** A run in which an output is consumed twice, by a unit that the checks accept and that does not own
      it, and then by its owner. */
  lemma CanBeSpentTwice() returns (l: Unspent, done: set<Hash>, steps: seq<Step>)
    ensures LedgerInv(l, done) && LawfulRun(steps, done)
    ensures forall s, u :: s in steps && u in s.batch ==> Passes(u)
    ensures !Distinct(ConsumedByRun(l, steps))
  {
    var u;
    var db;
    l, done, db, u := ForeignInputNeedNotBalance();
    var p := Output(8, 4);
    var v := Unit(3, 8, [Message([Asking(1, p)], [Output(9, 2)])], 1, 1, 8, false);
    steps := [Step(db, [u]), Step(db, [v])];
    TwoStepRun(l, done, db, u, v);
    GoneIffAuthored(l, done, db, u, (7, Stored(1, p)));
    SecondSpend(l, db, u, v, Asking(1, p), (7, Stored(1, p)));
    OwnerPasses(v, p);
    BothPass(db, u, v);
  }

  lemma OwnerPasses(v: Unit, p: Output)
    requires p == Output(8, 4) && v == Unit(3, 8, [Message([Asking(1, p)], [Output(9, 2)])], 1, 1, 8, false)
    ensures Passes(v)
  {
    OneTerm(8, Asking(1, p), Output(9, 2));
  }

  lemma BothPass(db: Units, u: Unit, v: Unit)
    requires Passes(u) && Passes(v)
    ensures forall s, w :: s in [Step(db, [u]), Step(db, [v])] && w in s.batch ==> Passes(w)
  {
  }

  lemma SameOutput(es: seq<Entry>, d: Entry, e: Entry)
    requires d in es && d.1 == e.1
    ensures !Distinct(es + [e])
  {
    var i :| 0 <= i < |es| && es[i] == d;
    var fs := es + [e];
    assert fs[i].1 == fs[|es|].1;
  }

  lemma OneUnitBatch(l: Unspent, db: Units, u: Unit)
    requires UnitOutcome(l, db, u).status == Valid
    ensures var b, h := BatchOutcome(l, db, [u]), UnitOutcome(l, db, u);
            b.left == h.left && b.consumed == h.consumed && b.left <= AfterBatch(l, db, [u])
  {
    assert [u][1..] == [];
  }

  lemma TwoStepRun(l: Unspent, done: set<Hash>, db: Units, u: Unit, v: Unit)
    requires UnderOwnHash(db) && NewBatch([u], done) && NewBatch([v], done) && u.hash != v.hash
    requires UnitOutcome(l, db, u).status == Valid
    ensures var steps := [Step(db, [u]), Step(db, [v])];
            && LawfulRun(steps, done)
            && ConsumedByRun(l, steps)
               == UnitOutcome(l, db, u).consumed + BatchOutcome(AfterBatch(l, db, [u]), db, [v]).consumed
  {
    OneUnitBatch(l, db, u);
    var steps := [Step(db, [u]), Step(db, [v])];
    assert steps[1..] == [Step(db, [v])] && [Step(db, [v])][1..] == [];
    assert HashesOf([u]) == {u.hash};
    var m := AfterBatch(l, db, [u]);
    assert ConsumedByRun(m, [Step(db, [v])]) == BatchOutcome(m, db, [v]).consumed + [];
  }

  /** Over a whole run of thrifty units, of any number of messages, the total never grows. */
  lemma {:induction false} TotalNeverGrows(l: Unspent, done: set<Hash>, steps: seq<Step>)
    requires LedgerInv(l, done) && NonNegative(l) && LawfulRun(steps, done)
    requires forall s, u :: s in steps && u in s.batch ==> Thrifty(u) && Paying(u)
    ensures Total(AfterRun(l, steps)) <= Total(l)
    decreases |steps|
  {
    if steps != [] {
      assert steps[0] in steps;
      ThriftyNeverGrows(l, done, steps[0].db, steps[0].batch);
      BatchKeepsInv(l, done, steps[0].db, steps[0].batch);
      TotalNeverGrows(AfterBatch(l, steps[0].db, steps[0].batch), done + HashesOf(steps[0].batch), steps[1..]);
    }
  }
}
