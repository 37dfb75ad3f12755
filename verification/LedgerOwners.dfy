/** Who is paid what by a batch of stabilised units, and which stored outputs can be asked for
    (transaction/stableprocess.go, consensus.go, transaction.go). */
module LedgerOwners {
  import opened Common
  import opened Ledger

  // ----- what is stored under an address

  ghost function Under(l: Unspent, a: Address): Unspent {
    set e | e in l && e.0 == a
  }

  ghost function TotalUnder(l: Unspent, a: Address): int { Total(Under(l, a)) }

  lemma UnderRemove(l: Unspent, e: Entry, a: Address)
    requires e in l
    ensures TotalUnder(l - {e}, a) == TotalUnder(l, a) - if e.0 == a then e.1.output.amount else 0
  {
    if e.0 == a {
      assert Under(l - {e}, a) == Under(l, a) - {e};
      TotalRemove(Under(l, a), e);
    } else {
      assert Under(l - {e}, a) == Under(l, a);
    }
  }

  lemma UnderAdd(l: Unspent, e: Entry, a: Address)
    requires e !in l
    ensures TotalUnder(l + {e}, a) == TotalUnder(l, a) + if e.0 == a then e.1.output.amount else 0
  {
    UnderRemove(l + {e}, e, a);
    assert l + {e} - {e} == l;
  }

  // ----- the fields of the units

  /** The inputs that take outputs of a. */
  function InputsOf(a: Address, xs: seq<Input>): int {
    if xs == [] then 0 else (if xs[0].output.address == a then xs[0].output.amount else 0) + InputsOf(a, xs[1..])
  }

  /** The outputs addressed to a. */
  function OutputsTo(a: Address, os: seq<Output>): int {
    if os == [] then 0 else (if os[0].address == a then os[0].amount else 0) + OutputsTo(a, os[1..])
  }

  lemma {:induction false} OutputsToSnoc(a: Address, os: seq<Output>, o: Output)
    ensures OutputsTo(a, os + [o]) == OutputsTo(a, os) + if o.address == a then o.amount else 0
  {
    if os == [] {
      assert [] + [o] == [o] && [o][1..] == [];
    } else {
      assert (os + [o])[1..] == os[1..] + [o];
      OutputsToSnoc(a, os[1..], o);
    }
  }

  /** What a takes out of its own by messages i and later of u, and what they pay to a. */
  ghost function TakenFrom(u: Unit, a: Address, i: nat): int
    requires i <= |u.messages|
    decreases |u.messages| - i
  {
    if i == |u.messages| then 0
    else (if u.author == a then InputsOf(a, u.messages[i].inputs) else 0) + TakenFrom(u, a, i + 1)
  }

  ghost function PaidTo(u: Unit, a: Address, i: nat): int
    requires i <= |u.messages|
    decreases |u.messages| - i
  {
    if i == |u.messages| then 0 else OutputsTo(a, u.messages[i].outputs) + PaidTo(u, a, i + 1)
  }

  /** What a unit changes for a, without the payload commission. */
  ghost function NetFor(u: Unit, a: Address): int {
    PaidTo(u, a, 0) - TakenFrom(u, a, 0) + if u.subStableAuthor == a then u.headersCommission else 0
  }

  ghost function SumNet(us: seq<Unit>, a: Address): int {
    if us == [] then 0 else NetFor(us[0], a) + SumNet(us[1..], a)
  }

  // ----- the commissions of an address

  function SumFor(cs: seq<Commission>, a: Address): int {
    if cs == [] then 0 else (if cs[0].address == a then cs[0].utxo.output.amount else 0) + SumFor(cs[1..], a)
  }

  lemma {:induction false} SumForAppend(xs: seq<Commission>, ys: seq<Commission>, a: Address)
    ensures SumFor(xs + ys, a) == SumFor(xs, a) + SumFor(ys, a)
  {
    if xs == [] { assert xs + ys == ys; }
    else { assert (xs + ys)[1..] == xs[1..] + ys; SumForAppend(xs[1..], ys, a); }
  }

  lemma SumForOne(c: Commission, a: Address)
    ensures SumFor([c], a) == if c.address == a then c.utxo.output.amount else 0
  {
    assert [c][1..] == [];
  }

  lemma {:induction false} OutputsArePaid(u: Unit, i: nat, a: Address, n: nat)
    requires i < |u.messages| && n <= |u.messages[i].outputs|
    ensures SumFor(OutputCommissions(u, i)[..n], a) == OutputsTo(a, u.messages[i].outputs[..n])
  {
    if n > 0 {
      OutputsArePaid(u, i, a, n - 1);
      var cs, os := OutputCommissions(u, i), u.messages[i].outputs;
      assert cs[..n] == cs[..n - 1] + [cs[n - 1]] && os[..n] == os[..n - 1] + [os[n - 1]];
      SumForAppend(cs[..n - 1], [cs[n - 1]], a);
      SumForOne(cs[n - 1], a);
      OutputsToSnoc(a, os[..n - 1], os[n - 1]);
    }
  }

  lemma {:induction false} EarningsArePaid(us: seq<Unit>, a: Address, n: nat)
    requires n <= |us|
    ensures SumFor(WitnessEarnings(us)[..n], a)
         == if us != [] && us[|us| - 1].author == a then SumPayload(us[..n]) else 0
  {
    if n > 0 {
      EarningsArePaid(us, a, n - 1);
      var w := WitnessEarnings(us);
      assert w[..n] == w[..n - 1] + [w[n - 1]] && us[..n] == us[..n - 1] + [us[n - 1]];
      SumForAppend(w[..n - 1], [w[n - 1]], a);
      SumForOne(w[n - 1], a);
      SumPayloadAppend(us[..n - 1], [us[n - 1]]);
      assert [us[n - 1]][1..] == [];
    }
  }

  // ----- spending and paying

  lemma {:induction false} SpendUnder(
    l: Unspent, done: set<Hash>, db: Units, author: Address, xs: seq<Input>, a: Address)
    requires LedgerInv(l, done) && UnderOwnHash(db) && Spend(l, db, author, xs).status == Valid
    ensures TotalUnder(Spend(l, db, author, xs).left, a)
         == TotalUnder(l, a) - if author == a then InputsOf(a, xs) else 0
    decreases |xs|
  {
    if xs != [] {
      var u := PendingSpent(db, xs[0]).value;
      assert (u.output.address, u) in l && u != ZERO_UTXO && u.output == xs[0].output;
      var l' := l - {(author, u)};
      SpendUnder(l', done, db, author, xs[1..], a);
      if u.output.address == author {
        UnderRemove(l, (author, u), a);
      } else {
        assert l' == l;
      }
    }
  }

  lemma {:induction false} MessagesUnder(l: Unspent, done: set<Hash>, db: Units, u: Unit, i: nat, a: Address)
    requires LedgerInv(l, done) && UnderOwnHash(db) && i <= |u.messages| && MessagesFrom(l, db, u, i).status == Valid
    ensures var h := MessagesFrom(l, db, u, i);
            && TotalUnder(h.left, a) == TotalUnder(l, a) - TakenFrom(u, a, i)
            && SumFor(h.commissions, a) == PaidTo(u, a, i)
    decreases |u.messages| - i
  {
    if i < |u.messages| {
      var xs, os := u.messages[i].inputs, u.messages[i].outputs;
      var s := Spend(l, db, u.author, xs);
      SpendUnder(l, done, db, u.author, xs, a);
      SpendTotals(l, done, db, u.author, xs);
      MessagesUnder(s.left, done, db, u, i + 1, a);
      var cs := OutputCommissions(u, i);
      OutputsArePaid(u, i, a, |os|);
      assert cs[..|os|] == cs && os[..|os|] == os;
      SumForAppend(cs, MessagesFrom(s.left, db, u, i + 1).commissions, a);
    }
  }

  lemma UnitUnder(l: Unspent, done: set<Hash>, db: Units, u: Unit, a: Address)
    requires LedgerInv(l, done) && UnderOwnHash(db) && UnitOutcome(l, db, u).status == Valid
    ensures var h := UnitOutcome(l, db, u);
            TotalUnder(h.left, a) + SumFor(h.commissions, a) == TotalUnder(l, a) + NetFor(u, a)
  {
    MessagesUnder(l, done, db, u, 0, a);
    SumForAppend(MessagesFrom(l, db, u, 0).commissions, [MinerCommission(u)], a);
    SumForOne(MinerCommission(u), a);
  }

  lemma {:induction false} UnitsUnder(l: Unspent, done: set<Hash>, db: Units, us: seq<Unit>, a: Address)
    requires LedgerInv(l, done) && UnderOwnHash(db) && AllValid(l, db, us)
    ensures var b := BatchOutcome(l, db, us);
            TotalUnder(b.left, a) + SumFor(b.commissions, a) == TotalUnder(l, a) + SumNet(us, a)
    decreases |us|
  {
    if us != [] {
      FirstIsValid(l, db, us);
      UnitUnder(l, done, db, us[0], a);
      UnitStop(l, done, db, us[0]);
      var h := UnitOutcome(l, db, us[0]);
      UnitsUnder(h.left, done, db, us[1..], a);
      SumForAppend(h.commissions, BatchOutcome(h.left, db, us[1..]).commissions, a);
    }
  }

  lemma {:induction false} ValidAreFewer(l: Unspent, db: Units, us: seq<Unit>)
    ensures |BatchOutcome(l, db, us).valid| <= |us|
    decreases |us|
  {
    if us != [] {
      ValidAreFewer(UnitOutcome(l, db, us[0]).left, Marked(l, db, us[0]), us[1..]);
    }
  }

  lemma FirstIsValid(l: Unspent, db: Units, us: seq<Unit>)
    requires us != [] && AllValid(l, db, us)
    ensures UnitOutcome(l, db, us[0]).status == Valid && AllValid(UnitOutcome(l, db, us[0]).left, db, us[1..])
  {
    var h := UnitOutcome(l, db, us[0]);
    ValidAreFewer(h.left, Marked(l, db, us[0]), us[1..]);
    assert h.status == Valid;
    var r := BatchOutcome(h.left, db, us[1..]);
    assert ([us[0]] + r.valid)[1..] == r.valid;
  }

  lemma {:induction false} SavingUnder(l: Unspent, cs: seq<Commission>, a: Address)
    requires Saveable(l, cs)
    ensures TotalUnder(l + Entries(cs), a) == TotalUnder(l, a) + SumFor(cs, a)
    decreases |cs|
  {
    if cs == [] {
      assert l + Entries(cs) == l;
    } else {
      var e, rest := (cs[0].address, cs[0].utxo), cs[1..];
      assert forall i :: 0 <= i < |rest| ==> rest[i] == cs[i + 1];
      SavingUnder(l, rest, a);
      forall c | c in rest ensures (c.address, c.utxo) != e { assert c != cs[0]; }
      assert forall c :: c in cs <==> c == cs[0] || c in rest;
      UnderAdd(l + Entries(rest), e, a);
      assert l + Entries(cs) == l + Entries(rest) + {e};
    }
  }

  /** The law of every owner: a batch of valid units changes what is stored under an address by the outputs
      addressed to it, less what it spends of its own, plus the headers commissions it has earned and, if
      it is the author of the last unit, all payload commissions. */
  lemma OwnerLaw(l: Unspent, done: set<Hash>, db: Units, us: seq<Unit>, a: Address)
    requires LedgerInv(l, done) && UnderOwnHash(db) && NewBatch(us, done) && AllValid(l, db, us)
    ensures TotalUnder(AfterBatch(l, db, us), a) == TotalUnder(l, a) + SumNet(us, a)
              + if us != [] && us[|us| - 1].author == a then SumPayload(us) else 0
  {
    UnitsUnder(l, done, db, us, a);
    BatchSaves(l, done, db, us);
    var b := BatchOutcome(l, db, us);
    var w := WitnessEarnings(us);
    SavingUnder(b.left, b.commissions + w, a);
    SumForAppend(b.commissions, w, a);
    EarningsArePaid(us, a, |us|);
    assert w[..|us|] == w && us[..|us|] == us;
  }

  // ----- which units are marked

  /** The stored unit is the same in both stores, or in neither. */
  predicate SameAt(m: Units, n: Units, h: Hash) {
    (h in m <==> h in n) && (h in m && h in n ==> m[h] == n[h])
  }

  /** After a batch that is not aborted, exactly its invalid units are stored as invalid: the stored units
      of all other hashes are as before. */
  lemma {:induction false} MarksTheInvalid(l: Unspent, done: set<Hash>, db: Units, us: seq<Unit>, h: Hash)
    requires NewBatch(us, done) && !BatchOutcome(l, db, us).aborted
    ensures var db', valid := MarkedBy(l, db, us), BatchOutcome(l, db, us).valid;
            && (h !in HashesOf(us) ==> SameAt(db', db, h))
            && (forall u :: u in us && u.hash == h ==>
                  if u in valid then SameAt(db', db, h) else h in db' && db'[h] == u.(invalid := true))
            && (forall u :: u in valid ==> u in us)
    decreases |us|
  {
    if us != [] {
      var o, db' := UnitOutcome(l, db, us[0]), Marked(l, db, us[0]);
      assert NewBatch(us[1..], done) && us[0].hash !in HashesOf(us[1..]);
      MarksTheInvalid(o.left, done, db', us[1..], h);
      assert forall u :: u in us[1..] ==> u in us;
      assert forall u :: u in us ==> u == us[0] || u in us[1..];
    }
  }

  // ----- which outputs can be asked for

  /** An input that asks for the output, if its source unit is stored. */
  ghost predicate CanBeAsked(db: Units, o: UTXO) { exists x :: PendingSpent(db, x) == Some(o) }

  /** An output of a stored unit can be asked for if and only if it is an output of the first message, or a
      commission: the message index of an input is never read. */
  lemma AskedIff(db: Units, o: UTXO)
    requires UnderOwnHash(db) && o.unitHash in db && o != ZERO_UTXO
    ensures CanBeAsked(db, o) <==>
      o.messageIndex == 0 && (o.kind == "" || ((o.kind == "mc" || o.kind == "wc") && o.outputIndex == 0))
  {
    var x := Input(o.unitHash, o.messageIndex, o.outputIndex, o.kind, o.output);
    if o.messageIndex == 0 && (o.kind == "" || ((o.kind == "mc" || o.kind == "wc") && o.outputIndex == 0)) {
      assert PendingSpent(db, x) == Some(o);
    }
  }

  /** Output z of message i of a valid unit is stored as number z of message i, under its address; and its
      owner can ask for it if and only if i is 0. */
  lemma OutputIsStored(l: Unspent, done: set<Hash>, db: Units, us: seq<Unit>, u: Unit, i: nat, z: nat)
    requires LedgerInv(l, done) && UnderOwnHash(db) && NewBatch(us, done) && AllValid(l, db, us)
    requires u in us && i < |u.messages| && z < |u.messages[i].outputs| && u.hash in db
    ensures var o := u.messages[i].outputs[z];
            && (o.address, UTXO(u.hash, i, z, o, "")) in AfterBatch(l, db, us)
            && (CanBeAsked(db, UTXO(u.hash, i, z, o, "")) <==> i == 0)
  {
    var o := u.messages[i].outputs[z];
    var c := Commission(o.address, UTXO(u.hash, i, z, o, ""));
    assert OutputCommissions(u, i)[z] == c;
    UnitIsPaid(l, db, us, u, i, c);
    assert c in BatchOutcome(l, db, us).commissions + WitnessEarnings(BatchOutcome(l, db, us).valid);
    AskedIff(db, c.utxo);
  }

  lemma {:induction false} UnitIsPaid(l: Unspent, db: Units, us: seq<Unit>, u: Unit, i: nat, c: Commission)
    requires AllValid(l, db, us) && u in us && i < |u.messages| && c in OutputCommissions(u, i)
    ensures c in BatchOutcome(l, db, us).commissions
    decreases |us|
  {
    FirstIsValid(l, db, us);
    var h := UnitOutcome(l, db, us[0]);
    if u == us[0] {
      MessageIsPaid(l, db, u, 0, i, c);
    } else {
      UnitIsPaid(h.left, db, us[1..], u, i, c);
    }
  }

  lemma {:induction false} MessageIsPaid(l: Unspent, db: Units, u: Unit, k: nat, i: nat, c: Commission)
    requires k <= i < |u.messages| && c in OutputCommissions(u, i) && MessagesFrom(l, db, u, k).status == Valid
    ensures c in MessagesFrom(l, db, u, k).commissions
    decreases i - k
  {
    if k < i {
      MessageIsPaid(Spend(l, db, u.author, u.messages[k].inputs).left, db, u, k + 1, i, c);
    }
  }
}
