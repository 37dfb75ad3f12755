/** The loops of the ledger code, proved against the outcomes defined in Ledger. */
module LedgerProcess {
  import opened Common
  import opened Ledger

  datatype TxResult = Created(unit: Unit) | NotEnoughBalance | NotEnoughCommission

  const HEADER_COMMISSION := 100
  const PAYLOAD_COMMISSION := 100

  function SumUnspent(us: seq<UTXO>): int {
    if us == [] then 0 else us[0].output.amount + SumUnspent(us[1..])
  }

  lemma {:induction false} SumUnspentSnoc(us: seq<UTXO>, u: UTXO)
    ensures SumUnspent(us + [u]) == SumUnspent(us) + u.output.amount
  {
    if us == [] { assert us + [u] == [u]; }
    else { assert (us + [u])[1..] == us[1..] + [u]; SumUnspentSnoc(us[1..], u); }
  }

  function AsInputs(us: seq<UTXO>): (xs: seq<Input>)
    ensures |xs| == |us| && SumInputs(xs) == SumUnspent(us)
  {
    if us == [] then []
    else [Input(us[0].unitHash, us[0].messageIndex, us[0].outputIndex, us[0].kind, us[0].output)] + AsInputs(us[1..])
  }

  lemma {:induction false} AsInputsSnoc(us: seq<UTXO>, u: UTXO)
    ensures AsInputs(us + [u]) == AsInputs(us) + [Input(u.unitHash, u.messageIndex, u.outputIndex, u.kind, u.output)]
  {
    if us == [] { assert us + [u] == [u]; }
    else { assert (us + [u])[1..] == us[1..] + [u]; AsInputsSnoc(us[1..], u); }
  }

  /** What is left over goes back to the payer. */
  function Change(from: Address, left: int): seq<Output> {
    if left > 0 then [Output(from, left)] else []
  }

  /** Pay `amount` to `to` out of the offered outputs, covering `total` and both commissions.
      The shortest sufficient prefix is spent.  The unit created passes the amount check if and only
      if the amount paid is the total asked for; with nothing offered (possible only when the total is
      at most minus the commissions) it passes only if the amount is minus the commissions. */
  method CreateTx(base: Unit, offered: seq<UTXO>, from: Address, to: Address, total: int, amount: int)
    returns (r: TxResult, ghost n: nat)
    ensures n <= |offered| && (offered != [] ==> n >= 1)
    ensures forall k :: 1 <= k < n ==> SumUnspent(offered[..k]) < total + HEADER_COMMISSION + PAYLOAD_COMMISSION
    ensures r.Created? <==> SumUnspent(offered[..n]) >= total + HEADER_COMMISSION + PAYLOAD_COMMISSION
    ensures r.NotEnoughBalance? <==> SumUnspent(offered[..n]) < total
    ensures !r.Created? ==> n == |offered|
    ensures r.Created? ==>
      r.unit == base.(messages := r.unit.messages,
                      payloadCommission := PAYLOAD_COMMISSION, headersCommission := HEADER_COMMISSION)
    ensures r.Created? ==> |r.unit.messages| == 1 && r.unit.messages[0].inputs == AsInputs(offered[..n])
    ensures r.Created? ==>
      r.unit.messages[0].outputs == [Output(to, amount)] + Change(from,
        if offered == [] then 0 else SumUnspent(offered[..n]) - total - HEADER_COMMISSION - PAYLOAD_COMMISSION)
    ensures r.Created? ==>
      (AmountsMatch(r.unit) <==> amount == if offered == [] then -(HEADER_COMMISSION + PAYLOAD_COMMISSION) else total)
  {
    var spend := total + HEADER_COMMISSION + PAYLOAD_COMMISSION;
    var chosen: seq<UTXO> := [];
    var toMyself, cur := 0, 0;
    n := 0;
    while |chosen| < |offered|
      invariant n == |chosen| <= |offered| && chosen == offered[..n] && cur == SumUnspent(chosen) && toMyself == 0
      invariant forall k :: 1 <= k <= n ==> SumUnspent(offered[..k]) < spend
    {
      var u := offered[|chosen|];
      cur := cur + u.output.amount;
      SumUnspentSnoc(chosen, u);
      chosen := chosen + [u];
      n := n + 1;
      assert offered[..n] == chosen;
      if cur >= spend {
        toMyself := cur - total - HEADER_COMMISSION - PAYLOAD_COMMISSION;
        break;
      }
    }
    if cur < total {
      return NotEnoughBalance, n;
    }
    if cur < spend {
      return NotEnoughCommission, n;
    }
    var inputs := CollectInputs(chosen);
    var outputs := [Output(to, amount)];
    SumOutputsAppend([], [Output(to, amount)]);
    if toMyself > 0 {
      SumOutputsAppend(outputs, [Output(from, toMyself)]);
      outputs := outputs + [Output(from, toMyself)];
    }
    var unit := base.(messages := [Message(inputs, outputs)],
                      payloadCommission := PAYLOAD_COMMISSION, headersCommission := HEADER_COMMISSION);
    return Created(unit), n;
  }

  method CollectInputs(chosen: seq<UTXO>) returns (inputs: seq<Input>)
    ensures inputs == AsInputs(chosen)
  {
    inputs := [];
    for i := 0 to |chosen|
      invariant inputs == AsInputs(chosen[..i])
    {
      var u := chosen[i];
      assert chosen[..i + 1] == chosen[..i] + [u];
      AsInputsSnoc(chosen[..i], u);
      inputs := inputs + [Input(u.unitHash, u.messageIndex, u.outputIndex, u.kind, u.output)];
    }
    assert chosen[..|chosen|] == chosen;
  }

  /** Asked for 50 and told to pay 60 out of 300, CreateTx returns a unit that fails the amount check. */
  method AmountsNeedNotMatch(base: Unit) returns (r: TxResult)
    ensures r.Created? && |r.unit.messages| == 1 && !AmountsMatch(r.unit)
    ensures r.unit.messages[0].outputs == [Output(2, 60), Output(1, 50)]
  {
    var u := UTXO(9, 0, 0, Output(1, 300), "");
    ghost var n;
    r, n := CreateTx(base, [u], 1, 2, 50, 60);
    assert [u][..1] == [u] && [u][..0] == [];
    assert SumUnspent([u]) == 300 + SumUnspent([]) by { assert [u][1..] == []; }
  }

  datatype Shape = Fine | Refused | IndexOutOfRange

  /** Accepts exactly the formed units.  The inner loop over the inputs of message i looks at input i each
      time, so a message with inputs, but not that many, ends in an index error. */
  method ValidUnitInputsAndOutputs(u: Unit) returns (r: Shape)
    ensures r == Fine <==> Formed(u)
    ensures r == Fine <==> |u.messages| > 0 && forall i :: 0 <= i < |u.messages| ==>
      && |u.messages[i].inputs| > i && u.messages[i].inputs[i].output.amount > 0
      && |u.messages[i].outputs| > 0 && forall o :: o in u.messages[i].outputs ==> o.amount > 0
    ensures r == IndexOutOfRange ==>
      exists i :: 0 <= i < |u.messages| && 0 < |u.messages[i].inputs| <= i
    ensures r == IndexOutOfRange <==> exists i :: FirstShort(u, i)
  {
    if |u.messages| <= 0 {
      return Refused;
    }
    for i := 0 to |u.messages|
      invariant forall k :: 0 <= k < i ==> FormedMessage(u.messages[k], k)
    {
      var m := u.messages[i];
      if |m.inputs| <= 0 {
        return Refused;
      }
      for j := 0 to |m.inputs|
        invariant j > 0 ==> i < |m.inputs| && m.inputs[i].output.amount > 0
      {
        if i >= |m.inputs| {
          assert FirstShort(u, i);
          return IndexOutOfRange;
        }
        if m.inputs[i].output.amount <= 0 {
          return Refused;
        }
      }
      if |m.outputs| <= 0 {
        return Refused;
      }
      for j := 0 to |m.outputs|
        invariant forall k :: 0 <= k < j ==> m.outputs[k].amount > 0
      {
        if m.outputs[j].amount <= 0 {
          assert m.outputs[j] in m.outputs;
          return Refused;
        }
      }
    }
    return Fine;
  }

  /** Message i is the first that is not well formed, and has too few inputs. */
  predicate FirstShort(u: Unit, i: nat) {
    && i < |u.messages| && 0 < |u.messages[i].inputs| <= i
    && forall k :: 0 <= k < i ==> FormedMessage(u.messages[k], k)
  }

  method ValidUTXOAmount(u: Unit) returns (ok: bool)
    requires |u.messages| > 0
    ensures ok <==> AmountsMatch(u)
    ensures var m := u.messages[0];
            ok <==> SumInputs(m.inputs) == SumOutputs(m.outputs) + u.payloadCommission + u.headersCommission
  {
    var xs, os := u.messages[0].inputs, u.messages[0].outputs;
    var paid := 0;
    for i := 0 to |xs|
      invariant paid == SumInputs(xs[..i])
    {
      SumInputsAppend(xs[..i], [xs[i]]);
      assert xs[..i + 1] == xs[..i] + [xs[i]];
      paid := paid + xs[i].output.amount;
    }
    var got := 0;
    for i := 0 to |os|
      invariant got == SumOutputs(os[..i])
    {
      SumOutputsAppend(os[..i], [os[i]]);
      assert os[..i + 1] == os[..i] + [os[i]];
      got := got + os[i].amount;
    }
    assert xs[..|xs|] == xs && os[..|os|] == os;
    got := got + u.payloadCommission + u.headersCommission;
    ok := paid == got;
  }

  method ValidAuthorAddress(u: Unit) returns (ok: bool)
    requires |u.messages| > 0
    ensures ok <==> Authored(u, 0)
    ensures ok <==> forall x :: x in u.messages[0].inputs ==> x.output.address == u.author
  {
    var xs := u.messages[0].inputs;
    for i := 0 to |xs|
      invariant forall j :: 0 <= j < i ==> xs[j].output.address == u.author
    {
      if xs[i].output.address != u.author {
        return false;
      }
    }
    return true;
  }

  /** The stable part of the store: the unspent outputs and the units. */
  class StableProcess {
    var unspent: Unspent
    var units: Units

    constructor (unspent: Unspent, units: Units)
      ensures this.unspent == unspent && this.units == units
    {
      this.unspent, this.units := unspent, units;
    }

    method SpendInputs(author: Address, xs: seq<Input>) returns (status: Status)
      modifies this`unspent
      ensures unspent == Spend(old(unspent), units, author, xs).left
      ensures status == Spend(old(unspent), units, author, xs).status
    {
      for j := 0 to |xs|
        invariant Spend(old(unspent), units, author, xs).left == Spend(unspent, units, author, xs[j..]).left
        invariant Spend(old(unspent), units, author, xs).status == Spend(unspent, units, author, xs[j..]).status
      {
        var x := xs[j];
        assert xs[j..][1..] == xs[j + 1..];
        var spent := ZERO_UTXO;
        if x.kind == "wc" || x.kind == "mc" {
          if x.unitHash !in units {
            return SourceMissing;
          }
          spent := UTXO(units[x.unitHash].hash, 0, 0, x.output, x.kind);
        } else if x.kind == "" {
          if x.unitHash !in units {
            return SourceMissing;
          }
          spent := UTXO(units[x.unitHash].hash, 0, x.outputIndex, x.output, "");
        }
        if (spent.output.address, spent) in unspent {
          unspent := unspent - {(author, spent)};
        } else {
          return DoubleSpent;
        }
      }
      return Valid;
    }

    /** The commissions of the outputs of message i. */
    method CollectOutputs(u: Unit, i: nat) returns (cs: seq<Commission>)
      requires i < |u.messages|
      ensures cs == OutputCommissions(u, i)
    {
      var outs := u.messages[i].outputs;
      cs := [];
      for z := 0 to |outs|
        invariant cs == OutputCommissions(u, i)[..z]
      {
        cs := cs + [Commission(outs[z].address, UTXO(u.hash, i, z, outs[z], ""))];
      }
    }

    method HandleUnit(u: Unit) returns (cs: seq<Commission>, status: Status)
      modifies this`unspent
      ensures var h := UnitOutcome(old(unspent), units, u);
              unspent == h.left && cs == h.commissions && status == h.status
    {
      cs := [];
      ghost var h0 := MessagesFrom(unspent, units, u, 0);
      for i := 0 to |u.messages|
        invariant var h := MessagesFrom(unspent, units, u, i);
                  h0.left == h.left && h0.status == h.status && h0.commissions == cs + h.commissions
      {
        status := SpendInputs(u.author, u.messages[i].inputs);
        if status != Valid {
          return;
        }
        var outs := CollectOutputs(u, i);
        cs := cs + outs;
      }
      var output := Output(u.subStableAuthor, u.headersCommission);
      cs := cs + [Commission(u.subStableAuthor, UTXO(u.hash, 0, 0, output, "mc"))];
      return cs, Valid;
    }

    method CalcWitnessEarnings(us: seq<Unit>) returns (cs: seq<Commission>)
      requires |us| > 0
      ensures cs == WitnessEarnings(us)
    {
      var last := us[|us| - 1];
      cs := [];
      for i := 0 to |us|
        invariant cs == WitnessEarnings(us)[..i]
      {
        var output := Output(last.author, us[i].payloadCommission);
        cs := cs + [Commission(last.author, UTXO(us[i].hash, 0, 0, output, "wc"))];
      }
    }

    /** Commissions are grouped by owner and saved group by group; every one ends up stored. */
    method DistributeCommission(all: seq<Commission>)
      modifies this`unspent
      ensures unspent == old(unspent) + Entries(all)
    {
      var groups: map<Address, seq<Commission>> := map[];
      for i := 0 to |all|
        invariant forall a, c :: a in groups && c in groups[a] ==> c in all[..i]
        invariant forall c :: c in all[..i] ==> c.address in groups && c in groups[c.address]
      {
        var com := all[i];
        var group := if com.address in groups then groups[com.address] else [];
        groups := groups[com.address := group + [com]];
        assert all[..i + 1] == all[..i] + [com];
      }
      assert all[..|all|] == all;
      var rest := groups.Keys;
      ghost var base := unspent;
      while rest != {}
        invariant rest <= groups.Keys
        invariant forall c :: c in all ==> c.address in rest || (c.address, c.utxo) in unspent
        invariant base <= unspent <= base + Entries(all)
        decreases rest
      {
        var a :| a in rest;
        var group := groups[a];
        unspent := unspent + Entries(group);
        rest := rest - {a};
      }
    }

    /** b0 is what has been gathered so far followed by b. */
    static ghost predicate Continues(b0: Batch, all: seq<Commission>, valid: seq<Unit>, b: Batch) {
      && b0.left == b.left && b0.aborted == b.aborted
      && b0.commissions == all + b.commissions && b0.valid == valid + b.valid
    }

    static lemma ContinuesStep(b0: Batch, all: seq<Commission>, valid: seq<Unit>, l: Unspent, db: Units, us: seq<Unit>)
      requires us != [] && Continues(b0, all, valid, BatchOutcome(l, db, us))
      ensures var h := UnitOutcome(l, db, us[0]);
              if h.status == SourceMissing then b0.left == h.left && b0.aborted
              else if h.status == Valid then
                Continues(b0, all + h.commissions, valid + [us[0]], BatchOutcome(h.left, db, us[1..]))
              else
                Continues(b0, all + h.commissions, valid,
                          BatchOutcome(h.left, db[us[0].hash := us[0].(invalid := true)], us[1..]))
    {
      var h := UnitOutcome(l, db, us[0]);
      if h.status != SourceMissing {
        var db' := if h.status == Valid then db else db[us[0].hash := us[0].(invalid := true)];
        var r := BatchOutcome(h.left, db', us[1..]);
        assert all + (h.commissions + r.commissions) == (all + h.commissions) + r.commissions;
        assert valid + ([us[0]] + r.valid) == (valid + [us[0]]) + r.valid;
        assert valid + ([] + r.valid) == valid + r.valid;
      }
    }

    method HandleEach(us: seq<Unit>) returns (all: seq<Commission>, valid: seq<Unit>, aborted: bool)
      modifies this
      ensures var b := BatchOutcome(old(unspent), old(units), us);
              && unspent == b.left && aborted == b.aborted
              && (!aborted ==> all == b.commissions && valid == b.valid)
      ensures units == MarkedBy(old(unspent), old(units), us)
    {
      all, valid := [], [];
      ghost var b0 := BatchOutcome(unspent, units, us);
      for i := 0 to |us|
        invariant Continues(b0, all, valid, BatchOutcome(unspent, units, us[i..]))
        invariant MarkedBy(old(unspent), old(units), us) == MarkedBy(unspent, units, us[i..])
      {
        ContinuesStep(b0, all, valid, unspent, units, us[i..]);
        assert us[i..][0] == us[i] && us[i..][1..] == us[i + 1..];
        var cs, status := HandleUnit(us[i]);
        if status == SourceMissing {
          return all, valid, true;
        }
        if status == Valid {
          valid := valid + [us[i]];
        } else {
          units := units[us[i].hash := us[i].(invalid := true)];
        }
        all := all + cs;
      }
      aborted := false;
    }

    /** A batch leaves the store exactly as its outcome says, so Conservation, BatchKeepsInv and
        NeverSpentTwice speak about it. */
    method HandleStableUnits(us: seq<Unit>)
      modifies this
      ensures unspent == AfterBatch(old(unspent), old(units), us)
      ensures units == MarkedBy(old(unspent), old(units), us)
    {
      var all, valid, aborted := HandleEach(us);
      if aborted {
        return;
      }
      if |valid| > 0 {
        var earnings := CalcWitnessEarnings(valid);
        all := all + earnings;
      } else {
        assert all + WitnessEarnings(valid) == all;
      }
      DistributeCommission(all);
    }
  }
}
