/** Chains of blocks replayed from genesis, what they can total, and the checks made while connecting one. */
module LedgerChain {
  import opened Base
  import opened Coins
  import opened Ledger
  import opened LedgerBlock
  import opened LedgerValue
  import opened LedgerRules

  // ---------- replaying a chain ----------

  /** Each block connects on top of the ones before it; the first is at height 1, above genesis. */
  ghost predicate ChainConnects(chain: seq<Block>)
    decreases |chain|, 0
  {
    chain == [] ||
    var k := |chain| - 1;
    ChainConnects(chain[..k]) && BlockConnects(Replay(chain[..k]), chain[k], |chain|)
  }

  ghost function Replay(chain: seq<Block>): View
    requires ChainConnects(chain)
    decreases |chain|, 1
  {
    if chain == [] then map[]
    else ConnectAll(Replay(chain[..|chain| - 1]), chain[|chain| - 1].txs, |chain|)
  }

  /** After any chain of connected blocks the total is at most the sum of the subsidies, hence within the limit. */
  lemma {:induction false} TotalWithinSubsidies(chain: seq<Block>)
    requires ChainConnects(chain)
    ensures LedgerOk(Replay(chain)) && ValuesOk(Replay(chain))
    ensures 0 <= Total(Replay(chain)) <= SubsidySum(|chain|) <= MAX_MONEY
    decreases |chain|
  {
    hide BlockConnects, LedgerOk, ValuesOk, Total, Connects, ConnectAll;
    if chain == [] {
      EmptyLedger();
    } else {
      var k := |chain| - 1;
      TotalWithinSubsidies(chain[..k]);
      BlockAddsAtMostSubsidy(Replay(chain[..k]), chain[k], |chain|);
    }
    TotalNonneg(Replay(chain));
    SubsidySumBelowLimit(|chain|);
  }

  lemma EmptyLedger()
    ensures LedgerOk(map[]) && ValuesOk(map[]) && Total(map[]) == 0
  {
  }

  lemma {:induction false} FeesNonneg(m: View, txs: seq<Tx>, height: int)
    requires TxsAccepted(m, txs, height) && AllHaveInputs(m, txs, height)
    ensures Fees(m, txs, height) >= 0
    decreases |txs|
  {
    hide Connects, ConnectAll, ConnectTx, Spendable, HaveInputs;
    if txs != [] {
      FeesNonneg(m, txs[..|txs| - 1], height);
    }
  }

  lemma {:induction false} ValueInNonneg(m: View, outs: seq<OutPoint>)
    requires ValuesOk(m) && HaveInputs(m, outs)
    ensures 0 <= ValueIn(m, outs)
    decreases |outs|
  {
    if outs != [] {
      var k := |outs| - 1;
      ValueInNonneg(m, outs[..k]);
      assert Available(m, outs[k]);
    }
  }

  lemma TxOkSum(tx: Tx)
    requires TxOk(tx)
    ensures 0 <= SumOuts(tx.vout) <= MAX_MONEY
  {
    SumOutsNonneg(tx.vout);
  }

  lemma SubsidyRange(height: nat)
    ensures 0 <= Subsidy(height) <= START_SUBSIDY
  {
  }

  lemma ValueInWithinTotal(m: View, tx: Tx)
    requires LedgerOk(m) && ValuesOk(m) && TxOk(tx) && HaveInputs(m, tx.Spends())
    ensures 0 <= ValueIn(m, tx.Spends()) <= Total(m)
  {
    hide ValueIn, Total, LedgerOk, ValuesOk, TxOk, HaveInputs, NoDup, Spendable;
    TxOkOuts(tx);
    DistinctInputsSpendable(m, tx.Spends());
    SpendAllValues(m, tx.Spends());
    TotalNonneg(SpendAll(m, tx.Spends()));
    ValueInNonneg(m, tx.Spends());
  }

  lemma FeesWithinTotal(m: View, txs: seq<Tx>, height: int)
    requires LedgerOk(m) && ValuesOk(m) && height != 0
    requires forall i :: 0 <= i < |txs| ==> TxOk(txs[i]) && (txs[i].IsCoinBase() <==> i == 0)
    requires TxsAccepted(m, txs, height) && AllHaveInputs(m, txs, height)
    ensures Total(ConnectAll(m, txs, height)) + Fees(m, txs, height) <= Total(m) + MAX_MONEY
    ensures 0 <= Fees(m, txs, height) && 0 <= Total(ConnectAll(m, txs, height))
  {
    hide ConnectAll, Fees, AllHaveInputs, Total, LedgerOk, ValuesOk, TxOk, SumOuts;
    AcceptedConnects(m, txs, height);
    hide TxsAccepted, Connects;
    TotalPlusFees(m, txs, height);
    ConnectAllValues(m, txs, height);
    TotalNonneg(ConnectAll(m, txs, height));
    FeesNonneg(m, txs, height);
    if txs != [] {
      TxOkSum(txs[0]);
    }
  }

  /** All sums formed while connecting the next transaction fit in 64 bits, also the fee sum that is taken
      before its inputs have been checked. */
  lemma SumsFit(m: View, txs: seq<Tx>, k: nat, height: nat)
    requires LedgerOk(m) && ValuesOk(m) && Total(m) <= MAX_MONEY && height > 0 && k < |txs|
    requires forall i :: 0 <= i < |txs| ==> TxOk(txs[i]) && (txs[i].IsCoinBase() <==> i == 0)
    requires TxsAccepted(m, txs[..k], height) && AllHaveInputs(m, txs[..k], height)
    requires HaveInputs(ConnectAll(m, txs[..k], height), txs[k].Spends())
    ensures var m1 := ConnectAll(m, txs[..k], height);
      && 0 <= ValueIn(m1, txs[k].Spends()) && InInt64(ValueIn(m1, txs[k].Spends()))
      && InInt64(Fees(m, txs[..k], height) + ValueIn(m1, txs[k].Spends()) - SumOuts(txs[k].vout))
      && 0 <= Fees(m, txs[..k], height) && InInt64(Subsidy(height) + Fees(m, txs[..k], height))
  {
    hide Connects, ConnectAll, Fees, AllHaveInputs, ConnectTx, Spendable, Total, LedgerOk, ValuesOk, TxOk, HaveInputs, ValueIn, SumOuts, Subsidy;
    var m1 := ConnectAll(m, txs[..k], height);
    ConnectAllValues(m, txs[..k], height);
    ValueInWithinTotal(m1, txs[k]);
    FeesWithinTotal(m, txs[..k], height);
    SubsidyRange(height);
    TxOkSum(txs[k]);
  }

  // ---------- checking ----------

  method CheckTransaction(tx: Tx) returns (ok: bool)
    ensures ok <==> TxOk(tx)
  {
    if tx.vin == [] || tx.vout == [] {
      return false;
    }
    var total := 0;
    var i := 0;
    while i < |tx.vout|
      invariant 0 <= i <= |tx.vout|
      invariant forall j :: 0 <= j < i ==> MoneyRange(tx.vout[j].value)
      invariant total == SumOuts(tx.vout[..i]) && MoneyRange(total)
    {
      SumPrefix(tx.vout, i);
      if tx.vout[i].value < 0 || tx.vout[i].value > MAX_MONEY {
        return false;
      }
      total := total + tx.vout[i].value;
      assert InInt64(total);
      if !MoneyRange(total) {
        SumOverLimit(tx.vout, i + 1);
        return false;
      }
      i := i + 1;
    }
    assert tx.vout[..|tx.vout|] == tx.vout;
    var seen: set<OutPoint> := {};
    i := 0;
    while i < |tx.vin|
      invariant 0 <= i <= |tx.vin|
      invariant seen == set j | 0 <= j < i :: tx.vin[j]
      invariant forall j, k :: 0 <= j < k < i ==> tx.vin[j] != tx.vin[k]
    {
      if tx.vin[i] in seen {
        var j :| 0 <= j < i && tx.vin[j] == tx.vin[i];
        return false;
      }
      seen := seen + {tx.vin[i]};
      i := i + 1;
    }
    ok := tx.IsCoinBase() || NULL_OUTPOINT !in tx.vin;
  }

  lemma SumPrefix(vout: seq<TxOut>, i: nat)
    requires i < |vout|
    ensures SumOuts(vout[..i + 1]) == SumOuts(vout[..i]) + OutValue(vout[i])
  {
    assert vout[..i + 1][..i] == vout[..i];
  }

  /** Values in range make later prefix sums no smaller, so one that is too large condemns the whole. */
  lemma {:induction false} SumOverLimit(vout: seq<TxOut>, i: nat)
    requires i <= |vout| && SumOuts(vout[..i]) > MAX_MONEY
    ensures !((forall j :: 0 <= j < |vout| ==> MoneyRange(vout[j].value)) && SumOuts(vout) <= MAX_MONEY)
    decreases |vout| - i
  {
    if i < |vout| {
      SumPrefix(vout, i);
      if MoneyRange(vout[i].value) {
        SumOverLimit(vout, i + 1);
      }
    } else {
      assert vout[..i] == vout;
    }
  }

  lemma {:induction false} ValueInOverLimit(m: View, outs: seq<OutPoint>, i: nat)
    requires ValuesOk(m) && HaveInputs(m, outs) && i <= |outs| && ValueIn(m, outs[..i]) > MAX_MONEY
    ensures ValueIn(m, outs) > MAX_MONEY
    decreases |outs| - i
  {
    if i < |outs| {
      assert outs[..i + 1][..i] == outs[..i];
      assert Available(m, outs[i]);
      ValueInOverLimit(m, outs, i + 1);
    } else {
      assert outs[..i] == outs;
    }
  }

  lemma UndosMisfit(txs: seq<Tx>, us: seq<seq<InUndo>>, i: nat)
    requires |us| == |txs| && i < |txs| && |us[i]| != |SpendsAt(txs, i)|
    ensures !UndosFit(txs, us)
  {
  }

  lemma UndosAllFit(txs: seq<Tx>, us: seq<seq<InUndo>>)
    requires |us| == |txs| && forall k :: 0 <= k < |txs| ==> |us[k]| == |SpendsAt(txs, k)|
    ensures UndosFit(txs, us)
  {
  }

  lemma DisconnectNone(m: View, height: int)
    ensures DisconnectAll(m, [], [], height) == (m, true)
  {
  }

  lemma DisconnectPeel(m: View, txs: seq<Tx>, us: seq<seq<InUndo>>, i: nat, height: int)
    requires UndosFit(txs, us) && i < |txs|
    ensures UndosFit(txs[..i + 1], us[..i + 1]) && UndosFit(txs[..i], us[..i]) && |us[i]| == |SpendsAt(txs, i)|
    ensures var (m1, c1) := DisconnectTx(m, txs[i], SpendsAt(txs, i), us[i], height);
      var (m2, c2) := DisconnectAll(m1, txs[..i], us[..i], height);
      DisconnectAll(m, txs[..i + 1], us[..i + 1], height) == (m2, c1 && c2)
  {
    hide DisconnectTx;
    UndosFitPrefix(txs, us, i);
    UndosFitPrefix(txs, us, i + 1);
    assert txs[..i + 1][..i] == txs[..i] && us[..i + 1][..i] == us[..i];
    assert SpendsAt(txs[..i + 1], i) == SpendsAt(txs, i);
  }

  method CheckBlock(b: Block) returns (ok: bool)
    ensures ok <==> Shaped(b.txs) && forall i :: 0 <= i < |b.txs| ==> TxOk(b.txs[i])
  {
    hide TxOk;
    if b.txs == [] || !b.txs[0].IsCoinBase() {
      return false;
    }
    var i := 1;
    while i < |b.txs|
      invariant 1 <= i <= |b.txs|
      invariant forall j :: 1 <= j < i ==> !b.txs[j].IsCoinBase()
    {
      if b.txs[i].IsCoinBase() {
        return false;
      }
      i := i + 1;
    }
    i := 0;
    while i < |b.txs|
      invariant 0 <= i <= |b.txs| && forall j :: 0 <= j < i ==> TxOk(b.txs[j])
    {
      var good := CheckTransaction(b.txs[i]);
      if !good {
        return false;
      }
      i := i + 1;
    }
    ok := true;
  }

  lemma AcceptedConnects(m: View, txs: seq<Tx>, height: int)
    requires TxsAccepted(m, txs, height)
    ensures Connects(m, txs, height)
  {
  }

  lemma AcceptedNone(m: View, height: int)
    ensures TxsAccepted(m, [], height) && Connects(m, [], height) && ConnectAll(m, [], height) == m
    ensures AllHaveInputs(m, [], height) && Fees(m, [], height) == 0 && BlockUndos(m, [], height) == []
  {
  }

  /** One more transaction with good inputs extends everything by one. */
  lemma AcceptNext(m: View, txs: seq<Tx>, i: nat, height: int)
    requires i < |txs| && TxsAccepted(m, txs[..i], height) && AllHaveInputs(m, txs[..i], height)
    requires TxOk(txs[i]) && LedgerOk(ConnectAll(m, txs[..i], height))
    requires InputsOk(ConnectAll(m, txs[..i], height), txs[i], height)
    ensures TxsAccepted(m, txs[..i + 1], height) && AllHaveInputs(m, txs[..i + 1], height)
    ensures var m1 := ConnectAll(m, txs[..i], height);
      && Spendable(m1, txs[i].Spends())
      && ConnectAll(m, txs[..i + 1], height) == ConnectTx(m1, txs[i], height)
      && BlockUndos(m, txs[..i + 1], height) == BlockUndos(m, txs[..i], height) + [UndosOf(m1, txs[i].Spends())]
      && Fees(m, txs[..i + 1], height) ==
         Fees(m, txs[..i], height) + (if txs[i].IsCoinBase() then 0 else ValueIn(m1, txs[i].Spends()) - SumOuts(txs[i].vout))
  {
    hide LedgerOk, TxOk, Spendable, ConnectTx, SumOuts, ValueIn, HaveInputs;
    assert txs[..i + 1][..i] == txs[..i] && txs[..i + 1][i] == txs[i];
    TxOkOuts(txs[i]);
    DistinctInputsSpendable(ConnectAll(m, txs[..i], height), txs[i].Spends());
  }

  lemma {:induction false} AcceptedPrefix(m: View, txs: seq<Tx>, i: nat, height: int)
    requires TxsAccepted(m, txs, height) && i <= |txs|
    ensures TxsAccepted(m, txs[..i], height)
    decreases |txs|
  {
    hide Connects, InputsOk, ConnectAll;
    if i < |txs| {
      var k := |txs| - 1;
      AcceptedPrefix(m, txs[..k], i, height);
      assert txs[..k][..i] == txs[..i];
    } else {
      assert txs[..i] == txs;
    }
  }

  lemma NotAccepted(m: View, txs: seq<Tx>, i: nat, height: int)
    requires i < |txs| && Connects(m, txs[..i], height)
    requires !HaveInputs(ConnectAll(m, txs[..i], height), txs[i].Spends()) || !InputsOk(ConnectAll(m, txs[..i], height), txs[i], height)
    ensures !TxsAccepted(m, txs, height)
  {
    hide Connects, ConnectAll, HaveInputs;
    assert txs[..i + 1][..i] == txs[..i] && txs[..i + 1][i] == txs[i];
    if TxsAccepted(m, txs, height) {
      AcceptedPrefix(m, txs, i + 1, height);
    }
  }

  lemma {:induction false} CoinbaseUndo(m: View, txs: seq<Tx>, height: int)
    requires Connects(m, txs, height) && Shaped(txs)
    ensures BlockUndos(m, txs, height) == [[]] + BlockUndos(m, txs, height)[1..]
  {
    hide BlockUndos, Connects;
    BlockUndosSize(m, txs, height, 0);
  }
}
