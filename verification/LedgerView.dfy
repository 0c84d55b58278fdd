/** Connecting and disconnecting blocks on a stack of caches of unspent outputs, as the code does: every
    record is read, modified and written back through the top cache. */
module LedgerView {
  import opened Base
  import opened Coins
  import opened Ledger
  import opened LedgerBlock
  import opened LedgerValue
  import opened LedgerRules
  import opened LedgerChain
  import CoinsCache

  /** Only the top of the stack may say something else. */
  predicate SameBelow(a: seq<View>, b: seq<View>) {
    |a| == |b| > 0 && a[..|a| - 1] == b[..|b| - 1]
  }

  lemma ValueInNext(m: View, outs: seq<OutPoint>, i: nat)
    requires HaveInputs(m, outs) && i < |outs|
    ensures Available(m, outs[i]) && HaveInputs(m, outs[..i]) && HaveInputs(m, outs[..i + 1])
    ensures ValueIn(m, outs[..i + 1]) == ValueIn(m, outs[..i]) + ValueAt(m, outs[i])
  {
    assert outs[..i + 1][..i] == outs[..i];
  }

  lemma AvailableInRange(m: View, o: OutPoint)
    requires ValuesOk(m) && Available(m, o)
    ensures MoneyRange(Get(m, o.hash).vout[o.n].value)
  {
  }

  lemma NoInputs(m: View)
    ensures HaveInputs(m, []) && ValueIn(m, []) == 0
  {
  }

  /** What a pruned record last held does not matter to the comparison with the outputs a block created. */
  lemma PrunedMatchAlike(a: Coins, b: Coins, expected: Coins)
    requires a == b || (a.vout == [] && b.vout == [])
    ensures forall v :: SameCoins(a.(vout := Trim(ClearedOuts(a.vout)), version := v), expected) ==
                        SameCoins(b.(vout := Trim(ClearedOuts(b.vout)), version := v), expected)
    ensures SameCoins(a.(vout := Trim(ClearedOuts(a.vout))), expected) == SameCoins(b.(vout := Trim(ClearedOuts(b.vout))), expected)
  {
  }

  class CoinsView {
    const cache: CoinsCache.CoinsStack

    ghost predicate Valid()
      reads this, cache
    {
      cache.Valid() && cache.modifying == None && cache.layers != [] && |cache.views| == |cache.layers| + 1
    }

    /** The unspent outputs the top cache stands for. */
    ghost function Map(): View
      requires |cache.views| > 0
      reads this, cache
    {
      cache.Top()
    }

    constructor (cache: CoinsCache.CoinsStack)
      requires cache.Valid() && cache.modifying == None && cache.layers != []
      ensures this.cache == cache && Valid()
    {
      this.cache := cache;
    }

    // ---------- reading ----------

    method HaveCoins(t: Txid) returns (have: bool)
      requires Valid()
      modifies cache`layers
      ensures Valid() && (have <==> t in Map())
    {
      var coins := cache.AccessCoins(t);
      have := coins.Some? && !coins.value.IsPruned();
    }

    method HaveOutput(o: OutPoint) returns (have: bool)
      requires Valid()
      modifies cache`layers
      ensures Valid() && (have <==> Available(Map(), o))
    {
      var coins := cache.AccessCoins(o.hash);
      have := coins.Some? && coins.value.IsAvailable(o.n);
    }

    method GetCoins(o: OutPoint) returns (c: Coins)
      requires Valid() && Available(Map(), o)
      modifies cache`layers
      ensures Valid() && c == Get(Map(), o.hash)
    {
      var coins := cache.AccessCoins(o.hash);
      c := coins.value;
    }

    method CheckHaveInputs(outs: seq<OutPoint>) returns (ok: bool)
      requires Valid()
      modifies cache`layers
      ensures Valid() && (ok <==> HaveInputs(Map(), outs))
    {
      hide Available, CoinsCache.CoinsStack.Valid;
      var i := 0;
      while i < |outs|
        invariant Valid() && cache.views == old(cache.views)
        invariant 0 <= i <= |outs| && forall j :: 0 <= j < i ==> Available(Map(), outs[j])
      {
        var have := HaveOutput(outs[i]);
        if !have {
          return false;
        }
        i := i + 1;
      }
      ok := true;
    }

    method GetValueIn(outs: seq<OutPoint>) returns (v: int)
      requires Valid() && HaveInputs(Map(), outs)
      modifies cache`layers
      ensures Valid() && v == ValueIn(Map(), outs)
    {
      hide HaveInputs, ValueIn, CoinsCache.CoinsStack.Valid;
      v := 0;
      var i := 0;
      NoInputs(Map());
      assert outs[..0] == [];
      while i < |outs|
        invariant Valid() && cache.views == old(cache.views)
        invariant 0 <= i <= |outs| && HaveInputs(Map(), outs[..i]) && v == ValueIn(Map(), outs[..i])
      {
        ValueInNext(Map(), outs, i);
        var c := GetCoins(outs[i]);
        v := v + c.vout[outs[i].n].value;
        i := i + 1;
      }
      assert outs[..|outs|] == outs;
    }

    /** The rules on inputs, decided record by record; the running sum may not leave the money range. */
    method CheckInputs(tx: Tx, height: int) returns (ok: bool)
      requires Valid() && ValuesOk(Map()) && TxOk(tx)
      modifies cache`layers
      ensures Valid() && (ok <==> InputsOk(Map(), tx, height))
    {
      hide HaveInputs, ValueIn, ValuesOk, TxOk, SumOuts, CoinsCache.CoinsStack.Valid;
      CoinbaseSpendsNothing(Map(), tx);
      if tx.IsCoinBase() {
        return true;
      }
      var have := CheckHaveInputs(tx.vin);
      if !have {
        return false;
      }
      var valueIn := 0;
      var i := 0;
      NoInputs(Map());
      assert tx.vin[..0] == [];
      while i < |tx.vin|
        invariant Valid() && cache.views == old(cache.views)
        invariant 0 <= i <= |tx.vin| && Mature(Map(), tx.vin[..i], height)
        invariant HaveInputs(Map(), tx.vin[..i]) && valueIn == ValueIn(Map(), tx.vin[..i]) && MoneyRange(valueIn)
      {
        ValueInNext(Map(), tx.vin, i);
        AvailableInRange(Map(), tx.vin[i]);
        var c := GetCoins(tx.vin[i]);
        if c.coinbase && height - c.height < COINBASE_MATURITY {
          return false;
        }
        valueIn := valueIn + c.vout[tx.vin[i].n].value;
        assert InInt64(valueIn);
        if !MoneyRange(c.vout[tx.vin[i].n].value) || !MoneyRange(valueIn) {
          ValueInOverLimit(Map(), tx.vin, i + 1);
          return false;
        }
        i := i + 1;
      }
      assert tx.vin[..|tx.vin|] == tx.vin;
      TxOkSum(tx);
      var valueOut := SumOuts(tx.vout);
      if valueIn < valueOut {
        return false;
      }
      ok := MoneyRange(valueIn - valueOut);
    }

    /** BIP 30: none of the block's transactions is known with unspent outputs. */
    method CheckNoneKnown(txs: seq<Tx>) returns (ok: bool)
      requires Valid()
      modifies cache`layers
      ensures Valid() && (ok <==> NoneKnown(Map(), txs))
    {
      hide CoinsCache.CoinsStack.Valid;
      var i := 0;
      while i < |txs|
        invariant Valid() && cache.views == old(cache.views)
        invariant 0 <= i <= |txs| && forall j :: 0 <= j < i ==> txs[j].txid !in Map()
      {
        var have := HaveCoins(txs[i].txid);
        if have {
          return false;
        }
        i := i + 1;
      }
      ok := true;
    }

    // ---------- applying ----------

    method SpendInput(o: OutPoint) returns (u: InUndo)
      requires Valid() && Available(Map(), o)
      modifies cache
      ensures Valid() && SameBelow(old(cache.views), cache.views)
      ensures Map() == SpendOne(old(Map()), o) && u == UndoOf(old(Map()), o)
    {
      hide Trim, CoinsCache.CoinsStack.Valid;
      var coins := Modify(o.hash);
      u := InUndo(coins.vout[o.n], false, 0, 0);
      coins := Spent(coins, o.n);
      if |coins.vout| == 0 {
        u := u.(coinbase := coins.coinbase, height := coins.height, version := coins.version);
      }
      Release(coins);
    }

    /** Opens a record for modification: the one there is, or a pruned one with whatever metadata it last had. */
    method Modify(t: Txid) returns (c: Coins)
      requires Valid()
      modifies cache`layers, cache`modifying
      ensures Modifying(t)
      ensures if t in Map() then c == Map()[t] && !c.IsPruned() else c.IsPruned() && c.vout == []
    {
      c := cache.ModifyCoins(t);
    }

    ghost predicate Modifying(t: Txid)
      reads this, cache
    {
      cache.Valid() && cache.modifying == Some(t) && cache.layers != [] && |cache.views| == |cache.layers| + 1
    }

    /** Writes the opened record back. */
    method Release(c: Coins)
      requires cache.modifying.Some? && Modifying(cache.modifying.value)
      modifies cache
      ensures Valid() && SameBelow(old(cache.views), cache.views)
      ensures Map() == Put(old(Map()), old(cache.modifying.value), c)
    {
      cache.ReleaseModifier(c);
    }

    /** Spends the inputs of tx one by one, noting how to undo it, and adds its outputs. */
    method UpdateCoins(tx: Tx, height: int) returns (undo: seq<InUndo>)
      requires Valid() && Spendable(Map(), tx.Spends())
      modifies cache
      ensures Valid() && SameBelow(old(cache.views), cache.views)
      ensures Map() == ConnectTx(old(Map()), tx, height) && undo == UndosOf(old(Map()), tx.Spends())
    {
      hide Spendable, SpendAll, UndosOf, FromTx, Put, CoinsCache.CoinsStack.Valid;
      undo := SpendInputs(tx.Spends());
      var _ := Modify(tx.txid);
      Release(FromTx(tx, height));
    }

    method SpendInputs(outs: seq<OutPoint>) returns (undo: seq<InUndo>)
      requires Valid() && Spendable(Map(), outs)
      modifies cache
      ensures Valid() && SameBelow(old(cache.views), cache.views)
      ensures Map() == SpendAll(old(Map()), outs) && undo == UndosOf(old(Map()), outs)
    {
      hide SpendOne, UndoOf, Available, CoinsCache.CoinsStack.Valid;
      undo := [];
      ghost var m := Map();
      var i := 0;
      assert outs[0..] == outs;
      while i < |outs|
        invariant 0 <= i <= |outs| && Valid() && SameBelow(old(cache.views), cache.views)
        invariant Spendable(Map(), outs[i..])
        invariant SpendAll(Map(), outs[i..]) == SpendAll(m, outs)
        invariant undo + UndosOf(Map(), outs[i..]) == UndosOf(m, outs)
      {
        assert outs[i..][0] == outs[i] && outs[i..][1..] == outs[i + 1..];
        var u := SpendInput(outs[i]);
        undo := undo + [u];
        i := i + 1;
      }
    }

    // ---------- undoing ----------

    /** Puts one spent output back. The verdict is exact, and so is the map if it is clean; otherwise the
        record may carry what an older, pruned one left behind in the cache. */
    method ApplyTxInUndo(u: InUndo, o: OutPoint) returns (clean: bool)
      requires Valid()
      modifies cache
      ensures Valid() && SameBelow(old(cache.views), cache.views)
      ensures clean == UndoOne(old(Map()), u, o).1
      ensures clean ==> Map() == UndoOne(old(Map()), u, o).0
    {
      hide Padded, Put, CoinsCache.CoinsStack.Valid;
      clean := true;
      ghost var m := Map();
      var coins := Modify(o.hash);
      assert coins.IsPruned() == Get(m, o.hash).IsPruned() && (!coins.IsPruned() ==> coins == Get(m, o.hash));
      if u.height != 0 {
        if !coins.IsPruned() { clean := false; }
        coins := Coins(u.coinbase, [], u.height, u.version);
      } else {
        if coins.IsPruned() { clean := false; }
      }
      if coins.IsAvailable(o.n) { clean := false; }
      var vout := Padded(coins.vout, o.n + 1);
      Release(coins.(vout := vout[o.n := u.txout]));
    }

    /** Puts spent outputs back, last first. */
    method UndoInputs(spends: seq<OutPoint>, us: seq<InUndo>) returns (clean: bool)
      requires Valid() && |us| == |spends|
      modifies cache
      ensures Valid() && SameBelow(old(cache.views), cache.views)
      ensures clean == UndoAll(old(Map()), us, spends).1
      ensures clean ==> Map() == UndoAll(old(Map()), us, spends).0
    {
      hide UndoOne, CoinsCache.CoinsStack.Valid;
      clean := true;
      var j := |spends|;
      ghost var m := Map();
      assert us[..j] == us && spends[..j] == spends;
      while j > 0
        invariant 0 <= j <= |spends| && Valid() && SameBelow(old(cache.views), cache.views)
        invariant clean ==> UndoAll(m, us, spends) == UndoAll(Map(), us[..j], spends[..j])
        invariant !clean ==> !UndoAll(m, us, spends).1
      {
        j := j - 1;
        assert us[..j + 1][..j] == us[..j] && spends[..j + 1][..j] == spends[..j];
        var ok := ApplyTxInUndo(us[j], spends[j]);
        if !ok { clean := false; }
      }
    }

    /** Undoes one transaction: checks and removes its outputs, then puts its inputs back. */
    method UndoTransaction(tx: Tx, spends: seq<OutPoint>, us: seq<InUndo>, height: int) returns (clean: bool)
      requires Valid() && |us| == |spends|
      modifies cache
      ensures Valid() && SameBelow(old(cache.views), cache.views)
      ensures clean == DisconnectTx(old(Map()), tx, spends, us, height).1
      ensures clean ==> Map() == DisconnectTx(old(Map()), tx, spends, us, height).0
    {
      hide UndoAll, FromTx, SameCoins, Trim, ClearedOuts, CoinsCache.CoinsStack.Valid;
      ghost var m := Map();
      var outs := Modify(tx.txid);
      PrunedMatchAlike(outs, Get(m, tx.txid), FromTx(tx, height));
      outs := outs.(vout := Trim(ClearedOuts(outs.vout)));
      var expected := FromTx(tx, height);
      if expected.version < 0 {
        outs := outs.(version := expected.version);
      }
      clean := SameCoins(outs, expected);
      Release(EMPTY_COINS);
      assert Map() == m - {tx.txid};
      var ok := UndoInputs(spends, us);
      clean := clean && ok;
    }

    /** Undoes a block's transactions in reverse order; fails if the undo data does not fit the block. */
    method DisconnectBlock(txs: seq<Tx>, vtxundo: seq<seq<InUndo>>, height: int) returns (clean: Option<bool>)
      requires Valid() && txs != []
      modifies cache
      ensures Valid() && SameBelow(old(cache.views), cache.views)
      ensures clean.Some? <==> UndosFit(txs, [[]] + vtxundo)
      ensures clean.Some? ==> clean.value == DisconnectAll(old(Map()), txs, [[]] + vtxundo, height).1
      ensures clean == Some(true) ==> Map() == DisconnectAll(old(Map()), txs, [[]] + vtxundo, height).0
    {
      hide DisconnectAll, CoinsCache.CoinsStack.Valid;
      if |vtxundo| + 1 != |txs| {
        assert |[[]] + vtxundo| != |txs|;
        return None;
      }
      clean := UndoTransactions(txs, [[]] + vtxundo, height);
    }

    method UndoTransactions(txs: seq<Tx>, us: seq<seq<InUndo>>, height: int) returns (clean: Option<bool>)
      requires Valid() && |us| == |txs|
      modifies cache
      ensures Valid() && SameBelow(old(cache.views), cache.views)
      ensures clean.Some? <==> UndosFit(txs, us)
      ensures clean.Some? ==> clean.value == DisconnectAll(old(Map()), txs, us, height).1
      ensures clean == Some(true) ==> Map() == DisconnectAll(old(Map()), txs, us, height).0
    {
      hide DisconnectTx, DisconnectAll, UndosFit, CoinsCache.CoinsStack.Valid;
      ghost var fits := UndosFit(txs, us);
      ghost var m := Map();
      var c := true;
      var i := |txs|;
      assert txs[..i] == txs && us[..i] == us;
      while i > 0
        invariant 0 <= i <= |txs| && Valid() && SameBelow(old(cache.views), cache.views)
        invariant forall k :: i <= k < |txs| ==> |us[k]| == |SpendsAt(txs, k)|
        invariant fits ==> UndosFit(txs[..i], us[..i])
        invariant fits && c ==> DisconnectAll(m, txs, us, height) == DisconnectAll(Map(), txs[..i], us[..i], height)
        invariant fits && !c ==> !DisconnectAll(m, txs, us, height).1
      {
        i := i - 1;
        var spends := SpendsAt(txs, i);
        if |us[i]| != |spends| {
          UndosMisfit(txs, us, i);
          return None;
        }
        if fits {
          DisconnectPeel(Map(), txs, us, i, height);
        }
        var ok := UndoTransaction(txs[i], spends, us[i], height);
        c := c && ok;
      }
      DisconnectNone(Map(), height);
      UndosAllFit(txs, us);
      assert txs[..0] == [] && us[..0] == [];
      clean := Some(c);
    }

    // ---------- connecting a block ----------

    /** Checks a block and applies it; what is returned is the undo data of all transactions but the coinbase. */
    method ConnectBlock(b: Block, height: nat) returns (vtxundo: Option<seq<seq<InUndo>>>)
      requires Valid() && LedgerOk(Map()) && ValuesOk(Map()) && Total(Map()) <= MAX_MONEY && height > 0
      modifies cache
      ensures Valid() && SameBelow(old(cache.views), cache.views)
      ensures vtxundo.Some? <==> BlockConnects(old(Map()), b, height)
      ensures vtxundo.Some? ==> Connects(old(Map()), b.txs, height) && Map() == ConnectAll(old(Map()), b.txs, height)
      ensures vtxundo.Some? ==> [[]] + vtxundo.value == BlockUndos(old(Map()), b.txs, height)
    {
      hide Connects, ConnectAll, LedgerOk, ValuesOk, TxOk, BlockUndos, Total, Fees, AllHaveInputs, TxsAccepted, SumOuts, NoneKnown,
        CoinsCache.CoinsStack.Valid;
      ghost var m := Map();
      var shaped := CheckBlock(b);
      if !shaped {
        return None;
      }
      if b.time > BIP30_SWITCH_TIME {
        var unknown := CheckNoneKnown(b.txs);
        if !unknown {
          return None;
        }
      }
      var fees, undos := ConnectTransactions(b.txs, height);
      if fees.None? {
        return None;
      }
      AcceptedHaveInputs(m, b.txs, height);
      if SumOuts(b.txs[0].vout) > Subsidy(height) + fees.value || !b.otherwiseOk {
        return None;
      }
      vtxundo := Some(undos[1..]);
      CoinbaseUndo(m, b.txs, height);
    }

    /** One round of the transaction loop: inputs present, fee added, inputs checked, outputs updated. */
    method ConnectNext(txs: seq<Tx>, i: nat, height: nat, sum: int, ghost m: View)
      returns (ok: bool, sum': int, undo: seq<InUndo>)
      requires LedgerOk(m) && ValuesOk(m) && Total(m) <= MAX_MONEY && height > 0 && i < |txs|
      requires forall j :: 0 <= j < |txs| ==> TxOk(txs[j]) && (txs[j].IsCoinBase() <==> j == 0)
      requires TxsAccepted(m, txs[..i], height) && Connects(m, txs[..i], height)
      requires Valid() && Map() == ConnectAll(m, txs[..i], height)
      requires AllHaveInputs(m, txs[..i], height) && sum == Fees(m, txs[..i], height)
      modifies cache
      ensures Valid() && SameBelow(old(cache.views), cache.views)
      ensures !ok ==> !TxsAccepted(m, txs, height)
      ensures ok ==>
                && TxsAccepted(m, txs[..i + 1], height) && Connects(m, txs[..i + 1], height)
                && Map() == ConnectAll(m, txs[..i + 1], height)
                && AllHaveInputs(m, txs[..i + 1], height) && sum' == Fees(m, txs[..i + 1], height)
                && BlockUndos(m, txs[..i + 1], height) == BlockUndos(m, txs[..i], height) + [undo]
    {
      hide Connects, ConnectAll, LedgerOk, ValuesOk, TxOk, BlockUndos, Total, Fees, AllHaveInputs, TxsAccepted, SumOuts, InputsOk,
        Spendable, HaveInputs, ConnectTx, UndosOf, ValueIn, CoinsCache.CoinsStack.Valid;
      var tx := txs[i];
      sum', undo := sum, [];
      ConnectAllValues(m, txs[..i], height);
      var have := CheckHaveInputs(tx.Spends());
      if !have {
        NotAccepted(m, txs, i, height);
        return false, sum', undo;
      }
      SumsFit(m, txs, i, height);
      if !tx.IsCoinBase() {
        var valueIn := GetValueIn(tx.vin);
        sum' := sum + (valueIn - SumOuts(tx.vout));
        assert InInt64(sum');
      }
      ok := CheckInputs(tx, height);
      if !ok {
        NotAccepted(m, txs, i, height);
        return;
      }
      AcceptNext(m, txs, i, height);
      AcceptedConnects(m, txs[..i + 1], height);
      undo := UpdateCoins(tx, height);
    }

    /** The transaction loop: inputs present, fees added up, inputs checked, outputs updated. */
    method ConnectTransactions(txs: seq<Tx>, height: nat) returns (fees: Option<int>, undos: seq<seq<InUndo>>)
      requires Valid() && LedgerOk(Map()) && ValuesOk(Map()) && Total(Map()) <= MAX_MONEY && height > 0
      requires forall i :: 0 <= i < |txs| ==> TxOk(txs[i]) && (txs[i].IsCoinBase() <==> i == 0)
      modifies cache
      ensures Valid() && SameBelow(old(cache.views), cache.views)
      ensures fees.Some? <==> TxsAccepted(old(Map()), txs, height)
      ensures fees.Some? ==>
                && Connects(old(Map()), txs, height) && Map() == ConnectAll(old(Map()), txs, height)
                && AllHaveInputs(old(Map()), txs, height) && fees.value == Fees(old(Map()), txs, height)
                && undos == BlockUndos(old(Map()), txs, height)
    {
      hide Connects, ConnectAll, LedgerOk, ValuesOk, TxOk, BlockUndos, Total, Fees, AllHaveInputs, TxsAccepted, SumOuts, InputsOk,
        Spendable, CoinsCache.CoinsStack.Valid;
      ghost var m := Map();
      var sum := 0;
      undos := [];
      var i := 0;
      AcceptedNone(m, height);
      assert txs[..0] == [];
      while i < |txs|
        invariant 0 <= i <= |txs| && Valid() && SameBelow(old(cache.views), cache.views)
        invariant TxsAccepted(m, txs[..i], height) && Connects(m, txs[..i], height)
        invariant Map() == ConnectAll(m, txs[..i], height)
        invariant AllHaveInputs(m, txs[..i], height) && sum == Fees(m, txs[..i], height)
        invariant undos == BlockUndos(m, txs[..i], height)
      {
        var ok, undo;
        ok, sum, undo := ConnectNext(txs, i, height, sum, m);
        if !ok {
          return None, undos;
        }
        undos := undos + [undo];
        i := i + 1;
      }
      assert txs[..|txs|] == txs;
      fees := Some(sum);
    }
  }
}
