/** Value: what a block may create, and that the total of all unspent outputs never exceeds it. */
module LedgerValue {
  import opened Coins
  import opened Ledger
  import opened LedgerBlock

  const COIN: int := 100_000_000
  const MAX_MONEY: int := 4_950_000_000 * COIN
  const COINBASE_MATURITY: int := 15
  const HALVING_INTERVAL: int := 800_000
  const START_SUBSIDY: int := 2970 * COIN

  predicate MoneyRange(v: int) {
    0 <= v <= MAX_MONEY
  }

  predicate InInt64(v: int) {
    -0x8000_0000_0000_0000 <= v < 0x8000_0000_0000_0000
  }

  // ---------- sums ----------

  function OutValue(o: TxOut): int {
    if o.IsNull() then 0 else o.value
  }

  function SumOuts(vout: seq<TxOut>): int {
    if vout == [] then 0 else SumOuts(vout[..|vout| - 1]) + OutValue(vout[|vout| - 1])
  }

  /** The total of all unspent outputs. */
  ghost function Total(m: View): int {
    if m == map[] then 0 else
      var t :| t in m;
      SumOuts(m[t].vout) + Total(m - {t})
  }

  lemma {:induction false} SumOutsUpdate(vout: seq<TxOut>, n: nat, o: TxOut)
    requires n < |vout|
    ensures SumOuts(vout[n := o]) == SumOuts(vout) - OutValue(vout[n]) + OutValue(o)
    decreases |vout|
  {
    var k := |vout| - 1;
    if n == k {
      assert vout[n := o][..k] == vout[..k];
    } else {
      assert vout[n := o][..k] == vout[..k][n := o];
      SumOutsUpdate(vout[..k], n, o);
    }
  }

  lemma {:induction false} TrimKeepsSum(vout: seq<TxOut>)
    ensures SumOuts(Trim(vout)) == SumOuts(vout)
    decreases |vout|
  {
    if |vout| > 0 && vout[|vout| - 1].IsNull() {
      TrimKeepsSum(vout[..|vout| - 1]);
    }
  }

  lemma {:induction false} NullSum(vout: seq<TxOut>)
    requires forall i :: 0 <= i < |vout| ==> vout[i].IsNull()
    ensures SumOuts(vout) == 0
    decreases |vout|
  {
    if vout != [] {
      NullSum(vout[..|vout| - 1]);
    }
  }

  lemma {:induction false} TotalRemove(m: View, t: Txid)
    requires t in m
    ensures Total(m) == SumOuts(m[t].vout) + Total(m - {t})
    decreases |m|
  {
    var u :| u in m && Total(m) == SumOuts(m[u].vout) + Total(m - {u});
    if u != t {
      TotalRemove(m - {u}, t);
      TotalRemove(m - {t}, u);
      assert m - {u} - {t} == m - {t} - {u};
    }
  }

  /** Replacing a record changes the total by the difference of the records. */
  lemma TotalPut(m: View, t: Txid, c: Coins)
    ensures Total(Put(m, t, c)) == Total(m) - SumOuts(Get(m, t).vout) + SumOuts(c.vout)
  {
    var m' := Put(m, t, c);
    TrimKeepsSum(c.vout);
    if t in m {
      TotalRemove(m, t);
    } else {
      assert m - {t} == m;
    }
    if c.IsPruned() {
      NullSum(c.vout);
    } else {
      TotalRemove(m', t);
      assert m' - {t} == m - {t};
    }
  }

  /** Values of unspent outputs are in range. */
  predicate OutsInRange(vout: seq<TxOut>) {
    forall i :: 0 <= i < |vout| && !vout[i].IsNull() ==> MoneyRange(vout[i].value)
  }

  predicate ValuesOk(m: View) {
    forall t :: t in m ==> OutsInRange(m[t].vout)
  }

  lemma {:induction false} SumOutsNonneg(vout: seq<TxOut>)
    requires OutsInRange(vout)
    ensures SumOuts(vout) >= 0
    decreases |vout|
  {
    if vout != [] {
      SumOutsNonneg(vout[..|vout| - 1]);
    }
  }

  lemma {:induction false} TotalNonneg(m: View)
    requires ValuesOk(m)
    ensures Total(m) >= 0
    decreases |m|
  {
    if m != map[] {
      var t :| t in m;
      TotalRemove(m, t);
      SumOutsNonneg(m[t].vout);
      TotalNonneg(m - {t});
    }
  }

  // ---------- value of inputs and outputs ----------

  predicate HaveInputs(m: View, outs: seq<OutPoint>) {
    forall i :: 0 <= i < |outs| ==> Available(m, outs[i])
  }

  function ValueAt(m: View, o: OutPoint): int
    requires Available(m, o)
  {
    Get(m, o.hash).vout[o.n].value
  }

  function ValueIn(m: View, outs: seq<OutPoint>): int
    requires HaveInputs(m, outs)
    decreases |outs|
  {
    if outs == [] then 0
    else ValueIn(m, outs[..|outs| - 1]) + ValueAt(m, outs[|outs| - 1])
  }

  predicate NoDup(outs: seq<OutPoint>) {
    forall i, j :: 0 <= i < j < |outs| ==> outs[i] != outs[j]
  }

  lemma SpendOneTotal(m: View, o: OutPoint)
    requires Available(m, o)
    ensures Total(SpendOne(m, o)) == Total(m) - ValueAt(m, o)
  {
    var c := Get(m, o.hash);
    TotalPut(m, o.hash, Spent(c, o.n));
    TrimKeepsSum(c.vout[o.n := NULL_OUT]);
    SumOutsUpdate(c.vout, o.n, NULL_OUT);
  }

  lemma SpendKeepsValue(m: View, o: OutPoint, p: OutPoint)
    requires LedgerOk(m) && Available(m, o) && Available(m, p) && p != o
    ensures Available(SpendOne(m, o), p) && ValueAt(SpendOne(m, o), p) == ValueAt(m, p)
  {
    SpendKeepsUnavailable(m, o, p);
    var c := m[o.hash];
    assert Trim(c.vout[o.n := NULL_OUT]) <= c.vout[o.n := NULL_OUT];
  }

  /** Distinct available outputs can all be spent, each at its original value. */
  lemma {:induction false} DistinctInputsSpendable(m: View, outs: seq<OutPoint>)
    requires LedgerOk(m) && HaveInputs(m, outs) && NoDup(outs)
    ensures Spendable(m, outs)
    ensures Total(SpendAll(m, outs)) == Total(m) - ValueIn(m, outs)
    decreases |outs|
  {
    if outs != [] {
      var o, rest := outs[0], outs[1..];
      assert Available(m, outs[0]) && o !in rest && NoDup(rest);
      hide LedgerOk, Available, SpendOne, Total, ValueIn, ValueAt, HaveInputs, NoDup;
      SpendKeepsOk(m, o);
      ValueInTail(m, outs);
      ValueInAfterSpend(m, o, rest);
      DistinctInputsSpendable(SpendOne(m, o), rest);
      SpendOneTotal(m, o);
    }
  }

  lemma {:induction false} ValueInTail(m: View, outs: seq<OutPoint>)
    requires HaveInputs(m, outs) && outs != []
    ensures HaveInputs(m, outs[1..]) && ValueIn(m, outs) == ValueAt(m, outs[0]) + ValueIn(m, outs[1..])
    decreases |outs|
  {
    var k := |outs| - 1;
    if k > 0 {
      ValueInTail(m, outs[..k]);
      assert outs[..k][1..] == outs[1..][..k - 1];
    } else {
      assert outs[..0] == [] && outs[1..] == [];
    }
  }

  lemma {:induction false} ValueInAfterSpend(m: View, o: OutPoint, outs: seq<OutPoint>)
    requires LedgerOk(m) && Available(m, o) && HaveInputs(m, outs) && o !in outs
    ensures HaveInputs(SpendOne(m, o), outs) && ValueIn(SpendOne(m, o), outs) == ValueIn(m, outs)
    decreases |outs|
  {
    forall i | 0 <= i < |outs| ensures Available(SpendOne(m, o), outs[i]) {
      SpendKeepsValue(m, o, outs[i]);
    }
    if outs != [] {
      var k := |outs| - 1;
      ValueInAfterSpend(m, o, outs[..k]);
      SpendKeepsValue(m, o, outs[k]);
    }
  }

  /** The value of the outputs that can be spent later, and of those that cannot. */
  function Payable(vout: seq<TxOut>): int {
    if vout == [] then 0
    else Payable(vout[..|vout| - 1]) + (if CanBeSpent(vout[|vout| - 1]) then vout[|vout| - 1].value else 0)
  }

  function Burnt(vout: seq<TxOut>): int {
    if vout == [] then 0
    else
      var o := vout[|vout| - 1];
      Burnt(vout[..|vout| - 1]) + (if o.value != -1 && !CanBeSpent(o) then o.value else 0)
  }

  lemma {:induction false} ClearedSum(vout: seq<TxOut>)
    ensures SumOuts(ClearedOuts(vout)) == Payable(vout) == SumOuts(vout) - Burnt(vout)
    ensures OutsInRange(vout) ==> Burnt(vout) >= 0
    decreases |vout|
  {
    if vout != [] {
      var k := |vout| - 1;
      ClearedSum(vout[..k]);
      assert ClearedOuts(vout)[..k] == ClearedOuts(vout[..k]);
    }
  }

  lemma ConnectTxValues(m: View, tx: Tx, height: int)
    requires LedgerOk(m) && ValuesOk(m) && Spendable(m, tx.Spends()) && OutsInRange(tx.vout)
    ensures ValuesOk(ConnectTx(m, tx, height))
  {
    hide SpendAll, Spendable, LedgerOk;
    SpendAllValues(m, tx.Spends());
    assert Trim(ClearedOuts(tx.vout)) <= ClearedOuts(tx.vout);
    TrimmedIsTrim(FromTx(tx, height));
  }

  lemma TrimmedIsTrim(c: Coins)
    ensures Trimmed(c).vout <= c.vout
  {
  }

  lemma {:induction false} SpendAllValues(m: View, outs: seq<OutPoint>)
    requires LedgerOk(m) && ValuesOk(m) && Spendable(m, outs)
    ensures ValuesOk(SpendAll(m, outs))
    decreases |outs|
  {
    hide LedgerOk, SpendOne, Available, ValuesOk;
    if outs != [] {
      SpendKeepsOk(m, outs[0]);
      SpendOneValues(m, outs[0]);
      SpendAllValues(SpendOne(m, outs[0]), outs[1..]);
    }
  }

  lemma SpendOneValues(m: View, o: OutPoint)
    requires ValuesOk(m) && Available(m, o)
    ensures ValuesOk(SpendOne(m, o))
  {
    var c := m[o.hash];
    var v := c.vout[o.n := NULL_OUT];
    assert Trim(v) <= v;
    TrimmedIsTrim(Spent(c, o.n));
  }

  /** What is lost when a transaction takes an id that still has unspent outputs. */
  ghost function Overwritten(m: View, tx: Tx): int
    requires Spendable(m, tx.Spends())
  {
    SumOuts(Get(SpendAll(m, tx.Spends()), tx.txid).vout)
  }

  /** Connecting a transaction takes its inputs out of the total and adds its outputs, but for those nobody can
      ever spend; what it overwrites is lost. */
  lemma ConnectTxTotal(m: View, tx: Tx, height: int)
    requires LedgerOk(m) && ValuesOk(m) && NoDup(tx.Spends()) && HaveInputs(m, tx.Spends()) && OutsInRange(tx.vout)
    ensures Spendable(m, tx.Spends())
    ensures Total(ConnectTx(m, tx, height)) ==
            Total(m) - ValueIn(m, tx.Spends()) + SumOuts(tx.vout) - Burnt(tx.vout) - Overwritten(m, tx)
    ensures Burnt(tx.vout) >= 0 && Overwritten(m, tx) >= 0
    ensures tx.txid !in SpendAll(m, tx.Spends()) ==> Overwritten(m, tx) == 0
  {
    DistinctInputsSpendable(m, tx.Spends());
    var m1 := SpendAll(m, tx.Spends());
    SpendAllValues(m, tx.Spends());
    TotalPut(m1, tx.txid, FromTx(tx, height));
    TrimKeepsSum(ClearedOuts(tx.vout));
    ClearedSum(tx.vout);
    if tx.txid in m1 {
      SumOutsNonneg(m1[tx.txid].vout);
    }
  }
}
