/** The rules a block must meet to be connected, as far as they concern outputs and values, and what
    they guarantee about the total. */
module LedgerRules {
  import opened Coins
  import opened Ledger
  import opened LedgerBlock
  import opened LedgerValue

  /** A block: its time stamp, its transactions, and the verdicts on everything not modelled here
      (scripts, signature counts, sizes). */
  datatype Block = Block(time: int, txs: seq<Tx>, otherwiseOk: bool)

  const BIP30_SWITCH_TIME: int := 1349049600

  // ---------- subsidy ----------

  /** The subsidy after a number of halvings: an arithmetic shift of the starting one. */
  function Halved(k: nat): (s: int)
    ensures 0 <= s <= START_SUBSIDY
  {
    if k == 0 then START_SUBSIDY else Halved(k - 1) / 2
  }

  function Subsidy(height: nat): int {
    Halved(height / HALVING_INTERVAL)
  }

  /** The sum of the subsidies of heights 1 up to n. */
  function SubsidySum(n: nat): int {
    if n == 0 then 0 else SubsidySum(n - 1) + Subsidy(n)
  }

  lemma IntervalStep(n: nat)
    ensures (n + 1) / HALVING_INTERVAL == (if n % HALVING_INTERVAL == HALVING_INTERVAL - 1 then n / HALVING_INTERVAL + 1 else n / HALVING_INTERVAL)
    ensures (n + 1) % HALVING_INTERVAL == (if n % HALVING_INTERVAL == HALVING_INTERVAL - 1 then 0 else n % HALVING_INTERVAL + 1)
  {
  }

  /** Each halving leaves at most as much to come as has been left out. */
  lemma {:induction false} SubsidyBound(n: nat)
    ensures var s := Subsidy(n); var r := n % HALVING_INTERVAL;
      SubsidySum(n) <= 2 * HALVING_INTERVAL * START_SUBSIDY - 2 * HALVING_INTERVAL * s + r * s
  {
    hide Subsidy, Halved, SubsidySum;
    SumStep(n);
    if n > 0 {
      SubsidyBound(n - 1);
      IntervalStep(n - 1);
      SubsidyStep(n - 1);
      var s0, s1 := Subsidy(n - 1), Subsidy(n);
      var r0, r1 := (n - 1) % HALVING_INTERVAL, n % HALVING_INTERVAL;
      if r1 == 0 {
        assert s1 == s0 / 2;
        LastOfInterval(s0, s1, r0);
      } else {
        assert s1 == s0 && r1 == r0 + 1;
        assert r1 * s1 == r0 * s0 + s1;
      }
    }
  }

  lemma SumStep(n: nat)
    ensures SubsidySum(0) == 0 && Subsidy(0) == START_SUBSIDY
    ensures n > 0 ==> SubsidySum(n) == SubsidySum(n - 1) + Subsidy(n)
  {
  }

  lemma SubsidyStep(n: nat)
    ensures 0 <= Subsidy(n)
    ensures Subsidy(n + 1) == (if n % HALVING_INTERVAL == HALVING_INTERVAL - 1 then Subsidy(n) / 2 else Subsidy(n))
  {
    IntervalStep(n);
  }

  lemma LastOfInterval(s0: int, s1: int, r0: int)
    requires r0 == HALVING_INTERVAL - 1 && s1 == s0 / 2 && 0 <= s0
    ensures -2 * HALVING_INTERVAL * s0 + r0 * s0 + s1 <= -2 * HALVING_INTERVAL * s1
  {
  }

  /** All subsidies together stay below the money limit, however long the chain. */
  lemma SubsidySumBelowLimit(n: nat)
    ensures 0 <= SubsidySum(n) <= MAX_MONEY
  {
    SubsidyBound(n);
    var s, r := Subsidy(n), n % HALVING_INTERVAL;
    assert r * s <= 2 * HALVING_INTERVAL * s by {
      RemainderShare(r, s);
    }
    SubsidySumNonneg(n);
  }

  lemma RemainderShare(r: int, s: int)
    requires 0 <= r < HALVING_INTERVAL && 0 <= s
    ensures r * s <= 2 * HALVING_INTERVAL * s
  {
    assert (2 * HALVING_INTERVAL - r) * s >= 0;
  }

  lemma {:induction false} SubsidySumNonneg(n: nat)
    ensures 0 <= SubsidySum(n)
  {
    if n > 0 {
      SubsidySumNonneg(n - 1);
    }
  }

  // ---------- rules ----------

  /** Context-free rules on a transaction. */
  ghost predicate TxOk(tx: Tx) {
    && tx.vin != [] && tx.vout != []
    && (forall i :: 0 <= i < |tx.vout| ==> MoneyRange(tx.vout[i].value))
    && SumOuts(tx.vout) <= MAX_MONEY
    && NoDup(tx.vin)
    && (tx.IsCoinBase() || NULL_OUTPOINT !in tx.vin)
  }

  predicate Mature(m: View, outs: seq<OutPoint>, height: int) {
    forall i :: 0 <= i < |outs| && Get(m, outs[i].hash).coinbase ==>
      height - Get(m, outs[i].hash).height >= COINBASE_MATURITY
  }

  /** The rules on the inputs of a transaction, given what is unspent before it. */
  ghost predicate InputsOk(m: View, tx: Tx, height: int) {
    && HaveInputs(m, tx.Spends())
    && Mature(m, tx.Spends(), height)
    && (!tx.IsCoinBase() ==> SumOuts(tx.vout) <= ValueIn(m, tx.Spends()) <= MAX_MONEY)
  }

  /** Fees of all transactions but the coinbase. */
  ghost function Fees(m: View, txs: seq<Tx>, height: int): int
    requires Connects(m, txs, height) && AllHaveInputs(m, txs, height)
    decreases |txs|
  {
    if txs == [] then 0
    else
      var k := |txs| - 1;
      Fees(m, txs[..k], height) +
      (if txs[k].IsCoinBase() then 0
       else ValueIn(ConnectAll(m, txs[..k], height), txs[k].Spends()) - SumOuts(txs[k].vout))
  }

  ghost predicate AllHaveInputs(m: View, txs: seq<Tx>, height: int)
    requires Connects(m, txs, height)
    decreases |txs|
  {
    txs == [] ||
    var k := |txs| - 1;
    AllHaveInputs(m, txs[..k], height) && HaveInputs(ConnectAll(m, txs[..k], height), txs[k].Spends())
  }

  ghost predicate TxsAccepted(m: View, txs: seq<Tx>, height: int)
    decreases |txs|
  {
    Connects(m, txs, height) &&
    (txs == [] ||
     var k := |txs| - 1;
     TxsAccepted(m, txs[..k], height) && InputsOk(ConnectAll(m, txs[..k], height), txs[k], height))
  }

  lemma {:induction false} AcceptedHaveInputs(m: View, txs: seq<Tx>, height: int)
    requires TxsAccepted(m, txs, height)
    ensures AllHaveInputs(m, txs, height)
    decreases |txs|
  {
    if txs != [] {
      AcceptedHaveInputs(m, txs[..|txs| - 1], height);
    }
  }

  /** The block connects: it is well formed, BIP 30 holds where it applies, every transaction finds unspent,
      mature inputs worth at least its outputs, and the coinbase takes no more than subsidy and fees. */
  ghost predicate BlockConnects(m: View, b: Block, height: nat) {
    && b.otherwiseOk
    && Shaped(b.txs) && (forall i :: 0 <= i < |b.txs| ==> TxOk(b.txs[i]))
    && (b.time > BIP30_SWITCH_TIME ==> NoneKnown(m, b.txs))
    && TxsAccepted(m, b.txs, height)
    && (AcceptedHaveInputs(m, b.txs, height);
        SumOuts(b.txs[0].vout) <= Subsidy(height) + Fees(m, b.txs, height))
  }

  // ---------- conservation ----------

  lemma TxOkOuts(tx: Tx)
    requires TxOk(tx)
    ensures OutsOk(tx.vout) && OutsInRange(tx.vout) && NoDup(tx.Spends())
  {
  }

  lemma {:induction false} ConnectAllValues(m: View, txs: seq<Tx>, height: int)
    requires LedgerOk(m) && ValuesOk(m) && Connects(m, txs, height) && height != 0
    requires forall i :: 0 <= i < |txs| ==> TxOk(txs[i])
    ensures LedgerOk(ConnectAll(m, txs, height)) && ValuesOk(ConnectAll(m, txs, height))
    decreases |txs|
  {
    hide LedgerOk, ValuesOk, TxOk, ConnectTx, Spendable;
    if txs != [] {
      var k := |txs| - 1;
      ConnectAllValues(m, txs[..k], height);
      TxOkOuts(txs[k]);
      ConnectTxKeepsOk(ConnectAll(m, txs[..k], height), txs[k], height);
      ConnectTxValues(ConnectAll(m, txs[..k], height), txs[k], height);
    }
  }

  /** What the transactions of a block put where nobody can spend it, and what they overwrite. */
  ghost function Lost(m: View, txs: seq<Tx>, height: int): int
    requires Connects(m, txs, height)
    decreases |txs|
  {
    if txs == [] then 0
    else
      var k := |txs| - 1;
      Lost(m, txs[..k], height) + Burnt(txs[k].vout) + Overwritten(ConnectAll(m, txs[..k], height), txs[k])
  }

  /** Nothing appears or disappears: the new total and the fees are the old total and what the coinbase pays, but
      for what is lost. */
  lemma {:induction false} TotalPlusFees(m: View, txs: seq<Tx>, height: int)
    requires LedgerOk(m) && ValuesOk(m) && Connects(m, txs, height) && AllHaveInputs(m, txs, height) && height != 0
    requires forall i :: 0 <= i < |txs| ==> TxOk(txs[i]) && (txs[i].IsCoinBase() <==> i == 0)
    ensures Total(ConnectAll(m, txs, height)) + Fees(m, txs, height) ==
            Total(m) + (if txs == [] then 0 else SumOuts(txs[0].vout)) - Lost(m, txs, height)
    ensures Lost(m, txs, height) >= 0
    decreases |txs|
  {
    hide LedgerOk, ValuesOk, TxOk, ConnectTx, Spendable, HaveInputs, Total, Overwritten, Burnt;
    if txs != [] {
      var k := |txs| - 1;
      var m1 := ConnectAll(m, txs[..k], height);
      TotalPlusFees(m, txs[..k], height);
      ConnectAllValues(m, txs[..k], height);
      TxOkOuts(txs[k]);
      ConnectTxTotal(m1, txs[k], height);
      CoinbaseSpendsNothing(m1, txs[k]);
      if k > 0 {
        assert txs[..k][0] == txs[0];
      }
    }
  }

  lemma CoinbaseSpendsNothing(m: View, tx: Tx)
    ensures tx.IsCoinBase() ==> HaveInputs(m, tx.Spends()) && ValueIn(m, tx.Spends()) == 0
  {
  }

  /** Without overwriting only outputs nobody can spend are lost. */
  lemma {:induction false} LostIsBurnt(m: View, txs: seq<Tx>, height: int)
    requires Connects(m, txs, height) && OverwritesNothing(m, txs, height)
    ensures Lost(m, txs, height) == BurntIn(txs)
    decreases |txs|
  {
    hide ConnectTx, Spendable, Burnt;
    if txs != [] {
      LostIsBurnt(m, txs[..|txs| - 1], height);
    }
  }

  function BurntIn(txs: seq<Tx>): int {
    if txs == [] then 0 else BurntIn(txs[..|txs| - 1]) + Burnt(txs[|txs| - 1].vout)
  }

  /** A block that connects adds at most its subsidy to the total. */
  lemma BlockAddsAtMostSubsidy(m: View, b: Block, height: nat)
    requires LedgerOk(m) && ValuesOk(m) && BlockConnects(m, b, height) && height > 0
    ensures Total(ConnectAll(m, b.txs, height)) <= Total(m) + Subsidy(height)
    ensures LedgerOk(ConnectAll(m, b.txs, height)) && ValuesOk(ConnectAll(m, b.txs, height))
  {
    hide LedgerOk, ValuesOk, TxOk, ConnectAll, Connects, Total, Fees, Lost;
    AcceptedHaveInputs(m, b.txs, height);
    TotalPlusFees(m, b.txs, height);
    ConnectAllValues(m, b.txs, height);
  }

  /** What makes a connected block sure to overwrite nothing: BIP 30 applies, and an id stands for one list of inputs. */
  predicate Undoable(b: Block) {
    b.time > BIP30_SWITCH_TIME && IdsFixInputs(b.txs)
  }

  lemma ConnectedShape(m: View, b: Block, height: nat)
    requires BlockConnects(m, b, height)
    ensures Connects(m, b.txs, height) && AllOutsOk(b.txs) && SpendsFit(b.txs) && b.txs != []
    ensures forall i :: 0 <= i < |b.txs| ==> (b.txs[i].IsCoinBase() <==> i == 0) && b.txs[i].vin != []
  {
    hide ConnectAll, Connects, Fees, AllHaveInputs, InputsOk;
    forall i | 0 <= i < |b.txs| ensures OutsOk(b.txs[i].vout) && SpendsAt(b.txs, i) == b.txs[i].Spends() && b.txs[i].vin != [] {
      TxOkOuts(b.txs[i]);
    }
  }

  /** Disconnecting a connected block gives back exactly the map before it and reports clean if and only if the
      block overwrote nothing, which BIP 30 makes sure of. */
  lemma BlockUndone(m: View, b: Block, height: nat)
    requires LedgerOk(m) && BlockConnects(m, b, height) && height > 0
    ensures Connects(m, b.txs, height) && UndosFit(b.txs, BlockUndos(m, b.txs, height))
    ensures DisconnectAll(ConnectAll(m, b.txs, height), b.txs, BlockUndos(m, b.txs, height), height) == (m, true) <==>
            OverwritesNothing(m, b.txs, height)
    ensures Undoable(b) ==> OverwritesNothing(m, b.txs, height)
  {
    hide LedgerOk, ConnectAll, Connects, AllOutsOk, SpendsFit, DisconnectAll, UndosFit, OverwritesNothing, NoneKnown, IdsFixInputs,
      TxsAccepted;
    ConnectedShape(m, b, height);
    BlockRestoredIff(m, b.txs, height);
    if Undoable(b) {
      ConnectedTxidsDistinct(m, b.txs, height);
      NewIdsOverwriteNothing(m, b.txs, height);
    }
  }

  /** A block of just a coinbase, unfolded. */
  lemma CoinbaseOnly(m: View, tx: Tx, height: int)
    requires tx.IsCoinBase()
    ensures TxsAccepted(m, [tx], height) && AllHaveInputs(m, [tx], height) && Fees(m, [tx], height) == 0
    ensures ConnectAll(m, [tx], height) == ConnectTx(m, tx, height) == Put(m, tx.txid, FromTx(tx, height))
    ensures BlockUndos(m, [tx], height) == [[]]
  {
    assert [tx][..0] == [];
    assert Connects(m, [], height) && ConnectAll(m, [], height) == m;
    assert TxsAccepted(m, [], height) && AllHaveInputs(m, [], height) && Fees(m, [], height) == 0;
    assert BlockUndos(m, [], height) == [];
  }

  lemma CoinbaseOnlyUndone(m: View, tx: Tx, us: seq<seq<InUndo>>, height: int)
    requires us == [[]]
    ensures UndosFit([tx], us) && DisconnectAll(m, [tx], us, height).0 == m - {tx.txid}
  {
    assert [tx][..0] == [] && us[..0] == [];
    assert DisconnectAll(m - {tx.txid}, [], [], height) == (m - {tx.txid}, true);
  }

  /** Where BIP 30 does not apply this fails: a coinbase that repeats the id of one not yet spent overwrites
      it, and undoing the block leaves neither. */
  lemma OverwrittenCoinbaseIsLost(m: View, b: Block, tx: Tx, height: nat)
    requires b.time <= BIP30_SWITCH_TIME && b.otherwiseOk && b.txs == [tx] && tx.IsCoinBase() && TxOk(tx)
    requires SumOuts(tx.vout) <= Subsidy(height) && tx.txid in m
    ensures BlockConnects(m, b, height)
    ensures UndosFit(b.txs, BlockUndos(m, b.txs, height))
    ensures DisconnectAll(ConnectAll(m, b.txs, height), b.txs, BlockUndos(m, b.txs, height), height).0 == m - {tx.txid} != m
  {
    hide Connects, ConnectAll, ConnectTx, TxsAccepted, Fees, BlockUndos, DisconnectAll, TxOk, FromTx, UndosFit;
    CoinbaseOnly(m, tx, height);
    CoinbaseOnlyUndone(ConnectAll(m, [tx], height), tx, BlockUndos(m, [tx], height), height);
    assert Put(m, tx.txid, FromTx(tx, height)) - {tx.txid} == m - {tx.txid};
  }
}
