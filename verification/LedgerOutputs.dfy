/** The unspent outputs one by one: which outputs a chain of blocks leaves, told from the transactions alone,
    without the records they are kept in, and what that means for spending them. */
module LedgerOutputs {
  import opened Base
  import opened Coins
  import opened Ledger
  import opened LedgerBlock
  import opened LedgerValue
  import opened LedgerRules
  import opened LedgerChain
  import opened Powers

  /** An unspent output and what is remembered of the transaction it belongs to. */
  datatype Unspent = Unspent(out: TxOut, coinbase: bool, height: int, version: int)

  function UnspentAt(m: View, p: OutPoint): Option<Unspent> {
    if Available(m, p) then
      var c := Get(m, p.hash);
      Some(Unspent(c.vout[p.n], c.coinbase, c.height, c.version))
    else None
  }

  /** What a transaction connected at some height leaves as its output n. */
  function Created(tx: Tx, n: nat, height: int): Option<Unspent> {
    if n < |tx.vout| && CanBeSpent(tx.vout[n]) then Some(Unspent(tx.vout[n], tx.IsCoinBase(), height, tx.version)) else None
  }

  // ---------- one transaction ----------

  /** Spending an output removes it and touches no other. */
  lemma SpendOneOutputs(m: View, o: OutPoint, p: OutPoint)
    requires LedgerOk(m) && Available(m, o)
    ensures UnspentAt(SpendOne(m, o), p) == if p == o then None else UnspentAt(m, p)
  {
    SpendKeepsUnavailable(m, o, p);
    SpendOneShape(m, o);
    var v := m[o.hash].vout[o.n := NULL_OUT];
    assert Trim(v) <= v;
    hide Trim, LedgerOk, CoinsOk;
    if p.hash != o.hash {
      assert Get(SpendOne(m, o), p.hash) == Get(m, p.hash);
    }
  }

  lemma {:induction false} SpendAllOutputs(m: View, outs: seq<OutPoint>, p: OutPoint)
    requires LedgerOk(m) && Spendable(m, outs)
    ensures UnspentAt(SpendAll(m, outs), p) == if p in outs then None else UnspentAt(m, p)
    decreases |outs|
  {
    hide LedgerOk, SpendOne, Available, UnspentAt;
    if outs != [] {
      SpendKeepsOk(m, outs[0]);
      SpendOneOutputs(m, outs[0], p);
      SpendAllOutputs(SpendOne(m, outs[0]), outs[1..], p);
      assert p in outs <==> p == outs[0] || p in outs[1..];
    }
  }

  /** The record of a transaction has exactly the outputs that can be spent, with its own metadata. */
  lemma CreatedOutputs(m: View, tx: Tx, height: int, n: nat)
    ensures UnspentAt(Put(m, tx.txid, FromTx(tx, height)), OutPoint(tx.txid, n)) == Created(tx, n, height)
  {
    var cleared := ClearedOuts(tx.vout);
    var kept := Trim(cleared);
    assert kept <= cleared;
    assert Trimmed(FromTx(tx, height)) == FromTx(tx, height);
    hide Trim, ClearedOuts;
    assert n < |kept| && !kept[n].IsNull() <==> n < |cleared| && !cleared[n].IsNull();
  }

  /** Connecting a transaction removes what it spends and leaves its own outputs, all that can be spent. */
  lemma ConnectTxOutputs(m: View, tx: Tx, height: int, p: OutPoint)
    requires LedgerOk(m) && Spendable(m, tx.Spends())
    ensures UnspentAt(ConnectTx(m, tx, height), p) ==
            if p.hash == tx.txid then Created(tx, p.n, height)
            else if p in tx.Spends() then None
            else UnspentAt(m, p)
  {
    hide LedgerOk, Spendable, SpendAll, Created, FromTx;
    var m1 := SpendAll(m, tx.Spends());
    if p.hash == tx.txid {
      CreatedOutputs(m1, tx, height, p.n);
      assert p == OutPoint(tx.txid, p.n);
    } else {
      SpendAllOutputs(m, tx.Spends(), p);
      assert Get(ConnectTx(m, tx, height), p.hash) == Get(m1, p.hash);
    }
  }

  // ---------- histories ----------

  datatype Placed = Placed(tx: Tx, height: int)

  function PlacedAll(txs: seq<Tx>, height: int): (r: seq<Placed>)
    ensures |r| == |txs| && forall i :: 0 <= i < |txs| ==> r[i] == Placed(txs[i], height)
  {
    seq(|txs|, i requires 0 <= i < |txs| => Placed(txs[i], height))
  }

  /** All transactions of a chain in order, each with the height of its block; genesis has height 0 and none. */
  function History(chain: seq<Block>): seq<Placed> {
    if chain == [] then [] else History(chain[..|chain| - 1]) + PlacedAll(chain[|chain| - 1].txs, |chain|)
  }

  /** What becomes of output p in a history. */
  function LeftOver(hist: seq<Placed>, p: OutPoint): Option<Unspent> {
    if hist == [] then None
    else
      var last := hist[|hist| - 1];
      if last.tx.txid == p.hash then Created(last.tx, p.n, last.height)
      else if p in last.tx.Spends() then None
      else LeftOver(hist[..|hist| - 1], p)
  }

  /** The transaction at i creates p, and no later one takes its id or spends it. */
  ghost predicate LeftBy(hist: seq<Placed>, p: OutPoint, i: nat) {
    && i < |hist| && hist[i].tx.txid == p.hash
    && p.n < |hist[i].tx.vout| && CanBeSpent(hist[i].tx.vout[p.n])
    && forall k :: i < k < |hist| ==> hist[k].tx.txid != p.hash && p !in hist[k].tx.Spends()
  }

  lemma {:induction false} LeftByLast(hist: seq<Placed>, p: OutPoint, i: nat)
    requires LeftBy(hist, p, i)
    ensures LeftOver(hist, p) == Some(Unspent(hist[i].tx.vout[p.n], hist[i].tx.IsCoinBase(), hist[i].height, hist[i].tx.version))
    decreases |hist|
  {
    if i < |hist| - 1 {
      LeftByLast(hist[..|hist| - 1], p, i);
    }
  }

  lemma {:induction false} LeftOverIsLeft(hist: seq<Placed>, p: OutPoint) returns (i: nat)
    requires LeftOver(hist, p).Some?
    ensures LeftBy(hist, p, i)
    decreases |hist|
  {
    var k := |hist| - 1;
    if hist[k].tx.txid == p.hash {
      i := k;
    } else {
      i := LeftOverIsLeft(hist[..k], p);
    }
  }

  lemma {:induction false} BlockOutputs(m: View, hist: seq<Placed>, txs: seq<Tx>, height: int, p: OutPoint)
    requires LedgerOk(m) && Connects(m, txs, height) && AllOutsOk(txs) && height != 0
    requires UnspentAt(m, p) == LeftOver(hist, p)
    ensures UnspentAt(ConnectAll(m, txs, height), p) == LeftOver(hist + PlacedAll(txs, height), p)
    decreases |txs|
  {
    hide LedgerOk, OutsOk, ConnectTx, Spendable, UnspentAt, Created;
    var after := hist + PlacedAll(txs, height);
    if txs == [] {
      assert after == hist;
    } else {
      var k := |txs| - 1;
      BlockOutputs(m, hist, txs[..k], height, p);
      ConnectAllKeepsOk(m, txs[..k], height);
      ConnectTxOutputs(ConnectAll(m, txs[..k], height), txs[k], height, p);
      assert after[..|after| - 1] == hist + PlacedAll(txs[..k], height);
      assert after[|after| - 1] == Placed(txs[k], height);
    }
  }

  lemma EmptyOutputs(p: OutPoint)
    ensures UnspentAt(map[], p) == None
  {
  }

  /** After a chain of blocks, and any first part of the transactions of a further one, the unspent outputs are
      those its history leaves. */
  lemma {:induction false} ReplayOutputs(chain: seq<Block>, txs: seq<Tx>, p: OutPoint)
    requires ChainConnects(chain) && Connects(Replay(chain), txs, |chain| + 1) && AllOutsOk(txs)
    ensures UnspentAt(ConnectAll(Replay(chain), txs, |chain| + 1), p) == LeftOver(History(chain) + PlacedAll(txs, |chain| + 1), p)
    decreases |chain|
  {
    hide BlockConnects, LedgerOk, ValuesOk, Total, Connects, ConnectAll, UnspentAt, LeftOver;
    TotalWithinSubsidies(chain);
    if chain == [] {
      EmptyOutputs(p);
      NoHistory(p);
    } else {
      var k := |chain| - 1;
      TotalWithinSubsidies(chain[..k]);
      ConnectedShape(Replay(chain[..k]), chain[k], |chain|);
      ReplayOutputs(chain[..k], chain[k].txs, p);
    }
    BlockOutputs(Replay(chain), History(chain), txs, |chain| + 1, p);
  }

  lemma NoHistory(p: OutPoint)
    ensures LeftOver([], p) == None
  {
  }

  /** An output is unspent after a chain of blocks if and only if some transaction created it, it can be spent,
      and no later transaction took the same id or spent it. */
  lemma UnspentIff(chain: seq<Block>, p: OutPoint)
    requires ChainConnects(chain)
    ensures Available(Replay(chain), p) <==> exists i: nat :: LeftBy(History(chain), p, i)
    ensures forall i: nat :: LeftBy(History(chain), p, i) ==>
      var h := History(chain)[i]; var c := Get(Replay(chain), p.hash);
      c.IsAvailable(p.n) && c.vout[p.n] == h.tx.vout[p.n] && c.coinbase == h.tx.IsCoinBase() && c.height == h.height && c.version == h.tx.version
  {
    hide ChainConnects, Replay, History, LeftOver, LeftBy, BlockConnects;
    var hist := History(chain);
    assert PlacedAll([], |chain| + 1) == [] && hist + [] == hist;
    AcceptedNone(Replay(chain), |chain| + 1);
    ReplayOutputs(chain, [], p);
    if LeftOver(hist, p).Some? {
      var i := LeftOverIsLeft(hist, p);
    }
    forall i: nat | LeftBy(hist, p, i)
      ensures LeftOver(hist, p) == Some(Unspent(LeftTx(hist, p, i).vout[p.n], hist[i].tx.IsCoinBase(), hist[i].height, hist[i].tx.version))
    {
      LeftByLast(hist, p, i);
    }
  }

  ghost function LeftTx(hist: seq<Placed>, p: OutPoint, i: nat): (tx: Tx)
    requires LeftBy(hist, p, i)
    ensures i < |hist| && tx == hist[i].tx && p.n < |tx.vout|
  {
    hist[i].tx
  }

  // ---------- spending ----------

  /** What a transaction may spend, told from the history before it: outputs that are left, those of coinbases
      only from 15 blocks on, worth at least what it pays. */
  ghost predicate MaySpend(hist: seq<Placed>, tx: Tx, height: int) {
    && (forall o :: o in tx.Spends() ==>
          && LeftOver(hist, o).Some?
          && (LeftOver(hist, o).value.coinbase ==> height - LeftOver(hist, o).value.height >= 15))
    && (!tx.IsCoinBase() ==> SumOuts(tx.vout) <= LeftValue(hist, tx.vin) <= MAX_MONEY)
  }

  function LeftValue(hist: seq<Placed>, outs: seq<OutPoint>): int {
    if outs == [] then 0
    else
      var u := LeftOver(hist, outs[|outs| - 1]);
      LeftValue(hist, outs[..|outs| - 1]) + (if u.Some? then u.value.out.value else 0)
  }

  /** The map says of every output what the history says. */
  ghost predicate Agrees(m: View, hist: seq<Placed>) {
    forall p :: UnspentAt(m, p) == LeftOver(hist, p)
  }

  lemma {:induction false} ValueIsLeftValue(m: View, hist: seq<Placed>, outs: seq<OutPoint>)
    requires Agrees(m, hist) && HaveInputs(m, outs)
    ensures ValueIn(m, outs) == LeftValue(hist, outs)
    decreases |outs|
  {
    hide LeftOver;
    if outs != [] {
      var k := |outs| - 1;
      ValueIsLeftValue(m, hist, outs[..k]);
      assert Available(m, outs[k]) && UnspentAt(m, outs[k]) == LeftOver(hist, outs[k]);
    }
  }

  /** The checks on the records decide exactly that. */
  lemma InputsOkIff(m: View, hist: seq<Placed>, tx: Tx, height: int)
    requires Agrees(m, hist)
    ensures InputsOk(m, tx, height) <==> MaySpend(hist, tx, height)
  {
    hide LeftOver, LeftValue, ValueIn, SumOuts, Agrees;
    var outs := tx.Spends();
    forall o ensures UnspentAt(m, o) == LeftOver(hist, o) {
      AgreesAt(m, hist, o);
    }
    if HaveInputs(m, outs) {
      ValueIsLeftValue(m, hist, outs);
      forall o | o in outs ensures Available(m, o) {
        var i :| 0 <= i < |outs| && outs[i] == o;
        assert Available(m, outs[i]);
      }
    }
    if MaySpend(hist, tx, height) {
      forall i | 0 <= i < |outs| ensures Available(m, outs[i]) {
        assert outs[i] in outs;
      }
    }
    assert forall i :: 0 <= i < |outs| ==> outs[i] in outs;
  }

  lemma AgreesAt(m: View, hist: seq<Placed>, o: OutPoint)
    requires Agrees(m, hist)
    ensures UnspentAt(m, o) == LeftOver(hist, o)
  {
  }

  /** Every transaction of a chain spent only what it may. */
  lemma {:induction false} AllMaySpend(chain: seq<Block>, x: nat)
    requires ChainConnects(chain) && x < |History(chain)|
    ensures MaySpend(History(chain)[..x], History(chain)[x].tx, History(chain)[x].height)
    decreases |chain|
  {
    hide BlockConnects, LedgerOk, ValuesOk, Total, Connects, ConnectAll, MaySpend, InputsOk, TxsAccepted;
    var k := |chain| - 1;
    var before, h := History(chain[..k]), |chain|;
    if x < |before| {
      AllMaySpend(chain[..k], x);
      assert History(chain)[..x] == before[..x];
    } else {
      var m, txs, j := Replay(chain[..k]), chain[k].txs, x - |before|;
      ConnectedShape(m, chain[k], h);
      ConnectedInputs(m, chain[k], h, j);
      forall p ensures UnspentAt(ConnectAll(m, txs[..j], h), p) == LeftOver(before + PlacedAll(txs[..j], h), p) {
        ReplayOutputs(chain[..k], txs[..j], p);
      }
      InputsOkIff(ConnectAll(m, txs[..j], h), before + PlacedAll(txs[..j], h), txs[j], h);
      assert History(chain)[..x] == before + PlacedAll(txs[..j], h);
    }
  }

  lemma ConnectedInputs(m: View, b: Block, height: nat, j: nat)
    requires BlockConnects(m, b, height) && j < |b.txs|
    ensures Connects(m, b.txs[..j], height) && AllOutsOk(b.txs[..j])
    ensures InputsOk(ConnectAll(m, b.txs[..j], height), b.txs[j], height)
  {
    hide ConnectAll, Connects, InputsOk, Fees, AllHaveInputs, OutsOk;
    ConnectedShape(m, b, height);
    AcceptedPrefix(m, b.txs, j + 1, height);
    assert b.txs[..j + 1][..j] == b.txs[..j] && b.txs[..j + 1][j] == b.txs[j];
    AcceptedConnects(m, b.txs[..j], height);
  }

  /** No coinbase output is spent less than 15 blocks above the coinbase. */
  lemma CoinbaseMatures(chain: seq<Block>, i: nat, x: nat, o: OutPoint)
    requires ChainConnects(chain) && i < x < |History(chain)|
    requires o in History(chain)[x].tx.Spends() && History(chain)[i].tx.txid == o.hash && History(chain)[i].tx.IsCoinBase()
    requires forall k :: i < k < x ==> History(chain)[k].tx.txid != o.hash
    ensures History(chain)[x].height - History(chain)[i].height >= 15
  {
    hide ChainConnects, History, LeftOver, LeftValue;
    AllMaySpend(chain, x);
    var hist := History(chain)[..x];
    var c := LeftOverIsLeft(hist, o);
    LeftByLast(hist, o, c);
    assert c == i;
  }

  /** An output spent twice was created anew in between. */
  lemma NoDoubleSpend(chain: seq<Block>, x: nat, y: nat, o: OutPoint)
    requires ChainConnects(chain) && x < y < |History(chain)|
    requires o in History(chain)[x].tx.Spends() && o in History(chain)[y].tx.Spends()
    ensures exists c :: x <= c < y && History(chain)[c].tx.txid == o.hash
  {
    hide ChainConnects, History, LeftOver, LeftValue;
    AllMaySpend(chain, y);
    var c := LeftOverIsLeft(History(chain)[..y], o);
    assert History(chain)[..y][c] == History(chain)[c];
    assert History(chain)[..y][x] == History(chain)[x];
  }

  // ---------- the whole rule ----------

  /** Fees of the transactions of a block, told from the history before it. */
  function FeesLeft(hist: seq<Placed>, txs: seq<Tx>, height: int): int {
    if txs == [] then 0
    else
      var k := |txs| - 1;
      FeesLeft(hist, txs[..k], height) +
      (if txs[k].IsCoinBase() then 0 else LeftValue(hist + PlacedAll(txs[..k], height), txs[k].vin) - SumOuts(txs[k].vout))
  }

  ghost predicate AllMaySpendIn(hist: seq<Placed>, txs: seq<Tx>, height: int) {
    forall j :: 0 <= j < |txs| ==> MaySpend(hist + PlacedAll(txs[..j], height), txs[j], height)
  }

  /** The transactions are accepted one after the other if and only if each may spend what it spends. */
  lemma {:induction false} AcceptedIff(chain: seq<Block>, txs: seq<Tx>)
    requires ChainConnects(chain) && forall i :: 0 <= i < |txs| ==> TxOk(txs[i])
    ensures TxsAccepted(Replay(chain), txs, |chain| + 1) <==> AllMaySpendIn(History(chain), txs, |chain| + 1)
    ensures TxsAccepted(Replay(chain), txs, |chain| + 1) ==>
              && Connects(Replay(chain), txs, |chain| + 1) && AllHaveInputs(Replay(chain), txs, |chain| + 1)
              && Fees(Replay(chain), txs, |chain| + 1) == FeesLeft(History(chain), txs, |chain| + 1)
    decreases |txs|
  {
    hide ChainConnects, Replay, History, LedgerOk, ValuesOk, Total, TxOk, Connects, ConnectAll, MaySpend, InputsOk, LeftValue, Fees,
      AllHaveInputs, AllMaySpendIn;
    var m, hist, h := Replay(chain), History(chain), |chain| + 1;
    AcceptedNone(m, h);
    NoneMaySpend(hist, h);
    if txs != [] {
      var k := |txs| - 1;
      AcceptedIff(chain, txs[..k]);
      MaySpendLast(hist, txs, h);
      if TxsAccepted(m, txs[..k], h) {
        AcceptedLast(chain, txs);
      }
    }
  }

  lemma NoneMaySpend(hist: seq<Placed>, height: int)
    ensures AllMaySpendIn(hist, [], height) && FeesLeft(hist, [], height) == 0
  {
  }

  lemma MaySpendLast(hist: seq<Placed>, txs: seq<Tx>, height: int)
    requires txs != []
    ensures var k := |txs| - 1;
      AllMaySpendIn(hist, txs, height) <==>
        AllMaySpendIn(hist, txs[..k], height) && MaySpend(hist + PlacedAll(txs[..k], height), txs[k], height)
  {
    hide MaySpend;
    var k := |txs| - 1;
    forall j | 0 <= j < k ensures txs[..k][..j] == txs[..j] {
    }
    if AllMaySpendIn(hist, txs[..k], height) {
      forall j | 0 <= j < k ensures MaySpend(hist + PlacedAll(txs[..j], height), txs[j], height) {
        assert MaySpend(hist + PlacedAll(txs[..k][..j], height), txs[..k][j], height);
      }
    }
  }

  lemma AcceptedLast(chain: seq<Block>, txs: seq<Tx>)
    requires ChainConnects(chain) && txs != [] && forall i :: 0 <= i < |txs| ==> TxOk(txs[i])
    requires var k := |txs| - 1;
      && TxsAccepted(Replay(chain), txs[..k], |chain| + 1) && Connects(Replay(chain), txs[..k], |chain| + 1)
      && AllHaveInputs(Replay(chain), txs[..k], |chain| + 1)
    ensures var (k, m, h) := (|txs| - 1, Replay(chain), |chain| + 1);
      var may := MaySpend(History(chain) + PlacedAll(txs[..k], h), txs[k], h);
      && (TxsAccepted(m, txs, h) <==> may)
      && (may ==>
            && Connects(m, txs, h) && AllHaveInputs(m, txs, h)
            && Fees(m, txs, h) == Fees(m, txs[..k], h) +
               (if txs[k].IsCoinBase() then 0
                else LeftValue(History(chain) + PlacedAll(txs[..k], h), txs[k].vin) - SumOuts(txs[k].vout)))
  {
    hide ChainConnects, Replay, History, LedgerOk, ValuesOk, Total, TxOk, ConnectAll, Connects, InputsOk, LeftValue, Fees, AllHaveInputs,
      HaveInputs, ValueIn, SumOuts, UnspentAt, LeftOver, MaySpend, TxsAccepted;
    var k, m, h := |txs| - 1, Replay(chain), |chain| + 1;
    var hist := History(chain) + PlacedAll(txs[..k], h);
    var m1 := ConnectAll(m, txs[..k], h);
    AllOutsOfTxs(txs);
    forall p ensures UnspentAt(m1, p) == LeftOver(hist, p) {
      ReplayOutputs(chain, txs[..k], p);
    }
    InputsOkIff(m1, hist, txs[k], h);
    assert txs[..k + 1] == txs;
    if InputsOk(m1, txs[k], h) {
      TotalWithinSubsidies(chain);
      ConnectAllValues(m, txs[..k], h);
      AcceptNext(m, txs, k, h);
      AcceptedConnects(m, txs, h);
      InputsValue(m1, hist, txs[k], h);
    } else {
      NotAccepted(m, txs, k, h);
    }
  }

  lemma AllOutsOfTxs(txs: seq<Tx>)
    requires forall i :: 0 <= i < |txs| ==> TxOk(txs[i])
    ensures forall k :: 0 <= k <= |txs| ==> AllOutsOk(txs[..k])
  {
    forall i | 0 <= i < |txs| ensures OutsOk(txs[i].vout) {
      TxOkOuts(txs[i]);
    }
  }

  lemma InputsValue(m: View, hist: seq<Placed>, tx: Tx, height: int)
    requires Agrees(m, hist) && InputsOk(m, tx, height)
    ensures HaveInputs(m, tx.Spends()) && (!tx.IsCoinBase() ==> ValueIn(m, tx.Spends()) == LeftValue(hist, tx.vin))
  {
    ValueIsLeftValue(m, hist, tx.Spends());
  }

  /** A block connects on top of a chain if and only if the parts not modelled are fine, its transactions are well
      formed with the first as the only coinbase, under BIP 30 no id has outputs left, each transaction may spend
      what it spends, and the coinbase takes no more than the halved subsidy and the fees. */
  lemma BlockConnectsIff(chain: seq<Block>, b: Block)
    requires ChainConnects(chain)
    ensures var (hist, h) := (History(chain), |chain| + 1);
      BlockConnects(Replay(chain), b, h) <==>
        && b.otherwiseOk && Shaped(b.txs) && (forall i :: 0 <= i < |b.txs| ==> TxOk(b.txs[i]))
        && (b.time > 1349049600 ==> forall i, n :: 0 <= i < |b.txs| && 0 <= n ==> LeftOver(hist, OutPoint(b.txs[i].txid, n)) == None)
        && AllMaySpendIn(hist, b.txs, h)
        && SumOuts(b.txs[0].vout) <= 297_000_000_000 / Pow(2, h / 800_000) + FeesLeft(hist, b.txs, h)
  {
    hide ChainConnects, Replay, History, LeftOver, LedgerOk, TxOk, Connects, Fees, AllHaveInputs, TxsAccepted, AllMaySpendIn, FeesLeft,
      SumOuts, Subsidy, NoneKnown, Pow;
    var hist, h := History(chain), |chain| + 1;
    SubsidyIs(h);
    NoneKnownIff(chain, b.txs);
    if forall i :: 0 <= i < |b.txs| ==> TxOk(b.txs[i]) {
      AcceptedIff(chain, b.txs);
    }
  }

  lemma NoneKnownIff(chain: seq<Block>, txs: seq<Tx>)
    requires ChainConnects(chain)
    ensures NoneKnown(Replay(chain), txs) <==>
            forall i, n :: 0 <= i < |txs| && 0 <= n ==> LeftOver(History(chain), OutPoint(txs[i].txid, n)) == None
  {
    hide ChainConnects, Replay, History, LeftOver, LedgerOk, ValuesOk, Total;
    var m, hist := Replay(chain), History(chain);
    TotalWithinSubsidies(chain);
    AcceptedNone(m, |chain| + 1);
    assert PlacedAll([], |chain| + 1) == [] && hist + [] == hist;
    forall i, n | 0 <= i < |txs| && 0 <= n
      ensures LeftOver(hist, OutPoint(txs[i].txid, n)) == None <==> !Available(m, OutPoint(txs[i].txid, n))
    {
      ReplayOutputs(chain, [], OutPoint(txs[i].txid, n));
    }
    forall i | 0 <= i < |txs| && txs[i].txid in m ensures exists n: nat :: LeftOver(hist, OutPoint(txs[i].txid, n)) != None {
      var n := SomeOutput(m, txs[i].txid);
      assert LeftOver(hist, OutPoint(txs[i].txid, n)) != None;
    }
  }

  lemma SomeOutput(m: View, t: Txid) returns (n: nat)
    requires LedgerOk(m) && t in m
    ensures Available(m, OutPoint(t, n))
  {
    var i :| 0 <= i < |m[t].vout| && !m[t].vout[i].IsNull();
    n := i;
  }

  /** The subsidy is 2970 coins, halved every 800,000 blocks and rounded down. */
  lemma SubsidyIs(height: nat)
    ensures Subsidy(height) == 297_000_000_000 / Pow(2, height / 800_000)
  {
    HalvedIs(height / 800_000);
  }

  lemma {:induction false} HalvedIs(k: nat)
    ensures Halved(k) == 297_000_000_000 / Pow(2, k)
  {
    if k > 0 {
      HalvedIs(k - 1);
      HalfOfQuotient(297_000_000_000, Pow(2, k - 1));
    }
  }

  lemma HalfOfQuotient(n: nat, p: nat)
    requires p > 0
    ensures n / p / 2 == n / (p * 2)
  {
    var q, r := n / p, n % p;
    DivMod(n, p);
    DivMod(q, 2);
    QuotientIs(n, p * 2, q / 2, q % 2 * p + r);
  }

  lemma QuotientIs(n: nat, d: nat, q: nat, r: nat)
    requires d > 0 && n == q * d + r && r < d
    ensures n / d == q
  {
    DivMod(n, d);
    var q', r' := n / d, n % d;
    if q' < q {
      TimesMono(q' + 1, q, d, d);
    } else if q' > q {
      TimesMono(q + 1, q', d, d);
    }
  }

  // ---------- undoing ----------

  /** Putting an output back is clean if and only if, with metadata, nothing of the transaction was left, and
      without, something was, but not this output. If it is clean just this output is there again. */
  lemma UndoOneOutputs(m: View, u: InUndo, o: OutPoint, p: OutPoint)
    requires LedgerOk(m) && !u.txout.IsNull()
    ensures UndoOne(m, u, o).1 <==> if u.height != 0 then o.hash !in m else o.hash in m && !Available(m, o)
    ensures UndoOne(m, u, o).1 ==>
      UnspentAt(UndoOne(m, u, o).0, p) ==
        if p != o then UnspentAt(m, p)
        else if u.height != 0 then Some(Unspent(u.txout, u.coinbase, u.height, u.version))
        else Some(Unspent(u.txout, m[o.hash].coinbase, m[o.hash].height, m[o.hash].version))
  {
    UndoOneClean(m, u, o);
    hide Trim, Padded, LedgerOk, CoinsOk;
    if UndoOne(m, u, o).1 {
      var c1 := if u.height != 0 then Coins(u.coinbase, [], u.height, u.version) else Get(m, o.hash);
      RestoredOutput(m, c1, u.txout, o, p);
    }
  }

  lemma UndoOneClean(m: View, u: InUndo, o: OutPoint)
    requires LedgerOk(m)
    ensures UndoOne(m, u, o).1 <==> if u.height != 0 then o.hash !in m else o.hash in m && !Available(m, o)
  {
    hide Padded, Put;
  }

  lemma RestoredOutput(m: View, c: Coins, out: TxOut, o: OutPoint, p: OutPoint)
    requires !out.IsNull() && !c.IsAvailable(o.n) && (c == Get(m, o.hash) || (o.hash !in m && c.vout == []))
    ensures UnspentAt(Put(m, o.hash, c.(vout := Padded(c.vout, o.n + 1)[o.n := out])), p) ==
            if p == o then Some(Unspent(out, c.coinbase, c.height, c.version)) else UnspentAt(m, p)
  {
    var v := Padded(c.vout, o.n + 1)[o.n := out];
    assert !v[o.n].IsNull();
    assert Trim(v) <= v;
    hide Trim, Padded;
    var m' := Put(m, o.hash, c.(vout := v));
    assert m'[o.hash] == c.(vout := Trim(v));
    if p.hash != o.hash {
      assert Get(m', p.hash) == Get(m, p.hash);
    } else if p != o {
      assert p.n < |v| ==> v[p.n] == if p.n < |c.vout| then c.vout[p.n] else NULL_OUT;
      assert p.n < |v| && !v[p.n].IsNull() ==> p.n < |Trim(v)|;
    }
  }

  /** An output of a record as the comparison sees it: without those that cannot be spent, and with the
      transaction's version if that is negative. */
  function Seen(m: View, tx: Tx, n: nat): Option<Unspent> {
    var u := UnspentAt(m, OutPoint(tx.txid, n));
    if u.Some? && CanBeSpent(u.value.out) then
      Some(u.value.(version := if tx.version < 0 then tx.version else u.value.version))
    else None
  }

  /** Undoing a transaction is clean if and only if its record has exactly the outputs the transaction created and
      none was spent, and all its inputs are put back cleanly. */
  lemma DisconnectCleanIff(m: View, tx: Tx, spends: seq<OutPoint>, us: seq<InUndo>, height: int)
    requires LedgerOk(m) && OutsOk(tx.vout) && height != 0 && |us| == |spends|
    ensures DisconnectTx(m, tx, spends, us, height).1 <==>
            (forall n: nat :: Seen(m, tx, n) == Created(tx, n, height)) && UndoAll(m - {tx.txid}, us, spends).1
  {
    hide UndoAll, SameCoins, FromTx, Trim, ClearedOuts, Created, Seen, LedgerOk;
    var c := Get(m, tx.txid);
    var outs := c.(vout := Trim(ClearedOuts(c.vout)));
    var seen := if tx.version < 0 then outs.(version := tx.version) else outs;
    FromTxVersion(tx, height);
    forall n: nat ensures OutputOf(seen, n) == Seen(m, tx, n) && OutputOf(FromTx(tx, height), n) == Created(tx, n, height) {
      SeenIsOutput(m, tx, n, seen);
      CreatedIsOutput(tx, n, height);
    }
    SeenOk(m, tx, seen);
    FromTxTrimmed(tx, height);
    SameCoinsIff(seen, FromTx(tx, height));
  }

  function OutputOf(c: Coins, n: nat): Option<Unspent> {
    if c.IsAvailable(n) then Some(Unspent(c.vout[n], c.coinbase, c.height, c.version)) else None
  }

  lemma SeenIsOutput(m: View, tx: Tx, n: nat, seen: Coins)
    requires var c := Get(m, tx.txid);
      seen == c.(vout := Trim(ClearedOuts(c.vout)), version := if tx.version < 0 then tx.version else c.version)
    ensures OutputOf(seen, n) == Seen(m, tx, n)
  {
    var cleared := ClearedOuts(Get(m, tx.txid).vout);
    assert Trim(cleared) <= cleared;
    hide Trim, ClearedOuts;
  }

  lemma CreatedIsOutput(tx: Tx, n: nat, height: int)
    ensures OutputOf(FromTx(tx, height), n) == Created(tx, n, height)
  {
    var cleared := ClearedOuts(tx.vout);
    assert Trim(cleared) <= cleared;
    hide Trim, ClearedOuts;
  }

  lemma SeenOk(m: View, tx: Tx, seen: Coins)
    requires LedgerOk(m)
    requires var c := Get(m, tx.txid);
      seen == c.(vout := Trim(ClearedOuts(c.vout)), version := if tx.version < 0 then tx.version else c.version)
    ensures seen.IsTrimmed() && OutsOk(seen.vout)
  {
    var cleared := ClearedOuts(Get(m, tx.txid).vout);
    var kept := Trim(cleared);
    assert forall i :: 0 <= i < |kept| ==> kept[i] == cleared[i];
  }

  lemma FromTxTrimmed(tx: Tx, height: int)
    requires OutsOk(tx.vout)
    ensures FromTx(tx, height).IsTrimmed() && OutsOk(FromTx(tx, height).vout)
  {
    var cleared := ClearedOuts(tx.vout);
    var kept := Trim(cleared);
    assert forall i :: 0 <= i < |kept| ==> kept[i] == cleared[i];
  }

  /** Records are the same if and only if they have the same outputs. */
  lemma SameCoinsIff(a: Coins, b: Coins)
    requires a.IsTrimmed() && b.IsTrimmed() && OutsOk(a.vout) && OutsOk(b.vout)
    ensures SameCoins(a, b) <==> forall n: nat :: OutputOf(a, n) == OutputOf(b, n)
  {
    if forall n: nat :: OutputOf(a, n) == OutputOf(b, n) {
      if a.vout != [] {
        var k := |a.vout| - 1;
        assert OutputOf(a, k) == OutputOf(b, k);
      }
      if b.vout != [] {
        var k := |b.vout| - 1;
        assert OutputOf(a, k) == OutputOf(b, k);
      }
      forall i | 0 <= i < |a.vout| && i < |b.vout| ensures a.vout[i] == b.vout[i] {
        assert OutputOf(a, i) == OutputOf(b, i);
      }
      assert a.vout == b.vout;
    }
    if SameCoins(a, b) {
      forall n: nat ensures OutputOf(a, n) == OutputOf(b, n) {
        assert a.IsPruned() ==> !a.IsAvailable(n);
        assert b.IsPruned() ==> !b.IsAvailable(n);
      }
    }
  }
}
