/** Whole blocks: connecting all transactions in order, disconnecting them in reverse, and why no
    transaction id can occur twice in a block that connects. */
module LedgerBlock {
  import opened Coins
  import opened Ledger

  /** Every transaction finds its inputs in what the ones before it left. */
  predicate Connects(m: View, txs: seq<Tx>, height: int)
    decreases |txs|, 0
  {
    txs == [] ||
    var k := |txs| - 1;
    Connects(m, txs[..k], height) && Spendable(ConnectAll(m, txs[..k], height), txs[k].Spends())
  }

  function ConnectAll(m: View, txs: seq<Tx>, height: int): View
    requires Connects(m, txs, height)
    decreases |txs|, 1
  {
    if txs == [] then m
    else
      var k := |txs| - 1;
      ConnectTx(ConnectAll(m, txs[..k], height), txs[k], height)
  }

  /** The undo records, one list per transaction. */
  function BlockUndos(m: View, txs: seq<Tx>, height: int): (us: seq<seq<InUndo>>)
    requires Connects(m, txs, height)
    ensures |us| == |txs|
    decreases |txs|
  {
    if txs == [] then []
    else
      var k := |txs| - 1;
      BlockUndos(m, txs[..k], height) + [UndosOf(ConnectAll(m, txs[..k], height), txs[k].Spends())]
  }

  /** The first transaction of a block spends nothing, the others spend their inputs. */
  function SpendsAt(txs: seq<Tx>, i: nat): seq<OutPoint>
    requires i < |txs|
  {
    if i == 0 then [] else txs[i].vin
  }

  /** The first transaction, and no other, is a coinbase. */
  predicate Shaped(txs: seq<Tx>) {
    |txs| > 0 && forall i :: 0 <= i < |txs| ==> (txs[i].IsCoinBase() <==> i == 0)
  }

  predicate UndosFit(txs: seq<Tx>, us: seq<seq<InUndo>>) {
    |us| == |txs| && forall i :: 0 <= i < |txs| ==> |us[i]| == |SpendsAt(txs, i)|
  }

  lemma UndosFitPrefix(txs: seq<Tx>, us: seq<seq<InUndo>>, k: nat)
    requires UndosFit(txs, us) && k <= |txs|
    ensures UndosFit(txs[..k], us[..k])
  {
    forall i | 0 <= i < k ensures |us[..k][i]| == |SpendsAt(txs[..k], i)| {
      assert |us[i]| == |SpendsAt(txs, i)|;
    }
  }

  function DisconnectAll(m: View, txs: seq<Tx>, us: seq<seq<InUndo>>, height: int): (View, bool)
    requires UndosFit(txs, us)
    decreases |txs|
  {
    if txs == [] then (m, true)
    else
      var k := |txs| - 1;
      var (m1, clean1) := DisconnectTx(m, txs[k], SpendsAt(txs, k), us[k], height);
      UndosFitPrefix(txs, us, k);
      var (m2, clean2) := DisconnectAll(m1, txs[..k], us[..k], height);
      (m2, clean1 && clean2)
  }

  predicate AllOutsOk(txs: seq<Tx>) {
    forall i :: 0 <= i < |txs| ==> OutsOk(txs[i].vout)
  }

  /** None of the transactions is in the map yet (BIP 30). */
  predicate NoneKnown(m: View, txs: seq<Tx>) {
    forall i :: 0 <= i < |txs| ==> txs[i].txid !in m
  }

  predicate DistinctTxids(txs: seq<Tx>) {
    forall i, j :: 0 <= i < j < |txs| ==> txs[i].txid != txs[j].txid
  }

  function Txids(txs: seq<Tx>): set<Txid> {
    set i | 0 <= i < |txs| :: txs[i].txid
  }

  lemma TxidsSnoc(txs: seq<Tx>)
    requires txs != []
    ensures Txids(txs) == Txids(txs[..|txs| - 1]) + {txs[|txs| - 1].txid}
  {
    var k := |txs| - 1;
    forall t | t in Txids(txs[..k]) ensures t in Txids(txs) {
      var i :| 0 <= i < k && txs[..k][i].txid == t;
      assert txs[i].txid == t;
    }
    forall t | t in Txids(txs) && t != txs[k].txid ensures t in Txids(txs[..k]) {
      var i :| 0 <= i < |txs| && txs[i].txid == t;
      assert txs[..k][i].txid == t;
    }
  }

  lemma {:induction false} ConnectAllKeepsOk(m: View, txs: seq<Tx>, height: int)
    requires LedgerOk(m) && Connects(m, txs, height) && AllOutsOk(txs) && height != 0
    ensures LedgerOk(ConnectAll(m, txs, height))
    ensures ConnectAll(m, txs, height).Keys <= m.Keys + Txids(txs)
    decreases |txs|
  {
    hide LedgerOk, OutsOk, ConnectTx, Txids;
    if txs != [] {
      var k := |txs| - 1;
      ConnectAllKeepsOk(m, txs[..k], height);
      ConnectTxKeepsOk(ConnectAll(m, txs[..k], height), txs[k], height);
      TxidsSnoc(txs);
    }
  }

  lemma {:induction false} BlockUndosSize(m: View, txs: seq<Tx>, height: int, i: nat)
    requires Connects(m, txs, height) && i < |txs|
    ensures |BlockUndos(m, txs, height)[i]| == |txs[i].Spends()|
    decreases |txs|
  {
    hide Spendable, ConnectTx, UndosOf;
    var k := |txs| - 1;
    if i < k {
      BlockUndosSize(m, txs[..k], height, i);
    }
  }

  lemma BlockUndosFit(m: View, txs: seq<Tx>, height: int)
    requires Connects(m, txs, height) && SpendsFit(txs)
    ensures UndosFit(txs, BlockUndos(m, txs, height))
  {
    hide Connects, BlockUndos, ConnectAll;
    forall i | 0 <= i < |txs| ensures |BlockUndos(m, txs, height)[i]| == |SpendsAt(txs, i)| {
      BlockUndosSize(m, txs, height, i);
    }
  }

  lemma LastIsNew(m: View, txs: seq<Tx>)
    requires NoneKnown(m, txs) && DistinctTxids(txs) && txs != []
    ensures txs[|txs| - 1].txid !in m.Keys + Txids(txs[..|txs| - 1])
    ensures NoneKnown(m, txs[..|txs| - 1]) && DistinctTxids(txs[..|txs| - 1])
  {
  }

  /** No transaction takes an id that still has unspent outputs once its own inputs are spent. */
  predicate OverwritesNothing(m: View, txs: seq<Tx>, height: int)
    requires Connects(m, txs, height)
    decreases |txs|
  {
    txs == [] ||
    var k := |txs| - 1;
    && OverwritesNothing(m, txs[..k], height)
    && txs[k].txid !in SpendAll(ConnectAll(m, txs[..k], height), txs[k].Spends())
  }

  /** Each transaction spends as its place in the block says. */
  predicate SpendsFit(txs: seq<Tx>) {
    forall i :: 0 <= i < |txs| ==> SpendsAt(txs, i) == txs[i].Spends()
  }

  lemma SpendsFitPrefix(txs: seq<Tx>, k: nat)
    requires SpendsFit(txs) && k <= |txs|
    ensures SpendsFit(txs[..k])
  {
    forall i | 0 <= i < k ensures SpendsAt(txs[..k], i) == txs[..k][i].Spends() {
      assert SpendsAt(txs, i) == txs[i].Spends();
    }
  }

  /** The last transaction, split off. */
  lemma DisconnectLast(m: View, u: View, txs: seq<Tx>, height: int)
    requires Connects(m, txs, height) && SpendsFit(txs) && txs != []
    ensures var k := |txs| - 1;
      var m1 := ConnectAll(m, txs[..k], height);
      && SpendsFit(txs[..k]) && UndosFit(txs, BlockUndos(m, txs, height)) && UndosFit(txs[..k], BlockUndos(m, txs[..k], height))
      && var (u1, clean1) := DisconnectTx(u, txs[k], txs[k].Spends(), UndosOf(m1, txs[k].Spends()), height);
      var (u2, clean2) := DisconnectAll(u1, txs[..k], BlockUndos(m, txs[..k], height), height);
      DisconnectAll(u, txs, BlockUndos(m, txs, height), height) == (u2, clean1 && clean2)
  {
    hide DisconnectTx, ConnectTx, UndosOf, Spendable, UndosFit, SpendsFit;
    var k := |txs| - 1;
    SpendsFitPrefix(txs, k);
    BlockUndosFit(m, txs, height);
    BlockUndosFit(m, txs[..k], height);
    LastSpends(txs);
    assert BlockUndos(m, txs, height)[..k] == BlockUndos(m, txs[..k], height);
  }

  lemma LastSpends(txs: seq<Tx>)
    requires SpendsFit(txs) && txs != []
    ensures SpendsAt(txs, |txs| - 1) == txs[|txs| - 1].Spends()
  {
  }

  /** Disconnecting a block that overwrites nothing, with the undo data recorded while connecting it, restores
      the map exactly and reports clean, also when transactions of the block spend each other's outputs. */
  lemma {:induction false} NoOverwriteInverts(m: View, txs: seq<Tx>, height: int)
    requires LedgerOk(m) && Connects(m, txs, height) && AllOutsOk(txs) && height != 0 && SpendsFit(txs)
    requires OverwritesNothing(m, txs, height)
    ensures UndosFit(txs, BlockUndos(m, txs, height))
    ensures DisconnectAll(ConnectAll(m, txs, height), txs, BlockUndos(m, txs, height), height) == (m, true)
    decreases |txs|
  {
    hide LedgerOk, OutsOk, DisconnectTx, ConnectTx, UndosOf, Spendable, UndosFit, SpendsFit, SpendAll;
    BlockUndosFit(m, txs, height);
    if txs != [] {
      var k := |txs| - 1;
      DisconnectLast(m, ConnectAll(m, txs, height), txs, height);
      ConnectAllKeepsOk(m, txs[..k], height);
      DisconnectTxInverts(ConnectAll(m, txs[..k], height), txs[k], height);
      NoOverwriteInverts(m, txs[..k], height);
    }
  }

  /** If an output that is there after some transactions is missing when their undoing begins, then it is not
      clean or does not end where it should. If no transaction of the block has that output's id, it ends wrong. */
  lemma {:induction false} MissingShows(m: View, u: View, txs: seq<Tx>, height: int, p: OutPoint)
    requires LedgerOk(m) && Connects(m, txs, height) && AllOutsOk(txs) && height != 0 && SpendsFit(txs)
    requires Available(ConnectAll(m, txs, height), p) && !Available(u, p)
    ensures UndosFit(txs, BlockUndos(m, txs, height))
    ensures DisconnectAll(u, txs, BlockUndos(m, txs, height), height) != (m, true)
    ensures p.hash !in Txids(txs) ==> DisconnectAll(u, txs, BlockUndos(m, txs, height), height).0 != m
    decreases |txs|
  {
    hide LedgerOk, OutsOk, DisconnectTx, ConnectTx, UndosOf, Spendable, UndosFit, SpendsFit, SpendAll, Available, Txids;
    BlockUndosFit(m, txs, height);
    if txs != [] {
      var k := |txs| - 1;
      var tx, m1 := txs[k], ConnectAll(m, txs[..k], height);
      var us := UndosOf(m1, tx.Spends());
      DisconnectLast(m, u, txs, height);
      ConnectAllKeepsOk(m, txs[..k], height);
      TxidsSnoc(txs);
      if p.hash == tx.txid {
        CreatedIsAvailable(m1, tx, height, p);
        MissingOutputIsUnclean(u, tx, tx.Spends(), us, height, p);
      } else {
        ConnectTxAvailable(m1, tx, height, p);
        var u1 := DisconnectTx(u, tx, tx.Spends(), us, height).0;
        if Available(u1, p) {
          DisconnectTxAvailable(u, tx, tx.Spends(), us, height, p);
        }
        MissingShows(m, u1, txs[..k], height, p);
      }
    }
  }

  lemma {:induction false} OverwriteShows(m: View, txs: seq<Tx>, height: int)
    requires LedgerOk(m) && Connects(m, txs, height) && AllOutsOk(txs) && height != 0 && SpendsFit(txs)
    requires !OverwritesNothing(m, txs, height)
    ensures UndosFit(txs, BlockUndos(m, txs, height))
    ensures DisconnectAll(ConnectAll(m, txs, height), txs, BlockUndos(m, txs, height), height) != (m, true)
    ensures DistinctTxids(txs) ==> DisconnectAll(ConnectAll(m, txs, height), txs, BlockUndos(m, txs, height), height).0 != m
    decreases |txs|
  {
    hide LedgerOk, OutsOk, DisconnectTx, ConnectTx, UndosOf, Spendable, UndosFit, SpendsFit, SpendAll, Available, Txids, DistinctTxids;
    BlockUndosFit(m, txs, height);
    if txs != [] {
      var k := |txs| - 1;
      var m1 := ConnectAll(m, txs[..k], height);
      DisconnectLast(m, ConnectAll(m, txs, height), txs, height);
      ConnectAllKeepsOk(m, txs[..k], height);
      DistinctPrefix(txs);
      if txs[k].txid in SpendAll(m1, txs[k].Spends()) {
        var p := OverwriteLoses(m1, txs[k], height);
        MissingShows(m, DisconnectTx(ConnectAll(m, txs, height), txs[k], txs[k].Spends(), UndosOf(m1, txs[k].Spends()), height).0,
                     txs[..k], height, p);
      } else {
        DisconnectTxInverts(m1, txs[k], height);
        OverwriteShows(m, txs[..k], height);
      }
    }
  }

  lemma DistinctPrefix(txs: seq<Tx>)
    requires txs != []
    ensures DistinctTxids(txs) ==> DistinctTxids(txs[..|txs| - 1]) && txs[|txs| - 1].txid !in Txids(txs[..|txs| - 1])
  {
  }

  /** Disconnecting a block restores the map and reports clean if and only if it overwrites nothing; and if its
      ids are distinct, that is also when the map is restored. */
  lemma BlockRestoredIff(m: View, txs: seq<Tx>, height: int)
    requires LedgerOk(m) && Connects(m, txs, height) && AllOutsOk(txs) && height != 0 && SpendsFit(txs)
    ensures UndosFit(txs, BlockUndos(m, txs, height))
    ensures var r := DisconnectAll(ConnectAll(m, txs, height), txs, BlockUndos(m, txs, height), height);
      && (r == (m, true) <==> OverwritesNothing(m, txs, height))
      && (DistinctTxids(txs) ==> (r.0 == m <==> OverwritesNothing(m, txs, height)))
  {
    hide LedgerOk, AllOutsOk, Connects, ConnectAll, BlockUndos, DisconnectAll, UndosFit, SpendsFit, DistinctTxids;
    if OverwritesNothing(m, txs, height) {
      NoOverwriteInverts(m, txs, height);
    } else {
      OverwriteShows(m, txs, height);
    }
  }

  lemma {:induction false} NewIdsOverwriteNothing(m: View, txs: seq<Tx>, height: int)
    requires LedgerOk(m) && Connects(m, txs, height) && AllOutsOk(txs) && height != 0
    requires NoneKnown(m, txs) && DistinctTxids(txs)
    ensures OverwritesNothing(m, txs, height)
    decreases |txs|
  {
    hide LedgerOk, OutsOk, ConnectTx, Spendable, Txids, NoneKnown, DistinctTxids;
    if txs != [] {
      var k := |txs| - 1;
      LastIsNew(m, txs);
      ConnectAllKeepsOk(m, txs[..k], height);
      SpendAllKeepsOk(ConnectAll(m, txs[..k], height), txs[k].Spends());
      NewIdsOverwriteNothing(m, txs[..k], height);
    }
  }

  /** In particular a block with distinct ids, none of them in use, is undone exactly. */
  lemma DisconnectInverts(m: View, txs: seq<Tx>, height: int)
    requires LedgerOk(m) && Connects(m, txs, height) && AllOutsOk(txs) && height != 0
    requires NoneKnown(m, txs) && DistinctTxids(txs) && SpendsFit(txs)
    ensures UndosFit(txs, BlockUndos(m, txs, height))
    ensures DisconnectAll(ConnectAll(m, txs, height), txs, BlockUndos(m, txs, height), height) == (m, true)
  {
    hide LedgerOk, AllOutsOk, Connects, ConnectAll, BlockUndos, DisconnectAll, UndosFit, SpendsFit, DistinctTxids, NoneKnown;
    NewIdsOverwriteNothing(m, txs, height);
    NoOverwriteInverts(m, txs, height);
  }

  // ---------- no transaction twice ----------

  /** An id stands for one list of inputs. */
  predicate IdsFixInputs(txs: seq<Tx>) {
    forall i, j :: 0 <= i < |txs| && 0 <= j < |txs| && txs[i].txid == txs[j].txid ==> txs[i].vin == txs[j].vin
  }

  /** Every output spent by a transaction of the block belongs to something older, and is gone. */
  ghost predicate SpentForGood(m: View, m': View, txs: seq<Tx>) {
    forall i, o :: 0 <= i < |txs| && o in txs[i].Spends() ==> !Available(m', o) && o.hash in m.Keys + Txids(txs)
  }

  lemma ConnectTxAvailable(m: View, tx: Tx, height: int, p: OutPoint)
    requires LedgerOk(m) && Spendable(m, tx.Spends()) && p.hash != tx.txid
    ensures Available(ConnectTx(m, tx, height), p) <==> Available(m, p) && p !in tx.Spends()
  {
    SpendAllUnavailable(m, tx.Spends(), p);
  }

  lemma {:induction false} SpentStaysSpent(m: View, txs: seq<Tx>, height: int)
    requires LedgerOk(m) && Connects(m, txs, height) && AllOutsOk(txs) && height != 0
    requires NoneKnown(m, txs) && DistinctTxids(txs)
    ensures SpentForGood(m, ConnectAll(m, txs, height), txs)
    decreases |txs|
  {
    hide LedgerOk, OutsOk, ConnectTx, Available, Spendable, Txids, NoneKnown, DistinctTxids;
    if txs != [] {
      var k := |txs| - 1;
      var m1 := ConnectAll(m, txs[..k], height);
      ConnectAllKeepsOk(m, txs[..k], height);
      LastIsNew(m, txs);
      SpentStaysSpent(m, txs[..k], height);
      TxidsSnoc(txs);
      forall i, o | 0 <= i < |txs| && o in txs[i].Spends()
        ensures !Available(ConnectAll(m, txs, height), o) && o.hash in m.Keys + Txids(txs)
      {
        if i == k {
          SpentIsKnown(m1, txs[k], o);
        } else {
          assert txs[..k][i] == txs[i];
        }
        ConnectTxAvailable(m1, txs[k], height, o);
      }
    }
  }

  lemma SpentIsKnown(m: View, tx: Tx, o: OutPoint)
    requires LedgerOk(m) && Spendable(m, tx.Spends()) && o in tx.Spends()
    ensures o.hash in m && Available(m, o)
  {
    SpendAllUnavailable(m, tx.Spends(), o);
  }

  /** In a block that connects, no transaction occurs twice: the second occurrence would need an output that
      the first one spent. Nothing checks for this directly. */
  lemma {:induction false} ConnectedTxidsDistinct(m: View, txs: seq<Tx>, height: int)
    requires LedgerOk(m) && Connects(m, txs, height) && AllOutsOk(txs) && height != 0
    requires NoneKnown(m, txs) && IdsFixInputs(txs)
    requires forall i :: 0 <= i < |txs| ==> (txs[i].IsCoinBase() <==> i == 0) && txs[i].vin != []
    ensures DistinctTxids(txs)
    decreases |txs|
  {
    hide LedgerOk, OutsOk, ConnectTx, Available, Spendable, Txids, ConnectAll;
    if txs != [] {
      var k := |txs| - 1;
      ConnectedTxidsDistinct(m, txs[..k], height);
      SpentStaysSpent(m, txs[..k], height);
      ConnectAllKeepsOk(m, txs[..k], height);
      forall i | 0 <= i < k ensures txs[i].txid != txs[k].txid {
        if txs[i].txid == txs[k].txid {
          var o := txs[k].vin[0];
          assert txs[k].Spends() == txs[k].vin == txs[i].vin;
          assert txs[..k][i].Spends() == txs[i].vin;
          SpentIsKnown(ConnectAll(m, txs[..k], height), txs[k], o);
        }
      }
    }
  }
}
