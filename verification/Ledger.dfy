/** Applying a block's transactions to the map of unspent outputs, and undoing them again with the
    undo records kept on the way. */
module Ledger {
  import opened Coins

  datatype OutPoint = OutPoint(hash: Txid, n: nat)

  const NULL_OUTPOINT: OutPoint := OutPoint(0, 0xffff_ffff)

  datatype Tx = Tx(txid: Txid, version: int, vin: seq<OutPoint>, vout: seq<TxOut>)
  {
    predicate IsCoinBase() {
      |vin| == 1 && vin[0] == NULL_OUTPOINT
    }

    /** The outputs this transaction spends. */
    function Spends(): seq<OutPoint> {
      if IsCoinBase() then [] else vin
    }
  }

  /** A spent output, with the transaction's metadata if it was the last one; height 0 says it was not. */
  datatype InUndo = InUndo(txout: TxOut, coinbase: bool, height: int, version: int)

  // ---------- records in canonical form ----------

  /** Spent outputs carry no script. */
  predicate OutsOk(vout: seq<TxOut>) {
    forall i :: 0 <= i < |vout| && vout[i].IsNull() ==> vout[i] == NULL_OUT
  }

  predicate CoinsOk(c: Coins) {
    c.IsTrimmed() && !c.IsPruned() && OutsOk(c.vout) && c.height != 0
  }

  predicate LedgerOk(m: View) {
    forall t :: t in m ==> CoinsOk(m[t])
  }

  // ---------- spending ----------

  function ClearedOuts(vout: seq<TxOut>): (r: seq<TxOut>)
    ensures |r| == |vout|
    ensures forall i :: 0 <= i < |vout| ==> r[i] == (if vout[i].IsUnspendable() then NULL_OUT else vout[i])
  {
    seq(|vout|, i requires 0 <= i < |vout| => if vout[i].IsUnspendable() then NULL_OUT else vout[i])
  }

  /** The record a transaction leaves: unspendable outputs count as spent from the start. */
  function FromTx(tx: Tx, height: int): Coins {
    Coins(tx.IsCoinBase(), Trim(ClearedOuts(tx.vout)), height, tx.version)
  }

  /** An output that a later transaction may spend: one that exists and whose script does not begin with the
      opcode that makes every script fail. */
  predicate CanBeSpent(o: TxOut) {
    o.value != -1 && !(|o.script| > 0 && o.script[0] == 0x6a)
  }

  function Spent(c: Coins, n: nat): Coins
    requires n < |c.vout|
  {
    c.(vout := Trim(c.vout[n := NULL_OUT]))
  }

  predicate Available(m: View, o: OutPoint) {
    Get(m, o.hash).IsAvailable(o.n)
  }

  function SpendOne(m: View, o: OutPoint): View
    requires Available(m, o)
  {
    Put(m, o.hash, Spent(Get(m, o.hash), o.n))
  }

  function UndoOf(m: View, o: OutPoint): InUndo
    requires Available(m, o)
  {
    var c := Get(m, o.hash);
    if Spent(c, o.n).vout == [] then InUndo(c.vout[o.n], c.coinbase, c.height, c.version)
    else InUndo(c.vout[o.n], false, 0, 0)
  }

  /** All outputs of a list can be spent one after the other. */
  predicate Spendable(m: View, outs: seq<OutPoint>)
    decreases |outs|
  {
    outs == [] || (Available(m, outs[0]) && Spendable(SpendOne(m, outs[0]), outs[1..]))
  }

  function SpendAll(m: View, outs: seq<OutPoint>): View
    requires Spendable(m, outs)
    decreases |outs|
  {
    if outs == [] then m else SpendAll(SpendOne(m, outs[0]), outs[1..])
  }

  function UndosOf(m: View, outs: seq<OutPoint>): (r: seq<InUndo>)
    requires Spendable(m, outs)
    ensures |r| == |outs|
    decreases |outs|
  {
    if outs == [] then [] else [UndoOf(m, outs[0])] + UndosOf(SpendOne(m, outs[0]), outs[1..])
  }

  function ConnectTx(m: View, tx: Tx, height: int): View
    requires Spendable(m, tx.Spends())
  {
    Put(SpendAll(m, tx.Spends()), tx.txid, FromTx(tx, height))
  }

  // ---------- undoing ----------

  function Padded(vout: seq<TxOut>, n: nat): (r: seq<TxOut>)
    ensures |r| == (if |vout| < n then n else |vout|)
    ensures forall i :: 0 <= i < |r| ==> r[i] == (if i < |vout| then vout[i] else NULL_OUT)
  {
    if |vout| < n then vout + seq(n - |vout|, _ => NULL_OUT) else vout
  }

  /** Puts one spent output back; clean unless the record contradicts the undo data. */
  function UndoOne(m: View, u: InUndo, o: OutPoint): (View, bool) {
    var c := Get(m, o.hash);
    var clean1 := if u.height != 0 then c.IsPruned() else !c.IsPruned();
    var c1 := if u.height != 0 then Coins(u.coinbase, [], u.height, u.version) else c;
    var clean2 := !c1.IsAvailable(o.n);
    (Put(m, o.hash, c1.(vout := Padded(c1.vout, o.n + 1)[o.n := u.txout])), clean1 && clean2)
  }

  /** Undoes a list of spends, last first. */
  function UndoAll(m: View, us: seq<InUndo>, outs: seq<OutPoint>): (View, bool)
    requires |us| == |outs|
    decreases |outs|
  {
    if outs == [] then (m, true)
    else
      var k := |outs| - 1;
      var (m1, clean1) := UndoOne(m, us[k], outs[k]);
      var (m2, clean2) := UndoAll(m1, us[..k], outs[..k]);
      (m2, clean1 && clean2)
  }

  /** Equality of records: two pruned ones are equal whatever else they hold. */
  predicate SameCoins(a: Coins, b: Coins) {
    (a.IsPruned() && b.IsPruned()) || a == b
  }

  /** Removes a transaction's outputs, which should be exactly those it created, and puts back what it spent. */
  function DisconnectTx(m: View, tx: Tx, spends: seq<OutPoint>, us: seq<InUndo>, height: int): (View, bool)
    requires |us| == |spends|
  {
    var outs := Get(m, tx.txid);
    var outs1 := outs.(vout := Trim(ClearedOuts(outs.vout)));
    var expected := FromTx(tx, height);
    var outs2 := if expected.version < 0 then outs1.(version := expected.version) else outs1;
    var (m1, clean) := UndoAll(m - {tx.txid}, us, spends);
    (m1, SameCoins(outs2, expected) && clean)
  }

  // ---------- undo inverts spending ----------

  lemma SpentShape(c: Coins, n: nat)
    requires CoinsOk(c) && c.IsAvailable(n)
    ensures Spent(c, n).IsTrimmed() && OutsOk(Spent(c, n).vout)
    ensures Spent(c, n).IsPruned() <==> Spent(c, n).vout == []
    ensures |Spent(c, n).vout| <= n ==> |c.vout| == n + 1
    ensures Padded(Spent(c, n).vout, n + 1)[n := c.vout[n]] == c.vout
    ensures !Spent(c, n).IsAvailable(n) && Spent(c, n) == c.(vout := Spent(c, n).vout)
  {
    var v := c.vout[n := NULL_OUT];
    var v' := Trim(v);
    assert v' <= v;
    assert forall i :: 0 <= i < |v'| ==> v'[i] == v[i];
  }

  lemma SpendKeepsOk(m: View, o: OutPoint)
    requires LedgerOk(m) && Available(m, o)
    ensures LedgerOk(SpendOne(m, o))
    ensures SpendOne(m, o).Keys <= m.Keys
  {
    SpentShape(m[o.hash], o.n);
  }

  /** Undoing one spend restores the map exactly, and reports clean. */
  lemma UndoOneInverts(m: View, o: OutPoint)
    requires LedgerOk(m) && Available(m, o)
    ensures UndoOne(SpendOne(m, o), UndoOf(m, o), o) == (m, true)
  {
    SpendOneShape(m, o);
    hide Trim, Spent, Padded, OutsOk, LedgerOk, CoinsOk, SpendOne, Put;
    var c := m[o.hash];
    SpentShape(c, o.n);
    PutBack(m, SpendOne(m, o), o.hash);
    var before := Spent(c, o.n).vout;
    assert c.(vout := Padded(before, o.n + 1)[o.n := c.vout[o.n]]) == c;
    HeightNotZero(c);
  }

  lemma HeightNotZero(c: Coins)
    requires CoinsOk(c)
    ensures c.height != 0
  {
  }

  /** Only the record of the spent output changes, and it goes when its last output does. */
  lemma SpendOneShape(m: View, o: OutPoint)
    requires LedgerOk(m) && Available(m, o)
    ensures o.hash in m && CoinsOk(m[o.hash]) && SpendOne(m, o) - {o.hash} == m - {o.hash}
    ensures Get(SpendOne(m, o), o.hash) == (if Spent(m[o.hash], o.n).vout == [] then EMPTY_COINS else Spent(m[o.hash], o.n))
  {
    hide Trim, OutsOk;
    SpentShape(m[o.hash], o.n);
    hide Spent;
  }

  lemma PutBack(m: View, m': View, t: Txid)
    requires t in m && CoinsOk(m[t]) && m' - {t} == m - {t}
    ensures Put(m', t, m[t]) == m
  {
    hide Trim, OutsOk;
    var r := Put(m', t, m[t]);
    forall u | u != t ensures (u in r <==> u in m) && (u in m ==> r[u] == m[u]) {
      assert (u in m' <==> u in m' - {t}) && (u in m <==> u in m - {t});
    }
  }

  lemma {:induction false} SpendAllKeepsOk(m: View, outs: seq<OutPoint>)
    requires LedgerOk(m) && Spendable(m, outs)
    ensures LedgerOk(SpendAll(m, outs)) && SpendAll(m, outs).Keys <= m.Keys
    decreases |outs|
  {
    if outs != [] {
      SpendKeepsOk(m, outs[0]);
      SpendAllKeepsOk(SpendOne(m, outs[0]), outs[1..]);
    }
  }

  /** The last spend of a list, split off. */
  lemma {:induction false} SpendLast(m: View, outs: seq<OutPoint>)
    requires Spendable(m, outs) && outs != []
    ensures var k := |outs| - 1;
      && Spendable(m, outs[..k]) && Available(SpendAll(m, outs[..k]), outs[k])
      && SpendAll(m, outs) == SpendOne(SpendAll(m, outs[..k]), outs[k])
      && UndosOf(m, outs) == UndosOf(m, outs[..k]) + [UndoOf(SpendAll(m, outs[..k]), outs[k])]
    decreases |outs|
  {
    hide SpendOne, UndoOf, Available;
    var k := |outs| - 1;
    if k == 0 {
      assert outs[..0] == [] && outs[1..] == [];
    } else {
      SpendLast(SpendOne(m, outs[0]), outs[1..]);
      assert outs[1..][..k - 1] == outs[..k][1..] && outs[..k][0] == outs[0];
    }
  }

  lemma {:induction false} UndoAllInverts(m: View, outs: seq<OutPoint>)
    requires LedgerOk(m) && Spendable(m, outs)
    ensures UndoAll(SpendAll(m, outs), UndosOf(m, outs), outs) == (m, true)
    decreases |outs|
  {
    hide SpendOne, UndoOne, UndoOf, LedgerOk, Available;
    if outs != [] {
      var k := |outs| - 1;
      SpendLast(m, outs);
      SpendAllKeepsOk(m, outs[..k]);
      UndoOneInverts(SpendAll(m, outs[..k]), outs[k]);
      UndoAllInverts(m, outs[..k]);
      assert UndosOf(m, outs)[..k] == UndosOf(m, outs[..k]);
    }
  }

  lemma ClearedTwice(vout: seq<TxOut>)
    ensures Trim(ClearedOuts(Trim(ClearedOuts(vout)))) == Trim(ClearedOuts(vout))
  {
    var v := Trim(ClearedOuts(vout));
    assert v <= ClearedOuts(vout);
    assert ClearedOuts(v) == v;
  }

  lemma FromTxOk(tx: Tx, height: int)
    requires OutsOk(tx.vout) && height != 0
    ensures FromTx(tx, height).IsPruned() || CoinsOk(FromTx(tx, height))
  {
    var cleared := ClearedOuts(tx.vout);
    var kept := Trim(cleared);
    assert forall i :: 0 <= i < |kept| ==> kept[i] == cleared[i];
    assert OutsOk(kept);
  }

  lemma ConnectTxKeepsOk(m: View, tx: Tx, height: int)
    requires LedgerOk(m) && Spendable(m, tx.Spends()) && OutsOk(tx.vout) && height != 0
    ensures LedgerOk(ConnectTx(m, tx, height)) && ConnectTx(m, tx, height).Keys <= m.Keys + {tx.txid}
  {
    SpendAllKeepsOk(m, tx.Spends());
    FromTxOk(tx, height);
  }

  /** The record a transaction just left is recognised when it is undone. */
  lemma OutputsMatch(m: View, tx: Tx, height: int)
    requires OutsOk(tx.vout) && height != 0
    ensures var outs := Get(Put(m, tx.txid, FromTx(tx, height)), tx.txid);
      SameCoins(outs.(vout := Trim(ClearedOuts(outs.vout))), FromTx(tx, height))
    ensures tx.version < 0 ==>
      var outs := Get(Put(m, tx.txid, FromTx(tx, height)), tx.txid);
      SameCoins(outs.(vout := Trim(ClearedOuts(outs.vout)), version := tx.version), FromTx(tx, height))
  {
    FromTxOk(tx, height);
    ClearedTwice(tx.vout);
    assert Trim(ClearedOuts([])) == [];
    assert Trimmed(FromTx(tx, height)) == FromTx(tx, height);
  }

  /** Undoing a transaction that overwrites nothing restores the map exactly, and reports clean. */
  lemma DisconnectTxInverts(m: View, tx: Tx, height: int)
    requires LedgerOk(m) && Spendable(m, tx.Spends()) && OutsOk(tx.vout) && height != 0
    requires tx.txid !in SpendAll(m, tx.Spends())
    ensures DisconnectTx(ConnectTx(m, tx, height), tx, tx.Spends(), UndosOf(m, tx.Spends()), height) == (m, true)
  {
    hide UndoAll, SpendAll, Spendable, UndosOf, SameCoins, FromTx, LedgerOk;
    var m1 := SpendAll(m, tx.Spends());
    SpendAllKeepsOk(m, tx.Spends());
    OutputsMatch(m1, tx, height);
    assert ConnectTx(m, tx, height) - {tx.txid} == m1;
    UndoAllInverts(m, tx.Spends());
    FromTxVersion(tx, height);
  }

  lemma FromTxVersion(tx: Tx, height: int)
    ensures FromTx(tx, height).version == tx.version
  {
  }

  // ---------- and only then ----------

  lemma UndoOneAvailable(m: View, u: InUndo, o: OutPoint, p: OutPoint)
    requires p != o && Available(UndoOne(m, u, o).0, p)
    ensures Available(m, p)
  {
    var c := Get(m, o.hash);
    var c1 := if u.height != 0 then Coins(u.coinbase, [], u.height, u.version) else c;
    var v := Padded(c1.vout, o.n + 1)[o.n := u.txout];
    assert Trim(v) <= v;
  }

  /** Undoing spends makes nothing available but the outputs spent. */
  lemma {:induction false} UndoAllAvailable(m: View, us: seq<InUndo>, outs: seq<OutPoint>, p: OutPoint)
    requires |us| == |outs| && p !in outs && Available(UndoAll(m, us, outs).0, p)
    ensures Available(m, p)
    decreases |outs|
  {
    if outs != [] {
      var k := |outs| - 1;
      var m1 := UndoOne(m, us[k], outs[k]).0;
      UndoAllAvailable(m1, us[..k], outs[..k], p);
      UndoOneAvailable(m, us[k], outs[k], p);
    }
  }

  lemma SpendKeepsUnavailable(m: View, o: OutPoint, p: OutPoint)
    requires LedgerOk(m) && Available(m, o)
    ensures Available(SpendOne(m, o), p) <==> Available(m, p) && p != o
  {
    SpentShape(m[o.hash], o.n);
    var c := m[o.hash];
    var v := c.vout[o.n := NULL_OUT];
    assert Trim(v) <= v;
    if p.hash == o.hash && p.n < |c.vout| && p.n != o.n && !c.vout[p.n].IsNull() {
      assert v[p.n] == c.vout[p.n];
      assert p.n < |Trim(v)|;
    }
  }

  /** Spending a list makes exactly the listed outputs unavailable. */
  lemma {:induction false} SpendAllUnavailable(m: View, outs: seq<OutPoint>, p: OutPoint)
    requires LedgerOk(m) && Spendable(m, outs)
    ensures Available(SpendAll(m, outs), p) <==> Available(m, p) && p !in outs
    ensures p in outs ==> Available(m, p)
    decreases |outs|
  {
    if outs != [] {
      SpendKeepsOk(m, outs[0]);
      SpendKeepsUnavailable(m, outs[0], p);
      SpendAllUnavailable(SpendOne(m, outs[0]), outs[1..], p);
      assert p in outs <==> p == outs[0] || p in outs[1..];
    }
  }

  /** Undoing a transaction removes its own outputs and makes nothing available but its inputs. */
  lemma DisconnectTxAvailable(m: View, tx: Tx, spends: seq<OutPoint>, us: seq<InUndo>, height: int, p: OutPoint)
    requires |us| == |spends| && p !in spends && Available(DisconnectTx(m, tx, spends, us, height).0, p)
    ensures Available(m, p) && p.hash != tx.txid
  {
    hide UndoAll, SameCoins, FromTx;
    UndoAllAvailable(m - {tx.txid}, us, spends, p);
  }

  /** A transaction that overwrites unspent outputs: one of them is gone when it has been undone. */
  lemma OverwriteLoses(m: View, tx: Tx, height: int) returns (p: OutPoint)
    requires LedgerOk(m) && Spendable(m, tx.Spends()) && tx.txid in SpendAll(m, tx.Spends())
    ensures p.hash == tx.txid && Available(m, p)
    ensures !Available(DisconnectTx(ConnectTx(m, tx, height), tx, tx.Spends(), UndosOf(m, tx.Spends()), height).0, p)
  {
    hide UndoAll, SpendAll, Spendable, UndosOf, SameCoins, FromTx, DisconnectTx;
    var outs, m1 := tx.Spends(), SpendAll(m, tx.Spends());
    SpendAllKeepsOk(m, outs);
    var n :| 0 <= n < |m1[tx.txid].vout| && !m1[tx.txid].vout[n].IsNull();
    p := OutPoint(tx.txid, n);
    assert Available(m1, p);
    SpendAllUnavailable(m, outs, p);
    if Available(DisconnectTx(ConnectTx(m, tx, height), tx, outs, UndosOf(m, outs), height).0, p) {
      DisconnectTxAvailable(ConnectTx(m, tx, height), tx, outs, UndosOf(m, outs), height, p);
    }
  }

  /** Connecting and undoing a transaction restores the map if and only if its id was not in use by a
      transaction that still has unspent outputs once its own inputs are spent. */
  lemma UndoRestoresIff(m: View, tx: Tx, height: int)
    requires LedgerOk(m) && Spendable(m, tx.Spends()) && OutsOk(tx.vout) && height != 0
    ensures DisconnectTx(ConnectTx(m, tx, height), tx, tx.Spends(), UndosOf(m, tx.Spends()), height).0 == m <==>
            tx.txid !in SpendAll(m, tx.Spends())
  {
    hide SpendAll, Spendable, UndosOf, DisconnectTx, ConnectTx, Available, LedgerOk;
    if tx.txid !in SpendAll(m, tx.Spends()) {
      DisconnectTxInverts(m, tx, height);
    } else {
      var p := OverwriteLoses(m, tx, height);
    }
  }

  /** Undoing a transaction one of whose unspent outputs is not there any more is reported as not clean. */
  lemma MissingOutputIsUnclean(m: View, tx: Tx, spends: seq<OutPoint>, us: seq<InUndo>, height: int, p: OutPoint)
    requires |us| == |spends| && p.hash == tx.txid && FromTx(tx, height).IsAvailable(p.n) && !Available(m, p)
    ensures !DisconnectTx(m, tx, spends, us, height).1
  {
    hide UndoAll, FromTx;
    var outs := Get(m, tx.txid);
    var v := ClearedOuts(outs.vout);
    assert Trim(v) <= v;
    assert !(p.n < |Trim(v)| && !Trim(v)[p.n].IsNull());
  }

  lemma CreatedIsAvailable(m: View, tx: Tx, height: int, p: OutPoint)
    requires Spendable(m, tx.Spends()) && p.hash == tx.txid && Available(ConnectTx(m, tx, height), p)
    ensures FromTx(tx, height).IsAvailable(p.n)
  {
    hide SpendAll, Spendable;
    var c := FromTx(tx, height);
    assert Trim(c.vout) <= c.vout;
  }
}
