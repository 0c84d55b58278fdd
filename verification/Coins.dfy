/** The unspent outputs of one transaction, and a plain map of them: the simple meaning that the
    layered cache implements and the ledger works on. */
module Coins {
  type Txid = nat

  type Script = seq<nat>

  const OP_RETURN: nat := 0x6a

  datatype TxOut = TxOut(value: int, script: Script)
  {
    predicate IsNull() {
      value == -1
    }

    predicate IsUnspendable() {
      |script| > 0 && script[0] == OP_RETURN
    }
  }

  const NULL_OUT: TxOut := TxOut(-1, [])

  datatype Coins = Coins(coinbase: bool, vout: seq<TxOut>, height: int, version: int)
  {
    predicate IsPruned() {
      forall i :: 0 <= i < |vout| ==> vout[i].IsNull()
    }

    predicate IsAvailable(n: nat) {
      n < |vout| && !vout[n].IsNull()
    }

    /** No spent outputs at the end. */
    predicate IsTrimmed() {
      |vout| > 0 ==> !vout[|vout| - 1].IsNull()
    }
  }

  const EMPTY_COINS: Coins := Coins(false, [], 0, 0)

  /** Spent outputs at the end are dropped. */
  function Trim(vout: seq<TxOut>): (r: seq<TxOut>)
    ensures r <= vout
    ensures |r| > 0 ==> !r[|r| - 1].IsNull()
    ensures forall i :: |r| <= i < |vout| ==> vout[i].IsNull()
  {
    if |vout| > 0 && vout[|vout| - 1].IsNull() then Trim(vout[..|vout| - 1]) else vout
  }

  method Cleanup(vout: seq<TxOut>) returns (r: seq<TxOut>)
    ensures r == Trim(vout)
  {
    r := vout;
    while |r| > 0 && r[|r| - 1].IsNull()
      invariant Trim(r) == Trim(vout)
      decreases |r|
    {
      r := r[..|r| - 1];
    }
  }

  function Trimmed(c: Coins): (r: Coins)
    ensures r.IsTrimmed() && (r.IsPruned() <==> c.IsPruned())
    ensures r.IsPruned() <==> r.vout == []
    ensures c.IsTrimmed() ==> r == c
  {
    assert Trim(c.vout) <= c.vout;
    c.(vout := Trim(c.vout))
  }

  /** A map of unspent outputs, where a transaction with none left is simply absent. */
  type View = map<Txid, Coins>

  predicate ViewOk(m: View) {
    forall t :: t in m ==> m[t].IsTrimmed() && !m[t].IsPruned()
  }

  function Get(m: View, t: Txid): Coins {
    if t in m then m[t] else EMPTY_COINS
  }

  function Put(m: View, t: Txid, c: Coins): (m': View)
    ensures ViewOk(m) ==> ViewOk(m')
    ensures forall u :: u != t ==> (u in m' <==> u in m)
    ensures forall u :: u != t && u in m ==> m'[u] == m[u]
  {
    if c.IsPruned() then m - {t} else m[t := Trimmed(c)]
  }
}
