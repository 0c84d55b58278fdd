/** The chain state: connecting and disconnecting the tip on a cache above the tip's cache, which is written
    back on success and dropped on failure. */
module LedgerState {
  import opened Base
  import opened Coins
  import opened Ledger
  import opened LedgerBlock
  import opened LedgerValue
  import opened LedgerRules
  import opened LedgerChain
  import opened LedgerView
  import CoinsCache

  datatype Event = Connect(block: Block) | Disconnect | FlushToDisk

  /** Undoing the tip gives back what was there before it: it overwrote nothing. */
  ghost predicate TipReversible(chain: seq<Block>)
    requires ChainConnects(chain) && chain != []
  {
    var k := |chain| - 1;
    ConnectedShape(Replay(chain[..k]), chain[k], |chain|);
    OverwritesNothing(Replay(chain[..k]), chain[k].txs, |chain|)
  }

  /** The chain after an event, as the rules alone decide it. */
  ghost function Step(chain: seq<Block>, e: Event): (r: seq<Block>)
    requires ChainConnects(chain)
    ensures ChainConnects(r)
  {
    hide BlockConnects;
    match e
    case Connect(b) =>
      assert (chain + [b])[..|chain|] == chain;
      if BlockConnects(Replay(chain), b, |chain| + 1) then chain + [b] else chain
    case Disconnect => if chain == [] then chain else chain[..|chain| - 1]
    case FlushToDisk => chain
  }

  ghost function After(chain: seq<Block>, events: seq<Event>): (r: seq<Block>)
    requires ChainConnects(chain)
    ensures ChainConnects(r)
    decreases |events|
  {
    hide Step, ChainConnects;
    if events == [] then chain else After(Step(chain, events[0]), events[1..])
  }

  /** Whenever a block is disconnected, it is one that overwrote nothing. */
  ghost predicate Reversible(chain: seq<Block>, events: seq<Event>)
    requires ChainConnects(chain)
    decreases |events|
  {
    hide Step, ChainConnects;
    events == [] ||
    ((events[0].Disconnect? && chain != [] ==> TipReversible(chain)) && Reversible(Step(chain, events[0]), events[1..]))
  }

  /** All blocks dated after the switch to BIP 30: every sequence of events is reversible. */
  lemma {:induction false} UndoableIsReversible(chain: seq<Block>, events: seq<Event>)
    requires ChainConnects(chain)
    requires forall b :: b in chain ==> Undoable(b)
    requires forall i :: 0 <= i < |events| && events[i].Connect? ==> Undoable(events[i].block)
    ensures Reversible(chain, events)
    decreases |events|
  {
    hide BlockConnects, Undoable, Replay, TipReversible, ChainConnects;
    if events != [] {
      if events[0].Disconnect? && chain != [] {
        UndoableTip(chain);
      }
      UndoableIsReversible(Step(chain, events[0]), events[1..]);
    }
  }

  lemma UndoableTip(chain: seq<Block>)
    requires ChainConnects(chain) && chain != [] && Undoable(chain[|chain| - 1])
    ensures TipReversible(chain)
  {
    hide BlockConnects, LedgerOk, ValuesOk, Connects, ConnectAll, Total, OverwritesNothing, Undoable;
    TotalWithinSubsidies(chain[..|chain| - 1]);
    BlockUndone(Replay(chain[..|chain| - 1]), chain[|chain| - 1], |chain|);
  }

  /** The undo data kept for block i is what connecting it produced. */
  ghost predicate UndoDataOk(chain: seq<Block>, i: nat, undo: seq<seq<InUndo>>)
    requires i < |chain|
  {
    ChainConnects(chain[..i]) && Connects(Replay(chain[..i]), chain[i].txs, i + 1) &&
    [[]] + undo == BlockUndos(Replay(chain[..i]), chain[i].txs, i + 1)
  }

  lemma UndoDataPrefix(a: seq<Block>, b: seq<Block>, i: nat, undo: seq<seq<InUndo>>)
    requires i < |a| && i < |b| && a[..i + 1] == b[..i + 1] && UndoDataOk(a, i, undo)
    ensures UndoDataOk(b, i, undo)
  {
    hide BlockUndos, Connects, ConnectAll, Replay, ChainConnects, BlockConnects;
    assert a[..i + 1][i] == b[..i + 1][i];
    assert a[..i] == a[..i + 1][..i] == b[..i + 1][..i] == b[..i];
  }

  lemma ExtendChain(chain: seq<Block>, b: Block, undo: seq<seq<InUndo>>)
    requires ChainConnects(chain) && BlockConnects(Replay(chain), b, |chain| + 1)
    requires Connects(Replay(chain), b.txs, |chain| + 1)
    requires [[]] + undo == BlockUndos(Replay(chain), b.txs, |chain| + 1)
    ensures ChainConnects(chain + [b]) && Replay(chain + [b]) == ConnectAll(Replay(chain), b.txs, |chain| + 1)
    ensures UndoDataOk(chain + [b], |chain|, undo)
  {
    hide BlockConnects, Connects, ConnectAll, BlockUndos;
    assert (chain + [b])[..|chain|] == chain;
  }

  /** Undoing the tip with its undo data: exact if and only if the tip overwrote nothing. */
  lemma TipUndone(chain: seq<Block>, undo: seq<seq<InUndo>>)
    requires chain != [] && ChainConnects(chain) && UndoDataOk(chain, |chain| - 1, undo)
    ensures ChainConnects(chain[..|chain| - 1]) && chain[|chain| - 1].txs != []
    ensures var k := |chain| - 1;
      && UndosFit(chain[k].txs, [[]] + undo)
      && (DisconnectAll(Replay(chain), chain[k].txs, [[]] + undo, |chain|) == (Replay(chain[..k]), true) <==> TipReversible(chain))
  {
    hide BlockConnects, Connects, ConnectAll, BlockUndos, LedgerOk, ValuesOk, Total, OverwritesNothing, UndosFit, DisconnectAll;
    var k := |chain| - 1;
    TotalWithinSubsidies(chain[..k]);
    BlockUndone(Replay(chain[..k]), chain[k], |chain|);
    ConnectedShape(Replay(chain[..k]), chain[k], |chain|);
  }

  class ChainState {
    const coins: CoinsCache.CoinsStack
    var chain: seq<Block>
    var undoData: seq<seq<seq<InUndo>>>

    /** One cache over the database, a chain of blocks that connect, and their undo data. */
    ghost predicate Ready()
      reads this, coins
    {
      && coins.Valid() && coins.modifying == None && |coins.layers| == 1 && |coins.views| == 2
      && ChainConnects(chain)
      && |undoData| == |chain|
      && (forall i :: 0 <= i < |chain| ==> UndoDataOk(chain, i, undoData[i]))
    }

    /** And the cache says what replaying the chain from genesis gives. */
    ghost predicate Valid()
      reads this, coins
    {
      Ready() && coins.Top() == Replay(chain)
    }

    constructor ()
      ensures Valid() && chain == [] && fresh(coins)
    {
      coins := new CoinsCache.CoinsStack(map[], 0);
      chain, undoData := [], [];
      new;
      coins.Push();
    }

    /** Connects a block on top of the chain if the rules allow it, and otherwise changes nothing. */
    method ConnectTip(b: Block) returns (ok: bool)
      requires Valid()
      modifies this, coins
      ensures Valid()
      ensures ok <==> BlockConnects(Replay(old(chain)), b, |old(chain)| + 1)
      ensures chain == (if ok then old(chain) + [b] else old(chain))
    {
      hide ChainConnects, Replay, BlockConnects, LedgerOk, ValuesOk, Connects, ConnectAll, BlockUndos, Total, UndoDataOk,
        CoinsCache.CoinsStack.Valid;
      TotalWithinSubsidies(chain);
      coins.Push();
      var view := new CoinsView(coins);
      var undo := view.ConnectBlock(b, |chain| + 1);
      ok := undo.Some?;
      if ok {
        coins.Flush();
      }
      coins.Pop();
      if ok {
        ExtendChain(chain, b, undo.value);
        forall i | 0 <= i < |chain| ensures UndoDataOk(chain + [b], i, undoData[i]) {
          UndoDataPrefix(chain, chain + [b], i, undoData[i]);
        }
        chain := chain + [b];
        undoData := undoData + [undo.value];
      }
    }

    /** Disconnects the tip, unless undoing it is not clean, which changes nothing. A tip that overwrote nothing
        is always disconnected; the cache agrees with the chain afterwards if and only if it was one or was kept. */
    method DisconnectTip() returns (ok: bool)
      requires Valid() && chain != []
      modifies this, coins
      ensures Ready() && chain == (if ok then old(chain)[..|old(chain)| - 1] else old(chain))
      ensures TipReversible(old(chain)) ==> ok
      ensures Valid() <==> !ok || TipReversible(old(chain))
    {
      hide Replay, BlockConnects, LedgerOk, ValuesOk, Connects, ConnectAll, BlockUndos, Total, DisconnectAll, UndosFit, UndoDataOk,
        TipReversible, CoinsCache.CoinsStack.Valid;
      var k := |chain| - 1;
      TipUndone(chain, undoData[k]);
      coins.Push();
      var view := new CoinsView(coins);
      var clean := view.DisconnectBlock(chain[k].txs, undoData[k], |chain|);
      ok := clean == Some(true);
      if ok {
        coins.Flush();
      }
      coins.Pop();
      if ok {
        ghost var before := chain;
        chain := chain[..k];
        undoData := undoData[..k];
        forall i | 0 <= i < |chain| ensures UndoDataOk(chain, i, undoData[i]) {
          UndoDataPrefix(before, chain, i, undoData[i]);
        }
      }
    }

    /** Writes the tip's cache into the database, which changes nothing the cache says. */
    method FlushStateToDisk()
      requires Valid()
      modifies coins
      ensures Valid() && coins.views[0] == coins.Top()
    {
      hide ChainConnects, Replay, UndoDataOk, CoinsCache.CoinsStack.Valid;
      coins.Flush();
    }

    /** After any sequence of connections and disconnections that undoes no overwriting block, the map depends
        only on the blocks now connected: it is what replaying them from genesis gives, and its total is within
        the subsidies. */
    method Run(events: seq<Event>)
      requires Valid() && Reversible(chain, events)
      modifies this, coins
      ensures Valid() && chain == After(old(chain), events)
      ensures Total(coins.Top()) <= SubsidySum(|chain|) <= MAX_MONEY
    {
      hide BlockConnects, Total, ChainConnects, Replay, UndoDataOk, TipReversible, CoinsCache.CoinsStack.Valid;
      var i := 0;
      assert events[0..] == events;
      while i < |events|
        invariant 0 <= i <= |events| && Valid()
        invariant Reversible(chain, events[i..]) && After(chain, events[i..]) == After(old(chain), events)
      {
        assert events[i..][0] == events[i] && events[i..][1..] == events[i + 1..];
        match events[i] {
          case Connect(b) =>
            var _ := ConnectTip(b);
          case Disconnect =>
            if chain != [] {
              var _ := DisconnectTip();
            }
          case FlushToDisk =>
            FlushStateToDisk();
        }
        i := i + 1;
      }
      TotalWithinSubsidies(chain);
    }
  }
}
