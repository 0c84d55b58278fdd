/** Chain selection over blocks with contents: the verdict on connecting a block is that of the ledger rules on
    what replaying its ancestors gives, so the active chain is the best one whose ledger is valid. */
module ChainLedger {
  import opened Base
  import opened BlockTree
  import ChainInvariant
  import ChainSelection
  import opened LedgerValue
  import opened LedgerRules
  import opened LedgerChain

  /** What the id of a block stands for, known or not: its parent and its contents. */
  datatype World = World(
    genesis: BlockId,
    parent: BlockId -> Option<BlockId>,
    height: BlockId -> nat,
    content: BlockId -> Block,
    wellFormed: BlockId -> bool)
  {
    ghost predicate Ok() {
      forall b {:trigger parent(b)} ::
        match parent(b)
        case None => b == genesis && height(b) == 0
        case Some(p) => b != genesis && height(b) == height(p) + 1
    }

    /** The contents of b and its ancestors, but for genesis, whose transactions are never connected. */
    ghost function Contents(b: BlockId): (r: seq<Block>)
      requires Ok()
      ensures |r| == height(b)
      decreases height(b)
    {
      match parent(b)
      case None => []
      case Some(p) => Contents(p) + [content(b)]
    }

    /** Connecting b to its parent succeeds: it is genesis, or the rules hold on the parent's ledger. */
    ghost predicate Connects(b: BlockId)
      requires Ok()
    {
      match parent(b)
      case None => true
      case Some(p) => ChainConnects(Contents(p)) && BlockConnects(Replay(Contents(p)), content(b), height(b))
    }

    /** What chain selection takes as given. */
    ghost function Env(): ChainInvariant.Env
      requires Ok()
    {
      ChainInvariant.Env(genesis, wellFormed, (b: BlockId) => Ok() && Connects(b))
    }

    /** The index has the parents right. */
    ghost predicate Describes(idx: Index) {
      forall b :: b in idx ==> idx[b].prev == parent(b)
    }

    ghost predicate TrueHeader(e: ChainSelection.Event) {
      e.Header? && e.id != genesis ==> e.prev == parent(e.id)
    }
  }

  /** Well-formed and not condemned by the operator. */
  ghost function Admitted(w: World, condemned: set<BlockId>): iset<BlockId> {
    iset b: BlockId | w.wellFormed(b) && b !in condemned
  }

  lemma ContentsConnect(w: World, b: BlockId)
    requires w.Ok()
    ensures ChainConnects(w.Contents(b)) <==> w.Connects(b)
    ensures w.parent(b).Some? && ChainConnects(w.Contents(b)) ==> ChainConnects(w.Contents(w.parent(b).value))
  {
    hide BlockConnects, Replay;
    var c := w.Contents(b);
    if w.parent(b).Some? {
      assert c[..|c| - 1] == w.Contents(w.parent(b).value);
    }
  }

  /** A block is sound exactly if it and its ancestors are admitted and their contents make a valid ledger. */
  lemma {:induction false} SoundIff(w: World, s: ChainInvariant.State, b: BlockId)
    requires w.Ok() && Tree(s.idx, w.genesis) && w.Describes(s.idx) && b in s.idx
    ensures ChainInvariant.Sound(s, w.Env(), b) <==>
            AllUp(s.idx, w.genesis, b, Admitted(w, s.condemned)) && ChainConnects(w.Contents(b))
    decreases s.idx[b].height
  {
    hide ChainConnects, World.Connects, World.Contents;
    ContentsConnect(w, b);
    if s.idx[b].prev.Some? {
      assert ParentOk(s.idx, b);
      SoundIff(w, s, s.idx[b].prev.value);
    }
  }

  /** The tip's contents make a valid ledger with no more than the subsidies in it, and of all known blocks that
      are admitted, have all their data and make a valid ledger, none has more work, or as much and was linked earlier. */
  ghost predicate BestLedgerActive(w: World, s: ChainInvariant.State)
    requires w.Ok() && Tree(s.idx, w.genesis)
  {
    && (s.chain != [] ==>
          var tip := s.chain[|s.chain| - 1];
          && tip in s.idx && ChainConnects(w.Contents(tip))
          && 0 <= Total(Replay(w.Contents(tip))) <= SubsidySum(w.height(tip)) <= MAX_MONEY)
    && forall b :: b in s.idx && ValidLedger(w, s, b) ==>
         s.chain != [] && ChainInvariant.NoBetter(s, s.chain[|s.chain| - 1], b)
  }

  ghost predicate ValidLedger(w: World, s: ChainInvariant.State, b: BlockId)
    requires w.Ok() && Tree(s.idx, w.genesis) && b in s.idx
  {
    && AllUp(s.idx, w.genesis, b, Admitted(w, s.condemned)) && DataComplete(s.idx, w.genesis, b)
    && ChainConnects(w.Contents(b))
  }

  lemma BestChainIsBestLedger(w: World, s: ChainInvariant.State)
    requires w.Ok() && ChainSelection.BestChainActive(s, w.Env()) && w.Describes(s.idx)
    ensures BestLedgerActive(w, s)
  {
    hide ChainConnects, Replay, AllUp, Tree, World.Contents, Total, World.Ok, ChainInvariant.NoBetter;
    if s.chain != [] {
      var tip := s.chain[|s.chain| - 1];
      SoundIff(w, s, tip);
      TotalWithinSubsidies(w.Contents(tip));
    }
    forall b | b in s.idx && ValidLedger(w, s, b)
      ensures s.chain != [] && ChainInvariant.NoBetter(s, s.chain[|s.chain| - 1], b)
    {
      SoundIff(w, s, b);
    }
  }

  lemma StillDescribes(w: World, idx: Index, idx': Index, e: ChainSelection.Event)
    requires w.Ok() && w.Describes(idx) && w.TrueHeader(e) && ChainSelection.AddsOnly(idx, idx', e, w.genesis)
    ensures w.Describes(idx')
  {
    assert w.parent(w.genesis) == None;
  }

  /** Whatever arrives in whatever order, a run that ends an activation leaves the best valid ledger active. */
  method RunOnWorld(node: ChainSelection.Node, ghost w: World, events: seq<ChainSelection.Event>) returns (done: bool)
    requires node.Valid() && w.Ok() && node.env == w.Env() && w.Describes(node.index)
    requires forall i :: 0 <= i < |events| ==> node.Allowed(events[i]) && w.TrueHeader(events[i])
    modifies node
    ensures node.Valid() && w.Describes(node.index) && Tree(node.index, w.genesis)
    ensures events != [] && events[|events| - 1].Activate? ==> done
    ensures done ==> BestLedgerActive(w, node.S())
  {
    hide ChainSelection.TipIsBest, ChainSelection.BestChainActive, ChainSelection.AddsOnly, BestLedgerActive, World.Describes, World.Ok;
    done := false;
    var i := 0;
    while i < |events|
      invariant 0 <= i <= |events| && node.Valid() && w.Describes(node.index)
      invariant i > 0 && events[i - 1].Activate? ==> done
      invariant done ==> ChainSelection.BestChainActive(node.S(), node.env)
    {
      ghost var idx := node.index;
      done := node.Apply(events[i]);
      StillDescribes(w, idx, node.index, events[i]);
      i := i + 1;
    }
    if done {
      BestChainIsBestLedger(w, node.S());
    }
  }
}
