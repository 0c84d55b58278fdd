/** Best-chain selection: headers and block data arrive in any order, blocks are linked and become
    candidates, and the node moves its active chain to the best one that turns out to be all right. */
module ChainSelection {
  import opened Base
  import opened BlockTree
  import opened ChainInvariant
  import opened ChainSteps
  import opened ChainLinking

  /** What a node may be asked to do, in any order. An activation runs rounds until one ends it; as the lock is
      released between rounds, anything may also happen between two rounds. */
  datatype Event =
    | Header(id: BlockId, prev: Option<BlockId>, proof: nat, contextOk: bool)
    | Data(id: BlockId, nTx: nat)
    | Activate
    | Round
    | Invalidate(id: BlockId)

  /** No linked block free of failures sorts above the tip. */
  ghost predicate TipIsBest(s: State, env: Env) {
    && Tree(s.idx, env.genesis) && ChainOk(s.idx, s.chain)
    && forall b :: b in s.idx && Linked(s.idx, b) && Clean(s.idx, env.genesis, b) ==>
      s.chain != [] && !Less(s.idx, s.chain[|s.chain| - 1], b)
  }

  /** The active chain is sound, and of all blocks that are sound and whose data and ancestors' data have
      arrived none has more work than its tip, or as much and was linked earlier. */
  ghost predicate BestChainActive(s: State, env: Env) {
    && Tree(s.idx, env.genesis) && ChainOk(s.idx, s.chain)
    && (s.chain != [] ==> Sound(s, env, s.chain[|s.chain| - 1]))
    && forall b :: b in s.idx && Sound(s, env, b) && DataComplete(s.idx, env.genesis, b) ==>
         s.chain != [] && NoBetter(s, s.chain[|s.chain| - 1], b)
  }

  /** A tip that no linked failure-free block beats is best among everything that is really good. */
  lemma BestOfLinkedIsBest(s: State, env: Env, t: Option<BlockId>)
    requires Inv(s, env, t) && OrderOk(s.idx, s.nextSeq, s.order) && TipIsBest(s, env)
    ensures BestChainActive(s, env)
  {
    hide AllUp, EntriesOk, UnlinkedOk, AllWait, StrandedOk, OrderOk, CompleteFrom, BarOk, Tree, CandidatesOk, Before;
    if s.chain != [] {
      ChainIsSound(s, env, |s.chain| - 1);
    }
    forall b | b in s.idx && Sound(s, env, b) && DataComplete(s.idx, env.genesis, b)
      ensures s.chain != [] && NoBetter(s, s.chain[|s.chain| - 1], b)
    {
      SoundIsClean(s, env, b);
      CompleteDataIsLinked(s, env, t, b);
      LessIff(s.idx, s.nextSeq, s.order, s.chain[|s.chain| - 1], b);
    }
  }

  /** The best candidate beats every linked failure-free block, also those pruned from the candidates. */
  lemma BestCandidateIsBest(s: State, env: Env, t: Option<BlockId>, m: BlockId, b: BlockId)
    requires Tree(s.idx, env.genesis) && CompleteFrom(s.idx, env.genesis, s.cand, t)
    requires m in s.cand && m in s.idx && forall c :: c in s.cand ==> c in s.idx && !Less(s.idx, m, c)
    requires b in s.idx && Linked(s.idx, b) && Clean(s.idx, env.genesis, b)
    ensures !Less(s.idx, m, b)
  {
    if t.Some? && Less(s.idx, b, t.value) {
      LessIsStrictTotalOrder(s.idx, b, t.value, m);
      LessIsStrictTotalOrder(s.idx, m, b, t.value);
    }
  }

  /** No block of the chain above height g is an ancestor of b. */
  ghost predicate DivergesAbove(idx: Index, genesis: BlockId, chain: seq<BlockId>, b: BlockId, g: nat)
    requires Tree(idx, genesis) && b in idx
  {
    forall h :: g < h < |chain| && h <= idx[b].height ==> chain[h] != Ancestor(idx, genesis, b, h)
  }

  lemma NothingAboveChain(idx: Index, genesis: BlockId, chain: seq<BlockId>, b: BlockId, g: nat)
    requires Tree(idx, genesis) && b in idx && (g >= |chain| - 1 || g >= idx[b].height)
    ensures DivergesAbove(idx, genesis, chain, b, g)
  {
  }

  method BestCandidate(idx: Index, cand: set<BlockId>) returns (m: BlockId)
    requires cand != {} && forall c :: c in cand ==> c in idx
    ensures m in cand && forall c :: c in cand ==> !Less(idx, m, c)
  {
    m :| m in cand;
    var todo := cand - {m};
    while todo != {}
      invariant m in cand && todo <= cand
      invariant forall c :: c in cand && c !in todo ==> !Less(idx, m, c)
      decreases todo
    {
      var c :| c in todo;
      if Less(idx, m, c) {
        forall d | d in cand && d !in todo ensures !Less(idx, c, d) {
          LessIsStrictTotalOrder(idx, c, m, d);
        }
        m := c;
      }
      todo := todo - {c};
    }
  }

  ghost function UnfailedBlocks(idx: Index): set<BlockId> {
    set b | b in idx && !idx[b].Failed()
  }

  /** The blocks that sort above the tip; one more than all of them when there is no tip. */
  ghost function Above(idx: Index, chain: seq<BlockId>): nat
    requires ChainOk(idx, chain)
  {
    if chain == [] then |idx.Keys| + 1 else |set b | b in idx && Less(idx, chain[|chain| - 1], b)|
  }

  lemma OnlyFlagsUnfailed(idx: Index, idx': Index)
    requires OnlyFlags(idx, idx')
    ensures UnfailedBlocks(idx') <= UnfailedBlocks(idx)
    ensures |UnfailedBlocks(idx')| <= |UnfailedBlocks(idx)|
  {
    SubsetSize(UnfailedBlocks(idx'), UnfailedBlocks(idx));
  }

  lemma SubsetSize<T>(a: set<T>, b: set<T>)
    requires a <= b
    ensures |a| <= |b|
    ensures a != b ==> |a| < |b|
  {
    assert b == a + (b - a);
  }

  lemma HigherTipHasFewerAbove(idx: Index, idx': Index, chain: seq<BlockId>, chain': seq<BlockId>)
    requires ChainOk(idx, chain) && ChainOk(idx', chain') && OnlyFlags(idx, idx') && chain' != []
    requires chain != [] ==> Less(idx, chain[|chain| - 1], chain'[|chain'| - 1])
    ensures Above(idx', chain') < Above(idx, chain)
  {
    var tip' := chain'[|chain'| - 1];
    var a' := set b | b in idx' && Less(idx', tip', b);
    if chain == [] {
      SubsetSize(a', idx.Keys);
    } else {
      var tip := chain[|chain| - 1];
      var a := set b | b in idx && Less(idx, tip, b);
      forall b | b in a' ensures b in a {
        LessIsStrictTotalOrder(idx, tip, tip', b);
      }
      LessIsStrictTotalOrder(idx, tip', tip', tip');
      assert tip' in a && tip' !in a';
      SubsetSize(a', a);
    }
  }

  /** The chain leads towards m, a linked block without failures below it. */
  ghost predicate Heading(s: State, env: Env, m: BlockId)
    requires Tree(s.idx, env.genesis)
  {
    && m in s.idx && Linked(s.idx, m) && Clean(s.idx, env.genesis, m)
    && |s.chain| <= s.idx[m].height + 1
    && (s.chain != [] ==> s.chain[|s.chain| - 1] == Ancestor(s.idx, env.genesis, m, |s.chain| - 1))
  }

  /** A new failure was found, or the tip has more work than the old one. */
  ghost predicate Progress(idx: Index, idx': Index, oldTip: Option<BlockId>, chain: seq<BlockId>) {
    || UnfailedBlocks(idx') < UnfailedBlocks(idx)
    || (chain != [] && chain[|chain| - 1] in idx' &&
        (oldTip.None? || (oldTip.value in idx' && idx'[chain[|chain| - 1]].work > idx'[oldTip.value].work)))
  }

  class Node {
    const env: Env
    var index: Index
    var unlinked: map<BlockId, seq<BlockId>>
    var chain: seq<BlockId>
    var candidates: set<BlockId>
    var nextSeq: nat
    ghost var condemned: set<BlockId>
    ghost var stranded: set<BlockId>
    ghost var order: seq<BlockId>  // the linked blocks, in the order they were linked
    ghost var bar: Option<BlockId>  // candidates are complete from here up

    ghost function S(): State
      reads this
    {
      State(index, unlinked, chain, candidates, nextSeq, condemned, stranded, order)
    }

    /** What holds whenever the lock is free. */
    ghost predicate Valid()
      reads this
    {
      Inv(S(), env, bar) && OrderOk(index, nextSeq, order)
    }

    constructor (env: Env)
      ensures Valid() && this.env == env && index == map[] && chain == [] && condemned == {} && stranded == {} && order == []
    {
      this.env := env;
      index, unlinked, chain, candidates, nextSeq, condemned, stranded, order, bar := map[], map[], [], {}, 1, {}, {}, [], None;
    }

    predicate Contains(b: BlockId)
      requires b in index
      reads this
    {
      index[b].height < |chain| && chain[index[b].height] == b
    }

    lemma ContainsIsMember(b: BlockId)
      requires b in index && ChainOk(index, chain)
      ensures Contains(b) <==> b in chain
    {
      if b in chain {
        var i :| 0 <= i < |chain| && chain[i] == b;
      }
    }

    // ---------- finding the best candidate ----------

    /** Drops the candidate m, whose ancestor bad has failed, and marks the blocks from m down to bad. */
    method DropFailedChain(m: BlockId, bad: BlockId, ghost t: Option<BlockId>)
      requires Inv(S(), env, t) && m in index && bad in index && index[bad].Failed()
      requires index[bad].height <= index[m].height
      requires Ancestor(index, env.genesis, m, index[bad].height) == bad
      modifies this`index, this`candidates
      ensures Inv(S(), env, t) && OnlyFlags(old(index), index)
      ensures candidates <= old(candidates) - {m}
    {
      hide AllUp, EntriesOk, UnlinkedOk, AllWait, StrandedOk, OrderOk, CompleteFrom, BarOk, FlagsOk, ChainOk, CandidatesOk, Tree, OnlyFlags;
      var f := m;
      ghost var h := index[bad].height;
      DescendantOfFailed(index, env.genesis, m, bad);
      OnlyFlagsRefl(index);
      while f != bad
        invariant Inv(S(), env, t) && OnlyFlags(old(index), index)
        invariant f in index && bad in index && h == index[bad].height <= index[f].height
        invariant Ancestor(index, env.genesis, f, h) == bad
        invariant !Clean(index, env.genesis, f)
        invariant candidates <= old(candidates)
        invariant f != m ==> m !in candidates
        decreases index[f].height
      {
        ghost var s0 := S();
        index := index[f := index[f].(failedChild := true)];
        FlagChildKeepsInv(s0, S(), env, t, f);
        OnlyFlagsTransitive(old(index), s0.idx, index);
        ghost var s1 := S();
        candidates := candidates - {f};
        DropUncleanKeepsInv(s1, S(), env, t, f);
        UncleanParent(s0.idx, index, env.genesis, f, bad, h);
        f := index[f].prev.value;
      }
      ghost var s2 := S();
      candidates := candidates - {bad};
      DropUncleanKeepsInv(s2, S(), env, t, bad);
    }

    /** Walks from m down to the active chain, stopping at a failed block if there is one. */
    method FailureBelow(m: BlockId) returns (bad: Option<BlockId>)
      requires Tree(index, env.genesis) && ChainOk(index, chain) && ChainGood(env, condemned, chain) && m in index
      ensures bad.None? <==> Clean(index, env.genesis, m)
      ensures bad.Some? ==>
                && bad.value in index && index[bad.value].Failed() && index[bad.value].height <= index[m].height
                && Ancestor(index, env.genesis, m, index[bad.value].height) == bad.value
    {
      hide AllUp, Tree;
      var test := Some(m);
      ChainMembersClean(S(), env);
      AncestorSelf(index, env.genesis, m);
      while test.Some? && !Contains(test.value)
        invariant test.Some? ==>
                    && test.value in index && index[test.value].height <= index[m].height
                    && Ancestor(index, env.genesis, m, index[test.value].height) == test.value
                    && (Clean(index, env.genesis, m) <==> Clean(index, env.genesis, test.value))
        invariant test.None? ==> Clean(index, env.genesis, m)
        decreases test.Some?, if test.Some? then index[test.value].height else 0
      {
        WalkDown(index, env.genesis, m, test.value);
        if index[test.value].Failed() {
          return test;
        }
        test := index[test.value].prev;
      }
      if test.Some? { ContainsIsMember(test.value); }
      bad := None;
    }

    /** The best candidate with no failure between it and the active chain; unusable ones are dropped. */
    method FindMostWorkChain(ghost t: Option<BlockId>) returns (best: Option<BlockId>)
      requires Inv(S(), env, t)
      modifies this`index, this`candidates
      ensures Inv(S(), env, t) && OnlyFlags(old(index), index)
      ensures best.None? ==> candidates == {}
      ensures best.Some? ==> best.value in candidates && best.value in index && Clean(index, env.genesis, best.value)
      ensures best.Some? ==> forall c :: c in candidates ==> c in index && !Less(index, best.value, c)
    {
      hide AllUp, EntriesOk, UnlinkedOk, AllWait, StrandedOk, OrderOk, CompleteFrom, BarOk, FlagsOk, ChainOk, Tree, OnlyFlags;
      OnlyFlagsRefl(index);
      while true
        invariant Inv(S(), env, t) && OnlyFlags(old(index), index)
        decreases candidates
      {
        if candidates == {} {
          return None;
        }
        var m := BestCandidate(index, candidates);
        var bad := FailureBelow(m);
        if bad.None? {
          return Some(m);
        }
        ghost var idx0 := index;
        DropFailedChain(m, bad.value, t);
        OnlyFlagsTransitive(old(index), idx0, index);
      }
    }

    // ---------- moving the tip ----------

    /** The highest block of the active chain that is an ancestor of b. */
    method FindFork(b: BlockId) returns (fork: Option<BlockId>)
      requires Tree(index, env.genesis) && ChainOk(index, chain) && b in index
      ensures fork.None? <==> chain == []
      ensures fork.Some? ==>
                && fork.value in index && Contains(fork.value) && index[fork.value].height <= index[b].height
                && Ancestor(index, env.genesis, b, index[fork.value].height) == fork.value
                && DivergesAbove(index, env.genesis, chain, b, index[fork.value].height)
    {
      hide ChainOk, Tree, DivergesAbove;
      var p: Option<BlockId> := Some(b);
      if index[b].height > |chain| - 1 {
        p := if chain == [] then None else Some(Ancestor(index, env.genesis, b, |chain| - 1));
      }
      AncestorSelf(index, env.genesis, b);
      if p.Some? { NothingAboveChain(index, env.genesis, chain, b, index[p.value].height); }
      while p.Some? && !Contains(p.value)
        invariant chain == [] ==> p.None?
        invariant chain != [] ==> p.Some?
        invariant p.Some? ==>
                    && p.value in index && index[p.value].height < |chain| && index[p.value].height <= index[b].height
                    && Ancestor(index, env.genesis, b, index[p.value].height) == p.value
                    && DivergesAbove(index, env.genesis, chain, b, index[p.value].height)
        decreases p.Some?, if p.Some? then index[p.value].height else 0
      {
        ForkWalk(index, env.genesis, chain, b, p.value);
        p := index[p.value].prev;
      }
      fork := p;
    }

    method DisconnectTip(ghost t: Option<BlockId>)
      requires Inv(S(), env, t) && |chain| > 1
      modifies this`chain
      ensures Inv(S(), env, t) && chain == old(chain)[..|old(chain)| - 1]
    {
      ghost var s0 := S();
      chain := chain[..|chain| - 1];
      DisconnectKeepsInv(s0, S(), env, t);
    }

    /** Tries to connect b on top of the tip. On success the candidates below the new tip are pruned;
        on failure b is marked as failed and is no longer a candidate. */
    method ConnectTip(b: BlockId, ghost t: Option<BlockId>) returns (ok: bool, ghost t': Option<BlockId>)
      requires Inv(S(), env, t) && Connectable(S(), env, b)
      modifies this`index, this`chain, this`candidates
      ensures Inv(S(), env, t') && OnlyFlags(old(index), index)
      ensures ok == env.connects(b)
      ensures chain == (if ok then old(chain) + [b] else old(chain))
      ensures t' == Last(chain) || (t' == t && t != Last(old(chain)))
      ensures ok ==> forall c :: c in index ==> c in old(index) && index[c].Failed() == old(index)[c].Failed()
      ensures !ok ==> b in index && !old(index[b].Failed()) && index[b].Failed()
    {
      hide AllUp, EntriesOk, UnlinkedOk, AllWait, StrandedOk, OrderOk, CompleteFrom, BarOk, FlagsOk, Tree, ChainOk, OnlyFlags;
      ghost var s0 := S();
      CleanUnfold(index, env.genesis, b);
      CandidatesKnown(s0, env, t);
      ok := env.connects(b);
      if ok {
        chain := chain + [b];
        candidates := KeptCandidates(index, candidates, b);
        t' := NewBar(index, b, t);
        TipBelowChild(s0, env, t, b);
        ConnectKeepsInv(s0, S(), env, t, b);
        ghost var s1 := S();
        index := index[b := index[b].Raised(VALID_SCRIPTS)];
        RaiseKeepsInv(s1, S(), env, t', b);
      } else {
        index := index[b := index[b].(failedValid := true)];
        candidates := candidates - {b};
        t' := t;
        FailKeepsInv(s0, S(), env, t, b);
      }
    }

    /** The blocks from height target down to just above height from, on the way to m. */
    method PathDown(m: BlockId, from: int, target: nat) returns (path: seq<BlockId>)
      requires Tree(index, env.genesis) && m in index && -1 <= from < target <= index[m].height
      ensures |path| == target - from
      ensures forall i :: 0 <= i < |path| ==> path[i] == Ancestor(index, env.genesis, m, target - i)
    {
      path := [];
      var iter := Some(Ancestor(index, env.genesis, m, target));
      while iter.Some? && index[iter.value].height != from
        invariant |path| <= target - from
        invariant iter.None? ==> from == -1 && |path| == target + 1
        invariant iter.Some? ==> iter.value in index && index[iter.value].height == target - |path|
                                 && iter.value == Ancestor(index, env.genesis, m, target - |path|)
        invariant forall i :: 0 <= i < |path| ==> path[i] == Ancestor(index, env.genesis, m, target - i)
        decreases target - from - |path|
      {
        path := path + [iter.value];
        WalkDown(index, env.genesis, m, iter.value);
        assert ParentOk(index, iter.value);
        iter := index[iter.value].prev;
      }
    }

    /** Connects the next block b on the way to m; no more follow if it fails or the tip has more work than before. */
    method ConnectNext(m: BlockId, b: BlockId, oldTip: Option<BlockId>, ghost t: Option<BlockId>, ghost idx0: Index)
      returns (more: bool, ghost t': Option<BlockId>)
      requires Inv(S(), env, t) && Heading(S(), env, m) && OnlyFlags(idx0, index) && (oldTip.Some? ==> oldTip.value in index)
      requires m in index && |chain| <= index[m].height && b == Ancestor(index, env.genesis, m, |chain|) && Connectable(S(), env, b)
      modifies this`index, this`chain, this`candidates
      ensures Inv(S(), env, t') && OnlyFlags(idx0, index) && OnlyFlags(old(index), index)
      ensures t' == Last(chain) || (t' == t && t != Last(old(chain)))
      ensures more ==> Heading(S(), env, m) && |chain| == |old(chain)| + 1
      ensures !more ==> Progress(idx0, index, oldTip, chain)
    {
      hide AllUp, Tree, ChainOk, Connectable, Heading, Progress, EntriesOk, UnlinkedOk, AllWait, StrandedOk, OrderOk, CompleteFrom, BarOk, FlagsOk, CandidatesOk,
        OnlyFlags;
      ghost var s0 := S();
      more, t' := ConnectTip(b, t);
      OnlyFlagsTransitive(idx0, s0.idx, index);
      OnlyFlagsHeight(s0.idx, index, m);
      if !more {
        FailureIsProgress(idx0, s0.idx, index, oldTip, chain, b);
        return;
      }
      StillHeading(s0, S(), env, m);
      TipKnown(S(), env, m);
      if oldTip.None? || index[chain[|chain| - 1]].work > index[oldTip.value].work {
        WorkIsProgress(idx0, index, oldTip, chain);
        more := false;
      }
    }

    /** Connects the blocks of a path, lowest first, until one fails or the tip has more work than before. */
    method ConnectPath(m: BlockId, path: seq<BlockId>, oldTip: Option<BlockId>, ghost t: Option<BlockId>)
      returns (more: bool, ghost t': Option<BlockId>)
      requires Inv(S(), env, t) && Heading(S(), env, m) && m in index && path != [] && |chain| + |path| <= index[m].height + 1
      requires forall i :: 0 <= i < |path| ==>
                 path[i] == Ancestor(index, env.genesis, m, |chain| + |path| - 1 - i)
      requires oldTip.Some? ==> oldTip.value in index
      modifies this`index, this`chain, this`candidates
      ensures Inv(S(), env, t') && OnlyFlags(old(index), index)
      ensures t' == Last(chain) || (t' == t && t != Last(old(chain)))
      ensures more ==> Heading(S(), env, m) && |chain| == |old(chain)| + |path|
      ensures !more ==> Progress(old(index), index, oldTip, chain)
    {
      hide AllUp, Tree, ChainOk, Connectable, Heading, Progress, EntriesOk, UnlinkedOk, AllWait, StrandedOk, OrderOk, CompleteFrom, BarOk, FlagsOk, CandidatesOk,
        OnlyFlags, Inv;
      var i := |path|;
      more, t' := true, t;
      OnlyFlagsRefl(index);
      InvIsTree(S(), env, t);
      while more && i > 0
        invariant 0 <= i <= |path| && Inv(S(), env, t') && OnlyFlags(old(index), index) && Tree(index, env.genesis)
        invariant t' == Last(chain) || (t' == t && t != Last(old(chain)))
        invariant more ==> Heading(S(), env, m) && |chain| == |old(chain)| + |path| - i
        invariant !more ==> Progress(old(index), index, oldTip, chain)
        decreases i
      {
        i := i - 1;
        OnlyFlagsHeight(old(index), index, m);
        OnPath(old(index), S(), env, m, t', path, i);
        more, t' := ConnectNext(m, path[i], oldTip, t', old(index));
        InvIsTree(S(), env, t');
      }
    }

    /** Moves the active chain some way towards m: back to the fork, then up in batches of 32 blocks. */
    method ActivateBestChainStep(m: BlockId, ghost t: Option<BlockId>) returns (ghost t': Option<BlockId>)
      requires Inv(S(), env, t) && m in index && Linked(index, m) && Clean(index, env.genesis, m)
      modifies this`index, this`chain, this`candidates
      ensures Inv(S(), env, t') && OnlyFlags(old(index), index)
      ensures t' == t || t' == Last(chain)
      ensures Last(chain) == Some(m) || Progress(old(index), index, Last(old(chain)), chain)
    {
      hide AllUp, Tree, ChainOk, Heading, Progress, EntriesOk, UnlinkedOk, AllWait, StrandedOk, OrderOk, CompleteFrom, BarOk, FlagsOk, CandidatesOk, OnlyFlags;
      var oldTip := Last(chain);
      var fork := FindFork(m);
      ghost var s0 := S();
      var keep := if fork.Some? then index[fork.value].height + 1 else 0;
      ForkShape(s0, env, m, fork);
      while |chain| > keep
        invariant keep <= |chain| <= |old(chain)| && chain == old(chain)[..|chain|]
        invariant index == old(index) && Inv(S(), env, t)
        decreases |chain|
      {
        DisconnectTip(t);
      }
      t' := t;
      BackAtFork(s0, S(), env, m, fork);
      OnlyFlagsRefl(index);
      var more, h: int := true, keep - 1;
      while more && h != index[m].height
        invariant Inv(S(), env, t') && OnlyFlags(old(index), index) && m in index
        invariant t' == t || t' == Last(chain)
        invariant oldTip.Some? ==> oldTip.value in index
        invariant more ==> -1 <= h <= index[m].height && |chain| == h + 1 && Heading(S(), env, m)
        invariant !more ==> Progress(old(index), index, oldTip, chain)
        decreases more, index[m].height - h
      {
        var target := if h + 32 < index[m].height then h + 32 else index[m].height;
        var path := PathDown(m, h, target);
        ghost var s1 := S();
        more, t' := ConnectPath(m, path, oldTip, t');
        AfterPath(old(index), s1.idx, index, oldTip, chain, m, more);
        h := target;
      }
      if more {
        HeadingAtTop(S(), env, m);
      }
    }

    /** One round of an activation, made under the lock. It ends the activation if the best candidate is, or has
        become, the tip: then the best chain is active. Otherwise it has made progress. */
    method ActivateRound() returns (done: bool)
      requires Valid()
      modifies this`index, this`chain, this`candidates, this`bar
      ensures Valid() && OnlyFlags(old(index), index)
      ensures done ==> bar == Last(chain) && TipIsBest(S(), env) && BestChainActive(S(), env)
      ensures !done ==> Nearer(old(index), old(chain), index, chain)
    {
      hide AllUp, Tree, ChainOk, Heading, Progress, EntriesOk, UnlinkedOk, AllWait, StrandedOk, OrderOk, CompleteFrom, BarOk, FlagsOk, CandidatesOk, OnlyFlags, TipIsBest, BestChainActive;
      var best := FindMostWorkChain(bar);
      FlagsKeepOrder(old(index), index, nextSeq, order);
      if best.None? || best == Last(chain) {
        SettledIsBest(S(), env, bar, best);
        BestOfLinkedIsBest(S(), env, bar);
        return true;
      }
      ghost var s1 := S();
      BestIsLinked(s1, env, bar, best.value);
      ghost var t := ActivateBestChainStep(best.value, bar);
      OnlyFlagsTransitive(old(index), s1.idx, index);
      FlagsKeepOrder(s1.idx, index, nextSeq, order);
      if Last(chain) == best {
        ReachedIsBest(s1, S(), env, bar, t, best.value);
        BestOfLinkedIsBest(S(), env, t);
        bar := t;
        return true;
      }
      ProgressDecreases(old(index), s1.idx, index, old(chain), chain);
      bar := t;
      done := false;
    }

    /** Makes the best chain active, in as many rounds as it takes if nothing happens in between. */
    method ActivateBestChain()
      requires Valid()
      modifies this`index, this`chain, this`candidates, this`bar
      ensures Valid() && OnlyFlags(old(index), index) && bar == Last(chain)
      ensures TipIsBest(S(), env)
      ensures BestChainActive(S(), env)
    {
      hide AllUp, Tree, ChainOk, EntriesOk, UnlinkedOk, AllWait, StrandedOk, OrderOk, CompleteFrom, BarOk, FlagsOk, CandidatesOk, OnlyFlags, TipIsBest, BestChainActive;
      OnlyFlagsRefl(index);
      while true
        invariant Valid() && OnlyFlags(old(index), index)
        decreases |UnfailedBlocks(index)|, Above(index, chain)
      {
        ghost var idx0 := index;
        var done := ActivateRound();
        OnlyFlagsTransitive(old(index), idx0, index);
        if done {
          return;
        }
      }
    }

    // ---------- new headers and data ----------

    /** Accepts a header unless it is known to have failed, its parent is unknown or failed, or its
        context check fails; every block adds work. */
    method AcceptBlockHeader(id: BlockId, prev: Option<BlockId>, proof: nat, contextOk: bool) returns (ok: bool)
      requires Valid() && proof > 0
      modifies this`index
      ensures Valid() && index.Keys == old(index.Keys) + (if id !in old(index) && ok then {id} else {})
      ensures forall b :: b in old(index) ==> b in index && index[b] == old(index)[b]
      ensures ok <==> (if id in old(index) then !old(index)[id].Failed()
                       else contextOk && (id != env.genesis ==>
                              prev.Some? && prev.value in old(index) && !old(index)[prev.value].Failed()))
      ensures ok && id !in old(index) && id != env.genesis ==>
                && index[id].height == old(index)[prev.value].height + 1
                && index[id].work == old(index)[prev.value].work + proof
      ensures ok && id !in old(index) ==> !index[id].haveData && !index[id].Failed()
      ensures ok && id !in old(index) ==> index[id].prev == (if id == env.genesis then None else prev)
    {
      hide AllUp, EntriesOk, UnlinkedOk, AllWait, StrandedOk, OrderOk, CompleteFrom, BarOk, FlagsOk, ChainOk, CandidatesOk;
      if id in index {
        return !index[id].Failed();
      }
      if id != env.genesis && (prev.None? || prev.value !in index || index[prev.value].Failed()) {
        return false;
      }
      if !contextOk {
        return false;
      }
      var parent := if id == env.genesis then None else prev;
      var height := if parent.Some? then index[parent.value].height + 1 else 0;
      var work := (if parent.Some? then index[parent.value].work else 0) + proof;
      var e := Entry(parent, height, work, 0, 0, 0, false, VALID_TREE, false, false);
      ghost var s0 := S();
      index := index[id := e];
      HeaderKeepsInv(s0, S(), env, bar, id, e);
      OrderKept(s0.idx, index, nextSeq, order);
      ok := true;
    }

    /** Links the block at the front of the queue and queues the blocks that were waiting for it. */
    method LinkFront(queue: seq<BlockId>) returns (rest: seq<BlockId>)
      requires InvQ(S(), env, bar, queue) && QueueOk(index, queue) && queue != [] && OrderOk(index, nextSeq, order)
      modifies this`index, this`unlinked, this`candidates, this`nextSeq, this`order
      ensures InvQ(S(), env, bar, rest) && QueueOk(index, rest)
      ensures OrderOk(index, nextSeq, order) && order == old(order) + [queue[0]]
      ensures SameTree(old(index), index) && CountsOnly(old(index), index)
      ensures |set c | c in index && !Linked(index, c)| < |set c | c in old(index) && !Linked(old(index), c)|
    {
      hide AllUp, EntriesOk, AllWait, StrandedOk, OrderOk, CompleteFrom, BarOk, FlagsOk, ChainOk, CandidatesOk, Tree, UnlinkedOk, QueueOk,
        SameTree, CountsOnly;
      ghost var s0 := S();
      FrontKnown(s0, env, bar, queue);
      var front := queue[0];
      LinkedEntryCounts(index, front, nextSeq);
      rest := queue[1..];
      index := index[front := LinkedEntry(index, front, nextSeq)];
      nextSeq := nextSeq + 1;
      if chain == [] || !Less(index, front, chain[|chain| - 1]) {
        candidates := candidates + {front};
      }
      var range := Waiters(unlinked, front);
      while range != []
        invariant rest + range == queue[1..] + Waiters(s0.unlinked, front)
        decreases |range|
      {
        rest, range := rest + [range[0]], range[1..];
      }
      unlinked := unlinked - {front};
      order := order + [front];
      LinkKeepsInv(s0, S(), env, bar, queue, rest);
      OrderGrows(s0.idx, index, s0.nextSeq, s0.order, front);
      LinkingShrinks(s0.idx, index, front);
    }

    /** Links b, whose parent is linked, and then whatever was waiting for it. */
    method LinkFrom(b: BlockId, n: nat, ghost idx0: Index)
      requires InvQ(S(), env, bar, [b]) && QueueOk(index, [b]) && DataOnly(idx0, index, b, n) && b !in stranded
      requires OrderOk(index, nextSeq, order)
      requires b in index && (index[b].prev.Some? ==> index[b].prev.value in index && Linked(index, index[b].prev.value))
      modifies this`index, this`unlinked, this`candidates, this`nextSeq, this`order
      ensures Valid() && DataOnly(idx0, index, b, n) && b in index && Linked(index, b)
      ensures old(order) + [b] <= order
    {
      hide AllUp, EntriesOk, AllWait, StrandedOk, OrderOk, CompleteFrom, BarOk, FlagsOk, ChainOk, CandidatesOk, Tree, UnlinkedOk, DataOnly, SameTree, CountsOnly;
      var queue := [b];
      while queue != []
        invariant InvQ(S(), env, bar, queue) && QueueOk(index, queue) && OrderOk(index, nextSeq, order)
        invariant if order == old(order) then queue == [b] else old(order) + [b] <= order
        invariant DataOnly(idx0, index, b, n)
        invariant b in index && (index[b].prev.Some? ==> index[b].prev.value in index && Linked(index, index[b].prev.value))
        decreases |set c | c in index && !Linked(index, c)|
      {
        ghost var idx1 := index;
        queue := LinkFront(queue);
        StillDataOnly(idx0, idx1, index, b, n);
        StillParentLinked(idx1, index, b);
      }
      HasData(idx0, index, b, n);
      LinkedAtLast(S(), env, bar, b);
    }

    /** Files the data of a known block and links whatever can be linked now. */
    method ReceivedBlockTransactions(b: BlockId, n: nat)
      requires Valid() && b in index && !index[b].haveData && !index[b].Failed() && env.wellFormed(b) && n > 0
      modifies this`index, this`unlinked, this`candidates, this`nextSeq, this`order, this`stranded
      ensures Valid() && DataOnly(old(index), index, b, n) && b in index
      ensures Linked(index, b) <==> Links(old(index), b)
      ensures if Links(old(index), b) then old(order) + [b] <= order else order == old(order)
      ensures stranded == old(stranded) + (if Strands(old(index), b) then {b} else {})
      ensures Waiting(index, unlinked, b) <==> !Links(old(index), b) && !Strands(old(index), b)
    {
      hide AllUp, EntriesOk, AllWait, StrandedOk, OrderOk, CompleteFrom, BarOk, FlagsOk, ChainOk, CandidatesOk, Tree, UnlinkedOk, DataOnly;
      ghost var s0 := S();
      NotYetStranded(s0, env, bar, b);
      ParentKnown(index, env.genesis, b);
      DataPrepares(s0, env, bar, b, n);
      index := index[b := WithTransactions(index[b], n)];
      OrderKept(s0.idx, index, nextSeq, order);
      var p := index[b].prev;
      ParentKnown(index, env.genesis, b);
      if p.None? || Linked(index, p.value) {
        DataQueued(s0, S(), env, bar, b, n);
        LinkFrom(b, n, s0.idx);
      } else if !index[p.value].Failed() {
        unlinked := unlinked[p.value := Waiters(unlinked, p.value) + [b]];
        DataFiled(s0, S(), env, bar, b, n);
      } else {
        stranded := stranded + {b};
        DataIgnored(s0, S(), env, bar, b, n);
      }
      HasData(s0.idx, index, b, n);
      WaitingIff(S(), env, bar, b);
    }

    /** Takes in the data of a block whose header is known. */
    method AcceptBlock(b: BlockId, n: nat) returns (ok: bool)
      requires Valid() && n > 0
      modifies this`index, this`unlinked, this`candidates, this`nextSeq, this`order, this`stranded
      ensures Valid() && SameTree(old(index), index)
      ensures ok <==> b in old(index) && !old(index)[b].Failed() && (old(index)[b].haveData || env.wellFormed(b))
      ensures forall c :: c in index ==> (index[c].haveData <==> old(index)[c].haveData || (ok && c == b))
      ensures forall c :: c in index && c != b ==> index[c].Failed() == old(index)[c].Failed()
      ensures b in index ==> (ok <==> !index[b].Failed())
      ensures ok && !old(index)[b].haveData ==> (Linked(index, b) <==> Links(old(index), b))
      ensures stranded == old(stranded) + (if ok && !old(index)[b].haveData && Strands(old(index), b) then {b} else {})
      ensures if ok && !old(index)[b].haveData && Links(old(index), b) then old(order) + [b] <= order else order == old(order)
    {
      hide AllUp, EntriesOk, AllWait, StrandedOk, OrderOk, CompleteFrom, BarOk, FlagsOk, ChainOk, CandidatesOk, Tree, UnlinkedOk, OnlyFlags;
      if b !in index || index[b].Failed() {
        return false;
      }
      if index[b].haveData {
        return true;
      }
      if !env.wellFormed(b) {
        ghost var s0 := S();
        index := index[b := index[b].(failedValid := true)];
        OrderKept(s0.idx, index, nextSeq, order);
        NotACandidate(s0, env, bar, b);
        FailKeepsInv(s0, S(), env, bar, b);
        return false;
      }
      ReceivedBlockTransactions(b, n);
      ok := true;
    }

    // ---------- invalidating a block by hand ----------

    /** Marks b as failed, disconnects it if it is in the active chain, and refills the candidates. */
    method InvalidateBlock(b: BlockId)
      requires Valid() && b in index && b != env.genesis && chain != []
      modifies this`index, this`chain, this`candidates, this`condemned, this`bar
      ensures Valid() && OnlyFlags(old(index), index) && bar == Last(chain)
      ensures b in index && index[b].failedValid && b in condemned && b !in chain
      ensures chain != [] && chain <= old(chain)
      ensures b !in old(chain) ==> chain == old(chain)
      ensures Invalidation(old(S()), S(), b, |chain|)
    {
      hide AllUp, EntriesOk, AllWait, StrandedOk, OrderOk, CompleteFrom, BarOk, FlagsOk, Tree, UnlinkedOk, OnlyFlags, ChainOk, CandidatesOk, RefilledCandidates;
      ghost var s0 := S();
      DisconnectFailed(b);
      RefillCandidates(s0);
      InvalidationKeepsInv(s0, S(), env, bar, b, |chain|);
      FlagsKeepOrder(s0.idx, index, nextSeq, order);
      bar := Last(chain);
    }

    /** Marks b, and marks and disconnects the part of the active chain from b up. */
    method DisconnectFailed(b: BlockId)
      requires Valid() && b in index && b != env.genesis && chain != []
      modifies this`index, this`chain, this`candidates, this`condemned
      ensures chain != [] && chain[|chain| - 1] in index && b !in chain
      ensures b in index && index[b].failedValid
      ensures Invalidation(old(S()), S(), b, |chain|) && candidates <= old(candidates)
      ensures forall c :: c in candidates ==> c in index
      ensures b !in old(chain) ==> chain == old(chain)
    {
      hide AllUp, EntriesOk, AllWait, StrandedOk, OrderOk, CompleteFrom, BarOk, FlagsOk, Tree, UnlinkedOk, OnlyFlags, ChainOk, CandidatesOk, Marked, Invalidation;
      ghost var s0 := S();
      NotGenesis(s0, env, bar, b);
      index := index[b := index[b].(failedValid := true)];
      candidates := candidates - {b};
      condemned := condemned + {b};
      FirstMark(s0, S(), b);
      while Contains(b)
        invariant chain != [] && b in index && Marked(s0, S(), b)
        decreases |chain|
      {
        MarkedTip(s0, S(), b);
        var walk := chain[|chain| - 1];
        ghost var s1 := S();
        index := index[walk := index[walk].(failedChild := true)];
        candidates := candidates - {walk};
        chain := chain[..|chain| - 1];
        MarkNext(s0, s1, S(), b);
      }
      MarkedIsInvalidation(s0, S(), env, b);
    }

    /** Puts back every usable block that sorts no lower than the tip. */
    method RefillCandidates(ghost s0: State)
      requires chain != [] && chain[|chain| - 1] in index
      requires candidates <= s0.cand && forall c :: c in candidates ==> c in index
      modifies this`candidates
      ensures RefilledCandidates(s0, S())
    {
      var todo := index.Keys;
      var tip := chain[|chain| - 1];
      while todo != {}
        invariant todo <= index.Keys
        invariant forall c :: c in candidates ==> c in index
        invariant forall c :: c in candidates ==> c in s0.cand || (Linked(index, c) && !Less(index, c, tip))
        invariant forall c :: c in index && c !in todo && index[c].IsValid(VALID_TRANSACTIONS) && Linked(index, c) ==>
                    Less(index, c, tip) || c in candidates
        decreases todo
      {
        var c :| c in todo;
        if index[c].IsValid(VALID_TRANSACTIONS) && index[c].chainTx != 0 && !Less(index, c, tip) {
          candidates := candidates + {c};
        }
        todo := todo - {c};
      }
    }

    // ---------- whole runs ----------

    /** One event; done says that it was an activation, or a round that ended one. */
    method Apply(e: Event) returns (done: bool)
      requires Valid() && Allowed(e)
      modifies this
      ensures Valid() && AddsOnly(old(index), index, e, env.genesis) && old(order) <= order
      ensures e.Activate? ==> done
      ensures done ==> TipIsBest(S(), env) && BestChainActive(S(), env)
    {
      hide Inv, OrderOk, TipIsBest, BestChainActive, OnlyFlags, SameTree, Nearer, Invalidation, Waiting, Links, Strands, AddsOnly;
      done := false;
      SameTreeAddsNothing(index, e, env.genesis);
      match e {
        case Header(id, prev, proof, contextOk) =>
          var ok := AcceptBlockHeader(id, prev, proof, contextOk);
          HeaderAdds(old(index), index, e, env.genesis);
        case Data(id, nTx) =>
          var _ := AcceptBlock(id, nTx);
        case Activate =>
          ActivateBestChain();
          done := true;
        case Round =>
          done := ActivateRound();
        case Invalidate(id) =>
          if id in index && chain != [] {
            InvalidateBlock(id);
          }
      }
    }

    /** Any sequence of events keeps the invariant, also when activations are interrupted between two rounds;
        and whenever it ends with an activation, or with a round that ends one, the active chain is the best one
        there is. */
    method Run(events: seq<Event>) returns (done: bool)
      requires Valid()
      requires forall i :: 0 <= i < |events| ==> Allowed(events[i])
      modifies this
      ensures Valid() && old(order) <= order
      ensures events != [] && events[|events| - 1].Activate? ==> done
      ensures done ==> TipIsBest(S(), env) && BestChainActive(S(), env)
    {
      hide Inv, OrderOk, TipIsBest, BestChainActive, AddsOnly;
      var i := 0;
      done := false;
      while i < |events|
        invariant 0 <= i <= |events| && Valid() && old(order) <= order
        invariant i > 0 && events[i - 1].Activate? ==> done
        invariant done ==> TipIsBest(S(), env) && BestChainActive(S(), env)
      {
        done := Apply(events[i]);
        i := i + 1;
      }
    }

    /** Headers carry work, blocks carry transactions, and genesis is never invalidated. */
    predicate Allowed(e: Event) {
      match e
      case Header(_, _, proof, _) => proof > 0
      case Data(_, nTx) => nTx > 0
      case Activate => true
      case Round => true
      case Invalidate(id) => id != env.genesis
    }
  }

  /** Known blocks keep their parents, and a new one comes with a header. */
  ghost predicate AddsOnly(idx: Index, idx': Index, e: Event, genesis: BlockId) {
    forall b :: b in idx' ==>
      if b in idx then idx'[b].prev == idx[b].prev
      else e.Header? && b == e.id && idx'[b].prev == (if b == genesis then None else e.prev)
  }

  lemma SameTreeAddsNothing(idx: Index, e: Event, genesis: BlockId)
    ensures forall idx' {:trigger SameTree(idx, idx')} :: SameTree(idx, idx') ==> AddsOnly(idx, idx', e, genesis)
    ensures forall idx' {:trigger OnlyFlags(idx, idx')} :: OnlyFlags(idx, idx') ==> AddsOnly(idx, idx', e, genesis)
    ensures AddsOnly(idx, idx, e, genesis)
  {
  }

  lemma HeaderAdds(idx: Index, idx': Index, e: Event, genesis: BlockId)
    requires e.Header? && (idx'.Keys == idx.Keys || idx'.Keys == idx.Keys + {e.id})
    requires forall b :: b in idx ==> b in idx' && idx'[b] == idx[b]
    requires e.id in idx' && e.id !in idx ==> idx'[e.id].prev == (if e.id == genesis then None else e.prev)
    ensures AddsOnly(idx, idx', e, genesis)
  {
  }

  /** A node whose active chain is genesis, which is all it knows. */
  method GenesisNode() returns (node: Node)
    ensures fresh(node) && node.Valid() && node.env.genesis == 0 && (forall b :: node.env.wellFormed(b))
    ensures node.index.Keys == {0} && node.index[0].haveData && !node.index[0].Failed() && node.chain == [0]
  {
    hide AllUp, Tree, ChainOk, EntriesOk, UnlinkedOk, AllWait, StrandedOk, OrderOk, CompleteFrom, BarOk, FlagsOk, CandidatesOk;
    hide OnlyFlags, TipIsBest, BestChainActive, Waiting;
    node := new Node(Env(0, _ => true, _ => true));
    var ok := node.AcceptBlockHeader(0, None, 1, true);
    ok := node.AcceptBlock(0, 1);
    ghost var idx := node.index;
    node.ActivateBestChain();
    FlagsSpare(idx, node.index);
    OnlyGenesis(node.S(), node.env);
  }

  /** Blocks 1, 2 and 3 in a line above genesis, none failed. */
  ghost predicate FourInLine(idx: Index) {
    && 0 in idx && 1 in idx && 2 in idx && 3 in idx
    && idx[1].prev == Some(0) && idx[2].prev == Some(1) && idx[3].prev == Some(2)
    && !idx[1].Failed() && !idx[3].Failed() && idx[0].haveData
  }

  method HeadersOnGenesis(node: Node)
    requires node.Valid() && node.env.genesis == 0 && node.index.Keys == {0} && node.index[0].haveData && !node.index[0].Failed()
    modifies node`index
    ensures node.Valid() && FourInLine(node.index) && !node.index[2].Failed()
    ensures !node.index[1].haveData && !node.index[2].haveData && !node.index[3].haveData
  {
    hide AllUp, Tree, ChainOk, EntriesOk, UnlinkedOk, AllWait, StrandedOk, OrderOk, CompleteFrom, BarOk, FlagsOk, CandidatesOk;
    hide OnlyFlags, TipIsBest, BestChainActive, Waiting;
    var ok := node.AcceptBlockHeader(1, Some(0), 1, true);
    ok := node.AcceptBlockHeader(2, Some(1), 1, true);
    ok := node.AcceptBlockHeader(3, Some(2), 1, true);
  }

  /** The data of 2 arrives, 2 is invalidated while it waits for the data of 1, and the data of 3 arrives. */
  method StrandThree(node: Node)
    requires node.Valid() && node.env.genesis == 0 && (forall b :: node.env.wellFormed(b)) && node.chain != []
    requires FourInLine(node.index) && !node.index[2].Failed()
    requires !node.index[1].haveData && !node.index[2].haveData && !node.index[3].haveData
    modifies node
    ensures node.Valid() && FourInLine(node.index) && node.index[2].haveData && node.index[3].haveData && 3 in node.stranded
  {
    hide AllUp, Tree, ChainOk, EntriesOk, UnlinkedOk, AllWait, StrandedOk, OrderOk, CompleteFrom, BarOk, FlagsOk, CandidatesOk;
    hide OnlyFlags, TipIsBest, BestChainActive, Waiting;
    NotLinkedWithoutData(node.S(), node.env, node.bar);
    var ok := node.AcceptBlock(2, 1);
    NotLinkedWithoutData(node.S(), node.env, node.bar);
    ghost var idx := node.index;
    node.InvalidateBlock(2);
    FlagsSpare(idx, node.index);
    ok := node.AcceptBlock(3, 1);
  }

  /** A run in which a block stays unlinked although the data of all its ancestors is there: its own data came
      while its parent, failed, was still waiting for data below it. */
  method FailedParentStrandsChild() returns (node: Node)
    ensures fresh(node) && node.Valid() && 3 in node.index && node.env.genesis == 0
    ensures DataComplete(node.index, 0, 3) && !Linked(node.index, 3) && !Waiting(node.index, node.unlinked, 3)
  {
    hide AllUp, Tree, ChainOk, EntriesOk, UnlinkedOk, AllWait, StrandedOk, OrderOk, CompleteFrom, BarOk, FlagsOk, CandidatesOk;
    hide OnlyFlags, TipIsBest, BestChainActive, Waiting;
    node := GenesisNode();
    HeadersOnGenesis(node);
    StrandThree(node);
    var ok := node.AcceptBlock(1, 1);
    AllFourHaveData(node.index);
    StrandedIsLost(node.S(), node.env, node.bar, 3);
  }

  lemma OnlyGenesis(s: State, env: Env)
    requires BestChainActive(s, env) && s.idx.Keys == {env.genesis} && s.condemned == {}
    requires s.idx[env.genesis].haveData && env.wellFormed(env.genesis) && env.connects(env.genesis)
    ensures s.chain == [env.genesis] && !s.idx[env.genesis].Failed()
  {
    var g := env.genesis;
    assert ParentOk(s.idx, g);
    assert Sound(s, env, g) && DataComplete(s.idx, g, g);
    assert forall c :: c in s.idx ==> c in s.idx.Keys;
  }

  lemma NotLinkedWithoutData(s: State, env: Env, t: Option<BlockId>)
    requires Inv(s, env, t)
    ensures forall b :: b in s.idx && !s.idx[b].haveData ==> !Linked(s.idx, b)
    ensures forall b :: b in s.chain ==> b in s.idx && Linked(s.idx, b)
  {
    hide AllUp, UnlinkedOk, AllWait, StrandedOk, OrderOk, CompleteFrom, BarOk, FlagsOk, CandidatesOk;
    forall b | b in s.idx && !s.idx[b].haveData ensures !Linked(s.idx, b) {
      assert EntryOk(s.idx, s.nextSeq, b);
    }
  }

  lemma FlagsSpare(idx: Index, idx': Index)
    requires OnlyFlags(idx, idx')
    ensures SameTree(idx, idx') && forall b :: b in idx ==> b in idx' && idx'[b].haveData == idx[b].haveData && (Linked(idx', b) <==> Linked(idx, b))
  {
  }

  lemma AllFourHaveData(idx: Index)
    requires Tree(idx, 0) && 0 in idx && 1 in idx && 2 in idx && 3 in idx
    requires idx[3].prev == Some(2) && idx[2].prev == Some(1) && idx[1].prev == Some(0)
    requires idx[0].haveData && idx[1].haveData && idx[2].haveData && idx[3].haveData
    ensures DataComplete(idx, 0, 3)
  {
    assert DataComplete(idx, 0, 0);
    assert DataComplete(idx, 0, 1);
    assert DataComplete(idx, 0, 2);
  }

  lemma StrandedIsLost(s: State, env: Env, t: Option<BlockId>, b: BlockId)
    requires Inv(s, env, t) && b in s.stranded
    ensures b in s.idx && !Linked(s.idx, b) && !Waiting(s.idx, s.unlinked, b)
  {
    hide AllUp, EntriesOk, UnlinkedOk, AllWait, ChainOk, CandidatesOk, FlagsOk, CompleteFrom, BarOk, Tree;
  }

  lemma OnlyFlagsRefl(idx: Index)
    ensures OnlyFlags(idx, idx)
  {
  }

  lemma DescendantOfFailed(idx: Index, genesis: BlockId, b: BlockId, bad: BlockId)
    requires Tree(idx, genesis) && b in idx && bad in idx && idx[bad].Failed()
    requires idx[bad].height <= idx[b].height && Ancestor(idx, genesis, b, idx[bad].height) == bad
    ensures !Clean(idx, genesis, b)
  {
    if Clean(idx, genesis, b) {
      AllUpAncestor(idx, genesis, b, idx[bad].height, Unfailed(idx));
    }
  }

  /** Stepping from f to its parent on the way down to a failed ancestor. */
  lemma UncleanParent(idx: Index, idx': Index, genesis: BlockId, f: BlockId, bad: BlockId, h: nat)
    requires Tree(idx, genesis) && Tree(idx', genesis) && SameTree(idx, idx')
    requires f in idx && bad in idx && f != bad && h == idx[bad].height <= idx[f].height
    requires Ancestor(idx, genesis, f, h) == bad && idx[bad].Failed() && (idx[bad].Failed() ==> idx'[bad].Failed())
    ensures idx[f].prev.Some? && var p := idx[f].prev.value;
      && p in idx && h <= idx'[p].height < idx'[f].height && Ancestor(idx', genesis, p, h) == bad && !Clean(idx', genesis, p)
  {
    assert ParentOk(idx, f);
    var p := idx[f].prev.value;
    AncestorSameTree(idx, idx', genesis, p, h);
    DescendantOfFailed(idx', genesis, p, bad);
  }

  lemma AncestorSelf(idx: Index, genesis: BlockId, b: BlockId)
    requires Tree(idx, genesis) && b in idx
    ensures Ancestor(idx, genesis, b, idx[b].height) == b
  {
  }

  lemma ChainMembersClean(s: State, env: Env)
    requires Tree(s.idx, env.genesis) && ChainOk(s.idx, s.chain) && ChainGood(env, s.condemned, s.chain)
    ensures forall c :: c in s.chain ==> c in s.idx && Clean(s.idx, env.genesis, c)
  {
    hide AllUp;
    forall c | c in s.chain ensures c in s.idx && Clean(s.idx, env.genesis, c) {
      var i :| 0 <= i < |s.chain| && s.chain[i] == c;
      ChainIsSound(s, env, i);
    }
  }

  /** One step of walking down from an ancestor a of m. */
  lemma WalkDown(idx: Index, genesis: BlockId, m: BlockId, a: BlockId)
    requires Tree(idx, genesis) && m in idx && a in idx && idx[a].height <= idx[m].height
    requires Ancestor(idx, genesis, m, idx[a].height) == a
    ensures Clean(idx, genesis, a) <==>
            !idx[a].Failed() && (idx[a].prev.Some? ==> idx[a].prev.value in idx && Clean(idx, genesis, idx[a].prev.value))
    ensures idx[a].prev.Some? ==>
              && idx[a].prev.value in idx
              && idx[idx[a].prev.value].height + 1 == idx[a].height
              && Ancestor(idx, genesis, m, idx[a].height - 1) == idx[a].prev.value
  {
    CleanUnfold(idx, genesis, a);
    assert ParentOk(idx, a);
    if idx[a].prev.Some? {
      AncestorTransitive(idx, genesis, m, idx[a].height, idx[a].height - 1);
    }
  }

  lemma ForkWalk(idx: Index, genesis: BlockId, chain: seq<BlockId>, b: BlockId, a: BlockId)
    requires Tree(idx, genesis) && ChainOk(idx, chain) && b in idx && a in idx
    requires idx[a].height < |chain| && idx[a].height <= idx[b].height
    requires Ancestor(idx, genesis, b, idx[a].height) == a && chain[idx[a].height] != a
    requires DivergesAbove(idx, genesis, chain, b, idx[a].height)
    ensures idx[a].height > 0 && DivergesAbove(idx, genesis, chain, b, idx[a].height - 1)
    ensures idx[a].prev.Some? && idx[a].prev.value in idx && idx[idx[a].prev.value].height + 1 == idx[a].height
    ensures Ancestor(idx, genesis, b, idx[a].height - 1) == idx[a].prev.value
  {
    assert ParentOk(idx, a);
    WalkDown(idx, genesis, b, a);
  }

  lemma CandidatesKnown(s: State, env: Env, t: Option<BlockId>)
    requires Inv(s, env, t)
    ensures t.Some? ==> t.value in s.idx
    ensures forall c :: c in s.cand ==> c in s.idx
  {
  }

  lemma TipBelowChild(s: State, env: Env, t: Option<BlockId>, b: BlockId)
    requires Inv(s, env, t) && Connectable(s, env, b)
    ensures t.Some? ==> t.value in s.idx
    ensures t == Last(s.chain) ==> NewBar(s.idx, b, t) == Some(b)
  {
    assert ParentOk(s.idx, b);
  }

  lemma {:induction false} LinkedAncestor(idx: Index, genesis: BlockId, nextSeq: nat, b: BlockId, h: nat)
    requires Tree(idx, genesis) && EntriesOk(idx, nextSeq) && b in idx && Linked(idx, b) && h <= idx[b].height
    ensures Linked(idx, Ancestor(idx, genesis, b, h))
    decreases idx[b].height
  {
    if idx[b].height != h {
      assert ParentOk(idx, b);
      assert EntryOk(idx, nextSeq, b);
      LinkedAncestor(idx, genesis, nextSeq, idx[b].prev.value, h);
    }
  }

  /** The next block on the way to m can be tried. */
  lemma NextOnPath(s: State, env: Env, m: BlockId, t: Option<BlockId>)
    requires Inv(s, env, t) && Heading(s, env, m) && |s.chain| <= s.idx[m].height
    ensures Connectable(s, env, Ancestor(s.idx, env.genesis, m, |s.chain|))
  {
    hide AllUp, UnlinkedOk, AllWait, StrandedOk, OrderOk, CompleteFrom, BarOk, FlagsOk, CandidatesOk;
    var h := |s.chain|;
    var b := Ancestor(s.idx, env.genesis, m, h);
    LinkedAncestor(s.idx, env.genesis, s.nextSeq, m, h);
    AllUpAncestor(s.idx, env.genesis, m, h, Unfailed(s.idx));
    WalkDown(s.idx, env.genesis, m, b);
    assert ParentOk(s.idx, b);
  }

  lemma OnPath(idx0: Index, s: State, env: Env, m: BlockId, t: Option<BlockId>, path: seq<BlockId>, i: nat)
    requires Tree(idx0, env.genesis) && OnlyFlags(idx0, s.idx) && Inv(s, env, t) && Heading(s, env, m)
    requires i < |path| && m in idx0 && |s.chain| <= idx0[m].height && path[i] == Ancestor(idx0, env.genesis, m, |s.chain|)
    ensures Connectable(s, env, path[i])
    ensures path[i] == Ancestor(s.idx, env.genesis, m, |s.chain|)
  {
    hide AllUp, EntriesOk, UnlinkedOk, AllWait, StrandedOk, OrderOk, CompleteFrom, BarOk, FlagsOk, CandidatesOk, ChainOk;
    AncestorSameTree(idx0, s.idx, env.genesis, m, |s.chain|);
    NextOnPath(s, env, m, t);
  }

  lemma StillHeading(s: State, s': State, env: Env, m: BlockId)
    requires Tree(s.idx, env.genesis) && Tree(s'.idx, env.genesis) && OnlyFlags(s.idx, s'.idx) && Heading(s, env, m)
    requires forall c :: c in s'.idx ==> c in s.idx && s'.idx[c].Failed() == s.idx[c].Failed()
    requires |s.chain| <= s.idx[m].height && s'.chain == s.chain + [Ancestor(s.idx, env.genesis, m, |s.chain|)]
    ensures Heading(s', env, m)
  {
    hide AllUp;
    AllUpAgree(s.idx, s'.idx, env.genesis, m, Unfailed(s.idx), Unfailed(s'.idx));
    AncestorSameTree(s.idx, s'.idx, env.genesis, m, |s.chain|);
  }

  lemma InvIsTree(s: State, env: Env, t: Option<BlockId>)
    requires Inv(s, env, t)
    ensures Tree(s.idx, env.genesis)
  {
  }

  lemma TipKnown(s: State, env: Env, m: BlockId)
    requires Tree(s.idx, env.genesis) && Heading(s, env, m) && s.chain != []
    ensures s.chain[|s.chain| - 1] in s.idx
  {
  }

  lemma FailureIsProgress(idx0: Index, idx1: Index, idx: Index, oldTip: Option<BlockId>, chain: seq<BlockId>, b: BlockId)
    requires OnlyFlags(idx0, idx1) && OnlyFlags(idx0, idx) && b in idx && b in idx1
    requires !idx1[b].Failed() && idx[b].Failed()
    ensures Progress(idx0, idx, oldTip, chain)
  {
    OnlyFlagsUnfailed(idx0, idx);
    assert b in UnfailedBlocks(idx0) && b !in UnfailedBlocks(idx);
  }

  lemma WorkIsProgress(idx0: Index, idx: Index, oldTip: Option<BlockId>, chain: seq<BlockId>)
    requires chain != [] && chain[|chain| - 1] in idx
    requires oldTip.None? || (oldTip.value in idx && idx[chain[|chain| - 1]].work > idx[oldTip.value].work)
    ensures Progress(idx0, idx, oldTip, chain)
  {
  }

  /** Below the fork the chain is the ancestor line of m. */
  lemma ForkShape(s: State, env: Env, m: BlockId, fork: Option<BlockId>)
    requires Tree(s.idx, env.genesis) && ChainOk(s.idx, s.chain) && m in s.idx
    requires fork.None? <==> s.chain == []
    requires fork.Some? ==> fork.value in s.idx && s.idx[fork.value].height < |s.chain|
    ensures fork.Some? ==> 0 < s.idx[fork.value].height + 1 <= |s.chain|
    ensures Last(s.chain).Some? ==> Last(s.chain).value in s.idx
  {
  }

  lemma BackAtFork(s: State, s': State, env: Env, m: BlockId, fork: Option<BlockId>)
    requires Tree(s.idx, env.genesis) && s'.idx == s.idx && ChainOk(s.idx, s.chain)
    requires m in s.idx && Linked(s.idx, m) && Clean(s.idx, env.genesis, m)
    requires fork.None? ==> s'.chain == []
    requires fork.Some? ==>
               && fork.value in s.idx && s.idx[fork.value].height < |s.chain| && s.idx[fork.value].height <= s.idx[m].height
               && s.chain[s.idx[fork.value].height] == fork.value
               && Ancestor(s.idx, env.genesis, m, s.idx[fork.value].height) == fork.value
               && s'.chain == s.chain[..s.idx[fork.value].height + 1]
    ensures Heading(s', env, m)
  {
  }

  lemma AfterPath(idx0: Index, idx1: Index, idx: Index, oldTip: Option<BlockId>, chain: seq<BlockId>, m: BlockId, more: bool)
    requires OnlyFlags(idx0, idx1) && OnlyFlags(idx1, idx) && m in idx1
    requires oldTip.Some? ==> oldTip.value in idx1
    requires !more ==> Progress(idx1, idx, oldTip, chain)
    ensures OnlyFlags(idx0, idx) && m in idx && idx[m].height == idx1[m].height
    ensures oldTip.Some? ==> oldTip.value in idx
    ensures !more ==> Progress(idx0, idx, oldTip, chain)
  {
    OnlyFlagsUnfailed(idx0, idx1);
  }

  lemma HeadingAtTop(s: State, env: Env, m: BlockId)
    requires Tree(s.idx, env.genesis) && Heading(s, env, m) && |s.chain| == s.idx[m].height + 1
    ensures Last(s.chain) == Some(m)
  {
    AncestorSelf(s.idx, env.genesis, m);
  }

  lemma BestIsLinked(s: State, env: Env, t: Option<BlockId>, m: BlockId)
    requires Inv(s, env, t) && m in s.cand
    ensures m in s.idx && Linked(s.idx, m)
  {
  }

  /** When the search finds nothing better than the tip, the tip is the best and the bar is the tip. */
  lemma SettledIsBest(s: State, env: Env, t: Option<BlockId>, best: Option<BlockId>)
    requires Inv(s, env, t)
    requires best.None? ==> s.cand == {}
    requires best.Some? ==> best == Last(s.chain) && best.value in s.cand && best.value in s.idx
    requires best.Some? ==> forall c :: c in s.cand ==> c in s.idx && !Less(s.idx, best.value, c)
    ensures t == Last(s.chain) && TipIsBest(s, env)
  {
    hide AllUp, Tree, EntriesOk, UnlinkedOk, AllWait, StrandedOk, FlagsOk;
    forall b | b in s.idx && Linked(s.idx, b) && Clean(s.idx, env.genesis, b)
      ensures s.chain != [] && !Less(s.idx, s.chain[|s.chain| - 1], b)
    {
      if best.Some? {
        BestCandidateIsBest(s, env, t, best.value, b);
      }
    }
  }

  /** Having reached the candidate that beat everything, the tip is the best and the bar is the tip. */
  lemma ReachedIsBest(s: State, s': State, env: Env, t: Option<BlockId>, t': Option<BlockId>, m: BlockId)
    requires Inv(s, env, t) && Inv(s', env, t') && OnlyFlags(s.idx, s'.idx) && Last(s'.chain) == Some(m)
    requires m in s.cand && m in s.idx && forall c :: c in s.cand ==> c in s.idx && !Less(s.idx, m, c)
    requires t' == t || t' == Last(s'.chain)
    ensures t' == Last(s'.chain) && TipIsBest(s', env)
  {
    hide AllUp, Tree, EntriesOk, UnlinkedOk, AllWait, StrandedOk, FlagsOk, CandidatesOk;
    forall b | b in s'.idx && Linked(s'.idx, b) && Clean(s'.idx, env.genesis, b)
      ensures !Less(s'.idx, m, b)
    {
      OnlyFlagsKeepsClean(s.idx, s'.idx, env.genesis, b);
      BestCandidateIsBest(s, env, t, m, b);
    }
  }

  /** Fewer unfailed blocks, or as many and fewer that sort above the tip. */
  ghost predicate Nearer(idx0: Index, chain0: seq<BlockId>, idx: Index, chain: seq<BlockId>)
    requires ChainOk(idx0, chain0) && ChainOk(idx, chain)
  {
    |UnfailedBlocks(idx)| < |UnfailedBlocks(idx0)| ||
    (|UnfailedBlocks(idx)| == |UnfailedBlocks(idx0)| && Above(idx, chain) < Above(idx0, chain0))
  }

  lemma ProgressDecreases(idx0: Index, idx1: Index, idx: Index, chain0: seq<BlockId>, chain: seq<BlockId>)
    requires ChainOk(idx0, chain0) && ChainOk(idx, chain)
    requires OnlyFlags(idx0, idx1) && OnlyFlags(idx1, idx) && OnlyFlags(idx0, idx)
    requires Progress(idx1, idx, Last(chain0), chain)
    ensures Nearer(idx0, chain0, idx, chain)
  {
    OnlyFlagsUnfailed(idx0, idx1);
    OnlyFlagsUnfailed(idx1, idx);
    if UnfailedBlocks(idx) < UnfailedBlocks(idx1) {
      SubsetSize(UnfailedBlocks(idx), UnfailedBlocks(idx1));
    } else {
      HigherTipHasFewerAbove(idx0, idx, chain0, chain);
    }
  }

  // ---------- receiving data ----------

  /** Apart from the data of b, only chain counts and sequence numbers differ. */
  ghost predicate DataOnly(idx: Index, idx': Index, b: BlockId, n: nat) {
    && SameTree(idx, idx')
    && b in idx && idx'[b].haveData && idx'[b].nTx == n
    && (forall c :: c in idx && c != b ==> idx'[c].haveData == idx[c].haveData && idx'[c].nTx == idx[c].nTx)
    && (forall c :: c in idx ==> idx'[c].Failed() == idx[c].Failed())
  }

  /** Data, transaction counts and failures are as before. */
  ghost predicate CountsOnly(idx: Index, idx': Index) {
    forall c :: c in idx ==>
      && c in idx' && idx'[c].haveData == idx[c].haveData && idx'[c].nTx == idx[c].nTx && idx'[c].Failed() == idx[c].Failed()
      && (Linked(idx, c) ==> Linked(idx', c))
  }

  lemma StillParentLinked(idx: Index, idx': Index, b: BlockId)
    requires SameTree(idx, idx') && CountsOnly(idx, idx')
    requires b in idx && (idx[b].prev.Some? ==> idx[b].prev.value in idx && Linked(idx, idx[b].prev.value))
    ensures b in idx' && (idx'[b].prev.Some? ==> idx'[b].prev.value in idx' && Linked(idx', idx'[b].prev.value))
  {
  }

  lemma HasData(idx: Index, idx': Index, b: BlockId, n: nat)
    requires DataOnly(idx, idx', b, n)
    ensures b in idx' && idx'[b].haveData
  {
  }

  lemma LinkedEntryCounts(idx: Index, b: BlockId, seqId: nat)
    requires b in idx && !Linked(idx, b) && (idx[b].prev.Some? ==> idx[b].prev.value in idx)
    ensures SameTree(idx, idx[b := LinkedEntry(idx, b, seqId)]) && CountsOnly(idx, idx[b := LinkedEntry(idx, b, seqId)])
  {
  }

  lemma StillDataOnly(idx0: Index, idx: Index, idx': Index, b: BlockId, n: nat)
    requires DataOnly(idx0, idx, b, n) && SameTree(idx, idx') && CountsOnly(idx, idx')
    ensures DataOnly(idx0, idx', b, n)
  {
  }

  /** What becomes of data that arrives for b: the block is linked if its parent is, is given up if its parent
      is failed and not linked, and waits otherwise. */
  ghost predicate Links(idx: Index, b: BlockId)
    requires b in idx
  {
    idx[b].prev.Some? ==> idx[b].prev.value in idx && Linked(idx, idx[b].prev.value)
  }

  ghost predicate Strands(idx: Index, b: BlockId)
    requires b in idx
  {
    idx[b].prev.Some? && idx[b].prev.value in idx && !Linked(idx, idx[b].prev.value) && idx[idx[b].prev.value].Failed()
  }

  lemma NotYetStranded(s: State, env: Env, t: Option<BlockId>, b: BlockId)
    requires Inv(s, env, t) && b in s.idx && !s.idx[b].haveData
    ensures b !in s.stranded
  {
    hide AllUp, EntriesOk, UnlinkedOk, AllWait, ChainOk, CandidatesOk, FlagsOk, CompleteFrom, BarOk, Tree;
  }

  /** When the queue is empty nothing with data and a linked parent is left. */
  lemma LinkedAtLast(s: State, env: Env, t: Option<BlockId>, b: BlockId)
    requires Inv(s, env, t) && b in s.idx && s.idx[b].haveData && b !in s.stranded
    requires s.idx[b].prev.Some? ==> s.idx[b].prev.value in s.idx && Linked(s.idx, s.idx[b].prev.value)
    ensures Linked(s.idx, b)
  {
    hide AllUp, EntriesOk, StrandedOk, ChainOk, CandidatesOk, FlagsOk, CompleteFrom, BarOk, Tree;
  }

  lemma ParentKnown(idx: Index, genesis: BlockId, b: BlockId)
    requires Tree(idx, genesis) && b in idx
    ensures idx[b].prev.Some? ==> idx[b].prev.value in idx && idx[b].prev.value != b
  {
    assert ParentOk(idx, b);
  }

  lemma DataPrepares(s: State, env: Env, t: Option<BlockId>, b: BlockId, n: nat)
    requires Inv(s, env, t) && b in s.idx && !s.idx[b].haveData && !s.idx[b].Failed() && n > 0
    ensures !Linked(s.idx, b)
    ensures Tree(s.idx[b := WithTransactions(s.idx[b], n)], env.genesis)
    ensures UnlinkedOk(s.idx[b := WithTransactions(s.idx[b], n)], s.unlinked)
  {
    hide AllUp, AllWait, StrandedOk, OrderOk, CompleteFrom, BarOk, FlagsOk, ChainOk, CandidatesOk;
    DataKeepsEntries(s.idx, env.genesis, s.nextSeq, b, n);
  }

  lemma DataQueued(s: State, s': State, env: Env, t: Option<BlockId>, b: BlockId, n: nat)
    requires Inv(s, env, t) && DataUpdate(s, s', env, b, n) && s'.unlinked == s.unlinked && s'.stranded == s.stranded
    requires Tree(s'.idx, env.genesis) && UnlinkedOk(s'.idx, s'.unlinked) && !Linked(s'.idx, b)
    requires s'.idx[b].prev.Some? ==> s'.idx[b].prev.value in s'.idx && Linked(s'.idx, s'.idx[b].prev.value)
    ensures InvQ(s', env, t, [b]) && QueueOk(s'.idx, [b]) && DataOnly(s.idx, s'.idx, b, n)
  {
    hide AllUp, EntriesOk, AllWait, StrandedOk, OrderOk, CompleteFrom, BarOk, FlagsOk, ChainOk, CandidatesOk, Tree, UnlinkedOk;
    NotYetStranded(s, env, t, b);
    assert Placed(s, s', env, b, [b]);
    DataKeepsInv(s, s', env, t, b, n, [b]);
  }

  lemma FrontKnown(s: State, env: Env, t: Option<BlockId>, queue: seq<BlockId>)
    requires InvQ(s, env, t, queue) && QueueOk(s.idx, queue) && queue != []
    ensures queue[0] in s.idx && !Linked(s.idx, queue[0])
    ensures s.idx[queue[0]].prev.Some? ==> s.idx[queue[0]].prev.value in s.idx
    ensures forall i :: 0 <= i < |s.chain| ==> s.chain[i] in s.idx
  {
    assert queue[0] in queue;
  }

  lemma LinkingShrinks(idx: Index, idx': Index, b: BlockId)
    requires b in idx && !Linked(idx, b) && b in idx' && idx' == idx[b := idx'[b]] && Linked(idx', b)
    ensures |set c | c in idx' && !Linked(idx', c)| < |set c | c in idx && !Linked(idx, c)|
  {
    var u, u' := set c | c in idx && !Linked(idx, c), set c | c in idx' && !Linked(idx', c);
    assert b in u && u' == u - {b};
  }

  lemma WaiterFiled(idx: Index, idx': Index, unlinked: map<BlockId, seq<BlockId>>, p: BlockId, b: BlockId)
    requires UnlinkedOk(idx, unlinked) && UnlinkedOk(idx', unlinked) && b in idx && !idx[b].haveData
    requires b in idx' && idx'[b].prev == Some(p) && idx'[b].haveData && !Linked(idx', b) && p in idx' && !Linked(idx', p)
    ensures UnlinkedOk(idx', unlinked[p := Waiters(unlinked, p) + [b]])
  {
    var w := Waiters(unlinked, p);
    assert b !in w;
    assert NoDup(w + [b]);
  }

  lemma FiledIsPlaced(s: State, s': State, env: Env, b: BlockId)
    requires Tree(s'.idx, env.genesis) && b in s.idx && b in s'.idx && s'.idx == s.idx[b := s'.idx[b]] && s'.idx[b].prev == s.idx[b].prev
    requires s.idx[b].prev.Some? && s'.stranded == s.stranded && b !in s.stranded
    requires s'.unlinked == s.unlinked[s.idx[b].prev.value := Waiters(s.unlinked, s.idx[b].prev.value) + [b]]
    ensures Placed(s, s', env, b, [])
  {
    hide Tree, AllUp;
    assert b in s'.unlinked[s.idx[b].prev.value];
  }

  lemma DataFiled(s: State, s': State, env: Env, t: Option<BlockId>, b: BlockId, n: nat)
    requires Inv(s, env, t) && DataUpdate(s, s', env, b, n)
    requires Tree(s'.idx, env.genesis) && UnlinkedOk(s'.idx, s.unlinked) && !Linked(s.idx, b)
    requires s.idx[b].prev.Some? && s.idx[b].prev.value in s'.idx && !Linked(s'.idx, s.idx[b].prev.value)
    requires s'.unlinked == s.unlinked[s.idx[b].prev.value := Waiters(s.unlinked, s.idx[b].prev.value) + [b]]
    requires s'.stranded == s.stranded
    ensures Inv(s', env, t) && DataOnly(s.idx, s'.idx, b, n)
  {
    hide AllUp, EntriesOk, AllWait, StrandedOk, OrderOk, CompleteFrom, BarOk, FlagsOk, ChainOk, CandidatesOk, Tree, UnlinkedOk;
    WaiterFiled(s.idx, s'.idx, s.unlinked, s.idx[b].prev.value, b);
    NotYetStranded(s, env, t, b);
    FiledIsPlaced(s, s', env, b);
    DataKeepsInv(s, s', env, t, b, n, []);
  }

  lemma NotFiledYet(idx: Index, unlinked: map<BlockId, seq<BlockId>>, b: BlockId)
    requires UnlinkedOk(idx, unlinked) && b in idx && !idx[b].haveData
    ensures !Waiting(idx, unlinked, b)
  {
  }

  lemma DataIgnored(s: State, s': State, env: Env, t: Option<BlockId>, b: BlockId, n: nat)
    requires Inv(s, env, t) && DataUpdate(s, s', env, b, n) && s'.unlinked == s.unlinked && s'.stranded == s.stranded + {b}
    requires Tree(s'.idx, env.genesis) && UnlinkedOk(s'.idx, s'.unlinked) && UnlinkedOk(s.idx, s.unlinked)
    requires s'.idx[b].prev.Some? && s'.idx[b].prev.value in s'.idx && s'.idx[s'.idx[b].prev.value].Failed()
    ensures Inv(s', env, t) && DataOnly(s.idx, s'.idx, b, n)
  {
    hide AllUp, EntriesOk, AllWait, StrandedOk, OrderOk, CompleteFrom, BarOk, FlagsOk, ChainOk, CandidatesOk, Tree, UnlinkedOk;
    CleanUnfold(s'.idx, env.genesis, b);
    CleanUnfold(s'.idx, env.genesis, s'.idx[b].prev.value);
    NotFiledYet(s.idx, s.unlinked, b);
    assert Placed(s, s', env, b, []);
    DataKeepsInv(s, s', env, t, b, n, []);
  }

  lemma NotACandidate(s: State, env: Env, t: Option<BlockId>, b: BlockId)
    requires Inv(s, env, t) && b in s.idx && !s.idx[b].haveData
    ensures b !in s.cand && s.cand - {b} == s.cand
  {
    hide AllUp, AllWait, StrandedOk, OrderOk, CompleteFrom, BarOk, FlagsOk, ChainOk, UnlinkedOk;
    assert EntryOk(s.idx, s.nextSeq, b);
  }

  // ---------- invalidating by hand ----------

  lemma NotGenesis(s: State, env: Env, t: Option<BlockId>, b: BlockId)
    requires Inv(s, env, t) && b in s.idx && b != env.genesis && s.chain != []
    ensures ChainOk(s.idx, s.chain) && b != s.chain[0]
    ensures forall c :: c in s.cand ==> c in s.idx
  {
    assert ParentOk(s.idx, b);
  }

  /** The state after b and the disconnected part of the chain have been marked. */
  ghost predicate Marked(s: State, s': State, b: BlockId) {
    && b in s.idx && ChainOk(s.idx, s.chain) && |s'.chain| <= |s.chain| && s'.chain == s.chain[..|s'.chain|]
    && (forall c :: c in s.cand ==> c in s.idx)
    && OnlyFlags(s.idx, s'.idx)
    && (forall c :: c in s.idx ==> (s'.idx[c].failedValid <==> s.idx[c].failedValid || c == b))
    && (forall c :: c in s.idx ==> (s'.idx[c].failedChild <==> s.idx[c].failedChild || c in s.chain[|s'.chain|..]))
    && s'.condemned == s.condemned + {b} && s'.cand <= s.cand
    && s'.unlinked == s.unlinked && s'.nextSeq == s.nextSeq && s'.stranded == s.stranded
    && (if b in s.chain then 0 < s.idx[b].height <= |s'.chain| else s'.chain == s.chain)
  }

  lemma FirstMark(s: State, s': State, b: BlockId)
    requires b in s.idx && s.chain != [] && ChainOk(s.idx, s.chain) && b != s.chain[0]
    requires forall c :: c in s.cand ==> c in s.idx
    requires s' == s.(idx := s.idx[b := s.idx[b].(failedValid := true)], cand := s.cand - {b}, condemned := s.condemned + {b})
    ensures Marked(s, s', b)
  {
    if b in s.chain {
      var i :| 0 <= i < |s.chain| && s.chain[i] == b;
    }
  }

  lemma MarkedTip(s: State, s': State, b: BlockId)
    requires Marked(s, s', b) && s'.chain != []
    ensures s'.chain[|s'.chain| - 1] in s'.idx
  {
  }

  lemma TailNext(chain: seq<BlockId>, n: nat, c: BlockId)
    requires n < |chain|
    ensures c in chain[n..] <==> c == chain[n] || c in chain[n + 1..]
  {
    assert chain[n..] == [chain[n]] + chain[n + 1..];
  }

  lemma FlagsOne(idx: Index, b: BlockId)
    requires b in idx
    ensures OnlyFlags(idx, idx[b := idx[b].(failedChild := true)])
  {
  }

  lemma OnlyFlagsHeight(idx: Index, idx': Index, b: BlockId)
    requires OnlyFlags(idx, idx') && b in idx
    ensures idx.Keys == idx'.Keys && SameTree(idx, idx') && idx'[b].height == idx[b].height
  {
  }

  lemma MarkNext(s: State, s1: State, s': State, b: BlockId)
    requires Marked(s, s1, b) && b in s1.idx && s1.idx[b].height < |s1.chain| && s1.chain[s1.idx[b].height] == b
    requires s1.chain[|s1.chain| - 1] in s1.idx
    requires var walk := s1.chain[|s1.chain| - 1];
      s' == s1.(idx := s1.idx[walk := s1.idx[walk].(failedChild := true)], cand := s1.cand - {walk},
                chain := s1.chain[..|s1.chain| - 1])
    ensures Marked(s, s', b) && s'.chain != []
  {
    hide ChainOk, OnlyFlags;
    var n := |s'.chain|;
    var walk := s1.chain[n];
    assert s.chain[n] == walk;
    assert s.chain[s1.idx[b].height] == b;
    FlagsOne(s1.idx, walk);
    OnlyFlagsTransitive(s.idx, s1.idx, s'.idx);
    OnlyFlagsHeight(s.idx, s1.idx, b);
    forall c | c in s.idx ensures s'.idx[c].failedChild <==> s.idx[c].failedChild || c in s.chain[n..] {
      TailNext(s.chain, n, c);
    }
  }

  lemma MarkedIsInvalidation(s: State, s': State, env: Env, b: BlockId)
    requires Marked(s, s', b) && s.chain != [] && s'.chain != [] && b in s'.idx
    requires !(s'.idx[b].height < |s'.chain| && s'.chain[s'.idx[b].height] == b)
    ensures Invalidation(s, s', b, |s'.chain|)
    ensures s'.chain[|s'.chain| - 1] in s'.idx && b !in s'.chain && s'.idx[b].failedValid
    ensures forall c :: c in s'.cand ==> c in s.cand && c in s'.idx
    ensures b !in s.chain ==> s'.chain == s.chain
  {
    if b in s.chain {
      var i :| 0 <= i < |s.chain| && s.chain[i] == b;
      assert s.idx[b].height == i;
      assert |s'.chain| == i;
    }
    forall i | 0 <= i < |s'.chain| ensures s'.chain[i] != b {
      assert s.chain[i] == s'.chain[i];
      assert s.idx[s.chain[i]].height == i;
    }
  }
}
