/** Each elementary update that chain selection makes keeps the invariant. */
module ChainSteps {
  import opened Base
  import opened BlockTree
  import opened ChainInvariant

  /** Only failure flags and validity levels differ, no failure is forgotten, and the levels say
      the same about which blocks have their transactions. */
  ghost predicate OnlyFlags(idx: Index, idx': Index) {
    && SameTree(idx, idx')
    && forall b :: b in idx ==>
         && idx[b].nTx == idx'[b].nTx && idx[b].chainTx == idx'[b].chainTx
         && idx[b].seqId == idx'[b].seqId && idx[b].haveData == idx'[b].haveData
         && (idx[b].Failed() ==> idx'[b].Failed())
         && idx[b].level <= idx'[b].level
         && (idx[b].level >= VALID_TRANSACTIONS <==> idx'[b].level >= VALID_TRANSACTIONS)
  }

  lemma FlagsKeepOrder(idx: Index, idx': Index, nextSeq: nat, order: seq<BlockId>)
    requires OnlyFlags(idx, idx') && OrderOk(idx, nextSeq, order)
    ensures OrderOk(idx', nextSeq, order)
  {
    hide OrderOk;
    OrderKept(idx, idx', nextSeq, order);
  }

  lemma OnlyFlagsTransitive(a: Index, b: Index, c: Index)
    requires OnlyFlags(a, b) && OnlyFlags(b, c)
    ensures OnlyFlags(a, c)
  {
  }

  lemma OnlyFlagsKeepsClean(idx: Index, idx': Index, genesis: BlockId, b: BlockId)
    requires Tree(idx, genesis) && OnlyFlags(idx, idx') && b in idx
    ensures Tree(idx', genesis)
    ensures Clean(idx', genesis, b) ==> Clean(idx, genesis, b)
  {
    SameTreeKeepsTree(idx, idx', genesis);
    if Clean(idx', genesis, b) {
      AllUpMono(idx', idx, genesis, b, Unfailed(idx'), Unfailed(idx));
    }
  }

  lemma {:induction false} AncestorSameTree(idx: Index, idx': Index, genesis: BlockId, b: BlockId, h: nat)
    requires Tree(idx, genesis) && SameTree(idx, idx') && b in idx && h <= idx[b].height
    ensures Tree(idx', genesis)
    ensures Ancestor(idx', genesis, b, h) == Ancestor(idx, genesis, b, h)
    decreases idx[b].height
  {
    SameTreeKeepsTree(idx, idx', genesis);
    if idx[b].height != h {
      assert ParentOk(idx, b);
      AncestorSameTree(idx, idx', genesis, idx[b].prev.value, h);
    }
  }

  // ---------- what an update of flags keeps, part by part ----------

  lemma FlagsKeepEntries(idx: Index, idx': Index, genesis: BlockId, nextSeq: nat)
    requires Tree(idx, genesis) && Tree(idx', genesis) && OnlyFlags(idx, idx') && EntriesOk(idx, nextSeq)
    ensures EntriesOk(idx', nextSeq)
  {
    forall b | b in idx' ensures EntryOk(idx', nextSeq, b) {
      assert ParentOk(idx, b);
      assert EntryOk(idx, nextSeq, b);
    }
  }

  lemma FlagsKeepWaiting(idx: Index, idx': Index, genesis: BlockId, unlinked: map<BlockId, seq<BlockId>>, stranded: set<BlockId>)
    requires Tree(idx, genesis) && Tree(idx', genesis) && OnlyFlags(idx, idx')
    requires UnlinkedOk(idx, unlinked) && AllWait(idx, unlinked, [], stranded) && StrandedOk(idx, genesis, unlinked, [], stranded)
    ensures UnlinkedOk(idx', unlinked) && AllWait(idx', unlinked, [], stranded) && StrandedOk(idx', genesis, unlinked, [], stranded)
  {
    hide AllUp, Tree;
    forall b | b in stranded ensures b in idx && !Clean(idx', genesis, b) {
      OnlyFlagsKeepsClean(idx, idx', genesis, b);
    }
    forall b | b in idx' && idx'[b].haveData && !Linked(idx', b) ensures Waiting(idx', unlinked, b) || b in stranded {
      assert Waiting(idx, unlinked, b) || b in stranded;
    }
  }

  lemma FlagsKeepComplete(idx: Index, idx': Index, genesis: BlockId, cand: set<BlockId>, t: Option<BlockId>)
    requires Tree(idx, genesis) && Tree(idx', genesis) && OnlyFlags(idx, idx')
    requires CompleteFrom(idx, genesis, cand, t)
    ensures CompleteFrom(idx', genesis, cand, t)
  {
    forall b | b in idx' && Linked(idx', b) && Clean(idx', genesis, b) && (t.Some? ==> !Less(idx', b, t.value))
      ensures b in cand
    {
      OnlyFlagsKeepsClean(idx, idx', genesis, b);
    }
  }

  lemma SoundSameTree(s: State, s': State, env: Env, b: BlockId)
    requires Tree(s.idx, env.genesis) && SameTree(s.idx, s'.idx) && s.condemned == s'.condemned && b in s.idx
    ensures Tree(s'.idx, env.genesis)
    ensures Sound(s, env, b) <==> Sound(s', env, b)
  {
    SameTreeKeepsTree(s.idx, s'.idx, env.genesis);
    AllUpAgree(s.idx, s'.idx, env.genesis, b, Good(env, s.condemned), Good(env, s.condemned));
  }

  /** Flags stay justified when the new ones are. */
  lemma FlagsKeepJustified(s: State, s': State, env: Env)
    requires Tree(s.idx, env.genesis) && Tree(s'.idx, env.genesis)
    requires OnlyFlags(s.idx, s'.idx) && s.condemned == s'.condemned && FlagsOk(s, env)
    requires forall b :: b in s.idx && s.idx[b].failedValid ==> s'.idx[b].failedValid
    requires forall b :: b in s.idx && s'.idx[b].failedValid ==> s.idx[b].failedValid || b !in Good(env, s.condemned)
    requires forall b :: b in s.idx && s'.idx[b].failedChild ==> s.idx[b].failedChild || !Clean(s.idx, env.genesis, b)
    ensures FlagsOk(s', env)
  {
    forall b | b in s'.idx && s'.idx[b].failedChild
      ensures !AllUp(s'.idx, env.genesis, b, NotFailedValid(s'.idx))
    {
      CleanIsNotFailedValid(s, env, b);
      if AllUp(s'.idx, env.genesis, b, NotFailedValid(s'.idx)) {
        AllUpMono(s'.idx, s.idx, env.genesis, b, NotFailedValid(s'.idx), NotFailedValid(s.idx));
      }
    }
  }

  lemma FlagsKeepChain(s: State, s': State, env: Env, t: Option<BlockId>)
    requires Tree(s.idx, env.genesis) && OnlyFlags(s.idx, s'.idx) && s' == s.(idx := s'.idx)
    requires ChainOk(s.idx, s.chain) && CandidatesOk(s.idx, s.chain, s.cand) && BarOk(s, env, t)
    requires forall i :: 0 <= i < |s.chain| ==> !s'.idx[s.chain[i]].Failed()
    ensures Tree(s'.idx, env.genesis)
    ensures ChainOk(s'.idx, s.chain) && CandidatesOk(s'.idx, s.chain, s.cand) && BarOk(s', env, t)
  {
    hide AllUp;
    SameTreeKeepsTree(s.idx, s'.idx, env.genesis);
    if t.Some? {
      SoundSameTree(s, s', env, t.value);
    }
  }

  ghost predicate JustifiedUpdate(s: State, s': State, env: Env)
    requires Tree(s.idx, env.genesis) && OnlyFlags(s.idx, s'.idx)
  {
    && (forall b :: b in s.idx && s.idx[b].failedValid ==> s'.idx[b].failedValid)
    && (forall b :: b in s.idx && s'.idx[b].failedValid ==> s.idx[b].failedValid || b !in Good(env, s.condemned))
    && (forall b :: b in s.idx && s'.idx[b].failedChild ==> s.idx[b].failedChild || !Clean(s.idx, env.genesis, b))
  }

  lemma JustifiedSparesChain(s: State, s': State, env: Env)
    requires Tree(s.idx, env.genesis) && OnlyFlags(s.idx, s'.idx) && JustifiedUpdate(s, s', env)
    requires ChainOk(s.idx, s.chain) && ChainGood(env, s.condemned, s.chain)
    ensures forall i :: 0 <= i < |s.chain| ==> !s'.idx[s.chain[i]].Failed()
  {
    hide AllUp;
    forall i | 0 <= i < |s.chain| ensures !s'.idx[s.chain[i]].Failed() {
      ChainIsSound(s, env, i);
    }
  }

  /** New failure flags that are justified keep the whole invariant. */
  lemma FlagUpdateKeepsInv(s: State, s': State, env: Env, t: Option<BlockId>)
    requires Inv(s, env, t) && OnlyFlags(s.idx, s'.idx) && s' == s.(idx := s'.idx)
    requires JustifiedUpdate(s, s', env)
    ensures Inv(s', env, t)
  {
    hide AllUp, OnlyFlags, ChainOk, CandidatesOk, EntriesOk, UnlinkedOk, AllWait, StrandedOk, CompleteFrom, BarOk, Tree;
    JustifiedSparesChain(s, s', env);
    FlagsKeepChain(s, s', env, t);
    FlagsKeepEntries(s.idx, s'.idx, env.genesis, s.nextSeq);
    FlagsKeepWaiting(s.idx, s'.idx, env.genesis, s.unlinked, s.stranded);
    FlagsKeepComplete(s.idx, s'.idx, env.genesis, s.cand, t);
    FlagsKeepJustified(s, s', env);
  }

  // ---------- dropping an unusable candidate ----------

  /** Marking a descendant of a failed block, as the search for the best chain does. */
  lemma FlagChildKeepsInv(s: State, s': State, env: Env, t: Option<BlockId>, f: BlockId)
    requires Inv(s, env, t) && f in s.idx && !Clean(s.idx, env.genesis, f)
    requires s' == s.(idx := s.idx[f := s.idx[f].(failedChild := true)])
    ensures Inv(s', env, t) && OnlyFlags(s.idx, s'.idx)
    ensures !Clean(s'.idx, env.genesis, f)
  {
    hide AllUp, ChainOk, CandidatesOk, EntriesOk, UnlinkedOk, AllWait, StrandedOk, CompleteFrom, BarOk, FlagsOk, Tree;
    assert OnlyFlags(s.idx, s'.idx);
    assert JustifiedUpdate(s, s', env);
    FlagUpdateKeepsInv(s, s', env, t);
    OnlyFlagsKeepsClean(s.idx, s'.idx, env.genesis, f);
  }

  lemma DropUncleanKeepsInv(s: State, s': State, env: Env, t: Option<BlockId>, f: BlockId)
    requires Inv(s, env, t) && f in s.idx && !Clean(s.idx, env.genesis, f)
    requires s' == s.(cand := s.cand - {f})
    ensures Inv(s', env, t)
  {
    if t == Some(f) {
      SoundIsClean(s, env, f);
    }
  }

  // ---------- moving the tip ----------

  lemma DisconnectKeepsInv(s: State, s': State, env: Env, t: Option<BlockId>)
    requires Inv(s, env, t) && |s.chain| > 1
    requires s' == s.(chain := s.chain[..|s.chain| - 1])
    ensures Inv(s', env, t)
  {
    ChainWork(s.idx, env.genesis, s.chain, |s.chain| - 2, |s.chain| - 1);
    forall c | c in s.cand ensures !Less(s.idx, c, Last(s'.chain).value) {
      LessIsStrictTotalOrder(s.idx, Last(s'.chain).value, Last(s.chain).value, c);
    }
    LessIsStrictTotalOrder(s.idx, Last(s'.chain).value, Last(s.chain).value, t.value);
    assert BarOk(s', env, t);
  }

  /** The bar after a successful connection. */
  ghost function NewBar(idx: Index, b: BlockId, t: Option<BlockId>): Option<BlockId>
    requires b in idx && (t.Some? ==> t.value in idx)
  {
    if t.None? || !Less(idx, b, t.value) then Some(b) else t
  }

  ghost predicate Connectable(s: State, env: Env, b: BlockId)
    requires Tree(s.idx, env.genesis)
  {
    && b in s.idx && Linked(s.idx, b) && Clean(s.idx, env.genesis, b)
    && s.idx[b].prev == Last(s.chain)
  }

  function KeptCandidates(idx: Index, cand: set<BlockId>, tip: BlockId): set<BlockId>
    requires tip in idx && forall c :: c in cand ==> c in idx
  {
    set c | c in cand && !Less(idx, c, tip)
  }

  lemma ConnectGood(s: State, env: Env, t: Option<BlockId>, b: BlockId)
    requires Inv(s, env, t) && Connectable(s, env, b) && env.connects(b)
    ensures b in Good(env, s.condemned)
    ensures s.idx[b].height == |s.chain| && !s.idx[b].Failed()
    ensures ChainOk(s.idx, s.chain + [b]) && ChainGood(env, s.condemned, s.chain + [b])
  {
    hide AllUp, CandidatesOk, UnlinkedOk, AllWait, StrandedOk, CompleteFrom, BarOk;
    assert ParentOk(s.idx, b);
    assert EntryOk(s.idx, s.nextSeq, b);
    CleanUnfold(s.idx, env.genesis, b);
  }

  /** Pruning keeps everything that can still matter above the new bar. */
  lemma PruneKeepsComplete(idx: Index, genesis: BlockId, cand: set<BlockId>, t: Option<BlockId>, b: BlockId)
    requires Tree(idx, genesis) && b in idx && Linked(idx, b) && Clean(idx, genesis, b)
    requires forall c :: c in cand ==> c in idx
    requires CompleteFrom(idx, genesis, cand, t)
    ensures CompleteFrom(idx, genesis, KeptCandidates(idx, cand, b), NewBar(idx, b, t))
  {
    var t' := NewBar(idx, b, t);
    forall c | c in idx && Linked(idx, c) && Clean(idx, genesis, c) && !Less(idx, c, t'.value)
      ensures c in KeptCandidates(idx, cand, b)
    {
      LessIsStrictTotalOrder(idx, b, t'.value, c);
      if t.Some? {
        LessIsStrictTotalOrder(idx, t.value, t'.value, c);
      }
    }
    LessIsStrictTotalOrder(idx, t'.value, b, b);
  }

  /** Connecting a block that is all right, then pruning the candidates that sort below the new tip. */
  lemma ConnectKeepsInv(s: State, s': State, env: Env, t: Option<BlockId>, b: BlockId)
    requires Inv(s, env, t) && Connectable(s, env, b) && env.connects(b)
    requires s' == s.(chain := s.chain + [b], cand := KeptCandidates(s.idx, s.cand, b))
    ensures Inv(s', env, NewBar(s.idx, b, t))
  {
    ConnectGood(s, env, t, b);
    PruneKeepsComplete(s.idx, env.genesis, s.cand, t, b);
    var t' := NewBar(s.idx, b, t);
    if t' == Some(b) {
      ChainIsSound(s', env, |s.chain|);
    }
    if t.Some? {
      LessIsStrictTotalOrder(s.idx, b, t.value, b);
      assert Sound(s', env, t.value);
    }
    assert BarOk(s', env, t');
    assert CandidatesOk(s'.idx, s'.chain, s'.cand);
  }

  /** Recording that the scripts of a block were found valid. */
  lemma RaiseKeepsInv(s: State, s': State, env: Env, t: Option<BlockId>, b: BlockId)
    requires Inv(s, env, t) && b in s.idx && Linked(s.idx, b)
    requires s' == s.(idx := s.idx[b := s.idx[b].Raised(VALID_SCRIPTS)])
    ensures Inv(s', env, t) && OnlyFlags(s.idx, s'.idx)
  {
    hide AllUp, ChainOk, CandidatesOk, EntriesOk, UnlinkedOk, AllWait, StrandedOk, CompleteFrom, BarOk, FlagsOk, Tree;
    LinkedHasTransactions(s.idx, env.genesis, s.nextSeq, b);
    assert OnlyFlags(s.idx, s'.idx);
    FlagUpdateKeepsInv(s, s', env, t);
  }

  lemma LinkedHasTransactions(idx: Index, genesis: BlockId, nextSeq: nat, b: BlockId)
    requires Tree(idx, genesis) && EntriesOk(idx, nextSeq) && b in idx && Linked(idx, b)
    ensures idx[b].haveData && idx[b].level >= VALID_TRANSACTIONS
  {
    assert ParentOk(idx, b);
    assert EntryOk(idx, nextSeq, b);
  }

  /** Finding out that a block is bad: it is marked and dropped from the candidates. */
  lemma FailKeepsInv(s: State, s': State, env: Env, t: Option<BlockId>, b: BlockId)
    requires Inv(s, env, t) && b in s.idx && b !in Good(env, s.condemned)
    requires s' == s.(idx := s.idx[b := s.idx[b].(failedValid := true)], cand := s.cand - {b})
    ensures Inv(s', env, t) && OnlyFlags(s.idx, s'.idx)
  {
    hide AllUp, ChainOk, CandidatesOk, EntriesOk, UnlinkedOk, AllWait, StrandedOk, CompleteFrom, BarOk, FlagsOk, Tree;
    var s1 := s.(idx := s'.idx);
    assert OnlyFlags(s.idx, s'.idx);
    FlagUpdateKeepsInv(s, s1, env, t);
    CleanUnfold(s1.idx, env.genesis, b);
    DropUncleanKeepsInv(s1, s', env, t, b);
  }

  // ---------- new headers ----------

  ghost predicate NewHeader(idx: Index, env: Env, b: BlockId, e: Entry) {
    && b !in idx
    && (e.prev.None? <==> b == env.genesis)
    && e.nTx == e.chainTx == e.seqId == 0 && !e.haveData && e.level == VALID_TREE && !e.Failed()
    && (match e.prev
        case None => e.height == 0
        case Some(p) => p in idx && e.height == idx[p].height + 1 && idx[p].work < e.work)
  }

  lemma HeaderKeepsTree(idx: Index, env: Env, b: BlockId, e: Entry, nextSeq: nat)
    requires Tree(idx, env.genesis) && NewHeader(idx, env, b, e) && EntriesOk(idx, nextSeq)
    ensures Tree(idx[b := e], env.genesis) && EntriesOk(idx[b := e], nextSeq)
  {
    var idx' := idx[b := e];
    forall c | c in idx' ensures ParentOk(idx', c) {
      if c != b { assert ParentOk(idx, c); }
    }
    forall c | c in idx' ensures EntryOk(idx', nextSeq, c) {
      if c != b { assert ParentOk(idx, c); assert EntryOk(idx, nextSeq, c); }
    }
  }

  lemma HeaderKeepsClean(idx: Index, env: Env, b: BlockId, e: Entry, c: BlockId)
    requires Tree(idx, env.genesis) && NewHeader(idx, env, b, e) && Tree(idx[b := e], env.genesis) && c in idx
    ensures Clean(idx, env.genesis, c) <==> Clean(idx[b := e], env.genesis, c)
    ensures AllUp(idx, env.genesis, c, NotFailedValid(idx)) <==> AllUp(idx[b := e], env.genesis, c, NotFailedValid(idx[b := e]))
  {
    AllUpAgree(idx, idx[b := e], env.genesis, c, Unfailed(idx), Unfailed(idx[b := e]));
    AllUpAgree(idx, idx[b := e], env.genesis, c, NotFailedValid(idx), NotFailedValid(idx[b := e]));
  }

  lemma HeaderKeepsUnlinked(idx: Index, env: Env, b: BlockId, e: Entry, unlinked: map<BlockId, seq<BlockId>>)
    requires Tree(idx, env.genesis) && NewHeader(idx, env, b, e) && Tree(idx[b := e], env.genesis)
    requires UnlinkedOk(idx, unlinked)
    ensures UnlinkedOk(idx[b := e], unlinked)
  {
    hide AllUp, Tree, NoDup;
    var idx' := idx[b := e];
    forall p | p in unlinked
      ensures p in idx' && !Linked(idx', p) && NoDup(unlinked[p])
      ensures forall c :: c in unlinked[p] ==> c in idx' && idx'[c].prev == Some(p) && idx'[c].haveData && !Linked(idx', c)
    {
      assert p in idx;
    }
  }

  lemma HeaderKeepsWaiting(idx: Index, env: Env, b: BlockId, e: Entry, unlinked: map<BlockId, seq<BlockId>>, stranded: set<BlockId>)
    requires Tree(idx, env.genesis) && NewHeader(idx, env, b, e) && Tree(idx[b := e], env.genesis)
    requires UnlinkedOk(idx, unlinked) && AllWait(idx, unlinked, [], stranded) && StrandedOk(idx, env.genesis, unlinked, [], stranded)
    ensures UnlinkedOk(idx[b := e], unlinked) && AllWait(idx[b := e], unlinked, [], stranded)
    ensures StrandedOk(idx[b := e], env.genesis, unlinked, [], stranded)
  {
    hide AllUp, Tree;
    HeaderKeepsUnlinked(idx, env, b, e, unlinked);
    hide UnlinkedOk;
    var idx' := idx[b := e];
    forall c | c in stranded ensures c in idx && !Clean(idx', env.genesis, c) {
      HeaderKeepsClean(idx, env, b, e, c);
    }
    forall c | c in idx' && idx'[c].haveData && !Linked(idx', c) ensures Waiting(idx', unlinked, c) || c in stranded {
      assert Waiting(idx, unlinked, c) || c in stranded;
    }
  }

  lemma HeaderKeepsComplete(idx: Index, env: Env, b: BlockId, e: Entry, cand: set<BlockId>, t: Option<BlockId>)
    requires Tree(idx, env.genesis) && NewHeader(idx, env, b, e) && Tree(idx[b := e], env.genesis)
    requires CompleteFrom(idx, env.genesis, cand, t)
    ensures CompleteFrom(idx[b := e], env.genesis, cand, t)
  {
    hide AllUp, Tree;
    var idx' := idx[b := e];
    forall c | c in idx' && Linked(idx', c) && Clean(idx', env.genesis, c) && (t.Some? ==> !Less(idx', c, t.value))
      ensures c in cand
    {
      HeaderKeepsClean(idx, env, b, e, c);
    }
  }

  lemma HeaderKeepsFlags(s: State, s': State, env: Env, b: BlockId, e: Entry)
    requires Tree(s.idx, env.genesis) && NewHeader(s.idx, env, b, e) && Tree(s'.idx, env.genesis)
    requires s' == s.(idx := s.idx[b := e]) && FlagsOk(s, env)
    ensures FlagsOk(s', env)
  {
    hide AllUp, Tree;
    forall c | c in s'.idx && s'.idx[c].failedChild ensures !AllUp(s'.idx, env.genesis, c, NotFailedValid(s'.idx)) {
      HeaderKeepsClean(s.idx, env, b, e, c);
    }
  }

  lemma HeaderKeepsInv(s: State, s': State, env: Env, t: Option<BlockId>, b: BlockId, e: Entry)
    requires Inv(s, env, t) && NewHeader(s.idx, env, b, e)
    requires s' == s.(idx := s.idx[b := e])
    ensures Inv(s', env, t)
  {
    hide AllUp, EntriesOk, UnlinkedOk, AllWait, StrandedOk, CompleteFrom, FlagsOk, Tree;
    HeaderKeepsTree(s.idx, env, b, e, s.nextSeq);
    HeaderKeepsWaiting(s.idx, env, b, e, s.unlinked, s.stranded);
    HeaderKeepsComplete(s.idx, env, b, e, s.cand, t);
    HeaderKeepsFlags(s, s', env, b, e);
    if t.Some? {
      AllUpAgree(s.idx, s'.idx, env.genesis, t.value, Good(env, s.condemned), Good(env, s.condemned));
    }
  }
}
