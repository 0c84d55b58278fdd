/** Receiving block data and linking blocks, and invalidating a block by hand: both keep the invariant. */
module ChainLinking {
  import opened Base
  import opened BlockTree
  import opened ChainInvariant
  import opened ChainSteps

  /** Blocks queued for linking have data and a linked parent, and are not linked yet. */
  ghost predicate QueueOk(idx: Index, queue: seq<BlockId>) {
    && NoDup(queue)
    && forall b :: b in queue ==>
         && b in idx && idx[b].haveData && !Linked(idx, b)
         && (idx[b].prev.Some? ==> idx[b].prev.value in idx && Linked(idx, idx[b].prev.value))
  }

  function WithTransactions(e: Entry, n: nat): Entry {
    e.(nTx := n, chainTx := 0, haveData := true).Raised(VALID_TRANSACTIONS)
  }

  function LinkedEntry(idx: Index, b: BlockId, seqId: nat): Entry
    requires b in idx && (idx[b].prev.Some? ==> idx[b].prev.value in idx)
  {
    idx[b].(chainTx := (if idx[b].prev.Some? then idx[idx[b].prev.value].chainTx else 0) + idx[b].nTx, seqId := seqId)
  }

  function Waiters(unlinked: map<BlockId, seq<BlockId>>, b: BlockId): seq<BlockId> {
    if b in unlinked then unlinked[b] else []
  }

  // ---------- one entry changes its counts but no flag ----------

  /** Exactly entry b differs, and not in its place in the tree nor in its flags. */
  ghost predicate OnlyCounts(idx: Index, idx': Index, b: BlockId) {
    && b in idx && b in idx'
    && idx' == idx[b := idx'[b]]
    && idx'[b].prev == idx[b].prev && idx'[b].height == idx[b].height && idx'[b].work == idx[b].work
    && idx'[b].failedValid == idx[b].failedValid && idx'[b].failedChild == idx[b].failedChild
  }

  lemma CountsKeepUp(idx: Index, idx': Index, genesis: BlockId, b: BlockId, c: BlockId)
    requires Tree(idx, genesis) && b in idx && OnlyCounts(idx, idx', b) && c in idx
    ensures Tree(idx', genesis)
    ensures Clean(idx, genesis, c) <==> Clean(idx', genesis, c)
    ensures AllUp(idx, genesis, c, NotFailedValid(idx)) <==> AllUp(idx', genesis, c, NotFailedValid(idx'))
  {
    SameTreeKeepsTree(idx, idx', genesis);
    AllUpAgree(idx, idx', genesis, c, Unfailed(idx), Unfailed(idx'));
    AllUpAgree(idx, idx', genesis, c, NotFailedValid(idx), NotFailedValid(idx'));
  }

  lemma CountsKeepFlags(s: State, s': State, env: Env, b: BlockId)
    requires Tree(s.idx, env.genesis) && OnlyCounts(s.idx, s'.idx, b) && s.condemned == s'.condemned
    requires FlagsOk(s, env) && (s'.idx[b].haveData ==> env.wellFormed(b))
    ensures Tree(s'.idx, env.genesis) && FlagsOk(s', env)
  {
    hide AllUp, Tree;
    CountsKeepUp(s.idx, s'.idx, env.genesis, b, b);
    forall c | c in s'.idx && s'.idx[c].failedChild ensures !AllUp(s'.idx, env.genesis, c, NotFailedValid(s'.idx)) {
      CountsKeepUp(s.idx, s'.idx, env.genesis, b, c);
    }
  }

  /** The chain and the bar do not involve a block that was not linked before. */
  lemma CountsKeepChain(s: State, s': State, env: Env, t: Option<BlockId>, b: BlockId)
    requires Tree(s.idx, env.genesis) && OnlyCounts(s.idx, s'.idx, b) && !Linked(s.idx, b)
    requires s'.chain == s.chain && s'.condemned == s.condemned
    requires ChainOk(s.idx, s.chain) && CandidatesOk(s.idx, s.chain, s.cand) && BarOk(s, env, t)
    requires t.Some? ==> t.value in s.cand
    ensures Tree(s'.idx, env.genesis)
    ensures ChainOk(s'.idx, s.chain) && CandidatesOk(s'.idx, s.chain, s.cand) && BarOk(s', env, t)
  {
    hide AllUp, Tree;
    SameTreeKeepsTree(s.idx, s'.idx, env.genesis);
    if t.Some? {
      SoundSameTree(s, s', env, t.value);
    }
  }

  // ---------- recording that the data of a block has arrived ----------

  ghost predicate DataUpdate(s: State, s': State, env: Env, b: BlockId, n: nat) {
    && b in s.idx && !s.idx[b].haveData && !s.idx[b].Failed() && env.wellFormed(b) && n > 0
    && s'.idx == s.idx[b := WithTransactions(s.idx[b], n)]
    && s'.chain == s.chain && s'.cand == s.cand && s'.nextSeq == s.nextSeq && s'.condemned == s.condemned
  }

  /** Where the newly arrived block b goes: into the queue, under its parent, or nowhere; all others stay. */
  ghost predicate Placed(s: State, s': State, env: Env, b: BlockId, queue: seq<BlockId>)
    requires b in s'.idx && Tree(s'.idx, env.genesis)
  {
    && (forall c :: c in queue ==> c == b)
    && (forall c :: c in s.idx && c in s'.idx && c != b ==>
          (Waiting(s.idx, s.unlinked, c) <==> Waiting(s'.idx, s'.unlinked, c)))
    && (Waiting(s'.idx, s'.unlinked, b) || b in queue || b in s'.stranded)
    && s'.stranded == (if Waiting(s'.idx, s'.unlinked, b) || b in queue then s.stranded else s.stranded + {b})
    && (b in s'.stranded ==> !Clean(s'.idx, env.genesis, b))
  }

  lemma DataKeepsEntries(idx: Index, genesis: BlockId, nextSeq: nat, b: BlockId, n: nat)
    requires Tree(idx, genesis) && EntriesOk(idx, nextSeq)
    requires b in idx && !idx[b].haveData && !idx[b].Failed() && n > 0
    ensures !Linked(idx, b)
    ensures Tree(idx[b := WithTransactions(idx[b], n)], genesis)
    ensures EntriesOk(idx[b := WithTransactions(idx[b], n)], nextSeq)
  {
    var idx' := idx[b := WithTransactions(idx[b], n)];
    SameTreeKeepsTree(idx, idx', genesis);
    assert ParentOk(idx, b);
    assert EntryOk(idx, nextSeq, b);
    forall c | c in idx' ensures EntryOk(idx', nextSeq, c) {
      assert ParentOk(idx, c);
      assert EntryOk(idx, nextSeq, c);
    }
  }

  lemma DataKeepsWaiting(s: State, s': State, env: Env, b: BlockId, n: nat, queue: seq<BlockId>)
    requires Tree(s.idx, env.genesis) && DataUpdate(s, s', env, b, n) && !Linked(s.idx, b)
    requires AllWait(s.idx, s.unlinked, [], s.stranded) && StrandedOk(s.idx, env.genesis, s.unlinked, [], s.stranded)
    requires Tree(s'.idx, env.genesis) && Placed(s, s', env, b, queue)
    ensures AllWait(s'.idx, s'.unlinked, queue, s'.stranded)
    ensures StrandedOk(s'.idx, env.genesis, s'.unlinked, queue, s'.stranded)
  {
    hide AllUp, Tree, Waiting;
    forall c | c in s.stranded ensures c in s.idx && c != b && !Clean(s'.idx, env.genesis, c) {
      CountsKeepUp(s.idx, s'.idx, env.genesis, b, c);
    }
  }

  lemma DataKeepsComplete(s: State, s': State, env: Env, b: BlockId, n: nat, t: Option<BlockId>)
    requires Tree(s.idx, env.genesis) && DataUpdate(s, s', env, b, n) && !Linked(s.idx, b)
    requires CompleteFrom(s.idx, env.genesis, s.cand, t) && Tree(s'.idx, env.genesis)
    requires t.Some? ==> Linked(s.idx, t.value)
    ensures CompleteFrom(s'.idx, env.genesis, s'.cand, t)
  {
    hide AllUp, Tree;
    forall c | c in s'.idx && Linked(s'.idx, c) && Clean(s'.idx, env.genesis, c) && (t.Some? ==> !Less(s'.idx, c, t.value))
      ensures c in s'.cand
    {
      CountsKeepUp(s.idx, s'.idx, env.genesis, b, c);
    }
  }

  /** The data of b arrives: b is queued for linking, or filed under its unlinked parent, or
      ignored because its parent failed. */
  lemma DataKeepsInv(s: State, s': State, env: Env, t: Option<BlockId>, b: BlockId, n: nat, queue: seq<BlockId>)
    requires Inv(s, env, t) && DataUpdate(s, s', env, b, n)
    requires UnlinkedOk(s'.idx, s'.unlinked)
    requires Tree(s'.idx, env.genesis) && Placed(s, s', env, b, queue)
    ensures InvQ(s', env, t, queue)
  {
    hide AllUp, EntriesOk, UnlinkedOk, AllWait, StrandedOk, FlagsOk, BarOk, Tree, Placed;
    DataKeepsEntries(s.idx, env.genesis, s.nextSeq, b, n);
    DataKeepsWaiting(s, s', env, b, n, queue);
    DataKeepsComplete(s, s', env, b, n, t);
    CountsKeepFlags(s, s', env, b);
    CountsKeepChain(s, s', env, t, b);
  }

  // ---------- linking the block at the front of the queue ----------

  ghost predicate LinkStep(s: State, s': State, queue: seq<BlockId>, queue': seq<BlockId>) {
    && queue != [] && QueueOk(s.idx, queue)
    && var b := queue[0];
    && s'.idx == s.idx[b := LinkedEntry(s.idx, b, s.nextSeq)]
    && s'.unlinked == s.unlinked - {b}
    && s'.chain == s.chain && s'.condemned == s.condemned && s'.nextSeq == s.nextSeq + 1 && s'.stranded == s.stranded
    && queue' == queue[1..] + Waiters(s.unlinked, b)
    && (forall i :: 0 <= i < |s.chain| ==> s.chain[i] in s'.idx)
    && s'.cand == (if s.chain == [] || !Less(s'.idx, b, s.chain[|s.chain| - 1]) then s.cand + {b} else s.cand)
  }

  lemma LinkKeepsEntries(idx: Index, genesis: BlockId, nextSeq: nat, b: BlockId)
    requires Tree(idx, genesis) && EntriesOk(idx, nextSeq) && nextSeq > 0
    requires b in idx && idx[b].haveData && !Linked(idx, b)
    requires idx[b].prev.Some? ==> idx[b].prev.value in idx && Linked(idx, idx[b].prev.value)
    ensures Tree(idx[b := LinkedEntry(idx, b, nextSeq)], genesis)
    ensures EntriesOk(idx[b := LinkedEntry(idx, b, nextSeq)], nextSeq + 1)
  {
    var idx' := idx[b := LinkedEntry(idx, b, nextSeq)];
    SameTreeKeepsTree(idx, idx', genesis);
    assert ParentOk(idx, b);
    assert EntryOk(idx, nextSeq, b);
    forall c | c in idx' ensures EntryOk(idx', nextSeq + 1, c) {
      assert ParentOk(idx, c);
      assert EntryOk(idx, nextSeq, c);
    }
  }

  lemma LinkKeepsUnlinked(s: State, s': State, queue: seq<BlockId>, queue': seq<BlockId>, genesis: BlockId)
    requires Tree(s.idx, genesis) && LinkStep(s, s', queue, queue') && UnlinkedOk(s.idx, s.unlinked)
    ensures UnlinkedOk(s'.idx, s'.unlinked)
  {
    var b := queue[0];
    forall p | p in s'.unlinked
      ensures p in s'.idx && !Linked(s'.idx, p) && NoDup(s'.unlinked[p])
      ensures forall c :: c in s'.unlinked[p] ==>
                c in s'.idx && s'.idx[c].prev == Some(p) && s'.idx[c].haveData && !Linked(s'.idx, c)
    {
      assert p in s.unlinked && p != b;
      assert b in queue && s.idx[b].prev != Some(p);
    }
  }

  lemma LinkKeepsQueue(s: State, s': State, queue: seq<BlockId>, queue': seq<BlockId>, genesis: BlockId, nextSeq: nat)
    requires Tree(s.idx, genesis) && LinkStep(s, s', queue, queue') && UnlinkedOk(s.idx, s.unlinked)
    requires EntriesOk(s.idx, nextSeq)
    ensures QueueOk(s'.idx, queue')
  {
    var b := queue[0];
    assert ParentOk(s.idx, b);
    assert EntryOk(s.idx, nextSeq, b);
    var w := Waiters(s.unlinked, b);
    forall c | c in w ensures c in s.idx && s.idx[c].prev == Some(b) && c != b {
      assert ParentOk(s.idx, c);
    }
    forall i, j | 0 <= i < j < |queue'| ensures queue'[i] != queue'[j] {
      if i < |queue| - 1 <= j {
        assert queue'[i] in queue && queue'[j] in w;
      } else if j < |queue| - 1 {
        assert queue'[i] == queue[i + 1] && queue'[j] == queue[j + 1];
      }
    }
    forall c | c in queue'
      ensures c in s'.idx && s'.idx[c].haveData && !Linked(s'.idx, c)
      ensures s'.idx[c].prev.Some? ==> s'.idx[c].prev.value in s'.idx && Linked(s'.idx, s'.idx[c].prev.value)
    {
      if c in queue[1..] {
        assert c in queue && c != b;
      } else {
        assert c in w;
      }
    }
  }

  lemma LinkKeepsWaiting(s: State, s': State, queue: seq<BlockId>, queue': seq<BlockId>)
    requires LinkStep(s, s', queue, queue')
    requires AllWait(s.idx, s.unlinked, queue, s.stranded) && Linked(s'.idx, queue[0])
    ensures AllWait(s'.idx, s'.unlinked, queue', s'.stranded)
  {
    var b := queue[0];
    forall c | c in s'.idx && s'.idx[c].haveData && !Linked(s'.idx, c)
      ensures Waiting(s'.idx, s'.unlinked, c) || c in queue' || c in s'.stranded
    {
      if c in queue {
        assert c in queue[1..];
      } else if s.idx[c].prev == Some(b) && c !in s.stranded {
        assert c in Waiters(s.unlinked, b);
      }
    }
  }

  lemma LinkKeepsStranded(s: State, s': State, queue: seq<BlockId>, queue': seq<BlockId>, genesis: BlockId)
    requires Tree(s.idx, genesis) && Tree(s'.idx, genesis) && LinkStep(s, s', queue, queue')
    requires UnlinkedOk(s.idx, s.unlinked) && StrandedOk(s.idx, genesis, s.unlinked, queue, s.stranded)
    ensures StrandedOk(s'.idx, genesis, s'.unlinked, queue', s'.stranded)
  {
    hide AllUp, Tree;
    var b := queue[0];
    assert b in queue;
    forall c | c in Waiters(s.unlinked, b) ensures c in s.idx && Waiting(s.idx, s.unlinked, c) {
    }
    forall c | c in s.stranded ensures c in s.idx && c != b && !Clean(s'.idx, genesis, c) && c !in queue' {
      CountsKeepUp(s.idx, s'.idx, genesis, b, c);
      assert c in queue[1..] ==> c in queue;
    }
  }

  lemma LinkKeepsComplete(s: State, s': State, queue: seq<BlockId>, queue': seq<BlockId>, genesis: BlockId, t: Option<BlockId>)
    requires Tree(s.idx, genesis) && Tree(s'.idx, genesis) && LinkStep(s, s', queue, queue')
    requires CompleteFrom(s.idx, genesis, s.cand, t) && (t.None? ==> s.chain == [])
    requires t.Some? && s.chain != [] ==>
               s.chain[|s.chain| - 1] in s.idx && (t == Last(s.chain) || Less(s.idx, s.chain[|s.chain| - 1], t.value))
    requires forall i :: 0 <= i < |s.chain| ==> s.chain[i] in s.idx && Linked(s.idx, s.chain[i])
    requires forall c :: c in s.cand ==> c in s.idx && Linked(s.idx, c)
    ensures CompleteFrom(s'.idx, genesis, s'.cand, t)
  {
    hide AllUp, Tree;
    var b := queue[0];
    assert b in queue;
    if t.Some? && s.chain != [] && b in s'.idx {
      LessIsStrictTotalOrder(s'.idx, s.chain[|s.chain| - 1], t.value, b);
    }
    forall c | c in s'.idx && Linked(s'.idx, c) && Clean(s'.idx, genesis, c) && (t.Some? ==> !Less(s'.idx, c, t.value))
      ensures c in s'.cand
    {
      CountsKeepUp(s.idx, s'.idx, genesis, b, c);
    }
  }

  /** Linking one queued block keeps the invariant and makes its waiting children the next in line. */
  lemma LinkKeepsInv(s: State, s': State, env: Env, t: Option<BlockId>, queue: seq<BlockId>, queue': seq<BlockId>)
    requires InvQ(s, env, t, queue) && LinkStep(s, s', queue, queue')
    ensures InvQ(s', env, t, queue') && QueueOk(s'.idx, queue')
    ensures SameTree(s.idx, s'.idx) && Linked(s'.idx, queue[0])
  {
    hide AllUp, EntriesOk, UnlinkedOk, AllWait, StrandedOk, FlagsOk, BarOk, Tree, CompleteFrom;
    var b := queue[0];
    assert b in queue;
    LinkKeepsEntries(s.idx, env.genesis, s.nextSeq, b);
    LinkedEntryIsLinked(s, env, b);
    LinkKeepsUnlinked(s, s', queue, queue', env.genesis);
    LinkKeepsQueue(s, s', queue, queue', env.genesis, s.nextSeq);
    LinkKeepsWaiting(s, s', queue, queue');
    LinkKeepsStranded(s, s', queue, queue', env.genesis);
    BarAbove(s, env, t);
    LinkKeepsComplete(s, s', queue, queue', env.genesis, t);
    WellFormedData(s, env, b);
    CountsKeepFlags(s, s', env, b);
    BarIsCandidate(s, env, t);
    CountsKeepChain(s, s', env, t, b);
  }

  lemma BarIsCandidate(s: State, env: Env, t: Option<BlockId>)
    requires Tree(s.idx, env.genesis) && CompleteFrom(s.idx, env.genesis, s.cand, t)
    ensures t.Some? ==> t.value in s.cand
  {
  }

  lemma BarAbove(s: State, env: Env, t: Option<BlockId>)
    requires Tree(s.idx, env.genesis) && ChainOk(s.idx, s.chain) && BarOk(s, env, t)
    ensures t.None? <==> s.chain == []
    ensures t.Some? ==> t.value in s.idx && (t == Last(s.chain) || Less(s.idx, s.chain[|s.chain| - 1], t.value))
    ensures forall i :: 0 <= i < |s.chain| ==> s.chain[i] in s.idx && Linked(s.idx, s.chain[i])
  {
  }

  lemma WellFormedData(s: State, env: Env, b: BlockId)
    requires Tree(s.idx, env.genesis) && FlagsOk(s, env) && b in s.idx && s.idx[b].haveData
    ensures env.wellFormed(b)
  {
  }

  lemma LinkedEntryIsLinked(s: State, env: Env, b: BlockId)
    requires Tree(s.idx, env.genesis) && EntriesOk(s.idx, s.nextSeq)
    requires b in s.idx && s.idx[b].haveData
    ensures s.idx[b].prev.Some? ==> s.idx[b].prev.value in s.idx
    ensures LinkedEntry(s.idx, b, s.nextSeq).chainTx != 0
  {
    assert ParentOk(s.idx, b);
    assert EntryOk(s.idx, s.nextSeq, b);
  }

  // ---------- invalidating a block by hand ----------

  /** The effect of invalidating b, which leaves the lowest n blocks of the chain connected. */
  ghost predicate Invalidation(s: State, s': State, b: BlockId, n: nat) {
    && b in s.idx && 0 < n <= |s.chain|
    && (if b in s.chain then n < |s.chain| && s.chain[n] == b else n == |s.chain|)
    && OnlyFlags(s.idx, s'.idx)
    && (forall c :: c in s.idx ==> (s'.idx[c].failedValid <==> s.idx[c].failedValid || c == b))
    && (forall c :: c in s.idx ==> (s'.idx[c].failedChild <==> s.idx[c].failedChild || c in s.chain[n..]))
    && s'.chain == s.chain[..n]
    && s'.condemned == s.condemned + {b}
    && s'.unlinked == s.unlinked && s'.nextSeq == s.nextSeq && s'.stranded == s.stranded
  }

  ghost predicate RefilledCandidates(s: State, s': State)
    requires s'.chain != [] && s'.chain[|s'.chain| - 1] in s'.idx
  {
    && (forall c :: c in s'.cand ==> c in s'.idx)
    && (forall c :: c in s'.cand ==>
          c in s.cand || (Linked(s'.idx, c) && !Less(s'.idx, c, s'.chain[|s'.chain| - 1])))
    && (forall c :: c in s'.idx && s'.idx[c].IsValid(VALID_TRANSACTIONS) && Linked(s'.idx, c) ==>
          Less(s'.idx, c, s'.chain[|s'.chain| - 1]) || c in s'.cand)
  }

  lemma InvalidationKeepsChain(s: State, s': State, env: Env, b: BlockId, n: nat)
    requires Tree(s.idx, env.genesis) && ChainOk(s.idx, s.chain) && ChainGood(env, s.condemned, s.chain)
    requires Invalidation(s, s', b, n)
    ensures ChainOk(s'.idx, s'.chain) && ChainGood(env, s'.condemned, s'.chain)
  {
    forall i, j | 0 <= i < n <= j < |s.chain| ensures s.chain[i] != s.chain[j] {
      assert s.idx[s.chain[i]].height == i;
    }
  }

  lemma InvalidationKeepsFlags(s: State, s': State, env: Env, b: BlockId, n: nat)
    requires Tree(s.idx, env.genesis) && Tree(s'.idx, env.genesis) && ChainOk(s.idx, s.chain) && FlagsOk(s, env)
    requires Invalidation(s, s', b, n)
    ensures FlagsOk(s', env)
  {
    hide Tree, AllUp, ChainOk;
    forall c | c in s'.idx && s'.idx[c].failedChild
      ensures !AllUp(s'.idx, env.genesis, c, NotFailedValid(s'.idx))
    {
      InvalidatedChild(s, s', env, b, n, c);
    }
  }

  lemma InvalidatedChild(s: State, s': State, env: Env, b: BlockId, n: nat, c: BlockId)
    requires Tree(s.idx, env.genesis) && Tree(s'.idx, env.genesis) && ChainOk(s.idx, s.chain) && FlagsOk(s, env)
    requires Invalidation(s, s', b, n) && c in s'.idx && s'.idx[c].failedChild
    ensures !AllUp(s'.idx, env.genesis, c, NotFailedValid(s'.idx))
  {
    hide Tree, AllUp, ChainOk;
    if c in s.chain[n..] {
      var j :| 0 <= j < |s.chain[n..]| && s.chain[n..][j] == c;
      DisconnectedBelowFailure(s, s', env, n, n + j);
    } else if AllUp(s'.idx, env.genesis, c, NotFailedValid(s'.idx)) {
      AllUpMono(s'.idx, s.idx, env.genesis, c, NotFailedValid(s'.idx), NotFailedValid(s.idx));
    }
  }

  /** Everything above a failed block of the chain has a failed ancestor. */
  lemma DisconnectedBelowFailure(s: State, s': State, env: Env, n: nat, j: nat)
    requires Tree(s.idx, env.genesis) && Tree(s'.idx, env.genesis) && SameTree(s.idx, s'.idx)
    requires ChainOk(s.idx, s.chain) && n <= j < |s.chain| && s'.idx[s.chain[n]].failedValid
    ensures !AllUp(s'.idx, env.genesis, s.chain[j], NotFailedValid(s'.idx))
  {
    hide Tree;
    var c := s.chain[j];
    ChainIsAncestry(s.idx, env.genesis, s.chain, n, j);
    AncestorSameTree(s.idx, s'.idx, env.genesis, c, n);
    if AllUp(s'.idx, env.genesis, c, NotFailedValid(s'.idx)) {
      AllUpAncestor(s'.idx, env.genesis, c, n, NotFailedValid(s'.idx));
    }
  }

  /** Cutting the chain lowers the tip, so old candidates still sort no lower than it. */
  lemma CutKeepsCandidates(idx: Index, genesis: BlockId, chain: seq<BlockId>, n: nat, c: BlockId)
    requires Tree(idx, genesis) && ChainOk(idx, chain) && 0 < n <= |chain| && c in idx
    requires !Less(idx, c, chain[|chain| - 1])
    ensures !Less(idx, c, chain[n - 1])
  {
    if n < |chain| {
      ChainWork(idx, genesis, chain, n - 1, |chain| - 1);
    }
    LessIsStrictTotalOrder(idx, chain[n - 1], chain[|chain| - 1], c);
  }

  lemma InvalidationKeepsCandidates(s: State, s': State, env: Env, n: nat)
    requires Tree(s.idx, env.genesis) && OnlyFlags(s.idx, s'.idx)
    requires 0 < n <= |s.chain| && s'.chain == s.chain[..n]
    requires ChainOk(s.idx, s.chain) && CandidatesOk(s.idx, s.chain, s.cand)
    requires ChainOk(s'.idx, s'.chain) && RefilledCandidates(s, s')
    ensures CandidatesOk(s'.idx, s'.chain, s'.cand)
  {
    hide Tree;
    forall c | c in s'.cand && c in s.cand ensures Linked(s'.idx, c) && !Less(s'.idx, c, s.chain[n - 1]) {
      CutKeepsCandidates(s.idx, env.genesis, s.chain, n, c);
    }
  }

  lemma InvalidationIsComplete(s: State, s': State, env: Env, b: BlockId, n: nat)
    requires Tree(s'.idx, env.genesis) && EntriesOk(s'.idx, s'.nextSeq)
    requires ChainOk(s'.idx, s'.chain) && s'.chain != [] && RefilledCandidates(s, s')
    ensures CompleteFrom(s'.idx, env.genesis, s'.cand, Last(s'.chain))
  {
    forall c | c in s'.idx && Linked(s'.idx, c) && !s'.idx[c].Failed() ensures s'.idx[c].IsValid(VALID_TRANSACTIONS) {
      LinkedHasTransactions(s'.idx, env.genesis, s'.nextSeq, c);
    }
    forall c | c in s'.idx && Clean(s'.idx, env.genesis, c) ensures !s'.idx[c].Failed() {
      CleanUnfold(s'.idx, env.genesis, c);
    }
    var tip := s'.chain[|s'.chain| - 1];
    LessIsStrictTotalOrder(s'.idx, tip, tip, tip);
  }

  /** Invalidating a block and refilling the candidates restores the invariant at the new tip. */
  lemma InvalidationKeepsInv(s: State, s': State, env: Env, t: Option<BlockId>, b: BlockId, n: nat)
    requires Inv(s, env, t) && Invalidation(s, s', b, n)
    requires s'.chain[|s'.chain| - 1] in s'.idx && RefilledCandidates(s, s')
    ensures Inv(s', env, Last(s'.chain))
  {
    hide AllUp, EntriesOk, UnlinkedOk, AllWait, StrandedOk, FlagsOk, Tree, CompleteFrom, OnlyFlags, RefilledCandidates;
    InvalidationSameTree(s.idx, s'.idx, env.genesis);
    FlagsKeepEntries(s.idx, s'.idx, env.genesis, s.nextSeq);
    FlagsKeepWaiting(s.idx, s'.idx, env.genesis, s.unlinked, s.stranded);
    InvalidationKeepsChain(s, s', env, b, n);
    InvalidationKeepsFlags(s, s', env, b, n);
    InvalidationKeepsCandidates(s, s', env, n);
    InvalidationIsComplete(s, s', env, b, n);
    ChainIsSound(s', env, n - 1);
  }

  lemma InvalidationSameTree(idx: Index, idx': Index, genesis: BlockId)
    requires Tree(idx, genesis) && OnlyFlags(idx, idx')
    ensures Tree(idx', genesis)
  {
    SameTreeKeepsTree(idx, idx', genesis);
  }
}
