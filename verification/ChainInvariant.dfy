/** The invariant that chain selection keeps: how the block index, the multimap of blocks
    waiting for a parent, the active chain and the candidate set hang together. */
module ChainInvariant {
  import opened Base
  import opened BlockTree

  /** What is fixed over a run: the genesis block and, for every block, whether its contents
      pass the context-free checks and whether connecting it to its parent succeeds. */
  datatype Env = Env(genesis: BlockId, wellFormed: BlockId -> bool, connects: BlockId -> bool)

  /** The global variables, with the set of blocks the operator has invalidated, the set of blocks whose
      data arrived while their parent was failed and not linked, and the blocks in the order they were linked. */
  datatype State = State(
    idx: Index,
    unlinked: map<BlockId, seq<BlockId>>,
    chain: seq<BlockId>,
    cand: set<BlockId>,
    nextSeq: nat,
    condemned: set<BlockId>,
    stranded: set<BlockId>,
    order: seq<BlockId>)

  function Last(chain: seq<BlockId>): Option<BlockId> {
    if chain == [] then None else Some(chain[|chain| - 1])
  }

  /** Blocks with nothing wrong with them, as far as the oracles and the operator say. */
  ghost function Good(env: Env, condemned: set<BlockId>): iset<BlockId> {
    iset b: BlockId | env.wellFormed(b) && env.connects(b) && b !in condemned
  }

  ghost predicate Sound(s: State, env: Env, b: BlockId)
    requires Tree(s.idx, env.genesis) && b in s.idx
  {
    AllUp(s.idx, env.genesis, b, Good(env, s.condemned))
  }

  ghost predicate NoDup(q: seq<BlockId>) {
    forall i, j :: 0 <= i < j < |q| ==> q[i] != q[j]
  }

  /** Transaction counts and sequence numbers: a linked block has data, its parent is linked
      and it counts all transactions up to itself. */
  ghost predicate EntryOk(idx: Index, nextSeq: nat, b: BlockId)
    requires b in idx
  {
    var e := idx[b];
    && (e.haveData <==> e.nTx > 0)
    && (e.haveData <==> e.level >= VALID_TRANSACTIONS)
    && VALID_TREE <= e.level
    && (e.chainTx == 0 ==> e.seqId == 0)
    && (e.chainTx != 0 ==>
          && e.haveData
          && 0 < e.seqId < nextSeq
          && (e.prev.Some? ==> e.prev.value in idx && idx[e.prev.value].chainTx != 0)
          && e.chainTx == (if e.prev.Some? then idx[e.prev.value].chainTx else 0) + e.nTx)
  }

  ghost predicate EntriesOk(idx: Index, nextSeq: nat) {
    forall b {:trigger EntryOk(idx, nextSeq, b)} :: b in idx ==> EntryOk(idx, nextSeq, b)
  }

  /** The multimap holds, once each and under their parent, blocks that have data but are not linked. */
  ghost predicate UnlinkedOk(idx: Index, unlinked: map<BlockId, seq<BlockId>>) {
    forall p :: p in unlinked ==>
      && p in idx && !Linked(idx, p)
      && NoDup(unlinked[p])
      && forall b :: b in unlinked[p] ==> b in idx && idx[b].prev == Some(p) && idx[b].haveData && !Linked(idx, b)
  }

  ghost predicate Waiting(idx: Index, unlinked: map<BlockId, seq<BlockId>>, b: BlockId)
    requires b in idx
  {
    idx[b].prev.Some? && idx[b].prev.value in unlinked && b in unlinked[idx[b].prev.value]
  }

  /** Every block with data that is not linked is in the multimap, queued for linking, or stranded. */
  ghost predicate AllWait(idx: Index, unlinked: map<BlockId, seq<BlockId>>, queue: seq<BlockId>, stranded: set<BlockId>) {
    forall b :: b in idx && idx[b].haveData && !Linked(idx, b) ==> Waiting(idx, unlinked, b) || b in queue || b in stranded
  }

  /** A stranded block is nowhere to be found, so it stays unlinked; and it has a failed ancestor. */
  ghost predicate StrandedOk(idx: Index, genesis: BlockId, unlinked: map<BlockId, seq<BlockId>>, queue: seq<BlockId>, stranded: set<BlockId>)
    requires Tree(idx, genesis)
  {
    forall b :: b in stranded ==>
      && b in idx && idx[b].haveData && !Linked(idx, b)
      && !Waiting(idx, unlinked, b) && b !in queue && !Clean(idx, genesis, b)
  }

  ghost predicate ChainOk(idx: Index, chain: seq<BlockId>) {
    && (forall i :: 0 <= i < |chain| ==>
          && chain[i] in idx
          && idx[chain[i]].height == i
          && Linked(idx, chain[i])
          && !idx[chain[i]].Failed())
    && (chain != [] ==> idx[chain[0]].prev == None)
    && (forall i, j :: 0 <= i < |chain| && j == i + 1 && j < |chain| ==> idx[chain[j]].prev == Some(chain[i]))
  }

  ghost predicate ChainGood(env: Env, condemned: set<BlockId>, chain: seq<BlockId>) {
    forall i :: 0 <= i < |chain| ==> chain[i] in Good(env, condemned)
  }

  /** Candidates are linked and never sort below the tip. */
  ghost predicate CandidatesOk(idx: Index, chain: seq<BlockId>, cand: set<BlockId>)
    requires ChainOk(idx, chain)
  {
    forall c :: c in cand ==>
      && c in idx && Linked(idx, c)
      && (chain != [] ==> !Less(idx, c, chain[|chain| - 1]))
  }

  /** A failure flag is always justified: by the block itself, or by a failed ancestor. */
  ghost predicate FlagsOk(s: State, env: Env)
    requires Tree(s.idx, env.genesis)
  {
    && (forall b :: b in s.idx && s.idx[b].failedValid ==> b !in Good(env, s.condemned))
    && (forall b :: b in s.idx && s.idx[b].failedChild ==>
          !AllUp(s.idx, env.genesis, b, NotFailedValid(s.idx)))
    && (forall b :: b in s.condemned ==> b in s.idx && s.idx[b].failedValid)
    && (forall b :: b in s.idx && s.idx[b].haveData ==> env.wellFormed(b))
  }

  /** Every linked block without failures that sorts no lower than t is a candidate; t is one. */
  ghost predicate CompleteFrom(idx: Index, genesis: BlockId, cand: set<BlockId>, t: Option<BlockId>)
    requires Tree(idx, genesis)
  {
    && (t.Some? ==> t.value in idx && t.value in cand)
    && forall b :: b in idx && Linked(idx, b) && Clean(idx, genesis, b) && (t.Some? ==> !Less(idx, b, t.value)) ==>
         b in cand
  }

  /** The bar t that candidates are complete from: the tip, or while reorganising a better block
      already connected once, which is sound and sorts above the tip. */
  ghost predicate BarOk(s: State, env: Env, t: Option<BlockId>)
    requires Tree(s.idx, env.genesis) && ChainOk(s.idx, s.chain)
  {
    && (t.None? <==> s.chain == [])
    && (t.Some? ==>
          && t.value in s.idx
          && Sound(s, env, t.value)
          && (t == Last(s.chain) || Less(s.idx, Last(s.chain).value, t.value)))
  }

  /** The whole invariant, relative to a bar t and a queue of blocks being linked. */
  ghost predicate InvQ(s: State, env: Env, t: Option<BlockId>, queue: seq<BlockId>) {
    && Tree(s.idx, env.genesis)
    && EntriesOk(s.idx, s.nextSeq)
    && UnlinkedOk(s.idx, s.unlinked)
    && AllWait(s.idx, s.unlinked, queue, s.stranded)
    && StrandedOk(s.idx, env.genesis, s.unlinked, queue, s.stranded)
    && ChainOk(s.idx, s.chain)
    && ChainGood(env, s.condemned, s.chain)
    && CandidatesOk(s.idx, s.chain, s.cand)
    && FlagsOk(s, env)
    && CompleteFrom(s.idx, env.genesis, s.cand, t)
    && BarOk(s, env, t)
    && s.nextSeq > 0
  }

  ghost predicate Inv(s: State, env: Env, t: Option<BlockId>) {
    InvQ(s, env, t, [])
  }

  // ---------- the order of linking ----------

  /** The list holds exactly the linked blocks, with rising sequence ids. */
  ghost predicate OrderOk(idx: Index, nextSeq: nat, order: seq<BlockId>) {
    && (forall i :: 0 <= i < |order| ==> order[i] in idx && Linked(idx, order[i]) && idx[order[i]].seqId < nextSeq)
    && (forall b :: b in idx && Linked(idx, b) ==> b in order)
    && (forall i, j :: 0 <= i < j < |order| ==> order[i] in idx && order[j] in idx && idx[order[i]].seqId < idx[order[j]].seqId)
  }

  /** Block a stands before block b in the list. */
  ghost predicate Before(order: seq<BlockId>, a: BlockId, b: BlockId) {
    exists i, j :: 0 <= i < j < |order| && order[i] == a && order[j] == b
  }

  /** Block b gives no reason to leave tip: it has less work, or as much and was linked no earlier. */
  ghost predicate NoBetter(s: State, tip: BlockId, b: BlockId) {
    && tip in s.idx && b in s.idx && tip in s.order && b in s.order
    && (s.idx[b].work < s.idx[tip].work || (s.idx[b].work == s.idx[tip].work && (b == tip || Before(s.order, tip, b))))
  }

  /** The preference order in terms of work and arrival: more work wins, and among equals what was linked first. */
  lemma LessIff(idx: Index, nextSeq: nat, order: seq<BlockId>, a: BlockId, b: BlockId)
    requires OrderOk(idx, nextSeq, order) && a in idx && b in idx && Linked(idx, a) && Linked(idx, b)
    ensures Less(idx, a, b) <==> idx[a].work < idx[b].work || (idx[a].work == idx[b].work && Before(order, b, a))
    ensures a in order && b in order && (a == b || Before(order, a, b) || Before(order, b, a))
    ensures !(Before(order, a, b) && Before(order, b, a)) && !Before(order, a, a)
  {
    var i :| 0 <= i < |order| && order[i] == a;
    var j :| 0 <= j < |order| && order[j] == b;
    assert i < j ==> Before(order, a, b);
    assert j < i ==> Before(order, b, a);
    assert i == j <==> a == b;
  }

  lemma OrderKept(idx: Index, idx': Index, nextSeq: nat, order: seq<BlockId>)
    requires OrderOk(idx, nextSeq, order)
    requires forall b :: b in idx && Linked(idx, b) ==> b in idx' && Linked(idx', b) && idx'[b].seqId == idx[b].seqId
    requires forall b :: b in idx' && Linked(idx', b) ==> b in idx && Linked(idx, b)
    ensures OrderOk(idx', nextSeq, order)
  {
  }

  /** The block linked next goes to the end. */
  lemma OrderGrows(idx: Index, idx': Index, nextSeq: nat, order: seq<BlockId>, b: BlockId)
    requires OrderOk(idx, nextSeq, order) && b in idx && !Linked(idx, b)
    requires b in idx' && idx' == idx[b := idx'[b]] && Linked(idx', b) && idx'[b].seqId == nextSeq
    ensures OrderOk(idx', nextSeq + 1, order + [b])
  {
    var order' := order + [b];
    forall c | c in idx' && Linked(idx', c) ensures c in order' {
      if c == b {
        assert order'[|order|] == b;
      } else {
        assert c in order;
      }
    }
    assert forall i :: 0 <= i < |order| ==> order'[i] == order[i] && order[i] != b;
  }

  // ---------- what the invariant says ----------

  /** A failure-free chain of blocks is one without a block that failed by itself. */
  lemma {:induction false} CleanIsNotFailedValid(s: State, env: Env, b: BlockId)
    requires Tree(s.idx, env.genesis) && FlagsOk(s, env) && b in s.idx
    ensures Clean(s.idx, env.genesis, b) <==> AllUp(s.idx, env.genesis, b, NotFailedValid(s.idx))
    decreases s.idx[b].height
  {
    if s.idx[b].prev.Some? {
      assert ParentOk(s.idx, b);
      CleanIsNotFailedValid(s, env, s.idx[b].prev.value);
    }
  }

  /** A block that is really good all the way down is never marked as failed. */
  lemma SoundIsClean(s: State, env: Env, b: BlockId)
    requires Tree(s.idx, env.genesis) && FlagsOk(s, env) && b in s.idx && Sound(s, env, b)
    ensures Clean(s.idx, env.genesis, b)
  {
    AllUpMono(s.idx, s.idx, env.genesis, b, Good(env, s.condemned), NotFailedValid(s.idx));
    CleanIsNotFailedValid(s, env, b);
  }

  /** Every block of the active chain is sound, its ancestors being the lower part of the chain. */
  lemma {:induction false} ChainIsSound(s: State, env: Env, i: nat)
    requires Tree(s.idx, env.genesis) && ChainOk(s.idx, s.chain) && ChainGood(env, s.condemned, s.chain)
    requires i < |s.chain|
    ensures Sound(s, env, s.chain[i])
    ensures Clean(s.idx, env.genesis, s.chain[i])
  {
    if i > 0 {
      ChainIsSound(s, env, i - 1);
    }
    CleanUnfold(s.idx, env.genesis, s.chain[i]);
  }

  /** The chain is the ancestor line of its tip. */
  lemma {:induction false} ChainIsAncestry(idx: Index, genesis: BlockId, chain: seq<BlockId>, i: nat, j: nat)
    requires Tree(idx, genesis) && ChainOk(idx, chain) && i <= j < |chain|
    ensures Ancestor(idx, genesis, chain[j], i) == chain[i]
    decreases j
  {
    if i < j {
      ChainIsAncestry(idx, genesis, chain, i, j - 1);
    }
  }

  /** Work grows strictly along the chain. */
  lemma {:induction false} ChainWork(idx: Index, genesis: BlockId, chain: seq<BlockId>, i: nat, j: nat)
    requires Tree(idx, genesis) && ChainOk(idx, chain) && i < j < |chain|
    ensures idx[chain[i]].work < idx[chain[j]].work
    decreases j
  {
    assert ParentOk(idx, chain[j]);
    if i < j - 1 {
      ChainWork(idx, genesis, chain, i, j - 1);
    }
  }

  /** Linked blocks have all their data. */
  lemma {:induction false} LinkedIsDataComplete(s: State, env: Env, t: Option<BlockId>, b: BlockId)
    requires Inv(s, env, t) && b in s.idx && Linked(s.idx, b)
    ensures DataComplete(s.idx, env.genesis, b)
    decreases s.idx[b].height
  {
    assert ParentOk(s.idx, b) && EntryOk(s.idx, s.nextSeq, b);
    if s.idx[b].prev.Some? {
      LinkedIsDataComplete(s, env, t, s.idx[b].prev.value);
    }
  }

  /** The number of transactions in a block and all its ancestors. */
  ghost function TotalTx(idx: Index, genesis: BlockId, b: BlockId): nat
    requires Tree(idx, genesis) && b in idx
    decreases idx[b].height
  {
    idx[b].nTx + if idx[b].prev.Some? then assert ParentOk(idx, b); TotalTx(idx, genesis, idx[b].prev.value) else 0
  }

  /** The count kept in a linked entry is the number of transactions up to the block. */
  lemma {:induction false} ChainTxIsTotal(s: State, env: Env, t: Option<BlockId>, b: BlockId)
    requires Inv(s, env, t) && b in s.idx && Linked(s.idx, b)
    ensures s.idx[b].chainTx == TotalTx(s.idx, env.genesis, b)
    decreases s.idx[b].height
  {
    assert ParentOk(s.idx, b) && EntryOk(s.idx, s.nextSeq, b);
    if s.idx[b].prev.Some? {
      ChainTxIsTotal(s, env, t, s.idx[b].prev.value);
    }
  }

  ghost function NotStranded(s: State): iset<BlockId> {
    iset b: BlockId | b !in s.stranded
  }

  /** A linked block is not stranded, nor is any of its ancestors. */
  lemma {:induction false} LinkedIsNotStranded(s: State, env: Env, t: Option<BlockId>, b: BlockId)
    requires Inv(s, env, t) && b in s.idx && Linked(s.idx, b)
    ensures AllUp(s.idx, env.genesis, b, NotStranded(s))
    decreases s.idx[b].height
  {
    hide UnlinkedOk, AllWait, ChainOk, CandidatesOk, FlagsOk, CompleteFrom, BarOk;
    assert ParentOk(s.idx, b) && EntryOk(s.idx, s.nextSeq, b);
    if s.idx[b].prev.Some? {
      LinkedIsNotStranded(s, env, t, s.idx[b].prev.value);
    }
  }

  lemma {:induction false} UnstrandedDataIsLinked(s: State, env: Env, t: Option<BlockId>, b: BlockId)
    requires Inv(s, env, t) && b in s.idx
    requires DataComplete(s.idx, env.genesis, b) && AllUp(s.idx, env.genesis, b, NotStranded(s))
    ensures Linked(s.idx, b)
    decreases s.idx[b].height
  {
    hide EntriesOk, StrandedOk, ChainOk, CandidatesOk, FlagsOk, CompleteFrom, BarOk;
    assert ParentOk(s.idx, b);
    if s.idx[b].prev.Some? {
      UnstrandedDataIsLinked(s, env, t, s.idx[b].prev.value);
    }
  }

  /** Exactly when the count is set: the data of the block and of all its ancestors has arrived, and for none of
      them while its parent was failed and not linked. */
  lemma LinkedIff(s: State, env: Env, t: Option<BlockId>, b: BlockId)
    requires Inv(s, env, t) && b in s.idx
    ensures Linked(s.idx, b) <==> DataComplete(s.idx, env.genesis, b) && AllUp(s.idx, env.genesis, b, NotStranded(s))
  {
    hide AllUp, EntriesOk, UnlinkedOk, AllWait, StrandedOk, ChainOk, CandidatesOk, FlagsOk, CompleteFrom, BarOk, Tree, NotStranded;
    if Linked(s.idx, b) {
      LinkedIsDataComplete(s, env, t, b);
      LinkedIsNotStranded(s, env, t, b);
    } else if DataComplete(s.idx, env.genesis, b) && AllUp(s.idx, env.genesis, b, NotStranded(s)) {
      UnstrandedDataIsLinked(s, env, t, b);
    }
  }

  /** Exactly which blocks the multimap holds: those with data that are neither linked nor stranded, once each
      and under their parent. */
  lemma WaitingIff(s: State, env: Env, t: Option<BlockId>, b: BlockId)
    requires Inv(s, env, t) && b in s.idx
    ensures Waiting(s.idx, s.unlinked, b) <==> s.idx[b].haveData && !Linked(s.idx, b) && b !in s.stranded
    ensures forall p :: p in s.unlinked && b in s.unlinked[p] ==> s.idx[b].prev == Some(p) && NoDup(s.unlinked[p])
  {
    hide AllUp, EntriesOk, ChainOk, CandidatesOk, FlagsOk, CompleteFrom, BarOk, Tree;
  }

  /** Blocks free of failures are never stranded, and neither are their ancestors. */
  lemma {:induction false} CleanIsNotStranded(s: State, env: Env, t: Option<BlockId>, b: BlockId)
    requires Inv(s, env, t) && b in s.idx && Clean(s.idx, env.genesis, b)
    ensures AllUp(s.idx, env.genesis, b, NotStranded(s))
    decreases s.idx[b].height
  {
    hide EntriesOk, UnlinkedOk, AllWait, ChainOk, CandidatesOk, FlagsOk, CompleteFrom, BarOk;
    CleanUnfold(s.idx, env.genesis, b);
    assert ParentOk(s.idx, b);
    if s.idx[b].prev.Some? {
      CleanIsNotStranded(s, env, t, s.idx[b].prev.value);
    }
  }

  /** A block whose data and ancestors' data have all arrived, with no failure on the way, is linked:
      nothing that could be linked is ever left waiting. */
  lemma CompleteDataIsLinked(s: State, env: Env, t: Option<BlockId>, b: BlockId)
    requires Inv(s, env, t) && b in s.idx
    requires DataComplete(s.idx, env.genesis, b) && Clean(s.idx, env.genesis, b)
    ensures Linked(s.idx, b)
  {
    hide AllUp, EntriesOk, UnlinkedOk, AllWait, StrandedOk, ChainOk, CandidatesOk, FlagsOk, CompleteFrom, BarOk, Tree, NotStranded;
    CleanIsNotStranded(s, env, t, b);
    UnstrandedDataIsLinked(s, env, t, b);
  }

  /** So for blocks free of failures: linked iff all data is there, and otherwise, if the block itself has
      data, filed exactly once, under its parent. */
  lemma LinkedIffDataComplete(s: State, env: Env, t: Option<BlockId>, b: BlockId)
    requires Inv(s, env, t) && b in s.idx && Clean(s.idx, env.genesis, b)
    ensures Linked(s.idx, b) <==> DataComplete(s.idx, env.genesis, b)
    ensures Waiting(s.idx, s.unlinked, b) <==> s.idx[b].haveData && !DataComplete(s.idx, env.genesis, b)
    ensures forall p :: p in s.unlinked && b in s.unlinked[p] ==> s.idx[b].prev == Some(p) && NoDup(s.unlinked[p])
  {
    hide AllUp, EntriesOk, UnlinkedOk, AllWait, ChainOk, CandidatesOk, FlagsOk, CompleteFrom, BarOk, Tree, NotStranded;
    CleanIsNotStranded(s, env, t, b);
    LinkedIff(s, env, t, b);
    WaitingIff(s, env, t, b);
  }
}
