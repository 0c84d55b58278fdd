/** The block index as a tree of entries: what one entry records, the order in which
    chains are preferred, and what it means for a block to be free of failures and to
    have all its data. Block index pointers are modelled by their addresses. */
module BlockTree {
  import opened Base

  type BlockId = nat

  /** The validity levels that matter here. */
  const VALID_TREE: nat := 2
  const VALID_TRANSACTIONS: nat := 3
  const VALID_SCRIPTS: nat := 5

  datatype Entry = Entry(
    prev: Option<BlockId>,
    height: nat,
    work: nat,
    nTx: nat,
    chainTx: nat,
    seqId: nat,
    haveData: bool,
    level: nat,
    failedValid: bool,
    failedChild: bool)
  {
    predicate Failed() {
      failedValid || failedChild
    }

    /** Raising the validity level does nothing to a failed entry. */
    function Raised(upTo: nat): Entry {
      if Failed() || level >= upTo then this else this.(level := upTo)
    }

    predicate IsValid(upTo: nat) {
      !Failed() && level >= upTo
    }
  }

  type Index = map<BlockId, Entry>

  ghost predicate ParentOk(idx: Index, b: BlockId)
    requires b in idx
  {
    match idx[b].prev
    case None => idx[b].height == 0
    case Some(p) => p in idx && idx[b].height == idx[p].height + 1 && idx[p].work < idx[b].work
  }

  /** Parents are present one level down with strictly less work, and only genesis has none. */
  ghost predicate Tree(idx: Index, genesis: BlockId) {
    && (forall b {:trigger ParentOk(idx, b)} :: b in idx ==> ParentOk(idx, b))
    && (forall b :: b in idx ==> (idx[b].prev.None? <==> b == genesis))
  }

  // ---------- the preference order ----------

  /** Whether a is a worse chain tip than b: less work, or received later, or a higher address. */
  predicate Less(idx: Index, a: BlockId, b: BlockId)
    requires a in idx && b in idx
  {
    if idx[a].work != idx[b].work then idx[a].work < idx[b].work
    else if idx[a].seqId != idx[b].seqId then idx[a].seqId > idx[b].seqId
    else a > b
  }

  /** The comparator is a strict total order, so "the best candidate" is well defined. */
  lemma LessIsStrictTotalOrder(idx: Index, a: BlockId, b: BlockId, c: BlockId)
    requires a in idx && b in idx && c in idx
    ensures !Less(idx, a, a)
    ensures a != b ==> (Less(idx, a, b) <==> !Less(idx, b, a))
    ensures Less(idx, a, b) && Less(idx, b, c) ==> Less(idx, a, c)
    ensures !Less(idx, b, a) && !Less(idx, c, b) ==> !Less(idx, c, a)
  {
  }

  // ---------- ancestors ----------

  /** The ancestor of b at height h, by walking parents one at a time. */
  function Ancestor(idx: Index, genesis: BlockId, b: BlockId, h: nat): (a: BlockId)
    requires Tree(idx, genesis) && b in idx && h <= idx[b].height
    ensures a in idx && idx[a].height == h
    decreases idx[b].height
  {
    if idx[b].height == h then b
    else
      assert ParentOk(idx, b);
      Ancestor(idx, genesis, idx[b].prev.value, h)
  }

  /** Whether a property of single blocks holds of b and of all its ancestors. */
  ghost predicate AllUp(idx: Index, genesis: BlockId, b: BlockId, good: iset<BlockId>)
    requires Tree(idx, genesis) && b in idx
    decreases idx[b].height
  {
    && b in good
    && (idx[b].prev.Some? ==>
          assert ParentOk(idx, b);
          AllUp(idx, genesis, idx[b].prev.value, good))
  }

  ghost function Unfailed(idx: Index): iset<BlockId> {
    iset b | b in idx && !idx[b].Failed()
  }

  ghost function NotFailedValid(idx: Index): iset<BlockId> {
    iset b | b in idx && !idx[b].failedValid
  }

  ghost function WithData(idx: Index): iset<BlockId> {
    iset b | b in idx && idx[b].haveData
  }

  /** No failure flag on b or on any ancestor of b. */
  ghost predicate Clean(idx: Index, genesis: BlockId, b: BlockId)
    requires Tree(idx, genesis) && b in idx
  {
    AllUp(idx, genesis, b, Unfailed(idx))
  }

  /** The data of b and of all its ancestors has been received. */
  ghost predicate DataComplete(idx: Index, genesis: BlockId, b: BlockId)
    requires Tree(idx, genesis) && b in idx
  {
    AllUp(idx, genesis, b, WithData(idx))
  }

  predicate Linked(idx: Index, b: BlockId)
    requires b in idx
  {
    idx[b].chainTx != 0
  }

  /** Two indexes that agree on keys and parents, heights and work. */
  ghost predicate SameTree(idx: Index, idx': Index) {
    && idx.Keys == idx'.Keys
    && forall b :: b in idx ==>
         && idx[b].prev == idx'[b].prev
         && idx[b].height == idx'[b].height
         && idx[b].work == idx'[b].work
  }

  lemma SameTreeKeepsTree(idx: Index, idx': Index, genesis: BlockId)
    requires Tree(idx, genesis) && SameTree(idx, idx')
    ensures Tree(idx', genesis)
  {
    forall b | b in idx' ensures ParentOk(idx', b) {
      assert ParentOk(idx, b);
    }
  }

  /** A property at b and above carries over to an index with the same tree around b. */
  lemma {:induction false} AllUpMono(idx: Index, idx': Index, genesis: BlockId, b: BlockId,
                                     good: iset<BlockId>, good': iset<BlockId>)
    requires Tree(idx, genesis) && Tree(idx', genesis)
    requires forall c :: c in idx ==> c in idx' && idx[c].prev == idx'[c].prev && idx[c].height == idx'[c].height
    requires b in idx && AllUp(idx, genesis, b, good)
    requires forall c :: c in idx && c in good ==> c in good'
    ensures AllUp(idx', genesis, b, good')
    decreases idx[b].height
  {
    if idx[b].prev.Some? {
      assert ParentOk(idx, b);
      AllUpMono(idx, idx', genesis, idx[b].prev.value, good, good');
    }
  }

  /** An index that only adds blocks leaves such a property of the old blocks as it was. */
  lemma {:induction false} AllUpAgree(idx: Index, idx': Index, genesis: BlockId, b: BlockId,
                                      good: iset<BlockId>, good': iset<BlockId>)
    requires Tree(idx, genesis) && Tree(idx', genesis)
    requires forall c :: c in idx ==> c in idx' && idx[c].prev == idx'[c].prev && idx[c].height == idx'[c].height
    requires b in idx
    requires forall c :: c in idx ==> (c in good <==> c in good')
    ensures AllUp(idx, genesis, b, good) <==> AllUp(idx', genesis, b, good')
    decreases idx[b].height
  {
    if idx[b].prev.Some? {
      assert ParentOk(idx, b);
      AllUpAgree(idx, idx', genesis, idx[b].prev.value, good, good');
    }
  }

  /** A property of b and all its ancestors holds of every ancestor and of all of its ancestors. */
  lemma {:induction false} AllUpAncestor(idx: Index, genesis: BlockId, b: BlockId, h: nat, good: iset<BlockId>)
    requires Tree(idx, genesis) && b in idx && h <= idx[b].height
    requires AllUp(idx, genesis, b, good)
    ensures AllUp(idx, genesis, Ancestor(idx, genesis, b, h), good)
    decreases idx[b].height
  {
    if idx[b].height != h {
      assert ParentOk(idx, b);
      AllUpAncestor(idx, genesis, idx[b].prev.value, h, good);
    }
  }

  /** Ancestors of ancestors are ancestors. */
  lemma {:induction false} AncestorTransitive(idx: Index, genesis: BlockId, b: BlockId, h: nat, g: nat)
    requires Tree(idx, genesis) && b in idx && g <= h <= idx[b].height
    ensures Ancestor(idx, genesis, Ancestor(idx, genesis, b, h), g) == Ancestor(idx, genesis, b, g)
    decreases idx[b].height
  {
    if idx[b].height != h {
      assert ParentOk(idx, b);
      AncestorTransitive(idx, genesis, idx[b].prev.value, h, g);
    }
  }

  /** Flagging a block that already has a failed ancestor changes no block's freedom from failures. */
  lemma {:induction false} FlaggingUncleanKeepsClean(idx: Index, idx': Index, genesis: BlockId, f: BlockId, b: BlockId)
    requires Tree(idx, genesis) && Tree(idx', genesis) && SameTree(idx, idx')
    requires f in idx && !Clean(idx, genesis, f) && b in idx
    requires forall c :: c in idx && c != f ==> idx[c].Failed() == idx'[c].Failed()
    requires idx'[f].Failed()
    ensures Clean(idx, genesis, b) <==> Clean(idx', genesis, b)
    decreases idx[b].height
  {
    CleanUnfold(idx, genesis, b);
    CleanUnfold(idx', genesis, b);
    if b != f && idx[b].prev.Some? {
      assert ParentOk(idx, b);
      FlaggingUncleanKeepsClean(idx, idx', genesis, f, idx[b].prev.value);
    }
  }

  lemma CleanUnfold(idx: Index, genesis: BlockId, b: BlockId)
    requires Tree(idx, genesis) && b in idx
    ensures idx[b].prev.Some? ==> idx[b].prev.value in idx
    ensures Clean(idx, genesis, b) <==>
            !idx[b].Failed() && (idx[b].prev.Some? ==> Clean(idx, genesis, idx[b].prev.value))
  {
    assert ParentOk(idx, b);
  }
}
