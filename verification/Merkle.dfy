/** The merkle tree of a block: built level by level in one flat list, with detection of repeated
    transactions at the end, and branches that prove membership. */
module Merkle {

  /** Hashes as terms: equal only if built the same way, and a pair hash never equals a transaction id. */
  datatype Hash = Null | Leaf(id: nat) | Pair(left: Hash, right: Hash)

  function Min(a: int, b: int): int {
    if a < b then a else b
  }

  /** The level above: neighbours are hashed together, a last one without a neighbour with itself. */
  function NextLevel(level: seq<Hash>): (next: seq<Hash>)
    ensures |next| == (|level| + 1) / 2
    ensures forall i :: 0 <= i < |next| ==> next[i] == Pair(level[2 * i], level[Min(2 * i + 1, |level| - 1)])
  {
    seq((|level| + 1) / 2, i requires 0 <= i < (|level| + 1) / 2 => Pair(level[2 * i], level[Min(2 * i + 1, |level| - 1)]))
  }

  function Root(level: seq<Hash>): Hash
    decreases |level|
  {
    if |level| == 0 then Null else if |level| == 1 then level[0] else Root(NextLevel(level))
  }

  /** The last two hashes of an even level are equal. */
  predicate LastTwoEqual(level: seq<Hash>) {
    |level| > 1 && |level| % 2 == 0 && level[|level| - 2] == level[|level| - 1]
  }

  /** Some level, from the leaves to the one below the root, ends in two equal hashes. */
  predicate Mutated(level: seq<Hash>)
    decreases |level|
  {
    |level| > 1 && (LastTwoEqual(level) || Mutated(NextLevel(level)))
  }

  /** All levels, one after the other. */
  function Flat(level: seq<Hash>): seq<Hash>
    decreases |level|
  {
    if |level| <= 1 then level else level + Flat(NextLevel(level))
  }

  /** Appends one level's parents to the flat list, watching for two equal hashes at the end of the level. */
  method AppendParents(tree: seq<Hash>, j: nat, n: nat, ghost level: seq<Hash>) returns (r: seq<Hash>, repeated: bool)
    requires n == |level| > 1 && j + n == |tree| && tree[j..] == level
    ensures r == tree + NextLevel(level) && (repeated <==> LastTwoEqual(level))
  {
    r, repeated := tree, false;
    var i := 0;
    while i < n
      invariant 0 <= i <= n + 1 && i % 2 == 0
      invariant r == tree + NextLevel(level)[..(if i / 2 < (n + 1) / 2 then i / 2 else (n + 1) / 2)]
      invariant repeated <==> i >= n && LastTwoEqual(level)
    {
      var i2 := Min(i + 1, n - 1);
      assert tree[j + i] == level[i] && tree[j + i2] == level[i2];
      assert r[j + i] == tree[j + i] && r[j + i2] == tree[j + i2];
      if i2 == i + 1 && i2 + 1 == n && r[j + i] == r[j + i2] {
        repeated := true;
      }
      assert NextLevel(level)[i / 2] == Pair(level[i], level[i2]);
      r := r + [Pair(r[j + i], r[j + i2])];
      i := i + 2;
    }
  }

  lemma LevelStep(level: seq<Hash>)
    ensures |level| > 1 ==>
              && Flat(level) == level + Flat(NextLevel(level)) && Root(level) == Root(NextLevel(level))
              && (Mutated(level) <==> LastTwoEqual(level) || Mutated(NextLevel(level)))
    ensures |level| <= 1 ==> Flat(level) == level && !Mutated(level) && Root(level) == (if level == [] then Null else level[0])
  {
  }

  method BuildMerkleTree(txids: seq<Hash>) returns (tree: seq<Hash>, root: Hash, mutated: bool)
    ensures tree == Flat(txids) && root == Root(txids) && (mutated <==> Mutated(txids))
  {
    hide Flat, Root, Mutated, LastTwoEqual;
    tree, mutated := txids, false;
    var j, n := 0, |txids|;
    ghost var level := txids;
    ghost var below: seq<Hash> := [];
    while n > 1
      invariant n == |level| && j == |below| && tree == below + level
      invariant level == [] ==> txids == [] && below == []
      invariant below + Flat(level) == Flat(txids)
      invariant Root(level) == Root(txids)
      invariant Mutated(txids) <==> mutated || Mutated(level)
      decreases n
    {
      LevelStep(level);
      var repeated;
      tree, repeated := AppendParents(tree, j, n, level);
      if repeated { mutated := true; }
      below := below + level;
      j := j + n;
      n := (n + 1) / 2;
      level := NextLevel(level);
    }
    LevelStep(level);
    LevelStep(txids);
    root := if tree == [] then Null else tree[|tree| - 1];
  }

  // ---------- the root determines the list, unless it is reported mutated ----------

  /** How many levels of hashing are above the leaves, along the left edge. */
  function Depth(h: Hash): nat {
    if h.Pair? then 1 + Depth(h.left) else 0
  }

  predicate Uniform(level: seq<Hash>, d: nat) {
    forall i :: 0 <= i < |level| ==> Depth(level[i]) == d
  }

  lemma NextUniform(level: seq<Hash>, d: nat)
    requires Uniform(level, d)
    ensures Uniform(NextLevel(level), d + 1)
  {
  }

  lemma {:induction false} RootDeeper(level: seq<Hash>, d: nat)
    requires Uniform(level, d) && |level| > 0
    ensures Depth(Root(level)) >= d && (Depth(Root(level)) == d <==> |level| == 1)
    decreases |level|
  {
    if |level| > 1 {
      NextUniform(level, d);
      RootDeeper(NextLevel(level), d + 1);
    }
  }

  /** Two different levels with the same parents: the longer one is the shorter one with its last repeated. */
  lemma SameParents(a: seq<Hash>, b: seq<Hash>)
    requires |a| > 0 && |b| > 0 && NextLevel(a) == NextLevel(b) && |a| <= |b| && a != b
    ensures |a| < |b| && LastTwoEqual(b)
  {
    var na, nb := NextLevel(a), NextLevel(b);
    var k := |na| - 1;
    assert na[k] == nb[k];
    if |a| == |b| {
      forall i | 0 <= i < |a| ensures a[i] == b[i] {
        assert na[i / 2] == nb[i / 2];
      }
    } else {
      assert |a| == 2 * k + 1 && |b| == 2 * k + 2;
      assert nb[k] == Pair(b[2 * k], b[2 * k + 1]);
    }
  }

  /** Different lists with the same root have different lengths, and the longer one is reported mutated. */
  lemma {:induction false} SameRootMutated(a: seq<Hash>, b: seq<Hash>, d: nat)
    requires |a| > 0 && |b| > 0 && Uniform(a, d) && Uniform(b, d)
    requires Root(a) == Root(b) && a != b
    ensures |a| != |b| && (|a| < |b| ==> Mutated(b)) && (|b| < |a| ==> Mutated(a))
    decreases |a| + |b|
  {
    RootDeeper(a, d);
    RootDeeper(b, d);
    if |a| > 1 {
      if NextLevel(a) == NextLevel(b) {
        if |a| <= |b| {
          SameParents(a, b);
        } else {
          SameParents(b, a);
        }
      } else {
        NextUniform(a, d);
        NextUniform(b, d);
        SameRootMutated(NextLevel(a), NextLevel(b), d + 1);
      }
    }
  }

  predicate AllTxids(txids: seq<Hash>) {
    forall i :: 0 <= i < |txids| ==> txids[i].Leaf?
  }

  /** A list of transactions that is not reported mutated is the only such list with its root. */
  lemma UnmutatedDetermined(a: seq<Hash>, b: seq<Hash>)
    requires a != [] && b != [] && AllTxids(a) && AllTxids(b)
    requires Root(a) == Root(b) && !Mutated(a) && !Mutated(b)
    ensures a == b
  {
    if a != b {
      SameRootMutated(a, b, 0);
    }
  }

  predicate Distinct(level: seq<Hash>) {
    forall i, j :: 0 <= i < j < |level| ==> level[i] != level[j]
  }

  lemma NextDistinct(level: seq<Hash>)
    requires Distinct(level)
    ensures Distinct(NextLevel(level))
  {
    var next := NextLevel(level);
    forall i, j | 0 <= i < j < |next| ensures next[i] != next[j] {
      assert next[i].left == level[2 * i] && next[j].left == level[2 * j];
    }
  }

  /** No false alarm: a list without repetitions is never reported mutated. */
  lemma {:induction false} DistinctNotMutated(level: seq<Hash>)
    requires Distinct(level)
    ensures !Mutated(level)
    decreases |level|
  {
    if |level| > 1 {
      NextDistinct(level);
      DistinctNotMutated(NextLevel(level));
    }
  }

  // ---------- branches ----------

  function Levels(n: nat): nat
    decreases n
  {
    if n <= 1 then 0 else 1 + Levels((n + 1) / 2)
  }

  function Sibling(i: nat): nat {
    if i % 2 == 0 then i + 1 else i - 1
  }

  /** The hashes needed to recompute the root from the leaf at position i. */
  function Branch(level: seq<Hash>, i: nat): (r: seq<Hash>)
    requires i < |level|
    ensures |r| == Levels(|level|)
    decreases |level|
  {
    if |level| <= 1 then [] else [level[Min(Sibling(i), |level| - 1)]] + Branch(NextLevel(level), i / 2)
  }

  /** The root recomputed from a leaf and a branch. */
  function Climb(h: Hash, branch: seq<Hash>, i: nat): Hash
    decreases |branch|
  {
    if branch == [] then h
    else Climb(Joined(i, h, branch[0]), branch[1..], i / 2)
  }

  /** The hash above the node at position i, given its sibling. */
  function Joined(i: nat, h: Hash, sibling: Hash): Hash {
    if i % 2 == 1 then Pair(sibling, h) else Pair(h, sibling)
  }

  lemma ClimbStep(h: Hash, branch: seq<Hash>, i: nat)
    ensures branch == [] ==> Climb(h, branch, i) == h
    ensures branch != [] ==> Climb(h, branch, i) == Climb(Joined(i, h, branch[0]), branch[1..], i / 2)
  {
  }

  lemma ParentOfLeaf(level: seq<Hash>, i: nat)
    requires i < |level| && |level| > 1
    ensures i / 2 < |NextLevel(level)| && |NextLevel(level)| < |level|
    ensures NextLevel(level)[i / 2] == Joined(i, level[i], level[Min(Sibling(i), |level| - 1)])
  {
  }

  lemma BranchStep(level: seq<Hash>, i: nat)
    requires i < |level|
    ensures |level| > 1 ==>
              i / 2 < |NextLevel(level)| &&
              Branch(level, i) == [level[Min(Sibling(i), |level| - 1)]] + Branch(NextLevel(level), i / 2)
    ensures |level| <= 1 ==> Branch(level, i) == []
  {
  }

  /** The flat tree above the levels passed so far, one level further. */
  lemma NextFlat(tree: seq<Hash>, below: seq<Hash>, level: seq<Hash>)
    requires tree == below + Flat(level) && |level| > 1
    ensures tree == below + level + Flat(NextLevel(level)) && |NextLevel(level)| == (|level| + 1) / 2
    ensures forall i :: 0 <= i < |level| ==> |below| + i < |tree| && tree[|below| + i] == level[i]
  {
    LevelStep(level);
    hide Flat, Root, Mutated, LastTwoEqual;
    assert tree == below + level + Flat(NextLevel(level));
  }

  method GetMerkleBranch(tree: seq<Hash>, txids: seq<Hash>, index: nat) returns (branch: seq<Hash>)
    requires tree == Flat(txids) && index < |txids|
    ensures branch == Branch(txids, index)
  {
    hide Flat, Branch, NextLevel, Sibling;
    branch := [];
    var j: nat, n, idx: nat := 0, |txids|, index;
    ghost var level, below := txids, [];
    while n > 1
      invariant n == |level| && idx < n && j == |below| && tree == below + Flat(level)
      invariant branch + Branch(level, idx) == Branch(txids, index)
      decreases n
    {
      NextFlat(tree, below, level);
      BranchStep(level, idx);
      var i := Min(Sibling(idx), n - 1);
      assert branch + ([level[i]] + Branch(NextLevel(level), idx / 2)) == branch + [level[i]] + Branch(NextLevel(level), idx / 2);
      branch := branch + [tree[j + i]];
      below := below + level;
      idx := idx / 2;
      j := j + n;
      n := (n + 1) / 2;
      level := NextLevel(level);
    }
    BranchStep(level, idx);
  }

  method CheckMerkleBranch(hash: Hash, branch: seq<Hash>, index: int) returns (root: Hash)
    requires index >= -1
    ensures root == (if index == -1 then Null else Climb(hash, branch, index))
  {
    if index == -1 {
      return Null;
    }
    root := hash;
    var i, idx := 0, index;
    while i < |branch|
      invariant 0 <= i <= |branch| && idx >= 0
      invariant Climb(root, branch[i..], idx) == Climb(hash, branch, index)
    {
      assert branch[i..][0] == branch[i] && branch[i..][1..] == branch[i + 1..];
      root := if idx % 2 == 1 then Pair(branch[i], root) else Pair(root, branch[i]);
      idx := idx / 2;
      i := i + 1;
    }
  }

  /** A branch taken from the tree leads from its leaf to the root. */
  lemma {:induction false} BranchLeadsToRoot(level: seq<Hash>, i: nat)
    requires i < |level|
    ensures Climb(level[i], Branch(level, i), i) == Root(level)
    decreases |level|
  {
    hide Branch, NextLevel, Climb, Levels;
    BranchStep(level, i);
    if |level| > 1 {
      var branch := Branch(level, i);
      ParentOfLeaf(level, i);
      ClimbStep(level[i], branch, i);
      assert branch[1..] == Branch(NextLevel(level), i / 2);
      BranchLeadsToRoot(NextLevel(level), i / 2);
    } else {
      ClimbStep(level[i], [], i);
    }
  }

  /** Only the true leaf and its true branch lead to the root. */
  lemma {:induction false} OnlyTrueBranch(level: seq<Hash>, i: nat, h: Hash, branch: seq<Hash>)
    requires i < |level| && |branch| == Levels(|level|) && Climb(h, branch, i) == Root(level)
    ensures h == level[i] && branch == Branch(level, i)
    decreases |level|
  {
    hide Branch, NextLevel, Climb;
    BranchStep(level, i);
    ClimbStep(h, branch, i);
    if |level| > 1 {
      ParentOfLeaf(level, i);
      OnlyTrueBranch(NextLevel(level), i / 2, Joined(i, h, branch[0]), branch[1..]);
      assert branch == [branch[0]] + branch[1..];
    }
  }
}
