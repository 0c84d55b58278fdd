/** Partial merkle trees (BIP 37, "Partial Merkle branch format"): a block's tree pruned to the part that
    leads to some matched transactions, encoded as flag bits and hashes in depth-first order. */
module PartialMerkle {
  import opened Base
  import opened Merkle

  /** The number of nodes at height h over n leaves. */
  function Width(n: nat, h: nat): nat {
    (n + Pow2(h) - 1) / Pow2(h)
  }

  lemma DivAtLeast(x: nat, p: nat, k: nat)
    requires p > 0
    ensures k < x / p <==> (k + 1) * p <= x
  {
    var q, r := x / p, x % p;
    assert x == q * p + r;
    if k < q {
      assert (q - (k + 1)) * p >= 0;
    } else {
      assert (k - q) * p >= 0;
    }
  }

  /** The position of the first leaf below a node. */
  function First(h: nat, pos: nat): nat {
    pos * Pow2(h)
  }

  /** A node exists iff its first leaf does. */
  lemma NodeExists(n: nat, h: nat, pos: nat)
    ensures pos < Width(n, h) <==> First(h, pos) < n
  {
    DivAtLeast(n + Pow2(h) - 1, Pow2(h), pos);
    assert (pos + 1) * Pow2(h) == pos * Pow2(h) + Pow2(h);
  }

  /** The leaves below a node are those below its first child and then those below its second. */
  lemma Children(h: nat, pos: nat)
    requires h > 0
    ensures First(h, pos) == First(h - 1, 2 * pos)
    ensures First(h, pos + 1) == First(h - 1, 2 * pos + 2)
    ensures First(h - 1, 2 * pos) < First(h - 1, 2 * pos + 1) < First(h - 1, 2 * pos + 2)
  {
  }

  lemma Leaves(pos: nat)
    ensures First(0, pos) == pos
  {
    assert Pow2(0) == 1;
  }

  lemma NonEmpty(h: nat, pos: nat)
    ensures First(h, pos) < First(h, pos + 1)
  {
  }

  /** The first child of a node always exists. */
  lemma ChildExists(n: nat, h: nat, pos: nat)
    requires h > 0 && pos < Width(n, h)
    ensures 2 * pos < Width(n, h - 1)
  {
    hide First, Width, Pow2;
    NodeExists(n, h, pos);
    NodeExists(n, h - 1, 2 * pos);
    Children(h, pos);
  }

  lemma WidthHalves(n: nat, h: nat)
    requires h > 0
    ensures Width(n, h) == (Width(n, h - 1) + 1) / 2
  {
    hide First, Width, Pow2;
    var a, b := Width(n, h), (Width(n, h - 1) + 1) / 2;
    NodeExists(n, h, b);
    NodeExists(n, h - 1, 2 * b);
    Children(h, b);
    if b > 0 {
      NodeExists(n, h, b - 1);
      NodeExists(n, h - 1, 2 * (b - 1));
      Children(h, b - 1);
    }
  }

  lemma WidthAtLeaves(n: nat)
    ensures Width(n, 0) == n
  {
    assert Pow2(0) == 1;
  }

  // ---------- nodes of the full tree ----------

  function CalcHash(txids: seq<Hash>, h: nat, pos: nat): Hash
    requires pos < Width(|txids|, h)
    decreases h
  {
    if h == 0 then
      WidthAtLeaves(|txids|);
      txids[pos]
    else
      ChildExists(|txids|, h, pos);
      var left := CalcHash(txids, h - 1, 2 * pos);
      var right := if 2 * pos + 1 < Width(|txids|, h - 1) then CalcHash(txids, h - 1, 2 * pos + 1) else left;
      Pair(left, right)
  }

  function LevelAt(txids: seq<Hash>, h: nat): seq<Hash> {
    if h == 0 then txids else NextLevel(LevelAt(txids, h - 1))
  }

  /** Node by node, the recursive definition gives the levels of the flat builder. */
  lemma {:induction false} CalcHashIsLevel(txids: seq<Hash>, h: nat)
    ensures |LevelAt(txids, h)| == Width(|txids|, h)
    ensures forall pos :: 0 <= pos < Width(|txids|, h) ==> CalcHash(txids, h, pos) == LevelAt(txids, h)[pos]
  {
    hide Width;
    if h == 0 {
      WidthAtLeaves(|txids|);
    } else {
      CalcHashIsLevel(txids, h - 1);
      WidthHalves(|txids|, h);
      forall pos | 0 <= pos < Width(|txids|, h) ensures CalcHash(txids, h, pos) == LevelAt(txids, h)[pos] {
        ChildExists(|txids|, h, pos);
      }
    }
  }

  lemma {:induction false} LevelRoot(txids: seq<Hash>, h: nat)
    requires h <= Levels(|txids|)
    ensures Root(LevelAt(txids, h)) == Root(txids) && Levels(|LevelAt(txids, h)|) == Levels(|txids|) - h
  {
    if h > 0 {
      LevelRoot(txids, h - 1);
    }
  }

  /** The single node at the top is the merkle root of the block. */
  lemma TopIsRoot(txids: seq<Hash>)
    requires txids != []
    ensures Width(|txids|, Levels(|txids|)) == 1
    ensures CalcHash(txids, Levels(|txids|), 0) == Root(txids)
  {
    hide Width, CalcHash, LevelAt;
    var h := Levels(|txids|);
    LevelRoot(txids, h);
    CalcHashIsLevel(txids, h);
    NodeExists(|txids|, h, 0);
    assert First(h, 0) == 0;
    LevelsOne(|LevelAt(txids, h)|);
  }

  lemma LevelsOne(n: nat)
    requires Levels(n) == 0
    ensures n <= 1
  {
  }

  lemma {:induction false} NodesDistinct(txids: seq<Hash>, h: nat)
    requires Distinct(txids)
    ensures Distinct(LevelAt(txids, h))
  {
    if h > 0 {
      NodesDistinct(txids, h - 1);
      NextDistinct(LevelAt(txids, h - 1));
    }
  }

  method TreeHeight(n: nat) returns (h: nat)
    ensures h == Levels(n)
  {
    h := 0;
    WidthAtLeaves(n);
    while Width(n, h) > 1
      invariant h + Levels(Width(n, h)) == Levels(n)
      decreases Width(n, h)
    {
      WidthHalves(n, h + 1);
      h := h + 1;
    }
  }

  // ---------- matched leaves ----------

  /** The matched positions from lo up to hi, cut off at the end of the list. */
  function Matches(match_: seq<bool>, lo: nat, hi: nat): (r: seq<nat>)
    ensures forall i :: 0 <= i < |r| ==> lo <= r[i] < hi && r[i] < |match_| && match_[r[i]]
    ensures forall i, j :: 0 <= i < j < |r| ==> r[i] < r[j]
    decreases hi - lo
  {
    if lo >= hi || lo >= |match_| then []
    else (if match_[lo] then [lo] else []) + Matches(match_, lo + 1, hi)
  }

  lemma {:induction false} MatchesSplit(match_: seq<bool>, lo: nat, mid: nat, hi: nat)
    requires lo <= mid <= hi
    ensures Matches(match_, lo, hi) == Matches(match_, lo, mid) + Matches(match_, mid, hi)
    decreases mid - lo
  {
    if lo < mid && lo < |match_| {
      MatchesSplit(match_, lo + 1, mid, hi);
    }
  }

  lemma MatchesBeyond(match_: seq<bool>, lo: nat, hi: nat)
    requires lo >= |match_|
    ensures Matches(match_, lo, hi) == []
  {
  }

  function Select(txids: seq<Hash>, at: seq<nat>): (r: seq<Hash>)
    requires forall i :: 0 <= i < |at| ==> at[i] < |txids|
    ensures |r| == |at| && forall i :: 0 <= i < |at| ==> r[i] == txids[at[i]]
  {
    seq(|at|, i requires 0 <= i < |at| => txids[at[i]])
  }

  function Under(match_: seq<bool>, h: nat, pos: nat): (r: seq<nat>)
    ensures forall i :: 0 <= i < |r| ==> r[i] < |match_|
  {
    Matches(match_, First(h, pos), First(h, pos + 1))
  }

  lemma UnderSplit(match_: seq<bool>, h: nat, pos: nat)
    requires h > 0
    ensures Under(match_, h, pos) == Under(match_, h - 1, 2 * pos) + Under(match_, h - 1, 2 * pos + 1)
    ensures 2 * pos + 1 >= Width(|match_|, h - 1) ==> Under(match_, h - 1, 2 * pos + 1) == []
  {
    hide First, Width, Pow2, Matches;
    Children(h, pos);
    MatchesSplit(match_, First(h - 1, 2 * pos), First(h - 1, 2 * pos + 1), First(h - 1, 2 * pos + 2));
    NodeExists(|match_|, h - 1, 2 * pos + 1);
    if 2 * pos + 1 >= Width(|match_|, h - 1) {
      MatchesBeyond(match_, First(h - 1, 2 * pos + 1), First(h - 1, 2 * pos + 2));
    }
  }

  // ---------- encoding ----------

  datatype Encoding = Encoding(bits: seq<bool>, hashes: seq<Hash>)

  /** The flag bits and hashes for the subtree at a node. */
  function Build(txids: seq<Hash>, match_: seq<bool>, h: nat, pos: nat): Encoding
    requires |match_| == |txids| && pos < Width(|txids|, h)
    decreases h
  {
    var flag := Under(match_, h, pos) != [];
    if h == 0 || !flag then
      Encoding([flag], [CalcHash(txids, h, pos)])
    else
      ChildExists(|txids|, h, pos);
      var l := Build(txids, match_, h - 1, 2 * pos);
      if 2 * pos + 1 < Width(|txids|, h - 1) then
        var r := Build(txids, match_, h - 1, 2 * pos + 1);
        Encoding([true] + l.bits + r.bits, l.hashes + r.hashes)
      else
        Encoding([true] + l.bits, l.hashes)
  }

  /** At least one hash and at most one per leaf of the subtree; at least one bit per hash. */
  lemma {:induction false} BuildSize(txids: seq<Hash>, match_: seq<bool>, h: nat, pos: nat)
    requires |match_| == |txids| && pos < Width(|txids|, h)
    ensures var e := Build(txids, match_, h, pos);
      1 <= |e.hashes| <= |e.bits| && |e.hashes| <= Min(First(h, pos + 1), |txids|) - First(h, pos)
    decreases h
  {
    hide First, Width, Pow2, Under, CalcHash;
    NodeExists(|txids|, h, pos);
    NonEmpty(h, pos);
    if h > 0 && Under(match_, h, pos) != [] {
      ChildExists(|txids|, h, pos);
      Children(h, pos);
      NodeExists(|txids|, h - 1, 2 * pos + 1);
      BuildSize(txids, match_, h - 1, 2 * pos);
      if 2 * pos + 1 < Width(|txids|, h - 1) {
        BuildSize(txids, match_, h - 1, 2 * pos + 1);
      }
    }
  }

  // ---------- decoding ----------

  /** The outcome of decoding a subtree: its hash, how far the cursors got, the leaves visited as matched
      and what was found there, and whether something was wrong. */
  datatype Decoding = Decoding(hash: Hash, bitsUsed: nat, hashUsed: nat, where: seq<nat>, found: seq<Hash>, bad: bool)

  function Extract(n: nat, bits: seq<bool>, hashes: seq<Hash>, h: nat, pos: nat, bu: nat, hu: nat): (d: Decoding)
    ensures |d.where| == |d.found|
    decreases h
  {
    if bu >= |bits| then Decoding(Null, bu, hu, [], [], true)
    else if h == 0 || !bits[bu] then
      if hu >= |hashes| then Decoding(Null, bu + 1, hu, [], [], true)
      else if h == 0 && bits[bu] then Decoding(hashes[hu], bu + 1, hu + 1, [pos], [hashes[hu]], false)
      else Decoding(hashes[hu], bu + 1, hu + 1, [], [], false)
    else
      var l := Extract(n, bits, hashes, h - 1, 2 * pos, bu + 1, hu);
      if 2 * pos + 1 < Width(n, h - 1) then
        var r := Extract(n, bits, hashes, h - 1, 2 * pos + 1, l.bitsUsed, l.hashUsed);
        Decoding(Pair(l.hash, r.hash), r.bitsUsed, r.hashUsed, l.where + r.where, l.found + r.found,
                 l.bad || r.bad || r.hash == l.hash)
      else
        Decoding(Pair(l.hash, l.hash), l.bitsUsed, l.hashUsed, l.where, l.found, l.bad)
  }

  ghost predicate At<T>(s: seq<T>, k: nat, part: seq<T>) {
    k + |part| <= |s| && s[k..k + |part|] == part
  }

  lemma AtParts<T>(s: seq<T>, k: nat, a: seq<T>, b: seq<T>)
    requires At(s, k, a + b)
    ensures At(s, k, a) && At(s, k + |a|, b)
  {
    assert a == (a + b)[..|a|] && b == (a + b)[|a|..];
    assert s[k..k + |a|] == s[k..k + |a + b|][..|a|];
    assert s[k + |a|..k + |a + b|] == s[k..k + |a + b|][|a|..];
  }

  lemma SiblingsDiffer(txids: seq<Hash>, h: nat, pos: nat)
    requires Distinct(txids) && h > 0 && 2 * pos + 1 < Width(|txids|, h - 1)
    ensures CalcHash(txids, h - 1, 2 * pos) != CalcHash(txids, h - 1, 2 * pos + 1)
  {
    CalcHashIsLevel(txids, h - 1);
    NodesDistinct(txids, h - 1);
  }

  lemma SelectConcat(txids: seq<Hash>, a: seq<nat>, b: seq<nat>)
    requires forall i :: 0 <= i < |a| ==> a[i] < |txids|
    requires forall i :: 0 <= i < |b| ==> b[i] < |txids|
    ensures forall i :: 0 <= i < |a + b| ==> (a + b)[i] < |txids|
    ensures Select(txids, a + b) == Select(txids, a) + Select(txids, b)
  {
  }

  /** What decoding the subtree at a node should give. */
  ghost function Expected(txids: seq<Hash>, match_: seq<bool>, h: nat, pos: nat, bu: nat, hu: nat): Decoding
    requires |match_| == |txids| && pos < Width(|txids|, h)
  {
    var e := Build(txids, match_, h, pos);
    Decoding(CalcHash(txids, h, pos), bu + |e.bits|, hu + |e.hashes|,
             Under(match_, h, pos), Select(txids, Under(match_, h, pos)), false)
  }

  lemma ExtractLeafBuilt(txids: seq<Hash>, match_: seq<bool>, h: nat, pos: nat,
                         bits: seq<bool>, hashes: seq<Hash>, bu: nat, hu: nat)
    requires |match_| == |txids| && pos < Width(|txids|, h) && (h == 0 || Under(match_, h, pos) == [])
    requires At(bits, bu, Build(txids, match_, h, pos).bits) && At(hashes, hu, Build(txids, match_, h, pos).hashes)
    ensures Extract(|txids|, bits, hashes, h, pos, bu, hu) == Expected(txids, match_, h, pos, bu, hu)
  {
    hide Width, At, CalcHash, Under;
    var e := Build(txids, match_, h, pos);
    AtFirst(bits, bu, e.bits);
    AtFirst(hashes, hu, e.hashes);
    if h == 0 {
      LeafUnder(txids, match_, pos);
    }
  }

  /** An inner node with two children is read back if both children are. */
  lemma TwoChildrenBuilt(txids: seq<Hash>, match_: seq<bool>, h: nat, pos: nat,
                         bits: seq<bool>, hashes: seq<Hash>, bu: nat, hu: nat)
    requires |match_| == |txids| && h > 0 && pos < Width(|txids|, h) && Distinct(txids)
    requires Under(match_, h, pos) != [] && 2 * pos + 1 < Width(|txids|, h - 1)
    requires bu < |bits| && bits[bu]
    requires var l := Expected(txids, match_, h - 1, 2 * pos, bu + 1, hu);
      && Extract(|txids|, bits, hashes, h - 1, 2 * pos, bu + 1, hu) == l
      && Extract(|txids|, bits, hashes, h - 1, 2 * pos + 1, l.bitsUsed, l.hashUsed) ==
         Expected(txids, match_, h - 1, 2 * pos + 1, l.bitsUsed, l.hashUsed)
    ensures Extract(|txids|, bits, hashes, h, pos, bu, hu) == Expected(txids, match_, h, pos, bu, hu)
  {
    hide Width, CalcHash, Under, Select, Distinct;
    UnderSplit(match_, h, pos);
    CalcHashPair(txids, h, pos);
    SiblingsDiffer(txids, h, pos);
    SelectConcat(txids, Under(match_, h - 1, 2 * pos), Under(match_, h - 1, 2 * pos + 1));
  }

  lemma OneChildBuilt(txids: seq<Hash>, match_: seq<bool>, h: nat, pos: nat,
                      bits: seq<bool>, hashes: seq<Hash>, bu: nat, hu: nat)
    requires |match_| == |txids| && h > 0 && pos < Width(|txids|, h) && 2 * pos < Width(|txids|, h - 1)
    requires Under(match_, h, pos) != [] && 2 * pos + 1 >= Width(|txids|, h - 1)
    requires bu < |bits| && bits[bu]
    requires Extract(|txids|, bits, hashes, h - 1, 2 * pos, bu + 1, hu) == Expected(txids, match_, h - 1, 2 * pos, bu + 1, hu)
    ensures Extract(|txids|, bits, hashes, h, pos, bu, hu) == Expected(txids, match_, h, pos, bu, hu)
  {
    hide Width, CalcHash, Under, Select;
    UnderSplit(match_, h, pos);
    CalcHashPair(txids, h, pos);
    assert Under(match_, h - 1, 2 * pos) + [] == Under(match_, h - 1, 2 * pos);
  }

  lemma BuildInner(txids: seq<Hash>, match_: seq<bool>, h: nat, pos: nat)
    requires |match_| == |txids| && h > 0 && pos < Width(|txids|, h) && Under(match_, h, pos) != []
    ensures 2 * pos < Width(|txids|, h - 1)
    ensures var e := Build(txids, match_, h, pos); var l := Build(txids, match_, h - 1, 2 * pos);
      if 2 * pos + 1 < Width(|txids|, h - 1) then
        var r := Build(txids, match_, h - 1, 2 * pos + 1);
        e.bits == [true] + (l.bits + r.bits) && e.hashes == l.hashes + r.hashes
      else e.bits == [true] + l.bits && e.hashes == l.hashes
  {
    hide Width, Under, CalcHash;
    ChildExists(|txids|, h, pos);
  }

  lemma BuildStops(txids: seq<Hash>, match_: seq<bool>, h: nat, pos: nat)
    requires |match_| == |txids| && pos < Width(|txids|, h) && (h == 0 || Under(match_, h, pos) == [])
    ensures Build(txids, match_, h, pos) == Encoding([Under(match_, h, pos) != []], [CalcHash(txids, h, pos)])
  {
    hide Width, Under, CalcHash;
  }

  lemma Regroup<T>(s: seq<T>, a: seq<T>, b: seq<T>, c: seq<T>)
    ensures s + a + b + c == s + (a + (b + c)) && s + a + b == s + (a + b)
  {
  }

  /** What was built is read back: the true hash, exactly the matched leaves in order, and everything that was
      written and nothing more is consumed. */
  lemma {:induction false} ExtractBuilt(txids: seq<Hash>, match_: seq<bool>, h: nat, pos: nat,
                                        bits: seq<bool>, hashes: seq<Hash>, bu: nat, hu: nat)
    requires |match_| == |txids| && pos < Width(|txids|, h) && Distinct(txids)
    requires At(bits, bu, Build(txids, match_, h, pos).bits) && At(hashes, hu, Build(txids, match_, h, pos).hashes)
    ensures Extract(|txids|, bits, hashes, h, pos, bu, hu) == Expected(txids, match_, h, pos, bu, hu)
    decreases h
  {
    hide Width, At, Under, Build, Extract, Distinct;
    if h == 0 || Under(match_, h, pos) == [] {
      ExtractLeafBuilt(txids, match_, h, pos, bits, hashes, bu, hu);
    } else {
      BuildInner(txids, match_, h, pos);
      var l := Build(txids, match_, h - 1, 2 * pos);
      AtFirst(bits, bu, Build(txids, match_, h, pos).bits);
      if 2 * pos + 1 < Width(|txids|, h - 1) {
        var r := Build(txids, match_, h - 1, 2 * pos + 1);
        AtParts(bits, bu, [true], l.bits + r.bits);
        AtParts(bits, bu + 1, l.bits, r.bits);
        AtParts(hashes, hu, l.hashes, r.hashes);
        ExtractBuilt(txids, match_, h - 1, 2 * pos, bits, hashes, bu + 1, hu);
        ExtractBuilt(txids, match_, h - 1, 2 * pos + 1, bits, hashes, bu + 1 + |l.bits|, hu + |l.hashes|);
        TwoChildrenBuilt(txids, match_, h, pos, bits, hashes, bu, hu);
      } else {
        AtParts(bits, bu, [true], l.bits);
        ExtractBuilt(txids, match_, h - 1, 2 * pos, bits, hashes, bu + 1, hu);
        OneChildBuilt(txids, match_, h, pos, bits, hashes, bu, hu);
      }
    }
  }

  lemma AtFirst<T>(s: seq<T>, k: nat, part: seq<T>)
    requires At(s, k, part) && part != []
    ensures k < |s| && s[k] == part[0]
  {
    assert s[k..k + |part|][0] == s[k];
  }

  lemma LeafUnder(txids: seq<Hash>, match_: seq<bool>, pos: nat)
    requires |match_| == |txids| && pos < Width(|txids|, 0)
    ensures pos < |txids| && CalcHash(txids, 0, pos) == txids[pos]
    ensures Under(match_, 0, pos) == (if match_[pos] then [pos] else [])
  {
    WidthAtLeaves(|txids|);
    Leaves(pos);
    Leaves(pos + 1);
    assert Matches(match_, pos + 1, pos + 1) == [];
  }

  lemma CalcHashPair(txids: seq<Hash>, h: nat, pos: nat)
    requires h > 0 && pos < Width(|txids|, h)
    ensures 2 * pos < Width(|txids|, h - 1)
    ensures CalcHash(txids, h, pos) ==
            Pair(CalcHash(txids, h - 1, 2 * pos),
                 if 2 * pos + 1 < Width(|txids|, h - 1) then CalcHash(txids, h - 1, 2 * pos + 1)
                 else CalcHash(txids, h - 1, 2 * pos))
  {
    ChildExists(|txids|, h, pos);
  }

  /** One level of the traversal, when it finds nothing wrong. */
  lemma ExtractStep(n: nat, bits: seq<bool>, hashes: seq<Hash>, h: nat, pos: nat, bu: nat, hu: nat)
    requires !Extract(n, bits, hashes, h, pos, bu, hu).bad
    ensures bu < |bits|
    ensures var d := Extract(n, bits, hashes, h, pos, bu, hu);
      if h == 0 || !bits[bu] then
        && hu < |hashes| && d.hash == hashes[hu]
        && (if h == 0 && bits[bu] then d.where == [pos] && d.found == [d.hash] else d.where == [] && d.found == [])
      else
        var l := Extract(n, bits, hashes, h - 1, 2 * pos, bu + 1, hu);
        if 2 * pos + 1 < Width(n, h - 1) then
          var r := Extract(n, bits, hashes, h - 1, 2 * pos + 1, l.bitsUsed, l.hashUsed);
          && !l.bad && !r.bad && d.hash == Pair(l.hash, r.hash)
          && d.where == l.where + r.where && d.found == l.found + r.found
        else !l.bad && d.hash == Pair(l.hash, l.hash) && d.where == l.where && d.found == l.found
  {
    hide Width;
  }

  /** Whatever bits and hashes are given: if the hash that comes out at a node is the true one and nothing was
      found wrong, then every transaction extracted below it is the true one at the leaf visited. */
  lemma {:induction false} ExtractSound(txids: seq<Hash>, bits: seq<bool>, hashes: seq<Hash>, h: nat, pos: nat, bu: nat, hu: nat)
    requires pos < Width(|txids|, h)
    requires var d := Extract(|txids|, bits, hashes, h, pos, bu, hu);
      d.hash == CalcHash(txids, h, pos) && !d.bad
    ensures var d := Extract(|txids|, bits, hashes, h, pos, bu, hu);
      && (forall i :: 0 <= i < |d.where| ==> First(h, pos) <= d.where[i] < First(h, pos + 1) && d.where[i] < |txids|)
      && (forall i :: 0 <= i < |d.where| ==> d.found[i] == txids[d.where[i]])
      && (forall i, j :: 0 <= i < j < |d.where| ==> d.where[i] < d.where[j])
    decreases h
  {
    hide Width, CalcHash, First, Pow2, Extract;
    ExtractStep(|txids|, bits, hashes, h, pos, bu, hu);
    if h == 0 {
      LeafIsTxid(txids, pos);
    } else if bits[bu] {
      CalcHashPair(txids, h, pos);
      Children(h, pos);
      var l := Extract(|txids|, bits, hashes, h - 1, 2 * pos, bu + 1, hu);
      ExtractSound(txids, bits, hashes, h - 1, 2 * pos, bu + 1, hu);
      if 2 * pos + 1 < Width(|txids|, h - 1) {
        ExtractSound(txids, bits, hashes, h - 1, 2 * pos + 1, l.bitsUsed, l.hashUsed);
      }
    }
  }

  lemma LeafIsTxid(txids: seq<Hash>, pos: nat)
    requires pos < Width(|txids|, 0)
    ensures First(0, pos) == pos && First(0, pos + 1) == pos + 1
    ensures pos < |txids| && CalcHash(txids, 0, pos) == txids[pos]
  {
    Leaves(pos);
    Leaves(pos + 1);
    WidthAtLeaves(|txids|);
  }

  // ---------- flag bits in bytes ----------

  /** The byte with only bit j set, least significant first. */
  function Mask(j: nat): bv8
    requires j < 8
  {
    if j == 0 then 0x01 else if j == 1 then 0x02 else if j == 2 then 0x04 else if j == 3 then 0x08
    else if j == 4 then 0x10 else if j == 5 then 0x20 else if j == 6 then 0x40 else 0x80
  }

  predicate HasBit(b: bv8, j: nat)
    requires j < 8
  {
    b & Mask(j) != 0
  }

  predicate BitAt(bytes: seq<bv8>, q: nat)
    requires q < 8 * |bytes|
  {
    HasBit(bytes[q / 8], q % 8)
  }

  lemma SetBit(b: bv8, j: nat, k: nat)
    requires j < 8 && k < 8
    ensures HasBit(b | Mask(j), k) <==> HasBit(b, k) || j == k
    ensures !HasBit(0, k)
  {
  }

  method PackBits(bits: seq<bool>) returns (bytes: seq<bv8>)
    ensures |bytes| == (|bits| + 7) / 8
    ensures forall q :: 0 <= q < 8 * |bytes| ==> (BitAt(bytes, q) <==> q < |bits| && bits[q])
  {
    hide HasBit;
    bytes := seq((|bits| + 7) / 8, _ => 0);
    forall q | 0 <= q < 8 * |bytes| ensures !BitAt(bytes, q) {
      SetBit(0, 0, q % 8);
    }
    var p := 0;
    while p < |bits|
      invariant 0 <= p <= |bits| && |bytes| == (|bits| + 7) / 8
      invariant forall q :: 0 <= q < 8 * |bytes| ==> (BitAt(bytes, q) <==> q < p && bits[q])
    {
      if bits[p] {
        ghost var before := bytes;
        bytes := bytes[p / 8 := bytes[p / 8] | Mask(p % 8)];
        forall q | 0 <= q < 8 * |bytes| ensures BitAt(bytes, q) <==> BitAt(before, q) || q == p {
          SetBit(before[p / 8], p % 8, q % 8);
        }
      }
      p := p + 1;
    }
  }

  method UnpackBits(bytes: seq<bv8>) returns (bits: seq<bool>)
    ensures |bits| == 8 * |bytes| && forall q :: 0 <= q < |bits| ==> (bits[q] <==> BitAt(bytes, q))
  {
    bits := [];
    var p := 0;
    while p < 8 * |bytes|
      invariant 0 <= p <= 8 * |bytes| && |bits| == p
      invariant forall q :: 0 <= q < p ==> (bits[q] <==> BitAt(bytes, q))
    {
      bits := bits + [bytes[p / 8] & Mask(p % 8) != 0];
      p := p + 1;
    }
  }

  // ---------- the whole message ----------

  const MAX_BLOCK_SIZE: nat := 1_000_000
  const MAX_TRANSACTIONS: nat := MAX_BLOCK_SIZE / 60

  /** The decoded root, null if anything is wrong, and the transactions extracted on the way. */
  function ExtractAll(n: nat, bits: seq<bool>, hashes: seq<Hash>): (Hash, seq<Hash>) {
    if n == 0 || n > MAX_TRANSACTIONS || |hashes| > n || |bits| < |hashes| then (Null, [])
    else
      var d := Extract(n, bits, hashes, Levels(n), 0, 0, 0);
      if d.bad || (d.bitsUsed + 7) / 8 != (|bits| + 7) / 8 || d.hashUsed != |hashes| then (Null, d.found)
      else (d.hash, d.found)
  }

  ghost function BuildAll(txids: seq<Hash>, match_: seq<bool>): Encoding
    requires |match_| == |txids| && txids != []
  {
    TopIsRoot(txids);
    Build(txids, match_, Levels(|txids|), 0)
  }

  lemma {:induction false} RootNotNull(level: seq<Hash>)
    requires level != [] && forall i :: 0 <= i < |level| ==> level[i] != Null
    ensures Root(level) != Null
    decreases |level|
  {
    if |level| > 1 {
      RootNotNull(NextLevel(level));
    }
  }

  lemma WholeUnder(match_: seq<bool>)
    requires match_ != []
    ensures Under(match_, Levels(|match_|), 0) == Matches(match_, 0, |match_|)
  {
    var n, h := |match_|, Levels(|match_|);
    NodeExists(n, h, 1);
    TopWidth(n);
    MatchesSplit(match_, 0, n, First(h, 1));
    MatchesBeyond(match_, n, First(h, 1));
  }

  lemma TopWidth(n: nat)
    requires n > 0
    ensures Width(n, Levels(n)) == 1
  {
    var txids := seq(n, _ => Null);
    TopIsRoot(txids);
  }

  /** A tree built over distinct transactions, its bits followed by padding up to the end of the last byte,
      extracts to the true root and exactly the matched transactions in order, if and only if the block is not
      too large to be accepted. */
  lemma RoundTripIff(txids: seq<Hash>, match_: seq<bool>, bits: seq<bool>)
    requires txids != [] && |match_| == |txids| && Distinct(txids) && AllTxids(txids)
    requires BuildAll(txids, match_).bits <= bits && (|bits| + 7) / 8 == (|BuildAll(txids, match_).bits| + 7) / 8
    ensures ExtractAll(|txids|, bits, BuildAll(txids, match_).hashes).0 == Root(txids) <==> |txids| <= MAX_TRANSACTIONS
    ensures |txids| <= MAX_TRANSACTIONS ==>
              ExtractAll(|txids|, bits, BuildAll(txids, match_).hashes).1 == Select(txids, Matches(match_, 0, |match_|))
  {
    hide Width, Build, Extract, Select, Matches, Under, Distinct, Root, CalcHash;
    var n, h := |txids|, Levels(|txids|);
    var e := BuildAll(txids, match_);
    TopIsRoot(txids);
    BuildSize(txids, match_, h, 0);
    NodeExists(n, h, 0);
    assert First(h, 0) == 0;
    assert At(bits, 0, e.bits) && At(e.hashes, 0, e.hashes);
    ExtractBuilt(txids, match_, h, 0, bits, e.hashes, 0, 0);
    WholeUnder(match_);
    RootNotNull(txids);
  }

  /** Also after the flag bits have been packed into bytes and unpacked again. */
  method SendAndReceive(txids: seq<Hash>, match_: seq<bool>) returns (root: Hash, found: seq<Hash>)
    requires txids != [] && |txids| <= MAX_TRANSACTIONS && |match_| == |txids| && Distinct(txids) && AllTxids(txids)
    ensures root == Root(txids) && found == Select(txids, Matches(match_, 0, |match_|))
  {
    hide Width, Select, Matches, Distinct, Root, BuildAll;
    var sender := new PartialMerkleTree(txids, match_);
    var bytes := PackBits(sender.vBits);
    var receiver := new PartialMerkleTree.Received(|txids|, sender.vHash, bytes);
    assert sender.vBits <= receiver.vBits;
    RoundTripIff(txids, match_, receiver.vBits);
    root, found := receiver.ExtractMatches();
  }

  /** Nobody can forge a match: if some bits and hashes, sent with the true transaction count, extract to the
      true root, every extracted transaction is one of the block's, at strictly rising positions. */
  lemma ExtractedAreTrue(txids: seq<Hash>, bits: seq<bool>, hashes: seq<Hash>) returns (where: seq<nat>)
    requires txids != [] && AllTxids(txids) && ExtractAll(|txids|, bits, hashes).0 == Root(txids)
    ensures |where| == |ExtractAll(|txids|, bits, hashes).1|
    ensures forall i :: 0 <= i < |where| ==> where[i] < |txids| && ExtractAll(|txids|, bits, hashes).1[i] == txids[where[i]]
    ensures forall i, j :: 0 <= i < j < |where| ==> where[i] < where[j]
  {
    hide Width, Extract, Root, CalcHash;
    RootNotNull(txids);
    TopIsRoot(txids);
    ExtractSound(txids, bits, hashes, Levels(|txids|), 0, 0, 0);
    where := Extract(|txids|, bits, hashes, Levels(|txids|), 0, 0, 0).where;
  }

  class PartialMerkleTree {
    var nTransactions: nat
    var vBits: seq<bool>
    var vHash: seq<Hash>
    var fBad: bool

    constructor (txids: seq<Hash>, match_: seq<bool>)
      requires txids != [] && |match_| == |txids|
      ensures nTransactions == |txids| && !fBad
      ensures vBits == BuildAll(txids, match_).bits && vHash == BuildAll(txids, match_).hashes
    {
      nTransactions, vBits, vHash, fBad := |txids|, [], [], false;
      new;
      var h := TreeHeight(|txids|);
      TopIsRoot(txids);
      TraverseAndBuild(h, 0, txids, match_);
    }

    /** What the receiver makes of a message: the bits come in whole bytes. */
    constructor Received(n: nat, hashes: seq<Hash>, bytes: seq<bv8>)
      ensures nTransactions == n && vHash == hashes && !fBad
      ensures |vBits| == 8 * |bytes| && forall q :: 0 <= q < |vBits| ==> (vBits[q] <==> BitAt(bytes, q))
    {
      nTransactions, vBits, vHash, fBad := n, [], hashes, false;
      new;
      vBits := UnpackBits(bytes);
    }

    method ParentOfMatch(match_: seq<bool>, h: nat, pos: nat) returns (r: bool)
      ensures r <==> Under(match_, h, pos) != []
    {
      hide First;
      r := false;
      NonEmpty(h, pos);
      var p, hi := First(h, pos), First(h, pos + 1);
      while p < hi && p < |match_|
        invariant First(h, pos) <= p <= hi
        invariant Under(match_, h, pos) != [] <==> r || Matches(match_, p, hi) != []
      {
        r := r || match_[p];
        p := p + 1;
      }
    }

    method TraverseAndBuild(h: nat, pos: nat, txids: seq<Hash>, match_: seq<bool>)
      requires |match_| == |txids| && nTransactions == |txids| && pos < Width(|txids|, h)
      modifies this`vBits, this`vHash
      ensures vBits == old(vBits) + Build(txids, match_, h, pos).bits
      ensures vHash == old(vHash) + Build(txids, match_, h, pos).hashes
      decreases h
    {
      hide Width, CalcHash, Under, Build;
      var flag := ParentOfMatch(match_, h, pos);
      vBits := vBits + [flag];
      if h == 0 || !flag {
        BuildStops(txids, match_, h, pos);
        vHash := vHash + [CalcHash(txids, h, pos)];
      } else {
        BuildInner(txids, match_, h, pos);
        ghost var l := Build(txids, match_, h - 1, 2 * pos);
        Regroup(old(vBits), [true], l.bits, []);
        TraverseAndBuild(h - 1, 2 * pos, txids, match_);
        if 2 * pos + 1 < Width(nTransactions, h - 1) {
          ghost var r := Build(txids, match_, h - 1, 2 * pos + 1);
          Regroup(old(vBits), [true], l.bits, r.bits);
          Regroup(old(vHash), l.hashes, r.hashes, []);
          TraverseAndBuild(h - 1, 2 * pos + 1, txids, match_);
        }
      }
    }

    method TraverseAndExtract(h: nat, pos: nat, bu: nat, hu: nat, found: seq<Hash>)
      returns (hash: Hash, bu': nat, hu': nat, found': seq<Hash>)
      modifies this`fBad
      ensures var d := Extract(nTransactions, vBits, vHash, h, pos, bu, hu);
        && hash == d.hash && bu' == d.bitsUsed && hu' == d.hashUsed && found' == found + d.found
        && fBad == (old(fBad) || d.bad)
      decreases h
    {
      hide Width;
      if bu >= |vBits| {
        fBad := true;
        return Null, bu, hu, found;
      }
      var flag := vBits[bu];
      if h == 0 || !flag {
        if hu >= |vHash| {
          fBad := true;
          return Null, bu + 1, hu, found;
        }
        hash, bu', hu', found' := vHash[hu], bu + 1, hu + 1, found;
        if h == 0 && flag {
          found' := found' + [hash];
        }
      } else {
        var left, right;
        left, bu', hu', found' := TraverseAndExtract(h - 1, 2 * pos, bu + 1, hu, found);
        if 2 * pos + 1 < Width(nTransactions, h - 1) {
          ghost var l := Extract(nTransactions, vBits, vHash, h - 1, 2 * pos, bu + 1, hu);
          ghost var r := Extract(nTransactions, vBits, vHash, h - 1, 2 * pos + 1, l.bitsUsed, l.hashUsed);
          assert found + (l.found + r.found) == found + l.found + r.found;
          right, bu', hu', found' := TraverseAndExtract(h - 1, 2 * pos + 1, bu', hu', found');
          if right == left {
            fBad := true;
          }
        } else {
          right := left;
        }
        hash := Pair(left, right);
      }
    }

    method ExtractMatches() returns (root: Hash, found: seq<Hash>)
      modifies this`fBad
      ensures !old(fBad) ==> (root, found) == ExtractAll(nTransactions, vBits, vHash)
      ensures old(fBad) ==> root == Null
    {
      hide Width, Extract;
      found := [];
      if nTransactions == 0 || nTransactions > MAX_TRANSACTIONS || |vHash| > nTransactions || |vBits| < |vHash| {
        return Null, found;
      }
      var h := TreeHeight(nTransactions);
      var bu, hu;
      ghost var d := Extract(nTransactions, vBits, vHash, h, 0, 0, 0);
      assert [] + d.found == d.found;
      root, bu, hu, found := TraverseAndExtract(h, 0, 0, 0, []);
      if fBad || (bu + 7) / 8 != (|vBits| + 7) / 8 || hu != |vHash| {
        root := Null;
      }
    }
  }
}
