/** The block index as a tree with skip pointers, and chains through it (src/chain.cpp, src/chain.h). */
module SkipList {
  import opened Base

  type Id = nat

  datatype Node = Node(prev: Option<Id>, height: nat, skip: Option<Id>)

  type Index = map<Id, Node>

  // ---------- the height to skip to ----------

  /** Turns the lowest 1 bit into a 0. */
  function InvertLowestOne(n: nat): (r: nat)
    ensures r <= n && (n > 0 ==> r < n)
  {
    if n == 0 then 0 else if n % 2 == 1 then n - 1 else 2 * InvertLowestOne(n / 2)
  }

  /** Bitwise and. */
  function And(x: nat, y: nat): nat {
    if x == 0 || y == 0 then 0 else (if x % 2 == 1 && y % 2 == 1 then 1 else 0) + 2 * And(x / 2, y / 2)
  }

  lemma {:induction false} AndSelf(x: nat)
    ensures And(x, x) == x
  {
    if x > 0 {
      AndSelf(x / 2);
    }
  }

  /** That is the bitwise and of n and n - 1; where n is 0, so are all bits of the conjunction. */
  lemma {:induction false} InvertIsAnd(n: nat)
    ensures InvertLowestOne(n) == if n == 0 then 0 else And(n, n - 1)
  {
    if n % 2 == 1 {
      AndSelf(n / 2);
    } else if n > 0 {
      InvertIsAnd(n / 2);
    }
  }

  function SkipHeight(height: nat): (r: nat)
    ensures height > 0 ==> r < height
  {
    if height < 2 then 0
    else if height % 2 == 1 then InvertLowestOne(InvertLowestOne(height - 1)) + 1
    else InvertLowestOne(height)
  }

  /** In bits: an even height skips to where its lowest one is cleared, an odd one to where this is done twice to the
      height before it, plus one. */
  lemma SkipHeightIs(height: nat)
    requires height >= 2
    ensures height % 2 == 0 ==> SkipHeight(height) == And(height, height - 1)
    ensures height % 2 == 1 ==>
      var once := And(height - 1, height - 2);
      SkipHeight(height) == (if once == 0 then 1 else And(once, once - 1) + 1)
  {
    InvertIsAnd(height);
    InvertIsAnd(height - 1);
    InvertIsAnd(And(height - 1, height - 2));
  }

  // ---------- the tree ----------

  ghost predicate NodeOk(t: Index, b: Id)
    requires b in t
  {
    match t[b].prev
    case None => t[b].height == 0
    case Some(p) => p in t && t[b].height == t[p].height + 1
  }

  ghost predicate Tree(t: Index) {
    forall b {:trigger NodeOk(t, b)} :: b in t ==> NodeOk(t, b)
  }

  /** The ancestor of b at height h, by walking parents one at a time. */
  function Walk(t: Index, b: Id, h: nat): (a: Id)
    requires Tree(t) && b in t && h <= t[b].height
    ensures a in t && t[a].height == h
    decreases t[b].height
  {
    if t[b].height == h then b
    else
      assert NodeOk(t, b);
      Walk(t, t[b].prev.value, h)
  }

  lemma {:induction false} WalkTwice(t: Index, b: Id, h: nat, g: nat)
    requires Tree(t) && b in t && g <= h <= t[b].height
    ensures Walk(t, Walk(t, b, h), g) == Walk(t, b, g)
    decreases t[b].height
  {
    if t[b].height != h {
      assert NodeOk(t, b);
      WalkTwice(t, t[b].prev.value, h, g);
    }
  }

  lemma WalkParent(t: Index, b: Id)
    requires Tree(t) && b in t
    ensures t[b].prev.None? <==> t[b].height == 0
    ensures t[b].height > 0 ==> t[b].prev.value in t && t[t[b].prev.value].height == t[b].height - 1
    ensures t[b].height > 0 ==> t[b].prev.value == Walk(t, b, t[b].height - 1)
  {
    assert NodeOk(t, b);
  }

  /** Every skip pointer leads to the ancestor at the height to skip to. */
  ghost predicate SkipOk(t: Index, b: Id)
    requires Tree(t) && b in t
  {
    t[b].height > 0 ==> t[b].skip == Some(Walk(t, b, SkipHeight(t[b].height)))
  }

  ghost predicate Skips(t: Index) {
    Tree(t) && forall b {:trigger SkipOk(t, b)} :: b in t ==> SkipOk(t, b)
  }

  /** Following skip pointers where they help finds the same block as walking parents one at a time. */
  method GetAncestor(t: Index, b: Id, height: int) returns (r: Option<Id>)
    requires Skips(t) && b in t
    ensures r == if 0 <= height <= t[b].height then Some(Walk(t, b, height)) else None
  {
    hide Tree, Walk, SkipHeight;
    if height > t[b].height || height < 0 {
      return None;
    }
    var walk, at := b, t[b].height;
    while at > height
      invariant walk in t && at == t[walk].height && height <= at <= t[b].height
      invariant Walk(t, walk, height) == Walk(t, b, height)
      decreases at
    {
      var skip, skipPrev := SkipHeight(at), SkipHeight(at - 1);
      WalkParent(t, walk);
      if skip == height || (skip > height && !(skipPrev < skip - 2 && skipPrev >= height)) {
        assert SkipOk(t, walk);
        WalkTwice(t, walk, skip, height);
        walk := t[walk].skip.value;
        at := skip;
      } else {
        WalkTwice(t, walk, at - 1, height);
        walk := t[walk].prev.value;
        at := at - 1;
      }
    }
    WalkHere(t, walk);
    r := Some(walk);
  }

  lemma WalkHere(t: Index, b: Id)
    requires Tree(t) && b in t
    ensures Walk(t, b, t[b].height) == b
  {
  }

  lemma {:induction false} WalkExtended(t: Index, t': Index, b: Id, h: nat)
    requires Tree(t) && Tree(t') && b in t && h <= t[b].height
    requires forall c :: c in t ==> c in t' && t'[c] == t[c]
    ensures Walk(t', b, h) == Walk(t, b, h)
    decreases t[b].height
  {
    if t[b].height != h {
      assert NodeOk(t, b);
      WalkExtended(t, t', t[b].prev.value, h);
    }
  }

  /** The index as it grows: each new block gets its skip pointer from its parent. */
  class BlockIndex {
    var nodes: Index

    ghost predicate Valid()
      reads this
    {
      Skips(nodes)
    }

    constructor ()
      ensures Valid() && nodes == map[]
    {
      nodes := map[];
    }

    method Add(b: Id, prev: Option<Id>)
      requires Valid() && b !in nodes && (prev.Some? ==> prev.value in nodes)
      modifies this
      ensures Valid() && b in nodes && nodes == old(nodes)[b := nodes[b]] && nodes[b].prev == prev
    {
      if prev.None? {
        AddKeepsSkips(nodes, b, Node(None, 0, None));
        nodes := nodes[b := Node(None, 0, None)];
        return;
      }
      var h := nodes[prev.value].height + 1;
      var skip := GetAncestor(nodes, prev.value, SkipHeight(h));
      AddKeepsSkips(nodes, b, Node(prev, h, skip));
      nodes := nodes[b := Node(prev, h, skip)];
    }
  }

  lemma AddKeepsSkips(t: Index, b: Id, node: Node)
    requires Skips(t) && b !in t
    requires match node.prev
      case None => node.height == 0
      case Some(p) => p in t && node.height == t[p].height + 1 && node.skip == Some(Walk(t, p, SkipHeight(node.height)))
    ensures Skips(t[b := node])
  {
    var t' := t[b := node];
    forall c | c in t' ensures NodeOk(t', c) {
      if c != b {
        assert NodeOk(t, c);
      }
    }
    forall c | c in t' ensures SkipOk(t', c) {
      if c != b {
        assert SkipOk(t, c);
        if t[c].height > 0 {
          WalkExtended(t, t', c, SkipHeight(t[c].height));
        }
      } else if node.prev.Some? {
        WalkExtended(t, t', node.prev.value, SkipHeight(node.height));
      }
    }
  }

  // ---------- chains ----------

  /** A vector that holds, at every height, the ancestor of the tip. */
  ghost predicate ChainTo(t: Index, tip: Id, v: seq<Option<Id>>)
    requires Tree(t) && tip in t
  {
    |v| == t[tip].height + 1 && forall h :: 0 <= h < |v| ==> v[h] == Some(Walk(t, tip, h))
  }

  ghost predicate IsChain(t: Index, v: seq<Option<Id>>)
    requires Tree(t)
  {
    v != [] ==> v[|v| - 1].Some? && v[|v| - 1].value in t && ChainTo(t, v[|v| - 1].value, v)
  }

  /** Whether a is an ancestor of b, or b itself. */
  ghost predicate IsAncestor(t: Index, a: Id, b: Id)
    requires Tree(t) && a in t && b in t
  {
    t[a].height <= t[b].height && Walk(t, b, t[a].height) == a
  }

  predicate Contains(t: Index, v: seq<Option<Id>>, b: Id)
    requires b in t
  {
    t[b].height < |v| && v[t[b].height] == Some(b)
  }

  /** Two chains that meet at a height agree below it. */
  lemma AgreeBelow(t: Index, a: Id, b: Id, h: nat, g: nat)
    requires Tree(t) && a in t && b in t && g <= h <= t[a].height && h <= t[b].height
    requires Walk(t, a, h) == Walk(t, b, h)
    ensures Walk(t, a, g) == Walk(t, b, g)
  {
    WalkTwice(t, a, h, g);
    WalkTwice(t, b, h, g);
  }

  /** Below a block that was in its place already, the old entries are right. */
  lemma StoppedEarly(t: Index, before: seq<Option<Id>>, tip: Id, v: seq<Option<Id>>, k: nat)
    requires Tree(t) && IsChain(t, before) && tip in t && HalfSet(t, tip, before, v, k)
    requires k > 0 ==> k <= |v| && v[k - 1] == Some(Walk(t, tip, k - 1))
    ensures ChainTo(t, tip, v) && IsChain(t, v)
  {
    hide Tree, Walk;
    WalkHere(t, tip);
    forall h | 0 <= h < k ensures v[h] == Some(Walk(t, tip, h)) {
      AgreeBelow(t, before[|before| - 1].value, tip, k - 1, h);
    }
  }

  /** The walk is at the ancestor of the tip just below height k, or past genesis. */
  ghost predicate OnTheWay(t: Index, tip: Id, at: Option<Id>, k: nat)
    requires Tree(t) && tip in t
  {
    && k <= t[tip].height + 1 && (at.None? <==> k == 0)
    && (at.Some? ==> at.value in t && t[at.value].height == k - 1 && at.value == Walk(t, tip, k - 1))
  }

  /** From height k on the new ancestors are set; below it is what was there before. */
  ghost predicate HalfSet(t: Index, tip: Id, before: seq<Option<Id>>, v: seq<Option<Id>>, k: nat)
    requires Tree(t) && tip in t
  {
    && k <= |v| == t[tip].height + 1
    && (forall h :: k <= h < |v| ==> v[h] == Some(Walk(t, tip, h)))
    && (forall h :: 0 <= h < k ==> v[h] == if h < |before| then before[h] else None)
  }

  lemma WayDown(t: Index, tip: Id, at: Option<Id>, k: nat)
    requires Tree(t) && tip in t && OnTheWay(t, tip, at, k) && k > 0
    ensures OnTheWay(t, tip, t[at.value].prev, k - 1)
  {
    hide Tree, Walk;
    WalkParent(t, at.value);
    if k > 1 {
      WalkTwice(t, tip, k - 1, k - 2);
    }
  }

  lemma HalfSetNext(t: Index, tip: Id, before: seq<Option<Id>>, v: seq<Option<Id>>, k: nat)
    requires Tree(t) && tip in t && HalfSet(t, tip, before, v, k) && k > 0
    ensures HalfSet(t, tip, before, v[k - 1 := Some(Walk(t, tip, k - 1))], k - 1)
  {
    hide Tree, Walk;
  }

  function Resized(v: seq<Option<Id>>, n: nat): (r: seq<Option<Id>>)
    ensures |r| == n
  {
    if |v| < n then v + seq(n - |v|, _ => None) else v[..n]
  }

  lemma HalfSetStart(t: Index, tip: Id, before: seq<Option<Id>>, v: seq<Option<Id>>)
    requires Tree(t) && tip in t && |v| == t[tip].height + 1
    requires v == Resized(before, |v|)
    ensures HalfSet(t, tip, before, v, |v|) && OnTheWay(t, tip, Some(tip), |v|)
  {
    hide Tree, Walk;
    WalkHere(t, tip);
  }

  class Chain {
    var vChain: seq<Option<Id>>

    constructor ()
      ensures vChain == []
    {
      vChain := [];
    }

    /** Although the walk stops at the first block that is in its place already, every height is right. */
    method SetTip(t: Index, tip: Option<Id>)
      requires Tree(t) && IsChain(t, vChain) && (tip.Some? ==> tip.value in t)
      modifies this
      ensures IsChain(t, vChain)
      ensures tip.None? ==> vChain == []
      ensures tip.Some? ==> ChainTo(t, tip.value, vChain)
    {
      assert IsChain(t, []);
      hide Tree, Walk, IsChain, ChainTo, HalfSet, Resized;
      if tip.None? {
        vChain := [];
        return;
      }
      ghost var before := vChain;
      var n := t[tip.value].height + 1;
      vChain := Resized(vChain, n);
      HalfSetStart(t, tip.value, before, vChain);
      var at := tip;
      ghost var k := n;
      while at.Some? && vChain[t[at.value].height] != at
        invariant |vChain| == n && 0 <= k <= n && OnTheWay(t, tip.value, at, k) && HalfSet(t, tip.value, before, vChain, k)
        decreases k
      {
        WayDown(t, tip.value, at, k);
        HalfSetNext(t, tip.value, before, vChain, k);
        vChain := vChain[t[at.value].height := at];
        at := t[at.value].prev;
        k := k - 1;
      }
      StoppedEarly(t, before, tip.value, vChain, k);
    }
  }

  /** The highest block that the chain shares with the ancestors of b, if they share any. */
  ghost predicate HighestShared(t: Index, v: seq<Option<Id>>, b: Id, r: Option<Id>)
    requires Tree(t) && b in t
  {
    && (forall a :: a in t && Contains(t, v, a) && IsAncestor(t, a, b) ==> r.Some? && r.value in t && t[a].height <= t[r.value].height)
    && (r.Some? ==> r.value in t && Contains(t, v, r.value) && IsAncestor(t, r.value, b))
  }

  method FindFork(t: Index, v: seq<Option<Id>>, b: Id) returns (r: Option<Id>)
    requires Skips(t) && IsChain(t, v) && b in t
    ensures HighestShared(t, v, b, r)
  {
    hide Tree, Walk, Skips, IsChain;
    SkipsTree(t);
    r := Some(b);
    WalkHere(t, b);
    if t[b].height > |v| - 1 {
      r := GetAncestor(t, b, |v| - 1);
    }
    ghost var k := if t[b].height > |v| - 1 then |v| - 1 else t[b].height;
    while r.Some? && !Contains(t, v, r.value)
      invariant -1 <= k <= t[b].height && (r.None? <==> k == -1)
      invariant r.Some? ==> r.value in t && r.value == Walk(t, b, k) && t[r.value].height == k
      invariant forall h :: k < h <= t[b].height ==> !Contains(t, v, Walk(t, b, h))
      decreases k
    {
      WalkParent(t, r.value);
      if k > 0 {
        WalkTwice(t, b, k, k - 1);
      }
      r := t[r.value].prev;
      k := k - 1;
    }
  }

  lemma SkipsTree(t: Index)
    requires Skips(t)
    ensures Tree(t)
  {
  }

  /** The highest common ancestor of two blocks, if they have one. */
  method LastCommonAncestor(t: Index, a: Id, b: Id) returns (r: Option<Id>)
    requires Skips(t) && a in t && b in t
    ensures r.Some? ==> r.value in t && IsAncestor(t, r.value, a) && IsAncestor(t, r.value, b)
    ensures forall c :: c in t && IsAncestor(t, c, a) && IsAncestor(t, c, b) ==>
              r.Some? && r.value in t && t[c].height <= t[r.value].height
  {
    hide Tree, Walk, Skips;
    SkipsTree(t);
    WalkHere(t, a);
    WalkHere(t, b);
    var pa, pb := Some(a), Some(b);
    if t[a].height > t[b].height {
      pa := GetAncestor(t, a, t[b].height);
    } else if t[b].height > t[a].height {
      pb := GetAncestor(t, b, t[a].height);
    }
    ghost var k: int := if t[a].height > t[b].height then t[b].height else t[a].height;
    while pa != pb && pa.Some? && pb.Some?
      invariant -1 <= k <= t[a].height && k <= t[b].height
      invariant (pa.None? <==> k == -1) && (pb.None? <==> k == -1)
      invariant pa.Some? ==> pa.value in t && t[pa.value].height == k && pa.value == Walk(t, a, k)
      invariant pb.Some? ==> pb.value in t && t[pb.value].height == k && pb.value == Walk(t, b, k)
      invariant forall h :: k < h <= t[a].height && h <= t[b].height ==> Walk(t, a, h) != Walk(t, b, h)
      decreases k
    {
      WalkParent(t, pa.value);
      WalkParent(t, pb.value);
      if k > 0 {
        WalkTwice(t, a, k, k - 1);
        WalkTwice(t, b, k, k - 1);
      }
      pa, pb := t[pa.value].prev, t[pb.value].prev;
      k := k - 1;
    }
    assert pa == pb;
    r := pa;
  }

  // ---------- locators ----------

  /** Ancestors of b at strictly falling heights from b itself down to height 0. No step is larger than one
      more than the distance already covered. */
  ghost predicate LocatorOk(t: Index, b: Id, e: seq<Id>)
    requires Tree(t) && b in t
  {
    && e != [] && e[0] == b
    && (forall i :: 0 <= i < |e| ==> e[i] in t && IsAncestor(t, e[i], b))
    && (forall i, j :: 0 <= i < j < |e| ==> t[e[i]].height > t[e[j]].height)
    && (forall i, j :: 0 <= i && j == i + 1 < |e| ==> 2 * t[e[i]].height <= t[b].height + t[e[j]].height + 1)
  }

  /** How far back the entry k of a locator is: ten single steps, then twice as far beyond the ninth each time. */
  function Back(k: nat): nat {
    if k < 10 then k else 9 + Pow2(k - 10)
  }

  function HeightBack(height: nat, k: nat): nat {
    if height > Back(k) then height - Back(k) else 0
  }

  lemma BackNext(k: nat)
    requires k > 0
    ensures Back(k) - Back(k - 1) == if k <= 11 then 1 else Pow2(k - 11)
  {
    assert Pow2(0) == 1 && Pow2(1) == 2;
    if k > 11 {
      assert Pow2(k - 10) == 2 * Pow2(k - 11);
    }
  }

  method GetLocator(t: Index, v: seq<Option<Id>>, start: Option<Id>) returns (e: seq<Id>)
    requires Skips(t) && IsChain(t, v) && (start.Some? ==> start.value in t)
    ensures start.None? && v == [] ==> e == []
    ensures start.Some? || v != [] ==>
      var b := if start.Some? then start.value else v[|v| - 1].value;
      && LocatorOk(t, b, e) && t[e[|e| - 1]].height == 0
      && (forall k :: 0 <= k < |e| ==> e[k] in t && t[e[k]].height == HeightBack(t[b].height, k))
      && (|e| > 11 ==> Pow2(|e| - 12) <= t[b].height + 1)
  {
    hide Skips, Tree, Walk, LocatorOk, IsChain;
    SkipsTree(t);
    e := [];
    if start.None? && v == [] {
      return;
    }
    TipKnown(t, v);
    var b := if start.Some? then start.value else v[|v| - 1].value;
    var at, step := b, 1;
    e := [b];
    LocatorStart(t, b);
    while t[at].height != 0
      invariant LocatorOk(t, b, e) && e != [] && at in t && e[|e| - 1] == at
      invariant forall k :: 0 <= k < |e| ==> e[k] in t && t[e[k]].height == HeightBack(t[b].height, k)
      invariant 1 <= step && (t[at].height != 0 ==> step <= t[b].height - t[at].height + 1)
      invariant |e| > 11 ==> Pow2(|e| - 12) <= t[b].height + 1
      invariant step == if |e| <= 11 then 1 else Pow2(|e| - 11)
      decreases t[at].height
    {
      var h := if t[at].height > step then t[at].height - step else 0;
      LocatorNext(t, b, e, h);
      BackNext(|e|);
      var next: Option<Id>;
      if Contains(t, v, at) {
        Below(t, v, at, h);
        next := v[h];
      } else {
        next := GetAncestor(t, at, h);
      }
      if |e| > 10 {
        step := step * 2;
      }
      at := next.value;
      e := e + [at];
    }
  }

  lemma TipKnown(t: Index, v: seq<Option<Id>>)
    requires Tree(t) && IsChain(t, v)
    ensures v != [] ==> v[|v| - 1].Some? && v[|v| - 1].value in t
  {
  }

  lemma LocatorStart(t: Index, b: Id)
    requires Tree(t) && b in t
    ensures LocatorOk(t, b, [b])
  {
    WalkHere(t, b);
  }

  lemma LocatorNext(t: Index, b: Id, e: seq<Id>, h: nat)
    requires Tree(t) && b in t && LocatorOk(t, b, e)
    requires h < t[e[|e| - 1]].height && 2 * t[e[|e| - 1]].height <= t[b].height + h + 1
    ensures LocatorOk(t, b, e + [Walk(t, e[|e| - 1], h)])
  {
    hide Tree, Walk;
    WalkTwice(t, b, t[e[|e| - 1]].height, h);
  }

  lemma Below(t: Index, v: seq<Option<Id>>, b: Id, h: nat)
    requires Tree(t) && IsChain(t, v) && b in t && Contains(t, v, b) && h <= t[b].height
    ensures h < |v| && v[h] == Some(Walk(t, b, h))
  {
    hide Tree, Walk;
    WalkTwice(t, v[|v| - 1].value, t[b].height, h);
  }

  /** The first block of a locator that a node knows and has in its chain, or else its genesis. */
  method FindForkInGlobalIndex(t: Index, known: set<Id>, v: seq<Option<Id>>, e: seq<Id>) returns (r: Option<Id>)
    requires known <= t.Keys
    ensures r == FirstShared(t, known, v, e)
  {
    var k: nat := 0;
    while k < |e|
      invariant k <= |e| && FirstShared(t, known, v, e[k..]) == FirstShared(t, known, v, e)
    {
      assert e[k..][0] == e[k] && e[k..][1..] == e[k + 1..];
      if e[k] in known && Contains(t, v, e[k]) {
        return Some(e[k]);
      }
      k := k + 1;
    }
    r := if v == [] then None else v[0];
  }

  function FirstShared(t: Index, known: set<Id>, v: seq<Option<Id>>, e: seq<Id>): Option<Id>
    requires known <= t.Keys
  {
    if e == [] then if v == [] then None else v[0]
    else if e[0] in known && Contains(t, v, e[0]) then Some(e[0])
    else FirstShared(t, known, v, e[1..])
  }

  lemma {:induction false} FirstSharedAt(t: Index, known: set<Id>, v: seq<Option<Id>>, e: seq<Id>, k: nat)
    requires known <= t.Keys && k < |e| && e[k] in known && Contains(t, v, e[k])
    requires forall i :: 0 <= i < k ==> e[i] in t && !Contains(t, v, e[i])
    ensures FirstShared(t, known, v, e) == Some(e[k])
  {
    if k > 0 {
      FirstSharedAt(t, known, v, e[1..], k - 1);
    }
  }

  /** A chain agrees with the ancestors of b up to height f, and not above. */
  ghost predicate Diverge(t: Index, v: seq<Option<Id>>, b: Id, f: nat)
    requires Tree(t) && b in t
  {
    && f <= t[b].height && f < |v|
    && forall h :: 0 <= h <= t[b].height ==> (Contains(t, v, Walk(t, b, h)) <==> h <= f)
  }

  lemma {:induction false} FirstAtOrBelow(t: Index, b: Id, e: seq<Id>, f: nat) returns (k: nat)
    requires Tree(t) && b in t && LocatorOk(t, b, e) && t[e[|e| - 1]].height == 0
    ensures k < |e| && t[e[k]].height <= f && forall i :: 0 <= i < k ==> t[e[i]].height > f
  {
    k := 0;
    while t[e[k]].height > f
      invariant k < |e| && forall i :: 0 <= i < k ==> t[e[i]].height > f
    {
      k := k + 1;
    }
  }

  /** A locator of block b leads a node whose chain leaves the ancestors of b at height f to a common block,
      at most as far below f as b is above it. */
  lemma LocatorFork(t: Index, known: set<Id>, v: seq<Option<Id>>, b: Id, e: seq<Id>, f: nat)
    requires Tree(t) && b in t && LocatorOk(t, b, e) && t[e[|e| - 1]].height == 0
    requires known <= t.Keys && Diverge(t, v, b, f) && forall h :: 0 <= h < |v| && v[h].Some? ==> v[h].value in known
    ensures var r := FirstShared(t, known, v, e);
      && r.Some? && r.value in t && Contains(t, v, r.value) && IsAncestor(t, r.value, b)
      && t[r.value].height <= f && f - t[r.value].height <= t[b].height - f
  {
    hide Tree, Walk, FirstShared;
    var k := FirstAtOrBelow(t, b, e, f);
    assert forall i :: 0 <= i < |e| ==> (Contains(t, v, e[i]) <==> t[e[i]].height <= f);
    assert v[t[e[k]].height] == Some(e[k]);
    FirstSharedAt(t, known, v, e, k);
    if k > 0 {
      assert t[e[k - 1]].height > f;
    } else {
      assert t[e[0]].height == t[b].height;
    }
  }
}
