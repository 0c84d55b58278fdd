/** What a partial merkle tree says and in which order (BIP 37, "Partial Merkle branch format"), told without
    building it: which nodes it tells of, from left to right and each before what is below it. */
module PartialMerkleNodes {
  import opened Base
  import opened Merkle
  import opened PartialMerkle

  /** The node at a height above the leaves and a position from the left. */
  datatype Node = Node(h: nat, pos: nat)

  /** The second node is below the first or the same. */
  predicate Inside(h: nat, pos: nat, g: nat, q: nat) {
    g <= h && First(h, pos) <= First(g, q) < First(h, pos + 1)
  }

  /** Left before right, and where the same leaf comes first, what is above before what is below. */
  predicate Before(a: Node, b: Node) {
    First(a.h, a.pos) < First(b.h, b.pos) || (First(a.h, a.pos) == First(b.h, b.pos) && a.h > b.h)
  }

  function Nodes(match_: seq<bool>, h: nat, pos: nat): (r: seq<Node>)
    ensures r != [] && r[0] == Node(h, pos)
    decreases h
  {
    [Node(h, pos)] +
    (if h == 0 || Under(match_, h, pos) == [] then []
     else if 2 * pos + 1 < Width(|match_|, h - 1) then Nodes(match_, h - 1, 2 * pos) + Nodes(match_, h - 1, 2 * pos + 1)
     else Nodes(match_, h - 1, 2 * pos))
  }

  function HashAt(txids: seq<Hash>, x: Node): Hash {
    if x.pos < Width(|txids|, x.h) then CalcHash(txids, x.h, x.pos) else Null
  }

  predicate EndsHere(match_: seq<bool>, x: Node) {
    x.h == 0 || Under(match_, x.h, x.pos) == []
  }

  /** The hashes of the nodes that are told by their hash: leaves, and nodes with no match below. */
  function HashesOf(txids: seq<Hash>, match_: seq<bool>, nodes: seq<Node>): seq<Hash> {
    if nodes == [] then []
    else FirstHash(txids, match_, nodes[0]) + HashesOf(txids, match_, nodes[1..])
  }

  function FirstHash(txids: seq<Hash>, match_: seq<bool>, x: Node): seq<Hash> {
    if EndsHere(match_, x) then [HashAt(txids, x)] else []
  }

  lemma {:induction false} HashesOfBoth(txids: seq<Hash>, match_: seq<bool>, a: seq<Node>, b: seq<Node>)
    ensures HashesOf(txids, match_, a + b) == HashesOf(txids, match_, a) + HashesOf(txids, match_, b)
  {
    hide EndsHere, HashAt, HashesOf;
    HashesStep(txids, match_, a);
    if a == [] {
      assert a + b == b;
    } else {
      HashesOfBoth(txids, match_, a[1..], b);
      HashesStep(txids, match_, a + b);
      assert (a + b)[1..] == a[1..] + b;
      Regrouped(FirstHash(txids, match_, a[0]), HashesOf(txids, match_, a[1..]), HashesOf(txids, match_, b));
    }
  }

  lemma HashesStep(txids: seq<Hash>, match_: seq<bool>, nodes: seq<Node>)
    ensures HashesOf(txids, match_, nodes) ==
            if nodes == [] then [] else FirstHash(txids, match_, nodes[0]) + HashesOf(txids, match_, nodes[1..])
  {
    hide FirstHash;
  }

  lemma Regrouped(a: seq<Hash>, b: seq<Hash>, c: seq<Hash>)
    ensures (a + b) + c == a + (b + c)
  {
  }

  lemma {:induction false} NodesExist(match_: seq<bool>, h: nat, pos: nat)
    requires pos < Width(|match_|, h)
    ensures forall x :: x in Nodes(match_, h, pos) ==> x.pos < Width(|match_|, x.h)
    decreases h
  {
    hide Width, Under;
    if h > 0 && Under(match_, h, pos) != [] {
      ChildExists(|match_|, h, pos);
      NodesExist(match_, h - 1, 2 * pos);
      if 2 * pos + 1 < Width(|match_|, h - 1) {
        NodesExist(match_, h - 1, 2 * pos + 1);
      }
    }
  }

  lemma NodesSplit(match_: seq<bool>, h: nat, pos: nat)
    ensures h == 0 || Under(match_, h, pos) == [] ==> Nodes(match_, h, pos) == [Node(h, pos)]
    ensures h > 0 && Under(match_, h, pos) != [] ==>
      var l := Nodes(match_, h - 1, 2 * pos);
      Nodes(match_, h, pos) == [Node(h, pos)] +
        (if 2 * pos + 1 < Width(|match_|, h - 1) then l + Nodes(match_, h - 1, 2 * pos + 1) else l)
  {
    hide Width, Under;
  }

  lemma EndIs(match_: seq<bool>, x: Node)
    ensures EndsHere(match_, x) <==> x.h == 0 || Under(match_, x.h, x.pos) == []
  {
  }

  /** A bit for each node: whether there is a match below it. */
  ghost predicate BitsTell(match_: seq<bool>, bits: seq<bool>, nodes: seq<Node>) {
    |bits| == |nodes| && forall i :: 0 <= i < |nodes| ==> (bits[i] <==> Under(match_, nodes[i].h, nodes[i].pos) != [])
  }

  lemma BitsTellBoth(match_: seq<bool>, a: seq<bool>, m: seq<Node>, b: seq<bool>, n: seq<Node>)
    requires BitsTell(match_, a, m) && BitsTell(match_, b, n)
    ensures BitsTell(match_, a + b, m + n)
  {
    hide Under;
  }

  lemma BitTells(match_: seq<bool>, x: Node)
    ensures BitsTell(match_, [Under(match_, x.h, x.pos) != []], [x])
  {
    hide Under;
  }

  /** What is built tells of exactly these nodes, a bit for each, and a hash for those that end there. */
  lemma {:induction false} BuildTells(txids: seq<Hash>, match_: seq<bool>, h: nat, pos: nat)
    requires |match_| == |txids| && pos < Width(|txids|, h)
    ensures forall x :: x in Nodes(match_, h, pos) ==> x.pos < Width(|txids|, x.h)
    ensures BitsTell(match_, Build(txids, match_, h, pos).bits, Nodes(match_, h, pos))
    ensures Build(txids, match_, h, pos).hashes == HashesOf(txids, match_, Nodes(match_, h, pos))
    decreases h
  {
    hide Width, Under, CalcHash, HashesOf, BitsTell, Build, EndsHere, HashAt, FirstHash, Nodes;
    var node, nodes := Node(h, pos), Nodes(match_, h, pos);
    NodesExist(match_, h, pos);
    NodesSplit(match_, h, pos);
    HashesOfOne(txids, match_, node);
    BitTells(match_, node);
    if h == 0 || Under(match_, h, pos) == [] {
      BuildStops(txids, match_, h, pos);
      EndIs(match_, node);
    } else {
      BuildInner(txids, match_, h, pos);
      BuildTells(txids, match_, h - 1, 2 * pos);
      var l, lb := Nodes(match_, h - 1, 2 * pos), Build(txids, match_, h - 1, 2 * pos).bits;
      if 2 * pos + 1 < Width(|txids|, h - 1) {
        BuildTells(txids, match_, h - 1, 2 * pos + 1);
        var r, rb := Nodes(match_, h - 1, 2 * pos + 1), Build(txids, match_, h - 1, 2 * pos + 1).bits;
        HashesOfBoth(txids, match_, l, r);
        BitsTellBoth(match_, lb, l, rb, r);
        HashesOfBoth(txids, match_, [node], l + r);
        BitsTellBoth(match_, [true], [node], lb + rb, l + r);
      } else {
        HashesOfBoth(txids, match_, [node], l);
        BitsTellBoth(match_, [true], [node], lb, l);
      }
    }
  }

  lemma HashesOfOne(txids: seq<Hash>, match_: seq<bool>, x: Node)
    requires x.pos < Width(|txids|, x.h)
    ensures HashesOf(txids, match_, [x]) ==
            if x.h == 0 || Under(match_, x.h, x.pos) == [] then [CalcHash(txids, x.h, x.pos)] else []
  {
    hide Width, Under, CalcHash;
  }

  // ---------- which nodes, and in which order ----------

  lemma InsideSplit(h: nat, pos: nat, g: nat, q: nat)
    requires h > 0
    ensures Inside(h, pos, h, pos) && Inside(h, pos, h - 1, 2 * pos) && Inside(h, pos, h - 1, 2 * pos + 1)
    ensures Inside(h, pos, g, q) <==>
            (g == h && q == pos) || (g < h && (Inside(h - 1, 2 * pos, g, q) || Inside(h - 1, 2 * pos + 1, g, q)))
    ensures g < h && Inside(h - 1, 2 * pos, g, q) ==> First(g, q) < First(h - 1, 2 * pos + 1)
  {
    Children(h, pos);
    hide Pow2;
    if g == h && First(h, pos) <= First(h, q) < First(h, pos + 1) {
      SameNode(h, pos, q);
    }
  }

  lemma SameNode(h: nat, pos: nat, q: nat)
    requires First(h, pos) <= First(h, q) < First(h, pos + 1)
    ensures q == pos
  {
    hide Pow2;
    var p := Pow2(h);
    if q < pos {
      TimesLess(q, pos, p);
    } else if q > pos {
      TimesAtMost(pos + 1, q, p);
    }
  }

  lemma TimesLess(a: nat, b: nat, p: nat)
    requires a < b && p > 0
    ensures a * p < b * p
  {
  }

  lemma TimesAtMost(a: nat, b: nat, p: nat)
    requires a <= b
    ensures a * p <= b * p
  {
  }

  ghost predicate Ordered(nodes: seq<Node>) {
    forall i, j :: 0 <= i < j < |nodes| ==> Before(nodes[i], nodes[j])
  }

  ghost predicate AllInside(h: nat, pos: nat, nodes: seq<Node>) {
    forall x :: x in nodes ==> Inside(h, pos, x.h, x.pos)
  }

  /** Nodes come left to right, each before what is below it, and stay inside. */
  lemma {:induction false} NodesInOrder(match_: seq<bool>, h: nat, pos: nat)
    ensures AllInside(h, pos, Nodes(match_, h, pos)) && Ordered(Nodes(match_, h, pos))
    decreases h
  {
    hide Width, Under, AllInside, Ordered;
    RootAlone(h, pos);
    if h > 0 && Under(match_, h, pos) != [] {
      var root, l, r := [Node(h, pos)], Nodes(match_, h - 1, 2 * pos), Nodes(match_, h - 1, 2 * pos + 1);
      NodesInOrder(match_, h - 1, 2 * pos);
      NodesInOrder(match_, h - 1, 2 * pos + 1);
      if 2 * pos + 1 < Width(|match_|, h - 1) {
        JoinInOrder(h, pos, l, r);
        assert Nodes(match_, h, pos) == root + (l + r);
      } else {
        JoinInOrder(h, pos, l, []);
        assert Nodes(match_, h, pos) == root + (l + []);
      }
    } else {
      assert Nodes(match_, h, pos) == [Node(h, pos)];
    }
  }

  lemma RootAlone(h: nat, pos: nat)
    ensures AllInside(h, pos, [Node(h, pos)]) && Ordered([Node(h, pos)]) && AllInside(h, pos, []) && Ordered([])
  {
    InsideSelf(h, pos);
  }

  /** The node, then what is below its left child, then what is below its right child. */
  lemma JoinInOrder(h: nat, pos: nat, l: seq<Node>, r: seq<Node>)
    requires h > 0 && AllInside(h - 1, 2 * pos, l) && Ordered(l)
    requires r == [] || (AllInside(h - 1, 2 * pos + 1, r) && Ordered(r))
    ensures AllInside(h, pos, [Node(h, pos)] + (l + r)) && Ordered([Node(h, pos)] + (l + r))
  {
    hide Before, Inside;
    InsideSelf(h, pos);
    RootIsFirst(h, pos, l, r);
    LeftIsFirst(h, pos, l, r);
    OrderJoins(l, r);
    OrderJoins([Node(h, pos)], l + r);
  }

  lemma RootIsFirst(h: nat, pos: nat, l: seq<Node>, r: seq<Node>)
    requires h > 0 && AllInside(h - 1, 2 * pos, l) && (r == [] || AllInside(h - 1, 2 * pos + 1, r))
    ensures forall x :: x in l + r ==> Inside(h, pos, x.h, x.pos) && Before(Node(h, pos), x)
  {
    forall x | x in l + r ensures Inside(h, pos, x.h, x.pos) && Before(Node(h, pos), x) {
      InsideSplit(h, pos, x.h, x.pos);
    }
  }

  lemma LeftIsFirst(h: nat, pos: nat, l: seq<Node>, r: seq<Node>)
    requires h > 0 && AllInside(h - 1, 2 * pos, l) && (r == [] || AllInside(h - 1, 2 * pos + 1, r))
    ensures forall x, y :: x in l && y in r ==> Before(x, y)
  {
    hide First;
    forall x, y | x in l && y in r ensures Before(x, y) {
      InsideSplit(h, pos, x.h, x.pos);
      assert Inside(h - 1, 2 * pos + 1, y.h, y.pos);
    }
  }

  lemma InsideSelf(h: nat, pos: nat)
    ensures Inside(h, pos, h, pos)
  {
    assert Pow2(h) > 0;
  }

  lemma OrderJoins(a: seq<Node>, b: seq<Node>)
    requires Ordered(a) && Ordered(b) && forall x, y :: x in a && y in b ==> Before(x, y)
    ensures Ordered(a + b)
  {
    hide Before;
    forall i, j | 0 <= i < j < |a + b| ensures Before((a + b)[i], (a + b)[j]) {
      if i < |a| && j >= |a| {
        assert a[i] in a && b[j - |a|] in b;
      }
    }
  }

  lemma {:induction false} MatchInside(match_: seq<bool>, h: nat, pos: nat, g: nat, q: nat)
    requires Inside(h, pos, g, q) && Under(match_, g, q) != []
    ensures Under(match_, h, pos) != []
    decreases h
  {
    hide Width, Under, First;
    if h > 0 {
      InsideSplit(h, pos, g, q);
      UnderSplit(match_, h, pos);
      if g < h {
        if Inside(h - 1, 2 * pos, g, q) {
          MatchInside(match_, h - 1, 2 * pos, g, q);
        } else {
          MatchInside(match_, h - 1, 2 * pos + 1, g, q);
        }
      }
    } else {
      SameNode(h, pos, q);
    }
  }

  /** The nodes below (h, pos), or the same, to tell of: those that exist, and whose parent has a match below it. */
  ghost predicate ToTell(match_: seq<bool>, h: nat, pos: nat, x: Node) {
    x == Node(h, pos) ||
    (Inside(h, pos, x.h, x.pos) && x.h < h && x.pos < Width(|match_|, x.h) && Under(match_, x.h + 1, x.pos / 2) != [])
  }

  lemma ToTellStep(match_: seq<bool>, h: nat, pos: nat, x: Node)
    requires pos < Width(|match_|, h)
    ensures h == 0 ==> (ToTell(match_, h, pos, x) <==> x == Node(h, pos))
    ensures h > 0 ==>
              && 2 * pos < Width(|match_|, h - 1)
              && (ToTell(match_, h, pos, x) <==>
                    || x == Node(h, pos)
                    || (Under(match_, h, pos) != [] &&
                        (|| ToTell(match_, h - 1, 2 * pos, x)
                         || (2 * pos + 1 < Width(|match_|, h - 1) && ToTell(match_, h - 1, 2 * pos + 1, x)))))
  {
    hide Width, Under, First, Inside;
    if h > 0 {
      InsideSplit(h, pos, x.h, x.pos);
      ChildExists(|match_|, h, pos);
      ParentInside(h, pos, x.h, x.pos);
      if ToTell(match_, h, pos, x) && x != Node(h, pos) {
        MatchInside(match_, h, pos, x.h + 1, x.pos / 2);
        if Inside(h - 1, 2 * pos + 1, x.h, x.pos) {
          ExistsInside(|match_|, h - 1, 2 * pos + 1, x.h, x.pos);
        }
        ToTellBelow(match_, h, pos, x);
      }
    }
  }

  lemma ToTellBelow(match_: seq<bool>, h: nat, pos: nat, x: Node)
    requires h > 0 && ToTell(match_, h, pos, x) && x != Node(h, pos)
    ensures ToTell(match_, h - 1, 2 * pos, x) || ToTell(match_, h - 1, 2 * pos + 1, x)
    ensures Inside(h - 1, 2 * pos, x.h, x.pos) ==> ToTell(match_, h - 1, 2 * pos, x)
    ensures Inside(h - 1, 2 * pos + 1, x.h, x.pos) ==> ToTell(match_, h - 1, 2 * pos + 1, x)
  {
    hide Width, Under, First, Inside;
    InsideSplit(h, pos, x.h, x.pos);
    ParentInside(h, pos, x.h, x.pos);
  }

  /** Exactly these nodes are told of. */
  lemma {:induction false} NodesIff(match_: seq<bool>, h: nat, pos: nat, x: Node)
    requires pos < Width(|match_|, h)
    ensures x in Nodes(match_, h, pos) <==> ToTell(match_, h, pos, x)
    decreases h
  {
    hide Width, Under, ToTell;
    ToTellStep(match_, h, pos, x);
    if h > 0 && Under(match_, h, pos) != [] {
      NodesIff(match_, h - 1, 2 * pos, x);
      if 2 * pos + 1 < Width(|match_|, h - 1) {
        NodesIff(match_, h - 1, 2 * pos + 1, x);
      }
    }
  }

  /** The parent of a node below is the node itself or below it, and the parent of its children is the node itself. */
  lemma ParentInside(h: nat, pos: nat, g: nat, q: nat)
    requires h > 0
    ensures Inside(h, pos, g, q) && g < h ==> Inside(h, pos, g + 1, q / 2)
    ensures Inside(h, pos, g, q) && g == h - 1 ==> q / 2 == pos
    ensures 2 * pos / 2 == pos && (2 * pos + 1) / 2 == pos
    ensures Inside(h - 1, 2 * pos, g, q) && g == h - 1 ==> q == 2 * pos
    ensures Inside(h - 1, 2 * pos + 1, g, q) && g == h - 1 ==> q == 2 * pos + 1
  {
    if Inside(h, pos, g, q) && g < h {
      var p := q / 2;
      InsideUp(h, pos, g, q);
      if g == h - 1 {
        SameNode(h, pos, p);
      }
    }
    if g == h - 1 {
      if Inside(h - 1, 2 * pos, g, q) {
        SameNode(g, 2 * pos, q);
      }
      if Inside(h - 1, 2 * pos + 1, g, q) {
        SameNode(g, 2 * pos + 1, q);
      }
    }
  }

  lemma {:induction false} InsideUp(h: nat, pos: nat, g: nat, q: nat)
    requires Inside(h, pos, g, q) && g < h
    ensures Inside(h, pos, g + 1, q / 2)
    decreases h
  {
    hide First;
    InsideSplit(h, pos, g, q);
    InsideSplit(h, pos, g + 1, q / 2);
    if g == h - 1 {
      if Inside(h - 1, 2 * pos, g, q) {
        SameNode(g, 2 * pos, q);
      } else {
        SameNode(g, 2 * pos + 1, q);
      }
      assert q / 2 == pos;
    } else if Inside(h - 1, 2 * pos, g, q) {
      InsideUp(h - 1, 2 * pos, g, q);
    } else {
      InsideUp(h - 1, 2 * pos + 1, g, q);
    }
  }

  lemma ExistsInside(n: nat, h: nat, pos: nat, g: nat, q: nat)
    requires Inside(h, pos, g, q) && q < Width(n, g)
    ensures pos < Width(n, h)
  {
    hide Width, Pow2, First;
    NodeExists(n, g, q);
    NodeExists(n, h, pos);
  }
}
