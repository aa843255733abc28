/** Merkle trees of transaction hashes, held in one flat array, and Merkle branches. */
module Merkle {

  type Digest = nat

  /** The hash of the concatenation of two digests. */
  type Hash2 = (Digest, Digest) -> Digest

  // ---- Levels ----

  /** The pair hashed into entry k of the next level. */
  function Pair(s: seq<Digest>, k: nat): (Digest, Digest)
    requires 2 * k < |s|
  {
    (s[2 * k], s[if 2 * k + 1 < |s| then 2 * k + 1 else |s| - 1])
  }

  function Parent(h: Hash2, s: seq<Digest>, k: nat): Digest
    requires 2 * k < |s|
  {
    h(Pair(s, k).0, Pair(s, k).1)
  }

  /** The level above: neighbours are hashed in pairs, a last one without neighbour with itself. */
  function NextLevel(h: Hash2, s: seq<Digest>): (r: seq<Digest>)
    ensures |r| == (|s| + 1) / 2
    ensures forall i :: 0 <= i < |r| ==> r[i] == Parent(h, s, i)
  {
    seq((|s| + 1) / 2, i requires 0 <= i < (|s| + 1) / 2 => Parent(h, s, i))
  }

  function Root(h: Hash2, s: seq<Digest>): Digest
    decreases |s|
  {
    if s == [] then 0 else if |s| == 1 then s[0] else Root(h, NextLevel(h, s))
  }

  /** All levels, leaves first. */
  function Tree(h: Hash2, s: seq<Digest>): seq<Digest>
    decreases |s|
  {
    if |s| <= 1 then s else s + Tree(h, NextLevel(h, s))
  }

  /** The neighbour of entry i, or itself if it has none. */
  function Neighbour(i: nat, size: nat): nat
    requires size > 0
  {
    var x := if i % 2 == 0 then i + 1 else i - 1;
    if x < size - 1 then x else size - 1
  }

  /** The neighbours on the way from leaf i to the root. */
  function Branch(h: Hash2, s: seq<Digest>, i: nat): seq<Digest>
    decreases |s|
  {
    if |s| <= 1 then [] else [s[Neighbour(i, |s|)]] + Branch(h, NextLevel(h, s), i / 2)
  }

  /** One step up a branch. */
  function Up(h: Hash2, hash: Digest, otherside: Digest, i: int): Digest {
    if i % 2 == 1 then h(otherside, hash) else h(hash, otherside)
  }

  /** Climbing a branch from the entry at position i. */
  function Climb(h: Hash2, hash: Digest, branch: seq<Digest>, i: int): Digest
    decreases |branch|
  {
    if branch == [] then hash else Climb(h, Up(h, hash, branch[0], i), branch[1..], i / 2)
  }

  // ---- Branches verify, and bind ----

  /** An entry and its neighbour are the pair hashed into their parent. */
  lemma ParentFrom(h: Hash2, s: seq<Digest>, i: nat)
    requires i < |s| && |s| > 1
    ensures Up(h, s[i], s[Neighbour(i, |s|)], i) == Parent(h, s, i / 2)
  {
    if i % 2 == 1 {
      assert Pair(s, i / 2) == (s[i - 1], s[i]);
    } else {
      assert Pair(s, i / 2).0 == s[i];
    }
  }

  /** Climbing the branch of leaf i gives the root. */
  lemma {:induction false} BranchVerifies(h: Hash2, s: seq<Digest>, i: nat)
    requires i < |s|
    ensures Climb(h, s[i], Branch(h, s, i), i) == Root(h, s)
    decreases |s|
  {
    if |s| > 1 {
      var up := NextLevel(h, s);
      var branch := Branch(h, s, i);
      assert branch[1..] == Branch(h, up, i / 2);
      assert branch[0] == s[Neighbour(i, |s|)];
      ParentFrom(h, s, i);
      BranchVerifies(h, up, i / 2);
    }
  }

  predicate CollisionFree(h: Hash2, pairs: set<(Digest, Digest)>) {
    forall p, q :: p in pairs && q in pairs && h(p.0, p.1) == h(q.0, q.1) ==> p == q
  }

  /** The pairs hashed in building the tree. */
  function TreePairs(h: Hash2, s: seq<Digest>): set<(Digest, Digest)>
    decreases |s|
  {
    if |s| <= 1 then {} else
      (set i | 0 <= i < (|s| + 1) / 2 :: Pair(s, i)) + TreePairs(h, NextLevel(h, s))
  }

  function Climbed(hash: Digest, otherside: Digest, i: int): (Digest, Digest) {
    if i % 2 == 1 then (otherside, hash) else (hash, otherside)
  }

  /** The pairs hashed in climbing a branch. */
  function ClimbPairs(h: Hash2, hash: Digest, branch: seq<Digest>, i: int): set<(Digest, Digest)>
    decreases |branch|
  {
    if branch == [] then {} else
      {Climbed(hash, branch[0], i)} + ClimbPairs(h, Up(h, hash, branch[0], i), branch[1..], i / 2)
  }

  /** Two hashed pairs with the same hash are the same. */
  lemma SamePair(h: Hash2, s: seq<Digest>, hash: Digest, branch: seq<Digest>, i: nat, pairs: set<(Digest, Digest)>)
    requires i < |s| && |s| > 1 && branch != [] && CollisionFree(h, pairs)
    requires TreePairs(h, s) <= pairs && ClimbPairs(h, hash, branch, i) <= pairs
    requires NextLevel(h, s)[i / 2] == Up(h, hash, branch[0], i)
    ensures Pair(s, i / 2) == Climbed(hash, branch[0], i)
  {
    var p, q := Pair(s, i / 2), Climbed(hash, branch[0], i);
    assert p in TreePairs(h, s);
    assert q in ClimbPairs(h, hash, branch, i);
  }

  lemma FromPair(s: seq<Digest>, hash: Digest, otherside: Digest, i: nat)
    requires i < |s| && |s| > 1 && Pair(s, i / 2) == Climbed(hash, otherside, i)
    ensures hash == s[i] && otherside == s[Neighbour(i, |s|)]
  {
  }

  lemma PairsAbove(h: Hash2, s: seq<Digest>, hash: Digest, branch: seq<Digest>, i: nat, pairs: set<(Digest, Digest)>)
    requires |s| > 1 && branch != [] && TreePairs(h, s) <= pairs && ClimbPairs(h, hash, branch, i) <= pairs
    ensures TreePairs(h, NextLevel(h, s)) <= pairs
    ensures ClimbPairs(h, Up(h, hash, branch[0], i), branch[1..], i / 2) <= pairs
  {
  }

  /** If a branch of the tree's depth leads from a digest at position i to the root, and no collision of the hash is
      involved, the digest is leaf i and the branch is its branch. */
  lemma {:induction false} BranchBinds(
    h: Hash2, s: seq<Digest>, hash: Digest, branch: seq<Digest>, i: nat, pairs: set<(Digest, Digest)>)
    requires i < |s| && |branch| == |Branch(h, s, i)| && Climb(h, hash, branch, i) == Root(h, s)
    requires CollisionFree(h, pairs) && TreePairs(h, s) <= pairs && ClimbPairs(h, hash, branch, i) <= pairs
    ensures hash == s[i] && branch == Branch(h, s, i)
    decreases |s|
  {
    if |s| > 1 {
      var up, one := NextLevel(h, s), Up(h, hash, branch[0], i);
      PairsAbove(h, s, hash, branch, i, pairs);
      BranchBinds(h, up, one, branch[1..], i / 2, pairs);
      SamePair(h, s, hash, branch, i, pairs);
      FromPair(s, hash, branch[0], i);
      calc {
        branch;
        [branch[0]] + branch[1..];
        [s[Neighbour(i, |s|)]] + Branch(h, up, i / 2);
        Branch(h, s, i);
      }
    }
  }

  /** Levels of the same width whose parents agree, agree themselves if no collision of the hash is involved. */
  lemma SameLevel(h: Hash2, s: seq<Digest>, t: seq<Digest>, pairs: set<(Digest, Digest)>)
    requires |s| == |t| > 1 && NextLevel(h, s) == NextLevel(h, t)
    requires CollisionFree(h, pairs) && TreePairs(h, s) <= pairs && TreePairs(h, t) <= pairs
    ensures s == t
  {
    forall i | 0 <= i < |s| ensures s[i] == t[i] {
      SamePairs(h, s, t, pairs, i / 2);
      EntryOfPair(s, i);
      EntryOfPair(t, i);
    }
  }

  lemma SamePairs(h: Hash2, s: seq<Digest>, t: seq<Digest>, pairs: set<(Digest, Digest)>, k: nat)
    requires |s| == |t| > 1 && k < (|s| + 1) / 2 && NextLevel(h, s)[k] == NextLevel(h, t)[k]
    requires CollisionFree(h, pairs) && TreePairs(h, s) <= pairs && TreePairs(h, t) <= pairs
    ensures Pair(s, k) == Pair(t, k)
  {
    assert Pair(s, k) in TreePairs(h, s) && Pair(t, k) in TreePairs(h, t);
  }

  lemma EntryOfPair(s: seq<Digest>, i: nat)
    requires i < |s|
    ensures s[i] == if i % 2 == 1 then Pair(s, i / 2).1 else Pair(s, i / 2).0
  {
  }

  /** Lists of the same length with the same root are the same, if no collision of the hash is involved. */
  lemma {:induction false} RootBinds(h: Hash2, s: seq<Digest>, t: seq<Digest>, pairs: set<(Digest, Digest)>)
    requires |s| == |t| && Root(h, s) == Root(h, t)
    requires CollisionFree(h, pairs) && TreePairs(h, s) <= pairs && TreePairs(h, t) <= pairs
    ensures s == t
    decreases |s|
  {
    if |s| > 1 {
      RootBinds(h, NextLevel(h, s), NextLevel(h, t), pairs);
      SameLevel(h, s, t, pairs);
    }
  }

  /** Of different lengths they need not be the same, whatever the hash: an odd list of three or more has the root of
      the list with its last entry doubled. */
  lemma DoubledLast(h: Hash2, s: seq<Digest>)
    requires |s| > 1 && |s| % 2 == 1
    ensures Root(h, s + [s[|s| - 1]]) == Root(h, s)
  {
    var t := s + [s[|s| - 1]];
    forall k: nat | k < (|s| + 1) / 2 ensures Pair(t, k) == Pair(s, k) {
    }
    assert NextLevel(h, t) == NextLevel(h, s);
  }

  /** The shortest such lists. */
  lemma ThreeOrFour(h: Hash2, a: Digest, b: Digest, c: Digest)
    ensures Root(h, [a, b, c]) == Root(h, [a, b, c, c])
  {
    DoubledLast(h, [a, b, c]);
    assert [a, b, c] + [c] == [a, b, c, c];
  }

  /** Left before right, and the last one doubled. */
  lemma RootOfTwo(h: Hash2, a: Digest, b: Digest)
    ensures Root(h, [a, b]) == h(a, b)
  {
    RootAbove(h, [a, b], [h(a, b)]);
  }

  lemma RootOfThree(h: Hash2, a: Digest, b: Digest, c: Digest)
    ensures Root(h, [a, b, c]) == h(h(a, b), h(c, c))
  {
    RootAbove(h, [a, b, c], [h(a, b), h(c, c)]);
    RootOfTwo(h, h(a, b), h(c, c));
  }

  /** The root is that of the level above. */
  lemma RootAbove(h: Hash2, s: seq<Digest>, up: seq<Digest>)
    requires |s| > 1 && |up| == (|s| + 1) / 2
    requires forall i :: 0 <= i < |up| ==> up[i] == h(s[2 * i], s[if 2 * i + 1 < |s| then 2 * i + 1 else 2 * i])
    ensures Root(h, s) == Root(h, up)
  {
    assert NextLevel(h, s) == up;
  }

  // ---- The same root, from the top down ----

  /** How many nodes there are at a height. */
  function Width(n: nat, height: nat): nat {
    if height == 0 then n else (Width(n, height - 1) + 1) / 2
  }

  /** The node at a position of a height, by recursion to the leaves below it. */
  function Node(h: Hash2, s: seq<Digest>, height: nat, pos: nat): Digest {
    if height == 0 then (if pos < |s| then s[pos] else 0) else
      var left := Node(h, s, height - 1, 2 * pos);
      h(left, if 2 * pos + 1 < Width(|s|, height - 1) then Node(h, s, height - 1, 2 * pos + 1) else left)
  }

  lemma {:induction false} WidthAbove(n: nat, height: nat)
    requires height > 0
    ensures Width((n + 1) / 2, height - 1) == Width(n, height)
  {
    if height > 1 {
      WidthAbove(n, height - 1);
    }
  }

  /** Nodes with the same children are the same. */
  lemma SameNode(h: Hash2, s: seq<Digest>, m: nat, t: seq<Digest>, n: nat, pos: nat)
    requires m > 0 && n > 0 && pos < Width(|s|, m) && pos < Width(|t|, n) && Width(|s|, m - 1) == Width(|t|, n - 1)
    requires Node(h, s, m - 1, 2 * pos) == Node(h, t, n - 1, 2 * pos)
    requires 2 * pos + 1 < Width(|s|, m - 1) ==> Node(h, s, m - 1, 2 * pos + 1) == Node(h, t, n - 1, 2 * pos + 1)
    ensures Node(h, s, m, pos) == Node(h, t, n, pos)
  {
  }

  lemma {:induction false} NodeAbove(h: Hash2, s: seq<Digest>, up: seq<Digest>, height: nat, pos: nat)
    requires up == NextLevel(h, s) && height > 0 && pos < Width(|s|, height)
    ensures pos < Width(|up|, height - 1)
    ensures Node(h, up, height - 1, pos) == Node(h, s, height, pos)
    decreases height
  {
    WidthAbove(|s|, height);
    if height == 1 {
      NodeAtOne(h, s, pos);
    } else {
      WidthAbove(|s|, height - 1);
      var k, below := 2 * pos, height - 1;
      NodeAbove(h, s, up, below, k);
      if k + 1 < Width(|s|, below) {
        NodeAbove(h, s, up, below, k + 1);
      }
      SameNode(h, up, below, s, height, pos);
    }
  }

  lemma NodeAtOne(h: Hash2, s: seq<Digest>, pos: nat)
    requires pos < Width(|s|, 1)
    ensures 2 * pos < |s| && Node(h, s, 1, pos) == Parent(h, s, pos)
  {
    assert Width(|s|, 0) == |s|;
    assert Node(h, s, 0, 2 * pos) == s[2 * pos];
  }

  function Height(n: nat): nat {
    if n <= 1 then 0 else 1 + Height((n + 1) / 2)
  }

  /** The root is the single node at the top. */
  lemma {:induction false} RootIsTopNode(h: Hash2, s: seq<Digest>)
    requires s != []
    ensures Width(|s|, Height(|s|)) == 1
    ensures Root(h, s) == Node(h, s, Height(|s|), 0)
    decreases |s|
  {
    if |s| > 1 {
      var up := NextLevel(h, s);
      RootIsTopNode(h, up);
      WidthAbove(|s|, Height(|s|));
      NodeAbove(h, s, up, Height(|s|), 0);
    }
  }

  lemma {:induction false} TreeEndsInRoot(h: Hash2, s: seq<Digest>)
    requires s != []
    ensures Tree(h, s) != [] && Tree(h, s)[|Tree(h, s)| - 1] == Root(h, s)
    decreases |s|
  {
    if |s| > 1 {
      TreeEndsInRoot(h, NextLevel(h, s));
    }
  }

  // ---- The flat array ----

  /** Going up one level in the flat array. */
  lemma LevelDone(h: Hash2, below: seq<Digest>, level: seq<Digest>, all: seq<Digest>, root: Digest)
    requires |level| > 1 && below + Tree(h, level) == all && Root(h, level) == root
    ensures var up := NextLevel(h, level);
            (below + level) + Tree(h, up) == all && Root(h, up) == root
  {
    assert below + (level + Tree(h, NextLevel(h, level))) == (below + level) + Tree(h, NextLevel(h, level));
  }

  lemma TopLevel(h: Hash2, below: seq<Digest>, level: seq<Digest>, all: seq<Digest>)
    requires |level| <= 1 && below + Tree(h, level) == all
    ensures below + level == all
  {
  }

  lemma BranchStep(h: Hash2, level: seq<Digest>, done: seq<Digest>, branch: seq<Digest>, i: nat)
    requires |level| > 1 && done + Branch(h, level, i) == branch
    ensures (done + [level[Neighbour(i, |level|)]]) + Branch(h, NextLevel(h, level), i / 2) == branch
  {
    var rest := Branch(h, NextLevel(h, level), i / 2);
    assert done + ([level[Neighbour(i, |level|)]] + rest) == (done + [level[Neighbour(i, |level|)]]) + rest;
  }

  lemma LevelInTree(h: Hash2, below: seq<Digest>, level: seq<Digest>, k: nat)
    requires k < |level|
    ensures |below| + k < |below + Tree(h, level)| && (below + Tree(h, level))[|below| + k] == level[k]
  {
  }

  class CBlock {
    const hash: Hash2
    var vtx: seq<Digest>           // the transactions, by their hashes
    var vMerkleTree: seq<Digest>   // memory only; empty until built

    ghost predicate Valid() reads this {
      vMerkleTree == [] || vMerkleTree == Tree(hash, vtx)
    }

    constructor (h: Hash2, txs: seq<Digest>)
      ensures Valid() && hash == h && vtx == txs && vMerkleTree == []
    {
      hash, vtx, vMerkleTree := h, txs, [];
    }

    /** Hashes one level of the tree, which starts at j, onto its end. */
    method HashLevel(j: nat, nSize: nat)
      requires j + nSize == |vMerkleTree| && nSize > 0
      modifies `vMerkleTree
      ensures vMerkleTree == old(vMerkleTree) + NextLevel(hash, old(vMerkleTree)[j..])
    {
      ghost var level := vMerkleTree[j..];
      var i := 0;
      while i < nSize
        invariant 0 <= i <= nSize + 1 && i % 2 == 0
        invariant vMerkleTree == old(vMerkleTree) + NextLevel(hash, level)[..i / 2]
      {
        var i2 := if i + 1 < nSize - 1 then i + 1 else nSize - 1;
        assert level[i] == vMerkleTree[j + i] && level[i2] == vMerkleTree[j + i2];
        ghost var k := i / 2;
        assert Parent(hash, level, k) == hash(level[i], level[i2]);
        assert NextLevel(hash, level)[..k + 1] == NextLevel(hash, level)[..k] + [NextLevel(hash, level)[k]];
        vMerkleTree := vMerkleTree + [hash(vMerkleTree[j + i], vMerkleTree[j + i2])];
        i := i + 2;
      }
    }

    /** Builds the tree level by level and returns its root. */
    method BuildMerkleTree() returns (root: Digest)
      modifies `vMerkleTree
      ensures Valid() && vMerkleTree == Tree(hash, vtx)
      ensures root == Root(hash, vtx) && (vtx == [] ==> root == 0) && (|vtx| == 1 ==> root == vtx[0])
    {
      vMerkleTree := vtx;
      var j := 0;
      var nSize := |vtx|;
      ghost var all, top := Tree(hash, vtx), Root(hash, vtx);
      ghost var below, level: seq<Digest> := [], vtx;
      assert below + all == all;
      while nSize > 1
        invariant j == |below| && nSize == |level| && vMerkleTree == below + level
        invariant below + Tree(hash, level) == all && Root(hash, level) == top
        decreases nSize
      {
        LevelDone(hash, below, level, all, top);
        HashLevel(j, nSize);
        assert (below + level)[j..] == level;
        below, level := below + level, NextLevel(hash, level);
        j := j + nSize;
        nSize := (nSize + 1) / 2;
      }
      root := if |vMerkleTree| == 0 then 0 else vMerkleTree[|vMerkleTree| - 1];
      TopLevel(hash, below, level, all);
      if vtx != [] {
        TreeEndsInRoot(hash, vtx);
      }
    }

    /** The branch of transaction nIndex, from the tree, which is built first if need be. */
    method GetMerkleBranch(nIndex: nat) returns (vMerkleBranch: seq<Digest>)
      requires Valid()
      modifies `vMerkleTree
      ensures Valid() && vMerkleBranch == Branch(hash, vtx, nIndex)
    {
      if |vMerkleTree| == 0 {
        var root := BuildMerkleTree();
      }
      vMerkleBranch := ReadBranch(nIndex);
    }

    method ReadBranch(nIndex: nat) returns (vMerkleBranch: seq<Digest>)
      requires vMerkleTree == Tree(hash, vtx)
      ensures vMerkleBranch == Branch(hash, vtx, nIndex)
    {
      vMerkleBranch := [];
      var j := 0;
      var i := nIndex;
      var nSize := |vtx|;
      ghost var all, branch, top := Tree(hash, vtx), Branch(hash, vtx, nIndex), Root(hash, vtx);
      ghost var below, level: seq<Digest> := [], vtx;
      assert below + all == all && vMerkleBranch + branch == branch;
      while nSize > 1
        invariant j == |below| && nSize == |level| && vMerkleTree == all
        invariant below + Tree(hash, level) == all && Root(hash, level) == top
        invariant vMerkleBranch + Branch(hash, level, i) == branch
        decreases nSize
      {
        var x := if i % 2 == 0 then i + 1 else i - 1;   // i with its lowest bit flipped
        var k := if x < nSize - 1 then x else nSize - 1;
        LevelInTree(hash, below, level, k);
        BranchStep(hash, level, vMerkleBranch, branch, i);
        LevelDone(hash, below, level, all, top);
        vMerkleBranch := vMerkleBranch + [vMerkleTree[j + k]];
        below, level := below + level, NextLevel(hash, level);
        i := i / 2;
        j := j + nSize;
        nSize := (nSize + 1) / 2;
      }
    }
  }

  /** The digest a branch leads to; 0 for the position -1. */
  method CheckMerkleBranch(h: Hash2, leaf: Digest, vMerkleBranch: seq<Digest>, nIndex: int) returns (r: Digest)
    ensures r == if nIndex == -1 then 0 else Climb(h, leaf, vMerkleBranch, nIndex)
  {
    if nIndex == -1 {
      return 0;
    }
    r := leaf;
    var i := nIndex;
    for n := 0 to |vMerkleBranch|
      invariant Climb(h, r, vMerkleBranch[n..], i) == Climb(h, leaf, vMerkleBranch, nIndex)
    {
      assert vMerkleBranch[n..][1..] == vMerkleBranch[n + 1..];
      r := if i % 2 == 1 then h(vMerkleBranch[n], r) else h(r, vMerkleBranch[n]);
      i := i / 2;
    }
  }

  /** Every transaction's branch leads from it to the root of the tree. */
  method BranchOfEach(block: CBlock, nIndex: nat) returns (root: Digest, checked: Digest)
    requires block.Valid() && nIndex < |block.vtx|
    modifies block`vMerkleTree
    ensures root == checked == Root(block.hash, block.vtx)
  {
    root := block.BuildMerkleTree();
    var branch := block.GetMerkleBranch(nIndex);
    checked := CheckMerkleBranch(block.hash, block.vtx[nIndex], branch, nIndex);
    BranchVerifies(block.hash, block.vtx, nIndex);
  }
}
