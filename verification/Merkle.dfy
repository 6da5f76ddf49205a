/** The Merkle tree over a list of transaction ids: the recursive hash, the flat array of a block, and
    branch proofs. */
module Merkle {
  import opened Common

  type Hash = nat

  /** The hash of the concatenation of two hashes. */
  type PairHash = (Hash, Hash) -> Hash

  ghost predicate Injective(H: PairHash) {
    forall a, b, c, d :: H(a, b) == H(c, d) ==> a == c && b == d
  }

  /** CalcTreeWidth: the number of nodes at a height. */
  function Width(n: nat, h: nat): nat { (n + Pow2(h) - 1) / Pow2(h) }

  lemma DivIs(x: nat, d: nat, q: nat)
    requires d > 0 && q * d <= x < q * d + d
    ensures x / d == q
  {
    var k := x / d;
    assert k * d <= x < k * d + d;
    assert (k + 1) * d == k * d + d && (q + 1) * d == q * d + d;
    if k < q {
      Mono(k + 1, q, d);
    } else if k > q {
      Mono(q + 1, k, d);
    }
  }

  /** A width is the number of places of that size that it takes to hold all leaves. */
  lemma WidthIs(n: nat, h: nat)
    ensures Width(n, h) * Pow2(h) <= n + Pow2(h) - 1 < Width(n, h) * Pow2(h) + Pow2(h)
  {
    var d, x := Pow2(h), n + Pow2(h) - 1;
    assert (x / d) * d <= x < (x / d) * d + d;
  }

  /** Every level has half as many nodes as the one below, rounded up. */
  lemma WidthHalves(n: nat, h: nat)
    ensures Width(n, h + 1) == (Width(n, h) + 1) / 2
  {
    hide Width;
    var d, w := Pow2(h), Width(n, h);
    var q := (w + 1) / 2;
    WidthIs(n, h);
    Halving(n, d, w, q);
    WidthDef(n, h + 1);
    DivIs(n + 2 * d - 1, 2 * d, q);
  }

  lemma WidthDef(n: nat, h: nat)
    ensures Width(n, h) == (n + Pow2(h) - 1) / Pow2(h)
  {
  }

  lemma Halving(n: nat, d: nat, w: nat, q: nat)
    requires w * d <= n + d - 1 < w * d + d && q == (w + 1) / 2
    ensures q * (2 * d) <= n + 2 * d - 1 < q * (2 * d) + 2 * d
  {
    Mono(2 * q, w + 1, d);
    Mono(w, 2 * q, d);
    assert (2 * q) * d == q * (2 * d);
    assert (w + 1) * d == w * d + d;
  }

  lemma WidthZero(n: nat)
    ensures Width(n, 0) == n
  {
    assert Pow2(0) == 1;
  }

  /** The least height at which the tree has one node. */
  ghost predicate IsHeight(n: nat, h: nat) { Width(n, h) <= 1 && forall k | 0 <= k < h :: Width(n, k) > 1 }

  lemma PowGrows(h: nat)
    ensures Pow2(h) > h
  {
    if h > 0 { PowGrows(h - 1); }
  }

  /** The loop that finds the height. */
  method CalcHeight(n: nat) returns (nHeight: nat)
    ensures IsHeight(n, nHeight)
  {
    nHeight := 0;
    while Width(n, nHeight) > 1
      invariant forall k | 0 <= k < nHeight :: Width(n, k) > 1
      decreases n - nHeight
    {
      WidthIs(n, nHeight);
      PowGrows(nHeight);
      Mono(2, Width(n, nHeight), Pow2(nHeight));
      nHeight := nHeight + 1;
    }
  }

  lemma HeightUnique(n: nat, h: nat, k: nat)
    requires IsHeight(n, h) && IsHeight(n, k)
    ensures h == k
  {
  }

  /** CalcHash. */
  function CalcHash(H: PairHash, vTxid: seq<Hash>, height: nat, pos: nat): Hash
    requires pos < Width(|vTxid|, height)
    decreases height
  {
    if height == 0 then
      WidthZero(|vTxid|);
      vTxid[pos]
    else
      WidthHalves(|vTxid|, height - 1);
      var left := CalcHash(H, vTxid, height - 1, pos * 2);
      var right := if pos * 2 + 1 < Width(|vTxid|, height - 1) then CalcHash(H, vTxid, height - 1, pos * 2 + 1)
          else left;
      H(left, right)
  }

  lemma RootExists(n: nat, h: nat)
    requires n > 0
    ensures Width(n, h) > 0
  {
    WidthIs(n, h);
  }

  // ---------------------------------------------------------------- the flat tree

  /** Where the nodes of a height begin in the flat array. */
  function Offset(n: nat, h: nat): nat { if h == 0 then 0 else Offset(n, h - 1) + Width(n, h - 1) }

  /** The array holds the nodes of every height below h, and the first `done` ones of height h. */
  ghost predicate Holds(H: PairHash, vTxid: seq<Hash>, tree: seq<Hash>, h: nat, done: nat) {
    && done <= Width(|vTxid|, h) && |tree| == Offset(|vTxid|, h) + done
    && (forall k, p | 0 <= k < h && 0 <= p < Width(|vTxid|, k) :: NodeAt(H, vTxid, tree, k, p))
    && (forall p | 0 <= p < done :: NodeAt(H, vTxid, tree, h, p))
  }

  ghost predicate NodeAt(H: PairHash, vTxid: seq<Hash>, tree: seq<Hash>, k: nat, p: nat)
    requires p < Width(|vTxid|, k)
  {
    Offset(|vTxid|, k) + p < |tree| && tree[Offset(|vTxid|, k) + p] == CalcHash(H, vTxid, k, p)
  }

  lemma OneMoreNode(H: PairHash, vTxid: seq<Hash>, tree: seq<Hash>, h: nat, done: nat)
    requires Holds(H, vTxid, tree, h, done) && done < Width(|vTxid|, h)
    ensures Holds(H, vTxid, tree + [CalcHash(H, vTxid, h, done)], h, done + 1)
  {
    var tree' := tree + [CalcHash(H, vTxid, h, done)];
    forall k, p | 0 <= k < h && 0 <= p < Width(|vTxid|, k) ensures NodeAt(H, vTxid, tree', k, p) {
      assert NodeAt(H, vTxid, tree, k, p);
    }
    forall p | 0 <= p < done + 1 ensures NodeAt(H, vTxid, tree', h, p) {
      if p < done { assert NodeAt(H, vTxid, tree, h, p); }
    }
  }

  lemma LevelDone(H: PairHash, vTxid: seq<Hash>, tree: seq<Hash>, h: nat)
    requires Holds(H, vTxid, tree, h, Width(|vTxid|, h))
    ensures Holds(H, vTxid, tree, h + 1, 0)
  {
  }

  /** BuildMerkleTree: the array holds every node of every height up to the root. */
  method BuildMerkleTree(H: PairHash, vTxid: seq<Hash>) returns (vMerkleTree: seq<Hash>, root: Hash, ghost nHeight: nat)
    ensures vTxid == [] ==> vMerkleTree == [] && root == 0
    ensures vTxid != [] ==> IsHeight(|vTxid|, nHeight) && Width(|vTxid|, nHeight) == 1
    ensures vTxid != [] ==> Holds(H, vTxid, vMerkleTree, nHeight + 1, 0) && root == CalcHash(H, vTxid, nHeight, 0)
  {
    hide NodeAt, Holds, Width;
    vMerkleTree, nHeight := [], 0;
    WidthZero(|vTxid|);
    HoldsNothing(H, vTxid);
    for i := 0 to |vTxid|
      invariant Holds(H, vTxid, vMerkleTree, 0, i) && vMerkleTree == vTxid[..i]
    {
      OneMoreNode(H, vTxid, vMerkleTree, 0, i);
      assert CalcHash(H, vTxid, 0, i) == vTxid[i];
      vMerkleTree := vMerkleTree + [vTxid[i]];
    }
    LevelDone(H, vTxid, vMerkleTree, 0);
    var j, nSize := 0, |vTxid|;
    while nSize > 1
      invariant nSize == Width(|vTxid|, nHeight) && j == Offset(|vTxid|, nHeight)
          && Holds(H, vTxid, vMerkleTree, nHeight + 1, 0)
      invariant forall k | 0 <= k < nHeight :: Width(|vTxid|, k) > 1
      invariant vTxid == [] ==> vMerkleTree == [] && nSize == 0
    {
      WidthHalves(|vTxid|, nHeight);
      var i := 0;
      while i < nSize
        invariant 0 <= i && i % 2 == 0 && i <= nSize + 1 && Holds(H, vTxid, vMerkleTree, nHeight + 1, i / 2)
      {
        var i2 := Min(i + 1, nSize - 1);
        NodeIs(H, vTxid, vMerkleTree, nHeight, i / 2, i);
        NodeIs(H, vTxid, vMerkleTree, nHeight, i / 2, i2);
        OneMoreNode(H, vTxid, vMerkleTree, nHeight + 1, i / 2);
        vMerkleTree := vMerkleTree + [H(vMerkleTree[j + i], vMerkleTree[j + i2])];
        i := i + 2;
      }
      LevelDone(H, vTxid, vMerkleTree, nHeight + 1);
      j := j + nSize;
      nSize := (nSize + 1) / 2;
      nHeight := nHeight + 1;
    }
    root := if |vMerkleTree| == 0 then 0 else vMerkleTree[|vMerkleTree| - 1];
    if vTxid != [] {
      RootExists(|vTxid|, nHeight);
      LastIsRoot(H, vTxid, vMerkleTree, nHeight);
    }
  }

  lemma HoldsNothing(H: PairHash, vTxid: seq<Hash>)
    ensures Holds(H, vTxid, [], 0, 0)
  {
  }

  lemma NodeIs(H: PairHash, vTxid: seq<Hash>, tree: seq<Hash>, h: nat, done: nat, p: nat)
    requires Holds(H, vTxid, tree, h + 1, done) && p < Width(|vTxid|, h)
    ensures Offset(|vTxid|, h) + p < |tree| && tree[Offset(|vTxid|, h) + p] == CalcHash(H, vTxid, h, p)
  {
    assert NodeAt(H, vTxid, tree, h, p);
  }

  lemma LastIsRoot(H: PairHash, vTxid: seq<Hash>, tree: seq<Hash>, h: nat)
    requires Holds(H, vTxid, tree, h + 1, 0) && Width(|vTxid|, h) == 1
    ensures tree != [] && tree[|tree| - 1] == CalcHash(H, vTxid, h, 0)
  {
    assert NodeAt(H, vTxid, tree, h, 0);
  }

  // ---------------------------------------------------------------- branches

  /** nIndex ^ 1. */
  function Sibling(i: nat): nat { if i % 2 == 0 then i + 1 else i - 1 }

  /** The position of the ancestor at a height. */
  function Ancestor(i: nat, h: nat): nat { if h == 0 then i else Ancestor(i, h - 1) / 2 }

  lemma {:induction false} AncestorInside(n: nat, i: nat, h: nat)
    requires i < n
    ensures Ancestor(i, h) < Width(n, h)
  {
    if h == 0 {
      WidthZero(n);
    } else {
      AncestorInside(n, i, h - 1);
      WidthHalves(n, h - 1);
    }
  }

  /** The other side of the ancestor at every height. */
  ghost predicate IsBranch(H: PairHash, vTxid: seq<Hash>, i: nat, branch: seq<Hash>) {
    forall h | 0 <= h < |branch| :: Width(|vTxid|, h) > 1 && branch[h] == OtherSide(H, vTxid, i, h)
  }

  ghost function OtherSide(H: PairHash, vTxid: seq<Hash>, i: nat, h: nat): Hash
    requires Width(|vTxid|, h) > 1
  {
    CalcHash(H, vTxid, h, Min(Sibling(Ancestor(i, h)), Width(|vTxid|, h) - 1))
  }

  /** GetMerkleBranch. */
  method GetMerkleBranch(H: PairHash, vTxid: seq<Hash>, nIndex0: nat) returns (vMerkleBranch: seq<Hash>)
    ensures IsHeight(|vTxid|, |vMerkleBranch|) && IsBranch(H, vTxid, nIndex0, vMerkleBranch)
  {
    hide Width, Holds, CalcHash;
    var vMerkleTree, root, nHeight := BuildMerkleTree(H, vTxid);
    vMerkleBranch := [];
    WidthZero(|vTxid|);
    var j, nSize, nIndex := 0, |vTxid|, nIndex0;
    while nSize > 1
      invariant nSize == Width(|vTxid|, |vMerkleBranch|) && j == Offset(|vTxid|, |vMerkleBranch|)
      invariant nIndex == Ancestor(nIndex0, |vMerkleBranch|) && IsBranch(H, vTxid, nIndex0, vMerkleBranch)
      invariant forall k | 0 <= k < |vMerkleBranch| :: Width(|vTxid|, k) > 1
    {
      WidthHalves(|vTxid|, |vMerkleBranch|);
      var i := Min(Sibling(nIndex), nSize - 1);
      Stored(H, vTxid, vMerkleTree, nHeight, |vMerkleBranch|, i);
      assert vMerkleTree[j + i] == OtherSide(H, vTxid, nIndex0, |vMerkleBranch|);
      vMerkleBranch := vMerkleBranch + [vMerkleTree[j + i]];
      nIndex := nIndex / 2;
      j := j + nSize;
      nSize := (nSize + 1) / 2;
    }
  }

  lemma Stored(H: PairHash, vTxid: seq<Hash>, tree: seq<Hash>, nHeight: nat, h: nat, p: nat)
    requires IsHeight(|vTxid|, nHeight) && Holds(H, vTxid, tree, nHeight + 1, 0) && Width(|vTxid|, h) > 1
        && p < Width(|vTxid|, h)
    ensures Offset(|vTxid|, h) + p < |tree| && tree[Offset(|vTxid|, h) + p] == CalcHash(H, vTxid, h, p)
  {
    if h > nHeight {
      WidthShrinks(|vTxid|, nHeight, h);
    }
    assert NodeAt(H, vTxid, tree, h, p);
  }

  lemma {:induction false} WidthShrinks(n: nat, a: nat, b: nat)
    requires a <= b && Width(n, a) <= 1
    ensures Width(n, b) <= 1
  {
    if a < b {
      WidthShrinks(n, a, b - 1);
      WidthHalves(n, b - 1);
    }
  }

  function Fold(H: PairHash, hash: Hash, branch: seq<Hash>, nIndex: int): Hash
    decreases branch
  {
    if branch == [] then hash
    else Fold(H, if nIndex % 2 != 0 then H(branch[0], hash) else H(hash, branch[0]), branch[1..], nIndex / 2)
  }

  /** CheckMerkleBranch. */
  method CheckMerkleBranch(H: PairHash, hash0: Hash, vMerkleBranch: seq<Hash>, nIndex0: int) returns (hash: Hash)
    ensures hash == if nIndex0 == -1 then 0 else Fold(H, hash0, vMerkleBranch, nIndex0)
  {
    if nIndex0 == -1 {
      return 0;
    }
    hash := hash0;
    var nIndex := nIndex0;
    for i := 0 to |vMerkleBranch|
      invariant Fold(H, hash, vMerkleBranch[i..], nIndex) == Fold(H, hash0, vMerkleBranch, nIndex0)
    {
      var otherside := vMerkleBranch[i];
      assert vMerkleBranch[i..][1..] == vMerkleBranch[i + 1..];
      if nIndex % 2 != 0 {
        hash := H(otherside, hash);
      } else {
        hash := H(hash, otherside);
      }
      nIndex := nIndex / 2;
    }
  }

  /** The hash of the ancestor at a height. */
  ghost function AncestorHash(H: PairHash, vTxid: seq<Hash>, i: nat, h: nat): Hash
    requires i < |vTxid|
  {
    AncestorInside(|vTxid|, i, h);
    CalcHash(H, vTxid, h, Ancestor(i, h))
  }

  function Combined(H: PairHash, nIndex: int, hash: Hash, otherside: Hash): Hash {
    if nIndex % 2 != 0 then H(otherside, hash) else H(hash, otherside)
  }

  /** One level up: the node and its other side hash to their parent. */
  lemma ParentHash(H: PairHash, vTxid: seq<Hash>, i: nat, h: nat)
    requires i < |vTxid| && Width(|vTxid|, h) > 1
    ensures AncestorHash(H, vTxid, i, h + 1)
        == Combined(H, Ancestor(i, h), AncestorHash(H, vTxid, i, h), OtherSide(H, vTxid, i, h))
  {
    hide Width;
    WidthHalves(|vTxid|, h);
    AncestorInside(|vTxid|, i, h);
    var p := Ancestor(i, h);
    assert p / 2 == Ancestor(i, h + 1);
    if p % 2 != 0 {
      assert Min(Sibling(p), Width(|vTxid|, h) - 1) == p - 1;
    } else if p + 1 < Width(|vTxid|, h) {
      assert Min(Sibling(p), Width(|vTxid|, h) - 1) == p + 1;
    } else {
      assert Min(Sibling(p), Width(|vTxid|, h) - 1) == p;
    }
  }

  /** From any height on, the rest of the branch leads from the ancestor to the root. */
  lemma {:induction false} BranchFolds(H: PairHash, vTxid: seq<Hash>, i: nat, branch: seq<Hash>, h: nat)
    requires i < |vTxid| && IsBranch(H, vTxid, i, branch) && h <= |branch|
    ensures Fold(H, AncestorHash(H, vTxid, i, h), branch[h..], Ancestor(i, h)) == AncestorHash(H, vTxid, i, |branch|)
    decreases |branch| - h
  {
    hide Width, OtherSide, AncestorHash;
    if h < |branch| {
      BranchFolds(H, vTxid, i, branch, h + 1);
      ParentHash(H, vTxid, i, h);
      assert branch[h..][0] == branch[h] == OtherSide(H, vTxid, i, h);
      assert branch[h..][1..] == branch[h + 1..];
      assert Ancestor(i, h) / 2 == Ancestor(i, h + 1);
    }
  }

  /** The branch of a transaction proves it. */
  lemma BranchProves(H: PairHash, vTxid: seq<Hash>, i: nat, branch: seq<Hash>)
    requires i < |vTxid| && IsBranch(H, vTxid, i, branch)
    ensures Fold(H, vTxid[i], branch, i) == AncestorHash(H, vTxid, i, |branch|)
  {
    hide IsBranch, Fold;
    BranchFolds(H, vTxid, i, branch, 0);
    assert branch[0..] == branch;
    WidthZero(|vTxid|);
  }

  /** If the pair hash is injective, whatever a branch of the right length proves for a place is the
      transaction at that place. */
  lemma {:induction false} ProofIsTrue(H: PairHash, vTxid: seq<Hash>, i: nat, h: nat, x: Hash, branch: seq<Hash>)
    requires Injective(H) && i < |vTxid| && forall k | h <= k < h + |branch| :: Width(|vTxid|, k) > 1
    requires Fold(H, x, branch, Ancestor(i, h)) == AncestorHash(H, vTxid, i, h + |branch|)
    ensures x == AncestorHash(H, vTxid, i, h)
    decreases |branch|
  {
    hide Width, OtherSide, AncestorHash, Injective;
    if branch != [] {
      var p := Ancestor(i, h);
      assert p / 2 == Ancestor(i, h + 1);
      var up := Combined(H, p, x, branch[0]);
      assert Fold(H, x, branch, p) == Fold(H, up, branch[1..], p / 2);
      ProofIsTrue(H, vTxid, i, h + 1, up, branch[1..]);
      ParentHash(H, vTxid, i, h);
      CombinedInjective(H, p, x, branch[0], AncestorHash(H, vTxid, i, h), OtherSide(H, vTxid, i, h));
    }
  }

  lemma CombinedInjective(H: PairHash, nIndex: int, a: Hash, b: Hash, c: Hash, d: Hash)
    requires Injective(H) && Combined(H, nIndex, a, b) == Combined(H, nIndex, c, d)
    ensures a == c && b == d
  {
  }

  lemma AtRoot(H: PairHash, vTxid: seq<Hash>, i: nat, h: nat)
    requires i < |vTxid| && IsHeight(|vTxid|, h)
    ensures Width(|vTxid|, h) == 1 && AncestorHash(H, vTxid, i, h) == CalcHash(H, vTxid, h, 0)
    ensures AncestorHash(H, vTxid, i, 0) == vTxid[i]
  {
    AncestorInside(|vTxid|, i, h);
    WidthZero(|vTxid|);
  }

  /** CheckMerkleBranch accepts exactly the transaction id that is at the place. */
  method ProveMembership(H: PairHash, vTxid: seq<Hash>, x: Hash, nIndex: nat) returns (ok: bool)
    requires Injective(H) && nIndex < |vTxid|
    ensures ok <==> x == vTxid[nIndex]
  {
    hide Width, Fold, IsBranch, AncestorHash, CalcHash, Injective;
    var _, root, nHeight := BuildMerkleTree(H, vTxid);
    var branch := GetMerkleBranch(H, vTxid, nIndex);
    var hash := CheckMerkleBranch(H, x, branch, nIndex);
    HeightUnique(|vTxid|, nHeight, |branch|);
    BranchProves(H, vTxid, nIndex, branch);
    AtRoot(H, vTxid, nIndex, nHeight);
    ok := hash == root;
    if ok {
      ProofIsTrue(H, vTxid, nIndex, 0, x, branch);
    }
  }
}
