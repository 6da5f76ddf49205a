/** Partial Merkle trees: the encoder, the bit packing, the decoder, and what a decoded tree proves. */
module PartialMerkle {
  import opened Common
  import opened Merkle

  const MAX_BLOCK_SIZE: nat := 1000000

  // ---------------------------------------------------------------- the leaves below a node

  /** The first leaf below a node. */
  function First(h: nat, pos: nat): nat { pos * Pow2(h) }

  /** One past the last leaf below a node. */
  function Last(n: nat, h: nat, pos: nat): nat { Min(n, First(h, pos + 1)) }

  lemma NodeRange(n: nat, h: nat, pos: nat)
    requires pos < Width(n, h)
    ensures First(h, pos) < Last(n, h, pos) <= n && First(h, pos + 1) == First(h, pos) + Pow2(h)
  {
    WidthIs(n, h);
    Mono(pos + 1, Width(n, h), Pow2(h));
    assert (pos + 1) * Pow2(h) == pos * Pow2(h) + Pow2(h);
  }

  /** The children share the leaves of a node; with only one child it has them all. */
  lemma ChildRanges(n: nat, h: nat, pos: nat)
    requires h > 0 && pos < Width(n, h)
    ensures 2 * pos < Width(n, h - 1)
    ensures First(h - 1, 2 * pos) == First(h, pos) && First(h - 1, 2 * pos + 2) == First(h, pos + 1)
    ensures First(h - 1, 2 * pos + 1) == First(h, pos) + Pow2(h - 1)
    ensures 2 * pos + 1 < Width(n, h - 1) ==> Last(n, h - 1, 2 * pos) == First(h - 1, 2 * pos + 1)
                                              && Last(n, h - 1, 2 * pos + 1) == Last(n, h, pos)
    ensures 2 * pos + 1 >= Width(n, h - 1) ==> Last(n, h - 1, 2 * pos) == Last(n, h, pos)
  {
    hide Width, First;
    WidthHalves(n, h - 1);
    ChildFirsts(h, pos);
    NodeRange(n, h, pos);
    if 2 * pos + 1 < Width(n, h - 1) {
      NodeRange(n, h - 1, 2 * pos);
      NodeRange(n, h - 1, 2 * pos + 1);
    } else {
      LastNode(n, h - 1);
    }
  }

  lemma ChildFirsts(h: nat, pos: nat)
    requires h > 0
    ensures First(h - 1, 2 * pos) == First(h, pos) && First(h - 1, 2 * pos + 2) == First(h, pos + 1)
    ensures First(h - 1, 2 * pos + 1) == First(h, pos) + Pow2(h - 1)
  {
    Doubled(pos, Pow2(h - 1));
    Doubled(pos + 1, Pow2(h - 1));
  }

  lemma Doubled(pos: nat, d: nat)
    ensures (2 * pos) * d == pos * (2 * d) && (2 * pos + 1) * d == pos * (2 * d) + d
  {
  }

  lemma LastNode(n: nat, h: nat)
    ensures n <= First(h, Width(n, h))
  {
    WidthIs(n, h);
  }

  ghost predicate AnyMatch(vMatch: seq<bool>, lo: nat, hi: nat) { exists p ::
                                                                    lo <= p < hi && p < |vMatch| && vMatch[p] }

  /** The matched ids among the leaves from lo to hi. */
  function Selected(vTxid: seq<Hash>, vMatch: seq<bool>, lo: nat, hi: nat): seq<Hash>
    requires |vTxid| == |vMatch| && hi <= |vTxid|
    decreases hi
  {
    if lo >= hi then [] else Selected(vTxid, vMatch, lo, hi - 1) + if vMatch[hi - 1] then [vTxid[hi - 1]] else []
  }

  lemma {:induction false} SelectedSplit(vTxid: seq<Hash>, vMatch: seq<bool>, lo: nat, mid: nat, hi: nat)
    requires |vTxid| == |vMatch| && lo <= mid <= hi <= |vTxid|
    ensures Selected(vTxid, vMatch, lo, hi) == Selected(vTxid, vMatch, lo, mid) + Selected(vTxid, vMatch, mid, hi)
    decreases hi
  {
    if mid < hi {
      SelectedSplit(vTxid, vMatch, lo, mid, hi - 1);
    }
  }

  lemma {:induction false} SelectedNone(vTxid: seq<Hash>, vMatch: seq<bool>, lo: nat, hi: nat)
    requires |vTxid| == |vMatch| && hi <= |vTxid|
    ensures Selected(vTxid, vMatch, lo, hi) == [] <==> !AnyMatch(vMatch, lo, hi)
    decreases hi
  {
    if lo < hi {
      SelectedNone(vTxid, vMatch, lo, hi - 1);
      if vMatch[hi - 1] {
        assert AnyMatch(vMatch, lo, hi);
      }
    }
  }

  // ---------------------------------------------------------------- encoding

  /** The bits and the hashes that TraverseAndBuild appends for a node. */
  ghost function BuildBits(n: nat, vMatch: seq<bool>, h: nat, pos: nat): (bits: seq<bool>)
    decreases h
  {
    var f := AnyMatch(vMatch, First(h, pos), Last(n, h, pos));
    if h == 0 || !f then [f]
    else [true] + BuildBits(n, vMatch, h - 1, pos * 2) + if pos * 2 + 1 < Width(n, h - 1)
        then BuildBits(n, vMatch, h - 1, pos * 2 + 1) else []
  }

  ghost function BuildHashes(H: PairHash, vTxid: seq<Hash>, vMatch: seq<bool>, h: nat, pos: nat): seq<Hash>
    requires pos < Width(|vTxid|, h)
    decreases h
  {
    if h == 0 || !AnyMatch(vMatch, First(h, pos), Last(|vTxid|, h, pos)) then [CalcHash(H, vTxid, h, pos)]
    else
      WidthHalves(|vTxid|, h - 1);
      BuildHashes(H, vTxid, vMatch, h - 1, pos * 2) +
      if pos * 2 + 1 < Width(|vTxid|, h - 1) then BuildHashes(H, vTxid, vMatch, h - 1, pos * 2 + 1) else []
  }

  /** The nodes that are descended into although they have but one child. */
  ghost function OneChild(n: nat, vMatch: seq<bool>, h: nat, pos: nat): nat
    decreases h
  {
    if h == 0 || !AnyMatch(vMatch, First(h, pos), Last(n, h, pos)) then 0
    else OneChild(n, vMatch, h - 1, pos * 2) + if pos * 2 + 1 < Width(n, h - 1)
        then OneChild(n, vMatch, h - 1, pos * 2 + 1) else 1
  }

  lemma BuildStops(H: PairHash, vTxid: seq<Hash>, vMatch: seq<bool>, h: nat, pos: nat)
    requires pos < Width(|vTxid|, h)
    requires h == 0 || !AnyMatch(vMatch, First(h, pos), Last(|vTxid|, h, pos))
    ensures BuildBits(|vTxid|, vMatch, h, pos) == [AnyMatch(vMatch, First(h, pos), Last(|vTxid|, h, pos))]
    ensures BuildHashes(H, vTxid, vMatch, h, pos) == [CalcHash(H, vTxid, h, pos)]
  {
    hide Width, CalcHash, AnyMatch, First, Last;
  }

  lemma BuildDescends(H: PairHash, vTxid: seq<Hash>, vMatch: seq<bool>, h: nat, pos: nat)
    requires h > 0 && pos < Width(|vTxid|, h) && AnyMatch(vMatch, First(h, pos), Last(|vTxid|, h, pos))
    ensures pos * 2 < Width(|vTxid|, h - 1)
    ensures BuildBits(|vTxid|, vMatch, h, pos) == [true] + BuildBits(|vTxid|, vMatch, h - 1, pos * 2) +
              if pos * 2 + 1 < Width(|vTxid|, h - 1) then BuildBits(|vTxid|, vMatch, h - 1, pos * 2 + 1) else []
    ensures BuildHashes(H, vTxid, vMatch, h, pos) == BuildHashes(H, vTxid, vMatch, h - 1, pos * 2) +
              if pos * 2 + 1 < Width(|vTxid|, h - 1) then BuildHashes(H, vTxid, vMatch, h - 1, pos * 2 + 1) else []
  {
    hide Width, CalcHash, AnyMatch, First, Last;
    WidthHalves(|vTxid|, h - 1);
  }

  lemma Concat4<T>(a: seq<T>, b: seq<T>, c: seq<T>, d: seq<T>)
    ensures a + b + c + d == a + (b + c + d) && a + (c + d) == a + c + d && a + [] == a
  {
  }

  // ---------------------------------------------------------------- decoding

  datatype Extracted = Extracted(hash: Hash, nBitsUsed: nat, nHashUsed: nat, vMatch: seq<Hash>, fBad: bool)

  /** TraverseAndExtract: after an overflow it goes on with hash 0, and only fBad tells. */
  function Extract(H: PairHash, n: nat, vBits: seq<bool>, vHash: seq<Hash>, h: nat, pos: nat, i: nat, j: nat): Extracted
    decreases h
  {
    if i >= |vBits| then Extracted(0, i, j, [], true)
    else if h == 0 || !vBits[i] then
      if j >= |vHash| then Extracted(0, i + 1, j, [], true)
      else Extracted(vHash[j], i + 1, j + 1, if h == 0 && vBits[i] then [vHash[j]] else [], false)
    else
      var l := Extract(H, n, vBits, vHash, h - 1, pos * 2, i + 1, j);
      if pos * 2 + 1 < Width(n, h - 1) then
        var r := Extract(H, n, vBits, vHash, h - 1, pos * 2 + 1, l.nBitsUsed, l.nHashUsed);
        Extracted(H(l.hash, r.hash), r.nBitsUsed, r.nHashUsed, l.vMatch + r.vMatch, l.fBad || r.fBad)
      else l.(hash := H(l.hash, l.hash))
  }

  // ---------------------------------------------------------------- the tree object

  class PartialMerkleTree {
    const H: PairHash
    var nTransactions: nat
    var vBits: seq<bool>
    var vHash: seq<Hash>
    var fBad: bool

    /** The tree of a block and of the transactions selected in it. */
    constructor FromBlock(H: PairHash, vTxid: seq<Hash>, vMatch: seq<bool>)
      requires |vMatch| == |vTxid| > 0
      ensures this.H == H && nTransactions == |vTxid| && !fBad
      ensures exists h :: IsHeight(|vTxid|, h) && Width(|vTxid|, h) == 1
                          && vBits == BuildBits(|vTxid|, vMatch, h, 0) && vHash == BuildHashes(H, vTxid, vMatch, h, 0)
    {
      this.H, nTransactions, fBad, vBits, vHash := H, |vTxid|, false, [], [];
      new;
      var nHeight := CalcHeight(nTransactions);
      RootExists(|vTxid|, nHeight);
      TraverseAndBuild(nHeight, 0, vTxid, vMatch);
    }

    /** A tree that is yet to be read. */
    constructor Empty(H: PairHash)
      ensures this.H == H && nTransactions == 0 && vBits == [] && vHash == [] && fBad
    {
      this.H, nTransactions, fBad, vBits, vHash := H, 0, true, [], [];
    }

    /** Whether a node is above at least one matched transaction. */
    method ParentOfMatch(height: nat, pos: nat, vMatch: seq<bool>) returns (fParentOfMatch: bool)
      requires |vMatch| == nTransactions && pos < Width(nTransactions, height)
      ensures fParentOfMatch <==> AnyMatch(vMatch, First(height, pos), Last(nTransactions, height, pos))
    {
      fParentOfMatch := false;
      NodeRange(nTransactions, height, pos);
      var p := First(height, pos);
      while p < First(height, pos + 1) && p < nTransactions
        invariant First(height, pos) <= p <= Last(nTransactions, height, pos)
        invariant fParentOfMatch <==> AnyMatch(vMatch, First(height, pos), p)
        decreases nTransactions - p
      {
        fParentOfMatch := fParentOfMatch || vMatch[p];
        p := p + 1;
      }
    }

    method TraverseAndBuild(height: nat, pos: nat, vTxid: seq<Hash>, vMatch: seq<bool>)
      requires |vTxid| == |vMatch| == nTransactions && pos < Width(nTransactions, height)
      modifies this`vBits, this`vHash
      ensures vBits == old(vBits) + BuildBits(nTransactions, vMatch, height, pos)
      ensures vHash == old(vHash) + BuildHashes(H, vTxid, vMatch, height, pos)
      decreases height
    {
      hide Width, CalcHash, BuildBits, BuildHashes, AnyMatch, First, Last;
      var fParentOfMatch := ParentOfMatch(height, pos, vMatch);
      ghost var bits, hashes := vBits, vHash;
      vBits := vBits + [fParentOfMatch];
      if height == 0 || !fParentOfMatch {
        BuildStops(H, vTxid, vMatch, height, pos);
        vHash := vHash + [CalcHash(H, vTxid, height, pos)];
      } else {
        BuildDescends(H, vTxid, vMatch, height, pos);
        TraverseAndBuild(height - 1, pos * 2, vTxid, vMatch);
        if pos * 2 + 1 < Width(nTransactions, height - 1) {
          TraverseAndBuild(height - 1, pos * 2 + 1, vTxid, vMatch);
          Concat4(bits, [true], BuildBits(nTransactions, vMatch, height - 1, pos * 2),
              BuildBits(nTransactions, vMatch, height - 1, pos * 2 + 1));
          Concat4(hashes, [], BuildHashes(H, vTxid, vMatch, height - 1, pos * 2),
              BuildHashes(H, vTxid, vMatch, height - 1, pos * 2 + 1));
        } else {
          Concat4(bits, [true], BuildBits(nTransactions, vMatch, height - 1, pos * 2), []);
          Concat4(hashes, [], BuildHashes(H, vTxid, vMatch, height - 1, pos * 2), []);
        }
      }
    }

    method TraverseAndExtract(height: nat, pos: nat, nBitsUsed0: nat, nHashUsed0: nat, vMatch0: seq<Hash>)
      returns (hash: Hash, nBitsUsed: nat, nHashUsed: nat, vMatch: seq<Hash>)
      modifies this`fBad
      ensures var r := Extract(H, nTransactions, vBits, vHash, height, pos, nBitsUsed0, nHashUsed0);
              hash == r.hash && nBitsUsed == r.nBitsUsed && nHashUsed == r.nHashUsed && vMatch == vMatch0 + r.vMatch
                  && fBad == (old(fBad) || r.fBad)
      decreases height
    {
      hide Width;
      nBitsUsed, nHashUsed, vMatch := nBitsUsed0, nHashUsed0, vMatch0;
      if nBitsUsed >= |vBits| {
        fBad := true;
        hash := 0;
        return;
      }
      var fParentOfMatch := vBits[nBitsUsed];
      nBitsUsed := nBitsUsed + 1;
      if height == 0 || !fParentOfMatch {
        if nHashUsed >= |vHash| {
          fBad := true;
          hash := 0;
          return;
        }
        hash := vHash[nHashUsed];
        nHashUsed := nHashUsed + 1;
        if height == 0 && fParentOfMatch {
          vMatch := vMatch + [hash];
        }
      } else {
        var left, right;
        left, nBitsUsed, nHashUsed, vMatch := TraverseAndExtract(height - 1, pos * 2, nBitsUsed, nHashUsed, vMatch);
        if pos * 2 + 1 < Width(nTransactions, height - 1) {
          ghost var l := Extract(H, nTransactions, vBits, vHash, height - 1, pos * 2, nBitsUsed0 + 1, nHashUsed0);
          Regrouped(vMatch0, l.vMatch, Extract(H, nTransactions, vBits, vHash, height - 1, pos * 2 + 1, nBitsUsed,
              nHashUsed).vMatch);
          right, nBitsUsed, nHashUsed, vMatch :=
              TraverseAndExtract(height - 1, pos * 2 + 1, nBitsUsed, nHashUsed, vMatch);
        } else {
          right := left;
        }
        hash := H(left, right);
      }
    }

    /** The tests of ExtractMatches before it looks at the tree. */
    ghost predicate Plausible()
      reads this
    {
      0 < nTransactions <= MAX_BLOCK_SIZE / 60 && |vHash| <= nTransactions && |vHash| <= |vBits|
    }

    /** What ExtractMatches accepts: nothing overflows, all hashes are used, and all bits but the padding. */
    ghost predicate Accepts(h: nat)
      reads this
    {
      && Plausible() && !fBad
      && var r := Extract(H, nTransactions, vBits, vHash, h, 0, 0, 0);
      !r.fBad && (r.nBitsUsed + 7) / 8 == (|vBits| + 7) / 8 && r.nHashUsed == |vHash|
    }

    method ExtractMatches() returns (root: Hash, vMatch: seq<Hash>, ghost nHeight: nat)
      modifies this`fBad
      ensures old(Plausible()) ==> IsHeight(nTransactions, nHeight)
      ensures old(Accepts(nHeight)) ==>
                var r := Extract(H, nTransactions, vBits, vHash, nHeight, 0, 0, 0);
                root == r.hash && vMatch == r.vMatch && fBad == old(fBad)
      ensures !old(Accepts(nHeight)) ==> root == 0
    {
      vMatch, root, nHeight := [], 0, 0;
      if nTransactions == 0 {
        return;
      }
      if nTransactions > MAX_BLOCK_SIZE / 60 {
        return;
      }
      if |vHash| > nTransactions {
        return;
      }
      if |vBits| < |vHash| {
        return;
      }
      var height := CalcHeight(nTransactions);
      nHeight := height;
      var hashMerkleRoot, nBitsUsed, nHashUsed;
      hashMerkleRoot, nBitsUsed, nHashUsed, vMatch := TraverseAndExtract(height, 0, 0, 0, vMatch);
      if fBad {
        return;
      }
      if (nBitsUsed + 7) / 8 != (|vBits| + 7) / 8 {
        return;
      }
      if nHashUsed != |vHash| {
        return;
      }
      root := hashMerkleRoot;
    }

    /** Writing: the bits are packed, least significant first. */
    method Serialize() returns (n: nat, hashes: seq<Hash>, vBytes: seq<bv8>)
      ensures n == nTransactions && hashes == vHash && Packed(vBits, vBytes)
    {
      hide BitOf;
      n, hashes := nTransactions, vHash;
      vBytes := seq((|vBits| + 7) / 8, _ => 0);
      NoBits(vBytes);
      for p := 0 to |vBits|
        invariant |vBytes| == (|vBits| + 7) / 8
        invariant forall q :: 0 <= q < 8 * |vBytes| ==> (BitOf(vBytes, q) <==> q < p && vBits[q])
      {
        BitWritten(vBytes, p, vBits[p]);
        ghost var before := vBytes;
        vBytes := vBytes[p / 8 := vBytes[p / 8] | (if vBits[p] then Mask(p % 8) else 0)];
        forall q | 0 <= q < 8 * |vBytes| ensures BitOf(vBytes, q) <==> q < p + 1 && vBits[q] {
          assert BitOf(vBytes, q) <==> BitOf(before, q) || (q == p && vBits[p]);
        }
      }
    }

    /** Reading. */
    method Deserialize(n: nat, hashes: seq<Hash>, vBytes: seq<bv8>)
      modifies this
      ensures nTransactions == n && vHash == hashes && !fBad
      ensures |vBits| == 8 * |vBytes| && forall p :: 0 <= p < |vBits| ==> (vBits[p] <==> BitOf(vBytes, p))
    {
      nTransactions, vHash := n, hashes;
      vBits := [];
      for p := 0 to 8 * |vBytes|
        invariant nTransactions == n && vHash == hashes && |vBits| == p && forall q :: 0 <= q < p ==>
            (vBits[q] <==> BitOf(vBytes, q))
      {
        vBits := vBits + [vBytes[p / 8] & Mask(p % 8) != 0];
      }
      fBad := false;
    }
  }

  lemma Regrouped(a: seq<Hash>, b: seq<Hash>, c: seq<Hash>)
    ensures a + (b + c) == a + b + c
  {
  }

  /** 1 << k. */
  function Mask(k: nat): bv8 {
    if k == 0 then 1 else if k == 1 then 2 else if k == 2 then 4 else if k == 3 then 8
    else if k == 4 then 16 else if k == 5 then 32 else if k == 6 then 64 else 128
  }

  predicate BitOf(vBytes: seq<bv8>, p: nat)
    requires p < 8 * |vBytes|
  {
    vBytes[p / 8] & Mask(p % 8) != 0
  }

  ghost predicate Packed(vBits: seq<bool>, vBytes: seq<bv8>) {
    |vBytes| == (|vBits| + 7) / 8 && forall p :: 0 <= p < 8 * |vBytes| ==>
        (BitOf(vBytes, p) <==> p < |vBits| && vBits[p])
  }

  lemma NoBits(vBytes: seq<bv8>)
    requires forall p | 0 <= p < |vBytes| :: vBytes[p] == 0
    ensures forall q :: 0 <= q < 8 * |vBytes| ==> !BitOf(vBytes, q)
  {
  }

  lemma BitWritten(vBytes: seq<bv8>, p: nat, bit: bool)
    requires p < 8 * |vBytes|
    ensures var written := vBytes[p / 8 := vBytes[p / 8] | (if bit then Mask(p % 8) else 0)];
            forall q :: 0 <= q < 8 * |vBytes| ==> (BitOf(written, q) <==> BitOf(vBytes, q) || (q == p && bit))
  {
    hide Mask, BitOf;
    var written := vBytes[p / 8 := vBytes[p / 8] | (if bit then Mask(p % 8) else 0)];
    forall q | 0 <= q < 8 * |vBytes| ensures BitOf(written, q) <==> BitOf(vBytes, q) || (q == p && bit) {
      BitWrittenAt(vBytes, p, bit, q);
    }
  }

  lemma BitWrittenAt(vBytes: seq<bv8>, p: nat, bit: bool, q: nat)
    requires p < 8 * |vBytes| && q < 8 * |vBytes|
    ensures var written := vBytes[p / 8 := vBytes[p / 8] | (if bit then Mask(p % 8) else 0)];
            BitOf(written, q) <==> BitOf(vBytes, q) || (q == p && bit)
  {
    hide Mask;
    if p / 8 == q / 8 {
      SameByte(p, q);
      SetBit(vBytes[p / 8], p % 8, q % 8);
    }
  }

  lemma SameByte(p: nat, q: nat)
    requires p / 8 == q / 8
    ensures p % 8 == q % 8 <==> p == q
  {
  }

  lemma SetBit(b: bv8, k: nat, j: nat)
    requires k < 8 && j < 8
    ensures (b | Mask(k)) & Mask(j) != 0 <==> b & Mask(j) != 0 || j == k
    ensures b | 0 == b
  {
    OneBit(b, 1); OneBit(b, 2); OneBit(b, 4); OneBit(b, 8); OneBit(b, 16); OneBit(b, 32); OneBit(b, 64); OneBit(b, 128);
  }

  lemma OneBit(b: bv8, m: bv8)
    requires m == 1 || m == 2 || m == 4 || m == 8 || m == 16 || m == 32 || m == 64 || m == 128
    ensures (b | m) & 1 != 0 <==> b & 1 != 0 || m == 1
    ensures (b | m) & 2 != 0 <==> b & 2 != 0 || m == 2
    ensures (b | m) & 4 != 0 <==> b & 4 != 0 || m == 4
    ensures (b | m) & 8 != 0 <==> b & 8 != 0 || m == 8
    ensures (b | m) & 16 != 0 <==> b & 16 != 0 || m == 16
    ensures (b | m) & 32 != 0 <==> b & 32 != 0 || m == 32
    ensures (b | m) & 64 != 0 <==> b & 64 != 0 || m == 64
    ensures (b | m) & 128 != 0 <==> b & 128 != 0 || m == 128
  {
  }

  // ---------------------------------------------------------------- decoding what was encoded

  /** The stream s holds `part` from place i on. */
  ghost predicate At<T>(s: seq<T>, i: nat, part: seq<T>) { i + |part| <= |s| && s[i..i + |part|] == part }

  lemma AtParts<T>(s: seq<T>, i: nat, a: seq<T>, b: seq<T>)
    requires At(s, i, a + b)
    ensures At(s, i, a) && At(s, i + |a|, b)
  {
    var whole := s[i..i + |a + b|];
    assert whole[..|a|] == a && whole[|a|..] == b;
    assert s[i..i + |a|] == whole[..|a|];
    assert s[i + |a|..i + |a| + |b|] == whole[|a|..];
  }

  lemma AtFirst<T>(s: seq<T>, i: nat, x: T)
    requires At(s, i, [x])
    ensures i < |s| && s[i] == x
  {
    assert s[i..i + 1][0] == s[i];
  }

  /** Decoding at i and j gives the hash of the node and the matched ids below it, and uses up the part
      that was encoded for it. */
  ghost predicate Decodes(H: PairHash, vTxid: seq<Hash>, vMatch: seq<bool>, vBits: seq<bool>, vHash: seq<Hash>, h: nat,
      pos: nat, i: nat, j: nat)
    requires |vTxid| == |vMatch| && pos < Width(|vTxid|, h)
  {
    var r := Extract(H, |vTxid|, vBits, vHash, h, pos, i, j);
    && r.hash == CalcHash(H, vTxid, h, pos) && !r.fBad
    && r.nBitsUsed == i + |BuildBits(|vTxid|, vMatch, h, pos)|
        && r.nHashUsed == j + |BuildHashes(H, vTxid, vMatch, h, pos)|
    && r.vMatch == Selected(vTxid, vMatch, First(h, pos), Last(|vTxid|, h, pos))
  }

  lemma DecodesLeaf(H: PairHash, vTxid: seq<Hash>, vMatch: seq<bool>, vBits: seq<bool>, vHash: seq<Hash>, h: nat,
      pos: nat, i: nat, j: nat)
    requires |vTxid| == |vMatch| && pos < Width(|vTxid|, h)
        && (h == 0 || !AnyMatch(vMatch, First(h, pos), Last(|vTxid|, h, pos)))
    requires At(vBits, i, BuildBits(|vTxid|, vMatch, h, pos)) && At(vHash, j, BuildHashes(H, vTxid, vMatch, h, pos))
    ensures Decodes(H, vTxid, vMatch, vBits, vHash, h, pos, i, j)
  {
    hide Width, BuildBits, BuildHashes, First, Last, AnyMatch, At, Selected, CalcHash;
    NodeRange(|vTxid|, h, pos);
    var lo, hi := First(h, pos), Last(|vTxid|, h, pos);
    BuildStops(H, vTxid, vMatch, h, pos);
    AtFirst(vBits, i, AnyMatch(vMatch, lo, hi));
    AtFirst(vHash, j, CalcHash(H, vTxid, h, pos));
    SelectedNone(vTxid, vMatch, lo, hi);
    if h == 0 {
      OneLeaf(H, vTxid, vMatch, pos);
    }
  }

  lemma DecodesTwo(H: PairHash, vTxid: seq<Hash>, vMatch: seq<bool>, vBits: seq<bool>, vHash: seq<Hash>, h: nat,
      pos: nat, i: nat, j: nat)
    requires h > 0 && |vTxid| == |vMatch| && pos < Width(|vTxid|, h)
        && AnyMatch(vMatch, First(h, pos), Last(|vTxid|, h, pos))
    requires pos * 2 + 1 < Width(|vTxid|, h - 1) && i < |vBits| && vBits[i]
    requires Decodes(H, vTxid, vMatch, vBits, vHash, h - 1, pos * 2, i + 1, j)
    requires var l := Extract(H, |vTxid|, vBits, vHash, h - 1, pos * 2, i + 1, j);
             Decodes(H, vTxid, vMatch, vBits, vHash, h - 1, pos * 2 + 1, l.nBitsUsed, l.nHashUsed)
    ensures Decodes(H, vTxid, vMatch, vBits, vHash, h, pos, i, j)
  {
    hide Width, BuildBits, BuildHashes, First, Last, AnyMatch, Selected;
    BuildDescends(H, vTxid, vMatch, h, pos);
    ChildRanges(|vTxid|, h, pos);
    NodeRange(|vTxid|, h, pos);
    NodeRange(|vTxid|, h - 1, pos * 2);
    NodeRange(|vTxid|, h - 1, pos * 2 + 1);
    SelectedSplit(vTxid, vMatch, First(h, pos), First(h - 1, pos * 2 + 1), Last(|vTxid|, h, pos));
  }

  lemma DecodesOne(H: PairHash, vTxid: seq<Hash>, vMatch: seq<bool>, vBits: seq<bool>, vHash: seq<Hash>, h: nat,
      pos: nat, i: nat, j: nat)
    requires h > 0 && |vTxid| == |vMatch| && pos < Width(|vTxid|, h)
        && AnyMatch(vMatch, First(h, pos), Last(|vTxid|, h, pos))
    requires pos * 2 + 1 >= Width(|vTxid|, h - 1) && pos * 2 < Width(|vTxid|, h - 1) && i < |vBits| && vBits[i]
    requires Decodes(H, vTxid, vMatch, vBits, vHash, h - 1, pos * 2, i + 1, j)
    ensures Decodes(H, vTxid, vMatch, vBits, vHash, h, pos, i, j)
  {
    hide Width, BuildBits, BuildHashes, First, Last, AnyMatch, Selected;
    BuildDescends(H, vTxid, vMatch, h, pos);
    ChildRanges(|vTxid|, h, pos);
  }

  /** Whatever was encoded for a node is decoded, wherever it stands in the streams. */
  lemma {:induction false} ExtractBuilt(H: PairHash, vTxid: seq<Hash>, vMatch: seq<bool>, vBits: seq<bool>,
      vHash: seq<Hash>, h: nat, pos: nat, i: nat, j: nat)
    requires |vTxid| == |vMatch| && pos < Width(|vTxid|, h)
    requires At(vBits, i, BuildBits(|vTxid|, vMatch, h, pos)) && At(vHash, j, BuildHashes(H, vTxid, vMatch, h, pos))
    ensures Decodes(H, vTxid, vMatch, vBits, vHash, h, pos, i, j)
    decreases h
  {
    hide Width, BuildBits, BuildHashes, First, Last, AnyMatch, At, Selected, Decodes, CalcHash, Extract;
    var n := |vTxid|;
    if h == 0 || !AnyMatch(vMatch, First(h, pos), Last(n, h, pos)) {
      DecodesLeaf(H, vTxid, vMatch, vBits, vHash, h, pos, i, j);
    } else {
      BuildDescends(H, vTxid, vMatch, h, pos);
      var bl, hl := BuildBits(n, vMatch, h - 1, pos * 2), BuildHashes(H, vTxid, vMatch, h - 1, pos * 2);
      if pos * 2 + 1 < Width(n, h - 1) {
        var br, hr := BuildBits(n, vMatch, h - 1, pos * 2 + 1), BuildHashes(H, vTxid, vMatch, h - 1, pos * 2 + 1);
        ThreeParts(vBits, i, true, bl, br);
        AtParts(vHash, j, hl, hr);
        ExtractBuilt(H, vTxid, vMatch, vBits, vHash, h - 1, pos * 2, i + 1, j);
        ExtractBuilt(H, vTxid, vMatch, vBits, vHash, h - 1, pos * 2 + 1, i + 1 + |bl|, j + |hl|);
        Used(H, vTxid, vMatch, vBits, vHash, h - 1, pos * 2, i + 1, j);
        DecodesTwo(H, vTxid, vMatch, vBits, vHash, h, pos, i, j);
      } else {
        assert hl + [] == hl;
        ThreeParts(vBits, i, true, bl, []);
        ExtractBuilt(H, vTxid, vMatch, vBits, vHash, h - 1, pos * 2, i + 1, j);
        DecodesOne(H, vTxid, vMatch, vBits, vHash, h, pos, i, j);
      }
    }
  }

  lemma Used(H: PairHash, vTxid: seq<Hash>, vMatch: seq<bool>, vBits: seq<bool>, vHash: seq<Hash>, h: nat, pos: nat,
      i: nat, j: nat)
    requires |vTxid| == |vMatch| && pos < Width(|vTxid|, h) && Decodes(H, vTxid, vMatch, vBits, vHash, h, pos, i, j)
    ensures var r := Extract(H, |vTxid|, vBits, vHash, h, pos, i, j);
            r.nBitsUsed == i + |BuildBits(|vTxid|, vMatch, h, pos)|
                && r.nHashUsed == j + |BuildHashes(H, vTxid, vMatch, h, pos)|
  {
  }

  lemma OneLeaf(H: PairHash, vTxid: seq<Hash>, vMatch: seq<bool>, pos: nat)
    requires |vTxid| == |vMatch| && pos < Width(|vTxid|, 0)
    ensures pos < |vTxid| && First(0, pos) == pos && Last(|vTxid|, 0, pos) == pos + 1
    ensures AnyMatch(vMatch, pos, pos + 1) == vMatch[pos]
    ensures Selected(vTxid, vMatch, pos, pos + 1) == if vMatch[pos] then [vTxid[pos]] else []
    ensures CalcHash(H, vTxid, 0, pos) == vTxid[pos]
  {
    WidthZero(|vTxid|);
    assert Pow2(0) == 1;
    assert Selected(vTxid, vMatch, pos, pos) == [];
  }

  lemma ThreeParts(vBits: seq<bool>, i: nat, f: bool, a: seq<bool>, b: seq<bool>)
    requires At(vBits, i, [f] + a + b)
    ensures i < |vBits| && vBits[i] == f && At(vBits, i + 1, a) && At(vBits, i + 1 + |a|, b)
  {
    AtParts(vBits, i, [f] + a, b);
    AtParts(vBits, i, [f], a);
    AtFirst(vBits, i, f);
  }

  // ---------------------------------------------------------------- sizes

  /** A node takes one hash or as many as its children; one bit for every hash, one for every node that is
      descended into; so two bits for each hash but one, and one more for every only child. */
  lemma {:induction false} BuiltSizes(H: PairHash, vTxid: seq<Hash>, vMatch: seq<bool>, h: nat, pos: nat)
    requires |vTxid| == |vMatch| && pos < Width(|vTxid|, h)
    ensures First(h, pos) < Last(|vTxid|, h, pos) <= |vTxid|
    ensures 1 <= |BuildHashes(H, vTxid, vMatch, h, pos)| <= Last(|vTxid|, h, pos) - First(h, pos)
    ensures |BuildBits(|vTxid|, vMatch, h, pos)|
        == 2 * |BuildHashes(H, vTxid, vMatch, h, pos)| - 1 + OneChild(|vTxid|, vMatch, h, pos)
    decreases h
  {
    hide Width, BuildBits, BuildHashes, First, Last, AnyMatch, CalcHash;
    var n := |vTxid|;
    NodeRange(n, h, pos);
    if h == 0 || !AnyMatch(vMatch, First(h, pos), Last(n, h, pos)) {
      BuildStops(H, vTxid, vMatch, h, pos);
    } else {
      BuildDescends(H, vTxid, vMatch, h, pos);
      ChildRanges(n, h, pos);
      BuiltSizes(H, vTxid, vMatch, h - 1, pos * 2);
      if pos * 2 + 1 < Width(n, h - 1) {
        BuiltSizes(H, vTxid, vMatch, h - 1, pos * 2 + 1);
      }
    }
  }

  /** N <= 1 + matched_transactions * tree_height. */
  lemma {:induction false} HashesPerMatch(H: PairHash, vTxid: seq<Hash>, vMatch: seq<bool>, h: nat, pos: nat)
    requires |vTxid| == |vMatch| && pos < Width(|vTxid|, h)
    ensures Last(|vTxid|, h, pos) <= |vTxid|
    ensures |BuildHashes(H, vTxid, vMatch, h, pos)| <= 1 +
        |Selected(vTxid, vMatch, First(h, pos), Last(|vTxid|, h, pos))| * h
    decreases h
  {
    hide Width, BuildBits, BuildHashes, First, Last, AnyMatch, CalcHash, Selected;
    var n := |vTxid|;
    NodeRange(n, h, pos);
    var lo, hi := First(h, pos), Last(n, h, pos);
    SelectedNone(vTxid, vMatch, lo, hi);
    var m := |Selected(vTxid, vMatch, lo, hi)|;
    if h == 0 || !AnyMatch(vMatch, lo, hi) {
      BuildStops(H, vTxid, vMatch, h, pos);
    } else {
      BuildDescends(H, vTxid, vMatch, h, pos);
      ChildRanges(n, h, pos);
      HashesPerMatch(H, vTxid, vMatch, h - 1, pos * 2);
      if pos * 2 + 1 < Width(n, h - 1) {
        HashesPerMatch(H, vTxid, vMatch, h - 1, pos * 2 + 1);
        NodeRange(n, h - 1, pos * 2);
        NodeRange(n, h - 1, pos * 2 + 1);
        var mid := First(h - 1, pos * 2 + 1);
        SelectedSplit(vTxid, vMatch, lo, mid, hi);
        var m1, m2 := |Selected(vTxid, vMatch, lo, mid)|, |Selected(vTxid, vMatch, mid, hi)|;
        assert m1 * (h - 1) + m2 * (h - 1) == m * (h - 1) == m * h - m;
      } else {
        assert m * (h - 1) == m * h - m;
      }
    }
  }

  /** Only nodes at the right edge can have one child, so there is at most one of them at every height. */
  lemma {:induction false} OneChildBound(n: nat, vMatch: seq<bool>, h: nat, pos: nat)
    requires pos < Width(n, h)
    ensures OneChild(n, vMatch, h, pos) <= if pos + 1 < Width(n, h) then 0 else h
    decreases h
  {
    hide Width, First, Last, AnyMatch;
    if h > 0 {
      WidthHalves(n, h - 1);
      OneChildBound(n, vMatch, h - 1, pos * 2);
      if pos * 2 + 1 < Width(n, h - 1) {
        OneChildBound(n, vMatch, h - 1, pos * 2 + 1);
      }
    }
  }

  /** Some transaction is matched below the last node of height k, and that node has one child. */
  ghost predicate LonelyMatch(n: nat, vMatch: seq<bool>, k: nat)
    requires n > 0 && k > 0
  {
    RootExists(n, k);
    Width(n, k - 1) % 2 == 1 && AnyMatch(vMatch, First(k, Width(n, k) - 1), n)
  }

  lemma {:induction false} EdgeNests(n: nat, k: nat, h: nat)
    requires n > 0 && k <= h
    ensures Width(n, k) > 0 && Width(n, h) > 0 && First(h, Width(n, h) - 1) <= First(k, Width(n, k) - 1)
    decreases h
  {
    hide Width, First;
    RootExists(n, k);
    RootExists(n, h);
    if k < h {
      EdgeNests(n, k, h - 1);
      WidthHalves(n, h - 1);
      var pos := Width(n, h) - 1;
      ChildRanges(n, h, pos);
    }
  }

  lemma {:induction false} OneChildExactly(n: nat, vMatch: seq<bool>, h: nat)
    requires n == |vMatch| > 0
    ensures Width(n, h) > 0
    ensures OneChild(n, vMatch, h, Width(n, h) - 1) == 0 <==> forall k | 1 <= k <= h :: !LonelyMatch(n, vMatch, k)
    decreases h
  {
    hide Width, First, Last, AnyMatch, LonelyMatch;
    RootExists(n, h);
    if h > 0 {
      var pos := Width(n, h) - 1;
      WidthHalves(n, h - 1);
      OneChildExactly(n, vMatch, h - 1);
      LastIsEnd(n, h);
      LonelyIs(n, vMatch, h);
      if !AnyMatch(vMatch, First(h, pos), n) {
        forall k | 1 <= k <= h ensures !LonelyMatch(n, vMatch, k) {
          EdgeNests(n, k, h);
          LonelyIs(n, vMatch, k);
          FewerMatches(vMatch, First(h, pos), First(k, Width(n, k) - 1), n);
        }
      } else if pos * 2 + 1 < Width(n, h - 1) {
        OneChildBound(n, vMatch, h - 1, pos * 2);
      }
    }
  }

  lemma LastIsEnd(n: nat, h: nat)
    requires n > 0
    ensures Width(n, h) > 0 && Last(n, h, Width(n, h) - 1) == n
  {
    RootExists(n, h);
    WidthIs(n, h);
    NodeRange(n, h, Width(n, h) - 1);
  }

  lemma LonelyIs(n: nat, vMatch: seq<bool>, k: nat)
    requires n > 0 && k > 0
    ensures Width(n, k) > 0
    ensures LonelyMatch(n, vMatch, k) <==> Width(n, k - 1) % 2 == 1 && AnyMatch(vMatch, First(k, Width(n, k) - 1), n)
  {
    RootExists(n, k);
  }

  lemma FewerMatches(vMatch: seq<bool>, a: nat, b: nat, hi: nat)
    requires a <= b && !AnyMatch(vMatch, a, hi)
    ensures !AnyMatch(vMatch, b, hi)
  {
  }

  /** The documented bound on the flag bits, 2*N-1 for N hashes, holds exactly if no matched transaction is
      below an only child; 2*N-1 plus the height is always enough. */
  lemma BitsBound(H: PairHash, vTxid: seq<Hash>, vMatch: seq<bool>, nHeight: nat)
    requires |vTxid| == |vMatch| > 0 && IsHeight(|vTxid|, nHeight) && Width(|vTxid|, nHeight) == 1
    ensures var nBits, nHashes := |BuildBits(|vTxid|, vMatch, nHeight, 0)|, |BuildHashes(H, vTxid, vMatch, nHeight, 0)|;
            && (nBits <= 2 * nHashes - 1 <==> forall k | 1 <= k <= nHeight :: !LonelyMatch(|vTxid|, vMatch, k))
            && nBits <= 2 * nHashes - 1 + nHeight && nHashes <= |vTxid|
  {
    hide BuildBits, BuildHashes, OneChild, LonelyMatch;
    BuiltSizes(H, vTxid, vMatch, nHeight, 0);
    OneChildExactly(|vTxid|, vMatch, nHeight);
    OneChildBound(|vTxid|, vMatch, nHeight, 0);
    LastIsEnd(|vTxid|, nHeight);
  }

  lemma ThreeLeaves()
    ensures Width(3, 0) == 3 && Width(3, 1) == 2 && Width(3, 2) == 1 && First(1, 1) == 2
  {
    assert Pow2(0) == 1 && Pow2(1) == 2 && Pow2(2) == 4;
  }

  /** Three transactions of which the last is matched: four bits for two hashes. */
  lemma BitsBoundFails(H: PairHash, vTxid: seq<Hash>)
    requires |vTxid| == 3
    ensures IsHeight(3, 2) && Width(3, 2) == 1
    ensures |BuildBits(3, [false, false, true], 2, 0)| > 2 * |BuildHashes(H, vTxid, [false, false, true], 2, 0)| - 1
  {
    hide BuildBits, BuildHashes, Width, First, LonelyMatch;
    var vMatch := [false, false, true];
    ThreeLeaves();
    assert vMatch[2] && AnyMatch(vMatch, First(1, 1), 3);
    LonelyIs(3, vMatch, 1);
    BitsBound(H, vTxid, vMatch, 2);
    assert LonelyMatch(3, vMatch, 1);
  }

  // ---------------------------------------------------------------- what a decoded tree proves

  ghost predicate Increasing(ps: seq<nat>) { forall a, b | 0 <= a < b < |ps| :: ps[a] < ps[b] }

  /** The ids are those of transactions between lo and hi, in their order. */
  ghost predicate TrueIds(vTxid: seq<Hash>, ids: seq<Hash>, ps: seq<nat>, lo: nat, hi: nat) {
    |ids| == |ps| && Increasing(ps) && forall k | 0 <= k < |ps| ::
                                         lo <= ps[k] < hi && ps[k] < |vTxid| && ids[k] == vTxid[ps[k]]
  }

  lemma TrueIdsConcat(vTxid: seq<Hash>, a: seq<Hash>, pa: seq<nat>, b: seq<Hash>, pb: seq<nat>, lo: nat, mid: nat,
      hi: nat)
    requires TrueIds(vTxid, a, pa, lo, mid) && TrueIds(vTxid, b, pb, mid, hi) && lo <= mid <= hi
    ensures TrueIds(vTxid, a + b, pa + pb, lo, hi)
  {
  }

  /** Any bits and hashes, not just encoded ones: if they decode to the hash of a node then every id they
      give is the id of a transaction below it, at increasing positions. */
  lemma {:induction false} ExtractSound(H: PairHash, vTxid: seq<Hash>, vBits: seq<bool>, vHash: seq<Hash>, h: nat,
      pos: nat, i: nat, j: nat) returns (ps: seq<nat>)
    requires Injective(H) && pos < Width(|vTxid|, h)
    requires !Extract(H, |vTxid|, vBits, vHash, h, pos, i, j).fBad
        && Extract(H, |vTxid|, vBits, vHash, h, pos, i, j).hash == CalcHash(H, vTxid, h, pos)
    ensures TrueIds(vTxid, Extract(H, |vTxid|, vBits, vHash, h, pos, i, j).vMatch, ps, First(h, pos),
        Last(|vTxid|, h, pos))
    decreases h
  {
    hide Width, First, Last, TrueIds;
    var n := |vTxid|;
    NodeRange(n, h, pos);
    if h == 0 {
      WidthZero(n);
      ps := if vBits[i] then [pos] else [];
      LeafIsTrue(vTxid, pos, if vBits[i] then [CalcHash(H, vTxid, 0, pos)] else [], ps);
    } else if !vBits[i] {
      ps := [];
      NoIds(vTxid, First(h, pos), Last(n, h, pos));
    } else {
      ChildRanges(n, h, pos);
      var l := Extract(H, n, vBits, vHash, h - 1, pos * 2, i + 1, j);
      ps := ExtractSound(H, vTxid, vBits, vHash, h - 1, pos * 2, i + 1, j);
      if pos * 2 + 1 < Width(n, h - 1) {
        NodeRange(n, h - 1, pos * 2);
        NodeRange(n, h - 1, pos * 2 + 1);
        var right := ExtractSound(H, vTxid, vBits, vHash, h - 1, pos * 2 + 1, l.nBitsUsed, l.nHashUsed);
        TrueIdsConcat(vTxid, l.vMatch, ps,
            Extract(H, n, vBits, vHash, h - 1, pos * 2 + 1, l.nBitsUsed, l.nHashUsed).vMatch, right,
            First(h, pos), First(h - 1, pos * 2 + 1), Last(n, h, pos));
        ps := ps + right;
      }
    }
  }

  lemma LeafIsTrue(vTxid: seq<Hash>, pos: nat, ids: seq<Hash>, ps: seq<nat>)
    requires pos < Width(|vTxid|, 0)
    requires (ids == [] && ps == []) || (pos < |vTxid| && ids == [vTxid[pos]] && ps == [pos])
    ensures TrueIds(vTxid, ids, ps, First(0, pos), Last(|vTxid|, 0, pos))
  {
    WidthZero(|vTxid|);
    assert Pow2(0) == 1;
  }

  lemma NoIds(vTxid: seq<Hash>, lo: nat, hi: nat)
    ensures TrueIds(vTxid, [], [], lo, hi)
  {
  }

  /** What a client does that trusts a Merkle root and knows how many transactions the block has. */
  method ExtractTrusted(tree: PartialMerkleTree, trusted: Hash, ghost vTxid: seq<Hash>, ghost nHeight: nat)
    returns (ok: bool, vMatch: seq<Hash>, ghost ps: seq<nat>)
    requires Injective(tree.H) && trusted != 0 && |vTxid| == tree.nTransactions > 0
    requires IsHeight(|vTxid|, nHeight) && Width(|vTxid|, nHeight) == 1
        && trusted == CalcHash(tree.H, vTxid, nHeight, 0)
    modifies tree`fBad
    ensures ok ==> TrueIds(vTxid, vMatch, ps, 0, |vTxid|)
  {
    hide Width, Extract, CalcHash, Injective, TrueIds, IsHeight;
    var root;
    ghost var h;
    root, vMatch, h := tree.ExtractMatches();
    ok, ps := root == trusted, [];
    if ok {
      HeightUnique(|vTxid|, h, nHeight);
      ps := ExtractSound(tree.H, vTxid, tree.vBits, tree.vHash, nHeight, 0, 0, 0);
      LastIsEnd(|vTxid|, nHeight);
      assert First(nHeight, 0) == 0;
    }
  }

  // ---------------------------------------------------------------- the round trip

  /** A tree that is built, written, read and decoded gives the Merkle root and exactly the selected ids, in
      the order of the block; every test on the way passes. */
  method RoundTrip(H: PairHash, vTxid: seq<Hash>, vMatch: seq<bool>) returns (root: Hash, matches: seq<Hash>,
      ghost nHeight: nat)
    requires 0 < |vTxid| == |vMatch| <= MAX_BLOCK_SIZE / 60
    ensures IsHeight(|vTxid|, nHeight) && Width(|vTxid|, nHeight) == 1
    ensures root == CalcHash(H, vTxid, nHeight, 0) && matches == Selected(vTxid, vMatch, 0, |vTxid|)
  {
    hide Width, Extract, CalcHash, BuildBits, BuildHashes, Selected, BitOf;
    var tree := new PartialMerkleTree.FromBlock(H, vTxid, vMatch);
    ghost var h :| IsHeight(|vTxid|, h) && Width(|vTxid|, h) == 1
             && tree.vBits == BuildBits(|vTxid|, vMatch, h, 0) && tree.vHash == BuildHashes(H, vTxid, vMatch, h, 0);
    var n, hashes, vBytes := tree.Serialize();
    var other := new PartialMerkleTree.Empty(H);
    other.Deserialize(n, hashes, vBytes);
    Unpacked(tree.vBits, vBytes, other.vBits);
    DecodesAll(H, vTxid, vMatch, h, other.vBits, other.vHash);
    ghost var k;
    root, matches, k := other.ExtractMatches();
    HeightUnique(|vTxid|, h, k);
    nHeight := h;
  }

  lemma Unpacked(vBits: seq<bool>, vBytes: seq<bv8>, read: seq<bool>)
    requires Packed(vBits, vBytes) && |read| == 8 * |vBytes| && forall p :: 0 <= p < |read| ==>
        (read[p] <==> BitOf(vBytes, p))
    ensures |vBits| <= |read| && (|read| + 7) / 8 == (|vBits| + 7) / 8 && read[..|vBits|] == vBits
  {
    hide BitOf;
    forall p | 0 <= p < |vBits| ensures read[p] == vBits[p] {
      assert read[p] <==> BitOf(vBytes, p);
    }
  }

  lemma DecodesAll(H: PairHash, vTxid: seq<Hash>, vMatch: seq<bool>, h: nat, vBits: seq<bool>, vHash: seq<Hash>)
    requires |vTxid| == |vMatch| > 0 && IsHeight(|vTxid|, h) && Width(|vTxid|, h) == 1
    requires var built := BuildBits(|vTxid|, vMatch, h, 0);
             |built| <= |vBits| && (|vBits| + 7) / 8 == (|built| + 7) / 8 && vBits[..|built|] == built
    requires vHash == BuildHashes(H, vTxid, vMatch, h, 0)
    ensures |vHash| <= |vTxid| && |vHash| <= |vBits|
    ensures var r := Extract(H, |vTxid|, vBits, vHash, h, 0, 0, 0);
            && !r.fBad && (r.nBitsUsed + 7) / 8 == (|vBits| + 7) / 8 && r.nHashUsed == |vHash|
            && r.hash == CalcHash(H, vTxid, h, 0) && r.vMatch == Selected(vTxid, vMatch, 0, |vTxid|)
  {
    hide Width, Extract, CalcHash, BuildBits, BuildHashes, Selected, OneChild;
    BuiltSizes(H, vTxid, vMatch, h, 0);
    assert vBits[0..0 + |BuildBits(|vTxid|, vMatch, h, 0)|] == BuildBits(|vTxid|, vMatch, h, 0);
    assert vHash[0..0 + |vHash|] == vHash;
    ExtractBuilt(H, vTxid, vMatch, vBits, vHash, h, 0, 0, 0);
    LastIsEnd(|vTxid|, h);
    assert First(h, 0) == 0;
  }
}
