/** The node's view of the block tree: the best block, the links along the main chain and the
    coin state, and how SetBestChain moves them. */
module ChainState {
  import opened Coins
  import opened Utxo
  import opened CoinsViews
  import opened BlockConnect
  import opened Storage
  import opened BlockTree

  ghost predicate Tree(r: Rules, index: map<nat, BlockIndex>) {
    && (forall h | h in index :: index[h].block.hash == h)
    && forall b | b in index.Values ::
         && (b.pprev == null <==> b.block.hash == r.genesisHash)
         && (b.pprev != null ==> b.pprev in index.Values)
         && WellFounded(b)
  }

  lemma TreeGrows(r: Rules, index: map<nat, BlockIndex>, b: BlockIndex)
    requires Tree(r, index) && b.block.hash !in index
    requires (b.pprev == null <==> b.block.hash == r.genesisHash) && (b.pprev != null ==> b.pprev in index.Values)
    requires Rank(b) == Rank(b.pprev) + 1
    ensures Tree(r, index[b.block.hash := b]) && WellFounded(b)
    ensures index[b.block.hash := b].Values == index.Values + {b}
  {
    var next := index[b.block.hash := b];
    assert forall k | k in index :: next[k] == index[k];
    assert next[b.block.hash] == b;
    assert b.pprev != null ==> WellFounded(b.pprev);
    assert next.Values == index.Values + {b};
    forall x | x in next.Values
      ensures (x.pprev == null <==> x.block.hash == r.genesisHash) && (x.pprev != null ==> x.pprev in next.Values)
          && WellFounded(x)
    {
      if x != b {
        assert x in index.Values;
      }
    }
  }

  class ChainState {
    const rules: Rules
    const pcoinsTip: CoinsView
    var mapBlockIndex: map<nat, BlockIndex>
    var pindexGenesisBlock: BlockIndex?
    var pindexBest: BlockIndex?
    var nBestHeight: int
    var pblockindexFBBHLast: BlockIndex?

    /** Only the genesis block has no predecessor, and predecessors are known. */
    ghost predicate TreeOk()
      reads this`mapBlockIndex
    {
      Tree(rules, mapBlockIndex)
    }

    /** Undo data on disk is what the undo file gives back of what connecting the block to its ancestors produces,
        and then the money supply is the value of all unspent outputs. */
    ghost predicate RecordOk(b: BlockIndex)
      reads b`undo, b`nMoneySupply
    {
      if b.pprev == null then b.undo.None? && b.nMoneySupply == 0
      else b.undo.Some? ==>
             && Connected(rules, b).Some?
             && b.undo.value == UndoFile(rules, b)
             && b.nMoneySupply == Total(Connected(rules, b).value.utxo)
    }

    /** `pnext` is set exactly on the proper ancestors of `best`, and leads towards it. */
    ghost predicate LinkOk(b: BlockIndex, best: BlockIndex?)
      reads b`pnext
    {
      if Reaches(best, b) && b != best then b.pnext != null && b.pnext.pprev == b && Reaches(best, b.pnext)
      else b.pnext == null
    }

    ghost predicate RecordsOk(blocks: set<BlockIndex>, best: BlockIndex?)
      reads blocks`undo, blocks`nMoneySupply
    {
      forall b | b in blocks :: RecordOk(b) && (Reaches(best, b) && b.pprev != null ==> b.undo.Some?)
    }

    ghost predicate LinksOk(blocks: set<BlockIndex>, best: BlockIndex?)
      reads blocks`pnext
    {
      forall b | b in blocks :: LinkOk(b, best)
    }

    /** Everything but the links. */
    ghost predicate CoinsOk(best: BlockIndex?)
      reads this`mapBlockIndex, mapBlockIndex.Values`undo, mapBlockIndex.Values`nMoneySupply, pcoinsTip.Repr()
    {
      && TreeOk() && pcoinsTip.Layered() && pcoinsTip.base != null
      && (best != null ==> best in mapBlockIndex.Values)
      && pcoinsTip.Best() == best
      && Holds(rules, best, UtxoOf(pcoinsTip))
      && RecordsOk(mapBlockIndex.Values, best)
    }

    ghost predicate Valid()
      reads this, mapBlockIndex.Values`pnext, mapBlockIndex.Values`undo, mapBlockIndex.Values`nMoneySupply,
          pcoinsTip.Repr()
    {
      && CoinsOk(pindexBest)
      && LinksOk(mapBlockIndex.Values, pindexBest)
      && (pindexBest != null ==> nBestHeight == pindexBest.nHeight)
      && (pindexBest != null ==> GenesisOf(pindexBest))
      && (pblockindexFBBHLast != null ==> pblockindexFBBHLast in mapBlockIndex.Values
                                          && Reaches(pindexBest, pblockindexFBBHLast))
    }

    constructor (rules: Rules)
      ensures Valid() && this.rules == rules && pindexBest == null && mapBlockIndex == map[] && fresh(pcoinsTip.Repr())
    {
      this.rules := rules;
      mapBlockIndex, pindexGenesisBlock, pindexBest, nBestHeight, pblockindexFBBHLast := map[], null, null, -1, null;
      var db := new CoinsView.Database();
      pcoinsTip := new CoinsView.Cache(db);
    }

    /** In the main chain: CBlockIndex::IsInMainChain. */
    method IsInMainChain(b: BlockIndex) returns (r: bool)
      requires Valid() && b in mapBlockIndex.Values
      ensures r <==> Reaches(pindexBest, b)
    {
      assert LinkOk(b, pindexBest);
      if pindexBest == null { assert !Reaches(null, b); }
      r := b.pnext != null || b == pindexBest;
    }

    /** FindBlockByHeight, whose cursor may rest on any block of the main chain. */
    method FindBlockByHeight(nHeight: nat) returns (b: BlockIndex)
      requires Valid() && pindexBest != null && nHeight <= nBestHeight
      modifies this`pblockindexFBBHLast
      ensures Valid()
      ensures Reaches(pindexBest, b) && b.nHeight == nHeight && b in mapBlockIndex.Values
      ensures forall x: BlockIndex | Reaches(pindexBest, x) && x.nHeight == nHeight :: x == b
    {
      pcoinsTip.ReprAllocated();
      b := Locate(nHeight);
      pblockindexFBBHLast := b;
    }

    /** The starting point: the genesis block, the best block or the cursor, whichever is nearest. */
    method Locate(nHeight: nat) returns (b: BlockIndex)
      requires Valid() && pindexBest != null && nHeight <= nBestHeight
      ensures b in mapBlockIndex.Values && Reaches(pindexBest, b) && b.nHeight == nHeight
      ensures forall x: BlockIndex | Reaches(pindexBest, x) && x.nHeight == nHeight :: x == b
    {
      ReachesRank(pindexBest, pindexGenesisBlock);
      b := if nHeight < nBestHeight / 2 then pindexGenesisBlock else pindexBest;
      if pblockindexFBBHLast != null && Abs(nHeight - b.nHeight) > Abs(nHeight - pblockindexFBBHLast.nHeight) {
        b := pblockindexFBBHLast;
      }
      b := Seek(b, nHeight);
      MainChainUnique(b);
    }

    /** The two loops of FindBlockByHeight. */
    method Seek(start: BlockIndex, nHeight: nat) returns (b: BlockIndex)
      requires TreeOk() && OnMainChain(start) && LinksOk(mapBlockIndex.Values, pindexBest)
      requires pindexBest != null && pindexBest in mapBlockIndex.Values && nHeight <= pindexBest.nHeight
      ensures OnMainChain(b) && b.nHeight == nHeight
    {
      b := start;
      while b.nHeight > nHeight
        invariant OnMainChain(b)
        decreases b.nHeight
      {
        StepBack(b);
        b := b.pprev;
      }
      while b.nHeight < nHeight
        invariant OnMainChain(b) && b.nHeight <= nHeight
        decreases nHeight - b.nHeight
      {
        StepForward(b);
        b := b.pnext;
      }
    }

    ghost predicate OnMainChain(b: BlockIndex)
      reads this
    {
      b in mapBlockIndex.Values && Reaches(pindexBest, b)
    }

    lemma StepBack(b: BlockIndex)
      requires TreeOk() && OnMainChain(b) && b.nHeight > 0
      ensures b.pprev != null && OnMainChain(b.pprev) && b.pprev.nHeight == b.nHeight - 1
    {
      assert WellFounded(b);
      ReachesTransitive(pindexBest, b, b.pprev);
    }

    lemma StepForward(b: BlockIndex)
      requires TreeOk() && OnMainChain(b) && LinksOk(mapBlockIndex.Values, pindexBest) && b != pindexBest
      requires pindexBest != null && pindexBest in mapBlockIndex.Values
      ensures b.pnext != null && OnMainChain(b.pnext) && b.pnext.nHeight == b.nHeight + 1
    {
      assert LinkOk(b, pindexBest);
      ReachedIsKnown(pindexBest, b.pnext);
      assert WellFounded(b.pnext);
    }

    lemma MainChainUnique(b: BlockIndex)
      requires OnMainChain(b) && WellFounded(pindexBest)
      ensures forall x: BlockIndex | Reaches(pindexBest, x) && x.nHeight == b.nHeight :: x == b
    {
      forall x: BlockIndex | Reaches(pindexBest, x) && x.nHeight == b.nHeight ensures x == b {
        ReachesLinear(pindexBest, x, b);
        ReachesRank(pindexBest, x);
        ReachesRank(x, b);
      }
    }

    function Abs(x: int): int { if x < 0 then -x else x }

    lemma {:induction false} ReachedIsKnown(best: BlockIndex?, b: BlockIndex)
      requires TreeOk() && best != null && best in mapBlockIndex.Values && Reaches(best, b)
      ensures b in mapBlockIndex.Values
      decreases Rank(best)
    {
      if best != b && best.pprev != null {
        ReachedIsKnown(best.pprev, b);
      }
    }

    /** The search for the fork in SetBestChain; its assertions hold because the tree has one root. */
    method FindFork(tip: BlockIndex, pindexNew: BlockIndex) returns (fork: BlockIndex)
      requires TreeOk() && tip in mapBlockIndex.Values && pindexNew in mapBlockIndex.Values
      ensures fork in mapBlockIndex.Values && Reaches(tip, fork) && Reaches(pindexNew, fork)
      ensures CommonKept(tip, pindexNew, fork, fork)
    {
      var plonger := pindexNew;
      fork := tip;
      while fork != plonger
        invariant fork in mapBlockIndex.Values && plonger in mapBlockIndex.Values
        invariant Reaches(tip, fork) && Reaches(pindexNew, plonger)
        invariant CommonKept(tip, pindexNew, fork, plonger)
        decreases fork.nHeight
      {
        while plonger.nHeight > fork.nHeight
          invariant plonger in mapBlockIndex.Values && Reaches(pindexNew, plonger)
          invariant CommonKept(tip, pindexNew, fork, plonger)
          decreases plonger.nHeight
        {
          KeepCommonLonger(tip, pindexNew, fork, plonger);
          ReachesTransitive(pindexNew, plonger, plonger.pprev);
          plonger := plonger.pprev;
        }
        if fork == plonger {
          break;
        }
        KeepCommonFork(tip, pindexNew, fork, plonger);
        ReachesTransitive(tip, fork, fork.pprev);
        fork := fork.pprev;
      }
    }

    /** No common ancestor of the two branches lies above both positions. */
    ghost predicate CommonKept(tip: BlockIndex, pindexNew: BlockIndex, fork: BlockIndex, plonger: BlockIndex)
      reads this
    {
      forall x | x in mapBlockIndex.Values && Reaches(tip, x) && Reaches(pindexNew, x) :: Reaches(fork, x)
          && Reaches(plonger, x)
    }

    lemma KeepCommonLonger(tip: BlockIndex, pindexNew: BlockIndex, fork: BlockIndex, plonger: BlockIndex)
      requires TreeOk() && fork in mapBlockIndex.Values && plonger in mapBlockIndex.Values
      requires CommonKept(tip, pindexNew, fork, plonger) && plonger.nHeight > fork.nHeight
      ensures plonger.pprev != null && CommonKept(tip, pindexNew, fork, plonger.pprev)
    {
      assert WellFounded(plonger);
      forall x | x in mapBlockIndex.Values && Reaches(tip, x)
          && Reaches(pindexNew, x) ensures Reaches(plonger.pprev, x) {
        ReachesRank(fork, x);
      }
    }

    lemma KeepCommonFork(tip: BlockIndex, pindexNew: BlockIndex, fork: BlockIndex, plonger: BlockIndex)
      requires TreeOk() && fork in mapBlockIndex.Values && plonger in mapBlockIndex.Values
      requires CommonKept(tip, pindexNew, fork, plonger) && plonger.nHeight <= fork.nHeight && fork != plonger
      ensures fork.pprev != null && CommonKept(tip, pindexNew, fork.pprev, plonger)
    {
      assert WellFounded(fork) && WellFounded(plonger);
      if fork.pprev == null {
        assert false;
      }
      forall x | x in mapBlockIndex.Values && Reaches(tip, x) && Reaches(pindexNew, x) ensures Reaches(fork.pprev, x) {
        ReachesRank(plonger, x);
      }
    }

    /** vDisconnect and, before it is reversed, vConnect. */
    method ListBranch(b: BlockIndex?, fork: BlockIndex?) returns (branch: seq<BlockIndex>)
      requires WellFounded(b) && Reaches(b, fork)
      ensures branch == Branch(b, fork)
    {
      branch := [];
      var pindex := b;
      while pindex != fork
        invariant WellFounded(pindex) && Reaches(pindex, fork)
        invariant branch + Branch(pindex, fork) == Branch(b, fork)
        decreases Rank(pindex)
      {
        assert Branch(pindex, fork) == [pindex] + Branch(pindex.pprev, fork);
        branch := branch + [pindex];
        pindex := pindex.pprev;
      }
    }

    /** The i-th block of a branch from `b` down to `fork`, and `fork` after the last one. */
    ghost function At(branch: seq<BlockIndex>, fork: BlockIndex?, i: nat): BlockIndex?
      requires i <= |branch|
    {
      if i < |branch| then branch[i] else fork
    }

    /** The loop of SetBestChain over vDisconnect: with the undo data on record it cannot fail
        once the blocks can be read. */
    method DisconnectBranch(view: CoinsView, branch: seq<BlockIndex>, fork: BlockIndex?, unreadable: set<BlockIndex>)
      returns (ok: bool)
      requires TreeOk() && view.Layered() && view.base != null
      requires view.Best() == view.tip == pindexBest && Holds(rules, pindexBest, UtxoOf(view))
      requires pindexBest != null ==> pindexBest in mapBlockIndex.Values
      requires Reaches(pindexBest, fork) && branch == Branch(pindexBest, fork) && (fork == null ==> branch == [])
      requires RecordsOk(mapBlockIndex.Values, pindexBest)
      modifies view.Repr()
      ensures view.Below() == old(view.Below())
      ensures ok ==> view.Best() == view.tip == fork && Holds(rules, fork, UtxoOf(view))
      ensures unreadable == {} ==> ok
    {
      hide Unspent, Utxo.DisconnectBlock, CheckBlock, RecordOk;
      ghost var best := pindexBest;
      if best != null && best != fork { BranchShape(best, fork, 0); }
      for i := 0 to |branch|
        invariant view.Below() == old(view.Below())
        invariant view.Best() == view.tip == At(branch, fork, i) && Holds(rules, view.tip, UtxoOf(view))
      {
        var pindex := branch[i];
        if pindex in unreadable {
          return false;
        }
        BranchShape(best, fork, i);
        BranchBelongs(best, fork, i);
        DisconnectReady(pindex);
        DisconnectTip(rules, pindex, UtxoOf(view));
        BlockChecked(pindex.block);
        ok := BlockConnect.DisconnectBlock(pindex, view);
        assert ok;
      }
      ok := true;
    }

    lemma BlockChecked(block: Block)
      requires CheckBlock(rules, block)
      ensures forall i | 0 <= i < |block.vtx| :: CheckTransaction(block.vtx[i])
    {
    }

    /** A block of the main chain above the fork is known, and is not the genesis block. */
    lemma BranchBelongs(b: BlockIndex?, fork: BlockIndex?, i: nat)
      requires TreeOk() && b != null && b in mapBlockIndex.Values && Reaches(b, fork) && i < |Branch(b, fork)|
      ensures Branch(b, fork)[i] in mapBlockIndex.Values && Reaches(b, Branch(b, fork)[i])
      ensures fork != null ==> Branch(b, fork)[i].pprev != null
    {
      BranchMember(b, fork, Branch(b, fork)[i]);
      ReachedIsKnown(b, Branch(b, fork)[i]);
      BranchShape(b, fork, i);
    }

    lemma DisconnectReady(b: BlockIndex)
      requires b in mapBlockIndex.Values && RecordsOk(mapBlockIndex.Values, pindexBest) && Reaches(pindexBest, b)
          && b.pprev != null
      ensures b.undo.Some? && Connected(rules, b).Some? && b.undo.value == UndoFile(rules, b)
    {
    }

    lemma SupplyRecorded(b: BlockIndex)
      requires WellFounded(b) && RecordOk(b) && (b.pprev != null ==> b.undo.Some?) && UtxoAt(rules, b).Some?
      ensures b.nMoneySupply == Total(UtxoAt(rules, b).value)
    {
    }

    /** The best block's money supply is the value of all unspent outputs, through every reorganisation. */
    lemma MoneySupply()
      requires Valid() && pindexBest != null
      ensures pindexBest.nMoneySupply == Total(UtxoOf(pcoinsTip))
    {
      assert WellFounded(pindexBest) && RecordOk(pindexBest);
      SupplyRecorded(pindexBest);
      TotalKept(UtxoOf(pcoinsTip), UtxoAt(rules, pindexBest).value);
    }

    /** If no transaction of the main chain has a negative version, the coin state is exactly what connecting its
        blocks one after the other gives. */
    lemma CoinsExact()
      requires Valid() && NoNegativeChain(pindexBest)
      ensures Some(UtxoOf(pcoinsTip)) == UtxoAt(rules, pindexBest)
    {
      HoldsExactly(rules, pindexBest, UtxoOf(pcoinsTip));
    }

    /** Connecting one more block keeps the records right, also when it is rejected. */
    method ConnectNext(view: CoinsView, pindex: BlockIndex) returns (ok: bool)
      requires TreeOk() && view.Layered() && view.base != null && pindex in mapBlockIndex.Values
      requires view.Best() == view.tip == pindex.pprev && Holds(rules, pindex.pprev, UtxoOf(view))
      requires RecordsOk(mapBlockIndex.Values, pindexBest) && RecordsOk(mapBlockIndex.Values, pindex.pprev)
      modifies view.Repr(), mapBlockIndex.Values`nMoneySupply, mapBlockIndex.Values`undo
      ensures view.Below() == old(view.Below())
      ensures ok <==> UtxoAt(rules, pindex).Some?
      ensures ok ==> view.Best() == view.tip == pindex && Holds(rules, pindex, UtxoOf(view))
      ensures RecordsOk(mapBlockIndex.Values, pindexBest)
      ensures ok ==> RecordsOk(mapBlockIndex.Values, pindex)
    {
      hide Unspent, Utxo.ConnectBlock, CheckBlock, UtxoAt, Connected, Total, Holds, UndoFile;
      view.ReprAllocated();
      assert RecordOk(pindex);
      if pindex.pprev == null {
        GenesisTip(rules, pindex, UtxoOf(view));
      } else {
        ConnectTip(rules, pindex, UtxoOf(view));
        assert RecordOk(pindex.pprev) && Reaches(pindex.pprev, pindex.pprev);
        SupplyRecorded(pindex.pprev);
      }
      ok := BlockConnect.ConnectBlock(rules, pindex, view, false);
      assert RecordOk(pindex);
      forall b | b in mapBlockIndex.Values ensures RecordOk(b) && old(b.undo.Some?) ==> b.undo.Some? {
        if b != pindex {
          assert old(RecordOk(b));
        }
      }
    }

    /** A block at or below `b` that cannot be connected to its ancestors. */
    ghost predicate Rejected(b: BlockIndex, failed: BlockIndex)
      reads this`mapBlockIndex
    {
      failed in mapBlockIndex.Values && Reaches(b, failed) && UtxoAt(rules, failed).None?
    }

    ghost predicate LockLimitsOk()
      reads this`mapBlockIndex
    {
      forall b | b in mapBlockIndex.Values :: rules.lockLimitOk(b.block)
    }

    /** The loop of SetBestChain over vConnect, lowest block first. `failed` is the block whose ConnectBlock
        found it invalid. */
    method ConnectBranch(view: CoinsView, ghost pindexNew: BlockIndex, branch: seq<BlockIndex>, fork: BlockIndex?,
                         unreadable: set<BlockIndex>)
      returns (ok: bool, failed: BlockIndex?)
      requires TreeOk() && view.Layered() && view.base != null && pindexNew in mapBlockIndex.Values
      requires Reaches(pindexNew, fork) && branch == Branch(pindexNew, fork)
      requires view.Best() == view.tip == fork && Holds(rules, fork, UtxoOf(view))
      requires RecordsOk(mapBlockIndex.Values, pindexBest) && Reaches(pindexBest, fork)
      modifies view.Repr(), mapBlockIndex.Values`nMoneySupply, mapBlockIndex.Values`undo, this`pindexGenesisBlock
      ensures view.Below() == old(view.Below())
      ensures if fork == null then ok ==> GenesisOf(pindexNew) else pindexGenesisBlock == old(pindexGenesisBlock)
      ensures RecordsOk(mapBlockIndex.Values, pindexBest)
      ensures ok ==> view.Best() == view.tip == pindexNew && Holds(rules, pindexNew, UtxoOf(view))
      ensures ok ==> RecordsOk(mapBlockIndex.Values, pindexNew)
      ensures unreadable == {} && UtxoAt(rules, pindexNew).Some? ==> ok
      ensures failed != null ==> !ok && Rejected(pindexNew, failed)
      ensures !ok && failed == null ==> unreadable != {} || !LockLimitsOk()
    {
      hide Unspent, UtxoAt, RecordOk, Holds, Connected;
      view.ReprAllocated();
      RecordsBelow(fork);
      for i := |branch| downto 0
        invariant view.Below() == old(view.Below())
        invariant view.Best() == view.tip == At(branch, fork, i) && Holds(rules, view.tip, UtxoOf(view))
        invariant RecordsOk(mapBlockIndex.Values, pindexBest) && RecordsOk(mapBlockIndex.Values, At(branch, fork, i))
        invariant if fork == null then i < |branch| ==>
            GenesisOf(branch[i]) else pindexGenesisBlock == old(pindexGenesisBlock)
      {
        var pindex := branch[i];
        if pindex in unreadable {
          return false, null;
        }
        BranchShape(pindexNew, fork, i);
        BranchBelongs(pindexNew, fork, i);
        ok := ConnectNext(view, pindex);
        if !ok {
          if UtxoAt(rules, pindexNew).Some? {
            UtxoAtAncestor(rules, pindexNew, pindex);
          }
          // the state is invalid, except after the one check of CheckBlock that only reports an error
          return false, if rules.lockLimitOk(pindex.block) then pindex else null;
        }
        // ConnectBlock records the genesis block here
        if pindex.block.hash == rules.genesisHash {
          pindexGenesisBlock := pindex;
        }
      }
      if branch != [] {
        BranchShape(pindexNew, fork, 0);
      }
      ok, failed := true, null;
    }

    /** The genesis block on record is the root below `b`. */
    ghost predicate GenesisOf(b: BlockIndex)
      reads this`mapBlockIndex, this`pindexGenesisBlock
    {
      && pindexGenesisBlock != null && pindexGenesisBlock in mapBlockIndex.Values
      && pindexGenesisBlock.pprev == null && Reaches(b, pindexGenesisBlock)
    }

    lemma RecordsBelow(fork: BlockIndex?)
      requires RecordsOk(mapBlockIndex.Values, pindexBest) && Reaches(pindexBest, fork)
      ensures RecordsOk(mapBlockIndex.Values, fork)
    {
      forall b | b in mapBlockIndex.Values && Reaches(fork, b) ensures Reaches(pindexBest, b) {
        ReachesTransitive(pindexBest, fork, b);
      }
    }

    /** `x` is the predecessor of a block of the list. */
    ghost predicate IsParent(x: BlockIndex, branch: seq<BlockIndex>) {
      exists i | 0 <= i < |branch| :: branch[i].pprev == x
    }

    /** The first loop of SetBestChain over pnext. */
    method Unlink(vDisconnect: seq<BlockIndex>, ghost fork: BlockIndex?)
      requires TreeOk() && (pindexBest != null ==> pindexBest in mapBlockIndex.Values)
      requires Reaches(pindexBest, fork) && vDisconnect == Branch(pindexBest, fork)
      modifies mapBlockIndex.Values`pnext
      ensures forall x | x in mapBlockIndex.Values :: x.pnext == if IsParent(x, vDisconnect) then null else old(x.pnext)
    {
      hide Branch, IsParent, TreeOk;
      NoParent();
      assert vDisconnect[..0] == [];
      for i := 0 to |vDisconnect|
        invariant forall x | x in mapBlockIndex.Values :: x.pnext == if IsParent(x, vDisconnect[..i]) then null
            else old(x.pnext)
      {
        if pindexBest != null { ParentKnown(pindexBest); }
        BranchShape(pindexBest, fork, i);
        BranchBelongs(pindexBest, fork, i);
        ParentKnown(vDisconnect[i]);
        ParentStep(vDisconnect, i);
        if vDisconnect[i].pprev != null {
          vDisconnect[i].pprev.pnext := null;
        }
      }
      assert vDisconnect[..|vDisconnect|] == vDisconnect;
    }

    /** The second loop, lowest block first. */
    method Link(vConnect: seq<BlockIndex>, ghost pindexNew: BlockIndex, ghost fork: BlockIndex?)
      requires TreeOk() && pindexNew in mapBlockIndex.Values
      requires Reaches(pindexNew, fork) && vConnect == Branch(pindexNew, fork)
      modifies mapBlockIndex.Values`pnext
      ensures forall j | 0 <= j < |vConnect| && vConnect[j].pprev != null :: vConnect[j].pprev.pnext == vConnect[j]
      ensures forall x | x in mapBlockIndex.Values && !IsParent(x, vConnect) :: x.pnext == old(x.pnext)
    {
      hide Branch, IsParent, TreeOk;
      NoParent();
      assert vConnect[|vConnect|..] == [];
      for i := |vConnect| downto 0
        invariant forall j | i <= j < |vConnect| && vConnect[j].pprev != null :: vConnect[j].pprev.pnext == vConnect[j]
        invariant forall x | x in mapBlockIndex.Values && !IsParent(x, vConnect[i..]) :: x.pnext == old(x.pnext)
      {
        BranchBelongs(pindexNew, fork, i);
        ParentKnown(vConnect[i]);
        ParentStepBack(vConnect, i);
        ParentKnown(pindexNew);
        ParentsDistinct(pindexNew, fork, i);
        if vConnect[i].pprev != null {
          vConnect[i].pprev.pnext := vConnect[i];
        }
      }
      assert vConnect[0..] == vConnect;
    }

    /** After both loops the links lead along the new main chain, and nowhere else. */
    method Relink(vDisconnect: seq<BlockIndex>, vConnect: seq<BlockIndex>, ghost pindexNew: BlockIndex,
        ghost fork: BlockIndex?)
      requires TreeOk() && pindexNew in mapBlockIndex.Values
          && (pindexBest != null ==> pindexBest in mapBlockIndex.Values)
      requires Reaches(pindexBest, fork) && vDisconnect == Branch(pindexBest, fork)
      requires Reaches(pindexNew, fork) && vConnect == Branch(pindexNew, fork)
      requires LinksOk(mapBlockIndex.Values, pindexBest)
      modifies mapBlockIndex.Values`pnext
      ensures LinksOk(mapBlockIndex.Values, pindexNew)
    {
      hide Branch, IsParent;
      Unlink(vDisconnect, fork);
      Link(vConnect, pindexNew, fork);
      forall x | x in mapBlockIndex.Values ensures LinkOk(x, pindexNew) {
        assert old(LinkOk(x, pindexBest));
        LinkedAnew(x, old(x.pnext), pindexBest, pindexNew, fork);
      }
    }

    lemma NoParent()
      ensures forall x: BlockIndex :: !IsParent(x, [])
    {
    }

    lemma ParentKnown(b: BlockIndex)
      requires TreeOk() && b in mapBlockIndex.Values
      ensures b.pprev != null ==> b.pprev in mapBlockIndex.Values
      ensures WellFounded(b)
    {
    }

    lemma ParentStep(branch: seq<BlockIndex>, i: nat)
      requires i < |branch|
      ensures forall x: BlockIndex :: IsParent(x, branch[..i + 1]) <==> IsParent(x, branch[..i]) || branch[i].pprev == x
    {
      forall x: BlockIndex ensures IsParent(x, branch[..i + 1]) <==> IsParent(x, branch[..i]) || branch[i].pprev == x {
        assert forall k | 0 <= k < i :: branch[..i + 1][k] == branch[..i][k];
        assert branch[..i + 1][i] == branch[i];
      }
    }

    lemma ParentStepBack(branch: seq<BlockIndex>, i: nat)
      requires i < |branch|
      ensures forall x: BlockIndex :: IsParent(x, branch[i..]) <==> IsParent(x, branch[i + 1..]) || branch[i].pprev == x
    {
      forall x: BlockIndex ensures IsParent(x, branch[i..]) <==> IsParent(x, branch[i + 1..]) || branch[i].pprev == x {
        assert branch[i..][0] == branch[i] && branch[i..][1..] == branch[i + 1..];
        if IsParent(x, branch[i + 1..]) {
          var k :| 0 <= k < |branch[i + 1..]| && branch[i + 1..][k].pprev == x;
          assert branch[i..][k + 1].pprev == x;
        }
        assert forall k | 1 <= k < |branch[i..]| :: branch[i..][k] == branch[i..][1..][k - 1];
      }
    }

    lemma ParentsDistinct(b: BlockIndex, fork: BlockIndex?, i: nat)
      requires WellFounded(b) && Reaches(b, fork) && i < |Branch(b, fork)|
      ensures forall j | i < j < |Branch(b, fork)|
          && Branch(b, fork)[j].pprev != null :: Branch(b, fork)[j].pprev != Branch(b, fork)[i].pprev
    {
      var s := Branch(b, fork);
      forall j | i < j < |s| && s[j].pprev != null ensures s[j].pprev != s[i].pprev {
        BranchShape(b, fork, i);
        BranchShape(b, fork, j);
      }
    }

    /** Which link a block must have after the move, from the link it had before. */
    lemma LinkedAnew(x: BlockIndex, before: BlockIndex?, best: BlockIndex?, pindexNew: BlockIndex, fork: BlockIndex?)
      requires WellFounded(x) && WellFounded(best) && WellFounded(pindexNew) && Reaches(best, fork)
          && Reaches(pindexNew, fork)
      requires if Reaches(best, x) && x != best then before != null && before.pprev == x
          && Reaches(best, before) else before == null
      requires forall j | 0 <= j < |Branch(pindexNew, fork)|
          && Branch(pindexNew, fork)[j].pprev == x :: x.pnext == Branch(pindexNew, fork)[j]
      requires !IsParent(x, Branch(pindexNew, fork)) ==>
          x.pnext == if IsParent(x, Branch(best, fork)) then null else before
      ensures LinkOk(x, pindexNew)
    {
      ChildOnBranch(pindexNew, fork, x);
      ChildOnBranch(best, fork, x);
      if !IsParent(x, Branch(pindexNew, fork)) && !IsParent(x, Branch(best, fork)) {
        ReachesRank(best, fork);
        ReachesRank(pindexNew, fork);
        if Reaches(best, x) && x != best {
          ReachesLinear(best, fork, x);
          ReachesTransitive(pindexNew, fork, x);
          ReachesRank(best, before);
          ReachesLinear(best, fork, before);
          ReachesTransitive(pindexNew, fork, before);
          ReachesRank(fork, x);
        } else if Reaches(pindexNew, x) && x != pindexNew {
          ReachesLinear(pindexNew, fork, x);
          ReachesTransitive(best, fork, x);
          ReachesRank(fork, x);
          assert false;
        }
      }
    }

    lemma ParentIsAncestor(b: BlockIndex?, fork: BlockIndex?, j: nat)
      requires WellFounded(b) && Reaches(b, fork) && j < |Branch(b, fork)|
      ensures var c := Branch(b, fork)[j];
              Reaches(b, c) && Reaches(b, c.pprev) && c.pprev != b && Rank(c.pprev) >= Rank(fork)
    {
      hide Branch;
      var c := Branch(b, fork)[j];
      BranchMember(b, fork, c);
      BranchShape(b, fork, j);
      ReachesTransitive(b, c, c.pprev);
      ReachesRank(b, c);
    }

    lemma AncestorIsParent(b: BlockIndex?, fork: BlockIndex?, x: BlockIndex)
      requires WellFounded(b) && Reaches(b, fork) && WellFounded(x)
      requires Reaches(b, x) && x != b && Rank(x) >= Rank(fork)
      ensures IsParent(x, Branch(b, fork))
    {
      ReachesRank(b, x);
      ReachesRank(b, fork);
      var s := Branch(b, fork);
      assert s != [] && s[0] == b;
      hide Branch;
      if Rank(x) == Rank(fork) {
        ReachesLinear(b, x, fork);
        ReachesRank(x, fork);
        BranchShape(b, fork, |s| - 1);
        assert s[|s| - 1].pprev == x;
      } else {
        BranchMember(b, fork, x);
        var k :| 0 <= k < |s| && s[k] == x;
        BranchShape(b, fork, k - 1);
        assert s[k - 1].pprev == x;
      }
    }

    /** The predecessors of the blocks of a branch are the proper ancestors from the fork upwards. */
    lemma ChildOnBranch(b: BlockIndex?, fork: BlockIndex?, x: BlockIndex)
      requires WellFounded(b) && Reaches(b, fork) && WellFounded(x)
      ensures IsParent(x, Branch(b, fork)) <==> Reaches(b, x) && x != b && Rank(x) >= Rank(fork)
      ensures forall j | 0 <= j < |Branch(b, fork)| && Branch(b, fork)[j].pprev == x :: Reaches(b, Branch(b, fork)[j])
    {
      hide Branch;
      var s := Branch(b, fork);
      forall j | 0 <= j < |s| ensures Reaches(b, s[j]) && Reaches(b, s[j].pprev) && s[j].pprev != b
          && Rank(s[j].pprev) >= Rank(fork) {
        ParentIsAncestor(b, fork, j);
      }
      if Reaches(b, x) && x != b && Rank(x) >= Rank(fork) {
        AncestorIsParent(b, fork, x);
      }
    }

    lemma NullBranch()
      ensures Reaches(null, null) && Branch(null, null) == [] && WellFounded(null)
    {
    }

    /** SetBestChain between the creation of its cache and the flush. */
    method Reorganize(view: CoinsView, pindexNew: BlockIndex, unreadable: set<BlockIndex>)
      returns (ok: bool, failed: BlockIndex?, vDisconnect: seq<BlockIndex>, vConnect: seq<BlockIndex>,
          ghost fork: BlockIndex?)
      requires TreeOk() && pindexNew in mapBlockIndex.Values
          && (pindexBest != null ==> pindexBest in mapBlockIndex.Values)
      requires view.Layered() && view.base != null
      requires view.Best() == view.tip == pindexBest && Holds(rules, pindexBest, UtxoOf(view))
      requires RecordsOk(mapBlockIndex.Values, pindexBest) && (pindexBest != null ==> GenesisOf(pindexBest))
      modifies mapBlockIndex.Values`nMoneySupply, mapBlockIndex.Values`undo, this`pindexGenesisBlock, view.Repr()
      ensures view.Below() == old(view.Below()) && RecordsOk(mapBlockIndex.Values, pindexBest)
      ensures ok ==> view.tip == pindexNew && Holds(rules, pindexNew, UtxoOf(view))
                     && RecordsOk(mapBlockIndex.Values, pindexNew)
      ensures if ok then GenesisOf(pindexNew) else pindexBest != null ==> GenesisOf(pindexBest)
      ensures ok ==> Reaches(pindexBest, fork) && vDisconnect == Branch(pindexBest, fork)
      ensures ok ==> Reaches(pindexNew, fork) && vConnect == Branch(pindexNew, fork)
      ensures unreadable == {} && UtxoAt(rules, pindexNew).Some? ==> ok
      ensures failed != null ==> !ok && Rejected(pindexNew, failed)
      ensures !ok && failed == null ==> unreadable != {} || !LockLimitsOk()
    {
      hide Unspent, UtxoAt, RecordsOk, Branch, CommonKept, Reaches, WellFounded, TreeOk, GenesisOf, UtxoOf,
          CoinsView.Contents, CoinsView.Best, CoinsView.Below;
      view.ReprAllocated();
      NullBranch();
      ParentKnown(pindexNew);
      if pindexBest != null { ParentKnown(pindexBest); }
      var f: BlockIndex? := null;
      if pindexBest != null {
        f := FindFork(pindexBest, pindexNew);
      } else {
        ReachesNull(pindexNew);
      }
      fork, failed := f, null;
      vDisconnect := ListBranch(pindexBest, f);
      vConnect := ListBranch(pindexNew, f);
      ok := DisconnectBranch(view, vDisconnect, f, unreadable);
      if !ok {
        return;
      }
      ok, failed := ConnectBranch(view, pindexNew, vConnect, f, unreadable);
      if !ok {
        return;
      }
      if f != null {
        GenesisMoves(f, pindexNew);
      }
    }

    /** SetBestChain up to and including the flush: everything happens in a cache of its own. */
    method MoveCoins(pindexNew: BlockIndex, unreadable: set<BlockIndex>, fFlush: bool)
      returns (ok: bool, failed: BlockIndex?, vDisconnect: seq<BlockIndex>, vConnect: seq<BlockIndex>,
          ghost fork: BlockIndex?)
      requires CoinsOk(pindexBest) && pindexNew in mapBlockIndex.Values
          && (pindexBest != null ==> GenesisOf(pindexBest))
      modifies mapBlockIndex.Values`nMoneySupply, mapBlockIndex.Values`undo, this`pindexGenesisBlock, pcoinsTip.Repr()
      ensures ok ==> CoinsOk(pindexNew) && GenesisOf(pindexNew)
      ensures ok ==> Reaches(pindexBest, fork) && vDisconnect == Branch(pindexBest, fork)
      ensures ok ==> Reaches(pindexNew, fork) && vConnect == Branch(pindexNew, fork)
      ensures !ok ==> CoinsOk(pindexBest) && UtxoOf(pcoinsTip) == old(UtxoOf(pcoinsTip))
                      && (pindexBest != null ==> GenesisOf(pindexBest))
      ensures unreadable == {} && UtxoAt(rules, pindexNew).Some? ==> ok
      ensures failed != null ==> !ok && Rejected(pindexNew, failed)
      ensures !ok && failed == null ==> unreadable != {} || !LockLimitsOk()
    {
      hide Unspent, UtxoAt, RecordsOk, Branch, Reaches, WellFounded, CoinsView.Contents, CoinsView.Best, GenesisOf,
          TreeOk, Rejected, LockLimitsOk;
      pcoinsTip.ReprAllocated();
      var view := new CoinsView.Cache(pcoinsTip);
      var _ := view.GetBestBlock();
      ok, failed, vDisconnect, vConnect, fork := Reorganize(view, pindexNew, unreadable);
      if ok {
        FlushCoins(view, fFlush);
      }
    }

    /** The flush of SetBestChain's cache into pcoinsTip, and of that into the database. */
    method FlushCoins(view: CoinsView, fFlush: bool)
      requires view.Layered() && view.base == pcoinsTip && pcoinsTip.base != null && view.tip != null
      modifies view.Repr()
      ensures pcoinsTip.Best() == old(view.tip) && Kept(UtxoOf(pcoinsTip), old(UtxoOf(view)))
    {
      view.Flush();
      if fFlush {
        ghost var before := UtxoOf(pcoinsTip);
        pcoinsTip.Flush();
        KeptTwice(UtxoOf(pcoinsTip), before, old(UtxoOf(view)));
      }
    }

    lemma GenesisMoves(fork: BlockIndex, pindexNew: BlockIndex)
      requires TreeOk() && pindexBest != null && pindexBest in mapBlockIndex.Values && GenesisOf(pindexBest)
      requires Reaches(pindexBest, fork) && Reaches(pindexNew, fork)
      ensures GenesisOf(pindexNew)
    {
      ReachesRank(pindexBest, fork);
      ReachesLinear(pindexBest, fork, pindexGenesisBlock);
      ReachesTransitive(pindexNew, fork, pindexGenesisBlock);
    }

    /** SetBestChain, but for InvalidBlockFound. `unreadable` are the blocks ReadFromDisk fails for, `fFlush`
        says whether the coin state also goes to the database now. It succeeds exactly if every block below
        `pindexNew` can be connected (and read); a failure leaves the coin state, the best block and
        the links as they were, and `failed` is the block found invalid. The memory pool is not part of
        this model. */
    method SetBestChain(pindexNew: BlockIndex, unreadable: set<BlockIndex>, fFlush: bool) returns (ok: bool,
        failed: BlockIndex?)
      requires Valid() && pindexNew in mapBlockIndex.Values
      modifies this`pindexBest, this`pblockindexFBBHLast, this`nBestHeight, this`pindexGenesisBlock, pcoinsTip.Repr()
      modifies mapBlockIndex.Values`pnext, mapBlockIndex.Values`nMoneySupply, mapBlockIndex.Values`undo
      ensures Valid()
      ensures ok ==> pindexBest == pindexNew && Holds(rules, pindexNew, UtxoOf(pcoinsTip))
      ensures !ok ==> pindexBest == old(pindexBest) && UtxoOf(pcoinsTip) == old(UtxoOf(pcoinsTip))
      ensures !ok ==> forall b | b in mapBlockIndex.Values :: b.pnext == old(b.pnext)
      ensures unreadable == {} && UtxoAt(rules, pindexNew).Some? ==> ok
      ensures failed != null ==> !ok && Rejected(pindexNew, failed)
      ensures !ok && failed == null ==> unreadable != {} || !LockLimitsOk()
    {
      hide Unspent, UtxoAt, RecordsOk, LinksOk, LinkOk, Branch, Reaches, Rejected, LockLimitsOk;
      pcoinsTip.ReprAllocated();
      var vDisconnect, vConnect;
      ghost var fork;
      ok, failed, vDisconnect, vConnect, fork := MoveCoins(pindexNew, unreadable, fFlush);
      if ok {
        Activate(vDisconnect, vConnect, pindexNew, fork);
      }
    }

    /** The updates of the memory structures after the flush. */
    method Activate(vDisconnect: seq<BlockIndex>, vConnect: seq<BlockIndex>, pindexNew: BlockIndex,
        ghost fork: BlockIndex?)
      requires CoinsOk(pindexNew) && GenesisOf(pindexNew) && LinksOk(mapBlockIndex.Values, pindexBest)
      requires pindexBest != null ==> pindexBest in mapBlockIndex.Values
      requires Reaches(pindexBest, fork) && vDisconnect == Branch(pindexBest, fork)
      requires Reaches(pindexNew, fork) && vConnect == Branch(pindexNew, fork)
      modifies this`pindexBest, this`pblockindexFBBHLast, this`nBestHeight, mapBlockIndex.Values`pnext
      ensures Valid() && pindexBest == pindexNew
    {
      hide Unspent, UtxoAt, UtxoOf, RecordsOk, LinksOk, LinkOk, Branch, Reaches, GenesisOf, TreeOk, CoinsView.Best,
          CoinsView.Contents, CoinsView.Layered;
      pcoinsTip.ReprAllocated();
      assert TreeOk() && pindexNew in mapBlockIndex.Values;
      hide CoinsOk;
      Relink(vDisconnect, vConnect, pindexNew, fork);
      pindexBest := pindexNew;
      pblockindexFBBHLast := null;
      nBestHeight := pindexNew.nHeight;
    }

    /** AcceptBlock's look-ups and the insertion in AddToBlockIndex. A block that is already known or
        whose predecessor is not is refused; the genesis block's header names no known predecessor. */
    method NewBlockIndex(block: Block, hashPrevBlock: nat, nWork: nat) returns (pindexNew: BlockIndex?)
      requires Valid() && (block.hash == rules.genesisHash ==> hashPrevBlock !in mapBlockIndex)
      modifies this`mapBlockIndex
      ensures Valid() && UtxoOf(pcoinsTip) == old(UtxoOf(pcoinsTip))
      ensures pindexNew == null <==> block.hash in old(mapBlockIndex) ||
                                     (block.hash != rules.genesisHash && hashPrevBlock !in old(mapBlockIndex))
      ensures pindexNew == null ==> mapBlockIndex == old(mapBlockIndex)
      ensures pindexNew != null ==>
                && fresh(pindexNew) && pindexNew.block == block && !pindexNew.fFailedValid && !pindexNew.fFailedChild
                && mapBlockIndex == old(mapBlockIndex)[block.hash := pindexNew]
                && pindexNew.pprev == if hashPrevBlock in old(mapBlockIndex) then old(mapBlockIndex)[hashPrevBlock]
                    else null
    {
      hide Unspent, UtxoAt, Connected, Holds, GenesisOf, CoinsView.Contents, CoinsView.Best, RecordsOk, LinksOk;
      pcoinsTip.ReprAllocated();
      if block.hash in mapBlockIndex {
        return null;
      }
      if block.hash != rules.genesisHash && hashPrevBlock !in mapBlockIndex {
        return null;
      }
      var pprev: BlockIndex? := if hashPrevBlock in mapBlockIndex then mapBlockIndex[hashPrevBlock] else null;
      assert pprev != null ==> pprev in mapBlockIndex.Values;
      pindexNew := new BlockIndex(block, pprev, nWork);
      if pindexBest != null && Reaches(pindexBest, pindexNew) {
        ReachedIsKnown(pindexBest, pindexNew);
      }
      Insert(pindexNew);
    }

    method Insert(b: BlockIndex)
      requires Valid() && b !in mapBlockIndex.Values && b.block.hash !in mapBlockIndex
      requires (b.pprev == null <==> b.block.hash == rules.genesisHash)
          && (b.pprev != null ==> b.pprev in mapBlockIndex.Values)
      requires Rank(b) == Rank(b.pprev) + 1 && !Reaches(pindexBest, b)
      requires b.pnext == null && b.undo == None && b.nMoneySupply == 0
      modifies this`mapBlockIndex
      ensures Valid() && mapBlockIndex == old(mapBlockIndex)[b.block.hash := b]
    {
      hide Unspent, UtxoAt, Connected, CoinsView.Contents, CoinsView.Best, Total, UtxoOf, CoinsView.Layered, Tree;
      pcoinsTip.ReprAllocated();
      TreeGrows(rules, mapBlockIndex, b);
      mapBlockIndex := mapBlockIndex[b.block.hash := b];
      assert RecordOk(b) && LinkOk(b, pindexBest);
    }
  }
}
