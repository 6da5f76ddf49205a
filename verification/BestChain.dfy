/** The choice of the best chain: which block ConnectBestBlock moves the node to, and what it remembers
    of blocks found invalid. */
module BestChain {
  import opened Coins
  import opened Utxo
  import opened CoinsViews
  import opened BlockTree
  import Node = ChainState

  /** CBlockIndexWorkComparator: of two blocks with the same work the one with the smaller hash is the greater. */
  predicate Less(a: BlockIndex, b: BlockIndex) {
    a.nChainWork < b.nChainWork || (a.nChainWork == b.nChainWork && a.block.hash > b.block.hash)
  }

  /** The last block of setBlockIndexValid. */
  method Last(blocks: set<BlockIndex>) returns (last: BlockIndex)
    requires blocks != {}
    ensures last in blocks && forall b | b in blocks :: !Less(last, b)
  {
    last :| last in blocks;
    var todo := blocks - {last};
    while todo != {}
      invariant todo <= blocks && last in blocks && forall b | b in blocks - todo :: !Less(last, b)
      decreases |todo|
    {
      var b :| b in todo;
      todo := todo - {b};
      if Less(last, b) {
        forall c | c in blocks - todo ensures !Less(b, c) {
          assert c == b || !Less(last, c);
        }
        last := b;
      }
    }
  }

  /** nStatus & BLOCK_FAILED_MASK. */
  predicate Failed(b: BlockIndex)
    reads b`fFailedValid, b`fFailedChild
  {
    b.fFailedValid || b.fFailedChild
  }

  /** Only blocks that cannot be connected are marked, and the candidates are exactly the other ones. */
  ghost predicate MarksOk(r: Rules, blocks: set<BlockIndex>, candidates: set<BlockIndex>)
    reads blocks`fFailedValid, blocks`fFailedChild
  {
    && candidates <= blocks
    && forall b | b in blocks :: (b in candidates <==> !Failed(b)) && (Failed(b) ==> UtxoAt(r, b).None?)
  }

  /** No marked block at or below `b`. */
  ghost predicate Clean(blocks: set<BlockIndex>, b: BlockIndex)
    reads blocks`fFailedValid, blocks`fFailedChild
  {
    forall x | x in blocks && Reaches(b, x) :: !Failed(x)
  }

  lemma ValuesAfter(index: map<nat, BlockIndex>, b: BlockIndex)
    requires b.block.hash !in index
    ensures index[b.block.hash := b].Values == index.Values + {b}
  {
    var next := index[b.block.hash := b];
    assert next[b.block.hash] == b && forall k | k in index :: next[k] == index[k];
  }

  class BestChain {
    const chain: Node.ChainState
    var setBlockIndexValid: set<BlockIndex>

    ghost predicate Valid()
      reads this, chain, chain.mapBlockIndex.Values, chain.pcoinsTip.Repr()
    {
      chain.Valid() && MarksOk(chain.rules, chain.mapBlockIndex.Values, setBlockIndexValid)
    }

    constructor (rules: Rules)
      ensures Valid() && chain.rules == rules && chain.pindexBest == null && chain.mapBlockIndex == map[]
    {
      hide Node.ChainState.Valid;
      chain := new Node.ChainState(rules);
      setBlockIndexValid := {};
      new;
      assert chain.mapBlockIndex.Values == {};
    }

    /** What the methods below need of the block tree. */
    lemma Tree()
      requires Valid()
      ensures forall v | v in chain.pcoinsTip.Repr() :: allocated(v)
      ensures forall b | b in chain.mapBlockIndex.Values ::
                (b.pprev != null ==> b.pprev in chain.mapBlockIndex.Values) && WellFounded(b)
    {
      chain.pcoinsTip.ReprAllocated();
    }

    /** No block that can be connected has more work than the best block. */
    ghost predicate MostWork()
      reads chain
    {
      forall b | b in chain.mapBlockIndex.Values && UtxoAt(chain.rules, b).Some? ::
        chain.pindexBest != null && b.nChainWork <= chain.pindexBest.nChainWork
    }

    /** The best block stays, or another one with more work takes its place. */
    ghost predicate Moved(before: BlockIndex?)
      reads chain
    {
      chain.pindexBest == before || (chain.pindexBest != null
          && (before == null || before.nChainWork < chain.pindexBest.nChainWork))
    }

    lemma BestIsCandidate()
      requires Valid() && chain.pindexBest != null
      ensures chain.pindexBest in setBlockIndexValid
    {
    }

    lemma NotInMainChain(b: BlockIndex)
      requires Valid() && b in chain.mapBlockIndex.Values && UtxoAt(chain.rules, b).None?
      ensures b.pnext == null
    {
      if Reaches(chain.pindexBest, b) {
        UtxoAtAncestor(chain.rules, chain.pindexBest, b);
      }
      assert chain.LinkOk(b, chain.pindexBest);
    }

    /** InvalidBlockFound. Its call of ConnectBestBlock is for a block of the main chain, which an invalid
        block never is. */
    method InvalidBlockFound(pindex: BlockIndex)
      requires Valid() && pindex in chain.mapBlockIndex.Values && UtxoAt(chain.rules, pindex).None?
      modifies pindex`fFailedValid, this`setBlockIndexValid
      ensures Valid() && Failed(pindex) && setBlockIndexValid == old(setBlockIndexValid) - {pindex}
    {
      hide UtxoAt, Node.ChainState.Valid;
      Tree();
      NotInMainChain(pindex);
      pindex.fFailedValid := true;
      setBlockIndexValid := setBlockIndexValid - {pindex};
      assert pindex.pnext == null;
    }

    /** Marking what lies between `pindexNewBest` and the failed block below it. */
    method MarkDescendants(pindexNewBest: BlockIndex, pindexTest: BlockIndex)
      requires Valid() && pindexNewBest in setBlockIndexValid && pindexTest in chain.mapBlockIndex.Values
      requires Reaches(pindexNewBest, pindexTest) && Failed(pindexTest)
      modifies chain.mapBlockIndex.Values`fFailedChild, this`setBlockIndexValid
      ensures Valid() && setBlockIndexValid < old(setBlockIndexValid)
      ensures forall b | b in chain.mapBlockIndex.Values :: old(Failed(b)) ==> Failed(b)
    {
      hide UtxoAt, Node.ChainState.Valid;
      Tree();
      var pindexFailed := pindexNewBest;
      while pindexFailed != pindexTest
        invariant Valid() && pindexFailed in chain.mapBlockIndex.Values && Reaches(pindexFailed, pindexTest)
            && Failed(pindexTest)
        invariant setBlockIndexValid <= old(setBlockIndexValid)
        invariant pindexFailed == pindexNewBest || pindexNewBest !in setBlockIndexValid
        invariant forall b | b in chain.mapBlockIndex.Values :: old(Failed(b)) ==> Failed(b)
        decreases Rank(pindexFailed)
      {
        if UtxoAt(chain.rules, pindexFailed).Some? {
          UtxoAtAncestor(chain.rules, pindexFailed, pindexTest);
        }
        pindexFailed.fFailedChild := true;
        setBlockIndexValid := setBlockIndexValid - {pindexFailed};
        ReachesRank(pindexFailed, pindexTest);
        pindexFailed := pindexFailed.pprev;
      }
    }

    /** The inner loop of ConnectBestBlock: the first failed block below `pindexNewBest`, or null and the blocks
        to switch to, the highest one first. */
    method CheckAncestry(pindexNewBest: BlockIndex) returns (failedAt: BlockIndex?, vAttach: seq<BlockIndex>)
      requires Valid() && pindexNewBest in setBlockIndexValid
      requires chain.pindexBest == null || pindexNewBest.nChainWork > chain.pindexBest.nChainWork
      ensures failedAt != null ==> failedAt in chain.mapBlockIndex.Values && Failed(failedAt)
                                   && Reaches(pindexNewBest, failedAt)
      ensures failedAt == null ==> Clean(chain.mapBlockIndex.Values, pindexNewBest) && vAttach != []
                                   && vAttach[0] == pindexNewBest
      ensures forall b | b in vAttach ::
                && b in chain.mapBlockIndex.Values && Reaches(pindexNewBest, b)
                && (chain.pindexBest == null || b.nChainWork > chain.pindexBest.nChainWork)
    {
      hide UtxoAt, Node.ChainState.Valid;
      Tree();
      vAttach := [];
      var pindexTest := pindexNewBest;
      while true
        invariant pindexTest in chain.mapBlockIndex.Values && Reaches(pindexNewBest, pindexTest)
        invariant forall x | x in chain.mapBlockIndex.Values && Reaches(pindexNewBest, x) ::
                    Reaches(pindexTest, x) || !Failed(x)
        invariant if vAttach == [] then pindexTest == pindexNewBest else vAttach[0] == pindexNewBest
        invariant forall b | b in vAttach ::
                    && b in chain.mapBlockIndex.Values && Reaches(pindexNewBest, b)
                    && (chain.pindexBest == null || b.nChainWork > chain.pindexBest.nChainWork)
        decreases Rank(pindexTest)
      {
        if Failed(pindexTest) {
          return pindexTest, vAttach;
        }
        if chain.pindexBest == null || pindexTest.nChainWork > chain.pindexBest.nChainWork {
          vAttach := vAttach + [pindexTest];
        }
        if pindexTest.pprev == null || pindexTest.pnext != null {
          AncestryClean(pindexTest);
          return null, vAttach;
        }
        ReachesTransitive(pindexNewBest, pindexTest, pindexTest.pprev);
        pindexTest := pindexTest.pprev;
      }
    }

    /** Below an unmarked block that is the genesis block or on the main chain nothing is marked. */
    lemma AncestryClean(b: BlockIndex)
      requires Valid() && b in chain.mapBlockIndex.Values && !Failed(b) && (b.pprev == null || b.pnext != null)
      ensures Clean(chain.mapBlockIndex.Values, b)
    {
      assert chain.LinkOk(b, chain.pindexBest);
      forall x | x in chain.mapBlockIndex.Values && Reaches(b, x) ensures !Failed(x) {
        if b.pnext != null {
          ReachesTransitive(chain.pindexBest, b, x);
          UtxoAtAncestor(chain.rules, chain.pindexBest, x);
        }
      }
    }

    /** The switches of ConnectBestBlock, the lowest block first. `unreadable` are the blocks that cannot be read
        from disk, `flushed` those after which the coin state is written to the database. */
    method Attach(vAttach: seq<BlockIndex>, unreadable: set<BlockIndex>, flushed: set<BlockIndex>,
        ghost pindexNewBest: BlockIndex)
      returns (ok: bool)
      requires Valid() && vAttach != [] && vAttach[0] == pindexNewBest
          && Clean(chain.mapBlockIndex.Values, pindexNewBest)
      requires forall b | b in vAttach ::
                 && b in chain.mapBlockIndex.Values && Reaches(pindexNewBest, b)
                 && (chain.pindexBest == null || b.nChainWork > chain.pindexBest.nChainWork)
      modifies this`setBlockIndexValid, chain`pindexBest, chain`pblockindexFBBHLast, chain`nBestHeight,
          chain`pindexGenesisBlock
      modifies chain.mapBlockIndex.Values, chain.pcoinsTip.Repr()
      ensures Valid() && Moved(old(chain.pindexBest))
      ensures ok ==> chain.pindexBest == pindexNewBest && setBlockIndexValid == old(setBlockIndexValid)
      ensures forall b | b in chain.mapBlockIndex.Values :: old(Failed(b)) ==> Failed(b)
      ensures !ok && unreadable == {} && chain.LockLimitsOk() ==> exists b ::
                                                                    b in chain.mapBlockIndex.Values && Failed(b)
                                                                    && !old(Failed(b))
    {
      hide UtxoAt, Node.ChainState.Valid, Reaches;
      Tree();
      for i := |vAttach| downto 0
        invariant Valid() && chain.pindexBest == if i == |vAttach| then old(chain.pindexBest) else vAttach[i]
        invariant setBlockIndexValid == old(setBlockIndexValid)
        invariant forall b | b in chain.mapBlockIndex.Values :: Failed(b) == old(Failed(b))
      {
        assert vAttach[i] in vAttach;
        var failed;
        ok, failed := chain.SetBestChain(vAttach[i], unreadable, vAttach[i] in flushed);
        if !ok {
          if failed != null {
            ReachesTransitive(pindexNewBest, vAttach[i], failed);
            InvalidBlockFound(failed);
          }
          return;
        }
      }
      ok := true;
    }

    /** ConnectBestBlock. When it succeeds the node is on a valid chain with the most work of all known ones; the
        best block is only ever left for one with more work; and a failure that is not one of the disk leaves
        a block marked that was not, so that the next call will not try it again. */
    method ConnectBestBlock(unreadable: set<BlockIndex>, flushed: set<BlockIndex>) returns (ok: bool)
      requires Valid()
      modifies this`setBlockIndexValid, chain`pindexBest, chain`pblockindexFBBHLast, chain`nBestHeight,
          chain`pindexGenesisBlock
      modifies chain.mapBlockIndex.Values, chain.pcoinsTip.Repr()
      ensures Valid() && Moved(old(chain.pindexBest))
      ensures ok ==> MostWork()
      ensures forall b | b in chain.mapBlockIndex.Values :: old(Failed(b)) ==> Failed(b)
      ensures !ok && unreadable == {} && chain.LockLimitsOk() ==> exists b ::
                                                                    b in chain.mapBlockIndex.Values && Failed(b)
                                                                    && !old(Failed(b))
    {
      hide UtxoAt, Node.ChainState.Valid, Reaches, Clean;
      Tree();
      while true
        invariant Valid() && chain.pindexBest == old(chain.pindexBest)
        invariant forall b | b in chain.mapBlockIndex.Values :: old(Failed(b)) ==> Failed(b)
        decreases setBlockIndexValid
      {
        if setBlockIndexValid == {} {
          return true;
        }
        var pindexNewBest := Last(setBlockIndexValid);
        if chain.pindexBest != null {
          BestIsCandidate();
        }
        if pindexNewBest == chain.pindexBest
            || (chain.pindexBest != null && pindexNewBest.nChainWork == chain.pindexBest.nChainWork) {
          return true;
        }
        var failedAt, vAttach := CheckAncestry(pindexNewBest);
        if failedAt == null {
          ok := Attach(vAttach, unreadable, flushed, pindexNewBest);
          return;
        }
        MarkDescendants(pindexNewBest, failedAt);
      }
    }

    /** AcceptBlock's look-ups and AddToBlockIndex: a block that is already known or whose predecessor is not is
        refused; any other becomes a candidate and the best chain is chosen anew. */
    method AddToBlockIndex(block: Block, hashPrevBlock: nat, nWork: nat, unreadable: set<BlockIndex>,
        flushed: set<BlockIndex>)
      returns (pindexNew: BlockIndex?, ok: bool)
      requires Valid() && (block.hash == chain.rules.genesisHash ==> hashPrevBlock !in chain.mapBlockIndex)
      modifies this, chain, chain.mapBlockIndex.Values, chain.pcoinsTip.Repr()
      ensures Valid() && Moved(old(chain.pindexBest))
      ensures pindexNew == null <==> block.hash in old(chain.mapBlockIndex) ||
                                     (block.hash != chain.rules.genesisHash
                                         && hashPrevBlock !in old(chain.mapBlockIndex))
      ensures chain.mapBlockIndex == if pindexNew == null then old(chain.mapBlockIndex)
          else old(chain.mapBlockIndex)[block.hash := pindexNew]
      ensures pindexNew == null ==> !ok && chain.pindexBest == old(chain.pindexBest)
      ensures pindexNew != null ==> pindexNew.block == block
      ensures pindexNew != null ==> pindexNew.pprev == if hashPrevBlock in old(chain.mapBlockIndex)
          then old(chain.mapBlockIndex)[hashPrevBlock] else null
      ensures ok ==> MostWork()
    {
      hide UtxoAt, Node.ChainState.Valid;
      Tree();
      pindexNew := chain.NewBlockIndex(block, hashPrevBlock, nWork);
      if pindexNew == null {
        return null, false;
      }
      ValuesAfter(old(chain.mapBlockIndex), pindexNew);
      setBlockIndexValid := setBlockIndexValid + {pindexNew};
      ok := ConnectBestBlock(unreadable, flushed);
    }
  }
}
