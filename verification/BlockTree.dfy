/** Ancestry in the block tree, and the coin state that belongs to a block: a function of the
    block's ancestors alone, since a block, its predecessor and its height never change. */
module BlockTree {
  import opened Coins
  import opened Utxo
  import opened CoinsViews
  import opened Storage

  function Rank(b: BlockIndex?): nat { if b == null then 0 else b.nHeight + 1 }

  /** `a` is `b` or one of its ancestors; null is below the genesis block. */
  ghost predicate Reaches(b: BlockIndex?, a: BlockIndex?)
    decreases Rank(b)
  {
    b == a || (b != null && Rank(b.pprev) < Rank(b) && Reaches(b.pprev, a))
  }

  /** Heights count the ancestors, all the way down. */
  ghost predicate WellFounded(b: BlockIndex?)
    decreases Rank(b)
  {
    b == null || (Rank(b) == Rank(b.pprev) + 1 && WellFounded(b.pprev))
  }

  lemma {:induction false} ReachesRank(b: BlockIndex?, a: BlockIndex?)
    requires WellFounded(b) && Reaches(b, a)
    ensures WellFounded(a) && Rank(a) <= Rank(b) && (Rank(a) == Rank(b) ==> a == b)
    decreases Rank(b)
  {
    if a != b {
      ReachesRank(b.pprev, a);
    }
  }

  lemma {:induction false} ReachesTransitive(c: BlockIndex?, b: BlockIndex?, a: BlockIndex?)
    requires Reaches(c, b) && Reaches(b, a)
    ensures Reaches(c, a)
    decreases Rank(c)
  {
    if c != b {
      ReachesTransitive(c.pprev, b, a);
    }
  }

  /** The ancestors of a block are linearly ordered by height. */
  lemma {:induction false} ReachesLinear(c: BlockIndex?, b: BlockIndex?, a: BlockIndex?)
    requires WellFounded(c) && Reaches(c, b) && Reaches(c, a) && Rank(a) <= Rank(b)
    ensures Reaches(b, a)
    decreases Rank(c)
  {
    if c != b {
      ReachesRank(c.pprev, b);
      ReachesLinear(c.pprev, b, a);
    }
  }

  /** Every block reaches the place below the genesis block. */
  lemma {:induction false} ReachesNull(b: BlockIndex?)
    requires WellFounded(b)
    ensures Reaches(b, null)
    decreases Rank(b)
  {
    if b != null {
      ReachesNull(b.pprev);
    }
  }

  /** The blocks from `b` down to, and without, `a`. */
  ghost function Branch(b: BlockIndex?, a: BlockIndex?): seq<BlockIndex>
    requires Reaches(b, a)
    decreases Rank(b)
  {
    if b == a then [] else [b] + Branch(b.pprev, a)
  }

  lemma {:induction false} BranchMember(b: BlockIndex?, a: BlockIndex?, x: BlockIndex)
    requires WellFounded(b) && Reaches(b, a)
    ensures x in Branch(b, a) <==> Reaches(b, x) && Rank(x) > Rank(a)
    decreases Rank(b)
  {
    ReachesRank(b, a);
    if b == a {
      if Reaches(b, x) { ReachesRank(b, x); }
    } else {
      BranchMember(b.pprev, a, x);
      ReachesRank(b.pprev, a);
      if Reaches(b.pprev, x) { ReachesRank(b.pprev, x); }
    }
  }

  /** Position i of a branch: its predecessor follows it, the last one sits on `a`. */
  lemma {:induction false} BranchShape(b: BlockIndex?, a: BlockIndex?, i: nat)
    requires WellFounded(b) && Reaches(b, a) && i < |Branch(b, a)|
    ensures var s := Branch(b, a);
            s[0] == b && s[i].pprev == (if i + 1 < |s| then s[i + 1] else a) && WellFounded(s[i])
                && Rank(s[i]) == Rank(a) + |s| - i
    decreases Rank(b)
  {
    var s := Branch(b, a);
    assert s[1..] == Branch(b.pprev, a);
    if b.pprev != a {
      BranchShape(b.pprev, a, if i == 0 then 0 else i - 1);
    }
  }

  /** The coin state after connecting all blocks up to `b`, None if one of them is invalid.
      The outputs of the genesis block do not enter it. */
  ghost function UtxoAt(r: Rules, b: BlockIndex?): Option<UtxoSet>
    decreases Rank(b)
  {
    if b == null then Some(map[])
    else if b.pprev == null then if CheckBlock(r, b.block) then Some(map[]) else None
    else
      match Connected(r, b)
      case None => None
      case Some(p) => Some(p.utxo)
  }

  /** What connecting `b` on top of its ancestors gives. */
  ghost function Connected(r: Rules, b: BlockIndex): Option<Progress>
    requires b.pprev != null
    decreases Rank(b), 0
  {
    if Rank(b.pprev) >= Rank(b) then None
    else
      match UtxoAt(r, b.pprev)
      case None => None
      case Some(u) => ConnectBlock(r, u, b.block, b.nHeight)
  }

  /** `w` is the coin state that belongs to `b`, but for versions that storage has changed. */
  ghost predicate Holds(r: Rules, b: BlockIndex?, w: UtxoSet) { UtxoAt(r, b).Some? && Kept(w, UtxoAt(r, b).value) }

  /** What the undo file gives back of the undo data of a block. */
  ghost function UndoFile(r: Rules, b: BlockIndex): seq<TxUndo>
    requires b.pprev != null && Connected(r, b).Some?
  {
    StoredBlockUndo(Connected(r, b).value.undo)
  }

  /** Disconnecting the block at the tip, with what the undo file gives back, is clean and leads to a state that
      belongs to its predecessor, whatever versions were lost before. */
  lemma DisconnectTip(r: Rules, b: BlockIndex, w: UtxoSet)
    requires WellFounded(b) && b.pprev != null && Holds(r, b, w)
    ensures Connected(r, b).Some? && CheckBlock(r, b.block)
    ensures var d := DisconnectBlock(w, b.block, UndoFile(r, b), b.nHeight); d.Some? && Holds(r, b.pprev, d.value)
  {
    hide ConnectBlock, DisconnectBlock, CheckBlock;
    assert Connected(r, b).Some?;
    UtxoAtValid(r, b.pprev);
    var u, p := UtxoAt(r, b.pprev).value, Connected(r, b).value;
    ConnectChecked(r, u, b.block, b.nHeight);
    KeptIsReread(w, p.utxo);
    var lost := Lost(w, p.utxo);
    DisconnectStored(r, u, b.block, b.nHeight, lost);
    RereadKept(u, lost + (u.Keys - p.utxo.Keys));
  }

  lemma ConnectChecked(r: Rules, u: UtxoSet, block: Block, nHeight: nat)
    requires ConnectBlock(r, u, block, nHeight).Some?
    ensures CheckBlock(r, block)
  {
  }

  /** Connecting a block to a state of its predecessor, whatever versions were lost before, succeeds or fails as
      it should, leads to a state of the block, and writes the undo data that belong to it. */
  lemma ConnectTip(r: Rules, b: BlockIndex, w: UtxoSet)
    requires WellFounded(b) && b.pprev != null && Holds(r, b.pprev, w)
    ensures UtxoAt(r, b.pprev).Some?
    ensures ConnectBlock(r, w, b.block, b.nHeight).Some? <==> UtxoAt(r, b).Some?
    ensures Connected(r, b).Some? <==> UtxoAt(r, b).Some?
    ensures UtxoAt(r, b).Some? ==>
              var (c, p) := (ConnectBlock(r, w, b.block, b.nHeight).value, Connected(r, b).value);
              && Holds(r, b, c.utxo) && StoredBlockUndo(c.undo) == UndoFile(r, b)
              && Total(p.utxo) == Total(UtxoAt(r, b.pprev).value) + c.nValueOut - c.nValueIn
  {
    hide ConnectBlock, Total, ValidUtxo;
    UtxoAtValid(r, b.pprev);
    var u := UtxoAt(r, b.pprev).value;
    KeptIsReread(w, u);
    ConnectReread(r, u, Lost(w, u), b.block, b.nHeight);
    if Connected(r, b).Some? {
      var c, p := ConnectBlock(r, w, b.block, b.nHeight).value, Connected(r, b).value;
      RereadKept(p.utxo, Lost(w, u));
      ConnectConserves(r, u, b.block, b.nHeight);
    }
  }

  /** The genesis block leaves the state as it is. */
  lemma GenesisTip(r: Rules, b: BlockIndex, w: UtxoSet)
    requires b.pprev == null && Holds(r, null, w)
    ensures UtxoAt(r, b).Some? <==> CheckBlock(r, b.block)
    ensures UtxoAt(r, b).Some? ==> Holds(r, b, w)
  {
  }

  /** No transaction of the chain up to `b` has a negative version. */
  ghost predicate NoNegativeChain(b: BlockIndex?)
    decreases Rank(b)
  {
    b == null || ((forall i | 0 <= i < |b.block.vtx| :: b.block.vtx[i].nVersion >= 0)
                  && (Rank(b.pprev) < Rank(b) ==> NoNegativeChain(b.pprev)))
  }

  lemma {:induction false} NoNegativeAt(r: Rules, b: BlockIndex?)
    requires NoNegativeChain(b) && UtxoAt(r, b).Some?
    ensures NoNegative(UtxoAt(r, b).value)
    decreases Rank(b)
  {
    hide CheckBlock, ConnectTxs;
    if b != null && b.pprev != null {
      NoNegativeAt(r, b.pprev);
      ConnectNoNegative(r, b.block, UtxoAt(r, b.pprev).value, b.block.vtx, b.nHeight);
    }
  }

  /** On a chain without negative versions storage loses nothing: there is only one state that belongs to it. */
  lemma HoldsExactly(r: Rules, b: BlockIndex?, w: UtxoSet)
    requires Holds(r, b, w) && NoNegativeChain(b)
    ensures Some(w) == UtxoAt(r, b)
  {
    NoNegativeAt(r, b);
    KeptWhole(w, UtxoAt(r, b).value);
  }

  lemma {:induction false} UtxoAtValid(r: Rules, b: BlockIndex?)
    requires WellFounded(b) && UtxoAt(r, b).Some?
    ensures ValidUtxo(UtxoAt(r, b).value)
    decreases Rank(b)
  {
    if b != null && b.pprev != null {
      UtxoAtValid(r, b.pprev);
      DisconnectInvertsConnect(r, UtxoAt(r, b.pprev).value, b.block, b.nHeight);
    }
  }

  /** An invalid ancestor makes the block invalid. */
  lemma {:induction false} UtxoAtAncestor(r: Rules, b: BlockIndex?, a: BlockIndex?)
    requires Reaches(b, a) && UtxoAt(r, b).Some?
    ensures UtxoAt(r, a).Some?
    decreases Rank(b)
  {
    if b != a {
      UtxoAtAncestor(r, b.pprev, a);
    }
  }

  ghost function SubsidySum(r: Rules, b: BlockIndex?): int
    decreases Rank(b)
  {
    if b == null || b.pprev == null || Rank(b.pprev) >= Rank(b) then 0
    else SubsidySum(r, b.pprev) + r.subsidy(b.block.nBits)
  }

  /** No chain of valid blocks, however long, holds more value than the subsidies of its blocks. */
  lemma {:induction false} SupplyBound(r: Rules, b: BlockIndex?)
    requires WellFounded(b) && UtxoAt(r, b).Some?
    ensures Total(UtxoAt(r, b).value) <= SubsidySum(r, b)
    decreases Rank(b)
  {
    if b != null && b.pprev != null {
      SupplyBound(r, b.pprev);
      UtxoAtValid(r, b.pprev);
      ConnectConserves(r, UtxoAt(r, b.pprev).value, b.block, b.nHeight);
    }
  }
}
