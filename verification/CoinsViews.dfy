/** The coin database and the caches stacked on it. */
module CoinsViews {
  import opened Coins
  import opened Storage
  import opened Utxo

  /** CBlockIndex: a node of the block tree. The fields that are written once, when the node is
      inserted, are constants; `block` is what ReadFromDisk returns for it and `undo` what is read of its
      undo data on disk, None while BLOCK_HAVE_UNDO is not set. The two flags are the BLOCK_FAILED bits of
      nStatus; `nWork` is what GetBlockWork comes to. */
  class BlockIndex {
    const block: Block
    const pprev: BlockIndex?
    const nHeight: nat
    const nChainWork: nat
    var pnext: BlockIndex?
    var nMoneySupply: int
    var undo: Option<seq<TxUndo>>
    var fFailedValid: bool
    var fFailedChild: bool

    constructor (block: Block, pprev: BlockIndex?, nWork: nat)
      ensures this.block == block && this.pprev == pprev
      ensures nChainWork == (if pprev == null then 0 else pprev.nChainWork) + nWork
      ensures !fFailedValid && !fFailedChild
      ensures nHeight == if pprev == null then 0 else pprev.nHeight + 1
      ensures pnext == null && nMoneySupply == 0 && undo == None
    {
      this.block, this.pprev := block, pprev;
      nHeight := if pprev == null then 0 else pprev.nHeight + 1;
      nChainWork := (if pprev == null then 0 else pprev.nChainWork) + nWork;
      pnext, nMoneySupply, undo := null, 0, None;
      fFailedValid, fFailedChild := false, false;
    }
  }

  /** A stored map without its fully spent records. */
  ghost function Unspent(m: map<TxId, CoinRecord>): UtxoSet {
    map id | id in m && !m[id].IsPruned() :: m[id]
  }

  lemma UnspentUpdate(m: map<TxId, CoinRecord>, id: TxId, c: CoinRecord)
    ensures Unspent(m[id := c]) == Put(Unspent(m), id, c)
  {
  }

  /** What is found of the entries after they were written: the database keeps what the serialization keeps. */
  ghost function Written(entries: map<TxId, CoinRecord>, database: bool): map<TxId, CoinRecord> {
    map id | id in entries :: if database then StoredRecord(entries[id]) else entries[id]
  }

  lemma WrittenKept(below: map<TxId, CoinRecord>, entries: map<TxId, CoinRecord>, database: bool)
    ensures Kept(Unspent(below + Written(entries, database)), Unspent(below + entries))
    ensures !database ==> Written(entries, database) == entries
  {
  }

  /** Writing to the database loses nothing exactly if no unspent entry has a negative version. */
  lemma WrittenExactly(below: map<TxId, CoinRecord>, entries: map<TxId, CoinRecord>)
    ensures Unspent(below + Written(entries, true)) == Unspent(below + entries) <==>
            forall id | id in entries && !entries[id].IsPruned() :: entries[id].nVersion >= 0
  {
    var a, b := Unspent(below + Written(entries, true)), Unspent(below + entries);
    WrittenKept(below, entries, true);
    forall id | id in entries && !entries[id].IsPruned() ensures id in b && a[id] == StoredRecord(entries[id])
        && b[id] == entries[id] {
    }
    if forall id | id in entries && !entries[id].IsPruned() :: entries[id].nVersion >= 0 {
      forall id | id in b ensures a[id] == b[id] {
        if id in entries { assert !entries[id].IsPruned(); }
      }
    }
  }

  /** All entries but those in `todo` are merged. */
  ghost predicate Merging(r: map<TxId, CoinRecord>, into: map<TxId, CoinRecord>, entries: map<TxId, CoinRecord>,
      database: bool, todo: set<TxId>) {
    && todo <= entries.Keys
    && (forall id | id !in entries || id in todo :: (id in r <==> id in into) && (id in r ==> r[id] == into[id]))
    && forall id | id in entries && id !in todo ::
         if database && entries[id].IsPruned() then id !in r
         else id in r && r[id] == if database then StoredRecord(entries[id]) else entries[id]
  }

  ghost predicate Shows(m: map<TxId, CoinRecord>, id: TxId, c: CoinRecord) { id in m && m[id] == c && !c.IsPruned() }

  lemma UnspentSame(a: map<TxId, CoinRecord>, b: map<TxId, CoinRecord>)
    requires forall id, c :: Shows(a, id, c) <==> Shows(b, id, c)
    ensures Unspent(a) == Unspent(b)
  {
    forall id ensures id in Unspent(a) <==> id in Unspent(b) {
      if id in a { assert Shows(a, id, a[id]) <==> Shows(b, id, a[id]); }
      if id in b { assert Shows(b, id, b[id]) <==> Shows(a, id, b[id]); }
    }
    forall id | id in Unspent(a) ensures Unspent(a)[id] == Unspent(b)[id] {
      assert Shows(a, id, a[id]) <==> Shows(b, id, a[id]);
    }
  }

  lemma MergedAll(r: map<TxId, CoinRecord>, into: map<TxId, CoinRecord>, entries: map<TxId, CoinRecord>, database: bool)
    requires Merging(r, into, entries, database, {})
    ensures Unspent(r) == Unspent(into + Written(entries, database))
    ensures !database ==> r == into + entries
  {
    hide Unspent;
    forall id, c ensures Shows(r, id, c) <==> Shows(into + Written(entries, database), id, c) {
      if id in entries {
        assert Written(entries, database)[id].IsPruned() == entries[id].IsPruned();
      }
    }
    UnspentSame(r, into + Written(entries, database));
  }

  lemma MergeStep(r: map<TxId, CoinRecord>, into: map<TxId, CoinRecord>, entries: map<TxId, CoinRecord>,
      database: bool, todo: set<TxId>, id: TxId)
    requires Merging(r, into, entries, database, todo) && id in todo
    ensures var c := entries[id];
            Merging(if database && c.IsPruned() then r - {id} else r[id := if database then StoredRecord(c) else c],
                into, entries, database, todo - {id})
  {
  }

  /** The loop of BatchWrite. The database erases spent records instead of storing them. */
  method MergeEntries(into: map<TxId, CoinRecord>, entries: map<TxId, CoinRecord>, database: bool)
    returns (r: map<TxId, CoinRecord>)
    ensures Unspent(r) == Unspent(into + Written(entries, database))
    ensures !database ==> r == into + entries
  {
    hide Unspent, Written;
    r := into;
    var todo := entries.Keys;
    while todo != {}
      invariant Merging(r, into, entries, database, todo)
    {
      hide Merging;
      var id :| id in todo;
      MergeStep(r, into, entries, database, todo, id);
      if database && entries[id].IsPruned() {
        r := r - {id};
      } else {
        r := r[id := if database then StoredRecord(entries[id]) else entries[id]];
      }
      todo := todo - {id};
    }
    MergedAll(r, into, entries, database);
  }

  /** CCoinsViewDB when `base` is null, CCoinsViewCache on top of `base` otherwise. */
  class CoinsView {
    var coins: map<TxId, CoinRecord>
    var tip: BlockIndex?
    const base: CoinsView?
    ghost const level: nat

    ghost predicate Layered()
      decreases level
    {
      base != null ==> base.level < level && base.Layered()
    }

    ghost function Repr(): (r: set<CoinsView>)
      ensures this in r && forall v | v in r :: v.level <= level
      decreases level
    {
      {this} + if base == null || base.level >= level then {} else base.Repr()
    }

    lemma ReprAllocated()
      requires Layered()
      ensures forall v | v in Repr() :: allocated(v)
      decreases level
    {
      if base != null {
        base.ReprAllocated();
      }
    }

    /** What a caller of this view sees: its own entries over those of the views below. */
    ghost function Contents(): map<TxId, CoinRecord>
      requires Layered()
      reads Repr()
      decreases level
    {
      if base == null then coins else base.Contents() + coins
    }

    ghost function Best(): BlockIndex?
      requires Layered()
      reads Repr()
      decreases level
    {
      if tip != null || base == null then tip else base.Best()
    }

    /** What the view below shows. */
    ghost function Below(): (map<TxId, CoinRecord>, BlockIndex?)
      requires Layered()
      reads Repr()
    {
      if base == null then (map[], null) else (base.Contents(), base.Best())
    }

    constructor Database()
      ensures Layered() && base == null && Contents() == map[] && Best() == null && fresh(Repr())
    {
      coins, tip, base, level := map[], null, null, 0;
    }

    constructor Cache(base: CoinsView)
      requires base.Layered()
      ensures Layered() && this.base == base && Repr() == {this} + base.Repr()
      ensures Contents() == base.Contents() && Best() == base.Best()
      ensures coins == map[] && tip == null
    {
      coins, tip, this.base, level := map[], null, base, base.level + 1;
    }

    /** GetCoins and FetchCoins: a miss is copied from below into this cache. */
    method GetCoins(txid: TxId) returns (found: bool, c: CoinRecord)
      requires Layered()
      modifies Repr()
      ensures Contents() == old(Contents()) && Best() == old(Best()) && Below() == old(Below())
      ensures found <==> txid in Contents()
      ensures found ==> c == Contents()[txid]
      ensures !found ==> c == EMPTY_COINS
      decreases level
    {
      if txid in coins {
        return true, coins[txid];
      }
      if base == null {
        return false, EMPTY_COINS;
      }
      found, c := base.GetCoins(txid);
      if found {
        coins := coins[txid := c];
      }
    }

    method HaveCoins(txid: TxId) returns (have: bool)
      requires Layered()
      modifies Repr()
      ensures Contents() == old(Contents()) && Best() == old(Best()) && Below() == old(Below())
      ensures have <==> txid in Contents()
    {
      var found, _ := GetCoins(txid);
      have := found;
    }

    method SetCoins(txid: TxId, c: CoinRecord)
      requires Layered() && base != null
      modifies this`coins
      ensures Contents() == old(Contents())[txid := c]
      ensures Best() == old(Best()) && Below() == old(Below())
    {
      assert this !in base.Repr();
      coins := coins[txid := c];
    }

    method GetBestBlock() returns (b: BlockIndex?)
      requires Layered()
      modifies Repr()
      ensures Contents() == old(Contents()) && Best() == old(Best()) && Below() == old(Below())
      ensures b == Best() && (base != null ==> tip == b)
      decreases level
    {
      if tip == null && base != null {
        tip := base.GetBestBlock();
      }
      b := tip;
    }

    method SetBestBlock(b: BlockIndex?)
      requires Layered() && base != null
      modifies this`tip
      ensures tip == b && Contents() == old(Contents()) && Below() == old(Below())
    {
      assert this !in base.Repr();
      tip := b;
    }

    /** The entries win over what was there, as far as they can be stored. */
    method BatchWrite(entries: map<TxId, CoinRecord>, b: BlockIndex?)
      requires Layered()
      modifies this
      ensures Below() == old(Below())
      ensures Unspent(Contents()) == Unspent(old(Contents()) + Written(entries, base == null))
      ensures base != null || b != null ==> tip == b
      ensures base == null && b == null ==> tip == old(tip)
    {
      hide Unspent, Written;
      ghost var below: map<TxId, CoinRecord> := if base == null then map[] else base.Contents();
      assert base != null ==> this !in base.Repr();
      if base != null {
        base.ReprAllocated();
      }
      ghost var was := coins;
      coins := MergeEntries(coins, entries, base == null);
      if base != null || b != null {
        tip := b;
      }
      if base != null {
        WrittenKept(was, entries, false);
        assert below + (was + entries) == below + was + entries;
      }
    }

    /** After a flush the view below shows what this one showed, but that the database has lost the sign of the
        versions it was given. Its best block is this view's own tip; a cache that has never asked for it resets
        the one below to what lies further down. */
    method Flush()
      requires Layered() && base != null
      modifies Repr()
      ensures Unspent(base.Contents()) == Unspent(old(base.Contents()) + Written(old(coins), base.base == null))
      ensures Kept(Unspent(base.Contents()), Unspent(old(Contents())))
      ensures base.base != null ==> Unspent(base.Contents()) == Unspent(old(Contents()))
      ensures Contents() == base.Contents()
      ensures tip == old(tip) && (tip != null ==> Best() == tip)
      ensures base.base != null || tip != null ==> base.tip == tip
      ensures base.Best() == if tip != null then tip
                             else if base.base == null then old(base.Best()) else old(base.base.Best())
    {
      hide Unspent, Written, Kept;
      WrittenKept(base.Contents(), coins, base.base == null);
      base.BatchWrite(coins, tip);
      coins := map[];
      assert Contents() == base.Contents();
    }
  }
}
