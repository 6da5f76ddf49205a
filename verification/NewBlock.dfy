/** CreateNewBlock as a whole: the chosen transactions behind a coinbase that claims the fees, and the trial
    connection at the end. */
module NewBlock {
  import opened Coins
  import opened Utxo
  import opened CoinsViews
  import BlockConnect
  import BlockTemplate

  // ---------------------------------------------------------------- a record that nothing spends makes no difference

  /** No input of the list spends from `id`. */
  predicate Apart(vin: seq<OutPoint>, id: TxId) { forall i | 0 <= i < |vin| :: vin[i].hash != id }

  lemma {:induction false} SpendBeside(u: UtxoSet, vin: seq<OutPoint>, id: TxId, c: CoinRecord)
    requires Apart(vin, id)
    ensures SpendInputs(u[id := c], vin) ==
            match SpendInputs(u, vin) case None => None case Some(s) => Some((s.0[id := c], s.1))
  {
    if vin != [] {
      var k := |vin| - 1;
      SpendBeside(u, vin[..k], id, c);
      if SpendInputs(u, vin[..k]).Some? {
        var p, out := SpendInputs(u, vin[..k]).value, vin[k];
        if Available(p.0, out) {
          PutBeside(p.0, out.hash, SpendResult(p.0[out.hash], out.n).0, id, c);
        }
      }
    }
  }

  lemma PutBeside(u: UtxoSet, a: TxId, d: CoinRecord, id: TxId, c: CoinRecord)
    requires a != id
    ensures Put(u[id := c], a, d) == Put(u, a, d)[id := c]
  {
  }

  lemma {:induction false} ValueInBeside(u: UtxoSet, vin: seq<OutPoint>, id: TxId, c: CoinRecord)
    requires Apart(vin, id) && HaveInputs(u, vin)
    ensures HaveInputs(u[id := c], vin) && ValueIn(u[id := c], vin) == ValueIn(u, vin)
  {
    if vin != [] {
      ValueInBeside(u, vin[..|vin| - 1], id, c);
    }
  }

  lemma {:induction false} SigOpsBeside(r: Rules, u: UtxoSet, tx: Tx, k: nat, id: TxId, c: CoinRecord)
    requires Apart(tx.vin, id) && k <= |tx.vin| && HaveInputs(u, tx.vin)
    ensures HaveInputs(u[id := c], tx.vin) && P2SHSigOps(r, u[id := c], tx, k) == P2SHSigOps(r, u, tx, k)
  {
    if k > 0 {
      SigOpsBeside(r, u, tx, k - 1, id, c);
    }
  }

  lemma ChecksBeside(r: Rules, u: UtxoSet, tx: Tx, h: nat, id: TxId, c: CoinRecord)
    requires Apart(tx.vin, id) && CheckInputs(u, tx, h)
    ensures CheckInputs(u[id := c], tx, h) && HaveInputs(u[id := c], tx.vin)
    ensures ValueIn(u[id := c], tx.vin) == ValueIn(u, tx.vin)
    ensures ScriptsOk(r, u[id := c], tx) == ScriptsOk(r, u, tx)
    ensures P2SHSigOps(r, u[id := c], tx, |tx.vin|) == P2SHSigOps(r, u, tx, |tx.vin|)
  {
    ValueInBeside(u, tx.vin, id, c);
    SigOpsBeside(r, u, tx, |tx.vin|, id, c);
  }

  /** The totals behind a coinbase. */
  function Behind(p: Progress, coinbase: Tx, h: nat): Progress {
    p.(utxo := p.utxo[coinbase.id := CoinsOf(coinbase, h)], nValueOut := ValueOut(coinbase.vout) + p.nValueOut,
       nSigOps := coinbase.legacySigOps + p.nSigOps)
  }

  lemma ConnectBehind(r: Rules, a: Block, b: Block, p: Progress, tx: Tx, h: nat, coinbase: Tx)
    requires a.strictP2SH == b.strictP2SH && !tx.IsCoinBase() && Apart(tx.vin, coinbase.id) && tx.id != coinbase.id
    requires ConnectTx(r, a, p, tx, h).Some?
        && coinbase.legacySigOps + ConnectTx(r, a, p, tx, h).value.nSigOps <= MAX_BLOCK_SIGOPS
    ensures ConnectTx(r, b, Behind(p, coinbase, h), tx, h) == Some(Behind(ConnectTx(r, a, p, tx, h).value, coinbase, h))
    ensures p.nSigOps <= ConnectTx(r, a, p, tx, h).value.nSigOps
  {
    hide CheckInputs, ScriptsOk, P2SHSigOps, ValueIn, ValueOut, SpendInputs, HaveInputs;
    var c := CoinsOf(coinbase, h);
    assert CheckInputs(p.utxo, tx, h);
    ChecksBeside(r, p.utxo, tx, h, coinbase.id, c);
    SpendBeside(p.utxo, tx.vin, coinbase.id, c);
    var s: UtxoSet := SpendInputs(p.utxo, tx.vin).value.0;
    assert s[coinbase.id := c][tx.id := CoinsOf(tx, h)] == s[tx.id := CoinsOf(tx, h)][coinbase.id := c];
  }

  lemma CoinbaseFirst(r: Rules, b: Block, u: UtxoSet, h: nat, coinbase: Tx)
    requires coinbase.IsCoinBase() && coinbase.legacySigOps <= MAX_BLOCK_SIGOPS
    ensures ConnectTxs(r, b, u, [coinbase], h) == Some(Behind(Progress(u, [], 0, 0, 0, 0, true), coinbase, h))
  {
    assert [coinbase][..0] == [];
    assert ConnectTxs(r, b, u, [], h) == Some(Progress(u, [], 0, 0, 0, 0, true));
  }

  /** What connects by itself connects behind a coinbase that it does not spend from. */
  lemma {:induction false} ConnectAllBehind(r: Rules, a: Block, b: Block, u: UtxoSet, vtx: seq<Tx>, h: nat,
      coinbase: Tx)
    requires a.strictP2SH == b.strictP2SH && coinbase.IsCoinBase()
    requires forall i | 0 <= i < |vtx| ::
               !vtx[i].IsCoinBase() && Apart(vtx[i].vin, coinbase.id) && vtx[i].id != coinbase.id
    requires ConnectTxs(r, a, u, vtx, h).Some?
        && coinbase.legacySigOps + ConnectTxs(r, a, u, vtx, h).value.nSigOps <= MAX_BLOCK_SIGOPS
    ensures ConnectTxs(r, b, u, [coinbase] + vtx, h) == Some(Behind(ConnectTxs(r, a, u, vtx, h).value, coinbase, h))
  {
    hide ConnectTx, Behind;
    if vtx == [] {
      assert [coinbase] + vtx == [coinbase];
      CoinbaseFirst(r, b, u, h, coinbase);
    } else {
      var k := |vtx| - 1;
      var all := [coinbase] + vtx;
      assert all[..|all| - 1] == [coinbase] + vtx[..k] && all[|all| - 1] == vtx[k];
      ConnectBehind(r, a, b, ConnectTxs(r, a, u, vtx[..k], h).value, vtx[k], h, coinbase);
      ConnectAllBehind(r, a, b, u, vtx[..k], h, coinbase);
    }
  }

  // ---------------------------------------------------------------- the block

  /** The coinbase of CreateNewBlock: it claims the subsidy and all fees. */
  function Coinbase(r: Rules, nBits: nat, nFees: int, form: Tx): Tx {
    Tx(form.id, form.nVersion, [OutPoint(0, NULL_INDEX)],
       [TxOut(r.subsidy(nBits) + nFees, if form.vout == [] then [] else form.vout[0].script)], form.nBytes,
           form.legacySigOps)
  }

  /** The coinbase's hash is a new one, and its script fits the signature operations reserved for it. */
  ghost predicate Fresh(u: UtxoSet, pool: BlockTemplate.Pool, coinbase: Tx) {
    && coinbase.id !in u && coinbase.id !in pool && coinbase.legacySigOps <= BlockTemplate.SIGOPS_RESERVED
    && forall h | h in pool :: Apart(pool[h].vin, coinbase.id)
  }

  /** What decides whether the block connects: nothing but the size of the coinbase, the range of what it claims,
      and the checks of CheckBlock that look at neither transactions nor coins. */
  predicate Passes(r: Rules, block: Block, value: int, nBytes: nat) {
    && MIN_TXOUT_AMOUNT <= value <= MAX_MONEY && nBytes < 1000 && r.lockLimitOk(block) && r.otherBlockChecks(block)
  }

  lemma SmallFee(nBytes: nat)
    ensures MinFee(nBytes) <= MIN_TX_FEE <==> nBytes < 1000
  {
  }

  lemma CoinbaseChecks(r: Rules, nBits: nat, nFees: int, form: Tx)
    ensures var (coinbase, value) := (Coinbase(r, nBits, nFees, form), r.subsidy(nBits) + nFees);
            && coinbase.IsCoinBase() && ValueOut(coinbase.vout) == value
            && (CheckTransaction(coinbase) <==> MIN_TXOUT_AMOUNT <= value <= MAX_MONEY)
  {
    var coinbase := Coinbase(r, nBits, nFees, form);
    assert coinbase.vout[..0] == [];
    if CheckTransaction(coinbase) {
      assert MIN_TXOUT_AMOUNT <= coinbase.vout[0].nValue <= MAX_MONEY;
    }
  }

  lemma BlockChecks(r: Rules, u: UtxoSet, pool: BlockTemplate.Pool, isFinal: Tx -> bool, vtx: seq<Tx>, coinbase: Tx,
      block: Block)
    requires BlockTemplate.FromPool(pool, isFinal, vtx) && BlockTemplate.PoolOk(pool, u) && Fresh(u, pool, coinbase)
    requires coinbase.IsCoinBase() && block.vtx == [coinbase] + vtx
    ensures CheckBlock(r, block) <==> CheckTransaction(coinbase) && r.lockLimitOk(block) && r.otherBlockChecks(block)
    ensures NoOverwrite(u, block.vtx)
  {
    hide CheckTransaction, BlockTemplate.InputsKnown;
    forall i | 0 < i < |block.vtx| ensures block.vtx[i] == vtx[i - 1] && !block.vtx[i].IsCoinBase()
        && CheckTransaction(block.vtx[i]) {
      assert BlockTemplate.Eligible(isFinal, vtx[i - 1]);
    }
    forall i, j | 0 <= i < j < |block.vtx| ensures block.vtx[i].id != block.vtx[j].id {
      assert vtx[j - 1].id in pool;
      if i > 0 {
        assert vtx[i - 1].id != vtx[j - 1].id;
      }
    }
    assert block.vtx[0] == coinbase;
  }

  /** The filled block connects on top of the state it was filled for exactly if it passes those tests. */
  lemma TemplateConnects(r: Rules, header: Block, u: UtxoSet, pool: BlockTemplate.Pool, isFinal: Tx -> bool,
      vtx: seq<Tx>, h: nat, view: UtxoSet, nFees: int, nSigOps: nat, form: Tx, block: Block)
    requires BlockTemplate.Connects(r, header, u, vtx, h, view, nFees, nSigOps) && nSigOps < MAX_BLOCK_SIGOPS
    requires BlockTemplate.FromPool(pool, isFinal, vtx) && BlockTemplate.PoolOk(pool, u)
    requires Fresh(u, pool, Coinbase(r, block.nBits, nFees, form)) && block.strictP2SH == header.strictP2SH
    requires block.vtx == [Coinbase(r, block.nBits, nFees, form)] + vtx
    ensures ConnectBlock(r, u, block, h).Some? <==> Passes(r, block, r.subsidy(block.nBits) + nFees, form.nBytes)
  {
    hide CheckTransaction, CheckBlock, NoOverwrite, ConnectTxs, ConnectTx, ValueOut, MinFee, BlockTemplate.PoolOk,
        Apart;
    var coinbase := Coinbase(r, block.nBits, nFees, form);
    CoinbaseChecks(r, block.nBits, nFees, form);
    BlockChecks(r, u, pool, isFinal, vtx, coinbase, block);
    SmallFee(form.nBytes);
    forall i | 0 <= i < |vtx| ensures !vtx[i].IsCoinBase() && Apart(vtx[i].vin, coinbase.id)
        && vtx[i].id != coinbase.id {
      assert vtx[i].id in pool && BlockTemplate.Eligible(isFinal, vtx[i]);
    }
    ConnectAllBehind(r, header, block, u, vtx, h, coinbase);
  }

  /** CreateNewBlock. `u` is the coin state at `pindexPrev`, which the transactions are chosen against; `form` is the
      coinbase before its value is known. The trial ConnectBlock at the end succeeds, so that the exception behind
      it is not thrown, exactly if the coinbase and the checks without context are in order. */
  method CreateNewBlock(r: Rules, policy: BlockTemplate.Policy, pcoinsTip: CoinsView, pindexPrev: BlockIndex,
      u: UtxoSet, pool: BlockTemplate.Pool, isFinal: Tx -> bool, hash: nat, nBits: nat, form: Tx)
    returns (block: Block, vTxFees: seq<int>, ok: bool)
    requires pcoinsTip.Layered() && pcoinsTip.Best() == pindexPrev && u == BlockConnect.UtxoOf(pcoinsTip)
    requires BlockTemplate.PoolOk(pool, u) && Fresh(u, pool, form) && hash != r.genesisHash
    modifies pcoinsTip.Repr()
    ensures pcoinsTip.Contents() == old(pcoinsTip.Contents()) && pcoinsTip.Best() == pindexPrev
    ensures block.vtx != [] && |vTxFees| == |block.vtx| && vTxFees[0] == -BlockTemplate.Sum(vTxFees[1..])
    ensures block.vtx[0] == Coinbase(r, nBits, -vTxFees[0], form)
        && BlockTemplate.FromPool(pool, isFinal, block.vtx[1..])
    ensures ok <==> Passes(r, block, r.subsidy(nBits) - vTxFees[0], form.nBytes)
    ensures ok <==> ConnectBlock(r, u, block, pindexPrev.nHeight + 1).Some?
  {
    hide Unspent, ConnectBlock, BlockTemplate.Connects, BlockTemplate.FromPool, BlockTemplate.PoolOk, Fresh, Passes,
        BlockTemplate.Sum, Coinbase;
    pcoinsTip.ReprAllocated();
    var header := Block(hash, nBits, true, []);
    var vtx, nBlockSize, nBlockSigOps;
    ghost var view, refused;
    vtx, vTxFees, nBlockSize, nBlockSigOps, view,
        refused := BlockTemplate.FillBlock(r, policy, header, u, pool, isFinal, pindexPrev.nHeight + 1);
    var coinbase := Coinbase(r, nBits, -vTxFees[0], form);
    block := header.(vtx := [coinbase] + vtx);
    FreshCoinbase(r, u, pool, nBits, -vTxFees[0], form);
    TemplateConnects(r, header, u, pool, isFinal, vtx, pindexPrev.nHeight + 1, view, -vTxFees[0], nBlockSigOps, form,
        block);
    assert block.vtx[1..] == vtx;
    var indexDummy := new BlockIndex(block, pindexPrev, 0);
    var viewNew := new CoinsView.Cache(pcoinsTip);
    ok := BlockConnect.ConnectBlock(r, indexDummy, viewNew, true);
  }

  lemma FreshCoinbase(r: Rules, u: UtxoSet, pool: BlockTemplate.Pool, nBits: nat, nFees: int, form: Tx)
    requires Fresh(u, pool, form)
    ensures Fresh(u, pool, Coinbase(r, nBits, nFees, form))
  {
  }
}
