/** What connecting and disconnecting a block mean for the set of unspent outputs.
    Everything here is a function of values; CoinsView and BlockConnect show that the
    caches and loops of the node compute these functions. */
module Utxo {
  import opened Coins

  /** Unspent records only: a fully spent record is absent. */
  type UtxoSet = map<TxId, CoinRecord>

  /** Script evaluation, signature-operation counts of pay-to-script-hash inputs, the subsidy,
      the short-term limit on the transactions a block refers to, and the context-free block checks
      not spelled out in CheckBlock. */
  datatype Rules = Rules(
    scriptOk: (Tx, nat, TxOut) -> bool,
    p2shSigOps: (Tx, nat, TxOut) -> nat,
    subsidy: nat -> nat,
    otherBlockChecks: Block -> bool,
    lockLimitOk: Block -> bool,
    checkpointHeight: nat,
    genesisHash: nat)

  datatype Block = Block(hash: nat, nBits: nat, strictP2SH: bool, vtx: seq<Tx>)

  type TxUndo = seq<TxInUndo>

  /** Running totals of ConnectBlock. `scriptsOk` is what the script checks queued so far come to. */
  datatype Progress = Progress(utxo: UtxoSet, undo: seq<TxUndo>, nFees: int, nValueIn: int, nValueOut: int,
                               nSigOps: nat, scriptsOk: bool)

  ghost predicate ValidUtxo(u: UtxoSet) {
    forall id | id in u :: u[id].Canonical() && u[id].vout != [] && u[id].nHeight > 0
  }

  predicate Available(u: UtxoSet, out: OutPoint) { out.hash in u && u[out.hash].IsAvailable(out.n) }

  /** CTransaction::HaveInputs for a transaction that is not a coinbase. */
  predicate HaveInputs(u: UtxoSet, vin: seq<OutPoint>) { forall i | 0 <= i < |vin| :: Available(u, vin[i]) }

  function Output(u: UtxoSet, out: OutPoint): TxOut
    requires Available(u, out)
  {
    u[out.hash].vout[out.n]
  }

  predicate DistinctInputs(vin: seq<OutPoint>) { forall i, j | 0 <= i < j < |vin| :: vin[i] != vin[j] }

  function ValueIn(u: UtxoSet, vin: seq<OutPoint>): int
    requires HaveInputs(u, vin)
  {
    if vin == [] then 0 else ValueIn(u, vin[..|vin| - 1]) + Output(u, vin[|vin| - 1]).nValue
  }

  function ValueOut(vout: seq<TxOut>): int {
    if vout == [] then 0 else ValueOut(vout[..|vout| - 1]) + vout[|vout| - 1].nValue
  }

  function P2SHSigOps(r: Rules, u: UtxoSet, tx: Tx, k: nat): nat
    requires k <= |tx.vin| && HaveInputs(u, tx.vin)
  {
    if k == 0 then 0 else P2SHSigOps(r, u, tx, k - 1) + r.p2shSigOps(tx, k - 1, Output(u, tx.vin[k - 1]))
  }

  /** GetMinFee(1, false, GMF_BLOCK). */
  function MinFee(nBytes: nat): (fee: int)
    ensures MIN_TX_FEE <= fee <= MAX_MONEY
  {
    var fee := (1 + nBytes / 1000) * MIN_TX_FEE;
    if MoneyRange(fee) then fee else MAX_MONEY
  }

  /** CheckTransaction, without the size of the serialization and the coinbase script. */
  predicate CheckTransaction(tx: Tx) {
    && tx.vin != [] && tx.vout != []
    && (forall i | 0 <= i < |tx.vout| :: MIN_TXOUT_AMOUNT <= tx.vout[i].nValue <= MAX_MONEY)
    && MoneyRange(ValueOut(tx.vout))
    && DistinctInputs(tx.vin)
    && (!tx.IsCoinBase() ==> forall i | 0 <= i < |tx.vin| :: !tx.vin[i].IsNull())
  }

  predicate CheckBlock(r: Rules, block: Block) {
    && block.vtx != [] && block.vtx[0].IsCoinBase()
    && (forall i | 0 < i < |block.vtx| :: !block.vtx[i].IsCoinBase())
    && (forall i | 0 <= i < |block.vtx| :: CheckTransaction(block.vtx[i]))
    && (forall i, j | 0 <= i < j < |block.vtx| :: block.vtx[i].id != block.vtx[j].id)
    && r.lockLimitOk(block) && r.otherBlockChecks(block)
  }

  /** The input checks other than scripts, as the source promises them: every spent coinbase is
      mature, every value and the total are in range, and the fee is at least the minimum. */
  predicate CheckInputs(u: UtxoSet, tx: Tx, spendHeight: nat) {
    && HaveInputs(u, tx.vin)
    && (forall i | 0 <= i < |tx.vin| ::
          && MoneyRange(Output(u, tx.vin[i]).nValue)
          && (u[tx.vin[i].hash].fCoinBase ==> spendHeight - u[tx.vin[i].hash].nHeight >= COINBASE_MATURITY))
    && MoneyRange(ValueIn(u, tx.vin))
    && MoneyRange(ValueIn(u, tx.vin) - ValueOut(tx.vout))
    && ValueIn(u, tx.vin) - ValueOut(tx.vout) >= MinFee(tx.nBytes)
  }

  predicate ScriptsOk(r: Rules, u: UtxoSet, tx: Tx)
    requires HaveInputs(u, tx.vin)
  {
    forall i | 0 <= i < |tx.vin| :: r.scriptOk(tx, i, Output(u, tx.vin[i]))
  }

  /** A record that became fully spent leaves the set. */
  function Put(u: UtxoSet, id: TxId, c: CoinRecord): UtxoSet {
    if c.IsPruned() then u - {id} else u[id := c]
  }

  function SpendInputs(u: UtxoSet, vin: seq<OutPoint>): Option<(UtxoSet, TxUndo)> {
    if vin == [] then Some((u, []))
    else
      match SpendInputs(u, vin[..|vin| - 1])
      case None => None
      case Some(p) =>
        var out := vin[|vin| - 1];
        if !Available(p.0, out) then None
        else
          var (left, undo) := SpendResult(p.0[out.hash], out.n);
          Some((Put(p.0, out.hash, left), p.1 + [undo]))
  }

  /** CCoins(tx, nHeight). */
  function CoinsOf(tx: Tx, nHeight: nat): CoinRecord { CoinRecord(tx.IsCoinBase(), tx.vout, nHeight, tx.nVersion) }

  /** One round of ConnectBlock's loop; None is a rejected block (or a failed assertion). */
  function ConnectTx(r: Rules, block: Block, p: Progress, tx: Tx, nHeight: nat): Option<Progress> {
    var sigOps := p.nSigOps + tx.legacySigOps;
    if tx.IsCoinBase() then
      if sigOps > MAX_BLOCK_SIGOPS then None
      else Some(p.(utxo := p.utxo[tx.id := CoinsOf(tx, nHeight)], nValueOut := p.nValueOut + ValueOut(tx.vout),
                   nSigOps := sigOps))
    else if !CheckInputs(p.utxo, tx, nHeight) then None
    else
      var sigOps' := sigOps + if block.strictP2SH then P2SHSigOps(r, p.utxo, tx, |tx.vin|) else 0;
      if sigOps' > MAX_BLOCK_SIGOPS then None
      else
        match SpendInputs(p.utxo, tx.vin)
        case None => None
        case Some(s) =>
          var valueIn := ValueIn(p.utxo, tx.vin);
          var valueOut := ValueOut(tx.vout);
          Some(Progress(s.0[tx.id := CoinsOf(tx, nHeight)], p.undo + [s.1], p.nFees + valueIn - valueOut,
                        p.nValueIn + valueIn, p.nValueOut + valueOut, sigOps',
                        p.scriptsOk && (nHeight >= r.checkpointHeight ==> ScriptsOk(r, p.utxo, tx))))
  }

  function ConnectTxs(r: Rules, block: Block, u: UtxoSet, vtx: seq<Tx>, nHeight: nat): Option<Progress> {
    if vtx == [] then Some(Progress(u, [], 0, 0, 0, 0, true))
    else
      match ConnectTxs(r, block, u, vtx[..|vtx| - 1], nHeight)
      case None => None
      case Some(p) => ConnectTx(r, block, p, vtx[|vtx| - 1], nHeight)
  }

  /** BIP 30: no transaction of the block may overwrite one with unspent outputs. */
  predicate NoOverwrite(u: UtxoSet, vtx: seq<Tx>) { forall i | 0 <= i < |vtx| :: vtx[i].id !in u }

  predicate CoinbaseOk(r: Rules, block: Block, p: Progress)
    requires block.vtx != []
  {
    ValueOut(block.vtx[0].vout) <= r.subsidy(block.nBits) + p.nFees - MinFee(block.vtx[0].nBytes) + MIN_TX_FEE
  }

  /** ConnectBlock for every block but the genesis block. */
  function ConnectBlock(r: Rules, u: UtxoSet, block: Block, nHeight: nat): Option<Progress> {
    if !CheckBlock(r, block) || !NoOverwrite(u, block.vtx) then None
    else
      match ConnectTxs(r, block, u, block.vtx, nHeight)
      case None => None
      case Some(p) => if CoinbaseOk(r, block, p) && p.scriptsOk then Some(p) else None
  }

  /** Putting one spent output back; None when DisconnectBlock would report an unclean result. */
  function UndoInput(u: UtxoSet, out: OutPoint, undo: TxInUndo): Option<UtxoSet> {
    if undo.nHeight != 0 then
      if out.hash in u then None
      else Some(Put(u, out.hash, CoinRecord(undo.fCoinBase, PutBack([], out.n, undo.txout), undo.nHeight,
          undo.nVersion)))
    else if out.hash !in u || u[out.hash].IsAvailable(out.n) then None
    else Some(Put(u, out.hash, u[out.hash].(vout := PutBack(u[out.hash].vout, out.n, undo.txout))))
  }

  /** From the last input to the first. */
  function UndoInputs(u: UtxoSet, vin: seq<OutPoint>, undo: TxUndo): Option<UtxoSet>
    requires |vin| == |undo|
    decreases |vin|
  {
    if vin == [] then Some(u)
    else
      var k := |vin| - 1;
      match UndoInput(u, vin[k], undo[k])
      case None => None
      case Some(u') => UndoInputs(u', vin[..k], undo[..k])
  }

  /** From the last transaction to the first; undo[i - 1] belongs to vtx[i]. */
  function DisconnectTxs(u: UtxoSet, vtx: seq<Tx>, undo: seq<TxUndo>, nHeight: nat): Option<UtxoSet>
    requires vtx != [] ==> |undo| + 1 == |vtx|
    requires vtx == [] ==> undo == []
    decreases |vtx|
  {
    if vtx == [] then Some(u)
    else
      var k := |vtx| - 1;
      var tx := vtx[k];
      if tx.id !in u || RepairVersion(u[tx.id], tx) != CoinsOf(tx, nHeight) then None
      else if k == 0 then Some(u - {tx.id})
      else if |undo[k - 1]| != |tx.vin| then None
      else
        match UndoInputs(u - {tx.id}, tx.vin, undo[k - 1])
        case None => None
        case Some(u') => DisconnectTxs(u', vtx[..k], undo[..k - 1], nHeight)
  }

  /** A negative version is not kept by the coin serialization; the block's own one is used. */
  function RepairVersion(c: CoinRecord, tx: Tx): CoinRecord {
    if tx.nVersion < 0 then c.(nVersion := tx.nVersion) else c
  }

  function DisconnectBlock(u: UtxoSet, block: Block, undo: seq<TxUndo>, nHeight: nat): Option<UtxoSet> {
    if |undo| + 1 != |block.vtx| then None else DisconnectTxs(u, block.vtx, undo, nHeight)
  }

  // ---------------------------------------------------------------- spending and undoing inputs

  lemma PutValid(u: UtxoSet, id: TxId, c: CoinRecord)
    requires ValidUtxo(u) && c.Canonical() && c.nHeight > 0
    ensures ValidUtxo(Put(u, id, c))
  {
  }

  /** Undoing the spends in reverse order gives the set that was spent from. */
  lemma {:induction false} SpendUndo(u: UtxoSet, vin: seq<OutPoint>)
    requires ValidUtxo(u) && SpendInputs(u, vin).Some?
    ensures var (u', undo) := SpendInputs(u, vin).value;
            && ValidUtxo(u') && |undo| == |vin|
            && u'.Keys <= u.Keys
            && UndoInputs(u', vin, undo) == Some(u)
  {
    if vin != [] {
      var k := |vin| - 1;
      SpendUndo(u, vin[..k]);
      var p := SpendInputs(u, vin[..k]).value;
      var c := p.0[vin[k].hash];
      SpendPutBack(c, vin[k].n);
      var (left, undo) := SpendResult(c, vin[k].n);
      PutValid(p.0, vin[k].hash, left);
      var u' := Put(p.0, vin[k].hash, left);
      assert !c.IsPruned();
      assert c == c.(vout := PutBack(left.vout, vin[k].n, undo.txout));
      assert u'[vin[k].hash := c] == p.0;
      assert UndoInput(u', vin[k], undo) == Some(p.0);
      assert (p.1 + [undo])[..k] == p.1;
    }
  }

  /** Spending an output touches no other output. */
  lemma SpendKeepsOthers(u: UtxoSet, out: OutPoint, other: OutPoint)
    requires Available(u, out) && Available(u, other) && out != other
    ensures var u' := Put(u, out.hash, SpendResult(u[out.hash], out.n).0);
            Available(u', other) && Output(u', other) == Output(u, other)
  {
    if out.hash == other.hash {
      var w := u[out.hash].vout[out.n := NULL_OUT];
      assert !w[other.n].IsNull();
    }
  }

  /** The assertion in UpdateCoins cannot fail: a transaction whose inputs are all available and
      all different can be spent from, and its inputs are all that it changes. */
  lemma {:induction false} SpendSucceeds(u: UtxoSet, vin: seq<OutPoint>)
    requires HaveInputs(u, vin) && DistinctInputs(vin)
    ensures SpendInputs(u, vin).Some?
    ensures var u' := SpendInputs(u, vin).value.0;
            forall out | Available(u, out) && out !in vin :: Available(u', out) && Output(u', out) == Output(u, out)
  {
    if vin != [] {
      var k := |vin| - 1;
      SpendSucceeds(u, vin[..k]);
      var p := SpendInputs(u, vin[..k]).value;
      assert vin[k] !in vin[..k];
      forall out | Available(u, out) && out !in vin
        ensures var u' := SpendInputs(u, vin).value.0;
                Available(u', out) && Output(u', out) == Output(u, out)
      {
        assert out !in vin[..k];
        SpendKeepsOthers(p.0, vin[k], out);
      }
    }
  }

  // ---------------------------------------------------------------- disconnecting undoes connecting

  lemma CoinsOfValid(tx: Tx, nHeight: nat)
    requires CheckTransaction(tx) && nHeight > 0
    ensures var c := CoinsOf(tx, nHeight); c.Canonical() && c.vout != [] && !c.IsPruned()
  {
    assert !tx.vout[0].IsNull();
  }

  /** The first round of the loop adds the coinbase and can be undone by removing it. */
  lemma ConnectCoinbaseUndo(r: Rules, block: Block, u: UtxoSet, nHeight: nat)
    requires ValidUtxo(u) && CheckBlock(r, block) && block.vtx[0].id !in u && nHeight > 0
    requires ConnectTxs(r, block, u, block.vtx[..1], nHeight).Some?
    ensures var p := ConnectTxs(r, block, u, block.vtx[..1], nHeight).value;
            && p.utxo == u[block.vtx[0].id := CoinsOf(block.vtx[0], nHeight)]
            && p.undo == [] && p.nFees == 0 && p.nValueIn == 0 && p.nValueOut == ValueOut(block.vtx[0].vout)
            && ValidUtxo(p.utxo)
            && DisconnectTxs(p.utxo, block.vtx[..1], p.undo, nHeight) == Some(u)
  {
    var vtx, tx := block.vtx[..1], block.vtx[0];
    assert vtx[..0] == [] && vtx[0] == tx;
    assert ConnectTxs(r, block, u, vtx[..0], nHeight) == Some(Progress(u, [], 0, 0, 0, 0, true));
    var p := ConnectTxs(r, block, u, vtx, nHeight).value;
    CoinsOfValid(tx, nHeight);
    assert p.utxo - {tx.id} == u;
  }

  /** A later round can be undone by removing the transaction and restoring its inputs. */
  lemma ConnectTxUndo(r: Rules, block: Block, q: Progress, tx: Tx, nHeight: nat)
    requires ValidUtxo(q.utxo) && CheckTransaction(tx) && !tx.IsCoinBase() && tx.id !in q.utxo && nHeight > 0
    requires ConnectTx(r, block, q, tx, nHeight).Some?
    ensures var p := ConnectTx(r, block, q, tx, nHeight).value;
            && SpendInputs(q.utxo, tx.vin).Some?
            && var s := SpendInputs(q.utxo, tx.vin).value;
            && p.undo == q.undo + [s.1] && |s.1| == |tx.vin|
            && p.utxo == s.0[tx.id := CoinsOf(tx, nHeight)]
            && p.utxo - {tx.id} == s.0
            && p.utxo.Keys <= q.utxo.Keys + {tx.id}
            && ValidUtxo(p.utxo)
            && UndoInputs(s.0, tx.vin, s.1) == Some(q.utxo)
  {
    SpendUndo(q.utxo, tx.vin);
    CoinsOfValid(tx, nHeight);
    var s := SpendInputs(q.utxo, tx.vin).value;
    assert s.0[tx.id := CoinsOf(tx, nHeight)] - {tx.id} == s.0;
  }

  /** What holds after k transactions of a checked block: the rest of the block is still absent,
      there is one undo record per transaction but the coinbase, and undoing gives `u` back. */
  lemma {:induction false} ConnectTxsUndo(r: Rules, block: Block, u: UtxoSet, k: nat, nHeight: nat)
    requires ValidUtxo(u) && CheckBlock(r, block) && NoOverwrite(u, block.vtx) && nHeight > 0
    requires 0 < k <= |block.vtx| && ConnectTxs(r, block, u, block.vtx[..k], nHeight).Some?
    ensures var p := ConnectTxs(r, block, u, block.vtx[..k], nHeight).value;
            && ValidUtxo(p.utxo)
            && (forall i | k <= i < |block.vtx| :: block.vtx[i].id !in p.utxo)
            && |p.undo| == k - 1
            && DisconnectTxs(p.utxo, block.vtx[..k], p.undo, nHeight) == Some(u)
  {
    hide CheckTransaction, ConnectTx, ValidUtxo;
    if k == 1 {
      ConnectCoinbaseUndo(r, block, u, nHeight);
    } else {
      var vtx, tx := block.vtx[..k], block.vtx[k - 1];
      assert vtx[..k - 1] == block.vtx[..k - 1];
      ConnectTxsUndo(r, block, u, k - 1, nHeight);
      var q := ConnectTxs(r, block, u, block.vtx[..k - 1], nHeight).value;
      ConnectTxUndo(r, block, q, tx, nHeight);
      var p := ConnectTxs(r, block, u, vtx, nHeight).value;
      assert p == ConnectTx(r, block, q, tx, nHeight).value;
      assert p.undo[..k - 2] == q.undo;
      assert RepairVersion(p.utxo[tx.id], tx) == CoinsOf(tx, nHeight);
    }
  }

  /** DisconnectBlock with the undo data ConnectBlock has just produced is clean and restores
      the set exactly, for every valid set, block and height. */
  lemma DisconnectInvertsConnect(r: Rules, u: UtxoSet, block: Block, nHeight: nat)
    requires ValidUtxo(u) && nHeight > 0 && ConnectBlock(r, u, block, nHeight).Some?
    ensures var p := ConnectBlock(r, u, block, nHeight).value;
            ValidUtxo(p.utxo) && DisconnectBlock(p.utxo, block, p.undo, nHeight) == Some(u)
  {
    assert block.vtx[..|block.vtx|] == block.vtx;
    ConnectTxsUndo(r, block, u, |block.vtx|, nHeight);
  }

  // ---------------------------------------------------------------- conservation of value

  /** The value of all unspent outputs. */
  ghost function Total(u: UtxoSet): int
    decreases |u|
  {
    if u == map[] then 0
    else var id :| id in u; OutputValue(u[id].vout) + Total(u - {id})
  }

  lemma {:induction false} TotalRemove(u: UtxoSet, id: TxId)
    requires id in u
    ensures Total(u) == OutputValue(u[id].vout) + Total(u - {id})
    decreases |u|
  {
    var k :| k in u && Total(u) == OutputValue(u[k].vout) + Total(u - {k});
    if k != id {
      TotalRemove(u - {k}, id);
      TotalRemove(u - {id}, k);
      assert u - {k} - {id} == u - {id} - {k};
    }
  }

  function ValueAt(u: UtxoSet, id: TxId): int { if id in u then OutputValue(u[id].vout) else 0 }

  lemma PrunedValue(vout: seq<TxOut>)
    requires forall i | 0 <= i < |vout| :: vout[i].IsNull()
    ensures OutputValue(vout) == 0
  {
  }

  lemma TotalPut(u: UtxoSet, id: TxId, c: CoinRecord)
    ensures Total(Put(u, id, c)) == Total(u) - ValueAt(u, id) + OutputValue(c.vout)
  {
    if id in u {
      TotalRemove(u, id);
    } else {
      assert u - {id} == u;
    }
    if c.IsPruned() {
      PrunedValue(c.vout);
    } else {
      TotalRemove(u[id := c], id);
      assert u[id := c] - {id} == u - {id};
    }
  }

  /** Spending the inputs of a transaction takes exactly GetValueIn out of the set. */
  lemma {:induction false} SpendInputsTotal(u: UtxoSet, vin: seq<OutPoint>)
    requires HaveInputs(u, vin) && DistinctInputs(vin)
    ensures SpendInputs(u, vin).Some?
    ensures Total(SpendInputs(u, vin).value.0) == Total(u) - ValueIn(u, vin)
  {
    SpendSucceeds(u, vin);
    if vin != [] {
      var k := |vin| - 1;
      SpendInputsTotal(u, vin[..k]);
      SpendSucceeds(u, vin[..k]);
      var w := SpendInputs(u, vin[..k]).value.0;
      assert vin[k] !in vin[..k];
      var c := w[vin[k].hash];
      SpendValue(c, vin[k].n);
      TotalPut(w, vin[k].hash, SpendResult(c, vin[k].n).0);
    }
  }

  lemma {:induction false} ValueOutOutputs(vout: seq<TxOut>)
    requires forall i | 0 <= i < |vout| :: !vout[i].IsNull()
    ensures OutputValue(vout) == ValueOut(vout)
  {
    if vout != [] {
      ValueOutOutputs(vout[..|vout| - 1]);
    }
  }

  lemma ConnectTxTotal(r: Rules, block: Block, q: Progress, tx: Tx, nHeight: nat)
    requires ValidUtxo(q.utxo) && CheckTransaction(tx) && !tx.IsCoinBase() && tx.id !in q.utxo && nHeight > 0
    requires ConnectTx(r, block, q, tx, nHeight).Some?
    ensures var p := ConnectTx(r, block, q, tx, nHeight).value;
            && Total(p.utxo) - Total(q.utxo) == (p.nValueOut - q.nValueOut) - (p.nValueIn - q.nValueIn)
            && p.nValueOut - p.nValueIn + p.nFees == q.nValueOut - q.nValueIn + q.nFees
  {
    ConnectTxUndo(r, block, q, tx, nHeight);
    ValueOutOutputs(tx.vout);
    CoinsOfValid(tx, nHeight);
    SpendInputsTotal(q.utxo, tx.vin);
    TotalPut(SpendInputs(q.utxo, tx.vin).value.0, tx.id, CoinsOf(tx, nHeight));
  }

  /** The coinbase adds its own value. */
  lemma ConnectCoinbaseTotal(r: Rules, block: Block, u: UtxoSet, nHeight: nat)
    requires ValidUtxo(u) && CheckBlock(r, block) && block.vtx[0].id !in u && nHeight > 0
    requires ConnectTxs(r, block, u, block.vtx[..1], nHeight).Some?
    ensures var p := ConnectTxs(r, block, u, block.vtx[..1], nHeight).value;
            && Total(p.utxo) == Total(u) + ValueOut(block.vtx[0].vout)
            && p.nValueOut == ValueOut(block.vtx[0].vout) && p.nValueIn == 0 && p.nFees == 0
  {
    hide ConnectTxs, Total;
    var tx := block.vtx[0];
    ConnectCoinbaseUndo(r, block, u, nHeight);
    ValueOutOutputs(tx.vout);
    CoinsOfValid(tx, nHeight);
    TotalPut(u, tx.id, CoinsOf(tx, nHeight));
  }

  lemma {:induction false} ConnectTxsTotal(r: Rules, block: Block, u: UtxoSet, k: nat, nHeight: nat)
    requires ValidUtxo(u) && CheckBlock(r, block) && NoOverwrite(u, block.vtx) && nHeight > 0
    requires 0 < k <= |block.vtx| && ConnectTxs(r, block, u, block.vtx[..k], nHeight).Some?
    ensures var p := ConnectTxs(r, block, u, block.vtx[..k], nHeight).value;
            && Total(p.utxo) == Total(u) + p.nValueOut - p.nValueIn
            && p.nValueOut - p.nValueIn == ValueOut(block.vtx[0].vout) - p.nFees
  {
    hide CheckTransaction, ConnectTx, ValidUtxo, Total;
    if k == 1 {
      ConnectCoinbaseTotal(r, block, u, nHeight);
    } else {
      var vtx, tx := block.vtx[..k], block.vtx[k - 1];
      assert vtx[..k - 1] == block.vtx[..k - 1];
      ConnectTxsTotal(r, block, u, k - 1, nHeight);
      ConnectTxsUndo(r, block, u, k - 1, nHeight);
      var q := ConnectTxs(r, block, u, block.vtx[..k - 1], nHeight).value;
      assert ConnectTxs(r, block, u, vtx, nHeight) == ConnectTx(r, block, q, tx, nHeight);
      ConnectTxTotal(r, block, q, tx, nHeight);
    }
  }

  /** One block changes the value of the unspent outputs by nValueOut - nValueIn, which is what
      nMoneySupply records, and raises it by at most the subsidy. */
  lemma ConnectConserves(r: Rules, u: UtxoSet, block: Block, nHeight: nat)
    requires ValidUtxo(u) && nHeight > 0 && ConnectBlock(r, u, block, nHeight).Some?
    ensures var p := ConnectBlock(r, u, block, nHeight).value;
            && Total(p.utxo) == Total(u) + p.nValueOut - p.nValueIn
            && Total(p.utxo) <= Total(u) + r.subsidy(block.nBits)
  {
    assert block.vtx[..|block.vtx|] == block.vtx;
    ConnectTxsTotal(r, block, u, |block.vtx|, nHeight);
  }
}
