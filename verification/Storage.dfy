/** Storage loses the sign of versions: what that does to the set of unspent outputs, and why no block minds. */
module Storage {
  import opened Coins
  import opened Utxo

  /** The set after the records in `lost` were written and read back. */
  ghost function Reread(u: UtxoSet, lost: set<TxId>): UtxoSet {
    map id | id in u :: if id in lost then StoredRecord(u[id]) else u[id]
  }

  /** Some records of `u` may have been written and read back. */
  ghost predicate Kept(w: UtxoSet, u: UtxoSet) {
    w.Keys == u.Keys && forall id | id in u :: w[id] == u[id] || w[id] == StoredRecord(u[id])
  }

  ghost function Lost(w: UtxoSet, u: UtxoSet): set<TxId>
    requires w.Keys == u.Keys
  {
    set id | id in u && w[id] != u[id]
  }

  lemma KeptIsReread(w: UtxoSet, u: UtxoSet)
    requires Kept(w, u)
    ensures w == Reread(u, Lost(w, u)) && Lost(w, u) <= u.Keys
  {
  }

  lemma RereadKept(u: UtxoSet, lost: set<TxId>)
    ensures Kept(Reread(u, lost), u)
  {
  }

  lemma KeptTwice(a: UtxoSet, b: UtxoSet, c: UtxoSet)
    requires Kept(a, b) && Kept(b, c)
    ensures Kept(a, c)
  {
  }

  /** Nothing is lost exactly if no record that was stored had a negative version. */
  lemma RereadExactly(u: UtxoSet, lost: set<TxId>)
    ensures Reread(u, lost) == u <==> forall id | id in u && id in lost :: u[id].nVersion >= 0
  {
    if Reread(u, lost) == u {
      forall id | id in u && id in lost ensures u[id].nVersion >= 0 {
        assert Reread(u, lost)[id] == StoredRecord(u[id]);
      }
    }
  }

  /** The undo records of a transaction, and of a block, as they are read from the undo file. */
  function StoredTxUndo(undo: TxUndo): (r: TxUndo)
    ensures |r| == |undo|
  {
    if undo == [] then [] else StoredTxUndo(undo[..|undo| - 1]) + [StoredUndo(undo[|undo| - 1])]
  }

  function StoredBlockUndo(undo: seq<TxUndo>): (r: seq<TxUndo>)
    ensures |r| == |undo|
  {
    if undo == [] then [] else StoredBlockUndo(undo[..|undo| - 1]) + [StoredTxUndo(undo[|undo| - 1])]
  }

  lemma StoredTxSnoc(undo: TxUndo, x: TxInUndo)
    ensures StoredTxUndo(undo + [x]) == StoredTxUndo(undo) + [StoredUndo(x)]
  {
    assert (undo + [x])[..|undo|] == undo;
  }

  lemma StoredBlockSnoc(undo: seq<TxUndo>, x: TxUndo)
    ensures StoredBlockUndo(undo + [x]) == StoredBlockUndo(undo) + [StoredTxUndo(x)]
  {
    assert (undo + [x])[..|undo|] == undo;
  }

  // ---------------------------------------------------------------- spending does not look at versions

  function Versioned(c: CoinRecord, stored: bool): CoinRecord { if stored then StoredRecord(c) else c }

  lemma PutReread(u: UtxoSet, lost: set<TxId>, id: TxId, c: CoinRecord)
    ensures Put(Reread(u, lost), id, Versioned(c, id in lost)) == Reread(Put(u, id, c), lost)
  {
    assert Versioned(c, id in lost).IsPruned() == c.IsPruned();
  }

  lemma SpendVersioned(c: CoinRecord, n: nat, stored: bool)
    requires c.IsAvailable(n) && c.nHeight > 0
    ensures Versioned(c, stored).IsAvailable(n)
    ensures var (a, b) := (SpendResult(Versioned(c, stored), n), SpendResult(c, n));
            a.0 == Versioned(b.0, stored) && StoredUndo(a.1) == StoredUndo(b.1) && !b.1.txout.IsNull()
  {
  }

  lemma {:induction false} SpendReread(u: UtxoSet, lost: set<TxId>, vin: seq<OutPoint>)
    requires ValidUtxo(u)
    ensures SpendInputs(Reread(u, lost), vin).Some? <==> SpendInputs(u, vin).Some?
    ensures SpendInputs(u, vin).Some? ==>
              var (s, t) := (SpendInputs(u, vin).value, SpendInputs(Reread(u, lost), vin).value);
              t.0 == Reread(s.0, lost) && StoredTxUndo(t.1) == StoredTxUndo(s.1) && |s.1| == |vin|
              && forall i | 0 <= i < |s.1| :: !s.1[i].txout.IsNull()
  {
    if vin != [] {
      var k := |vin| - 1;
      SpendReread(u, lost, vin[..k]);
      if SpendInputs(u, vin[..k]).Some? {
        SpendUndo(u, vin[..k]);
        var p, out := SpendInputs(u, vin[..k]).value, vin[k];
        var p' := SpendInputs(Reread(u, lost), vin[..k]).value;
        assert Available(p'.0, out) == Available(p.0, out);
        if Available(p.0, out) {
          SpendVersioned(p.0[out.hash], out.n, out.hash in lost);
          var (left, undo) := SpendResult(p.0[out.hash], out.n);
          var (left', undo') := SpendResult(p'.0[out.hash], out.n);
          PutReread(p.0, lost, out.hash, left);
          StoredTxSnoc(p.1, undo);
          StoredTxSnoc(p'.1, undo');
        }
      }
    }
  }

  // ---------------------------------------------------------------- nor does connecting

  lemma {:induction false} ValueInReread(u: UtxoSet, lost: set<TxId>, vin: seq<OutPoint>)
    requires HaveInputs(u, vin)
    ensures HaveInputs(Reread(u, lost), vin) && ValueIn(Reread(u, lost), vin) == ValueIn(u, vin)
  {
    AvailableReread(u, lost);
    if vin != [] {
      ValueInReread(u, lost, vin[..|vin| - 1]);
    }
  }

  lemma AvailableReread(u: UtxoSet, lost: set<TxId>)
    ensures forall out :: Available(Reread(u, lost), out) == Available(u, out)
    ensures forall out | Available(u, out) :: Output(Reread(u, lost), out) == Output(u, out)
  {
  }

  lemma {:induction false} SigOpsReread(r: Rules, u: UtxoSet, lost: set<TxId>, tx: Tx, k: nat)
    requires k <= |tx.vin| && HaveInputs(u, tx.vin)
    ensures HaveInputs(Reread(u, lost), tx.vin) && P2SHSigOps(r, Reread(u, lost), tx, k) == P2SHSigOps(r, u, tx, k)
  {
    AvailableReread(u, lost);
    if k > 0 {
      SigOpsReread(r, u, lost, tx, k - 1);
    }
  }

  lemma ChecksReread(r: Rules, u: UtxoSet, lost: set<TxId>, tx: Tx, h: nat)
    ensures CheckInputs(Reread(u, lost), tx, h) == CheckInputs(u, tx, h)
    ensures CheckInputs(u, tx, h) ==>
              && HaveInputs(Reread(u, lost), tx.vin) && ValueIn(Reread(u, lost), tx.vin) == ValueIn(u, tx.vin)
              && ScriptsOk(r, Reread(u, lost), tx) == ScriptsOk(r, u, tx)
              && P2SHSigOps(r, Reread(u, lost), tx, |tx.vin|) == P2SHSigOps(r, u, tx, |tx.vin|)
  {
    AvailableReread(u, lost);
    if HaveInputs(u, tx.vin) {
      ValueInReread(u, lost, tx.vin);
      SigOpsReread(r, u, lost, tx, |tx.vin|);
    }
  }

  /** The same progress, over a set of which some records were stored. */
  ghost predicate Alike(p': Progress, p: Progress, lost: set<TxId>) {
    && p'.utxo == Reread(p.utxo, lost) && StoredBlockUndo(p'.undo) == StoredBlockUndo(p.undo)
    && p'.nFees == p.nFees && p'.nValueIn == p.nValueIn && p'.nValueOut == p.nValueOut
    && p'.nSigOps == p.nSigOps && p'.scriptsOk == p.scriptsOk
  }

  lemma AddReread(u: UtxoSet, lost: set<TxId>, id: TxId, c: CoinRecord)
    requires id !in lost
    ensures Reread(u, lost)[id := c] == Reread(u[id := c], lost)
  {
  }

  lemma CoinbaseReread(r: Rules, block: Block, q': Progress, q: Progress, lost: set<TxId>, tx: Tx, h: nat)
    requires tx.IsCoinBase() && tx.id !in lost && Alike(q', q, lost)
    ensures ConnectTx(r, block, q', tx, h).Some? <==> ConnectTx(r, block, q, tx, h).Some?
    ensures ConnectTx(r, block, q, tx, h).Some? ==>
              Alike(ConnectTx(r, block, q', tx, h).value, ConnectTx(r, block, q, tx, h).value, lost)
  {
    hide Reread, StoredBlockUndo, ValueOut;
    AddReread(q.utxo, lost, tx.id, CoinsOf(tx, h));
  }

  lemma SpenderReread(r: Rules, block: Block, q': Progress, q: Progress, lost: set<TxId>, tx: Tx, h: nat)
    requires ValidUtxo(q.utxo) && !tx.IsCoinBase() && tx.id !in lost && Alike(q', q, lost)
    ensures ConnectTx(r, block, q', tx, h).Some? <==> ConnectTx(r, block, q, tx, h).Some?
    ensures ConnectTx(r, block, q, tx, h).Some? ==>
              Alike(ConnectTx(r, block, q', tx, h).value, ConnectTx(r, block, q, tx, h).value, lost)
  {
    hide CheckInputs, ScriptsOk, P2SHSigOps, ValueIn, ValueOut, Reread, ValidUtxo, SpendInputs, StoredTxUndo,
        StoredBlockUndo;
    ChecksReread(r, q.utxo, lost, tx, h);
    SpendReread(q.utxo, lost, tx.vin);
    if SpendInputs(q.utxo, tx.vin).Some? {
      var s, s' := SpendInputs(q.utxo, tx.vin).value, SpendInputs(q'.utxo, tx.vin).value;
      AddReread(s.0, lost, tx.id, CoinsOf(tx, h));
      StoredBlockSnoc(q.undo, s.1);
      StoredBlockSnoc(q'.undo, s'.1);
    }
  }

  lemma ConnectTxReread(r: Rules, block: Block, q': Progress, q: Progress, lost: set<TxId>, tx: Tx, h: nat)
    requires ValidUtxo(q.utxo) && tx.id !in lost && Alike(q', q, lost)
    ensures ConnectTx(r, block, q', tx, h).Some? <==> ConnectTx(r, block, q, tx, h).Some?
    ensures ConnectTx(r, block, q, tx, h).Some? ==>
              Alike(ConnectTx(r, block, q', tx, h).value, ConnectTx(r, block, q, tx, h).value, lost)
  {
    hide ConnectTx, Alike, ValidUtxo;
    if tx.IsCoinBase() {
      CoinbaseReread(r, block, q', q, lost, tx, h);
    } else {
      SpenderReread(r, block, q', q, lost, tx, h);
    }
  }

  lemma {:induction false} ConnectTxsReread(r: Rules, block: Block, u: UtxoSet, lost: set<TxId>, k: nat, h: nat)
    requires ValidUtxo(u) && CheckBlock(r, block) && NoOverwrite(u, block.vtx) && h > 0 && lost <= u.Keys
        && k <= |block.vtx|
    ensures var (p', p) := (ConnectTxs(r, block, Reread(u, lost), block.vtx[..k], h),
        ConnectTxs(r, block, u, block.vtx[..k], h));
            (p'.Some? <==> p.Some?) && (p.Some? ==> Alike(p'.value, p.value, lost))
  {
    hide CheckBlock, Reread, ConnectTx, ValidUtxo;
    if k > 0 {
      assert block.vtx[..k][..k - 1] == block.vtx[..k - 1];
      ConnectTxsReread(r, block, u, lost, k - 1, h);
      var q := ConnectTxs(r, block, u, block.vtx[..k - 1], h);
      if q.Some? {
        if k > 1 {
          ConnectTxsUndo(r, block, u, k - 1, h);
        } else {
          assert q.value.utxo == u;
        }
        ConnectTxReread(r, block, ConnectTxs(r, block, Reread(u, lost), block.vtx[..k - 1], h).value, q.value, lost,
            block.vtx[k - 1], h);
      }
    }
  }

  /** ConnectBlock decides alike and does alike whatever versions were lost before. */
  lemma ConnectReread(r: Rules, u: UtxoSet, lost: set<TxId>, block: Block, h: nat)
    requires ValidUtxo(u) && h > 0 && lost <= u.Keys
    ensures ConnectBlock(r, Reread(u, lost), block, h).Some? <==> ConnectBlock(r, u, block, h).Some?
    ensures ConnectBlock(r, u, block, h).Some? ==>
              Alike(ConnectBlock(r, Reread(u, lost), block, h).value, ConnectBlock(r, u, block, h).value, lost)
  {
    hide ConnectTxs, CheckBlock, ValidUtxo;
    assert NoOverwrite(Reread(u, lost), block.vtx) == NoOverwrite(u, block.vtx);
    if CheckBlock(r, block) && NoOverwrite(u, block.vtx) {
      assert block.vtx[..|block.vtx|] == block.vtx;
      ConnectTxsReread(r, block, u, lost, |block.vtx|, h);
    }
  }

  // ---------------------------------------------------------------- disconnecting with what was stored

  lemma UndoInputReread(u: UtxoSet, lost: set<TxId>, out: OutPoint, undo: TxInUndo)
    requires UndoInput(u, out, undo).Some? && !undo.txout.IsNull()
    ensures var x := UndoInput(u, out, undo).value;
            u.Keys <= x.Keys && UndoInput(Reread(u, lost), out, StoredUndo(undo))
                == Some(Reread(x, lost + (x.Keys - u.Keys)))
  {
    var x := UndoInput(u, out, undo).value;
    var y := UndoInput(Reread(u, lost), out, StoredUndo(undo));
    if undo.nHeight != 0 {
      var c := CoinRecord(undo.fCoinBase, PutBack([], out.n, undo.txout), undo.nHeight, undo.nVersion);
      assert !c.vout[out.n].IsNull();
      assert x == u[out.hash := c];
      assert y == Some(Reread(u, lost)[out.hash := StoredRecord(c)]);
      assert x.Keys - u.Keys == {out.hash};
    } else {
      var c := u[out.hash].(vout := PutBack(u[out.hash].vout, out.n, undo.txout));
      assert !c.vout[out.n].IsNull();
      assert x == u[out.hash := c];
      assert x.Keys - u.Keys == {};
      PutReread(u, lost, out.hash, c);
    }
    assert y.value == Reread(x, lost + (x.Keys - u.Keys));
  }

  lemma {:induction false} UndoInputsReread(u: UtxoSet, lost: set<TxId>, vin: seq<OutPoint>, undo: TxUndo)
    requires |vin| == |undo| && UndoInputs(u, vin, undo).Some? && forall i | 0 <= i < |undo| :: !undo[i].txout.IsNull()
    ensures var x := UndoInputs(u, vin, undo).value;
            u.Keys <= x.Keys && UndoInputs(Reread(u, lost), vin, StoredTxUndo(undo))
                == Some(Reread(x, lost + (x.Keys - u.Keys)))
    decreases |vin|
  {
    if vin == [] {
      assert lost + (u.Keys - u.Keys) == lost;
    } else {
      var k := |vin| - 1;
      UndoInputReread(u, lost, vin[k], undo[k]);
      var v := UndoInput(u, vin[k], undo[k]).value;
      var lost' := lost + (v.Keys - u.Keys);
      UndoInputsReread(v, lost', vin[..k], undo[..k]);
      var x := UndoInputs(v, vin[..k], undo[..k]).value;
      assert lost' + (x.Keys - v.Keys) == lost + (x.Keys - u.Keys);
      assert StoredTxUndo(undo)[..k] == StoredTxUndo(undo[..k]);
    }
  }

  /** The repair of negative versions makes every transaction of the block match again. */
  lemma Repaired(tx: Tx, h: nat, stored: bool)
    ensures RepairVersion(Versioned(CoinsOf(tx, h), stored), tx) == CoinsOf(tx, h)
  {
  }

  lemma RemoveReread(u: UtxoSet, lost: set<TxId>, id: TxId)
    ensures Reread(u, lost) - {id} == Reread(u - {id}, lost)
  {
  }

  /** One transaction of DisconnectBlock, with the records of the undo file. */
  lemma DisconnectTxReread(r: Rules, block: Block, q: Progress, tx: Tx, h: nat, lost: set<TxId>)
    requires ValidUtxo(q.utxo) && CheckTransaction(tx) && !tx.IsCoinBase() && tx.id !in q.utxo && h > 0
    requires ConnectTx(r, block, q, tx, h).Some?
    ensures var p := ConnectTx(r, block, q, tx, h).value;
            && |p.undo| == |q.undo| + 1 && p.undo[..|q.undo|] == q.undo && |p.undo[|q.undo|]| == |tx.vin|
            && tx.id in Reread(p.utxo, lost) && p.utxo.Keys - {tx.id} <= q.utxo.Keys && tx.id in p.utxo
            && RepairVersion(Reread(p.utxo, lost)[tx.id], tx) == CoinsOf(tx, h)
            && UndoInputs(Reread(p.utxo, lost) - {tx.id}, tx.vin, StoredTxUndo(p.undo[|q.undo|]))
               == Some(Reread(q.utxo, lost + (q.utxo.Keys - (p.utxo.Keys - {tx.id}))))
  {
    ConnectTxUndo(r, block, q, tx, h);
    var p := ConnectTx(r, block, q, tx, h).value;
    var s := SpendInputs(q.utxo, tx.vin).value;
    hide ConnectTx, CheckTransaction, UndoInputs, ValidUtxo;
    SpendReread(q.utxo, {}, tx.vin);
    RemoveReread(p.utxo, lost, tx.id);
    UndoInputsReread(s.0, lost, tx.vin, s.1);
    Repaired(tx, h, tx.id in lost);
    assert s.0.Keys == p.utxo.Keys - {tx.id};
  }

  lemma DisconnectCoinbaseReread(r: Rules, block: Block, u: UtxoSet, h: nat, lost: set<TxId>)
    requires ValidUtxo(u) && CheckBlock(r, block) && block.vtx[0].id !in u && h > 0
    requires ConnectTxs(r, block, u, block.vtx[..1], h).Some?
    ensures var p := ConnectTxs(r, block, u, block.vtx[..1], h).value;
            p.undo == [] && DisconnectTxs(Reread(p.utxo, lost), block.vtx[..1], [], h)
                == Some(Reread(u, lost + (u.Keys - p.utxo.Keys)))
  {
    var tx := block.vtx[0];
    ConnectCoinbaseUndo(r, block, u, h);
    hide ConnectTxs, CheckBlock;
    Repaired(tx, h, tx.id in lost);
    var v := u[tx.id := CoinsOf(tx, h)];
    assert Reread(v, lost) - {tx.id} == Reread(u, lost + (u.Keys - v.Keys));
    assert block.vtx[..1][0] == tx;
  }

  /** After k transactions of a block: disconnecting them, with the records read from the undo file and from a
      set of which some records were stored, is clean, and what it restores has lost the versions of just those
      records and of the ones that the block emptied. */
  lemma {:induction false} DisconnectReread(r: Rules, block: Block, u: UtxoSet, k: nat, h: nat, lost: set<TxId>)
    requires ValidUtxo(u) && CheckBlock(r, block) && NoOverwrite(u, block.vtx) && h > 0
    requires 0 < k <= |block.vtx| && ConnectTxs(r, block, u, block.vtx[..k], h).Some?
    ensures var p := ConnectTxs(r, block, u, block.vtx[..k], h).value;
            |p.undo| == k - 1 &&
            DisconnectTxs(Reread(p.utxo, lost), block.vtx[..k], StoredBlockUndo(p.undo), h)
                == Some(Reread(u, lost + (u.Keys - p.utxo.Keys)))
  {
    hide ConnectTx, UndoInputs, CheckTransaction, ValidUtxo, Reread;
    if k == 1 {
      DisconnectCoinbaseReread(r, block, u, h, lost);
    } else {
      var vtx, tx := block.vtx[..k], block.vtx[k - 1];
      assert vtx[..k - 1] == block.vtx[..k - 1];
      ConnectTxsUndo(r, block, u, k - 1, h);
      var q := ConnectTxs(r, block, u, block.vtx[..k - 1], h).value;
      assert ConnectTxs(r, block, u, vtx, h) == ConnectTx(r, block, q, tx, h);
      var p := ConnectTx(r, block, q, tx, h).value;
      DisconnectTxReread(r, block, q, tx, h, lost);
      var lost' := lost + (q.utxo.Keys - (p.utxo.Keys - {tx.id}));
      DisconnectReread(r, block, u, k - 1, h, lost');
      SameLost(u, lost' + (u.Keys - q.utxo.Keys), lost + (u.Keys - p.utxo.Keys));
      assert StoredBlockUndo(p.undo)[..k - 2] == StoredBlockUndo(p.undo[..k - 2]);
    }
  }

  lemma SameLost(u: UtxoSet, a: set<TxId>, b: set<TxId>)
    requires forall id | id in u :: id in a <==> id in b
    ensures Reread(u, a) == Reread(u, b)
  {
  }

  lemma DisconnectStored(r: Rules, u: UtxoSet, block: Block, h: nat, lost: set<TxId>)
    requires ValidUtxo(u) && h > 0 && ConnectBlock(r, u, block, h).Some?
    ensures var p := ConnectBlock(r, u, block, h).value;
            DisconnectBlock(Reread(p.utxo, lost), block, StoredBlockUndo(p.undo), h)
                == Some(Reread(u, lost + (u.Keys - p.utxo.Keys)))
  {
    assert block.vtx[..|block.vtx|] == block.vtx;
    DisconnectReread(r, block, u, |block.vtx|, h, lost);
  }

  /** With the undo data that the undo file gives back DisconnectBlock is clean for every block, and it restores
      the set up to versions. It restores it exactly if and only if no record that the block emptied has a
      negative version. */
  lemma RestoredExactly(r: Rules, u: UtxoSet, block: Block, h: nat)
    requires ValidUtxo(u) && h > 0 && ConnectBlock(r, u, block, h).Some?
    ensures var p := ConnectBlock(r, u, block, h).value;
            var d := DisconnectBlock(p.utxo, block, StoredBlockUndo(p.undo), h);
            && d.Some? && Kept(d.value, u)
            && (d.value == u <==> forall id | id in u && id !in p.utxo :: u[id].nVersion >= 0)
            && (forall id | id in u && id in p.utxo :: d.value[id] == u[id])
  {
    var p := ConnectBlock(r, u, block, h).value;
    RereadNone(p.utxo);
    DisconnectStored(r, u, block, h, {});
    RereadExactly(u, {} + (u.Keys - p.utxo.Keys));
  }

  /** A block for which it does not: the record of transaction 1 has version -1, the block spends its only output,
      and undoing the block brings the record back with version 127. */
  lemma VersionLost() returns (r: Rules, u: UtxoSet, block: Block)
    ensures ValidUtxo(u) && 1 in u && u[1].nVersion == -1 && ConnectBlock(r, u, block, 1).Some?
    ensures var p := ConnectBlock(r, u, block, 1).value;
            DisconnectBlock(p.utxo, block, StoredBlockUndo(p.undo), 1) == Some(u[1 := u[1].(nVersion := 127)])
  {
    hide ConnectBlock, DisconnectBlock, StoredBlockUndo, ValidUtxo, Reread;
    r := Rules((_, _, _) => true, (_, _, _) => 0, _ => CENT, _ => true, _ => true, 0, 0);
    u := map[1 := CoinRecord(false, [TxOut(10 * CENT, [])], 1, -1)];
    var coinbase := Tx(2, 1, [OutPoint(0, NULL_INDEX)], [TxOut(CENT, [])], 0, 0);
    var tx := Tx(3, 1, [OutPoint(1, 0)], [TxOut(CENT, [])], 0, 0);
    block := Block(0, 0, true, [coinbase, tx]);
    OneTxBlock(r, u, block, coinbase, tx);
    var p := ConnectBlock(r, u, block, 1).value;
    RereadNone(p.utxo);
    DisconnectStored(r, u, block, 1, {});
    RereadOne(u, 1, {} + (u.Keys - p.utxo.Keys));
  }

  lemma RereadNone(u: UtxoSet)
    ensures Reread(u, {}) == u
  {
  }

  lemma RereadOne(u: UtxoSet, id: TxId, lost: set<TxId>)
    requires u.Keys == {id} && id in lost
    ensures Reread(u, lost) == u[id := StoredRecord(u[id])]
  {
  }

  lemma OneTxBlock(r: Rules, u: UtxoSet, block: Block, coinbase: Tx, tx: Tx)
    requires u == map[1 := CoinRecord(false, [TxOut(10 * CENT, [])], 1, -1)]
    requires coinbase == Tx(2, 1, [OutPoint(0, NULL_INDEX)], [TxOut(CENT, [])], 0, 0)
    requires tx == Tx(3, 1, [OutPoint(1, 0)], [TxOut(CENT, [])], 0, 0) && block == Block(0, 0, true, [coinbase, tx])
    requires r.lockLimitOk(block) && r.otherBlockChecks(block) && r.subsidy(0) == CENT
    requires forall t, i, o :: r.scriptOk(t, i, o) && r.p2shSigOps(t, i, o) == 0
    ensures ConnectBlock(r, u, block, 1).Some? && 1 !in ConnectBlock(r, u, block, 1).value.utxo && ValidUtxo(u)
  {
    assert ValueOut(tx.vout[..0]) == 0 && ValueOut(tx.vout) == CENT;
    assert CheckTransaction(coinbase) && CheckTransaction(tx);
    assert CheckBlock(r, block);
    var v := u[2 := CoinsOf(coinbase, 1)];
    assert block.vtx[..1] == [coinbase] && block.vtx[..2] == block.vtx && [coinbase][..0] == [];
    assert ConnectTxs(r, block, u, [], 1) == Some(Progress(u, [], 0, 0, 0, 0, true));
    assert ConnectTxs(r, block, u, [coinbase], 1) == Some(Progress(v, [], 0, 0, CENT, 0, true));
    assert Available(v, tx.vin[0]) && ValueIn(v, tx.vin[..0]) == 0 && ValueIn(v, tx.vin) == 10 * CENT;
    assert P2SHSigOps(r, v, tx, 0) == 0 && P2SHSigOps(r, v, tx, 1) == 0;
    assert CheckInputs(v, tx, 1);
    SpendSucceeds(v, tx.vin);
    assert SpendInputs(v, tx.vin[..0]) == Some((v, []));
    var s := SpendInputs(v, tx.vin).value;
    assert s.0 == Put(v, 1, SpendResult(v[1], 0).0);
    assert SpendResult(v[1], 0).0.IsPruned();
    assert ConnectTxs(r, block, u, block.vtx, 1) == ConnectTx(r, block, Progress(v, [], 0, 0, CENT, 0, true), tx, 1);
  }

  // ---------------------------------------------------------------- what else does not depend on versions

  lemma {:induction false} TotalKept(w: UtxoSet, u: UtxoSet)
    requires Kept(w, u)
    ensures Total(w) == Total(u)
    decreases |u|
  {
    if u != map[] {
      var id :| id in u;
      TotalRemove(u, id);
      TotalRemove(w, id);
      TotalKept(w - {id}, u - {id});
    } else {
      assert w == map[];
    }
  }

  // ---------------------------------------------------------------- chains without negative versions

  ghost predicate NoNegative(u: UtxoSet) { forall id | id in u :: u[id].nVersion >= 0 }

  lemma KeptWhole(w: UtxoSet, u: UtxoSet)
    requires Kept(w, u) && NoNegative(u)
    ensures w == u
  {
  }

  lemma {:induction false} SpendNoNegative(u: UtxoSet, vin: seq<OutPoint>)
    requires NoNegative(u) && SpendInputs(u, vin).Some?
    ensures NoNegative(SpendInputs(u, vin).value.0)
  {
    if vin != [] {
      SpendNoNegative(u, vin[..|vin| - 1]);
    }
  }

  lemma {:induction false} ConnectNoNegative(r: Rules, block: Block, u: UtxoSet, vtx: seq<Tx>, h: nat)
    requires NoNegative(u) && ConnectTxs(r, block, u, vtx, h).Some? && forall i | 0 <= i < |vtx| :: vtx[i].nVersion >= 0
    ensures NoNegative(ConnectTxs(r, block, u, vtx, h).value.utxo)
  {
    hide CheckInputs, ScriptsOk, P2SHSigOps, ValueIn, ValueOut;
    if vtx != [] {
      var k := |vtx| - 1;
      ConnectNoNegative(r, block, u, vtx[..k], h);
      var q := ConnectTxs(r, block, u, vtx[..k], h).value;
      if SpendInputs(q.utxo, vtx[k].vin).Some? {
        SpendNoNegative(q.utxo, vtx[k].vin);
      }
    }
  }
}
