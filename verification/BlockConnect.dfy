/** The loops of ConnectBlock and DisconnectBlock over a coin cache, proved to compute the
    functions of module Utxo on the unspent part of what the cache shows. */
module BlockConnect {
  import opened Coins
  import opened Utxo
  import opened CoinsViews
  import opened Storage

  ghost function UtxoOf(view: CoinsView): UtxoSet
    requires view.Layered()
    reads view.Repr()
  {
    Unspent(view.Contents())
  }

  method HaveInputs(view: CoinsView, tx: Tx) returns (have: bool)
    requires view.Layered()
    modifies view.Repr()
    ensures view.Contents() == old(view.Contents()) && view.Best() == old(view.Best())
        && view.Below() == old(view.Below())
    ensures have <==> tx.IsCoinBase() || Utxo.HaveInputs(UtxoOf(view), tx.vin)
  {
    if tx.IsCoinBase() {
      return true;
    }
    for i := 0 to |tx.vin|
      invariant view.Contents() == old(view.Contents()) && view.Best() == old(view.Best())
          && view.Below() == old(view.Below())
      invariant forall j | 0 <= j < i :: tx.vin[j].hash in view.Contents()
    {
      var found := view.HaveCoins(tx.vin[i].hash);
      if !found {
        assert !Available(UtxoOf(view), tx.vin[i]);
        return false;
      }
    }
    for i := 0 to |tx.vin|
      invariant view.Contents() == old(view.Contents()) && view.Best() == old(view.Best())
          && view.Below() == old(view.Below())
      invariant forall j | 0 <= j < i :: Available(UtxoOf(view), tx.vin[j])
    {
      var found, coins := view.GetCoins(tx.vin[i].hash);
      if !coins.IsAvailable(tx.vin[i].n) {
        assert !Available(UtxoOf(view), tx.vin[i]);
        return false;
      }
    }
    have := true;
  }

  /** GetOutputFor: its assertion holds for every available output. */
  method GetOutputFor(view: CoinsView, out: OutPoint) returns (txout: TxOut)
    requires view.Layered() && Available(UtxoOf(view), out)
    modifies view.Repr()
    ensures view.Contents() == old(view.Contents()) && view.Best() == old(view.Best())
        && view.Below() == old(view.Below())
    ensures txout == Output(UtxoOf(view), out)
  {
    var found, coins := view.GetCoins(out.hash);
    assert coins.IsAvailable(out.n);
    txout := coins.vout[out.n];
  }

  method GetValueIn(view: CoinsView, tx: Tx) returns (value: int)
    requires view.Layered() && Utxo.HaveInputs(UtxoOf(view), tx.vin) && !tx.IsCoinBase()
    modifies view.Repr()
    ensures view.Contents() == old(view.Contents()) && view.Best() == old(view.Best())
        && view.Below() == old(view.Below())
    ensures value == ValueIn(UtxoOf(view), tx.vin)
  {
    value := 0;
    for i := 0 to |tx.vin|
      invariant view.Contents() == old(view.Contents()) && view.Best() == old(view.Best())
          && view.Below() == old(view.Below())
      invariant value == ValueIn(UtxoOf(view), tx.vin[..i])
    {
      var out := GetOutputFor(view, tx.vin[i]);
      value := value + out.nValue;
      assert tx.vin[..i + 1][..i] == tx.vin[..i];
    }
    assert tx.vin[..|tx.vin|] == tx.vin;
  }

  method GetP2SHSigOpCount(r: Rules, view: CoinsView, tx: Tx) returns (count: nat)
    requires view.Layered() && Utxo.HaveInputs(UtxoOf(view), tx.vin)
    modifies view.Repr()
    ensures view.Contents() == old(view.Contents()) && view.Best() == old(view.Best())
        && view.Below() == old(view.Below())
    ensures count == P2SHSigOps(r, UtxoOf(view), tx, |tx.vin|)
  {
    count := 0;
    for i := 0 to |tx.vin|
      invariant view.Contents() == old(view.Contents()) && view.Best() == old(view.Best())
          && view.Below() == old(view.Below())
      invariant count == P2SHSigOps(r, UtxoOf(view), tx, i)
    {
      var out := GetOutputFor(view, tx.vin[i]);
      count := count + r.p2shSigOps(tx, i, out);
    }
  }

  predicate PrefixInRange(vout: seq<TxOut>, i: nat)
    requires i < |vout|
  {
    MoneyRange(vout[i].nValue) && MoneyRange(ValueOut(vout[..i + 1]))
  }

  /** GetValueOut; None where it throws. */
  method GetValueOut(tx: Tx) returns (value: Option<int>)
    ensures value.Some? ==> value.value == ValueOut(tx.vout)
    ensures value.Some? <==> forall i | 0 <= i < |tx.vout| :: PrefixInRange(tx.vout, i)
  {
    var sum := 0;
    for i := 0 to |tx.vout|
      invariant sum == ValueOut(tx.vout[..i])
      invariant forall j | 0 <= j < i :: PrefixInRange(tx.vout, j)
    {
      assert tx.vout[..i + 1][..i] == tx.vout[..i];
      sum := sum + tx.vout[i].nValue;
      if !MoneyRange(tx.vout[i].nValue) || !MoneyRange(sum) {
        assert !PrefixInRange(tx.vout, i);
        return None;
      }
    }
    assert tx.vout[..|tx.vout|] == tx.vout;
    value := Some(sum);
  }

  lemma {:induction false} ValueOutPrefix(vout: seq<TxOut>, k: nat)
    requires k <= |vout| && forall i | 0 <= i < |vout| :: vout[i].nValue >= 0
    ensures 0 <= ValueOut(vout[..k]) <= ValueOut(vout)
    decreases |vout|
  {
    if k == |vout| {
      assert vout[..k] == vout;
      if k > 0 { ValueOutPrefix(vout[..k - 1], k - 1); assert vout[..k - 1][..k - 1] == vout[..k - 1]; }
    } else {
      assert vout[..|vout| - 1][..k] == vout[..k];
      ValueOutPrefix(vout[..|vout| - 1], k);
    }
  }

  /** A transaction that passed CheckTransaction never makes GetValueOut throw. */
  lemma CheckedValueOut(tx: Tx)
    requires CheckTransaction(tx)
    ensures forall i | 0 <= i < |tx.vout| :: PrefixInRange(tx.vout, i)
  {
    forall i | 0 <= i < |tx.vout| ensures PrefixInRange(tx.vout, i) {
      ValueOutPrefix(tx.vout, i + 1);
    }
  }

  lemma {:induction false} ValueInPrefix(u: UtxoSet, vin: seq<OutPoint>, k: nat)
    requires k <= |vin| && Utxo.HaveInputs(u, vin) && forall i | 0 <= i < |vin| :: Output(u, vin[i]).nValue >= 0
    ensures ValueIn(u, vin[..k]) <= ValueIn(u, vin)
    decreases |vin|
  {
    if k == |vin| {
      assert vin[..k] == vin;
    } else {
      assert vin[..|vin| - 1][..k] == vin[..k];
      ValueInPrefix(u, vin[..|vin| - 1], k);
    }
  }

  predicate InputOk(u: UtxoSet, out: OutPoint, spendHeight: nat)
    requires Available(u, out)
  {
    && MoneyRange(Output(u, out).nValue)
    && (u[out.hash].fCoinBase ==> spendHeight - u[out.hash].nHeight >= COINBASE_MATURITY)
  }

  /** The cheap checks of one input. */
  method CheckInput(view: CoinsView, out: OutPoint, nSpendHeight: nat) returns (ok: bool, value: int)
    requires view.Layered() && Available(UtxoOf(view), out)
    modifies view.Repr()
    ensures view.Contents() == old(view.Contents()) && view.Best() == old(view.Best())
        && view.Below() == old(view.Below())
    ensures ok <==> InputOk(UtxoOf(view), out, nSpendHeight)
    ensures value == Output(UtxoOf(view), out).nValue
  {
    var found, coins := view.GetCoins(out.hash);
    value := coins.vout[out.n].nValue;
    if coins.fCoinBase {
      if nSpendHeight - coins.nHeight < COINBASE_MATURITY {
        return false, value;
      }
    }
    ok := MoneyRange(value);
  }

  predicate InputsOk(u: UtxoSet, vin: seq<OutPoint>, spendHeight: nat)
    requires Utxo.HaveInputs(u, vin)
  {
    (forall i | 0 <= i < |vin| :: InputOk(u, vin[i], spendHeight)) && MoneyRange(ValueIn(u, vin))
  }

  /** The first loop of CheckInputs, which stops at the first value or sum out of range. */
  method CheckAllInputs(view: CoinsView, tx: Tx, nSpendHeight: nat) returns (ok: bool, nValueIn: int)
    requires view.Layered() && Utxo.HaveInputs(UtxoOf(view), tx.vin)
    modifies view.Repr()
    ensures view.Contents() == old(view.Contents()) && view.Best() == old(view.Best())
        && view.Below() == old(view.Below())
    ensures ok <==> InputsOk(UtxoOf(view), tx.vin, nSpendHeight)
    ensures ok ==> nValueIn == ValueIn(UtxoOf(view), tx.vin)
  {
    hide Unspent, CoinsView.Contents, CoinsView.Best, CoinsView.Below;
    view.ReprAllocated();
    ghost var u := UtxoOf(view);
    nValueIn := 0;
    for i := 0 to |tx.vin|
      invariant view.Contents() == old(view.Contents()) && view.Best() == old(view.Best())
          && view.Below() == old(view.Below())
      invariant nValueIn == ValueIn(u, tx.vin[..i]) && MoneyRange(nValueIn)
      invariant forall j | 0 <= j < i :: InputOk(u, tx.vin[j], nSpendHeight)
    {
      var inputOk, value := CheckInput(view, tx.vin[i], nSpendHeight);
      nValueIn := nValueIn + value;
      assert tx.vin[..i + 1][..i] == tx.vin[..i];
      if !inputOk {
        return false, 0;
      }
      if !MoneyRange(nValueIn) {
        if InputsOk(u, tx.vin, nSpendHeight) {
          assert forall j | 0 <= j < |tx.vin| :: InputOk(u, tx.vin[j], nSpendHeight);
          ValueInPrefix(u, tx.vin, i + 1);
        }
        return false, 0;
      }
    }
    assert tx.vin[..|tx.vin|] == tx.vin;
    ok := true;
  }

  method QueueScriptChecks(view: CoinsView, tx: Tx) returns (checks: seq<(Tx, nat, TxOut)>)
    requires view.Layered() && Utxo.HaveInputs(UtxoOf(view), tx.vin)
    modifies view.Repr()
    ensures view.Contents() == old(view.Contents()) && view.Best() == old(view.Best())
        && view.Below() == old(view.Below())
    ensures |checks| == |tx.vin| && forall j | 0 <= j < |tx.vin| ::
                                      checks[j] == (tx, j, Output(UtxoOf(view), tx.vin[j]))
  {
    ghost var u := UtxoOf(view);
    checks := [];
    for i := 0 to |tx.vin|
      invariant view.Contents() == old(view.Contents()) && view.Best() == old(view.Best())
          && view.Below() == old(view.Below())
      invariant |checks| == i && forall j | 0 <= j < i :: checks[j] == (tx, j, Output(u, tx.vin[j]))
    {
      var out := GetOutputFor(view, tx.vin[i]);
      checks := checks + [(tx, i, out)];
    }
  }

  ghost predicate AllChecksOk(r: Rules, checks: seq<(Tx, nat, TxOut)>) { forall c | c in checks ::
      r.scriptOk(c.0, c.1, c.2) }

  /** CheckInputs: `checks` are the script checks it queues. */
  method CheckInputs(r: Rules, view: CoinsView, tx: Tx, fScriptChecks: bool)
    returns (ok: bool, checks: seq<(Tx, nat, TxOut)>)
    requires view.Layered() && view.Best() != null && view.base != null
    requires CheckTransaction(tx) && !tx.IsCoinBase()
    modifies view.Repr()
    ensures view.Contents() == old(view.Contents()) && view.Best() == old(view.Best())
        && view.Below() == old(view.Below())
    ensures ok <==> Utxo.CheckInputs(UtxoOf(view), tx, view.Best().nHeight + 1)
    ensures ok ==> (AllChecksOk(r, checks) <==>
                    (fScriptChecks ==> ScriptsOk(r, UtxoOf(view), tx)))
  {
    hide Unspent, MinFee;
    view.ReprAllocated();
    checks := [];
    ok := HaveInputs(view, tx);
    if !ok {
      return;
    }
    CheckedValueOut(tx);
    var valueOut := GetValueOut(tx);
    var best := view.GetBestBlock();
    var nValueIn;
    ok, nValueIn := CheckAllInputs(view, tx, best.nHeight + 1);
    if !ok {
      return;
    }
    assert InputsOk(UtxoOf(view), tx.vin, best.nHeight + 1) && nValueIn == ValueIn(UtxoOf(view), tx.vin);
    if nValueIn < valueOut.value {
      return false, [];
    }
    var nTxFee := nValueIn - valueOut.value;
    if nTxFee < MinFee(tx.nBytes) {
      return false, [];
    }
    if !MoneyRange(nTxFee) {
      return false, [];
    }
    if fScriptChecks {
      checks := QueueScriptChecks(view, tx);
      assert forall i | 0 <= i < |tx.vin| :: checks[i] in checks;
    }
  }

  /** One input of UpdateCoins: the record in the cache is changed in place. */
  method SpendOutput(view: CoinsView, out: OutPoint) returns (undo: TxInUndo)
    requires view.Layered() && view.base != null && Available(UtxoOf(view), out)
    modifies view.Repr()
    ensures view.Below() == old(view.Below()) && view.Best() == old(view.Best())
    ensures var (left, u) := SpendResult(old(UtxoOf(view))[out.hash], out.n);
            undo == u && UtxoOf(view) == Put(old(UtxoOf(view)), out.hash, left)
  {
    view.ReprAllocated();
    var found, coins := view.GetCoins(out.hash);
    assert found;
    var ok, left, u := Spend(coins, out.n);
    assert ok;
    undo := u;
    UnspentUpdate(view.Contents(), out.hash, left);
    view.SetCoins(out.hash, left);
  }

  /** UpdateCoins: none of its assertions fails once the inputs are known to be available. */
  method UpdateCoins(view: CoinsView, tx: Tx, nHeight: nat) returns (txundo: TxUndo)
    requires view.Layered() && view.base != null && CheckTransaction(tx)
    requires tx.IsCoinBase() || Utxo.HaveInputs(UtxoOf(view), tx.vin)
    modifies view.Repr()
    ensures view.Below() == old(view.Below()) && view.Best() == old(view.Best())
    ensures if tx.IsCoinBase() then txundo == [] && UtxoOf(view) == old(UtxoOf(view))[tx.id := CoinsOf(tx, nHeight)]
            else SpendInputs(old(UtxoOf(view)), tx.vin).Some? &&
                 var s := SpendInputs(old(UtxoOf(view)), tx.vin).value;
                 txundo == s.1 && UtxoOf(view) == s.0[tx.id := CoinsOf(tx, nHeight)]
  {
    hide Unspent, SpendResult, SpendInputs, CheckTransaction, Put;
    txundo := [];
    ghost var u := UtxoOf(view);
    CheckedShape(tx, nHeight);
    SpendNone(u, tx.vin);
    if !tx.IsCoinBase() {
      SpendSucceeds(u, tx.vin);
      for i := 0 to |tx.vin|
        invariant view.Below() == old(view.Below()) && view.Best() == old(view.Best())
        invariant SpendInputs(u, tx.vin[..i]) == Some((UtxoOf(view), txundo))
      {
        var out := tx.vin[i];
        SpendNext(u, tx.vin, i);
        var undo := SpendOutput(view, out);
        txundo := txundo + [undo];
      }
    }
    UnspentUpdate(view.Contents(), tx.id, CoinsOf(tx, nHeight));
    view.SetCoins(tx.id, CoinsOf(tx, nHeight));
  }

  lemma CheckedShape(tx: Tx, nHeight: nat)
    requires CheckTransaction(tx)
    ensures DistinctInputs(tx.vin) && forall u ::
                                        Put(u, tx.id, CoinsOf(tx, nHeight)) == u[tx.id := CoinsOf(tx, nHeight)]
  {
    assert !tx.vout[0].IsNull();
  }

  lemma SpendNone(u: UtxoSet, vin: seq<OutPoint>)
    ensures SpendInputs(u, vin[..0]) == Some((u, [])) && vin[..|vin|] == vin
  {
  }

  lemma SpendNext(u: UtxoSet, vin: seq<OutPoint>, i: nat)
    requires Utxo.HaveInputs(u, vin) && DistinctInputs(vin) && i < |vin|
    ensures SpendInputs(u, vin[..i]).Some? && Available(SpendInputs(u, vin[..i]).value.0, vin[i])
    ensures var (p, undo) := SpendInputs(u, vin[..i]).value;
            var (left, one) := SpendResult(p[vin[i].hash], vin[i].n);
            SpendInputs(u, vin[..i + 1]) == Some((Put(p, vin[i].hash, left), undo + [one]))
  {
    SpendSucceeds(u, vin[..i]);
    assert vin[i] !in vin[..i];
    assert vin[..i + 1][..i] == vin[..i];
  }

  lemma ChecksAppend(r: Rules, a: seq<(Tx, nat, TxOut)>, b: seq<(Tx, nat, TxOut)>)
    ensures AllChecksOk(r, a + b) <==> AllChecksOk(r, a) && AllChecksOk(r, b)
  {
    assert (forall c | c in a :: c in a + b) && (forall c | c in b :: c in a + b);
  }

  /** The totals after one more transaction. */
  ghost function Advance(r: Rules, p: Progress, u: UtxoSet, isCoinBase: bool, txundo: TxUndo, valueIn: int,
      valueOut: int, nSigOps: nat, checks: seq<(Tx, nat, TxOut)>): Progress {
    Progress(u, if isCoinBase then p.undo else p.undo + [txundo], if isCoinBase then p.nFees
        else p.nFees + valueIn - valueOut,
        p.nValueIn + valueIn, p.nValueOut + valueOut, nSigOps, p.scriptsOk && AllChecksOk(r, checks))
  }

  /** One round of ConnectBlock's loop. */
  method ConnectTransaction(r: Rules, block: Block, view: CoinsView, tx: Tx, nHeight: nat, ghost p: Progress,
                            nSigOpsIn: nat)
    returns (ok: bool, valueIn: int, valueOut: int, nSigOps: nat, txundo: TxUndo, checks: seq<(Tx, nat, TxOut)>)
    requires view.Layered() && view.base != null && CheckTransaction(tx)
    requires view.Best() != null && nHeight == view.Best().nHeight + 1
    requires UtxoOf(view) == p.utxo && nSigOpsIn == p.nSigOps
    modifies view.Repr()
    ensures view.Below() == old(view.Below()) && view.Best() == old(view.Best())
    ensures ok <==> ConnectTx(r, block, p, tx, nHeight).Some?
    ensures ok ==> ConnectTx(r, block, p, tx, nHeight)
                   == Some(Advance(r, p, UtxoOf(view), tx.IsCoinBase(), txundo, valueIn, valueOut, nSigOps, checks))
  {
    hide Unspent;
    view.ReprAllocated();
    valueIn, txundo, checks, ok := 0, [], [], true;
    nSigOps := nSigOpsIn + tx.legacySigOps;
    CheckedValueOut(tx);
    var out := GetValueOut(tx);
    valueOut := out.value;
    if nSigOps > MAX_BLOCK_SIGOPS {
      return false, 0, 0, nSigOps, [], [];
    }
    if !tx.IsCoinBase() {
      ok, valueIn, nSigOps, checks := CheckSpend(r, block, view, tx, nHeight, nSigOps);
      if !ok {
        return;
      }
    }
    txundo := UpdateCoins(view, tx, nHeight);
    ghost var q := Advance(r, p, UtxoOf(view), tx.IsCoinBase(), txundo, valueIn, valueOut, nSigOps, checks);
    if tx.IsCoinBase() {
      assert AllChecksOk(r, checks);
      ConnectTxCoinbase(r, block, p, tx, nHeight, nSigOps, UtxoOf(view));
      assert ConnectTx(r, block, p, tx, nHeight) == Some(q);
    } else {
      var s := SpendInputs(p.utxo, tx.vin).value;
      assert UtxoOf(view) == s.0[tx.id := CoinsOf(tx, nHeight)];
      ConnectTxAccepts(r, block, p, tx, nHeight, s, nSigOps, AllChecksOk(r, checks));
      ghost var c := ConnectTx(r, block, p, tx, nHeight).value;
      assert q.utxo == c.utxo && q.undo == c.undo;
      assert q.nFees == c.nFees && q.nValueIn == c.nValueIn && q.nValueOut == c.nValueOut;
      assert q.nSigOps == c.nSigOps && q.scriptsOk == c.scriptsOk;
    }
  }

  lemma ConnectTxCoinbase(r: Rules, block: Block, p: Progress, tx: Tx, nHeight: nat, nSigOps: nat, after: UtxoSet)
    requires tx.IsCoinBase() && nSigOps == p.nSigOps + tx.legacySigOps <= MAX_BLOCK_SIGOPS
    requires after == p.utxo[tx.id := CoinsOf(tx, nHeight)]
    ensures ConnectTx(r, block, p, tx, nHeight) ==
            Some(Progress(after, p.undo, p.nFees, p.nValueIn, p.nValueOut + ValueOut(tx.vout), nSigOps, p.scriptsOk))
  {
  }

  /** The part of the loop that looks at the inputs without changing them. */
  method CheckSpend(r: Rules, block: Block, view: CoinsView, tx: Tx, nHeight: nat, nSigOpsIn: nat)
    returns (ok: bool, valueIn: int, nSigOps: nat, checks: seq<(Tx, nat, TxOut)>)
    requires view.Layered() && view.base != null && CheckTransaction(tx) && !tx.IsCoinBase()
    requires view.Best() != null && nHeight == view.Best().nHeight + 1
    modifies view.Repr()
    ensures view.Contents() == old(view.Contents()) && view.Best() == old(view.Best())
        && view.Below() == old(view.Below())
    ensures ok <==> Utxo.CheckInputs(UtxoOf(view), tx, nHeight)
                    && SigOpsWithInputs(r, block, UtxoOf(view), tx, nSigOpsIn) <= MAX_BLOCK_SIGOPS
    ensures ok ==> nSigOps == SigOpsWithInputs(r, block, UtxoOf(view), tx, nSigOpsIn)
                   && valueIn == ValueIn(UtxoOf(view), tx.vin)
    ensures ok ==> (AllChecksOk(r, checks) <==> (nHeight >= r.checkpointHeight ==> ScriptsOk(r, UtxoOf(view), tx)))
  {
    valueIn, nSigOps, checks := 0, nSigOpsIn, [];
    ok := HaveInputs(view, tx);
    if !ok {
      return;
    }
    if block.strictP2SH {
      var p2sh := GetP2SHSigOpCount(r, view, tx);
      nSigOps := nSigOps + p2sh;
    }
    if nSigOps > MAX_BLOCK_SIGOPS {
      return false, 0, nSigOps, [];
    }
    valueIn := GetValueIn(view, tx);
    ok, checks := CheckInputs(r, view, tx, nHeight >= r.checkpointHeight);
  }

  function SigOpsWithInputs(r: Rules, block: Block, u: UtxoSet, tx: Tx, before: nat): nat
    requires Utxo.HaveInputs(u, tx.vin)
  {
    before + if block.strictP2SH then P2SHSigOps(r, u, tx, |tx.vin|) else 0
  }

  /** The facts one round has established add up to what ConnectTx returns. */
  lemma ConnectTxAccepts(r: Rules, block: Block, p: Progress, tx: Tx, nHeight: nat, s: (UtxoSet, TxUndo), nSigOps: nat,
      scriptsOk: bool)
    requires nSigOps <= MAX_BLOCK_SIGOPS && !tx.IsCoinBase()
    requires Utxo.CheckInputs(p.utxo, tx, nHeight)
    requires nSigOps == p.nSigOps + tx.legacySigOps + if block.strictP2SH then P2SHSigOps(r, p.utxo, tx, |tx.vin|)
        else 0
    requires SpendInputs(p.utxo, tx.vin) == Some(s)
    requires scriptsOk <==> (nHeight >= r.checkpointHeight ==> ScriptsOk(r, p.utxo, tx))
    ensures var valueIn, valueOut := ValueIn(p.utxo, tx.vin), ValueOut(tx.vout);
            ConnectTx(r, block, p, tx, nHeight) ==
            Some(Progress(s.0[tx.id := CoinsOf(tx, nHeight)], p.undo + [s.1], p.nFees + valueIn - valueOut,
                          p.nValueIn + valueIn, p.nValueOut + valueOut, nSigOps, p.scriptsOk && scriptsOk))
  {
  }

  /** The BIP 30 loop. */
  method FindsNoOverwrite(view: CoinsView, vtx: seq<Tx>) returns (ok: bool)
    requires view.Layered()
    modifies view.Repr()
    ensures view.Contents() == old(view.Contents()) && view.Best() == old(view.Best())
        && view.Below() == old(view.Below())
    ensures ok <==> NoOverwrite(UtxoOf(view), vtx)
  {
    for i := 0 to |vtx|
      invariant view.Contents() == old(view.Contents()) && view.Best() == old(view.Best())
          && view.Below() == old(view.Below())
      invariant forall j | 0 <= j < i :: vtx[j].id !in UtxoOf(view)
    {
      var found, coins := view.GetCoins(vtx[i].id);
      if found && !coins.IsPruned() {
        assert vtx[i].id in UtxoOf(view);
        return false;
      }
    }
    ok := true;
  }

  /** The main loop of ConnectBlock; its results are those of ConnectTxs. */
  method ConnectTransactions(r: Rules, block: Block, view: CoinsView, nHeight: nat)
    returns (ok: bool, blockundo: seq<TxUndo>, nFees: int, nValueIn: int, nValueOut: int, ghost nSigOpsOut: nat,
             control: seq<(Tx, nat, TxOut)>)
    requires view.Layered() && view.base != null && CheckBlock(r, block)
    requires view.Best() != null && nHeight == view.Best().nHeight + 1
    modifies view.Repr()
    ensures view.Below() == old(view.Below()) && view.Best() == old(view.Best())
    ensures ok <==> ConnectTxs(r, block, old(UtxoOf(view)), block.vtx, nHeight).Some?
    ensures ok ==> ConnectTxs(r, block, old(UtxoOf(view)), block.vtx, nHeight) ==
                   Some(Progress(UtxoOf(view), blockundo, nFees, nValueIn, nValueOut, nSigOpsOut,
                       AllChecksOk(r, control)))
  {
    hide ConnectTx, Unspent, CheckTransaction;
    view.ReprAllocated();
    blockundo, nFees, nValueIn, nValueOut, nSigOpsOut, control := [], 0, 0, 0, 0, [];
    var nSigOps := 0;
    ghost var u := UtxoOf(view);
    assert block.vtx[..0] == [] && block.vtx[..|block.vtx|] == block.vtx;
    for i := 0 to |block.vtx|
      invariant view.Below() == old(view.Below()) && view.Best() == old(view.Best())
      invariant ConnectTxs(r, block, u, block.vtx[..i], nHeight) ==
                Some(Progress(UtxoOf(view), blockundo, nFees, nValueIn, nValueOut, nSigOps, AllChecksOk(r, control)))
    {
      var tx := block.vtx[i];
      ghost var p := Progress(UtxoOf(view), blockundo, nFees, nValueIn, nValueOut, nSigOps, AllChecksOk(r, control));
      ConnectTxsStep(r, block, u, i, nHeight, p);
      var txOk, valueIn, valueOut, sigOps, txundo,
          checks := ConnectTransaction(r, block, view, tx, nHeight, p, nSigOps);
      if !txOk {
        ConnectTxsFails(r, block, u, block.vtx, i + 1, nHeight);
        return false, [], 0, 0, 0, 0, [];
      }
      nSigOps := sigOps;
      nValueIn, nValueOut := nValueIn + valueIn, nValueOut + valueOut;
      if !tx.IsCoinBase() {
        nFees := nFees + valueIn - valueOut;
        blockundo := blockundo + [txundo];
      }
      AdvanceTotals(r, p, UtxoOf(view), tx.IsCoinBase(), txundo, valueIn, valueOut, sigOps, control, checks);
      control := control + checks;
      ghost var q := Progress(UtxoOf(view), blockundo, nFees, nValueIn, nValueOut, nSigOps, AllChecksOk(r, control));
      ghost var c := ConnectTx(r, block, p, tx, nHeight).value;
      assert c.undo == q.undo && c.nFees == q.nFees;
      assert c == q;
      assert ConnectTxs(r, block, u, block.vtx[..i + 1], nHeight) == Some(q);
    }
    nSigOpsOut := nSigOps;
    ok := true;
  }

  lemma AdvanceTotals(r: Rules, p: Progress, after: UtxoSet, isCoinBase: bool, txundo: TxUndo, valueIn: int,
      valueOut: int, nSigOps: nat, control: seq<(Tx, nat, TxOut)>, checks: seq<(Tx, nat, TxOut)>)
    requires p.scriptsOk == AllChecksOk(r, control)
    ensures Advance(r, p, after, isCoinBase, txundo, valueIn, valueOut, nSigOps, checks) ==
            Progress(after, if isCoinBase then p.undo else p.undo + [txundo], if isCoinBase then p.nFees
                else p.nFees + valueIn - valueOut,
                p.nValueIn + valueIn, p.nValueOut + valueOut, nSigOps, AllChecksOk(r, control + checks))
  {
    ChecksAppend(r, control, checks);
  }

  lemma ConnectTxsStep(r: Rules, block: Block, u: UtxoSet, i: nat, nHeight: nat, p: Progress)
    requires i < |block.vtx| && ConnectTxs(r, block, u, block.vtx[..i], nHeight) == Some(p)
    ensures ConnectTxs(r, block, u, block.vtx[..i + 1], nHeight) == ConnectTx(r, block, p, block.vtx[i], nHeight)
  {
    assert block.vtx[..i + 1][..i] == block.vtx[..i];
  }

  /** A block whose first k transactions cannot be connected is rejected. */
  lemma {:induction false} ConnectTxsFails(r: Rules, block: Block, u: UtxoSet, vtx: seq<Tx>, k: nat, nHeight: nat)
    requires k <= |vtx| && ConnectTxs(r, block, u, vtx[..k], nHeight) == None
    ensures ConnectTxs(r, block, u, vtx, nHeight) == None
    decreases |vtx|
  {
    if k == |vtx| {
      assert vtx[..k] == vtx;
    } else {
      assert vtx[..|vtx| - 1][..k] == vtx[..k];
      ConnectTxsFails(r, block, u, vtx[..|vtx| - 1], k, nHeight);
    }
  }

  /** ConnectBlock after CheckBlock and the special case for the genesis block. */
  method ConnectCheckedBlock(r: Rules, pindex: BlockIndex, view: CoinsView, fJustCheck: bool) returns (ok: bool)
    requires view.Layered() && view.base != null && view.Best() == pindex.pprev && CheckBlock(r, pindex.block)
    requires pindex.pprev != null && pindex.nHeight == pindex.pprev.nHeight + 1
    modifies view.Repr(), pindex`nMoneySupply, pindex`undo
    ensures view.Below() == old(view.Below())
    ensures var result := Utxo.ConnectBlock(r, old(UtxoOf(view)), pindex.block, pindex.nHeight);
            && (ok <==> result.Some?)
            && (ok ==> UtxoOf(view) == result.value.utxo)
            && (ok && !fJustCheck ==> Recorded(pindex, view, result.value, old(pindex.undo)))
            && (!ok || fJustCheck ==> pindex.undo == old(pindex.undo))
            && (fJustCheck ==> pindex.nMoneySupply == old(pindex.nMoneySupply) && view.Best() == old(view.Best()))
  {
    hide Unspent, Utxo.ConnectBlock, CheckTransaction, MinFee, CoinsView.Below, CoinsView.Contents, ConnectTxs,
        NoOverwrite, StoredBlockUndo, ValueOut;
    view.ReprAllocated();
    var block := pindex.block;
    ghost var u := UtxoOf(view);
    ok := FindsNoOverwrite(view, block.vtx);
    if !ok {
      ConnectBlockFails(r, u, block, pindex.nHeight);
      return;
    }
    var blockundo, nFees, nValueIn, nValueOut, control;
    ghost var nSigOps;
    ok, blockundo, nFees, nValueIn, nValueOut, nSigOps, control := ConnectTransactions(r, block, view, pindex.nHeight);
    if !ok {
      ConnectBlockFails(r, u, block, pindex.nHeight);
      return;
    }
    ghost var p := Progress(UtxoOf(view), blockundo, nFees, nValueIn, nValueOut, nSigOps, AllChecksOk(r, control));
    ConnectBlockDecides(r, u, block, pindex.nHeight, p);
    if !fJustCheck {
      pindex.nMoneySupply := pindex.pprev.nMoneySupply + nValueOut - nValueIn;
    }
    if ValueOut(block.vtx[0].vout) > r.subsidy(block.nBits) + nFees - MinFee(block.vtx[0].nBytes) + MIN_TX_FEE {
      return false;
    }
    ok := forall c | c in control :: r.scriptOk(c.0, c.1, c.2);
    if !ok || fJustCheck {
      return;
    }
    if pindex.undo.None? {
      pindex.undo := Some(StoredBlockUndo(blockundo));
    }
    view.SetBestBlock(pindex);
  }

  lemma ConnectBlockFails(r: Rules, u: UtxoSet, block: Block, nHeight: nat)
    requires !NoOverwrite(u, block.vtx) || ConnectTxs(r, block, u, block.vtx, nHeight) == None
    ensures Utxo.ConnectBlock(r, u, block, nHeight) == None
  {
  }

  lemma ConnectBlockDecides(r: Rules, u: UtxoSet, block: Block, nHeight: nat, p: Progress)
    requires CheckBlock(r, block) && NoOverwrite(u, block.vtx) && ConnectTxs(r, block, u, block.vtx, nHeight) == Some(p)
    ensures Utxo.ConnectBlock(r, u, block, nHeight) == if CoinbaseOk(r, block, p) && p.scriptsOk then Some(p) else None
  {
  }

  /** What connecting leaves in the block index: the money supply, and what the undo file gives back of the undo
      data, unless there was some already. */
  ghost predicate Recorded(pindex: BlockIndex, view: CoinsView, p: Progress, before: Option<seq<TxUndo>>)
    requires view.Layered()
    reads pindex, view.Repr(), pindex.pprev
  {
    && view.Best() == view.tip == pindex && pindex.pprev != null
    && pindex.nMoneySupply == pindex.pprev.nMoneySupply + p.nValueOut - p.nValueIn
    && pindex.undo == if before.None? then Some(StoredBlockUndo(p.undo)) else before
  }

  /** ConnectBlock. Writing to the block database succeeds; everything else is as in the source. */
  method ConnectBlock(r: Rules, pindex: BlockIndex, view: CoinsView, fJustCheck: bool) returns (ok: bool)
    requires view.Layered() && view.base != null && view.Best() == pindex.pprev
    requires pindex.pprev == null ==> pindex.block.hash == r.genesisHash
    requires pindex.pprev != null ==> pindex.nHeight == pindex.pprev.nHeight + 1
    modifies view.Repr(), pindex`nMoneySupply, pindex`undo
    ensures view.Below() == old(view.Below())
    ensures pindex.block.hash == r.genesisHash ==>
              && (ok <==> CheckBlock(r, pindex.block))
              && UtxoOf(view) == old(UtxoOf(view)) && (ok ==> view.Best() == view.tip == pindex)
              && pindex.nMoneySupply == old(pindex.nMoneySupply) && pindex.undo == old(pindex.undo)
    ensures pindex.block.hash != r.genesisHash ==>
              var result := Utxo.ConnectBlock(r, old(UtxoOf(view)), pindex.block, pindex.nHeight);
              && (ok <==> result.Some?)
              && (ok ==> UtxoOf(view) == result.value.utxo)
              && (ok && !fJustCheck ==> Recorded(pindex, view, result.value, old(pindex.undo)))
              && (!ok || fJustCheck ==> pindex.undo == old(pindex.undo))
              && (fJustCheck ==> pindex.nMoneySupply == old(pindex.nMoneySupply) && view.Best() == old(view.Best()))
  {
    view.ReprAllocated();
    if !CheckBlock(r, pindex.block) {
      return false;
    }
    if pindex.block.hash == r.genesisHash {
      view.SetBestBlock(pindex);
      return true;
    }
    ok := ConnectCheckedBlock(r, pindex, view, fJustCheck);
  }

  /** One input of DisconnectBlock. `clean` is false where the source sets fClean to false. */
  method RestoreInput(view: CoinsView, out: OutPoint, undo: TxInUndo) returns (clean: bool)
    requires view.Layered() && view.base != null
    modifies view.Repr()
    ensures view.Below() == old(view.Below()) && view.Best() == old(view.Best())
    ensures var result := UndoInput(old(UtxoOf(view)), out, undo);
            && (clean <==> result.Some?)
            && (clean ==> UtxoOf(view) == result.value)
  {
    view.ReprAllocated();
    clean := true;
    var found, coins := view.GetCoins(out.hash);
    if undo.nHeight != 0 {
      if !coins.IsPruned() {
        clean := false;
      }
      coins := CoinRecord(undo.fCoinBase, [], undo.nHeight, undo.nVersion);
    } else {
      if coins.IsPruned() {
        clean := false;
      }
    }
    if coins.IsAvailable(out.n) {
      clean := false;
    }
    coins := coins.(vout := PutBack(coins.vout, out.n, undo.txout));
    UnspentUpdate(view.Contents(), out.hash, coins);
    view.SetCoins(out.hash, coins);
  }

  /** The input loop of DisconnectBlock, from the last input to the first. */
  method RestoreInputs(view: CoinsView, vin: seq<OutPoint>, undo: TxUndo) returns (clean: bool)
    requires view.Layered() && view.base != null && |vin| == |undo|
    modifies view.Repr()
    ensures view.Below() == old(view.Below()) && view.Best() == old(view.Best())
    ensures var result := UndoInputs(old(UtxoOf(view)), vin, undo);
            && (clean <==> result.Some?)
            && (clean ==> UtxoOf(view) == result.value)
  {
    clean := true;
    ghost var target := UndoInputs(UtxoOf(view), vin, undo);
    assert vin[..|vin|] == vin && undo[..|vin|] == undo;
    for j := |vin| downto 0
      invariant view.Below() == old(view.Below()) && view.Best() == old(view.Best())
      invariant clean ==> UndoInputs(UtxoOf(view), vin[..j], undo[..j]) == target
      invariant !clean ==> target == None
    {
      assert vin[..j + 1][..j] == vin[..j] && undo[..j + 1][..j] == undo[..j];
      var inputClean := RestoreInput(view, vin[j], undo[j]);
      clean := clean && inputClean;
    }
  }

  /** DisconnectBlock with pfClean null, as SetBestChain calls it: the result says whether the
      block was undone without finding any inconsistency. */
  method DisconnectBlock(pindex: BlockIndex, view: CoinsView) returns (fClean: bool)
    requires view.Layered() && view.base != null && view.Best() == pindex
    requires forall i | 0 <= i < |pindex.block.vtx| :: CheckTransaction(pindex.block.vtx[i])
    modifies view.Repr()
    ensures view.Below() == old(view.Below())
    ensures fClean ==> view.tip == pindex.pprev
    ensures var undo := pindex.undo;
            if undo.None? then !fClean
            else var result := Utxo.DisconnectBlock(old(UtxoOf(view)), pindex.block, undo.value, pindex.nHeight);
                 && (fClean <==> result.Some?)
                 && (fClean ==> UtxoOf(view) == result.value)
  {
    hide Unspent, CheckTransaction, DisconnectTxs;
    view.ReprAllocated();
    if pindex.undo.None? {
      return false;
    }
    if |pindex.undo.value| + 1 != |pindex.block.vtx| {
      return false;
    }
    var consistent;
    consistent, fClean := DisconnectTransactions(view, pindex.block.vtx, pindex.undo.value, pindex.nHeight);
    if !consistent {
      return false;
    }
    view.SetBestBlock(pindex.pprev);
  }

  /** The loop of DisconnectBlock, which is left early when the undo data do not fit. */
  method DisconnectTransactions(view: CoinsView, vtx: seq<Tx>, undo: seq<TxUndo>,
      nHeight: nat) returns (consistent: bool, fClean: bool)
    requires view.Layered() && view.base != null && |undo| + 1 == |vtx|
    requires forall i | 0 <= i < |vtx| :: CheckTransaction(vtx[i])
    modifies view.Repr()
    ensures view.Below() == old(view.Below())
    ensures var result := DisconnectTxs(old(UtxoOf(view)), vtx, undo, nHeight);
            && (consistent && fClean <==> result.Some?)
            && (consistent && fClean ==> UtxoOf(view) == result.value)
  {
    hide Unspent, CheckTransaction, DisconnectTxs, UndoInputs;
    fClean := true;
    ghost var target := DisconnectTxs(UtxoOf(view), vtx, undo, nHeight);
    assert vtx[..|vtx|] == vtx && undo[..|vtx| - 1] == undo;
    for i := |vtx| downto 0
      invariant view.Below() == old(view.Below()) && view.Best() == old(view.Best())
      invariant fClean ==> DisconnectTxs(UtxoOf(view), vtx[..i], undo[..if i == 0 then 0 else i - 1], nHeight) == target
      invariant !fClean ==> target == None
    {
      DisconnectTxsStep(UtxoOf(view), vtx, undo, nHeight, i);
      if i > 0 && |undo[i - 1]| != |vtx[i].vin| {
        return false, false;
      }
      var txClean := DisconnectTransaction(view, vtx[i], nHeight, i > 0, if i > 0 then undo[i - 1] else []);
      fClean := fClean && txClean;
    }
    DisconnectTxsNone(UtxoOf(view), vtx, undo, nHeight);
    consistent := true;
  }

  lemma DisconnectTxsNone(u: UtxoSet, vtx: seq<Tx>, undo: seq<TxUndo>, nHeight: nat)
    requires |undo| + 1 == |vtx|
    ensures DisconnectTxs(u, vtx[..0], undo[..0], nHeight) == Some(u)
  {
  }

  lemma DisconnectTxsStep(u: UtxoSet, vtx: seq<Tx>, undo: seq<TxUndo>, nHeight: nat, i: nat)
    requires |undo| + 1 == |vtx| && i < |vtx|
    ensures DisconnectTxs(u, vtx[..i + 1], undo[..i], nHeight) ==
            var tx := vtx[i];
            if tx.id !in u || RepairVersion(u[tx.id], tx) != CoinsOf(tx, nHeight) then None
            else if i == 0 then DisconnectTxs(u - {tx.id}, vtx[..0], undo[..0], nHeight)
            else if |undo[i - 1]| != |tx.vin| then None
            else
              match UndoInputs(u - {tx.id}, tx.vin, undo[i - 1])
              case None => None
              case Some(u') => DisconnectTxs(u', vtx[..i], undo[..i - 1], nHeight)
  {
    assert vtx[..i + 1][..i] == vtx[..i];
    assert i > 0 ==> undo[..i][..i - 1] == undo[..i - 1] && undo[..i][i - 1] == undo[i - 1];
  }

  /** One round of DisconnectBlock's loop. */
  method DisconnectTransaction(view: CoinsView, tx: Tx, nHeight: nat, restore: bool,
      txundo: TxUndo) returns (clean: bool)
    requires view.Layered() && view.base != null && CheckTransaction(tx)
    requires restore ==> |txundo| == |tx.vin|
    modifies view.Repr()
    ensures view.Below() == old(view.Below()) && view.Best() == old(view.Best())
    ensures var u := old(UtxoOf(view));
            var found := tx.id in u && RepairVersion(u[tx.id], tx) == CoinsOf(tx, nHeight);
            && (clean <==> found && (restore ==> UndoInputs(u - {tx.id}, tx.vin, txundo).Some?))
            && (clean ==> UtxoOf(view) == if restore then UndoInputs(u - {tx.id}, tx.vin, txundo).value
                else u - {tx.id})
  {
    view.ReprAllocated();
    clean := true;
    assert !tx.vout[0].IsNull();
    var have, outs := view.GetCoins(tx.id);
    if !have {
      clean := false;
    }
    if RepairVersion(outs, tx) != CoinsOf(tx, nHeight) {
      clean := false;
    }
    UnspentUpdate(view.Contents(), tx.id, EMPTY_COINS);
    view.SetCoins(tx.id, EMPTY_COINS);
    if restore {
      var inputsClean := RestoreInputs(view, tx.vin, txundo);
      clean := clean && inputsClean;
    }
  }
}
