/** Coin records: what the node keeps of a transaction once it is in the chain,
    and the undo record written when one of its outputs is spent. */
module Coins {
  type TxId = nat
  newtype byte = x: int | 0 <= x < 256
  type Script = seq<byte>

  datatype Option<+T> = None | Some(value: T)

  const COIN: int := 100000000
  const CENT: int := 1000000
  const MAX_MONEY: int := 2000000000 * COIN
  const MIN_TX_FEE: int := CENT
  const MIN_TXOUT_AMOUNT: int := MIN_TX_FEE
  const COINBASE_MATURITY: int := 3000
  const MAX_BLOCK_SIGOPS: int := 20000
  const NULL_INDEX: nat := 0xFFFFFFFF

  predicate MoneyRange(v: int) { 0 <= v <= MAX_MONEY }

  datatype OutPoint = OutPoint(hash: TxId, n: nat) {
    predicate IsNull() { hash == 0 && n == NULL_INDEX }
  }

  datatype TxOut = TxOut(nValue: int, script: Script) {
    predicate IsNull() { nValue == -1 }
  }

  const NULL_OUT := TxOut(-1, [])

  /** A transaction. Its hash is a field: hashing is not modelled. `nBytes` is its
      serialized size and `legacySigOps` what GetLegacySigOpCount returns. */
  datatype Tx = Tx(id: TxId, nVersion: int, vin: seq<OutPoint>, vout: seq<TxOut>, nBytes: nat, legacySigOps: nat) {
    predicate IsCoinBase() { |vin| == 1 && vin[0].IsNull() }
  }

  /** CCoins. */
  datatype CoinRecord = CoinRecord(fCoinBase: bool, vout: seq<TxOut>, nHeight: nat, nVersion: int) {
    predicate IsAvailable(n: nat) { n < |vout| && !vout[n].IsNull() }
    predicate IsPruned() { forall i | 0 <= i < |vout| :: vout[i].IsNull() }

    /** No spent outputs at the end, and every spent output cleared by SetNull. */
    predicate Canonical() {
      && (forall i | 0 <= i < |vout| :: vout[i].IsNull() ==> vout[i] == NULL_OUT)
      && (vout != [] ==> !vout[|vout| - 1].IsNull())
    }
  }

  const EMPTY_COINS := CoinRecord(false, [], 0, 0)

  /** CTxInUndo: height 0 means that other outputs of the transaction are still unspent. */
  datatype TxInUndo = TxInUndo(txout: TxOut, fCoinBase: bool, nHeight: nat, nVersion: int)

  // ---------------------------------------------------------------- what storage keeps

  /** What is read of a written version: of a negative one only the lowest seven bits. VarInt and CoinsCodec
      prove that the codecs do this. */
  function Stored(n: int): (r: nat) { if n < 0 then n % 128 else n }

  /** What is read of a written record. */
  function StoredRecord(c: CoinRecord): CoinRecord { c.(nVersion := Stored(c.nVersion)) }

  /** What is read of a written undo record: without a height there is no version either. */
  function StoredUndo(u: TxInUndo): TxInUndo { u.(nVersion := if u.nHeight > 0 then Stored(u.nVersion) else 0) }

  // ---------------------------------------------------------------- spending

  /** The part of `vout` up to and including its last unspent output. */
  function TrimNulls(vout: seq<TxOut>): (r: seq<TxOut>)
    ensures r <= vout
    ensures r != [] ==> !r[|r| - 1].IsNull()
    ensures forall i | |r| <= i < |vout| :: vout[i].IsNull()
  {
    if vout == [] || !vout[|vout| - 1].IsNull() then vout else TrimNulls(vout[..|vout| - 1])
  }

  /** CCoins::Cleanup. */
  method Cleanup(coins: CoinRecord) returns (r: CoinRecord)
    ensures r == coins.(vout := TrimNulls(coins.vout))
  {
    var vout := coins.vout;
    while |vout| > 0 && vout[|vout| - 1].IsNull()
      invariant vout <= coins.vout
      invariant TrimNulls(vout) == TrimNulls(coins.vout)
    {
      vout := vout[..|vout| - 1];
    }
    r := coins.(vout := vout);
  }

  /** What Spend leaves and records; meaningful when output `n` is available. */
  function SpendResult(c: CoinRecord, n: nat): (CoinRecord, TxInUndo)
    requires c.IsAvailable(n)
  {
    var left := TrimNulls(c.vout[n := NULL_OUT]);
    (c.(vout := left),
     if left == [] then TxInUndo(c.vout[n], c.fCoinBase, c.nHeight, c.nVersion)
     else TxInUndo(c.vout[n], false, 0, 0))
  }

  /** CCoins::Spend. */
  method Spend(c: CoinRecord, n: nat) returns (ok: bool, left: CoinRecord, undo: TxInUndo)
    ensures ok <==> c.IsAvailable(n)
    ensures ok ==> (left, undo) == SpendResult(c, n)
    ensures !ok ==> left == c
  {
    left, undo := c, TxInUndo(NULL_OUT, false, 0, 0);
    if n >= |c.vout| {
      return false, left, undo;
    }
    if c.vout[n].IsNull() {
      return false, left, undo;
    }
    undo := TxInUndo(c.vout[n], false, 0, 0);
    left := Cleanup(c.(vout := c.vout[n := NULL_OUT]));
    if |left.vout| == 0 {
      undo := undo.(nHeight := c.nHeight, fCoinBase := c.fCoinBase, nVersion := c.nVersion);
    }
    ok := true;
  }

  /** vout.resize(n + 1) if it is shorter, then vout[n] = txout. */
  function PutBack(vout: seq<TxOut>, n: nat, txout: TxOut): (r: seq<TxOut>)
    ensures |r| == if |vout| < n + 1 then n + 1 else |vout|
    ensures r[n] == txout
    ensures forall i | 0 <= i < |r| && i != n :: r[i] == if i < |vout| then vout[i] else NULL_OUT
  {
    var padded := if |vout| < n + 1 then vout + seq(n + 1 - |vout|, _ => NULL_OUT) else vout;
    padded[n := txout]
  }

  /** Spending an output and putting it back gives the record that was there, whether the
      other outputs keep the record alive or the undo data has to carry its metadata. */
  lemma SpendPutBack(c: CoinRecord, n: nat)
    requires c.Canonical() && c.IsAvailable(n)
    ensures var (left, undo) := SpendResult(c, n);
            && left.Canonical()
            && (left.IsPruned() <==> left.vout == [])
            && !left.IsAvailable(n)
            && PutBack(left.vout, n, undo.txout) == c.vout
            && (left.vout == [] ==> undo.nHeight == c.nHeight && undo.fCoinBase == c.fCoinBase
                                    && undo.nVersion == c.nVersion)
            && (left.vout != [] ==> undo.nHeight == 0)
  {
    var (left, undo) := SpendResult(c, n);
    var w := c.vout[n := NULL_OUT];
    var r := PutBack(left.vout, n, undo.txout);
    assert forall i | 0 <= i < |left.vout| :: left.vout[i] == w[i];
    assert |r| == |c.vout|;
    assert forall i | 0 <= i < |r| :: r[i] == c.vout[i];
  }

  /** Values of the unspent outputs of a record. */
  function OutputValue(vout: seq<TxOut>): int {
    if vout == [] then 0
    else OutputValue(vout[..|vout| - 1]) + UnspentValue(vout[|vout| - 1])
  }

  function UnspentValue(out: TxOut): int { if out.IsNull() then 0 else out.nValue }

  lemma {:induction false} OutputValueUpdate(vout: seq<TxOut>, n: nat, out: TxOut)
    requires n < |vout|
    ensures OutputValue(vout[n := out]) == OutputValue(vout) - UnspentValue(vout[n]) + UnspentValue(out)
  {
    var k := |vout| - 1;
    var w := vout[n := out];
    if n == k {
      assert w[..k] == vout[..k];
    } else {
      assert w[..k] == vout[..k][n := out];
      OutputValueUpdate(vout[..k], n, out);
    }
  }

  lemma {:induction false} OutputValueTrim(vout: seq<TxOut>)
    ensures OutputValue(TrimNulls(vout)) == OutputValue(vout)
  {
    if vout != [] && vout[|vout| - 1].IsNull() {
      OutputValueTrim(vout[..|vout| - 1]);
    }
  }

  /** Spending takes exactly the value of the output out of the record. */
  lemma SpendValue(c: CoinRecord, n: nat)
    requires c.IsAvailable(n)
    ensures OutputValue(SpendResult(c, n).0.vout) == OutputValue(c.vout) - c.vout[n].nValue
  {
    OutputValueUpdate(c.vout, n, NULL_OUT);
    OutputValueTrim(c.vout[n := NULL_OUT]);
  }
}
