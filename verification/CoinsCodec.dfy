/** How coin records and undo records are written to the database: compressed amounts, the spentness bit
    mask, and what reading gives back. */
module CoinsCodec {
  import opened Common
  import opened Coins
  import opened VarInt

  // ---------------------------------------------------------------- amounts

  function TenPow(e: nat): (r: nat)
    ensures r > 0
  {
    if e == 0 then 1 else 10 * TenPow(e - 1)
  }

  /** Up to nine trailing zeros are taken off; e of them are off already. */
  function StripZeros(n: nat, e: nat): (nat, nat)
    decreases 9 - e
  {
    if n % 10 == 0 && e < 9 then StripZeros(n / 10, e + 1) else (n, e)
  }

  function Compress(n: nat): nat {
    if n == 0 then 0
    else
      var (m, e) := StripZeros(n, 0);
      if e < 9 then 1 + (m / 10 * 9 + m % 10 - 1) * 10 + e else if m > 0 then 1 + (m - 1) * 10 + 9 else 0
  }

  function Decompress(x: nat): nat {
    if x == 0 then 0
    else
      var e, y := (x - 1) % 10, (x - 1) / 10;
      Scaled(if e < 9 then y / 9 * 10 + y % 9 + 1 else y + 1, e)
  }

  function Scaled(n: nat, e: nat): nat { n * TenPow(e) }

  lemma {:induction false} StripSpec(n: nat, e: nat)
    requires e <= 9 && n > 0
    ensures var (m, k) := StripZeros(n, e);
            e <= k <= 9 && 0 < m <= n && n == Scaled(m, k - e) && (k < 9 ==> m % 10 != 0)
    decreases 9 - e
  {
    if n % 10 == 0 && e < 9 {
      StripSpec(n / 10, e + 1);
      var (m, k) := StripZeros(n / 10, e + 1);
      assert TenPow(k - e) == 10 * TenPow(k - e - 1);
      TimesTen(m, TenPow(k - e - 1));
    } else {
      assert TenPow(0) == 1;
    }
  }

  lemma TimesTen(m: nat, p: nat)
    ensures m * (10 * p) == 10 * (m * p)
  {
  }

  lemma {:induction false} StripExactly(m: nat, k: nat, e: nat)
    requires e + k <= 9 && m > 0 && (m % 10 != 0 || e + k == 9)
    ensures StripZeros(Scaled(m, k), e) == (m, e + k)
    decreases k
  {
    hide Scaled;
    if k > 0 {
      Tenfold(m, k);
      Tens(Scaled(m, k - 1));
      StripExactly(m, k - 1, e + 1);
    } else {
      Unscaled(m);
    }
  }

  /** Every amount comes back. */
  lemma DecompressCompress(n: nat)
    ensures Decompress(Compress(n)) == n
  {
    hide StripZeros, Scaled;
    if n > 0 {
      StripSpec(n, 0);
      var (m, e) := StripZeros(n, 0);
      if e < 9 {
        Decomposed(m, e);
      }
    }
  }

  lemma Decomposed(m: nat, e: nat)
    requires m % 10 != 0 && e < 9
    ensures var x := (m / 10 * 9 + m % 10 - 1) * 10 + e;
            x % 10 == e && x / 10 == m / 10 * 9 + m % 10 - 1 && x / 10 / 9 == m / 10 && x / 10 % 9 + 1 == m % 10
  {
  }

  /** Every code is that of the amount it stands for: no two codes stand for the same amount. */
  lemma CompressDecompress(x: nat)
    ensures Compress(Decompress(x)) == x
  {
    hide StripZeros, Scaled;
    if x > 0 {
      var e, y := (x - 1) % 10, (x - 1) / 10;
      var m := if e < 9 then y / 9 * 10 + y % 9 + 1 else y + 1;
      assert e < 9 ==> m % 10 == y % 9 + 1 && m / 10 == y / 9;
      StripExactly(m, e, 0);
      ScaledPositive(m, e);
    }
  }

  lemma ScaledPositive(m: nat, e: nat)
    requires m > 0
    ensures Scaled(m, e) > 0
  {
    Positive(m, TenPow(e));
  }

  lemma Positive(m: nat, p: nat)
    requires m > 0 && p > 0
    ensures m * p > 0 && m <= m * p
  {
  }

  /** No amount of money overflows 64 bits. */
  lemma CompressFits(n: nat)
    requires n <= MAX_MONEY
    ensures Compress(n) < TWO64
  {
    if n > 0 {
      StripSpec(n, 0);
    }
  }

  lemma CompressZero()
    ensures Compress(0) == 0
  {
  }

  lemma CompressStripped(n0: nat, n: nat, e: nat)
    requires n0 > 0 && n > 0 && e <= 9 && StripZeros(n0, 0) == StripZeros(n, e) && !(n % 10 == 0 && e < 9)
    ensures Compress(n0) == if e < 9 then 1 + (n / 10 * 9 + n % 10 - 1) * 10 + e else 1 + (n - 1) * 10 + 9
  {
  }

  /** CTxOutCompressor::CompressAmount, in 64 bits. */
  method CompressAmount(n0: nat) returns (r: nat)
    requires n0 < TWO64
    ensures r == Compress(n0) % TWO64
    ensures n0 <= MAX_MONEY ==> r == Compress(n0)
  {
    hide Compress;
    if n0 <= MAX_MONEY {
      CompressFits(n0);
      SmallMod(Compress(n0), TWO64);
    }
    if n0 == 0 {
      CompressZero();
      return 0;
    }
    var n, e := n0, 0;
    while n % 10 == 0 && e < 9
      invariant 0 < n <= n0 && e <= 9 && StripZeros(n, e) == StripZeros(n0, 0)
      decreases 9 - e
    {
      n := n / 10;
      e := e + 1;
    }
    CompressStripped(n0, n, e);
    if e < 9 {
      var d := n % 10;
      n := n / 10;
      r := (1 + (n * 9 + d - 1) * 10 + e) % TWO64;
    } else {
      r := (1 + (n - 1) * 10 + 9) % TWO64;
    }
  }

  /** CTxOutCompressor::DecompressAmount, in 64 bits. */
  method DecompressAmount(x0: nat) returns (n: nat)
    requires x0 < TWO64
    ensures n == Decompress(x0) % TWO64
  {
    hide Scaled, TenPow;
    if x0 == 0 {
      return 0;
    }
    var x := x0 - 1;
    var e := x % 10;
    x := x / 10;
    ghost var m := if e < 9 then x / 9 * 10 + x % 9 + 1 else x + 1;
    if e < 9 {
      var d := x % 9 + 1;
      x := x / 9;
      n := (x * 10 + d) % TWO64;
    } else {
      n := (x + 1) % TWO64;
    }
    ScaledModulo(m, e);
    while e > 0
      invariant 0 <= e <= 9 && n < TWO64 && Scaled(n, e) % TWO64 == Decompress(x0) % TWO64
    {
      Tenfold(n, e);
      ScaledModulo(n * 10, e - 1);
      n := (n * 10) % TWO64;
      e := e - 1;
    }
    Unscaled(n);
    SmallMod(n, TWO64);
  }

  lemma Tenfold(n: nat, e: nat)
    requires e > 0
    ensures Scaled(n * 10, e - 1) == Scaled(n, e) == 10 * Scaled(n, e - 1)
  {
    TimesTen(n, TenPow(e - 1));
  }

  lemma Tens(n: nat)
    ensures 10 * n % 10 == 0 && 10 * n / 10 == n
  {
  }

  /** Wrapping around first does not change what wraps around in the end. */
  lemma ScaledModulo(n: nat, e: nat)
    ensures Scaled(n % TWO64, e) % TWO64 == Scaled(n, e) % TWO64
  {
    var q, r, p := n / TWO64, n % TWO64, TenPow(e);
    Distributes(q, r, p);
    WholeRounds(r * p, q * p);
  }

  lemma Distributes(q: nat, r: nat, p: nat)
    ensures (q * TWO64 + r) * p == r * p + q * p * TWO64
  {
  }

  lemma WholeRounds(a: nat, k: nat)
    ensures (a + k * TWO64) % TWO64 == a % TWO64
  {
  }

  lemma Unscaled(n: nat)
    ensures Scaled(n, 0) == n
  {
    assert TenPow(0) == 1;
  }

  // ---------------------------------------------------------------- the spentness mask

  predicate Avail(vout: seq<TxOut>, i: nat) { i < |vout| && !vout[i].IsNull() }

  function BitAt(vout: seq<TxOut>, i: nat): nat { if Avail(vout, i) then 1 else 0 }

  /** k mask bits, the lowest one for output `base`. */
  function Bits(vout: seq<TxOut>, base: nat, k: nat): (r: nat)
    ensures r < Pow2(k)
    decreases k
  {
    if k == 0 then 0 else BitAt(vout, base) + 2 * Bits(vout, base + 1, k - 1)
  }

  function MaskByte(vout: seq<TxOut>, b: nat): (r: nat)
    ensures r < 256
  {
    assert Pow2(4) == 16 && Pow2(8) == 256;
    Bits(vout, 2 + 8 * b, 8)
  }

  /** chAvail & (1 << p). */
  predicate BitSet(c: nat, p: nat) { if p == 0 then c % 2 != 0 else BitSet(c / 2, p - 1) }

  lemma {:induction false} BitsTested(vout: seq<TxOut>, base: nat, k: nat, p: nat)
    requires p < k
    ensures BitSet(Bits(vout, base, k), p) <==> Avail(vout, base + p)
    decreases p
  {
    hide Pow2;
    BitsHalve(vout, base, k);
    if p > 0 {
      BitsTested(vout, base + 1, k - 1, p - 1);
    }
  }

  lemma BitsHalve(vout: seq<TxOut>, base: nat, k: nat)
    requires k > 0
    ensures Bits(vout, base, k) % 2 == BitAt(vout, base) && Bits(vout, base, k) / 2 == Bits(vout, base + 1, k - 1)
  {
    hide Pow2;
    Halve(BitAt(vout, base), Bits(vout, base + 1, k - 1));
  }

  lemma Halve(b: nat, m: nat)
    requires b < 2
    ensures (b + 2 * m) % 2 == b && (b + 2 * m) / 2 == m
  {
  }

  /** Testing a bit of the mask byte tells whether the output is unspent. */
  lemma MaskBit(vout: seq<TxOut>, b: nat, p: nat)
    requires p < 8
    ensures BitSet(MaskByte(vout, b), p) <==> Avail(vout, 2 + 8 * b + p)
  {
    hide Bits, BitSet;
    BitsTested(vout, 2 + 8 * b, 8, p);
  }

  /** Setting the next bit. */
  lemma {:induction false} NextBit(vout: seq<TxOut>, base: nat, k: nat)
    ensures Bits(vout, base, k + 1) == Bits(vout, base, k) + BitAt(vout, base + k) * Pow2(k)
    decreases k
  {
    if k > 0 {
      NextBit(vout, base + 1, k - 1);
    } else {
      assert Bits(vout, base + 1, 0) == 0 && Pow2(0) == 1;
    }
  }

  predicate NoneAvail(vout: seq<TxOut>, lo: nat, hi: nat) { forall i | lo <= i < hi :: !Avail(vout, i) }

  lemma {:induction false} BitsZero(vout: seq<TxOut>, base: nat, k: nat)
    ensures Bits(vout, base, k) == 0 <==> NoneAvail(vout, base, base + k)
    decreases k
  {
    if k > 0 {
      BitsZero(vout, base + 1, k - 1);
      assert Avail(vout, base) || !Avail(vout, base);
      assert NoneAvail(vout, base, base + k) <==> !Avail(vout, base) && NoneAvail(vout, base + 1, base + k);
    }
  }

  /** Some output of the byte is unspent. */
  predicate Used(vout: seq<TxOut>, b: nat) { MaskByte(vout, b) != 0 }

  lemma UsedBy(vout: seq<TxOut>, b: nat)
    ensures Used(vout, b) <==> !NoneAvail(vout, 2 + 8 * b, 10 + 8 * b)
  {
    hide Bits;
    BitsZero(vout, 2 + 8 * b, 8);
  }

  function CountUsed(vout: seq<TxOut>, b: nat): nat {
    if b == 0 then 0 else CountUsed(vout, b - 1) + if Used(vout, b - 1) then 1 else 0
  }

  function LastUsed(vout: seq<TxOut>, b: nat): (r: nat)
    ensures r <= b
  {
    if b == 0 then 0 else if Used(vout, b - 1) then b else LastUsed(vout, b - 1)
  }

  lemma {:induction false} LastIsUsed(vout: seq<TxOut>, b: nat)
    ensures LastUsed(vout, b) > 0 ==> Used(vout, LastUsed(vout, b) - 1)
  {
    hide Used;
    if b > 0 && !Used(vout, b - 1) {
      LastIsUsed(vout, b - 1);
    }
  }

  /** How many mask bytes the outputs from the third on fill. */
  function MaskLen(vout: seq<TxOut>): nat { if |vout| > 2 then (|vout| + 5) / 8 else 0 }

  function MaskSize(vout: seq<TxOut>): nat { LastUsed(vout, MaskLen(vout)) }
  function MaskCode(vout: seq<TxOut>): nat { CountUsed(vout, MaskLen(vout)) }

  lemma {:induction false} CountGrows(vout: seq<TxOut>, a: nat, b: nat)
    requires a <= b
    ensures CountUsed(vout, a) <= CountUsed(vout, b) <= CountUsed(vout, a) + (b - a)
  {
    hide Used;
    if a < b {
      CountGrows(vout, a, b - 1);
    }
  }

  lemma {:induction false} CountAtLast(vout: seq<TxOut>, b: nat)
    ensures CountUsed(vout, LastUsed(vout, b)) == CountUsed(vout, b)
  {
    hide Used;
    if b > 0 && !Used(vout, b - 1) {
      CountAtLast(vout, b - 1);
    }
  }

  /** CalcMaskSize. */
  method CalcMaskSize(vout: seq<TxOut>) returns (nBytes: nat, nNonzeroBytes: nat)
    ensures nBytes == MaskSize(vout) && nNonzeroBytes == MaskCode(vout)
  {
    hide MaskByte, Used;
    nBytes, nNonzeroBytes := 0, 0;
    var b := 0;
    while 2 + b * 8 < |vout|
      invariant 0 <= b <= MaskLen(vout) && nBytes == LastUsed(vout, b) && nNonzeroBytes == CountUsed(vout, b)
      decreases |vout| - b
    {
      var fZero := true;
      var i := 0;
      while i < 8 && 2 + b * 8 + i < |vout|
        invariant 0 <= i <= 8 && (fZero <==> NoneAvail(vout, 2 + 8 * b, 2 + 8 * b + i))
      {
        if !vout[2 + b * 8 + i].IsNull() {
          assert Avail(vout, 2 + 8 * b + i);
          fZero := false;
        }
        i := i + 1;
      }
      UsedBy(vout, b);
      assert NoneAvail(vout, 2 + 8 * b, 2 + 8 * b + i) ==> NoneAvail(vout, 2 + 8 * b, 10 + 8 * b);
      if !fZero {
        nBytes := b + 1;
        nNonzeroBytes := nNonzeroBytes + 1;
      }
      b := b + 1;
    }
  }

  // ---------------------------------------------------------------- outputs

  /** CScriptCompressor, which is not part of this model: what it writes and what it reads. */
  datatype ScriptCodec = ScriptCodec(write: Script -> seq<byte>, read: (seq<byte>, nat) -> Option<(Script, nat)>)

  /** It reads what it wrote, wherever that stands, and stops behind it. */
  ghost predicate Faithful(codec: ScriptCodec) {
    forall s, pos: nat, script :: At(s, pos, codec.write(script)) ==>
        codec.read(s, pos) == Some((script, pos + |codec.write(script)|))
  }

  /** An output as CTxOutCompressor writes it. */
  function OutBytes(codec: ScriptCodec, out: TxOut): seq<byte>
    requires out.nValue >= 0
  {
    Encode(Compress(out.nValue)) + codec.write(out.script)
  }

  predicate Writable(out: TxOut) { out.IsNull() || MoneyRange(out.nValue) }

  method SerializeOut(codec: ScriptCodec, s: seq<byte>, out: TxOut) returns (r: seq<byte>)
    requires MoneyRange(out.nValue)
    ensures r == s + OutBytes(codec, out)
  {
    hide Encode, Compress;
    FitsMoney(out.nValue);
    var nVal := CompressAmount(out.nValue);
    r := WriteVarInt(s, nVal);
    r := r + codec.write(out.script);
  }

  lemma FitsMoney(v: int)
    requires MoneyRange(v)
    ensures 0 <= v < TWO64
  {
  }

  method UnserializeOut(codec: ScriptCodec, s: seq<byte>, pos0: nat, ghost out: TxOut) returns (ok: bool, r: TxOut,
      pos: nat)
    requires Faithful(codec) && MoneyRange(out.nValue)
    ensures At(s, pos0, OutBytes(codec, out)) ==> ok && r == out && pos == pos0 + |OutBytes(codec, out)|
  {
    hide Encode, Compress, Decompress, Read, At, Faithful;
    ghost var good := At(s, pos0, OutBytes(codec, out));
    if good {
      OutWritten(codec, s, pos0, out);
    }
    var nVal;
    ok, nVal, pos := ReadVarInt(s, pos0, TWO64);
    if !ok {
      return false, NULL_OUT, pos;
    }
    ReadBelow(s, pos0, 0, TWO64);
    var nValue := DecompressAmount(nVal);
    match codec.read(s, pos)
    case None => ok, r := false, NULL_OUT;
    case Some((script, p)) => r, pos := TxOut(nValue, script), p;
  }

  lemma {:induction false} ReadBelow(s: seq<byte>, pos: nat, n: nat, modulus: nat)
    requires modulus > 0
    ensures Read(s, pos, n, modulus).Some? ==> Read(s, pos, n, modulus).value.0 < modulus
    decreases |s| - pos
  {
    hide Bump;
    if pos < |s| && s[pos] >= 128 {
      ReadBelow(s, pos + 1, Bump(Shift(n, s[pos], modulus), modulus), modulus);
    }
  }

  lemma OutWritten(codec: ScriptCodec, s: seq<byte>, pos: nat, out: TxOut)
    requires Faithful(codec) && MoneyRange(out.nValue) && At(s, pos, OutBytes(codec, out))
    ensures var v := Compress(out.nValue);
            && Decompress(v) == out.nValue < TWO64
            && Read(s, pos, 0, TWO64) == Some((v, pos + |Encode(v)|))
            && codec.read(s, pos + |Encode(v)|) == Some((out.script, pos + |OutBytes(codec, out)|))
  {
    hide Encode, Compress, Decompress, Read, At;
    var v := Compress(out.nValue);
    FitsMoney(out.nValue);
    DecompressCompress(out.nValue);
    CompressFits(out.nValue);
    AtSplit(s, pos, Encode(v), codec.write(out.script));
    ReadEncoded(s, pos, v, TWO64);
  }

  // ---------------------------------------------------------------- coin records

  /** Everything the format can hold. */
  ghost predicate Storable(c: CoinRecord) {
    && c.Canonical() && !c.IsPruned() && c.nHeight < TWO31 && |c.vout| < TWO31 && -(TWO31 as int) <= c.nVersion < TWO31
    && forall i | 0 <= i < |c.vout| :: Writable(c.vout[i])
  }

  function Flag(b: bool): nat { if b then 1 else 0 }

  /** The header code. */
  function Code(c: CoinRecord): int {
    var fFirst, fSecond := Avail(c.vout, 0), Avail(c.vout, 1);
    8 * (MaskCode(c.vout) - (if fFirst || fSecond then 0 else 1)) + Flag(c.fCoinBase) + 2 * Flag(fFirst) +
        4 * Flag(fSecond)
  }

  function MaskBytes(vout: seq<TxOut>, k: nat): (r: seq<byte>)
    ensures |r| == k
  {
    if k == 0 then [] else MaskBytes(vout, k - 1) + [MaskByte(vout, k - 1) as byte]
  }

  /** The unspent ones of the first k outputs. */
  function OutsBytes(codec: ScriptCodec, vout: seq<TxOut>, k: nat): seq<byte>
    requires forall i | 0 <= i < |vout| :: Writable(vout[i])
  {
    if k == 0 then [] else OutsBytes(codec, vout, k - 1) + if Avail(vout, k - 1) then OutBytes(codec, vout[k - 1])
        else []
  }

  ghost function RecordBytes(codec: ScriptCodec, c: CoinRecord): seq<byte>
    requires Storable(c)
  {
    EncodeInt(c.nVersion) + (EncodeInt(Code(c)) +
        (MaskBytes(c.vout, MaskSize(c.vout)) + (OutsBytes(codec, c.vout, |c.vout|) + EncodeInt(c.nHeight))))
  }

  /** A record with an unspent output has one among the first two or a mask byte that is not zero, which is
      what the serializer asserts. */
  lemma SomethingUnspent(vout: seq<TxOut>)
    requires exists i :: Avail(vout, i)
    ensures Avail(vout, 0) || Avail(vout, 1) || MaskCode(vout) > 0
  {
    hide MaskByte, Used;
    var i :| Avail(vout, i);
    if i >= 2 {
      var b := (i - 2) / 8;
      UsedBy(vout, b);
      CountGrows(vout, b + 1, MaskLen(vout));
    }
  }

  lemma CodeRange(c: CoinRecord)
    requires Storable(c)
    ensures 0 <= Code(c) < TWO32 && exists i :: Avail(c.vout, i)
  {
    hide CountUsed;
    var i :| 0 <= i < |c.vout| && !c.vout[i].IsNull();
    assert Avail(c.vout, i);
    SomethingUnspent(c.vout);
    CountGrows(c.vout, 0, MaskLen(c.vout));
    assert CountUsed(c.vout, 0) == 0 by { NoneUsed(c.vout); }
  }

  lemma NoneUsed(vout: seq<TxOut>)
    ensures CountUsed(vout, 0) == 0
  {
  }

  /** One byte of the mask. */
  method MakeMaskByte(vout: seq<TxOut>, b: nat) returns (chAvail: nat)
    ensures chAvail == MaskByte(vout, b)
  {
    hide Bits;
    chAvail := 0;
    var i := 0;
    NoBits(vout, 2 + 8 * b);
    while i < 8 && 2 + b * 8 + i < |vout|
      invariant 0 <= i <= 8 && chAvail == Bits(vout, 2 + 8 * b, i)
    {
      NextBit(vout, 2 + 8 * b, i);
      if !vout[2 + b * 8 + i].IsNull() {
        chAvail := chAvail + Pow2(i);
      }
      i := i + 1;
    }
    BitsBeyond(vout, 2 + 8 * b, i, 8);
  }

  lemma {:induction false} BitsBeyond(vout: seq<TxOut>, base: nat, i: nat, k: nat)
    requires i <= k && (i < k ==> base + i >= |vout|)
    ensures Bits(vout, base, k) == Bits(vout, base, i)
  {
    if i < k {
      BitsBeyond(vout, base, i, k - 1);
      NextBit(vout, base, k - 1);
    }
  }

  lemma NoBits(vout: seq<TxOut>, base: nat)
    ensures Bits(vout, base, 0) == 0
  {
  }

  /** CCoins::Serialize. */
  method SerializeCoins(codec: ScriptCodec, s: seq<byte>, c: CoinRecord) returns (r: seq<byte>)
    requires Storable(c)
    ensures r == s + RecordBytes(codec, c)
  {
    hide EncodeInt, Encode, MaskByte, MaskSize, MaskCode, OutBytes;
    var nMaskSize, nMaskCode := CalcMaskSize(c.vout);
    var fFirst := |c.vout| > 0 && !c.vout[0].IsNull();
    var fSecond := |c.vout| > 1 && !c.vout[1].IsNull();
    CodeRange(c);
    SomethingUnspent(c.vout);
    assert fFirst || fSecond || nMaskCode > 0;
    var nCode := 8 * (nMaskCode - (if fFirst || fSecond then 0 else 1)) + Flag(c.fCoinBase) +
        (if fFirst then 2 else 0) + (if fSecond then 4 else 0);
    r := WriteVarInt(s, c.nVersion);
    r := WriteVarInt(r, nCode);
    ghost var head := r;
    for b := 0 to nMaskSize
      invariant r == head + MaskBytes(c.vout, b)
    {
      var chAvail := MakeMaskByte(c.vout, b);
      r := r + [chAvail as byte];
    }
    ghost var masked := r;
    for i := 0 to |c.vout|
      invariant r == masked + OutsBytes(codec, c.vout, i)
    {
      if !c.vout[i].IsNull() {
        r := SerializeOut(codec, r, c.vout[i]);
      }
    }
    r := WriteVarInt(r, c.nHeight);
    Joined(s, EncodeInt(c.nVersion), EncodeInt(nCode), MaskBytes(c.vout, nMaskSize),
        OutsBytes(codec, c.vout, |c.vout|), EncodeInt(c.nHeight));
  }

  lemma Joined(s: seq<byte>, a: seq<byte>, b: seq<byte>, c: seq<byte>, d: seq<byte>, e: seq<byte>)
    ensures s + a + b + c + d + e == s + (a + (b + (c + (d + e))))
  {
  }

  /** CCoins::GetSerializeSize. */
  method GetSerializeSize(codec: ScriptCodec, c: CoinRecord) returns (nSize: nat)
    requires Storable(c)
    ensures nSize == |RecordBytes(codec, c)|
  {
    hide EncodeInt, Encode, MaskByte, MaskSize, MaskCode, Code, Compress;
    var nMaskSize, nMaskCode := CalcMaskSize(c.vout);
    var fFirst := |c.vout| > 0 && !c.vout[0].IsNull();
    var fSecond := |c.vout| > 1 && !c.vout[1].IsNull();
    CodeRange(c);
    SomethingUnspent(c.vout);
    assert fFirst || fSecond || nMaskCode > 0;
    var nCode := 8 * (nMaskCode - (if fFirst || fSecond then 0 else 1)) + Flag(c.fCoinBase) +
        (if fFirst then 2 else 0) + (if fSecond then 4 else 0);
    CodeIs(c, fFirst, fSecond);
    nSize := GetSizeOfVarInt(c.nVersion);
    var n := GetSizeOfVarInt(nCode);
    nSize := nSize + n + nMaskSize;
    ghost var head := nSize;
    for i := 0 to |c.vout|
      invariant nSize == head + |OutsBytes(codec, c.vout, i)|
    {
      if !c.vout[i].IsNull() {
        var nVal := CompressedAmount(c.vout[i].nValue);
        n := GetSizeOfVarInt(nVal);
        EncodeIntIs(nVal);
        nSize := nSize + n + |codec.write(c.vout[i].script)|;
      }
    }
    n := GetSizeOfVarInt(c.nHeight);
    nSize := nSize + n;
  }

  lemma CodeIs(c: CoinRecord, fFirst: bool, fSecond: bool)
    requires fFirst == Avail(c.vout, 0) && fSecond == Avail(c.vout, 1)
    ensures Code(c) == 8 * (MaskCode(c.vout) - (if fFirst || fSecond then 0 else 1)) + Flag(c.fCoinBase) +
                       (if fFirst then 2 else 0) + (if fSecond then 4 else 0)
  {
  }

  method CompressedAmount(nValue: int) returns (nVal: nat)
    requires MoneyRange(nValue)
    ensures nVal == Compress(nValue)
  {
    FitsMoney(nValue);
    nVal := CompressAmount(nValue);
  }

  lemma EncodeIntIs(n: nat)
    ensures EncodeInt(n) == Encode(n)
  {
  }

  // ---------------------------------------------------------------- reading coin records

  /** j mask bytes are read into vAvail. */
  ghost predicate MaskRead(vout: seq<TxOut>, vAvail: seq<bool>, j: nat) {
    |vAvail| == 2 + 8 * j && forall i | 0 <= i < |vAvail| :: vAvail[i] <==> Avail(vout, i)
  }

  /** Where the parts of a record stand. */
  ghost predicate Laid(codec: ScriptCodec, s: seq<byte>, c: CoinRecord, p1: nat, p2: nat, p3: nat, p4: nat, p5: nat)
    requires Storable(c)
  {
    && p2 == p1 + |EncodeInt(Code(c))| && p3 == p2 + MaskSize(c.vout)
    && p4 == p3 + |OutsBytes(codec, c.vout, |c.vout|)| && p5 == p4 + |EncodeInt(c.nHeight)|
    && At(s, p1, EncodeInt(Code(c))) && At(s, p2, MaskBytes(c.vout, MaskSize(c.vout)))
    && At(s, p3, OutsBytes(codec, c.vout, |c.vout|)) && At(s, p4, EncodeInt(c.nHeight))
  }

  lemma Layout(codec: ScriptCodec, s: seq<byte>, pos: nat, c: CoinRecord) returns (p1: nat, p2: nat, p3: nat, p4: nat,
      p5: nat)
    requires Storable(c) && At(s, pos, RecordBytes(codec, c))
    ensures At(s, pos, EncodeInt(c.nVersion)) && p1 == pos + |EncodeInt(c.nVersion)|
        && Laid(codec, s, c, p1, p2, p3, p4, p5)
    ensures p5 == pos + |RecordBytes(codec, c)|
  {
    hide EncodeInt, MaskBytes, OutsBytes, At, Code, MaskSize;
    var v, n, m, o, h := EncodeInt(c.nVersion), EncodeInt(Code(c)), MaskBytes(c.vout, MaskSize(c.vout)),
        OutsBytes(codec, c.vout, |c.vout|), EncodeInt(c.nHeight);
    AtSplit(s, pos, v, n + (m + (o + h)));
    p1 := pos + |v|;
    AtSplit(s, p1, n, m + (o + h));
    p2 := p1 + |n|;
    AtSplit(s, p2, m, o + h);
    p3 := p2 + |m|;
    AtSplit(s, p3, o, h);
    p4 := p3 + |o|;
    p5 := p4 + |h|;
  }

  /** The loop that reads the mask: it stops right behind the last byte that is not zero. */
  method UnserializeMask(s: seq<byte>, pos0: nat, first: bool, second: bool, nMaskCode0: nat, ghost vout: seq<TxOut>)
    returns (ok: bool, vAvail: seq<bool>, pos: nat)
    ensures At(s, pos0, MaskBytes(vout, MaskSize(vout))) && nMaskCode0 == MaskCode(vout)
            && first == Avail(vout, 0) && second == Avail(vout, 1)
            ==> ok && pos == pos0 + MaskSize(vout) && MaskRead(vout, vAvail, MaskSize(vout))
  {
    hide MaskByte, MaskBytes, At, BitSet, MaskSize, MaskCode, MaskRead;
    ghost var good := At(s, pos0, MaskBytes(vout, MaskSize(vout))) && nMaskCode0 == MaskCode(vout)
        && first == Avail(vout, 0) && second == Avail(vout, 1);
    vAvail, pos := [first, second], pos0;
    var nMaskCode := nMaskCode0;
    ghost var j := 0;
    if good {
      MaskStart(vout, vAvail);
    }
    while nMaskCode > 0
      invariant good ==> j <= MaskSize(vout) && pos == pos0 + j && nMaskCode == MaskCode(vout) - CountUsed(vout, j)
                         && MaskRead(vout, vAvail, j)
      decreases |s| - pos
    {
      if pos >= |s| {
        if good {
          MaskGoesOn(s, pos0, vout, j);
        }
        return false, vAvail, pos;
      }
      var chAvail := s[pos] as int;
      if good {
        MaskGoesOn(s, pos0, vout, j);
      }
      pos := pos + 1;
      ghost var before := vAvail;
      for p := 0 to 8
        invariant |vAvail| == |before| + p && vAvail[..|before|] == before
        invariant forall q | 0 <= q < p :: vAvail[|before| + q] == BitSet(chAvail, q)
      {
        var f := BitSet(chAvail, p);
        vAvail := vAvail + [f];
      }
      if chAvail != 0 {
        nMaskCode := nMaskCode - 1;
      }
      if good {
        OneMoreMask(vout, before, vAvail, j);
      }
      j := j + 1;
    }
    if good {
      MaskEnds(vout, j);
    }
    ok := true;
  }

  lemma MaskStart(vout: seq<TxOut>, vAvail: seq<bool>)
    requires vAvail == [Avail(vout, 0), Avail(vout, 1)]
    ensures MaskRead(vout, vAvail, 0) && CountUsed(vout, 0) == 0
  {
  }

  /** While non-zero bytes are missing the next byte is one of the mask. */
  lemma MaskGoesOn(s: seq<byte>, pos: nat, vout: seq<TxOut>, j: nat)
    requires At(s, pos, MaskBytes(vout, MaskSize(vout))) && j <= MaskSize(vout) && CountUsed(vout, j) < MaskCode(vout)
    ensures j < MaskSize(vout) && pos + j < |s| && s[pos + j] as int == MaskByte(vout, j)
    ensures CountUsed(vout, j + 1) == CountUsed(vout, j) + if MaskByte(vout, j) != 0 then 1 else 0
  {
    hide MaskByte, CountUsed;
    CountAtLast(vout, MaskLen(vout));
    MaskBytesAt(vout, MaskSize(vout), j);
    assert s[pos..pos + MaskSize(vout)][j] == s[pos + j];
    CountNext(vout, j);
  }

  lemma CountNext(vout: seq<TxOut>, j: nat)
    ensures CountUsed(vout, j + 1) == CountUsed(vout, j) + if MaskByte(vout, j) != 0 then 1 else 0
  {
  }

  lemma {:induction false} MaskBytesAt(vout: seq<TxOut>, k: nat, j: nat)
    requires j < k
    ensures MaskBytes(vout, k)[j] as int == MaskByte(vout, j)
  {
    hide MaskByte;
    if j < k - 1 {
      MaskBytesAt(vout, k - 1, j);
    }
  }

  lemma OneMoreMask(vout: seq<TxOut>, before: seq<bool>, vAvail: seq<bool>, j: nat)
    requires MaskRead(vout, before, j) && |vAvail| == |before| + 8 && vAvail[..|before|] == before
    requires forall q | 0 <= q < 8 :: vAvail[|before| + q] == BitSet(MaskByte(vout, j), q)
    ensures MaskRead(vout, vAvail, j + 1)
  {
    hide BitSet, MaskByte;
    forall i | 0 <= i < |vAvail| ensures vAvail[i] <==> Avail(vout, i) {
      if i < |before| {
        assert vAvail[i] == vAvail[..|before|][i] == before[i];
      } else {
        MaskBit(vout, j, i - |before|);
        assert vAvail[|before| + (i - |before|)] == vAvail[i];
      }
    }
  }

  lemma MaskEnds(vout: seq<TxOut>, j: nat)
    requires j <= MaskSize(vout) && CountUsed(vout, j) >= MaskCode(vout)
    ensures j == MaskSize(vout)
  {
    hide MaskByte;
    CountAtLast(vout, MaskLen(vout));
    LastIsUsed(vout, MaskLen(vout));
    if j < MaskSize(vout) {
      CountGrows(vout, j, MaskSize(vout) - 1);
    }
  }

  /** The loop that reads the outputs. */
  method UnserializeOuts(codec: ScriptCodec, s: seq<byte>, pos0: nat, vAvail: seq<bool>, ghost c: CoinRecord)
    returns (ok: bool, vout: seq<TxOut>, pos: nat)
    requires Faithful(codec) && Storable(c)
    ensures At(s, pos0, OutsBytes(codec, c.vout, |c.vout|)) && MaskRead(c.vout, vAvail, MaskSize(c.vout))
            ==> ok && pos == pos0 + |OutsBytes(codec, c.vout, |c.vout|)| && TrimNulls(vout) == c.vout
  {
    hide OutsBytes, OutBytes, At, Faithful, MaskSize, MaskRead;
    ghost var good := At(s, pos0, OutsBytes(codec, c.vout, |c.vout|)) && MaskRead(c.vout, vAvail, MaskSize(c.vout));
    vout, pos := seq(|vAvail|, _ => NULL_OUT), pos0;
    if good {
      MaskCovers(c, vAvail);
      NoOuts(codec, c.vout);
    }
    for i := 0 to |vAvail|
      invariant |vout| == |vAvail| && forall k | i <= k < |vout| :: vout[k] == NULL_OUT
      invariant good ==> pos == pos0 + |OutsBytes(codec, c.vout, i)|
      invariant good ==> forall k | 0 <= k < i :: vout[k] == if k < |c.vout| then c.vout[k] else NULL_OUT
    {
      ghost var out := if good && vAvail[i] then c.vout[i] else TxOut(0, []);
      if good {
        NextOut(codec, s, pos0, c, i);
      }
      if vAvail[i] {
        var txout;
        ok, txout, pos := UnserializeOut(codec, s, pos, out);
        if !ok {
          return;
        }
        vout := vout[i := txout];
      }
    }
    if good {
      OutsEnd(codec, c.vout, |c.vout|, |vAvail|);
      TrimPadded(c.vout, vout);
    }
    ok := true;
  }

  lemma NoOuts(codec: ScriptCodec, vout: seq<TxOut>)
    requires forall i | 0 <= i < |vout| :: Writable(vout[i])
    ensures OutsBytes(codec, vout, 0) == []
  {
  }

  /** The mask reaches the last output. */
  lemma MaskCovers(c: CoinRecord, vAvail: seq<bool>)
    requires Storable(c) && MaskRead(c.vout, vAvail, MaskSize(c.vout))
    ensures |c.vout| <= |vAvail| && forall i | 0 <= i < |vAvail| :: vAvail[i] <==> Avail(c.vout, i)
  {
    hide MaskByte, Used;
    if |c.vout| > 2 {
      var b := MaskLen(c.vout) - 1;
      UsedBy(c.vout, b);
      assert Avail(c.vout, |c.vout| - 1);
    }
  }

  lemma NextOut(codec: ScriptCodec, s: seq<byte>, pos: nat, c: CoinRecord, i: nat)
    requires Storable(c) && At(s, pos, OutsBytes(codec, c.vout, |c.vout|))
    ensures Avail(c.vout, i) ==> At(s, pos + |OutsBytes(codec, c.vout, i)|, OutBytes(codec, c.vout[i]))
                                 && MoneyRange(c.vout[i].nValue)
    ensures |OutsBytes(codec, c.vout, i + 1)| == |OutsBytes(codec, c.vout, i)| + if Avail(c.vout, i)
        then |OutBytes(codec, c.vout[i])| else 0
    ensures !Avail(c.vout, i) && i < |c.vout| ==> c.vout[i] == NULL_OUT
  {
    hide OutBytes, At;
    if i < |c.vout| {
      OutsPrefix(codec, c.vout, i + 1, |c.vout|);
      var rest :| OutsBytes(codec, c.vout, |c.vout|) == OutsBytes(codec, c.vout, i + 1) + rest;
      AtSplit(s, pos, OutsBytes(codec, c.vout, i + 1), rest);
      if Avail(c.vout, i) {
        AtSplit(s, pos, OutsBytes(codec, c.vout, i), OutBytes(codec, c.vout[i]));
      }
    }
  }

  lemma {:induction false} OutsPrefix(codec: ScriptCodec, vout: seq<TxOut>, i: nat, k: nat)
    requires i <= k && forall i | 0 <= i < |vout| :: Writable(vout[i])
    ensures exists rest :: OutsBytes(codec, vout, k) == OutsBytes(codec, vout, i) + rest
    decreases k
  {
    hide OutBytes;
    if i < k {
      OutsPrefix(codec, vout, i, k - 1);
      var rest :| OutsBytes(codec, vout, k - 1) == OutsBytes(codec, vout, i) + rest;
      assert OutsBytes(codec, vout, k) == OutsBytes(codec, vout, i) +
          (rest + if Avail(vout, k - 1) then OutBytes(codec, vout[k - 1]) else []);
    } else {
      assert OutsBytes(codec, vout, k) == OutsBytes(codec, vout, i) + [];
    }
  }

  lemma {:induction false} OutsEnd(codec: ScriptCodec, vout: seq<TxOut>, i: nat, k: nat)
    requires |vout| <= i <= k && forall i | 0 <= i < |vout| :: Writable(vout[i])
    ensures OutsBytes(codec, vout, k) == OutsBytes(codec, vout, i)
    decreases k
  {
    if i < k {
      OutsEnd(codec, vout, i, k - 1);
    }
  }

  /** Cleanup takes off what the mask had too much. */
  lemma {:induction false} TrimPadded(vout: seq<TxOut>, padded: seq<TxOut>)
    requires |vout| <= |padded| && (vout != [] ==> !vout[|vout| - 1].IsNull())
    requires forall k | 0 <= k < |padded| :: padded[k] == if k < |vout| then vout[k] else NULL_OUT
    ensures TrimNulls(padded) == vout
    decreases |padded|
  {
    if |padded| > |vout| {
      TrimPadded(vout, padded[..|padded| - 1]);
    } else {
      assert padded == vout;
    }
  }

  /** ReadVarInt<int>. */
  function AsInt(n: nat): int { if n >= TWO31 then n - TWO32 else n }

  /** The spentness flags and the number of non-zero mask bytes, from the header code. */
  lemma CodeFields(c: CoinRecord, nCode: nat)
    requires Storable(c) && nCode == Code(c)
    ensures (nCode % 2 != 0) == c.fCoinBase && (nCode / 2 % 2 != 0) == Avail(c.vout, 0)
        && (nCode / 4 % 2 != 0) == Avail(c.vout, 1)
    ensures nCode / 8 + (if nCode / 2 % 4 != 0 then 0 else 1) == MaskCode(c.vout)
  {
    hide MaskCode, Avail;
    CodeRange(c);
    SomethingUnspent(c.vout);
    Fields(nCode, Flag(c.fCoinBase), Flag(Avail(c.vout, 0)), Flag(Avail(c.vout, 1)));
  }

  lemma Fields(n: nat, coinbase: nat, first: nat, second: nat)
    requires coinbase <= 1 && first <= 1 && second <= 1 && (n - coinbase - 2 * first - 4 * second) % 8 == 0
    ensures n % 2 == coinbase && n / 2 % 2 == first && n / 4 % 2 == second && n / 2 % 4 == first + 2 * second
    ensures 8 * (n / 8) == n - coinbase - 2 * first - 4 * second
  {
  }

  /** CCoins::Unserialize: from the bytes that Serialize writes it reads the same record, except that of a
      negative version only seven bits come back, and it stops right behind them. */
  method UnserializeCoins(codec: ScriptCodec, s: seq<byte>, pos0: nat, ghost c: CoinRecord) returns (ok: bool,
      r: CoinRecord, pos: nat)
    requires Faithful(codec) && Storable(c)
    ensures At(s, pos0, RecordBytes(codec, c)) ==>
              ok && pos == pos0 + |RecordBytes(codec, c)| && r == StoredRecord(c)
  {
    hide EncodeInt, RecordBytes, OutsBytes, MaskBytes, MaskSize, MaskCode, Code, At, Read, Faithful, Storable, MaskRead;
    ghost var good := At(s, pos0, RecordBytes(codec, c));
    ghost var p1, p2, p3, p4, p5 := 0, 0, 0, 0, 0;
    r, pos := EMPTY_COINS, pos0;
    if good {
      p1, p2, p3, p4, p5 := Layout(codec, s, pos0, c);
      NumbersWritten(codec, s, pos0, c, p1, p2, p3, p4, p5);
    }
    var nVersion, nCode, nHeight, vAvail, vout;
    ok, nVersion, pos := ReadVarInt(s, pos, TWO32);
    if !ok {
      return;
    }
    ok, nCode, pos := ReadVarInt(s, pos, TWO32);
    if !ok {
      return;
    }
    if good {
      CodeFields(c, nCode);
    }
    var nMaskCode := nCode / 8 + (if nCode / 2 % 4 != 0 then 0 else 1);
    ok, vAvail, pos := UnserializeMask(s, pos, nCode / 2 % 2 != 0, nCode / 4 % 2 != 0, nMaskCode, c.vout);
    if !ok {
      return;
    }
    ok, vout, pos := UnserializeOuts(codec, s, pos, vAvail, c);
    if !ok {
      return;
    }
    ok, nHeight, pos := ReadVarInt(s, pos, TWO32);
    if !ok {
      return;
    }
    if AsInt(nHeight) < 0 {
      return false, r, pos;
    }
    r := Cleanup(CoinRecord(nCode % 2 != 0, vout, AsInt(nHeight), AsInt(nVersion)));
  }

  lemma NumbersWritten(codec: ScriptCodec, s: seq<byte>, pos: nat, c: CoinRecord, p1: nat, p2: nat, p3: nat, p4: nat,
      p5: nat)
    requires Storable(c) && At(s, pos, EncodeInt(c.nVersion)) && p1 == pos + |EncodeInt(c.nVersion)|
        && Laid(codec, s, c, p1, p2, p3, p4, p5)
    ensures Read(s, pos, 0, TWO32) == Some((Stored(c.nVersion), p1)) && AsInt(Stored(c.nVersion)) == Stored(c.nVersion)
    ensures Code(c) >= 0 && Read(s, p1, 0, TWO32) == Some((Code(c), p2))
        && Read(s, p4, 0, TWO32) == Some((c.nHeight, p5)) && AsInt(c.nHeight) == c.nHeight
    ensures p3 == p2 + MaskSize(c.vout) && p4 == p3 + |OutsBytes(codec, c.vout, |c.vout|)|
    ensures At(s, p2, MaskBytes(c.vout, MaskSize(c.vout))) && At(s, p3, OutsBytes(codec, c.vout, |c.vout|))
  {
    hide EncodeInt, OutsBytes, MaskBytes, MaskSize, Code, At, Read;
    CodeRange(c);
    ReadEncoded(s, pos, c.nVersion, TWO32);
    ReadEncoded(s, p1, Code(c), TWO32);
    ReadEncoded(s, p4, c.nHeight, TWO32);
  }

  /** A record that is written and read back is the same exactly if its version is not negative. */
  method RecordRoundTrip(codec: ScriptCodec, c: CoinRecord) returns (r: CoinRecord, ok: bool)
    requires Faithful(codec) && Storable(c)
    ensures ok && (r == c <==> c.nVersion >= 0)
  {
    hide RecordBytes, Faithful, Storable;
    var s := SerializeCoins(codec, [], c);
    assert [] + RecordBytes(codec, c) == RecordBytes(codec, c);
    assert s[0..0 + |RecordBytes(codec, c)|] == RecordBytes(codec, c);
    var pos;
    ok, r, pos := UnserializeCoins(codec, s, 0, c);
    StoredExactly(c.nVersion);
  }

  /** Two versions with one encoding. */
  lemma VersionsCollide()
    ensures EncodeInt(-1) == EncodeInt(127)
  {
  }

  // ---------------------------------------------------------------- undo records

  /** What an undo record can hold: heights are ints and versions 32 bits wide. */
  predicate StorableUndo(u: TxInUndo) {
    MoneyRange(u.txout.nValue) && u.nHeight < TWO31 && -(TWO31 as int) <= u.nVersion < TWO31
  }

  function UndoBytes(codec: ScriptCodec, u: TxInUndo): seq<byte>
    requires StorableUndo(u)
  {
    EncodeInt(u.nHeight * 2 + Flag(u.fCoinBase)) +
        ((if u.nHeight > 0 then EncodeInt(u.nVersion) else []) + OutBytes(codec, u.txout))
  }

  /** CTxInUndo::Serialize. */
  method SerializeUndo(codec: ScriptCodec, s: seq<byte>, u: TxInUndo) returns (r: seq<byte>)
    requires StorableUndo(u)
    ensures r == s + UndoBytes(codec, u)
  {
    hide EncodeInt, OutBytes;
    r := WriteVarInt(s, u.nHeight * 2 + Flag(u.fCoinBase));
    if u.nHeight > 0 {
      r := WriteVarInt(r, u.nVersion);
    }
    r := SerializeOut(codec, r, u.txout);
  }

  /** CTxInUndo::GetSerializeSize. */
  method GetUndoSize(codec: ScriptCodec, u: TxInUndo) returns (nSize: nat)
    requires StorableUndo(u)
    ensures nSize == |UndoBytes(codec, u)|
  {
    hide EncodeInt, Encode;
    nSize := GetSizeOfVarInt(u.nHeight * 2 + Flag(u.fCoinBase));
    if u.nHeight > 0 {
      var n := GetSizeOfVarInt(u.nVersion);
      nSize := nSize + n;
    }
    var nVal := CompressedAmount(u.txout.nValue);
    var n := GetSizeOfVarInt(nVal);
    EncodeIntIs(nVal);
    nSize := nSize + n + |codec.write(u.txout.script)|;
  }

  /** CTxInUndo::Unserialize, into a record that was just constructed. */
  method UnserializeUndo(codec: ScriptCodec, s: seq<byte>, pos0: nat, ghost u: TxInUndo) returns (ok: bool,
      r: TxInUndo, pos: nat)
    requires Faithful(codec) && StorableUndo(u)
    ensures At(s, pos0, UndoBytes(codec, u)) ==> ok && r == StoredUndo(u) && pos == pos0 + |UndoBytes(codec, u)|
  {
    hide EncodeInt, OutBytes, At, Read, Faithful, UndoBytes;
    ghost var good := At(s, pos0, UndoBytes(codec, u));
    if good {
      UndoWritten(codec, s, pos0, u);
    }
    r, pos := TxInUndo(NULL_OUT, false, 0, 0), pos0;
    var nCode, txout;
    ok, nCode, pos := ReadVarInt(s, pos, TWO32);
    if !ok {
      return;
    }
    r := r.(nHeight := nCode / 2, fCoinBase := nCode % 2 != 0);
    if r.nHeight > 0 {
      var nVersion;
      ok, nVersion, pos := ReadVarInt(s, pos, TWO32);
      if !ok {
        return;
      }
      r := r.(nVersion := AsInt(nVersion));
    }
    ok, txout, pos := UnserializeOut(codec, s, pos, u.txout);
    r := r.(txout := txout);
  }

  lemma UndoWritten(codec: ScriptCodec, s: seq<byte>, pos: nat, u: TxInUndo)
    requires StorableUndo(u) && At(s, pos, UndoBytes(codec, u))
    ensures var n := u.nHeight * 2 + Flag(u.fCoinBase);
            var p1 := pos + |EncodeInt(n)|;
            var p2 := p1 + if u.nHeight > 0 then |EncodeInt(u.nVersion)| else 0;
            && n / 2 == u.nHeight && (n % 2 != 0) == u.fCoinBase && Read(s, pos, 0, TWO32) == Some((n, p1))
            && (u.nHeight > 0 ==> Read(s, p1, 0, TWO32) == Some((Stored(u.nVersion), p2))
                                  && AsInt(Stored(u.nVersion)) == Stored(u.nVersion))
            && At(s, p2, OutBytes(codec, u.txout)) && p2 + |OutBytes(codec, u.txout)| == pos + |UndoBytes(codec, u)|
  {
    hide EncodeInt, OutBytes, At, Read;
    var n := u.nHeight * 2 + Flag(u.fCoinBase);
    var v, o := if u.nHeight > 0 then EncodeInt(u.nVersion) else [], OutBytes(codec, u.txout);
    AtSplit(s, pos, EncodeInt(n), v + o);
    var p1 := pos + |EncodeInt(n)|;
    AtSplit(s, p1, v, o);
    ReadEncoded(s, pos, n, TWO32);
    if u.nHeight > 0 {
      ReadEncoded(s, p1, u.nVersion, TWO32);
    }
  }

  /** What spending an output of a stored record has to remember comes back from the undo file, if the version
      is not negative. */
  lemma SpendUndoStored(c: CoinRecord, n: nat)
    requires Storable(c) && c.IsAvailable(n) && c.nHeight > 0
    ensures StorableUndo(SpendResult(c, n).1)
    ensures StoredUndo(SpendResult(c, n).1) == SpendResult(c, n).1 <==> c.nVersion >= 0
                                                                        || SpendResult(c, n).0.vout != []
  {
    assert Writable(c.vout[n]);
  }
}
