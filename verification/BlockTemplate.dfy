/** CreateNewBlock: choosing pooled transactions for a new block. Priorities are floating-point numbers; here
    any order of the queue is possible, and what is proved holds for all of them. */
module BlockTemplate {
  import opened Coins
  import opened Utxo

  /** COrphan: a transaction that waits for others of the pool. */
  datatype Orphan = Orphan(ptx: TxId, setDependsOn: set<TxId>)

  type Pool = map<TxId, Tx>
  type Dependers = map<TxId, seq<nat>>

  /** What the pool guarantees: transactions have been checked, are stored under their ids and are not in the
      chain; every input is an unspent output of the chain or an output of another pooled transaction. */
  ghost predicate PoolOk(pool: Pool, u: UtxoSet) {
    forall h | h in pool :: pool[h].id == h && h !in u && CheckTransaction(pool[h]) && InputsKnown(pool, u, pool[h])
  }

  ghost predicate InputsKnown(pool: Pool, u: UtxoSet, tx: Tx) {
    forall i | 0 <= i < |tx.vin| :: if tx.vin[i].hash in u then Available(u, tx.vin[i]) else tx.vin[i].hash in pool
  }

  predicate Eligible(isFinal: Tx -> bool, tx: Tx) { !tx.IsCoinBase() && isFinal(tx) }

  /** The pooled transactions that one spends from; only the first k inputs count. */
  function Parents(u: UtxoSet, tx: Tx, k: nat): set<TxId>
    requires k <= |tx.vin|
  {
    set i | 0 <= i < k && tx.vin[i].hash !in u :: tx.vin[i].hash
  }

  function AllParents(u: UtxoSet, tx: Tx): set<TxId> { Parents(u, tx, |tx.vin|) }

  function Get(m: Dependers, h: TxId): seq<nat> { if h in m then m[h] else [] }

  /** Every orphan is listed with each transaction it waits for. */
  ghost predicate Listed(orphans: seq<Orphan>, deps: Dependers) {
    && (forall k, p | 0 <= k < |orphans| && p in orphans[k].setDependsOn :: k in Get(deps, p))
    && (forall p, k | k in Get(deps, p) :: k < |orphans|)
  }

  /** Where an eligible transaction is: with the orphans if it waits for something, else in the queue or done. */
  ghost predicate Placed(pool: Pool, u: UtxoSet, orphans: seq<Orphan>, queue: seq<TxId>, done: set<TxId>,
      chosen: set<TxId>) {
    && (forall k | 0 <= k < |orphans| :: OrphanOk(pool, u, orphans[k], queue, done, chosen))
    && (forall j, k | 0 <= j < k < |orphans| :: orphans[j].ptx != orphans[k].ptx)
    && (forall i, j | 0 <= i < j < |queue| :: queue[i] != queue[j])
    && (forall h | h in queue :: h in pool && h !in done && AllParents(u, pool[h]) <= chosen)
  }

  ghost predicate OrphanOk(pool: Pool, u: UtxoSet, orphan: Orphan, queue: seq<TxId>, done: set<TxId>,
      chosen: set<TxId>) {
    && orphan.ptx in pool && orphan.setDependsOn == AllParents(u, pool[orphan.ptx]) - chosen
    && (orphan.setDependsOn == {} <==> orphan.ptx in queue || orphan.ptx in done)
  }

  ghost predicate IsOrphan(orphans: seq<Orphan>, h: TxId) { exists k :: 0 <= k < |orphans| && orphans[k].ptx == h }

  /** The first part of CreateNewBlock, for one transaction: does it wait for others? */
  method Sort(pool: Pool, u: UtxoSet, tx: Tx, orphans0: seq<Orphan>, deps0: Dependers) returns (orphans: seq<Orphan>,
      deps: Dependers)
    requires InputsKnown(pool, u, tx) && Listed(orphans0, deps0)
    ensures Listed(orphans, deps)
    ensures orphans == orphans0 + if AllParents(u, tx) == {} then [] else [Orphan(tx.id, AllParents(u, tx))]
  {
    orphans, deps := orphans0, deps0;
    var porphan := false;
    for i := 0 to |tx.vin|
      invariant porphan <==> Parents(u, tx, i) != {}
      invariant orphans == orphans0 + if porphan then [Orphan(tx.id, Parents(u, tx, i))] else []
      invariant Listed(orphans, deps)
    {
      var hash := tx.vin[i].hash;
      if hash in u {
        assert Parents(u, tx, i + 1) == Parents(u, tx, i);
      } else {
        assert Parents(u, tx, i + 1) == Parents(u, tx, i) + {hash};
        if !porphan {
          ListedEmpty(orphans, deps, tx.id);
          orphans := orphans + [Orphan(tx.id, {})];
          porphan := true;
          assert Parents(u, tx, i) == {};
        }
        assert orphans == orphans0 + [Orphan(tx.id, Parents(u, tx, i))];
        assert hash in Parents(u, tx, i + 1);
        var k := |orphans| - 1;
        ListedMore(orphans, deps, hash);
        deps := deps[hash := Get(deps, hash) + [k]];
        orphans := orphans[k := orphans[k].(setDependsOn := orphans[k].setDependsOn + {hash})];
        assert orphans == orphans0 + [Orphan(tx.id, Parents(u, tx, i + 1))];
      }
    }
  }

  lemma ListedEmpty(orphans: seq<Orphan>, deps: Dependers, h: TxId)
    requires Listed(orphans, deps)
    ensures Listed(orphans + [Orphan(h, {})], deps)
  {
  }

  lemma ListedMore(orphans: seq<Orphan>, deps: Dependers, hash: TxId)
    requires Listed(orphans, deps) && orphans != []
    ensures var k := |orphans| - 1;
            Listed(orphans[k := orphans[k].(setDependsOn := orphans[k].setDependsOn + {hash})],
                deps[hash := Get(deps, hash) + [k]])
  {
    var k := |orphans| - 1;
    var orphans' := orphans[k := orphans[k].(setDependsOn := orphans[k].setDependsOn + {hash})];
    var deps' := deps[hash := Get(deps, hash) + [k]];
    forall j, p | 0 <= j < |orphans'| && p in orphans'[j].setDependsOn ensures j in Get(deps', p) {
      if j == k && p == hash {
        assert Get(deps', p)[|Get(deps, p)|] == k;
      } else {
        assert p in orphans[j].setDependsOn && j in Get(deps, p);
        assert Get(deps, p) <= Get(deps', p);
      }
    }
    forall p, j | j in Get(deps', p) ensures j < |orphans'| {
      assert j == k || j in Get(deps, p);
    }
  }

  /** The first part of CreateNewBlock: every eligible transaction is queued or waits. */
  method Gather(pool: Pool, u: UtxoSet, isFinal: Tx -> bool) returns (orphans: seq<Orphan>, deps: Dependers,
      queue: seq<TxId>)
    requires PoolOk(pool, u)
    ensures Listed(orphans, deps) && Placed(pool, u, orphans, queue, {}, {})
    ensures forall h :: h in queue || IsOrphan(orphans, h) <==> h in pool && Eligible(isFinal, pool[h])
  {
    hide Placed, Listed, AllParents, IsOrphan, Eligible, InputsKnown;
    NothingPlaced(pool, u);
    orphans, deps, queue := [], map[], [];
    var left := pool.Keys;
    while left != {}
      invariant left <= pool.Keys && Listed(orphans, deps) && Placed(pool, u, orphans, queue, {}, {})
      invariant forall h :: h in queue || IsOrphan(orphans, h) <==> h in pool && h !in left
                                                                    && Eligible(isFinal, pool[h])
      decreases left
    {
      var h :| h in left;
      left := left - {h};
      var tx := pool[h];
      if Eligible(isFinal, tx) {
        ghost var orphans0, queue0 := orphans, queue;
        var n := |orphans|;
        orphans, deps := Sort(pool, u, tx, orphans, deps);
        if n == |orphans| {
          queue := queue + [h];
        }
        OneMore(pool, u, orphans0, queue0, h, orphans, queue);
      }
    }
  }

  lemma NothingPlaced(pool: Pool, u: UtxoSet)
    ensures Listed([], map[]) && Placed(pool, u, [], [], {}, {}) && forall h :: !IsOrphan([], h)
  {
  }

  lemma OneMore(pool: Pool, u: UtxoSet, orphans0: seq<Orphan>, queue0: seq<TxId>, h: TxId, orphans: seq<Orphan>,
      queue: seq<TxId>)
    requires Placed(pool, u, orphans0, queue0, {}, {}) && h in pool && h !in queue0 && !IsOrphan(orphans0, h)
    requires var p := AllParents(u, pool[h]);
             orphans == orphans0 + (if p == {} then [] else [Orphan(h, p)])
                 && queue == queue0 + if p == {} then [h] else []
    ensures Placed(pool, u, orphans, queue, {}, {})
    ensures forall g :: g in queue || IsOrphan(orphans, g) <==> g in queue0 || IsOrphan(orphans0, g) || g == h
  {
    hide AllParents;
    forall k | 0 <= k < |orphans| ensures OrphanOk(pool, u, orphans[k], queue, {}, {}) {
      if k < |orphans0| {
        assert OrphanOk(pool, u, orphans0[k], queue0, {}, {});
        assert orphans0[k].ptx != h;
      }
    }
    forall g ensures IsOrphan(orphans, g) <==> IsOrphan(orphans0, g) || (g == h && AllParents(u, pool[h]) != {}) {
      if IsOrphan(orphans0, g) {
        var k :| 0 <= k < |orphans0| && orphans0[k].ptx == g;
        assert orphans[k].ptx == g;
      }
      if g == h && AllParents(u, pool[h]) != {} {
        assert orphans[|orphans0|].ptx == g;
      }
    }
    forall j, k | 0 <= j < k < |orphans| ensures orphans[j].ptx != orphans[k].ptx {
      assert IsOrphan(orphans0, orphans[j].ptx);
    }
  }

  // ---------------------------------------------------------------- filling the block

  function Ids(vtx: seq<Tx>): set<TxId> { set i | 0 <= i < |vtx| :: vtx[i].id }

  function Bytes(vtx: seq<Tx>): nat { if vtx == [] then 0 else Bytes(vtx[..|vtx| - 1]) + vtx[|vtx| - 1].nBytes }

  function Sum(s: seq<int>): int { if s == [] then 0 else Sum(s[..|s| - 1]) + s[|s| - 1] }

  const SIZE_RESERVED: nat := 1000
  const SIGOPS_RESERVED: nat := 100

  /** How many orphans still wait. */
  function Waiting(orphans: seq<Orphan>): nat {
    if orphans == [] then 0 else Waiting(orphans[..|orphans| - 1]) + if orphans[|orphans| - 1].setDependsOn == {}
        then 0 else 1
  }

  lemma {:induction false} WaitingUpdate(orphans: seq<Orphan>, k: nat, o: Orphan)
    requires k < |orphans|
    ensures Waiting(orphans[k := o]) == Waiting(orphans) - (if orphans[k].setDependsOn == {} then 0 else 1) +
        if o.setDependsOn == {} then 0 else 1
  {
    var n := |orphans| - 1;
    if k == n {
      assert orphans[k := o][..n] == orphans[..n];
    } else {
      assert orphans[k := o][..n] == orphans[..n][k := o];
      WaitingUpdate(orphans[..n], k, o);
    }
  }

  /** The orphans in `told` know that `hash` is chosen, the others do not know it yet. */
  ghost predicate Partly(pool: Pool, u: UtxoSet, orphans: seq<Orphan>, queue: seq<TxId>, done: set<TxId>,
      chosen: set<TxId>, hash: TxId, told: seq<nat>) {
    && (forall k | 0 <= k < |orphans| ::
        OrphanOk(pool, u, orphans[k], queue, done, if k in told then chosen + {hash} else chosen))
    && (forall j, k | 0 <= j < k < |orphans| :: orphans[j].ptx != orphans[k].ptx)
    && (forall i, j | 0 <= i < j < |queue| :: queue[i] != queue[j])
    && (forall h | h in queue :: h in pool && h !in done && AllParents(u, pool[h]) <= chosen + {hash})
  }

  lemma AllTold(pool: Pool, u: UtxoSet, orphans: seq<Orphan>, deps: Dependers, queue: seq<TxId>, done: set<TxId>,
      chosen: set<TxId>, hash: TxId)
    requires Listed(orphans, deps) && Partly(pool, u, orphans, queue, done, chosen, hash, Get(deps, hash))
    ensures Placed(pool, u, orphans, queue, done, chosen + {hash})
  {
    hide AllParents;
    forall k | 0 <= k < |orphans| ensures OrphanOk(pool, u, orphans[k], queue, done, chosen + {hash}) {
      assert OrphanOk(pool, u, orphans[k], queue, done, if k in Get(deps, hash) then chosen + {hash} else chosen);
      if k !in Get(deps, hash) {
        assert hash !in orphans[k].setDependsOn;
        assert orphans[k].setDependsOn == AllParents(u, pool[orphans[k].ptx]) - (chosen + {hash});
      }
    }
  }

  /** What happens to one orphan. */
  function Told(o: Orphan, hash: TxId): Orphan { o.(setDependsOn := o.setDependsOn - {hash}) }

  lemma TellOne(pool: Pool, u: UtxoSet, orphans: seq<Orphan>, queue: seq<TxId>, done: set<TxId>, chosen: set<TxId>,
      hash: TxId, told: seq<nat>, k: nat)
    requires Partly(pool, u, orphans, queue, done, chosen, hash, told) && k < |orphans| && hash !in chosen
    ensures var freed := orphans[k].setDependsOn != {} && Told(orphans[k], hash).setDependsOn == {};
            Partly(pool, u, orphans[k := Told(orphans[k], hash)], if freed then queue + [orphans[k].ptx] else queue,
                done, chosen, hash, told + [k])
  {
    hide AllParents;
    var o := Told(orphans[k], hash);
    var freed := orphans[k].setDependsOn != {} && o.setDependsOn == {};
    var orphans', queue', told' := orphans[k := o], if freed then queue + [o.ptx] else queue, told + [k];
    assert OrphanOk(pool, u, orphans[k], queue, done, if k in told then chosen + {hash} else chosen);
    assert o.setDependsOn == AllParents(u, pool[o.ptx]) - (chosen + {hash});
    forall j | 0 <= j < |orphans'| ensures OrphanOk(pool, u, orphans'[j], queue', done, if j in told'
        then chosen + {hash} else chosen) {
      if j != k {
        assert OrphanOk(pool, u, orphans[j], queue, done, if j in told then chosen + {hash} else chosen);
        assert j in told' <==> j in told;
      } else {
        assert told'[|told|] == k;
      }
    }
    if freed {
      assert AllParents(u, pool[o.ptx]) <= chosen + {hash};
    }
  }

  lemma NobodyTold(pool: Pool, u: UtxoSet, orphans: seq<Orphan>, queue: seq<TxId>, done: set<TxId>, chosen: set<TxId>,
      hash: TxId)
    requires Placed(pool, u, orphans, queue, done, chosen)
    ensures Partly(pool, u, orphans, queue, done, chosen, hash, [])
  {
  }

  /** A chosen transaction tells its dependers: the ones that wait for nothing else come into the queue. */
  method Release(pool: Pool, u: UtxoSet, hash: TxId, orphans0: seq<Orphan>, deps: Dependers, queue0: seq<TxId>,
      ghost done: set<TxId>, ghost chosen: set<TxId>)
    returns (orphans: seq<Orphan>, queue: seq<TxId>)
    requires Listed(orphans0, deps) && Placed(pool, u, orphans0, queue0, done, chosen) && hash !in chosen
    ensures Listed(orphans, deps) && Placed(pool, u, orphans, queue, done, chosen + {hash})
    ensures |orphans| == |orphans0| && forall k | 0 <= k < |orphans| :: orphans[k].ptx == orphans0[k].ptx
    ensures Waiting(orphans) + |queue| == Waiting(orphans0) + |queue0| && queue0 <= queue
    ensures forall h | h in queue :: h in queue0 || IsOrphan(orphans0, h)
  {
    hide OrphanOk, Placed, Partly, Told;
    orphans, queue := orphans0, queue0;
    NobodyTold(pool, u, orphans, queue, done, chosen, hash);
    if hash in deps {
      var list := deps[hash];
      for j := 0 to |list|
        invariant Listed(orphans, deps) && Partly(pool, u, orphans, queue, done, chosen, hash, list[..j])
        invariant |orphans| == |orphans0| && forall k | 0 <= k < |orphans| :: orphans[k].ptx == orphans0[k].ptx
        invariant Waiting(orphans) + |queue| == Waiting(orphans0) + |queue0| && queue0 <= queue
        invariant forall h | h in queue :: h in queue0 || IsOrphan(orphans0, h)
      {
        var k := list[j];
        assert k in Get(deps, hash);
        assert IsOrphan(orphans0, orphans0[k].ptx);
        TellOne(pool, u, orphans, queue, done, chosen, hash, list[..j], k);
        assert list[..j + 1] == list[..j] + [k];
        WaitingUpdate(orphans, k, Told(orphans[k], hash));
        ToldIs(orphans[k], hash);
        ListedLess(orphans, deps, k, hash);
        if orphans[k].setDependsOn != {} {
          orphans := orphans[k := orphans[k].(setDependsOn := orphans[k].setDependsOn - {hash})];
          if orphans[k].setDependsOn == {} {
            queue := queue + [orphans[k].ptx];
          }
        } else {
          assert orphans[k := orphans[k]] == orphans;
        }
      }
      assert list[..|list|] == list;
    }
    AllTold(pool, u, orphans, deps, queue, done, chosen, hash);
  }

  lemma ToldIs(o: Orphan, hash: TxId)
    ensures Told(o, hash) == o.(setDependsOn := o.setDependsOn - {hash})
        && (o.setDependsOn == {} ==> Told(o, hash) == o)
  {
  }

  lemma ListedLess(orphans: seq<Orphan>, deps: Dependers, k: nat, hash: TxId)
    requires Listed(orphans, deps) && k < |orphans|
    ensures Listed(orphans[k := Told(orphans[k], hash)], deps)
  {
    var orphans' := orphans[k := Told(orphans[k], hash)];
    forall j, p | 0 <= j < |orphans'| && p in orphans'[j].setDependsOn ensures j in Get(deps, p) {
      assert p in orphans[j].setDependsOn;
    }
  }

  /** What is chosen connects: one after the other, with all inputs there and all limits kept. */
  ghost predicate Connects(r: Rules, block: Block, u: UtxoSet, vtx: seq<Tx>, nHeight: nat, view: UtxoSet, nFees: int,
      nBlockSigOps: nat) {
    match ConnectTxs(r, block, u, vtx, nHeight)
    case None => false
    case Some(p) => p.utxo == view && p.nFees == nFees && p.nSigOps + SIGOPS_RESERVED == nBlockSigOps && p.scriptsOk
  }

  lemma OneMoreConnects(r: Rules, block: Block, u: UtxoSet, vtx: seq<Tx>, nHeight: nat, view: UtxoSet, nFees: int,
      nBlockSigOps: nat, tx: Tx)
    requires Connects(r, block, u, vtx, nHeight, view, nFees, nBlockSigOps) && block.strictP2SH && !tx.IsCoinBase()
    requires CheckInputs(view, tx, nHeight) && ScriptsOk(r, view, tx) && DistinctInputs(tx.vin)
    requires nBlockSigOps + tx.legacySigOps + P2SHSigOps(r, view, tx, |tx.vin|) < MAX_BLOCK_SIGOPS
    ensures SpendInputs(view, tx.vin).Some?
    ensures Connects(r, block, u, vtx + [tx], nHeight, SpendInputs(view, tx.vin).value.0[tx.id := CoinsOf(tx, nHeight)],
                     nFees + ValueIn(view, tx.vin) - ValueOut(tx.vout),
                         nBlockSigOps + tx.legacySigOps + P2SHSigOps(r, view, tx, |tx.vin|))
  {
    hide CheckInputs, SpendInputs, ValueIn, ValueOut, P2SHSigOps;
    InputsThere(view, tx, nHeight);
    SpendSucceeds(view, tx.vin);
    assert (vtx + [tx])[..|vtx|] == vtx;
  }

  lemma InputsThere(u: UtxoSet, tx: Tx, nHeight: nat)
    requires CheckInputs(u, tx, nHeight)
    ensures HaveInputs(u, tx.vin)
  {
  }

  /** The options and scores that decide about free transactions: fees and priorities are floating-point
      numbers, of which only these comparisons matter. */
  datatype Policy = Policy(nBlockMaxSize: nat, nBlockMinSize: nat, nBlockPrioritySize: nat, lowFee: Tx -> bool,
      highPriority: Tx -> bool)

  /** The limits and tests that a transaction from the queue has to pass. */
  ghost predicate Fits(r: Rules, view: UtxoSet, tx: Tx, nHeight: nat, nBlockSize: nat, nBlockMaxSize: nat,
      nBlockSigOps: nat) {
    && nBlockSize + tx.nBytes < nBlockMaxSize && CheckInputs(view, tx, nHeight) && ScriptsOk(r, view, tx)
    && nBlockSigOps + tx.legacySigOps + P2SHSigOps(r, view, tx, |tx.vin|) < MAX_BLOCK_SIGOPS
  }

  /** One transaction from the queue is tried. */
  method Try(r: Rules, policy: Policy, view: UtxoSet, tx: Tx, nHeight: nat, nBlockSize: nat, nBlockSigOps: nat,
      fSortedByFee0: bool)
    returns (ok: bool, fSortedByFee: bool, nTxFees: int, nTxSigOps: nat)
    ensures ok <==> Fits(r, view, tx, nHeight, nBlockSize, policy.nBlockMaxSize, nBlockSigOps)
                    && !(fSortedByFee0 && policy.lowFee(tx) && nBlockSize + tx.nBytes >= policy.nBlockMinSize)
    ensures ok ==> HaveInputs(view, tx.vin) && nTxFees == ValueIn(view, tx.vin) - ValueOut(tx.vout)
                   && nTxSigOps == tx.legacySigOps + P2SHSigOps(r, view, tx, |tx.vin|)
    ensures fSortedByFee0 ==> fSortedByFee
  {
    hide ValueIn, ValueOut, P2SHSigOps;
    ok, fSortedByFee, nTxFees, nTxSigOps := false, fSortedByFee0, 0, tx.legacySigOps;
    if nBlockSize + tx.nBytes >= policy.nBlockMaxSize {
      return;
    }
    if nBlockSigOps + nTxSigOps >= MAX_BLOCK_SIGOPS {
      return;
    }
    if fSortedByFee && policy.lowFee(tx) && nBlockSize + tx.nBytes >= policy.nBlockMinSize {
      return;
    }
    if !fSortedByFee && (nBlockSize + tx.nBytes >= policy.nBlockPrioritySize || !policy.highPriority(tx)) {
      fSortedByFee := true;
    }
    if !HaveInputs(view, tx.vin) {
      return;
    }
    nTxFees := ValueIn(view, tx.vin) - ValueOut(tx.vout);
    nTxSigOps := nTxSigOps + P2SHSigOps(r, view, tx, |tx.vin|);
    if nBlockSigOps + nTxSigOps >= MAX_BLOCK_SIGOPS {
      return;
    }
    if !CheckInputs(view, tx, nHeight) || !ScriptsOk(r, view, tx) {
      return;
    }
    ok := true;
  }

  /** When its turn came, behind some part of what is chosen now, the transaction did not fit or was free. */
  ghost predicate TurnedDown(r: Rules, policy: Policy, block: Block, u: UtxoSet, vtx: seq<Tx>, nHeight: nat, tx: Tx) {
    exists j, view, nFees, nSigOps :: 0 <= j <= |vtx|
        && DownAt(r, policy, block, u, vtx[..j], nHeight, tx, view, nFees, nSigOps)
  }

  ghost predicate DownAt(r: Rules, policy: Policy, block: Block, u: UtxoSet, vtx: seq<Tx>, nHeight: nat, tx: Tx,
      view: UtxoSet, nFees: int, nSigOps: nat) {
    && Connects(r, block, u, vtx, nHeight, view, nFees, nSigOps)
    && (!Fits(r, view, tx, nHeight, SIZE_RESERVED + Bytes(vtx), policy.nBlockMaxSize, nSigOps)
        || (policy.lowFee(tx) && SIZE_RESERVED + Bytes(vtx) + tx.nBytes >= policy.nBlockMinSize))
  }

  lemma StaysDown(r: Rules, policy: Policy, block: Block, u: UtxoSet, vtx: seq<Tx>, nHeight: nat, tx: Tx, more: Tx)
    requires TurnedDown(r, policy, block, u, vtx, nHeight, tx)
    ensures TurnedDown(r, policy, block, u, vtx + [more], nHeight, tx)
  {
    var j, view, nFees, nSigOps :| 0 <= j <= |vtx|
        && DownAt(r, policy, block, u, vtx[..j], nHeight, tx, view, nFees, nSigOps);
    assert (vtx + [more])[..j] == vtx[..j];
  }

  lemma DownNow(r: Rules, policy: Policy, block: Block, u: UtxoSet, vtx: seq<Tx>, nHeight: nat, tx: Tx, view: UtxoSet,
      nFees: int, nSigOps: nat)
    requires DownAt(r, policy, block, u, vtx, nHeight, tx, view, nFees, nSigOps)
    ensures TurnedDown(r, policy, block, u, vtx, nHeight, tx)
  {
    assert vtx[..|vtx|] == vtx;
  }

  /** What is left out of the block and why: every eligible transaction is chosen, was turned down, or spends
      from one of the pool that is left out. */
  ghost predicate Accounted(pool: Pool, u: UtxoSet, isFinal: Tx -> bool, chosen: set<TxId>, refused: set<TxId>) {
    forall h | h in pool && Eligible(isFinal, pool[h]) :: h in chosen || h in refused
        || !(AllParents(u, pool[h]) <= chosen)
  }

  lemma EmptyConnects(r: Rules, block: Block, u: UtxoSet, nHeight: nat)
    ensures Connects(r, block, u, [], nHeight, u, 0, SIGOPS_RESERVED) && Ids([]) == {}
  {
  }

  lemma Taken(pool: Pool, u: UtxoSet, orphans: seq<Orphan>, queue: seq<TxId>, done: set<TxId>, chosen: set<TxId>,
      k: nat)
    requires Placed(pool, u, orphans, queue, done, chosen) && k < |queue|
    ensures var rest := queue[..k] + queue[k + 1..];
            && Placed(pool, u, orphans, rest, done + {queue[k]}, chosen) && queue[k] in pool && queue[k] !in done
            && forall h :: h in queue <==> h in rest || h == queue[k]
  {
    hide AllParents;
    var h := queue[k];
    var rest := queue[..k] + queue[k + 1..];
    assert queue == queue[..k] + [h] + queue[k + 1..];
    forall g ensures g in queue <==> g in rest || g == h {
    }
    forall j | 0 <= j < |rest| ensures rest[j] == queue[if j < k then j else j + 1] {
    }
    forall j | 0 <= j < |orphans| ensures OrphanOk(pool, u, orphans[j], rest, done + {h}, chosen) {
      assert OrphanOk(pool, u, orphans[j], queue, done, chosen);
    }
    forall g | g in rest ensures g in pool && g !in done + {h} && AllParents(u, pool[g]) <= chosen {
      var j :| 0 <= j < |rest| && rest[j] == g;
      assert queue[if j < k then j else j + 1] == g;
    }
  }

  lemma SameOrphans(a: seq<Orphan>, b: seq<Orphan>)
    requires |a| == |b| && forall k | 0 <= k < |a| :: a[k].ptx == b[k].ptx
    ensures forall h :: IsOrphan(a, h) <==> IsOrphan(b, h)
  {
    forall h | IsOrphan(b, h) ensures IsOrphan(a, h) {
      var k :| 0 <= k < |b| && b[k].ptx == h;
      assert a[k].ptx == h;
    }
  }

  lemma SumSnoc(s: seq<int>, v: int)
    requires s != []
    ensures Sum((s + [v])[1..]) == Sum(s[1..]) + v
  {
    assert (s + [v])[1..] == s[1..] + [v];
    assert (s[1..] + [v])[..|s[1..]|] == s[1..];
  }

  lemma IdsSnoc(vtx: seq<Tx>, tx: Tx)
    ensures Ids(vtx + [tx]) == Ids(vtx) + {tx.id} && Bytes(vtx + [tx]) == Bytes(vtx) + tx.nBytes
  {
    assert (vtx + [tx])[..|vtx|] == vtx;
    forall i | 0 <= i < |vtx| ensures vtx[i].id in Ids(vtx + [tx]) {
      assert (vtx + [tx])[i] == vtx[i];
    }
    assert (vtx + [tx])[|vtx|] == tx;
  }

  /** Chosen from the pool, each once. */
  ghost predicate FromPool(pool: Pool, isFinal: Tx -> bool, vtx: seq<Tx>) {
    && (forall i, j | 0 <= i < j < |vtx| :: vtx[i].id != vtx[j].id)
    && (forall i | 0 <= i < |vtx| :: vtx[i].id in pool && pool[vtx[i].id] == vtx[i] && Eligible(isFinal, vtx[i]))
  }

  lemma OneMoreFromPool(pool: Pool, isFinal: Tx -> bool, vtx: seq<Tx>, tx: Tx)
    requires FromPool(pool, isFinal, vtx) && tx.id in pool && pool[tx.id] == tx && Eligible(isFinal, tx)
        && tx.id !in Ids(vtx)
    ensures FromPool(pool, isFinal, vtx + [tx])
  {
    forall i | 0 <= i < |vtx| ensures vtx[i].id in Ids(vtx) {
    }
  }

  lemma PooledTx(pool: Pool, u: UtxoSet, h: TxId)
    requires PoolOk(pool, u) && h in pool
    ensures pool[h].id == h && DistinctInputs(pool[h].vin)
  {
  }

  /** The chosen transactions and the running totals. */
  ghost predicate Filled(r: Rules, policy: Policy, block: Block, u: UtxoSet, pool: Pool, isFinal: Tx -> bool,
      nHeight: nat,
                         vtx: seq<Tx>, vTxFees: seq<int>, nFees: int, nBlockSize: nat, nBlockSigOps: nat,
                             view: UtxoSet) {
    && Connects(r, block, u, vtx, nHeight, view, nFees, nBlockSigOps) && nBlockSigOps < MAX_BLOCK_SIGOPS
    && |vTxFees| == |vtx| + 1 && nFees == Sum(vTxFees[1..])
    && nBlockSize == SIZE_RESERVED + Bytes(vtx) && (vtx != [] ==> nBlockSize < policy.nBlockMaxSize)
    && FromPool(pool, isFinal, vtx)
  }

  lemma FilledMore(r: Rules, policy: Policy, block: Block, u: UtxoSet, pool: Pool, isFinal: Tx -> bool, nHeight: nat,
                   vtx: seq<Tx>, vTxFees: seq<int>, nFees: int, nBlockSize: nat, nBlockSigOps: nat, view: UtxoSet,
                       tx: Tx)
    requires Filled(r, policy, block, u, pool, isFinal, nHeight, vtx, vTxFees, nFees, nBlockSize, nBlockSigOps, view)
    requires Fits(r, view, tx, nHeight, nBlockSize, policy.nBlockMaxSize, nBlockSigOps) && block.strictP2SH
        && DistinctInputs(tx.vin)
    requires tx.id in pool && pool[tx.id] == tx && Eligible(isFinal, tx) && tx.id !in Ids(vtx)
    ensures HaveInputs(view, tx.vin) && SpendInputs(view, tx.vin).Some?
    ensures var fee := ValueIn(view, tx.vin) - ValueOut(tx.vout);
            Filled(r, policy, block, u, pool, isFinal, nHeight, vtx + [tx], vTxFees + [fee], nFees + fee,
                nBlockSize + tx.nBytes,
                   nBlockSigOps + tx.legacySigOps + P2SHSigOps(r, view, tx, |tx.vin|),
                       SpendInputs(view, tx.vin).value.0[tx.id := CoinsOf(tx, nHeight)])
  {
    hide Connects, FromPool, Fits, Sum, Bytes, Ids, ValueIn, ValueOut, P2SHSigOps, SpendInputs, CheckInputs,
        HaveInputs, ScriptsOk;
    FitsInputs(r, view, tx, nHeight, nBlockSize, policy.nBlockMaxSize, nBlockSigOps);
    OneMoreConnects(r, block, u, vtx, nHeight, view, nFees, nBlockSigOps, tx);
    OneMoreFromPool(pool, isFinal, vtx, tx);
    SumSnoc(vTxFees, ValueIn(view, tx.vin) - ValueOut(tx.vout));
    IdsSnoc(vtx, tx);
  }

  /** Where the eligible transactions are. */
  ghost predicate Scheduled(pool: Pool, u: UtxoSet, isFinal: Tx -> bool, orphans: seq<Orphan>, deps: Dependers,
      queue: seq<TxId>, refused: set<TxId>, chosen: set<TxId>) {
    && Listed(orphans, deps) && Placed(pool, u, orphans, queue, refused + chosen, chosen)
    && (forall h | h in pool && Eligible(isFinal, pool[h]) ::
          h in queue || h in refused || h in chosen || IsOrphan(orphans, h))
    && (forall h | h in queue || IsOrphan(orphans, h) :: h in pool && Eligible(isFinal, pool[h]))
  }

  lemma Picked(pool: Pool, u: UtxoSet, isFinal: Tx -> bool, orphans: seq<Orphan>, deps: Dependers, queue: seq<TxId>,
      refused: set<TxId>, chosen: set<TxId>, k: nat)
    requires Scheduled(pool, u, isFinal, orphans, deps, queue, refused, chosen) && k < |queue|
    ensures var h, rest := queue[k], queue[..k] + queue[k + 1..];
            && h in pool && Eligible(isFinal, pool[h]) && h !in refused && h !in chosen
            && Listed(orphans, deps) && Placed(pool, u, orphans, rest, refused + chosen + {h}, chosen)
            && Scheduled(pool, u, isFinal, orphans, deps, rest, refused + {h}, chosen)
  {
    hide Placed, Listed, Eligible, IsOrphan;
    Taken(pool, u, orphans, queue, refused + chosen, chosen, k);
    assert refused + {queue[k]} + chosen == refused + chosen + {queue[k]};
  }

  lemma Released(pool: Pool, u: UtxoSet, isFinal: Tx -> bool, orphans0: seq<Orphan>, deps: Dependers,
      queue0: seq<TxId>, refused: set<TxId>, chosen: set<TxId>, h: TxId, orphans: seq<Orphan>, queue: seq<TxId>)
    requires Scheduled(pool, u, isFinal, orphans0, deps, queue0, refused + {h}, chosen)
    requires Listed(orphans, deps) && Placed(pool, u, orphans, queue, refused + chosen + {h}, chosen + {h})
        && queue0 <= queue
    requires |orphans| == |orphans0| && forall k | 0 <= k < |orphans| :: orphans[k].ptx == orphans0[k].ptx
    requires forall g | g in queue :: g in queue0 || IsOrphan(orphans0, g)
    ensures Scheduled(pool, u, isFinal, orphans, deps, queue, refused, chosen + {h})
  {
    hide Placed, Listed, Eligible, IsOrphan;
    SameOrphans(orphans0, orphans);
    assert refused + (chosen + {h}) == refused + chosen + {h};
  }

  ghost predicate AllDown(r: Rules, policy: Policy, block: Block, u: UtxoSet, pool: Pool, vtx: seq<Tx>, nHeight: nat,
      refused: set<TxId>) {
    forall h | h in refused :: h in pool && TurnedDown(r, policy, block, u, vtx, nHeight, pool[h])
  }

  lemma AllStayDown(r: Rules, policy: Policy, block: Block, u: UtxoSet, pool: Pool, vtx: seq<Tx>, nHeight: nat,
      refused: set<TxId>, tx: Tx)
    requires AllDown(r, policy, block, u, pool, vtx, nHeight, refused)
    ensures AllDown(r, policy, block, u, pool, vtx + [tx], nHeight, refused)
  {
    hide TurnedDown;
    forall h | h in refused ensures h in pool && TurnedDown(r, policy, block, u, vtx + [tx], nHeight, pool[h]) {
      StaysDown(r, policy, block, u, vtx, nHeight, pool[h], tx);
    }
  }

  /** CreateNewBlock from the coinbase to the fees. The chosen transactions connect in their order on top of
      the chain, so every one of them comes after what it spends from and no output is spent twice; the size
      and signature-operation counters stay below their limits; and the first fee is the negated sum of the
      others, which is what ConnectBlock will compute. What is left out was turned down, or waits for
      something that is left out. */
  method FillBlock(r: Rules, policy: Policy, block: Block, u: UtxoSet, pool: Pool, isFinal: Tx -> bool, nHeight: nat)
    returns (vtx: seq<Tx>, vTxFees: seq<int>, nBlockSize: nat, nBlockSigOps: nat, ghost view: UtxoSet,
        ghost refused: set<TxId>)
    requires PoolOk(pool, u) && block.strictP2SH
    ensures |vTxFees| == |vtx| + 1 && vTxFees[0] == -Sum(vTxFees[1..])
    ensures Connects(r, block, u, vtx, nHeight, view, -vTxFees[0], nBlockSigOps) && nBlockSigOps < MAX_BLOCK_SIGOPS
    ensures nBlockSize == SIZE_RESERVED + Bytes(vtx) && (vtx != [] ==> nBlockSize < policy.nBlockMaxSize)
    ensures FromPool(pool, isFinal, vtx)
    ensures Accounted(pool, u, isFinal, Ids(vtx), refused) && AllDown(r, policy, block, u, pool, vtx, nHeight, refused)
  {
    hide Connects, Placed, Listed, PoolOk, Accounted, Eligible, FromPool, AllDown, Fits, IsOrphan, Filled, Scheduled,
        Ids, Sum, Bytes, ValueIn, ValueOut, P2SHSigOps, SpendInputs, HaveInputs, OrphanOk;
    var orphans, deps, queue := Gather(pool, u, isFinal);
    vtx, vTxFees, nBlockSize, nBlockSigOps := [], [-1], SIZE_RESERVED, SIGOPS_RESERVED;
    var nFees, utxo := 0, u;
    var fSortedByFee := policy.nBlockPrioritySize <= 0;
    refused := {};
    NothingFilled(r, policy, block, u, pool, isFinal, nHeight, orphans, deps, queue);
    while |queue| > 0
      invariant Scheduled(pool, u, isFinal, orphans, deps, queue, refused, Ids(vtx))
      invariant Filled(r, policy, block, u, pool, isFinal, nHeight, vtx, vTxFees, nFees, nBlockSize, nBlockSigOps, utxo)
      invariant AllDown(r, policy, block, u, pool, vtx, nHeight, refused)
      decreases Waiting(orphans) + |queue|
    {
      var k: nat :| k < |queue|;
      var hash := queue[k];
      Picked(pool, u, isFinal, orphans, deps, queue, refused, Ids(vtx), k);
      PooledTx(pool, u, hash);
      queue := queue[..k] + queue[k + 1..];
      var tx := pool[hash];
      var ok, nTxFees, nTxSigOps;
      ok, fSortedByFee, nTxFees, nTxSigOps := Try(r, policy, utxo, tx, nHeight, nBlockSize, nBlockSigOps, fSortedByFee);
      if ok {
        FilledMore(r, policy, block, u, pool, isFinal, nHeight, vtx, vTxFees, nFees, nBlockSize, nBlockSigOps, utxo,
            tx);
        AllStayDown(r, policy, block, u, pool, vtx, nHeight, refused, tx);
        IdsSnoc(vtx, tx);
        ghost var orphans0, queue0, chosen := orphans, queue, Ids(vtx);
        utxo := SpendInputs(utxo, tx.vin).value.0[hash := CoinsOf(tx, nHeight)];
        vtx := vtx + [tx];
        vTxFees := vTxFees + [nTxFees];
        nBlockSize := nBlockSize + tx.nBytes;
        nBlockSigOps := nBlockSigOps + nTxSigOps;
        nFees := nFees + nTxFees;
        orphans, queue := Release(pool, u, hash, orphans, deps, queue, refused + chosen + {hash}, chosen);
        Released(pool, u, isFinal, orphans0, deps, queue0, refused, chosen, hash, orphans, queue);
      } else {
        NotNow(r, policy, block, u, pool, isFinal, vtx, vTxFees, nHeight, tx, utxo, nFees, nBlockSize, nBlockSigOps,
            refused);
        refused := refused + {hash};
      }
    }
    FilledParts(r, policy, block, u, pool, isFinal, nHeight, vtx, vTxFees, nFees, nBlockSize, nBlockSigOps, utxo);
    QueueDone(pool, u, isFinal, orphans, deps, Ids(vtx), refused);
    assert vTxFees[0 := -nFees][1..] == vTxFees[1..];
    vTxFees := vTxFees[0 := -nFees];
    view := utxo;
  }

  lemma FilledParts(r: Rules, policy: Policy, block: Block, u: UtxoSet, pool: Pool, isFinal: Tx -> bool, nHeight: nat,
                    vtx: seq<Tx>, vTxFees: seq<int>, nFees: int, nBlockSize: nat, nBlockSigOps: nat, view: UtxoSet)
    requires Filled(r, policy, block, u, pool, isFinal, nHeight, vtx, vTxFees, nFees, nBlockSize, nBlockSigOps, view)
    ensures Connects(r, block, u, vtx, nHeight, view, nFees, nBlockSigOps) && nBlockSigOps < MAX_BLOCK_SIGOPS
    ensures |vTxFees| == |vtx| + 1 && nFees == Sum(vTxFees[1..])
    ensures nBlockSize == SIZE_RESERVED + Bytes(vtx) && (vtx != [] ==> nBlockSize < policy.nBlockMaxSize)
    ensures FromPool(pool, isFinal, vtx)
  {
  }

  lemma NothingFilled(r: Rules, policy: Policy, block: Block, u: UtxoSet, pool: Pool, isFinal: Tx -> bool, nHeight: nat,
                      orphans: seq<Orphan>, deps: Dependers, queue: seq<TxId>)
    requires Listed(orphans, deps) && Placed(pool, u, orphans, queue, {}, {})
    requires forall h :: h in queue || IsOrphan(orphans, h) <==> h in pool && Eligible(isFinal, pool[h])
    ensures Filled(r, policy, block, u, pool, isFinal, nHeight, [], [-1], 0, SIZE_RESERVED, SIGOPS_RESERVED, u)
    ensures Scheduled(pool, u, isFinal, orphans, deps, queue, {}, Ids([]))
        && AllDown(r, policy, block, u, pool, [], nHeight, {})
  {
    hide Listed, Placed, Eligible, IsOrphan;
    EmptyConnects(r, block, u, nHeight);
    assert {} + Ids([]) == {};
  }

  lemma QueueDone(pool: Pool, u: UtxoSet, isFinal: Tx -> bool, orphans: seq<Orphan>, deps: Dependers,
      chosen: set<TxId>, refused: set<TxId>)
    requires Scheduled(pool, u, isFinal, orphans, deps, [], refused, chosen)
    ensures Accounted(pool, u, isFinal, chosen, refused)
  {
    hide AllParents, Eligible, Listed;
    forall h | h in pool && Eligible(isFinal, pool[h]) && h !in refused
        && h !in chosen ensures !(AllParents(u, pool[h]) <= chosen) {
      var k :| 0 <= k < |orphans| && orphans[k].ptx == h;
      assert OrphanOk(pool, u, orphans[k], [], refused + chosen, chosen);
    }
  }

  lemma FitsInputs(r: Rules, view: UtxoSet, tx: Tx, nHeight: nat, nBlockSize: nat, nBlockMaxSize: nat,
      nBlockSigOps: nat)
    requires Fits(r, view, tx, nHeight, nBlockSize, nBlockMaxSize, nBlockSigOps)
    ensures nBlockSize + tx.nBytes < nBlockMaxSize && CheckInputs(view, tx, nHeight) && HaveInputs(view, tx.vin)
        && ScriptsOk(r, view, tx)
    ensures nBlockSigOps + tx.legacySigOps + P2SHSigOps(r, view, tx, |tx.vin|) < MAX_BLOCK_SIGOPS
  {
  }

  lemma NotNow(r: Rules, policy: Policy, block: Block, u: UtxoSet, pool: Pool, isFinal: Tx -> bool, vtx: seq<Tx>,
      vTxFees: seq<int>, nHeight: nat,
      tx: Tx, view: UtxoSet, nFees: int, nBlockSize: nat, nSigOps: nat, refused: set<TxId>)
    requires Filled(r, policy, block, u, pool, isFinal, nHeight, vtx, vTxFees, nFees, nBlockSize, nSigOps, view)
    requires AllDown(r, policy, block, u, pool, vtx, nHeight, refused) && tx.id in pool && pool[tx.id] == tx
    requires !Fits(r, view, tx, nHeight, nBlockSize, policy.nBlockMaxSize, nSigOps)
        || (policy.lowFee(tx) && nBlockSize + tx.nBytes >= policy.nBlockMinSize)
    ensures AllDown(r, policy, block, u, pool, vtx, nHeight, refused + {tx.id})
  {
    hide Fits, Connects, TurnedDown, FromPool;
    DownNow(r, policy, block, u, vtx, nHeight, tx, view, nFees, nSigOps);
  }

  // ---------------------------------------------------------------- what connecting in order means

  lemma {:induction false} SpendTakes(u: UtxoSet, vin: seq<OutPoint>, o: OutPoint)
    requires SpendInputs(u, vin).Some?
    ensures SpendInputs(u, vin).value.0.Keys <= u.Keys
    ensures !Available(u, o) || o in vin ==> !Available(SpendInputs(u, vin).value.0, o)
  {
    if vin != [] {
      var k := |vin| - 1;
      SpendTakes(u, vin[..k], o);
      var u' := SpendInputs(u, vin[..k]).value.0;
      OneTaken(u', vin[k], o);
      assert o in vin ==> o in vin[..k] || o == vin[k];
    }
  }

  lemma OneTaken(u: UtxoSet, out: OutPoint, o: OutPoint)
    requires Available(u, out)
    ensures var u' := Put(u, out.hash, SpendResult(u[out.hash], out.n).0);
            u'.Keys <= u.Keys && (!Available(u, o) || o == out ==> !Available(u', o))
  {
    if o.hash == out.hash {
      var left := SpendResult(u[out.hash], out.n).0;
      var w := u[out.hash].vout[out.n := NULL_OUT];
      assert left.IsAvailable(o.n) ==> left.vout[o.n] == w[o.n];
    }
  }

  /** The prefixes of what connects connect. */
  lemma {:induction false} Prefix(r: Rules, block: Block, u: UtxoSet, vtx: seq<Tx>, nHeight: nat, i: nat)
    requires ConnectTxs(r, block, u, vtx, nHeight).Some? && i <= |vtx|
    ensures ConnectTxs(r, block, u, vtx[..i], nHeight).Some?
  {
    hide ConnectTx;
    if i < |vtx| {
      Prefix(r, block, u, vtx[..|vtx| - 1], nHeight, i);
      assert vtx[..|vtx| - 1][..i] == vtx[..i];
    } else {
      assert vtx[..i] == vtx;
    }
  }

  /** One round adds nothing but the outputs of its transaction, needs all inputs, and takes them. */
  lemma RoundTakes(r: Rules, block: Block, u: UtxoSet, vtx: seq<Tx>, nHeight: nat, i: nat, o: OutPoint)
    requires i < |vtx| && ConnectTxs(r, block, u, vtx[..i + 1], nHeight).Some? && !vtx[i].IsCoinBase()
    ensures ConnectTxs(r, block, u, vtx[..i], nHeight).Some?
    ensures var before, after := ConnectTxs(r, block, u, vtx[..i], nHeight).value.utxo,
        ConnectTxs(r, block, u, vtx[..i + 1], nHeight).value.utxo;
            && HaveInputs(before, vtx[i].vin) && after.Keys <= before.Keys + {vtx[i].id}
            && (o.hash != vtx[i].id && (!Available(before, o) || o in vtx[i].vin) ==> !Available(after, o))
  {
    assert vtx[..i + 1][..i] == vtx[..i];
    var before := ConnectTxs(r, block, u, vtx[..i], nHeight).value.utxo;
    SpendTakes(before, vtx[i].vin, o);
  }

  lemma {:induction false} OnlyNewKeys(r: Rules, block: Block, u: UtxoSet, vtx: seq<Tx>, nHeight: nat, i: nat,
      h: TxId) returns (j: nat)
    requires i <= |vtx| && ConnectTxs(r, block, u, vtx[..i], nHeight).Some?
        && forall k | 0 <= k < |vtx| :: !vtx[k].IsCoinBase()
    requires h !in u && h in ConnectTxs(r, block, u, vtx[..i], nHeight).value.utxo
    ensures j < i && vtx[j].id == h
  {
    hide ConnectTxs;
    if i == 0 {
      NoTxs(r, block, u, vtx, nHeight);
    } else if vtx[i - 1].id == h {
      j := i - 1;
    } else {
      RoundTakes(r, block, u, vtx, nHeight, i - 1, OutPoint(h, 0));
      j := OnlyNewKeys(r, block, u, vtx, nHeight, i - 1, h);
    }
  }

  lemma NoTxs(r: Rules, block: Block, u: UtxoSet, vtx: seq<Tx>, nHeight: nat)
    ensures ConnectTxs(r, block, u, vtx[..0], nHeight) == Some(Progress(u, [], 0, 0, 0, 0, true))
  {
  }

  /** What a chosen transaction spends is in the chain or was chosen before it. */
  lemma ParentsFirst(r: Rules, block: Block, u: UtxoSet, pool: Pool, isFinal: Tx -> bool, vtx: seq<Tx>, nHeight: nat,
      view: UtxoSet, nFees: int, nSigOps: nat, i: nat, n: nat) returns (j: nat)
    requires Connects(r, block, u, vtx, nHeight, view, nFees, nSigOps) && FromPool(pool, isFinal, vtx)
    requires i < |vtx| && n < |vtx[i].vin| && vtx[i].vin[n].hash !in u
    ensures j < i && vtx[j].id == vtx[i].vin[n].hash
  {
    hide ConnectTxs;
    Prefix(r, block, u, vtx, nHeight, i + 1);
    RoundTakes(r, block, u, vtx, nHeight, i, vtx[i].vin[n]);
    j := OnlyNewKeys(r, block, u, vtx, nHeight, i, vtx[i].vin[n].hash);
  }

  lemma {:induction false} StaysSpent(r: Rules, block: Block, u: UtxoSet, vtx: seq<Tx>, nHeight: nat, i: nat, j: nat,
      o: OutPoint)
    requires i < j <= |vtx| && ConnectTxs(r, block, u, vtx[..j], nHeight).Some?
        && forall k | 0 <= k < |vtx| :: !vtx[k].IsCoinBase()
    requires o in vtx[i].vin && forall k | i <= k < |vtx| :: vtx[k].id != o.hash
    ensures !Available(ConnectTxs(r, block, u, vtx[..j], nHeight).value.utxo, o)
  {
    hide ConnectTxs;
    RoundTakes(r, block, u, vtx, nHeight, j - 1, o);
    if i < j - 1 {
      StaysSpent(r, block, u, vtx, nHeight, i, j - 1, o);
    }
  }

  /** No two chosen transactions spend the same output. */
  lemma NoDoubleSpend(r: Rules, block: Block, u: UtxoSet, pool: Pool, isFinal: Tx -> bool, vtx: seq<Tx>, nHeight: nat,
      view: UtxoSet, nFees: int, nSigOps: nat, i: nat, j: nat, o: OutPoint)
    requires Connects(r, block, u, vtx, nHeight, view, nFees, nSigOps) && FromPool(pool, isFinal, vtx)
        && PoolOk(pool, u)
    requires i < j < |vtx| && o in vtx[i].vin
    ensures o !in vtx[j].vin
  {
    hide ConnectTxs, CheckTransaction, InputsKnown;
    Prefix(r, block, u, vtx, nHeight, j + 1);
    Prefix(r, block, u, vtx, nHeight, i + 1);
    RoundTakes(r, block, u, vtx, nHeight, j, o);
    RoundTakes(r, block, u, vtx, nHeight, i, o);
    if o.hash !in u {
      var k := OnlyNewKeys(r, block, u, vtx, nHeight, i, o.hash);
      assert forall l | i <= l < |vtx| :: vtx[l].id != o.hash;
    }
    StaysSpent(r, block, u, vtx, nHeight, i, j, o);
    Unspent(ConnectTxs(r, block, u, vtx[..j], nHeight).value.utxo, vtx[j].vin, o);
  }

  lemma Unspent(u: UtxoSet, vin: seq<OutPoint>, o: OutPoint)
    requires HaveInputs(u, vin) && !Available(u, o)
    ensures o !in vin
  {
  }
}
