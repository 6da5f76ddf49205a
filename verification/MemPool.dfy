/** The memory pool: the transactions waiting for a block and the index of the outputs they spend. */
module MemPool {
  import opened Common
  import opened Coins
  import Utxo

  /** CInPoint: an input of a pooled transaction. */
  datatype InPoint = InPoint(ptx: TxId, n: nat)

  type Pool = map<TxId, Tx>
  type Index = map<OutPoint, InPoint>

  /** The index has exactly one entry for every input of every pooled transaction. */
  ghost predicate IndexOk(pool: Pool, next: Index) {
    && (forall h | h in pool :: pool[h].id == h)
    && (forall h, i | h in pool && 0 <= i < |pool[h].vin| ::
          pool[h].vin[i] in next && next[pool[h].vin[i]] == InPoint(h, i))
    && (forall o | o in next ::
          next[o].ptx in pool && next[o].n < |pool[next[o].ptx].vin| && pool[next[o].ptx].vin[next[o].n] == o)
  }

  /** Ids are hashes, so no transaction can spend an output of itself or of something that was made from it;
      `rank` orders them. */
  type Rank = TxId -> nat

  ghost predicate Acyclic(rank: Rank, pool: Pool) { forall h | h in pool :: Later(rank, h, pool[h]) }

  ghost predicate Later(rank: Rank, h: TxId, tx: Tx) { forall i | 0 <= i < |tx.vin| :: rank(tx.vin[i].hash) < rank(h) }

  /** d spends one of the first k outputs of `root`, or an output of something that does, and so on. */
  ghost predicate Descends(rank: Rank, pool: Pool, root: TxId, k: nat, d: TxId)
    requires Acyclic(rank, pool)
    decreases rank(d)
  {
    d in pool && exists i :: 0 <= i < |pool[d].vin| && Through(rank, pool, root, k, d, i)
  }

  /** Input i of d is what connects it to `root`. */
  ghost predicate Through(rank: Rank, pool: Pool, root: TxId, k: nat, d: TxId, i: nat)
    requires Acyclic(rank, pool) && d in pool && i < |pool[d].vin|
    decreases rank(d), 0
  {
    var o := pool[d].vin[i];
    assert Later(rank, d, pool[d]);
    || (o.hash == root && o.n < k)
    || (o.hash in pool && o.n < |pool[o.hash].vout| && Descends(rank, pool, root, k, o.hash))
  }

  ghost function Descendants(rank: Rank, pool: Pool, root: TxId, k: nat): set<TxId>
    requires Acyclic(rank, pool)
  {
    set d | d in pool && Descends(rank, pool, root, k, d)
  }

  lemma AcyclicLess(rank: Rank, pool: Pool, gone: set<TxId>)
    requires Acyclic(rank, pool)
    ensures Acyclic(rank, pool - gone)
  {
  }

  lemma {:induction false} RankRises(rank: Rank, pool: Pool, root: TxId, k: nat, d: TxId)
    requires Acyclic(rank, pool) && Descends(rank, pool, root, k, d)
    ensures rank(root) < rank(d)
    decreases rank(d)
  {
    var i :| 0 <= i < |pool[d].vin| && Through(rank, pool, root, k, d, i);
    var o := pool[d].vin[i];
    assert Later(rank, d, pool[d]);
    if !(o.hash == root && o.n < k) {
      RankRises(rank, pool, root, k, o.hash);
    }
  }

  /** With more outputs there are no fewer descendants. */
  lemma {:induction false} DescendsMore(rank: Rank, pool: Pool, root: TxId, j: nat, k: nat, d: TxId)
    requires Acyclic(rank, pool) && j <= k && Descends(rank, pool, root, j, d)
    ensures Descends(rank, pool, root, k, d)
    decreases rank(d)
  {
    var i :| 0 <= i < |pool[d].vin| && Through(rank, pool, root, j, d, i);
    var o := pool[d].vin[i];
    assert Later(rank, d, pool[d]);
    if !(o.hash == root && o.n < j) {
      DescendsMore(rank, pool, root, j, k, o.hash);
    }
    assert Through(rank, pool, root, k, d, i);
  }

  /** Descendants of a descendant are descendants. */
  lemma {:induction false} DescendsOn(rank: Rank, pool: Pool, root: TxId, k: nat, c: TxId, d: TxId)
    requires Acyclic(rank, pool) && c in pool && Descends(rank, pool, root, k, c)
        && Descends(rank, pool, c, |pool[c].vout|, d)
    ensures Descends(rank, pool, root, k, d)
    decreases rank(d)
  {
    var i :| 0 <= i < |pool[d].vin| && Through(rank, pool, c, |pool[c].vout|, d, i);
    var o := pool[d].vin[i];
    assert Later(rank, d, pool[d]);
    if !(o.hash == c && o.n < |pool[c].vout|) {
      DescendsOn(rank, pool, root, k, c, o.hash);
    }
    assert Through(rank, pool, root, k, d, i);
  }

  /** Nothing that is kept spends something that is gone. */
  ghost predicate Closed(pool: Pool, gone: set<TxId>) {
    forall d, i | d in pool && d !in gone && 0 <= i < |pool[d].vin| :: KeepsParent(pool, gone, pool[d].vin[i])
  }

  ghost predicate KeepsParent(pool: Pool, gone: set<TxId>, o: OutPoint) {
    o.hash in pool && o.n < |pool[o.hash].vout| ==> o.hash !in gone
  }

  /** Taking away something closed does not change what descends from what in the rest. */
  lemma {:induction false} DescendsKept(rank: Rank, pool: Pool, gone: set<TxId>, root: TxId, k: nat, d: TxId)
    requires Acyclic(rank, pool) && Acyclic(rank, pool - gone) && Closed(pool, gone) && d !in gone
    ensures Descends(rank, pool - gone, root, k, d) <==> Descends(rank, pool, root, k, d)
    decreases rank(d)
  {
    var kept := pool - gone;
    if d in pool {
      assert Later(rank, d, pool[d]);
      forall i | 0 <= i < |pool[d].vin| ensures Through(rank, kept, root, k, d, i) <==>
          Through(rank, pool, root, k, d, i) {
        var o := pool[d].vin[i];
        assert KeepsParent(pool, gone, o);
        if o.hash in pool && o.n < |pool[o.hash].vout| {
          DescendsKept(rank, pool, gone, root, k, o.hash);
        }
      }
    }
  }

  lemma DescendantsClosed(rank: Rank, pool: Pool, root: TxId, k: nat)
    requires Acyclic(rank, pool)
    ensures Closed(pool, Descendants(rank, pool, root, k))
  {
    var gone := Descendants(rank, pool, root, k);
    forall d, i | d in pool && d !in gone && 0 <= i < |pool[d].vin| ensures KeepsParent(pool, gone, pool[d].vin[i]) {
      assert !Through(rank, pool, root, k, d, i);
    }
  }

  /** Output k brings its spender and the descendants of that. */
  lemma {:induction false} NextOutput(rank: Rank, pool: Pool, next: Index, root: TxId, k: nat, c: TxId, d: TxId)
    requires Acyclic(rank, pool) && IndexOk(pool, next) && OutPoint(root, k) in next && next[OutPoint(root, k)].ptx == c
    ensures c in pool
    ensures Descends(rank, pool, root, k + 1, d) <==> Descends(rank, pool, root, k, d) || d == c
                                                      || Descends(rank, pool, c, |pool[c].vout|, d)
    decreases rank(d)
  {
    assert Through(rank, pool, root, k + 1, c, next[OutPoint(root, k)].n);
    if Descends(rank, pool, root, k, d) {
      DescendsMore(rank, pool, root, k, k + 1, d);
    }
    if Descends(rank, pool, c, |pool[c].vout|, d) {
      DescendsOn(rank, pool, root, k + 1, c, d);
    }
    if Descends(rank, pool, root, k + 1, d) {
      var i :| 0 <= i < |pool[d].vin| && Through(rank, pool, root, k + 1, d, i);
      var o := pool[d].vin[i];
      assert Later(rank, d, pool[d]);
      if o.hash == root && o.n < k + 1 {
        if o.n < k {
          assert Through(rank, pool, root, k, d, i);
        } else {
          assert o == OutPoint(root, k) && next[o] == InPoint(d, i);
        }
      } else {
        NextOutput(rank, pool, next, root, k, c, o.hash);
        assert Through(rank, pool, root, k, d, i) || Through(rank, pool, c, |pool[c].vout|, d, i);
      }
    }
  }

  lemma {:induction false} NoSpender(rank: Rank, pool: Pool, next: Index, root: TxId, k: nat, d: TxId)
    requires Acyclic(rank, pool) && IndexOk(pool, next) && OutPoint(root, k) !in next
    ensures Descends(rank, pool, root, k + 1, d) <==> Descends(rank, pool, root, k, d)
    decreases rank(d)
  {
    if Descends(rank, pool, root, k, d) {
      DescendsMore(rank, pool, root, k, k + 1, d);
    }
    if Descends(rank, pool, root, k + 1, d) {
      var i :| 0 <= i < |pool[d].vin| && Through(rank, pool, root, k + 1, d, i);
      var o := pool[d].vin[i];
      assert Later(rank, d, pool[d]) && o in next;
      if !(o.hash == root && o.n < k + 1) {
        NoSpender(rank, pool, next, root, k, o.hash);
      }
      assert Through(rank, pool, root, k, d, i);
    }
  }

  /** How far a recursive removal can still go. */
  ghost function Above(rank: Rank, pool: Pool, r: nat): set<TxId> { set h | h in pool && rank(h) > r }

  lemma AboveShrinks(rank: Rank, pool0: Pool, pool: Pool, r: nat, c: TxId)
    requires pool.Keys <= pool0.Keys && c in pool && rank(c) > r
    ensures |Above(rank, pool, rank(c))| < |Above(rank, pool0, r)|
  {
    var less := Above(rank, pool, rank(c));
    assert less <= Above(rank, pool0, r) - {c};
    SubsetSize(less, Above(rank, pool0, r) - {c});
  }

  function Inputs(tx: Tx, k: nat): set<OutPoint>
    requires k <= |tx.vin|
  {
    set i | 0 <= i < k :: tx.vin[i]
  }

  /** The index is determined by the transactions. */
  lemma IndexUnique(pool: Pool, a: Index, b: Index)
    requires IndexOk(pool, a) && IndexOk(pool, b)
    ensures a == b
  {
    forall o | o in a ensures o in b && b[o] == a[o] {
      assert pool[a[o].ptx].vin[a[o].n] in b;
    }
    forall o | o in b ensures o in a {
      assert pool[b[o].ptx].vin[b[o].n] in a;
    }
  }

  /** The entries of a transaction are those of its inputs. */
  lemma EntriesOf(pool: Pool, next: Index, h: TxId)
    requires IndexOk(pool, next) && h in pool
    ensures forall o | o in next :: next[o].ptx == h <==> o in Inputs(pool[h], |pool[h].vin|)
  {
    forall o | o in next && next[o].ptx == h ensures o in Inputs(pool[h], |pool[h].vin|) {
      assert pool[h].vin[next[o].n] == o;
    }
    forall o | o in Inputs(pool[h], |pool[h].vin|) ensures o in next && next[o].ptx == h {
      var j :| 0 <= j < |pool[h].vin| && pool[h].vin[j] == o;
      assert next[pool[h].vin[j]] == InPoint(h, j);
    }
  }

  lemma ErasedOk(pool: Pool, next: Index, h: TxId)
    requires IndexOk(pool, next) && h in pool
    ensures IndexOk(pool - {h}, next - Inputs(pool[h], |pool[h].vin|))
  {
    hide Inputs;
    EntriesOf(pool, next, h);
    var next' := next - Inputs(pool[h], |pool[h].vin|);
    forall g, i | g in pool - {h} && 0 <= i < |pool[g].vin| ensures pool[g].vin[i] in next'
        && next'[pool[g].vin[i]] == InPoint(g, i) {
      assert next[pool[g].vin[i]] == InPoint(g, i);
    }
  }

  lemma AddedOk(pool: Pool, next: Index, tx: Tx, next': Index)
    requires IndexOk(pool, next) && tx.id !in pool && Utxo.DistinctInputs(tx.vin)
    requires forall i | 0 <= i < |tx.vin| :: tx.vin[i] !in next
    requires forall o | o in next :: o in next' && next'[o] == next[o]
    requires forall j | 0 <= j < |tx.vin| :: tx.vin[j] in next' && next'[tx.vin[j]] == InPoint(tx.id, j)
    requires next'.Keys == next.Keys + Inputs(tx, |tx.vin|)
    ensures IndexOk(pool[tx.id := tx], next')
  {
    var pool' := pool[tx.id := tx];
    forall h, i | h in pool' && 0 <= i < |pool'[h].vin| ensures pool'[h].vin[i] in next'
        && next'[pool'[h].vin[i]] == InPoint(h, i) {
      if h != tx.id {
        assert next[pool[h].vin[i]] == InPoint(h, i);
      }
    }
    forall o | o in next' ensures next'[o].ptx in pool' && next'[o].n < |pool'[next'[o].ptx].vin|
        && pool'[next'[o].ptx].vin[next'[o].n] == o {
      if o !in next {
        var j :| 0 <= j < |tx.vin| && tx.vin[j] == o;
      }
    }
  }

  /** Removing the spender of output k with all its descendants, if it is still there, leaves what does not
      descend through the first k + 1 outputs. */
  lemma OutputDone(rank: Rank, pool0: Pool, next0: Index, next: Index, root: TxId, k: nat)
    requires Acyclic(rank, pool0) && IndexOk(pool0, next0)
    requires IndexOk(pool0 - Descendants(rank, pool0, root, k), next)
    ensures Acyclic(rank, pool0 - Descendants(rank, pool0, root, k))
    ensures var pool, o := pool0 - Descendants(rank, pool0, root, k), OutPoint(root, k);
            pool0 - Descendants(rank, pool0, root, k + 1) ==
            if o in next then pool - Descendants(rank, pool, next[o].ptx, |pool[next[o].ptx].vout|) - {next[o].ptx}
                else pool
  {
    var gone, o := Descendants(rank, pool0, root, k), OutPoint(root, k);
    var pool := pool0 - gone;
    AcyclicLess(rank, pool0, gone);
    DescendantsClosed(rank, pool0, root, k);
    if o in next {
      var c := next[o].ptx;
      assert pool0[c].vin[next[o].n] == o && next0[o] == InPoint(c, next[o].n);
      forall d | d in pool0 ensures d in Descendants(rank, pool0, root, k + 1)
          <==> d in gone || d == c || d in Descendants(rank, pool, c, |pool[c].vout|) {
        NextOutput(rank, pool0, next0, root, k, c, d);
        if d !in gone {
          DescendsKept(rank, pool0, gone, c, |pool0[c].vout|, d);
        }
      }
    } else if o in next0 {
      SpenderGone(rank, pool0, next0, next, root, k);
    } else {
      forall d | d in pool0 ensures d in Descendants(rank, pool0, root, k + 1) <==> d in gone {
        NoSpender(rank, pool0, next0, root, k, d);
      }
    }
  }

  lemma StillIndexed(pool: Pool, next: Index, c: TxId, n: nat)
    requires IndexOk(pool, next) && c in pool && n < |pool[c].vin|
    ensures pool[c].vin[n] in next
  {
    assert next[pool[c].vin[n]] == InPoint(c, n);
  }

  lemma SpenderGone(rank: Rank, pool0: Pool, next0: Index, next: Index, root: TxId, k: nat)
    requires Acyclic(rank, pool0) && IndexOk(pool0, next0) && IndexOk(pool0 - Descendants(rank, pool0, root, k), next)
    requires OutPoint(root, k) in next0 && OutPoint(root, k) !in next
    ensures Descendants(rank, pool0, root, k + 1) == Descendants(rank, pool0, root, k)
  {
    var c := next0[OutPoint(root, k)].ptx;
    var gone := Descendants(rank, pool0, root, k);
    if c !in gone {
      StillIndexed(pool0 - gone, next, c, next0[OutPoint(root, k)].n);
    }
    forall d | d in pool0 ensures d in Descendants(rank, pool0, root, k + 1) <==> d in gone {
      NextOutput(rank, pool0, next0, root, k, c, d);
      if Descends(rank, pool0, c, |pool0[c].vout|, d) {
        DescendsOn(rank, pool0, root, k, c, d);
      }
    }
  }

  /** What spends one of the first k inputs of tx although it is not tx, and what descends from that. */
  ghost predicate Conflicting(rank: Rank, pool: Pool, tx: Tx, k: nat, d: TxId)
    requires Acyclic(rank, pool) && k <= |tx.vin|
  {
    d in pool && exists c ::
                   c in pool && Spends(pool[c], tx, k) && (d == c || Descends(rank, pool, c, |pool[c].vout|, d))
  }

  ghost predicate Spends(other: Tx, tx: Tx, k: nat)
    requires k <= |tx.vin|
  {
    other != tx && exists i :: 0 <= i < k && tx.vin[i] in other.vin
  }

  ghost function Conflicts(rank: Rank, pool: Pool, tx: Tx, k: nat): set<TxId>
    requires Acyclic(rank, pool) && k <= |tx.vin|
  {
    set d | d in pool && Conflicting(rank, pool, tx, k, d)
  }

  lemma ConflictsClosed(rank: Rank, pool: Pool, tx: Tx, k: nat)
    requires Acyclic(rank, pool) && k <= |tx.vin|
    ensures Closed(pool, Conflicts(rank, pool, tx, k))
  {
    hide Descends, Through, Spends;
    var gone := Conflicts(rank, pool, tx, k);
    forall d, i | d in pool && 0 <= i < |pool[d].vin| && !KeepsParent(pool, gone, pool[d].vin[i]) ensures d in gone {
      var e := pool[d].vin[i].hash;
      var c :| c in pool && Spends(pool[c], tx, k) && (e == c || Descends(rank, pool, c, |pool[c].vout|, e));
      ChildDescends(rank, pool, c, e, d, i);
      assert Conflicting(rank, pool, tx, k, d);
    }
  }

  lemma ChildDescends(rank: Rank, pool: Pool, c: TxId, e: TxId, d: TxId, i: nat)
    requires Acyclic(rank, pool) && c in pool && e in pool && d in pool && i < |pool[d].vin|
    requires pool[d].vin[i].hash == e && pool[d].vin[i].n < |pool[e].vout|
        && (e == c || Descends(rank, pool, c, |pool[c].vout|, e))
    ensures Descends(rank, pool, c, |pool[c].vout|, d)
  {
    assert Through(rank, pool, c, |pool[c].vout|, d, i);
  }

  lemma ConflictDone(rank: Rank, pool0: Pool, next0: Index, next: Index, tx: Tx, k: nat)
    requires Acyclic(rank, pool0) && IndexOk(pool0, next0) && k < |tx.vin|
    requires IndexOk(pool0 - Conflicts(rank, pool0, tx, k), next)
    ensures Acyclic(rank, pool0 - Conflicts(rank, pool0, tx, k))
    ensures var pool, o := pool0 - Conflicts(rank, pool0, tx, k), tx.vin[k];
            pool0 - Conflicts(rank, pool0, tx, k + 1) ==
            if o in next && pool[next[o].ptx] != tx
                then pool - Descendants(rank, pool, next[o].ptx, |pool[next[o].ptx].vout|) - {next[o].ptx} else pool
  {
    hide Descends, Conflicting, Descendants, Conflicts;
    var gone, o := Conflicts(rank, pool0, tx, k), tx.vin[k];
    AcyclicLess(rank, pool0, gone);
    if o in next && (pool0 - gone)[next[o].ptx] != tx {
      ConflictRemoved(rank, pool0, next0, next, tx, k);
    } else {
      ConflictAbsent(rank, pool0, next0, next, tx, k);
    }
  }

  lemma ConflictRemoved(rank: Rank, pool0: Pool, next0: Index, next: Index, tx: Tx, k: nat)
    requires Acyclic(rank, pool0) && IndexOk(pool0, next0) && k < |tx.vin|
        && Acyclic(rank, pool0 - Conflicts(rank, pool0, tx, k))
    requires IndexOk(pool0 - Conflicts(rank, pool0, tx, k), next) && tx.vin[k] in next
    requires (pool0 - Conflicts(rank, pool0, tx, k))[next[tx.vin[k]].ptx] != tx
    ensures var pool, c := pool0 - Conflicts(rank, pool0, tx, k), next[tx.vin[k]].ptx;
            pool0 - Conflicts(rank, pool0, tx, k + 1) == pool - Descendants(rank, pool, c, |pool[c].vout|) - {c}
  {
    hide Descends, Conflicting, Spends;
    var gone, o := Conflicts(rank, pool0, tx, k), tx.vin[k];
    var pool, c := pool0 - gone, next[o].ptx;
    ConflictsClosed(rank, pool0, tx, k);
    forall d | d in pool0 ensures d in Conflicts(rank, pool0, tx, k + 1)
        <==> d in gone || d == c || d in Descendants(rank, pool, c, |pool[c].vout|) {
      if d !in gone {
        DescendsKept(rank, pool0, gone, c, |pool0[c].vout|, d);
      }
      NewConflict(rank, pool0, next0, tx, k, c, next[o].n, d);
    }
  }

  lemma ConflictAbsent(rank: Rank, pool0: Pool, next0: Index, next: Index, tx: Tx, k: nat)
    requires Acyclic(rank, pool0) && IndexOk(pool0, next0) && k < |tx.vin|
    requires var pool := pool0 - Conflicts(rank, pool0, tx, k);
             IndexOk(pool, next) && (tx.vin[k] in next ==> pool[next[tx.vin[k]].ptx] == tx)
    ensures pool0 - Conflicts(rank, pool0, tx, k + 1) == pool0 - Conflicts(rank, pool0, tx, k)
  {
    hide Conflicting, IndexOk;
    forall d | d in pool0 ensures d in Conflicts(rank, pool0, tx, k + 1) <==> d in Conflicts(rank, pool0, tx, k) {
      MoreConflicts(rank, pool0, tx, k, d);
      if Conflicting(rank, pool0, tx, k + 1, d) {
        NoNewConflict(rank, pool0, next0, next, tx, k, d);
      }
    }
  }

  lemma SpendersConflict(rank: Rank, pool: Pool, tx: Tx)
    requires Acyclic(rank, pool)
    ensures forall h | h in pool && Spends(pool[h], tx, |tx.vin|) :: h in Conflicts(rank, pool, tx, |tx.vin|)
  {
    forall h | h in pool && Spends(pool[h], tx, |tx.vin|) ensures Conflicting(rank, pool, tx, |tx.vin|, h) {
    }
  }

  lemma MoreConflicts(rank: Rank, pool: Pool, tx: Tx, k: nat, d: TxId)
    requires Acyclic(rank, pool) && k < |tx.vin|
    ensures Conflicting(rank, pool, tx, k, d) ==> Conflicting(rank, pool, tx, k + 1, d)
  {
    if Conflicting(rank, pool, tx, k, d) {
      var c :| c in pool && Spends(pool[c], tx, k) && (d == c || Descends(rank, pool, c, |pool[c].vout|, d));
      assert Spends(pool[c], tx, k + 1);
    }
  }

  /** Input k brings only its one spender. */
  lemma NewConflict(rank: Rank, pool: Pool, next: Index, tx: Tx, k: nat, c: TxId, n: nat, d: TxId)
    requires Acyclic(rank, pool) && IndexOk(pool, next) && k < |tx.vin|
    requires c in pool && pool[c] != tx && n < |pool[c].vin| && pool[c].vin[n] == tx.vin[k]
    ensures Conflicting(rank, pool, tx, k + 1, d)
        <==> d in pool && (Conflicting(rank, pool, tx, k, d) || d == c || Descends(rank, pool, c, |pool[c].vout|, d))
  {
    hide Descends, IndexOk;
    MoreConflicts(rank, pool, tx, k, d);
    assert Spends(pool[c], tx, k + 1);
    if Conflicting(rank, pool, tx, k + 1, d) {
      var e :| e in pool && Spends(pool[e], tx, k + 1) && (d == e || Descends(rank, pool, e, |pool[e].vout|, d));
      var i :| 0 <= i < k + 1 && tx.vin[i] in pool[e].vin;
      if i < k {
        assert Spends(pool[e], tx, k);
      } else {
        OneSpender(pool, next, e, c, tx.vin[k]);
      }
    }
  }

  lemma OneSpender(pool: Pool, next: Index, a: TxId, b: TxId, o: OutPoint)
    requires IndexOk(pool, next) && a in pool && b in pool && o in pool[a].vin && o in pool[b].vin
    ensures a == b && o in next && next[o].ptx == a
  {
    var i :| 0 <= i < |pool[a].vin| && pool[a].vin[i] == o;
    var j :| 0 <= j < |pool[b].vin| && pool[b].vin[j] == o;
    assert next[pool[a].vin[i]] == InPoint(a, i) && next[pool[b].vin[j]] == InPoint(b, j);
  }

  lemma NoNewConflict(rank: Rank, pool0: Pool, next0: Index, next: Index, tx: Tx, k: nat, d: TxId)
    requires Acyclic(rank, pool0) && IndexOk(pool0, next0) && k < |tx.vin|
    requires var pool := pool0 - Conflicts(rank, pool0, tx, k);
             IndexOk(pool, next) && (tx.vin[k] in next ==> pool[next[tx.vin[k]].ptx] == tx)
    requires Conflicting(rank, pool0, tx, k + 1, d)
    ensures Conflicting(rank, pool0, tx, k, d)
  {
    hide Descends, IndexOk;
    var pool := pool0 - Conflicts(rank, pool0, tx, k);
    var e :| e in pool0 && Spends(pool0[e], tx, k + 1) && (d == e || Descends(rank, pool0, e, |pool0[e].vout|, d));
    var i :| 0 <= i < k + 1 && tx.vin[i] in pool0[e].vin;
    if i < k {
      assert Spends(pool0[e], tx, k);
    } else if e in pool {
      OneSpender(pool, next, e, e, tx.vin[k]);
    } else {
      assert Conflicting(rank, pool0, tx, k, e);
      var c :| c in pool0 && Spends(pool0[c], tx, k) && (e == c || Descends(rank, pool0, c, |pool0[c].vout|, e));
      if e != c && d != e {
        DescendsOn(rank, pool0, c, |pool0[c].vout|, e, d);
      }
    }
  }

  // ---------------------------------------------------------------- the pool

  class CTxMemPool {
    var mapTx: Pool
    var mapNextTx: Index
    var nTransactionsUpdated: nat
    ghost const rank: Rank

    ghost predicate Valid()
      reads this`mapTx, this`mapNextTx
    {
      IndexOk(mapTx, mapNextTx) && Acyclic(rank, mapTx)
    }

    constructor (ghost rank: Rank)
      ensures Valid() && mapTx == map[] && this.rank == rank
    {
      mapTx, mapNextTx, nTransactionsUpdated := map[], map[], 0;
      this.rank := rank;
    }

    /** addUnchecked; accept has made sure of what it requires. */
    method AddUnchecked(tx: Tx)
      requires Valid() && Later(rank, tx.id, tx) && tx.id !in mapTx && Utxo.DistinctInputs(tx.vin)
      requires forall i | 0 <= i < |tx.vin| :: tx.vin[i] !in mapNextTx
      modifies this
      ensures Valid() && mapTx == old(mapTx)[tx.id := tx]
    {
      hide IndexOk;
      mapTx := mapTx[tx.id := tx];
      assert Inputs(tx, 0) == {};
      for i := 0 to |tx.vin|
        invariant mapTx == old(mapTx)[tx.id := tx] && mapNextTx.Keys == old(mapNextTx.Keys) + Inputs(tx, i)
        invariant forall o | o in old(mapNextTx) :: o in mapNextTx && mapNextTx[o] == old(mapNextTx)[o]
        invariant forall j | 0 <= j < i :: tx.vin[j] in mapNextTx && mapNextTx[tx.vin[j]] == InPoint(tx.id, j)
      {
        assert Inputs(tx, i + 1) == Inputs(tx, i) + {tx.vin[i]};
        mapNextTx := mapNextTx[tx.vin[i] := InPoint(tx.id, i)];
      }
      AddedOk(old(mapTx), old(mapNextTx), tx, mapNextTx);
      nTransactionsUpdated := nTransactionsUpdated + 1;
    }

    /** accept. `otherChecks` stands for everything that is asked of the transaction itself, of its inputs in
        the coin database, and of its fee. */
    method Accept(tx: Tx, otherChecks: bool) returns (ok: bool)
      requires Valid() && Later(rank, tx.id, tx)
      modifies this
      ensures Valid()
      ensures ok <==> Utxo.CheckTransaction(tx) && !tx.IsCoinBase() && tx.id !in old(mapTx) && otherChecks
                      && forall i | 0 <= i < |tx.vin| :: tx.vin[i] !in old(mapNextTx)
      ensures mapTx == if ok then old(mapTx)[tx.id := tx] else old(mapTx)
    {
      ok := false;
      if !Utxo.CheckTransaction(tx) {
        return;
      }
      if tx.IsCoinBase() {
        return;
      }
      if tx.id in mapTx {
        return;
      }
      for i := 0 to |tx.vin|
        invariant forall j | 0 <= j < i :: tx.vin[j] !in mapNextTx
      {
        if tx.vin[i] in mapNextTx {
          return;
        }
      }
      if !otherChecks {
        return;
      }
      AddUnchecked(tx);
      ok := true;
    }

    /** remove: the transaction goes and, if `fRecursive`, exactly its descendants go with it, whether or not
        it is in the pool itself. */
    method Remove(tx: Tx, fRecursive: bool)
      requires Valid() && Later(rank, tx.id, tx) && (tx.id in mapTx ==> mapTx[tx.id] == tx)
      modifies this
      ensures Valid()
      ensures mapTx == old(mapTx) - (if fRecursive then Descendants(rank, old(mapTx), tx.id, |tx.vout|)
          else {}) - {tx.id}
      decreases |Above(rank, mapTx, rank(tx.id))|
    {
      ghost var pool0, next0 := mapTx, mapNextTx;
      if fRecursive {
        NoOutputs(rank, pool0, tx.id);
        for i := 0 to |tx.vout|
          invariant Valid() && mapTx == pool0 - Descendants(rank, pool0, tx.id, i)
        {
          OutputDone(rank, pool0, next0, mapNextTx, tx.id, i);
          if OutPoint(tx.id, i) in mapNextTx {
            var child := mapTx[mapNextTx[OutPoint(tx.id, i)].ptx];
            ChildRank(child.id, OutPoint(tx.id, i));
            AboveShrinks(rank, pool0, mapTx, rank(tx.id), child.id);
            Remove(child, true);
          }
        }
      }
      Erase(tx);
    }

    lemma ChildRank(c: TxId, o: OutPoint)
      requires Valid() && o in mapNextTx && mapNextTx[o].ptx == c
      ensures c in mapTx && mapTx[c].id == c && rank(o.hash) < rank(c) && Later(rank, c, mapTx[c])
    {
    }

    /** The end of remove. */
    method Erase(tx: Tx)
      requires Valid() && (tx.id in mapTx ==> mapTx[tx.id] == tx)
      modifies this
      ensures Valid() && mapTx == old(mapTx) - {tx.id}
    {
      hide IndexOk, Acyclic;
      if tx.id !in mapTx {
        assert mapTx == mapTx - {tx.id};
        return;
      }
      ErasedOk(mapTx, mapNextTx, tx.id);
      AcyclicLess(rank, mapTx, {tx.id});
      assert Inputs(tx, 0) == {};
      for i := 0 to |tx.vin|
        invariant mapTx == old(mapTx) && mapNextTx == old(mapNextTx) - Inputs(tx, i)
      {
        assert Inputs(tx, i + 1) == Inputs(tx, i) + {tx.vin[i]};
        mapNextTx := mapNextTx - {tx.vin[i]};
      }
      mapTx := mapTx - {tx.id};
      nTransactionsUpdated := nTransactionsUpdated + 1;
    }

    /** removeConflicts: exactly the other spenders of the inputs of tx go, and their descendants. */
    method RemoveConflicts(tx: Tx)
      requires Valid()
      modifies this
      ensures Valid() && mapTx == old(mapTx) - Conflicts(rank, old(mapTx), tx, |tx.vin|)
      ensures forall h | h in mapTx :: !Spends(mapTx[h], tx, |tx.vin|)
    {
      ghost var pool0, next0 := mapTx, mapNextTx;
      NoConflicts(rank, pool0, tx);
      for i := 0 to |tx.vin|
        invariant Valid() && mapTx == pool0 - Conflicts(rank, pool0, tx, i)
      {
        ConflictDone(rank, pool0, next0, mapNextTx, tx, i);
        if tx.vin[i] in mapNextTx {
          var txConflict := mapTx[mapNextTx[tx.vin[i]].ptx];
          if txConflict != tx {
            ChildRank(txConflict.id, tx.vin[i]);
            Remove(txConflict, true);
          }
        }
      }
      SpendersConflict(rank, pool0, tx);
    }

    /** pruneSpent: the outputs that a pooled transaction spends are taken off the record. */
    method PruneSpent(hashTx: TxId, coins0: CoinRecord) returns (coins: CoinRecord)
      ensures forall n: nat :: coins.IsAvailable(n) <==> coins0.IsAvailable(n) && OutPoint(hashTx, n) !in mapNextTx
      ensures forall n: nat :: coins.IsAvailable(n) ==> coins0.IsAvailable(n) && coins.vout[n] == coins0.vout[n]
    {
      coins := coins0;
      var left := set o | o in mapNextTx.Keys && o.hash == hashTx;
      while left != {}
        invariant forall o | o in left :: o in mapNextTx && o.hash == hashTx
        invariant forall n: nat ::
                    coins.IsAvailable(n) <==> coins0.IsAvailable(n)
                                              && (OutPoint(hashTx, n) !in mapNextTx || OutPoint(hashTx, n) in left)
        invariant forall n: nat :: coins.IsAvailable(n) ==> coins0.IsAvailable(n) && coins.vout[n] == coins0.vout[n]
        decreases left
      {
        var o :| o in left;
        ghost var before := coins;
        var ok, undo;
        ok, coins, undo := Spend(coins, o.n);
        SpentOnly(before, o.n, coins);
        left := left - {o};
      }
    }
  }

  lemma SpentOnly(c: CoinRecord, n: nat, left: CoinRecord)
    requires if c.IsAvailable(n) then left == SpendResult(c, n).0 else left == c
    ensures forall m: nat :: left.IsAvailable(m) <==> c.IsAvailable(m) && m != n
    ensures forall m: nat :: left.IsAvailable(m) ==> c.IsAvailable(m) && left.vout[m] == c.vout[m]
  {
    if c.IsAvailable(n) {
      var w := c.vout[n := NULL_OUT];
      forall m: nat ensures left.IsAvailable(m) <==> m < |w| && !w[m].IsNull() {
        assert m < |left.vout| ==> left.vout[m] == w[m];
      }
      forall m: nat | left.IsAvailable(m) ensures left.vout[m] == w[m] {
      }
    }
  }

  lemma NoOutputs(rank: Rank, pool: Pool, root: TxId)
    requires Acyclic(rank, pool)
    ensures pool - Descendants(rank, pool, root, 0) == pool
  {
    forall d | d in pool ensures !Descends(rank, pool, root, 0, d) {
      if Descends(rank, pool, root, 0, d) {
        NobodyThroughNothing(rank, pool, root, d);
      }
    }
  }

  lemma {:induction false} NobodyThroughNothing(rank: Rank, pool: Pool, root: TxId, d: TxId)
    requires Acyclic(rank, pool)
    ensures !Descends(rank, pool, root, 0, d)
    decreases rank(d)
  {
    if d in pool {
      forall i | 0 <= i < |pool[d].vin| ensures !Through(rank, pool, root, 0, d, i) {
        assert Later(rank, d, pool[d]);
        NobodyThroughNothing(rank, pool, root, pool[d].vin[i].hash);
      }
    }
  }

  lemma NoConflicts(rank: Rank, pool: Pool, tx: Tx)
    requires Acyclic(rank, pool)
    ensures pool - Conflicts(rank, pool, tx, 0) == pool
  {
  }
}
