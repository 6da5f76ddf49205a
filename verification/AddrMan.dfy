/** CAddrMan: the operations that move addresses between the tables. Random choices are
    nondeterministic, so what is proved holds for every outcome. */
module AddrMan {
  import opened Common
  import opened AddrTables

  /** CAddress. */
  datatype Address = Address(service: Service, nServices: set<nat>, nTime: int)

  /** CAddrInfo::IsTerrible. */
  predicate IsTerrible(e: AddrInfo, nNow: int) {
    !(e.nLastTry != 0 && e.nLastTry >= nNow - 60) &&
    (e.nTime > nNow + 600 || e.nTime == 0 || nNow - e.nTime > 30 * 86400 ||
     (e.nLastSuccess == 0 && e.nAttempts >= 3) ||
     (nNow - e.nLastSuccess > 7 * 86400 && e.nAttempts >= 10))
  }

  /** The order in which std::set<int> and the keys of std::map<int, ..> are visited. */
  predicate Ascending(s: seq<int>) { forall i, j | 0 <= i < j < |s| :: s[i] < s[j] }

  method Sorted(ids: set<int>) returns (s: seq<int>)
    ensures Ascending(s) && |s| == |ids| && forall n :: n in s <==> n in ids
  {
    s := [];
    var rest := ids;
    while rest != {}
      invariant rest <= ids && Ascending(s) && |s| + |rest| == |ids|
      invariant forall n :: n in s <==> n in ids - rest
      invariant forall i, n | 0 <= i < |s| && n in rest :: s[i] < n
    {
      HasLeast(rest);
      var n :| n in rest && forall m | m in rest :: n <= m;
      s := s + [n];
      rest := rest - {n};
    }
  }

  lemma {:induction false} HasLeast(ids: set<int>)
    requires ids != {}
    ensures exists n :: n in ids && forall m | m in ids :: n <= m
    decreases |ids|
  {
    var k := AnyMember(ids);
    if ids != {k} {
      HasLeast(ids - {k});
      var l :| l in ids - {k} && forall m | m in ids - {k} :: l <= m;
      var n := if k < l then k else l;
      assert forall m | m in ids :: m == k || m in ids - {k};
      assert n in ids && forall m | m in ids :: n <= m;
    }
  }

  /** `nId` is promoted, and `nOld` demoted if it is another, tried entry. */
  function AfterMakeTried(info: InfoMap, nId: int, nOld: int): InfoMap
    requires nId in info
  {
    var promoted := info[nId := Promoted(info[nId])];
    if nOld in info && nOld != nId && info[nOld].fInTried then promoted[nOld := Demoted(info[nOld])] else promoted
  }

  // ---------------------------------------------------------------- the shuffle of SelectTried

  /** Round i draws a place from i on. */
  predicate DrawsOk(n: nat, draws: seq<nat>) { |draws| <= n && forall i | 0 <= i < |draws| :: i <= draws[i] < n }

  /** Every round exchanges its place with the one drawn. */
  function Shuffled(v: seq<int>, draws: seq<nat>): (r: seq<int>)
    requires DrawsOk(|v|, draws)
    ensures |r| == |v|
  {
    if draws == [] then v
    else
      var k := |draws| - 1;
      var w := Shuffled(v, draws[..k]);
      w[draws[k] := w[k]][k := w[draws[k]]]
  }

  lemma ShuffleOnce(v: seq<int>, draws: seq<nat>, nPos: nat)
    requires DrawsOk(|v|, draws) && |draws| <= nPos < |v|
    ensures DrawsOk(|v|, draws + [nPos])
    ensures var (w, k) := (Shuffled(v, draws), |draws|);
            Shuffled(v, draws + [nPos]) == w[nPos := w[k]][k := w[nPos]]
  {
    assert (draws + [nPos])[..|draws|] == draws;
  }

  /** Among the first m entries that at w is the first one with the oldest success. */
  predicate OldestInspected(info: InfoMap, v: seq<int>, m: nat, w: nat) {
    && w < m <= |v| && (forall j | 0 <= j < m :: v[j] in info)
    && (forall j | 0 <= j < m :: info[v[w]].nLastSuccess <= info[v[j]].nLastSuccess)
    && (forall j | 0 <= j < w :: info[v[w]].nLastSuccess < info[v[j]].nLastSuccess)
  }

  lemma {:induction false} ShuffledDistinct(v: seq<int>, draws: seq<nat>)
    requires DrawsOk(|v|, draws) && Distinct(v)
    ensures Distinct(Shuffled(v, draws))
  {
    if draws != [] {
      var k := |draws| - 1;
      ShuffledDistinct(v, draws[..k]);
      var s, d := Shuffled(v, draws[..k]), draws[k];
      var r := Shuffled(v, draws);
      assert forall i | 0 <= i < |v| :: r[i] == s[if i == k then d else if i == d then k else i];
    }
  }

  /** For every bucket and all draws: at the place that round w drew stands the entry that it inspected if and
      only if it drew its own place. */
  lemma SelectedIsOldest(v: seq<int>, draws: seq<nat>, w: nat)
    requires DrawsOk(|v|, draws) && Distinct(v) && w < |draws|
    ensures Shuffled(v, draws)[draws[w]] == Shuffled(v, draws)[w] <==> draws[w] == w
  {
    ShuffledDistinct(v, draws);
    var r := Shuffled(v, draws);
    if draws[w] != w {
      assert r[draws[w]] != r[w];
    }
  }

  /** Two entries, the second one older, which the first round draws: the position returned is that of the other
      one, so the younger entry is sent back. */
  lemma YoungerSelected(info: InfoMap, a: int, b: int)
    requires a != b && a in info && b in info && info[b].nLastSuccess < info[a].nLastSuccess
    ensures DrawsOk(2, [1, 1]) && OldestInspected(info, Shuffled([a, b], [1, 1]), 2, 0)
    ensures Shuffled([a, b], [1, 1])[0] == b && Shuffled([a, b], [1, 1])[[1, 1][0]] == a
  {
    ShuffleOnce([a, b], [], 1);
    ShuffleOnce([a, b], [1], 1);
    assert [] + [1] == [1] && [1] + [1] == [1, 1];
    assert Shuffled([a, b], []) == [a, b] && Shuffled([a, b], [1]) == [b, a] && Shuffled([a, b], [1, 1]) == [b, a];
  }

  lemma NoDraws(v: seq<int>)
    ensures DrawsOk(|v|, []) && Shuffled(v, []) == v
  {
  }

  lemma DrawIs(n: nat, draws: seq<nat>, w: nat)
    requires DrawsOk(n, draws) && w < |draws|
    ensures draws[w] < n
  {
  }

  /** One round: the entry drawn comes to place i, where no later round touches it. */
  lemma InspectNext(info: InfoMap, v: seq<int>, i: nat, w: nat, nPos: nat)
    requires i <= nPos < |v| && v[nPos] in info && (i > 0 ==> OldestInspected(info, v, i, w))
    ensures var v' := v[nPos := v[i]][i := v[nPos]];
            if i == 0 || info[v[nPos]].nLastSuccess < info[v[w]].nLastSuccess then OldestInspected(info, v', i + 1, i)
            else OldestInspected(info, v', i + 1, w) && v'[w] == v[w]
  {
    var v' := v[nPos := v[i]][i := v[nPos]];
    assert forall j | 0 <= j < i :: v'[j] == v[j];
    assert v'[i] == v[nPos];
  }

  lemma BucketParts(h: BucketHash, nKey: seq<nat>, info: InfoMap, vvTried: seq<seq<int>>, k: nat)
    requires TriedOk(h, nKey, info, vvTried) && k < |vvTried|
    ensures BucketOk(h, nKey, info, vvTried[k], k) && Distinct(vvTried[k])
  {
  }

  lemma BucketEntry(h: BucketHash, nKey: seq<nat>, info: InfoMap, bucket: seq<int>, k: nat, i: nat)
    requires BucketOk(h, nKey, info, bucket, k) && i < |bucket|
    ensures bucket[i] in info
  {
    var n := bucket[i];
    assert n in bucket;
  }

  lemma FourAtMost(a: int, b: int, c: int, d: int)
    ensures |{a, b, c, d}| <= 4
  {
    assert {a, b, c, d} == {a} + {b} + {c} + {d};
  }

  class AddrMan {
    const hash: BucketHash
    const isRoutable: NetAddr -> bool
    var nKey: seq<nat>
    var nIdCount: int
    var mapInfo: InfoMap
    var mapAddr: AddrMap
    var vRandom: seq<int>
    var nTried: int
    var vvTried: seq<seq<int>>
    var nNew: int
    var vvNew: seq<set<int>>

    ghost predicate Tables(pending: set<int>)
      reads this
    {
      nIdCount >= 0 && Consistent(hash, nKey, mapInfo, mapAddr, vvTried, vvNew, nTried, nNew, nIdCount, pending)
    }

    ghost predicate Valid()
      reads this
    {
      Tables({}) && RandomOk(mapInfo, vRandom)
    }

    constructor (hash: BucketHash, isRoutable: NetAddr -> bool, nKey: seq<nat>)
      ensures Valid() && mapInfo == map[] && this.nKey == nKey
    {
      this.hash, this.isRoutable, this.nKey := hash, isRoutable, nKey;
      nIdCount, mapInfo, mapAddr, vRandom, nTried, nNew := 0, map[], map[], [], 0, 0;
      vvTried := seq(TRIED_BUCKET_COUNT, _ => []);
      vvNew := seq(NEW_BUCKET_COUNT, _ => {});
    }

    /** The number of addresses in all tables. */
    method Size() returns (n: nat)
      requires Valid()
      ensures n == |mapInfo| && n <= TRIED_BUCKET_COUNT * TRIED_BUCKET_SIZE + NEW_BUCKET_COUNT * NEW_BUCKET_SIZE
    {
      RandomSize(mapInfo, vRandom);
      SizeBound(hash, nKey, mapInfo, vvTried, vvNew);
      n := |vRandom|;
    }

    /** Find: the entry with this network address, whatever its port. */
    method Find(ip: NetAddr) returns (found: bool, nId: int)
      requires AddrOk(mapInfo, mapAddr)
      ensures found <==> ip in mapAddr
      ensures found ==> nId == mapAddr[ip] && nId in mapInfo
    {
      if ip !in mapAddr {
        return false, -1;
      }
      nId := mapAddr[ip];
      found := nId in mapInfo;
    }

    /** SwapRandom. */
    method SwapRandom(p1: nat, p2: nat)
      requires RandomOk(mapInfo, vRandom) && p1 < |vRandom| && p2 < |vRandom|
      modifies this`mapInfo, this`vRandom
      ensures RandomOk(mapInfo, vRandom) && SameCore(mapInfo, old(mapInfo))
      ensures vRandom == old(vRandom)[p1 := old(vRandom)[p2]][p2 := old(vRandom)[p1]]
    {
      if p1 == p2 {
        return;
      }
      var nId1, nId2 := vRandom[p1], vRandom[p2];
      mapInfo := mapInfo[nId1 := mapInfo[nId1].(nRandomPos := p2)];
      mapInfo := mapInfo[nId2 := mapInfo[nId2].(nRandomPos := p1)];
      vRandom := vRandom[p1 := nId2];
      vRandom := vRandom[p2 := nId1];
    }

    /** Deleting an entry: the last place of vRandom takes over its place. */
    method Drop(nId: int)
      requires RandomOk(mapInfo, vRandom) && nId in mapInfo
      modifies this`mapInfo, this`mapAddr, this`vRandom, this`nNew
      ensures RandomOk(mapInfo, vRandom) && SameCore(old(mapInfo) - {nId}, mapInfo)
      ensures mapAddr == old(mapAddr) - {old(mapInfo)[nId].addr.ip} && nNew == old(nNew) - 1
    {
      ghost var was := mapInfo;
      SwapRandom(mapInfo[nId].nRandomPos, |vRandom| - 1);
      assert Core(mapInfo[nId]) == Core(was[nId]);
      assert vRandom[|vRandom| - 1] == nId;
      vRandom := vRandom[..|vRandom| - 1];
      mapAddr := mapAddr - {mapInfo[nId].addr.ip};
      mapInfo := mapInfo - {nId};
      nNew := nNew - 1;
    }

    /** Taking a reference away, and the entry with its last one; the code both halves of ShrinkNew share. */
    method Release(nUBucket: nat, nId: int, ghost pending: set<int>)
      requires Tables(pending) && RandomOk(mapInfo, vRandom)
      requires nUBucket < |vvNew| && nId in vvNew[nUBucket] && nId !in pending
      modifies this`mapInfo, this`mapAddr, this`vRandom, this`nNew, this`vvNew
      ensures Tables(pending) && RandomOk(mapInfo, vRandom)
      ensures nId in old(mapInfo) && SameCore(EvictedInfo(old(mapInfo), nId), mapInfo)
      ensures vvNew == old(vvNew)[nUBucket := old(vvNew)[nUBucket] - {nId}]
    {
      hide Consistent, AddrOk, Count;
      EvictKeeps(hash, nKey, mapInfo, mapAddr, vvTried, vvNew, nTried, nNew, nIdCount, pending, nUBucket, nId);
      ghost var goal := EvictedInfo(mapInfo, nId);
      mapInfo := mapInfo[nId := mapInfo[nId].(nRefCount := mapInfo[nId].nRefCount - 1)];
      if mapInfo[nId].nRefCount == 0 {
        ghost var was := mapInfo;
        Drop(nId);
        assert was - {nId} == goal;
      }
      vvNew := vvNew[nUBucket := vvNew[nUBucket] - {nId}];
      CoreKeeps(hash, nKey, goal, mapInfo, mapAddr, vvTried, vvNew, nTried, nNew, nIdCount, pending);
    }

    /** ShrinkNew: one id `n` leaves the bucket, the first terrible one (result 0) or else, of at most four ids
        `drawn` at random, one that was heard of longest ago (result 1). */
    method ShrinkNew(nUBucket: nat, nNow: int, ghost pending: set<int>) returns (r: int, ghost n: int,
        ghost drawn: set<int>)
      requires Tables(pending) && RandomOk(mapInfo, vRandom)
      requires nUBucket < |vvNew| && vvNew[nUBucket] != {} && vvNew[nUBucket] !! pending
      modifies this`mapInfo, this`mapAddr, this`vRandom, this`nNew, this`vvNew
      ensures Tables(pending) && RandomOk(mapInfo, vRandom)
      ensures forall m | m in old(vvNew)[nUBucket] :: m in old(mapInfo)
      ensures n in old(vvNew)[nUBucket] && n in old(mapInfo) && (r == 0 || r == 1)
      ensures vvNew == old(vvNew)[nUBucket := old(vvNew)[nUBucket] - {n}]
          && SameCore(EvictedInfo(old(mapInfo), n), mapInfo)
      ensures r == 0 ==>
                && IsTerrible(old(mapInfo)[n], nNow)
                && forall m | m in old(vvNew)[nUBucket] && m < n :: !IsTerrible(old(mapInfo)[m], nNow)
      ensures r == 1 ==>
                && (forall m | m in old(vvNew)[nUBucket] :: !IsTerrible(old(mapInfo)[m], nNow))
                && n in drawn && drawn <= old(vvNew)[nUBucket] && |drawn| <= 4
                && forall m | m in drawn :: old(mapInfo)[n].nTime <= old(mapInfo)[m].nTime
    {
      hide Consistent, RandomOk, EvictedInfo, SameCore;
      BucketKnown(nUBucket, pending);
      var vNew := Sorted(vvNew[nUBucket]);
      assert forall m | m in vvNew[nUBucket] :: m in vNew;
      drawn := {};
      var i := 0;
      while i < |vNew|
        invariant 0 <= i <= |vNew|
        invariant forall j | 0 <= j < i :: !IsTerrible(mapInfo[vNew[j]], nNow)
      {
        assert vNew[i] in vNew;
        if IsTerrible(mapInfo[vNew[i]], nNow) {
          n := vNew[i];
          Release(nUBucket, vNew[i], pending);
          return 0, n, drawn;
        }
        i := i + 1;
      }
      var nOldest;
      nOldest, drawn := OldestOfFour(vNew);
      forall m | m in drawn ensures m in vvNew[nUBucket] {
        assert m in vNew;
      }
      n := nOldest;
      Release(nUBucket, nOldest, pending);
      r := 1;
    }

    lemma BucketKnown(b: nat, pending: set<int>)
      requires Tables(pending) && b < |vvNew|
      ensures forall m | m in vvNew[b] :: m in mapInfo && m >= 0
    {
    }

    /** The second half of ShrinkNew draws four positions and keeps the entry with the smallest time. */
    method OldestOfFour(vNew: seq<int>) returns (nOldest: int, ghost drawn: set<int>)
      requires vNew != [] && forall n | n in vNew :: n in mapInfo && n >= 0
      ensures nOldest in drawn && |drawn| <= 4 && forall n | n in drawn :: n in vNew
      ensures forall n | n in drawn :: mapInfo[nOldest].nTime <= mapInfo[n].nTime
    {
      var a: nat :| a < |vNew|;
      var b: nat :| b < |vNew|;
      var c: nat :| c < |vNew|;
      var d: nat :| d < |vNew|;
      nOldest := -1;
      for nI := 0 to |vNew|
        invariant nOldest == -1 || OldestSoFar(vNew, a, b, c, d, nI, nOldest)
        invariant nOldest == -1 ==> a >= nI && b >= nI && c >= nI && d >= nI
      {
        if nI == a || nI == b || nI == c || nI == d {
          var nId := vNew[nI];
          assert nId in vNew;
          if nOldest == -1 || mapInfo[vNew[nI]].nTime < mapInfo[nOldest].nTime {
            nOldest := vNew[nI];
          }
        }
      }
      drawn := {vNew[a], vNew[b], vNew[c], vNew[d]};
      FourAtMost(vNew[a], vNew[b], vNew[c], vNew[d]);
    }

    /** Of the drawn positions before nI, that of `nOldest` has the smallest time. */
    ghost predicate OldestSoFar(vNew: seq<int>, a: nat, b: nat, c: nat, d: nat, nI: nat, nOldest: int)
      reads this`mapInfo
      requires a < |vNew| && b < |vNew| && c < |vNew| && d < |vNew| && forall n | n in vNew :: n in mapInfo
    {
      && ((a < nI && nOldest == vNew[a]) || (b < nI && nOldest == vNew[b]) || (c < nI && nOldest == vNew[c])
          || (d < nI && nOldest == vNew[d]))
      && (a < nI ==> mapInfo[nOldest].nTime <= mapInfo[vNew[a]].nTime)
          && (b < nI ==> mapInfo[nOldest].nTime <= mapInfo[vNew[b]].nTime)
      && (c < nI ==> mapInfo[nOldest].nTime <= mapInfo[vNew[c]].nTime)
          && (d < nI ==> mapInfo[nOldest].nTime <= mapInfo[vNew[d]].nTime)
    }

    /** SelectTried: shuffles the first places of the bucket and returns a position in it. The entry that was found
        to be the oldest of those inspected is the one now at place `w`; the position returned is the one it was
        drawn from, so it is that entry's exactly if its round drew its own place. */
    method SelectTried(nKBucket: nat) returns (nOldestPos: nat, ghost draws: seq<nat>, ghost w: nat)
      requires TriedOk(hash, nKey, mapInfo, vvTried) && StatsOk(mapInfo, nIdCount)
      requires nKBucket < |vvTried| && vvTried[nKBucket] != []
      modifies this`vvTried
      ensures TriedOk(hash, nKey, mapInfo, vvTried)
      ensures |vvTried| == |old(vvTried)| && nOldestPos < |vvTried[nKBucket]|
      ensures forall k | 0 <= k < |vvTried| && k != nKBucket :: vvTried[k] == old(vvTried)[k]
      ensures |vvTried[nKBucket]| == |old(vvTried)[nKBucket]|
          && Elements(vvTried[nKBucket]) == Elements(old(vvTried)[nKBucket])
      ensures DrawsOk(|old(vvTried)[nKBucket]|, draws) && vvTried[nKBucket] == Shuffled(old(vvTried)[nKBucket], draws)
      ensures |draws| == Min(TRIED_ENTRIES_INSPECT_ON_EVICT, |old(vvTried)[nKBucket]|)
      ensures OldestInspected(mapInfo, vvTried[nKBucket], |draws|, w) && nOldestPos == draws[w]
      ensures vvTried[nKBucket][nOldestPos] == vvTried[nKBucket][w] <==> draws[w] == w
    {
      hide TriedOk, BucketOk, Shuffled, OldestInspected, DrawsOk;
      var vTried := vvTried[nKBucket];
      ghost var v0 := vTried;
      BucketParts(hash, nKey, mapInfo, vvTried, nKBucket);
      NoDraws(v0);
      var nOldest: int, pos: int := -1, -1;
      draws, w := [], 0;
      for i := 0 to TRIED_ENTRIES_INSPECT_ON_EVICT
        invariant vvTried == old(vvTried) && BucketOk(hash, nKey, mapInfo, vTried, nKBucket)
        invariant |vTried| == |v0| && Elements(vTried) == Elements(v0)
        invariant i <= |v0| && |draws| == i && DrawsOk(|v0|, draws) && vTried == Shuffled(v0, draws)
        invariant i == 0 ==> nOldest == -1
        invariant i > 0 ==> OldestInspected(mapInfo, vTried, i, w) && w < i && pos == draws[w]
        invariant i > 0 ==> nOldest == vTried[w] && nOldest in mapInfo
      {
        if i >= |vTried| {
          break;
        }
        var nPos: nat :| i <= nPos < |vTried|;
        var nTemp := vTried[nPos];
        BucketEntry(hash, nKey, mapInfo, vTried, nKBucket, nPos);
        SwapInBucket(hash, nKey, mapInfo, vTried, nKBucket, i, nPos);
        InspectNext(mapInfo, vTried, i, w, nPos);
        ShuffleOnce(v0, draws, nPos);
        vTried := vTried[nPos := vTried[i]][i := nTemp];
        draws := draws + [nPos];
        assert nOldest != -1 || i == 0;
        if nOldest == -1 || mapInfo[nTemp].nLastSuccess < mapInfo[nOldest].nLastSuccess {
          nOldest := nTemp;
          pos := nPos;
          w := i;
        }
      }
      DrawIs(|v0|, draws, w);
      SelectedIsOldest(v0, draws, w);
      ShuffledOk(hash, nKey, mapInfo, vvTried, nKBucket, vTried);
      vvTried := vvTried[nKBucket := vTried];
      nOldestPos := pos;
    }

    /** The loop of MakeTried that takes the entry out of every new bucket. */
    method LeaveNewBuckets(nId: int)
      requires NewOk(mapInfo, vvNew, {}) && nId in mapInfo && !mapInfo[nId].fInTried
      modifies this`mapInfo, this`vvNew
      ensures vvNew == RemoveEverywhere(old(vvNew), nId)
      ensures mapInfo == old(mapInfo)[nId := old(mapInfo)[nId].(nRefCount := 0)]
    {
      hide NewOk, Count;
      ghost var was, vv0 := mapInfo[nId], vvNew;
      RefCountIs(mapInfo, vvNew, nId);
      assert vv0[..0] == [];
      CountNone(vv0[..0], nId);
      var nRefCount := mapInfo[nId].nRefCount;
      for b := 0 to |vvNew|
        invariant |vvNew| == |vv0| && mapInfo == old(mapInfo)
        invariant forall c | 0 <= c < b :: vvNew[c] == vv0[c] - {nId}
        invariant forall c | b <= c < |vvNew| :: vvNew[c] == vv0[c]
        invariant nRefCount == was.nRefCount - Count(vv0[..b], nId)
      {
        CountPrefix(vv0, b, nId);
        if nId in vvNew[b] {
          vvNew := vvNew[b := vvNew[b] - {nId}];
          nRefCount := nRefCount - 1;
        }
      }
      mapInfo := mapInfo[nId := mapInfo[nId].(nRefCount := nRefCount)];
      assert vv0[..|vvNew|] == vv0;
      assert mapInfo[nId].nRefCount == 0;
    }

    /** MakeTried when the tried bucket has room. */
    method PlaceInBucket(nId: int, nKBucket: nat, ghost info0: InfoMap, ghost vvNew0: seq<set<int>>)
      requires Consistent(hash, nKey, info0, mapAddr, vvTried, vvNew0, nTried, nNew + 1, nIdCount, {})
      requires nId in info0 && !info0[nId].fInTried && info0[nId].nLastSuccess > 0
      requires mapInfo == info0[nId := info0[nId].(nRefCount := 0)] && vvNew == RemoveEverywhere(vvNew0, nId)
      requires nKBucket == TriedBucket(hash, nKey, info0[nId].addr) && nKBucket < |vvTried|
          && |vvTried[nKBucket]| < TRIED_BUCKET_SIZE
      modifies this`mapInfo, this`vvTried, this`nTried
      ensures Consistent(hash, nKey, mapInfo, mapAddr, vvTried, vvNew, nTried, nNew, nIdCount, {})
      ensures mapInfo == info0[nId := Promoted(info0[nId])] && nTried == old(nTried) + 1
    {
      hide Consistent;
      PromoteKeeps(hash, nKey, info0, mapAddr, vvTried, vvNew0, nTried, nNew + 1, nIdCount, nId);
      vvTried := vvTried[nKBucket := vvTried[nKBucket] + [nId]];
      nTried := nTried + 1;
      mapInfo := mapInfo[nId := mapInfo[nId].(fInTried := true)];
      assert mapInfo == info0[nId := Promoted(info0[nId])];
    }

    /** MakeTried when the tried bucket is full: one of its entries goes back to a new bucket, for
        which there is always room: if not in its own one, then in the one `nId` came from. */
    method ReplaceInBucket(nId: int, nOrigin: nat, nKBucket: nat, ghost info0: InfoMap, ghost vvNew0: seq<set<int>>)
      returns (ghost nOld: int)
      requires Consistent(hash, nKey, info0, mapAddr, vvTried, vvNew0, nTried, nNew + 1, nIdCount, {})
      requires nId in info0 && !info0[nId].fInTried && info0[nId].nLastSuccess > 0
      requires mapInfo == info0[nId := info0[nId].(nRefCount := 0)] && vvNew == RemoveEverywhere(vvNew0, nId)
      requires nKBucket == TriedBucket(hash, nKey, info0[nId].addr) && nKBucket < |vvTried|
          && |vvTried[nKBucket]| >= TRIED_BUCKET_SIZE
      requires nOrigin < |vvNew0| && nId in vvNew0[nOrigin] && nOrigin < NEW_BUCKET_COUNT
          && |vvNew0| == NEW_BUCKET_COUNT
      requires |vvNew0[nOrigin]| <= NEW_BUCKET_SIZE
      modifies this`mapInfo, this`vvNew, this`vvTried, this`nNew
      ensures Consistent(hash, nKey, mapInfo, mapAddr, vvTried, vvNew, nTried, nNew, nIdCount, {})
      ensures nOld in info0 && nOld != nId && info0[nOld].fInTried
      ensures mapInfo == info0[nId := Promoted(info0[nId])][nOld := Demoted(info0[nOld])] && nNew == old(nNew) + 1
    {
      hide Consistent, TriedOk, NewOk, StatsOk;
      var nPos := PickVictim(nId, nKBucket, info0, vvNew0);
      var o := vvTried[nKBucket][nPos];
      nOld := o;
      var nUBucket := NewBucket(hash, nKey, mapInfo[o].addr, mapInfo[o].source);
      mapInfo := mapInfo[o := mapInfo[o].(fInTried := false, nRefCount := 1)];
      if |vvNew[nUBucket]| >= NEW_BUCKET_SIZE {
        nUBucket := nOrigin;
        ShrinksByOne(vvNew0[nOrigin], nId);
      }
      ReplaceKeeps(hash, nKey, info0, mapAddr, vvTried, vvNew0, nTried, nNew + 1, nIdCount, nId, nPos, nUBucket);
      vvNew := vvNew[nUBucket := vvNew[nUBucket] + {o}];
      nNew := nNew + 1;
      vvTried := vvTried[nKBucket := vvTried[nKBucket][nPos := nId]];
      mapInfo := mapInfo[nId := mapInfo[nId].(fInTried := true)];
      TwoUpdates(info0, nId, o, mapInfo);
    }

    /** The entry to be sent back, chosen while the new buckets are already without `nId`. */
    method PickVictim(nId: int, nKBucket: nat, ghost info0: InfoMap, ghost vvNew0: seq<set<int>>) returns (nPos: nat)
      requires Consistent(hash, nKey, info0, mapAddr, vvTried, vvNew0, nTried, nNew + 1, nIdCount, {})
      requires nId in info0 && !info0[nId].fInTried && mapInfo == info0[nId := info0[nId].(nRefCount := 0)]
      requires nKBucket == TriedBucket(hash, nKey, info0[nId].addr) && nKBucket < |vvTried| && vvTried[nKBucket] != []
      modifies this`vvTried
      ensures Consistent(hash, nKey, info0, mapAddr, vvTried, vvNew0, nTried, nNew + 1, nIdCount, {})
      ensures |vvTried| == |old(vvTried)| && nPos < |vvTried[nKBucket]|
      ensures var o := vvTried[nKBucket][nPos]; o in info0 && info0[o].fInTried && o != nId
    {
      hide Consistent, TriedOk, NewOk, StatsOk;
      ConsistentParts(hash, nKey, info0, mapAddr, vvTried, vvNew0, nTried, nNew + 1, nIdCount);
      TriedSame(hash, nKey, info0, mapInfo, vvTried);
      StatsSame(info0, mapInfo, nIdCount);
      ghost var vvTried0 := vvTried;
      ghost var draws, w;
      nPos, draws, w := SelectTried(nKBucket);
      TriedSame(hash, nKey, mapInfo, info0, vvTried);
      Reshuffled(hash, nKey, info0, mapAddr, vvTried0, vvTried, vvNew0, nTried, nNew + 1, nIdCount);
      ReplacedTried(hash, nKey, info0, vvTried, nId, nPos);
    }

    /** MakeTried: afterwards the entry is tried, and at most one other one has become new again. */
    method MakeTried(nId: int, nOrigin: nat) returns (ghost nOld: int)
      requires Valid() && nId in mapInfo && !mapInfo[nId].fInTried && mapInfo[nId].nLastSuccess > 0
      requires nOrigin < |vvNew| && nId in vvNew[nOrigin]
      modifies this`mapInfo, this`vvNew, this`vvTried, this`nNew, this`nTried
      ensures Valid() && mapInfo.Keys == old(mapInfo.Keys)
      ensures mapInfo == AfterMakeTried(old(mapInfo), nId, nOld)
      ensures nTried + nNew == old(nTried + nNew)
    {
      hide Consistent, TriedOk, NewOk, StatsOk, RandomOk;
      ConsistentParts(hash, nKey, mapInfo, mapAddr, vvTried, vvNew, nTried, nNew, nIdCount);
      BucketShapes(hash, nKey, mapInfo, vvTried, vvNew);
      var nKBucket := TriedBucket(hash, nKey, mapInfo[nId].addr);
      ghost var info0, vvNew0 := mapInfo, vvNew;
      LeaveNewBuckets(nId);
      nNew := nNew - 1;
      nOld := nId;
      if |vvTried[nKBucket]| < TRIED_BUCKET_SIZE {
        PlaceInBucket(nId, nKBucket, info0, vvNew0);
      } else {
        nOld := ReplaceInBucket(nId, nOrigin, nKBucket, info0, vvNew0);
      }
      RandomSame(info0, mapInfo, vRandom);
    }

    /** The search of Good_ for a bucket the entry is in, from a random start. */
    method FindNewBucket(nId: int) returns (nUBucket: nat)
      requires NewOk(mapInfo, vvNew, {}) && nId in mapInfo && !mapInfo[nId].fInTried
      ensures nUBucket < |vvNew| && nId in vvNew[nUBucket]
    {
      RefCountIs(mapInfo, vvNew, nId);
      assert RefOk(mapInfo[nId], Count(vvNew, nId) + if nId in {} then 1 else 0);
      ghost var some := CountSome(vvNew, nId);
      var nRnd: nat :| nRnd < |vvNew|;
      for n := 0 to |vvNew|
        invariant forall b | 0 <= b < |vvNew| && RoundsTo(b, nRnd, |vvNew|) < n :: nId !in vvNew[b]
      {
        nUBucket := (n + nRnd) % |vvNew|;
        assert nUBucket == if n + nRnd < |vvNew| then n + nRnd else n + nRnd - |vvNew|;
        if nId in vvNew[nUBucket] {
          return;
        }
      }
      assert false;
    }

    ghost predicate Knows(service: Service)
      reads this
    {
      service.ip in mapAddr && mapAddr[service.ip] in mapInfo && mapInfo[mapAddr[service.ip]].addr == service
    }

    /** Good_: an address that answered is tried from now on. No entry is lost; at most one tried entry,
        `nOld`, goes back among the new ones. */
    method Good(service: Service, nTime: int) returns (ghost nOld: int)
      requires Valid() && nTime > 0
      modifies this
      ensures Valid() && mapInfo.Keys == old(mapInfo.Keys) && mapAddr == old(mapAddr) && nKey == old(nKey)
      ensures !old(Knows(service)) ==> mapInfo == old(mapInfo) && vvTried == old(vvTried) && vvNew == old(vvNew)
      ensures old(Knows(service)) ==>
                var n := mapAddr[service.ip];
                var e := old(mapInfo)[n].(nLastSuccess := nTime, nLastTry := nTime, nTime := nTime, nAttempts := 0);
                mapInfo[n].fInTried &&
                mapInfo == if e.fInTried then old(mapInfo)[n := e] else AfterMakeTried(old(mapInfo)[n := e], n, nOld)
    {
      hide Consistent, RandomOk, TriedOk, NewOk, StatsOk, AddrOk;
      ConsistentParts(hash, nKey, mapInfo, mapAddr, vvTried, vvNew, nTried, nNew, nIdCount);
      nOld := -1;
      var found, nId := Find(service.ip);
      if !found {
        return;
      }
      if mapInfo[nId].addr != service {
        return;
      }
      var e := mapInfo[nId].(nLastSuccess := nTime, nLastTry := nTime, nTime := nTime, nAttempts := 0);
      UpdateStats(nId, e);
      if e.fInTried {
        return;
      }
      ConsistentParts(hash, nKey, mapInfo, mapAddr, vvTried, vvNew, nTried, nNew, nIdCount);
      var nUBucket := FindNewBucket(nId);
      nOld := MakeTried(nId, nUBucket);
    }

    /** New statistics for an entry. */
    method UpdateStats(nId: int, e: AddrInfo)
      requires Valid() && nId in mapInfo
      requires e.addr == mapInfo[nId].addr && e.fInTried == mapInfo[nId].fInTried
          && e.nRefCount == mapInfo[nId].nRefCount
      requires e.nRandomPos == mapInfo[nId].nRandomPos
      requires e.nLastTry >= 0 && e.nLastSuccess >= 0 && (e.fInTried ==> e.nLastSuccess != 0)
      modifies this`mapInfo
      ensures Valid() && mapInfo == old(mapInfo)[nId := e]
    {
      hide Consistent, RandomOk;
      StatsKeep(hash, nKey, mapInfo, mapAddr, vvTried, vvNew, nTried, nNew, nIdCount, nId, e);
      RandomSame(mapInfo, mapInfo[nId := e], vRandom);
      mapInfo := mapInfo[nId := e];
    }

    /** Attempt_. */
    method Attempt(service: Service, nTime: nat)
      requires Valid()
      modifies this`mapInfo
      ensures Valid()
      ensures mapInfo == if old(Knows(service)) then
                           var n := mapAddr[service.ip];
                           old(mapInfo)[n := old(mapInfo)[n].(nLastTry := nTime,
                               nAttempts := old(mapInfo)[n].nAttempts + 1)]
                         else old(mapInfo)
    {
      var found, nId := Find(service.ip);
      if !found {
        return;
      }
      if mapInfo[nId].addr != service {
        return;
      }
      UpdateStats(nId, mapInfo[nId].(nLastTry := nTime, nAttempts := mapInfo[nId].nAttempts + 1));
    }

    /** Connected_: the time is not updated more often than every twenty minutes. */
    method Connected(service: Service, nTime: int)
      requires Valid()
      modifies this`mapInfo
      ensures Valid()
      ensures mapInfo == if old(Knows(service)) && nTime - old(mapInfo)[mapAddr[service.ip]].nTime > 20 * 60 then
                           var n := mapAddr[service.ip];
                           old(mapInfo)[n := old(mapInfo)[n].(nTime := nTime)]
                         else old(mapInfo)
    {
      var found, nId := Find(service.ip);
      if !found {
        return;
      }
      if mapInfo[nId].addr != service {
        return;
      }
      if nTime - mapInfo[nId].nTime > 20 * 60 {
        UpdateStats(nId, mapInfo[nId].(nTime := nTime));
      }
    }

    /** Create, together with the count and the first reference Add_ gives the new entry. */
    method Create(addr: Address, source: NetAddr, nTimePenalty: int) returns (nId: int)
      requires Valid() && addr.service.ip !in mapAddr
      modifies this
      ensures Tables({nId}) && RandomOk(mapInfo, vRandom)
      ensures nId !in old(mapInfo) && mapInfo.Keys == old(mapInfo.Keys) + {nId}
          && forall n | n in old(mapInfo) :: mapInfo[n] == old(mapInfo)[n]
      ensures Core(mapInfo[nId]) == Fresh(addr, source, nTimePenalty)
      ensures vvNew == old(vvNew) && nKey == old(nKey) && forall b | 0 <= b < |vvNew| :: nId !in vvNew[b]
      ensures addr.service.ip in mapAddr && mapAddr[addr.service.ip] == nId
    {
      hide Consistent, RandomOk, TriedOk, NewOk, StatsOk, AddrOk;
      ConsistentParts(hash, nKey, mapInfo, mapAddr, vvTried, vvNew, nTried, nNew, nIdCount);
      nId := nIdCount;
      var e := AddrInfo(addr.service, addr.nServices, Max(0, addr.nTime - nTimePenalty), source, 0, 0, 0, 1, false,
          |vRandom|);
      CreateKeeps(hash, nKey, mapInfo, mapAddr, vvTried, vvNew, nTried, nNew, nIdCount, e);
      RandomAppend(mapInfo, vRandom, nId, e);
      NotInBuckets(mapInfo, vvNew, nId);
      nIdCount := nIdCount + 1;
      mapInfo := mapInfo[nId := e];
      mapAddr := mapAddr[addr.service.ip := nId];
      vRandom := vRandom + [nId];
      nNew := nNew + 1;
    }

    /** The part of Add_ for an address that is known already; `go` says whether it gets one more bucket. */
    method Refresh(nId: int, addr: Address, nTimePenalty: int, nNow: int) returns (go: bool)
      requires Valid() && nId in mapInfo
      modifies this`mapInfo
      ensures Valid() && mapInfo.Keys == old(mapInfo.Keys)
      ensures mapInfo == old(mapInfo)[nId := Refreshed(old(mapInfo)[nId], addr, nTimePenalty, nNow)]
      ensures go ==> !mapInfo[nId].fInTried && mapInfo[nId].nRefCount < NEW_BUCKETS_PER_ADDRESS
    {
      hide Consistent, RandomOk;
      var e := mapInfo[nId];
      ghost var was := e;
      var nUpdateInterval := if nNow - addr.nTime < 24 * 60 * 60 then 60 * 60 else 24 * 60 * 60;
      if addr.nTime != 0 && (e.nTime == 0 || e.nTime < addr.nTime - nUpdateInterval - nTimePenalty) {
        e := e.(nTime := Max(0, addr.nTime - nTimePenalty));
      }
      e := e.(nServices := e.nServices + addr.nServices);
      EntryStats(nId);
      UpdateStats(nId, e);
      assert e == Refreshed(was, addr, nTimePenalty, nNow);
      if addr.nTime == 0 || (e.nTime != 0 && addr.nTime <= e.nTime) {
        return false;
      }
      if e.fInTried {
        return false;
      }
      EntryRefCount(nId);
      if e.nRefCount == NEW_BUCKETS_PER_ADDRESS {
        return false;
      }
      var nFactor := Pow2(e.nRefCount);
      var nRnd: nat :| nRnd < nFactor;
      go := !(nFactor > 1 && nRnd != 0);
    }

    lemma EntryStats(nId: int)
      requires Valid() && nId in mapInfo
      ensures mapInfo[nId].nLastTry >= 0 && mapInfo[nId].nLastSuccess >= 0
          && (mapInfo[nId].fInTried ==> mapInfo[nId].nLastSuccess != 0)
    {
    }

    lemma EntryRefCount(nId: int)
      requires Valid() && nId in mapInfo
      ensures 0 <= mapInfo[nId].nRefCount <= NEW_BUCKETS_PER_ADDRESS
    {
      assert RefOk(mapInfo[nId], Count(vvNew, nId) + if nId in {} then 1 else 0);
    }

    /** Add_: a routable address is known afterwards, with `refs` references, and what was heard of it is
        in its entry. At most one other entry loses a reference for it. */
    method Add(addr: Address, source: NetAddr, nTimePenalty: int, nNow: int) returns (fNew: bool, ghost lost: int,
        ghost refs: int)
      requires Valid()
      modifies this
      ensures Valid() && nKey == old(nKey)
      ensures fNew <==> isRoutable(addr.service.ip) && addr.service.ip !in old(mapAddr)
      ensures !isRoutable(addr.service.ip) ==> mapInfo == old(mapInfo) && vvNew == old(vvNew)
      ensures isRoutable(addr.service.ip) ==> addr.service.ip in mapAddr
      ensures isRoutable(addr.service.ip) ==>
                var was := Learned(old(mapInfo), old(mapAddr), addr, source, nTimePenalty, nNow);
                && (refs == was.nRefCount || (!fNew && refs == was.nRefCount + 1))
                && OnlyNewLost(old(mapInfo)[mapAddr[addr.service.ip] := was.(nRefCount := refs)], mapInfo, lost)
    {
      hide Consistent, RandomOk, AddrOk, TriedOk, NewOk, StatsOk, EvictedInfo, OnlyNewLost;
      ConsistentParts(hash, nKey, mapInfo, mapAddr, vvTried, vvNew, nTried, nNew, nIdCount);
      lost, fNew, refs := -1, false, 0;
      if !isRoutable(addr.service.ip) {
        return;
      }
      ghost var was := Learned(mapInfo, mapAddr, addr, source, nTimePenalty, nNow);
      var found, nId := Find(addr.service.ip);
      if found {
        var go := Refresh(nId, addr, nTimePenalty, nNow);
        refs := mapInfo[nId].nRefCount;
        NoNegativeId({});
        NothingLost(old(mapInfo)[nId := was], mapInfo);
        if !go {
          return;
        }
      } else {
        nId := Create(addr, source, nTimePenalty);
        fNew, refs := true, 1;
      }
      AddressOf(nId, if fNew then {nId} else {});
      var nUBucket := NewBucket(hash, nKey, mapInfo[nId].addr, source);
      if !fNew {
        if nId in vvNew[nUBucket] {
          return;
        }
        AddReference(nId);
        refs := refs + 1;
      }
      ghost var info1 := mapInfo;
      lost := PutInBucket(nId, nUBucket, nNow);
      AddressOf(nId, {});
      AddressKept(info1, mapInfo, lost, nId);
      LostSince(old(mapInfo)[nId := was.(nRefCount := refs)], info1, mapInfo, lost);
    }

    /** One more reference for an entry that is about to go into one more bucket. */
    method AddReference(nId: int)
      requires Valid() && nId in mapInfo && !mapInfo[nId].fInTried && mapInfo[nId].nRefCount < NEW_BUCKETS_PER_ADDRESS
      modifies this`mapInfo
      ensures Tables({nId}) && RandomOk(mapInfo, vRandom)
      ensures mapInfo == old(mapInfo)[nId := old(mapInfo)[nId].(nRefCount := old(mapInfo)[nId].nRefCount + 1)]
    {
      hide Consistent, RandomOk;
      PendKeeps(hash, nKey, mapInfo, mapAddr, vvTried, vvNew, nTried, nNew, nIdCount, nId);
      ghost var was := mapInfo;
      mapInfo := mapInfo[nId := mapInfo[nId].(nRefCount := mapInfo[nId].nRefCount + 1)];
      RandomSame(was, mapInfo, vRandom);
    }

    /** The end of Add_: the entry goes into the bucket, after another one has made room if it is full. */
    method PutInBucket(nId: int, nUBucket: nat, nNow: int) returns (ghost lost: int)
      requires Tables({nId}) && RandomOk(mapInfo, vRandom) && nId in mapInfo && !mapInfo[nId].fInTried
      requires nUBucket < |vvNew| && nId !in vvNew[nUBucket]
      modifies this`mapInfo, this`mapAddr, this`vRandom, this`nNew, this`vvNew
      ensures Valid() && nId in mapInfo && OnlyNewLost(old(mapInfo), mapInfo, lost)
    {
      hide Consistent, RandomOk, OnlyNewLost;
      lost := MakeRoom(nId, nUBucket, nNow);
      InsertKeeps(hash, nKey, mapInfo, mapAddr, vvTried, vvNew, nTried, nNew, nIdCount, nUBucket, nId);
      vvNew := vvNew[nUBucket := vvNew[nUBucket] + {nId}];
    }

    method MakeRoom(nId: int, nUBucket: nat, nNow: int) returns (ghost lost: int)
      requires Tables({nId}) && RandomOk(mapInfo, vRandom) && nId in mapInfo && !mapInfo[nId].fInTried
      requires nUBucket < |vvNew| && nId !in vvNew[nUBucket]
      modifies this`mapInfo, this`mapAddr, this`vRandom, this`nNew, this`vvNew
      ensures Tables({nId}) && RandomOk(mapInfo, vRandom)
      ensures nUBucket < |vvNew| && nId !in vvNew[nUBucket] && |vvNew[nUBucket]| < NEW_BUCKET_SIZE
      ensures nId in mapInfo && OnlyNewLost(old(mapInfo), mapInfo, lost)
    {
      hide Consistent, RandomOk;
      BucketSize(nUBucket, {nId});
      NoNegativeId({nId});
      lost := -1;
      if |vvNew[nUBucket]| == NEW_BUCKET_SIZE {
        ghost var info0, vvNew0 := mapInfo, vvNew;
        var r;
        ghost var drawn;
        r, lost, drawn := ShrinkNew(nUBucket, nNow, {nId});
        EvictedNew(info0, vvNew0, nUBucket, lost, {nId}, mapInfo);
        ShrinksByOne(vvNew0[nUBucket], lost);
      }
    }

    lemma NoNegativeId(pending: set<int>)
      requires Tables(pending)
      ensures -1 !in mapInfo
    {
    }

    lemma BucketSize(b: nat, pending: set<int>)
      requires Tables(pending) && b < |vvNew|
      ensures NewOk(mapInfo, vvNew, pending) && |vvNew[b]| <= NEW_BUCKET_SIZE
    {
    }

    lemma AddressOf(nId: int, pending: set<int>)
      requires Tables(pending) && nId in mapInfo
      ensures mapInfo[nId].addr.ip in mapAddr && mapAddr[mapInfo[nId].addr.ip] == nId
    {
    }

    /** The loop of GetAddr_: a partial shuffle of vRandom, copying out every place it has settled. */
    method Sample(nNodes: nat) returns (vAddr: seq<Address>)
      requires RandomOk(mapInfo, vRandom) && nNodes <= |vRandom|
      modifies this`mapInfo, this`vRandom
      ensures RandomOk(mapInfo, vRandom) && SameCore(old(mapInfo), mapInfo)
          && |vAddr| == nNodes <= |vRandom| == |old(vRandom)|
      ensures forall i | 0 <= i < nNodes :: vAddr[i] == AddressIn(mapInfo, vRandom[i])
    {
      hide Core;
      vAddr := [];
      for n := 0 to nNodes
        invariant RandomOk(mapInfo, vRandom) && SameCore(old(mapInfo), mapInfo) && |vRandom| == |old(vRandom)|
        invariant |vAddr| == n && forall i | 0 <= i < n :: vAddr[i] == AddressIn(mapInfo, vRandom[i])
      {
        var nRndPos: nat :| n <= nRndPos < |vRandom|;
        ghost var info0 := mapInfo;
        SwapRandom(n, nRndPos);
        SameAddresses(mapInfo, info0);
        vAddr := vAddr + [AddressIn(mapInfo, vRandom[n])];
      }
    }

    /** GetAddr_: a random sample of 23 per cent of the addresses, at most 2500, without repetition. */
    method GetAddr() returns (vAddr: seq<Address>)
      requires Valid()
      modifies this`mapInfo, this`vRandom
      ensures Valid() && SameCore(old(mapInfo), mapInfo)
      ensures |vAddr| == if 23 * |mapInfo| / 100 > 2500 then 2500 else 23 * |mapInfo| / 100
      ensures forall i | 0 <= i < |vAddr| ::
                vAddr[i].service.ip in mapAddr && vAddr[i] == AddressIn(mapInfo, mapAddr[vAddr[i].service.ip])
      ensures forall i, j | 0 <= i < j < |vAddr| :: vAddr[i].service.ip != vAddr[j].service.ip
    {
      hide Consistent, AddrOk, RandomOk, SameCore;
      RandomSize(mapInfo, vRandom);
      var nNodes := 23 * |vRandom| / 100;
      if nNodes > 2500 {
        nNodes := 2500;
      }
      vAddr := Sample(nNodes);
      CoreKeeps(hash, nKey, old(mapInfo), mapInfo, mapAddr, vvTried, vvNew, nTried, nNew, nIdCount, {});
      RandomSize(mapInfo, vRandom);
      SampleDistinct(vAddr);
    }

    lemma SampleDistinct(vAddr: seq<Address>)
      requires Valid() && |vAddr| <= |vRandom|
          && forall i | 0 <= i < |vAddr| :: vAddr[i] == AddressIn(mapInfo, vRandom[i])
      ensures forall i | 0 <= i < |vAddr| ::
                vAddr[i].service.ip in mapAddr && mapAddr[vAddr[i].service.ip] == vRandom[i]
      ensures forall i, j | 0 <= i < j < |vAddr| :: vAddr[i].service.ip != vAddr[j].service.ip
    {
      hide TriedOk, NewOk, StatsOk, CountsOk;
    }

    // ---------------------------------------------------------------- Check_

    predicate EntryPasses(n: int)
      reads this
      requires n in mapInfo
    {
      var e := mapInfo[n];
      && (if e.fInTried then e.nLastSuccess != 0 && e.nRefCount == 0 else 0 < e.nRefCount <= NEW_BUCKETS_PER_ADDRESS)
      && (if e.addr.ip in mapAddr then mapAddr[e.addr.ip] else 0) == n
      && 0 <= e.nRandomPos < |vRandom| && vRandom[e.nRandomPos] == n
      && e.nLastTry >= 0 && e.nLastSuccess >= 0
    }

    /** Everything Check_ looks at. */
    ghost predicate Sound()
      reads this
    {
      && |vRandom| == nTried + nNew
      && (forall n | n in mapInfo :: EntryPasses(n))
      && CountsOk(mapInfo, nTried, nNew)
      && (forall n :: Listings(vvTried, n) == if n in TriedIds(mapInfo) then 1 else 0)
      && (forall n :: Count(vvNew, n) == if n in NewIds(mapInfo) then mapInfo[n].nRefCount else 0)
    }

    /** Every operation keeps Valid, so Check_ never finds a fault. */
    lemma ValidIsSound()
      requires Valid()
      ensures Sound()
    {
      RandomSize(mapInfo, vRandom);
      forall n | n in mapInfo ensures EntryPasses(n) {
        assert RefOk(mapInfo[n], Count(vvNew, n) + if n in {} then 1 else 0);
      }
      forall n ensures Listings(vvTried, n) == if n in TriedIds(mapInfo) then 1 else 0 {
        TriedListings(hash, nKey, mapInfo, vvTried, |vvTried|, n);
        assert vvTried[..|vvTried|] == vvTried;
      }
      forall n ensures Count(vvNew, n) == if n in NewIds(mapInfo) then mapInfo[n].nRefCount else 0 {
        if n in mapInfo {
          assert RefOk(mapInfo[n], Count(vvNew, n) + if n in {} then 1 else 0);
        } else {
          CountNone(vvNew, n);
        }
      }
    }

    /** The first loop of Check_, which also collects the tried ids and the counts of the new ones. */
    method CheckEntries() returns (ok: bool, setTried: set<int>, mapNew: map<int, int>)
      ensures ok <==> forall n | n in mapInfo :: EntryPasses(n)
      ensures ok ==> setTried == TriedIds(mapInfo) && mapNew.Keys == NewIds(mapInfo)
      ensures ok ==> forall n | n in mapNew :: mapNew[n] == mapInfo[n].nRefCount
    {
      hide EntryPasses;
      setTried, mapNew := {}, map[];
      var ids := Sorted(mapInfo.Keys);
      for i := 0 to |ids|
        invariant forall j | 0 <= j < i :: ids[j] in mapInfo && EntryPasses(ids[j])
        invariant forall n :: n in setTried <==> n in ids[..i] && mapInfo[n].fInTried
        invariant forall n :: n in mapNew <==> n in ids[..i] && !mapInfo[n].fInTried
        invariant forall n | n in mapNew :: mapNew[n] == mapInfo[n].nRefCount
      {
        var n := ids[i];
        assert n in ids;
        if !EntryPasses(n) {
          return false, {}, map[];
        }
        assert ids[..i + 1] == ids[..i] + [n];
        if mapInfo[n].fInTried {
          setTried := setTried + {n};
        } else {
          mapNew := mapNew[n := mapInfo[n].nRefCount];
        }
      }
      assert ids[..|ids|] == ids;
      forall n | n in mapInfo ensures n in ids && EntryPasses(n) {
        assert n in ids;
        var j :| 0 <= j < |ids| && ids[j] == n;
      }
      forall n ensures n in setTried <==> n in TriedIds(mapInfo) {
        assert n in mapInfo <==> n in ids;
      }
      forall n ensures n in mapNew.Keys <==> n in NewIds(mapInfo) {
        assert n in mapInfo <==> n in ids;
      }
      ok := true;
    }

    /** The loop of Check_ over the tried buckets: every listing uses up its id. */
    method CheckTried(setTried: set<int>) returns (ok: bool)
      ensures ok <==> forall n :: Listings(vvTried, n) == if n in setTried then 1 else 0
    {
      hide Listings;
      var rest := setTried;
      NoListings(setTried);
      for k := 0 to |vvTried|
        invariant rest <= setTried && UsedUp(vvTried, setTried, rest, k, [])
      {
        var vTried := vvTried[k];
        for i := 0 to |vTried|
          invariant rest <= setTried && UsedUp(vvTried, setTried, rest, k, vTried[..i])
        {
          if vTried[i] !in rest {
            ListedAgain(vvTried, setTried, rest, k, i);
            return false;
          }
          assert vTried[..i + 1] == vTried[..i] + [vTried[i]];
          rest := rest - {vTried[i]};
        }
        assert vTried[..|vTried|] == vTried;
        BucketDone(vvTried, setTried, rest, k);
      }
      assert vvTried[..|vvTried|] == vvTried;
      ok := rest == {};
      AllUsedUp(vvTried, setTried, rest);
    }

    /** The loop of Check_ over the new buckets: every listing uses up one reference. */
    method CheckNew(mapNew: map<int, int>) returns (ok: bool)
      requires forall n | n in mapNew :: mapNew[n] > 0
      ensures ok <==> forall n :: Count(vvNew, n) == if n in mapNew then mapNew[n] else 0
    {
      hide Count, Remaining;
      var rest := mapNew;
      NoneListed(vvNew, mapNew);
      for b := 0 to |vvNew|
        invariant Remaining(vvNew, mapNew, rest, b, [])
      {
        var vNew := Sorted(vvNew[b]);
        for i := 0 to |vNew|
          invariant Remaining(vvNew, mapNew, rest, b, vNew[..i])
        {
          if vNew[i] !in rest {
            TooMany(vvNew, mapNew, rest, b, vNew, i);
            return false;
          }
          ghost var before := rest;
          rest := rest[vNew[i] := rest[vNew[i]] - 1];
          if rest[vNew[i]] == 0 {
            rest := rest - {vNew[i]};
          }
          OneLess(vvNew, mapNew, before, rest, b, vNew, i);
        }
        assert vNew[..|vNew|] == vNew;
        NextBucket(vvNew, mapNew, rest, b, vNew);
      }
      ok := rest == map[];
      AllCounted(vvNew, mapNew, rest);
    }

    /** Check_: it finds no fault exactly when all it looks at is in order. */
    method Check() returns (ok: bool)
      ensures ok <==> Sound()
    {
      hide EntryPasses, Listings, Count;
      if |vRandom| != nTried + nNew {
        return false;
      }
      var setTried, mapNew;
      ok, setTried, mapNew := CheckEntries();
      if !ok {
        return;
      }
      assert |mapNew| == |mapNew.Keys|;
      if |setTried| != nTried || |mapNew| != nNew {
        return false;
      }
      PassedCounts(mapNew);
      var okTried := CheckTried(setTried);
      var okNew := CheckNew(mapNew);
      ok := okTried && okNew;
    }

    lemma PassedCounts(mapNew: map<int, int>)
      requires forall n | n in mapInfo :: EntryPasses(n)
      requires mapNew.Keys == NewIds(mapInfo) && forall n | n in mapNew :: mapNew[n] == mapInfo[n].nRefCount
      ensures forall n | n in mapNew :: mapNew[n] > 0
    {
      forall n | n in mapNew ensures mapNew[n] > 0 {
        assert EntryPasses(n);
      }
    }
  }

  /** How often the buckets list the id. */
  function Listings(vv: seq<seq<int>>, n: int): nat {
    if vv == [] then 0 else Listings(vv[..|vv| - 1], n) + multiset(vv[|vv| - 1])[n]
  }

  lemma {:induction false} ListingsPrefix(vv: seq<seq<int>>, k: nat, n: int)
    requires k < |vv|
    ensures Listings(vv[..k + 1], n) == Listings(vv[..k], n) + multiset(vv[k])[n] <= Listings(vv, n)
  {
    assert vv[..k + 1][..k] == vv[..k];
    if k < |vv| - 1 {
      assert vv[..|vv| - 1][..k] == vv[..k] && vv[..|vv| - 1][..k + 1] == vv[..k + 1];
      ListingsPrefix(vv[..|vv| - 1], k, n);
    } else {
      assert vv[..k + 1] == vv;
    }
  }

  lemma {:induction false} DistinctOnce(s: seq<int>, n: int)
    requires Distinct(s)
    ensures multiset(s)[n] == if n in s then 1 else 0
  {
    if s != [] {
      var k := |s| - 1;
      assert s == s[..k] + [s[k]];
      DistinctOnce(s[..k], n);
    }
  }

  /** In the first k tried buckets an id is listed once, if it is a tried one whose bucket is among them. */
  lemma {:induction false} TriedListings(h: BucketHash, nKey: seq<nat>, info: InfoMap, vvTried: seq<seq<int>>, k: nat,
      n: int)
    requires TriedOk(h, nKey, info, vvTried) && k <= |vvTried|
    ensures Listings(vvTried[..k], n) == if n in info && info[n].fInTried
        && TriedBucket(h, nKey, info[n].addr) < k then 1 else 0
  {
    if k > 0 {
      TriedListings(h, nKey, info, vvTried, k - 1, n);
      ListingsPrefix(vvTried, k - 1, n);
      assert BucketOk(h, nKey, info, vvTried[k - 1], k - 1);
      DistinctOnce(vvTried[k - 1], n);
    }
  }

  /** After k buckets and the ids in `done`, `rest` is what is left of `all`, and nothing came twice. */
  ghost predicate UsedUp(vv: seq<seq<int>>, all: set<int>, rest: set<int>, k: nat, done: seq<int>)
    requires k <= |vv|
  {
    forall n :: Listings(vv[..k], n) + multiset(done)[n] == if n in all && n !in rest then 1 else 0
  }

  lemma NoListings(all: set<int>)
    ensures forall vv :: UsedUp(vv, all, all, 0, [])
  {
  }

  lemma ListedAgain(vv: seq<seq<int>>, all: set<int>, rest: set<int>, k: nat, i: nat)
    requires k < |vv| && i < |vv[k]| && UsedUp(vv, all, rest, k, vv[k][..i]) && vv[k][i] !in rest
    ensures exists n :: Listings(vv, n) != if n in all then 1 else 0
  {
    var n := vv[k][i];
    assert vv[k] == vv[k][..i] + [n] + vv[k][i + 1..];
    ListingsPrefix(vv, k, n);
    assert multiset(vv[k])[n] >= multiset(vv[k][..i])[n] + 1;
    assert Listings(vv[..k], n) + multiset(vv[k][..i])[n] == if n in all && n !in rest then 1 else 0;
    assert Listings(vv, n) != if n in all then 1 else 0;
  }

  lemma BucketDone(vv: seq<seq<int>>, all: set<int>, rest: set<int>, k: nat)
    requires k < |vv| && UsedUp(vv, all, rest, k, vv[k])
    ensures UsedUp(vv, all, rest, k + 1, [])
  {
    forall n ensures Listings(vv[..k + 1], n) + multiset([])[n] == if n in all && n !in rest then 1 else 0 {
      ListingsPrefix(vv, k, n);
      assert Listings(vv[..k], n) + multiset(vv[k])[n] == if n in all && n !in rest then 1 else 0;
    }
  }

  lemma AllUsedUp(vv: seq<seq<int>>, all: set<int>, rest: set<int>)
    requires UsedUp(vv, all, rest, |vv|, []) && rest <= all
    ensures rest == {} <==> forall n :: Listings(vv, n) == if n in all then 1 else 0
  {
    assert vv[..|vv|] == vv;
    forall n ensures Listings(vv, n) == if n in all && n !in rest then 1 else 0 {
      assert Listings(vv[..|vv|], n) + multiset([])[n] == if n in all && n !in rest then 1 else 0;
    }
    if rest != {} {
      var n := AnyMember(rest);
      assert Listings(vv, n) == 0;
    }
  }

  /** In how many of the first b new buckets, and of `done`, the id is. */
  function Listed(vv: seq<set<int>>, b: nat, done: seq<int>, n: int): nat
    requires b <= |vv|
  {
    Count(vv[..b], n) + if n in done then 1 else 0
  }

  /** After b buckets and the ids in `done`, `rest` is what is left of the references, and no id had more than
      it has. */
  ghost predicate Remaining(vv: seq<set<int>>, all: map<int, int>, rest: map<int, int>, b: nat, done: seq<int>) {
    && b <= |vv| && rest.Keys <= all.Keys
    && (forall n | n in all :: Listed(vv, b, done, n) + (if n in rest then rest[n] else 0) == all[n])
    && (forall n | n in rest :: rest[n] > 0)
    && (forall n | n !in all :: Listed(vv, b, done, n) == 0)
  }

  lemma NoneListed(vv: seq<set<int>>, all: map<int, int>)
    requires forall n | n in all :: all[n] > 0
    ensures Remaining(vv, all, all, 0, [])
  {
  }

  lemma TooMany(vv: seq<set<int>>, all: map<int, int>, rest: map<int, int>, b: nat, vNew: seq<int>, i: nat)
    requires i < |vNew| && b < |vv| && Remaining(vv, all, rest, b, vNew[..i])
    requires Ascending(vNew) && vNew[i] !in rest && forall n :: n in vNew <==> n in vv[b]
    ensures exists n :: Count(vv, n) != if n in all then all[n] else 0
  {
    var n := vNew[i];
    assert n in vNew && n !in vNew[..i];
    CountPrefix(vv, b, n);
    CountPrefixLess(vv, b + 1, n);
    assert Listed(vv, b, vNew[..i], n) == if n in all then all[n] else 0;
    assert Count(vv, n) > if n in all then all[n] else 0;
  }

  lemma {:induction false} CountPrefixLess(vv: seq<set<int>>, b: nat, n: int)
    requires b <= |vv|
    ensures Count(vv[..b], n) <= Count(vv, n)
  {
    if b < |vv| {
      assert vv[..|vv| - 1][..b] == vv[..b];
      CountPrefixLess(vv[..|vv| - 1], b, n);
    } else {
      assert vv[..b] == vv;
    }
  }

  lemma OneLess(vv: seq<set<int>>, all: map<int, int>, before: map<int, int>, rest: map<int, int>, b: nat,
      vNew: seq<int>, i: nat)
    requires i < |vNew| && b < |vv| && Remaining(vv, all, before, b, vNew[..i]) && Ascending(vNew) && vNew[i] in before
    requires rest == if before[vNew[i]] == 1 then before - {vNew[i]} else before[vNew[i] := before[vNew[i]] - 1]
    ensures Remaining(vv, all, rest, b, vNew[..i + 1])
  {
    assert vNew[..i + 1] == vNew[..i] + [vNew[i]];
    assert vNew[i] !in vNew[..i];
    forall n ensures Listed(vv, b, vNew[..i + 1], n) == Listed(vv, b, vNew[..i], n) + if n == vNew[i] then 1 else 0 {
    }
  }

  lemma NextBucket(vv: seq<set<int>>, all: map<int, int>, rest: map<int, int>, b: nat, vNew: seq<int>)
    requires b < |vv| && Remaining(vv, all, rest, b, vNew) && forall n :: n in vNew <==> n in vv[b]
    ensures Remaining(vv, all, rest, b + 1, [])
  {
    forall n ensures Listed(vv, b + 1, [], n) == Listed(vv, b, vNew, n) {
      CountPrefix(vv, b, n);
    }
  }

  lemma AllCounted(vv: seq<set<int>>, all: map<int, int>, rest: map<int, int>)
    requires Remaining(vv, all, rest, |vv|, [])
    ensures rest == map[] <==> forall n :: Count(vv, n) == if n in all then all[n] else 0
  {
    assert vv[..|vv|] == vv;
    forall n ensures Count(vv, n) == if n in all then all[n] - (if n in rest then rest[n] else 0) else 0 {
      assert Listed(vv, |vv|, [], n) == Count(vv, n);
    }
    if rest != map[] {
      var n := AnyMember(rest.Keys);
      assert Count(vv, n) < all[n];
    }
  }

  /** The entries are the same but for `lost`, which has one reference less, or is gone if it had no other.
      A tried entry is never lost. */
  ghost predicate OnlyNewLost(a: InfoMap, b: InfoMap, lost: int) {
    && b.Keys <= a.Keys
    && (forall n | n in a && n != lost :: n in b && Core(b[n]) == Core(a[n]))
    && (lost in a ==> !a[lost].fInTried)
    && (lost in a && lost !in b ==> a[lost].nRefCount == 1)
    && (lost in b ==> Core(b[lost]) == Core(a[lost]).(nRefCount := a[lost].nRefCount - 1))
  }

  lemma NothingLost(a: InfoMap, b: InfoMap)
    requires SameCore(a, b) && -1 !in b
    ensures OnlyNewLost(a, b, -1)
  {
  }

  lemma AddressKept(a: InfoMap, b: InfoMap, lost: int, n: int)
    requires OnlyNewLost(a, b, lost) && n in a && n in b
    ensures a[n].addr == b[n].addr
  {
    if n != lost {
      assert Core(b[n]) == Core(a[n]);
    }
  }

  lemma LostSince(a: InfoMap, mid: InfoMap, b: InfoMap, lost: int)
    requires SameCore(a, mid) && OnlyNewLost(mid, b, lost)
    ensures OnlyNewLost(a, b, lost)
  {
    forall n | n in a ensures Core(a[n]) == Core(mid[n]) {
    }
  }

  lemma EvictedNew(a: InfoMap, vvNew: seq<set<int>>, k: nat, n: int, pending: set<int>, b: InfoMap)
    requires NewOk(a, vvNew, pending) && k < |vvNew| && n in vvNew[k] && n in a && SameCore(EvictedInfo(a, n), b)
    ensures OnlyNewLost(a, b, n)
  {
    CountMember(vvNew, k, n);
    assert RefOk(a[n], Count(vvNew, n) + if n in pending then 1 else 0);
    var mid := EvictedInfo(a, n);
    forall m | m in a && m != n ensures m in b && Core(b[m]) == Core(a[m]) {
      assert m in mid && Core(mid[m]) == Core(b[m]);
    }
  }

  /** What is told about an entry to other nodes. */
  function AddressIn(info: InfoMap, n: int): Address {
    if n in info then Address(info[n].addr, info[n].nServices, info[n].nTime) else Address(Service(0, 0), {}, 0)
  }

  lemma SameAddresses(a: InfoMap, b: InfoMap)
    requires SameCore(b, a)
    ensures forall n | n in a ::
              n in b && a[n].addr == b[n].addr && a[n].nServices == b[n].nServices && a[n].nTime == b[n].nTime
  {
    assert forall n | n in b :: Core(a[n]) == Core(b[n]);
  }

  /** After how many steps a walk round n places, begun at `start`, comes to b. */
  function RoundsTo(b: nat, start: nat, n: nat): int { if b >= start then b - start else b - start + n }

  /** What Add_ makes of an entry it knows: a newer time, less the penalty, but not too often, and the
      services of both. */
  function Refreshed(e: AddrInfo, addr: Address, nTimePenalty: int, nNow: int): AddrInfo {
    var stale := if nNow - addr.nTime < 86400 then 3600 else 86400;
    var later := addr.nTime != 0 && (e.nTime == 0 || addr.nTime - e.nTime > stale + nTimePenalty);
    e.(nTime := if later then Max(addr.nTime - nTimePenalty, 0) else e.nTime, nServices := e.nServices + addr.nServices)
  }

  /** What Add_ makes of an address it does not know. */
  function Fresh(addr: Address, source: NetAddr, nTimePenalty: int): AddrInfo {
    AddrInfo(addr.service, addr.nServices, Max(addr.nTime - nTimePenalty, 0), source, 0, 0, 0, 1, false, 0)
  }

  function Learned(info: InfoMap, mapAddr: AddrMap, addr: Address, source: NetAddr, nTimePenalty: int,
      nNow: int): AddrInfo {
    var ip := addr.service.ip;
    if ip in mapAddr && mapAddr[ip] in info then Refreshed(info[mapAddr[ip]], addr, nTimePenalty, nNow)
    else Fresh(addr, source, nTimePenalty)
  }

  lemma RandomAppend(info: InfoMap, rnd: seq<int>, n: int, e: AddrInfo)
    requires RandomOk(info, rnd) && n !in info && e.nRandomPos == |rnd|
    ensures RandomOk(info[n := e], rnd + [n])
  {
  }

  lemma NotInBuckets(info: InfoMap, vvNew: seq<set<int>>, n: int)
    requires NewOk(info, vvNew, {}) && n !in info
    ensures forall b | 0 <= b < |vvNew| :: n !in vvNew[b]
  {
  }

  lemma TwoUpdates(info0: InfoMap, n: int, o: int, info: InfoMap)
    requires n in info0 && o in info0 && n != o
    requires info == info0[n := info0[n].(nRefCount := 0)][o := info0[o].(fInTried := false, nRefCount := 1)]
                          [n := info0[n].(nRefCount := 0, fInTried := true)]
    ensures info == info0[n := Promoted(info0[n])][o := Demoted(info0[o])]
  {
  }

  lemma RefCountIs(info: InfoMap, vvNew: seq<set<int>>, n: int)
    requires NewOk(info, vvNew, {}) && n in info
    ensures info[n].nRefCount == Count(vvNew, n)
  {
    assert RefOk(info[n], Count(vvNew, n) + if n in {} then 1 else 0);
  }

  lemma ConsistentParts(h: BucketHash, nKey: seq<nat>, info: InfoMap, addr: AddrMap, vvTried: seq<seq<int>>,
                        vvNew: seq<set<int>>, nTried: int, nNew: int, nIdCount: int)
    requires Consistent(h, nKey, info, addr, vvTried, vvNew, nTried, nNew, nIdCount, {})
    ensures AddrOk(info, addr) && TriedOk(h, nKey, info, vvTried) && NewOk(info, vvNew, {}) && StatsOk(info, nIdCount)
  {
  }

  lemma BucketShapes(h: BucketHash, nKey: seq<nat>, info: InfoMap, vvTried: seq<seq<int>>, vvNew: seq<set<int>>)
    requires TriedOk(h, nKey, info, vvTried) && NewOk(info, vvNew, {})
    ensures |vvTried| == TRIED_BUCKET_COUNT && |vvNew| == NEW_BUCKET_COUNT
    ensures forall b | 0 <= b < |vvNew| :: |vvNew[b]| <= NEW_BUCKET_SIZE
  {
  }

  lemma Reshuffled(h: BucketHash, nKey: seq<nat>, info: InfoMap, addr: AddrMap, vvTried: seq<seq<int>>,
      vvTried': seq<seq<int>>, vvNew: seq<set<int>>, nTried: int, nNew: int, nIdCount: int)
    requires Consistent(h, nKey, info, addr, vvTried, vvNew, nTried, nNew, nIdCount, {})
        && TriedOk(h, nKey, info, vvTried')
    ensures Consistent(h, nKey, info, addr, vvTried', vvNew, nTried, nNew, nIdCount, {})
  {
  }

  lemma StatsSame(a: InfoMap, b: InfoMap, nIdCount: int)
    requires StatsOk(a, nIdCount) && a.Keys == b.Keys
    requires forall n | n in a ::
               a[n].nLastTry == b[n].nLastTry && a[n].nLastSuccess == b[n].nLastSuccess
               && a[n].fInTried == b[n].fInTried
    ensures StatsOk(b, nIdCount)
  {
  }

  lemma RandomSame(a: InfoMap, b: InfoMap, rnd: seq<int>)
    requires RandomOk(a, rnd) && a.Keys == b.Keys && forall n | n in a :: a[n].nRandomPos == b[n].nRandomPos
    ensures RandomOk(b, rnd)
  {
  }

  lemma TriedSame(h: BucketHash, nKey: seq<nat>, a: InfoMap, b: InfoMap, vvTried: seq<seq<int>>)
    requires TriedOk(h, nKey, a, vvTried) && a.Keys == b.Keys
    requires forall n | n in a :: a[n].addr == b[n].addr && a[n].fInTried == b[n].fInTried
    ensures TriedOk(h, nKey, b, vvTried)
  {
    forall k | 0 <= k < TRIED_BUCKET_COUNT ensures BucketOk(h, nKey, b, vvTried[k], k) {
      assert BucketOk(h, nKey, a, vvTried[k], k);
    }
  }

  lemma ShrinksByOne(s: set<int>, n: int)
    requires n in s
    ensures |s - {n}| == |s| - 1
  {
  }

  lemma SwapInBucket(h: BucketHash, nKey: seq<nat>, info: InfoMap, bucket: seq<int>, k: nat, i: nat, j: nat)
    requires BucketOk(h, nKey, info, bucket, k) && i < |bucket| && j < |bucket|
    ensures var swapped := bucket[j := bucket[i]][i := bucket[j]];
            BucketOk(h, nKey, info, swapped, k) && Elements(swapped) == Elements(bucket)
  {
    var swapped := bucket[j := bucket[i]][i := bucket[j]];
    assert swapped[i] == bucket[j] && swapped[j] == bucket[i];
    forall n ensures n in Elements(swapped) <==> n in Elements(bucket) {
      if n in Elements(bucket) {
        var x :| 0 <= x < |bucket| && bucket[x] == n;
        assert swapped[if x == i then j else if x == j then i else x] == n;
      }
      if n in Elements(swapped) {
        var x :| 0 <= x < |bucket| && swapped[x] == n;
        assert bucket[if x == i then j else if x == j then i else x] == n;
      }
    }
    forall n | n in swapped ensures n in bucket {
      assert n in Elements(swapped);
    }
  }

  lemma ShuffledOk(h: BucketHash, nKey: seq<nat>, info: InfoMap, vvTried: seq<seq<int>>, k: nat, bucket: seq<int>)
    requires TriedOk(h, nKey, info, vvTried) && k < |vvTried| && BucketOk(h, nKey, info, bucket, k)
    requires Elements(bucket) == Elements(vvTried[k])
    ensures TriedOk(h, nKey, info, vvTried[k := bucket])
  {
    forall n | n in info && info[n].fInTried ensures n in vvTried[k := bucket][TriedBucket(h, nKey, info[n].addr)] {
      assert n in Elements(vvTried[TriedBucket(h, nKey, info[n].addr)]);
      if TriedBucket(h, nKey, info[n].addr) == k { assert n in Elements(bucket); }
    }
  }
}
