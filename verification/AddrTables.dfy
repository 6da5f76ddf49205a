/** The tables of the address manager as values, what it means for them to agree, and what each
    elementary change does to that agreement. */
module AddrTables {
  import opened Common

  const TRIED_BUCKET_COUNT: nat := 64
  const TRIED_BUCKET_SIZE: nat := 64
  const NEW_BUCKET_COUNT: nat := 256
  const NEW_BUCKET_SIZE: nat := 64
  const NEW_BUCKETS_PER_ADDRESS: nat := 4
  const TRIED_ENTRIES_INSPECT_ON_EVICT: nat := 4

  type NetAddr = nat
  datatype Service = Service(ip: NetAddr, port: nat)

  /** CAddrInfo. Services are a set of flags. */
  datatype AddrInfo = AddrInfo(addr: Service, nServices: set<nat>, nTime: int, source: NetAddr, nLastSuccess: int,
                               nLastTry: int, nAttempts: int, nRefCount: int, fInTried: bool, nRandomPos: int)

  type InfoMap = map<int, AddrInfo>
  type AddrMap = map<NetAddr, int>

  /** The hashes behind the bucket choice; `nKey` is the secret of the manager. */
  datatype BucketHash = BucketHash(tried: (seq<nat>, Service) -> nat, untried: (seq<nat>, NetAddr, NetAddr) -> nat)

  function TriedBucket(h: BucketHash, nKey: seq<nat>, addr: Service): (k: nat)
    ensures k < TRIED_BUCKET_COUNT
  {
    h.tried(nKey, addr) % TRIED_BUCKET_COUNT
  }

  function NewBucket(h: BucketHash, nKey: seq<nat>, addr: Service, source: NetAddr): (k: nat)
    ensures k < NEW_BUCKET_COUNT
  {
    h.untried(nKey, addr.ip, source) % NEW_BUCKET_COUNT
  }

  // ---------------------------------------------------------------- agreement

  /** mapAddr and mapInfo are inverse to each other. */
  ghost predicate AddrOk(info: InfoMap, addr: AddrMap) {
    && (forall n | n in info :: info[n].addr.ip in addr && addr[info[n].addr.ip] == n)
    && (forall a | a in addr :: addr[a] in info && info[addr[a]].addr.ip == a)
  }

  /** vRandom lists every id once, at the place its entry knows. */
  ghost predicate RandomOk(info: InfoMap, rnd: seq<int>) {
    && (forall n | n in info :: 0 <= info[n].nRandomPos < |rnd| && rnd[info[n].nRandomPos] == n)
    && (forall i | 0 <= i < |rnd| :: rnd[i] in info && info[rnd[i]].nRandomPos == i)
  }

  predicate Distinct(s: seq<int>) { forall i, j | 0 <= i < j < |s| :: s[i] != s[j] }

  /** The tried buckets hold exactly the tried entries, each once, in the bucket of its address. */
  ghost predicate TriedOk(h: BucketHash, nKey: seq<nat>, info: InfoMap, vvTried: seq<seq<int>>) {
    && |vvTried| == TRIED_BUCKET_COUNT
    && (forall k | 0 <= k < TRIED_BUCKET_COUNT :: BucketOk(h, nKey, info, vvTried[k], k))
    && (forall n | n in info && info[n].fInTried :: n in vvTried[TriedBucket(h, nKey, info[n].addr)])
  }

  ghost predicate BucketOk(h: BucketHash, nKey: seq<nat>, info: InfoMap, bucket: seq<int>, k: nat) {
    && |bucket| <= TRIED_BUCKET_SIZE && Distinct(bucket)
    && forall n | n in bucket :: n in info && info[n].fInTried && TriedBucket(h, nKey, info[n].addr) == k
  }

  /** In how many of the buckets the id is. */
  function Count(vvNew: seq<set<int>>, n: int): nat {
    if vvNew == [] then 0 else Count(vvNew[..|vvNew| - 1], n) + if n in vvNew[|vvNew| - 1] then 1 else 0
  }

  /** The new buckets hold only entries that are not tried, and every reference count is the number of
      buckets, plus one for the ids in `pending`, which are about to be put into one more. */
  ghost predicate NewOk(info: InfoMap, vvNew: seq<set<int>>, pending: set<int>) {
    && |vvNew| == NEW_BUCKET_COUNT
    && (forall b | 0 <= b < NEW_BUCKET_COUNT :: |vvNew[b]| <= NEW_BUCKET_SIZE && vvNew[b] <= info.Keys)
    && (forall n | n in info :: RefOk(info[n], Count(vvNew, n) + if n in pending then 1 else 0))
  }

  ghost predicate RefOk(e: AddrInfo, count: nat) {
    e.nRefCount == count && if e.fInTried then count == 0 else 1 <= count <= NEW_BUCKETS_PER_ADDRESS
  }

  ghost predicate StatsOk(info: InfoMap, nIdCount: int) {
    forall n | n in info ::
      && 0 <= n < nIdCount && info[n].nLastTry >= 0 && info[n].nLastSuccess >= 0
      && (info[n].fInTried ==> info[n].nLastSuccess != 0)
  }

  ghost function TriedIds(info: InfoMap): set<int> { set n | n in info && info[n].fInTried }
  ghost function NewIds(info: InfoMap): set<int> { set n | n in info && !info[n].fInTried }

  ghost predicate CountsOk(info: InfoMap, nTried: int, nNew: int) {
    nTried == |TriedIds(info)| && nNew == |NewIds(info)|
  }

  // ---------------------------------------------------------------- counting buckets

  lemma {:induction false} CountUpdate(vv: seq<set<int>>, b: nat, s: set<int>, n: int)
    requires b < |vv|
    ensures Count(vv[b := s], n) == Count(vv, n) - (if n in vv[b] then 1 else 0) + (if n in s then 1 else 0)
  {
    var k := |vv| - 1;
    if b == k {
      assert vv[b := s][..k] == vv[..k];
    } else {
      assert vv[b := s][..k] == vv[..k][b := s];
      CountUpdate(vv[..k], b, s, n);
    }
  }

  lemma {:induction false} CountMember(vv: seq<set<int>>, b: nat, n: int)
    requires b < |vv| && n in vv[b]
    ensures Count(vv, n) > 0
  {
    if b < |vv| - 1 {
      CountMember(vv[..|vv| - 1], b, n);
    }
  }

  lemma {:induction false} CountNone(vv: seq<set<int>>, n: int)
    requires forall b | 0 <= b < |vv| :: n !in vv[b]
    ensures Count(vv, n) == 0
  {
    if vv != [] {
      CountNone(vv[..|vv| - 1], n);
    }
  }

  lemma {:induction false} CountSome(vv: seq<set<int>>, n: int) returns (b: nat)
    requires Count(vv, n) > 0
    ensures b < |vv| && n in vv[b]
  {
    var k := |vv| - 1;
    if n in vv[k] {
      b := k;
    } else {
      b := CountSome(vv[..k], n);
    }
  }

  lemma {:induction false} CountPrefix(vv: seq<set<int>>, b: nat, n: int)
    requires b < |vv|
    ensures Count(vv[..b], n) + (if n in vv[b] then 1 else 0) <= Count(vv, n)
    ensures Count(vv[..b + 1], n) == Count(vv[..b], n) + if n in vv[b] then 1 else 0
  {
    var k := |vv| - 1;
    assert vv[..b + 1][..b] == vv[..b];
    if b < k {
      assert vv[..k][..b] == vv[..b];
      CountPrefix(vv[..k], b, n);
    }
  }

  // ---------------------------------------------------------------- the size bound

  function Elements(s: seq<int>): (r: set<int>) { set i | 0 <= i < |s| :: s[i] }

  lemma {:induction false} DistinctSize(s: seq<int>)
    requires Distinct(s)
    ensures |Elements(s)| == |s|
  {
    if s != [] {
      var k := |s| - 1;
      DistinctSize(s[..k]);
      assert Elements(s) == Elements(s[..k]) + {s[k]};
      assert s[k] !in Elements(s[..k]);
    }
  }

  function NewUnion(vv: seq<set<int>>): set<int> {
    if vv == [] then {} else NewUnion(vv[..|vv| - 1]) + vv[|vv| - 1]
  }

  lemma AnyMember<T>(s: set<T>) returns (x: T)
    requires s != {}
    ensures x in s
  {
    x :| x in s;
  }

  lemma {:induction false} NewUnionMember(vv: seq<set<int>>, b: nat, n: int)
    requires b < |vv| && n in vv[b]
    ensures n in NewUnion(vv)
  {
    if b < |vv| - 1 {
      NewUnionMember(vv[..|vv| - 1], b, n);
    }
  }

  lemma {:induction false} NewUnionSize(vv: seq<set<int>>, max: nat)
    requires forall b | 0 <= b < |vv| :: |vv[b]| <= max
    ensures |NewUnion(vv)| <= max * |vv|
  {
    if vv != [] {
      var k := |vv| - 1;
      NewUnionSize(vv[..k], max);
      assert |NewUnion(vv)| <= |NewUnion(vv[..k])| + |vv[k]|;
      assert max * |vv| == max * k + max;
    }
  }

  /** No more than 256 * 64 addresses are new and no more than 64 * 64 are tried. */
  lemma SizeBound(h: BucketHash, nKey: seq<nat>, info: InfoMap, vvTried: seq<seq<int>>, vvNew: seq<set<int>>)
    requires TriedOk(h, nKey, info, vvTried) && NewOk(info, vvNew, {})
    ensures |NewIds(info)| <= NEW_BUCKET_COUNT * NEW_BUCKET_SIZE
    ensures |TriedIds(info)| <= TRIED_BUCKET_COUNT * TRIED_BUCKET_SIZE
  {
    NewUnionSize(vvNew, NEW_BUCKET_SIZE);
    forall n | n in NewIds(info) ensures n in NewUnion(vvNew) {
      assert RefOk(info[n], Count(vvNew, n) + if n in {} then 1 else 0);
      var b := CountSome(vvNew, n);
      NewUnionMember(vvNew, b, n);
    }
    SubsetSize(NewIds(info), NewUnion(vvNew));
    var sets := seq(|vvTried|, k requires 0 <= k < |vvTried| => Elements(vvTried[k]));
    forall k | 0 <= k < |sets| ensures |sets[k]| <= TRIED_BUCKET_SIZE {
      assert BucketOk(h, nKey, info, vvTried[k], k);
      DistinctSize(vvTried[k]);
    }
    NewUnionSize(sets, TRIED_BUCKET_SIZE);
    forall n | n in TriedIds(info) ensures n in NewUnion(sets) {
      var k := TriedBucket(h, nKey, info[n].addr);
      assert n in vvTried[k];
      assert n in sets[k];
      NewUnionMember(sets, k, n);
    }
    SubsetSize(TriedIds(info), NewUnion(sets));
  }

  /** vRandom has one place for every entry. */
  lemma RandomSize(info: InfoMap, rnd: seq<int>)
    requires RandomOk(info, rnd)
    ensures |rnd| == |info| == |TriedIds(info)| + |NewIds(info)|
  {
    assert Distinct(rnd);
    DistinctSize(rnd);
    assert Elements(rnd) == info.Keys by {
      forall n | n in info ensures n in Elements(rnd) {
        assert rnd[info[n].nRandomPos] == n;
      }
    }
    assert TriedIds(info) + NewIds(info) == info.Keys;
    assert TriedIds(info) !! NewIds(info);
  }

  // ---------------------------------------------------------------- the elementary changes

  /** An entry without its place in vRandom. */
  function Core(e: AddrInfo): AddrInfo { e.(nRandomPos := 0) }

  ghost predicate SameCore(a: InfoMap, b: InfoMap) {
    a.Keys == b.Keys && forall n | n in a :: Core(a[n]) == Core(b[n])
  }

  /** All tables but vRandom. */
  ghost predicate Consistent(h: BucketHash, nKey: seq<nat>, info: InfoMap, addr: AddrMap, vvTried: seq<seq<int>>,
                             vvNew: seq<set<int>>, nTried: int, nNew: int, nIdCount: int, pending: set<int>) {
    && AddrOk(info, addr) && TriedOk(h, nKey, info, vvTried) && NewOk(info, vvNew, pending)
    && StatsOk(info, nIdCount) && CountsOk(info, nTried, nNew)
  }

  /** Places in vRandom do not matter to the other tables. */
  lemma CoreKeeps(h: BucketHash, nKey: seq<nat>, a: InfoMap, b: InfoMap, addr: AddrMap, vvTried: seq<seq<int>>,
                  vvNew: seq<set<int>>, nTried: int, nNew: int, nIdCount: int, pending: set<int>)
    requires SameCore(a, b) && Consistent(h, nKey, a, addr, vvTried, vvNew, nTried, nNew, nIdCount, pending)
    ensures Consistent(h, nKey, b, addr, vvTried, vvNew, nTried, nNew, nIdCount, pending)
  {
    assert forall n | n in a :: Core(a[n]) == Core(b[n]);
    assert TriedIds(a) == TriedIds(b) && NewIds(a) == NewIds(b);
    forall k | 0 <= k < TRIED_BUCKET_COUNT ensures BucketOk(h, nKey, b, vvTried[k], k) {
      assert BucketOk(h, nKey, a, vvTried[k], k);
    }
  }

  /** Statistics may change as long as they stay in range. */
  lemma StatsKeep(h: BucketHash, nKey: seq<nat>, info: InfoMap, addr: AddrMap, vvTried: seq<seq<int>>,
      vvNew: seq<set<int>>, nTried: int, nNew: int, nIdCount: int, n: int, e: AddrInfo)
    requires Consistent(h, nKey, info, addr, vvTried, vvNew, nTried, nNew, nIdCount, {}) && n in info
    requires e.addr == info[n].addr && e.fInTried == info[n].fInTried && e.nRefCount == info[n].nRefCount
    requires e.nLastTry >= 0 && e.nLastSuccess >= 0 && (e.fInTried ==> e.nLastSuccess != 0)
    ensures Consistent(h, nKey, info[n := e], addr, vvTried, vvNew, nTried, nNew, nIdCount, {})
  {
    var info' := info[n := e];
    assert info'.Keys == info.Keys;
    assert TriedIds(info') == TriedIds(info) && NewIds(info') == NewIds(info);
    forall k | 0 <= k < TRIED_BUCKET_COUNT ensures BucketOk(h, nKey, info', vvTried[k], k) {
      assert BucketOk(h, nKey, info, vvTried[k], k);
    }
  }

  /** What ShrinkNew leaves of mapInfo when it takes `n` out of a bucket. */
  function EvictedInfo(info: InfoMap, n: int): InfoMap
    requires n in info
  {
    if info[n].nRefCount == 1 then info - {n} else info[n := info[n].(nRefCount := info[n].nRefCount - 1)]
  }

  lemma EvictKeeps(h: BucketHash, nKey: seq<nat>, info: InfoMap, addr: AddrMap, vvTried: seq<seq<int>>,
      vvNew: seq<set<int>>, nTried: int, nNew: int, nIdCount: int, pending: set<int>, b: nat, n: int)
    requires Consistent(h, nKey, info, addr, vvTried, vvNew, nTried, nNew, nIdCount, pending)
    requires b < |vvNew| && n in vvNew[b] && n !in pending
    ensures n in info && !info[n].fInTried && info[n].nRefCount >= 1
    ensures var last := info[n].nRefCount == 1;
            Consistent(h, nKey, EvictedInfo(info, n), if last then addr - {info[n].addr.ip} else addr, vvTried,
                       vvNew[b := vvNew[b] - {n}], nTried, if last then nNew - 1 else nNew, nIdCount, pending)
  {
    CountMember(vvNew, b, n);
    var info' := EvictedInfo(info, n);
    var vvNew' := vvNew[b := vvNew[b] - {n}];
    var last := info[n].nRefCount == 1;
    assert TriedIds(info') == TriedIds(info);
    if last {
      assert NewIds(info) == NewIds(info') + {n};
    } else {
      assert NewIds(info) == NewIds(info');
    }
    EvictNewOk(info, vvNew, pending, b, n);
    forall k | 0 <= k < TRIED_BUCKET_COUNT ensures BucketOk(h, nKey, info', vvTried[k], k) {
      assert BucketOk(h, nKey, info, vvTried[k], k);
    }
  }

  lemma EvictNewOk(info: InfoMap, vvNew: seq<set<int>>, pending: set<int>, b: nat, n: int)
    requires NewOk(info, vvNew, pending) && b < |vvNew| && n in vvNew[b] && n !in pending
    ensures n in info && NewOk(EvictedInfo(info, n), vvNew[b := vvNew[b] - {n}], pending)
  {
    var info' := EvictedInfo(info, n);
    var vvNew' := vvNew[b := vvNew[b] - {n}];
    CountMember(vvNew, b, n);
    assert RefOk(info[n], Count(vvNew, n));
    SubsetSize(vvNew[b] - {n}, vvNew[b]);
    forall m | m in info' ensures RefOk(info'[m], Count(vvNew', m) + if m in pending then 1 else 0) {
      assert RefOk(info[m], Count(vvNew, m) + if m in pending then 1 else 0);
      CountUpdate(vvNew, b, vvNew[b] - {n}, m);
    }
    forall c | 0 <= c < NEW_BUCKET_COUNT ensures |vvNew'[c]| <= NEW_BUCKET_SIZE && vvNew'[c] <= info'.Keys {
      assert vvNew[c] <= info.Keys;
      if info[n].nRefCount == 1 && c != b && n in vvNew[c] {
        CountTwice(vvNew, b, c, n);
      }
    }
  }

  lemma {:induction false} CountTwice(vv: seq<set<int>>, b: nat, c: nat, n: int)
    requires b < |vv| && c < |vv| && b != c && n in vv[b] && n in vv[c]
    ensures Count(vv, n) >= 2
  {
    var k := |vv| - 1;
    if b < k && c < k {
      CountTwice(vv[..k], b, c, n);
    } else {
      CountMember(vv[..k], if b < k then b else c, n);
    }
  }

  /** Putting a pending id into one more bucket. */
  lemma InsertKeeps(h: BucketHash, nKey: seq<nat>, info: InfoMap, addr: AddrMap, vvTried: seq<seq<int>>,
      vvNew: seq<set<int>>, nTried: int, nNew: int, nIdCount: int, b: nat, n: int)
    requires Consistent(h, nKey, info, addr, vvTried, vvNew, nTried, nNew, nIdCount, {n})
    requires b < |vvNew| && n in info && n !in vvNew[b] && |vvNew[b]| < NEW_BUCKET_SIZE
    ensures Consistent(h, nKey, info, addr, vvTried, vvNew[b := vvNew[b] + {n}], nTried, nNew, nIdCount, {})
  {
    var vvNew' := vvNew[b := vvNew[b] + {n}];
    forall m | m in info ensures RefOk(info[m], Count(vvNew', m)) {
      assert RefOk(info[m], Count(vvNew, m) + if m in {n} then 1 else 0);
      CountUpdate(vvNew, b, vvNew[b] + {n}, m);
    }
  }

  /** One more reference for an id that is about to be put into one more bucket. */
  lemma PendKeeps(h: BucketHash, nKey: seq<nat>, info: InfoMap, addr: AddrMap, vvTried: seq<seq<int>>,
      vvNew: seq<set<int>>, nTried: int, nNew: int, nIdCount: int, n: int)
    requires Consistent(h, nKey, info, addr, vvTried, vvNew, nTried, nNew, nIdCount, {})
    requires n in info && !info[n].fInTried && info[n].nRefCount < NEW_BUCKETS_PER_ADDRESS
    ensures Consistent(h, nKey, info[n := info[n].(nRefCount := info[n].nRefCount + 1)], addr, vvTried, vvNew, nTried,
        nNew, nIdCount, {n})
  {
    hide Count, BucketOk, Distinct, TriedBucket;
    var info' := info[n := info[n].(nRefCount := info[n].nRefCount + 1)];
    assert info'.Keys == info.Keys;
    assert TriedIds(info') == TriedIds(info) && NewIds(info') == NewIds(info);
    forall m | m in info' ensures RefOk(info'[m], Count(vvNew, m) + if m in {n} then 1 else 0) {
      assert RefOk(info[m], Count(vvNew, m) + if m in {} then 1 else 0);
    }
    forall k | 0 <= k < TRIED_BUCKET_COUNT ensures BucketOk(h, nKey, info', vvTried[k], k) {
      BucketSame(h, nKey, info, info', vvTried[k], k);
    }
  }

  lemma BucketSame(h: BucketHash, nKey: seq<nat>, a: InfoMap, b: InfoMap, bucket: seq<int>, k: nat)
    requires BucketOk(h, nKey, a, bucket, k) && a.Keys == b.Keys
    requires forall n | n in a :: a[n].addr == b[n].addr && a[n].fInTried == b[n].fInTried
    ensures BucketOk(h, nKey, b, bucket, k)
  {
  }

  /** A new entry, in no bucket yet but with its first reference. */
  lemma CreateKeeps(h: BucketHash, nKey: seq<nat>, info: InfoMap, addr: AddrMap, vvTried: seq<seq<int>>,
      vvNew: seq<set<int>>, nTried: int, nNew: int, nIdCount: int, e: AddrInfo)
    requires Consistent(h, nKey, info, addr, vvTried, vvNew, nTried, nNew, nIdCount, {}) && nIdCount >= 0
    requires e.addr.ip !in addr && !e.fInTried && e.nRefCount == 1 && e.nLastTry == 0 && e.nLastSuccess == 0
    ensures nIdCount !in info
    ensures Consistent(h, nKey, info[nIdCount := e], addr[e.addr.ip := nIdCount], vvTried, vvNew, nTried, nNew + 1,
        nIdCount + 1, {nIdCount})
  {
    hide TriedOk, NewOk, CountsOk;
    assert nIdCount !in info;
    CreateTriedOk(h, nKey, info, vvTried, nIdCount, e);
    CreateNewOk(info, vvNew, nIdCount, e);
    AddNewId(info, nIdCount, e, nTried, nNew);
  }

  lemma CreateTriedOk(h: BucketHash, nKey: seq<nat>, info: InfoMap, vvTried: seq<seq<int>>, n: int, e: AddrInfo)
    requires TriedOk(h, nKey, info, vvTried) && n !in info && !e.fInTried
    ensures TriedOk(h, nKey, info[n := e], vvTried)
  {
    forall k | 0 <= k < TRIED_BUCKET_COUNT ensures BucketOk(h, nKey, info[n := e], vvTried[k], k) {
      assert BucketOk(h, nKey, info, vvTried[k], k);
    }
  }

  lemma CreateNewOk(info: InfoMap, vvNew: seq<set<int>>, n: int, e: AddrInfo)
    requires NewOk(info, vvNew, {}) && n !in info && !e.fInTried && e.nRefCount == 1
    ensures NewOk(info[n := e], vvNew, {n})
  {
    CountNone(vvNew, n);
    forall m | m in info[n := e] ensures RefOk(info[n := e][m], Count(vvNew, m) + if m in {n} then 1 else 0) {
      if m != n { assert RefOk(info[m], Count(vvNew, m) + if m in {} then 1 else 0); }
    }
  }

  lemma AddNewId(info: InfoMap, n: int, e: AddrInfo, nTried: int, nNew: int)
    requires CountsOk(info, nTried, nNew) && n !in info && !e.fInTried
    ensures CountsOk(info[n := e], nTried, nNew + 1)
  {
    assert TriedIds(info[n := e]) == TriedIds(info) && NewIds(info[n := e]) == NewIds(info) + {n};
  }

  function RemoveEverywhere(vv: seq<set<int>>, n: int): (r: seq<set<int>>)
    ensures |r| == |vv| && forall b | 0 <= b < |vv| :: r[b] == vv[b] - {n}
  {
    if vv == [] then [] else RemoveEverywhere(vv[..|vv| - 1], n) + [vv[|vv| - 1] - {n}]
  }

  lemma {:induction false} RemovedCount(vv: seq<set<int>>, n: int, m: int)
    ensures Count(RemoveEverywhere(vv, n), m) == if m == n then 0 else Count(vv, m)
  {
    if vv != [] {
      var k := |vv| - 1;
      RemovedCount(vv[..k], n, m);
      assert RemoveEverywhere(vv, n)[..k] == RemoveEverywhere(vv[..k], n);
    }
  }

  /** An entry once it is in the tried table, and one that was sent back. */
  function Promoted(e: AddrInfo): AddrInfo { e.(nRefCount := 0, fInTried := true) }
  function Demoted(e: AddrInfo): AddrInfo { e.(nRefCount := 1, fInTried := false) }

  /** MakeTried when the tried bucket has room. */
  lemma PromoteKeeps(h: BucketHash, nKey: seq<nat>, info: InfoMap, addr: AddrMap, vvTried: seq<seq<int>>,
      vvNew: seq<set<int>>, nTried: int, nNew: int, nIdCount: int, n: int)
    requires Consistent(h, nKey, info, addr, vvTried, vvNew, nTried, nNew, nIdCount, {})
    requires n in info && !info[n].fInTried && info[n].nLastSuccess > 0
    requires |vvTried[TriedBucket(h, nKey, info[n].addr)]| < TRIED_BUCKET_SIZE
    ensures var k := TriedBucket(h, nKey, info[n].addr);
            Consistent(h, nKey, info[n := Promoted(info[n])], addr, vvTried[k := vvTried[k] + [n]],
                RemoveEverywhere(vvNew, n), nTried + 1, nNew - 1, nIdCount, {})
  {
    hide TriedOk, NewOk, CountsOk;
    PromoteTriedOk(h, nKey, info, vvTried, n);
    PromoteNewOk(info, vvNew, n);
    PromoteCounts(info, n, nTried, nNew);
  }

  lemma PromoteCounts(info: InfoMap, n: int, nTried: int, nNew: int)
    requires CountsOk(info, nTried, nNew) && n in info && !info[n].fInTried
    ensures CountsOk(info[n := Promoted(info[n])], nTried + 1, nNew - 1)
  {
    var info' := info[n := Promoted(info[n])];
    assert TriedIds(info') == TriedIds(info) + {n} && NewIds(info) == NewIds(info') + {n};
  }

  lemma PromoteTriedOk(h: BucketHash, nKey: seq<nat>, info: InfoMap, vvTried: seq<seq<int>>, n: int)
    requires TriedOk(h, nKey, info, vvTried) && n in info && !info[n].fInTried
    requires |vvTried[TriedBucket(h, nKey, info[n].addr)]| < TRIED_BUCKET_SIZE
    ensures var k := TriedBucket(h, nKey, info[n].addr);
            TriedOk(h, nKey, info[n := Promoted(info[n])], vvTried[k := vvTried[k] + [n]])
  {
    var k := TriedBucket(h, nKey, info[n].addr);
    var info' := info[n := Promoted(info[n])];
    var vvTried' := vvTried[k := vvTried[k] + [n]];
    assert info'.Keys == info.Keys;
    forall c | 0 <= c < TRIED_BUCKET_COUNT ensures BucketOk(h, nKey, info', vvTried'[c], c) {
      assert BucketOk(h, nKey, info, vvTried[c], c);
    }
    forall m | m in info' && info'[m].fInTried ensures m in vvTried'[TriedBucket(h, nKey, info'[m].addr)] {
      if m == n { assert vvTried'[k][|vvTried[k]|] == n; }
    }
  }

  lemma PromoteNewOk(info: InfoMap, vvNew: seq<set<int>>, n: int)
    requires NewOk(info, vvNew, {}) && n in info
    ensures NewOk(info[n := Promoted(info[n])], RemoveEverywhere(vvNew, n), {})
  {
    var info' := info[n := Promoted(info[n])];
    var vvNew' := RemoveEverywhere(vvNew, n);
    forall m | m in info' ensures RefOk(info'[m], Count(vvNew', m) + if m in {} then 1 else 0) {
      RemovedCount(vvNew, n, m);
      assert RefOk(info[m], Count(vvNew, m) + if m in {} then 1 else 0);
    }
    forall b | 0 <= b < NEW_BUCKET_COUNT ensures |vvNew'[b]| <= NEW_BUCKET_SIZE && vvNew'[b] <= info'.Keys {
      SubsetSize(vvNew'[b], vvNew[b]);
    }
  }

  /** MakeTried when it has to send the entry at `pos` of a full bucket back to new bucket `b`. */
  lemma ReplaceKeeps(h: BucketHash, nKey: seq<nat>, info: InfoMap, addr: AddrMap, vvTried: seq<seq<int>>,
      vvNew: seq<set<int>>, nTried: int, nNew: int, nIdCount: int, n: int, pos: nat, b: nat)
    requires Consistent(h, nKey, info, addr, vvTried, vvNew, nTried, nNew, nIdCount, {})
    requires n in info && !info[n].fInTried && info[n].nLastSuccess > 0
    requires pos < |vvTried[TriedBucket(h, nKey, info[n].addr)]|
    requires b < NEW_BUCKET_COUNT && |vvNew[b] - {n}| < NEW_BUCKET_SIZE
    ensures var k := TriedBucket(h, nKey, info[n].addr);
            var o := vvTried[k][pos];
            && o in info && o != n
            && Consistent(h, nKey, info[n := Promoted(info[n])][o := Demoted(info[o])], addr,
                vvTried[k := vvTried[k][pos := n]],
                RemoveEverywhere(vvNew, n)[b := vvNew[b] - {n} + {o}], nTried, nNew, nIdCount, {})
  {
    ReplacedTried(h, nKey, info, vvTried, n, pos);
    var o := vvTried[TriedBucket(h, nKey, info[n].addr)][pos];
    ReplaceTriedOk(h, nKey, info, vvTried, n, pos);
    ReplaceNewOk(info, vvNew, n, o, b);
    ReplaceCounts(info, n, o, nTried, nNew);
    var info' := info[n := Promoted(info[n])][o := Demoted(info[o])];
    assert info'.Keys == info.Keys;
    assert AddrOk(info', addr);
  }

  /** The entry that is sent back is a tried one. */
  lemma ReplacedTried(h: BucketHash, nKey: seq<nat>, info: InfoMap, vvTried: seq<seq<int>>, n: int, pos: nat)
    requires TriedOk(h, nKey, info, vvTried) && n in info && !info[n].fInTried
    requires pos < |vvTried[TriedBucket(h, nKey, info[n].addr)]|
    ensures var o := vvTried[TriedBucket(h, nKey, info[n].addr)][pos];
            o in info && info[o].fInTried && o != n
  {
    var k := TriedBucket(h, nKey, info[n].addr);
    assert BucketOk(h, nKey, info, vvTried[k], k);
    assert vvTried[k][pos] in vvTried[k];
  }

  lemma ReplaceCounts(info: InfoMap, n: int, o: int, nTried: int, nNew: int)
    requires CountsOk(info, nTried, nNew) && n in info && !info[n].fInTried && o in info && info[o].fInTried
    ensures CountsOk(info[n := Promoted(info[n])][o := Demoted(info[o])], nTried, nNew)
  {
    var info' := info[n := Promoted(info[n])][o := Demoted(info[o])];
    assert TriedIds(info') == TriedIds(info) + {n} - {o} && NewIds(info') == NewIds(info) - {n} + {o};
  }

  lemma ReplaceTriedOk(h: BucketHash, nKey: seq<nat>, info: InfoMap, vvTried: seq<seq<int>>, n: int, pos: nat)
    requires TriedOk(h, nKey, info, vvTried) && n in info && !info[n].fInTried
    requires pos < |vvTried[TriedBucket(h, nKey, info[n].addr)]|
    ensures var k := TriedBucket(h, nKey, info[n].addr);
            var o := vvTried[k][pos];
            o in info && TriedOk(h, nKey, info[n := Promoted(info[n])][o := Demoted(info[o])],
                vvTried[k := vvTried[k][pos := n]])
  {
    var k := TriedBucket(h, nKey, info[n].addr);
    ReplacedTried(h, nKey, info, vvTried, n, pos);
    var o := vvTried[k][pos];
    var info' := info[n := Promoted(info[n])][o := Demoted(info[o])];
    var vvTried' := vvTried[k := vvTried[k][pos := n]];
    forall c | 0 <= c < TRIED_BUCKET_COUNT ensures BucketOk(h, nKey, info', vvTried'[c], c) {
      assert BucketOk(h, nKey, info, vvTried[c], c);
      if c == k {
        ReplaceBucketOk(h, nKey, info, vvTried[k], k, n, pos);
      }
    }
    forall m | m in info' && info'[m].fInTried ensures m in vvTried'[TriedBucket(h, nKey, info'[m].addr)] {
      if m == n {
        assert vvTried'[k][pos] == n;
      } else {
        var c := TriedBucket(h, nKey, info[m].addr);
        var j :| 0 <= j < |vvTried[c]| && vvTried[c][j] == m;
        assert vvTried'[c][j] == m;
      }
    }
  }

  lemma ReplaceBucketOk(h: BucketHash, nKey: seq<nat>, info: InfoMap, bucket: seq<int>, k: nat, n: int, pos: nat)
    requires BucketOk(h, nKey, info, bucket, k) && pos < |bucket| && n in info && !info[n].fInTried
        && TriedBucket(h, nKey, info[n].addr) == k
    ensures bucket[pos] in info
    ensures BucketOk(h, nKey, info[n := Promoted(info[n])][bucket[pos] := Demoted(info[bucket[pos]])],
        bucket[pos := n], k)
  {
    var o := bucket[pos];
    assert o in bucket;
    var bucket' := bucket[pos := n];
    forall m | m in bucket' ensures m in info && m != o && (m == n || m in bucket) {
      var j :| 0 <= j < |bucket'| && bucket'[j] == m;
      if j != pos { assert bucket[j] == m; }
    }
    forall i, j | 0 <= i < j < |bucket'| ensures bucket'[i] != bucket'[j] {
      assert bucket[i] in bucket && bucket[j] in bucket;
    }
  }

  lemma ReplaceNewOk(info: InfoMap, vvNew: seq<set<int>>, n: int, o: int, b: nat)
    requires NewOk(info, vvNew, {}) && n in info && o in info && info[o].fInTried && o != n
    requires b < NEW_BUCKET_COUNT && |vvNew[b] - {n}| < NEW_BUCKET_SIZE
    ensures NewOk(info[n := Promoted(info[n])][o := Demoted(info[o])],
        RemoveEverywhere(vvNew, n)[b := vvNew[b] - {n} + {o}], {})
  {
    PromoteNewOk(info, vvNew, n);
    var mid := info[n := Promoted(info[n])];
    var info' := mid[o := Demoted(info[o])];
    var removed := RemoveEverywhere(vvNew, n);
    var vvNew' := removed[b := vvNew[b] - {n} + {o}];
    assert RefOk(info[o], Count(vvNew, o) + if o in {} then 1 else 0);
    assert RefOk(mid[o], Count(removed, o) + if o in {} then 1 else 0);
    assert o !in removed[b] by {
      if o in removed[b] { CountMember(removed, b, o); }
    }
    forall m | m in info' ensures RefOk(info'[m], Count(vvNew', m) + if m in {} then 1 else 0) {
      assert RefOk(mid[m], Count(removed, m) + if m in {} then 1 else 0);
      CountUpdate(removed, b, vvNew[b] - {n} + {o}, m);
    }
    forall c | 0 <= c < NEW_BUCKET_COUNT ensures |vvNew'[c]| <= NEW_BUCKET_SIZE && vvNew'[c] <= info'.Keys {
      assert removed[c] <= mid.Keys;
    }
  }
}
