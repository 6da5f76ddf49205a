/** The file format of the address manager. Most tables are not written; loading rebuilds them and gives
    every address a new id. */
module AddrSave {
  import opened Common
  import opened AddrTables
  import Manager = AddrMan

  /** What is written of an entry. */
  datatype SavedInfo = SavedInfo(addr: Service, nServices: set<nat>, nTime: int, source: NetAddr, nLastSuccess: int,
      nAttempts: int)

  datatype Item = Num(n: int) | Key(key: seq<nat>) | Entry(info: SavedInfo)

  /** The tables of a manager. */
  datatype Tables = Tables(nKey: seq<nat>, info: InfoMap, addr: AddrMap, vvTried: seq<seq<int>>, vvNew: seq<set<int>>,
      nTried: int, nNew: int, nIdCount: int)

  /** The order in which entries are written, new ones first, and for every new bucket the places its entries
      have in that order. */
  datatype Image = Image(order: seq<int>, lists: seq<seq<int>>)

  function Strip(e: AddrInfo): SavedInfo {
    SavedInfo(e.addr, e.nServices, e.nTime, e.source, e.nLastSuccess, e.nAttempts)
  }

  /** An entry as it is read back, before any table knows it. */
  function Unstrip(s: SavedInfo): AddrInfo {
    AddrInfo(s.addr, s.nServices, s.nTime, s.source, s.nLastSuccess, 0, s.nAttempts, 0, false, -1)
  }

  const BLANK: AddrInfo := AddrInfo(Service(0, 0), {}, 0, 0, 0, 0, 0, 0, false, -1)

  function EntryAt(info: InfoMap, n: int): Item { Entry(Strip(if n in info then info[n] else BLANK)) }

  function Entries(info: InfoMap, ids: seq<int>): (r: seq<Item>)
    ensures |r| == |ids|
  {
    seq(|ids|, i requires 0 <= i < |ids| => EntryAt(info, ids[i]))
  }

  function BucketItems(list: seq<int>): (r: seq<Item>)
    ensures |r| == |list| + 1
  {
    [Num(|list|)] + seq(|list|, j requires 0 <= j < |list| => Num(list[j]))
  }

  function Buckets(lists: seq<seq<int>>): seq<Item> {
    if lists == [] then [] else Buckets(lists[..|lists| - 1]) + BucketItems(lists[|lists| - 1])
  }

  function Header(a: Tables): (r: seq<Item>)
    ensures |r| == 5
  {
    [Num(0), Key(a.nKey), Num(a.nNew), Num(a.nTried), Num(NEW_BUCKET_COUNT)]
  }

  function Written(a: Tables, im: Image): seq<Item> {
    Header(a) + Entries(a.info, im.order) + Buckets(im.lists)
  }

  /** The image lists every entry of the tables once, and every reference. */
  ghost predicate Describes(im: Image, a: Tables) {
    && 0 <= a.nNew && 0 <= a.nTried && |im.order| == a.nNew + a.nTried && Distinct(im.order)
    && (forall i | 0 <= i < |im.order| :: im.order[i] in a.info && (a.info[im.order[i]].fInTried <==> i >= a.nNew))
    && (forall n | n in a.info :: n in im.order)
    && |im.lists| == |a.vvNew|
    && (forall b | 0 <= b < |im.lists| :: BucketListed(im.order, a.nNew, im.lists[b], a.vvNew[b]))
  }

  ghost predicate BucketListed(order: seq<int>, nNew: int, list: seq<int>, bucket: set<int>)
    requires nNew <= |order|
  {
    && Distinct(list)
    && (forall i | i in list :: 0 <= i < nNew && order[i] in bucket)
    && (forall i | 0 <= i < nNew && order[i] in bucket :: i in list)
  }

  ghost predicate Sane(h: BucketHash, a: Tables) {
    a.nIdCount >= 0 && Consistent(h, a.nKey, a.info, a.addr, a.vvTried, a.vvNew, a.nTried, a.nNew, a.nIdCount, {})
  }

  ghost function TablesOf(am: Manager.AddrMan): Tables
    reads am
  {
    Tables(am.nKey, am.mapInfo, am.mapAddr, am.vvTried, am.vvNew, am.nTried, am.nNew, am.nIdCount)
  }

  // ---------------------------------------------------------------- writing

  /** The first loop of saving: the new entries, numbered from 0 as they are written. */
  method SaveNew(mapInfo: InfoMap, nNew: int) returns (out: seq<Item>, mapUnkIds: map<int, int>, ghost ids: seq<int>)
    requires nNew == |NewIds(mapInfo)| && forall n | n in mapInfo :: mapInfo[n].nRefCount != 0 <==> !mapInfo[n].fInTried
    ensures out == Entries(mapInfo, ids) && |ids| == nNew && Distinct(ids)
    ensures forall n :: n in ids <==> n in NewIds(mapInfo)
    ensures forall j | 0 <= j < |ids| :: ids[j] in mapUnkIds && mapUnkIds[ids[j]] == j
  {
    hide Strip;
    out, mapUnkIds, ids := [], map[], [];
    var nIds := 0;
    var it := Manager.Sorted(mapInfo.Keys);
    var i := 0;
    while i < |it|
      invariant 0 <= i <= |it| && nIds == |ids| && out == Entries(mapInfo, ids) && Distinct(ids)
      invariant forall n :: n in ids <==> n in it[..i] && !mapInfo[n].fInTried
      invariant forall j | 0 <= j < |ids| :: ids[j] in mapUnkIds && mapUnkIds[ids[j]] == j
    {
      if nIds == nNew {
        break;
      }
      var n := it[i];
      assert n in it;
      assert it[..i + 1] == it[..i] + [n] && n !in it[..i];
      mapUnkIds := mapUnkIds[n := nIds];
      var info := mapInfo[n];
      if info.nRefCount != 0 {
        out := out + [Entry(Strip(info))];
        ids := ids + [n];
        nIds := nIds + 1;
      }
      i := i + 1;
    }
    AllFound(ids, NewIds(mapInfo), it[..i] == it);
  }

  /** The second loop of saving: the tried entries. */
  method SaveTried(mapInfo: InfoMap, nTried: int) returns (out: seq<Item>, ghost ids: seq<int>)
    requires nTried == |TriedIds(mapInfo)|
    ensures out == Entries(mapInfo, ids) && |ids| == nTried && Distinct(ids)
    ensures forall n :: n in ids <==> n in TriedIds(mapInfo)
  {
    hide Strip;
    out, ids := [], [];
    var nIds := 0;
    var it := Manager.Sorted(mapInfo.Keys);
    var i := 0;
    while i < |it|
      invariant 0 <= i <= |it| && nIds == |ids| && out == Entries(mapInfo, ids) && Distinct(ids)
      invariant forall n :: n in ids <==> n in it[..i] && mapInfo[n].fInTried
    {
      if nIds == nTried {
        break;
      }
      var n := it[i];
      assert n in it;
      assert it[..i + 1] == it[..i] + [n] && n !in it[..i];
      var info := mapInfo[n];
      if info.fInTried {
        out := out + [Entry(Strip(info))];
        ids := ids + [n];
        nIds := nIds + 1;
      }
      i := i + 1;
    }
    AllFound(ids, TriedIds(mapInfo), it[..i] == it);
  }

  /** The last loop of saving: for every new bucket its size and the numbers of its entries. */
  method SaveBuckets(vvNew: seq<set<int>>, mapUnkIds: map<int, int>, nNew: int, ghost order: seq<int>)
    returns (out: seq<Item>, ghost lists: seq<seq<int>>)
    requires 0 <= nNew <= |order| && Distinct(order)
    requires forall b, n | 0 <= b < |vvNew| && n in vvNew[b] :: n in order[..nNew]
    requires forall j | 0 <= j < nNew :: order[j] in mapUnkIds && mapUnkIds[order[j]] == j
    ensures out == Buckets(lists) && |lists| == |vvNew|
    ensures forall b | 0 <= b < |lists| :: BucketListed(order, nNew, lists[b], vvNew[b])
  {
    hide BucketListed;
    out, lists := [], [];
    for b := 0 to |vvNew|
      invariant out == Buckets(lists) && |lists| == b
      invariant forall c | 0 <= c < b :: BucketListed(order, nNew, lists[c], vvNew[c])
    {
      var items, list := SaveBucket(vvNew[b], mapUnkIds, nNew, order);
      assert (lists + [list])[..b] == lists;
      out := out + items;
      lists := lists + [list];
    }
  }

  method SaveBucket(bucket: set<int>, mapUnkIds: map<int, int>, nNew: int, ghost order: seq<int>)
    returns (out: seq<Item>, ghost list: seq<int>)
    requires 0 <= nNew <= |order| && Distinct(order) && forall n | n in bucket :: n in order[..nNew]
    requires forall j | 0 <= j < nNew :: order[j] in mapUnkIds && mapUnkIds[order[j]] == j
    ensures out == BucketItems(list) && BucketListed(order, nNew, list, bucket)
  {
    var vNew := Manager.Sorted(bucket);
    out, list := [Num(|vNew|)], [];
    for i := 0 to |vNew|
      invariant |list| == i && |out| == i + 1 && out[0] == Num(|vNew|)
          && forall j | 0 <= j < i :: out[j + 1] == Num(list[j])
      invariant forall j | 0 <= j < i :: 0 <= list[j] < nNew && order[list[j]] == vNew[j]
    {
      var n := vNew[i];
      assert n in vNew;
      assert n in bucket;
      ghost var j :| 0 <= j < nNew && order[j] == n;
      var nIndex := if n in mapUnkIds then mapUnkIds[n] else 0;
      out := out + [Num(nIndex)];
      list := list + [nIndex];
    }
    ListedAll(order, nNew, list, vNew, bucket);
  }

  /** Saving. */
  method Save(am: Manager.AddrMan) returns (out: seq<Item>, ghost im: Image)
    requires am.Valid()
    ensures Describes(im, TablesOf(am)) && out == Written(TablesOf(am), im)
  {
    hide Consistent, Entries, Buckets, BucketListed, Describes, Written;
    WhatIsSaved(am);
    var news, mapUnkIds, newIds := SaveNew(am.mapInfo, am.nNew);
    var trieds, triedIds := SaveTried(am.mapInfo, am.nTried);
    ghost var order := newIds + triedIds;
    BothOrders(am.mapInfo, newIds, triedIds);
    assert order[..am.nNew] == newIds;
    var buckets, lists := SaveBuckets(am.vvNew, mapUnkIds, am.nNew, order);
    out := [Num(0), Key(am.nKey), Num(am.nNew), Num(am.nTried), Num(NEW_BUCKET_COUNT)] + news + trieds + buckets;
    im := Image(order, lists);
    Assembled(TablesOf(am), newIds, triedIds, lists);
  }

  lemma Assembled(a: Tables, newIds: seq<int>, triedIds: seq<int>, lists: seq<seq<int>>)
    requires |newIds| == a.nNew && |triedIds| == a.nTried && Distinct(newIds) && Distinct(triedIds)
    requires forall n :: n in newIds <==> n in NewIds(a.info)
    requires forall n :: n in triedIds <==> n in TriedIds(a.info)
    requires |lists| == |a.vvNew| && forall b | 0 <= b < |lists| ::
        BucketListed(newIds + triedIds, a.nNew, lists[b], a.vvNew[b])
    ensures Describes(Image(newIds + triedIds, lists), a)
    ensures Written(a, Image(newIds + triedIds, lists)) ==
            [Num(0), Key(a.nKey), Num(a.nNew), Num(a.nTried), Num(NEW_BUCKET_COUNT)] + Entries(a.info, newIds) +
            Entries(a.info, triedIds) + Buckets(lists)
  {
    hide Entries, Buckets, BucketListed;
    BothOrders(a.info, newIds, triedIds);
  }

  lemma WhatIsSaved(am: Manager.AddrMan)
    requires am.Valid()
    ensures am.nNew == |NewIds(am.mapInfo)| && am.nTried == |TriedIds(am.mapInfo)|
    ensures forall n | n in am.mapInfo :: am.mapInfo[n].nRefCount != 0 <==> !am.mapInfo[n].fInTried
    ensures forall b, n | 0 <= b < |am.vvNew| && n in am.vvNew[b] :: n in NewIds(am.mapInfo)
  {
    forall n | n in am.mapInfo ensures am.mapInfo[n].nRefCount != 0 <==> !am.mapInfo[n].fInTried {
      assert RefOk(am.mapInfo[n], Count(am.vvNew, n) + if n in {} then 1 else 0);
    }
    forall b, n | 0 <= b < |am.vvNew| && n in am.vvNew[b] ensures n in NewIds(am.mapInfo) {
      CountMember(am.vvNew, b, n);
      assert RefOk(am.mapInfo[n], Count(am.vvNew, n) + if n in {} then 1 else 0);
    }
  }

  lemma BothOrders(info: InfoMap, newIds: seq<int>, triedIds: seq<int>)
    requires Distinct(newIds) && Distinct(triedIds)
    requires forall n :: n in newIds <==> n in NewIds(info)
    requires forall n :: n in triedIds <==> n in TriedIds(info)
    ensures Distinct(newIds + triedIds)
        && Entries(info, newIds + triedIds) == Entries(info, newIds) + Entries(info, triedIds)
    ensures forall n | n in info :: n in newIds + triedIds
    ensures forall i | 0 <= i < |newIds + triedIds| ::
              (newIds + triedIds)[i] in info && (info[(newIds + triedIds)[i]].fInTried <==> i >= |newIds|)
  {
    forall i | 0 <= i < |newIds| ensures newIds[i] in NewIds(info) {
      var n := newIds[i];
      assert n in newIds;
    }
    forall i | 0 <= i < |triedIds| ensures triedIds[i] in TriedIds(info) {
      var n := triedIds[i];
      assert n in triedIds;
    }
  }

  /** A loop over all ids that stops early once it has found enough of them has found them all. */
  lemma AllFound(ids: seq<int>, all: set<int>, whole: bool)
    requires Distinct(ids) && forall n | n in ids :: n in all
    requires |ids| == |all| || (whole && forall n | n in all :: n in ids)
    ensures |ids| == |all| && forall n | n in all :: n in ids
  {
    DistinctSize(ids);
    if whole && forall n | n in all :: n in ids {
      assert Elements(ids) == all;
    } else if exists n :: n in all && n !in ids {
      var n :| n in all && n !in ids;
      SubsetSize(Elements(ids), all - {n});
    }
  }

  lemma ListedAll(order: seq<int>, nNew: int, list: seq<int>, vNew: seq<int>, bucket: set<int>)
    requires nNew <= |order| && Distinct(order) && |list| == |vNew| && Manager.Ascending(vNew)
    requires forall n :: n in vNew <==> n in bucket
    requires forall j | 0 <= j < |list| :: 0 <= list[j] < nNew && order[list[j]] == vNew[j]
    ensures BucketListed(order, nNew, list, bucket)
  {
    forall i | 0 <= i < nNew && order[i] in bucket ensures i in list {
      var j :| 0 <= j < |vNew| && vNew[j] == order[i];
      assert list[j] == i;
    }
    forall i | i in list ensures 0 <= i < nNew && order[i] in bucket {
      var j :| 0 <= j < |list| && list[j] == i;
      assert vNew[j] in vNew;
    }
  }

  // ---------------------------------------------------------------- what reading back means

  /** An entry after it was written and read back as number `pos`, with `refs` references so far. */
  function Reloaded(e: AddrInfo, refs: int,
      pos: int): AddrInfo { e.(nLastTry := 0, nRefCount := refs, nRandomPos := pos) }

  function IpOf(a: Tables, n: int): NetAddr { if n in a.info then a.info[n].addr.ip else 0 }

  /** b holds what a holds; entry order[i] of a is entry i of b. Only the time of the last try, the places in
      vRandom and the order inside tried buckets may differ. */
  ghost predicate Isomorphic(order: seq<int>, a: Tables, b: Tables) {
    && Distinct(order) && Elements(order) == a.info.Keys
    && b.nKey == a.nKey && b.nNew == a.nNew && b.nTried == a.nTried && b.nIdCount == |order|
    && (forall i :: i in b.info <==> 0 <= i < |order|)
    && (forall i | 0 <= i < |order| ::
          order[i] in a.info && b.info[i] == Reloaded(a.info[order[i]], a.info[order[i]].nRefCount, i))
    && AddressesRead(b.addr, a, order, |order|)
    && |b.vvNew| == |a.vvNew| && (forall c | 0 <= c < |a.vvNew| :: SetRead(b.vvNew[c], order, |order|, a.vvNew[c]))
    && |b.vvTried| == |a.vvTried| && (forall k | 0 <= k < |a.vvTried| ::
        ListRead(b.vvTried[k], order, |order|, a.vvTried[k]))
  }

  /** The bucket holds the numbers, below n, of the ids that the other bucket holds. */
  ghost predicate SetRead(bucket: set<int>, order: seq<int>, n: nat, was: set<int>) {
    n <= |order| && forall i :: i in bucket <==> 0 <= i < n && order[i] in was
  }

  ghost predicate ListRead(bucket: seq<int>, order: seq<int>, n: nat, was: seq<int>) {
    n <= |order| && Distinct(bucket) && forall i :: i in bucket <==> 0 <= i < n && order[i] in was
  }

  ghost predicate AddressesRead(addr: AddrMap, a: Tables, order: seq<int>, n: nat) {
    && n <= |order|
    && (forall i | 0 <= i < n :: IpOf(a, order[i]) in addr && addr[IpOf(a, order[i])] == i)
    && (forall ip | ip in addr :: 0 <= addr[ip] < n && IpOf(a, order[addr[ip]]) == ip)
  }

  /** Whatever is isomorphic to tables that agree agrees as well. */
  lemma IsomorphicConsistent(h: BucketHash, order: seq<int>, a: Tables, b: Tables)
    requires Sane(h, a) && Isomorphic(order, a, b)
    ensures Sane(h, b)
  {
    hide Consistent, AddrOk, TriedOk, NewOk, StatsOk, CountsOk;
    IsomorphicAddr(h, order, a, b);
    IsomorphicTried(h, order, a, b);
    IsomorphicNew(h, order, a, b);
    IsomorphicStats(h, order, a, b);
    Assemble(h, b);
  }

  lemma Assemble(h: BucketHash, b: Tables)
    requires AddrOk(b.info, b.addr) && TriedOk(h, b.nKey, b.info, b.vvTried) && NewOk(b.info, b.vvNew, {})
        && b.nIdCount >= 0
    requires StatsOk(b.info, b.nIdCount) && CountsOk(b.info, b.nTried, b.nNew)
    ensures Sane(h, b)
  {
    hide AddrOk, TriedOk, NewOk, StatsOk, CountsOk;
  }

  lemma IsomorphicAddr(h: BucketHash, order: seq<int>, a: Tables, b: Tables)
    requires Sane(h, a) && Isomorphic(order, a, b)
    ensures AddrOk(b.info, b.addr)
  {
    hide TriedOk, NewOk, StatsOk, CountsOk;
    forall i | i in b.info ensures b.info[i].addr.ip in b.addr && b.addr[b.info[i].addr.ip] == i {
      assert IpOf(a, order[i]) == b.info[i].addr.ip;
    }
    forall ip | ip in b.addr ensures b.addr[ip] in b.info && b.info[b.addr[ip]].addr.ip == ip {
      assert IpOf(a, order[b.addr[ip]]) == ip;
    }
  }

  lemma IsomorphicTried(h: BucketHash, order: seq<int>, a: Tables, b: Tables)
    requires Sane(h, a) && Isomorphic(order, a, b)
    ensures TriedOk(h, b.nKey, b.info, b.vvTried)
  {
    hide AddrOk, NewOk, StatsOk, CountsOk, AddressesRead;
    forall k | 0 <= k < TRIED_BUCKET_COUNT ensures BucketOk(h, b.nKey, b.info, b.vvTried[k], k) {
      assert BucketOk(h, a.nKey, a.info, a.vvTried[k], k);
      assert ListRead(b.vvTried[k], order, |order|, a.vvTried[k]);
      ImageSize(order, b.vvTried[k], Elements(a.vvTried[k]));
      DistinctSize(a.vvTried[k]);
    }
    forall i | i in b.info && b.info[i].fInTried ensures i in b.vvTried[TriedBucket(h, b.nKey, b.info[i].addr)] {
      var k := TriedBucket(h, a.nKey, a.info[order[i]].addr);
      assert order[i] in a.vvTried[k];
      assert ListRead(b.vvTried[k], order, |order|, a.vvTried[k]);
    }
  }

  /** Renumbering does not make a list longer. */
  lemma {:induction false} ImageSize(order: seq<int>, list: seq<int>, target: set<int>)
    requires Distinct(order) && Distinct(list) && forall i | i in list :: 0 <= i < |order| && order[i] in target
    ensures |list| <= |target|
  {
    if list != [] {
      var k := |list| - 1;
      assert list[k] in list;
      forall i | i in list[..k] ensures i in list && i != list[k] {
      }
      ImageSize(order, list[..k], target - {order[list[k]]});
    }
  }

  lemma IsomorphicNew(h: BucketHash, order: seq<int>, a: Tables, b: Tables)
    requires Sane(h, a) && Isomorphic(order, a, b)
    ensures NewOk(b.info, b.vvNew, {})
  {
    hide AddrOk, TriedOk, StatsOk, CountsOk, AddressesRead;
    forall c | 0 <= c < NEW_BUCKET_COUNT ensures |b.vvNew[c]| <= NEW_BUCKET_SIZE && b.vvNew[c] <= b.info.Keys {
      assert SetRead(b.vvNew[c], order, |order|, a.vvNew[c]);
      ImageSetSize(order, b.vvNew[c], a.vvNew[c]);
      forall i | i in b.vvNew[c] ensures i in b.info {
      }
    }
    forall i | i in b.info ensures RefOk(b.info[i], Count(b.vvNew, i) + if i in {} then 1 else 0) {
      assert RefOk(a.info[order[i]], Count(a.vvNew, order[i]) + if order[i] in {} then 1 else 0);
      forall c | 0 <= c < |b.vvNew| ensures i in b.vvNew[c] <==> order[i] in a.vvNew[c] {
        assert SetRead(b.vvNew[c], order, |order|, a.vvNew[c]);
      }
      SameCount(b.vvNew, i, a.vvNew, order[i]);
    }
  }

  lemma {:induction false} ImageSetSize(order: seq<int>, s: set<int>, target: set<int>)
    requires Distinct(order) && forall i | i in s :: 0 <= i < |order| && order[i] in target
    ensures |s| <= |target|
    decreases |s|
  {
    if s != {} {
      var i := AnyMember(s);
      ImageSetSize(order, s - {i}, target - {order[i]});
    }
  }

  lemma {:induction false} SameCount(v: seq<set<int>>, m: int, w: seq<set<int>>, n: int)
    requires |v| == |w| && forall c | 0 <= c < |v| :: m in v[c] <==> n in w[c]
    ensures Count(v, m) == Count(w, n)
  {
    if v != [] {
      SameCount(v[..|v| - 1], m, w[..|w| - 1], n);
    }
  }

  lemma IsomorphicStats(h: BucketHash, order: seq<int>, a: Tables, b: Tables)
    requires Sane(h, a) && Isomorphic(order, a, b)
    ensures StatsOk(b.info, b.nIdCount) && CountsOk(b.info, b.nTried, b.nNew)
  {
    hide AddrOk, TriedOk, NewOk, AddressesRead;
    forall i | 0 <= i < |order| ensures order[i] in a.info && a.info[order[i]].nLastSuccess >= 0 {
      assert order[i] in Elements(order);
    }
    forall n | n in a.info ensures n in order {
      assert n in Elements(order);
    }
    SameSize(order, TriedIds(b.info), TriedIds(a.info));
    SameSize(order, NewIds(b.info), NewIds(a.info));
  }

  lemma SameSize(order: seq<int>, s: set<int>, t: set<int>)
    requires Distinct(order) && (forall i | i in s :: 0 <= i < |order| && order[i] in t)
    requires forall n | n in t :: exists i | 0 <= i < |order| :: order[i] == n && i in s
    ensures |s| == |t|
    decreases |t|
  {
    if t != {} {
      var n := AnyMember(t);
      var i :| 0 <= i < |order| && order[i] == n && i in s;
      SameSize(order, s - {i}, t - {n});
      assert |t - {n}| == |t| - 1;
    } else {
      ImageSetSize(order, s, t);
    }
  }

  // ---------------------------------------------------------------- reading

  /** The stream is one that saving these tables can have produced. */
  ghost predicate Saved(h: BucketHash, stream: seq<Item>, a: Tables, im: Image) {
    Sane(h, a) && Describes(im, a) && stream == Written(a, im)
  }

  /** How many references entry i has once the first b buckets and the numbers in `done` are read. */
  ghost function RefsRead(a: Tables, order: seq<int>, b: nat, done: seq<int>, i: nat): nat
    requires i < |order| && b <= |a.vvNew|
  {
    if i < a.nNew then Count(a.vvNew[..b], order[i]) + (if i in done then 1 else 0) else 0
  }

  /** The first n entries are read, and the references of the first b buckets and those in `done`. */
  ghost predicate InfoRead(info: InfoMap, a: Tables, order: seq<int>, n: nat, b: nat, done: seq<int>) {
    && n <= |order| && b <= |a.vvNew|
    && (forall i :: i in info <==> 0 <= i < n)
    && (forall i | 0 <= i < n ::
          order[i] in a.info && info[i] == Reloaded(a.info[order[i]], RefsRead(a, order, b, done, i), i))
  }

  ghost predicate RandomRead(rnd: seq<int>, n: nat) { |rnd| == n && forall i | 0 <= i < n :: rnd[i] == i }

  ghost predicate EntriesRead(am: Manager.AddrMan, a: Tables, order: seq<int>, n: nat)
    reads am`mapInfo, am`mapAddr, am`vRandom
  {
    InfoRead(am.mapInfo, a, order, n, 0, []) && AddressesRead(am.mapAddr, a, order, n) && RandomRead(am.vRandom, n)
  }

  ghost predicate TriedRead(vvTried: seq<seq<int>>, a: Tables, order: seq<int>, n: nat) {
    |vvTried| == |a.vvTried| && forall k | 0 <= k < |vvTried| :: ListRead(vvTried[k], order, n, a.vvTried[k])
  }

  /** The first b buckets are read, of bucket b the numbers in `done`, and of the others nothing. */
  ghost predicate NewRead(vvNew: seq<set<int>>, a: Tables, order: seq<int>, b: nat, done: seq<int>) {
    && |vvNew| == |a.vvNew| && forall c | 0 <= c < |vvNew| ::
         if c < b then SetRead(vvNew[c], order, |order|, a.vvNew[c])
         else if c == b then (forall i :: i in vvNew[c] <==> i in done) else vvNew[c] == {}
  }

  /** The loop that reads the new entries. `rebucket`: the file has another number of new buckets. */
  method LoadNew(am: Manager.AddrMan, stream: seq<Item>, rebucket: bool, ghost a: Tables,
      ghost im: Image) returns (ok: bool, pos: nat)
    requires am.mapInfo == map[] && am.mapAddr == map[] && am.vRandom == [] && |am.vvNew| == NEW_BUCKET_COUNT
    requires Saved(am.hash, stream, a, im) ==> am.nNew == a.nNew && !rebucket
    modifies am`mapInfo, am`mapAddr, am`vRandom, am`vvNew
    ensures |am.vvNew| == NEW_BUCKET_COUNT && (!rebucket ==> am.vvNew == old(am.vvNew))
    ensures Saved(am.hash, stream, a, im) ==> ok && pos == 5 + a.nNew && EntriesRead(am, a, im.order, a.nNew)
  {
    hide Saved, InfoRead, AddressesRead, RandomRead, Unstrip;
    ghost var good := Saved(am.hash, stream, a, im);
    pos := 5;
    if good {
      NothingRead(am.hash, stream, a, im);
    }
    var n := 0;
    while n < am.nNew
      invariant |am.vvNew| == NEW_BUCKET_COUNT && (!rebucket ==> am.vvNew == old(am.vvNew))
      invariant 0 <= n && pos == 5 + n && (good ==> n <= a.nNew)
      invariant good ==> EntriesRead(am, a, im.order, n)
    {
      ghost var info0, addr0, rnd0 := am.mapInfo, am.mapAddr, am.vRandom;
      if good {
        EntryWritten(am.hash, stream, a, im, n);
        SizeRead(am.vRandom, n);
      }
      if pos >= |stream| || !stream[pos].Entry? {
        return false, pos;
      }
      var info := Unstrip(stream[pos].info);
      pos := pos + 1;
      am.mapAddr := am.mapAddr[info.addr.ip := n];
      info := info.(nRandomPos := |am.vRandom|);
      am.vRandom := am.vRandom + [n];
      if rebucket {
        var nUBucket := NewBucket(am.hash, am.nKey, info.addr, info.source);
        am.vvNew := am.vvNew[nUBucket := am.vvNew[nUBucket] + {n}];
        info := info.(nRefCount := info.nRefCount + 1);
      }
      am.mapInfo := am.mapInfo[n := info];
      if good {
        Unstripped(a.info[im.order[n]]);
        OneMoreRead(am.hash, stream, a, im, n, info0, addr0, rnd0);
      }
      n := n + 1;
    }
    ok := true;
  }

  /** The loop that reads the tried entries; one whose bucket is full is lost. */
  method LoadTried(am: Manager.AddrMan, stream: seq<Item>, pos0: nat, ghost a: Tables, ghost im: Image)
    returns (ok: bool, pos: nat, nLost: nat)
    requires |am.vvTried| == TRIED_BUCKET_COUNT && forall k | 0 <= k < TRIED_BUCKET_COUNT :: am.vvTried[k] == []
    requires Saved(am.hash, stream, a, im) ==> am.nKey == a.nKey && am.nTried == a.nTried && am.nIdCount == a.nNew
                                               && pos0 == 5 + a.nNew
    requires Saved(am.hash, stream, a, im) ==> EntriesRead(am, a, im.order, a.nNew)
    modifies am`mapInfo, am`mapAddr, am`vRandom, am`vvTried, am`nIdCount
    ensures Saved(am.hash, stream, a, im) ==> ok && nLost == 0 && pos == 5 + |im.order| && am.nIdCount == |im.order|
    ensures Saved(am.hash, stream, a, im) ==> EntriesRead(am, a, im.order, |im.order|)
                                              && TriedRead(am.vvTried, a, im.order, |im.order|)
  {
    hide Saved, InfoRead, AddressesRead, RandomRead, TriedRead, Unstrip;
    ghost var good := Saved(am.hash, stream, a, im);
    pos, nLost := pos0, 0;
    if good {
      NoTriedRead(am.hash, stream, a, im, am.vvTried);
    }
    var n := 0;
    while n < am.nTried
      invariant |am.vvTried| == TRIED_BUCKET_COUNT && n >= 0
      invariant good ==> n <= a.nTried && pos == 5 + a.nNew + n && nLost == 0 && am.nIdCount == a.nNew + n
      invariant good ==> a.nNew >= 0 && |im.order| == a.nNew + a.nTried
      invariant good ==> EntriesRead(am, a, im.order, a.nNew + n) && TriedRead(am.vvTried, a, im.order, a.nNew + n)
    {
      ghost var info0, addr0, rnd0, tried0 := am.mapInfo, am.mapAddr, am.vRandom, am.vvTried;
      ghost var i := a.nNew + n;
      if good {
        EntryWritten(am.hash, stream, a, im, i);
        SizeRead(am.vRandom, i);
        Unstripped(a.info[im.order[i]]);
        TriedFits(am.hash, stream, a, im, i, am.vvTried);
      }
      if pos >= |stream| || !stream[pos].Entry? {
        return false, pos, nLost;
      }
      var info := Unstrip(stream[pos].info);
      pos := pos + 1;
      var k := TriedBucket(am.hash, am.nKey, info.addr);
      if |am.vvTried[k]| < TRIED_BUCKET_SIZE {
        info := info.(nRandomPos := |am.vRandom|, fInTried := true);
        am.vRandom := am.vRandom + [am.nIdCount];
        am.mapInfo := am.mapInfo[am.nIdCount := info];
        am.mapAddr := am.mapAddr[info.addr.ip := am.nIdCount];
        am.vvTried := am.vvTried[k := am.vvTried[k] + [am.nIdCount]];
        am.nIdCount := am.nIdCount + 1;
        if good {
          OneMoreRead(am.hash, stream, a, im, i, info0, addr0, rnd0);
          OneMoreTried(am.hash, stream, a, im, i, tried0);
        }
      } else {
        nLost := nLost + 1;
      }
      n := n + 1;
    }
    ok := true;
  }

  lemma NothingRead(h: BucketHash, stream: seq<Item>, a: Tables, im: Image)
    requires Saved(h, stream, a, im)
    ensures a.nNew >= 0 && a.nTried >= 0 && |im.order| == a.nNew + a.nTried
    ensures InfoRead(map[], a, im.order, 0, 0, []) && AddressesRead(map[], a, im.order, 0) && RandomRead([], 0)
  {
    hide Consistent, Written, BucketListed;
  }

  lemma SizeRead(rnd: seq<int>, n: nat)
    requires RandomRead(rnd, n)
    ensures |rnd| == n
  {
  }

  lemma EntryWritten(h: BucketHash, stream: seq<Item>, a: Tables, im: Image, i: nat)
    requires Saved(h, stream, a, im) && i < a.nNew + a.nTried
    ensures |im.order| == a.nNew + a.nTried && im.order[i] in a.info && 5 + i < |stream|
    ensures stream[5 + i] == Entry(Strip(a.info[im.order[i]])) && (a.info[im.order[i]].fInTried <==> i >= a.nNew)
  {
    hide Consistent, BucketListed, Buckets;
    assert Entries(a.info, im.order)[i] == EntryAt(a.info, im.order[i]);
  }

  lemma Unstripped(e: AddrInfo)
    ensures Unstrip(Strip(e)).addr == e.addr
    ensures forall i :: Unstrip(Strip(e)).(nRandomPos := i, fInTried := e.fInTried) == Reloaded(e, 0, i)
    ensures !e.fInTried ==> forall i :: Unstrip(Strip(e)).(nRandomPos := i) == Reloaded(e, 0, i)
  {
  }

  lemma OneMoreRead(h: BucketHash, stream: seq<Item>, a: Tables, im: Image, i: nat, info: InfoMap, addr: AddrMap,
      rnd: seq<int>)
    requires Saved(h, stream, a, im) && i < |im.order| && im.order[i] in a.info
    requires InfoRead(info, a, im.order, i, 0, []) && AddressesRead(addr, a, im.order, i) && RandomRead(rnd, i)
    ensures InfoRead(info[i := Reloaded(a.info[im.order[i]], 0, i)], a, im.order, i + 1, 0, [])
    ensures AddressesRead(addr[a.info[im.order[i]].addr.ip := i], a, im.order, i + 1) && RandomRead(rnd + [i], i + 1)
  {
    hide Written, BucketListed, TriedOk, NewOk, StatsOk, CountsOk;
    assert RefsRead(a, im.order, 0, [], i) == 0;
    forall j | 0 <= j < i ensures IpOf(a, im.order[j]) != IpOf(a, im.order[i]) {
      assert im.order[j] in a.info && im.order[j] != im.order[i];
    }
  }

  lemma NoTriedRead(h: BucketHash, stream: seq<Item>, a: Tables, im: Image, vvTried: seq<seq<int>>)
    requires Saved(h, stream, a, im) && |vvTried| == TRIED_BUCKET_COUNT
        && forall k | 0 <= k < TRIED_BUCKET_COUNT :: vvTried[k] == []
    ensures a.nNew >= 0 && a.nTried >= 0 && |im.order| == a.nNew + a.nTried && TriedRead(vvTried, a, im.order, a.nNew)
  {
    hide BucketListed, NewOk, StatsOk, CountsOk, AddrOk;
    forall k | 0 <= k < |vvTried| ensures ListRead(vvTried[k], im.order, a.nNew, a.vvTried[k]) {
      assert BucketOk(h, a.nKey, a.info, a.vvTried[k], k);
      forall i | 0 <= i < a.nNew ensures im.order[i] !in a.vvTried[k] {
        assert !a.info[im.order[i]].fInTried;
      }
    }
  }

  /** No tried bucket is full when the next entry of it is read. */
  lemma TriedFits(h: BucketHash, stream: seq<Item>, a: Tables, im: Image, i: nat, vvTried: seq<seq<int>>)
    requires Saved(h, stream, a, im) && TriedRead(vvTried, a, im.order, i) && a.nNew <= i < |im.order|
        && im.order[i] in a.info
    ensures |vvTried| == TRIED_BUCKET_COUNT
        && |vvTried[TriedBucket(h, a.nKey, a.info[im.order[i]].addr)]| < TRIED_BUCKET_SIZE
  {
    hide BucketListed, NewOk, StatsOk, CountsOk, AddrOk;
    var k := TriedBucket(h, a.nKey, a.info[im.order[i]].addr);
    assert ListRead(vvTried[k], im.order, i, a.vvTried[k]) && BucketOk(h, a.nKey, a.info, a.vvTried[k], k);
    var list := vvTried[k] + [i];
    assert a.info[im.order[i]].fInTried && im.order[i] in a.vvTried[k];
    forall j | j in list ensures 0 <= j < |im.order| && im.order[j] in Elements(a.vvTried[k]) {
    }
    ImageSize(im.order, list, Elements(a.vvTried[k]));
    DistinctSize(a.vvTried[k]);
  }

  lemma OneMoreTried(h: BucketHash, stream: seq<Item>, a: Tables, im: Image, i: nat, vvTried: seq<seq<int>>)
    requires Saved(h, stream, a, im) && TriedRead(vvTried, a, im.order, i) && a.nNew <= i < |im.order|
        && im.order[i] in a.info
    ensures var k := TriedBucket(h, a.nKey, a.info[im.order[i]].addr);
            k < |vvTried| && TriedRead(vvTried[k := vvTried[k] + [i]], a, im.order, i + 1)
  {
    hide BucketListed, NewOk, StatsOk, CountsOk, AddrOk;
    var k := TriedBucket(h, a.nKey, a.info[im.order[i]].addr);
    var vvTried' := vvTried[k := vvTried[k] + [i]];
    assert a.info[im.order[i]].fInTried && im.order[i] in a.vvTried[k];
    forall c | 0 <= c < |vvTried| ensures ListRead(vvTried'[c], im.order, i + 1, a.vvTried[c]) {
      assert ListRead(vvTried[c], im.order, i, a.vvTried[c]) && BucketOk(h, a.nKey, a.info, a.vvTried[c], c);
      assert forall j :: j in vvTried'[c] <==> j in vvTried[c] || (c == k && j == i);
    }
  }

  /** The loop that reads the new buckets. */
  method LoadBuckets(am: Manager.AddrMan, stream: seq<Item>, pos0: nat, nUBuckets: int, ghost a: Tables,
      ghost im: Image) returns (ok: bool)
    requires |am.vvNew| == NEW_BUCKET_COUNT
    requires Saved(am.hash, stream, a, im) ==> nUBuckets == NEW_BUCKET_COUNT && pos0 == 5 + |im.order|
    requires Saved(am.hash, stream, a, im) ==> InfoRead(am.mapInfo, a, im.order, |im.order|, 0, [])
                                               && NewRead(am.vvNew, a, im.order, 0, [])
    modifies am`mapInfo, am`vvNew
    ensures Saved(am.hash, stream, a, im) ==> ok
    ensures Saved(am.hash, stream, a, im) ==>
      InfoRead(am.mapInfo, a, im.order, |im.order|, |a.vvNew|, []) && NewRead(am.vvNew, a, im.order, |a.vvNew|, [])
  {
    hide Saved, InfoRead, NewRead, Buckets;
    ghost var good := Saved(am.hash, stream, a, im);
    var pos: nat := pos0;
    if good {
      BucketsWritten(am.hash, stream, a, im);
    }
    var b := 0;
    while b < nUBuckets
      invariant b >= 0 && |am.vvNew| == NEW_BUCKET_COUNT
          && (good ==> b <= |im.lists| && pos == 5 + |im.order| + |Buckets(im.lists[..b])|)
      invariant good ==> InfoRead(am.mapInfo, a, im.order, |im.order|, b, []) && NewRead(am.vvNew, a, im.order, b, [])
    {
      if good {
        BucketWritten(am.hash, stream, a, im, b);
      }
      if pos >= |stream| || !stream[pos].Num? {
        return false;
      }
      var nSize := stream[pos].n;
      ok, pos := LoadBucket(am, stream, pos + 1, b, nSize, nUBuckets, a, im);
      if !ok {
        return;
      }
      if good {
        BucketRead(am.hash, stream, a, im, b, am.mapInfo, am.vvNew);
      }
      b := b + 1;
    }
    ok := true;
  }

  /** One bucket of it. An index nobody has makes mapInfo hold a blank entry for it. */
  method LoadBucket(am: Manager.AddrMan, stream: seq<Item>, pos0: nat, b: nat, nSize: int, nUBuckets: int,
      ghost a: Tables, ghost im: Image)
    returns (ok: bool, pos: nat)
    requires |am.vvNew| == NEW_BUCKET_COUNT && b < nUBuckets
    requires Saved(am.hash, stream, a, im) ==> nUBuckets == NEW_BUCKET_COUNT == |im.lists| && nSize == |im.lists[b]|
    requires Saved(am.hash, stream, a, im) ==> pos0 == 6 + |im.order| + |Buckets(im.lists[..b])|
    requires Saved(am.hash, stream, a, im) ==> InfoRead(am.mapInfo, a, im.order, |im.order|, b, [])
                                               && NewRead(am.vvNew, a, im.order, b, [])
    modifies am`mapInfo, am`vvNew
    ensures |am.vvNew| == NEW_BUCKET_COUNT
    ensures Saved(am.hash, stream, a, im) ==> ok && b < |im.lists| && pos == pos0 + |im.lists[b]|
    ensures Saved(am.hash, stream, a, im) ==>
      InfoRead(am.mapInfo, a, im.order, |im.order|, b, im.lists[b]) && NewRead(am.vvNew, a, im.order, b, im.lists[b])
  {
    hide Saved, InfoRead, NewRead, Buckets;
    ghost var good := Saved(am.hash, stream, a, im);
    pos := pos0;
    var n := 0;
    while n < nSize
      invariant n >= 0 && |am.vvNew| == NEW_BUCKET_COUNT && pos == pos0 + n
          && (good ==> b < |im.lists| && n <= |im.lists[b]|)
      invariant good ==> InfoRead(am.mapInfo, a, im.order, |im.order|, b, im.lists[b][..n])
                         && NewRead(am.vvNew, a, im.order, b, im.lists[b][..n])
    {
      if good {
        IndexWritten(am.hash, stream, a, im, b, n);
        Referenced(am.hash, stream, a, im, b, n, am.mapInfo);
      }
      if pos >= |stream| || !stream[pos].Num? {
        return false, pos;
      }
      var nIndex := stream[pos].n;
      pos := pos + 1;
      if nIndex !in am.mapInfo {
        am.mapInfo := am.mapInfo[nIndex := BLANK];
      }
      ghost var info0, new0 := am.mapInfo, am.vvNew;
      if nUBuckets == NEW_BUCKET_COUNT && am.mapInfo[nIndex].nRefCount < NEW_BUCKETS_PER_ADDRESS {
        am.mapInfo := am.mapInfo[nIndex := am.mapInfo[nIndex].(nRefCount := am.mapInfo[nIndex].nRefCount + 1)];
        am.vvNew := am.vvNew[b := am.vvNew[b] + {nIndex}];
      }
      if good {
        OneMoreReference(am.hash, stream, a, im, b, n, info0, new0);
      }
      n := n + 1;
    }
    if good {
      assert im.lists[b][..n] == im.lists[b];
    }
    ok := true;
  }

  lemma BucketsWritten(h: BucketHash, stream: seq<Item>, a: Tables, im: Image)
    requires Saved(h, stream, a, im)
    ensures |im.lists| == |a.vvNew| == NEW_BUCKET_COUNT && Buckets(im.lists[..0]) == []
  {
    hide Written, TriedOk, AddrOk, StatsOk, CountsOk, BucketListed;
  }

  lemma {:induction false} BucketsAt(lists: seq<seq<int>>, b: nat, j: nat)
    requires b < |lists| && j <= |lists[b]|
    ensures |Buckets(lists[..b])| + j < |Buckets(lists)|
        && Buckets(lists)[|Buckets(lists[..b])| + j] == BucketItems(lists[b])[j]
    ensures |Buckets(lists[..b + 1])| == |Buckets(lists[..b])| + 1 + |lists[b]|
  {
    var k := |lists| - 1;
    assert lists[..b + 1][..b] == lists[..b];
    if b < k {
      assert lists[..k][..b] == lists[..b] && lists[..k][..b + 1] == lists[..b + 1];
      BucketsAt(lists[..k], b, j);
    }
  }

  lemma BucketWritten(h: BucketHash, stream: seq<Item>, a: Tables, im: Image, b: nat)
    requires Saved(h, stream, a, im) && b < |im.lists|
    ensures var pos := 5 + |im.order| + |Buckets(im.lists[..b])|;
            pos < |stream| && stream[pos] == Num(|im.lists[b]|)
    ensures |Buckets(im.lists[..b + 1])| == |Buckets(im.lists[..b])| + 1 + |im.lists[b]|
    ensures |im.lists| == NEW_BUCKET_COUNT
  {
    hide TriedOk, AddrOk, StatsOk, CountsOk, BucketListed, Buckets, Entries;
    BucketsAt(im.lists, b, 0);
  }

  lemma IndexWritten(h: BucketHash, stream: seq<Item>, a: Tables, im: Image, b: nat, n: nat)
    requires Saved(h, stream, a, im) && b < |im.lists| && n < |im.lists[b]|
    ensures var pos := 6 + |im.order| + |Buckets(im.lists[..b])| + n;
            pos < |stream| && stream[pos] == Num(im.lists[b][n])
  {
    hide TriedOk, AddrOk, StatsOk, CountsOk, NewOk, BucketListed, Buckets, Entries;
    BucketsAt(im.lists, b, n + 1);
    assert BucketItems(im.lists[b])[n + 1] == Num(im.lists[b][n]);
  }

  /** The entry is known when a reference to it is read, and has fewer than four. */
  lemma Referenced(h: BucketHash, stream: seq<Item>, a: Tables, im: Image, b: nat, n: nat, info: InfoMap)
    requires Saved(h, stream, a, im) && b < |im.lists| && n < |im.lists[b]|
        && InfoRead(info, a, im.order, |im.order|, b, im.lists[b][..n])
    ensures 0 <= im.lists[b][n] < a.nNew <= |im.order| && im.lists[b][n] !in im.lists[b][..n]
    ensures im.lists[b][n] in info && info[im.lists[b][n]].nRefCount < NEW_BUCKETS_PER_ADDRESS
  {
    hide Written, TriedOk, AddrOk, StatsOk, CountsOk;
    var i := im.lists[b][n];
    assert BucketListed(im.order, a.nNew, im.lists[b], a.vvNew[b]);
    assert i in im.lists[b];
    CountPrefix(a.vvNew, b, im.order[i]);
    assert RefOk(a.info[im.order[i]], Count(a.vvNew, im.order[i]) + if im.order[i] in {} then 1 else 0);
  }

  lemma OneMoreReference(h: BucketHash, stream: seq<Item>, a: Tables, im: Image, b: nat, n: nat, info: InfoMap,
      vvNew: seq<set<int>>)
    requires Saved(h, stream, a, im) && b < |im.lists| && n < |im.lists[b]| && im.lists[b][n] in info
    requires InfoRead(info, a, im.order, |im.order|, b, im.lists[b][..n])
        && NewRead(vvNew, a, im.order, b, im.lists[b][..n])
    ensures var i := im.lists[b][n];
            && InfoRead(info[i := info[i].(nRefCount := info[i].nRefCount + 1)], a, im.order, |im.order|, b,
                im.lists[b][..n + 1])
            && b < |vvNew| && NewRead(vvNew[b := vvNew[b] + {i}], a, im.order, b, im.lists[b][..n + 1])
  {
    hide Written, Sane, BucketListed;
    Referenced(h, stream, a, im, b, n, info);
    var i, done, done' := im.lists[b][n], im.lists[b][..n], im.lists[b][..n + 1];
    assert done' == done + [i];
    forall j | 0 <= j < |im.order| ensures RefsRead(a, im.order, b, done', j)
        == RefsRead(a, im.order, b, done, j) + if j == i then 1 else 0 {
    }
  }

  lemma TriedUnlisted(h: BucketHash, a: Tables, n: int, b: nat)
    requires Sane(h, a) && b < |a.vvNew| && n in a.info && a.info[n].fInTried
    ensures n !in a.vvNew[b]
  {
    assert RefOk(a.info[n], Count(a.vvNew, n) + if n in {} then 1 else 0);
    if n in a.vvNew[b] {
      CountMember(a.vvNew, b, n);
    }
  }

  /** A bucket that was read to its end. */
  lemma BucketRead(h: BucketHash, stream: seq<Item>, a: Tables, im: Image, b: nat, info: InfoMap, vvNew: seq<set<int>>)
    requires Saved(h, stream, a, im) && b < |im.lists|
    requires InfoRead(info, a, im.order, |im.order|, b, im.lists[b]) && NewRead(vvNew, a, im.order, b, im.lists[b])
    ensures InfoRead(info, a, im.order, |im.order|, b + 1, []) && NewRead(vvNew, a, im.order, b + 1, [])
  {
    hide Written, TriedOk, AddrOk, StatsOk, CountsOk;
    assert BucketListed(im.order, a.nNew, im.lists[b], a.vvNew[b]);
    forall j | 0 <= j < |im.order| ensures RefsRead(a, im.order, b, im.lists[b], j)
        == RefsRead(a, im.order, b + 1, [], j) {
      CountPrefix(a.vvNew, b, im.order[j]);
    }
    forall j ensures j in vvNew[b] <==> 0 <= j < |im.order| && im.order[j] in a.vvNew[b] {
      if a.nNew <= j < |im.order| && im.order[j] in a.vvNew[b] {
        TriedUnlisted(h, a, im.order[j], b);
      }
    }
  }

  /** When all is read the entries have the references they had. */
  lemma AllRead(h: BucketHash, stream: seq<Item>, a: Tables, im: Image, b: Tables, rnd: seq<int>)
    requires Saved(h, stream, a, im) && b.nKey == a.nKey && b.nNew == a.nNew && b.nTried == a.nTried
        && b.nIdCount == |im.order|
    requires InfoRead(b.info, a, im.order, |im.order|, |a.vvNew|, []) && NewRead(b.vvNew, a, im.order, |a.vvNew|, [])
    requires AddressesRead(b.addr, a, im.order, |im.order|) && TriedRead(b.vvTried, a, im.order, |im.order|)
        && RandomRead(rnd, |im.order|)
    ensures Isomorphic(im.order, a, b) && RandomOk(b.info, rnd)
  {
    hide Written, TriedOk, AddrOk, StatsOk, CountsOk, BucketListed, AddressesRead;
    assert a.vvNew[..|a.vvNew|] == a.vvNew;
    forall i | 0 <= i < |im.order|
      ensures im.order[i] in a.info && RefsRead(a, im.order, |a.vvNew|, [], i) == a.info[im.order[i]].nRefCount
    {
      assert RefOk(a.info[im.order[i]], Count(a.vvNew, im.order[i]) + if im.order[i] in {} then 1 else 0);
    }
    forall n ensures n in Elements(im.order) <==> n in a.info {
    }
  }

  /** Loading. Reading what was saved gives back the same manager under new ids, and loses no tried entry. */
  method Load(am: Manager.AddrMan, stream: seq<Item>, ghost a: Tables, ghost im: Image) returns (ok: bool, nLost: nat)
    modifies am
    ensures Saved(am.hash, stream, a, im) ==> ok && nLost == 0 && am.Valid() && Isomorphic(im.order, a, TablesOf(am))
  {
    hide Saved, InfoRead, NewRead, AddressesRead, TriedRead, RandomRead, Isomorphic, Consistent, RandomOk;
    ghost var good := Saved(am.hash, stream, a, im);
    nLost := 0;
    if good {
      HeaderWritten(am.hash, stream, a, im);
    }
    if |stream| < 5 || !stream[0].Num? || !stream[1].Key? || !stream[2].Num? || !stream[3].Num? || !stream[4].Num? {
      return false, 0;
    }
    am.nKey, am.nNew, am.nTried := stream[1].key, stream[2].n, stream[3].n;
    var nUBuckets := stream[4].n;
    am.nIdCount, am.mapInfo, am.mapAddr, am.vRandom := 0, map[], map[], [];
    am.vvTried := seq(TRIED_BUCKET_COUNT, _ => []);
    am.vvNew := seq(NEW_BUCKET_COUNT, _ => {});
    var pos;
    ok, pos := LoadNew(am, stream, nUBuckets != NEW_BUCKET_COUNT, a, im);
    if !ok {
      return;
    }
    am.nIdCount := am.nNew;
    ok, pos, nLost := LoadTried(am, stream, pos, a, im);
    if !ok {
      return;
    }
    am.nTried := am.nTried - nLost;
    if good {
      NoBucketRead(am.hash, stream, a, im, am.vvNew);
    }
    ok := LoadBuckets(am, stream, pos, nUBuckets, a, im);
    if good {
      AllRead(am.hash, stream, a, im, TablesOf(am), am.vRandom);
      SavedSane(am.hash, stream, a, im);
      IsomorphicConsistent(am.hash, im.order, a, TablesOf(am));
    }
  }

  lemma HeaderWritten(h: BucketHash, stream: seq<Item>, a: Tables, im: Image)
    requires Saved(h, stream, a, im)
    ensures |stream| >= 5 && stream[..5] == Header(a)
    ensures stream[0] == Header(a)[0] && stream[1] == Header(a)[1] && stream[2] == Header(a)[2]
        && stream[3] == Header(a)[3] && stream[4] == Header(a)[4]
  {
    hide Sane, Describes, Entries, Buckets;
  }

  lemma NoBucketRead(h: BucketHash, stream: seq<Item>, a: Tables, im: Image, vvNew: seq<set<int>>)
    requires Saved(h, stream, a, im) && |vvNew| == NEW_BUCKET_COUNT && forall c | 0 <= c < |vvNew| :: vvNew[c] == {}
    ensures NewRead(vvNew, a, im.order, 0, [])
  {
    hide Written, Describes, TriedOk, AddrOk, StatsOk, CountsOk;
  }

  lemma SavedSane(h: BucketHash, stream: seq<Item>, a: Tables, im: Image)
    requires Saved(h, stream, a, im)
    ensures Sane(h, a)
  {
  }

  /** Saving a manager and loading it into another one makes that one isomorphic to it. */
  method SaveAndLoad(am: Manager.AddrMan, other: Manager.AddrMan) returns (ok: bool, nLost: nat, ghost im: Image)
    requires am.Valid() && other != am && other.hash == am.hash
    modifies other
    ensures ok && nLost == 0 && other.Valid() && Isomorphic(im.order, TablesOf(am), TablesOf(other)) && am.Valid()
  {
    hide Isomorphic, Consistent, Written, Describes;
    var stream;
    stream, im := Save(am);
    ok, nLost := Load(other, stream, TablesOf(am), im);
  }
}
