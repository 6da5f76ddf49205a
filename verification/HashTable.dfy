/** The growing hash table of the pool server. Value 0 is the null pointer, which stands for no value. */
module HashTable {
  import opened Common

  const MAXSCAN_LENGTH: nat := 32
  const TWO32: nat := 0x1_0000_0000

  /** key + key*3 + key*7 + key*11 in 32 bits. */
  function HashOf(key: nat): (h: nat)
    ensures h < TWO32
  {
    key * 22 % TWO32
  }

  /** The hash taken to the size of the table. */
  function Home(key: nat, size: nat): (h: nat)
    requires size > 0
    ensures h < size
  {
    HashOf(key) % size
  }

  function Next(i: nat, size: nat): nat { if i + 1 == size then 0 else i + 1 }

  lemma NextIs(i: nat, size: nat)
    requires i < size
    ensures (i + 1) % size == Next(i, size)
  {
  }

  /** The slot that is probed after d others. */
  function Probe(h: nat, d: nat, size: nat): (i: nat)
    requires h < size
    ensures i < size
  {
    if d == 0 then h else Next(Probe(h, d - 1, size), size)
  }

  // ---------------------------------------------------------------- the table as values

  /** The slots before the d-th of a probe are taken. */
  ghost predicate Taken(entrys: seq<nat>, h: nat, d: nat)
    requires h < |entrys|
  {
    forall e | 0 <= e < d :: entrys[Probe(h, e, |entrys|)] != 0
  }

  /** Item j is where a probe for its key comes to before any free slot, and before it gives up. */
  ghost predicate Reachable(entrys: seq<nat>, key: nat, j: nat)
    requires entrys != []
  {
    exists d :: 0 <= d < MAXSCAN_LENGTH && FoundAt(entrys, key, j, d)
  }

  ghost predicate FoundAt(entrys: seq<nat>, key: nat, j: nat, d: nat)
    requires entrys != []
  {
    entrys[Probe(Home(key, |entrys|), d, |entrys|)] == j + 1 && Taken(entrys, Home(key, |entrys|), d)
  }

  ghost predicate Ok(entrys: seq<nat>, keys: seq<nat>, count: nat) {
    && entrys != [] && count <= |keys| == |entrys|
    && (forall i | 0 <= i < |entrys| :: entrys[i] <= count)
    && (forall i, j | 0 <= i < j < |entrys| && entrys[i] != 0 :: entrys[i] != entrys[j])
    && (forall a, b | 0 <= a < b < count :: keys[a] != keys[b])
    && (forall j | 0 <= j < count :: Reachable(entrys, keys[j], j))
  }

  /** What the first n items hold. */
  function ContentsOf(keys: seq<nat>, values: seq<nat>, n: nat): map<nat, nat>
    requires n <= |keys| && n <= |values|
  {
    if n == 0 then map[]
    else
      var m := ContentsOf(keys, values, n - 1);
      if values[n - 1] != 0 then m[keys[n - 1] := values[n - 1]] else m
  }

  lemma {:induction false} ContentsIs(keys: seq<nat>, values: seq<nat>, n: nat)
    requires n <= |keys| && n <= |values| && forall a, b | 0 <= a < b < n :: keys[a] != keys[b]
    ensures forall k :: k in ContentsOf(keys, values, n) <==> exists j :: 0 <= j < n && keys[j] == k && values[j] != 0
    ensures forall j | 0 <= j < n && values[j] != 0 ::
              keys[j] in ContentsOf(keys, values, n) && ContentsOf(keys, values, n)[keys[j]] == values[j]
  {
    if n > 0 {
      ContentsIs(keys, values, n - 1);
    }
  }

  /** The value a key has: 0 if it has none. */
  function Lookup(m: map<nat, nat>, key: nat): nat { if key in m then m[key] else 0 }

  /** Setting a value, or taking it away with 0. */
  function Assigned(m: map<nat, nat>, key: nat, item: nat): map<nat,
      nat> { if item != 0 then m[key := item] else m - {key} }

  lemma UpdateContents(keys: seq<nat>, values: seq<nat>, n: nat, j: nat, item: nat)
    requires n <= |keys| && n <= |values| && j < n && forall a, b | 0 <= a < b < n :: keys[a] != keys[b]
    ensures ContentsOf(keys, values[j := item], n) == Assigned(ContentsOf(keys, values, n), keys[j], item)
  {
    hide ContentsOf;
    var values' := values[j := item];
    ContentsIs(keys, values, n);
    ContentsIs(keys, values', n);
    var m, m' := ContentsOf(keys, values, n), ContentsOf(keys, values', n);
    forall k ensures k in m' <==> if k == keys[j] then item != 0 else k in m {
      if k in m' {
        var i :| 0 <= i < n && keys[i] == k && values'[i] != 0;
      }
      if k in m && k != keys[j] {
        var i :| 0 <= i < n && keys[i] == k && values[i] != 0;
        assert values'[i] != 0;
      }
      if k == keys[j] && item != 0 {
        assert values'[j] != 0;
      }
    }
    forall k | k in m' ensures m'[k] == if k == keys[j] then item else Lookup(m, k) {
      var i :| 0 <= i < n && keys[i] == k && values'[i] != 0;
    }
  }

  /** A probe for the key has passed d taken slots, all with other keys. */
  ghost predicate Passed(entrys: seq<nat>, keys: seq<nat>, key: nat, d: nat)
    requires entrys != []
  {
    forall e | 0 <= e < d :: OtherKey(entrys, keys, key, Probe(Home(key, |entrys|), e, |entrys|))
  }

  ghost predicate OtherKey(entrys: seq<nat>, keys: seq<nat>, key: nat, i: nat)
    requires i < |entrys|
  {
    var r := entrys[i];
    0 < r <= |keys| && keys[r - 1] != key
  }

  /** A probe that stands before a free slot or has no more tries proves that the key is not there. */
  lemma Missing(entrys: seq<nat>, keys: seq<nat>, count: nat, key: nat, d: nat)
    requires Ok(entrys, keys, count) && d <= MAXSCAN_LENGTH && Passed(entrys, keys, key, d)
    requires d == MAXSCAN_LENGTH || entrys[Probe(Home(key, |entrys|), d, |entrys|)] == 0
    ensures forall j | 0 <= j < count :: keys[j] != key
  {
    hide Home, Probe;
    forall j | 0 <= j < count ensures keys[j] != key {
      var e :| 0 <= e < MAXSCAN_LENGTH && FoundAt(entrys, keys[j], j, e);
    }
  }

  lemma PassedTaken(entrys: seq<nat>, keys: seq<nat>, key: nat, d: nat)
    requires entrys != [] && Passed(entrys, keys, key, d)
    ensures Taken(entrys, Home(key, |entrys|), d)
  {
    hide Home, Probe;
    forall e | 0 <= e < d ensures entrys[Probe(Home(key, |entrys|), e, |entrys|)] != 0 {
      assert OtherKey(entrys, keys, key, Probe(Home(key, |entrys|), e, |entrys|));
    }
  }

  lemma ProbeStart(entrys: seq<nat>, keys: seq<nat>, key: nat)
    requires entrys != []
    ensures Probe(Home(key, |entrys|), 0, |entrys|) == Home(key, |entrys|) && Passed(entrys, keys, key, 0)
  {
  }

  lemma ProbeOn(entrys: seq<nat>, keys: seq<nat>, key: nat, d: nat)
    requires entrys != [] && Passed(entrys, keys, key, d)
        && OtherKey(entrys, keys, key, Probe(Home(key, |entrys|), d, |entrys|))
    ensures Probe(Home(key, |entrys|), d + 1, |entrys|) == (Probe(Home(key, |entrys|), d, |entrys|) + 1) % |entrys|
    ensures Passed(entrys, keys, key, d + 1)
  {
    hide Home;
    NextIs(Probe(Home(key, |entrys|), d, |entrys|), |entrys|);
  }

  /** What a slot of the probe says about the key. */
  lemma SlotSays(entrys: seq<nat>, keys: seq<nat>, values: seq<nat>, count: nat, i: nat)
    requires Ok(entrys, keys, count) && |values| == |keys| && i < |entrys| && entrys[i] != 0
    ensures var j := entrys[i] - 1;
            0 <= j < count && Lookup(ContentsOf(keys, values, count), keys[j]) == values[j]
  {
    hide ContentsOf;
    ContentsIs(keys, values, count);
    var j := entrys[i] - 1;
    if keys[j] in ContentsOf(keys, values, count) {
      var k :| 0 <= k < count && keys[k] == keys[j] && values[k] != 0;
    }
  }

  lemma {:induction false} NoKey(keys: seq<nat>, values: seq<nat>, n: nat, key: nat)
    requires n <= |keys| == |values| && forall j | 0 <= j < n :: keys[j] != key
    ensures key !in ContentsOf(keys, values, n)
  {
    if n > 0 {
      NoKey(keys, values, n - 1, key);
    }
  }

  function Below(n: nat): (r: set<nat>)
    ensures |r| == n && forall x :: x in r <==> 0 <= x < n
  {
    if n == 0 then {} else Below(n - 1) + {n - 1}
  }

  function Elements(s: seq<nat>): (r: set<nat>)
    ensures |r| <= |s| && forall x | x in s :: x in r
  {
    if s == [] then {} else
      var r := Elements(s[..|s| - 1]);
      assert forall x | x in s :: x in s[..|s| - 1] || x == s[|s| - 1];
      r + {s[|s| - 1]}
  }

  /** A free slot means a free item. */
  lemma RoomLeft(entrys: seq<nat>, keys: seq<nat>, count: nat, free: nat)
    requires Ok(entrys, keys, count) && free < |entrys| && entrys[free] == 0
    ensures count < |entrys|
  {
    forall x | x in Below(count + 1) ensures x in Elements(entrys) {
      if x > 0 {
        assert Reachable(entrys, keys[x - 1], x - 1);
        var d :| 0 <= d < MAXSCAN_LENGTH && FoundAt(entrys, keys[x - 1], x - 1, d);
      }
    }
    SubsetSize(Below(count + 1), Elements(entrys));
  }

  /** Putting a new key into the first free slot of its probe. */
  lemma InsertOk(entrys: seq<nat>, keys: seq<nat>, count: nat, key: nat, d: nat)
    requires Ok(entrys, keys, count) && count < |entrys| && d < MAXSCAN_LENGTH
    requires var h := Home(key, |entrys|); Taken(entrys, h, d) && entrys[Probe(h, d, |entrys|)] == 0
    requires forall j | 0 <= j < count :: keys[j] != key
    ensures Ok(entrys[Probe(Home(key, |entrys|), d, |entrys|) := count + 1], keys[count := key], count + 1)
  {
    hide Home, Probe;
    var slot := Probe(Home(key, |entrys|), d, |entrys|);
    var entrys', keys' := entrys[slot := count + 1], keys[count := key];
    forall j | 0 <= j < count + 1 ensures Reachable(entrys', keys'[j], j) {
      if j < count {
        var e :| 0 <= e < MAXSCAN_LENGTH && FoundAt(entrys, keys[j], j, e);
        assert FoundAt(entrys', keys[j], j, e);
      } else {
        assert FoundAt(entrys', key, count, d);
      }
    }
  }

  lemma InsertContents(keys: seq<nat>, values: seq<nat>, count: nat, key: nat, item: nat)
    requires count < |keys| && count < |values| && item != 0
    ensures ContentsOf(keys[count := key], values[count := item], count + 1)
        == ContentsOf(keys, values, count)[key := item]
  {
    SameContents(keys, values, keys[count := key], values[count := item], count);
  }

  lemma {:induction false} SameContents(keys: seq<nat>, values: seq<nat>, keys': seq<nat>, values': seq<nat>, n: nat)
    requires n <= |keys| && n <= |values| && n <= |keys'| && n <= |values'| && keys[..n] == keys'[..n]
        && values[..n] == values'[..n]
    ensures ContentsOf(keys, values, n) == ContentsOf(keys', values', n)
  {
    if n > 0 {
      assert keys[n - 1] == keys[..n][n - 1] && values[n - 1] == values[..n][n - 1];
      assert keys[..n - 1] == keys[..n][..n - 1] && values[..n - 1] == values[..n][..n - 1];
      SameContents(keys, values, keys', values', n - 1);
    }
  }

  // ---------------------------------------------------------------- no more than two keys share a hash

  /** 2^31 is 2 more than a multiple of 11. */
  lemma OddMultiple(d: int, m: int)
    requires 0 < d < TWO32 && 11 * d == 0x8000_0000 * m
    ensures d == 0x8000_0000
  {
    var t := d - 195225786 * m;
    assert 11 * t == 2 * m;
    assert 0 < m < 22 && 0 < t < 4;
  }

  lemma SameHash(a: nat, b: nat)
    requires a < b < TWO32 && HashOf(a) == HashOf(b)
    ensures b == a + TWO32 / 2
  {
    var m := b * 22 / TWO32 - a * 22 / TWO32;
    assert 22 * (b - a) == TWO32 * m;
    assert 11 * (b - a) == 0x8000_0000 * m;
    OddMultiple(b - a, m);
  }

  lemma HashEven(key: nat)
    ensures HashOf(key) % 2 == 0
  {
    var q := key * 22 / TWO32;
    assert HashOf(key) == 2 * (11 * key - 0x8000_0000 * q);
  }

  /** Of three different keys two have different hashes. */
  lemma ThreeKeys(a: nat, b: nat, c: nat)
    requires a < TWO32 && b < TWO32 && c < TWO32 && a != b && b != c && a != c
    ensures !(HashOf(a) == HashOf(b) == HashOf(c))
  {
    if HashOf(a) == HashOf(b) == HashOf(c) {
      SameHash(if a < b then a else b, if a < b then b else a);
      SameHash(if b < c then b else c, if b < c then c else b);
      SameHash(if a < c then a else c, if a < c then c else a);
    }
  }

  ghost predicate Near(key: nat, i: nat) { i == HashOf(key) || i == HashOf(key) + 1 }

  /** Keys have 32 bits. In a table with a slot for every hash an item is at its home or right behind it. */
  ghost predicate Sparse(entrys: seq<nat>, keys: seq<nat>, count: nat) {
    && count <= |keys| && (forall j | 0 <= j < count :: keys[j] < TWO32)
    && (|entrys| >= TWO32 ==> forall i | 0 <= i < |entrys| && entrys[i] != 0 ::
                                entrys[i] <= count && Near(keys[entrys[i] - 1], i))
  }

  /** So a probe in such a table never passes two slots: it comes to its key or to a free slot before. */
  lemma FoundAtOnce(entrys: seq<nat>, keys: seq<nat>, count: nat, key: nat, d: nat)
    requires Ok(entrys, keys, count) && Sparse(entrys, keys, count) && key < TWO32
    requires Passed(entrys, keys, key, d) && |entrys| >= TWO32
    ensures d < 2
  {
    if d >= 2 {
      var h := HashOf(key);
      BigHome(key, |entrys|);
      hide Home, Probe, HashOf, Ok, Sparse;
      assert OtherKey(entrys, keys, key, Probe(h, 0, |entrys|)) && OtherKey(entrys, keys, key, Probe(h, 1, |entrys|));
      TwoTaken(entrys, keys, count, key, h);
    }
  }

  /** The two slots of a hash cannot both be taken by other keys, unless one has another hash. */
  lemma TwoTaken(entrys: seq<nat>, keys: seq<nat>, count: nat, key: nat, h: nat)
    requires Ok(entrys, keys, count) && Sparse(entrys, keys, count) && key < TWO32 && |entrys| >= TWO32
    requires h + 1 < |entrys| && h % 2 == 0 && OtherKey(entrys, keys, key, h) && OtherKey(entrys, keys, key, h + 1)
    ensures HashOf(key) != h
  {
    hide Home, Probe, HashOf, Reachable, Near;
    var a, b := entrys[h] - 1, entrys[h + 1] - 1;
    assert a != b && 0 <= a < count && 0 <= b < count;
    NearHome(keys[a], h);
    NearHome(keys[b], h + 1);
    assert keys[a] != keys[b];
    ThreeKeys(key, keys[a], keys[b]);
  }

  lemma NearHome(key: nat, i: nat)
    requires Near(key, i)
    ensures HashOf(key) == if i % 2 == 0 then i else i - 1
  {
    HashEven(key);
  }

  lemma BigHome(key: nat, size: nat)
    requires size >= TWO32
    ensures Home(key, size) == HashOf(key) && Probe(HashOf(key), 0, size) == HashOf(key)
    ensures HashOf(key) + 1 < size && Probe(HashOf(key), 1, size) == HashOf(key) + 1 && HashOf(key) % 2 == 0
  {
    HashEven(key);
    assert Probe(HashOf(key), 1, size) == Next(Probe(HashOf(key), 0, size), size);
  }

  lemma SparseInsert(entrys: seq<nat>, keys: seq<nat>, count: nat, key: nat, d: nat)
    requires entrys != [] && Sparse(entrys, keys, count) && count < |keys| && key < TWO32
    requires |entrys| >= TWO32 ==> d < 2
    ensures Sparse(entrys[Probe(Home(key, |entrys|), d, |entrys|) := count + 1], keys[count := key], count + 1)
  {
    hide Home, Probe, HashOf;
    var slot := Probe(Home(key, |entrys|), d, |entrys|);
    var entrys', keys' := entrys[slot := count + 1], keys[count := key];
    if |entrys| >= TWO32 {
      BigHome(key, |entrys|);
      assert d == 0 || d == 1;
      assert Near(key, slot);
      forall i | 0 <= i < |entrys'| && entrys'[i] != 0 ensures entrys'[i] <= count + 1
          && Near(keys'[entrys'[i] - 1], i) {
        if i != slot {
          assert entrys[i] <= count && keys'[entrys[i] - 1] == keys[entrys[i] - 1];
        }
      }
    }
  }

  /** How often a table has to be doubled until it has a slot for every hash. */
  function Doublings(size: nat): nat
    decreases TWO32 - size
  {
    if size == 0 || size >= TWO32 then 0 else 1 + Doublings(2 * size)
  }

  lemma {:induction false} DoublingsFall(a: nat, b: nat)
    requires 0 < a <= b
    ensures Doublings(b) <= Doublings(a)
    decreases TWO32 - a
  {
    if a < TWO32 && b < TWO32 {
      DoublingsFall(2 * a, 2 * b);
    }
  }

  lemma DoublingHelps(a: nat, b: nat)
    requires 0 < a < TWO32 && b >= 2 * a
    ensures Doublings(b) < Doublings(a)
  {
    DoublingsFall(2 * a, b);
  }

  /** One more item would make a table with a slot for every hash grow. */
  function Tight(size: nat, count: nat): nat { if size >= TWO32 && count + 1 >= size * 3 / 4 then 1 else 0 }

  // ---------------------------------------------------------------- the table

  class HashTable {
    var size: nat
    var count: nat
    var entrys: array<nat>
    var itemKeyArray: array<nat>
    var itemValueArray: array<nat>

    ghost predicate Valid()
      reads this, entrys, itemKeyArray, itemValueArray
    {
      && entrys != itemKeyArray && entrys != itemValueArray && itemKeyArray != itemValueArray
      && size == entrys.Length == itemKeyArray.Length == itemValueArray.Length
      && Ok(entrys[..], itemKeyArray[..], count) && Sparse(entrys[..], itemKeyArray[..], count)
    }

    /** The keys that have an item, even if its value was taken away. */
    ghost function Keys(): set<nat>
      reads this, itemKeyArray
    {
      set j | 0 <= j < count && j < itemKeyArray.Length :: itemKeyArray[j]
    }

    /** The finite map that the table stands for. */
    ghost function Contents(): map<nat, nat>
      reads this, entrys, itemKeyArray, itemValueArray
      requires Valid()
    {
      ContentsOf(itemKeyArray[..], itemValueArray[..], count)
    }

    /** hashTable_init. */
    constructor (itemLimit: nat)
      requires itemLimit > 0
      ensures Valid() && Contents() == map[] && Keys() == {} && size == itemLimit && count == 0
      ensures fresh(entrys) && fresh(itemKeyArray) && fresh(itemValueArray)
    {
      size, count := itemLimit, 0;
      entrys := new nat[itemLimit](_ => 0);
      itemKeyArray := new nat[itemLimit](_ => 0);
      itemValueArray := new nat[itemLimit](_ => 0);
    }

    /** hashTable_get. */
    method Get(key: nat) returns (item: nat)
      requires Valid()
      ensures item == Lookup(Contents(), key)
    {
      hide ContentsOf, Home, Probe, Passed, Ok;
      ghost var E, K, V := entrys[..], itemKeyArray[..], itemValueArray[..];
      OkSizes(E, K, count);
      var index := Home(key, size);
      ProbeStart(E, K, key);
      for i := 0 to MAXSCAN_LENGTH
        invariant index < size && index == Probe(Home(key, size), i, size) && Passed(E, K, key, i)
      {
        var ridx := entrys[index];
        if ridx == 0 {
          Missing(E, K, count, key, i);
          NoKey(K, V, count, key);
          return 0;
        }
        SlotSays(E, K, V, count, index);
        if itemKeyArray[ridx - 1] == key {
          return itemValueArray[ridx - 1];
        }
        ProbeOn(E, K, key, i);
        index := (index + 1) % size;
      }
      Missing(E, K, count, key, MAXSCAN_LENGTH);
      NoKey(K, V, count, key);
      item := 0;
    }

    /** hashTable_set. The value is set whatever the other keys are: a table is only ever enlarged while it has
        fewer slots than there are hashes, or too many items. */
    method Set(key: nat, item: nat) returns (r: bool)
      requires Valid() && key < TWO32
      modifies this, entrys, itemKeyArray, itemValueArray
      ensures Valid() && Contents() == Assigned(old(Contents()), key, item)
      ensures r <==> item != 0 || key in old(Keys())
      ensures Keys() <= old(Keys()) + {key}
      ensures size >= old(size) && (entrys == old(entrys) || fresh(entrys))
      ensures itemKeyArray == old(itemKeyArray) || fresh(itemKeyArray)
      ensures itemValueArray == old(itemValueArray) || fresh(itemValueArray)
      ensures old(size) >= TWO32 && old(Tight(size, count)) == 0 ==> size == old(size) && count <= old(count) + 1
      decreases Doublings(size), Tight(size, count), 2
    {
      hide ContentsOf, Home, Probe, Passed, Ok, Sparse, Doublings;
      ghost var E, K, V := entrys[..], itemKeyArray[..], itemValueArray[..];
      OkSizes(E, K, count);
      var index := Home(key, size);
      ProbeStart(E, K, key);
      for i := 0 to MAXSCAN_LENGTH
        invariant entrys == old(entrys) && itemKeyArray == old(itemKeyArray) && itemValueArray == old(itemValueArray)
        invariant size == old(size) && count == old(count) && entrys[..] == E && itemKeyArray[..] == K
            && itemValueArray[..] == V
        invariant index < size && index == Probe(Home(key, size), i, size) && Passed(E, K, key, i)
      {
        var ridx := entrys[index];
        if ridx == 0 {
          Missing(E, K, count, key, i);
          NoKey(K, V, count, key);
          if item == 0 {
            return false;
          }
          PassedTaken(E, K, key, i);
          if size >= TWO32 {
            FoundAtOnce(E, K, count, key, i);
          }
          Insert(key, item, index, i);
          return true;
        }
        SlotSays(E, K, V, count, index);
        if itemKeyArray[ridx - 1] == key {
          OkDistinct(E, K, count);
          UpdateContents(K, V, count, ridx - 1, item);
          itemValueArray[ridx - 1] := item;
          assert itemValueArray[..] == V[ridx - 1 := item];
          return true;
        }
        ProbeOn(E, K, key, i);
        index := (index + 1) % size;
      }
      Missing(E, K, count, key, MAXSCAN_LENGTH);
      if size >= TWO32 {
        FoundAtOnce(E, K, count, key, MAXSCAN_LENGTH);
      }
      Enlarge();
      DoublingHelps(old(size), size);
      r := Set(key, item);
    }

    /** The part of hashTable_set that fills a free slot. */
    method Insert(key: nat, item: nat, index: nat, ghost d: nat)
      requires Valid() && key < TWO32 && item != 0 && d < MAXSCAN_LENGTH && entrys.Length > 0
      requires size >= TWO32 ==> d < 2
      requires index == Probe(Home(key, entrys.Length), d, entrys.Length) && entrys[index] == 0
      requires Taken(entrys[..], Home(key, entrys.Length), d) && forall j | 0 <= j < count :: itemKeyArray[..][j] != key
      modifies this, entrys, itemKeyArray, itemValueArray
      ensures Valid() && Contents() == old(Contents())[key := item]
      ensures Keys() <= old(Keys()) + {key}
      ensures size >= old(size) && (entrys == old(entrys) || fresh(entrys))
      ensures itemKeyArray == old(itemKeyArray) || fresh(itemKeyArray)
      ensures itemValueArray == old(itemValueArray) || fresh(itemValueArray)
      ensures old(size) >= TWO32 && old(Tight(size, count)) == 0 ==> size == old(size) && count == old(count) + 1
      decreases Doublings(size), Tight(size, count), 1
    {
      hide ContentsOf, Home, Probe, Ok, Taken, Sparse, Doublings;
      ghost var E, K, V := entrys[..], itemKeyArray[..], itemValueArray[..];
      RoomLeft(E, K, count, index);
      InsertOk(E, K, count, key, d);
      SparseInsert(E, K, count, key, d);
      InsertContents(K, V, count, key, item);
      var itemIndex: nat := count + 1;
      entrys[index] := itemIndex;
      itemKeyArray[count] := key;
      itemValueArray[count] := item;
      assert entrys[..] == E[index := itemIndex] && itemKeyArray[..] == K[count := key]
          && itemValueArray[..] == V[count := item];
      count := count + 1;
      if count >= size * 3 / 4 {
        Enlarge();
      }
    }

    /** hashTable_enlarge: a table at least twice as large that holds the same. */
    method Enlarge()
      requires Valid()
      modifies this
      ensures Valid() && Contents() == old(Contents()) && size >= 2 * old(size) && Keys() <= old(Keys())
      ensures fresh(entrys) && fresh(itemKeyArray) && fresh(itemValueArray)
      decreases Doublings(size), if size >= TWO32 then 1 else 0, 0
    {
      hide ContentsOf, Ok, SlotContents, Sparse, Doublings;
      ghost var E, K, V, C := entrys[..], itemKeyArray[..], itemValueArray[..], Contents();
      OkSizes(E, K, count);
      var hashTable2 := new HashTable(size * 2);
      NoSlots(E, K, V);
      for i := 0 to size
        invariant hashTable2.Valid() && fresh(hashTable2) && fresh(hashTable2.entrys) && fresh(hashTable2.itemKeyArray)
            && fresh(hashTable2.itemValueArray)
        invariant hashTable2.Contents() == SlotContents(E, K, V, i) && hashTable2.size >= 2 * size
            && hashTable2.Keys() <= Keys()
        invariant size >= TWO32 ==> hashTable2.size == 2 * size && hashTable2.count <= i
        invariant unchanged(this) && entrys[..] == E && itemKeyArray[..] == K && itemValueArray[..] == V
      {
        NextSlot(E, K, V, count, i);
        if entrys[i] != 0 {
          var index := entrys[i] - 1;
          KeySize(E, K, count, index);
          if size < TWO32 {
            DoublingHelps(size, hashTable2.size);
          } else {
            DoublingsFall(size, hashTable2.size);
          }
          var _ := hashTable2.Set(itemKeyArray[index], itemValueArray[index]);
        }
      }
      AllSlots(E, K, V, count);
      count, size := hashTable2.count, hashTable2.size;
      entrys, itemKeyArray, itemValueArray := hashTable2.entrys, hashTable2.itemKeyArray, hashTable2.itemValueArray;
    }
  }

  lemma KeySize(entrys: seq<nat>, keys: seq<nat>, count: nat, j: nat)
    requires Sparse(entrys, keys, count) && j < count
    ensures j < |keys| && keys[j] < TWO32
  {
  }

  /** What the items in the first n slots hold. */
  function SlotContents(entrys: seq<nat>, keys: seq<nat>, values: seq<nat>, n: nat): map<nat, nat>
    requires n <= |entrys| && |keys| == |values|
  {
    if n == 0 then map[]
    else
      var m, r := SlotContents(entrys, keys, values, n - 1), entrys[n - 1];
      if 0 < r <= |keys| then Assigned(m, keys[r - 1], values[r - 1]) else m
  }

  lemma NoSlots(entrys: seq<nat>, keys: seq<nat>, values: seq<nat>)
    requires |keys| == |values|
    ensures SlotContents(entrys, keys, values, 0) == map[]
  {
  }

  lemma NextSlot(entrys: seq<nat>, keys: seq<nat>, values: seq<nat>, count: nat, i: nat)
    requires Ok(entrys, keys, count) && |keys| == |values| && i < |entrys|
    ensures var m, r := SlotContents(entrys, keys, values, i), entrys[i];
            r <= |keys| && SlotContents(entrys, keys, values, i + 1) == if r != 0
                then Assigned(m, keys[r - 1], values[r - 1]) else m
  {
  }

  /** A slot whose item has a value. */
  ghost predicate Holds(entrys: seq<nat>, keys: seq<nat>, values: seq<nat>, i: nat, key: nat, value: nat)
    requires i < |entrys| && |keys| == |values|
  {
    0 < entrys[i] <= |keys| && keys[entrys[i] - 1] == key && values[entrys[i] - 1] == value != 0
  }

  lemma {:induction false} SlotContentsIs(entrys: seq<nat>, keys: seq<nat>, values: seq<nat>, count: nat, n: nat)
    requires Ok(entrys, keys, count) && |keys| == |values| && n <= |entrys|
    ensures forall k | k in SlotContents(entrys, keys, values, n) ::
              exists i :: 0 <= i < n && Holds(entrys, keys, values, i, k, SlotContents(entrys, keys, values, n)[k])
    ensures forall i, k, v | 0 <= i < n && Holds(entrys, keys, values, i, k, v) ::
              k in SlotContents(entrys, keys, values, n) && SlotContents(entrys, keys, values, n)[k] == v
  {
    hide SlotContents, Ok, Holds;
    NoSlots(entrys, keys, values);
    if n > 0 {
      SlotContentsIs(entrys, keys, values, count, n - 1);
      NextSlot(entrys, keys, values, count, n - 1);
      OneMoreSlot(entrys, keys, values, count, n - 1, SlotContents(entrys, keys, values, n - 1),
          SlotContents(entrys, keys, values, n));
    }
  }

  /** Slot n adds what it holds, under a key that no slot before it has. */
  lemma OneMoreSlot(entrys: seq<nat>, keys: seq<nat>, values: seq<nat>, count: nat, n: nat, m: map<nat, nat>,
      m': map<nat, nat>)
    requires Ok(entrys, keys, count) && |keys| == |values| && n < |entrys|
    requires entrys[n] <= |keys| && m' == if entrys[n] != 0
        then Assigned(m, keys[entrys[n] - 1], values[entrys[n] - 1]) else m
    requires forall k | k in m :: exists i :: 0 <= i < n && Holds(entrys, keys, values, i, k, m[k])
    requires forall i, k, v | 0 <= i < n && Holds(entrys, keys, values, i, k, v) :: k in m && m[k] == v
    ensures forall k | k in m' :: exists i :: 0 <= i < n + 1 && Holds(entrys, keys, values, i, k, m'[k])
    ensures forall i, k, v | 0 <= i < n + 1 && Holds(entrys, keys, values, i, k, v) :: k in m' && m'[k] == v
  {
    hide Ok;
    forall k | k in m' ensures exists i :: 0 <= i < n + 1 && Holds(entrys, keys, values, i, k, m'[k]) {
      if entrys[n] != 0 && k == keys[entrys[n] - 1] {
        assert Holds(entrys, keys, values, n, k, m'[k]);
      } else {
        var i :| 0 <= i < n && Holds(entrys, keys, values, i, k, m[k]);
        assert Holds(entrys, keys, values, i, k, m'[k]);
      }
    }
    forall i, k, v | 0 <= i < n + 1 && Holds(entrys, keys, values, i, k, v) ensures k in m' && m'[k] == v {
      if i < n && entrys[n] != 0 {
        SlotsDiffer(entrys, keys, count, i, n);
      }
    }
  }

  lemma SlotsDiffer(entrys: seq<nat>, keys: seq<nat>, count: nat, i: nat, n: nat)
    requires Ok(entrys, keys, count) && i < n < |entrys| && entrys[i] != 0 && entrys[n] != 0
    ensures entrys[i] <= |keys| && entrys[n] <= |keys| && keys[entrys[i] - 1] != keys[entrys[n] - 1]
  {
    assert entrys[i] != entrys[n];
  }

  lemma ItemInSlot(entrys: seq<nat>, keys: seq<nat>, values: seq<nat>, count: nat, j: nat) returns (i: nat)
    requires Ok(entrys, keys, count) && |keys| == |values| && j < count && values[j] != 0
    ensures i < |entrys| && Holds(entrys, keys, values, i, keys[j], values[j])
  {
    assert Reachable(entrys, keys[j], j);
    var d :| 0 <= d < MAXSCAN_LENGTH && FoundAt(entrys, keys[j], j, d);
    i := Probe(Home(keys[j], |entrys|), d, |entrys|);
  }

  lemma SlotHasItem(entrys: seq<nat>, keys: seq<nat>, values: seq<nat>, count: nat, i: nat, k: nat, v: nat)
    requires Ok(entrys, keys, count) && |keys| == |values| && i < |entrys| && Holds(entrys, keys, values, i, k, v)
    ensures k in ContentsOf(keys, values, count)
  {
    hide ContentsOf;
    OkDistinct(entrys, keys, count);
    ContentsIs(keys, values, count);
    assert values[entrys[i] - 1] != 0;
  }

  /** Every item is in some slot. */
  lemma AllSlots(entrys: seq<nat>, keys: seq<nat>, values: seq<nat>, count: nat)
    requires Ok(entrys, keys, count) && |keys| == |values|
    ensures SlotContents(entrys, keys, values, |entrys|) == ContentsOf(keys, values, count)
  {
    hide SlotContents, ContentsOf, Ok, Holds;
    OkSizes(entrys, keys, count);
    OkDistinct(entrys, keys, count);
    SlotContentsIs(entrys, keys, values, count, |entrys|);
    ContentsIs(keys, values, count);
    var m, c := SlotContents(entrys, keys, values, |entrys|), ContentsOf(keys, values, count);
    forall k | k in c ensures k in m && m[k] == c[k] {
      var j :| 0 <= j < count && keys[j] == k && values[j] != 0;
      var i := ItemInSlot(entrys, keys, values, count, j);
    }
    forall k | k in m ensures k in c {
      var i :| 0 <= i < |entrys| && Holds(entrys, keys, values, i, k, m[k]);
      SlotHasItem(entrys, keys, values, count, i, k, m[k]);
    }
  }

  lemma OkDistinct(entrys: seq<nat>, keys: seq<nat>, count: nat)
    requires Ok(entrys, keys, count)
    ensures forall a, b | 0 <= a < b < count :: keys[a] != keys[b]
  {
  }

  lemma OkSizes(entrys: seq<nat>, keys: seq<nat>, count: nat)
    requires Ok(entrys, keys, count)
    ensures 0 < |entrys| == |keys| && count <= |keys| && forall i | 0 <= i < |entrys| :: entrys[i] <= count
  {
  }
}
