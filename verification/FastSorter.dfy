/** The sorter of the pool server: a search tree whose nodes live in an array that is moved when it grows, and
    a traversal with an explicit stack. Pointers are 32-bit addresses; 0 is the null pointer. */
module FastSorter {
  const ENTRY_SIZE: nat := 16
  const TWO32: nat := 0x1_0000_0000

  /** fastSorter_treeEntry_t. */
  datatype Entry = Entry(p: nat, value: int, left: nat, right: nat)

  /** The shape of the tree, by places in the array. */
  datatype Tree = Nil | Node(l: Tree, i: nat, r: Tree)

  function Addr(base: nat, i: nat): nat { base + ENTRY_SIZE * i }

  /** The entry that a pointer points to. */
  function IndexOf(base: nat, ptr: nat): (i: nat)
    requires ptr >= base
  {
    (ptr - base) / ENTRY_SIZE
  }

  function Indices(t: Tree): set<nat> { if t.Nil? then {} else Indices(t.l) + {t.i} + Indices(t.r) }

  /** No entry is in the tree twice. */
  predicate Separate(t: Tree) {
    t.Node? ==> Separate(t.l) && Separate(t.r) && Indices(t.l) !! Indices(t.r) && t.i !in Indices(t.l)
                && t.i !in Indices(t.r)
  }

  ghost predicate Represents(nodes: seq<Entry>, base: nat, ptr: nat, t: Tree)
    decreases t
  {
    match t
    case Nil => ptr == 0
    case Node(l, i, r) =>
      && i < |nodes|
      && ptr == Addr(base, i)
      && Represents(nodes, base, nodes[i].left, l)
      && Represents(nodes, base, nodes[i].right, r)
  }

  datatype Item = Item(value: int, p: nat)

  function ItemAt(nodes: seq<Entry>, i: nat): Item { if i < |nodes| then Item(nodes[i].value, nodes[i].p)
      else Item(0, 0) }

  /** The items of a tree from left to right. */
  function Flat(nodes: seq<Entry>, t: Tree): seq<Item> {
    if t.Nil? then [] else Flat(nodes, t.l) + [ItemAt(nodes, t.i)] + Flat(nodes, t.r)
  }

  /** What happens in another part of the array does not concern a tree. */
  lemma {:induction false} Frame(nodes: seq<Entry>, nodes': seq<Entry>, base: nat, ptr: nat, t: Tree)
    requires Represents(nodes, base, ptr, t) && forall i | i in Indices(t) ::
                                                  i < |nodes| <= |nodes'| && nodes'[i] == nodes[i]
    ensures Represents(nodes', base, ptr, t) && Flat(nodes', t) == Flat(nodes, t)
    decreases t
  {
    if t.Node? {
      assert t.i in Indices(t);
      Frame(nodes, nodes', base, nodes[t.i].left, t.l);
      Frame(nodes, nodes', base, nodes[t.i].right, t.r);
    }
  }

  lemma {:induction false} IndicesInside(nodes: seq<Entry>, base: nat, ptr: nat, t: Tree)
    requires Represents(nodes, base, ptr, t)
    ensures forall i | i in Indices(t) :: i < |nodes|
    decreases t
  {
    if t.Node? {
      IndicesInside(nodes, base, nodes[t.i].left, t.l);
      IndicesInside(nodes, base, nodes[t.i].right, t.r);
    }
  }

  // ---------------------------------------------------------------- inserting

  predicate Ascending(s: seq<Item>) { forall i, j | 0 <= i < j < |s| :: s[i].value <= s[j].value }

  /** Behind everything that is not greater. */
  function InsertStable(s: seq<Item>, x: Item): (r: seq<Item>)
    ensures |r| == |s| + 1
  {
    if s == [] || s[|s| - 1].value <= x.value then s + [x] else InsertStable(s[..|s| - 1], x) + [s[|s| - 1]]
  }

  lemma {:induction false} InsertLeft(a: seq<Item>, b: seq<Item>, x: Item)
    requires forall i | 0 <= i < |b| :: b[i].value > x.value
    ensures InsertStable(a + b, x) == InsertStable(a, x) + b
  {
    if b == [] {
      assert a + b == a;
    } else {
      var k := |b| - 1;
      assert (a + b)[..|a + b| - 1] == a + b[..k];
      InsertLeft(a, b[..k], x);
      assert b == b[..k] + [b[k]];
    }
  }

  lemma {:induction false} InsertRight(a: seq<Item>, b: seq<Item>, x: Item)
    requires forall i | 0 <= i < |a| :: a[i].value <= x.value
    ensures InsertStable(a + b, x) == a + InsertStable(b, x)
  {
    if b == [] {
      assert a + b == a;
    } else {
      var k := |b| - 1;
      assert (a + b)[..|a + b| - 1] == a + b[..k];
      InsertRight(a, b[..k], x);
      assert (a + b)[|a + b| - 1] == b[k];
    }
  }

  lemma {:induction false} InsertMembers(s: seq<Item>, x: Item)
    ensures multiset(InsertStable(s, x)) == multiset(s) + multiset{x}
  {
    if s != [] && s[|s| - 1].value > x.value {
      InsertMembers(s[..|s| - 1], x);
      assert s == s[..|s| - 1] + [s[|s| - 1]];
    }
  }

  /** Inserting keeps the order, and the items are the same and the new one. */
  lemma {:induction false} InsertSorted(s: seq<Item>, x: Item)
    requires Ascending(s)
    ensures Ascending(InsertStable(s, x)) && multiset(InsertStable(s, x)) == multiset(s) + multiset{x}
  {
    InsertMembers(s, x);
    if s != [] && s[|s| - 1].value > x.value {
      var k := |s| - 1;
      var r := InsertStable(s[..k], x);
      InsertSorted(s[..k], x);
      forall i | 0 <= i < |r| ensures r[i].value <= s[k].value {
        assert r[i] in multiset(r);
        assert r[i] == x || r[i] in s[..k];
      }
    }
  }

  /** Where the descent for a value ends. */
  function Dest(nodes: seq<Entry>, t: Tree, value: int): nat {
    if t.Nil? then 0
    else
      var next := if value < ItemAt(nodes, t.i).value then t.l else t.r;
      if next.Nil? then t.i else Dest(nodes, next, value)
  }

  function Grown(nodes: seq<Entry>, t: Tree, value: int, leaf: nat): Tree {
    if t.Nil? then Node(Nil, leaf, Nil)
    else if value < ItemAt(nodes, t.i).value then Node(Grown(nodes, t.l, value, leaf), t.i, t.r)
    else Node(t.l, t.i, Grown(nodes, t.r, value, leaf))
  }

  lemma {:induction false} DestInside(nodes: seq<Entry>, t: Tree, value: int)
    requires t.Node?
    ensures Dest(nodes, t, value) in Indices(t)
  {
    var next := if value < ItemAt(nodes, t.i).value then t.l else t.r;
    if next.Node? {
      DestInside(nodes, next, value);
    }
  }

  lemma {:induction false} GrownIndices(nodes: seq<Entry>, t: Tree, value: int, leaf: nat)
    requires Separate(t) && leaf !in Indices(t)
    ensures Separate(Grown(nodes, t, value, leaf)) && Indices(Grown(nodes, t, value, leaf)) == Indices(t) + {leaf}
  {
    if t.Node? {
      if value < ItemAt(nodes, t.i).value {
        GrownIndices(nodes, t.l, value, leaf);
      } else {
        GrownIndices(nodes, t.r, value, leaf);
      }
    }
  }

  /** The entry at `dest` with the new entry as its child. */
  function Linked(e: Entry, value: int, ptr: nat): Entry {
    if value < e.value then e.(left := ptr) else e.(right := ptr)
  }

  /** The arrays before and after an entry was added below t. */
  ghost predicate Added(nodes: seq<Entry>, nodes': seq<Entry>, base: nat, t: Tree, value: int, p: nat, leaf: nat) {
    && leaf < |nodes'| == |nodes| && leaf !in Indices(t) && nodes'[leaf] == Entry(p, value, 0, 0)
    && (forall i | i in Indices(t) ::
          i < |nodes| && nodes'[i] == if i == Dest(nodes, t, value) then Linked(nodes[i], value, Addr(base, leaf))
          else nodes[i])
  }

  /** An addition to the left is one below the left part, and leaves the right part alone. */
  lemma AddedLeft(nodes: seq<Entry>, nodes': seq<Entry>, base: nat, t: Tree, value: int, p: nat, leaf: nat)
    requires t.Node? && Separate(t) && Added(nodes, nodes', base, t, value, p, leaf) && value < ItemAt(nodes, t.i).value
    ensures t.i < |nodes| == |nodes'| && Added(nodes, nodes', base, t.l, value, p, leaf)
    ensures nodes'[t.i] == if t.l.Node? then nodes[t.i] else nodes[t.i].(left := Addr(base, leaf))
    ensures forall i | i in Indices(t.r) :: i < |nodes| && nodes'[i] == nodes[i]
  {
    assert t.i in Indices(t);
    if t.l.Node? {
      DestInside(nodes, t.l, value);
    }
  }

  lemma AddedRight(nodes: seq<Entry>, nodes': seq<Entry>, base: nat, t: Tree, value: int, p: nat, leaf: nat)
    requires t.Node? && Separate(t) && Added(nodes, nodes', base, t, value, p, leaf)
        && value >= ItemAt(nodes, t.i).value
    ensures t.i < |nodes| == |nodes'| && Added(nodes, nodes', base, t.r, value, p, leaf)
    ensures nodes'[t.i] == if t.r.Node? then nodes[t.i] else nodes[t.i].(right := Addr(base, leaf))
    ensures forall i | i in Indices(t.l) :: i < |nodes| && nodes'[i] == nodes[i]
  {
    assert t.i in Indices(t);
    if t.r.Node? {
      DestInside(nodes, t.r, value);
    }
  }

  /** Writing the new entry and the one pointer to it grows the tree. */
  lemma {:induction false} Attach(nodes: seq<Entry>, nodes': seq<Entry>, base: nat, ptr: nat, t: Tree, value: int,
      p: nat, leaf: nat)
    requires t.Node? && Separate(t) && Represents(nodes, base, ptr, t) && Added(nodes, nodes', base, t, value, p, leaf)
    ensures Represents(nodes', base, ptr, Grown(nodes, t, value, leaf))
    decreases t
  {
    hide Added, Dest, Flat, Indices;
    if value < ItemAt(nodes, t.i).value {
      AddedLeft(nodes, nodes', base, t, value, p, leaf);
      Frame(nodes, nodes', base, nodes[t.i].right, t.r);
      NewLeaf(nodes, nodes', base, t.l, value, p, leaf);
      if t.l.Node? {
        Attach(nodes, nodes', base, nodes[t.i].left, t.l, value, p, leaf);
      }
    } else {
      AddedRight(nodes, nodes', base, t, value, p, leaf);
      Frame(nodes, nodes', base, nodes[t.i].left, t.l);
      NewLeaf(nodes, nodes', base, t.r, value, p, leaf);
      if t.r.Node? {
        Attach(nodes, nodes', base, nodes[t.i].right, t.r, value, p, leaf);
      }
    }
  }

  lemma NewLeaf(nodes: seq<Entry>, nodes': seq<Entry>, base: nat, t: Tree, value: int, p: nat, leaf: nat)
    requires Added(nodes, nodes', base, t, value, p, leaf)
    ensures Represents(nodes', base, Addr(base, leaf), Node(Nil, leaf, Nil))
        && Flat(nodes', Node(Nil, leaf, Nil)) == [Item(value, p)]
  {
  }

  /** The grown tree reads like the list with the item inserted. */
  lemma {:induction false} AttachFlat(nodes: seq<Entry>, nodes': seq<Entry>, base: nat, ptr: nat, t: Tree, value: int,
      p: nat, leaf: nat)
    requires t.Node? && Separate(t) && Represents(nodes, base, ptr, t) && Added(nodes, nodes', base, t, value, p, leaf)
        && Ascending(Flat(nodes, t))
    ensures Flat(nodes', Grown(nodes, t, value, leaf)) == InsertStable(Flat(nodes, t), Item(value, p))
    decreases t
  {
    hide Added, Dest, Indices, InsertStable, Ascending;
    AscendingParts(Flat(nodes, t.l), ItemAt(nodes, t.i), Flat(nodes, t.r));
    InsertHere(Flat(nodes, t.l), ItemAt(nodes, t.i), Flat(nodes, t.r), Item(value, p));
    if value < ItemAt(nodes, t.i).value {
      AddedLeft(nodes, nodes', base, t, value, p, leaf);
      Frame(nodes, nodes', base, nodes[t.i].right, t.r);
      NewLeaf(nodes, nodes', base, t.l, value, p, leaf);
      if t.l.Node? {
        AttachFlat(nodes, nodes', base, nodes[t.i].left, t.l, value, p, leaf);
      }
    } else {
      AddedRight(nodes, nodes', base, t, value, p, leaf);
      Frame(nodes, nodes', base, nodes[t.i].left, t.l);
      NewLeaf(nodes, nodes', base, t.r, value, p, leaf);
      if t.r.Node? {
        AttachFlat(nodes, nodes', base, nodes[t.i].right, t.r, value, p, leaf);
      }
    }
  }

  lemma AscendingParts(a: seq<Item>, m: Item, b: seq<Item>)
    requires Ascending(a + [m] + b)
    ensures Ascending(a) && Ascending(b)
    ensures forall i | 0 <= i < |a| :: a[i].value <= m.value
    ensures forall i | 0 <= i < |b| :: m.value <= b[i].value
  {
    var s := a + [m] + b;
    forall i, j | 0 <= i < j < |a| ensures a[i].value <= a[j].value {
      assert s[i].value <= s[j].value;
    }
    forall i, j | 0 <= i < j < |b| ensures b[i].value <= b[j].value {
      assert s[|a| + 1 + i].value <= s[|a| + 1 + j].value;
    }
    forall i | 0 <= i < |a| ensures a[i].value <= m.value {
      assert s[i].value <= s[|a|].value;
    }
    forall i | 0 <= i < |b| ensures m.value <= b[i].value {
      assert s[|a|].value <= s[|a| + 1 + i].value;
    }
  }

  lemma InsertHere(a: seq<Item>, m: Item, b: seq<Item>, x: Item)
    requires forall i | 0 <= i < |a| :: a[i].value <= m.value
    requires forall i | 0 <= i < |b| :: m.value <= b[i].value
    ensures InsertStable(a + [m] + b, x) == if x.value < m.value then InsertStable(a, x) + [m] + b
        else a + [m] + InsertStable(b, x)
    ensures InsertStable([], x) == [x]
  {
    if x.value < m.value {
      assert a + [m] + b == a + ([m] + b);
      InsertLeft(a, [m] + b, x);
      assert InsertStable(a, x) + ([m] + b) == InsertStable(a, x) + [m] + b;
    } else {
      InsertRight(a + [m], b, x);
    }
  }

  // ---------------------------------------------------------------- moving

  /** A pointer after the array moved, in 32-bit arithmetic. */
  function Moved(ptr: nat, base: nat, newBase: nat): nat { if ptr == 0 then 0
      else (ptr + (newBase - base) % TWO32) % TWO32 }

  function MovedEntry(e: Entry, base: nat,
      newBase: nat): Entry { e.(left := Moved(e.left, base, newBase), right := Moved(e.right, base, newBase)) }

  lemma MovedAddr(base: nat, newBase: nat, i: nat)
    requires 0 < base && 0 < newBase && Addr(base, i) < TWO32 && Addr(newBase, i) < TWO32
    ensures Moved(Addr(base, i), base, newBase) == Addr(newBase, i)
  {
  }

  /** Correcting every pointer by the same bias moves the tree. */
  lemma {:induction false} MovedTree(nodes: seq<Entry>, nodes': seq<Entry>, base: nat, newBase: nat, ptr: nat, t: Tree)
    requires Represents(nodes, base, ptr, t) && 0 < base && 0 < newBase
    requires forall i | i in Indices(t) :: i < |nodes| <= |nodes'| && nodes'[i] == MovedEntry(nodes[i], base, newBase)
                                           && Addr(base, i) < TWO32 && Addr(newBase, i) < TWO32
    ensures Represents(nodes', newBase, Moved(ptr, base, newBase), t) && Flat(nodes', t) == Flat(nodes, t)
    decreases t
  {
    if t.Node? {
      assert t.i in Indices(t);
      MovedAddr(base, newBase, t.i);
      MovedTree(nodes, nodes', base, newBase, nodes[t.i].left, t.l);
      MovedTree(nodes, nodes', base, newBase, nodes[t.i].right, t.r);
    }
  }

  // ---------------------------------------------------------------- traversing

  /** The payloads that the callback is given. */
  function Payloads(items: seq<Item>): seq<nat> {
    if items == [] then []
    else Payloads(items[..|items| - 1]) + if items[|items| - 1].p != 0 then [items[|items| - 1].p] else []
  }

  /** What is left to do for the trees on the stack, whose left parts are done. */
  function Rest(nodes: seq<Entry>, pending: seq<Tree>): (r: seq<Item>)
    requires forall k | 0 <= k < |pending| :: pending[k].Node?
    ensures |r| >= |pending|
  {
    if pending == [] then []
    else
      var top := pending[|pending| - 1];
      [ItemAt(nodes, top.i)] + Flat(nodes, top.r) + Rest(nodes, pending[..|pending| - 1])
  }

  lemma {:induction false} FlatSize(nodes: seq<Entry>, t: Tree)
    requires Separate(t)
    ensures |Flat(nodes, t)| == |Indices(t)|
  {
    if t.Node? {
      FlatSize(nodes, t.l);
      FlatSize(nodes, t.r);
      assert |Indices(t.l) + {t.i}| == |Indices(t.l)| + 1;
    }
  }

  function Upto(n: nat): (r: set<nat>)
    ensures |r| == n && forall i :: i in r <==> 0 <= i < n
  {
    if n == 0 then {} else Upto(n - 1) + {n - 1}
  }

  /** The first `count` entries are a search tree. */
  ghost predicate Ok(nodes: seq<Entry>, base: nat, count: nat, t: Tree) {
    && 0 < count <= |nodes| && 0 < base && Addr(base, |nodes|) <= TWO32
    && t.Node? && Separate(t) && Indices(t) == Upto(count)
    && Represents(nodes, base, base, t) && Ascending(Flat(nodes, t))
  }

  /** The tree of one entry. */
  lemma OneEntry(nodes: seq<Entry>, base: nat)
    requires nodes != [] && nodes[0] == Entry(0, 0, 0, 0)
    ensures var t := Node(Nil, 0, Nil);
            && Separate(t) && Indices(t) == Upto(1) && Represents(nodes, base, base, t)
                && Flat(nodes, t) == [Item(0, 0)]
  {
    var t := Node(Nil, 0, Nil);
    forall i ensures i in Indices(t) <==> i in Upto(1) {
    }
  }

  lemma ClearedOk(nodes: seq<Entry>, base: nat)
    requires nodes != [] && nodes[0] == Entry(0, 0, 0, 0) && 0 < base && Addr(base, |nodes|) <= TWO32
    ensures Ok(nodes, base, 1, Node(Nil, 0, Nil)) && Flat(nodes, Node(Nil, 0, Nil)) == [Item(0, 0)]
  {
    hide Indices, Separate, Represents, Flat;
    OneEntry(nodes, base);
  }

  lemma MovedOk(nodes: seq<Entry>, nodes': seq<Entry>, base: nat, newBase: nat, count: nat, t: Tree)
    requires Ok(nodes, base, count, t) && |nodes'| >= |nodes| && 0 < newBase && Addr(newBase, |nodes'|) <= TWO32
    requires forall i | 0 <= i < count :: nodes'[i] == MovedEntry(nodes[i], base, newBase)
    ensures Ok(nodes', newBase, count, t) && Flat(nodes', t) == Flat(nodes, t)
  {
    hide MovedEntry, Moved, Flat, Represents, Separate, Ascending, Indices, Upto, Addr;
    forall i | i in Indices(t) ensures i < count && Addr(base, i) < TWO32 && Addr(newBase, i) < TWO32 {
      UptoMember(count, i);
      AddrGrows(base, i, |nodes|);
      AddrGrows(newBase, i, |nodes'|);
    }
    AddrGrows(base, 0, |nodes|);
    AddrGrows(newBase, 0, |nodes'|);
    MovedTree(nodes, nodes', base, newBase, base, t);
    MovedAddr(base, newBase, 0);
  }

  lemma UptoMember(n: nat, i: nat)
    requires i in Upto(n)
    ensures i < n
  {
  }

  lemma AddrGrows(base: nat, i: nat, n: nat)
    requires i < n
    ensures Addr(base, i) < Addr(base, n) && Addr(base, 0) == base
  {
  }

  lemma GrownOk(nodes: seq<Entry>, nodes': seq<Entry>, base: nat, count: nat, t: Tree, value: int, p: nat)
    requires Ok(nodes, base, count, t) && Added(nodes, nodes', base, t, value, p, count)
    ensures Ok(nodes', base, count + 1, Grown(nodes, t, value, count))
    ensures Flat(nodes', Grown(nodes, t, value, count)) == InsertStable(Flat(nodes, t), Item(value, p))
  {
    Attach(nodes, nodes', base, base, t, value, p, count);
    AttachFlat(nodes, nodes', base, base, t, value, p, count);
    GrownIndices(nodes, t, value, count);
    InsertSorted(Flat(nodes, t), Item(value, p));
    assert Upto(count + 1) == Upto(count) + {count};
  }

  /** One step of the descent, from the root of a part of the tree. */
  lemma Descend(nodes: seq<Entry>, base: nat, t: Tree, value: int)
    requires t.Node? && base > 0 && Represents(nodes, base, Addr(base, t.i), t)
    ensures t.i < |nodes| && IndexOf(base, Addr(base, t.i)) == t.i
    ensures var left := value < nodes[t.i].value;
            var next, ptr := if left then t.l else t.r, if left then nodes[t.i].left else nodes[t.i].right;
            && (next.Nil? <==> ptr == 0) && (next.Nil? ==> Dest(nodes, t, value) == t.i)
            && (next.Node? ==> ptr == Addr(base, next.i) && Represents(nodes, base, ptr, next)
                               && Dest(nodes, t, value) == Dest(nodes, next, value))
  {
  }

  lemma AddedHere(nodes: seq<Entry>, base: nat, count: nat, t: Tree, value: int, p: nat, dest: nat)
    requires Ok(nodes, base, count, t) && count < |nodes| && dest == Dest(nodes, t, value) < |nodes|
    ensures Added(nodes, nodes[dest := Linked(nodes[dest], value, Addr(base, count))][count := Entry(p, value, 0, 0)],
        base, t, value, p, count)
  {
    DestInside(nodes, t, value);
  }

  class FastSorter {
    var nodeList: array<Entry>
    var base: nat
    var nodeCount: nat
    var nodeLimit: nat
    var traverseStack: array<nat>
    const autoIncreaseLimit: bool
    ghost var tree: Tree

    ghost predicate Allocated()
      reads this
    {
      nodeList.Length == traverseStack.Length == nodeLimit && 0 < base && Addr(base, nodeLimit) <= TWO32
    }

    ghost predicate Valid()
      reads this, nodeList
    {
      Allocated() && Ok(nodeList[..], base, nodeCount, tree)
    }

    /** What was added since the last clear, and the default entry, in order. */
    ghost function Items(): seq<Item>
      reads this, nodeList
    {
      Flat(nodeList[..], tree)
    }

    /** fastSorter_init; `address` is where the allocation is. */
    constructor (initialLimit: nat, autoIncreaseLimit: bool, address: nat)
      requires 0 < address && Addr(address, initialLimit) <= TWO32
      ensures Allocated() && nodeLimit == initialLimit && this.autoIncreaseLimit == autoIncreaseLimit
          && fresh(nodeList) && fresh(traverseStack)
    {
      nodeCount, nodeLimit, base := 0, initialLimit, address;
      nodeList := new Entry[initialLimit](_ => Entry(0, 0, 0, 0));
      traverseStack := new nat[initialLimit](_ => 0);
      this.autoIncreaseLimit := autoIncreaseLimit;
      tree := Nil;
    }

    /** fastSorter_clear. */
    method Clear()
      requires Allocated() && nodeLimit > 0
      modifies this`nodeCount, this`tree, nodeList
      ensures Valid() && Items() == [Item(0, 0)] && nodeCount == 1
    {
      hide Ok, Flat;
      nodeCount := 1;
      nodeList[0] := Entry(0, 0, 0, 0);
      tree := Node(Nil, 0, Nil);
      ClearedOk(nodeList[..], base);
    }

    /** fastSorter_enlarge: the tree survives being moved to another address. */
    method Enlarge(newBase: nat)
      requires Valid() && 0 < newBase && Addr(newBase, 2 * nodeLimit + 4) <= TWO32
      modifies this`nodeList, this`traverseStack, this`base, this`nodeLimit
      ensures Valid() && Items() == old(Items()) && nodeLimit > old(nodeLimit)
      ensures fresh(nodeList) && fresh(traverseStack)
    {
      hide Flat, MovedEntry, Represents;
      ghost var nodes := nodeList[..];
      var newLimit := nodeLimit;
      if nodeLimit <= 8 {
        newLimit := newLimit + 4;
      } else {
        newLimit := newLimit + nodeLimit / 2;
      }
      var newNodeList := MoveNodes(newLimit, newBase);
      traverseStack := new nat[newLimit](_ => 0);
      MovedOk(nodes, newNodeList[..], base, newBase, nodeCount, tree);
      nodeList, nodeLimit, base := newNodeList, newLimit, newBase;
    }

    /** The copying and the correction of the pointers. */
    method MoveNodes(newLimit: nat, newBase: nat) returns (newNodeList: array<Entry>)
      requires nodeCount <= nodeList.Length && nodeCount <= newLimit
      ensures fresh(newNodeList) && newNodeList.Length == newLimit
      ensures forall i | 0 <= i < nodeCount :: newNodeList[i] == MovedEntry(nodeList[i], base, newBase)
    {
      hide MovedEntry;
      newNodeList := new Entry[newLimit](_ => Entry(0, 0, 0, 0));
      for i := 0 to nodeCount
        invariant forall j | 0 <= j < i :: newNodeList[j] == nodeList[j]
      {
        newNodeList[i] := nodeList[i];
      }
      for i := 0 to nodeCount
        invariant forall j | 0 <= j < i :: newNodeList[j] == MovedEntry(nodeList[j], base, newBase)
        invariant forall j | i <= j < nodeCount :: newNodeList[j] == nodeList[j]
      {
        newNodeList[i] := MovedEntry(newNodeList[i], base, newBase);
      }
    }

    /** fastSorter_add: the item comes behind everything that is not greater, unless the sorter is full and may
        not grow. `newBase` is where the array would move. */
    method Add(value: int, p: nat, newBase: nat)
      requires Valid()
      requires nodeLimit == nodeCount && autoIncreaseLimit ==> 0 < newBase && Addr(newBase, 2 * nodeLimit + 4) <= TWO32
      modifies this, nodeList
      ensures Valid()
      ensures Items() == if old(nodeLimit == nodeCount)
          && !autoIncreaseLimit then old(Items()) else InsertStable(old(Items()), Item(value, p))
      ensures nodeCount == if old(nodeLimit == nodeCount)
          && !autoIncreaseLimit then old(nodeCount) else old(nodeCount) + 1
      ensures !autoIncreaseLimit ==> nodeLimit == old(nodeLimit)
      ensures (nodeList == old(nodeList) || fresh(nodeList))
          && (traverseStack == old(traverseStack) || fresh(traverseStack))
    {
      hide Flat, Represents, InsertStable, Ok, Dest, Grown;
      if nodeLimit == nodeCount {
        if !autoIncreaseLimit {
          return;
        }
        Enlarge(newBase);
      }
      ghost var nodes := nodeList[..];
      var entry := base;
      ghost var cur := tree;
      RootOk(nodes, base, nodeCount, tree);
      label Start:
      while true
        invariant cur.Node? && entry == Addr(base, cur.i) && Represents(nodes, base, entry, cur)
        invariant Dest(nodes, cur, value) == Dest(nodes, tree, value)
        invariant nodeList == old@Start(nodeList) && nodeList[..] == nodes && base == old@Start(base)
            && tree == old@Start(tree)
        invariant nodeCount == old@Start(nodeCount) && nodeLimit == old@Start(nodeLimit)
            && traverseStack == old@Start(traverseStack)
        decreases cur
      {
        Descend(nodes, base, cur, value);
        var k := IndexOf(base, entry);
        var left := value < nodeList[k].value;
        var next := if left then nodeList[k].left else nodeList[k].right;
        if next != 0 {
          entry := next;
          cur := if left then cur.l else cur.r;
          continue;
        }
        next := Addr(base, nodeCount);
        AddedHere(nodes, base, nodeCount, tree, value, p, k);
        GrownOk(nodes, nodes[k := Linked(nodes[k], value, next)][nodeCount := Entry(p, value, 0, 0)], base, nodeCount,
            tree, value, p);
        nodeList[k] := if left then nodeList[k].(left := next) else nodeList[k].(right := next);
        nodeList[nodeCount] := Entry(p, value, 0, 0);
        assert nodeList[..] == nodes[k := Linked(nodes[k], value, next)][nodeCount := Entry(p, value, 0, 0)];
        tree := Grown(nodes, tree, value, nodeCount);
        nodeCount := nodeCount + 1;
        return;
      }
    }

    /** fastSorter_traverseAscending: the callback is given every payload but null pointers, in order, and the
        stack never overruns its buffer. `resumed`: the entry comes from the stack, so its left part is done. */
    method TraverseAscending() returns (calls: seq<nat>)
      requires Valid()
      modifies traverseStack
      ensures calls == Payloads(Items())
    {
      hide Flat, Represents, Ok, Tour, Payloads, Addr;
      ghost var nodes, items := nodeList[..], Items();
      calls := [];
      var stackSize := 0;
      var entry := base;
      var resumed := false;
      ghost var cur, pending, seen: seq<Item> := tree, [], [];
      TourStarts(nodes, base, nodeCount, tree);
      while true
        invariant nodeList[..] == nodes && |items| == nodeCount <= nodeLimit == traverseStack.Length
        invariant Tour(nodes, base, items, cur, pending, resumed, seen) && cur.Node? && entry == Addr(base, cur.i)
            && calls == Payloads(seen)
        invariant stackSize == |pending| <= traverseStack.Length
        invariant forall k | 0 <= k < stackSize :: pending[k].Node? && traverseStack[k] == Addr(base, pending[k].i)
        decreases |items| - |seen|, cur
      {
        TourHere(nodes, base, items, cur, pending, resumed, seen);
        var e := nodeList[IndexOf(base, entry)];
        if !resumed && e.left != 0 {
          TourLeft(nodes, base, items, cur, pending, seen);
          traverseStack[stackSize] := entry;
          stackSize := stackSize + 1;
          pending := pending + [cur];
          entry := e.left;
          cur := cur.l;
          continue;
        }
        OneMoreCall(seen, ItemAt(nodes, cur.i));
        if e.p != 0 {
          calls := calls + [e.p];
        }
        if e.right != 0 {
          TourRight(nodes, base, items, cur, pending, resumed, seen);
          seen := seen + [ItemAt(nodes, cur.i)];
          entry := e.right;
          cur := cur.r;
          resumed := false;
          continue;
        }
        TourUp(nodes, base, items, cur, pending, resumed, seen);
        seen := seen + [ItemAt(nodes, cur.i)];
        if stackSize == 0 {
          return;
        }
        stackSize := stackSize - 1;
        entry := traverseStack[stackSize];
        cur := pending[stackSize];
        pending := pending[..stackSize];
        resumed := true;
      }
    }

    /** The whole use of a sorter: a clear, additions, and a traversal. `newBases` is where the array would move with
        each addition. A sorter that may not grow drops what does not fit. */
    method Sort(items: seq<Item>, newBases: seq<nat>) returns (calls: seq<nat>)
      requires Allocated() && nodeLimit > 0 && |newBases| == |items|
      requires autoIncreaseLimit ==> forall i | 0 <= i < |items| ::
                                       0 < newBases[i] && Addr(newBases[i], 2 * (i + 1) + 4) <= TWO32
      modifies this, nodeList, traverseStack
      ensures Valid() && calls == Payloads(AddAll(if autoIncreaseLimit
          || |items| < old(nodeLimit) then items else items[..old(nodeLimit) - 1]))
    {
      hide Flat, Ok, InsertStable;
      ghost var limit := nodeLimit;
      Clear();
      NothingAdded();
      for i := 0 to |items|
        invariant Valid() && (nodeList == old(nodeList) || fresh(nodeList))
            && (traverseStack == old(traverseStack) || fresh(traverseStack))
        invariant !autoIncreaseLimit ==> nodeLimit == limit
        invariant nodeCount == if autoIncreaseLimit || i < limit then i + 1 else limit
        invariant Items() == AddAll(if autoIncreaseLimit || i < limit then items[..i] else items[..limit - 1])
      {
        AddNext(items, i);
        Add(items[i].value, items[i].p, newBases[i]);
      }
      assert items[..|items|] == items;
      calls := TraverseAscending();
    }
  }

  lemma NothingAdded()
    ensures AddAll([]) == [Item(0, 0)]
  {
  }

  lemma AddNext(items: seq<Item>, i: nat)
    requires i < |items|
    ensures AddAll(items[..i + 1]) == InsertStable(AddAll(items[..i]), items[i])
  {
    assert items[..i + 1][..i] == items[..i];
  }

  /** Between two entries of the traversal: `seen` is done, and what is left are the current entry and the right
      parts of the trees on the stack. */
  ghost predicate Tour(nodes: seq<Entry>, base: nat, items: seq<Item>, cur: Tree, pending: seq<Tree>, resumed: bool,
      seen: seq<Item>) {
    && cur.Node? && base > 0 && Represents(nodes, base, Addr(base, cur.i), cur) && Stacked(nodes, base, pending)
    && items == seen + if resumed then Rest(nodes, pending + [cur]) else Flat(nodes, cur) + Rest(nodes, pending)
  }

  lemma TourStarts(nodes: seq<Entry>, base: nat, count: nat, t: Tree)
    requires Ok(nodes, base, count, t)
    ensures Tour(nodes, base, Flat(nodes, t), t, [], false, []) && base == Addr(base, t.i)
        && |Flat(nodes, t)| == count <= |nodes| && Payloads([]) == []
  {
    FlatSize(nodes, t);
    assert Rest(nodes, []) == [];
  }

  lemma PtrIs(nodes: seq<Entry>, base: nat, ptr: nat, t: Tree)
    requires Represents(nodes, base, ptr, t) && base > 0
    ensures if t.Nil? then ptr == 0 else ptr == Addr(base, t.i) > 0
  {
  }

  /** What the traversal sees of the current entry. */
  lemma TourHere(nodes: seq<Entry>, base: nat, items: seq<Item>, cur: Tree, pending: seq<Tree>, resumed: bool,
      seen: seq<Item>)
    requires Tour(nodes, base, items, cur, pending, resumed, seen)
    ensures cur.Node? && base > 0 && Addr(base, cur.i) >= base && IndexOf(base, Addr(base, cur.i)) == cur.i < |nodes|
    ensures nodes[cur.i].left == 0 <==> cur.l.Nil?
    ensures nodes[cur.i].right == 0 <==> cur.r.Nil?
    ensures |items| > |seen| && ItemAt(nodes, cur.i) == Item(nodes[cur.i].value, nodes[cur.i].p)
  {
    PtrIs(nodes, base, nodes[cur.i].left, cur.l);
    PtrIs(nodes, base, nodes[cur.i].right, cur.r);
    if resumed {
      assert (pending + [cur])[..|pending|] == pending;
    }
  }

  lemma TourLeft(nodes: seq<Entry>, base: nat, items: seq<Item>, cur: Tree, pending: seq<Tree>, seen: seq<Item>)
    requires Tour(nodes, base, items, cur, pending, false, seen) && cur.l.Node?
    ensures Tour(nodes, base, items, cur.l, pending + [cur], false, seen) && nodes[cur.i].left == Addr(base, cur.l.i)
        && |items| > |pending|
  {
    PtrIs(nodes, base, nodes[cur.i].left, cur.l);
    assert (pending + [cur])[..|pending|] == pending;
    var rest := [ItemAt(nodes, cur.i)] + Flat(nodes, cur.r) + Rest(nodes, pending);
    assert Rest(nodes, pending + [cur]) == rest;
    assert Flat(nodes, cur) + Rest(nodes, pending) == Flat(nodes, cur.l) + rest;
    assert forall k | 0 <= k < |pending + [cur]| :: (pending + [cur])[k] == if k < |pending| then pending[k] else cur;
  }

  lemma RestSnoc(nodes: seq<Entry>, pending: seq<Tree>, cur: Tree)
    requires cur.Node? && forall k | 0 <= k < |pending| :: pending[k].Node?
    ensures forall k | 0 <= k < |pending + [cur]| :: (pending + [cur])[k].Node?
    ensures Rest(nodes, pending + [cur]) == [ItemAt(nodes, cur.i)] + Flat(nodes, cur.r) + Rest(nodes, pending)
  {
    assert (pending + [cur])[..|pending|] == pending;
  }

  lemma FlatNoLeft(nodes: seq<Entry>, t: Tree)
    requires t.Node? && t.l.Nil?
    ensures Flat(nodes, t) == [ItemAt(nodes, t.i)] + Flat(nodes, t.r)
  {
    assert Flat(nodes, t.l) == [];
  }

  /** When the left part of the current entry is done its item is next. */
  lemma TourItem(nodes: seq<Entry>, base: nat, items: seq<Item>, cur: Tree, pending: seq<Tree>, resumed: bool,
      seen: seq<Item>)
    requires Tour(nodes, base, items, cur, pending, resumed, seen) && (resumed || cur.l.Nil?)
    ensures items == seen + [ItemAt(nodes, cur.i)] + (Flat(nodes, cur.r) + Rest(nodes, pending))
  {
    hide Flat, Rest, Represents;
    RestSnoc(nodes, pending, cur);
    if !resumed {
      FlatNoLeft(nodes, cur);
    }
    var item, right, rest := [ItemAt(nodes, cur.i)], Flat(nodes, cur.r), Rest(nodes, pending);
    Regrouped(seen, item, right, rest);
  }

  lemma Regrouped(a: seq<Item>, b: seq<Item>, c: seq<Item>, d: seq<Item>)
    ensures a + (b + c + d) == a + b + (c + d) && a + (b + c) + d == a + (b + c + d)
  {
  }

  lemma TourRight(nodes: seq<Entry>, base: nat, items: seq<Item>, cur: Tree, pending: seq<Tree>, resumed: bool,
      seen: seq<Item>)
    requires Tour(nodes, base, items, cur, pending, resumed, seen) && (resumed || cur.l.Nil?) && cur.r.Node?
    ensures Tour(nodes, base, items, cur.r, pending, false, seen + [ItemAt(nodes, cur.i)])
        && nodes[cur.i].right == Addr(base, cur.r.i)
  {
    hide Flat, Rest;
    PtrIs(nodes, base, nodes[cur.i].right, cur.r);
    TourItem(nodes, base, items, cur, pending, resumed, seen);
  }

  lemma TourUp(nodes: seq<Entry>, base: nat, items: seq<Item>, cur: Tree, pending: seq<Tree>, resumed: bool,
      seen: seq<Item>)
    requires Tour(nodes, base, items, cur, pending, resumed, seen) && (resumed || cur.l.Nil?) && cur.r.Nil?
    ensures if pending == [] then items == seen + [ItemAt(nodes, cur.i)]
            else Tour(nodes, base, items, pending[|pending| - 1], pending[..|pending| - 1], true,
                seen + [ItemAt(nodes, cur.i)])
  {
    hide Flat, Rest, Represents;
    TourItem(nodes, base, items, cur, pending, resumed, seen);
    NothingLeft(nodes);
    if pending != [] {
      assert pending[..|pending| - 1] + [pending[|pending| - 1]] == pending;
    }
  }

  lemma NothingLeft(nodes: seq<Entry>)
    ensures Flat(nodes, Nil) == [] && Rest(nodes, []) == []
  {
  }

  lemma RootOk(nodes: seq<Entry>, base: nat, count: nat, t: Tree)
    requires Ok(nodes, base, count, t)
    ensures t.Node? && base == Addr(base, t.i) && Represents(nodes, base, base, t) && base > 0 && count <= |nodes|
  {
  }

  lemma OneMoreCall(seen: seq<Item>, x: Item)
    ensures Payloads(seen + [x]) == Payloads(seen) + if x.p != 0 then [x.p] else []
  {
    assert (seen + [x])[..|seen|] == seen;
  }

  /** The trees on the stack are in the array. */
  ghost predicate Stacked(nodes: seq<Entry>, base: nat, pending: seq<Tree>) {
    forall k | 0 <= k < |pending| :: pending[k].Node? && Represents(nodes, base, Addr(base, pending[k].i), pending[k])
  }

  // ---------------------------------------------------------------- sorting

  /** What is in the sorter after a clear and some additions. */
  function AddAll(items: seq<Item>): seq<Item> {
    if items == [] then [Item(0, 0)] else InsertStable(AddAll(items[..|items| - 1]), items[|items| - 1])
  }

  /** The items with a value, in their order. */
  function WithValue(items: seq<Item>, v: int): seq<Item> {
    if items == [] then []
    else WithValue(items[..|items| - 1], v) + if items[|items| - 1].value == v then [items[|items| - 1]] else []
  }

  lemma {:induction false} WithValueInserted(s: seq<Item>, x: Item, v: int)
    ensures WithValue(InsertStable(s, x), v) == WithValue(s, v) + if x.value == v then [x] else []
  {
    if s == [] || s[|s| - 1].value <= x.value {
      assert (s + [x])[..|s|] == s;
    } else {
      var k := |s| - 1;
      WithValueInserted(s[..k], x, v);
      var r := InsertStable(s[..k], x);
      assert (r + [s[k]])[..|r|] == r;
    }
  }

  /** The result is in order, holds what was added and the default entry, and keeps items with equal values in
      the order in which they were added. */
  lemma {:induction false} SortsStably(items: seq<Item>, v: int)
    ensures Ascending(AddAll(items)) && multiset(AddAll(items)) == multiset([Item(0, 0)] + items)
    ensures WithValue(AddAll(items), v) == WithValue([Item(0, 0)] + items, v)
  {
    hide Ascending, InsertStable;
    var all := [Item(0, 0)] + items;
    if items == [] {
      assert all == [Item(0, 0)];
      OneItem();
    } else {
      var k := |items| - 1;
      SortsStably(items[..k], v);
      InsertSorted(AddAll(items[..k]), items[k]);
      WithValueInserted(AddAll(items[..k]), items[k], v);
      assert all[..|items|] == [Item(0, 0)] + items[..k];
      assert all == all[..|items|] + [items[k]];
    }
  }

  lemma OneItem()
    ensures Ascending([Item(0, 0)])
  {
  }
}
