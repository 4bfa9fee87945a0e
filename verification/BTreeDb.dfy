/** A database: mdb_get, mdb_put and mdb_del on its B+tree (mdb.c). */
module BTreeDb {
  import opened Options
  import opened Keys
  import opened BTree
  import opened BTreeSplit
  import opened BTreeChange
  import opened BTreePlace
  import opened BTreeRows
  import opened UnderfullPages
  import opened BTreeRebalance
  import opened BTreeSearch
  import opened BTreeMap

  datatype Result = Ok | NotFound | KeyExist | BadValSize | Full | BadTxn

  // ---------------------------------------------------------------- what a leaf change does

  lemma LeafInsert(ps: PageSize, nodes: seq<Node>, at: nat, n: Node, lo: real, hi: real)
    requires LeafOk(ps, nodes, lo, hi) && ItemOk(ps, n) && lo <= Rank(n.key) < hi
    requires Position(nodes, 0, n.key, at, false)
    ensures at <= |nodes| && LeafOk(ps, Insert(nodes, at, n), lo, hi)
  {
    hide Rank;
    var r := Insert(nodes, at, n);
    assert forall i | 0 <= i < |r| :: r[i] == if i < at then nodes[i] else if i == at then n else nodes[i - 1];
  }

  lemma LeafUpdate(ps: PageSize, nodes: seq<Node>, at: nat, n: Node, lo: real, hi: real)
    requires LeafOk(ps, nodes, lo, hi) && ItemOk(ps, n) && at < |nodes| && nodes[at].key == n.key
    ensures LeafOk(ps, nodes[at := n], lo, hi)
  {
    hide Rank;
  }

  lemma OverflowAround(a: seq<Node>, x: Node, b: seq<Node>)
    requires x.Item?
    ensures Overflow(a + [x] + b) == Overflow(a + b) + x.ov
  {
    OverflowAppend(a + [x], b);
    OverflowAppend(a, [x]);
    OverflowAppend(a, b);
    assert Overflow([x]) == x.ov + Overflow([]);
  }

  /** What stands before and after position `at` of the leaf page at the bottom of the stack. */
  ghost function Left(stack: seq<Frame>, nodes: seq<Node>, at: nat): seq<Node>
    requires Framed(stack) && at <= |nodes|
  {
    Before(stack) + nodes[..at]
  }

  ghost function Right(stack: seq<Frame>, nodes: seq<Node>, at: nat): seq<Node>
    requires Framed(stack) && at <= |nodes|
  {
    nodes[at..] + After(stack)
  }

  lemma LeafSums(leaf: seq<Node>, kind: bool)
    requires forall i | 0 <= i < |leaf| :: leaf[i].Item?
    ensures Flat(leaf) == leaf && PagesAt(Page(true, leaf), kind) == if kind then 1 else 0
  {
    FlatLeaf(leaf);
    PagesLeaf(leaf, kind);
  }

  /** What a search shows about the items of the tree. */
  lemma FoundParts(ps: PageSize, root: Page, depth: nat, stack: seq<Frame>, page: Page, key: Key, at: nat, exact: bool)
    requires Good(ps, root, depth, 0.0, 1.0) && Framed(stack) && StackOk(ps, stack, depth) && |stack| < depth
    requires Good(ps, page, depth - |stack|, LoOf(stack), HiOf(stack)) && page.leaf
    requires Zip(stack, page) == root && LoOf(stack) <= Rank(key) < HiOf(stack)
    requires Position(page.nodes, 0, key, at, exact)
    ensures at <= |page.nodes| && InOrder(Flat(root.nodes), 0.0, 1.0)
    ensures forall i | 0 <= i < |Flat(root.nodes)| :: Flat(root.nodes)[i].Item?
    ensures Flat(root.nodes) == Left(stack, page.nodes, at) + Right(stack, page.nodes, at)
    ensures exact ==>
              && at < |page.nodes| && page.nodes[at].Item? && page.nodes[at].key == key
              && Flat(root.nodes) == Left(stack, page.nodes, at) + [page.nodes[at]] + Right(stack, page.nodes, at + 1)
              && key in ToMap(Flat(root.nodes)) && ToMap(Flat(root.nodes))[key] == page.nodes[at].data
    ensures !exact ==> key !in ToMap(Flat(root.nodes))
  {
    hide Good, Rank, StackOk, Zip, Before, After, Framed, InOrder, Arranged, LeafOk;
    var nodes := page.nodes;
    TreeInOrder(ps, root, depth);
    LeafPage(ps, page, depth - |stack|, LoOf(stack), HiOf(stack));
    ZipFlat(stack, page);
    FlatLeaf(nodes);
    CutAt(Before(stack), nodes, After(stack), at);
    if exact {
      CutOut(Before(stack), nodes, After(stack), at);
      assert Flat(root.nodes)[|Left(stack, nodes, at)|] == nodes[at];
      MapAt(Flat(root.nodes), |Left(stack, nodes, at)|);
    } else {
      StackInOrder(ps, stack, depth);
      MissingHere(Left(stack, nodes, at), Right(stack, nodes, at), Before(stack), nodes, After(stack), key, at,
                  LoOf(stack), HiOf(stack));
    }
  }

  lemma CutAt(b: seq<Node>, nodes: seq<Node>, a: seq<Node>, at: nat)
    requires at <= |nodes|
    ensures b + nodes + a == (b + nodes[..at]) + (nodes[at..] + a)
  {}

  lemma CutOut(b: seq<Node>, nodes: seq<Node>, a: seq<Node>, at: nat)
    requires at < |nodes|
    ensures b + nodes + a == (b + nodes[..at]) + [nodes[at]] + (nodes[at + 1..] + a)
  {}

  lemma CutIn(b: seq<Node>, nodes: seq<Node>, a: seq<Node>, at: nat, n: Node)
    requires at <= |nodes|
    ensures b + Insert(nodes, at, n) + a == (b + nodes[..at]) + [n] + (nodes[at..] + a)
  {}

  lemma MissingHere(left: seq<Node>, right: seq<Node>, before: seq<Node>, nodes: seq<Node>, after: seq<Node>, key: Key,
                    at: nat, lo: real, hi: real)
    requires InOrder(before, 0.0, lo) && InOrder(after, hi, 1.0) && lo <= Rank(key) < hi
    requires Position(nodes, 0, key, at, false)
    requires left == before + nodes[..at] && right == nodes[at..] + after
    requires InOrder(left + right, 0.0, 1.0)
    ensures key !in ToMap(left + right)
  {
    hide Rank;
    assert forall i | 0 <= i < |left| :: Rank(left[i].key) < Rank(key);
    assert forall i | 0 <= i < |right| :: Rank(key) < Rank(right[i].key);
    MapMissing(left, right, key);
  }

  lemma TreeInOrder(ps: PageSize, root: Page, depth: nat)
    requires Good(ps, root, depth, 0.0, 1.0)
    ensures InOrder(Flat(root.nodes), 0.0, 1.0)
    ensures forall i | 0 <= i < |Flat(root.nodes)| :: Flat(root.nodes)[i].Item?
  {
    PageInOrder(ps, root, depth, 0.0, 1.0);
  }

  lemma LeafPage(ps: PageSize, p: Page, h: nat, lo: real, hi: real)
    requires Good(ps, p, h, lo, hi) && p.leaf
    ensures h == 1 && LeafOk(ps, p.nodes, lo, hi) && Used(p.nodes) <= PMax(ps)
    ensures forall i | 0 <= i < |p.nodes| :: p.nodes[i].Item?
  {}

  /** The tree with other nodes in the leaf page at the bottom of the stack. */
  lemma LeafPlacing(ps: PageSize, root: Page, depth: nat, leaves: nat, branches: nat, stack: seq<Frame>, page: Page,
                    nodes: seq<Node>, total: seq<Node>)
    requires Framed(stack) && StackOk(ps, stack, depth) && |stack| < depth
    requires Good(ps, page, depth - |stack|, LoOf(stack), HiOf(stack)) && page.leaf && Zip(stack, page) == root
    requires PagesAt(root, true) == leaves && PagesAt(root, false) == branches
    requires LeafOk(ps, nodes, LoOf(stack), HiOf(stack)) && total == Before(stack) + nodes + After(stack)
    ensures Placing(ps, stack, Page(true, nodes), depth, total, leaves, branches)
  {
    hide Before, After, PagesAround, Rank, ItemOk;
    LeafPage(ps, page, depth - |stack|, LoOf(stack), HiOf(stack));
    LeafSums(page.nodes, true);
    LeafSums(page.nodes, false);
    LeafSums(nodes, true);
    LeafSums(nodes, false);
    ZipPages(stack, page, true);
    ZipPages(stack, page, false);
  }

  lemma TreeItems(ps: PageSize, root: Page, depth: nat, total: seq<Node>, leaves: nat, branches: nat)
    requires TreeOk(ps, root, depth, total, leaves, branches)
    ensures Flat(root.nodes) == total
  {}

  /** Some page on the path is lopsided. */
  ghost predicate Crowded(ps: PageSize, stack: seq<Frame>, page: Page) {
    Lopsided(ps, page.nodes) || exists f :: f in stack && Lopsided(ps, f.nodes)
  }

  /** Some page of the tree is lopsided. */
  ghost predicate HasLopsided(ps: PageSize, root: Option<Page>) {
    root.Some? && exists q :: InTree(q, root.value.nodes) && Lopsided(ps, q)
  }

  lemma CrowdedTree(ps: PageSize, root: Page, stack: seq<Frame>, page: Page)
    requires InTree(page.nodes, root.nodes) && (forall f | f in stack :: InTree(f.nodes, root.nodes))
    ensures Crowded(ps, stack, page) ==> HasLopsided(ps, Some(root))
  {}

  lemma CrowdedAbove(ps: PageSize, stack: seq<Frame>, page: Page)
    ensures (exists f :: f in stack && Lopsided(ps, f.nodes)) ==> Crowded(ps, stack, page)
  {
    hide Lopsided;
  }

  lemma EmptyNotTight(ps: PageSize)
    ensures !Tight(ps, [])
  {}

  lemma TightLopsided(ps: PageSize, nodes: seq<Node>)
    requires Tight(ps, nodes)
    ensures Lopsided(ps, nodes)
  {
    HeavyMore(ps, nodes, |nodes| / 2, (|nodes| + 1) / 2);
  }

  lemma FirstPlacing(ps: PageSize, n: Node)
    requires ItemOk(ps, n)
    ensures Used([]) <= PMax(ps) && Placing(ps, [], Page(true, Insert([], 0, n)), 1, [n], 1, 0)
  {
    assert Insert([], 0, n) == [n];
    LeafSums([n], true);
    LeafSums([n], false);
    assert LeafOk(ps, [n], 0.0, 1.0);
    assert [] + [n] + [] == [n];
  }

  lemma FirstRoom(ps: PageSize, n: Node)
    requires ItemOk(ps, n)
    ensures Used([]) + Room(n) <= PMax(ps) && Insert([], 0, n) == [n] && Overflow([n]) == n.ov
    ensures ToMap([n]) == map[n.key := n.data] && Zip([], Page(true, [n])) == Page(true, [n])
  {
    assert [n][..0] == [] && ToMap([]) == map[] && [n][1..] == [];
    assert Overflow([n]) == n.ov + Overflow([n][1..]);
  }

  lemma AddPlacing(ps: PageSize, root: Page, depth: nat, leaves: nat, branches: nat, stack: seq<Frame>, page: Page,
                   at: nat, n: Node)
    requires Framed(stack) && StackOk(ps, stack, depth) && |stack| < depth
    requires Good(ps, page, depth - |stack|, LoOf(stack), HiOf(stack)) && page.leaf && Zip(stack, page) == root
    requires PagesAt(root, true) == leaves && PagesAt(root, false) == branches
    requires ItemOk(ps, n) && LoOf(stack) <= Rank(n.key) < HiOf(stack) && Position(page.nodes, 0, n.key, at, false)
    ensures at <= |page.nodes| && Used(page.nodes) <= PMax(ps)
    ensures Placing(ps, stack, Page(true, Insert(page.nodes, at, n)), depth,
                    Left(stack, page.nodes, at) + [n] + Right(stack, page.nodes, at), leaves, branches)
  {
    hide Before, After, PagesAround, Rank, ItemOk, Placing, LeafOk;
    LeafPage(ps, page, depth - |stack|, LoOf(stack), HiOf(stack));
    LeafInsert(ps, page.nodes, at, n, LoOf(stack), HiOf(stack));
    CutIn(Before(stack), page.nodes, After(stack), at, n);
    LeafPlacing(ps, root, depth, leaves, branches, stack, page, Insert(page.nodes, at, n),
                Left(stack, page.nodes, at) + [n] + Right(stack, page.nodes, at));
  }

  lemma UpdatePlacing(ps: PageSize, root: Page, depth: nat, leaves: nat, branches: nat, stack: seq<Frame>, page: Page,
                      at: nat, n: Node)
    requires Framed(stack) && StackOk(ps, stack, depth) && |stack| < depth
    requires Good(ps, page, depth - |stack|, LoOf(stack), HiOf(stack)) && page.leaf && Zip(stack, page) == root
    requires PagesAt(root, true) == leaves && PagesAt(root, false) == branches
    requires ItemOk(ps, n) && at < |page.nodes| && page.nodes[at].key == n.key
    ensures Used(page.nodes) <= PMax(ps)
    ensures Placing(ps, stack, Page(true, page.nodes[at := n]), depth,
                    Left(stack, page.nodes, at) + [n] + Right(stack, page.nodes, at + 1), leaves, branches)
  {
    hide Before, After, PagesAround, Rank, ItemOk, Placing, LeafOk;
    LeafPage(ps, page, depth - |stack|, LoOf(stack), HiOf(stack));
    LeafUpdate(ps, page.nodes, at, n, LoOf(stack), HiOf(stack));
    CutOut(Before(stack), page.nodes[at := n], After(stack), at);
    LeafPlacing(ps, root, depth, leaves, branches, stack, page, page.nodes[at := n],
                Left(stack, page.nodes, at) + [n] + Right(stack, page.nodes, at + 1));
  }

  lemma RemovePlacing(ps: PageSize, root: Page, depth: nat, leaves: nat, branches: nat, stack: seq<Frame>, page: Page, at: nat)
    requires Framed(stack) && StackOk(ps, stack, depth) && |stack| < depth
    requires Good(ps, page, depth - |stack|, LoOf(stack), HiOf(stack)) && page.leaf && Zip(stack, page) == root
    requires PagesAt(root, true) == leaves && PagesAt(root, false) == branches && at < |page.nodes|
    ensures Used(Remove(page.nodes, at)) <= PMax(ps)
    ensures Placing(ps, stack, Page(true, Remove(page.nodes, at)), depth,
                    Left(stack, page.nodes, at) + Right(stack, page.nodes, at + 1), leaves, branches)
  {
    hide Before, After, PagesAround, Rank, ItemOk, Placing, LeafOk;
    LeafPage(ps, page, depth - |stack|, LoOf(stack), HiOf(stack));
    LeafRemove(ps, page.nodes, at, LoOf(stack), HiOf(stack));
    UsedRemove(page.nodes, at);
    CutGap(Before(stack), page.nodes, After(stack), at);
    LeafPlacing(ps, root, depth, leaves, branches, stack, page, Remove(page.nodes, at),
                Left(stack, page.nodes, at) + Right(stack, page.nodes, at + 1));
  }

  lemma CutGap(b: seq<Node>, nodes: seq<Node>, a: seq<Node>, at: nat)
    requires at < |nodes|
    ensures b + Remove(nodes, at) + a == (b + nodes[..at]) + (nodes[at + 1..] + a)
  {}

  lemma LeafRemove(ps: PageSize, nodes: seq<Node>, at: nat, lo: real, hi: real)
    requires LeafOk(ps, nodes, lo, hi) && at < |nodes|
    ensures LeafOk(ps, Remove(nodes, at), lo, hi)
  {
    hide Rank, ItemOk;
    var r := Remove(nodes, at);
    assert forall i | 0 <= i < |r| :: r[i] == nodes[if i < at then i else i + 1];
  }

  /** The old overflow pages have room for a value that needs no more of them. */
  lemma SameOverflow(ps: PageSize, key: Key, data: Data, n: Node)
    requires n.Item? && 1 <= |n.key| <= MAXKEY && n.ov > 0 && n.ov >= OvPages(|data|, ps)
    ensures ItemOk(ps, n.(data := data)) && Room(n.(data := data)) == Room(n)
  {
    OvPagesFit(|data|, ps);
    MulLe(OvPages(|data|, ps), n.ov, ps);
  }

  lemma SameLength(ps: PageSize, nodes: seq<Node>, at: nat, n: Node, lo: real, hi: real)
    requires LeafOk(ps, nodes, lo, hi) && at < |nodes| && n.Item? && nodes[at].Item? && nodes[at].ov == 0
    requires n.ov == 0 && n.key == nodes[at].key && |n.data| == |nodes[at].data|
    ensures ItemOk(ps, n) && Room(n) == Room(nodes[at])
  {
    assert ItemOk(ps, nodes[at]);
  }

  // ---------------------------------------------------------------- exactly when an update fails

  /** The node for a key and its data: a large value goes to overflow pages. */
  function ItemFor(ps: PageSize, key: Key, data: Data): Node {
    if NODESIZE + |key| + |data| > NodeMax(ps) then
      OvPagesFit(|data|, ps);
      Item(key, data, OvPages(|data|, ps))
    else Item(key, data, 0)
  }

  /** The value is replaced without deleting its node. */
  predicate Reuses(ps: PageSize, n: Node, data: Data, dirty: bool) {
    && n.Item?
    && if n.ov > 0 && n.ov >= OvPages(|data|, ps) && dirty then true else n.ov == 0 && |data| == |n.data|
  }

  /** Storing the value under the key fails: at the end of the path to the key there is no room for the
      node, with the old one gone, and adding it gets stuck, there or further up. */
  ghost predicate PutStuck(ps: PageSize, root: Page, key: Key, data: Data, dirty: bool) {
    var s := Lookup(root, key);
    if !s.exact then Stuck(ps, s.stack, true, s.page.nodes, s.at, ItemFor(ps, key, data))
    else
      && s.at < |s.page.nodes| && !Reuses(ps, s.page.nodes[s.at], data, dirty)
      && Stuck(ps, s.stack, true, Remove(s.page.nodes, s.at), s.at, ItemFor(ps, key, data))
  }

  /** Deleting the key fails: rebalancing without its node gets stuck. */
  ghost predicate DelStuck(ps: PageSize, root: Page, key: Key) {
    var s := Lookup(root, key);
    s.exact && s.at < |s.page.nodes| && MergeStuck(ps, s.stack, Page(true, Remove(s.page.nodes, s.at)))
  }

  /** There is room for the new node on the page where it belongs. */
  ghost predicate PutFits(ps: PageSize, root: Page, key: Key, data: Data) {
    var s := Lookup(root, key);
    !s.exact && Used(s.page.nodes) + Room(ItemFor(ps, key, data)) <= PMax(ps)
  }

  /** The tree with the node on that page. */
  ghost function PutThere(ps: PageSize, root: Page, key: Key, data: Data): Page {
    var s := Lookup(root, key);
    if s.at <= |s.page.nodes| && (forall f | f in s.stack :: f.ki < |f.nodes|)
    then Zip(s.stack, Page(true, Insert(s.page.nodes, s.at, ItemFor(ps, key, data))))
    else root
  }

  /** In bytes: the overflow pages of the old value have room for the new one, or both take the same room in the page. */
  predicate Rewritten(ps: PageSize, n: Node, data: Data, dirty: bool) {
    n.Item? && if n.ov > 0 then dirty && PAGEHDRSZ + |data| <= n.ov * ps else |data| == |n.data|
  }

  lemma ReusesIs(ps: PageSize, n: Node, data: Data, dirty: bool)
    ensures Reuses(ps, n, data, dirty) <==> Rewritten(ps, n, data, dirty)
  {
    if n.Item? {
      var x, q := PAGEHDRSZ - 1 + |data|, (PAGEHDRSZ - 1 + |data|) / ps;
      assert x == q * ps + x % ps;
      OvPagesFit(|data|, ps);
      if n.ov >= q + 1 {
        MulLe(OvPages(|data|, ps), n.ov, ps);
      } else {
        MulLe(n.ov, q, ps);
      }
    }
  }

  /** A value goes to overflow pages when two nodes as large would not fit in a page, and then takes as few of them as
      hold it. */
  lemma ItemForIs(ps: PageSize, key: Key, data: Data)
    ensures var n := ItemFor(ps, key, data);
            && n.Item? && n.key == key && n.data == data
            && (n.ov == 0 <==> 2 * Room(Item(key, data, 0)) <= PMax(ps))
            && (n.ov > 0 ==> (n.ov - 1) * ps < PAGEHDRSZ + |data| <= n.ov * ps)
  {
    OvPagesFit(|data|, ps);
    var x: int := PAGEHDRSZ - 1 + |data|;
    assert x == (x / ps) * ps + x % ps;
  }

  /** What storing the value makes of the tree, which may grow by `k` levels. */
  ghost predicate PutDone(ps: PageSize, root: Page, key: Key, data: Data, dirty: bool, done: Page, k: int) {
    var s := Lookup(root, key);
    && Framed(s.stack) && s.at <= |s.page.nodes|
    && if !s.exact then Placed(ps, s.stack, true, s.page.nodes, s.at, ItemFor(ps, key, data), done, k)
       else
         && s.at < |s.page.nodes|
         && if Rewritten(ps, s.page.nodes[s.at], data, dirty) then
              k == 0 && done == Zip(s.stack, Page(true, s.page.nodes[s.at := s.page.nodes[s.at].(data := data)]))
            else Placed(ps, s.stack, true, Remove(s.page.nodes, s.at), s.at, ItemFor(ps, key, data), done, k)
  }

  /** What deleting the key makes of it. */
  ghost predicate DelDone(ps: PageSize, root: Page, key: Key, done: Option<Page>, k: int) {
    var s := Lookup(root, key);
    && s.exact && s.at < |s.page.nodes|
    && Rebalanced(ps, s.stack, Page(true, Remove(s.page.nodes, s.at)), done, k)
  }

  lemma PutDoneNew(ps: PageSize, root: Page, stack: seq<Frame>, page: Page, at: nat, key: Key, data: Data, dirty: bool,
                   done: Page, k: int)
    requires Lookup(root, key) == Spot(stack, page, at, false) && at <= |page.nodes| && Framed(stack)
    ensures PutDone(ps, root, key, data, dirty, done, k)
            == Placed(ps, stack, true, page.nodes, at, ItemFor(ps, key, data), done, k)
  {
    hide Placed, ItemFor, Lookup, Zip;
  }

  lemma PutDoneOld(ps: PageSize, root: Page, stack: seq<Frame>, page: Page, at: nat, key: Key, data: Data, dirty: bool,
                   done: Page, k: int)
    requires Lookup(root, key) == Spot(stack, page, at, true) && at < |page.nodes| && Framed(stack)
    ensures PutDone(ps, root, key, data, dirty, done, k)
            == if Reuses(ps, page.nodes[at], data, dirty) then
                 k == 0 && done == Zip(stack, Page(true, page.nodes[at := page.nodes[at].(data := data)]))
               else Placed(ps, stack, true, Remove(page.nodes, at), at, ItemFor(ps, key, data), done, k)
  {
    ReusesIs(ps, page.nodes[at], data, dirty);
    hide Placed, ItemFor, Lookup, Zip, Reuses;
  }

  lemma DelDoneIs(ps: PageSize, root: Page, stack: seq<Frame>, page: Page, at: nat, key: Key, done: Option<Page>, k: int)
    requires Lookup(root, key) == Spot(stack, page, at, true) && at < |page.nodes|
    ensures DelDone(ps, root, key, done, k) == Rebalanced(ps, stack, Page(true, Remove(page.nodes, at)), done, k)
  {
    hide Rebalanced, Lookup;
  }

  lemma PlacedFits(ps: PageSize, stack: seq<Frame>, leaf: bool, nodes: seq<Node>, at: nat, n: Node, root: Page, k: int)
    requires Placed(ps, stack, leaf, nodes, at, n, root, k) && Used(nodes) + Room(n) <= PMax(ps)
    ensures Framed(stack) && at <= |nodes| && root == Zip(stack, Page(leaf, Insert(nodes, at, n)))
  {
    hide Used, Room, Insert, Zip;
  }

  lemma NewStuck(ps: PageSize, root: Page, stack: seq<Frame>, page: Page, at: nat, key: Key, data: Data, dirty: bool)
    requires Lookup(root, key) == Spot(stack, page, at, false) && at <= |page.nodes| && Framed(stack)
    ensures PutStuck(ps, root, key, data, dirty) == Stuck(ps, stack, true, page.nodes, at, ItemFor(ps, key, data))
    ensures PutFits(ps, root, key, data) == (Used(page.nodes) + Room(ItemFor(ps, key, data)) <= PMax(ps))
    ensures PutThere(ps, root, key, data) == Zip(stack, Page(true, Insert(page.nodes, at, ItemFor(ps, key, data))))
  {
    hide Stuck, ItemFor, Used, Room, Lookup, Zip;
  }

  lemma OldStuck(ps: PageSize, root: Page, stack: seq<Frame>, page: Page, at: nat, key: Key, data: Data, dirty: bool)
    requires Lookup(root, key) == Spot(stack, page, at, true) && at < |page.nodes|
    ensures PutStuck(ps, root, key, data, dirty)
       <==> !Reuses(ps, page.nodes[at], data, dirty) && Stuck(ps, stack, true, Remove(page.nodes, at), at, ItemFor(ps, key, data))
    ensures DelStuck(ps, root, key) == MergeStuck(ps, stack, Page(true, Remove(page.nodes, at)))
    ensures !PutFits(ps, root, key, data)
  {
    hide Stuck, MergeStuck, ItemFor, Used, Room, Lookup, Reuses;
  }

  /** A database handle within a write transaction. */
  class Db {
    const ps: PageSize
    /** md_root; None is P_INVALID. */
    var root: Option<Page>
    var depth: nat
    var entries: nat
    var leafPages: nat
    var branchPages: nat
    var overflowPages: int
    /** MDB_TXN_ERROR: the transaction can only be aborted. */
    var error: bool

    constructor (ps: PageSize)
      ensures Valid() && !error && this.ps == ps && Contents() == map[] && root == None
    {
      this.ps := ps;
      root, depth, entries := None, 0, 0;
      leafPages, branchPages, overflowPages := 0, 0, 0;
      error := false;
    }

    ghost function Items(): seq<Node>
      reads this
    {
      if root.None? then [] else Flat(root.value.nodes)
    }

    /** A well-formed tree of this depth, and counters that tell the truth. */
    ghost predicate Valid()
      reads this
    {
      error ||
      (&& entries == |Items()| && overflowPages == Overflow(Items())
       && if root.None? then depth == 0 && leafPages == 0 && branchPages == 0
          else TreeOk(ps, root.value, depth, Items(), leafPages, branchPages))
    }

    lemma ValidItems()
      requires Valid() && !error
      ensures forall i | 0 <= i < |Items()| :: Items()[i].Item?
      ensures InOrder(Items(), 0.0, 1.0)
    {
      if root.Some? {
        TreeInOrder(ps, root.value, depth);
      }
    }

    ghost function Contents(): map<Key, Data>
      requires Valid() && !error
      reads this
    {
      ValidItems();
      ToMap(Items())
    }

    /** `mdb_get`. */
    method Get(key: Key) returns (r: Result, data: Data)
      requires Valid()
      ensures error ==> r == BadTxn
      ensures !error && key == [] ==> r == BadValSize
      ensures !error && key != [] ==> r == if key in Contents() then Ok else NotFound
      ensures r == Ok ==> !error && key in Contents() && data == Contents()[key]
    {
      hide Good, Rank, StackOk, Zip, Framed, InOrder, Position;
      data := [];
      if error {
        return BadTxn, data;
      }
      if key == [] {
        return BadValSize, data;
      }
      if root.None? {
        return NotFound, data;
      }
      var stack, page, at, exact := Search(ps, root.value, key, depth);
      FoundParts(ps, root.value, depth, stack, page, key, at, exact);
      if !exact {
        return NotFound, data;
      }
      r, data := Ok, page.nodes[at].data;
    }

    /** The node for a key and its data: a large value goes to overflow pages. */
    method NewItem(key: Key, data: Data) returns (n: Node)
      requires 1 <= |key| <= MAXKEY
      modifies `overflowPages
      ensures n.Item? && n.key == key && n.data == data && ItemOk(ps, n) && n == ItemFor(ps, key, data)
      ensures overflowPages == old(overflowPages) + n.ov
    {
      var ov: nat := 0;
      if NODESIZE + |key| + |data| > NodeMax(ps) {
        OvPagesFit(|data|, ps);
        ov := OvPages(|data|, ps);
        overflowPages := overflowPages + ov;
      }
      n := Item(key, data, ov);
    }

    /** The cursor is on the leaf page where the key is, or belongs. */
    ghost predicate OnLeaf(stack: seq<Frame>, page: Page, key: Key, at: nat, exact: bool)
      reads this
    {
      && Framed(stack) && StackOk(ps, stack, depth) && |stack| < depth
      && Good(ps, page, depth - |stack|, LoOf(stack), HiOf(stack)) && page.leaf
      && root == Some(Zip(stack, page)) && LoOf(stack) <= Rank(key) < HiOf(stack)
      && Position(page.nodes, 0, key, at, exact)
    }

    lemma NoItems()
      requires Valid() && !error && root.None?
      ensures Contents() == map[]
    {}

    lemma TreeIs()
      requires Valid() && !error && root.Some?
      ensures Good(ps, root.value, depth, 0.0, 1.0) && Items() == Flat(root.value.nodes)
    {
      hide Good, Flat, Overflow, PagesAt;
    }

    lemma OnLeafIf(stack: seq<Frame>, page: Page, key: Key, at: nat, exact: bool)
      requires Framed(stack) && StackOk(ps, stack, depth) && |stack| < depth
      requires Good(ps, page, depth - |stack|, LoOf(stack), HiOf(stack)) && page.leaf
      requires root == Some(Zip(stack, page)) && LoOf(stack) <= Rank(key) < HiOf(stack)
      requires Position(page.nodes, 0, key, at, exact)
      ensures OnLeaf(stack, page, key, at, exact)
    {
      hide Good, StackOk, Zip, LoOf, HiOf, Rank, Position;
    }

    /** Where the key is, or belongs. */
    method Find(key: Key) returns (stack: seq<Frame>, page: Page, at: nat, exact: bool)
      requires Valid() && !error && root.Some?
      ensures OnLeaf(stack, page, key, at, exact) && Framed(stack) && at <= |page.nodes| && (exact ==> at < |page.nodes|)
      ensures exact <==> key in Contents()
      ensures Lookup(root.value, key) == Spot(stack, page, at, exact)
      ensures Crowded(ps, stack, page) ==> HasLopsided(ps, root)
    {
      hide *;
      TreeIs();
      ContentsAre();
      stack, page, at, exact := Search(ps, root.value, key, depth);
      OnLeafIf(stack, page, key, at, exact);
      CrowdedTree(ps, root.value, stack, page);
      FoundParts(ps, root.value, depth, stack, page, key, at, exact);
    }

    /** The items, with node n at `at` of the page at the bottom of the stack, are to be `total`. */
    method Store(stack: seq<Frame>, nodes: seq<Node>, at: nat, n: Node, ghost total: seq<Node>) returns (r: Result)
      requires !error && at <= |nodes| && Used(nodes) <= PMax(ps)
      requires Placing(ps, stack, Page(true, Insert(nodes, at, n)), depth, total, leafPages, branchPages)
      requires entries == |total| && overflowPages == Overflow(total)
      modifies this
      ensures Valid() && (r == Ok || r == Full)
      ensures r == Ok ==> !error && Items() == total
      ensures r == Full ==> error && (Tight(ps, nodes) || exists f :: f in stack && Lopsided(ps, f.nodes))
      ensures r == Full <==> Stuck(ps, stack, true, nodes, at, n)
      ensures Used(nodes) + Room(n) <= PMax(ps) ==> r == Ok
      ensures r == Ok ==> root.Some? && Placed(ps, stack, true, nodes, at, n, root.value, depth - old(depth))
    {
      hide Placing, Used, Tight, Lopsided, Stuck, Room, Placed;
      var rc, tree, d, leaves, branches := Place(ps, stack, true, nodes, at, n, depth, leafPages, branchPages, total);
      root, depth, leafPages, branchPages := Some(tree), d, leaves, branches;
      if rc == PageFull {
        error := true;
        return Full;
      }
      TreeItems(ps, tree, d, total, leaves, branches);
      r := Ok;
    }

    /** The same, when a node of the page was changed in place. */
    method WriteBack(stack: seq<Frame>, nodes: seq<Node>, ghost total: seq<Node>)
      requires !error && Used(nodes) <= PMax(ps) && |nodes| >= 1
      requires Placing(ps, stack, Page(true, nodes), depth, total, leafPages, branchPages)
      requires entries == |total| && overflowPages == Overflow(total)
      requires forall f | f in stack :: f.ki < |f.nodes|
      modifies `root
      ensures Valid() && Items() == total && root == Some(Zip(stack, Page(true, nodes)))
    {
      hide Placing, Used;
      PlaceDone(ps, stack, Page(true, nodes), depth, total, leafPages, branchPages);
      TreeItems(ps, Zip(stack, Page(true, nodes)), depth, total, leafPages, branchPages);
      root := Some(Zip(stack, Page(true, nodes)));
    }

    method PutFirst(key: Key, data: Data) returns (r: Result)
      requires Valid() && !error && root.None? && 1 <= |key| <= MAXKEY
      modifies this
      ensures Valid() && r == Ok && !error && Contents() == map[key := data]
      ensures root == Some(Page(true, [ItemFor(ps, key, data)]))
    {
      EmptyCounters();
      hide *;
      EmptyNotTight(ps);
      var n := NewItem(key, data);
      entries, depth, leafPages := 1, 1, 1;
      FirstPlacing(ps, n);
      FirstRoom(ps, n);
      r := Store([], [], 0, n, [n]);
      PlacedFits(ps, [], true, [], 0, n, root.value, depth - 1);
      ContentsAre();
    }

    lemma EmptyCounters()
      requires Valid() && !error && root.None?
      ensures leafPages == 0 && branchPages == 0 && overflowPages == 0
    {}

    lemma ContentsAre()
      requires Valid() && !error
      ensures (forall i | 0 <= i < |Items()| :: Items()[i].Item?) && Contents() == ToMap(Items())
    {
      hide ToMap, Items;
      ValidItems();
    }

    /** The key is new: add it. */
    method Add(stack: seq<Frame>, page: Page, at: nat, key: Key, data: Data) returns (r: Result)
      requires Valid() && !error && OnLeaf(stack, page, key, at, false) && 1 <= |key| <= MAXKEY
      modifies this
      ensures Valid() && (r == Ok || r == Full)
      ensures r == Ok ==> !error && Contents() == old(Contents())[key := data]
      ensures r == Full ==> error && Crowded(ps, stack, page)
      ensures r == Full <==> Stuck(ps, stack, true, page.nodes, at, ItemFor(ps, key, data))
      ensures Used(page.nodes) + Room(ItemFor(ps, key, data)) <= PMax(ps) ==> r == Ok
      ensures r == Ok ==> root.Some? && Placed(ps, stack, true, page.nodes, at, ItemFor(ps, key, data), root.value, depth - old(depth))
    {
      hide Placed;
      hide Good, Rank, StackOk, Zip, Framed, InOrder, Position, ItemOk, LeafOk, Placing, Used, Before, After, Overflow,
        Lopsided, Stuck, Room, ItemFor;
      ghost var items := Items();
      FoundParts(ps, root.value, depth, stack, page, key, at, false);
      ghost var left, right := Left(stack, page.nodes, at), Right(stack, page.nodes, at);
      var n := NewItem(key, data);
      entries := entries + 1;
      AddPlacing(ps, root.value, depth, leafPages, branchPages, stack, page, at, n);
      OverflowAround(left, n, right);
      r := Store(stack, page.nodes, at, n, left + [n] + right);
      if r == Full {
        if Tight(ps, page.nodes) { TightLopsided(ps, page.nodes); }
      } else {
        ValidItems();
        MapInsert(left, n, right);
      }
    }

    /** The key is there: its overflow pages are used again when they are writable and large
        enough, a value of the same length is replaced in place, else the node is deleted and
        added again. */
    method Overwrite(stack: seq<Frame>, page: Page, at: nat, key: Key, data: Data, dirty: bool) returns (r: Result)
      requires Valid() && !error && OnLeaf(stack, page, key, at, true) && 1 <= |key| <= MAXKEY
      modifies this
      ensures Valid() && (r == Ok || r == Full)
      ensures r == Ok ==> !error && Contents() == old(Contents())[key := data]
      ensures r == Full ==> error && Crowded(ps, stack, page)
      ensures at < |page.nodes|
      ensures r == Full <==>
                !Reuses(ps, page.nodes[at], data, dirty) && Stuck(ps, stack, true, Remove(page.nodes, at), at, ItemFor(ps, key, data))
      ensures r == Ok ==>
                && Framed(stack) && root.Some?
                && if Reuses(ps, page.nodes[at], data, dirty) then
                     depth == old(depth) && root.value == Zip(stack, Page(true, page.nodes[at := page.nodes[at].(data := data)]))
                   else Placed(ps, stack, true, Remove(page.nodes, at), at, ItemFor(ps, key, data), root.value, depth - old(depth))
    {
      hide Placed;
      hide Good, Rank, StackOk, Zip, Framed, InOrder, Position, ItemOk, LeafOk, Placing, Used, Before, After, Overflow,
        Lopsided, Stuck, ItemFor;
      ghost var items := Items();
      FoundParts(ps, root.value, depth, stack, page, key, at, true);
      LeafPage(ps, page, depth - |stack|, LoOf(stack), HiOf(stack));
      ghost var left, right := Left(stack, page.nodes, at), Right(stack, page.nodes, at + 1);
      var leaf := page.nodes[at];
      OverflowAround(left, leaf, right);
      var n: Node;
      if leaf.ov > 0 && leaf.ov >= OvPages(|data|, ps) && dirty {
        n := leaf.(data := data);
        SameOverflow(ps, key, data, leaf);
        InPlace(stack, page, at, n, left, right);
        r := Ok;
      } else if leaf.ov == 0 && |data| == |leaf.data| {
        n := leaf.(data := data);
        SameLength(ps, page.nodes, at, n, LoOf(stack), HiOf(stack));
        InPlace(stack, page, at, n, left, right);
        r := Ok;
      } else {
        overflowPages := overflowPages - leaf.ov;
        n, r := Replace(stack, page, at, key, data, left, right);
      }
      if r == Ok {
        ValidItems();
        MapUpdate(left, leaf, n, right);
      }
    }

    /** A node of the same size takes the place of the old one. */
    method InPlace(stack: seq<Frame>, page: Page, at: nat, n: Node, ghost left: seq<Node>, ghost right: seq<Node>)
      requires !error && OnLeaf(stack, page, n.key, at, true) && n.Item? && ItemOk(ps, n)
      requires at < |page.nodes| && page.nodes[at].Item? && page.nodes[at].key == n.key
      requires page.nodes[at].ov == n.ov && Room(n) == Room(page.nodes[at])
      requires left == Left(stack, page.nodes, at) && right == Right(stack, page.nodes, at + 1)
      requires entries == |left| + |right| + 1 && overflowPages == Overflow(left + right) + n.ov
      requires TreeOk(ps, root.value, depth, Items(), leafPages, branchPages)
      modifies `root
      ensures Valid() && Items() == left + [n] + right && Framed(stack) && root == Some(Zip(stack, Page(true, page.nodes[at := n])))
    {
      hide Good, Rank, StackOk, Zip, InOrder, Position, ItemOk, LeafOk, Placing, Used, Before, After, Overflow;
      UpdatePlacing(ps, root.value, depth, leafPages, branchPages, stack, page, at, n);
      OverflowAround(left, n, right);
      UsedUpdate(page.nodes, at, n);
      WriteBack(stack, page.nodes[at := n], left + [n] + right);
    }

    /** Delete the node and add the key again, in a page that may have to split. */
    method Replace(stack: seq<Frame>, page: Page, at: nat, key: Key, data: Data,
                   ghost left: seq<Node>, ghost right: seq<Node>) returns (n: Node, r: Result)
      requires !error && OnLeaf(stack, page, key, at, true) && 1 <= |key| <= MAXKEY
      requires at < |page.nodes| && page.nodes[at].Item? && page.nodes[at].key == key
      requires left == Left(stack, page.nodes, at) && right == Right(stack, page.nodes, at + 1)
      requires entries == |left| + |right| + 1 && overflowPages == Overflow(left + right)
      requires TreeOk(ps, root.value, depth, Items(), leafPages, branchPages)
      modifies this
      ensures n.Item? && n.key == key && n.data == data
      ensures Valid() && (r == Ok || r == Full)
      ensures r == Ok ==> !error && Items() == left + [n] + right
      ensures r == Full ==> error && Crowded(ps, stack, page)
      ensures r == Full <==> Stuck(ps, stack, true, Remove(page.nodes, at), at, ItemFor(ps, key, data))
      ensures r == Ok ==>
                && root.Some?
                && Placed(ps, stack, true, Remove(page.nodes, at), at, ItemFor(ps, key, data), root.value, depth - old(depth))
    {
      hide Placed;
      hide Lopsided, Tight, Stuck, ItemFor, Room;
      hide Good, Rank, StackOk, Zip, Framed, InOrder, Position, ItemOk, LeafOk, Placing, Used, Before, After, Overflow;
      n := NewItem(key, data);
      UpdatePlacing(ps, root.value, depth, leafPages, branchPages, stack, page, at, n);
      OverflowAround(left, n, right);
      UsedRemove(page.nodes, at);
      assert Insert(Remove(page.nodes, at), at, n) == page.nodes[at := n];
      r := Store(stack, Remove(page.nodes, at), at, n, left + [n] + right);
      if Tight(ps, Remove(page.nodes, at)) {
        LopsidedRemoved(ps, page.nodes, at);
      }
    }

    /** `mdb_put` without MDB_APPEND: `dirty` says whether the old overflow pages of the key are
        already writable in this transaction. */
    method Put(key: Key, data: Data, noOverwrite: bool, dirty: bool) returns (r: Result)
      requires Valid()
      modifies this
      ensures Valid()
      ensures old(error) ==> r == BadTxn && unchanged(this)
      ensures !old(error) && !(1 <= |key| <= MAXKEY && |data| <= MAXDATASIZE) ==> r == BadValSize && unchanged(this)
      ensures !old(error) && 1 <= |key| <= MAXKEY && |data| <= MAXDATASIZE ==>
                if noOverwrite && key in old(Contents()) then r == KeyExist && unchanged(this)
                else r == Ok || r == Full
      ensures r == Ok ==> !old(error) && !error && Contents() == old(Contents())[key := data]
      ensures r == Full ==> error && HasLopsided(ps, old(root))
      ensures r == Ok || r == Full ==> (r == Full <==> old(root).Some? && PutStuck(ps, old(root).value, key, data, dirty))
      ensures r == Ok && old(root).None? ==> root == Some(Page(true, [ItemFor(ps, key, data)]))
      ensures r == Ok && old(root).Some? ==>
                root.Some? && PutDone(ps, old(root).value, key, data, dirty, root.value, depth - old(depth))
      ensures r == Ok && old(root).Some? && PutFits(ps, old(root).value, key, data) ==>
                root == Some(PutThere(ps, old(root).value, key, data))
    {
      hide *;
      if error {
        return BadTxn;
      }
      if !(1 <= |key| <= MAXKEY && |data| <= MAXDATASIZE) {
        return BadValSize;
      }
      if root.None? {
        NoItems();
        r := PutFirst(key, data);
        return;
      }
      var stack, page, at, exact := Find(key);
      if exact {
        if noOverwrite {
          return KeyExist;
        }
        r := Overwrite(stack, page, at, key, data, dirty);
        OldStuck(ps, old(root).value, stack, page, at, key, data, dirty);
        if r == Ok { PutDoneOld(ps, old(root).value, stack, page, at, key, data, dirty, root.value, depth - old(depth)); }
      } else {
        NewStuck(ps, root.value, stack, page, at, key, data, dirty);
        r := Add(stack, page, at, key, data);
        if r == Ok {
          PutDoneNew(ps, old(root).value, stack, page, at, key, data, dirty, root.value, depth - old(depth));
          if PutFits(ps, old(root).value, key, data) {
            PlacedFits(ps, stack, true, page.nodes, at, ItemFor(ps, key, data), root.value, depth - old(depth));
          }
        }
      }
    }

    /** `mdb_del`: `mdb_cursor_del` at the key, and its rebalancing. */
    method Del(key: Key) returns (r: Result)
      requires Valid()
      modifies this
      ensures Valid()
      ensures old(error) ==> r == BadTxn && unchanged(this)
      ensures !old(error) && key == [] ==> r == BadValSize && unchanged(this)
      ensures !old(error) && key != [] ==>
                if key in old(Contents()) then r == Ok || r == Full else r == NotFound && unchanged(this)
      ensures r == Ok ==> !old(error) && !error && Contents() == old(Contents()) - {key}
      ensures r == Full ==> error && HasLopsided(ps, old(root))
      ensures r == Ok || r == Full ==> (r == Full <==> old(root).Some? && DelStuck(ps, old(root).value, key))
      ensures r == Ok ==>
                && old(root).Some?
                && DelDone(ps, old(root).value, key, root, depth - old(depth))
    {
      hide *;
      if error {
        return BadTxn;
      }
      if key == [] {
        return BadValSize;
      }
      if root.None? {
        NoItems();
        return NotFound;
      }
      var stack, page, at, exact := Find(key);
      if !exact {
        return NotFound;
      }
      OldStuck(ps, root.value, stack, page, at, key, [], false);
      r := Delete(stack, page, at, key);
      if r == Ok {
        DelDoneIs(ps, old(root).value, stack, page, at, key, root, depth - old(depth));
      }
    }

    /** Delete the node the cursor is on. */
    method Delete(stack: seq<Frame>, page: Page, at: nat, key: Key) returns (r: Result)
      requires Valid() && !error && OnLeaf(stack, page, key, at, true)
      modifies this
      ensures Valid() && (r == Ok || r == Full)
      ensures r == Ok ==> !error && Contents() == old(Contents()) - {key}
      ensures r == Full ==> error && Crowded(ps, stack, page)
      ensures at < |page.nodes| && (r == Full <==> MergeStuck(ps, stack, Page(true, Remove(page.nodes, at))))
      ensures r == Ok ==>
                && old(root).Some?
                && Rebalanced(ps, stack, Page(true, Remove(page.nodes, at)), root, depth - old(depth))
    {
      hide *;
      OnLeafIs(stack, page, key, at, true);
      FoundParts(ps, root.value, depth, stack, page, key, at, true);
      ghost var left, right := Left(stack, page.nodes, at), Right(stack, page.nodes, at + 1);
      var leaf := page.nodes[at];
      OverflowAround(left, leaf, right);
      ValidItems();
      ContentsAre();
      MapInsert(left, leaf, right);
      RemovePlacing(ps, root.value, depth, leafPages, branchPages, stack, page, at);
      overflowPages := overflowPages - leaf.ov;
      entries := entries - 1;
      r := Shrink(stack, Page(true, Remove(page.nodes, at)), left + right);
      if r == Ok { ContentsAre(); }
      CrowdedAbove(ps, stack, page);
    }

    /** Where the cursor is, and what the counters say. */
    lemma OnLeafIs(stack: seq<Frame>, page: Page, key: Key, at: nat, exact: bool)
      requires Valid() && !error && OnLeaf(stack, page, key, at, exact)
      ensures Framed(stack) && StackOk(ps, stack, depth) && |stack| < depth
      ensures Good(ps, page, depth - |stack|, LoOf(stack), HiOf(stack)) && page.leaf
      ensures root == Some(Zip(stack, page)) && LoOf(stack) <= Rank(key) < HiOf(stack)
      ensures Position(page.nodes, 0, key, at, exact)
      ensures Items() == Flat(root.value.nodes) && entries == |Items()| && overflowPages == Overflow(Items())
      ensures TreeOk(ps, root.value, depth, Items(), leafPages, branchPages)
      ensures Good(ps, root.value, depth, 0.0, 1.0) && PagesAt(root.value, true) == leafPages && PagesAt(root.value, false) == branchPages
    {
      hide Good, Rank, StackOk, Zip, Position, Overflow, PagesAt, Flat;
    }

    /** Rebalance from the page at the bottom of the stack; the items are to be `total`. */
    method Shrink(stack: seq<Frame>, page: Page, ghost total: seq<Node>) returns (r: Result)
      requires !error && Used(page.nodes) <= PMax(ps)
      requires Placing(ps, stack, page, depth, total, leafPages, branchPages)
      requires entries == |total| && overflowPages == Overflow(total)
      modifies this
      ensures Valid() && (r == Ok || r == Full)
      ensures r == Ok ==> !error && Items() == total
      ensures r == Full ==> error && exists f :: f in stack && Lopsided(ps, f.nodes)
      ensures r == Full <==> MergeStuck(ps, stack, page)
      ensures r == Ok ==> Rebalanced(ps, stack, page, root, depth - old(depth))
    {
      hide Placing, Used, Tight, Lopsided, MergeStuck, Rebalanced;
      var rc, empty, tree, d, leaves, branches := Rebalance(ps, stack, page, depth, leafPages, branchPages, total);
      root, depth, leafPages, branchPages := if empty then None else Some(tree), d, leaves, branches;
      if rc == PageFull {
        error := true;
        return Full;
      }
      if !empty {
        TreeItems(ps, tree, d, total, leaves, branches);
      }
      r := Ok;
    }
  }
}
