/** Searching the tree (mdb_node_search, mdb_page_search_root, mdb.c). */
module BTreeSearch {
  import opened Keys
  import opened BTree

  /** Keys ascend from index `from` on. */
  ghost predicate Rising(nodes: seq<Node>, from: nat) {
    forall i, j | from <= i < j < |nodes| :: Rank(nodes[i].key) < Rank(nodes[j].key)
  }

  /** Index `at` is where the key is, or where it belongs among the nodes from `from` on. */
  ghost predicate Position(nodes: seq<Node>, from: nat, key: Key, at: nat, exact: bool) {
    if exact then at < |nodes| && nodes[at].key == key
    else
      && at <= |nodes|
      && (forall i | from <= i < at && i < |nodes| :: Rank(nodes[i].key) < Rank(key))
      && (forall i | at <= i < |nodes| :: Rank(key) < Rank(nodes[i].key))
  }

  /** `mdb_node_search`: binary search; the first node of a branch page has no key. */
  method NodeSearch(leaf: bool, nodes: seq<Node>, key: Key) returns (at: nat, exact: bool)
    requires Rising(nodes, if leaf then 0 else 1) && (!leaf ==> |nodes| >= 2)
    ensures Position(nodes, if leaf then 0 else 1, key, at, exact)
    ensures !leaf ==> at >= 1
  {
    hide Rank;
    var nkeys := |nodes|;
    var low: int, high: int := if leaf then 0 else 1, nkeys - 1;
    ghost var from := low;
    var i, rc := 0, 0;
    while low <= high
      invariant from <= low <= high + 1 <= nkeys
      invariant rc == 0 ==> low == from && high == nkeys - 1 && i == 0
      invariant rc > 0 ==> low == i + 1 && i >= from
      invariant rc < 0 ==> high == i - 1 && i >= from
      invariant forall j | from <= j < low :: Rank(nodes[j].key) < Rank(key)
      invariant forall j | high < j < nkeys :: Rank(key) < Rank(nodes[j].key)
      decreases high - low
    {
      i := (low + high) / 2;
      rc := CmpMemn(key, nodes[i].key);
      RankOrders(key, nodes[i].key);
      RankOrders(nodes[i].key, key);
      if rc == 0 {
        break;
      }
      if rc > 0 {
        low := i + 1;
      } else {
        high := i - 1;
      }
    }
    if rc > 0 {
      i := i + 1;
    }
    exact := rc == 0 && nkeys > 0;
    at := i;
  }

  /** The nodes of a good page ascend. */
  lemma GoodRising(ps: PageSize, p: Page, h: nat, lo: real, hi: real)
    requires Good(ps, p, h, lo, hi)
    ensures Rising(p.nodes, if p.leaf then 0 else 1)
  {
    if !p.leaf {
      BranchKids(ps, p, h, lo, hi);
      forall i, j | 1 <= i < j < |p.nodes| ensures Rank(p.nodes[i].key) < Rank(p.nodes[j].key) {
        KidsInOrder(ps, p.nodes, h, lo, hi, i, j);
      }
    }
  }

  /** Every page of the stack is the child of the one above it that the index names. */
  ghost predicate Linked(stack: seq<Frame>, page: Page)
    requires Framed(stack)
  {
    stack == [] ||
    var n := |stack| - 1;
    stack[n].nodes[stack[n].ki].page == page && Linked(stack[..n], Page(false, stack[n].nodes))
  }

  /** One step down keeps the stack good. */
  lemma Descend(ps: PageSize, stack: seq<Frame>, p: Page, i: nat, depth: nat)
    requires Framed(stack) && StackOk(ps, stack, depth) && |stack| < depth
    requires Good(ps, p, depth - |stack|, LoOf(stack), HiOf(stack)) && !p.leaf && i < |p.nodes|
    ensures p.nodes[i].Link?
    ensures var down := stack + [Frame(p.nodes, i)];
            && Framed(down) && StackOk(ps, down, depth) && |down| < depth
            && Good(ps, p.nodes[i].page, depth - |down|, LoOf(down), HiOf(down))
            && LoOf(down) == LoAt(p.nodes, i, LoOf(stack)) && HiOf(down) == HiAt(p.nodes, i, HiOf(stack))
            && Zip(down, p.nodes[i].page) == Zip(stack, p)
            && (Linked(stack, p) ==> Linked(down, p.nodes[i].page))
  {
    hide Before, After, Flat;
    var f := Frame(p.nodes, i);
    var down := stack + [f];
    assert down[..|stack|] == stack;
    BranchKids(ps, p, depth - |stack|, LoOf(stack), HiOf(stack));
    KidGood(ps, p.nodes, i, depth - |stack|, LoOf(stack), HiOf(stack));
    assert Framed(down) by {
      forall g | g in down ensures g.ki < |g.nodes| && g.nodes[g.ki].Link? {}
    }
    assert FrameOk(ps, f, depth - |stack|, LoOf(stack), HiOf(stack));
    assert Filled(f, p.nodes[i].page) == p.nodes;
  }

  /** These are the nodes of a page of the tree below `nodes`. */
  ghost predicate InTree(q: seq<Node>, nodes: seq<Node>)
    decreases nodes
  {
    q == nodes || exists i :: 0 <= i < |nodes| && nodes[i].Link? && InTree(q, nodes[i].page.nodes)
  }

  lemma {:induction false} InTreeDown(q: seq<Node>, nodes: seq<Node>, i: nat)
    requires InTree(q, nodes) && i < |q| && q[i].Link?
    ensures InTree(q[i].page.nodes, nodes)
    decreases nodes
  {
    if q == nodes {
      assert InTree(q[i].page.nodes, nodes[i].page.nodes);
    } else {
      var k :| 0 <= k < |nodes| && nodes[k].Link? && InTree(q, nodes[k].page.nodes);
      InTreeDown(q, nodes[k].page.nodes, i);
    }
  }

  // ---------------------------------------------------------------- the path as a function of the key

  /** The first node, from this index on, whose key is not below. */
  ghost function FirstNotBelow(nodes: seq<Node>, from: nat, key: Key): (r: nat)
    ensures from <= |nodes| ==> from <= r <= |nodes|
    decreases |nodes| - from
  {
    if from >= |nodes| || Rank(key) <= Rank(nodes[from].key) then from else FirstNotBelow(nodes, from + 1, key)
  }

  ghost predicate KeyAt(nodes: seq<Node>, at: nat, key: Key) {
    at < |nodes| && nodes[at].key == key
  }

  /** A search can only end there. */
  lemma {:induction false} PositionFirst(nodes: seq<Node>, from: nat, key: Key, at: nat, exact: bool)
    requires Rising(nodes, from) && Position(nodes, from, key, at, exact) && from <= at && from <= |nodes|
    ensures at == FirstNotBelow(nodes, from, key) && exact == KeyAt(nodes, at, key)
    decreases at - from
  {
    hide Rank;
    if from < at {
      PositionFirst(nodes, from + 1, key, at, exact);
    }
  }

  /** The pages on the path to a key, and its place on the leaf page. */
  datatype Spot = Spot(stack: seq<Frame>, page: Page, at: nat, exact: bool)

  /** The link followed on a branch page. */
  ghost function Way(nodes: seq<Node>, key: Key): nat
    requires |nodes| >= 1
  {
    var at := FirstNotBelow(nodes, 1, key);
    if KeyAt(nodes, at, key) then at else at - 1
  }

  ghost function Lookup(p: Page, key: Key): Spot
    decreases p
  {
    if p.leaf || p.nodes == [] || Way(p.nodes, key) >= |p.nodes| || !p.nodes[Way(p.nodes, key)].Link? then
      var at := FirstNotBelow(p.nodes, 0, key);
      Spot([], p, at, KeyAt(p.nodes, at, key))
    else
      var i := Way(p.nodes, key);
      Below(Frame(p.nodes, i), Lookup(p.nodes[i].page, key))
  }

  ghost function Below(f: Frame, s: Spot): Spot {
    s.(stack := [f] + s.stack)
  }

  ghost function BelowAll(stack: seq<Frame>, s: Spot): Spot {
    s.(stack := stack + s.stack)
  }

  lemma LookupDown(p: Page, key: Key, i: nat, stack: seq<Frame>)
    requires !p.leaf && i < |p.nodes| && p.nodes[i].Link? && i == Way(p.nodes, key)
    ensures BelowAll(stack, Lookup(p, key)) == BelowAll(stack + [Frame(p.nodes, i)], Lookup(p.nodes[i].page, key))
  {
    hide Way;
    var s := Lookup(p.nodes[i].page, key);
    assert Lookup(p, key) == Below(Frame(p.nodes, i), s);
    assert stack + ([Frame(p.nodes, i)] + s.stack) == (stack + [Frame(p.nodes, i)]) + s.stack;
  }

  lemma LookupLeaf(p: Page, key: Key, at: nat, exact: bool, stack: seq<Frame>)
    requires p.leaf && Rising(p.nodes, 0) && Position(p.nodes, 0, key, at, exact)
    ensures BelowAll(stack, Lookup(p, key)) == Spot(stack, p, at, exact)
  {
    PositionFirst(p.nodes, 0, key, at, exact);
    assert stack + [] == stack;
  }

  lemma WayIs(nodes: seq<Node>, key: Key, at: nat, exact: bool, i: nat)
    requires |nodes| >= 2 && at >= 1 && Position(nodes, 1, key, at, exact) && Rising(nodes, 1)
    requires i == if at >= |nodes| then |nodes| - 1 else if exact then at else at - 1
    ensures i == Way(nodes, key)
  {
    hide Rank;
    PositionFirst(nodes, 1, key, at, exact);
  }

  /** `mdb_page_search_root`: the path to the leaf page the key belongs to, and its place there. */
  method Search(ps: PageSize, root: Page, key: Key, ghost depth: nat)
    returns (stack: seq<Frame>, page: Page, at: nat, exact: bool)
    requires Good(ps, root, depth, 0.0, 1.0)
    ensures Framed(stack) && StackOk(ps, stack, depth) && |stack| < depth
    ensures Good(ps, page, depth - |stack|, LoOf(stack), HiOf(stack)) && page.leaf
    ensures Zip(stack, page) == root && LoOf(stack) <= Rank(key) < HiOf(stack)
    ensures Position(page.nodes, 0, key, at, exact)
    ensures Linked(stack, page)
    ensures InTree(page.nodes, root.nodes) && forall f | f in stack :: InTree(f.nodes, root.nodes)
    ensures Spot(stack, page, at, exact) == Lookup(root, key)
  {
    hide Lookup, BelowAll, Way, Rising;
    hide Linked, InTree, Good, StackOk, Zip, LoOf, HiOf, LoAt, HiAt, Position, Rank;
    page := root;
    stack := [];
    SearchStart(ps, root, depth);
    LookupStart(root, key);
    while !page.leaf
      invariant Framed(stack) && StackOk(ps, stack, depth) && |stack| < depth
      invariant Good(ps, page, depth - |stack|, LoOf(stack), HiOf(stack))
      invariant Zip(stack, page) == root && LoOf(stack) <= Rank(key) < HiOf(stack)
      invariant Linked(stack, page)
      invariant InTree(page.nodes, root.nodes) && forall f | f in stack :: InTree(f.nodes, root.nodes)
      invariant Lookup(root, key) == BelowAll(stack, Lookup(page, key))
      decreases depth - |stack|
    {
      GoodRising(ps, page, depth - |stack|, LoOf(stack), HiOf(stack));
      GoodSize(ps, page, depth - |stack|, LoOf(stack), HiOf(stack));
      var i, ex := NodeSearch(false, page.nodes, key);
      ghost var found := i;
      if i >= |page.nodes| {
        i := |page.nodes| - 1;
      } else if !ex {
        i := i - 1;
      }
      ChosenLink(page.nodes, key, found, ex, i, LoOf(stack), HiOf(stack));
      WayIs(page.nodes, key, found, ex, i);
      Descend(ps, stack, page, i, depth);
      InTreeDown(page.nodes, root.nodes, i);
      LookupDown(page, key, i, stack);
      stack := stack + [Frame(page.nodes, i)];
      page := page.nodes[i].page;
    }
    GoodRising(ps, page, depth - |stack|, LoOf(stack), HiOf(stack));
    at, exact := NodeSearch(true, page.nodes, key);
    LookupLeaf(page, key, at, exact, stack);
  }

  lemma LookupStart(root: Page, key: Key)
    ensures BelowAll([], Lookup(root, key)) == Lookup(root, key)
  {
    assert [] + Lookup(root, key).stack == Lookup(root, key).stack;
  }

  lemma SearchStart(ps: PageSize, root: Page, depth: nat)
    requires Good(ps, root, depth, 0.0, 1.0)
    ensures StackOk(ps, [], depth) && 0 < depth && Zip([], root) == root
    ensures LoOf([]) == 0.0 && HiOf([]) == 1.0 && InTree(root.nodes, root.nodes) && Linked([], root)
  {}

  /** The link followed is the one whose bounds hold the key. */
  lemma ChosenLink(nodes: seq<Node>, key: Key, at: nat, exact: bool, i: nat, lo: real, hi: real)
    requires |nodes| >= 2 && at >= 1 && Position(nodes, 1, key, at, exact) && Rising(nodes, 1)
    requires i == if at >= |nodes| then |nodes| - 1 else if exact then at else at - 1
    requires lo <= Rank(key) < hi
    ensures i < |nodes| && LoAt(nodes, i, lo) <= Rank(key) < HiAt(nodes, i, hi)
  {}

  lemma GoodSize(ps: PageSize, p: Page, h: nat, lo: real, hi: real)
    requires Good(ps, p, h, lo, hi)
    ensures |p.nodes| >= MinKeys(p.leaf)
  {}
}
