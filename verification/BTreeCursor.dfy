/** Walking and searching with a cursor that stays on its page (mdb_cursor_sibling,
    mdb_cursor_next, mdb_cursor_set, mdb.c). */
module BTreeCursor {
  import opened Options
  import opened Keys
  import opened BTree
  import opened BTreeChange
  import opened BTreeSearch

  datatype Result = Ok | NotFound | BadValSize

  /** The stack leads from the root of a good tree to the page. */
  ghost predicate OnPath(ps: PageSize, root: Page, depth: nat, stack: seq<Frame>, page: Page) {
    && Framed(stack) && StackOk(ps, stack, depth) && |stack| < depth
    && Good(ps, page, depth - |stack|, LoOf(stack), HiOf(stack))
    && Zip(stack, page) == root && Linked(stack, page)
  }

  lemma PathFramed(ps: PageSize, root: Page, depth: nat, stack: seq<Frame>, page: Page)
    requires OnPath(ps, root, depth, stack, page)
    ensures Framed(stack) && |stack| < depth
    ensures Flat(root.nodes) == Before(stack) + Flat(page.nodes) + After(stack)
    ensures |Flat(page.nodes)| > 0
  {
    hide Flat, Before, After, StackOk, Zip, Linked, Arranged;
    ZipFlat(stack, page);
    GoodItems(ps, page, depth - |stack|, LoOf(stack), HiOf(stack));
  }

  lemma GoodItems(ps: PageSize, p: Page, h: nat, lo: real, hi: real)
    requires Good(ps, p, h, lo, hi)
    ensures |p.nodes| > 0 && |Flat(p.nodes)| > 0 && p.leaf == (h == 1)
  {
    GoodNonEmpty(ps, p, h, lo, hi);
  }

  lemma RootPath(ps: PageSize, root: Page, depth: nat)
    requires Good(ps, root, depth, 0.0, 1.0)
    ensures OnPath(ps, root, depth, [], root)
  {}

  /** One level up: the page of the last frame. */
  lemma Pop(ps: PageSize, root: Page, depth: nat, stack: seq<Frame>, page: Page)
    requires OnPath(ps, root, depth, stack, page) && stack != []
    ensures var f := stack[|stack| - 1];
            && OnPath(ps, root, depth, stack[..|stack| - 1], Page(false, f.nodes))
            && f.ki < |f.nodes| && f.nodes[f.ki].Link? && f.nodes[f.ki].page == page
  {
    hide Before, After, Flat;
    var n := |stack| - 1;
    var f := stack[n];
    assert Filled(f, page) == f.nodes;
    FilledOk(ps, f, page, depth - n, LoOf(stack[..n]), HiOf(stack[..n]));
  }

  /** One level down. */
  lemma Push(ps: PageSize, root: Page, depth: nat, stack: seq<Frame>, page: Page, i: nat)
    requires OnPath(ps, root, depth, stack, page) && !page.leaf && i < |page.nodes|
    ensures page.nodes[i].Link? && OnPath(ps, root, depth, stack + [Frame(page.nodes, i)], page.nodes[i].page)
  {
    hide Before, After, Flat;
    Descend(ps, stack, page, i, depth);
  }

  /** What stands before and after a child. */
  lemma PushSides(stack: seq<Frame>, nodes: seq<Node>, i: nat)
    requires Framed(stack) && i < |nodes| && nodes[i].Link?
    ensures var down := stack + [Frame(nodes, i)];
            && Framed(down)
            && Before(down) == Before(stack) + Flat(nodes[..i])
            && After(down) == Flat(nodes[i + 1..]) + After(stack)
  {
    var down := stack + [Frame(nodes, i)];
    assert down[..|stack|] == stack;
    assert Framed(down) by {
      forall g | g in down ensures g.ki < |g.nodes| && g.nodes[g.ki].Link? {}
    }
  }

  lemma TakeOne(nodes: seq<Node>, i: nat)
    requires i < |nodes| && nodes[i].Link?
    ensures Flat(nodes[..i + 1]) == Flat(nodes[..i]) + Flat(nodes[i].page.nodes)
    ensures Flat(nodes[i..]) == Flat(nodes[i].page.nodes) + Flat(nodes[i + 1..])
  {
    assert nodes[..i + 1] == nodes[..i] + [nodes[i]] && nodes[i..] == [nodes[i]] + nodes[i + 1..];
    FlatAppend(nodes[..i], [nodes[i]]);
    FlatAppend([nodes[i]], nodes[i + 1..]);
    FlatLink(nodes[i]);
  }

  /** Moving to the next child of the same page. */
  lemma NextChild(ps: PageSize, root: Page, depth: nat, stack: seq<Frame>, page: Page)
    requires OnPath(ps, root, depth, stack, page) && stack != []
    requires var f := stack[|stack| - 1]; f.ki + 1 < |f.nodes|
    ensures var f := stack[|stack| - 1];
            var next := stack[..|stack| - 1] + [Frame(f.nodes, f.ki + 1)];
            && f.nodes[f.ki + 1].Link?
            && OnPath(ps, root, depth, next, f.nodes[f.ki + 1].page)
            && Framed(stack) && Framed(next)
            && Before(next) == Before(stack) + Flat(page.nodes)
            && After(stack) == Flat(f.nodes[f.ki + 1].page.nodes) + After(next)
            && |Flat(f.nodes[f.ki + 1].page.nodes)| > 0
  {
    hide Flat, Good, StackOk, Zip, Linked, Before, After, OnPath, Framed;
    var rest, f := stack[..|stack| - 1], stack[|stack| - 1];
    PathFramed(ps, root, depth, stack, page);
    StackSides(stack);
    Pop(ps, root, depth, stack, page);
    Push(ps, root, depth, rest, Page(false, f.nodes), f.ki + 1);
    PathFramed(ps, root, depth, rest + [Frame(f.nodes, f.ki + 1)], f.nodes[f.ki + 1].page);
    PushSides(rest, f.nodes, f.ki + 1);
    TakeOne(f.nodes, f.ki);
    TakeOne(f.nodes, f.ki + 1);
  }

  /** Moving to the first child of the page after the parent. */
  lemma NextCousin(ps: PageSize, root: Page, depth: nat, stack: seq<Frame>, page: Page, up: seq<Frame>, parent: Page)
    requires OnPath(ps, root, depth, stack, page) && stack != []
    requires var f := stack[|stack| - 1];
             f.ki + 1 >= |f.nodes| && OnPath(ps, root, depth, up, parent) && |up| == |stack| - 1
             && Framed(up) && Framed(stack[..|stack| - 1])
             && Before(up) == Before(stack[..|stack| - 1]) + Flat(f.nodes)
             && After(stack[..|stack| - 1]) == Flat(parent.nodes) + After(up)
    ensures Framed(stack) && !parent.leaf && |parent.nodes| > 0 && parent.nodes[0].Link?
    ensures var next := up + [Frame(parent.nodes, 0)];
            && OnPath(ps, root, depth, next, parent.nodes[0].page) && Framed(next)
            && Before(next) == Before(stack) + Flat(page.nodes)
            && After(stack) == Flat(parent.nodes[0].page.nodes) + After(next)
  {
    hide Flat, StackOk, Zip, Linked, Before, After, OnPath, Framed;
    var rest, f := stack[..|stack| - 1], stack[|stack| - 1];
    PathFramed(ps, root, depth, stack, page);
    StackSides(stack);
    Pop(ps, root, depth, stack, page);
    SameLevel(ps, root, depth, up, parent, rest, Page(false, f.nodes));
    Push(ps, root, depth, up, parent, 0);
    PushSides(up, parent.nodes, 0);
    FlatNone();
    assert parent.nodes[..0] == [] && f.nodes[f.ki + 1..] == [];
    TakeOne(f.nodes, f.ki);
    assert f.nodes[..f.ki + 1] == f.nodes;
    TakeOne(parent.nodes, 0);
    assert parent.nodes[0..] == parent.nodes;
  }

  lemma FlatNone()
    ensures Flat([]) == []
  {}

  /** `mdb_cursor_sibling` to the right: the page after this one at the same level, if any. */
  method Sibling(ps: PageSize, ghost root: Page, ghost depth: nat, stack: seq<Frame>, page: Page)
    returns (ok: bool, next: seq<Frame>, sibling: Page)
    requires OnPath(ps, root, depth, stack, page)
    ensures Framed(stack) && ok == (After(stack) != [])
    ensures ok ==> |next| == |stack| && OnPath(ps, root, depth, next, sibling)
    ensures ok ==> Framed(next)
    ensures ok ==> Before(next) == Before(stack) + Flat(page.nodes)
    ensures ok ==> After(stack) == Flat(sibling.nodes) + After(next)
    decreases |stack|
  {
    hide Flat, Good, StackOk, Zip, Linked, OnPath;
    next, sibling := stack, page;
    PathFramed(ps, root, depth, stack, page);
    if stack == [] {
      return false, next, sibling;
    }
    var rest, f := stack[..|stack| - 1], stack[|stack| - 1];
    Pop(ps, root, depth, stack, page);
    if f.ki + 1 >= |f.nodes| {
      var up, parent;
      ok, up, parent := Sibling(ps, root, depth, rest, Page(false, f.nodes));
      FlatNone();
      assert f.nodes[f.ki + 1..] == [];
      if !ok {
        return;
      }
      NextCousin(ps, root, depth, stack, page, up, parent);
      next, sibling := up + [Frame(parent.nodes, 0)], parent.nodes[0].page;
      PathFramed(ps, root, depth, next, sibling);
    } else {
      NextChild(ps, root, depth, stack, page);
      ok, next, sibling := true, rest + [Frame(f.nodes, f.ki + 1)], f.nodes[f.ki + 1].page;
    }
  }

  // ---------------------------------------------------------------- positions

  /** The number of items before the key. */
  ghost predicate LowerBound(items: seq<Node>, key: Key, pos: nat) {
    && pos <= |items|
    && (forall i | 0 <= i < pos :: Rank(items[i].key) < Rank(key))
    && (forall i | pos <= i < |items| :: Rank(key) <= Rank(items[i].key))
  }

  /** On the page the key belongs to, its place in the page is its place among all items. */
  lemma PlaceOnPage(before: seq<Node>, nodes: seq<Node>, after: seq<Node>, key: Key, at: nat, exact: bool)
    requires InOrder(before + nodes + after, 0.0, 1.0) && Position(nodes, 0, key, at, exact)
    requires forall i | 0 <= i < |before| :: Rank(before[i].key) < Rank(key)
    requires forall i | 0 <= i < |after| :: Rank(key) < Rank(after[i].key)
    ensures at <= |nodes| && LowerBound(before + nodes + after, key, |before| + at)
    ensures exact <==> exists i :: 0 <= i < |before + nodes + after| && (before + nodes + after)[i].key == key
    ensures exact ==> (before + nodes + after)[|before| + at].key == key
  {
    hide Rank;
    var s := before + nodes + after;
    if exact {
      assert s[|before| + at] == nodes[at];
      PlaceExact(s, |before| + at, key);
    } else {
      PlaceBetween(before, nodes, after, key, at);
    }
  }

  lemma PlaceExact(s: seq<Node>, p: nat, key: Key)
    requires InOrder(s, 0.0, 1.0) && p < |s| && s[p].key == key
    ensures LowerBound(s, key, p)
  {}

  lemma PlaceBetween(before: seq<Node>, nodes: seq<Node>, after: seq<Node>, key: Key, at: nat)
    requires Position(nodes, 0, key, at, false)
    requires forall i | 0 <= i < |before| :: Rank(before[i].key) < Rank(key)
    requires forall i | 0 <= i < |after| :: Rank(key) < Rank(after[i].key)
    ensures LowerBound(before + nodes + after, key, |before| + at)
    ensures forall i | 0 <= i < |before + nodes + after| :: (before + nodes + after)[i].key != key
  {
    hide Rank;
    var s := before + nodes + after;
    forall i | 0 <= i < |s|
      ensures i < |before| + at ==> Rank(s[i].key) < Rank(key)
      ensures i >= |before| + at ==> Rank(key) < Rank(s[i].key)
    {
      if i < |before| {
        assert s[i] == before[i];
      } else if i < |before| + |nodes| {
        assert s[i] == nodes[i - |before|];
      } else {
        assert s[i] == after[i - |before| - |nodes|];
      }
    }
  }

  /** When every index on the stack is the last of its page, nothing follows. */
  lemma {:induction false} LastPath(stack: seq<Frame>)
    requires Framed(stack) && forall i | 0 <= i < |stack| :: stack[i].ki + 1 >= |stack[i].nodes|
    ensures After(stack) == []
    decreases |stack|
  {
    if stack != [] {
      var n := |stack| - 1;
      assert forall i | 0 <= i < n :: stack[..n][i] == stack[i];
      LastPath(stack[..n]);
      FlatNone();
      assert stack[n].nodes[stack[n].ki + 1..] == [];
    }
  }

  /** A leaf page of the tree, and the items around it. */
  lemma LeafOnPath(ps: PageSize, root: Page, depth: nat, stack: seq<Frame>, page: Page)
    requires OnPath(ps, root, depth, stack, page) && page.leaf
    ensures Framed(stack) && |page.nodes| > 0 && Rising(page.nodes, 0)
    ensures forall i | 0 <= i < |page.nodes| :: page.nodes[i].Item?
    ensures Flat(root.nodes) == Before(stack) + page.nodes + After(stack)
    ensures InOrder(Before(stack) + page.nodes + After(stack), 0.0, 1.0)
  {
    hide Before, After, StackOk, Zip, Linked, LoOf, HiOf, Rank;
    PathFramed(ps, root, depth, stack, page);
    GoodItems(ps, page, depth - |stack|, LoOf(stack), HiOf(stack));
    FlatLeaf(page.nodes);
    ZipInOrder(ps, root, depth, stack, page);
  }

  lemma ZipInOrder(ps: PageSize, root: Page, depth: nat, stack: seq<Frame>, page: Page)
    requires OnPath(ps, root, depth, stack, page)
    ensures InOrder(Flat(root.nodes), 0.0, 1.0)
  {
    hide Before, After, Flat, Linked, LoOf, HiOf;
    ZipGood(ps, stack, page, depth);
    PageInOrder(ps, root, depth, 0.0, 1.0);
  }

  /** The key belongs to this page: all that is before has smaller keys, all after larger ones. */
  ghost predicate Belongs(before: seq<Node>, after: seq<Node>, key: Key) {
    && (forall i | 0 <= i < |before| :: Rank(before[i].key) < Rank(key))
    && (forall i | 0 <= i < |after| :: Rank(key) < Rank(after[i].key))
  }

  lemma BelongsBetween(before: seq<Node>, nodes: seq<Node>, after: seq<Node>, key: Key)
    requires InOrder(before + nodes + after, 0.0, 1.0) && |nodes| > 0
    requires after == [] || Rank(key) < Rank(nodes[|nodes| - 1].key)
    requires before == [] || Rank(nodes[0].key) < Rank(key)
    ensures Belongs(before, after, key)
  {
    hide Rank;
    var s := before + nodes + after;
    forall i | 0 <= i < |before| ensures Rank(before[i].key) < Rank(key) {
      assert s[i] == before[i] && s[|before|] == nodes[0];
    }
    forall i | 0 <= i < |after| ensures Rank(key) < Rank(after[i].key) {
      assert s[|before| + |nodes| + i] == after[i] && s[|before| + |nodes| - 1] == nodes[|nodes| - 1];
    }
  }

  lemma SearchBelongs(ps: PageSize, stack: seq<Frame>, depth: nat, key: Key)
    requires Framed(stack) && StackOk(ps, stack, depth) && |stack| < depth && LoOf(stack) <= Rank(key) < HiOf(stack)
    ensures Belongs(Before(stack), After(stack), key)
  {
    hide Before, After, Rank;
    StackInOrder(ps, stack, depth);
  }

  /** What a cursor that is set on a key is to show: it stands where the key is, or where it is to be put. */
  ghost predicate SetOn(items: seq<Node>, key: Key, exactOnly: bool, r: Result, pos: nat) {
    && LowerBound(items, key, pos)
    && if r == Ok then pos < |items| && (exactOnly ==> items[pos].key == key)
       else r == NotFound && if exactOnly then forall i | 0 <= i < |items| :: items[i].key != key else pos == |items|
  }

  /** The key lies between the separators around the page at the bottom of the stack. */
  ghost predicate AtHome(stack: seq<Frame>, key: Key) {
    Framed(stack) && LoOf(stack) <= Rank(key) < HiOf(stack)
  }

  lemma HomeIf(stack: seq<Frame>, key: Key)
    requires Framed(stack)
    ensures AtHome(stack, key) <==> LoOf(stack) <= Rank(key) < HiOf(stack)
  {
    hide Rank, LoOf, HiOf;
  }

  /** The keys of a leaf page lie between its separators. */
  lemma LeafHome(ps: PageSize, root: Page, depth: nat, stack: seq<Frame>, page: Page)
    requires OnPath(ps, root, depth, stack, page) && page.leaf
    ensures forall i | 0 <= i < |page.nodes| :: AtHome(stack, page.nodes[i].key)
  {
    hide Rank, StackOk, Zip, Linked, LoOf, HiOf, ItemOk;
    LeafBounds(ps, page, depth - |stack|, LoOf(stack), HiOf(stack));
  }

  lemma LeafBounds(ps: PageSize, p: Page, h: nat, lo: real, hi: real)
    requires Good(ps, p, h, lo, hi) && p.leaf
    ensures forall i | 0 <= i < |p.nodes| :: lo <= Rank(p.nodes[i].key) < hi
  {
    hide Rank, ItemOk;
  }

  lemma HomeBetween(stack: seq<Frame>, a: Key, key: Key, b: Key)
    requires AtHome(stack, a) && AtHome(stack, b) && Rank(a) <= Rank(key) <= Rank(b)
    ensures AtHome(stack, key)
  {
    hide Rank, LoOf, HiOf;
  }

  /** To the right of the last page there is no separator. */
  lemma {:induction false} LastHi(stack: seq<Frame>)
    requires Framed(stack) && forall i | 0 <= i < |stack| :: stack[i].ki + 1 >= |stack[i].nodes|
    ensures HiOf(stack) == 1.0
    decreases |stack|
  {
    hide Rank;
    if stack != [] {
      var n := |stack| - 1;
      assert forall i | 0 <= i < n :: stack[..n][i] == stack[i];
      LastHi(stack[..n]);
    }
  }

  lemma HomeLast(stack: seq<Frame>, a: Key, key: Key)
    requires AtHome(stack, a) && HiOf(stack) == 1.0 && Rank(a) <= Rank(key)
    ensures AtHome(stack, key)
  {
    hide LoOf, HiOf;
  }

  lemma RootHome(key: Key)
    ensures AtHome([], key)
  {}

  /** The place on the page is the one `mdb_node_search` finds. */
  lemma SetPosition(before: seq<Node>, nodes: seq<Node>, after: seq<Node>, key: Key, ki: nat, exactOnly: bool)
    requires ki <= |nodes| && SetOn(before + nodes + after, key, exactOnly, NotFound, |before| + ki)
    requires InOrder(before + nodes + after, 0.0, 1.0)
    ensures Position(nodes, 0, key, ki, false)
  {
    hide Rank;
    var s := before + nodes + after;
    forall i | 0 <= i < |nodes|
      ensures (i < ki ==> Rank(nodes[i].key) < Rank(key)) && (ki <= i ==> Rank(key) < Rank(nodes[i].key))
    {
      assert s[|before| + i] == nodes[i];
      if ki <= i { RankOrders(key, nodes[i].key); }
    }
  }

  /** There is one place a cursor can be set to: the answer does not depend on where it was. */
  lemma SetOnUnique(items: seq<Node>, key: Key, exactOnly: bool, r1: Result, p1: nat, r2: Result, p2: nat)
    requires InOrder(items, 0.0, 1.0)
    requires SetOn(items, key, exactOnly, r1, p1) && SetOn(items, key, exactOnly, r2, p2)
    ensures r1 == r2 && p1 == p2
  {
    hide Rank;
    BoundLeast(items, key, p1, p2);
    BoundLeast(items, key, p2, p1);
  }

  lemma BoundLeast(items: seq<Node>, key: Key, p: nat, q: nat)
    requires LowerBound(items, key, p) && LowerBound(items, key, q)
    ensures p <= q
  {
    hide Rank;
    var r := if q < |items| then Rank(items[q].key) else 0.0;
  }

  lemma PathOf(ps: PageSize, root: Page, depth: nat, stack: seq<Frame>, page: Page)
    requires Framed(stack) && StackOk(ps, stack, depth) && |stack| < depth
    requires Good(ps, page, depth - |stack|, LoOf(stack), HiOf(stack))
    requires Zip(stack, page) == root && Linked(stack, page)
    ensures OnPath(ps, root, depth, stack, page)
  {}

  /** What the search in the right page finds. */
  lemma HereIs(before: seq<Node>, nodes: seq<Node>, after: seq<Node>, key: Key, at: nat, exact: bool, exactOnly: bool)
    requires InOrder(before + nodes + after, 0.0, 1.0) && Position(nodes, 0, key, at, exact)
    requires Belongs(before, after, key)
    ensures at <= |nodes| && (exact ==> at < |nodes|)
    ensures exactOnly && !exact ==> SetOn(before + nodes + after, key, exactOnly, NotFound, |before| + at)
    ensures (exact || !exactOnly) && |before| + at < |before + nodes + after| ==>
              SetOn(before + nodes + after, key, exactOnly, Ok, |before| + at)
    ensures !exactOnly && |before| + at >= |before + nodes + after| ==>
              SetOn(before + nodes + after, key, exactOnly, NotFound, |before| + at)
  {
    hide Rank, InOrder;
    PlaceOnPage(before, nodes, after, key, at, exact);
  }

  lemma OnItem(before: seq<Node>, nodes: seq<Node>, after: seq<Node>, key: Key, at: nat, exactOnly: bool)
    requires InOrder(before + nodes + after, 0.0, 1.0) && at < |nodes| && nodes[at].key == key
    ensures SetOn(before + nodes + after, key, exactOnly, Ok, |before| + at)
  {
    hide Rank, InOrder;
    var s := before + nodes + after;
    assert s[|before| + at] == nodes[at];
    PlaceExact(s, |before| + at, key);
  }

  lemma AllSmaller(before: seq<Node>, nodes: seq<Node>, after: seq<Node>, key: Key, exactOnly: bool)
    requires after == [] && InOrder(before + nodes + after, 0.0, 1.0)
    requires |nodes| > 0 && Rank(nodes[|nodes| - 1].key) < Rank(key)
    ensures SetOn(before + nodes + after, key, exactOnly, NotFound, |before| + |nodes|)
  {
    hide Rank;
    var s := before + nodes + after;
    assert s[|s| - 1] == nodes[|nodes| - 1];
    forall i | 0 <= i < |s| ensures Rank(s[i].key) < Rank(key) {
      assert i < |s| - 1 ==> Rank(s[i].key) < Rank(s[|s| - 1].key);
    }
  }

  lemma NothingAround()
    ensures Before([]) == [] && After([]) == []
  {}

  lemma AllLarger(before: seq<Node>, nodes: seq<Node>, after: seq<Node>, key: Key, exactOnly: bool)
    requires before == [] && after == [] && InOrder(before + nodes + after, 0.0, 1.0)
    requires |nodes| > 0 && Rank(key) < Rank(nodes[0].key)
    ensures SetOn(before + nodes + after, key, exactOnly, if exactOnly then NotFound else Ok, 0)
  {
    hide Rank;
    var s := before + nodes + after;
    assert s == nodes;
    forall i | 0 <= i < |s| ensures Rank(key) < Rank(s[i].key) {
      assert i > 0 ==> Rank(s[0].key) < Rank(s[i].key);
    }
  }

  class Cursor {
    const ps: PageSize
    /** The tree, which does not change while the cursor reads it; None when it is empty. */
    const root: Option<Page>
    ghost const depth: nat
    /** C_INITIALIZED and C_EOF. */
    var initialized: bool
    var eof: bool
    var stack: seq<Frame>
    var page: Page
    var ki: nat

    constructor (ps: PageSize, root: Option<Page>, ghost depth: nat)
      requires root.Some? ==> Good(ps, root.value, depth, 0.0, 1.0)
      ensures Valid() && !initialized && this.ps == ps && this.root == root
    {
      this.ps, this.root, this.depth := ps, root, depth;
      initialized, eof, stack, page, ki := false, false, [], Page(true, []), 0;
    }

    ghost predicate Valid()
      reads this
    {
      && (root.Some? ==> Good(ps, root.value, depth, 0.0, 1.0))
      && (initialized ==> root.Some? && OnPath(ps, root.value, depth, stack, page) && page.leaf && ki <= |page.nodes|)
      && (eof ==> initialized && Framed(stack) && After(stack) == [])
    }

    ghost function Items(): seq<Node>
    {
      if root.None? then [] else Flat(root.value.nodes)
    }

    /** The index, among all items, of the item the cursor is on. */
    ghost function Pos(): nat
      requires Valid() && initialized
      reads this
    {
      |Before(stack)| + ki
    }

    /** `mdb_cursor_first`. */
    method First() returns (r: Result, item: Node)
      requires Valid()
      modifies this
      ensures Valid()
      ensures root.None? ==> r == NotFound && unchanged(this)
      ensures root.Some? ==> r == Ok && initialized && !eof && Pos() == 0 && ki < |page.nodes| && |Items()| > 0 && item == Items()[0]
    {
      hide Flat, Good, StackOk, Zip, Linked, OnPath, InOrder, Rising;
      item := Item([], [], 0);
      if root.None? {
        return NotFound, item;
      }
      var s: seq<Frame>, p := [], root.value;
      RootPath(ps, root.value, depth);
      FirstBefore();
      while !p.leaf
        invariant OnPath(ps, root.value, depth, s, p) && Framed(s) && |s| < depth
        invariant Before(s) == []
        decreases depth - |s|
      {
        PathFramed(ps, root.value, depth, s, p);
        NonEmptyPage(ps, root.value, depth, s, p);
        Push(ps, root.value, depth, s, p, 0);
        PushSides(s, p.nodes, 0);
        FlatNone();
        assert p.nodes[..0] == [];
        s, p := s + [Frame(p.nodes, 0)], p.nodes[0].page;
        PathFramed(ps, root.value, depth, s, p);
      }
      LeafOnPath(ps, root.value, depth, s, p);
      stack, page, ki := s, p, 0;
      initialized, eof := true, false;
      r, item := Ok, page.nodes[ki];
    }

    /** `mdb_cursor_next` with MDB_NEXT: one item further, or nothing when there is none. */
    method Next() returns (r: Result, item: Node)
      requires Valid()
      modifies this
      ensures Valid()
      ensures !old(initialized) && root.None? ==> r == NotFound
      ensures !old(initialized) && root.Some? ==> r == Ok && initialized && Pos() == 0 && ki < |page.nodes| && |Items()| > 0 && item == Items()[0]
      ensures old(initialized) ==>
                var next := if old(ki) < |old(page).nodes| then old(Pos()) + 1 else old(Pos());
                if next < |Items()| then r == Ok && initialized && Pos() == next && item == Items()[next] && ki < |page.nodes|
                else r == NotFound && initialized && eof && stack == old(stack) && page == old(page) && ki == old(ki)
    {
      hide Flat, Good, StackOk, Zip, Linked, OnPath, InOrder, Rising, Before, After, Framed;
      if !initialized {
        r, item := First();
        return;
      }
      item := Item([], [], 0);
      LeafOnPath(ps, root.value, depth, stack, page);
      if eof {
        if ki >= |page.nodes| - 1 {
          return NotFound, item;
        }
        eof := false;
      }
      if ki + 1 >= |page.nodes| {
        var ok, next, sibling := Sibling(ps, root.value, depth, stack, page);
        if !ok {
          eof := true;
          return NotFound, item;
        }
        FlatLeaf(page.nodes);
        SameLevel(ps, root.value, depth, stack, page, next, sibling);
        LeafOnPath(ps, root.value, depth, next, sibling);
        stack, page, ki := next, sibling, 0;
      } else {
        ki := ki + 1;
      }
      r, item := Ok, page.nodes[ki];
    }

    /** The search in the page the key belongs to, and the step to the next page when all keys of
        this one are smaller. */
    method Here(key: Key, exactOnly: bool) returns (r: Result)
      requires Valid() && initialized && !eof && Belongs(Before(stack), After(stack), key) && AtHome(stack, key)
      modifies `eof, `stack, `page, `ki
      ensures Valid() && SetOn(Items(), key, exactOnly, r, Pos()) && (r == NotFound ==> AtHome(stack, key))
      ensures r == Ok ==> !eof && ki < |page.nodes|
    {
      hide AtHome;
      hide Flat, Good, StackOk, Zip, Linked, OnPath, InOrder, Rising, Rank, Position, LowerBound, Belongs, SetOn;
      LeafOnPath(ps, root.value, depth, stack, page);
      ghost var before, after := Before(stack), After(stack);
      var at, exact := NodeSearch(true, page.nodes, key);
      HereIs(before, page.nodes, after, key, at, exact, exactOnly);
      ki := at;
      if exactOnly && !exact {
        return NotFound;
      }
      if at >= |page.nodes| {
        var ok, next, sibling := Sibling(ps, root.value, depth, stack, page);
        if !ok {
          eof := true;
          return NotFound;
        }
        FlatLeaf(page.nodes);
        SameLevel(ps, root.value, depth, stack, page, next, sibling);
        LeafOnPath(ps, root.value, depth, next, sibling);
        stack, page, ki := next, sibling, 0;
      }
      eof := false;
      r := Ok;
    }

    /** `mdb_cursor_set` for MDB_SET (exactOnly) and MDB_SET_RANGE: when the cursor is on a page and
        the key may be there, or can be nowhere else, the tree is not searched. */
    method Set(key: Key, exactOnly: bool) returns (r: Result, item: Node)
      requires Valid()
      modifies this
      ensures Valid()
      ensures key == [] ==> r == BadValSize && unchanged(this)
      ensures key != [] && root.None? ==> r == NotFound
      ensures key != [] && root.Some? ==> initialized && SetOn(Items(), key, exactOnly, r, Pos())
      ensures key != [] && root.Some? && r == NotFound ==> AtHome(stack, key) && Position(page.nodes, 0, key, ki, false)
      ensures r == Ok ==> root.Some? && initialized && !eof && Pos() < |Items()| && item == Items()[Pos()]
      ensures r == Ok ==> ki < |page.nodes| && page.nodes[ki] == item
    {
      hide AtHome;
      hide Flat, Good, StackOk, Zip, Linked, OnPath, InOrder, Rising, Rank, Position, LowerBound, Belongs, SetOn, InTree;
      item := Item([], [], 0);
      if key == [] {
        return BadValSize, item;
      }
      if initialized {
        var done;
        done, r := TryHere(key, exactOnly);
        if done {
          item := Settled(key, exactOnly, r);
          return;
        }
      }
      if root.None? {
        return NotFound, item;
      }
      var s, p, at, exact := Search(ps, root.value, key, depth);
      SearchBelongs(ps, s, depth, key);
      PathOf(ps, root.value, depth, s, p);
      HomeIf(s, key);
      stack, page, ki, initialized, eof := s, p, 0, true, false;
      r := Here(key, exactOnly);
      item := Settled(key, exactOnly, r);
    }

    /** The item read at the end of `mdb_cursor_set`. */
    method Settled(key: Key, exactOnly: bool, r: Result) returns (item: Node)
      requires Valid() && initialized && SetOn(Items(), key, exactOnly, r, Pos())
      requires r == Ok ==> ki < |page.nodes|
      ensures r == NotFound ==> Position(page.nodes, 0, key, ki, false)
      ensures r == Ok ==> Pos() < |Items()| && page.nodes[ki] == item == Items()[Pos()]
    {
      hide Flat, Good, StackOk, Zip, Linked, OnPath, InOrder, Rising, Rank, Position, SetOn, Before, After;
      item := Item([], [], 0);
      LeafOnPath(ps, root.value, depth, stack, page);
      if r == Ok {
        item := page.nodes[ki];
      }
      if r == NotFound { NotFoundHere(key, exactOnly); }
    }

    lemma NotFoundHere(key: Key, exactOnly: bool)
      requires Valid() && initialized && SetOn(Items(), key, exactOnly, NotFound, Pos())
      ensures Position(page.nodes, 0, key, ki, false)
    {
      hide Flat, Good, StackOk, Zip, Linked, OnPath, InOrder, Rising, Rank, Position, SetOn, Before, After;
      LeafOnPath(ps, root.value, depth, stack, page);
      SetPosition(Before(stack), page.nodes, After(stack), key, ki, exactOnly);
    }

    /** The part of `mdb_cursor_set` that looks at the page the cursor is on. */
    method TryHere(key: Key, exactOnly: bool) returns (done: bool, r: Result)
      requires Valid() && initialized && key != []
      modifies `eof, `stack, `page, `ki
      ensures Valid()
      ensures done ==> SetOn(Items(), key, exactOnly, r, Pos()) && (r == NotFound ==> AtHome(stack, key))
      ensures done && r == Ok ==> !eof && ki < |page.nodes|
    {
      hide AtHome, HiOf, LoOf, Before, After;
      hide Flat, Good, StackOk, Zip, Linked, OnPath, InOrder, Rising, Rank, Position, LowerBound, Belongs, SetOn;
      LeafOnPath(ps, root.value, depth, stack, page);
      LeafHome(ps, root.value, depth, stack, page);
      done, r := true, Ok;
      var c := CmpMemn(key, page.nodes[0].key);
      if c == 0 {
        OnItem(Before(stack), page.nodes, After(stack), key, 0, exactOnly);
        ki, eof := 0, false;
        return;
      }
      if c > 0 {
        var nkeys := |page.nodes|;
        if nkeys > 1 {
          c := CmpMemn(key, page.nodes[nkeys - 1].key);
          if c == 0 {
            OnItem(Before(stack), page.nodes, After(stack), key, nkeys - 1, exactOnly);
            ki, eof := nkeys - 1, false;
            return;
          }
          if c < 0 {
            r := WithinPage(key, exactOnly);
            return;
          }
        }
        var last := OnLastPath();
        if last {
          AllSmaller(Before(stack), page.nodes, After(stack), key, exactOnly);
          HomeLast(stack, page.nodes[nkeys - 1].key, key);
          ki := nkeys;
          return true, NotFound;
        }
      }
      if stack == [] {
        NothingAround();
        RootHome(key);
        AllLarger(Before(stack), page.nodes, After(stack), key, exactOnly);
        ki := 0;
        if !exactOnly {
          eof := false;
          return true, Ok;
        }
        return true, NotFound;
      }
      done := false;
    }

    /** The key is between the first and the last key of the page. */
    method WithinPage(key: Key, exactOnly: bool) returns (r: Result)
      requires Valid() && initialized && |page.nodes| > 1
      requires Rank(page.nodes[0].key) < Rank(key) < Rank(page.nodes[|page.nodes| - 1].key)
      modifies `eof, `stack, `page, `ki
      ensures Valid() && SetOn(Items(), key, exactOnly, r, Pos()) && (r == NotFound ==> AtHome(stack, key))
      ensures r == Ok ==> !eof && ki < |page.nodes|
    {
      hide AtHome;
      hide Flat, Good, StackOk, Zip, Linked, OnPath, InOrder, Rising, Rank, Position, LowerBound, Belongs, SetOn;
      LeafOnPath(ps, root.value, depth, stack, page);
      if ki < |page.nodes| {
        var c := CmpMemn(key, page.nodes[ki].key);
        if c == 0 {
          OnItem(Before(stack), page.nodes, After(stack), key, ki, exactOnly);
          eof := false;
          return Ok;
        }
      }
      BelongsBetween(Before(stack), page.nodes, After(stack), key);
      LeafHome(ps, root.value, depth, stack, page);
      HomeBetween(stack, page.nodes[0].key, key, page.nodes[|page.nodes| - 1].key);
      eof := false;
      r := Here(key, exactOnly);
    }

    /** No parent has a sibling to the right. */
    method OnLastPath() returns (last: bool)
      requires Framed(stack)
      ensures last ==> After(stack) == [] && HiOf(stack) == 1.0
      ensures stack == [] ==> last
    {
      hide After, HiOf;
      var i := 0;
      while i < |stack| && stack[i].ki + 1 >= |stack[i].nodes|
        invariant 0 <= i <= |stack|
        invariant forall j | 0 <= j < i :: stack[j].ki + 1 >= |stack[j].nodes|
      {
        i := i + 1;
      }
      last := i == |stack|;
      if last {
        LastPath(stack);
        LastHi(stack);
      }
    }

    /** Starting before the first item, MDB_NEXT visits every item once, in key order. */
    method VisitAll() returns (seen: seq<Node>)
      requires Valid() && !initialized
      modifies this
      ensures Valid() && seen == Items()
    {
      hide Flat, Good, OnPath, Valid;
      seen := [];
      if root.None? {
        return;
      }
      var r, item := Next();
      while r == Ok
        invariant Valid() && initialized && Pos() + (if r == Ok then 0 else 1) <= |Items()|
        invariant r == Ok ==> Pos() < |Items()| && item == Items()[Pos()] && seen == Items()[..Pos()]
        invariant r == Ok ==> ki < |page.nodes|
        invariant r != Ok ==> seen == Items()
        decreases if r == Ok then |Items()| - Pos() else 0
      {
        seen := seen + [item];
        r, item := Next();
      }
    }
  }

  lemma FirstBefore()
    ensures Before([]) == []
  {}

  lemma NonEmptyPage(ps: PageSize, root: Page, depth: nat, stack: seq<Frame>, page: Page)
    requires OnPath(ps, root, depth, stack, page)
    ensures |page.nodes| > 0
  {
    GoodItems(ps, page, depth - |stack|, LoOf(stack), HiOf(stack));
  }

  /** Pages at the same depth are of the same kind. */
  lemma SameLevel(ps: PageSize, root: Page, depth: nat, stack: seq<Frame>, page: Page, stack': seq<Frame>, page': Page)
    requires OnPath(ps, root, depth, stack, page) && OnPath(ps, root, depth, stack', page') && |stack| == |stack'|
    ensures page.leaf == page'.leaf && |page.nodes| > 0
  {
    GoodItems(ps, page, depth - |stack|, LoOf(stack), HiOf(stack));
    GoodItems(ps, page', depth - |stack'|, LoOf(stack'), HiOf(stack'));
  }
}
