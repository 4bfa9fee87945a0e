/** The pages of a B+tree at one level, from left to right: what splits, borrows and merges (mdb.c) make of them. */
module BTreeRows {
  import opened Keys
  import opened BTree
  import opened BTreeSplit
  import opened BTreeChange
  import Seqs

  type Rows = seq<seq<Node>>

  /** The nodes without the separators: they follow from what is below the links. */
  function Bare(nodes: seq<Node>): (r: seq<Node>)
    ensures |r| == |nodes|
  {
    seq(|nodes|, i requires 0 <= i < |nodes| => if nodes[i].Item? then nodes[i] else Link([], nodes[i].page))
  }

  /** The pages `d` levels below the page with these nodes. */
  function Row(nodes: seq<Node>, d: nat): Rows
    decreases nodes, d
  {
    if d == 0 then [Bare(nodes)]
    else if nodes == [] then []
    else (if nodes[0].Item? then [] else Row(nodes[0].page.nodes, d - 1)) + Row(nodes[1..], d)
  }

  lemma BareItems(nodes: seq<Node>)
    requires forall i | 0 <= i < |nodes| :: nodes[i].Item?
    ensures Bare(nodes) == nodes
  {}

  lemma BareAppend(a: seq<Node>, b: seq<Node>)
    ensures Bare(a + b) == Bare(a) + Bare(b)
  {}

  lemma BareCut(a: seq<Node>, s: nat)
    requires s <= |a|
    ensures Bare(a[..s]) == Bare(a)[..s] && Bare(a[s..]) == Bare(a)[s..]
  {}

  lemma RowStep(nodes: seq<Node>, d: nat)
    requires d > 0 && nodes != []
    ensures Row(nodes, d) == (if nodes[0].Item? then [] else Row(nodes[0].page.nodes, d - 1)) + Row(nodes[1..], d)
  {}

  lemma NoRow(d: nat)
    requires d > 0
    ensures Row([], d) == []
  {}

  lemma {:induction false} RowAppend(a: seq<Node>, b: seq<Node>, d: nat)
    requires d > 0
    ensures Row(a + b, d) == Row(a, d) + Row(b, d)
    decreases |a|
  {
    hide Row;
    if a == [] {
      NoRow(d);
      assert a + b == b;
    } else {
      RowStep(a, d);
      RowStep(a + b, d);
      RowAppend(a[1..], b, d);
      assert (a + b)[1..] == a[1..] + b;
    }
  }

  lemma RowLink(n: Node, d: nat)
    requires n.Link?
    ensures Row([n], d + 1) == Row(n.page.nodes, d)
  {
    assert Row([], d + 1) == [];
  }

  /** Separators do not matter to the rows. */
  lemma {:induction false} RowBare(a: seq<Node>, b: seq<Node>, d: nat)
    requires Bare(a) == Bare(b)
    ensures Row(a, d) == Row(b, d)
    decreases |a|
  {
    if d > 0 && a != [] {
      assert Bare(a)[0] == Bare(b)[0];
      BareCut(a, 1);
      BareCut(b, 1);
      RowBare(a[1..], b[1..], d);
    }
  }

  /** The row around node i. */
  lemma RowAt(nodes: seq<Node>, i: nat, d: nat)
    requires i < |nodes| && nodes[i].Link?
    ensures Row(nodes, d + 1) == Row(nodes[..i], d + 1) + Row(nodes[i].page.nodes, d) + Row(nodes[i + 1..], d + 1)
  {
    hide Row;
    Seqs.CutOne(nodes, i);
    RowAppend(nodes[..i], [nodes[i]] + nodes[i + 1..], d + 1);
    RowAppend([nodes[i]], nodes[i + 1..], d + 1);
    RowLink(nodes[i], d);
  }

  // ---------------------------------------------------------------- around a cursor stack

  /** The pages `d` levels below the bottom of the stack, left of it. */
  ghost function RowLeft(stack: seq<Frame>, d: nat): Rows
    requires Framed(stack)
  {
    if stack == [] then []
    else
      var f := stack[|stack| - 1];
      RowLeft(stack[..|stack| - 1], d + 1) + Row(f.nodes[..f.ki], d + 1)
  }

  ghost function RowRight(stack: seq<Frame>, d: nat): Rows
    requires Framed(stack)
  {
    if stack == [] then []
    else
      var f := stack[|stack| - 1];
      Row(f.nodes[f.ki + 1..], d + 1) + RowRight(stack[..|stack| - 1], d + 1)
  }

  /** The pages of the tree `d` levels below the root when the page at the bottom of the stack has these nodes. */
  ghost function RowFrom(stack: seq<Frame>, nodes: seq<Node>, d: nat): Rows
    requires Framed(stack) && |stack| <= d
  {
    RowLeft(stack, d - |stack|) + Row(nodes, d - |stack|) + RowRight(stack, d - |stack|)
  }

  lemma RowSides(stack: seq<Frame>, d: nat)
    requires Framed(stack) && stack != []
    ensures var n := |stack| - 1;
            var f := stack[n];
            && f.ki < |f.nodes| && f.nodes[f.ki].Link? && Framed(stack[..n])
            && RowLeft(stack, d) == RowLeft(stack[..n], d + 1) + Row(f.nodes[..f.ki], d + 1)
            && RowRight(stack, d) == Row(f.nodes[f.ki + 1..], d + 1) + RowRight(stack[..n], d + 1)
  {
    hide Row;
  }

  lemma Filled1(f: Frame, p: Page)
    requires f.ki < |f.nodes|
    ensures var g := Filled(f, p);
            |g| == |f.nodes| && g[..f.ki] == f.nodes[..f.ki] && g[f.ki + 1..] == f.nodes[f.ki + 1..]
            && g[f.ki] == Link(f.nodes[f.ki].key, p)
  {}

  lemma {:induction false} ZipRow(stack: seq<Frame>, p: Page, d: nat)
    requires Framed(stack) && |stack| <= d
    ensures Row(Zip(stack, p).nodes, d) == RowFrom(stack, p.nodes, d)
    decreases |stack|
  {
    hide Row;
    if stack != [] {
      var n := |stack| - 1;
      var f, g, e: nat := stack[n], Filled(stack[n], p), d - |stack|;
      ZipRow(stack[..n], Page(false, g), d);
      RowSides(stack, e);
      Filled1(f, p);
      RowAt(g, f.ki, e);
      Seqs.Regroup(RowLeft(stack[..n], e + 1), Row(f.nodes[..f.ki], e + 1), Row(p.nodes, e), Row(f.nodes[f.ki + 1..], e + 1),
                   RowRight(stack[..n], e + 1));
    }
  }

  /** Other links in the place of those from i to j - 1 of the page above. */
  lemma ReplacedRow(rest: seq<Frame>, up: seq<Node>, i: nat, j: nat, mid: seq<Node>, d: nat)
    requires Framed(rest) && i <= j <= |up| && |rest| < d
    ensures RowFrom(rest, Replace(up, i, j, mid), d)
            == (RowLeft(rest, d - |rest|) + Row(up[..i], d - |rest|)) + Row(mid, d - |rest|)
               + (Row(up[j..], d - |rest|) + RowRight(rest, d - |rest|))
  {
    hide Row, RowLeft, RowRight;
    var e: nat := d - |rest|;
    ReplaceIs(up, i, j, mid);
    RowAppend(up[..i] + mid, up[j..], e);
    RowAppend(up[..i], mid, e);
    Seqs.Regroup(RowLeft(rest, e), Row(up[..i], e), Row(mid, e), Row(up[j..], e), RowRight(rest, e));
  }

  lemma ReplaceIs(up: seq<Node>, i: nat, j: nat, mid: seq<Node>)
    requires i <= j <= |up|
    ensures Replace(up, i, j, mid) == up[..i] + mid + up[j..]
  {}

  lemma PairRow(a: Node, b: Node, d: nat)
    requires a.Link? && b.Link? && d > 0
    ensures Row([a, b], d) == Row(a.page.nodes, d - 1) + Row(b.page.nodes, d - 1)
  {
    hide Row;
    assert [a, b] == [a] + [b];
    RowAppend([a], [b], d);
    RowLink(a, d - 1);
    RowLink(b, d - 1);
  }

  // ---------------------------------------------------------------- splits

  /** The two halves of a page have its nodes. */
  lemma HalvesBare(leaf: bool, all: seq<Node>, s: nat)
    requires s < |all| && (!leaf ==> all[s].Link?)
    ensures Bare(all[..s]) == Bare(all)[..s] && Bare(RightNodes(leaf, all, s)) == Bare(all)[s..]
  {
    var r := RightNodes(leaf, all, s);
    assert forall i | 0 <= i < |r| :: Bare(r)[i] == Bare(all)[s..][i];
  }

  /** Below the halves are the pages that were below the page. */
  lemma HalvesRow(leaf: bool, all: seq<Node>, s: nat, d: nat)
    requires s < |all| && (!leaf ==> all[s].Link?) && d > 0
    ensures Row(all[..s], d) + Row(RightNodes(leaf, all, s), d) == Row(all, d)
  {
    hide Row, RightNodes, Bare;
    HalvesBare(leaf, all, s);
    BareCut(all, s);
    RowBare(RightNodes(leaf, all, s), all[s..], d);
    assert all == all[..s] + all[s..];
    RowAppend(all[..s], all[s..], d);
  }

  /** Deeper than the page at the bottom of `stack0`, the rows are what they were. */
  ghost predicate RowsMoved(stack0: seq<Frame>, nodes0: seq<Node>, stack: seq<Frame>, nodes: seq<Node>) {
    && Framed(stack0) && Framed(stack) && |stack| <= |stack0|
    && forall d: nat | |stack0| < d :: RowFrom(stack, nodes, d) == RowFrom(stack0, nodes0, d)
  }

  /** And in the finished tree, which may have grown by `k` levels at the root. */
  ghost predicate RowsKept(stack0: seq<Frame>, nodes0: seq<Node>, root: Page, k: int) {
    && Framed(stack0) && k >= 0
    && forall d: nat | |stack0| < d :: Row(root.nodes, d + k) == RowFrom(stack0, nodes0, d)
  }

  lemma RowsZip(stack0: seq<Frame>, nodes0: seq<Node>, stack: seq<Frame>, p: Page)
    requires RowsMoved(stack0, nodes0, stack, p.nodes)
    ensures RowsKept(stack0, nodes0, Zip(stack, p), 0)
  {
    hide Row, RowFrom, Zip;
    forall d: nat | |stack0| < d ensures Row(Zip(stack, p).nodes, d + 0) == RowFrom(stack0, nodes0, d) {
      ZipRow(stack, p, d);
    }
  }

  /** A split of the page at the bottom, as a change of the page above. */
  lemma SplitRow(stack: seq<Frame>, leaf: bool, all: seq<Node>, s: nat, sep: Key, d: nat)
    requires Framed(stack) && stack != [] && s < |all| && (!leaf ==> all[s].Link?) && |stack| <= d
    ensures var n := |stack| - 1;
            var f := stack[n];
            var left, right := Page(leaf, all[..s]), Page(leaf, RightNodes(leaf, all, s));
            && f.ki < |f.nodes| && Framed(stack[..n])
            && RowFrom(stack[..n], Insert(Filled(f, left), f.ki + 1, Link(sep, right)), d)
               == RowLeft(stack, d - |stack|) + (Row(left.nodes, d - |stack|) + Row(right.nodes, d - |stack|))
                  + RowRight(stack, d - |stack|)
  {
    hide Row, RowLeft, RowRight, RowFrom;
    var n := |stack| - 1;
    var f, e: nat := stack[n], d - |stack|;
    var left, right := Page(leaf, all[..s]), Page(leaf, RightNodes(leaf, all, s));
    RowSides(stack, e);
    InsertIsReplace(f, left, sep, right);
    ReplacedRow(stack[..n], f.nodes, f.ki, f.ki + 1, [Link(f.nodes[f.ki].key, left), Link(sep, right)], d);
    PairRow(Link(f.nodes[f.ki].key, left), Link(sep, right), e + 1);
  }

  lemma InsertIsReplace(f: Frame, left: Page, sep: Key, right: Page)
    requires f.ki < |f.nodes|
    ensures Insert(Filled(f, left), f.ki + 1, Link(sep, right))
            == Replace(f.nodes, f.ki, f.ki + 1, [Link(f.nodes[f.ki].key, left), Link(sep, right)])
  {}

  lemma RowsSplit(stack0: seq<Frame>, nodes0: seq<Node>, stack: seq<Frame>, leaf: bool, all: seq<Node>, s: nat, sep: Key)
    requires RowsMoved(stack0, nodes0, stack, all) && stack != [] && s < |all| && (!leaf ==> all[s].Link?)
    ensures var f := stack[|stack| - 1];
            var left, right := Page(leaf, all[..s]), Page(leaf, RightNodes(leaf, all, s));
            f.ki < |f.nodes|
            && RowsMoved(stack0, nodes0, stack[..|stack| - 1], Insert(Filled(f, left), f.ki + 1, Link(sep, right)))
  {
    hide Row, RowLeft, RowRight;
    RowSides(stack, 0);
    var f, rest := stack[|stack| - 1], stack[..|stack| - 1];
    var left, right := Page(leaf, all[..s]), Page(leaf, RightNodes(leaf, all, s));
    var up := Insert(Filled(f, left), f.ki + 1, Link(sep, right));
    forall d: nat | |stack0| < d ensures RowFrom(rest, up, d) == RowFrom(stack0, nodes0, d) {
      SplitRow(stack, leaf, all, s, sep, d);
      HalvesRow(leaf, all, s, d - |stack|);
    }
  }

  /** A split of the root. */
  lemma RowsGrown(stack0: seq<Frame>, nodes0: seq<Node>, leaf: bool, all: seq<Node>, s: nat, sep: Key)
    requires RowsMoved(stack0, nodes0, [], all) && s < |all| && (!leaf ==> all[s].Link?)
    ensures RowsKept(stack0, nodes0, Page(false, [Link([], Page(leaf, all[..s])), Link(sep, Page(leaf, RightNodes(leaf, all, s)))]), 1)
  {
    hide Row, RowFrom, RightNodes;
    var a, b := Link([], Page(leaf, all[..s])), Link(sep, Page(leaf, RightNodes(leaf, all, s)));
    forall d: nat | |stack0| < d ensures Row([a, b], d + 1) == RowFrom(stack0, nodes0, d) {
      GrownRow(leaf, all, s, sep, d);
    }
  }

  lemma GrownRow(leaf: bool, all: seq<Node>, s: nat, sep: Key, d: nat)
    requires s < |all| && (!leaf ==> all[s].Link?) && d > 0
    ensures Row([Link([], Page(leaf, all[..s])), Link(sep, Page(leaf, RightNodes(leaf, all, s)))], d + 1) == RowFrom([], all, d)
  {
    hide Row, RightNodes;
    PairRow(Link([], Page(leaf, all[..s])), Link(sep, Page(leaf, RightNodes(leaf, all, s))), d + 1);
    HalvesRow(leaf, all, s, d);
    assert RowLeft([], d) == [] && RowRight([], d) == [];
  }

  lemma RowsSame(stack: seq<Frame>, nodes: seq<Node>)
    requires Framed(stack)
    ensures RowsMoved(stack, nodes, stack, nodes)
  {}

  // ---------------------------------------------------------------- a node is added

  /** The page at the bottom of the stack parted at `s`, among the pages of its level. */
  ghost function PartedRow(stack: seq<Frame>, all: seq<Node>, s: nat): Rows
    requires Framed(stack) && s <= |all|
  {
    RowLeft(stack, 0) + [Bare(all)[..s], Bare(all)[s..]] + RowRight(stack, 0)
  }

  /** In this row the page at the bottom of the stack is parted where a full page is to be parted. */
  ghost predicate Parted(ps: PageSize, stack: seq<Frame>, leaf: bool, nodes: seq<Node>, at: nat, n: Node, row: Rows)
    requires at <= |nodes|
  {
    Framed(stack) && exists s: nat | s <= |nodes| && SplitChosen(ps, leaf, nodes, at, n, s) ::
      row == PartedRow(stack, Insert(nodes, at, n), s)
  }

  /** What adding a node to the page at the bottom of the stack makes of the tree, which may grow by `k` levels at the
      root: when there is room no other page changes, else the page is in two; deeper rows are what they were. */
  ghost predicate Placed(ps: PageSize, stack: seq<Frame>, leaf: bool, nodes: seq<Node>, at: nat, n: Node, root: Page, k: int) {
    && at <= |nodes| && RowsKept(stack, Insert(nodes, at, n), root, k)
    && if Used(nodes) + Room(n) <= PMax(ps) then k == 0 && root == Zip(stack, Page(leaf, Insert(nodes, at, n)))
       else Parted(ps, stack, leaf, nodes, at, n, Row(root.nodes, |stack| + k))
  }

  /** The same while splits go up: there is still a node to be added to the page at the bottom of `stack`. */
  ghost predicate PlaceOn(ps: PageSize, stack0: seq<Frame>, leaf0: bool, nodes0: seq<Node>, at0: nat, n0: Node,
                          stack: seq<Frame>, leaf: bool, nodes: seq<Node>, at: nat, n: Node) {
    && at0 <= |nodes0| && at <= |nodes| && RowsMoved(stack0, Insert(nodes0, at0, n0), stack, Insert(nodes, at, n))
    && if |stack| == |stack0| then stack == stack0 && leaf == leaf0 && nodes == nodes0 && at == at0 && n == n0
       else
         && Used(nodes0) + Room(n0) > PMax(ps)
         && Parted(ps, stack0, leaf0, nodes0, at0, n0, RowFrom(stack, Insert(nodes, at, n), |stack0|))
  }

  lemma PlaceOnStart(ps: PageSize, stack: seq<Frame>, leaf: bool, nodes: seq<Node>, at: nat, n: Node)
    requires Framed(stack) && at <= |nodes|
    ensures PlaceOn(ps, stack, leaf, nodes, at, n, stack, leaf, nodes, at, n)
  {
    hide Used, Room;
    RowsSame(stack, Insert(nodes, at, n));
  }

  lemma PlaceOnDone(ps: PageSize, stack0: seq<Frame>, leaf0: bool, nodes0: seq<Node>, at0: nat, n0: Node,
                    stack: seq<Frame>, leaf: bool, nodes: seq<Node>, at: nat, n: Node)
    requires PlaceOn(ps, stack0, leaf0, nodes0, at0, n0, stack, leaf, nodes, at, n)
    requires Used(nodes) + Room(n) <= PMax(ps)
    ensures at <= |nodes| && Framed(stack)
    ensures Placed(ps, stack0, leaf0, nodes0, at0, n0, Zip(stack, Page(leaf, Insert(nodes, at, n))), 0)
  {
    hide Used, Room, Row, RowFrom, Parted, Zip;
    var p := Page(leaf, Insert(nodes, at, n));
    RowsZip(stack0, Insert(nodes0, at0, n0), stack, p);
    ZipRow(stack, p, |stack0|);
  }

  lemma PlaceOnParts(ps: PageSize, stack0: seq<Frame>, leaf0: bool, nodes0: seq<Node>, at0: nat, n0: Node,
                     stack: seq<Frame>, leaf: bool, nodes: seq<Node>, at: nat, n: Node)
    requires PlaceOn(ps, stack0, leaf0, nodes0, at0, n0, stack, leaf, nodes, at, n)
    ensures at0 <= |nodes0| && at <= |nodes| && RowsMoved(stack0, Insert(nodes0, at0, n0), stack, Insert(nodes, at, n))
    ensures Framed(stack0) && Framed(stack) && |stack| <= |stack0|
    ensures if |stack| == |stack0| then stack == stack0 && leaf == leaf0 && nodes == nodes0 && at == at0 && n == n0
            else Used(nodes0) + Room(n0) > PMax(ps)
                 && Parted(ps, stack0, leaf0, nodes0, at0, n0, RowFrom(stack, Insert(nodes, at, n), |stack0|))
  {
    hide Used, Room, Parted, RowFrom, Insert;
  }

  lemma PlaceOnWhole(ps: PageSize, stack0: seq<Frame>, leaf0: bool, nodes0: seq<Node>, at0: nat, n0: Node,
                     stack: seq<Frame>, leaf: bool, nodes: seq<Node>, at: nat, n: Node)
    requires at0 <= |nodes0| && at <= |nodes| && RowsMoved(stack0, Insert(nodes0, at0, n0), stack, Insert(nodes, at, n))
    requires Framed(stack) && |stack| < |stack0| && Used(nodes0) + Room(n0) > PMax(ps)
    requires Parted(ps, stack0, leaf0, nodes0, at0, n0, RowFrom(stack, Insert(nodes, at, n), |stack0|))
    ensures PlaceOn(ps, stack0, leaf0, nodes0, at0, n0, stack, leaf, nodes, at, n)
  {
    hide Used, Room, Parted, RowFrom, Insert, RowsMoved;
  }

  lemma PlacedWhole(ps: PageSize, stack: seq<Frame>, leaf: bool, nodes: seq<Node>, at: nat, n: Node, root: Page, k: nat)
    requires at <= |nodes| && RowsKept(stack, Insert(nodes, at, n), root, k) && Used(nodes) + Room(n) > PMax(ps)
    requires Parted(ps, stack, leaf, nodes, at, n, Row(root.nodes, |stack| + k))
    ensures Placed(ps, stack, leaf, nodes, at, n, root, k)
  {
    hide Used, Room, Parted, Row, Insert, RowsKept;
  }

  lemma PartedIf(ps: PageSize, stack: seq<Frame>, leaf: bool, nodes: seq<Node>, at: nat, n: Node, s: nat, row: Rows)
    requires Framed(stack) && at <= |nodes| && s <= |nodes| && SplitChosen(ps, leaf, nodes, at, n, s)
    requires row == PartedRow(stack, Insert(nodes, at, n), s)
    ensures Parted(ps, stack, leaf, nodes, at, n, row)
  {
    hide SplitChosen, PartedRow;
  }

  /** The page at the bottom of the stack is parted, and the page above gets the separator. */
  lemma PlaceOnUp(ps: PageSize, stack0: seq<Frame>, leaf0: bool, nodes0: seq<Node>, at0: nat, n0: Node,
                  stack: seq<Frame>, leaf: bool, nodes: seq<Node>, at: nat, n: Node, s: nat, sep: Key)
    requires PlaceOn(ps, stack0, leaf0, nodes0, at0, n0, stack, leaf, nodes, at, n)
    requires Used(nodes) + Room(n) > PMax(ps) && stack != [] && at <= |nodes|
    requires s <= |nodes| && SplitChosen(ps, leaf, nodes, at, n, s)
    requires var all := Insert(nodes, at, n); s < |all| && (!leaf ==> all[s].Link?)
    ensures var f := stack[|stack| - 1];
            var all := Insert(nodes, at, n);
            var left, right := Page(leaf, all[..s]), Page(leaf, RightNodes(leaf, all, s));
            && f.ki < |f.nodes|
            && PlaceOn(ps, stack0, leaf0, nodes0, at0, n0, stack[..|stack| - 1], false, Filled(f, left), f.ki + 1, Link(sep, right))
  {
    hide *;
    var all := Insert(nodes, at, n);
    var f, rest := stack[|stack| - 1], stack[..|stack| - 1];
    PlaceOnParts(ps, stack0, leaf0, nodes0, at0, n0, stack, leaf, nodes, at, n);
    RowsSplit(stack0, Insert(nodes0, at0, n0), stack, leaf, all, s, sep);
    SplitRow(stack, leaf, all, s, sep, |stack0|);
    Filled1(f, Page(leaf, all[..s]));
    if |stack| == |stack0| {
      PartedHere(stack, leaf, all, s);
      PartedIf(ps, stack0, leaf0, nodes0, at0, n0, s, PartedRow(stack, all, s));
    } else {
      HalvesRow(leaf, all, s, |stack0| - |stack|);
      FromIs(stack, all, |stack0|);
    }
    PlaceOnWhole(ps, stack0, leaf0, nodes0, at0, n0, rest, false, Filled(f, Page(leaf, all[..s])), f.ki + 1,
                 Link(sep, Page(leaf, RightNodes(leaf, all, s))));
  }

  lemma FromIs(stack: seq<Frame>, nodes: seq<Node>, d: nat)
    requires Framed(stack) && |stack| <= d
    ensures RowFrom(stack, nodes, d) == RowLeft(stack, d - |stack|) + Row(nodes, d - |stack|) + RowRight(stack, d - |stack|)
  {}

  lemma PartedHere(stack: seq<Frame>, leaf: bool, all: seq<Node>, s: nat)
    requires Framed(stack) && s < |all| && (!leaf ==> all[s].Link?)
    ensures RowLeft(stack, 0) + (Row(all[..s], 0) + Row(RightNodes(leaf, all, s), 0)) + RowRight(stack, 0)
            == PartedRow(stack, all, s)
  {
    hide RightNodes, RowLeft, RowRight;
    HalvesBare(leaf, all, s);
  }

  lemma PartedTop(leaf: bool, all: seq<Node>, s: nat)
    requires s < |all| && (!leaf ==> all[s].Link?)
    ensures Row(all[..s], 0) + Row(RightNodes(leaf, all, s), 0) == PartedRow([], all, s)
  {
    hide RightNodes;
    HalvesBare(leaf, all, s);
  }

  /** The root is parted. */
  lemma PlaceOnTop(ps: PageSize, stack0: seq<Frame>, leaf0: bool, nodes0: seq<Node>, at0: nat, n0: Node,
                   leaf: bool, nodes: seq<Node>, at: nat, n: Node, s: nat, sep: Key)
    requires PlaceOn(ps, stack0, leaf0, nodes0, at0, n0, [], leaf, nodes, at, n)
    requires Used(nodes) + Room(n) > PMax(ps) && at <= |nodes|
    requires s <= |nodes| && SplitChosen(ps, leaf, nodes, at, n, s)
    requires var all := Insert(nodes, at, n); s < |all| && (!leaf ==> all[s].Link?)
    ensures var all := Insert(nodes, at, n);
            Placed(ps, stack0, leaf0, nodes0, at0, n0,
                   Page(false, [Link([], Page(leaf, all[..s])), Link(sep, Page(leaf, RightNodes(leaf, all, s)))]), 1)
  {
    hide *;
    var all := Insert(nodes, at, n);
    var a, b := Link([], Page(leaf, all[..s])), Link(sep, Page(leaf, RightNodes(leaf, all, s)));
    PlaceOnParts(ps, stack0, leaf0, nodes0, at0, n0, [], leaf, nodes, at, n);
    RowsGrown(stack0, Insert(nodes0, at0, n0), leaf, all, s, sep);
    if |stack0| == 0 {
      PairRow(a, b, 1);
      PartedTop(leaf, all, s);
      PartedIf(ps, [], leaf0, nodes0, at0, n0, s, PartedRow([], all, s));
    } else {
      GrownRow(leaf, all, s, sep, |stack0|);
    }
    PlacedWhole(ps, stack0, leaf0, nodes0, at0, n0, Page(false, [a, b]), 1);
  }
}
