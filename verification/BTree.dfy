/** The B+tree of a database without duplicates (mdb.c): its pages, what makes it well formed,
    and the stack of pages and indices with which a cursor points into it. */
module BTree {
  import opened Keys
  import Seqs

  /** me_psize. */
  type PageSize = n: nat | 4096 <= n <= 0x8000 && n % 2 == 0 witness 4096

  const PAGEHDRSZ := 16
  const NODESIZE := 8
  const MAXKEY := 511
  const MAXDATASIZE := 0xffff_ffff

  /** A node of a leaf page: a key with its data, stored on `ov` overflow pages when ov > 0.
      A node of a branch page: a separator and the page it leads to. */
  datatype Node = Item(key: Key, data: seq<Byte>, ov: nat) | Link(key: Key, page: Page)
  datatype Page = Page(leaf: bool, nodes: seq<Node>)

  // ---------------------------------------------------------------- sizes

  function Even(n: nat): nat { n + n % 2 }

  /** Free space of an empty page. */
  function PMax(ps: PageSize): nat { ps - PAGEHDRSZ }

  /** me_nodemax: two nodes fit in a page. */
  function NodeMax(ps: PageSize): nat {
    var half := (ps - PAGEHDRSZ) / 2;
    half - half % 2 - 2
  }

  function OvPages(size: nat, ps: PageSize): int { (PAGEHDRSZ - 1 + size) / ps + 1 }

  /** The overflow pages taken for a value have room for the page header and the value. */
  lemma OvPagesFit(size: nat, ps: PageSize)
    ensures OvPages(size, ps) >= 1 && PAGEHDRSZ + size <= OvPages(size, ps) * ps
  {
    var x := PAGEHDRSZ - 1 + size;
    var q: int := x / ps;
    assert x == q * ps + x % ps;
    assert (q + 1) * ps == q * ps + ps;
    QuotientNat(q, ps, x % ps);
  }

  lemma QuotientNat(q: int, m: int, r: int)
    requires 0 <= r < m && 0 <= q * m + r
    ensures q >= 0
  {
    assert q < 0 ==> q * m <= -m;
  }

  /** Bytes of a page a node takes, with its index. */
  function Room(n: Node): nat {
    match n
    case Item(k, d, ov) => Even(NODESIZE + |k| + if ov > 0 then 8 else |d|) + 2
    case Link(k, _) => Even(NODESIZE + |k|) + 2
  }

  function Used(nodes: seq<Node>): nat {
    if nodes == [] then 0 else Room(nodes[0]) + Used(nodes[1..])
  }

  lemma {:induction false} UsedAppend(a: seq<Node>, b: seq<Node>)
    ensures Used(a + b) == Used(a) + Used(b)
    decreases |a|
  {
    if a == [] {
      assert a + b == b;
    } else {
      UsedAppend(a[1..], b);
      assert (a + b)[1..] == a[1..] + b;
    }
  }

  lemma UsedOne(n: Node)
    ensures Used([n]) == Room(n)
  {
    assert Used([]) == 0;
  }

  lemma {:induction false} UsedEven(nodes: seq<Node>)
    ensures Used(nodes) % 2 == 0 && Used(nodes) >= 10 * |nodes|
    decreases |nodes|
  {
    if nodes != [] { UsedEven(nodes[1..]); }
  }

  function Insert(s: seq<Node>, i: nat, n: Node): seq<Node>
    requires i <= |s|
  {
    s[..i] + [n] + s[i..]
  }

  function Remove(s: seq<Node>, i: nat): seq<Node>
    requires i < |s|
  {
    s[..i] + s[i + 1..]
  }

  /** What the nodes around index i use. */
  lemma UsedAt(s: seq<Node>, i: nat)
    requires i < |s|
    ensures Used(s) == Used(s[..i]) + Room(s[i]) + Used(s[i + 1..])
  {
    hide Used, Room;
    Seqs.CutOne(s, i);
    UsedAppend(s[..i], [s[i]] + s[i + 1..]);
    UsedAppend([s[i]], s[i + 1..]);
    UsedOne(s[i]);
  }

  lemma UsedInsert(s: seq<Node>, i: nat, n: Node)
    requires i <= |s|
    ensures Used(Insert(s, i, n)) == Used(s) + Room(n)
  {
    hide Used, Room;
    UsedAppend(s[..i] + [n], s[i..]);
    UsedAppend(s[..i], [n]);
    UsedOne(n);
    UsedAppend(s[..i], s[i..]);
    Seqs.Cut(s, i);
  }

  lemma UsedRemove(s: seq<Node>, i: nat)
    requires i < |s|
    ensures Used(Remove(s, i)) == Used(s) - Room(s[i])
  {
    hide Used, Room;
    UsedAt(s, i);
    UsedAppend(s[..i], s[i + 1..]);
  }

  lemma UsedUpdate(s: seq<Node>, i: nat, n: Node)
    requires i < |s|
    ensures Used(s[i := n]) == Used(s) - Room(s[i]) + Room(n)
  {
    hide Used, Room;
    UsedAt(s, i);
    Seqs.Update(s, i, n);
    UsedAppend(s[..i], [n] + s[i + 1..]);
    UsedAppend([n], s[i + 1..]);
    UsedOne(n);
  }

  // ---------------------------------------------------------------- well-formed pages

  /** An item a page may hold: its data in the node, or else on overflow pages with room for it. */
  ghost predicate ItemOk(ps: PageSize, n: Node) {
    && n.Item? && 1 <= |n.key| <= MAXKEY
    && if n.ov == 0 then NODESIZE + |n.key| + |n.data| <= NodeMax(ps) else PAGEHDRSZ + |n.data| <= n.ov * ps
  }

  /** Items in strictly ascending key order, between two positions on the line of keys. */
  ghost predicate InOrder(s: seq<Node>, lo: real, hi: real) {
    && (forall i | 0 <= i < |s| :: s[i].Item? && lo <= Rank(s[i].key) < hi)
    && (forall i, j | 0 <= i < j < |s| :: Rank(s[i].key) < Rank(s[j].key))
  }

  /** Keys under link i of a branch page lie in [LoAt, HiAt). */
  ghost function LoAt(nodes: seq<Node>, i: nat, lo: real): real
    requires i < |nodes|
  {
    if i == 0 then lo else Rank(nodes[i].key)
  }

  ghost function HiAt(nodes: seq<Node>, i: nat, hi: real): real
    requires i < |nodes|
  {
    if i + 1 < |nodes| then Rank(nodes[i + 1].key) else hi
  }

  ghost predicate LeafOk(ps: PageSize, nodes: seq<Node>, lo: real, hi: real) {
    && (forall i | 0 <= i < |nodes| :: ItemOk(ps, nodes[i]))
    && InOrder(nodes, lo, hi)
  }

  /** The first link of a branch page has no key. */
  ghost predicate LinkOk(nodes: seq<Node>, i: nat)
    requires i < |nodes|
  {
    nodes[i].Link? && |nodes[i].key| <= MAXKEY && (i == 0 <==> nodes[i].key == [])
  }

  ghost predicate KidOk(ps: PageSize, nodes: seq<Node>, i: nat, h: nat, lo: real, hi: real)
    requires i < |nodes|
    decreases h, 2
  {
    && LinkOk(nodes, i)
    && LoAt(nodes, i, lo) < HiAt(nodes, i, hi)
    && h > 0 && Good(ps, nodes[i].page, h - 1, LoAt(nodes, i, lo), HiAt(nodes, i, hi))
  }

  ghost predicate BranchOk(ps: PageSize, nodes: seq<Node>, h: nat, lo: real, hi: real)
    decreases h, 3
  {
    |nodes| >= 1 && forall i | 0 <= i < |nodes| :: KidOk(ps, nodes, i, h, lo, hi)
  }

  /** A page at height h whose keys lie in [lo, hi), maybe with too few nodes or too many. */
  ghost predicate Arranged(ps: PageSize, p: Page, h: nat, lo: real, hi: real)
    decreases h, 4
  {
    && h >= 1 && p.leaf == (h == 1)
    && if p.leaf then LeafOk(ps, p.nodes, lo, hi) else BranchOk(ps, p.nodes, h, lo, hi)
  }

  function MinKeys(leaf: bool): nat { if leaf then 1 else 2 }

  /** A page of the tree: equal depth below, separators in order, enough nodes, and room. */
  ghost predicate Good(ps: PageSize, p: Page, h: nat, lo: real, hi: real)
    decreases h, 5
  {
    |p.nodes| >= MinKeys(p.leaf) && Used(p.nodes) <= PMax(ps) && Arranged(ps, p, h, lo, hi)
  }

  /** What `KidOk` says of the child. */
  lemma KidGood(ps: PageSize, nodes: seq<Node>, i: nat, h: nat, lo: real, hi: real)
    requires i < |nodes| && KidOk(ps, nodes, i, h, lo, hi)
    ensures h > 0 && Good(ps, nodes[i].page, h - 1, LoAt(nodes, i, lo), HiAt(nodes, i, hi))
    ensures Arranged(ps, nodes[i].page, h - 1, LoAt(nodes, i, lo), HiAt(nodes, i, hi))
  {
    assert Good(ps, nodes[i].page, h - 1, LoAt(nodes, i, lo), HiAt(nodes, i, hi));
  }

  lemma BranchKids(ps: PageSize, p: Page, h: nat, lo: real, hi: real)
    requires Arranged(ps, p, h, lo, hi) && !p.leaf
    ensures BranchOk(ps, p.nodes, h, lo, hi)
    ensures forall i | 0 <= i < |p.nodes| :: KidOk(ps, p.nodes, i, h, lo, hi)
  {
    assert BranchOk(ps, p.nodes, h, lo, hi);
    forall i | 0 <= i < |p.nodes| ensures KidOk(ps, p.nodes, i, h, lo, hi) {}
  }

  lemma BranchArranged(ps: PageSize, nodes: seq<Node>, h: nat, lo: real, hi: real)
    requires h > 1 && |nodes| >= 1
    requires forall i | 0 <= i < |nodes| :: KidOk(ps, nodes, i, h, lo, hi)
    ensures Arranged(ps, Page(false, nodes), h, lo, hi)
    ensures |nodes| >= 2 && Used(nodes) <= PMax(ps) ==> Good(ps, Page(false, nodes), h, lo, hi)
  {
    assert BranchOk(ps, nodes, h, lo, hi);
    assert Arranged(ps, Page(false, nodes), h, lo, hi);
  }

  lemma {:induction false} GoodWiden(ps: PageSize, p: Page, h: nat, lo: real, hi: real, lo': real, hi': real)
    requires Arranged(ps, p, h, lo, hi) && lo' <= lo && hi <= hi'
    ensures Arranged(ps, p, h, lo', hi')
    decreases h
  {
    if !p.leaf {
      BranchKids(ps, p, h, lo, hi);
      forall i | 0 <= i < |p.nodes| ensures KidOk(ps, p.nodes, i, h, lo', hi') {
        KidGood(ps, p.nodes, i, h, lo, hi);
        GoodWiden(ps, p.nodes[i].page, h - 1, LoAt(p.nodes, i, lo), HiAt(p.nodes, i, hi),
                  LoAt(p.nodes, i, lo'), HiAt(p.nodes, i, hi'));
      }
      BranchArranged(ps, p.nodes, h, lo', hi');
    }
  }

  // ---------------------------------------------------------------- contents

  /** All items below, from left to right. */
  function Flat(nodes: seq<Node>): seq<Node>
    decreases nodes
  {
    if nodes == [] then []
    else (if nodes[0].Item? then [nodes[0]] else Flat(nodes[0].page.nodes)) + Flat(nodes[1..])
  }

  /** The items below one node. */
  function FlatOf(n: Node): seq<Node> {
    if n.Item? then [n] else Flat(n.page.nodes)
  }

  lemma FlatFirst(n: Node, nodes: seq<Node>)
    ensures Flat([n] + nodes) == FlatOf(n) + Flat(nodes)
  {
    assert ([n] + nodes)[1..] == nodes;
  }

  lemma {:induction false} FlatAppend(a: seq<Node>, b: seq<Node>)
    ensures Flat(a + b) == Flat(a) + Flat(b)
    decreases |a|
  {
    if a == [] {
      assert a + b == b;
    } else {
      hide Flat, FlatOf;
      FlatAppend(a[1..], b);
      FlatFirst(a[0], a[1..]);
      FlatFirst(a[0], a[1..] + b);
      Seqs.FirstRest(a, b);
      Seqs.Assoc(FlatOf(a[0]), Flat(a[1..]), Flat(b));
    }
  }

  lemma {:induction false} FlatLeaf(nodes: seq<Node>)
    requires forall i | 0 <= i < |nodes| :: nodes[i].Item?
    ensures Flat(nodes) == nodes
    decreases |nodes|
  {
    if nodes != [] { FlatLeaf(nodes[1..]); }
  }

  lemma FlatLink(n: Node)
    requires n.Link?
    ensures Flat([n]) == Flat(n.page.nodes)
  {
    assert Flat([]) == [];
  }

  /** The contents around node i. */
  lemma FlatAt(nodes: seq<Node>, i: nat)
    requires i < |nodes|
    ensures Flat(nodes) == Flat(nodes[..i]) + Flat([nodes[i]]) + Flat(nodes[i + 1..])
  {
    hide Flat;
    Seqs.CutOne(nodes, i);
    FlatAppend(nodes[..i], [nodes[i]] + nodes[i + 1..]);
    FlatAppend([nodes[i]], nodes[i + 1..]);
    Seqs.Assoc(Flat(nodes[..i]), Flat([nodes[i]]), Flat(nodes[i + 1..]));
  }

  lemma InOrderAppend(a: seq<Node>, b: seq<Node>, lo: real, mid: real, hi: real)
    requires InOrder(a, lo, mid) && InOrder(b, mid, hi) && lo <= mid <= hi
    ensures InOrder(a + b, lo, hi)
  {}

  /** A well-formed page holds its items in key order, inside its bounds. */
  lemma {:induction false} PageInOrder(ps: PageSize, p: Page, h: nat, lo: real, hi: real)
    requires Arranged(ps, p, h, lo, hi)
    ensures InOrder(Flat(p.nodes), lo, hi)
    decreases h, 1, 0
  {
    if p.leaf {
      FlatLeaf(p.nodes);
    } else {
      BranchKids(ps, p, h, lo, hi);
      KidsInOrder(ps, p.nodes, h, lo, hi, 0, |p.nodes|);
      assert p.nodes[0..|p.nodes|] == p.nodes;
    }
  }

  /** The links a .. b - 1 of a branch page. */
  lemma {:induction false} KidsInOrder(ps: PageSize, nodes: seq<Node>, h: nat, lo: real, hi: real, a: nat, b: nat)
    requires h > 0 && a < b <= |nodes| && forall i | a <= i < b :: KidOk(ps, nodes, i, h, lo, hi)
    ensures InOrder(Flat(nodes[a..b]), LoAt(nodes, a, lo), HiAt(nodes, b - 1, hi))
    ensures LoAt(nodes, a, lo) < HiAt(nodes, b - 1, hi)
    decreases h, 0, b - a
  {
    KidGood(ps, nodes, a, h, lo, hi);
    PageInOrder(ps, nodes[a].page, h - 1, LoAt(nodes, a, lo), HiAt(nodes, a, hi));
    FlatLink(nodes[a]);
    if a + 1 < b {
      KidsInOrder(ps, nodes, h, lo, hi, a + 1, b);
      assert nodes[a..b] == [nodes[a]] + nodes[a + 1..b];
      FlatAppend([nodes[a]], nodes[a + 1..b]);
      InOrderAppend(Flat(nodes[a].page.nodes), Flat(nodes[a + 1..b]),
                    LoAt(nodes, a, lo), HiAt(nodes, a, hi), HiAt(nodes, b - 1, hi));
    } else {
      assert nodes[a..b] == [nodes[a]];
    }
  }

  // ---------------------------------------------------------------- counters

  /** The number of leaf pages (or of branch pages) below these nodes. */
  function Pages(nodes: seq<Node>, leaf: bool): nat
    decreases nodes
  {
    if nodes == [] then 0
    else (if nodes[0].Item? then 0
          else (if nodes[0].page.leaf == leaf then 1 else 0) + Pages(nodes[0].page.nodes, leaf))
         + Pages(nodes[1..], leaf)
  }

  function PagesAt(p: Page, leaf: bool): nat {
    (if p.leaf == leaf then 1 else 0) + Pages(p.nodes, leaf)
  }

  lemma {:induction false} PagesAppend(a: seq<Node>, b: seq<Node>, leaf: bool)
    ensures Pages(a + b, leaf) == Pages(a, leaf) + Pages(b, leaf)
    decreases |a|
  {
    if a == [] {
      assert a + b == b;
    } else {
      PagesAppend(a[1..], b, leaf);
      assert (a + b)[1..] == a[1..] + b;
    }
  }

  lemma PagesLink(n: Node, leaf: bool)
    requires n.Link?
    ensures Pages([n], leaf) == PagesAt(n.page, leaf)
  {
    assert Pages([], leaf) == 0;
  }

  lemma PagesAtIndex(nodes: seq<Node>, i: nat, leaf: bool)
    requires i < |nodes|
    ensures Pages(nodes, leaf) == Pages(nodes[..i], leaf) + Pages([nodes[i]], leaf) + Pages(nodes[i + 1..], leaf)
  {
    hide Pages;
    Seqs.CutOne(nodes, i);
    PagesAppend(nodes[..i], [nodes[i]] + nodes[i + 1..], leaf);
    PagesAppend([nodes[i]], nodes[i + 1..], leaf);
  }

  lemma {:induction false} PagesLeaf(nodes: seq<Node>, leaf: bool)
    requires forall i | 0 <= i < |nodes| :: nodes[i].Item?
    ensures Pages(nodes, leaf) == 0
    decreases |nodes|
  {
    if nodes != [] { PagesLeaf(nodes[1..], leaf); }
  }

  /** Overflow pages of these items. */
  function Overflow(s: seq<Node>): nat {
    if s == [] then 0 else (if s[0].Item? then s[0].ov else 0) + Overflow(s[1..])
  }

  lemma {:induction false} OverflowAppend(a: seq<Node>, b: seq<Node>)
    ensures Overflow(a + b) == Overflow(a) + Overflow(b)
    decreases |a|
  {
    if a == [] {
      assert a + b == b;
    } else {
      OverflowAppend(a[1..], b);
      assert (a + b)[1..] == a[1..] + b;
    }
  }

  // ---------------------------------------------------------------- the cursor stack

  /** mc_pg[i] and mc_ki[i] of the branch pages above the page the cursor is on. */
  datatype Frame = Frame(nodes: seq<Node>, ki: nat)

  predicate Framed(stack: seq<Frame>) {
    forall f | f in stack :: f.ki < |f.nodes| && f.nodes[f.ki].Link?
  }

  /** The frame's page, with another child at its index. */
  function Filled(f: Frame, p: Page): seq<Node>
    requires f.ki < |f.nodes|
  {
    f.nodes[f.ki := Link(f.nodes[f.ki].key, p)]
  }

  /** The whole tree, when the page at the bottom of the stack is p. */
  function Zip(stack: seq<Frame>, p: Page): Page
    requires forall f | f in stack :: f.ki < |f.nodes|
  {
    if stack == [] then p
    else
      var f := stack[|stack| - 1];
      Zip(stack[..|stack| - 1], Page(false, Filled(f, p)))
  }

  ghost function LoOf(stack: seq<Frame>): real
    requires Framed(stack)
  {
    if stack == [] then 0.0
    else
      var f := stack[|stack| - 1];
      LoAt(f.nodes, f.ki, LoOf(stack[..|stack| - 1]))
  }

  ghost function HiOf(stack: seq<Frame>): real
    requires Framed(stack)
  {
    if stack == [] then 1.0
    else
      var f := stack[|stack| - 1];
      HiAt(f.nodes, f.ki, HiOf(stack[..|stack| - 1]))
  }

  /** A branch page that is well formed but for the child at its index. */
  ghost predicate FrameOk(ps: PageSize, f: Frame, h: nat, lo: real, hi: real) {
    && h > 1 && 2 <= |f.nodes| && f.ki < |f.nodes| && Used(f.nodes) <= PMax(ps)
    && (forall i | 0 <= i < |f.nodes| && i != f.ki :: KidOk(ps, f.nodes, i, h, lo, hi))
    && LinkOk(f.nodes, f.ki)
    && LoAt(f.nodes, f.ki, lo) < HiAt(f.nodes, f.ki, hi)
  }

  ghost predicate StackOk(ps: PageSize, stack: seq<Frame>, depth: nat)
    decreases |stack|
  {
    stack == [] ||
    var n := |stack| - 1;
    && Framed(stack[..n]) && n < depth
    && FrameOk(ps, stack[n], depth - n, LoOf(stack[..n]), HiOf(stack[..n]))
    && StackOk(ps, stack[..n], depth)
  }

  /** The last frame, and the stack below it. */
  lemma StackTop(ps: PageSize, stack: seq<Frame>, depth: nat)
    requires StackOk(ps, stack, depth) && stack != []
    ensures var n := |stack| - 1;
            var f := stack[n];
            && Framed(stack[..n]) && StackOk(ps, stack[..n], depth) && n < depth
            && FrameOk(ps, f, depth - n, LoOf(stack[..n]), HiOf(stack[..n]))
            && Framed(stack)
            && f.ki < |f.nodes| && f.nodes[f.ki].Link?
            && LoOf(stack) == LoAt(f.nodes, f.ki, LoOf(stack[..n])) && HiOf(stack) == HiAt(f.nodes, f.ki, HiOf(stack[..n]))
  {
    var n := |stack| - 1;
    assert stack == stack[..n] + [stack[n]];
    assert FrameOk(ps, stack[n], depth - n, LoOf(stack[..n]), HiOf(stack[..n]));
  }

  lemma FilledOk(ps: PageSize, f: Frame, p: Page, h: nat, lo: real, hi: real)
    requires FrameOk(ps, f, h, lo, hi)
    requires Good(ps, p, h - 1, LoAt(f.nodes, f.ki, lo), HiAt(f.nodes, f.ki, hi))
    ensures Good(ps, Page(false, Filled(f, p)), h, lo, hi)
  {
    var g := Filled(f, p);
    UsedUpdate(f.nodes, f.ki, g[f.ki]);
    forall i | 0 <= i < |g| ensures KidOk(ps, g, i, h, lo, hi) {
      assert LoAt(g, i, lo) == LoAt(f.nodes, i, lo) && HiAt(g, i, hi) == HiAt(f.nodes, i, hi);
      if i != f.ki { KidGood(ps, f.nodes, i, h, lo, hi); }
      assert LinkOk(g, i);
      assert Good(ps, g[i].page, h - 1, LoAt(g, i, lo), HiAt(g, i, hi));
    }
    BranchArranged(ps, g, h, lo, hi);
  }

  /** Putting a good page at the bottom of a good stack gives a good tree. */
  lemma {:induction false} ZipGood(ps: PageSize, stack: seq<Frame>, p: Page, depth: nat)
    requires StackOk(ps, stack, depth) && Framed(stack) && |stack| < depth
    requires Good(ps, p, depth - |stack|, LoOf(stack), HiOf(stack))
    ensures Good(ps, Zip(stack, p), depth, 0.0, 1.0)
    decreases |stack|
  {
    if stack != [] {
      var n := |stack| - 1;
      FilledOk(ps, stack[n], p, depth - n, LoOf(stack[..n]), HiOf(stack[..n]));
      ZipGood(ps, stack[..n], Page(false, Filled(stack[n], p)), depth);
    }
  }

  /** The items left and right of the bottom of the stack. */
  ghost function Before(stack: seq<Frame>): seq<Node>
    requires Framed(stack)
  {
    if stack == [] then []
    else
      var f := stack[|stack| - 1];
      Before(stack[..|stack| - 1]) + Flat(f.nodes[..f.ki])
  }

  ghost function After(stack: seq<Frame>): seq<Node>
    requires Framed(stack)
  {
    if stack == [] then []
    else
      var f := stack[|stack| - 1];
      Flat(f.nodes[f.ki + 1..]) + After(stack[..|stack| - 1])
  }

  /** The items around the page of the last frame, and in it. */
  lemma StackSides(stack: seq<Frame>)
    requires Framed(stack) && stack != []
    ensures var n := |stack| - 1;
            var f := stack[n];
            && f.ki < |f.nodes| && f.nodes[f.ki].Link?
            && Framed(stack[..n])
            && Before(stack) == Before(stack[..n]) + Flat(f.nodes[..f.ki])
            && After(stack) == Flat(f.nodes[f.ki + 1..]) + After(stack[..n])
  {
    hide Flat;
  }

  lemma {:induction false} ZipFlat(stack: seq<Frame>, p: Page)
    requires Framed(stack)
    ensures Flat(Zip(stack, p).nodes) == Before(stack) + Flat(p.nodes) + After(stack)
    decreases |stack|
  {
    hide Flat;
    if stack != [] {
      var n := |stack| - 1;
      var f := stack[n];
      var g := Filled(f, p);
      ZipFlat(stack[..n], Page(false, g));
      FlatAt(g, f.ki);
      FlatLink(g[f.ki]);
      assert g[..f.ki] == f.nodes[..f.ki] && g[f.ki + 1..] == f.nodes[f.ki + 1..];
      Seqs.Regroup(Before(stack[..n]), Flat(f.nodes[..f.ki]), Flat(p.nodes), Flat(f.nodes[f.ki + 1..]), After(stack[..n]));
    }
  }

  /** The items left and right of one frame's index. */
  lemma FrameInOrder(ps: PageSize, f: Frame, h: nat, lo: real, hi: real)
    requires FrameOk(ps, f, h, lo, hi) && lo < hi
    ensures lo <= LoAt(f.nodes, f.ki, lo) < HiAt(f.nodes, f.ki, hi) <= hi
    ensures InOrder(Flat(f.nodes[..f.ki]), lo, LoAt(f.nodes, f.ki, lo))
    ensures InOrder(Flat(f.nodes[f.ki + 1..]), HiAt(f.nodes, f.ki, hi), hi)
  {
    hide Rank, Used;
    if f.ki > 0 {
      KidsInOrder(ps, f.nodes, h, lo, hi, 0, f.ki);
      assert f.nodes[0..f.ki] == f.nodes[..f.ki];
    } else {
      assert f.nodes[..f.ki] == [];
    }
    if f.ki + 1 < |f.nodes| {
      KidsInOrder(ps, f.nodes, h, lo, hi, f.ki + 1, |f.nodes|);
      assert f.nodes[f.ki + 1..|f.nodes|] == f.nodes[f.ki + 1..];
    } else {
      assert f.nodes[f.ki + 1..] == [];
    }
  }

  lemma NoStack()
    ensures LoOf([]) == 0.0 && HiOf([]) == 1.0 && Before([]) == [] && After([]) == []
    ensures InOrder([], 0.0, 0.0) && InOrder([], 1.0, 1.0)
  {}

  /** Around the bottom of a good stack every key is outside the bounds. */
  lemma {:induction false} StackInOrder(ps: PageSize, stack: seq<Frame>, depth: nat)
    requires StackOk(ps, stack, depth) && Framed(stack) && |stack| <= depth
    ensures 0.0 <= LoOf(stack) < HiOf(stack) <= 1.0
    ensures InOrder(Before(stack), 0.0, LoOf(stack))
    ensures InOrder(After(stack), HiOf(stack), 1.0)
    decreases |stack|
  {
    hide *;
    if stack == [] {
      NoStack();
    } else {
      var n := |stack| - 1;
      StackTop(ps, stack, depth);
      StackSides(stack);
      var rest, f := stack[..n], stack[n];
      StackInOrder(ps, rest, depth);
      FrameInOrder(ps, f, depth - n, LoOf(rest), HiOf(rest));
      InOrderAppend(Before(rest), Flat(f.nodes[..f.ki]), 0.0, LoOf(rest), LoOf(stack));
      InOrderAppend(Flat(f.nodes[f.ki + 1..]), After(rest), HiOf(stack), HiOf(rest), 1.0);
    }
  }

  /** Pages of the tree outside the bottom of the stack, the stack's own pages included. */
  ghost function PagesAround(stack: seq<Frame>, leaf: bool): nat
    requires Framed(stack)
  {
    if stack == [] then 0
    else
      var f := stack[|stack| - 1];
      PagesAround(stack[..|stack| - 1], leaf) + (if leaf then 0 else 1)
      + Pages(f.nodes[..f.ki], leaf) + Pages(f.nodes[f.ki + 1..], leaf)
  }

  lemma {:induction false} ZipPages(stack: seq<Frame>, p: Page, leaf: bool)
    requires Framed(stack)
    ensures PagesAt(Zip(stack, p), leaf) == PagesAround(stack, leaf) + PagesAt(p, leaf)
    decreases |stack|
  {
    if stack != [] {
      var n := |stack| - 1;
      var f := stack[n];
      var g := Filled(f, p);
      ZipPages(stack[..n], Page(false, g), leaf);
      PagesAtIndex(g, f.ki, leaf);
      PagesLink(g[f.ki], leaf);
      assert g[..f.ki] == f.nodes[..f.ki] && g[f.ki + 1..] == f.nodes[f.ki + 1..];
    }
  }
}
