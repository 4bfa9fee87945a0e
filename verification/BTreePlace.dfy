/** Adding a node to a page of the tree: in place when there is room, else by splitting the page
    and adding the right half's separator one level up (mdb_node_add, mdb_page_split, mdb.c). */
module BTreePlace {
  import opened Keys
  import opened BTree
  import opened BTreeSplit
  import opened BTreeChange
  import opened BTreeRows

  /** `page`, maybe with more nodes than fit, at the bottom of the stack makes a tree of this
      depth with these items and page counts. */
  ghost predicate Placing(ps: PageSize, stack: seq<Frame>, page: Page, depth: nat, total: seq<Node>,
                          leaves: nat, branches: nat) {
    && |stack| < depth && Framed(stack) && StackOk(ps, stack, depth)
    && Arranged(ps, page, depth - |stack|, LoOf(stack), HiOf(stack))
    && Before(stack) + Flat(page.nodes) + After(stack) == total
    && PagesAround(stack, true) + PagesAt(page, true) == leaves
    && PagesAround(stack, false) + PagesAt(page, false) == branches
  }

  /** A good tree with these items and page counts. */
  ghost predicate TreeOk(ps: PageSize, root: Page, depth: nat, total: seq<Node>, leaves: nat, branches: nat) {
    && Good(ps, root, depth, 0.0, 1.0)
    && Flat(root.nodes) == total
    && PagesAt(root, true) == leaves && PagesAt(root, false) == branches
  }

  lemma PlacingFramed(ps: PageSize, stack: seq<Frame>, page: Page, depth: nat, total: seq<Node>, leaves: nat, branches: nat)
    requires Placing(ps, stack, page, depth, total, leaves, branches)
    ensures Framed(stack)
  {}

  lemma PlaceDone(ps: PageSize, stack: seq<Frame>, page: Page, depth: nat, total: seq<Node>, leaves: nat, branches: nat)
    requires Placing(ps, stack, page, depth, total, leaves, branches)
    requires Used(page.nodes) <= PMax(ps) && |page.nodes| >= MinKeys(page.leaf)
    ensures Framed(stack) && TreeOk(ps, Zip(stack, page), depth, total, leaves, branches)
  {
    assert Good(ps, page, depth - |stack|, LoOf(stack), HiOf(stack));
    ZipGood(ps, stack, page, depth);
    ZipFlat(stack, page);
    ZipPages(stack, page, true);
    ZipPages(stack, page, false);
  }

  function Halves(leaf: bool, all: seq<Node>, s: nat): (Page, Page)
    requires s < |all| && (!leaf ==> all[s].Link?)
  {
    (Page(leaf, all[..s]), Page(leaf, RightNodes(leaf, all, s)))
  }

  /** The parent after a split below it. */
  function Parent(f: Frame, left: Page, sep: Key, right: Page): seq<Node>
    requires f.ki < |f.nodes|
  {
    Insert(Filled(f, left), f.ki + 1, Link(sep, right))
  }

  lemma ParentIsReplace(f: Frame, left: Page, sep: Key, right: Page)
    requires f.ki < |f.nodes|
    ensures Parent(f, left, sep, right)
            == Replace(f.nodes, f.ki, f.ki + 1, [Link(f.nodes[f.ki].key, left), Link(sep, right)])
  {}

  lemma ParentArranged(ps: PageSize, f: Frame, left: Page, sep: Key, right: Page, h: nat, lo: real, hi: real)
    requires FrameOk(ps, f, h, lo, hi)
    requires var a, b := LoAt(f.nodes, f.ki, lo), HiAt(f.nodes, f.ki, hi);
             && Good(ps, left, h - 1, a, Rank(sep)) && Good(ps, right, h - 1, Rank(sep), b)
             && a < Rank(sep) < b
    requires 1 <= |sep| <= MAXKEY
    ensures Arranged(ps, Page(false, Parent(f, left, sep, right)), h, lo, hi)
    ensures Used(Filled(f, left)) <= PMax(ps)
  {
    var mid := [Link(f.nodes[f.ki].key, left), Link(sep, right)];
    PairGroup(ps, f.nodes[f.ki].key, left, sep, right, f.ki == 0, h, LoAt(f.nodes, f.ki, lo), HiAt(f.nodes, f.ki, hi));
    ReplaceKids(ps, f.nodes, f.ki, f.ki + 1, mid, h, lo, hi);
    ParentIsReplace(f, left, sep, right);
    BranchArranged(ps, Parent(f, left, sep, right), h, lo, hi);
    UsedUpdate(f.nodes, f.ki, Link(f.nodes[f.ki].key, left));
  }

  lemma Regroup2(a: seq<Node>, b: seq<Node>, c: seq<Node>, d: seq<Node>, e: seq<Node>, f: seq<Node>)
    ensures a + (b + (c + d) + e) + f == (a + b) + (c + d) + (e + f)
  {}

  /** The items and pages under the parent are those that were under its old child. */
  lemma ParentSums(stack: seq<Frame>, left: Page, sep: Key, right: Page, kind: bool)
    requires Framed(stack) && stack != []
    ensures var n := |stack| - 1;
            var up := Page(false, Parent(stack[n], left, sep, right));
            && Before(stack[..n]) + Flat(up.nodes) + After(stack[..n])
               == Before(stack) + (Flat(left.nodes) + Flat(right.nodes)) + After(stack)
            && PagesAround(stack[..n], kind) + PagesAt(up, kind)
               == PagesAround(stack, kind) + PagesAt(left, kind) + PagesAt(right, kind)
  {
    hide Flat, Pages, Zip;
    var n := |stack| - 1;
    var f := stack[n];
    var l, r := Link(f.nodes[f.ki].key, left), Link(sep, right);
    ParentIsReplace(f, left, sep, right);
    ReplaceSums(f.nodes, f.ki, f.ki + 1, [l, r], kind);
    PairSums(l, r, kind);
    Regroup2(Before(stack[..n]), Flat(f.nodes[..f.ki]), Flat(left.nodes), Flat(right.nodes),
             Flat(f.nodes[f.ki + 1..]), After(stack[..n]));
  }

  lemma PlacingParts(ps: PageSize, stack: seq<Frame>, page: Page, depth: nat, total: seq<Node>, leaves: nat, branches: nat)
    requires Placing(ps, stack, page, depth, total, leaves, branches)
    ensures |stack| < depth && Framed(stack) && StackOk(ps, stack, depth)
    ensures Arranged(ps, page, depth - |stack|, LoOf(stack), HiOf(stack))
    ensures Before(stack) + Flat(page.nodes) + After(stack) == total
    ensures PagesAround(stack, true) + PagesAt(page, true) == leaves
    ensures PagesAround(stack, false) + PagesAt(page, false) == branches
  {
    hide Framed, StackOk, Arranged, Before, After, Flat, PagesAround, PagesAt, LoOf, HiOf;
  }

  /** The pages of the two halves. */
  lemma HalfPages(leaf: bool, all: seq<Node>, s: nat, kind: bool)
    requires s < |all| && (!leaf ==> all[s].Link?)
    ensures var (left, right) := Halves(leaf, all, s);
            && left == Page(leaf, all[..s]) && right == Page(leaf, RightNodes(leaf, all, s))
            && Flat(left.nodes) + Flat(right.nodes) == Flat(all)
            && PagesAt(left, kind) + PagesAt(right, kind) == PagesAt(Page(leaf, all), kind) + if leaf == kind then 1 else 0
  {
    hide Flat, Pages, RightNodes;
    SplitSums(leaf, all, s, kind);
  }

  lemma PlacingWhole(ps: PageSize, stack: seq<Frame>, page: Page, depth: nat, total: seq<Node>, leaves: nat, branches: nat)
    requires |stack| < depth && Framed(stack) && StackOk(ps, stack, depth)
    requires Arranged(ps, page, depth - |stack|, LoOf(stack), HiOf(stack))
    requires Before(stack) + Flat(page.nodes) + After(stack) == total
    requires PagesAround(stack, true) + PagesAt(page, true) == leaves
    requires PagesAround(stack, false) + PagesAt(page, false) == branches
    ensures Placing(ps, stack, page, depth, total, leaves, branches)
  {
    hide Framed, StackOk, Arranged, Before, After, Flat, PagesAround, PagesAt, LoOf, HiOf;
  }

  /** The top of the stack once the halves hang there: what its page holds, around what. */
  lemma CarryPage(ps: PageSize, stack: seq<Frame>, leaf: bool, all: seq<Node>, s: nat, depth: nat)
    requires |stack| < depth && Framed(stack) && StackOk(ps, stack, depth) && stack != []
    requires Arranged(ps, Page(leaf, all), depth - |stack|, LoOf(stack), HiOf(stack))
    requires SplitFits(ps, leaf, all, s)
    ensures var n := |stack| - 1;
            var (left, right) := Halves(leaf, all, s);
            && stack[n].ki < |stack[n].nodes| && stack[n].nodes[stack[n].ki].Link?
            && Used(Filled(stack[n], left)) <= PMax(ps)
            && Framed(stack[..n]) && StackOk(ps, stack[..n], depth)
            && Arranged(ps, Page(false, Parent(stack[n], left, all[s].key, right)), depth - n, LoOf(stack[..n]),
                        HiOf(stack[..n]))
  {
    hide *;
    SplitIndex(ps, leaf, all, s);
    var n := |stack| - 1;
    StackTop(ps, stack, depth);
    HalfPages(leaf, all, s, true);
    var (left, right) := Halves(leaf, all, s);
    SplitGood(ps, leaf, all, s, depth - |stack|, LoOf(stack), HiOf(stack));
    ParentArranged(ps, stack[n], left, all[s].key, right, depth - n, LoOf(stack[..n]), HiOf(stack[..n]));
  }

  /** The items and pages around it are those that were around the page that was split. */
  lemma CarrySums(stack: seq<Frame>, leaf: bool, all: seq<Node>, s: nat, kind: bool)
    requires Framed(stack) && stack != [] && s < |all| && (!leaf ==> all[s].Link?)
    ensures var n := |stack| - 1;
            var (left, right) := Halves(leaf, all, s);
            var up := Page(false, Parent(stack[n], left, all[s].key, right));
            && Before(stack[..n]) + Flat(up.nodes) + After(stack[..n]) == Before(stack) + Flat(all) + After(stack)
            && PagesAround(stack[..n], kind) + PagesAt(up, kind)
               == PagesAround(stack, kind) + PagesAt(Page(leaf, all), kind) + if leaf == kind then 1 else 0
  {
    hide *;
    var (left, right) := Halves(leaf, all, s);
    HalfPages(leaf, all, s, kind);
    ParentSums(stack, left, all[s].key, right, kind);
  }

  /** After a split, the separator and the right half are to be added to the parent. */
  lemma CarryUp(ps: PageSize, stack: seq<Frame>, leaf: bool, all: seq<Node>, s: nat, depth: nat, total: seq<Node>,
                leaves: nat, branches: nat)
    requires Placing(ps, stack, Page(leaf, all), depth, total, leaves, branches)
    requires SplitFits(ps, leaf, all, s) && stack != []
    ensures var n := |stack| - 1;
            var (left, right) := Halves(leaf, all, s);
            && stack[n].ki < |stack[n].nodes| && stack[n].nodes[stack[n].ki].Link?
            && Used(Filled(stack[n], left)) <= PMax(ps)
            && Placing(ps, stack[..n], Page(false, Parent(stack[n], left, all[s].key, right)), depth, total,
                       leaves + (if leaf then 1 else 0), branches + (if leaf then 0 else 1))
  {
    hide *;
    PlacingParts(ps, stack, Page(leaf, all), depth, total, leaves, branches);
    SplitIndex(ps, leaf, all, s);
    var n := |stack| - 1;
    var (left, right) := Halves(leaf, all, s);
    CarryPage(ps, stack, leaf, all, s, depth);
    CarrySums(stack, leaf, all, s, true);
    CarrySums(stack, leaf, all, s, false);
    PlacingWhole(ps, stack[..n], Page(false, Parent(stack[n], left, all[s].key, right)), depth, total,
                 leaves + (if leaf then 1 else 0), branches + (if leaf then 0 else 1));
  }

  function NewRoot(left: Page, sep: Key, right: Page): Page {
    Page(false, [Link([], left), Link(sep, right)])
  }

  /** A split at the root gets a new root above it. */
  lemma RootSplit(ps: PageSize, leaf: bool, all: seq<Node>, s: nat, depth: nat, total: seq<Node>, leaves: nat, branches: nat)
    requires Placing(ps, [], Page(leaf, all), depth, total, leaves, branches)
    requires SplitFits(ps, leaf, all, s)
    ensures var (left, right) := Halves(leaf, all, s);
            TreeOk(ps, NewRoot(left, all[s].key, right), depth + 1, total,
                   leaves + (if leaf then 1 else 0), branches + (if leaf then 1 else 2))
  {
    hide Good, Flat, Pages;
    var (left, right) := Halves(leaf, all, s);
    var l, r := Link([], left), Link(all[s].key, right);
    var root := [l, r];
    SplitGood(ps, leaf, all, s, depth, 0.0, 1.0);
    SplitSums(leaf, all, s, true);
    SplitSums(leaf, all, s, false);
    PairSums(l, r, true);
    PairSums(l, r, false);
    PairGroup(ps, [], left, all[s].key, right, true, depth + 1, 0.0, 1.0);
    assert GroupKid(ps, root, 0, true, depth + 1, 0.0, 1.0) && GroupKid(ps, root, 1, true, depth + 1, 0.0, 1.0);
    assert LinkOk(root, 0) && LinkOk(root, 1);
    assert KidOk(ps, root, 0, depth + 1, 0.0, 1.0) && KidOk(ps, root, 1, depth + 1, 0.0, 1.0);
    RootUsed(ps, l, r);
    BranchArranged(ps, root, depth + 1, 0.0, 1.0);
    assert [] + Flat(Page(leaf, all).nodes) + [] == Flat(all);
  }

  lemma RootUsed(ps: PageSize, l: Node, r: Node)
    requires l.Link? && r.Link? && l.key == [] && |r.key| <= MAXKEY
    ensures Used([l, r]) <= PMax(ps)
  {
    assert [l, r] == [l] + [r];
    UsedAppend([l], [r]);
    UsedOne(l);
    UsedOne(r);
  }

  lemma PlacingOverfull(ps: PageSize, stack: seq<Frame>, leaf: bool, nodes: seq<Node>, at: nat, n: Node, depth: nat,
                        total: seq<Node>, leaves: nat, branches: nat)
    requires at <= |nodes| && Placing(ps, stack, Page(leaf, Insert(nodes, at, n)), depth, total, leaves, branches)
    requires Used(nodes) <= PMax(ps) < Used(nodes) + Room(n) && (!leaf ==> at >= 1)
    ensures Overfull(ps, leaf, nodes, at, n)
  {
    hide Flat, Pages, Before, After, PagesAround, StackOk, Arranged, SmallNodes, Used, Room;
    var all := Insert(nodes, at, n);
    ArrangedSmall(ps, Page(leaf, all), depth - |stack|, LoOf(stack), HiOf(stack));
    if !leaf {
      FirstKid(ps, Page(leaf, all), depth - |stack|, LoOf(stack), HiOf(stack));
      assert all[0] == nodes[0];
    }
  }

  // ---------------------------------------------------------------- when a split fails

  /** c nodes at one end of the page take more than fifteen sixteenths of it. */
  ghost predicate EndHeavy(ps: PageSize, nodes: seq<Node>, c: nat) {
    c <= |nodes| && (16 * Used(nodes[..c]) > 15 * PMax(ps) || 16 * Used(nodes[|nodes| - c..]) > 15 * PMax(ps))
  }

  /** A page of many nodes, half of which, at one end, fill it nearly alone. */
  ghost predicate Lopsided(ps: PageSize, nodes: seq<Node>) {
    |nodes| >= 32 && EndHeavy(ps, nodes, (|nodes| + 1) / 2)
  }

  /** The same, with the half rounded down. */
  ghost predicate Tight(ps: PageSize, nodes: seq<Node>) {
    |nodes| >= 32 && EndHeavy(ps, nodes, |nodes| / 2)
  }

  lemma HeavyMore(ps: PageSize, nodes: seq<Node>, c: nat, d: nat)
    requires EndHeavy(ps, nodes, c) && c <= d <= |nodes|
    ensures EndHeavy(ps, nodes, d)
  {
    hide Used;
    PrefixUsed(nodes[..d], c);
    assert nodes[..d][..c] == nodes[..c];
    UsedParts(nodes[|nodes| - d..], d - c);
    assert nodes[|nodes| - d..][d - c..] == nodes[|nodes| - c..];
  }

  /** A split without scan fails only on a lopsided page. */
  lemma StuckLopsided(ps: PageSize, leaf: bool, nodes: seq<Node>, at: nat, n: Node)
    requires Overfull(ps, leaf, nodes, at, n) && Shortcut(ps, nodes, at, n)
    requires !SplitFits(ps, leaf, Insert(nodes, at, n), (|nodes| + 1) / 2)
    ensures Tight(ps, nodes)
  {
    hide Used, Room;
    var s := (|nodes| + 1) / 2;
    ShortcutFits(ps, leaf, nodes, at, n);
    if at < s {
      HeavyMore(ps, nodes, s - 1, |nodes| / 2);
    } else {
      UsedStep(nodes, s);
      RoomAtLeast(nodes[s]);
      assert nodes[|nodes| - (|nodes| - s)..] == nodes[s..];
    }
  }

  lemma RoomAtLeast(n: Node)
    ensures Room(n) >= 10
  {}

  lemma UsedSlices(nodes: seq<Node>, i: nat, n: Node, c: nat)
    requires i < |nodes| && Room(n) == Room(nodes[i]) && c <= |nodes|
    ensures Used(nodes[i := n][..c]) == Used(nodes[..c])
    ensures Used(nodes[i := n][c..]) == Used(nodes[c..])
  {
    if i < c {
      assert nodes[i := n][..c] == nodes[..c][i := n];
      UsedUpdate(nodes[..c], i, n);
      assert nodes[i := n][c..] == nodes[c..];
    } else {
      assert nodes[i := n][c..] == nodes[c..][i - c := n];
      UsedUpdate(nodes[c..], i - c, n);
      assert nodes[i := n][..c] == nodes[..c];
    }
  }

  /** A node of the same size, as another child under the same separator, changes nothing. */
  lemma LopsidedUpdate(ps: PageSize, nodes: seq<Node>, i: nat, n: Node)
    requires i < |nodes| && Room(n) == Room(nodes[i])
    ensures Tight(ps, nodes[i := n]) ==> Lopsided(ps, nodes)
    ensures Lopsided(ps, nodes[i := n]) ==> Lopsided(ps, nodes)
  {
    hide Used, Room;
    var g := nodes[i := n];
    var c := (|g| + 1) / 2;
    UsedSlices(nodes, i, n, c);
    UsedSlices(nodes, i, n, |g| - c);
    if Tight(ps, g) {
      HeavyMore(ps, g, |g| / 2, c);
    }
  }

  lemma SameRoom(f: Frame, p: Page)
    requires f.ki < |f.nodes| && f.nodes[f.ki].Link?
    ensures Room(Link(f.nodes[f.ki].key, p)) == Room(f.nodes[f.ki])
  {}

  /** A page that is lopsided without one of its nodes is lopsided with it. */
  lemma LopsidedRemoved(ps: PageSize, nodes: seq<Node>, k: nat)
    requires k < |nodes| && Tight(ps, Remove(nodes, k))
    ensures Lopsided(ps, nodes)
  {
    hide Used;
    var r := Remove(nodes, k);
    HeadRemoved(nodes, k, |r| / 2);
    TailRemoved(nodes, k, |r| - |r| / 2);
  }

  lemma HeadRemoved(nodes: seq<Node>, k: nat, c: nat)
    requires k < |nodes| && c < |nodes|
    ensures Used(Remove(nodes, k)[..c]) <= Used(nodes[..c + 1])
  {
    hide Used;
    var r := Remove(nodes, k);
    if k <= c {
      assert r[..c] == Remove(nodes[..c + 1], k);
      UsedRemove(nodes[..c + 1], k);
    } else {
      assert r[..c] == nodes[..c];
      UsedStep(nodes, c);
    }
  }

  lemma TailRemoved(nodes: seq<Node>, k: nat, b: nat)
    requires k < |nodes| && b < |nodes|
    ensures Used(Remove(nodes, k)[b..]) <= Used(nodes[b..])
  {
    hide Used;
    var r := Remove(nodes, k);
    if k >= b {
      assert r[b..] == Remove(nodes[b..], k - b);
      UsedRemove(nodes[b..], k - b);
    } else {
      assert r[b..] == nodes[b + 1..];
      UsedStep(nodes, b);
    }
  }

  // ---------------------------------------------------------------- exactly when adding a node fails

  /** Adding the node fails: the page is full and one half of its split does not fit, or this happens
      when the separator is added to the page above. */
  ghost predicate Stuck(ps: PageSize, stack: seq<Frame>, leaf: bool, nodes: seq<Node>, at: nat, n: Node)
    decreases |stack|
  {
    && at <= |nodes| && |nodes| >= 2 && Used(nodes) + Room(n) > PMax(ps)
    && var all, s := Insert(nodes, at, n), SplitAt(ps, leaf, nodes, at, n);
    (!SplitFits(ps, leaf, all, s) || StuckAbove(ps, stack, leaf, all, s))
  }

  ghost predicate StuckAbove(ps: PageSize, stack: seq<Frame>, leaf: bool, all: seq<Node>, s: nat)
    decreases |stack|, 1
  {
    && stack != [] && s < |all| && (!leaf ==> all[s].Link?)
    && var f := stack[|stack| - 1];
    f.ki < |f.nodes| &&
    Stuck(ps, stack[..|stack| - 1], false, Filled(f, Page(leaf, all[..s])), f.ki + 1,
          Link(all[s].key, Page(leaf, RightNodes(leaf, all, s))))
  }

  /** On one page, in terms of the sizes of its nodes: the page overflows, no scan is made, and the side
      of the middle that takes the new node has no room for it. */
  lemma StuckHere(ps: PageSize, leaf: bool, nodes: seq<Node>, at: nat, n: Node)
    requires at <= |nodes| && Overfull(ps, leaf, nodes, at, n)
    ensures |nodes| >= 2
    ensures var s := (|nodes| + 1) / 2;
            !SplitFits(ps, leaf, Insert(nodes, at, n), SplitAt(ps, leaf, nodes, at, n)) <==>
              && |nodes| >= 32 && Room(n) <= PMax(ps) / 16 && at < |nodes|
              && if at < s then Used(nodes[..s - 1]) + Room(n) > PMax(ps)
                 else if leaf then Used(nodes[s..]) + Room(n) > PMax(ps)
                 else at > s && Used(nodes[s + 1..]) + 10 + Room(n) > PMax(ps)
  {
    EnoughNodes(ps, leaf, nodes, at, n);
    hide *;
    SplitAtIs(ps, leaf, nodes, at, n);
    if Shortcut(ps, nodes, at, n) {
      ShortcutFits(ps, leaf, nodes, at, n);
    } else {
      ScanFits(ps, leaf, nodes, at, n);
    }
  }

  lemma StuckOn(ps: PageSize, stack: seq<Frame>, leaf: bool, nodes: seq<Node>, at: nat, n: Node, s: nat)
    requires at <= |nodes| && |nodes| >= 2 && Used(nodes) + Room(n) > PMax(ps) && s == SplitAt(ps, leaf, nodes, at, n)
    ensures Stuck(ps, stack, leaf, nodes, at, n)
       <==> !SplitFits(ps, leaf, Insert(nodes, at, n), s) || StuckAbove(ps, stack, leaf, Insert(nodes, at, n), s)
  {
    hide Used, Room, SplitAt, SplitFits, StuckAbove;
  }

  lemma StuckUp(ps: PageSize, stack: seq<Frame>, leaf: bool, all: seq<Node>, s: nat)
    requires s < |all| && (!leaf ==> all[s].Link?)
    requires stack != [] ==> stack[|stack| - 1].ki < |stack[|stack| - 1].nodes|
    ensures stack == [] ==> !StuckAbove(ps, stack, leaf, all, s)
    ensures stack != [] ==>
              var f := stack[|stack| - 1];
              StuckAbove(ps, stack, leaf, all, s) ==
              Stuck(ps, stack[..|stack| - 1], false, Filled(f, Page(leaf, all[..s])), f.ki + 1,
                    Link(all[s].key, Page(leaf, RightNodes(leaf, all, s))))
  {
    hide Stuck;
  }

  lemma NotStuck(ps: PageSize, stack: seq<Frame>, leaf: bool, nodes: seq<Node>, at: nat, n: Node)
    requires Used(nodes) + Room(n) <= PMax(ps)
    ensures !Stuck(ps, stack, leaf, nodes, at, n)
  {
    hide Used, Room;
  }

  /** Add node n at index `at` of the page at the bottom of the stack.  Fails exactly when it gets stuck,
      and then a page, that one or one above it, is lopsided; with room in the page, only that page
      changes. */
  method Place(ps: PageSize, stack0: seq<Frame>, leaf0: bool, nodes0: seq<Node>, at0: nat, n0: Node,
               depth0: nat, leaves0: nat, branches0: nat, ghost total: seq<Node>)
    returns (rc: Rc, root: Page, depth: nat, leaves: nat, branches: nat)
    requires at0 <= |nodes0| && Used(nodes0) <= PMax(ps)
    requires (leaf0 || at0 >= 1) && |nodes0| + 1 >= MinKeys(leaf0)
    requires Placing(ps, stack0, Page(leaf0, Insert(nodes0, at0, n0)), depth0, total, leaves0, branches0)
    ensures rc == Success ==> TreeOk(ps, root, depth, total, leaves, branches)
    ensures rc == PageFull ==> Tight(ps, nodes0) || exists f :: f in stack0 && Lopsided(ps, f.nodes)
    ensures rc == PageFull <==> Stuck(ps, stack0, leaf0, nodes0, at0, n0)
    ensures Used(nodes0) + Room(n0) <= PMax(ps) ==> rc == Success
    ensures rc == Success ==> Placed(ps, stack0, leaf0, nodes0, at0, n0, root, depth - depth0)
    ensures rc == Success && !leaf0 ==> leaves == leaves0
  {
    hide PlaceOn, Placed, SplitChosen;
    hide Placing, TreeOk, Overfull, SplitFits, SplitAt, Stuck, StuckAbove, Used, Room, Tight, Lopsided;
    var stack, leaf, nodes, at: nat, n := stack0, leaf0, nodes0, at0, n0;
    depth, leaves, branches := depth0, leaves0, branches0;
    PlacingFramed(ps, stack, Page(leaf, Insert(nodes, at, n)), depth, total, leaves, branches);
    PlaceOnStart(ps, stack, leaf, nodes, at, n);
    while true
      invariant at <= |nodes| && Used(nodes) <= PMax(ps) && (leaf || at >= 1) && |nodes| + 1 >= MinKeys(leaf)
      invariant Placing(ps, stack, Page(leaf, Insert(nodes, at, n)), depth, total, leaves, branches)
      invariant PlaceOn(ps, stack0, leaf0, nodes0, at0, n0, stack, leaf, nodes, at, n) && depth == depth0
      invariant !leaf0 ==> !leaf && leaves == leaves0
      invariant stack <= stack0
      invariant Tight(ps, nodes) ==> Tight(ps, nodes0) || exists f :: f in stack0 && Lopsided(ps, f.nodes)
      invariant Stuck(ps, stack0, leaf0, nodes0, at0, n0) == Stuck(ps, stack, leaf, nodes, at, n)
      invariant Used(nodes0) + Room(n0) <= PMax(ps) ==> nodes == nodes0 && n == n0
      decreases |stack|
    {
      ghost var all := Insert(nodes, at, n);
      UsedInsert(nodes, at, n);
      if PMax(ps) - Used(nodes) >= Room(n) {
        PlaceDone(ps, stack, Page(leaf, all), depth, total, leaves, branches);
        NotStuck(ps, stack, leaf, nodes, at, n);
        rc, root := Success, Zip(stack, Page(leaf, Insert(nodes, at, n)));
        PlaceOnDone(ps, stack0, leaf0, nodes0, at0, n0, stack, leaf, nodes, at, n);
        return;
      }
      PlacingOverfull(ps, stack, leaf, nodes, at, n, depth, total, leaves, branches);
      var left, right, sep;
      ghost var s;
      rc, left, right, sep, s := Split(ps, leaf, nodes, at, n);
      StuckOn(ps, stack, leaf, nodes, at, n, s);
      if rc != Success {
        StuckLopsided(ps, leaf, nodes, at, n);
        root := Page(leaf, nodes);
        return;
      }
      SplitIndex(ps, leaf, all, s);
      PlacingTop(ps, stack, Page(leaf, all), depth, total, leaves, branches);
      StuckUp(ps, stack, leaf, all, s);
      if stack == [] {
        RootSplit(ps, leaf, all, s, depth, total, leaves, branches);
        root := NewRoot(Page(leaf, left), sep, Page(leaf, right));
        PlaceOnTop(ps, stack0, leaf0, nodes0, at0, n0, leaf, nodes, at, n, s, sep);
        depth := depth + 1;
        leaves, branches := leaves + (if leaf then 1 else 0), branches + (if leaf then 1 else 2);
        return;
      }
      CarryUp(ps, stack, leaf, all, s, depth, total, leaves, branches);
      PlaceOnUp(ps, stack0, leaf0, nodes0, at0, n0, stack, leaf, nodes, at, n, s, sep);
      leaves, branches := leaves + (if leaf then 1 else 0), branches + (if leaf then 0 else 1);
      var f := stack[|stack| - 1];
      SameRoom(f, Page(leaf, left));
      LopsidedUpdate(ps, f.nodes, f.ki, Link(f.nodes[f.ki].key, Page(leaf, left)));
      assert f in stack0;
      nodes, at, n := Filled(f, Page(leaf, left)), f.ki + 1, Link(sep, Page(leaf, right));
      stack, leaf := stack[..|stack| - 1], false;
    }
  }

  lemma PlacingTop(ps: PageSize, stack: seq<Frame>, page: Page, depth: nat, total: seq<Node>, leaves: nat, branches: nat)
    requires Placing(ps, stack, page, depth, total, leaves, branches)
    ensures stack != [] ==> stack[|stack| - 1].ki < |stack[|stack| - 1].nodes|
  {
    hide StackOk, Arranged, Before, After, PagesAround;
    if stack != [] { assert stack[|stack| - 1] in stack; }
  }

  lemma SplitIndex(ps: PageSize, leaf: bool, all: seq<Node>, s: nat)
    requires SplitFits(ps, leaf, all, s)
    ensures s < |all| && (!leaf ==> all[s].Link?)
  {}
}
