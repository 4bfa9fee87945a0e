/** After a deletion: borrow a node from a neighbour, merge with it, or shrink the tree
    (mdb_rebalance, mdb_node_move, mdb_page_merge, mdb.c). */
module BTreeRebalance {
  import opened Options
  import opened Keys
  import opened BTree
  import opened BTreeSplit
  import opened BTreeChange
  import opened BTreePlace
  import opened BTreeRows
  import opened UnderfullPages
  import Seqs

  const FILL_THRESHOLD := 250

  /** PAGEFILL: tenths of a percent of the page in use. */
  function PageFill(ps: PageSize, nodes: seq<Node>): int {
    1000 * Used(nodes) / PMax(ps)
  }

  function Thresh(leaf: bool): nat { if leaf then FILL_THRESHOLD else 1 }

  /** The page is to be rebalanced. */
  predicate Underfull(ps: PageSize, leaf: bool, nodes: seq<Node>) {
    !(PageFill(ps, nodes) >= Thresh(leaf) && |nodes| >= MinKeys(leaf))
  }

  /** The neighbour can spare a node. */
  predicate Spares(ps: PageSize, leaf: bool, nodes: seq<Node>) {
    PageFill(ps, nodes) >= Thresh(leaf) && |nodes| > MinKeys(leaf)
  }

  /** Two neighbouring pages as one: the first link of the right page gets the lowest key below. */
  function Joined(leaf: bool, l: seq<Node>, r: seq<Node>, low: Key): seq<Node>
    requires !leaf ==> |r| > 0 && r[0].Link?
  {
    if leaf then l + r else l + [Link(low, r[0].page)] + r[1..]
  }

  // ---------------------------------------------------------------- room

  lemma FillBelow(ps: PageSize, nodes: seq<Node>, t: nat)
    requires PageFill(ps, nodes) < t
    ensures 1000 * Used(nodes) < t * PMax(ps)
  {
    var x, m := 1000 * Used(nodes), PMax(ps);
    assert x == m * (x / m) + x % m;
    MulBelow(x / m, t, m);
  }

  lemma MulBelow(q: int, t: nat, m: nat)
    requires q < t
    ensures m * q + m <= t * m
  {
    assert m * (q + 1) <= m * t;
  }

  /** A page that is to be rebalanced holds little. */
  lemma UnderfullUsed(ps: PageSize, leaf: bool, nodes: seq<Node>)
    requires Underfull(ps, leaf, nodes) && (!leaf ==> |nodes| > 0 && nodes[0].Link? && nodes[0].key == [])
    ensures leaf ==> 4 * Used(nodes) < PMax(ps)
    ensures !leaf ==> Used(nodes) <= 32
  {
    if PageFill(ps, nodes) < Thresh(leaf) {
      FillBelow(ps, nodes, Thresh(leaf));
    } else if leaf {
      assert nodes == [];
    } else {
      assert nodes == [nodes[0]];
      UsedOne(nodes[0]);
    }
  }

  /** A neighbour that cannot spare a node holds little, or few nodes. */
  lemma SparselyUsed(ps: PageSize, leaf: bool, nodes: seq<Node>)
    requires !Spares(ps, leaf, nodes) && SmallNodes(ps, leaf, nodes)
    requires |nodes| > 0 && (!leaf ==> nodes[0].key == [])
    ensures leaf ==> 2 * Used(nodes) <= PMax(ps)
    ensures !leaf ==> Used(nodes) <= 532
  {
    if PageFill(ps, nodes) < Thresh(leaf) {
      FillBelow(ps, nodes, Thresh(leaf));
    } else if leaf {
      assert nodes == [nodes[0]];
      UsedOne(nodes[0]);
    } else {
      if |nodes| == 1 {
        assert nodes == [nodes[0]];
      } else {
        assert nodes == [nodes[0]] + [nodes[1]];
        UsedAppend([nodes[0]], [nodes[1]]);
        UsedOne(nodes[1]);
      }
      UsedOne(nodes[0]);
    }
  }

  lemma JoinedUsed(leaf: bool, l: seq<Node>, r: seq<Node>, low: Key)
    requires !leaf ==> |r| > 0 && r[0].Link? && r[0].key == []
    ensures leaf ==> Used(Joined(leaf, l, r, low)) == Used(l) + Used(r)
    ensures !leaf ==> Used(Joined(leaf, l, r, low)) == Used(l) + Used(r) - 10 + Room(Link(low, r[0].page))
  {
    UsedAppend(l, r);
    if !leaf {
      var x := Link(low, r[0].page);
      UsedAppend(l + [x], r[1..]);
      UsedAppend(l, [x]);
      UsedOne(x);
    }
  }

  /** When a merge is chosen, the merged page has room: `mdb_node_add` does not fail. */
  lemma MergeRoom(ps: PageSize, leaf: bool, l: seq<Node>, r: seq<Node>, low: Key)
    requires SmallNodes(ps, leaf, l) && SmallNodes(ps, leaf, r) && (!leaf ==> |low| <= MAXKEY)
    requires !leaf ==> |l| > 0 && |r| > 0 && l[0].key == [] && r[0].key == []
    requires (Underfull(ps, leaf, l) && |r| > 0 && !Spares(ps, leaf, r))
             || (Underfull(ps, leaf, r) && |l| > 0 && !Spares(ps, leaf, l))
    ensures Used(Joined(leaf, l, r, low)) <= PMax(ps)
  {
    hide Underfull, Spares, Used;
    JoinedUsed(leaf, l, r, low);
    if Underfull(ps, leaf, l) && |r| > 0 && !Spares(ps, leaf, r) {
      UnderfullUsed(ps, leaf, l);
      SparselyUsed(ps, leaf, r);
    } else {
      UnderfullUsed(ps, leaf, r);
      SparselyUsed(ps, leaf, l);
    }
  }

  /** Where a borrow cuts the joined pages. */
  function Cut(l: seq<Node>, fromLeft: bool): int {
    if fromLeft then |l| - 1 else |l| + 1
  }

  /** When a borrow is chosen, the page that receives the node has room. */
  lemma MoveRoom(ps: PageSize, leaf: bool, l: seq<Node>, r: seq<Node>, low: Key, fromLeft: bool)
    requires SmallNodes(ps, leaf, l) && SmallNodes(ps, leaf, r) && Used(l) <= PMax(ps) && Used(r) <= PMax(ps)
    requires !leaf ==> |l| > 0 && |r| > 0 && l[0].key == [] && r[0].key == [] && |low| <= MAXKEY
    requires if fromLeft then Underfull(ps, leaf, r) && Spares(ps, leaf, l)
             else Underfull(ps, leaf, l) && Spares(ps, leaf, r)
    ensures Cut(l, fromLeft) >= 0 && SplitFits(ps, leaf, Joined(leaf, l, r, low), Cut(l, fromLeft))
  {
    hide Used;
    if fromLeft {
      CutFromLeft(leaf, l, r, low);
      UnderfullUsed(ps, leaf, r);
      UsedParts(l, |l| - 1);
    } else {
      CutFromRight(leaf, l, r, low);
      UnderfullUsed(ps, leaf, l);
    }
  }

  predicate Kind(leaf: bool, nodes: seq<Node>) {
    && (forall i | 0 <= i < |nodes| :: leaf == nodes[i].Item?)
    && (!leaf ==> |nodes| > 0 && nodes[0].key == [])
  }

  /** The two sides after the left page's last node was moved to the right page. */
  lemma CutFromLeft(leaf: bool, l: seq<Node>, r: seq<Node>, low: Key)
    requires |l| > 0 && Kind(leaf, l) && Kind(leaf, r)
    ensures var j, s := Joined(leaf, l, r, low), |l| - 1;
            && |j| == |l| + |r| && j[..s] == l[..|l| - 1] && j[s] == l[|l| - 1]
            && Used(RightNodes(leaf, j, s)) == Used(r) + if leaf then Room(l[|l| - 1]) else Room(Link(low, r[0].page))
  {
    hide Used, Room;
    var j, s := Joined(leaf, l, r, low), |l| - 1;
    UsedRight(leaf, j, s);
    if leaf {
      assert j[s..] == [l[|l| - 1]] + r;
      UsedAppend([l[|l| - 1]], r);
      UsedOne(l[|l| - 1]);
    } else {
      var x := Link(low, r[0].page);
      assert j[s + 1..] == [x] + r[1..];
      UsedAppend([x], r[1..]);
      UsedOne(x);
      FirstLinkUsed(r);
    }
  }

  lemma FirstLinkUsed(r: seq<Node>)
    requires |r| > 0 && r[0].Link? && r[0].key == []
    ensures Used(r) == 10 + Used(r[1..])
  {
    UsedStep(r, 0);
    assert r[0..] == r;
  }

  /** The two sides after the right page's first node was moved to the left page. */
  lemma CutFromRight(leaf: bool, l: seq<Node>, r: seq<Node>, low: Key)
    requires |r| > 1 && Kind(leaf, l) && Kind(leaf, r)
    ensures var j, s := Joined(leaf, l, r, low), |l| + 1;
            && |j| == |l| + |r| && j[s] == r[1]
            && Used(j[..s]) == Used(l) + (if leaf then Room(r[0]) else Room(Link(low, r[0].page)))
            && Used(RightNodes(leaf, j, s)) <= Used(r)
  {
    hide Used, Room;
    var j, s := Joined(leaf, l, r, low), |l| + 1;
    UsedRight(leaf, j, s);
    var x := if leaf then r[0] else Link(low, r[0].page);
    assert j[..s] == l + [x];
    UsedAppend(l, [x]);
    UsedOne(x);
    assert j[s..] == r[1..];
    UsedStep(r, 0);
    assert r[0..] == r;
  }

  // ---------------------------------------------------------------- the joined page

  /** Two neighbours joined make one well-formed page, if a large one, over both their ranges. */
  lemma JoinedArranged(ps: PageSize, l: Page, r: Page, h: nat, lo: real, mid: real, hi: real, low: Key)
    requires l.leaf == r.leaf && lo < mid < hi && |r.nodes| >= MinKeys(r.leaf) - 1
    requires Arranged(ps, l, h, lo, mid) && Arranged(ps, r, h, mid, hi)
    requires !r.leaf ==> |Flat(r.nodes)| > 0 && low == Lowest(r)
    ensures !r.leaf ==> |r.nodes| > 0 && r.nodes[0].Link? && 1 <= |low| <= MAXKEY
    ensures Arranged(ps, Page(l.leaf, Joined(l.leaf, l.nodes, r.nodes, low)), h, lo, hi)
  {
    if l.leaf {
      JoinedLeaf(ps, l.nodes, r.nodes, lo, mid, hi);
    } else {
      JoinedBranch(ps, l, r, h, lo, mid, hi, low);
    }
  }

  lemma JoinedLeaf(ps: PageSize, l: seq<Node>, r: seq<Node>, lo: real, mid: real, hi: real)
    requires LeafOk(ps, l, lo, mid) && LeafOk(ps, r, mid, hi) && lo < mid < hi
    ensures LeafOk(ps, l + r, lo, hi)
  {
    hide Rank, ItemOk;
  }

  lemma JoinedBranch(ps: PageSize, l: Page, r: Page, h: nat, lo: real, mid: real, hi: real, low: Key)
    requires !l.leaf && !r.leaf && lo < mid < hi
    requires Arranged(ps, l, h, lo, mid) && Arranged(ps, r, h, mid, hi)
    requires |Flat(r.nodes)| > 0 && low == Lowest(r)
    ensures |r.nodes| > 0 && r.nodes[0].Link? && 1 <= |low| <= MAXKEY
    ensures Arranged(ps, Page(false, Joined(false, l.nodes, r.nodes, low)), h, lo, hi)
  {
    BranchKids(ps, l, h, lo, mid);
    FirstKid(ps, r, h, mid, hi);
    RaiseLow(ps, r, h, mid, hi);
    BranchKids(ps, r, h, Rank(low), hi);
    var j := Joined(false, l.nodes, r.nodes, low);
    forall k | 0 <= k < |j| ensures KidOk(ps, j, k, h, lo, hi) {
      if k < |l.nodes| {
        JoinedLeftKid(ps, l.nodes, r.nodes, h, lo, mid, hi, low, k);
      } else {
        JoinedRightKid(ps, l.nodes, r.nodes, h, lo, hi, low, k);
      }
    }
    BranchArranged(ps, j, h, lo, hi);
  }

  lemma JoinedLeftKid(ps: PageSize, l: seq<Node>, r: seq<Node>, h: nat, lo: real, mid: real, hi: real, low: Key, k: nat)
    requires k < |l| && KidOk(ps, l, k, h, lo, mid)
    requires |r| > 0 && r[0].Link? && mid <= Rank(low)
    ensures KidOk(ps, Joined(false, l, r, low), k, h, lo, hi)
  {
    hide Rank;
    var j := Joined(false, l, r, low);
    KidGood(ps, l, k, h, lo, mid);
    assert j[k] == l[k] && LinkOk(j, k);
    assert k + 1 < |l| ==> j[k + 1] == l[k + 1];
    assert LoAt(j, k, lo) == LoAt(l, k, lo) && HiAt(l, k, mid) <= HiAt(j, k, hi);
    GoodWiden(ps, l[k].page, h - 1, LoAt(l, k, lo), HiAt(l, k, mid), LoAt(j, k, lo), HiAt(j, k, hi));
    assert Good(ps, j[k].page, h - 1, LoAt(j, k, lo), HiAt(j, k, hi));
  }

  lemma JoinedRightKid(ps: PageSize, l: seq<Node>, r: seq<Node>, h: nat, lo: real, hi: real, low: Key, k: nat)
    requires |l| > 0 && |l| <= k < |l| + |r| && KidOk(ps, r, k - |l|, h, Rank(low), hi)
    requires |r| > 0 && r[0].Link? && 1 <= |low| <= MAXKEY
    ensures KidOk(ps, Joined(false, l, r, low), k, h, lo, hi)
  {
    hide Rank;
    var j := Joined(false, l, r, low);
    var o := k - |l|;
    KidGood(ps, r, o, h, Rank(low), hi);
    assert o > 0 ==> j[k] == r[o];
    assert o + 1 < |r| ==> j[k + 1] == r[o + 1];
    assert LoAt(j, k, lo) == LoAt(r, o, Rank(low)) && HiAt(j, k, hi) == HiAt(r, o, hi);
    assert LinkOk(j, k);
    assert Good(ps, j[k].page, h - 1, LoAt(j, k, lo), HiAt(j, k, hi));
  }

  /** Joining neither loses nor reorders items, nor pages below. */
  lemma JoinedSums(leaf: bool, l: seq<Node>, r: seq<Node>, low: Key, kind: bool)
    requires !leaf ==> |r| > 0 && r[0].Link?
    ensures Flat(Joined(leaf, l, r, low)) == Flat(l) + Flat(r)
    ensures Pages(Joined(leaf, l, r, low), kind) == Pages(l, kind) + Pages(r, kind)
  {
    hide Flat, Pages;
    if leaf {
      FlatAppend(l, r);
      PagesAppend(l, r, kind);
    } else {
      var x := Link(low, r[0].page);
      FirstLinkSums(r, x, kind);
      FlatAppend(l + [x], r[1..]);
      FlatAppend(l, [x]);
      Seqs.Assoc(Flat(l), Flat([x]), Flat(r[1..]));
      PagesAppend(l + [x], r[1..], kind);
      PagesAppend(l, [x], kind);
    }
  }

  /** Another key on the first link changes nothing below. */
  lemma FirstLinkSums(r: seq<Node>, x: Node, kind: bool)
    requires |r| > 0 && r[0].Link? && x.Link? && x.page == r[0].page
    ensures Flat(r) == Flat([x]) + Flat(r[1..])
    ensures Pages(r, kind) == Pages([x], kind) + Pages(r[1..], kind)
  {
    hide Flat, Pages;
    Seqs.HeadTail(r);
    FlatAppend([r[0]], r[1..]);
    PagesAppend([r[0]], r[1..], kind);
    FlatLink(r[0]);
    FlatLink(x);
    PagesLink(r[0], kind);
    PagesLink(x, kind);
  }

  // ---------------------------------------------------------------- the parent

  /** The parent page, with the underfull page in place: links i and i + 1 are the two neighbours,
      all other children are good. */
  ghost predicate Siblings(ps: PageSize, up: seq<Node>, i: nat, h: nat, lo: real, hi: real) {
    && h > 1 && i + 1 < |up| && Used(up) <= PMax(ps)
    && (forall k | 0 <= k < |up| && !(i <= k < i + 2) :: KidOk(ps, up, k, h, lo, hi))
    && LinkOk(up, i) && LinkOk(up, i + 1)
    && LoAt(up, i, lo) < Rank(up[i + 1].key) < HiAt(up, i + 1, hi)
    && Arranged(ps, up[i].page, h - 1, LoAt(up, i, lo), Rank(up[i + 1].key))
    && Arranged(ps, up[i + 1].page, h - 1, Rank(up[i + 1].key), HiAt(up, i + 1, hi))
  }

  lemma FrameSiblings(ps: PageSize, f: Frame, p: Page, i: nat, h: nat, lo: real, hi: real)
    requires FrameOk(ps, f, h, lo, hi) && i + 1 < |f.nodes| && (i == f.ki || i + 1 == f.ki)
    requires Arranged(ps, p, h - 1, LoAt(f.nodes, f.ki, lo), HiAt(f.nodes, f.ki, hi))
    ensures Siblings(ps, Filled(f, p), i, h, lo, hi)
    ensures Good(ps, f.nodes[if i == f.ki then i + 1 else i].page, h - 1,
                 LoAt(f.nodes, if i == f.ki then i + 1 else i, lo), HiAt(f.nodes, if i == f.ki then i + 1 else i, hi))
  {
    hide Rank;
    var up := Filled(f, p);
    UsedUpdate(f.nodes, f.ki, up[f.ki]);
    var o := if i == f.ki then i + 1 else i;
    KidGood(ps, f.nodes, o, h, lo, hi);
    forall k | 0 <= k < |up| && !(i <= k < i + 2) ensures KidOk(ps, up, k, h, lo, hi) {
      KidGood(ps, f.nodes, k, h, lo, hi);
      assert LoAt(up, k, lo) == LoAt(f.nodes, k, lo) && HiAt(up, k, hi) == HiAt(f.nodes, k, hi);
      assert LinkOk(up, k);
      assert Good(ps, up[k].page, h - 1, LoAt(up, k, lo), HiAt(up, k, hi));
    }
    assert LinkOk(up, i) && LinkOk(up, i + 1);
  }

  /** Another group of pages in place of the two neighbours, with the same items. */
  ghost predicate SamePair(up: seq<Node>, i: nat, mid: seq<Node>)
    requires i + 1 < |up|
  {
    Flat(mid) == Flat(up[i..i + 2])
  }

  lemma PairReplaced(up: seq<Node>, i: nat, mid: seq<Node>, kind: bool)
    requires i + 1 < |up| && SamePair(up, i, mid)
    ensures Flat(Replace(up, i, i + 2, mid)) == Flat(up)
    ensures Pages(Replace(up, i, i + 2, mid), kind) == Pages(up, kind) - Pages(up[i..i + 2], kind) + Pages(mid, kind)
  {
    PairBack(up, i, mid);
    hide *;
    ReplaceSums(up, i, i + 2, mid, kind);
    ReplaceSums(up, i, i + 2, up[i..i + 2], kind);
  }

  lemma PairBack(up: seq<Node>, i: nat, mid: seq<Node>)
    requires i + 1 < |up| && SamePair(up, i, mid)
    ensures Replace(up, i, i + 2, up[i..i + 2]) == up && Flat(mid) == Flat(up[i..i + 2])
  {
    hide Flat;
  }

  /** The parent after a borrow. */
  function Borrowed(up: seq<Node>, i: nat, leaf: bool, all: seq<Node>, s: nat): seq<Node>
    requires i + 1 < |up| && s < |all| && (!leaf ==> all[s].Link?)
  {
    var (l, r) := Halves(leaf, all, s);
    Replace(up, i, i + 2, [Link(up[i].key, l), Link(all[s].key, r)])
  }

  lemma BorrowedArranged(ps: PageSize, up: seq<Node>, i: nat, leaf: bool, all: seq<Node>, s: nat, h: nat, lo: real, hi: real)
    requires Siblings(ps, up, i, h, lo, hi)
    requires Arranged(ps, Page(leaf, all), h - 1, LoAt(up, i, lo), HiAt(up, i + 1, hi)) && SplitFits(ps, leaf, all, s)
    ensures Arranged(ps, Page(false, Borrowed(up, i, leaf, all, s)), h, lo, hi)
  {
    hide Good, Arranged, Rank;
    var (l, r) := Halves(leaf, all, s);
    SplitGood(ps, leaf, all, s, h - 1, LoAt(up, i, lo), HiAt(up, i + 1, hi));
    PairGroup(ps, up[i].key, l, all[s].key, r, i == 0, h, LoAt(up, i, lo), HiAt(up, i + 1, hi));
    ReplaceKids(ps, up, i, i + 2, [Link(up[i].key, l), Link(all[s].key, r)], h, lo, hi);
    BranchArranged(ps, Borrowed(up, i, leaf, all, s), h, lo, hi);
  }

  lemma BorrowedSums(up: seq<Node>, i: nat, leaf: bool, all: seq<Node>, s: nat, kind: bool)
    requires i + 1 < |up| && s < |all| && (!leaf ==> all[s].Link?)
    requires up[i].Link? && up[i + 1].Link? && up[i].page.leaf == up[i + 1].page.leaf == leaf
    requires Flat(all) == Flat(up[i].page.nodes) + Flat(up[i + 1].page.nodes)
    requires Pages(all, kind) == Pages(up[i].page.nodes, kind) + Pages(up[i + 1].page.nodes, kind)
    ensures Flat(Borrowed(up, i, leaf, all, s)) == Flat(up)
    ensures Pages(Borrowed(up, i, leaf, all, s), kind) == Pages(up, kind)
  {
    hide Flat, Pages;
    var (l, r) := Halves(leaf, all, s);
    var mid := [Link(up[i].key, l), Link(all[s].key, r)];
    assert up[i..i + 2] == [up[i], up[i + 1]];
    PairSums(up[i], up[i + 1], kind);
    PairSums(mid[0], mid[1], kind);
    SplitSums(leaf, all, s, kind);
    PairReplaced(up, i, mid, kind);
  }

  /** The parent after a merge. */
  function Merged(up: seq<Node>, i: nat, p: Page): seq<Node>
    requires i + 1 < |up|
  {
    Replace(up, i, i + 2, [Link(up[i].key, p)])
  }

  lemma MergedArranged(ps: PageSize, up: seq<Node>, i: nat, p: Page, h: nat, lo: real, hi: real)
    requires Siblings(ps, up, i, h, lo, hi)
    requires Good(ps, p, h - 1, LoAt(up, i, lo), HiAt(up, i + 1, hi))
    ensures Arranged(ps, Page(false, Merged(up, i, p)), h, lo, hi)
    ensures Used(Merged(up, i, p)) <= PMax(ps)
  {
    hide Good, Arranged, Rank;
    var mid := [Link(up[i].key, p)];
    assert GroupKid(ps, mid, 0, i == 0, h, LoAt(up, i, lo), HiAt(up, i + 1, hi));
    ReplaceKids(ps, up, i, i + 2, mid, h, lo, hi);
    BranchArranged(ps, Merged(up, i, p), h, lo, hi);
    MergedUsed(up, i, p);
  }

  lemma MergedUsed(up: seq<Node>, i: nat, p: Page)
    requires i + 1 < |up| && up[i].Link?
    ensures Used(Merged(up, i, p)) <= Used(up)
  {
    hide Used, Flat, Pages;
    var x := Link(up[i].key, p);
    ReplaceSums(up, i, i + 2, [x], true);
    ReplaceSums(up, i, i + 2, [up[i], up[i + 1]], true);
    assert Replace(up, i, i + 2, [up[i], up[i + 1]]) == up;
    assert [up[i], up[i + 1]] == [up[i]] + [up[i + 1]];
    UsedAppend([up[i]], [up[i + 1]]);
    UsedOne(x);
    UsedOne(up[i]);
  }

  lemma MergedSums(up: seq<Node>, i: nat, p: Page, kind: bool)
    requires i + 1 < |up| && up[i].Link? && up[i + 1].Link? && up[i].page.leaf == up[i + 1].page.leaf == p.leaf
    requires Flat(p.nodes) == Flat(up[i].page.nodes) + Flat(up[i + 1].page.nodes)
    requires Pages(p.nodes, kind) == Pages(up[i].page.nodes, kind) + Pages(up[i + 1].page.nodes, kind)
    ensures Flat(Merged(up, i, p)) == Flat(up)
    ensures Pages(Merged(up, i, p), kind) == Pages(up, kind) - if p.leaf == kind then 1 else 0
  {
    hide Flat, Pages;
    var mid := [Link(up[i].key, p)];
    assert up[i..i + 2] == [up[i], up[i + 1]];
    PairSums(up[i], up[i + 1], kind);
    FlatLink(mid[0]);
    PagesLink(mid[0], kind);
    PairReplaced(up, i, mid, kind);
  }

  /** The parent takes the place of the page at the bottom of the stack. */
  lemma UpSums(stack: seq<Frame>, p: Page, kind: bool)
    requires Framed(stack) && stack != []
    ensures var n := |stack| - 1;
            var up := Filled(stack[n], p);
            && Before(stack[..n]) + Flat(up) + After(stack[..n]) == Before(stack) + Flat(p.nodes) + After(stack)
            && PagesAround(stack[..n], kind) + PagesAt(Page(false, up), kind) == PagesAround(stack, kind) + PagesAt(p, kind)
  {
    hide Flat, Pages;
    var n := |stack| - 1;
    var f := stack[n];
    var up := Filled(f, p);
    FlatAt(up, f.ki);
    FlatLink(up[f.ki]);
    PagesAtIndex(up, f.ki, kind);
    PagesLink(up[f.ki], kind);
    assert up[..f.ki] == f.nodes[..f.ki] && up[f.ki + 1..] == f.nodes[f.ki + 1..];
    Seqs.Regroup(Before(stack[..n]), Flat(f.nodes[..f.ki]), Flat(p.nodes), Flat(f.nodes[f.ki + 1..]), After(stack[..n]));
  }

  // ---------------------------------------------------------------- one level

  /** The page above the stack `rest`, with the underfull page in place: links i and i + 1 are the
      underfull page and its chosen neighbour. */
  ghost predicate UpReady(ps: PageSize, rest: seq<Frame>, up: seq<Node>, i: nat, leaf: bool, depth: nat,
                          total: seq<Node>, leaves: nat, branches: nat) {
    && |rest| + 1 < depth && Framed(rest) && StackOk(ps, rest, depth)
    && Siblings(ps, up, i, depth - |rest|, LoOf(rest), HiOf(rest))
    && Neighbours(ps, up, i, leaf)
    && Before(rest) + Flat(up) + After(rest) == total
    && PagesAround(rest, true) + PagesAt(Page(false, up), true) == leaves
    && PagesAround(rest, false) + PagesAt(Page(false, up), false) == branches
  }

  ghost predicate Neighbours(ps: PageSize, up: seq<Node>, i: nat, leaf: bool) {
    && i + 1 < |up| && up[i].Link? && up[i + 1].Link?
    && up[i].page.leaf == up[i + 1].page.leaf == leaf
    && Kind(leaf, up[i].page.nodes) && Kind(leaf, up[i + 1].page.nodes)
    && Used(up[i].page.nodes) <= PMax(ps) && Used(up[i + 1].page.nodes) <= PMax(ps)
  }

  ghost predicate LowOk(p: Page, low: Key) {
    !p.leaf ==> |Flat(p.nodes)| > 0 && low == Lowest(p)
  }

  /** The two neighbours as one page. */
  function JoinedAt(up: seq<Node>, i: nat, leaf: bool, low: Key): seq<Node>
    requires i + 1 < |up| && up[i].Link? && up[i + 1].Link? && Kind(leaf, up[i + 1].page.nodes)
  {
    Joined(leaf, up[i].page.nodes, up[i + 1].page.nodes, low)
  }

  lemma NeighboursJoined(ps: PageSize, up: seq<Node>, i: nat, leaf: bool, h: nat, lo: real, hi: real, low: Key)
    requires Siblings(ps, up, i, h, lo, hi) && Neighbours(ps, up, i, leaf) && LowOk(up[i + 1].page, low)
    ensures SmallNodes(ps, leaf, up[i].page.nodes) && SmallNodes(ps, leaf, up[i + 1].page.nodes)
    ensures !leaf ==> 1 <= |low| <= MAXKEY
    ensures Arranged(ps, Page(leaf, JoinedAt(up, i, leaf, low)), h - 1, LoAt(up, i, lo), HiAt(up, i + 1, hi))
  {
    hide Rank;
    ArrangedSmall(ps, up[i].page, h - 1, LoAt(up, i, lo), Rank(up[i + 1].key));
    ArrangedSmall(ps, up[i + 1].page, h - 1, Rank(up[i + 1].key), HiAt(up, i + 1, hi));
    JoinedArranged(ps, up[i].page, up[i + 1].page, h - 1, LoAt(up, i, lo), Rank(up[i + 1].key), HiAt(up, i + 1, hi), low);
  }

  /** The page at the bottom of the stack and its chosen neighbour. */
  lemma FindNeighbours(ps: PageSize, stack: seq<Frame>, p: Page, i: nat, depth: nat, total: seq<Node>,
                       leaves: nat, branches: nat)
    requires Placing(ps, stack, p, depth, total, leaves, branches) && stack != [] && Used(p.nodes) <= PMax(ps)
    requires var f := stack[|stack| - 1]; i == if f.ki == 0 then 0 else f.ki - 1
    ensures var f := stack[|stack| - 1];
            && f.ki < |f.nodes| && f.nodes[f.ki].Link? && i + 1 < |f.nodes|
            && var up := Filled(f, p);
            && UpReady(ps, stack[..|stack| - 1], up, i, p.leaf, depth, total, leaves, branches)
            && up[i].Link? && up[i + 1].Link? && up[f.ki].page == p
            && |up[if f.ki == 0 then 1 else i].page.nodes| > 0
  {
    hide Rank, Flat, Before, After, PagesAround, Pages;
    var n := |stack| - 1;
    var f := stack[n];
    var up := Filled(f, p);
    var lo, hi := LoOf(stack[..n]), HiOf(stack[..n]);
    FrameSiblings(ps, f, p, i, depth - n, lo, hi);
    ArrangedKind(ps, up[i].page, depth - n - 1, LoAt(up, i, lo), Rank(up[i + 1].key));
    ArrangedKind(ps, up[i + 1].page, depth - n - 1, Rank(up[i + 1].key), HiAt(up, i + 1, hi));
    UpSums(stack, p, true);
    UpSums(stack, p, false);
  }

  lemma ArrangedKind(ps: PageSize, p: Page, h: nat, lo: real, hi: real)
    requires Arranged(ps, p, h, lo, hi)
    ensures Kind(p.leaf, p.nodes) && p.leaf == (h == 1)
  {
    if p.leaf {
      forall i | 0 <= i < |p.nodes| ensures p.nodes[i].Item? {
        assert ItemOk(ps, p.nodes[i]);
      }
    } else {
      BranchKids(ps, p, h, lo, hi);
      forall i | 0 <= i < |p.nodes| ensures p.nodes[i].Link? {
        assert KidOk(ps, p.nodes, i, h, lo, hi);
      }
      assert KidOk(ps, p.nodes, 0, h, lo, hi);
    }
  }

  /** After a borrow the parent is to get its new separator, and maybe to split. */
  lemma MoveStep(ps: PageSize, rest: seq<Frame>, up: seq<Node>, i: nat, leaf: bool, depth: nat, total: seq<Node>,
                 leaves: nat, branches: nat, low: Key, s: nat)
    requires UpReady(ps, rest, up, i, leaf, depth, total, leaves, branches) && LowOk(up[i + 1].page, low)
    requires SplitFits(ps, leaf, JoinedAt(up, i, leaf, low), s)
    ensures Placing(ps, rest, Page(false, Borrowed(up, i, leaf, JoinedAt(up, i, leaf, low), s)), depth, total, leaves, branches)
  {
    hide Rank, Flat, Before, After, PagesAround, Pages, LoAt, HiAt, Arranged, Used, Siblings, LowOk;
    var all := JoinedAt(up, i, leaf, low);
    NeighboursJoined(ps, up, i, leaf, depth - |rest|, LoOf(rest), HiOf(rest), low);
    BorrowedArranged(ps, up, i, leaf, all, s, depth - |rest|, LoOf(rest), HiOf(rest));
    JoinedSums(leaf, up[i].page.nodes, up[i + 1].page.nodes, low, true);
    JoinedSums(leaf, up[i].page.nodes, up[i + 1].page.nodes, low, false);
    BorrowedSums(up, i, leaf, all, s, true);
    BorrowedSums(up, i, leaf, all, s, false);
  }

  /** After a merge the parent has one link less, and one page of the tree is free. */
  lemma MergeStep(ps: PageSize, rest: seq<Frame>, up: seq<Node>, i: nat, leaf: bool, depth: nat, total: seq<Node>,
                  leaves: nat, branches: nat, low: Key)
    requires UpReady(ps, rest, up, i, leaf, depth, total, leaves, branches) && LowOk(up[i + 1].page, low)
    requires var all := JoinedAt(up, i, leaf, low); Used(all) <= PMax(ps) && |all| >= MinKeys(leaf)
    ensures var m := Merged(up, i, Page(leaf, JoinedAt(up, i, leaf, low)));
            && Used(m) <= PMax(ps)
            && leaves >= (if leaf then 1 else 0) && branches >= (if leaf then 0 else 1)
            && Placing(ps, rest, Page(false, m), depth, total,
                       leaves - (if leaf then 1 else 0), branches - (if leaf then 0 else 1))
  {
    hide Rank, Flat, Before, After, PagesAround, Pages, LoAt, HiAt, Used, Siblings, LowOk, Arranged;
    var page := Page(leaf, JoinedAt(up, i, leaf, low));
    NeighboursJoined(ps, up, i, leaf, depth - |rest|, LoOf(rest), HiOf(rest), low);
    assert Good(ps, page, depth - |rest| - 1, LoAt(up, i, LoOf(rest)), HiAt(up, i + 1, HiOf(rest)));
    MergedArranged(ps, up, i, page, depth - |rest|, LoOf(rest), HiOf(rest));
    JoinedSums(leaf, up[i].page.nodes, up[i + 1].page.nodes, low, true);
    JoinedSums(leaf, up[i].page.nodes, up[i + 1].page.nodes, low, false);
    MergedSums(up, i, page, true);
    MergedSums(up, i, page, false);
  }

  // ---------------------------------------------------------------- at the root

  lemma EmptyRoot(ps: PageSize, p: Page, depth: nat, total: seq<Node>, leaves: nat, branches: nat)
    requires Placing(ps, [], p, depth, total, leaves, branches) && p.nodes == []
    ensures p.leaf && depth == 1 && total == [] && leaves == 1 && branches == 0
  {
    assert !p.leaf ==> BranchOk(ps, p.nodes, depth, 0.0, 1.0);
  }

  lemma CollapseRoot(ps: PageSize, p: Page, depth: nat, total: seq<Node>, leaves: nat, branches: nat)
    requires Placing(ps, [], p, depth, total, leaves, branches) && !p.leaf && |p.nodes| == 1
    ensures p.nodes[0].Link? && depth > 1 && branches >= 1
    ensures TreeOk(ps, p.nodes[0].page, depth - 1, total, leaves, branches - 1)
  {
    FirstKid(ps, p, depth, 0.0, 1.0);
    PagesLink(p.nodes[0], true);
    PagesLink(p.nodes[0], false);
    assert p.nodes == [p.nodes[0]];
    FlatLink(p.nodes[0]);
  }

  lemma FullEnough(ps: PageSize, leaf: bool, nodes: seq<Node>)
    ensures !Underfull(ps, leaf, nodes) ==> |nodes| >= MinKeys(leaf)
  {}

  /** When the neighbour spares a node, the borrow succeeds and leaves the parent to be updated. */
  lemma MoveReady(ps: PageSize, rest: seq<Frame>, up: seq<Node>, i: nat, leaf: bool, depth: nat, total: seq<Node>,
                  leaves: nat, branches: nat, low: Key, fromLeft: bool)
    requires UpReady(ps, rest, up, i, leaf, depth, total, leaves, branches) && LowOk(up[i + 1].page, low)
    requires var l, r := up[i].page.nodes, up[i + 1].page.nodes;
             if fromLeft then Underfull(ps, leaf, r) && Spares(ps, leaf, l) else Underfull(ps, leaf, l) && Spares(ps, leaf, r)
    ensures var l, r := up[i].page.nodes, up[i + 1].page.nodes;
            var all, s := Joined(leaf, l, r, low), Cut(l, fromLeft);
            && Kind(leaf, l) && Kind(leaf, r) && (if fromLeft then |l| > 0 else |r| > 1)
            && 0 <= s < |all| && (!leaf ==> all[s].Link?)
            && var n := Link(all[s].key, Page(leaf, RightNodes(leaf, all, s)));
            var nodes := Remove(up[i := Link(up[i].key, Page(leaf, all[..s]))], i + 1);
            && i + 1 <= |nodes| && Used(nodes) <= PMax(ps) && |nodes| + 1 >= 2
            && Placing(ps, rest, Page(false, Insert(nodes, i + 1, n)), depth, total, leaves, branches)
  {
    hide Placing, Rank, Underfull, LoOf, HiOf, SplitFits, Used, LowOk, Before, After, PagesAround, Flat, Pages;
    var l, r := up[i].page.nodes, up[i + 1].page.nodes;
    NeighboursJoined(ps, up, i, leaf, depth - |rest|, LoOf(rest), HiOf(rest), low);
    MoveRoom(ps, leaf, l, r, low, fromLeft);
    var all, s := Joined(leaf, l, r, low), Cut(l, fromLeft);
    SplitIndex(ps, leaf, all, s);
    MoveStep(ps, rest, up, i, leaf, depth, total, leaves, branches, low, s);
    BorrowedParts(ps, up, i, leaf, all, s);
  }

  /** Replacing the separator is deleting the link and adding it again. */
  lemma BorrowedParts(ps: PageSize, up: seq<Node>, i: nat, leaf: bool, all: seq<Node>, s: nat)
    requires i + 1 < |up| && up[i].Link? && s < |all| && (!leaf ==> all[s].Link?) && Used(up) <= PMax(ps)
    ensures var n := Link(all[s].key, Page(leaf, RightNodes(leaf, all, s)));
            var nodes := Remove(up[i := Link(up[i].key, Page(leaf, all[..s]))], i + 1);
            && i + 1 <= |nodes| && Used(nodes) <= PMax(ps)
            && Insert(nodes, i + 1, n) == Borrowed(up, i, leaf, all, s)
  {
    var x := up[i := Link(up[i].key, Page(leaf, all[..s]))];
    UsedUpdate(up, i, x[i]);
    UsedRemove(x, i + 1);
  }

  /** When it does not, the merge succeeds. */
  lemma MergeReady(ps: PageSize, rest: seq<Frame>, up: seq<Node>, i: nat, leaf: bool, depth: nat, total: seq<Node>,
                   leaves: nat, branches: nat, low: Key, fromLeft: bool)
    requires UpReady(ps, rest, up, i, leaf, depth, total, leaves, branches) && LowOk(up[i + 1].page, low)
    requires var l, r := up[i].page.nodes, up[i + 1].page.nodes;
             if fromLeft then Underfull(ps, leaf, r) && |l| > 0 && !Spares(ps, leaf, l)
             else Underfull(ps, leaf, l) && |r| > 0 && !Spares(ps, leaf, r)
    ensures var m := Merged(up, i, Page(leaf, JoinedAt(up, i, leaf, low)));
            && Used(JoinedAt(up, i, leaf, low)) <= PMax(ps) && Used(m) <= PMax(ps)
            && leaves >= (if leaf then 1 else 0) && branches >= (if leaf then 0 else 1)
            && Placing(ps, rest, Page(false, m), depth, total,
                       leaves - (if leaf then 1 else 0), branches - (if leaf then 0 else 1))
  {
    hide Placing, Rank, Underfull, Spares, LoOf, HiOf, Used, LowOk, Before, After, PagesAround, Flat, Pages;
    NeighboursJoined(ps, up, i, leaf, depth - |rest|, LoOf(rest), HiOf(rest), low);
    MergeRoom(ps, leaf, up[i].page.nodes, up[i + 1].page.nodes, low);
    MergeStep(ps, rest, up, i, leaf, depth, total, leaves, branches, low);
  }

  /** `mdb_page_search_lowest` below the right one of the two neighbours, when they are branches. */
  method LowBelow(ps: PageSize, ghost rest: seq<Frame>, up: seq<Node>, i: nat, leaf: bool, ghost depth: nat,
                  ghost total: seq<Node>, ghost leaves: nat, ghost branches: nat) returns (low: Key)
    requires UpReady(ps, rest, up, i, leaf, depth, total, leaves, branches)
    ensures i + 1 < |up| && up[i + 1].Link? && LowOk(up[i + 1].page, low) && low == LowOf(up[i + 1].page)
  {
    hide Flat, Before, After, PagesAround, Pages, Used;
    low := [];
    if !leaf {
      low := LowestKey(ps, up[i + 1].page, depth - |rest| - 1, Rank(up[i + 1].key), HiAt(up, i + 1, HiOf(rest)));
    }
  }

  /** The parent is as lopsided without its separator as the page it was when the search passed. */
  lemma ParentLopsided(ps: PageSize, f: Frame, p: Page, i: nat, left: Page)
    requires f.ki < |f.nodes| && f.nodes[f.ki].Link? && i + 1 < |f.nodes| && Filled(f, p)[i].Link?
    ensures Tight(ps, Remove(Filled(f, p)[i := Link(Filled(f, p)[i].key, left)], i + 1)) ==> Lopsided(ps, f.nodes)
  {
    hide Tight, Lopsided;
    var up := Filled(f, p);
    var x := up[i := Link(up[i].key, left)];
    if Tight(ps, Remove(x, i + 1)) {
      LopsidedRemoved(ps, x, i + 1);
      LopsidedUpdate(ps, up, i, x[i]);
      LopsidedUpdate(ps, f.nodes, f.ki, up[f.ki]);
    }
  }

  // ---------------------------------------------------------------- exactly when rebalancing fails

  /** The lowest key below a branch page. */
  ghost function LowOf(p: Page): Key {
    if p.leaf || Flat(p.nodes) == [] then [] else Lowest(p)
  }

  /** The left one of the page and its neighbour: the neighbour is the one to the left if there is one. */
  function LeftIndex(f: Frame): nat {
    if f.ki == 0 then 0 else f.ki - 1
  }

  /** Rebalancing from the page at the bottom of the stack fails: after some merges a borrow gives the
      parent a separator that it cannot take. */
  ghost predicate MergeStuck(ps: PageSize, stack: seq<Frame>, p: Page)
    decreases |stack|, 0
  {
    && Underfull(ps, p.leaf, p.nodes) && stack != []
    && var f := stack[|stack| - 1];
    f.ki < |f.nodes| && LevelStuck(ps, stack[..|stack| - 1], Filled(f, p), LeftIndex(f), p.leaf, f.ki != 0)
  }

  ghost predicate LevelStuck(ps: PageSize, rest: seq<Frame>, up: seq<Node>, i: nat, leaf: bool, fromLeft: bool)
    decreases |rest|, 1
  {
    && i + 1 < |up| && up[i].Link? && up[i + 1].Link? && Kind(leaf, up[i + 1].page.nodes)
    && var all := JoinedAt(up, i, leaf, LowOf(up[i + 1].page));
    if Spares(ps, leaf, up[if fromLeft then i else i + 1].page.nodes) then
      var s := Cut(up[i].page.nodes, fromLeft);
      0 <= s < |all| && (!leaf ==> all[s].Link?) &&
      Stuck(ps, rest, false, Remove(up[i := Link(up[i].key, Page(leaf, all[..s]))], i + 1), i + 1,
            Link(all[s].key, Page(leaf, RightNodes(leaf, all, s))))
    else MergeStuck(ps, rest, Page(false, Merged(up, i, Page(leaf, all))))
  }

  lemma NotMergeStuck(ps: PageSize, stack: seq<Frame>, p: Page)
    requires !Underfull(ps, p.leaf, p.nodes) || stack == []
    ensures !MergeStuck(ps, stack, p)
  {}

  lemma MergeStuckUp(ps: PageSize, stack: seq<Frame>, p: Page)
    requires Underfull(ps, p.leaf, p.nodes) && stack != [] && stack[|stack| - 1].ki < |stack[|stack| - 1].nodes|
    ensures var f := stack[|stack| - 1];
            MergeStuck(ps, stack, p) == LevelStuck(ps, stack[..|stack| - 1], Filled(f, p), LeftIndex(f), p.leaf, f.ki != 0)
  {
    hide LevelStuck, Underfull;
  }

  lemma BorrowStuck(ps: PageSize, rest: seq<Frame>, up: seq<Node>, i: nat, leaf: bool, fromLeft: bool, low: Key)
    requires i + 1 < |up| && up[i].Link? && up[i + 1].Link? && Kind(leaf, up[i + 1].page.nodes) && low == LowOf(up[i + 1].page)
    requires Spares(ps, leaf, up[if fromLeft then i else i + 1].page.nodes)
    requires var all, s := JoinedAt(up, i, leaf, low), Cut(up[i].page.nodes, fromLeft);
             0 <= s < |all| && (!leaf ==> all[s].Link?)
    ensures var all, s := JoinedAt(up, i, leaf, low), Cut(up[i].page.nodes, fromLeft);
            LevelStuck(ps, rest, up, i, leaf, fromLeft)
            == Stuck(ps, rest, false, Remove(up[i := Link(up[i].key, Page(leaf, all[..s]))], i + 1), i + 1,
                     Link(all[s].key, Page(leaf, RightNodes(leaf, all, s))))
  {
    hide Stuck, Spares, LowOf, MergeStuck;
  }

  lemma MergedStuck(ps: PageSize, rest: seq<Frame>, up: seq<Node>, i: nat, leaf: bool, fromLeft: bool, low: Key)
    requires i + 1 < |up| && up[i].Link? && up[i + 1].Link? && Kind(leaf, up[i + 1].page.nodes) && low == LowOf(up[i + 1].page)
    requires !Spares(ps, leaf, up[if fromLeft then i else i + 1].page.nodes)
    ensures LevelStuck(ps, rest, up, i, leaf, fromLeft)
            == MergeStuck(ps, rest, Page(false, Merged(up, i, Page(leaf, JoinedAt(up, i, leaf, low)))))
  {
    hide Stuck, Spares, LowOf, MergeStuck;
  }

  // ---------------------------------------------------------------- in bytes

  lemma FillFrom(ps: PageSize, nodes: seq<Node>)
    ensures PageFill(ps, nodes) >= FILL_THRESHOLD <==> 4 * Used(nodes) >= PMax(ps)
    ensures PageFill(ps, nodes) >= 1 <==> 1000 * Used(nodes) >= PMax(ps)
  {
    Quotient(1000 * Used(nodes), PMax(ps), 250);
    Quotient(1000 * Used(nodes), PMax(ps), 1);
  }

  lemma Quotient(x: nat, m: nat, t: nat)
    requires m > 0
    ensures x / m >= t <==> x >= t * m
  {
    assert x == m * (x / m) + x % m;
    if x / m < t {
      MulBelow(x / m, t, m);
    } else {
      assert t * m <= (x / m) * m;
    }
  }

  /** A page is left alone, and a neighbour can spare a node, as `UnderfullPages` says. */
  lemma EnoughIs(ps: PageSize, leaf: bool, nodes: seq<Node>)
    ensures Enough(ps, leaf, nodes) <==> !Underfull(ps, leaf, nodes)
    ensures MoreThanEnough(ps, leaf, nodes) <==> Spares(ps, leaf, nodes)
    ensures Enough(ps, leaf, nodes) ==> |nodes| >= MinKeys(leaf)
  {
    FillFrom(ps, nodes);
    hide PageFill, Used;
  }

  lemma JoinedBare(leaf: bool, l: seq<Node>, r: seq<Node>, low: Key)
    requires Kind(leaf, r)
    ensures Bare(Joined(leaf, l, r, low)) == Bare(l) + Bare(r)
  {}

  /** The page and its neighbour, as `UnderfullPages` sees them. */
  lemma PairIs(ps: PageSize, stack: seq<Frame>, p: Page, i: nat, low: Key, depth: nat, total: seq<Node>, leaves: nat,
               branches: nat)
    requires Placing(ps, stack, p, depth, total, leaves, branches) && stack != [] && Used(p.nodes) <= PMax(ps)
    requires i == LeftIndex(stack[|stack| - 1])
    ensures var f := stack[|stack| - 1];
            && f.ki < |f.nodes| && i + 1 < |f.nodes|
            && var up := Filled(f, p);
            && up[i].Link? && up[i + 1].Link? && Kind(p.leaf, up[i + 1].page.nodes)
            && Pair(stack, p, stack[..|stack| - 1], up, i, JoinedAt(up, i, p.leaf, low))
            && Beside1(f) < |f.nodes| && f.nodes[Beside1(f)] == up[if f.ki != 0 then i else i + 1]
  {
    hide *;
    LeftIs(stack[|stack| - 1]);
    FindNeighbours(ps, stack, p, i, depth, total, leaves, branches);
    PlacingFramed(ps, stack, p, depth, total, leaves, branches);
    var up := Filled(stack[|stack| - 1], p);
    UpNeighbours(ps, stack[..|stack| - 1], up, i, p.leaf, depth, total, leaves, branches);
    LevelParts(ps, stack[..|stack| - 1], up, i, p.leaf, low);
    JoinedBare(p.leaf, up[i].page.nodes, up[i + 1].page.nodes, low);
    PairIf(stack, p, i, JoinedAt(up, i, p.leaf, low));
  }

  lemma PairIf(stack: seq<Frame>, p: Page, i: nat, all: seq<Node>)
    requires Framed(stack) && stack != []
    requires var f := stack[|stack| - 1];
             && f.ki < |f.nodes| && i == LeftIndex(f) && i + 1 < |f.nodes|
             && var up := Filled(f, p);
             && up[i].Link? && up[i + 1].Link? && Bare(all) == Bare(up[i].page.nodes) + Bare(up[i + 1].page.nodes)
    ensures var f := stack[|stack| - 1];
            && Pair(stack, p, stack[..|stack| - 1], Filled(f, p), i, all)
            && Beside1(f) < |f.nodes| && f.nodes[Beside1(f)] == Filled(f, p)[if f.ki != 0 then i else i + 1]
  {
    hide Bare;
  }

  lemma BorrowsIs(ps: PageSize, stack: seq<Frame>, p: Page, rest: seq<Frame>, up: seq<Node>, i: nat, low: Key, s: nat)
    requires i + 1 < |up| && up[i].Link? && up[i + 1].Link? && Kind(p.leaf, up[i + 1].page.nodes) && stack != []
    requires Pair(stack, p, rest, up, i, JoinedAt(up, i, p.leaf, low))
    requires var f := stack[|stack| - 1];
             && Beside1(f) < |f.nodes| && f.nodes[Beside1(f)] == up[if f.ki != 0 then i else i + 1]
             && Spares(ps, p.leaf, (if f.ki != 0 then up[i] else up[i + 1]).page.nodes) && s == Cut(up[i].page.nodes, f.ki != 0)
    ensures Borrows(ps, stack, p, rest, up, i, JoinedAt(up, i, p.leaf, low), s)
  {
    hide Pair, Spares, MoreThanEnough, Kind, JoinedAt;
    EnoughIs(ps, p.leaf, (if stack[|stack| - 1].ki != 0 then up[i] else up[i + 1]).page.nodes);
    PairParts(stack, p, rest, up, i, JoinedAt(up, i, p.leaf, low));
  }

  lemma MergesIs(ps: PageSize, stack: seq<Frame>, p: Page, rest: seq<Frame>, up: seq<Node>, i: nat, low: Key)
    requires i + 1 < |up| && up[i].Link? && up[i + 1].Link? && Kind(p.leaf, up[i + 1].page.nodes) && stack != []
    requires Pair(stack, p, rest, up, i, JoinedAt(up, i, p.leaf, low))
    requires var f := stack[|stack| - 1];
             && Beside1(f) < |f.nodes| && f.nodes[Beside1(f)] == up[if f.ki != 0 then i else i + 1]
             && !Spares(ps, p.leaf, (if f.ki != 0 then up[i] else up[i + 1]).page.nodes)
    ensures Merges(ps, stack, p, rest, up, i, JoinedAt(up, i, p.leaf, low))
  {
    hide Pair, Spares, MoreThanEnough, Kind, JoinedAt;
    EnoughIs(ps, p.leaf, (if stack[|stack| - 1].ki != 0 then up[i] else up[i + 1]).page.nodes);
    PairParts(stack, p, rest, up, i, JoinedAt(up, i, p.leaf, low));
  }

  lemma MergedIs(up: seq<Node>, i: nat, p: Page)
    requires i + 1 < |up|
    ensures Merged(up, i, p) == Replace(up, i, i + 2, [Link(up[i].key, p)])
  {}

  /** The page above with its separator placed anew. */
  lemma BorrowedPlaced(ps: PageSize, rest: seq<Frame>, up: seq<Node>, i: nat, leaf: bool, all: seq<Node>, s: nat, root: Page, k: int)
    requires i + 1 < |up| && up[i].Link? && s < |all| && (!leaf ==> all[s].Link?) && Used(up) <= PMax(ps)
    requires var n := Link(all[s].key, Page(leaf, RightNodes(leaf, all, s)));
             var nodes := Remove(up[i := Link(up[i].key, Page(leaf, all[..s]))], i + 1);
             i + 1 <= |nodes| && Placed(ps, rest, false, nodes, i + 1, n, root, k)
    ensures RowsKept(rest, Anew(up, i, leaf, all, s, all[s].key), root, k)
  {
    hide Used, RowsKept, Parted, RightNodes;
    BorrowedParts(ps, up, i, leaf, all, s);
    AnewIs(up, i, leaf, all, s, all[s].key);
    BorrowedIs(up, i, leaf, all, s);
  }

  lemma BorrowedIs(up: seq<Node>, i: nat, leaf: bool, all: seq<Node>, s: nat)
    requires i + 1 < |up| && s < |all| && (!leaf ==> all[s].Link?)
    ensures Borrowed(up, i, leaf, all, s)
            == Replace(up, i, i + 2, [Link(up[i].key, Page(leaf, all[..s])), Link(all[s].key, Page(leaf, RightNodes(leaf, all, s)))])
  {}

  // ---------------------------------------------------------------- methods

  lemma MoveLeafLeft(l: seq<Node>, r: seq<Node>, low: Key)
    requires |l| > 0
    ensures var all, s := Joined(true, l, r, low), |l| - 1;
            |all| == |l| + |r| && all[..s] == l[..s] && RightNodes(true, all, s) == [l[s]] + r && all[s] == l[s]
  {}

  lemma MoveBranchLeft(l: seq<Node>, r: seq<Node>, low: Key)
    requires |l| > 0 && Kind(false, l) && Kind(false, r)
    ensures var all, s := Joined(false, l, r, low), |l| - 1;
            |all| == |l| + |r| && all[s] == l[s] && all[..s] == l[..s]
            && RightNodes(false, all, s) == [Link([], l[s].page)] + r[0 := Link(low, r[0].page)]
  {
    var all, s := Joined(false, l, r, low), |l| - 1;
    assert all[s + 1..] == [Link(low, r[0].page)] + r[1..];
    assert r[0 := Link(low, r[0].page)] == [Link(low, r[0].page)] + r[1..];
  }

  lemma MoveLeafRight(l: seq<Node>, r: seq<Node>, low: Key)
    requires |r| > 1
    ensures var all, s := Joined(true, l, r, low), |l| + 1;
            |all| == |l| + |r| && all[..s] == l + [r[0]] && RightNodes(true, all, s) == r[1..] && all[s] == r[1]
  {}

  lemma MoveBranchRight(l: seq<Node>, r: seq<Node>, low: Key)
    requires |r| > 1 && Kind(false, l) && Kind(false, r)
    ensures var all, s := Joined(false, l, r, low), |l| + 1;
            |all| == |l| + |r| && all[s] == r[1] && all[..s] == l + [Link(low, r[0].page)]
            && RightNodes(false, all, s) == r[1..][0 := Link([], r[1].page)]
  {
    var all, s := Joined(false, l, r, low), |l| + 1;
    assert all[s + 1..] == r[2..];
    assert r[1..][0 := Link([], r[1].page)] == [Link([], r[1].page)] + r[2..];
  }

  lemma KindLinks(nodes: seq<Node>)
    requires Kind(false, nodes)
    ensures |nodes| > 0 && forall i | 0 <= i < |nodes| :: nodes[i].Link?
  {}

  lemma CutAt(l: seq<Node>)
    ensures Cut(l, true) == |l| - 1 && Cut(l, false) == |l| + 1
  {}

  /** `mdb_node_move`: move the last node of the left page, or the first of the right one. */
  method NodeMove(leaf: bool, l: seq<Node>, r: seq<Node>, low: Key, fromLeft: bool)
    returns (left: seq<Node>, sep: Key, right: seq<Node>)
    requires Kind(leaf, l) && Kind(leaf, r)
    requires if fromLeft then |l| > 0 else |r| > 1
    ensures var all, s := Joined(leaf, l, r, low), Cut(l, fromLeft);
            && 0 <= s < |all| && (!leaf ==> all[s].Link?)
            && left == all[..s] && right == RightNodes(leaf, all, s) && sep == all[s].key
  {
    hide *;
    CutAt(l);
    if !leaf {
      KindLinks(l);
      KindLinks(r);
    }
    if fromLeft {
      if leaf { MoveLeafLeft(l, r, low); } else { MoveBranchLeft(l, r, low); }
      var srcnode := l[|l| - 1];
      var dst := r;
      if !leaf {
        dst := r[0 := Link(low, r[0].page)];
      }
      sep := srcnode.key;
      right := [if leaf then srcnode else Link([], srcnode.page)] + dst;
      left := l[..|l| - 1];
    } else {
      if leaf { MoveLeafRight(l, r, low); } else { MoveBranchRight(l, r, low); }
      var srcnode := r[0];
      if !leaf {
        srcnode := Link(low, r[0].page);
      }
      left := l + [srcnode];
      right := r[1..];
      sep := right[0].key;
      if !leaf {
        right := right[0 := Link([], right[0].page)];
      }
    }
  }

  /** `mdb_page_merge`: add the nodes of the right page to the left one. */
  method PageMerge(ps: PageSize, leaf: bool, dst: seq<Node>, src: seq<Node>, low: Key) returns (page: seq<Node>)
    requires Kind(leaf, src) && Used(Joined(leaf, dst, src, low)) <= PMax(ps)
    ensures page == Joined(leaf, dst, src, low)
  {
    hide Used;
    ghost var all := Joined(leaf, dst, src, low);
    page := dst;
    assert all[..|dst|] == dst;
    PrefixUsed(all, |dst|);
    var i := 0;
    while i < |src|
      invariant 0 <= i <= |src|
      invariant page == all[..|dst| + i] && Used(page) <= PMax(ps)
    {
      var node := if i == 0 && !leaf then Link(low, src[0].page) else src[i];
      assert all[..|dst| + i + 1] == all[..|dst| + i] + [node];
      PrefixUsed(all, |dst| + i + 1);
      var ok;
      ok, page := NodeAdd(ps, page, node);
      assert ok;
      i := i + 1;
    }
    assert all[..|dst| + i] == all;
  }

  /** The chosen neighbour, at one level of the loop. */
  lemma LevelParts(ps: PageSize, rest: seq<Frame>, up: seq<Node>, i: nat, leaf: bool, low: Key)
    requires i + 1 < |up| && up[i].Link? && up[i + 1].Link? && Kind(leaf, up[i + 1].page.nodes)
    ensures JoinedAt(up, i, leaf, low) == Joined(leaf, up[i].page.nodes, up[i + 1].page.nodes, low)
  {}

  /** `mdb_rebalance`, from the page at the bottom of the stack up.  Fails exactly when it gets stuck, and
      then some page above is lopsided. */
  method Rebalance(ps: PageSize, stack0: seq<Frame>, p0: Page, depth0: nat, leaves0: nat, branches0: nat,
                   ghost total: seq<Node>)
    returns (rc: Rc, empty: bool, root: Page, depth: nat, leaves: nat, branches: nat)
    requires Placing(ps, stack0, p0, depth0, total, leaves0, branches0) && Used(p0.nodes) <= PMax(ps)
    ensures rc == Success && empty ==> total == [] && depth == 0 && leaves == 0 && branches == 0
    ensures rc == Success && !empty ==> TreeOk(ps, root, depth, total, leaves, branches)
    ensures rc == PageFull ==> exists f :: f in stack0 && Lopsided(ps, f.nodes)
    ensures rc == PageFull <==> MergeStuck(ps, stack0, p0)
    ensures rc == Success ==> Rebalanced(ps, stack0, p0, if empty then None else Some(root), depth - depth0)
  {
    hide *;
    var stack, p := stack0, p0;
    depth, leaves, branches := depth0, leaves0, branches0;
    rc, empty, root := Success, false, p;
    PlacingFramed(ps, stack, p, depth, total, leaves, branches);
    OnStart(ps, stack, p);
    while true
      invariant RebalanceOn(ps, stack0, p0, stack, p) && depth == depth0
      invariant Placing(ps, stack, p, depth, total, leaves, branches) && Used(p.nodes) <= PMax(ps)
      invariant rc == Success && !empty && stack <= stack0
      invariant MergeStuck(ps, stack0, p0) == MergeStuck(ps, stack, p)
      decreases |stack|
    {
      if !Underfull(ps, p.leaf, p.nodes) || stack == [] {
        NotMergeStuck(ps, stack, p);
        empty, root, depth, leaves, branches := Stop(ps, stack0, p0, stack, p, depth, leaves, branches, total);
        return;
      }
      var f := stack[|stack| - 1];
      var i: nat := if f.ki == 0 then 0 else f.ki - 1;
      var fromLeft := f.ki != 0;
      LeftIs(f);
      FindNeighbours(ps, stack, p, i, depth, total, leaves, branches);
      ghost var rest := stack[..|stack| - 1];
      var up := Filled(f, p);
      MergeStuckUp(ps, stack, p);
      UpNeighbours(ps, rest, up, i, p.leaf, depth, total, leaves, branches);
      UnderfullSide(ps, f, p, up, i);
      var low := LowBelow(ps, rest, up, i, p.leaf, depth, total, leaves, branches);
      LevelParts(ps, rest, up, i, p.leaf, low);
      var l, r := up[i].page.nodes, up[i + 1].page.nodes;
      EnoughIs(ps, p.leaf, p.nodes);
      PairIs(ps, stack, p, i, low, depth, total, leaves, branches);
      if Spares(ps, p.leaf, if fromLeft then l else r) {
        MoveReady(ps, rest, up, i, p.leaf, depth, total, leaves, branches, low, fromLeft);
        ghost var s: nat := Cut(l, fromLeft);
        BorrowsIs(ps, stack, p, rest, up, i, low, s);
        BorrowStuck(ps, rest, up, i, p.leaf, fromLeft, low);
        var left, sep, right := NodeMove(p.leaf, l, r, low, fromLeft);
        var n := Link(sep, Page(p.leaf, right));
        var nodes := Remove(up[i := Link(up[i].key, Page(p.leaf, left))], i + 1);
        ParentLopsided(ps, f, p, i, Page(p.leaf, left));
        assert f in stack0;
        TwoKeys();
        rc, root, depth, leaves, branches :=
          Place(ps, stack[..|stack| - 1], false, nodes, i + 1, n, depth, leaves, branches, total);
        if rc == Success {
          BorrowedPlaced(ps, rest, up, i, p.leaf, JoinedAt(up, i, p.leaf, low), s, root, depth - depth0);
          OnBorrowed(ps, stack0, p0, stack, p, rest, up, i, JoinedAt(up, i, p.leaf, low), s, sep, root, depth - depth0);
        }
        return;
      }
      MergeReady(ps, rest, up, i, p.leaf, depth, total, leaves, branches, low, fromLeft);
      MergesIs(ps, stack, p, rest, up, i, low);
      OnMerged(ps, stack0, p0, stack, p, rest, up, i, JoinedAt(up, i, p.leaf, low), up[i].key);
      MergedIs(up, i, Page(p.leaf, JoinedAt(up, i, p.leaf, low)));
      MergedStuck(ps, rest, up, i, p.leaf, fromLeft, low);
      var page := PageMerge(ps, p.leaf, l, r, low);
      leaves, branches := leaves - (if p.leaf then 1 else 0), branches - (if p.leaf then 0 else 1);
      stack, p := stack[..|stack| - 1], Page(false, Merged(up, i, Page(p.leaf, page)));
    }
  }

  lemma TwoKeys()
    ensures MinKeys(false) == 2 && MinKeys(true) == 1
  {}

  lemma LeftIs(f: Frame)
    ensures LeftIndex(f) == if f.ki == 0 then 0 else f.ki - 1
  {}

  /** The underfull page is the one the frame's index names. */
  lemma UnderfullSide(ps: PageSize, f: Frame, p: Page, up: seq<Node>, i: nat)
    requires f.ki < |f.nodes| && f.nodes[f.ki].Link? && up == Filled(f, p) && i + 1 < |up| && i == LeftIndex(f)
    ensures up[if f.ki != 0 then i + 1 else i] == Link(f.nodes[f.ki].key, p)
  {}

  /** There is nothing to rebalance, or the page is the root, which may vanish. */
  method Stop(ps: PageSize, ghost stack0: seq<Frame>, ghost p0: Page, stack: seq<Frame>, p: Page, depth0: nat, leaves0: nat, branches0: nat, ghost total: seq<Node>)
    returns (empty: bool, root: Page, depth: nat, leaves: nat, branches: nat)
    requires Placing(ps, stack, p, depth0, total, leaves0, branches0) && Used(p.nodes) <= PMax(ps)
    requires !Underfull(ps, p.leaf, p.nodes) || stack == []
    requires RebalanceOn(ps, stack0, p0, stack, p)
    ensures empty ==> total == [] && depth == 0 && leaves == 0 && branches == 0
    ensures !empty ==> TreeOk(ps, root, depth, total, leaves, branches)
    ensures Rebalanced(ps, stack0, p0, if empty then None else Some(root), depth - depth0)
  {
    hide *;
    TwoKeys();
    EnoughIs(ps, p.leaf, p.nodes);
    OnStop(ps, stack0, p0, stack, p);
    empty, root, depth, leaves, branches := false, p, depth0, leaves0, branches0;
    if !Underfull(ps, p.leaf, p.nodes) || |p.nodes| >= MinKeys(p.leaf) {
      FullEnough(ps, p.leaf, p.nodes);
      PlaceDone(ps, stack, p, depth, total, leaves, branches);
      root := Zip(stack, p);
    } else if p.nodes == [] {
      EmptyRoot(ps, p, depth, total, leaves, branches);
      empty, depth, leaves := true, 0, 0;
      OnEmpty(ps, stack0, p0, p, depth - depth0);
    } else {
      CollapseRoot(ps, p, depth, total, leaves, branches);
      OnCollapsed(ps, stack0, p0, p);
      root, depth, branches := p.nodes[0].page, depth - 1, branches - 1;
    }
  }

  lemma UpNeighbours(ps: PageSize, rest: seq<Frame>, up: seq<Node>, i: nat, leaf: bool, depth: nat, total: seq<Node>,
                     leaves: nat, branches: nat)
    requires UpReady(ps, rest, up, i, leaf, depth, total, leaves, branches)
    ensures i + 1 < |up| && up[i].Link? && up[i + 1].Link?
    ensures Kind(leaf, up[i].page.nodes) && Kind(leaf, up[i + 1].page.nodes) && Used(up) <= PMax(ps)
  {
    hide Used, Kind;
  }

  /** A leaf page that has too little: after a borrow there are as many leaf pages, after a merge there is one less. */
  lemma LeavesAfter(ps: PageSize, stack: seq<Frame>, p0: Page, p: Page, depth: nat, root: Page, k: int)
    requires Framed(stack) && stack != [] && |stack| + 1 == depth && depth + k >= 0
    requires Good(ps, Zip(stack, p0), depth, 0.0, 1.0) && Good(ps, root, depth + k, 0.0, 1.0)
    requires Rebalanced(ps, stack, p, Some(root), k) && !Enough(ps, p.leaf, p.nodes)
    ensures var f := stack[|stack| - 1];
            && Beside1(f) < |f.nodes| && f.nodes[Beside1(f)].Link?
            && PagesAt(root, true) == PagesAt(Zip(stack, p0), true)
                                      - if MoreThanEnough(ps, p.leaf, f.nodes[Beside1(f)].page.nodes) then 0 else 1
  {
    hide *;
    FramedZips(stack);
    RefilledOf(ps, stack, p, root, k);
    LeafCount(ps, root, depth + k);
    LeafCount(ps, Zip(stack, p0), depth);
    ZipRow(stack, p0, |stack|);
    HereFrom(stack, p0.nodes);
    RefilledCount(ps, stack, p, Row(root.nodes, |stack| + k));
  }
}
