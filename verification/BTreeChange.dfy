/** Local changes of the tree that keep it well formed: what a split, a borrow and a merge put
    in the place of links of one branch page. */
module BTreeChange {
  import opened Keys
  import opened BTree
  import opened BTreeSplit

  /** Link t of a group that takes the place of links of a branch page; the group spans [lo, hi)
      and holds the page's first link when `first`. */
  ghost predicate GroupKid(ps: PageSize, mid: seq<Node>, t: nat, first: bool, h: nat, lo: real, hi: real)
    requires t < |mid|
  {
    && mid[t].Link? && |mid[t].key| <= MAXKEY && (mid[t].key == [] <==> first && t == 0)
    && LoAt(mid, t, lo) < HiAt(mid, t, hi)
    && h > 0 && Good(ps, mid[t].page, h - 1, LoAt(mid, t, lo), HiAt(mid, t, hi))
  }

  ghost predicate GroupOk(ps: PageSize, mid: seq<Node>, first: bool, h: nat, lo: real, hi: real) {
    |mid| > 0 && forall t | 0 <= t < |mid| :: GroupKid(ps, mid, t, first, h, lo, hi)
  }

  function Replace(nodes: seq<Node>, i: nat, j: nat, mid: seq<Node>): seq<Node>
    requires i <= j <= |nodes|
  {
    nodes[..i] + mid + nodes[j..]
  }

  lemma ReplaceKids(ps: PageSize, nodes: seq<Node>, i: nat, j: nat, mid: seq<Node>, h: nat, lo: real, hi: real)
    requires i < j <= |nodes| && |mid| > 0 && mid[0].key == nodes[i].key
    requires forall k | 0 <= k < |nodes| && !(i <= k < j) :: KidOk(ps, nodes, k, h, lo, hi)
    requires GroupOk(ps, mid, i == 0, h, LoAt(nodes, i, lo), HiAt(nodes, j - 1, hi))
    ensures forall k | 0 <= k < |Replace(nodes, i, j, mid)| :: KidOk(ps, Replace(nodes, i, j, mid), k, h, lo, hi)
  {
    var r := Replace(nodes, i, j, mid);
    forall k | 0 <= k < |r| ensures KidOk(ps, r, k, h, lo, hi) {
      if i <= k < i + |mid| {
        ReplaceInside(ps, nodes, i, j, mid, h, lo, hi, k);
      } else {
        ReplaceOutside(ps, nodes, i, j, mid, h, lo, hi, k);
      }
    }
  }

  lemma ReplaceInside(ps: PageSize, nodes: seq<Node>, i: nat, j: nat, mid: seq<Node>, h: nat, lo: real, hi: real, k: nat)
    requires i < j <= |nodes| && |mid| > 0 && mid[0].key == nodes[i].key && i <= k < i + |mid|
    requires GroupKid(ps, mid, k - i, i == 0, h, LoAt(nodes, i, lo), HiAt(nodes, j - 1, hi))
    ensures KidOk(ps, Replace(nodes, i, j, mid), k, h, lo, hi)
  {
    hide Good;
    var r := Replace(nodes, i, j, mid);
    var t := k - i;
    assert r[k] == mid[t];
    assert LoAt(r, k, lo) == LoAt(mid, t, LoAt(nodes, i, lo));
    assert HiAt(r, k, hi) == HiAt(mid, t, HiAt(nodes, j - 1, hi)) by {
      if t + 1 < |mid| { assert r[k + 1] == mid[t + 1]; } else if j < |nodes| { assert r[k + 1] == nodes[j]; }
    }
    assert LinkOk(r, k);
  }

  lemma ReplaceOutside(ps: PageSize, nodes: seq<Node>, i: nat, j: nat, mid: seq<Node>, h: nat, lo: real, hi: real, k: nat)
    requires i < j <= |nodes| && |mid| > 0 && mid[0].key == nodes[i].key
    requires k < |nodes| - (j - i) + |mid| && !(i <= k < i + |mid|)
    requires forall k | 0 <= k < |nodes| && !(i <= k < j) :: KidOk(ps, nodes, k, h, lo, hi)
    ensures KidOk(ps, Replace(nodes, i, j, mid), k, h, lo, hi)
  {
    hide Good;
    var r := Replace(nodes, i, j, mid);
    var o := if k < i then k else k - |mid| + (j - i);
    assert r[k] == nodes[o];
    assert KidOk(ps, nodes, o, h, lo, hi);
    assert LoAt(r, k, lo) == LoAt(nodes, o, lo);
    assert HiAt(r, k, hi) == HiAt(nodes, o, hi) by {
      if k + 1 == i {
        assert r[k + 1] == mid[0];
      } else if o + 1 < |nodes| {
        assert r[k + 1] == nodes[o + 1];
      }
    }
    assert LinkOk(r, k);
  }

  lemma ReplaceSums(nodes: seq<Node>, i: nat, j: nat, mid: seq<Node>, leaf: bool)
    requires i <= j <= |nodes|
    ensures Flat(Replace(nodes, i, j, mid)) == Flat(nodes[..i]) + Flat(mid) + Flat(nodes[j..])
    ensures Pages(Replace(nodes, i, j, mid), leaf) == Pages(nodes[..i], leaf) + Pages(mid, leaf) + Pages(nodes[j..], leaf)
    ensures Used(Replace(nodes, i, j, mid)) == Used(nodes[..i]) + Used(mid) + Used(nodes[j..])
  {
    FlatAppend(nodes[..i] + mid, nodes[j..]);
    FlatAppend(nodes[..i], mid);
    PagesAppend(nodes[..i] + mid, nodes[j..], leaf);
    PagesAppend(nodes[..i], mid, leaf);
    UsedAppend(nodes[..i] + mid, nodes[j..]);
    UsedAppend(nodes[..i], mid);
  }

  lemma PairSums(a: Node, b: Node, leaf: bool)
    requires a.Link? && b.Link?
    ensures Flat([a, b]) == Flat(a.page.nodes) + Flat(b.page.nodes)
    ensures Pages([a, b], leaf) == PagesAt(a.page, leaf) + PagesAt(b.page, leaf)
  {
    assert [a, b] == [a] + [b];
    FlatAppend([a], [b]);
    FlatLink(a);
    FlatLink(b);
    PagesAppend([a], [b], leaf);
    PagesLink(a, leaf);
    PagesLink(b, leaf);
  }

  /** Two good pages on either side of a separator. */
  lemma PairGroup(ps: PageSize, key: Key, left: Page, sep: Key, right: Page, first: bool, h: nat, lo: real, hi: real)
    requires h > 0 && Good(ps, left, h - 1, lo, Rank(sep)) && Good(ps, right, h - 1, Rank(sep), hi)
    requires lo < Rank(sep) < hi && 1 <= |sep| <= MAXKEY && |key| <= MAXKEY && (key == [] <==> first)
    ensures GroupOk(ps, [Link(key, left), Link(sep, right)], first, h, lo, hi)
  {
    hide Good;
    var mid := [Link(key, left), Link(sep, right)];
    assert GroupKid(ps, mid, 0, first, h, lo, hi);
    assert GroupKid(ps, mid, 1, first, h, lo, hi);
  }

  // ---------------------------------------------------------------- splitting

  /** The nodes of a well-formed page are small enough to be split. */
  lemma ArrangedSmall(ps: PageSize, p: Page, h: nat, lo: real, hi: real)
    requires Arranged(ps, p, h, lo, hi)
    ensures SmallNodes(ps, p.leaf, p.nodes)
  {
    if p.leaf {
      forall i | 0 <= i < |p.nodes|
        ensures p.nodes[i].Item? && Room(p.nodes[i]) <= NodeMax(ps) + 2
      {
        assert ItemOk(ps, p.nodes[i]);
      }
    } else {
      BranchKids(ps, p, h, lo, hi);
      forall i | 0 <= i < |p.nodes|
        ensures p.nodes[i].Link? && Room(p.nodes[i]) <= Even(NODESIZE + MAXKEY) + 2
      {
        assert KidOk(ps, p.nodes, i, h, lo, hi);
      }
    }
  }

  /** Both halves of a split are good, on either side of the separator. */
  lemma SplitGood(ps: PageSize, leaf: bool, all: seq<Node>, s: nat, h: nat, lo: real, hi: real)
    requires Arranged(ps, Page(leaf, all), h, lo, hi) && SplitFits(ps, leaf, all, s)
    ensures Good(ps, Page(leaf, all[..s]), h, lo, Rank(all[s].key))
    ensures Good(ps, Page(leaf, RightNodes(leaf, all, s)), h, Rank(all[s].key), hi)
    ensures lo < Rank(all[s].key) < hi && 1 <= |all[s].key| <= MAXKEY
  {
    if leaf {
      SplitLeaf(ps, all, s, lo, hi);
    } else {
      SplitBranch(ps, all, s, h, lo, hi);
    }
  }

  lemma SplitLeaf(ps: PageSize, all: seq<Node>, s: nat, lo: real, hi: real)
    requires LeafOk(ps, all, lo, hi) && SplitFits(ps, true, all, s)
    ensures Good(ps, Page(true, all[..s]), 1, lo, Rank(all[s].key))
    ensures Good(ps, Page(true, all[s..]), 1, Rank(all[s].key), hi)
    ensures lo < Rank(all[s].key) < hi && 1 <= |all[s].key| <= MAXKEY
  {
    assert ItemOk(ps, all[s]);
    assert Rank(all[0].key) < Rank(all[s].key);
    assert LeafOk(ps, all[..s], lo, Rank(all[s].key));
    assert LeafOk(ps, all[s..], Rank(all[s].key), hi);
  }

  lemma SplitBranch(ps: PageSize, all: seq<Node>, s: nat, h: nat, lo: real, hi: real)
    requires h > 1 && BranchOk(ps, all, h, lo, hi) && SplitFits(ps, false, all, s)
    ensures Good(ps, Page(false, all[..s]), h, lo, Rank(all[s].key))
    ensures Good(ps, Page(false, RightNodes(false, all, s)), h, Rank(all[s].key), hi)
    ensures lo < Rank(all[s].key) < hi && 1 <= |all[s].key| <= MAXKEY
  {
    var left, right := all[..s], RightNodes(false, all, s);
    BranchKids(ps, Page(false, all), h, lo, hi);
    KidsInOrder(ps, all, h, lo, hi, 0, s);
    KidsInOrder(ps, all, h, lo, hi, s, |all|);
    assert KidOk(ps, all, s, h, lo, hi);
    forall k | 0 <= k < s ensures KidOk(ps, left, k, h, lo, Rank(all[s].key)) {
      KidGood(ps, all, k, h, lo, hi);
      assert LoAt(left, k, lo) == LoAt(all, k, lo) && HiAt(left, k, Rank(all[s].key)) == HiAt(all, k, hi);
      assert Good(ps, left[k].page, h - 1, LoAt(left, k, lo), HiAt(left, k, Rank(all[s].key)));
    }
    BranchArranged(ps, left, h, lo, Rank(all[s].key));
    forall k | 0 <= k < |right| ensures KidOk(ps, right, k, h, Rank(all[s].key), hi) {
      KidGood(ps, all, s + k, h, lo, hi);
      assert LoAt(right, k, Rank(all[s].key)) == LoAt(all, s + k, lo) && HiAt(right, k, hi) == HiAt(all, s + k, hi);
      assert Good(ps, right[k].page, h - 1, LoAt(right, k, Rank(all[s].key)), HiAt(right, k, hi));
    }
    BranchArranged(ps, right, h, Rank(all[s].key), hi);
  }

  /** A split neither loses nor reorders items, nor pages below. */
  lemma SplitSums(leaf: bool, all: seq<Node>, s: nat, kind: bool)
    requires s < |all| && (!leaf ==> all[s].Link?)
    ensures Flat(all[..s]) + Flat(RightNodes(leaf, all, s)) == Flat(all)
    ensures Pages(all[..s], kind) + Pages(RightNodes(leaf, all, s), kind) == Pages(all, kind)
  {
    assert all == all[..s] + all[s..];
    FlatAppend(all[..s], all[s..]);
    PagesAppend(all[..s], all[s..], kind);
    if !leaf {
      var bare := Link([], all[s].page);
      assert all[s..] == [all[s]] + all[s + 1..];
      FlatAppend([all[s]], all[s + 1..]);
      FlatAppend([bare], all[s + 1..]);
      FlatLink(all[s]);
      FlatLink(bare);
      PagesAppend([all[s]], all[s + 1..], kind);
      PagesAppend([bare], all[s + 1..], kind);
      PagesLink(all[s], kind);
      PagesLink(bare, kind);
    }
  }

  // ---------------------------------------------------------------- lowest key

  /** The key of the first item below a page. */
  ghost function Lowest(p: Page): Key
    requires |Flat(p.nodes)| > 0
  {
    Flat(p.nodes)[0].key
  }

  lemma {:induction false} GoodNonEmpty(ps: PageSize, p: Page, h: nat, lo: real, hi: real)
    requires Arranged(ps, p, h, lo, hi) && |p.nodes| > 0
    ensures |Flat(p.nodes)| > 0 && Flat(p.nodes)[0].Item? && lo <= Rank(Lowest(p)) < hi
    decreases h
  {
    PageInOrder(ps, p, h, lo, hi);
    if p.leaf {
      FlatLeaf(p.nodes);
    } else {
      FirstKid(ps, p, h, lo, hi);
      GoodNonEmpty(ps, p.nodes[0].page, h - 1, lo, HiAt(p.nodes, 0, hi));
    }
  }

  /** The first child, and where its items are. */
  lemma FirstKid(ps: PageSize, p: Page, h: nat, lo: real, hi: real)
    requires Arranged(ps, p, h, lo, hi) && !p.leaf
    ensures h > 1 && |p.nodes| > 0 && KidOk(ps, p.nodes, 0, h, lo, hi)
    ensures p.nodes[0].Link? && Good(ps, p.nodes[0].page, h - 1, lo, HiAt(p.nodes, 0, hi))
    ensures Flat(p.nodes) == Flat(p.nodes[0].page.nodes) + Flat(p.nodes[1..])
  {
    BranchKids(ps, p, h, lo, hi);
    KidGood(ps, p.nodes, 0, h, lo, hi);
    FlatAt(p.nodes, 0);
    FlatLink(p.nodes[0]);
    assert p.nodes[..0] == [];
  }

  /** The lowest key is a lower bound of the page, as good as the separator was. */
  lemma {:induction false} RaiseLow(ps: PageSize, p: Page, h: nat, lo: real, hi: real)
    requires Arranged(ps, p, h, lo, hi) && |p.nodes| > 0
    ensures |Flat(p.nodes)| > 0 && lo <= Rank(Lowest(p)) < hi && 1 <= |Lowest(p)| <= MAXKEY
    ensures Arranged(ps, p, h, Rank(Lowest(p)), hi)
    decreases h
  {
    GoodNonEmpty(ps, p, h, lo, hi);
    var low := Rank(Lowest(p));
    if p.leaf {
      FlatLeaf(p.nodes);
      assert ItemOk(ps, p.nodes[0]);
      assert LeafOk(ps, p.nodes, low, hi);
    } else {
      FirstKid(ps, p, h, lo, hi);
      var kid := p.nodes[0].page;
      RaiseLow(ps, kid, h - 1, lo, HiAt(p.nodes, 0, hi));
      assert Lowest(kid) == Lowest(p);
      BranchKids(ps, p, h, lo, hi);
      forall k | 0 <= k < |p.nodes| ensures KidOk(ps, p.nodes, k, h, low, hi) {
        KidGood(ps, p.nodes, k, h, lo, hi);
        assert k > 0 ==> LoAt(p.nodes, k, low) == LoAt(p.nodes, k, lo);
      }
      BranchArranged(ps, p.nodes, h, low, hi);
    }
  }

  /** `mdb_page_search_lowest`: follow the first links down to a leaf. */
  method LowestKey(ps: PageSize, p: Page, ghost h: nat, ghost lo: real, ghost hi: real) returns (key: Key)
    requires Arranged(ps, p, h, lo, hi) && |p.nodes| > 0
    ensures |Flat(p.nodes)| > 0 && key == Lowest(p)
  {
    var q := p;
    ghost var g, top := h, hi;
    GoodNonEmpty(ps, p, h, lo, hi);
    while !q.leaf
      invariant Arranged(ps, q, g, lo, top) && |q.nodes| > 0
      invariant |Flat(q.nodes)| > 0 && Lowest(q) == Lowest(p)
      decreases g
    {
      FirstKid(ps, q, g, lo, top);
      GoodNonEmpty(ps, q.nodes[0].page, g - 1, lo, HiAt(q.nodes, 0, top));
      top := HiAt(q.nodes, 0, top);
      q := q.nodes[0].page;
      g := g - 1;
    }
    FlatLeaf(q.nodes);
    key := q.nodes[0].key;
  }
}
