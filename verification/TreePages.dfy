/** Which pages the databases of a write transaction take: every change of a tree (mdb_page_touch,
    mdb_page_split, mdb_page_merge, mdb_node_move, mdb_rebalance, mdb_node_add, mdb_node_del, mdb_drop,
    mdb.c) takes and gives back exactly the pages that enter and leave the trees. */
module TreePages {
  import opened Options
  import opened Keys
  import IdSort
  import opened PageTrees
  import opened TouchPath
  import opened PageUnits
  import PageLists
  import TxnPages
  import Moves = PageMoves
  import DropWalk
  import Seqs

  // ---------------------------------------------------------------- one page with all below it

  /** The tree with another page, and all below it, at the end of the path. */
  function Put(t: Tree, path: seq<nat>, s: Tree): Tree
    requires PathIn(t, path)
    decreases |path|
  {
    if path == [] then s
    else
      var n := t.nodes[path[0]];
      t.(nodes := t.nodes[path[0] := Link(n.key, Put(n.page, path[1..], s))])
  }

  /** What changes is the pages below the path. */
  lemma {:induction false} PutBag(t: Tree, path: seq<nat>, s: Tree)
    requires PathIn(t, path)
    ensures Bag(Put(t, path, s)) + Bag(At(t, path)) == Bag(t) + Bag(s)
    decreases |path|
  {
    if path != [] {
      var k, c := path[0], t.nodes[path[0]].page;
      var r := Put(t, path, s);
      PutBag(c, path[1..], s);
      BagLink(t, k);
      BagLink(r, k);
      assert r.nodes[..k] == t.nodes[..k] && r.nodes[k + 1..] == t.nodes[k + 1..];
      hide *;
      Exchange(Bags(t.nodes[..k]), Bag(c), Bag(r.nodes[k].page), Bags(t.nodes[k + 1..]), multiset{t.pgno},
               Bag(At(t, path)), Bag(s));
    }
  }

  lemma {:induction false} PartBag(t: Tree, path: seq<nat>)
    requires PathIn(t, path)
    ensures Bag(At(t, path)) <= Bag(t)
    decreases |path|
  {
    if path != [] {
      PartBag(t.nodes[path[0]].page, path[1..]);
      BagLink(t, path[0]);
    }
  }

  // ---------------------------------------------------------------- changes of one page

  /** The first node with another key; on a branch page the first link has none. */
  function Keyed(ns: seq<Node>, key: Key): seq<Node>
    requires ns != []
  {
    ns[0 := ns[0].(key := key)]
  }

  function RightPart(leaf: bool, ns: seq<Node>, s: nat): seq<Node>
    requires s < |ns|
  {
    if leaf then ns[s..] else Keyed(ns[s..], [])
  }

  /** Two neighbours as one: the first link of the right one gets the lowest key below it. */
  function Joined(leaf: bool, l: seq<Node>, r: seq<Node>, low: Key): seq<Node>
    requires leaf || r != []
  {
    if leaf then l + r else l + Keyed(r, low)
  }

  /** Links k and k + 1 lead to two pages of this kind. */
  predicate Neighbours(p: Tree, k: nat) {
    && k + 1 < |p.nodes| && p.nodes[k].Link? && p.nodes[k + 1].Link?
    && p.nodes[k].page.leaf == p.nodes[k + 1].page.leaf
    && (p.nodes[k].page.leaf || p.nodes[k + 1].page.nodes != [])
  }

  function JoinedAt(p: Tree, k: nat, low: Key): seq<Node>
    requires Neighbours(p, k)
  {
    Joined(p.nodes[k].page.leaf, p.nodes[k].page.nodes, p.nodes[k + 1].page.nodes, low)
  }

  /** Child k split before its node s; the right half is page np. */
  function SplitKid(p: Tree, k: nat, s: nat, np: Pgno): Tree
    requires k < |p.nodes| && p.nodes[k].Link? && s < |p.nodes[k].page.nodes|
  {
    var c := p.nodes[k].page;
    var left := Link(p.nodes[k].key, c.(nodes := c.nodes[..s]));
    var right := Link(c.nodes[s].key, Tree(np, c.leaf, RightPart(c.leaf, c.nodes, s)));
    p.(nodes := p.nodes[..k] + ([left] + [right]) + p.nodes[k + 1..])
  }

  /** Children k and k + 1 with their nodes parted anew, before node s of both. */
  function MoveKid(p: Tree, k: nat, low: Key, s: nat): Tree
    requires Neighbours(p, k) && s < |JoinedAt(p, k, low)|
  {
    var l, r, all := p.nodes[k].page, p.nodes[k + 1].page, JoinedAt(p, k, low);
    var left := Link(p.nodes[k].key, l.(nodes := all[..s]));
    var right := Link(all[s].key, r.(nodes := RightPart(l.leaf, all, s)));
    p.(nodes := p.nodes[..k] + ([left] + [right]) + p.nodes[k + 2..])
  }

  /** Child k + 1 merged into child k. */
  function MergeKids(p: Tree, k: nat, low: Key): Tree
    requires Neighbours(p, k)
  {
    var l := p.nodes[k].page;
    p.(nodes := p.nodes[..k] + [Link(p.nodes[k].key, l.(nodes := JoinedAt(p, k, low)))] + p.nodes[k + 2..])
  }

  function AddAt(p: Tree, at: nat, n: Node): Tree
    requires at <= |p.nodes|
  {
    p.(nodes := p.nodes[..at] + [n] + p.nodes[at..])
  }

  function SetAt(p: Tree, at: nat, n: Node): Tree
    requires at < |p.nodes|
  {
    p.(nodes := p.nodes[at := n])
  }

  function DelAt(p: Tree, at: nat): Tree
    requires at < |p.nodes|
  {
    p.(nodes := p.nodes[..at] + p.nodes[at + 1..])
  }

  // ---------------------------------------------------------------- the pages of each

  lemma Bags3(a: seq<Node>, b: seq<Node>, c: seq<Node>)
    ensures Bags(a + b + c) == Bags(a) + Bags(b) + Bags(c)
  {
    BagsAppend(a + b, c);
    BagsAppend(a, b);
  }

  lemma LinkBags(key: Key, t: Tree)
    ensures Bags([Link(key, t)]) == Bags(t.nodes) + multiset{t.pgno}
  {
    BagsOne(Link(key, t));
    BagIs(t);
  }

  lemma KeyedBags(ns: seq<Node>, key: Key)
    requires ns != []
    ensures Bags(Keyed(ns, key)) == Bags(ns)
  {
    var m := Keyed(ns, key);
    assert m == [m[0]] + ns[1..] && ns == [ns[0]] + ns[1..];
    BagsAppend([m[0]], ns[1..]);
    BagsAppend([ns[0]], ns[1..]);
    BagsOne(m[0]);
    BagsOne(ns[0]);
  }

  lemma RightBags(leaf: bool, ns: seq<Node>, s: nat)
    requires s < |ns|
    ensures Bags(ns[..s]) + Bags(RightPart(leaf, ns, s)) == Bags(ns)
  {
    assert ns == ns[..s] + ns[s..];
    BagsAppend(ns[..s], ns[s..]);
    KeyedBags(ns[s..], []);
  }

  lemma JoinedBags(leaf: bool, l: seq<Node>, r: seq<Node>, low: Key)
    requires leaf || r != []
    ensures Bags(Joined(leaf, l, r, low)) == Bags(l) + Bags(r)
  {
    BagsAppend(l, r);
    if !leaf {
      KeyedBags(r, low);
      BagsAppend(l, Keyed(r, low));
    }
  }

  lemma CutNodes(ns: seq<Node>, i: nat, j: nat)
    requires i <= j <= |ns|
    ensures Bags(ns) == Bags(ns[..i]) + Bags(ns[i..j]) + Bags(ns[j..])
  {
    assert ns == ns[..i] + ns[i..j] + ns[j..];
    Bags3(ns[..i], ns[i..j], ns[j..]);
  }

  /** The pages of a pair of links. */
  lemma PairBags(a: Node, b: Node)
    requires a.Link? && b.Link?
    ensures Bags([a] + [b]) == Bags(a.page.nodes) + Bags(b.page.nodes) + multiset{a.page.pgno} + multiset{b.page.pgno}
  {
    BagsAppend([a], [b]);
    LinkBags(a.key, a.page);
    LinkBags(b.key, b.page);
  }

  /** A split takes one page. */
  lemma SplitBag(p: Tree, k: nat, s: nat, np: Pgno)
    requires k < |p.nodes| && p.nodes[k].Link? && s < |p.nodes[k].page.nodes|
    ensures Bag(SplitKid(p, k, s, np)) == Bag(p) + multiset{np}
  {
    var c := p.nodes[k].page;
    var left := Link(p.nodes[k].key, c.(nodes := c.nodes[..s]));
    var right := Link(c.nodes[s].key, Tree(np, c.leaf, RightPart(c.leaf, c.nodes, s)));
    assert p.nodes[k..k + 1] == [Link(p.nodes[k].key, c)];
    hide Bag, Bags;
    BagIs(p);
    BagIs(SplitKid(p, k, s, np));
    CutNodes(p.nodes, k, k + 1);
    LinkBags(p.nodes[k].key, c);
    Bags3(p.nodes[..k], [left] + [right], p.nodes[k + 1..]);
    PairBags(left, right);
    RightBags(c.leaf, c.nodes, s);
  }

  lemma PairAt(p: Tree, k: nat)
    requires Neighbours(p, k)
    ensures var l, r := p.nodes[k].page, p.nodes[k + 1].page;
            Bags(p.nodes) == Bags(p.nodes[..k]) + (Bags(l.nodes) + Bags(r.nodes) + multiset{l.pgno} + multiset{r.pgno})
                             + Bags(p.nodes[k + 2..])
  {
    CutNodes(p.nodes, k, k + 2);
    assert p.nodes[k..k + 2] == [p.nodes[k]] + [p.nodes[k + 1]];
    PairBags(p.nodes[k], p.nodes[k + 1]);
  }

  /** A borrow takes and frees nothing. */
  lemma MoveBag(p: Tree, k: nat, low: Key, s: nat)
    requires Neighbours(p, k) && s < |JoinedAt(p, k, low)|
    ensures Bag(MoveKid(p, k, low, s)) == Bag(p)
  {
    var l, r, all := p.nodes[k].page, p.nodes[k + 1].page, JoinedAt(p, k, low);
    var left := Link(p.nodes[k].key, l.(nodes := all[..s]));
    var right := Link(all[s].key, r.(nodes := RightPart(l.leaf, all, s)));
    hide Bag, Bags;
    BagIs(p);
    BagIs(MoveKid(p, k, low, s));
    PairAt(p, k);
    Bags3(p.nodes[..k], [left] + [right], p.nodes[k + 2..]);
    PairBags(left, right);
    RightBags(l.leaf, all, s);
    JoinedBags(l.leaf, l.nodes, r.nodes, low);
  }

  /** A merge frees the right page. */
  lemma MergeBag(p: Tree, k: nat, low: Key)
    requires Neighbours(p, k)
    ensures Bag(MergeKids(p, k, low)) + multiset{p.nodes[k + 1].page.pgno} == Bag(p)
  {
    var l, r, all := p.nodes[k].page, p.nodes[k + 1].page, JoinedAt(p, k, low);
    hide Bag, Bags;
    BagIs(p);
    BagIs(MergeKids(p, k, low));
    PairAt(p, k);
    Bags3(p.nodes[..k], [Link(p.nodes[k].key, l.(nodes := all))], p.nodes[k + 2..]);
    LinkBags(p.nodes[k].key, l.(nodes := all));
    JoinedBags(l.leaf, l.nodes, r.nodes, low);
  }

  lemma AddBag(p: Tree, at: nat, n: Node)
    requires at <= |p.nodes|
    ensures Bag(AddAt(p, at, n)) == Bag(p) + multiset(UsedByNode(n, true))
  {
    BagIs(p);
    BagIs(AddAt(p, at, n));
    assert p.nodes == p.nodes[..at] + p.nodes[at..];
    BagsAppend(p.nodes[..at], p.nodes[at..]);
    Bags3(p.nodes[..at], [n], p.nodes[at..]);
    BagsOne(n);
  }

  lemma DelBag(p: Tree, at: nat)
    requires at < |p.nodes|
    ensures Bag(DelAt(p, at)) + multiset(UsedByNode(p.nodes[at], true)) == Bag(p)
  {
    BagIs(p);
    BagIs(DelAt(p, at));
    BagsAround(p.nodes, at);
    BagsAppend(p.nodes[..at], p.nodes[at + 1..]);
  }

  /** A value replaced on the pages it has. */
  lemma SetBag(p: Tree, at: nat, n: Node)
    requires at < |p.nodes|
    requires var old' := p.nodes[at];
             (old'.Plain? && n.Plain?) || (old'.Big? && n.Big? && n.pgno == old'.pgno && |n.chunks| == |old'.chunks|)
    ensures Bag(SetAt(p, at, n)) == Bag(p)
  {
    var q := SetAt(p, at, n);
    BagIs(p);
    BagIs(q);
    assert UsedByNode(n, true) == UsedByNode(p.nodes[at], true);
    BagsAround(p.nodes, at);
    BagsAround(q.nodes, at);
    assert q.nodes[..at] == p.nodes[..at] && q.nodes[at + 1..] == p.nodes[at + 1..];
  }

  /** A new root above the tree. */
  function Rooted(t: Tree, np: Pgno): Tree {
    Tree(np, false, [Link([], t)])
  }

  lemma RootedBag(t: Tree, np: Pgno)
    ensures Bag(Rooted(t, np)) == Bag(t) + multiset{np}
  {
    BagIs(Rooted(t, np));
    LinkBags([], t);
    BagIs(t);
  }

  /** The number of overflow pages a node takes, the same in either order. */
  lemma {:induction false} RunBag(p: nat, n: nat)
    requires p + n <= IdSort.ID_MAX
    ensures multiset(Range(p, n)) == multiset(PageLists.Pages(p, n))
    decreases n
  {
    if n > 0 {
      RunBag(p, n - 1);
      assert Range(p, n) == Range(p, n - 1) + [p + n - 1];
      assert PageLists.Pages(p, n) == [p + n - 1] + PageLists.Pages(p, n - 1);
    } else {
      assert Range(p, n) == [] && PageLists.Pages(p, n) == [];
    }
  }

  // ---------------------------------------------------------------- what each of them rewrites

  /** What is in a child is in the page. */
  lemma KidUnits(p: Tree, k: nat, u: Extent)
    requires k < |p.nodes| && p.nodes[k].Link? && In(u, p.nodes[k].page)
    ensures In(u, p)
  {
    assert InNode(u, p.nodes[k]);
  }

  lemma KidPlace(p: Tree, k: nat, leaf: bool, entries: seq<Shown>, dirty: set<nat>)
    requires k < |p.nodes| && p.nodes[k].Link? && p.nodes[k].page.pgno in dirty
    ensures InPlace(PageUnit(p.nodes[k].page.pgno, leaf, entries), p, dirty)
  {
    hide *;
    var c := p.nodes[k].page;
    OwnPlace(c, leaf, entries, dirty);
    forall v | In(v, c) ensures In(v, p) { KidUnits(p, k, v); }
    InPlaceUp(PageUnit(c.pgno, leaf, entries), c, p, dirty);
  }

  lemma KeyedUnits(ns: seq<Node>, key: Key, u: Extent)
    requires ns != [] && ns[0].Link?
    ensures InAll(u, Keyed(ns, key)) <==> InAll(u, ns)
  {
    var m := Keyed(ns, key);
    assert m == [Link(key, ns[0].page)] + ns[1..] && ns == [ns[0]] + ns[1..];
    hide *;
    InAppend(u, [Link(key, ns[0].page)], ns[1..]);
    InAppend(u, [ns[0]], ns[1..]);
    InLink(u, key, ns[0].page);
    InLink(u, ns[0].key, ns[0].page);
  }

  /** Either half has nodes of the page. */
  lemma RightUnits(leaf: bool, ns: seq<Node>, s: nat, u: Extent)
    requires s < |ns| && (!leaf ==> ns[s].Link?)
    requires InAll(u, ns[..s]) || InAll(u, RightPart(leaf, ns, s))
    ensures InAll(u, ns)
  {
    assert ns == ns[..s] + ns[s..];
    hide InAll;
    InAppend(u, ns[..s], ns[s..]);
    if !leaf { KeyedUnits(ns[s..], [], u); }
  }

  lemma JoinedUnits(leaf: bool, l: seq<Node>, r: seq<Node>, low: Key, u: Extent)
    requires leaf || (r != [] && r[0].Link?)
    requires InAll(u, Joined(leaf, l, r, low))
    ensures InAll(u, l) || InAll(u, r)
  {
    hide InAll;
    if leaf {
      InAppend(u, l, r);
    } else {
      InAppend(u, l, Keyed(r, low));
      KeyedUnits(r, low, u);
    }
  }

  /** A page with other nodes. */
  lemma NodesRewrites(p: Tree, nodes: seq<Node>, dirty: set<nat>, pg: Pgno, n: nat)
    requires p.pgno in dirty
    requires forall u | InAll(u, nodes) :: InAll(u, p.nodes) || InPlace(u, p, dirty) || OnNew(u, pg, n)
    ensures Rewrites(p, p.(nodes := nodes), dirty, pg, n)
  {
    var s := p.(nodes := nodes);
    hide *;
    forall u | In(u, s) ensures In(u, p) || InPlace(u, p, dirty) || OnNew(u, pg, n) {
      InParts(u, s);
      InParts(u, p);
      OwnPlace(p, p.leaf, Shows(nodes), dirty);
    }
    RewritesIf(p, s, dirty, pg, n);
  }

  /** Nodes i to j replaced. */
  lemma MidRewrites(p: Tree, i: nat, j: nat, mid: seq<Node>, dirty: set<nat>, pg: Pgno, n: nat)
    requires p.pgno in dirty && i <= j <= |p.nodes|
    requires forall u | InAll(u, mid) :: InAll(u, p.nodes) || InPlace(u, p, dirty) || OnNew(u, pg, n)
    ensures Rewrites(p, p.(nodes := p.nodes[..i] + mid + p.nodes[j..]), dirty, pg, n)
  {
    hide *;
    var nodes := p.nodes[..i] + mid + p.nodes[j..];
    forall u | InAll(u, nodes) ensures InAll(u, p.nodes) || InPlace(u, p, dirty) || OnNew(u, pg, n) {
      InAppend(u, p.nodes[..i] + mid, p.nodes[j..]);
      InAppend(u, p.nodes[..i], mid);
      InCut(u, p.nodes, i, j);
    }
    NodesRewrites(p, nodes, dirty, pg, n);
  }

  /** A child with other nodes, which are nodes of its own or of the page. */
  lemma LinkRewrites(p: Tree, k: nat, key: Key, nodes: seq<Node>, dirty: set<nat>, u: Extent)
    requires k < |p.nodes| && p.nodes[k].Link? && p.nodes[k].page.pgno in dirty
    requires InAll(u, nodes) ==> In(u, p)
    ensures InAll(u, [Link(key, p.nodes[k].page.(nodes := nodes))]) ==> In(u, p) || InPlace(u, p, dirty)
  {
    hide *;
    var c := p.nodes[k].page;
    InLink(u, key, c.(nodes := nodes));
    InParts(u, c.(nodes := nodes));
    KidPlace(p, k, c.leaf, Shows(nodes), dirty);
  }

  lemma KidNodes(p: Tree, k: nat, u: Extent)
    requires k < |p.nodes| && p.nodes[k].Link? && InAll(u, p.nodes[k].page.nodes)
    ensures InAll(u, p.nodes) && In(u, p)
  {
    hide *;
    InParts(u, p.nodes[k].page);
    InParts(u, p);
    KidIn(p.nodes, k, u);
  }

  lemma KidIn(ns: seq<Node>, k: nat, u: Extent)
    requires k < |ns| && ns[k].Link? && In(u, ns[k].page)
    ensures InAll(u, ns)
  {
    assert InNode(u, ns[k]);
  }

  /** What is below a page is in its nodes, unless it is the page itself. */
  lemma BelowOrSelf(p: Tree, u: Extent, dirty: set<nat>)
    requires In(u, p) && p.pgno in dirty
    ensures InAll(u, p.nodes) || InPlace(u, p, dirty)
  {
    hide *;
    InParts(u, p);
    if !InAll(u, p.nodes) { OwnPlace(p, p.leaf, Shows(p.nodes), dirty); }
  }

  lemma SplitRewrites(p: Tree, k: nat, s: nat, np: Pgno, dirty: set<nat>)
    requires k < |p.nodes| && p.nodes[k].Link? && s < |p.nodes[k].page.nodes| && p.pgno in dirty
    requires var c := p.nodes[k].page; c.pgno in dirty && (!c.leaf ==> c.nodes[s].Link?)
    ensures Rewrites(p, SplitKid(p, k, s, np), dirty, np, 1)
  {
    var c := p.nodes[k].page;
    var right := Tree(np, c.leaf, RightPart(c.leaf, c.nodes, s));
    var a, b := Link(p.nodes[k].key, c.(nodes := c.nodes[..s])), Link(c.nodes[s].key, right);
    forall u | InAll(u, [a] + [b]) ensures InAll(u, p.nodes) || InPlace(u, p, dirty) || OnNew(u, np, 1) {
      hide *;
      InAppend(u, [a], [b]);
      InLink(u, c.nodes[s].key, right);
      InParts(u, right);
      if InAll(u, c.nodes[..s]) || InAll(u, right.nodes) {
        RightUnits(c.leaf, c.nodes, s, u);
        KidNodes(p, k, u);
      }
      LinkRewrites(p, k, p.nodes[k].key, c.nodes[..s], dirty, u);
      if In(u, p) { BelowOrSelf(p, u, dirty); }
      NewUnit(np, c.leaf, Shows(right.nodes));
    }
    hide *;
    MidRewrites(p, k, k + 1, [a] + [b], dirty, np, 1);
    SplitIs(p, k, s, np);
  }

  lemma NewUnit(np: Pgno, leaf: bool, entries: seq<Shown>)
    ensures OnNew(PageUnit(np, leaf, entries), np, 1)
  {}

  lemma SplitIs(p: Tree, k: nat, s: nat, np: Pgno)
    requires k < |p.nodes| && p.nodes[k].Link? && s < |p.nodes[k].page.nodes|
    ensures var c := p.nodes[k].page;
            var a := Link(p.nodes[k].key, c.(nodes := c.nodes[..s]));
            var b := Link(c.nodes[s].key, Tree(np, c.leaf, RightPart(c.leaf, c.nodes, s)));
            SplitKid(p, k, s, np) == p.(nodes := p.nodes[..k] + ([a] + [b]) + p.nodes[k + 1..])
  {}

  lemma MoveRewrites(p: Tree, k: nat, low: Key, s: nat, dirty: set<nat>)
    requires Neighbours(p, k) && s < |JoinedAt(p, k, low)|
    requires {p.pgno, p.nodes[k].page.pgno, p.nodes[k + 1].page.pgno} <= dirty
    requires !p.nodes[k].page.leaf ==> p.nodes[k + 1].page.nodes[0].Link? && JoinedAt(p, k, low)[s].Link?
    ensures Rewrites(p, MoveKid(p, k, low, s), dirty, 0, 0)
  {
    var l, r, all := p.nodes[k].page, p.nodes[k + 1].page, JoinedAt(p, k, low);
    var right := RightPart(l.leaf, all, s);
    var a, b := Link(p.nodes[k].key, l.(nodes := all[..s])), Link(all[s].key, r.(nodes := right));
    forall u | InAll(u, [a] + [b]) ensures InAll(u, p.nodes) || InPlace(u, p, dirty) || OnNew(u, 0, 0) {
      hide *;
      InAppend(u, [a], [b]);
      if InAll(u, all[..s]) || InAll(u, right) {
        RightUnits(l.leaf, all, s, u);
        AllUnits(p, k, low, u);
      }
      LinkRewrites(p, k, p.nodes[k].key, all[..s], dirty, u);
      LinkRewrites(p, k + 1, all[s].key, right, dirty, u);
      if In(u, p) { BelowOrSelf(p, u, dirty); }
    }
    hide *;
    MidRewrites(p, k, k + 2, [a] + [b], dirty, 0, 0);
    MoveIs(p, k, low, s);
  }

  lemma MoveIs(p: Tree, k: nat, low: Key, s: nat)
    requires Neighbours(p, k) && s < |JoinedAt(p, k, low)|
    ensures var l, r, all := p.nodes[k].page, p.nodes[k + 1].page, JoinedAt(p, k, low);
            var a, b := Link(p.nodes[k].key, l.(nodes := all[..s])), Link(all[s].key, r.(nodes := RightPart(l.leaf, all, s)));
            MoveKid(p, k, low, s) == p.(nodes := p.nodes[..k] + ([a] + [b]) + p.nodes[k + 2..])
  {}

  /** What is below the two pages as one is below the page above. */
  lemma AllUnits(p: Tree, k: nat, low: Key, u: Extent)
    requires Neighbours(p, k) && InAll(u, JoinedAt(p, k, low))
    requires !p.nodes[k].page.leaf ==> p.nodes[k + 1].page.nodes[0].Link?
    ensures InAll(u, p.nodes) && In(u, p)
  {
    var l, r := p.nodes[k].page, p.nodes[k + 1].page;
    hide InAll, In, Joined;
    JoinedUnits(l.leaf, l.nodes, r.nodes, low, u);
    if InAll(u, l.nodes) { KidNodes(p, k, u); } else { KidNodes(p, k + 1, u); }
  }

  lemma MergeRewrites(p: Tree, k: nat, low: Key, dirty: set<nat>)
    requires Neighbours(p, k) && {p.pgno, p.nodes[k].page.pgno} <= dirty
    requires !p.nodes[k].page.leaf ==> p.nodes[k + 1].page.nodes[0].Link?
    ensures Rewrites(p, MergeKids(p, k, low), dirty, 0, 0)
  {
    var l, all := p.nodes[k].page, JoinedAt(p, k, low);
    var a := Link(p.nodes[k].key, l.(nodes := all));
    forall u | InAll(u, [a]) ensures InAll(u, p.nodes) || InPlace(u, p, dirty) || OnNew(u, 0, 0) {
      hide *;
      if InAll(u, all) { AllUnits(p, k, low, u); }
      LinkRewrites(p, k, p.nodes[k].key, all, dirty, u);
      if In(u, p) { BelowOrSelf(p, u, dirty); }
    }
    hide *;
    MidRewrites(p, k, k + 2, [a], dirty, 0, 0);
    MergeIs(p, k, low);
  }

  lemma MergeIs(p: Tree, k: nat, low: Key)
    requires Neighbours(p, k)
    ensures MergeKids(p, k, low)
            == p.(nodes := p.nodes[..k] + [Link(p.nodes[k].key, p.nodes[k].page.(nodes := JoinedAt(p, k, low)))] + p.nodes[k + 2..])
  {}

  lemma AddRewrites(p: Tree, at: nat, n: Node, dirty: set<nat>)
    requires at <= |p.nodes| && p.pgno in dirty && (n.Plain? || n.Big?)
    ensures n.Plain? ==> Rewrites(p, AddAt(p, at, n), dirty, 0, 0)
    ensures n.Big? ==> Rewrites(p, AddAt(p, at, n), dirty, n.pgno, |n.chunks|)
  {
    hide Rewrites, InAll, In, InPlace;
    var pg, k := if n.Big? then n.pgno else 0, if n.Big? then |n.chunks| else 0;
    forall u | InAll(u, [n]) ensures OnNew(u, pg, k) { InOne(u, n); }
    MidRewrites(p, at, at, [n], dirty, pg, k);
  }

  lemma DelRewrites(p: Tree, at: nat, dirty: set<nat>)
    requires at < |p.nodes| && p.pgno in dirty
    ensures Rewrites(p, DelAt(p, at), dirty, 0, 0)
  {
    hide Rewrites, InAll, In, InPlace;
    forall u ensures !InAll(u, []) { InNone(u); }
    MidRewrites(p, at, at + 1, [], dirty, 0, 0);
    assert p.nodes[..at] + [] + p.nodes[at + 1..] == p.nodes[..at] + p.nodes[at + 1..];
  }

  lemma SetRewrites(p: Tree, at: nat, n: Node, dirty: set<nat>)
    requires at < |p.nodes| && p.pgno in dirty
    requires var old' := p.nodes[at];
             || (old'.Plain? && n.Plain?)
             || (old'.Big? && n.Big? && n.pgno == old'.pgno && |n.chunks| == |old'.chunks| && n.pgno in dirty)
    ensures Rewrites(p, SetAt(p, at, n), dirty, 0, 0)
  {
    forall u | InAll(u, [n]) ensures InPlace(u, p, dirty) {
      InOne(u, n);
      var v := RunUnit(n.pgno, p.nodes[at].chunks);
      assert InNode(v, p.nodes[at]);
      assert In(v, p) && SamePlace(u, v);
    }
    assert p.nodes[at := n] == p.nodes[..at] + [n] + p.nodes[at + 1..];
    hide *;
    MidRewrites(p, at, at + 1, [n], dirty, 0, 0);
    SetIs(p, at, n);
  }

  lemma SetIs(p: Tree, at: nat, n: Node)
    requires at < |p.nodes|
    ensures SetAt(p, at, n) == p.(nodes := p.nodes[at := n])
  {}

  /** A page under another number. */
  lemma NumberRewrites(t: Tree, np: Pgno, dirty: set<nat>)
    ensures Rewrites(t, t.(pgno := np), dirty, np, 1)
  {
    hide *;
    forall u | In(u, t.(pgno := np)) ensures In(u, t) || OnNew(u, np, 1) {
      InParts(u, t);
      InParts(u, t.(pgno := np));
      NewUnit(np, t.leaf, Shows(t.nodes));
    }
    RewritesIf(t, t.(pgno := np), dirty, np, 1);
  }

  lemma RootedRewrites(t: Tree, np: Pgno, dirty: set<nat>)
    ensures Rewrites(t, Rooted(t, np), dirty, np, 1)
  {
    var r := Rooted(t, np);
    hide *;
    forall u | In(u, r) ensures In(u, t) || OnNew(u, np, 1) {
      RootedIs(t, np);
      InParts(u, r);
      InLink(u, [], t);
      NewUnit(np, false, Shows(r.nodes));
    }
    RewritesIf(t, r, dirty, np, 1);
  }

  lemma RootedIs(t: Tree, np: Pgno)
    ensures Rooted(t, np) == Tree(np, false, [Link([], t)])
  {}

  lemma CollapseRewrites(t: Tree, dirty: set<nat>)
    requires |t.nodes| == 1 && t.nodes[0].Link?
    ensures Rewrites(t, t.nodes[0].page, dirty, 0, 0)
  {
    hide *;
    forall u | In(u, t.nodes[0].page) ensures In(u, t) { KidUnits(t, 0, u); }
    RewritesIf(t, t.nodes[0].page, dirty, 0, 0);
  }

  /** The page at the end of the path keeps its number, or the one above it may be written. */
  ghost predicate LinkOk(t: Tree, path: seq<nat>, np: Pgno, dirty: set<nat>)
    requires PathIn(t, path)
  {
    || path == [] || np == At(t, path).pgno
    || (PathIn(t, path[..|path| - 1]) && At(t, path[..|path| - 1]).pgno in dirty)
  }

  lemma {:induction false} PutRewrites(t: Tree, path: seq<nat>, s: Tree, dirty: set<nat>, pg: Pgno, n: nat)
    requires PathIn(t, path) && Rewrites(At(t, path), s, dirty, pg, n) && LinkOk(t, path, s.pgno, dirty)
    ensures Rewrites(t, Put(t, path, s), dirty, pg, n)
    decreases |path|
  {
    if path != [] {
      var k, rest := path[0], path[1..];
      var c := t.nodes[k].page;
      hide Rewrites;
      if rest != [] { assert path[..|path| - 1][1..] == rest[..|rest| - 1]; }
      PutRewrites(c, rest, s, dirty, pg, n);
      ChildRewrites(t, k, Put(c, rest, s), dirty, pg, n);
    }
  }

  // ---------------------------------------------------------------- all databases

  ghost function OptBag(t: Option<Tree>): multiset<Pgno> {
    if t.Some? then Bag(t.value) else multiset{}
  }

  /** The pages of all databases. */
  ghost function BagOf(dbs: seq<Option<Tree>>): multiset<Pgno> {
    if dbs == [] then multiset{} else OptBag(dbs[0]) + BagOf(dbs[1..])
  }

  lemma BagOfCons(dbs: seq<Option<Tree>>)
    requires dbs != []
    ensures BagOf(dbs) == OptBag(dbs[0]) + BagOf(dbs[1..])
  {}

  lemma {:induction false} BagOfSet(dbs: seq<Option<Tree>>, d: nat, x: Option<Tree>)
    requires d < |dbs|
    ensures BagOf(dbs[d := x]) + OptBag(dbs[d]) == BagOf(dbs) + OptBag(x)
    decreases |dbs|
  {
    hide *;
    var r := dbs[d := x];
    BagOfCons(dbs);
    BagOfCons(r);
    if d == 0 {
      assert r[1..] == dbs[1..];
      Swap(OptBag(x), BagOf(dbs[1..]), OptBag(dbs[0]));
    } else {
      assert r[1..] == dbs[1..][d - 1 := x];
      BagOfSet(dbs[1..], d - 1, x);
      Seqs.BagAssoc(OptBag(dbs[0]), BagOf(r[1..]), OptBag(dbs[d]));
      Seqs.BagAssoc(OptBag(dbs[0]), BagOf(dbs[1..]), OptBag(x));
    }
  }

  lemma Swap(a: multiset<Pgno>, b: multiset<Pgno>, c: multiset<Pgno>)
    ensures (a + b) + c == (c + b) + a
  {}

  /** A change of one page, as far as the pages of all databases go. */
  lemma ChangeBag(dbs: seq<Option<Tree>>, d: nat, path: seq<nat>, s: Tree)
    requires d < |dbs| && dbs[d].Some? && PathIn(dbs[d].value, path)
    ensures BagOf(dbs[d := Some(Put(dbs[d].value, path, s))]) + Bag(At(dbs[d].value, path)) == BagOf(dbs) + Bag(s)
    ensures Bag(At(dbs[d].value, path)) <= BagOf(dbs)
  {
    var t := dbs[d].value;
    BagOfSet(dbs, d, Some(Put(t, path, s)));
    PutBag(t, path, s);
    PartBag(t, path);
    PartOf(dbs, d);
    hide *;
    Cancel(BagOf(dbs[d := Some(Put(t, path, s))]), Bag(t), BagOf(dbs), Bag(Put(t, path, s)), Bag(At(t, path)), Bag(s));
  }

  lemma Cancel(a: multiset<Pgno>, b: multiset<Pgno>, c: multiset<Pgno>, d: multiset<Pgno>, e: multiset<Pgno>, f: multiset<Pgno>)
    requires a + b == c + d && d + e == b + f
    ensures a + e == c + f
  {
    forall x ensures (a + e)[x] == (c + f)[x] {
      assert (a + b)[x] == (c + d)[x];
      assert (d + e)[x] == (b + f)[x];
    }
  }

  lemma {:induction false} PartOf(dbs: seq<Option<Tree>>, d: nat)
    requires d < |dbs| && dbs[d].Some?
    ensures Bag(dbs[d].value) <= BagOf(dbs)
    decreases |dbs|
  {
    hide Bag;
    BagOfCons(dbs);
    if d > 0 { PartOf(dbs[1..], d - 1); }
  }

  // ---------------------------------------------------------------- the transaction

  /** From the pages `was` that could be written, with the n pages from pg on as new ones. */
  ghost predicate Fresh(dbs: seq<Option<Tree>>, was: set<nat>, dirty: set<nat>, own: set<Pgno>, pg: Pgno, n: nat) {
    && dirty <= was + (if n > 0 then {pg} else {})
    && (n > 0 ==> pg in dirty && pg !in BagOf(dbs) && forall q | q in Range(pg, n) :: q in own)
  }

  /** A unit of a database takes pages that are in use. */
  lemma HasBag(dbs: seq<Option<Tree>>, d: nat, u: Extent)
    requires HasUnit(dbs, d, u)
    ensures forall p | p in PagesOf(u) :: p in BagOf(dbs)
    ensures !u.RecordUnit? ==> u.pgno in BagOf(dbs)
  {
    hide *;
    HasUnitIf(dbs, d, u);
    UnitBag(u, dbs[d].value);
    PartOf(dbs, d);
    if !u.RecordUnit? { OwnNumber(u); }
  }

  lemma FreshIf(dbs: seq<Option<Tree>>, was: set<nat>, dirty: set<nat>, own: set<Pgno>, pg: Pgno, n: nat)
    ensures Fresh(dbs, was, dirty, own, pg, n)
       <==> && dirty <= was + (if n > 0 then {pg} else {})
            && (n > 0 ==> pg in dirty && pg !in BagOf(dbs) && forall q | q in Range(pg, n) :: q in own)
  {
    hide BagOf, Range;
  }

  /** A change of one database on pages that may be written. */
  lemma StepKeeps(a: seq<Option<Tree>>, b: seq<Option<Tree>>, d: nat, was: set<nat>, dirty: set<nat>, own: set<Pgno>,
                  pg: Pgno, n: nat)
    requires Stepped(a, b, d, was, pg, n) && Owns(a, was, own) && Fresh(a, was, dirty, own, pg, n)
    requires forall p | p in was && p !in dirty :: p !in BagOf(b)
    ensures Owns(b, dirty, own) && Kept(a, was, b, dirty)
  {
    hide *;
    FreshIf(a, was, dirty, own, pg, n);
    forall e: nat, u | HasUnit(b, e, u) && !u.RecordUnit? && u.pgno in was ensures u.pgno in dirty { HasBag(b, e, u); }
    if n > 0 {
      forall e: nat, u | HasUnit(a, e, u) && !u.RecordUnit? ensures u.pgno != pg { HasBag(a, e, u); }
    }
    SteppedKept(a, b, d, was, dirty, pg, n);
    SteppedOwns(a, b, d, was, dirty, pg, n, own);
  }

  lemma PutStepped(dbs: seq<Option<Tree>>, d: nat, path: seq<nat>, s: Tree, dirty: set<nat>, pg: Pgno, n: nat)
    requires d < |dbs| && dbs[d].Some? && PathIn(dbs[d].value, path)
    requires Rewrites(At(dbs[d].value, path), s, dirty, pg, n) && LinkOk(dbs[d].value, path, s.pgno, dirty)
    ensures Stepped(dbs, dbs[d := Some(Put(dbs[d].value, path, s))], d, dirty, pg, n)
  {
    hide Rewrites, Put, At, LinkOk, In, InPlace, OnNew;
    var t := dbs[d].value;
    PutRewrites(t, path, s, dirty, pg, n);
    forall u | In(u, Put(t, path, s)) ensures In(u, t) || InPlace(u, t, dirty) || OnNew(u, pg, n) {
      RewritesOne(t, Put(t, path, s), dirty, pg, n, u);
    }
  }

  /** A database that is gone. */
  lemma GoneStepped(dbs: seq<Option<Tree>>, d: nat, dirty: set<nat>)
    requires d < |dbs|
    ensures Stepped(dbs, dbs[d := None], d, dirty, 0, 0)
  {}

  lemma FirstStepped(dbs: seq<Option<Tree>>, d: nat, np: Pgno, dirty: set<nat>)
    requires d < |dbs| && dbs[d].None?
    ensures Stepped(dbs, dbs[d := Some(Tree(np, true, []))], d, dirty, np, 1)
  {
    hide InPlace, In;
    var t := Tree(np, true, []);
    forall u | In(u, t) ensures OnNew(u, np, 1) {
      InParts(u, t);
      InNone(u);
    }
  }

  /** Where the overflow pages of a node go that is deleted: into me_pghead, if there is one and they were allocated in
      this transaction, and to mt_free_pgs otherwise. */
  ghost predicate NodeFreed(n: Node, fetched: bool, dirty: set<nat>, head0: seq<IdSort.Id>, freed0: seq<IdSort.Id>,
                            head: seq<IdSort.Id>, freed: seq<IdSort.Id>) {
    if n.Big? then TxnPages.RunFreed(head0, freed0, fetched && n.pgno in dirty, head, freed, n.pgno, |n.chunks|)
    else head == head0 && freed == freed0
  }

  lemma NodeFreedIf(n: Node, fetched: bool, dirty: set<nat>, head0: seq<IdSort.Id>, freed0: seq<IdSort.Id>,
                    head: seq<IdSort.Id>, freed: seq<IdSort.Id>)
    ensures NodeFreed(n, fetched, dirty, head0, freed0, head, freed)
            <==> if n.Big? then TxnPages.RunFreed(head0, freed0, fetched && n.pgno in dirty, head, freed, n.pgno, |n.chunks|)
                 else head == head0 && freed == freed0
  {
    hide TxnPages.RunFreed;
  }

  class Databases {
    const txn: TxnPages.Txn
    /** The trees of the freeDB (number 0), of the main database and of those opened in it. */
    var dbs: seq<Option<Tree>>
    /** Pages that are in no tree although they count as used. */
    ghost var lost: multiset<Pgno>

    /** The pages in use are exactly the pages of the trees, each as often, and those that are lost. */
    ghost predicate Valid()
      reads this, txn
    {
      txn.Valid() && Ours() && Guarded() && txn.used == BagOf(dbs) + lost
    }

    /** Loose pages can be written. */
    ghost predicate Ours()
      reads this, txn
    {
      forall p | p in txn.loose :: p in txn.dirty
    }

    /** The pages are those of the protocol's writer, and what may be written is on pages it may write. */
    ghost predicate Guarded()
      reads this, txn
    {
      txn.Twin() && Owns(dbs, txn.dirty, txn.w.dirty)
    }

    constructor (txn: TxnPages.Txn, dbs: seq<Option<Tree>>)
      requires txn.Valid() && txn.used == BagOf(dbs) && forall p | p in txn.loose :: p in txn.dirty
      requires txn.Twin() && Owns(dbs, txn.dirty, txn.w.dirty)
      ensures Valid() && this.txn == txn && this.dbs == dbs && lost == multiset{}
    {
      this.txn, this.dbs, lost := txn, dbs, multiset{};
    }

    /** There is a page at the end of the path in database d. */
    ghost predicate Has(d: nat, path: seq<nat>)
      reads this
    {
      d < |dbs| && dbs[d].Some? && PathIn(dbs[d].value, path)
    }

    /** The page there is one this transaction may change. */
    ghost predicate Writable(d: nat, path: seq<nat>)
      reads this, txn
    {
      Has(d, path) && At(dbs[d].value, path).pgno in txn.dirty
    }

    ghost function PageAt(d: nat, path: seq<nat>): Tree
      requires Has(d, path)
      reads this
    {
      At(dbs[d].value, path)
    }

    /** The oldest reader found is not after the one the protocol's writer has cached. */
    ghost predicate Bounded(scan: nat)
    {
      scan < txn.t && scan <= txn.lim
    }

    // ------------------------------------------------------------ pages taken and given back

    /** The pages of the trees are still those of `Valid`, and a change may use the n new pages from pg on. */
    ghost predicate Ready(was: set<nat>, pg: Pgno, n: nat)
      reads this, txn
    {
      && txn.Valid() && Ours() && txn.Twin() && Owns(dbs, was, txn.w.dirty)
      && Fresh(dbs, was, txn.dirty, txn.w.dirty, pg, n) && forall p | p in was && p !in txn.dirty :: p !in txn.used
    }

    lemma ReadyIf(was: set<nat>, pg: Pgno, n: nat)
      ensures Ready(was, pg, n)
         <==> && txn.Valid() && Ours() && txn.Twin() && Owns(dbs, was, txn.w.dirty)
              && Fresh(dbs, was, txn.dirty, txn.w.dirty, pg, n) && forall p | p in was && p !in txn.dirty :: p !in txn.used
    {
      hide Owns, Fresh, Ours;
    }

    /** Without new pages. */
    lemma ReadySame(was: set<nat>)
      requires txn.Valid() && Ours() && txn.Twin() && Owns(dbs, was, txn.w.dirty) && txn.dirty == was
      ensures Ready(was, 0, 0)
    {
      hide *;
      FreshIf(dbs, was, txn.dirty, txn.w.dirty, 0, 0);
      ReadyIf(was, 0, 0);
    }

    lemma ValidReady()
      requires Valid()
      ensures Ready(txn.dirty, 0, 0) && Kept(dbs, txn.dirty, dbs, txn.dirty)
    {
      hide *;
      ValidIf();
      ReadySame(txn.dirty);
      KeptSame(dbs, txn.dirty, txn.dirty);
    }

    /** Another tree, or none, in the place of one. */
    method Install(d: nat, t: Option<Tree>, ghost was: set<nat>, ghost pg: Pgno, ghost n: nat)
      requires d < |dbs| && Ready(was, pg, n) && Stepped(dbs, dbs[d := t], d, was, pg, n)
      requires txn.used == BagOf(dbs[d := t]) + lost
      modifies `dbs
      ensures Valid() && dbs == old(dbs)[d := t] && Kept(old(dbs), was, dbs, txn.dirty)
    {
      hide *;
      ReadyIf(was, pg, n);
      assert forall p | p in was && p !in txn.dirty :: p !in BagOf(dbs[d := t]);
      StepKeeps(dbs, dbs[d := t], d, was, txn.dirty, txn.w.dirty, pg, n);
      OursIf();
      dbs := dbs[d := t];
      OursIf();
      ValidIf();
    }

    /** Another page, with all below it, at the end of the path. */
    method Store(d: nat, path: seq<nat>, s: Tree, ghost was: set<nat>, ghost pg: Pgno, ghost n: nat)
      requires Ready(was, pg, n) && Has(d, path)
      requires txn.used + Bag(PageAt(d, path)) == (BagOf(dbs) + lost) + Bag(s)
      requires Rewrites(PageAt(d, path), s, was, pg, n) && LinkOk(dbs[d].value, path, s.pgno, was)
      modifies `dbs
      ensures Valid() && dbs == old(dbs)[d := Some(Put(old(dbs)[d].value, path, s))]
      ensures Kept(old(dbs), was, dbs, txn.dirty)
    {
      hide *;
      PageIs(d, path);
      ChangeBag(dbs, d, path, s);
      SameRest(txn.used, BagOf(dbs[d := Some(Put(dbs[d].value, path, s))]), Bag(At(dbs[d].value, path)), BagOf(dbs), Bag(s), lost);
      PutStepped(dbs, d, path, s, was, pg, n);
      Install(d, Some(Put(dbs[d].value, path, s)), was, pg, n);
    }

    lemma PageIs(d: nat, path: seq<nat>)
      requires Has(d, path)
      ensures d < |dbs| && dbs[d].Some? && PathIn(dbs[d].value, path) && PageAt(d, path) == At(dbs[d].value, path)
    {}

    /** The page at the end of the path is in use. */
    lemma InUse(d: nat, path: seq<nat>)
      requires Valid() && Has(d, path)
      ensures d < |dbs| && dbs[d].Some? && PathIn(dbs[d].value, path) && PageAt(d, path) == At(dbs[d].value, path)
      ensures txn.Valid() && Ours() && txn.used == BagOf(dbs) + lost
      ensures Bag(PageAt(d, path)) <= txn.used && PageAt(d, path).pgno in txn.used
    {
      hide *;
      ValidIf();
      PageIs(d, path);
      PartBag(dbs[d].value, path);
      PartOf(dbs, d);
      BagIs(PageAt(d, path));
    }

    /** n pages for a page of a tree or a run. */
    method Take(n: nat, scan: nat) returns (rc: TxnPages.Rc, pg: nat)
      requires Valid() && Bounded(scan) && n > 0
      modifies txn
      ensures rc != TxnPages.Success ==> Valid() && TxnPages.Short(txn, n, scan) && txn.dirty == old(txn.dirty)
      ensures rc == TxnPages.Success ==>
                Ready(old(txn.dirty), pg, n) && txn.used == (BagOf(dbs) + lost) + multiset(Range(pg, n))
      ensures old(txn.dirty) <= txn.dirty && (rc == TxnPages.Success ==> pg in txn.dirty)
      ensures TxnPages.Advances(old(TxnPages.BooksOf(txn)), TxnPages.BooksOf(txn))
    {
      hide *;
      ValidIf();
      OursIf();
      BoundedIf(scan);
      ghost var books, oldest, used, was, own := TxnPages.BooksOf(txn), txn.pgoldest, txn.used, txn.dirty, txn.w.dirty;
      BooksAre(txn);
      rc, pg := txn.Alloc(n, scan);
      Onward(txn, books, oldest, scan);
      OwnsMore(dbs, was, own, txn.w.dirty);
      OursIf();
      if rc == TxnPages.Success {
        NextIs(txn);
        RunBag(pg, n);
        UsedOnce(txn);
        NewRun(used, pg, n, txn.used);
        SpanRange(pg, n);
        NewReady(used, was, pg, n);
      } else {
        ValidIf();
      }
    }

    /** New pages are in no tree. */
    lemma NewReady(used: multiset<IdSort.Id>, was: set<nat>, pg: Pgno, n: nat)
      requires txn.Valid() && Ours() && txn.Twin() && Owns(dbs, was, txn.w.dirty) && n > 0
      requires was <= txn.dirty <= was + {pg} && pg in txn.dirty && used == BagOf(dbs) + lost
      requires forall q | q in Range(pg, n) :: q in txn.w.dirty && q !in used
      ensures Ready(was, pg, n)
    {
      hide *;
      InTrees(BagOf(dbs), lost);
      RangeFirst(pg, n);
      FreshIf(dbs, was, txn.dirty, txn.w.dirty, pg, n);
      ReadyIf(was, pg, n);
    }

    /** `mdb_page_touch`: the page gets a new number, unless it can be written. */
    method Touch(d: nat, path: seq<nat>, scan: nat) returns (rc: TxnPages.Rc, np: nat)
      requires Valid() && Has(d, path) && Bounded(scan) && (path != [] ==> Writable(d, path[..|path| - 1]))
      modifies `dbs, txn
      ensures Valid() && (rc != TxnPages.Success ==> dbs == old(dbs))
      ensures rc == TxnPages.Success ==> dbs == old(dbs)[d := Some(With(old(dbs)[d].value, path, np))]
      ensures rc == TxnPages.Success && old(PageAt(d, path).pgno in txn.dirty) ==> np == old(PageAt(d, path).pgno)
      ensures rc == TxnPages.Success && old(PageAt(d, path).pgno !in txn.dirty) ==>
                && txn.freed == old(txn.freed) + [old(PageAt(d, path).pgno)] && np !in BagOf(old(dbs))
                && txn.dirty <= old(txn.dirty) + {np}
      ensures old(PageAt(d, path).pgno in txn.dirty) ==> txn.freed == old(txn.freed) && txn.dirty == old(txn.dirty)
      ensures old(txn.dirty) <= txn.dirty && (rc == TxnPages.Success ==> np in txn.dirty)
      ensures TxnPages.Advances(old(TxnPages.BooksOf(txn)), TxnPages.BooksOf(txn))
      ensures rc != TxnPages.Success ==> TxnPages.Short(txn, 1, scan)
      ensures Kept(old(dbs), old(txn.dirty), dbs, txn.dirty)
    {
      hide *;
      InUse(d, path);
      ValidIf();
      BoundedIf(scan);
      ValidReady();
      var page := At(dbs[d].value, path);
      if path != [] {
        WritableHas(d, path[..|path| - 1]);
        PageIs(d, path[..|path| - 1]);
      }
      if page.pgno in txn.dirty {
        rc, np := TxnPages.Success, page.pgno;
        BooksAre(txn);
        TxnPages.AdvancesSame(TxnPages.BooksOf(txn));
        SameNumber(dbs, d, path);
        return;
      }
      ghost var was, used := txn.dirty, txn.used;
      rc, np := Exchange(page.pgno, scan);
      if rc == TxnPages.Success {
        NewNumber(page, np);
        Taken(used, Bag(page), Bag(page.(pgno := np)), page.pgno, np);
        WithIsPut(dbs[d].value, path, np);
        NumberRewrites(page, np, was);
        LinkIf(dbs[d].value, path, np, was);
        PageIs(d, path);
        ReadyIf(was, np, 1);
        FreshIf(dbs, was, txn.dirty, txn.w.dirty, np, 1);
        Store(d, path, page.(pgno := np), was, np, 1);
      } else {
        KeptSame(dbs, was, txn.dirty);
      }
    }

    /** A new page for one that cannot be written and is freed. */
    method Exchange(p: Pgno, scan: nat) returns (rc: TxnPages.Rc, np: nat)
      requires Valid() && Bounded(scan) && p <= IdSort.ID_MAX && p in txn.used && p !in txn.dirty
      modifies txn
      ensures rc != TxnPages.Success ==> Valid() && TxnPages.Short(txn, 1, scan) && txn.dirty == old(txn.dirty)
      ensures rc == TxnPages.Success ==>
                && Ready(old(txn.dirty), np, 1) && txn.used == old(txn.used) + multiset{np} - multiset{p}
                && txn.freed == old(txn.freed) + [p]
      ensures old(txn.dirty) <= txn.dirty && (rc == TxnPages.Success ==> np in txn.dirty)
      ensures TxnPages.Advances(old(TxnPages.BooksOf(txn)), TxnPages.BooksOf(txn))
    {
      hide *;
      ValidIf();
      OursIf();
      BoundedIf(scan);
      ghost var books, oldest, used, was, own := TxnPages.BooksOf(txn), txn.pgoldest, txn.used, txn.dirty, txn.w.dirty;
      BooksAre(txn);
      rc, np := txn.Touch(p, scan);
      Onward(txn, books, oldest, scan);
      OwnsMore(dbs, was, own, txn.w.dirty);
      OursIf();
      if rc == TxnPages.Success {
        NextIs(txn);
        OnePage(np);
        OneRange(np);
        NewReady(used, was, np, 1);
      } else {
        ValidIf();
      }
    }

    /** The new root `mdb_page_split` puts above a root that is to be split. */
    method NewRoot(d: nat, scan: nat) returns (rc: TxnPages.Rc, np: nat)
      requires Valid() && Has(d, []) && Bounded(scan)
      modifies `dbs, txn
      ensures Valid() && (rc != TxnPages.Success ==> dbs == old(dbs))
      ensures rc == TxnPages.Success ==> dbs == old(dbs)[d := Some(Rooted(old(dbs)[d].value, np))]
      ensures old(txn.dirty) <= txn.dirty && (rc == TxnPages.Success ==> np in txn.dirty)
      ensures TxnPages.Advances(old(TxnPages.BooksOf(txn)), TxnPages.BooksOf(txn))
      ensures rc != TxnPages.Success ==> TxnPages.Short(txn, 1, scan)
      ensures Kept(old(dbs), old(txn.dirty), dbs, txn.dirty)
    {
      hide *;
      PageIs(d, []);
      ghost var was := txn.dirty;
      rc, np := Take(1, scan);
      KeptSame(dbs, was, txn.dirty);
      if rc == TxnPages.Success {
        var t := dbs[d].value;
        OneRange(np);
        RootedBag(t, np);
        PutHere(t, Rooted(t, np));
        RootedRewrites(t, np, was);
        RootedIs(t, np);
        LinkIf(t, [], np, was);
        SumSwap(txn.used, BagOf(dbs) + lost, multiset{np}, Bag(t), Bag(Rooted(t, np)));
        PageIs(d, []);
        Store(d, [], Rooted(t, np), was, np, 1);
      }
    }

    /** The first page of a database. */
    method First(d: nat, scan: nat) returns (rc: TxnPages.Rc, np: nat)
      requires Valid() && d < |dbs| && dbs[d].None? && Bounded(scan)
      modifies `dbs, txn
      ensures Valid() && (rc != TxnPages.Success ==> dbs == old(dbs))
      ensures rc == TxnPages.Success ==> dbs == old(dbs)[d := Some(Tree(np, true, []))]
      ensures old(txn.dirty) <= txn.dirty && (rc == TxnPages.Success ==> np in txn.dirty)
      ensures TxnPages.Advances(old(TxnPages.BooksOf(txn)), TxnPages.BooksOf(txn))
      ensures rc != TxnPages.Success ==> TxnPages.Short(txn, 1, scan)
      ensures Kept(old(dbs), old(txn.dirty), dbs, txn.dirty)
    {
      hide *;
      ghost var was := txn.dirty;
      rc, np := Take(1, scan);
      KeptSame(dbs, was, txn.dirty);
      if rc == TxnPages.Success {
        OneRange(np);
        AloneBag(Tree(np, true, []));
        BagOfSet(dbs, d, Some(Tree(np, true, [])));
        NoneBag(dbs[d]);
        SomeBag(Tree(np, true, []));
        Seqs.BagAssoc(BagOf(dbs), lost, multiset{np});
        SwapLast(BagOf(dbs), lost, multiset{np});
        Nothing(BagOf(dbs[d := Some(Tree(np, true, []))]));
        FirstStepped(dbs, d, np, was);
        Install(d, Some(Tree(np, true, [])), was, np, 1);
      }
    }

    /** `mdb_page_split` of child k of the page at the end of the path. */
    method Split(d: nat, path: seq<nat>, k: nat, s: nat, scan: nat) returns (rc: TxnPages.Rc, np: nat)
      requires Valid() && Writable(d, path) && Bounded(scan)
      requires var p := PageAt(d, path); k < |p.nodes| && p.nodes[k].Link? && s < |p.nodes[k].page.nodes|
      requires var c := PageAt(d, path).nodes[k].page; c.pgno in txn.dirty && (!c.leaf ==> c.nodes[s].Link?)
      modifies `dbs, txn
      ensures old(txn.dirty) <= txn.dirty
      ensures Valid() && (rc != TxnPages.Success ==> dbs == old(dbs))
      ensures rc == TxnPages.Success ==>
                dbs == old(dbs)[d := Some(Put(old(dbs)[d].value, path, SplitKid(old(PageAt(d, path)), k, s, np)))]
      ensures TxnPages.Advances(old(TxnPages.BooksOf(txn)), TxnPages.BooksOf(txn))
      ensures rc != TxnPages.Success ==> TxnPages.Short(txn, 1, scan)
      ensures Kept(old(dbs), old(txn.dirty), dbs, txn.dirty)
    {
      hide *;
      WritableHas(d, path);
      PageIs(d, path);
      ghost var was := txn.dirty;
      var p := At(dbs[d].value, path);
      rc, np := Take(1, scan);
      KeptSame(dbs, was, txn.dirty);
      if rc == TxnPages.Success {
        OneRange(np);
        SplitBag(p, k, s, np);
        SplitRewrites(p, k, s, np, was);
        SplitIs(p, k, s, np);
        LinkSame(dbs[d].value, path, was);
        PageIs(d, path);
        SumSwap(txn.used, BagOf(dbs) + lost, multiset{np}, Bag(p), Bag(SplitKid(p, k, s, np)));
        Store(d, path, SplitKid(p, k, s, np), was, np, 1);
      }
    }

    /** `mdb_node_move` between children k and k + 1. */
    method Move(d: nat, path: seq<nat>, k: nat, low: Key, s: nat)
      requires Valid() && Writable(d, path) && Neighbours(PageAt(d, path), k) && s < |JoinedAt(PageAt(d, path), k, low)|
      requires var p := PageAt(d, path); {p.nodes[k].page.pgno, p.nodes[k + 1].page.pgno} <= txn.dirty
      requires var p := PageAt(d, path);
               !p.nodes[k].page.leaf ==> p.nodes[k + 1].page.nodes[0].Link? && JoinedAt(p, k, low)[s].Link?
      modifies `dbs
      ensures Valid()
      ensures dbs == old(dbs)[d := Some(Put(old(dbs)[d].value, path, MoveKid(old(PageAt(d, path)), k, low, s)))]
      ensures Kept(old(dbs), txn.dirty, dbs, txn.dirty)
    {
      hide *;
      WritableHas(d, path);
      InUse(d, path);
      ValidReady();
      var p := At(dbs[d].value, path);
      MoveBag(p, k, low, s);
      MoveRewrites(p, k, low, s, txn.dirty);
      MoveIs(p, k, low, s);
      LinkSame(dbs[d].value, path, txn.dirty);
      Store(d, path, MoveKid(p, k, low, s), txn.dirty, 0, 0);
    }

    /** `mdb_page_merge` of child k + 1 into child k; the page can be used again at once, if it is not
        one of the freeDB. */
    method Merge(d: nat, path: seq<nat>, k: nat, low: Key)
      requires Valid() && Writable(d, path) && Neighbours(PageAt(d, path), k)
      requires PageAt(d, path).nodes[k].page.pgno in txn.dirty
      requires !PageAt(d, path).nodes[k].page.leaf ==> PageAt(d, path).nodes[k + 1].page.nodes[0].Link?
      modifies `dbs, txn
      ensures Valid() && txn.dirty == old(txn.dirty)
      ensures dbs == old(dbs)[d := Some(Put(old(dbs)[d].value, path, MergeKids(old(PageAt(d, path)), k, low)))]
      ensures var src := old(PageAt(d, path).nodes[k + 1].page.pgno);
              if old(PageAt(d, path).nodes[k + 1].page.pgno in txn.dirty) && d != 0
              then txn.loose == [src] + old(txn.loose) && txn.freed == old(txn.freed)
              else txn.loose == old(txn.loose) && txn.freed == old(txn.freed) + [src]
      ensures TxnPages.Consumes(old(TxnPages.BooksOf(txn)), TxnPages.BooksOf(txn))
      ensures d == 0 ==> TxnPages.Advances(old(TxnPages.BooksOf(txn)), TxnPages.BooksOf(txn))
      ensures Kept(old(dbs), old(txn.dirty), dbs, txn.dirty)
    {
      hide *;
      WritableHas(d, path);
      InUse(d, path);
      ghost var was := txn.dirty;
      var p := At(dbs[d].value, path);
      NeighboursAre(p, k);
      var src := p.nodes[k + 1].page.pgno;
      MergeBag(p, k, low);
      Within(txn.used, Bag(p), Bag(MergeKids(p, k, low)), multiset{src});
      KidUnit(p, k + 1);
      UnitBelow(dbs, d, path, PageUnit(src, p.nodes[k + 1].page.leaf, Shows(p.nodes[k + 1].page.nodes)));
      Shed(src, p.nodes[k + 1].page.leaf, Shows(p.nodes[k + 1].page.nodes), d);
      MergeRewrites(p, k, low, was);
      MergeIs(p, k, low);
      LinkSame(dbs[d].value, path, was);
      PageIs(d, path);
      Store(d, path, MergeKids(p, k, low), was, 0, 0);
    }

    /** `mdb_page_loose` of a page of database d. */
    method Shed(src: Pgno, ghost leaf: bool, ghost entries: seq<Shown>, d: nat)
      requires Valid() && src in txn.used && HasUnit(dbs, d, PageUnit(src, leaf, entries))
      modifies txn
      ensures Ready(txn.dirty, 0, 0) && txn.used == old(txn.used) - multiset{src} && txn.dirty == old(txn.dirty)
      ensures if old(src in txn.dirty) && d != 0
              then txn.loose == [src] + old(txn.loose) && txn.freed == old(txn.freed)
              else txn.loose == old(txn.loose) && txn.freed == old(txn.freed) + [src]
      ensures TxnPages.Consumes(old(TxnPages.BooksOf(txn)), TxnPages.BooksOf(txn))
      ensures d == 0 ==> TxnPages.Advances(old(TxnPages.BooksOf(txn)), TxnPages.BooksOf(txn))
    {
      hide *;
      ValidIf();
      OursIf();
      ghost var books, used, was := TxnPages.BooksOf(txn), txn.used, txn.dirty;
      BooksAre(txn);
      OwnedPages(dbs, txn.dirty, txn.w.dirty, d, PageUnit(src, leaf, entries));
      PageOnly(src, leaf, entries);
      IdOf(txn.used, src);
      txn.Loosen(src, d == 0);
      MoreLoose(txn, books);
      if d == 0 { MoreFreed(txn, books); }
      OursIf();
      ReadySame(was);
    }

    /** Pages that are freed. */
    method Release(pages: seq<Pgno>)
      requires Valid() && multiset(pages) <= txn.used
      modifies txn
      ensures Ready(txn.dirty, 0, 0) && txn.used == old(txn.used) - multiset(pages) && txn.dirty == old(txn.dirty)
      ensures txn.freed == old(txn.freed) + pages
      ensures TxnPages.Advances(old(TxnPages.BooksOf(txn)), TxnPages.BooksOf(txn))
    {
      hide *;
      ValidIf();
      OursIf();
      ghost var books, used, was := TxnPages.BooksOf(txn), txn.used, txn.dirty;
      BooksAre(txn);
      FreeIds(txn, pages);
      txn.Free(pages);
      MoreFreed(txn, books);
      OursIf();
      ReadySame(was);
    }

    /** `mdb_rebalance` at a root with one child: the child becomes the root. */
    method Collapse(d: nat)
      requires Valid() && Has(d, []) && |dbs[d].value.nodes| == 1 && dbs[d].value.nodes[0].Link?
      modifies `dbs, txn
      ensures Valid() && dbs == old(dbs)[d := Some(old(dbs)[d].value.nodes[0].page)]
      ensures txn.freed == old(txn.freed) + [old(dbs)[d].value.pgno] && txn.dirty == old(txn.dirty)
      ensures TxnPages.Advances(old(TxnPages.BooksOf(txn)), TxnPages.BooksOf(txn))
      ensures Kept(old(dbs), old(txn.dirty), dbs, txn.dirty)
    {
      hide *;
      InUse(d, []);
      var t := dbs[d].value;
      PutHere(t, t.nodes[0].page);
      var kid := t.nodes[0].page;
      CollapseBag(t);
      Within(txn.used, Bag(t), Bag(kid), multiset{t.pgno});
      OneBag(t.pgno);
      Release([t.pgno]);
      CollapseRewrites(t, txn.dirty);
      LinkIf(t, [], kid.pgno, txn.dirty);
      PageIs(d, []);
      Store(d, [], kid, txn.dirty, 0, 0);
    }

    /** `mdb_rebalance` at a root without nodes: the database is empty. */
    method Vanish(d: nat)
      requires Valid() && Has(d, []) && dbs[d].value.nodes == []
      modifies `dbs, txn
      ensures Valid() && dbs == old(dbs)[d := None] && txn.freed == old(txn.freed) + [old(dbs)[d].value.pgno]
      ensures txn.dirty == old(txn.dirty)
      ensures TxnPages.Advances(old(TxnPages.BooksOf(txn)), TxnPages.BooksOf(txn))
      ensures Kept(old(dbs), old(txn.dirty), dbs, txn.dirty)
    {
      hide *;
      InUse(d, []);
      var t := dbs[d].value;
      PutHere(t, t);
      AloneBag(t);
      Gone(dbs, d);
      OnePart(BagOf(dbs[d := None]), multiset{t.pgno}, BagOf(dbs), lost);
      OneBag(t.pgno);
      Release([t.pgno]);
      GoneStepped(dbs, d, txn.dirty);
      Install(d, None, txn.dirty, 0, 0);
    }

    /** `mdb_node_add` of a value that fits in the page. */
    method Add(d: nat, path: seq<nat>, at: nat, key: Key, data: Bytes)
      requires Valid() && Writable(d, path) && at <= |PageAt(d, path).nodes|
      modifies `dbs
      ensures Valid() && dbs == old(dbs)[d := Some(Put(old(dbs)[d].value, path, AddAt(old(PageAt(d, path)), at, Plain(key, data))))]
      ensures Kept(old(dbs), txn.dirty, dbs, txn.dirty)
    {
      hide *;
      WritableHas(d, path);
      InUse(d, path);
      ValidReady();
      var p := At(dbs[d].value, path);
      AddBag(p, at, Plain(key, data));
      NodePages(Plain(key, data));
      AddRewrites(p, at, Plain(key, data), txn.dirty);
      AddIs(p, at, Plain(key, data));
      LinkSame(dbs[d].value, path, txn.dirty);
      Nothing(Bag(p));
      Store(d, path, AddAt(p, at, Plain(key, data)), txn.dirty, 0, 0);
    }

    /** `mdb_node_add` of a value that goes to overflow pages. */
    method AddBig(d: nat, path: seq<nat>, at: nat, key: Key, size: nat, chunks: Run, scan: nat) returns (rc: TxnPages.Rc, pg: nat)
      requires Valid() && Writable(d, path) && at <= |PageAt(d, path).nodes| && Bounded(scan)
      modifies `dbs, txn
      ensures Valid() && (rc != TxnPages.Success ==> dbs == old(dbs)) && old(txn.dirty) <= txn.dirty
      ensures rc == TxnPages.Success ==>
                dbs == old(dbs)[d := Some(Put(old(dbs)[d].value, path, AddAt(old(PageAt(d, path)), at, Big(key, size, pg, chunks))))]
      ensures TxnPages.Advances(old(TxnPages.BooksOf(txn)), TxnPages.BooksOf(txn))
      ensures rc != TxnPages.Success ==> TxnPages.Short(txn, |chunks|, scan)
      ensures Kept(old(dbs), old(txn.dirty), dbs, txn.dirty)
    {
      hide *;
      WritableHas(d, path);
      PageIs(d, path);
      ghost var was := txn.dirty;
      var p := At(dbs[d].value, path);
      RunSome(chunks);
      rc, pg := Take(|chunks|, scan);
      KeptSame(dbs, was, txn.dirty);
      if rc == TxnPages.Success {
        NodePages(Big(key, size, pg, chunks));
        AddBag(p, at, Big(key, size, pg, chunks));
        AddRewrites(p, at, Big(key, size, pg, chunks), was);
        AddIs(p, at, Big(key, size, pg, chunks));
        LinkSame(dbs[d].value, path, was);
        PageIs(d, path);
        SumSwap(txn.used, BagOf(dbs) + lost, multiset(Range(pg, |chunks|)), Bag(p), Bag(AddAt(p, at, Big(key, size, pg, chunks))));
        Store(d, path, AddAt(p, at, Big(key, size, pg, chunks)), was, pg, |chunks|);
      }
    }

    /** Another value in the place of one, as long, or on the same overflow pages, which can be written. */
    method Replace(d: nat, path: seq<nat>, at: nat, n: Node)
      requires Valid() && Writable(d, path) && at < |PageAt(d, path).nodes|
      requires var old' := PageAt(d, path).nodes[at];
               || (old'.Plain? && n.Plain? && |n.data| == |old'.data|)
               || (old'.Big? && n.Big? && n.pgno == old'.pgno && |n.chunks| == |old'.chunks| && n.pgno in txn.dirty)
      modifies `dbs
      ensures Valid() && dbs == old(dbs)[d := Some(Put(old(dbs)[d].value, path, SetAt(old(PageAt(d, path)), at, n)))]
      ensures Kept(old(dbs), txn.dirty, dbs, txn.dirty)
    {
      hide *;
      WritableHas(d, path);
      InUse(d, path);
      ValidReady();
      var p := At(dbs[d].value, path);
      SetBag(p, at, n);
      SetRewrites(p, at, n, txn.dirty);
      SetIs(p, at, n);
      LinkSame(dbs[d].value, path, txn.dirty);
      Store(d, path, SetAt(p, at, n), txn.dirty, 0, 0);
    }

    /** `mdb_node_del` of a value, whose overflow pages `mdb_ovpage_free` takes back. */
    method Delete(d: nat, path: seq<nat>, at: nat)
      requires Valid() && Writable(d, path) && at < |PageAt(d, path).nodes|
      requires var n := PageAt(d, path).nodes[at]; n.Plain? || n.Big?
      modifies `dbs, txn
      ensures forall p | p in BagOf(dbs) && p in old(txn.dirty) :: p in txn.dirty
      ensures Valid() && dbs == old(dbs)[d := Some(Put(old(dbs)[d].value, path, DelAt(old(PageAt(d, path)), at)))]
      ensures TxnPages.Advances(old(TxnPages.BooksOf(txn)), TxnPages.BooksOf(txn))
      ensures Kept(old(dbs), old(txn.dirty), dbs, txn.dirty)
      ensures NodeFreed(old(PageAt(d, path)).nodes[at], old(txn.pglast > 0), old(txn.dirty), old(txn.head), old(txn.freed),
                        txn.head, txn.freed)
    {
      hide *;
      WritableHas(d, path);
      InUse(d, path);
      ghost var was := txn.dirty;
      var p := At(dbs[d].value, path);
      var n := p.nodes[at];
      DelBag(p, at);
      Within(txn.used, Bag(p), Bag(DelAt(p, at)), multiset(UsedByNode(n, true)));
      NodeUnit(p, at);
      if n.Big? { UnitBelow(dbs, d, path, RunUnit(n.pgno, n.chunks)); }
      GiveBack(d, n);
      DelRewrites(p, at, was);
      DelIs(p, at);
      LinkSame(dbs[d].value, path, was);
      PageIs(d, path);
      Store(d, path, DelAt(p, at), was, 0, 0);
      ValidIf();
      InTrees(BagOf(dbs), lost);
    }

    /** The overflow pages of a node, if it has any, are not used any more. */
    method GiveBack(d: nat, n: Node)
      requires Valid() && (n.Plain? || n.Big?)
      requires n.Big? ==> HasUnit(dbs, d, RunUnit(n.pgno, n.chunks))
      requires multiset(UsedByNode(n, true)) <= txn.used
      modifies txn
      ensures Ready(old(txn.dirty), 0, 0) && txn.used == old(txn.used) - multiset(UsedByNode(n, true))
      ensures forall p | p in old(txn.dirty) && p !in txn.dirty :: p !in txn.used
      ensures TxnPages.Advances(old(TxnPages.BooksOf(txn)), TxnPages.BooksOf(txn))
      ensures NodeFreed(n, old(txn.pglast > 0), old(txn.dirty), old(txn.head), old(txn.freed), txn.head, txn.freed)
    {
      hide *;
      ValidIf();
      OursIf();
      ghost var books, used, was := TxnPages.BooksOf(txn), txn.used, txn.dirty;
      ghost var own, head, freed := txn.pglast > 0, txn.head, txn.freed;
      NodeFreedIf(n, own, was, head, freed, head, freed);
      BooksAre(txn);
      TxnPages.AdvancesSame(books);
      UsedOnce(txn);
      NodePages(n);
      if n.Big? {
        RunInUse(txn, n.pgno, |n.chunks|);
        RunBag(n.pgno, |n.chunks|);
        LooseApart(txn, n.pgno, |n.chunks|);
        OwnedPages(dbs, txn.dirty, txn.w.dirty, d, RunUnit(n.pgno, n.chunks));
        SpanUnit(n.pgno, n.chunks);
        txn.OvFree(n.pgno, |n.chunks|);
        NodeFreedIf(n, own, was, head, freed, txn.head, txn.freed);
        TxnPages.RunFreedIf(head, freed, own && n.pgno in was, txn.head, txn.freed, n.pgno, |n.chunks|);
        MoreFreed(txn, books);
        LeftRun(used, txn.used, n.pgno, n.chunks);
        OursIf();
        FreshIf(dbs, was, txn.dirty, txn.w.dirty, 0, 0);
        ReadyIf(was, 0, 0);
      } else {
        Unchanged(txn.used);
        ReadySame(was);
      }
    }

    /** `mdb_drop` of a database that is no MDB_DUPSORT one: pages of databases recorded in it are lost, and
        some are lost if and only if there is such a database with pages. */
    method Drop(d: nat, file: seq<Cell>, overflow: nat, ghost h: nat)
      requires Valid() && Has(d, []) && Holds(file, dbs[d].value) && Even(dbs[d].value, h)
      requires overflow == DropWalk.Overs(dbs[d].value.nodes)
      modifies `dbs, `lost, txn
      ensures Valid() && dbs == old(dbs)[d := None]
      ensures lost == old(lost) + (Bag(old(dbs)[d].value) - multiset(Used(old(dbs)[d].value, false)))
      ensures lost == old(lost) <==> DropWalk.NoSubs(old(dbs)[d].value.nodes)
      ensures Kept(old(dbs), old(txn.dirty), dbs, txn.dirty)
    {
      hide *;
      InUse(d, []);
      var t := dbs[d].value;
      PutHere(t, t);
      var dropper := new DropWalk.Dropper(file);
      var _ := dropper.Drop(Some(t.pgno), overflow, false, false, t, h);
      UsedBag(t, dropper.freed);
      NoneLost(lost, multiset(dropper.freed), Bag(t));
      Forget(d, dropper.freed);
    }

    /** The database is gone, and these of its pages are free. */
    method Forget(d: nat, pages: seq<Pgno>)
      requires Valid() && Has(d, []) && multiset(pages) <= Bag(dbs[d].value)
      modifies `dbs, `lost, txn
      ensures Valid() && dbs == old(dbs)[d := None] && lost == old(lost) + (Bag(old(dbs)[d].value) - multiset(pages))
      ensures Kept(old(dbs), old(txn.dirty), dbs, txn.dirty)
    {
      hide *;
      InUse(d, []);
      PutHere(dbs[d].value, dbs[d].value);
      Gone(dbs, d);
      FreedPart(BagOf(dbs[d := None]), multiset(pages), Bag(dbs[d].value), BagOf(dbs), lost);
      Release(pages);
      GoneStepped(dbs, d, txn.dirty);
      ghost var was, more := txn.dirty, lost + (Bag(dbs[d].value) - multiset(pages));
      ReadyIf(was, 0, 0);
      OursIf();
      lost := more;
      OursIf();
      ReadyIf(was, 0, 0);
      Install(d, None, was, 0, 0);
    }

    lemma WritableHas(d: nat, path: seq<nat>)
      requires Writable(d, path)
      ensures Has(d, path) && PageAt(d, path).pgno in txn.dirty
    {
      hide At;
    }

    lemma ValidIf()
      ensures Valid() <==> && txn.Valid() && Ours() && txn.Twin() && Owns(dbs, txn.dirty, txn.w.dirty)
                           && txn.used == BagOf(dbs) + lost
    {
      hide Owns, BagOf;
    }

    lemma OursIf()
      ensures Ours() <==> forall p | p in txn.loose :: p in txn.dirty
    {}

    lemma BoundedIf(scan: nat)
      ensures Bounded(scan) <==> scan < txn.t && scan <= txn.lim
    {}
  }

  // ---------------------------------------------------------------- sums

  lemma NewRun(used: multiset<Pgno>, pg: Pgno, n: nat, now: multiset<Pgno>)
    requires now == used + multiset(Range(pg, n)) && forall q: Pgno :: now[q] <= 1
    ensures forall q | q in Range(pg, n) :: q in now && q !in used
  {
    forall q | q in Range(pg, n) ensures q in now && q !in used {
      assert q in multiset(Range(pg, n));
    }
  }

  lemma RangeFirst(pg: Pgno, n: nat)
    ensures n > 0 ==> pg in Range(pg, n)
  {
    if n > 0 { assert Range(pg, n)[0] == pg; }
  }

  lemma OneRange(np: Pgno)
    ensures Range(np, 1) == [np] && multiset(Range(np, 1)) == multiset{np}
  {}

  lemma IdOf(used: multiset<IdSort.Id>, q: Pgno)
    requires q in used
    ensures q <= IdSort.ID_MAX
  {}

  lemma InTrees(bag: multiset<Pgno>, lost: multiset<Pgno>)
    ensures forall p | p in bag :: p in bag + lost
  {}

  lemma OneBag(p: Pgno)
    ensures multiset([p]) == multiset{p}
  {}

  /** What is still in use when these are not. */
  lemma LeftAll(used: multiset<Pgno>, now: multiset<Pgno>, pages: seq<Pgno>)
    requires now == used - multiset(pages)
    ensures forall q | q in used :: q in now || q in pages
  {
    forall q | q in used ensures q in now || q in pages {
      if q !in pages { assert multiset(pages)[q] == 0; }
    }
  }

  lemma LeftRun(used: multiset<Pgno>, now: multiset<Pgno>, p: Pgno, chunks: Run)
    requires now == used - multiset(Range(p, |chunks|)) && forall q: Pgno :: used[q] <= 1
    ensures p !in now && forall q | q in used :: q in now || q in PagesOf(RunUnit(p, chunks))
  {
    LeftAll(used, now, Range(p, |chunks|));
    RangeFirst(p, |chunks|);
    assert p in multiset(Range(p, |chunks|));
  }

  lemma RunSome(chunks: Run)
    ensures |chunks| > 0
  {}

  lemma SumSwap(used: multiset<Pgno>, all: multiset<Pgno>, x: multiset<Pgno>, was: multiset<Pgno>, now: multiset<Pgno>)
    requires used == all + x && now == was + x
    ensures used + was == all + now
  {}

  // ---------------------------------------------------------------- units of pages and databases

  lemma KidUnit(p: Tree, k: nat)
    requires k < |p.nodes| && p.nodes[k].Link?
    ensures var c := p.nodes[k].page; In(PageUnit(c.pgno, c.leaf, Shows(c.nodes)), p)
  {
    var c := p.nodes[k].page;
    KidUnits(p, k, PageUnit(c.pgno, c.leaf, Shows(c.nodes)));
  }

  lemma NodeUnit(p: Tree, at: nat)
    requires at < |p.nodes|
    ensures var n := p.nodes[at]; n.Big? ==> In(RunUnit(n.pgno, n.chunks), p)
  {
    var n := p.nodes[at];
    if n.Big? { assert InNode(RunUnit(n.pgno, n.chunks), n); }
  }

  lemma {:induction false} PathUnit(t: Tree, path: seq<nat>, u: Extent)
    requires PathIn(t, path) && In(u, At(t, path))
    ensures In(u, t)
    decreases |path|
  {
    if path != [] {
      PathUnit(t.nodes[path[0]].page, path[1..], u);
      KidUnits(t, path[0], u);
    }
  }

  lemma UnitBelow(dbs: seq<Option<Tree>>, d: nat, path: seq<nat>, u: Extent)
    requires d < |dbs| && dbs[d].Some? && PathIn(dbs[d].value, path) && In(u, At(dbs[d].value, path))
    ensures HasUnit(dbs, d, u)
  {
    hide In, At;
    PathUnit(dbs[d].value, path, u);
  }

  lemma OwnedPages(dbs: seq<Option<Tree>>, dirty: set<nat>, own: set<Pgno>, d: nat, u: Extent)
    requires Owns(dbs, dirty, own) && HasUnit(dbs, d, u) && !u.RecordUnit?
    ensures u.pgno in dirty ==> PagesOf(u) <= own
  {
    hide HasUnit, PagesOf;
  }

  lemma SpanUnit(p: Pgno, chunks: Run)
    ensures Moves.Span(p, |chunks|) == PagesOf(RunUnit(p, chunks))
  {
    SpanRange(p, |chunks|);
  }

  lemma SpanRange(p: Pgno, n: nat)
    ensures forall q :: q in Moves.Span(p, n) <==> q in Range(p, n)
  {
    forall q ensures q in Moves.Span(p, n) <==> q in Range(p, n) {
      if q in Moves.Span(p, n) { assert Range(p, n)[q - p] == q; }
    }
  }

  lemma PageOnly(p: Pgno, leaf: bool, entries: seq<Shown>)
    ensures forall q :: q in PagesOf(PageUnit(p, leaf, entries)) <==> q == p
  {}

  lemma LinkIf(t: Tree, path: seq<nat>, np: Pgno, dirty: set<nat>)
    requires PathIn(t, path)
    requires path != [] ==> PathIn(t, path[..|path| - 1]) && At(t, path[..|path| - 1]).pgno in dirty
    ensures LinkOk(t, path, np, dirty)
  {
    hide PathIn, At;
  }

  lemma LinkSame(t: Tree, path: seq<nat>, dirty: set<nat>)
    requires PathIn(t, path)
    ensures LinkOk(t, path, At(t, path).pgno, dirty)
  {
    hide PathIn, At;
  }

  lemma {:induction false} PutSelf(t: Tree, path: seq<nat>)
    requires PathIn(t, path)
    ensures Put(t, path, At(t, path)) == t
    decreases |path|
  {
    if path != [] { PutSelf(t.nodes[path[0]].page, path[1..]); }
  }

  lemma SameNumber(dbs: seq<Option<Tree>>, d: nat, path: seq<nat>)
    requires d < |dbs| && dbs[d].Some? && PathIn(dbs[d].value, path)
    ensures dbs == dbs[d := Some(With(dbs[d].value, path, At(dbs[d].value, path).pgno))]
  {
    hide With, At, PathIn;
    WithIsPut(dbs[d].value, path, At(dbs[d].value, path).pgno);
    PutSelf(dbs[d].value, path);
  }

  lemma AddIs(p: Tree, at: nat, n: Node)
    requires at <= |p.nodes|
    ensures AddAt(p, at, n).pgno == p.pgno && AddAt(p, at, n).leaf == p.leaf
  {}

  lemma DelIs(p: Tree, at: nat)
    requires at < |p.nodes|
    ensures DelAt(p, at).pgno == p.pgno && DelAt(p, at).leaf == p.leaf
  {}

  lemma SameRest(used: multiset<Pgno>, all: multiset<Pgno>, part: multiset<Pgno>, was: multiset<Pgno>, s: multiset<Pgno>,
                 lost: multiset<Pgno>)
    requires used + part == (was + lost) + s && all + part == was + s
    ensures used == all + lost
  {
    forall x ensures used[x] == (all + lost)[x] {
      assert (used + part)[x] == ((was + lost) + s)[x];
      assert (all + part)[x] == (was + s)[x];
    }
  }

  lemma NoneBag(t: Option<Tree>)
    requires t.None?
    ensures OptBag(t) == multiset{}
  {}

  lemma SomeBag(t: Tree)
    ensures OptBag(Some(t)) == Bag(t)
  {
    hide Bag;
  }

  lemma Nothing(a: multiset<Pgno>)
    ensures a + multiset{} == a
  {}

  lemma SwapLast(a: multiset<Pgno>, b: multiset<Pgno>, c: multiset<Pgno>)
    ensures (a + b) + c == (a + c) + b
  {}

  lemma BooksAre(txn: TxnPages.Txn)
    ensures TxnPages.BooksOf(txn) == TxnPages.Books(txn.pglast, txn.freed, txn.loose, txn.db, txn.w, txn.lim, txn.Quota())
  {}

  /** Pages allocated and freed. */
  lemma Onward(txn: TxnPages.Txn, a: TxnPages.Books, oldest: TxnPages.Txnid, scan: TxnPages.Txnid)
    requires txn.lim == a.lim && Moves.Leads(a.w, txn.w, a.lim) && txn.Quota() <= a.quota
    requires txn.Fetched(a.last, oldest, scan) && txn.db == a.db && a.freed <= txn.freed && (a.loose == [] ==> txn.loose == [])
    ensures TxnPages.Advances(a, TxnPages.BooksOf(txn))
  {}

  lemma MoreLoose(txn: TxnPages.Txn, a: TxnPages.Books)
    requires txn.lim == a.lim && Moves.Leads(a.w, txn.w, a.lim) && txn.Quota() <= a.quota
    requires txn.pglast == a.last && txn.db == a.db && a.freed <= txn.freed
    ensures TxnPages.Consumes(a, TxnPages.BooksOf(txn))
  {}

  lemma MoreFreed(txn: TxnPages.Txn, a: TxnPages.Books)
    requires txn.lim == a.lim && Moves.Leads(a.w, txn.w, a.lim) && txn.Quota() <= a.quota
    requires txn.pglast == a.last && txn.db == a.db && a.freed <= txn.freed && txn.loose == a.loose
    ensures TxnPages.Advances(a, TxnPages.BooksOf(txn))
  {}

  lemma UsedOnce(txn: TxnPages.Txn)
    requires txn.Valid()
    ensures forall p: Pgno :: txn.used[p] <= 1
  {
    UsedPart(txn);
    TxnPages.OnceEach(txn.next, txn.used);
    forall p: Pgno ensures txn.used[p] <= 1 {}
  }

  lemma UsedPart(txn: TxnPages.Txn)
    requires txn.Valid()
    ensures 2 <= txn.next <= IdSort.ID_MAX && txn.used <= TxnPages.FilePages(txn.next)
    ensures txn.used + multiset(txn.loose) <= TxnPages.FilePages(txn.next)
  {
    hide TxnPages.Listed, TxnPages.FilePages;
  }

  /** Pages in use are not loose. */
  lemma LooseApart(txn: TxnPages.Txn, p: Pgno, n: nat)
    requires txn.Valid() && n > 0 && p + n <= IdSort.ID_MAX && multiset(PageLists.Pages(p, n)) <= txn.used
    ensures p !in txn.loose
  {
    UsedPart(txn);
    TxnPages.PagesOnce(p, n, p);
    TxnPages.OnceEach(txn.next, txn.used + multiset(txn.loose));
    var both := txn.used + multiset(txn.loose);
    assert both[p] == txn.used[p] + multiset(txn.loose)[p];
    assert p in both;
    assert p in txn.loose <==> p in multiset(txn.loose);
  }

  lemma NodePages(n: Node)
    ensures n.Plain? ==> UsedByNode(n, true) == []
    ensures n.Big? ==> UsedByNode(n, true) == Range(n.pgno, |n.chunks|)
  {}

  lemma Unchanged(a: multiset<Pgno>)
    ensures a - multiset([]) == a
  {}

  lemma NewNumber(t: Tree, np: Pgno)
    ensures Bag(t.(pgno := np)) + multiset{t.pgno} == Bag(t) + multiset{np}
  {
    BagIs(t);
    BagIs(t.(pgno := np));
  }

  lemma Taken(used: multiset<Pgno>, was: multiset<Pgno>, new': multiset<Pgno>, p: Pgno, np: Pgno)
    requires p in used && new' + multiset{p} == was + multiset{np}
    ensures (used + multiset{np} - multiset{p}) + was == used + new'
  {
    forall x ensures ((used + multiset{np} - multiset{p}) + was)[x] == (used + new')[x] {
      assert (new' + multiset{p})[x] == (was + multiset{np})[x];
    }
  }

  lemma NeighboursAre(p: Tree, k: nat)
    requires Neighbours(p, k)
    ensures k + 1 < |p.nodes| && p.nodes[k].Link? && p.nodes[k + 1].Link?
  {}

  lemma AloneBag(t: Tree)
    requires t.nodes == []
    ensures Bag(t) == multiset{t.pgno}
  {
    BagIs(t);
    assert UsedBy([], true) == [];
  }

  /** The pages of the other databases. */
  lemma Gone(dbs: seq<Option<Tree>>, d: nat)
    requires d < |dbs| && dbs[d].Some?
    ensures BagOf(dbs[d := None]) + Bag(dbs[d].value) == BagOf(dbs)
  {
    hide Bag, BagOf;
    BagOfSet(dbs, d, None);
    assert OptBag(None) == multiset{};
  }

  lemma OnePart(rest: multiset<Pgno>, part: multiset<Pgno>, all: multiset<Pgno>, lost: multiset<Pgno>)
    requires rest + part == all
    ensures part <= all + lost && (all + lost) - part == rest + lost
  {
    assert forall x :: (rest + part)[x] == all[x];
  }

  lemma FreeIds(txn: TxnPages.Txn, pages: seq<Pgno>)
    requires multiset(pages) <= txn.used
    ensures forall i | 0 <= i < |pages| :: 0 <= pages[i] <= IdSort.ID_MAX
  {
    forall i | 0 <= i < |pages| ensures 0 <= pages[i] <= IdSort.ID_MAX {
      assert pages[i] in multiset(pages);
      assert pages[i] in txn.used;
    }
  }

  lemma UsedBag(t: Tree, freed: seq<Pgno>)
    requires multiset(freed) == multiset([]) + multiset(Used(t, false))
    ensures multiset(freed) == multiset(Used(t, false)) <= Bag(t)
    ensures multiset(freed) == Bag(t) <==> DropWalk.NoSubs(t.nodes)
  {
    DropWalk.SubsMore(t.nodes);
    DropWalk.NothingLeft(t);
  }

  /** What is left in use when only a part is freed. */
  lemma FreedPart(rest: multiset<Pgno>, freed: multiset<Pgno>, part: multiset<Pgno>, all: multiset<Pgno>, lost: multiset<Pgno>)
    requires rest + part == all && freed <= part
    ensures freed <= all + lost && (all + lost) - freed == rest + (lost + (part - freed))
  {
    assert forall x :: (rest + part)[x] == all[x];
  }

  lemma NoneLost(lost: multiset<Pgno>, freed: multiset<Pgno>, part: multiset<Pgno>)
    requires freed <= part
    ensures lost + (part - freed) == lost <==> freed == part
  {
    if lost + (part - freed) == lost {
      forall x ensures freed[x] == part[x] {
        assert (lost + (part - freed))[x] == lost[x];
      }
    }
  }

  lemma Within(used: multiset<Pgno>, was: multiset<Pgno>, new': multiset<Pgno>, gone: multiset<Pgno>)
    requires was <= used && new' + gone == was
    ensures gone <= used && (used - gone) + was == used + new'
  {
    assert forall x :: (new' + gone)[x] == was[x];
  }

  lemma NextIs(txn: TxnPages.Txn)
    requires txn.Valid()
    ensures txn.next <= IdSort.ID_MAX
  {}

  lemma OnePage(np: Pgno)
    requires np + 1 <= IdSort.ID_MAX
    ensures multiset(PageLists.Pages(np, 1)) == multiset{np}
  {
    assert PageLists.Pages(np, 1) == [np];
  }

  lemma PutHere(t: Tree, s: Tree)
    ensures PathIn(t, []) && Put(t, [], s) == s && At(t, []) == t
  {}

  lemma CollapseBag(t: Tree)
    requires |t.nodes| == 1 && t.nodes[0].Link?
    ensures Bag(t.nodes[0].page) + multiset{t.pgno} == Bag(t)
  {
    BagIs(t);
    LinkBags(t.nodes[0].key, t.nodes[0].page);
    assert t.nodes == [Link(t.nodes[0].key, t.nodes[0].page)];
    BagIs(t.nodes[0].page);
  }

  lemma {:induction false} WithIsPut(t: Tree, path: seq<nat>, np: Pgno)
    requires PathIn(t, path)
    ensures With(t, path, np) == Put(t, path, At(t, path).(pgno := np))
    decreases |path|
  {
    if path != [] { WithIsPut(t.nodes[path[0]].page, path[1..], np); }
  }

  /** Pages in use are pages of the file. */
  lemma RunInUse(txn: TxnPages.Txn, p: Pgno, n: nat)
    requires txn.Valid() && n > 0 && multiset(Range(p, n)) <= txn.used
    ensures p + n <= IdSort.ID_MAX
  {
    TxnPages.OnceEach(txn.next, txn.used);
    assert Range(p, n)[n - 1] in multiset(Range(p, n));
  }
}
