/** The trees of `PageTrees`, whose pages have numbers, as trees of `BTree`, whose pages have none: a change of
    the one is the same change of the other. */
module NumberedTree {
  import opened Keys
  import opened PageTrees
  import opened TouchPath
  import opened TreePages
  import B = BTree
  import BTreeChange
  import BTreeSplit
  import BTreePlace
  import BTreeRebalance

  /** Size of the record of a database. */
  const RECORD := 48

  /** A value that lies on overflow pages. */
  function Whole(chunks: seq<Bytes>): Bytes {
    if chunks == [] then [] else chunks[0] + Whole(chunks[1..])
  }

  /** The tree without page numbers. What is in a record of a database is left out, its size is not. */
  function Strip(t: Tree): B.Page
    decreases t
  {
    B.Page(t.leaf, StripAll(t.nodes))
  }

  function StripAll(ns: seq<Node>): (r: seq<B.Node>)
    ensures |r| == |ns| && forall i | 0 <= i < |r| :: r[i] == StripNode(ns[i])
    decreases ns
  {
    seq(|ns|, i requires 0 <= i < |ns| => StripNode(ns[i]))
  }

  function StripNode(n: Node): B.Node
    decreases n
  {
    match n
    case Plain(k, d) => B.Item(k, d, 0)
    case Big(k, size, _, chunks) => B.Item(k, Whole(chunks), |chunks|)
    case Link(k, t) => B.Link(k, Strip(t))
    case Sub(k, _, _) => B.Item(k, BTreeSplit.Zeros(RECORD), 0)
  }

  // ---------------------------------------------------------------- nodes of a page

  lemma StripCut(ns: seq<Node>, i: nat, j: nat)
    requires i <= j <= |ns|
    ensures StripAll(ns[i..j]) == StripAll(ns)[i..j]
  {
    hide StripNode;
  }

  lemma StripJoin(a: seq<Node>, b: seq<Node>)
    ensures StripAll(a + b) == StripAll(a) + StripAll(b)
  {
    hide StripNode;
  }

  lemma StripKeyed(ns: seq<Node>, key: Key)
    requires ns != [] && ns[0].Link?
    ensures StripAll(ns)[0].Link?
    ensures StripAll(Keyed(ns, key)) == [B.Link(key, StripAll(ns)[0].page)] + StripAll(ns)[1..]
  {
    hide Strip;
    var m := Keyed(ns, key);
    assert forall i | 0 < i < |m| :: m[i] == ns[i];
  }

  lemma StripRight(leaf: bool, ns: seq<Node>, s: nat)
    requires s < |ns| && (!leaf ==> ns[s].Link?)
    ensures !leaf ==> StripAll(ns)[s].Link?
    ensures StripAll(RightPart(leaf, ns, s)) == BTreeSplit.RightNodes(leaf, StripAll(ns), s)
  {
    hide Strip;
    StripCut(ns, s, |ns|);
    assert ns[s..|ns|] == ns[s..];
    if !leaf { StripKeyed(ns[s..], []); }
  }

  lemma StripJoined(leaf: bool, l: seq<Node>, r: seq<Node>, low: Key)
    requires leaf || (r != [] && r[0].Link?)
    ensures !leaf ==> StripAll(r)[0].Link?
    ensures StripAll(Joined(leaf, l, r, low)) == BTreeRebalance.Joined(leaf, StripAll(l), StripAll(r), low)
  {
    hide Strip;
    if leaf {
      StripJoin(l, r);
    } else {
      StripKeyed(r, low);
      StripJoin(l, Keyed(r, low));
      assert StripAll(l) + ([B.Link(low, StripAll(r)[0].page)] + StripAll(r)[1..])
             == StripAll(l) + [B.Link(low, StripAll(r)[0].page)] + StripAll(r)[1..];
    }
  }

  /** The nodes with others in the place of those from i to j. */
  lemma StripReplace(ns: seq<Node>, i: nat, j: nat, mid: seq<Node>)
    requires i <= j <= |ns|
    ensures StripAll(ns[..i] + mid + ns[j..]) == BTreeChange.Replace(StripAll(ns), i, j, StripAll(mid))
  {
    StripJoin(ns[..i], mid);
    StripJoin(ns[..i] + mid, ns[j..]);
    StripCut(ns, 0, i);
    StripCut(ns, j, |ns|);
    assert ns[0..i] == ns[..i] && ns[j..|ns|] == ns[j..];
  }

  lemma StripPair(a: Node, b: Node)
    ensures StripAll([a]) == [StripNode(a)] && StripAll([a] + [b]) == [StripNode(a), StripNode(b)]
  {
    hide StripNode;
  }

  // ---------------------------------------------------------------- the changes of one page

  /** A split, and the separator in the parent. */
  lemma StripSplit(p: Tree, k: nat, s: nat, np: Pgno)
    requires k < |p.nodes| && p.nodes[k].Link? && s < |p.nodes[k].page.nodes|
    requires !p.nodes[k].page.leaf ==> p.nodes[k].page.nodes[s].Link?
    ensures var c := p.nodes[k].page;
            var all := StripAll(c.nodes);
            && (!c.leaf ==> all[s].Link?)
            && var (left, right) := BTreePlace.Halves(c.leaf, all, s);
            StripAll(SplitKid(p, k, s, np).nodes) == BTreePlace.Parent(B.Frame(StripAll(p.nodes), k), left, all[s].key, right)
  {
    var c := p.nodes[k].page;
    var left := Link(p.nodes[k].key, c.(nodes := c.nodes[..s]));
    var right := Link(c.nodes[s].key, Tree(np, c.leaf, RightPart(c.leaf, c.nodes, s)));
    StripRight(c.leaf, c.nodes, s);
    StripCut(c.nodes, 0, s);
    assert c.nodes[0..s] == c.nodes[..s];
    StripReplace(p.nodes, k, k + 1, [left] + [right]);
    StripPair(left, right);
    BTreePlace.ParentIsReplace(B.Frame(StripAll(p.nodes), k), Strip(left.page), right.key, Strip(right.page));
  }

  /** A borrow, and the new separator in the parent. */
  lemma StripMove(p: Tree, k: nat, low: Key, s: nat)
    requires Neighbours(p, k) && s < |JoinedAt(p, k, low)|
    requires var l, r := p.nodes[k].page, p.nodes[k + 1].page;
             !l.leaf ==> r.nodes[0].Link? && JoinedAt(p, k, low)[s].Link?
    ensures var l, r := p.nodes[k].page, p.nodes[k + 1].page;
            && (!l.leaf ==> StripAll(r.nodes)[0].Link?)
            && var all := BTreeRebalance.Joined(l.leaf, StripAll(l.nodes), StripAll(r.nodes), low);
            && s < |all| && (!l.leaf ==> all[s].Link?)
            && StripAll(MoveKid(p, k, low, s).nodes) == BTreeRebalance.Borrowed(StripAll(p.nodes), k, l.leaf, all, s)
  {
    var l, r, all := p.nodes[k].page, p.nodes[k + 1].page, JoinedAt(p, k, low);
    var left := Link(p.nodes[k].key, l.(nodes := all[..s]));
    var right := Link(all[s].key, r.(nodes := RightPart(l.leaf, all, s)));
    StripJoined(l.leaf, l.nodes, r.nodes, low);
    StripRight(l.leaf, all, s);
    StripCut(all, 0, s);
    assert all[0..s] == all[..s];
    StripReplace(p.nodes, k, k + 2, [left] + [right]);
    StripPair(left, right);
  }

  /** A merge. */
  lemma StripMerge(p: Tree, k: nat, low: Key)
    requires Neighbours(p, k) && (!p.nodes[k].page.leaf ==> p.nodes[k + 1].page.nodes[0].Link?)
    ensures var l, r := p.nodes[k].page, p.nodes[k + 1].page;
            && (!l.leaf ==> StripAll(r.nodes)[0].Link?)
            && var all := BTreeRebalance.Joined(l.leaf, StripAll(l.nodes), StripAll(r.nodes), low);
            StripAll(MergeKids(p, k, low).nodes) == BTreeRebalance.Merged(StripAll(p.nodes), k, B.Page(l.leaf, all))
  {
    var l, r := p.nodes[k].page, p.nodes[k + 1].page;
    var one := Link(p.nodes[k].key, l.(nodes := JoinedAt(p, k, low)));
    StripJoined(l.leaf, l.nodes, r.nodes, low);
    StripReplace(p.nodes, k, k + 2, [one]);
    StripPair(one, one);
  }

  lemma StripAdd(p: Tree, at: nat, n: Node)
    requires at <= |p.nodes|
    ensures Strip(AddAt(p, at, n)) == B.Page(p.leaf, B.Insert(StripAll(p.nodes), at, StripNode(n)))
  {
    StripReplace(p.nodes, at, at, [n]);
    StripPair(n, n);
  }

  lemma StripDel(p: Tree, at: nat)
    requires at < |p.nodes|
    ensures Strip(DelAt(p, at)) == B.Page(p.leaf, B.Remove(StripAll(p.nodes), at))
  {
    StripReplace(p.nodes, at, at + 1, []);
    assert p.nodes[..at] + [] == p.nodes[..at];
    assert StripAll([]) == [];
  }

  lemma StripRooted(t: Tree, np: Pgno)
    ensures Strip(Rooted(t, np)) == B.Page(false, [B.Link([], Strip(t))])
  {
    StripPair(Link([], t), Link([], t));
  }

  // ---------------------------------------------------------------- a page in its tree

  /** The way a cursor stack leads. */
  function Path(stack: seq<B.Frame>): (r: seq<nat>)
    ensures |r| == |stack|
  {
    seq(|stack|, i requires 0 <= i < |stack| => stack[i].ki)
  }

  /** The tree is that of the stack with `page` at its bottom. */
  ghost predicate Stands(t: Tree, stack: seq<B.Frame>, page: B.Page) {
    B.Framed(stack) && Strip(t) == B.Zip(stack, page)
  }

  lemma StandsUp(t: Tree, stack: seq<B.Frame>, page: B.Page)
    requires Stands(t, stack, page) && stack != []
    ensures var n := |stack| - 1;
            && stack[n].ki < |stack[n].nodes|
            && Stands(t, stack[..n], B.Page(false, B.Filled(stack[n], page)))
            && Path(stack[..n]) == Path(stack)[..n] && Path(stack)[n] == stack[n].ki
  {
    hide Strip;
    assert stack[|stack| - 1] in stack;
  }

  lemma {:induction false} PathSnoc(t: Tree, path: seq<nat>, k: nat)
    requires PathIn(t, path) && k < |At(t, path).nodes| && At(t, path).nodes[k].Link?
    ensures PathIn(t, path + [k]) && At(t, path + [k]) == At(t, path).nodes[k].page
    decreases |path|
  {
    if path == [] {
      assert [k][1..] == [];
    } else {
      PathSnoc(t.nodes[path[0]].page, path[1..], k);
      assert (path + [k])[1..] == path[1..] + [k];
    }
  }

  /** The page at the end of the path is the one at the bottom of the stack. */
  lemma {:induction false} StandsAt(t: Tree, stack: seq<B.Frame>, page: B.Page)
    requires Stands(t, stack, page)
    ensures PathIn(t, Path(stack)) && Strip(At(t, Path(stack))) == page
    decreases |stack|
  {
    if stack == [] {
      assert Path(stack) == [];
    } else {
      hide *;
      var n := |stack| - 1;
      StandsUp(t, stack, page);
      StandsAt(t, stack[..n], B.Page(false, B.Filled(stack[n], page)));
      var p := At(t, Path(stack[..n]));
      ChildIs(p, stack[n], page);
      PathSnoc(t, Path(stack[..n]), stack[n].ki);
      assert Path(stack) == Path(stack)[..n] + [Path(stack)[n]];
    }
  }

  /** The child a frame's index leads to. */
  lemma ChildIs(p: Tree, f: B.Frame, page: B.Page)
    requires f.ki < |f.nodes| && Strip(p) == B.Page(false, B.Filled(f, page))
    ensures !p.leaf && StripAll(p.nodes) == B.Filled(f, page)
    ensures f.ki < |p.nodes| && p.nodes[f.ki].Link? && p.nodes[f.ki].key == f.nodes[f.ki].key
    ensures Strip(p.nodes[f.ki].page) == page
  {
    assert StripNode(p.nodes[f.ki]) == B.Link(f.nodes[f.ki].key, page);
  }

  lemma {:induction false} PutSnoc(t: Tree, path: seq<nat>, k: nat, s: Tree)
    requires PathIn(t, path) && k < |At(t, path).nodes| && At(t, path).nodes[k].Link?
    ensures PathIn(t, path + [k])
    ensures var p := At(t, path);
            Put(t, path + [k], s) == Put(t, path, p.(nodes := p.nodes[k := Link(p.nodes[k].key, s)]))
    decreases |path|
  {
    PathSnoc(t, path, k);
    if path == [] {
      assert [k][1..] == [];
    } else {
      PutSnoc(t.nodes[path[0]].page, path[1..], k, s);
      assert (path + [k])[1..] == path[1..] + [k];
    }
  }

  lemma StripFilled(p: Tree, f: B.Frame, page: B.Page, s: Tree)
    requires f.ki < |f.nodes| && Strip(p) == B.Page(false, B.Filled(f, page))
    requires f.ki < |p.nodes| && p.nodes[f.ki].Link? && p.nodes[f.ki].key == f.nodes[f.ki].key
    ensures Strip(p.(nodes := p.nodes[f.ki := Link(p.nodes[f.ki].key, s)])) == B.Page(false, B.Filled(f, Strip(s)))
  {
    var q := p.nodes[f.ki := Link(p.nodes[f.ki].key, s)];
    assert StripNode(q[f.ki]) == B.Link(f.nodes[f.ki].key, Strip(s));
    assert forall i | 0 <= i < |q| && i != f.ki :: StripNode(q[i]) == StripAll(p.nodes)[i];
    assert StripAll(q) == B.Filled(f, Strip(s));
  }

  /** Another page there. */
  lemma {:induction false} StandsPut(t: Tree, stack: seq<B.Frame>, page: B.Page, s: Tree)
    requires Stands(t, stack, page)
    ensures PathIn(t, Path(stack)) && Stands(Put(t, Path(stack), s), stack, Strip(s))
    decreases |stack|
  {
    StandsAt(t, stack, page);
    if stack == [] {
      assert Path(stack) == [];
    } else {
      var n := |stack| - 1;
      hide *;
      StandsUp(t, stack, page);
      var rest, f := stack[..n], stack[n];
      var up := B.Page(false, B.Filled(f, page));
      StandsAt(t, rest, up);
      var p := At(t, Path(rest));
      ChildIs(p, f, page);
      var q := p.(nodes := p.nodes[f.ki := Link(p.nodes[f.ki].key, s)]);
      PutSnoc(t, Path(rest), f.ki, s);
      assert Path(stack) == Path(stack)[..n] + [Path(stack)[n]];
      StripFilled(p, f, page, s);
      StandsPut(t, rest, up, q);
      StandsDown(Put(t, Path(rest), q), stack, Strip(s));
      FramedWas(t, stack, page);
    }
  }

  lemma FramedWas(t: Tree, stack: seq<B.Frame>, page: B.Page)
    requires Stands(t, stack, page)
    ensures B.Framed(stack)
  {}

  lemma StandsDown(t: Tree, stack: seq<B.Frame>, page: B.Page)
    requires stack != [] && stack[|stack| - 1].ki < |stack[|stack| - 1].nodes|
    requires Stands(t, stack[..|stack| - 1], B.Page(false, B.Filled(stack[|stack| - 1], page)))
    ensures B.Framed(stack) ==> Stands(t, stack, page)
  {
    hide Strip;
  }
}
