/** Copy on write (mdb_page_touch, mdb_cursor_touch, mdb.c): the pages from the root down to a leaf are
    replaced by writable copies, under new numbers, and everything else stays. */
module TouchPath {
  import opened PageTrees
  import opened Seqs

  // ---------------------------------------------------------------- paths in a tree

  /** The indexes lead down the tree. */
  ghost predicate PathIn(t: Tree, path: seq<nat>)
    decreases |path|
  {
    path == [] || (path[0] < |t.nodes| && t.nodes[path[0]].Link? && PathIn(t.nodes[path[0]].page, path[1..]))
  }

  /** The page at the end of a path. */
  function At(t: Tree, path: seq<nat>): Tree
    requires PathIn(t, path)
    decreases |path|
  {
    if path == [] then t else At(t.nodes[path[0]].page, path[1..])
  }

  /** The numbers of the pages along a path, as a cursor stack holds them. */
  ghost function Along(t: Tree, path: seq<nat>): (r: seq<Pgno>)
    requires PathIn(t, path)
    ensures |r| == |path| + 1 && r[0] == t.pgno
    decreases |path|
  {
    if path == [] then [t.pgno] else [t.pgno] + Along(t.nodes[path[0]].page, path[1..])
  }

  /** The tree with another number for the page at the end of the path. */
  ghost function With(t: Tree, path: seq<nat>, np: Pgno): Tree
    requires PathIn(t, path)
    decreases |path|
  {
    if path == [] then t.(pgno := np)
    else
      var k := path[0];
      t.(nodes := t.nodes[k := Link(t.nodes[k].key, With(t.nodes[k].page, path[1..], np))])
  }

  lemma {:induction false} PathCut(t: Tree, path: seq<nat>, d: nat)
    requires PathIn(t, path) && d <= |path|
    ensures PathIn(t, path[..d]) && Along(t, path)[d] == At(t, path[..d]).pgno
    decreases d
  {
    if d > 0 {
      PathCut(t.nodes[path[0]].page, path[1..], d - 1);
      assert path[..d][1..] == path[1..][..d - 1];
    }
  }

  /** The next page of the path is a child of this one. */
  lemma {:induction false} PathNext(t: Tree, path: seq<nat>, d: nat)
    requires PathIn(t, path) && d < |path|
    ensures PathIn(t, path[..d]) && PathIn(t, path[..d + 1])
    ensures var p := At(t, path[..d]);
            path[d] < |p.nodes| && p.nodes[path[d]].Link? && p.nodes[path[d]].page == At(t, path[..d + 1])
    decreases d
  {
    PathCut(t, path, d);
    PathCut(t, path, d + 1);
    if d > 0 {
      PathNext(t.nodes[path[0]].page, path[1..], d - 1);
      assert path[..d][1..] == path[1..][..d - 1] && path[..d + 1][1..] == path[1..][..d];
    } else {
      assert path[..1][1..] == [];
    }
  }

  lemma {:induction false} WithPath(t: Tree, path: seq<nat>, np: Pgno, q: seq<nat>)
    requires PathIn(t, path) && PathIn(t, q)
    ensures PathIn(With(t, path, np), q)
    ensures var r := With(t, path, np); var d := |path|;
            Along(r, q) == if path <= q then Along(t, q)[d := np] else Along(t, q)
    decreases |path|
  {
    if path == [] {
      var r := t.(pgno := np);
      if q != [] { assert r.nodes == t.nodes; }
    } else if q != [] && q[0] == path[0] {
      var k := path[0];
      WithPath(t.nodes[k].page, path[1..], np, q[1..]);
      assert path <= q <==> path[1..] <= q[1..];
    }
  }

  lemma {:induction false} WithSame(t: Tree, path: seq<nat>, np: Pgno)
    requires PathIn(t, path)
    ensures Same(t, With(t, path, np))
    decreases |path|
  {
    SameSelf(t);
    if path != [] {
      WithSame(t.nodes[path[0]].page, path[1..], np);
    }
  }

  lemma {:induction false} SameSelf(t: Tree)
    ensures Same(t, t)
    decreases t
  {
    forall i | 0 <= i < |t.nodes| ensures SameNode(t.nodes[i], t.nodes[i]) {
      match t.nodes[i]
      case Plain(_, _) =>
      case Big(_, _, _, _) =>
      case Link(_, c) => SameSelf(c);
      case Sub(_, _, r) => if r.Some? { SameSelf(r.value); }
    }
  }

  // ---------------------------------------------------------------- the pages of a tree

  ghost predicate Once(m: multiset<Pgno>) {
    forall p: Pgno :: m[p] <= 1
  }

  ghost function Bag(t: Tree): multiset<Pgno> { multiset(Used(t, true)) }

  ghost function Bags(ns: seq<Node>): multiset<Pgno> { multiset(UsedBy(ns, true)) }

  lemma BagIs(t: Tree)
    ensures Bag(t) == Bags(t.nodes) + multiset{t.pgno}
  {}

  lemma {:induction false} BagsAppend(a: seq<Node>, b: seq<Node>)
    ensures Bags(a + b) == Bags(a) + Bags(b)
    decreases |b|
  {
    if b == [] {
      assert a + b == a;
    } else {
      var k := |b| - 1;
      var ab := a + b;
      BagsAppend(a, b[..k]);
      assert ab[..|ab| - 1] == a + b[..k] && ab[|ab| - 1] == b[k];
    }
  }

  lemma BagsOne(n: Node)
    ensures Bags([n]) == multiset(UsedByNode(n, true))
  {
    assert [n][..0] == [];
    assert UsedBy([], true) == [];
  }

  /** The pages of the nodes: those below one of them, and those below the others. */
  lemma BagsAround(ns: seq<Node>, k: nat)
    requires k < |ns|
    ensures Bags(ns) == Bags(ns[..k]) + multiset(UsedByNode(ns[k], true)) + Bags(ns[k + 1..])
  {
    hide Bags;
    CutOne(ns, k);
    BagsAppend(ns[..k], [ns[k]] + ns[k + 1..]);
    BagsAppend([ns[k]], ns[k + 1..]);
    BagsOne(ns[k]);
  }

  lemma BagLink(t: Tree, k: nat)
    requires k < |t.nodes| && t.nodes[k].Link?
    ensures Bag(t) == Bags(t.nodes[..k]) + Bag(t.nodes[k].page) + Bags(t.nodes[k + 1..]) + multiset{t.pgno}
  {
    BagIs(t);
    BagsAround(t.nodes, k);
  }

  lemma {:induction false} PathUsed(t: Tree, path: seq<nat>)
    requires PathIn(t, path)
    ensures At(t, path).pgno in Bag(t)
    decreases |path|
  {
    if path == [] {
      BagIs(t);
    } else {
      BagLink(t, path[0]);
      PathUsed(t.nodes[path[0]].page, path[1..]);
    }
  }

  /** One number goes, another comes. */
  lemma {:induction false} WithBag(t: Tree, path: seq<nat>, np: Pgno)
    requires PathIn(t, path)
    ensures Bag(With(t, path, np)) + multiset{At(t, path).pgno} == Bag(t) + multiset{np}
    decreases |path|
  {
    var r := With(t, path, np);
    if path == [] {
      BagIs(t);
      BagIs(r);
    } else {
      var k := path[0];
      WithBag(t.nodes[k].page, path[1..], np);
      BagLink(t, k);
      BagLink(r, k);
      assert r.nodes[..k] == t.nodes[..k] && r.nodes[k + 1..] == t.nodes[k + 1..];
      Exchange(Bags(t.nodes[..k]), Bag(t.nodes[k].page), Bag(r.nodes[k].page), Bags(t.nodes[k + 1..]), multiset{t.pgno},
               multiset{At(t, path).pgno}, multiset{np});
    }
  }

  lemma Exchange(a: multiset<Pgno>, b: multiset<Pgno>, c: multiset<Pgno>, d: multiset<Pgno>, e: multiset<Pgno>,
                 x: multiset<Pgno>, y: multiset<Pgno>)
    requires c + x == b + y
    ensures (a + c + d + e) + x == (a + b + d + e) + y
  {
    assert (a + c + d + e) + x == (a + d + e) + (c + x);
    assert (a + b + d + e) + y == (a + d + e) + (b + y);
  }

  // ---------------------------------------------------------------- what other pages do not matter to

  /** The files agree on these pages. */
  ghost predicate Agree(f: seq<Cell>, g: seq<Cell>, m: multiset<Pgno>) {
    |f| == |g| && forall p | p in m && p < |f| :: g[p] == f[p]
  }

  lemma {:induction false} Frame(f: seq<Cell>, g: seq<Cell>, t: Tree)
    requires Holds(f, t) && Agree(f, g, Bag(t))
    ensures Holds(g, t)
    decreases t
  {
    BagIs(t);
    FrameAll(f, g, t.nodes);
  }

  lemma {:induction false} FrameAll(f: seq<Cell>, g: seq<Cell>, ns: seq<Node>)
    requires HoldsAll(f, ns) && Agree(f, g, Bags(ns))
    ensures HoldsAll(g, ns)
    decreases ns
  {
    forall i | 0 <= i < |ns| ensures HoldsNode(g, ns[i]) {
      assert HoldsNode(f, ns[i]);
      BagsAround(ns, i);
      FrameNode(f, g, ns[i]);
    }
  }

  lemma {:induction false} FrameNode(f: seq<Cell>, g: seq<Cell>, n: Node)
    requires HoldsNode(f, n) && Agree(f, g, multiset(UsedByNode(n, true)))
    ensures HoldsNode(g, n)
    decreases n
  {
    match n
    case Plain(_, _) =>
    case Big(_, _, p, chunks) => FrameRun(f, g, p, chunks);
    case Link(_, c) => Frame(f, g, c);
    case Sub(_, _, r) => if r.Some? { Frame(f, g, r.value); }
  }

  lemma FrameRun(f: seq<Cell>, g: seq<Cell>, p: Pgno, chunks: seq<Bytes>)
    requires RunAt(f, p, chunks) && Agree(f, g, multiset(Range(p, |chunks|)))
    ensures RunAt(g, p, chunks)
  {
    RunCell(f, g, p, |chunks|, 0);
    forall k | 1 <= k < |chunks| ensures g[p + k] == Rest(chunks[k]) {
      RunCell(f, g, p, |chunks|, k);
    }
  }

  lemma RunCell(f: seq<Cell>, g: seq<Cell>, p: Pgno, n: nat, k: nat)
    requires Agree(f, g, multiset(Range(p, n))) && k < n && p + n <= |f|
    ensures g[p + k] == f[p + k]
  {
    var r := Range(p, n);
    assert r[k] in multiset(r);
  }

  // ---------------------------------------------------------------- touching one page

  /** In g the page at the end of the path stands at np as well, and its parent, if it has one, points
      there; of the other pages of the tree none is changed. */
  ghost predicate Copies(f: seq<Cell>, g: seq<Cell>, t: Tree, path: seq<nat>, np: Pgno)
    requires PathIn(t, path)
  {
    && |f| == |g| && np < |f| && np !in Bag(t)
    && g[np] == Page(np, At(t, path).leaf, Entries(At(t, path).nodes))
    && if path == [] then Agree(f, g, Bag(t)) else ParentPoints(f, g, t, path, np)
  }

  ghost predicate ParentPoints(f: seq<Cell>, g: seq<Cell>, t: Tree, path: seq<nat>, np: Pgno)
    requires PathIn(t, path) && path != [] && |f| == |g|
  {
    var d := |path| - 1;
    PathNext(t, path, d);
    var pp := At(t, path[..d]);
    && pp.pgno < |f| && g[pp.pgno] == Page(pp.pgno, pp.leaf, Entries(Linked(pp, path[d], np)))
    && forall p | p in Bag(t) && p != pp.pgno && p < |f| :: g[p] == f[p]
  }

  /** The nodes of a page with another number for child k. */
  ghost function Linked(t: Tree, k: nat, np: Pgno): seq<Node>
    requires k < |t.nodes| && t.nodes[k].Link?
  {
    t.nodes[k := Link(t.nodes[k].key, t.nodes[k].page.(pgno := np))]
  }

  /** The new tree is in the file. */
  lemma {:induction false} CopyHeld(f: seq<Cell>, g: seq<Cell>, t: Tree, path: seq<nat>, np: Pgno)
    requires Holds(f, t) && PathIn(t, path) && Once(Bag(t)) && Copies(f, g, t, path, np)
    ensures Holds(g, With(t, path, np))
    decreases |path|
  {
    BagIs(t);
    if path == [] {
      FrameAll(f, g, t.nodes);
    } else {
      var k := path[0];
      var c := t.nodes[k].page;
      assert HoldsNode(f, t.nodes[k]);
      BagLink(t, k);
      CopiesBelow(f, g, t, path, np);
      OncePart(Bag(t), Bag(c));
      CopyHeld(f, g, c, path[1..], np);
      OthersHeld(f, g, t, path, np);
      RootHeld(f, g, t, path, np);
      hide Copies, Bag, Once;
      Assembled(g, t, path, np);
    }
  }

  lemma Assembled(g: seq<Cell>, t: Tree, path: seq<nat>, np: Pgno)
    requires PathIn(t, path) && path != [] && t.pgno < |g|
    requires g[t.pgno] == Page(t.pgno, t.leaf, Entries(With(t, path, np).nodes))
    requires Holds(g, With(t.nodes[path[0]].page, path[1..], np))
    requires forall i | 0 <= i < |t.nodes| && i != path[0] :: HoldsNode(g, t.nodes[i])
    ensures Holds(g, With(t, path, np))
  {
    var ns := With(t, path, np).nodes;
    forall i | 0 <= i < |ns| ensures HoldsNode(g, ns[i]) {
      if i != path[0] { assert ns[i] == t.nodes[i]; }
    }
  }

  lemma OncePart(m: multiset<Pgno>, n: multiset<Pgno>)
    requires Once(m) && n <= m
    ensures Once(n)
  {}
  lemma {:induction false} PathHolds(f: seq<Cell>, t: Tree, path: seq<nat>)
    requires Holds(f, t) && PathIn(t, path)
    ensures Holds(f, At(t, path)) && At(t, path).pgno < |f|
    decreases |path|
  {
    if path != [] {
      assert HoldsNode(f, t.nodes[path[0]]);
      PathHolds(f, t.nodes[path[0]].page, path[1..]);
    }
  }

  /** The parent of the page at the end of the path is below this page, or is this page. */
  lemma ParentWhere(t: Tree, path: seq<nat>)
    requires PathIn(t, path) && path != []
    ensures var d := |path| - 1;
            && PathIn(t, path[..d])
            && if d == 0 then At(t, path[..d]) == t
               else PathIn(t.nodes[path[0]].page, path[1..][..d - 1])
                    && At(t, path[..d]) == At(t.nodes[path[0]].page, path[1..][..d - 1])
                    && At(t, path[..d]).pgno in Bag(t.nodes[path[0]].page)
  {
    var d := |path| - 1;
    PathCut(t, path, d);
    if d > 0 {
      assert path[..d][1..] == path[1..][..d - 1];
      PathUsed(t.nodes[path[0]].page, path[1..][..d - 1]);
    }
  }

  lemma CopiesBelow(f: seq<Cell>, g: seq<Cell>, t: Tree, path: seq<nat>, np: Pgno)
    requires PathIn(t, path) && path != [] && Once(Bag(t)) && Copies(f, g, t, path, np)
    ensures Copies(f, g, t.nodes[path[0]].page, path[1..], np)
  {
    var k, d := path[0], |path| - 1;
    var c := t.nodes[k].page;
    BagLink(t, k);
    ParentWhere(t, path);
    if d > 0 {
      assert path[1..][d - 1] == path[d];
    } else {
      assert path[1..] == [];
      assert t.pgno !in Bag(c) by { Twice(Bag(t), Bag(c), t.pgno); }
    }
  }

  /** A page that is in one part cannot be in another. */
  lemma Twice(m: multiset<Pgno>, a: multiset<Pgno>, p: Pgno)
    requires Once(m) && a + multiset{p} <= m
    ensures p !in a
  {
    assert (a + multiset{p})[p] == a[p] + 1;
  }

  /** The pages below two different nodes and the page itself are different pages. */
  lemma TwoNodes(t: Tree, i: nat, k: nat)
    requires i < |t.nodes| && k < |t.nodes| && i != k
    ensures multiset(UsedByNode(t.nodes[i], true)) + multiset(UsedByNode(t.nodes[k], true)) + multiset{t.pgno} <= Bag(t)
  {
    var ns := t.nodes;
    BagIs(t);
    BagsAround(ns, k);
    if i < k {
      BagsAround(ns[..k], i);
      assert ns[..k][i] == ns[i];
    } else {
      BagsAround(ns[k + 1..], i - k - 1);
      assert ns[k + 1..][i - k - 1] == ns[i];
    }
  }

  lemma OthersHeld(f: seq<Cell>, g: seq<Cell>, t: Tree, path: seq<nat>, np: Pgno)
    requires Holds(f, t) && PathIn(t, path) && path != [] && Once(Bag(t)) && Copies(f, g, t, path, np)
    ensures forall i | 0 <= i < |t.nodes| && i != path[0] :: HoldsNode(g, t.nodes[i])
  {
    var k := path[0];
    ParentWhere(t, path);
    forall i | 0 <= i < |t.nodes| && i != k ensures HoldsNode(g, t.nodes[i]) {
      assert HoldsNode(f, t.nodes[i]);
      var m, c := multiset(UsedByNode(t.nodes[i], true)), Bag(t.nodes[k].page);
      TwoNodes(t, i, k);
      forall p | p in m && p < |f| ensures g[p] == f[p] {
        assert m[p] + c[p] + multiset{t.pgno}[p] <= Bag(t)[p];
      }
      FrameNode(f, g, t.nodes[i]);
    }
  }

  lemma RootHeld(f: seq<Cell>, g: seq<Cell>, t: Tree, path: seq<nat>, np: Pgno)
    requires Holds(f, t) && PathIn(t, path) && path != [] && Once(Bag(t)) && Copies(f, g, t, path, np)
    ensures t.pgno < |g| && g[t.pgno] == Page(t.pgno, t.leaf, Entries(With(t, path, np).nodes))
  {
    var k, d := path[0], |path| - 1;
    var c := t.nodes[k].page;
    ParentWhere(t, path);
    if d == 0 {
      assert path[1..] == [];
      assert With(t, path, np).nodes == Linked(t, k, np);
    } else {
      BagLink(t, k);
      BagIs(t);
      Twice(Bag(t), Bag(c), t.pgno);
      assert Entries(With(t, path, np).nodes) == Entries(t.nodes);
    }
  }

  // ---------------------------------------------------------------- cursors

  lemma Elsewhere(t: Tree, a: seq<nat>, b: seq<nat>)
    requires PathIn(t, a) && PathIn(t, b) && a != [] && b != [] && a[0] != b[0] && Once(Bag(t))
    ensures At(t, a).pgno != At(t, b).pgno
  {
    var x, y := t.nodes[a[0]].page, t.nodes[b[0]].page;
    PathUsed(x, a[1..]);
    PathUsed(y, b[1..]);
    TwoNodes(t, a[0], b[0]);
    var p, q := At(t, a).pgno, At(t, b).pgno;
    assert Bag(x)[p] + Bag(y)[p] <= Bag(t)[p];
  }

  /** A cursor stack has this page at this level exactly when its path starts like the path there. */
  lemma {:induction false} SamePage(t: Tree, path: seq<nat>, q: seq<nat>)
    requires PathIn(t, path) && PathIn(t, q) && |path| <= |q| && Once(Bag(t))
    ensures Along(t, q)[|path|] == At(t, path).pgno <==> path <= q
    decreases |path|
  {
    if path != [] {
      if q[0] == path[0] {
        BagLink(t, path[0]);
        OncePart(Bag(t), Bag(t.nodes[path[0]].page));
        SamePage(t.nodes[path[0]].page, path[1..], q[1..]);
        assert path <= q <==> path[1..] <= q[1..];
      } else {
        PathCut(t, q, |path|);
        Elsewhere(t, path, q[..|path|]);
      }
    }
  }

  /** A stack that held the page gets the copy, others stay, and both are right for the new tree. */
  lemma StackMoves(t: Tree, path: seq<nat>, np: Pgno, q: seq<nat>)
    requires PathIn(t, path) && PathIn(t, q) && |path| <= |q| && Once(Bag(t))
    ensures PathIn(With(t, path, np), q)
    ensures Along(With(t, path, np), q)
         == if Along(t, q)[|path|] == At(t, path).pgno then Along(t, q)[|path| := np] else Along(t, q)
  {
    SamePage(t, path, q);
    WithPath(t, path, np, q);
  }

  lemma {:induction false} SameTrans(a: Tree, b: Tree, c: Tree)
    requires Same(a, b) && Same(b, c)
    ensures Same(a, c)
    decreases a
  {
    forall i | 0 <= i < |a.nodes| ensures SameNode(a.nodes[i], c.nodes[i]) {
      assert SameNode(a.nodes[i], b.nodes[i]) && SameNode(b.nodes[i], c.nodes[i]);
      match a.nodes[i]
      case Plain(_, _) =>
      case Big(_, _, _, _) =>
      case Link(_, t) => SameTrans(t, b.nodes[i].page, c.nodes[i].page);
      case Sub(_, _, r) => if r.Some? { SameTrans(r.value, b.nodes[i].root.value, c.nodes[i].root.value); }
    }
  }

  lemma OnceWith(t: Tree, path: seq<nat>, np: Pgno)
    requires PathIn(t, path) && Once(Bag(t)) && np !in Bag(t)
    ensures Once(Bag(With(t, path, np)))
  {
    WithBag(t, path, np);
    var r := With(t, path, np);
    forall p: Pgno ensures Bag(r)[p] <= 1 {
      assert (Bag(r) + multiset{At(t, path).pgno})[p] == (Bag(t) + multiset{np})[p];
    }
  }

  /** A tree none of whose pages is written to stays in the file: so do the snapshots readers use. */
  lemma SnapshotKept(f: seq<Cell>, g: seq<Cell>, s: Tree, dirty: set<Pgno>)
    requires Holds(f, s) && |f| == |g| && forall p | 0 <= p < |f| && p !in dirty :: g[p] == f[p]
    requires forall p | p in Bag(s) :: p !in dirty
    ensures Holds(g, s)
  {
    Frame(f, g, s);
  }

  // ---------------------------------------------------------------- the walk down

  datatype Cursor = Cursor(kis: seq<nat>, pages: seq<Pgno>)

  class Writer {
    /** The pages as this transaction sees them, by number. */
    var file: seq<Cell>
    /** The numbers of writable pages, mt_free_pgs, and md_root. */
    var dirty: set<Pgno>
    var freed: seq<Pgno>
    var root: Pgno
    /** The cursor at work, and the others on the same database. */
    var cur: Cursor
    var others: array<Cursor>

    constructor (file: seq<Cell>, dirty: set<Pgno>, root: Pgno, cur: Cursor, others: array<Cursor>)
      ensures this.file == file && this.dirty == dirty && freed == [] && this.root == root && this.cur == cur
      ensures this.others == others
    {
      this.file, this.dirty, freed, this.root, this.cur, this.others := file, dirty, [], root, cur, others;
    }

    /** The database is the tree t, and every cursor stack leads down this tree. */
    ghost predicate Shows(t: Tree)
      reads this, others
    {
      && Holds(file, t) && root == t.pgno && Once(Bag(t)) && Leads(t, cur)
      && forall k | 0 <= k < others.Length :: Leads(t, others[k]) && |others[k].kis| == |cur.kis|
    }

    /** `mdb_page_touch` at level d of the cursor; np is the page that `mdb_page_alloc` would give. */
    method Touch(d: nat, np: Pgno, ghost t: Tree) returns (copied: bool, ghost t': Tree)
      requires Shows(t) && d < |cur.pages| && (d > 0 ==> cur.pages[d - 1] in dirty)
      requires np < |file| && np !in Bag(t) && np !in dirty
      modifies this`file, this`dirty, this`freed, this`root, this`cur, others
      ensures Shows(t') && Same(t, t') && cur.kis == old(cur.kis) && copied == (old(cur.pages[d]) !in old(dirty))
      ensures !copied ==> t' == t && file == old(file) && dirty == old(dirty) && freed == old(freed) && cur == old(cur)
      ensures copied ==>
                && cur.pages == old(cur.pages)[d := np] && dirty == old(dirty) + {np} && freed == old(freed) + [old(cur.pages[d])]
                && Bag(t') + multiset{old(cur.pages[d])} == Bag(t) + multiset{np}
      ensures |file| == |old(file)| && forall p | 0 <= p < |file| && p !in dirty :: file[p] == old(file)[p]
    {
      hide *;
      ShownTree(this, t);
      StackPage(t, cur, d);
      ghost var f, path := file, cur.kis[..d];
      PageAt(file, t, path);
      copied, t' := false, t;
      var mp := cur.pages[d];
      if mp in dirty {
        SameSelf(t);
        return;
      }
      copied, t' := true, With(t, path, np);
      var page := file[mp];
      freed := freed + [mp];
      if d > 0 {
        var parent := cur.pages[d - 1];
        ParentCell(file, t, cur, d);
        file := file[parent := Relinked(file[parent], cur.kis[d - 1], np)];
      } else {
        root := np;
      }
      file := file[np := Page(np, page.leaf, page.entries)];
      dirty := dirty + {np};
      cur := cur.(pages := cur.pages[d := np]);
      MoveOthers(d, mp, np);
      IsCopied(f, file, t, old(cur), d, np);
      CopyHeld(f, file, t, path, np);
      OnceWith(t, path, np);
      WithBag(t, path, np);
      WithSame(t, path, np);
      CursorsMoved(t, path, d, mp, np, old(cur), old(others[..]), others[..]);
      RootIs(t, path, np);
      NowShows(this, t');
    }

    /** `mdb_cursor_touch` within the database: from the root down, with as many new pages as there are
        pages to copy. Afterwards every page of the stack is writable; the database is the same, and so
        is every page that is not writable; what was freed is what was replaced. */
    method TouchAll(news: seq<Pgno>, ghost t: Tree) returns (used: nat, ghost t': Tree)
      requires Shows(t) && |news| == |cur.pages|
      requires forall i | 0 <= i < |news| :: news[i] < |file| && news[i] !in Bag(t) && news[i] !in dirty
      requires forall i, j | 0 <= i < j < |news| :: news[i] != news[j]
      modifies this`file, this`dirty, this`freed, this`root, this`cur, others
      ensures Shows(t') && Same(t, t') && cur.kis == old(cur.kis)
      ensures forall d | 0 <= d < |cur.pages| :: cur.pages[d] in dirty
      ensures used <= |news| && dirty == old(dirty) + Numbers(news[..used]) && old(freed) <= freed
      ensures |file| == |old(file)| && forall p | 0 <= p < |file| && p !in dirty :: file[p] == old(file)[p]
      ensures Bag(t') + multiset(freed[|old(freed)|..]) == Bag(t) + multiset(news[..used])
    {
      hide *;
      used, t' := 0, t;
      SameSelf(t);
      var d := 0;
      assert freed[|freed|..] == [] && news[..0] == [];
      NoNumbers();
      while d < |cur.pages|
        invariant 0 <= d <= |cur.pages| == |news| && used <= d && cur.kis == old(cur.kis)
        invariant Shows(t') && Same(t, t')
        invariant forall i | 0 <= i < d :: cur.pages[i] in dirty
        invariant forall i | used <= i < |news| :: news[i] < |file| && news[i] !in Bag(t') && news[i] !in dirty
        invariant dirty == old(dirty) + Numbers(news[..used]) && old(freed) <= freed
        invariant |file| == |old(file)| && forall p | 0 <= p < |file| && p !in dirty :: file[p] == old(file)[p]
        invariant Bag(t') + multiset(freed[|old(freed)|..]) == Bag(t) + multiset(news[..used])
      {
        ghost var t0, d0, fr, n := t', dirty, freed, |old(freed)|;
        ghost var mp := cur.pages[d];
        var copied, t1 := Touch(d, news[used], t');
        SameTrans(t, t', t1);
        if copied {
          TakeSnoc(news, used);
          OneNumber(news[..used], news[used]);
          assert freed[n..] == fr[n..] + [mp];
          Balance(Bag(t0), Bag(t1), Bag(t), fr[n..], mp, news[..used], news[used]);
          StillNew(news, used, Bag(t0), Bag(t1), mp);
          used := used + 1;
        }
        t' := t1;
        d := d + 1;
      }
    }

    /** Every cursor on the page that was copied goes to the copy. */
    method MoveOthers(d: nat, mp: Pgno, np: Pgno)
      modifies others
      ensures forall j | 0 <= j < others.Length :: others[j] == old(others[j]).(pages := Moved(old(others[j].pages), d, mp, np))
    {
      var k := 0;
      while k < others.Length
        invariant 0 <= k <= others.Length
        invariant forall j | 0 <= j < k :: others[j] == old(others[j]).(pages := Moved(old(others[j].pages), d, mp, np))
        invariant forall j | k <= j < others.Length :: others[j] == old(others[j])
      {
        others[k] := others[k].(pages := Moved(others[k].pages, d, mp, np));
        k := k + 1;
      }
    }
  }

  /** What other cursors do about a page that was copied. */
  function Moved(pages: seq<Pgno>, d: nat, mp: Pgno, np: Pgno): seq<Pgno> {
    if d < |pages| && pages[d] == mp then pages[d := np] else pages
  }

  /** The entry of a branch page, with another child. */
  function Relinked(c: Cell, k: nat, np: Pgno): Cell
    requires c.Page? && k < |c.entries| && c.entries[k].Child?
  {
    c.(entries := c.entries[k := Child(c.entries[k].key, np)])
  }

  lemma ShownTree(w: Writer, t: Tree)
    requires w.Shows(t)
    ensures Holds(w.file, t) && w.root == t.pgno && Once(Bag(t)) && Leads(t, w.cur)
    ensures forall k | 0 <= k < w.others.Length :: Leads(t, w.others[k]) && |w.others[k].kis| == |w.cur.kis|
  {}

  lemma NowShows(w: Writer, t: Tree)
    requires Holds(w.file, t) && w.root == t.pgno && Once(Bag(t)) && Leads(t, w.cur)
    requires forall k | 0 <= k < w.others.Length :: Leads(t, w.others[k]) && |w.others[k].kis| == |w.cur.kis|
    ensures w.Shows(t)
  {}

  lemma StackPage(t: Tree, c: Cursor, d: nat)
    requires Leads(t, c) && d < |c.pages|
    ensures d <= |c.kis| && |c.pages| == |c.kis| + 1 && PathIn(t, c.kis[..d]) && c.pages[d] == At(t, c.kis[..d]).pgno
  {
    PathCut(t, c.kis, d);
  }

  lemma PageAt(f: seq<Cell>, t: Tree, path: seq<nat>)
    requires Holds(f, t) && PathIn(t, path)
    ensures var p := At(t, path); p.pgno < |f| && f[p.pgno] == Page(p.pgno, p.leaf, Entries(p.nodes)) && p.pgno in Bag(t)
  {
    PathHolds(f, t, path);
    PathUsed(t, path);
  }

  /** The page above level d holds the link that is to change. */
  lemma ParentCell(f: seq<Cell>, t: Tree, c: Cursor, d: nat)
    requires Holds(f, t) && Leads(t, c) && 0 < d < |c.pages|
    ensures d <= |c.kis| && c.pages[d - 1] < |f| && f[c.pages[d - 1]].Page? && c.pages[d - 1] in Bag(t)
    ensures c.kis[d - 1] < |f[c.pages[d - 1]].entries| && f[c.pages[d - 1]].entries[c.kis[d - 1]].Child?
  {
    PathCut(t, c.kis, d - 1);
    PathNext(t, c.kis, d - 1);
    PageAt(f, t, c.kis[..d - 1]);
  }

  lemma IsCopied(f: seq<Cell>, g: seq<Cell>, t: Tree, c: Cursor, d: nat, np: Pgno)
    requires Holds(f, t) && Leads(t, c) && d < |c.pages| && np < |f| && np !in Bag(t) && Once(Bag(t))
    requires c.pages[d] < |f| && f[c.pages[d]].Page? && d <= |c.kis|
    requires d > 0 ==> c.pages[d - 1] < |f| && f[c.pages[d - 1]].Page? && c.kis[d - 1] < |f[c.pages[d - 1]].entries|
                       && f[c.pages[d - 1]].entries[c.kis[d - 1]].Child?
    requires g == (if d > 0 then f[c.pages[d - 1] := Relinked(f[c.pages[d - 1]], c.kis[d - 1], np)] else f)
                  [np := Page(np, f[c.pages[d]].leaf, f[c.pages[d]].entries)]
    ensures PathIn(t, c.kis[..d]) && Copies(f, g, t, c.kis[..d], np)
  {
    var path := c.kis[..d];
    PathCut(t, c.kis, d);
    PageAt(f, t, path);
    if d > 0 {
      PathCut(t, c.kis, d - 1);
      PathNext(t, c.kis, d - 1);
      PathNext(t, path, d - 1);
      PageAt(f, t, c.kis[..d - 1]);
      assert path[..d - 1] == c.kis[..d - 1];
      var pp := At(t, path[..d - 1]);
      assert Entries(pp.nodes)[path[d - 1] := Child(pp.nodes[path[d - 1]].key, np)] == Entries(Linked(pp, path[d - 1], np));
    }
  }

  lemma RootIs(t: Tree, path: seq<nat>, np: Pgno)
    requires PathIn(t, path)
    ensures With(t, path, np).pgno == if path == [] then np else t.pgno
  {}

  lemma CursorsMoved(t: Tree, path: seq<nat>, d: nat, mp: Pgno, np: Pgno, c: Cursor, a: seq<Cursor>, b: seq<Cursor>)
    requires PathIn(t, path) && Once(Bag(t)) && |path| == d <= |c.kis| && path == c.kis[..d] && mp == At(t, path).pgno
    requires Leads(t, c) && |a| == |b| && forall k | 0 <= k < |a| :: Leads(t, a[k]) && |a[k].kis| == |c.kis|
    requires forall k | 0 <= k < |a| :: b[k] == a[k].(pages := Moved(a[k].pages, d, mp, np))
    ensures |c.pages| == |c.kis| + 1 && Leads(With(t, path, np), c.(pages := c.pages[d := np]))
    ensures forall k | 0 <= k < |a| :: Leads(With(t, path, np), b[k]) && |b[k].kis| == |c.kis|
  {
    PathCut(t, c.kis, d);
    StackMoves(t, path, np, c.kis);
    forall k | 0 <= k < |a| ensures Leads(With(t, path, np), b[k]) && |b[k].kis| == |c.kis| {
      StackMoves(t, path, np, a[k].kis);
    }
  }

  /** The stack of the cursor is the pages along its path. */
  ghost predicate Leads(t: Tree, c: Cursor) {
    PathIn(t, c.kis) && c.pages == Along(t, c.kis)
  }

  ghost function Numbers(s: seq<Pgno>): set<Pgno> {
    set p | p in s
  }

  lemma NoNumbers()
    ensures Numbers([]) == {}
  {}

  lemma OneNumber(s: seq<Pgno>, p: Pgno)
    ensures Numbers(s + [p]) == Numbers(s) + {p}
  {}

  lemma Balance(b0: multiset<Pgno>, b1: multiset<Pgno>, b: multiset<Pgno>, freed: seq<Pgno>, mp: Pgno, news: seq<Pgno>, np: Pgno)
    requires b0 + multiset(freed) == b + multiset(news) && b1 + multiset{mp} == b0 + multiset{np}
    ensures b1 + multiset(freed + [mp]) == b + multiset(news + [np])
  {
    assert b1 + multiset(freed + [mp]) == (b1 + multiset{mp}) + multiset(freed);
    assert (b0 + multiset{np}) + multiset(freed) == (b0 + multiset(freed)) + multiset{np};
    assert b + multiset(news + [np]) == (b + multiset(news)) + multiset{np};
  }

  lemma StillNew(news: seq<Pgno>, used: nat, b0: multiset<Pgno>, b1: multiset<Pgno>, mp: Pgno)
    requires used < |news| && b1 + multiset{mp} == b0 + multiset{news[used]}
    requires forall i | used <= i < |news| :: news[i] !in b0
    requires forall i, j | 0 <= i < j < |news| :: news[i] != news[j]
    ensures forall i | used < i < |news| :: news[i] !in b1
  {
    forall i | used < i < |news| ensures news[i] !in b1 {
      var p := news[i];
      assert (b1 + multiset{mp})[p] == (b0 + multiset{news[used]})[p];
    }
  }
}
