/** Splits, borrows and merges from a page of a tree up to its root (mdb_page_split, mdb_rebalance, mdb.c), in a tree
    whose pages have numbers: the tree stays in order, and the transaction's pages stay those of its trees. */
module NumberedPlace {
  import opened Options
  import opened Keys
  import opened PageTrees
  import opened TouchPath
  import opened PageUnits
  import opened TreePages
  import opened NumberedTree
  import TxnPages
  import B = BTree
  import S = BTreeSplit
  import P = BTreePlace
  import R = BTreeRebalance
  import W = BTreeRows
  import F = UnderfullPages

  datatype Outcome = Ok | NotFound | Incompatible | Full | NoPage

  // ---------------------------------------------------------------- pages of this transaction

  /** The transaction may change every page along the path. */
  ghost predicate Owned(t: Tree, path: seq<nat>, dirty: set<nat>)
    decreases |path|
  {
    && t.pgno in dirty
    && (path == [] ||
        (path[0] < |t.nodes| && t.nodes[path[0]].Link? && Owned(t.nodes[path[0]].page, path[1..], dirty)))
  }

  lemma {:induction false} OwnedAt(t: Tree, path: seq<nat>, dirty: set<nat>)
    requires Owned(t, path, dirty)
    ensures PathIn(t, path) && At(t, path).pgno in dirty
    decreases |path|
  {
    if path != [] { OwnedAt(t.nodes[path[0]].page, path[1..], dirty); }
  }

  lemma {:induction false} OwnedCut(t: Tree, path: seq<nat>, dirty: set<nat>)
    requires Owned(t, path, dirty) && path != []
    ensures Owned(t, path[..|path| - 1], dirty)
    decreases |path|
  {
    if |path| > 1 {
      OwnedCut(t.nodes[path[0]].page, path[1..], dirty);
      assert path[..|path| - 1][1..] == path[1..][..|path| - 2];
    }
  }

  /** And a child of the page at its end. */
  lemma {:induction false} OwnedSnoc(t: Tree, path: seq<nat>, k: nat, dirty: set<nat>)
    requires Owned(t, path, dirty) && PathIn(t, path)
    requires k < |At(t, path).nodes| && At(t, path).nodes[k].Link? && At(t, path).nodes[k].page.pgno in dirty
    ensures Owned(t, path + [k], dirty)
    decreases |path|
  {
    if path == [] {
      assert [k][1..] == [];
    } else {
      OwnedSnoc(t.nodes[path[0]].page, path[1..], k, dirty);
      assert (path + [k])[1..] == path[1..] + [k];
    }
  }

  lemma {:induction false} OwnedPut(t: Tree, path: seq<nat>, s: Tree, dirty: set<nat>)
    requires Owned(t, path, dirty) && s.pgno in dirty && PathIn(t, path)
    ensures Owned(Put(t, path, s), path, dirty)
    decreases |path|
  {
    if path != [] { OwnedPut(t.nodes[path[0]].page, path[1..], s, dirty); }
  }

  /** The same with other sets: what matters is the pages of the tree. */
  lemma {:induction false} OwnedStill(t: Tree, path: seq<nat>, dirty: set<nat>, now: set<nat>)
    requires Owned(t, path, dirty) && forall p | p in Bag(t) && p in dirty :: p in now
    ensures Owned(t, path, now)
    decreases |path|
  {
    BagIs(t);
    assert t.pgno in Bag(t);
    if path != [] {
      BagLink(t, path[0]);
      OwnedStill(t.nodes[path[0]].page, path[1..], dirty, now);
    }
  }

  lemma {:induction false} OwnedMore(t: Tree, path: seq<nat>, dirty: set<nat>, now: set<nat>)
    requires Owned(t, path, dirty) && dirty <= now
    ensures Owned(t, path, now)
    decreases |path|
  {
    if path != [] { OwnedMore(t.nodes[path[0]].page, path[1..], dirty, now); }
  }

  lemma {:induction false} OwnedWith(t: Tree, path: seq<nat>, np: Pgno, dirty: set<nat>)
    requires PathIn(t, path) && np in dirty && (path != [] ==> Owned(t, path[..|path| - 1], dirty))
    ensures Owned(With(t, path, np), path, dirty)
    decreases |path|
  {
    if path != [] {
      var rest := path[1..];
      if rest != [] { assert path[..|path| - 1][1..] == rest[..|rest| - 1]; }
      OwnedWith(t.nodes[path[0]].page, rest, np, dirty);
    }
  }

  // ---------------------------------------------------------------- a new number changes nothing else

  lemma {:induction false} StripWith(t: Tree, path: seq<nat>, np: Pgno)
    requires PathIn(t, path)
    ensures Strip(With(t, path, np)) == Strip(t)
    decreases |path|
  {
    if path != [] {
      var k := path[0];
      StripWith(t.nodes[k].page, path[1..], np);
      var m := With(t, path, np).nodes;
      assert forall i | 0 <= i < |m| && i != k :: m[i] == t.nodes[i];
      assert StripNode(m[k]) == StripNode(t.nodes[k]);
      assert StripAll(m) == StripAll(t.nodes);
    }
  }

  /** Trees alike but for page numbers have the same paths. */
  lemma {:induction false} SamePaths(a: Tree, b: Tree, path: seq<nat>)
    requires Strip(a) == Strip(b) && PathIn(a, path)
    ensures PathIn(b, path) && Strip(At(a, path)) == Strip(At(b, path))
    decreases |path|
  {
    if path != [] {
      var k := path[0];
      assert StripNode(a.nodes[k]) == StripAll(a.nodes)[k] == StripAll(b.nodes)[k] == StripNode(b.nodes[k]);
      SamePaths(a.nodes[k].page, b.nodes[k].page, path[1..]);
    }
  }

  /** The trees, the pages that may be written, and what the transaction's lists say. */
  datatype View = View(dbs: seq<Option<Tree>>, dirty: set<nat>, books: TxnPages.Books)

  ghost function Now(db: Databases): View
    reads db, db.txn
  {
    View(db.dbs, db.txn.dirty, TxnPages.BooksOf(db.txn))
  }

  lemma NowIs(db: Databases)
    ensures Now(db) == View(db.dbs, db.txn.dirty, TxnPages.BooksOf(db.txn))
  {}

  /** The other databases stay, only pages of the transaction are changed, and a change of the freeDB goes on with
      the lists as it may. */
  ghost predicate Only(a: View, b: View, d: nat) {
    && |b.dbs| == |a.dbs| && (forall i | 0 <= i < |b.dbs| && i != d :: b.dbs[i] == a.dbs[i])
    && Kept(a.dbs, a.dirty, b.dbs, b.dirty)
    && TxnPages.Consumes(a.books, b.books) && (d == 0 ==> TxnPages.Advances(a.books, b.books))
  }

  /** Node i of the page at the end of the path is the record of a database under this key. */
  ghost predicate SubAt(t: Tree, path: seq<nat>, i: nat, key: Key) {
    PathIn(t, path) && i < |At(t, path).nodes| && At(t, path).nodes[i].Sub? && At(t, path).nodes[i].key == key
  }

  ghost predicate HasSub(t: Tree, key: Key) {
    exists path, i :: SubAt(t, path, i, key)
  }

  ghost predicate NoNewSubs(a: Tree, b: Tree) {
    forall key | HasSub(b, key) :: HasSub(a, key)
  }

  lemma {:induction false} WithSub(t: Tree, path: seq<nat>, np: Pgno, q: seq<nat>, i: nat, key: Key)
    requires PathIn(t, path) && SubAt(With(t, path, np), q, i, key)
    ensures SubAt(t, q, i, key)
    decreases |path|
  {
    if path != [] {
      var k := path[0];
      if q != [] && q[0] == k { WithSub(t.nodes[k].page, path[1..], np, q[1..], i, key); }
    } else if q != [] {
      assert t.(pgno := np).nodes == t.nodes;
    }
  }

  lemma WithSubs(a: Tree, t: Tree, path: seq<nat>, np: Pgno)
    requires NoNewSubs(a, t) && PathIn(t, path)
    ensures NoNewSubs(a, With(t, path, np))
  {
    hide SubAt, PathIn, At, With;
    forall key | HasSub(With(t, path, np), key) ensures HasSub(a, key) {
      var q, i :| SubAt(With(t, path, np), q, i, key);
      WithSub(t, path, np, q, i, key);
      assert HasSub(t, key);
    }
  }

  lemma SubsSame(t: Tree)
    ensures NoNewSubs(t, t)
  {}

  lemma {:induction false} SubUnit(t: Tree, path: seq<nat>, i: nat, key: Key)
    requires SubAt(t, path, i, key)
    ensures exists db: Db, root: Option<Pgno> :: In(RecordUnit(key, db, root), t)
    decreases |path|
  {
    if path == [] {
      var n := t.nodes[i];
      var u := RecordUnit(key, n.db, if n.root.Some? then Some(n.root.value.pgno) else None);
      assert InNode(u, n);
      assert In(u, t);
    } else {
      var c := t.nodes[path[0]].page;
      SubUnit(c, path[1..], i, key);
      var db: Db, root: Option<Pgno> :| In(RecordUnit(key, db, root), c);
      KidUnits(t, path[0], RecordUnit(key, db, root));
    }
  }

  /** In a tree without records there is none to find. */
  lemma RecordFound(dbs: seq<Option<Tree>>, d: nat, key: Key)
    requires d < |dbs| && dbs[d].Some? && HasSub(dbs[d].value, key)
    ensures !NoRecords(dbs, d)
  {
    hide SubAt, In;
    var path, i :| SubAt(dbs[d].value, path, i, key);
    SubUnit(dbs[d].value, path, i, key);
    var db: Db, root: Option<Pgno> :| In(RecordUnit(key, db, root), dbs[d].value);
    assert HasUnit(dbs, d, RecordUnit(key, db, root));
  }

  /** The pages among these that may not be written. */
  ghost function Clean(ps: seq<Pgno>, dirty: set<nat>): seq<Pgno> {
    if ps == [] then []
    else Clean(ps[..|ps| - 1], dirty) + if ps[|ps| - 1] in dirty then [] else [ps[|ps| - 1]]
  }

  lemma CleanMore(ps: seq<Pgno>, i: nat, dirty: set<nat>)
    requires i < |ps|
    ensures Clean(ps[..i + 1], dirty) == Clean(ps[..i], dirty) + if ps[i] in dirty then [] else [ps[i]]
  {
    assert ps[..i + 1][..i] == ps[..i];
  }

  /** Pages off the path have the numbers they had. */
  ghost predicate OffPath(a: Tree, b: Tree, path: seq<nat>) {
    forall q | PathIn(a, q) && !(q <= path) :: PathIn(b, q) && At(b, q).pgno == At(a, q).pgno
  }

  lemma WholePrefix(q: seq<nat>, path: seq<nat>, i: nat)
    requires i <= |path|
    ensures path[..i] <= q && |q| == i ==> q <= path
  {}

  lemma OffWith(a: Tree, t: Tree, path: seq<nat>, i: nat, np: Pgno)
    requires OffPath(a, t, path) && i <= |path| && PathIn(t, path[..i])
    ensures OffPath(a, With(t, path[..i], np), path)
  {
    hide PathIn, At, With, Along;
    var r := With(t, path[..i], np);
    forall q | PathIn(a, q) && !(q <= path) ensures PathIn(r, q) && At(r, q).pgno == At(a, q).pgno {
      WithPath(t, path[..i], np, q);
      PathCut(t, q, |q|);
      PathCut(r, q, |q|);
      assert q[..|q|] == q;
      WholePrefix(q, path, i);
    }
  }

  lemma {:induction false} AlongBag(t: Tree, path: seq<nat>, k: nat)
    requires PathIn(t, path) && k <= |path|
    ensures Along(t, path)[k] in Bag(t)
    decreases |path|
  {
    BagIs(t);
    if k > 0 {
      AlongBag(t.nodes[path[0]].page, path[1..], k - 1);
      BagLink(t, path[0]);
    }
  }

  /** What the path looks like below level i, while it is made writable. */
  ghost predicate Ahead(a: Tree, t: Tree, path: seq<nat>, i: nat, was: set<nat>, dirty: set<nat>) {
    && PathIn(a, path) && PathIn(t, path)
    && forall k | i <= k <= |path| ::
         Along(t, path)[k] == Along(a, path)[k] && (Along(a, path)[k] in dirty <==> Along(a, path)[k] in was)
  }

  lemma AheadStep(a: Tree, t: Tree, path: seq<nat>, i: nat, was: set<nat>, dirty: set<nat>, np: Pgno, now: set<nat>,
                  bag: multiset<Pgno>)
    requires Ahead(a, t, path, i, was, dirty) && i <= |path| && dirty <= now
    requires now == dirty || (np !in bag && now <= dirty + {np})
    requires forall p | p in Bag(t) :: p in bag
    ensures PathIn(t, path[..i]) && Ahead(a, With(t, path[..i], np), path, i + 1, was, now)
  {
    hide PathIn, Along, With, Bag, At;
    PathCut(t, path, i);
    WithPath(t, path[..i], np, path);
    forall k | i + 1 <= k <= |path| ensures Along(t, path)[k] in now <==> Along(t, path)[k] in dirty { AlongBag(t, path, k); }
  }

  lemma PathStart(t: Tree, path: seq<nat>, dirty: set<nat>)
    requires PathIn(t, path)
    ensures OffPath(t, t, path) && Ahead(t, t, path, 0, dirty, dirty)
    ensures |Along(t, path)| == |path| + 1 && Along(t, path)[..0] == [] && Clean([], dirty) == []
  {
    hide PathIn;
  }

  lemma AheadNow(a: Tree, t: Tree, path: seq<nat>, i: nat, was: set<nat>, dirty: set<nat>)
    requires Ahead(a, t, path, i, was, dirty) && i <= |path|
    ensures PathIn(t, path[..i]) && PathIn(a, path) && At(t, path[..i]).pgno == Along(a, path)[i]
    ensures Along(a, path)[i] in dirty <==> Along(a, path)[i] in was
  {
    hide PathIn, Along, At;
    PathCut(t, path, i);
  }

  /** `mdb_cursor_touch`: the pages on the path become writable, from the root down. */
  method TouchAll(db: Databases, d: nat, path: seq<nat>, scan: nat) returns (rc: Outcome)
    requires db.Valid() && db.Has(d, path) && db.Bounded(scan)
    modifies db`dbs, db.txn
    ensures db.Valid() && Only(old(Now(db)), Now(db), d) && d < |db.dbs| && (rc == Ok || rc == NoPage)
    ensures rc == NoPage ==> TxnPages.Short(db.txn, 1, scan)
    ensures db.dbs[d].Some? && Strip(db.dbs[d].value) == Strip(old(db.dbs)[d].value)
    ensures NoNewSubs(old(db.dbs)[d].value, db.dbs[d].value) && OffPath(old(db.dbs)[d].value, db.dbs[d].value, path)
    ensures rc == Ok ==>
              db.txn.freed == old(db.txn.freed) + Clean(Along(old(db.dbs)[d].value, path), old(db.txn.dirty))
    ensures rc == Ok ==> Owned(db.dbs[d].value, path, db.txn.dirty)
  {
    hide *;
    HasPath(db, d, path);
    OnlySame(Now(db), d);
    SubsSame(db.dbs[d].value);
    ghost var t0, dirty0, freed0 := db.dbs[d].value, db.txn.dirty, db.txn.freed;
    ghost var along := Along(t0, path);
    PathStart(t0, path, dirty0);
    var i := 0;
    while i <= |path|
      invariant 0 <= i <= |path| + 1 && db.Valid() && Only(old(Now(db)), Now(db), d)
      invariant d < |db.dbs| && db.dbs[d].Some? && Strip(db.dbs[d].value) == Strip(old(db.dbs)[d].value)
      invariant PathIn(db.dbs[d].value, path) && NoNewSubs(old(db.dbs)[d].value, db.dbs[d].value)
      invariant i > 0 ==> Owned(db.dbs[d].value, path[..i - 1], db.txn.dirty)
      invariant OffPath(t0, db.dbs[d].value, path) && Ahead(t0, db.dbs[d].value, path, i, dirty0, db.txn.dirty)
      invariant db.txn.freed == freed0 + Clean(along[..i], dirty0)
    {
      ghost var t, dirty, was := db.dbs[d].value, db.txn.dirty, Now(db);
      NowIs(db);
      PathCut(t, path, i);
      HasIf(db, d, path[..i]);
      if i > 0 {
        assert path[..i][..i - 1] == path[..i - 1];
        OwnedAt(t, path[..i - 1], dirty);
        WritableIf(db, d, path[..i - 1]);
      }
      AheadNow(t0, t, path, i, dirty0, dirty);
      CleanMore(along, i, dirty0);
      var r, np := db.Touch(d, path[..i], scan);
      OnlySet(db, old(Now(db)), was, d);
      if r != TxnPages.Success {
        return NoPage;
      }
      StripWith(t, path[..i], np);
      WithSubs(old(db.dbs)[d].value, t, path[..i], np);
      OffWith(t0, t, path, i, np);
      TreeIn(was.dbs, d);
      AheadStep(t0, t, path, i, dirty0, dirty, np, db.txn.dirty, BagOf(was.dbs));
      SamePaths(t, db.dbs[d].value, path);
      if i > 0 {
        OwnedMore(t, path[..i - 1], dirty, db.txn.dirty);
      }
      OwnedWith(t, path[..i], np, db.txn.dirty);
      i := i + 1;
    }
    assert path[..|path|] == path && along[..|path| + 1] == along;
    rc := Ok;
  }

  lemma TreeIn(dbs: seq<Option<Tree>>, d: nat)
    requires d < |dbs| && dbs[d].Some?
    ensures forall p | p in Bag(dbs[d].value) :: p in BagOf(dbs)
  {
    hide Bag, BagOf;
    PartOf(dbs, d);
  }

  lemma HasPath(db: Databases, d: nat, path: seq<nat>)
    requires db.Has(d, path)
    ensures d < |db.dbs| && db.dbs[d].Some? && PathIn(db.dbs[d].value, path)
  {}

  lemma HasIf(db: Databases, d: nat, path: seq<nat>)
    requires d < |db.dbs| && db.dbs[d].Some? && PathIn(db.dbs[d].value, path)
    ensures db.Has(d, path) && db.PageAt(d, path) == At(db.dbs[d].value, path)
  {}

  lemma OnlySame(a: View, d: nat)
    ensures Only(a, a, d)
  {
    hide Kept;
    KeptSame(a.dbs, a.dirty, a.dirty);
    TxnPages.AdvancesSame(a.books);
  }

  lemma OnlySet(db: Databases, a: View, b: View, d: nat)
    requires Only(a, b, d) && d < |b.dbs| == |db.dbs| && (db.dbs == b.dbs || db.dbs == b.dbs[d := db.dbs[d]])
    requires var now := TxnPages.BooksOf(db.txn);
             b.books == now || TxnPages.Advances(b.books, now) || (d != 0 && TxnPages.Consumes(b.books, now))
    requires Kept(b.dbs, b.dirty, db.dbs, db.txn.dirty)
    ensures Only(a, Now(db), d)
  {
    hide TxnPages.Consumes, TxnPages.BooksOf, Kept;
    KeptOn(a.dbs, a.dirty, b.dbs, b.dirty, db.dbs, db.txn.dirty);
    var now := TxnPages.BooksOf(db.txn);
    if b.books != now {
      TxnPages.ConsumesOn(a.books, b.books, now);
      if d == 0 { TxnPages.AdvancesOn(a.books, b.books, now); }
    }
  }

  // ---------------------------------------------------------------- splits

  /** The page above the bottom of the stack, and its child there. */
  lemma PageAbove(t: Tree, stack: seq<B.Frame>, page: B.Page)
    requires Stands(t, stack, page) && stack != []
    ensures var n := |stack| - 1;
            var rest, f := stack[..n], stack[n];
            && f.ki < |f.nodes| && Stands(t, rest, B.Page(false, B.Filled(f, page)))
            && Path(stack) == Path(rest) + [f.ki] && PathIn(t, Path(rest))
            && var p := At(t, Path(rest));
            && !p.leaf && StripAll(p.nodes) == B.Filled(f, page)
            && f.ki < |p.nodes| && p.nodes[f.ki].Link? && Strip(p.nodes[f.ki].page) == page
  {
    hide *;
    var n := |stack| - 1;
    StandsUp(t, stack, page);
    StandsAt(t, stack[..n], B.Page(false, B.Filled(stack[n], page)));
    ChildIs(At(t, Path(stack[..n])), stack[n], page);
    assert Path(stack) == Path(stack)[..n] + [Path(stack)[n]];
  }

  lemma FilledTwice(f: B.Frame, page: B.Page, left: B.Page, sep: Key, right: B.Page)
    requires f.ki < |f.nodes|
    ensures P.Parent(B.Frame(B.Filled(f, page), f.ki), left, sep, right)
            == B.Insert(B.Filled(f, left), f.ki + 1, B.Link(sep, right))
  {
    var up := B.Frame(B.Filled(f, page), f.ki);
    assert B.Filled(up, left) == B.Filled(f, left);
  }

  lemma PageParts(t: Tree, leaf: bool, all: seq<B.Node>)
    requires Strip(t) == B.Page(leaf, all)
    ensures t.leaf == leaf && |t.nodes| == |all| && StripAll(t.nodes) == all
    ensures forall i | 0 <= i < |all| :: all[i].Link? <==> t.nodes[i].Link?
  {}

  lemma KeptPage(p: Tree, nodes: seq<Node>)
    ensures Strip(p.(nodes := nodes)) == B.Page(p.leaf, StripAll(nodes))
  {}

  /** A split of the page at the bottom, as a change of the page above. */
  lemma SplitStands(t: Tree, stack: seq<B.Frame>, leaf: bool, all: seq<B.Node>, s: nat, np: Pgno)
    requires Stands(t, stack, B.Page(leaf, all)) && stack != [] && s < |all| && (!leaf ==> all[s].Link?)
    ensures var n := |stack| - 1;
            var rest, f := stack[..n], stack[n];
            && PathIn(t, Path(rest)) && f.ki < |f.nodes|
            && var p := At(t, Path(rest));
            && f.ki < |p.nodes| && p.nodes[f.ki].Link? && s < |p.nodes[f.ki].page.nodes|
            && p.nodes[f.ki].page.leaf == leaf && (!leaf ==> p.nodes[f.ki].page.nodes[s].Link?)
            && Stands(Put(t, Path(rest), SplitKid(p, f.ki, s, np)), rest,
                      B.Page(false, B.Insert(B.Filled(f, B.Page(leaf, all[..s])), f.ki + 1,
                                             B.Link(all[s].key, B.Page(leaf, S.RightNodes(leaf, all, s))))))
  {
    hide *;
    var n := |stack| - 1;
    var rest, f := stack[..n], stack[n];
    PageAbove(t, stack, B.Page(leaf, all));
    var p := At(t, Path(rest));
    PageParts(p.nodes[f.ki].page, leaf, all);
    StripSplit(p, f.ki, s, np);
    P.HalfPages(leaf, all, s, true);
    FilledTwice(f, B.Page(leaf, all), B.Page(leaf, all[..s]), all[s].key, B.Page(leaf, S.RightNodes(leaf, all, s)));
    SplitShape(p, f.ki, s, np);
    StandsPut(t, rest, B.Page(false, B.Filled(f, B.Page(leaf, all))), SplitKid(p, f.ki, s, np));
  }

  lemma SplitShape(p: Tree, k: nat, s: nat, np: Pgno)
    requires k < |p.nodes| && p.nodes[k].Link? && s < |p.nodes[k].page.nodes|
    ensures Strip(SplitKid(p, k, s, np)) == B.Page(p.leaf, StripAll(SplitKid(p, k, s, np).nodes))
    ensures SplitKid(p, k, s, np).pgno == p.pgno
  {}

  /** A split of the root, under a new root. */
  lemma SplitRoot(t: Tree, leaf: bool, all: seq<B.Node>, s: nat, root: Pgno, np: Pgno)
    requires Strip(t) == B.Page(leaf, all) && s < |all| && (!leaf ==> all[s].Link?)
    ensures var r := Rooted(t, root);
            && r.pgno == root && |r.nodes| == 1 && r.nodes[0].Link? && s < |r.nodes[0].page.nodes|
            && r.nodes[0].page == t && t.leaf == leaf && (!leaf ==> t.nodes[s].Link?)
            && Strip(SplitKid(r, 0, s, np))
               == P.NewRoot(B.Page(leaf, all[..s]), all[s].key, B.Page(leaf, S.RightNodes(leaf, all, s)))
  {
    var r := Rooted(t, root);
    PageParts(t, leaf, all);
    hide Strip, StripAll, StripNode, S.RightNodes, SplitKid;
    StripSplit(r, 0, s, np);
    StripRooted(t, root);
    PageParts(r, false, [B.Link([], Strip(t))]);
    P.HalfPages(leaf, all, s, true);
    SplitShape(r, 0, s, np);
    FirstAbove(B.Page(leaf, all), B.Page(leaf, all[..s]), all[s].key, B.Page(leaf, S.RightNodes(leaf, all, s)));
  }

  lemma FirstAbove(page: B.Page, left: B.Page, sep: Key, right: B.Page)
    ensures B.Page(false, P.Parent(B.Frame([B.Link([], page)], 0), left, sep, right)) == P.NewRoot(left, sep, right)
  {}

  lemma OwnedAbove(t: Tree, stack: seq<B.Frame>, page: B.Page, dirty: set<nat>)
    requires Stands(t, stack, page) && stack != [] && Owned(t, Path(stack), dirty)
    ensures var n := |stack| - 1;
            var rest, k := stack[..n], stack[n].ki;
            && PathIn(t, Path(rest)) && Owned(t, Path(rest), dirty)
            && var p := At(t, Path(rest));
            && p.pgno in dirty && k < |p.nodes| && p.nodes[k].Link? && p.nodes[k].page.pgno in dirty
  {
    hide *;
    var n := |stack| - 1;
    var path, k := Path(stack[..n]), stack[n].ki;
    PageAbove(t, stack, page);
    LastOff(path, k);
    OwnedAt(t, path + [k], dirty);
    OwnedCut(t, path + [k], dirty);
    OwnedAt(t, path, dirty);
    PathSnoc(t, path, k);
  }

  lemma LastOff(path: seq<nat>, k: nat)
    ensures (path + [k])[..|path + [k]| - 1] == path && path + [k] != []
  {}

  lemma WritableIf(db: Databases, d: nat, path: seq<nat>)
    requires d < |db.dbs| && db.dbs[d].Some? && PathIn(db.dbs[d].value, path) && At(db.dbs[d].value, path).pgno in db.txn.dirty
    ensures db.Has(d, path) && db.PageAt(d, path) == At(db.dbs[d].value, path) && db.Writable(d, path)
  {}

  /** A split of the root. */
  method SplitTop(db: Databases, d: nat, leaf: bool, ghost all: seq<B.Node>, s: nat, scan: nat) returns (rc: Outcome)
    requires db.Valid() && db.Bounded(scan) && d < |db.dbs| && db.dbs[d].Some? && db.dbs[d].value.pgno in db.txn.dirty
    requires Strip(db.dbs[d].value) == B.Page(leaf, all) && s < |all| && (!leaf ==> all[s].Link?)
    modifies db`dbs, db.txn
    ensures db.Valid() && Only(old(Now(db)), Now(db), d) && d < |db.dbs| && db.dbs[d].Some? && (rc == Ok || rc == NoPage)
    ensures rc == NoPage ==> TxnPages.Short(db.txn, 1, scan)
    ensures rc == Ok ==> Strip(db.dbs[d].value)
                         == P.NewRoot(B.Page(leaf, all[..s]), all[s].key, B.Page(leaf, S.RightNodes(leaf, all, s)))
  {
    hide *;
    ghost var t, was := db.dbs[d].value, Now(db);
    NowIs(db);
    OnlySame(was, d);
    PutHere(t, t);
    WritableIf(db, d, []);
    var r, root := db.NewRoot(d, scan);
    OnlySet(db, was, was, d);
    if r != TxnPages.Success {
      return NoPage;
    }
    SplitRoot(t, leaf, all, s, root, 0);
    PutHere(Rooted(t, root), t);
    WritableIf(db, d, []);
    ghost var dbs1 := Now(db);
    NowIs(db);
    var np;
    r, np := db.Split(d, [], 0, s, scan);
    OnlySet(db, was, dbs1, d);
    if r != TxnPages.Success {
      return NoPage;
    }
    SplitRoot(t, leaf, all, s, root, np);
    PutHere(Rooted(t, root), SplitKid(Rooted(t, root), 0, s, np));
    rc := Ok;
  }

  /** A split further down: the page above gets the separator. */
  method SplitUp(db: Databases, d: nat, stack: seq<B.Frame>, leaf: bool, ghost all: seq<B.Node>, s: nat, scan: nat)
    returns (rc: Outcome)
    requires db.Valid() && db.Bounded(scan) && d < |db.dbs| && db.dbs[d].Some?
    requires Stands(db.dbs[d].value, stack, B.Page(leaf, all)) && stack != [] && s < |all| && (!leaf ==> all[s].Link?)
    requires Owned(db.dbs[d].value, Path(stack), db.txn.dirty)
    modifies db`dbs, db.txn
    ensures db.Valid() && Only(old(Now(db)), Now(db), d) && d < |db.dbs| && db.dbs[d].Some? && (rc == Ok || rc == NoPage)
    ensures rc == NoPage ==> TxnPages.Short(db.txn, 1, scan)
    ensures var f := stack[|stack| - 1]; f.ki < |f.nodes|
    ensures rc == Ok ==>
              var rest, f := stack[..|stack| - 1], stack[|stack| - 1];
              && Stands(db.dbs[d].value, rest,
                        B.Page(false, B.Insert(B.Filled(f, B.Page(leaf, all[..s])), f.ki + 1,
                                               B.Link(all[s].key, B.Page(leaf, S.RightNodes(leaf, all, s))))))
              && Owned(db.dbs[d].value, Path(rest), db.txn.dirty)
  {
    hide *;
    ghost var t, was, dirty := db.dbs[d].value, Now(db), db.txn.dirty;
    NowIs(db);
    OnlySame(was, d);
    var rest, f := stack[..|stack| - 1], stack[|stack| - 1];
    SplitStands(t, stack, leaf, all, s, 0);
    OwnedAbove(t, stack, B.Page(leaf, all), dirty);
    WritableIf(db, d, Path(rest));
    var r, np := db.Split(d, Path(rest), f.ki, s, scan);
    OnlySet(db, was, was, d);
    if r != TxnPages.Success {
      return NoPage;
    }
    SplitStands(t, stack, leaf, all, s, np);
    SplitShape(At(t, Path(rest)), f.ki, s, np);
    OwnedMore(t, Path(rest), dirty, db.txn.dirty);
    OwnedAt(t, Path(rest), db.txn.dirty);
    OwnedPut(t, Path(rest), SplitKid(At(t, Path(rest)), f.ki, s, np), db.txn.dirty);
    rc := Ok;
  }

  /** Splits from the page at the bottom of the stack, which has one node more than it may hold maybe, up to
      where there is room. */
  method Place(ps: B.PageSize, db: Databases, d: nat, stack0: seq<B.Frame>, leaf0: bool, nodes0: seq<B.Node>, at0: nat,
               n0: B.Node, scan: nat, ghost depth0: nat, ghost total: seq<B.Node>, ghost leaves0: nat, ghost branches0: nat)
    returns (rc: Outcome, ghost depth: nat, ghost leaves: nat, ghost branches: nat)
    requires db.Valid() && db.Bounded(scan) && d < |db.dbs| && db.dbs[d].Some?
    requires at0 <= |nodes0| && B.Used(nodes0) <= B.PMax(ps)
    requires (leaf0 || at0 >= 1) && |nodes0| + 1 >= B.MinKeys(leaf0)
    requires Stands(db.dbs[d].value, stack0, B.Page(leaf0, B.Insert(nodes0, at0, n0)))
    requires Owned(db.dbs[d].value, Path(stack0), db.txn.dirty)
    requires P.Placing(ps, stack0, B.Page(leaf0, B.Insert(nodes0, at0, n0)), depth0, total, leaves0, branches0)
    modifies db`dbs, db.txn
    ensures db.Valid() && Only(old(Now(db)), Now(db), d) && d < |db.dbs| && db.dbs[d].Some?
    ensures rc == Ok || rc == Full || rc == NoPage
    ensures rc == NoPage ==> TxnPages.Short(db.txn, 1, scan)
    ensures rc == Ok ==> P.TreeOk(ps, Strip(db.dbs[d].value), depth, total, leaves, branches)
    ensures rc == Ok ==> !P.Stuck(ps, stack0, leaf0, nodes0, at0, n0)
    ensures rc == Full ==> P.Stuck(ps, stack0, leaf0, nodes0, at0, n0)
    ensures rc == Ok ==> W.Placed(ps, stack0, leaf0, nodes0, at0, n0, Strip(db.dbs[d].value), depth - depth0)
  {
    hide *;
    var stack, leaf, nodes, at: nat, n := stack0, leaf0, nodes0, at0, n0;
    depth, leaves, branches := depth0, leaves0, branches0;
    P.PlacingFramed(ps, stack, B.Page(leaf, B.Insert(nodes, at, n)), depth, total, leaves, branches);
    W.PlaceOnStart(ps, stack, leaf, nodes, at, n);
    OnlySame(Now(db), d);
    while true
      invariant db.Valid() && Only(old(Now(db)), Now(db), d) && d < |db.dbs| && db.dbs[d].Some?
      invariant at <= |nodes| && B.Used(nodes) <= B.PMax(ps) && (leaf || at >= 1) && |nodes| + 1 >= B.MinKeys(leaf)
      invariant Stands(db.dbs[d].value, stack, B.Page(leaf, B.Insert(nodes, at, n)))
      invariant Owned(db.dbs[d].value, Path(stack), db.txn.dirty)
      invariant P.Placing(ps, stack, B.Page(leaf, B.Insert(nodes, at, n)), depth, total, leaves, branches)
      invariant P.Stuck(ps, stack0, leaf0, nodes0, at0, n0) == P.Stuck(ps, stack, leaf, nodes, at, n)
      invariant W.PlaceOn(ps, stack0, leaf0, nodes0, at0, n0, stack, leaf, nodes, at, n) && depth == depth0
      decreases |stack|
    {
      ghost var all, t, was := B.Insert(nodes, at, n), db.dbs[d].value, Now(db);
      NowIs(db);
      B.UsedInsert(nodes, at, n);
      if B.PMax(ps) - B.Used(nodes) >= B.Room(n) {
        Fits(ps, nodes, at, n, leaf);
        P.PlaceDone(ps, stack, B.Page(leaf, all), depth, total, leaves, branches);
        P.NotStuck(ps, stack, leaf, nodes, at, n);
        StandsIs(t, stack, B.Page(leaf, all));
        W.PlaceOnDone(ps, stack0, leaf0, nodes0, at0, n0, stack, leaf, nodes, at, n);
        return Ok, depth, leaves, branches;
      }
      P.PlacingOverfull(ps, stack, leaf, nodes, at, n, depth, total, leaves, branches);
      var r, left, right, sep, s := S.Split(ps, leaf, nodes, at, n);
      P.StuckOn(ps, stack, leaf, nodes, at, n, s);
      if r != S.Success {
        return Full, depth, leaves, branches;
      }
      P.SplitIndex(ps, leaf, all, s);
      P.PlacingTop(ps, stack, B.Page(leaf, all), depth, total, leaves, branches);
      P.StuckUp(ps, stack, leaf, all, s);
      P.HalfPages(leaf, all, s, true);
      StandsIs(t, stack, B.Page(leaf, all));
      OwnedAt(t, Path(stack), db.txn.dirty);
      if stack == [] {
        P.RootSplit(ps, leaf, all, s, depth, total, leaves, branches);
        RootIs(t, stack, B.Page(leaf, all));
        rc := SplitTop(db, d, leaf, all, |left|, scan);
        OnlyTwice(old(Now(db)), was, Now(db), d);
        if rc == Ok {
          W.PlaceOnTop(ps, stack0, leaf0, nodes0, at0, n0, leaf, nodes, at, n, s, all[s].key);
          NewRootIs(B.Page(leaf, all[..s]), all[s].key, B.Page(leaf, S.RightNodes(leaf, all, s)));
        }
        depth, leaves, branches := depth + 1, leaves + (if leaf then 1 else 0), branches + (if leaf then 1 else 2);
        return;
      }
      P.CarryUp(ps, stack, leaf, all, s, depth, total, leaves, branches);
      rc := SplitUp(db, d, stack, leaf, all, |left|, scan);
      OnlyTwice(old(Now(db)), was, Now(db), d);
      if rc != Ok {
        return;
      }
      leaves, branches := leaves + (if leaf then 1 else 0), branches + (if leaf then 0 else 1);
      var f := stack[|stack| - 1];
      CarriedPage(f, B.Page(leaf, left), sep, B.Page(leaf, right));
      W.PlaceOnUp(ps, stack0, leaf0, nodes0, at0, n0, stack, leaf, nodes, at, n, s, sep);
      TwoKeys();
      nodes, at, n := B.Filled(f, B.Page(leaf, left)), f.ki + 1, B.Link(sep, B.Page(leaf, right));
      stack, leaf := stack[..|stack| - 1], false;
    }
  }

  lemma NewRootIs(left: B.Page, sep: Key, right: B.Page)
    ensures P.NewRoot(left, sep, right) == B.Page(false, [B.Link([], left), B.Link(sep, right)])
  {}

  lemma OnlyTwice(a: View, b: View, c: View, d: nat)
    requires Only(a, b, d) && Only(b, c, d)
    ensures Only(a, c, d)
  {
    hide TxnPages.Consumes, TxnPages.Advances, Kept;
    KeptOn(a.dbs, a.dirty, b.dbs, b.dirty, c.dbs, c.dirty);
    TxnPages.ConsumesOn(a.books, b.books, c.books);
    if d == 0 { TxnPages.AdvancesOn(a.books, b.books, c.books); }
  }

  lemma RootIs(t: Tree, stack: seq<B.Frame>, page: B.Page)
    requires Stands(t, stack, page) && stack == []
    ensures Strip(t) == page && Path(stack) == [] && At(t, Path(stack)) == t
  {
    hide Strip;
  }

  lemma CarriedPage(f: B.Frame, left: B.Page, sep: Key, right: B.Page)
    requires f.ki < |f.nodes|
    ensures P.Parent(f, left, sep, right) == B.Insert(B.Filled(f, left), f.ki + 1, B.Link(sep, right))
    ensures f.ki + 1 <= |B.Filled(f, left)| == |f.nodes|
  {}

  lemma TwoKeys()
    ensures B.MinKeys(false) == 2 && B.MinKeys(true) == 1
  {}

  lemma StandsIs(t: Tree, stack: seq<B.Frame>, page: B.Page)
    requires Stands(t, stack, page)
    ensures B.Framed(stack) && Strip(t) == B.Zip(stack, page)
  {
    hide Strip;
  }

  /** With room for the node the page is good. */
  lemma Fits(ps: B.PageSize, nodes: seq<B.Node>, at: nat, n: B.Node, leaf: bool)
    requires at <= |nodes| && B.Used(nodes) + B.Room(n) <= B.PMax(ps) && |nodes| + 1 >= B.MinKeys(leaf)
    ensures B.Used(B.Insert(nodes, at, n)) <= B.PMax(ps) && |B.Insert(nodes, at, n)| >= B.MinKeys(leaf)
  {
    hide B.Used, B.Room;
    B.UsedInsert(nodes, at, n);
  }

  // ---------------------------------------------------------------- borrows and merges

  /** A page beside gets another number. */
  lemma {:induction false} OwnedBeside(t: Tree, path: seq<nat>, j: nat, k: nat, np: Pgno, dirty: set<nat>)
    requires Owned(t, path + [k], dirty) && j != k && PathIn(t, path + [j])
    ensures Owned(With(t, path + [j], np), path + [k], dirty)
    decreases |path|
  {
    if path == [] {
      assert [j][1..] == [] && [k][1..] == [];
      assert path + [k] == [k] && path + [j] == [j];
    } else {
      assert (path + [j])[1..] == path[1..] + [j] && (path + [k])[1..] == path[1..] + [k];
      OwnedBeside(t.nodes[path[0]].page, path[1..], j, k, np, dirty);
    }
  }

  /** The children of the page at the bottom of the stack. */
  lemma Children(t: Tree, stack: seq<B.Frame>, up: seq<B.Node>)
    requires Stands(t, stack, B.Page(false, up))
    ensures PathIn(t, Path(stack))
    ensures var p := At(t, Path(stack));
            && !p.leaf && StripAll(p.nodes) == up && |p.nodes| == |up|
            && forall i | 0 <= i < |up| && up[i].Link? :: ChildAt(p, i, up[i])
  {
    StandsAt(t, stack, B.Page(false, up));
    var p := At(t, Path(stack));
    assert forall i | 0 <= i < |up| && up[i].Link? :: ChildAt(p, i, up[i]);
  }

  ghost predicate ChildAt(p: Tree, i: nat, n: B.Node)
    requires n.Link?
  {
    i < |p.nodes| && p.nodes[i].Link? && p.nodes[i].key == n.key && Strip(p.nodes[i].page) == n.page
  }

  lemma ChildParts(p: Tree, i: nat, n: B.Node)
    requires n.Link? && ChildAt(p, i, n)
    ensures i < |p.nodes| && p.nodes[i].Link? && p.nodes[i].key == n.key
    ensures Strip(p.nodes[i].page) == n.page == B.Page(p.nodes[i].page.leaf, StripAll(p.nodes[i].page.nodes))
    ensures |p.nodes[i].page.nodes| == |n.page.nodes|
    ensures forall j | 0 <= j < |n.page.nodes| :: n.page.nodes[j].Link? <==> p.nodes[i].page.nodes[j].Link?
  {}

  /** Children of the page at the end of the path that the transaction may change. */
  lemma OwnedChild(t: Tree, path: seq<nat>, k: nat, dirty: set<nat>)
    requires Owned(t, path + [k], dirty)
    ensures PathIn(t, path) && Owned(t, path, dirty)
    ensures var p := At(t, path); p.pgno in dirty && k < |p.nodes| && p.nodes[k].Link? && p.nodes[k].page.pgno in dirty
  {
    hide *;
    OwnedAt(t, path + [k], dirty);
    OwnedCut(t, path + [k], dirty);
    LastOff(path, k);
    OwnedAt(t, path, dirty);
    LastIn(t, path, k);
    PathSnoc(t, path, k);
  }

  lemma {:induction false} LastIn(t: Tree, path: seq<nat>, k: nat)
    requires PathIn(t, path + [k]) && PathIn(t, path)
    ensures k < |At(t, path).nodes| && At(t, path).nodes[k].Link?
    decreases |path|
  {
    if path != [] {
      assert (path + [k])[1..] == path[1..] + [k];
      LastIn(t.nodes[path[0]].page, path[1..], k);
    }
  }

  /** The neighbour of a page is made writable too. */
  method TouchNeighbour(db: Databases, d: nat, rest: seq<B.Frame>, ghost up: seq<B.Node>, k: nat, j: nat, scan: nat)
    returns (rc: Outcome)
    requires db.Valid() && db.Bounded(scan) && d < |db.dbs| && db.dbs[d].Some? && j != k
    requires Stands(db.dbs[d].value, rest, B.Page(false, up)) && j < |up| && up[j].Link?
    requires Owned(db.dbs[d].value, Path(rest) + [k], db.txn.dirty)
    modifies db`dbs, db.txn
    ensures db.Valid() && Only(old(Now(db)), Now(db), d) && d < |db.dbs| && db.dbs[d].Some? && (rc == Ok || rc == NoPage)
    ensures rc == NoPage ==> TxnPages.Short(db.txn, 1, scan)
    ensures rc == Ok ==>
              && Stands(db.dbs[d].value, rest, B.Page(false, up))
              && Owned(db.dbs[d].value, Path(rest) + [k], db.txn.dirty)
              && Owned(db.dbs[d].value, Path(rest) + [j], db.txn.dirty)
  {
    hide *;
    ghost var t, was, dirty := db.dbs[d].value, Now(db), db.txn.dirty;
    NowIs(db);
    OnlySame(was, d);
    Children(t, rest, up);
    ChildParts(At(t, Path(rest)), j, up[j]);
    PathSnoc(t, Path(rest), j);
    HasIf(db, d, Path(rest) + [j]);
    OwnedChild(t, Path(rest), k, dirty);
    WritableIf(db, d, Path(rest));
    LastOff(Path(rest), j);
    var r, np := db.Touch(d, Path(rest) + [j], scan);
    OnlySet(db, was, was, d);
    if r != TxnPages.Success {
      return NoPage;
    }
    StripWith(t, Path(rest) + [j], np);
    StandsAlike(t, db.dbs[d].value, rest, B.Page(false, up));
    OwnedMore(t, Path(rest) + [k], dirty, db.txn.dirty);
    OwnedBeside(t, Path(rest), j, k, np, db.txn.dirty);
    OwnedChild(t, Path(rest), k, db.txn.dirty);
    OwnedWith(t, Path(rest) + [j], np, db.txn.dirty);
    rc := Ok;
  }

  lemma StandsAlike(a: Tree, b: Tree, stack: seq<B.Frame>, page: B.Page)
    requires Stands(a, stack, page) && Strip(a) == Strip(b)
    ensures Stands(b, stack, page)
  {
    hide Strip;
  }

  /** Two neighbours, with and without page numbers. */
  lemma PairParts(t: Tree, rest: seq<B.Frame>, up: seq<B.Node>, i: nat, leaf: bool)
    requires Stands(t, rest, B.Page(false, up)) && i + 1 < |up| && up[i].Link? && up[i + 1].Link?
    requires up[i].page.leaf == up[i + 1].page.leaf == leaf && R.Kind(leaf, up[i + 1].page.nodes)
    ensures PathIn(t, Path(rest))
    ensures var p := At(t, Path(rest));
            && StripAll(p.nodes) == up && !p.leaf && Neighbours(p, i)
            && var l, r := p.nodes[i].page, p.nodes[i + 1].page;
            && l.leaf == leaf && StripAll(l.nodes) == up[i].page.nodes && StripAll(r.nodes) == up[i + 1].page.nodes
            && (!leaf ==> r.nodes != [] && r.nodes[0].Link?)
  {
    Children(t, rest, up);
    var p := At(t, Path(rest));
    hide Strip, StripAll;
    ChildParts(p, i, up[i]);
    ChildParts(p, i + 1, up[i + 1]);
  }

  lemma UpJoined(up: seq<B.Node>, i: nat, leaf: bool, low: Key)
    requires i + 1 < |up| && up[i].Link? && up[i + 1].Link? && R.Kind(leaf, up[i + 1].page.nodes)
    ensures !leaf ==> |up[i + 1].page.nodes| > 0 && up[i + 1].page.nodes[0].Link?
    ensures R.JoinedAt(up, i, leaf, low) == R.Joined(leaf, up[i].page.nodes, up[i + 1].page.nodes, low)
  {}

  /** The two pages as one, with and without page numbers. */
  lemma BothJoined(p: Tree, up: seq<B.Node>, i: nat, leaf: bool, low: Key)
    requires Neighbours(p, i) && i + 1 < |up| && up[i].Link? && up[i + 1].Link? && R.Kind(leaf, up[i + 1].page.nodes)
    requires var l, r := p.nodes[i].page, p.nodes[i + 1].page;
             && l.leaf == leaf && StripAll(l.nodes) == up[i].page.nodes && StripAll(r.nodes) == up[i + 1].page.nodes
             && (!leaf ==> r.nodes != [] && r.nodes[0].Link?)
    ensures StripAll(JoinedAt(p, i, low)) == R.JoinedAt(up, i, leaf, low)
    ensures forall s | 0 <= s < |JoinedAt(p, i, low)| :: R.JoinedAt(up, i, leaf, low)[s].Link? <==> JoinedAt(p, i, low)[s].Link?
  {
    var l, r := p.nodes[i].page, p.nodes[i + 1].page;
    var all := JoinedAt(p, i, low);
    hide Strip, StripAll, R.Joined, Joined;
    UpJoined(up, i, leaf, low);
    StripJoined(leaf, l.nodes, r.nodes, low);
    KeptPage(l, all);
    PageParts(l.(nodes := all), leaf, R.JoinedAt(up, i, leaf, low));
  }

  lemma MoveShape(p: Tree, i: nat, low: Key, s: nat)
    requires Neighbours(p, i) && s < |JoinedAt(p, i, low)|
    ensures Strip(MoveKid(p, i, low, s)) == B.Page(p.leaf, StripAll(MoveKid(p, i, low, s).nodes))
    ensures MoveKid(p, i, low, s).pgno == p.pgno
  {
    hide JoinedAt;
  }

  lemma MergeShape(p: Tree, i: nat, low: Key)
    requires Neighbours(p, i)
    ensures Strip(MergeKids(p, i, low)) == B.Page(p.leaf, StripAll(MergeKids(p, i, low).nodes))
    ensures MergeKids(p, i, low).pgno == p.pgno
  {
    hide JoinedAt;
  }

  /** A borrow. */
  lemma MoveStands(t: Tree, rest: seq<B.Frame>, up: seq<B.Node>, i: nat, leaf: bool, low: Key, s: nat)
    requires Stands(t, rest, B.Page(false, up)) && i + 1 < |up| && up[i].Link? && up[i + 1].Link?
    requires up[i].page.leaf == up[i + 1].page.leaf == leaf && R.Kind(leaf, up[i + 1].page.nodes)
    requires var all := R.JoinedAt(up, i, leaf, low); s < |all| && (!leaf ==> all[s].Link?)
    ensures PathIn(t, Path(rest))
    ensures var p := At(t, Path(rest));
            && Neighbours(p, i) && s < |JoinedAt(p, i, low)| && MoveKid(p, i, low, s).pgno == p.pgno
            && (!p.nodes[i].page.leaf ==> p.nodes[i + 1].page.nodes[0].Link? && JoinedAt(p, i, low)[s].Link?)
            && Stands(Put(t, Path(rest), MoveKid(p, i, low, s)), rest,
                      B.Page(false, R.Borrowed(up, i, leaf, R.JoinedAt(up, i, leaf, low), s)))
  {
    hide *;
    PairParts(t, rest, up, i, leaf);
    var p := At(t, Path(rest));
    UpJoined(up, i, leaf, low);
    BothJoined(p, up, i, leaf, low);
    StripMove(p, i, low, s);
    MoveShape(p, i, low, s);
    StandsPut(t, rest, B.Page(false, up), MoveKid(p, i, low, s));
  }

  /** A merge. */
  lemma MergeStands(t: Tree, rest: seq<B.Frame>, up: seq<B.Node>, i: nat, leaf: bool, low: Key)
    requires Stands(t, rest, B.Page(false, up)) && i + 1 < |up| && up[i].Link? && up[i + 1].Link?
    requires up[i].page.leaf == up[i + 1].page.leaf == leaf && R.Kind(leaf, up[i + 1].page.nodes)
    ensures PathIn(t, Path(rest))
    ensures var p := At(t, Path(rest));
            && Neighbours(p, i) && MergeKids(p, i, low).pgno == p.pgno
            && (!p.nodes[i].page.leaf ==> p.nodes[i + 1].page.nodes[0].Link?)
            && Stands(Put(t, Path(rest), MergeKids(p, i, low)), rest,
                      B.Page(false, R.Merged(up, i, B.Page(leaf, R.JoinedAt(up, i, leaf, low)))))
  {
    hide *;
    PairParts(t, rest, up, i, leaf);
    var p := At(t, Path(rest));
    UpJoined(up, i, leaf, low);
    BothJoined(p, up, i, leaf, low);
    StripMerge(p, i, low);
    MergeShape(p, i, low);
    StandsPut(t, rest, B.Page(false, up), MergeKids(p, i, low));
  }

  lemma {:induction false} PutAt(t: Tree, path: seq<nat>, s: Tree)
    requires PathIn(t, path)
    ensures PathIn(Put(t, path, s), path) && At(Put(t, path, s), path) == s
    decreases |path|
  {
    if path != [] { PutAt(t.nodes[path[0]].page, path[1..], s); }
  }

  lemma MovedKids(p: Tree, i: nat, low: Key, s: nat)
    requires Neighbours(p, i) && s < |JoinedAt(p, i, low)|
    ensures var m := MoveKid(p, i, low, s).nodes;
            && i + 1 < |m| && m[i].Link? && m[i + 1].Link?
            && m[i].page.pgno == p.nodes[i].page.pgno && m[i + 1].page.pgno == p.nodes[i + 1].page.pgno
  {
    hide JoinedAt;
  }

  lemma MergedKid(p: Tree, i: nat, low: Key)
    requires Neighbours(p, i)
    ensures var m := MergeKids(p, i, low).nodes; i < |m| && m[i].Link? && m[i].page.pgno == p.nodes[i].page.pgno
  {
    hide JoinedAt;
  }

  /** After a borrow both pages are the ones that were made writable. */
  lemma MovedOwned(t: Tree, path: seq<nat>, i: nat, low: Key, s: nat, dirty: set<nat>)
    requires PathIn(t, path) && Owned(t, path, dirty) && Neighbours(At(t, path), i) && s < |JoinedAt(At(t, path), i, low)|
    requires MoveKid(At(t, path), i, low, s).pgno in dirty
    requires {At(t, path).nodes[i].page.pgno, At(t, path).nodes[i + 1].page.pgno} <= dirty
    ensures var r := Put(t, path, MoveKid(At(t, path), i, low, s));
            Owned(r, path, dirty) && Owned(r, path + [i], dirty) && Owned(r, path + [i + 1], dirty)
  {
    hide *;
    var q := MoveKid(At(t, path), i, low, s);
    MovedKids(At(t, path), i, low, s);
    PutAt(t, path, q);
    OwnedPut(t, path, q, dirty);
    OwnedSnoc(Put(t, path, q), path, i, dirty);
    OwnedSnoc(Put(t, path, q), path, i + 1, dirty);
  }

  lemma MergedOwned(t: Tree, path: seq<nat>, i: nat, low: Key, dirty: set<nat>)
    requires PathIn(t, path) && Owned(t, path, dirty) && Neighbours(At(t, path), i)
    requires MergeKids(At(t, path), i, low).pgno in dirty && At(t, path).nodes[i].page.pgno in dirty
    ensures var r := Put(t, path, MergeKids(At(t, path), i, low)); Owned(r, path, dirty) && Owned(r, path + [i], dirty)
  {
    hide *;
    var q := MergeKids(At(t, path), i, low);
    MergedKid(At(t, path), i, low);
    PutAt(t, path, q);
    OwnedPut(t, path, q, dirty);
    OwnedSnoc(Put(t, path, q), path, i, dirty);
  }

  /** `mdb_node_move`: both pages are made writable, and the nodes are parted anew. */
  method Borrow(db: Databases, d: nat, rest: seq<B.Frame>, up: seq<B.Node>, i: nat, leaf: bool, fromLeft: bool, low: Key,
                s: nat, scan: nat) returns (rc: Outcome)
    requires db.Valid() && db.Bounded(scan) && d < |db.dbs| && db.dbs[d].Some?
    requires Stands(db.dbs[d].value, rest, B.Page(false, up)) && i + 1 < |up| && up[i].Link? && up[i + 1].Link?
    requires up[i].page.leaf == up[i + 1].page.leaf == leaf && R.Kind(leaf, up[i + 1].page.nodes)
    requires var all := R.JoinedAt(up, i, leaf, low); s < |all| && (!leaf ==> all[s].Link?)
    requires Owned(db.dbs[d].value, Path(rest) + [if fromLeft then i + 1 else i], db.txn.dirty)
    modifies db`dbs, db.txn
    ensures db.Valid() && Only(old(Now(db)), Now(db), d) && d < |db.dbs| && db.dbs[d].Some? && (rc == Ok || rc == NoPage)
    ensures rc == NoPage ==> TxnPages.Short(db.txn, 1, scan)
    ensures rc == Ok ==>
              && Stands(db.dbs[d].value, rest, B.Page(false, R.Borrowed(up, i, leaf, R.JoinedAt(up, i, leaf, low), s)))
              && Owned(db.dbs[d].value, Path(rest), db.txn.dirty)
              && Owned(db.dbs[d].value, Path(rest) + [i], db.txn.dirty)
              && Owned(db.dbs[d].value, Path(rest) + [i + 1], db.txn.dirty)
  {
    hide *;
    ghost var was := Now(db);
    NowIs(db);
    var k := if fromLeft then i + 1 else i;
    var j := if fromLeft then i else i + 1;
    rc := TouchNeighbour(db, d, rest, up, k, j, scan);
    if rc != Ok {
      return;
    }
    ghost var t, dbs1 := db.dbs[d].value, Now(db);
    NowIs(db);
    MoveStands(t, rest, up, i, leaf, low, s);
    OwnedChild(t, Path(rest), k, db.txn.dirty);
    OwnedChild(t, Path(rest), j, db.txn.dirty);
    WritableIf(db, d, Path(rest));
    db.Move(d, Path(rest), i, low, s);
    OnlySet(db, was, dbs1, d);
    MovedOwned(t, Path(rest), i, low, s, db.txn.dirty);
  }

  /** `mdb_page_merge`: the left page is made writable and takes the nodes of the right one. */
  method Join(db: Databases, d: nat, rest: seq<B.Frame>, up: seq<B.Node>, i: nat, leaf: bool, fromLeft: bool, low: Key,
              scan: nat) returns (rc: Outcome)
    requires db.Valid() && db.Bounded(scan) && d < |db.dbs| && db.dbs[d].Some?
    requires Stands(db.dbs[d].value, rest, B.Page(false, up)) && i + 1 < |up| && up[i].Link? && up[i + 1].Link?
    requires up[i].page.leaf == up[i + 1].page.leaf == leaf && R.Kind(leaf, up[i + 1].page.nodes)
    requires Owned(db.dbs[d].value, Path(rest) + [if fromLeft then i + 1 else i], db.txn.dirty)
    modifies db`dbs, db.txn
    ensures db.Valid() && Only(old(Now(db)), Now(db), d) && d < |db.dbs| && db.dbs[d].Some? && (rc == Ok || rc == NoPage)
    ensures rc == NoPage ==> TxnPages.Short(db.txn, 1, scan)
    ensures rc == Ok ==>
              && Stands(db.dbs[d].value, rest, B.Page(false, R.Merged(up, i, B.Page(leaf, R.JoinedAt(up, i, leaf, low)))))
              && Owned(db.dbs[d].value, Path(rest), db.txn.dirty)
              && Owned(db.dbs[d].value, Path(rest) + [i], db.txn.dirty)
  {
    hide *;
    ghost var was := Now(db);
    NowIs(db);
    OnlySame(was, d);
    rc := Ok;
    if fromLeft {
      rc := TouchNeighbour(db, d, rest, up, i + 1, i, scan);
    }
    if rc != Ok {
      return;
    }
    ghost var t, dbs1 := db.dbs[d].value, Now(db);
    NowIs(db);
    MergeStands(t, rest, up, i, leaf, low);
    OwnedChild(t, Path(rest), i, db.txn.dirty);
    WritableIf(db, d, Path(rest));
    db.Merge(d, Path(rest), i, low);
    OnlySet(db, was, dbs1, d);
    MergedOwned(t, Path(rest), i, low, db.txn.dirty);
  }

  /** The neighbour spares a node, and the page above gets a new separator. */
  method BorrowUp(ps: B.PageSize, db: Databases, d: nat, ghost stack0: seq<B.Frame>, ghost p0: B.Page,
                  ghost stack: seq<B.Frame>, p: B.Page, rest: seq<B.Frame>, up: seq<B.Node>, i: nat, fromLeft: bool, low: Key,
                  scan: nat, ghost depth0: nat, ghost total: seq<B.Node>, ghost leaves0: nat, ghost branches0: nat)
    returns (rc: Outcome, ghost depth: nat, ghost leaves: nat, ghost branches: nat)
    requires db.Valid() && db.Bounded(scan) && d < |db.dbs| && db.dbs[d].Some?
    requires i + 1 < |up| && up[i].Link? && up[i + 1].Link? && R.Kind(p.leaf, up[i + 1].page.nodes)
    requires up[if fromLeft then i + 1 else i].page.nodes == p.nodes && R.Underfull(ps, p.leaf, p.nodes)
    requires R.Spares(ps, p.leaf, up[if fromLeft then i else i + 1].page.nodes)
    requires R.LowOk(up[i + 1].page, low) && low == R.LowOf(up[i + 1].page)
    requires R.UpReady(ps, rest, up, i, p.leaf, depth0, total, leaves0, branches0)
    requires Stands(db.dbs[d].value, rest, B.Page(false, up))
    requires Owned(db.dbs[d].value, Path(rest) + [if fromLeft then i + 1 else i], db.txn.dirty)
    requires stack != [] && var f := stack[|stack| - 1];
             fromLeft == (f.ki != 0) && F.Beside1(f) < |f.nodes| && f.nodes[F.Beside1(f)] == up[if fromLeft then i else i + 1]
    requires F.Pair(stack, p, rest, up, i, R.JoinedAt(up, i, p.leaf, low)) && F.RebalanceOn(ps, stack0, p0, stack, p)
    modifies db`dbs, db.txn
    ensures db.Valid() && Only(old(Now(db)), Now(db), d) && d < |db.dbs| && db.dbs[d].Some?
    ensures rc == Ok || rc == Full || rc == NoPage
    ensures rc == NoPage ==> TxnPages.Short(db.txn, 1, scan)
    ensures rc == Ok ==> P.TreeOk(ps, Strip(db.dbs[d].value), depth, total, leaves, branches)
    ensures rc == Ok ==> !R.LevelStuck(ps, rest, up, i, p.leaf, fromLeft)
    ensures rc == Full ==> R.LevelStuck(ps, rest, up, i, p.leaf, fromLeft)
    ensures rc == Ok ==> F.Rebalanced(ps, stack0, p0, Shape(db.dbs[d]), depth - depth0)
  {
    hide *;
    ghost var was := Now(db);
    NowIs(db);
    depth, leaves, branches := depth0, leaves0, branches0;
    var l := up[i].page.nodes;
    R.EnoughIs(ps, p.leaf, p.nodes);
    R.LevelParts(ps, rest, up, i, p.leaf, low);
    SameKind(ps, rest, up, i, p.leaf, depth, total, leaves, branches);
    R.MoveReady(ps, rest, up, i, p.leaf, depth, total, leaves, branches, low, fromLeft);
    R.BorrowsIs(ps, stack, p, rest, up, i, low, R.Cut(l, fromLeft));
    R.BorrowStuck(ps, rest, up, i, p.leaf, fromLeft, low);
    var all, s: nat := R.JoinedAt(up, i, p.leaf, low), R.Cut(l, fromLeft);
    rc := Borrow(db, d, rest, up, i, p.leaf, fromLeft, low, s, scan);
    if rc != Ok {
      return;
    }
    BorrowedIs(ps, rest, up, i, p.leaf, depth, total, leaves, branches, all, s);
    TwoKeys();
    was := Now(db);
    NowIs(db);
    rc, depth, leaves, branches :=
      Place(ps, db, d, rest, false, B.Remove(up[i := B.Link(up[i].key, B.Page(p.leaf, all[..s]))], i + 1), i + 1,
            B.Link(all[s].key, B.Page(p.leaf, S.RightNodes(p.leaf, all, s))), scan, depth, total, leaves, branches);
    OnlyTwice(old(Now(db)), was, Now(db), d);
    if rc == Ok {
      R.BorrowedPlaced(ps, rest, up, i, p.leaf, all, s, Strip(db.dbs[d].value), depth - depth0);
      F.OnBorrowed(ps, stack0, p0, stack, p, rest, up, i, all, s, all[s].key, Strip(db.dbs[d].value), depth - depth0);
      ShapeIs(db.dbs[d]);
    }
  }

  /** `mdb_rebalance`, from the page at the bottom of the stack up to where no page is underfull. */
  method Rebalance(ps: B.PageSize, db: Databases, d: nat, stack0: seq<B.Frame>, p0: B.Page, scan: nat, ghost depth0: nat,
                   ghost total: seq<B.Node>, ghost leaves0: nat, ghost branches0: nat)
    returns (rc: Outcome, ghost depth: nat, ghost leaves: nat, ghost branches: nat)
    requires db.Valid() && db.Bounded(scan) && d < |db.dbs| && db.dbs[d].Some?
    requires Stands(db.dbs[d].value, stack0, p0) && Owned(db.dbs[d].value, Path(stack0), db.txn.dirty)
    requires P.Placing(ps, stack0, p0, depth0, total, leaves0, branches0) && B.Used(p0.nodes) <= B.PMax(ps)
    modifies db`dbs, db.txn
    ensures db.Valid() && Only(old(Now(db)), Now(db), d) && d < |db.dbs|
    ensures rc == Ok || rc == Full || rc == NoPage
    ensures rc == NoPage ==> TxnPages.Short(db.txn, 1, scan)
    ensures rc == Ok ==>
              if db.dbs[d].None? then total == [] && depth == 0 && leaves == 0 && branches == 0
              else P.TreeOk(ps, Strip(db.dbs[d].value), depth, total, leaves, branches)
    ensures rc == Ok ==> !R.MergeStuck(ps, stack0, p0)
    ensures rc == Full ==> R.MergeStuck(ps, stack0, p0)
    ensures rc == Ok ==> F.Rebalanced(ps, stack0, p0, Shape(db.dbs[d]), depth - depth0)
  {
    hide *;
    var stack, p := stack0, p0;
    depth, leaves, branches := depth0, leaves0, branches0;
    P.PlacingFramed(ps, stack, p, depth, total, leaves, branches);
    F.OnStart(ps, stack, p);
    OnlySame(Now(db), d);
    rc := Ok;
    while true
      invariant db.Valid() && Only(old(Now(db)), Now(db), d) && d < |db.dbs| && db.dbs[d].Some?
      invariant Stands(db.dbs[d].value, stack, p) && Owned(db.dbs[d].value, Path(stack), db.txn.dirty)
      invariant P.Placing(ps, stack, p, depth, total, leaves, branches) && B.Used(p.nodes) <= B.PMax(ps)
      invariant R.MergeStuck(ps, stack0, p0) == R.MergeStuck(ps, stack, p)
      invariant F.RebalanceOn(ps, stack0, p0, stack, p) && depth == depth0
      decreases |stack|
    {
      ghost var was := Now(db);
      NowIs(db);
      if !R.Underfull(ps, p.leaf, p.nodes) || stack == [] {
        R.NotMergeStuck(ps, stack, p);
        depth, leaves, branches := Stop(ps, db, d, stack0, p0, stack, p, depth, total, leaves, branches);
        OnlyTwice(old(Now(db)), was, Now(db), d);
        return Ok, depth, leaves, branches;
      }
      var f := stack[|stack| - 1];
      var i: nat := if f.ki == 0 then 0 else f.ki - 1;
      var fromLeft := f.ki != 0;
      R.LeftIs(f);
      R.FindNeighbours(ps, stack, p, i, depth, total, leaves, branches);
      var rest := stack[..|stack| - 1];
      var up := B.Filled(f, p);
      R.MergeStuckUp(ps, stack, p);
      R.UpNeighbours(ps, rest, up, i, p.leaf, depth, total, leaves, branches);
      R.UnderfullSide(ps, f, p, up, i);
      var low := R.LowBelow(ps, rest, up, i, p.leaf, depth, total, leaves, branches);
      R.LevelParts(ps, rest, up, i, p.leaf, low);
      PageAbove(db.dbs[d].value, stack, p);
      SameKind(ps, rest, up, i, p.leaf, depth, total, leaves, branches);
      var l, r := up[i].page.nodes, up[i + 1].page.nodes;
      R.EnoughIs(ps, p.leaf, p.nodes);
      R.PairIs(ps, stack, p, i, low, depth, total, leaves, branches);
      if R.Spares(ps, p.leaf, if fromLeft then l else r) {
        rc, depth, leaves, branches :=
          BorrowUp(ps, db, d, stack0, p0, stack, p, rest, up, i, fromLeft, low, scan, depth, total, leaves, branches);
        OnlyTwice(old(Now(db)), was, Now(db), d);
        return;
      }
      R.MergeReady(ps, rest, up, i, p.leaf, depth, total, leaves, branches, low, fromLeft);
      R.MergesIs(ps, stack, p, rest, up, i, low);
      F.OnMerged(ps, stack0, p0, stack, p, rest, up, i, R.JoinedAt(up, i, p.leaf, low), up[i].key);
      R.MergedIs(up, i, B.Page(p.leaf, R.JoinedAt(up, i, p.leaf, low)));
      R.MergedStuck(ps, rest, up, i, p.leaf, fromLeft, low);
      rc := Join(db, d, rest, up, i, p.leaf, fromLeft, low, scan);
      OnlyTwice(old(Now(db)), was, Now(db), d);
      if rc != Ok {
        return;
      }
      leaves, branches := leaves - (if p.leaf then 1 else 0), branches - (if p.leaf then 0 else 1);
      stack, p := rest, B.Page(false, R.Merged(up, i, B.Page(p.leaf, R.JoinedAt(up, i, p.leaf, low))));
    }
  }

  /** The tree without page numbers, if there is one. */
  function Shape(t: Option<Tree>): Option<B.Page> {
    if t.None? then None else Some(Strip(t.value))
  }

  lemma ShapeIs(t: Option<Tree>)
    ensures Shape(t) == if t.None? then None else Some(Strip(t.value))
  {}

  lemma SameKind(ps: B.PageSize, rest: seq<B.Frame>, up: seq<B.Node>, i: nat, leaf: bool, depth: nat, total: seq<B.Node>,
                 leaves: nat, branches: nat)
    requires R.UpReady(ps, rest, up, i, leaf, depth, total, leaves, branches)
    ensures i + 1 < |up| && up[i].Link? && up[i + 1].Link? && B.Used(up) <= B.PMax(ps)
    ensures up[i].page.leaf == up[i + 1].page.leaf == leaf && R.Kind(leaf, up[i + 1].page.nodes)
  {
    hide B.Used, R.Kind;
  }

  lemma BorrowedIs(ps: B.PageSize, rest: seq<B.Frame>, up: seq<B.Node>, i: nat, leaf: bool, depth: nat, total: seq<B.Node>,
                   leaves: nat, branches: nat, all: seq<B.Node>, s: nat)
    requires i + 1 < |up| && up[i].Link? && s < |all| && (!leaf ==> all[s].Link?) && B.Used(up) <= B.PMax(ps)
    ensures var n := B.Link(all[s].key, B.Page(leaf, S.RightNodes(leaf, all, s)));
            var nodes := B.Remove(up[i := B.Link(up[i].key, B.Page(leaf, all[..s]))], i + 1);
            i + 1 <= |nodes| && B.Insert(nodes, i + 1, n) == R.Borrowed(up, i, leaf, all, s)
  {
    hide *;
    R.BorrowedParts(ps, up, i, leaf, all, s);
  }

  /** There is nothing to rebalance, or the page is the root, which may vanish. */
  method Stop(ps: B.PageSize, db: Databases, d: nat, ghost stack0: seq<B.Frame>, ghost p0: B.Page, stack: seq<B.Frame>,
              p: B.Page, ghost depth0: nat, ghost total: seq<B.Node>, ghost leaves0: nat, ghost branches0: nat)
    returns (ghost depth: nat, ghost leaves: nat, ghost branches: nat)
    requires db.Valid() && d < |db.dbs| && db.dbs[d].Some? && Stands(db.dbs[d].value, stack, p)
    requires P.Placing(ps, stack, p, depth0, total, leaves0, branches0) && B.Used(p.nodes) <= B.PMax(ps)
    requires !R.Underfull(ps, p.leaf, p.nodes) || stack == []
    requires F.RebalanceOn(ps, stack0, p0, stack, p)
    modifies db`dbs, db.txn
    ensures db.Valid() && Only(old(Now(db)), Now(db), d) && d < |db.dbs|
    ensures F.Rebalanced(ps, stack0, p0, Shape(db.dbs[d]), depth - depth0)
    ensures if db.dbs[d].None? then total == [] && depth == 0 && leaves == 0 && branches == 0
            else P.TreeOk(ps, Strip(db.dbs[d].value), depth, total, leaves, branches)
  {
    hide *;
    depth, leaves, branches := depth0, leaves0, branches0;
    ghost var t, was := db.dbs[d].value, Now(db);
    NowIs(db);
    OnlySame(was, d);
    R.FullEnough(ps, p.leaf, p.nodes);
    StandsIs(t, stack, p);
    TwoKeys();
    R.EnoughIs(ps, p.leaf, p.nodes);
    F.OnStop(ps, stack0, p0, stack, p);
    ShapeIs(db.dbs[d]);
    if !R.Underfull(ps, p.leaf, p.nodes) || |p.nodes| >= B.MinKeys(p.leaf) {
      P.PlaceDone(ps, stack, p, depth, total, leaves, branches);
      return;
    }
    RootIs(t, stack, p);
    PageParts(t, p.leaf, p.nodes);
    PutHere(t, t);
    HasIf(db, d, []);
    if p.nodes == [] {
      R.EmptyRoot(ps, p, depth, total, leaves, branches);
      db.Vanish(d);
      depth, leaves := 0, 0;
      F.OnEmpty(ps, stack0, p0, p, depth - depth0);
    } else {
      R.CollapseRoot(ps, p, depth, total, leaves, branches);
      OnlyChild(t, p);
      db.Collapse(d);
      F.OnCollapsed(ps, stack0, p0, p);
      depth, branches := depth - 1, branches - 1;
    }
    ShapeIs(db.dbs[d]);
    OnlySet(db, was, was, d);
  }

  lemma OnlyChild(t: Tree, p: B.Page)
    requires Strip(t) == p && |p.nodes| == 1 && p.nodes[0].Link?
    ensures |t.nodes| == 1 && t.nodes[0].Link? && Strip(t.nodes[0].page) == p.nodes[0].page
  {
    assert StripNode(t.nodes[0]) == p.nodes[0];
  }
}
