/** Storing and deleting in a tree whose pages have numbers (mdb_cursor_put, mdb_cursor_del, mdb.c): the
    contents change as a map does, and the transaction's pages stay those of its trees. */
module NumberedDb {
  import opened Options
  import opened Keys
  import opened PageTrees
  import opened TouchPath
  import opened PageUnits
  import opened TreePages
  import opened NumberedTree
  import opened NumberedPlace
  import TxnPages
  import B = BTree
  import P = BTreePlace
  import Q = BTreeSearch
  import D = BTreeDb
  import M = BTreeMap
  import W = BTreeRows

  // ---------------------------------------------------------------- values on overflow pages

  /** A value in pieces: the first overflow page has a header. */
  function Pieces(data: Bytes, first: nat, rest: nat): (r: seq<Bytes>)
    requires 0 < first <= rest
    ensures r != []
    decreases |data|
  {
    if |data| <= first then [data] else [data[..first]] + Pieces(data[first..], rest, rest)
  }

  lemma OneMore(x: nat, m: nat)
    requires m > 0
    ensures (x + m) / m == x / m + 1
  {
    var q := x / m;
    assert x == m * q + x % m;
    assert m * (q + 1) == m * q + m;
    Quotient(x + m, m, q + 1, x % m);
  }

  lemma Quotient(y: nat, m: nat, q: nat, r: nat)
    requires m > 0 && y == m * q + r && r < m
    ensures y / m == q
  {
    var k := y / m;
    assert y == m * k + y % m;
    assert m * (k - q) == m * k - m * q;
    Multiple(m, k - q, r - y % m);
  }

  lemma Multiple(m: nat, k: int, r: int)
    requires m > 0 && m * k == r && r < m && r + m > 0
    ensures k == 0
  {
    Grows(m, k);
    Grows(m, -k);
  }

  lemma Grows(m: nat, k: int)
    ensures k >= 1 ==> m * k >= m
  {
    if k >= 1 { assert m * k == m * (k - 1) + m; }
  }

  lemma {:induction false} PiecesLength(data: Bytes, first: nat, rest: nat)
    requires 0 < first <= rest && (first < rest || data != [])
    ensures |Pieces(data, first, rest)| == (rest - first - 1 + |data|) / rest + 1
    decreases |data|
  {
    if |data| > first {
      PiecesLength(data[first..], rest, rest);
      OneMore(|data| - first - 1, rest);
    } else {
      BelowOne(rest - first - 1 + |data|, rest);
    }
  }

  lemma BelowOne(x: nat, m: nat)
    requires x < m
    ensures x / m == 0
  {}

  lemma {:induction false} PiecesWhole(data: Bytes, first: nat, rest: nat)
    requires 0 < first <= rest
    ensures Whole(Pieces(data, first, rest)) == data
    decreases |data|
  {
    if |data| > first {
      PiecesWhole(data[first..], rest, rest);
      assert Pieces(data, first, rest)[1..] == Pieces(data[first..], rest, rest);
      assert data == data[..first] + data[first..];
    } else {
      assert [data][1..] == [];
    }
  }

  function Chunks(ps: B.PageSize, data: Bytes): Run {
    Pieces(data, ps - B.PAGEHDRSZ, ps)
  }

  lemma ChunksAre(ps: B.PageSize, data: Bytes)
    ensures |Chunks(ps, data)| == B.OvPages(|data|, ps) && Whole(Chunks(ps, data)) == data
  {
    hide Pieces, Whole;
    PiecesLength(data, ps - B.PAGEHDRSZ, ps);
    PiecesWhole(data, ps - B.PAGEHDRSZ, ps);
  }

  /** The same on more pages, as when the pages of a longer value are used again. */
  function Padded(chunks: Run, n: nat): (r: Run)
    ensures |chunks| <= n ==> |r| == n
  {
    if |chunks| < n then chunks + seq(n - |chunks|, i => []) else chunks
  }

  lemma {:induction false} WholeAppend(a: seq<Bytes>, b: seq<Bytes>)
    ensures Whole(a + b) == Whole(a) + Whole(b)
    decreases |a|
  {
    if a == [] {
      assert a + b == b;
    } else {
      WholeAppend(a[1..], b);
      assert (a + b)[1..] == a[1..] + b;
    }
  }

  lemma {:induction false} WholeEmpty(b: seq<Bytes>)
    requires forall i | 0 <= i < |b| :: b[i] == []
    ensures Whole(b) == []
    decreases |b|
  {
    if b != [] { WholeEmpty(b[1..]); }
  }

  lemma PaddedWhole(chunks: Run, n: nat)
    ensures Whole(Padded(chunks, n)) == Whole(chunks)
  {
    if |chunks| < n {
      var e: seq<Bytes> := seq(n - |chunks|, i => []);
      WholeAppend(chunks, e);
      WholeEmpty(e);
    }
  }

  /** Why no page was to be had for a key and its data: no page for the tree, or no run for a large value. */
  ghost predicate ShortFor(ps: B.PageSize, txn: TxnPages.Txn, key: Key, data: Bytes, scan: nat)
    reads txn
  {
    || TxnPages.Short(txn, 1, scan)
    || (B.NODESIZE + |key| + |data| > B.NodeMax(ps) && TxnPages.Short(txn, B.OvPages(|data|, ps), scan))
  }

  lemma ShortBig(ps: B.PageSize, txn: TxnPages.Txn, key: Key, data: Bytes, scan: nat)
    ensures B.NODESIZE + |key| + |data| > B.NodeMax(ps) && TxnPages.Short(txn, B.OvPages(|data|, ps), scan)
            ==> ShortFor(ps, txn, key, data, scan)
    ensures TxnPages.Short(txn, 1, scan) ==> ShortFor(ps, txn, key, data, scan)
  {}

  /** `mdb_node_add` of a key and its data, a large value with its overflow pages. */
  method AddNode(ps: B.PageSize, db: Databases, d: nat, path: seq<nat>, at: nat, key: Key, data: Bytes, scan: nat)
    returns (rc: Outcome, ghost n: Node)
    requires db.Valid() && db.Bounded(scan) && db.Writable(d, path) && at <= |db.PageAt(d, path).nodes|
    modifies db`dbs, db.txn
    ensures db.Valid() && (rc == Ok || rc == NoPage) && old(db.txn.dirty) <= db.txn.dirty
    ensures TxnPages.Advances(old(TxnPages.BooksOf(db.txn)), TxnPages.BooksOf(db.txn))
    ensures Kept(old(db.dbs), old(db.txn.dirty), db.dbs, db.txn.dirty)
    ensures rc == NoPage ==> db.dbs == old(db.dbs) && ShortFor(ps, db.txn, key, data, scan)
    ensures rc == Ok ==>
              && db.dbs == old(db.dbs)[d := Some(Put(old(db.dbs)[d].value, path, AddAt(old(db.PageAt(d, path)), at, n)))]
              && StripNode(n) == D.ItemFor(ps, key, data)
  {
    hide *;
    NodeIs(ps, key, data);
    if B.NODESIZE + |key| + |data| > B.NodeMax(ps) {
      ChunksAre(ps, data);
      var r, pg := db.AddBig(d, path, at, key, |data|, Chunks(ps, data), scan);
      n := Big(key, |data|, pg, Chunks(ps, data));
      BigNode(ps, key, data, pg);
      rc := if r == TxnPages.Success then Ok else NoPage;
      ShortBig(ps, db.txn, key, data, scan);
    } else {
      n := Plain(key, data);
      TxnPages.AdvancesSame(TxnPages.BooksOf(db.txn));
      db.Add(d, path, at, key, data);
      rc := Ok;
    }
  }

  lemma NodeIs(ps: B.PageSize, key: Key, data: Bytes)
    ensures B.NODESIZE + |key| + |data| <= B.NodeMax(ps) ==> StripNode(Plain(key, data)) == D.ItemFor(ps, key, data)
  {}

  lemma BigNode(ps: B.PageSize, key: Key, data: Bytes, pg: Pgno)
    requires B.NODESIZE + |key| + |data| > B.NodeMax(ps)
    ensures StripNode(Big(key, |data|, pg, Chunks(ps, data))) == D.ItemFor(ps, key, data)
  {
    ChunksAre(ps, data);
    hide Chunks, Whole;
  }

  // ---------------------------------------------------------------- what a database holds

  /** A tree in order, of this depth, or none. */
  ghost predicate Sound(ps: B.PageSize, t: Option<Tree>, depth: nat) {
    if t.None? then depth == 0 else B.Good(ps, Strip(t.value), depth, 0.0, 1.0)
  }

  ghost function Contents(ps: B.PageSize, t: Option<Tree>, depth: nat): map<Key, Bytes>
    requires Sound(ps, t, depth)
  {
    if t.None? then map[]
    else
      D.TreeInOrder(ps, Strip(t.value), depth);
      M.ToMap(B.Flat(Strip(t.value).nodes))
  }

  /** What a search finds. */
  ghost predicate Found(ps: B.PageSize, root: B.Page, depth: nat, stack: seq<B.Frame>, page: B.Page, key: Key, at: nat,
                        exact: bool) {
    && B.Good(ps, root, depth, 0.0, 1.0)
    && B.Framed(stack) && B.StackOk(ps, stack, depth) && |stack| < depth
    && B.Good(ps, page, depth - |stack|, B.LoOf(stack), B.HiOf(stack)) && page.leaf
    && B.Zip(stack, page) == root && B.LoOf(stack) <= Rank(key) < B.HiOf(stack)
    && Q.Position(page.nodes, 0, key, at, exact) && Q.Lookup(root, key) == Q.Spot(stack, page, at, exact)
  }

  method Locate(ps: B.PageSize, root: B.Page, key: Key, ghost depth: nat)
    returns (stack: seq<B.Frame>, page: B.Page, at: nat, exact: bool)
    requires B.Good(ps, root, depth, 0.0, 1.0)
    ensures Found(ps, root, depth, stack, page, key, at, exact)
  {
    hide B.Good, B.StackOk, B.Zip, B.LoOf, B.HiOf, Q.Position, Q.Lookup, Rank, B.Framed;
    stack, page, at, exact := Q.Search(ps, root, key, depth);
  }

  lemma FoundFacts(ps: B.PageSize, t: Tree, depth: nat, stack: seq<B.Frame>, page: B.Page, key: Key, at: nat, exact: bool)
    requires Found(ps, Strip(t), depth, stack, page, key, at, exact)
    ensures Stands(t, stack, page) && B.Framed(stack) && page.leaf && at <= |page.nodes| && B.Used(page.nodes) <= B.PMax(ps)
    ensures Q.Lookup(Strip(t), key) == Q.Spot(stack, page, at, exact)
    ensures forall i | 0 <= i < |page.nodes| :: page.nodes[i].Item?
    ensures exact ==> at < |page.nodes| && page.nodes[at].Item? && page.nodes[at].key == key
  {
    hide Strip, B.Good, B.StackOk, B.Zip, B.LoOf, B.HiOf, Q.Position, Q.Lookup, Rank, B.Framed, B.Used;
    D.FoundParts(ps, Strip(t), depth, stack, page, key, at, exact);
    D.LeafPage(ps, page, depth - |stack|, B.LoOf(stack), B.HiOf(stack));
  }

  /** The items of the tree, but for the one at `at`. */
  ghost function Around(stack: seq<B.Frame>, page: B.Page, at: nat, mid: seq<B.Node>, skip: nat): seq<B.Node>
    requires B.Framed(stack) && at + skip <= |page.nodes|
  {
    D.Left(stack, page.nodes, at) + mid + D.Right(stack, page.nodes, at + skip)
  }

  /** What the tree holds, as a sequence of items in order. */
  lemma ItemsOf(ps: B.PageSize, t: Tree, depth: nat)
    requires B.Good(ps, Strip(t), depth, 0.0, 1.0)
    ensures B.InOrder(B.Flat(Strip(t).nodes), 0.0, 1.0)
    ensures forall i | 0 <= i < |B.Flat(Strip(t).nodes)| :: B.Flat(Strip(t).nodes)[i].Item?
    ensures Contents(ps, Some(t), depth) == M.ToMap(B.Flat(Strip(t).nodes))
  {
    hide B.Good, B.Flat, Strip, M.ToMap, B.InOrder;
    D.TreeInOrder(ps, Strip(t), depth);
  }

  lemma TreeFacts(ps: B.PageSize, t: Tree, depth: nat, total: seq<B.Node>, leaves: nat, branches: nat)
    requires P.TreeOk(ps, Strip(t), depth, total, leaves, branches)
    ensures B.Good(ps, Strip(t), depth, 0.0, 1.0) && B.Flat(Strip(t).nodes) == total && Sound(ps, Some(t), depth)
  {
    hide B.Good, B.Flat, Strip;
  }

  /** A key added. */
  lemma AddedContents(ps: B.PageSize, t0: Tree, depth0: nat, stack: seq<B.Frame>, page: B.Page, key: Key, at: nat, n: B.Node,
                      t: Tree, depth: nat, leaves: nat, branches: nat)
    requires Found(ps, Strip(t0), depth0, stack, page, key, at, false) && B.Framed(stack) && at <= |page.nodes|
    requires n.Item? && n.key == key
    requires P.TreeOk(ps, Strip(t), depth, Around(stack, page, at, [n], 0), leaves, branches)
    ensures Sound(ps, Some(t0), depth0) && Sound(ps, Some(t), depth)
    ensures Contents(ps, Some(t), depth) == Contents(ps, Some(t0), depth0)[key := n.data]
  {
    hide B.Good, B.StackOk, B.Zip, B.LoOf, B.HiOf, Q.Position, Q.Lookup, Rank, B.Framed, B.Flat, Strip, P.TreeOk, M.ToMap,
      B.InOrder, Contents, D.Left, D.Right;
    D.FoundParts(ps, Strip(t0), depth0, stack, page, key, at, false);
    TreeFacts(ps, t, depth, Around(stack, page, at, [n], 0), leaves, branches);
    ItemsOf(ps, t0, depth0);
    ItemsOf(ps, t, depth);
    M.MapInsert(D.Left(stack, page.nodes, at), n, D.Right(stack, page.nodes, at));
  }

  /** A key with another value. */
  lemma UpdatedContents(ps: B.PageSize, t0: Tree, depth0: nat, stack: seq<B.Frame>, page: B.Page, key: Key, at: nat, n: B.Node,
                        t: Tree, depth: nat, leaves: nat, branches: nat)
    requires Found(ps, Strip(t0), depth0, stack, page, key, at, true) && B.Framed(stack) && at < |page.nodes|
    requires n.Item? && n.key == key
    requires P.TreeOk(ps, Strip(t), depth, Around(stack, page, at, [n], 1), leaves, branches)
    ensures Sound(ps, Some(t0), depth0) && Sound(ps, Some(t), depth)
    ensures Contents(ps, Some(t), depth) == Contents(ps, Some(t0), depth0)[key := n.data]
  {
    hide B.Good, B.StackOk, B.Zip, B.LoOf, B.HiOf, Q.Position, Q.Lookup, Rank, B.Framed, B.Flat, Strip, P.TreeOk, M.ToMap,
      B.InOrder, Contents, D.Left, D.Right;
    D.FoundParts(ps, Strip(t0), depth0, stack, page, key, at, true);
    TreeFacts(ps, t, depth, Around(stack, page, at, [n], 1), leaves, branches);
    ItemsOf(ps, t0, depth0);
    ItemsOf(ps, t, depth);
    M.MapUpdate(D.Left(stack, page.nodes, at), page.nodes[at], n, D.Right(stack, page.nodes, at + 1));
  }

  /** A key gone. */
  lemma RemovedContents(ps: B.PageSize, t0: Tree, depth0: nat, stack: seq<B.Frame>, page: B.Page, key: Key, at: nat,
                        t: Option<Tree>, depth: nat, leaves: nat, branches: nat)
    requires Found(ps, Strip(t0), depth0, stack, page, key, at, true) && B.Framed(stack) && at < |page.nodes|
    requires var total := D.Left(stack, page.nodes, at) + D.Right(stack, page.nodes, at + 1);
             if t.None? then total == [] && depth == 0 else P.TreeOk(ps, Strip(t.value), depth, total, leaves, branches)
    ensures Sound(ps, Some(t0), depth0) && Sound(ps, t, depth) && key in Contents(ps, Some(t0), depth0)
    ensures Contents(ps, t, depth) == Contents(ps, Some(t0), depth0) - {key}
  {
    hide B.Good, B.StackOk, B.Zip, B.LoOf, B.HiOf, Q.Position, Q.Lookup, Rank, B.Framed, B.Flat, Strip, P.TreeOk, M.ToMap,
      B.InOrder, Contents, D.Left, D.Right;
    D.FoundParts(ps, Strip(t0), depth0, stack, page, key, at, true);
    ItemsOf(ps, t0, depth0);
    M.MapInsert(D.Left(stack, page.nodes, at), page.nodes[at], D.Right(stack, page.nodes, at + 1));
    if t.Some? {
      TreeFacts(ps, t.value, depth, D.Left(stack, page.nodes, at) + D.Right(stack, page.nodes, at + 1), leaves, branches);
      ItemsOf(ps, t.value, depth);
    } else {
      NoContents(ps);
    }
  }

  lemma NoContents(ps: B.PageSize)
    ensures Sound(ps, None, 0) && Contents(ps, None, 0) == map[] && M.ToMap([]) == map[]
  {}

  lemma ItemIs(ps: B.PageSize, key: Key, data: Bytes)
    requires 1 <= |key| <= B.MAXKEY
    ensures var n := D.ItemFor(ps, key, data); n.Item? && n.key == key && n.data == data && B.ItemOk(ps, n)
  {
    B.OvPagesFit(|data|, ps);
  }

  // ---------------------------------------------------------------- put and delete

  lemma StripSet(p: Tree, at: nat, n: Node)
    requires at < |p.nodes|
    ensures Strip(SetAt(p, at, n)) == B.Page(p.leaf, StripAll(p.nodes)[at := StripNode(n)])
  {
    hide StripNode;
  }

  /** A node added to the page at the bottom of the stack, which may have to split. */
  method AddAndPlace(ps: B.PageSize, db: Databases, d: nat, stack: seq<B.Frame>, nodes: seq<B.Node>, at: nat, key: Key,
                     data: Bytes, scan: nat, ghost depth0: nat, ghost total: seq<B.Node>, ghost leaves0: nat,
                     ghost branches0: nat)
    returns (rc: Outcome, ghost depth: nat, ghost leaves: nat, ghost branches: nat)
    requires db.Valid() && db.Bounded(scan) && d < |db.dbs| && db.dbs[d].Some?
    requires Stands(db.dbs[d].value, stack, B.Page(true, nodes)) && Owned(db.dbs[d].value, Path(stack), db.txn.dirty)
    requires at <= |nodes| && B.Used(nodes) <= B.PMax(ps)
    requires P.Placing(ps, stack, B.Page(true, B.Insert(nodes, at, D.ItemFor(ps, key, data))), depth0, total, leaves0, branches0)
    modifies db`dbs, db.txn
    ensures db.Valid() && Only(old(Now(db)), Now(db), d) && d < |db.dbs| && db.dbs[d].Some?
    ensures rc == Ok || rc == Full || rc == NoPage
    ensures rc == NoPage ==> ShortFor(ps, db.txn, key, data, scan)
    ensures rc == Ok ==> P.TreeOk(ps, Strip(db.dbs[d].value), depth, total, leaves, branches)
    ensures rc == Ok ==> !P.Stuck(ps, stack, true, nodes, at, D.ItemFor(ps, key, data))
    ensures rc == Full ==> P.Stuck(ps, stack, true, nodes, at, D.ItemFor(ps, key, data))
    ensures rc == Ok ==> W.Placed(ps, stack, true, nodes, at, D.ItemFor(ps, key, data), Strip(db.dbs[d].value), depth - depth0)
  {
    hide *;
    ghost var t, was, dirty := db.dbs[d].value, Now(db), db.txn.dirty;
    NowIs(db);
    OnlySame(was, d);
    depth, leaves, branches := depth0, leaves0, branches0;
    StandsAt(t, stack, B.Page(true, nodes));
    OwnedAt(t, Path(stack), dirty);
    WritableIf(db, d, Path(stack));
    ghost var p := At(t, Path(stack));
    PageParts(p, true, nodes);
    ghost var n;
    rc, n := AddNode(ps, db, d, Path(stack), at, key, data, scan);
    OnlySet(db, was, was, d);
    if rc != Ok {
      return;
    }
    StripAdd(p, at, n);
    AddIs(p, at, n);
    StandsPut(t, stack, B.Page(true, nodes), AddAt(p, at, n));
    OwnedMore(t, Path(stack), dirty, db.txn.dirty);
    OwnedPut(t, Path(stack), AddAt(p, at, n), db.txn.dirty);
    TwoKeys();
    ghost var dbs1 := Now(db);
    NowIs(db);
    rc, depth, leaves, branches :=
      Place(ps, db, d, stack, true, nodes, at, D.ItemFor(ps, key, data), scan, depth0, total, leaves0, branches0);
    ShortBig(ps, db.txn, key, data, scan);
    OnlyTwice(was, dbs1, Now(db), d);
  }

  /** The node at `at` of the page at the bottom of the stack is deleted. */
  method DelNode(db: Databases, d: nat, stack: seq<B.Frame>, nodes: seq<B.Node>, at: nat)
    requires db.Valid() && d < |db.dbs| && db.dbs[d].Some?
    requires Stands(db.dbs[d].value, stack, B.Page(true, nodes)) && Owned(db.dbs[d].value, Path(stack), db.txn.dirty)
    requires at < |nodes| && PathIn(db.dbs[d].value, Path(stack))
    requires var p := At(db.dbs[d].value, Path(stack)); at < |p.nodes| && (p.nodes[at].Plain? || p.nodes[at].Big?)
    modifies db`dbs, db.txn
    ensures db.Valid() && Only(old(Now(db)), Now(db), d) && d < |db.dbs| && db.dbs[d].Some?
    ensures Stands(db.dbs[d].value, stack, B.Page(true, B.Remove(nodes, at)))
    ensures Owned(db.dbs[d].value, Path(stack), db.txn.dirty)
    ensures NodeFreed(At(old(db.dbs)[d].value, Path(stack)).nodes[at], old(db.txn.pglast > 0), old(db.txn.dirty),
                      old(db.txn.head), old(db.txn.freed), db.txn.head, db.txn.freed)
  {
    hide *;
    ghost var t, was, dirty := db.dbs[d].value, Now(db), db.txn.dirty;
    NowIs(db);
    OnlySame(was, d);
    StandsAt(t, stack, B.Page(true, nodes));
    OwnedAt(t, Path(stack), dirty);
    WritableIf(db, d, Path(stack));
    ghost var p := At(t, Path(stack));
    PageParts(p, true, nodes);
    db.Delete(d, Path(stack), at);
    OnlySet(db, was, was, d);
    StripDel(p, at);
    DelIs(p, at);
    StandsPut(t, stack, B.Page(true, nodes), DelAt(p, at));
    OwnedPut(t, Path(stack), DelAt(p, at), dirty);
    TreeIn(db.dbs, d);
    OwnedStill(db.dbs[d].value, Path(stack), dirty, db.txn.dirty);
  }

  /** The key is new. */
  method PutNew(ps: B.PageSize, db: Databases, d: nat, stack: seq<B.Frame>, page: B.Page, at: nat, key: Key, data: Bytes,
                scan: nat, ghost depth0: nat) returns (rc: Outcome, ghost depth: nat)
    requires db.Valid() && db.Bounded(scan) && d < |db.dbs| && db.dbs[d].Some? && 1 <= |key| <= B.MAXKEY
    requires Found(ps, Strip(db.dbs[d].value), depth0, stack, page, key, at, false)
    requires Owned(db.dbs[d].value, Path(stack), db.txn.dirty)
    modifies db`dbs, db.txn
    ensures db.Valid() && Only(old(Now(db)), Now(db), d) && d < |db.dbs| && (rc == Ok || rc == Full || rc == NoPage)
    ensures rc == NoPage ==> ShortFor(ps, db.txn, key, data, scan)
    ensures rc == Ok ==> Sound(ps, old(db.dbs)[d], depth0) && Sound(ps, db.dbs[d], depth)
                         && Contents(ps, db.dbs[d], depth) == Contents(ps, old(db.dbs)[d], depth0)[key := data]
    ensures rc == Ok ==> forall dirty :: !D.PutStuck(ps, Strip(old(db.dbs)[d].value), key, data, dirty)
    ensures rc == Full ==> forall dirty :: D.PutStuck(ps, Strip(old(db.dbs)[d].value), key, data, dirty)
    ensures rc == Ok ==>
              && db.dbs[d].Some?
              && D.PutDone(ps, Strip(old(db.dbs)[d].value), key, data, false, Strip(db.dbs[d].value), depth - depth0)
  {
    hide *;
    ghost var t := db.dbs[d].value;
    ghost var item := D.ItemFor(ps, key, data);
    FoundFacts(ps, t, depth0, stack, page, key, at, false);
    NewPlacing(ps, t, depth0, stack, page, key, at, data);
    ghost var leaves, branches;
    rc, depth, leaves, branches :=
      AddAndPlace(ps, db, d, stack, page.nodes, at, key, data, scan, depth0, Around(stack, page, at, [item], 0),
                  B.PagesAt(Strip(t), true), B.PagesAt(Strip(t), false));
    forall dirty ensures D.PutStuck(ps, Strip(t), key, data, dirty) == P.Stuck(ps, stack, true, page.nodes, at, item) {
      D.NewStuck(ps, Strip(t), stack, page, at, key, data, dirty);
    }
    if rc == Ok {
      D.PutDoneNew(ps, Strip(t), stack, page, at, key, data, false, Strip(db.dbs[d].value), depth - depth0);
      ItemIs(ps, key, data);
      AddedContents(ps, t, depth0, stack, page, key, at, item, db.dbs[d].value, depth, leaves, branches);
    }
  }

  lemma NewPlacing(ps: B.PageSize, t: Tree, depth: nat, stack: seq<B.Frame>, page: B.Page, key: Key, at: nat, data: Bytes)
    requires Found(ps, Strip(t), depth, stack, page, key, at, false) && 1 <= |key| <= B.MAXKEY
    ensures page == B.Page(true, page.nodes) && B.Framed(stack) && at <= |page.nodes|
    ensures var item := D.ItemFor(ps, key, data);
            P.Placing(ps, stack, B.Page(true, B.Insert(page.nodes, at, item)), depth, Around(stack, page, at, [item], 0),
                      B.PagesAt(Strip(t), true), B.PagesAt(Strip(t), false))
  {
    hide B.Good, B.StackOk, B.Zip, B.LoOf, B.HiOf, Q.Position, Q.Lookup, Rank, B.Framed, Strip, P.Placing, B.PagesAt,
      D.Left, D.Right, D.ItemFor, B.ItemOk;
    ItemIs(ps, key, data);
    FoundFacts(ps, t, depth, stack, page, key, at, false);
    D.AddPlacing(ps, Strip(t), depth, B.PagesAt(Strip(t), true), B.PagesAt(Strip(t), false), stack, page, at,
                 D.ItemFor(ps, key, data));
  }

  /** The first key of a database. */
  method PutFirst(ps: B.PageSize, db: Databases, d: nat, key: Key, data: Bytes, scan: nat)
    returns (rc: Outcome, ghost depth: nat)
    requires db.Valid() && db.Bounded(scan) && d < |db.dbs| && db.dbs[d].None? && 1 <= |key| <= B.MAXKEY
    modifies db`dbs, db.txn
    ensures db.Valid() && Only(old(Now(db)), Now(db), d) && d < |db.dbs| && (rc == Ok || rc == NoPage)
    ensures rc == NoPage ==> ShortFor(ps, db.txn, key, data, scan)
    ensures rc == Ok ==> Sound(ps, db.dbs[d], depth) && Contents(ps, db.dbs[d], depth) == map[key := data]
    ensures rc == Ok ==> Shape(db.dbs[d]) == Some(B.Page(true, [D.ItemFor(ps, key, data)]))
  {
    hide *;
    ghost var was, item := Now(db), D.ItemFor(ps, key, data);
    NowIs(db);
    OnlySame(was, d);
    depth := 0;
    var r, np := db.First(d, scan);
    OnlySet(db, was, was, d);
    ShortBig(ps, db.txn, key, data, scan);
    if r != TxnPages.Success {
      return NoPage, depth;
    }
    NewLeaf(np, db.txn.dirty);
    ItemIs(ps, key, data);
    D.FirstPlacing(ps, item);
    D.FirstRoom(ps, item);
    P.NotStuck(ps, [], true, [], 0, item);
    ghost var dbs1 := Now(db);
    NowIs(db);
    ghost var leaves, branches;
    rc, depth, leaves, branches := AddAndPlace(ps, db, d, [], [], 0, key, data, scan, 1, [item], 1, 0);
    OnlyTwice(was, dbs1, Now(db), d);
    if rc == Ok {
      D.PlacedFits(ps, [], true, [], 0, item, Strip(db.dbs[d].value), depth - 1);
      ShapeIs(db.dbs[d]);
      TreeFacts(ps, db.dbs[d].value, depth, [item], leaves, branches);
      ItemsOf(ps, db.dbs[d].value, depth);
    }
  }

  lemma NewLeaf(np: Pgno, dirty: set<nat>)
    requires np in dirty
    ensures Stands(Tree(np, true, []), [], B.Page(true, [])) && Owned(Tree(np, true, []), Path([]), dirty)
  {
    assert Path([]) == [];
    assert StripAll([]) == [];
  }

  lemma OverPlacing(ps: B.PageSize, t: Tree, depth: nat, stack: seq<B.Frame>, page: B.Page, key: Key, at: nat, data: Bytes)
    requires Found(ps, Strip(t), depth, stack, page, key, at, true) && 1 <= |key| <= B.MAXKEY
    ensures page == B.Page(true, page.nodes) && B.Framed(stack) && at < |page.nodes|
    ensures B.Used(B.Remove(page.nodes, at)) <= B.PMax(ps) && at <= |B.Remove(page.nodes, at)|
    ensures var item := D.ItemFor(ps, key, data);
            P.Placing(ps, stack, B.Page(true, B.Insert(B.Remove(page.nodes, at), at, item)), depth,
                      Around(stack, page, at, [item], 1), B.PagesAt(Strip(t), true), B.PagesAt(Strip(t), false))
  {
    hide B.Good, B.StackOk, B.Zip, B.LoOf, B.HiOf, Q.Position, Q.Lookup, Rank, B.Framed, Strip, P.Placing, B.PagesAt,
      D.Left, D.Right, D.ItemFor, B.ItemOk, B.Used;
    ItemIs(ps, key, data);
    FoundFacts(ps, t, depth, stack, page, key, at, true);
    D.UpdatePlacing(ps, Strip(t), depth, B.PagesAt(Strip(t), true), B.PagesAt(Strip(t), false), stack, page, at,
                    D.ItemFor(ps, key, data));
    B.UsedRemove(page.nodes, at);
    assert B.Insert(B.Remove(page.nodes, at), at, D.ItemFor(ps, key, data)) == page.nodes[at := D.ItemFor(ps, key, data)];
  }

  /** The item stays on its overflow pages, or has the length it had. */
  predicate SameRoom(ps: B.PageSize, n: B.Node, data: Bytes) {
    n.Item? && ((n.ov > 0 && n.ov >= B.OvPages(|data|, ps)) || (n.ov == 0 && |data| == |n.data|))
  }

  /** It is replaced in place. */
  lemma InPlaceTree(ps: B.PageSize, t: Tree, depth: nat, stack: seq<B.Frame>, page: B.Page, key: Key, at: nat, data: Bytes)
    requires Found(ps, Strip(t), depth, stack, page, key, at, true) && at < |page.nodes| && SameRoom(ps, page.nodes[at], data)
    requires B.Framed(stack)
    ensures var item := page.nodes[at].(data := data);
            P.TreeOk(ps, B.Zip(stack, B.Page(true, page.nodes[at := item])), depth, Around(stack, page, at, [item], 1),
                     B.PagesAt(Strip(t), true), B.PagesAt(Strip(t), false))
  {
    hide B.Good, B.StackOk, B.Zip, B.LoOf, B.HiOf, Q.Position, Q.Lookup, Rank, Strip, P.Placing, B.PagesAt,
      D.Left, D.Right, B.ItemOk, B.Used, B.LeafOk, P.TreeOk, B.Room;
    FoundFacts(ps, t, depth, stack, page, key, at, true);
    D.LeafPage(ps, page, depth - |stack|, B.LoOf(stack), B.HiOf(stack));
    var old', item := page.nodes[at], page.nodes[at].(data := data);
    ItemSizes(ps, page, at, B.LoOf(stack), B.HiOf(stack));
    if old'.ov > 0 {
      D.SameOverflow(ps, key, data, old');
    } else {
      D.SameLength(ps, page.nodes, at, item, B.LoOf(stack), B.HiOf(stack));
    }
    D.UpdatePlacing(ps, Strip(t), depth, B.PagesAt(Strip(t), true), B.PagesAt(Strip(t), false), stack, page, at, item);
    B.UsedUpdate(page.nodes, at, item);
    TwoKeys();
    P.PlaceDone(ps, stack, B.Page(true, page.nodes[at := item]), depth, Around(stack, page, at, [item], 1),
                B.PagesAt(Strip(t), true), B.PagesAt(Strip(t), false));
  }

  lemma ItemSizes(ps: B.PageSize, page: B.Page, at: nat, lo: real, hi: real)
    requires B.LeafOk(ps, page.nodes, lo, hi) && at < |page.nodes|
    ensures page.nodes[at].Item? && 1 <= |page.nodes[at].key| <= B.MAXKEY
  {
    hide Rank;
  }

  /** A node of a leaf page. */
  lemma LeafNode(p: Tree, page: B.Page, at: nat)
    requires Strip(p) == page && at < |page.nodes| && page.nodes[at].Item?
    ensures at < |p.nodes| && StripNode(p.nodes[at]) == page.nodes[at] && !p.nodes[at].Link?
    ensures p.nodes[at].key == page.nodes[at].key
    ensures p.nodes[at].Big? ==> page.nodes[at].ov == |p.nodes[at].chunks|
    ensures p.nodes[at].Plain? ==> page.nodes[at].ov == 0 && page.nodes[at].data == p.nodes[at].data
  {}

  lemma ReusedNode(ps: B.PageSize, n: Node, data: Bytes)
    requires n.Big? && B.OvPages(|data|, ps) <= |n.chunks|
    ensures var m := Big(n.key, |data|, n.pgno, Padded(Chunks(ps, data), |n.chunks|));
            StripNode(m) == StripNode(n).(data := data) && |m.chunks| == |n.chunks|
  {
    ChunksAre(ps, data);
    PaddedWhole(Chunks(ps, data), |n.chunks|);
    hide Chunks, Whole, Padded;
  }

  /** The node is replaced in its page. */
  method SetNode(ps: B.PageSize, db: Databases, d: nat, ghost stack: seq<B.Frame>, path: seq<nat>, ghost page: B.Page,
                 ghost key: Key, at: nat, data: Bytes, n: Node, ghost depth: nat)
    requires db.Valid() && d < |db.dbs| && db.dbs[d].Some? && path == Path(stack)
    requires Found(ps, Strip(db.dbs[d].value), depth, stack, page, key, at, true)
    requires Owned(db.dbs[d].value, path, db.txn.dirty) && PathIn(db.dbs[d].value, path)
    requires var p := At(db.dbs[d].value, path);
             && at < |p.nodes| && at < |page.nodes| && SameRoom(ps, page.nodes[at], data)
             && StripNode(n) == page.nodes[at].(data := data)
             && ((p.nodes[at].Plain? && n.Plain? && |n.data| == |p.nodes[at].data|)
                 || (p.nodes[at].Big? && n.Big? && n.pgno == p.nodes[at].pgno && |n.chunks| == |p.nodes[at].chunks|
                     && n.pgno in db.txn.dirty))
    modifies db`dbs
    ensures db.Valid() && Only(old(Now(db)), Now(db), d) && d < |db.dbs|
    ensures Sound(ps, old(db.dbs)[d], depth) && Sound(ps, db.dbs[d], depth)
    ensures Contents(ps, db.dbs[d], depth) == Contents(ps, old(db.dbs)[d], depth)[key := data]
    ensures B.Framed(stack) && db.dbs[d].Some?
    ensures Strip(db.dbs[d].value) == B.Zip(stack, B.Page(true, page.nodes[at := page.nodes[at].(data := data)]))
  {
    hide *;
    ghost var t, was := db.dbs[d].value, Now(db);
    NowIs(db);
    ghost var p := At(t, path);
    OnlySame(was, d);
    FoundFacts(ps, t, depth, stack, page, key, at, true);
    StandsAt(t, stack, page);
    OwnedAt(t, path, db.txn.dirty);
    WritableIf(db, d, path);
    PageParts(p, true, page.nodes);
    db.Replace(d, path, at, n);
    OnlySet(db, was, was, d);
    StripSet(p, at, n);
    StandsPut(t, stack, page, SetAt(p, at, n));
    ghost var item := page.nodes[at].(data := data);
    StandsIs(db.dbs[d].value, stack, B.Page(true, page.nodes[at := item]));
    InPlaceTree(ps, t, depth, stack, page, key, at, data);
    UpdatedContents(ps, t, depth, stack, page, key, at, item, db.dbs[d].value, depth, B.PagesAt(Strip(t), true),
                    B.PagesAt(Strip(t), false));
  }

  lemma SubThere(t: Tree, path: seq<nat>, i: nat, key: Key)
    requires PathIn(t, path) && i < |At(t, path).nodes| && At(t, path).nodes[i].Sub? && At(t, path).nodes[i].key == key
    ensures HasSub(t, key)
  {
    assert SubAt(t, path, i, key);
  }

  lemma SubBefore(a: Tree, b: Tree, key: Key)
    requires NoNewSubs(a, b) && HasSub(b, key)
    ensures HasSub(a, key)
  {
    hide HasSub;
  }

  /** The item at `at` of the page at the end of the path is on overflow pages that may be written. */
  ghost predicate BigThere(t: Tree, path: seq<nat>, at: nat, dirty: set<nat>) {
    PathIn(t, path) && at < |At(t, path).nodes| && var n := At(t, path).nodes[at]; n.Big? && n.pgno in dirty
  }

  lemma BigIf(t: Tree, path: seq<nat>, at: nat, dirty: set<nat>)
    requires PathIn(t, path) && at < |At(t, path).nodes|
    ensures var n := At(t, path).nodes[at]; BigThere(t, path, at, dirty) <==> n.Big? && n.pgno in dirty
  {
    hide PathIn, At;
  }

  /** The key is there: its overflow pages are used again when they are writable and large enough, a value of
      the same length is replaced in place, else the node is deleted and added again. */
  method PutOver(ps: B.PageSize, db: Databases, d: nat, stack: seq<B.Frame>, page: B.Page, at: nat, key: Key, data: Bytes,
                 scan: nat, ghost depth0: nat) returns (rc: Outcome, ghost depth: nat, ghost dirty: bool)
    requires db.Valid() && db.Bounded(scan) && d < |db.dbs| && db.dbs[d].Some? && 1 <= |key| <= B.MAXKEY
    requires Found(ps, Strip(db.dbs[d].value), depth0, stack, page, key, at, true)
    requires Owned(db.dbs[d].value, Path(stack), db.txn.dirty)
    modifies db`dbs, db.txn
    ensures db.Valid() && Only(old(Now(db)), Now(db), d) && d < |db.dbs| && rc != NotFound
    ensures rc == Incompatible ==> db.dbs == old(db.dbs) && db.dbs[d].Some? && HasSub(db.dbs[d].value, key)
    ensures rc == NoPage ==> ShortFor(ps, db.txn, key, data, scan)
    ensures rc == Ok ==> Sound(ps, old(db.dbs)[d], depth0) && Sound(ps, db.dbs[d], depth)
                         && Contents(ps, db.dbs[d], depth) == Contents(ps, old(db.dbs)[d], depth0)[key := data]
    ensures rc == Ok ==> !D.PutStuck(ps, Strip(old(db.dbs)[d].value), key, data, dirty)
    ensures rc == Full ==> D.PutStuck(ps, Strip(old(db.dbs)[d].value), key, data, dirty)
    ensures dirty <==> BigThere(old(db.dbs)[d].value, Path(stack), at, old(db.txn.dirty))
    ensures rc == Ok ==>
              && db.dbs[d].Some?
              && D.PutDone(ps, Strip(old(db.dbs)[d].value), key, data, dirty, Strip(db.dbs[d].value), depth - depth0)
  {
    hide *;
    ghost var t, was, item := db.dbs[d].value, Now(db), D.ItemFor(ps, key, data);
    NowIs(db);
    OnlySame(was, d);
    FoundFacts(ps, t, depth0, stack, page, key, at, true);
    StandsAt(t, stack, page);
    LeafNode(At(t, Path(stack)), page, at);
    var n := At(db.dbs[d].value, Path(stack)).nodes[at];
    depth, dirty := depth0, n.Big? && n.pgno in db.txn.dirty;
    BigIf(t, Path(stack), at, db.txn.dirty);
    if n.Sub? {
      SubThere(t, Path(stack), at, key);
      return Incompatible, depth, dirty;
    }
    D.OldStuck(ps, Strip(t), stack, page, at, key, data, dirty);
    ReusesIf(ps, page.nodes[at], data, dirty);
    if n.Big? && |n.chunks| >= B.OvPages(|data|, ps) && n.pgno in db.txn.dirty {
      ReusedNode(ps, n, data);
      SetNode(ps, db, d, stack, Path(stack), page, key, at, data,
              Big(n.key, |data|, n.pgno, Padded(Chunks(ps, data), |n.chunks|)), depth0);
      D.PutDoneOld(ps, Strip(t), stack, page, at, key, data, dirty, Strip(db.dbs[d].value), 0);
      return Ok, depth, dirty;
    }
    if n.Plain? && |n.data| == |data| {
      PlainNode(n, data);
      SetNode(ps, db, d, stack, Path(stack), page, key, at, data, Plain(n.key, data), depth0);
      D.PutDoneOld(ps, Strip(t), stack, page, at, key, data, dirty, Strip(db.dbs[d].value), 0);
      return Ok, depth, dirty;
    }
    OverPlacing(ps, t, depth0, stack, page, key, at, data);
    DelNode(db, d, stack, page.nodes, at);
    ghost var dbs1 := Now(db);
    NowIs(db);
    ghost var leaves, branches;
    rc, depth, leaves, branches :=
      AddAndPlace(ps, db, d, stack, B.Remove(page.nodes, at), at, key, data, scan, depth0, Around(stack, page, at, [item], 1),
                  B.PagesAt(Strip(t), true), B.PagesAt(Strip(t), false));
    OnlyTwice(was, dbs1, Now(db), d);
    if rc == Ok {
      D.PutDoneOld(ps, Strip(t), stack, page, at, key, data, dirty, Strip(db.dbs[d].value), depth - depth0);
      ItemIs(ps, key, data);
      UpdatedContents(ps, t, depth0, stack, page, key, at, item, db.dbs[d].value, depth, leaves, branches);
    }
  }

  lemma ReusesIf(ps: B.PageSize, n: B.Node, data: Bytes, dirty: bool)
    requires n.Item?
    ensures D.Reuses(ps, n, data, dirty)
       <==> (n.ov > 0 && n.ov >= B.OvPages(|data|, ps) && dirty) || (n.ov == 0 && |data| == |n.data|)
    ensures D.Reuses(ps, n, data, dirty) ==> SameRoom(ps, n, data)
  {}

  lemma PlainNode(n: Node, data: Bytes)
    requires n.Plain?
    ensures StripNode(n).Item? && StripNode(Plain(n.key, data)) == StripNode(n).(data := data)
  {}

  /** `mdb_put`: search, make the path writable, and add or replace the node. */
  method PutKey(ps: B.PageSize, db: Databases, d: nat, key: Key, data: Bytes, scan: nat, ghost depth0: nat)
    returns (rc: Outcome, ghost depth: nat, ghost dirty: bool)
    requires db.Valid() && db.Bounded(scan) && d < |db.dbs| && Sound(ps, db.dbs[d], depth0)
    requires 1 <= |key| <= B.MAXKEY && |data| <= B.MAXDATASIZE
    modifies db`dbs, db.txn
    ensures db.Valid() && Only(old(Now(db)), Now(db), d) && d < |db.dbs| && rc != NotFound
    ensures rc == Ok ==>
              Sound(ps, db.dbs[d], depth) && Contents(ps, db.dbs[d], depth) == Contents(ps, old(db.dbs)[d], depth0)[key := data]
    ensures rc == NoPage ==> ShortFor(ps, db.txn, key, data, scan)
    ensures rc == Incompatible ==> old(db.dbs)[d].Some? && HasSub(old(db.dbs)[d].value, key)
    ensures rc == Incompatible ==>
              && key in Contents(ps, old(db.dbs)[d], depth0)
              && Sound(ps, db.dbs[d], depth0) && Contents(ps, db.dbs[d], depth0) == Contents(ps, old(db.dbs)[d], depth0)
    ensures rc == Ok ==> old(db.dbs)[d].Some? ==> !D.PutStuck(ps, Strip(old(db.dbs)[d].value), key, data, dirty)
    ensures rc == Full ==> old(db.dbs)[d].Some? && D.PutStuck(ps, Strip(old(db.dbs)[d].value), key, data, dirty)
    ensures rc == Ok ==>
              if old(db.dbs)[d].None? then Shape(db.dbs[d]) == Some(B.Page(true, [D.ItemFor(ps, key, data)]))
              else db.dbs[d].Some?
                   && D.PutDone(ps, Strip(old(db.dbs)[d].value), key, data, dirty, Strip(db.dbs[d].value), depth - depth0)
  {
    hide *;
    ghost var was := Now(db);
    NowIs(db);
    OnlySame(was, d);
    depth, dirty := depth0, false;
    if db.dbs[d].None? {
      NothingYet(ps, db.dbs[d], depth0);
      rc, depth := PutFirst(ps, db, d, key, data, scan);
      return;
    }
    SoundTree(ps, db.dbs[d].value, depth0);
    ghost var t := db.dbs[d].value;
    var stack, page, at, exact := Locate(ps, Strip(db.dbs[d].value), key, depth0);
    FoundFacts(ps, t, depth0, stack, page, key, at, exact);
    StandsAt(t, stack, page);
    HasIf(db, d, Path(stack));
    rc := TouchAll(db, d, Path(stack), scan);
    ShortBig(ps, db.txn, key, data, scan);
    if rc != Ok {
      return;
    }
    ghost var dbs1 := Now(db);
    NowIs(db);
    SameContents(ps, t, db.dbs[d].value, depth0);
    if exact {
      rc, depth, dirty := PutOver(ps, db, d, stack, page, at, key, data, scan, depth0);
      FoundKey(ps, t, depth0, stack, page, key, at);
      if rc == Incompatible { SubBefore(t, dbs1.dbs[d].value, key); }
    } else {
      rc, depth := PutNew(ps, db, d, stack, page, at, key, data, scan, depth0);
    }
    OnlyTwice(was, dbs1, Now(db), d);
  }

  lemma NothingYet(ps: B.PageSize, t: Option<Tree>, depth: nat)
    requires t.None? && Sound(ps, t, depth)
    ensures Contents(ps, t, depth) == map[]
  {}

  lemma SoundTree(ps: B.PageSize, t: Tree, depth: nat)
    ensures Sound(ps, Some(t), depth) <==> B.Good(ps, Strip(t), depth, 0.0, 1.0)
  {
    hide B.Good, Strip;
  }

  /** Page numbers are not part of what a database holds. */
  lemma SameContents(ps: B.PageSize, a: Tree, b: Tree, depth: nat)
    requires Strip(a) == Strip(b) && Sound(ps, Some(a), depth)
    ensures Sound(ps, Some(b), depth) && Contents(ps, Some(b), depth) == Contents(ps, Some(a), depth)
  {
    hide B.Good, Strip, B.Flat, M.ToMap;
    SoundTree(ps, a, depth);
    SoundTree(ps, b, depth);
    ItemsOf(ps, a, depth);
    ItemsOf(ps, b, depth);
  }

  lemma FoundKey(ps: B.PageSize, t: Tree, depth: nat, stack: seq<B.Frame>, page: B.Page, key: Key, at: nat)
    requires Found(ps, Strip(t), depth, stack, page, key, at, true)
    ensures Sound(ps, Some(t), depth) && key in Contents(ps, Some(t), depth)
  {
    hide B.Good, B.StackOk, B.Zip, B.LoOf, B.HiOf, Q.Position, Q.Lookup, Rank, B.Framed, B.Flat, Strip, M.ToMap, Contents;
    D.FoundParts(ps, Strip(t), depth, stack, page, key, at, true);
    ItemsOf(ps, t, depth);
  }

  lemma MissingKey(ps: B.PageSize, t: Tree, depth: nat, stack: seq<B.Frame>, page: B.Page, key: Key, at: nat)
    requires Found(ps, Strip(t), depth, stack, page, key, at, false)
    ensures Sound(ps, Some(t), depth) && key !in Contents(ps, Some(t), depth)
  {
    hide B.Good, B.StackOk, B.Zip, B.LoOf, B.HiOf, Q.Position, Q.Lookup, Rank, B.Framed, B.Flat, Strip, M.ToMap, Contents;
    D.FoundParts(ps, Strip(t), depth, stack, page, key, at, false);
    ItemsOf(ps, t, depth);
  }

  /** `mdb_del`: search, make the path writable, delete the node and rebalance. */
  method DelKey(ps: B.PageSize, db: Databases, d: nat, key: Key, scan: nat, ghost depth0: nat)
    returns (rc: Outcome, ghost depth: nat)
    requires db.Valid() && db.Bounded(scan) && d < |db.dbs| && Sound(ps, db.dbs[d], depth0)
    modifies db`dbs, db.txn
    ensures db.Valid() && Only(old(Now(db)), Now(db), d) && d < |db.dbs|
    ensures rc == Ok ==>
              && key in Contents(ps, old(db.dbs)[d], depth0)
              && Sound(ps, db.dbs[d], depth) && Contents(ps, db.dbs[d], depth) == Contents(ps, old(db.dbs)[d], depth0) - {key}
    ensures rc == NotFound <==> key !in Contents(ps, old(db.dbs)[d], depth0)
    ensures rc == NotFound ==> db.dbs == old(db.dbs)
    ensures rc == NoPage ==> TxnPages.Short(db.txn, 1, scan)
    ensures rc == Incompatible ==> old(db.dbs)[d].Some? && HasSub(old(db.dbs)[d].value, key)
    ensures rc == Incompatible ==>
              Sound(ps, db.dbs[d], depth0) && Contents(ps, db.dbs[d], depth0) == Contents(ps, old(db.dbs)[d], depth0)
    ensures rc == Ok ==> old(db.dbs)[d].Some? && !D.DelStuck(ps, Strip(old(db.dbs)[d].value), key)
    ensures rc == Full ==> old(db.dbs)[d].Some? && D.DelStuck(ps, Strip(old(db.dbs)[d].value), key)
    ensures rc == Ok ==> D.DelDone(ps, Strip(old(db.dbs)[d].value), key, Shape(db.dbs[d]), depth - depth0)
  {
    hide *;
    ghost var was := Now(db);
    NowIs(db);
    OnlySame(was, d);
    depth := depth0;
    if db.dbs[d].None? {
      NothingYet(ps, db.dbs[d], depth0);
      return NotFound, depth;
    }
    SoundTree(ps, db.dbs[d].value, depth0);
    ghost var t0 := db.dbs[d].value;
    var stack, page, at, exact := Locate(ps, Strip(db.dbs[d].value), key, depth0);
    FoundFacts(ps, t0, depth0, stack, page, key, at, exact);
    if !exact {
      MissingKey(ps, t0, depth0, stack, page, key, at);
      return NotFound, depth;
    }
    FoundKey(ps, t0, depth0, stack, page, key, at);
    StandsAt(t0, stack, page);
    HasIf(db, d, Path(stack));
    rc := TouchAll(db, d, Path(stack), scan);
    if rc != Ok {
      return;
    }
    ghost var t, dbs1 := db.dbs[d].value, Now(db);
    NowIs(db);
    SameContents(ps, t0, t, depth0);
    StandsAlike(t0, t, stack, page);
    StandsAt(t, stack, page);
    LeafNode(At(t, Path(stack)), page, at);
    var n := At(db.dbs[d].value, Path(stack)).nodes[at];
    if n.Sub? {
      SubThere(t, Path(stack), at, key);
      SubBefore(t0, t, key);
      return Incompatible, depth;
    }
    GonePlacing(ps, t, depth0, stack, page, key, at);
    D.OldStuck(ps, Strip(t), stack, page, at, key, [], false);
    DelNode(db, d, stack, page.nodes, at);
    OnlyTwice(was, dbs1, Now(db), d);
    dbs1 := Now(db);
    NowIs(db);
    ghost var leaves, branches;
    rc, depth, leaves, branches :=
      Rebalance(ps, db, d, stack, B.Page(true, B.Remove(page.nodes, at)), scan, depth0,
                D.Left(stack, page.nodes, at) + D.Right(stack, page.nodes, at + 1),
                B.PagesAt(Strip(t), true), B.PagesAt(Strip(t), false));
    OnlyTwice(was, dbs1, Now(db), d);
    if rc == Ok {
      D.DelDoneIs(ps, Strip(t), stack, page, at, key, Shape(db.dbs[d]), depth - depth0);
      RemovedContents(ps, t, depth0, stack, page, key, at, db.dbs[d], depth, leaves, branches);
    }
  }

  lemma GonePlacing(ps: B.PageSize, t: Tree, depth: nat, stack: seq<B.Frame>, page: B.Page, key: Key, at: nat)
    requires Found(ps, Strip(t), depth, stack, page, key, at, true)
    ensures page == B.Page(true, page.nodes) && B.Framed(stack) && at < |page.nodes|
    ensures B.Used(B.Remove(page.nodes, at)) <= B.PMax(ps)
    ensures P.Placing(ps, stack, B.Page(true, B.Remove(page.nodes, at)), depth,
                      D.Left(stack, page.nodes, at) + D.Right(stack, page.nodes, at + 1),
                      B.PagesAt(Strip(t), true), B.PagesAt(Strip(t), false))
  {
    hide B.Good, B.StackOk, B.Zip, B.LoOf, B.HiOf, Q.Position, Q.Lookup, Rank, B.Framed, Strip, P.Placing, B.PagesAt,
      D.Left, D.Right, B.Used;
    FoundFacts(ps, t, depth, stack, page, key, at, true);
    D.RemovePlacing(ps, Strip(t), depth, B.PagesAt(Strip(t), true), B.PagesAt(Strip(t), false), stack, page, at);
  }

  // ---------------------------------------------------------------- a whole transaction

  datatype Update = Store(d: nat, key: Key, data: Bytes) | Erase(d: nat, key: Key)

  /** What an update makes of the databases' contents, and what a sequence of them does. */
  function Updated(ms: seq<map<Key, Bytes>>, u: Update): (r: seq<map<Key, Bytes>>)
    requires u.d < |ms|
  {
    match u
    case Store(d, key, data) => ms[d := ms[d][key := data]]
    case Erase(d, key) => ms[d := ms[d] - {key}]
  }

  ghost function After(ms: seq<map<Key, Bytes>>, us: seq<Update>): (r: seq<map<Key, Bytes>>)
    requires forall u | u in us :: u.d < |ms|
    ensures |r| == |ms|
  {
    if us == [] then ms else Updated(After(ms, us[..|us| - 1]), us[|us| - 1])
  }

  ghost predicate AllSound(ps: B.PageSize, dbs: seq<Option<Tree>>, depths: seq<nat>) {
    |depths| == |dbs| && forall d | 0 <= d < |dbs| :: Sound(ps, dbs[d], depths[d])
  }

  ghost function AllContents(ps: B.PageSize, dbs: seq<Option<Tree>>, depths: seq<nat>): seq<map<Key, Bytes>>
    requires AllSound(ps, dbs, depths)
  {
    seq(|dbs|, d requires 0 <= d < |dbs| => Contents(ps, dbs[d], depths[d]))
  }

  /** Where a sequence of updates stopped: the update, and the databases before it. */
  datatype Stop = Stop(i: nat, dbs: seq<Option<Tree>>, depths: seq<nat>, dirty: set<nat>)

  /** A page of the tree cannot be split as the update needs it. */
  ghost predicate UpdateStuck(ps: B.PageSize, t: Option<Tree>, u: Update) {
    && t.Some?
    && match u
       case Store(_, key, data) => exists dirty :: D.PutStuck(ps, Strip(t.value), key, data, dirty)
       case Erase(_, key) => D.DelStuck(ps, Strip(t.value), key)
  }

  ghost predicate UpdateShort(ps: B.PageSize, txn: TxnPages.Txn, u: Update, scan: nat)
    reads txn
  {
    match u
    case Store(_, key, data) => ShortFor(ps, txn, key, data, scan)
    case Erase(_, _) => TxnPages.Short(txn, 1, scan)
  }

  /** The reason for which an update failed, and what was done before it. */
  ghost predicate Stopped(ps: B.PageSize, db: Databases, was: View, ms: seq<map<Key, Bytes>>, us: seq<Update>, scan: nat,
                          rc: Outcome, stop: Stop)
    requires forall u | u in us :: u.d < |ms|
    reads db.txn
  {
    && stop.i < |us| && |stop.dbs| == |ms| && AllSound(ps, stop.dbs, stop.depths)
    && AllContents(ps, stop.dbs, stop.depths) == After(ms, us[..stop.i])
    && Kept(was.dbs, was.dirty, stop.dbs, stop.dirty)
    && var u := us[stop.i];
       && (rc == Full ==> UpdateStuck(ps, stop.dbs[u.d], u))
       && (rc == Incompatible ==> stop.dbs[u.d].Some? && HasSub(stop.dbs[u.d].value, u.key))
       && (rc == NoPage ==> UpdateShort(ps, db.txn, u, scan))
  }

  predicate Allowed(u: Update, n: nat) {
    && u.d < n
    && (u.Store? ==> 1 <= |u.key| <= B.MAXKEY && |u.data| <= B.MAXDATASIZE)
  }

  /** Any sequence of updates of any databases: the contents are those of the same updates of maps, and the
      pages in use are still the pages of the trees, each once. */
  method Transact(ps: B.PageSize, db: Databases, us: seq<Update>, scan: nat, ghost depths0: seq<nat>)
    returns (rc: Outcome, ghost depths: seq<nat>, ghost stop: Stop)
    requires db.Valid() && db.Bounded(scan) && AllSound(ps, db.dbs, depths0)
    requires forall u | u in us :: Allowed(u, |db.dbs|)
    modifies db`dbs, db.txn
    ensures db.Valid() && |db.dbs| == |old(db.dbs)| && rc != NotFound
    ensures Kept(old(db.dbs), old(db.txn.dirty), db.dbs, db.txn.dirty)
    ensures rc != Ok ==> (forall u | u in us :: u.d < |old(db.dbs)|)
                         && Stopped(ps, db, old(Now(db)), AllContents(ps, old(db.dbs), depths0), us, scan, rc, stop)
    ensures (forall u | u in us :: u.d == 0) ==> Only(old(Now(db)), Now(db), 0)
    ensures TxnPages.Consumes(old(TxnPages.BooksOf(db.txn)), TxnPages.BooksOf(db.txn))
    ensures rc == Ok ==>
              && (forall u | u in us :: u.d < |old(db.dbs)|) && AllSound(ps, db.dbs, depths)
              && AllContents(ps, db.dbs, depths) == After(AllContents(ps, old(db.dbs), depths0), us)
  {
    hide *;
    AllAllowed(us, |db.dbs|);
    SoundParts(ps, db.dbs, depths0);
    depths := depths0;
    ghost var first := Now(db);
    NowIs(db);
    KeptSame(db.dbs, db.txn.dirty, db.txn.dirty);
    stop := Stop(0, db.dbs, depths, db.txn.dirty);
    NoUpdates(AllContents(ps, db.dbs, depths), us);
    OnlySame(Now(db), 0);
    NowIs(db);
    ghost var books := TxnPages.BooksOf(db.txn);
    OnlyConsumes(Now(db), Now(db), 0);
    ghost var ms, n := AllContents(ps, db.dbs, depths0), |db.dbs|;
    var i := 0;
    while i < |us|
      invariant 0 <= i <= |us| && db.Valid() && |db.dbs| == n == |ms| && (forall u | u in us :: u.d < n)
      invariant TxnPages.Consumes(books, TxnPages.BooksOf(db.txn))
      invariant Kept(first.dbs, first.dirty, db.dbs, db.txn.dirty)
      invariant (forall u | u in us :: u.d == 0) ==> Only(old(Now(db)), Now(db), 0)
      invariant AllSound(ps, db.dbs, depths) && AllContents(ps, db.dbs, depths) == After(ms, us[..i])
    {
      var u := us[i];
      ghost var was, view, d := db.dbs, Now(db), u.d;
      NowIs(db);
      assert u in us;
      AllowedParts(u, n);
      SoundParts(ps, was, depths);
      ghost var depth;
      stop := Stop(i, was, depths, db.txn.dirty);
      if u.Store? {
        ghost var dirty;
        rc, depth, dirty := PutKey(ps, db, u.d, u.key, u.data, scan, depths[d]);
        PutStopped(ps, db.txn, was[d], u, scan, dirty);
      } else {
        rc, depth := DelKey(ps, db, u.d, u.key, scan, depths[d]);
        DelStopped(ps, db.txn, was[d], u, scan);
        if rc == NotFound {
          NothingErased(Contents(ps, was[d], depths[d]), u.key);
          rc, depth := Ok, depths[d];
        }
      }
      NowIs(db);
      OnlyOthers(view, Now(db), d);
      OnlyConsumes(view, Now(db), d);
      OnlyKept(view, Now(db), d);
      KeptOn(first.dbs, first.dirty, was, view.dirty, db.dbs, db.txn.dirty);
      TxnPages.ConsumesOn(books, view.books, TxnPages.BooksOf(db.txn));
      if forall u | u in us :: u.d == 0 { OnlyTwice(old(Now(db)), view, Now(db), 0); }
      if rc != Ok {
        StoppedIf(ps, db, first, ms, us, scan, rc, stop);
        return;
      }
      OneChanged(ps, was, db.dbs, depths, depth, u);
      AfterNext(ms, us, i);
      depths := depths[d := depth];
      i := i + 1;
    }
    assert us[..|us|] == us;
    rc := Ok;
  }

  lemma AllAllowed(us: seq<Update>, n: nat)
    requires forall u | u in us :: Allowed(u, n)
    ensures forall u | u in us :: u.d < n
  {}

  lemma AllowedParts(u: Update, n: nat)
    requires Allowed(u, n)
    ensures u.d < n && (u.Store? ==> 1 <= |u.key| <= B.MAXKEY && |u.data| <= B.MAXDATASIZE)
  {}

  lemma SoundParts(ps: B.PageSize, dbs: seq<Option<Tree>>, depths: seq<nat>)
    requires AllSound(ps, dbs, depths)
    ensures |depths| == |dbs| == |AllContents(ps, dbs, depths)| && forall d | 0 <= d < |dbs| :: Sound(ps, dbs[d], depths[d])
    ensures forall d | 0 <= d < |dbs| :: AllContents(ps, dbs, depths)[d] == Contents(ps, dbs[d], depths[d])
  {
    hide Sound, Contents;
  }

  lemma NoUpdates(ms: seq<map<Key, Bytes>>, us: seq<Update>)
    requires forall u | u in us :: u.d < |ms|
    ensures After(ms, us[..0]) == ms
  {}

  lemma NothingErased(m: map<Key, Bytes>, key: Key)
    requires key !in m
    ensures m - {key} == m
  {}

  lemma OnlyKept(a: View, b: View, d: nat)
    requires Only(a, b, d)
    ensures Kept(a.dbs, a.dirty, b.dbs, b.dirty)
  {
    hide TxnPages.Consumes, TxnPages.Advances, Kept;
  }

  lemma PutStopped(ps: B.PageSize, txn: TxnPages.Txn, t: Option<Tree>, u: Update, scan: nat, dirty: bool)
    requires u.Store?
    ensures t.Some? && D.PutStuck(ps, Strip(t.value), u.key, u.data, dirty) ==> UpdateStuck(ps, t, u)
    ensures ShortFor(ps, txn, u.key, u.data, scan) ==> UpdateShort(ps, txn, u, scan)
  {
    hide D.PutStuck, Strip, ShortFor;
  }

  lemma DelStopped(ps: B.PageSize, txn: TxnPages.Txn, t: Option<Tree>, u: Update, scan: nat)
    requires u.Erase?
    ensures t.Some? && D.DelStuck(ps, Strip(t.value), u.key) ==> UpdateStuck(ps, t, u)
    ensures TxnPages.Short(txn, 1, scan) ==> UpdateShort(ps, txn, u, scan)
  {
    hide D.DelStuck, Strip, TxnPages.Short;
  }

  lemma StoppedIf(ps: B.PageSize, db: Databases, was: View, ms: seq<map<Key, Bytes>>, us: seq<Update>, scan: nat,
                  rc: Outcome, stop: Stop)
    requires forall u | u in us :: u.d < |ms|
    ensures Stopped(ps, db, was, ms, us, scan, rc, stop)
       <==> && stop.i < |us| && |stop.dbs| == |ms| && AllSound(ps, stop.dbs, stop.depths)
            && AllContents(ps, stop.dbs, stop.depths) == After(ms, us[..stop.i])
            && Kept(was.dbs, was.dirty, stop.dbs, stop.dirty)
            && var u := us[stop.i];
               && (rc == Full ==> UpdateStuck(ps, stop.dbs[u.d], u))
               && (rc == Incompatible ==> stop.dbs[u.d].Some? && HasSub(stop.dbs[u.d].value, u.key))
               && (rc == NoPage ==> UpdateShort(ps, db.txn, u, scan))
  {
    hide Kept, AllSound, AllContents, After, UpdateStuck, HasSub, UpdateShort;
  }

  lemma OnlyConsumes(a: View, b: View, d: nat)
    requires Only(a, b, d)
    ensures TxnPages.Consumes(a.books, b.books)
  {
    hide TxnPages.Consumes, TxnPages.Advances;
  }

  lemma OnlyOthers(a: View, b: View, d: nat)
    requires Only(a, b, d)
    ensures |b.dbs| == |a.dbs| && forall i | 0 <= i < |b.dbs| && i != d :: b.dbs[i] == a.dbs[i]
  {
    hide TxnPages.Consumes, TxnPages.Advances;
  }

  /** One database has changed as the update says, the others are the same. */
  lemma OneChanged(ps: B.PageSize, dbs0: seq<Option<Tree>>, dbs: seq<Option<Tree>>, depths: seq<nat>, depth: nat, u: Update)
    requires AllSound(ps, dbs0, depths) && u.d < |dbs0| == |depths| == |dbs|
    requires forall i | 0 <= i < |dbs| && i != u.d :: dbs[i] == dbs0[i]
    requires Sound(ps, dbs0[u.d], depths[u.d]) && Sound(ps, dbs[u.d], depth)
    requires var m := Contents(ps, dbs0[u.d], depths[u.d]);
             Contents(ps, dbs[u.d], depth) == if u.Store? then m[u.key := u.data] else m - {u.key}
    ensures AllSound(ps, dbs, depths[u.d := depth]) && u.d < |AllContents(ps, dbs0, depths)|
    ensures AllContents(ps, dbs, depths[u.d := depth]) == Updated(AllContents(ps, dbs0, depths), u)
  {
    hide Sound, Contents;
    var d := u.d;
    assert forall e | 0 <= e < |dbs| && e != d :: Sound(ps, dbs[e], depths[d := depth][e]);
    var a, b := AllContents(ps, dbs, depths[d := depth]), Updated(AllContents(ps, dbs0, depths), u);
    forall e | 0 <= e < |a| ensures a[e] == b[e] {}
  }

  lemma AfterNext(ms: seq<map<Key, Bytes>>, us: seq<Update>, i: nat)
    requires i < |us| && forall u | u in us :: u.d < |ms|
    ensures us[i].d < |After(ms, us[..i])| && After(ms, us[..i + 1]) == Updated(After(ms, us[..i]), us[i])
  {
    assert us[..i + 1][..i] == us[..i];
  }
}
