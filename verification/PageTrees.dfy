/** Databases as they lie in a file of pages: what is in the pages, and which pages they are. */
module PageTrees {
  import opened Options
  import opened Keys

  type Pgno = nat

  type Bytes = seq<Byte>

  /** The contents of the pages of an overflow run. */
  type Run = r: seq<Bytes> | r != [] witness [[]]

  /** An MDB_db without its root. */
  datatype Db = Db(flags: nat, depth: nat, overflow: nat, entries: nat)

  /** A node as a page stores it: a value, the number of the first overflow page of a value, the number
      of a child page, or the record of another database. */
  datatype Entry =
    | Value(key: Key, data: Bytes)
    | BigData(key: Key, size: nat, pgno: Pgno)
    | Child(key: Key, pgno: Pgno)
    | SubDb(key: Key, db: Db, root: Option<Pgno>)

  /** A page of the file. Overflow pages after the first of a run have no header. */
  datatype Cell =
    | Meta
    | Page(pgno: Pgno, leaf: bool, entries: seq<Entry>)
    | Overflow(pgno: Pgno, pages: nat, bytes: Bytes)
    | Rest(bytes: Bytes)

  /** A database with all that belongs to it, as one value. */
  datatype Tree = Tree(pgno: Pgno, leaf: bool, nodes: seq<Node>)

  datatype Node =
    | Plain(key: Key, data: Bytes)
    | Big(key: Key, size: nat, pgno: Pgno, chunks: Run)
    | Link(key: Key, page: Tree)
    | Sub(key: Key, db: Db, root: Option<Tree>)

  function EntryOf(n: Node): Entry {
    match n
    case Plain(k, d) => Value(k, d)
    case Big(k, s, p, _) => BigData(k, s, p)
    case Link(k, t) => Child(k, t.pgno)
    case Sub(k, db, r) => SubDb(k, db, if r.Some? then Some(r.value.pgno) else None)
  }

  function Entries(ns: seq<Node>): (r: seq<Entry>)
    ensures |r| == |ns| && forall i | 0 <= i < |r| :: r[i] == EntryOf(ns[i])
  {
    seq(|ns|, i requires 0 <= i < |ns| => EntryOf(ns[i]))
  }

  // ---------------------------------------------------------------- the tree in the file

  ghost predicate Holds(file: seq<Cell>, t: Tree)
    decreases t
  {
    t.pgno < |file| && file[t.pgno] == Page(t.pgno, t.leaf, Entries(t.nodes)) && HoldsAll(file, t.nodes)
  }

  ghost predicate HoldsAll(file: seq<Cell>, ns: seq<Node>)
    decreases ns
  {
    forall i | 0 <= i < |ns| :: HoldsNode(file, ns[i])
  }

  ghost predicate HoldsNode(file: seq<Cell>, n: Node)
    decreases n
  {
    match n
    case Plain(_, _) => true
    case Big(_, _, p, chunks) => RunAt(file, p, chunks)
    case Link(_, t) => Holds(file, t)
    case Sub(_, _, r) => r.Some? ==> Holds(file, r.value)
  }

  /** A run of overflow pages: the header of the first one tells how many there are. */
  ghost predicate RunAt(file: seq<Cell>, p: Pgno, chunks: seq<Bytes>) {
    && |chunks| > 0 && p + |chunks| <= |file|
    && file[p] == Overflow(p, |chunks|, chunks[0])
    && forall k | 1 <= k < |chunks| :: file[p + k] == Rest(chunks[k])
  }

  /** All leaves at the same depth, which md_depth tells; every branch page has a child. */
  ghost predicate Even(t: Tree, h: nat)
    decreases t
  {
    h > 0 && t.leaf == (h == 1) && (t.leaf || t.nodes != []) && EvenAll(t.nodes, h)
  }

  ghost predicate EvenAll(ns: seq<Node>, h: nat)
    decreases ns
  {
    forall i | 0 <= i < |ns| :: EvenNode(ns[i], h)
  }

  ghost predicate EvenNode(n: Node, h: nat)
    decreases n
  {
    match n
    case Plain(_, _) => h == 1
    case Big(_, _, _, _) => h == 1
    case Link(_, t) => h > 1 && Even(t, h - 1)
    case Sub(_, db, r) => h == 1 && if r.Some? then Even(r.value, db.depth) else db.depth == 0
  }

  // ---------------------------------------------------------------- its pages

  /** How many pages a tree takes. */
  ghost function Pages(t: Tree): (n: nat)
    decreases t
  {
    Size(t.nodes) + 1
  }

  ghost function Size(ns: seq<Node>): nat
    decreases ns
  {
    if ns == [] then 0 else Size(ns[..|ns| - 1]) + NodeSize(ns[|ns| - 1])
  }

  ghost function NodeSize(n: Node): nat
    decreases n
  {
    match n
    case Plain(_, _) => 0
    case Big(_, _, _, chunks) => |chunks|
    case Link(_, t) => Pages(t)
    case Sub(_, _, r) => if r.Some? then Pages(r.value) else 0
  }

  function Range(p: Pgno, n: nat): (r: seq<Pgno>)
    ensures |r| == n && forall i | 0 <= i < n :: r[i] == p + i
  {
    seq(n, i => p + i)
  }

  /** The page numbers, children before their parent; those of other databases only if `subs`. */
  ghost function Used(t: Tree, subs: bool): seq<Pgno>
    decreases t
  {
    UsedBy(t.nodes, subs) + [t.pgno]
  }

  ghost function UsedBy(ns: seq<Node>, subs: bool): seq<Pgno>
    decreases ns
  {
    if ns == [] then [] else UsedBy(ns[..|ns| - 1], subs) + UsedByNode(ns[|ns| - 1], subs)
  }

  ghost function UsedByNode(n: Node, subs: bool): seq<Pgno>
    decreases n
  {
    match n
    case Plain(_, _) => []
    case Big(_, _, p, chunks) => Range(p, |chunks|)
    case Link(_, t) => Used(t, subs)
    case Sub(_, _, r) => if subs && r.Some? then Used(r.value, subs) else []
  }

  lemma {:induction false} UsedLength(t: Tree)
    ensures |Used(t, true)| == Pages(t)
    decreases t
  {
    UsedByLength(t.nodes);
  }

  lemma {:induction false} UsedByLength(ns: seq<Node>)
    ensures |UsedBy(ns, true)| == Size(ns)
    decreases ns
  {
    if ns != [] {
      UsedByLength(ns[..|ns| - 1]);
      var n := ns[|ns| - 1];
      match n
      case Plain(_, _) =>
      case Big(_, _, _, _) =>
      case Link(_, t) => UsedLength(t);
      case Sub(_, _, r) => if r.Some? { UsedLength(r.value); }
    }
  }

  lemma SizeStep(ns: seq<Node>, k: nat)
    requires k < |ns|
    ensures Size(ns[..k + 1]) == Size(ns[..k]) + NodeSize(ns[k])
  {
    assert ns[..k + 1][..k] == ns[..k];
  }

  lemma {:induction false} SizeTake(ns: seq<Node>, k: nat)
    requires k <= |ns|
    ensures Size(ns[..k]) <= Size(ns)
    decreases |ns| - k
  {
    if k == |ns| {
      assert ns[..k] == ns;
    } else {
      SizeStep(ns, k);
      SizeTake(ns, k + 1);
    }
  }

  /** The same keys and values in the same shape; page numbers may differ. */
  ghost predicate Same(a: Tree, b: Tree)
    decreases a
  {
    a.leaf == b.leaf && SameAll(a.nodes, b.nodes)
  }

  ghost predicate SameAll(a: seq<Node>, b: seq<Node>)
    decreases a
  {
    |a| == |b| && forall i | 0 <= i < |a| :: SameNode(a[i], b[i])
  }

  ghost predicate SameNode(a: Node, b: Node)
    decreases a
  {
    a.key == b.key &&
    match a
    case Plain(_, d) => b.Plain? && b.data == d
    case Big(_, s, _, c) => b.Big? && b.size == s && b.chunks == c
    case Link(_, t) => b.Link? && Same(t, b.page)
    case Sub(_, db, r) => b.Sub? && b.db == db && b.root.Some? == r.Some? && (r.Some? ==> Same(r.value, b.root.value))
  }
}
