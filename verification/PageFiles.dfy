/** The file after a transaction: where its trees differ from those it began with, only pages that it may write
    have other contents. */
module PageFiles {
  import opened Options
  import opened PageTrees
  import opened TouchPath
  import opened PageUnits
  import opened TreePages

  // ---------------------------------------------------------------- units in a file

  function EntriesOf(s: seq<Shown>): (r: seq<Entry>)
    ensures |r| == |s| && forall i | 0 <= i < |r| :: r[i] == s[i].entry
  {
    seq(|s|, i requires 0 <= i < |s| => s[i].entry)
  }

  lemma EntriesShown(ns: seq<Node>)
    ensures EntriesOf(Shows(ns)) == Entries(ns)
  {}

  /** The unit is where it belongs. */
  ghost predicate Held(file: seq<Cell>, u: Extent) {
    match u
    case PageUnit(p, leaf, entries) => p < |file| && file[p] == Page(p, leaf, EntriesOf(entries))
    case RunUnit(p, chunks) => RunAt(file, p, chunks)
    case RecordUnit(_, _, _) => true
  }

  /** A file that holds a tree holds its units, and one that holds its units holds it. */
  lemma {:induction false} HeldOf(file: seq<Cell>, t: Tree, u: Extent)
    requires Holds(file, t) && In(u, t)
    ensures Held(file, u)
    decreases t
  {
    EntriesShown(t.nodes);
    if InAll(u, t.nodes) {
      var i :| 0 <= i < |t.nodes| && InNode(u, t.nodes[i]);
      assert HoldsNode(file, t.nodes[i]);
      match t.nodes[i]
      case Plain(_, _) =>
      case Big(_, _, _, _) =>
      case Link(_, c) => HeldOf(file, c, u);
      case Sub(_, _, r) => if r.Some? && In(u, r.value) { HeldOf(file, r.value, u); }
    }
  }

  lemma {:induction false} HoldsOf(file: seq<Cell>, t: Tree)
    requires forall u | In(u, t) :: Held(file, u)
    ensures Holds(file, t)
    decreases t
  {
    EntriesShown(t.nodes);
    var own := PageUnit(t.pgno, t.leaf, Shows(t.nodes));
    assert In(own, t) && Held(file, own);
    forall i | 0 <= i < |t.nodes| ensures HoldsNode(file, t.nodes[i]) {
      var n := t.nodes[i];
      forall u | InNode(u, n) ensures Held(file, u) {
        assert InAll(u, t.nodes) && In(u, t);
      }
      NodeHolds(file, n);
    }
  }

  lemma {:induction false} NodeHolds(file: seq<Cell>, n: Node)
    requires forall u | InNode(u, n) :: Held(file, u)
    ensures HoldsNode(file, n)
    decreases n
  {
    match n
    case Plain(_, _) =>
    case Big(_, _, p, chunks) => assert InNode(RunUnit(p, chunks), n);
    case Link(_, t) =>
      forall u | In(u, t) ensures Held(file, u) { assert InNode(u, n); }
      HoldsOf(file, t);
    case Sub(_, _, r) =>
      if r.Some? {
        forall u | In(u, r.value) ensures Held(file, u) { assert InNode(u, n); }
        HoldsOf(file, r.value);
      }
  }

  // ---------------------------------------------------------------- no page is in two units

  /** In a tree that uses each page once, the units do not overlap. */
  lemma {:induction false} Apart(t: Tree, u: Extent, v: Extent, q: Pgno)
    requires In(u, t) && In(v, t) && q in PagesOf(u) && q in PagesOf(v) && Bag(t)[q] <= 1
    ensures u == v
    decreases t
  {
    BagIs(t);
    var own := PageUnit(t.pgno, t.leaf, Shows(t.nodes));
    if InAll(u, t.nodes) { UnitBags(u, t.nodes); }
    if InAll(v, t.nodes) { UnitBags(v, t.nodes); }
    if InAll(u, t.nodes) && InAll(v, t.nodes) {
      assert Bags(t.nodes)[q] <= 1;
      ApartAll(t.nodes, u, v, q);
    }
  }

  lemma NodeBag(ns: seq<Node>, i: nat, u: Extent)
    requires i < |ns| && InNode(u, ns[i])
    ensures forall p | p in PagesOf(u) :: p in multiset(UsedByNode(ns[i], true))
  {
    InOne(u, ns[i]);
    UnitBags(u, [ns[i]]);
    BagsOne(ns[i]);
  }

  lemma {:induction false} ApartAll(ns: seq<Node>, u: Extent, v: Extent, q: Pgno)
    requires InAll(u, ns) && InAll(v, ns) && q in PagesOf(u) && q in PagesOf(v) && Bags(ns)[q] <= 1
    ensures u == v
    decreases ns
  {
    var i :| 0 <= i < |ns| && InNode(u, ns[i]);
    var j :| 0 <= j < |ns| && InNode(v, ns[j]);
    NodeBag(ns, i, u);
    NodeBag(ns, j, v);
    BagsAround(ns, i);
    if i != j { BesideBag(ns, i, j, q); }
    match ns[i]
    case Plain(_, _) =>
    case Big(_, _, _, _) =>
    case Link(_, c) => Apart(c, u, v, q);
    case Sub(_, _, r) => Apart(r.value, u, v, q);
  }

  /** A page of node j is one of the nodes around node i. */
  lemma BesideBag(ns: seq<Node>, i: nat, j: nat, q: Pgno)
    requires i < |ns| && j < |ns| && i != j && q in multiset(UsedByNode(ns[j], true))
    ensures q in Bags(ns[..i]) + Bags(ns[i + 1..])
  {
    if j < i { BagsAround(ns[..i], j); } else { BagsAround(ns[i + 1..], j - i - 1); }
  }

  /** Every page of a tree is one of a unit. */
  lemma {:induction false} UnitOf(t: Tree, q: Pgno) returns (u: Extent)
    requires q in Bag(t)
    ensures In(u, t) && !u.RecordUnit? && q in PagesOf(u)
    decreases t
  {
    BagIs(t);
    if q == t.pgno {
      u := PageUnit(t.pgno, t.leaf, Shows(t.nodes));
    } else {
      u := UnitOfAll(t.nodes, q);
    }
  }

  lemma {:induction false} UnitOfAll(ns: seq<Node>, q: Pgno) returns (u: Extent)
    requires q in Bags(ns)
    ensures InAll(u, ns) && !u.RecordUnit? && q in PagesOf(u)
    decreases ns
  {
    var k := |ns| - 1;
    BagsAround(ns, k);
    if q in Bags(ns[..k]) {
      u := UnitOfAll(ns[..k], q);
      var i :| 0 <= i < k && InNode(u, ns[..k][i]);
      assert InNode(u, ns[i]);
    } else {
      var n := ns[k];
      assert ns[k + 1..] == [];
      assert q in multiset(UsedByNode(n, true));
      match n
      case Big(_, _, p, chunks) => u := RunUnit(p, chunks);
      case Link(_, c) => u := UnitOf(c, q);
      case Sub(_, _, r) => u := UnitOf(r.value, q);
      assert InNode(u, n);
    }
  }

  lemma DbsApart(dbs: seq<Option<Tree>>, d: nat, u: Extent, e: nat, v: Extent, q: Pgno)
    requires HasUnit(dbs, d, u) && HasUnit(dbs, e, v) && q in PagesOf(u) && q in PagesOf(v) && BagOf(dbs)[q] <= 1
    ensures u == v
  {
    hide In, Bag, BagOf, PagesOf;
    UnitBag(u, dbs[d].value);
    UnitBag(v, dbs[e].value);
    Gone(dbs, d);
    if d == e {
      Apart(dbs[d].value, u, v, q);
    } else {
      assert HasUnit(dbs[d := None], e, v);
      HasBag(dbs[d := None], e, v);
    }
  }

  lemma {:induction false} DbsUnit(dbs: seq<Option<Tree>>, q: Pgno) returns (d: nat, u: Extent)
    requires q in BagOf(dbs)
    ensures HasUnit(dbs, d, u) && !u.RecordUnit? && q in PagesOf(u)
    decreases |dbs|
  {
    hide Bag, In, PagesOf;
    if dbs[0].Some? && q in Bag(dbs[0].value) {
      u := UnitOf(dbs[0].value, q);
      d := 0;
    } else {
      d, u := DbsUnit(dbs[1..], q);
      d := d + 1;
    }
  }

  // ---------------------------------------------------------------- the file after the transaction

  /** What the page of the unit holds. */
  function CellOf(u: Extent, q: Pgno): Cell
    requires q in PagesOf(u)
  {
    match u
    case PageUnit(p, leaf, entries) => Page(p, leaf, EntriesOf(entries))
    case RunUnit(p, chunks) => if q == p then Overflow(p, |chunks|, chunks[0]) else Rest(chunks[q - p])
  }

  lemma HeldCell(file: seq<Cell>, u: Extent, q: Pgno)
    requires Held(file, u) && q in PagesOf(u)
    ensures q < |file| && file[q] == CellOf(u, q)
  {
    if u.RunUnit? && q != u.pgno {
      assert q in Range(u.pgno, |u.chunks|);
      assert file[u.pgno + (q - u.pgno)] == Rest(u.chunks[q - u.pgno]);
    }
  }

  lemma RunPage(u: Extent, k: nat)
    requires u.RunUnit? && k < |u.chunks|
    ensures u.pgno + k in PagesOf(u)
  {
    assert Range(u.pgno, |u.chunks|)[k] == u.pgno + k;
  }

  lemma HeldIf(file: seq<Cell>, u: Extent)
    requires !u.RecordUnit? && forall q | q in PagesOf(u) :: q < |file| && file[q] == CellOf(u, q)
    ensures Held(file, u)
  {
    OwnNumber(u);
    if u.RunUnit? {
      forall k | 0 <= k < |u.chunks|
        ensures u.pgno + k < |file| && (k > 0 ==> file[u.pgno + k] == Rest(u.chunks[k]))
      {
        RunPage(u, k);
      }
      RunPage(u, |u.chunks| - 1);
    }
  }

  /** The unit may be written, and has the page. */
  ghost predicate Covers(dbs: seq<Option<Tree>>, dirty: set<nat>, d: nat, u: Extent, q: Pgno) {
    HasUnit(dbs, d, u) && !u.RecordUnit? && u.pgno in dirty && q in PagesOf(u)
  }

  /** The page is one that the transaction writes. */
  ghost predicate Written(dbs: seq<Option<Tree>>, dirty: set<nat>, q: Pgno) {
    exists d: nat, u :: Covers(dbs, dirty, d, u, q)
  }

  ghost function NewCell(dbs: seq<Option<Tree>>, dirty: set<nat>, q: Pgno): Cell
    requires Written(dbs, dirty, q)
  {
    var d: nat, u :| Covers(dbs, dirty, d, u, q);
    CellOf(u, q)
  }

  /** The file with those pages as the trees have them. */
  ghost function FileOf(f: seq<Cell>, dbs: seq<Option<Tree>>, dirty: set<nat>): (g: seq<Cell>)
    ensures |g| == |f| && forall q | 0 <= q < |f| && !Written(dbs, dirty, q) :: g[q] == f[q]
  {
    seq(|f|, q requires 0 <= q < |f| => if Written(dbs, dirty, q) then NewCell(dbs, dirty, q) else f[q])
  }

  ghost predicate AllHeld(f: seq<Cell>, dbs: seq<Option<Tree>>) {
    forall d | 0 <= d < |dbs| && dbs[d].Some? :: Holds(f, dbs[d].value)
  }

  lemma AllHeldUnit(f: seq<Cell>, dbs: seq<Option<Tree>>, d: nat, u: Extent)
    requires AllHeld(f, dbs) && HasUnit(dbs, d, u)
    ensures Held(f, u)
  {
    hide Holds, In, Held;
    HeldOf(f, dbs[d].value, u);
  }

  /** On a page that is written the unit decides that has it. */
  lemma NewCellIs(dbs: seq<Option<Tree>>, dirty: set<nat>, d: nat, u: Extent, q: Pgno)
    requires HasUnit(dbs, d, u) && !u.RecordUnit? && q in PagesOf(u) && BagOf(dbs)[q] <= 1
    ensures Written(dbs, dirty, q) <==> u.pgno in dirty
    ensures Written(dbs, dirty, q) ==> NewCell(dbs, dirty, q) == CellOf(u, q)
  {
    hide HasUnit, PagesOf, CellOf, BagOf;
    if Written(dbs, dirty, q) {
      var e: nat, v :| Covers(dbs, dirty, e, v, q) && NewCell(dbs, dirty, q) == CellOf(v, q);
      DbsApart(dbs, d, u, e, v, q);
    }
    if u.pgno in dirty { assert Covers(dbs, dirty, d, u, q); }
  }

  /** Copy on write, as the file shows it: when the file held the trees of the transaction's beginning, it holds its
      trees after only pages were written that the transaction may write. */
  lemma FileHolds(a: seq<Option<Tree>>, was: set<nat>, b: seq<Option<Tree>>, dirty: set<nat>, f: seq<Cell>)
    requires Kept(a, was, b, dirty) && AllHeld(f, a) && forall p: Pgno :: BagOf(b)[p] <= 1
    requires forall p | p in BagOf(b) :: p < |f|
    ensures AllHeld(FileOf(f, b, dirty), b)
  {
    hide *;
    var g := FileOf(f, b, dirty);
    forall d: nat, u | HasUnit(b, d, u) ensures Held(g, u) { UnitHolds(a, was, b, dirty, f, d, u); }
    HeldAll(g, b);
  }

  lemma HeldAll(g: seq<Cell>, b: seq<Option<Tree>>)
    requires forall d: nat, u | HasUnit(b, d, u) :: Held(g, u)
    ensures AllHeld(g, b)
  {
    hide Holds, In, Held;
    forall d | 0 <= d < |b| && b[d].Some? ensures Holds(g, b[d].value) {
      forall u | In(u, b[d].value) ensures Held(g, u) { assert HasUnit(b, d, u); }
      HoldsOf(g, b[d].value);
    }
  }

  lemma UnitHolds(a: seq<Option<Tree>>, was: set<nat>, b: seq<Option<Tree>>, dirty: set<nat>, f: seq<Cell>, d: nat, u: Extent)
    requires Kept(a, was, b, dirty) && AllHeld(f, a) && forall p: Pgno :: BagOf(b)[p] <= 1
    requires forall p | p in BagOf(b) :: p < |f|
    requires HasUnit(b, d, u)
    ensures Held(FileOf(f, b, dirty), u)
  {
    hide *;
    var g := FileOf(f, b, dirty);
    if u.RecordUnit? {
      RecordHeld(g, u);
    } else {
      HasBag(b, d, u);
      forall q | q in PagesOf(u) ensures q < |g| && g[q] == CellOf(u, q) {
        NewCellIs(b, dirty, d, u, q);
        FileAt(f, b, dirty, q);
        if u.pgno !in dirty {
          KeptUnit(a, was, b, dirty, d, u);
          AllHeldUnit(f, a, d, u);
          HeldCell(f, u, q);
        }
      }
      HeldIf(g, u);
    }
  }

  lemma RecordHeld(g: seq<Cell>, u: Extent)
    requires u.RecordUnit?
    ensures Held(g, u)
  {}

  lemma FileAt(f: seq<Cell>, dbs: seq<Option<Tree>>, dirty: set<nat>, q: Pgno)
    requires q < |f|
    ensures FileOf(f, dbs, dirty)[q] == if Written(dbs, dirty, q) then NewCell(dbs, dirty, q) else f[q]
  {
    hide Written, NewCell;
  }

  lemma KeptUnit(a: seq<Option<Tree>>, was: set<nat>, b: seq<Option<Tree>>, dirty: set<nat>, d: nat, u: Extent)
    requires Kept(a, was, b, dirty) && HasUnit(b, d, u)
    ensures HasUnit(a, d, u) || (!u.RecordUnit? && u.pgno in dirty)
  {
    hide HasUnit;
  }

  /** What is written is pages of the transaction. */
  lemma WrittenOwn(dbs: seq<Option<Tree>>, dirty: set<nat>, own: set<Pgno>, q: Pgno)
    requires Owns(dbs, dirty, own) && Written(dbs, dirty, q)
    ensures q in own
  {
    hide HasUnit, PagesOf;
    var d: nat, u :| Covers(dbs, dirty, d, u, q);
    OwnedPages(dbs, dirty, own, d, u);
  }

  /** A tree without pages of the transaction, as one of an older snapshot, stays in the file. */
  lemma OldKept(f: seq<Cell>, dbs: seq<Option<Tree>>, dirty: set<nat>, own: set<Pgno>, s: Tree)
    requires Owns(dbs, dirty, own) && Holds(f, s) && forall p | p in Bag(s) :: p !in own
    ensures Holds(FileOf(f, dbs, dirty), s)
  {
    hide *;
    var written := set q | 0 <= q < |f| && Written(dbs, dirty, q);
    forall p | p in Bag(s) ensures p !in written {
      if p in written { WrittenOwn(dbs, dirty, own, p); }
    }
    FileLength(f, dbs, dirty);
    SnapshotKept(f, FileOf(f, dbs, dirty), s, written);
  }

  lemma FileLength(f: seq<Cell>, dbs: seq<Option<Tree>>, dirty: set<nat>)
    ensures |FileOf(f, dbs, dirty)| == |f|
    ensures forall q | 0 <= q < |f| && !Written(dbs, dirty, q) :: FileOf(f, dbs, dirty)[q] == f[q]
  {
    hide Written;
  }
}
