/** What is written when a tree changes: its pages and overflow runs as the file holds them, and which of them
    are the same after a change. */
module PageUnits {
  import opened Options
  import opened Keys
  import opened PageTrees
  import opened TouchPath

  /** An entry of a page, and how many overflow pages it leads to. */
  datatype Shown = Shown(entry: Entry, pages: nat)

  function Shows(ns: seq<Node>): (r: seq<Shown>)
    ensures |r| == |ns| && forall i | 0 <= i < |r| :: r[i] == Shown(EntryOf(ns[i]), if ns[i].Big? then |ns[i].chunks| else 0)
  {
    seq(|ns|, i requires 0 <= i < |ns| => Shown(EntryOf(ns[i]), if ns[i].Big? then |ns[i].chunks| else 0))
  }

  /** A page of a tree as it stands in the file, a run of overflow pages, or the record of a database. */
  datatype Extent =
    | PageUnit(pgno: Pgno, leaf: bool, entries: seq<Shown>)
    | RunUnit(pgno: Pgno, chunks: Run)
    | RecordUnit(key: Key, db: Db, root: Option<Pgno>)

  /** The pages it takes. */
  function PagesOf(u: Extent): set<Pgno> {
    match u
    case PageUnit(p, _, _) => {p}
    case RunUnit(p, chunks) => set q | q in Range(p, |chunks|)
    case RecordUnit(_, _, _) => {}
  }

  ghost predicate In(u: Extent, t: Tree)
    decreases t
  {
    u == PageUnit(t.pgno, t.leaf, Shows(t.nodes)) || InAll(u, t.nodes)
  }

  ghost predicate InAll(u: Extent, ns: seq<Node>)
    decreases ns
  {
    exists i | 0 <= i < |ns| :: InNode(u, ns[i])
  }

  ghost predicate InNode(u: Extent, n: Node)
    decreases n
  {
    match n
    case Plain(_, _) => false
    case Big(_, _, p, chunks) => u == RunUnit(p, chunks)
    case Link(_, t) => In(u, t)
    case Sub(k, db, r) =>
      u == RecordUnit(k, db, if r.Some? then Some(r.value.pgno) else None) || (r.Some? && In(u, r.value))
  }

  lemma InParts(u: Extent, t: Tree)
    ensures In(u, t) <==> u == PageUnit(t.pgno, t.leaf, Shows(t.nodes)) || InAll(u, t.nodes)
  {}

  lemma InAppend(u: Extent, a: seq<Node>, b: seq<Node>)
    ensures InAll(u, a + b) <==> InAll(u, a) || InAll(u, b)
  {
    hide InNode;
    var s := a + b;
    assert forall i | 0 <= i < |a| :: s[i] == a[i];
    assert forall i | 0 <= i < |b| :: s[|a| + i] == b[i];
    if InAll(u, s) {
      var i :| 0 <= i < |s| && InNode(u, s[i]);
      if i < |a| { assert InNode(u, a[i]); } else { assert InNode(u, b[i - |a|]); }
    }
    if InAll(u, a) {
      var i :| 0 <= i < |a| && InNode(u, a[i]);
      assert InNode(u, s[i]);
    }
    if InAll(u, b) {
      var i :| 0 <= i < |b| && InNode(u, b[i]);
      assert InNode(u, s[|a| + i]);
    }
  }

  lemma InOne(u: Extent, n: Node)
    ensures InAll(u, [n]) <==> InNode(u, n)
  {
    hide InNode;
    if InNode(u, n) { assert InNode(u, [n][0]); }
  }

  lemma InLink(u: Extent, key: Key, t: Tree)
    ensures InAll(u, [Link(key, t)]) <==> In(u, t)
  {
    InOne(u, Link(key, t));
  }

  lemma InCut(u: Extent, ns: seq<Node>, i: nat, j: nat)
    requires i <= j <= |ns|
    ensures InAll(u, ns) <==> InAll(u, ns[..i]) || InAll(u, ns[i..j]) || InAll(u, ns[j..])
  {
    assert ns == ns[..i] + ns[i..j] + ns[j..];
    InAppend(u, ns[..i] + ns[i..j], ns[j..]);
    InAppend(u, ns[..i], ns[i..j]);
  }

  lemma InNone(u: Extent)
    ensures !InAll(u, [])
  {}

  // ---------------------------------------------------------------- their numbers

  /** A unit of the tree takes pages of the tree. */
  lemma {:induction false} UnitBag(u: Extent, t: Tree)
    requires In(u, t)
    ensures forall p | p in PagesOf(u) :: p in Bag(t)
    decreases t
  {
    BagIs(t);
    if InAll(u, t.nodes) { UnitBags(u, t.nodes); }
  }

  lemma {:induction false} UnitBags(u: Extent, ns: seq<Node>)
    requires InAll(u, ns)
    ensures forall p | p in PagesOf(u) :: p in Bags(ns)
    decreases ns
  {
    var i :| 0 <= i < |ns| && InNode(u, ns[i]);
    BagsAround(ns, i);
    var n := ns[i];
    match n
    case Plain(_, _) =>
    case Big(_, _, p, chunks) => RunPages(p, chunks);
    case Link(_, t) => UnitBag(u, t);
    case Sub(_, _, r) => if r.Some? && In(u, r.value) { UnitBag(u, r.value); }
  }

  lemma RunPages(p: Pgno, chunks: Run)
    ensures forall q | q in PagesOf(RunUnit(p, chunks)) :: q in multiset(Range(p, |chunks|))
  {}

  lemma OwnNumber(u: Extent)
    requires !u.RecordUnit?
    ensures u.pgno in PagesOf(u)
  {
    if u.RunUnit? { assert Range(u.pgno, |u.chunks|)[0] == u.pgno; }
  }

  // ---------------------------------------------------------------- what a change rewrites

  /** Both are on the same pages. */
  predicate SamePlace(u: Extent, v: Extent) {
    || (u.PageUnit? && v.PageUnit? && u.pgno == v.pgno)
    || (u.RunUnit? && v.RunUnit? && u.pgno == v.pgno && |u.chunks| == |v.chunks|)
  }

  lemma SamePages(u: Extent, v: Extent)
    requires SamePlace(u, v)
    ensures PagesOf(u) == PagesOf(v)
  {}

  /** It is on the n pages from pg on. */
  predicate OnNew(u: Extent, pg: Pgno, n: nat) {
    !u.RecordUnit? && n > 0 && u.pgno == pg && if u.PageUnit? then true else |u.chunks| == n
  }

  /** It takes the place of one of the tree that may be written. */
  ghost predicate InPlace(u: Extent, t: Tree, dirty: set<nat>) {
    !u.RecordUnit? && u.pgno in dirty && exists v :: In(v, t) && SamePlace(u, v)
  }

  /** Every unit of the new tree is one of the old, or in the place of a dirty one, or on new pages. */
  ghost predicate Rewrites(t: Tree, s: Tree, dirty: set<nat>, pg: Pgno, n: nat) {
    forall u | In(u, s) :: In(u, t) || InPlace(u, t, dirty) || OnNew(u, pg, n)
  }

  /** What is rewritten in a child is rewritten in the tree. */
  lemma InPlaceUp(u: Extent, c: Tree, t: Tree, dirty: set<nat>)
    requires InPlace(u, c, dirty) && forall v | In(v, c) :: In(v, t)
    ensures InPlace(u, t, dirty)
  {}

  /** The page itself, with other entries. */
  lemma OwnPlace(t: Tree, leaf: bool, entries: seq<Shown>, dirty: set<nat>)
    requires t.pgno in dirty
    ensures InPlace(PageUnit(t.pgno, leaf, entries), t, dirty)
  {
    var v := PageUnit(t.pgno, t.leaf, Shows(t.nodes));
    assert In(v, t) && SamePlace(PageUnit(t.pgno, leaf, entries), v);
  }

  /** One child exchanged. */
  lemma ChildRewrites(t: Tree, k: nat, c: Tree, dirty: set<nat>, pg: Pgno, n: nat)
    requires k < |t.nodes| && t.nodes[k].Link? && Rewrites(t.nodes[k].page, c, dirty, pg, n)
    requires c.pgno == t.nodes[k].page.pgno || t.pgno in dirty
    ensures Rewrites(t, t.(nodes := t.nodes[k := Link(t.nodes[k].key, c)]), dirty, pg, n)
  {
    var m := t.nodes[k := Link(t.nodes[k].key, c)];
    var s := t.(nodes := m);
    var b := t.nodes[k].page;
    assert m[..k] == t.nodes[..k] && m[k + 1..] == t.nodes[k + 1..];
    assert m[k..k + 1] == [Link(t.nodes[k].key, c)] && t.nodes[k..k + 1] == [Link(t.nodes[k].key, b)];
    SameShows(t.nodes, k, c);
    hide *;
    forall u | In(u, s) ensures In(u, t) || InPlace(u, t, dirty) || OnNew(u, pg, n) {
      InParts(u, s);
      InParts(u, t);
      InCut(u, m, k, k + 1);
      InCut(u, t.nodes, k, k + 1);
      InLink(u, t.nodes[k].key, c);
      InLink(u, t.nodes[k].key, b);
      if t.pgno in dirty { OwnPlace(t, t.leaf, Shows(m), dirty); }
      if In(u, c) {
        RewritesOne(b, c, dirty, pg, n, u);
        forall v | In(v, b) ensures In(v, t) {
          InParts(v, t);
          InCut(v, t.nodes, k, k + 1);
          InLink(v, t.nodes[k].key, b);
        }
        if InPlace(u, b, dirty) { InPlaceUp(u, b, t, dirty); }
      }
    }
    RewritesIf(t, s, dirty, pg, n);
  }

  lemma SameShows(ns: seq<Node>, k: nat, c: Tree)
    requires k < |ns| && ns[k].Link?
    ensures c.pgno == ns[k].page.pgno ==> Shows(ns[k := Link(ns[k].key, c)]) == Shows(ns)
  {}

  lemma RewritesOne(t: Tree, s: Tree, dirty: set<nat>, pg: Pgno, n: nat, u: Extent)
    requires Rewrites(t, s, dirty, pg, n) && In(u, s)
    ensures In(u, t) || InPlace(u, t, dirty) || OnNew(u, pg, n)
  {}

  lemma RewritesIf(t: Tree, s: Tree, dirty: set<nat>, pg: Pgno, n: nat)
    requires forall u | In(u, s) :: In(u, t) || InPlace(u, t, dirty) || OnNew(u, pg, n)
    ensures Rewrites(t, s, dirty, pg, n)
  {}

  // ---------------------------------------------------------------- all databases

  /** A unit of database d. */
  ghost predicate HasUnit(dbs: seq<Option<Tree>>, d: nat, u: Extent) {
    d < |dbs| && dbs[d].Some? && In(u, dbs[d].value)
  }

  /** Copy on write, from the trees a to b: what is in b was in a, but for units on pages that the transaction
      may write; these were not taken from it unless they are gone; and no record of a database is new. */
  ghost predicate Kept(a: seq<Option<Tree>>, was: set<nat>, b: seq<Option<Tree>>, dirty: set<nat>) {
    forall d: nat, u | HasUnit(b, d, u) ::
      && (HasUnit(a, d, u) || (!u.RecordUnit? && u.pgno in dirty))
      && (!u.RecordUnit? && u.pgno in was ==> u.pgno in dirty)
  }

  lemma KeptSame(a: seq<Option<Tree>>, was: set<nat>, dirty: set<nat>)
    requires was <= dirty
    ensures Kept(a, was, a, dirty)
  {
    hide HasUnit;
  }

  lemma KeptOn(a: seq<Option<Tree>>, d0: set<nat>, b: seq<Option<Tree>>, d1: set<nat>, c: seq<Option<Tree>>, d2: set<nat>)
    requires Kept(a, d0, b, d1) && Kept(b, d1, c, d2)
    ensures Kept(a, d0, c, d2)
  {
    hide HasUnit;
  }

  /** No database is recorded in database d. */
  ghost predicate NoRecords(dbs: seq<Option<Tree>>, d: nat) {
    forall key, db: Db, root: Option<Pgno> :: !HasUnit(dbs, d, RecordUnit(key, db, root))
  }

  lemma NoRecordsStill(a: seq<Option<Tree>>, was: set<nat>, b: seq<Option<Tree>>, dirty: set<nat>, d: nat)
    requires Kept(a, was, b, dirty) && NoRecords(a, d)
    ensures NoRecords(b, d)
  {
    hide HasUnit;
  }

  /** The units on pages that may be written take none but these. */
  ghost predicate Owns(dbs: seq<Option<Tree>>, dirty: set<nat>, own: set<Pgno>) {
    forall d: nat, u | HasUnit(dbs, d, u) && !u.RecordUnit? && u.pgno in dirty :: PagesOf(u) <= own
  }

  lemma OwnsMore(dbs: seq<Option<Tree>>, dirty: set<nat>, own: set<Pgno>, more: set<Pgno>)
    requires Owns(dbs, dirty, own) && own <= more
    ensures Owns(dbs, dirty, more)
  {
    hide HasUnit, PagesOf;
  }

  /** Database d changed, in the way of `Rewrites`. */
  ghost predicate Stepped(a: seq<Option<Tree>>, b: seq<Option<Tree>>, d: nat, dirty: set<nat>, pg: Pgno, n: nat) {
    && d < |a| && |b| == |a| && (forall e | 0 <= e < |a| && e != d :: b[e] == a[e])
    && (b[d].Some? ==> forall u | In(u, b[d].value) ::
          || (a[d].Some? && (In(u, a[d].value) || InPlace(u, a[d].value, dirty)))
          || OnNew(u, pg, n))
  }

  lemma SteppedHas(a: seq<Option<Tree>>, b: seq<Option<Tree>>, d: nat, dirty: set<nat>, pg: Pgno, n: nat, e: nat, u: Extent)
    requires Stepped(a, b, d, dirty, pg, n) && HasUnit(b, e, u)
    ensures HasUnit(a, e, u) || OnNew(u, pg, n) || (e == d < |a| && a[d].Some? && InPlace(u, a[d].value, dirty))
  {
    hide In, InPlace, OnNew;
  }

  /** What a step keeps when the new pages may be written, and nothing in a tree ceases to be. */
  lemma SteppedKept(a: seq<Option<Tree>>, b: seq<Option<Tree>>, d: nat, was: set<nat>, dirty: set<nat>, pg: Pgno, n: nat)
    requires Stepped(a, b, d, was, pg, n) && (n > 0 ==> pg in dirty)
    requires forall e: nat, u | HasUnit(b, e, u) && !u.RecordUnit? && u.pgno in was :: u.pgno in dirty
    ensures Kept(a, was, b, dirty)
  {
    hide Stepped, HasUnit;
    forall e: nat, u | HasUnit(b, e, u)
      ensures HasUnit(a, e, u) || (!u.RecordUnit? && u.pgno in dirty)
    {
      SteppedHas(a, b, d, was, pg, n, e, u);
    }
  }

  /** New pages that were not in use, and are the transaction's, make no difference to that. */
  lemma SteppedOwns(a: seq<Option<Tree>>, b: seq<Option<Tree>>, d: nat, was: set<nat>, dirty: set<nat>, pg: Pgno, n: nat,
                    own: set<Pgno>)
    requires Stepped(a, b, d, was, pg, n) && Owns(a, was, own)
    requires dirty <= was + (if n > 0 then {pg} else {})
    requires n > 0 ==> (forall q | q in Range(pg, n) :: q in own) && forall e: nat, u | HasUnit(a, e, u) && !u.RecordUnit? :: u.pgno != pg
    ensures Owns(b, dirty, own)
  {
    hide Stepped, HasUnit;
    forall e: nat, u | HasUnit(b, e, u) && !u.RecordUnit? && u.pgno in dirty ensures PagesOf(u) <= own {
      SteppedHas(a, b, d, was, pg, n, e, u);
      if OnNew(u, pg, n) {
        NewPages(u, pg, n);
      } else if !HasUnit(a, e, u) {
        var v :| In(v, a[d].value) && SamePlace(u, v);
        HasUnitIf(a, d, v);
        SamePages(u, v);
      }
    }
  }

  lemma HasUnitIf(dbs: seq<Option<Tree>>, d: nat, u: Extent)
    ensures HasUnit(dbs, d, u) <==> d < |dbs| && dbs[d].Some? && In(u, dbs[d].value)
  {}

  lemma NewPages(u: Extent, pg: Pgno, n: nat)
    requires OnNew(u, pg, n)
    ensures forall q | q in PagesOf(u) :: q in Range(pg, n)
  {
    if u.PageUnit? { assert Range(pg, n)[0] == pg; }
  }
}
