/** The trees of a write transaction, as the pages in memory that a commit publishes: what the protocol
    asks of a commit follows from the accounting of the pages and from saving the freeDB. */
module CommitPages {
  import opened Options
  import opened PageTrees
  import opened TouchPath
  import opened PageUnits
  import opened TreePages
  import opened PageFiles
  import opened MvccReach
  import M = Mvcc
  import Moves = PageMoves
  import MvccPages
  import TxnPages
  import FreelistSave
  import WrittenRecords
  import opened Keys
  import IdSort
  import B = BTree
  import NumberedPlace
  import NumberedDb
  import IdLists

  // ---------------------------------------------------------------- trees as the protocol sees them

  /** Pages without links. */
  function Singles(ps: seq<Pgno>): seq<M.PageTree> {
    if ps == [] then [] else [M.PageTree(ps[0], [])] + Singles(ps[1..])
  }

  /** A page with all that is reached through it. */
  function ShapeOf(t: Tree): M.PageTree
    decreases t
  {
    M.PageTree(t.pgno, KidsOf(t.nodes))
  }

  function KidsOf(ns: seq<Node>): seq<M.PageTree>
    decreases ns
  {
    if ns == [] then [] else KidsOf(ns[..|ns| - 1]) + KidOf(ns[|ns| - 1])
  }

  function KidOf(n: Node): seq<M.PageTree>
    decreases n
  {
    match n
    case Plain(_, _) => []
    case Big(_, _, p, chunks) => Singles(Range(p, |chunks|))
    case Link(_, t) => [ShapeOf(t)]
    case Sub(_, _, r) => if r.Some? then [ShapeOf(r.value)] else []
  }

  function ShapesOf(dbs: seq<Option<Tree>>): seq<M.PageTree> {
    if dbs == [] then [] else (if dbs[0].Some? then [ShapeOf(dbs[0].value)] else []) + ShapesOf(dbs[1..])
  }

  /** The root pages of the databases that have one. */
  function RootsOf(dbs: seq<Option<Tree>>): seq<Pgno> {
    if dbs == [] then [] else (if dbs[0].Some? then [dbs[0].value.pgno] else []) + RootsOf(dbs[1..])
  }

  // ---------------------------------------------------------------- the same pages

  lemma ReachedOne(t: M.PageTree)
    ensures M.Reached([t]) == multiset{t.pgno} + M.Reached(t.kids)
  {
    assert [t][1..] == [];
  }

  lemma {:induction false} ReachedSingles(ps: seq<Pgno>)
    ensures M.Reached(Singles(ps)) == multiset(ps)
    decreases |ps|
  {
    if ps != [] {
      ReachedSingles(ps[1..]);
      ReachedAppend([M.PageTree(ps[0], [])], Singles(ps[1..]));
      ReachedOne(M.PageTree(ps[0], []));
      assert ps == [ps[0]] + ps[1..];
    }
  }

  lemma {:induction false} ReachedShape(t: Tree)
    ensures M.Reached([ShapeOf(t)]) == Bag(t)
    decreases t
  {
    ReachedKids(t.nodes);
    ReachedOne(ShapeOf(t));
    BagIs(t);
  }

  lemma {:induction false} ReachedKids(ns: seq<Node>)
    ensures M.Reached(KidsOf(ns)) == Bags(ns)
    decreases ns
  {
    if ns != [] {
      var rest, n := ns[..|ns| - 1], ns[|ns| - 1];
      ReachedKids(rest);
      ReachedKid(n);
      ReachedAppend(KidsOf(rest), KidOf(n));
    }
  }

  lemma {:induction false} ReachedKid(n: Node)
    ensures M.Reached(KidOf(n)) == multiset(UsedByNode(n, true))
    decreases n
  {
    match n
    case Plain(_, _) =>
    case Big(_, _, p, chunks) => ReachedSingles(Range(p, |chunks|));
    case Link(_, t) => ReachedShape(t);
    case Sub(_, _, r) => if r.Some? { ReachedShape(r.value); }
  }

  lemma {:induction false} ReachedShapes(dbs: seq<Option<Tree>>)
    ensures M.Reached(ShapesOf(dbs)) == BagOf(dbs)
    ensures M.Tops(ShapesOf(dbs)) == RootsOf(dbs)
    decreases |dbs|
  {
    if dbs == [] {
      assert M.Tops([]) == [];
    } else {
      ReachedShapes(dbs[1..]);
      var first := if dbs[0].Some? then [ShapeOf(dbs[0].value)] else [];
      if dbs[0].Some? { ReachedShape(dbs[0].value); }
      ReachedAppend(first, ShapesOf(dbs[1..]));
      TopsAppend(first, ShapesOf(dbs[1..]));
    }
  }

  // ---------------------------------------------------------------- the links in the pages

  /** The pages an entry of a page refers to; of an overflow run, the header of its first page tells
      how many there are. */
  function EntryLinks(file: seq<Cell>, e: Entry): seq<Pgno> {
    match e
    case Value(_, _) => []
    case BigData(_, _, p) => if p < |file| && file[p].Overflow? then Range(p, file[p].pages) else []
    case Child(_, p) => [p]
    case SubDb(_, _, r) => if r.Some? then [r.value] else []
  }

  function AllLinks(file: seq<Cell>, es: seq<Entry>): seq<Pgno> {
    if es == [] then [] else AllLinks(file, es[..|es| - 1]) + EntryLinks(file, es[|es| - 1])
  }

  function CellLinks(file: seq<Cell>, p: Pgno): seq<Pgno>
    requires p < |file|
  {
    if file[p].Page? then AllLinks(file, file[p].entries) else []
  }

  /** These pages, as the protocol sees them, have the links the file has. */
  ghost predicate Pictures(file: seq<Cell>, image: map<Pgno, M.Page>, pages: multiset<Pgno>) {
    forall p | p in pages :: p < |file| && p in image && image[p].links == CellLinks(file, p)
  }

  lemma PicturesPart(file: seq<Cell>, image: map<Pgno, M.Page>, pages: multiset<Pgno>, part: multiset<Pgno>)
    requires Pictures(file, image, pages) && part <= pages
    ensures Pictures(file, image, part)
  {}

  lemma {:induction false} SinglesLinked(image: map<Pgno, M.Page>, ps: seq<Pgno>)
    requires forall p | p in ps :: p in image && image[p].links == []
    ensures M.Linked(image, Singles(ps)) && M.Tops(Singles(ps)) == ps
    decreases |ps|
  {
    if ps == [] {
      assert M.Tops([]) == [];
    } else {
      SinglesLinked(image, ps[1..]);
      var one := [M.PageTree(ps[0], [])];
      assert ps[0] in ps;
      LinkedOne(image, ps[0]);
      LinkedAppend(image, one, Singles(ps[1..]));
      TopsAppend(one, Singles(ps[1..]));
      assert M.Tops(one) == [ps[0]];
    }
  }

  lemma {:induction false} ShapeLinked(file: seq<Cell>, image: map<Pgno, M.Page>, t: Tree)
    requires Holds(file, t) && Pictures(file, image, Bag(t))
    ensures M.Linked(image, [ShapeOf(t)])
    decreases t
  {
    BagIs(t);
    PicturesPart(file, image, Bag(t), Bags(t.nodes));
    KidsLinked(file, image, t.nodes);
    assert t.pgno in Bag(t);
    assert [ShapeOf(t)][1..] == [];
  }

  lemma {:induction false} KidsLinked(file: seq<Cell>, image: map<Pgno, M.Page>, ns: seq<Node>)
    requires HoldsAll(file, ns) && Pictures(file, image, Bags(ns))
    ensures M.Linked(image, KidsOf(ns)) && M.Tops(KidsOf(ns)) == AllLinks(file, Entries(ns))
    decreases ns
  {
    if ns == [] {
      assert M.Tops([]) == [];
    } else {
      var k := |ns| - 1;
      BagsAround(ns, k);
      PicturesPart(file, image, Bags(ns), Bags(ns[..k]));
      PicturesPart(file, image, Bags(ns), multiset(UsedByNode(ns[k], true)));
      KidsLinked(file, image, ns[..k]);
      KidLinked(file, image, ns[k]);
      LinkedAppend(image, KidsOf(ns[..k]), KidOf(ns[k]));
      TopsAppend(KidsOf(ns[..k]), KidOf(ns[k]));
      assert Entries(ns)[..k] == Entries(ns[..k]);
    }
  }

  lemma {:induction false} KidLinked(file: seq<Cell>, image: map<Pgno, M.Page>, n: Node)
    requires HoldsNode(file, n) && Pictures(file, image, multiset(UsedByNode(n, true)))
    ensures M.Linked(image, KidOf(n)) && M.Tops(KidOf(n)) == EntryLinks(file, EntryOf(n))
    decreases n
  {
    KidParts(file, n);
    hide *;
    match n
    case Plain(_, _) => NoneLinked(image);
    case Big(_, _, p, chunks) => RunLinked(file, image, p, chunks);
    case Link(_, t) =>
      ShapeLinked(file, image, t);
      TopShape(t);
    case Sub(_, _, r) =>
      if r.Some? {
        ShapeLinked(file, image, r.value);
        TopShape(r.value);
      } else {
        NoneLinked(image);
      }
  }

  lemma NoneLinked(image: map<Pgno, M.Page>)
    ensures M.Linked(image, []) && M.Tops([]) == []
  {}

  lemma TopShape(t: Tree)
    ensures M.Tops([ShapeOf(t)]) == [t.pgno]
  {}

  /** What is below a node, which pages it takes, and what the page says of it. */
  lemma KidParts(file: seq<Cell>, n: Node)
    requires HoldsNode(file, n)
    ensures n.Plain? ==> KidOf(n) == [] && EntryLinks(file, EntryOf(n)) == []
    ensures n.Link? ==> Holds(file, n.page) && KidOf(n) == [ShapeOf(n.page)] && EntryLinks(file, EntryOf(n)) == [n.page.pgno]
                        && multiset(UsedByNode(n, true)) == Bag(n.page)
    ensures n.Sub? && n.root.None? ==> KidOf(n) == [] && EntryLinks(file, EntryOf(n)) == []
    ensures n.Sub? && n.root.Some? ==>
              && Holds(file, n.root.value) && KidOf(n) == [ShapeOf(n.root.value)]
              && EntryLinks(file, EntryOf(n)) == [n.root.value.pgno] && multiset(UsedByNode(n, true)) == Bag(n.root.value)
    ensures n.Big? ==>
              && RunAt(file, n.pgno, n.chunks) && KidOf(n) == Singles(Range(n.pgno, |n.chunks|))
              && EntryLinks(file, EntryOf(n)) == Range(n.pgno, |n.chunks|)
              && multiset(UsedByNode(n, true)) == multiset(Range(n.pgno, |n.chunks|))
  {
    hide Singles, AllLinks;
  }

  /** Overflow pages refer to no others. */
  lemma RunCells(file: seq<Cell>, p: Pgno, chunks: seq<Bytes>, i: nat)
    requires RunAt(file, p, chunks) && i < |chunks|
    ensures p + i < |file| && CellLinks(file, p + i) == []
  {
    if i > 0 { assert file[p + i] == Rest(chunks[i]); }
  }

  lemma RunLinked(file: seq<Cell>, image: map<Pgno, M.Page>, p: Pgno, chunks: seq<Bytes>)
    requires RunAt(file, p, chunks) && Pictures(file, image, multiset(Range(p, |chunks|)))
    ensures M.Linked(image, Singles(Range(p, |chunks|))) && M.Tops(Singles(Range(p, |chunks|))) == Range(p, |chunks|)
  {
    hide *;
    var r := Range(p, |chunks|);
    forall q | q in r ensures q in image && image[q].links == [] {
      assert q in multiset(r);
      var i :| 0 <= i < |r| && r[i] == q;
      RunCells(file, p, chunks, i);
      PictureOf(file, image, multiset(r), q);
    }
    SinglesLinked(image, r);
  }

  lemma PictureOf(file: seq<Cell>, image: map<Pgno, M.Page>, pages: multiset<Pgno>, q: Pgno)
    requires Pictures(file, image, pages) && q in pages
    ensures q < |file| && q in image && image[q].links == CellLinks(file, q)
  {
    hide CellLinks;
  }

  lemma {:induction false} ShapesLinked(file: seq<Cell>, image: map<Pgno, M.Page>, dbs: seq<Option<Tree>>)
    requires forall d | 0 <= d < |dbs| && dbs[d].Some? :: Holds(file, dbs[d].value)
    requires Pictures(file, image, BagOf(dbs))
    ensures M.Linked(image, ShapesOf(dbs))
    decreases |dbs|
  {
    if dbs != [] {
      BagOfCons(dbs);
      PicturesPart(file, image, BagOf(dbs), BagOf(dbs[1..]));
      ShapesLinked(file, image, dbs[1..]);
      var first := if dbs[0].Some? then [ShapeOf(dbs[0].value)] else [];
      if dbs[0].Some? {
        PicturesPart(file, image, BagOf(dbs), Bag(dbs[0].value));
        ShapeLinked(file, image, dbs[0].value);
      }
      LinkedAppend(image, first, ShapesOf(dbs[1..]));
    }
  }

  // ---------------------------------------------------------------- the commit

  /** The writer of the protocol holds the pages this transaction holds. */
  ghost predicate Mirrors(w: M.Writer, db: Databases, db0: seq<TxnPages.Record>)
    reads db, db.txn
  {
    && TxnPages.Ascending(db0)
    && w.t == db.txn.t && w.next == db.txn.next && w.last == db.txn.pglast
    && w.head == Moves.SetOf(db.txn.head) && w.freed == Moves.SetOf(db.txn.freed)
    && w.tree == (set p | p in db.txn.used)
    && w.base.free == MvccPages.FreeMap(db0)
  }

  /** What is committed: the roots of the databases, the pages as they are in memory, and the freeDB. */
  ghost predicate Commits(s: M.Snapshot, db: Databases, w: M.Writer, mem: map<Pgno, M.Page>)
    reads db, db.txn
  {
    && TxnPages.Ascending(db.txn.db)
    && s.id == w.t && s.next == w.next && s.image.Keys == w.tree && s.roots == RootsOf(db.dbs)
    && s.free == MvccPages.FreeMap(db.txn.db)
    && forall p | p in s.image :: s.image[p] == M.At(mem, p)
  }

  /** Pages that are used once each, as a set and as a multiset. */
  lemma OnceSet(used: multiset<Pgno>, all: set<Pgno>)
    requires (forall p :: used[p] <= 1) && all == (set p | p in used)
    ensures used == multiset(all)
  {
    forall p ensures used[p] == multiset(all)[p] {}
  }

  /** A transaction that is ready to be committed: no page is lost, and the freeDB is saved. */
  ghost predicate Complete(db: Databases, db0: seq<TxnPages.Record>)
    reads db, db.txn
  {
    && db.Valid() && db.lost == multiset{} && db.txn.loose == [] && FreelistSave.Saved(db.txn, db0) && WrittenRecords.Records(db0, db.txn.t)
    && forall i | 0 <= i < |db0| :: db0[i].id < db.txn.t
  }

  /** Where a transaction stopped: at an update, or in the save after all of them. */
  ghost predicate Ended(ps: B.PageSize, db: Databases, was: NumberedPlace.View, ms: seq<map<Key, Bytes>>,
                        us: seq<NumberedDb.Update>, script: seq<seq<FreelistSave.FreeWrite>>, scan: TxnPages.Txnid,
                        rc: NumberedPlace.Outcome, depths: seq<nat>, stop: NumberedDb.Stop, after: NumberedPlace.View,
                        why: FreelistSave.Why)
    requires forall u | u in us :: u.d < |ms|
    reads db.txn
  {
    || NumberedDb.Stopped(ps, db, was, ms, us, scan, rc, stop)
    || (&& NumberedDb.AllSound(ps, after.dbs, depths)
        && NumberedDb.AllContents(ps, after.dbs, depths) == NumberedDb.After(ms, us)
        && FreelistSave.Failed(ps, db.txn, after.dbs, after.dirty, script, scan, rc, why))
  }

  /** A write transaction: updates of its databases, in any order, and `mdb_freelist_save`. It is complete
      then, its databases hold what the updates made of them, and only pages of the transaction are changed;
      when it fails, it fails for one of the reasons an update or a write of the save has. */
  method WriteTxn(ps: B.PageSize, db: Databases, us: seq<NumberedDb.Update>, script: seq<seq<FreelistSave.FreeWrite>>,
                  scan: TxnPages.Txnid, ghost depths0: seq<nat>)
    returns (rc: NumberedPlace.Outcome, ghost depths: seq<nat>, ghost stop: NumberedDb.Stop, ghost after: NumberedPlace.View,
             ghost why: FreelistSave.Why)
    requires db.Valid() && db.lost == multiset{} && db.dbs != [] && db.Bounded(scan) && db.txn.pglast == 0
    requires NumberedDb.AllSound(ps, db.dbs, depths0) && NoRecords(db.dbs, 0)
    requires forall i | 0 <= i < |db.txn.db| :: db.txn.db[i].id < db.txn.t
    requires forall u | u in us :: NumberedDb.Allowed(u, |db.dbs|)
    modifies db`dbs, db.txn
    ensures db.Valid() && Kept(old(db.dbs), old(db.txn.dirty), db.dbs, db.txn.dirty)
    ensures Moves.Leads(old(db.txn.w), db.txn.w, db.txn.lim) && db.txn.Quota() <= old(db.txn.Quota())
    ensures (forall u | u in us :: u.d < |old(db.dbs)|) && |db.dbs| == |old(db.dbs)|
    ensures rc == NumberedPlace.Ok ==> Complete(db, old(db.txn.db)) && |depths| == |db.dbs|
    ensures rc == NumberedPlace.Ok ==>
              forall d | 0 < d < |db.dbs| ::
                && NumberedDb.Sound(ps, db.dbs[d], depths[d])
                && NumberedDb.Contents(ps, db.dbs[d], depths[d])
                   == NumberedDb.After(NumberedDb.AllContents(ps, old(db.dbs), depths0), us)[d]
    ensures rc != NumberedPlace.Ok ==>
              Ended(ps, db, old(NumberedPlace.Now(db)), NumberedDb.AllContents(ps, old(db.dbs), depths0), us, script, scan, rc,
                    depths, stop, after, why)
  {
    hide *;
    ghost var db0, books, first, was, w := db.txn.db, TxnPages.BooksOf(db.txn), db.dbs, db.txn.dirty, db.txn.w;
    BooksAre(db.txn);
    db.ValidIf();
    FreelistSave.TxnRecords(db.txn);
    NumberedDb.AllAllowed(us, |db.dbs|);
    NumberedDb.SoundParts(ps, db.dbs, depths0);
    why := FreelistSave.Why(FreelistSave.Remove([]), [], {});
    rc, depths, stop := NumberedDb.Transact(ps, db, us, scan, depths0);
    after := NumberedPlace.Now(db);
    NumberedPlace.NowIs(db);
    BooksAre(db.txn);
    StillBefore(db0, books, db.txn);
    ghost var v := db.txn.w;
    if rc != NumberedPlace.Ok {
      EndsIf(ps, db, old(NumberedPlace.Now(db)), NumberedDb.AllContents(ps, first, depths0), us, script, scan, rc, depths,
             stop, after, why);
      return;
    }
    NumberedDb.SoundParts(ps, db.dbs, depths);
    db.ValidIf();
    NoRecordsStill(first, was, db.dbs, db.txn.dirty, 0);
    FreelistSave.OrderNow(ps, db.dbs, depths[0]);
    ReadyIs(ps, db);
    rc, why := FreelistSave.FreelistSave(ps, db, script, scan);
    Moves.LeadsOn(w, v, db.txn.w, db.txn.lim);
    FreelistSave.OthersKept(after.dbs, after.dirty, db.dbs, db.txn.dirty);
    KeptOn(first, was, after.dbs, after.dirty, db.dbs, db.txn.dirty);
    if rc == NumberedPlace.Ok {
      FreelistSave.ReadyParts(ps, db);
      CompleteNow(db, db0);
    } else {
      EndsIf(ps, db, old(NumberedPlace.Now(db)), NumberedDb.AllContents(ps, first, depths0), us, script, scan, rc, depths,
             stop, after, why);
    }
  }

  lemma EndsIf(ps: B.PageSize, db: Databases, was: NumberedPlace.View, ms: seq<map<Key, Bytes>>,
               us: seq<NumberedDb.Update>, script: seq<seq<FreelistSave.FreeWrite>>, scan: TxnPages.Txnid,
               rc: NumberedPlace.Outcome, depths: seq<nat>, stop: NumberedDb.Stop, after: NumberedPlace.View,
               why: FreelistSave.Why)
    requires forall u | u in us :: u.d < |ms|
    ensures Ended(ps, db, was, ms, us, script, scan, rc, depths, stop, after, why)
       <==> || NumberedDb.Stopped(ps, db, was, ms, us, scan, rc, stop)
            || (&& NumberedDb.AllSound(ps, after.dbs, depths)
                && NumberedDb.AllContents(ps, after.dbs, depths) == NumberedDb.After(ms, us)
                && FreelistSave.Failed(ps, db.txn, after.dbs, after.dirty, script, scan, rc, why))
  {
    hide NumberedDb.Stopped, NumberedDb.AllSound, NumberedDb.After, NumberedDb.AllContents, FreelistSave.Failed;
  }

  lemma StillBefore(db0: seq<TxnPages.Record>, a: TxnPages.Books, txn: TxnPages.Txn)
    requires TxnPages.Consumes(a, TxnPages.BooksOf(txn)) && a.db == db0 && a.last == 0
    ensures txn.db == db0 && (txn.pglast > 0 ==> TxnPages.HasRecord(txn.db, txn.pglast))
    ensures Moves.Leads(a.w, txn.w, a.lim) && txn.Quota() <= a.quota
  {
    hide TxnPages.HasRecord, Moves.Leads;
  }

  lemma ReadyIs(ps: B.PageSize, db: Databases)
    requires db.Valid() && FreelistSave.InOrder(ps, db.dbs)
    ensures FreelistSave.Ready(ps, db)
  {
    hide FreelistSave.InOrder, BagOf;
  }

  lemma CompleteNow(db: Databases, db0: seq<TxnPages.Record>)
    requires db.txn.loose == []
    requires db.Valid() && db.lost == multiset{} && FreelistSave.Saved(db.txn, db0) && WrittenRecords.Records(db0, db.txn.t)
    requires forall i | 0 <= i < |db0| :: db0[i].id < db.txn.t
    ensures Complete(db, db0)
  {
    hide FreelistSave.Saved, WrittenRecords.Records, BagOf;
  }

  /** A transaction that has lost no page, and whose freeDB is saved, meets what the protocol asks of a
      commit: from the roots every page of the snapshot is reached, once. */
  lemma TreesCommit(db: Databases, db0: seq<TxnPages.Record>, file: seq<Cell>, w: M.Writer, s: M.Snapshot,
                    mem: map<Pgno, M.Page>)
    requires Complete(db, db0) && Mirrors(w, db, db0) && Commits(s, db, w, mem)
    requires forall d | 0 <= d < |db.dbs| && db.dbs[d].Some? :: Holds(file, db.dbs[d].value)
    requires Pictures(file, s.image, BagOf(db.dbs))
    ensures M.Committable(w, s, mem)
  {
    TxnParts(db.txn);
    MirrorParts(w, db, db0, s, mem);
    hide *;
    MvccPages.SaveMeetsProtocol(db.txn, db0, w);
    UsedOnce(db.txn);
    OnceSet(db.txn.used, s.image.Keys);
    DbUses(db);
    ReachedShapes(db.dbs);
    ShapesLinked(file, s.image, db.dbs);
    SpannedBy(s, ShapesOf(db.dbs));
    Allowed(w, s, mem);
  }

  lemma TxnParts(txn: TxnPages.Txn)
    requires txn.Valid()
    ensures TxnPages.Ascending(txn.db) && IdLists.Strict(txn.head) && txn.pglast < txn.t
    ensures 2 <= txn.next <= IdSort.ID_MAX && txn.used <= TxnPages.FilePages(txn.next)
  {
    hide TxnPages.Listed, TxnPages.FilePages;
  }

  lemma DbUses(db: Databases)
    requires db.Valid() && db.lost == multiset{}
    ensures db.txn.used == BagOf(db.dbs)
  {
    hide BagOf;
  }

  lemma MirrorParts(w: M.Writer, db: Databases, db0: seq<TxnPages.Record>, s: M.Snapshot, mem: map<Pgno, M.Page>)
    requires Mirrors(w, db, db0) && Commits(s, db, w, mem)
    ensures TxnPages.Ascending(db0) && TxnPages.Ascending(db.txn.db)
    ensures w.t == db.txn.t && w.next == db.txn.next && w.last == db.txn.pglast
    ensures w.head == Moves.SetOf(db.txn.head) && w.freed == Moves.SetOf(db.txn.freed)
    ensures w.base.free == MvccPages.FreeMap(db0) && s.free == MvccPages.FreeMap(db.txn.db)
    ensures s.id == w.t && s.next == w.next && s.image.Keys == w.tree && s.roots == RootsOf(db.dbs)
    ensures s.image.Keys == (set p | p in db.txn.used) && forall p | p in s.image :: s.image[p] == M.At(mem, p)
  {
    hide Moves.SetOf, MvccPages.FreeMap, RootsOf, M.At;
  }

  lemma SpannedBy(s: M.Snapshot, ts: seq<M.PageTree>)
    requires M.Tops(ts) == s.roots && M.Linked(s.image, ts) && M.Reached(ts) == multiset(s.image.Keys)
    ensures M.ReachedOnce(s)
  {
    hide M.Tops, M.Linked, M.Reached;
    assert M.Spans(s, ts);
  }

  lemma Allowed(w: M.Writer, s: M.Snapshot, mem: map<Pgno, M.Page>)
    requires s.id == w.t && s.next == w.next && s.image.Keys == w.tree && M.ReachedOnce(s) && M.SavedFree(w, s.free)
    requires forall p | p in s.image :: s.image[p] == M.At(mem, p)
    ensures M.Committable(w, s, mem)
  {
    hide M.ReachedOnce, M.SavedFree, M.At;
  }

  // ---------------------------------------------------------------- the pages a commit publishes

  /** The pages an entry leads to, when it is known how many overflow pages it has. */
  function ShownLinks(s: Shown): seq<Pgno> {
    match s.entry
    case Value(_, _) => []
    case BigData(_, _, p) => Range(p, s.pages)
    case Child(_, p) => [p]
    case SubDb(_, _, r) => if r.Some? then [r.value] else []
  }

  function LinksOf(s: seq<Shown>): seq<Pgno> {
    if s == [] then [] else LinksOf(s[..|s| - 1]) + ShownLinks(s[|s| - 1])
  }

  function UnitLinks(u: Extent): seq<Pgno> {
    if u.PageUnit? then LinksOf(u.entries) else []
  }

  lemma ShownLast(ns: seq<Node>)
    requires ns != []
    ensures var k := |ns| - 1;
            && Entries(ns)[..k] == Entries(ns[..k]) && Shows(ns)[..k] == Shows(ns[..k]) && Entries(ns)[k] == EntryOf(ns[k])
            && Shows(ns)[k] == Shown(EntryOf(ns[k]), if ns[k].Big? then |ns[k].chunks| else 0)
            && |Entries(ns)| == |Shows(ns)| == |ns|
  {
    hide EntryOf;
  }

  lemma ShownEntry(file: seq<Cell>, n: Node)
    requires HoldsNode(file, n)
    ensures EntryLinks(file, EntryOf(n)) == ShownLinks(Shown(EntryOf(n), if n.Big? then |n.chunks| else 0))
  {
    KidParts(file, n);
    hide Holds, RunAt, ShapeOf, Singles;
  }

  lemma AllLinksLast(file: seq<Cell>, es: seq<Entry>)
    requires es != []
    ensures AllLinks(file, es) == AllLinks(file, es[..|es| - 1]) + EntryLinks(file, es[|es| - 1])
  {
    hide EntryLinks;
  }

  lemma LinksOfLast(s: seq<Shown>)
    requires s != []
    ensures LinksOf(s) == LinksOf(s[..|s| - 1]) + ShownLinks(s[|s| - 1])
  {
    hide ShownLinks;
  }

  lemma NoLinks(file: seq<Cell>, ns: seq<Node>)
    requires ns == []
    ensures AllLinks(file, Entries(ns)) == LinksOf(Shows(ns)) == []
  {}

  lemma HoldsLast(file: seq<Cell>, ns: seq<Node>)
    requires HoldsAll(file, ns) && ns != []
    ensures HoldsAll(file, ns[..|ns| - 1]) && HoldsNode(file, ns[|ns| - 1])
  {
    hide HoldsNode;
  }

  lemma {:induction false} LinksShown(file: seq<Cell>, ns: seq<Node>)
    requires HoldsAll(file, ns)
    ensures AllLinks(file, Entries(ns)) == LinksOf(Shows(ns))
    decreases |ns|
  {
    hide *;
    if ns == [] {
      NoLinks(file, ns);
    } else {
      HoldsLast(file, ns);
      LinksShown(file, ns[..|ns| - 1]);
      ShownLast(ns);
      ShownEntry(file, ns[|ns| - 1]);
      AllLinksLast(file, Entries(ns));
      LinksOfLast(Shows(ns));
    }
  }

  /** In a file that holds the tree, the links of a page are those its unit shows. */
  lemma {:induction false} LinksHeld(file: seq<Cell>, t: Tree, u: Extent, q: Pgno)
    requires Holds(file, t) && In(u, t) && q in PagesOf(u)
    ensures q < |file| && CellLinks(file, q) == UnitLinks(u)
    decreases t
  {
    HeldOf(file, t, u);
    HeldCell(file, u, q);
    if InAll(u, t.nodes) {
      var i :| 0 <= i < |t.nodes| && InNode(u, t.nodes[i]);
      assert HoldsNode(file, t.nodes[i]);
      match t.nodes[i]
      case Plain(_, _) =>
      case Big(_, _, _, _) =>
      case Link(_, c) => LinksHeld(file, c, u, q);
      case Sub(_, _, r) => LinksHeld(file, r.value, u, q);
    } else {
      LinksShown(file, t.nodes);
    }
  }

  lemma LinksAt(file: seq<Cell>, dbs: seq<Option<Tree>>, d: nat, u: Extent, q: Pgno)
    requires AllHeld(file, dbs) && HasUnit(dbs, d, u) && q in PagesOf(u)
    ensures q < |file| && CellLinks(file, q) == UnitLinks(u)
  {
    hide Holds, In, PagesOf;
    LinksHeld(file, dbs[d].value, u, q);
  }

  /** A page of the file as the protocol sees it; `body` reads what is not a link. */
  ghost function Seen(file: seq<Cell>, p: Pgno, body: Cell -> nat): M.Page
    requires p < |file|
  {
    M.Page(CellLinks(file, p), body(file[p]))
  }

  /** Memory has these pages as the file has them. */
  ghost predicate Mapped(file: seq<Cell>, mem: map<Pgno, M.Page>, pages: multiset<Pgno>, body: Cell -> nat) {
    forall p | p in pages :: p < |file| && M.At(mem, p) == Seen(file, p, body)
  }

  /** Memory after the transaction has written its pages. */
  ghost function MemOf(mem: map<Pgno, M.Page>, g: seq<Cell>, dbs: seq<Option<Tree>>, dirty: set<nat>, body: Cell -> nat)
    : (r: map<Pgno, M.Page>)
    ensures forall p: Pgno :: M.At(r, p) == if p < |g| && Written(dbs, dirty, p) then Seen(g, p, body) else M.At(mem, p)
  {
    hide Written, Seen;
    map p | p in mem.Keys + M.Range(|g|) + {0, 1} ::
      if p < |g| && Written(dbs, dirty, p) then Seen(g, p, body) else M.At(mem, p)
  }

  lemma MappedParts(file: seq<Cell>, mem: map<Pgno, M.Page>, pages: multiset<Pgno>, body: Cell -> nat, p: Pgno)
    requires Mapped(file, mem, pages, body) && p in pages
    ensures p < |file| && M.At(mem, p) == M.Page(CellLinks(file, p), body(file[p]))
  {
    hide M.At, CellLinks;
  }

  /** A page in memory after the transaction is the page of its trees. */
  lemma PageSeen(a: seq<Option<Tree>>, was: set<nat>, b: seq<Option<Tree>>, dirty: set<nat>, f: seq<Cell>,
                 mem: map<Pgno, M.Page>, body: Cell -> nat, p: Pgno)
    requires Kept(a, was, b, dirty) && AllHeld(f, a) && AllHeld(FileOf(f, b, dirty), b) && Mapped(f, mem, BagOf(a), body)
    requires p in BagOf(b) && BagOf(b)[p] <= 1 && p < |f|
    ensures var g := FileOf(f, b, dirty); p < |g| && M.At(MemOf(mem, g, b, dirty, body), p) == Seen(g, p, body)
  {
    hide *;
    var g := FileOf(f, b, dirty);
    FileLength(f, b, dirty);
    var d, u := DbsUnit(b, p);
    NewCellIs(b, dirty, d, u, p);
    if u.pgno !in dirty {
      KeptUnit(a, was, b, dirty, d, u);
      HasBag(a, d, u);
      MappedParts(f, mem, BagOf(a), body, p);
      LinksAt(f, a, d, u, p);
      LinksAt(g, b, d, u, p);
      SeenIs(g, p, body);
    }
  }

  lemma SeenIs(file: seq<Cell>, p: Pgno, body: Cell -> nat)
    requires p < |file|
    ensures Seen(file, p, body) == M.Page(CellLinks(file, p), body(file[p]))
  {}

  lemma AllMapped(a: seq<Option<Tree>>, was: set<nat>, b: seq<Option<Tree>>, dirty: set<nat>, f: seq<Cell>,
                  mem: map<Pgno, M.Page>, body: Cell -> nat)
    requires Kept(a, was, b, dirty) && AllHeld(f, a) && AllHeld(FileOf(f, b, dirty), b) && Mapped(f, mem, BagOf(a), body)
    requires (forall p: Pgno :: BagOf(b)[p] <= 1) && forall p | p in BagOf(b) :: p < |f|
    ensures var g := FileOf(f, b, dirty); Mapped(g, MemOf(mem, g, b, dirty, body), BagOf(b), body)
  {
    hide Kept, AllHeld, FileOf, MemOf, BagOf, Seen, M.At;
    var g := FileOf(f, b, dirty);
    forall p | p in BagOf(b) ensures p < |g| && M.At(MemOf(mem, g, b, dirty, body), p) == Seen(g, p, body) {
      hide Mapped;
      PageSeen(a, was, b, dirty, f, mem, body, p);
    }
  }

  /** What the transaction commits. */
  ghost function Committed(db: Databases, w: M.Writer, mem: map<Pgno, M.Page>): M.Snapshot
    requires TxnPages.Ascending(db.txn.db)
    reads db, db.txn
  {
    M.Snapshot(w.t, RootsOf(db.dbs), w.next, map p | p in w.tree :: M.At(mem, p), MvccPages.FreeMap(db.txn.db))
  }

  lemma CommittedIs(db: Databases, w: M.Writer, mem: map<Pgno, M.Page>)
    requires TxnPages.Ascending(db.txn.db)
    ensures Commits(Committed(db, w, mem), db, w, mem)
    ensures forall p :: p in Committed(db, w, mem).image <==> p in w.tree
  {
    hide M.At, RootsOf, MvccPages.FreeMap;
  }

  lemma PicturesNow(db: Databases, w: M.Writer, g: seq<Cell>, mem: map<Pgno, M.Page>, body: Cell -> nat)
    requires TxnPages.Ascending(db.txn.db) && Mapped(g, mem, BagOf(db.dbs), body) && forall p | p in BagOf(db.dbs) :: p in w.tree
    ensures Pictures(g, Committed(db, w, mem).image, BagOf(db.dbs))
  {
    hide BagOf, CellLinks, M.At, RootsOf, MvccPages.FreeMap;
  }

  lemma TreePagesUsed(db: Databases, db0: seq<TxnPages.Record>, w: M.Writer)
    requires db.Valid() && db.lost == multiset{} && Mirrors(w, db, db0)
    ensures forall p | p in BagOf(db.dbs) :: p in w.tree && p < db.txn.next && BagOf(db.dbs)[p] == 1
  {
    hide BagOf, MvccPages.FreeMap, Moves.SetOf;
    DbUses(db);
    TxnParts(db.txn);
    TxnPages.OnceEach(db.txn.next, db.txn.used);
  }

  /** The protocol's writer holds the pages the transaction holds. */
  lemma MirrorsNow(db: Databases, db0: seq<TxnPages.Record>)
    requires db.Valid() && TxnPages.Ascending(db0) && db.txn.w.base.free == MvccPages.FreeMap(db0)
    ensures Mirrors(db.txn.w, db, db0)
  {
    hide MvccPages.FreeMap, TxnPages.RecordsMatch, BagOf, Moves.SetOf;
    db.txn.TwinLimits();
    assert TxnPages.BagSet(db.txn.used) == set p | p in db.txn.used;
  }

  /** From the trees of its beginning, as the file and memory hold them, a transaction that is complete reaches a commit
      the protocol allows by writing pages of its own only: the file with those pages holds its trees, memory with them is
      what it publishes, and trees that have none of its pages, so those of older snapshots, are as they were. */
  lemma CommitFile(db: Databases, db0: seq<TxnPages.Record>, a: seq<Option<Tree>>, was: set<nat>, f: seq<Cell>,
                   mem: map<Pgno, M.Page>, body: Cell -> nat)
    returns (g: seq<Cell>, after: map<Pgno, M.Page>, s: M.Snapshot)
    requires Complete(db, db0) && Kept(a, was, db.dbs, db.txn.dirty)
    requires TxnPages.Ascending(db0) && db.txn.w.base.free == MvccPages.FreeMap(db0)
    requires AllHeld(f, a) && Mapped(f, mem, BagOf(a), body) && db.txn.next <= |f|
    ensures AllHeld(g, db.dbs) && Mapped(g, after, BagOf(db.dbs), body)
    ensures Commits(s, db, db.txn.w, after) && Pictures(g, s.image, BagOf(db.dbs)) && M.Committable(db.txn.w, s, after)
    ensures |g| == |f| && forall p | 0 <= p < |f| && !Written(db.dbs, db.txn.dirty, p) :: g[p] == f[p]
    ensures forall p | !Written(db.dbs, db.txn.dirty, p) :: M.At(after, p) == M.At(mem, p)
    ensures forall p | Written(db.dbs, db.txn.dirty, p) :: p in db.txn.w.tree && p in db.txn.w.dirty
    ensures forall old' | Holds(f, old') && (forall p | p in Bag(old') :: p !in db.txn.w.dirty) :: Holds(g, old')
  {
    CompleteParts(db, db0);
    TxnParts(db.txn);
    MirrorsNow(db, db0);
    var w := db.txn.w;
    TreePagesUsed(db, db0, w);
    hide *;
    db.ValidIf();
    var b, dirty := db.dbs, db.txn.dirty;
    assert forall p: Pgno :: BagOf(b)[p] <= 1;
    FileHolds(a, was, b, dirty, f);
    g := FileOf(f, b, dirty);
    FileLength(f, b, dirty);
    after := MemOf(mem, g, b, dirty, body);
    AllMapped(a, was, b, dirty, f, mem, body);
    s := Committed(db, w, after);
    CommittedIs(db, w, after);
    PicturesNow(db, w, g, after, body);
    HeldEach(g, b);
    TreesCommit(db, db0, g, w, s, after);
    forall p | Written(b, dirty, p) ensures p in w.tree && p in w.dirty {
      WrittenOwn(b, dirty, w.dirty, p);
      WrittenUsed(b, dirty, p);
    }
    forall old' | Holds(f, old') && (forall p | p in Bag(old') :: p !in w.dirty) ensures Holds(g, old') {
      OldKept(f, b, dirty, w.dirty, old');
    }
  }

  lemma HeldEach(g: seq<Cell>, dbs: seq<Option<Tree>>)
    requires AllHeld(g, dbs)
    ensures forall d | 0 <= d < |dbs| && dbs[d].Some? :: Holds(g, dbs[d].value)
  {
    hide Holds;
  }

  lemma WrittenUsed(dbs: seq<Option<Tree>>, dirty: set<nat>, q: Pgno)
    requires Written(dbs, dirty, q)
    ensures q in BagOf(dbs)
  {
    hide HasUnit, PagesOf, BagOf;
    var d: nat, u :| Covers(dbs, dirty, d, u, q);
    HasBag(dbs, d, u);
  }

  lemma CompleteParts(db: Databases, db0: seq<TxnPages.Record>)
    requires Complete(db, db0)
    ensures db.Valid() && db.txn.Valid() && db.lost == multiset{}
  {
    hide FreelistSave.Saved, WrittenRecords.Records, BagOf;
  }
}
