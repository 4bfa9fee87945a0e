/** Writing the free page lists back to the freeDB at commit (mdb_freelist_save, mdb.c).

    Every write to the freeDB changes its own pages, and so the lists that are being saved.  What
    one write does to the freeDB's tree is an argument here: any sequence of records stored and
    removed, with all the copying, splitting, borrowing and merging they cause. */
module FreelistSave {
  import opened Options
  import opened IdSort
  import opened IdLists
  import opened PageLists
  import opened TxnPages
  import opened WrittenRecords
  import opened TreePages
  import opened NumberedPlace
  import opened NumberedDb
  import opened Keys
  import B = BTree
  import opened PageUnits
  import PageTrees
  import Moves = PageMoves
  import M = Mvcc
  import Seqs

  datatype FreeWrite = Write(key: Key, data: seq<Byte>) | Remove(key: Key)

  // ---------------------------------------------------------------- what a write does to the pages

  /** The pages in use are those of the trees, each once, and the freeDB's tree is in order. */
  ghost predicate Ready(ps: B.PageSize, all: Databases)
    reads all, all.txn
  {
    all.Valid() && InOrder(ps, all.dbs)
  }

  /** The freeDB's tree is in order, and no database is recorded in it. */
  ghost predicate InOrder(ps: B.PageSize, dbs: seq<Option<PageTrees.Tree>>) {
    dbs != [] && NoRecords(dbs, 0) && exists h: nat :: Sound(ps, dbs[0], h)
  }

  lemma ReadyParts(ps: B.PageSize, all: Databases)
    requires Ready(ps, all)
    ensures all.Valid() && all.txn.Valid() && InOrder(ps, all.dbs) && all.dbs != [] && NoRecords(all.dbs, 0)
    ensures all.txn.used == BagOf(all.dbs) + all.lost && forall p | p in all.txn.loose :: p in all.txn.dirty
    ensures all.txn.Twin() && Owns(all.dbs, all.txn.dirty, all.txn.w.dirty)
  {
    hide Sound, BagOf, Owns, NoRecords;
  }

  lemma ReadyNow(ps: B.PageSize, all: Databases)
    requires all.txn.Valid() && InOrder(ps, all.dbs)
    requires all.txn.used == BagOf(all.dbs) + all.lost && forall p | p in all.txn.loose :: p in all.txn.dirty
    requires all.txn.Twin() && Owns(all.dbs, all.txn.dirty, all.txn.w.dirty)
    ensures Ready(ps, all) && all.Valid()
  {
    hide InOrder, BagOf, Owns;
  }

  lemma OrderNow(ps: B.PageSize, dbs: seq<Option<PageTrees.Tree>>, h: nat)
    requires dbs != [] && Sound(ps, dbs[0], h) && NoRecords(dbs, 0)
    ensures InOrder(ps, dbs)
  {
    hide Sound, NoRecords;
  }

  lemma SomeDepth(ps: B.PageSize, dbs: seq<Option<PageTrees.Tree>>) returns (h: nat)
    requires InOrder(ps, dbs)
    ensures dbs != [] && Sound(ps, dbs[0], h)
  {
    hide Sound, NoRecords;
    h :| Sound(ps, dbs[0], h);
  }

  /** The other databases stay as they are, and only pages of the transaction are changed. */
  ghost predicate Others(a: seq<Option<PageTrees.Tree>>, was: set<nat>, b: seq<Option<PageTrees.Tree>>, dirty: set<nat>) {
    |b| == |a| && (forall d | 0 < d < |a| :: b[d] == a[d]) && Kept(a, was, b, dirty)
  }

  lemma OthersTwice(a: seq<Option<PageTrees.Tree>>, d0: set<nat>, b: seq<Option<PageTrees.Tree>>, d1: set<nat>,
                    c: seq<Option<PageTrees.Tree>>, d2: set<nat>)
    requires Others(a, d0, b, d1) && Others(b, d1, c, d2)
    ensures Others(a, d0, c, d2)
  {
    hide Kept;
    KeptOn(a, d0, b, d1, c, d2);
  }

  lemma OthersSame(a: seq<Option<PageTrees.Tree>>, dirty: set<nat>)
    ensures Others(a, dirty, a, dirty)
  {
    hide Kept;
    KeptSame(a, dirty, dirty);
  }

  lemma OnlyFree(all: Databases, a: View)
    requires Only(a, Now(all), 0)
    ensures Others(a.dbs, a.dirty, all.dbs, all.txn.dirty) && Advances(a.books, BooksOf(all.txn))
  {
    hide Advances, BooksOf, Kept;
  }

  /** The record that could not be stored or removed, and the databases before. */
  datatype Why = Why(w: FreeWrite, dbs: seq<Option<PageTrees.Tree>>, dirty: set<nat>)

  function UpdateOf(w: FreeWrite): Update {
    match w
    case Write(key, data) => Store(0, key, data)
    case Remove(key) => Erase(0, key)
  }

  ghost predicate Asked(script: seq<seq<FreeWrite>>, w: FreeWrite) {
    exists i :: 0 <= i < |script| && w in script[i]
  }

  /** The save failed at a write of the script: a page of the freeDB could not be split, or there was no page. */
  ghost predicate Failed(ps: B.PageSize, txn: Txn, a: seq<Option<PageTrees.Tree>>, was: set<nat>,
                         script: seq<seq<FreeWrite>>, scan: Txnid, rc: Outcome, why: Why)
    reads txn
  {
    && (rc == Full || rc == NoPage) && Asked(script, why.w)
    && Others(a, was, why.dbs, why.dirty) && why.dbs != []
    && (rc == Full ==> UpdateStuck(ps, why.dbs[0], UpdateOf(why.w)))
    && (rc == NoPage ==> UpdateShort(ps, txn, UpdateOf(why.w), scan))
  }

  lemma FailedLater(ps: B.PageSize, txn: Txn, a: seq<Option<PageTrees.Tree>>, d0: set<nat>, b: seq<Option<PageTrees.Tree>>,
                    d1: set<nat>, script: seq<seq<FreeWrite>>, scan: Txnid, rc: Outcome, why: Why)
    requires Others(a, d0, b, d1)
    ensures Failed(ps, txn, b, d1, script, scan, rc, why) ==> Failed(ps, txn, a, d0, script, scan, rc, why)
  {
    hide Others, Asked, UpdateStuck, UpdateShort;
    if Failed(ps, txn, b, d1, script, scan, rc, why) { OthersTwice(a, d0, b, d1, why.dbs, why.dirty); }
  }

  lemma FailedNow(ps: B.PageSize, txn: Txn, a: seq<Option<PageTrees.Tree>>, dirty: set<nat>, script: seq<seq<FreeWrite>>,
                  scan: Txnid, rc: Outcome, w: FreeWrite)
    requires (rc == Full || rc == NoPage) && Asked(script, w) && a != []
    requires rc == Full ==> UpdateStuck(ps, a[0], UpdateOf(w))
    requires rc == NoPage ==> UpdateShort(ps, txn, UpdateOf(w), scan)
    ensures Failed(ps, txn, a, dirty, script, scan, rc, Why(w, a, dirty))
  {
    hide Others, Asked, UpdateStuck, UpdateShort;
    OthersSame(a, dirty);
  }

  lemma AskedIf(script: seq<seq<FreeWrite>>, i: nat, k: nat)
    requires i < |script| && k < |script[i]|
    ensures Asked(script, script[i][k])
  {}

  lemma FitsIs(w: FreeWrite)
    requires Fits(w)
    ensures w.Write? ==> 1 <= |w.key| <= B.MAXKEY && |w.data| <= B.MAXDATASIZE && UpdateOf(w) == Store(0, w.key, w.data)
    ensures w.Remove? ==> UpdateOf(w) == Erase(0, w.key)
  {}

  predicate Fits(w: FreeWrite) {
    w.Write? ==> 1 <= |w.key| <= B.MAXKEY && |w.data| <= B.MAXDATASIZE
  }

  /** One record stored or removed. */
  method Apply(ps: B.PageSize, all: Databases, w: FreeWrite, scan: Txnid) returns (rc: Outcome)
    requires Ready(ps, all) && all.Bounded(scan) && Fits(w)
    modifies all`dbs, all.txn
    ensures all.Valid() && all.txn.Valid() && Others(old(all.dbs), old(all.txn.dirty), all.dbs, all.txn.dirty)
    ensures Advances(old(BooksOf(all.txn)), BooksOf(all.txn)) && (rc == Ok ==> Ready(ps, all))
    ensures old(all.dbs) != [] && (rc == Ok || rc == Full || rc == NoPage)
    ensures rc == Full ==> UpdateStuck(ps, old(all.dbs)[0], UpdateOf(w))
    ensures rc == NoPage ==> UpdateShort(ps, all.txn, UpdateOf(w), scan)
  {
    hide *;
    ReadyParts(ps, all);
    ghost var h := SomeDepth(ps, all.dbs);
    ghost var view := Now(all);
    NowIs(all);
    ghost var depth;
    FitsIs(w);
    if w.Write? {
      ghost var dirty;
      rc, depth, dirty := PutKey(ps, all, 0, w.key, w.data, scan, h);
      PutStopped(ps, all.txn, view.dbs[0], UpdateOf(w), scan, dirty);
    } else {
      rc, depth := DelKey(ps, all, 0, w.key, scan, h);
      DelStopped(ps, all.txn, view.dbs[0], UpdateOf(w), scan);
      if rc == NotFound {
        rc, depth := Ok, h;
      }
    }
    if view.dbs[0].Some? && HasSub(view.dbs[0].value, w.key) { RecordFound(view.dbs, 0, w.key); }
    OnlyFree(all, view);
    OthersKept(view.dbs, view.dirty, all.dbs, all.txn.dirty);
    NoRecordsStill(view.dbs, view.dirty, all.dbs, all.txn.dirty, 0);
    all.ValidIf();
    if rc == Ok {
      OrderNow(ps, all.dbs, depth);
      all.OursIf();
      ReadyNow(ps, all);
    }
  }

  lemma OthersKept(a: seq<Option<PageTrees.Tree>>, was: set<nat>, b: seq<Option<PageTrees.Tree>>, dirty: set<nat>)
    requires Others(a, was, b, dirty)
    ensures Kept(a, was, b, dirty) && |b| == |a| && forall d | 0 < d < |a| :: b[d] == a[d]
  {
    hide Kept;
  }

  /** The freeDB's records stay, me_pglast and mt_free_pgs grow, the loose list shrinks. */
  ghost predicate Moved(last: Txnid, freed: seq<Id>, loose: seq<Id>, db: seq<Record>, w: M.Writer, txn: Txn)
    reads txn
  {
    Advances(Books(last, freed, loose, db, w, txn.lim, txn.Quota()), BooksOf(txn))
  }

  /** The changes of one write to the freeDB: those of the next step, none after the last. */
  method Churn(ps: B.PageSize, all: Databases, script: seq<seq<FreeWrite>>, step0: nat, scan: Txnid)
    returns (rc: Outcome, step: nat, ghost why: Why)
    requires Ready(ps, all) && all.Bounded(scan)
    modifies all`dbs, all.txn
    ensures all.Valid() && all.txn.Valid() && Others(old(all.dbs), old(all.txn.dirty), all.dbs, all.txn.dirty)
    ensures Moved(old(all.txn.pglast), old(all.txn.freed), old(all.txn.loose), old(all.txn.db), old(all.txn.w), all.txn)
    ensures rc == Ok ==> Ready(ps, all)
    ensures rc != Ok ==> Failed(ps, all.txn, old(all.dbs), old(all.txn.dirty), script, scan, rc, why)
    ensures step0 < |script| ==> step == step0 + 1
    ensures step0 >= |script| ==> step == step0 && rc == Ok && unchanged(all.txn)
    ensures all.txn.Quota() <= old(all.txn.Quota())
  {
    hide *;
    ghost var books, first, was := BooksOf(all.txn), all.dbs, all.txn.dirty;
    BooksAre(all.txn);
    MovedIf(all.txn, books);
    AdvancesSame(books);
    OthersSame(all.dbs, all.txn.dirty);
    ReadyParts(ps, all);
    rc, step, why := Ok, step0, Why(Remove([]), [], {});
    if step0 < |script| {
      step := step0 + 1;
      var k := 0;
      while k < |script[step0]| && rc == Ok
        invariant 0 <= k <= |script[step0]| && all.Valid() && all.txn.Valid() && (rc == Ok ==> Ready(ps, all))
        invariant Others(first, was, all.dbs, all.txn.dirty) && Advances(books, BooksOf(all.txn))
        invariant rc != Ok ==> Failed(ps, all.txn, first, was, script, scan, rc, why)
      {
        ghost var before, dbs, dirty := BooksOf(all.txn), all.dbs, all.txn.dirty;
        if Fits(script[step0][k]) {
          rc := Apply(ps, all, script[step0][k], scan);
          AdvancesOn(books, before, BooksOf(all.txn));
          if rc != Ok {
            AskedIf(script, step0, k);
            why := Why(script[step0][k], dbs, dirty);
            FailedNow(ps, all.txn, dbs, dirty, script, scan, rc, script[step0][k]);
            FailedLater(ps, all.txn, first, was, dbs, dirty, script, scan, rc, why);
          }
          OthersTwice(first, was, dbs, dirty, all.dbs, all.txn.dirty);
        }
        k := k + 1;
      }
      MovedIf(all.txn, books);
    }
  }

  lemma MovedIf(txn: Txn, a: Books)
    requires a.lim == txn.lim
    ensures Advances(a, BooksOf(txn)) ==> Moved(a.last, a.freed, a.loose, a.db, a.w, txn) && txn.Quota() <= a.quota
  {
    hide BooksOf, Moves.Leads, HasRecord;
    BooksAre(txn);
  }

  // ---------------------------------------------------------------- the records that are written

  ghost predicate Saving(txn: Txn, db0: seq<Record>, pglast: Txnid, headId: Txnid, freecnt: nat, headRoom: int, totalRoom: int)
    reads txn
  {
    && txn.Valid()
    && Rounds(txn.db, txn.pglast, txn.t, txn.freed, txn.loose, db0, pglast, headId, freecnt, headRoom, totalRoom)
  }

  lemma TxnRecords(txn: Txn)
    requires txn.Valid()
    ensures Records(txn.db, txn.t) && txn.pglast < txn.t
  {
    hide Conserved;
  }

  /** What a write to the freeDB starts from. */
  lemma SavingParts(txn: Txn, db0: seq<Record>, pglast: Txnid, headId: Txnid, freecnt: nat, headRoom: int, totalRoom: int)
    requires Saving(txn, db0, pglast, headId, freecnt, headRoom, totalRoom)
    ensures txn.Valid() && pglast <= txn.pglast && freecnt <= |txn.freed| && 0 <= headRoom && (txn.loose != [] ==> txn.pglast > 0)
    ensures pglast < txn.pglast ==> HasRecord(txn.db, txn.pglast)
    ensures pglast == txn.pglast ==> Reserved(txn.db, txn.pglast, headId, headRoom, totalRoom)
    ensures headId <= pglast && (pglast > 0 ==> headId > 0) && (txn.db == [] || headId <= txn.db[0].id)
    ensures OwnSaved(txn.db, txn.t, txn.freed[..freecnt]) && SameAbove(db0, txn.db, txn.pglast, txn.t)
  {
    hide Conserved, Listed, Reserved, HasRecord, OwnSaved, SameAbove;
  }

  lemma MovedParts(txn: Txn, last: Txnid, freed: seq<Id>, loose: seq<Id>, db: seq<Record>, w: M.Writer)
    requires Moved(last, freed, loose, db, w, txn)
    ensures Moves.Leads(w, txn.w, txn.lim)
    ensures txn.db == db && freed <= txn.freed && (loose == [] ==> txn.loose == [])
    ensures last <= txn.pglast && (last < txn.pglast ==> HasRecord(db, txn.pglast))
  {
    hide HasRecord;
  }

  /** A write to the freeDB may consume more records, and free more pages. */
  lemma MovedSaving(txn: Txn, db0: seq<Record>, pglast: Txnid, headId: Txnid, freecnt: nat, headRoom: int, totalRoom: int,
                    last: Txnid, freed: seq<Id>, loose: seq<Id>, db: seq<Record>, w: M.Writer)
    requires txn.Valid() && Moved(last, freed, loose, db, w, txn)
    requires pglast <= last && freecnt <= |freed| && 0 <= headRoom && (loose != [] ==> last > 0)
    requires pglast < last ==> HasRecord(db, last)
    requires pglast == last ==> Reserved(db, last, headId, headRoom, totalRoom)
    requires headId <= pglast && (pglast > 0 ==> headId > 0) && (db == [] || headId <= db[0].id)
    requires OwnSaved(db, txn.t, freed[..freecnt]) && SameAbove(db0, db, last, txn.t)
    ensures Saving(txn, db0, pglast, headId, freecnt, headRoom, totalRoom)
  {
    hide Conserved, Listed, Reserved, HasRecord, OwnSaved;
    assert txn.freed[..freecnt] == freed[..freecnt];
  }

  // ---------------------------------------------------------------- changes of the freeDB

  // ---------------------------------------------------------------- filling the reserved records

  /** Write the len pages after position p as a list, with its length in front. */
  method WriteRecord(mop: array<Id>, p: nat, len: nat) returns (data: seq<Id>)
    requires p + len < mop.Length && len <= ID_MAX
    modifies mop
    ensures mop[..] == old(mop[..]) && data == [len] + mop[..][p + 1..p + len + 1]
  {
    ghost var w := mop[..];
    var save := mop[p];
    mop[p] := len;
    data := mop[p..p + len + 1];
    assert data == [len] + w[p + 1..p + len + 1];
    mop[p] := save;
    assert mop[..] == w;
  }

  /** The last loop of `mdb_freelist_save`: cut me_pghead into the reserved records.  Each record
      is written straight from the array: the list's length goes, for a moment, into the element
      before its first page. */
  method Fill(mop: array<Id>, rooms: seq<nat>) returns (lists: seq<seq<Id>>)
    requires IsList(mop[..]) && Count(mop[..]) <= Sum(rooms)
    modifies mop
    ensures mop[..] == old(mop[..])
    ensures |lists| <= |rooms| && Stacked(lists) == Ids(mop[..])
    ensures forall i | 0 <= i < |lists| :: |lists[i]| <= rooms[i]
    ensures forall i | 0 <= i < |lists| :: Sum(rooms[..i]) < Count(mop[..])
  {
    ghost var w, s := mop[..], Ids(mop[..]);
    CutStart(s, rooms);
    lists := [];
    var mopLen: nat := mop[0];
    var p: nat := mopLen;
    var i := 0;
    while i < |rooms| && mopLen > 0
      invariant 0 <= i == |lists| <= |rooms| && p == mopLen <= Count(w) && mop[..] == w
      invariant Cutting(s, rooms, lists, mopLen)
    {
      hide Cutting, Ids;
      var len := if rooms[i] > mopLen then mopLen else rooms[i];
      p := p - len;
      var data := WriteRecord(mop, p, len);
      SliceShift(w, p, p + len);
      CutStep(s, rooms, lists, mopLen, len);
      lists := lists + [data[1..]];
      mopLen := mopLen - len;
      i := i + 1;
    }
    CutEnd(s, rooms, lists, mopLen);
  }

  // ---------------------------------------------------------------- the rounds of the save

  /** The protocol's writer has the pages still, when only records up to me_pglast, or of this transaction, changed. */
  lemma TwinMoved(txn: Txn, freed: seq<Id>, db: seq<Record>, db0: seq<Record>)
    requires TwinOf(txn.w, txn.t, txn.next, txn.pglast, txn.used, txn.head, txn.loose, freed)
    requires RecordsMatch(txn.w.base.free, db, txn.pglast, txn.t) && txn.pgoldest <= txn.lim
    requires txn.pglast > 0 ==> txn.pglast < txn.lim
    requires SameAbove(db0, db, txn.pglast, txn.t) && SameAbove(db0, txn.db, txn.pglast, txn.t)
    requires multiset(freed) == multiset(txn.freed)
    ensures txn.Twin()
  {
    hide TwinOf, RecordsMatch, SameAbove;
    MatchStill(txn.w.base.free, db0, db, txn.db, txn.pglast, txn.t);
    SameMembers(freed, txn.freed);
    SameMembers(txn.freed, freed);
    assert Moves.SetOf(freed) == Moves.SetOf(txn.freed);
    TwinIf(txn.w, txn.t, txn.next, txn.pglast, txn.used, txn.head, txn.loose, freed);
    TwinIf(txn.w, txn.t, txn.next, txn.pglast, txn.used, txn.head, txn.loose, txn.freed);
  }

  /** Delete the records that were consumed, and those reserved so far. */
  method DeleteConsumed(ps: B.PageSize, all: Databases, ghost db0: seq<Record>, script: seq<seq<FreeWrite>>, step0: nat, scan: Txnid,
                        pglast0: Txnid, headId0: Txnid, ghost freecnt: nat, headRoom0: int, totalRoom0: int)
    returns (rc: Outcome, step: nat, pglast: Txnid, headId: Txnid, headRoom: int, totalRoom: int, ghost why: Why)
    requires Saving(all.txn, db0, pglast0, headId0, freecnt, headRoom0, totalRoom0) && all.Bounded(scan) && step0 <= |script|
    requires Ready(ps, all)
    modifies all`dbs, all.txn
    ensures Others(old(all.dbs), old(all.txn.dirty), all.dbs, all.txn.dirty) && (rc == Ok ==> Ready(ps, all))
    ensures rc != Ok ==> Failed(ps, all.txn, old(all.dbs), old(all.txn.dirty), script, scan, rc, why)
    ensures Moves.Leads(old(all.txn.w), all.txn.w, all.txn.lim) && all.txn.Quota() <= old(all.txn.Quota())
    ensures all.Valid() && all.txn.Valid() && step0 <= step <= |script| && old(all.txn.freed) <= all.txn.freed
    ensures rc == Ok ==> Saving(all.txn, db0, pglast, headId, freecnt, headRoom, totalRoom) && pglast == all.txn.pglast
    ensures step == step0 ==> rc == Ok && all.txn.pglast == old(all.txn.pglast) && all.txn.freed == old(all.txn.freed)
                              && all.txn.head == old(all.txn.head) && all.txn.loose == old(all.txn.loose)
    ensures step == step0 && pglast0 == old(all.txn.pglast) ==>
              pglast == pglast0 && headId == headId0 && headRoom == headRoom0 && totalRoom == totalRoom0
  {
    hide Ready, Others, BooksOf, Advances, Failed, Owns, Kept, Moves.Leads, Conserved, Listed;
    var txn := all.txn;
    OthersSame(all.dbs, all.txn.dirty);
    Moves.LeadsSelf(txn.w, txn.lim);
    rc, step, pglast, headId, headRoom, totalRoom := Ok, step0, pglast0, headId0, headRoom0, totalRoom0;
    why := Why(Remove([]), [], {});
    while pglast < txn.pglast
      invariant Moves.Leads(old(all.txn.w), all.txn.w, all.txn.lim) && all.txn.Quota() <= old(all.txn.Quota())
      invariant Ready(ps, all) && Others(old(all.dbs), old(all.txn.dirty), all.dbs, all.txn.dirty)
      invariant Saving(txn, db0, pglast, headId, freecnt, headRoom, totalRoom)
      invariant step0 <= step <= |script| && old(txn.freed) <= txn.freed && rc == Ok
      invariant step == step0 ==> txn.pglast == old(txn.pglast) && txn.freed == old(txn.freed)
                                  && txn.head == old(txn.head) && txn.loose == old(txn.loose)
      invariant step == step0 && pglast0 == old(txn.pglast) ==>
                  pglast == pglast0 && headId == headId0 && headRoom == headRoom0 && totalRoom == totalRoom0
      decreases |script| - step, |txn.db|
    {
      ghost var dbs, dirty, v := all.dbs, all.txn.dirty, txn.w;
      rc, step, pglast, why := DeleteFirst(ps, all, db0, script, step, scan, pglast, headId, freecnt, headRoom, totalRoom);
      Moves.LeadsOn(old(txn.w), v, txn.w, txn.lim);
      OthersTwice(old(all.dbs), old(all.txn.dirty), dbs, dirty, all.dbs, all.txn.dirty);
      FailedLater(ps, txn, old(all.dbs), old(all.txn.dirty), dbs, dirty, script, scan, rc, why);
      if rc != Ok {
        return;
      }
      headId, headRoom, totalRoom := pglast, 0, 0;
    }
    ReadyParts(ps, all);
  }

  /** The first record goes; it was consumed, or reserved. */
  method DropFirst(txn: Txn, ghost db0: seq<Record>, ghost pglast0: Txnid, ghost headId: Txnid, ghost freecnt: nat,
                   ghost headRoom: int, ghost totalRoom: int) returns (pglast: Txnid)
    requires Saving(txn, db0, pglast0, headId, freecnt, headRoom, totalRoom) && pglast0 < txn.pglast
    modifies txn`db
    ensures Saving(txn, db0, pglast, pglast, freecnt, 0, 0) && |txn.db| < |old(txn.db)|
  {
    hide Conserved, Listed, Reserved, OwnSaved, SameAbove, Low;
    FirstDeleted(txn.db, txn.pglast, txn.t);
    AfterDelete(db0, txn.db, txn.pglast, txn.t, txn.freed[..freecnt]);
    pglast := txn.db[0].id;
    txn.db := txn.db[1..];
  }

  method DeleteFirst(ps: B.PageSize, all: Databases, ghost db0: seq<Record>, script: seq<seq<FreeWrite>>, step0: nat, scan: Txnid,
                     ghost pglast0: Txnid, ghost headId: Txnid, ghost freecnt: nat, ghost headRoom: int, ghost totalRoom: int)
    returns (rc: Outcome, step: nat, pglast: Txnid, ghost why: Why)
    requires Saving(all.txn, db0, pglast0, headId, freecnt, headRoom, totalRoom) && all.Bounded(scan) && step0 <= |script|
    requires pglast0 < all.txn.pglast
    requires Ready(ps, all)
    modifies all`dbs, all.txn
    ensures Others(old(all.dbs), old(all.txn.dirty), all.dbs, all.txn.dirty) && (rc == Ok ==> Ready(ps, all))
    ensures rc != Ok ==> Failed(ps, all.txn, old(all.dbs), old(all.txn.dirty), script, scan, rc, why)
    ensures Moves.Leads(old(all.txn.w), all.txn.w, all.txn.lim) && all.txn.Quota() <= old(all.txn.Quota())
    ensures all.Valid() && all.txn.Valid() && step0 <= step <= |script| && old(all.txn.freed) <= all.txn.freed
    ensures rc == Ok ==> Saving(all.txn, db0, pglast, pglast, freecnt, 0, 0)
    ensures step == step0 ==> rc == Ok && all.txn.pglast == old(all.txn.pglast) && all.txn.freed == old(all.txn.freed)
                              && all.txn.head == old(all.txn.head) && all.txn.loose == old(all.txn.loose) && |all.txn.db| < |old(all.txn.db)|
  {
    hide *;
    var txn := all.txn;
    pglast := 0;
    ghost var last, freed, loose, records, v := txn.pglast, txn.freed, txn.loose, txn.db, txn.w;
    SavingParts(txn, db0, pglast0, headId, freecnt, headRoom, totalRoom);
    rc, step, why := Churn(ps, all, script, step0, scan);
    MovedSaving(txn, db0, pglast0, headId, freecnt, headRoom, totalRoom, last, freed, loose, records, v);
    MovedParts(txn, last, freed, loose, records, v);
    if rc != Ok {
      return;
    }
    ReadyParts(ps, all);
    txn.TwinLimits();
    SavingParts(txn, db0, pglast0, headId, freecnt, headRoom, totalRoom);
    ghost var records1 := txn.db;
    pglast := DropFirst(txn, db0, pglast0, headId, freecnt, headRoom, totalRoom);
    SavingParts(txn, db0, pglast, pglast, freecnt, 0, 0);
    TwinMoved(txn, txn.freed, records1, db0);
    ReadyNow(ps, all);
  }

  /** Save the pages this transaction freed, in one record: again while writing it frees more. */
  method SaveOwn(ps: B.PageSize, all: Databases, ghost db0: seq<Record>, script: seq<seq<FreeWrite>>, step0: nat, scan: Txnid,
                 ghost pglast: Txnid, ghost headId: Txnid, freecnt0: nat, ghost headRoom: int, ghost totalRoom: int)
    returns (rc: Outcome, step: nat, freecnt: nat, ghost why: Why)
    requires Saving(all.txn, db0, pglast, headId, freecnt0, headRoom, totalRoom) && all.Bounded(scan) && step0 <= |script|
    requires freecnt0 < |all.txn.freed|
    requires Ready(ps, all)
    modifies all`dbs, all.txn
    ensures Others(old(all.dbs), old(all.txn.dirty), all.dbs, all.txn.dirty) && (rc == Ok ==> Ready(ps, all))
    ensures rc != Ok ==> Failed(ps, all.txn, old(all.dbs), old(all.txn.dirty), script, scan, rc, why)
    ensures Moves.Leads(old(all.txn.w), all.txn.w, all.txn.lim) && all.txn.Quota() <= old(all.txn.Quota())
    ensures all.Valid() && all.txn.Valid() && step0 <= step <= |script|
    ensures rc == Ok ==> Saving(all.txn, db0, pglast, headId, freecnt, headRoom, totalRoom) && freecnt == |all.txn.freed|
    ensures rc == Ok ==> Falling(all.txn.freed)
    ensures step == step0 ==> rc == Ok && all.txn.pglast == old(all.txn.pglast) && |all.txn.freed| == |old(all.txn.freed)|
                              && all.txn.head == old(all.txn.head) && all.txn.loose == old(all.txn.loose)
  {
    hide *;
    var txn := all.txn;
    rc, step, freecnt, why := Ok, step0, freecnt0, Why(Remove([]), [], {});
    OthersSame(all.dbs, all.txn.dirty);
    Moves.LeadsSelf(txn.w, txn.lim);
    SavingParts(txn, db0, pglast, headId, freecnt0, headRoom, totalRoom);
    if freecnt == 0 {
      ghost var last, freed, loose, records, v := txn.pglast, txn.freed, txn.loose, txn.db, txn.w;
      rc, step, why := Churn(ps, all, script, step, scan);
      MovedSaving(txn, db0, pglast, headId, freecnt0, headRoom, totalRoom, last, freed, loose, records, v);
      MovedParts(txn, last, freed, loose, records, v);
      if rc != Ok {
        return;
      }
    }
    while freecnt < |txn.freed|
      invariant Moves.Leads(old(all.txn.w), all.txn.w, all.txn.lim) && all.txn.Quota() <= old(all.txn.Quota())
      invariant Ready(ps, all) && Others(old(all.dbs), old(all.txn.dirty), all.dbs, all.txn.dirty)
      invariant Saving(txn, db0, pglast, headId, freecnt0, headRoom, totalRoom)
      invariant step0 <= step <= |script| && rc == Ok && freecnt <= |txn.freed| && |txn.freed| > 0
      invariant step == step0 ==> txn.pglast == old(txn.pglast) && txn.freed == old(txn.freed)
                                  && txn.head == old(txn.head) && txn.loose == old(txn.loose)
      decreases |script| - step, |txn.freed| - freecnt
    {
      freecnt := |txn.freed|;
      ghost var dbs, dirty := all.dbs, all.txn.dirty;
      ghost var last, freed, loose, records, v := txn.pglast, txn.freed, txn.loose, txn.db, txn.w;
      SavingParts(txn, db0, pglast, headId, freecnt0, headRoom, totalRoom);
      rc, step, why := Churn(ps, all, script, step, scan);
      OthersTwice(old(all.dbs), old(all.txn.dirty), dbs, dirty, all.dbs, all.txn.dirty);
      FailedLater(ps, txn, old(all.dbs), old(all.txn.dirty), dbs, dirty, script, scan, rc, why);
      MovedSaving(txn, db0, pglast, headId, freecnt0, headRoom, totalRoom, last, freed, loose, records, v);
      MovedParts(txn, last, freed, loose, records, v);
      Moves.LeadsOn(old(txn.w), v, txn.w, txn.lim);
      if rc != Ok {
        return;
      }
    }
    ReadyParts(ps, all);
    txn.TwinLimits();
    SavingParts(txn, db0, pglast, headId, freecnt0, headRoom, totalRoom);
    ghost var freed1, records1 := txn.freed, txn.db;
    WriteOwn(txn, db0, pglast, headId, freecnt0, headRoom, totalRoom);
    SavingParts(txn, db0, pglast, headId, |txn.freed|, headRoom, totalRoom);
    TwinMoved(txn, freed1, records1, db0);
    ReadyNow(ps, all);
  }

  /** Sort the freed pages and write them to the record of this transaction. */
  method WriteOwn(txn: Txn, ghost db0: seq<Record>, ghost pglast: Txnid, ghost headId: Txnid, ghost freecnt: nat,
                  ghost headRoom: int, ghost totalRoom: int)
    requires Saving(txn, db0, pglast, headId, freecnt, headRoom, totalRoom) && |txn.freed| > 0
    modifies txn`freed, txn`db
    ensures Saving(txn, db0, pglast, headId, |txn.freed|, headRoom, totalRoom) && Falling(txn.freed)
    ensures txn.pglast == old(txn.pglast) && |txn.freed| == |old(txn.freed)|
    ensures txn.head == old(txn.head) && txn.loose == old(txn.loose) && multiset(txn.freed) == multiset(old(txn.freed))
  {
    hide Conserved, Listed, Rounds, Ascending, Strict, Falling;
    SortDownIs(txn.freed);
    var pages := SortDown(txn.freed);
    FreedSorted(txn.used, txn.loose, txn.head, txn.freed, Listed(txn.db, txn.pglast, txn.t), txn.next);
    var r := Record(txn.t, |pages|, pages);
    TxnRecords(txn);
    OwnWritten(txn.db, r, txn.pglast, txn.t, txn.freed, txn.loose, db0, pglast, headId, freecnt, headRoom, totalRoom);
    txn.freed, txn.db := pages, PutLast(txn.db, r);
  }

  /** Write, or write again, the record reserved for me_pghead at key headId. */
  method Reserve(ps: B.PageSize, all: Databases, ghost db0: seq<Record>, script: seq<seq<FreeWrite>>, step0: nat, scan: Txnid,
                 ghost pglast: Txnid, headId: Txnid, ghost freecnt: nat, headRoom0: int, totalRoom0: int, mopLen: nat)
    returns (rc: Outcome, step: nat, headRoom: int, totalRoom: int, ghost why: Why)
    requires Saving(all.txn, db0, pglast, headId, freecnt, headRoom0, totalRoom0) && all.Bounded(scan) && step0 <= |script|
    requires headId > 0 && pglast == all.txn.pglast
    requires Ready(ps, all)
    modifies all`dbs, all.txn
    ensures Others(old(all.dbs), old(all.txn.dirty), all.dbs, all.txn.dirty) && (rc == Ok ==> Ready(ps, all))
    ensures rc != Ok ==> Failed(ps, all.txn, old(all.dbs), old(all.txn.dirty), script, scan, rc, why)
    ensures Moves.Leads(old(all.txn.w), all.txn.w, all.txn.lim) && all.txn.Quota() <= old(all.txn.Quota())
    ensures all.Valid() && all.txn.Valid() && step0 <= step <= |script|
    ensures rc == Ok ==> Saving(all.txn, db0, pglast, headId, freecnt, headRoom, totalRoom)
    ensures rc == Ok ==> totalRoom == totalRoom0 - headRoom0 + headRoom
    ensures rc == Ok ==>
              var need := mopLen - (totalRoom0 - headRoom0);
              if need > all.txn.maxFree1Pg && headId > 1 then
                && (headRoom + 1) % (all.txn.maxFree1Pg + 1) == 0 && headRoom >= all.txn.maxFree1Pg
                && need / headId <= headRoom <= need / headId + all.txn.maxFree1Pg
              else headRoom == if need < 0 then 0 else need
    ensures step == step0 ==> rc == Ok && all.txn.pglast == old(all.txn.pglast) && all.txn.freed == old(all.txn.freed)
                              && all.txn.head == old(all.txn.head) && all.txn.loose == old(all.txn.loose)
  {
    hide *;
    var txn := all.txn;
    totalRoom := totalRoom0 - headRoom0;
    headRoom := HeadRoom(mopLen - totalRoom, headId, txn.maxFree1Pg);
    ghost var last, freed, loose, records, v := txn.pglast, txn.freed, txn.loose, txn.db, txn.w;
    SavingParts(txn, db0, pglast, headId, freecnt, headRoom0, totalRoom0);
    rc, step, why := Churn(ps, all, script, step0, scan);
    MovedSaving(txn, db0, pglast, headId, freecnt, headRoom0, totalRoom0, last, freed, loose, records, v);
    MovedParts(txn, last, freed, loose, records, v);
    if rc != Ok {
      return;
    }
    ReadyParts(ps, all);
    txn.TwinLimits();
    SavingParts(txn, db0, pglast, headId, freecnt, headRoom0, totalRoom0);
    ghost var records1 := txn.db;
    WriteHead(txn, db0, pglast, headId, freecnt, headRoom0, totalRoom0, headRoom);
    totalRoom := totalRoom + headRoom;
    SavingParts(txn, db0, pglast, headId, freecnt, headRoom, totalRoom);
    TwinMoved(txn, txn.freed, records1, db0);
    ReadyNow(ps, all);
    ghost var dbs, dirty := all.dbs, all.txn.dirty;
    last, freed, loose, records, v := txn.pglast, txn.freed, txn.loose, txn.db, txn.w;
    rc, step, why := Churn(ps, all, script, step, scan);
    OthersTwice(old(all.dbs), old(all.txn.dirty), dbs, dirty, all.dbs, all.txn.dirty);
    FailedLater(ps, txn, old(all.dbs), old(all.txn.dirty), dbs, dirty, script, scan, rc, why);
    MovedSaving(txn, db0, pglast, headId, freecnt, headRoom, totalRoom, last, freed, loose, records, v);
    MovedParts(txn, last, freed, loose, records, v);
    Moves.LeadsOn(old(txn.w), v, txn.w, txn.lim);
  }

  /** The length of the record: what is still missing, or a part of it that fills whole pages. */
  function HeadRoom(need: int, headId: Txnid, maxFree1Pg: nat): (r: int)
    requires headId > 0
    ensures r >= 0
    ensures if need > maxFree1Pg && headId > 1 then
              (r + 1) % (maxFree1Pg + 1) == 0 && r >= maxFree1Pg && need / headId <= r <= need / headId + maxFree1Pg
            else r == if need < 0 then 0 else need
  {
    if need > maxFree1Pg && headId > 1 then
      var part := need / headId;
      Share(need, headId);
      WholePages(part, maxFree1Pg);
      part + (maxFree1Pg - part % (maxFree1Pg + 1))
    else if need < 0 then 0
    else need
  }

  lemma Share(need: nat, headId: Txnid)
    requires headId > 0
    ensures need / headId >= 0
  {}

  /** Up to the next multiple of a page. */
  lemma WholePages(part: nat, m: nat)
    ensures var r := part + (m - part % (m + 1)); part <= r <= part + m && r >= m && (r + 1) % (m + 1) == 0
  {
    var k := m + 1;
    var q := part / k;
    assert part == k * q + part % k;
    assert k * (q + 1) == k * q + k;
    var x := k * (q + 1);
    NumberedDb.Quotient(x, k, q + 1, 0);
    assert x == k * (x / k) + x % k;
  }

  method WriteHead(txn: Txn, ghost db0: seq<Record>, ghost pglast: Txnid, headId: Txnid, ghost freecnt: nat,
                   ghost headRoom0: int, ghost totalRoom0: int, headRoom: int)
    requires Saving(txn, db0, pglast, headId, freecnt, headRoom0, totalRoom0) && headId > 0 && headRoom >= 0
    modifies txn`db
    ensures Saving(txn, db0, pglast, headId, freecnt, headRoom, totalRoom0 - headRoom0 + headRoom)
  {
    hide Conserved, Listed, Rounds, Ascending, Strict;
    var r := Record(headId, headRoom, []);
    TxnRecords(txn);
    HeadWritten(txn.db, r, txn.pglast, txn.t, txn.freed, txn.loose, db0, pglast, headId, freecnt, headRoom0, totalRoom0);
    txn.db := WrittenRecords.PutFirst(txn.db, r);
  }

  // ---------------------------------------------------------------- the end of the save

  /** The pages of the loose list go to me_pghead. */
  method ReturnLoose(txn: Txn)
    requires txn.Valid() && (txn.loose != [] ==> txn.pglast > 0) && txn.Twin()
    modifies txn`loose, txn`head, txn`w
    ensures txn.Twin() && Moves.Leads(old(txn.w), txn.w, txn.lim) && txn.w.dirty == old(txn.w.dirty)
    ensures txn.Valid() && txn.loose == [] && |txn.head| == |old(txn.head)| + |old(txn.loose)|
    ensures old(txn.loose) == [] ==> txn.head == old(txn.head)
  {
    hide Conserved, Listed, MergeDown, Moves.Leads, RecordsMatch;
    Moves.LeadsSelf(txn.w, txn.lim);
    if txn.loose != [] {
      Moves.LeadsStep(txn.w, M.LooseToHead, txn.lim);
      MergedSet(txn.head, txn.loose);
      txn.w := M.Moved(txn.w, M.LooseToHead);
      StrictFalling(txn.head);
      LooseMerged(txn.used, txn.loose, txn.head, txn.freed, Listed(txn.db, txn.pglast, txn.t), txn.next);
      txn.head := MergeDown(txn.head, SortDown(txn.loose));
      txn.loose := [];
    }
  }

  /** What the commit leaves: every page of the file but the meta pages is in a tree or overflow run,
      or in one freeDB record, and in one place only; every list is strictly descending. */
  ghost predicate Saved(txn: Txn, db0: seq<Record>)
    reads txn
  {
    && 2 <= txn.next <= ID_MAX
    && txn.used + Listed(txn.db, 0, txn.t + 1) == FilePages(txn.next)
    && Records(txn.db, txn.t)
    // records not consumed are as they were
    && SameAbove(db0, txn.db, txn.pglast, txn.t)
    // me_pghead is cut into the records up to me_pglast
    && (exists lists: seq<seq<Id>> :: Stacked(lists) == txn.head && CutInto(txn.db, txn.pglast, lists))
    // the pages freed are in the record of this transaction
    && OwnSaved(txn.db, txn.t, txn.freed)
  }

  /** All records: those up to me_pglast, those after it, and this transaction's own. */
  lemma AllListed(db: seq<Record>, last: Txnid, t: Txnid, pages: seq<Id>)
    requires Records(db, t) && last < t && OwnSaved(db, t, pages)
    ensures var c := Low(db, last);
            Listed(db, 0, t + 1) == Listed(db[..c], 0, last + 1) + Listed(db, last, t) + multiset(pages)
  {
    hide Listed, Part, Low, Strict;
    LowFacts(db, last);
    var c := Low(db, last);
    var n := if pages == [] then |db| else |db| - 1;
    var a, b, o := db[..c], db[c..n], db[n..];
    MiddleIds(db, last, t, pages, c, n);
    assert db == a + b + o;
    ThreeListed(a, b, o, last, t, pages);
  }

  /** me_pghead is cut into the reserved records, which have room for it. */
  method FillRecords(txn: Txn, ghost db0: seq<Record>, ghost headId: Txnid, ghost headRoom: int, ghost totalRoom: int)
    requires Saving(txn, db0, txn.pglast, headId, |txn.freed|, headRoom, totalRoom) && txn.loose == []
    requires totalRoom >= |txn.head| && |txn.head| < ID_MAX
    modifies txn`db
    ensures Saved(txn, db0) && txn.Valid()
  {
    hide Conserved, Listed, Strict, Ascending, Low, Sum, Stacked, Rooms;
    var mop := new Id[|txn.head| + 1](k requires 0 <= k <= |txn.head| reads txn => if k == 0 then |txn.head| else txn.head[k - 1]);
    assert Ids(mop[..]) == txn.head;
    ghost var db, c := txn.db, Low(txn.db, txn.pglast);
    LowFacts(db, txn.pglast);
    RoomListSum(db, c);
    SumGrows(RoomList(db), c);
    var lists := Fill(mop, RoomList(txn.db));
    ListsWithin(RoomList(db), lists, c, |txn.head|);
    txn.db := Filled(txn.db, lists);
    FilledSaved(db, lists, txn.head, txn.pglast, txn.t, txn.freed, db0, headId, headRoom, totalRoom);
    assert txn.freed[..|txn.freed|] == txn.freed;
    FinalSum(txn.used, txn.head, txn.freed, db, lists, txn.pglast, txn.t, txn.next, headId, headRoom, totalRoom);
  }

  /** Every page is counted once in the records and trees. */
  lemma FinalSum(used: multiset<Id>, head: seq<Id>, freed: seq<Id>, db: seq<Record>, lists: seq<seq<Id>>,
                 last: Txnid, t: Txnid, next: nat, headId: Txnid, headRoom: int, totalRoom: int)
    requires Conserved(used, [], head, freed, Listed(db, last, t), next) && Records(db, t) && last < t
    requires Reserved(db, last, headId, headRoom, totalRoom)
    requires |lists| <= Low(db, last) && Stacked(lists) == head && Low(Filled(db, lists), last) == Low(db, last)
    requires OwnSaved(Filled(db, lists), t, freed) && Records(Filled(db, lists), t)
    ensures used + Listed(Filled(db, lists), 0, t + 1) == FilePages(next)
    ensures Conserved(used, [], head, freed, Listed(Filled(db, lists), last, t), next)
  {
    hide Listed, Low, Strict, Stacked, Rooms, Ascending, Conserved;
    LowFacts(db, last);
    var f, c := Filled(db, lists), Low(db, last);
    AllListed(f, last, t, freed);
    FilledAbove(db, lists, c, last, t);
    FilledListed(db[..c], lists, last + 1);
    TotalIs(used, head, freed, Listed(db, last, t), next);
  }

  // ---------------------------------------------------------------- the save

  /** What a round gains when the freeDB's pages no longer change. */
  ghost function Phase(mopLen: nat, headRoom: int, totalRoom: int, maxFree1Pg: nat): nat {
    if totalRoom >= mopLen then 0 else if headRoom >= maxFree1Pg then 1 else 2
  }

  lemma RoomOnPage(txn: Txn)
    requires txn.Valid()
    ensures txn.maxFree1Pg > 0
  {
    hide Conserved, Listed;
  }

  lemma PhaseIs(mopLen: nat, headRoom: int, totalRoom: int, maxFree1Pg: nat)
    ensures Phase(mopLen, headRoom, totalRoom, maxFree1Pg)
            == if totalRoom >= mopLen then 0 else if headRoom >= maxFree1Pg then 1 else 2
  {}

  /** Without me_pghead the loose pages are freed. */
  method FreeLoose(txn: Txn)
    requires txn.Valid() && txn.Twin()
    modifies txn`loose, txn`freed, txn`dirty, txn`w
    ensures txn.Twin() && Moves.Leads(old(txn.w), txn.w, txn.lim) && txn.w.dirty == old(txn.w.dirty)
    ensures txn.Valid() && txn.loose == [] && txn.freed == old(txn.freed + txn.loose)
    ensures txn.dirty == (set p | p in old(txn.dirty) && p !in old(txn.loose)) && txn.Quota() <= old(txn.Quota())
  {
    hide Conserved, Listed, Moves.Leads, RecordsMatch;
    Moves.LeadsStep(txn.w, M.LooseToFreed, txn.lim);
    assert Moves.SetOf(txn.freed + txn.loose) == Moves.SetOf(txn.freed) + Moves.SetOf(txn.loose);
    txn.w := M.Moved(txn.w, M.LooseToFreed);
    LooseFreed(txn.used, txn.loose, txn.head, txn.freed, Listed(txn.db, txn.pglast, txn.t), txn.next);
    txn.freed := txn.freed + txn.loose;
    FewerMarks(txn.dirty, set p | p in txn.dirty && p !in txn.loose);
    txn.dirty := set p | p in txn.dirty && p !in txn.loose;
    txn.loose := [];
  }

  lemma SaveStart(txn: Txn, db0: seq<Record>)
    requires txn.Valid() && txn.db == db0 && (txn.loose != [] ==> txn.pglast > 0)
    requires (txn.pglast > 0 ==> HasRecord(txn.db, txn.pglast)) && forall i | 0 <= i < |txn.db| :: txn.db[i].id < txn.t
    ensures Saving(txn, db0, 0, 0, 0, 0, 0)
  {
    hide Conserved, Listed;
    assert txn.freed[..0] == [];
    assert txn.db[..0] == [];
  }

  /** The record at hand is full: go on with the key below. */
  lemma NextHead(txn: Txn, db0: seq<Record>, pglast: Txnid, headId: Txnid, freecnt: nat, headRoom: int, totalRoom: int)
    requires Saving(txn, db0, pglast, headId, freecnt, headRoom, totalRoom) && pglast == txn.pglast
    requires headRoom > 0 && headId > 1
    ensures Saving(txn, db0, pglast, headId - 1, freecnt, 0, totalRoom)
  {
    hide Conserved, Listed, OwnSaved, SameAbove, HasRecord;
  }

  /** Where there is something to reserve, there is a key to reserve it under. */
  lemma HeadPositive(txn: Txn, db0: seq<Record>, pglast: Txnid, headId: Txnid, freecnt: nat, headRoom: int, totalRoom: int,
                     mopLen: nat)
    requires Saving(txn, db0, pglast, headId, freecnt, headRoom, totalRoom) && pglast == txn.pglast
    requires mopLen == |txn.head| + |txn.loose| && totalRoom != mopLen
    ensures headId > 0
  {
    hide Conserved, Listed, OwnSaved, SameAbove, HasRecord;
    LowFacts(txn.db, txn.pglast);
  }

  method SaveEnd(txn: Txn, ghost db0: seq<Record>, ghost pglast: Txnid, ghost headId: Txnid, ghost freecnt: nat,
                 ghost headRoom: int, ghost totalRoom: int)
    requires Saving(txn, db0, pglast, headId, freecnt, headRoom, totalRoom)
    requires pglast == txn.pglast && freecnt == |txn.freed| && totalRoom >= |txn.head| + |txn.loose|
    requires txn.Twin()
    modifies txn`loose, txn`head, txn`db, txn`w
    ensures txn.Twin() && Moves.Leads(old(txn.w), txn.w, txn.lim) && txn.w.dirty == old(txn.w.dirty)
    ensures Saved(txn, db0) && txn.loose == [] && txn.Valid()
  {
    hide Conserved, Listed, Reserved, OwnSaved, SameAbove, HasRecord;
    ReturnLoose(txn);
    HeadSize(txn.used, txn.loose, txn.head, txn.freed, Listed(txn.db, txn.pglast, txn.t), txn.next);
    txn.TwinLimits();
    ghost var records := txn.db;
    SavingParts(txn, db0, pglast, headId, freecnt, headRoom, totalRoom);
    FillRecords(txn, db0, headId, headRoom, totalRoom);
    SavedAbove(txn, db0);
    TwinMoved(txn, txn.freed, records, db0);
  }

  lemma SavedAbove(txn: Txn, db0: seq<Record>)
    requires Saved(txn, db0)
    ensures SameAbove(db0, txn.db, txn.pglast, txn.t)
  {
    hide Listed, Stacked, CutInto, OwnSaved, SameAbove, Records;
  }

  lemma TreesNotLoose(all: Databases)
    requires all.Valid()
    ensures forall p | p in BagOf(all.dbs) :: p !in all.txn.loose
  {
    hide BagOf;
    UsedPart(all.txn);
    var both := all.txn.used + multiset(all.txn.loose);
    OnceEach(all.txn.next, both);
    forall p | p in BagOf(all.dbs) ensures p !in all.txn.loose {
      assert p in all.txn.used && p in both;
      assert both[p] == all.txn.used[p] + multiset(all.txn.loose)[p];
      assert p in all.txn.loose <==> p in multiset(all.txn.loose);
    }
  }

  /** Pages that are loose are in no tree. */
  lemma LooseGone(dbs: seq<Option<PageTrees.Tree>>, was: set<nat>, loose: seq<Id>, dirty: set<nat>, own: set<nat>)
    requires dirty == (set p | p in was && p !in loose) && forall p | p in BagOf(dbs) :: p !in loose
    ensures Kept(dbs, was, dbs, dirty) && (Owns(dbs, was, own) ==> Owns(dbs, dirty, own))
  {
    hide HasUnit, BagOf;
    forall d: nat, u | HasUnit(dbs, d, u) && !u.RecordUnit? && u.pgno in was ensures u.pgno in dirty { HasBag(dbs, d, u); }
  }

  lemma OthersKeep(dbs: seq<Option<PageTrees.Tree>>, was: set<nat>, dirty: set<nat>)
    requires Kept(dbs, was, dbs, dirty)
    ensures Others(dbs, was, dbs, dirty)
  {
    hide Kept;
  }

  /** `mdb_freelist_save`: `script` holds what each write to the freeDB does to its pages; the save
      ends for every script. */
  method FreelistSave(ps: B.PageSize, all: Databases, script: seq<seq<FreeWrite>>, scan: Txnid)
    returns (rc: Outcome, ghost why: Why)
    requires all.txn.Valid() && all.Bounded(scan)
    requires forall i | 0 <= i < |all.txn.db| :: all.txn.db[i].id < all.txn.t
    requires all.txn.pglast > 0 ==> HasRecord(all.txn.db, all.txn.pglast)
    requires Ready(ps, all)
    modifies all`dbs, all.txn
    ensures Others(old(all.dbs), old(all.txn.dirty), all.dbs, all.txn.dirty) && (rc == Ok ==> Ready(ps, all))
    ensures rc != Ok ==> Failed(ps, all.txn, old(all.dbs), old(all.txn.dirty), script, scan, rc, why)
    ensures Moves.Leads(old(all.txn.w), all.txn.w, all.txn.lim) && all.txn.Quota() <= old(all.txn.Quota())
    ensures all.Valid()
    ensures rc == Ok ==> Saved(all.txn, old(all.txn.db)) && all.txn.loose == [] && all.txn.Valid()
  {
    hide *;
    var txn := all.txn;
    ghost var db0 := txn.db;
    var step := 0;
    rc, why := Ok, Why(Remove([]), [], {});
    OthersSame(all.dbs, all.txn.dirty);
    RoomOnPage(txn);
    ghost var v := txn.w;
    Moves.LeadsSelf(v, txn.lim);
    if txn.pglast > 0 {
      ghost var last, freed, loose := txn.pglast, txn.freed, txn.loose;
      rc, step, why := Churn(ps, all, script, step, scan);
      MovedParts(txn, last, freed, loose, db0, v);
      if rc != Ok {
        return;
      }
    } else {
      ReadyParts(ps, all);
      txn.TwinLimits();
      TreesNotLoose(all);
      ghost var was, loose := txn.dirty, txn.loose;
      FreeLoose(txn);
      LooseGone(all.dbs, was, loose, txn.dirty, txn.w.dirty);
      OthersKeep(all.dbs, was, txn.dirty);
      ReadyNow(ps, all);
    }
    var pglast: Txnid, headId: Txnid, freecnt: nat := 0, 0, 0;
    var headRoom: int, totalRoom: int, more: int := 0, 0, 1;
    SaveStart(txn, db0);
    while true
      invariant Moves.Leads(old(all.txn.w), all.txn.w, all.txn.lim) && all.txn.Quota() <= old(all.txn.Quota())
      invariant Ready(ps, all) && Others(old(all.dbs), old(all.txn.dirty), all.dbs, all.txn.dirty)
      invariant Saving(txn, db0, pglast, headId, freecnt, headRoom, totalRoom)
      invariant step <= |script| && more >= 0 && freecnt <= |txn.freed| && pglast <= txn.pglast
      decreases |script| - step, txn.pglast - pglast, |txn.freed| - freecnt, more, headId,
                Phase(|txn.head| + |txn.loose|, headRoom, totalRoom, txn.maxFree1Pg)
    {
      ghost var dbs, dirty := all.dbs, all.txn.dirty;
      v := txn.w;
      PhaseIs(|txn.head| + |txn.loose|, headRoom, totalRoom, txn.maxFree1Pg);
      rc, step, pglast, headId, headRoom, totalRoom, why :=
        DeleteConsumed(ps, all, db0, script, step, scan, pglast, headId, freecnt, headRoom, totalRoom);
      Moves.LeadsOn(old(txn.w), v, txn.w, txn.lim);
      OthersTwice(old(all.dbs), old(all.txn.dirty), dbs, dirty, all.dbs, all.txn.dirty);
      FailedLater(ps, txn, old(all.dbs), old(all.txn.dirty), dbs, dirty, script, scan, rc, why);
      if rc != Ok {
        return;
      }
      SavingParts(txn, db0, pglast, headId, freecnt, headRoom, totalRoom);
      dbs, dirty, v := all.dbs, all.txn.dirty, txn.w;
      if freecnt < |txn.freed| {
        rc, step, freecnt, why := SaveOwn(ps, all, db0, script, step, scan, pglast, headId, freecnt, headRoom, totalRoom);
        Moves.LeadsOn(old(txn.w), v, txn.w, txn.lim);
        OthersTwice(old(all.dbs), old(all.txn.dirty), dbs, dirty, all.dbs, all.txn.dirty);
        FailedLater(ps, txn, old(all.dbs), old(all.txn.dirty), dbs, dirty, script, scan, rc, why);
        if rc != Ok {
          return;
        }
        SavingParts(txn, db0, pglast, headId, freecnt, headRoom, totalRoom);
        continue;
      }
      var mopLen := |txn.head| + |txn.loose|;
      if totalRoom >= mopLen {
        if totalRoom == mopLen {
          break;
        }
        more := more - 1;
        if more < 0 {
          break;
        }
      } else if headRoom >= txn.maxFree1Pg && headId > 1 {
        NextHead(txn, db0, pglast, headId, freecnt, headRoom, totalRoom);
        headId, headRoom := headId - 1, 0;
      }
      HeadPositive(txn, db0, pglast, headId, freecnt, headRoom, totalRoom, mopLen);
      rc, step, headRoom, totalRoom, why :=
        Reserve(ps, all, db0, script, step, scan, pglast, headId, freecnt, headRoom, totalRoom, mopLen);
      Moves.LeadsOn(old(txn.w), v, txn.w, txn.lim);
      OthersTwice(old(all.dbs), old(all.txn.dirty), dbs, dirty, all.dbs, all.txn.dirty);
      FailedLater(ps, txn, old(all.dbs), old(all.txn.dirty), dbs, dirty, script, scan, rc, why);
      if rc != Ok {
        return;
      }
      SavingParts(txn, db0, pglast, headId, freecnt, headRoom, totalRoom);
      PhaseIs(|txn.head| + |txn.loose|, headRoom, totalRoom, txn.maxFree1Pg);
    }
    ReadyParts(ps, all);
    v := txn.w;
    SaveEnd(txn, db0, pglast, headId, freecnt, headRoom, totalRoom);
    Moves.LeadsOn(old(txn.w), v, txn.w, txn.lim);
    ReadyNow(ps, all);
  }
}
