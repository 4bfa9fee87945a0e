/** Where a write transaction's pages come from and go to (mdb_page_alloc, mdb_page_touch,
    mdb_page_loose, mdb_ovpage_free, mdb.c), and that none is lost or used twice.

    The lists are held as values here; `PageLists` has them in place, in arrays. */
module TxnPages {
  import opened IdSort
  import opened IdLists
  import opened PageLists
  import Moves = PageMoves
  import M = Mvcc
  import Seqs

  type Txnid = nat

  datatype Rc = Success | MapFull | TxnFull

  /** A freeDB record: its key, the page numbers its data has room for, and the pages in it. */
  datatype Record = Record(id: Txnid, room: nat, pages: seq<Id>)

  /** Keys ascend, as in every database. */
  ghost predicate Ascending(db: seq<Record>) {
    forall i, j | 0 <= i < j < |db| :: db[i].id < db[j].id
  }

  /** The pages in records with keys between lo and hi, both excluded. */
  ghost function Listed(db: seq<Record>, lo: Txnid, hi: Txnid): multiset<Id> {
    if db == [] then multiset{} else Part(db[0], lo, hi) + Listed(db[1..], lo, hi)
  }

  ghost function Part(r: Record, lo: Txnid, hi: Txnid): multiset<Id> {
    if lo < r.id < hi then multiset(r.pages) else multiset{}
  }

  lemma {:induction false} ListedNone(db: seq<Record>, lo: Txnid, hi: Txnid)
    requires forall i | 0 <= i < |db| :: !(lo < db[i].id < hi)
    ensures Listed(db, lo, hi) == multiset{}
  {
    if db != [] { ListedNone(db[1..], lo, hi); }
  }

  lemma ListedCons(r: Record, db: seq<Record>, lo: Txnid, hi: Txnid)
    ensures Listed([r] + db, lo, hi) == Part(r, lo, hi) + Listed(db, lo, hi)
  {
    hide Part;
    assert ([r] + db)[1..] == db;
  }

  lemma SplitFirst(a: seq<Record>, b: seq<Record>)
    requires a != []
    ensures a == [a[0]] + a[1..] && a + b == [a[0]] + (a[1..] + b)
  {}

  lemma {:induction false} ListedAppend(a: seq<Record>, b: seq<Record>, lo: Txnid, hi: Txnid)
    ensures Listed(a + b, lo, hi) == Listed(a, lo, hi) + Listed(b, lo, hi)
    decreases |a|
  {
    if a == [] {
      assert a + b == b;
    } else {
      hide Part, Listed;
      var r, s := a[0], a[1..];
      ListedAppend(s, b, lo, hi);
      SplitFirst(a, b);
      ListedCons(r, s, lo, hi);
      ListedCons(r, s + b, lo, hi);
      Seqs.BagAssoc(Part(r, lo, hi), Listed(s, lo, hi), Listed(b, lo, hi));
    }
  }

  /** Only the keys that are there matter. */
  lemma {:induction false} ListedSame(db: seq<Record>, lo: Txnid, lo': Txnid, hi: Txnid, hi': Txnid)
    requires forall i | 0 <= i < |db| :: (lo < db[i].id < hi <==> lo' < db[i].id < hi')
    ensures Listed(db, lo, hi) == Listed(db, lo', hi')
  {
    if db != [] { ListedSame(db[1..], lo, lo', hi, hi'); }
  }

  /** Taking the next record moves its pages out of the unconsumed ones. */
  lemma ListedTake(db: seq<Record>, i: nat, lo: Txnid, hi: Txnid)
    requires Ascending(db) && i < |db| && lo < db[i].id < hi && forall j | 0 <= j < i :: db[j].id <= lo
    ensures Listed(db, lo, hi) == multiset(db[i].pages) + Listed(db, db[i].id, hi)
  {
    var a, r, b := db[..i], db[i], db[i + 1..];
    assert db == a + ([r] + b);
    ListedAppend(a, [r] + b, lo, hi);
    ListedAppend(a, [r] + b, r.id, hi);
    ListedAppend([r], b, lo, hi);
    ListedAppend([r], b, r.id, hi);
    ListedNone(a, lo, hi);
    ListedNone(a, r.id, hi);
    ListedSame(b, lo, r.id, hi, hi);
    assert [r][1..] == [];
  }

  /** The pages 2 .. next - 1, all of the file but the meta pages. */
  ghost function FilePages(next: nat): multiset<Id>
    requires 2 <= next <= ID_MAX
  {
    multiset(Pages(2, next - 2))
  }

  lemma PagesJoin(pg: nat, n: nat, m: nat)
    requires pg + n + m <= ID_MAX
    ensures Pages(pg, n + m) == Pages(pg + n, m) + Pages(pg, n)
  {}

  /** No page appears twice. */
  lemma {:induction false} PagesOnce(pg: nat, n: nat, x: Id)
    requires pg + n <= ID_MAX
    ensures multiset(Pages(pg, n))[x] == if pg <= x < pg + n then 1 else 0
    decreases n
  {
    if n > 0 {
      PagesOnce(pg, n - 1, x);
      PagesJoin(pg, n - 1, 1);
      assert Pages(pg + n - 1, 1) == [pg + n - 1];
    } else {
      assert Pages(pg, n) == [];
    }
  }

  /** What a sublist of the file's pages contains, it contains once. */
  lemma OnceEach(next: nat, part: multiset<Id>)
    requires 2 <= next <= ID_MAX && part <= FilePages(next)
    ensures forall x | x in part :: part[x] == 1 && 2 <= x < next
  {
    forall x | x in part ensures part[x] == 1 && 2 <= x < next {
      PagesOnce(2, next - 2, x);
    }
  }

  /** A merge of two parts of the file is strictly descending. */
  lemma MergeStrict(a: seq<Id>, b: seq<Id>, next: nat)
    requires Falling(a) && Falling(b) && 2 <= next <= ID_MAX && multiset(a) + multiset(b) <= FilePages(next)
    ensures Strict(MergeDown(a, b)) && multiset(MergeDown(a, b)) == multiset(a) + multiset(b)
  {
    MergeDownBag(a, b);
    MergeDownFalls(a, b);
    OnceEach(next, multiset(a) + multiset(b));
    FallingStrict(MergeDown(a, b));
  }

  /** The places a page of the file can be in: a tree or overflow run, the loose list, me_pghead,
      mt_free_pgs, or a freeDB record after me_pglast.  Each page is in exactly one. */
  ghost predicate Conserved(used: multiset<Id>, loose: seq<Id>, head: seq<Id>, freed: seq<Id>,
                            listed: multiset<Id>, next: nat) {
    2 <= next <= ID_MAX && used + multiset(loose) + multiset(head) + multiset(freed) + listed == FilePages(next)
  }

  lemma FirstConserved(used: set<Id>, listed: multiset<Id>, next: nat)
    requires 2 <= next <= ID_MAX && forall x: Id :: multiset(used)[x] + listed[x] == FilePages(next)[x]
    ensures Conserved(multiset(used), [], [], [], listed, next)
  {
    var none: seq<Id> := [];
    var all := multiset(used) + multiset(none) + multiset(none) + multiset(none) + listed;
    assert forall x: Id :: all[x] == FilePages(next)[x];
  }

  lemma ConservedHead(used: multiset<Id>, loose: seq<Id>, head: seq<Id>, freed: seq<Id>, listed: multiset<Id>, next: nat)
    requires Conserved(used, loose, head, freed, listed, next)
    ensures multiset(head) <= FilePages(next)
    ensures multiset(loose) <= FilePages(next)
    ensures multiset(freed) <= FilePages(next)
  {}

  lemma LooseTaken(used: multiset<Id>, loose: seq<Id>, head: seq<Id>, freed: seq<Id>, listed: multiset<Id>, next: nat)
    requires Conserved(used, loose, head, freed, listed, next) && loose != []
    ensures 2 <= loose[0] < next
    ensures Conserved(used + multiset{loose[0]}, loose[1..], head, freed, listed, next)
  {
    ConservedHead(used, loose, head, freed, listed, next);
    OnceEach(next, multiset(loose));
    assert loose[0] in multiset(loose);
    assert loose == [loose[0]] + loose[1..];
  }

  lemma HeadTaken(used: multiset<Id>, loose: seq<Id>, head: seq<Id>, freed: seq<Id>, listed: multiset<Id>, next: nat,
                  i: nat, num: nat)
    requires Conserved(used, loose, head, freed, listed, next) && Strict(head)
    requires 1 <= num <= i <= |head| && head[i - num..i] == Run(head[i - 1], num)
    ensures 2 <= head[i - 1] && head[i - 1] + num <= next && Strict(Taken(head, i, num))
    ensures Conserved(used + multiset(Pages(head[i - 1], num)), loose, Taken(head, i, num), freed, listed, next)
  {
    ConservedHead(used, loose, head, freed, listed, next);
    RunWithin(head, i, num, next);
    TakenStrict(head, i, num);
    assert head == head[..i - num] + head[i - num..i] + head[i..];
    Exchange(used, multiset(loose), multiset(Taken(head, i, num)), multiset(freed), listed, multiset(head[i - num..i]));
  }

  lemma Exchange(a: multiset<Id>, b: multiset<Id>, c: multiset<Id>, d: multiset<Id>, e: multiset<Id>, x: multiset<Id>)
    ensures a + b + (c + x) + d + e == (a + x) + b + c + d + e
  {}

  lemma NewTaken(used: multiset<Id>, loose: seq<Id>, head: seq<Id>, freed: seq<Id>, listed: multiset<Id>, next: nat, num: nat)
    requires Conserved(used, loose, head, freed, listed, next) && next + num <= ID_MAX
    ensures Conserved(used + multiset(Pages(next, num)), loose, head, freed, listed, next + num)
  {
    PagesJoin(2, next - 2, num);
    var x := multiset(Pages(next, num));
    assert used + multiset(loose) + multiset(head) + multiset(freed) + listed + x
        == (used + x) + multiset(loose) + multiset(head) + multiset(freed) + listed;
  }

  lemma RecordTaken(used: multiset<Id>, loose: seq<Id>, head: seq<Id>, freed: seq<Id>, db: seq<Record>, next: nat,
                    i: nat, last: Txnid, t: Txnid)
    requires Conserved(used, loose, head, freed, Listed(db, last, t), next) && Falling(head) && Ascending(db)
    requires i < |db| && last < db[i].id < t && Falling(db[i].pages) && forall j | 0 <= j < i :: db[j].id <= last
    ensures Strict(MergeDown(head, db[i].pages))
    ensures Conserved(used, loose, MergeDown(head, db[i].pages), freed, Listed(db, db[i].id, t), next)
  {
    hide Listed, MergeDown;
    ListedTake(db, i, last, t);
    var rest, x := Listed(db, db[i].id, t), multiset(db[i].pages);
    MoveRight(used, multiset(loose), multiset(head), multiset(freed), rest, x);
    assert multiset(head) + x <= FilePages(next);
    MergeStrict(head, db[i].pages, next);
  }

  lemma MoveRight(a: multiset<Id>, b: multiset<Id>, c: multiset<Id>, d: multiset<Id>, e: multiset<Id>, x: multiset<Id>)
    ensures a + b + c + d + (x + e) == a + b + (c + x) + d + e
  {}

  lemma PageFreed(used: multiset<Id>, loose: seq<Id>, head: seq<Id>, freed: seq<Id>, listed: multiset<Id>, next: nat,
                  x: seq<Id>)
    requires Conserved(used, loose, head, freed, listed, next) && multiset(x) <= used
    ensures Conserved(used - multiset(x), loose, head, freed + x, listed, next)
  {
    var u := used - multiset(x);
    assert used == u + multiset(x);
    assert u + multiset(x) + multiset(loose) + multiset(head) + multiset(freed) + listed
        == u + multiset(loose) + multiset(head) + (multiset(freed) + multiset(x)) + listed;
  }

  lemma PageLoosened(used: multiset<Id>, loose: seq<Id>, head: seq<Id>, freed: seq<Id>, listed: multiset<Id>, next: nat,
                     p: Id)
    requires Conserved(used, loose, head, freed, listed, next) && p in used
    ensures Conserved(used - multiset{p}, [p] + loose, head, freed, listed, next)
  {
    var u := used - multiset{p};
    assert used == u + multiset{p};
    assert u + multiset{p} + multiset(loose) + multiset(head) + multiset(freed) + listed
        == u + (multiset{p} + multiset(loose)) + multiset(head) + multiset(freed) + listed;
  }

  lemma RunReturned(used: multiset<Id>, loose: seq<Id>, head: seq<Id>, freed: seq<Id>, listed: multiset<Id>, next: nat,
                    pg: nat, n: nat)
    requires Conserved(used, loose, head, freed, listed, next) && Strict(head) && pg + n <= ID_MAX
    requires multiset(Pages(pg, n)) <= used
    ensures Strict(WithRun(head, pg, n))
    ensures Conserved(used - multiset(Pages(pg, n)), loose, WithRun(head, pg, n), freed, listed, next)
  {
    var x := multiset(Pages(pg, n));
    forall y: nat | pg <= y < pg + n ensures y !in head {
      PagesOnce(pg, n, y);
      PagesOnce(2, next - 2, y);
      assert x[y] == 1 && used[y] >= 1;
      assert (used + multiset(loose) + multiset(head) + multiset(freed) + listed)[y] <= 1;
      assert multiset(head)[y] == 0;
    }
    WithRunIs(head, pg, n);
    var u := used - x;
    assert used == u + x;
    Exchange(u, multiset(loose), multiset(head), multiset(freed), listed, x);
  }

  /** A run in me_pghead is a run of pages of the file. */
  lemma RunWithin(head: seq<Id>, i: nat, num: nat, next: nat)
    requires 1 <= num <= i <= |head| && head[i - num..i] == Run(head[i - 1], num) && 2 <= next <= ID_MAX
    requires multiset(head) <= FilePages(next)
    ensures 2 <= head[i - 1] && head[i - 1] + num <= next && head[i - num..i] == Pages(head[i - 1], num)
  {
    OnceEach(next, multiset(head));
    assert head[i - 1] in multiset(head) && head[i - num] in multiset(head);
    assert head[i - num] == head[i - num..i][0];
  }

  lemma StrictFalling(s: seq<Id>)
    requires Strict(s)
    ensures Falling(s)
  {}

  ghost predicate HasRecord(db: seq<Record>, id: Txnid) {
    exists i :: 0 <= i < |db| && db[i].id == id
  }

  /** How far the freeDB's records are consumed, what is freed and what is loose, the writer of the protocol, and how
      many pages are dirty or may become so. */
  datatype Books = Books(last: Txnid, freed: seq<Id>, loose: seq<Id>, db: seq<Record>, w: M.Writer, lim: Txnid, quota: nat)

  ghost function BooksOf(txn: Txn): Books
    reads txn
  {
    Books(txn.pglast, txn.freed, txn.loose, txn.db, txn.w, txn.lim, txn.Quota())
  }

  /** What changes of a tree do to them: the records stay, me_pglast and mt_free_pgs grow, the pages move as the
      protocol allows, and no more of them are dirty than mt_dirty_room has gone down. */
  ghost predicate Consumes(a: Books, b: Books) {
    && b.db == a.db && a.freed <= b.freed
    && a.last <= b.last && (a.last < b.last ==> HasRecord(a.db, b.last))
    && b.lim == a.lim && Moves.Leads(a.w, b.w, a.lim) && b.quota <= a.quota
  }

  /** Changes of the freeDB's tree: moreover no page becomes loose. */
  ghost predicate Advances(a: Books, b: Books) {
    Consumes(a, b) && (a.loose == [] ==> b.loose == [])
  }

  /** Why n pages were not to be had: no loose page would do, and either no more pages may become dirty, or the file
      is full, me_pghead has no run of n pages, and it is long already or no record below `scan` is left to read. */
  ghost predicate Short(txn: Txn, n: nat, scan: Txnid)
    reads txn
  {
    && (n == 1 ==> txn.loose == [])
    && (txn.dirtyRoom == 0
        || (txn.next + n >= txn.maxpg && (forall p: nat :: !HasRun(txn.head, p, n))
            && (|txn.head| >= n || NoneLeft(txn.db, txn.pglast, scan))))
  }

  /** Every record that is not consumed is too recent to be. */
  ghost predicate NoneLeft(db: seq<Record>, last: Txnid, scan: Txnid) {
    forall i | 0 <= i < |db| && last < db[i].id :: scan <= db[i].id
  }

  /** The records with keys above `a`, up to `b`. */
  ghost function Between(db: seq<Record>, a: Txnid, b: Txnid): set<nat> {
    set i: nat | i < |db| && a < db[i].id <= b
  }

  lemma OneBetween(db: seq<Record>, a: Txnid, b: Txnid, i: nat)
    requires i < |db| && a <= b < db[i].id && forall j | 0 <= j < |db| && b < db[j].id :: i <= j && (i < j ==> db[i].id < db[j].id)
    ensures |Between(db, a, db[i].id)| == |Between(db, a, b)| + 1
  {
    assert Between(db, a, db[i].id) == Between(db, a, b) + {i};
  }

  lemma NextOnly(db: seq<Record>, b: Txnid, i: nat)
    requires Ascending(db) && i < |db| && b < db[i].id && forall j | 0 <= j < i :: db[j].id <= b
    ensures forall j | 0 <= j < |db| && b < db[j].id :: i <= j && (i < j ==> db[i].id < db[j].id)
  {}

  lemma NoneBetween(db: seq<Record>, a: Txnid)
    ensures Between(db, a, a) == {}
  {}

  /** The search was given up: the list is long, and sixty records were read for each page asked for. */
  ghost predicate GaveUp(db: seq<Record>, from: Txnid, last: Txnid, length: nat, num: nat) {
    length >= num && |Between(db, from, last)| >= 60 * num
  }

  lemma GaveUpIf(db: seq<Record>, from: Txnid, last: Txnid, length: nat, num: nat)
    ensures GaveUp(db, from, last, length, num) <==> length >= num && |Between(db, from, last)| >= 60 * num
  {
    hide Between;
  }

  lemma AdvancesSame(a: Books)
    ensures Advances(a, a)
  {
    Moves.LeadsSelf(a.w, a.lim);
  }

  lemma ConsumesOn(a: Books, b: Books, c: Books)
    requires Consumes(a, b) && Consumes(b, c)
    ensures Consumes(a, c)
  {
    hide HasRecord, Moves.Leads;
    Moves.LeadsOn(a.w, b.w, c.w, a.lim);
  }

  lemma AdvancesOn(a: Books, b: Books, c: Books)
    requires Advances(a, b) && Advances(b, c)
    ensures Advances(a, c)
  {
    hide HasRecord, Moves.Leads;
    ConsumesOn(a, b, c);
  }

  // ---------------------------------------------------------------- the writer of the protocol

  ghost function BagSet(m: multiset<nat>): set<nat> {
    set p | p in m
  }

  /** The writer of the protocol holds the pages of these lists. */
  ghost predicate TwinOf(w: M.Writer, t: Txnid, next: nat, last: Txnid, used: multiset<Id>, head: seq<Id>, loose: seq<Id>,
                         freed: seq<Id>) {
    && w.t == t && w.next == next && w.last == last
    && w.tree == BagSet(used) && w.head == Moves.SetOf(head) && w.loose == Moves.SetOf(loose)
    && w.freed == Moves.SetOf(freed) && w.loose <= w.dirty
  }

  /** The records that are not consumed are those of the snapshot the transaction began with. */
  ghost predicate RecordsMatch(free: map<nat, set<nat>>, db: seq<Record>, last: Txnid, t: Txnid) {
    && (forall i | 0 <= i < |db| && last < db[i].id < t :: db[i].id in free && free[db[i].id] == Moves.SetOf(db[i].pages))
    && (forall k | k in free && last < k < t :: HasRecord(db, k))
  }

  lemma RecordAt(db: seq<Record>, i: nat)
    requires i < |db|
    ensures HasRecord(db, db[i].id)
  {}

  lemma MatchIf(free: map<nat, set<nat>>, db: seq<Record>, last: Txnid, t: Txnid)
    requires forall i | 0 <= i < |db| && last < db[i].id < t :: db[i].id in free && free[db[i].id] == Moves.SetOf(db[i].pages)
    requires forall k | k in free && last < k < t :: HasRecord(db, k)
    ensures RecordsMatch(free, db, last, t)
  {
    hide HasRecord, Moves.SetOf;
  }

  /** No page is in two of the places. */
  lemma OnePlace(used: multiset<Id>, loose: seq<Id>, head: seq<Id>, freed: seq<Id>, listed: multiset<Id>, next: nat)
    requires Conserved(used, loose, head, freed, listed, next)
    ensures forall x: Id :: used[x] + multiset(loose)[x] + multiset(head)[x] + multiset(freed)[x] + listed[x] <= 1
  {
    forall x: Id ensures used[x] + multiset(loose)[x] + multiset(head)[x] + multiset(freed)[x] + listed[x] <= 1 {
      PagesOnce(2, next - 2, x);
      assert (used + multiset(loose) + multiset(head) + multiset(freed) + listed)[x]
             == used[x] + multiset(loose)[x] + multiset(head)[x] + multiset(freed)[x] + listed[x];
    }
  }

  lemma ListSet(s: seq<Id>)
    ensures forall x: nat :: x in Moves.SetOf(s) <==> x in multiset(s)
  {
    forall x: nat ensures x in Moves.SetOf(s) <==> x in multiset(s) {}
  }

  /** A list that has each page once. */
  lemma OnceDistinct(s: seq<Id>)
    requires forall x: Id :: multiset(s)[x] <= 1
    ensures Moves.Distinct(s)
  {
    forall i, j | 0 <= i < j < |s| ensures s[i] != s[j] {
      var a, b := s[..j], s[j..];
      assert s == a + b && a[i] == s[i] && b[0] == s[j];
      assert s[i] in multiset(a) && s[j] in multiset(b);
      assert multiset(s)[s[j]] == multiset(a)[s[j]] + multiset(b)[s[j]];
    }
  }

  lemma PagesSpan(pg: nat, n: nat)
    requires pg + n <= ID_MAX
    ensures forall x: nat :: x in multiset(Pages(pg, n)) <==> x in Moves.Span(pg, n)
  {
    forall x: nat ensures x in multiset(Pages(pg, n)) <==> x in Moves.Span(pg, n) {
      if pg <= x < pg + n {
        PagesOnce(pg, n, x);
      } else if x in multiset(Pages(pg, n)) {
        PagesOnce(pg, n, x);
      }
    }
  }

  lemma NextFirst(db: seq<Record>, i: nat, last: Txnid, k: Txnid)
    requires Ascending(db) && i < |db| && (forall j | 0 <= j < i :: db[j].id <= last) && last < k && HasRecord(db, k)
    ensures db[i].id <= k
  {
    var m :| 0 <= m < |db| && db[m].id == k;
    assert m == i || i < m;
  }

  lemma TwinIf(w: M.Writer, t: Txnid, next: nat, last: Txnid, used: multiset<Id>, head: seq<Id>, loose: seq<Id>, freed: seq<Id>)
    ensures TwinOf(w, t, next, last, used, head, loose, freed)
       <==> && w.t == t && w.next == next && w.last == last
            && w.tree == BagSet(used) && w.head == Moves.SetOf(head) && w.loose == Moves.SetOf(loose)
            && w.freed == Moves.SetOf(freed) && w.loose <= w.dirty
  {
    hide BagSet, Moves.SetOf;
  }

  lemma RecordTwin(w: M.Writer, t: Txnid, next: nat, last: Txnid, used: multiset<Id>, head: seq<Id>, loose: seq<Id>,
                   freed: seq<Id>, db: seq<Record>, i: nat, lim: Txnid)
    requires TwinOf(w, t, next, last, used, head, loose, freed) && RecordsMatch(w.base.free, db, last, t) && Ascending(db)
    requires i < |db| && last < db[i].id < t && db[i].id < lim && forall j | 0 <= j < i :: db[j].id <= last
    ensures Moves.MoveOk(w, M.TakeRecord(db[i].id), lim)
    ensures var v := M.Moved(w, M.TakeRecord(db[i].id));
            && TwinOf(v, t, next, db[i].id, used, MergeDown(head, db[i].pages), loose, freed)
            && RecordsMatch(v.base.free, db, db[i].id, t) && v.dirty == w.dirty
    ensures db[i].id in w.base.free
  {
    hide BagSet, MergeDown, Ascending, HasRecord, Strict, Falling;
    forall j | j in w.base.free && last < j < t ensures db[i].id <= j { NextFirst(db, i, last, j); }
    MergeDownBag(head, db[i].pages);
    ListSet(head);
    ListSet(db[i].pages);
    ListSet(MergeDown(head, db[i].pages));
    assert Moves.SetOf(MergeDown(head, db[i].pages)) == Moves.SetOf(head) + Moves.SetOf(db[i].pages);
  }

  lemma LooseTwin(w: M.Writer, t: Txnid, next: nat, last: Txnid, used: multiset<Id>, head: seq<Id>, loose: seq<Id>,
                  freed: seq<Id>, listed: multiset<Id>, lim: Txnid)
    requires TwinOf(w, t, next, last, used, head, loose, freed) && loose != []
    requires Conserved(used, loose, head, freed, listed, next)
    ensures Moves.MoveOk(w, M.AllocLoose(loose[0]), lim)
    ensures var v := M.Moved(w, M.AllocLoose(loose[0]));
            && TwinOf(v, t, next, last, used + multiset{loose[0]}, head, loose[1..], freed)
            && v.dirty == w.dirty && loose[0] in v.dirty
  {
    OnePlace(used, loose, head, freed, listed, next);
    hide Conserved;
    assert loose == [loose[0]] + loose[1..];
    assert multiset(loose) == multiset{loose[0]} + multiset(loose[1..]);
    assert multiset(loose)[loose[0]] <= 1;
    assert loose[0] !in multiset(loose[1..]);
    ListSet(loose);
    ListSet(loose[1..]);
    assert Moves.SetOf(loose[1..]) == Moves.SetOf(loose) - {loose[0]};
    assert BagSet(used + multiset{loose[0]}) == BagSet(used) + {loose[0]};
  }

  lemma HeadTwin(w: M.Writer, t: Txnid, next: nat, last: Txnid, used: multiset<Id>, head: seq<Id>, loose: seq<Id>,
                 freed: seq<Id>, i: nat, num: nat, lim: Txnid)
    requires TwinOf(w, t, next, last, used, head, loose, freed) && Strict(head)
    requires 1 <= num <= i <= |head| && head[i - 1] + num <= ID_MAX && head[i - num..i] == Pages(head[i - 1], num)
    ensures var s := Moves.Span(head[i - 1], num);
            var v := w.(head := w.head - s, tree := w.tree + s, dirty := w.dirty + s);
            && Moves.Leads(w, v, lim)
            && TwinOf(v, t, next, last, used + multiset(Pages(head[i - 1], num)), Taken(head, i, num), loose, freed)
  {
    hide *;
    var p := head[i - 1];
    var s, h, run := Moves.Span(p, num), Taken(head, i, num), multiset(Pages(p, num));
    var v := w.(head := w.head - s, tree := w.tree + s, dirty := w.dirty + s);
    PagesSpan(p, num);
    TakenStrict(head, i, num);
    StrictOnce(head);
    ListSet(head);
    ListSet(h);
    TakenSets(multiset(head), run, multiset(h), Moves.SetOf(head), s, Moves.SetOf(h));
    TwinIf(w, t, next, last, used, head, loose, freed);
    Within(head, i, num, run);
    forall q | q in s ensures q in w.head { assert q in run; }
    Moves.HeadRun(w, p, num, lim);
    MoreSets(used, run, s);
    TwinIf(v, t, next, last, used + run, h, loose, freed);
  }

  lemma Within(head: seq<Id>, i: nat, num: nat, run: multiset<Id>)
    requires num <= i <= |head| && multiset(head[i - num..i]) == run
    ensures run <= multiset(head)
  {
    assert head == head[..i - num] + head[i - num..i] + head[i..];
  }

  lemma StrictOnce(s: seq<Id>)
    requires Strict(s)
    ensures forall x: Id :: multiset(s)[x] <= 1
    decreases |s|
  {
    if s != [] {
      var rest := s[..|s| - 1];
      StrictOnce(rest);
      assert s == rest + [s[|s| - 1]];
    }
  }

  lemma TakenSets(all: multiset<nat>, part: multiset<nat>, rest: multiset<nat>, a: set<nat>, p: set<nat>, r: set<nat>)
    requires rest == all - part && (forall x :: all[x] <= 1)
    requires (forall x :: x in a <==> x in all) && (forall x :: x in p <==> x in part) && (forall x :: x in r <==> x in rest)
    ensures r == a - p
  {
    forall x ensures x in r <==> x in a && x !in p {
      assert rest[x] == if all[x] <= part[x] then 0 else all[x] - part[x];
    }
  }

  lemma MoreSets(used: multiset<nat>, part: multiset<nat>, p: set<nat>)
    requires forall x :: x in p <==> x in part
    ensures BagSet(used + part) == BagSet(used) + p
  {}

  lemma LessSets(used: multiset<nat>, part: multiset<nat>, p: set<nat>)
    requires (forall x :: used[x] <= 1) && forall x :: x in p <==> x in part
    ensures BagSet(used - part) == BagSet(used) - p
  {
    forall x ensures x in BagSet(used - part) <==> x in BagSet(used) && x !in p {
      assert (used - part)[x] == if used[x] <= part[x] then 0 else used[x] - part[x];
    }
  }

  lemma NewTwin(w: M.Writer, t: Txnid, next: nat, last: Txnid, used: multiset<Id>, head: seq<Id>, loose: seq<Id>,
                freed: seq<Id>, num: nat, lim: Txnid)
    requires TwinOf(w, t, next, last, used, head, loose, freed) && next + num <= ID_MAX
    ensures var s := Moves.Span(next, num);
            var v := w.(next := next + num, tree := w.tree + s, dirty := w.dirty + s);
            && Moves.Leads(w, v, lim)
            && TwinOf(v, t, next + num, last, used + multiset(Pages(next, num)), head, loose, freed)
  {
    hide *;
    PagesSpan(next, num);
    MoreSets(used, multiset(Pages(next, num)), Moves.Span(next, num));
    TwinIf(w, t, next, last, used, head, loose, freed);
    Moves.NewRun(w, num, lim);
    var s := Moves.Span(next, num);
    TwinIf(w.(next := next + num, tree := w.tree + s, dirty := w.dirty + s), t, next + num, last,
           used + multiset(Pages(next, num)), head, loose, freed);
  }

  lemma FreedTwin(w: M.Writer, t: Txnid, next: nat, last: Txnid, used: multiset<Id>, head: seq<Id>, loose: seq<Id>,
                  freed: seq<Id>, listed: multiset<Id>, x: seq<Id>, lim: Txnid)
    requires TwinOf(w, t, next, last, used, head, loose, freed) && multiset(x) <= used
    requires Conserved(used, loose, head, freed, listed, next)
    ensures var v := w.(tree := w.tree - Moves.SetOf(x), freed := w.freed + Moves.SetOf(x));
            Moves.Leads(w, v, lim) && TwinOf(v, t, next, last, used - multiset(x), head, loose, freed + x)
  {
    OnePlace(used, loose, head, freed, listed, next);
    hide Conserved;
    forall y: Id ensures multiset(x)[y] <= 1 { assert multiset(x)[y] <= used[y]; }
    OnceDistinct(x);
    ListSet(x);
    LessSets(used, multiset(x), Moves.SetOf(x));
    assert Moves.SetOf(freed + x) == Moves.SetOf(freed) + Moves.SetOf(x);
    Moves.FreeAll(w, x, lim);
  }

  lemma LoosenTwin(w: M.Writer, t: Txnid, next: nat, last: Txnid, used: multiset<Id>, head: seq<Id>, loose: seq<Id>,
                   freed: seq<Id>, listed: multiset<Id>, p: Id, lim: Txnid)
    requires TwinOf(w, t, next, last, used, head, loose, freed) && p in used && p in w.dirty
    requires Conserved(used, loose, head, freed, listed, next)
    ensures var v := w.(tree := w.tree - {p}, loose := w.loose + {p});
            Moves.Leads(w, v, lim) && TwinOf(v, t, next, last, used - multiset{p}, head, [p] + loose, freed)
  {
    OnePlace(used, loose, head, freed, listed, next);
    Moves.LeadsStep(w, M.Loosen(p), lim);
    hide Conserved, Moves.Leads;
    LessSets(used, multiset{p}, {p});
    assert Moves.SetOf([p] + loose) == Moves.SetOf(loose) + {p};
  }

  lemma RunTwin(w: M.Writer, t: Txnid, next: nat, last: Txnid, used: multiset<Id>, head: seq<Id>, loose: seq<Id>,
                freed: seq<Id>, listed: multiset<Id>, pg: nat, n: nat, lim: Txnid)
    requires TwinOf(w, t, next, last, used, head, loose, freed) && pg + n <= ID_MAX && last > 0 && Strict(head)
    requires multiset(Pages(pg, n)) <= used && Moves.Span(pg, n) <= w.dirty
    requires Conserved(used, loose, head, freed, listed, next)
    ensures var s := Moves.Span(pg, n);
            var v := w.(tree := w.tree - s, head := w.head + s);
            && Moves.Leads(w, v, lim)
            && TwinOf(v, t, next, last, used - multiset(Pages(pg, n)), WithRun(head, pg, n), loose, freed)
  {
    hide *;
    OnePlace(used, loose, head, freed, listed, next);
    var s, run := Moves.Span(pg, n), multiset(Pages(pg, n));
    var v := w.(tree := w.tree - s, head := w.head + s);
    TwinIf(w, t, next, last, used, head, loose, freed);
    PagesSpan(pg, n);
    Moves.SpanIs(pg, n);
    forall y: nat | pg <= y < pg + n ensures y !in head {
      assert y in run && run[y] <= used[y];
      NotTwice(used, loose, head, freed, listed, y);
    }
    WithRunIs(head, pg, n);
    LessSets(used, run, s);
    ListSet(head);
    ListSet(WithRun(head, pg, n));
    assert Moves.SetOf(WithRun(head, pg, n)) == Moves.SetOf(head) + s;
    UsedSet(used, run, s);
    Moves.ReturnRun(w, pg, n, lim);
    TwinIf(v, t, next, last, used - run, WithRun(head, pg, n), loose, freed);
  }

  lemma NotTwice(used: multiset<Id>, loose: seq<Id>, head: seq<Id>, freed: seq<Id>, listed: multiset<Id>, y: Id)
    requires used[y] + multiset(loose)[y] + multiset(head)[y] + multiset(freed)[y] + listed[y] <= 1 && used[y] > 0
    ensures y !in head
  {
    assert y in head <==> y in multiset(head);
  }

  lemma UsedSet(used: multiset<nat>, part: multiset<nat>, p: set<nat>)
    requires part <= used && forall x :: x in p <==> x in part
    ensures p <= BagSet(used)
  {}

  // ---------------------------------------------------------------- dirty pages

  ghost predicate AccountedIn(dirty: set<nat>, used: multiset<Id>, loose: seq<Id>, freed: seq<Id>) {
    forall p | p in dirty :: p in used || p in loose || p in freed
  }

  /** A loose page goes into use. */
  lemma LooseStill(dirty: set<nat>, used: multiset<Id>, loose: seq<Id>, freed: seq<Id>)
    requires loose != [] && loose[0] < ID_MAX && AccountedIn(dirty, used, loose, freed)
    ensures AccountedIn(dirty, used + multiset(Pages(loose[0], 1)), loose[1..], freed)
  {
    assert Pages(loose[0], 1) == [loose[0]];
    assert loose == [loose[0]] + loose[1..];
  }

  /** Pages that come from elsewhere are not dirty yet. */
  lemma NewStill(dirty: set<nat>, was: multiset<Id>, used: multiset<Id>, loose: seq<Id>, head: seq<Id>, freed: seq<Id>,
                 listed: multiset<Id>, next: nat, pg: nat, num: nat)
    requires Conserved(used, loose, head, freed, listed, next) && num >= 1 && pg + num <= ID_MAX
    requires used == was + multiset(Pages(pg, num))
    ensures AccountedIn(dirty, was, loose, freed) ==> pg !in dirty && AccountedIn(dirty + {pg}, used, loose, freed)
  {
    OnePlace(used, loose, head, freed, listed, next);
    PagesOnce(pg, num, pg);
    assert used[pg] == was[pg] + 1;
    assert pg in loose <==> pg in multiset(loose);
    assert pg in freed <==> pg in multiset(freed);
  }

  lemma MarkOne(dirty: set<nat>, pg: nat)
    ensures |dirty + {pg}| == |dirty| + if pg in dirty then 0 else 1
  {
    if pg in dirty { assert dirty + {pg} == dirty; }
  }

  lemma UnmarkOne(dirty: set<nat>, pg: nat)
    requires pg in dirty
    ensures |dirty - {pg}| + 1 == |dirty|
  {}

  /** Pages that leave the trees are freed, or a page is loose. */
  lemma FreedStill(dirty: set<nat>, used: multiset<Id>, loose: seq<Id>, freed: seq<Id>, x: seq<Id>)
    requires AccountedIn(dirty, used, loose, freed)
    ensures AccountedIn(dirty, used - multiset(x), loose, freed + x)
  {
    forall p | p in dirty ensures p in used - multiset(x) || p in loose || p in freed + x {
      assert p in x <==> p in multiset(x);
    }
  }

  lemma LoosenedStill(dirty: set<nat>, used: multiset<Id>, loose: seq<Id>, freed: seq<Id>, p: Id)
    requires AccountedIn(dirty, used, loose, freed)
    ensures AccountedIn(dirty, used - multiset{p}, [p] + loose, freed)
  {}

  /** A run that goes back to me_pghead has no dirty page but its first. */
  lemma RunStill(dirty: set<nat>, used: multiset<Id>, loose: seq<Id>, freed: seq<Id>, pg: nat, n: nat)
    requires AccountedIn(dirty, used, loose, freed) && pg + n <= ID_MAX && forall q | pg < q < pg + n :: q !in dirty
    ensures AccountedIn(dirty - {pg}, used - multiset(Pages(pg, n)), loose, freed)
  {
    forall p | p in dirty - {pg} ensures p in used - multiset(Pages(pg, n)) || p in loose || p in freed {
      PagesOnce(pg, n, p);
    }
  }

  /** Where `n` overflow pages go that nothing uses any more: into me_pghead or to mt_free_pgs. */
  ghost predicate RunFreed(head0: seq<Id>, freed0: seq<Id>, own: bool, head: seq<Id>, freed: seq<Id>, pg: nat, n: nat) {
    pg + n <= ID_MAX && if own then head == WithRun(head0, pg, n) && freed == freed0 else head == head0 && freed == freed0 + Pages(pg, n)
  }

  lemma RunFreedIf(head0: seq<Id>, freed0: seq<Id>, own: bool, head: seq<Id>, freed: seq<Id>, pg: nat, n: nat)
    requires pg + n <= ID_MAX
    ensures RunFreed(head0, freed0, own, head, freed, pg, n)
            <==> if own then head == WithRun(head0, pg, n) && freed == freed0 else head == head0 && freed == freed0 + Pages(pg, n)
  {
    hide WithRun, Pages;
  }

  class Txn {
    /** The transaction's id, the size of the map in pages, me_maxfree_1pg. */
    const t: Txnid
    const maxpg: nat
    const maxFree1Pg: nat
    /** The writer of the protocol in `Mvcc` that has these pages, and the oldest reader it has cached: no record from
        this id on is read. */
    ghost var w: M.Writer
    ghost const lim: Txnid
    /** The pages of all trees, the freeDB's included, and of overflow runs. */
    var used: multiset<Id>
    /** mt_loose_pgs, the last one first. */
    var loose: seq<Id>
    /** me_pghead, me_pglast and me_pgoldest; me_pghead exists when me_pglast > 0. */
    var head: seq<Id>
    var pglast: Txnid
    var pgoldest: Txnid
    /** mt_free_pgs. */
    var freed: seq<Id>
    var next: nat
    /** Pages this transaction can write, overflow runs by their first page. */
    var dirty: set<nat>
    var dirtyRoom: nat
    /** The freeDB's contents, in key order. */
    var db: seq<Record>

    /** The dirty pages, and mt_dirty_room. */
    ghost function Quota(): nat
      reads `dirty, `dirtyRoom
    {
      |dirty| + dirtyRoom
    }

    /** Dirty pages are in use, loose or freed. */
    ghost predicate Accounted()
      reads `dirty, `used, `loose, `freed
    {
      AccountedIn(dirty, used, loose, freed)
    }

    lemma AccountedIf()
      ensures Accounted() == AccountedIn(dirty, used, loose, freed) && Quota() == |dirty| + dirtyRoom
    {
      hide AccountedIn;
    }

    ghost predicate Shape()
      reads `next, `pglast, `pgoldest, `head, `db
    {
      && t > 0 && maxFree1Pg > 0 && 2 <= next <= maxpg <= ID_MAX && pgoldest < t && pglast < t
      && Ascending(db) && (forall i | 0 <= i < |db| :: 0 < db[i].id <= t && Strict(db[i].pages))
      && Strict(head) && (pglast == 0 ==> head == [])
    }

    /** Every page of the file, without the meta pages, is in exactly one place. */
    ghost predicate Valid()
      reads `next, `pglast, `pgoldest, `used, `head, `loose, `freed, `db
    {
      Shape() && Conserved(used, loose, head, freed, Listed(db, pglast, t), next)
    }

    /** The pages are those of the writer of the protocol. */
    ghost predicate Twin()
      reads `w, `next, `pglast, `pgoldest, `used, `head, `loose, `freed, `db
    {
      && TwinOf(w, t, next, pglast, used, head, loose, freed) && RecordsMatch(w.base.free, db, pglast, t)
      && pgoldest <= lim && (pglast > 0 ==> pglast < lim)
    }

    constructor (t: Txnid, maxpg: nat, maxFree1Pg: nat, used: set<Id>, next: nat, db: seq<Record>, pgoldest: Txnid, dirtyRoom: nat,
                 ghost w: M.Writer, ghost lim: Txnid)
      requires 0 < t && 0 < maxFree1Pg && 2 <= next <= maxpg <= ID_MAX && pgoldest < t
      requires Ascending(db) && forall i | 0 <= i < |db| :: 0 < db[i].id < t && Strict(db[i].pages)
      requires Conserved(multiset(used), [], [], [], Listed(db, 0, t), next)
      requires w.t == t && w.next == next && w.last == 0 && w.tree == used && w.head == w.loose == w.freed == {}
      requires RecordsMatch(w.base.free, db, 0, t) && pgoldest <= lim
      ensures Valid() && this.t == t && this.db == db && this.maxpg == maxpg && freed == [] && loose == [] && pglast == 0
      ensures this.used == multiset(used)
      ensures Twin() && this.w == w && this.lim == lim && dirty == {} && this.dirtyRoom == dirtyRoom && Quota() == dirtyRoom
    {
      this.t, this.maxpg, this.maxFree1Pg := t, maxpg, maxFree1Pg;
      this.used, this.next, this.db, this.pgoldest, this.dirtyRoom := multiset(used), next, db, pgoldest, dirtyRoom;
      loose, head, pglast, freed, dirty := [], [], 0, [], {};
      this.w, this.lim := w, lim;
    }

    /** The first record after me_pglast. */
    method NextRecord() returns (i: nat)
      requires Shape()
      ensures i <= |db| && (forall j | 0 <= j < i :: db[j].id <= pglast)
      ensures i < |db| ==> pglast < db[i].id
    {
      i := 0;
      while i < |db| && db[i].id <= pglast
        invariant i <= |db| && forall j | 0 <= j < i :: db[j].id <= pglast
      {
        i := i + 1;
      }
    }

    /** Read record i into me_pghead. */
    method TakeRecord(i: nat)
      requires Valid() && i < |db| && pglast < db[i].id < t && forall j | 0 <= j < i :: db[j].id <= pglast
      requires Twin() && db[i].id < lim
      modifies `head, `pglast, `w
      ensures Valid() && pglast == db[i].id && head == MergeDown(old(head), db[i].pages)
      ensures Twin() && Moves.Leads(old(w), w, lim) && w.dirty == old(w.dirty)
    {
      hide Conserved, Listed, MergeDown, TwinOf, RecordsMatch, Moves.MoveOk, Moves.Leads;
      RecordTwin(w, t, next, pglast, used, head, loose, freed, db, i, lim);
      Moves.LeadsStep(w, M.TakeRecord(db[i].id), lim);
      w := M.Moved(w, M.TakeRecord(db[i].id));
      StrictFalling(head);
      StrictFalling(db[i].pages);
      RecordTaken(used, loose, head, freed, db, next, i, pglast, t);
      head := MergeDown(head, db[i].pages);
      pglast := db[i].id;
    }

    /** Ask for the oldest reader, once, when the record seems too recent. */
    method Refresh(id: Txnid, oldest0: Txnid, foundOld0: bool, scan: Txnid) returns (oldest: Txnid, foundOld: bool)
      requires oldest0 == pgoldest && scan < t && scan <= lim && Valid() && Twin()
      modifies `pgoldest
      ensures Twin() && pgoldest <= lim
      ensures Valid() && oldest == pgoldest && (pgoldest == old(pgoldest) || pgoldest == scan)
      requires foundOld0 ==> oldest0 == scan
      ensures oldest <= id ==> foundOld
      ensures foundOld ==> oldest == scan
    {
      hide Conserved, Listed, TwinOf, RecordsMatch;
      oldest, foundOld := oldest0, foundOld0;
      if oldest <= id && !foundOld {
        oldest, pgoldest, foundOld := scan, scan, true;
      }
    }

    /** The next record, if it is older than the oldest reader. */
    method ReadNext(oldest0: Txnid, foundOld0: bool, scan: Txnid, ghost last0: Txnid, ghost first: Txnid)
      returns (taken: bool, oldest: Txnid, foundOld: bool)
      requires Valid() && Twin() && scan < t && scan <= lim && last0 <= pglast && Fetched(last0, first, scan)
      requires oldest0 == pgoldest && (foundOld0 ==> oldest0 == scan)
      modifies `head, `pglast, `pgoldest, `w
      ensures Valid() && Twin() && Fetched(last0, first, scan) && oldest == pgoldest && (foundOld ==> oldest == scan)
      ensures Moves.Leads(old(w), w, lim) && w.dirty == old(w.dirty)
      ensures taken ==> |Between(db, last0, pglast)| == |Between(db, last0, old(pglast))| + 1
      ensures if taken then old(pglast) < pglast <= t
              else pglast == old(pglast) && head == old(head) && NoneLeft(db, pglast, scan)
    {
      hide *;
      taken := false;
      Moves.LeadsSelf(w, lim);
      Parts();
      FetchedIf(last0, first, scan);
      oldest, foundOld := Refresh(pglast + 1, oldest0, foundOld0, scan);
      FetchedIf(last0, first, scan);
      if oldest <= pglast + 1 {
        NoneFrom(db, 0, pglast, oldest);
        return;
      }
      Parts();
      var r := NextRecord();
      if r == |db| {
        NoneFrom(db, r, pglast, scan);
        return;
      }
      oldest, foundOld := Refresh(db[r].id, oldest, foundOld, scan);
      FetchedIf(last0, first, scan);
      if oldest <= db[r].id {
        NoneFrom(db, r, pglast, oldest);
        return;
      }
      Parts();
      NextOnly(db, pglast, r);
      OneBetween(db, last0, pglast, r);
      TakeRecord(r);
      RecordAt(db, r);
      FetchedIf(last0, first, scan);
      taken := true;
    }

    /** The loop of `mdb_page_alloc`: look for a run of num pages, fetching records that are older
        than the oldest reader.  0 when there is none, or the search is given up. */
    method Search(num: nat, scan: Txnid) returns (i: nat)
      requires Valid() && num >= 1 && scan < t && scan <= lim && Twin()
      modifies `head, `pglast, `pgoldest, `w
      ensures Twin() && Moves.Leads(old(w), w, lim) && w.dirty == old(w.dirty)
      ensures Valid() && Fetched(old(pglast), old(pgoldest), scan)
      ensures i > 0 ==> num <= i <= |head| && head[i - num..i] == Run(head[i - 1], num)
      ensures i > 0 ==> forall p: nat | HasRun(head, p, num) :: head[i - 1] <= p
      ensures i == 0 ==> forall p: nat :: !HasRun(head, p, num)
      ensures i == 0 ==> NoneLeft(db, pglast, scan) || GaveUp(db, old(pglast), pglast, |head|, num)
      ensures pglast != old(pglast) ==> forall p: nat :: !HasRun(old(head), p, num)
    {
      hide *;
      Moves.LeadsSelf(w, lim);
      FetchedIf(pglast, pgoldest, scan);
      Parts();
      var retry := num * 60;
      var oldest, foundOld, taken := pgoldest, false, true;
      ghost var last0, oldest0 := pglast, pgoldest;
      NoneBetween(db, pglast);
      while true
        invariant Valid() && pglast <= t && Fetched(last0, oldest0, scan)
        invariant oldest == pgoldest && (foundOld ==> oldest == scan)
        invariant Twin() && Moves.Leads(old(w), w, lim) && w.dirty == old(w.dirty)
        invariant last0 <= pglast && 0 <= retry <= num * 60 <= retry + |Between(db, last0, pglast)|
        invariant if pglast == last0 then head == old(head) else forall p: nat :: !HasRun(old(head), p, num)
        decreases t - pglast
      {
        Parts();
        GaveUpIf(db, last0, pglast, |head|, num);
        i := FindRun(head, num);
        if i > 0 {
          return;
        }
        if |head| >= num {
          retry := retry - 1;
          if retry < 0 {
            return;
          }
        }
        ghost var v := w;
        taken, oldest, foundOld := ReadNext(oldest, foundOld, scan, last0, oldest0);
        Moves.LeadsOn(old(w), v, w, lim);
        if !taken {
          return;
        }
      }
    }

    lemma NoneFrom(db: seq<Record>, r: nat, last: Txnid, scan: Txnid)
      requires || scan <= last + 1
               || (r <= |db| && (forall j | 0 <= j < r :: db[j].id <= last) && (r < |db| ==> Ascending(db) && scan <= db[r].id))
      ensures NoneLeft(db, last, scan)
    {}

    lemma OneBag(p: Id)
      ensures multiset([p]) == multiset{p} && (p in used ==> multiset([p]) <= used)
    {}

    lemma NowValid()
      requires t > 0 && maxFree1Pg > 0 && 2 <= next <= maxpg <= ID_MAX && pgoldest < t && pglast < t && Ascending(db)
      requires (forall i | 0 <= i < |db| :: 0 < db[i].id <= t && Strict(db[i].pages)) && Strict(head)
      requires pglast == 0 ==> head == []
      requires Conserved(used, loose, head, freed, Listed(db, pglast, t), next)
      ensures Valid()
    {
      hide Ascending, Strict, Conserved, Listed;
    }

    lemma TwinLimits()
      ensures Twin() <==> && TwinOf(w, t, next, pglast, used, head, loose, freed) && RecordsMatch(w.base.free, db, pglast, t)
                          && pgoldest <= lim && (pglast > 0 ==> pglast < lim)
    {
      hide TwinOf, RecordsMatch;
    }

    /** Records are consumed in key order, and only those older than the oldest reader, as it was
        remembered or found by the scan. */
    ghost predicate Fetched(last: Txnid, oldest: Txnid, scan: Txnid)
      reads `pgoldest, `pglast, `db
    {
      && (pgoldest == oldest || pgoldest == scan)
      && (pglast == last || (last < pglast && (pglast < oldest || pglast < scan)
                             && HasRecord(db, pglast)))
    }

    lemma FetchedIf(last: Txnid, oldest: Txnid, scan: Txnid)
      ensures Fetched(last, oldest, scan)
         <==> && (pgoldest == oldest || pgoldest == scan)
              && (pglast == last || (last < pglast && (pglast < oldest || pglast < scan) && HasRecord(db, pglast)))
    {
      hide HasRecord;
    }


    lemma OneUsed(used: multiset<Id>, was: multiset<Id>, np: Id, p: Id)
      requires np < ID_MAX && used == was + multiset(Pages(np, 1)) && p in was
      ensures multiset([p]) <= used
    {}

    /** What `Valid` says. */
    lemma Parts()
      requires Valid()
      ensures Shape() && Conserved(used, loose, head, freed, Listed(db, pglast, t), next)
      ensures t > 0 && maxFree1Pg > 0 && (pglast == 0 ==> head == [])
      ensures 2 <= next <= maxpg <= ID_MAX && pgoldest < t && pglast < t && Ascending(db) && Strict(head)
      ensures forall i | 0 <= i < |db| :: 0 < db[i].id <= t && Strict(db[i].pages)
    {
      hide Conserved, Ascending, Strict;
    }

    lemma OneTaken(was: multiset<Id>, np: nat)
      requires np < ID_MAX && used == was + multiset(Pages(np, 1)) && used[np] <= 1
      ensures np !in was
    {
      assert Pages(np, 1) == [np];
    }

    lemma ShortIf(n: nat, scan: Txnid)
      ensures Short(this, n, scan)
         <==> && (n == 1 ==> loose == [])
              && (dirtyRoom == 0
                  || (next + n >= maxpg && (forall p: nat :: !HasRun(head, p, n)) && (|head| >= n || NoneLeft(db, pglast, scan))))
    {
      hide HasRun, NoneLeft;
    }

    /** `mdb_page_alloc`: `scan` is what `mdb_find_oldest` returns, if it is asked. */
    method Alloc(num: nat, scan: Txnid) returns (rc: Rc, pg: nat)
      requires Valid() && num >= 1 && scan < t && scan <= lim && Twin()
      modifies `used, `loose, `head, `pglast, `pgoldest, `next, `dirty, `dirtyRoom, `w
      ensures Twin() && Moves.Leads(old(w), w, lim) && old(w.dirty) <= w.dirty
      ensures rc == Success ==> Moves.Span(pg, num) <= w.dirty
      ensures Valid() && Fetched(old(pglast), old(pgoldest), scan) && next >= old(next)
      ensures rc == Success ==> pg >= 2 && pg + num <= next && used == old(used) + multiset(Pages(pg, num))
      ensures rc != Success ==> used == old(used) && next == old(next) && loose == old(loose)
      ensures num == 1 && old(loose) != [] ==> rc == Success && loose == old(loose)[1..] && pg == old(loose)[0]
      ensures !(num == 1 && old(loose) != []) ==> loose == old(loose)
      ensures old(dirty) <= dirty <= old(dirty) + {pg} && (rc == Success ==> pg in dirty || pg in old(loose))
      ensures rc == TxnFull <==> old(dirtyRoom) == 0 && !(num == 1 && old(loose) != [])
      ensures dirtyRoom == old(dirtyRoom) - if rc == Success && !(num == 1 && old(loose) != []) then 1 else 0
      ensures Quota() <= old(Quota()) && (old(Accounted()) ==> Accounted() && Quota() == old(Quota()))
      ensures rc == MapFull ==> next + num >= maxpg
      ensures rc != Success ==> dirty == old(dirty) && Short(this, num, scan)
      ensures rc == MapFull || next > old(next) ==> forall p: nat :: !HasRun(head, p, num)
      ensures rc == MapFull || next > old(next) ==> NoneLeft(db, pglast, scan) || GaveUp(db, old(pglast), pglast, |head|, num)
      ensures pglast != old(pglast) ==> !(num == 1 && old(loose) != []) && forall p: nat :: !HasRun(old(head), p, num)
    {
      hide *;
      pg := 0;
      Parts();
      FetchedIf(pglast, pgoldest, scan);
      Moves.LeadsSelf(w, lim);
      AccountedIf();
      if num == 1 && loose != [] {
        pg := TakeLoose();
        AccountedIf();
        if old(Accounted()) { LooseStill(dirty, old(used), old(loose), freed); }
        return Success, pg;
      }
      ShortIf(num, scan);
      if dirtyRoom == 0 {
        return TxnFull, pg;
      }
      AccountedIf();
      var found;
      found, pg := FindPages(num, scan);
      ShortIf(num, scan);
      AccountedIf();
      if !found {
        return MapFull, pg;
      }
      Parts();
      NewStill(dirty, old(used), used, loose, head, freed, Listed(db, pglast, t), next, pg, num);
      MarkOne(dirty, pg);
      dirty, dirtyRoom := dirty + {pg}, dirtyRoom - 1;
      AccountedIf();
      rc := Success;
    }

    /** A run of me_pghead, or the end of the file. */
    method FindPages(num: nat, scan: Txnid) returns (found: bool, pg: nat)
      requires Valid() && num >= 1 && scan < t && scan <= lim && Twin()
      modifies `used, `head, `pglast, `pgoldest, `next, `w
      ensures Valid() && Twin() && Moves.Leads(old(w), w, lim) && old(w.dirty) <= w.dirty
      ensures Fetched(old(pglast), old(pgoldest), scan) && next >= old(next)
      ensures found ==> && pg >= 2 && pg + num <= next && used == old(used) + multiset(Pages(pg, num))
                        && Moves.Span(pg, num) <= w.dirty
      ensures !found ==> && used == old(used) && next == old(next) && next + num >= maxpg
                         && (|head| >= num || NoneLeft(db, pglast, scan))
      ensures !found || next > old(next) ==> NoneLeft(db, pglast, scan) || GaveUp(db, old(pglast), pglast, |head|, num)
      ensures pglast != old(pglast) ==> forall p: nat :: !HasRun(old(head), p, num)
      ensures !found || next > old(next) ==> forall p: nat :: !HasRun(head, p, num)
    {
      hide *;
      pg := 0;
      var i := Search(num, scan);
      GaveUpIf(db, old(pglast), pglast, |head|, num);
      ghost var v := w;
      Parts();
      found := true;
      if i > 0 {
        pg := TakeHead(i, num);
      } else if next + num < maxpg {
        pg := TakeNew(num);
      } else {
        Moves.LeadsSelf(w, lim);
        found := false;
      }
      Moves.LeadsOn(old(w), v, w, lim);
    }

    method TakeLoose() returns (pg: nat)
      requires Valid() && loose != [] && Twin()
      modifies `used, `loose, `w
      ensures Twin() && Moves.Leads(old(w), w, lim) && w.dirty == old(w.dirty) && Moves.Span(pg, 1) <= w.dirty
      ensures Valid() && pg == old(loose)[0] && loose == old(loose)[1..]
      ensures 2 <= pg < next && used == old(used) + multiset(Pages(pg, 1))
    {
      hide Conserved, Listed, TwinOf, RecordsMatch, Moves.MoveOk, Moves.Leads;
      LooseTwin(w, t, next, pglast, used, head, loose, freed, Listed(db, pglast, t), lim);
      Moves.LeadsStep(w, M.AllocLoose(loose[0]), lim);
      w := M.Moved(w, M.AllocLoose(loose[0]));
      LooseTaken(used, loose, head, freed, Listed(db, pglast, t), next);
      pg := loose[0];
      assert Pages(pg, 1) == [pg];
      used, loose := used + multiset{loose[0]}, loose[1..];
    }

    /** The run that ends at position i of me_pghead. */
    method TakeHead(i: nat, num: nat) returns (pg: nat)
      requires Valid() && 1 <= num <= i <= |head| && head[i - num..i] == Run(head[i - 1], num) && Twin()
      modifies `used, `head, `w
      ensures Twin() && Moves.Leads(old(w), w, lim) && old(w.dirty) <= w.dirty && Moves.Span(pg, num) <= w.dirty
      ensures Valid() && pg == old(head)[i - 1] && head == Taken(old(head), i, num)
      ensures 2 <= pg && pg + num <= next && used == old(used) + multiset(Pages(pg, num))
    {
      hide Conserved, Listed, TwinOf, RecordsMatch, Moves.Leads, Moves.Span, Taken;
      pg := head[i - 1];
      HeadTaken(used, loose, head, freed, Listed(db, pglast, t), next, i, num);
      HeadTwin(w, t, next, pglast, used, head, loose, freed, i, num, lim);
      ghost var span := Moves.Span(pg, num);
      w := w.(head := w.head - span, tree := w.tree + span, dirty := w.dirty + span);
      used, head := used + multiset(Pages(pg, num)), Taken(head, i, num);
    }

    /** Pages the file grows by. */
    method TakeNew(num: nat) returns (pg: nat)
      requires Valid() && next + num < maxpg && Twin()
      modifies `used, `next, `w
      ensures Twin() && Moves.Leads(old(w), w, lim) && old(w.dirty) <= w.dirty && Moves.Span(pg, num) <= w.dirty
      ensures Valid() && pg == old(next) && next == old(next) + num
      ensures used == old(used) + multiset(Pages(pg, num))
    {
      hide Conserved, Listed, TwinOf, RecordsMatch, Moves.Leads, Moves.Span;
      pg := next;
      NewTwin(w, t, next, pglast, used, head, loose, freed, num, lim);
      ghost var span := Moves.Span(next, num);
      w := w.(next := next + num, tree := w.tree + span, dirty := w.dirty + span);
      NewTaken(used, loose, head, freed, Listed(db, pglast, t), next, num);
      used, next := used + multiset(Pages(pg, num)), next + num;
    }

    lemma TookOne(was: multiset<Id>, np: nat, p: Id)
      requires Valid() && np + 1 <= next && used == was + multiset(Pages(np, 1)) && p in was
      ensures np !in was && multiset([p]) <= used && Moves.Span(np, 1) == {np}
    {
      hide *;
      Parts();
      UsedAtMost(np);
      OneTaken(was, np);
      Moves.SpanIs(np, 1);
      OneUsed(used, was, np, p);
    }

    lemma UsedAtMost(x: Id)
      requires Valid()
      ensures used[x] <= 1
    {
      hide *;
      Parts();
      OnePlace(used, loose, head, freed, Listed(db, pglast, t), next);
    }

    /** `mdb_page_touch`: a clean page is replaced by a new one, and freed. */
    method Touch(p: Id, scan: Txnid) returns (rc: Rc, np: nat)
      requires Valid() && p in used && scan < t && scan <= lim && Twin()
      modifies this
      ensures Twin() && Moves.Leads(old(w), w, lim) && old(w.dirty) <= w.dirty
      ensures old(p !in dirty) && rc == Success ==> np in w.dirty
      ensures Valid() && Fetched(old(pglast), old(pgoldest), scan) && db == old(db)
      ensures old(p in dirty) ==> rc == Success && np == p && used == old(used) && freed == old(freed)
      ensures old(p !in dirty) && rc == Success ==>
                2 <= np < next && used == old(used) + multiset(Pages(np, 1)) - multiset([p]) && freed == old(freed) + [p]
      ensures rc != Success ==> used == old(used) && freed == old(freed) && dirty == old(dirty) && Short(this, 1, scan)
      ensures old(dirty) <= dirty <= old(dirty) + {np} && (rc == Success ==> np in dirty || np in old(loose))
      ensures old(p in dirty) ==> dirty == old(dirty)
      ensures old(p !in dirty) && rc == Success ==> np !in old(used)
      ensures loose == old(loose) || (old(loose) != [] && loose == old(loose)[1..])
      ensures rc == TxnFull <==> old(p !in dirty && dirtyRoom == 0 && loose == [])
      ensures dirtyRoom == old(dirtyRoom) - if rc == Success && old(p !in dirty && loose == []) then 1 else 0
      ensures Quota() <= old(Quota()) && (old(Accounted()) ==> Accounted() && Quota() == old(Quota()))
    {
      hide *;
      Moves.LeadsSelf(w, lim);
      if p in dirty {
        FetchedIf(pglast, pgoldest, scan);
        return Success, p;
      }
      rc, np := Alloc(1, scan);
      if rc == Success {
        TookOne(old(used), np, p);
        ghost var v := w;
        Free([p]);
        Moves.LeadsOn(old(w), v, w, lim);
      }
    }

    /** `mdb_page_loose`: a page of this transaction that leaves its tree can be used again at once,
        except in the freeDB; another is freed. */
    method Loosen(p: Id, freeDb: bool)
      requires Valid() && p in used && Twin() && (p in dirty ==> p in w.dirty)
      modifies `used, `loose, `freed, `w
      ensures Twin() && Moves.Leads(old(w), w, lim) && w.dirty == old(w.dirty)
      ensures Valid() && used == old(used) - multiset{p}
      ensures if p in dirty && !freeDb then loose == [p] + old(loose) && freed == old(freed)
              else loose == old(loose) && freed == old(freed) + [p]
      ensures old(Accounted()) ==> Accounted()
    {
      hide *;
      if p in dirty && !freeDb {
        MakeLoose(p);
      } else {
        OneBag(p);
        Free([p]);
      }
    }

    /** A page of this transaction goes on the loose list. */
    method MakeLoose(p: Id)
      requires Valid() && p in used && Twin() && p in w.dirty
      modifies `used, `loose, `w
      ensures Valid() && Twin() && Moves.Leads(old(w), w, lim) && w.dirty == old(w.dirty)
      ensures used == old(used) - multiset{p} && loose == [p] + old(loose) && (old(Accounted()) ==> Accounted())
    {
      hide *;
      Parts();
      AccountedIf();
      if Accounted() { LoosenedStill(dirty, used, loose, freed, p); }
      TwinLimits();
      LoosenTwin(w, t, next, pglast, used, head, loose, freed, Listed(db, pglast, t), p, lim);
      PageLoosened(used, loose, head, freed, Listed(db, pglast, t), next, p);
      w, used, loose := w.(tree := w.tree - {p}, loose := w.loose + {p}), used - multiset{p}, [p] + loose;
      AccountedIf();
      NowValid();
      TwinLimits();
    }

    /** `mdb_midl_append` to mt_free_pgs, as is done with a root page and in `mdb_drop0`. */
    method Free(pages: seq<Id>)
      requires Valid() && multiset(pages) <= used && Twin()
      modifies `used, `freed, `w
      ensures Twin() && Moves.Leads(old(w), w, lim) && w.dirty == old(w.dirty)
      ensures Valid() && used == old(used) - multiset(pages) && freed == old(freed) + pages
      ensures old(Accounted()) ==> Accounted()
    {
      hide Conserved, Listed, TwinOf, RecordsMatch, Moves.Leads, AccountedIn;
      if Accounted() { FreedStill(dirty, used, loose, freed, pages); }
      FreedTwin(w, t, next, pglast, used, head, loose, freed, Listed(db, pglast, t), pages, lim);
      w := w.(tree := w.tree - Moves.SetOf(pages), freed := w.freed + Moves.SetOf(pages));
      PageFreed(used, loose, head, freed, Listed(db, pglast, t), next, pages);
      used, freed := used - multiset(pages), freed + pages;
    }

    /** `mdb_ovpage_free`: overflow pages of this transaction go back to me_pghead, if there is one;
        others are freed. */
    method OvFree(pg: nat, n: nat)
      requires Valid() && pg + n <= ID_MAX && multiset(Pages(pg, n)) <= used
      requires Twin() && (pg in dirty ==> Moves.Span(pg, n) <= w.dirty)
      modifies `used, `head, `freed, `dirty, `dirtyRoom, `w
      ensures Twin() && Moves.Leads(old(w), w, lim) && w.dirty == old(w.dirty)
      ensures Valid() && used == old(used) - multiset(Pages(pg, n))
      ensures if old(pglast > 0 && pg in dirty)
              then head == WithRun(old(head), pg, n) && freed == old(freed) && dirtyRoom == old(dirtyRoom) + 1
                   && dirty == old(dirty) - {pg}
              else head == old(head) && freed == old(freed) + Pages(pg, n) && dirty == old(dirty) && dirtyRoom == old(dirtyRoom)
      ensures Quota() == old(Quota())
      ensures old(Accounted()) && (forall q | pg < q < pg + n :: q !in old(dirty)) ==> Accounted()
    {
      hide *;
      Parts();
      TwinLimits();
      AccountedIf();
      if pglast > 0 && pg in dirty {
        RunTwin(w, t, next, pglast, used, head, loose, freed, Listed(db, pglast, t), pg, n, lim);
        w := w.(tree := w.tree - Moves.Span(pg, n), head := w.head + Moves.Span(pg, n));
        RunReturned(used, loose, head, freed, Listed(db, pglast, t), next, pg, n);
        head := WithRun(head, pg, n);
        UnmarkOne(dirty, pg);
        if Accounted() && forall q | pg < q < pg + n :: q !in dirty { RunStill(dirty, used, loose, freed, pg, n); }
        used, dirty, dirtyRoom := used - multiset(Pages(pg, n)), dirty - {pg}, dirtyRoom + 1;
        AccountedIf();
        NowValid();
        TwinLimits();
      } else {
        Free(Pages(pg, n));
      }
    }
  }
}
