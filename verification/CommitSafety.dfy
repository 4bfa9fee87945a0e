/** A write transaction of the trees is a run of the protocol: its page moves, its page writes and its save are steps
    that are enabled, one after the other. */
module CommitSafety {
  import opened Options
  import opened Mvcc
  import opened MvccInvariant
  import opened MvccSafety
  import opened Upkeep
  import opened PageMoves
  import MvccTheorems
  import MvccPages
  import T = TxnPages
  import CommitPages
  import TreePages
  import PageUnits
  import PageFiles
  import PageTrees
  import TouchPath
  import FreelistSave
  import NumberedDb
  import NumberedPlace
  import B = BTree
  import IdSort
  import IdLists

  ghost function StateAfter(acts: seq<Action>): (st: State)
    requires MvccTheorems.Run(acts).Some?
    ensures |st.metas| == 2 && |st.possMeta| == 2
  {
    MvccTheorems.Run(acts).value
  }

  lemma RunOn(acts: seq<Action>, a: Action)
    requires MvccTheorems.Run(acts).Some? && Enabled(StateAfter(acts), a) && !a.Join?
    ensures MvccTheorems.Run(acts + [a]).Some? && StateAfter(acts + [a]) == Do(StateAfter(acts), a)
  {
    hide Enabled, Do;
    assert (acts + [a])[..|acts + [a]| - 1] == acts;
  }

  // ---------------------------------------------------------------- its moves

  lemma MoveEnabled(st: State, w: Writer, a: Action, lim: Txnid)
    requires |st.metas| == 2 && |st.possMeta| == 2
    requires st.lock == Held(w) && w.pc.Work? && MoveOk(w, a, lim) && lim <= CacheAt(st.cache, w.env)
    ensures Enabled(st, a) && !a.Join? && Do(st, a) == SetWriter(st, Moved(w, a))
  {}

  /** Moves that lead from the writer to another are a run. */
  lemma {:induction false} MovesRun(acts: seq<Action>, moves: seq<Action>, w: Writer, v: Writer, lim: Txnid)
    requires MvccTheorems.Run(acts).Some? && StateAfter(acts).lock == Held(w) && w.pc.Work?
    requires Replay(w, moves, lim) == Some(v) && lim <= CacheAt(StateAfter(acts).cache, w.env)
    ensures MvccTheorems.Run(acts + moves).Some? && StateAfter(acts + moves) == SetWriter(StateAfter(acts), v)
    decreases |moves|
  {
    hide *;
    if moves == [] {
      NoMoves(acts, moves, w, v, lim);
    } else {
      var rest, a := moves[..|moves| - 1], moves[|moves| - 1];
      var u := LastMove(w, moves, v, lim);
      MovesRun(acts, rest, w, u, lim);
      ReplayKeeps(w, rest, u, lim);
      MovedState(StateAfter(acts), u);
      MoveEnabled(StateAfter(acts + rest), u, a, lim);
      RunOn(acts + rest, a);
      assert acts + rest + [a] == acts + moves;
      MovedTwice(StateAfter(acts), u, v);
    }
  }

  lemma NoMoves(acts: seq<Action>, moves: seq<Action>, w: Writer, v: Writer, lim: Txnid)
    requires MvccTheorems.Run(acts).Some? && StateAfter(acts).lock == Held(w) && moves == [] && Replay(w, moves, lim) == Some(v)
    ensures acts + moves == acts && v == w && SetWriter(StateAfter(acts), v) == StateAfter(acts)
  {
    hide MvccTheorems.Run, StateAfter;
  }

  lemma LastMove(w: Writer, moves: seq<Action>, v: Writer, lim: Txnid) returns (u: Writer)
    requires moves != [] && Replay(w, moves, lim) == Some(v)
    ensures var a := moves[|moves| - 1];
            Replay(w, moves[..|moves| - 1], lim) == Some(u) && MoveOk(u, a, lim) && PageMove(a)
            && (a.TakeRecord? ==> a.k in u.base.free) && v == Moved(u, a)
  {
    u := Replay(w, moves[..|moves| - 1], lim).value;
  }

  lemma MovedTwice(st: State, u: Writer, v: Writer)
    ensures SetWriter(SetWriter(st, u), v) == SetWriter(st, v)
  {}

  lemma MovedState(st: State, v: Writer)
    requires |st.metas| == 2
    ensures var r := SetWriter(st, v);
            r.lock == Held(v) && r.mem == st.mem && r.cache == st.cache && |r.metas| == 2 && Live(r) == Live(st)
  {}

  // ---------------------------------------------------------------- its page writes

  /** Writes of these pages, as they are in `mem`. */
  function Writes(pages: seq<Pgno>, mem: map<Pgno, Page>): (r: seq<Action>)
    ensures |r| == |pages|
  {
    if pages == [] then [] else Writes(pages[..|pages| - 1], mem) + [WritePage(pages[|pages| - 1], At(mem, pages[|pages| - 1]))]
  }

  lemma WriteEnabled(st: State, w: Writer, p: Pgno, c: Page)
    requires |st.metas| == 2 && |st.possMeta| == 2
    requires st.lock == Held(w) && w.pc.Work? && p in w.tree && p in w.dirty
    ensures Enabled(st, WritePage(p, c))
    ensures Do(st, WritePage(p, c)) == st.(mem := st.mem[p := c], poss := st.poss[p := PossAt(st.poss, p) + {c}])
  {}

  /** Both states are the same but for memory and what is on the disk. */
  predicate SameBut(a: State, b: State) {
    && b.metas == a.metas && b.possMeta == a.possMeta && b.mti == a.mti && b.cache == a.cache && b.readers == a.readers
    && b.lock == a.lock && b.committed == a.committed && b.floor == a.floor
  }

  lemma WriteRun(acts: seq<Action>, w: Writer, p: Pgno, c: Page)
    requires MvccTheorems.Run(acts).Some? && StateAfter(acts).lock == Held(w) && w.pc.Work? && p in w.tree && p in w.dirty
    ensures MvccTheorems.Run(acts + [WritePage(p, c)]).Some?
    ensures var st := StateAfter(acts + [WritePage(p, c)]);
            SameBut(StateAfter(acts), st) && st.lock == Held(w) && st.mem == StateAfter(acts).mem[p := c]
  {
    hide MvccTheorems.Run, StateAfter, Enabled, Do;
    WriteEnabled(StateAfter(acts), w, p, c);
    RunOn(acts, WritePage(p, c));
  }

  lemma SameButOn(a: State, b: State, c: State)
    requires SameBut(a, b) && SameBut(b, c)
    ensures SameBut(a, c)
  {}

  lemma WritesMore(pages: seq<Pgno>, mem: map<Pgno, Page>)
    requires pages != []
    ensures var rest, p := pages[..|pages| - 1], pages[|pages| - 1];
            && Writes(pages, mem) == Writes(rest, mem) + [WritePage(p, At(mem, p))]
            && forall q :: q in pages <==> q in rest || q == p
  {
    hide At;
    assert pages == pages[..|pages| - 1] + [pages[|pages| - 1]];
  }

  lemma NoWrites(acts: seq<Action>, mem: map<Pgno, Page>, st: State)
    ensures acts + Writes([], mem) == acts && SameBut(st, st)
  {
    assert Writes([], mem) == [];
  }

  lemma AtPut(mem: map<Pgno, Page>, p: Pgno, c: Page)
    ensures forall q: Pgno :: At(mem[p := c], q) == if q == p then c else At(mem, q)
  {
    var m := mem[p := c];
    forall q: Pgno ensures At(m, q) == if q == p then c else At(mem, q) {
      if q != p { assert q in m <==> q in mem; }
    }
  }

  lemma {:induction false} WritesRun(acts: seq<Action>, pages: seq<Pgno>, mem: map<Pgno, Page>, w: Writer)
    requires MvccTheorems.Run(acts).Some? && StateAfter(acts).lock == Held(w) && w.pc.Work?
    requires forall p | p in pages :: p in w.tree && p in w.dirty
    ensures MvccTheorems.Run(acts + Writes(pages, mem)).Some?
    ensures var st := StateAfter(acts + Writes(pages, mem));
            && SameBut(StateAfter(acts), st) && st.lock == Held(w)
            && forall p: Pgno :: At(st.mem, p) == if p in pages then At(mem, p) else At(StateAfter(acts).mem, p)
    decreases |pages|
  {
    hide *;
    if pages == [] {
      NoWrites(acts, mem, StateAfter(acts));
    } else {
      var rest, p := pages[..|pages| - 1], pages[|pages| - 1];
      WritesMore(pages, mem);
      WritesRun(acts, rest, mem, w);
      var mid := acts + Writes(rest, mem);
      WriteRun(mid, w, p, At(mem, p));
      AtPut(StateAfter(mid).mem, p, At(mem, p));
      assert mid + [WritePage(p, At(mem, p))] == acts + Writes(pages, mem);
      SameButOn(StateAfter(acts), StateAfter(mid), StateAfter(acts + Writes(pages, mem)));
    }
  }

  /** The elements of a set, in some order. */
  lemma {:induction false} Listing(s: set<Pgno>) returns (r: seq<Pgno>)
    ensures forall p :: p in r <==> p in s
    decreases s
  {
    if s == {} {
      r := [];
    } else {
      var p :| p in s;
      var rest := Listing(s - {p});
      r := [p] + rest;
    }
  }

  /** Memory as it is, where the set says so. */
  lemma MemoryRun(acts: seq<Action>, written: set<Pgno>, mem: map<Pgno, Page>, w: Writer) returns (writes: seq<Action>)
    requires MvccTheorems.Run(acts).Some? && StateAfter(acts).lock == Held(w) && w.pc.Work?
    requires forall p | p in written :: p in w.tree && p in w.dirty
    requires forall p: Pgno | p !in written :: At(mem, p) == At(StateAfter(acts).mem, p)
    ensures MvccTheorems.Run(acts + writes).Some? && SameBut(StateAfter(acts), StateAfter(acts + writes))
    ensures forall p: Pgno :: At(StateAfter(acts + writes).mem, p) == At(mem, p)
  {
    var pages := Listing(written);
    hide MvccTheorems.Run, StateAfter, At;
    WritesRun(acts, pages, mem, w);
    writes := Writes(pages, mem);
  }

  // ---------------------------------------------------------------- the transaction

  lemma SaveEnabled(st: State, w: Writer, s: Snapshot)
    requires |st.metas| == 2 && |st.possMeta| == 2
    requires st.lock == Held(w) && w.pc.Work? && w.loose == {} && Committable(w, s, st.mem)
    ensures Enabled(st, Save(s)) && Do(st, Save(s)) == SetWriter(st, w.(pc := Saved(s)))
  {
    hide Committable;
  }

  lemma CommittableSame(w: Writer, s: Snapshot, a: map<Pgno, Page>, b: map<Pgno, Page>)
    requires Committable(w, s, a) && forall p: Pgno :: At(b, p) == At(a, p)
    ensures Committable(w, s, b)
  {
    hide At, ReachedOnce, SavedFree;
  }

  /** No page the writer may write is one of a snapshot in use, or of one that a meta page names. */
  lemma OldPages(acts: seq<Action>, w: Writer)
    requires MvccTheorems.Run(acts).Some? && StateAfter(acts).lock == Held(w) && w.pc.Work?
    ensures forall s | s in Live(StateAfter(acts)) :: w.dirty !! s.image.Keys
  {
    MvccTheorems.RunInv(acts);
    var st := StateAfter(acts);
    hide MvccTheorems.Run, InvMetas, InvReaders, InvFree, InvMem, SolidAll, InvLock, InvCommitted, Live, Partition;
    Parts(st);
    assert ProtectsAll(w, Live(st));
    assert forall s | s in Live(st) :: Protects(w, s);
  }

  /** What the trees of a transaction do is what the protocol allows: from the state in which it began, when the file and
      memory hold the trees it began with, moves and writes of its pages and the save of what it commits are a run. The
      file then holds its trees and memory is as the file; the readers and their snapshots are as they were. */
  lemma TransactionRuns(acts: seq<Action>, w: Writer, db: TreePages.Databases, db0: seq<T.Record>,
                        a: seq<Option<PageTrees.Tree>>, was: set<nat>, f: seq<PageTrees.Cell>, body: PageTrees.Cell -> nat)
    returns (more: seq<Action>, s: Snapshot, g: seq<PageTrees.Cell>)
    requires MvccTheorems.Run(acts).Some? && StateAfter(acts).lock == Held(w) && w.pc.Work?
    requires Leads(w, db.txn.w, db.txn.lim) && db.txn.lim <= CacheAt(StateAfter(acts).cache, w.env)
    requires CommitPages.Complete(db, db0) && T.Ascending(db0) && w.base.free == MvccPages.FreeMap(db0)
    requires PageUnits.Kept(a, was, db.dbs, db.txn.dirty)
    requires PageFiles.AllHeld(f, a) && CommitPages.Mapped(f, StateAfter(acts).mem, TreePages.BagOf(a), body)
    requires db.txn.next <= |f|
    ensures MvccTheorems.Run(acts + more).Some?
    ensures var st := StateAfter(acts + more);
            && st == StateAfter(acts).(mem := st.mem, poss := st.poss, lock := Held(db.txn.w.(pc := Saved(s))))
            && CommitPages.Commits(s, db, db.txn.w, st.mem) && Committable(db.txn.w, s, st.mem)
            && PageFiles.AllHeld(g, db.dbs) && CommitPages.Mapped(g, st.mem, TreePages.BagOf(db.dbs), body)
            && (forall s', p | s' in Live(StateAfter(acts)) && p in s'.image :: At(st.mem, p) == At(StateAfter(acts).mem, p))
            && (forall s', t | s' in Live(StateAfter(acts)) && PageTrees.Holds(f, t)
                              && (forall p | p in TouchPath.Bag(t) :: p in s'.image) :: PageTrees.Holds(g, t))
  {
    hide *;
    var v, st0 := db.txn.w, StateAfter(acts);
    LeadsKeeps(w, v, db.txn.lim);
    var moves := SomeMoves(w, v, db.txn.lim);
    MovesRun(acts, moves, w, v, db.txn.lim);
    var mid := acts + moves;
    MovedState(st0, v);
    OldPages(mid, v);
    var after;
    g, after, s := CommitPages.CommitFile(db, db0, a, was, f, st0.mem, body);
    var written := set p | p in v.tree && PageFiles.Written(db.dbs, db.txn.dirty, p);
    var writes := MemoryRun(mid, written, after, v);
    var end := mid + writes;
    var mem := StateAfter(end).mem;
    CommittableSame(v, s, after, mem);
    CommitsSame(s, db, v, after, mem);
    MappedSame(g, after, mem, TreePages.BagOf(db.dbs), body);
    NothingLoose(db, db0);
    SaveState(st0, v, StateAfter(mid), StateAfter(end), s);
    SaveEnabled(StateAfter(end), v, s);
    RunOn(end, Save(s));
    more := moves + writes + [Save(s)];
    assert end + [Save(s)] == acts + more;
    forall s', p | s' in Live(st0) && p in s'.image ensures At(mem, p) == At(st0.mem, p) {
      NotDirty(v.dirty, s', p);
    }
    forall s', t | s' in Live(st0) && PageTrees.Holds(f, t) && (forall p | p in TouchPath.Bag(t) :: p in s'.image)
      ensures PageTrees.Holds(g, t)
    {
      forall p | p in TouchPath.Bag(t) ensures p !in v.dirty { NotDirty(v.dirty, s', p); }
    }
  }

  lemma SomeMoves(w: Writer, v: Writer, lim: Txnid) returns (moves: seq<Action>)
    requires Leads(w, v, lim)
    ensures Replay(w, moves, lim) == Some(v)
  {
    hide Replay;
    moves :| Replay(w, moves, lim) == Some(v);
  }

  lemma NotDirty(dirty: set<Pgno>, s: Snapshot, p: Pgno)
    requires dirty !! s.image.Keys && p in s.image
    ensures p !in dirty
  {}

  lemma CommitsSame(s: Snapshot, db: TreePages.Databases, w: Writer, a: map<Pgno, Page>, b: map<Pgno, Page>)
    requires CommitPages.Commits(s, db, w, a) && forall p: Pgno :: At(b, p) == At(a, p)
    ensures CommitPages.Commits(s, db, w, b)
  {
    hide At, CommitPages.RootsOf, MvccPages.FreeMap;
  }

  lemma MappedSame(g: seq<PageTrees.Cell>, a: map<Pgno, Page>, b: map<Pgno, Page>, pages: multiset<Pgno>,
                   body: PageTrees.Cell -> nat)
    requires CommitPages.Mapped(g, a, pages, body) && forall p: Pgno :: At(b, p) == At(a, p)
    ensures CommitPages.Mapped(g, b, pages, body)
  {
    hide At, CommitPages.Seen;
  }

  lemma NothingLoose(db: TreePages.Databases, db0: seq<T.Record>)
    requires CommitPages.Complete(db, db0)
    ensures db.txn.w.loose == {}
  {
    hide T.TwinOf, T.RecordsMatch, TreePages.BagOf;
    db.txn.TwinLimits();
    T.TwinIf(db.txn.w, db.txn.t, db.txn.next, db.txn.pglast, db.txn.used, db.txn.head, db.txn.loose, db.txn.freed);
  }

  lemma SaveState(st0: State, v: Writer, st1: State, st2: State, s: Snapshot)
    requires |st0.metas| == 2 && |st0.possMeta| == 2 && st1 == SetWriter(st0, v) && SameBut(st1, st2)
    ensures st2.lock == Held(v) && |st2.metas| == 2 && |st2.possMeta| == 2
    ensures SetWriter(st2, v.(pc := Saved(s))) == st0.(mem := st2.mem, poss := st2.poss, lock := Held(v.(pc := Saved(s))))
  {}

  // ---------------------------------------------------------------- how it begins

  /** The writer has just begun its transaction. */
  ghost predicate Begun(st: State) {
    st.lock.Held? && st.lock.w == FirstWriterOf(st.lock.w.env, st.lock.w.t, st.lock.w.base)
  }

  ghost predicate InSome(db: seq<T.Record>, x: Pgno) {
    exists i :: 0 <= i < |db| && x in SetOf(db[i].pages)
  }

  lemma InSomeCons(db: seq<T.Record>, x: Pgno)
    requires db != []
    ensures InSome(db, x) <==> x in SetOf(db[0].pages) || InSome(db[1..], x)
    ensures InSome(db[1..], x) ==> exists j :: 0 < j < |db| && x in SetOf(db[j].pages)
  {
    hide SetOf;
    var rest := db[1..];
    if i :| 0 <= i < |rest| && x in SetOf(rest[i].pages) { assert x in SetOf(db[i + 1].pages); }
    if j :| 0 < j < |db| && x in SetOf(db[j].pages) { assert x in SetOf(rest[j - 1].pages); }
  }

  /** A page of records that have no page in common is listed once. */
  lemma {:induction false} ListedOnce(db: seq<T.Record>, lo: Txnid, hi: Txnid, x: IdSort.Id)
    requires forall i | 0 <= i < |db| :: lo < db[i].id < hi && IdLists.Strict(db[i].pages)
    requires forall i, j | 0 <= i < j < |db| :: SetOf(db[i].pages) !! SetOf(db[j].pages)
    ensures T.Listed(db, lo, hi)[x] == if InSome(db, x) then 1 else 0
    decreases |db|
  {
    if db != [] {
      var rest := db[1..];
      hide InSome, SetOf, IdLists.Strict;
      assert forall i | 0 <= i < |rest| :: rest[i] == db[i + 1];
      ListedOnce(rest, lo, hi, x);
      T.StrictOnce(db[0].pages);
      T.ListSet(db[0].pages);
      InSomeCons(db, x);
      assert InSome(rest, x) ==> x !in SetOf(db[0].pages);
      assert T.Listed(db, lo, hi) == multiset(db[0].pages) + T.Listed(rest, lo, hi);
    }
  }

  /** What the invariant says of the snapshot a transaction begins with. */
  lemma BaseFormed(acts: seq<Action>, w: Writer)
    requires MvccTheorems.Run(acts).Some? && StateAfter(acts).lock == Held(w) && w.pc.Work?
    ensures WellFormed(w.base) && w.t == w.base.id + 1
  {
    MvccTheorems.RunInv(acts);
    var st := StateAfter(acts);
    hide MvccTheorems.Run, InvReaders, InvFree, InvMem, SolidAll, InvWriter, InvCommitted, WellFormed;
    Parts(st);
    assert st.metas[PickMeta(st.metas)] in st.possMeta[0] + st.possMeta[1];
  }

  /** The free pages of the snapshot are those of its records. */
  lemma FreeListed(free: map<Txnid, set<Pgno>>, db: seq<T.Record>, x: Pgno)
    requires T.Ascending(db) && free == MvccPages.FreeMap(db) && forall i | 0 <= i < |db| :: 0 < db[i].id
    ensures x in FreePages(free, 0) <==> InSome(db, x)
  {
    hide MvccPages.FreeMap, SetOf;
    if x in FreePages(free, 0) {
      var k :| k in free && x in free[k];
      var i := MvccPages.FreeMapKey(db, k);
    }
    if i :| 0 <= i < |db| && x in SetOf(db[i].pages) {
      MvccPages.FreeMapAt(db, i);
      assert db[i].id in free && x in free[db[i].id];
    }
  }

  lemma RecordsApart(free: map<Txnid, set<Pgno>>, db: seq<T.Record>)
    requires T.Ascending(db) && free == MvccPages.FreeMap(db)
    requires forall k, k' | k in free && k' in free && k < k' :: free[k] !! free[k']
    ensures forall i, j | 0 <= i < j < |db| :: SetOf(db[i].pages) !! SetOf(db[j].pages)
  {
    hide MvccPages.FreeMap, SetOf;
    forall i, j | 0 <= i < j < |db| ensures SetOf(db[i].pages) !! SetOf(db[j].pages) {
      MvccPages.FreeMapAt(db, i);
      MvccPages.FreeMapAt(db, j);
      assert db[i].id < db[j].id;
    }
  }

  /** The lists a transaction starts from hold every page of the file once. */
  lemma TxnBegins(acts: seq<Action>, w: Writer, db0: seq<T.Record>, used: set<IdSort.Id>)
    requires MvccTheorems.Run(acts).Some? && StateAfter(acts).lock == Held(w) && w == FirstWriterOf(w.env, w.t, w.base)
    requires T.Ascending(db0) && w.base.free == MvccPages.FreeMap(db0) && used == w.tree && w.next <= IdSort.ID_MAX
    requires forall i | 0 <= i < |db0| :: 0 < db0[i].id && IdLists.Strict(db0[i].pages)
    ensures forall i | 0 <= i < |db0| :: db0[i].id < w.t
    ensures T.Conserved(multiset(used), [], [], [], T.Listed(db0, 0, w.t), w.next)
    ensures T.RecordsMatch(w.base.free, db0, 0, w.t)
  {
    BaseFormed(acts, w);
    hide *;
    FormedParts(w.base);
    FirstWriterIs(w);
    var listed := T.Listed(db0, 0, w.t);
    FirstRecords(w.base, db0, w.t);
    RecordsApart(w.base.free, db0);
    forall x: IdSort.Id ensures multiset(used)[x] + listed[x] == T.FilePages(w.next)[x] {
      ListedOnce(db0, 0, w.t, x);
      FreeListed(w.base.free, db0, x);
      PageCount(w.base, used, listed, w.next, x);
    }
    T.FirstConserved(used, listed, w.next);
  }

  lemma FirstRecords(s: Snapshot, db0: seq<T.Record>, t: Txnid)
    requires T.Ascending(db0) && s.free == MvccPages.FreeMap(db0) && forall k | k in s.free :: k < t
    ensures (forall i | 0 <= i < |db0| :: db0[i].id < t) && T.RecordsMatch(s.free, db0, 0, t)
  {
    hide *;
    forall i | 0 <= i < |db0| ensures db0[i].id in s.free && s.free[db0[i].id] == SetOf(db0[i].pages) && db0[i].id < t {
      MvccPages.FreeMapAt(db0, i);
    }
    forall k | k in s.free ensures T.HasRecord(db0, k) {
      var i := MvccPages.FreeMapKey(db0, k);
      T.RecordAt(db0, i);
    }
    T.MatchIf(s.free, db0, 0, t);
  }

  lemma FirstWriterIs(w: Writer)
    requires w == FirstWriterOf(w.env, w.t, w.base)
    ensures w.tree == w.base.image.Keys && w.next == w.base.next && w.pc.Work?
    ensures w.last == 0 && w.head == w.loose == w.freed == {}
  {}

  lemma FormedParts(s: Snapshot)
    requires WellFormed(s)
    ensures 2 <= s.next && (forall k | k in s.free :: 1 <= k <= s.id && s.free[k] !! s.image.Keys)
    ensures forall k, k' | k in s.free && k' in s.free && k < k' :: s.free[k] !! s.free[k']
    ensures s.image.Keys + FreePages(s.free, 0) == Range(s.next)
  {
    hide ReachedOnce, FreePages, Range;
  }

  lemma PageCount(s: Snapshot, used: set<IdSort.Id>, listed: multiset<IdSort.Id>, next: nat, x: IdSort.Id)
    requires used == s.image.Keys && s.image.Keys + FreePages(s.free, 0) == Range(next) && 2 <= next <= IdSort.ID_MAX
    requires forall k | k in s.free :: s.free[k] !! s.image.Keys
    requires listed[x] == if x in FreePages(s.free, 0) then 1 else 0
    ensures multiset(used)[x] + listed[x] == T.FilePages(next)[x]
  {
    T.PagesOnce(2, next - 2, x);
    assert x in s.image.Keys ==> x !in FreePages(s.free, 0);
    hide FreePages;
    assert x in s.image.Keys + FreePages(s.free, 0) <==> x in Range(next);
  }

  // ---------------------------------------------------------------- a whole transaction

  /** The snapshot is that of these trees and of the freeDB's records, as the file and memory hold them. */
  ghost predicate SnapshotOf(s: Snapshot, mem: map<Pgno, Page>, dbs: seq<Option<PageTrees.Tree>>, records: seq<T.Record>,
                         f: seq<PageTrees.Cell>, body: PageTrees.Cell -> nat) {
    && T.Ascending(records) && (forall i | 0 <= i < |records| :: 0 < records[i].id && IdLists.Strict(records[i].pages))
    && s.free == MvccPages.FreeMap(records) && s.roots == CommitPages.RootsOf(dbs)
    && TreePages.BagOf(dbs) == multiset(s.image.Keys)
    && PageFiles.AllHeld(f, dbs) && CommitPages.Mapped(f, mem, TreePages.BagOf(dbs), body)
  }

  lemma SnapshotParts(s: Snapshot, mem: map<Pgno, Page>, dbs: seq<Option<PageTrees.Tree>>, records: seq<T.Record>,
                    f: seq<PageTrees.Cell>, body: PageTrees.Cell -> nat)
    requires T.Ascending(records)
    ensures SnapshotOf(s, mem, dbs, records, f, body)
       <==> && (forall i | 0 <= i < |records| :: 0 < records[i].id && IdLists.Strict(records[i].pages))
            && s.free == MvccPages.FreeMap(records) && s.roots == CommitPages.RootsOf(dbs)
            && TreePages.BagOf(dbs) == multiset(s.image.Keys)
            && PageFiles.AllHeld(f, dbs) && CommitPages.Mapped(f, mem, TreePages.BagOf(dbs), body)
  {
    hide T.Ascending, MvccPages.FreeMap, CommitPages.RootsOf, TreePages.BagOf, PageFiles.AllHeld, CommitPages.Mapped;
  }

  lemma SnapshotRises(s: Snapshot, mem: map<Pgno, Page>, dbs: seq<Option<PageTrees.Tree>>, records: seq<T.Record>,
                    f: seq<PageTrees.Cell>, body: PageTrees.Cell -> nat)
    requires SnapshotOf(s, mem, dbs, records, f, body)
    ensures T.Ascending(records)
  {}

  /** What is committed is the snapshot of the trees. */
  lemma CommitSnapshot(db: TreePages.Databases, db0: seq<T.Record>, s: Snapshot, mem: map<Pgno, Page>,
                     g: seq<PageTrees.Cell>, body: PageTrees.Cell -> nat)
    requires CommitPages.Complete(db, db0) && CommitPages.Commits(s, db, db.txn.w, mem)
    requires PageFiles.AllHeld(g, db.dbs) && CommitPages.Mapped(g, mem, TreePages.BagOf(db.dbs), body)
    ensures SnapshotOf(s, mem, db.dbs, db.txn.db, g, body) && s.id == db.txn.w.t
  {
    SavedRecords(db, db0);
    CommitImage(db, db0, s, mem);
    hide *;
    SnapshotParts(s, mem, db.dbs, db.txn.db, g, body);
  }

  lemma SavedRecords(db: TreePages.Databases, db0: seq<T.Record>)
    requires CommitPages.Complete(db, db0)
    ensures T.Ascending(db.txn.db) && forall i | 0 <= i < |db.txn.db| :: 0 < db.txn.db[i].id && IdLists.Strict(db.txn.db[i].pages)
  {
    hide TreePages.BagOf, T.Listed, IdLists.Strict, T.Ascending, T.TwinOf, T.RecordsMatch;
  }

  lemma CommitImage(db: TreePages.Databases, db0: seq<T.Record>, s: Snapshot, mem: map<Pgno, Page>)
    requires CommitPages.Complete(db, db0) && CommitPages.Commits(s, db, db.txn.w, mem)
    ensures T.Ascending(db.txn.db) && s.free == MvccPages.FreeMap(db.txn.db) && s.roots == CommitPages.RootsOf(db.dbs)
    ensures TreePages.BagOf(db.dbs) == multiset(s.image.Keys) && s.id == db.txn.w.t
  {
    CommitPages.CompleteParts(db, db0);
    hide MvccPages.FreeMap, CommitPages.RootsOf, TreePages.BagOf, At, T.RecordsMatch, SetOf;
    CommitPages.DbUses(db);
    db.txn.TwinLimits();
    TreePages.UsedOnce(db.txn);
    CommitPages.OnceSet(TreePages.BagOf(db.dbs), s.image.Keys);
  }

  lemma NothingOwned(dbs: seq<Option<PageTrees.Tree>>, own: set<Pgno>)
    ensures PageUnits.Owns(dbs, {}, own)
  {
    hide PageUnits.HasUnit;
  }

  lemma SamePages(used: set<IdSort.Id>, tree: set<Pgno>)
    requires used == tree
    ensures multiset(used) == multiset(tree)
  {
    var pages: set<Pgno> := used;
    assert pages == tree;
    assert multiset(pages) == multiset(tree);
  }

  /** A write transaction from its beginning to its save: when it succeeds, the databases hold what the updates made of
      them, and a run of the protocol leads from the state it began in to one in which it is saved, with the snapshot of
      its trees. Whatever any reader's snapshot, or one of a meta page, holds is as before. When it fails it is given
      up, and all is as it was. */
  method RunTransaction(ps: B.PageSize, dbs: seq<Option<PageTrees.Tree>>, records0: seq<T.Record>, used: set<IdSort.Id>,
                        next: nat, t: Txnid, maxpg: nat, maxFree1Pg: nat, pgoldest: Txnid, dirtyRoom: nat,
                        us: seq<NumberedDb.Update>, script: seq<seq<FreelistSave.FreeWrite>>, scan: Txnid,
                        ghost acts: seq<Action>, ghost w: Writer, ghost f: seq<PageTrees.Cell>,
                        ghost body: PageTrees.Cell -> nat, ghost depths0: seq<nat>)
    returns (rc: NumberedPlace.Outcome, trees: seq<Option<PageTrees.Tree>>, records: seq<T.Record>, ghost depths: seq<nat>,
             ghost more: seq<Action>, ghost s: Snapshot, ghost g: seq<PageTrees.Cell>)
    requires MvccTheorems.Run(acts).Some? && StateAfter(acts).lock == Held(w) && w == FirstWriterOf(w.env, w.t, w.base)
    requires SnapshotOf(w.base, StateAfter(acts).mem, dbs, records0, f, body)
    requires used == w.tree && next == w.next && t == w.t && 2 <= next <= maxpg <= IdSort.ID_MAX && maxpg <= |f| && 0 < maxFree1Pg
    requires pgoldest < t && scan < t && pgoldest <= CacheAt(StateAfter(acts).cache, w.env)
    requires scan <= CacheAt(StateAfter(acts).cache, w.env)
    requires dbs != [] && NumberedDb.AllSound(ps, dbs, depths0) && PageUnits.NoRecords(dbs, 0)
    requires forall u | u in us :: NumberedDb.Allowed(u, |dbs|)
    ensures forall u | u in us :: u.d < |dbs|
    ensures rc == NumberedPlace.Ok ==>
              && |trees| == |dbs| == |depths| && MvccTheorems.Run(acts + more).Some?
              && var st0, st := StateAfter(acts), StateAfter(acts + more);
              && st.lock.Held? && st == st0.(mem := st.mem, poss := st.poss, lock := st.lock)
              && st.lock.w.pc == Saved(s) && st.lock.w.base == w.base && s.id == w.t
              && SnapshotOf(s, st.mem, trees, records, g, body)
              && (forall s', p | s' in Live(st0) && p in s'.image :: At(st.mem, p) == At(st0.mem, p))
              && (forall s', t | s' in Live(st0) && PageTrees.Holds(f, t)
                                && (forall p | p in TouchPath.Bag(t) :: p in s'.image) :: PageTrees.Holds(g, t))
    ensures rc != NumberedPlace.Ok ==>
              && MvccTheorems.Run(acts + more).Some?
              && StateAfter(acts + more) == StateAfter(acts).(lock := Unlocked)
    ensures rc == NumberedPlace.Ok ==>
              forall d | 0 < d < |dbs| ::
                && NumberedDb.Sound(ps, trees[d], depths[d])
                && NumberedDb.Contents(ps, trees[d], depths[d])
                   == NumberedDb.After(NumberedDb.AllContents(ps, dbs, depths0), us)[d]
  {
    hide *;
    ghost var lim := CacheAt(StateAfter(acts).cache, w.env);
    SnapshotRises(w.base, StateAfter(acts).mem, dbs, records0, f, body);
    SnapshotParts(w.base, StateAfter(acts).mem, dbs, records0, f, body);
    TxnBegins(acts, w, records0, used);
    FirstWriterIs(w);
    SamePages(used, w.tree);
    NothingOwned(dbs, w.dirty);
    NumberedDb.SoundParts(ps, dbs, depths0);
    NumberedDb.AllAllowed(us, |dbs|);
    var txn := new T.Txn(t, maxpg, maxFree1Pg, used, next, records0, pgoldest, dirtyRoom, w, lim);
    var db := new TreePages.Databases(txn, dbs);
    db.BoundedIf(scan);
    ghost var stop, after, why;
    rc, depths, stop, after, why := CommitPages.WriteTxn(ps, db, us, script, scan, depths0);
    trees, records, more, s, g := db.dbs, txn.db, [], w.base, f;
    if rc == NumberedPlace.Ok {
      FileBound(db, maxpg);
      more, s, g := TransactionRuns(acts, w, db, records0, dbs, {}, f, body);
      CommitSnapshot(db, records0, s, StateAfter(acts + more).mem, g, body);
      LeadsKeeps(w, db.txn.w, lim);
    } else {
      more := AbortRuns(acts, w, db.txn.w, lim);
    }
  }

  /** A transaction that is given up has moved pages of its own lists only. */
  lemma AbortRuns(acts: seq<Action>, w: Writer, v: Writer, lim: Txnid) returns (more: seq<Action>)
    requires MvccTheorems.Run(acts).Some? && StateAfter(acts).lock == Held(w) && w.pc.Work?
    requires Leads(w, v, lim) && lim <= CacheAt(StateAfter(acts).cache, w.env)
    ensures MvccTheorems.Run(acts + more).Some? && StateAfter(acts + more) == StateAfter(acts).(lock := Unlocked)
  {
    hide *;
    LeadsKeeps(w, v, lim);
    var moves := SomeMoves(w, v, lim);
    MovesRun(acts, moves, w, v, lim);
    AbortEnabled(StateAfter(acts), v);
    RunOn(acts + moves, Abort);
    more := moves + [Abort];
    assert acts + moves + [Abort] == acts + more;
  }

  lemma AbortEnabled(st: State, v: Writer)
    requires |st.metas| == 2 && |st.possMeta| == 2 && v.pc.Work?
    ensures |SetWriter(st, v).metas| == 2 && |SetWriter(st, v).possMeta| == 2
    ensures Enabled(SetWriter(st, v), Abort) && Do(SetWriter(st, v), Abort) == st.(lock := Unlocked)
  {}

  lemma FileBound(db: TreePages.Databases, maxpg: nat)
    requires db.Valid() && db.txn.maxpg == maxpg
    ensures db.txn.next <= maxpg
  {}

  // ---------------------------------------------------------------- one after the other

  lemma SyncRun(acts: seq<Action>, w: Writer, s: Snapshot)
    requires MvccTheorems.Run(acts).Some? && StateAfter(acts).lock == Held(w) && w.pc == Saved(s)
    ensures MvccTheorems.Run(acts + [Sync]).Some?
    ensures var st := StateAfter(acts + [Sync]); st.lock == Held(w.(pc := Synced(s))) && st.mem == StateAfter(acts).mem
  {
    hide MvccTheorems.Run, StateAfter;
    RunOn(acts, Sync);
  }

  lemma MetaRun(acts: seq<Action>, w: Writer, s: Snapshot, sync: bool)
    requires MvccTheorems.Run(acts).Some? && StateAfter(acts).lock == Held(w) && w.pc == Synced(s)
    ensures MvccTheorems.Run(acts + [WriteMeta(sync)]).Some?
    ensures var st := StateAfter(acts + [WriteMeta(sync)]);
            st.lock == Held(w.(pc := MetaOut)) && st.mem == StateAfter(acts).mem && st.metas[w.t % 2] == s
  {
    hide MvccTheorems.Run, StateAfter;
    RunOn(acts, WriteMeta(sync));
  }

  lemma PublishRun(acts: seq<Action>, w: Writer)
    requires MvccTheorems.Run(acts).Some? && StateAfter(acts).lock == Held(w) && w.pc == MetaOut
    ensures MvccTheorems.Run(acts + [Publish]).Some?
    ensures var st := StateAfter(acts + [Publish]);
            && st.lock == Held(w.(pc := Published)) && st.mem == StateAfter(acts).mem && st.metas == StateAfter(acts).metas
            && st.mti == w.t
  {
    hide MvccTheorems.Run, StateAfter;
    RunOn(acts, Publish);
  }

  lemma UnlockRun(acts: seq<Action>, w: Writer)
    requires MvccTheorems.Run(acts).Some? && StateAfter(acts).lock == Held(w) && w.pc == Published
    ensures MvccTheorems.Run(acts + [Unlock]).Some? && StateAfter(acts + [Unlock]) == StateAfter(acts).(lock := Unlocked)
  {
    hide MvccTheorems.Run, StateAfter;
    RunOn(acts, Unlock);
  }

  lemma BeginRun(acts: seq<Action>, env: nat)
    requires MvccTheorems.Run(acts).Some? && StateAfter(acts).lock == Unlocked
    ensures MvccTheorems.Run(acts + [Begin(env)]).Some?
    ensures var st0, st := StateAfter(acts), StateAfter(acts + [Begin(env)]);
            st.lock == Held(FirstWriterOf(env, st0.mti + 1, st0.metas[st0.mti % 2])) && st.mem == st0.mem
  {
    hide MvccTheorems.Run, StateAfter;
    RunOn(acts, Begin(env));
  }

  /** After the save the meta page can be written, and the next transaction begins with the snapshot of these trees. */
  lemma NextTransaction(acts: seq<Action>, w: Writer, s: Snapshot, sync: bool, env: nat) returns (more: seq<Action>)
    requires MvccTheorems.Run(acts).Some? && StateAfter(acts).lock == Held(w) && w.pc == Saved(s)
    ensures MvccTheorems.Run(acts + more).Some?
    ensures StateAfter(acts + more).lock == Held(FirstWriterOf(env, w.t + 1, s)) && StateAfter(acts + more).mem == StateAfter(acts).mem
  {
    hide *;
    SyncRun(acts, w, s);
    var a := acts + [Sync];
    MetaRun(a, w.(pc := Synced(s)), s, sync);
    var b := a + [WriteMeta(sync)];
    PublishRun(b, w.(pc := MetaOut));
    var c := b + [Publish];
    UnlockRun(c, w.(pc := Published));
    var d := c + [Unlock];
    BeginRun(d, env);
    more := [Sync, WriteMeta(sync), Publish, Unlock, Begin(env)];
    assert d + [Begin(env)] == acts + more;
  }

  lemma NoTrees(f: seq<PageTrees.Cell>, mem: map<Pgno, Page>, body: PageTrees.Cell -> nat)
    ensures TreePages.BagOf([None, None]) == multiset{} && CommitPages.RootsOf([None, None]) == []
    ensures PageFiles.AllHeld(f, [None, None]) && CommitPages.Mapped(f, mem, multiset{}, body)
    ensures PageUnits.NoRecords([None, None], 0)
  {
    hide TouchPath.Bag, PageTrees.Holds, PageUnits.In;
    var none: seq<Option<PageTrees.Tree>> := [None, None];
    assert none[1..] == [None] && none[1..][1..] == [];
    assert TreePages.BagOf(none) == TreePages.OptBag(None) + TreePages.BagOf(none[1..]);
  }

  lemma EmptyParts(ps: B.PageSize)
    ensures T.Ascending([]) && MvccPages.FreeMap([]) == map[] && NumberedDb.AllSound(ps, [None, None], [0, 0])
    ensures var s := MvccTheorems.EmptySnapshot; s.free == map[] && s.roots == [] && multiset(s.image.Keys) == multiset{}
  {}

  /** In a newly created environment no database has a page: the first transaction can begin. */
  lemma CreatedSnapshot(ps: B.PageSize, f: seq<PageTrees.Cell>, body: PageTrees.Cell -> nat)
    ensures SnapshotOf(MvccTheorems.EmptySnapshot, MvccTheorems.Created.mem, [None, None], [], f, body)
    ensures PageUnits.NoRecords([None, None], 0) && NumberedDb.AllSound(ps, [None, None], [0, 0])
  {
    hide *;
    NoTrees(f, MvccTheorems.Created.mem, body);
    EmptyParts(ps);
    SnapshotParts(MvccTheorems.EmptySnapshot, MvccTheorems.Created.mem, [None, None], [], f, body);
  }
}
