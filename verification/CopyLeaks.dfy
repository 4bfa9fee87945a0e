/** What a compacting copy says of pages that were lost when a database was emptied (mdb_drop,
    mdb_env_copyfd1, mdb.c). */
module CopyLeaks {
  import opened Options
  import opened PageTrees
  import opened TouchPath
  import opened TreePages
  import opened CompactCopy
  import DropWalk
  import IdSort
  import TxnPages
  import FreelistSave

  /** The smallest database that holds another one: a leaf page with its record. */
  const Outer := Tree(3, true, [Sub([1], Db(0, 1, 0, 1), Some(Inner))])

  /** The database recorded there: one page with one key. */
  const Inner := Tree(2, true, [Plain([1], [])])

  lemma InnerIs()
    ensures Even(Inner, 1) && Inner.nodes == [Plain([1], [])] && Inner.pgno == 2 && Used(Inner, true) == [2]
  {
    assert EvenNode(Plain([1], []), 1);
    OneNode(Plain([1], []), true);
  }

  lemma OneNode(n: Node, subs: bool)
    ensures UsedBy([n], subs) == UsedByNode(n, subs)
  {
    assert [n][..0] == [];
  }

  /** Emptying a database that holds another one does lose pages: page 2 of this one. */
  lemma SubsLost()
    ensures Even(Outer, 1) && !DropWalk.NoSubs(Outer.nodes)
    ensures multiset(Used(Outer, false)) != multiset(Used(Outer, true)) && 2 in Used(Outer, true) && 2 !in Used(Outer, false)
  {
    InnerIs();
    var n := Sub([1], Db(0, 1, 0, 1), Some(Inner));
    assert Outer.nodes == [n] && [n][..0] == [];
    assert EvenNode(n, 1);
    hide Even, EvenAll, Used, UsedBy, DropWalk.NoSubs;
    OuterUsed(n, true);
    OuterUsed(n, false);
    TwoPages(Used(Outer, false), Used(Outer, true));
    OneSub(n);
    OuterEven(n);
  }

  lemma OuterUsed(n: Node, subs: bool)
    requires n == Sub([1], Db(0, 1, 0, 1), Some(Inner)) && Used(Inner, true) == [2]
    ensures Used(Outer, subs) == (if subs then [2] else []) + [3]
  {
    assert Outer.nodes == [n];
    OneNode(n, subs);
  }

  lemma OuterEven(n: Node)
    requires EvenNode(n, 1) && Outer.nodes == [n] && Outer.leaf
    ensures Even(Outer, 1)
  {
    hide EvenNode;
  }

  lemma OneSub(n: Node)
    requires n.Sub? && n.root.Some?
    ensures !DropWalk.NoSubs([n])
  {}

  lemma TwoPages(a: seq<Pgno>, b: seq<Pgno>)
    requires a == [] + [3] && b == [2] + [3]
    ensures multiset(a) != multiset(b) && 2 in b && 2 !in a
  {
    assert b[0] == 2;
    assert multiset(a)[2] == 0 && 2 in multiset(b);
  }

  /** The pages of the freeDB's tree. */
  ghost function FreeDbPages(free: Option<Tree>): seq<Pgno> {
    if free.Some? then Used(free.value, true) else []
  }

  /** The lists of the freeDB's records, as the copy reads them. */
  ghost predicate ListsOf(lists: seq<seq<Pgno>>, db: seq<TxnPages.Record>) {
    |lists| == |db| && forall i | 0 <= i < |db| :: lists[i] == db[i].pages
  }

  lemma ListedStep(lists: seq<seq<Pgno>>)
    requires lists != []
    ensures multiset(Listed(lists)) == multiset(Listed(lists[..|lists| - 1])) + multiset(lists[|lists| - 1])
  {}

  lemma RecordsStep(db: seq<TxnPages.Record>, t: nat)
    requires db != [] && 0 < db[|db| - 1].id <= t
    ensures TxnPages.Listed(db, 0, t + 1) == TxnPages.Listed(db[..|db| - 1], 0, t + 1) + multiset(db[|db| - 1].pages)
  {
    var r := db[|db| - 1];
    assert db == db[..|db| - 1] + [r];
    TxnPages.ListedAppend(db[..|db| - 1], [r], 0, t + 1);
    assert [r][1..] == [];
  }

  lemma ListsLess(lists: seq<seq<Pgno>>, db: seq<TxnPages.Record>)
    requires ListsOf(lists, db) && db != []
    ensures |lists| == |db| && ListsOf(lists[..|lists| - 1], db[..|db| - 1]) && lists[|lists| - 1] == db[|db| - 1].pages
  {}

  /** The copy counts the pages of all records. */
  lemma {:induction false} AllCounted(lists: seq<seq<Pgno>>, db: seq<TxnPages.Record>, t: nat)
    requires ListsOf(lists, db) && forall i | 0 <= i < |db| :: 0 < db[i].id <= t
    ensures multiset(Listed(lists)) == TxnPages.Listed(db, 0, t + 1)
    decreases |db|
  {
    if db == [] {
      assert lists == [];
    } else {
      hide *;
      var k := |db| - 1;
      ListsLess(lists, db);
      AllCounted(lists[..k], db[..k], t);
      ListedStep(lists);
      RecordsStep(db, t);
    }
  }

  /** Pages of the file are counted once, other numbers not at all. */
  lemma FilePage(next: nat, p: Pgno)
    requires 2 <= next <= IdSort.ID_MAX
    ensures TxnPages.FilePages(next)[p] == if 2 <= p < next then 1 else 0
  {
    if p <= IdSort.ID_MAX {
      TxnPages.PagesOnce(2, next - 2, p);
    } else {
      assert p !in TxnPages.FilePages(next);
    }
  }

  lemma OneFewer(s: seq<Pgno>, lost: multiset<Pgno>, next: nat, p: Pgno)
    requires 2 <= next <= IdSort.ID_MAX && multiset(s) + lost == TxnPages.FilePages(next)
    ensures multiset(s)[p] + lost[p] == if 2 <= p < next then 1 else 0
    ensures p in s <==> multiset(s)[p] > 0
  {
    FilePage(next, p);
    assert (multiset(s) + lost)[p] == multiset(s)[p] + lost[p];
    assert p in s <==> p in multiset(s);
  }

  /** A sequence whose elements, with those of another bag, are the pages of the file, each once. */
  lemma OneOfEach(s: seq<Pgno>, lost: multiset<Pgno>, next: nat)
    requires 2 <= next <= IdSort.ID_MAX && multiset(s) + lost == TxnPages.FilePages(next)
    ensures Distinct(s) && (forall p | p in s :: 2 <= p < next)
    ensures (forall p | 2 <= p < next :: p in s) <==> lost == multiset{}
  {
    hide *;
    forall p: Pgno ensures multiset(s)[p] <= 1 && (p in s ==> 2 <= p < next) {
      OneFewer(s, lost, next, p);
    }
    SeqOnce(s);
    if forall p | 2 <= p < next :: p in s {
      forall p: Pgno ensures lost[p] == 0 {
        OneFewer(s, lost, next, p);
      }
      assert lost == multiset{};
    } else {
      var p :| 2 <= p < next && p !in s;
      OneFewer(s, lost, next, p);
      assert lost[p] == 1;
    }
  }

  lemma SeqOnce(s: seq<Pgno>)
    ensures (forall p :: multiset(s)[p] <= 1) ==> Distinct(s)
  {
    if !Distinct(s) {
      var i, j :| 0 <= i < j < |s| && s[i] == s[j];
      assert s == s[..j] + s[j..];
      assert s[..j][i] in multiset(s[..j]) && s[j..][0] in multiset(s[j..]);
      assert multiset(s)[s[i]] == multiset(s[..j])[s[i]] + multiset(s[j..])[s[i]] >= 2;
    }
  }

  /** After a commit, the root a compacting copy computes is that of the copied main database, and so the
      copy succeeds, if and only if no page is lost. */
  lemma CopyTellsLost(db: Databases, db0: seq<TxnPages.Record>, free: Option<Tree>, main: Tree, lists: seq<seq<Pgno>>)
    requires db.Valid() && FreelistSave.Saved(db.txn, db0) && db.dbs == [free, Some(main)] && ListsOf(lists, db.txn.db)
    ensures db.txn.next - 1 - Counted(lists) - |FreeDbPages(free)| == Renumbered(main, 2).pgno <==> db.lost == multiset{}
  {
    SavedPages(db, db0, free, main);
    hide Used, DropWalk.NoSubs, Renumbered, Counted, BagOf, Bag;
    var s := Used(main, true) + FreeDbPages(free) + Listed(lists);
    AllCounted(lists, db.txn.db, db.txn.t);
    OneOfEach(s, db.lost, db.txn.next);
    RootTellsLeaks(main, FreeDbPages(free), lists, db.txn.next);
  }

  /** The pages of the two databases, of the records, and the lost ones. */
  lemma SavedPages(db: Databases, db0: seq<TxnPages.Record>, free: Option<Tree>, main: Tree)
    requires db.Valid() && FreelistSave.Saved(db.txn, db0) && db.dbs == [free, Some(main)]
    ensures 2 <= db.txn.next <= IdSort.ID_MAX && forall i | 0 <= i < |db.txn.db| :: 0 < db.txn.db[i].id <= db.txn.t
    ensures (multiset(Used(main, true)) + multiset(FreeDbPages(free)) + TxnPages.Listed(db.txn.db, 0, db.txn.t + 1)) + db.lost
            == TxnPages.FilePages(db.txn.next)
  {
    SavedFacts(db.txn, db0);
    UsesAll(db);
    TwoBags(free, main);
    hide *;
    Reorder(multiset(Used(main, true)), multiset(FreeDbPages(free)), TxnPages.Listed(db.txn.db, 0, db.txn.t + 1), db.lost);
  }

  lemma SavedFacts(txn: TxnPages.Txn, db0: seq<TxnPages.Record>)
    requires FreelistSave.Saved(txn, db0)
    ensures 2 <= txn.next <= IdSort.ID_MAX && txn.used + TxnPages.Listed(txn.db, 0, txn.t + 1) == TxnPages.FilePages(txn.next)
    ensures forall i | 0 <= i < |txn.db| :: 0 < txn.db[i].id <= txn.t
  {
    hide TxnPages.Listed, TxnPages.FilePages;
  }

  lemma UsesAll(db: Databases)
    requires db.Valid()
    ensures db.txn.used == BagOf(db.dbs) + db.lost
  {
    hide BagOf;
  }

  lemma TwoBags(free: Option<Tree>, main: Tree)
    ensures BagOf([free, Some(main)]) == multiset(FreeDbPages(free)) + multiset(Used(main, true))
  {
    hide Used;
    var one := [Some(main)];
    assert [free, Some(main)][1..] == one;
    BagOfCons([free, Some(main)]);
    BagOfCons(one);
    assert one[1..] == [] && BagOf([]) == multiset{};
    assert OptBag(free) == multiset(FreeDbPages(free));
  }

  lemma Reorder(a: multiset<Pgno>, b: multiset<Pgno>, c: multiset<Pgno>, d: multiset<Pgno>)
    ensures (a + b + c) + d == ((b + a) + d) + c
  {}

  /** Emptying the main database and copying right away: the copy always succeeds, and has no pages, also
      when the databases that were recorded in it have lost theirs. */
  method DropThenCopy(db: Databases, file: seq<Cell>, overflow: nat, nextPgno: Pgno, lists: seq<seq<Pgno>>, freeDbPages: nat,
                      ghost h: nat) returns (ok: bool, out: seq<Cell>)
    requires db.Valid() && db.Has(1, []) && Holds(file, db.dbs[1].value) && Even(db.dbs[1].value, h)
    requires overflow == DropWalk.Overs(db.dbs[1].value.nodes)
    modifies db, db.txn
    ensures db.Valid() && db.dbs == old(db.dbs)[1 := None] && ok && out == [Meta, Meta]
    ensures db.lost == old(db.lost) <==> DropWalk.NoSubs(old(db.dbs)[1].value.nodes)
  {
    hide *;
    db.InUse(1, []);
    ghost var t := db.dbs[1].value;
    PutHere(t, t);
    db.Drop(1, file, overflow, h);
    var root;
    ok, out, root := Copy(file, None, nextPgno, lists, freeDbPages, t, h);
  }
}
