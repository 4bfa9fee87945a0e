/** The records of the freeDB as `mdb_freelist_save` deletes, reserves and fills them. */
module WrittenRecords {
  import opened IdSort
  import opened IdLists
  import opened PageLists
  import opened TxnPages
  import Moves = PageMoves
  import M = Mvcc
  import Seqs

  // ---------------------------------------------------------------- the records that are written

  /** How many records, at the front, have keys up to `last`. */
  ghost function Low(db: seq<Record>, last: Txnid): (c: nat)
    ensures c <= |db| && (forall i | 0 <= i < c :: db[i].id <= last) && (c < |db| ==> last < db[c].id)
  {
    if db == [] || last < db[0].id then 0 else 1 + Low(db[1..], last)
  }

  function Rooms(db: seq<Record>): nat {
    if db == [] then 0 else db[0].room + Rooms(db[1..])
  }

  /** The records reserved for me_pghead: keys head_id .. me_pglast, empty so far. */
  ghost predicate Reserved(db: seq<Record>, last: Txnid, headId: Txnid, headRoom: int, totalRoom: int) {
    var c := Low(db, last);
    && 0 <= headRoom && totalRoom == Rooms(db[..c]) && headId <= last && (last > 0 ==> headId > 0)
    && (forall i | 0 <= i < c :: db[i].pages == [])
    && (c == 0 ==> headRoom == 0 && headId == last)
    && (c > 0 ==> (db[0].id == headId && db[0].room == headRoom) || (db[0].id == headId + 1 && headRoom == 0))
  }

  /** The record of the pages freed by this transaction. */
  ghost predicate OwnSaved(db: seq<Record>, t: Txnid, pages: seq<Id>) {
    if pages == [] then forall i | 0 <= i < |db| :: db[i].id < t
    else |db| > 0 && db[|db| - 1].id == t && db[|db| - 1].pages == pages
  }

  /** Records between `last` and t are the same. */
  ghost predicate SameAbove(db0: seq<Record>, db: seq<Record>, last: Txnid, t: Txnid) {
    forall r: Record | last < r.id < t :: r in db0 <==> r in db
  }

  /** What the rounds of the save keep: of the records up to `pglast` only the reserved ones are
      left, those that were consumed since are still to be deleted, the others are as they were. */
  ghost predicate Rounds(db: seq<Record>, last: Txnid, t: Txnid, freed: seq<Id>, loose: seq<Id>, db0: seq<Record>,
                         pglast: Txnid, headId: Txnid, freecnt: nat, headRoom: int, totalRoom: int) {
    && pglast <= last && freecnt <= |freed| && 0 <= headRoom
    && (loose != [] ==> last > 0)
    && (pglast < last ==> HasRecord(db, last))
    && (pglast == last ==> Reserved(db, last, headId, headRoom, totalRoom))
    && headId <= pglast && (pglast > 0 ==> headId > 0) && (db == [] || headId <= db[0].id)
    && OwnSaved(db, t, freed[..freecnt])
    && SameAbove(db0, db, last, t)
  }

  /** The freeDB's records have keys up to t, and lists in order. */
  ghost predicate Records(db: seq<Record>, t: Txnid) {
    Ascending(db) && forall i | 0 <= i < |db| :: 0 < db[i].id <= t && Strict(db[i].pages)
  }

  // ---------------------------------------------------------------- changes of the freeDB

  lemma LowIs(db: seq<Record>, last: Txnid, c: nat)
    requires Ascending(db) && c <= |db| && (forall i | 0 <= i < c :: db[i].id <= last) && (c < |db| ==> last < db[c].id)
    ensures Low(db, last) == c
  {
    var d := Low(db, last);
  }

  /** Deleting the first record, which was consumed or reserved. */
  lemma FirstDeleted(db: seq<Record>, last: Txnid, t: Txnid)
    requires Ascending(db) && HasRecord(db, last) && last < t
    ensures db != [] && db[0].id <= last && Ascending(db[1..])
    ensures Listed(db[1..], last, t) == Listed(db, last, t)
    ensures db[0].id < last ==> HasRecord(db[1..], last)
    ensures db[0].id == last ==> Low(db[1..], last) == 0
  {
    var i :| 0 <= i < |db| && db[i].id == last;
    assert i > 0 ==> db[0].id < db[i].id;
    if i > 0 { assert db[1..][i - 1] == db[i]; }
    if i == 0 { LowIs(db[1..], last, 0); }
    assert Listed(db, last, t) == Part(db[0], last, t) + Listed(db[1..], last, t);
  }

  /** The record for me_pghead is put in front: its key is not larger than any other. */
  function PutFirst(db: seq<Record>, r: Record): seq<Record> {
    if db != [] && db[0].id == r.id then [r] + db[1..] else [r] + db
  }

  lemma FirstPut(db: seq<Record>, r: Record, last: Txnid, t: Txnid)
    requires Ascending(db) && (db == [] || r.id <= db[0].id) && r.id <= last < t
    ensures Ascending(PutFirst(db, r)) && Listed(PutFirst(db, r), last, t) == Listed(db, last, t)
    ensures forall x | x in PutFirst(db, r) :: x == r || x in db
    ensures forall x | x in db && x.id != r.id :: x in PutFirst(db, r)
  {
    var p := PutFirst(db, r);
    if db != [] && db[0].id == r.id {
      assert p[1..] == db[1..];
      Seqs.HeadTail(db);
    } else {
      assert p[1..] == db;
    }
  }

  lemma FirstReserved(db: seq<Record>, r: Record, last: Txnid, headId: Txnid, headRoom: int, totalRoom: int)
    requires Ascending(db) && Reserved(db, last, headId, headRoom, totalRoom) && r.id == headId && r.pages == [] && last > 0
    requires db == [] || headId <= db[0].id
    ensures Reserved(PutFirst(db, r), last, headId, r.room, totalRoom - headRoom + r.room)
  {
    hide Ascending, Low, Rooms;
    var c := Low(db, last);
    var p := PutFirst(db, r);
    if c > 0 && db[0].id == headId {
      PutLow(db, r, last, c);
      RoomsFirst(db[0], db[1..c]);
      RoomsFirst(r, db[1..c]);
      Seqs.HeadTail(db[..c]);
      assert db[..c][1..] == db[1..c] && p[..c] == [r] + db[1..c];
    } else {
      assert db != [] ==> db[0].id != headId;
      PutLow(db, r, last, c + 1);
      RoomsFirst(r, db[..c]);
      assert p[..c + 1] == [r] + db[..c];
    }
  }

  lemma RoomsFirst(r: Record, db: seq<Record>)
    ensures Rooms([r] + db) == r.room + Rooms(db)
  {
    assert ([r] + db)[1..] == db;
  }

  lemma PutLow(db: seq<Record>, r: Record, last: Txnid, d: nat)
    requires Ascending(db) && (db == [] || r.id <= db[0].id) && r.id <= last
    requires d == Low(db, last) + if db != [] && db[0].id == r.id then 0 else 1
    ensures Low(PutFirst(db, r), last) == d
  {
    var p := PutFirst(db, r);
    if db != [] && db[0].id == r.id {
      assert p[1..] == db[1..];
    } else {
      assert p[1..] == db;
    }
  }

  /** The record of this transaction goes last. */
  function PutLast(db: seq<Record>, r: Record): seq<Record> {
    if db != [] && db[|db| - 1].id == r.id then db[..|db| - 1] + [r] else db + [r]
  }

  lemma LastPut(db: seq<Record>, r: Record, last: Txnid, t: Txnid)
    requires Ascending(db) && r.id == t && last < t && forall i | 0 <= i < |db| :: db[i].id <= t
    ensures Ascending(PutLast(db, r)) && Listed(PutLast(db, r), last, t) == Listed(db, last, t)
    ensures Low(PutLast(db, r), last) == Low(db, last) && PutLast(db, r)[..Low(db, last)] == db[..Low(db, last)]
    ensures forall x: Record | x.id < t :: x in PutLast(db, r) <==> x in db
  {
    hide Listed, Low, Part, Ascending;
    var n := if db != [] && db[|db| - 1].id == t then |db| - 1 else |db|;
    var a, b := db[..n], db[n..];
    Seqs.Cut(db, n);
    assert PutLast(db, r) == a + [r];
    LastListed(a, b, r, last, t);
    LastOrder(db, n, r, last, t);
    LastMembers(a, b, r, t);
  }

  lemma LastOrder(db: seq<Record>, n: nat, r: Record, last: Txnid, t: Txnid)
    requires Ascending(db) && r.id == t && last < t && forall i | 0 <= i < |db| :: db[i].id <= t
    requires n == if db != [] && db[|db| - 1].id == t then |db| - 1 else |db|
    ensures Ascending(db[..n] + [r]) && Low(db[..n] + [r], last) == Low(db, last) <= n
  {
    hide Low;
    LowFacts(db, last);
    LowIs(db[..n] + [r], last, Low(db, last));
  }

  lemma LowFacts(db: seq<Record>, last: Txnid)
    ensures var c := Low(db, last);
            c <= |db| && (forall i | 0 <= i < c :: db[i].id <= last) && (c < |db| ==> last < db[c].id)
  {}

  lemma LastMembers(a: seq<Record>, b: seq<Record>, r: Record, t: Txnid)
    requires r.id == t && forall i | 0 <= i < |b| :: b[i].id == t
    ensures forall x: Record | x.id < t :: x in a + [r] <==> x in a + b
  {}

  lemma LastListed(a: seq<Record>, b: seq<Record>, r: Record, last: Txnid, t: Txnid)
    requires r.id == t && forall i | 0 <= i < |b| :: b[i].id == t
    ensures Listed(a + [r], last, t) == Listed(a + b, last, t)
  {
    hide Listed, Part;
    ListedAppend(a, [r], last, t);
    ListedNone([r], last, t);
    ListedAppend(a, b, last, t);
    ListedNone(b, last, t);
  }

  // ---------------------------------------------------------------- filling the reserved records

  /** The lists in the records, those of later records first. */
  function Stacked(lists: seq<seq<Id>>): seq<Id> {
    if lists == [] then [] else Stacked(lists[1..]) + lists[0]
  }

  lemma {:induction false} StackedSnoc(lists: seq<seq<Id>>, x: seq<Id>)
    ensures Stacked(lists + [x]) == x + Stacked(lists)
    decreases |lists|
  {
    if lists == [] {
      assert [x][1..] == [] && [] + [x] == [x];
    } else {
      StackedSnoc(lists[1..], x);
      assert (lists + [x])[1..] == lists[1..] + [x] && (lists + [x])[0] == lists[0];
      Seqs.Assoc(x, Stacked(lists[1..]), lists[0]);
    }
  }

  function Sum(rooms: seq<nat>): nat {
    if rooms == [] then 0 else rooms[0] + Sum(rooms[1..])
  }

  lemma SumStep(rooms: seq<nat>, i: nat)
    requires i < |rooms|
    ensures Sum(rooms[i..]) == rooms[i] + Sum(rooms[i + 1..])
  {
    assert rooms[i..][1..] == rooms[i + 1..];
  }

  lemma SliceShift(w: seq<Id>, p: nat, q: nat)
    requires IsList(w) && p <= q <= Count(w)
    ensures Ids(w)[p..q] == w[p + 1..q + 1]
  {
    var s := Ids(w);
    assert forall k | 0 <= k < |s| :: s[k] == w[k + 1];
  }

  /** i records are written, from the tail of the list s; the first mopLen pages are left. */
  ghost predicate Cutting(s: seq<Id>, rooms: seq<nat>, lists: seq<seq<Id>>, mopLen: nat) {
    && |lists| <= |rooms| && mopLen <= |s|
    && Stacked(lists) == s[mopLen..] && mopLen <= Sum(rooms[|lists|..])
    && (forall j | 0 <= j < |lists| :: |lists[j]| <= rooms[j])
    && (forall j | 0 <= j < |lists| :: Sum(rooms[..j]) < |s|)
    && (mopLen > 0 ==> Sum(rooms[..|lists|]) + mopLen == |s|)
  }

  lemma CutStart(s: seq<Id>, rooms: seq<nat>)
    requires |s| <= Sum(rooms)
    ensures Cutting(s, rooms, [], |s|)
  {
    assert rooms[0..] == rooms && rooms[..0] == [] && s[|s|..] == [];
  }

  lemma CutStep(s: seq<Id>, rooms: seq<nat>, lists: seq<seq<Id>>, mopLen: nat, len: nat)
    requires Cutting(s, rooms, lists, mopLen) && |lists| < |rooms| && mopLen > 0
    requires len == if rooms[|lists|] > mopLen then mopLen else rooms[|lists|]
    ensures Cutting(s, rooms, lists + [s[mopLen - len..mopLen]], mopLen - len)
  {
    hide Sum, Stacked;
    var i, x := |lists|, s[mopLen - len..mopLen];
    SumStep(rooms, i);
    SumPrefix(rooms, i);
    StackedSnoc(lists, x);
    Seqs.Cut(s[mopLen - len..], len);
    assert s[mopLen - len..][..len] == x && s[mopLen - len..][len..] == s[mopLen..];
  }

  lemma CutEnd(s: seq<Id>, rooms: seq<nat>, lists: seq<seq<Id>>, mopLen: nat)
    requires Cutting(s, rooms, lists, mopLen) && (|lists| == |rooms| || mopLen == 0)
    ensures Stacked(lists) == s
  {
    assert rooms[|rooms|..] == [] && s[0..] == s;
  }

  lemma {:induction false} SumPrefix(rooms: seq<nat>, i: nat)
    requires i < |rooms|
    ensures Sum(rooms[..i + 1]) == Sum(rooms[..i]) + rooms[i]
    decreases i
  {
    if i == 0 {
      assert rooms[..1] == [rooms[0]] && rooms[..1][1..] == [] && rooms[..0] == [];
    } else {
      SumPrefix(rooms[1..], i - 1);
      assert rooms[..i + 1][1..] == rooms[1..][..i] && rooms[..i][1..] == rooms[1..][..i - 1];
    }
  }

  // ---------------------------------------------------------------- the rounds of the save

  lemma AfterDelete(db0: seq<Record>, db: seq<Record>, last: Txnid, t: Txnid, pages: seq<Id>)
    requires Ascending(db) && HasRecord(db, last) && last < t && db != []
    requires OwnSaved(db, t, pages) && SameAbove(db0, db, last, t)
    ensures OwnSaved(db[1..], t, pages) && SameAbove(db0, db[1..], last, t)
    ensures db[0].id <= last && (db[1..] == [] || db[0].id <= db[1..][0].id)
    ensures db[0].id == last ==> Reserved(db[1..], last, last, 0, 0)
  {
    FirstDeleted(db, last, t);
    Seqs.HeadTail(db);
    if pages != [] {
      assert |db| > 1 by {
        assert db[|db| - 1].id == t;
      }
      assert db[1..][|db| - 2] == db[|db| - 1];
    }
    assert db[1..][..0] == [];
  }

  lemma SameMembers(a: seq<Id>, b: seq<Id>)
    requires multiset(a) == multiset(b)
    ensures forall x | x in a :: x in b
  {
    forall x | x in a ensures x in b {
      assert x in multiset(a);
      assert x in multiset(b);
    }
  }

  /** Records above me_pglast are those the transaction began with. */
  lemma MatchStill(free: map<nat, set<nat>>, db0: seq<Record>, db1: seq<Record>, db: seq<Record>, last: Txnid, t: Txnid)
    requires RecordsMatch(free, db1, last, t) && SameAbove(db0, db1, last, t) && SameAbove(db0, db, last, t)
    ensures RecordsMatch(free, db, last, t)
  {
    hide Moves.SetOf;
    forall i | 0 <= i < |db| && last < db[i].id < t ensures db[i].id in free && free[db[i].id] == Moves.SetOf(db[i].pages) {
      assert db[i] in db && db[i] in db0 && db[i] in db1;
      var j :| 0 <= j < |db1| && db1[j] == db[i];
    }
    forall k | k in free && last < k < t ensures HasRecord(db, k) {
      var j :| 0 <= j < |db1| && db1[j].id == k;
      assert db1[j] in db1 && db1[j] in db0 && db1[j] in db;
      var i :| 0 <= i < |db| && db[i] == db1[j];
    }
  }

  lemma OwnWritten(db: seq<Record>, r: Record, last: Txnid, t: Txnid, freed: seq<Id>, loose: seq<Id>, db0: seq<Record>,
                   pglast: Txnid, headId: Txnid, freecnt: nat, headRoom: int, totalRoom: int)
    requires Rounds(db, last, t, freed, loose, db0, pglast, headId, freecnt, headRoom, totalRoom)
    requires Records(db, t) && last < t && r.id == t && Strict(r.pages) && |r.pages| > 0
    ensures Rounds(PutLast(db, r), last, t, r.pages, loose, db0, pglast, headId, |r.pages|, headRoom, totalRoom)
    ensures Records(PutLast(db, r), t) && Listed(PutLast(db, r), last, t) == Listed(db, last, t)
  {
    hide Listed, Reserved, HasRecord, Low, Ascending, Strict;
    LastPut(db, r, last, t);
    OwnPut(db, r, last, headId, headRoom, totalRoom);
    assert r.pages[..|r.pages|] == r.pages;
    LastRecords(db, r, t);
  }

  lemma LastRecords(db: seq<Record>, r: Record, t: Txnid)
    requires Records(db, t) && r.id == t && t > 0 && Strict(r.pages)
    ensures forall i | 0 <= i < |PutLast(db, r)| :: 0 < PutLast(db, r)[i].id <= t && Strict(PutLast(db, r)[i].pages)
  {
    hide Strict, Ascending;
  }

  lemma FreedSorted(used: multiset<Id>, loose: seq<Id>, head: seq<Id>, freed: seq<Id>, listed: multiset<Id>, next: nat)
    requires Conserved(used, loose, head, freed, listed, next)
    ensures Conserved(used, loose, head, SortDown(freed), listed, next)
    ensures Strict(SortDown(freed)) && Falling(SortDown(freed)) && |SortDown(freed)| == |freed|
  {
    SortDownIs(freed);
    SameSize(freed, SortDown(freed));
    ConservedHead(used, loose, head, freed, listed, next);
    OnceEach(next, multiset(freed));
    FallingStrict(SortDown(freed));
  }

  lemma OwnPut(db: seq<Record>, r: Record, last: Txnid, headId: Txnid, headRoom: int, totalRoom: int)
    requires Ascending(db) && last < r.id && forall i | 0 <= i < |db| :: db[i].id <= r.id
    ensures Reserved(db, last, headId, headRoom, totalRoom) ==> Reserved(PutLast(db, r), last, headId, headRoom, totalRoom)
    ensures HasRecord(db, last) ==> HasRecord(PutLast(db, r), last)
    ensures headId <= last && (db == [] || headId <= db[0].id) ==> headId <= PutLast(db, r)[0].id
    ensures PutLast(db, r)[|PutLast(db, r)| - 1] == r
  {
    hide Reserved, HasRecord;
    LastPut(db, r, last, r.id);
    SameReserved(db, PutLast(db, r), last, headId, headRoom, totalRoom);
    if HasRecord(db, last) {
      OwnHas(db, r, last);
    }
  }

  lemma SameReserved(db: seq<Record>, p: seq<Record>, last: Txnid, headId: Txnid, headRoom: int, totalRoom: int)
    requires Low(p, last) == Low(db, last) && p[..Low(db, last)] == db[..Low(db, last)]
    ensures Reserved(db, last, headId, headRoom, totalRoom) ==> Reserved(p, last, headId, headRoom, totalRoom)
  {
    hide Low, Rooms;
    LowFacts(db, last);
    var c := Low(db, last);
    forall i | 0 <= i < c ensures p[i] == db[i] {
      assert p[..c][i] == db[..c][i];
    }
  }

  lemma OwnHas(db: seq<Record>, r: Record, last: Txnid)
    requires HasRecord(db, last) && last < r.id
    ensures HasRecord(PutLast(db, r), last)
  {
    var p := PutLast(db, r);
    var i :| 0 <= i < |db| && db[i].id == last;
    assert p[i] == db[i];
  }

  lemma HeadWritten(db: seq<Record>, r: Record, last: Txnid, t: Txnid, freed: seq<Id>, loose: seq<Id>, db0: seq<Record>,
                    pglast: Txnid, headId: Txnid, freecnt: nat, headRoom: int, totalRoom: int)
    requires Rounds(db, last, t, freed, loose, db0, pglast, headId, freecnt, headRoom, totalRoom)
    requires Records(db, t) && last < t && r.id == headId > 0 && r.pages == []
    ensures Rounds(PutFirst(db, r), last, t, freed, loose, db0, pglast, headId, freecnt, r.room, totalRoom - headRoom + r.room)
    ensures Records(PutFirst(db, r), t) && Listed(PutFirst(db, r), last, t) == Listed(db, last, t)
  {
    hide Listed, Reserved, HasRecord, Low, Ascending, Strict, OwnSaved, SameAbove;
    FirstPut(db, r, last, t);
    if pglast == last {
      FirstReserved(db, r, last, headId, headRoom, totalRoom);
    }
    FirstKeeps(db0, db, r, last, t, freed[..freecnt]);
    FirstRecords(db, r, t);
  }

  lemma FirstRecords(db: seq<Record>, r: Record, t: Txnid)
    requires Records(db, t) && 0 < r.id <= t && r.pages == []
    ensures forall i | 0 <= i < |PutFirst(db, r)| :: 0 < PutFirst(db, r)[i].id <= t && Strict(PutFirst(db, r)[i].pages)
  {
    hide Ascending;
  }

  lemma FirstKeeps(db0: seq<Record>, db: seq<Record>, r: Record, last: Txnid, t: Txnid, pages: seq<Id>)
    requires Ascending(db) && r.id <= last < t && (db == [] || r.id <= db[0].id)
    requires OwnSaved(db, t, pages) && SameAbove(db0, db, last, t)
    ensures OwnSaved(PutFirst(db, r), t, pages) && SameAbove(db0, PutFirst(db, r), last, t)
    ensures HasRecord(db, last) ==> HasRecord(PutFirst(db, r), last)
  {
    var p := PutFirst(db, r);
    FirstPut(db, r, last, t);
    if pages != [] {
      assert p[|p| - 1] == db[|db| - 1];
    }
    if HasRecord(db, last) {
      var i :| 0 <= i < |db| && db[i].id == last;
      if db[0].id == r.id {
        assert i > 0 ==> p[i] == db[i];
      } else {
        assert p[i + 1] == db[i];
      }
      assert exists k :: 0 <= k < |p| && p[k].id == last;
    }
  }

  // ---------------------------------------------------------------- the end of the save

  lemma MergedSet(head: seq<Id>, loose: seq<Id>)
    ensures Moves.SetOf(MergeDown(head, SortDown(loose))) == Moves.SetOf(head) + Moves.SetOf(loose)
  {
    hide MergeDown, SortDown;
    SortDownIs(loose);
    MergeDownBag(head, SortDown(loose));
    ListSet(head);
    ListSet(loose);
    ListSet(MergeDown(head, SortDown(loose)));
  }

  lemma LooseMerged(used: multiset<Id>, loose: seq<Id>, head: seq<Id>, freed: seq<Id>, listed: multiset<Id>, next: nat)
    requires Conserved(used, loose, head, freed, listed, next) && Falling(head)
    ensures Conserved(used, [], MergeDown(head, SortDown(loose)), freed, listed, next)
    ensures Strict(MergeDown(head, SortDown(loose))) && |MergeDown(head, SortDown(loose))| == |head| + |loose|
  {
    hide MergeDown, SortDown, Falling, Strict;
    var sorted := SortDown(loose);
    SortDownIs(loose);
    assert multiset(head) + multiset(sorted) <= FilePages(next) by {
      assert used + multiset(loose) + multiset(head) + multiset(freed) + listed == FilePages(next);
    }
    MergeStrict(head, sorted, next);
    var m := MergeDown(head, sorted);
    BagSize(m, head, sorted);
    SameSize(loose, sorted);
    var none: seq<Id> := [];
    assert used + multiset(loose) + multiset(head) + multiset(freed) + listed
        == used + multiset(none) + (multiset(head) + multiset(loose)) + multiset(freed) + listed;
  }

  lemma BagSize(m: seq<Id>, a: seq<Id>, b: seq<Id>)
    requires multiset(m) == multiset(a) + multiset(b)
    ensures |m| == |a| + |b|
  {
    assert |multiset(m)| == |m| && |multiset(a)| == |a| && |multiset(b)| == |b|;
  }

  /** The records with lists i written into them. */
  function Filled(db: seq<Record>, lists: seq<seq<Id>>): (r: seq<Record>)
    requires |lists| <= |db|
    ensures |r| == |db|
  {
    seq(|db|, i requires 0 <= i < |db| => if i < |lists| then Record(db[i].id, |lists[i]|, lists[i]) else db[i])
  }

  function RoomList(db: seq<Record>): (r: seq<nat>)
    ensures |r| == |db|
  {
    seq(|db|, i requires 0 <= i < |db| => db[i].room)
  }

  lemma {:induction false} RoomListSum(db: seq<Record>, c: nat)
    requires c <= |db|
    ensures Sum(RoomList(db)[..c]) == Rooms(db[..c])
    decreases c
  {
    if c > 0 {
      RoomListSum(db[1..], c - 1);
      assert RoomList(db)[..c][1..] == RoomList(db[1..])[..c - 1];
      assert db[..c][1..] == db[1..][..c - 1];
    }
  }

  lemma {:induction false} SumGrows(rooms: seq<nat>, c: nat)
    requires c <= |rooms|
    ensures Sum(rooms[..c]) <= Sum(rooms)
    decreases c
  {
    if c > 0 {
      SumGrows(rooms[1..], c - 1);
      assert rooms[..c][1..] == rooms[1..][..c - 1];
    }
  }

  /** The pages of the filled records. */
  lemma {:induction false} FilledListed(db: seq<Record>, lists: seq<seq<Id>>, hi: Txnid)
    requires |lists| <= |db| && forall i | 0 <= i < |db| :: 0 < db[i].id < hi
    requires forall i | |lists| <= i < |db| :: db[i].pages == []
    ensures Listed(Filled(db, lists), 0, hi) == multiset(Stacked(lists))
    decreases |db|
  {
    var f := Filled(db, lists);
    if lists == [] {
      NothingListed(f, 0, hi);
    } else {
      FilledListed(db[1..], lists[1..], hi);
      assert f[1..] == Filled(db[1..], lists[1..]);
      assert Listed(f, 0, hi) == Part(f[0], 0, hi) + Listed(f[1..], 0, hi);
      assert multiset(Stacked(lists)) == multiset(Stacked(lists[1..])) + multiset(lists[0]);
    }
  }

  lemma {:induction false} NothingListed(db: seq<Record>, lo: Txnid, hi: Txnid)
    requires forall i | 0 <= i < |db| :: db[i].pages == []
    ensures Listed(db, lo, hi) == multiset{}
  {
    if db != [] {
      NothingListed(db[1..], lo, hi);
    }
  }

  /** In a strictly descending stack every list is strictly descending. */
  lemma {:induction false} StackedStrict(lists: seq<seq<Id>>)
    requires Strict(Stacked(lists))
    ensures forall i | 0 <= i < |lists| :: Strict(lists[i])
    decreases |lists|
  {
    if lists != [] {
      var a, b := Stacked(lists[1..]), lists[0];
      StrictParts(a, b);
      StackedStrict(lists[1..]);
      forall i | 0 <= i < |lists| ensures Strict(lists[i]) {
        if i > 0 { assert lists[1..][i - 1] == lists[i]; }
      }
    }
  }

  lemma StrictParts(a: seq<Id>, b: seq<Id>)
    requires Strict(a + b)
    ensures Strict(a) && Strict(b)
  {
    Seqs.Parts(a, b);
    var s := a + b;
    assert forall p | 0 <= p < |b| :: b[p] == s[|a| + p];
    assert forall p | 0 <= p < |a| :: a[p] == s[p];
  }

  ghost predicate CutInto(db: seq<Record>, last: Txnid, lists: seq<seq<Id>>) {
    var c := Low(db, last);
    |lists| <= c && (forall i | 0 <= i < |lists| :: db[i].pages == lists[i]) && forall i | |lists| <= i < c :: db[i].pages == []
  }

  /** Between the reserved records and this transaction's own are the unconsumed ones. */
  lemma MiddleIds(db: seq<Record>, last: Txnid, t: Txnid, pages: seq<Id>, c: nat, n: nat)
    requires Records(db, t) && last < t && OwnSaved(db, t, pages)
    requires c <= |db| && (forall i | 0 <= i < c :: db[i].id <= last) && (c < |db| ==> last < db[c].id)
    requires n == if pages == [] then |db| else |db| - 1
    ensures c <= n <= |db| && forall i | c <= i < n :: last < db[i].id < t
  {
    forall i | c <= i < n ensures last < db[i].id < t {
      assert i > c ==> db[c].id < db[i].id;
      assert pages != [] ==> db[i].id < db[|db| - 1].id;
    }
  }

  lemma ThreeListed(a: seq<Record>, b: seq<Record>, o: seq<Record>, last: Txnid, t: Txnid, pages: seq<Id>)
    requires forall i | 0 <= i < |a| :: 0 < a[i].id <= last
    requires forall i | 0 <= i < |b| :: last < b[i].id < t
    requires if pages == [] then o == [] else |o| == 1 && o[0].id == t && o[0].pages == pages
    requires last < t
    ensures Listed(a + b + o, 0, t + 1) == Listed(a, 0, last + 1) + Listed(a + b + o, last, t) + multiset(pages)
  {
    hide Listed, Part;
    ListedAppend(a + b, o, 0, t + 1);
    ListedAppend(a, b, 0, t + 1);
    ListedSame(a, 0, 0, t + 1, last + 1);
    ListedAppend(a + b, o, last, t);
    ListedAppend(a, b, last, t);
    ListedNone(a, last, t);
    ListedNone(o, last, t);
    ListedSame(b, 0, last, t + 1, t);
    OwnListed(o, t, pages);
    SumUp(Listed(a + b + o, 0, t + 1), Listed(a + b, 0, t + 1), Listed(a, 0, last + 1), Listed(b, last, t), multiset(pages),
          Listed(a + b + o, last, t), Listed(a + b, last, t));
  }

  lemma OwnListed(o: seq<Record>, t: Txnid, pages: seq<Id>)
    requires t > 0
    requires if pages == [] then o == [] else |o| == 1 && o[0].id == t && o[0].pages == pages
    ensures Listed(o, 0, t + 1) == multiset(pages)
  {
    if o != [] {
      assert o[1..] == [];
      assert Listed(o, 0, t + 1) == Part(o[0], 0, t + 1) + Listed(o[1..], 0, t + 1);
    }
  }

  lemma SumUp(all: multiset<Id>, ab: multiset<Id>, a: multiset<Id>, b: multiset<Id>, o: multiset<Id>,
              mid: multiset<Id>, abMid: multiset<Id>)
    requires all == ab + o && ab == a + b && mid == abMid + multiset{} && abMid == multiset{} + b
    ensures all == a + mid + o
  {}

  /** The loop stops before the unconsumed records. */
  lemma ListsWithin(rooms: seq<nat>, lists: seq<seq<Id>>, c: nat, size: nat)
    requires c <= |rooms| && |lists| <= |rooms| && Sum(rooms[..c]) >= size
    requires forall i | 0 <= i < |lists| :: Sum(rooms[..i]) < size
    ensures |lists| <= c
  {}

  lemma FilledLow(db: seq<Record>, lists: seq<seq<Id>>, last: Txnid, t: Txnid)
    requires Records(db, t) && |lists| <= Low(db, last) && forall i | 0 <= i < |lists| :: Strict(lists[i])
    ensures Low(Filled(db, lists), last) == Low(db, last) && Records(Filled(db, lists), t)
  {
    hide Low, Strict;
    LowFacts(db, last);
    LowIs(Filled(db, lists), last, Low(db, last));
  }

  lemma FilledSaved(db: seq<Record>, lists: seq<seq<Id>>, head: seq<Id>, last: Txnid, t: Txnid, freed: seq<Id>,
                    db0: seq<Record>, headId: Txnid, headRoom: int, totalRoom: int)
    requires Records(db, t) && last < t && |lists| <= Low(db, last) && Stacked(lists) == head && Strict(head)
    requires Rounds(db, last, t, freed, [], db0, last, headId, |freed|, headRoom, totalRoom)
    ensures var f := Filled(db, lists);
            && Low(f, last) == Low(db, last)
            && Records(f, t) && SameAbove(db0, f, last, t) && CutInto(f, last, lists) && OwnSaved(f, t, freed)
  {
    hide Low, Strict, Stacked, Rooms, Listed;
    assert freed[..|freed|] == freed;
    LowFacts(db, last);
    StackedStrict(lists);
    FilledLow(db, lists, last, t);
    FilledSame(db, lists, last, t, Low(db, last));
  }

  lemma FilledSame(db: seq<Record>, lists: seq<seq<Id>>, last: Txnid, t: Txnid, c: nat)
    requires |lists| <= c <= |db| && forall i | 0 <= i < c :: db[i].id <= last
    ensures forall r: Record | last < r.id < t :: r in Filled(db, lists) <==> r in db
  {
    var f := Filled(db, lists);
    forall r: Record | last < r.id < t ensures r in f <==> r in db {
      if r in db {
        var i :| 0 <= i < |db| && db[i] == r;
        assert f[i] == r;
      }
    }
  }

  /** Filling changes the reserved records only. */
  lemma FilledAbove(db: seq<Record>, lists: seq<seq<Id>>, c: nat, last: Txnid, t: Txnid)
    requires |lists| <= c <= |db| && forall i | 0 <= i < c :: db[i].id <= last
    ensures Filled(db, lists)[..c] == Filled(db[..c], lists)
    ensures Listed(Filled(db, lists), last, t) == Listed(db, last, t)
  {
    hide Listed;
    var f := Filled(db, lists);
    assert f[..c] == Filled(db[..c], lists);
    Seqs.Cut(db, c);
    Seqs.Cut(f, c);
    assert f[c..] == db[c..];
    ListedAppend(f[..c], f[c..], last, t);
    ListedAppend(db[..c], db[c..], last, t);
    ListedNone(f[..c], last, t);
    ListedNone(db[..c], last, t);
  }

  lemma TotalIs(used: multiset<Id>, head: seq<Id>, freed: seq<Id>, listed: multiset<Id>, next: nat)
    requires Conserved(used, [], head, freed, listed, next)
    ensures used + (multiset(head) + listed + multiset(freed)) == FilePages(next)
  {
    var none: seq<Id> := [];
    assert used + multiset(none) + multiset(head) + multiset(freed) + listed
        == used + (multiset(head) + listed + multiset(freed));
  }

  // ---------------------------------------------------------------- the save

  lemma FewerMarks(dirty: set<nat>, left: set<nat>)
    requires left <= dirty
    ensures |left| <= |dirty|
  {
    assert dirty == left + (dirty - left);
  }

  lemma LooseFreed(used: multiset<Id>, loose: seq<Id>, head: seq<Id>, freed: seq<Id>, listed: multiset<Id>, next: nat)
    requires Conserved(used, loose, head, freed, listed, next)
    ensures Conserved(used, [], head, freed + loose, listed, next)
  {
    var none: seq<Id> := [];
    assert used + multiset(loose) + multiset(head) + multiset(freed) + listed
        == used + multiset(none) + multiset(head) + (multiset(freed) + multiset(loose)) + listed;
  }

  lemma HeadSize(used: multiset<Id>, loose: seq<Id>, head: seq<Id>, freed: seq<Id>, listed: multiset<Id>, next: nat)
    requires Conserved(used, loose, head, freed, listed, next)
    ensures |head| < ID_MAX
  {
    ConservedHead(used, loose, head, freed, listed, next);
    var a, b := multiset(head), FilePages(next);
    assert b == a + (b - a);
    assert |b| == |Pages(2, next - 2)| && |a| == |head|;
  }
}
