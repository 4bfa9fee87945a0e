/** A run in which mdb_put fails with MDB_PAGE_FULL (mdb.c): from the empty database, thirty-two puts
    that succeed and one more. */
module BTreeFull {
  import opened Options
  import opened Keys
  import opened BTree
  import opened BTreeSplit
  import opened BTreePlace
  import opened BTreeSearch
  import opened BTreeMap
  import opened BTreeDb

  lemma FitsNotStuck(ps: PageSize, root: Page, key: Key, data: Data, dirty: bool)
    requires PutFits(ps, root, key, data)
    ensures !PutStuck(ps, root, key, data, dirty)
  {
    hide Stuck, Used, Room, ItemFor, Lookup;
    var s := Lookup(root, key);
    NotStuck(ps, s.stack, true, s.page.nodes, s.at, ItemFor(ps, key, data));
  }

  /** Keys of one byte are in the order of their bytes. */
  lemma ByteOrder(a: Byte, b: Byte)
    ensures Rank([a]) < Rank([b]) <==> a < b
  {
    RankOrders([a], [b]);
    assert [a][1..] == [] && [b][1..] == [];
  }

  function Size(i: nat): nat { if i < 15 then 247 else 0 }

  lemma CrowdKeys(k: nat, i: nat)
    requires i < k <= 32
    ensures |Crowd(k)| == k && Crowd(k)[i].key == [i + 1]
  {}

  lemma CrowdRises(k: nat)
    requires k <= 32
    ensures |Crowd(k)| == k && Rising(Crowd(k), 0)
    ensures k < 32 ==> Position(Crowd(k), 0, [k + 1], k, false)
    ensures Position(Crowd(k), 0, [0], 0, false)
  {
    hide Rank, Crowd;
    forall i | 0 <= i < k ensures Rank([0]) < Rank(Crowd(k)[i].key) && (k < 32 ==> Rank(Crowd(k)[i].key) < Rank([k + 1])) {
      CrowdKeys(k, i);
      ByteOrder(0, i + 1);
      if k < 32 { ByteOrder(i + 1, k + 1); }
    }
    forall i, j | 0 <= i < j < k ensures Rank(Crowd(k)[i].key) < Rank(Crowd(k)[j].key) {
      CrowdKeys(k, i);
      CrowdKeys(k, j);
      ByteOrder(i + 1, j + 1);
    }
  }

  /** A search ends on the one page, at this place. */
  lemma OneLeaf(nodes: seq<Node>, key: Key, at: nat)
    requires Rising(nodes, 0) && Position(nodes, 0, key, at, false)
    ensures Lookup(Page(true, nodes), key) == Spot([], Page(true, nodes), at, false)
  {
    hide Rank, FirstNotBelow;
    LookupLeaf(Page(true, nodes), key, at, false, []);
    LookupStart(Page(true, nodes), key);
  }

  lemma CrowdFor(i: nat)
    requires i < 32
    ensures ItemFor(4096, [i + 1], Zeros(Size(i))) == CrowdItem(i)
    ensures ItemFor(4096, [0], Zeros(243)) == Small(0, 243)
  {}

  /** The next put has room. */
  lemma NextFits(i: nat)
    requires 0 < i < 32
    ensures var root, data := Page(true, Crowd(i)), Zeros(Size(i));
            && PutFits(4096, root, [i + 1], data) && !PutStuck(4096, root, [i + 1], data, false)
            && PutThere(4096, root, [i + 1], data) == Page(true, Crowd(i + 1))
  {
    var root, data := Page(true, Crowd(i)), Zeros(Size(i));
    CrowdRises(i);
    OneLeaf(Crowd(i), [i + 1], i);
    hide *;
    NewStuck(4096, root, [], root, i, [i + 1], data, false);
    CrowdFor(i);
    CrowdUsed(i);
    CrowdRoom(i);
    CrowdNext(i + 1);
    Appended(Crowd(i), CrowdItem(i));
    FitsNotStuck(4096, root, [i + 1], data, false);
  }

  lemma Appended(nodes: seq<Node>, n: Node)
    ensures Insert(nodes, |nodes|, n) == nodes + [n] && Zip([], Page(true, nodes + [n])) == Page(true, nodes + [n]) && Framed([])
    ensures PMax(4096) == 4080
  {}

  /** The last one has not, and no scan is made. */
  lemma CrowdStuck()
    ensures |Crowd(32)| == 32 && Stuck(4096, [], true, Crowd(32), 0, Small(0, 243))
  {
    hide *;
    var nodes, n := ShortcutFails();
    CrowdRises(32);
    OverfullSum(4096, nodes, 0, n);
    SplitAtIs(4096, true, nodes, 0, n);
    StuckOn(4096, [], true, nodes, 0, n, 16);
  }

  lemma LastStuck()
    ensures PutStuck(4096, Page(true, Crowd(32)), [0], Zeros(243), false)
  {
    hide *;
    var root := Page(true, Crowd(32));
    CrowdRises(32);
    OneLeaf(Crowd(32), [0], 0);
    CrowdFor(0);
    CrowdStuck();
    Appended([], Small(0, 243));
    NewStuck(4096, root, [], root, 0, [0], Zeros(243), false);
  }

  lemma OverfullSum(ps: PageSize, nodes: seq<Node>, at: nat, n: Node)
    requires Overfull(ps, true, nodes, at, n)
    ensures at <= |nodes| && Used(nodes) + Room(n) > PMax(ps)
  {
    hide Used, Room;
  }

  lemma FirstCrowd()
    ensures Crowd(1) == [CrowdItem(0)]
  {
    assert Crowd(0) == [];
  }

  /** Put the keys 1 to 32, the first fifteen with 247 bytes, the others without data; then key 0 with
      243 bytes. */
  method FullReached() returns (rs: seq<Result>)
    ensures |rs| == 33 && (forall i | 0 <= i < 32 :: rs[i] == Ok) && rs[32] == Full
  {
    hide *;
    var db := new Db(4096);
    rs := [];
    var i := 0;
    while i < 32
      invariant 0 <= i <= 32 && |rs| == i && forall k | 0 <= k < i :: rs[k] == Ok
      invariant db.ps == 4096 && db.Valid() && !db.error
      invariant if i == 0 then db.root.None? else db.root == Some(Page(true, Crowd(i)))
    {
      if i > 0 { NextFits(i); }
      CrowdFor(i);
      FirstCrowd();
      Sizes(i);
      var r := db.Put([i + 1], Zeros(Size(i)), false, false);
      rs := rs + [r];
      i := i + 1;
    }
    LastStuck();
    Sizes(0);
    var r := db.Put([0], Zeros(243), false, false);
    rs := rs + [r];
  }

  lemma Sizes(i: nat)
    ensures Size(i) <= 247 && 247 <= MAXDATASIZE && 1 <= MAXKEY
  {}
}
