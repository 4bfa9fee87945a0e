/** Emptying a database (mdb_drop0 and the step to the next page it takes with mdb_cursor_sibling,
    mdb.c): one level of the tree after the other, from the leaves up. */
module DropWalk {
  import opened Options
  import opened PageTrees
  import opened Seqs

  // ---------------------------------------------------------------- the pages of a level

  lemma AppendInit<T>(a: seq<T>, b: seq<T>)
    requires b != []
    ensures (a + b)[..|a + b| - 1] == a + b[..|b| - 1] && (a + b)[|a + b| - 1] == b[|b| - 1]
  {}

  /** The children of a branch page. */
  ghost function Kids(ns: seq<Node>): seq<Tree> {
    if ns == [] then []
    else Kids(ns[..|ns| - 1]) + (if ns[|ns| - 1].Link? then [ns[|ns| - 1].page] else [])
  }

  ghost function KidsAll(ts: seq<Tree>): seq<Tree> {
    if ts == [] then [] else KidsAll(ts[..|ts| - 1]) + Kids(ts[|ts| - 1].nodes)
  }

  /** The pages d levels below the root, from left to right. */
  ghost function Row(t: Tree, d: nat): seq<Tree> {
    if d == 0 then [t] else KidsAll(Row(t, d - 1))
  }

  lemma {:induction false} KidsAt(ns: seq<Node>, h: nat)
    requires EvenAll(ns, h) && h > 1
    ensures |Kids(ns)| == |ns|
    ensures forall i | 0 <= i < |ns| :: ns[i].Link? && Kids(ns)[i] == ns[i].page
    decreases |ns|
  {
    if ns != [] {
      var k := |ns| - 1;
      assert EvenNode(ns[k], h);
      KidsAt(ns[..k], h);
      forall i | 0 <= i < |ns| ensures ns[i].Link? && Kids(ns)[i] == ns[i].page {
        if i < k { assert ns[..k][i] == ns[i]; }
      }
    }
  }

  lemma {:induction false} KidsAllAppend(a: seq<Tree>, b: seq<Tree>)
    ensures KidsAll(a + b) == KidsAll(a) + KidsAll(b)
    decreases |b|
  {
    hide Kids;
    if b == [] {
      assert a + b == a;
    } else {
      var k := |b| - 1;
      KidsAllAppend(a, b[..k]);
      AppendInit(a, b);
      Assoc(KidsAll(a), KidsAll(b[..k]), Kids(b[k].nodes));
    }
  }

  lemma KidsAllOne(t: Tree)
    ensures KidsAll([t]) == Kids(t.nodes)
  {
    assert [t][..0] == [];
    assert KidsAll([]) == [];
  }

  /** A page above, and the index of the child the cursor is in. */
  datatype Spot = Spot(tree: Tree, ki: nat)

  /** The spots lead from the root t of a tree of height h down to the page c. */
  ghost predicate Path(file: seq<Cell>, lv: seq<Spot>, t: Tree, h: nat, c: Tree) {
    && |lv| < h && Even(c, h - |lv|) && Holds(file, c)
    && if lv == [] then c == t
       else
         var l := lv[|lv| - 1];
         && !l.tree.leaf && l.ki < |l.tree.nodes| && l.tree.nodes[l.ki].Link? && l.tree.nodes[l.ki].page == c
         && Path(file, lv[..|lv| - 1], t, h, l.tree)
  }

  /** The pages to the right at the same level. */
  ghost function After(lv: seq<Spot>): seq<Tree> {
    if lv == [] then []
    else
      var l := lv[|lv| - 1];
      From(Kids(l.tree.nodes), l.ki + 1) + KidsAll(After(lv[..|lv| - 1]))
  }

  ghost function From(ts: seq<Tree>, i: nat): seq<Tree> {
    if i <= |ts| then ts[i..] else []
  }

  lemma PathPage(file: seq<Cell>, lv: seq<Spot>, t: Tree, h: nat, c: Tree)
    requires Path(file, lv, t, h, c)
    ensures |lv| < h && c.pgno < |file| && file[c.pgno] == Page(c.pgno, c.leaf, Entries(c.nodes))
    ensures c.leaf == (|lv| + 1 == h) && (c.leaf || c.nodes != [])
    ensures HoldsAll(file, c.nodes) && EvenAll(c.nodes, h - |lv|)
    ensures lv == [] ==> c == t
    ensures lv != [] ==>
              var l := lv[|lv| - 1]; !l.tree.leaf && l.ki < |l.tree.nodes| && Path(file, lv[..|lv| - 1], t, h, l.tree)
  {}

  lemma PathPush(file: seq<Cell>, lv: seq<Spot>, t: Tree, h: nat, c: Tree, i: nat)
    requires Path(file, lv, t, h, c) && !c.leaf && i < |c.nodes|
    ensures c.nodes[i].Link? && Path(file, lv + [Spot(c, i)], t, h, c.nodes[i].page)
    ensures |Kids(c.nodes)| == |c.nodes| && Kids(c.nodes)[i] == c.nodes[i].page
  {
    PathPage(file, lv, t, h, c);
    assert HoldsNode(file, c.nodes[i]) && EvenNode(c.nodes[i], h - |lv|);
    KidsAt(c.nodes, h - |lv|);
    assert (lv + [Spot(c, i)])[..|lv|] == lv;
  }

  lemma AfterPush(lv: seq<Spot>, c: Tree, i: nat)
    requires i < |Kids(c.nodes)|
    ensures After(lv + [Spot(c, i)]) == Kids(c.nodes)[i + 1..] + KidsAll(After(lv))
  {
    assert (lv + [Spot(c, i)])[..|lv|] == lv;
  }

  /** The next child of the same page. */
  lemma NextChild(file: seq<Cell>, lv: seq<Spot>, t: Tree, h: nat, c: Tree)
    requires Path(file, lv, t, h, c) && lv != [] && var l := lv[|lv| - 1]; l.ki + 1 < |l.tree.nodes|
    ensures var l := lv[|lv| - 1]; var next := lv[..|lv| - 1] + [Spot(l.tree, l.ki + 1)];
            && l.tree.nodes[l.ki + 1].Link? && Path(file, next, t, h, l.tree.nodes[l.ki + 1].page)
            && After(lv) == [l.tree.nodes[l.ki + 1].page] + After(next)
  {
    hide Path, Kids, KidsAll;
    PathPage(file, lv, t, h, c);
    var up, l := lv[..|lv| - 1], lv[|lv| - 1];
    var kids, rest := Kids(l.tree.nodes), KidsAll(After(up));
    PathPush(file, up, t, h, l.tree, l.ki + 1);
    assert After(lv) == kids[l.ki + 1..] + rest;
    hide After;
    AfterPush(up, l.tree, l.ki + 1);
    DropCons(kids, l.ki + 1);
    Assoc([kids[l.ki + 1]], kids[l.ki + 2..], rest);
  }

  /** The first child of the next page above. */
  lemma NextCousin(file: seq<Cell>, lv: seq<Spot>, t: Tree, h: nat, c: Tree, up: seq<Spot>, parent: Tree)
    requires Path(file, lv, t, h, c) && lv != [] && var l := lv[|lv| - 1]; l.ki + 1 >= |l.tree.nodes|
    requires Path(file, up, t, h, parent) && |up| == |lv| - 1 && After(lv[..|lv| - 1]) == [parent] + After(up)
    ensures var next := up + [Spot(parent, 0)];
            && !parent.leaf && parent.nodes != [] && parent.nodes[0].Link? && Path(file, next, t, h, parent.nodes[0].page)
            && After(lv) == [parent.nodes[0].page] + After(next)
  {
    hide Path, Kids, KidsAll, After;
    PathPage(file, lv, t, h, c);
    PathPage(file, up, t, h, parent);
    PathPush(file, up, t, h, parent, 0);
    NothingRight(file, lv, t, h, c);
    KidsAllAppend([parent], After(up));
    KidsAllOne(parent);
    AfterPush(up, parent, 0);
    HeadTail(Kids(parent.nodes));
    Assoc([Kids(parent.nodes)[0]], Kids(parent.nodes)[1..], KidsAll(After(up)));
  }

  lemma NothingRight(file: seq<Cell>, lv: seq<Spot>, t: Tree, h: nat, c: Tree)
    requires Path(file, lv, t, h, c) && lv != [] && var l := lv[|lv| - 1]; l.ki + 1 >= |l.tree.nodes|
    ensures After(lv) == KidsAll(After(lv[..|lv| - 1]))
  {
    hide KidsAll, Kids;
    PathPage(file, lv, t, h, c);
    var l := lv[|lv| - 1];
    PathPage(file, lv[..|lv| - 1], t, h, l.tree);
    KidsAt(l.tree.nodes, h - |lv| + 1);
  }

  // ---------------------------------------------------------------- the first page of each level

  ghost function Left(t: Tree, d: nat): Tree {
    if d == 0 then t
    else
      var up := Left(t, d - 1);
      if up.nodes != [] && up.nodes[0].Link? then up.nodes[0].page else up
  }

  ghost function LeftPath(t: Tree, d: nat): (r: seq<Spot>)
    ensures |r| == d
  {
    if d == 0 then [] else LeftPath(t, d - 1) + [Spot(Left(t, d - 1), 0)]
  }

  /** From there, the pages to the right are the rest of the level. */
  lemma {:induction false} LeftOk(file: seq<Cell>, t: Tree, h: nat, d: nat)
    requires Holds(file, t) && Even(t, h) && d < h
    ensures Path(file, LeftPath(t, d), t, h, Left(t, d))
    ensures [Left(t, d)] + After(LeftPath(t, d)) == Row(t, d)
    decreases d
  {
    if d == 0 {
      LeftRoot(file, t, h);
    } else {
      hide Path, Kids, KidsAll, After, Holds, Even;
      var up, lv := Left(t, d - 1), LeftPath(t, d - 1);
      LeftOk(file, t, h, d - 1);
      LeftStep(file, lv, t, h, up);
      HeadTail(Kids(up.nodes));
      KidsAllAppend([up], After(lv));
      KidsAllOne(up);
      Assoc([Kids(up.nodes)[0]], Kids(up.nodes)[1..], KidsAll(After(lv)));
    }
  }

  lemma LeftRoot(file: seq<Cell>, t: Tree, h: nat)
    requires Holds(file, t) && Even(t, h)
    ensures Path(file, [], t, h, t) && After([]) == []
  {}

  lemma LeftStep(file: seq<Cell>, lv: seq<Spot>, t: Tree, h: nat, up: Tree)
    requires Path(file, lv, t, h, up) && |lv| + 1 < h
    ensures !up.leaf && up.nodes != [] && up.nodes[0].Link? && Path(file, lv + [Spot(up, 0)], t, h, up.nodes[0].page)
    ensures Kids(up.nodes) != [] && Kids(up.nodes)[0] == up.nodes[0].page
    ensures After(lv + [Spot(up, 0)]) == Kids(up.nodes)[1..] + KidsAll(After(lv))
  {
    hide Path, After;
    PathPage(file, lv, t, h, up);
    PathPush(file, lv, t, h, up, 0);
    AfterPush(lv, up, 0);
  }

  // ---------------------------------------------------------------- what is to be freed

  ghost function Pgnos(ts: seq<Tree>): multiset<Pgno> {
    if ts == [] then multiset{} else Pgnos(ts[..|ts| - 1]) + multiset{ts[|ts| - 1].pgno}
  }

  /** What belongs to the pages apart from themselves. */
  ghost function Owned(ts: seq<Tree>, subs: bool): multiset<Pgno> {
    if ts == [] then multiset{} else Owned(ts[..|ts| - 1], subs) + multiset(UsedBy(ts[|ts| - 1].nodes, subs))
  }

  lemma {:induction false} PgnosAppend(a: seq<Tree>, b: seq<Tree>)
    ensures Pgnos(a + b) == Pgnos(a) + Pgnos(b)
    decreases |b|
  {
    if b == [] {
      assert a + b == a;
    } else {
      var k := |b| - 1;
      PgnosAppend(a, b[..k]);
      AppendInit(a, b);
      BagAssoc(Pgnos(a), Pgnos(b[..k]), multiset{b[k].pgno});
    }
  }

  lemma {:induction false} OwnedAppend(a: seq<Tree>, b: seq<Tree>, subs: bool)
    ensures Owned(a + b, subs) == Owned(a, subs) + Owned(b, subs)
    decreases |b|
  {
    hide UsedBy;
    if b == [] {
      assert a + b == a;
    } else {
      var k := |b| - 1;
      OwnedAppend(a, b[..k], subs);
      AppendInit(a, b);
      BagAssoc(Owned(a, subs), Owned(b[..k], subs), multiset(UsedBy(b[k].nodes, subs)));
    }
  }

  /** What belongs to a branch page: its children, and what belongs to them. */
  lemma {:induction false} OwnedByBranch(ns: seq<Node>, h: nat, subs: bool)
    requires EvenAll(ns, h) && h > 1
    ensures multiset(UsedBy(ns, subs)) == Pgnos(Kids(ns)) + Owned(Kids(ns), subs)
    decreases |ns|
  {
    if ns != [] {
      var k := |ns| - 1;
      assert EvenNode(ns[k], h);
      OwnedByBranch(ns[..k], h, subs);
      var kids, t := Kids(ns[..k]), ns[k].page;
      assert multiset(UsedBy(ns, subs)) == multiset(UsedBy(ns[..k], subs)) + multiset(Used(t, subs));
      assert Kids(ns) == kids + [t];
      hide *;
      PgnosAppend(kids, [t]);
      OwnedAppend(kids, [t], subs);
      OneTree(t, subs);
      Exchange(Pgnos(kids), Owned(kids, subs), Pgnos([t]), Owned([t], subs));
    }
  }

  lemma Exchange(a: multiset<Pgno>, b: multiset<Pgno>, c: multiset<Pgno>, d: multiset<Pgno>)
    ensures (a + b) + (d + c) == (a + c) + (b + d)
  {}

  lemma OneTree(t: Tree, subs: bool)
    ensures Pgnos([t]) == multiset{t.pgno} && Owned([t], subs) == multiset(UsedBy(t.nodes, subs))
    ensures multiset(Used(t, subs)) == multiset(UsedBy(t.nodes, subs)) + multiset{t.pgno}
  {
    hide UsedBy;
    assert [t][..0] == [];
    assert Pgnos([]) == multiset{} && Owned([], subs) == multiset{};
  }

  ghost predicate AllEven(ts: seq<Tree>, h: nat) {
    forall i | 0 <= i < |ts| :: Even(ts[i], h)
  }

  lemma {:induction false} OwnedByRow(ts: seq<Tree>, h: nat, subs: bool)
    requires AllEven(ts, h) && h > 1
    ensures Owned(ts, subs) == Pgnos(KidsAll(ts)) + Owned(KidsAll(ts), subs)
    decreases |ts|
  {
    if ts != [] {
      hide UsedBy, Kids;
      var k := |ts| - 1;
      assert Even(ts[k], h);
      OwnedByRow(ts[..k], h, subs);
      OwnedByBranch(ts[k].nodes, h, subs);
      var a, b := KidsAll(ts[..k]), Kids(ts[k].nodes);
      PgnosAppend(a, b);
      OwnedAppend(a, b, subs);
      Exchange(Pgnos(a), Owned(a, subs), Pgnos(b), Owned(b, subs));
    }
  }

  lemma {:induction false} KidsEven(ns: seq<Node>, h: nat)
    requires EvenAll(ns, h) && h > 1
    ensures AllEven(Kids(ns), h - 1)
  {
    KidsAt(ns, h);
    forall i | 0 <= i < |ns| ensures Even(Kids(ns)[i], h - 1) {
      assert EvenNode(ns[i], h);
    }
  }

  lemma {:induction false} KidsAllEven(ts: seq<Tree>, h: nat)
    requires AllEven(ts, h) && h > 1
    ensures AllEven(KidsAll(ts), h - 1)
    decreases |ts|
  {
    if ts != [] {
      var k := |ts| - 1;
      KidsAllEven(ts[..k], h);
      assert Even(ts[k], h);
      KidsEven(ts[k].nodes, h);
    }
  }

  lemma {:induction false} RowEven(t: Tree, h: nat, d: nat)
    requires Even(t, h) && d < h
    ensures AllEven(Row(t, d), h - d)
    decreases d
  {
    if d > 0 {
      RowEven(t, h, d - 1);
      KidsAllEven(Row(t, d - 1), h - d + 1);
    }
  }

  // ---------------------------------------------------------------- leaves that need not be read

  /** md_overflow_pages: the overflow pages of the database itself, not of databases in it. */
  ghost function Overs(ns: seq<Node>): nat
    decreases ns
  {
    if ns == [] then 0 else Overs(ns[..|ns| - 1]) + NodeOvers(ns[|ns| - 1])
  }

  ghost function NodeOvers(n: Node): nat
    decreases n
  {
    match n
    case Big(_, _, _, chunks) => |chunks|
    case Link(_, t) => Overs(t.nodes)
    case Plain(_, _) => 0
    case Sub(_, _, _) => 0
  }

  ghost function OversAll(ts: seq<Tree>): nat {
    if ts == [] then 0 else OversAll(ts[..|ts| - 1]) + Overs(ts[|ts| - 1].nodes)
  }

  lemma {:induction false} OversAppend(a: seq<Tree>, b: seq<Tree>)
    ensures OversAll(a + b) == OversAll(a) + OversAll(b)
    decreases |b|
  {
    hide Overs;
    if b == [] {
      assert a + b == a;
    } else {
      OversAppend(a, b[..|b| - 1]);
      AppendInit(a, b);
    }
  }

  lemma OversOne(t: Tree)
    ensures OversAll([t]) == Overs(t.nodes)
  {
    hide Overs;
    assert [t][..0] == [];
    assert OversAll([]) == 0;
  }

  lemma {:induction false} OversOfKids(ns: seq<Node>, h: nat)
    requires EvenAll(ns, h) && h > 1
    ensures Overs(ns) == OversAll(Kids(ns))
    decreases |ns|
  {
    if ns != [] {
      var k := |ns| - 1;
      assert EvenNode(ns[k], h);
      OversOfKids(ns[..k], h);
      OversAppend(Kids(ns[..k]), [ns[k].page]);
      OversOne(ns[k].page);
    }
  }

  lemma {:induction false} OversOfRow(ts: seq<Tree>, h: nat)
    requires AllEven(ts, h) && h > 1
    ensures OversAll(ts) == OversAll(KidsAll(ts))
    decreases |ts|
  {
    if ts != [] {
      hide Overs, Kids;
      var k := |ts| - 1;
      assert Even(ts[k], h);
      OversOfRow(ts[..k], h);
      OversOfKids(ts[k].nodes, h);
      OversAppend(KidsAll(ts[..k]), Kids(ts[k].nodes));
    }
  }

  lemma {:induction false} OversOfTree(t: Tree, h: nat, d: nat)
    requires Even(t, h) && d < h
    ensures OversAll(Row(t, d)) == Overs(t.nodes)
    decreases d
  {
    if d == 0 {
      OversOne(t);
    } else {
      RowEven(t, h, d - 1);
      OversOfTree(t, h, d - 1);
      OversOfRow(Row(t, d - 1), h - d + 1);
    }
  }

  lemma OversStep(ns: seq<Node>, k: nat, subs: bool)
    requires k < |ns|
    ensures Overs(ns[..k + 1]) == Overs(ns[..k]) + NodeOvers(ns[k])
    ensures UsedBy(ns[..k + 1], subs) == UsedBy(ns[..k], subs) + UsedByNode(ns[k], subs)
  {
    assert ns[..k + 1][..k] == ns[..k];
  }

  /** Once the overflow pages of a leaf are counted, there is nothing more to free in it. */
  lemma {:induction false} NoMoreOvers(ns: seq<Node>, k: nat)
    requires EvenAll(ns, 1) && k <= |ns|
    ensures Overs(ns[..k]) <= Overs(ns)
    ensures Overs(ns[..k]) == Overs(ns) ==> UsedBy(ns, false) == UsedBy(ns[..k], false)
    decreases |ns| - k
  {
    if k == |ns| {
      assert ns[..k] == ns;
    } else {
      assert EvenNode(ns[k], 1);
      OversStep(ns, k, false);
      NoMoreOvers(ns, k + 1);
    }
  }

  lemma {:induction false} NoOversAll(ts: seq<Tree>)
    requires AllEven(ts, 1) && OversAll(ts) == 0
    ensures Owned(ts, false) == multiset{}
    decreases |ts|
  {
    if ts != [] {
      hide UsedBy, Overs;
      var k := |ts| - 1;
      assert Even(ts[k], 1);
      NoOversAll(ts[..k]);
      NoMoreOvers(ts[k].nodes, 0);
      NoneUsed(ts[k].nodes, false);
    }
  }

  lemma NoneUsed(ns: seq<Node>, subs: bool)
    ensures ns[..0] == [] && UsedBy(ns[..0], subs) == [] && Overs(ns[..0]) == 0
  {}

  /** A database of duplicates has no overflow pages and no databases in it. */
  ghost predicate Bare(ns: seq<Node>)
    decreases ns
  {
    forall i | 0 <= i < |ns| :: BareNode(ns[i])
  }

  ghost predicate BareNode(n: Node)
    decreases n
  {
    match n
    case Plain(_, _) => true
    case Link(_, t) => Bare(t.nodes)
    case Big(_, _, _, _) => false
    case Sub(_, _, _) => false
  }

  ghost predicate AllBare(ts: seq<Tree>) {
    forall i | 0 <= i < |ts| :: Bare(ts[i].nodes)
  }

  lemma BareKids(ns: seq<Node>, h: nat)
    requires Bare(ns) && EvenAll(ns, h) && h > 1
    ensures AllBare(Kids(ns))
  {
    KidsAt(ns, h);
    forall i | 0 <= i < |ns| ensures Bare(Kids(ns)[i].nodes) {
      assert BareNode(ns[i]) && ns[i].Link?;
    }
  }

  lemma {:induction false} BareKidsAll(ts: seq<Tree>, h: nat)
    requires AllBare(ts) && AllEven(ts, h) && h > 1
    ensures AllBare(KidsAll(ts))
    decreases |ts|
  {
    if ts != [] {
      var k := |ts| - 1;
      BareKidsAll(ts[..k], h);
      assert Even(ts[k], h) && Bare(ts[k].nodes);
      BareKids(ts[k].nodes, h);
    }
  }

  lemma {:induction false} BareRow(t: Tree, h: nat, d: nat)
    requires Bare(t.nodes) && Even(t, h) && d < h
    ensures AllBare(Row(t, d))
    decreases d
  {
    if d > 0 {
      BareRow(t, h, d - 1);
      RowEven(t, h, d - 1);
      BareKidsAll(Row(t, d - 1), h - d + 1);
    }
  }

  lemma {:induction false} BareUsed(ns: seq<Node>, subs: bool)
    requires Bare(ns) && EvenAll(ns, 1)
    ensures UsedBy(ns, subs) == []
    decreases |ns|
  {
    if ns != [] {
      var k := |ns| - 1;
      assert BareNode(ns[k]) && EvenNode(ns[k], 1);
      BareUsed(ns[..k], subs);
    }
  }

  lemma {:induction false} BareOwned(ts: seq<Tree>, subs: bool)
    requires AllBare(ts) && AllEven(ts, 1)
    ensures Owned(ts, subs) == multiset{}
    decreases |ts|
  {
    if ts != [] {
      hide UsedBy, Bare;
      var k := |ts| - 1;
      assert Even(ts[k], 1);
      BareOwned(ts[..k], subs);
      BareUsed(ts[k].nodes, subs);
    }
  }

  /** The databases in this one are databases of duplicates. */
  ghost predicate HoldsBare(ns: seq<Node>)
    decreases ns
  {
    forall i | 0 <= i < |ns| :: HoldsBareNode(ns[i])
  }

  ghost predicate HoldsBareNode(n: Node)
    decreases n
  {
    match n
    case Link(_, t) => HoldsBare(t.nodes)
    case Sub(_, _, r) => r.Some? ==> Bare(r.value.nodes)
    case Plain(_, _) => true
    case Big(_, _, _, _) => true
  }

  lemma {:induction false} PathHoldsBare(file: seq<Cell>, lv: seq<Spot>, t: Tree, h: nat, c: Tree)
    requires Path(file, lv, t, h, c) && HoldsBare(t.nodes)
    ensures HoldsBare(c.nodes)
    decreases |lv|
  {
    if lv != [] {
      hide Holds, Even;
      var l := lv[|lv| - 1];
      PathHoldsBare(file, lv[..|lv| - 1], t, h, l.tree);
      assert HoldsBareNode(l.tree.nodes[l.ki]);
    }
  }

  // ---------------------------------------------------------------- the walk

  datatype Frame = Frame(leaf: bool, entries: seq<Entry>, ki: nat)

  ghost predicate FrameOf(f: Frame, s: Spot) {
    f == Frame(s.tree.leaf, Entries(s.tree.nodes), s.ki)
  }

  ghost predicate StackOf(stack: seq<Frame>, lv: seq<Spot>) {
    |stack| == |lv| && forall i | 0 <= i < |lv| :: FrameOf(stack[i], lv[i])
  }

  /** The pages of the saved stack, down the left edge. */
  ghost predicate LeftEdge(mx: seq<Frame>, t: Tree) {
    forall i | 0 <= i < |mx| :: FrameOf(mx[i], Spot(Left(t, i), 0))
  }

  lemma {:induction false} EdgeStack(mx: seq<Frame>, t: Tree, d: nat)
    requires LeftEdge(mx, t) && d <= |mx|
    ensures StackOf(mx[..d], LeftPath(t, d))
    decreases d
  {
    if d > 0 {
      EdgeStack(mx, t, d - 1);
      var a, b := mx[..d], LeftPath(t, d);
      forall i | 0 <= i < d ensures FrameOf(a[i], b[i]) {
        if i < d - 1 {
          assert a[i] == mx[..d - 1][i] && b[i] == LeftPath(t, d - 1)[i];
        } else {
          assert a[i] == mx[i];
        }
      }
    }
  }

  lemma StackTop(stack: seq<Frame>, lv: seq<Spot>)
    requires StackOf(stack, lv)
    ensures |stack| == |lv|
    ensures stack != [] ==>
              var k := |stack| - 1;
              && FrameOf(stack[k], lv[k]) && StackOf(stack[..k], lv[..k])
              && stack[k].ki == lv[k].ki && |stack[k].entries| == |lv[k].tree.nodes|
  {}

  lemma FrameEntry(f: Frame, s: Spot)
    requires FrameOf(f, s) && s.ki < |s.tree.nodes| && s.tree.nodes[s.ki].Link?
    ensures f.ki == s.ki < |f.entries| && f.entries[f.ki].Child? && f.entries[f.ki].pgno == s.tree.nodes[s.ki].page.pgno
  {}

  lemma FrameMoved(f: Frame, s: Spot, f': Frame, s': Spot)
    requires FrameOf(f, s) && f' == f.(ki := f.ki + 1) && s' == Spot(s.tree, s.ki + 1)
    ensures FrameOf(f', s')
  {}

  /** The page a child's number leads to. */
  lemma ChildFrame(file: seq<Cell>, lv: seq<Spot>, t: Tree, h: nat, c: Tree)
    requires Path(file, lv, t, h, c)
    ensures c.pgno < |file| && file[c.pgno].Page? && FrameOf(Frame(file[c.pgno].leaf, file[c.pgno].entries, 0), Spot(c, 0))
  {
    PathPage(file, lv, t, h, c);
  }

  lemma NoRight()
    ensures After([]) == []
  {}

  lemma StackPush(stack: seq<Frame>, lv: seq<Spot>, f: Frame, s: Spot)
    requires StackOf(stack, lv) && FrameOf(f, s)
    ensures StackOf(stack + [f], lv + [s])
  {
    hide FrameOf;
  }

  /** What has been freed when the pages before the cursor in this row are done: of the row of leaves
      what belongs to the leaves, of a row of branch pages their children. */
  ghost function Progress(t: Tree, h: nat, d: nat, passed: seq<Tree>, subs: bool): multiset<Pgno>
  {
    if d + 1 >= h then Owned(passed, subs) else Owned(Row(t, d + 1), subs) + Pgnos(KidsAll(passed))
  }

  lemma ProgressNone(t: Tree, h: nat, d: nat, subs: bool)
    requires d + 1 < h
    ensures Progress(t, h, d, [], subs) == Owned(Row(t, d + 1), subs)
  {
    hide Row;
    assert KidsAll([]) == [] && Pgnos([]) == multiset{};
  }

  lemma ProgressLeaf(t: Tree, h: nat, passed: seq<Tree>, c: Tree, subs: bool)
    requires h > 0
    ensures Progress(t, h, h - 1, passed + [c], subs) == Progress(t, h, h - 1, passed, subs) + multiset(UsedBy(c.nodes, subs))
  {
    hide Owned, UsedBy, Row;
    OwnedAppend(passed, [c], subs);
    OneTree(c, subs);
  }

  lemma ProgressBranch(t: Tree, h: nat, d: nat, passed: seq<Tree>, c: Tree, subs: bool)
    requires d + 1 < h
    ensures Progress(t, h, d, passed + [c], subs) == Progress(t, h, d, passed, subs) + Pgnos(Kids(c.nodes))
  {
    hide Owned, Row, Kids, KidsAll, Pgnos;
    KidsAllAppend(passed, [c]);
    KidsAllOne(c);
    PgnosAppend(KidsAll(passed), Kids(c.nodes));
    BagAssoc(Owned(Row(t, d + 1), subs), Pgnos(KidsAll(passed)), Pgnos(Kids(c.nodes)));
  }

  /** A whole row done: all that belongs to the pages of the row. */
  lemma ProgressRow(t: Tree, h: nat, d: nat, subs: bool)
    requires Even(t, h) && d < h
    ensures Progress(t, h, d, Row(t, d), subs) == Owned(Row(t, d), subs)
  {
    if d + 1 < h {
      hide Owned, Pgnos, KidsAll, Even;
      RowEven(t, h, d);
      OwnedByRow(Row(t, d), h - d, subs);
      assert Row(t, d + 1) == KidsAll(Row(t, d));
      Commute(Owned(KidsAll(Row(t, d)), subs), Pgnos(KidsAll(Row(t, d))));
    }
  }

  lemma Commute(a: multiset<Pgno>, b: multiset<Pgno>)
    ensures a + b == b + a
  {}

  /** The pages of a run, last one first, as `mdb_midl_append_range` lists them. */
  function Falling(p: Pgno, n: nat): (r: seq<Pgno>)
    ensures |r| == n && forall i | 0 <= i < n :: r[i] == p + (n - 1 - i)
  {
    seq(n, i requires 0 <= i < n => p + (n - 1 - i))
  }

  lemma {:induction false} FallingBag(p: Pgno, n: nat)
    ensures multiset(Falling(p, n)) == multiset(Range(p, n))
    decreases n
  {
    if n > 0 {
      FallingBag(p, n - 1);
      assert Falling(p, n) == [p + (n - 1)] + Falling(p, n - 1);
      assert Range(p, n) == Range(p, n - 1) + [p + (n - 1)];
    }
  }

  class Dropper {
    const file: seq<Cell>
    /** mt_free_pgs. */
    var freed: seq<Pgno>

    constructor (file: seq<Cell>)
      ensures this.file == file && freed == []
    {
      this.file, freed := file, [];
    }

    /** `mdb_cursor_sibling` to the right. */
    method Sibling(stack: seq<Frame>, cur: Frame, ghost lv: seq<Spot>, ghost t: Tree, ghost h: nat, ghost c: Tree)
      returns (ok: bool, stack': seq<Frame>, cur': Frame, ghost lv': seq<Spot>, ghost c': Tree)
      requires Path(file, lv, t, h, c) && StackOf(stack, lv)
      ensures ok == (After(lv) != []) && |stack'| == |lv'| == |lv|
      ensures ok ==> Path(file, lv', t, h, c') && StackOf(stack', lv') && FrameOf(cur', Spot(c', 0))
      ensures ok ==> After(lv) == [c'] + After(lv')
      decreases |stack|
    {
      hide *;
      stack', cur', lv', c' := stack, cur, lv, c;
      StackTop(stack, lv);
      PathPage(file, lv, t, h, c);
      if stack == [] {
        NoRight();
        return false, stack', cur', lv', c';
      }
      var k := |stack| - 1;
      var f := stack[k];
      if f.ki + 1 >= |f.entries| {
        var up, parent;
        ghost var lvUp, p;
        ok, up, parent, lvUp, p := Sibling(stack[..k], f, lv[..k], t, h, lv[k].tree);
        NothingRight(file, lv, t, h, c);
        NoKids();
        if !ok {
          return;
        }
        NextCousin(file, lv, t, h, c, lvUp, p);
        StackPush(up, lvUp, parent, Spot(p, 0));
        stack', lv', c' := up + [parent], lvUp + [Spot(p, 0)], p.nodes[0].page;
        FrameEntry(parent, Spot(p, 0));
        ChildFrame(file, lv', t, h, c');
        var page := file[parent.entries[0].pgno];
        cur' := Frame(page.leaf, page.entries, 0);
      } else {
        ghost var s := Spot(lv[k].tree, lv[k].ki + 1);
        NextChild(file, lv, t, h, c);
        var g := f.(ki := f.ki + 1);
        FrameMoved(f, lv[k], g, s);
        StackPush(stack[..k], lv[..k], g, s);
        stack', lv', c' := stack[..k] + [g], lv[..k] + [s], s.tree.nodes[s.ki].page;
        FrameEntry(g, s);
        ChildFrame(file, lv', t, h, c');
        var page := file[g.entries[g.ki].pgno];
        cur' := Frame(page.leaf, page.entries, 0);
        ok := true;
      }
    }

    /** `mdb_page_search` for the first leaf: the pages down the left edge. */
    method SearchFirst(root: Pgno, ghost t: Tree, ghost h: nat) returns (mx: seq<Frame>)
      requires Holds(file, t) && Even(t, h) && t.pgno == root
      ensures |mx| == h > 0 && LeftEdge(mx, t)
    {
      hide Path, After, Row, Left, LeftPath, FrameOf, Holds, Even;
      LeftRoot(file, t, h);
      LeftTop(t);
      PathPage(file, LeftPath(t, 0), t, h, Left(t, 0));
      var page := file[root];
      mx := [Frame(page.leaf, page.entries, 0)];
      FrameIs(mx[0], Left(t, 0));
      while !page.leaf
        invariant 1 <= |mx| <= h && LeftEdge(mx, t)
        invariant Path(file, LeftPath(t, |mx| - 1), t, h, Left(t, |mx| - 1))
        invariant page == Page(Left(t, |mx| - 1).pgno, Left(t, |mx| - 1).leaf, Entries(Left(t, |mx| - 1).nodes))
        decreases h - |mx|
      {
        ghost var d := |mx| - 1;
        PathPage(file, LeftPath(t, d), t, h, Left(t, d));
        LeftOk(file, t, h, d + 1);
        LeftDown(file, t, h, d);
        PathPage(file, LeftPath(t, d + 1), t, h, Left(t, d + 1));
        page := file[page.entries[0].pgno];
        var f := Frame(page.leaf, page.entries, 0);
        FrameIs(f, Left(t, d + 1));
        mx := mx + [f];
      }
      PathPage(file, LeftPath(t, |mx| - 1), t, h, Left(t, |mx| - 1));
    }

    /** The overflow pages and the databases of a leaf. When no overflow pages are left in the database
        and no databases are looked for, the rest of the leaf is not read. */
    method ScanLeaf(entries: seq<Entry>, overflow: nat, subs: bool, ghost ns: seq<Node>) returns (left: nat)
      requires entries == Entries(ns) && HoldsAll(file, ns) && EvenAll(ns, 1) && Overs(ns) <= overflow
      requires subs ==> HoldsBare(ns)
      modifies this
      ensures multiset(freed) == multiset(old(freed)) + multiset(UsedBy(ns, subs))
      ensures left == overflow - Overs(ns)
      decreases subs, 0
    {
      hide *;
      left := overflow;
      var i := 0;
      NoneUsed(ns, subs);
      while i < |entries|
        invariant 0 <= i <= |entries| == |ns| && left == overflow - Overs(ns[..i])
        invariant multiset(freed) == multiset(old(freed)) + multiset(UsedBy(ns[..i], subs))
      {
        OversStep(ns, i, subs);
        LeafNode(file, ns, i, subs);
        ghost var before := multiset(freed);
        match entries[i] {
          case BigData(_, _, pg) =>
            var n := file[pg].pages;
            FallingBag(pg, n);
            freed := freed + Falling(pg, n);
            NoMoreOvers(ns, i + 1);
            left := left - n;
            if left == 0 && !subs {
              BagAssoc(multiset(old(freed)), multiset(UsedBy(ns[..i], subs)), multiset(UsedByNode(ns[i], subs)));
              return;
            }
          case SubDb(_, db, root) =>
            if subs && root.Some? {
              ghost var t := ns[i].root.value;
              var _ := Drop(root, db.overflow, true, false, t, db.depth);
              BareTree(t);
            }
          case Value(_, _) =>
        }
        BagAssoc(multiset(old(freed)), multiset(UsedBy(ns[..i], subs)), multiset(UsedByNode(ns[i], subs)));
        i := i + 1;
      }
      assert ns[..i] == ns;
    }

    /** `mdb_drop0`. */
    method Drop(root: Option<Pgno>, overflow: nat, sub: bool, subs: bool, ghost t: Tree, ghost h: nat) returns (left: nat)
      requires root.Some? ==> Holds(file, t) && Even(t, h) && t.pgno == root.value
      requires root.Some? && !sub ==> overflow == Overs(t.nodes)
      requires root.Some? && sub ==> !subs && Bare(t.nodes)
      requires root.Some? && subs ==> HoldsBare(t.nodes)
      modifies this
      ensures root.None? ==> freed == old(freed)
      ensures root.Some? ==> multiset(freed) == multiset(old(freed)) + multiset(Used(t, subs))
      ensures root.Some? && !sub ==> left == 0
      decreases subs, 2
    {
      hide *;
      left := overflow;
      if root.None? {
        return;
      }
      ghost var was := multiset(freed);
      var mx := SearchFirst(root.value, t, h);
      if sub || (!subs && left == 0) {
        EdgeCut(mx, t);
        mx := mx[..|mx| - 1];
        LeavesSkipped(t, h, sub, subs);
      }
      RowTop(t);
      if mx != [] {
        left := Rows(mx, left, sub, subs, t, h);
      }
      OneTree(t, subs);
      BagAssoc(was, Owned([t], subs), multiset{t.pgno});
      freed := freed + [root.value];
    }

    /** The levels, from the one the saved stack ends at up to the root. */
    method Rows(mx: seq<Frame>, overflow: nat, sub: bool, subs: bool, ghost t: Tree, ghost h: nat) returns (left: nat)
      requires Holds(file, t) && Even(t, h) && LeftEdge(mx, t) && 0 < |mx| <= h && h - 1 <= |mx|
      requires if |mx| < h then Owned(Row(t, h - 1), subs) == multiset{} else !sub && overflow == Overs(t.nodes)
      requires subs ==> HoldsBare(t.nodes)
      modifies this
      ensures multiset(freed) == multiset(old(freed)) + Owned([t], subs)
      ensures left == if |mx| < h then overflow else 0
      decreases subs, 1
    {
      hide *;
      left := overflow;
      ghost var was := multiset(freed);
      var k := |mx| - 1;
      var stack, cur := mx[..k], mx[k];
      ghost var lv, c, passed := LeftPath(t, k), Left(t, k), [];
      RowStart(file, mx, t, h, k);
      NothingYet(t, h, k, subs);
      RowTop(t);
      while true
        invariant |stack| == |lv| < |mx| && InRow(file, stack, cur, lv, t, h, c, passed)
        invariant multiset(freed) == was + Progress(t, h, |lv|, passed, subs)
        invariant left == if |mx| < h then overflow else if |lv| + 1 == h then overflow - OversAll(passed) else 0
        decreases |lv|, |After(lv)|
      {
        ghost var before := multiset(freed);
        InRowPage(file, stack, cur, lv, t, h, c, passed, subs);
        var pop := false;
        if cur.leaf {
          OversLeft(t, h, passed, c, After(lv));
          left := ScanLeaf(cur.entries, left, subs, c.nodes);
          pop := !subs && left == 0;
          ProgressLeaf(t, h, passed, c, subs);
          BagAssoc(was, Progress(t, h, |lv|, passed, subs), multiset(UsedBy(c.nodes, subs)));
        } else {
          AppendKids(cur.entries, c.nodes, h - |lv|);
          ProgressBranch(t, h, |lv|, passed, c, subs);
          BagAssoc(was, Progress(t, h, |lv|, passed, subs), Pgnos(Kids(c.nodes)));
        }
        RowDone(t, h, lv, c, passed, subs);
        if !pop && stack != [] {
          var ok, stack', cur';
          ghost var lv', c';
          ok, stack', cur', lv', c' := Sibling(stack, cur, lv, t, h, c);
          if ok {
            RowNext(passed, c, c', After(lv'), Row(t, |lv|));
            InRowAgain(file, stack', cur', lv', t, h, c', passed + [c]);
            passed := passed + [c];
            stack, cur, lv, c := stack', cur', lv', c';
            continue;
          }
        }
        if stack == [] {
          return;
        }
        ProgressNone(t, h, |lv| - 1, subs);
        k := |stack| - 1;
        RowStart(file, mx, t, h, k);
        stack, cur := mx[..k], mx[k];
        lv, c, passed := LeftPath(t, k), Left(t, k), [];
      }
    }

    /** The numbers of the children of a branch page. */
    method AppendKids(entries: seq<Entry>, ghost ns: seq<Node>, ghost h: nat)
      requires entries == Entries(ns) && EvenAll(ns, h) && h > 1
      modifies this
      ensures multiset(freed) == multiset(old(freed)) + Pgnos(Kids(ns))
    {
      hide *;
      var i := 0;
      KidsOfNone(ns);
      while i < |entries|
        invariant 0 <= i <= |entries| == |ns|
        invariant multiset(freed) == multiset(old(freed)) + Pgnos(Kids(ns[..i]))
      {
        KidsStep(ns, h, i);
        BagAssoc(multiset(old(freed)), Pgnos(Kids(ns[..i])), multiset{entries[i].pgno});
        freed := freed + [entries[i].pgno];
        i := i + 1;
      }
      assert ns[..i] == ns;
    }
  }

  lemma KidsOfNone(ns: seq<Node>)
    ensures Pgnos(Kids(ns[..0])) == multiset{}
  {}

  lemma KidsStep(ns: seq<Node>, h: nat, i: nat)
    requires EvenAll(ns, h) && h > 1 && i < |ns|
    ensures ns[i].Link? && EntryOf(ns[i]) == Child(ns[i].key, ns[i].page.pgno)
    ensures Pgnos(Kids(ns[..i + 1])) == Pgnos(Kids(ns[..i])) + multiset{ns[i].page.pgno}
  {
    assert EvenNode(ns[i], h);
    assert ns[..i + 1][..i] == ns[..i];
    assert Kids(ns[..i + 1]) == Kids(ns[..i]) + [ns[i].page];
    hide Kids;
    PgnosAppend(Kids(ns[..i]), [ns[i].page]);
    OneTree(ns[i].page, false);
  }

  lemma EdgeCut(mx: seq<Frame>, t: Tree)
    requires LeftEdge(mx, t) && mx != []
    ensures LeftEdge(mx[..|mx| - 1], t)
  {
    hide FrameOf, Left;
  }

  lemma RowTop(t: Tree)
    ensures Row(t, 0) == [t]
  {}

  /** Nothing is freed yet: of the leaves nothing is passed, or nothing belongs to them. */
  lemma NothingYet(t: Tree, h: nat, d: nat, subs: bool)
    requires d + 1 == h || (d + 2 == h && Owned(Row(t, h - 1), subs) == multiset{})
    ensures Progress(t, h, d, [], subs) == multiset{} && OversAll([]) == 0
  {
    hide Row, Kids;
    assert KidsAll([]) == [];
  }

  lemma InRowPage(file: seq<Cell>, stack: seq<Frame>, cur: Frame, lv: seq<Spot>, t: Tree, h: nat, c: Tree, passed: seq<Tree>, subs: bool)
    requires InRow(file, stack, cur, lv, t, h, c, passed) && (subs ==> HoldsBare(t.nodes))
    ensures Path(file, lv, t, h, c) && StackOf(stack, lv) && passed + ([c] + After(lv)) == Row(t, |lv|)
    ensures |lv| < h && cur.leaf == c.leaf == (|lv| + 1 == h) && cur.entries == Entries(c.nodes)
    ensures HoldsAll(file, c.nodes) && EvenAll(c.nodes, h - |lv|) && (subs ==> HoldsBare(c.nodes))
    ensures lv == [] ==> After(lv) == []
  {
    hide Row, StackOf;
    PathPage(file, lv, t, h, c);
    if subs { PathHoldsBare(file, lv, t, h, c); }
  }

  lemma InRowAgain(file: seq<Cell>, stack: seq<Frame>, cur: Frame, lv: seq<Spot>, t: Tree, h: nat, c: Tree, passed: seq<Tree>)
    requires Path(file, lv, t, h, c) && StackOf(stack, lv) && FrameOf(cur, Spot(c, 0))
    requires passed + ([c] + After(lv)) == Row(t, |lv|)
    ensures InRow(file, stack, cur, lv, t, h, c, passed)
  {}

  /** The row is done when no page is left in it, or none that anything belongs to. */
  lemma RowDone(t: Tree, h: nat, lv: seq<Spot>, c: Tree, passed: seq<Tree>, subs: bool)
    requires Even(t, h) && |lv| < h && passed + ([c] + After(lv)) == Row(t, |lv|)
    ensures After(lv) == [] ==> Progress(t, h, |lv|, passed + [c], subs) == Owned(Row(t, |lv|), subs)
    ensures |lv| + 1 == h && After(lv) == [] ==> Overs(t.nodes) == OversAll(passed + [c])
    ensures |lv| + 1 == h && !subs && Overs(t.nodes) == OversAll(passed + [c]) ==>
              Progress(t, h, |lv|, passed + [c], subs) == Owned(Row(t, |lv|), subs)
  {
    hide Row, Owned, OversAll, After, Pgnos, KidsAll, Even, Overs;
    if After(lv) == [] {
      RowOver(passed, c, Row(t, |lv|));
      ProgressRow(t, h, |lv|, subs);
    }
    if |lv| + 1 == h {
      OversLeft(t, h, passed, c, After(lv));
      NoOversNone();
      if !subs && OversAll(After(lv)) == 0 {
        RestIsBare(passed, c, After(lv));
      }
    }
  }

  lemma NoOversNone()
    ensures OversAll([]) == 0
  {}

  lemma NoKids()
    ensures KidsAll([]) == []
  {}

  lemma LeftTop(t: Tree)
    ensures Left(t, 0) == t && LeftPath(t, 0) == []
  {}

  lemma FrameIs(f: Frame, t: Tree)
    requires f == Frame(t.leaf, Entries(t.nodes), 0)
    ensures FrameOf(f, Spot(t, 0))
  {}

  lemma LeftDown(file: seq<Cell>, t: Tree, h: nat, d: nat)
    requires Path(file, LeftPath(t, d), t, h, Left(t, d)) && d + 1 < h
    ensures Left(t, d).nodes != [] && Left(t, d).nodes[0].Link? && Left(t, d).nodes[0].page == Left(t, d + 1)
  {
    LeftStep(file, LeftPath(t, d), t, h, Left(t, d));
  }

  /** What a node of a leaf is, and what there is to free for it. */
  lemma LeafNode(file: seq<Cell>, ns: seq<Node>, i: nat, subs: bool)
    requires i < |ns| && HoldsAll(file, ns) && EvenAll(ns, 1) && (subs ==> HoldsBare(ns))
    ensures !ns[i].Link?
    ensures ns[i].Plain? ==> EntryOf(ns[i]).Value? && NodeOvers(ns[i]) == 0 && UsedByNode(ns[i], subs) == []
    ensures ns[i].Big? ==>
              var p, n := ns[i].pgno, |ns[i].chunks|;
              && EntryOf(ns[i]) == BigData(ns[i].key, ns[i].size, p) && p < |file| && file[p].Overflow? && file[p].pages == n
              && NodeOvers(ns[i]) == n && UsedByNode(ns[i], subs) == Range(p, n)
    ensures ns[i].Sub? ==>
              var r := ns[i].root;
              && EntryOf(ns[i]) == SubDb(ns[i].key, ns[i].db, if r.Some? then Some(r.value.pgno) else None)
              && NodeOvers(ns[i]) == 0 && UsedByNode(ns[i], subs) == (if subs && r.Some? then Used(r.value, subs) else [])
              && (r.Some? ==> Holds(file, r.value) && Even(r.value, ns[i].db.depth) && (subs ==> Bare(r.value.nodes)))
  {
    assert HoldsNode(file, ns[i]) && EvenNode(ns[i], 1) && (subs ==> HoldsBareNode(ns[i]));
  }

  lemma {:induction false} BareSame(ns: seq<Node>)
    requires Bare(ns)
    ensures UsedBy(ns, false) == UsedBy(ns, true)
    decreases ns
  {
    if ns != [] {
      var k := |ns| - 1;
      assert BareNode(ns[k]);
      BareSame(ns[..k]);
      if ns[k].Link? { BareTree(ns[k].page); }
    }
  }

  lemma {:induction false} BareTree(t: Tree)
    requires Bare(t.nodes)
    ensures Used(t, false) == Used(t, true)
    decreases t
  {
    BareSame(t.nodes);
  }

  /** The cursor in a row, and how far it is: the pages passed, the page it is on, and those after it. */
  ghost predicate InRow(file: seq<Cell>, stack: seq<Frame>, cur: Frame, lv: seq<Spot>, t: Tree, h: nat, c: Tree, passed: seq<Tree>) {
    && Path(file, lv, t, h, c) && StackOf(stack, lv) && FrameOf(cur, Spot(c, 0))
    && passed + ([c] + After(lv)) == Row(t, |lv|)
  }

  /** At the start of a row. */
  lemma RowStart(file: seq<Cell>, mx: seq<Frame>, t: Tree, h: nat, d: nat)
    requires Holds(file, t) && Even(t, h) && LeftEdge(mx, t) && d < |mx| <= h
    ensures InRow(file, mx[..d], mx[d], LeftPath(t, d), t, h, Left(t, d), [])
  {
    hide Row, After, Path, LeftPath, Left;
    LeftOk(file, t, h, d);
    EdgeStack(mx, t, d);
  }

  lemma RowNext(passed: seq<Tree>, c: Tree, next: Tree, after: seq<Tree>, row: seq<Tree>)
    requires passed + ([c] + ([next] + after)) == row
    ensures (passed + [c]) + ([next] + after) == row
  {
    Assoc(passed, [c], [next] + after);
  }

  lemma RowOver(passed: seq<Tree>, c: Tree, row: seq<Tree>)
    requires passed + ([c] + []) == row
    ensures passed + [c] == row
  {}

  /** The overflow pages of the row of leaves that are not yet counted. */
  lemma OversLeft(t: Tree, h: nat, passed: seq<Tree>, c: Tree, after: seq<Tree>)
    requires Even(t, h) && passed + ([c] + after) == Row(t, h - 1)
    ensures h > 0 && Overs(t.nodes) == OversAll(passed) + Overs(c.nodes) + OversAll(after)
    ensures AllEven(after, 1) && OversAll(passed + [c]) == OversAll(passed) + Overs(c.nodes)
  {
    hide Overs, OversAll, Row;
    OversOfTree(t, h, h - 1);
    OversAppend(passed, [c] + after);
    OversAppend([c], after);
    OversAppend(passed, [c]);
    OversOne(c);
    RowEven(t, h, h - 1);
    var row := Row(t, h - 1);
    forall i | 0 <= i < |after| ensures Even(after[i], 1) {
      assert after[i] == row[|passed| + 1 + i];
    }
  }

  /** No overflow pages and no databases in the rest of the row: nothing belongs to it. */
  lemma RestIsBare(passed: seq<Tree>, c: Tree, after: seq<Tree>)
    requires AllEven(after, 1) && OversAll(after) == 0
    ensures Owned(passed + ([c] + after), false) == Owned(passed + [c], false)
  {
    hide Owned, OversAll;
    OwnedAppend(passed + [c], after, false);
    Assoc(passed, [c], after);
    NoOversAll(after);
  }

  /** The row of leaves is not read at all if nothing belongs to it. */
  lemma LeavesSkipped(t: Tree, h: nat, sub: bool, subs: bool)
    requires Even(t, h) && (sub ==> Bare(t.nodes)) && (!sub ==> !subs && Overs(t.nodes) == 0)
    ensures Owned(Row(t, h - 1), subs) == multiset{}
  {
    hide Row, Owned, OversAll;
    RowEven(t, h, h - 1);
    if sub {
      BareRow(t, h, h - 1);
      BareOwned(Row(t, h - 1), subs);
    } else {
      OversOfTree(t, h, h - 1);
      NoOversAll(Row(t, h - 1));
    }
  }

  // ---------------------------------------------------------------- databases in the database

  /** No database with pages is recorded in this one. */
  ghost predicate NoSubs(ns: seq<Node>)
    decreases ns
  {
    ns == [] || (NoSubs(ns[..|ns| - 1]) && NoSubsNode(ns[|ns| - 1]))
  }

  ghost predicate NoSubsNode(n: Node)
    decreases n
  {
    match n
    case Link(_, t) => NoSubs(t.nodes)
    case Sub(_, _, r) => r.None?
    case Plain(_, _) => true
    case Big(_, _, _, _) => true
  }

  lemma {:induction false} SubsCounted(ns: seq<Node>)
    ensures NoSubs(ns) ==> UsedBy(ns, false) == UsedBy(ns, true)
    ensures !NoSubs(ns) ==> |UsedBy(ns, false)| < |UsedBy(ns, true)|
    decreases ns
  {
    if ns != [] {
      SubsCounted(ns[..|ns| - 1]);
      SubsCountedNode(ns[|ns| - 1]);
    }
  }

  lemma {:induction false} SubsCountedNode(n: Node)
    ensures NoSubsNode(n) ==> UsedByNode(n, false) == UsedByNode(n, true)
    ensures !NoSubsNode(n) ==> |UsedByNode(n, false)| < |UsedByNode(n, true)|
    decreases n
  {
    if n.Link? { SubsCounted(n.page.nodes); }
  }

  lemma {:induction false} SubsMore(ns: seq<Node>)
    ensures multiset(UsedBy(ns, false)) <= multiset(UsedBy(ns, true))
    decreases ns
  {
    if ns != [] {
      var n := ns[|ns| - 1];
      SubsMore(ns[..|ns| - 1]);
      if n.Link? { SubsMore(n.page.nodes); }
      assert multiset(UsedByNode(n, false)) <= multiset(UsedByNode(n, true));
    }
  }

  /** Emptying a database without looking for databases in it, as is done unless it is MDB_DUPSORT, frees
      all pages below it if and only if there are none: named databases keep their pages, unreachable. */
  lemma NothingLeft(t: Tree)
    ensures multiset(Used(t, false)) == multiset(Used(t, true)) <==> NoSubs(t.nodes)
  {
    SubsCounted(t.nodes);
    assert |multiset(Used(t, false))| == |Used(t, false)| && |multiset(Used(t, true))| == |Used(t, true)|;
  }
}
