/** Splitting a full page (mdb_page_split, mdb.c): where to split, and the two halves. */
module BTreeSplit {
  import opened Keys
  import opened BTree

  datatype Rc = Success | PageFull

  /** The right half of a split: on a branch page the first link loses its key. */
  function RightNodes(leaf: bool, all: seq<Node>, s: nat): (r: seq<Node>)
    requires s < |all| && (!leaf ==> all[s].Link?)
    ensures |r| == |all| - s
  {
    if leaf then all[s..] else [Link([], all[s].page)] + all[s + 1..]
  }

  /** Nodes small enough that two of them fit in a page. */
  ghost predicate SmallNodes(ps: PageSize, leaf: bool, nodes: seq<Node>) {
    && (forall i | 0 <= i < |nodes| :: leaf == nodes[i].Item?)
    && (forall i | 0 <= i < |nodes| :: Room(nodes[i]) <= if leaf then NodeMax(ps) + 2 else Even(NODESIZE + MAXKEY) + 2)
  }

  /** A page that cannot take the new node at `at`. */
  ghost predicate Overfull(ps: PageSize, leaf: bool, nodes: seq<Node>, at: nat, n: Node) {
    && at <= |nodes| && Used(nodes) <= PMax(ps) < Used(nodes) + Room(n)
    && SmallNodes(ps, leaf, Insert(nodes, at, n))
    && (!leaf ==> at >= 1 && |nodes| > 0 && nodes[0].key == [])
  }

  /** Both halves fit, and have enough nodes. */
  ghost predicate SplitFits(ps: PageSize, leaf: bool, all: seq<Node>, s: nat) {
    && MinKeys(leaf) <= s && s + MinKeys(leaf) <= |all| && (!leaf ==> all[s].Link?)
    && Used(all[..s]) <= PMax(ps)
    && Used(RightNodes(leaf, all, s)) <= PMax(ps)
  }

  /** No scan is made for a small node that does not go last on a page of many nodes. */
  predicate Shortcut(ps: PageSize, nodes: seq<Node>, at: nat, n: Node) {
    !(|nodes| < 32 || Room(n) > PMax(ps) / 16 || at >= |nodes|)
  }

  /** Where a full page is parted: in the middle for a small node that does not go last on a page of many
      nodes. Otherwise, when the new node goes to the front half or last, the left page takes all that fits, up
      to the middle or to the last old node; when it goes to the rear half, the right page does. */
  ghost predicate SplitChosen(ps: PageSize, leaf: bool, nodes: seq<Node>, at: nat, n: Node, s: nat) {
    && at <= |nodes| && s <= |nodes|
    && var half, all := (|nodes| + 1) / 2, Insert(nodes, at, n);
    if |nodes| >= 32 && Room(n) <= PMax(ps) / 16 && at < |nodes| then s == half
    else if at >= |nodes| || at <= half then
      var most := if at >= |nodes| then |nodes| - 1 else half + if leaf then 1 else 0;
      s <= most && Used(all[..s]) <= PMax(ps) && (s < most ==> Used(all[..s + 1]) > PMax(ps))
    else
      half < s && Used(all[s..]) <= PMax(ps) && (half + 1 < s ==> Used(all[s - 1..]) > PMax(ps))
  }

  // ---------------------------------------------------------------- sums over parts

  lemma UsedParts(all: seq<Node>, s: nat)
    requires s <= |all|
    ensures Used(all) == Used(all[..s]) + Used(all[s..])
  {
    UsedAppend(all[..s], all[s..]);
    assert all == all[..s] + all[s..];
  }

  lemma UsedStep(all: seq<Node>, i: nat)
    requires i < |all|
    ensures Used(all[..i + 1]) == Used(all[..i]) + Room(all[i])
    ensures Used(all[i..]) == Room(all[i]) + Used(all[i + 1..])
  {
    UsedAppend(all[..i], [all[i]]);
    UsedOne(all[i]);
    assert all[..i + 1] == all[..i] + [all[i]];
  }

  lemma {:induction false} UsedBound(nodes: seq<Node>, m: nat)
    requires forall i | 0 <= i < |nodes| :: Room(nodes[i]) <= m
    ensures Used(nodes) <= |nodes| * m
    decreases |nodes|
  {
    if nodes != [] {
      UsedBound(nodes[1..], m);
      assert |nodes| * m == (|nodes| - 1) * m + m;
    }
  }

  lemma MulLe(a: nat, b: nat, m: nat)
    requires a <= b
    ensures a * m <= b * m
  {}

  /** A page that overflows has several nodes. */
  lemma EnoughNodes(ps: PageSize, leaf: bool, nodes: seq<Node>, at: nat, n: Node)
    requires Overfull(ps, leaf, nodes, at, n)
    ensures |nodes| >= if leaf then 2 else 7
  {
    var m: nat := if leaf then NodeMax(ps) + 2 else Even(NODESIZE + MAXKEY) + 2;
    var all := Insert(nodes, at, n);
    UsedBound(all, m);
    UsedInsert(nodes, at, n);
    if leaf {
      if |nodes| <= 1 { MulLe(|all|, 2, m); }
    } else {
      if |nodes| <= 6 { MulLe(|all|, 7, m); }
    }
  }

  lemma UsedRight(leaf: bool, all: seq<Node>, s: nat)
    requires s < |all| && (!leaf ==> all[s].Link?)
    ensures Used(RightNodes(leaf, all, s)) == if leaf then Used(all[s..]) else 10 + Used(all[s + 1..])
    ensures Used(RightNodes(leaf, all, s)) <= Used(all[s..])
  {
    UsedStep(all, s);
    if !leaf {
      UsedAppend([Link([], all[s].page)], all[s + 1..]);
      UsedOne(Link([], all[s].page));
    }
  }

  /** How the bytes of the old nodes are spread over the two sides. */
  lemma SideBytes(nodes: seq<Node>, at: nat, n: Node, s: nat)
    requires at <= |nodes| && s <= |nodes|
    ensures var all := Insert(nodes, at, n);
            && (at < s ==> Used(all[..s]) == Used(nodes[..s - 1]) + Room(n) && Used(all[s..]) == Used(nodes[s - 1..]))
            && (at >= s ==> Used(all[..s]) == Used(nodes[..s]) && Used(all[s..]) == Used(nodes[s..]) + Room(n))
  {
    var all := Insert(nodes, at, n);
    if at < s {
      assert all[..s] == Insert(nodes[..s - 1], at, n);
      UsedInsert(nodes[..s - 1], at, n);
      assert all[s..] == nodes[s - 1..];
    } else {
      assert all[..s] == nodes[..s];
      assert all[s..] == Insert(nodes[s..], at - s, n);
      UsedInsert(nodes[s..], at - s, n);
    }
  }

  // ---------------------------------------------------------------- the scan

  /** Where the forward scan may stop. */
  lemma ForwardFits(ps: PageSize, leaf: bool, nodes: seq<Node>, at: nat, n: Node, i: nat, k: nat)
    requires Overfull(ps, leaf, nodes, at, n)
    requires var half := (|nodes| + 1) / 2;
             (at <= half || at >= |nodes|)
             && k == if at >= |nodes| then |nodes| else half + 1 + (if leaf then 1 else 0)
    requires var all := Insert(nodes, at, n);
             i < k && i <= |nodes| && Used(all[..i]) <= PMax(ps) && (Used(all[..i + 1]) > PMax(ps) || i == k - 1)
    ensures SplitFits(ps, leaf, Insert(nodes, at, n), i)
  {
    hide Used, Room;
    var all := Insert(nodes, at, n);
    EnoughNodes(ps, leaf, nodes, at, n);
    UsedInsert(nodes, at, n);
    UsedParts(all, i);
    UsedStep(all, i);
    if i <= 1 { FirstNodes(ps, leaf, all, i); }
    assert all[i] in all;
    UsedRight(leaf, all, i);
    if Used(all[..i + 1]) > PMax(ps) {
      assert n == all[at];
      UsedParity(all[..i + 1]);
    } else if at >= |nodes| {
      assert all[i + 1..] == [all[i + 1]];
      UsedOne(all[i + 1]);
    } else {
      SideBytes(nodes, at, n, i);
      ForwardEnd(ps, leaf, nodes, at, n, i);
    }
  }

  lemma UsedParity(s: seq<Node>)
    ensures Used(s) % 2 == 0
  {
    UsedEven(s);
  }

  /** The first one or two nodes leave room. */
  lemma FirstNodes(ps: PageSize, leaf: bool, all: seq<Node>, i: nat)
    requires SmallNodes(ps, leaf, all) && i <= 1 && i < |all|
    ensures i == 0 ==> Used(all[..1]) <= PMax(ps)
    ensures i == 1 && !leaf ==> Used(all[..2]) <= PMax(ps)
  {
    assert all[..1] == [all[0]];
    UsedOne(all[0]);
    UsedStep(all, i);
  }

  /** When the forward scan ends past the middle, the new node is on the left, or is the first
      link on the right and loses its key. */
  lemma ForwardEnd(ps: PageSize, leaf: bool, nodes: seq<Node>, at: nat, n: Node, i: nat)
    requires Overfull(ps, leaf, nodes, at, n) && 1 <= i <= |nodes| && at <= i
    requires leaf ==> at < i
    ensures Used(RightNodes(leaf, Insert(nodes, at, n), i)) <= PMax(ps)
  {
    var all := Insert(nodes, at, n);
    UsedRight(leaf, all, i);
    if at < i {
      SideBytes(nodes, at, n, i);
      UsedParts(nodes, i - 1);
    } else {
      UsedParts(nodes, i);
      UsedStep(nodes, 0);
      UsedParts(nodes[..i], 1);
      assert nodes[..i][..1] == [nodes[0]];
      UsedOne(nodes[0]);
      assert all[0] in all;
      assert all[i + 1..] == nodes[i..];
    }
  }

  /** Where the backward scan may stop. */
  lemma BackwardFits(ps: PageSize, leaf: bool, nodes: seq<Node>, at: nat, n: Node, i: nat)
    requires Overfull(ps, leaf, nodes, at, n)
    requires (|nodes| + 1) / 2 < at < |nodes|
    requires var all := Insert(nodes, at, n);
             (|nodes| + 1) / 2 <= i <= |nodes| && Used(all[i + 1..]) <= PMax(ps)
             && (Used(all[i..]) > PMax(ps) || i == (|nodes| + 1) / 2)
    ensures SplitFits(ps, leaf, Insert(nodes, at, n), i + 1)
  {
    hide Used, Room, Overfull;
    var all := Insert(nodes, at, n);
    EnoughNodes(ps, leaf, nodes, at, n);
    OverfullFacts(ps, leaf, nodes, at, n);
    UsedParts(all, i);
    UsedStep(all, i);
    if i + 1 >= |nodes| { LastNodes(ps, leaf, all, i); }
    UsedRight(leaf, all, i + 1);
    if Used(all[i..]) > PMax(ps) {
      UsedParity(all[i..]);
      TwoNodes(ps, leaf, nodes, at, n, i);
    } else {
      SideBytes(nodes, at, n, i + 1);
      UsedParts(nodes, i + 1);
    }
  }

  lemma OverfullFacts(ps: PageSize, leaf: bool, nodes: seq<Node>, at: nat, n: Node)
    requires Overfull(ps, leaf, nodes, at, n)
    ensures at <= |nodes| && Used(nodes) <= PMax(ps)
    ensures var all := Insert(nodes, at, n);
            && Used(all) == Used(nodes) + Room(n) && SmallNodes(ps, leaf, all)
            && forall i | 0 <= i < |all| :: !leaf ==> all[i].Link?
  {
    hide Used, Room;
    UsedInsert(nodes, at, n);
  }

  /** The new node and any other leave room for one more byte pair. */
  lemma TwoNodes(ps: PageSize, leaf: bool, nodes: seq<Node>, at: nat, n: Node, i: nat)
    requires Overfull(ps, leaf, nodes, at, n) && i <= |nodes|
    ensures Room(n) + Room(Insert(nodes, at, n)[i]) <= PMax(ps)
  {
    hide Used, Room;
    assert n == Insert(nodes, at, n)[at];
  }

  /** The last one or two nodes leave room. */
  lemma LastNodes(ps: PageSize, leaf: bool, all: seq<Node>, i: nat)
    requires SmallNodes(ps, leaf, all) && i < |all| <= i + 2
    ensures i + 1 == |all| ==> Used(all[i..]) <= PMax(ps)
    ensures i + 2 == |all| && !leaf ==> Used(all[i..]) <= PMax(ps)
  {
    UsedStep(all, i);
    if i + 2 == |all| {
      UsedStep(all, i + 1);
    }
    assert all[|all|..] == [];
  }

  /** Where the scan stops that counts the bytes before the split index. */
  function Forward(ps: PageSize, all: seq<Node>, i: nat, psize: nat, k: nat): nat
    requires i < k <= |all|
    decreases k - i
  {
    if psize + Room(all[i]) > PMax(ps) || i + 1 == k then i else Forward(ps, all, i + 1, psize + Room(all[i]), k)
  }

  /** Where the scan stops that counts the bytes after it. */
  function Backward(ps: PageSize, all: seq<Node>, i: nat, psize: nat, k: int): nat
    requires -1 <= k < i < |all|
    decreases i
  {
    if psize + Room(all[i]) > PMax(ps) || i - 1 == k then i + 1 else Backward(ps, all, i - 1, psize + Room(all[i]), k)
  }

  /** The split index, as a function of the page and the new node. */
  function SplitAt(ps: PageSize, leaf: bool, nodes: seq<Node>, at: nat, n: Node): nat
    requires at <= |nodes| && |nodes| >= 2
  {
    var half, all := (|nodes| + 1) / 2, Insert(nodes, at, n);
    if Shortcut(ps, nodes, at, n) then half
    else if at >= |nodes| then Forward(ps, all, 0, 0, |nodes|)
    else if at <= half then Forward(ps, all, 0, 0, half + 1 + if leaf then 1 else 0)
    else Backward(ps, all, |nodes|, 0, half - 1)
  }

  lemma ForwardStep(ps: PageSize, all: seq<Node>, i: nat, psize: nat, k: nat)
    requires i < k <= |all|
    ensures var more := psize + Room(all[i]);
            if more > PMax(ps) || i + 1 == k then Forward(ps, all, i, psize, k) == i
            else Forward(ps, all, i, psize, k) == Forward(ps, all, i + 1, more, k)
  {
    hide Room;
  }

  lemma BackwardStep(ps: PageSize, all: seq<Node>, i: nat, psize: nat, k: int)
    requires -1 <= k < i < |all|
    ensures var more := psize + Room(all[i]);
            if more > PMax(ps) || i - 1 == k then Backward(ps, all, i, psize, k) == i + 1
            else Backward(ps, all, i, psize, k) == Backward(ps, all, i - 1, more, k)
  {
    hide Room;
  }

  lemma SplitAtIs(ps: PageSize, leaf: bool, nodes: seq<Node>, at: nat, n: Node)
    requires at <= |nodes| && |nodes| >= 2
    ensures var half, all := (|nodes| + 1) / 2, Insert(nodes, at, n);
            && |all| == |nodes| + 1
            && (Shortcut(ps, nodes, at, n) ==> SplitAt(ps, leaf, nodes, at, n) == half)
            && (Shortcut(ps, nodes, at, n) <==> !(|nodes| < 32 || Room(n) > PMax(ps) / 16 || at >= |nodes|))
            && (!Shortcut(ps, nodes, at, n) && at >= |nodes| ==>
                  SplitAt(ps, leaf, nodes, at, n) == Forward(ps, all, 0, 0, |nodes|))
            && (!Shortcut(ps, nodes, at, n) && at <= half && at < |nodes| ==>
                  SplitAt(ps, leaf, nodes, at, n) == Forward(ps, all, 0, 0, half + 1 + if leaf then 1 else 0))
            && (!Shortcut(ps, nodes, at, n) && half < at < |nodes| ==>
                  SplitAt(ps, leaf, nodes, at, n) == Backward(ps, all, |nodes|, 0, half - 1))
  {
    hide Room, Forward, Backward;
  }

  /** The scan is at index i, in direction j, with psize bytes counted. */
  ghost predicate Scanning(ps: PageSize, leaf: bool, nodes: seq<Node>, at: nat, n: Node, i: int, j: int, k: int, psize: nat)
    requires at <= |nodes| && |nodes| >= 2
  {
    var half, all := (|nodes| + 1) / 2, Insert(nodes, at, n);
    && psize <= PMax(ps) && |all| == |nodes| + 1
    && if at <= half || at >= |nodes| then
         && j == 1 && 0 <= i < k <= |nodes| + 1 && psize == Used(all[..i])
         && k == (if at >= |nodes| then |nodes| else half + 1 + if leaf then 1 else 0)
         && Forward(ps, all, i, psize, k) == SplitAt(ps, leaf, nodes, at, n)
       else
         && j == -1 && -1 <= k < i <= |nodes| && psize == Used(all[i + 1..]) && k == half - 1
         && Backward(ps, all, i, psize, k) == SplitAt(ps, leaf, nodes, at, n)
  }

  lemma ScanStart(ps: PageSize, leaf: bool, nodes: seq<Node>, at: nat, n: Node)
    requires at <= |nodes| && |nodes| >= 2 && !Shortcut(ps, nodes, at, n)
    ensures var half := (|nodes| + 1) / 2;
            if at <= half || at >= |nodes| then
              Scanning(ps, leaf, nodes, at, n, 0, 1, if at >= |nodes| then |nodes| else half + 1 + (if leaf then 1 else 0), 0)
            else Scanning(ps, leaf, nodes, at, n, |nodes|, -1, half - 1, 0)
  {
    SplitAtIs(ps, leaf, nodes, at, n);
    hide Room, Forward, Backward, SplitAt;
    var all := Insert(nodes, at, n);
    assert all[..0] == [] && all[|nodes| + 1..] == [];
    UsedNone();
  }

  lemma ScanOn(ps: PageSize, leaf: bool, nodes: seq<Node>, at: nat, n: Node, i: int, j: int, k: int, psize: nat)
    requires at <= |nodes| && Overfull(ps, leaf, nodes, at, n) && |nodes| >= 2 && Scanning(ps, leaf, nodes, at, n, i, j, k, psize)
    ensures 0 <= i < |Insert(nodes, at, n)| && (j == 1 || j == -1) && (j == 1 ==> i < k) && (j == -1 ==> k < i)
    ensures var all, more := Insert(nodes, at, n), psize + Room(Insert(nodes, at, n)[i]);
            if more > PMax(ps) || i == k - j then
              var s := i + if j < 0 then 1 else 0;
              0 <= s == SplitAt(ps, leaf, nodes, at, n) && SplitFits(ps, leaf, all, s)
              && (!Shortcut(ps, nodes, at, n) ==> SplitChosen(ps, leaf, nodes, at, n, s))
            else Scanning(ps, leaf, nodes, at, n, i + j, j, k, more)
  {
    hide Used, Room, Overfull, SplitAt, SplitFits, Forward, Backward;
    var all := Insert(nodes, at, n);
    UsedStep(all, i);
    var more := psize + Room(all[i]);
    if at <= (|nodes| + 1) / 2 || at >= |nodes| {
      ForwardStep(ps, all, i, psize, k);
      if more > PMax(ps) || i == k - j { ForwardFits(ps, leaf, nodes, at, n, i, k); }
    } else {
      BackwardStep(ps, all, i, psize, k);
      if more > PMax(ps) || i == k - j {
        BackwardFits(ps, leaf, nodes, at, n, i);
        FitsBounds(ps, leaf, all, i + 1);
      }
    }
  }

  /** The scan, from one end to past the middle: the bytes before the index, or after it, fill a page. */
  method Scan(ps: PageSize, leaf: bool, nodes: seq<Node>, at: nat, n: Node, i0: int, j: int, k: int) returns (s: nat)
    requires at <= |nodes| && |nodes| >= 2 && Overfull(ps, leaf, nodes, at, n) && Scanning(ps, leaf, nodes, at, n, i0, j, k, 0)
    ensures s == SplitAt(ps, leaf, nodes, at, n) && SplitFits(ps, leaf, Insert(nodes, at, n), s)
    ensures !Shortcut(ps, nodes, at, n) ==> SplitChosen(ps, leaf, nodes, at, n, s)
  {
    hide *;
    var all := Insert(nodes, at, n);
    var i, psize: nat := i0, 0;
    s := 0;
    ScanOn(ps, leaf, nodes, at, n, i, j, k, psize);
    while i != k
      invariant Scanning(ps, leaf, nodes, at, n, i, j, k, psize) && i != k
      invariant (j == 1 || j == -1) && (j == 1 ==> i < k) && (j == -1 ==> k < i)
      decreases if j == 1 then k - i else i - k
    {
      ScanOn(ps, leaf, nodes, at, n, i, j, k, psize);
      psize := psize + Room(all[i]);
      if psize > PMax(ps) || i == k - j {
        s := i + if j < 0 then 1 else 0;
        return;
      }
      i := i + j;
      ScanOn(ps, leaf, nodes, at, n, i, j, k, psize);
    }
  }

  /** The split index `mdb_page_split` chooses.  When it scans, both halves fit. */
  method SplitPoint(ps: PageSize, leaf: bool, nodes: seq<Node>, at: nat, n: Node) returns (s: nat)
    requires Overfull(ps, leaf, nodes, at, n)
    ensures MinKeys(leaf) <= s && s + MinKeys(leaf) <= |nodes| + 1
    ensures !Shortcut(ps, nodes, at, n) ==> SplitFits(ps, leaf, Insert(nodes, at, n), s)
    ensures Shortcut(ps, nodes, at, n) ==> s == (|nodes| + 1) / 2
    ensures |nodes| >= 2 && s == SplitAt(ps, leaf, nodes, at, n) && SplitChosen(ps, leaf, nodes, at, n, s)
  {
    EnoughNodes(ps, leaf, nodes, at, n);
    OverfullFacts(ps, leaf, nodes, at, n);
    MiddleEnough(leaf, nodes);
    hide *;
    SplitAtIs(ps, leaf, nodes, at, n);
    var nkeys := |nodes|;
    s := (nkeys + 1) / 2;
    if nkeys < 32 || Room(n) > PMax(ps) / 16 || at >= nkeys {
      ScanStart(ps, leaf, nodes, at, n);
      if at <= s || at >= nkeys {
        s := Scan(ps, leaf, nodes, at, n, 0, 1, if at >= nkeys then nkeys else s + 1 + if leaf then 1 else 0);
      } else {
        s := Scan(ps, leaf, nodes, at, n, nkeys, -1, s - 1);
      }
      FitsBounds(ps, leaf, Insert(nodes, at, n), s);
    } else {
      MiddleChosen(ps, leaf, nodes, at, n);
    }
  }

  lemma MiddleChosen(ps: PageSize, leaf: bool, nodes: seq<Node>, at: nat, n: Node)
    requires |nodes| >= 32 && Room(n) <= PMax(ps) / 16 && at < |nodes|
    ensures SplitChosen(ps, leaf, nodes, at, n, (|nodes| + 1) / 2)
  {
    hide Used, Room;
  }

  /** The scan finds halves that fit. */
  lemma ScanFits(ps: PageSize, leaf: bool, nodes: seq<Node>, at: nat, n: Node)
    requires at <= |nodes| && |nodes| >= 2 && Overfull(ps, leaf, nodes, at, n) && !Shortcut(ps, nodes, at, n)
    ensures SplitFits(ps, leaf, Insert(nodes, at, n), SplitAt(ps, leaf, nodes, at, n))
  {
    ScanStart(ps, leaf, nodes, at, n);
    hide *;
    var half := (|nodes| + 1) / 2;
    if at <= half || at >= |nodes| {
      ScanAllFits(ps, leaf, nodes, at, n, 0, 1, if at >= |nodes| then |nodes| else half + 1 + (if leaf then 1 else 0), 0);
    } else {
      ScanAllFits(ps, leaf, nodes, at, n, |nodes|, -1, half - 1, 0);
    }
  }

  lemma {:induction false} ScanAllFits(ps: PageSize, leaf: bool, nodes: seq<Node>, at: nat, n: Node, i: int, j: int, k: int,
                                       psize: nat)
    requires at <= |nodes| && |nodes| >= 2 && Overfull(ps, leaf, nodes, at, n) && Scanning(ps, leaf, nodes, at, n, i, j, k, psize)
    ensures SplitFits(ps, leaf, Insert(nodes, at, n), SplitAt(ps, leaf, nodes, at, n))
    decreases if j == 1 then k - i else i - k
  {
    hide *;
    ScanOn(ps, leaf, nodes, at, n, i, j, k, psize);
    var more := psize + Room(Insert(nodes, at, n)[i]);
    if !(more > PMax(ps) || i == k - j) {
      ScanAllFits(ps, leaf, nodes, at, n, i + j, j, k, more);
    }
  }

  lemma FitsBounds(ps: PageSize, leaf: bool, all: seq<Node>, s: nat)
    requires SplitFits(ps, leaf, all, s)
    ensures MinKeys(leaf) <= s && s + MinKeys(leaf) <= |all|
  {}

  lemma MiddleEnough(leaf: bool, nodes: seq<Node>)
    requires |nodes| >= if leaf then 2 else 7
    ensures MinKeys(leaf) <= (|nodes| + 1) / 2 && (|nodes| + 1) / 2 + MinKeys(leaf) <= |nodes| + 1
  {}

  lemma UsedNone()
    ensures Used([]) == 0
  {}

  /** Without the scan both halves fit exactly when the side that takes the new node had room
      for it; the bytes counted are those of the old nodes that stay on that side. */
  lemma ShortcutFits(ps: PageSize, leaf: bool, nodes: seq<Node>, at: nat, n: Node)
    requires Overfull(ps, leaf, nodes, at, n) && Shortcut(ps, nodes, at, n)
    ensures var s := (|nodes| + 1) / 2;
            SplitFits(ps, leaf, Insert(nodes, at, n), s) <==>
              if at < s then Used(nodes[..s - 1]) + Room(n) <= PMax(ps)
              else if leaf then Used(nodes[s..]) + Room(n) <= PMax(ps)
              else at == s || Used(nodes[s + 1..]) + 10 + Room(n) <= PMax(ps)
  {
    hide Used, Room;
    var s := (|nodes| + 1) / 2;
    var all := Insert(nodes, at, n);
    SideBytes(nodes, at, n, s);
    SideBytes(nodes, at, n, s + 1);
    UsedRight(leaf, all, s);
    UsedParts(nodes, s);
    UsedParts(nodes, s - 1);
    if !leaf && at == s {
      ForwardEnd(ps, leaf, nodes, at, n, s);
    }
  }

  // ---------------------------------------------------------------- moving the nodes

  /** Add a node at the end of a page: MDB_PAGE_FULL when it does not fit. */
  method NodeAdd(ps: PageSize, page: seq<Node>, n: Node) returns (ok: bool, r: seq<Node>)
    requires Used(page) <= PMax(ps)
    ensures ok <==> Used(page + [n]) <= PMax(ps)
    ensures ok ==> r == page + [n]
  {
    UsedAppend(page, [n]);
    UsedOne(n);
    var room := PMax(ps) - Used(page);
    ok := Room(n) <= room;
    r := if ok then page + [n] else page;
  }

  lemma PrefixUsed(s: seq<Node>, i: nat)
    requires i <= |s|
    ensures Used(s[..i]) <= Used(s)
  {
    UsedParts(s, i);
  }

  /** The nodes from one index to another, as a page: on a branch page the first link loses its key. */
  function Part(leaf: bool, all: seq<Node>, from: nat, to: nat): (r: seq<Node>)
    requires from <= to <= |all| && (!leaf && from < to ==> all[from].Link?)
    ensures |r| == to - from
  {
    if leaf || from == to then all[from..to] else [Link([], all[from].page)] + all[from + 1..to]
  }

  lemma PartStep(leaf: bool, all: seq<Node>, from: nat, to: nat, i: nat)
    requires from <= i < to <= |all| && (!leaf ==> all[from].Link?)
    ensures Part(leaf, all, from, to)[..i - from + 1] == Part(leaf, all, from, to)[..i - from]
            + [if !leaf && i == from then Link([], all[i].page) else all[i]]
  {}

  lemma WholePart(ps: PageSize, leaf: bool, nodes: seq<Node>, at: nat, n: Node, s: nat)
    requires at <= |nodes| && Overfull(ps, leaf, nodes, at, n) && 0 < s < |nodes| + 1
    ensures var all := Insert(nodes, at, n);
            && (!leaf ==> all[0].Link? && all[s].Link?)
            && Part(leaf, all, 0, s) == all[..s] && Part(leaf, all, s, |all|) == RightNodes(leaf, all, s)
  {
    hide Used, Room;
    OverfullFacts(ps, leaf, nodes, at, n);
    var all := Insert(nodes, at, n);
    if !leaf { assert all[0] == nodes[0]; }
  }

  /** Add these nodes to an empty page, one by one. Fails exactly when they do not fit. */
  method Fill(ps: PageSize, leaf: bool, all: seq<Node>, from: nat, to: nat) returns (ok: bool, page: seq<Node>)
    requires from <= to <= |all| && (!leaf && from < to ==> all[from].Link?)
    ensures ok <==> Used(Part(leaf, all, from, to)) <= PMax(ps)
    ensures ok ==> page == Part(leaf, all, from, to)
  {
    hide *;
    ghost var p := Part(leaf, all, from, to);
    UsedNone();
    page, ok := [], true;
    var i := from;
    while i < to
      invariant from <= i <= to && page == p[..i - from] && Used(page) <= PMax(ps)
    {
      var node := if !leaf && i == from then Link([], all[i].page) else all[i];
      PartStep(leaf, all, from, to, i);
      ok, page := NodeAdd(ps, page, node);
      if !ok {
        PrefixUsed(p, i - from + 1);
        return;
      }
      i := i + 1;
    }
    assert p[..to - from] == p;
    ok := true;
  }

  /** Split the page and insert the new node: the right half is moved out first, then the left
      half is rebuilt.  Fails exactly when one of them does not fit. */
  method Split(ps: PageSize, leaf: bool, nodes: seq<Node>, at: nat, n: Node)
    returns (rc: Rc, left: seq<Node>, right: seq<Node>, sep: Key, ghost s: nat)
    requires Overfull(ps, leaf, nodes, at, n)
    ensures s < |nodes| + 1 && (Shortcut(ps, nodes, at, n) ==> s == (|nodes| + 1) / 2)
    ensures |nodes| >= 2 && s == SplitAt(ps, leaf, nodes, at, n) && SplitChosen(ps, leaf, nodes, at, n, s)
    ensures rc == Success <==> SplitFits(ps, leaf, Insert(nodes, at, n), s)
    ensures !Shortcut(ps, nodes, at, n) ==> rc == Success
    ensures rc == Success ==>
              var all := Insert(nodes, at, n);
              left == all[..s] && right == RightNodes(leaf, all, s) && sep == all[s].key
  {
    OverfullFacts(ps, leaf, nodes, at, n);
    hide *;
    var split := SplitPoint(ps, leaf, nodes, at, n);
    s := split;
    var all := Insert(nodes, at, n);
    InsertLength(nodes, at, n);
    AtLeastOne(leaf);
    WholePart(ps, leaf, nodes, at, n, s);
    FitsParts(ps, leaf, all, s);
    sep, left := all[split].key, [];
    var ok;
    ok, right := Fill(ps, leaf, all, split, |all|);
    if !ok {
      return PageFull, left, right, sep, s;
    }
    ok, left := Fill(ps, leaf, all, 0, split);
    rc := if ok then Success else PageFull;
  }

  lemma InsertLength(nodes: seq<Node>, at: nat, n: Node)
    requires at <= |nodes|
    ensures |Insert(nodes, at, n)| == |nodes| + 1
  {}

  lemma AtLeastOne(leaf: bool)
    ensures MinKeys(leaf) >= 1
  {}

  lemma FitsParts(ps: PageSize, leaf: bool, all: seq<Node>, s: nat)
    requires MinKeys(leaf) <= s && s + MinKeys(leaf) <= |all| && (!leaf ==> all[s].Link?)
    ensures s < |all|
    ensures SplitFits(ps, leaf, all, s) <==> Used(all[..s]) <= PMax(ps) && Used(RightNodes(leaf, all, s)) <= PMax(ps)
  {
    hide Used;
  }

  // ---------------------------------------------------------------- a split that fails

  /** A small item; its room is 12 plus the length of the data, rounded. */
  function Small(i: nat, size: nat): Node
    requires i < 256
  {
    Item([i], Zeros(size), 0)
  }

  function Zeros(size: nat): (r: seq<Byte>)
    ensures |r| == size
  {
    seq(size, _ => 0)
  }

  /** Fifteen large items followed by seventeen that hold no data. */
  function CrowdItem(i: nat): Node
    requires i < 32
  {
    if i < 15 then Small(i + 1, 247) else Small(i + 1, 0)
  }

  function Crowd(k: nat): (r: seq<Node>)
    requires k <= 32
    ensures |r| == k && forall i | 0 <= i < k :: r[i] == CrowdItem(i)
  {
    if k == 0 then [] else Crowd(k - 1) + [CrowdItem(k - 1)]
  }

  lemma CrowdRoom(i: nat)
    requires i < 32
    ensures Room(CrowdItem(i)) == if i < 15 then 258 else 12
  {}

  lemma CrowdNext(k: nat)
    requires 0 < k <= 32
    ensures Crowd(k) == Crowd(k - 1) + [CrowdItem(k - 1)]
  {}

  lemma CrowdNone()
    ensures Crowd(0) == []
  {}

  lemma {:induction false} CrowdUsed(k: nat)
    requires k <= 32
    ensures Used(Crowd(k)) == if k <= 15 then 258 * k else 258 * 15 + 12 * (k - 15)
    decreases k
  {
    hide *;
    if k > 0 {
      CrowdUsed(k - 1);
      CrowdNext(k);
      CrowdRoom(k - 1);
      UsedAppend(Crowd(k - 1), [CrowdItem(k - 1)]);
      UsedOne(CrowdItem(k - 1));
    } else {
      CrowdNone();
      UsedNone();
    }
  }

  lemma CrowdOrder(nodes: seq<Node>, n: Node)
    requires nodes == Crowd(32) && n == Small(0, 243)
    ensures LeafOk(4096, Insert(nodes, 0, n), 0.0, 1.0)
  {
    hide Rank, Crowd;
    var all := Insert(nodes, 0, n);
    assert forall i | 0 <= i < 33 :: all[i] == if i == 0 then n else CrowdItem(i - 1);
    forall i, j | 0 <= i < j < 33 ensures Rank(all[i].key) < Rank(all[j].key) {
      RankOrders(all[i].key, all[j].key);
    }
    forall i | 0 <= i < 33 ensures ItemOk(4096, all[i]) && 0.0 <= Rank(all[i].key) < 1.0 {
      RankRange(all[i].key);
    }
  }

  lemma RankRange(k: Key)
    ensures 0.0 <= Rank(k) < 1.0
  {}

  /** The shortcut does fail: a page of 32 items, the first fifteen large, and a small item to
      insert first. */
  lemma ShortcutFails() returns (nodes: seq<Node>, n: Node)
    ensures nodes == Crowd(32) && n == Small(0, 243)
    ensures Overfull(4096, true, nodes, 0, n) && Shortcut(4096, nodes, 0, n)
    ensures LeafOk(4096, Insert(nodes, 0, n), 0.0, 1.0)
    ensures !SplitFits(4096, true, Insert(nodes, 0, n), (|nodes| + 1) / 2)
  {
    hide Rank, Crowd, Used;
    nodes, n := Crowd(32), Small(0, 243);
    CrowdOrder(nodes, n);
    CrowdUsed(32);
    CrowdUsed(15);
    assert nodes[..15] == Crowd(15);
    CrowdSmall(nodes, n);
    ShortcutFits(4096, true, nodes, 0, n);
  }

  lemma CrowdSmall(nodes: seq<Node>, n: Node)
    requires nodes == Crowd(32) && n == Small(0, 243)
    ensures SmallNodes(4096, true, Insert(nodes, 0, n))
  {
    hide Crowd;
    var all := Insert(nodes, 0, n);
    assert forall i | 0 <= i < 33 :: all[i] == if i == 0 then n else CrowdItem(i - 1);
  }
}
