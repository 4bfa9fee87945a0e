/** What a deletion leads to, in bytes: when a page is refilled from its neighbour, when both become one page, and when
    nothing happens (mdb_rebalance, mdb.c). */
module UnderfullPages {
  import opened Options
  import opened Keys
  import opened BTree
  import opened BTreeSplit
  import opened BTreeChange
  import opened BTreeRows
  import Seqs

  /** A leaf page that is at least a quarter full, a branch page with two links and a thousandth of its room in use. */
  predicate Enough(ps: PageSize, leaf: bool, nodes: seq<Node>) {
    if leaf then |nodes| >= 1 && 4 * Used(nodes) >= PMax(ps) else |nodes| >= 2 && 1000 * Used(nodes) >= PMax(ps)
  }

  /** The same with a node to spare. */
  predicate MoreThanEnough(ps: PageSize, leaf: bool, nodes: seq<Node>) {
    if leaf then |nodes| >= 2 && 4 * Used(nodes) >= PMax(ps) else |nodes| >= 3 && 1000 * Used(nodes) >= PMax(ps)
  }

  /** The page at the bottom of the stack, which has too little, gets the nearest node of its neighbour, the one to the
      left if there is one, or both become one page; the other pages of the level stay. */
  ghost predicate Refilled(ps: PageSize, stack: seq<Frame>, p: Page, row: Rows)
    requires Framed(stack) && stack != []
  {
    var f := stack[|stack| - 1];
    var before, after, m := RowLeft(stack, 0), RowRight(stack, 0), Bare(p.nodes);
    if f.ki > 0 then
      && before != [] && f.nodes[f.ki - 1].Link?
      && var left := f.nodes[f.ki - 1].page.nodes;
      var most, l := before[..|before| - 1], Bare(left);
      && before == most + [l]
      && if MoreThanEnough(ps, p.leaf, left) then row == most + [l[..|l| - 1], [l[|l| - 1]] + m] + after
         else row == most + [l + m] + after
    else
      && after != [] && 1 < |f.nodes| && f.nodes[1].Link?
      && var right := f.nodes[1].page.nodes;
      var most, r := after[1..], Bare(right);
      && after == [r] + most
      && if MoreThanEnough(ps, p.leaf, right) then row == before + [m + [r[0]], r[1..]] + most
         else row == before + [m + r] + most
  }

  /** What rebalancing makes of the tree with `p` at the bottom of the stack; the tree may grow or shrink by `k` levels
      at the root. */
  ghost predicate Rebalanced(ps: PageSize, stack: seq<Frame>, p: Page, root: Option<Page>, k: int) {
    && Framed(stack)
    && if Enough(ps, p.leaf, p.nodes) then root == Some(Zip(stack, p)) && k == 0
       else if stack == [] then
         if p.nodes == [] then root == None
         else if !p.leaf && |p.nodes| == 1 then p.nodes[0].Link? && root == Some(p.nodes[0].page) && k == -1
         else root == Some(p) && k == 0
       else root.Some? && |stack| + k >= 0 && Refilled(ps, stack, p, Row(root.value.nodes, |stack| + k))
  }

  /** The same while merges go up. */
  ghost predicate RebalanceOn(ps: PageSize, stack0: seq<Frame>, p0: Page, stack: seq<Frame>, p: Page) {
    && Framed(stack0) && Framed(stack) && |stack| <= |stack0|
    && if |stack| == |stack0| then stack == stack0 && p == p0
       else !p.leaf && !Enough(ps, p0.leaf, p0.nodes) && Refilled(ps, stack0, p0, RowFrom(stack, p.nodes, |stack0|))
  }

  lemma OnParts(ps: PageSize, stack0: seq<Frame>, p0: Page, stack: seq<Frame>, p: Page)
    requires RebalanceOn(ps, stack0, p0, stack, p)
    ensures Framed(stack0) && Framed(stack) && |stack| <= |stack0|
    ensures if |stack| == |stack0| then stack == stack0 && p == p0
            else !p.leaf && !Enough(ps, p0.leaf, p0.nodes) && Refilled(ps, stack0, p0, RowFrom(stack, p.nodes, |stack0|))
  {
    hide Enough, Refilled, RowFrom;
  }

  lemma OnStart(ps: PageSize, stack: seq<Frame>, p: Page)
    requires Framed(stack)
    ensures RebalanceOn(ps, stack, p, stack, p)
  {}

  // ---------------------------------------------------------------- two neighbours among the pages of their level

  /** The pages around the neighbours i and i + 1 below `up`. */
  ghost function Most(rest: seq<Frame>, up: seq<Node>, i: nat, d: nat): (r: (Rows, Rows))
    requires Framed(rest) && i + 1 < |up| && |rest| < d
  {
    (RowLeft(rest, d - |rest|) + Row(up[..i], d - |rest|), Row(up[i + 2..], d - |rest|) + RowRight(rest, d - |rest|))
  }

  lemma PairFrom(rest: seq<Frame>, up: seq<Node>, i: nat, mid: seq<Node>, d: nat)
    requires Framed(rest) && i + 1 < |up| && |rest| < d
    ensures var (a, b) := Most(rest, up, i, d); RowFrom(rest, Replace(up, i, i + 2, mid), d) == a + Row(mid, d - |rest|) + b
  {
    hide RowFrom, RowLeft, RowRight, Row;
    ReplacedRow(rest, up, i, i + 2, mid, d);
  }

  lemma StackUp(stack: seq<Frame>, p: Page, d: nat)
    requires Framed(stack) && stack != [] && |stack| <= d
    ensures var n := |stack| - 1;
            && Framed(stack[..n]) && stack[n].ki < |stack[n].nodes|
            && RowFrom(stack, p.nodes, d) == RowFrom(stack[..n], Filled(stack[n], p), d)
  {
    hide Row, RowFrom;
    RowSides(stack, 0);
    ZipRow(stack, p, d);
    ZipRow(stack[..|stack| - 1], Page(false, Filled(stack[|stack| - 1], p)), d);
  }

  lemma PairSame(up: seq<Node>, i: nat)
    requires i + 1 < |up|
    ensures Replace(up, i, i + 2, [up[i], up[i + 1]]) == up
  {}

  /** The pages of a deeper level, around both neighbours and below them. */
  lemma PairBelow(stack: seq<Frame>, p: Page, i: nat, d: nat)
    requires Framed(stack) && stack != [] && |stack| <= d
    requires var f := stack[|stack| - 1];
             f.ki < |f.nodes| && i + 1 < |f.nodes| && var up := Filled(f, p); up[i].Link? && up[i + 1].Link?
    ensures var n := |stack| - 1;
            var up := Filled(stack[n], p);
            && Framed(stack[..n])
            && var (a, b) := Most(stack[..n], up, i, d);
            RowFrom(stack, p.nodes, d)
            == a + (Row(up[i].page.nodes, d - n - 1) + Row(up[i + 1].page.nodes, d - n - 1)) + b
  {
    hide *;
    var n := |stack| - 1;
    var up := Filled(stack[n], p);
    Filled1(stack[n], p);
    StackUp(stack, p, d);
    PairSame(up, i);
    PairFrom(stack[..n], up, i, [up[i], up[i + 1]], d);
    PairRow(up[i], up[i + 1], d - n);
  }

  /** The pages around the neighbours are those around the page, but for the neighbour. */
  lemma BesideLeft(stack: seq<Frame>, p: Page)
    requires Framed(stack) && stack != []
    requires var f := stack[|stack| - 1]; 0 < f.ki < |f.nodes| && f.nodes[f.ki - 1].Link?
    ensures var n := |stack| - 1;
            var f := stack[n];
            && Framed(stack[..n])
            && var (a, b) := Most(stack[..n], Filled(f, p), f.ki - 1, n + 1);
            RowLeft(stack, 0) == a + [Bare(f.nodes[f.ki - 1].page.nodes)] && RowRight(stack, 0) == b
  {
    hide *;
    var n := |stack| - 1;
    var f := stack[n];
    RowSides(stack, 0);
    BesideUp(f, p);
    Filled1(f, p);
    MostIs(stack[..n], Filled(f, p), f.ki - 1);
    LastRow(f.nodes, f.ki - 1);
    Seqs.Assoc(RowLeft(stack[..n], 1), Row(f.nodes[..f.ki - 1], 1), [Bare(f.nodes[f.ki - 1].page.nodes)]);
  }

  lemma BesideRight(stack: seq<Frame>, p: Page)
    requires Framed(stack) && stack != []
    requires var f := stack[|stack| - 1]; f.ki == 0 && 1 < |f.nodes| && f.nodes[1].Link?
    ensures var n := |stack| - 1;
            var f := stack[n];
            && Framed(stack[..n])
            && var (a, b) := Most(stack[..n], Filled(f, p), 0, n + 1);
            RowLeft(stack, 0) == a && RowRight(stack, 0) == [Bare(f.nodes[1].page.nodes)] + b
  {
    hide *;
    var n := |stack| - 1;
    var f := stack[n];
    RowSides(stack, 0);
    BesideUp(f, p);
    Filled1(f, p);
    MostIs(stack[..n], Filled(f, p), 0);
    NoneBefore(RowLeft(stack[..n], 1), f.nodes);
    FirstRow(f.nodes);
    Seqs.Assoc([Bare(f.nodes[1].page.nodes)], Row(f.nodes[2..], 1), RowRight(stack[..n], 1));
  }

  lemma NoneBefore(a: Rows, nodes: seq<Node>)
    ensures a + Row(nodes[..0], 1) == a
  {}

  lemma MostIs(rest: seq<Frame>, up: seq<Node>, i: nat)
    requires Framed(rest) && i + 1 < |up|
    ensures Most(rest, up, i, |rest| + 1) == (RowLeft(rest, 1) + Row(up[..i], 1), Row(up[i + 2..], 1) + RowRight(rest, 1))
  {}

  lemma BesideUp(f: Frame, p: Page)
    requires f.ki < |f.nodes| && 1 < |f.nodes|
    ensures f.ki > 0 ==> Filled(f, p)[..f.ki - 1] == f.nodes[..f.ki - 1] && Filled(f, p)[f.ki + 1..] == f.nodes[f.ki + 1..]
    ensures f.ki == 0 ==> Filled(f, p)[..0] == f.nodes[..0] && Filled(f, p)[2..] == f.nodes[2..]
  {}

  lemma LastRow(nodes: seq<Node>, i: nat)
    requires i < |nodes| && nodes[i].Link?
    ensures Row(nodes[..i + 1], 1) == Row(nodes[..i], 1) + [Bare(nodes[i].page.nodes)]
  {
    assert nodes[..i + 1] == nodes[..i] + [nodes[i]];
    RowAppend(nodes[..i], [nodes[i]], 1);
    RowLink(nodes[i], 0);
  }

  lemma FirstRow(nodes: seq<Node>)
    requires 1 < |nodes| && nodes[1].Link?
    ensures Row(nodes[0 + 1..], 1) == [Bare(nodes[1].page.nodes)] + Row(nodes[2..], 1)
  {
    assert nodes[1..] == [nodes[1]] + nodes[2..];
    RowAppend([nodes[1]], nodes[2..], 1);
    RowLink(nodes[1], 0);
  }

  // ---------------------------------------------------------------- a borrow and a merge

  /** What `up` becomes: the two pages parted anew at `s`, or one page. */
  function Anew(up: seq<Node>, i: nat, leaf: bool, all: seq<Node>, s: nat, sep: Key): seq<Node>
    requires i + 1 < |up| && s < |all| && (!leaf ==> all[s].Link?)
  {
    Replace(up, i, i + 2, [Link(up[i].key, Page(leaf, all[..s])), Link(sep, Page(leaf, RightNodes(leaf, all, s)))])
  }

  lemma AnewRow(rest: seq<Frame>, up: seq<Node>, i: nat, leaf: bool, all: seq<Node>, s: nat, sep: Key, d: nat)
    requires Framed(rest) && i + 1 < |up| && s < |all| && (!leaf ==> all[s].Link?) && |rest| < d
    ensures var (a, b) := Most(rest, up, i, d);
            RowFrom(rest, Anew(up, i, leaf, all, s, sep), d)
            == a + (if d == |rest| + 1 then [Bare(all)[..s], Bare(all)[s..]] else Row(all, d - |rest| - 1)) + b
  {
    AnewIs(up, i, leaf, all, s, sep);
    hide *;
    var l, r := Page(leaf, all[..s]), Page(leaf, RightNodes(leaf, all, s));
    PairFrom(rest, up, i, [Link(up[i].key, l), Link(sep, r)], d);
    PairRow(Link(up[i].key, l), Link(sep, r), d - |rest|);
    if d == |rest| + 1 {
      PartsRow(leaf, all, s);
    } else {
      HalvesRow(leaf, all, s, d - |rest| - 1);
    }
  }

  lemma AnewIs(up: seq<Node>, i: nat, leaf: bool, all: seq<Node>, s: nat, sep: Key)
    requires i + 1 < |up| && s < |all| && (!leaf ==> all[s].Link?)
    ensures Anew(up, i, leaf, all, s, sep)
            == Replace(up, i, i + 2, [Link(up[i].key, Page(leaf, all[..s])), Link(sep, Page(leaf, RightNodes(leaf, all, s)))])
  {
    hide RightNodes, Replace;
  }

  lemma PartsRow(leaf: bool, all: seq<Node>, s: nat)
    requires s < |all| && (!leaf ==> all[s].Link?)
    ensures Row(all[..s], 0) + Row(RightNodes(leaf, all, s), 0) == [Bare(all)[..s], Bare(all)[s..]]
  {
    hide RightNodes, Row;
    HalvesBare(leaf, all, s);
    RowZero(all[..s]);
    RowZero(RightNodes(leaf, all, s));
  }

  lemma RowZero(nodes: seq<Node>)
    ensures Row(nodes, 0) == [Bare(nodes)]
  {}

  lemma OneRow(rest: seq<Frame>, up: seq<Node>, i: nat, key: Key, p: Page, d: nat)
    requires Framed(rest) && i + 1 < |up| && |rest| < d
    ensures var (a, b) := Most(rest, up, i, d);
            RowFrom(rest, Replace(up, i, i + 2, [Link(key, p)]), d) == a + Row(p.nodes, d - |rest| - 1) + b
  {
    hide Row, RowFrom, Most;
    PairFrom(rest, up, i, [Link(key, p)], d);
    RowLink(Link(key, p), d - |rest| - 1);
  }

  /** Below both pages are the pages that were below them. */
  lemma BothRow(l: seq<Node>, r: seq<Node>, all: seq<Node>, d: nat)
    requires Bare(all) == Bare(l) + Bare(r) && d > 0
    ensures Row(all, d) == Row(l, d) + Row(r, d)
  {
    hide Row;
    BareAppend(l, r);
    RowBare(all, l + r, d);
    RowAppend(l, r, d);
  }

  lemma CutLeft(all: seq<Node>, l: seq<Node>, r: seq<Node>)
    requires all == l + r && l != []
    ensures var s := |l| - 1; s <= |all| && [all[..s], all[s..]] == [l[..|l| - 1], [l[|l| - 1]] + r]
  {
    assert all[..|l| - 1] == l[..|l| - 1];
    assert all[|l| - 1..] == [l[|l| - 1]] + r;
  }

  lemma CutRight(all: seq<Node>, l: seq<Node>, r: seq<Node>)
    requires all == l + r && r != []
    ensures var s := |l| + 1; s <= |all| && [all[..s], all[s..]] == [l + [r[0]], r[1..]]
  {
    assert all[..|l| + 1] == l + [r[0]];
    assert all[|l| + 1..] == r[1..];
  }

  lemma RowsCut(a: Rows, x: seq<Node>, b: Rows)
    ensures a + [x] != [] && (a + [x])[..|a + [x]| - 1] == a && [x] + b != [] && ([x] + b)[1..] == b
  {}

  /** The neighbour of the page at the bottom of the stack. */
  function Beside1(f: Frame): nat {
    if f.ki > 0 then f.ki - 1 else 1
  }

  /** Where the two neighbours are below `up`, the page above, and what they hold. */
  ghost predicate Pair(stack: seq<Frame>, p: Page, rest: seq<Frame>, up: seq<Node>, i: nat, all: seq<Node>) {
    && Framed(stack) && stack != [] && rest == stack[..|stack| - 1]
    && var f := stack[|stack| - 1];
    && f.ki < |f.nodes| && 1 < |f.nodes| && i == (if f.ki > 0 then f.ki - 1 else 0) && up == Filled(f, p)
    && up[i].Link? && up[i + 1].Link? && Bare(all) == Bare(up[i].page.nodes) + Bare(up[i + 1].page.nodes)
  }

  lemma PairParts(stack: seq<Frame>, p: Page, rest: seq<Frame>, up: seq<Node>, i: nat, all: seq<Node>)
    requires Pair(stack, p, rest, up, i, all)
    ensures Framed(stack) && stack != [] && rest == stack[..|stack| - 1] && Framed(rest)
    ensures var f := stack[|stack| - 1];
            && f.ki < |f.nodes| && 1 < |f.nodes| && i == (if f.ki > 0 then f.ki - 1 else 0) && i + 1 < |f.nodes|
            && Beside1(f) == (if f.ki > 0 then f.ki - 1 else 1) && f.nodes[Beside1(f)].Link? && up == Filled(f, p)
            && |up| == |f.nodes| && up[i].Link? && up[i + 1].Link?
            && (f.ki > 0 ==> up[i] == f.nodes[f.ki - 1] && up[i + 1].page == p)
            && (f.ki == 0 ==> up[i].page == p && up[i + 1] == f.nodes[1])
            && Bare(all) == Bare(up[i].page.nodes) + Bare(up[i + 1].page.nodes)
  {
    hide Bare;
  }

  /** The neighbour has a node to spare, and the nodes are parted one node further. */
  ghost predicate Borrows(ps: PageSize, stack: seq<Frame>, p: Page, rest: seq<Frame>, up: seq<Node>, i: nat, all: seq<Node>,
                          s: nat) {
    && Pair(stack, p, rest, up, i, all)
    && var f := stack[|stack| - 1];
    && s == (if f.ki > 0 then |up[i].page.nodes| - 1 else |up[i].page.nodes| + 1)
    && MoreThanEnough(ps, p.leaf, f.nodes[Beside1(f)].page.nodes)
  }

  ghost predicate Merges(ps: PageSize, stack: seq<Frame>, p: Page, rest: seq<Frame>, up: seq<Node>, i: nat, all: seq<Node>) {
    && Pair(stack, p, rest, up, i, all)
    && var f := stack[|stack| - 1];
    !MoreThanEnough(ps, p.leaf, f.nodes[Beside1(f)].page.nodes)
  }

  lemma RefilledLeft(ps: PageSize, stack: seq<Frame>, p: Page, most: Rows, row: Rows)
    requires Framed(stack) && stack != []
    requires var f := stack[|stack| - 1];
             && 0 < f.ki < |f.nodes| && f.nodes[f.ki - 1].Link?
             && var left := f.nodes[f.ki - 1].page.nodes;
             var l, m, after := Bare(left), Bare(p.nodes), RowRight(stack, 0);
             && RowLeft(stack, 0) == most + [l]
             && if MoreThanEnough(ps, p.leaf, left) then l != [] && row == most + [l[..|l| - 1], [l[|l| - 1]] + m] + after
                else row == most + [l + m] + after
    ensures Refilled(ps, stack, p, row)
  {
    hide RowLeft, RowRight, MoreThanEnough, Bare;
    RowsCut(most, Bare(stack[|stack| - 1].nodes[stack[|stack| - 1].ki - 1].page.nodes), []);
  }

  lemma RefilledRight(ps: PageSize, stack: seq<Frame>, p: Page, most: Rows, row: Rows)
    requires Framed(stack) && stack != []
    requires var f := stack[|stack| - 1];
             && f.ki == 0 && 1 < |f.nodes| && f.nodes[1].Link?
             && var right := f.nodes[1].page.nodes;
             var r, m, before := Bare(right), Bare(p.nodes), RowLeft(stack, 0);
             && RowRight(stack, 0) == [r] + most
             && if MoreThanEnough(ps, p.leaf, right) then r != [] && row == before + [m + [r[0]], r[1..]] + most
                else row == before + [m + r] + most
    ensures Refilled(ps, stack, p, row)
  {
    hide RowLeft, RowRight, MoreThanEnough, Bare;
    RowsCut([], Bare(stack[|stack| - 1].nodes[1].page.nodes), most);
  }

  /** A borrow from the left. */
  lemma BorrowLeft(ps: PageSize, stack: seq<Frame>, p: Page, rest: seq<Frame>, up: seq<Node>, i: nat, all: seq<Node>, s: nat,
                   row: Rows)
    requires |rest| < |stack| && stack[|stack| - 1].ki > 0 && Framed(rest) && i + 1 < |up| && s <= |all|
    requires var (a, b) := Most(rest, up, i, |stack|); row == a + [Bare(all)[..s], Bare(all)[s..]] + b
    requires Framed(stack) && Borrows(ps, stack, p, rest, up, i, all, s)
    ensures Refilled(ps, stack, p, row)
  {
    hide *;
    BorrowsParts(ps, stack, p, rest, up, i, all, s);
    PairParts(stack, p, rest, up, i, all);
    var (a, b) := Most(rest, up, i, |stack|);
    BesideLeft(stack, p);
    CutLeft(Bare(all), Bare(up[i].page.nodes), Bare(up[i + 1].page.nodes));
    RefilledLeft(ps, stack, p, a, row);
  }

  lemma BorrowRight(ps: PageSize, stack: seq<Frame>, p: Page, rest: seq<Frame>, up: seq<Node>, i: nat, all: seq<Node>, s: nat,
                    row: Rows)
    requires |rest| < |stack| && stack[|stack| - 1].ki == 0 && Framed(rest) && i + 1 < |up| && s <= |all|
    requires var (a, b) := Most(rest, up, i, |stack|); row == a + [Bare(all)[..s], Bare(all)[s..]] + b
    requires Framed(stack) && Borrows(ps, stack, p, rest, up, i, all, s)
    ensures Refilled(ps, stack, p, row)
  {
    hide *;
    BorrowsParts(ps, stack, p, rest, up, i, all, s);
    PairParts(stack, p, rest, up, i, all);
    var (a, b) := Most(rest, up, i, |stack|);
    BesideRight(stack, p);
    CutRight(Bare(all), Bare(up[i].page.nodes), Bare(up[i + 1].page.nodes));
    RefilledRight(ps, stack, p, b, row);
  }

  /** A borrow. */
  lemma BorrowRefills(ps: PageSize, stack: seq<Frame>, p: Page, rest: seq<Frame>, up: seq<Node>, i: nat, all: seq<Node>, s: nat,
                      sep: Key)
    requires Framed(rest) && Framed(stack) && |rest| <= |stack| && stack != []
    requires i + 1 < |up| && s < |all| && (!p.leaf ==> all[s].Link?)
    requires Borrows(ps, stack, p, rest, up, i, all, s)
    ensures Refilled(ps, stack, p, RowFrom(rest, Anew(up, i, p.leaf, all, s, sep), |stack|))
  {
    hide *;
    BorrowsParts(ps, stack, p, rest, up, i, all, s);
    PairParts(stack, p, rest, up, i, all);
    AnewRow(rest, up, i, p.leaf, all, s, sep, |stack|);
    if stack[|stack| - 1].ki > 0 {
      BorrowLeft(ps, stack, p, rest, up, i, all, s, RowFrom(rest, Anew(up, i, p.leaf, all, s, sep), |stack|));
    } else {
      BorrowRight(ps, stack, p, rest, up, i, all, s, RowFrom(rest, Anew(up, i, p.leaf, all, s, sep), |stack|));
    }
  }

  lemma BorrowsParts(ps: PageSize, stack: seq<Frame>, p: Page, rest: seq<Frame>, up: seq<Node>, i: nat, all: seq<Node>, s: nat)
    requires Borrows(ps, stack, p, rest, up, i, all, s)
    ensures Pair(stack, p, rest, up, i, all) && stack != []
    ensures var f := stack[|stack| - 1];
            && i < |up| && up[i].Link? && Beside1(f) < |f.nodes| && f.nodes[Beside1(f)].Link?
            && s == (if f.ki > 0 then |up[i].page.nodes| - 1 else |up[i].page.nodes| + 1)
            && var beside := f.nodes[Beside1(f)].page.nodes;
            MoreThanEnough(ps, p.leaf, beside) && |beside| >= 2 && |Bare(beside)| == |beside|
  {
    PairParts(stack, p, rest, up, i, all);
    hide Bare, Used, PMax;
  }

  lemma MergesParts(ps: PageSize, stack: seq<Frame>, p: Page, rest: seq<Frame>, up: seq<Node>, i: nat, all: seq<Node>)
    requires Merges(ps, stack, p, rest, up, i, all)
    ensures Pair(stack, p, rest, up, i, all) && stack != []
    ensures var f := stack[|stack| - 1];
            && Beside1(f) < |f.nodes| && f.nodes[Beside1(f)].Link?
            && !MoreThanEnough(ps, p.leaf, f.nodes[Beside1(f)].page.nodes)
  {
    PairParts(stack, p, rest, up, i, all);
    hide Bare, MoreThanEnough;
  }

  /** A merge. */
  lemma MergeRefills(ps: PageSize, stack: seq<Frame>, p: Page, rest: seq<Frame>, up: seq<Node>, i: nat, all: seq<Node>, key: Key)
    requires Framed(rest) && Framed(stack) && |rest| <= |stack| && stack != []
    requires i + 1 < |up| && Merges(ps, stack, p, rest, up, i, all)
    ensures Refilled(ps, stack, p, RowFrom(rest, Replace(up, i, i + 2, [Link(key, Page(p.leaf, all))]), |stack|))
  {
    MergesParts(ps, stack, p, rest, up, i, all);
    PairParts(stack, p, rest, up, i, all);
    hide *;
    var f := stack[|stack| - 1];
    var (a, b) := Most(rest, up, i, |stack|);
    OneRow(rest, up, i, key, Page(p.leaf, all), |stack|);
    RowZero(all);
    if f.ki > 0 {
      BesideLeft(stack, p);
      RefilledLeft(ps, stack, p, a, RowFrom(rest, Replace(up, i, i + 2, [Link(key, Page(p.leaf, all))]), |stack|));
    } else {
      BesideRight(stack, p);
      RefilledRight(ps, stack, p, b, RowFrom(rest, Replace(up, i, i + 2, [Link(key, Page(p.leaf, all))]), |stack|));
    }
  }

  // ---------------------------------------------------------------- going up

  lemma OnMerged(ps: PageSize, stack0: seq<Frame>, p0: Page, stack: seq<Frame>, p: Page, rest: seq<Frame>, up: seq<Node>,
                 i: nat, all: seq<Node>, key: Key)
    requires i + 1 < |up| && Merges(ps, stack, p, rest, up, i, all) && !Enough(ps, p.leaf, p.nodes)
    requires RebalanceOn(ps, stack0, p0, stack, p)
    ensures RebalanceOn(ps, stack0, p0, rest, Page(false, Replace(up, i, i + 2, [Link(key, Page(p.leaf, all))])))
  {
    hide *;
    OnParts(ps, stack0, p0, stack, p);
    MergesParts(ps, stack, p, rest, up, i, all);
    PairParts(stack, p, rest, up, i, all);
    var d := |stack0|;
    if |stack| < d {
      PairBelow(stack, p, i, d);
      BothRow(up[i].page.nodes, up[i + 1].page.nodes, all, d - |rest| - 1);
      OneRow(rest, up, i, key, Page(p.leaf, all), d);
    } else {
      MergeRefills(ps, stack, p, rest, up, i, all, key);
    }
    OnWhole(ps, stack0, p0, rest, Replace(up, i, i + 2, [Link(key, Page(p.leaf, all))]));
  }

  lemma OnWhole(ps: PageSize, stack0: seq<Frame>, p0: Page, stack: seq<Frame>, nodes: seq<Node>)
    requires Framed(stack0) && Framed(stack) && |stack| < |stack0| && !Enough(ps, p0.leaf, p0.nodes)
    requires Refilled(ps, stack0, p0, RowFrom(stack, nodes, |stack0|))
    ensures RebalanceOn(ps, stack0, p0, stack, Page(false, nodes))
  {
    hide Enough, Refilled, RowFrom;
  }

  /** A borrow ends it: the tree is what adding the separator to the page above makes of it. */
  lemma OnBorrowed(ps: PageSize, stack0: seq<Frame>, p0: Page, stack: seq<Frame>, p: Page, rest: seq<Frame>, up: seq<Node>,
                   i: nat, all: seq<Node>, s: nat, sep: Key, root: Page, k: int)
    requires i + 1 < |up| && s < |all| && (!p.leaf ==> all[s].Link?)
    requires RowsKept(rest, Anew(up, i, p.leaf, all, s, sep), root, k)
    requires Borrows(ps, stack, p, rest, up, i, all, s) && !Enough(ps, p.leaf, p.nodes)
    requires RebalanceOn(ps, stack0, p0, stack, p)
    ensures Rebalanced(ps, stack0, p0, Some(root), k)
  {
    hide *;
    OnParts(ps, stack0, p0, stack, p);
    BorrowsParts(ps, stack, p, rest, up, i, all, s);
    PairParts(stack, p, rest, up, i, all);
    var d := |stack0|;
    if |stack| < d {
      PairBelow(stack, p, i, d);
      BothRow(up[i].page.nodes, up[i + 1].page.nodes, all, d - |rest| - 1);
      AnewRow(rest, up, i, p.leaf, all, s, sep, d);
    } else {
      BorrowRefills(ps, stack, p, rest, up, i, all, s, sep);
    }
    KeptAt(rest, Anew(up, i, p.leaf, all, s, sep), root, k, d);
    RebalancedIf(ps, stack0, p0, root, k);
  }

  lemma KeptAt(stack: seq<Frame>, nodes: seq<Node>, root: Page, k: int, d: nat)
    requires RowsKept(stack, nodes, root, k) && |stack| < d
    ensures k >= 0 && Framed(stack) && Row(root.nodes, d + k) == RowFrom(stack, nodes, d)
  {
    hide Row, RowFrom;
  }

  lemma RebalancedIf(ps: PageSize, stack: seq<Frame>, p: Page, root: Page, k: int)
    requires Framed(stack) && stack != [] && !Enough(ps, p.leaf, p.nodes) && |stack| + k >= 0
    requires Refilled(ps, stack, p, Row(root.nodes, |stack| + k))
    ensures Rebalanced(ps, stack, p, Some(root), k)
  {
    hide Enough, Refilled, Row;
  }

  /** It ends at a page that has enough, or at the root. */
  lemma OnStop(ps: PageSize, stack0: seq<Frame>, p0: Page, stack: seq<Frame>, p: Page)
    requires RebalanceOn(ps, stack0, p0, stack, p) && (Enough(ps, p.leaf, p.nodes) || stack == [])
    ensures Framed(stack)
    ensures p.nodes != [] && (!p.leaf ==> |p.nodes| >= 2 || stack != []) ==> Rebalanced(ps, stack0, p0, Some(Zip(stack, p)), 0)
  {
    hide *;
    OnParts(ps, stack0, p0, stack, p);
    FramedZips(stack);
    if |stack| < |stack0| {
      ZipRow(stack, p, |stack0|);
      RebalancedIf(ps, stack0, p0, Zip(stack, p), 0);
    } else {
      StopHere(ps, stack, p);
    }
  }

  lemma FramedZips(stack: seq<Frame>)
    requires Framed(stack)
    ensures forall f | f in stack :: f.ki < |f.nodes|
  {}

  lemma StopHere(ps: PageSize, stack: seq<Frame>, p: Page)
    requires Framed(stack) && (Enough(ps, p.leaf, p.nodes) || stack == [])
    ensures p.nodes != [] && (!p.leaf ==> |p.nodes| >= 2 || stack != []) ==> Rebalanced(ps, stack, p, Some(Zip(stack, p)), 0)
    ensures stack == [] && p.nodes == [] ==> Rebalanced(ps, stack, p, None, -1)
    ensures stack == [] && !p.leaf && |p.nodes| == 1 && p.nodes[0].Link? ==> Rebalanced(ps, stack, p, Some(p.nodes[0].page), -1)
  {}

  /** The tree has lost its last item. */
  lemma OnEmpty(ps: PageSize, stack0: seq<Frame>, p0: Page, p: Page, k: int)
    requires RebalanceOn(ps, stack0, p0, [], p) && p.leaf && p.nodes == []
    ensures Rebalanced(ps, stack0, p0, None, k)
  {
    hide Refilled, RowFrom;
  }

  /** The root had a single link. */
  lemma OnCollapsed(ps: PageSize, stack0: seq<Frame>, p0: Page, p: Page)
    requires RebalanceOn(ps, stack0, p0, [], p) && !p.leaf && |p.nodes| == 1 && p.nodes[0].Link?
    ensures Rebalanced(ps, stack0, p0, Some(p.nodes[0].page), -1)
  {
    hide *;
    OnParts(ps, stack0, p0, [], p);
    if |stack0| > 0 {
      assert p.nodes == [p.nodes[0]];
      RowLink(p.nodes[0], |stack0| - 1);
      RootFrom(p.nodes, |stack0|);
      RebalancedIf(ps, stack0, p0, p.nodes[0].page, -1);
    } else {
      StopHere(ps, [], p);
    }
  }

  lemma RootFrom(nodes: seq<Node>, d: nat)
    ensures RowFrom([], nodes, d) == Row(nodes, d)
  {}

  // ---------------------------------------------------------------- counters

  /** The leaf pages of a tree are the pages of its last row. */
  lemma {:induction false} LeafRow(ps: PageSize, p: Page, h: nat, lo: real, hi: real)
    requires Arranged(ps, p, h, lo, hi)
    ensures h > 0 && PagesAt(p, true) == |Row(p.nodes, h - 1)|
    decreases h, 1, 0
  {
    if p.leaf {
      PagesLeaf(p.nodes, true);
    } else {
      BranchKids(ps, p, h, lo, hi);
      LeafRows(ps, p.nodes, h, lo, hi, 0);
      assert p.nodes[0..] == p.nodes;
    }
  }

  lemma {:induction false} LeafRows(ps: PageSize, nodes: seq<Node>, h: nat, lo: real, hi: real, i: nat)
    requires h > 1 && i <= |nodes| && forall j | i <= j < |nodes| :: KidOk(ps, nodes, j, h, lo, hi)
    ensures Pages(nodes[i..], true) == |Row(nodes[i..], h - 1)|
    decreases h, 0, |nodes| - i
  {
    hide *;
    if i < |nodes| {
      KidGood(ps, nodes, i, h, lo, hi);
      KidLink(ps, nodes, i, h, lo, hi);
      LeafRow(ps, nodes[i].page, h - 1, LoAt(nodes, i, lo), HiAt(nodes, i, hi));
      LeafRows(ps, nodes, h, lo, hi, i + 1);
      Seqs.DropCons(nodes, i);
      PagesAppend([nodes[i]], nodes[i + 1..], true);
      PagesLink(nodes[i], true);
      RowAppend([nodes[i]], nodes[i + 1..], h - 1);
      RowLink(nodes[i], h - 2);
    } else {
      NoPages(nodes[i..], h - 1);
    }
  }

  lemma KidLink(ps: PageSize, nodes: seq<Node>, i: nat, h: nat, lo: real, hi: real)
    requires i < |nodes| && KidOk(ps, nodes, i, h, lo, hi)
    ensures nodes[i].Link?
  {
    hide Good, LoAt, HiAt;
  }

  lemma NoPages(nodes: seq<Node>, d: nat)
    requires nodes == [] && d > 0
    ensures Pages(nodes, true) == 0 && Row(nodes, d) == []
  {}

  lemma RefilledCount(ps: PageSize, stack: seq<Frame>, p: Page, row: Rows)
    requires Framed(stack) && stack != [] && Refilled(ps, stack, p, row)
    ensures var f := stack[|stack| - 1];
            && Beside1(f) < |f.nodes| && f.nodes[Beside1(f)].Link?
            && |row| == |RowLeft(stack, 0)| + |RowRight(stack, 0)|
                        + if MoreThanEnough(ps, p.leaf, f.nodes[Beside1(f)].page.nodes) then 1 else 0
  {
    hide RowLeft, RowRight, MoreThanEnough, Bare;
  }

  lemma HereFrom(stack: seq<Frame>, nodes: seq<Node>)
    requires Framed(stack)
    ensures |RowFrom(stack, nodes, |stack|)| == |RowLeft(stack, 0)| + |RowRight(stack, 0)| + 1
  {
    hide Bare, RowLeft, RowRight;
  }

  lemma RefilledOf(ps: PageSize, stack: seq<Frame>, p: Page, root: Page, k: int)
    requires stack != [] && Rebalanced(ps, stack, p, Some(root), k) && !Enough(ps, p.leaf, p.nodes)
    ensures Framed(stack) && |stack| + k >= 0 && Refilled(ps, stack, p, Row(root.nodes, |stack| + k))
  {
    hide Refilled, Enough, Row;
  }

  lemma LeafCount(ps: PageSize, p: Page, h: nat)
    requires Good(ps, p, h, 0.0, 1.0)
    ensures h > 0 && PagesAt(p, true) == |Row(p.nodes, h - 1)|
  {
    LeafRow(ps, p, h, 0.0, 1.0);
  }
}
