/** Other cursors, when one changes pages at one level (mdb_cursor_put, mdb_page_split,
    mdb_node_move, mdb_page_merge, mdb.c): each is moved so that it still points to the node it
    pointed to.

    `T` stands for what a node is about: an item of a leaf page, or the child of a branch page. */
module TrackedCursors {
  /** A cursor at this level: mc_pg and mc_ki of the parent, and of the page below it. */
  datatype Cur = Cur(ppg: nat, pki: nat, pg: nat, ki: nat)

  /** A parent page, its children in order, and their nodes. */
  datatype Family<T> = Family(pp: nat, kids: seq<nat>, pages: map<nat, seq<T>>)

  /** Every child is there once. */
  ghost predicate FamilyOk<T>(f: Family<T>) {
    && (forall k | 0 <= k < |f.kids| :: f.kids[k] in f.pages)
    && (forall j, k | 0 <= j < k < |f.kids| :: f.kids[j] != f.kids[k])
  }

  /** The cursor's stack leads to a node: its page is the child that its parent's index names. */
  ghost predicate Resolves<T>(f: Family<T>, c: Cur) {
    if c.ppg == f.pp then
      && c.pki < |f.kids| && f.kids[c.pki] == c.pg
      && c.pg in f.pages && c.ki < |f.pages[c.pg]|
    else c.pg !in f.pages
  }

  ghost function NodeOf<T>(f: Family<T>, c: Cur): T
    requires Resolves(f, c) && c.ppg == f.pp
  {
    f.pages[c.pg][c.ki]
  }

  /** In g the cursor d points to what c pointed to in f; a cursor elsewhere is left alone. */
  ghost predicate Follows<T>(f: Family<T>, c: Cur, g: Family<T>, d: Cur) {
    && f.pp == g.pp && d.ppg == c.ppg && Resolves(g, d)
    && (c.ppg != f.pp ==> d == c)
    && (c.ppg == f.pp && Resolves(f, c) ==> NodeOf(g, d) == NodeOf(f, c))
  }

  // ---------------------------------------------------------------- adding a node

  function Inserted<T>(s: seq<T>, i: nat, x: T): seq<T>
    requires i <= |s|
  {
    s[..i] + [x] + s[i..]
  }

  /** The family after a node was added to page mp. */
  ghost function AddedTo<T>(f: Family<T>, mp: nat, i: nat, x: T): Family<T>
    requires mp in f.pages && i <= |f.pages[mp]|
  {
    f.(pages := f.pages[mp := Inserted(f.pages[mp], i, x)])
  }

  /** The fix-up after `mdb_node_add` in `mdb_cursor_put`, for a new key; `own` is the putting
      cursor. */
  method AfterAdd<T>(cs: array<Cur>, own: nat, ghost f: Family<T>, mp: nat, i: nat, ghost x: T)
    requires own < cs.Length && mp in f.pages && i <= |f.pages[mp]|
    requires forall k | 0 <= k < cs.Length && k != own :: Resolves(f, cs[k])
    modifies cs
    ensures cs[own] == old(cs[own])
    ensures forall k | 0 <= k < cs.Length && k != own :: Follows(f, old(cs[k]), AddedTo(f, mp, i, x), cs[k])
  {
    var k := 0;
    while k < cs.Length
      invariant 0 <= k <= cs.Length && cs[own] == old(cs[own])
      invariant forall j | k <= j < cs.Length :: cs[j] == old(cs[j])
      invariant forall j | 0 <= j < k && j != own :: Follows(f, old(cs[j]), AddedTo(f, mp, i, x), cs[j])
    {
      if k != own && cs[k].pg == mp && cs[k].ki >= i {
        cs[k] := cs[k].(ki := cs[k].ki + 1);
      }
      k := k + 1;
    }
  }

  // ---------------------------------------------------------------- a split

  /** The family after mp was split at s, with the new node at newindx; rp is the right page. */
  ghost function SplitTo<T>(f: Family<T>, pki: nat, rp: nat, all: seq<T>, s: nat): Family<T>
    requires pki < |f.kids| && s <= |all|
  {
    Family(f.pp, f.kids[..pki + 1] + [rp] + f.kids[pki + 1..], f.pages[f.kids[pki] := all[..s]][rp := all[s..]])
  }

  /** All nodes, with the new one: with `replace` it stands for the one that was deleted to make
      room for it. */
  ghost function WithNew<T>(s: seq<T>, newindx: nat, x: T, replace: bool): seq<T>
    requires if replace then newindx < |s| else newindx <= |s|
  {
    if replace then s[newindx := x] else Inserted(s, newindx, x)
  }

  /** What `mdb_page_split` does to one other cursor: nkeys is the number of nodes left in mp, mcPki
      is where the splitting cursor has gone in the parent. */
  function SplitMoves(c: Cur, pp: nat, pki: nat, mcPki: nat, mp: nat, rp: nat, newindx: nat, nkeys: nat, replace: bool): Cur {
    if c.ppg == pp && c.pg == mp then
      var ki := if c.ki >= newindx && !replace then c.ki + 1 else c.ki;
      if ki >= nkeys then Cur(pp, pki + 1, rp, ki - nkeys) else c.(ki := ki)
    else if c.ppg == pp && c.pki >= mcPki then c.(pki := c.pki + 1)
    else c
  }

  ghost predicate SplitReady<T>(f: Family<T>, pki: nat, rp: nat, x: T, newindx: nat, s: nat, replace: bool) {
    && FamilyOk(f) && pki < |f.kids| && rp !in f.pages
    && (if replace then newindx < |f.pages[f.kids[pki]]| && f.pages[f.kids[pki]][newindx] == x
        else newindx <= |f.pages[f.kids[pki]]|)
    && s <= |WithNew(f.pages[f.kids[pki]], newindx, x, replace)|
  }

  /** The family after the split of child pki. */
  ghost function AfterSplitting<T>(f: Family<T>, pki: nat, rp: nat, x: T, newindx: nat, s: nat, replace: bool): Family<T>
    requires SplitReady(f, pki, rp, x, newindx, s, replace)
  {
    SplitTo(f, pki, rp, WithNew(f.pages[f.kids[pki]], newindx, x, replace), s)
  }

  lemma SplitOn<T>(f: Family<T>, c: Cur, pki: nat, mcPki: nat, rp: nat, x: T, newindx: nat, s: nat, replace: bool)
    requires SplitReady(f, pki, rp, x, newindx, s, replace)
    requires Resolves(f, c) && c.ppg == f.pp && c.pg == f.kids[pki]
    ensures Follows(f, c, AfterSplitting(f, pki, rp, x, newindx, s, replace),
                    SplitMoves(c, f.pp, pki, mcPki, f.kids[pki], rp, newindx, s, replace))
  {
    assert c.pki == pki;
    WithNewAt(f.pages[f.kids[pki]], newindx, x, replace, c.ki);
    var all := WithNew(f.pages[f.kids[pki]], newindx, x, replace);
    hide WithNew;
    SplitOnPage(f, c, pki, rp, all, s, if c.ki >= newindx && !replace then c.ki + 1 else c.ki);
  }

  lemma SplitOff<T>(f: Family<T>, c: Cur, pki: nat, mcPki: nat, rp: nat, x: T, newindx: nat, s: nat, replace: bool)
    requires SplitReady(f, pki, rp, x, newindx, s, replace) && (mcPki == pki || mcPki == pki + 1)
    requires Resolves(f, c) && (c.ppg != f.pp ==> c.pg != rp) && !(c.ppg == f.pp && c.pg == f.kids[pki])
    ensures Follows(f, c, AfterSplitting(f, pki, rp, x, newindx, s, replace),
                    SplitMoves(c, f.pp, pki, mcPki, f.kids[pki], rp, newindx, s, replace))
  {
    hide WithNew;
    SplitKids(f, pki, rp, WithNew(f.pages[f.kids[pki]], newindx, x, replace), s);
  }

  lemma SplitKids<T>(f: Family<T>, pki: nat, rp: nat, all: seq<T>, s: nat)
    requires pki < |f.kids| && s <= |all|
    ensures var g := SplitTo(f, pki, rp, all, s);
            && |g.kids| == |f.kids| + 1
            && forall k | 0 <= k < |g.kids| :: g.kids[k] == if k <= pki then f.kids[k] else if k == pki + 1 then rp else f.kids[k - 1]
  {}

  /** Where a node of the old page stands among all nodes. */
  lemma WithNewAt<T>(s: seq<T>, newindx: nat, x: T, replace: bool, ki: nat)
    requires (if replace then newindx < |s| && s[newindx] == x else newindx <= |s|) && ki < |s|
    ensures var k := if ki >= newindx && !replace then ki + 1 else ki;
            k < |WithNew(s, newindx, x, replace)| && WithNew(s, newindx, x, replace)[k] == s[ki]
  {}

  lemma SplitOnPage<T>(f: Family<T>, c: Cur, pki: nat, rp: nat, all: seq<T>, s: nat, ki: nat)
    requires pki < |f.kids| && f.kids[pki] != rp && s <= |all| && ki < |all|
    requires c.ppg == f.pp && c.pg == f.kids[pki] && c.pki == pki && Resolves(f, c) && all[ki] == NodeOf(f, c)
    ensures Follows(f, c, SplitTo(f, pki, rp, all, s), if ki >= s then Cur(f.pp, pki + 1, rp, ki - s) else c.(ki := ki))
  {
    SplitKids(f, pki, rp, all, s);
  }

  /** The fix-up at the end of `mdb_page_split`, when the parent had room. */
  method AfterSplit<T>(cs: array<Cur>, own: nat, ghost f: Family<T>, pp: nat, pki: nat, mcPki: nat, mp: nat, rp: nat,
                       newindx: nat, nkeys: nat, replace: bool, ghost x: T)
    requires own < cs.Length && SplitReady(f, pki, rp, x, newindx, nkeys, replace)
    requires f.pp == pp && f.kids[pki] == mp && (mcPki == pki || mcPki == pki + 1)
    requires forall k | 0 <= k < cs.Length && k != own :: Resolves(f, cs[k]) && (cs[k].ppg != pp ==> cs[k].pg != rp)
    modifies cs
    ensures cs[own] == old(cs[own])
    ensures forall k | 0 <= k < cs.Length && k != own ::
              Follows(f, old(cs[k]), AfterSplitting(f, pki, rp, x, newindx, nkeys, replace), cs[k])
  {
    hide Follows, AfterSplitting;
    var k := 0;
    while k < cs.Length
      invariant 0 <= k <= cs.Length && cs[own] == old(cs[own])
      invariant forall j | k <= j < cs.Length :: cs[j] == old(cs[j])
      invariant forall j | 0 <= j < k && j != own ::
                  Follows(f, old(cs[j]), AfterSplitting(f, pki, rp, x, newindx, nkeys, replace), cs[j])
    {
      if k != own {
        if cs[k].ppg == pp && cs[k].pg == mp {
          SplitOn(f, cs[k], pki, mcPki, rp, x, newindx, nkeys, replace);
        } else {
          SplitOff(f, cs[k], pki, mcPki, rp, x, newindx, nkeys, replace);
        }
        cs[k] := SplitMoves(cs[k], pp, pki, mcPki, mp, rp, newindx, nkeys, replace);
      }
      k := k + 1;
    }
  }

  // ---------------------------------------------------------------- a borrow

  /** The family after the last node of the child before pki moved to the front of child pki. */
  ghost function BorrowedLeft<T>(f: Family<T>, pki: nat): Family<T>
    requires FamilyOk(f) && 0 < pki < |f.kids| && |f.pages[f.kids[pki - 1]]| > 0
  {
    var mps, mpd := f.kids[pki - 1], f.kids[pki];
    var src := f.pages[mps];
    f.(pages := f.pages[mps := src[..|src| - 1]][mpd := [src[|src| - 1]] + f.pages[mpd]])
  }

  function BorrowLeftMoves(c: Cur, pp: nat, mps: nat, mpd: nat, srcKi: nat): Cur {
    var d := if c.ppg == pp && c.pg == mpd then c.(ki := c.ki + 1) else c;
    if d.ppg == pp && d.pg == mps && d.ki == srcKi then d.(pg := mpd, ki := 0, pki := d.pki + 1) else d
  }

  lemma BorrowLeftFollows<T>(f: Family<T>, c: Cur, pki: nat)
    requires FamilyOk(f) && 0 < pki < |f.kids| && |f.pages[f.kids[pki - 1]]| > 0 && Resolves(f, c)
    ensures Follows(f, c, BorrowedLeft(f, pki),
                    BorrowLeftMoves(c, f.pp, f.kids[pki - 1], f.kids[pki], |f.pages[f.kids[pki - 1]]| - 1))
  {
    assert f.kids[pki - 1] != f.kids[pki];
  }

  /** The family after the first node of the child after pki moved to the end of child pki. */
  ghost function BorrowedRight<T>(f: Family<T>, pki: nat): Family<T>
    requires FamilyOk(f) && pki + 1 < |f.kids| && |f.pages[f.kids[pki + 1]]| > 0
  {
    var mps, mpd := f.kids[pki + 1], f.kids[pki];
    f.(pages := f.pages[mps := f.pages[mps][1..]][mpd := f.pages[mpd] + [f.pages[mps][0]]])
  }

  function BorrowRightMoves(c: Cur, pp: nat, mps: nat, mpd: nat, dstKi: nat): Cur {
    if c.ppg == pp && c.pg == mps then
      if c.ki == 0 then Cur(c.ppg, if c.pki > 0 then c.pki - 1 else 0, mpd, dstKi) else c.(ki := c.ki - 1)
    else c
  }

  lemma BorrowRightFollows<T>(f: Family<T>, c: Cur, pki: nat)
    requires FamilyOk(f) && pki + 1 < |f.kids| && |f.pages[f.kids[pki + 1]]| > 0 && Resolves(f, c)
    ensures Follows(f, c, BorrowedRight(f, pki),
                    BorrowRightMoves(c, f.pp, f.kids[pki + 1], f.kids[pki], |f.pages[f.kids[pki]]|))
  {
    assert f.kids[pki] != f.kids[pki + 1];
    if c.ppg == f.pp && c.pg == f.kids[pki + 1] {
      assert c.pki == pki + 1;
    }
  }

  /** The fix-up in `mdb_node_move`. */
  method AfterMove<T>(cs: array<Cur>, ghost f: Family<T>, pp: nat, ghost pki: nat, mps: nat, mpd: nat, srcKi: nat, dstKi: nat,
                      fromLeft: bool)
    requires FamilyOk(f) && f.pp == pp && pki < |f.kids| && f.kids[pki] == mpd
    requires if fromLeft
             then pki > 0 && f.kids[pki - 1] == mps && |f.pages[mps]| > 0 && srcKi == |f.pages[mps]| - 1 && dstKi == 0
             else pki + 1 < |f.kids| && f.kids[pki + 1] == mps && |f.pages[mps]| > 0 && srcKi == 0 && dstKi == |f.pages[mpd]|
    requires forall k | 0 <= k < cs.Length :: Resolves(f, cs[k])
    modifies cs
    ensures forall k | 0 <= k < cs.Length ::
              Follows(f, old(cs[k]), if fromLeft then BorrowedLeft(f, pki) else BorrowedRight(f, pki), cs[k])
  {
    hide Follows, BorrowedLeft, BorrowedRight;
    var k := 0;
    while k < cs.Length
      invariant 0 <= k <= cs.Length
      invariant forall j | k <= j < cs.Length :: cs[j] == old(cs[j])
      invariant forall j | 0 <= j < k ::
                  Follows(f, old(cs[j]), if fromLeft then BorrowedLeft(f, pki) else BorrowedRight(f, pki), cs[j])
    {
      if fromLeft {
        BorrowLeftFollows(f, cs[k], pki);
        cs[k] := BorrowLeftMoves(cs[k], pp, mps, mpd, srcKi);
      } else {
        BorrowRightFollows(f, cs[k], pki);
        cs[k] := BorrowRightMoves(cs[k], pp, mps, mpd, dstKi);
      }
      k := k + 1;
    }
  }

  // ---------------------------------------------------------------- a merge

  /** The family after child pki + 1 was merged into child pki. */
  ghost function MergedRight<T>(f: Family<T>, pki: nat): Family<T>
    requires FamilyOk(f) && pki + 1 < |f.kids|
  {
    var psrc, pdst := f.kids[pki + 1], f.kids[pki];
    Family(f.pp, f.kids[..pki + 1] + f.kids[pki + 2..], f.pages[pdst := f.pages[pdst] + f.pages[psrc]] - {psrc})
  }

  function MergeMoves(c: Cur, pp: nat, srcPki: nat, dstPki: nat, psrc: nat, pdst: nat, nkeys: nat): Cur {
    if c.ppg == pp && c.pg == psrc then Cur(pp, dstPki, pdst, c.ki + nkeys)
    else if c.ppg == pp && c.pki > srcPki then c.(pki := c.pki - 1)
    else c
  }

  lemma MergeFollows<T>(f: Family<T>, c: Cur, pki: nat)
    requires FamilyOk(f) && pki + 1 < |f.kids| && Resolves(f, c)
    ensures Follows(f, c, MergedRight(f, pki),
                    MergeMoves(c, f.pp, pki + 1, pki, f.kids[pki + 1], f.kids[pki], |f.pages[f.kids[pki]]|))
  {
    var g := MergedRight(f, pki);
    assert f.kids[pki] != f.kids[pki + 1];
    assert forall k | 0 <= k < |g.kids| :: g.kids[k] == if k <= pki then f.kids[k] else f.kids[k + 1];
    if c.ppg == f.pp && c.pg != f.kids[pki + 1] {
      assert c.pki != pki + 1;
      assert c.pg == f.kids[pki] ==> c.pki == pki;
    }
  }

  /** The fix-up in `mdb_page_merge`. */
  method AfterMerge<T>(cs: array<Cur>, ghost f: Family<T>, pp: nat, srcPki: nat, dstPki: nat, psrc: nat, pdst: nat, nkeys: nat)
    requires FamilyOk(f) && f.pp == pp && srcPki == dstPki + 1 < |f.kids|
    requires f.kids[srcPki] == psrc && f.kids[dstPki] == pdst && nkeys == |f.pages[pdst]|
    requires forall k | 0 <= k < cs.Length :: Resolves(f, cs[k])
    modifies cs
    ensures forall k | 0 <= k < cs.Length :: Follows(f, old(cs[k]), MergedRight(f, dstPki), cs[k])
  {
    hide Follows, MergedRight;
    var k := 0;
    while k < cs.Length
      invariant 0 <= k <= cs.Length
      invariant forall j | k <= j < cs.Length :: cs[j] == old(cs[j])
      invariant forall j | 0 <= j < k :: Follows(f, old(cs[j]), MergedRight(f, dstPki), cs[j])
    {
      MergeFollows(f, cs[k], dstPki);
      cs[k] := MergeMoves(cs[k], pp, srcPki, dstPki, psrc, pdst, nkeys);
      k := k + 1;
    }
  }

  // ---------------------------------------------------------------- a deletion

  /** The family after node i of page mp was deleted. */
  ghost function DeletedFrom<T>(f: Family<T>, mp: nat, i: nat): Family<T>
    requires mp in f.pages && i < |f.pages[mp]|
  {
    f.(pages := f.pages[mp := f.pages[mp][..i] + f.pages[mp][i + 1..]])
  }

  /** The fix-up in `mdb_cursor_del0`: cursors on the deleted node are flagged C_DEL, and stay where
      the next node has come; all others follow theirs. */
  method AfterDel<T>(cs: array<Cur>, del: array<bool>, ghost f: Family<T>, mp: nat, i: nat)
    requires del.Length == cs.Length && mp in f.pages && i < |f.pages[mp]|
    requires forall k | 0 <= k < cs.Length :: Resolves(f, cs[k])
    modifies cs, del
    ensures forall k | 0 <= k < cs.Length ::
              if old(cs[k]).pg == mp && old(cs[k]).ki == i then cs[k] == old(cs[k]) && del[k]
              else Follows(f, old(cs[k]), DeletedFrom(f, mp, i), cs[k]) && del[k] == old(del[k])
  {
    var k := 0;
    while k < cs.Length
      invariant 0 <= k <= cs.Length
      invariant forall j | k <= j < cs.Length :: cs[j] == old(cs[j]) && del[j] == old(del[j])
      invariant forall j | 0 <= j < k ::
                  if old(cs[j]).pg == mp && old(cs[j]).ki == i then cs[j] == old(cs[j]) && del[j]
                  else Follows(f, old(cs[j]), DeletedFrom(f, mp, i), cs[j]) && del[j] == old(del[j])
    {
      if cs[k].pg == mp {
        if cs[k].ki == i {
          del[k] := true;
        } else if cs[k].ki > i {
          cs[k] := cs[k].(ki := cs[k].ki - 1);
        }
      }
      k := k + 1;
    }
  }
}
