/** Copying an environment with compaction (mdb_env_cwalk and mdb_env_copyfd1, mdb.c). The double buffer
    between the two threads is one file that only grows. */
module CompactCopy {
  import opened Options
  import opened PageTrees
  import opened Seqs

  // ---------------------------------------------------------------- what the copy is to be

  /** The tree with new page numbers, children before parents, the first one p. */
  ghost function Renumbered(t: Tree, p: Pgno): Tree
    decreases t
  {
    Tree(p + Size(t.nodes), t.leaf, Copied(t.nodes, p))
  }

  ghost function Copied(ns: seq<Node>, p: Pgno): seq<Node>
    decreases ns
  {
    if ns == [] then []
    else
      var k := |ns| - 1;
      Copied(ns[..k], p) + [CopiedNode(ns[k], p + Size(ns[..k]))]
  }

  ghost function CopiedNode(n: Node, p: Pgno): Node
    decreases n
  {
    match n
    case Plain(_, _) => n
    case Big(k, s, _, chunks) => Big(k, s, p, chunks)
    case Link(k, t) => Link(k, Renumbered(t, p))
    case Sub(k, db, r) => Sub(k, db, if r.Some? then Some(Renumbered(r.value, p)) else None)
  }

  /** The pages in the order they are written. */
  ghost function Written(t: Tree, p: Pgno): seq<Cell>
    decreases t
  {
    WrittenAll(t.nodes, p) + [Page(p + Size(t.nodes), t.leaf, Entries(Copied(t.nodes, p)))]
  }

  ghost function WrittenAll(ns: seq<Node>, p: Pgno): seq<Cell>
    decreases ns
  {
    if ns == [] then []
    else
      var k := |ns| - 1;
      WrittenAll(ns[..k], p) + WrittenNode(ns[k], p + Size(ns[..k]))
  }

  ghost function WrittenNode(n: Node, p: Pgno): seq<Cell>
    decreases n
  {
    match n
    case Plain(_, _) => []
    case Big(_, _, _, chunks) => RunCells(p, chunks)
    case Link(_, t) => Written(t, p)
    case Sub(_, _, r) => if r.Some? then Written(r.value, p) else []
  }

  ghost function RunCells(p: Pgno, chunks: seq<Bytes>): (r: seq<Cell>)
    ensures |r| == |chunks|
  {
    if chunks == [] then [] else [Overflow(p, |chunks|, chunks[0])] + seq(|chunks| - 1, i requires 0 <= i < |chunks| - 1 => Rest(chunks[i + 1]))
  }

  // ---------------------------------------------------------------- that it is a copy

  lemma {:induction false} WrittenLength(t: Tree, p: Pgno)
    ensures |Written(t, p)| == Pages(t)
    decreases t
  {
    WrittenAllLength(t.nodes, p);
  }

  lemma {:induction false} WrittenAllLength(ns: seq<Node>, p: Pgno)
    ensures |WrittenAll(ns, p)| == Size(ns)
    decreases ns
  {
    if ns != [] {
      var k := |ns| - 1;
      WrittenAllLength(ns[..k], p);
      WrittenNodeLength(ns[k], p + Size(ns[..k]));
    }
  }

  lemma {:induction false} WrittenNodeLength(n: Node, p: Pgno)
    ensures |WrittenNode(n, p)| == NodeSize(n)
    decreases n
  {
    match n
    case Plain(_, _) =>
    case Big(_, _, _, _) =>
    case Link(_, t) => WrittenLength(t, p);
    case Sub(_, _, r) => if r.Some? { WrittenLength(r.value, p); }
  }

  lemma {:induction false} CopiedAt(ns: seq<Node>, p: Pgno, k: nat)
    requires k < |ns|
    ensures |Copied(ns, p)| == |ns| && Copied(ns, p)[k] == CopiedNode(ns[k], p + Size(ns[..k]))
    decreases |ns|
  {
    var m := |ns| - 1;
    CopiedLength(ns, p);
    CopiedLength(ns[..m], p);
    if k < m {
      CopiedAt(ns[..m], p, k);
      assert ns[..m][..k] == ns[..k];
    }
  }

  lemma {:induction false} CopiedLength(ns: seq<Node>, p: Pgno)
    ensures |Copied(ns, p)| == |ns|
    decreases |ns|
  {
    if ns != [] { CopiedLength(ns[..|ns| - 1], p); }
  }

  lemma CopiedStep(ns: seq<Node>, p: Pgno, k: nat)
    requires k < |ns|
    ensures Copied(ns[..k + 1], p) == Copied(ns[..k], p) + [CopiedNode(ns[k], p + Size(ns[..k]))]
    ensures WrittenAll(ns[..k + 1], p) == WrittenAll(ns[..k], p) + WrittenNode(ns[k], p + Size(ns[..k]))
  {
    assert ns[..k + 1][..k] == ns[..k];
  }

  /** The copy has the keys and values of the original. */
  lemma {:induction false} CopySame(t: Tree, p: Pgno)
    ensures Same(t, Renumbered(t, p))
    decreases t
  {
    CopiedLength(t.nodes, p);
    forall i | 0 <= i < |t.nodes| ensures SameNode(t.nodes[i], Copied(t.nodes, p)[i]) {
      CopiedAt(t.nodes, p, i);
      CopySameNode(t.nodes[i], p + Size(t.nodes[..i]));
    }
  }

  lemma {:induction false} CopySameNode(n: Node, p: Pgno)
    ensures SameNode(n, CopiedNode(n, p))
    decreases n
  {
    match n
    case Plain(_, _) =>
    case Big(_, _, _, _) =>
    case Link(_, t) => CopySame(t, p);
    case Sub(_, _, r) => if r.Some? { CopySame(r.value, p); }
  }

  lemma RangeJoin(p: Pgno, a: nat, b: nat)
    ensures Range(p, a) + Range(p + a, b) == Range(p, a + b)
  {}

  /** The copy uses the page numbers from p on, each once and in this order. */
  lemma {:induction false} CopyUsed(t: Tree, p: Pgno)
    ensures Used(Renumbered(t, p), true) == Range(p, Pages(t))
    decreases t
  {
    CopyUsedAll(t.nodes, p);
    RangeJoin(p, Size(t.nodes), 1);
    assert Range(p + Size(t.nodes), 1) == [p + Size(t.nodes)];
  }

  lemma {:induction false} CopyUsedAll(ns: seq<Node>, p: Pgno)
    ensures UsedBy(Copied(ns, p), true) == Range(p, Size(ns))
    decreases ns
  {
    if ns != [] {
      var k := |ns| - 1;
      CopiedLength(ns[..k], p);
      CopyUsedAll(ns[..k], p);
      CopyUsedNode(ns[k], p + Size(ns[..k]));
      RangeJoin(p, Size(ns[..k]), NodeSize(ns[k]));
      var c := Copied(ns, p);
      assert c[..k] == Copied(ns[..k], p);
    }
  }

  lemma {:induction false} CopyUsedNode(n: Node, p: Pgno)
    ensures UsedByNode(CopiedNode(n, p), true) == Range(p, NodeSize(n))
    decreases n
  {
    match n
    case Plain(_, _) =>
    case Big(_, _, _, _) =>
    case Link(_, t) => CopyUsed(t, p);
    case Sub(_, _, r) => if r.Some? { CopyUsed(r.value, p); }
  }

  /** The written pages hold the copy, wherever in the file the page numbers say they are. */
  lemma {:induction false} CopyHolds(file: seq<Cell>, t: Tree, p: Pgno, h: nat)
    requires p + Pages(t) <= |file| && file[p..p + Pages(t)] == Written(t, p) && Even(t, h)
    ensures Holds(file, Renumbered(t, p))
    decreases t
  {
    WrittenAllLength(t.nodes, p);
    var w, n := Written(t, p), Size(t.nodes);
    assert file[p..p + n] == w[..n] == WrittenAll(t.nodes, p);
    assert file[p + n] == w[n];
    CopyHoldsAll(file, t.nodes, p, h);
  }

  lemma SliceParts(file: seq<Cell>, p: nat, a: seq<Cell>, b: seq<Cell>)
    requires p + |a| + |b| <= |file| && file[p..p + |a| + |b|] == a + b
    ensures file[p..p + |a|] == a && file[p + |a|..p + |a| + |b|] == b
  {
    Parts(a, b);
    var w := file[p..p + |a| + |b|];
    assert file[p..p + |a|] == w[..|a|] && file[p + |a|..p + |a| + |b|] == w[|a|..];
  }

  lemma HoldsSnoc(file: seq<Cell>, ns: seq<Node>, n: Node)
    requires HoldsAll(file, ns) && HoldsNode(file, n)
    ensures HoldsAll(file, ns + [n])
  {
    hide HoldsNode;
  }

  lemma NoneHeld(file: seq<Cell>, p: Pgno)
    ensures HoldsAll(file, Copied([], p))
  {}

  lemma EvenParts(ns: seq<Node>, h: nat)
    requires EvenAll(ns, h) && ns != []
    ensures EvenAll(ns[..|ns| - 1], h) && EvenNode(ns[|ns| - 1], h)
  {
    hide EvenNode;
  }

  lemma {:induction false} CopyHoldsAll(file: seq<Cell>, ns: seq<Node>, p: Pgno, h: nat)
    requires p + Size(ns) <= |file| && file[p..p + Size(ns)] == WrittenAll(ns, p) && EvenAll(ns, h)
    ensures HoldsAll(file, Copied(ns, p))
    decreases ns
  {
    hide *;
    if ns == [] {
      NoneHeld(file, p);
    } else {
      var k := |ns| - 1;
      var m, n := Size(ns[..k]), NodeSize(ns[k]);
      assert ns[..k + 1] == ns;
      SizeStep(ns, k);
      CopiedStep(ns, p, k);
      EvenParts(ns, h);
      WrittenAllLength(ns[..k], p);
      WrittenNodeLength(ns[k], p + m);
      SliceParts(file, p, WrittenAll(ns[..k], p), WrittenNode(ns[k], p + m));
      CopyHoldsAll(file, ns[..k], p, h);
      CopyHoldsNode(file, ns[k], p + m, h);
      HoldsSnoc(file, Copied(ns[..k], p), CopiedNode(ns[k], p + m));
    }
  }

  lemma {:induction false} CopyHoldsNode(file: seq<Cell>, n: Node, p: Pgno, h: nat)
    requires p + NodeSize(n) <= |file| && file[p..p + NodeSize(n)] == WrittenNode(n, p) && EvenNode(n, h)
    ensures HoldsNode(file, CopiedNode(n, p))
    decreases n
  {
    match n
    case Plain(_, _) =>
    case Big(_, _, _, chunks) => RunHolds(file, p, chunks);
    case Link(_, t) => CopyHolds(file, t, p, h - 1);
    case Sub(_, db, r) => if r.Some? { CopyHolds(file, r.value, p, db.depth); }
  }

  lemma RunHolds(file: seq<Cell>, p: Pgno, chunks: seq<Bytes>)
    requires |chunks| > 0 && p + |chunks| <= |file| && file[p..p + |chunks|] == RunCells(p, chunks)
    ensures RunAt(file, p, chunks)
  {
    var w := file[p..p + |chunks|];
    forall k | 1 <= k < |chunks| ensures file[p + k] == Rest(chunks[k]) {
      assert file[p + k] == w[k] == RunCells(p, chunks)[k];
    }
    assert file[p] == w[0];
  }

  // ---------------------------------------------------------------- the walk

  /** A page of the cursor stack: its entries, in a copy that may be written to, and the index. */
  datatype Frame = Frame(leaf: bool, entries: seq<Entry>, ki: nat)

  /** The tree of a page on the stack, the first page number given to its children, and how many of
      them are copied. */
  datatype Level = Level(tree: Tree, start: Pgno, copied: nat)

  /** The levels lead from the tree t down to c, whose pages get the numbers from s on. */
  ghost predicate Chain(src: seq<Cell>, lv: seq<Level>, t: Tree, h: nat, p: Pgno, c: Tree, s: Pgno) {
    && |lv| < h && Even(c, h - |lv|) && Holds(src, c)
    && if lv == [] then c == t && s == p
       else
         var k := |lv| - 1;
         && Under(lv[k], c, s)
         && Chain(src, lv[..k], t, h, p, lv[k].tree, lv[k].start)
  }

  ghost predicate Under(l: Level, c: Tree, s: Pgno) {
    && !l.tree.leaf && l.copied < |l.tree.nodes| && l.tree.nodes[l.copied].Link?
    && l.tree.nodes[l.copied].page == c && s == l.start + Size(l.tree.nodes[..l.copied])
  }

  /** The first k entries have their new page numbers. */
  ghost function Mixed(ns: seq<Node>, p: Pgno, k: nat): seq<Entry>
    requires k <= |ns|
  {
    Entries(Copied(ns[..k], p)) + Entries(ns[k..])
  }

  ghost predicate LevelFits(out: seq<Cell>, f: Frame, l: Level) {
    && l.copied < |l.tree.nodes|
    && f == Frame(false, Mixed(l.tree.nodes, l.start, l.copied), l.copied)
    && Wrote(out, l.tree.nodes[..l.copied], l.start)
  }

  ghost predicate Wrote(out: seq<Cell>, ns: seq<Node>, p: Pgno) {
    p + Size(ns) <= |out| && out[p..p + Size(ns)] == WrittenAll(ns, p)
  }

  ghost predicate StackFits(out: seq<Cell>, stack: seq<Frame>, lv: seq<Level>) {
    |stack| == |lv| && forall i | 0 <= i < |lv| :: LevelFits(out, stack[i], lv[i])
  }

  /** The page on top: k of its children are written, and nothing after them. */
  ghost predicate TopFits(out: seq<Cell>, entries: seq<Entry>, c: Tree, s: Pgno, k: nat) {
    && k <= |c.nodes| && entries == Mixed(c.nodes, s, k)
    && Wrote(out, c.nodes[..k], s) && |out| == s + Size(c.nodes[..k])
  }

  lemma MixedNone(ns: seq<Node>, p: Pgno)
    ensures Mixed(ns, p, 0) == Entries(ns)
  {
    assert ns[..0] == [] && ns[0..] == ns;
  }

  lemma MixedAll(ns: seq<Node>, p: Pgno)
    ensures Mixed(ns, p, |ns|) == Entries(Copied(ns, p))
  {
    assert ns[..|ns|] == ns && ns[|ns|..] == [];
  }

  lemma MixedAt(ns: seq<Node>, p: Pgno, k: nat)
    requires k < |ns|
    ensures |Mixed(ns, p, k)| == |ns| && Mixed(ns, p, k)[k] == EntryOf(ns[k])
    ensures Mixed(ns, p, k + 1) == Mixed(ns, p, k)[k := EntryOf(CopiedNode(ns[k], p + Size(ns[..k])))]
  {
    CopiedLength(ns[..k], p);
    CopiedLength(ns[..k + 1], p);
    CopiedStep(ns, p, k);
  }

  lemma WroteMore(out: seq<Cell>, more: seq<Cell>, ns: seq<Node>, p: Pgno)
    requires Wrote(out, ns, p)
    ensures Wrote(out + more, ns, p)
  {
    assert (out + more)[p..p + Size(ns)] == out[p..p + Size(ns)];
  }

  lemma StackKept(out: seq<Cell>, more: seq<Cell>, stack: seq<Frame>, lv: seq<Level>)
    requires StackFits(out, stack, lv)
    ensures StackFits(out + more, stack, lv)
  {
    hide Wrote, Mixed;
    forall i | 0 <= i < |lv| ensures LevelFits(out + more, stack[i], lv[i]) {
      WroteMore(out, more, lv[i].tree.nodes[..lv[i].copied], lv[i].start);
    }
  }

  lemma WroteIf(out: seq<Cell>, ns: seq<Node>, p: Pgno)
    ensures Wrote(out, ns, p) <==> p + Size(ns) <= |out| && out[p..p + Size(ns)] == WrittenAll(ns, p)
  {
    hide Size, WrittenAll;
  }

  lemma SliceMore(out: seq<Cell>, w: seq<Cell>, p: nat)
    requires p <= |out|
    ensures out[p..|out|] + w == (out + w)[p..|out| + |w|]
  {}

  lemma WroteNode(out: seq<Cell>, ns: seq<Node>, p: Pgno, k: nat)
    requires k < |ns| && Wrote(out, ns[..k], p) && |out| == p + Size(ns[..k])
    ensures var o := out + WrittenNode(ns[k], |out|); Wrote(o, ns[..k + 1], p) && |o| == p + Size(ns[..k + 1])
  {
    hide *;
    var w := WrittenNode(ns[k], |out|);
    SizeStep(ns, k);
    CopiedStep(ns, p, k);
    WrittenNodeLength(ns[k], |out|);
    WroteIf(out, ns[..k], p);
    WroteIf(out + w, ns[..k + 1], p);
    SliceMore(out, w, p);
  }

  /** The numbers below the page on top are those left for it. */
  lemma {:induction false} ChainBound(src: seq<Cell>, lv: seq<Level>, t: Tree, h: nat, p: Pgno, c: Tree, s: Pgno)
    requires Chain(src, lv, t, h, p, c, s)
    ensures p <= s && s + Pages(c) <= p + Pages(t) && Size(c.nodes) < Pages(t)
    decreases |lv|
  {
    hide Holds, Even;
    if lv != [] {
      var k := |lv| - 1;
      var l := lv[k];
      SizeStep(l.tree.nodes, l.copied);
      SizeTake(l.tree.nodes, l.copied + 1);
      ChainBound(src, lv[..k], t, h, p, l.tree, l.start);
    }
  }

  lemma ChainPush(src: seq<Cell>, lv: seq<Level>, t: Tree, h: nat, p: Pgno, c: Tree, s: Pgno, k: nat)
    requires Chain(src, lv, t, h, p, c, s) && !c.leaf && k < |c.nodes|
    ensures c.nodes[k].Link?
    ensures var q := s + Size(c.nodes[..k]); Chain(src, lv + [Level(c, s, k)], t, h, p, c.nodes[k].page, q)
  {
    hide Size;
    ChainPage(src, lv, t, h, p, c, s);
    assert HoldsNode(src, c.nodes[k]) && EvenNode(c.nodes[k], h - |lv|);
    assert (lv + [Level(c, s, k)])[..|lv|] == lv;
  }

  lemma ChainPage(src: seq<Cell>, lv: seq<Level>, t: Tree, h: nat, p: Pgno, c: Tree, s: Pgno)
    requires Chain(src, lv, t, h, p, c, s)
    ensures |lv| < h && c.pgno < |src| && src[c.pgno] == Page(c.pgno, c.leaf, Entries(c.nodes))
    ensures c.leaf == (|lv| + 1 == h) && (c.leaf || c.nodes != [])
    ensures HoldsAll(src, c.nodes) && EvenAll(c.nodes, h - |lv|)
    ensures lv == [] ==> c == t && s == p
    ensures lv != [] ==>
              var k := |lv| - 1;
              Under(lv[k], c, s) && Chain(src, lv[..k], t, h, p, lv[k].tree, lv[k].start) && !lv[k].tree.leaf
  {}

  /** The page on top is complete and written. */
  lemma PageWritten(out: seq<Cell>, entries: seq<Entry>, c: Tree, s: Pgno)
    requires TopFits(out, entries, c, s, |c.nodes|)
    ensures var o := out + [Page(|out|, c.leaf, entries)]; |o| == s + Pages(c) && o[s..] == Written(c, s)
  {
    MixedAll(c.nodes, s);
    assert c.nodes[..|c.nodes|] == c.nodes;
    var o := out + [Page(|out|, c.leaf, entries)];
    assert o[s..] == out[s..] + [Page(|out|, c.leaf, entries)];
  }

  function SetPgno(e: Entry, p: Pgno): Entry
    requires e.Child?
  {
    Child(e.key, p)
  }

  /** What was written before the page that was just finished. */
  lemma WroteBefore(out: seq<Cell>, f: Frame, l: Level, c: Tree, s: Pgno)
    requires LevelFits(out, f, l) && Under(l, c, s) && |out| == s + Pages(c) && out[s..] == Written(c, s)
    ensures var base, ns := out[..s], l.tree.nodes;
            && l.copied < |ns| && ns[l.copied].Link? && ns[l.copied].page == c && s == l.start + Size(ns[..l.copied])
            && f == Frame(false, Mixed(ns, l.start, l.copied), l.copied)
            && Wrote(base, ns[..l.copied], l.start) && |base| == s && out == base + Written(c, s)
  {
    hide Mixed, Written, WrittenAll;
    var base := out[..s];
    assert base[l.start..] == out[l.start..s];
    assert out == base + Written(c, s);
  }

  lemma LinkWritten(n: Node, c: Tree, s: Pgno)
    requires n.Link? && n.page == c
    ensures WrittenNode(n, s) == Written(c, s) && EntryOf(n).Child?
    ensures EntryOf(CopiedNode(n, s)) == SetPgno(EntryOf(n), s + Pages(c) - 1)
  {
    LastNumber(c, s);
    hide Written;
  }

  lemma TopIs(out: seq<Cell>, entries: seq<Entry>, c: Tree, s: Pgno, k: nat)
    requires k <= |c.nodes| && entries == Mixed(c.nodes, s, k) && Wrote(out, c.nodes[..k], s) && |out| == s + Size(c.nodes[..k])
    ensures TopFits(out, entries, c, s, k)
  {
    hide Mixed, Wrote, Size;
  }

  lemma Climb(out: seq<Cell>, f: Frame, l: Level, c: Tree, s: Pgno)
    requires LevelFits(out, f, l) && Under(l, c, s) && |out| == s + Pages(c) && out[s..] == Written(c, s)
    ensures f.ki == l.copied < |f.entries| == |l.tree.nodes| && f.entries[f.ki].Child?
    ensures TopFits(out, f.entries[f.ki := SetPgno(f.entries[f.ki], |out| - 1)], l.tree, l.start, l.copied + 1)
  {
    WroteBefore(out, f, l, c, s);
    hide *;
    var base, ns := out[..s], l.tree.nodes;
    MixedAt(ns, l.start, l.copied);
    LinkWritten(ns[l.copied], c, s);
    WroteNode(base, ns, l.start, l.copied);
    TopIs(out, f.entries[f.ki := SetPgno(f.entries[f.ki], |out| - 1)], l.tree, l.start, l.copied + 1);
  }

  class Copier {
    const src: seq<Cell>
    /** What is written, the meta pages included; my->mc_next_pgno. */
    var out: seq<Cell>
    var next: Pgno

    constructor (src: seq<Cell>, out: seq<Cell>, next: Pgno)
      ensures this.src == src && this.out == out && this.next == next
    {
      this.src, this.out, this.next := src, out, next;
    }

    /** Down to the first leaf below a page. */
    method FirstLeaf(pgno: Pgno, above: seq<Frame>, ghost lvAbove: seq<Level>, ghost t: Tree, ghost h: nat, ghost p: Pgno, ghost top: Tree)
      returns (stack: seq<Frame>, cur: Frame, ghost lv: seq<Level>, ghost c: Tree)
      requires Chain(src, lvAbove, t, h, p, top, |out|) && top.pgno == pgno && StackFits(out, above, lvAbove)
      ensures Chain(src, lv, t, h, p, c, |out|) && c.leaf && StackFits(out, stack, lv)
      ensures TopFits(out, cur.entries, c, |out|, 0) && cur == Frame(true, Entries(c.nodes), 0)
      ensures |stack| == |lv| == h - 1
    {
      hide Chain, StackFits, LevelFits, Under, Mixed, Holds;
      stack, lv, c := above, lvAbove, top;
      ChainPage(src, lv, t, h, p, c, |out|);
      MixedNone(c.nodes, |out|);
      cur := Frame(src[pgno].leaf, src[pgno].entries, 0);
      while !cur.leaf
        invariant Chain(src, lv, t, h, p, c, |out|) && StackFits(out, stack, lv) && |lv| < h
        invariant cur == Frame(c.leaf, Entries(c.nodes), 0) && cur.entries == Mixed(c.nodes, |out|, 0)
        decreases h - |lv|
      {
        ChainPage(src, lv, t, h, p, c, |out|);
        ChainPush(src, lv, t, h, p, c, |out|, 0);
        PushFits(out, stack, lv, cur, c);
        stack := stack + [cur];
        lv, c := lv + [Level(c, |out|, 0)], c.nodes[0].page;
        ChainPage(src, lv, t, h, p, c, |out|);
        MixedNone(c.nodes, |out|);
        var page := src[cur.entries[0].pgno];
        cur := Frame(page.leaf, page.entries, 0);
      }
      ChainPage(src, lv, t, h, p, c, |out|);
      SameStack(out, stack, lv);
    }

    /** `mdb_env_cwalk` on a database that is not empty. */
    method Walk(root: Pgno, ghost t: Tree, ghost h: nat) returns (r: Pgno)
      requires Holds(src, t) && Even(t, h) && t.pgno == root && next == |out|
      modifies this
      ensures out == old(out) + Written(t, |old(out)|) && next == |out| && |out| > 0 && r == next - 1
      decreases Pages(t), 0
    {
      hide *;
      ghost var p: nat, s: nat, k: nat := next, next, 0;
      ghost var was := out;
      RootChain(src, t, h, p);
      NoStack(out);
      var stack, cur;
      ghost var lv, c;
      stack, cur, lv, c := FirstLeaf(root, [], [], t, h, p, t);
      var levels := |stack| + 1;
      while true
        invariant next == |out| && p <= |out| && out[..p] == was && p == |was|
        invariant Chain(src, lv, t, h, p, c, s) && StackFits(out, stack, lv) && TopFits(out, cur.entries, c, s, k)
        invariant cur.leaf == c.leaf == (|stack| + 1 == levels) && levels == h
        invariant if c.leaf then k == 0 else k == cur.ki + 1
        decreases p + Pages(t) - |out|, if cur.leaf then 0 else 1
      {
        ChainPage(src, lv, t, h, p, c, s);
        ChainBound(src, lv, t, h, p, c, s);
        ghost var before := out;
        TopBound(out, stack, lv, cur, c, s, k);
        if cur.leaf {
          var entries := CopyLeaf(cur.entries, c.nodes, h - |lv|);
          LeafCopied(before, stack, lv, cur, c, s);
          cur := cur.(entries := entries);
          assert out[..p] == before[..p];
        } else {
          cur := cur.(ki := cur.ki + 1);
          NextDown(src, out, stack, lv, t, h, p, c, s, k, cur);
          if cur.ki < |cur.entries| {
            stack, cur, lv, c := FirstLeaf(cur.entries[cur.ki].pgno, stack + [cur], lv + [Level(c, s, k)], t, h, p, c.nodes[k].page);
            s, k := |out|, 0;
            continue;
          }
        }
        PageDone(src, out, stack, lv, t, h, p, c, s, cur);
        out := out + [Page(next, cur.leaf, cur.entries)];
        next := next + 1;
        assert out[..p] == was;
        if stack == [] {
          assert out == was + out[p..];
          return next - 1;
        }
        var top := |stack| - 1;
        var f := stack[top];
        cur := f.(entries := f.entries[f.ki := SetPgno(f.entries[f.ki], next - 1)]);
        c, s, k := lv[top].tree, lv[top].start, lv[top].copied + 1;
        stack, lv := stack[..top], lv[..top];
      }
    }

    /** The nodes of a leaf: overflow pages and other databases are copied before it. */
    method CopyLeaf(entries: seq<Entry>, ghost ns: seq<Node>, ghost h: nat) returns (r: seq<Entry>)
      requires entries == Entries(ns) && HoldsAll(src, ns) && EvenAll(ns, h) && h == 1 && next == |out|
      modifies this
      ensures out == old(out) + WrittenAll(ns, |old(out)|) && next == |out|
      ensures r == Entries(Copied(ns, |old(out)|))
      decreases Size(ns), 1
    {
      hide WrittenAll, Copied, Size, Mixed, Holds, Even, RunAt, Written;
      ghost var was, s := out, next;
      r := entries;
      NothingCopied(ns, s);
      var i := 0;
      while i < |entries|
        invariant 0 <= i <= |entries| == |r|
        invariant r == Mixed(ns, s, i) && next == |out| == s + Size(ns[..i])
        invariant out == was + WrittenAll(ns[..i], s)
      {
        ghost var before := out;
        assert HoldsNode(src, ns[i]) && EvenNode(ns[i], h);
        MixedAt(ns, s, i);
        CopiedStep(ns, s, i);
        SizeStep(ns, i);
        SizeTake(ns, i + 1);
        WrittenNodeLength(ns[i], next);
        match entries[i] {
          case BigData(key, size, pg) =>
            RunCopied(src, next, pg, ns[i].chunks);
            var first := src[pg];
            r := r[i := BigData(key, size, next)];
            out := out + [Overflow(next, first.pages, first.bytes)];
            if first.pages > 1 {
              out := out + src[pg + 1..pg + first.pages];
            }
            next := next + first.pages;
          case SubDb(key, db, root) =>
            if root.Some? {
              ghost var t := ns[i].root.value;
              LastNumber(t, next);
              var at := Walk(root.value, t, db.depth);
              r := r[i := SubDb(key, db, Some(at))];
            }
          case Value(_, _) =>
        }
        assert out == before + WrittenNode(ns[i], |before|);
        i := i + 1;
      }
      assert ns[..i] == ns;
      MixedAll(ns, s);
    }
  }

  lemma NothingCopied(ns: seq<Node>, s: Pgno)
    ensures Entries(ns) == Mixed(ns, s, 0) && WrittenAll(ns[..0], s) == [] && Size(ns[..0]) == 0
  {
    MixedNone(ns, s);
  }

  lemma RunFirst(src: seq<Cell>, next: Pgno, p: Pgno, chunks: seq<Bytes>)
    requires RunAt(src, p, chunks)
    ensures |chunks| > 0 && p + |chunks| <= |src| && src[p] == Overflow(p, |chunks|, chunks[0])
    ensures |RunCells(next, chunks)| == |chunks| && RunCells(next, chunks)[0] == Overflow(next, |chunks|, chunks[0])
  {}

  lemma RunCellAt(next: Pgno, chunks: seq<Bytes>, k: nat)
    requires 1 <= k < |chunks|
    ensures RunCells(next, chunks)[k] == Rest(chunks[k])
  {
    hide RunAt;
  }

  lemma RunRest(src: seq<Cell>, next: Pgno, p: Pgno, chunks: seq<Bytes>, k: nat)
    requires RunAt(src, p, chunks) && 1 <= k < |chunks|
    ensures p + k < |src| && src[p + k] == RunCells(next, chunks)[k]
  {
    hide RunCells;
    RunCellAt(next, chunks, k);
  }

  lemma RunCopied(src: seq<Cell>, next: Pgno, p: Pgno, chunks: seq<Bytes>)
    requires RunAt(src, p, chunks)
    ensures |chunks| > 0 && p + |chunks| <= |src| && src[p] == Overflow(p, |chunks|, chunks[0])
    ensures RunCells(next, chunks) == [Overflow(next, |chunks|, chunks[0])] + src[p + 1..p + |chunks|]
  {
    hide *;
    RunFirst(src, next, p, chunks);
    var r := RunCells(next, chunks);
    var a := [Overflow(next, |chunks|, chunks[0])] + src[p + 1..p + |chunks|];
    forall k | 0 <= k < |r| ensures r[k] == a[k] {
      if k > 0 { RunRest(src, next, p, chunks, k); }
    }
  }

  lemma LastNumber(t: Tree, p: Pgno)
    ensures |Written(t, p)| == Pages(t) && Renumbered(t, p).pgno == p + Pages(t) - 1
  {
    WrittenLength(t, p);
  }

  /** The page on top is complete: with it written, its parent is the page on top, or all is done. */
  lemma PageDone(src: seq<Cell>, out: seq<Cell>, stack: seq<Frame>, lv: seq<Level>,
                 t: Tree, h: nat, p: Pgno, c: Tree, s: Pgno, cur: Frame)
    requires Chain(src, lv, t, h, p, c, s) && StackFits(out, stack, lv) && TopFits(out, cur.entries, c, s, |c.nodes|)
    requires cur.leaf == c.leaf
    ensures var o := out + [Page(|out|, cur.leaf, cur.entries)]; var top := |stack| - 1;
            if stack == [] then p <= |o| && o[p..] == Written(t, p)
            else
              var f := stack[top];
              && |lv| == |stack| && f.ki == lv[top].copied < |f.entries| && !f.leaf && f.entries[f.ki].Child? && !lv[top].tree.leaf
              && Chain(src, lv[..top], t, h, p, lv[top].tree, lv[top].start)
              && StackFits(o, stack[..top], lv[..top])
              && TopFits(o, f.entries[f.ki := SetPgno(f.entries[f.ki], |o| - 1)], lv[top].tree, lv[top].start, lv[top].copied + 1)
  {
    hide Chain, StackFits, LevelFits, Under, TopFits, Holds, Even, Written;
    var o := out + [Page(|out|, cur.leaf, cur.entries)];
    ChainPage(src, lv, t, h, p, c, s);
    PageWritten(out, cur.entries, c, s);
    StackKept(out, [Page(|out|, cur.leaf, cur.entries)], stack, lv);
    SameStack(o, stack, lv);
    if stack != [] {
      TopLevel(o, stack, lv);
      Climb(o, stack[|stack| - 1], lv[|stack| - 1], c, s);
    }
  }

  lemma RootChain(src: seq<Cell>, t: Tree, h: nat, p: Pgno)
    requires Holds(src, t) && Even(t, h)
    ensures Chain(src, [], t, h, p, t, p)
  {}

  lemma NoStack(out: seq<Cell>)
    ensures StackFits(out, [], [])
  {}

  lemma SameStack(out: seq<Cell>, stack: seq<Frame>, lv: seq<Level>)
    requires StackFits(out, stack, lv)
    ensures |stack| == |lv|
  {}

  lemma TopLevel(out: seq<Cell>, stack: seq<Frame>, lv: seq<Level>)
    requires StackFits(out, stack, lv) && stack != []
    ensures var top := |stack| - 1;
            |lv| == |stack| && LevelFits(out, stack[top], lv[top]) && StackFits(out, stack[..top], lv[..top])
            && stack[top].ki == lv[top].copied && !stack[top].leaf
  {}

  lemma PushFits(out: seq<Cell>, stack: seq<Frame>, lv: seq<Level>, cur: Frame, c: Tree)
    requires StackFits(out, stack, lv) && c.nodes != [] && cur == Frame(false, Mixed(c.nodes, |out|, 0), 0)
    ensures StackFits(out, stack + [cur], lv + [Level(c, |out|, 0)])
    ensures |out| + Size(c.nodes[..0]) == |out|
  {
    assert c.nodes[..0] == [];
    assert LevelFits(out, cur, Level(c, |out|, 0));
    hide LevelFits;
  }

  lemma TopBound(out: seq<Cell>, stack: seq<Frame>, lv: seq<Level>, cur: Frame, c: Tree, s: Pgno, k: nat)
    requires TopFits(out, cur.entries, c, s, k) && StackFits(out, stack, lv)
    ensures k <= |c.nodes| && s <= |out| < s + Pages(c) && |out| == s + Size(c.nodes[..k]) && (k == 0 ==> |out| == s)
    ensures k == 0 ==> cur.entries == Entries(c.nodes)
    ensures |stack| == |lv|
  {
    SizeTake(c.nodes, k);
    if k == 0 { MixedNone(c.nodes, s); }
  }

  /** The next child of a branch page, or none. */
  lemma NextDown(src: seq<Cell>, out: seq<Cell>, stack: seq<Frame>, lv: seq<Level>,
                 t: Tree, h: nat, p: Pgno, c: Tree, s: Pgno, k: nat, cur: Frame)
    requires Chain(src, lv, t, h, p, c, s) && StackFits(out, stack, lv) && TopFits(out, cur.entries, c, s, k)
    requires !c.leaf && !cur.leaf && cur.ki == k
    ensures |cur.entries| == |c.nodes|
    ensures k < |c.nodes| ==>
              && c.nodes[k].Link? && cur.entries[k] == Child(c.nodes[k].key, c.nodes[k].page.pgno)
              && Chain(src, lv + [Level(c, s, k)], t, h, p, c.nodes[k].page, |out|)
              && StackFits(out, stack + [cur], lv + [Level(c, s, k)])
  {
    hide Chain, StackFits, Under, Holds, Even;
    CopiedLength(c.nodes[..k], s);
    if k < |c.nodes| {
      MixedAt(c.nodes, s, k);
      ChainPush(src, lv, t, h, p, c, s, k);
      assert LevelFits(out, cur, Level(c, s, k));
      PushStack(out, stack, lv, cur, Level(c, s, k));
    }
  }

  lemma PushStack(out: seq<Cell>, stack: seq<Frame>, lv: seq<Level>, f: Frame, l: Level)
    requires StackFits(out, stack, lv) && LevelFits(out, f, l)
    ensures StackFits(out, stack + [f], lv + [l])
  {
    hide LevelFits;
  }

  lemma LeafCopied(before: seq<Cell>, stack: seq<Frame>, lv: seq<Level>, cur: Frame, c: Tree, s: Pgno)
    requires StackFits(before, stack, lv) && TopFits(before, cur.entries, c, s, 0)
    ensures var w := WrittenAll(c.nodes, s);
            StackFits(before + w, stack, lv)
            && TopFits(before + w, Entries(Copied(c.nodes, s)), c, s, |c.nodes|)
  {
    var w := WrittenAll(c.nodes, s);
    StackKept(before, w, stack, lv);
    WrittenAllLength(c.nodes, s);
    MixedAll(c.nodes, s);
    assert c.nodes[..0] == [] && c.nodes[..|c.nodes|] == c.nodes;
    assert (before + w)[s..s + |w|] == w;
  }

  // ---------------------------------------------------------------- the whole copy

  ghost function Counted(lists: seq<seq<Pgno>>): nat {
    if lists == [] then 0 else Counted(lists[..|lists| - 1]) + |lists[|lists| - 1]|
  }

  ghost function Listed(lists: seq<seq<Pgno>>): (r: seq<Pgno>)
    ensures |r| == Counted(lists)
  {
    if lists == [] then [] else Listed(lists[..|lists| - 1]) + lists[|lists| - 1]
  }

  /** `mdb_env_copyfd1`: the root that the new meta page names is computed from the number of pages in
      use before the tree is copied, and compared with the root of the copy afterwards. The free lists
      are the data of the freeDB records, freeDbPages its three page counters together. */
  method Copy(src: seq<Cell>, main: Option<Pgno>, nextPgno: Pgno, freeLists: seq<seq<Pgno>>, freeDbPages: nat,
              ghost t: Tree, ghost h: nat)
    returns (ok: bool, file: seq<Cell>, root: Option<int>)
    requires main.Some? ==> Holds(src, t) && Even(t, h) && t.pgno == main.value
    ensures main.None? ==> ok && file == [Meta, Meta] && root == None
    ensures main.Some? ==>
              && file == [Meta, Meta] + Written(t, 2)
              && root == Some(nextPgno - 1 - Counted(freeLists) - freeDbPages)
              && ok == (root == Some(|file| - 1))
  {
    hide Holds, Even, Written;
    file := [Meta, Meta];
    if main.None? {
      return true, file, None;
    }
    var freecount, i := 0, 0;
    while i < |freeLists|
      invariant 0 <= i <= |freeLists| && freecount == Counted(freeLists[..i])
    {
      freecount := freecount + |freeLists[i]|;
      i := i + 1;
      assert freeLists[..i][..i - 1] == freeLists[..i - 1];
    }
    assert freeLists[..i] == freeLists;
    freecount := freecount + freeDbPages;
    var newRoot: int := nextPgno - 1 - freecount;
    var copier := new Copier(src, file, 2);
    var at := copier.Walk(main.value, t, h);
    ok, file, root := at == newRoot, copier.out, Some(newRoot);
  }

  /** What was written is a copy: the same keys and values, in pages 2, 3, 4, ..., each used once, every
      page where its number says, and the root is the last page. */
  lemma CopyIsFaithful(t: Tree, h: nat)
    requires Even(t, h)
    ensures var file, c := [Meta, Meta] + Written(t, 2), Renumbered(t, 2);
            && |file| == 2 + Pages(t) && c.pgno == |file| - 1
            && Holds(file, c) && Same(t, c) && Used(c, true) == Range(2, |file| - 2)
  {
    hide Holds, Same, Even, Written;
    var file := [Meta, Meta] + Written(t, 2);
    WrittenLength(t, 2);
    LastNumber(t, 2);
    assert file[2..2 + Pages(t)] == Written(t, 2);
    CopyHolds(file, t, 2, h);
    CopySame(t, 2);
    CopyUsed(t, 2);
  }

  ghost predicate Distinct(s: seq<Pgno>) {
    forall i, j | 0 <= i < j < |s| :: s[i] != s[j]
  }

  ghost function Elements(s: seq<Pgno>): set<Pgno> {
    set x | x in s
  }

  lemma {:induction false} DistinctCount(s: seq<Pgno>)
    requires Distinct(s)
    ensures |Elements(s)| == |s|
    decreases |s|
  {
    if s == [] {
      assert Elements(s) == {};
    } else {
      var k := |s| - 1;
      DistinctCount(s[..k]);
      assert Elements(s) == Elements(s[..k]) + {s[k]};
    }
  }

  /** The page numbers from lo up to hi, hi excluded. */
  lemma BetweenCount(lo: Pgno, hi: Pgno)
    requires lo <= hi
    ensures var all := Elements(Range(lo, hi - lo)); |all| == hi - lo && forall p :: p in all <==> lo <= p < hi
  {
    var r := Range(lo, hi - lo);
    DistinctCount(r);
    forall p | lo <= p < hi ensures p in r {
      assert r[p - lo] == p;
    }
  }

  lemma {:induction false} SubsetFull(a: set<Pgno>, b: set<Pgno>)
    requires a <= b
    ensures |a| <= |b| && (|a| == |b| <==> a == b)
  {
    assert |b - a| == |b| - |a|;
    if |a| == |b| { assert b - a == {}; }
  }

  /** The check of `mdb_env_copyfd1` finds exactly the page leaks: of pages used once each, all below the
      next page number, the roots agree if and only if no page is missing. The pages are those of the
      main database and all in it, of the freeDB, and in the freeDB's records. */
  lemma RootTellsLeaks(t: Tree, freeDb: seq<Pgno>, freeLists: seq<seq<Pgno>>, nextPgno: Pgno)
    requires nextPgno >= 2
    requires Distinct(Used(t, true) + freeDb + Listed(freeLists))
    requires forall p | p in Used(t, true) + freeDb + Listed(freeLists) :: 2 <= p < nextPgno
    ensures nextPgno - 1 - Counted(freeLists) - |freeDb| == Renumbered(t, 2).pgno
       <==> forall p | 2 <= p < nextPgno :: p in Used(t, true) + freeDb + Listed(freeLists)
  {
    hide Used;
    var s := Used(t, true) + freeDb + Listed(freeLists);
    UsedLength(t);
    LastNumber(t, 2);
    DistinctCount(s);
    BetweenCount(2, nextPgno);
    SubsetFull(Elements(s), Elements(Range(2, nextPgno - 2)));
    assert forall p :: p in Elements(s) <==> p in s;
  }
}
