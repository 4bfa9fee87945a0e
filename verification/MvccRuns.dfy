/** Runs from the created environment that show what a stale id in the header does. */
module MvccRuns {
  import opened Options
  import opened Mvcc
  import opened MvccReach
  import opened MvccInvariant
  import opened MvccSafety
  import opened Upkeep
  import opened MvccTheorems
  import opened MvccJoin

  // ---------------------------------------------------------------- one more page

  lemma {:induction false} LinkedMore(image: map<Pgno, Page>, ts: seq<PageTree>, p: Pgno, c: Page)
    requires Linked(image, ts) && p !in image
    ensures Linked(image[p := c], ts)
    decreases ts
  {
    if ts != [] {
      LinkedMore(image, ts[0].kids, p, c);
      LinkedMore(image, ts[1..], p, c);
    }
  }

  /** The snapshot with one more page, as another root. */
  function Grown(base: Snapshot, t: Txnid, c: Page): Snapshot {
    Snapshot(t, base.roots + [base.next], base.next + 1, base.image[base.next := c], base.free)
  }

  lemma GrownReached(base: Snapshot, t: Txnid, c: Page)
    requires ReachedOnce(base) && base.next !in base.image && c.links == []
    ensures ReachedOnce(Grown(base, t, c))
  {
    var ts: seq<PageTree> :| Spans(base, ts);
    var p, s := base.next, Grown(base, t, c);
    var one := [PageTree(p, [])];
    LinkedMore(base.image, ts, p, c);
    LinkedOne(s.image, p);
    hide Linked, Reached, Tops;
    LinkedAppend(s.image, ts, one);
    TopsAppend(ts, one);
    ReachedAppend(ts, one);
    KeysMore(base.image, p, c);
    assert Tops(one) == [p] by { TopOne(p); }
    assert Spans(s, ts + one);
  }

  lemma TopOne(p: Pgno)
    ensures Tops([PageTree(p, [])]) == [p]
  {}

  lemma KeysMore(image: map<Pgno, Page>, p: Pgno, c: Page)
    requires p !in image
    ensures multiset(image[p := c].Keys) == multiset(image.Keys) + multiset{p}
  {
    assert image[p := c].Keys == image.Keys + {p};
  }

  // ---------------------------------------------------------------- a transaction that adds a page

  /** Where the next writer starts from. */
  function Base(st: State): Snapshot
    requires |st.metas| == 2
  {
    st.metas[st.mti % 2]
  }

  /** Nobody writes, no page is free, and memory holds what the next writer starts from. */
  ghost predicate Plain(st: State) {
    && |st.metas| == 2 && |st.possMeta| == 2 && st.lock.Unlocked?
    && ReachedOnce(Base(st)) && Base(st).free == map[]
    && forall p | p in Base(st).image :: p < Base(st).next && At(st.mem, p) == Base(st).image[p]
  }

  // The states of the transaction, up to its meta page and when it has ended.

  function Begun(st: State, env: nat): (r: State)
    requires |st.metas| == 2
    ensures r.metas == st.metas && r.possMeta == st.possMeta
  {
    SetWriter(st, FirstWriterOf(env, st.mti + 1, Base(st)))
  }

  function Filled(st: State, env: nat, c: Page): State
    requires |st.metas| == 2
  {
    Written(Begun(st, env), Base(st).next, c)
  }

  function Ready(st: State, env: nat, c: Page): (r: State)
    requires |st.metas| == 2
    ensures r.lock.Held? && r.lock.w.pc.Synced? && |r.metas| == 2 && |r.possMeta| == 2
  {
    var g := Filled(st, env, c);
    Flushed(SetWriter(g, g.lock.w.(pc := Saved(Grown(Base(st), st.mti + 1, c)))))
  }

  function Finished(y: State): (r: State)
    requires |y.metas| == 2 && |y.possMeta| == 2 && y.lock.Held? && y.lock.w.pc.Synced?
    ensures |r.metas| == 2 && |r.possMeta| == 2
  {
    MetaWritten(y, y.lock.w.pc.snap, y.lock.w.t % 2, true).(mti := y.lock.w.t, lock := Unlocked)
  }

  function Adds(st: State, c: Page): seq<Action>
    requires |st.metas| == 2
  {
    ([AllocNew] + [WritePage(Base(st).next, c)]) + ([Save(Grown(Base(st), st.mti + 1, c))] + [Sync])
  }

  const Ends := [WriteMeta(true)] + ([Publish] + [Unlock])

  lemma {:induction false} ExecAppend(st: State, a: seq<Action>, b: seq<Action>)
    requires |st.metas| == 2 && |st.possMeta| == 2 && Exec(st, a).Some?
    ensures Exec(st, a + b) == Exec(Exec(st, a).value, b)
    decreases |a|
  {
    if a == [] {
      assert a + b == b;
      ExecNone(st);
    } else {
      ExecHead(st, a);
      assert a + b == [a[0]] + (a[1..] + b);
      hide *;
      ExecCons(st, a[0], a[1..] + b);
      ExecAppend(Do(st, a[0]), a[1..], b);
    }
  }

  /** Nothing was freed and nothing taken from the freeDB, which is empty. */
  lemma NothingFreed(w: Writer)
    requires w.last == 0 && w.head == {} && w.freed == {} && w.base.free == map[]
    ensures SavedFree(w, map[])
  {}

  lemma GrownImage(st: State, c: Page)
    requires Plain(st)
    ensures |st.metas| == 2
    ensures var base, p := Base(st), Base(st).next; var image := base.image[p := c];
            && p !in base.image && image.Keys == base.image.Keys + {p}
            && forall q | q in image :: image[q] == At(st.mem[p := c], q)
  {
    hide ReachedOnce;
  }

  lemma CommitWhole(w: Writer, s: Snapshot, mem: map<Pgno, Page>)
    requires s.id == w.t && s.next == w.next && s.image.Keys == w.tree && ReachedOnce(s) && SavedFree(w, s.free)
    requires forall p | p in s.image :: s.image[p] == At(mem, p)
    ensures Committable(w, s, mem)
  {
    hide ReachedOnce, SavedFree, At;
  }

  lemma FilledWriter(st: State, env: nat, c: Page)
    requires |st.metas| == 2
    ensures var base := Base(st); var w := Filled(st, env, c).lock.w;
            && w.t == st.mti + 1 && w.next == base.next + 1 && w.tree == base.image.Keys + {base.next} && w.base == base
            && w.last == 0 && w.head == {} && w.freed == {} && Filled(st, env, c).mem == st.mem[base.next := c]
    ensures var s := Grown(Base(st), st.mti + 1, c);
            && s.id == st.mti + 1 && s.next == Base(st).next + 1 && s.image == Base(st).image[Base(st).next := c]
            && s.free == Base(st).free
  {
    hide PossAt;
  }

  lemma GrownCommits(st: State, env: nat, c: Page)
    requires Plain(st) && c.links == []
    ensures |st.metas| == 2
    ensures Committable(Filled(st, env, c).lock.w, Grown(Base(st), st.mti + 1, c), Filled(st, env, c).mem)
  {
    PlainBase(st);
    hide *;
    FilledWriter(st, env, c);
    GrownImage(st, c);
    GrownReached(Base(st), st.mti + 1, c);
    NothingFreed(Filled(st, env, c).lock.w);
    CommitWhole(Filled(st, env, c).lock.w, Grown(Base(st), st.mti + 1, c), Filled(st, env, c).mem);
  }

  lemma PlainBase(st: State)
    requires Plain(st)
    ensures |st.metas| == 2 && |st.possMeta| == 2 && ReachedOnce(Base(st)) && Base(st).free == map[] && st.lock.Unlocked?
  {
    hide ReachedOnce;
  }

  lemma SaveSync(g: State, s: Snapshot)
    requires |g.metas| == 2 && |g.possMeta| == 2 && g.lock.Held? && g.lock.w.pc.Work? && g.lock.w.loose == {}
    requires Committable(g.lock.w, s, g.mem)
    ensures Exec(g, [Save(s)] + [Sync]) == Some(Flushed(SetWriter(g, g.lock.w.(pc := Saved(s)))))
  {
    var h := SetWriter(g, g.lock.w.(pc := Saved(s)));
    assert Enabled(g, Save(s));
    SaveDo(g, s);
    assert Enabled(h, Sync);
    SyncDo(h);
    hide *;
    ExecCons(g, Save(s), [Sync]);
    assert [Sync] == [Sync] + [];
    ExecCons(h, Sync, []);
    ExecNone(Flushed(h));
  }

  lemma Finishes(y: State)
    requires |y.metas| == 2 && |y.possMeta| == 2 && y.lock.Held? && y.lock.w.pc.Synced?
    ensures Exec(y, Ends) == Some(Finished(y))
  {
    var a := MetaWritten(y, y.lock.w.pc.snap, y.lock.w.t % 2, true);
    assert Enabled(y, WriteMeta(true));
    WriteMetaDo(y, true);
    assert a.lock == Held(y.lock.w.(pc := MetaOut)) && |a.metas| == 2 && |a.possMeta| == 2;
    LastSteps(a, y.lock.w.t);
    assert a.(mti := y.lock.w.t, lock := Unlocked) == Finished(y);
    hide *;
    ExecCons(y, WriteMeta(true), [Publish] + [Unlock]);
  }

  lemma LastSteps(a: State, t: Txnid)
    requires |a.metas| == 2 && |a.possMeta| == 2 && a.lock.Held? && a.lock.w.pc.MetaOut? && a.lock.w.t == t
    ensures Exec(a, [Publish] + [Unlock]) == Some(a.(mti := t, lock := Unlocked))
  {
    assert Enabled(a, Publish);
    PublishDo(a);
    var b := Do(a, Publish);
    assert Enabled(b, Unlock);
    UnlockDo(b, Unlock);
    hide *;
    ExecCons(a, Publish, [Unlock]);
    assert [Unlock] == [Unlock] + [];
    ExecCons(b, Unlock, []);
    ExecNone(Do(b, Unlock));
  }

  lemma AddsRuns(st: State, env: nat, c: Page)
    requires Plain(st) && c.links == []
    ensures |st.metas| == 2 && |st.possMeta| == 2 && Exec(Begun(st, env), Adds(st, c)) == Some(Ready(st, env, c))
  {
    PlainBase(st);
    AddsAre(st, env, c);
    hide *;
    GrownCommits(st, env, c);
    FilledIs(st, env, c);
    AllocWrites(Begun(st, env), Base(st).next, c);
    SaveSync(Filled(st, env, c), Grown(Base(st), st.mti + 1, c));
    ExecAppend(Begun(st, env), [AllocNew] + [WritePage(Base(st).next, c)], [Save(Grown(Base(st), st.mti + 1, c))] + [Sync]);
  }

  lemma AddsAre(st: State, env: nat, c: Page)
    requires |st.metas| == 2
    ensures Adds(st, c) == ([AllocNew] + [WritePage(Base(st).next, c)]) + ([Save(Grown(Base(st), st.mti + 1, c))] + [Sync])
    ensures Ready(st, env, c)
            == Flushed(SetWriter(Filled(st, env, c), Filled(st, env, c).lock.w.(pc := Saved(Grown(Base(st), st.mti + 1, c)))))
  {
    hide Flushed, Filled;
  }

  lemma FilledIs(st: State, env: nat, c: Page)
    requires |st.metas| == 2 && |st.possMeta| == 2
    ensures var b, g := Begun(st, env), Filled(st, env, c);
            && |b.metas| == 2 && |b.possMeta| == 2 && b.lock.Held? && b.lock.w.pc.Work? && b.lock.w.next == Base(st).next
            && g == Written(b, Base(st).next, c) && |g.metas| == 2 && |g.possMeta| == 2 && g.lock.Held? && g.lock.w.pc.Work?
            && g.lock.w.loose == {}
  {}

  /** The transaction, from its begin to its end. */
  function Grows(st: State, env: nat, c: Page): seq<Action>
    requires |st.metas| == 2
  {
    [Begin(env)] + (Adds(st, c) + Ends)
  }

  lemma GrowsRuns(st: State, env: nat, c: Page)
    requires Plain(st) && c.links == []
    ensures |st.metas| == 2 && |st.possMeta| == 2 && Exec(st, Grows(st, env, c)) == Some(Finished(Ready(st, env, c)))
  {
    AddsRuns(st, env, c);
    BeginFree(st, env);
    BeginDo(st, env);
    FilledIs(st, env, c);
    Finishes(Ready(st, env, c));
    assert Begun(st, env) == Do(st, Begin(env));
    hide Enabled, Do, Exec, Adds, Ends;
    ExecCons(st, Begin(env), Adds(st, c) + Ends);
    ExecAppend(Begun(st, env), Adds(st, c), Ends);
  }

  /** What the transaction leaves. */
  lemma GrownState(st: State, env: nat, c: Page)
    requires Plain(st) && c.links == []
    ensures |st.metas| == 2 && |st.possMeta| == 2
    ensures var y, z := Ready(st, env, c), Finished(Ready(st, env, c)); var s := Grown(Base(st), st.mti + 1, c);
            && y.lock.w.pc.snap == s && y.metas == st.metas && y.possMeta == [{st.metas[0]}, {st.metas[1]}]
            && y.mem == z.mem == st.mem[Base(st).next := c] && y.lock.w.t == st.mti + 1
            && y.poss == z.poss == SyncedPages(y.mem, st.poss[Base(st).next := PossAt(st.poss, Base(st).next) + {c}])
            && z.metas == st.metas[(st.mti + 1) % 2 := s] && z.mti == st.mti + 1 && z.lock.Unlocked? && z.readers == st.readers
            && Base(z) == s && Plain(z)
  {
    var s := Grown(Base(st), st.mti + 1, c);
    GrownReached(Base(st), st.mti + 1, c);
    hide ReachedOnce, PickMeta, SyncedPages;
  }

  // ---------------------------------------------------------------- from the created environment

  lemma {:induction false} RunExec(acts: seq<Action>, st: State, more: seq<Action>)
    requires Run(acts) == Some(st) && |st.metas| == 2 && |st.possMeta| == 2 && Exec(st, more).Some?
    requires forall a | a in more :: !a.Join?
    ensures Run(acts + more) == Exec(st, more)
    decreases |more|
  {
    hide *;
    if more == [] {
      assert acts + more == acts;
      ExecNone(st);
    } else {
      var a, rest := more[0], more[1..];
      assert a in more;
      ExecHead(st, more);
      NoJoin(st, a);
      RunSnoc(acts, a, st);
      assert acts + more == (acts + [a]) + rest;
      RunExec(acts + [a], Do(st, a), rest);
    }
  }

  lemma RunSnoc(acts: seq<Action>, a: Action, st: State)
    requires Run(acts) == Some(st) && Enabled(st, a) && Fresh(st, a)
    ensures Run(acts + [a]) == Some(Do(st, a))
  {
    assert (acts + [a])[..|acts + [a]| - 1] == acts;
  }

  lemma GrowsNoJoin(st: State, env: nat, c: Page)
    requires |st.metas| == 2
    ensures forall a | a in Grows(st, env, c) :: !a.Join?
    ensures forall a | a in Adds(st, c) :: BeforeMeta(a)
  {}

  lemma CreatedPlain()
    ensures Plain(Created) && Run([]) == Some(Created)
  {
    assert Spans(EmptySnapshot, []);
    hide ReachedOnce, Run;
    RunNone();
  }

  lemma RunNone()
    ensures Run([]) == Some(Created)
  {}

  const PageTwo := Page([], 7)

  lemma NoLinks()
    ensures PageTwo.links == []
  {}

  /** The state after one transaction that adds a page. */
  function Once(): (r: State)
    ensures |r.metas| == 2 && |r.possMeta| == 2
  {
    Finished(Ready(Created, 0, PageTwo))
  }

  /** The snapshot it commits: page 2, its root. */
  function FirstSnapshot(): Snapshot {
    Grown(EmptySnapshot, 1, PageTwo)
  }

  lemma OnceRuns() returns (acts: seq<Action>)
    ensures Run(acts) == Some(Once()) && Plain(Once()) && Once().mti == 1 && Base(Once()) == FirstSnapshot()
    ensures Once().metas == [EmptySnapshot, FirstSnapshot()] && Once().readers == [] && Once().lock.Unlocked?
  {
    hide *;
    CreatedPlain();
    NoLinks();
    GrowsRuns(Created, 0, PageTwo);
    GrownState(Created, 0, PageTwo);
    GrowsNoJoin(Created, 0, PageTwo);
    acts := Grows(Created, 0, PageTwo);
    RunExec([], Created, acts);
    assert [] + acts == acts;
    OnceIs();
  }

  lemma OnceIs()
    ensures Once() == Finished(Ready(Created, 0, PageTwo)) && FirstSnapshot() == Grown(Base(Created), Created.mti + 1, PageTwo)
    ensures Created.mti == 0 && Created.readers == []
    ensures Created.metas[1 := FirstSnapshot()] == [EmptySnapshot, FirstSnapshot()]
  {
    hide Finished, Ready;
  }

  /** The state after another such transaction. */
  function Twice(): (r: State)
    ensures |r.metas| == 2 && |r.possMeta| == 2
  {
    Finished(Ready(Once(), 0, PageTwo))
  }

  function SecondSnapshot(): Snapshot {
    Grown(FirstSnapshot(), 2, PageTwo)
  }

  lemma TwiceRuns() returns (acts: seq<Action>)
    ensures Run(acts) == Some(Twice()) && Plain(Twice()) && Base(Twice()) == SecondSnapshot() && Twice().lock.Unlocked?
    ensures Twice().metas == [SecondSnapshot(), FirstSnapshot()]
  {
    hide *;
    var before := OnceRuns();
    NoLinks();
    GrowsRuns(Once(), 0, PageTwo);
    GrownState(Once(), 0, PageTwo);
    GrowsNoJoin(Once(), 0, PageTwo);
    var more := Grows(Once(), 0, PageTwo);
    RunExec(before, Once(), more);
    acts := before + more;
    TwiceIs();
  }

  lemma TwiceIs()
    ensures Twice() == Finished(Ready(Once(), 0, PageTwo)) && SecondSnapshot() == Grown(FirstSnapshot(), 2, PageTwo)
    ensures [EmptySnapshot, FirstSnapshot()][0 := SecondSnapshot()] == [SecondSnapshot(), FirstSnapshot()]
    ensures SecondSnapshot().id == 2 && FirstSnapshot().id == 1
  {
    hide Finished, Ready;
  }

  /** A concrete run in which a synchronous commit is lost: a process reads the header of the empty
      file; two transactions commit; the process stores id 0, and one more transaction commits. After
      any power failure the second transaction is the newest, and the third is gone. */
  lemma StaleCommitHappens(e: nat, env: nat, c: Page)
    returns (acts: seq<Action>, work: seq<Action>, y: State, z: State)
    requires c.links == []
    ensures Run(acts) == Some(Twice()) && JoinedWork(Twice(), e, 0, env, work, y)
    ensures |y.metas| == 2 && |y.possMeta| == 2 && Enabled(y, WriteMeta(true)) && z == Do(y, WriteMeta(true))
    ensures |z.metas| == 2 && |z.possMeta| == 2 && Leaves(z, z.mem, z.metas)
    ensures y.lock.Held? && y.lock.w.pc.Synced? && y.lock.w.pc.snap.id < SecondSnapshot().id
    ensures forall mem, left | Leaves(z, mem, left) :: |left| == 2 && left[PickMeta(left)] == SecondSnapshot()
  {
    hide *;
    acts := TwiceRuns();
    TwiceIs();
    RunInv(acts);
    var st := Twice().(cache := Twice().cache[e := 0], mti := 0);
    StalePlain(e);
    AddsRuns(st, env, c);
    GrownState(st, env, c);
    GrowsNoJoin(st, env, c);
    work, y := Adds(st, c), Ready(st, env, c);
    JoinsIn(e, env, work, y);
    ReadyWrites(y);
    z := Do(y, WriteMeta(true));
    StillThere(st, y, z);
    TwiceNewest();
    JoinBegins(Twice(), e, 0, env, work, y);
    WritingSizes(y, Twice(), 1, Twice().metas[0]);
    forall mem, left | Leaves(z, mem, left) ensures |left| == 2 && left[PickMeta(left)] == SecondSnapshot() {
      StaleCommitLost(Twice(), e, 0, env, work, y, mem, left);
    }
  }

  /** With the stale id the next writer starts from the second snapshot, again as number 1. */
  lemma StalePlain(e: nat)
    requires Plain(Twice()) && Base(Twice()) == SecondSnapshot() && Twice().metas == [SecondSnapshot(), FirstSnapshot()]
    ensures var st := Twice().(cache := Twice().cache[e := 0], mti := 0);
            Plain(st) && Base(st) == SecondSnapshot() && Twice().lock.Unlocked? && |Twice().possMeta| == 2
  {
    hide ReachedOnce, Finished, Ready;
  }

  lemma JoinsIn(e: nat, env: nat, work: seq<Action>, y: State)
    requires |Twice().metas| == 2 && |Twice().possMeta| == 2 && Twice().lock.Unlocked? && forall a | a in work :: BeforeMeta(a)
    requires var st := Twice().(cache := Twice().cache[e := 0], mti := 0);
             |Begun(st, env).metas| == 2 && |Begun(st, env).possMeta| == 2 && Exec(Begun(st, env), work) == Some(y)
    ensures JoinedWork(Twice(), e, 0, env, work, y)
  {
    var st := Twice().(cache := Twice().cache[e := 0], mti := 0);
    JoinFree(Twice(), e, 0);
    JoinDo(Twice(), e, 0);
    BeginFree(st, env);
    BeginDo(st, env);
    assert Begun(st, env) == Do(st, Begin(env));
    assert st == Do(Twice(), Join(e, 0));
    hide Enabled, Do, Exec, Begun, BeforeMeta;
    ExecCons(Twice(), Join(e, 0), [Begin(env)] + work);
    ExecCons(st, Begin(env), work);
  }

  lemma ReadyWrites(y: State)
    requires |y.metas| == 2 && |y.possMeta| == 2 && y.lock.Held? && y.lock.w.pc.Synced?
    ensures Enabled(y, WriteMeta(true)) && |Do(y, WriteMeta(true)).metas| == 2
    ensures Do(y, WriteMeta(true)) == MetaWritten(y, y.lock.w.pc.snap, y.lock.w.t % 2, true)
  {}

  /** Nothing lost is one of the things a power failure may leave. */
  lemma StillThere(st: State, y: State, z: State)
    requires |st.metas| == 2 && |y.metas| == 2 && |y.possMeta| == 2 && y.lock.Held? && y.lock.w.pc.Synced?
    requires y.possMeta == [{st.metas[0]}, {st.metas[1]}] && y.metas == st.metas
    requires z == MetaWritten(y, y.lock.w.pc.snap, y.lock.w.t % 2, true)
    requires exists poss :: y.poss == SyncedPages(y.mem, poss)
    ensures |z.metas| == 2 && |z.possMeta| == 2 && Leaves(z, z.mem, z.metas)
  {
    assert z.poss == y.poss && z.mem == y.mem && z.metas == y.metas[y.lock.w.t % 2 := y.lock.w.pc.snap];
    forall p: Pgno ensures At(z.mem, p) in PossAt(z.poss, p) {}
  }

  lemma TwiceNewest()
    requires Twice().metas == [SecondSnapshot(), FirstSnapshot()]
    ensures Newest(Twice()) == SecondSnapshot() && SecondSnapshot().id == 2
  {
    hide Finished, Ready;
  }

  // ---------------------------------------------------------------- a reader of the first snapshot

  /** One reader has copied the first snapshot. */
  function Reading(): (r: State)
    ensures |r.metas| == 2 && |r.possMeta| == 2
  {
    Once().(readers := [Reader(true, Some(1), Active(1, FirstSnapshot()))])
  }

  function ReaderAt(txn: Option<Txnid>, pc: ReaderPc): (r: State)
    ensures |r.metas| == 2 && |r.possMeta| == 2
  {
    Once().(readers := [Reader(true, txn, pc)])
  }

  lemma ReaderLoads()
    requires Once().mti == 1
    ensures Enabled(ReaderAt(None, Idle), Load(0))
    ensures Do(ReaderAt(None, Idle), Load(0)) == ReaderAt(None, Loaded(1))
  {
    hide Once;
  }

  lemma ReaderStores()
    ensures Enabled(ReaderAt(None, Loaded(1)), Store(0))
    ensures Do(ReaderAt(None, Loaded(1)), Store(0)) == ReaderAt(Some(1), Stored(1))
  {
    hide Once;
  }

  lemma ReaderChecks()
    requires Once().mti == 1
    ensures Enabled(ReaderAt(Some(1), Stored(1)), Check(0))
    ensures Do(ReaderAt(Some(1), Stored(1)), Check(0)) == ReaderAt(Some(1), Checked(1))
  {
    hide Once;
  }

  lemma ReaderCopies()
    requires Once().metas == [EmptySnapshot, FirstSnapshot()]
    ensures Enabled(ReaderAt(Some(1), Checked(1)), CopyMeta(0))
    ensures Do(ReaderAt(Some(1), Checked(1)), CopyMeta(0)) == Reading()
  {
    hide Once, FirstSnapshot;
  }

  lemma ReaderClaims()
    requires Once().readers == []
    ensures Enabled(Once(), Claim(0)) && Do(Once(), Claim(0)) == ReaderAt(None, Idle)
  {
    hide Once;
  }

  lemma ReadsOnce()
    requires Once().mti == 1 && Once().metas == [EmptySnapshot, FirstSnapshot()] && Once().readers == []
    ensures Exec(Once(), [Claim(0)] + ([Load(0)] + ([Store(0)] + ([Check(0)] + [CopyMeta(0)])))) == Some(Reading())
  {
    hide *;
    ReaderClaims();
    ReaderLoads();
    ReaderStores();
    ReaderChecks();
    ReaderCopies();
    ExecCons(Once(), Claim(0), [Load(0)] + ([Store(0)] + ([Check(0)] + [CopyMeta(0)])));
    ExecCons(ReaderAt(None, Idle), Load(0), [Store(0)] + ([Check(0)] + [CopyMeta(0)]));
    ExecCons(ReaderAt(None, Loaded(1)), Store(0), [Check(0)] + [CopyMeta(0)]);
    ExecCons(ReaderAt(Some(1), Stored(1)), Check(0), [CopyMeta(0)]);
    assert [CopyMeta(0)] == [CopyMeta(0)] + [];
    ExecCons(ReaderAt(Some(1), Checked(1)), CopyMeta(0), []);
    ExecNone(Reading());
  }

  /** A concrete run in which a stale id harms a reader: after one commit, under one reader, a process
      that had read the header of the empty file stores id 0; three steps later the page the reader
      uses has other content. */
  lemma StaleJoinHappens(e: nat, c: Page) returns (acts: seq<Action>)
    requires c != PageTwo
    ensures Run(acts) == Some(Reading()) && Reading().readers[0].pc == Active(1, FirstSnapshot())
    ensures |Reading().metas| == 2 && |Reading().possMeta| == 2
    ensures var z := Exec(Reading(), [Join(e, 0)] + ([Begin(e)] + ([AllocNew] + [WritePage(2, c)])));
            && z.Some? && z.value.readers == Reading().readers
            && exists q :: q in FirstSnapshot().image && At(z.value.mem, q) != FirstSnapshot().image[q]
  {
    hide *;
    var before := OnceRuns();
    PlainBase(Once());
    ReadsOnce();
    var more := [Claim(0)] + ([Load(0)] + ([Store(0)] + ([Check(0)] + [CopyMeta(0)])));
    assert forall a | a in more :: !a.Join?;
    RunExec(before, Once(), more);
    acts := before + more;
    RunInv(acts);
    ReadingNewest();
    StaleJoinOverwrites(Reading(), e, 0, 0, c);
  }

  lemma ReadingNewest()
    requires Once().metas == [EmptySnapshot, FirstSnapshot()] && Once().lock.Unlocked?
    ensures Newest(Reading()).id == 1 && Older(Reading()).next == 2 && Reading().lock.Unlocked? && |Reading().readers| == 1
    ensures Reading().readers[0].pc == Active(1, FirstSnapshot())
    ensures 2 in FirstSnapshot().image && FirstSnapshot().image[2] == PageTwo
  {
    hide Finished, Ready;
  }
}
