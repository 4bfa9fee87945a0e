/** What the protocol in `Mvcc` guarantees over whole runs. */
module MvccTheorems {
  import opened Options
  import opened Mvcc
  import opened MvccReach
  import opened MvccInvariant
  import opened MvccSafety
  import opened Upkeep

  // ---------------------------------------------------------------- runs

  /** A freshly created data file: two equal meta pages of an empty environment. */
  const EmptySnapshot := Snapshot(0, [], 2, map[], map[])

  const Created :=
    State(map[], map[], [EmptySnapshot, EmptySnapshot], [{EmptySnapshot}, {EmptySnapshot}],
          0, map[], [], Unlocked, {EmptySnapshot}, 0)

  lemma EmptyFormed()
    ensures WellFormed(EmptySnapshot)
  {
    assert Spans(EmptySnapshot, []);
    assert FreePages(map[], 0) == {};
    hide Spans;
  }

  lemma CreatedMetas()
    requires WellFormed(EmptySnapshot)
    ensures InvMetas(Created.metas, Created.possMeta, 0) && PickMeta(Created.metas) == 0
  {
    hide WellFormed;
  }

  lemma CreatedFree()
    ensures InvFree(Created.possMeta, {}) && InvCommitted(Created.possMeta, {}, Created.committed)
  {
    hide WellFormed;
  }

  lemma CreatedMem(snaps: set<Snapshot>)
    requires forall s | s in snaps :: s == EmptySnapshot
    ensures InvMem(map[], map[]) && SolidAll(snaps, map[], map[])
  {}

  lemma CreatedStays()
    requires ActiveSnaps([]) == {}
    ensures forall s | s in MustStay(Created.metas, Created.possMeta, 0, []) :: s == EmptySnapshot
  {
    hide ActiveSnaps;
  }

  lemma CreatedRest()
    ensures |Created.metas| == 2 && |Created.possMeta| == 2 && Created.floor == 0 && Created.mti == 0 && Created.readers == []
    ensures Created.mem == map[] && Created.poss == map[] && Created.cache == map[]
    ensures InvLock(Created.lock, Created.mti, Created.metas) && InvWriter(Created)
  {}

  lemma CreatedInv()
    ensures Inv(Created)
  {
    hide *;
    CreatedRest();
    EmptyFormed();
    CreatedMetas();
    NoneActive([]);
    NobodyReads(Created.metas, 0);
    CreatedFree();
    CreatedStays();
    CreatedMem(MustStay(Created.metas, Created.possMeta, 0, []));
    Whole(Created);
  }

  /** Run `acts` from the created state; None when some step is not enabled, or a process
      joined with a stale header. */
  ghost function Run(acts: seq<Action>): (r: Option<State>)
    ensures r.Some? ==> |r.value.metas| == 2 && |r.value.possMeta| == 2
  {
    if acts == [] then Some(Created)
    else
      var last := acts[|acts| - 1];
      var before := Run(acts[..|acts| - 1]);
      if before.Some? && Enabled(before.value, last) && Fresh(before.value, last)
      then Some(Do(before.value, last))
      else None
  }

  predicate ReaderStep(a: Action) {
    SlotAction(a) || a.Claim? || a.CopyMeta?
  }

  lemma ReaderStepInv(st: State, a: Action)
    requires Inv(st) && Enabled(st, a) && ReaderStep(a)
    ensures Inv(Do(st, a))
  {
    if a.Claim? {
      ClaimStep(st, a.r);
    } else if a.CopyMeta? {
      CopyMetaStep(st, a.r);
    } else {
      SlotStep(st, a);
    }
  }

  predicate PageStep(a: Action) {
    || a.TakeRecord? || a.AllocHead? || a.AllocLoose? || a.AllocNew? || a.FreePage? || a.Loosen?
    || a.FreeToHead? || a.LooseToFreed? || a.LooseToHead? || a.WritePage?
  }

  lemma PageStepInv(st: State, a: Action)
    requires Inv(st) && Enabled(st, a) && PageStep(a)
    ensures Inv(Do(st, a))
  {
    match a {
      case TakeRecord(k) => TakeRecordStep(st, k);
      case AllocHead(p) => AllocHeadStep(st, p);
      case AllocLoose(p) => AllocLooseStep(st, p);
      case AllocNew => AllocNewStep(st);
      case FreePage(p) => FreePageStep(st, p);
      case Loosen(p) => LoosenStep(st, p);
      case FreeToHead(p) => FreeToHeadStep(st, p);
      case LooseToFreed => LooseToFreedStep(st);
      case LooseToHead => LooseToHeadStep(st);
      case WritePage(p, c) => WriteStep(st, p, c);
    }
  }

  predicate TxnStep(a: Action) {
    || a.Begin? || a.StartScan? || a.ScanSlotPid? || a.ScanSlotTxn? || a.EndScan?
    || a.Save? || a.Sync? || a.WriteMeta? || a.Publish?
  }

  lemma TxnStepInv(st: State, a: Action)
    requires Inv(st) && Enabled(st, a) && TxnStep(a)
    ensures Inv(Do(st, a))
  {
    match a {
      case Begin(env) => BeginStep(st, env);
      case StartScan => StartScanStep(st);
      case ScanSlotPid => ScanSlotPidStep(st);
      case ScanSlotTxn => ScanSlotTxnStep(st);
      case EndScan => EndScanStep(st);
      case Save(snap) => SaveStep(st, snap);
      case Sync => SyncStep(st);
      case WriteMeta(sync) => WriteMetaStep(st, sync);
      case Publish => PublishStep(st);
    }
  }

  lemma FailureStepInv(st: State, a: Action)
    requires Inv(st) && Enabled(st, a) && Fresh(st, a)
    requires !ReaderStep(a) && !PageStep(a) && !TxnStep(a)
    ensures Inv(Do(st, a))
  {
    match a {
      case Unlock => UnlockStep(st, a);
      case Abort => UnlockStep(st, a);
      case WriterDies => UnlockStep(st, a);
      case Recover => RecoverStep(st);
      case Join(e, id) => JoinStep(st, e, id);
      case ExclusiveOpen => ExclusiveOpenStep(st);
      case Crash(mem, metas) => CrashStep(st, mem, metas);
    }
  }

  lemma StepInv(st: State, a: Action)
    requires Inv(st) && Enabled(st, a) && Fresh(st, a)
    ensures Inv(Do(st, a))
  {
    if ReaderStep(a) {
      ReaderStepInv(st, a);
    } else if PageStep(a) {
      PageStepInv(st, a);
    } else if TxnStep(a) {
      TxnStepInv(st, a);
    } else {
      FailureStepInv(st, a);
    }
  }

  lemma {:induction false} RunInv(acts: seq<Action>)
    requires Run(acts).Some?
    ensures Inv(Run(acts).value)
  {
    if acts == [] {
      CreatedInv();
    } else {
      var before := acts[..|acts| - 1];
      RunInv(before);
      StepInv(Run(before).value, acts[|acts| - 1]);
    }
  }

  // ---------------------------------------------------------------- what a reader sees

  /** The page reached from page `p` by following links `path`, if there is one. */
  function Follow(mem: map<Pgno, Page>, p: Pgno, path: seq<nat>): Option<Page>
    decreases |path|
  {
    var page := At(mem, p);
    if path == [] then Some(page)
    else if path[0] < |page.links| then Follow(mem, page.links[path[0]], path[1..])
    else None
  }

  lemma {:induction false} FollowFrozen(s: Snapshot, mem: map<Pgno, Page>, p: Pgno, path: seq<nat>)
    requires Closed(s) && p in s.image && forall q | q in s.image :: At(mem, q) == s.image[q]
    ensures Follow(mem, p, path) == Follow(s.image, p, path)
    decreases |path|
  {
    var page := s.image[p];
    assert At(mem, p) == page == At(s.image, p);
    if path != [] && path[0] < |page.links| {
      assert page.links[path[0]] in page.links;
      FollowFrozen(s, mem, page.links[path[0]], path[1..]);
    }
  }

  /** In every run, a read transaction sees exactly the pages some transaction committed, no
      older than the id it published: whatever it reaches by following links is what that
      transaction wrote. */
  lemma ReaderSeesCommitted(acts: seq<Action>, r: nat, root: Pgno, path: seq<nat>)
    requires Run(acts).Some?
    requires var st := Run(acts).value; r < |st.readers| && st.readers[r].pc.Active? && root in st.readers[r].pc.snap.roots
    ensures var st := Run(acts).value;
            var x := st.readers[r].pc;
            && x.snap in st.committed && x.v <= x.snap.id
            && Follow(st.mem, root, path) == Follow(x.snap.image, root, path)
  {
    RunInv(acts);
    var st := Run(acts).value;
    var x := st.readers[r].pc;
    assert InvReader(st.readers[r], st.mti, st.metas, st.cache);
    assert x.snap in ActiveSnaps(st.readers);
    assert Solid(x.snap, st.mem, st.poss);
    ReachedClosed(x.snap);
    FollowFrozen(x.snap, st.mem, root, path);
  }

  /** No step, of any process, changes a page of the snapshot a reader copied: while the slot
      stays active with that snapshot, its pages keep their content. */
  lemma SnapshotStable(acts: seq<Action>, more: seq<Action>, r: nat, p: Pgno)
    requires Run(acts).Some? && Run(acts + more).Some?
    requires r < |Run(acts).value.readers| && r < |Run(acts + more).value.readers|
    requires Run(acts).value.readers[r].pc.Active?
    requires Run(acts + more).value.readers[r].pc == Run(acts).value.readers[r].pc
    requires p in Run(acts).value.readers[r].pc.snap.image
    ensures At(Run(acts + more).value.mem, p) == At(Run(acts).value.mem, p)
  {
    RunInv(acts);
    RunInv(acts + more);
    var a, b := Run(acts).value, Run(acts + more).value;
    assert a.readers[r].pc.snap in ActiveSnaps(a.readers);
    assert b.readers[r].pc.snap in ActiveSnaps(b.readers);
    assert Solid(a.readers[r].pc.snap, a.mem, a.poss);
    assert Solid(b.readers[r].pc.snap, b.mem, b.poss);
  }

  /** The snapshots in use by readers: copied ones, and the ones that readers past the
      publish/re-check loop are about to copy. */
  ghost predicate InUse(st: State, s: Snapshot)
    requires |st.metas| == 2
  {
    exists r :: 0 <= r < |st.readers|
      && ((st.readers[r].pc.Active? && st.readers[r].pc.snap == s)
          || (st.readers[r].pc.Checked? && st.metas[st.readers[r].pc.v % 2] == s))
  }

  lemma InUseLive(st: State, s: Snapshot)
    requires |st.metas| == 2 && (InUse(st, s) || s in st.metas)
    ensures s in Live(st)
  {
    if s !in st.metas {
      var r :| 0 <= r < |st.readers| && st.readers[r].pc.Active? && st.readers[r].pc.snap == s;
      assert s in ActiveSnaps(st.readers);
    }
  }

  /** The page an allocation hands out, or a write overwrites. */
  function Target(st: State, a: Action): Pgno
    requires st.lock.Held? && (a.AllocHead? || a.AllocLoose? || a.AllocNew? || a.WritePage?)
  {
    if a.AllocNew? then st.lock.w.next else a.p
  }

  lemma TargetUnused(st: State, a: Action, s: Snapshot)
    requires Inv(st) && s in Live(st) && Working(st)
    requires a.AllocHead? || a.AllocLoose? || a.AllocNew? || a.WritePage?
    requires a.AllocHead? ==> a.p in st.lock.w.head
    requires a.AllocLoose? ==> a.p in st.lock.w.loose
    requires a.WritePage? ==> a.p in st.lock.w.dirty
    ensures Target(st, a) !in s.image
  {
    LiveBelow(st, s);
    assert Protects(st.lock.w, s);
  }

  /** The writer neither hands out nor overwrites a page of a snapshot in use, nor one of the
      two snapshots a power failure may fall back to. */
  lemma NoReuse(acts: seq<Action>, a: Action, s: Snapshot)
    requires Run(acts).Some? && Enabled(Run(acts).value, a)
    requires a.AllocHead? || a.AllocLoose? || a.AllocNew? || a.WritePage?
    requires InUse(Run(acts).value, s) || s in Run(acts).value.metas
    ensures Target(Run(acts).value, a) !in s.image
  {
    RunInv(acts);
    var st := Run(acts).value;
    InUseLive(st, s);
    TargetUnused(st, a, s);
  }

  // ---------------------------------------------------------------- crashes

  /** After a power failure at any step, with unsynced page writes surviving in any subset, the
      newest meta page names one committed transaction, intact, not older than `floor`. */
  lemma CrashRecovers(acts: seq<Action>, mem: map<Pgno, Page>, metas: seq<Snapshot>)
    requires Run(acts).Some? && Enabled(Run(acts).value, Crash(mem, metas))
    ensures var s := metas[PickMeta(metas)];
            && s in Run(acts).value.committed
            && Run(acts).value.floor <= s.id
            && WellFormed(s)
            && forall p | p in s.image :: At(mem, p) == s.image[p]
  {
    RunInv(acts);
    var st := Run(acts).value;
    CrashLeaves(st, mem, metas);
    hide Enabled, Do;
    CrashPicks(st, mem, metas);
    var s := metas[PickMeta(metas)];
    assert Solid(s, st.mem, st.poss);
    CrashMem(st.mem, st.poss, mem, s);
  }

  /** The id a crash cannot fall below: at most one transaction behind the newest commit, and
      not behind at all when its meta page was written synchronously. */
  lemma FloorFollows(acts: seq<Action>)
    requires Run(acts).Some?
    ensures var st := Run(acts).value;
            st.floor <= st.metas[PickMeta(st.metas)].id <= st.floor + 1
    ensures Enabled(Run(acts).value, WriteMeta(true)) ==>
              var st := Do(Run(acts).value, WriteMeta(true));
              st.floor == st.metas[PickMeta(st.metas)].id == Run(acts).value.lock.w.t
  {
    RunInv(acts);
    var st := Run(acts).value;
    if Enabled(st, WriteMeta(true)) {
      WriteMetaDo(st, true);
      MetaWrittenIs(st, st.lock.w.pc.snap, st.lock.w.t % 2, true);
      SnapNext(st);
      WriteMetaMetas(st, true);
    }
  }

  /** Page p is reached along one path from the roots, or is in one freeDB record, when it is a page
      of the file; else it is in neither. */
  ghost predicate OnePlaceIn(s: Snapshot, p: Pgno) {
    && (2 <= p < s.next <==> (exists path :: LeadsTo(s, path, p)) || (exists k :: k in s.free && p in s.free[k]))
    && (forall a, b | LeadsTo(s, a, p) && LeadsTo(s, b, p) :: a == b)
    && (forall j, k | j in s.free && k in s.free && p in s.free[j] && p in s.free[k] :: j == k)
    && (forall path, k | LeadsTo(s, path, p) && k in s.free :: p !in s.free[k])
  }

  lemma FormedOnce(s: Snapshot, p: Pgno)
    requires WellFormed(s)
    ensures OnePlaceIn(s, p)
  {
    ImageReached(s, p);
    assert p in FreePages(s.free, 0) <==> exists k :: k in s.free && p in s.free[k];
    hide ReachedOnce, LeadsTo;
    assert p in Range(s.next) <==> p in s.image.Keys || p in FreePages(s.free, 0);
  }

  /** A transaction that commits neither loses a page nor uses one twice: of its snapshot, every page of
      the file is reached along exactly one path from the roots, or listed in exactly one freeDB
      record, and not both. */
  lemma CommitConserves(acts: seq<Action>, sync: bool, p: Pgno)
    requires Run(acts).Some? && Enabled(Run(acts).value, WriteMeta(sync))
    ensures OnePlaceIn(Run(acts).value.lock.w.pc.snap, p)
  {
    RunInv(acts);
    var st := Run(acts).value;
    WriteMetaDo(st, sync);
    hide *;
    SnapNext(st);
    FormedOnce(st.lock.w.pc.snap, p);
  }
}
