/** Safety of the protocol in `Mvcc`: every step keeps the invariant. */
module MvccSafety {
  import opened Options
  import opened Mvcc
  import opened MvccInvariant
  import opened Upkeep

  // ---------------------------------------------------------------- readers' steps

  lemma ClaimStep(st: State, r: nat)
    requires Inv(st) && Enabled(st, Claim(r))
    ensures Inv(Do(st, Claim(r)))
  {
    Parts(st);
    ClaimDo(st, r);
    hide *;
    if r < |st.readers| {
      IdleOk(st.mti, st.metas, st.cache);
      SlotChange(st, r, Reader(true, None, Idle));
    } else {
      NewSlotChange(st);
    }
  }

  lemma SlotStep(st: State, a: Action)
    requires Inv(st) && Enabled(st, a) && SlotAction(a)
    ensures Inv(Do(st, a))
  {
    Parts(st);
    SlotDo(st, a);
    hide *;
    var r := SlotOf(a);
    var x := st.readers[r];
    MtiBelow(st);
    OneReader(st.readers, st.mti, st.metas, st.cache, r);
    NewSlotOk(x, a, st.mti, st.metas, st.cache);
    SlotChange(st, r, NewSlot(x, a, st.mti));
  }

  lemma CopyMetaStep(st: State, r: nat)
    requires Inv(st) && Enabled(st, CopyMeta(r))
    ensures Inv(Do(st, CopyMeta(r)))
  {
    CopyDo(st, r);
    Parts(st);
    hide *;
    CopiedMeta(st, r);
    var x := st.readers[r];
    OneReader(st.readers, st.mti, st.metas, st.cache, r);
    CopiedOk(x, st.mti, st.metas, st.cache, st.metas[x.pc.v % 2]);
    SlotChange(st, r, x.(pc := Active(x.pc.v, st.metas[x.pc.v % 2])));
  }

  // ---------------------------------------------------------------- the writer's steps

  lemma StartScanStep(st: State)
    requires Inv(st) && Enabled(st, StartScan)
    ensures Inv(Do(st, StartScan))
  {
    Parts(st);
    StartScanDo(st);
    hide *;
    ScanStart(ScanPid(|st.readers|, st.mti), st.mti, st.readers);
    AtWork(st.lock.w.pc);
    BaseOk(st);
    ScanMoves(st, ScanPid(|st.readers|, st.mti));
  }

  lemma ScanSlotPidStep(st: State)
    requires Inv(st) && Enabled(st, ScanSlotPid)
    ensures Inv(Do(st, ScanSlotPid))
  {
    Parts(st);
    ScanPidDo(st);
    hide *;
    var w := st.lock.w;
    AtWork(w.pc);
    WriterParts(st);
    PidScanned(st.readers, st.mti, st.metas, st.cache, w.pc.i, w.pc.acc);
    ScanMoves(st, NextSlot(st.readers, w.pc.i, w.pc.acc));
  }

  lemma ScanSlotTxnStep(st: State)
    requires Inv(st) && Enabled(st, ScanSlotTxn)
    ensures Inv(Do(st, ScanSlotTxn))
  {
    Parts(st);
    ScanTxnDo(st);
    hide *;
    var w := st.lock.w;
    var pc := ScanPid(w.pc.i, if w.pc.i < |st.readers| then MinTxn(w.pc.acc, st.readers[w.pc.i].txn) else w.pc.acc);
    AtWork(w.pc);
    AtWork(pc);
    WriterParts(st);
    TxnScanned(st.readers, st.mti, st.metas, st.cache, w.pc.i, w.pc.acc);
    ScanMoves(st, pc);
  }

  lemma EndScanStep(st: State)
    requires Inv(st) && Enabled(st, EndScan)
    ensures Inv(Do(st, EndScan))
  {
    Parts(st);
    EndScanDo(st);
    NoScan(st.mti, st.readers);
    hide *;
    var w := st.lock.w;
    AtWork(w.pc);
    WriterParts(st);
    CacheScanned(st.readers, st.mti, st.metas, st.cache, w.env, w.pc.acc);
    CacheChange(st, st.cache[w.env := w.pc.acc]);
    ScanMoves(st.(cache := st.cache[w.env := w.pc.acc]), Work);
  }

  lemma BeginStep(st: State, env: nat)
    requires Inv(st) && Enabled(st, Begin(env))
    ensures Inv(Do(st, Begin(env)))
  {
    Parts(st);
    BeginDo(st, env);
    hide *;
    KnownMetas(st.metas, st.possMeta, st.floor);
    FreeLock(st.mti, st.metas);
    var base := st.metas[PickMeta(st.metas)];
    var w := FirstWriterOf(env, st.mti + 1, base);
    var st' := SetWriter(st, w);
    Holding(st, w);
    FirstPartition(env, st.mti + 1, base, Live(st'));
    FirstPc(env, st.mti + 1, base);
    NoScan(st.mti, st.readers);
    WriterWhole(st');
    BeginLock(env, st.mti, st.metas);
    Whole(st');
  }

  lemma AllocHeadStep(st: State, p: Pgno)
    requires Inv(st) && Enabled(st, AllocHead(p))
    ensures Inv(Do(st, AllocHead(p)))
  {
    hide Inv;
    WriterOk(st);
    var w := st.lock.w;
    var w' := w.(head := w.head - {p}, tree := w.tree + {p}, dirty := w.dirty + {p});
    forall q: Pgno ensures Places(w', q) == Places(w, q) { assert Places(w, q) <= 1; }
    WriterMoves(st, w');
  }

  lemma AllocLooseStep(st: State, p: Pgno)
    requires Inv(st) && Enabled(st, AllocLoose(p))
    ensures Inv(Do(st, AllocLoose(p)))
  {
    hide Inv;
    WriterOk(st);
    var w := st.lock.w;
    var w' := w.(loose := w.loose - {p}, tree := w.tree + {p});
    forall q: Pgno ensures Places(w', q) == Places(w, q) { assert Places(w, q) <= 1; }
    WriterMoves(st, w');
  }

  lemma AllocNewStep(st: State)
    requires Inv(st) && Enabled(st, AllocNew)
    ensures Inv(Do(st, AllocNew))
  {
    hide Inv;
    WriterOk(st);
    var w := st.lock.w;
    var w' := w.(next := w.next + 1, tree := w.tree + {w.next}, dirty := w.dirty + {w.next});
    forall q: Pgno ensures Places(w', q) == if 2 <= q < w'.next then 1 else 0 {
      assert Places(w, q) == if 2 <= q < w.next then 1 else 0;
    }
    WriterMoves(st, w');
  }

  lemma FreePageStep(st: State, p: Pgno)
    requires Inv(st) && Enabled(st, FreePage(p))
    ensures Inv(Do(st, FreePage(p)))
  {
    hide Inv;
    WriterOk(st);
    var w := st.lock.w;
    var w' := w.(tree := w.tree - {p}, freed := w.freed + {p});
    forall q: Pgno ensures Places(w', q) == Places(w, q) { assert Places(w, q) <= 1; }
    WriterMoves(st, w');
  }

  lemma LoosenStep(st: State, p: Pgno)
    requires Inv(st) && Enabled(st, Loosen(p))
    ensures Inv(Do(st, Loosen(p)))
  {
    hide Inv;
    WriterOk(st);
    var w := st.lock.w;
    var w' := w.(tree := w.tree - {p}, loose := w.loose + {p});
    forall q: Pgno ensures Places(w', q) == Places(w, q) { assert Places(w, q) <= 1; }
    WriterMoves(st, w');
  }

  lemma FreeToHeadStep(st: State, p: Pgno)
    requires Inv(st) && Enabled(st, FreeToHead(p))
    ensures Inv(Do(st, FreeToHead(p)))
  {
    hide Inv;
    WriterOk(st);
    var w := st.lock.w;
    var w' := w.(tree := w.tree - {p}, head := w.head + {p});
    forall q: Pgno ensures Places(w', q) == Places(w, q) { assert Places(w, q) <= 1; }
    WriterMoves(st, w');
  }

  lemma LooseToFreedStep(st: State)
    requires Inv(st) && Enabled(st, LooseToFreed)
    ensures Inv(Do(st, LooseToFreed))
  {
    hide Inv;
    WriterOk(st);
    var w := st.lock.w;
    var w' := w.(loose := {}, freed := w.freed + w.loose);
    forall q: Pgno ensures Places(w', q) == Places(w, q) { assert Places(w, q) <= 1; }
    WriterMoves(st, w');
  }

  lemma LooseToHeadStep(st: State)
    requires Inv(st) && Enabled(st, LooseToHead)
    ensures Inv(Do(st, LooseToHead))
  {
    hide Inv;
    WriterOk(st);
    var w := st.lock.w;
    var w' := w.(loose := {}, head := w.head + w.loose);
    forall q: Pgno ensures Places(w', q) == Places(w, q) { assert Places(w, q) <= 1; }
    WriterMoves(st, w');
  }

  lemma TakeRecordPartition(w: Writer, k: Txnid)
    requires Partition(w) && WellFormed(w.base) && k in w.base.free && w.last < k
    requires forall j | j in w.base.free && j < k :: j <= w.last
    ensures Partition(w.(last := k, head := w.head + w.base.free[k]))
  {
    var w' := w.(last := k, head := w.head + w.base.free[k]);
    forall p: Pgno ensures Places(w', p) == Places(w, p) {
      assert p in FreePages(w.base.free, w.last) <==> p in FreePages(w.base.free, k) || p in w.base.free[k];
      assert Places(w, p) <= 1;
    }
  }

  /** Reclaiming record k < oldest: no live snapshot reaches its pages. */
  lemma TakeRecordStep(st: State, k: Txnid)
    requires Inv(st) && Enabled(st, TakeRecord(k))
    ensures Inv(Do(st, TakeRecord(k)))
  {
    TakeRecordProtects(st, k);
    assert st.lock.w.base in st.possMeta[0] + st.possMeta[1];
    TakeRecordPartition(st.lock.w, k);
  }

  /** Writing a dirty page touches no page of a live snapshot. */
  lemma WriteStep(st: State, p: Pgno, c: Page)
    requires Inv(st) && Enabled(st, WritePage(p, c))
    ensures Inv(Do(st, WritePage(p, c)))
  {
    Parts(st);
    WriteDo(st, p, c);
    hide *;
    AtWork(st.lock.w.pc);
    WriterParts(st);
    var mem, poss := st.mem[p := c], st.poss[p := PossAt(st.poss, p) + {c}];
    var st' := st.(mem := mem, poss := poss);
    LiveIs(st);
    LiveIs(st');
    var stay := MustStay(st.metas, st.possMeta, st.mti, st.readers);
    StaysLive(st.metas, st.possMeta, st.mti, st.readers);
    NotProtected(st.lock.w, Live(st), p);
    WriteElsewhere(stay, st.mem, st.poss, p, c);
    WriterWhole(st');
    Whole(st');
  }

  /** The freeDB that `mdb_freelist_save` leaves makes the committed snapshot conserve pages. */
  lemma SavedConserves(w: Writer, s: Snapshot)
    requires Partition(w) && WellFormed(w.base) && w.loose == {} && w.t == w.base.id + 1
    requires ReachedOnce(s) && s.id == w.t && s.next == w.next && s.image.Keys == w.tree && SavedFree(w, s.free)
    ensures WellFormed(s)
  {
    hide SavedFree, FreePages, Places, ReachedOnce;
    var f := s.free;
    SavedPages(w, f);
    forall p: Pgno ensures p in s.image.Keys + FreePages(f, 0) <==> p in Range(s.next) {
      OnePlace(w, p);
    }
    forall k | k in f ensures 1 <= k <= s.id && f[k] !! s.image.Keys {
      SavedKeys(w, f, k);
      forall p | p in f[k] ensures p !in s.image.Keys {
        SavedWhere(w, f, k, p);
        OnePlace(w, p);
      }
    }
    forall k, k' | k in f && k' in f && k < k' ensures f[k] !! f[k'] {
      forall p | p in f[k] ensures p !in f[k'] {
        SavedApart(w, f, k, k', p);
      }
    }
  }

  lemma SaveStep(st: State, snap: Snapshot)
    requires Inv(st) && Enabled(st, Save(snap))
    ensures Inv(Do(st, Save(snap)))
  {
    Parts(st);
    SaveDo(st, snap);
    hide *;
    var w := st.lock.w;
    AtWork(w.pc);
    BaseOk(st);
    WriterParts(st);
    CommitParts(w, snap, st.mem);
    SavedConserves(w, snap);
    PhaseFrame(w, Saved(snap), Live(st));
    NoScanSaved(snap, st.mti, st.readers);
    SaveReady(w, snap, st.mem);
    Holding(st, w.(pc := Saved(snap)));
    LockPhase(w, Saved(snap), st.mti, st.metas);
    var st' := SetWriter(st, w.(pc := Saved(snap)));
    WriterWhole(st');
    Whole(st');
  }

  lemma SyncStep(st: State)
    requires Inv(st) && Enabled(st, Sync)
    ensures Inv(Do(st, Sync))
  {
    Parts(st);
    SyncDo(st);
    hide *;
    var w, snap := st.lock.w, st.lock.w.pc.snap;
    var poss, possMeta, pc := SyncedPages(st.mem, st.poss), [{st.metas[0]}, {st.metas[1]}], Synced(snap);
    FlushedIs(st);
    AtWork(w.pc);
    WriterParts(st);
    SyncMem(st.mem, st.poss, MustStay(st.metas, st.possMeta, st.mti, st.readers));
    SyncMetas(st.metas, st.possMeta, st.floor, ActiveSnaps(st.readers), st.committed);
    SolidStays(st, poss, possMeta);
    PhaseFrame(w, pc, Live(st));
    NoScanSaved(snap, st.mti, st.readers);
    LockPhase(w, pc, st.mti, st.metas);
    SyncReady(w, snap, st.mem, poss, st.metas, possMeta);
    WriterWhole(Flushed(st));
    Whole(Flushed(st));
  }

  /** Committing keeps "record k is unreachable from snapshots >= k" for the new freeDB. */
  lemma NewFreeUnreachable(w: Writer, n: Snapshot, s: Snapshot)
    requires SavedFree(w, n.free) && Unreachable(w.base, s) && Protects(w, s) && s.id <= w.base.id < w.t
    ensures Unreachable(n, s)
  {
    forall k | k in n.free && k <= s.id ensures n.free[k] !! s.image.Keys {
      if k > w.last { assert k in w.base.free; }
    }
  }

  /** Snapshots in use, and the meta pages, keep clear of the records of the new freeDB. */
  lemma NewFree(st: State)
    requires Inv(st) && st.lock.Held? && st.lock.w.pc.Synced? && |st.metas| == 2
    ensures forall s | s in Live(st) :: Unreachable(st.lock.w.pc.snap, s) && s.id < st.lock.w.pc.snap.id
  {
    Parts(st);
    hide *;
    var w := st.lock.w;
    AtWork(w.pc);
    SnapNext(st);
    BaseOk(st);
    forall s | s in Live(st) ensures Unreachable(w.pc.snap, s) && s.id < w.pc.snap.id {
      LiveBelow(st, s);
      OneFree(st.possMeta, ActiveSnaps(st.readers), w.base, s);
      OneProtected(w, Live(st), s);
      NewFreeUnreachable(w, w.pc.snap, s);
    }
  }

  lemma WriteMetaFree(st: State, sync: bool)
    requires Inv(st) && st.lock.Held? && st.lock.w.pc.Synced? && |st.metas| == 2 && |st.possMeta| == 2
    ensures InvFree(NextPoss(st.possMeta, st.lock.w.pc.snap, st.lock.w.t % 2, sync), ActiveSnaps(st.readers))
  {
    Parts(st);
    hide *;
    var w, snap := st.lock.w, st.lock.w.pc.snap;
    SnapNext(st);
    NewFree(st);
    SyncedFacts(st);
    LiveIs(st);
    OwnUnreachable(snap);
    NextKnown(st.metas, st.possMeta, snap, w.t % 2, sync);
    FreeMore(st.possMeta, ActiveSnaps(st.readers), NextPoss(st.possMeta, snap, w.t % 2, sync), Live(st), snap);
  }

  lemma MetaWrittenInv(st: State, sync: bool)
    requires Inv(st) && st.lock.Held? && st.lock.w.pc.Synced? && |st.metas| == 2 && |st.possMeta| == 2
    ensures Inv(MetaWritten(st, st.lock.w.pc.snap, st.lock.w.t % 2, sync))
  {
    Parts(st);
    hide *;
    var w, snap, m := st.lock.w, st.lock.w.pc.snap, st.lock.w.t % 2;
    SnapNext(st);
    WriteMetaMetas(st, sync);
    MetaWrittenIs(st, snap, m, sync);
    var metas, possMeta := st.metas[m := snap], NextPoss(st.possMeta, snap, m, sync);
    NewestNow(st.metas, snap, m);
    WriteMetaReaders(st, metas);
    WriteMetaFree(st, sync);
    SolidNext(st, metas, possMeta);
    NextCommitted(st, snap, m, sync);
    MetaOutLock(w, st.mti, metas);
    MetaOutWriter(MetaWritten(st, snap, m, sync), w);
    Whole(MetaWritten(st, snap, m, sync));
  }

  lemma WriteMetaStep(st: State, sync: bool)
    requires Inv(st) && Enabled(st, WriteMeta(sync))
    ensures Inv(Do(st, WriteMeta(sync)))
  {
    Parts(st);
    WriteMetaDo(st, sync);
    hide *;
    MetaWrittenInv(st, sync);
  }

  lemma PublishStep(st: State)
    requires Inv(st) && Enabled(st, Publish)
    ensures Inv(Do(st, Publish))
  {
    Parts(st);
    PublishDo(st);
    hide *;
    PublishLock(st.lock.w, st.mti, st.metas);
    var st1 := st.(mti := st.lock.w.t);
    MtiCatchesUp(st, st.lock.w.t);
    LockChange(st1, Held(st.lock.w.(pc := Published)));
  }

  lemma UnlockStep(st: State, a: Action)
    requires Inv(st) && Enabled(st, a) && (a.Unlock? || a.Abort? || a.WriterDies?)
    ensures Inv(Do(st, a))
  {
    Parts(st);
    UnlockDo(st, a);
    hide *;
    LeftLock(st.lock.w, st.mti, st.metas);
    LockChange(st, if a.WriterDies? then OwnerDead else Unlocked);
  }

  /** Setting mti_txnid to the id of the newest meta page is always safe. */
  lemma MtiCatchesUp(st: State, id: Txnid)
    requires Inv(st) && id == st.metas[PickMeta(st.metas)].id
    ensures Inv(st.(mti := id))
  {
    MtiBelow(st);
    Parts(st);
    hide Inv, InvMetas, InvReaders, InvFree, InvMem, SolidAll, InvCommitted, MustStay, ActiveSnaps, PickMeta, Partition,
      ProtectsAll, ReadyToCommit, InvSynced, ScanBound;
    var st' := st.(mti := id);
    LaterMtiAll(st.readers, st.mti, st.metas, st.cache, id);
    StaysPublished(st.metas, st.possMeta, st.mti, st.readers);
    SolidFewer(MustStay(st.metas, st.possMeta, st.mti, st.readers), MustStay(st.metas, st.possMeta, id, st.readers), st.mem, st.poss);
    assert Live(st') == Live(st);
    Whole(st');
  }

  lemma RecoverStep(st: State)
    requires Inv(st) && Enabled(st, Recover)
    ensures Inv(Do(st, Recover))
  {
    Parts(st);
    RecoverDo(st);
    hide *;
    var id := st.metas[PickMeta(st.metas)].id;
    MtiCatchesUp(st, id);
    RecoverLock(st.metas);
    LockChange(st.(mti := id), Unlocked);
  }

  lemma JoinStep(st: State, e: nat, id: Txnid)
    requires Inv(st) && Enabled(st, Join(e, id)) && Fresh(st, Join(e, id))
    ensures Inv(Do(st, Join(e, id)))
  {
    Parts(st);
    JoinDo(st, e, id);
    JoinFresh(st, e, id);
    hide *;
    if id != st.mti { MtiCatchesUp(st, id); }
    ResetCache(st.(mti := id), e);
  }

  lemma ExclusiveOpenStep(st: State)
    requires Inv(st) && Enabled(st, ExclusiveOpen)
    ensures Inv(Do(st, ExclusiveOpen))
  {
    Parts(st);
    ExclusiveDo(st);
    hide *;
    var id := st.metas[PickMeta(st.metas)].id;
    var st' := st.(readers := [], lock := Unlocked, cache := map[], mti := id);
    StaysAlone(st.metas, st.possMeta, st.mti, st.readers);
    SolidFewer(MustStay(st.metas, st.possMeta, st.mti, st.readers), MustStay(st.metas, st.possMeta, id, []), st.mem, st.poss);
    NoneActive([]);
    FreeFewer(st.possMeta, ActiveSnaps(st.readers), {});
    FewerCommitted(st.possMeta, ActiveSnaps(st.readers), st.committed);
    NobodyReads(st.metas, id);
    RecoverLock(st.metas);
    NoWriter(st');
    Whole(st');
  }

  lemma SurvivingMetas(metas: seq<Snapshot>, possMeta: seq<set<Snapshot>>, floor: Txnid, left: seq<Snapshot>)
    requires InvMetas(metas, possMeta, floor)
    requires |left| == 2 && left[0] in possMeta[0] && left[1] in possMeta[1]
    ensures left[PickMeta(left)] == metas[PickMeta(metas)]
            || (left[PickMeta(left)] == metas[1 - PickMeta(metas)] && possMeta[PickMeta(metas)] != {metas[PickMeta(metas)]})
    ensures floor <= left[PickMeta(left)].id
    ensures InvMetas(left, [{left[0]}, {left[1]}], left[PickMeta(left)].id)
  {
    hide *;
    MetasParts(metas, possMeta, floor);
    SurvivingIds(metas, possMeta, floor, left);
    MetasWhole(left, [{left[0]}, {left[1]}], left[PickMeta(left)].id);
  }

  /** After a power failure the newest surviving meta page is one that had to stay intact. */
  lemma CrashPicks(st: State, mem: map<Pgno, Page>, metas: seq<Snapshot>)
    requires Inv(st) && |st.possMeta| == 2 && Leaves(st, mem, metas)
    ensures |st.metas| == 2
    ensures metas[PickMeta(metas)] in MustStay(st.metas, st.possMeta, st.mti, st.readers)
    ensures st.floor <= metas[PickMeta(metas)].id
    ensures InvMetas(metas, [{metas[0]}, {metas[1]}], metas[PickMeta(metas)].id)
    ensures InvFree([{metas[0]}, {metas[1]}], {})
    ensures InvCommitted([{metas[0]}, {metas[1]}], {}, st.committed)
  {
    Parts(st);
    hide Inv, InvMetas, InvReaders, InvLock, InvWriter, InvMem, SolidAll, MustStay, ActiveSnaps, PickMeta, At, PossAt, Unreachable;
    SurvivingMetas(st.metas, st.possMeta, st.floor, metas);
    StayNewest(st.metas, st.possMeta, st.mti, st.readers, metas[PickMeta(metas)]);
    assert {metas[0]} + {metas[1]} <= st.possMeta[0] + st.possMeta[1];
  }

  lemma CrashStep(st: State, mem: map<Pgno, Page>, metas: seq<Snapshot>)
    requires Inv(st) && Enabled(st, Crash(mem, metas))
    ensures Inv(Do(st, Crash(mem, metas)))
  {
    Parts(st);
    CrashLeaves(st, mem, metas);
    hide *;
    CrashPicks(st, mem, metas);
    var newest := metas[PickMeta(metas)];
    var st' := Failed(st, mem, metas);
    FailedIs(st, mem, metas);
    LeavesMem(st, mem, metas);
    OneSolid(MustStay(st.metas, st.possMeta, st.mti, st.readers), st.mem, st.poss, newest);
    CrashMem(st.mem, st.poss, mem, newest);
    NewestAlone(metas);
    AloneSolid(newest, mem, SyncedPages(mem, st.poss));
    NobodyReads(metas, newest.id);
    RecoverLock(metas);
    NoWriter(st');
    Whole(st');
  }
}
