/** Opening the environment with a stale header: `mdb_env_open2` stores the transaction id it read
    earlier into mti_txnid (mdb.c). What that does when a commit came in between. */
module MvccJoin {
  import opened Options
  import opened Mvcc
  import opened MvccInvariant
  import opened MvccSafety
  import opened Upkeep
  import opened MvccTheorems

  function Newest(st: State): Snapshot
    requires |st.metas| == 2
  {
    st.metas[PickMeta(st.metas)]
  }

  function Older(st: State): Snapshot
    requires |st.metas| == 2
  {
    st.metas[1 - PickMeta(st.metas)]
  }

  /** As `Run`, from any state and without the condition on joining. */
  ghost function Exec(st: State, acts: seq<Action>): (r: Option<State>)
    requires |st.metas| == 2 && |st.possMeta| == 2
    ensures r.Some? ==> |r.value.metas| == 2 && |r.value.possMeta| == 2
    decreases |acts|
  {
    if acts == [] then Some(st)
    else if Enabled(st, acts[0]) then Exec(Do(st, acts[0]), acts[1..])
    else None
  }

  lemma ExecCons(st: State, a: Action, rest: seq<Action>)
    requires |st.metas| == 2 && |st.possMeta| == 2
    ensures Exec(st, [a] + rest).Some? ==> Enabled(st, a)
    ensures Enabled(st, a) ==> Exec(st, [a] + rest) == Exec(Do(st, a), rest)
  {
    assert ([a] + rest)[1..] == rest;
  }

  lemma ExecNone(st: State)
    requires |st.metas| == 2 && |st.possMeta| == 2
    ensures Exec(st, []) == Some(st)
  {}

  lemma ExecHead(st: State, acts: seq<Action>)
    requires |st.metas| == 2 && |st.possMeta| == 2 && acts != [] && Exec(st, acts).Some?
    ensures Enabled(st, acts[0]) && Exec(st, acts) == Exec(Do(st, acts[0]), acts[1..])
  {}

  // ---------------------------------------------------------------- a write transaction up to its meta page

  /** Steps of readers, and of the writer between its begin and its meta page. */
  predicate BeforeMeta(a: Action) {
    || ReaderStep(a) || PageStep(a) || a.StartScan? || a.ScanSlotPid? || a.ScanSlotTxn? || a.EndScan?
    || a.Save? || a.Sync?
  }

  /** A write transaction that began with this id from this snapshot has not written its meta page;
      the meta pages are those of st. */
  ghost predicate Writing(z: State, st: State, t: Txnid, base: Snapshot) {
    && |st.metas| == 2 && z.metas == st.metas && |z.possMeta| == 2 && z.committed == st.committed
    && z.lock.Held? && PreMeta(z.lock.w.pc) && z.lock.w.t == t && z.lock.w.base == base
    && (z.lock.w.pc.Saved? || z.lock.w.pc.Synced? ==> z.lock.w.pc.snap.id == t)
    && (z.lock.w.pc.Synced? ==> z.possMeta == [{st.metas[0]}, {st.metas[1]}])
  }

  lemma WritingReader(z: State, a: Action, st: State, t: Txnid, base: Snapshot)
    requires Writing(z, st, t, base) && ReaderStep(a) && Enabled(z, a)
    ensures Writing(Do(z, a), st, t, base)
  {}

  lemma WritingPages(z: State, a: Action, st: State, t: Txnid, base: Snapshot)
    requires Writing(z, st, t, base) && PageStep(a) && Enabled(z, a)
    ensures Writing(Do(z, a), st, t, base)
  {}

  lemma WritingStep(z: State, a: Action, st: State, t: Txnid, base: Snapshot)
    requires Writing(z, st, t, base) && BeforeMeta(a) && Enabled(z, a)
    ensures Writing(Do(z, a), st, t, base)
  {
    if a.Save? {
      SaveDo(z, a.snap);
      CommitParts(z.lock.w, a.snap, z.mem);
    } else if a.Sync? {
      SyncDo(z);
      FlushedIs(z);
    } else if ReaderStep(a) {
      WritingReader(z, a, st, t, base);
    } else if PageStep(a) {
      WritingPages(z, a, st, t, base);
    }
  }

  lemma {:induction false} WritingRun(z: State, acts: seq<Action>, st: State, t: Txnid, base: Snapshot)
    requires Writing(z, st, t, base) && (forall a | a in acts :: BeforeMeta(a))
    requires Exec(z, acts).Some?
    ensures Writing(Exec(z, acts).value, st, t, base)
    decreases |acts|
  {
    WritingSizes(z, st, t, base);
    if acts == [] {
      ExecNone(z);
    } else {
      ExecHead(z, acts);
      assert acts[0] in acts;
      hide *;
      WritingStep(z, acts[0], st, t, base);
      WritingRun(Do(z, acts[0]), acts[1..], st, t, base);
    }
  }

  lemma WritingSizes(z: State, st: State, t: Txnid, base: Snapshot)
    requires Writing(z, st, t, base)
    ensures |z.metas| == 2 && |z.possMeta| == 2 && z.metas == st.metas && z.committed == st.committed && z.lock.Held?
    ensures z.lock.w.t == t && z.lock.w.base == base && (z.lock.w.pc.Synced? ==> z.lock.w.pc.snap.id == t)
    ensures z.lock.w.pc.Synced? ==> z.possMeta == [{st.metas[0]}, {st.metas[1]}]
  {}

  // ---------------------------------------------------------------- the next commit

  /** A process joins, and the next transaction to begin does its work, up to its meta page. */
  ghost predicate JoinedWork(st: State, e: nat, id: Txnid, env: nat, work: seq<Action>, y: State)
    requires |st.metas| == 2 && |st.possMeta| == 2
  {
    (forall a | a in work :: BeforeMeta(a)) && Exec(st, [Join(e, id)] + ([Begin(env)] + work)) == Some(y)
  }

  /** After the join the next writer starts from the meta page the id selects. */
  lemma JoinBegins(st: State, e: nat, id: Txnid, env: nat, work: seq<Action>, y: State)
    requires |st.metas| == 2 && |st.possMeta| == 2 && st.lock.Unlocked? && JoinedWork(st, e, id, env, work, y)
    ensures Writing(y, st, id + 1, st.metas[id % 2])
  {
    var a := st.(cache := st.cache[e := 0], mti := id);
    var b := SetWriter(a, FirstWriterOf(env, id + 1, st.metas[id % 2]));
    JoinRuns(st, e, id, env, work);
    WritingFirst(st, a, env, id);
    hide *;
    WritingRun(b, work, st, id + 1, st.metas[id % 2]);
  }

  lemma JoinRuns(st: State, e: nat, id: Txnid, env: nat, work: seq<Action>)
    requires |st.metas| == 2 && |st.possMeta| == 2 && st.lock.Unlocked?
    requires Exec(st, [Join(e, id)] + ([Begin(env)] + work)).Some?
    ensures var b := SetWriter(st.(cache := st.cache[e := 0], mti := id), FirstWriterOf(env, id + 1, st.metas[id % 2]));
            |b.metas| == 2 && |b.possMeta| == 2 && Exec(st, [Join(e, id)] + ([Begin(env)] + work)) == Exec(b, work)
  {
    var acts := [Begin(env)] + work;
    ExecCons(st, Join(e, id), acts);
    JoinDo(st, e, id);
    var a := st.(cache := st.cache[e := 0], mti := id);
    ExecCons(a, Begin(env), work);
    BeginDo(a, env);
    hide *;
  }

  lemma WritingFirst(st: State, a: State, env: nat, id: Txnid)
    requires |st.metas| == 2 && |st.possMeta| == 2 && a.metas == st.metas && a.possMeta == st.possMeta && a.committed == st.committed
    ensures Writing(SetWriter(a, FirstWriterOf(env, id + 1, st.metas[id % 2])), st, id + 1, st.metas[id % 2])
  {}

  /** What the meta pages are after the commit that follows the join. */
  lemma NextMetaPages(metas: seq<Snapshot>, possMeta: seq<set<Snapshot>>, floor: Txnid, id: Txnid, s: Snapshot)
    requires MetaIds(metas, possMeta, floor) && id <= metas[PickMeta(metas)].id && s.id == id + 1
    ensures var n := PickMeta(metas); var m := s.id % 2; var metas' := metas[m := s];
            && metas[id % 2] == (if id % 2 == n then metas[n] else metas[1 - n])
            && metas'[PickMeta(metas')] == Recovered(metas, id, s)
            && (metas[id % 2] == metas[n] && metas'[PickMeta(metas')] == s <==> id == metas[n].id)
            && metas[n].id % 2 == n
            && (id % 2 != n ==> metas'[n] == s)
  {}

  /** The newest meta page after the commit s that follows a join with this id. */
  function Recovered(metas: seq<Snapshot>, id: Txnid, s: Snapshot): Snapshot
    requires |metas| == 2
  {
    var n := PickMeta(metas);
    if id == metas[n].id then s
    else if id % 2 == metas[n].id % 2 then metas[n]
    else if id + 1 == metas[n].id then s
    else metas[1 - n]
  }

  lemma NextMetaFacts(st: State, id: Txnid, s: Snapshot)
    requires Inv(st) && id <= Newest(st).id && s.id == id + 1
    ensures |st.metas| == 2 && |st.possMeta| == 2 && Newest(st) in st.committed
    ensures var metas' := st.metas[s.id % 2 := s];
            && st.metas[id % 2] == (if id % 2 == Newest(st).id % 2 then Newest(st) else Older(st))
            && metas'[PickMeta(metas')] == Recovered(st.metas, id, s)
            && (st.metas[id % 2] == Newest(st) && metas'[PickMeta(metas')] == s <==> id == Newest(st).id)
            && (id % 2 != Newest(st).id % 2 ==> metas'[PickMeta(st.metas)] == s)
  {
    Parts(st);
    MetasParts(st.metas, st.possMeta, st.floor);
    hide *;
    NewestIs(st);
    NextMetaPages(st.metas, st.possMeta, st.floor, id, s);
    NewestCommitted(st.metas, st.possMeta, st.floor, ActiveSnaps(st.readers), st.committed);
  }

  lemma NewestCommitted(metas: seq<Snapshot>, possMeta: seq<set<Snapshot>>, floor: Txnid, active: set<Snapshot>,
                        committed: set<Snapshot>)
    requires MetaIds(metas, possMeta, floor) && InvCommitted(possMeta, active, committed)
    ensures metas[PickMeta(metas)] in committed
  {}

  /** A process joins with the id it read earlier, and a transaction commits. It builds on the newest
      commit and is the newest itself if and only if the id was still that of the newest. */
  lemma JoinExact(st: State, e: nat, id: Txnid, env: nat, work: seq<Action>, y: State, sync: bool)
    requires Inv(st) && st.lock.Unlocked? && id <= Newest(st).id
    requires |st.possMeta| == 2 && JoinedWork(st, e, id, env, work, y)
    requires |y.metas| == 2 && |y.possMeta| == 2 && Enabled(y, WriteMeta(sync))
    ensures y.lock.Held? && y.lock.w.pc.Synced?
    ensures y.lock.w.base == Newest(st) && Newest(Do(y, WriteMeta(sync))) == y.lock.w.pc.snap <==> id == Newest(st).id
  {
    hide *;
    Parts(st);
    WriteMetaDo(y, sync);
    JoinBegins(st, e, id, env, work, y);
    WritingSizes(y, st, id + 1, st.metas[id % 2]);
    var s, m := y.lock.w.pc.snap, y.lock.w.t % 2;
    MetaWrittenIs(y, s, m, sync);
    NextMetaFacts(st, id, s);
    NewestIs(st);
    NewestIs(MetaWritten(y, s, m, sync));
  }

  lemma NewestIs(st: State)
    requires |st.metas| == 2
    ensures Newest(st) == st.metas[PickMeta(st.metas)] && Older(st) == st.metas[1 - PickMeta(st.metas)]
  {}

  /** With a stale id a commit is lost that was written to the disk synchronously. After a power
      failure right after the commit that follows the join, the newest meta page is:
      - with an id of the same parity as the newest, the one from before: the new commit is lost;
      - with the id before the newest, the new commit, which was built on the older meta page and has
        overwritten the newest: that one is lost;
      - with any other id, the older one from before: both are lost. */
  lemma StaleCommitLost(st: State, e: nat, id: Txnid, env: nat, work: seq<Action>, y: State, mem: map<Pgno, Page>,
                        left: seq<Snapshot>)
    requires Inv(st) && st.lock.Unlocked? && id < Newest(st).id
    requires |st.possMeta| == 2 && JoinedWork(st, e, id, env, work, y)
    requires |y.metas| == 2 && |y.possMeta| == 2 && Enabled(y, WriteMeta(true))
    requires Leaves(Do(y, WriteMeta(true)), mem, left)
    ensures y.lock.Held? && y.lock.w.pc.Synced? && |left| == 2
    ensures var s := y.lock.w.pc.snap;
            && {s, Newest(st)} <= Do(y, WriteMeta(true)).committed
            && left[PickMeta(left)] == (if id % 2 == Newest(st).id % 2 then Newest(st)
                                        else if id + 1 == Newest(st).id then s else Older(st))
            && (id % 2 == Newest(st).id % 2 ==> s.id < Newest(st).id)
            && (id % 2 != Newest(st).id % 2 ==> y.lock.w.base == Older(st) && left[PickMeta(st.metas)] == s)
  {
    hide *;
    Parts(st);
    WriteMetaDo(y, true);
    JoinBegins(st, e, id, env, work, y);
    WritingSizes(y, st, id + 1, st.metas[id % 2]);
    var s, m := y.lock.w.pc.snap, y.lock.w.t % 2;
    MetaWrittenIs(y, s, m, true);
    NextMetaFacts(st, id, s);
    NewestIs(st);
    OnlyLeft(st.metas, y.possMeta, s, m, MetaWritten(y, s, m, true), mem, left);
    RecoveredIs(st.metas, id, s);
  }

  /** What is surely on the disk. */
  lemma OnlyLeft(metas: seq<Snapshot>, possMeta: seq<set<Snapshot>>, s: Snapshot, m: nat, z: State, mem: map<Pgno, Page>,
                 left: seq<Snapshot>)
    requires |metas| == 2 && m < 2 && possMeta == [{metas[0]}, {metas[1]}]
    requires z.possMeta == NextPoss(possMeta, s, m, true) && Leaves(z, mem, left)
    ensures left == metas[m := s]
  {
    hide At, PossAt;
  }

  lemma RecoveredIs(metas: seq<Snapshot>, id: Txnid, s: Snapshot)
    requires |metas| == 2 && id < metas[PickMeta(metas)].id
    ensures Recovered(metas, id, s) == (if id % 2 == metas[PickMeta(metas)].id % 2 then metas[PickMeta(metas)]
                                        else if id + 1 == metas[PickMeta(metas)].id then s else metas[1 - PickMeta(metas)])
  {
    hide PickMeta;
  }

  // ---------------------------------------------------------------- what makes up for a stale id

  /** A process that opens the environment stores into mti_txnid the id it read earlier from the
      file header. When no writer is between its meta page and its publication, and none has died, the
      invariant survives exactly when that id is the current one. */
  lemma JoinKeepsInvariant(st: State, e: nat, id: Txnid)
    requires Inv(st) && Enabled(st, Join(e, id)) && !st.lock.OwnerDead?
    requires st.lock.Held? ==> PreMeta(st.lock.w.pc)
    ensures Inv(Do(st, Join(e, id))) <==> id == Newest(st).id
  {
    NewestIs(st);
    JoinDo(st, e, id);
    if id == Newest(st).id {
      JoinFreshIs(st, e, id);
      JoinStep(st, e, id);
    } else {
      LockKnows(st.lock, id, st.metas);
      if Inv(st.(cache := st.cache[e := 0], mti := id)) { Parts(st.(cache := st.cache[e := 0], mti := id)); }
    }
  }

  lemma JoinFreshIs(st: State, e: nat, id: Txnid)
    requires |st.metas| == 2 && id == Newest(st).id
    ensures Fresh(st, Join(e, id))
  {}

  lemma LockKnows(lock: Lock, mti: Txnid, metas: seq<Snapshot>)
    requires |metas| == 2 && !lock.OwnerDead? && (lock.Held? ==> PreMeta(lock.w.pc))
    ensures InvLock(lock, mti, metas) ==> mti == metas[PickMeta(metas)].id
  {
    hide PickMeta;
  }

  /** Steps that neither read nor write mti_txnid. */
  predicate Blind(a: Action) {
    || PageStep(a) || a.StartScan? || a.ScanSlotPid? || a.ScanSlotTxn? || a.EndScan? || a.Save? || a.Sync? || a.WriteMeta?
    || a.WriterDies? || a.Claim? || a.Store? || a.CopyMeta? || a.EndRead? || a.Release? || a.ReaderDies? || a.ClearStale?
  }

  lemma BlindReader(z: State, a: Action, m: Txnid)
    requires |z.metas| == 2 && |z.possMeta| == 2 && Enabled(z, a)
    requires a.Claim? || a.Store? || a.CopyMeta? || a.EndRead? || a.Release? || a.ReaderDies? || a.ClearStale?
    ensures Enabled(z.(mti := m), a) && Do(z.(mti := m), a) == Do(z, a).(mti := m)
  {}

  lemma BlindPages(z: State, a: Action, m: Txnid)
    requires |z.metas| == 2 && |z.possMeta| == 2 && Enabled(z, a) && PageStep(a)
    ensures Enabled(z.(mti := m), a) && Do(z.(mti := m), a) == Do(z, a).(mti := m)
  {}

  lemma BlindRest(z: State, a: Action, m: Txnid)
    requires |z.metas| == 2 && |z.possMeta| == 2 && Enabled(z, a)
    requires a.StartScan? || a.ScanSlotPid? || a.ScanSlotTxn? || a.EndScan? || a.Save? || a.Sync? || a.WriteMeta? || a.WriterDies?
    ensures Enabled(z.(mti := m), a) && Do(z.(mti := m), a) == Do(z, a).(mti := m)
  {}

  lemma BlindStep(z: State, a: Action, m: Txnid)
    requires |z.metas| == 2 && |z.possMeta| == 2 && Blind(a) && Enabled(z, a)
    ensures Enabled(z.(mti := m), a) && Do(z.(mti := m), a) == Do(z, a).(mti := m)
  {
    hide Do, Enabled;
    if PageStep(a) {
      BlindPages(z, a, m);
    } else if a.StartScan? || a.ScanSlotPid? || a.ScanSlotTxn? || a.EndScan? || a.Save? || a.Sync? || a.WriteMeta? || a.WriterDies? {
      BlindRest(z, a, m);
    } else {
      BlindReader(z, a, m);
    }
  }

  lemma {:induction false} BlindRun(z: State, acts: seq<Action>, m: Txnid)
    requires |z.metas| == 2 && |z.possMeta| == 2 && (forall a | a in acts :: Blind(a)) && Exec(z, acts).Some?
    ensures Exec(z.(mti := m), acts) == Some(Exec(z, acts).value.(mti := m))
    decreases |acts|
  {
    if acts == [] {
      ExecNone(z);
      ExecNone(z.(mti := m));
    } else {
      ExecHead(z, acts);
      assert acts[0] in acts;
      assert acts == [acts[0]] + acts[1..];
      hide *;
      BlindStep(z, acts[0], m);
      BlindRun(Do(z, acts[0]), acts[1..], m);
      ExecCons(z.(mti := m), acts[0], acts[1..]);
    }
  }

  lemma {:induction false} ExecInv(z: State, acts: seq<Action>)
    requires Inv(z) && |z.metas| == 2 && |z.possMeta| == 2 && Exec(z, acts).Some? && forall a | a in acts :: !a.Join?
    ensures Inv(Exec(z, acts).value)
    decreases |acts|
  {
    if acts == [] {
      ExecNone(z);
    } else {
      ExecHead(z, acts);
      assert acts[0] in acts;
      NoJoin(z, acts[0]);
      hide *;
      StepInv(z, acts[0]);
      ExecInv(Do(z, acts[0]), acts[1..]);
    }
  }

  lemma NoJoin(z: State, a: Action)
    requires |z.metas| == 2 && !a.Join?
    ensures Fresh(z, a)
  {}

  lemma Heals(z: State, a: Action, m: Txnid)
    requires |z.metas| == 2 && |z.possMeta| == 2 && Enabled(z, a) && (a.Publish? || a.Recover?)
    ensures Enabled(z.(mti := m), a) && Do(z.(mti := m), a) == Do(z, a)
  {}

  lemma BlindNoJoin(acts: seq<Action>)
    requires forall a | a in acts :: Blind(a)
    ensures forall a | a in acts :: !a.Join?
  {}

  /** Any id does no harm when, before a reader loads it or a transaction begins, a writer publishes its
      commit or the lock of a dead one is recovered: whoever holds the lock, and also when the owner
      has died or stands between its meta page and its publication. */
  lemma JoinHealed(st: State, e: nat, id: Txnid, work: seq<Action>, y: State, a: Action)
    requires Inv(st) && |st.metas| == 2 && |st.possMeta| == 2
    requires (forall b | b in work :: Blind(b)) && Exec(st, [Join(e, id)] + work) == Some(y)
    requires |y.metas| == 2 && |y.possMeta| == 2 && Enabled(y, a) && (a.Publish? || a.Recover?)
    ensures Inv(Do(y, a))
  {
    var m := Newest(st).id;
    ExecCons(st, Join(e, id), work);
    JoinDo(st, e, id);
    JoinEnabled(st, e, id, m);
    JoinDo(st, e, m);
    JoinFreshIs(st, e, m);
    BlindNoJoin(work);
    NoJoin(y.(mti := m), a);
    hide *;
    JoinStep(st, e, m);
    BlindRun(Do(st, Join(e, id)), work, m);
    ExecInv(Do(st, Join(e, m)), work);
    Heals(y, a, m);
    StepInv(y.(mti := m), a);
  }

  lemma JoinEnabled(st: State, e: nat, id: Txnid, m: Txnid)
    requires |st.metas| == 2 && |st.possMeta| == 2 && Enabled(st, Join(e, id))
    ensures Enabled(st, Join(e, m))
  {}

  /** When instead the writer that holds the lock gives it up, it is as if the join came after: then
      `JoinExact` tells. */
  lemma JoinCommutes(st: State, e: nat, id: Txnid, a: Action)
    requires |st.metas| == 2 && |st.possMeta| == 2 && Enabled(st, Join(e, id)) && (a.Unlock? || a.Abort?)
    requires Enabled(Do(st, Join(e, id)), a)
    ensures Enabled(st, a) && Enabled(Do(st, a), Join(e, id))
    ensures Do(Do(st, Join(e, id)), a) == Do(Do(st, a), Join(e, id)) && Do(st, a).lock.Unlocked?
  {}

  // ---------------------------------------------------------------- pages overwritten under a reader

  /** With an id of the other parity the next writer starts from the older meta page, and the first
      page it takes is the first one after that snapshot. Of the snapshot a reader uses this changes a
      page exactly when the reader has that page (and the content is another). */
  lemma StaleJoinOverwrites(st: State, e: nat, id: Txnid, r: nat, c: Page)
    requires Inv(st) && st.lock.Unlocked? && id % 2 != Newest(st).id % 2 && Newest(st).id > 0
    requires r < |st.readers| && st.readers[r].pc.Active?
    ensures |st.metas| == 2 && |st.possMeta| == 2
    ensures var p, image := Older(st).next, st.readers[r].pc.snap.image;
            var z := Exec(st, [Join(e, id)] + ([Begin(e)] + ([AllocNew] + [WritePage(p, c)])));
            && z.Some? && z.value.readers == st.readers
            && (forall q | q in image :: At(st.mem, q) == image[q])
            && ((exists q :: q in image && At(z.value.mem, q) != image[q]) <==> p in image && image[p] != c)
  {
    Parts(st);
    MetasParts(st.metas, st.possMeta, st.floor);
    hide *;
    NewestIs(st);
    SolidReader(st, r);
    OlderParity(st.metas, st.possMeta, st.floor, id);
    StaleJoinExec(st, e, id, c);
    OverwriteSeen(st.readers[r].pc.snap.image, st.mem, Older(st).next, c);
  }

  lemma OverwriteSeen(image: map<Pgno, Page>, mem: map<Pgno, Page>, p: Pgno, c: Page)
    requires forall q | q in image :: At(mem, q) == image[q]
    ensures (exists q :: q in image && At(mem[p := c], q) != image[q]) <==> p in image && image[p] != c
  {
    if p in image && image[p] != c { assert At(mem[p := c], p) != image[p]; }
  }

  lemma SolidReader(st: State, r: nat)
    requires Inv(st) && r < |st.readers| && st.readers[r].pc.Active?
    ensures forall q | q in st.readers[r].pc.snap.image :: At(st.mem, q) == st.readers[r].pc.snap.image[q]
  {
    assert st.readers[r].pc.snap in ActiveSnaps(st.readers);
    assert Solid(st.readers[r].pc.snap, st.mem, st.poss);
  }

  lemma OlderParity(metas: seq<Snapshot>, possMeta: seq<set<Snapshot>>, floor: Txnid, id: Txnid)
    requires MetaIds(metas, possMeta, floor) && id % 2 != metas[PickMeta(metas)].id % 2
    ensures metas[id % 2] == metas[1 - PickMeta(metas)]
  {}

  lemma StaleJoinExec(st: State, e: nat, id: Txnid, c: Page)
    requires |st.metas| == 2 && |st.possMeta| == 2 && st.lock.Unlocked? && st.metas[id % 2] == Older(st)
    ensures var p := Older(st).next;
            var z := Exec(st, [Join(e, id)] + ([Begin(e)] + ([AllocNew] + [WritePage(p, c)])));
            && z.Some? && z.value.readers == st.readers && z.value.mem == st.mem[p := c]
  {
    hide *;
    var p := Older(st).next;
    var a := st.(cache := st.cache[e := 0], mti := id);
    JoinDo(st, e, id);
    JoinFree(st, e, id);
    BeginFree(a, e);
    BeginDo(a, e);
    ExecCons(st, Join(e, id), [Begin(e)] + ([AllocNew] + [WritePage(p, c)]));
    ExecCons(a, Begin(e), [AllocNew] + [WritePage(p, c)]);
    var b := SetWriter(a, FirstWriterOf(e, id + 1, Older(st)));
    FirstWorks(a, e, id + 1, Older(st));
    AllocWrites(b, p, c);
    WrittenIs(b, p, c);
  }

  lemma JoinFree(st: State, e: nat, id: Txnid)
    requires |st.metas| == 2 && |st.possMeta| == 2 && st.lock.Unlocked?
    ensures Enabled(st, Join(e, id))
  {}

  lemma BeginFree(st: State, e: nat)
    requires |st.metas| == 2 && |st.possMeta| == 2 && st.lock.Unlocked?
    ensures Enabled(st, Begin(e))
  {}

  lemma FirstWorks(a: State, e: nat, t: Txnid, base: Snapshot)
    ensures var b := SetWriter(a, FirstWriterOf(e, t, base));
            && b.metas == a.metas && b.possMeta == a.possMeta && b.readers == a.readers && b.mem == a.mem && b.poss == a.poss
            && b.lock.Held? && b.lock.w.pc.Work? && b.lock.w.next == base.next
  {}

  lemma WrittenIs(b: State, p: Pgno, c: Page)
    requires b.lock.Held?
    ensures var z := Written(b, p, c);
            && z.readers == b.readers && z.mem == b.mem[p := c] && z.poss == b.poss[p := PossAt(b.poss, p) + {c}]
            && z.metas == b.metas && z.possMeta == b.possMeta && z.mti == b.mti && z.cache == b.cache
            && z.floor == b.floor && z.committed == b.committed && z.lock == Held(Moved(b.lock.w, AllocNew))
  {
    hide PossAt, Moved;
  }

  /** A page added to the file, and its content. */
  lemma AllocWrites(b: State, p: Pgno, c: Page)
    requires |b.metas| == 2 && |b.possMeta| == 2 && b.lock.Held? && b.lock.w.pc.Work? && b.lock.w.next == p
    ensures Exec(b, [AllocNew] + [WritePage(p, c)]) == Some(Written(b, p, c))
  {
    var d := SetWriter(b, Moved(b.lock.w, AllocNew));
    assert Do(b, AllocNew) == d;
    ExecCons(b, AllocNew, [WritePage(p, c)]);
    WriteDo(d, p, c);
    assert [WritePage(p, c)] == [WritePage(p, c)] + [];
    ExecCons(d, WritePage(p, c), []);
    ExecNone(Written(b, p, c));
  }

  function Written(b: State, p: Pgno, c: Page): State
    requires b.lock.Held?
  {
    SetWriter(b.(mem := b.mem[p := c], poss := b.poss[p := PossAt(b.poss, p) + {c}]), Moved(b.lock.w, AllocNew))
  }
}
