/** What the writer's look for the oldest reader finds.  `MvccSafety` shows that the id is never
    too large; here it is shown to be the right one. */
module MvccScan {
  import opened Options
  import opened Mvcc
  import opened MvccInvariant
  import opened MvccSafety
  import opened Upkeep
  import opened MvccTheorems

  // ---------------------------------------------------------------- slots along a run

  /** The reader table after the first `m` steps. */
  ghost function Table(acts: seq<Action>, m: nat): seq<Reader>
    requires m <= |acts|
  {
    if Run(acts[..m]).Some? then Run(acts[..m]).value.readers else []
  }

  predicate HasPid(readers: seq<Reader>, r: nat) {
    r < |readers| && readers[r].pid
  }

  predicate HasTxn(readers: seq<Reader>, r: nat, v: Txnid) {
    r < |readers| && readers[r].txn == Some(v)
  }

  /** After each step later than `from`, up to step `n`, slot `r` had a process and the id `v`. */
  ghost predicate HeldAlong(acts: seq<Action>, from: nat, n: nat, r: nat, v: Txnid)
    requires n <= |acts|
  {
    forall m | from < m <= n :: HasPid(Table(acts, m), r) && HasTxn(Table(acts, m), r, v)
  }

  /** At some time after step `from` slot `r` had a process, and then, or later, the id `v`. */
  ghost predicate SeenAlong(acts: seq<Action>, from: nat, n: nat, r: nat, v: Txnid)
    requires n <= |acts|
  {
    exists m, m' | from < m <= m' <= n :: HasPid(Table(acts, m), r) && HasTxn(Table(acts, m'), r, v)
  }

  ghost predicate PidAlong(acts: seq<Action>, from: nat, n: nat, r: nat)
    requires n <= |acts|
  {
    exists m | from < m <= n :: HasPid(Table(acts, m), r)
  }

  /** `acc` is the oldest id among `t - 1` and the ids of the slots from `low` on. */
  ghost predicate OldestAlong(acts: seq<Action>, from: nat, n: nat, low: nat, acc: Txnid, t: Txnid)
    requires n <= |acts|
  {
    && acc < t
    && (forall r, v | low <= r && HeldAlong(acts, from, n, r, v) :: acc <= v)
    && (acc + 1 == t || exists r: nat :: SeenAlong(acts, from, n, r, acc))
  }

  /** The last step ends the scan that step `from` starts. */
  predicate OneScan(acts: seq<Action>, from: nat) {
    && from < |acts| - 1 && acts[from].StartScan? && acts[|acts| - 1].EndScan?
    && forall j | from < j < |acts| :: !acts[j].StartScan?
  }

  // ---------------------------------------------------------------- one step more

  lemma RunStep(acts: seq<Action>, n: nat)
    requires 0 < n <= |acts| && Run(acts[..n]).Some?
    ensures Run(acts[..n - 1]).Some?
    ensures var st := Run(acts[..n - 1]).value; Enabled(st, acts[n - 1]) && Run(acts[..n]).value == Do(st, acts[n - 1])
  {
    hide Enabled, Do, Fresh;
    assert acts[..n][..n - 1] == acts[..n - 1];
  }

  lemma OldestKeeps(acts: seq<Action>, from: nat, n: nat, low: nat, acc: Txnid, t: Txnid)
    requires n < |acts| && OldestAlong(acts, from, n, low, acc, t)
    ensures OldestAlong(acts, from, n + 1, low, acc, t)
  {
    hide Run, Table, HasPid, HasTxn;
    var n' := n + 1;
    forall r: nat, v | low <= r && HeldAlong(acts, from, n', r, v) ensures acc <= v {
      assert HeldAlong(acts, from, n, r, v);
    }
    if acc + 1 != t {
      var r: nat :| SeenAlong(acts, from, n, r, acc);
      assert SeenAlong(acts, from, n + 1, r, acc);
    }
  }

  lemma PidKeeps(acts: seq<Action>, from: nat, n: nat, r: nat)
    requires n < |acts| && PidAlong(acts, from, n, r)
    ensures PidAlong(acts, from, n + 1, r)
  {
    hide Run, Table, HasPid;
  }

  lemma NotHeld(acts: seq<Action>, from: nat, n: nat, r: nat, v: Txnid)
    requires from < n <= |acts| && !HasPid(Table(acts, n), r)
    ensures !HeldAlong(acts, from, n, r, v)
  {
    hide Run, Table, HasPid, HasTxn;
  }

  /** A slot without a process is passed over. */
  lemma OldestPasses(acts: seq<Action>, from: nat, n: nat, low: nat, acc: Txnid, t: Txnid)
    requires from < n <= |acts| && OldestAlong(acts, from, n, low + 1, acc, t) && !HasPid(Table(acts, n), low)
    ensures OldestAlong(acts, from, n, low, acc, t)
  {
    hide Run, Table, HasPid, HasTxn, SeenAlong;
    forall v ensures !HeldAlong(acts, from, n, low, v) {
      NotHeld(acts, from, n, low, v);
    }
  }

  /** The id of a slot with a process counts when it is smaller. */
  lemma OldestTakes(acts: seq<Action>, from: nat, n: nat, i: nat, acc: Txnid, acc': Txnid, t: Txnid)
    requires from < n <= |acts| && OldestAlong(acts, from, n, i + 1, acc, t) && PidAlong(acts, from, n, i)
    requires acc' == acc || (acc' < acc && HasTxn(Table(acts, n), i, acc'))
    requires forall v | HasTxn(Table(acts, n), i, v) :: acc' <= v
    ensures OldestAlong(acts, from, n, i, acc', t)
  {
    hide Run, Table, HasPid, HasTxn;
    forall r: nat, v | i <= r && HeldAlong(acts, from, n, r, v) ensures acc' <= v {
      if r == i {
        assert HasTxn(Table(acts, n), r, v);
      }
    }
    if acc' != acc {
      assert SeenAlong(acts, from, n, i, acc');
    }
  }

  predicate Scanning(lock: Lock) {
    lock.Held? && (lock.w.pc.ScanPid? || lock.w.pc.ScanTxn?)
  }

  lemma PageMoveWorks(st: State, a: Action)
    requires |st.metas| == 2 && |st.possMeta| == 2 && Enabled(st, a) && PageMove(a)
    ensures !Scanning(Do(st, a).lock)
  {
    hide Committable, SavedFree, SyncedPages, PickMeta;
  }

  lemma SlotActionLock(st: State, a: Action)
    requires |st.metas| == 2 && |st.possMeta| == 2 && Enabled(st, a) && SlotAction(a)
    ensures Do(st, a).lock == st.lock
  {
    hide Committable, SavedFree, SyncedPages, PickMeta;
  }

  /** A scan goes on only by its own two steps. */
  lemma ScanGoesOn(st: State, a: Action)
    requires |st.metas| == 2 && |st.possMeta| == 2 && Enabled(st, a) && !a.StartScan?
    requires Scanning(Do(st, a).lock)
    ensures Scanning(st.lock)
    ensures Do(st, a).lock == st.lock || ((a.ScanSlotPid? || a.ScanSlotTxn?) && Do(st, a).readers == st.readers)
  {
    hide Committable, SavedFree, SyncedPages, PickMeta, NewSlot, Moved;
    if PageMove(a) {
      PageMoveWorks(st, a);
    } else if SlotAction(a) {
      SlotActionLock(st, a);
    }
  }

  // ---------------------------------------------------------------- the scan

  /** What holds while the scan is under way: `OldestAlong` of the slots already looked at. */
  ghost predicate ScanOk(acts: seq<Action>, from: nat, n: nat, lock: Lock)
    requires n <= |acts|
  {
    lock.Held? ==>
      var w := lock.w;
      && (w.pc.ScanPid? ==> OldestAlong(acts, from, n, w.pc.i, w.pc.acc, w.t))
      && (w.pc.ScanTxn? ==> OldestAlong(acts, from, n, w.pc.i + 1, w.pc.acc, w.t) && PidAlong(acts, from, n, w.pc.i))
  }

  lemma ScanOkKeeps(acts: seq<Action>, from: nat, n: nat, lock: Lock)
    requires n < |acts| && ScanOk(acts, from, n, lock)
    ensures ScanOk(acts, from, n + 1, lock)
  {
    hide OldestAlong, PidAlong;
    if lock.Held? && lock.w.pc.ScanPid? {
      OldestKeeps(acts, from, n, lock.w.pc.i, lock.w.pc.acc, lock.w.t);
    } else if lock.Held? && lock.w.pc.ScanTxn? {
      OldestKeeps(acts, from, n, lock.w.pc.i + 1, lock.w.pc.acc, lock.w.t);
      PidKeeps(acts, from, n, lock.w.pc.i);
    }
  }

  lemma ScanOkStarts(acts: seq<Action>, from: nat, w: Writer)
    requires from < |acts| && 0 < w.t && w.pc == ScanPid(|Table(acts, from + 1)|, w.t - 1)
    ensures ScanOk(acts, from, from + 1, Held(w))
  {
    hide Run, Table, HeldAlong;
    var n := from + 1;
    forall r: nat, v | |Table(acts, n)| <= r ensures !HeldAlong(acts, from, n, r, v) {
      NotHeld(acts, from, n, r, v);
    }
  }

  lemma ScanOkPid(acts: seq<Action>, from: nat, n: nat, w: Writer)
    requires from < n <= |acts| && ScanOk(acts, from, n, Held(w)) && w.pc.ScanPid? && 0 < w.pc.i
    ensures ScanOk(acts, from, n, Held(w.(pc := NextSlot(Table(acts, n), w.pc.i, w.pc.acc))))
  {
    hide OldestAlong, Run, Table;
    var i := w.pc.i - 1;
    if HasPid(Table(acts, n), i) {
      assert PidAlong(acts, from, n, i);
    } else {
      OldestPasses(acts, from, n, i, w.pc.acc, w.t);
    }
  }

  lemma ScanOkTxn(acts: seq<Action>, from: nat, n: nat, w: Writer)
    requires from < n <= |acts| && ScanOk(acts, from, n, Held(w)) && w.pc.ScanTxn?
    ensures var i := w.pc.i;
            var acc := if i < |Table(acts, n)| then MinTxn(w.pc.acc, Table(acts, n)[i].txn) else w.pc.acc;
            ScanOk(acts, from, n, Held(w.(pc := ScanPid(i, acc))))
  {
    hide OldestAlong, PidAlong, Run, Table;
    var i := w.pc.i;
    var acc := if i < |Table(acts, n)| then MinTxn(w.pc.acc, Table(acts, n)[i].txn) else w.pc.acc;
    OldestTakes(acts, from, n, i, w.pc.acc, acc, w.t);
  }

  lemma IdPositive(acts: seq<Action>)
    requires Run(acts).Some? && Working(Run(acts).value)
    ensures 0 < Run(acts).value.lock.w.t
  {
    RunInv(acts);
    hide Run, WellFormed, PickMeta, InvMetas, InvReaders, InvFree, InvMem, SolidAll, InvCommitted, InvWriter;
  }

  lemma TableIs(acts: seq<Action>, m: nat)
    requires m <= |acts| && Run(acts[..m]).Some?
    ensures Table(acts, m) == Run(acts[..m]).value.readers
  {
    hide Run;
  }

  lemma {:induction false} ScanInv(acts: seq<Action>, from: nat, n: nat)
    requires from < n <= |acts| && Run(acts[..n]).Some? && acts[from].StartScan?
    requires forall j | from < j < n :: !acts[j].StartScan?
    ensures ScanOk(acts, from, n, Run(acts[..n]).value.lock)
    decreases n
  {
    RunStep(acts, n);
    hide *;
    var st, a := Run(acts[..n - 1]).value, acts[n - 1];
    TableIs(acts, n);
    TableIs(acts, n - 1);
    if n == from + 1 {
      StartScanDo(st);
      WorkingIf(st);
      IdPositive(acts[..n - 1]);
      ScanOkStarts(acts, from, Do(st, a).lock.w);
    } else {
      ScanInv(acts, from, n - 1);
      ScanOkKeeps(acts, from, n - 1, st.lock);
      ScanInvStep(acts, from, n);
    }
  }

  lemma WorkingIf(st: State)
    ensures Working(st) <==> st.lock.Held? && st.lock.w.pc.Work?
  {}

  lemma NotScanning(acts: seq<Action>, from: nat, n: nat, lock: Lock)
    requires n <= |acts| && !Scanning(lock)
    ensures ScanOk(acts, from, n, lock)
  {}

  lemma ScanInvStep(acts: seq<Action>, from: nat, n: nat)
    requires from + 1 < n <= |acts| && Run(acts[..n]).Some? && Run(acts[..n - 1]).Some? && !acts[n - 1].StartScan?
    requires ScanOk(acts, from, n, Run(acts[..n - 1]).value.lock)
    ensures ScanOk(acts, from, n, Run(acts[..n]).value.lock)
  {
    RunStep(acts, n);
    hide *;
    var st, a := Run(acts[..n - 1]).value, acts[n - 1];
    TableIs(acts, n);
    if !Scanning(Do(st, a).lock) {
      NotScanning(acts, from, n, Do(st, a).lock);
    } else {
      ScanGoesOn(st, a);
      if Do(st, a).lock != st.lock {
        if a.ScanSlotPid? {
          ScanPidDo(st);
          ScanOkPid(acts, from, n, st.lock.w);
        } else {
          ScanTxnDo(st);
          ScanOkTxn(acts, from, n, st.lock.w);
        }
      }
    }
  }

  lemma ScanOkEnds(acts: seq<Action>, from: nat, n: nat, w: Writer)
    requires n <= |acts| && ScanOk(acts, from, n, Held(w)) && w.pc.ScanPid? && w.pc.i == 0
    ensures OldestAlong(acts, from, n, 0, w.pc.acc, w.t)
  {
    hide OldestAlong;
  }

  /** In every run, the scan leaves the id before the writer's own, or the id of a slot that had a
      process when the scan came by, whichever is the oldest: at most the id of each slot that had
      a process and this id all along, and no smaller one than it has seen. */
  lemma ScanFinds(acts: seq<Action>, from: nat)
    requires Run(acts).Some? && OneScan(acts, from)
    ensures Working(Run(acts).value)
    ensures var w := Run(acts).value.lock.w;
            OldestAlong(acts, from, |acts| - 1, 0, CacheAt(Run(acts).value.cache, w.env), w.t)
  {
    var n := |acts| - 1;
    assert acts[..|acts|] == acts;
    RunStep(acts, |acts|);
    hide Run, Enabled, Do, OldestAlong, ScanOk, Working, SetWriter;
    ScanInv(acts, from, n);
    var st := Run(acts[..n]).value;
    EndScanDo(st);
    ScanOkEnds(acts, from, n, st.lock.w);
    ScanEnded(st);
  }

  lemma ScanEnded(st: State)
    requires |st.metas| == 2 && |st.possMeta| == 2 && Enabled(st, EndScan)
    ensures var st' := Do(st, EndScan);
            && Working(st') && st'.lock.w == st.lock.w.(pc := Work) && st'.readers == st.readers
            && CacheAt(st'.cache, st'.lock.w.env) == st.lock.w.pc.acc
  {}

  // ---------------------------------------------------------------- slots that stay

  /** The two fields of its slots that other processes see. */
  predicate SameSlots(a: seq<Reader>, b: seq<Reader>) {
    |a| == |b| && forall r | 0 <= r < |a| :: a[r].pid == b[r].pid && a[r].txn == b[r].txn
  }

  /** `id` is the oldest of `t - 1` and the ids in the slots that have a process. */
  ghost predicate Oldest(readers: seq<Reader>, t: Txnid, id: Txnid) {
    && id < t
    && (forall r, v | HasPid(readers, r) && HasTxn(readers, r, v) :: id <= v)
    && (id + 1 == t || exists r: nat :: HasPid(readers, r) && HasTxn(readers, r, id))
  }

  lemma {:induction false} OldestUnique(readers: seq<Reader>, t: Txnid, id: Txnid, id': Txnid)
    requires Oldest(readers, t, id) && Oldest(readers, t, id')
    ensures id == id'
  {
    hide HasPid, HasTxn;
  }

  /** When no slot changes during the scan, the id it leaves is the oldest one exactly. */
  lemma ScanExact(acts: seq<Action>, from: nat)
    requires Run(acts).Some? && OneScan(acts, from)
    requires forall m | from < m < |acts| :: SameSlots(Table(acts, m), Run(acts).value.readers)
    ensures Working(Run(acts).value)
    ensures var st := Run(acts).value; Oldest(st.readers, st.lock.w.t, CacheAt(st.cache, st.lock.w.env))
  {
    hide *;
    ScanFinds(acts, from);
    SpanOf(acts, from);
    var st := Run(acts).value;
    WorkingIf(st);
    AlongStays(acts, from, |acts| - 1, st.readers, CacheAt(st.cache, st.lock.w.env), st.lock.w.t);
  }

  lemma SpanOf(acts: seq<Action>, from: nat)
    requires OneScan(acts, from)
    ensures from < |acts| - 1
  {}

  lemma AlongStays(acts: seq<Action>, from: nat, n: nat, readers: seq<Reader>, id: Txnid, t: Txnid)
    requires n <= |acts| && OldestAlong(acts, from, n, 0, id, t)
    requires forall m | from < m <= n :: SameSlots(Table(acts, m), readers)
    ensures Oldest(readers, t, id)
  {
    hide Run, Table;
    forall r: nat, v | HasPid(readers, r) && HasTxn(readers, r, v) ensures id <= v {
      assert HeldAlong(acts, from, n, r, v);
    }
    if id + 1 != t {
      var r: nat :| SeenAlong(acts, from, n, r, id);
      assert HasPid(readers, r) && HasTxn(readers, r, id);
    }
  }

  lemma IdleTakes(st: State, k: Txnid)
    requires |st.metas| == 2 && |st.possMeta| == 2 && Working(st)
    requires Oldest(st.readers, st.lock.w.t, CacheAt(st.cache, st.lock.w.env))
    requires forall r, v | HasPid(st.readers, r) :: !HasTxn(st.readers, r, v)
    ensures var w := st.lock.w;
            && CacheAt(st.cache, w.env) + 1 == w.t
            && (k in w.base.free && w.last < k < w.t - 1 && (forall j | j in w.base.free && j < k :: j <= w.last)
                ==> Enabled(st, TakeRecord(k)))
  {
    hide HasPid, HasTxn, CacheAt;
  }

  /** With no id in a slot that has a process, the oldest is the newest commit, and the next
      record of the freeDB, if it is older, can be taken. */
  lemma ScanIdle(acts: seq<Action>, from: nat, k: Txnid)
    requires Run(acts).Some? && OneScan(acts, from)
    requires forall m | from < m < |acts| :: SameSlots(Table(acts, m), Run(acts).value.readers)
    requires forall r, v | HasPid(Run(acts).value.readers, r) :: !HasTxn(Run(acts).value.readers, r, v)
    ensures Working(Run(acts).value)
    ensures var st := Run(acts).value; var w := st.lock.w;
            && CacheAt(st.cache, w.env) + 1 == w.t
            && (k in w.base.free && w.last < k < w.t - 1 && (forall j | j in w.base.free && j < k :: j <= w.last)
                ==> Enabled(st, TakeRecord(k)))
  {
    hide *;
    ScanExact(acts, from);
    IdleTakes(Run(acts).value, k);
  }

  // ---------------------------------------------------------------- a reader that is not disturbed

  lemma RunNext(acts: seq<Action>, a: Action)
    requires Run(acts).Some? && Enabled(Run(acts).value, a) && !a.Join?
    ensures Run(acts + [a]) == Some(Do(Run(acts).value, a))
  {
    hide Enabled, Do;
    assert (acts + [a])[..|acts + [a]| - 1] == acts;
  }

  lemma SlotSteps(st: State, r: nat)
    requires |st.metas| == 2 && |st.possMeta| == 2 && r < |st.readers| && st.readers[r].pid
    ensures st.readers[r].pc.Idle? ==>
              Enabled(st, Load(r)) && Do(st, Load(r)) == SetReader(st, r, st.readers[r].(pc := Loaded(st.mti)))
    ensures st.readers[r].pc == Loaded(st.mti) ==>
              Enabled(st, Store(r)) && Do(st, Store(r)) == SetReader(st, r, Reader(true, Some(st.mti), Stored(st.mti)))
    ensures st.readers[r].pc == Stored(st.mti) ==>
              Enabled(st, Check(r)) && Do(st, Check(r)) == SetReader(st, r, st.readers[r].(pc := Checked(st.mti)))
    ensures st.readers[r].pc == Checked(st.mti) ==>
              && Enabled(st, CopyMeta(r))
              && Do(st, CopyMeta(r)) == SetReader(st, r, st.readers[r].(pc := Active(st.mti, st.metas[st.mti % 2])))
  {
    hide Committable, SavedFree, SyncedPages, PickMeta;
  }

  lemma NewestNamed(st: State)
    requires |st.metas| == 2 && |st.possMeta| == 2 && InvMetas(st.metas, st.possMeta, st.floor)
    requires InvLock(st.lock, st.mti, st.metas) && !st.lock.OwnerDead?
    ensures st.metas[st.mti % 2].id == st.mti
    ensures !(st.lock.Held? && st.lock.w.pc.MetaOut?) ==> st.metas[0].id <= st.mti && st.metas[1].id <= st.mti
  {
    hide WellFormed;
  }

  /** A reader whose steps are not interrupted gets the snapshot of mti_txnid, in its slot from then on. */
  lemma ReadNewest(acts: seq<Action>, r: nat)
    requires Run(acts).Some? && r < |Run(acts).value.readers|
    requires Run(acts).value.readers[r].pid && Run(acts).value.readers[r].pc.Idle?
    ensures var st, more := Run(acts).value, [Load(r), Store(r), Check(r), CopyMeta(r)];
            && Run(acts + more)
               == Some(SetReader(st, r, Reader(true, Some(st.mti), Active(st.mti, st.metas[st.mti % 2]))))
            && (!st.lock.OwnerDead? ==> st.metas[st.mti % 2].id == st.mti)
            && (st.lock.Unlocked? ==> st.metas[0].id <= st.mti && st.metas[1].id <= st.mti)
  {
    hide *;
    RunInv(acts);
    var st := Run(acts).value;
    Parts(st);
    if !st.lock.OwnerDead? { NewestNamed(st); }
    var x1 := st.readers[r].(pc := Loaded(st.mti));
    var x2, x3 := Reader(true, Some(st.mti), Stored(st.mti)), Reader(true, Some(st.mti), Checked(st.mti));
    var x4 := Reader(true, Some(st.mti), Active(st.mti, st.metas[st.mti % 2]));
    SetTwice(st, r, x1, x2);
    SetTwice(st, r, x2, x3);
    SetTwice(st, r, x3, x4);
    SlotSteps(st, r);
    RunNext(acts, Load(r));
    SlotSteps(SetReader(st, r, x1), r);
    RunNext(acts + [Load(r)], Store(r));
    SlotSteps(SetReader(st, r, x2), r);
    RunNext(acts + [Load(r)] + [Store(r)], Check(r));
    SlotSteps(SetReader(st, r, x3), r);
    RunNext(acts + [Load(r)] + [Store(r)] + [Check(r)], CopyMeta(r));
    assert acts + [Load(r)] + [Store(r)] + [Check(r)] + [CopyMeta(r)] == acts + [Load(r), Store(r), Check(r), CopyMeta(r)];
  }

  lemma SlotEnds(st: State, r: nat)
    requires |st.metas| == 2 && |st.possMeta| == 2 && r < |st.readers|
    ensures st.readers[r].pc.Active? && st.readers[r].pid ==>
              Enabled(st, EndRead(r)) && Do(st, EndRead(r)) == SetReader(st, r, Reader(true, None, Idle))
    ensures Enabled(st, ReaderDies(r)) && Do(st, ReaderDies(r)) == SetReader(st, r, st.readers[r].(pc := DeadReader))
    ensures st.readers[r].pc.DeadReader? ==>
              Enabled(st, ClearStale(r)) && Do(st, ClearStale(r)) == SetReader(st, r, Reader(false, st.readers[r].txn, Idle))
    ensures !st.readers[r].pid ==>
              Enabled(st, Claim(r)) && Do(st, Claim(r)) == SetReader(st, r, Reader(true, None, Idle))
  {
    hide Committable, SavedFree, SyncedPages, PickMeta;
  }

  /** When it ends, nothing is left of it: its slot has no id, and all else is as before. */
  lemma ReadEnds(acts: seq<Action>, r: nat)
    requires Run(acts).Some? && r < |Run(acts).value.readers|
    requires Run(acts).value.readers[r].pid && Run(acts).value.readers[r].pc.Idle?
    ensures Run(acts + [Load(r), Store(r), Check(r), CopyMeta(r), EndRead(r)])
            == Some(SetReader(Run(acts).value, r, Reader(true, None, Idle)))
  {
    hide *;
    RunInv(acts);
    var st, more := Run(acts).value, [Load(r), Store(r), Check(r), CopyMeta(r)];
    Parts(st);
    ReadNewest(acts, r);
    var x := Reader(true, Some(st.mti), Active(st.mti, st.metas[st.mti % 2]));
    SetTwice(st, r, x, Reader(true, None, Idle));
    SlotEnds(SetReader(st, r, x), r);
    RunNext(acts + more, EndRead(r));
    assert acts + more + [EndRead(r)] == acts + [Load(r), Store(r), Check(r), CopyMeta(r), EndRead(r)];
  }

  /** A reader may die at any step: once its slot is cleared no scan looks at it, and the next process to claim it
      finds it without an id. */
  lemma SlotAgain(acts: seq<Action>, r: nat)
    requires Run(acts).Some? && r < |Run(acts).value.readers|
    ensures var st := Run(acts).value;
            && Run(acts + [ReaderDies(r), ClearStale(r)]).Some?
            && !HasPid(Run(acts + [ReaderDies(r), ClearStale(r)]).value.readers, r)
            && Run(acts + [ReaderDies(r), ClearStale(r), Claim(r)]) == Some(SetReader(st, r, Reader(true, None, Idle)))
  {
    hide *;
    RunInv(acts);
    var st := Run(acts).value;
    Parts(st);
    var x1, x2 := st.readers[r].(pc := DeadReader), Reader(false, st.readers[r].txn, Idle);
    SetTwice(st, r, x1, x2);
    SetTwice(st, r, x2, Reader(true, None, Idle));
    SlotEnds(st, r);
    RunNext(acts, ReaderDies(r));
    SlotEnds(SetReader(st, r, x1), r);
    RunNext(acts + [ReaderDies(r)], ClearStale(r));
    SlotEnds(SetReader(st, r, x2), r);
    RunNext(acts + [ReaderDies(r)] + [ClearStale(r)], Claim(r));
    assert acts + [ReaderDies(r)] + [ClearStale(r)] == acts + [ReaderDies(r), ClearStale(r)];
    assert acts + [ReaderDies(r)] + [ClearStale(r)] + [Claim(r)] == acts + [ReaderDies(r), ClearStale(r), Claim(r)];
    NoPid(SetReader(st, r, x2).readers, r);
  }

  lemma NoPid(readers: seq<Reader>, r: nat)
    ensures HasPid(readers, r) <==> r < |readers| && readers[r].pid
  {}

  lemma SetTwice(st: State, r: nat, x: Reader, y: Reader)
    requires r < |st.readers|
    ensures SetReader(st, r, x) == st.(readers := st.readers[r := x])
    ensures SetReader(SetReader(st, r, x), r, y) == SetReader(st, r, y) == st.(readers := st.readers[r := y])
  {}
}
