/** How the parts of the invariant are kept up: what the steps of readers and of the writer do to each of them. */
module Upkeep {
  import opened Options
  import opened Mvcc
  import opened MvccInvariant

  // ---------------------------------------------------------------- parts of the invariant

  lemma Parts(st: State)
    requires Inv(st)
    ensures |st.metas| == 2 && |st.possMeta| == 2 && InvMetas(st.metas, st.possMeta, st.floor)
    ensures InvReaders(st.readers, st.mti, st.metas, st.cache)
    ensures InvFree(st.possMeta, ActiveSnaps(st.readers))
    ensures InvMem(st.mem, st.poss)
    ensures SolidAll(MustStay(st.metas, st.possMeta, st.mti, st.readers), st.mem, st.poss)
    ensures InvLock(st.lock, st.mti, st.metas)
    ensures InvWriter(st)
    ensures InvCommitted(st.possMeta, ActiveSnaps(st.readers), st.committed)
  {
    hide InvReaders, InvFree, InvMem, SolidAll, InvLock, InvWriter, InvCommitted, MustStay, ActiveSnaps, WellFormed;
  }

  lemma Whole(st: State)
    requires |st.metas| == 2 && |st.possMeta| == 2 && InvMetas(st.metas, st.possMeta, st.floor)
    requires InvReaders(st.readers, st.mti, st.metas, st.cache)
    requires InvFree(st.possMeta, ActiveSnaps(st.readers))
    requires InvMem(st.mem, st.poss)
    requires SolidAll(MustStay(st.metas, st.possMeta, st.mti, st.readers), st.mem, st.poss)
    requires InvLock(st.lock, st.mti, st.metas)
    requires InvWriter(st)
    requires InvCommitted(st.possMeta, ActiveSnaps(st.readers), st.committed)
    ensures Inv(st)
  {
    hide InvMetas, InvReaders, InvFree, InvMem, SolidAll, InvLock, InvWriter, InvCommitted, MustStay, ActiveSnaps;
  }

  /** The parts of `InvWriter`. */
  lemma WriterParts(st: State)
    requires |st.metas| == 2 && |st.possMeta| == 2 && InvWriter(st) && st.lock.Held? && PreMeta(st.lock.w.pc)
    ensures var w := st.lock.w;
            && Partition(w) && ProtectsAll(w, Live(st)) && InvScan(w.pc, st.mti, st.readers)
            && (w.pc.Saved? || w.pc.Synced? ==> ReadyToCommit(w, w.pc.snap, st.mem))
            && (w.pc.Synced? ==> InvSynced(st.mem, st.poss, st.metas, st.possMeta, st.floor))
  {
    hide Partition, ProtectsAll, Live, InvScan, ReadyToCommit, InvSynced;
  }

  lemma WriterWhole(st: State)
    requires |st.metas| == 2 && |st.possMeta| == 2
    requires st.lock.Held? && PreMeta(st.lock.w.pc) ==>
      var w := st.lock.w;
      && Partition(w) && ProtectsAll(w, Live(st)) && InvScan(w.pc, st.mti, st.readers)
      && (w.pc.Saved? || w.pc.Synced? ==> ReadyToCommit(w, w.pc.snap, st.mem))
      && (w.pc.Synced? ==> InvSynced(st.mem, st.poss, st.metas, st.possMeta, st.floor))
    ensures InvWriter(st)
  {
    hide Partition, ProtectsAll, Live, InvScan, ReadyToCommit, InvSynced;
  }

  lemma FreeFewer(possMeta: seq<set<Snapshot>>, a: set<Snapshot>, b: set<Snapshot>)
    requires |possMeta| == 2 && InvFree(possMeta, a) && b <= possMeta[0] + possMeta[1] + a
    ensures InvFree(possMeta, b)
  {
    hide Unreachable;
  }

  lemma SolidFewer(a: set<Snapshot>, b: set<Snapshot>, mem: map<Pgno, Page>, poss: map<Pgno, set<Page>>)
    requires SolidAll(a, mem, poss) && b <= a
    ensures SolidAll(b, mem, poss)
  {
    hide Solid;
  }

  lemma ProtectsFewer(w: Writer, a: set<Snapshot>, b: set<Snapshot>)
    requires ProtectsAll(w, a) && b <= a
    ensures ProtectsAll(w, b)
  {
    hide Protects;
  }

  lemma KnownMetas(metas: seq<Snapshot>, possMeta: seq<set<Snapshot>>, floor: Txnid)
    requires InvMetas(metas, possMeta, floor)
    ensures |metas| == 2 && |possMeta| == 2 && metas[0] in possMeta[0] && metas[1] in possMeta[1]
    ensures WellFormed(metas[0]) && WellFormed(metas[1])
    ensures var n := PickMeta(metas); metas[n].id % 2 == n && metas[1 - n].id <= metas[n].id && metas[1 - n].next <= metas[n].next
  {
    hide WellFormed;
    assert metas[0] in possMeta[0] + possMeta[1] && metas[1] in possMeta[0] + possMeta[1];
  }

  lemma OneReader(readers: seq<Reader>, mti: Txnid, metas: seq<Snapshot>, cache: map<nat, Txnid>, r: nat)
    requires |metas| == 2 && InvReaders(readers, mti, metas, cache) && r < |readers|
    ensures InvReader(readers[r], mti, metas, cache)
  {
    hide InvReader;
  }

  /** The facts about a page set that most steps need. */
  lemma PagesBelow(s: Snapshot)
    requires WellFormed(s)
    ensures 2 <= s.next && forall p | p in s.image :: 2 <= p < s.next
  {
    hide ReachedOnce;
    forall p | p in s.image ensures 2 <= p < s.next { assert p in Range(s.next); }
  }

  // ---------------------------------------------------------------- readers' steps

  lemma StaysFewer(metas: seq<Snapshot>, possMeta: seq<set<Snapshot>>, mti: Txnid, readers: seq<Reader>, rs: seq<Reader>)
    requires |metas| == 2 && |possMeta| == 2
    requires ActiveSnaps(rs) <= ActiveSnaps(readers) + MustStay(metas, possMeta, mti, readers)
    requires CheckedOlder(rs, PickMeta(metas)) ==> OlderLive(metas, possMeta, mti, readers)
    ensures MustStay(metas, possMeta, mti, rs) <= MustStay(metas, possMeta, mti, readers)
    ensures {metas[0], metas[1]} + ActiveSnaps(rs) <= {metas[0], metas[1]} + ActiveSnaps(readers)
  {
    hide ActiveSnaps, CheckedOlder;
  }

  /** What a change of the reader table must respect. */
  lemma ReadersChange(st: State, rs: seq<Reader>)
    requires Inv(st)
    requires InvReaders(rs, st.mti, st.metas, st.cache)
    requires ActiveSnaps(rs) <= ActiveSnaps(st.readers) + MustStay(st.metas, st.possMeta, st.mti, st.readers)
    requires CheckedOlder(rs, PickMeta(st.metas)) ==> OlderLive(st.metas, st.possMeta, st.mti, st.readers)
    requires st.lock.Held? ==> InvScan(st.lock.w.pc, st.mti, rs)
    ensures Inv(st.(readers := rs))
  {
    Parts(st);
    KnownMetas(st.metas, st.possMeta, st.floor);
    hide InvMetas, InvReaders, InvFree, InvMem, SolidAll, InvLock, InvWriter, MustStay, ActiveSnaps, CheckedOlder, OlderLive,
      ProtectsAll, InvScan, Partition, ReadyToCommit, InvSynced, PickMeta, WellFormed, Inv;
    var st' := st.(readers := rs);
    StaysFewer(st.metas, st.possMeta, st.mti, st.readers, rs);
    SolidFewer(MustStay(st.metas, st.possMeta, st.mti, st.readers), MustStay(st.metas, st.possMeta, st.mti, rs), st.mem, st.poss);
    FreeFewer(st.possMeta, ActiveSnaps(st.readers), ActiveSnaps(rs));
    if st.lock.Held? && PreMeta(st.lock.w.pc) {
      WriterParts(st);
      ProtectsFewer(st.lock.w, Live(st), Live(st'));
    }
    WriterWhole(st');
    Whole(st');
  }

  lemma ReadersWith(readers: seq<Reader>, mti: Txnid, metas: seq<Snapshot>, cache: map<nat, Txnid>, r: nat, x: Reader)
    requires |metas| == 2 && InvReaders(readers, mti, metas, cache) && r < |readers| && InvReader(x, mti, metas, cache)
    ensures InvReaders(readers[r := x], mti, metas, cache)
  {
    hide InvReader;
  }

  lemma ActiveWith(readers: seq<Reader>, r: nat, x: Reader)
    requires r < |readers|
    ensures ActiveSnaps(readers[r := x]) <= ActiveSnaps(readers) + if x.pc.Active? then {x.pc.snap} else {}
  {
    var rs := readers[r := x];
    forall s | s in ActiveSnaps(rs) && !(x.pc.Active? && s == x.pc.snap) ensures s in ActiveSnaps(readers) {
      var i :| 0 <= i < |rs| && rs[i].pc.Active? && rs[i].pc.snap == s;
      assert readers[i].pc.Active?;
    }
  }

  lemma CheckedWith(readers: seq<Reader>, r: nat, x: Reader, n: nat)
    requires r < |readers| && CheckedOlder(readers[r := x], n)
    ensures CheckedOlder(readers, n) || (x.pc.Checked? && x.pc.v % 2 != n)
  {
    var rs := readers[r := x];
    var i :| 0 <= i < |rs| && rs[i].pc.Checked? && rs[i].pc.v % 2 != n;
    assert i != r ==> readers[i].pc.Checked?;
  }

  lemma ScanWith(pc: Phase, mti: Txnid, readers: seq<Reader>, r: nat, x: Reader)
    requires r < |readers| && InvScan(pc, mti, readers)
    requires x.pc.Active? ==> readers[r].pc == Checked(x.pc.v)
    requires x.pc.Checked? ==> x.pc.v == mti
    ensures InvScan(pc, mti, readers[r := x])
  {}

  /** Only before the meta page is written are there scans. */
  lemma ScanOf(st: State)
    requires Inv(st) && st.lock.Held?
    ensures InvScan(st.lock.w.pc, st.mti, st.readers)
  {
    Parts(st);
    hide Inv, InvMetas, InvReaders, InvFree, InvMem, SolidAll, InvLock, MustStay, ActiveSnaps;
    if PreMeta(st.lock.w.pc) { WriterParts(st); }
  }

  lemma OlderWith(metas: seq<Snapshot>, possMeta: seq<set<Snapshot>>, mti: Txnid, readers: seq<Reader>, r: nat, x: Reader)
    requires |metas| == 2 && |possMeta| == 2 && r < |readers| && metas[PickMeta(metas)].id % 2 == PickMeta(metas)
    requires x.pc.Checked? ==> x.pc.v == mti
    requires CheckedOlder(readers[r := x], PickMeta(metas))
    ensures OlderLive(metas, possMeta, mti, readers)
  {
    hide CheckedOlder;
    CheckedWith(readers, r, x, PickMeta(metas));
  }

  /** As above, for one slot. */
  lemma SlotChange(st: State, r: nat, x: Reader)
    requires Inv(st) && r < |st.readers|
    requires InvReader(x, st.mti, st.metas, st.cache)
    requires x.pc.Active? ==> x.pc.snap in MustStay(st.metas, st.possMeta, st.mti, st.readers) && st.readers[r].pc == Checked(x.pc.v)
    requires x.pc.Checked? ==> x.pc.v == st.mti
    ensures Inv(SetReader(st, r, x))
  {
    Parts(st);
    KnownMetas(st.metas, st.possMeta, st.floor);
    if st.lock.Held? { ScanOf(st); }
    hide Inv, InvMetas, InvReader, InvReaders, InvFree, InvMem, SolidAll, InvLock, InvWriter, InvCommitted, MustStay,
      ActiveSnaps, CheckedOlder, OlderLive, InvScan, PickMeta, WellFormed;
    var rs := st.readers[r := x];
    ReadersWith(st.readers, st.mti, st.metas, st.cache, r, x);
    ActiveWith(st.readers, r, x);
    if st.lock.Held? { ScanWith(st.lock.w.pc, st.mti, st.readers, r, x); }
    if CheckedOlder(rs, PickMeta(st.metas)) { OlderWith(st.metas, st.possMeta, st.mti, st.readers, r, x); }
    ReadersChange(st, rs);
  }

  /** A new slot, at the end of the table. */
  lemma NewSlotChange(st: State)
    requires Inv(st)
    ensures Inv(st.(readers := st.readers + [Reader(true, None, Idle)]))
  {
    Parts(st);
    if st.lock.Held? { ScanOf(st); }
    hide *;
    var n := PickMeta(st.metas);
    LongerTable(st.readers, n);
    LongerReaders(st.readers, st.mti, st.metas, st.cache);
    if st.lock.Held? { LongerScan(st.lock.w.pc, st.mti, st.readers); }
    if CheckedOlder(st.readers, n) { CheckedLive(st.metas, st.possMeta, st.mti, st.readers); }
    ReadersChange(st, st.readers + [Reader(true, None, Idle)]);
  }

  lemma CheckedLive(metas: seq<Snapshot>, possMeta: seq<set<Snapshot>>, mti: Txnid, readers: seq<Reader>)
    requires |metas| == 2 && |possMeta| == 2 && CheckedOlder(readers, PickMeta(metas))
    ensures OlderLive(metas, possMeta, mti, readers)
  {
    hide CheckedOlder;
  }

  lemma LongerReaders(readers: seq<Reader>, mti: Txnid, metas: seq<Snapshot>, cache: map<nat, Txnid>)
    requires |metas| == 2 && InvReaders(readers, mti, metas, cache)
    ensures InvReaders(readers + [Reader(true, None, Idle)], mti, metas, cache)
  {
    assert InvReader(Reader(true, None, Idle), mti, metas, cache);
    hide InvReader;
  }

  lemma LongerScan(pc: Phase, mti: Txnid, readers: seq<Reader>)
    requires InvScan(pc, mti, readers)
    ensures InvScan(pc, mti, readers + [Reader(true, None, Idle)])
  {}

  lemma LongerTable(readers: seq<Reader>, n: nat)
    ensures var rs := readers + [Reader(true, None, Idle)];
            ActiveSnaps(rs) <= ActiveSnaps(readers) && (CheckedOlder(rs, n) ==> CheckedOlder(readers, n))
  {
    var rs := readers + [Reader(true, None, Idle)];
    forall s | s in ActiveSnaps(rs) ensures s in ActiveSnaps(readers) {
      var i :| 0 <= i < |rs| && rs[i].pc.Active? && rs[i].pc.snap == s;
      assert readers[i].pc.Active?;
    }
    if CheckedOlder(rs, n) {
      var i :| 0 <= i < |rs| && rs[i].pc.Checked? && rs[i].pc.v % 2 != n;
      assert readers[i].pc.Checked?;
    }
  }

  lemma ClaimDo(st: State, r: nat)
    requires |st.metas| == 2 && |st.possMeta| == 2 && Enabled(st, Claim(r))
    ensures r <= |st.readers|
    ensures var x := Reader(true, None, Idle);
            Do(st, Claim(r)) == if r == |st.readers| then st.(readers := st.readers + [x]) else SetReader(st, r, x)
  {}

  lemma IdleOk(mti: Txnid, metas: seq<Snapshot>, cache: map<nat, Txnid>)
    requires |metas| == 2
    ensures InvReader(Reader(true, None, Idle), mti, metas, cache)
  {}

  lemma NewSlotOk(x: Reader, a: Action, mti: Txnid, metas: seq<Snapshot>, cache: map<nat, Txnid>)
    requires SlotAction(a) && (a.Store? ==> x.pc.Loaded?) && (a.Check? ==> x.pc.Stored?)
    requires a.Load? ==> x.pc.Idle? && x.pid
    requires a.Release? ==> x.pc.Idle?
    requires |metas| == 2 && InvReader(x, mti, metas, cache)
    requires mti <= metas[PickMeta(metas)].id && (mti % 2 != PickMeta(metas) ==> mti <= metas[1 - PickMeta(metas)].id)
    requires forall e | e in cache :: cache[e] <= mti
    ensures var y := NewSlot(x, a, mti);
            InvReader(y, mti, metas, cache) && !y.pc.Active? && (y.pc.Checked? ==> y.pc.v == mti)
  {
    hide WellFormed;
  }

  /** mti_txnid is not newer than the meta page it selects. */
  lemma MtiBelow(st: State)
    requires Inv(st)
    ensures |st.metas| == 2 && st.mti <= st.metas[PickMeta(st.metas)].id
    ensures st.mti % 2 != PickMeta(st.metas) ==> st.mti <= st.metas[1 - PickMeta(st.metas)].id
    ensures forall e | e in st.cache :: st.cache[e] <= st.mti
  {
    Parts(st);
    hide Inv, InvReader, InvFree, InvMem, SolidAll, InvWriter, InvCommitted, MustStay, ActiveSnaps, WellFormed;
    MtiLock(st.lock, st.mti, st.metas);
    KnownMetas(st.metas, st.possMeta, st.floor);
  }

  lemma MtiLock(lock: Lock, mti: Txnid, metas: seq<Snapshot>)
    requires |metas| == 2 && InvLock(lock, mti, metas)
    ensures mti <= metas[PickMeta(metas)].id <= mti + 1
  {}

  lemma SlotDo(st: State, a: Action)
    requires |st.metas| == 2 && |st.possMeta| == 2 && Enabled(st, a) && SlotAction(a)
    ensures SlotOf(a) < |st.readers|
    ensures var x := st.readers[SlotOf(a)];
            && (a.Store? ==> x.pc.Loaded?) && (a.Check? ==> x.pc.Stored?) && (a.Load? ==> x.pc.Idle? && x.pid)
            && (a.Release? ==> x.pc.Idle?) && Do(st, a) == SetReader(st, SlotOf(a), NewSlot(x, a, st.mti))
  {}

  /** The meta page a reader copies after its check is at least as new as the id it published. */
  lemma CopiedMeta(st: State, r: nat)
    requires Inv(st) && r < |st.readers| && st.readers[r].pc.Checked?
    ensures |st.metas| == 2 && |st.possMeta| == 2
    ensures var v := st.readers[r].pc.v;
            var s := st.metas[v % 2];
            && s in MustStay(st.metas, st.possMeta, st.mti, st.readers)
            && v <= s.id && WellFormed(s)
            && s.id <= st.metas[PickMeta(st.metas)].id && s.next <= st.metas[PickMeta(st.metas)].next
  {
    Parts(st);
    KnownMetas(st.metas, st.possMeta, st.floor);
    OneReader(st.readers, st.mti, st.metas, st.cache, r);
    hide *;
    var n := PickMeta(st.metas);
    CheckedBelow(st.readers[r], st.mti, st.metas, st.cache);
    LiveStays(st.metas, st.possMeta, st.mti, st.readers);
    if st.readers[r].pc.v % 2 != n {
      ChecksOlder(st.readers, r, n);
      CheckedLive(st.metas, st.possMeta, st.mti, st.readers);
      assert st.readers[r].pc.v % 2 == 1 - n;
    }
  }

  lemma CheckedBelow(x: Reader, mti: Txnid, metas: seq<Snapshot>, cache: map<nat, Txnid>)
    requires |metas| == 2 && InvReader(x, mti, metas, cache) && x.pc.Checked?
    ensures x.pc.v <= metas[x.pc.v % 2].id
  {}

  lemma ChecksOlder(readers: seq<Reader>, r: nat, n: nat)
    requires r < |readers| && readers[r].pc.Checked? && readers[r].pc.v % 2 != n
    ensures CheckedOlder(readers, n)
  {}

  lemma LiveStays(metas: seq<Snapshot>, possMeta: seq<set<Snapshot>>, mti: Txnid, readers: seq<Reader>)
    requires |metas| == 2 && |possMeta| == 2
    ensures metas[PickMeta(metas)] in MustStay(metas, possMeta, mti, readers)
    ensures OlderLive(metas, possMeta, mti, readers) ==> metas[1 - PickMeta(metas)] in MustStay(metas, possMeta, mti, readers)
  {
    hide OlderLive, ActiveSnaps;
  }

  lemma CopyDo(st: State, r: nat)
    requires |st.metas| == 2 && |st.possMeta| == 2 && Enabled(st, CopyMeta(r))
    ensures r < |st.readers| && st.readers[r].pc.Checked?
    ensures var x := st.readers[r];
            Do(st, CopyMeta(r)) == SetReader(st, r, x.(pc := Active(x.pc.v, st.metas[x.pc.v % 2])))
  {}

  lemma CopiedOk(x: Reader, mti: Txnid, metas: seq<Snapshot>, cache: map<nat, Txnid>, s: Snapshot)
    requires |metas| == 2 && InvReader(x, mti, metas, cache) && x.pc.Checked?
    requires x.pc.v <= s.id && WellFormed(s)
    requires s.id <= metas[PickMeta(metas)].id && s.next <= metas[PickMeta(metas)].next
    ensures InvReader(x.(pc := Active(x.pc.v, s)), mti, metas, cache)
  {
    hide WellFormed, PickMeta;
  }

  // ---------------------------------------------------------------- the writer's steps

  /** The writer's sets do not depend on its phase. */
  lemma PhaseFrame(w: Writer, pc: Phase, snaps: set<Snapshot>)
    requires Partition(w) && ProtectsAll(w, snaps)
    ensures Partition(w.(pc := pc)) && ProtectsAll(w.(pc := pc), snaps)
    ensures forall s, mem | Committable(w, s, mem) :: Committable(w.(pc := pc), s, mem)
  {
    hide FreePages, ReachedOnce;
    var w' := w.(pc := pc);
    assert forall p: Pgno :: Places(w', p) == Places(w, p);
    assert forall s | Protects(w, s) :: Protects(w', s);
    assert forall f | SavedFree(w, f) :: SavedFree(w', f);
  }

  /** A step that only moves the writer between working and scanning. */
  lemma ScanMoves(st: State, pc: Phase)
    requires Inv(st) && st.lock.Held? && PreMeta(st.lock.w.pc)
    requires PreMeta(pc) && !pc.Saved? && !pc.Synced? && InvScan(pc, st.mti, st.readers)
    ensures Inv(SetWriter(st, st.lock.w.(pc := pc)))
  {
    Parts(st);
    WriterParts(st);
    hide Inv, InvMetas, InvReaders, InvFree, InvMem, SolidAll, InvCommitted, InvWriter, InvScan, MustStay, ActiveSnaps,
      Partition, ProtectsAll, PickMeta;
    var st' := SetWriter(st, st.lock.w.(pc := pc));
    PhaseFrame(st.lock.w, pc, Live(st));
    WriterWhole(st');
    Whole(st');
  }

  lemma StartScanDo(st: State)
    requires |st.metas| == 2 && |st.possMeta| == 2 && Enabled(st, StartScan)
    ensures st.lock.Held? && st.lock.w.pc.Work?
    ensures var w := st.lock.w;
            Do(st, StartScan) == SetWriter(st, w.(pc := ScanPid(|st.readers|, if w.t > 0 then w.t - 1 else 0)))
  {}

  /** Where a scan starts from. */
  lemma ScanStart(pc: Phase, mti: Txnid, readers: seq<Reader>)
    requires pc == ScanPid(|readers|, mti)
    ensures PreMeta(pc) && InvScan(pc, mti, readers)
  {}

  lemma AtWork(pc: Phase)
    ensures pc.Work? || pc.ScanPid? || pc.ScanTxn? || pc.Saved? || pc.Synced? <==> PreMeta(pc)
  {}

  lemma ScanPidDo(st: State)
    requires |st.metas| == 2 && |st.possMeta| == 2 && Enabled(st, ScanSlotPid)
    ensures st.lock.Held? && st.lock.w.pc.ScanPid? && 0 < st.lock.w.pc.i
    ensures var w := st.lock.w; Do(st, ScanSlotPid) == SetWriter(st, w.(pc := NextSlot(st.readers, w.pc.i, w.pc.acc)))
  {}

  /** A slot without a process needs no look at its id. */
  lemma PidScanned(readers: seq<Reader>, mti: Txnid, metas: seq<Snapshot>, cache: map<nat, Txnid>, i: nat, acc: Txnid)
    requires |metas| == 2 && InvReaders(readers, mti, metas, cache) && 0 < i && InvScan(ScanPid(i, acc), mti, readers)
    ensures var pc := NextSlot(readers, i, acc); InvScan(pc, mti, readers) && PreMeta(pc) && !pc.Saved? && !pc.Synced?
  {
    hide WellFormed, PickMeta;
    if i - 1 < |readers| {
      assert InvReader(readers[i - 1], mti, metas, cache);
    }
  }

  lemma ScanTxnDo(st: State)
    requires |st.metas| == 2 && |st.possMeta| == 2 && Enabled(st, ScanSlotTxn)
    ensures st.lock.Held? && st.lock.w.pc.ScanTxn?
    ensures var w := st.lock.w; var i := w.pc.i;
            Do(st, ScanSlotTxn)
            == SetWriter(st, w.(pc := ScanPid(i, if i < |st.readers| then MinTxn(w.pc.acc, st.readers[i].txn) else w.pc.acc)))
  {}

  lemma TxnScanned(readers: seq<Reader>, mti: Txnid, metas: seq<Snapshot>, cache: map<nat, Txnid>, i: nat, acc: Txnid)
    requires |metas| == 2 && InvReaders(readers, mti, metas, cache) && InvScan(ScanTxn(i, acc), mti, readers)
    ensures InvScan(ScanPid(i, if i < |readers| then MinTxn(acc, readers[i].txn) else acc), mti, readers)
  {
    hide WellFormed, PickMeta;
    if i < |readers| {
      assert InvReader(readers[i], mti, metas, cache);
    }
  }

  /** The cached oldest reader must not be above the id of a reader past its re-check. */
  lemma CacheChange(st: State, cache: map<nat, Txnid>)
    requires Inv(st) && |st.metas| == 2 && InvReaders(st.readers, st.mti, st.metas, cache)
    ensures Inv(st.(cache := cache))
  {
    Parts(st);
    hide Inv, InvMetas, InvReaders, InvFree, InvMem, SolidAll, InvCommitted, InvLock, InvScan, MustStay, ActiveSnaps,
      Partition, ProtectsAll, ReadyToCommit, InvSynced;
    var st' := st.(cache := cache);
    assert Live(st') == Live(st);
    Whole(st');
  }

  lemma CacheScanned(readers: seq<Reader>, mti: Txnid, metas: seq<Snapshot>, cache: map<nat, Txnid>, e: nat, acc: Txnid)
    requires |metas| == 2 && InvReaders(readers, mti, metas, cache) && InvScan(ScanPid(0, acc), mti, readers)
    ensures InvReaders(readers, mti, metas, cache[e := acc])
  {
    hide WellFormed, PickMeta;
    forall r | 0 <= r < |readers| ensures InvReader(readers[r], mti, metas, cache[e := acc]) {
      assert InvReader(readers[r], mti, metas, cache);
    }
  }

  lemma EndScanDo(st: State)
    requires |st.metas| == 2 && |st.possMeta| == 2 && Enabled(st, EndScan)
    ensures st.lock.Held? && st.lock.w.pc.ScanPid? && st.lock.w.pc.i == 0
    ensures var w := st.lock.w;
            Do(st, EndScan) == SetWriter(st.(cache := st.cache[w.env := w.pc.acc]), w.(pc := Work))
  {}

  lemma NoScan(mti: Txnid, readers: seq<Reader>)
    ensures InvScan(Work, mti, readers) && PreMeta(Work)
  {}

  lemma FirstPartition(env: nat, t: Txnid, base: Snapshot, snaps: set<Snapshot>)
    requires WellFormed(base)
    ensures Partition(FirstWriterOf(env, t, base)) && ProtectsAll(FirstWriterOf(env, t, base), snaps)
  {
    hide ReachedOnce, FreePages;
    var w := FirstWriterOf(env, t, base);
    forall p: Pgno ensures Places(w, p) == if 2 <= p < base.next then 1 else 0 {
      assert p in Range(base.next) <==> p in base.image.Keys || p in FreePages(base.free, 0);
      if p in base.image.Keys { NotListed(base, p); }
    }
  }

  lemma NotListed(s: Snapshot, p: Pgno)
    requires (forall k | k in s.free :: s.free[k] !! s.image.Keys) && p in s.image
    ensures p !in FreePages(s.free, 0)
  {}

  lemma BeginDo(st: State, env: nat)
    requires |st.metas| == 2 && |st.possMeta| == 2 && Enabled(st, Begin(env))
    ensures st.lock.Unlocked?
    ensures Do(st, Begin(env)) == SetWriter(st, FirstWriterOf(env, st.mti + 1, st.metas[st.mti % 2]))
  {}

  lemma BeginLock(env: nat, mti: Txnid, metas: seq<Snapshot>)
    requires |metas| == 2 && mti == metas[PickMeta(metas)].id
    ensures var w := FirstWriterOf(env, mti + 1, metas[PickMeta(metas)]); InvLock(Held(w), mti, metas) && PreMeta(w.pc)
  {
    hide PickMeta;
  }

  lemma FreeLock(mti: Txnid, metas: seq<Snapshot>)
    requires |metas| == 2 && InvLock(Unlocked, mti, metas)
    ensures mti == metas[PickMeta(metas)].id
  {}

  lemma FirstPc(env: nat, t: Txnid, base: Snapshot)
    ensures FirstWriterOf(env, t, base).pc == Work
  {}

  lemma Holding(st: State, w: Writer)
    ensures SetWriter(st, w) == st.(lock := Held(w))
    ensures |st.metas| == 2 ==> Live(SetWriter(st, w)) == Live(st)
  {}

  lemma ActiveBelow(x: Reader, mti: Txnid, metas: seq<Snapshot>, cache: map<nat, Txnid>)
    requires |metas| == 2 && InvReader(x, mti, metas, cache) && x.pc.Active?
    ensures var s := x.pc.snap;
            && WellFormed(s) && s.id <= metas[PickMeta(metas)].id && s.next <= metas[PickMeta(metas)].next
            && forall e | e in cache :: cache[e] <= s.id
  {
    hide WellFormed, PickMeta;
  }

  lemma MetaBelow(metas: seq<Snapshot>, possMeta: seq<set<Snapshot>>, floor: Txnid, s: Snapshot)
    requires InvMetas(metas, possMeta, floor) && (s == metas[0] || s == metas[1])
    ensures WellFormed(s) && s.id <= metas[PickMeta(metas)].id <= s.id + 1 && s.next <= metas[PickMeta(metas)].next
    ensures s in possMeta[0] + possMeta[1]
  {
    KnownMetas(metas, possMeta, floor);
    hide WellFormed;
  }

  /** Every live snapshot ends below the newest one. */
  lemma LiveBelow(st: State, s: Snapshot)
    requires Inv(st) && s in Live(st)
    ensures WellFormed(s) && s.id <= st.metas[PickMeta(st.metas)].id && 2 <= s.next
    ensures forall p | p in s.image :: p < st.metas[PickMeta(st.metas)].next
    ensures st.mti == st.metas[PickMeta(st.metas)].id ==> forall e | e in st.cache :: st.cache[e] <= s.id + 1
    ensures s in st.possMeta[0] + st.possMeta[1] + ActiveSnaps(st.readers)
  {
    Parts(st);
    MtiBelow(st);
    hide Inv, InvMetas, InvReader, InvReaders, InvFree, InvMem, SolidAll, InvCommitted, InvLock, InvWriter, MustStay,
      WellFormed, PickMeta;
    if s in ActiveSnaps(st.readers) {
      var i :| 0 <= i < |st.readers| && st.readers[i].pc.Active? && st.readers[i].pc.snap == s;
      OneReader(st.readers, st.mti, st.metas, st.cache, i);
      ActiveBelow(st.readers[i], st.mti, st.metas, st.cache);
    } else {
      MetaBelow(st.metas, st.possMeta, st.floor, s);
    }
    PagesBelow(s);
  }

  /** Frame for the steps that only move pages between the writer's sets. */
  lemma WriterMoves(st: State, w: Writer)
    requires Inv(st) && Working(st)
    requires w.pc.Work? && w.t == st.lock.w.t && w.base == st.lock.w.base
    requires Partition(w)
    requires forall p | p in w.dirty || p in w.head ::
               p in st.lock.w.dirty || p in st.lock.w.head || p >= w.base.next
    ensures Inv(SetWriter(st, w))
  {
    forall s | s in Live(st) ensures Protects(w, s) {
      LiveBelow(st, s);
      assert Protects(st.lock.w, s);
    }
  }

  lemma WriterOk(st: State)
    requires Inv(st) && Working(st)
    ensures Partition(st.lock.w) && 2 <= st.lock.w.base.next <= st.lock.w.next && PreMeta(st.lock.w.pc)
  {
    assert st.lock.w.base in Live(st);
    LiveBelow(st, st.lock.w.base);
  }

  lemma TakeRecordProtects(st: State, k: Txnid)
    requires Inv(st) && Enabled(st, TakeRecord(k))
    ensures ProtectsAll(Do(st, TakeRecord(k)).lock.w, Live(st))
  {
    var w := st.lock.w;
    var w' := Do(st, TakeRecord(k)).lock.w;
    assert w.env in st.cache;
    assert w.base in st.possMeta[0] + st.possMeta[1];
    forall s | s in Live(st) ensures Protects(w', s) {
      LiveBelow(st, s);
      assert Unreachable(w.base, s);
      assert Protects(w, s);
    }
  }

  lemma StaysLive(metas: seq<Snapshot>, possMeta: seq<set<Snapshot>>, mti: Txnid, readers: seq<Reader>)
    requires |metas| == 2 && |possMeta| == 2
    ensures MustStay(metas, possMeta, mti, readers) <= {metas[0], metas[1]} + ActiveSnaps(readers)
  {
    hide ActiveSnaps, OlderLive;
  }

  /** A write to a page they do not have. */
  lemma WriteElsewhere(snaps: set<Snapshot>, mem: map<Pgno, Page>, poss: map<Pgno, set<Page>>, p: Pgno, c: Page)
    requires InvMem(mem, poss) && SolidAll(snaps, mem, poss) && forall s | s in snaps :: p !in s.image
    ensures var mem', poss' := mem[p := c], poss[p := PossAt(poss, p) + {c}];
            InvMem(mem', poss') && SolidAll(snaps, mem', poss')
  {
    var mem', poss' := mem[p := c], poss[p := PossAt(poss, p) + {c}];
    forall s | s in snaps ensures Solid(s, mem', poss') {
      assert Solid(s, mem, poss);
    }
    forall q ensures At(mem', q) in PossAt(poss', q) {
      assert At(mem, q) in PossAt(poss, q);
    }
  }

  lemma WriteDo(st: State, p: Pgno, c: Page)
    requires |st.metas| == 2 && |st.possMeta| == 2 && Enabled(st, WritePage(p, c))
    ensures st.lock.Held? && st.lock.w.pc.Work? && p in st.lock.w.dirty
    ensures Do(st, WritePage(p, c)) == st.(mem := st.mem[p := c], poss := st.poss[p := PossAt(st.poss, p) + {c}])
  {}

  lemma NotProtected(w: Writer, snaps: set<Snapshot>, p: Pgno)
    requires ProtectsAll(w, snaps) && p in w.dirty
    ensures forall s | s in snaps :: p !in s.image
  {
    forall s | s in snaps ensures p !in s.image {
      assert Protects(w, s);
    }
  }

  lemma LiveIs(st: State)
    requires |st.metas| == 2
    ensures Live(st) == {st.metas[0], st.metas[1]} + ActiveSnaps(st.readers)
  {}

  /** Where the pages of a record that was saved come from. */
  lemma SavedWhere(w: Writer, f: map<Txnid, set<Pgno>>, k: Txnid, p: Pgno)
    requires SavedFree(w, f) && k in f && p in f[k] && w.last <= w.base.id < w.t && w.t !in w.base.free
    ensures if k <= w.last then p in w.head
            else if k == w.t then p in w.freed
            else k in w.base.free && p in w.base.free[k] && p in FreePages(w.base.free, w.last)
  {}

  lemma SavedPages(w: Writer, f: map<Txnid, set<Pgno>>)
    requires SavedFree(w, f) && w.last <= w.base.id < w.t && w.t !in w.base.free
    ensures forall p: Pgno ::
              p in FreePages(f, 0) <==> p in w.head || p in w.freed || p in FreePages(w.base.free, w.last)
  {
    forall p: Pgno
      ensures p in FreePages(f, 0) <==> p in w.head || p in w.freed || p in FreePages(w.base.free, w.last)
    {
      if p in w.head {
        var k :| k in f && k <= w.last && p in f[k];
      }
      if p in w.freed { assert w.t in f; }
      if k :| k in w.base.free && k > w.last && p in w.base.free[k] { assert k in f; }
    }
  }

  /** No page is in two places of the writer. */
  lemma OnePlace(w: Writer, p: Pgno)
    requires Partition(w)
    ensures !(p in w.head && p in w.freed) && !(p in w.tree && (p in w.head || p in w.freed))
    ensures p in FreePages(w.base.free, w.last) ==> p !in w.tree && p !in w.head && p !in w.freed
    ensures 2 <= p < w.next <==> p in w.tree || p in w.loose || p in w.head || p in w.freed || p in FreePages(w.base.free, w.last)
  {
    assert Places(w, p) == if 2 <= p < w.next then 1 else 0;
  }

  lemma SavedApart(w: Writer, f: map<Txnid, set<Pgno>>, k: Txnid, k': Txnid, p: Pgno)
    requires Partition(w) && SavedFree(w, f) && w.t == w.base.id + 1 && w.t !in w.base.free
    requires forall j, j' | j in w.base.free && j' in w.base.free && j < j' :: w.base.free[j] !! w.base.free[j']
    requires k in f && k' in f && k < k' && p in f[k]
    ensures p !in f[k']
  {
    hide SavedFree, FreePages;
    OnePlace(w, p);
    if p in f[k'] {
      SavedWhere(w, f, k, p);
      SavedWhere(w, f, k', p);
      if k' <= w.last { SavedLow(w, f, k, k'); }
    }
  }

  lemma SavedLow(w: Writer, f: map<Txnid, set<Pgno>>, k: Txnid, k': Txnid)
    requires SavedFree(w, f) && k in f && k' in f && k < k' <= w.last
    ensures f[k] !! f[k']
  {}

  lemma SavedKeys(w: Writer, f: map<Txnid, set<Pgno>>, k: Txnid)
    requires SavedFree(w, f) && k in f && WellFormed(w.base) && w.last <= w.base.id < w.t
    ensures 1 <= k <= w.t
  {}

  lemma BaseOk(st: State)
    requires Inv(st) && st.lock.Held? && PreMeta(st.lock.w.pc)
    ensures |st.metas| == 2 && |st.possMeta| == 2
    ensures var w := st.lock.w; var base := st.metas[PickMeta(st.metas)];
            && w.base == base && WellFormed(base) && base in st.possMeta[0] + st.possMeta[1]
            && w.t == base.id + 1 && st.mti == base.id && (forall k | k in base.free :: 1 <= k < w.t)
  {
    Parts(st);
    KnownMetas(st.metas, st.possMeta, st.floor);
    hide Inv, InvMetas, InvReaders, InvFree, InvMem, SolidAll, InvCommitted, InvWriter, MustStay, ActiveSnaps, ReachedOnce;
  }

  lemma SaveDo(st: State, snap: Snapshot)
    requires |st.metas| == 2 && |st.possMeta| == 2 && Enabled(st, Save(snap))
    ensures st.lock.Held? && st.lock.w.pc.Work? && st.lock.w.loose == {} && Committable(st.lock.w, snap, st.mem)
    ensures Do(st, Save(snap)) == SetWriter(st, st.lock.w.(pc := Saved(snap)))
  {}

  lemma CommitParts(w: Writer, s: Snapshot, mem: map<Pgno, Page>)
    requires Committable(w, s, mem)
    ensures s.id == w.t && s.next == w.next && s.image.Keys == w.tree && ReachedOnce(s) && SavedFree(w, s.free)
    ensures forall p | p in s.image :: s.image[p] == At(mem, p)
  {
    hide ReachedOnce, SavedFree;
  }

  lemma LockPhase(w: Writer, pc: Phase, mti: Txnid, metas: seq<Snapshot>)
    requires |metas| == 2 && InvLock(Held(w), mti, metas) && PreMeta(w.pc) && PreMeta(pc)
    ensures InvLock(Held(w.(pc := pc)), mti, metas)
  {
    hide PickMeta;
  }

  lemma NoScanSaved(snap: Snapshot, mti: Txnid, readers: seq<Reader>)
    ensures InvScan(Saved(snap), mti, readers) && PreMeta(Saved(snap))
    ensures InvScan(Synced(snap), mti, readers) && PreMeta(Synced(snap))
  {}

  lemma SaveReady(w: Writer, snap: Snapshot, mem: map<Pgno, Page>)
    requires Committable(w.(pc := Saved(snap)), snap, mem) && WellFormed(snap) && w.loose == {}
    ensures ReadyToCommit(w.(pc := Saved(snap)), snap, mem)
  {
    hide Committable, WellFormed;
  }

  lemma SyncMem(mem: map<Pgno, Page>, poss: map<Pgno, set<Page>>, snaps: set<Snapshot>)
    requires InvMem(mem, poss) && SolidAll(snaps, mem, poss)
    ensures var poss' := SyncedPages(mem, poss);
            && InvMem(mem, poss') && SolidAll(snaps, mem, poss')
            && forall p: Pgno :: PossAt(poss', p) == {At(mem, p)}
  {
    var poss' := SyncedPages(mem, poss);
    forall p: Pgno ensures PossAt(poss', p) == {At(mem, p)} {
      assert At(mem, p) in PossAt(poss, p);
    }
    forall s | s in snaps ensures Solid(s, mem, poss') {
      assert Solid(s, mem, poss);
    }
  }

  /** Once both meta pages are on the disk there is no doubt about them. */
  lemma SyncMetas(metas: seq<Snapshot>, possMeta: seq<set<Snapshot>>, floor: Txnid, active: set<Snapshot>,
                  committed: set<Snapshot>)
    requires InvMetas(metas, possMeta, floor) && InvFree(possMeta, active) && InvCommitted(possMeta, active, committed)
    ensures var poss' := [{metas[0]}, {metas[1]}];
            && InvMetas(metas, poss', metas[PickMeta(metas)].id) && InvFree(poss', active)
            && InvCommitted(poss', active, committed)
  {
    hide WellFormed, Unreachable;
    var poss' := [{metas[0]}, {metas[1]}];
    assert poss'[0] + poss'[1] <= possMeta[0] + possMeta[1];
    assert poss'[0] + poss'[1] + active <= possMeta[0] + possMeta[1] + active;
  }

  lemma SyncStays(metas: seq<Snapshot>, possMeta: seq<set<Snapshot>>, mti: Txnid, readers: seq<Reader>)
    requires |metas| == 2 && |possMeta| == 2
    ensures MustStay(metas, [{metas[0]}, {metas[1]}], mti, readers) <= MustStay(metas, possMeta, mti, readers)
  {
    hide ActiveSnaps, CheckedOlder;
  }

  lemma SyncDo(st: State)
    requires |st.metas| == 2 && |st.possMeta| == 2 && Enabled(st, Sync)
    ensures st.lock.Held? && st.lock.w.pc.Saved? && Do(st, Sync) == Flushed(st)
  {}

  lemma FlushedIs(st: State)
    requires |st.metas| == 2 && st.lock.Held? && st.lock.w.pc.Saved?
    ensures var w := st.lock.w.(pc := Synced(st.lock.w.pc.snap));
            var poss, possMeta := SyncedPages(st.mem, st.poss), [{st.metas[0]}, {st.metas[1]}];
            && Flushed(st) == st.(poss := poss, possMeta := possMeta, floor := st.metas[PickMeta(st.metas)].id, lock := Held(w))
            && Live(Flushed(st)) == Live(st)
  {
    hide SyncedPages, PickMeta, ActiveSnaps;
  }

  lemma SyncReady(w: Writer, snap: Snapshot, mem: map<Pgno, Page>, poss: map<Pgno, set<Page>>, metas: seq<Snapshot>,
                  possMeta: seq<set<Snapshot>>)
    requires |metas| == 2 && possMeta == [{metas[0]}, {metas[1]}] && ReadyToCommit(w, snap, mem)
    requires forall s, m | Committable(w, s, m) :: Committable(w.(pc := Synced(snap)), s, m)
    requires forall p: Pgno :: PossAt(poss, p) == {At(mem, p)}
    ensures ReadyToCommit(w.(pc := Synced(snap)), snap, mem)
    ensures InvSynced(mem, poss, metas, possMeta, metas[PickMeta(metas)].id)
  {
    hide Committable, WellFormed, PickMeta;
  }

  lemma SolidStays(st: State, poss: map<Pgno, set<Page>>, possMeta: seq<set<Snapshot>>)
    requires |st.metas| == 2 && |st.possMeta| == 2 && possMeta == [{st.metas[0]}, {st.metas[1]}]
    requires SolidAll(MustStay(st.metas, st.possMeta, st.mti, st.readers), st.mem, poss)
    ensures SolidAll(MustStay(st.metas, possMeta, st.mti, st.readers), st.mem, poss)
  {
    hide MustStay, SolidAll, ActiveSnaps;
    SyncStays(st.metas, st.possMeta, st.mti, st.readers);
    SolidFewer(MustStay(st.metas, st.possMeta, st.mti, st.readers), MustStay(st.metas, possMeta, st.mti, st.readers), st.mem, poss);
  }

  lemma WriteMetaDo(st: State, sync: bool)
    requires |st.metas| == 2 && |st.possMeta| == 2 && Enabled(st, WriteMeta(sync))
    ensures st.lock.Held? && st.lock.w.pc.Synced?
    ensures Do(st, WriteMeta(sync)) == MetaWritten(st, st.lock.w.pc.snap, st.lock.w.t % 2, sync)
  {}

  /** The fields that change. */
  lemma MetaWrittenIs(st: State, s: Snapshot, m: nat, sync: bool)
    requires |st.metas| == 2 && |st.possMeta| == 2 && st.lock.Held? && m < 2
    ensures MetaWritten(st, s, m, sync)
            == st.(metas := st.metas[m := s], possMeta := NextPoss(st.possMeta, s, m, sync),
                   floor := if sync then st.lock.w.t else st.floor,
                   committed := st.committed + {s}, lock := Held(st.lock.w.(pc := MetaOut)))
  {}

  lemma NextMetas(metas: seq<Snapshot>, possMeta: seq<set<Snapshot>>, snap: Snapshot, m: nat, sync: bool)
    requires |metas| == 2 && InvMetas(metas, possMeta, metas[PickMeta(metas)].id)
    requires possMeta[0] == {metas[0]} && possMeta[1] == {metas[1]}
    requires WellFormed(snap) && snap.id == metas[PickMeta(metas)].id + 1 && metas[PickMeta(metas)].next <= snap.next
    requires m == snap.id % 2
    ensures var metas' := metas[m := snap];
            && m == 1 - PickMeta(metas) && PickMeta(metas') == m
            && InvMetas(metas', NextPoss(possMeta, snap, m, sync), if sync then snap.id else metas[PickMeta(metas)].id)
  {
    KnownMetas(metas, possMeta, metas[PickMeta(metas)].id);
    hide *;
    MetasParts(metas, possMeta, metas[PickMeta(metas)].id);
    NextIds(metas, possMeta, snap, m, sync);
    NextKnown(metas, possMeta, snap, m, sync);
    MetasWhole(metas[m := snap], NextPoss(possMeta, snap, m, sync), if sync then snap.id else metas[PickMeta(metas)].id);
  }

  lemma MetasParts(metas: seq<Snapshot>, possMeta: seq<set<Snapshot>>, floor: Txnid)
    requires InvMetas(metas, possMeta, floor)
    ensures |metas| == 2 && |possMeta| == 2 && MetaIds(metas, possMeta, floor)
    ensures forall s | s in possMeta[0] + possMeta[1] :: WellFormed(s)
  {
    hide WellFormed;
  }

  lemma MetasWhole(metas: seq<Snapshot>, possMeta: seq<set<Snapshot>>, floor: Txnid)
    requires |possMeta| == 2 && MetaIds(metas, possMeta, floor)
    requires forall s | s in possMeta[0] + possMeta[1] :: WellFormed(s)
    ensures InvMetas(metas, possMeta, floor)
  {
    hide WellFormed;
  }

  lemma NextIds(metas: seq<Snapshot>, possMeta: seq<set<Snapshot>>, snap: Snapshot, m: nat, sync: bool)
    requires |metas| == 2 && MetaIds(metas, possMeta, metas[PickMeta(metas)].id)
    requires possMeta[0] == {metas[0]} && possMeta[1] == {metas[1]}
    requires snap.id == metas[PickMeta(metas)].id + 1 && metas[PickMeta(metas)].next <= snap.next && m == snap.id % 2
    ensures m == 1 - PickMeta(metas) && PickMeta(metas[m := snap]) == m
    ensures MetaIds(metas[m := snap], NextPoss(possMeta, snap, m, sync), if sync then snap.id else metas[PickMeta(metas)].id)
  {
    var n := PickMeta(metas);
    assert m == 1 - n;
    var metas' := metas[m := snap];
    assert PickMeta(metas') == m && metas'[1 - m] == metas[n];
    NextKnown(metas, possMeta, snap, m, sync);
  }

  lemma NextKnown(metas: seq<Snapshot>, possMeta: seq<set<Snapshot>>, snap: Snapshot, m: nat, sync: bool)
    requires |metas| == 2 && |possMeta| == 2 && m < 2 && possMeta[0] == {metas[0]} && possMeta[1] == {metas[1]}
    ensures var poss' := NextPoss(possMeta, snap, m, sync);
            && |poss'| == 2 && poss'[1 - m] == {metas[1 - m]} && snap in poss'[m]
            && poss'[m] == (if sync then {snap} else {metas[m], snap})
            && poss'[0] + poss'[1] <= {metas[0], metas[1], snap}
  {}

  lemma WriteMetaMetas(st: State, sync: bool)
    requires Inv(st) && st.lock.Held? && st.lock.w.pc.Synced?
    ensures |st.metas| == 2 && |st.possMeta| == 2
    ensures var w := st.lock.w; var m := w.t % 2; var metas := st.metas[m := w.pc.snap];
            && InvMetas(metas, NextPoss(st.possMeta, w.pc.snap, m, sync), if sync then w.t else st.floor)
            && PickMeta(metas) == m == 1 - PickMeta(st.metas)
  {
    SnapNext(st);
    Parts(st);
    SyncedFacts(st);
    hide *;
    NextMetas(st.metas, st.possMeta, st.lock.w.pc.snap, st.lock.w.t % 2, sync);
  }

  lemma SyncedFacts(st: State)
    requires Inv(st) && st.lock.Held? && st.lock.w.pc.Synced?
    ensures |st.metas| == 2 && |st.possMeta| == 2
    ensures ReadyToCommit(st.lock.w, st.lock.w.pc.snap, st.mem)
    ensures InvSynced(st.mem, st.poss, st.metas, st.possMeta, st.floor)
    ensures st.possMeta[0] == {st.metas[0]} && st.possMeta[1] == {st.metas[1]}
    ensures st.floor == st.metas[PickMeta(st.metas)].id
  {
    Parts(st);
    hide *;
    AtWork(st.lock.w.pc);
    WriterParts(st);
    SyncedIs(st.mem, st.poss, st.metas, st.possMeta, st.floor);
  }

  lemma SyncedIs(mem: map<Pgno, Page>, poss: map<Pgno, set<Page>>, metas: seq<Snapshot>, possMeta: seq<set<Snapshot>>, floor: Txnid)
    requires |metas| == 2 && |possMeta| == 2 && InvSynced(mem, poss, metas, possMeta, floor)
    ensures possMeta[0] == {metas[0]} && possMeta[1] == {metas[1]} && floor == metas[PickMeta(metas)].id
  {}

  /** The snapshot that is committed comes next. */
  lemma SnapNext(st: State)
    requires Inv(st) && st.lock.Held? && st.lock.w.pc.Synced?
    ensures |st.metas| == 2 && |st.possMeta| == 2
    ensures var w := st.lock.w; var s := w.pc.snap; var newest := st.metas[PickMeta(st.metas)];
            && w.base == newest && s.id == w.t == newest.id + 1 && newest.next <= s.next && WellFormed(s)
            && SavedFree(w, s.free) && ProtectsAll(w, Live(st)) && s.image.Keys == w.tree
            && st.mti == newest.id
  {
    Parts(st);
    hide *;
    AtWork(st.lock.w.pc);
    WriterParts(st);
    BaseOk(st);
    ReadyParts(st.lock.w, st.lock.w.pc.snap, st.mem);
    CommitParts(st.lock.w, st.lock.w.pc.snap, st.mem);
    PartitionNext(st.lock.w);
  }

  lemma ReadyParts(w: Writer, s: Snapshot, mem: map<Pgno, Page>)
    requires ReadyToCommit(w, s, mem)
    ensures Committable(w, s, mem) && WellFormed(s)
  {
    hide Committable, WellFormed;
  }

  lemma PartitionNext(w: Writer)
    requires Partition(w)
    ensures w.base.next <= w.next
  {
    hide Places;
  }

  lemma LaterMeta(x: Reader, mti: Txnid, metas: seq<Snapshot>, cache: map<nat, Txnid>, metas': seq<Snapshot>)
    requires |metas| == 2 && |metas'| == 2 && InvReader(x, mti, metas, cache)
    requires metas[0].id <= metas'[0].id && metas[1].id <= metas'[1].id
    requires metas[PickMeta(metas)].id <= metas'[PickMeta(metas')].id
    requires metas[PickMeta(metas)].next <= metas'[PickMeta(metas')].next
    ensures InvReader(x, mti, metas', cache)
  {
    hide WellFormed, PickMeta;
  }

  lemma WriteMetaReaders(st: State, metas: seq<Snapshot>)
    requires Inv(st) && st.lock.Held? && st.lock.w.pc.Synced? && |st.metas| == 2
    requires metas == st.metas[1 - PickMeta(st.metas) := st.lock.w.pc.snap] && metas[PickMeta(metas)] == st.lock.w.pc.snap
    ensures InvReaders(st.readers, st.mti, metas, st.cache)
  {
    SnapNext(st);
    Parts(st);
    KnownMetas(st.metas, st.possMeta, st.floor);
    CacheBelow(st.readers, st.mti, st.metas, st.cache);
    hide *;
    forall r | 0 <= r < |st.readers| ensures InvReader(st.readers[r], st.mti, metas, st.cache) {
      OneReader(st.readers, st.mti, st.metas, st.cache, r);
      LaterMeta(st.readers[r], st.mti, st.metas, st.cache, metas);
    }
    ReadersAll(st.readers, st.mti, metas, st.cache);
  }

  lemma CacheBelow(readers: seq<Reader>, mti: Txnid, metas: seq<Snapshot>, cache: map<nat, Txnid>)
    requires |metas| == 2 && InvReaders(readers, mti, metas, cache)
    ensures forall e | e in cache :: cache[e] <= mti
  {
    hide InvReader;
  }

  lemma ReadersAll(readers: seq<Reader>, mti: Txnid, metas: seq<Snapshot>, cache: map<nat, Txnid>)
    requires |metas| == 2 && (forall r | 0 <= r < |readers| :: InvReader(readers[r], mti, metas, cache))
    requires forall e | e in cache :: cache[e] <= mti
    ensures InvReaders(readers, mti, metas, cache)
  {
    hide InvReader;
  }

  lemma OneFree(possMeta: seq<set<Snapshot>>, active: set<Snapshot>, n: Snapshot, s: Snapshot)
    requires |possMeta| == 2 && InvFree(possMeta, active) && s.id <= n.id
    requires n in possMeta[0] + possMeta[1] && s in possMeta[0] + possMeta[1] + active
    ensures Unreachable(n, s)
  {
    hide Unreachable;
  }

  lemma OneProtected(w: Writer, snaps: set<Snapshot>, s: Snapshot)
    requires ProtectsAll(w, snaps) && s in snaps
    ensures Protects(w, s)
  {
    hide Protects;
  }

  /** A record of a snapshot keeps clear of its own pages. */
  lemma OwnUnreachable(s: Snapshot)
    requires WellFormed(s)
    ensures Unreachable(s, s)
  {
    hide ReachedOnce, FreePages;
  }

  lemma FreeMore(possMeta: seq<set<Snapshot>>, active: set<Snapshot>, poss': seq<set<Snapshot>>, live: set<Snapshot>, snap: Snapshot)
    requires |possMeta| == 2 && |poss'| == 2 && InvFree(possMeta, active)
    requires possMeta[0] + possMeta[1] + active <= live && poss'[0] + poss'[1] <= possMeta[0] + possMeta[1] + {snap}
    requires forall s | s in live :: Unreachable(snap, s) && s.id < snap.id
    requires Unreachable(snap, snap)
    ensures InvFree(poss', active)
  {
    hide Unreachable;
    forall n, s | n in poss'[0] + poss'[1] && s in poss'[0] + poss'[1] + active && s.id <= n.id ensures Unreachable(n, s) {
      if n != snap { assert n in live; }
    }
  }

  /** The new snapshot is in memory and on the disk. */
  lemma SnapSolid(w: Writer, s: Snapshot, mem: map<Pgno, Page>, poss: map<Pgno, set<Page>>, metas: seq<Snapshot>,
                  possMeta: seq<set<Snapshot>>, floor: Txnid)
    requires |metas| == 2 && |possMeta| == 2 && ReadyToCommit(w, s, mem) && InvSynced(mem, poss, metas, possMeta, floor)
    ensures Solid(s, mem, poss)
  {
    hide WellFormed, SavedFree, ReachedOnce;
  }

  lemma StaysNext(metas: seq<Snapshot>, possMeta: seq<set<Snapshot>>, mti: Txnid, readers: seq<Reader>,
                  metas': seq<Snapshot>, poss': seq<set<Snapshot>>)
    requires |metas| == 2 && |possMeta| == 2 && |metas'| == 2 && |poss'| == 2
    requires metas'[1 - PickMeta(metas')] == metas[PickMeta(metas)]
    ensures MustStay(metas', poss', mti, readers) <= MustStay(metas, possMeta, mti, readers) + {metas'[PickMeta(metas')]}
  {
    hide ActiveSnaps, OlderLive, PickMeta;
  }

  lemma NewestNow(metas: seq<Snapshot>, snap: Snapshot, m: nat)
    requires |metas| == 2 && m == 1 - PickMeta(metas) && PickMeta(metas[m := snap]) == m
    ensures metas[m := snap][PickMeta(metas[m := snap])] == snap
    ensures metas[m := snap][1 - PickMeta(metas[m := snap])] == metas[PickMeta(metas)]
  {
    hide PickMeta;
  }

  lemma SolidNext(st: State, metas: seq<Snapshot>, possMeta: seq<set<Snapshot>>)
    requires Inv(st) && st.lock.Held? && st.lock.w.pc.Synced? && |metas| == 2 && |possMeta| == 2 && |st.metas| == 2
    requires metas[PickMeta(metas)] == st.lock.w.pc.snap && metas[1 - PickMeta(metas)] == st.metas[PickMeta(st.metas)]
    ensures SolidAll(MustStay(metas, possMeta, st.mti, st.readers), st.mem, st.poss)
  {
    Parts(st);
    hide *;
    SyncedFacts(st);
    SnapSolid(st.lock.w, st.lock.w.pc.snap, st.mem, st.poss, st.metas, st.possMeta, st.floor);
    StaysNext(st.metas, st.possMeta, st.mti, st.readers, metas, possMeta);
    SolidMore(MustStay(st.metas, st.possMeta, st.mti, st.readers), MustStay(metas, possMeta, st.mti, st.readers),
              st.lock.w.pc.snap, st.mem, st.poss);
  }

  lemma NextCommitted(st: State, snap: Snapshot, m: nat, sync: bool)
    requires Inv(st) && st.lock.Held? && st.lock.w.pc.Synced? && m < 2 && |st.metas| == 2 && |st.possMeta| == 2
    ensures InvCommitted(NextPoss(st.possMeta, snap, m, sync), ActiveSnaps(st.readers), st.committed + {snap})
  {
    Parts(st);
    hide *;
    SyncedFacts(st);
    NextKnown(st.metas, st.possMeta, snap, m, sync);
    MoreCommitted(st.possMeta, ActiveSnaps(st.readers), st.committed, NextPoss(st.possMeta, snap, m, sync), snap);
  }

  lemma SolidMore(a: set<Snapshot>, b: set<Snapshot>, s: Snapshot, mem: map<Pgno, Page>, poss: map<Pgno, set<Page>>)
    requires SolidAll(a, mem, poss) && Solid(s, mem, poss) && b <= a + {s}
    ensures SolidAll(b, mem, poss)
  {
    hide Solid;
  }

  lemma MoreCommitted(possMeta: seq<set<Snapshot>>, active: set<Snapshot>, committed: set<Snapshot>, poss': seq<set<Snapshot>>,
                      s: Snapshot)
    requires |possMeta| == 2 && |poss'| == 2 && InvCommitted(possMeta, active, committed)
    requires poss'[0] + poss'[1] <= possMeta[0] + possMeta[1] + {s}
    ensures InvCommitted(poss', active, committed + {s})
  {}

  lemma MetaOutLock(w: Writer, mti: Txnid, metas: seq<Snapshot>)
    requires |metas| == 2 && metas[PickMeta(metas)].id == w.t == mti + 1
    ensures InvLock(Held(w.(pc := MetaOut)), mti, metas)
  {
    hide PickMeta;
  }

  lemma MetaOutWriter(st: State, w: Writer)
    requires |st.metas| == 2 && |st.possMeta| == 2 && st.lock == Held(w.(pc := MetaOut))
    ensures InvWriter(st)
  {}

  lemma PublishDo(st: State)
    requires |st.metas| == 2 && |st.possMeta| == 2 && Enabled(st, Publish)
    ensures st.lock.Held? && st.lock.w.pc.MetaOut?
    ensures Do(st, Publish) == st.(mti := st.lock.w.t, lock := Held(st.lock.w.(pc := Published)))
  {}

  lemma PublishLock(w: Writer, mti: Txnid, metas: seq<Snapshot>)
    requires |metas| == 2 && InvLock(Held(w), mti, metas) && w.pc.MetaOut?
    ensures w.t == metas[PickMeta(metas)].id && InvLock(Held(w.(pc := Published)), w.t, metas)
  {
    hide PickMeta;
  }

  /** The lock changes hands, or its owner has written the meta page. */
  lemma LockChange(st: State, lock: Lock)
    requires Inv(st) && |st.metas| == 2 && InvLock(lock, st.mti, st.metas) && (lock.Held? ==> !PreMeta(lock.w.pc))
    ensures Inv(st.(lock := lock))
  {
    Parts(st);
    NoWriter(st.(lock := lock));
    hide *;
    Whole(st.(lock := lock));
  }

  lemma NoWriter(st: State)
    requires |st.metas| == 2 && |st.possMeta| == 2 && (st.lock.Held? ==> !PreMeta(st.lock.w.pc))
    ensures InvWriter(st)
  {}

  lemma UnlockDo(st: State, a: Action)
    requires |st.metas| == 2 && |st.possMeta| == 2 && Enabled(st, a) && (a.Unlock? || a.Abort? || a.WriterDies?)
    ensures st.lock.Held? && (a.Unlock? ==> st.lock.w.pc.Published?)
    ensures a.Abort? ==> !st.lock.w.pc.MetaOut? && !st.lock.w.pc.Published?
    ensures Do(st, a) == st.(lock := if a.WriterDies? then OwnerDead else Unlocked)
  {}

  lemma LeftLock(w: Writer, mti: Txnid, metas: seq<Snapshot>)
    requires |metas| == 2 && InvLock(Held(w), mti, metas)
    ensures InvLock(OwnerDead, mti, metas) && (!w.pc.MetaOut? ==> InvLock(Unlocked, mti, metas))
  {
    hide PickMeta;
  }

  lemma LaterMti(x: Reader, mti: Txnid, metas: seq<Snapshot>, cache: map<nat, Txnid>, id: Txnid)
    requires |metas| == 2 && InvReader(x, mti, metas, cache) && mti <= id
    ensures InvReader(x, id, metas, cache)
  {
    hide WellFormed, PickMeta;
  }

  lemma LaterMtiAll(readers: seq<Reader>, mti: Txnid, metas: seq<Snapshot>, cache: map<nat, Txnid>, id: Txnid)
    requires |metas| == 2 && InvReaders(readers, mti, metas, cache) && mti <= id
    ensures InvReaders(readers, id, metas, cache)
  {
    hide InvReader;
    forall r | 0 <= r < |readers| ensures InvReader(readers[r], id, metas, cache) {
      LaterMti(readers[r], mti, metas, cache, id);
    }
  }

  lemma StaysPublished(metas: seq<Snapshot>, possMeta: seq<set<Snapshot>>, mti: Txnid, readers: seq<Reader>)
    requires |metas| == 2 && |possMeta| == 2
    ensures MustStay(metas, possMeta, metas[PickMeta(metas)].id, readers) <= MustStay(metas, possMeta, mti, readers)
  {
    hide ActiveSnaps, CheckedOlder, PickMeta;
  }

  lemma RecoverDo(st: State)
    requires |st.metas| == 2 && |st.possMeta| == 2 && Enabled(st, Recover)
    ensures Do(st, Recover) == st.(lock := Unlocked, mti := st.metas[PickMeta(st.metas)].id)
  {}

  lemma RecoverLock(metas: seq<Snapshot>)
    requires |metas| == 2
    ensures InvLock(Unlocked, metas[PickMeta(metas)].id, metas)
  {}

  lemma ResetReaders(readers: seq<Reader>, mti: Txnid, metas: seq<Snapshot>, cache: map<nat, Txnid>, e: nat)
    requires |metas| == 2 && InvReaders(readers, mti, metas, cache)
    ensures InvReaders(readers, mti, metas, cache[e := 0])
  {
    hide WellFormed, PickMeta;
    forall r | 0 <= r < |readers| ensures InvReader(readers[r], mti, metas, cache[e := 0]) {
      assert InvReader(readers[r], mti, metas, cache);
    }
  }

  /** A process that opens the environment starts with me_pgoldest = 0. */
  lemma ResetCache(st: State, e: nat)
    requires Inv(st)
    ensures Inv(st.(cache := st.cache[e := 0]))
  {
    Parts(st);
    hide *;
    ResetReaders(st.readers, st.mti, st.metas, st.cache, e);
    CacheChange(st, st.cache[e := 0]);
  }

  lemma JoinDo(st: State, e: nat, id: Txnid)
    requires |st.metas| == 2 && |st.possMeta| == 2 && Enabled(st, Join(e, id))
    ensures Do(st, Join(e, id)) == st.(cache := st.cache[e := 0], mti := id)
  {}

  lemma JoinFresh(st: State, e: nat, id: Txnid)
    requires |st.metas| == 2 && Fresh(st, Join(e, id))
    ensures id == st.mti || id == st.metas[PickMeta(st.metas)].id
  {
    hide PickMeta;
  }

  lemma NoneActive(readers: seq<Reader>)
    requires forall r | 0 <= r < |readers| :: readers[r].pc.Idle? || readers[r].pc.DeadReader?
    ensures ActiveSnaps(readers) == {} && (forall n: nat :: !CheckedOlder(readers, n))
  {}

  lemma StaysAlone(metas: seq<Snapshot>, possMeta: seq<set<Snapshot>>, mti: Txnid, readers: seq<Reader>)
    requires |metas| == 2 && |possMeta| == 2
    ensures MustStay(metas, possMeta, metas[PickMeta(metas)].id, []) <= MustStay(metas, possMeta, mti, readers)
  {
    hide CheckedOlder, ActiveSnaps, PickMeta;
    NoneActive([]);
  }

  lemma ExclusiveDo(st: State)
    requires |st.metas| == 2 && |st.possMeta| == 2 && Enabled(st, ExclusiveOpen)
    ensures Do(st, ExclusiveOpen) == st.(readers := [], lock := Unlocked, cache := map[], mti := st.metas[PickMeta(st.metas)].id)
  {}

  lemma FewerCommitted(possMeta: seq<set<Snapshot>>, active: set<Snapshot>, committed: set<Snapshot>)
    requires |possMeta| == 2 && InvCommitted(possMeta, active, committed)
    ensures InvCommitted(possMeta, {}, committed)
  {}

  lemma SurvivingIds(metas: seq<Snapshot>, possMeta: seq<set<Snapshot>>, floor: Txnid, left: seq<Snapshot>)
    requires MetaIds(metas, possMeta, floor)
    requires |left| == 2 && left[0] in possMeta[0] && left[1] in possMeta[1]
    ensures left[PickMeta(left)] == metas[PickMeta(metas)]
            || (left[PickMeta(left)] == metas[1 - PickMeta(metas)] && possMeta[PickMeta(metas)] != {metas[PickMeta(metas)]})
    ensures floor <= left[PickMeta(left)].id
    ensures MetaIds(left, [{left[0]}, {left[1]}], left[PickMeta(left)].id)
  {
    var n := PickMeta(metas);
    assert left[1 - n] == metas[1 - n];
    if left[n] == metas[n] {
      assert left == metas;
    } else {
      FallBack(left, n);
      assert PickMeta(left) == 1 - n;
    }
  }

  /** When the newest meta page did not survive, its predecessor is the newest. */
  lemma FallBack(left: seq<Snapshot>, n: nat)
    requires |left| == 2 && n < 2
    requires exists top: Txnid :: top > 0 && top % 2 == n && left[n].id == Before(top, 2) && left[1 - n].id == top - 1
    ensures PickMeta(left) == 1 - n && left[1 - n].id % 2 == 1 - n && left[n].id == Before(left[1 - n].id, 1)
  {
    var top: Txnid :| top > 0 && top % 2 == n && left[n].id == Before(top, 2) && left[1 - n].id == top - 1;
    if top == 1 { assert n == 1; }
  }

  lemma StayNewest(metas: seq<Snapshot>, possMeta: seq<set<Snapshot>>, mti: Txnid, readers: seq<Reader>, s: Snapshot)
    requires |metas| == 2 && |possMeta| == 2
    requires s == metas[PickMeta(metas)]
             || (s == metas[1 - PickMeta(metas)] && possMeta[PickMeta(metas)] != {metas[PickMeta(metas)]})
    ensures s in MustStay(metas, possMeta, mti, readers)
  {
    hide CheckedOlder, ActiveSnaps, PickMeta;
  }

  lemma CrashMem(mem0: map<Pgno, Page>, poss: map<Pgno, set<Page>>, mem: map<Pgno, Page>, s: Snapshot)
    requires (forall p: Pgno :: At(mem, p) in PossAt(poss, p)) && Solid(s, mem0, poss)
    ensures InvMem(mem, SyncedPages(mem, poss)) && Solid(s, mem, SyncedPages(mem, poss))
    ensures forall p: Pgno :: PossAt(SyncedPages(mem, poss), p) == {At(mem, p)}
  {
    forall p: Pgno ensures PossAt(SyncedPages(mem, poss), p) == {At(mem, p)} {
      assert At(mem, p) in PossAt(poss, p);
    }
    forall p | p in s.image ensures At(mem, p) == s.image[p] {
      assert At(mem, p) in PossAt(poss, p);
    }
  }

  lemma NewestAlone(metas: seq<Snapshot>)
    requires |metas| == 2
    ensures MustStay(metas, [{metas[0]}, {metas[1]}], metas[PickMeta(metas)].id, []) == {metas[PickMeta(metas)]}
    ensures ActiveSnaps([]) == {}
  {
    hide CheckedOlder, ActiveSnaps;
    NoneActive([]);
  }

  lemma NobodyReads(metas: seq<Snapshot>, mti: Txnid)
    requires |metas| == 2
    ensures InvReaders([], mti, metas, map[])
  {}

  lemma CrashLeaves(st: State, mem: map<Pgno, Page>, metas: seq<Snapshot>)
    requires |st.metas| == 2 && |st.possMeta| == 2 && Enabled(st, Crash(mem, metas))
    ensures Leaves(st, mem, metas)
    ensures Do(st, Crash(mem, metas)) == Failed(st, mem, metas)
  {
    hide PickMeta, At, PossAt;
  }

  lemma FailedIs(st: State, mem: map<Pgno, Page>, metas: seq<Snapshot>)
    requires |metas| == 2
    ensures var n := metas[PickMeta(metas)].id;
            Failed(st, mem, metas)
            == State(mem, SyncedPages(mem, st.poss), metas, [{metas[0]}, {metas[1]}], n, map[], [], Unlocked, st.committed, n)
  {}

  lemma LeavesMem(st: State, mem: map<Pgno, Page>, metas: seq<Snapshot>)
    requires |st.possMeta| == 2 && Leaves(st, mem, metas)
    ensures forall p: Pgno :: At(mem, p) in PossAt(st.poss, p)
  {
    hide At, PossAt;
  }

  lemma OneSolid(snaps: set<Snapshot>, mem: map<Pgno, Page>, poss: map<Pgno, set<Page>>, s: Snapshot)
    requires SolidAll(snaps, mem, poss) && s in snaps
    ensures Solid(s, mem, poss)
  {
    hide Solid;
  }

  lemma AloneSolid(s: Snapshot, mem: map<Pgno, Page>, poss: map<Pgno, set<Page>>)
    requires Solid(s, mem, poss)
    ensures SolidAll({s}, mem, poss)
  {
    hide Solid;
  }
}
