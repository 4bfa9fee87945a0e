/** The invariant of the protocol in `Mvcc`, part by part. */
module MvccInvariant {
  import opened Options
  import opened Mvcc

  /** Every page below `next` is reached once from the roots, or is in one freeDB record. */
  ghost predicate WellFormed(s: Snapshot) {
    && ReachedOnce(s) && 2 <= s.next
    && (forall k | k in s.free :: 1 <= k <= s.id && s.free[k] !! s.image.Keys)
    && (forall k, k' | k in s.free && k' in s.free && k < k' :: s.free[k] !! s.free[k'])
    && s.image.Keys + FreePages(s.free, 0) == Range(s.next)
  }

  function Before(id: Txnid, n: nat): Txnid { if id < n then 0 else id - n }

  /** The ids of the two meta pages, of what may be on the disk in their place, and of the oldest
      state a power failure may fall back to. */
  ghost predicate MetaIds(metas: seq<Snapshot>, possMeta: seq<set<Snapshot>>, floor: Txnid) {
    && |metas| == 2 && |possMeta| == 2
    && var n := PickMeta(metas); var o := 1 - n;
    && metas[n].id % 2 == n
    && metas[o].id == Before(metas[n].id, 1)
    && metas[o].next <= metas[n].next
    && possMeta[o] == {metas[o]}
    && metas[n] in possMeta[n]
    && (forall s | s in possMeta[n] ::
          s == metas[n] || (metas[n].id > 0 && s.id == Before(metas[n].id, 2) && s.next <= metas[o].next))
    && floor <= metas[n].id <= floor + 1
    && (possMeta[n] != {metas[n]} ==> floor < metas[n].id)
  }

  ghost predicate InvMetas(metas: seq<Snapshot>, possMeta: seq<set<Snapshot>>, floor: Txnid) {
    MetaIds(metas, possMeta, floor) && forall s | s in possMeta[0] + possMeta[1] :: WellFormed(s)
  }

  ghost function ActiveSnaps(readers: seq<Reader>): set<Snapshot> {
    set r | 0 <= r < |readers| && readers[r].pc.Active? :: readers[r].pc.snap
  }

  ghost predicate InvReader(x: Reader, mti: Txnid, metas: seq<Snapshot>, cache: map<nat, Txnid>)
    requires |metas| == 2
  {
    match x.pc
    case Idle => true
    case DeadReader => true
    case Loaded(v) => x.pid
    case Stored(v) => x.pid && x.txn == Some(v)
    case Checked(v) =>
      && x.pid && x.txn == Some(v) && v <= mti && v <= metas[v % 2].id
      && forall e | e in cache :: cache[e] <= v
    case Active(v, s) =>
      && x.pid && x.txn == Some(v) && v <= s.id <= metas[PickMeta(metas)].id
      && WellFormed(s) && s.next <= metas[PickMeta(metas)].next
      && forall e | e in cache :: cache[e] <= v
  }

  ghost predicate InvReaders(readers: seq<Reader>, mti: Txnid, metas: seq<Snapshot>, cache: map<nat, Txnid>)
    requires |metas| == 2
  {
    && (forall r | 0 <= r < |readers| :: InvReader(readers[r], mti, metas, cache))
    && (forall e | e in cache :: cache[e] <= mti)
  }

  /** Pages listed in freeDB record k of `n` are unreachable from snapshot `s` when s.id >= k. */
  ghost predicate Unreachable(n: Snapshot, s: Snapshot) {
    forall k | k in n.free && k <= s.id :: n.free[k] !! s.image.Keys
  }

  ghost predicate InvFree(possMeta: seq<set<Snapshot>>, active: set<Snapshot>)
    requires |possMeta| == 2
  {
    forall n, s | n in possMeta[0] + possMeta[1] && s in possMeta[0] + possMeta[1] + active && s.id <= n.id ::
      Unreachable(n, s)
  }

  /** Memory holds exactly what snapshot `s` committed, and so does the disk after any crash. */
  ghost predicate Solid(s: Snapshot, mem: map<Pgno, Page>, poss: map<Pgno, set<Page>>) {
    forall p | p in s.image :: At(mem, p) == s.image[p] && PossAt(poss, p) == {s.image[p]}
  }

  /** The older meta page can still be copied by a reader or be the newest after a crash. */
  ghost predicate OlderLive(metas: seq<Snapshot>, possMeta: seq<set<Snapshot>>, mti: Txnid, readers: seq<Reader>)
    requires |metas| == 2 && |possMeta| == 2
  {
    var n := PickMeta(metas);
    || possMeta[n] != {metas[n]}
    || mti != metas[n].id
    || CheckedOlder(readers, n)
  }

  ghost predicate CheckedOlder(readers: seq<Reader>, n: nat) {
    exists r :: 0 <= r < |readers| && readers[r].pc.Checked? && readers[r].pc.v % 2 != n
  }

  ghost predicate InvMem(mem: map<Pgno, Page>, poss: map<Pgno, set<Page>>) {
    forall p: Pgno :: At(mem, p) in PossAt(poss, p)
  }

  ghost predicate SolidAll(snaps: set<Snapshot>, mem: map<Pgno, Page>, poss: map<Pgno, set<Page>>) {
    forall s | s in snaps :: Solid(s, mem, poss)
  }

  ghost predicate InvLock(lock: Lock, mti: Txnid, metas: seq<Snapshot>)
    requires |metas| == 2
  {
    var newest := metas[PickMeta(metas)].id;
    match lock
    case Unlocked => mti == newest
    case OwnerDead => mti <= newest <= mti + 1
    case Held(w) =>
      if w.pc.MetaOut? then newest == w.t && mti <= newest <= mti + 1
      else if w.pc.Published? then newest == w.t == mti
      else mti == newest && w.t == newest + 1 && w.base == metas[PickMeta(metas)]
  }

  /** In how many places page `p` is, inside the write transaction. */
  ghost function Places(w: Writer, p: Pgno): nat {
    (if p in w.tree then 1 else 0) + (if p in w.loose then 1 else 0) + (if p in w.head then 1 else 0)
    + (if p in w.freed then 1 else 0) + (if p in FreePages(w.base.free, w.last) then 1 else 0)
  }

  /** Page conservation inside the write transaction: each page in [2, next) is in exactly one
      of its trees, the loose list, me_pghead, mt_free_pgs or an unconsumed freeDB record. */
  ghost predicate Partition(w: Writer) {
    && (forall p: Pgno :: Places(w, p) == if 2 <= p < w.next then 1 else 0)
    && w.base.next <= w.next
    && w.last <= w.base.id
    && (w.last == 0 ==> w.head == {})
    && w.loose <= w.dirty
  }

  ghost predicate Protects(w: Writer, s: Snapshot) {
    && w.dirty !! s.image.Keys
    && w.head !! s.image.Keys
  }

  ghost predicate PreMeta(pc: Phase) { !pc.MetaOut? && !pc.Published? }

  ghost predicate ScanBound(readers: seq<Reader>, i: nat, acc: Txnid) {
    forall r | i <= r < |readers| ::
      && (readers[r].pc.Checked? ==> acc <= readers[r].pc.v)
      && (readers[r].pc.Active? ==> acc <= readers[r].pc.v)
  }

  ghost predicate ReadyToCommit(w: Writer, s: Snapshot, mem: map<Pgno, Page>) {
    Committable(w, s, mem) && WellFormed(s) && w.loose == {}
  }

  ghost predicate InvScan(pc: Phase, mti: Txnid, readers: seq<Reader>) {
    && (pc.ScanPid? ==> pc.acc <= mti && ScanBound(readers, pc.i, pc.acc))
    && (pc.ScanTxn? ==> pc.acc <= mti && ScanBound(readers, pc.i + 1, pc.acc))
  }

  ghost predicate ProtectsAll(w: Writer, snaps: set<Snapshot>) {
    forall s | s in snaps :: Protects(w, s)
  }

  ghost predicate InvSynced(mem: map<Pgno, Page>, poss: map<Pgno, set<Page>>, metas: seq<Snapshot>,
                            possMeta: seq<set<Snapshot>>, floor: Txnid)
    requires |metas| == 2 && |possMeta| == 2
  {
    && (forall p: Pgno :: PossAt(poss, p) == {At(mem, p)})
    && possMeta[0] == {metas[0]} && possMeta[1] == {metas[1]}
    && floor == metas[PickMeta(metas)].id
  }

  ghost predicate InvCommitted(possMeta: seq<set<Snapshot>>, active: set<Snapshot>, committed: set<Snapshot>)
    requires |possMeta| == 2
  {
    possMeta[0] + possMeta[1] + active <= committed
  }

  ghost function Live(st: State): (r: set<Snapshot>)
    requires |st.metas| == 2
  {
    {st.metas[0], st.metas[1]} + ActiveSnaps(st.readers)
  }

  /** The snapshots whose pages must stay as committed. */
  ghost function MustStay(metas: seq<Snapshot>, possMeta: seq<set<Snapshot>>, mti: Txnid, readers: seq<Reader>): set<Snapshot>
    requires |metas| == 2 && |possMeta| == 2
  {
    {metas[PickMeta(metas)]} + ActiveSnaps(readers)
    + if OlderLive(metas, possMeta, mti, readers) then {metas[1 - PickMeta(metas)]} else {}
  }

  ghost predicate InvWriter(st: State)
    requires |st.metas| == 2 && |st.possMeta| == 2
  {
    st.lock.Held? && PreMeta(st.lock.w.pc) ==>
      var w := st.lock.w;
      && Partition(w)
      && ProtectsAll(w, Live(st))
      && InvScan(w.pc, st.mti, st.readers)
      && (w.pc.Saved? || w.pc.Synced? ==> ReadyToCommit(w, w.pc.snap, st.mem))
      && (w.pc.Synced? ==> InvSynced(st.mem, st.poss, st.metas, st.possMeta, st.floor))
  }

  ghost predicate Inv(st: State) {
    && InvMetas(st.metas, st.possMeta, st.floor)
    && InvReaders(st.readers, st.mti, st.metas, st.cache)
    && InvFree(st.possMeta, ActiveSnaps(st.readers))
    && InvMem(st.mem, st.poss)
    && SolidAll(MustStay(st.metas, st.possMeta, st.mti, st.readers), st.mem, st.poss)
    && InvLock(st.lock, st.mti, st.metas)
    && InvWriter(st)
    && InvCommitted(st.possMeta, ActiveSnaps(st.readers), st.committed)
  }

  /** A process that opens the environment stores the id it read from the file header into
      mti_txnid.  The store is harmless when no commit came between (see `MvccJoin`). */
  ghost predicate Fresh(st: State, a: Action)
    requires |st.metas| == 2
  {
    a.Join? ==> a.id == st.mti || a.id == st.metas[PickMeta(st.metas)].id
  }

  /** The slot an action of a reader is about. */
  function SlotOf(a: Action): nat
    requires SlotAction(a)
  {
    a.r
  }

  /** What a power failure may leave. */
  ghost predicate Leaves(st: State, mem: map<Pgno, Page>, metas: seq<Snapshot>)
    requires |st.possMeta| == 2
  {
    && (forall p: Pgno :: At(mem, p) in PossAt(st.poss, p))
    && |metas| == 2 && metas[0] in st.possMeta[0] && metas[1] in st.possMeta[1]
  }
}
