/** The multi-version protocol of LMDB: readers that publish a transaction id in a
    slot table without locking, one writer at a time that reclaims pages freed by old
    transactions, two meta pages written alternately, and crashes.

    The protocol is a state machine: `Enabled` is the guard of each atomic step and `Do` its
    effect.  Memory is sequentially consistent; a meta page is copied and written atomically. */
module Mvcc {
  import opened Options

  type Pgno = nat
  type Txnid = nat

  /** A database page: the pages it refers to, each page of an overflow run among them, and
      everything else it holds. */
  datatype Page = Page(links: seq<Pgno>, body: nat)

  const ZeroPage := Page([], 0)

  /** A meta page, together with what it stands for: the pages its trees reach (with the
      content they had when the transaction committed) and the records of its freeDB. */
  datatype Snapshot = Snapshot(
    id: Txnid,
    roots: seq<Pgno>,
    next: Pgno,
    image: map<Pgno, Page>,
    free: map<Txnid, set<Pgno>>)

  /** Where a reader thread is in `mdb_txn_renew0`. */
  datatype ReaderPc =
    | Idle
    | Loaded(v: Txnid)
    | Stored(v: Txnid)
    | Checked(v: Txnid)
    | Active(v: Txnid, snap: Snapshot)
    | DeadReader

  /** A slot of the reader table: `pid` is nonzero-ness of mr_pid, `txn` is mr_txnid (None: -1). */
  datatype Reader = Reader(pid: bool, txn: Option<Txnid>, pc: ReaderPc)

  datatype Phase =
    | Work
    | ScanPid(i: nat, acc: Txnid)
    | ScanTxn(i: nat, acc: Txnid)
    | Saved(snap: Snapshot)
    | Synced(snap: Snapshot)
    | MetaOut
    | Published

  /** The write transaction.  `tree` holds the pages of its databases, `dirty` the pages it
      allocated and may write, `loose`, `head` and `freed` are mt_loose_pgs, me_pghead and
      mt_free_pgs, `last` is me_pglast. */
  datatype Writer = Writer(
    env: nat, t: Txnid, base: Snapshot, next: Pgno, last: Txnid,
    tree: set<Pgno>, dirty: set<Pgno>, loose: set<Pgno>, head: set<Pgno>, freed: set<Pgno>,
    pc: Phase)

  datatype Lock = Unlocked | Held(w: Writer) | OwnerDead

  /** `mem` is what the map shows now; `poss[p]` are the contents page p may have after a
      power failure.  `floor` is the id below which a power failure cannot fall back. */
  datatype State = State(
    mem: map<Pgno, Page>,
    poss: map<Pgno, set<Page>>,
    metas: seq<Snapshot>,
    possMeta: seq<set<Snapshot>>,
    mti: Txnid,
    cache: map<nat, Txnid>,
    readers: seq<Reader>,
    lock: Lock,
    committed: set<Snapshot>,
    floor: Txnid)

  function At(m: map<Pgno, Page>, p: Pgno): Page {
    if p in m then m[p] else ZeroPage
  }

  function PossAt(m: map<Pgno, set<Page>>, p: Pgno): set<Page> {
    if p in m then m[p] else {ZeroPage}
  }

  function CacheAt(c: map<nat, Txnid>, e: nat): Txnid {
    if e in c then c[e] else 0
  }

  /** mdb_env_pick_meta: index of the newest meta page. */
  function PickMeta(metas: seq<Snapshot>): (n: nat)
    requires |metas| == 2
    ensures n < 2 && metas[1 - n].id <= metas[n].id
  {
    if metas[0].id < metas[1].id then 1 else 0
  }

  // ---------------------------------------------------------------- pages reached

  /** A page with all that is reached through it. */
  datatype PageTree = PageTree(pgno: Pgno, kids: seq<PageTree>)

  function Tops(ts: seq<PageTree>): (r: seq<Pgno>)
    ensures |r| == |ts| && forall i | 0 <= i < |r| :: r[i] == ts[i].pgno
  {
    seq(|ts|, i requires 0 <= i < |ts| => ts[i].pgno)
  }

  /** The pages of these trees, each as often as it is reached. */
  ghost function Reached(ts: seq<PageTree>): multiset<Pgno>
    decreases ts
  {
    if ts == [] then multiset{} else multiset{ts[0].pgno} + Reached(ts[0].kids) + Reached(ts[1..])
  }

  /** The links of the pages lead down these trees. */
  ghost predicate Linked(image: map<Pgno, Page>, ts: seq<PageTree>)
    decreases ts
  {
    ts == [] ||
    (&& ts[0].pgno in image && image[ts[0].pgno].links == Tops(ts[0].kids)
     && Linked(image, ts[0].kids) && Linked(image, ts[1..]))
  }

  ghost predicate Spans(s: Snapshot, ts: seq<PageTree>) {
    Tops(ts) == s.roots && Linked(s.image, ts) && Reached(ts) == multiset(s.image.Keys)
  }

  /** From the roots, the links reach the pages of the snapshot, every one of them once. */
  ghost predicate ReachedOnce(s: Snapshot) {
    exists ts: seq<PageTree> :: Spans(s, ts)
  }

  function FreePages(free: map<Txnid, set<Pgno>>, above: Txnid): set<Pgno> {
    set k, p | k in free && k > above && p in free[k] :: p
  }

  /** The pages of a file of `next` pages, without the two meta pages. */
  function Range(next: Pgno): (r: set<Pgno>)
    ensures forall p: Pgno :: p in r <==> 2 <= p < next
  {
    if next <= 2 then {} else Range(next - 1) + {next - 1}
  }

  // ---------------------------------------------------------------- steps

  datatype Action =
    // readers
    | Claim(r: nat)
    | Load(r: nat)
    | Store(r: nat)
    | Check(r: nat)
    | CopyMeta(r: nat)
    | EndRead(r: nat)
    | Release(r: nat)
    | ReaderDies(r: nat)
    | ClearStale(r: nat)
    // the writer
    | Begin(env: nat)
    | StartScan
    | ScanSlotPid
    | ScanSlotTxn
    | EndScan
    | TakeRecord(k: Txnid)
    | AllocHead(p: Pgno)
    | AllocLoose(p: Pgno)
    | AllocNew
    | FreePage(p: Pgno)
    | Loosen(p: Pgno)
    | FreeToHead(p: Pgno)
    | LooseToFreed
    | LooseToHead
    | WritePage(p: Pgno, c: Page)
    | Save(snap: Snapshot)
    | Sync
    | WriteMeta(sync: bool)
    | Publish
    | Unlock
    | Abort
    // failures
    | WriterDies
    | Recover
    | Join(e: nat, id: Txnid)
    | ExclusiveOpen
    | Crash(mem: map<Pgno, Page>, metas: seq<Snapshot>)

  /** What `mdb_freelist_save` leaves in the freeDB: records above me_pglast stay, the pages
      of me_pghead go back under keys in [1, me_pglast], and this transaction's freed pages
      go under its own id, in the place of what may be there. */
  ghost predicate SavedFree(w: Writer, f: map<Txnid, set<Pgno>>) {
    && (forall k | k in f :: 1 <= k && (k <= w.last || k == w.t || k in w.base.free))
    && (forall k | k in w.base.free && k > w.last && k != w.t :: k in f && f[k] == w.base.free[k])
    && (if w.freed != {} then w.t in f && f[w.t] == w.freed
        else if w.t in w.base.free && w.t > w.last then w.t in f && f[w.t] == w.base.free[w.t]
        else w.t > w.last ==> w.t !in f)
    && (forall k | k in f && k <= w.last :: f[k] <= w.head)
    && (forall p | p in w.head :: exists k :: k in f && k <= w.last && p in f[k])
    && (forall k, k' | k in f && k' in f && k < k' <= w.last :: f[k] !! f[k'])
  }

  /** The snapshot a writer commits: the pages its trees reach, each once, as they are in memory. */
  ghost predicate Committable(w: Writer, s: Snapshot, mem: map<Pgno, Page>) {
    && s.id == w.t && s.next == w.next
    && s.image.Keys == w.tree
    && (forall p | p in s.image :: s.image[p] == At(mem, p))
    && ReachedOnce(s)
    && SavedFree(w, s.free)
  }

  predicate InPhase(st: State, pc: Phase -> bool) {
    st.lock.Held? && pc(st.lock.w.pc)
  }

  predicate Working(st: State) { InPhase(st, (p: Phase) => p.Work?) }

  ghost predicate Enabled(st: State, a: Action)
    requires |st.metas| == 2 && |st.possMeta| == 2
  {
    match a
    case Claim(r) => r == |st.readers| || (r < |st.readers| && !st.readers[r].pid)
    case Load(r) => r < |st.readers| && st.readers[r].pc.Idle? && st.readers[r].pid
    case Store(r) => r < |st.readers| && st.readers[r].pc.Loaded?
    case Check(r) => r < |st.readers| && st.readers[r].pc.Stored?
    case CopyMeta(r) => r < |st.readers| && st.readers[r].pc.Checked?
    case EndRead(r) => r < |st.readers| && st.readers[r].pc.Active?
    case Release(r) => r < |st.readers| && st.readers[r].pc.Idle?
    case ReaderDies(r) => r < |st.readers|
    case ClearStale(r) => r < |st.readers| && st.readers[r].pc.DeadReader?
    case Begin(env) => st.lock.Unlocked?
    case StartScan => Working(st)
    case ScanSlotPid => InPhase(st, (p: Phase) => p.ScanPid? && 0 < p.i)
    case ScanSlotTxn => InPhase(st, (p: Phase) => p.ScanTxn?)
    case EndScan => InPhase(st, (p: Phase) => p.ScanPid? && p.i == 0)
    case TakeRecord(k) =>
      // the next freeDB record after me_pglast, when it is older than the cached oldest reader
      Working(st) && var w := st.lock.w;
      k in w.base.free && w.last < k < CacheAt(st.cache, w.env)
      && (forall j | j in w.base.free && j < k :: j <= w.last)
    case AllocHead(p) => Working(st) && p in st.lock.w.head
    case AllocLoose(p) => Working(st) && p in st.lock.w.loose
    case AllocNew => Working(st)
    case FreePage(p) => Working(st) && p in st.lock.w.tree
    case Loosen(p) => Working(st) && p in st.lock.w.tree && p in st.lock.w.dirty
    case FreeToHead(p) => Working(st) && p in st.lock.w.tree && p in st.lock.w.dirty && st.lock.w.last > 0
    case LooseToFreed => Working(st)
    case LooseToHead => Working(st) && st.lock.w.last > 0
    case WritePage(p, c) => Working(st) && p in st.lock.w.tree && p in st.lock.w.dirty
    case Save(snap) => Working(st) && st.lock.w.loose == {} && Committable(st.lock.w, snap, st.mem)
    case Sync => InPhase(st, (p: Phase) => p.Saved?)
    case WriteMeta(sync) => InPhase(st, (p: Phase) => p.Synced?)
    case Publish => InPhase(st, (p: Phase) => p.MetaOut?)
    case Unlock => InPhase(st, (p: Phase) => p.Published?)
    case Abort => InPhase(st, (p: Phase) => !p.MetaOut? && !p.Published?)
    case WriterDies => st.lock.Held?
    case Recover => st.lock.OwnerDead?
    case Join(e, id) => !(st.lock.Held? && st.lock.w.env == e)
    case ExclusiveOpen =>
      !st.lock.Held? && forall r | 0 <= r < |st.readers| :: st.readers[r].pc.Idle? || st.readers[r].pc.DeadReader?
    case Crash(mem, metas) =>
      && (forall p: Pgno :: At(mem, p) in PossAt(st.poss, p))
      && |metas| == 2 && metas[0] in st.possMeta[0] && metas[1] in st.possMeta[1]
  }

  function SetReader(st: State, r: nat, x: Reader): State
    requires r < |st.readers|
  {
    st.(readers := st.readers[r := x])
  }

  function SetWriter(st: State, w: Writer): State {
    st.(lock := Held(w))
  }

  function MinTxn(acc: Txnid, t: Option<Txnid>): Txnid {
    if t.Some? && t.value < acc then t.value else acc
  }

  /** The pages are on the disk as they are in memory. */
  function SyncedPages(mem: map<Pgno, Page>, poss: map<Pgno, set<Page>>): map<Pgno, set<Page>> {
    map p | p in mem.Keys + poss.Keys :: {At(mem, p)}
  }

  /** After the sync all is on the disk, the earlier meta page writes too. */
  function Flushed(st: State): State
    requires |st.metas| == 2 && st.lock.Held? && st.lock.w.pc.Saved?
  {
    SetWriter(st.(poss := SyncedPages(st.mem, st.poss), possMeta := [{st.metas[0]}, {st.metas[1]}],
                  floor := st.metas[PickMeta(st.metas)].id),
              st.lock.w.(pc := Synced(st.lock.w.pc.snap)))
  }

  /** A meta page that is not synced may be lost. */
  function NextPoss(possMeta: seq<set<Snapshot>>, s: Snapshot, m: nat, sync: bool): seq<set<Snapshot>>
    requires |possMeta| == 2 && m < 2
  {
    possMeta[m := if sync then {s} else possMeta[m] + {s}]
  }

  /** The state with the new meta page in the place of the older one. */
  function MetaWritten(st: State, s: Snapshot, m: nat, sync: bool): State
    requires |st.metas| == 2 && |st.possMeta| == 2 && st.lock.Held? && m < 2
  {
    st.(metas := st.metas[m := s],
        possMeta := NextPoss(st.possMeta, s, m, sync),
        floor := if sync then st.lock.w.t else st.floor,
        committed := st.committed + {s},
        lock := Held(st.lock.w.(pc := MetaOut)))
  }

  /** After a power failure: `mem` and `metas` are what is left. */
  function Failed(st: State, mem: map<Pgno, Page>, metas: seq<Snapshot>): State
    requires |metas| == 2
  {
    var n := metas[PickMeta(metas)].id;
    State(mem, SyncedPages(mem, st.poss), metas, [{metas[0]}, {metas[1]}], n, map[], [], Unlocked, st.committed, n)
  }

  /** The steps of a reader that change its slot only. */
  predicate SlotAction(a: Action) {
    a.Load? || a.Store? || a.Check? || a.EndRead? || a.Release? || a.ReaderDies? || a.ClearStale?
  }

  /** What these steps make of the slot. */
  function NewSlot(x: Reader, a: Action, mti: Txnid): Reader
    requires SlotAction(a) && (a.Store? ==> x.pc.Loaded?) && (a.Check? ==> x.pc.Stored?)
  {
    match a
    case Load(_) => x.(pc := Loaded(mti))
    case Store(_) => x.(txn := Some(x.pc.v), pc := Stored(x.pc.v))
    case Check(_) => x.(pc := if x.pc.v == mti then Checked(x.pc.v) else Idle)
    case EndRead(_) => x.(txn := None, pc := Idle)
    case Release(_) => x.(pid := false)
    case ReaderDies(_) => x.(pc := DeadReader)
    case ClearStale(_) => x.(pid := false, pc := Idle)
    case _ => x
  }

  /** The writer as it begins from a snapshot. */
  function FirstWriterOf(env: nat, t: Txnid, base: Snapshot): Writer {
    Writer(env, t, base, base.next, 0, base.image.Keys, {}, {}, {}, {}, Work)
  }

  /** The slot the scan looks at next: its id matters only if it has a process. */
  function NextSlot(readers: seq<Reader>, i: nat, acc: Txnid): Phase
    requires 0 < i
  {
    if i - 1 < |readers| && readers[i - 1].pid then ScanTxn(i - 1, acc) else ScanPid(i - 1, acc)
  }

  /** The steps that only move pages between the sets of the writer. */
  predicate PageMove(a: Action) {
    || a.TakeRecord? || a.AllocHead? || a.AllocLoose? || a.AllocNew? || a.FreePage? || a.Loosen?
    || a.FreeToHead? || a.LooseToFreed? || a.LooseToHead?
  }

  function Moved(w: Writer, a: Action): Writer
    requires PageMove(a) && (a.TakeRecord? ==> a.k in w.base.free)
  {
    match a
    case TakeRecord(k) => w.(last := k, head := w.head + w.base.free[k])
    case AllocHead(p) => w.(head := w.head - {p}, tree := w.tree + {p}, dirty := w.dirty + {p})
    case AllocLoose(p) => w.(loose := w.loose - {p}, tree := w.tree + {p})
    case AllocNew => w.(next := w.next + 1, tree := w.tree + {w.next}, dirty := w.dirty + {w.next})
    case FreePage(p) => w.(tree := w.tree - {p}, freed := w.freed + {p})
    case Loosen(p) => w.(tree := w.tree - {p}, loose := w.loose + {p})
    case FreeToHead(p) => w.(tree := w.tree - {p}, head := w.head + {p})
    case LooseToFreed => w.(loose := {}, freed := w.freed + w.loose)
    case LooseToHead => w.(loose := {}, head := w.head + w.loose)
    case _ => w
  }

  ghost function Do(st: State, a: Action): (r: State)
    requires |st.metas| == 2 && |st.possMeta| == 2 && Enabled(st, a)
    ensures |r.metas| == 2 && |r.possMeta| == 2
  {
    if SlotAction(a) then SetReader(st, a.r, NewSlot(st.readers[a.r], a, st.mti))
    else if PageMove(a) then SetWriter(st, Moved(st.lock.w, a))
    else
    match a
    case Claim(r) =>
      var x := Reader(true, None, Idle);
      if r == |st.readers| then st.(readers := st.readers + [x]) else SetReader(st, r, x)
    case CopyMeta(r) =>
      var v := st.readers[r].pc.v;
      SetReader(st, r, st.readers[r].(pc := Active(v, st.metas[v % 2])))
    case Begin(env) => SetWriter(st, FirstWriterOf(env, st.mti + 1, st.metas[st.mti % 2]))
    case StartScan =>
      var w := st.lock.w;
      SetWriter(st, w.(pc := ScanPid(|st.readers|, if w.t > 0 then w.t - 1 else 0)))
    case ScanSlotPid =>
      var w := st.lock.w;
      SetWriter(st, w.(pc := NextSlot(st.readers, w.pc.i, w.pc.acc)))
    case ScanSlotTxn =>
      var w := st.lock.w;
      var acc := if w.pc.i < |st.readers| then MinTxn(w.pc.acc, st.readers[w.pc.i].txn) else w.pc.acc;
      SetWriter(st, w.(pc := ScanPid(w.pc.i, acc)))
    case EndScan =>
      var w := st.lock.w;
      SetWriter(st.(cache := st.cache[w.env := w.pc.acc]), w.(pc := Work))
    case WritePage(p, c) =>
      st.(mem := st.mem[p := c], poss := st.poss[p := PossAt(st.poss, p) + {c}])
    case Save(snap) => SetWriter(st, st.lock.w.(pc := Saved(snap)))
    case Sync => Flushed(st)
    case WriteMeta(sync) => MetaWritten(st, st.lock.w.pc.snap, st.lock.w.t % 2, sync)
    case Publish => SetWriter(st.(mti := st.lock.w.t), st.lock.w.(pc := Published))
    case Unlock => st.(lock := Unlocked)
    case Abort => st.(lock := Unlocked)
    case WriterDies => st.(lock := OwnerDead)
    case Recover => st.(lock := Unlocked, mti := st.metas[PickMeta(st.metas)].id)
    case Join(e, id) => st.(cache := st.cache[e := 0], mti := id)
    case ExclusiveOpen =>
      st.(readers := [], lock := Unlocked, cache := map[], mti := st.metas[PickMeta(st.metas)].id)
    case Crash(mem, metas) => Failed(st, mem, metas)
    case _ => st
  }
}
