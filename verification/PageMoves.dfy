/** Sequences of the protocol's page moves: which sets of pages a writer can come to without any other process. */
module PageMoves {
  import opened Options
  import opened Mvcc

  /** The guard of a page move, with `lim` as the oldest reader that is cached. */
  ghost predicate MoveOk(w: Writer, a: Action, lim: Txnid) {
    match a
    case TakeRecord(k) => k in w.base.free && w.last < k < lim && forall j | j in w.base.free && j < k :: j <= w.last
    case AllocHead(p) => p in w.head
    case AllocLoose(p) => p in w.loose
    case AllocNew => true
    case FreePage(p) => p in w.tree
    case Loosen(p) => p in w.tree && p in w.dirty
    case FreeToHead(p) => p in w.tree && p in w.dirty && w.last > 0
    case LooseToFreed => true
    case LooseToHead => w.last > 0
    case _ => false
  }

  ghost function Replay(w: Writer, acts: seq<Action>, lim: Txnid): Option<Writer> {
    if acts == [] then Some(w)
    else
      var before, a := Replay(w, acts[..|acts| - 1], lim), acts[|acts| - 1];
      if before.Some? && MoveOk(before.value, a, lim) then Some(Moved(before.value, a)) else None
  }

  /** Page moves lead from one writer to the other. */
  ghost predicate Leads(w: Writer, v: Writer, lim: Txnid) {
    exists acts :: Replay(w, acts, lim) == Some(v)
  }

  lemma LeadsSelf(w: Writer, lim: Txnid)
    ensures Leads(w, w, lim)
  {
    assert Replay(w, [], lim) == Some(w);
  }

  lemma {:induction false} ReplayOn(w: Writer, a: seq<Action>, v: Writer, b: seq<Action>, lim: Txnid)
    requires Replay(w, a, lim) == Some(v)
    ensures Replay(w, a + b, lim) == Replay(v, b, lim)
    decreases |b|
  {
    if b == [] {
      assert a + b == a;
    } else {
      assert (a + b)[..|a + b| - 1] == a + b[..|b| - 1];
      ReplayOn(w, a, v, b[..|b| - 1], lim);
    }
  }

  lemma LeadsOn(w: Writer, v: Writer, u: Writer, lim: Txnid)
    requires Leads(w, v, lim) && Leads(v, u, lim)
    ensures Leads(w, u, lim)
  {
    var a :| Replay(w, a, lim) == Some(v);
    var b :| Replay(v, b, lim) == Some(u);
    ReplayOn(w, a, v, b, lim);
  }

  lemma LeadsStep(w: Writer, a: Action, lim: Txnid)
    requires MoveOk(w, a, lim)
    ensures Leads(w, Moved(w, a), lim)
  {
    assert [a][..|[a]| - 1] == [];
    assert Replay(w, [], lim) == Some(w);
    assert Replay(w, [a], lim) == Some(Moved(w, a));
  }

  /** What all of them keep. */
  lemma {:induction false} ReplayKeeps(w: Writer, acts: seq<Action>, v: Writer, lim: Txnid)
    requires Replay(w, acts, lim) == Some(v)
    ensures v.env == w.env && v.t == w.t && v.base == w.base && v.pc == w.pc && w.dirty <= v.dirty
    decreases |acts|
  {
    if acts != [] { ReplayKeeps(w, acts[..|acts| - 1], Replay(w, acts[..|acts| - 1], lim).value, lim); }
  }

  lemma LeadsKeeps(w: Writer, v: Writer, lim: Txnid)
    requires Leads(w, v, lim)
    ensures v.env == w.env && v.t == w.t && v.base == w.base && v.pc == w.pc && w.dirty <= v.dirty
  {
    var acts :| Replay(w, acts, lim) == Some(v);
    ReplayKeeps(w, acts, v, lim);
  }

  // ---------------------------------------------------------------- several pages at once

  /** The n pages from p on. */
  function Span(p: Pgno, n: nat): (r: set<Pgno>)
    ensures forall q: Pgno :: q in r <==> p <= q < p + n
  {
    if n == 0 then {} else Span(p, n - 1) + {p + n - 1}
  }

  lemma SpanIs(p: Pgno, n: nat)
    ensures forall q: Pgno :: q in Span(p, n) <==> p <= q < p + n
  {}

  lemma {:induction false} HeadRun(w: Writer, p: Pgno, n: nat, lim: Txnid)
    requires Span(p, n) <= w.head
    ensures Leads(w, w.(head := w.head - Span(p, n), tree := w.tree + Span(p, n), dirty := w.dirty + Span(p, n)), lim)
    decreases n
  {
    if n == 0 {
      LeadsSelf(w, lim);
      assert w.head - Span(p, 0) == w.head && w.tree + Span(p, 0) == w.tree && w.dirty + Span(p, 0) == w.dirty;
    } else {
      HeadRun(w, p, n - 1, lim);
      var s := Span(p, n - 1);
      var v := w.(head := w.head - s, tree := w.tree + s, dirty := w.dirty + s);
      var q := p + (n - 1);
      LeadsStep(v, AllocHead(q), lim);
      LeadsOn(w, v, Moved(v, AllocHead(q)), lim);
      assert w.head - Span(p, n) == v.head - {q} && w.tree + Span(p, n) == v.tree + {q} && w.dirty + Span(p, n) == v.dirty + {q};
    }
  }

  lemma {:induction false} NewRun(w: Writer, n: nat, lim: Txnid)
    ensures Leads(w, w.(next := w.next + n, tree := w.tree + Span(w.next, n), dirty := w.dirty + Span(w.next, n)), lim)
    decreases n
  {
    if n == 0 {
      LeadsSelf(w, lim);
      assert w.tree + Span(w.next, 0) == w.tree && w.dirty + Span(w.next, 0) == w.dirty;
    } else {
      NewRun(w, n - 1, lim);
      var s := Span(w.next, n - 1);
      var v := w.(next := w.next + (n - 1), tree := w.tree + s, dirty := w.dirty + s);
      LeadsStep(v, AllocNew, lim);
      LeadsOn(w, v, Moved(v, AllocNew), lim);
      assert w.tree + Span(w.next, n) == v.tree + {v.next} && w.dirty + Span(w.next, n) == v.dirty + {v.next};
    }
  }

  function SetOf(ps: seq<Pgno>): set<Pgno> {
    set p | p in ps
  }

  lemma SetMore(ps: seq<Pgno>)
    requires ps != []
    ensures SetOf(ps) == SetOf(ps[..|ps| - 1]) + {ps[|ps| - 1]}
  {
    assert ps == ps[..|ps| - 1] + [ps[|ps| - 1]];
  }

  predicate Distinct(ps: seq<Pgno>) {
    forall i, j | 0 <= i < j < |ps| :: ps[i] != ps[j]
  }

  lemma {:induction false} FreeAll(w: Writer, ps: seq<Pgno>, lim: Txnid)
    requires SetOf(ps) <= w.tree && Distinct(ps)
    ensures Leads(w, w.(tree := w.tree - SetOf(ps), freed := w.freed + SetOf(ps)), lim)
    decreases |ps|
  {
    if ps == [] {
      LeadsSelf(w, lim);
      assert w.tree - SetOf(ps) == w.tree && w.freed + SetOf(ps) == w.freed;
    } else {
      var rest, p := ps[..|ps| - 1], ps[|ps| - 1];
      SetMore(ps);
      FreeAll(w, rest, lim);
      var v := w.(tree := w.tree - SetOf(rest), freed := w.freed + SetOf(rest));
      assert p !in rest;
      LeadsStep(v, FreePage(p), lim);
      LeadsOn(w, v, Moved(v, FreePage(p)), lim);
      assert w.tree - SetOf(ps) == v.tree - {p} && w.freed + SetOf(ps) == v.freed + {p};
    }
  }

  lemma {:induction false} ReturnRun(w: Writer, p: Pgno, n: nat, lim: Txnid)
    requires Span(p, n) <= w.tree && Span(p, n) <= w.dirty && w.last > 0
    ensures Leads(w, w.(tree := w.tree - Span(p, n), head := w.head + Span(p, n)), lim)
    decreases n
  {
    if n == 0 {
      LeadsSelf(w, lim);
      assert w.tree - Span(p, 0) == w.tree && w.head + Span(p, 0) == w.head;
    } else {
      ReturnRun(w, p, n - 1, lim);
      var s, q := Span(p, n - 1), p + (n - 1);
      var v := w.(tree := w.tree - s, head := w.head + s);
      LeadsStep(v, FreeToHead(q), lim);
      LeadsOn(w, v, Moved(v, FreeToHead(q)), lim);
      assert w.tree - Span(p, n) == v.tree - {q} && w.head + Span(p, n) == v.head + {q};
    }
  }
}
