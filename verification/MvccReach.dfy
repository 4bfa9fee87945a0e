/** Reaching the pages of a snapshot from its roots: which pages, and along which paths. */
module MvccReach {
  import opened Options
  import opened Mvcc
  import Seqs

  // ---------------------------------------------------------------- links stay inside

  /** Following links from the roots never leaves the snapshot. */
  ghost predicate Closed(s: Snapshot) {
    && (forall r | r in s.roots :: r in s.image)
    && (forall p, q | p in s.image && q in s.image[p].links :: q in s.image)
  }

  lemma {:induction false} TopsReached(ts: seq<PageTree>, p: Pgno)
    requires p in Tops(ts)
    ensures p in Reached(ts)
    decreases |ts|
  {
    var i :| 0 <= i < |ts| && ts[i].pgno == p;
    if i > 0 {
      assert Tops(ts[1..])[i - 1] == p;
      TopsReached(ts[1..], p);
    }
  }

  lemma {:induction false} LinksReached(image: map<Pgno, Page>, ts: seq<PageTree>, p: Pgno, q: Pgno)
    requires Linked(image, ts) && p in Reached(ts) && p in image && q in image[p].links
    ensures q in Reached(ts)
    decreases ts
  {
    var t := ts[0];
    if p == t.pgno {
      TopsReached(t.kids, q);
    } else if p in Reached(t.kids) {
      LinksReached(image, t.kids, p, q);
    } else {
      LinksReached(image, ts[1..], p, q);
    }
  }

  lemma ReachedClosed(s: Snapshot)
    requires ReachedOnce(s)
    ensures Closed(s)
  {
    var ts: seq<PageTree> :| Spans(s, ts);
    hide Linked, Reached, Tops;
    forall r | r in s.roots ensures r in s.image {
      TopsReached(ts, r);
    }
    forall p, q | p in s.image && q in s.image[p].links ensures q in s.image {
      assert p in Reached(ts);
      LinksReached(s.image, ts, p, q);
    }
  }

  // ---------------------------------------------------------------- several trees

  lemma TopsAppend(a: seq<PageTree>, b: seq<PageTree>)
    ensures Tops(a + b) == Tops(a) + Tops(b)
  {}

  lemma ReachedCons(t: PageTree, rest: seq<PageTree>)
    ensures Reached([t] + rest) == multiset{t.pgno} + Reached(t.kids) + Reached(rest)
  {
    assert ([t] + rest)[1..] == rest;
  }

  lemma ReachedNone()
    ensures Reached([]) == multiset{}
  {}

  lemma {:induction false} ReachedAppend(a: seq<PageTree>, b: seq<PageTree>)
    ensures Reached(a + b) == Reached(a) + Reached(b)
    decreases |a|
  {
    hide *;
    if a == [] {
      ReachedNone();
      assert a + b == b;
    } else {
      var t, rest := a[0], a[1..];
      ReachedAppend(rest, b);
      assert a == [t] + rest;
      assert a + b == [t] + (rest + b);
      ReachedCons(t, rest);
      ReachedCons(t, rest + b);
      Seqs.BagAssoc(multiset{t.pgno} + Reached(t.kids), Reached(rest), Reached(b));
    }
  }

  lemma {:induction false} LinkedAppend(image: map<Pgno, Page>, a: seq<PageTree>, b: seq<PageTree>)
    requires Linked(image, a) && Linked(image, b)
    ensures Linked(image, a + b)
    decreases |a|
  {
    if a == [] {
      assert a + b == b;
    } else {
      LinkedAppend(image, a[1..], b);
      assert (a + b)[1..] == a[1..] + b;
    }
  }

  /** A page without links. */
  lemma LinkedOne(image: map<Pgno, Page>, p: Pgno)
    requires p in image && image[p].links == []
    ensures Linked(image, [PageTree(p, [])]) && Reached([PageTree(p, [])]) == multiset{p}
  {
    assert Tops([]) == [] && Reached([]) == multiset{};
  }

  // ---------------------------------------------------------------- paths

  /** Where a path leads: its first number selects one of these links, the next ones a link of the
      page reached before. */
  function Arrive(image: map<Pgno, Page>, links: seq<Pgno>, path: seq<nat>): Option<Pgno>
    decreases |path|
  {
    if path == [] || path[0] >= |links| then None
    else if |path| == 1 then Some(links[path[0]])
    else if links[path[0]] in image then Arrive(image, image[links[path[0]]].links, path[1..])
    else None
  }

  /** The path leads from the roots of the snapshot to page p. */
  predicate LeadsTo(s: Snapshot, path: seq<nat>, p: Pgno) {
    Arrive(s.image, s.roots, path) == Some(p)
  }

  /** A path that does not start with the first link. */
  lemma ArriveLater(image: map<Pgno, Page>, links: seq<Pgno>, path: seq<nat>)
    requires links != [] && path != [] && path[0] > 0
    ensures Arrive(image, links, path) == Arrive(image, links[1..], [path[0] - 1] + path[1..])
  {
    var later := [path[0] - 1] + path[1..];
    assert later[1..] == path[1..];
    if path[0] < |links| { assert links[1..][path[0] - 1] == links[path[0]]; }
  }

  lemma TopsRest(ts: seq<PageTree>)
    requires ts != []
    ensures Tops(ts)[1..] == Tops(ts[1..])
  {}

  /** A path leads to pages that are reached. */
  lemma {:induction false} ArriveReached(image: map<Pgno, Page>, ts: seq<PageTree>, path: seq<nat>, p: Pgno)
    requires Linked(image, ts) && Arrive(image, Tops(ts), path) == Some(p)
    ensures p in Reached(ts)
    decreases ts
  {
    if path[0] > 0 {
      ArriveLater(image, Tops(ts), path);
      TopsRest(ts);
      ArriveReached(image, ts[1..], [path[0] - 1] + path[1..], p);
    } else if |path| > 1 {
      ArriveReached(image, ts[0].kids, path[1..], p);
    }
  }

  lemma DownFirst(image: map<Pgno, Page>, ts: seq<PageTree>, rest: seq<nat>)
    requires ts != [] && Linked(image, ts) && rest != []
    ensures Arrive(image, Tops(ts), [0] + rest) == Arrive(image, Tops(ts[0].kids), rest)
  {
    assert ([0] + rest)[1..] == rest;
  }

  lemma DownLater(image: map<Pgno, Page>, ts: seq<PageTree>, rest: seq<nat>)
    requires ts != [] && rest != []
    ensures Arrive(image, Tops(ts), [rest[0] + 1] + rest[1..]) == Arrive(image, Tops(ts[1..]), rest)
  {
    var path := [rest[0] + 1] + rest[1..];
    ArriveLater(image, Tops(ts), path);
    TopsRest(ts);
    assert [path[0] - 1] + path[1..] == rest;
  }

  lemma ReachedParts(image: map<Pgno, Page>, ts: seq<PageTree>, p: Pgno)
    requires Linked(image, ts) && p in Reached(ts)
    ensures ts != [] && Linked(image, ts[0].kids) && Linked(image, ts[1..])
    ensures p == ts[0].pgno || p in Reached(ts[0].kids) || p in Reached(ts[1..])
    ensures Arrive(image, Tops(ts), [0]) == Some(ts[0].pgno)
  {}

  lemma {:induction false} PathTo(image: map<Pgno, Page>, ts: seq<PageTree>, p: Pgno) returns (path: seq<nat>)
    requires Linked(image, ts) && p in Reached(ts)
    ensures path != [] && Arrive(image, Tops(ts), path) == Some(p)
    decreases ts
  {
    ReachedParts(image, ts, p);
    hide *;
    if p == ts[0].pgno {
      path := [0];
    } else if p in Reached(ts[0].kids) {
      var rest := PathTo(image, ts[0].kids, p);
      DownFirst(image, ts, rest);
      path := [0] + rest;
    } else {
      var rest := PathTo(image, ts[1..], p);
      DownLater(image, ts, rest);
      path := [rest[0] + 1] + rest[1..];
    }
  }

  /** To a page that is reached once there is one path. */
  lemma {:induction false} OnePath(image: map<Pgno, Page>, ts: seq<PageTree>, p: Pgno, a: seq<nat>, b: seq<nat>)
    requires Linked(image, ts) && Reached(ts)[p] <= 1
    requires Arrive(image, Tops(ts), a) == Some(p) && Arrive(image, Tops(ts), b) == Some(p)
    ensures a == b
    decreases ts
  {
    FirstPart(image, ts, p, a);
    FirstPart(image, ts, p, b);
    hide *;
    if a[0] > 0 && b[0] > 0 {
      OnePath(image, ts[1..], p, [a[0] - 1] + a[1..], [b[0] - 1] + b[1..]);
      Shifted(a, b);
    } else if a[0] == 0 && b[0] == 0 {
      if |a| > 1 && |b| > 1 {
        OnePath(image, ts[0].kids, p, a[1..], b[1..]);
      }
      SameSteps(a, b);
    }
  }

  lemma Shifted(a: seq<nat>, b: seq<nat>)
    requires a != [] && b != [] && a[0] > 0 && b[0] > 0 && [a[0] - 1] + a[1..] == [b[0] - 1] + b[1..]
    ensures a == b
  {
    assert a == [([a[0] - 1] + a[1..])[0] + 1] + ([a[0] - 1] + a[1..])[1..];
    assert b == [([b[0] - 1] + b[1..])[0] + 1] + ([b[0] - 1] + b[1..])[1..];
  }

  lemma SameSteps(a: seq<nat>, b: seq<nat>)
    requires a != [] && b != [] && a[0] == b[0]
    ensures (|a| == 1 && |b| == 1) || a[1..] == b[1..] ==> a == b
  {
    if a[1..] == b[1..] {
      assert a == [a[0]] + a[1..] && b == [b[0]] + b[1..];
    }
  }

  /** In which part of the trees the path ends. */
  lemma FirstPart(image: map<Pgno, Page>, ts: seq<PageTree>, p: Pgno, path: seq<nat>)
    requires Linked(image, ts) && Arrive(image, Tops(ts), path) == Some(p)
    ensures path != [] && ts != [] && Linked(image, ts[0].kids) && Linked(image, ts[1..])
    ensures Reached(ts)[p] == (if p == ts[0].pgno then 1 else 0) + Reached(ts[0].kids)[p] + Reached(ts[1..])[p]
    ensures path[0] > 0 ==> p in Reached(ts[1..]) && Arrive(image, Tops(ts[1..]), [path[0] - 1] + path[1..]) == Some(p)
    ensures path[0] == 0 && |path| == 1 ==> p == ts[0].pgno
    ensures path[0] == 0 && |path| > 1 ==>
              p in Reached(ts[0].kids) && Arrive(image, Tops(ts[0].kids), path[1..]) == Some(p)
  {
    if path[0] > 0 {
      ArriveLater(image, Tops(ts), path);
      TopsRest(ts);
      ArriveReached(image, ts[1..], [path[0] - 1] + path[1..], p);
    } else if |path| > 1 {
      ArriveReached(image, ts[0].kids, path[1..], p);
    }
  }

  /** The pages of a snapshot are those its roots lead to, each along one path. */
  lemma ImageReached(s: Snapshot, p: Pgno)
    requires ReachedOnce(s)
    ensures p in s.image <==> exists path :: LeadsTo(s, path, p)
    ensures forall a, b | LeadsTo(s, a, p) && LeadsTo(s, b, p) :: a == b
  {
    var ts: seq<PageTree> :| Spans(s, ts);
    hide Linked, Reached, Tops, Arrive;
    if p in s.image {
      assert p in Reached(ts);
      var path := PathTo(s.image, ts, p);
      assert LeadsTo(s, path, p);
    }
    forall path | LeadsTo(s, path, p) ensures p in s.image {
      ArriveReached(s.image, ts, path, p);
    }
    assert multiset(s.image.Keys)[p] <= 1;
    forall a, b | LeadsTo(s, a, p) && LeadsTo(s, b, p) ensures a == b {
      OnePath(s.image, ts, p, a, b);
    }
  }
}
