/** The finite map a sequence of items stands for. */
module BTreeMap {
  import opened Keys
  import opened BTree

  type Data = seq<Byte>

  function ToMap(s: seq<Node>): map<Key, Data>
    requires forall i | 0 <= i < |s| :: s[i].Item?
  {
    if s == [] then map[] else ToMap(s[..|s| - 1])[s[|s| - 1].key := s[|s| - 1].data]
  }

  lemma {:induction false} MapKeys(s: seq<Node>, key: Key)
    requires forall i | 0 <= i < |s| :: s[i].Item?
    ensures key in ToMap(s) <==> exists i :: 0 <= i < |s| && s[i].key == key
    decreases |s|
  {
    if s != [] {
      var n := |s| - 1;
      MapKeys(s[..n], key);
      if i :| 0 <= i < |s| && s[i].key == key {
        if i < n { assert s[..n][i].key == key; }
      }
      if key in ToMap(s[..n]) {
        var i :| 0 <= i < n && s[..n][i].key == key;
        assert s[i].key == key;
      }
      if key == s[n].key { assert s[n].key == key; }
    }
  }

  lemma {:induction false} MapAt(s: seq<Node>, i: nat)
    requires InOrder(s, 0.0, 1.0) && i < |s|
    ensures s[i].key in ToMap(s) && ToMap(s)[s[i].key] == s[i].data
    decreases |s|
  {
    var n := |s| - 1;
    if i < n {
      MapAt(s[..n], i);
      assert Rank(s[i].key) < Rank(s[n].key);
    }
  }

  lemma MapCons(s: seq<Node>)
    requires s != [] && forall i | 0 <= i < |s| :: s[i].Item?
    ensures ToMap(s) == ToMap(s[..|s| - 1])[s[|s| - 1].key := s[|s| - 1].data]
  {}

  lemma MapPlus(a: map<Key, Data>, b: map<Key, Data>, key: Key, data: Data)
    ensures (a + b)[key := data] == a + b[key := data]
  {}

  lemma {:induction false} MapAppend(a: seq<Node>, b: seq<Node>)
    requires forall i | 0 <= i < |a| :: a[i].Item?
    requires forall i | 0 <= i < |b| :: b[i].Item?
    ensures forall i | 0 <= i < |a + b| :: (a + b)[i].Item?
    ensures ToMap(a + b) == ToMap(a) + ToMap(b)
    decreases |b|
  {
    if b == [] {
      assert a + b == a;
    } else {
      hide *;
      var n := |b| - 1;
      MapAppend(a, b[..n]);
      MapCons(b);
      MapCons(a + b);
      assert (a + b)[..|a + b| - 1] == a + b[..n];
      MapPlus(ToMap(a), ToMap(b[..n]), b[n].key, b[n].data);
    }
  }

  /** In key order, what stands before an item has smaller keys, what stands after it larger ones. */
  lemma Sides(a: seq<Node>, x: Node, b: seq<Node>)
    requires InOrder(a + [x] + b, 0.0, 1.0)
    ensures x.Item?
    ensures forall i | 0 <= i < |a| :: a[i].Item? && Rank(a[i].key) < Rank(x.key)
    ensures forall i | 0 <= i < |b| :: b[i].Item? && Rank(x.key) < Rank(b[i].key)
  {
    hide Rank;
    var s := a + [x] + b;
    assert s[|a|] == x;
    forall i | 0 <= i < |a| ensures a[i].Item? && Rank(a[i].key) < Rank(x.key) {
      assert s[i] == a[i];
    }
    forall i | 0 <= i < |b| ensures b[i].Item? && Rank(x.key) < Rank(b[i].key) {
      assert s[|a| + 1 + i] == b[i];
    }
  }

  lemma OneMap(x: Node)
    requires x.Item?
    ensures ToMap([x]) == map[x.key := x.data]
  {
    assert [x][..0] == [] && ToMap([]) == map[];
  }

  lemma AroundMaps(a: map<Key, Data>, b: map<Key, Data>, key: Key, data: Data)
    requires key !in a && key !in b
    ensures (a + map[key := data]) + b == (a + b)[key := data]
  {}

  /** Neither side has the key. */
  lemma NoKey(a: seq<Node>, key: Key)
    requires (forall i | 0 <= i < |a| :: a[i].Item?) && forall i | 0 <= i < |a| :: Rank(a[i].key) != Rank(key)
    ensures key !in ToMap(a)
  {
    hide Rank, ToMap;
    MapKeys(a, key);
  }

  lemma AroundKey(a: seq<Node>, x: Node, b: seq<Node>)
    requires x.Item? && InOrder(a + [x] + b, 0.0, 1.0)
    ensures forall i | 0 <= i < |a| :: a[i].Item?
    ensures forall i | 0 <= i < |b| :: b[i].Item?
    ensures x.key !in ToMap(a) && x.key !in ToMap(b)
    ensures ToMap(a + [x] + b) == (ToMap(a) + ToMap(b))[x.key := x.data]
  {
    hide *;
    Sides(a, x, b);
    NoKey(a, x.key);
    NoKey(b, x.key);
    MapAppend(a, [x]);
    MapAppend(a + [x], b);
    OneMap(x);
    AroundMaps(ToMap(a), ToMap(b), x.key, x.data);
  }

  lemma MapInsert(a: seq<Node>, x: Node, b: seq<Node>)
    requires x.Item? && InOrder(a + [x] + b, 0.0, 1.0)
    ensures forall i | 0 <= i < |a + b| :: (a + b)[i].Item?
    ensures x.key !in ToMap(a + b)
    ensures ToMap(a + [x] + b) == ToMap(a + b)[x.key := x.data]
    ensures ToMap(a + b) == ToMap(a + [x] + b) - {x.key}
  {
    hide *;
    AroundKey(a, x, b);
    MapAppend(a, b);
  }

  lemma MapUpdate(a: seq<Node>, x: Node, y: Node, b: seq<Node>)
    requires x.Item? && y.Item? && x.key == y.key
    requires InOrder(a + [x] + b, 0.0, 1.0) && InOrder(a + [y] + b, 0.0, 1.0)
    ensures x.key in ToMap(a + [x] + b)
    ensures ToMap(a + [y] + b) == ToMap(a + [x] + b)[y.key := y.data]
  {
    AroundKey(a, x, b);
    AroundKey(a, y, b);
  }

  /** A key between the two parts is not in the map. */
  lemma MapMissing(a: seq<Node>, b: seq<Node>, key: Key)
    requires InOrder(a + b, 0.0, 1.0)
    requires forall i | 0 <= i < |a| :: Rank(a[i].key) < Rank(key)
    requires forall i | 0 <= i < |b| :: Rank(key) < Rank(b[i].key)
    ensures key !in ToMap(a + b)
  {
    MapKeys(a + b, key);
  }
}
