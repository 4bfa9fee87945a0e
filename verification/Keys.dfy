/** Key order (mdb.c): `mdb_cmp_memn`, a total order on byte strings, and `mdb_cmp_cint`. */
module Keys {
  type Byte = x: int | 0 <= x < 256
  type Key = seq<Byte>

  /** Lexicographic order, a proper prefix first. */
  ghost predicate Less(a: Key, b: Key)
    decreases |a|
  {
    |b| > 0 && (|a| == 0 || a[0] < b[0] || (a[0] == b[0] && Less(a[1..], b[1..])))
  }

  /** Position of a key on the line [0, 1): reads the key as digits after the point. */
  ghost function Rank(k: Key): (r: real)
    ensures 0.0 <= r < 1.0
    ensures r == 0.0 <==> k == []
  {
    if k == [] then 0.0 else (k[0] as real + 1.0 + Rank(k[1..])) / 257.0
  }

  /** Ranks order keys exactly as `Less` does, and distinct keys have distinct ranks: so `Less`
      is a strict total order. */
  lemma {:induction false} RankOrders(a: Key, b: Key)
    ensures Less(a, b) <==> Rank(a) < Rank(b)
    ensures a == b <==> Rank(a) == Rank(b)
    decreases |a|
  {
    if a != [] && b != [] {
      RankOrders(a[1..], b[1..]);
      if a[0] < b[0] {
        assert a[0] as real + 1.0 + Rank(a[1..]) < b[0] as real + 1.0 + Rank(b[1..]);
      } else if b[0] < a[0] {
        assert b[0] as real + 1.0 + Rank(b[1..]) < a[0] as real + 1.0 + Rank(a[1..]);
      } else {
        assert a == [a[0]] + a[1..] && b == [b[0]] + b[1..];
      }
    }
  }

  /** After a common prefix the rest decides. */
  lemma {:induction false} LessAfter(a: Key, b: Key, n: nat)
    requires n <= |a| && n <= |b| && a[..n] == b[..n]
    ensures Less(a, b) <==> Less(a[n..], b[n..])
    decreases n
  {
    if n == 0 {
      assert a[0..] == a && b[0..] == b;
    } else {
      assert a[0] == a[..n][0] == b[..n][0] == b[0];
      assert a[1..][..n - 1] == a[..n][1..] == b[..n][1..] == b[1..][..n - 1];
      LessAfter(a[1..], b[1..], n - 1);
      assert a[1..][n - 1..] == a[n..] && b[1..][n - 1..] == b[n..];
    }
  }

  /** memcmp: the difference of the first bytes that differ, 0 when there are none. */
  method MemCmp(a: Key, b: Key, len: nat) returns (diff: int)
    requires len <= |a| && len <= |b|
    ensures diff == 0 <==> a[..len] == b[..len]
    ensures diff < 0 <==> Less(a[..len], b[..len])
  {
    var i := 0;
    diff := 0;
    while i < len && diff == 0
      invariant i <= len
      invariant diff == 0 ==> a[..i] == b[..i]
      invariant diff != 0 ==> 0 < i && a[..i - 1] == b[..i - 1] && diff == a[i - 1] as int - b[i - 1] as int
    {
      diff := a[i] as int - b[i] as int;
      i := i + 1;
      assert diff == 0 ==> a[..i] == a[..i - 1] + [a[i - 1]] && b[..i] == b[..i - 1] + [b[i - 1]];
    }
    if diff != 0 {
      var x, y := a[..len], b[..len];
      assert x[..i - 1] == a[..i - 1] && y[..i - 1] == b[..i - 1];
      LessAfter(x, y, i - 1);
      assert x[i - 1] != y[i - 1];
    } else {
      RankOrders(a[..len], b[..len]);
    }
  }

  /** `mdb_cmp_memn`. */
  method CmpMemn(a: Key, b: Key) returns (r: int)
    ensures r < 0 <==> Less(a, b)
    ensures r == 0 <==> a == b
    ensures r < 0 <==> Rank(a) < Rank(b)
    ensures r == 0 <==> Rank(a) == Rank(b)
  {
    var len := |a|;
    var lenDiff := |a| - |b|;
    if lenDiff > 0 {
      len := |b|;
      lenDiff := 1;
    }
    var diff := MemCmp(a, b, len);
    r := if diff != 0 then diff else if lenDiff < 0 then -1 else lenDiff;
    RankOrders(a, b);
    CommonPrefix(a, b, len);
  }

  /** When one key is the prefix of length `len` of the other, or they differ before. */
  lemma CommonPrefix(a: Key, b: Key, len: nat)
    requires len <= |a| && len <= |b| && (len == |a| || len == |b|)
    ensures a[..len] == b[..len] ==> (Less(a, b) <==> |a| < |b|) && (a == b <==> |a| == |b|)
    ensures a[..len] != b[..len] ==> (Less(a, b) <==> Less(a[..len], b[..len])) && a != b
  {
    if a[..len] == b[..len] {
      LessAfter(a, b, len);
      assert |a| == |b| ==> a == a[..len] && b == b[..len];
    } else {
      LessPrefix(a, b, len);
    }
  }

  lemma {:induction false} LessPrefix(a: Key, b: Key, len: nat)
    requires len <= |a| && len <= |b| && a[..len] != b[..len]
    ensures Less(a, b) <==> Less(a[..len], b[..len])
    decreases len
  {
    assert len > 0;
    if a[0] == b[0] {
      assert a[..len] == [a[0]] + a[1..][..len - 1] && b[..len] == [b[0]] + b[1..][..len - 1];
      assert a[..len][1..] == a[1..][..len - 1] && b[..len][1..] == b[1..][..len - 1];
      LessPrefix(a[1..], b[1..], len - 1);
    }
  }

  // ---------------------------------------------------------------- integer keys

  /** The value of a little-endian integer. */
  ghost function Value(k: Key): nat {
    if k == [] then 0 else k[0] as int + 256 * Value(k[1..])
  }

  /** The 16-bit unit at byte position p. */
  function Unit(k: Key, p: nat): nat
    requires p + 1 < |k|
  {
    k[p] as int + 256 * (k[p + 1] as int)
  }

  lemma ZeroValue()
    ensures Value([]) == 0
  {}

  lemma ValueUnit(k: Key, p: nat)
    requires p + 1 < |k|
    ensures Value(k[p..]) == Unit(k, p) + 0x1_0000 * Value(k[p + 2..])
  {
    assert k[p..][1..] == k[p + 1..] && k[p + 1..][1..] == k[p + 2..];
  }

  /** `mdb_cmp_cint` on a little-endian machine orders integer keys by their value. */
  method CmpCint(a: Key, b: Key) returns (x: int)
    requires |a| == |b| && |a| > 0 && |a| % 2 == 0
    ensures x < 0 <==> Value(a) < Value(b)
    ensures x == 0 <==> Value(a) == Value(b)
  {
    hide Value;
    ZeroValue();
    var u := |a| - 2;
    x := Unit(a, u) - Unit(b, u);
    ValueUnit(a, u);
    ValueUnit(b, u);
    assert a[u + 2..] == [] && b[u + 2..] == [];
    while x == 0 && u > 0
      invariant 0 <= u <= |a| - 2 && u % 2 == 0
      invariant x < 0 <==> Value(a[u..]) < Value(b[u..])
      invariant x == 0 <==> Value(a[u..]) == Value(b[u..])
    {
      u := u - 2;
      x := Unit(a, u) - Unit(b, u);
      ValueUnit(a, u);
      ValueUnit(b, u);
    }
    HighUnits(a, b, u);
    assert a[0..] == a && b[0..] == b;
  }

  /** The higher units decide: lower units are worth less than one higher unit. */
  lemma {:induction false} HighUnits(a: Key, b: Key, u: nat)
    requires |a| == |b| && u <= |a| && u % 2 == 0
    requires u == 0 || Value(a[u..]) != Value(b[u..])
    ensures Value(a[0..]) < Value(b[0..]) <==> Value(a[u..]) < Value(b[u..])
    ensures Value(a[0..]) == Value(b[0..]) <==> Value(a[u..]) == Value(b[u..])
    decreases u
  {
    if u > 0 {
      ValueUnit(a, u - 2);
      ValueUnit(b, u - 2);
      HighUnits(a, b, u - 2);
    }
  }
}
