/** Nodes in a page (mdb_node_add, mdb_node_del, mdb_update_key, mdb.c): an array of offsets grows
    upward, the nodes themselves are packed downward from the end of the page.

    The offsets are kept in an array of their own; mp_lower says where they end in the page. */
module SlottedPage {
  import opened Keys
  import BTree
  import Seqs

  const PAGEHDRSZ := 16
  const NODESIZE := 8

  /** A node: mn_lo and mn_hi, mn_flags, and the bytes of the key and of the data. */
  datatype RawNode = RawNode(low: nat, flags: nat, key: seq<Byte>, data: seq<Byte>)

  function Even(n: nat): nat { n + n % 2 }

  function Size(n: RawNode): nat { Even(NODESIZE + |n.key| + |n.data|) }

  function Total(nodes: seq<RawNode>): nat {
    if nodes == [] then 0 else Size(nodes[0]) + Total(nodes[1..])
  }

  lemma {:induction false} TotalAppend(a: seq<RawNode>, b: seq<RawNode>)
    ensures Total(a + b) == Total(a) + Total(b)
    decreases |a|
  {
    if a == [] {
      assert a + b == b;
    } else {
      TotalAppend(a[1..], b);
      assert (a + b)[1..] == a[1..] + b;
    }
  }

  lemma TotalOne(n: RawNode)
    ensures Total([n]) == Size(n)
  {
    assert Total([]) == 0;
  }

  function Insert(s: seq<RawNode>, i: nat, n: RawNode): seq<RawNode>
    requires i <= |s|
  {
    s[..i] + [n] + s[i..]
  }

  function Remove(s: seq<RawNode>, i: nat): seq<RawNode>
    requires i < |s|
  {
    s[..i] + s[i + 1..]
  }

  lemma TotalInsert(s: seq<RawNode>, i: nat, n: RawNode)
    requires i <= |s|
    ensures Total(Insert(s, i, n)) == Total(s) + Size(n)
  {
    hide Total, Size;
    TotalAppend(s[..i] + [n], s[i..]);
    TotalAppend(s[..i], [n]);
    TotalOne(n);
    TotalAppend(s[..i], s[i..]);
    Seqs.Cut(s, i);
  }

  lemma TotalRemove(s: seq<RawNode>, i: nat)
    requires i < |s|
    ensures Total(Remove(s, i)) == Total(s) - Size(s[i])
  {
    hide Total, Size;
    Seqs.CutOne(s, i);
    TotalAppend(s[..i], [s[i]] + s[i + 1..]);
    TotalAppend([s[i]], s[i + 1..]);
    TotalOne(s[i]);
    TotalAppend(s[..i], s[i + 1..]);
  }

  lemma TotalUpdate(s: seq<RawNode>, i: nat, n: RawNode)
    requires i < |s|
    ensures Total(s[i := n]) == Total(s) - Size(s[i]) + Size(n)
  {
    hide Total, Size;
    TotalRemove(s, i);
    Seqs.Update(s, i, n);
    TotalAppend(s[..i], [n] + s[i + 1..]);
    TotalAppend([n], s[i + 1..]);
    TotalOne(n);
    TotalAppend(s[..i], s[i + 1..]);
  }

  // ---------------------------------------------------------------- nodes as bytes

  /** Two bytes, little endian. */
  function U16(v: nat): (r: seq<Byte>)
    ensures |r| == 2
  {
    [v % 256, v / 256 % 256]
  }

  /** The header of a node. */
  function Header(n: RawNode): (r: seq<Byte>)
    ensures |r| == NODESIZE
  {
    U16(n.low) + U16(n.low / 0x1_0000) + U16(n.flags) + U16(|n.key|)
  }

  function Encode(n: RawNode): (r: seq<Byte>)
    ensures |r| == NODESIZE + |n.key| + |n.data|
  {
    Header(n) + n.key + n.data
  }

  /** Sizes that the header can hold, and data of the length the header says. */
  ghost predicate NodeOk(n: RawNode, leaf: bool) {
    && n.low < 0x1_0000_0000 && n.flags < 0x1_0000 && |n.key| < 0x1_0000
    && (leaf ==> |n.data| == if n.flags % 2 == 1 then 8 else n.low)
    && (!leaf ==> n.data == [])
  }

  function ReadU16(b: seq<Byte>, p: nat): nat
    requires p + 1 < |b|
  {
    b[p] as int + 256 * (b[p + 1] as int)
  }

  /** The size of the node at p, as its header says. */
  function ReadSize(b: seq<Byte>, p: nat, leaf: bool): nat
    requires p + 7 < |b|
  {
    NODESIZE + ReadU16(b, p + 6)
    + if !leaf then 0 else if ReadU16(b, p + 4) % 2 == 1 then 8 else ReadU16(b, p) + 0x1_0000 * ReadU16(b, p + 2)
  }

  lemma FieldRead(b: seq<Byte>, p: nat, v: nat)
    requires p + 1 < |b| && b[p..p + 2] == U16(v)
    ensures ReadU16(b, p) == v % 0x1_0000
  {
    assert b[p] == b[p..p + 2][0] && b[p + 1] == b[p..p + 2][1];
    TwoDigits(v);
  }

  lemma TwoDigits(v: nat)
    ensures v % 256 + 256 * (v / 256 % 256) == v % 0x1_0000
  {
    var k, a := v / 0x1_0000, v % 0x1_0000;
    assert v == 0x1_0000 * k + a;
    assert v / 256 == 256 * k + a / 256;
    assert v / 256 % 256 == a / 256;
    assert v % 256 == a % 256;
  }

  /** The four fields of a header. */
  lemma HeaderFields(b: seq<Byte>, p: nat, n: RawNode)
    requires p + NODESIZE <= |b| && b[p..p + NODESIZE] == Header(n)
    ensures b[p..p + 2] == U16(n.low) && b[p + 2..p + 4] == U16(n.low / 0x1_0000)
    ensures b[p + 4..p + 6] == U16(n.flags) && b[p + 6..p + 8] == U16(|n.key|)
  {
    hide U16;
    var h := b[p..p + NODESIZE];
    assert h[0..2] == U16(n.low) && h[2..4] == U16(n.low / 0x1_0000) && h[4..6] == U16(n.flags) && h[6..8] == U16(|n.key|);
    assert b[p..p + 2] == h[0..2] && b[p + 2..p + 4] == h[2..4] && b[p + 4..p + 6] == h[4..6] && b[p + 6..p + 8] == h[6..8];
  }

  /** The header says the node's size. */
  lemma HeaderSize(b: seq<Byte>, p: nat, n: RawNode, leaf: bool)
    requires NodeOk(n, leaf) && p + NODESIZE <= |b| && b[p..p + NODESIZE] == Header(n)
    ensures ReadSize(b, p, leaf) == NODESIZE + |n.key| + |n.data|
  {
    hide U16, ReadU16, Header;
    HeaderFields(b, p, n);
    FieldRead(b, p, n.low);
    FieldRead(b, p + 2, n.low / 0x1_0000);
    FieldRead(b, p + 4, n.flags);
    FieldRead(b, p + 6, |n.key|);
  }

  // ---------------------------------------------------------------- layout

  /** Where the nodes are: in [upper, end), aligned, apart from each other, and covering it all. */
  ghost predicate Layout(ptrs: seq<nat>, sizes: seq<nat>, upper: nat, end: nat) {
    && |ptrs| == |sizes| && upper <= end && upper % 2 == 0
    && (forall i | 0 <= i < |ptrs| :: Placed(ptrs[i], sizes[i], upper, end))
    && (forall i, j | 0 <= i < |ptrs| && 0 <= j < |ptrs| && i != j :: Disjoint(ptrs[i], sizes[i], ptrs[j], sizes[j]))
    && (forall b: nat | upper <= b < end :: Covered(ptrs, sizes, b))
  }

  ghost predicate Placed(p: nat, s: nat, upper: nat, end: nat) {
    upper <= p && p + s <= end && p % 2 == 0 && s % 2 == 0 && s >= NODESIZE
  }

  ghost predicate Disjoint(p: nat, s: nat, q: nat, t: nat) {
    p + s <= q || q + t <= p
  }

  ghost predicate Covered(ptrs: seq<nat>, sizes: seq<nat>, b: nat)
    requires |ptrs| == |sizes|
  {
    exists i :: 0 <= i < |ptrs| && ptrs[i] <= b < ptrs[i] + sizes[i]
  }

  ghost function Sizes(nodes: seq<RawNode>): (r: seq<nat>)
    ensures |r| == |nodes| && forall i | 0 <= i < |r| :: r[i] == Size(nodes[i])
  {
    seq(|nodes|, i requires 0 <= i < |nodes| => Size(nodes[i]))
  }

  /** Node i stands at its offset. */
  ghost predicate Stored(bytes: seq<Byte>, ptrs: seq<nat>, nodes: seq<RawNode>) {
    && |ptrs| == |nodes|
    && (forall i | 0 <= i < |ptrs| :: ptrs[i] + Size(nodes[i]) <= |bytes|)
    && forall i | 0 <= i < |ptrs| :: bytes[ptrs[i]..ptrs[i] + |Encode(nodes[i])|] == Encode(nodes[i])
  }

  function InsertAt(s: seq<nat>, i: nat, x: nat): seq<nat>
    requires i <= |s|
  {
    s[..i] + [x] + s[i..]
  }

  /** A new node right below the others. */
  lemma LayoutAdd(ptrs: seq<nat>, sizes: seq<nat>, upper: nat, end: nat, i: nat, sz: nat)
    requires Layout(ptrs, sizes, upper, end) && i <= |ptrs| && NODESIZE <= sz <= upper && sz % 2 == 0
    ensures Layout(InsertAt(ptrs, i, upper - sz), InsertAt(sizes, i, sz), upper - sz, end)
  {
    var p, s := InsertAt(ptrs, i, upper - sz), InsertAt(sizes, i, sz);
    assert forall k | 0 <= k < |p| && k != i :: p[k] == ptrs[if k < i then k else k - 1];
    assert forall k | 0 <= k < |p| && k != i :: s[k] == sizes[if k < i then k else k - 1];
    AddPlaced(ptrs, sizes, upper, end, i, sz, p, s);
    forall b: nat | upper - sz <= b < end ensures Covered(p, s, b) {
      if b < upper {
        assert p[i] <= b < p[i] + s[i];
      } else {
        CoveredMoves(ptrs, sizes, b, p, s, b, i);
      }
    }
  }

  lemma AddPlaced(ptrs: seq<nat>, sizes: seq<nat>, upper: nat, end: nat, i: nat, sz: nat, p: seq<nat>, s: seq<nat>)
    requires Layout(ptrs, sizes, upper, end) && i <= |ptrs| && NODESIZE <= sz <= upper && sz % 2 == 0
    requires |p| == |s| == |ptrs| + 1 && p[i] == upper - sz && s[i] == sz
    requires forall k | 0 <= k < |p| && k != i :: p[k] == ptrs[if k < i then k else k - 1]
    requires forall k | 0 <= k < |p| && k != i :: s[k] == sizes[if k < i then k else k - 1]
    ensures forall k | 0 <= k < |p| :: Placed(p[k], s[k], upper - sz, end)
    ensures forall k, j | 0 <= k < |p| && 0 <= j < |p| && k != j :: Disjoint(p[k], s[k], p[j], s[j])
  {
    forall k | 0 <= k < |p| ensures Placed(p[k], s[k], upper - sz, end) {
      if k != i { assert Placed(ptrs[if k < i then k else k - 1], sizes[if k < i then k else k - 1], upper, end); }
    }
    forall k, j | 0 <= k < |p| && 0 <= j < |p| && k != j ensures Disjoint(p[k], s[k], p[j], s[j]) {
      var a, b := if k < i then k else k - 1, if j < i then j else j - 1;
      if k != i && j != i {
        assert Disjoint(ptrs[a], sizes[a], ptrs[b], sizes[b]);
      } else if k != i {
        assert Placed(ptrs[a], sizes[a], upper, end);
      } else {
        assert Placed(ptrs[b], sizes[b], upper, end);
      }
    }
  }

  /** A byte keeps its node when the node keeps its place, at another index. */
  lemma CoveredMoves(ptrs: seq<nat>, sizes: seq<nat>, b: nat, p: seq<nat>, s: seq<nat>, c: nat, i: nat)
    requires |ptrs| == |sizes| && |p| == |s| == |ptrs| + 1 && i <= |ptrs| && Covered(ptrs, sizes, b) && c == b
    requires forall k | 0 <= k < |p| && k != i :: p[k] == ptrs[if k < i then k else k - 1]
    requires forall k | 0 <= k < |p| && k != i :: s[k] == sizes[if k < i then k else k - 1]
    ensures Covered(p, s, c)
  {
    var k :| 0 <= k < |ptrs| && ptrs[k] <= b < ptrs[k] + sizes[k];
    var o := if k < i then k else k + 1;
    assert p[o] <= b < p[o] + s[o];
  }

  /** The offsets after node `indx` is gone: those below it move up. */
  function Shifted(ptrs: seq<nat>, ptr: nat, sz: nat): (r: seq<nat>)
    ensures |r| == |ptrs|
  {
    seq(|ptrs|, k requires 0 <= k < |ptrs| => if ptrs[k] < ptr then ptrs[k] + sz else ptrs[k])
  }

  function RemoveAt(s: seq<nat>, i: nat): seq<nat>
    requires i < |s|
  {
    s[..i] + s[i + 1..]
  }

  lemma LayoutDel(ptrs: seq<nat>, sizes: seq<nat>, upper: nat, end: nat, x: nat)
    requires Layout(ptrs, sizes, upper, end) && x < |ptrs|
    ensures Layout(RemoveAt(Shifted(ptrs, ptrs[x], sizes[x]), x), RemoveAt(sizes, x), upper + sizes[x], end)
  {
    var ptr, sz := ptrs[x], sizes[x];
    var p, s := RemoveAt(Shifted(ptrs, ptr, sz), x), RemoveAt(sizes, x);
    assert Placed(ptr, sz, upper, end);
    forall k | 0 <= k < |p|
      ensures var o := if k < x then k else k + 1; s[k] == sizes[o] && p[k] == Moved(ptrs[o], ptr, sz) {}
    DelPlaced(ptrs, sizes, upper, end, x, p, s);
    forall b: nat | upper + sz <= b < end ensures Covered(p, s, b) {
      DelCovered(ptrs, sizes, upper, end, x, p, s, b);
    }
  }

  ghost function Moved(q: nat, ptr: nat, sz: nat): nat {
    if q < ptr then q + sz else q
  }

  lemma DelPlaced(ptrs: seq<nat>, sizes: seq<nat>, upper: nat, end: nat, x: nat, p: seq<nat>, s: seq<nat>)
    requires Layout(ptrs, sizes, upper, end) && x < |ptrs| && |p| == |s| == |ptrs| - 1
    requires forall k | 0 <= k < |p| ::
               var o := if k < x then k else k + 1; s[k] == sizes[o] && p[k] == Moved(ptrs[o], ptrs[x], sizes[x])
    ensures forall k | 0 <= k < |p| :: Placed(p[k], s[k], upper + sizes[x], end)
    ensures forall k, j | 0 <= k < |p| && 0 <= j < |p| && k != j :: Disjoint(p[k], s[k], p[j], s[j])
  {
    assert Placed(ptrs[x], sizes[x], upper, end);
    forall k | 0 <= k < |p| ensures Placed(p[k], s[k], upper + sizes[x], end) {
      var o := if k < x then k else k + 1;
      assert Placed(ptrs[o], sizes[o], upper, end) && Disjoint(ptrs[o], sizes[o], ptrs[x], sizes[x]);
    }
    forall k, j | 0 <= k < |p| && 0 <= j < |p| && k != j ensures Disjoint(p[k], s[k], p[j], s[j]) {
      var a, b := if k < x then k else k + 1, if j < x then j else j + 1;
      assert Disjoint(ptrs[a], sizes[a], ptrs[b], sizes[b]);
      assert Disjoint(ptrs[a], sizes[a], ptrs[x], sizes[x]) && Disjoint(ptrs[b], sizes[b], ptrs[x], sizes[x]);
    }
  }

  lemma DelCovered(ptrs: seq<nat>, sizes: seq<nat>, upper: nat, end: nat, x: nat, p: seq<nat>, s: seq<nat>, b: nat)
    requires Layout(ptrs, sizes, upper, end) && x < |ptrs| && |p| == |s| == |ptrs| - 1
    requires upper + sizes[x] <= b < end
    requires forall k | 0 <= k < |p| ::
               var o := if k < x then k else k + 1; s[k] == sizes[o] && p[k] == Moved(ptrs[o], ptrs[x], sizes[x])
    ensures Covered(p, s, b)
  {
    var ptr, sz := ptrs[x], sizes[x];
    assert Placed(ptr, sz, upper, end);
    var was: nat := if b < ptr + sz then b - sz else b;
    assert Covered(ptrs, sizes, was);
    var o :| 0 <= o < |ptrs| && ptrs[o] <= was < ptrs[o] + sizes[o];
    assert o != x && Disjoint(ptrs[o], sizes[o], ptr, sz);
    var k := if o < x then o else o - 1;
    assert p[k] <= b < p[k] + s[k];
  }

  /** The offsets when node x grows downward by delta: it and those below it move down. */
  ghost function Lowered(q: nat, ptr: nat, delta: int): int {
    if q <= ptr then q - delta else q
  }

  ghost predicate Resized(ptrs: seq<nat>, sizes: seq<nat>, x: nat, delta: int, p: seq<nat>, s: seq<nat>) {
    && x < |ptrs| == |sizes| == |p| == |s|
    && (forall k | 0 <= k < |p| :: p[k] == Lowered(ptrs[k], ptrs[x], delta))
    && (forall k | 0 <= k < |p| :: s[k] == if k == x then sizes[k] + delta else sizes[k])
  }

  lemma LayoutKey(ptrs: seq<nat>, sizes: seq<nat>, upper: nat, end: nat, x: nat, delta: int, p: seq<nat>, s: seq<nat>)
    requires Layout(ptrs, sizes, upper, end) && Resized(ptrs, sizes, x, delta, p, s)
    requires delta % 2 == 0 && delta <= upper && sizes[x] + delta >= NODESIZE
    ensures Layout(p, s, upper - delta, end)
  {
    assert Placed(ptrs[x], sizes[x], upper, end);
    KeyPlaced(ptrs, sizes, upper, end, x, delta, p, s);
    forall b: nat | upper - delta <= b < end ensures Covered(p, s, b) {
      KeyCovered(ptrs, sizes, upper, end, x, delta, p, s, b);
    }
  }

  lemma KeyPlaced(ptrs: seq<nat>, sizes: seq<nat>, upper: nat, end: nat, x: nat, delta: int, p: seq<nat>, s: seq<nat>)
    requires Layout(ptrs, sizes, upper, end) && Resized(ptrs, sizes, x, delta, p, s)
    requires delta % 2 == 0 && delta <= upper && sizes[x] + delta >= NODESIZE
    ensures forall k | 0 <= k < |p| :: Placed(p[k], s[k], upper - delta, end)
    ensures forall k, j | 0 <= k < |p| && 0 <= j < |p| && k != j :: Disjoint(p[k], s[k], p[j], s[j])
  {
    assert Placed(ptrs[x], sizes[x], upper, end);
    forall k | 0 <= k < |p| ensures Placed(p[k], s[k], upper - delta, end) {
      assert Placed(ptrs[k], sizes[k], upper, end);
      if k != x { assert Disjoint(ptrs[k], sizes[k], ptrs[x], sizes[x]); }
    }
    forall k, j | 0 <= k < |p| && 0 <= j < |p| && k != j ensures Disjoint(p[k], s[k], p[j], s[j]) {
      assert Disjoint(ptrs[k], sizes[k], ptrs[j], sizes[j]);
      assert Placed(ptrs[k], sizes[k], upper, end) && Placed(ptrs[j], sizes[j], upper, end);
      if k != x { assert Disjoint(ptrs[k], sizes[k], ptrs[x], sizes[x]); }
      if j != x { assert Disjoint(ptrs[j], sizes[j], ptrs[x], sizes[x]); }
    }
  }

  lemma KeyCovered(ptrs: seq<nat>, sizes: seq<nat>, upper: nat, end: nat, x: nat, delta: int, p: seq<nat>, s: seq<nat>, b: nat)
    requires Layout(ptrs, sizes, upper, end) && Resized(ptrs, sizes, x, delta, p, s)
    requires upper - delta <= b < end && sizes[x] + delta >= NODESIZE
    ensures Covered(p, s, b)
  {
    var ptr, sz := ptrs[x], sizes[x];
    assert Placed(ptr, sz, upper, end);
    if ptr - delta <= b < ptr + sz {
      assert p[x] <= b < p[x] + s[x];
    } else {
      var was: nat := if b < ptr - delta then b + delta else b;
      assert Covered(ptrs, sizes, was);
      var o :| 0 <= o < |ptrs| && ptrs[o] <= was < ptrs[o] + sizes[o];
      assert o != x && Disjoint(ptrs[o], sizes[o], ptr, sz);
      assert p[o] <= b < p[o] + s[o];
    }
  }

  // ---------------------------------------------------------------- stored bytes

  lemma EncodeFits(n: RawNode)
    ensures |Encode(n)| <= Size(n) <= |Encode(n)| + 1 && NODESIZE <= |Encode(n)|
  {}

  /** Writing below all nodes leaves them, and stores one more. */
  lemma StoredAdd(b: seq<Byte>, b': seq<Byte>, ptrs: seq<nat>, nodes: seq<RawNode>, upper: nat, i: nat, ofs: nat, n: RawNode)
    requires Stored(b, ptrs, nodes) && |b'| == |b| && i <= |ptrs| && ofs + Size(n) <= upper <= |b|
    requires forall k | 0 <= k < |ptrs| :: upper <= ptrs[k]
    requires forall q | upper <= q < |b| :: b'[q] == b[q]
    requires b'[ofs..ofs + |Encode(n)|] == Encode(n)
    ensures Stored(b', InsertAt(ptrs, i, ofs), Insert(nodes, i, n))
  {
    hide Encode, Size;
    EncodeFits(n);
    var p, m := InsertAt(ptrs, i, ofs), Insert(nodes, i, n);
    forall k | 0 <= k < |p|
      ensures p[k] + Size(m[k]) <= |b'| && p[k] + |Encode(m[k])| <= |b'| && b'[p[k]..p[k] + |Encode(m[k])|] == Encode(m[k])
    {
      if k != i {
        var o := if k < i then k else k - 1;
        assert p[k] == ptrs[o] && m[k] == nodes[o];
        EncodeFits(nodes[o]);
        SameSlice(b, b', ptrs[o], ptrs[o] + |Encode(nodes[o])|);
      }
    }
  }

  lemma SameSlice(b: seq<Byte>, b': seq<Byte>, x: nat, y: nat)
    requires x <= y <= |b| == |b'| && forall q | x <= q < y :: b'[q] == b[q]
    ensures b'[x..y] == b[x..y]
  {}

  lemma ShiftedSlice(b: seq<Byte>, b': seq<Byte>, x: nat, y: nat, d: int)
    requires x <= y <= |b| == |b'| && 0 <= x + d && y + d <= |b|
    requires forall q | x + d <= q < y + d :: b'[q] == b[q - d]
    ensures b'[x + d..y + d] == b[x..y]
  {}

  /** Moving the nodes below ptr up by sz, over node x. */
  lemma StoredDel(b: seq<Byte>, b': seq<Byte>, ptrs: seq<nat>, nodes: seq<RawNode>, upper: nat, x: nat)
    requires Stored(b, ptrs, nodes) && |b'| == |b| && x < |ptrs| && Layout(ptrs, Sizes(nodes), upper, |b|)
    requires forall q | upper + Size(nodes[x]) <= q < ptrs[x] + Size(nodes[x]) :: b'[q] == b[q - Size(nodes[x])]
    requires forall q | ptrs[x] + Size(nodes[x]) <= q < |b| :: b'[q] == b[q]
    ensures Stored(b', RemoveAt(Shifted(ptrs, ptrs[x], Size(nodes[x])), x), Remove(nodes, x))
  {
    hide Encode, Size;
    var ptr, sz := ptrs[x], Size(nodes[x]);
    var p, m := RemoveAt(Shifted(ptrs, ptr, sz), x), Remove(nodes, x);
    forall k | 0 <= k < |p|
      ensures p[k] + Size(m[k]) <= |b'| && p[k] + |Encode(m[k])| <= |b'| && b'[p[k]..p[k] + |Encode(m[k])|] == Encode(m[k])
    {
      var o := if k < x then k else k + 1;
      assert p[k] == Moved(ptrs[o], ptr, sz) && m[k] == nodes[o];
      EncodeFits(nodes[o]);
      DelSlice(b, b', ptrs, nodes, upper, x, o);
    }
  }

  lemma DelSlice(b: seq<Byte>, b': seq<Byte>, ptrs: seq<nat>, nodes: seq<RawNode>, upper: nat, x: nat, o: nat)
    requires Stored(b, ptrs, nodes) && |b'| == |b| && x < |ptrs| && o < |ptrs| && o != x
    requires Layout(ptrs, Sizes(nodes), upper, |b|)
    requires forall q | upper + Size(nodes[x]) <= q < ptrs[x] + Size(nodes[x]) :: b'[q] == b[q - Size(nodes[x])]
    requires forall q | ptrs[x] + Size(nodes[x]) <= q < |b| :: b'[q] == b[q]
    ensures var q := Moved(ptrs[o], ptrs[x], Size(nodes[x]));
            q + Size(nodes[o]) <= |b| && q + |Encode(nodes[o])| <= |b| && b'[q..q + |Encode(nodes[o])|] == Encode(nodes[o])
  {
    hide Encode, Size;
    var s := Sizes(nodes);
    EncodeFits(nodes[o]);
    assert Placed(ptrs[o], s[o], upper, |b|) && Placed(ptrs[x], s[x], upper, |b|);
    assert Disjoint(ptrs[o], s[o], ptrs[x], s[x]);
    if ptrs[o] < ptrs[x] {
      ShiftedSlice(b, b', ptrs[o], ptrs[o] + |Encode(nodes[o])|, Size(nodes[x]));
    } else {
      SameSlice(b, b', ptrs[o], ptrs[o] + |Encode(nodes[o])|);
    }
  }

  /** Resizing node x: the nodes below it moved, it is written anew, those above stay. */
  lemma StoredKey(b: seq<Byte>, b': seq<Byte>, ptrs: seq<nat>, nodes: seq<RawNode>, upper: nat, x: nat, delta: int,
                  p: seq<nat>, n: RawNode)
    requires Stored(b, ptrs, nodes) && |b'| == |b| && x < |ptrs| && Layout(ptrs, Sizes(nodes), upper, |b|)
    requires Size(n) == Size(nodes[x]) + delta && Resized(ptrs, Sizes(nodes), x, delta, p, Sizes(nodes[x := n]))
    requires forall q | upper - delta <= q < ptrs[x] - delta :: 0 <= q + delta < |b| && 0 <= q < |b| && b'[q] == b[q + delta]
    requires forall q | ptrs[x] + Size(nodes[x]) <= q < |b| :: b'[q] == b[q]
    requires 0 <= ptrs[x] - delta && ptrs[x] - delta + |Encode(n)| <= |b|
    requires b'[ptrs[x] - delta..ptrs[x] - delta + |Encode(n)|] == Encode(n)
    ensures Stored(b', p, nodes[x := n])
  {
    hide Encode, Size;
    var s, m := Sizes(nodes), nodes[x := n];
    assert Placed(ptrs[x], s[x], upper, |b|);
    forall k | 0 <= k < |p|
      ensures p[k] + Size(m[k]) <= |b'| && p[k] + |Encode(m[k])| <= |b'| && b'[p[k]..p[k] + |Encode(m[k])|] == Encode(m[k])
    {
      EncodeFits(m[k]);
      if k != x {
        assert Placed(ptrs[k], s[k], upper, |b|) && Disjoint(ptrs[k], s[k], ptrs[x], s[x]);
        if ptrs[k] < ptrs[x] {
          ShiftedSlice(b, b', ptrs[k], ptrs[k] + |Encode(nodes[k])|, -delta);
        } else {
          SameSlice(b, b', ptrs[k], ptrs[k] + |Encode(nodes[k])|);
        }
      }
    }
  }

  // ---------------------------------------------------------------- the page

  /** memmove within the page. */
  method MemMove(a: array<Byte>, dst: nat, src: nat, len: nat)
    requires dst + len <= a.Length && src + len <= a.Length
    modifies a
    ensures forall q | dst <= q < dst + len :: a[q] == old(a[..])[q + (src - dst)]
    ensures forall q | 0 <= q < a.Length && !(dst <= q < dst + len) :: a[q] == old(a[..])[q]
  {
    ghost var w, d: int := a[..], src - dst;
    if dst <= src {
      var i := 0;
      while i < len
        invariant 0 <= i <= len
        invariant forall q | dst <= q < dst + i :: a[q] == w[q + d]
        invariant forall q | 0 <= q < a.Length && !(dst <= q < dst + i) :: a[q] == w[q]
      {
        a[dst + i] := a[src + i];
        i := i + 1;
      }
    } else {
      var i := len;
      while i > 0
        invariant 0 <= i <= len
        invariant forall q | dst + i <= q < dst + len :: a[q] == w[q + d]
        invariant forall q | 0 <= q < a.Length && !(dst + i <= q < dst + len) :: a[q] == w[q]
      {
        i := i - 1;
        a[dst + i] := a[src + i];
      }
    }
  }

  /** memcpy of bytes from elsewhere. */
  method MemCpy(a: array<Byte>, dst: nat, s: seq<Byte>)
    requires dst + |s| <= a.Length
    modifies a
    ensures a[dst..dst + |s|] == s
    ensures forall q | 0 <= q < a.Length && !(dst <= q < dst + |s|) :: a[q] == old(a[q])
  {
    var i := 0;
    while i < |s|
      invariant 0 <= i <= |s|
      invariant forall q | dst <= q < dst + i :: a[q] == s[q - dst]
      invariant forall q | 0 <= q < a.Length && !(dst <= q < dst + i) :: a[q] == old(a[q])
    {
      a[dst + i] := s[i];
      i := i + 1;
    }
  }

  /** What a node is to hold: a value, a value that is on overflow pages already, or a child page. */
  datatype Payload = Value(data: seq<Byte>) | Overflow(size: nat, ovpg: seq<Byte>) | Child(pgno: nat)

  /** What `mdb_node_add` makes of its arguments: of a value that is too large only the number of
      its overflow page, `ovpgno`, goes into the node. */
  function MakeNode(nodeMax: nat, key: seq<Byte>, p: Payload, flags: nat, ovpgno: seq<Byte>): RawNode {
    match p
    case Child(pgno) => RawNode(pgno % 0x1_0000_0000, pgno / 0x1_0000_0000 % 0x1_0000, key, [])
    case Overflow(size, ovpg) => RawNode(size, flags, key, ovpg)
    case Value(data) =>
      if NODESIZE + |key| + |data| > nodeMax then RawNode(|data|, flags + 1, key, ovpgno)
      else RawNode(|data|, flags, key, data)
  }

  /** Its header tells the node's size: it can be read back from the page. */
  lemma MakeNodeOk(nodeMax: nat, key: seq<Byte>, p: Payload, flags: nat, ovpgno: seq<Byte>)
    requires |key| < 0x1_0000 && flags + 1 < 0x1_0000 && |ovpgno| == 8
    requires p.Value? ==> |p.data| < 0x1_0000_0000 && flags % 2 == 0
    requires p.Overflow? ==> p.size < 0x1_0000_0000 && |p.ovpg| == 8 && flags % 2 == 1
    ensures NodeOk(MakeNode(nodeMax, key, p, flags, ovpgno), !p.Child?)
  {}

  /** The node takes the room that the tree counts for it. */
  lemma NodeRoom(ps: BTree.PageSize, n: BTree.Node, flags: nat, ovpgno: seq<Byte>, pgno: nat)
    requires |ovpgno| == 8
    requires n.Item? ==> (n.ov > 0 <==> NODESIZE + |n.key| + |n.data| > BTree.NodeMax(ps))
    ensures Size(MakeNode(BTree.NodeMax(ps), n.key, if n.Item? then Value(n.data) else Child(pgno), flags, ovpgno)) + 2
            == BTree.Room(n)
  {}

  /** What is left in the page is what the tree reckons with. */
  lemma {:induction false} TotalIsUsed(raw: seq<RawNode>, nodes: seq<BTree.Node>)
    requires |raw| == |nodes| && forall i | 0 <= i < |raw| :: Size(raw[i]) + 2 == BTree.Room(nodes[i])
    ensures Total(raw) + 2 * |raw| == BTree.Used(nodes)
    decreases |raw|
  {
    if raw != [] {
      TotalIsUsed(raw[1..], nodes[1..]);
    }
  }

  /** Move higher offsets up one slot. */
  method OpenSlot(ptrs: array<nat>, n: nat, indx: nat, ofs: nat)
    requires indx <= n < ptrs.Length
    modifies ptrs
    ensures ptrs[..n + 1] == InsertAt(old(ptrs[..n]), indx, ofs)
  {
    ghost var w := ptrs[..];
    var i := n;
    while i > indx
      invariant indx <= i <= n
      invariant forall q | 0 <= q < i :: ptrs[q] == w[q]
      invariant forall q | i < q <= n :: ptrs[q] == w[q - 1]
    {
      ptrs[i] := ptrs[i - 1];
      i := i - 1;
    }
    ptrs[indx] := ofs;
    Opened(w, ptrs[..], n, indx, ofs);
  }

  lemma Opened(w: seq<nat>, p: seq<nat>, n: nat, indx: nat, ofs: nat)
    requires indx <= n < |w| == |p| && p[indx] == ofs
    requires forall q | 0 <= q < indx :: p[q] == w[q]
    requires forall q | indx < q <= n :: p[q] == w[q - 1]
    ensures p[..n + 1] == InsertAt(w[..n], indx, ofs)
  {}

  class Slotted {
    const psize: nat
    const leaf: bool
    var bytes: array<Byte>
    /** mp_ptrs, mp_lower, mp_upper. */
    var ptrs: array<nat>
    var lower: nat
    var upper: nat
    /** The nodes, in index order. */
    ghost var nodes: seq<RawNode>

    ghost predicate Valid()
      reads this, bytes, ptrs
    {
      && bytes.Length == psize && psize % 2 == 0 && ptrs.Length == psize / 2
      && lower == PAGEHDRSZ + 2 * |nodes| && lower <= upper <= psize
      && (forall i | 0 <= i < |nodes| :: NodeOk(nodes[i], leaf))
      && Layout(ptrs[..|nodes|], Sizes(nodes), upper, psize)
      && Stored(bytes[..], ptrs[..|nodes|], nodes)
      && Total(nodes) == psize - upper
    }

    constructor (psize: nat, leaf: bool)
      requires psize % 2 == 0 && psize >= PAGEHDRSZ
      ensures Valid() && fresh(bytes) && fresh(ptrs) && nodes == [] && this.psize == psize && this.leaf == leaf
    {
      this.psize, this.leaf := psize, leaf;
      bytes, ptrs := new Byte[psize](_ => 0), new nat[psize / 2];
      lower, upper, nodes := PAGEHDRSZ, psize, [];
    }

    /** NUMKEYS. */
    function NumKeys(): (n: nat)
      requires Valid()
      reads this, bytes, ptrs
      ensures n == |nodes|
    {
      (lower - PAGEHDRSZ) / 2
    }

    /** SIZELEFT: what the page has left beside its nodes and their offsets. */
    function SizeLeft(): (r: nat)
      requires Valid()
      reads this, bytes, ptrs
      ensures r == psize - PAGEHDRSZ - Total(nodes) - 2 * |nodes|
    {
      upper - lower
    }

    /** `mdb_node_add`: the node becomes number `indx`; false is MDB_PAGE_FULL. */
    method NodeAdd(indx: nat, n: RawNode) returns (ok: bool)
      requires Valid() && indx <= |nodes| && NodeOk(n, leaf)
      modifies this`lower, this`upper, this`nodes, bytes, ptrs
      ensures Valid()
      ensures ok <==> Size(n) + 2 <= old(SizeLeft())
      ensures nodes == if ok then Insert(old(nodes), indx, n) else old(nodes)
    {
      hide Encode, Size, NodeOk, Layout, Stored;
      var room: int := SizeLeft() - 2;
      var nodeSize := Size(n);
      if nodeSize > room {
        return false;
      }
      SizeFacts(n);
      ghost var b0, p0 := bytes[..], ptrs[..|nodes|];
      var ofs := upper - nodeSize;
      OpenSlot(ptrs, NumKeys(), indx, ofs);
      EncodeFits(n);
      WriteNode(ofs, n);
      BelowUpper(b0, p0, nodes, upper, psize);
      StoredAdd(b0, bytes[..], p0, nodes, upper, indx, ofs, n);
      LayoutAdd(p0, Sizes(nodes), upper, psize, indx, nodeSize);
      SizesInsert(nodes, indx, n);
      TotalInsert(nodes, indx, n);
      upper, lower := ofs, lower + 2;
      nodes := Insert(nodes, indx, n);
      ok := true;
    }

    /** `mdb_node_del`. */
    method NodeDel(indx: nat)
      requires Valid() && indx < |nodes|
      modifies this`lower, this`upper, this`nodes, bytes, ptrs
      ensures Valid() && nodes == Remove(old(nodes), indx)
    {
      hide Encode, Size, NodeOk, Layout, Stored, ReadSize, Header, Total, Sizes, Shifted, RemoveAt;
      ghost var b0, p0, x := bytes[..], ptrs[..|nodes|], indx;
      var ptr := ptrs[indx];
      var sz := NodeSizeAt(indx);
      var numkeys := NumKeys();
      NodeWithin(p0, Sizes(nodes), upper, psize, x);
      CloseSlot(ptrs, numkeys, indx, sz);
      MemMove(bytes, upper + sz, upper, ptr - upper);
      assert ptrs[..numkeys - 1] == RemoveAt(Shifted(p0, p0[x], sz), x);
      StoredDel(b0, bytes[..], p0, nodes, upper, x);
      LayoutDel(p0, Sizes(nodes), upper, psize, x);
      SizesRemove(nodes, x);
      TotalRemove(nodes, x);
      lower, upper := lower - 2, upper + sz;
      nodes := Remove(nodes, x);
    }

    /** `mdb_update_key`, when the page has room: false means that the node is to be deleted and
        the page split. */
    method UpdateKey(indx: nat, key: seq<Byte>) returns (ok: bool)
      requires Valid() && !leaf && indx < |nodes| && |key| < 0x1_0000
      modifies this`upper, this`nodes, bytes, ptrs
      ensures Valid()
      ensures ok <==> Size(old(nodes[indx]).(key := key)) <= old(Size(nodes[indx])) + old(SizeLeft())
      ensures nodes == if ok then old(nodes)[indx := old(nodes)[indx].(key := key)] else old(nodes)
    {
      hide Encode, Layout, Stored, Size, U16, Total, Sizes;
      ghost var n := nodes[indx].(key := key);
      var ptr, delta := KeyGrowth(indx, key);
      if delta > 0 && SizeLeft() < delta {
        return false;
      }
      RewriteKey(bytes, ptrs, NumKeys(), nodes, upper, indx, ptr, delta, key);
      upper := upper - delta;
      nodes := nodes[indx := n];
      ok := true;
    }

    /** By how much the node grows, in even sizes of keys. */
    method KeyGrowth(indx: nat, key: seq<Byte>) returns (ptr: nat, delta: int)
      requires Valid() && !leaf && indx < |nodes|
      ensures ptr == ptrs[..|nodes|][indx] && delta == Even(|key|) as int - Even(|nodes[indx].key|) as int
      ensures Size(nodes[indx].(key := key)) == Size(nodes[indx]) + delta
      ensures upper <= ptr && ptr + NODESIZE <= psize && ptr - delta + NODESIZE + |key| <= psize
      ensures forall k | 0 <= k < |nodes| :: upper <= ptrs[..|nodes|][k]
    {
      hide Encode, Layout, Stored, Header, Size, U16, ReadU16, Total;
      ghost var p0 := ptrs[..|nodes|];
      ptr := ptrs[indx];
      NodeWithin(p0, Sizes(nodes), upper, psize, indx);
      StoredKeySize(bytes[..], p0, nodes, indx, leaf);
      var ksize: int, oksize: int := Even(|key|), Even(ReadU16(bytes[..], ptr + 6));
      delta := ksize - oksize;
      KeyDelta(nodes[indx], key, nodes[indx].(key := key));
      SizeFacts(nodes[indx]);
      BelowUpper(bytes[..], p0, nodes, upper, psize);
    }

    /** The size of a node, read from its header. */
    method NodeSizeAt(indx: nat) returns (sz: nat)
      requires Valid() && indx < |nodes|
      ensures sz == Size(nodes[indx])
    {
      hide ReadSize, Header, Layout;
      ghost var n := nodes[indx];
      var ptr := ptrs[indx];
      assert ptrs[..|nodes|][indx] == ptr;
      EncodeFits(n);
      StoredHeader(bytes[..], ptrs[..|nodes|], nodes, indx);
      HeaderSize(bytes[..], ptr, n, leaf);
      sz := Even(ReadSize(bytes[..], ptr, leaf));
    }

    /** Write the node's header, key and data. */
    method WriteNode(ofs: nat, n: RawNode)
      requires ofs + Size(n) <= bytes.Length
      modifies bytes
      ensures bytes[ofs..ofs + |Encode(n)|] == Encode(n)
      ensures forall q | 0 <= q < bytes.Length && !(ofs <= q < ofs + |Encode(n)|) :: bytes[q] == old(bytes[q])
    {
      hide Header;
      MemCpy(bytes, ofs, Header(n));
      ghost var b1 := bytes[..];
      MemCpy(bytes, ofs + NODESIZE, n.key);
      ghost var b2 := bytes[..];
      MemCpy(bytes, ofs + NODESIZE + |n.key|, n.data);
      NodeWritten(b1, b2, bytes[..], ofs, n);
    }
  }

  lemma NodeWritten(b1: seq<Byte>, b2: seq<Byte>, b3: seq<Byte>, ofs: nat, n: RawNode)
    requires |b1| == |b2| == |b3| && ofs + |Encode(n)| <= |b1|
    requires b1[ofs..ofs + NODESIZE] == Header(n)
    requires b2[ofs + NODESIZE..ofs + NODESIZE + |n.key|] == n.key
    requires forall q | 0 <= q < ofs + NODESIZE :: b2[q] == b1[q]
    requires b3[ofs + NODESIZE + |n.key|..ofs + NODESIZE + |n.key| + |n.data|] == n.data
    requires forall q | 0 <= q < ofs + NODESIZE + |n.key| :: b3[q] == b2[q]
    ensures b3[ofs..ofs + |Encode(n)|] == Encode(n)
  {
    hide Header;
    SameSlice(b1, b2, ofs, ofs + NODESIZE);
    SameSlice(b2, b3, ofs, ofs + NODESIZE);
    SameSlice(b2, b3, ofs + NODESIZE, ofs + NODESIZE + |n.key|);
    Joined(b3, ofs, ofs + NODESIZE, ofs + NODESIZE + |n.key|, ofs + |Encode(n)|);
  }

  lemma Joined(b: seq<Byte>, x: nat, y: nat, z: nat, w: nat)
    requires x <= y <= z <= w <= |b|
    ensures b[x..w] == b[x..y] + b[y..z] + b[z..w]
  {}

  lemma SizeFacts(n: RawNode)
    ensures Size(n) % 2 == 0 && NODESIZE <= Size(n)
  {}

  lemma BelowUpper(b: seq<Byte>, ptrs: seq<nat>, nodes: seq<RawNode>, upper: nat, end: nat)
    requires |ptrs| == |nodes| && Layout(ptrs, Sizes(nodes), upper, end)
    ensures upper % 2 == 0 && forall k | 0 <= k < |ptrs| :: upper <= ptrs[k]
  {
    forall k | 0 <= k < |ptrs| ensures upper <= ptrs[k] {
      assert Placed(ptrs[k], Sizes(nodes)[k], upper, end);
    }
  }

  lemma SizesInsert(nodes: seq<RawNode>, i: nat, n: RawNode)
    requires i <= |nodes|
    ensures Sizes(Insert(nodes, i, n)) == InsertAt(Sizes(nodes), i, Size(n))
  {
    hide Size;
  }

  lemma StoredHeader(b: seq<Byte>, ptrs: seq<nat>, nodes: seq<RawNode>, i: nat)
    requires Stored(b, ptrs, nodes) && i < |ptrs|
    ensures ptrs[i] + NODESIZE <= |b| && b[ptrs[i]..ptrs[i] + NODESIZE] == Header(nodes[i])
  {
    hide Header;
    var p, n := ptrs[i], nodes[i];
    assert b[p..p + |Encode(n)|] == Encode(n);
    assert b[p..p + NODESIZE] == b[p..p + |Encode(n)|][..NODESIZE];
    assert Encode(n)[..NODESIZE] == Header(n);
  }

  lemma NodeWithin(ptrs: seq<nat>, sizes: seq<nat>, upper: nat, end: nat, i: nat)
    requires Layout(ptrs, sizes, upper, end) && i < |ptrs|
    ensures upper <= ptrs[i] && ptrs[i] + sizes[i] <= end
  {
    assert Placed(ptrs[i], sizes[i], upper, end);
  }

  /** Close the gap in the offsets; those below the node's offset move up with their nodes. */
  method CloseSlot(ptrs: array<nat>, numkeys: nat, indx: nat, sz: nat)
    requires indx < numkeys <= ptrs.Length
    modifies ptrs
    ensures ptrs[..numkeys - 1] == old(RemoveAt(Shifted(ptrs[..numkeys], ptrs[indx], sz), indx))
  {
    ghost var w := ptrs[..];
    var ptr := ptrs[indx];
    var i, j := 0, 0;
    while i < numkeys
      invariant 0 <= i <= numkeys && j == if i <= indx then i else i - 1
      invariant forall q | i <= q < numkeys :: ptrs[q] == w[q]
      invariant forall q | 0 <= q < j :: ptrs[q] == Moved(w[if q < indx then q else q + 1], ptr, sz)
    {
      if i != indx {
        ptrs[j] := ptrs[i];
        if ptrs[i] < ptr {
          ptrs[j] := ptrs[j] + sz;
        }
        j := j + 1;
      }
      i := i + 1;
    }
    Closed(w, ptrs[..], numkeys, indx, sz);
  }

  lemma Closed(w: seq<nat>, p: seq<nat>, n: nat, indx: nat, sz: nat)
    requires indx < n <= |w| == |p|
    requires forall q | 0 <= q < n - 1 :: p[q] == Moved(w[if q < indx then q else q + 1], w[indx], sz)
    ensures p[..n - 1] == RemoveAt(Shifted(w[..n], w[indx], sz), indx)
  {
    var r := RemoveAt(Shifted(w[..n], w[indx], sz), indx);
    forall q | 0 <= q < n - 1 ensures p[q] == r[q] {
      assert r[q] == Shifted(w[..n], w[indx], sz)[if q < indx then q else q + 1];
    }
  }

  lemma SizesRemove(nodes: seq<RawNode>, i: nat)
    requires i < |nodes|
    ensures Sizes(Remove(nodes, i)) == RemoveAt(Sizes(nodes), i)
  {
    hide Size;
  }

  lemma StoredKeySize(b: seq<Byte>, ptrs: seq<nat>, nodes: seq<RawNode>, i: nat, leaf: bool)
    requires Stored(b, ptrs, nodes) && i < |ptrs| && NodeOk(nodes[i], leaf)
    ensures ptrs[i] + 7 < |b| && ReadU16(b, ptrs[i] + 6) == |nodes[i].key|
  {
    hide Encode, ReadU16, U16, Header;
    StoredHeader(b, ptrs, nodes, i);
    HeaderFields(b, ptrs[i], nodes[i]);
    FieldRead(b, ptrs[i] + 6, |nodes[i].key|);
  }

  /** The node and all below it move down. */
  method LowerSlots(ptrs: array<nat>, numkeys: nat, ptr: nat, delta: int)
    requires numkeys <= ptrs.Length && forall q | 0 <= q < numkeys :: ptrs[q] - delta >= 0
    modifies ptrs
    ensures forall q | 0 <= q < numkeys :: ptrs[q] == Lowered(old(ptrs[q]), ptr, delta)
    ensures forall q | numkeys <= q < ptrs.Length :: ptrs[q] == old(ptrs[q])
  {
    var i := 0;
    while i < numkeys
      invariant 0 <= i <= numkeys
      invariant forall q | 0 <= q < i :: ptrs[q] == Lowered(old(ptrs[q]), ptr, delta)
      invariant forall q | i <= q < ptrs.Length :: ptrs[q] == old(ptrs[q])
    {
      if ptrs[i] <= ptr {
        ptrs[i] := ptrs[i] - delta;
      }
      i := i + 1;
    }
  }

  lemma Resizes(p0: seq<nat>, p1: seq<nat>, nodes: seq<RawNode>, x: nat, n: RawNode, delta: int)
    requires |p0| == |p1| == |nodes| && x < |nodes| && Size(n) == Size(nodes[x]) + delta
    requires forall q | 0 <= q < |p0| :: p1[q] == Lowered(p0[q], p0[x], delta)
    ensures Resized(p0, Sizes(nodes), x, delta, p1, Sizes(nodes[x := n]))
  {
    hide Size;
  }

  lemma KeyDelta(n0: RawNode, key: seq<Byte>, n: RawNode)
    requires n == n0.(key := key) && n0.data == []
    ensures Size(n) == Size(n0) + (Even(|key|) as int - Even(|n0.key|) as int) && Size(n) >= NODESIZE + |key|
    ensures (Even(|key|) as int - Even(|n0.key|) as int) % 2 == 0
  {}

  /** The page after the node was moved and its key written. */
  lemma KeyDone(b0: seq<Byte>, b1: seq<Byte>, b2: seq<Byte>, p0: seq<nat>, p1: seq<nat>, nodes: seq<RawNode>, upper: nat,
                x: nat, delta: int, key: seq<Byte>)
    requires Stored(b0, p0, nodes) && x < |p0| == |p1| == |nodes| && |b0| == |b1| == |b2| && Layout(p0, Sizes(nodes), upper, |b0|)
    requires nodes[x].data == [] && delta == Even(|key|) as int - Even(|nodes[x].key|) as int && delta <= upper
    requires forall q | 0 <= q < |p0| :: p1[q] == Lowered(p0[q], p0[x], delta)
    requires forall q | upper - delta <= q < p0[x] + NODESIZE - delta :: 0 <= q < |b1| && 0 <= q + delta < |b0| && b1[q] == b0[q + delta]
    requires forall q | 0 <= q < |b0| && !(upper - delta <= q < p0[x] + NODESIZE - delta) :: b1[q] == b0[q]
    requires forall q | 0 <= q < |b1| && !(p0[x] - delta + 6 <= q < p0[x] - delta + NODESIZE + |key|) :: b2[q] == b1[q]
    requires 0 <= p0[x] - delta && p0[x] - delta + NODESIZE + |key| <= |b2|
    requires b2[p0[x] - delta + 6..p0[x] - delta + 8] == U16(|key|)
    requires b2[p0[x] - delta + NODESIZE..p0[x] - delta + NODESIZE + |key|] == key
    ensures var n := nodes[x].(key := key);
            && Stored(b2, p1, nodes[x := n]) && Layout(p1, Sizes(nodes[x := n]), upper - delta, |b2|)
            && Total(nodes[x := n]) == Total(nodes) + delta
  {
    hide Encode, Layout, Stored, Header, Size, U16, Total, Sizes, Resized;
    var ptr, n0, n := p0[x], nodes[x], nodes[x].(key := key);
    SizesOf(nodes, x);
    NodeWithin(p0, Sizes(nodes), upper, |b0|, x);
    KeyDelta(n0, key, n);
    Resizes(p0, p1, nodes, x, n, delta);
    StoredHeader(b0, p0, nodes, x);
    KeyWritten(b0, b1, b2, ptr, delta, n0, key);
    SizeFacts(n0);
    SizeFacts(n);
    KeyAbove(b0, b1, b2, upper, ptr, delta, Size(n0), key);
    StoredKey(b0, b2, p0, nodes, upper, x, delta, p1, n);
    LayoutKey(p0, Sizes(nodes), upper, |b0|, x, delta, p1, Sizes(nodes[x := n]));
    TotalUpdate(nodes, x, n);
  }

  lemma SizesOf(nodes: seq<RawNode>, x: nat)
    requires x < |nodes|
    ensures |Sizes(nodes)| == |nodes| && Sizes(nodes)[x] == Size(nodes[x])
  {}

  /** Shift node contents if EVEN(key length) changed: the node's header and all nodes below it. */
  method MoveForKey(bytes: array<Byte>, ptrs: array<nat>, numkeys: nat, upper: nat, ptr: nat, delta: int)
    requires numkeys <= ptrs.Length && upper <= ptr && ptr + NODESIZE <= bytes.Length
    requires delta <= upper && ptr + NODESIZE - delta <= bytes.Length
    requires forall q | 0 <= q < numkeys :: ptrs[q] >= upper
    modifies bytes, ptrs
    ensures forall q | 0 <= q < numkeys :: ptrs[..numkeys][q] == Lowered(old(ptrs[..numkeys])[q], ptr, delta)
    ensures forall q | upper - delta <= q < ptr + NODESIZE - delta :: bytes[q] == old(bytes[..])[q + delta]
    ensures forall q | 0 <= q < bytes.Length && !(upper - delta <= q < ptr + NODESIZE - delta) :: bytes[q] == old(bytes[..])[q]
  {
    if delta != 0 {
      LowerSlots(ptrs, numkeys, ptr, delta);
      MemMove(bytes, upper - delta, upper, ptr - upper + NODESIZE);
    }
  }

  /** Move the node at ptr and write its new key. */
  method RewriteKey(bytes: array<Byte>, ptrs: array<nat>, numkeys: nat, ghost nodes: seq<RawNode>, upper: nat, ghost x: nat,
                    ptr: nat, delta: int, key: seq<Byte>)
    requires numkeys == |nodes| <= ptrs.Length && x < numkeys && ptr == ptrs[x] && nodes[x].data == []
    requires Stored(bytes[..], ptrs[..numkeys], nodes) && Layout(ptrs[..numkeys], Sizes(nodes), upper, bytes.Length)
    requires delta == Even(|key|) as int - Even(|nodes[x].key|) as int && delta <= upper
    requires upper <= ptr && ptr + NODESIZE <= bytes.Length && ptr - delta + NODESIZE + |key| <= bytes.Length
    requires forall k | 0 <= k < numkeys :: upper <= ptrs[..numkeys][k]
    modifies bytes, ptrs
    ensures var m := nodes[x := nodes[x].(key := key)];
            && Stored(bytes[..], ptrs[..numkeys], m) && Layout(ptrs[..numkeys], Sizes(m), upper - delta, bytes.Length)
            && Total(m) == Total(nodes) + delta
  {
    hide *;
    ghost var b0, p0 := bytes[..], ptrs[..numkeys];
    assert forall k | 0 <= k < numkeys :: ptrs[k] == p0[k];
    MoveForKey(bytes, ptrs, numkeys, upper, ptr, delta);
    ghost var b1 := bytes[..];
    PutKey(bytes, ptr - delta, key);
    KeyDone(b0, b1, bytes[..], p0, ptrs[..numkeys], nodes, upper, x, delta, key);
  }

  /** Write the key size into the header at p, and the key after it. */
  method PutKey(bytes: array<Byte>, p: nat, key: seq<Byte>)
    requires p + NODESIZE + |key| <= bytes.Length
    modifies bytes
    ensures bytes[p + 6..p + 8] == U16(|key|)
    ensures bytes[p + NODESIZE..p + NODESIZE + |key|] == key
    ensures forall q | 0 <= q < bytes.Length && !(p + 6 <= q < p + NODESIZE + |key|) :: bytes[q] == old(bytes[..])[q]
  {
    hide U16;
    MemCpy(bytes, p + 6, U16(|key|));
    ghost var b := bytes[..];
    MemCpy(bytes, p + NODESIZE, key);
    SameSlice(b, bytes[..], p + 6, p + 8);
    assert bytes[p + 6..p + 8] == bytes[..][p + 6..p + 8];
  }

  /** What is below and above the resized node. */
  lemma KeyAbove(b0: seq<Byte>, b1: seq<Byte>, b2: seq<Byte>, upper: nat, ptr: nat, delta: int, sz: nat, key: seq<Byte>)
    requires |b0| == |b1| == |b2| && upper <= ptr && delta <= upper && ptr + sz <= |b0|
    requires NODESIZE + |key| <= sz + delta && NODESIZE <= sz + delta
    requires forall q | upper - delta <= q < ptr + NODESIZE - delta :: 0 <= q + delta < |b0| && 0 <= q < |b1| && b1[q] == b0[q + delta]
    requires forall q | 0 <= q < |b0| && !(upper - delta <= q < ptr + NODESIZE - delta) :: b1[q] == b0[q]
    requires forall q | 0 <= q < |b1| && !(ptr - delta + 6 <= q < ptr - delta + NODESIZE + |key|) :: b2[q] == b1[q]
    ensures forall q | upper - delta <= q < ptr - delta :: 0 <= q + delta < |b0| && 0 <= q < |b2| && b2[q] == b0[q + delta]
    ensures forall q | ptr + sz <= q < |b0| :: b2[q] == b0[q]
  {}

  /** The header moved with the node; then its key size, and the key, were written. */
  lemma KeyWritten(b0: seq<Byte>, b1: seq<Byte>, b2: seq<Byte>, ptr: nat, delta: int, n0: RawNode, key: seq<Byte>)
    requires |b0| == |b1| == |b2| && ptr + NODESIZE <= |b0| && n0.data == []
    requires 0 <= ptr - delta && ptr - delta + NODESIZE + |key| <= |b0|
    requires b0[ptr..ptr + NODESIZE] == Header(n0)
    requires forall q | ptr - delta <= q < ptr - delta + NODESIZE :: b1[q] == b0[q + delta]
    requires forall q | ptr - delta <= q < ptr - delta + 6 :: b2[q] == b1[q]
    requires b2[ptr - delta + 6..ptr - delta + 8] == U16(|key|)
    requires b2[ptr - delta + NODESIZE..ptr - delta + NODESIZE + |key|] == key
    ensures ptr - delta + |Encode(n0.(key := key))| <= |b2|
    ensures b2[ptr - delta..ptr - delta + |Encode(n0.(key := key))|] == Encode(n0.(key := key))
  {
    hide U16;
    var p, n := ptr - delta, n0.(key := key);
    assert b0[ptr..ptr + 6] == Header(n0)[..6] by {
      assert b0[ptr..ptr + 6] == b0[ptr..ptr + NODESIZE][..6];
    }
    ShiftedSlice(b0, b1, ptr, ptr + 6, -delta);
    SameSlice(b1, b2, p, p + 6);
    assert Header(n) == Header(n0)[..6] + U16(|key|);
    Joined(b2, p, p + 6, p + 8, p + 8 + |key|);
    assert Encode(n) == Header(n0)[..6] + U16(|key|) + key;
  }
}
