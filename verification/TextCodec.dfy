/** How mdb_dump writes keys and values and what mdb_load takes them for (mdb_dump.c, mdb_load.c): in
    hexadecimal, or with printable bytes as they are and the others escaped. */
module TextCodec {
  import opened Options
  import opened Seqs

  type Octet = bv8
  type Text = seq<Octet>

  const NUL: Octet := 0
  const NL: Octet := 0x0a
  const SPACE: Octet := 0x20
  const BACKSLASH: Octet := 0x5c

  // ---------------------------------------------------------------- digits

  /** The table of digits, 0 to 9 and a to f. */
  function HexDigit(d: Octet): Octet
    requires d < 16
  {
    if d < 10 then 0x30 + d else 0x57 + d
  }

  function Hex(c: Octet): (r: Text)
    ensures |r| == 2
  {
    [HexDigit(c >> 4), HexDigit(c & 0xf)]
  }

  predicate IsXDigit(c: Octet) {
    0x30 <= c <= 0x39 || 0x41 <= c <= 0x46 || 0x61 <= c <= 0x66
  }

  /** One digit: digits have bit 0x40 clear; bit 0x20, which tells upper from lower case, is dropped. */
  function Nibble(c: Octet): Octet {
    var x := c & 0x4f;
    if x & 0x40 != 0 then x - 55 else x
  }

  /** `unhex`. */
  function Unhex(hi: Octet, lo: Octet): Octet {
    (Nibble(hi) << 4) | Nibble(lo)
  }

  lemma NibbleOfDigit(d: Octet)
    requires d < 16
    ensures IsXDigit(HexDigit(d)) && Nibble(HexDigit(d)) == d
    ensures HexDigit(d) != NL && HexDigit(d) != NUL && HexDigit(d) != BACKSLASH
  {}

  lemma Halves(c: Octet)
    ensures c >> 4 < 16 && c & 0xf < 16 && ((c >> 4) << 4) | (c & 0xf) == c
  {}

  /** Every byte is read back from its two digits. */
  lemma UnhexHex(c: Octet)
    ensures IsXDigit(Hex(c)[0]) && IsXDigit(Hex(c)[1]) && Unhex(Hex(c)[0], Hex(c)[1]) == c
    ensures forall i | 0 <= i < 2 :: Hex(c)[i] != NL && Hex(c)[i] != NUL && Hex(c)[i] != BACKSLASH
  {
    Halves(c);
    NibbleOfDigit(c >> 4);
    NibbleOfDigit(c & 0xf);
  }

  /** Digits of either case stand for their value. */
  lemma NibbleIsValue(c: Octet)
    requires IsXDigit(c)
    ensures Nibble(c) < 16
    ensures HexDigit(Nibble(c)) == (if 0x41 <= c <= 0x46 then c + 0x20 else c)
  {}

  // ---------------------------------------------------------------- writing

  function Escaped(c: Octet, printable: Octet -> bool): Text {
    if printable(c) then
      if c == BACKSLASH then [BACKSLASH, BACKSLASH] else [c]
    else
      [BACKSLASH] + Hex(c)
  }

  function EscapedAll(v: Text, printable: Octet -> bool): Text {
    if v == [] then [] else Escaped(v[0], printable) + EscapedAll(v[1..], printable)
  }

  function HexAll(v: Text): Text {
    if v == [] then [] else Hex(v[0]) + HexAll(v[1..])
  }

  /** A line of the dump. */
  function LineOf(v: Text, text: bool, printable: Octet -> bool): Text {
    [SPACE] + (if text then EscapedAll(v, printable) else HexAll(v)) + [NL]
  }

  /** `text`. */
  method PutText(v: Text, printable: Octet -> bool) returns (out: Text)
    ensures out == LineOf(v, true, printable)
  {
    out := [SPACE];
    var i := 0;
    while i < |v|
      invariant 0 <= i <= |v|
      invariant out + EscapedAll(v[i..], printable) == [SPACE] + EscapedAll(v, printable)
    {
      ghost var was := out;
      if printable(v[i]) {
        if v[i] == BACKSLASH {
          out := out + [BACKSLASH];
        }
        out := out + [v[i]];
      } else {
        out := out + [BACKSLASH];
        out := out + Hex(v[i]);
      }
      assert out == was + Escaped(v[i], printable);
      Assoc(was, Escaped(v[i], printable), EscapedAll(v[i + 1..], printable));
      i := i + 1;
    }
    assert v[i..] == [];
    out := out + [NL];
  }

  /** `byte`. */
  method PutBytes(v: Text, ghost printable: Octet -> bool) returns (out: Text)
    ensures out == LineOf(v, false, printable)
  {
    out := [SPACE];
    var i := 0;
    while i < |v|
      invariant 0 <= i <= |v|
      invariant out + HexAll(v[i..]) == [SPACE] + HexAll(v)
    {
      Assoc(out, Hex(v[i]), HexAll(v[i + 1..]));
      out := out + Hex(v[i]);
      i := i + 1;
    }
    assert v[i..] == [];
    out := out + [NL];
  }

  // ---------------------------------------------------------------- what a line is taken for

  function Prepend(c: Octet, r: Option<Text>): Option<Text> {
    if r.Some? then Some([c] + r.value) else None
  }

  /** A line in printable form, without its newline. */
  function FromText(s: Text): Option<Text> {
    if s == [] then Some([])
    else if s[0] != BACKSLASH then Prepend(s[0], FromText(s[1..]))
    else if |s| > 1 && s[1] == BACKSLASH then Prepend(BACKSLASH, FromText(s[2..]))
    else if |s| < 3 || !IsXDigit(s[1]) || !IsXDigit(s[2]) then None
    else Prepend(Unhex(s[1], s[2]), FromText(s[3..]))
  }

  /** A line in hexadecimal. */
  function FromHex(s: Text): Option<Text> {
    if s == [] then Some([])
    else if |s| < 2 || !IsXDigit(s[0]) || !IsXDigit(s[1]) then None
    else Prepend(Unhex(s[0], s[1]), FromHex(s[2..]))
  }

  function Decoded(s: Text, text: bool): Option<Text> {
    if text then FromText(s) else FromHex(s)
  }

  lemma EscapedValue(c: Octet, printable: Octet -> bool)
    ensures Value(Escaped(c, printable)) == Some(c)
  {
    UnhexHex(c);
    hide Unhex, IsXDigit, Hex;
    var h := Hex(c);
    assert [BACKSLASH] + h == [BACKSLASH, h[0], h[1]];
  }

  lemma {:induction false} TextRoundTrip(v: Text, printable: Octet -> bool)
    ensures FromText(EscapedAll(v, printable)) == Some(v)
    decreases |v|
  {
    if v != [] {
      TextRoundTrip(v[1..], printable);
      hide FromText, Value, Escaped;
      EscapedValue(v[0], printable);
      OnePiece(Escaped(v[0], printable), EscapedAll(v[1..], printable));
      HeadTail(v);
    }
  }

  lemma {:induction false} HexRoundTrip(v: Text)
    ensures FromHex(HexAll(v)) == Some(v)
    decreases |v|
  {
    if v != [] {
      var s := HexAll(v);
      HexRoundTrip(v[1..]);
      HeadTail(v);
      UnhexHex(v[0]);
      assert s[2..] == HexAll(v[1..]);
    }
  }

  /** Reading back what was written returns the bytes. */
  lemma RoundTrip(v: Text, text: bool, printable: Octet -> bool)
    ensures Decoded(if text then EscapedAll(v, printable) else HexAll(v), text) == Some(v)
  {
    if text { TextRoundTrip(v, printable); } else { HexRoundTrip(v); }
  }

  ghost predicate Plain(s: Text) {
    NL !in s && NUL !in s
  }

  /** A line has no newline before its end, and no NUL, if these are not printable. */
  lemma {:induction false} LineIsPlain(v: Text, text: bool, printable: Octet -> bool)
    requires !printable(NL) && !printable(NUL)
    ensures Plain(if text then EscapedAll(v, printable) else HexAll(v))
    decreases |v|
  {
    if v != [] {
      LineIsPlain(v[1..], text, printable);
      UnhexHex(v[0]);
    }
  }

  // ---------------------------------------------------------------- exactly what is accepted

  predicate AllDigits(s: Text) {
    forall i | 0 <= i < |s| :: IsXDigit(s[i])
  }

  /** Digits only, two for each byte. */
  lemma {:induction false} HexExactly(s: Text)
    ensures FromHex(s).Some? <==> |s| % 2 == 0 && AllDigits(s)
    decreases |s|
  {
    if |s| >= 2 {
      HexExactly(s[2..]);
      hide *;
      HexUnfolds(s);
      TwoDigits(s);
    }
  }

  lemma HexUnfolds(s: Text)
    requires |s| >= 2
    ensures FromHex(s).Some? <==> IsXDigit(s[0]) && IsXDigit(s[1]) && FromHex(s[2..]).Some?
  {}

  lemma TwoDigits(s: Text)
    requires |s| >= 2
    ensures AllDigits(s) <==> IsXDigit(s[0]) && IsXDigit(s[1]) && AllDigits(s[2..])
  {
    hide IsXDigit;
    assert forall i | 2 <= i < |s| :: s[i] == s[2..][i - 2];
  }

  /** The byte that a piece of a line stands for: a character that is no backslash, two backslashes, or a backslash and
      two digits. */
  function Value(piece: Text): Option<Octet> {
    if |piece| == 1 && piece[0] != BACKSLASH then Some(piece[0])
    else if piece == [BACKSLASH, BACKSLASH] then Some(BACKSLASH)
    else if |piece| == 3 && piece[0] == BACKSLASH && IsXDigit(piece[1]) && IsXDigit(piece[2]) then Some(Unhex(piece[1], piece[2]))
    else None
  }

  function Concat(pieces: seq<Text>): Text {
    if pieces == [] then [] else pieces[0] + Concat(pieces[1..])
  }

  ghost predicate Spells(pieces: seq<Text>, s: Text, v: Text) {
    Concat(pieces) == s && |pieces| == |v| && forall i | 0 <= i < |v| :: Value(pieces[i]) == Some(v[i])
  }

  lemma OnePiece(piece: Text, rest: Text)
    requires Value(piece).Some?
    ensures FromText(piece + rest) == Prepend(Value(piece).value, FromText(rest))
  {
    var s := piece + rest;
    assert s[|piece|..] == rest;
  }

  lemma {:induction false} PiecesRead(pieces: seq<Text>, s: Text, v: Text)
    requires Spells(pieces, s, v)
    ensures FromText(s) == Some(v)
    decreases |pieces|
  {
    if pieces != [] {
      PiecesRead(pieces[1..], Concat(pieces[1..]), v[1..]);
      OnePiece(pieces[0], Concat(pieces[1..]));
      HeadTail(v);
    }
  }

  lemma {:induction false} PiecesOf(s: Text) returns (pieces: seq<Text>)
    requires FromText(s).Some?
    ensures Spells(pieces, s, FromText(s).value)
    decreases |s|
  {
    pieces := [];
    if s != [] {
      var n := if s[0] != BACKSLASH then 1 else if |s| > 1 && s[1] == BACKSLASH then 2 else 3;
      var piece, v := s[..n], FromText(s).value;
      assert s == piece + s[n..];
      OnePiece(piece, s[n..]);
      var rest := PiecesOf(s[n..]);
      pieces := [piece] + rest;
      assert pieces[1..] == rest;
      assert v == [Value(piece).value] + FromText(s[n..]).value;
    }
  }

  /** A line in printable form is accepted exactly when it is made of such pieces, and then it stands for their bytes. */
  lemma TextExactly(s: Text, v: Text)
    ensures FromText(s) == Some(v) <==> exists pieces :: Spells(pieces, s, v)
  {
    hide Spells;
    if FromText(s) == Some(v) {
      var pieces := PiecesOf(s);
    }
    forall pieces | Spells(pieces, s, v) ensures FromText(s) == Some(v) { PiecesRead(pieces, s, v); }
  }
}
