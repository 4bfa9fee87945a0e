/** Reading a dump line by line, into a buffer that doubles until the line fits and in which the line
    is then decoded in place (readline, mdb_load.c). */
module LoadLines {
  import opened Options
  import opened Seqs
  import opened TextCodec

  /** What a call finds: a key or a value, the end of the data, an input that is malformed or ends in the
      middle of a line, or nothing at all. The last two set `Eof`. */
  datatype Line = Data(bytes: Text) | DataEnd | Broken | AtEof

  const ATA_END: Text := [0x41, 0x54, 0x41, 0x3d, 0x45, 0x4e, 0x44]
  const LETTER_D: Octet := 0x44

  // ---------------------------------------------------------------- what a call is to find

  /** Up to the first newline, that included; all of it if there is none. */
  function FirstLine(s: Text): (r: Text)
    ensures r <= s
  {
    if s == [] then []
    else if s[0] == NL then [NL]
    else
      HeadTail(s);
      [s[0]] + FirstLine(s[1..])
  }

  function EndsLine(s: Text): bool {
    s != [] && s[|s| - 1] == NL
  }

  /** The line at the start of s, decoded, and what is left of the input. */
  function Found(s: Text, text: bool): (Line, Text) {
    var line := FirstLine(s);
    if line == [] then (AtEof, s)
    else if !EndsLine(line) then (Broken, [])
    else
      var d := Decoded(line[..|line| - 1], text);
      (if d.Some? then Data(d.value) else Broken, s[|line|..])
  }

  /** What a call finds: with a header, data lines start with a space. */
  function NextLine(s: Text, text: bool, noHeader: bool): (Line, Text) {
    if noHeader then Found(s, text)
    else if s == [] then (AtEof, s)
    else if s[0] == SPACE then Found(s[1..], text)
    else (if s[0] == LETTER_D && ATA_END <= s[1..] then DataEnd else Broken, s[1..][|FirstLine(s[1..])|..])
  }

  lemma {:induction false} FirstLineIs(a: Text, b: Text)
    requires NL !in a
    ensures FirstLine(a + [NL] + b) == a + [NL]
    decreases |a|
  {
    if a != [] {
      var s := a + [NL] + b;
      assert s[1..] == a[1..] + [NL] + b;
      FirstLineIs(a[1..], b);
    }
  }

  lemma {:induction false} FirstLineWhole(s: Text)
    requires NL !in s
    ensures FirstLine(s) == s
    decreases |s|
  {
    if s != [] { FirstLineWhole(s[1..]); }
  }

  /** Either a newline ends the first line, or there is none in the input. */
  lemma {:induction false} FirstLineCases(s: Text)
    ensures if NL in s then EndsLine(FirstLine(s)) && NL !in FirstLine(s)[..|FirstLine(s)| - 1] else FirstLine(s) == s
    decreases |s|
  {
    if s != [] && s[0] != NL {
      var t := s[1..];
      FirstLineCases(t);
      HeadTail(s);
      var r := FirstLine(t);
      assert FirstLine(s) == [s[0]] + r;
      if NL in t {
        assert ([s[0]] + r)[..|r|] == [s[0]] + r[..|r| - 1];
      }
    }
  }

  /** stdin. */
  class Input {
    var rest: Text

    constructor (s: Text)
      ensures rest == s
    {
      rest := s;
    }
  }

  /** The characters a call of fgets takes that has room for n of them. */
  ghost predicate Taken(s: Text, n: nat, got: Text) {
    && got <= FirstLine(s) && |got| <= n
    && (|got| == n || got == FirstLine(s))
  }

  class Reader {
    const input: Input
    /** buf->mv_data and buf->mv_size; more may be allocated than the size says. */
    var data: array<Octet>
    var size: nat
    var eof: bool

    ghost predicate Valid()
      reads this
    {
      size <= data.Length && size >= 8
    }

    constructor (input: Input, size: nat)
      requires size >= 8
      ensures Valid() && this.input == input && !eof && fresh(data)
    {
      this.input, this.size, eof := input, size, false;
      data := new Octet[size](_ => 0);
    }

    /** `fgets` to a place in the buffer. */
    method Fgets(off: nat, n: nat) returns (got: nat)
      requires off + n <= data.Length && n > 1
      modifies input, data
      ensures var s := old(input.rest); got <= |s| && Taken(s, n - 1, s[..got]) && input.rest == s[got..]
      ensures got < n && data[off..off + got] == old(input.rest)[..got]
      ensures got > 0 ==> data[off + got] == NUL
      ensures forall q | 0 <= q < off :: data[q] == old(data[q])
    {
      hide FirstLine;
      ghost var s := input.rest;
      ghost var line := FirstLine(s);
      got := 0;
      var more := true;
      while got < n - 1 && input.rest != [] && more
        invariant 0 <= got <= n - 1 && got <= |line| && input.rest == s[got..]
        invariant more == !(got > 0 && s[got - 1] == NL)
        invariant data[off..off + got] == s[..got]
        invariant forall q | 0 <= q < off :: data[q] == old(data[q])
        invariant more ==> NL !in s[..got]
      {
        LineGoesOn(s, got);
        TakeSnoc(s, got);
        ghost var before := data[off..off + got];
        data[off + got] := input.rest[0];
        assert data[off..off + got] == before;
        assert data[off..off + got + 1] == before + [s[got]];
        more := input.rest[0] != NL;
        input.rest := input.rest[1..];
        got := got + 1;
      }
      if input.rest == [] || !more {
        LineStops(s, got);
      }
      if got > 0 {
        ghost var before := data[off..off + got];
        data[off + got] := NUL;
        assert data[off..off + got] == before;
      }
    }

    /** `strlen`. */
    method StrLen(off: nat, ghost got: nat) returns (len: nat)
      requires off + got < data.Length && data[off + got] == NUL && NUL !in data[off..off + got]
      ensures len == got
    {
      len := 0;
      ghost var text := data[off..off + got];
      while data[off + len] != NUL
        invariant 0 <= len <= got
        invariant len < got ==> data[off + len] == text[len] && text[len] in text
        decreases got - len
      {
        len := len + 1;
      }
    }

    /** The buffer with twice the size; what was read stays. */
    method Double(used: nat)
      requires Valid() && used < size
      modifies this
      ensures size == old(size) && data.Length == 2 * size && fresh(data) && eof == old(eof)
      ensures data[..used] == old(data[..used])
    {
      var was := data;
      data := new Octet[2 * size](_ => 0);
      var k := 0;
      while k < used
        invariant 0 <= k <= used < was.Length && was != data && fresh(data) && data.Length == 2 * size
        invariant was == old(data) && was[..] == old(data[..]) && size == old(size) && eof == old(eof)
        invariant data[..k] == was[..k]
      {
        data[k] := was[k];
        k := k + 1;
      }
    }

    /** The next piece of a line that filled the buffer. */
    method Grow(ghost s: Text, len: nat) returns (n: nat)
      requires Valid() && NUL !in s && 0 < len < size && len <= |s| && s[len - 1] != NL
      requires data[..len] == s[..len] && input.rest == s[len..] && Taken(s, size - 1, s[..len])
      modifies this, data, input
      ensures Valid() && fresh(data) && eof == old(eof)
      ensures n == 0 ==> input.rest == [] && !EndsLine(FirstLine(s))
      ensures n > 0 ==> len + n < size && len + n <= |s| && data[..len + n] == s[..len + n] && input.rest == s[len + n..]
      ensures n > 0 ==> Taken(s, size - 1, s[..len + n])
    {
      hide FirstLine, EndsLine, Taken;
      ghost var rest := input.rest;
      NoNewline(s, len, size - 1);
      Double(len);
      var got := Fgets(len, size + 1);
      NextTaken(s, size - 1, size, len, got);
      n := 0;
      if got == 0 {
        return;
      }
      size := size * 2;
      PiecesJoin(s, len, got);
      NoneMissing(s, len);
      NoneMissing(rest, got);
      assert data[..len + got] == data[..len] + data[len..len + got];
      n := StrLen(len, got);
    }

    /** A whole line, newline included, in as many pieces as it takes. */
    method ReadWhole() returns (any: bool, ok: bool, len: nat)
      requires Valid() && NUL !in input.rest
      modifies this, data, input
      ensures Valid() && (data == old(data) || fresh(data)) && eof == old(eof)
      ensures var line := FirstLine(old(input.rest));
              && any == (line != []) && (any ==> ok == EndsLine(line))
              && (any && ok ==> len == |line| < data.Length && data[..len] == line && input.rest == old(input.rest)[len..])
              && (!any ==> input.rest == []) && (any && !ok ==> input.rest == [])
    {
      hide FirstLine, EndsLine, Taken;
      ghost var s := input.rest;
      var got := Fgets(0, size);
      any, ok, len := got > 0, false, 0;
      FirstTaken(s, size - 1, got);
      NoneMissing(s, got);
      if !any {
        return;
      }
      len := StrLen(0, got);
      while data[len - 1] != NL
        invariant Valid() && (data == old(data) || fresh(data)) && eof == old(eof)
        invariant 0 < len < size && len <= |s|
        invariant data[..len] == s[..len] && input.rest == s[len..] && Taken(s, size - 1, s[..len])
        decreases |input.rest|
      {
        assert data[..len][len - 1] == s[..len][len - 1];
        var n := Grow(s, len);
        if n == 0 {
          return;
        }
        len := len + n;
      }
      assert data[..len][len - 1] == s[..len][len - 1];
      WholeLine(s, size - 1, len);
      ok := true;
    }

    /** The line in the buffer, decoded where it is: what is written never passes what is still to be
        read. The length of the result, or nothing if the line is malformed. */
    method Decode(len: nat, text: bool, ghost line: Text) returns (ok: bool, n: nat)
      requires len < data.Length && data[..len] == line && data[len] == NUL
      modifies data
      ensures ok == Decoded(line, text).Some?
      ensures ok ==> n <= len && data[..n] == Decoded(line, text).value
    {
      if text {
        ok, n := DecodeText(len, line);
      } else {
        ok, n := DecodeHex(len, line);
      }
    }

    method DecodeText(len: nat, ghost line: Text) returns (ok: bool, c1: nat)
      requires len < data.Length && data[..len] == line && data[len] == NUL
      modifies data
      ensures ok == FromText(line).Some?
      ensures ok ==> c1 <= len && data[..c1] == FromText(line).value
    {
      hide FromText;
      var c2 := 0;
      c1, ok := 0, false;
      JoinNone(line, FromText(line));
      while c2 < len
        invariant 0 <= c1 <= c2 <= len && data[len] == NUL
        invariant data[c2..len] == line[c2..]
        invariant FromText(line) == Join(data[..c1], FromText(line[c2..]))
      {
        ghost var before, rest := data[..c1], data[c2..len];
        var c: Octet, used: nat;
        assert data[c2] == rest[0] && (c2 + 1 < len ==> data[c2 + 1] == rest[1]) && (c2 + 2 < len ==> data[c2 + 2] == rest[2]);
        TextStep(line[c2..]);
        if data[c2] == BACKSLASH {
          if data[c2 + 1] == BACKSLASH {
            c, used := data[c2], 2;
          } else {
            if c2 + 3 > len || !IsXDigit(data[c2 + 1]) || !IsXDigit(data[c2 + 2]) {
              return;
            }
            c, used := Unhex(data[c2 + 1], data[c2 + 2]), 3;
          }
        } else {
          c, used := data[c2], 1;
        }
        JoinStep(before, c, FromText(line[c2..][used..]));
        DropDrop(line, c2, used);
        ghost var later := data[c2 + used..len];
        data[c1] := c;
        assert data[..c1] == before && data[c2 + used..len] == later;
        TakeSnoc(data[..], c1);
        c1, c2 := c1 + 1, c2 + used;
      }
      ok := true;
      JoinEnd(data[..c1], line, c2);
    }

    method DecodeHex(len: nat, ghost line: Text) returns (ok: bool, c1: nat)
      requires len < data.Length && data[..len] == line && data[len] == NUL
      modifies data
      ensures ok == FromHex(line).Some?
      ensures ok ==> c1 <= len && data[..c1] == FromHex(line).value
    {
      hide FromHex;
      var c2 := 0;
      c1, ok := 0, false;
      JoinNone(line, FromHex(line));
      if len % 2 == 1 {
        OddHex(line);
        return;
      }
      while c2 < len
        invariant 0 <= c1 <= c2 <= len && c2 % 2 == 0
        invariant data[c2..len] == line[c2..]
        invariant FromHex(line) == Join(data[..c1], FromHex(line[c2..]))
      {
        ghost var before, rest := data[..c1], data[c2..len];
        assert data[c2] == rest[0] && data[c2 + 1] == rest[1];
        HexStep(line[c2..]);
        if !IsXDigit(data[c2]) || !IsXDigit(data[c2 + 1]) {
          return;
        }
        var c := Unhex(data[c2], data[c2 + 1]);
        JoinStep(before, c, FromHex(line[c2..][2..]));
        DropDrop(line, c2, 2);
        ghost var later := data[c2 + 2..len];
        data[c1] := c;
        assert data[..c1] == before && data[c2 + 2..len] == later;
        TakeSnoc(data[..], c1);
        c1, c2 := c1 + 1, c2 + 2;
      }
      ok := true;
      JoinEnd(data[..c1], line, c2);
    }

    /** The line that starts here, read and decoded. */
    method ReadFound(text: bool) returns (r: Line)
      requires Valid() && NUL !in input.rest
      modifies this, data, input
      ensures Valid() && (data == old(data) || fresh(data))
      ensures var f := Found(old(input.rest), text); r == f.0 && input.rest == f.1
      ensures eof == (old(eof) || r == Broken || r == AtEof)
    {
      hide FirstLine, Decoded;
      ghost var s := input.rest;
      NoLine(s);
      var any, whole, len := ReadWhole();
      if !any {
        eof := true;
        return AtEof;
      }
      if !whole {
        eof := true;
        return Broken;
      }
      ghost var line := FirstLine(s);
      len := len - 1;
      assert data[..len] == line[..len] by {
        assert data[..len] == data[..len + 1][..len];
      }
      ghost var body := data[..len];
      data[len] := NUL;
      assert data[..len] == body;
      var ok, n := Decode(len, text, line[..len]);
      if !ok {
        eof := true;
        return Broken;
      }
      r := Data(data[..n]);
    }

    /** `strncmp` of the buffer with the rest of the line that ends the data. */
    method IsDataEnd(ghost s: Text, ghost got: nat) returns (same: bool)
      requires Valid() && 0 < got < size && got <= |s| && data[..got] == s[..got] && data[got] == NUL && Taken(s, size - 1, s[..got])
      ensures same == (ATA_END <= s)
    {
      hide FirstLine, Taken;
      AtaEnd();
      var i := 0;
      while i < |ATA_END| && data[i] == ATA_END[i]
        invariant 0 <= i <= |ATA_END| && i <= got
        invariant data[..i] == ATA_END[..i]
      {
        i := i + 1;
      }
      same := i == |ATA_END|;
      Compared(s, data[..size], size - 1, got, i);
    }

    /** `readline`. */
    method ReadLine(text: bool, noHeader: bool) returns (r: Line)
      requires Valid() && NUL !in input.rest
      modifies this, data, input
      ensures Valid() && (data == old(data) || fresh(data)) && NUL !in input.rest
      ensures var f := NextLine(old(input.rest), text, noHeader);
              r == f.0 && (r != DataEnd && r != Broken ==> input.rest == f.1)
      ensures r == DataEnd && |FirstLine(old(input.rest)[1..])| < old(size) ==>
                input.rest == NextLine(old(input.rest), text, noHeader).1
      ensures r.Data? ==> |input.rest| < |old(input.rest)|
      ensures eof == (old(eof) || r == Broken || r == AtEof)
    {
      hide FirstLine, Decoded, FromText, FromHex;
      ghost var s := input.rest;
      if !noHeader {
        if input.rest == [] {
          eof := true;
          return AtEof;
        }
        var c := input.rest[0];
        input.rest := input.rest[1..];
        NoneMissing(s, 1);
        if c != SPACE {
          ghost var t := input.rest;
          var got := Fgets(0, size);
          FirstTaken(t, size - 1, got);
          NoneMissing(t, got);
          if got > 0 && c == LETTER_D {
            var same := IsDataEnd(t, got);
            if same {
              return DataEnd;
            }
          }
          eof := true;
          return Broken;
        }
      }
      FoundShrinks(input.rest, text);
      r := ReadFound(text);
    }
  }

  lemma AtaEnd()
    ensures |ATA_END| == 7 && forall i | 0 <= i < 7 :: ATA_END[i] != NUL && ATA_END[i] != NL
  {}

  /** The comparison stops in time, and where the input differs. */
  lemma Compared(s: Text, buf: Text, n: nat, got: nat, i: nat)
    requires 7 <= n < |buf| + 1 && 0 < got < |buf| && got <= |s| && buf[..got] == s[..got] && Taken(s, n, s[..got])
    requires i <= got && i <= |ATA_END| && buf[..i] == ATA_END[..i] && (i < |ATA_END| ==> buf[i] != ATA_END[i])
    requires buf[got] == NUL
    ensures (i == |ATA_END|) == (ATA_END <= s)
  {
    AtaEnd();
    if i == 7 {
      assert s[..got][..7] == s[..7] && buf[..got][..7] == buf[..7];
    } else if i < got {
      assert buf[..got][i] == s[..got][i];
    } else {
      assert forall q | 0 <= q < got :: s[..got][q] == ATA_END[q];
      if |s| > got { LineGoesOn(s, got); }
    }
  }

  lemma NoLine(s: Text)
    ensures FirstLine(s) == [] ==> s == []
  {}

  lemma FoundShrinks(s: Text, text: bool)
    requires NUL !in s
    ensures var f := Found(s, text); NUL !in f.1 && (f.0.Data? ==> |f.1| < |s|)
  {
    hide FirstLine, Decoded;
    if FirstLine(s) != [] {
      NoneMissing(s, |FirstLine(s)|);
    }
  }

  /** What is decoded already, and the rest. */
  ghost function Join(a: Text, r: Option<Text>): Option<Text> {
    if r.Some? then Some(a + r.value) else None
  }

  lemma JoinNone(line: Text, r: Option<Text>)
    ensures line[0..] == line && Join([], r) == r
  {
    if r.Some? { assert [] + r.value == r.value; }
  }

  lemma JoinStep(a: Text, c: Octet, r: Option<Text>)
    ensures Join(a, Prepend(c, r)) == Join(a + [c], r)
  {
    if r.Some? { Assoc(a, [c], r.value); }
  }

  lemma JoinEnd(a: Text, line: Text, k: nat)
    requires k == |line|
    ensures Join(a, FromText(line[k..])) == Some(a) && Join(a, FromHex(line[k..])) == Some(a)
  {
    assert line[k..] == [] && a + [] == a;
  }

  lemma DropDrop(s: Text, a: nat, b: nat)
    requires a + b <= |s|
    ensures s[a..][b..] == s[a + b..]
  {}

  /** The cases of one step of the printable form. */
  lemma TextStep(s: Text)
    requires s != []
    ensures s[0] != BACKSLASH ==> FromText(s) == Prepend(s[0], FromText(s[1..]))
    ensures s[0] == BACKSLASH && |s| > 1 && s[1] == BACKSLASH ==> FromText(s) == Prepend(BACKSLASH, FromText(s[2..]))
    ensures s[0] == BACKSLASH && (|s| < 2 || s[1] != BACKSLASH) ==>
              FromText(s) == if |s| < 3 || !IsXDigit(s[1]) || !IsXDigit(s[2]) then None
                             else Prepend(Unhex(s[1], s[2]), FromText(s[3..]))
  {}

  lemma HexStep(s: Text)
    requires |s| > 1
    ensures FromHex(s) == if !IsXDigit(s[0]) || !IsXDigit(s[1]) then None else Prepend(Unhex(s[0], s[1]), FromHex(s[2..]))
  {}

  /** A line of an odd number of digits is malformed. */
  lemma {:induction false} OddHex(s: Text)
    requires |s| % 2 == 1
    ensures FromHex(s) == None
    decreases |s|
  {
    if |s| > 1 { OddHex(s[2..]); }
  }

  /** No newline in what was taken so far, if it does not end with one. */
  lemma NoNewline(s: Text, k: nat, n: nat)
    requires 0 < k <= |s| && Taken(s, n, s[..k]) && s[k - 1] != NL
    ensures NL !in s[..k]
  {
    FirstLineCases(s);
    var r := FirstLine(s);
    assert s[..k] == r[..k];
    if k < |r| {
      assert r[..k] == r[..|r| - 1][..k];
    }
  }

  lemma NoneMissing(s: Text, k: nat)
    requires k <= |s| && NUL !in s
    ensures NUL !in s[..k] && NUL !in s[k..]
  {}

  lemma FirstTaken(s: Text, n: nat, got: nat)
    requires n > 0 && got <= |s| && Taken(s, n, s[..got])
    ensures (got > 0) == (FirstLine(s) != []) && (got == 0 ==> s == [])
  {}

  lemma {:induction false} FirstLineSplit(s: Text, k: nat)
    requires k <= |s| && NL !in s[..k]
    ensures FirstLine(s) == s[..k] + FirstLine(s[k..])
    decreases k
  {
    if k == 0 {
      assert s[0..] == s;
    } else {
      var t := s[1..];
      HeadTail(s);
      assert s[0] in s[..k];
      assert FirstLine(s) == [s[0]] + FirstLine(t);
      hide FirstLine;
      assert t[..k - 1] == s[1..k] && t[k - 1..] == s[k..];
      FirstLineSplit(t, k - 1);
      assert s[..k] == [s[0]] + t[..k - 1];
      Assoc([s[0]], t[..k - 1], FirstLine(s[k..]));
    }
  }

  /** A piece without newline filled the buffer, unless the input ends there. */
  lemma NextTaken(s: Text, n0: nat, n: nat, at: nat, got: nat)
    requires n > 0 && at <= |s| && NL !in s[..at] && Taken(s, n0, s[..at])
    requires got <= |s[at..]| && Taken(s[at..], n, s[at..][..got])
    ensures got == 0 ==> at == |s| && !EndsLine(FirstLine(s))
    ensures got > 0 ==> at == n0 && at + got <= |s| && Taken(s, n0 + n, s[..at + got])
  {
    FirstLineSplit(s, at);
    var rest := s[at..];
    FirstTaken(rest, n, got);
    if got == 0 {
      assert s == s[..at];
      FirstLineWhole(s);
    } else {
      PiecesJoin(s, at, got);
    }
  }

  lemma PiecesJoin(s: Text, at: nat, got: nat)
    requires at + got <= |s|
    ensures s[..at + got] == s[..at] + s[at..][..got] && s[at..][got..] == s[at + got..]
  {}

  lemma WholeLine(s: Text, n: nat, len: nat)
    requires 0 < len <= |s| && s[len - 1] == NL && Taken(s, n, s[..len])
    ensures FirstLine(s) == s[..len] && EndsLine(FirstLine(s))
  {
    LineStops(s, len);
  }

  lemma {:induction false} LineGoesOn(s: Text, k: nat)
    requires k < |s| && NL !in s[..k]
    ensures k < |FirstLine(s)|
    decreases k
  {
    if k > 0 {
      assert s[0] in s[..k];
      assert s[1..][..k - 1] == s[1..k];
      LineGoesOn(s[1..], k - 1);
    }
  }

  lemma LineStops(s: Text, k: nat)
    requires k <= |FirstLine(s)| && (k == |s| || (k > 0 && s[k - 1] == NL))
    ensures k == |FirstLine(s)|
  {
    FirstLineCases(s);
  }
}
