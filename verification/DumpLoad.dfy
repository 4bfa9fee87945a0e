/** Dumping a database and loading it again: the data part (dumpit, mdb_dump.c; the loop of main,
    mdb_load.c). */
module DumpLoad {
  import opened TextCodec
  import opened LoadLines
  import opened Seqs

  type Pair = (Text, Text)

  function PairLines(p: Pair, text: bool, printable: Octet -> bool): Text {
    LineOf(p.0, text, printable) + LineOf(p.1, text, printable)
  }

  function Lines(ps: seq<Pair>, text: bool, printable: Octet -> bool): Text {
    if ps == [] then [] else PairLines(ps[0], text, printable) + Lines(ps[1..], text, printable)
  }

  function EndLine(): Text {
    [LETTER_D] + ATA_END + [NL]
  }

  /** The items of a database, as a cursor visits them. */
  method Dump(ps: seq<Pair>, text: bool, printable: Octet -> bool) returns (out: Text)
    ensures out == Lines(ps, text, printable) + EndLine()
  {
    hide LineOf;
    out := [];
    var i := 0;
    while i < |ps|
      invariant 0 <= i <= |ps|
      invariant out + Lines(ps[i..], text, printable) == Lines(ps, text, printable)
    {
      var k, d;
      if text {
        k := PutText(ps[i].0, printable);
        d := PutText(ps[i].1, printable);
      } else {
        k := PutBytes(ps[i].0, printable);
        d := PutBytes(ps[i].1, printable);
      }
      Assoc(out, k + d, Lines(ps[i + 1..], text, printable));
      Assoc(out, k, d);
      out := out + k + d;
      i := i + 1;
    }
    assert ps[i..] == [];
    out := out + EndLine();
  }

  /** Why loading stopped: no key where one was looked for, which is how it is to end, or no value. */
  datatype Stop = NoKey(line: Line) | NoValue(line: Line)

  /** The pairs at the start of an input. */
  function Parsed(s: Text, text: bool, noHeader: bool): (seq<Pair>, Stop)
    decreases |s|
  {
    var k := NextLine(s, text, noHeader);
    NextShrinks(s, text, noHeader);
    if !k.0.Data? then ([], NoKey(k.0))
    else
      var d := NextLine(k.1, text, noHeader);
      NextShrinks(k.1, text, noHeader);
      if !d.0.Data? then ([], NoValue(d.0))
      else
        var more := Parsed(d.1, text, noHeader);
        ([(k.0.bytes, d.0.bytes)] + more.0, more.1)
  }

  lemma NextShrinks(s: Text, text: bool, noHeader: bool)
    ensures var f := NextLine(s, text, noHeader); f.0.Data? ==> |f.1| < |s|
  {
    hide FirstLine, Decoded;
  }

  /** The loop of mdb_load over one database. The two buffers read the same input. */
  method Load(kbuf: Reader, dbuf: Reader, text: bool, noHeader: bool) returns (ps: seq<Pair>, stop: Stop)
    requires kbuf != dbuf && kbuf.input == dbuf.input && kbuf.data != dbuf.data
    requires kbuf.Valid() && dbuf.Valid() && NUL !in kbuf.input.rest
    modifies kbuf, dbuf, kbuf.data, dbuf.data, kbuf.input
    ensures (ps, stop) == Parsed(old(kbuf.input.rest), text, noHeader)
  {
    hide NextLine, FirstLine;
    ghost var s := kbuf.input.rest;
    ps := [];
    assert [] + Parsed(s, text, noHeader).0 == Parsed(s, text, noHeader).0;
    while true
      invariant kbuf.data != dbuf.data && kbuf.Valid() && dbuf.Valid() && NUL !in kbuf.input.rest
      invariant kbuf.data == old(kbuf.data) || fresh(kbuf.data)
      invariant dbuf.data == old(dbuf.data) || fresh(dbuf.data)
      invariant var more := Parsed(kbuf.input.rest, text, noHeader);
                Parsed(s, text, noHeader) == (ps + more.0, more.1)
      decreases |kbuf.input.rest|
    {
      ghost var rest := kbuf.input.rest;
      var k := kbuf.ReadLine(text, noHeader);
      if !k.Data? {
        stop := NoKey(k);
        assert ps + [] == ps;
        return;
      }
      var d := dbuf.ReadLine(text, noHeader);
      if !d.Data? {
        stop := NoValue(d);
        assert ps + [] == ps;
        return;
      }
      Assoc(ps, [(k.bytes, d.bytes)], Parsed(kbuf.input.rest, text, noHeader).0);
      ps := ps + [(k.bytes, d.bytes)];
    }
  }

  /** What a line without its newline is taken for. */
  function Meant(line: Text, text: bool): Line {
    var d := Decoded(line, text);
    if d.Some? then Data(d.value) else Broken
  }

  /** Does it end the data? */
  predicate Ending(s: Text) {
    [LETTER_D] + ATA_END <= s
  }

  /** A whole line at the start of the input: without a header it is decoded as it is, else without its leading space,
      and a line that does not start with one ends the data or is malformed. */
  lemma WholeLine(line: Text, rest: Text, text: bool, noHeader: bool)
    requires NL !in line
    ensures var f := NextLine(line + [NL] + rest, text, noHeader);
            if noHeader then f == (Meant(line, text), rest)
            else if line != [] && line[0] == SPACE then f == (Meant(line[1..], text), rest)
            else f.0 == (if Ending(line) then DataEnd else Broken) && (line != [] ==> f.1 == rest)
  {
    hide Decoded, FirstLine;
    var s := line + [NL] + rest;
    FirstLineIs(line, rest);
    assert (line + [NL])[..|line|] == line && s[|line| + 1..] == rest;
    if line != [] {
      var tail := line[1..];
      assert s[1..] == tail + [NL] + rest;
      FirstLineIs(tail, rest);
      assert (tail + [NL])[..|tail|] == tail && s[1..][|tail| + 1..] == rest;
    }
    Starts(s);
    EndingIs(line, rest);
  }

  lemma EndMark(i: nat)
    requires i < 8
    ensures var e := [LETTER_D] + ATA_END; |e| == 8 && e[i] != NL && (i > 0 ==> e[i] == ATA_END[i - 1])
  {}

  lemma Starts(s: Text)
    ensures Ending(s) <==> s != [] && s[0] == LETTER_D && ATA_END <= s[1..]
  {
    AtaEnd();
    if s != [] {
      HeadTail(s);
      assert ATA_END <= s[1..] <==> |s| >= 8 && s[1..8] == ATA_END;
      assert |s| >= 8 ==> s[..8] == [s[0]] + s[1..8];
    }
  }

  /** The newline is no part of it. */
  lemma EndingIs(line: Text, rest: Text)
    requires NL !in line
    ensures Ending(line) <==> Ending(line + [NL] + rest)
  {
    var s := line + [NL] + rest;
    assert s[|line|] == NL;
    if |line| < 8 { EndMark(|line|); }
    EndMark(0);
    assert |line| >= 8 ==> s[..8] == line[..8];
  }

  /** An input that ends without a newline. */
  lemma LastLine(s: Text, text: bool, noHeader: bool)
    requires NL !in s
    ensures NextLine(s, text, noHeader).0
            == if s == [] || (!noHeader && s == [SPACE]) then AtEof
               else if !noHeader && Ending(s) then DataEnd else Broken
  {
    hide Decoded, FirstLine;
    FirstLineWhole(s);
    Starts(s);
    if s != [] {
      FirstLineWhole(s[1..]);
      HeadTail(s);
    }
  }

  /** How a value stands in the lines of simple text, without a leading space. */
  function Body(v: Text, text: bool, printable: Octet -> bool): Text {
    if text then EscapedAll(v, printable) else HexAll(v)
  }

  /** Without a header a line is read back as it is, whatever it starts with. */
  lemma BareRead(v: Text, rest: Text, text: bool, printable: Octet -> bool)
    requires !printable(NL) && !printable(NUL)
    ensures NextLine(Body(v, text, printable) + [NL] + rest, text, true) == (Data(v), rest)
  {
    hide Decoded, FirstLine, EscapedAll, HexAll, NextLine;
    LineIsPlain(v, text, printable);
    RoundTrip(v, text, printable);
    WholeLine(Body(v, text, printable), rest, text, true);
  }

  function BareLines(ps: seq<Pair>, text: bool, printable: Octet -> bool): Text {
    if ps == [] then []
    else Body(ps[0].0, text, printable) + [NL] + (Body(ps[0].1, text, printable) + [NL] + BareLines(ps[1..], text, printable))
  }

  /** Lines without leading spaces, up to the end of the input, are loaded as the pairs they stand for. */
  lemma {:induction false} LoadBare(ps: seq<Pair>, text: bool, printable: Octet -> bool)
    requires !printable(NL) && !printable(NUL)
    ensures Parsed(BareLines(ps, text, printable), text, true) == (ps, NoKey(AtEof))
    decreases |ps|
  {
    hide NextLine, Body;
    if ps == [] {
      LastLine([], text, true);
    } else {
      var more := BareLines(ps[1..], text, printable);
      BareRead(ps[0].0, Body(ps[0].1, text, printable) + [NL] + more, text, printable);
      BareRead(ps[0].1, more, text, printable);
      LoadBare(ps[1..], text, printable);
      HeadTail(ps);
    }
  }

  /** A line that was written is read back, and nothing of what follows is touched. */
  lemma LineRead(v: Text, rest: Text, text: bool, printable: Octet -> bool)
    requires !printable(NL) && !printable(NUL)
    ensures NextLine(LineOf(v, text, printable) + rest, text, false) == (Data(v), rest)
  {
    hide Decoded, FirstLine, EscapedAll, HexAll, NextLine;
    var body := Body(v, text, printable);
    LineIsPlain(v, text, printable);
    RoundTrip(v, text, printable);
    assert ([SPACE] + body)[1..] == body;
    assert LineOf(v, text, printable) + rest == ([SPACE] + body) + [NL] + rest;
    WholeLine([SPACE] + body, rest, text, false);
  }

  /** A dump is loaded as what was dumped, to the last item, whatever follows it. */
  lemma {:induction false} LoadDump(ps: seq<Pair>, rest: Text, text: bool, printable: Octet -> bool)
    requires !printable(NL) && !printable(NUL)
    ensures Parsed(Lines(ps, text, printable) + EndLine() + rest, text, false) == (ps, NoKey(DataEnd))
    decreases |ps|
  {
    hide NextLine, LineOf;
    var s := Lines(ps, text, printable) + EndLine() + rest;
    if ps == [] {
      EndRead(rest);
      assert s == EndLine() + rest;
    } else {
      var k, d := LineOf(ps[0].0, text, printable), LineOf(ps[0].1, text, printable);
      var more := Lines(ps[1..], text, printable) + EndLine() + rest;
      assert s == k + (d + more);
      LineRead(ps[0].0, d + more, text, printable);
      LineRead(ps[0].1, more, text, printable);
      LoadDump(ps[1..], rest, text, printable);
      HeadTail(ps);
    }
  }

  lemma EndRead(rest: Text)
    ensures forall text :: NextLine(EndLine() + rest, text, false).0 == DataEnd
  {
    forall text ensures NextLine(EndLine() + rest, text, false).0 == DataEnd {
      WholeLine([LETTER_D] + ATA_END, rest, text, false);
    }
  }
}
