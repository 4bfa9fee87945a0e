/** The header of a dump: what dumpit writes (mdb_dump.c) and readhdr makes of it (mdb_load.c). Lines
    are without their newlines. */
module DumpHeader {
  import opened Options
  import opened Seqs

  /** The bits that are set, each as its value. */
  type Flags = set<nat>

  datatype FlagBit = FlagBit(bit: nat, name: string)

  /** The table both programs have. */
  const DB_FLAGS: seq<FlagBit> := [
    FlagBit(0x02, "reversekey"), FlagBit(0x04, "dupsort"), FlagBit(0x08, "integerkey"),
    FlagBit(0x10, "dupfixed"), FlagBit(0x20, "integerdup"), FlagBit(0x40, "reversedup")]

  const DUPSORT: nat := 0x04

  /** What a header tells. Numbers are held as they are written. */
  datatype Header = Header(text: bool, name: Option<string>, mapSize: string, mapAddr: Option<string>,
                           maxReaders: string, flags: Flags, pageSize: string)

  function FlagLines(flags: Flags, table: seq<FlagBit>): seq<string> {
    if table == [] then []
    else (if table[0].bit in flags then [table[0].name + "=1"] else []) + FlagLines(flags, table[1..])
  }

  function HeadLines(h: Header): seq<string> {
    ["VERSION=3", if h.text then "format=print" else "format=bytevalue"]
    + (if h.name.Some? then ["database=" + h.name.value] else [])
    + ["type=btree", "mapsize=" + h.mapSize]
    + (if h.mapAddr.Some? then ["mapaddr=" + h.mapAddr.value] else [])
    + ["maxreaders=" + h.maxReaders]
    + (if DUPSORT in h.flags then ["duplicates=1"] else [])
  }

  function HeaderLines(h: Header): seq<string> {
    HeadLines(h) + FlagLines(h.flags, DB_FLAGS) + ["db_pagesize=" + h.pageSize, "HEADER=END"]
  }

  lemma NothingMore(a: seq<string>)
    ensures a + [] == a
  {}

  method PutHead(h: Header) returns (out: seq<string>)
    ensures out == HeadLines(h)
  {
    out := ["VERSION=3", if h.text then "format=print" else "format=bytevalue"];
    NothingMore(out);
    if h.name.Some? {
      out := out + ["database=" + h.name.value];
    }
    out := out + ["type=btree", "mapsize=" + h.mapSize];
    NothingMore(out);
    if h.mapAddr.Some? {
      out := out + ["mapaddr=" + h.mapAddr.value];
    }
    out := out + ["maxreaders=" + h.maxReaders];
    NothingMore(out);
    if DUPSORT in h.flags {
      out := out + ["duplicates=1"];
    }
  }

  /** The header as dumpit writes it. */
  method PutHeader(h: Header) returns (out: seq<string>)
    ensures out == HeaderLines(h)
  {
    hide HeadLines;
    out := PutHead(h);
    ghost var head := out;
    var i := 0;
    assert DB_FLAGS[0..] == DB_FLAGS;
    while i < |DB_FLAGS|
      invariant 0 <= i <= |DB_FLAGS|
      invariant out + FlagLines(h.flags, DB_FLAGS[i..]) == head + FlagLines(h.flags, DB_FLAGS)
    {
      FlagLinesStep(h.flags, i);
      NothingMore(out);
      Assoc(out, if DB_FLAGS[i].bit in h.flags then [DB_FLAGS[i].name + "=1"] else [], FlagLines(h.flags, DB_FLAGS[i + 1..]));
      if DB_FLAGS[i].bit in h.flags {
        out := out + [DB_FLAGS[i].name + "=1"];
      }
      i := i + 1;
    }
    assert DB_FLAGS[i..] == [];
    NothingMore(out);
    out := out + ["db_pagesize=" + h.pageSize, "HEADER=END"];
  }

  lemma FlagLinesStep(flags: Flags, i: nat)
    requires i < |DB_FLAGS|
    ensures FlagLines(flags, DB_FLAGS[i..])
         == (if DB_FLAGS[i].bit in flags then [DB_FLAGS[i].name + "=1"] else []) + FlagLines(flags, DB_FLAGS[i + 1..])
  {
    assert DB_FLAGS[i..][1..] == DB_FLAGS[i + 1..];
  }

  // ---------------------------------------------------------------- reading

  /** What readhdr has found so far: PRINT in mode, subname, flags. */
  datatype Found = Found(text: bool, name: Option<string>, flags: Flags)

  datatype Step = Next(found: Found) | Done | Refused

  /** The number after a keyword is acceptable: a VERSION not above 3, or what sscanf takes. */
  datatype Numbers = Numbers(version: string -> bool, number: string -> bool)

  /** `strncmp` with a literal, over the length of the literal. */
  predicate Begins(line: string, word: string) {
    |word| <= |line| && line[..|word|] == word
  }

  /** A line of the table: the name and an equals sign. */
  predicate IsFlag(line: string, f: FlagBit) {
    Begins(line, f.name) && |line| > |f.name| && line[|f.name|] == '='
  }

  function FlagOf(line: string, table: seq<FlagBit>): Option<FlagBit> {
    if table == [] then None else if IsFlag(line, table[0]) then Some(table[0]) else FlagOf(line, table[1..])
  }

  /** One line of the header. */
  function LineStep(line: string, f: Found, n: Numbers): Step {
    if Begins(line, "VERSION=") then
      if n.version(line[8..]) then Next(f) else Refused
    else if Begins(line, "HEADER=END") then Done
    else if Begins(line, "format=") then
      if Begins(line[7..], "print") then Next(f.(text := true))
      else if Begins(line[7..], "bytevalue") then Next(f)
      else Refused
    else if Begins(line, "database=") then Next(f.(name := Some(line[9..])))
    else if Begins(line, "type=") then
      if Begins(line[5..], "btree") then Next(f) else Refused
    else if Begins(line, "mapaddr=") then
      if n.number(line[8..]) then Next(f) else Refused
    else if Begins(line, "mapsize=") then
      if n.number(line[8..]) then Next(f) else Refused
    else if Begins(line, "maxreaders=") then
      if n.number(line[11..]) then Next(f) else Refused
    else
      var b := FlagOf(line, DB_FLAGS);
      if b.Some? then Next(f.(flags := f.flags + {b.value.bit}))
      else if '=' in line then Next(f)
      else Refused
  }

  /** The lines up to the end of the header; None if one is refused. */
  function Parsed(lines: seq<string>, f: Found, n: Numbers): Option<Found> {
    if lines == [] then Some(f)
    else
      match LineStep(lines[0], f, n)
      case Next(g) => Parsed(lines[1..], g, n)
      case Done => Some(f)
      case Refused => None
  }

  /** `readhdr`. The flags start from nothing; PRINT and the name stay from before. */
  method ReadHeader(lines: seq<string>, text: bool, name: Option<string>, n: Numbers) returns (r: Option<Found>)
    ensures r == Parsed(lines, Found(text, name, {}), n)
  {
    var f := Found(text, name, {});
    var i := 0;
    assert lines[0..] == lines;
    while i < |lines|
      invariant 0 <= i <= |lines|
      invariant Parsed(lines, Found(text, name, {}), n) == Parsed(lines[i..], f, n)
    {
      var line := lines[i];
      if Begins(line, "VERSION=") {
        if !n.version(line[8..]) {
          return None;
        }
      } else if Begins(line, "HEADER=END") {
        return Some(f);
      } else if Begins(line, "format=") {
        if Begins(line[7..], "print") {
          f := f.(text := true);
        } else if !Begins(line[7..], "bytevalue") {
          return None;
        }
      } else if Begins(line, "database=") {
        f := f.(name := Some(line[9..]));
      } else if Begins(line, "type=") {
        if !Begins(line[5..], "btree") {
          return None;
        }
      } else if Begins(line, "mapaddr=") {
        if !n.number(line[8..]) {
          return None;
        }
      } else if Begins(line, "mapsize=") {
        if !n.number(line[8..]) {
          return None;
        }
      } else if Begins(line, "maxreaders=") {
        if !n.number(line[11..]) {
          return None;
        }
      } else {
        var j := FlagIndex(line);
        if j < |DB_FLAGS| {
          f := f.(flags := f.flags + {DB_FLAGS[j].bit});
        } else if '=' !in line {
          return None;
        }
      }
      i := i + 1;
    }
    r := Some(f);
  }

  /** The first entry of the table the line is for. */
  method FlagIndex(line: string) returns (j: nat)
    ensures j <= |DB_FLAGS|
    ensures FlagOf(line, DB_FLAGS) == if j < |DB_FLAGS| then Some(DB_FLAGS[j]) else None
  {
    j := 0;
    while j < |DB_FLAGS| && !IsFlag(line, DB_FLAGS[j])
      invariant 0 <= j <= |DB_FLAGS|
      invariant FlagOf(line, DB_FLAGS) == FlagOf(line, DB_FLAGS[j..])
    {
      j := j + 1;
    }
  }

  // ---------------------------------------------------------------- the round trip

  lemma {:induction false} ParsedAppend(a: seq<string>, b: seq<string>, f: Found, g: Found, n: Numbers)
    requires Runs(a, f, g, n)
    ensures Parsed(a + b, f, n) == Parsed(b, g, n)
    decreases |a|
  {
    hide LineStep;
    if a == [] {
      assert a + b == b;
    } else {
      assert (a + b)[1..] == a[1..] + b;
      ParsedAppend(a[1..], b, LineStep(a[0], f, n).found, g, n);
    }
  }

  /** The lines lead from f to g. */
  ghost predicate Runs(a: seq<string>, f: Found, g: Found, n: Numbers) {
    if a == [] then f == g
    else LineStep(a[0], f, n).Next? && Runs(a[1..], LineStep(a[0], f, n).found, g, n)
  }

  lemma {:induction false} RunsAppend(a: seq<string>, b: seq<string>, f: Found, g: Found, h: Found, n: Numbers)
    requires Runs(a, f, g, n) && Runs(b, g, h, n)
    ensures Runs(a + b, f, h, n)
    decreases |a|
  {
    hide LineStep;
    if a == [] {
      assert a + b == b;
    } else {
      assert (a + b)[1..] == a[1..] + b;
      RunsAppend(a[1..], b, LineStep(a[0], f, n).found, g, h, n);
    }
  }

  lemma RunsOne(line: string, f: Found, g: Found, n: Numbers)
    requires LineStep(line, f, n) == Next(g)
    ensures Runs([line], f, g, n)
  {
    hide LineStep;
    assert [line][1..] == [];
  }

  lemma Differs(line: string, word: string, k: nat)
    requires k < |line| && k < |word| && line[k] != word[k]
    ensures !Begins(line, word)
  {
    if |word| <= |line| {
      assert line[..|word|][k] != word[k];
    }
  }

  lemma WordThen(word: string, rest: string)
    ensures Begins(word + rest, word) && (word + rest)[|word|..] == rest
  {
    Parts(word, rest);
  }

  /** No other word of the header begins like a flag. */
  lemma NotKeyword(line: string, f: Found, n: Numbers)
    requires |line| > 1 && (line[0] == 'r' || line[0] == 'i' || (line[0] == 'd' && line[1] != 'a'))
    ensures var b := FlagOf(line, DB_FLAGS);
            b.Some? ==> LineStep(line, f, n) == Next(f.(flags := f.flags + {b.value.bit}))
    ensures FlagOf(line, DB_FLAGS).None? && '=' in line ==> LineStep(line, f, n) == Next(f)
  {
    hide Begins, FlagOf;
    Differs(line, "VERSION=", 0);
    Differs(line, "HEADER=END", 0);
    Differs(line, "format=", 0);
    Differs(line, "database=", if line[0] == 'd' then 1 else 0);
    Differs(line, "type=", 0);
    Differs(line, "mapaddr=", 0);
    Differs(line, "mapsize=", 0);
    Differs(line, "maxreaders=", 0);
  }

  lemma {:induction false} FlagOfAt(line: string, table: seq<FlagBit>, i: nat)
    requires i < |table| && IsFlag(line, table[i])
    requires forall j | 0 <= j < i :: !IsFlag(line, table[j])
    ensures FlagOf(line, table) == Some(table[i])
    decreases i
  {
    hide IsFlag;
    if i > 0 {
      assert !IsFlag(line, table[0]);
      FlagOfAt(line, table[1..], i - 1);
    }
  }

  ghost predicate Distinct(a: string, b: string) {
    exists k: nat :: k < |a| && k < |b| && a[k] != b[k]
  }

  /** Two names of the table differ in their first character, or where they stop being alike. */
  lemma NamesDiffer(i: nat, j: nat)
    requires j < i < |DB_FLAGS|
    ensures Distinct(DB_FLAGS[i].name, DB_FLAGS[j].name)
  {
    var a, b := DB_FLAGS[i].name, DB_FLAGS[j].name;
    var k := if i == 5 && j == 0 then 7 else if i == 3 && j == 1 then 3 else if i == 4 && j == 2 then 7 else 0;
    assert a[k] != b[k];
  }

  lemma NotEarlier(name: string, other: FlagBit)
    requires Distinct(name, other.name)
    ensures !IsFlag(name + "=1", other)
  {
    var k: nat :| k < |name| && k < |other.name| && name[k] != other.name[k];
    Differs(name + "=1", other.name, k);
  }

  /** The line of an entry is taken for that entry. */
  lemma FlagFound(table: seq<FlagBit>, i: nat)
    requires i < |table| && forall j | 0 <= j < i :: Distinct(table[i].name, table[j].name)
    ensures FlagOf(table[i].name + "=1", table) == Some(table[i])
  {
    hide FlagOf, IsFlag, Distinct;
    var line := table[i].name + "=1";
    forall j | 0 <= j < i ensures !IsFlag(line, table[j]) {
      NotEarlier(table[i].name, table[j]);
    }
    OwnLine(table[i]);
    FlagOfAt(line, table, i);
  }

  lemma OwnLine(f: FlagBit)
    ensures IsFlag(f.name + "=1", f)
  {
    WordThen(f.name, "=1");
  }

  lemma NameStarts(i: nat)
    requires i < |DB_FLAGS|
    ensures var s := DB_FLAGS[i].name; |s| > 1 && (s[0] == 'r' || s[0] == 'i' || (s[0] == 'd' && s[1] == 'u'))
  {}

  /** A flag line sets its flag and nothing else. */
  lemma FlagLine(i: nat, f: Found, n: Numbers)
    requires i < |DB_FLAGS|
    ensures LineStep(DB_FLAGS[i].name + "=1", f, n) == Next(f.(flags := f.flags + {DB_FLAGS[i].bit}))
  {
    hide LineStep, FlagOf;
    forall j | 0 <= j < i ensures Distinct(DB_FLAGS[i].name, DB_FLAGS[j].name) {
      NamesDiffer(i, j);
    }
    hide Distinct;
    FlagFound(DB_FLAGS, i);
    NameStarts(i);
    StartKept(DB_FLAGS[i].name, f, n);
  }

  lemma StartKept(name: string, f: Found, n: Numbers)
    requires |name| > 1 && (name[0] == 'r' || name[0] == 'i' || (name[0] == 'd' && name[1] == 'u'))
    ensures var b := FlagOf(name + "=1", DB_FLAGS);
            b.Some? ==> LineStep(name + "=1", f, n) == Next(f.(flags := f.flags + {b.value.bit}))
  {
    hide LineStep, FlagOf;
    NotKeyword(name + "=1", f, n);
  }

  /** The flags the table knows. */
  function Mask(table: seq<FlagBit>): Flags {
    if table == [] then {} else {table[0].bit} + Mask(table[1..])
  }

  lemma {:induction false} FlagLinesRun(flags: Flags, i: nat, f: Found, n: Numbers)
    requires i <= |DB_FLAGS|
    ensures Runs(FlagLines(flags, DB_FLAGS[i..]), f, f.(flags := f.flags + flags * Mask(DB_FLAGS[i..])), n)
    decreases |DB_FLAGS| - i
  {
    hide *;
    if i == |DB_FLAGS| {
      NoFlags(flags, f, n);
    } else {
      var b := DB_FLAGS[i];
      var on := b.bit in flags;
      var g := f.(flags := if on then f.flags + {b.bit} else f.flags);
      var more := FlagLines(flags, DB_FLAGS[i + 1..]);
      FlagLinesStep(flags, i);
      FlagLinesRun(flags, i + 1, g, n);
      MaskStep(i);
      var h := g.(flags := g.flags + flags * Mask(DB_FLAGS[i + 1..]));
      assert h == f.(flags := f.flags + flags * Mask(DB_FLAGS[i..]));
      if on {
        FlagLine(i, f, n);
        RunsOne(b.name + "=1", f, g, n);
        RunsAppend([b.name + "=1"], more, f, g, h, n);
      } else {
        assert [] + more == more;
      }
    }
  }

  lemma MaskStep(i: nat)
    requires i < |DB_FLAGS|
    ensures Mask(DB_FLAGS[i..]) == {DB_FLAGS[i].bit} + Mask(DB_FLAGS[i + 1..])
  {
    assert DB_FLAGS[i..][1..] == DB_FLAGS[i + 1..];
  }

  lemma NoFlags(flags: Flags, f: Found, n: Numbers)
    ensures var none := DB_FLAGS[|DB_FLAGS|..];
            Runs(FlagLines(flags, none), f, f.(flags := f.flags + flags * Mask(none)), n)
  {
    assert DB_FLAGS[|DB_FLAGS|..] == [];
    assert f.flags + flags * {} == f.flags;
  }

  lemma WholeMask()
    ensures Mask(DB_FLAGS[0..]) == {0x02, 0x04, 0x08, 0x10, 0x20, 0x40}
  {
    MaskStep(0);
    MaskStep(1);
    MaskStep(2);
    MaskStep(3);
    MaskStep(4);
    MaskStep(5);
    assert DB_FLAGS[6..] == [];
  }

  /** What is refused: a newer version, another format or type, and a number that is none. */
  lemma LineRefused(rest: string, f: Found, n: Numbers)
    ensures LineStep("VERSION=" + rest, f, n).Refused? <==> !n.version(rest)
    ensures LineStep("format=" + rest, f, n).Refused? <==> !Begins(rest, "print") && !Begins(rest, "bytevalue")
    ensures LineStep("type=" + rest, f, n).Refused? <==> !Begins(rest, "btree")
  {
    hide FlagOf, Begins;
    WordThen("VERSION=", rest);
    WordThen("format=", rest);
    WordThen("type=", rest);
    Differs("format=" + rest, "VERSION=", 0);
    Differs("format=" + rest, "HEADER=END", 0);
    Differs("type=" + rest, "VERSION=", 0);
    Differs("type=" + rest, "HEADER=END", 0);
    Differs("type=" + rest, "format=", 0);
    Differs("type=" + rest, "database=", 0);
  }

  /** So is a line without an equals sign, whatever it says. */
  lemma NoKeyword(line: string, f: Found, n: Numbers)
    requires '=' !in line
    ensures LineStep(line, f, n) == Refused
  {
    hide FlagOf;
    HasEquals(line, "VERSION=", 7);
    HasEquals(line, "HEADER=END", 6);
    HasEquals(line, "format=", 6);
    HasEquals(line, "database=", 8);
    HasEquals(line, "type=", 4);
    HasEquals(line, "mapaddr=", 7);
    HasEquals(line, "mapsize=", 7);
    HasEquals(line, "maxreaders=", 10);
    hide Begins;
    NoFlagLine(line, 0);
  }

  lemma HasEquals(line: string, word: string, k: nat)
    requires k < |word| && word[k] == '=' && '=' !in line
    ensures !Begins(line, word)
  {
    if |word| <= |line| { assert line[k] != word[k] && line[..|word|][k] == line[k]; }
  }

  lemma {:induction false} NoFlagLine(line: string, i: nat)
    requires i <= |DB_FLAGS| && '=' !in line
    ensures FlagOf(line, DB_FLAGS[i..]) == None && DB_FLAGS[0..] == DB_FLAGS
    decreases |DB_FLAGS| - i
  {
    hide Begins;
    if i < |DB_FLAGS| {
      NoFlagLine(line, i + 1);
      assert DB_FLAGS[i..][1..] == DB_FLAGS[i + 1..];
    }
  }

  /** One line that is refused, and there is no header. */
  lemma RefusedStops(a: seq<string>, line: string, b: seq<string>, f: Found, g: Found, n: Numbers)
    requires Runs(a, f, g, n) && LineStep(line, g, n).Refused?
    ensures Parsed(a + ([line] + b), f, n) == None
  {
    ParsedAppend(a, [line] + b, f, g, n);
    hide LineStep;
  }

  /** The numbers in the header are as the reader takes them. */
  ghost predicate Readable(h: Header, n: Numbers) {
    n.version("3") && n.number(h.mapSize) && n.number(h.maxReaders) && (h.mapAddr.Some? ==> n.number(h.mapAddr.value))
  }

  lemma WordLine(word: string, rest: string, f: Found, n: Numbers)
    ensures word == "VERSION=" && n.version(rest) ==> LineStep(word + rest, f, n) == Next(f)
    ensures word == "database=" ==> LineStep(word + rest, f, n) == Next(f.(name := Some(rest)))
  {
    hide FlagOf;
    WordThen(word, rest);
    if word == "database=" {
      var line := word + rest;
      hide Begins;
      Differs(line, "VERSION=", 0);
      Differs(line, "HEADER=END", 0);
      Differs(line, "format=", 0);
    }
  }

  lemma FormatLine(text: bool, f: Found, n: Numbers)
    ensures LineStep(if text then "format=print" else "format=bytevalue", f, n) == Next(f.(text := f.text || text))
  {
    hide FlagOf, Begins;
    var rest := if text then "print" else "bytevalue";
    var line := if text then "format=print" else "format=bytevalue";
    assert line == "format=" + rest;
    WordThen("format=", rest);
    assert rest + "" == rest;
    WordThen(rest, "");
    if !text { Differs(rest, "print", 0); }
    Differs(line, "VERSION=", 0);
    Differs(line, "HEADER=END", 0);
  }

  lemma TypeLine(f: Found, n: Numbers)
    ensures LineStep("type=btree", f, n) == Next(f)
  {
    hide FlagOf, Begins;
    var line := "type=btree";
    assert line == "type=" + "btree" && "btree" + "" == "btree";
    WordThen("type=", "btree");
    WordThen("btree", "");
    Differs(line, "VERSION=", 0);
    Differs(line, "HEADER=END", 0);
    Differs(line, "format=", 0);
    Differs(line, "database=", 0);
  }

  lemma NumberLine(word: string, rest: string, f: Found, n: Numbers)
    requires word == "mapsize=" || word == "mapaddr=" || word == "maxreaders="
    ensures LineStep(word + rest, f, n) == if n.number(rest) then Next(f) else Refused
  {
    hide FlagOf, Begins;
    var line := word + rest;
    WordThen(word, rest);
    Differs(line, "VERSION=", 0);
    Differs(line, "HEADER=END", 0);
    Differs(line, "format=", 0);
    Differs(line, "database=", 0);
    Differs(line, "type=", 0);
    if word != "mapaddr=" { Differs(line, "mapaddr=", if word == "mapsize=" then 3 else 2); }
    if word == "maxreaders=" { Differs(line, "mapsize=", 2); }
  }

  /** Lines that readhdr has no use for. */
  lemma IdleLine(word: string, rest: string, f: Found, n: Numbers)
    requires word == "duplicates=" || word == "db_pagesize="
    ensures LineStep(word + rest, f, n) == Next(f)
  {
    hide LineStep, IsFlag;
    var line := word + rest;
    var k := if word == "duplicates=" then 3 else 1;
    assert line[0] == 'd' && line[1] != 'a' && line[k] != "dupsort"[k] && line[k] != "dupfixed"[k];
    assert line[|word| - 1] == '=';
    NotFlag(line, k, 0);
    NotKeyword(line, f, n);
  }

  lemma {:induction false} NotFlag(line: string, k: nat, i: nat)
    requires i <= |DB_FLAGS| && 1 <= k <= 3 && |line| > k && line[0] == 'd' && line[k] != "dupsort"[k] && line[k] != "dupfixed"[k]
    ensures FlagOf(line, DB_FLAGS[i..]) == None && DB_FLAGS[0..] == DB_FLAGS
    decreases |DB_FLAGS| - i
  {
    hide Begins;
    if i < |DB_FLAGS| {
      Differs(line, DB_FLAGS[i].name, if i == 1 || i == 3 then k else 0);
      NotFlag(line, k, i + 1);
      assert DB_FLAGS[i..][1..] == DB_FLAGS[i + 1..];
    }
  }

  /** What the reader knows after the lines before the flags. */
  ghost function Known(h: Header, f: Found): Found {
    Found(f.text || h.text, if h.name.Some? then h.name else f.name, f.flags)
  }

  lemma HeadLinesRun(h: Header, f: Found, n: Numbers)
    requires Readable(h, n)
    ensures Runs(HeadLines(h), f, Known(h, f), n)
  {
    hide LineStep, Runs;
    var format := if h.text then "format=print" else "format=bytevalue";
    var f1 := f.(text := f.text || h.text);
    var f2 := Known(h, f);
    WordLine("VERSION=", "3", f, n);
    assert "VERSION=" + "3" == "VERSION=3";
    RunsOne("VERSION=3", f, f, n);
    FormatLine(h.text, f, n);
    RunsOne(format, f, f1, n);
    RunsAppend(["VERSION=3"], [format], f, f, f1, n);
    var a := ["VERSION=3", format];
    assert ["VERSION=3"] + [format] == a;
    var db := if h.name.Some? then ["database=" + h.name.value] else [];
    if h.name.Some? {
      WordLine("database=", h.name.value, f1, n);
      RunsOne("database=" + h.name.value, f1, f2, n);
    } else {
      RunsNone(f1, n);
    }
    RunsAppend(a, db, f, f1, f2, n);
    TypeLine(f2, n);
    RunsOne("type=btree", f2, f2, n);
    NumberLine("mapsize=", h.mapSize, f2, n);
    RunsOne("mapsize=" + h.mapSize, f2, f2, n);
    RunsAppend(["type=btree"], ["mapsize=" + h.mapSize], f2, f2, f2, n);
    assert ["type=btree"] + ["mapsize=" + h.mapSize] == ["type=btree", "mapsize=" + h.mapSize];
    RunsAppend(a + db, ["type=btree", "mapsize=" + h.mapSize], f, f2, f2, n);
    HeadEndRun(h, a + db + ["type=btree", "mapsize=" + h.mapSize], f, f2, n);
  }

  lemma RunsNone(f: Found, n: Numbers)
    ensures Runs([], f, f, n)
  {}

  lemma HeadEndRun(h: Header, a: seq<string>, f: Found, g: Found, n: Numbers)
    requires Readable(h, n) && Runs(a, f, g, n)
    ensures Runs(a + (if h.mapAddr.Some? then ["mapaddr=" + h.mapAddr.value] else [])
                 + ["maxreaders=" + h.maxReaders] + (if DUPSORT in h.flags then ["duplicates=1"] else []), f, g, n)
  {
    hide LineStep, Runs;
    var addr := if h.mapAddr.Some? then ["mapaddr=" + h.mapAddr.value] else [];
    var dup := if DUPSORT in h.flags then ["duplicates=1"] else [];
    RunsNone(g, n);
    if h.mapAddr.Some? {
      NumberLine("mapaddr=", h.mapAddr.value, g, n);
      RunsOne("mapaddr=" + h.mapAddr.value, g, g, n);
    }
    RunsAppend(a, addr, f, g, g, n);
    NumberLine("maxreaders=", h.maxReaders, g, n);
    RunsOne("maxreaders=" + h.maxReaders, g, g, n);
    RunsAppend(a + addr, ["maxreaders=" + h.maxReaders], f, g, g, n);
    IdleLine("duplicates=", "1", g, n);
    assert "duplicates=" + "1" == "duplicates=1";
    RunsOne("duplicates=1", g, g, n);
    RunsAppend(a + addr + ["maxreaders=" + h.maxReaders], dup, f, g, g, n);
  }

  lemma EndParsed(h: Header, rest: seq<string>, f: Found, n: Numbers)
    ensures Parsed(["db_pagesize=" + h.pageSize, "HEADER=END"] + rest, f, n) == Some(f)
  {
    hide LineStep;
    var s := ["db_pagesize=" + h.pageSize, "HEADER=END"] + rest;
    IdleLine("db_pagesize=", h.pageSize, f, n);
    EndLineDone(f, n);
    assert s[1..][0] == "HEADER=END";
  }

  lemma EndLineDone(f: Found, n: Numbers)
    ensures LineStep("HEADER=END", f, n) == Done
  {
    hide FlagOf, Begins;
    Differs("HEADER=END", "VERSION=", 0);
    assert "HEADER=END" + "" == "HEADER=END";
    WordThen("HEADER=END", "");
  }

  /** Reading a header back: the format, the name and the flags of the table are those that were written.
      A format read before is not taken back. What follows the header is not looked at. */
  lemma HeaderRoundTrip(h: Header, rest: seq<string>, text: bool, name: Option<string>, n: Numbers)
    requires Readable(h, n)
    ensures Parsed(HeaderLines(h) + rest, Found(text, name, {}), n)
         == Some(Found(text || h.text, if h.name.Some? then h.name else name, h.flags * {0x02, 0x04, 0x08, 0x10, 0x20, 0x40}))
  {
    hide LineStep, Runs, Parsed, HeadLines, FlagLines, Mask;
    var f := Found(text, name, {});
    var g := Known(h, f);
    var end := ["db_pagesize=" + h.pageSize, "HEADER=END"];
    HeadLinesRun(h, f, n);
    FlagLinesRun(h.flags, 0, g, n);
    WholeMask();
    assert DB_FLAGS[0..] == DB_FLAGS;
    var k := g.(flags := h.flags * {0x02, 0x04, 0x08, 0x10, 0x20, 0x40});
    assert g.flags + k.flags == k.flags;
    RunsAppend(HeadLines(h), FlagLines(h.flags, DB_FLAGS), f, g, k, n);
    Assoc(HeadLines(h) + FlagLines(h.flags, DB_FLAGS), end, rest);
    ParsedAppend(HeadLines(h) + FlagLines(h.flags, DB_FLAGS), end + rest, f, k, n);
    EndParsed(h, rest, k, n);
  }
}
