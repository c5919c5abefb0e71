/** Every way of writing a command line, and the proof that the tokenizer reads them all alike. */
module FlagSpellings {
  import opened Common
  import opened FlagParser

  /** How a group of shorthands ends. */
  datatype GroupEnd =
    | Bare                                   // -ab
    | Attached(flag: char, value: string)    // -abXvalue
    | WithEquals(flag: char, value: string)  // -abX=value
    | Separate(flag: char, equals: bool, value: string)    // -abX value, or -abX= value

  /** One positional or flag group, in one of its spellings. */
  datatype Chunk =
    | Positional(text: string)
    | LongBare(name: string)                       // --name
    | LongEquals(name: string, value: string)      // --name=value
    | LongSeparate(name: string, value: string)    // --name value
    | Shorts(bare: string, end: GroupEnd)

  /** How argv ends: on a whole chunk, at `--`, or on a value flag with no value left. */
  datatype Ending =
    | Done
    | Terminated(rest: seq<string>)
    | LongDangling(name: string)
    | ShortDangling(bare: string, flag: char, equals: bool)

  predicate NoEquals(name: string) { EqualsAt(name) == |name| }

  predicate GroupOk(t: Table, bare: string, rest: string) {
    && (forall i :: 0 <= i < |bare| ==> bare[i] !in t.shorts)
    && bare + rest != "" && (bare + rest)[0] != '-'
  }

  function EndText(e: GroupEnd): string {
    match e
    case Bare => ""
    case Attached(c, v) => [c] + v
    case WithEquals(c, v) => [c] + "=" + v
    case Separate(c, equals, _) => [c] + if equals then "=" else ""
  }

  predicate EndOk(t: Table, e: GroupEnd) {
    match e
    case Bare => true
    case Attached(c, v) => c in t.shorts && v != "" && v[0] != '='
    case WithEquals(c, v) => c in t.shorts && v != ""
    case Separate(c, _, _) => c in t.shorts
  }

  /** The chunks a shell user can write under table `t`. */
  predicate Writable(t: Table, c: Chunk) {
    match c
    case Positional(text) => text != "--" && !IsLong(text) && !IsShort(text)
    case LongBare(name) => name != "" && NoEquals(name) && name !in t.longs
    case LongEquals(name, _) => NoEquals(name)
    case LongSeparate(name, _) => name != "" && NoEquals(name) && name in t.longs
    case Shorts(bare, end) => GroupOk(t, bare, EndText(end)) && EndOk(t, end)
  }

  predicate EndingOk(t: Table, e: Ending) {
    match e
    case Done => true
    case Terminated(_) => true
    case LongDangling(name) => name != "" && NoEquals(name) && name in t.longs
    case ShortDangling(bare, c, equals) => GroupOk(t, bare, [c] + (if equals then "=" else "")) && c in t.shorts
  }

  function Write(c: Chunk): seq<string> {
    match c
    case Positional(text) => [text]
    case LongBare(name) => ["--" + name]
    case LongEquals(name, value) => ["--" + name + "=" + value]
    case LongSeparate(name, value) => ["--" + name, value]
    case Shorts(bare, end) =>
      ["-" + bare + EndText(end)] + if end.Separate? then [end.value] else []
  }

  function WriteAll(chunks: seq<Chunk>): seq<string> {
    if chunks == [] then [] else Write(chunks[0]) + WriteAll(chunks[1..])
  }

  function WriteEnding(e: Ending): seq<string> {
    match e
    case Done => []
    case Terminated(rest) => ["--"] + rest
    case LongDangling(name) => ["--" + name]
    case ShortDangling(bare, c, equals) => ["-" + bare + [c] + if equals then "=" else ""]
  }

  function BareFlags(bare: string): seq<Flag> {
    if bare == "" then [] else [Flag([bare[0]], None)] + BareFlags(bare[1..])
  }

  function EndFlags(e: GroupEnd): seq<Flag> {
    match e
    case Bare => []
    case Attached(c, v) => [Flag([c], Some(v))]
    case WithEquals(c, v) => [Flag([c], Some(v))]
    case Separate(c, _, v) => [Flag([c], Some(v))]
  }

  /** What a chunk says, its first token being number `base`. */
  function Says(c: Chunk, base: nat): Parsed {
    match c
    case Positional(text) => Parsed([text], [], [base])
    case LongBare(name) => Flags([Flag(name, None)])
    case LongEquals(name, value) => Flags([Flag(name, Some(value))])
    case LongSeparate(name, value) => Flags([Flag(name, Some(value))])
    case Shorts(bare, end) => Flags(BareFlags(bare) + EndFlags(end))
  }

  function SaysAll(chunks: seq<Chunk>, base: nat): Parsed {
    if chunks == [] then Parsed([], [], [])
    else Cat(Says(chunks[0], base), SaysAll(chunks[1..], base + |Write(chunks[0])|))
  }

  function SaysEnding(e: Ending, base: nat): Parsed {
    match e
    case Done => Parsed([], [], [])
    case Terminated(rest) => Parsed(rest, [], Range(base + 1, |rest|))
    case LongDangling(name) => Flags([Flag(name, Some(""))])
    case ShortDangling(bare, c, _) => Flags(BareFlags(bare) + [Flag([c], Some(""))])
  }

  ghost predicate AllWritable(t: Table, chunks: seq<Chunk>) {
    forall c :: c in chunks ==> Writable(t, c)
  }

  // --- Reading back what was written ---------------------------------------------------------

  lemma {:induction false} EqualsSplit(name: string, value: string)
    requires NoEquals(name)
    ensures EqualsAt(name + "=" + value) == |name|
  {
    var s := name + "=" + value;
    if name != "" {
      assert name[0] != '=';
      assert s[1..] == name[1..] + "=" + value;
      EqualsSplit(name[1..], value);
    }
  }

  lemma {:induction false} GroupReads(t: Table, bare: string, end: string, rest: seq<string>)
    requires forall i :: 0 <= i < |bare| ==> bare[i] !in t.shorts
    ensures var (flags, took) := ParseGroup(t, end, rest);
            ParseGroup(t, bare + end, rest) == (BareFlags(bare) + flags, took)
  {
    if bare == "" {
      assert bare + end == end;
      var flags := ParseGroup(t, end, rest).0;
      assert BareFlags(bare) + flags == flags;
    } else {
      assert (bare + end)[1..] == bare[1..] + end;
      GroupReads(t, bare[1..], end, rest);
      var flags := ParseGroup(t, end, rest).0;
      assert [Flag([bare[0]], None)] + (BareFlags(bare[1..]) + flags) == BareFlags(bare) + flags;
    }
  }

  lemma EndReads(t: Table, e: GroupEnd, rest: seq<string>)
    requires EndOk(t, e) && (e.Separate? ==> rest != [] && rest[0] == e.value)
    ensures ParseGroup(t, EndText(e), rest) == (EndFlags(e), e.Separate?)
  {
    match e
    case Bare =>
    case Attached(c, v) => assert ([c] + v)[1..] == v;
    case WithEquals(c, v) => assert ([c] + "=" + v)[2..] == v;
    case Separate(c, equals, _) =>
      var end := EndText(e);
      assert end[1..] == if equals then "=" else "";
      if equals { assert end[2..] == ""; }
  }

  lemma ShortsRead(t: Table, bare: string, end: GroupEnd, rest: seq<string>, base: nat)
    requires Writable(t, Shorts(bare, end))
    ensures var c := Shorts(bare, end);
            Parse(t, Write(c) + rest, base) == Cat(Says(c, base), Parse(t, rest, base + |Write(c)|))
  {
    hide ParseGroup, EqualsAt, EndText, EndFlags, BareFlags;
    var argv := Write(Shorts(bare, end)) + rest;
    assert argv[0] == "-" + bare + EndText(end) && argv[0][1..] == bare + EndText(end);
    if end.Separate? { assert argv[1..] == [end.value] + rest; } else { assert argv[1..] == rest; }
    GroupReads(t, bare, EndText(end), argv[1..]);
    EndReads(t, end, argv[1..]);
    assert IsShort(argv[0]) && argv[0] != "--";
    if end.Separate? { assert Tail(argv[1..]) == rest; }
  }

  /** A written chunk is read back as what it says, whatever follows it. */
  lemma ChunkReads(t: Table, c: Chunk, rest: seq<string>, base: nat)
    requires Writable(t, c)
    ensures Parse(t, Write(c) + rest, base) == Cat(Says(c, base), Parse(t, rest, base + |Write(c)|))
  {
    hide ParseGroup, EqualsAt;
    var argv := Write(c) + rest;
    match c {
      case Positional(text) => assert argv[1..] == rest;
      case LongBare(name) => assert argv[1..] == rest && argv[0][2..] == name;
      case LongEquals(name, value) =>
        EqualsSplit(name, value);
        assert argv[1..] == rest && argv[0][2..] == name + "=" + value;
        assert (name + "=" + value)[..|name|] == name && (name + "=" + value)[|name| + 1..] == value;
      case LongSeparate(name, value) =>
        assert argv[0][2..] == name && Tail(argv[1..]) == rest;
      case Shorts(bare, end) => ShortsRead(t, bare, end, rest, base);
    }
  }

  /** A whole list of chunks is read back in order, with its positionals' own indexes. */
  lemma {:induction false} ChunksRead(t: Table, chunks: seq<Chunk>, rest: seq<string>, base: nat)
    requires AllWritable(t, chunks)
    ensures Parse(t, WriteAll(chunks) + rest, base)
            == Cat(SaysAll(chunks, base), Parse(t, rest, base + |WriteAll(chunks)|))
    decreases |chunks|
  {
    hide Parse, Writable, Write, Cat;
    if chunks == [] {
      assert WriteAll(chunks) + rest == rest;
      CatNothing(Parse(t, rest, base));
    } else {
      var first, others := Write(chunks[0]), WriteAll(chunks[1..]);
      assert WriteAll(chunks) + rest == first + (others + rest);
      ChunkReads(t, chunks[0], others + rest, base);
      ChunksRead(t, chunks[1..], rest, base + |first|);
      CatAssociates(Says(chunks[0], base), SaysAll(chunks[1..], base + |first|),
        Parse(t, rest, base + |WriteAll(chunks)|));
    }
  }

  lemma EndingReads(t: Table, e: Ending, base: nat)
    requires EndingOk(t, e)
    ensures Parse(t, WriteEnding(e), base) == SaysEnding(e, base)
  {
    hide ParseGroup, EqualsAt;
    match e {
      case Done =>
      case Terminated(rest) => assert (["--"] + rest)[1..] == rest;
      case LongDangling(name) =>
        assert ("--" + name)[2..] == name;
        assert ["--" + name][1..] == [];
        CatNothing(SaysEnding(e, base));
      case ShortDangling(bare, c, equals) =>
        var end := [c] + if equals then "=" else "";
        var argv := WriteEnding(e);
        GroupReads(t, bare, end, []);
        DanglingReads(t, c, equals);
        assert argv[0][1..] == bare + end && argv[1..] == [];
        CatNothing(SaysEnding(e, base));
    }
  }

  lemma DanglingReads(t: Table, c: char, equals: bool)
    requires c in t.shorts
    ensures ParseGroup(t, [c] + (if equals then "=" else ""), []) == ([Flag([c], Some(""))], true)
  {
    var end := [c] + if equals then "=" else "";
    assert end[1..] == if equals then "=" else "";
    if equals { assert end[2..] == ""; }
  }

  /** The tokenizer inverts the writer: any mix of spellings reads back as exactly what it says. */
  lemma SpellingsReadBack(t: Table, chunks: seq<Chunk>, e: Ending)
    requires AllWritable(t, chunks) && EndingOk(t, e)
    ensures Parse(t, WriteAll(chunks) + WriteEnding(e), 0)
            == Cat(SaysAll(chunks, 0), SaysEnding(e, |WriteAll(chunks)|))
  {
    hide Parse, Cat, Writable, EndingOk, WriteEnding, SaysEnding;
    ChunksRead(t, chunks, WriteEnding(e), 0);
    EndingReads(t, e, |WriteAll(chunks)|);
  }

  /** Positionals sit where their indexes say, and the indexes increase. */
  predicate Located(p: Parsed, argv: seq<string>, base: nat) {
    && |p.indexes| == |p.positionals|
    && (forall i :: 0 <= i < |p.indexes| ==>
         base <= p.indexes[i] < base + |argv| && argv[p.indexes[i] - base] == p.positionals[i])
    && (forall i, j :: 0 <= i < j < |p.indexes| ==> p.indexes[i] < p.indexes[j])
  }

  lemma LocatedCat(a: Parsed, b: Parsed, argv: seq<string>, base: nat, n: nat)
    requires n <= |argv| && Located(a, argv[..n], base) && Located(b, argv[n..], base + n)
    ensures Located(Cat(a, b), argv, base)
  {
  }

  lemma TokenLocated(t: Table, argv: seq<string>, base: nat, n: nat)
    requires argv != [] && 1 <= n <= |argv|
    ensures Located(Token(t, argv[0], argv[1..], base).0, argv[..n], base)
  {
    hide ParseGroup, EqualsAt;
  }

  lemma {:induction false} IndexesPoint(t: Table, argv: seq<string>, base: nat)
    ensures Located(Parse(t, argv, base), argv, base)
    decreases |argv|
  {
    hide Token, Located, Cat;
    if argv == [] {
      assert Located(Parsed([], [], []), argv, base) by { NothingLocated(argv, base); }
    } else if argv[0] == "--" {
      RestLocated(argv, base);
    } else {
      var took := Token(t, argv[0], argv[1..], base).1;
      var n := if took && |argv| >= 2 then 2 else 1;
      TokenLocated(t, argv, base, n);
      IndexesPoint(t, argv[n..], base + n);
      LocatedCat(Token(t, argv[0], argv[1..], base).0, Parse(t, argv[n..], base + n), argv, base, n);
      if took {
        assert Tail(argv[1..]) == argv[n..];
        if n == 1 { assert Parse(t, argv[n..], base + 2) == Parse(t, argv[n..], base + 1); }
      }
    }
  }

  lemma NothingLocated(argv: seq<string>, base: nat)
    ensures Located(Parsed([], [], []), argv, base)
  {
  }

  lemma RestLocated(argv: seq<string>, base: nat)
    requires argv != []
    ensures Located(Parsed(argv[1..], [], Range(base + 1, |argv| - 1)), argv, base)
  {
  }

  // --- Every command line is some spelling ------------------------------------------------------

  lemma {:induction false} NoEqualsBefore(s: string, n: nat)
    requires n <= |s| && forall i :: 0 <= i < n ==> s[i] != '='
    ensures NoEquals(s[..n])
  {
    if n > 0 {
      assert s[..n][1..] == s[1..][..n - 1];
      NoEqualsBefore(s[1..], n - 1);
    }
  }

  /** A short group as bare shorthands and an end; `None` when its value flag ran out of tokens. */
  lemma {:induction false} GroupSplits(t: Table, group: string, rest: seq<string>)
    returns (bare: string, end: Option<GroupEnd>, flag: char, equals: bool)
    ensures forall i :: 0 <= i < |bare| ==> bare[i] !in t.shorts
    ensures end.Some? ==> EndOk(t, end.value) && group == bare + EndText(end.value)
                          && (end.value.Separate? ==> rest != [] && end.value.value == rest[0])
    ensures end.None? ==> rest == [] && flag in t.shorts && group == bare + [flag] + if equals then "=" else ""
    decreases |group|
  {
    flag, equals := ' ', false;
    if group == "" {
      bare, end := "", Some(Bare);
    } else if group[0] !in t.shorts {
      bare, end, flag, equals := GroupSplits(t, group[1..], rest);
      var inner := bare;
      bare := [group[0]] + inner;
      forall i | 0 <= i < |bare| ensures bare[i] !in t.shorts { if i > 0 { assert bare[i] == inner[i - 1]; } }
      assert group == [group[0]] + group[1..];
    } else {
      bare := "";
      assert group == [group[0]] + group[1..];
      equals := group[1..] != "" && group[1] == '=';
      if equals { assert group == [group[0]] + "=" + group[2..]; }
      var value := if equals then group[2..] else group[1..];
      if value != "" {
        end := Some(if equals then WithEquals(group[0], value) else Attached(group[0], value));
      } else if rest != [] {
        end := Some(Separate(group[0], equals, rest[0]));
      } else {
        flag, end := group[0], None;
      }
    }
  }

  /** One short token as a chunk, or as the dangling end of the command line. */
  lemma ShortSplits(t: Table, token: string, rest: seq<string>) returns (c: Option<Chunk>, e: Ending)
    requires IsShort(token)
    ensures c.Some? ==> Writable(t, c.value) && Write(c.value) != [] && Write(c.value) <= [token] + rest
    ensures c.None? ==> EndingOk(t, e) && WriteEnding(e) == [token] && rest == []
  {
    var bare, end, flag, equals := GroupSplits(t, token[1..], rest);
    assert token == "-" + token[1..] && token[1..] != "" && token[1..][0] != '-';
    if end.Some? {
      c, e := Some(Shorts(bare, end.value)), Done;
      assert "-" + bare + EndText(end.value) == token;
      if end.value.Separate? { assert rest == [rest[0]] + rest[1..]; }
    } else {
      c, e := None, ShortDangling(bare, flag, equals);
      assert "-" + (bare + [flag] + if equals then "=" else "") == "-" + bare + [flag] + if equals then "=" else "";
      assert bare + [flag] + (if equals then "=" else "") == bare + ([flag] + if equals then "=" else "");
    }
  }

  lemma LongSplits(t: Table, token: string, rest: seq<string>) returns (c: Option<Chunk>, e: Ending)
    requires IsLong(token) && token != "--"
    ensures c.Some? ==> Writable(t, c.value) && Write(c.value) != [] && Write(c.value) <= [token] + rest
    ensures c.None? ==> EndingOk(t, e) && WriteEnding(e) == [token] && rest == []
  {
    var body := token[2..];
    var eq := EqualsAt(body);
    assert token == "--" + body;
    NoEqualsBefore(body, eq);
    c, e := None, Done;
    if eq < |body| {
      c := Some(LongEquals(body[..eq], body[eq + 1..]));
      assert body == body[..eq] + "=" + body[eq + 1..];
      assert "--" + body[..eq] + "=" + body[eq + 1..] == "--" + (body[..eq] + "=" + body[eq + 1..]);
    } else {
      assert body[..eq] == body;
      if body !in t.longs {
        c := Some(LongBare(body));
      } else if rest == [] {
        e := LongDangling(body);
      } else {
        c := Some(LongSeparate(body, rest[0]));
        assert rest == [rest[0]] + rest[1..];
      }
    }
  }

  /** Every command line is some spelling, so the tokenizer's result is always what a spelling says. */
  lemma {:induction false} EveryArgvIsSpelled(t: Table, argv: seq<string>) returns (chunks: seq<Chunk>, e: Ending)
    ensures AllWritable(t, chunks) && EndingOk(t, e) && argv == WriteAll(chunks) + WriteEnding(e)
    decreases |argv|
  {
    hide Writable, EndingOk, EqualsAt, Write, WriteAll, WriteEnding;
    chunks, e := [], Done;
    NothingWritten(t);
    if argv != [] && argv[0] == "--" {
      e := Terminated(argv[1..]);
      TerminatedOk(t, argv[1..]);
    } else if argv != [] {
      var token, rest := argv[0], argv[1..];
      assert argv == [token] + rest;
      var c: Option<Chunk>;
      if IsLong(token) {
        c, e := LongSplits(t, token, rest);
      } else if IsShort(token) {
        c, e := ShortSplits(t, token, rest);
      } else {
        c := Some(Positional(token));
        PositionalOk(t, token);
      }
      if c.Some? {
        var n := |Write(c.value)|;
        var others;
        others, e := EveryArgvIsSpelled(t, argv[n..]);
        PrependSpelled(t, c.value, others, e, argv);
        chunks := [c.value] + others;
      }
    }
  }

  lemma PrependSpelled(t: Table, c: Chunk, others: seq<Chunk>, e: Ending, argv: seq<string>)
    requires Write(c) <= argv && argv[|Write(c)|..] == WriteAll(others) + WriteEnding(e)
    ensures argv == WriteAll([c] + others) + WriteEnding(e)
  {
    hide Write, WriteEnding;
    assert ([c] + others)[1..] == others;
    assert argv == argv[..|Write(c)|] + argv[|Write(c)|..];
  }

  lemma NothingWritten(t: Table)
    ensures EndingOk(t, Done) && WriteEnding(Done) == [] && WriteAll([]) == []
  {
  }

  lemma TerminatedOk(t: Table, rest: seq<string>)
    ensures EndingOk(t, Terminated(rest)) && WriteEnding(Terminated(rest)) == ["--"] + rest
  {
  }

  lemma PositionalOk(t: Table, text: string)
    requires text != "--" && !IsLong(text) && !IsShort(text)
    ensures Writable(t, Positional(text)) && Write(Positional(text)) == [text]
  {
  }
}
