/** Which `gh` command lines the coder CI guard refuses, whatever way they are spelled. */
module CommandGuard {
  import opened Common
  import opened FlagParser
  import opened FlagSpellings

  const MAIN_TABLE := Table({'R'}, {"repo"})
  const API_TABLE := Table(
    {'X', 'f', 'F', 'H', 'q', 't', 'p'},
    {"method", "raw-field", "field", "header", "input", "jq", "template", "hostname", "cache", "preview"})

  datatype Trigger = WorkflowRun | RunRerun | ApiPost(endpoint: string)

  /** The dispatch-endpoint pattern and upper-casing, as the classifier uses them. */
  datatype Text = Text(dispatches: string -> bool, upper: string -> string)

  predicate IsMethodFlag(f: Flag) { f.name == "X" || f.name == "method" }

  predicate IsBodyFlag(f: Flag) {
    !IsMethodFlag(f) && f.name in {"f", "F", "raw-field", "field", "input"}
  }

  predicate HasBody(flags: seq<Flag>) { exists i :: 0 <= i < |flags| && IsBodyFlag(flags[i]) }

  /** The last method flag's value. */
  function MethodOf(flags: seq<Flag>): Option<string> {
    if flags == [] then None
    else
      var last := flags[|flags| - 1];
      if IsMethodFlag(last) then Some(if last.value.Some? then last.value.value else "")
        else MethodOf(flags[..|flags| - 1])
  }

  /** A dispatch endpoint reached with POST, named outright or implied by a body. */
  function ApiVerdict(x: Text, p: Parsed): Option<Trigger> {
    if p.positionals == [] || !x.dispatches(p.positionals[0]) then None
    else
      var chosen := MethodOf(p.flags);
      var effective :=
        if chosen.Some? && chosen.value != "" then chosen.value else if HasBody(p.flags) then "POST" else "GET";
      if x.upper(effective) == "POST" then Some(ApiPost(p.positionals[0])) else None
  }

  /** The trigger a `gh` command line names; the first index always lies in argv (`IndexesPoint`). */
  function Verdict(x: Text, argv: seq<string>): Option<Trigger> {
    var p := Parse(MAIN_TABLE, argv, 0);
    if p.positionals == [] then None
    else if |p.positionals| >= 2 && p.positionals[..2] == ["workflow", "run"] then Some(WorkflowRun)
    else if |p.positionals| >= 2 && p.positionals[..2] == ["run", "rerun"] then Some(RunRerun)
    else if p.positionals[0] == "api" && |p.indexes| > 0 && p.indexes[0] < |argv| then
      ApiVerdict(x, Parse(API_TABLE, argv[p.indexes[0] + 1..], 0))
    else None
  }

  // --- The classifier, flag by flag ------------------------------------------------------------

  method ClassifyApi(x: Text, argv: seq<string>) returns (verdict: Option<Trigger>)
    ensures verdict == ApiVerdict(x, Parse(API_TABLE, argv, 0))
  {
    hide Parse;
    var parsed := ParseFlags(API_TABLE, argv);
    var flags := parsed.flags;
    var chosen: Option<string> := None;
    var hasBody := false;
    for i := 0 to |flags|
      invariant chosen == MethodOf(flags[..i])
      invariant hasBody == HasBody(flags[..i])
    {
      assert flags[..i + 1][..i] == flags[..i];
      if flags[i].name in {"X", "method"} {
        chosen := Some(if flags[i].value.Some? then flags[i].value.value else "");
      } else if flags[i].name in {"f", "F", "raw-field", "field", "input"} {
        hasBody := true;
        assert IsBodyFlag(flags[..i + 1][i]);
      }
      assert HasBody(flags[..i + 1]) == (HasBody(flags[..i]) || IsBodyFlag(flags[i])) by { BodyGrows(flags, i); }
    }
    assert flags[..|flags|] == flags;
    if parsed.positionals == [] || !x.dispatches(parsed.positionals[0]) { return None; }
    var effective :=
      if chosen.Some? && chosen.value != "" then chosen.value else if hasBody then "POST" else "GET";
    if x.upper(effective) != "POST" { return None; }
    return Some(ApiPost(parsed.positionals[0]));
  }

  lemma BodyGrows(flags: seq<Flag>, i: nat)
    requires i < |flags|
    ensures HasBody(flags[..i + 1]) == (HasBody(flags[..i]) || IsBodyFlag(flags[i]))
  {
    if HasBody(flags[..i]) {
      var k :| 0 <= k < i && IsBodyFlag(flags[..i][k]);
      assert IsBodyFlag(flags[..i + 1][k]);
    }
    if IsBodyFlag(flags[i]) { assert IsBodyFlag(flags[..i + 1][i]); }
    if HasBody(flags[..i + 1]) {
      var k :| 0 <= k < i + 1 && IsBodyFlag(flags[..i + 1][k]);
      if k < i { assert IsBodyFlag(flags[..i][k]); }
    }
  }

  method ClassifyCiTrigger(x: Text, argv: seq<string>) returns (verdict: Option<Trigger>)
    ensures verdict == Verdict(x, argv)
  {
    hide Parse, ApiVerdict;
    var parsed := ParseFlags(MAIN_TABLE, argv);
    if parsed.positionals == [] { return None; }
    if |parsed.positionals| >= 2 && parsed.positionals[..2] == ["workflow", "run"] { return Some(WorkflowRun); }
    if |parsed.positionals| >= 2 && parsed.positionals[..2] == ["run", "rerun"] { return Some(RunRerun); }
    if parsed.positionals[0] != "api" { return None; }
    IndexesPoint(MAIN_TABLE, argv, 0);
    verdict := ClassifyApi(x, argv[parsed.indexes[0] + 1..]);
  }

  // --- One verdict for every spelling ----------------------------------------------------------

  /** What a `gh api` flag means to the guard; `-X` and `--method`, or `-f` and `--raw-field`, mean the same. */
  datatype Role = Chooses(verb: string) | CarriesBody

  function RolesOf(flags: seq<Flag>): seq<Role> {
    if flags == [] then []
    else
      var last := flags[|flags| - 1];
      RolesOf(flags[..|flags| - 1])
      + if IsMethodFlag(last) then [Chooses(if last.value.Some? then last.value.value else "")]
        else if IsBodyFlag(last) then [CarriesBody] else []
  }

  function VerbOf(roles: seq<Role>): Option<string> {
    if roles == [] then None
    else if roles[|roles| - 1].Chooses? then Some(roles[|roles| - 1].verb)
    else VerbOf(roles[..|roles| - 1])
  }

  lemma {:induction false} RolesDecide(flags: seq<Flag>)
    ensures MethodOf(flags) == VerbOf(RolesOf(flags)) && HasBody(flags) == (CarriesBody in RolesOf(flags))
    decreases |flags|
  {
    if flags != [] {
      var n := |flags| - 1;
      RolesDecide(flags[..n]);
      BodyGrows(flags, n);
      assert flags[..n + 1] == flags;
      var roles := RolesOf(flags);
      if roles != RolesOf(flags[..n]) { assert roles[..|roles| - 1] == RolesOf(flags[..n]); }
    }
  }

  ghost predicate NoPositionals(chunks: seq<Chunk>) { forall c :: c in chunks ==> !c.Positional? }

  lemma {:induction false} SaysNoPositionals(chunks: seq<Chunk>, base: nat)
    requires NoPositionals(chunks)
    ensures SaysAll(chunks, base).positionals == [] && SaysAll(chunks, base).indexes == []
    decreases |chunks|
  {
    if chunks != [] { SaysNoPositionals(chunks[1..], base + |Write(chunks[0])|); }
  }

  lemma {:induction false} WriteAppend(chunks: seq<Chunk>, c: Chunk)
    ensures WriteAll(chunks + [c]) == WriteAll(chunks) + Write(c)
    decreases |chunks|
  {
    hide Write;
    if chunks == [] {
      assert [c][1..] == [] && [] + [c] == [c];
    } else {
      WriteAppend(chunks[1..], c);
      assert (chunks + [c])[1..] == chunks[1..] + [c];
    }
  }

  /** Up to and including the first positional, the main table finds exactly that positional. */
  lemma FirstPositional(prefix: seq<Chunk>, word: string, rest: seq<string>)
    requires AllWritable(MAIN_TABLE, prefix) && NoPositionals(prefix) && Writable(MAIN_TABLE, Positional(word))
    ensures var p := Parse(MAIN_TABLE, WriteAll(prefix) + [word] + rest, 0);
            p.positionals != [] && p.positionals[0] == word && p.indexes != [] && p.indexes[0] == |WriteAll(prefix)|
  {
    hide Parse, Writable;
    var n := |WriteAll(prefix)|;
    assert WriteAll(prefix) + [word] + rest == WriteAll(prefix) + ([word] + rest);
    ChunksRead(MAIN_TABLE, prefix, [word] + rest, 0);
    SaysNoPositionals(prefix, 0);
    ChunkReads(MAIN_TABLE, Positional(word), rest, n);
  }

  /** A whole command line and what it says. */
  function Line(chunks: seq<Chunk>, e: Ending): seq<string> { WriteAll(chunks) + WriteEnding(e) }
  function Said(chunks: seq<Chunk>, e: Ending): Parsed { Cat(SaysAll(chunks, 0), SaysEnding(e, |WriteAll(chunks)|)) }
  function ApiLine(prefix: seq<Chunk>, rest: seq<string>): seq<string> { WriteAll(prefix) + ["api"] + rest }

  /** `gh <flags> api <anything>` is judged on its own argv, however both parts are spelled. */
  lemma ApiCommandVerdict(x: Text, prefix: seq<Chunk>, chunks: seq<Chunk>, e: Ending)
    requires AllWritable(MAIN_TABLE, prefix) && NoPositionals(prefix)
    requires AllWritable(API_TABLE, chunks) && EndingOk(API_TABLE, e)
    ensures Verdict(x, ApiLine(prefix, Line(chunks, e))) == ApiVerdict(x, Said(chunks, e))
  {
    hide Parse, ApiVerdict, EndingOk, WriteEnding, SaysEnding, Cat;
    var rest := Line(chunks, e);
    var argv := ApiLine(prefix, rest);
    FirstPositional(prefix, "api", rest);
    var p := Parse(MAIN_TABLE, argv, 0);
    assert p.positionals[0] != "workflow" && p.positionals[0] != "run";
    if |p.positionals| >= 2 { assert p.positionals[..2][0] == "api"; }
    assert argv[p.indexes[0] + 1..] == rest;
    SpellingsReadBack(API_TABLE, chunks, e);
  }

  /** Two spellings that name the same endpoint and give their flags the same roles get one verdict. */
  lemma ApiSpellingsAgree(x: Text, prefix: seq<Chunk>, prefix': seq<Chunk>,
                          chunks: seq<Chunk>, e: Ending, chunks': seq<Chunk>, e': Ending)
    requires AllWritable(MAIN_TABLE, prefix) && NoPositionals(prefix)
    requires AllWritable(MAIN_TABLE, prefix') && NoPositionals(prefix')
    requires AllWritable(API_TABLE, chunks) && EndingOk(API_TABLE, e)
    requires AllWritable(API_TABLE, chunks') && EndingOk(API_TABLE, e')
    requires Said(chunks, e).positionals == Said(chunks', e').positionals
    requires RolesOf(Said(chunks, e).flags) == RolesOf(Said(chunks', e').flags)
    ensures Verdict(x, ApiLine(prefix, Line(chunks, e))) == Verdict(x, ApiLine(prefix', Line(chunks', e')))
  {
    hide Parse, EndingOk, Said, Line, ApiLine, Verdict, RolesOf, MethodOf, HasBody, AllWritable, NoPositionals;
    ApiCommandVerdict(x, prefix, chunks, e);
    ApiCommandVerdict(x, prefix', chunks', e');
    RolesDecide(Said(chunks, e).flags);
    RolesDecide(Said(chunks', e').flags);
  }

  /** Outside `api` only the positionals count: flags, and the way they are written, change nothing. */
  lemma PlainSpellingsAgree(x: Text, chunks: seq<Chunk>, e: Ending, chunks': seq<Chunk>, e': Ending)
    requires AllWritable(MAIN_TABLE, chunks) && EndingOk(MAIN_TABLE, e)
    requires AllWritable(MAIN_TABLE, chunks') && EndingOk(MAIN_TABLE, e')
    requires Said(chunks, e).positionals == Said(chunks', e').positionals
    requires Said(chunks, e).positionals == [] || Said(chunks, e).positionals[0] != "api"
    ensures Verdict(x, Line(chunks, e)) == Verdict(x, Line(chunks', e'))
  {
    hide Parse, EndingOk, WriteEnding, SaysEnding, Cat, ApiVerdict;
    SpellingsReadBack(MAIN_TABLE, chunks, e);
    SpellingsReadBack(MAIN_TABLE, chunks', e');
  }

  // --- Which verdict ---------------------------------------------------------------------------

  /** A written command line triggers by its first two words, or by an `api` command; nothing else is refused. */
  lemma PlainVerdict(x: Text, chunks: seq<Chunk>, e: Ending)
    requires AllWritable(MAIN_TABLE, chunks) && EndingOk(MAIN_TABLE, e)
    ensures var words, verdict := Said(chunks, e).positionals, Verdict(x, Line(chunks, e));
            && (verdict == Some(WorkflowRun) <==> |words| >= 2 && words[0] == "workflow" && words[1] == "run")
            && (verdict == Some(RunRerun) <==> |words| >= 2 && words[0] == "run" && words[1] == "rerun")
            && (verdict.Some? && verdict.value.ApiPost? ==> |words| >= 1 && words[0] == "api")
  {
    SpellingsReadBack(MAIN_TABLE, chunks, e);
    hide Parse, EndingOk, WriteEnding, SaysEnding, Cat, ApiVerdict;
    ApiNeverPlain(x, Line(chunks, e));
    var words := Said(chunks, e).positionals;
    if |words| >= 2 { assert words[..2] == [words[0], words[1]]; }
  }

  lemma ApiNeverPlain(x: Text, argv: seq<string>)
    ensures forall p :: ApiVerdict(x, p) == None || ApiVerdict(x, p).value.ApiPost?
  {
  }

  /** Flag `i` is the last that names a method. */
  ghost predicate LastMethod(flags: seq<Flag>, i: nat) {
    && i < |flags| && flags[i].name in {"X", "method"}
    && forall j :: i < j < |flags| ==> flags[j].name !in {"X", "method"}
  }

  /** The last method flag names this verb, and it is not empty. */
  ghost predicate Names(flags: seq<Flag>, verb: string) {
    verb != "" && exists i: nat :: LastMethod(flags, i) && flags[i].value == Some(verb)
  }

  ghost predicate GivesBody(flags: seq<Flag>) {
    exists i :: 0 <= i < |flags| && flags[i].name in {"f", "F", "raw-field", "field", "input"}
  }

  /** The verb of a request: the one named last, else POST with a body and GET without. */
  ghost predicate IsVerb(flags: seq<Flag>, verb: string) {
    if exists named :: Names(flags, named) then Names(flags, verb)
    else if GivesBody(flags) then verb == "POST" else verb == "GET"
  }

  lemma {:induction false} MethodMeans(flags: seq<Flag>, verb: string)
    requires verb != ""
    ensures MethodOf(flags) == Some(verb) <==> Names(flags, verb)
    decreases |flags|
  {
    if flags != [] {
      var n := |flags| - 1;
      if IsMethodFlag(flags[n]) {
        assert LastMethod(flags, n);
        forall i: nat | LastMethod(flags, i) ensures i == n {}
      } else {
        MethodMeans(flags[..n], verb);
        forall i: nat ensures LastMethod(flags, i) <==> LastMethod(flags[..n], i) {}
      }
    }
  }

  lemma VerbMeans(flags: seq<Flag>, verb: string)
    ensures var chosen := MethodOf(flags);
            verb == (if chosen.Some? && chosen.value != "" then chosen.value
                     else if HasBody(flags) then "POST" else "GET")
            <==> IsVerb(flags, verb)
  {
    hide MethodOf, Names;
    forall named | named != "" ensures MethodOf(flags) == Some(named) <==> Names(flags, named) {
      MethodMeans(flags, named);
    }
    NamedNotEmpty(flags);
    assert HasBody(flags) <==> GivesBody(flags) by { BodyMeans(flags); }
    hide HasBody, GivesBody;
  }

  lemma NamedNotEmpty(flags: seq<Flag>)
    ensures !Names(flags, "")
  {
  }

  lemma BodyMeans(flags: seq<Flag>)
    ensures HasBody(flags) <==> GivesBody(flags)
  {
    if GivesBody(flags) {
      var i :| 0 <= i < |flags| && flags[i].name in {"f", "F", "raw-field", "field", "input"};
      assert IsBodyFlag(flags[i]);
    }
  }

  /** An `api` command triggers exactly when its endpoint dispatches and its verb, in any case, is POST. */
  lemma ApiVerdictExact(x: Text, prefix: seq<Chunk>, chunks: seq<Chunk>, e: Ending, endpoint: string)
    requires AllWritable(MAIN_TABLE, prefix) && NoPositionals(prefix)
    requires AllWritable(API_TABLE, chunks) && EndingOk(API_TABLE, e)
    ensures var said, verdict := Said(chunks, e), Verdict(x, ApiLine(prefix, Line(chunks, e)));
            && (verdict == Some(ApiPost(endpoint))
                <==> && |said.positionals| >= 1 && said.positionals[0] == endpoint && x.dispatches(endpoint)
                     && exists verb :: IsVerb(said.flags, verb) && x.upper(verb) == "POST")
            && verdict != Some(WorkflowRun) && verdict != Some(RunRerun)
  {
    ApiCommandVerdict(x, prefix, chunks, e);
    var flags := Said(chunks, e).flags;
    var chosen := MethodOf(flags);
    var verb := if chosen.Some? && chosen.value != "" then chosen.value else if HasBody(flags) then "POST" else "GET";
    forall other ensures other == verb <==> IsVerb(flags, other) { VerbMeans(flags, other); }
    hide IsVerb, Said, Line, ApiLine, Verdict, MethodOf, HasBody, EndingOk, AllWritable, NoPositionals;
  }

  // --- Which flags take a value ------------------------------------------------------------------

  /** After `--name`, a separate word belongs to the flag exactly for the value flags `gh api` has. */
  lemma ApiLongFlags(name: string, value: string, endpoint: string)
    requires name != "" && NoEquals(name)
    requires Writable(API_TABLE, Positional(value)) && Writable(API_TABLE, Positional(endpoint))
    ensures Parse(API_TABLE, ["--" + name, value, endpoint], 0).positionals
            == if name in {"method", "raw-field", "field", "header", "input", "jq", "template", "hostname", "cache",
                           "preview"}
               then [endpoint] else [value, endpoint]
  {
    LongFlag(API_TABLE, name, value, endpoint);
    hide Parse, Writable;
  }

  lemma ApiShortFlags(c: char, value: string, endpoint: string)
    requires c != '-' && Writable(API_TABLE, Positional(value)) && Writable(API_TABLE, Positional(endpoint))
    ensures Parse(API_TABLE, [['-', c], value, endpoint], 0).positionals
            == if c in {'X', 'f', 'F', 'H', 'q', 't', 'p'} then [endpoint] else [value, endpoint]
  {
    ShortFlag(API_TABLE, c, value, endpoint);
    hide Parse, Writable;
  }

  /** Before the command word only `-R` and `--repo` take a value. */
  lemma MainFlags(name: string, c: char, value: string, word: string)
    requires name != "" && NoEquals(name) && c != '-'
    requires Writable(MAIN_TABLE, Positional(value)) && Writable(MAIN_TABLE, Positional(word))
    ensures Parse(MAIN_TABLE, ["--" + name, value, word], 0).positionals
            == if name == "repo" then [word] else [value, word]
    ensures Parse(MAIN_TABLE, [['-', c], value, word], 0).positionals == if c == 'R' then [word] else [value, word]
  {
    LongFlag(MAIN_TABLE, name, value, word);
    ShortFlag(MAIN_TABLE, c, value, word);
    hide Parse, Writable;
  }

  lemma OneMore(c: Chunk, rest: seq<Chunk>, base: nat)
    ensures WriteAll([c] + rest) == Write(c) + WriteAll(rest)
    ensures SaysAll([c] + rest, base).positionals
            == Says(c, base).positionals + SaysAll(rest, base + |Write(c)|).positionals
  {
    hide Says, Write;
    assert ([c] + rest)[1..] == rest;
  }

  lemma LastChunk(c: Chunk, base: nat)
    ensures WriteAll([c]) == Write(c) && SaysAll([c], base).positionals == Says(c, base).positionals
  {
    hide Says, Write;
    assert [c][1..] == [];
  }

  lemma TwoChunks(t: Table, a: Chunk, b: Chunk)
    requires Writable(t, a) && Writable(t, b)
    ensures Parse(t, Write(a) + Write(b), 0).positionals == Says(a, 0).positionals + Says(b, |Write(a)|).positionals
  {
    hide Writable, Says, Write, WriteAll, SaysAll, Parse;
    assert [a] + [b] == [a, b];
    OneMore(a, [b], 0);
    LastChunk(b, |Write(a)|);
    ReadsAs(t, [a, b]);
  }

  lemma ThreeChunks(t: Table, a: Chunk, b: Chunk, c: Chunk)
    requires Writable(t, a) && Writable(t, b) && Writable(t, c)
    ensures Parse(t, Write(a) + (Write(b) + Write(c)), 0).positionals
            == Says(a, 0).positionals + (Says(b, |Write(a)|).positionals
                                         + Says(c, |Write(a)| + |Write(b)|).positionals)
  {
    hide Writable, Says, Write, WriteAll, SaysAll, Parse;
    assert [a] + [b, c] == [a, b, c] && [b] + [c] == [b, c];
    OneMore(a, [b, c], 0);
    OneMore(b, [c], |Write(a)|);
    LastChunk(c, |Write(a)| + |Write(b)|);
    ReadsAs(t, [a, b, c]);
  }

  lemma LongFlag(t: Table, name: string, value: string, word: string)
    requires name != "" && NoEquals(name) && Writable(t, Positional(value)) && Writable(t, Positional(word))
    ensures Parse(t, ["--" + name, value, word], 0).positionals
            == if name in t.longs then [word] else [value, word]
  {
    if name in t.longs {
      TwoChunks(t, LongSeparate(name, value), Positional(word));
      assert ["--" + name, value] + [word] == ["--" + name, value, word];
    } else {
      ThreeChunks(t, LongBare(name), Positional(value), Positional(word));
      assert ["--" + name] + ([value] + [word]) == ["--" + name, value, word];
    }
  }

  lemma ShortFlag(t: Table, c: char, value: string, word: string)
    requires c != '-' && Writable(t, Positional(value)) && Writable(t, Positional(word))
    ensures Parse(t, [['-', c], value, word], 0).positionals == if c in t.shorts then [word] else [value, word]
  {
    assert "-" + "" + ([c] + "") == ['-', c] && "-" + [c] + "" == ['-', c];
    if c in t.shorts {
      TwoChunks(t, Shorts("", Separate(c, false, value)), Positional(word));
      assert [['-', c], value] + [word] == [['-', c], value, word];
    } else {
      ThreeChunks(t, Shorts([c], Bare), Positional(value), Positional(word));
      assert [c] + "" == [c];
      assert [['-', c]] + ([value] + [word]) == [['-', c], value, word];
    }
  }

  lemma ReadsAs(t: Table, chunks: seq<Chunk>)
    requires AllWritable(t, chunks)
    ensures Parse(t, WriteAll(chunks), 0).positionals == SaysAll(chunks, 0).positionals
  {
    SpellingsReadBack(t, chunks, Done);
    assert WriteAll(chunks) + [] == WriteAll(chunks);
    hide Parse, SaysAll;
  }
}
