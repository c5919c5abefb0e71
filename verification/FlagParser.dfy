/** The `gh` flag tokenizer of the coder CI guard, and every spelling of the commands it reads. */
module FlagParser {
  import opened Common

  datatype Flag = Flag(name: string, value: Option<string>)

  /** Positionals, flags in order, and each positional's index in argv. */
  datatype Parsed = Parsed(positionals: seq<string>, flags: seq<Flag>, indexes: seq<nat>)

  /** Which flags take a value. */
  datatype Table = Table(shorts: set<char>, longs: set<string>)

  function Cat(a: Parsed, b: Parsed): Parsed {
    Parsed(a.positionals + b.positionals, a.flags + b.flags, a.indexes + b.indexes)
  }

  function Flags(flags: seq<Flag>): Parsed { Parsed([], flags, []) }

  // --- The tokenizer ---------------------------------------------------------------------

  /** Position of the first `=`, or the length. */
  function EqualsAt(s: string): (n: nat)
    ensures n <= |s|
    ensures n < |s| ==> s[n] == '='
    ensures forall i :: 0 <= i < n ==> s[i] != '='
  {
    if s == "" || s[0] == '=' then 0 else 1 + EqualsAt(s[1..])
  }

  /** The next token, or the empty string when there is none. */
  function NextValue(rest: seq<string>): string {
    if rest == [] then "" else rest[0]
  }

  function Tail<T>(xs: seq<T>): (r: seq<T>)
    ensures |r| == if xs == [] then 0 else |xs| - 1
  {
    if xs == [] then [] else xs[1..]
  }

  /** Flags of a short group, and whether the last of them took the next token. */
  function ParseGroup(t: Table, group: string, rest: seq<string>): (seq<Flag>, bool) {
    if group == "" then ([], false)
    else if group[0] !in t.shorts then
      var (flags, took) := ParseGroup(t, group[1..], rest);
      ([Flag([group[0]], None)] + flags, took)
    else
      var value := if group[1..] != "" && group[1] == '=' then group[2..] else group[1..];
      if value != "" then ([Flag([group[0]], Some(value))], false)
      else ([Flag([group[0]], Some(NextValue(rest)))], true)
  }

  function Range(base: nat, count: nat): seq<nat> {
    seq(count, i requires 0 <= i < count => base + i)
  }

  predicate IsLong(token: string) { |token| >= 2 && token[0] == '-' && token[1] == '-' }
  predicate IsShort(token: string) { |token| >= 2 && token[0] == '-' && token[1] != '-' }

  /** What one token before any `--` contributes, and whether it took the next token as a value. */
  function Token(t: Table, token: string, rest: seq<string>, base: nat): (Parsed, bool) {
    if IsLong(token) then
      var body := token[2..];
      var eq := EqualsAt(body);
      if eq < |body| then (Flags([Flag(body[..eq], Some(body[eq + 1..]))]), false)
      else if body in t.longs then (Flags([Flag(body, Some(NextValue(rest)))]), true)
      else (Flags([Flag(body, None)]), false)
    else if IsShort(token) then
      var (flags, took) := ParseGroup(t, token[1..], rest);
      (Flags(flags), took)
    else (Parsed([token], [], [base]), false)
  }

  /** The meaning of `argv`, whose first token is number `base` of the whole command. */
  function Parse(t: Table, argv: seq<string>, base: nat): Parsed
    decreases |argv|
  {
    if argv == [] then Parsed([], [], [])
    else if argv[0] == "--" then Parsed(argv[1..], [], Range(base + 1, |argv| - 1))
    else
      var (piece, took) := Token(t, argv[0], argv[1..], base);
      Cat(piece, if took then Parse(t, Tail(argv[1..]), base + 2) else Parse(t, argv[1..], base + 1))
  }

  /** One short group, consumed a character at a time. */
  method ReadGroup(t: Table, group: string, argv: seq<string>, next: nat) returns (flags: seq<Flag>, index: nat)
    requires next <= |argv|
    ensures var (expected, took) := ParseGroup(t, group, argv[next..]);
            flags == expected && index == next + if took then 1 else 0
  {
    flags, index := [], next;
    var left := group;
    while left != ""
      invariant var (expected, took) := ParseGroup(t, group, argv[next..]);
                var (later, took') := ParseGroup(t, left, argv[next..]);
                expected == flags + later && took == took' && index == next
      decreases |left|
    {
      var c := left[0];
      if c !in t.shorts {
        flags, left := flags + [Flag([c], None)], left[1..];
      } else {
        var value := left[1..];
        if value != "" && value[0] == '=' { value := value[1..]; }
        if value != "" {
          flags := flags + [Flag([c], Some(value))];
        } else {
          flags := flags + [Flag([c], Some(if index < |argv| then argv[index] else ""))];
          index := index + 1;
        }
        return;
      }
    }
  }

  /** The token at `at` and, when it takes a value, the one after it. */
  method ReadToken(t: Table, argv: seq<string>, at: nat) returns (piece: Parsed, index: nat)
    requires at < |argv|
    ensures var (expected, took) := Token(t, argv[at], argv[at + 1..], at);
            piece == expected && index == at + if took then 2 else 1
  {
    hide ParseGroup, EqualsAt;
    var token := argv[at];
    index := at + 1;
    if IsLong(token) {
      var body := token[2..];
      var eq := EqualsAt(body);
      if eq < |body| {
        piece := Flags([Flag(body[..eq], Some(body[eq + 1..]))]);
      } else if body in t.longs {
        piece := Flags([Flag(body, Some(if index < |argv| then argv[index] else ""))]);
        index := index + 1;
      } else {
        piece := Flags([Flag(body, None)]);
      }
    } else if IsShort(token) {
      var group;
      group, index := ReadGroup(t, token[1..], argv, index);
      piece := Flags(group);
    } else {
      piece := Parsed([token], [], [at]);
    }
  }

  function From(argv: seq<string>, index: nat): seq<string> {
    if index <= |argv| then argv[index..] else []
  }

  lemma CatAssociates(a: Parsed, b: Parsed, c: Parsed)
    ensures Cat(Cat(a, b), c) == Cat(a, Cat(b, c))
  {
  }

  lemma CatNothing(a: Parsed)
    ensures Cat(a, Parsed([], [], [])) == a && Cat(Parsed([], [], []), a) == a
  {
  }

  /** Splits argv into positionals and flags with an index that runs over it. */
  method ParseFlags(t: Table, argv: seq<string>) returns (result: Parsed)
    ensures result == Parse(t, argv, 0)
  {
    hide Token, Cat;
    result := Parsed([], [], []);
    var index := 0;
    assert argv[0..] == argv;
    CatNothing(Parse(t, argv, 0));
    while index < |argv|
      invariant Cat(result, Parse(t, From(argv, index), index)) == Parse(t, argv, 0)
      decreases |argv| - index
    {
      assert argv[index..][1..] == argv[index + 1..];
      if argv[index] == "--" {
        result := Cat(result, Parsed(argv[index + 1..], [], Range(index + 1, |argv| - index - 1)));
        return;
      }
      var piece, next := ReadToken(t, argv, index);
      assert Tail(argv[index + 1..]) == From(argv, index + 2);
      CatAssociates(result, piece, Parse(t, From(argv, next), next));
      result, index := Cat(result, piece), next;
    }
    CatNothing(result);
  }
}
