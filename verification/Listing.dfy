/** Bounded text and bounded listings of the architecture prompt material. */
module Listing {
  import opened Common
  import opened Decimals

  function Notice(): string { "[Architecture overview truncated for prompt budget.]" }

  /** The text, or as much of it as leaves room for the truncation notice; and whether it was cut. */
  function BoundedText(text: string, limit: nat): (string, bool) {
    if |text| <= limit then (text, false)
    else if limit <= |Notice()| then (Notice()[..limit], true)
    else (text[..limit - |Notice()| - 1] + "\n" + Notice(), true)
  }

  /** A cut text fills its limit exactly: nothing shorter is ever returned for a text that does not fit. */
  lemma BoundedTextExact(text: string, limit: nat)
    ensures var (r, cut) := BoundedText(text, limit);
            (cut <==> |text| > limit) && (!cut ==> r == text) && (cut ==> |r| == limit)
  {
  }

  function Join(lines: seq<string>): string {
    if lines == [] then ""
    else if |lines| == 1 then lines[0]
    else Join(lines[..|lines| - 1]) + "\n" + lines[|lines| - 1]
  }

  function Total(lines: seq<string>): nat {
    if lines == [] then 0 else Total(lines[..|lines| - 1]) + |lines[|lines| - 1]|
  }

  lemma {:induction false} JoinLength(lines: seq<string>)
    requires lines != []
    ensures |Join(lines)| == Total(lines) + |lines| - 1
    decreases |lines|
  {
    if |lines| > 1 { JoinLength(lines[..|lines| - 1]); } else { assert Total(lines[..0]) == 0; }
  }

  /** The note that stands for `n` lines left out: `[n more ...]`. */
  function More(n: nat, what: string): string { "[" + Decimal(n) + what }

  /** The listing with its first `count` lines. */
  function Shown(header: string, lines: seq<string>, what: string, count: nat): string
    requires count <= |lines|
  {
    if count == |lines| then header + Join(lines)
    else header + Join(lines[..count] + [More(|lines| - count, what)])
  }

  /** The longest listing of at most `count` lines that fits the budget. */
  function Longest(header: string, lines: seq<string>, what: string, budget: int, count: nat): string
    requires count <= |lines|
  {
    if |Shown(header, lines, what, count)| <= budget then Shown(header, lines, what, count)
    else if count == 0 then "" else Longest(header, lines, what, budget, count - 1)
  }

  function Fit(header: string, lines: seq<string>, what: string, budget: int): string {
    if lines == [] then "" else Longest(header, lines, what, budget, |lines|)
  }

  lemma ShownLength(header: string, lines: seq<string>, what: string, count: nat)
    requires count <= |lines| && lines != []
    ensures |Shown(header, lines, what, count)|
            == |header| + Total(lines[..count])
               + if count == |lines| then |lines| - 1 else count + |More(|lines| - count, what)|
  {
    hide More;
    if count == |lines| {
      assert lines[..count] == lines;
      JoinLength(lines);
    } else {
      var all := lines[..count] + [More(|lines| - count, what)];
      JoinLength(all);
      assert all[..|all| - 1] == lines[..count];
    }
  }

  lemma {:induction false} LongestFits(header: string, lines: seq<string>, what: string, budget: int, count: nat)
    requires count <= |lines| && lines != []
    ensures var r := Longest(header, lines, what, budget, count);
            || (r == "" && forall k :: 0 <= k <= count ==> |Shown(header, lines, what, k)| > budget)
            || exists k :: 0 <= k <= count && r == Shown(header, lines, what, k) && |r| <= budget
                           && forall j :: k < j <= count ==> |Shown(header, lines, what, j)| > budget
  {
    hide Shown;
    if |Shown(header, lines, what, count)| > budget && count > 0 {
      LongestFits(header, lines, what, budget, count - 1);
    }
  }

  /** Never over budget, complete exactly when the complete listing fits, and otherwise as long as it can be. */
  lemma FitExact(header: string, lines: seq<string>, what: string, budget: int)
    requires lines != []
    ensures var r := Fit(header, lines, what, budget);
            && (r == "" || |r| <= budget)
            && (|header + Join(lines)| <= budget ==> r == header + Join(lines))
            && (header != "" ==>
                  (r == "" <==> forall k :: 0 <= k <= |lines| ==> |Shown(header, lines, what, k)| > budget))
            && (r != "" ==> exists k :: 0 <= k <= |lines| && r == Shown(header, lines, what, k)
                                        && forall j :: k < j <= |lines| ==> |Shown(header, lines, what, j)| > budget)
  {
    LongestFits(header, lines, what, budget, |lines|);
    assert Shown(header, lines, what, |lines|) == header + Join(lines);
    assert forall k :: 0 <= k <= |lines| ==> |Shown(header, lines, what, k)| >= |header|;
    hide Shown, Longest, Join;
  }

  lemma LongestStep(header: string, lines: seq<string>, what: string, budget: int, count: nat)
    requires count < |lines|
    ensures |Shown(header, lines, what, count + 1)| > budget ==>
              Longest(header, lines, what, budget, count + 1) == Longest(header, lines, what, budget, count)
    ensures Shown(header, lines, what, count) == header + Join(lines[..count] + [More(|lines| - count, what)])
    ensures Longest(header, lines, what, budget, count)
            == if |Shown(header, lines, what, count)| <= budget then Shown(header, lines, what, count)
               else if count == 0 then "" else Longest(header, lines, what, budget, count - 1)
  {
  }

  lemma LongestFull(header: string, lines: seq<string>, what: string, budget: int)
    requires lines != []
    ensures Shown(header, lines, what, |lines|) == header + Join(lines)
    ensures |header + Join(lines)| <= budget ==> Longest(header, lines, what, budget, |lines|) == header + Join(lines)
  {
  }

  /** The listing, with line lengths summed once and the count lowered until header, lines and note fit. */
  method FitListing(header: string, lines: seq<string>, what: string, budget: int) returns (text: string)
    ensures text == Fit(header, lines, what, budget)
  {
    hide Shown, Longest;
    if lines == [] { return ""; }
    var sums := [0];
    for i := 0 to |lines|
      invariant |sums| == i + 1
      invariant forall k :: 0 <= k <= i ==> sums[k] == Total(lines[..k])
    {
      assert lines[..i + 1][..i] == lines[..i];
      sums := sums + [sums[i] + |lines[i]|];
    }
    ShownLength(header, lines, what, |lines|);
    LongestFull(header, lines, what, budget);
    if |header| + sums[|lines|] + |lines| - 1 <= budget { return header + Join(lines); }
    var count: nat := |lines|;
    hide Total, More, Join;
    while count > 0
      invariant count <= |lines|
      invariant Fit(header, lines, what, budget) == Longest(header, lines, what, budget, count)
      invariant |Shown(header, lines, what, count)| > budget
    {
      count := count - 1;
      var more := More(|lines| - count, what);
      ShownLength(header, lines, what, count);
      LongestStep(header, lines, what, budget, count);
      if |header| + sums[count] + count + |more| <= budget { return header + Join(lines[..count] + [more]); }
    }
    LongestStep(header, lines, what, budget, 0);
    return "";
  }
}
