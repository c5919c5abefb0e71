/** Rendering stays within its budget, keeps every identity, and is complete exactly when it fits. */
module RenderBudget {
  import opened Common
  import opened Decimals
  import opened Listing
  import opened Renderer

  /** The index is the full one exactly when the full one fits, and never over budget. */
  lemma MemberIndexExact(lines: seq<string>, budget: int)
    ensures var r := MemberIndex(lines, budget);
            && (r == "" || |r| <= budget)
            && (r == FullMembers(lines) <==> lines == [] || |FullMembers(lines)| <= budget)
  {
    HeadersStart();
    hide MemberHeader, MemberNotice, Fit, Join, Shown;
    if lines != [] { FitExact(MemberHeader(), lines, " more members]", budget); }
  }

  /** The overview's body when nothing is cut. */
  function Body(s: Snapshot): string {
    if s.content.Some? && s.availability.Available? then s.sanitized else Omission()
  }

  lemma WholeLength(identity: string, index: string, body: string, detail: string)
    ensures |Whole(identity, index, body, detail)|
            == |identity| + |index| + |OverviewPrefix()| + |body| + |detail| + 1
    ensures identity <= Whole(identity, index, body, detail)
  {
    hide OverviewPrefix;
  }

  /** All four ways the overview can end. */
  lemma OverviewCases(s: Snapshot, max: nat, index: string, detail: string, degraded: bool)
    ensures var left, room := Left(max, s.identity, index, detail), |Status()|;
            WithOverview(s, max, index, detail, degraded)
            == if left < |Omission()| then (s.identity, true)
               else if |Body(s)| <= left then (Whole(s.identity, index, Body(s), detail), degraded)
               else if detail != "" && left - room >= |Omission()| then
                 (Whole(s.identity + Status(), index, BoundedText(s.sanitized, left - room).0, detail), true)
               else (s.identity + Status(), true)
  {
    OmissionLength();
    StatusLength();
    hide Omission, Status, OverviewPrefix, Whole, BoundedText;
    var left := Left(max, s.identity, index, detail);
    if left >= |Omission()| {
      if HasOverview(s) {
        var limit :=
          if detail != "" && |s.sanitized| > left && left - |Status()| >= |Omission()| then left - |Status()| else left;
        BoundedTextExact(s.sanitized, limit);
        WholeLength(s.identity, index, BoundedText(s.sanitized, limit).0, detail);
        WholeLength(s.identity + Status(), index, BoundedText(s.sanitized, limit).0, detail);
      } else {
        WholeLength(s.identity, index, Omission(), detail);
      }
    }
  }

  lemma OverviewBounded(s: Snapshot, max: nat, index: string, detail: string, degraded: bool)
    requires |s.identity| <= max
    ensures var r := WithOverview(s, max, index, detail, degraded).0;
            |r| <= max && s.identity <= r
  {
    OverviewCases(s, max, index, detail, degraded);
    OmissionLength();
    StatusLength();
    hide Omission, Status, OverviewPrefix, Whole, BoundedText, WithOverview;
    var left, room := Left(max, s.identity, index, detail), |Status()|;
    WholeLength(s.identity, index, Body(s), detail);
    if left - room >= |Omission()| {
      BoundedTextExact(s.sanitized, left - room);
      var text := BoundedText(s.sanitized, left - room).0;
      WholeLength(s.identity + Status(), index, text, detail);
      PrefixGrows(s.identity, Status(), Whole(s.identity + Status(), index, text, detail));
    }
  }

  lemma PrefixGrows(a: string, b: string, c: string)
    requires a + b <= c
    ensures a <= c
  {
    assert c[..|a|] == (a + b)[..|a|];
  }

  // --- Available snapshots ---------------------------------------------------------------------

  /** Everything there is: identity, sections, overview, members. */
  function Complete(s: Snapshot, lines: seq<string>): string {
    s.identity + (if s.headings == [] then "" else SectionHeader() + Join(s.headings))
    + OverviewPrefix() + Body(s) + (if lines == [] then "" else MemberHeader() + Join(lines)) + "\n"
  }

  /** Everything fits, and would with an overview as short as the reserve: the omission text, and the status line
      beside members when there is content. */
  predicate Fits(s: Snapshot, max: nat, lines: seq<string>) {
    hide Complete, Body, Omission, Status;
    var reserve :=
      |Omission()| + if lines != [] && s.content.Some? && s.content.value != "" then |Status()| else 0;
    |Complete(s, lines)| <= max && |Complete(s, lines)| - |Body(s)| + reserve <= max
  }

  lemma CompleteIsWhole(s: Snapshot, lines: seq<string>)
    ensures Complete(s, lines) == Whole(s.identity, FullSections(s.headings), Body(s), FullMembers(lines))
  {
    hide Body, OverviewPrefix, SectionHeader, MemberHeader, Join;
  }

  lemma FitsMeans(s: Snapshot, max: nat, lines: seq<string>)
    ensures var left := Left(max, s.identity, FullSections(s.headings), FullMembers(lines));
            Fits(s, max, lines) <==> left >= Reserve(s, FullMembers(lines)) && left >= |Body(s)|
  {
    hide Complete, Body, OverviewPrefix, FullSections, FullMembers, Whole, Omission, Status;
    CompleteIsWhole(s, lines);
    WholeLength(s.identity, FullSections(s.headings), Body(s), FullMembers(lines));
    NoMembers(lines);
    if lines != [] { SomeMembers(lines); }
  }

  lemma AvailableBounded(s: Snapshot, max: nat, lines: seq<string>)
    requires |s.identity| <= max
    ensures |RenderAvailable(s, max, lines).0| <= max && s.identity <= RenderAvailable(s, max, lines).0
  {
    hide WithOverview, Left, Reserve, MemberIndex, FullSections, SectionNotice, FullMembers;
    var detail := MemberIndex(lines, max - |s.identity| - 1);
    var smaller := MemberIndex(lines, Left(max, s.identity, SectionNotice(), "") - Reserve(s, detail));
    OverviewBounded(s, max, FullSections(s.headings), detail, detail != FullMembers(lines));
    OverviewBounded(s, max, SectionNotice(), detail, true);
    OverviewBounded(s, max, SectionNotice(), smaller, true);
  }

  lemma LostStaysLost(s: Snapshot, max: nat, index: string, detail: string)
    ensures WithOverview(s, max, index, detail, true).1
  {
    hide WithOverview, Omission, Status, OverviewPrefix, Whole, BoundedText, Body;
    OverviewCases(s, max, index, detail, true);
  }

  /** Nothing optional is lost exactly when everything fits; then everything is shown. */
  lemma CompleteExact(s: Snapshot, max: nat, lines: seq<string>)
    requires |s.identity| <= max
    ensures var r := RenderAvailable(s, max, lines);
            (!r.1 <==> Fits(s, max, lines)) && (!r.1 ==> r.0 == Complete(s, lines))
  {
    OmissionLength();
    hide WithOverview, MemberIndex, SectionNotice, FullSections, FullMembers, Omission, Status, OverviewPrefix, Whole,
      Body, Fits, Complete;
    var detail := MemberIndex(lines, max - |s.identity| - 1);
    MemberIndexExact(lines, max - |s.identity| - 1);
    var smaller := MemberIndex(lines, Left(max, s.identity, SectionNotice(), "") - Reserve(s, detail));
    OverviewCases(s, max, FullSections(s.headings), detail, detail != FullMembers(lines));
    LostStaysLost(s, max, SectionNotice(), detail);
    LostStaysLost(s, max, SectionNotice(), smaller);
    FitsMeans(s, max, lines);
    CompleteIsWhole(s, lines);
    if Fits(s, max, lines) { NoMembers(lines); }
  }

  lemma NoMembers(lines: seq<string>)
    ensures lines == [] ==> FullMembers(lines) == ""
  {
  }

  /** Without a member index the overview is shown whole or not at all: a long one collapses to the identity
      and a status line, however much of the budget is left. */
  lemma RootOnlyAllOrNothing(s: Snapshot, max: nat)
    requires |s.identity| <= max
    ensures var r := RenderAvailable(s, max, []).0;
            var sections := FullSections(s.headings);
            var index := if Left(max, s.identity, sections, "") >= |Omission()| then sections else SectionNotice();
            var left := Left(max, s.identity, index, "");
            r == if left < |Omission()| then s.identity
                 else if |Body(s)| <= left then Whole(s.identity, index, Body(s), "")
                 else s.identity + Status()
  {
    MemberIndexExact([], max - |s.identity| - 1);
    NoMembers([]);
    hide WithOverview, SectionNotice, FullSections, Omission, Status, OverviewPrefix, Whole, Body, MemberIndex,
      FullMembers;
    OverviewCases(s, max, FullSections(s.headings), "", "" != FullMembers([]));
    OverviewCases(s, max, SectionNotice(), "", true);
  }

  /** What a cut overview looks like with both indexes in full. */
  function CutOverview(s: Snapshot, max: nat, lines: seq<string>): string
    requires Left(max, s.identity, FullSections(s.headings), FullMembers(lines)) >= |Status()|
  {
    hide FullSections, FullMembers, OverviewPrefix, Status, Whole, BoundedText;
    var left := Left(max, s.identity, FullSections(s.headings), FullMembers(lines));
    var text := BoundedText(s.sanitized, left - |Status()|).0;
    Whole(s.identity + Status(), FullSections(s.headings), text, FullMembers(lines))
  }

  predicate MustCut(s: Snapshot, left: int) {
    hide Omission, Status;
    HasOverview(s) && s.content.value != "" && left >= |Omission()| + |Status()| && |s.sanitized| > left
  }

  /** Beside a member index a long overview is cut to fill the budget to the last character. */
  lemma CutOverviewFills(s: Snapshot, max: nat, lines: seq<string>)
    requires |s.identity| <= max && lines != []
    requires MustCut(s, Left(max, s.identity, FullSections(s.headings), FullMembers(lines)))
    ensures RenderAvailable(s, max, lines).0 == CutOverview(s, max, lines) && |CutOverview(s, max, lines)| == max
  {
    hide WithOverview, FullSections, Omission, Status, OverviewPrefix, Whole, BoundedText, MemberIndex, FullMembers,
      SectionNotice;
    MemberIndexExact(lines, max - |s.identity| - 1);
    SomeMembers(lines);
    OverviewCases(s, max, FullSections(s.headings), FullMembers(lines), false);
    var room := Left(max, s.identity, FullSections(s.headings), FullMembers(lines)) - |Status()|;
    BoundedTextExact(s.sanitized, room);
    WholeLength(s.identity + Status(), FullSections(s.headings), BoundedText(s.sanitized, room).0, FullMembers(lines));
  }

  lemma SomeMembers(lines: seq<string>)
    requires lines != []
    ensures FullMembers(lines) != ""
  {
    HeadersStart();
    hide MemberHeader, Join;
  }

  // --- Oversized snapshots ---------------------------------------------------------------------

  /** An oversized snapshot with nothing lost: the section index, or the note that there is none if that fits. */
  function OversizedWhole(s: Snapshot, max: nat, lines: seq<string>): string {
    hide FullSections, FullMembers, NoSections;
    var detail := FullMembers(lines);
    var note := if |NoSections()| <= max - |s.identity| - |detail| - 1 then NoSections() else "";
    var text := s.identity + (if s.headings != [] then FullSections(s.headings) else note) + detail;
    if |text| < max then text + "\n" else text
  }

  predicate OversizedFits(s: Snapshot, max: nat, lines: seq<string>) {
    hide FullSections, FullMembers;
    && (lines == [] || |s.identity| + |FullMembers(lines)| < max)
    && (s.headings == [] || |s.identity| + |FullSections(s.headings)| + |FullMembers(lines)| < max)
  }

  /** Within the budget and behind the identity; complete exactly when every index there is fits. */
  lemma OversizedBounded(s: Snapshot, max: nat, lines: seq<string>)
    requires |s.identity| <= max
    ensures |RenderOversized(s, max, lines).0| <= max && s.identity <= RenderOversized(s, max, lines).0
    ensures !RenderOversized(s, max, lines).1 <==> OversizedFits(s, max, lines)
    ensures !RenderOversized(s, max, lines).1 ==> RenderOversized(s, max, lines).0 == OversizedWhole(s, max, lines)
  {
    HeadersStart();
    hide MemberIndex, FullMembers, SectionHeader, SectionNotice, NoSections, Join, Shown;
    var detail := MemberIndex(lines, max - |s.identity| - 1);
    MemberIndexExact(lines, max - |s.identity| - 1);
    NoMembers(lines);
    var budget := max - |s.identity| - |detail| - 1;
    if s.headings != [] { FitExact(SectionHeader(), s.headings, " more headings omitted for prompt budget]", budget); }
  }

  // --- Rendering a snapshot --------------------------------------------------------------------

  /** Within the budget, with the whole identity in front, or with as much of it as there is room for. */
  predicate Retains(identity: string, max: int, r: Outcome<string>) {
    && (r.Accepted? <==> max > 0)
    && (r.Accepted? ==>
          |r.value| <= max && if |identity| <= max then identity <= r.value else r.value == identity[..max])
  }

  lemma OnceBounded(s: Snapshot, max: nat, lines: seq<string>)
    requires |s.identity| <= max
    ensures |RenderOnce(s, max, lines).0| <= max && s.identity <= RenderOnce(s, max, lines).0
  {
    hide RenderAvailable, RenderOversized, FullSections, FullMembers, OversizedFits, OversizedWhole;
    AvailableBounded(s, max, lines);
    OversizedBounded(s, max, lines);
  }

  /** Every snapshot and every budget: rendering keeps the identity and stays within the budget. */
  lemma RenderBounded(s: Snapshot, max: int)
    ensures Retains(s.identity, max, Render(s, max))
  {
    hide RenderOnce;
    if 0 < max && |s.identity| <= max {
      OnceBounded(s, max, s.rich);
      OnceBounded(s, max, s.plain);
    }
  }

  /** Member summaries appear only in a complete rendering; they never cost any other material. */
  lemma SummariesAreFree(s: Snapshot, max: nat)
    requires |s.identity| <= max && !s.availability.Oversized?
    ensures s.hasSummaries && Fits(s, max, s.rich) ==> Render(s, max) == Accepted(Complete(s, s.rich))
    ensures !(s.hasSummaries && Fits(s, max, s.rich)) ==>
              Render(s, max) == Accepted(RenderAvailable(s, max, s.plain).0)
  {
    hide RenderAvailable, RenderOversized, Fits, Complete;
    CompleteExact(s, max, s.rich);
  }

  // --- Pairs -----------------------------------------------------------------------------------

  /** The comparison, the base identity, and on a later line the candidate identity, all within the budget. */
  ghost predicate KeepsAll(prefix: string, base: string, candidate: string, max: int, text: string) {
    && |text| <= max && prefix + base <= text
    && exists at :: |prefix + base| < at <= |text| && text[at - 1] == '\n' && candidate <= text[at..]
  }

  lemma PairText(prefix: string, base: string, candidate: string, left: string, right: string, max: int)
    requires base <= left && candidate <= right && |prefix| + |left| + 1 + |right| <= max
    ensures KeepsAll(prefix, base, candidate, max, prefix + left + "\n" + right)
  {
    var text := prefix + left + "\n" + right;
    var at := |prefix| + |left| + 1;
    assert text[at..] == right && text[at - 1] == '\n';
    assert text[..|prefix + base|] == prefix + left[..|base|];
  }

  /** A pair renders exactly when the comparison and both identities fit; it then keeps all three within the
      budget, and it never runs into the structural error. */
  lemma PairKeepsIdentities(prefix: string, base: Snapshot, candidate: Snapshot, max: int)
    ensures match RenderPair(prefix, base, candidate, max)
            case Rendered(text) => |prefix| + |base.identity| + 1 + |candidate.identity| <= max
                                   && KeepsAll(prefix, base.identity, candidate.identity, max, text)
            case TooSmall => |prefix| + 2 > max || |prefix| + |base.identity| + 1 + |candidate.identity| > max
            case _ => false
  {
    hide Render, KeepsAll;
    var mandatory := |prefix| + |base.identity| + 1 + |candidate.identity|;
    if |prefix| + 2 <= max && mandatory <= max {
      var extra := max - mandatory;
      RenderBounded(base, |base.identity| + extra / 2);
      RenderBounded(candidate, |candidate.identity| + extra - extra / 2);
      PairText(prefix, base.identity, candidate.identity, Render(base, |base.identity| + extra / 2).value,
               Render(candidate, |candidate.identity| + extra - extra / 2).value, max);
    }
  }
}
