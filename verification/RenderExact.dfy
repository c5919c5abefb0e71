/** What a rendering shows when something has to go: notices, members before overview, and each side of a pair. */
module RenderExact {
  import opened Common
  import opened Decimals
  import opened Listing
  import opened Renderer
  import opened RenderBudget

  // --- The member index ------------------------------------------------------------------------

  /** The listing as far as its first `k` lines go, with a count of the rest. */
  function UpTo(header: string, lines: seq<string>, what: string, k: nat): string
    requires k <= |lines|
  {
    if k == |lines| then header + Join(lines) else header + Join(lines[..k] + ["[" + Decimal(|lines| - k) + what])
  }

  /** As many lines as fit beside the count of the rest; when not even the count fits under the header the notice, and
      when that does not fit either, nothing. */
  ghost predicate ShowsMost(
    header: string, lines: seq<string>, what: string, notice: string, budget: int, text: string)
  {
    if exists k :: 0 <= k <= |lines| && |UpTo(header, lines, what, k)| <= budget then
      exists k :: 0 <= k <= |lines| && text == UpTo(header, lines, what, k) && |text| <= budget
                  && forall j :: k < j <= |lines| ==> |UpTo(header, lines, what, j)| > budget
    else if |notice| <= budget then text == notice else text == ""
  }

  lemma FitShowsMost(header: string, lines: seq<string>, what: string, notice: string, budget: int)
    requires header != "" && lines != []
    ensures var fitted := Fit(header, lines, what, budget);
            ShowsMost(header, lines, what, notice, budget,
                      if fitted != "" then fitted else if |notice| <= budget then notice else "")
  {
    hide Fit;
    FitExact(header, lines, what, budget);
    forall k | 0 <= k <= |lines| ensures Shown(header, lines, what, k) == UpTo(header, lines, what, k) {
      ShownUpTo(header, lines, what, k);
    }
    hide Shown, UpTo;
  }

  lemma ShownUpTo(header: string, lines: seq<string>, what: string, k: nat)
    requires k <= |lines|
    ensures Shown(header, lines, what, k) == UpTo(header, lines, what, k)
  {
    hide Join, Decimal;
  }

  /** The member index shows what there is room for. */
  lemma MemberIndexShows(lines: seq<string>, budget: int)
    requires lines != [] && budget > 0
    ensures ShowsMost(MemberHeader(), lines, " more members]", MemberNotice(|lines|), budget,
                      MemberIndex(lines, budget))
  {
    hide ShowsMost, MemberHeader, MemberNotice, Fit;
    assert MemberHeader() != "" by { HeadersStart(); }
    FitShowsMost(MemberHeader(), lines, " more members]", MemberNotice(|lines|), budget);
  }

  /** The notice says how many members there are. */
  lemma NoticeCounts(n: nat)
    ensures MemberNotice(n) == "\n\nArchitecture set: " + Decimal(n)
                               + " linked detail document(s); index omitted for prompt budget."
  {
  }

  // --- What goes first ---------------------------------------------------------------------------

  /** The rendering shows an overview with this member index, uncut or with at least the length of the omission
      text of it. */
  ghost predicate ShowsOverview(s: Snapshot, text: string, detail: string) {
    exists identity, index, body ::
      && text == Whole(identity, index, body, detail)
      && ((identity == s.identity && body == Body(s)) || (identity == s.identity + Status() && |body| >= |Omission()|))
  }

  /** Room for an overview beside `detail`, with the sections reduced to their notice. */
  predicate LeavesRoom(s: Snapshot, max: nat, detail: int) {
    hide Omission, Status, SectionNotice, OverviewPrefix;
    |s.identity| + |SectionNotice()| + |OverviewPrefix()| + detail + |Omission()| + |Status()| + 1 <= max
  }

  lemma OverviewShown(s: Snapshot, max: nat, index: string, detail: string, degraded: bool)
    requires detail != "" && (s.content.Some? ==> s.content.value != "")
    requires Left(max, s.identity, index, detail)
             >= |Omission()| + if s.content.Some? then |Status()| else 0
    ensures ShowsOverview(s, WithOverview(s, max, index, detail, degraded).0, detail)
  {
    hide WithOverview, Omission, Status, OverviewPrefix, Whole, BoundedText;
    OmissionLength();
    StatusLength();
    OverviewCases(s, max, index, detail, degraded);
    var left, room := Left(max, s.identity, index, detail), |Status()|;
    if |Body(s)| <= left {
      assert WithOverview(s, max, index, detail, degraded).0 == Whole(s.identity, index, Body(s), detail);
    } else {
      BoundedTextExact(s.sanitized, left - room);
      BodyOf(s);
      assert WithOverview(s, max, index, detail, degraded).0
             == Whole(s.identity + Status(), index, BoundedText(s.sanitized, left - room).0, detail);
    }
  }

  lemma BodyOf(s: Snapshot)
    ensures Body(s) == Omission() || (s.content.Some? && Body(s) == s.sanitized)
  {
    hide Omission;
  }

  lemma ReserveIs(s: Snapshot, detail: string)
    requires detail != "" && (s.content.Some? ==> s.content.value != "")
    ensures Reserve(s, detail) == |Omission()| + if s.content.Some? then |Status()| else 0
  {
    hide Omission, Status;
  }

  lemma LeftSplits(max: nat, identity: string, index: string, detail: string)
    ensures Left(max, identity, index, detail) == Left(max, identity, index, "") - |detail|
  {
    hide OverviewPrefix;
  }

  /** The section index goes before any member: when everything but the sections fits with the reserve, all members
      are listed, and an overview is shown beside them. */
  lemma MembersOutlastSections(s: Snapshot, max: nat, lines: seq<string>)
    requires |s.identity| <= max && lines != [] && (s.content.Some? ==> s.content.value != "")
    requires LeavesRoom(s, max, |FullMembers(lines)|)
    ensures ShowsOverview(s, RenderAvailable(s, max, lines).0, FullMembers(lines))
  {
    hide WithOverview, Omission, Status, OverviewPrefix, Whole, MemberIndex, FullMembers, FullSections, SectionNotice,
      ShowsOverview, Reserve;
    OmissionLength();
    StatusLength();
    var detail := MemberIndex(lines, max - |s.identity| - 1);
    MemberIndexExact(lines, max - |s.identity| - 1);
    SomeMembers(lines);
    ReserveIs(s, detail);
    var index := FullSections(s.headings);
    if Left(max, s.identity, index, detail) >= Reserve(s, detail) {
      OverviewShown(s, max, index, detail, false);
    } else {
      OverviewShown(s, max, SectionNotice(), detail, true);
    }
  }

  function AvailableText(s: Snapshot, max: nat, lines: seq<string>): string {
    hide RenderAvailable;
    RenderAvailable(s, max, lines).0
  }

  /** The rendering shows an overview beside some member index, or beside the notice of one. */
  ghost predicate ShowsSomeOverview(s: Snapshot, text: string) {
    hide ShowsOverview;
    exists detail :: detail != "" && ShowsOverview(s, text, detail)
  }

  /** Members yield before the overview: as long as a notice of them leaves room for it, an overview is shown. */
  lemma OverviewOutlastsMembers(s: Snapshot, max: nat, lines: seq<string>)
    requires |s.identity| <= max && lines != [] && (s.content.Some? ==> s.content.value != "")
    requires LeavesRoom(s, max, |MemberNotice(|lines|)|)
    ensures ShowsSomeOverview(s, AvailableText(s, max, lines))
  {
    hide WithOverview, Omission, Status, OverviewPrefix, Whole, MemberIndex, FullMembers, FullSections, SectionNotice,
      ShowsOverview, Reserve, MemberNotice;
    OmissionLength();
    StatusLength();
    var detail := MemberIndex(lines, max - |s.identity| - 1);
    IndexNeverEmpty(lines, max - |s.identity| - 1);
    ReserveIs(s, detail);
    var reserve, index := Reserve(s, detail), FullSections(s.headings);
    if Left(max, s.identity, index, detail) >= reserve {
      OverviewShown(s, max, index, detail, detail != FullMembers(lines));
      assert ShowsOverview(s, AvailableText(s, max, lines), detail);
    } else if Left(max, s.identity, SectionNotice(), detail) >= reserve {
      OverviewShown(s, max, SectionNotice(), detail, true);
      assert ShowsOverview(s, AvailableText(s, max, lines), detail);
    } else {
      var room := Left(max, s.identity, SectionNotice(), "") - reserve;
      var smaller := MemberIndex(lines, room);
      IndexNeverEmpty(lines, room);
      MemberIndexExact(lines, room);
      LeftSplits(max, s.identity, SectionNotice(), smaller);
      OverviewShown(s, max, SectionNotice(), smaller, true);
      assert ShowsOverview(s, AvailableText(s, max, lines), smaller);
    }
  }

  lemma IndexNeverEmpty(lines: seq<string>, budget: int)
    requires lines != [] && |MemberNotice(|lines|)| <= budget
    ensures MemberIndex(lines, budget) != ""
  {
    hide MemberIndex, MemberNotice, MemberHeader, UpTo;
    NoticeLong(|lines|);
    MemberIndexShows(lines, budget);
    forall k | 0 <= k <= |lines| ensures UpTo(MemberHeader(), lines, " more members]", k) != "" {
      ListingLong(lines, k);
    }
  }

  lemma ListingLong(lines: seq<string>, k: nat)
    requires k <= |lines|
    ensures UpTo(MemberHeader(), lines, " more members]", k) != ""
  {
    hide MemberHeader, Join, Decimal;
    HeadersStart();
  }

  lemma NoticeLong(n: nat)
    ensures MemberNotice(n) != ""
  {
    hide Decimal;
  }

  // --- Oversized snapshots -----------------------------------------------------------------------

  const MORE_HEADINGS := " more headings omitted for prompt budget]"

  /** An oversized snapshot shows its members, then its sections in what is left. */
  lemma OversizedShows(s: Snapshot, max: nat, lines: seq<string>)
    requires |s.identity| <= max && s.headings != []
    ensures var detail := MemberIndex(lines, max - |s.identity| - 1);
            exists index ::
              && ShowsMost(SectionHeader(), s.headings, MORE_HEADINGS, SectionNotice(),
                           max - |s.identity| - |detail| - 1, index)
              && RenderOversized(s, max, lines).0
                 == s.identity + index + detail + if |s.identity + index + detail| < max then "\n" else ""
  {
    hide ShowsMost, SectionHeader, SectionNotice, NoSections, Fit, MemberIndex, FullMembers, FullSections;
    var detail := MemberIndex(lines, max - |s.identity| - 1);
    var budget := max - |s.identity| - |detail| - 1;
    assert SectionHeader() != "" by { HeadersStart(); }
    FitShowsMost(SectionHeader(), s.headings, MORE_HEADINGS, SectionNotice(), budget);
    var fitted := Fit(SectionHeader(), s.headings, MORE_HEADINGS, budget);
    var index := if fitted == "" && |SectionNotice()| <= budget then SectionNotice() else fitted;
    assert s.identity + index + detail + "" == s.identity + index + detail;
    assert ShowsMost(SectionHeader(), s.headings, MORE_HEADINGS, SectionNotice(), budget, index);
  }

  /** Summaries never cost an oversized snapshot anything either. */
  lemma OversizedSummariesAreFree(s: Snapshot, max: nat)
    requires |s.identity| <= max && s.availability.Oversized? && max > 0
    ensures Render(s, max)
            == Accepted(if s.hasSummaries && OversizedFits(s, max, s.rich) then OversizedWhole(s, max, s.rich)
                        else RenderOversized(s, max, s.plain).0)
  {
    hide RenderAvailable, RenderOversized, OversizedFits, OversizedWhole;
    OversizedBounded(s, max, s.rich);
  }

  // --- Pairs -------------------------------------------------------------------------------------

  lemma SideComplete(s: Snapshot, max: nat)
    requires |s.identity| <= max && !s.availability.Oversized? && !s.hasSummaries && Fits(s, max, s.plain)
    ensures max > 0 && Render(s, max) == Accepted(Complete(s, s.plain)) && |Complete(s, s.plain)| <= max
  {
    hide Fits, Complete, RenderAvailable, Render;
    SummariesAreFree(s, max);
    CompleteExact(s, max, s.plain);
    RenderBounded(s, max);
  }

  /** The side renders as this text, within its share. */
  predicate RendersAs(s: Snapshot, max: nat, text: string) {
    hide Render;
    Render(s, max) == Accepted(text) && |text| <= max
  }

  predicate PairRendersAs(prefix: string, base: Snapshot, candidate: Snapshot, max: int, text: string) {
    hide RenderPair;
    RenderPair(prefix, base, candidate, max) == Rendered(text)
  }

  lemma PairOf(prefix: string, base: Snapshot, candidate: Snapshot, max: int, m: nat, n: nat, a: string, b: string)
    requires |prefix| + 2 <= max && |prefix| + |base.identity| + 1 + |candidate.identity| <= max
    requires |base.identity| <= m && |candidate.identity| <= n && |prefix| + m + 1 + n == max
    requires m - |base.identity| <= n - |candidate.identity| <= m - |base.identity| + 1
    requires RendersAs(base, m, a) && RendersAs(candidate, n, b)
    ensures PairRendersAs(prefix, base, candidate, max, prefix + a + "\n" + b)
  {
    hide Render;
  }

  /** A pair shows each side as it would be shown alone with half of what the mandatory parts leave over, the odd
      character going to the candidate: complete whenever each fits its half. */
  lemma PairShowsBoth(prefix: string, base: Snapshot, candidate: Snapshot, max: int, m: nat, n: nat)
    requires |prefix| + 2 <= max && |prefix| + |base.identity| + 1 + |candidate.identity| <= max
    requires |base.identity| <= m && |candidate.identity| <= n && |prefix| + m + 1 + n == max
    requires m - |base.identity| <= n - |candidate.identity| <= m - |base.identity| + 1
    requires !base.availability.Oversized? && !base.hasSummaries && Fits(base, m, base.plain)
    requires !candidate.availability.Oversized? && !candidate.hasSummaries && Fits(candidate, n, candidate.plain)
    ensures PairRendersAs(prefix, base, candidate, max,
                          prefix + Complete(base, base.plain) + "\n" + Complete(candidate, candidate.plain))
  {
    hide Fits, Complete, Render, RenderPair;
    SideComplete(base, m);
    SideComplete(candidate, n);
    PairOf(prefix, base, candidate, max, m, n, Complete(base, base.plain), Complete(candidate, candidate.plain));
  }
}
