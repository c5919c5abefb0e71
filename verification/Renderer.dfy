/** The architecture snapshot and pair renderers: every length they spend, and what they keep. */
module Renderer {
  import opened Common
  import opened Decimals
  import opened Listing

  function MemberHeader(): string {
    "\n\nDetail documents in the architecture set (open the file in the assigned checkout):\n"
  }
  function MemberNotice(n: nat): string {
    "\n\nArchitecture set: " + Decimal(n) + " linked detail document(s); index omitted for prompt budget."
  }
  function SectionHeader(): string { "\n\nSections available for targeted checkout inspection:\n" }
  function SectionNotice(): string {
    "\n\nSection index omitted for prompt budget; inspect headings in the assigned checkout."
  }
  function NoSections(): string {
    "\n\nNo section index is available; inspect the document in the assigned checkout directly."
  }
  function OverviewPrefix(): string { "\n\nBounded architecture overview:\n" }
  function Omission(): string { "[Architecture text omitted because it is unavailable, unsafe, or not allocated.]" }
  function Status(): string { "\n- Overview status: truncated; this is not complete coverage." }

  lemma StatusLength()
    ensures |Status()| == 61
  {
  }

  lemma OmissionLength()
    ensures |Omission()| == 80
  {
  }

  lemma HeadersStart()
    ensures MemberHeader() != "" && SectionHeader() != ""
  {
  }

  type Identity = s: string | s != "" witness "x"

  datatype Availability = Available | Oversized | Other

  /** A snapshot with its text already sanitized: the identity block under its label, the heading lines, and
      the member lines without and with their summaries. */
  datatype Snapshot = Snapshot(
    identity: Identity, availability: Availability, content: Option<string>, sanitized: string,
    headings: seq<string>, plain: seq<string>, rich: seq<string>, hasSummaries: bool)

  function FullMembers(lines: seq<string>): string {
    if lines == [] then "" else MemberHeader() + Join(lines)
  }

  /** The member index within a budget: the listing, else one notice, else nothing. */
  function MemberIndex(lines: seq<string>, budget: int): string {
    hide MemberHeader, MemberNotice, Fit;
    if lines == [] || budget <= 0 then ""
    else
      var text := Fit(MemberHeader(), lines, " more members]", budget);
      if text != "" then text
      else if |MemberNotice(|lines|)| <= budget then MemberNotice(|lines|) else ""
  }

  function FullSections(headings: seq<string>): string {
    if headings == [] then "" else SectionHeader() + Join(headings)
  }

  // --- Available snapshots ---------------------------------------------------------------------

  /** What is left for the overview after everything else and the final newline. */
  function Left(max: nat, identity: string, index: string, detail: string): int {
    max - |identity| - |index| - |detail| - |OverviewPrefix()| - 1
  }

  /** Room kept for the overview: the omission text, and the status line beside a member index. */
  function Reserve(s: Snapshot, detail: string): nat {
    hide Omission, Status;
    |Omission()| + if detail != "" && s.content.Some? && s.content.value != "" then |Status()| else 0
  }

  predicate HasOverview(s: Snapshot) { s.content.Some? && s.availability.Available? }

  function Whole(identity: string, index: string, body: string, detail: string): string {
    identity + index + OverviewPrefix() + body + detail + "\n"
  }

  /** The overview in what is left, once the indexes are settled. */
  function WithOverview(s: Snapshot, max: nat, index: string, detail: string, degraded: bool): (string, bool) {
    hide Omission, Status, OverviewPrefix;
    var left := Left(max, s.identity, index, detail);
    if left < |Omission()| then (s.identity, true)
    else if HasOverview(s) then
      var limit :=
        if detail != "" && |s.sanitized| > left && left - |Status()| >= |Omission()| then left - |Status()| else left;
      var bounded := BoundedText(s.sanitized, limit);
      var identity := if bounded.1 then s.identity + Status() else s.identity;
      var text := Whole(identity, index, bounded.0, detail);
      if |text| > max then (identity, true) else (text, degraded || bounded.1)
    else if |Whole(s.identity, index, Omission(), detail)| > max then (s.identity, true)
    else (Whole(s.identity, index, Omission(), detail), degraded)
  }

  /** One attempt with these member lines, and whether any optional material was lost. */
  function RenderAvailable(s: Snapshot, max: nat, lines: seq<string>): (string, bool) {
    var detail := MemberIndex(lines, max - |s.identity| - 1);
    var reserve := Reserve(s, detail);
    var lossy := detail != FullMembers(lines);
    var index := FullSections(s.headings);
    if Left(max, s.identity, index, detail) >= reserve then WithOverview(s, max, index, detail, lossy)
    else if Left(max, s.identity, SectionNotice(), detail) >= reserve || detail == "" then
      WithOverview(s, max, SectionNotice(), detail, true)
    else
      var smaller := MemberIndex(lines, Left(max, s.identity, SectionNotice(), "") - reserve);
      WithOverview(s, max, SectionNotice(), smaller, true)
  }

  // --- Oversized snapshots ---------------------------------------------------------------------

  function RenderOversized(s: Snapshot, max: nat, lines: seq<string>): (string, bool) {
    var detail := MemberIndex(lines, max - |s.identity| - 1);
    var budget := max - |s.identity| - |detail| - 1;
    var fitted := Fit(SectionHeader(), s.headings, " more headings omitted for prompt budget]", budget);
    var notice := if s.headings != [] then SectionNotice() else NoSections();
    var index := if fitted == "" && |notice| <= budget then notice else fitted;
    var text := s.identity + index + detail;
    (if |text| < max then text + "\n" else text,
     detail != FullMembers(lines) || (s.headings != [] && fitted != FullSections(s.headings)))
  }

  function RenderOnce(s: Snapshot, max: nat, lines: seq<string>): (string, bool) {
    if s.availability.Oversized? then RenderOversized(s, max, lines) else RenderAvailable(s, max, lines)
  }

  /** Summaries are tried first, and dropped when anything at all would be lost. */
  function Render(s: Snapshot, max: int): Outcome<string> {
    hide RenderOnce;
    if max <= 0 then Refused
    else if |s.identity| > max then Accepted(s.identity[..max])
    else
      var rich := RenderOnce(s, max, s.rich);
      Accepted(if s.hasSummaries && !rich.1 then rich.0 else RenderOnce(s, max, s.plain).0)
  }

  // --- Pairs -----------------------------------------------------------------------------------

  /** The structural error at the end of the pair renderer. */
  datatype PairResult = Rendered(text: string) | TooSmall | SideRefused | OverBudget

  function RenderPair(prefix: string, base: Snapshot, candidate: Snapshot, max: int): PairResult {
    hide Render;
    if max <= 0 || |prefix| + 2 > max then TooSmall
    else
      var mandatory := |prefix| + |base.identity| + 1 + |candidate.identity|;
      if mandatory > max then TooSmall
      else
        var extra := max - mandatory;
        var left := Render(base, |base.identity| + extra / 2);
        var right := Render(candidate, |candidate.identity| + extra - extra / 2);
        if left.Refused? || right.Refused? then SideRefused
        else
          var text := prefix + left.value + "\n" + right.value;
          if |text| > max then OverBudget else Rendered(text)
  }
}
