/**
 * The reviewer-board lineage of one surface, as a function of its comment history:
 * which elements it has, which of them governs each round record, and whether the
 * history is accepted at all.
 */
module BoardLineage {
  import opened Common
  import opened BoardAmendment
  import opened BoardIdentity

  /** Digests are injective: a digest is the value it was computed from. */
  datatype Digest = OfIdentity(identity: Identity) | OfLink(link: Link) | OfAmendment(amendment: Amendment)

  datatype Link = Link(
    root: Identity, predecessor: Digest, oldBoard: Identity, newBoard: Identity,
    oldBinding: Option<seq<Seat>>, newBinding: Option<seq<Seat>>,
    added: seq<string>, removed: seq<string>, rebound: seq<string>,
    inits: map<string, InitEntry>, anchor: int, advance: bool, effective: int)

  /** A persisted payload field after decoding. */
  datatype Field<+T> = Absent | Malformed | Present(value: T)

  datatype Role = Reviewer | Coder | Summary | OtherRole

  /** A round record; `neutral` marks a neutral staged summary of the plan surface. */
  datatype Record = Record(
    round: int, root: Field<Identity>, identity: Field<Identity>, init: Field<map<string, InitEntry>>,
    amendmentDigest: Option<Digest>, changeDigest: Option<Digest>, binding: Option<seq<Seat>>,
    role: Role, agent: string, contract: Option<Contract>, neutral: bool)

  datatype Comment =
    | RecordComment(record: Record)
    | LinkComment(link: Link)
    | AmendmentComment(amendment: Amendment)
    | PlainComment

  type History = seq<Comment>

  /** The surface, with the checks of unseen collaborators as opaque predicates. */
  datatype Surface = Surface(
    flow: Flow, policies: set<Policy>, contractOk: Contract -> bool,
    outageOk: (Amendment, Option<seq<Seat>>) -> bool)

  // --- Board-change links -----------------------------------------------------------

  datatype Change = Change(added: seq<string>, removed: seq<string>, rebound: seq<string>)

  predicate Rebound(before: Identity, after: Identity, name: string) {
    var was, now := FindSeat(before.seats, name), FindSeat(after.seats, name);
    was.Some? && now.Some? && !SeatsCompatible(was.value, now.value)
  }

  function DescribeChange(before: Identity, after: Identity): Change {
    var reboundSet := set name | name in Elems(BoardNames(after)) && Rebound(before, after, name);
    Change(Drop(BoardNames(after), Elems(BoardNames(before))),
           Drop(BoardNames(before), Elems(BoardNames(after))),
           Keep(BoardNames(after), reboundSet))
  }

  predicate OnSurface(s: Surface, identity: Identity) {
    WellFormed(identity) && identity.policy in s.policies && (s.flow == PlanFlow ==> identity.rules == [])
  }

  /** What parsing a link record checks. */
  predicate LinkOk(s: Surface, link: Link) {
    && link.anchor >= 1 && link.effective == link.anchor + (if link.advance then 1 else 0)
    && Change(link.added, link.removed, link.rebound) == DescribeChange(link.oldBoard, link.newBoard)
    && link.newBinding == SeatBinding(link.newBoard)
    && OnSurface(s, link.root) && OnSurface(s, link.oldBoard) && OnSurface(s, link.newBoard)
    && s.contractOk(ContractOf(link.newBoard))
    && ParseInits(link.inits, link.newBoard).Accepted?
  }

  // --- Lineage elements, in comment order ---------------------------------------------

  datatype Source = FromLink(link: Link) | FromAmendment(amendment: Amendment)

  /** A link or amendment with the position of the comment that first carried it. */
  datatype Raw = Raw(index: nat, source: Source)

  predicate SourceOk(s: Surface, source: Source) {
    match source
    case FromLink(link) => LinkOk(s, link)
    case FromAmendment(a) => a.flow == s.flow
  }

  function SourceOf(c: Comment): Option<Source> {
    match c
    case LinkComment(link) => Some(FromLink(link))
    case AmendmentComment(a) => Some(FromAmendment(a))
    case _ => None
  }

  predicate Posted?(raws: seq<Raw>, source: Source) {
    exists i :: 0 <= i < |raws| && raws[i].source == source
  }

  /** Links and amendments of the history; an identical repeat is the same element. */
  function Collect(s: Surface, h: History): Outcome<seq<Raw>>
    decreases |h|
  {
    if h == [] then Accepted([])
    else
      var raws :- Collect(s, h[..|h| - 1]);
      match SourceOf(h[|h| - 1])
      case None => Accepted(raws)
      case Some(source) =>
        if !SourceOk(s, source) then Refused
        else if Posted?(raws, source) then Accepted(raws)
        else Accepted(raws + [Raw(|h| - 1, source)])
  }

  /** `base` is the board a signed segment amends: the latest link's new board, or the root. */
  datatype Element = Element(index: nat, source: Source, identity: Identity, contract: Contract, base: Identity) {
    function Effective(): int {
      match source
      case FromLink(link) => link.effective
      case FromAmendment(a) => a.effective
    }
    function Digest(): Digest {
      match source
      case FromLink(link) => OfLink(link)
      case FromAmendment(a) => OfAmendment(a)
    }
    predicate IsLink() { source.FromLink? }
  }

  function LatestOf(es: seq<Element>): Option<Element> {
    if es == [] then None else Some(es[|es| - 1])
  }

  function IdentityAfter(root: Identity, es: seq<Element>): Identity {
    if es == [] then root else es[|es| - 1].identity
  }

  function BaseAfter(root: Identity, es: seq<Element>): Identity {
    if es == [] then root else es[|es| - 1].base
  }

  function ContractAfter(root: Identity, es: seq<Element>): Contract {
    if es == [] then ContractOf(root) else es[|es| - 1].contract
  }

  function DigestAfter(root: Identity, es: seq<Element>): Digest {
    if es == [] then OfIdentity(root) else es[|es| - 1].Digest()
  }

  /** The amendments since the latest link. */
  function Segment(es: seq<Element>): seq<Posted>
    decreases |es|
  {
    if es == [] || es[|es| - 1].IsLink() then []
    else Segment(es[..|es| - 1]) + [Posted(es[|es| - 1].index, es[|es| - 1].source.amendment)]
  }

  /** The seat `name` had on the latest link (or root) naming it. */
  function LastSeen(root: Identity, es: seq<Element>, name: string): Option<Seat>
    decreases |es|
  {
    if es == [] then FindSeat(root.seats, name)
    else
      var last := es[|es| - 1];
      if last.IsLink() && FindSeat(last.identity.seats, name).Some? then FindSeat(last.identity.seats, name)
      else LastSeen(root, es[..|es| - 1], name)
  }

  /** The seats of an amended board: kept seats from the current board, restored ones as last seen. */
  function AmendedSeats(root: Identity, es: seq<Element>, names: seq<string>): Option<seq<Seat>>
    decreases |names|
  {
    if names == [] then Some([])
    else
      var front :- AmendedSeats(root, es, names[..|names| - 1]);
      var name := names[|names| - 1];
      var current := FindSeat(IdentityAfter(root, es).seats, name);
      var seat :- if current.Some? then current else LastSeen(root, es, name);
      Some(front + [seat])
  }

  function LinkElement(root: Identity, es: seq<Element>, index: nat, link: Link): Outcome<Element> {
    var element := Element(index, FromLink(link), link.newBoard, ContractOf(link.newBoard), link.newBoard);
    if link.root != root || link.predecessor != DigestAfter(root, es) then Refused
    else if link.newBoard.policy != root.policy || link.newBoard.rules != root.rules then Refused
    else if es == [] then Accepted(element)
    else
      var previous := es[|es| - 1];
      if previous.IsLink() && previous.Effective() == link.effective then
        if previous.source.link.anchor == link.anchor && previous.source.link.advance == link.advance
        then Accepted(element) else Refused
      else if previous.Effective() < link.effective then Accepted(element) else Refused
  }

  function AmendmentElement(s: Surface, root: Identity, es: seq<Element>, index: nat, a: Amendment): Outcome<Element> {
    var base := BaseAfter(root, es);
    if es != [] && a.effective <= es[|es| - 1].Effective() then Refused
    else
      var contract :- AmendContract(s.contractOk, ContractAfter(root, es), a, BoardNames(base), RemovedBy(Segment(es)));
      if !s.outageOk(a, SeatBinding(base)) then Refused
      else
        var seats := AmendedSeats(root, es, contract.names);
        if seats.None? then Refused
        else
          var identity := Identity(contract.policy, contract.primary, contract.rules, seats.value);
          if Valid(identity) then Accepted(Element(index, FromAmendment(a), identity, contract, base)) else Refused
  }

  function NextElement(s: Surface, root: Identity, es: seq<Element>, raw: Raw): (r: Outcome<Element>)
    ensures r.Accepted? ==> r.value.index == raw.index && r.value.source == raw.source
  {
    match raw.source
    case FromLink(link) => LinkElement(root, es, raw.index, link)
    case FromAmendment(a) => AmendmentElement(s, root, es, raw.index, a)
  }

  function Elements(s: Surface, root: Identity, raws: seq<Raw>): (r: Outcome<seq<Element>>)
    ensures r.Accepted? ==> |r.value| == |raws|
    decreases |raws|
  {
    if raws == [] then Accepted([])
    else
      var es :- Elements(s, root, raws[..|raws| - 1]);
      var next :- NextElement(s, root, es, raws[|raws| - 1]);
      Accepted(es + [next])
  }

  // --- Governance -----------------------------------------------------------------------

  predicate Governs(e: Element, index: nat, round: int) {
    e.index < index && e.Effective() <= round
  }

  /** How many elements precede and include the one governing a record: 0 means the root. */
  function GoverningCount(es: seq<Element>, index: nat, round: int): (n: nat)
    ensures n <= |es|
    ensures n > 0 ==> Governs(es[n - 1], index, round)
    ensures forall i :: n <= i < |es| ==> !Governs(es[i], index, round)
    decreases |es|
  {
    if es == [] then 0
    else if Governs(es[|es| - 1], index, round) then |es|
    else GoverningCount(es[..|es| - 1], index, round)
  }

  // --- Round records ----------------------------------------------------------------------

  /** Binding initializations recorded so far, and the elements some record has carried. */
  datatype Progress = Progress(inits: Inits, carried: set<Digest>)

  function AmendmentDigestAfter(es: seq<Element>): Option<Digest> {
    if es != [] && !es[|es| - 1].IsLink() then Some(es[|es| - 1].Digest()) else None
  }

  function ChangeDigestAfter(es: seq<Element>): Option<Digest> {
    if es != [] && es[|es| - 1].IsLink() then Some(es[|es| - 1].Digest()) else None
  }

  function Carry(p: Progress, es: seq<Element>): Progress {
    if es == [] then p else p.(carried := p.carried + {es[|es| - 1].Digest()})
  }

  /** A record with a root anchor, governed by the last element of `es`. */
  function StampedRecord(root: Identity, es: seq<Element>, r: Record, p: Progress): Outcome<Progress> {
    var governing, base := IdentityAfter(root, es), BaseAfter(root, es);
    if r.amendmentDigest != AmendmentDigestAfter(es) || r.changeDigest != ChangeDigestAfter(es) then Refused
    else if r.init.Malformed? then Refused
    else
      var own :- ParseInits(if r.init.Present? then r.init.value else map[], governing);
      if !MergeAllowed(p.inits, own, Some(ApplyInits(governing, p.inits))) then Refused
      else
        var inits := p.inits + own;
        var expected := ApplyInits(governing, inits);
        if r.identity != Present(expected) || !WellFormed(expected) then Refused
        else if r.binding != SeatBinding(ApplyInits(base, inits)) && r.binding != SeatBinding(expected) then Refused
        else if r.role == Reviewer && r.agent !in BoardNames(expected) && r.agent !in BoardNames(base) then Refused
        else if r.contract.Some? && r.contract.value != ContractAfter(root, es) then Refused
        else Accepted(Carry(p.(inits := inits), es))
  }

  /** A record without a root anchor, governed by the last element of `es`. */
  function LegacyRecord(root: Identity, es: seq<Element>, r: Record, p: Progress): Outcome<Progress> {
    if r.neutral then Accepted(p)
    else if es != [] && es[|es| - 1].IsLink() then Refused
    else if r.contract.Some? then
      if r.contract.value == ContractAfter(root, es) && r.amendmentDigest == AmendmentDigestAfter(es)
      then Accepted(Carry(p, es)) else Refused
    else if r.amendmentDigest.Some? then Refused
    else Accepted(p)
  }

  function RecordStep(root: Identity, es: seq<Element>, index: nat, r: Record, p: Progress): Outcome<Progress> {
    var governed := es[..GoverningCount(es, index, r.round)];
    if r.root.Present? then StampedRecord(root, governed, r, p) else LegacyRecord(root, governed, r, p)
  }

  /** The elements posted before comment `index`. */
  function Before(es: seq<Element>, index: nat): (r: seq<Element>)
    ensures |r| <= |es| && r == es[..|r|]
    ensures r != [] ==> r[|r| - 1].index < index
    ensures forall i :: |r| <= i < |es| ==> index <= es[i].index
    decreases |es|
  {
    if es == [] || es[|es| - 1].index < index then es else Before(es[..|es| - 1], index)
  }

  function LinkStep(root: Identity, before: seq<Element>, link: Link, p: Progress): Outcome<Progress> {
    if !BindingCompatible(link.oldBoard, ApplyInits(IdentityAfter(root, before), p.inits)) then Refused
    else if link.oldBinding != SeatBinding(ApplyInits(BaseAfter(root, before), p.inits)) then Refused
    else
      var own :- ParseInits(link.inits, link.newBoard);
      if MergeAllowed(p.inits, own, None) then Accepted(p.(inits := p.inits + own)) else Refused
  }

  predicate ElementAt(es: seq<Element>, index: nat) {
    exists i :: 0 <= i < |es| && es[i].index == index
  }

  function CommentStep(root: Identity, es: seq<Element>, index: nat, c: Comment, p: Progress): Outcome<Progress> {
    match c
    case RecordComment(r) => RecordStep(root, es, index, r, p)
    case LinkComment(link) => if ElementAt(es, index) then LinkStep(root, Before(es, index), link, p) else Accepted(p)
    case _ => Accepted(p)
  }

  /** Records and links in comment order, each validated against what governs it. */
  function Walk(root: Identity, es: seq<Element>, h: History): Outcome<Progress>
    decreases |h|
  {
    if h == [] then Accepted(Progress(map[], {}))
    else
      var p :- Walk(root, es, h[..|h| - 1]);
      CommentStep(root, es, |h| - 1, h[|h| - 1], p)
  }

  // --- Anchors and legacy history -------------------------------------------------------------

  function AnchorOf(c: Comment): Option<Identity> {
    match c
    case RecordComment(r) => if r.root.Present? then Some(r.root.value) else None
    case LinkComment(link) => Some(link.root)
    case _ => None
  }

  /** The root the earliest identity-bearing artifact names. */
  function FirstAnchor(h: History): Option<Identity> {
    if h == [] then None
    else if AnchorOf(h[0]).Some? then AnchorOf(h[0])
    else FirstAnchor(h[1..])
  }

  predicate RecordShapeOk(c: Comment) {
    c.RecordComment? ==>
      && !c.record.root.Malformed?
      && (c.record.root.Present? ==> WellFormed(c.record.root.value))
      && (c.record.root.Absent? ==> c.record.identity.Absent? && c.record.init.Absent? && c.record.changeDigest.None?)
  }

  /** Every artifact that names a root names `root`. */
  predicate AnchoredAt(h: History, root: Identity) {
    forall i :: 0 <= i < |h| ==> RecordShapeOk(h[i]) && (AnchorOf(h[i]).Some? ==> AnchorOf(h[i]).value == root)
  }

  function Backends(binding: seq<Seat>): map<string, Backend> {
    map id | id in Elems(Names(binding)) :: FindSeat(binding, id).value.backend
  }

  predicate LegacyBound(c: Comment) {
    c.RecordComment? && c.record.root.Absent? && !c.record.neutral && c.record.binding.Some?
  }

  predicate LegacyUnbound(c: Comment) {
    c.RecordComment? && c.record.root.Absent? && !c.record.neutral && c.record.binding.None?
      && !c.record.role.OtherRole?
  }

  /** A neutral summary's binding is only checked on its own. */
  predicate NeutralBindingOk(c: Comment) {
    c.RecordComment? && c.record.neutral && c.record.binding.Some? && c.record.role.Reviewer? ==>
      c.record.agent in Names(c.record.binding.value)
  }

  /** Unstamped named history keeps one board and one backend per seat, and is never half bound. */
  predicate LegacyBindingsOk(h: History) {
    && (forall i :: 0 <= i < |h| ==> NeutralBindingOk(h[i]))
    && (forall i :: 0 <= i < |h| && LegacyBound(h[i]) ==>
          && !(exists j :: 0 <= j < |h| && LegacyUnbound(h[j]))
          && (h[i].record.role.Reviewer? ==> h[i].record.agent in Names(h[i].record.binding.value)))
    && (forall i, j :: 0 <= i < |h| && 0 <= j < |h| && LegacyBound(h[i]) && LegacyBound(h[j]) ==>
          Backends(h[i].record.binding.value) == Backends(h[j].record.binding.value))
  }

  // --- Acceptance ----------------------------------------------------------------------------------

  /** A link is superseded when the next element is a link effective from the same round. */
  predicate Superseded(es: seq<Element>, i: nat) {
    i + 1 < |es| && es[i].IsLink() && es[i + 1].IsLink() && es[i].Effective() == es[i + 1].Effective()
  }

  /** Where the trailing run of uncarried elements starts. */
  function TrailingStart(es: seq<Element>, carried: set<Digest>): (n: nat)
    ensures n <= |es|
    ensures forall i :: n <= i < |es| ==> es[i].Digest() !in carried
    ensures n > 0 ==> es[n - 1].Digest() in carried
    decreases |es|
  {
    if es == [] || es[|es| - 1].Digest() in carried then |es| else TrailingStart(es[..|es| - 1], carried)
  }

  function HighestRound(h: History): (r: Option<int>)
    ensures forall i :: 0 <= i < |h| && h[i].RecordComment? ==> r.Some? && h[i].record.round <= r.value
    ensures r.Some? ==> exists i :: 0 <= i < |h| && h[i].RecordComment? && h[i].record.round == r.value
    decreases |h|
  {
    if h == [] then None
    else
      var front := HighestRound(h[..|h| - 1]);
      var last := h[|h| - 1];
      assert forall i :: 0 <= i < |h| - 1 ==> h[i] == h[..|h| - 1][i];
      if !last.RecordComment? || (front.Some? && last.record.round <= front.value) then front
      else Some(last.record.round)
  }

  /** The first link at or after position `from`, or |es|. */
  function FirstLink(es: seq<Element>, from: nat): (n: nat)
    requires from <= |es|
    ensures from <= n <= |es|
    ensures n < |es| ==> es[n].IsLink()
    ensures forall i :: from <= i < n ==> !es[i].IsLink()
    decreases |es| - from
  {
    if from == |es| || es[from].IsLink() then from else FirstLink(es, from + 1)
  }

  /** No superseded link was used, and every other unused link is still pending. */
  predicate UseConsistent(es: seq<Element>, carried: set<Digest>) {
    forall i :: 0 <= i < |es| && es[i].IsLink() ==>
      if Superseded(es, i) then es[i].Digest() !in carried
      else es[i].Digest() in carried || i >= TrailingStart(es, carried)
  }

  /** The first pending link still matches the durable history it was anchored in. */
  predicate PendingConsistent(h: History, es: seq<Element>, carried: set<Digest>) {
    var start := TrailingStart(es, carried);
    var first := FirstLink(es, start);
    first < |es| ==>
      && first == start
      && (forall j :: es[first].index < j < |h| ==> !h[j].RecordComment?)
      && var link, highest := es[first].source.link, HighestRound(h);
         link.advance == highest.Some? && link.anchor == if highest.Some? then highest.value else 1
  }

  datatype Lineage = Lineage(
    root: Identity, anchored: bool, elements: seq<Element>, carried: set<Digest>, inits: Inits)
  {
    function Trailing(): seq<Element> { elements[TrailingStart(elements, carried)..] }

    predicate HasPendingLink() {
      exists i :: TrailingStart(elements, carried) <= i < |elements| && elements[i].IsLink()
    }

    predicate HasPendingAmendment() {
      exists i :: TrailingStart(elements, carried) <= i < |elements| && !elements[i].IsLink()
    }

    function Current(): Identity { ApplyInits(IdentityAfter(root, elements), inits) }
  }

  /** The lineage of `h`; `legacyRoot` is the root when no artifact anchors one. */
  function Resolve(s: Surface, legacyRoot: Identity, h: History): Outcome<Lineage> {
    var anchor := FirstAnchor(h);
    var root := if anchor.Some? then anchor.value else legacyRoot;
    var raws :- Collect(s, h);
    if !AnchoredAt(h, root) then Refused
    else if root.policy !in s.policies || !s.contractOk(ContractOf(root)) then Refused
    else
      var es :- Elements(s, root, raws);
      if !LegacyBindingsOk(h) then Refused
      else
        var p :- Walk(root, es, h);
        if UseConsistent(es, p.carried) && PendingConsistent(h, es, p.carried)
        then Accepted(Lineage(root, anchor.Some?, es, p.carried, p.inits)) else Refused
  }
}
