/**
 * The writers of a board lineage - the record stamp, the board-change candidate and
 * the signed amendment - and the proof that whatever they write is accepted.
 */
module BoardProtocol {
  import opened Common
  import opened BoardAmendment
  import opened BoardIdentity
  import opened BoardLineage
  import opened BoardFacts
  import opened BoardGovernance

  // --- The writers -----------------------------------------------------------------------

  /** The record a run posts under the latest element; `onBase` keeps the segment base's binding. */
  function StampedFor(
    l: Lineage, configured: Identity, round: int, role: Role, agent: string, bearsContract: bool, onBase: bool): Record
  {
    var pending := PendingInits(l.Current(), configured);
    var identity := ApplyInits(l.Current(), pending);
    var base := ApplyInits(BaseAfter(l.root, l.elements), l.inits + pending);
    Record(round, Present(l.root), Present(identity),
           if pending == map[] then Absent else Present(InitPayload(pending)),
           AmendmentDigestAfter(l.elements), ChangeDigestAfter(l.elements),
           SeatBinding(if onBase then base else identity), role, agent,
           if bearsContract then Some(ContractAfter(l.root, l.elements)) else None, false)
  }

  /** The link a differing configured board would post. */
  function CandidateLink(l: Lineage, configured: Identity, h: History): Outcome<Link> {
    if l.HasPendingAmendment() then Refused
    else
      var start := TrailingStart(l.elements, l.carried);
      var highest := HighestRound(h);
      var last := |l.elements| - 1;
      assert start < |l.elements| ==> l.elements[last].IsLink();
      var anchor := if start < |l.elements| then l.elements[last].source.link.anchor
                    else if highest.Some? then highest.value else 1;
      var advance := if start < |l.elements| then l.elements[last].source.link.advance else highest.Some?;
      var change := DescribeChange(l.Current(), configured);
      Accepted(Link(l.root, DigestAfter(l.root, l.elements), l.Current(), configured,
                    SeatBinding(ApplyInits(BaseAfter(l.root, l.elements), l.inits)), SeatBinding(configured),
                    change.added, change.removed, change.rebound,
                    InitPayload(PendingInits(l.Current(), configured)),
                    anchor, advance, anchor + if advance then 1 else 0))
  }

  /** Whether the configured board is a board change against the current view. */
  predicate ConfiguredDiffers(configured: Identity, view: Identity) {
    || BoardNames(configured) != BoardNames(view) || configured.primary != view.primary
    || exists i :: 0 <= i < |view.seats| && i < |configured.seats|
         && !SeatsCompatible(view.seats[i], configured.seats[i])
  }

  /** Under one policy and one set of rules, a configured board is a change exactly when it is not compatible with the
      view. */
  lemma DiffersExact(configured: Identity, view: Identity)
    requires configured.policy == view.policy && configured.rules == view.rules
    ensures ConfiguredDiffers(configured, view) <==> !BindingCompatible(view, configured)
  {
    BindingCompatibleExact(view, configured);
    assert |BoardNames(view)| == |view.seats| && |BoardNames(configured)| == |configured.seats|;
    hide SeatsCompatible;
    if BoardNames(view) == BoardNames(configured) { assert |view.seats| == |configured.seats|; }
  }

  /** What a stamp carries: the initializations when there are any, the binding of the board or of its segment base, and
      the contract in force when the record bears one. */
  lemma StampSays(
    l: Lineage, configured: Identity, round: int, role: Role, agent: string, bearsContract: bool, onBase: bool)
    ensures var r := StampedFor(l, configured, round, role, agent, bearsContract, onBase);
            var pending := PendingInits(l.Current(), configured);
            && (r.init == Absent <==> forall id :: id !in pending)
            && (r.init == Absent || r.init == Present(InitPayload(pending)))
            && (r.contract == None <==> !bearsContract)
            && (bearsContract ==> r.contract == Some(ContractAfter(l.root, l.elements)))
            && (onBase ==> r.binding == SeatBinding(ApplyInits(BaseAfter(l.root, l.elements), l.inits + pending)))
            && (!onBase ==> r.identity.Present? && r.binding == SeatBinding(r.identity.value))
  {
    hide PendingInits, SeatBinding, InitPayload, ApplyInits;
  }

  // --- Growing a history ---------------------------------------------------------------------

  /** A run takes one stamp, from the lineage it resolved when it started, and posts every record with it. */
  datatype Run = Run(taken: Lineage, configured: Identity)

  /** The comments so far, and the run under way. */
  datatype World = World(history: History, run: Option<Run>)

  /** Posting a link belongs to starting up: the run under way, if any, is over. */
  datatype Action =
    | StartRun(configured: Identity)
    | PostRecord(round: int, role: Role, agent: string, bearsContract: bool, onBase: bool)
    | PostLink(configured: Identity)
    | PostAmendment(amendment: Amendment)
    | PostPlain

  predicate Known(identity: Identity) {
    forall seat :: seat in identity.seats ==> seat.chain.Some?
  }

  /** Signed amendment `a` is valid on the current board. */
  predicate Applies(s: Surface, l: Lineage, a: Amendment) {
    && a.flow == s.flow
    && AmendContract(s.contractOk, ContractAfter(l.root, l.elements), a,
                     BoardNames(BaseAfter(l.root, l.elements)), RemovedBy(Segment(l.elements))).Accepted?
    && s.outageOk(a, SeatBinding(BaseAfter(l.root, l.elements)))
  }

  predicate NotBeforeLatest(l: Lineage, round: int) {
    l.elements == [] || l.elements[|l.elements| - 1].Effective() <= round
  }

  /** A run stamps positive rounds, and only reviews by seats of its board or its segment base. */
  predicate MayStamp(taken: Lineage, round: int, role: Role, agent: string) {
    && round >= 1
    && (role == Reviewer ==>
         agent in BoardNames(taken.Current()) || agent in BoardNames(BaseAfter(taken.root, taken.elements)))
  }

  /** The element the stamp was taken under still governs a record posted now: no later one is in effect. */
  predicate StampGoverns(taken: Lineage, l: Lineage, round: int) {
    && NotBeforeLatest(taken, round)
    && (|taken.elements| < |l.elements| ==> round < l.elements[|taken.elements|].Effective())
  }

  /** When the writers may act: the conditions their callers establish. */
  predicate Enabled(s: Surface, l: Lineage, run: Option<Run>, action: Action) {
    match action
    case StartRun(configured) => WellFormed(configured)
    case PostRecord(round, role, agent, _, _) =>
      run.Some? && MayStamp(run.value.taken, round, role, agent) && StampGoverns(run.value.taken, l, round)
    case PostLink(configured) =>
      && WellFormed(configured) && Known(configured)
      && configured.policy == l.root.policy && configured.rules == l.root.rules
      && s.contractOk(ContractOf(configured)) && !l.HasPendingAmendment()
    case PostAmendment(a) =>
      Applies(s, l, a) && !l.HasPendingLink() && NotBeforeLatest(l, a.effective - 1)
    case PostPlain => true
  }

  /** The record a run posts with its stamp. */
  function RunRecord(run: Run, action: Action): Comment
    requires action.PostRecord?
  {
    RecordComment(StampedFor(run.taken, run.configured, action.round, action.role, action.agent,
                             action.bearsContract, action.onBase))
  }

  function Candidate(l: Lineage, configured: Identity, h: History): Comment {
    var link := CandidateLink(l, configured, h);
    if link.Accepted? then LinkComment(link.value) else PlainComment
  }

  function Next(w: World, l: Lineage, action: Action): World {
    match action
    case StartRun(configured) => w.(run := Some(Run(l, configured)))
    case PostRecord(_, _, _, _, _) =>
      if w.run.Some? then w.(history := w.history + [RunRecord(w.run.value, action)]) else w
    case PostLink(configured) => World(w.history + [Candidate(l, configured, w.history)], None)
    case PostAmendment(a) => w.(history := w.history + [AmendmentComment(a)])
    case PostPlain => w.(history := w.history + [PlainComment])
  }

  /** Where the actions lead, from an empty history. */
  function After(s: Surface, root: Identity, actions: seq<Action>): World
    decreases |actions|
  {
    if actions == [] then World([], None)
    else
      var w := After(s, root, actions[..|actions| - 1]);
      var r := Resolve(s, root, w.history);
      if r.Refused? then w else Next(w, r.value, actions[|actions| - 1])
  }

  /** Each of the actions was enabled when it was taken. */
  ghost predicate Grown(s: Surface, root: Identity, actions: seq<Action>)
    decreases |actions|
  {
    actions != [] ==>
      var w := After(s, root, actions[..|actions| - 1]);
      && Grown(s, root, actions[..|actions| - 1])
      && (Resolve(s, root, w.history).Accepted? ==>
            Enabled(s, Resolve(s, root, w.history).value, w.run, actions[|actions| - 1]))
  }

  /** One more enabled action. */
  lemma GrownMore(s: Surface, root: Identity, actions: seq<Action>, action: Action)
    requires Grown(s, root, actions)
    requires var w := After(s, root, actions);
             && Resolve(s, root, w.history).Accepted?
             && Enabled(s, Resolve(s, root, w.history).value, w.run, action)
    ensures Grown(s, root, actions + [action])
    ensures var w := After(s, root, actions);
            After(s, root, actions + [action]) == Next(w, Resolve(s, root, w.history).value, action)
  {
    hide Resolve, Enabled, Next;
    assert (actions + [action])[..|actions|] == actions;
  }

  // --- The invariant of grown histories -----------------------------------------------------------

  /** Only seats of the root can still lack a binding. */
  ghost predicate UnknownFromRoot(root: Identity, seats: seq<Seat>) {
    forall seat :: seat in seats && seat.chain.None? ==> seat in root.seats
  }

  /** Initializations bind root seats, on the root's own backend. */
  ghost predicate InitsOnRoot(root: Identity, inits: Inits) {
    InitsOk(inits) && forall id :: id in inits ==>
      FindSeat(root.seats, id).Some? && FindSeat(root.seats, id).value.backend == inits[id].backend
  }

  /** Every pending link but the last element has been superseded. */
  ghost predicate PendingChained(es: seq<Element>, carried: set<Digest>) {
    forall i :: TrailingStart(es, carried) <= i && i + 1 < |es| && es[i].IsLink() ==> Superseded(es, i)
  }

  ghost predicate StampedRounds(h: History) {
    forall i :: 0 <= i < |h| && h[i].RecordComment? ==>
      h[i].record.root.Present? && h[i].record.round >= 1 && !h[i].record.neutral
  }

  ghost predicate PositiveRounds(h: History) {
    forall i :: 0 <= i < |h| && h[i].RecordComment? ==> h[i].record.round >= 1
  }

  ghost predicate RootOk(s: Surface, root: Identity) {
    OnSurface(s, root) && s.contractOk(ContractOf(root))
  }

  /** An accepted resolution with what always holds of it. */
  ghost predicate Resolved(s: Surface, root: Identity, h: History, raws: seq<Raw>, es: seq<Element>, p: Progress) {
    Parts(s, root, h, raws, es, p) && RawsOk(s, h, raws) && Ordered(es) && BoardSound(root, es)
  }

  ghost predicate Inv(s: Surface, root: Identity, h: History, raws: seq<Raw>, es: seq<Element>, p: Progress) {
    && Resolved(s, root, h, raws, es, p)
    && UnknownFromRoot(root, BaseAfter(root, es).seats)
    && InitsOnRoot(root, p.inits)
    && PendingChained(es, p.carried)
    && StampedRounds(h)
  }

  /** The run's stamp was taken under a prefix of the lineage; only amendments no record uses came since, and
      nobody but the run itself has recorded initializations. */
  ghost predicate RunInv(root: Identity, es: seq<Element>, p: Progress, run: Run) {
    var t := run.taken;
    && t.root == root && t.elements <= es && WellFormed(run.configured)
    && (forall i :: |t.elements| <= i < |es| ==> !es[i].IsLink() && es[i].Digest() !in p.carried)
    && BoardSound(root, t.elements)
    && UnknownFromRoot(root, BaseAfter(root, t.elements).seats) && InitsOnRoot(root, t.inits)
    && (p.inits == t.inits || p.inits == t.inits + PendingInits(t.Current(), run.configured))
  }

  ghost predicate RunOk(root: Identity, es: seq<Element>, p: Progress, run: Option<Run>) {
    run.Some? ==> RunInv(root, es, p, run.value)
  }

  // --- Pending initializations ------------------------------------------------------------------------

  lemma {:induction false} FindSeatApplied(seats: seq<Seat>, applied: seq<Seat>, inits: Inits, id: string)
    requires |applied| == |seats| && forall i :: 0 <= i < |seats| ==> applied[i] == ApplyInit(seats[i], inits)
    ensures FindSeat(seats, id).Some? <==> FindSeat(applied, id).Some?
    ensures FindSeat(seats, id).Some? ==> FindSeat(applied, id).value == ApplyInit(FindSeat(seats, id).value, inits)
    decreases |seats|
  {
    if seats != [] { FindSeatApplied(seats[1..], applied[1..], inits, id); }
  }

  lemma PendingSeatFresh(root: Identity, es: seq<Element>, inits: Inits, configured: Identity, id: string)
    requires WellFormed(root) && WellFormed(configured) && BoardSound(root, es)
    requires UnknownFromRoot(root, BaseAfter(root, es).seats) && InitsOnRoot(root, inits)
    requires PendingInit(ApplyInits(IdentityAfter(root, es), inits), configured, id).Some?
    ensures var view := ApplyInits(IdentityAfter(root, es), inits);
            var init := PendingInit(view, configured, id).value;
            && id !in inits && ChainOk(init.chain)
            && FindSeat(view.seats, id).Some? && FindSeat(view.seats, id).value.chain.None?
            && FindSeat(IdentityAfter(root, es).seats, id).Some?
            && FindSeat(IdentityAfter(root, es).seats, id).value.backend == init.backend
            && FindSeat(configured.seats, id).Some? && FindSeat(configured.seats, id).value.backend == init.backend
            && FindSeat(root.seats, id).Some? && FindSeat(root.seats, id).value.backend == init.backend
  {
    hide FindSeat, Valid, SeatOk, ChainOk;
    var identity := IdentityAfter(root, es);
    FindSeatApplied(identity.seats, ApplyInits(identity, inits).seats, inits, id);
    var seat := FindSeat(identity.seats, id).value;
    assert seat in BaseAfter(root, es).seats;
    UniqueOnBoard(root, seat);
    var target := FindSeat(configured.seats, id).value;
    assert SeatOk(target);
    SeatChainOk(target);
  }

  /** A seat still unknown in the current view is an uninitialized seat of the root. */
  lemma PendingInitsFresh(root: Identity, es: seq<Element>, inits: Inits, configured: Identity)
    requires WellFormed(root) && WellFormed(configured) && BoardSound(root, es)
    requires UnknownFromRoot(root, BaseAfter(root, es).seats) && InitsOnRoot(root, inits)
    ensures var view := ApplyInits(IdentityAfter(root, es), inits);
            var pending := PendingInits(view, configured);
            && pending.Keys !! inits.Keys
            && InitsOnRoot(root, inits + pending)
            && (forall id :: id in pending ==>
                  && FindSeat(view.seats, id).Some? && FindSeat(view.seats, id).value.chain.None?
                  && FindSeat(IdentityAfter(root, es).seats, id).Some?
                  && FindSeat(IdentityAfter(root, es).seats, id).value.backend == pending[id].backend
                  && FindSeat(configured.seats, id).Some?
                  && FindSeat(configured.seats, id).value.backend == pending[id].backend)
  {
    hide FindSeat, WellFormed, ChainOk, BoardSound, UnknownFromRoot, PendingInit, ApplyInits;
    var view := ApplyInits(IdentityAfter(root, es), inits);
    var pending := PendingInits(view, configured);
    forall id | id in pending
      ensures id !in inits && ChainOk(pending[id].chain)
      ensures FindSeat(view.seats, id).Some? && FindSeat(view.seats, id).value.chain.None?
      ensures FindSeat(IdentityAfter(root, es).seats, id).Some?
      ensures FindSeat(IdentityAfter(root, es).seats, id).value.backend == pending[id].backend
      ensures FindSeat(configured.seats, id).Some?
              && FindSeat(configured.seats, id).value.backend == pending[id].backend
      ensures FindSeat(root.seats, id).Some? && FindSeat(root.seats, id).value.backend == pending[id].backend
    {
      PendingSeatFresh(root, es, inits, configured, id);
    }
  }

  lemma UniqueOnBoard(board: Identity, seat: Seat)
    requires Valid(board) && seat in board.seats
    ensures FindSeat(board.seats, seat.id) == Some(seat)
  {
    FindSeatUnique(board.seats, seat);
  }

  lemma SeatChainOk(seat: Seat)
    requires SeatOk(seat) && seat.chain.Some?
    ensures ChainOk(seat.chain.value)
  {
  }

  // --- Appending to the structures -----------------------------------------------------------------

  lemma StampedLegacyOk(h: History)
    requires StampedRounds(h)
    ensures LegacyBindingsOk(h)
  {
    hide Backends, FindSeat;
  }

  lemma {:induction false} TrailingStartAppend(es: seq<Element>, e: Element, carried: set<Digest>)
    requires e.Digest() !in carried
    ensures TrailingStart(es + [e], carried) == TrailingStart(es, carried)
  {
    assert (es + [e])[..|es|] == es;
  }

  lemma {:induction false} CarriedAreElements(root: Identity, es: seq<Element>, h: History, d: Digest)
    requires Walk(root, es, h).Accepted? && d in Walk(root, es, h).value.carried
    ensures exists i :: 0 <= i < |es| && es[i].Digest() == d
    decreases |h|
  {
    hide CommentStep, Before;
    if h != [] {
      var front := h[..|h| - 1];
      CommentStepCarries(root, es, |h| - 1, h[|h| - 1], Walk(root, es, front).value);
      if d in Walk(root, es, front).value.carried {
        CarriedAreElements(root, es, front, d);
      }
    }
  }

  lemma AllBefore(es: seq<Element>, index: nat)
    requires forall i :: 0 <= i < |es| ==> es[i].index < index
    ensures Before(es, index) == es
  {
  }

  lemma AppendWalk(root: Identity, h: History, es: seq<Element>, p: Progress, c: Comment, e: Element)
    requires Walk(root, es, h) == Accepted(p)
    requires e.index == |h| && !c.RecordComment? && forall i :: 0 <= i < |es| ==> es[i].index < |h|
    ensures Walk(root, es + [e], h + [c]) == if c.LinkComment? then LinkStep(root, es, c.link, p) else Accepted(p)
  {
    hide LinkStep, RecordStep;
    var es', h' := es + [e], h + [c];
    assert h'[..|h|] == h && es'[..|es|] == es;
    WalkIgnoresLater(root, es', |es|, h);
    AllBefore(es, |h|);
    assert Before(es', |h|) == es;
    assert es'[|es|].index == |h|;
    assert ElementAt(es', |h|);
  }

  lemma ElementBefore(s: Surface, root: Identity, h: History, raws: seq<Raw>, i: nat)
    requires RawsOk(s, h, raws) && i < |raws| && Elements(s, root, raws).Accepted?
    ensures Elements(s, root, raws).value[i].index < |h|
  {
    hide Elements, SourceOk;
    ElementsMatchRaws(s, root, raws, i);
  }

  lemma CollectAppend(s: Surface, h: History, raws: seq<Raw>, c: Comment, source: Source)
    requires Collect(s, h) == Accepted(raws) && SourceOf(c) == Some(source)
    requires SourceOk(s, source) && !Posted?(raws, source)
    ensures Collect(s, h + [c]) == Accepted(raws + [Raw(|h|, source)])
  {
    hide SourceOk, Posted?;
    assert (h + [c])[..|h|] == h;
  }

  lemma ElementsAppend(s: Surface, root: Identity, raws: seq<Raw>, es: seq<Element>, raw: Raw, e: Element)
    requires Elements(s, root, raws) == Accepted(es) && NextElement(s, root, es, raw) == Accepted(e)
    ensures Elements(s, root, raws + [raw]) == Accepted(es + [e])
  {
    hide NextElement;
    assert (raws + [raw])[..|raws|] == raws;
  }

  lemma AppendRaw(s: Surface, root: Identity, h: History, raws: seq<Raw>, es: seq<Element>, c: Comment, e: Element)
    requires WellFormed(root) && Collect(s, h) == Accepted(raws) && Elements(s, root, raws) == Accepted(es)
    requires SourceOf(c) == Some(e.source) && SourceOk(s, e.source) && !Posted?(raws, e.source)
    requires NextElement(s, root, es, Raw(|h|, e.source)) == Accepted(e)
    ensures var raws' := raws + [Raw(|h|, e.source)];
            && Collect(s, h + [c]) == Accepted(raws')
            && Elements(s, root, raws') == Accepted(es + [e])
            && RawsOk(s, h + [c], raws') && Ordered(es + [e]) && BoardSound(root, es + [e])
  {
    hide SourceOk, NextElement, BoardSound, Ordered, RawsOk, Posted?, WellFormed, Collect, Elements;
    var raws', h' := raws + [Raw(|h|, e.source)], h + [c];
    CollectAppend(s, h, raws, c, e.source);
    ElementsAppend(s, root, raws, es, Raw(|h|, e.source), e);
    CollectOk(s, h');
    ElementsOrdered(s, root, h', raws');
    BoardsSound(s, root, h', raws');
  }

  lemma AppendAnchors(root: Identity, h: History, c: Comment)
    requires AnchoredAt(h, root) && LegacyBindingsOk(h) && !c.RecordComment?
            && (AnchorOf(c).Some? ==> AnchorOf(c).value == root)
    ensures AnchoredAt(h + [c], root) && LegacyBindingsOk(h + [c])
  {
    hide Backends, FindSeat;
    var h' := h + [c];
    assert forall i :: 0 <= i < |h| ==> h'[i] == h[i];
  }

  /** Everything about appending a new lineage element, except the final consistency checks. */
  lemma AppendElement(
    s: Surface, root: Identity, h: History, raws: seq<Raw>, es: seq<Element>, p: Progress, c: Comment, e: Element)
    requires WellFormed(root) && Resolved(s, root, h, raws, es, p)
    requires SourceOf(c) == Some(e.source) && SourceOk(s, e.source) && !Posted?(raws, e.source)
    requires c.LinkComment? ==> c.link.root == root
    requires NextElement(s, root, es, Raw(|h|, e.source)) == Accepted(e)
    requires UseConsistent(es + [e], p.carried) && PendingConsistent(h + [c], es + [e], p.carried)
    ensures var walked := if c.LinkComment? then LinkStep(root, es, c.link, p) else Accepted(p);
            && Walk(root, es + [e], h + [c]) == walked
            && Collect(s, h + [c]) == Accepted(raws + [Raw(|h|, e.source)])
            && Elements(s, root, raws + [Raw(|h|, e.source)]) == Accepted(es + [e])
            && AnchoredAt(h + [c], root)
            && (walked.Accepted? && walked.value.carried == p.carried ==>
                  Resolved(s, root, h + [c], raws + [Raw(|h|, e.source)], es + [e], walked.value))
  {
    hide Collect, Elements, SourceOk, LinkStep, NextElement, Walk, UseConsistent, PendingConsistent, BoardSound,
      Ordered, Posted?, AnchoredAt, LegacyBindingsOk, RawsOk, WellFormed;
    AppendRaw(s, root, h, raws, es, c, e);
    forall i | 0 <= i < |es| ensures es[i].index < |h| { ElementBefore(s, root, h, raws, i); }
    AppendWalk(root, h, es, p, c, e);
    AppendAnchors(root, h, c);
  }

  /** Appending a comment that adds no element. */
  lemma AppendOther(
    s: Surface, root: Identity, h: History, raws: seq<Raw>, es: seq<Element>, p: Progress, c: Comment, p': Progress)
    requires RootOk(s, root) && Inv(s, root, h, raws, es, p)
    requires SourceOf(c).None? && StampedRounds(h + [c]) && RecordShapeOk(c)
            && (AnchorOf(c).Some? ==> AnchorOf(c).value == root)
    requires CommentStep(root, es, |h|, c, p) == Accepted(p')
    requires InitsOnRoot(root, p'.inits)
    requires UseConsistent(es, p'.carried) && PendingConsistent(h + [c], es, p'.carried)
            && PendingChained(es, p'.carried)
    ensures Inv(s, root, h + [c], raws, es, p')
  {
    hide SourceOk, CommentStep, Elements, UseConsistent, PendingConsistent, PendingChained, BoardSound, InitsOnRoot,
      UnknownFromRoot, Ordered, StampedRounds;
    var h' := h + [c];
    assert h'[..|h|] == h;
    assert Collect(s, h') == Accepted(raws);
    CollectOk(s, h');
    StampedLegacyOk(h');
  }

  // --- Each writer keeps the invariant -------------------------------------------------------------------

  lemma LineageOf(s: Surface, root: Identity, h: History, raws: seq<Raw>, es: seq<Element>, p: Progress)
    returns (l: Lineage)
    requires Inv(s, root, h, raws, es, p)
    ensures Resolve(s, root, h) == Accepted(l)
    ensures l.root == root && l.elements == es && l.carried == p.carried && l.inits == p.inits
  {
    hide Parts, Resolve;
    PartsResolve(s, root, h, raws, es, p);
    l := Resolve(s, root, h).value;
  }

  lemma NoInits(board: Identity)
    ensures ParseInits(map[], board) == Accepted(map[])
  {
  }

  /** Pending initializations merge cleanly and complete the stamped identity. */
  lemma PendingInitsMerge(root: Identity, es: seq<Element>, inits: Inits, configured: Identity, board: Identity)
    requires WellFormed(root) && WellFormed(configured) && BoardSound(root, es)
    requires UnknownFromRoot(root, BaseAfter(root, es).seats) && InitsOnRoot(root, inits)
    requires board == IdentityAfter(root, es) || board == configured
    ensures var view := ApplyInits(IdentityAfter(root, es), inits);
            var pending := PendingInits(view, configured);
            && ParseInits(InitPayload(pending), board) == Accepted(pending)
            && ParseInits(map[], board) == Accepted(map[])
            && MergeAllowed(inits, pending, Some(view)) && MergeAllowed(inits, pending, None)
            && InitsOnRoot(root, inits + pending)
            && ApplyInits(view, pending) == ApplyInits(IdentityAfter(root, es), inits + pending)
  {
    hide FindSeat, PendingInits, UnknownFromRoot, ApplyInits, InitsOnRoot, BoardSound, WellFormed, ChainOk,
      ParseInits, InitPayload;
    var identity := IdentityAfter(root, es);
    var view := ApplyInits(identity, inits);
    var pending := PendingInits(view, configured);
    PendingInitsFresh(root, es, inits, configured);
    PendingInitsRoundTrip(view, configured, board);
    NoInits(board);
    ApplyInitsTwice(identity, inits, pending);
  }

  lemma MergeAgain(inits: Inits, added: Inits, view: Option<Identity>)
    ensures MergeAllowed(inits + added, added, view) && inits + added + added == inits + added
  {
    hide FindSeat;
  }

  /** The stamp is what the resolver expects of a record under its element, the first time and every time after. */
  lemma StampAccepted(
    s: Surface, root: Identity, p: Progress, l: Lineage,
    configured: Identity, round: int, role: Role, agent: string, bearsContract: bool, onBase: bool)
    requires WellFormed(root) && WellFormed(configured) && BoardSound(root, l.elements) && l.root == root
    requires UnknownFromRoot(root, BaseAfter(root, l.elements).seats) && InitsOnRoot(root, l.inits)
    requires p.inits == l.inits || p.inits == l.inits + PendingInits(l.Current(), configured)
    requires role == Reviewer ==> agent in BoardNames(l.Current()) || agent in BoardNames(BaseAfter(root, l.elements))
    ensures var r := StampedFor(l, configured, round, role, agent, bearsContract, onBase);
            var inits := l.inits + PendingInits(l.Current(), configured);
            && StampedRecord(root, l.elements, r, p) == Accepted(Carry(p.(inits := inits), l.elements))
            && InitsOnRoot(root, inits)
  {
    hide FindSeat, PendingInits, SeatBinding, UnknownFromRoot, ParseInits, MergeAllowed, ApplyInits, WellFormed,
      InitPayload, BoardNames, InitsOk;
    var identity := IdentityAfter(root, l.elements);
    var pending := PendingInits(l.Current(), configured);
    PendingInitsMerge(root, l.elements, l.inits, configured, identity);
    ApplyInitsWellFormed(identity, l.inits + pending);
    MergeAgain(l.inits, pending, Some(ApplyInits(identity, p.inits)));
    assert p.inits + map[] == p.inits;
  }

  /** Carrying the `n`-th element, with only unused amendments behind it, leaves no link pending. */
  lemma StampedDigests(es: seq<Element>, n: nat, carried: set<Digest>)
    requires n <= |es| && Ordered(es) && PendingChained(es, carried) && UseConsistent(es, carried)
    requires forall i :: n <= i < |es| ==> !es[i].IsLink() && es[i].Digest() !in carried
    ensures var carried' := carried + if n == 0 then {} else {es[n - 1].Digest()};
            && TrailingStart(es, carried') == n
            && (forall i :: n <= i < |es| ==> es[i].Digest() !in carried')
            && UseConsistent(es, carried') && PendingChained(es, carried')
  {
    hide TrailingStart;
    var carried' := carried + if n == 0 then {} else {es[n - 1].Digest()};
    var start := TrailingStart(es, carried);
    forall i | n <= i < |es| ensures es[i].Digest() !in carried' {
      if n > 0 { DistinctDigests(es, n - 1, i); }
    }
    forall i | 0 <= i < n - 1 ensures es[i].Digest() in carried' <==> es[i].Digest() in carried {
      DistinctDigests(es, i, n - 1);
    }
  }

  lemma NothingPending(h: History, es: seq<Element>, carried: set<Digest>)
    requires forall i :: TrailingStart(es, carried) <= i < |es| ==> !es[i].IsLink()
    ensures PendingConsistent(h, es, carried)
  {
    hide TrailingStart;
  }

  lemma RunPrefix(root: Identity, es: seq<Element>, p: Progress, run: Run)
    requires RunInv(root, es, p, run)
    ensures |run.taken.elements| <= |es| && es[..|run.taken.elements|] == run.taken.elements
  {
  }

  lemma RecordKeepsInv(
    s: Surface, root: Identity, h: History, raws: seq<Raw>, es: seq<Element>, p: Progress, l: Lineage, run: Run,
      action: Action)
    returns (p': Progress)
    requires RootOk(s, root) && Inv(s, root, h, raws, es, p) && RunInv(root, es, p, run)
    requires l.root == root && l.elements == es && l.carried == p.carried && l.inits == p.inits
    requires action.PostRecord? && Enabled(s, l, Some(run), action)
    ensures Inv(s, root, h + [RunRecord(run, action)], raws, es, p') && RunInv(root, es, p', run)
    ensures p'.inits == run.taken.inits + PendingInits(run.taken.Current(), run.configured)
  {
    hide Resolve, Collect, AnchoredAt, Elements, LegacyBindingsOk, Walk, WellFormed, BoardSound, UnknownFromRoot,
      InitsOnRoot, PendingChained, UseConsistent, PendingConsistent, StampedRecord, GoverningCount, RawsOk, Ordered,
      TrailingStart, PendingInits, SeatBinding, HighestRound, ApplyInits;
    var PostRecord(round, role, agent, bearsContract, onBase) := action;
    var c, t := RunRecord(run, action), run.taken;
    RunPrefix(root, es, p, run);
    StampAccepted(s, root, p, t, run.configured, round, role, agent, bearsContract, onBase);
    p' := Carry(p.(inits := t.inits + PendingInits(t.Current(), run.configured)), t.elements);
    StampElementGoverns(s, root, h, raws, es, |t.elements|, round);
    StampedDigests(es, |t.elements|, p.carried);
    NothingPending(h + [c], es, p'.carried);
    AppendOther(s, root, h, raws, es, p, c, p');
  }

  /** The `n`-th element governs a record posted now exactly in the rounds from its own to before the next one's. */
  lemma StampElementGoverns(
    s: Surface, root: Identity, h: History, raws: seq<Raw>, es: seq<Element>, n: nat, round: int)
    requires RawsOk(s, h, raws) && Elements(s, root, raws) == Accepted(es) && Ordered(es) && n <= |es|
    requires n < |es| ==> n == 0 || es[n - 1].Effective() < es[n].Effective()
    ensures GoverningCount(es, |h|, round) == n
            <==> (n > 0 ==> es[n - 1].Effective() <= round) && (n < |es| ==> round < es[n].Effective())
  {
    hide Elements, RawsOk, GoverningCount;
    forall i | 0 <= i < |es| ensures es[i].index < |h| { ElementBefore(s, root, h, raws, i); }
    if n > 0 { GoverningIsPrefix(es, |h|, round, n - 1); }
    if n < |es| { GoverningIsPrefix(es, |h|, round, n); }
  }

  lemma LatestGoverns(s: Surface, root: Identity, h: History, raws: seq<Raw>, es: seq<Element>, round: int)
    requires RawsOk(s, h, raws) && Elements(s, root, raws) == Accepted(es)
    requires es == [] || es[|es| - 1].Effective() <= round
    ensures GoverningCount(es, |h|, round) == |es|
  {
    hide Elements, RawsOk;
    if es != [] { ElementBefore(s, root, h, raws, |es| - 1); }
  }

  // --- The candidate link ---------------------------------------------------------------------------------

  lemma AllTrailingAreLinks(l: Lineage, i: nat)
    requires !l.HasPendingAmendment() && TrailingStart(l.elements, l.carried) <= i < |l.elements|
    ensures l.elements[i].IsLink()
  {
    hide TrailingStart;
  }

  lemma HighestCoversLatest(root: Identity, h: History, es: seq<Element>, p: Progress)
    requires Ordered(es) && Walk(root, es, h) == Accepted(p) && es != [] && TrailingStart(es, p.carried) == |es|
    ensures HighestRound(h).Some? && es[|es| - 1].Effective() <= HighestRound(h).value
  {
    hide Walk, Ordered, HighestRound, TrailingStart;
    assert es[|es| - 1].Digest() in p.carried;
    CarriedByRecord(root, es, h, |es| - 1);
    var i :| 0 <= i < |h| && h[i].RecordComment? && Governs(es[|es| - 1], i, h[i].record.round);
  }

  lemma LatestLinkOk(s: Surface, root: Identity, h: History, raws: seq<Raw>, es: seq<Element>, i: nat)
    requires RawsOk(s, h, raws) && Elements(s, root, raws) == Accepted(es) && i < |es| && es[i].IsLink()
    ensures LinkOk(s, es[i].source.link)
  {
    hide Elements, LinkOk;
    ElementsMatchRaws(s, root, raws, i);
    assert SourceOk(s, raws[i].source);
  }

  /** The rounds of a candidate follow the lineage, or copy the pending link it supersedes. */
  lemma CandidateRounds(
    s: Surface, root: Identity, h: History, raws: seq<Raw>, es: seq<Element>, p: Progress, l: Lineage,
    configured: Identity)
    requires Resolved(s, root, h, raws, es, p) && PositiveRounds(h)
    requires l.root == root && l.elements == es && l.carried == p.carried && !l.HasPendingAmendment()
    ensures CandidateLink(l, configured, h).Accepted?
    ensures var link := CandidateLink(l, configured, h).value;
            && link.anchor >= 1
            && (if TrailingStart(es, p.carried) < |es| then
                  var last := es[|es| - 1];
                  last.IsLink() && last.Effective() == link.effective
                  && last.source.link.anchor == link.anchor && last.source.link.advance == link.advance
                else (es != [] ==> es[|es| - 1].Effective() < link.effective)
                     && link.advance == HighestRound(h).Some?
                     && link.anchor == if HighestRound(h).Some? then HighestRound(h).value else 1)
  {
    hide Collect, AnchoredAt, Elements, LegacyBindingsOk, Walk, BoardSound, UnknownFromRoot, InitsOnRoot,
      PendingChained, UseConsistent, PendingConsistent, RawsOk, Ordered, TrailingStart, HighestRound, PendingInits,
      SeatBinding, ApplyInits, DescribeChange, InitPayload, OnSurface, ParseInits;
    if TrailingStart(es, p.carried) < |es| {
      AllTrailingAreLinks(l, |es| - 1);
      LatestLinkOk(s, root, h, raws, es, |es| - 1);
    } else if es != [] {
      HighestCoversLatest(root, h, es, p);
    }
  }

  lemma CandidateOk(
    s: Surface, root: Identity, h: History, raws: seq<Raw>, es: seq<Element>, p: Progress, l: Lineage,
    configured: Identity)
    requires RootOk(s, root) && Resolved(s, root, h, raws, es, p) && InitsOk(p.inits) && PositiveRounds(h)
    requires l.root == root && l.elements == es && l.carried == p.carried && l.inits == p.inits
    requires Enabled(s, l, None, PostLink(configured))
    ensures CandidateLink(l, configured, h).Accepted? && LinkOk(s, CandidateLink(l, configured, h).value)
  {
    hide Parts, RawsOk, Ordered, TrailingStart, HighestRound, PendingInits, SeatBinding, ApplyInits, InitPayload,
      ParseInits, ChainOk, Valid, FindSeat, DescribeChange, PositiveRounds;
    CandidateRounds(s, root, h, raws, es, p, l, configured);
    CandidateParses(l, configured);
    ApplyInitsWellFormed(IdentityAfter(root, es), p.inits);
  }

  lemma CandidateParses(l: Lineage, configured: Identity)
    requires WellFormed(configured)
    ensures ParseInits(InitPayload(PendingInits(l.Current(), configured)), configured)
            == Accepted(PendingInits(l.Current(), configured))
  {
    hide FindSeat, ApplyInits;
    PendingInitsRoundTrip(l.Current(), configured, configured);
  }

  lemma CompatibleReflexive(identity: Identity)
    ensures BindingCompatible(identity, identity)
  {
  }

  /** The candidate names its predecessor, so it repeats no earlier link. */
  lemma CandidateIsNew(s: Surface, root: Identity, h: History, raws: seq<Raw>, es: seq<Element>, link: Link)
    requires RawsOk(s, h, raws) && Elements(s, root, raws) == Accepted(es) && Ordered(es)
    requires link.predecessor == DigestAfter(root, es)
    ensures !Posted?(raws, FromLink(link))
  {
    hide Elements, RawsOk, Ordered;
    if Posted?(raws, FromLink(link)) {
      var i :| 0 <= i < |raws| && raws[i].source == FromLink(link);
      ElementsStep(s, root, raws, i);
      assert link.predecessor == DigestAfter(root, es[..i]);
      if i > 0 { DistinctDigests(es, i - 1, |es| - 1); }
    }
  }

  lemma DistinctDigests(es: seq<Element>, i: nat, j: nat)
    requires Ordered(es) && i < j < |es|
    ensures es[i].Digest() != es[j].Digest()
  {
  }

  lemma NewDigest(s: Surface, root: Identity, h: History, raws: seq<Raw>, es: seq<Element>, p: Progress, e: Element)
    requires Elements(s, root, raws) == Accepted(es) && Walk(root, es, h) == Accepted(p)
    requires !Posted?(raws, e.source)
    ensures e.Digest() !in p.carried
  {
    hide Elements, Walk;
    if e.Digest() in p.carried {
      CarriedAreElements(root, es, h, e.Digest());
      var i :| 0 <= i < |es| && es[i].Digest() == e.Digest();
      ElementsMatchRaws(s, root, raws, i);
    }
  }

  lemma {:induction false} FirstLinkIs(es: seq<Element>, from: nat)
    requires from < |es| && es[from].IsLink()
    ensures FirstLink(es, from) == from
  {
  }

  lemma {:induction false} HighestRoundAppend(h: History, c: Comment)
    requires !c.RecordComment?
    ensures HighestRound(h + [c]) == HighestRound(h)
  {
    assert (h + [c])[..|h|] == h;
  }

  lemma UseAfterLink(es: seq<Element>, e: Element, carried: set<Digest>)
    requires UseConsistent(es, carried) && e.IsLink() && e.Digest() !in carried
    requires TrailingStart(es, carried) < |es| ==> es[|es| - 1].IsLink() && es[|es| - 1].Effective() == e.Effective()
    requires es != [] && TrailingStart(es, carried) == |es| ==> es[|es| - 1].Effective() < e.Effective()
    ensures UseConsistent(es + [e], carried)
  {
    hide TrailingStart;
    TrailingStartAppend(es, e, carried);
    var es' := es + [e];
    assert forall i :: 0 <= i < |es| ==> es'[i] == es[i];
    forall i | 0 <= i && i + 1 < |es| ensures Superseded(es', i) <==> Superseded(es, i) {}
  }

  lemma PendingAfterLink(s: Surface, h: History, c: Comment, l: Lineage, link: Link, e: Element)
    requires !l.HasPendingAmendment() && PendingConsistent(h, l.elements, l.carried)
    requires e.source == FromLink(link) && e.index == |h| && e.Digest() !in l.carried && !c.RecordComment?
    requires TrailingStart(l.elements, l.carried) == |l.elements| ==>
      link.advance == HighestRound(h).Some? && link.anchor == if HighestRound(h).Some? then HighestRound(h).value else 1
    ensures PendingConsistent(h + [c], l.elements + [e], l.carried)
  {
    hide TrailingStart, HighestRound, FirstLink;
    var es, start := l.elements, TrailingStart(l.elements, l.carried);
    TrailingStartAppend(es, e, l.carried);
    HighestRoundAppend(h, c);
    if start < |es| {
      AllTrailingAreLinks(l, start);
      FirstLinkIs(es, start);
    }
    FirstLinkIs(es + [e], start);
  }

  /** The element a candidate link becomes, and all that the resolver checks of it but its initializations. */
  lemma CandidateAppends(
    s: Surface, root: Identity, h: History, raws: seq<Raw>, es: seq<Element>, p: Progress, l: Lineage,
      configured: Identity)
    returns (e: Element)
    requires RootOk(s, root) && Resolved(s, root, h, raws, es, p) && InitsOk(p.inits) && PositiveRounds(h)
    requires l.root == root && l.elements == es && l.carried == p.carried && l.inits == p.inits
    requires Enabled(s, l, None, PostLink(configured))
    ensures CandidateLink(l, configured, h).Accepted?
    ensures e.source == FromLink(CandidateLink(l, configured, h).value)
    ensures e.identity == e.base == configured
    ensures e.Digest() !in p.carried
    ensures TrailingStart(es, p.carried) < |es| ==> es[|es| - 1].IsLink() && es[|es| - 1].Effective() == e.Effective()
    ensures var link := CandidateLink(l, configured, h).value;
            var walked := LinkStep(root, es, link, p);
            var h', raws', es' := h + [LinkComment(link)], raws + [Raw(|h|, e.source)], es + [e];
            && Walk(root, es', h') == walked
            && Collect(s, h') == Accepted(raws') && Elements(s, root, raws') == Accepted(es') && AnchoredAt(h', root)
            && (walked.Accepted? && walked.value.carried == p.carried ==>
                 Resolved(s, root, h', raws', es', walked.value))
  {
    hide Collect, AnchoredAt, Elements, LegacyBindingsOk, Walk, BoardSound, LinkOk, LinkStep, WellFormed,
      PositiveRounds, DescribeChange, UseConsistent, PendingConsistent, RawsOk, Ordered, TrailingStart, HighestRound,
      PendingInits, SeatBinding, ApplyInits, Posted?;
    CandidateRounds(s, root, h, raws, es, p, l, configured);
    CandidateOk(s, root, h, raws, es, p, l, configured);
    var link := CandidateLink(l, configured, h).value;
    CandidateIsNew(s, root, h, raws, es, link);
    e := Element(|h|, FromLink(link), configured, ContractOf(configured), configured);
    NewDigest(s, root, h, raws, es, p, e);
    UseAfterLink(es, e, p.carried);
    PendingAfterLink(s, h, LinkComment(link), l, link, e);
    AppendElement(s, root, h, raws, es, p, LinkComment(link), e);
  }

  /** A candidate link's walk succeeds exactly when its initializations contradict none recorded. */
  lemma CandidateWalk(
    s: Surface, root: Identity, h: History, es: seq<Element>, p: Progress, l: Lineage, configured: Identity)
    requires WellFormed(configured) && CandidateLink(l, configured, h).Accepted?
    requires l.root == root && l.elements == es && l.inits == p.inits
    ensures var pending := PendingInits(l.Current(), configured);
            LinkStep(root, es, CandidateLink(l, configured, h).value, p)
            == if MergeAllowed(p.inits, pending, None) then Accepted(p.(inits := p.inits + pending)) else Refused
  {
    hide FindSeat, SeatBinding, ApplyInits, MergeAllowed, ParseInits, InitPayload, TrailingStart, HighestRound,
      DescribeChange, BindingCompatible;
    PendingInitsRoundTrip(l.Current(), configured, configured);
    CompatibleReflexive(l.Current());
  }

  lemma PendingChainedAfterLink(es: seq<Element>, e: Element, carried: set<Digest>)
    requires PendingChained(es, carried) && e.IsLink() && e.Digest() !in carried
    requires TrailingStart(es, carried) < |es| ==> es[|es| - 1].IsLink() && es[|es| - 1].Effective() == e.Effective()
    ensures PendingChained(es + [e], carried)
  {
    hide TrailingStart;
    TrailingStartAppend(es, e, carried);
    var es' := es + [e];
    assert forall i :: 0 <= i < |es| ==> es'[i] == es[i];
    forall i | 0 <= i && i + 1 < |es| ensures Superseded(es', i) <==> Superseded(es, i) {}
  }

  lemma StampedAppend(root: Identity, h: History, p: Progress, c: Comment)
    requires StampedRounds(h) && InitsOnRoot(root, p.inits) && !c.RecordComment?
    ensures PositiveRounds(h) && StampedRounds(h + [c]) && InitsOk(p.inits)
  {
  }

  lemma ResolvedSound(s: Surface, root: Identity, h: History, raws: seq<Raw>, es: seq<Element>, p: Progress)
    requires Resolved(s, root, h, raws, es, p)
    ensures BoardSound(root, es)
  {
  }

  lemma LinkKeepsInv(
    s: Surface, root: Identity, h: History, raws: seq<Raw>, es: seq<Element>, p: Progress, l: Lineage,
    configured: Identity)
    returns (e: Element, p': Progress)
    requires RootOk(s, root) && Inv(s, root, h, raws, es, p)
    requires l.root == root && l.elements == es && l.carried == p.carried && l.inits == p.inits
    requires Enabled(s, l, None, PostLink(configured))
    ensures Inv(s, root, h + [Candidate(l, configured, h)], raws + [Raw(|h|, e.source)], es + [e], p')
    ensures CandidateLink(l, configured, h).Accepted? && e.source == FromLink(CandidateLink(l, configured, h).value)
    ensures e.identity == e.base == configured && e.Digest() !in p'.carried && p'.carried == p.carried
  {
    hide Resolved, PendingChained, LinkStep, Collect, Elements, Walk, AnchoredAt, CandidateLink, InitsOnRoot,
      StampedRounds, TrailingStart, PendingInits, ApplyInits, MergeAllowed, WellFormed;
    StampedAppend(root, h, p, Candidate(l, configured, h));
    ResolvedSound(s, root, h, raws, es, p);
    e := CandidateAppends(s, root, h, raws, es, p, l, configured);
    CandidateWalk(s, root, h, es, p, l, configured);
    PendingInitsMerge(root, es, p.inits, configured, configured);
    PendingChainedAfterLink(es, e, p.carried);
    p' := p.(inits := p.inits + PendingInits(l.Current(), configured));
  }

  // --- Signed amendments and plain comments ---------------------------------------------------------------

  lemma AmendmentIsNew(s: Surface, root: Identity, h: History, raws: seq<Raw>, es: seq<Element>, a: Amendment)
    requires RawsOk(s, h, raws) && Elements(s, root, raws) == Accepted(es) && Ordered(es)
    requires es != [] ==> es[|es| - 1].Effective() < a.effective
    ensures !Posted?(raws, FromAmendment(a))
  {
    hide Elements, RawsOk;
    if Posted?(raws, FromAmendment(a)) {
      var i :| 0 <= i < |raws| && raws[i].source == FromAmendment(a);
      ElementsMatchRaws(s, root, raws, i);
    }
  }

  lemma NoTrailingLink(l: Lineage, i: nat)
    requires !l.HasPendingLink() && TrailingStart(l.elements, l.carried) <= i < |l.elements|
    ensures !l.elements[i].IsLink()
  {
    hide TrailingStart;
  }

  lemma ConsistentAfterAmendment(h: History, l: Lineage, e: Element)
    requires UseConsistent(l.elements, l.carried) && !l.HasPendingLink() && !e.IsLink() && e.Digest() !in l.carried
    ensures UseConsistent(l.elements + [e], l.carried) && PendingChained(l.elements + [e], l.carried)
    ensures PendingConsistent(h, l.elements + [e], l.carried)
  {
    hide TrailingStart, FirstLink, HighestRound;
    var es, es' := l.elements, l.elements + [e];
    TrailingStartAppend(es, e, l.carried);
    assert forall i :: 0 <= i < |es| ==> es'[i] == es[i];
    forall i | 0 <= i && i + 1 < |es'| ensures Superseded(es', i) <==> i + 1 < |es| && Superseded(es, i) {}
    forall i | TrailingStart(es, l.carried) <= i < |es'| ensures !es'[i].IsLink() {
      if i < |es| { NoTrailingLink(l, i); }
    }
  }

  lemma AmendmentAppends(
    s: Surface, root: Identity, h: History, raws: seq<Raw>, es: seq<Element>, p: Progress, l: Lineage, a: Amendment)
    returns (e: Element)
    requires WellFormed(root) && Resolved(s, root, h, raws, es, p)
    requires l.root == root && l.elements == es && l.carried == p.carried
    requires Enabled(s, l, None, PostAmendment(a))
    ensures e.source == FromAmendment(a) && e.base == BaseAfter(root, es) && e.Digest() !in p.carried
    ensures Resolved(s, root, h + [AmendmentComment(a)], raws + [Raw(|h|, e.source)], es + [e], p)
    ensures PendingChained(es + [e], p.carried)
  {
    hide Collect, AnchoredAt, Elements, LegacyBindingsOk, Walk, BoardSound, WellFormed, UseConsistent,
      PendingConsistent, PendingChained, RawsOk, Ordered, TrailingStart, HighestRound, SeatBinding, Posted?,
      AmendmentElement, AmendContract, RemovedBy, Segment;
    AmendmentElementSound(s, root, raws, |h|, a);
    e := AmendmentElement(s, root, es, |h|, a).value;
    AmendmentBase(s, root, es, |h|, a);
    AmendmentIsNew(s, root, h, raws, es, a);
    NewDigest(s, root, h, raws, es, p, e);
    ConsistentAfterAmendment(h + [AmendmentComment(a)], l, e);
    AppendElement(s, root, h, raws, es, p, AmendmentComment(a), e);
  }

  lemma AmendmentBase(s: Surface, root: Identity, es: seq<Element>, index: nat, a: Amendment)
    requires AmendmentElement(s, root, es, index, a).Accepted?
    ensures var e := AmendmentElement(s, root, es, index, a).value;
            e.index == index && e.source == FromAmendment(a) && e.base == BaseAfter(root, es)
  {
    hide AmendContract, AmendedSeats, SeatBinding, RemovedBy, Segment, Valid;
  }

  lemma AmendmentKeepsInv(
    s: Surface, root: Identity, h: History, raws: seq<Raw>, es: seq<Element>, p: Progress, l: Lineage, a: Amendment)
    returns (e: Element)
    requires RootOk(s, root) && Inv(s, root, h, raws, es, p)
    requires l.root == root && l.elements == es && l.carried == p.carried && l.inits == p.inits
    requires Enabled(s, l, None, PostAmendment(a))
    ensures Inv(s, root, h + [AmendmentComment(a)], raws + [Raw(|h|, e.source)], es + [e], p)
    ensures e.source == FromAmendment(a) && e.Digest() !in p.carried
  {
    hide Resolved, PendingChained, InitsOnRoot, StampedRounds, UnknownFromRoot, TrailingStart, WellFormed, Applies;
    StampedAppend(root, h, p, AmendmentComment(a));
    e := AmendmentAppends(s, root, h, raws, es, p, l, a);
  }

  lemma PlainKeepsInv(s: Surface, root: Identity, h: History, raws: seq<Raw>, es: seq<Element>, p: Progress)
    requires RootOk(s, root) && Inv(s, root, h, raws, es, p)
    ensures Inv(s, root, h + [PlainComment], raws, es, p)
  {
    hide Collect, AnchoredAt, Elements, LegacyBindingsOk, Walk, BoardSound, InitsOnRoot, UnknownFromRoot,
      PendingChained, WellFormed, UseConsistent, RawsOk, Ordered, TrailingStart, HighestRound, StampedRounds,
      FirstLink;
    StampedAppend(root, h, p, PlainComment);
    HighestRoundAppend(h, PlainComment);
    PendingAfterPlain(h, es, p.carried);
    AppendOther(s, root, h, raws, es, p, PlainComment, p);
  }

  lemma PendingAfterPlain(h: History, es: seq<Element>, carried: set<Digest>)
    requires PendingConsistent(h, es, carried) && HighestRound(h + [PlainComment]) == HighestRound(h)
    ensures PendingConsistent(h + [PlainComment], es, carried)
  {
    hide TrailingStart, HighestRound, FirstLink;
  }

  // --- Every grown history is accepted ------------------------------------------------------------------------

  lemma EmptyInv(s: Surface, root: Identity)
    requires RootOk(s, root)
    ensures Inv(s, root, [], [], [], Progress(map[], {}))
  {
  }

  lemma StartKeepsInv(
    s: Surface, root: Identity, h: History, raws: seq<Raw>, es: seq<Element>, p: Progress, l: Lineage,
    configured: Identity)
    requires Inv(s, root, h, raws, es, p) && WellFormed(configured)
    requires l.root == root && l.elements == es && l.carried == p.carried && l.inits == p.inits
    ensures RunInv(root, es, p, Run(l, configured))
  {
    hide Parts, RawsOk, Ordered, BoardSound, UnknownFromRoot, InitsOnRoot, PendingChained, StampedRounds, WellFormed,
      PendingInits;
  }

  lemma AmendmentKeepsRun(root: Identity, es: seq<Element>, p: Progress, e: Element, run: Run)
    requires RunInv(root, es, p, run) && !e.IsLink() && e.Digest() !in p.carried
    ensures RunInv(root, es + [e], p, run)
  {
    hide BoardSound, UnknownFromRoot, InitsOnRoot, WellFormed, PendingInits;
  }

  lemma {:induction false} GrownInv(s: Surface, root: Identity, actions: seq<Action>)
    returns (raws: seq<Raw>, es: seq<Element>, p: Progress)
    requires RootOk(s, root) && Grown(s, root, actions)
    ensures Inv(s, root, After(s, root, actions).history, raws, es, p)
    ensures RunOk(root, es, p, After(s, root, actions).run)
    decreases |actions|
  {
    hide Inv, RunInv, Resolve, RootOk, CandidateLink, WellFormed, MayStamp, StampGoverns, Applies, StampedFor;
    if actions == [] {
      EmptyInv(s, root);
      raws, es, p := [], [], Progress(map[], {});
    } else {
      var action := actions[|actions| - 1];
      var w := After(s, root, actions[..|actions| - 1]);
      raws, es, p := GrownInv(s, root, actions[..|actions| - 1]);
      var l := LineageOf(s, root, w.history, raws, es, p);
      match action
      case StartRun(configured) =>
        StartKeepsInv(s, root, w.history, raws, es, p, l, configured);
      case PostRecord(_, _, _, _, _) =>
        p := RecordKeepsInv(s, root, w.history, raws, es, p, l, w.run.value, action);
      case PostLink(configured) =>
        var e, p' := LinkKeepsInv(s, root, w.history, raws, es, p, l, configured);
        raws, es, p := raws + [Raw(|w.history|, e.source)], es + [e], p';
      case PostAmendment(a) =>
        var e := AmendmentKeepsInv(s, root, w.history, raws, es, p, l, a);
        if w.run.Some? { AmendmentKeepsRun(root, es, p, e, w.run.value); }
        raws, es := raws + [Raw(|w.history|, e.source)], es + [e];
      case PostPlain =>
        PlainKeepsInv(s, root, w.history, raws, es, p);
    }
  }

  /** Whatever the enabled writers post, starting from a valid root, the resolver accepts: links, amendments, and
      all the records of each run under the one stamp it took. */
  lemma {:induction false} GrownHistoriesAccepted(s: Surface, root: Identity, actions: seq<Action>)
    requires RootOk(s, root) && Grown(s, root, actions)
    ensures Resolve(s, root, After(s, root, actions).history).Accepted?
    ensures Resolve(s, root, After(s, root, actions).history).value.root == root
  {
    hide Inv, RunOk, Resolve, RootOk, Grown, After;
    var raws, es, p := GrownInv(s, root, actions);
    var _ := LineageOf(s, root, After(s, root, actions).history, raws, es, p);
  }
}
