/** Concrete histories: a removal posted while a link is pending, and a link that contradicts a recorded binding. */
module BoardWitness {
  import opened Common
  import opened BoardAmendment
  import opened BoardIdentity
  import opened BoardLineage
  import opened BoardFacts
  import opened BoardGovernance
  import opened BoardProtocol
  import opened BoardConvergence

  function AnySurface(): Surface { Surface(PrFlow, {SelectiveIntermediate}, _ => true, (_, _) => true) }

  function PlainSeat(backend: Backend): Seat { Seat(DisplayName(backend), backend, Some([Some("m")]), None) }

  function Two(): Identity { Identity(SelectiveIntermediate, None, [], [PlainSeat(Claude), PlainSeat(Codex)]) }

  function Three(): Identity {
    Identity(SelectiveIntermediate, None, [], [PlainSeat(Claude), PlainSeat(Codex), PlainSeat(Gemini)])
  }

  /** Takes the third reviewer off again, from round 2. */
  function Removal(): Amendment {
    Amendment(PrFlow, ["Claude", "Codex", "Gemini"], SelectiveIntermediate, None, ["Gemini"], [], 2, "", "")
  }

  lemma SeatFacts(backend: Backend)
    ensures SeatOk(PlainSeat(backend)) && PlainSeat(backend).id != ""
  {
    var id := DisplayName(backend);
    assert id[0] !in " \t\n\r";
    assert "m"[0] !in " \t\n\r";
  }

  lemma BoardsOk()
    ensures WellFormed(Two()) && WellFormed(Three()) && Known(Three())
    ensures BoardNames(Three()) == ["Claude", "Codex", "Gemini"] && RootOk(AnySurface(), Two())
  {
    SeatFacts(Claude);
    SeatFacts(Codex);
    SeatFacts(Gemini);
    hide SeatOk;
    assert BoardNames(Two()) == ["Claude", "Codex"];
    assert BoardNames(Three()) == ["Claude", "Codex", "Gemini"];
  }

  lemma RemovalApplies(l: Lineage)
    requires l.elements != [] && l.elements[|l.elements| - 1].contract == ContractOf(Three())
    requires l.elements[|l.elements| - 1].base == Three() && l.elements[|l.elements| - 1].IsLink()
    ensures Applies(AnySurface(), l, Removal())
  {
    BoardsOk();
    hide WellFormed, Known, RootOk, Keep;
    assert Segment(l.elements) == [] && RemovedBy([]) == {};
    assert "Claude" in BoardNames(Three()) && "Claude" in Elems(Removal().original)
      && "Claude" !in Elems(Removal().removed);
    assert "Claude" in AmendedBoard(Removal(), BoardNames(Three()));
    assert "Gemini" in BoardNames(Three());
  }

  /** The history after the link is posted, and what it resolves to. */
  lemma LinkPosted() returns (l: Lineage)
    ensures Grown(AnySurface(), Two(), [PostLink(Three())])
    ensures Resolve(AnySurface(), Two(), After(AnySurface(), Two(), [PostLink(Three())]).history) == Accepted(l)
    ensures |l.elements| == 1 && l.carried == {} && l.elements[0].IsLink() && l.elements[0].Effective() == 1
    ensures l.elements[0].base == Three() && l.elements[0].contract == ContractOf(Three())
  {
    BoardsOk();
    hide RootOk, Inv, Resolve, WellFormed, Known, BoardNames;
    var s, root, action := AnySurface(), Two(), PostLink(Three());
    EmptyInv(s, root);
    var start := LineageOf(s, root, [], [], [], Progress(map[], {}));
    assert !start.HasPendingAmendment();
    assert After(s, root, []) == World([], None);
    GrownMore(s, root, [], action);
    assert [] + [action] == [action];
    var e, p := LinkKeepsInv(s, root, [], [], [], Progress(map[], {}), start, Three());
    var h := After(s, root, [action]).history;
    assert h == [] + [Candidate(start, Three(), [])];
    l := LineageOf(s, root, h, [] + [Raw(0, e.source)], [] + [e], p);
    InvSound(s, root, h, [] + [Raw(0, e.source)], [] + [e], p);
    assert HighestRound([]) == None;
  }

  lemma InvSound(s: Surface, root: Identity, h: History, raws: seq<Raw>, es: seq<Element>, p: Progress)
    requires Inv(s, root, h, raws, es, p)
    ensures ContractAfter(root, es) == ContractOf(IdentityAfter(root, es))
  {
  }

  /** The link, then the removal: both are accepted, and no run started on them can post a record. */
  lemma WedgedHistory() returns (l: Lineage, link: Comment)
    ensures var h := [link, AmendmentComment(Removal())];
            && link.LinkComment? && link.link.newBoard == Three()
            && Resolve(AnySurface(), Two(), h).Accepted? && !SomeRunCanPost(AnySurface(), Two(), h)
  {
    l := LinkPosted();
    RemovalApplies(l);
    BoardsOk();
    var s, root, actions := AnySurface(), Two(), [PostLink(Three())];
    hide RootOk, Inv, Resolve, WellFormed, Known, BoardNames, Grown, Applies, SomeRunCanPost;
    AmendmentMustWaitForLink(s, root, actions, Removal());
    assert TrailingStart(l.elements, l.carried) == 0;
    assert l.elements[0].IsLink() && l.HasPendingLink();
    var h := After(s, root, actions).history;
    link := LinkOnly();
    assert h + [AmendmentComment(Removal())] == [link, AmendmentComment(Removal())];
  }

  lemma LinkOnly() returns (link: Comment)
    ensures After(AnySurface(), Two(), [PostLink(Three())]).history == [link] && link.LinkComment?
            && link.link.newBoard == Three()
  {
    BoardsOk();
    hide RootOk, Inv, Resolve, WellFormed, Known, BoardNames, DescribeChange, PendingInits, SeatBinding, ApplyInits,
      InitPayload, TrailingStart;
    var s, root, action := AnySurface(), Two(), PostLink(Three());
    EmptyInv(s, root);
    var start := LineageOf(s, root, [], [], [], Progress(map[], {}));
    assert !start.HasPendingAmendment();
    assert After(s, root, []) == World([], None);
    assert [action][..0] == [];
    link := Candidate(start, Three(), []);
  }

  // --- A link nobody's configuration would post --------------------------------------------------

  function One(backend: Backend, chain: Option<seq<Option<string>>>): Identity {
    Identity(SelectiveIntermediate, None, [], [Seat("Claude", backend, chain, None)])
  }

  function Unbound(): Identity { One(Claude, None) }
  function Bound(): Identity { One(Claude, Some([Some("m")])) }
  function Swapped(): Identity { One(Codex, None) }
  function Wanted(): Identity { One(Codex, Some([Some("n")])) }

  lemma OneOk(backend: Backend, chain: Option<seq<Option<string>>>)
    requires chain == None || chain == Some([Some("m")]) || chain == Some([Some("n")])
    ensures WellFormed(One(backend, chain)) && RootOk(AnySurface(), One(backend, chain))
    ensures BoardNames(One(backend, chain)) == ["Claude"]
    ensures FindSeat(One(backend, chain).seats, "Claude") == Some(Seat("Claude", backend, chain, None))
  {
    assert "Claude"[0] !in " \t\n\r" && "m"[0] !in " \t\n\r" && "n"[0] !in " \t\n\r";
    assert BoardNames(One(backend, chain)) == ["Claude"];
  }

  lemma OneInits(view: Identity, configured: Identity)
    requires (view == Unbound() && configured == Bound()) || (view == Swapped() && configured == Wanted())
    ensures view == Unbound() ==> PendingInits(view, configured) == map["Claude" := Init(Claude, [Some("m")], None)]
    ensures view == Swapped() ==> PendingInits(view, configured) == map["Claude" := Init(Codex, [Some("n")], None)]
  {
    OneOk(Claude, None);
    OneOk(Claude, Some([Some("m")]));
    OneOk(Codex, None);
    OneOk(Codex, Some([Some("n")]));
    hide FindSeat, WellFormed, RootOk, BoardNames;
    var pending := PendingInits(view, configured);
    assert "Claude" in Elems(["Claude"]);
    assert pending.Keys == {"Claude"};
  }

  lemma OneApplied(backend: Backend)
    ensures var inits: Inits := map["Claude" := Init(Claude, [Some("m")], None)];
            ApplyInits(One(backend, None), inits) == if backend == Claude then Bound() else One(backend, None)
  {
    var inits: Inits := map["Claude" := Init(Claude, [Some("m")], None)];
    var applied := ApplyInits(One(backend, None), inits);
    assert applied.seats == [ApplyInit(Seat("Claude", backend, None, None), inits)];
  }

  /** The first record of a first run records the configured bindings of the root's unbound seats. */
  lemma FirstRecord(s: Surface, root: Identity, configured: Identity) returns (h: History, p: Progress)
    requires RootOk(s, root) && WellFormed(configured)
    ensures Inv(s, root, h, [], [], p) && |h| == 1 && h[0].RecordComment? && h[0].record.round == 1
    ensures p.inits == PendingInits(root, configured) && p.carried == {}
  {
    hide RootOk, Inv, Resolve, WellFormed, BoardNames, PendingInits, ApplyInits, RunInv, StampedFor, Enabled;
    var none := Progress(map[], {});
    EmptyInv(s, root);
    var l := LineageOf(s, root, [], [], [], none);
    StartKeepsInv(s, root, [], [], [], none, l, configured);
    NoInitsApplied(root);
    FirstRecordEnabled(s, l, configured);
    var record := PostRecord(1, Coder, "", false, false);
    p := RecordKeepsInv(s, root, [], [], [], none, l, Run(l, configured), record);
    h := [] + [RunRecord(Run(l, configured), record)];
    StampFields(l, configured, 1, Coder, "", false, false);
    NothingCarried(s, root, h, p);
    assert map[] + PendingInits(root, configured) == PendingInits(root, configured);
  }

  /** A run initializes the seat's binding. */
  lemma BindingRecorded() returns (h: History, p: Progress)
    ensures Inv(AnySurface(), Unbound(), h, [], [], p) && |h| == 1 && h[0].RecordComment? && h[0].record.round == 1
    ensures p == Progress(map["Claude" := Init(Claude, [Some("m")], None)], {})
  {
    hide RootOk, Inv, WellFormed, BoardNames, FindSeat, PendingInits, One, AnySurface;
    OneOk(Claude, None);
    OneOk(Claude, Some([Some("m")]));
    OneInits(Unbound(), Bound());
    h, p := FirstRecord(AnySurface(), Unbound(), Bound());
  }

  lemma FirstRecordEnabled(s: Surface, l: Lineage, configured: Identity)
    requires l.elements == []
    ensures Enabled(s, l, Some(Run(l, configured)), PostRecord(1, Coder, "", false, false))
    ensures l.Current() == ApplyInits(l.root, l.inits)
  {
    hide ApplyInits, BoardNames;
  }

  lemma NoInitsApplied(identity: Identity)
    ensures ApplyInits(identity, map[]) == identity
  {
    assert ApplyInits(identity, map[]).seats == identity.seats;
  }

  lemma NothingCarried(s: Surface, root: Identity, h: History, p: Progress)
    requires Inv(s, root, h, [], [], p)
    ensures p.carried == {}
  {
    if p.carried != {} {
      var d :| d in p.carried;
      CarriedAreElements(root, [], h, d);
    }
  }

  /** Moves the seat to another backend and leaves its binding unknown, which no configured board does. */
  function Move(): Link {
    Link(Unbound(), OfIdentity(Unbound()), Bound(), Swapped(), None, Some(Swapped().seats), [], [], ["Claude"],
         map[], 1, true, 2)
  }

  lemma MoveOk()
    ensures LinkOk(AnySurface(), Move()) && SeatBinding(Bound()) == None
  {
    hide FindSeat, WellFormed, BoardNames, Valid, RootOk;
    OneOk(Claude, None);
    OneOk(Claude, Some([Some("m")]));
    OneOk(Codex, None);
    assert Rebound(Bound(), Swapped(), "Claude");
    var reboundSet := set name | name in Elems(["Claude"]) && Rebound(Bound(), Swapped(), name);
    assert ["Claude"][..0] == [] && "Claude" in Elems(["Claude"]);
    assert Keep([], reboundSet) == [] && Keep(["Claude"], reboundSet) == ["Claude"];
    DropAll("Claude");
    assert Swapped().seats[0] in Swapped().seats && Swapped().seats[0].id != DisplayName(Codex);
  }

  lemma DropAll(name: string)
    ensures Drop([name], Elems([name])) == []
  {
    assert [name][..0] == [];
    assert name !in Elems([name]) - Elems([name]);
  }

  function Recorded(): Progress { Progress(map["Claude" := Init(Claude, [Some("m")], None)], {}) }

  function Moved(): Element { Element(1, FromLink(Move()), Swapped(), ContractOf(Swapped()), Swapped()) }

  lemma MoveStep()
    ensures LinkStep(Unbound(), [], Move(), Recorded()) == Accepted(Recorded())
  {
    MoveOk();
    OneApplied(Claude);
    NoInits(Swapped());
    CompatibleReflexive(Bound());
    hide LinkOk, FindSeat, ApplyInits, SeatBinding, ParseInits, BindingCompatible;
    assert Recorded().inits + map[] == Recorded().inits;
  }

  lemma MovePends(front: History)
    requires |front| == 1 && front[0].RecordComment? && front[0].record.round == 1
    ensures UseConsistent([Moved()], {}) && PendingConsistent(front + [LinkComment(Move())], [Moved()], {})
  {
    assert front[..0] == [];
    HighestRoundAppend(front, LinkComment(Move()));
    hide HighestRound;
  }

  lemma MoveIsNext()
    ensures NextElement(AnySurface(), Unbound(), [], Raw(1, FromLink(Move()))) == Accepted(Moved())
    ensures Move().root == Unbound() && Moved().source == FromLink(Move()) && SourceOk(AnySurface(), FromLink(Move()))
    ensures WellFormed(Unbound())
  {
    MoveOk();
    OneOk(Claude, None);
    hide LinkOk, WellFormed;
  }

  lemma InvResolved(s: Surface, root: Identity, h: History, p: Progress)
    requires Inv(s, root, h, [], [], p)
    ensures Resolved(s, root, h, [], [], p)
  {
  }

  lemma MovePositive(front: History)
    requires |front| == 1 && front[0].RecordComment? && front[0].record.round == 1
    ensures PositiveRounds(front + [LinkComment(Move())])
  {
    hide Move;
  }

  lemma MoveWalks(front: History)
    requires Inv(AnySurface(), Unbound(), front, [], [], Recorded()) && |front| == 1
    requires front[0].RecordComment? && front[0].record.round == 1
    ensures Resolved(AnySurface(), Unbound(), front + [LinkComment(Move())], [Raw(1, FromLink(Move()))], [Moved()],
                     Recorded())
  {
    hide Inv, Resolved, Parts, Move, Moved, Unbound, AnySurface, NextElement, SourceOk, LinkStep, WellFormed,
      UseConsistent, PendingConsistent, Walk, Collect, Elements, AnchoredAt;
    MoveIsNext();
    MoveStep();
    MovePends(front);
    InvResolved(AnySurface(), Unbound(), front, Recorded());
    assert [] + [Moved()] == [Moved()] && [] + [Raw(1, FromLink(Move()))] == [Raw(1, FromLink(Move()))];
    AppendElement(AnySurface(), Unbound(), front, [], [], Recorded(), LinkComment(Move()), Moved());
  }

  /** The recorded binding is for one backend, the configured one for another. */
  lemma MoveConflicts(l: Lineage)
    requires l.root == Unbound() && l.elements == [Moved()] && l.inits == Recorded().inits && l.carried == {}
    ensures Enabled(AnySurface(), l, None, PostLink(Wanted())) && !NoConflict(l, Wanted())
  {
    OneOk(Codex, Some([Some("n")]));
    OneApplied(Codex);
    OneInits(Swapped(), Wanted());
    hide RootOk, WellFormed, BoardNames, FindSeat, PendingInits, ApplyInits;
    assert l.Current() == Swapped();
    assert !l.HasPendingAmendment();
  }

  /** An accepted history over which recording a change does not converge: only a link written by hand gets there. */
  lemma ConflictingHistory() returns (h: History)
    ensures var s, root := AnySurface(), Unbound();
            && Resolve(s, root, h).Accepted?
            && var l := Resolve(s, root, h).value;
               && Enabled(s, l, None, PostLink(Wanted())) && !NoConflict(l, Wanted())
               && Resolve(s, root, h + [Candidate(l, Wanted(), h)]).Refused?
  {
    var s, root := AnySurface(), Unbound();
    var front, p := BindingRecorded();
    h := front + [LinkComment(Move())];
    MoveWalks(front);
    MovePositive(front);
    OneOk(Claude, None);
    hide RootOk, Inv, Resolve, Resolved, WellFormed, BoardNames, CandidateLink, Enabled, NoConflict, PositiveRounds,
      AnySurface, One, Move, Moved, Wanted;
    var l := ResolvedLineage(s, root, h, [Raw(1, FromLink(Move()))], [Moved()], p);
    MoveConflicts(l);
    RecordingConverges(s, root, h, Wanted());
  }
}
