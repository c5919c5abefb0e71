/** Absence is never forgiven: a returning seat must approve afresh from the round it returned. */
module BoardFreshness {
  import opened Common
  import opened BoardAmendment
  import AmendmentLineage
  import opened BoardIdentity
  import opened BoardLineage
  import opened BoardFacts
  import opened BoardGovernance
  import opened BoardExplained
  import opened BoardExact
  import opened BoardMeaning

  /** Seats whose earlier approvals stop counting when `link` takes effect. */
  function ChangedBy(link: Link): set<string> {
    var moved := link.newBoard.policy == PrimaryThenPanel
                 && (link.oldBoard.primary != link.newBoard.primary
                     || (link.newBoard.primary.Some? && link.newBoard.primary.value in link.rebound));
    Elems(link.added) + Elems(link.rebound)
    + (if moved && link.oldBoard.primary.Some? then {link.oldBoard.primary.value} else {})
    + (if moved && link.newBoard.primary.Some? then {link.newBoard.primary.value} else {})
  }

  function RefreshedBy(e: Element): set<string> {
    match e.source
    case FromLink(link) => ChangedBy(link)
    case FromAmendment(a) => Elems(a.restored)
  }

  function FreshRounds(es: seq<Element>): map<string, int>
    decreases |es|
  {
    if es == [] then map[]
    else AmendmentLineage.WithRounds(FreshRounds(es[..|es| - 1]), RefreshedBy(es[|es| - 1]), es[|es| - 1].Effective())
  }

  /** Seat -> round from which its approvals count again, for seats on the current board. */
  function FreshFromRounds(l: Lineage): map<string, int> {
    var rounds := FreshRounds(l.elements);
    map name | name in rounds && name in BoardNames(l.Current()) :: rounds[name]
  }

  predicate OnBoard(l: Lineage, k: nat, name: string)
    requires k <= |l.elements|
  {
    name in BoardNames(IdentityAfter(l.root, l.elements[..k]))
  }

  /** Element `k` is the one that last brought `name` back onto the board. */
  ghost predicate BroughtBack(l: Lineage, k: nat, name: string) {
    && k < |l.elements| && !OnBoard(l, k, name)
    && forall j :: k < j <= |l.elements| ==> OnBoard(l, j, name)
  }

  lemma {:induction false} ReturnExists(l: Lineage, i: nat, j: nat, name: string) returns (k: nat)
    requires i <= j <= |l.elements| && !OnBoard(l, i, name)
    requires forall m :: j <= m <= |l.elements| ==> OnBoard(l, m, name)
    ensures i <= k && BroughtBack(l, k, name)
    decreases j
  {
    if OnBoard(l, j - 1, name) {
      k := ReturnExists(l, i, j - 1, name);
    } else {
      k := j - 1;
    }
  }

  /** A link that adds a seat lists it, because its old board is the board in force. */
  lemma LinkRefreshes(s: Surface, legacyRoot: Identity, h: History, k: nat, name: string)
    requires Resolve(s, legacyRoot, h).Accepted?
    requires var l := Resolve(s, legacyRoot, h).value;
             k < |l.elements| && l.elements[k].IsLink() && !OnBoard(l, k, name) && OnBoard(l, k + 1, name)
    ensures name in RefreshedBy(Resolve(s, legacyRoot, h).value.elements[k])
  {
    hide Resolve, Collect, Elements, Walk, PendingConsistent, UseConsistent, LegacyBindingsOk, AnchoredAt, ApplyInits,
      Rebound, CommentStep, NextElement, ParseInits, OnSurface, SeatBinding;
    var raws := ResolveHasParts(s, legacyRoot, h);
    var l := Resolve(s, legacyRoot, h).value;
    var es := l.elements;
    ElementsMatchRaws(s, l.root, raws, k);
    ElementsStep(s, l.root, raws, k);
    var link := es[k].source.link;
    var index := es[k].index;
    assert SourceOf(h[index]) == Some(FromLink(link)) && SourceOk(s, FromLink(link));
    WalkStep(l.root, es, h, index);
    LinkOldBoard(l.root, es, index, h[index], Walk(l.root, es, h[..index]).value, k);
    LinkIdentity(s, l.root, es[..k], raws[k]);
    assert es[..k + 1][k] == es[k];
    assert name in link.added;
  }

  lemma LinkIdentity(s: Surface, root: Identity, es: seq<Element>, raw: Raw)
    requires NextElement(s, root, es, raw).Accepted? && raw.source.FromLink?
    ensures NextElement(s, root, es, raw).value.identity == raw.source.link.newBoard
  {
  }

  lemma LinkOldBoard(root: Identity, es: seq<Element>, index: nat, c: Comment, p: Progress, k: nat)
    requires Ordered(es) && k < |es| && es[k].index == index && c.LinkComment?
    requires CommentStep(root, es, index, c, p).Accepted?
    ensures BoardNames(c.link.oldBoard) == BoardNames(IdentityAfter(root, es[..k]))
  {
    hide ParseInits, SeatBinding, MergeAllowed, Superseded;
    BeforeIgnoresLater(es, k, index);
    forall i | 0 <= i < k ensures es[..k][i].index < index {}
    AllEarlier(es[..k], index);
    assert ElementAt(es, index);
  }

  lemma AllEarlier(es: seq<Element>, index: nat)
    requires forall i :: 0 <= i < |es| ==> es[i].index < index
    ensures Before(es, index) == es
  {
  }

  /** A signed amendment that brings a seat back names it as restored. */
  lemma AmendmentRefreshes(s: Surface, legacyRoot: Identity, h: History, k: nat, name: string)
    requires Resolve(s, legacyRoot, h).Accepted? && WellFormed(Resolve(s, legacyRoot, h).value.root)
    requires var l := Resolve(s, legacyRoot, h).value;
             k < |l.elements| && !l.elements[k].IsLink() && !OnBoard(l, k, name) && OnBoard(l, k + 1, name)
    ensures name in RefreshedBy(Resolve(s, legacyRoot, h).value.elements[k])
  {
    hide Resolve, Collect, Elements, Walk, PendingConsistent, UseConsistent, LegacyBindingsOk, AnchoredAt,
      AmendContract, AmendmentElement, RemovedBy, Segment, SeatBinding, WellFormed, RawsOk;
    var raws := ResolveHasParts(s, legacyRoot, h);
    var l := Resolve(s, legacyRoot, h).value;
    var es := l.elements;
    ElementsMatchRaws(s, l.root, raws, k);
    ElementsStep(s, l.root, raws, k);
    ElementsPrefix(s, l.root, raws, k);
    PrefixRawsOk(s, h, raws, k);
    BoardsSound(s, l.root, h, raws[..k]);
    var a := es[k].source.amendment;
    AmendmentElementSound(s, l.root, raws[..k], raws[k].index, a);
    var before, base := IdentityAfter(l.root, es[..k]), BaseAfter(l.root, es[..k]);
    NamesOfSeats(before.seats, base.seats);
    BoardValid(before);
    BoardValid(base);
    AmendContractFacts(s.contractOk, ContractAfter(l.root, es[..k]), a, BoardNames(base), RemovedBy(Segment(es[..k])));
    assert es[..k] + [es[k]] == es[..k + 1];
    assert es[..k + 1][k] == es[k];
  }

  lemma BoardValid(identity: Identity)
    requires WellFormed(identity)
    ensures Valid(identity)
  {
  }

  lemma PrefixRawsOk(s: Surface, h: History, raws: seq<Raw>, k: nat)
    requires RawsOk(s, h, raws) && k <= |raws|
    ensures RawsOk(s, h, raws[..k])
  {
    hide SourceOk;
  }

  lemma {:induction false} FreshNeverDrops(es: seq<Element>, k: nat, n: nat, name: string)
    requires Ordered(es) && k < n <= |es| && name in RefreshedBy(es[k])
    ensures name in FreshRounds(es[..n]) && es[k].Effective() <= FreshRounds(es[..n])[name]
    decreases n
  {
    hide RefreshedBy, Superseded;
    var upTo := es[..n];
    assert upTo[..|upTo| - 1] == es[..n - 1] && upTo[|upTo| - 1] == es[n - 1];
    if k < n - 1 { FreshNeverDrops(es, k, n - 1, name); }
  }

  /**
   * A seat on the current board that was off it at some earlier point has a
   * freshness round no earlier than the element that last brought it back,
   * across any mix of links, supersessions and restorations.
   */
  lemma {:induction false} AbsenceNeverForgiven(s: Surface, legacyRoot: Identity, h: History, i: nat, name: string)
    requires Resolve(s, legacyRoot, h).Accepted? && WellFormed(Resolve(s, legacyRoot, h).value.root)
    requires var l := Resolve(s, legacyRoot, h).value;
             i <= |l.elements| && !OnBoard(l, i, name) && name in BoardNames(l.Current())
    ensures var l := Resolve(s, legacyRoot, h).value;
            exists k :: i <= k && BroughtBack(l, k, name)
                        && name in FreshFromRounds(l) && l.elements[k].Effective() <= FreshFromRounds(l)[name]
  {
    hide Resolve, RefreshedBy, Parts, RawsOk, Ordered, WellFormed, ApplyInits;
    var raws := ResolveHasParts(s, legacyRoot, h);
    var l := Resolve(s, legacyRoot, h).value;
    var n := |l.elements|;
    assert l.elements[..n] == l.elements;
    var k := ReturnExists(l, i, n, name);
    assert OnBoard(l, k + 1, name);
    if l.elements[k].IsLink() {
      LinkRefreshes(s, legacyRoot, h, k, name);
    } else {
      AmendmentRefreshes(s, legacyRoot, h, k, name);
    }
    FreshNeverDrops(l.elements, k, n, name);
  }

  // --- The exact round -----------------------------------------------------------------------

  /** `name` is on both boards, on another backend or with another known model chain or effort. */
  predicate Rebinds(before: Identity, after: Identity, name: string) {
    match (FindSeat(before.seats, name), FindSeat(after.seats, name))
    case (Some(was), Some(now)) =>
      was.backend != now.backend
      || (was.chain.Some? && now.chain.Some? && (was.chain.value != now.chain.value || was.effort != now.effort))
    case _ => false
  }

  /** `name` held or takes the primary role, and the role moves or its holder is rebound. */
  predicate MovesPrimary(before: Identity, after: Identity, name: string) {
    && after.policy == PrimaryThenPanel && (before.primary == Some(name) || after.primary == Some(name))
    && (before.primary != after.primary
        || (after.primary.Some? && Rebinds(before, after, after.primary.value)))
  }

  /** Going from board `before` to the board of `e`, earlier approvals of `name` stop counting. */
  predicate Refreshes(before: Identity, e: Element, name: string) {
    || (name !in BoardNames(before) && name in BoardNames(e.identity))
    || (e.source.FromLink? && (Rebinds(before, e.identity, name) || MovesPrimary(before, e.identity, name)))
  }

  /** The board in force before element `k`, as a link records it. */
  function BoardBefore(l: Lineage, k: nat): Identity
    requires k < |l.elements|
  {
    match l.elements[k].source
    case FromLink(link) => link.oldBoard
    case FromAmendment(_) => if k == 0 then l.root else l.elements[k - 1].identity
  }

  lemma ReboundMeans(before: Identity, after: Identity, name: string)
    ensures Rebound(before, after, name) <==> Rebinds(before, after, name)
  {
    hide Names;
  }

  /** A described change lists exactly the seats that came, that went, and that stayed but were rebound, each once. */
  lemma ChangeExact(before: Identity, after: Identity, name: string)
    ensures var change := DescribeChange(before, after);
            && (name in change.added <==> name in BoardNames(after) && name !in BoardNames(before))
            && (name in change.removed <==> name in BoardNames(before) && name !in BoardNames(after))
            && (name in change.rebound <==> Rebinds(before, after, name))
            && (NoDup(BoardNames(before)) && NoDup(BoardNames(after)) ==>
                  NoDup(change.added) && NoDup(change.removed) && NoDup(change.rebound))
  {
    hide Names;
    ReboundMeans(before, after, name);
    var came, went := Elems(BoardNames(after)) - Elems(BoardNames(before)),
      Elems(BoardNames(before)) - Elems(BoardNames(after));
    if NoDup(BoardNames(before)) && NoDup(BoardNames(after)) {
      KeepNoDup(BoardNames(after), came);
      KeepNoDup(BoardNames(before), went);
      KeepNoDup(BoardNames(after), set n | n in Elems(BoardNames(after)) && Rebound(before, after, n));
    }
    hide Rebinds, Rebound, NoDup;
  }

  lemma ChangedMeans(link: Link, e: Element, name: string)
    requires e.source == FromLink(link) && e.identity == link.newBoard
    requires Change(link.added, link.removed, link.rebound) == DescribeChange(link.oldBoard, link.newBoard)
    ensures name in ChangedBy(link) <==> Refreshes(link.oldBoard, e, name)
  {
    hide FindSeat, Names;
    forall other ensures other in link.rebound <==> Rebinds(link.oldBoard, link.newBoard, other) {
      ReboundMeans(link.oldBoard, link.newBoard, other);
    }
    hide Rebound, Rebinds;
  }

  lemma RestoredMeans(s: Surface, root: Identity, es: seq<Element>, e: Element, a: Amendment, name: string)
    requires Extends(s, root, es, e) && e.source == FromAmendment(a)
    ensures name in a.restored
            <==> name !in BoardNames(if es == [] then root else es[|es| - 1].identity) && name in BoardNames(e.identity)
  {
    hide Names, RemovedInSegment, SeatBinding;
  }

  lemma RefreshedMeans(s: Surface, legacyRoot: Identity, h: History, k: nat, name: string)
    requires WellFormed(legacyRoot) && Resolve(s, legacyRoot, h).Accepted?
    requires k < |Resolve(s, legacyRoot, h).value.elements|
    ensures var l := Resolve(s, legacyRoot, h).value;
            name in RefreshedBy(l.elements[k]) <==> Refreshes(BoardBefore(l, k), l.elements[k], name)
  {
    ResolvedElements(s, legacyRoot, h);
    var l := Resolve(s, legacyRoot, h).value;
    var e := l.elements[k];
    assert Extends(s, l.root, l.elements[..k], e);
    assert SourceOf(h[e.index]) == Some(e.source);
    hide Resolve, WellFormed, ArePosted, AllExtend, AmendmentExtends, LinkExtends, Ordered, AnchorFits, ChangedBy,
      DescribeChange, ParseInits, SeatBinding, OnSurface;
    match e.source {
      case FromLink(link) => ChangedMeans(link, e, name);
      case FromAmendment(a) => RestoredMeans(s, l.root, l.elements[..k], e, a, name);
    }
  }

  lemma {:induction false} FreshIsLast(es: seq<Element>, name: string)
    ensures name in FreshRounds(es) <==> exists k :: 0 <= k < |es| && name in RefreshedBy(es[k])
    ensures name in FreshRounds(es) ==>
              exists k :: 0 <= k < |es| && name in RefreshedBy(es[k]) && FreshRounds(es)[name] == es[k].Effective()
                          && forall j :: k < j < |es| ==> name !in RefreshedBy(es[j])
    decreases |es|
  {
    hide RefreshedBy;
    if es != [] {
      var n := |es| - 1;
      var front := es[..n];
      FreshIsLast(front, name);
      if name in RefreshedBy(es[n]) {
        assert FreshRounds(es)[name] == es[n].Effective();
      } else {
        assert name in FreshRounds(es) <==> name in FreshRounds(front);
        if name in FreshRounds(front) {
          var k :| 0 <= k < n && name in RefreshedBy(front[k]) && FreshRounds(front)[name] == front[k].Effective()
                   && forall j :: k < j < n ==> name !in RefreshedBy(front[j]);
          assert es[k] == front[k];
          assert forall j :: k < j < n ==> es[j] == front[j];
        }
        if exists k :: 0 <= k < |es| && name in RefreshedBy(es[k]) {
          var k :| 0 <= k < |es| && name in RefreshedBy(es[k]);
          assert es[k] == front[k];
        }
      }
    }
  }

  /** Element `k` makes the seat approve afresh. */
  ghost predicate RefreshedAt(l: Lineage, k: nat, name: string) {
    k < |l.elements| && Refreshes(BoardBefore(l, k), l.elements[k], name)
  }

  /** `round` is the highest effective round among the elements that make the seat approve afresh. */
  ghost predicate LatestRefresh(l: Lineage, name: string, round: int) {
    && (exists k: nat :: RefreshedAt(l, k, name) && l.elements[k].Effective() == round)
    && forall k: nat :: RefreshedAt(l, k, name) ==> l.elements[k].Effective() <= round
  }

  lemma LatestIsLast(l: Lineage, name: string, k: nat)
    requires Ordered(l.elements) && RefreshedAt(l, k, name)
    requires forall j: nat :: RefreshedAt(l, j, name) ==> j <= k
    ensures LatestRefresh(l, name, l.elements[k].Effective())
  {
    hide Refreshes, BoardBefore, Superseded;
  }

  /**
   * The round from which a seat's approvals count again is the highest effective round among the elements that
   * brought it onto the board, rebound it, or moved the primary role from or to it; without such an element, or
   * off the current board, it has none.
   */
  lemma FreshExact(s: Surface, legacyRoot: Identity, h: History, name: string)
    requires WellFormed(legacyRoot) && Resolve(s, legacyRoot, h).Accepted?
    ensures var l := Resolve(s, legacyRoot, h).value;
            && (name in FreshFromRounds(l)
                <==> name in BoardNames(l.Current()) && exists k: nat :: RefreshedAt(l, k, name))
            && (name in FreshFromRounds(l) ==> LatestRefresh(l, name, FreshFromRounds(l)[name]))
  {
    ResolvedElements(s, legacyRoot, h);
    hide Resolve, RefreshedBy, Refreshes, WellFormed, ApplyInits, ArePosted, AllExtend, AnchorFits, Ordered, Anchors,
      SourcesOk, LatestRefresh, BoardBefore;
    var l := Resolve(s, legacyRoot, h).value;
    var es := l.elements;
    FreshIsLast(es, name);
    forall k: nat | k < |es| ensures name in RefreshedBy(es[k]) <==> RefreshedAt(l, k, name) {
      RefreshedMeans(s, legacyRoot, h, k, name);
    }
    hide RefreshedAt, FreshRounds;
    if name in FreshRounds(es) {
      var k :| 0 <= k < |es| && name in RefreshedBy(es[k]) && FreshRounds(es)[name] == es[k].Effective()
               && forall j :: k < j < |es| ==> name !in RefreshedBy(es[j]);
      forall j: nat | RefreshedAt(l, j, name) ensures j <= k { OnlyElements(l, j, name); }
      LatestIsLast(l, name, k);
    } else {
      forall j: nat ensures !RefreshedAt(l, j, name) {
        if RefreshedAt(l, j, name) { OnlyElements(l, j, name); }
      }
    }
  }

  lemma OnlyElements(l: Lineage, k: nat, name: string)
    requires RefreshedAt(l, k, name)
    ensures k < |l.elements|
  {
  }
}
