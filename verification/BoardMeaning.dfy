/** What a history means, in one definition without passes or loops, and that resolving computes it. */
module BoardMeaning {
  import opened Common
  import opened BoardAmendment
  import opened BoardIdentity
  import opened BoardLineage
  import opened BoardFacts
  import opened BoardGovernance
  import opened BoardRecords
  import opened BoardExplained
  import opened BoardExact

  // --- The definition ------------------------------------------------------------------------

  /** A board of this surface: seats with names of their own, known model chains that are not blank, the primary
      among them, a policy the surface has, and no broad rules for plans. */
  ghost predicate BoardOk(s: Surface, board: Identity) {
    && |board.seats| >= 1
    && (forall i, j :: 0 <= i < j < |board.seats| ==> board.seats[i].id != board.seats[j].id)
    && (forall seat :: seat in board.seats ==>
          && (exists c :: c in seat.id && c !in " \t\n\r")
          && (seat.chain.Some? ==>
                && |seat.chain.value| >= 1
                && forall model :: model in seat.chain.value && model.Some? ==>
                     exists c :: c in model.value && c !in " \t\n\r"))
    && (board.primary.Some? ==> exists seat :: seat in board.seats && seat.id == board.primary.value)
    && board.policy in s.policies && (s.flow == PlanFlow ==> board.rules == [])
  }

  /** What a link record must say of itself to be read at all. */
  ghost predicate LinkReads(s: Surface, link: Link) {
    && link.anchor >= 1 && link.effective == (if link.advance then link.anchor + 1 else link.anchor)
    && BoardOk(s, link.root) && BoardOk(s, link.oldBoard) && BoardOk(s, link.newBoard)
    && s.contractOk(ContractOf(link.newBoard))
    && Change(link.added, link.removed, link.rebound) == DescribeChange(link.oldBoard, link.newBoard)
    && link.newBinding == SeatBinding(link.newBoard)
    && forall id :: id in link.inits ==>
         FindSeat(link.newBoard.seats, id).Some? && ChainOk(link.inits[id].chain)
  }

  /** Every link reads, and every amendment is for this flow. */
  ghost predicate PostsRead(s: Surface, h: History) {
    forall i :: 0 <= i < |h| ==>
      match h[i]
      case LinkComment(link) => LinkReads(s, link)
      case AmendmentComment(a) => a.flow == s.flow
      case _ => true
  }

  lemma NonBlankMeans(text: string)
    ensures NonBlank(text) <==> exists c :: c in text && c !in " \t\n\r"
  {
    if exists c :: c in text && c !in " \t\n\r" {
      var c :| c in text && c !in " \t\n\r";
      var i :| 0 <= i < |text| && text[i] == c;
    }
    if NonBlank(text) {
      var i :| 0 <= i < |text| && text[i] !in " \t\n\r";
      assert text[i] in text;
    }
  }

  lemma ChainMeans(chain: seq<Option<string>>)
    ensures ChainOk(chain)
            <==> |chain| >= 1 && forall model :: model in chain && model.Some? ==>
                                   exists c :: c in model.value && c !in " \t\n\r"
  {
    forall text ensures NonBlank(text) <==> exists c :: c in text && c !in " \t\n\r" { NonBlankMeans(text); }
    hide NonBlank;
    if ChainOk(chain) {
      forall model | model in chain && model.Some? ensures NonBlank(model.value) {
        var i :| 0 <= i < |chain| && chain[i] == model;
      }
    }
    if |chain| >= 1 && forall model :: model in chain && model.Some? ==> NonBlank(model.value) {
      forall i | 0 <= i < |chain| && chain[i].Some? ensures NonBlank(chain[i].value) { assert chain[i] in chain; }
    }
  }

  lemma ValidMeans(board: Identity)
    ensures Valid(board)
            <==> && |board.seats| >= 1
                 && (forall i, j :: 0 <= i < j < |board.seats| ==> board.seats[i].id != board.seats[j].id)
                 && (board.primary.Some? ==> exists seat :: seat in board.seats && seat.id == board.primary.value)
  {
    var names := BoardNames(board);
    assert forall i :: 0 <= i < |names| ==> names[i] == board.seats[i].id;
    if board.primary.Some? {
      if board.primary.value in names {
        var i :| 0 <= i < |names| && names[i] == board.primary.value;
        assert board.seats[i] in board.seats;
      }
      if exists seat :: seat in board.seats && seat.id == board.primary.value {
        var seat :| seat in board.seats && seat.id == board.primary.value;
        var i :| 0 <= i < |board.seats| && board.seats[i] == seat;
        assert names[i] == board.primary.value;
      }
    }
  }

  lemma BoardMeans(s: Surface, board: Identity)
    ensures OnSurface(s, board) <==> BoardOk(s, board)
  {
    ValidMeans(board);
    forall seat: Seat
      ensures SeatOk(seat)
        <==> && (exists c :: c in seat.id && c !in " \t\n\r")
             && (seat.chain.Some? ==>
                   && |seat.chain.value| >= 1
                   && forall model :: model in seat.chain.value && model.Some? ==>
                        exists c :: c in model.value && c !in " \t\n\r")
    {
      NonBlankMeans(seat.id);
      if seat.chain.Some? { ChainMeans(seat.chain.value); }
    }
    hide SeatOk, Valid;
  }

  lemma LinkMeansRead(s: Surface, link: Link)
    ensures LinkOk(s, link) <==> LinkReads(s, link)
  {
    BoardMeans(s, link.root);
    BoardMeans(s, link.oldBoard);
    BoardMeans(s, link.newBoard);
    hide OnSurface, BoardOk, DescribeChange, SeatBinding, FindSeat, ChainOk;
  }

  lemma PostsMean(s: Surface, h: History)
    ensures SourcesOk(s, h) <==> PostsRead(s, h)
  {
    forall link ensures LinkOk(s, link) <==> LinkReads(s, link) { LinkMeansRead(s, link); }
    hide LinkOk, LinkReads;
  }

  /** The comment names a root: a stamped record or a link. */
  predicate Anchors(c: Comment) { (c.RecordComment? && c.record.root.Present?) || c.LinkComment? }

  /** A comment that names a root names this one; a record without a root carries no other stamp. */
  predicate AnchorFits(c: Comment, root: Identity) {
    match c
    case RecordComment(r) =>
      (match r.root
       case Present(named) => named == root && WellFormed(root)
       case Malformed => false
       case Absent => r.identity == Absent && r.init == Absent && r.changeDigest == None)
    case LinkComment(link) => link.root == root
    case _ => true
  }

  /** An unstamped record of substance. */
  predicate Unstamped(c: Comment) { c.RecordComment? && c.record.root.Absent? && !c.record.neutral }

  /** Two bindings have the same seats on the same backends. */
  ghost predicate SameBackends(a: seq<Seat>, b: seq<Seat>) {
    forall id ::
      match (FindSeat(a, id), FindSeat(b, id))
      case (Some(x), Some(y)) => x.backend == y.backend
      case (None, None) => true
      case _ => false
  }

  /** Unstamped records are all bound, on one board with one backend per seat, or all unbound; reviewers are bound. */
  ghost predicate UnstampedFit(h: History) {
    && (forall i :: 0 <= i < |h| && Unstamped(h[i]) && h[i].record.binding.Some? ==>
          && (h[i].record.role == Reviewer ==> FindSeat(h[i].record.binding.value, h[i].record.agent).Some?)
          && forall j :: 0 <= j < |h| && Unstamped(h[j]) ==>
               if h[j].record.binding.Some? then SameBackends(h[i].record.binding.value, h[j].record.binding.value)
               else h[j].record.role == OtherRole)
    && (forall i :: 0 <= i < |h| && h[i].RecordComment? && h[i].record.neutral && h[i].record.role == Reviewer ==>
          h[i].record.binding.None? || FindSeat(h[i].record.binding.value, h[i].record.agent).Some?)
  }

  /** Element `k` is a link that the next element, a link of the same round, replaced. */
  predicate Replaced(es: seq<Element>, k: nat)
    requires k < |es|
  {
    k + 1 < |es| && es[k].source.FromLink? && es[k + 1].source.FromLink?
      && es[k].source.link.effective == es[k + 1].source.link.effective
  }

  /** A replaced link never took effect; any other link took effect, or nothing posted yet could have used it. */
  ghost predicate LinksFit(es: seq<Element>, h: History) {
    forall k :: 0 <= k < |es| && es[k].source.FromLink? ==>
      if Replaced(es, k) then !TookEffect(es, h, k) else TookEffect(es, h, k) || Waiting(es, h, k)
  }

  /** Element `k` is the first waiting link. */
  ghost predicate FirstPending(es: seq<Element>, h: History, k: nat) {
    && k < |es| && es[k].source.FromLink? && Waiting(es, h, k)
    && forall j :: 0 <= j < k && es[j].source.FromLink? ==> !Waiting(es, h, j)
  }

  /** The link was anchored in these records: at their highest round, or at round 1 when there are none. */
  ghost predicate AnchoredIn(h: History, link: Link) {
    if exists i :: 0 <= i < |h| && h[i].RecordComment? then
      && link.advance
      && (exists i :: 0 <= i < |h| && h[i].RecordComment? && h[i].record.round == link.anchor)
      && (forall i :: 0 <= i < |h| && h[i].RecordComment? ==> h[i].record.round <= link.anchor)
    else !link.advance && link.anchor == 1
  }

  /** No amendment waits before the first waiting link, no record follows it, and it is still anchored. */
  ghost predicate PendingFits(es: seq<Element>, h: History) {
    forall k: nat :: FirstPending(es, h, k) ==>
      && (forall j :: 0 <= j < k ==> !Waiting(es, h, j))
      && (forall i :: es[k].index < i < |h| ==> !h[i].RecordComment?)
      && AnchoredIn(h, es[k].source.link)
  }

  /** `l` is what `h` means; `legacyRoot` is the root when no comment names one. */
  ghost predicate IsLineage(s: Surface, legacyRoot: Identity, h: History, l: Lineage) {
    && (l.anchored <==> exists i :: 0 <= i < |h| && Anchors(h[i]))
    && (l.anchored || l.root == legacyRoot)
    && (forall i :: 0 <= i < |h| ==> AnchorFits(h[i], l.root))
    && l.root.policy in s.policies && s.contractOk(ContractOf(l.root))
    && PostsRead(s, h) && ArePosted(h, l.elements) && AllExtend(s, l.root, l.elements)
    && UnstampedFit(h) && Explains(l.root, l.elements, h, l.inits)
    && l.carried == (set k | 0 <= k < |l.elements| && TookEffect(l.elements, h, k) :: l.elements[k].Digest())
    && LinksFit(l.elements, h) && PendingFits(l.elements, h)
  }

  // --- Roots and bindings --------------------------------------------------------------------

  lemma {:induction false} FirstAnchorMeans(h: History)
    ensures FirstAnchor(h).Some? <==> exists i :: 0 <= i < |h| && Anchors(h[i])
    ensures FirstAnchor(h).Some? ==> exists i :: 0 <= i < |h| && AnchorOf(h[i]) == FirstAnchor(h)
    decreases |h|
  {
    if h != [] {
      FirstAnchorMeans(h[1..]);
      assert forall i :: 0 <= i < |h| - 1 ==> h[1..][i] == h[i + 1];
      if AnchorOf(h[0]).Some? {
        assert Anchors(h[0]);
      } else if FirstAnchor(h[1..]).Some? {
        var i :| 0 <= i < |h[1..]| && AnchorOf(h[1..][i]) == FirstAnchor(h[1..]);
        assert AnchorOf(h[i + 1]) == FirstAnchor(h) && Anchors(h[i + 1]);
      }
      if exists i :: 0 <= i < |h| && Anchors(h[i]) {
        var i :| 0 <= i < |h| && Anchors(h[i]);
        if i > 0 { assert Anchors(h[1..][i - 1]); }
      }
    }
  }

  lemma AnchoredMeans(h: History, root: Identity)
    ensures AnchoredAt(h, root) <==> forall i :: 0 <= i < |h| ==> AnchorFits(h[i], root)
  {
    hide WellFormed;
    forall c: Comment
      ensures AnchorFits(c, root) <==> RecordShapeOk(c) && (AnchorOf(c).Some? ==> AnchorOf(c).value == root) {}
    hide AnchorFits, RecordShapeOk, AnchorOf;
  }

  lemma BackendsMean(a: seq<Seat>, b: seq<Seat>)
    ensures Backends(a) == Backends(b) <==> SameBackends(a, b)
  {
    hide FindSeat, Names;
    var x, y := Backends(a), Backends(b);
    forall id ensures id in x <==> FindSeat(a, id).Some? {}
    forall id ensures id in y <==> FindSeat(b, id).Some? {}
    if SameBackends(a, b) { assert x == y; }
    if x == y {
      forall id
        ensures match (FindSeat(a, id), FindSeat(b, id))
                case (Some(p), Some(q)) => p.backend == q.backend
                case (None, None) => true
                case _ => false
      {
        assert id in x <==> id in y;
        if id in x { assert x[id] == y[id]; }
      }
    }
  }

  lemma UnstampedMeans(h: History)
    ensures LegacyBindingsOk(h) <==> UnstampedFit(h)
  {
    hide Backends, SameBackends, FindSeat, Names;
    forall a, b ensures Backends(a) == Backends(b) <==> SameBackends(a, b) { BackendsMean(a, b); }
    forall seats, id ensures FindSeat(seats, id).Some? <==> id in Names(seats) {}
  }

  // --- Use and pending links -----------------------------------------------------------------

  lemma LinksMean(es: seq<Element>, h: History, carried: set<Digest>)
    requires Ordered(es) && AreCarried(es, h, carried)
    ensures UseConsistent(es, carried) <==> LinksFit(es, h)
  {
    forall k | 0 <= k < |es| ensures TrailingStart(es, carried) <= k <==> Waiting(es, h, k) {
      TrailingMeans(es, h, carried, k);
    }
    hide Ordered, TookEffect, Waiting;
    forall k | 0 <= k < |es| && es[k].IsLink() ensures Superseded(es, k) <==> Replaced(es, k) {}
    hide Superseded, Replaced;
  }

  lemma AnchoredInMeans(h: History, link: Link)
    ensures AnchoredIn(h, link)
            <==> link.advance == HighestRound(h).Some?
                 && link.anchor == if HighestRound(h).Some? then HighestRound(h).value else 1
  {
    var highest := HighestRound(h);
    if highest.Some? {
      var i :| 0 <= i < |h| && h[i].RecordComment? && h[i].record.round == highest.value;
    }
  }

  lemma PendingMean(es: seq<Element>, h: History, carried: set<Digest>)
    requires Ordered(es) && AreCarried(es, h, carried)
    ensures PendingConsistent(h, es, carried) <==> PendingFits(es, h)
  {
    forall k | 0 <= k < |es| ensures TrailingStart(es, carried) <= k <==> Waiting(es, h, k) {
      TrailingMeans(es, h, carried, k);
    }
    hide Ordered, TookEffect, Waiting, AnchoredIn, AreCarried, HighestRound;
    var start := TrailingStart(es, carried);
    var first := FirstLink(es, start);
    forall k: nat ensures FirstPending(es, h, k) <==> first < |es| && k == first {}
    if first < |es| {
      AnchoredInMeans(h, es[first].source.link);
      assert (forall j :: 0 <= j < first ==> !Waiting(es, h, j)) <==> first == start by {
        if first != start { assert Waiting(es, h, start); }
      }
    }
  }

  lemma CarriedSet(es: seq<Element>, h: History, carried: set<Digest>)
    requires Ordered(es)
    requires carried == set k | 0 <= k < |es| && TookEffect(es, h, k) :: es[k].Digest()
    ensures AreCarried(es, h, carried)
  {
    hide TookEffect, Superseded;
  }

  // --- Resolving computes it -----------------------------------------------------------------

  lemma RootWellFormed(s: Surface, legacyRoot: Identity, h: History, root: Identity)
    requires WellFormed(legacyRoot) && SourcesOk(s, h) && forall i :: 0 <= i < |h| ==> AnchorFits(h[i], root)
    requires root == legacyRoot || exists i :: 0 <= i < |h| && Anchors(h[i])
    ensures WellFormed(root)
  {
    hide WellFormed, ParseInits, SeatBinding;
    if root != legacyRoot {
      var i :| 0 <= i < |h| && Anchors(h[i]);
      assert AnchorFits(h[i], root);
      if h[i].LinkComment? { assert SourceOf(h[i]) == Some(FromLink(h[i].link)); }
    }
  }

  lemma PostedRawsOk(s: Surface, h: History, es: seq<Element>)
    requires SourcesOk(s, h) && ArePosted(h, es)
    ensures RawsOk(s, h, RawsOf(es))
  {
    hide SourceOk, SourceOf;
    CollectExact(s, h, es);
    CollectOk(s, h);
  }

  lemma OrderedElements(s: Surface, root: Identity, h: History, es: seq<Element>)
    requires WellFormed(root) && SourcesOk(s, h) && ArePosted(h, es) && AllExtend(s, root, es)
    ensures Ordered(es) && Elements(s, root, RawsOf(es)) == Accepted(es)
  {
    hide SourcesOk, ArePosted, AllExtend, RawsOk, Ordered, Elements, WellFormed;
    PostedRawsOk(s, h, es);
    ElementsExact(s, root, h, es);
    ElementsOrdered(s, root, h, RawsOf(es));
  }

  lemma ResolvedRoot(s: Surface, legacyRoot: Identity, h: History)
    requires Resolve(s, legacyRoot, h).Accepted?
    ensures var l := Resolve(s, legacyRoot, h).value;
            && (l.anchored <==> exists i :: 0 <= i < |h| && Anchors(h[i]))
            && (l.anchored || l.root == legacyRoot)
            && (forall i :: 0 <= i < |h| ==> AnchorFits(h[i], l.root))
  {
    hide FirstAnchor, AnchoredAt, AnchorFits, Collect, Elements, LegacyBindingsOk, Walk, UseConsistent, Anchors,
      PendingConsistent;
    FirstAnchorMeans(h);
    AnchoredMeans(h, Resolve(s, legacyRoot, h).value.root);
  }

  /** What an accepted resolution found out about roots and elements. */
  lemma ResolvedElements(s: Surface, legacyRoot: Identity, h: History)
    requires WellFormed(legacyRoot) && Resolve(s, legacyRoot, h).Accepted?
    ensures var l := Resolve(s, legacyRoot, h).value;
            && (l.anchored <==> exists i :: 0 <= i < |h| && Anchors(h[i]))
            && (l.anchored || l.root == legacyRoot)
            && (forall i :: 0 <= i < |h| ==> AnchorFits(h[i], l.root))
            && SourcesOk(s, h) && ArePosted(h, l.elements) && AllExtend(s, l.root, l.elements)
            && Ordered(l.elements) && WellFormed(l.root)
  {
    hide Resolve, AnchorFits, Anchors, Collect, Elements, Walk, UseConsistent, PendingConsistent, LegacyBindingsOk,
      AnchoredAt, SourcesOk, ArePosted, AllExtend, Ordered, WellFormed, RawsOk;
    var l := Resolve(s, legacyRoot, h).value;
    ResolvedRoot(s, legacyRoot, h);
    var raws := ResolveHasParts(s, legacyRoot, h);
    ResolvedRaws(s, l.root, h, raws);
    CollectExact(s, h, l.elements);
    RootWellFormed(s, legacyRoot, h, l.root);
    ElementsExact(s, l.root, h, l.elements);
  }

  lemma ResolvedRaws(s: Surface, root: Identity, h: History, raws: seq<Raw>)
    requires Elements(s, root, raws).Accepted?
    ensures raws == RawsOf(Elements(s, root, raws).value)
  {
    hide Elements;
    var es := Elements(s, root, raws).value;
    forall k | 0 <= k < |raws| ensures raws[k] == RawsOf(es)[k] { ElementsMatchRaws(s, root, raws, k); }
  }

  lemma {:induction false} CarriedAreElements(root: Identity, es: seq<Element>, h: History, d: Digest)
    requires Walk(root, es, h).Accepted? && d in Walk(root, es, h).value.carried
    ensures exists k :: 0 <= k < |es| && es[k].Digest() == d
    decreases |h|
  {
    hide CommentStep, Carries;
    if h != [] {
      var n := |h| - 1;
      var p := Walk(root, es, h[..n]).value;
      StepCarriesExact(root, es, n, h[n], p);
      if d in p.carried { CarriedAreElements(root, es, h[..n], d); }
    }
  }

  /** What a walk carries are the digests of the elements that took effect. */
  lemma WalkCarries(root: Identity, es: seq<Element>, h: History)
    requires Ordered(es) && Walk(root, es, h).Accepted?
    ensures Walk(root, es, h).value.carried
            == set k | 0 <= k < |es| && TookEffect(es, h, k) :: es[k].Digest()
    ensures AreCarried(es, h, Walk(root, es, h).value.carried)
  {
    hide Walk, TookEffect, Ordered;
    var carried := Walk(root, es, h).value.carried;
    forall k | 0 <= k < |es| ensures es[k].Digest() in carried <==> TookEffect(es, h, k) {
      WalkCarriesExact(root, es, h, k);
    }
    forall d | d in carried ensures exists k :: 0 <= k < |es| && es[k].Digest() == d {
      CarriedAreElements(root, es, h, d);
    }
  }

  lemma ResolvedMeans(s: Surface, legacyRoot: Identity, h: History)
    requires WellFormed(legacyRoot) && Resolve(s, legacyRoot, h).Accepted?
    ensures IsLineage(s, legacyRoot, h, Resolve(s, legacyRoot, h).value)
  {
    hide FirstAnchor, AnchoredAt, AnchorFits, Collect, Elements, LegacyBindingsOk, Walk, UseConsistent,
      PendingConsistent, SourcesOk, ArePosted, AllExtend, Ordered, WellFormed, RawsOk, UnstampedFit, Explains,
      LinksFit, PendingFits, TookEffect, AreCarried, PostsRead;
    var l := Resolve(s, legacyRoot, h).value;
    var raws := ResolveHasParts(s, legacyRoot, h);
    ResolvedElements(s, legacyRoot, h);
    UnstampedMeans(h);
    PostsMean(s, h);
    WalkExact(l.root, l.elements, h, l.inits);
    WalkCarries(l.root, l.elements, h);
    LinksMean(l.elements, h, l.carried);
    PendingMean(l.elements, h, l.carried);
  }

  lemma RootChosen(h: History, legacyRoot: Identity, root: Identity)
    requires forall i :: 0 <= i < |h| ==> AnchorFits(h[i], root)
    requires root == legacyRoot || exists i :: 0 <= i < |h| && Anchors(h[i])
    ensures root == if FirstAnchor(h).Some? then FirstAnchor(h).value else legacyRoot
    ensures AnchoredAt(h, root)
  {
    FirstAnchorMeans(h);
    AnchoredMeans(h, root);
    hide FirstAnchor, AnchorFits, RecordShapeOk, Anchors, WellFormed;
  }

  lemma MeaningResolves(s: Surface, legacyRoot: Identity, h: History, l: Lineage)
    requires WellFormed(legacyRoot) && IsLineage(s, legacyRoot, h, l)
    ensures Resolve(s, legacyRoot, h) == Accepted(l)
  {
    FirstAnchorMeans(h);
    PostsMean(s, h);
    hide FirstAnchor, AnchoredAt, AnchorFits, Collect, Elements, LegacyBindingsOk, Walk, UseConsistent, Anchors,
      PendingConsistent, SourcesOk, ArePosted, AllExtend, Ordered, WellFormed, RawsOk, UnstampedFit, Explains,
      LinksFit, PendingFits, TookEffect, AreCarried, PostsRead;
    RootWellFormed(s, legacyRoot, h, l.root);
    RootChosen(h, legacyRoot, l.root);
    CollectExact(s, h, l.elements);
    OrderedElements(s, l.root, h, l.elements);
    UnstampedMeans(h);
    WalkExact(l.root, l.elements, h, l.inits);
    WalkCarries(l.root, l.elements, h);
    LinksMean(l.elements, h, l.carried);
    PendingMean(l.elements, h, l.carried);
  }

  /** Resolving a history yields exactly the lineage it means, and refuses exactly a history that means none. */
  lemma ResolveExact(s: Surface, legacyRoot: Identity, h: History, l: Lineage)
    requires WellFormed(legacyRoot)
    ensures Resolve(s, legacyRoot, h) == Accepted(l) <==> IsLineage(s, legacyRoot, h, l)
  {
    hide Resolve, IsLineage, WellFormed;
    if Resolve(s, legacyRoot, h) == Accepted(l) { ResolvedMeans(s, legacyRoot, h); }
    if IsLineage(s, legacyRoot, h, l) { MeaningResolves(s, legacyRoot, h, l); }
  }
}
