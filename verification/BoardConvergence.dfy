/** Recording a board change settles it, and the exact limits of what the writers may post. */
module BoardConvergence {
  import opened Common
  import opened BoardAmendment
  import opened BoardIdentity
  import opened BoardLineage
  import opened BoardFacts
  import opened BoardGovernance
  import opened BoardProtocol

  lemma {:induction false} WalkInitsOk(root: Identity, es: seq<Element>, h: History)
    requires Walk(root, es, h).Accepted?
    ensures InitsOk(Walk(root, es, h).value.inits)
    decreases |h|
  {
    if h != [] {
      WalkInitsOk(root, es, h[..|h| - 1]);
      StepInitsOk(root, es, |h| - 1, h[|h| - 1], Walk(root, es, h[..|h| - 1]).value);
    }
  }

  lemma StepInitsOk(root: Identity, es: seq<Element>, index: nat, c: Comment, p: Progress)
    requires InitsOk(p.inits) && CommentStep(root, es, index, c, p).Accepted?
    ensures InitsOk(CommentStep(root, es, index, c, p).value.inits)
  {
    hide MergeAllowed, ApplyInits, SeatBinding, WellFormed, Before, GoverningCount, FindSeat, BindingCompatible,
      ChainOk, ElementAt;
    if c.RecordComment? && c.record.root.Present? {
      var governing := IdentityAfter(root, es[..GoverningCount(es, index, c.record.round)]);
      ParsedInitsOk(if c.record.init.Present? then c.record.init.value else map[], governing);
    } else if c.LinkComment? && ElementAt(es, index) {
      ParsedInitsOk(c.link.inits, c.link.newBoard);
    }
  }

  lemma ParsedInitsOk(entries: map<string, InitEntry>, board: Identity)
    requires ParseInits(entries, board).Accepted?
    ensures InitsOk(ParseInits(entries, board).value)
  {
    hide FindSeat, ChainOk;
  }

  lemma KnownNeverDiffers(configured: Identity, inits: Inits)
    requires Known(configured)
    ensures ApplyInits(configured, inits) == configured && !ConfiguredDiffers(configured, configured)
  {
    ApplyInitsKnown(configured, inits);
  }

  /** The candidate's binding initializations contradict none that history already recorded. */
  predicate NoConflict(l: Lineage, configured: Identity) {
    MergeAllowed(l.inits, PendingInits(l.Current(), configured), None)
  }

  /**
   * Recording a board change converges.  Appended to any resolved history - even
   * over a pending link, which it supersedes - the candidate link resolves again
   * exactly when its binding initializations contradict none already recorded;
   * the configured board is then the current one and no second link is proposed.
   */
  lemma RecordingConverges(s: Surface, legacyRoot: Identity, h: History, configured: Identity)
    requires Resolve(s, legacyRoot, h).Accepted? && RootOk(s, Resolve(s, legacyRoot, h).value.root) && PositiveRounds(h)
    requires Enabled(s, Resolve(s, legacyRoot, h).value, None, PostLink(configured))
    ensures var l := Resolve(s, legacyRoot, h).value;
            && CandidateLink(l, configured, h).Accepted?
            && var after := Resolve(s, legacyRoot, h + [LinkComment(CandidateLink(l, configured, h).value)]);
               && (after.Accepted? <==> NoConflict(l, configured))
               && (after.Accepted? ==>
                     && after.value.Current() == configured
                     && !ConfiguredDiffers(configured, after.value.Current())
                     && after.value.HasPendingLink() && !after.value.HasPendingAmendment())
  {
    hide Collect, AnchoredAt, Elements, LegacyBindingsOk, Walk, BoardSound, RootOk, Known, WellFormed, LinkStep,
      CandidateLink, FirstAnchor, UseConsistent, PendingConsistent, RawsOk, Ordered, PendingInits, SeatBinding,
      MergeAllowed, PositiveRounds, TrailingStart, ApplyInits, ConfiguredDiffers, BoardNames, Valid;
    var raws := ResolveHasParts(s, legacyRoot, h);
    var l := Resolve(s, legacyRoot, h).value;
    var es, p := l.elements, Progress(l.inits, l.carried);
    RootWellFormed(s, l.root);
    BoardsSound(s, l.root, h, raws);
    WalkInitsOk(l.root, es, h);
    var e := CandidateAppends(s, l.root, h, raws, es, p, l, configured);
    CandidateWalk(s, l.root, h, es, p, l, configured);
    var link := CandidateLink(l, configured, h).value;
    var h' := h + [LinkComment(link)];
    FirstAnchorAppend(h, LinkComment(link));
    CandidateRoot(l, configured, h);
    KnownNeverDiffers(configured, p.inits + PendingInits(l.Current(), configured));
    if NoConflict(l, configured) {
      PendingAfterCandidate(l, es + [e], e);
    }
  }

  /**
   * Over every grown history recording a board change converges outright: no run
   * has recorded a binding that the configured board contradicts.
   */
  lemma GrownRecordingConverges(s: Surface, root: Identity, actions: seq<Action>, configured: Identity)
    requires RootOk(s, root) && Grown(s, root, actions)
    requires var r := Resolve(s, root, After(s, root, actions).history);
             r.Accepted? ==> Enabled(s, r.value, None, PostLink(configured))
    ensures var h := After(s, root, actions).history;
            && Resolve(s, root, h).Accepted?
            && var l := Resolve(s, root, h).value;
               var after := Resolve(s, root, h + [Candidate(l, configured, h)]);
               && after.Accepted? && after.value.Current() == configured
               && !ConfiguredDiffers(configured, after.value.Current()) && after.value.HasPendingLink()
  {
    hide Inv, RunOk, Resolve, RootOk, Grown, After, CandidateLink, ConfiguredDiffers, NoConflict;
    var h := After(s, root, actions).history;
    var raws, es, p := GrownInv(s, root, actions);
    var l := LineageOf(s, root, h, raws, es, p);
    InvPositive(s, root, h, raws, es, p);
    InvNoConflict(s, root, h, raws, es, p, l, configured);
    RecordingConverges(s, root, h, configured);
  }

  lemma InvPositive(s: Surface, root: Identity, h: History, raws: seq<Raw>, es: seq<Element>, p: Progress)
    requires Inv(s, root, h, raws, es, p)
    ensures PositiveRounds(h)
  {
    hide Resolved, UnknownFromRoot, InitsOnRoot, PendingChained;
  }

  lemma InvNoConflict(
    s: Surface, root: Identity, h: History, raws: seq<Raw>, es: seq<Element>, p: Progress, l: Lineage,
      configured: Identity)
    requires RootOk(s, root) && Inv(s, root, h, raws, es, p) && WellFormed(configured)
    requires l.root == root && l.elements == es && l.inits == p.inits
    ensures NoConflict(l, configured)
  {
    hide Resolved, UnknownFromRoot, InitsOnRoot, PendingChained, StampedRounds, WellFormed, PendingInits,
      MergeAllowed, ApplyInits;
    RootWellFormed(s, root);
    ResolvedSound(s, root, h, raws, es, p);
    PendingInitsMerge(root, es, p.inits, configured, IdentityAfter(root, es));
  }

  lemma RootWellFormed(s: Surface, root: Identity)
    requires RootOk(s, root)
    ensures WellFormed(root)
  {
  }

  lemma CandidateRoot(l: Lineage, configured: Identity, h: History)
    requires CandidateLink(l, configured, h).Accepted?
    ensures CandidateLink(l, configured, h).value.root == l.root && !l.HasPendingAmendment()
  {
  }

  lemma PendingAfterCandidate(l: Lineage, es': seq<Element>, e: Element)
    requires !l.HasPendingAmendment() && es' == l.elements + [e] && e.IsLink() && e.Digest() !in l.carried
    ensures TrailingStart(es', l.carried) < |es'|
    ensures forall i :: TrailingStart(es', l.carried) <= i < |es'| ==> es'[i].IsLink()
  {
    hide TrailingStart;
    TrailingStartAppend(l.elements, e, l.carried);
    forall i | TrailingStart(es', l.carried) <= i < |es'| ensures es'[i].IsLink() {
      if i < |l.elements| { AllTrailingAreLinks(l, i); }
    }
  }

  // --- Exact limits --------------------------------------------------------------------------------

  lemma DigestsDiffer(es: seq<Element>, n: nat, m: nat)
    requires Ordered(es) && n <= |es| && m <= |es| && n != m
    ensures AmendmentDigestAfter(es[..n]) != AmendmentDigestAfter(es[..m])
            || ChangeDigestAfter(es[..n]) != ChangeDigestAfter(es[..m])
  {
    if 0 < n < m { DistinctDigests(es, n - 1, m - 1); }
    if 0 < m < n { DistinctDigests(es, m - 1, n - 1); }
  }

  /** A record of the run under way is accepted exactly in the rounds its stamp's element governs: from that
      element's own round up to the round of an amendment posted since. */
  lemma StampedRecordExact(s: Surface, root: Identity, actions: seq<Action>, action: Action)
    requires RootOk(s, root) && Grown(s, root, actions) && action.PostRecord?
    requires var run := After(s, root, actions).run;
             run.Some? && MayStamp(run.value.taken, action.round, action.role, action.agent)
    ensures var w := After(s, root, actions);
            && Resolve(s, root, w.history).Accepted?
            && (Resolve(s, root, w.history + [RunRecord(w.run.value, action)]).Accepted?
                <==> StampGoverns(w.run.value.taken, Resolve(s, root, w.history).value, action.round))
  {
    hide Resolved, Resolve, RootOk, Grown, After, MayStamp, StampedFor, WellFormed, BoardSound, UnknownFromRoot,
      InitsOnRoot, PendingChained, PendingInits, BoardNames;
    var w := After(s, root, actions);
    var raws, es, p := GrownInv(s, root, actions);
    var l := LineageOf(s, root, w.history, raws, es, p);
    var run := w.run.value;
    var c, t := RunRecord(run, action), run.taken;
    if StampGoverns(t, l, action.round) {
      var p' := RecordKeepsInv(s, root, w.history, raws, es, p, l, run, action);
      var _ := LineageOf(s, root, w.history + [c], raws, es, p');
    } else {
      RunPrefix(root, es, p, run);
      StampFields(t, run.configured, action.round, action.role, action.agent, action.bearsContract, action.onBase);
      NextRises(s, root, w.history, raws, es, p, |t.elements|);
      MisgovernedRefused(s, root, w.history, raws, es, p, c, |t.elements|);
    }
  }

  lemma NextRises(s: Surface, root: Identity, h: History, raws: seq<Raw>, es: seq<Element>, p: Progress, n: nat)
    requires Resolved(s, root, h, raws, es, p)
    ensures 0 < n < |es| && !es[n].IsLink() ==> es[n - 1].Effective() < es[n].Effective()
  {
    hide Parts, RawsOk, BoardSound;
  }

  /** A record with the digests of the `n`-th element is refused wherever another element governs it. */
  lemma MisgovernedRefused(
    s: Surface, root: Identity, h: History, raws: seq<Raw>, es: seq<Element>, p: Progress, c: Comment, n: nat)
    requires Resolved(s, root, h, raws, es, p) && c.RecordComment? && c.record.root == Present(root) && n <= |es|
    requires c.record.amendmentDigest == AmendmentDigestAfter(es[..n])
            && c.record.changeDigest == ChangeDigestAfter(es[..n])
    requires n < |es| ==> n == 0 || es[n - 1].Effective() < es[n].Effective()
    requires !((n > 0 ==> es[n - 1].Effective() <= c.record.round) && (n < |es| ==> c.record.round < es[n].Effective()))
    ensures Resolve(s, root, h + [c]).Refused?
  {
    hide LegacyBindingsOk, AnchoredAt, UseConsistent, PendingConsistent, RawsOk, Ordered, BoardSound, GoverningCount,
      FirstAnchor, Elements, SourceOk, ParseInits, MergeAllowed, ApplyInits, SeatBinding, WellFormed;
    var h' := h + [c];
    assert h'[..|h|] == h;
    RootOfAppended(root, h, c);
    StampElementGoverns(s, root, h, raws, es, n, c.record.round);
    DigestsDiffer(es, GoverningCount(es, |h|, c.record.round), n);
    assert Walk(root, es, h').Refused?;
    assert Collect(s, h') == Accepted(raws);
  }

  /** A grown history is never stuck: a run started under any configured board can post a coder record. */
  lemma NeverStuck(s: Surface, root: Identity, actions: seq<Action>, configured: Identity)
    returns (start: Action, record: Action)
    requires RootOk(s, root) && Grown(s, root, actions) && WellFormed(configured)
    ensures start == StartRun(configured) && record.PostRecord?
    ensures Grown(s, root, actions + [start, record])
    ensures var h := After(s, root, actions).history;
            && Resolve(s, root, h).Accepted?
            && MayStamp(Resolve(s, root, h).value, record.round, record.role, record.agent)
            && After(s, root, actions + [start, record]).history
               == h + [RunRecord(Run(Resolve(s, root, h).value, configured), record)]
            && Resolve(s, root, After(s, root, actions + [start, record]).history).Accepted?
  {
    hide Resolve, RootOk, Grown, After, WellFormed, StampedFor, BoardNames;
    var w := After(s, root, actions);
    GrownHistoriesAccepted(s, root, actions);
    var l := Resolve(s, root, w.history).value;
    var latest := if l.elements == [] then 1 else l.elements[|l.elements| - 1].Effective();
    start, record := StartRun(configured), PostRecord(if latest < 1 then 1 else latest, Coder, "", false, false);
    GrownMore(s, root, actions, start);
    GrownMore(s, root, actions + [start], record);
    assert actions + [start] + [record] == actions + [start, record];
    GrownHistoriesAccepted(s, root, actions + [start, record]);
  }

  lemma RootOfAppended(root: Identity, h: History, c: Comment)
    requires AnchoredAt(h, root) && AnchorOf(c) == Some(root)
    ensures FirstAnchor(h + [c]) == Some(root)
  {
    hide AnchoredAt;
    FirstAnchorAgrees(h, root);
    FirstAnchorAppend(h, c);
  }

  // --- Amendments and pending links --------------------------------------------------------------

  /** In a grown history a link and an amendment are never pending together. */
  lemma NotBothPending(
    s: Surface, root: Identity, h: History, raws: seq<Raw>, es: seq<Element>, p: Progress, l: Lineage)
    requires Inv(s, root, h, raws, es, p) && l.elements == es && l.carried == p.carried
    ensures !(l.HasPendingLink() && l.HasPendingAmendment())
  {
    hide Collect, AnchoredAt, Elements, LegacyBindingsOk, Walk, RawsOk, Ordered, BoardSound, UnknownFromRoot,
      InitsOnRoot, StampedRounds, TrailingStart, HighestRound, UseConsistent;
    if l.HasPendingLink() {
      var start := TrailingStart(es, p.carried);
      assert FirstLink(es, start) == start;
      TrailingLinks(es, p.carried, |es| - 1);
      forall i | start <= i < |es| ensures es[i].IsLink() { TrailingLinks(es, p.carried, i); }
    }
  }

  lemma {:induction false} TrailingLinks(es: seq<Element>, carried: set<Digest>, i: nat)
    requires PendingChained(es, carried) && TrailingStart(es, carried) <= i < |es|
    requires es[TrailingStart(es, carried)].IsLink()
    ensures es[i].IsLink()
  {
    hide TrailingStart;
    if i > TrailingStart(es, carried) { TrailingLinks(es, carried, i - 1); }
  }

  /** Some record freshly stamped on this history, under some configured board, would be accepted. */
  ghost predicate SomeRunCanPost(s: Surface, root: Identity, h: History) {
    Resolve(s, root, h).Accepted? &&
    exists configured, action :: CanPost(s, root, h, configured, action)
  }

  ghost predicate CanPost(s: Surface, root: Identity, h: History, configured: Identity, action: Action)
    requires Resolve(s, root, h).Accepted?
  {
    var l := Resolve(s, root, h).value;
    && WellFormed(configured) && action.PostRecord? && MayStamp(l, action.round, action.role, action.agent)
    && Resolve(s, root, h + [RunRecord(Run(l, configured), action)]).Accepted?
  }

  /**
   * Why a signed amendment must wait for a pending link.  The resolver admits an
   * amendment valid on the current board either way; but a run started on it can
   * post a record exactly when no link was pending.
   */
  lemma AmendmentMustWaitForLink(s: Surface, root: Identity, actions: seq<Action>, a: Amendment)
    requires RootOk(s, root) && Grown(s, root, actions)
    requires var r := Resolve(s, root, After(s, root, actions).history);
             r.Accepted? ==> Applies(s, r.value, a) && NotBeforeLatest(r.value, a.effective - 1)
    ensures var h := After(s, root, actions).history;
            && Resolve(s, root, h).Accepted? && Resolve(s, root, h + [AmendmentComment(a)]).Accepted?
            && (SomeRunCanPost(s, root, h + [AmendmentComment(a)]) <==> !Resolve(s, root, h).value.HasPendingLink())
  {
    hide Resolve, RootOk, Grown, After, Inv, RunOk, WellFormed, Applies, MayStamp, StampedFor, NotBeforeLatest,
      CandidateLink;
    var h := After(s, root, actions).history;
    var raws, es, p := GrownInv(s, root, actions);
    var l := LineageOf(s, root, h, raws, es, p);
    var h' := h + [AmendmentComment(a)];
    NotBothPending(s, root, h, raws, es, p, l);
    if l.HasPendingLink() {
      var e, _ := AmendOverPending(s, root, h, raws, es, p, l, a);
      var l' := ResolvedLineage(s, root, h', raws + [Raw(|h|, e.source)], es + [e], p);
      forall configured: Identity, action: Action ensures !CanPost(s, root, h', configured, action) {
        if action.PostRecord? {
          WedgedRecord(s, root, h', raws + [Raw(|h|, e.source)], es + [e], p, l', configured, action);
        }
      }
    } else {
      var all := actions + [PostAmendment(a)];
      GrownMore(s, root, actions, PostAmendment(a));
      RootWellFormed(s, root);
      var start, record := NeverStuck(s, root, all, root);
      assert After(s, root, all).history == h';
      assert CanPost(s, root, h', root, record);
    }
  }

  /** Over an unused link under an amendment every freshly stamped record is refused, in any round. */
  lemma WedgedRecord(
    s: Surface, root: Identity, h: History, raws: seq<Raw>, es: seq<Element>, p: Progress, l: Lineage,
    configured: Identity, action: Action)
    requires Resolved(s, root, h, raws, es, p) && l.root == root && l.elements == es
    requires |es| >= 2 && !es[|es| - 1].IsLink() && es[|es| - 2].IsLink() && es[|es| - 2].Digest() !in p.carried
    requires action.PostRecord?
    ensures Resolve(s, root, h + [RunRecord(Run(l, configured), action)]).Refused?
  {
    hide Resolve, Resolved, StampedFor;
    StampFields(l, configured, action.round, action.role, action.agent, action.bearsContract, action.onBase);
    var c := RunRecord(Run(l, configured), action);
    assert es[..|es|] == es;
    if action.round < es[|es| - 1].Effective() {
      MisgovernedRefused(s, root, h, raws, es, p, c, |es|);
    } else {
      LateRecordRefused(s, root, h, raws, es, p, c, |es| - 2);
    }
  }

  lemma StampFields(
    l: Lineage, configured: Identity, round: int, role: Role, agent: string, bearsContract: bool, onBase: bool)
    ensures var r := StampedFor(l, configured, round, role, agent, bearsContract, onBase);
            && r.round == round && r.root == Present(l.root)
            && r.amendmentDigest == AmendmentDigestAfter(l.elements) && r.changeDigest == ChangeDigestAfter(l.elements)
  {
  }

  lemma ResolvedLineage(s: Surface, root: Identity, h: History, raws: seq<Raw>, es: seq<Element>, p: Progress)
    returns (l: Lineage)
    requires Resolved(s, root, h, raws, es, p)
    ensures Resolve(s, root, h) == Accepted(l)
    ensures l.root == root && l.elements == es && l.carried == p.carried && l.inits == p.inits
  {
    hide Parts, Resolve;
    PartsResolve(s, root, h, raws, es, p);
    l := Resolve(s, root, h).value;
  }

  lemma AmendOverPending(
    s: Surface, root: Identity, h: History, raws: seq<Raw>, es: seq<Element>, p: Progress, l: Lineage, a: Amendment)
    returns (e: Element, h': History)
    requires RootOk(s, root) && Inv(s, root, h, raws, es, p)
    requires l.root == root && l.elements == es && l.carried == p.carried && l.inits == p.inits
    requires l.HasPendingLink() && !l.HasPendingAmendment() && Applies(s, l, a) && NotBeforeLatest(l, a.effective - 1)
    ensures h' == h + [AmendmentComment(a)] && e.source == FromAmendment(a)
    ensures Resolved(s, root, h', raws + [Raw(|h|, e.source)], es + [e], p)
    ensures es != [] && es[|es| - 1].IsLink() && es[|es| - 1].Digest() !in p.carried
  {
    hide Collect, AnchoredAt, Elements, LegacyBindingsOk, Walk, BoardSound, WellFormed, UseConsistent,
      PendingConsistent, PendingChained, RawsOk, Ordered, TrailingStart, HighestRound, SeatBinding, Posted?,
      AmendmentElement, AmendContract, RemovedBy, Segment, UnknownFromRoot, InitsOnRoot, StampedRounds;
    h' := h + [AmendmentComment(a)];
    AllTrailingAreLinks(l, |es| - 1);
    AmendmentElementSound(s, root, raws, |h|, a);
    e := AmendmentElement(s, root, es, |h|, a).value;
    AmendmentBase(s, root, es, |h|, a);
    AmendmentIsNew(s, root, h, raws, es, a);
    NewDigest(s, root, h, raws, es, p, e);
    ConsistentOverPending(h, l, AmendmentComment(a), e);
    AppendElement(s, root, h, raws, es, p, AmendmentComment(a), e);
  }

  lemma ConsistentOverPending(h: History, l: Lineage, c: Comment, e: Element)
    requires UseConsistent(l.elements, l.carried) && PendingConsistent(h, l.elements, l.carried)
    requires l.HasPendingLink() && !l.HasPendingAmendment() && !e.IsLink() && e.Digest() !in l.carried
            && !c.RecordComment?
    ensures UseConsistent(l.elements + [e], l.carried)
    ensures PendingConsistent(h + [c], l.elements + [e], l.carried)
  {
    hide TrailingStart, HighestRound, FirstLink;
    var es, es', start := l.elements, l.elements + [e], TrailingStart(l.elements, l.carried);
    TrailingStartAppend(es, e, l.carried);
    HighestRoundAppend(h, c);
    assert forall i :: 0 <= i < |es| ==> es'[i] == es[i];
    forall i | 0 <= i && i + 1 < |es'| ensures Superseded(es', i) <==> i + 1 < |es| && Superseded(es, i) {}
    AllTrailingAreLinks(l, start);
    FirstLinkIs(es, start);
    FirstLinkIs(es', start);
  }

  /** A record that activates an amendment strands the uncarried link before it. */
  lemma LateRecordRefused(
    s: Surface, root: Identity, h: History, raws: seq<Raw>, es: seq<Element>, p: Progress, c: Comment, k: nat)
    requires Resolved(s, root, h, raws, es, p) && c.RecordComment? && c.record.root == Present(root)
    requires k + 2 == |es| && es[k].IsLink() && !es[k + 1].IsLink() && es[k].Digest() !in p.carried
    requires es[k + 1].Effective() <= c.record.round
    ensures Resolve(s, root, h + [c]).Refused?
  {
    hide LegacyBindingsOk, AnchoredAt, PendingConsistent, RawsOk, Ordered, BoardSound, GoverningCount, FirstAnchor,
      TrailingStart, Elements, SourceOk, CommentStep;
    var h' := h + [c];
    assert h'[..|h|] == h;
    RootOfAppended(root, h, c);
    assert Collect(s, h') == Accepted(raws);
    if Walk(root, es, h').Accepted? {
      var carried := Walk(root, es, h').value.carried;
      LatestGoverns(s, root, h, raws, es, c.record.round);
      RecordCarries(root, es, |h|, c, p);
      DistinctDigests(es, k, k + 1);
      assert es[k].Digest() !in carried && TrailingStart(es, carried) == |es|;
    }
  }

  lemma RecordCarries(root: Identity, es: seq<Element>, index: nat, c: Comment, p: Progress)
    requires c.RecordComment? && c.record.root.Present? && es != [] && GoverningCount(es, index, c.record.round) == |es|
    requires CommentStep(root, es, index, c, p).Accepted?
    ensures CommentStep(root, es, index, c, p).value.carried == p.carried + {es[|es| - 1].Digest()}
  {
    hide ParseInits, MergeAllowed, ApplyInits, SeatBinding, WellFormed, GoverningCount;
    assert es[..|es|] == es;
  }
}
