/** In a history its writers grew, every link records the board in force, so freshness follows the boards alone. */
module BoardInForce {
  import opened Common
  import opened BoardAmendment
  import opened BoardIdentity
  import opened BoardLineage
  import opened BoardFacts
  import opened BoardGovernance
  import opened BoardExplained
  import opened BoardProtocol
  import opened BoardFreshness

  /** The board before element `k`, with every binding recorded by then. */
  ghost function InForce(root: Identity, es: seq<Element>, h: History, inits: Inits, k: nat): Identity
    requires k < |es| && es[k].index <= |h|
  {
    ApplyInits(IdentityAfter(root, es[..k]), KnownBefore(es, h, es[k].index, inits))
  }

  /** Every link names the board in force as its old board. */
  ghost predicate LinksInForce(root: Identity, es: seq<Element>, h: History, inits: Inits) {
    forall k :: 0 <= k < |es| ==>
      es[k].index <= |h|
      && (es[k].source.FromLink? ==> es[k].source.link.oldBoard == InForce(root, es, h, inits, k))
  }

  lemma PayloadStays(es: seq<Element>, es': seq<Element>, h: History, h': History, j: nat)
    requires es <= es' && h <= h' && j < |h| && forall i :: |es| <= i < |es'| ==> |h| <= es'[i].index
    ensures Payload(es', h', j) == Payload(es, h, j)
  {
    if ElementAt(es, j) {
      var i :| 0 <= i < |es| && es[i].index == j;
      assert es'[i].index == j;
    }
  }

  lemma KnownStays(
    root: Identity, es: seq<Element>, es': seq<Element>, h: History, c: Comment, p: Progress, p': Progress, n: nat)
    requires es <= es' && n <= |h| && forall i :: |es| <= i < |es'| ==> |h| <= es'[i].index
    requires Walk(root, es, h) == Accepted(p) && Walk(root, es', h + [c]) == Accepted(p')
    ensures KnownBefore(es', h + [c], n, p'.inits) == KnownBefore(es, h, n, p.inits)
    ensures KnownBefore(es', h + [c], |h|, p'.inits) == p.inits
  {
    hide CommentStep, Payload, Explains;
    var h' := h + [c];
    assert h'[..|h|] == h && es'[..|es|] == es;
    WalkIgnoresLater(root, es', |es|, h);
    WalkExact(root, es', h, p.inits);
    StepKnown(root, es', h', p);
    forall m, id | 0 <= m <= |h| ensures Recorded(es', h', m, id) <==> Recorded(es, h, m, id) {
      forall j | 0 <= j < m ensures Payload(es', h', j) == Payload(es, h, j) { PayloadStays(es, es', h, h', j); }
    }
    forall id | Recorded(es', h', n, id) ensures Recorded(es', h', |h|, id) {
      var j :| 0 <= j < n && id in Payload(es', h', j);
    }
  }

  lemma InForceStays(
    root: Identity, es: seq<Element>, es': seq<Element>, h: History, c: Comment, p: Progress, p': Progress)
    requires es <= es' && LinksInForce(root, es, h, p.inits) && forall i :: |es| <= i < |es'| ==> |h| <= es'[i].index
    requires Walk(root, es, h) == Accepted(p) && Walk(root, es', h + [c]) == Accepted(p')
    ensures forall k :: 0 <= k < |es| && es[k].source.FromLink? ==>
              es[k].source.link.oldBoard == InForce(root, es', h + [c], p'.inits, k)
  {
    hide Walk, ApplyInits, KnownBefore, IdentityAfter;
    forall k | 0 <= k < |es| && es[k].source.FromLink?
      ensures es[k].source.link.oldBoard == InForce(root, es', h + [c], p'.inits, k)
    {
      KnownStays(root, es, es', h, c, p, p', es[k].index);
      assert es'[..k] == es[..k];
    }
  }

  lemma WalkOf(s: Surface, root: Identity, h: History, raws: seq<Raw>, es: seq<Element>, p: Progress)
    requires Inv(s, root, h, raws, es, p)
    ensures Walk(root, es, h) == Accepted(p) && forall i :: 0 <= i < |es| ==> es[i].index < |h|
  {
    hide Walk, Collect, Elements, UseConsistent, PendingConsistent, BoardSound, SourceOk;
    forall i | 0 <= i < |es| ensures es[i].index < |h| { ElementBefore(s, root, h, raws, i); }
  }

  lemma NewLink(l: Lineage, configured: Identity, h: History)
    requires CandidateLink(l, configured, h).Accepted?
    ensures CandidateLink(l, configured, h).value.oldBoard == ApplyInits(IdentityAfter(l.root, l.elements), l.inits)
  {
  }

  lemma ElementsGrow(
    s: Surface, root: Identity, h: History, raws: seq<Raw>, es: seq<Element>, p: Progress, c: Comment,
    raws': seq<Raw>, es': seq<Element>, p': Progress)
    requires Inv(s, root, h, raws, es, p) && Inv(s, root, h + [c], raws', es', p')
    ensures es <= es' && Walk(root, es, h) == Accepted(p) && Walk(root, es', h + [c]) == Accepted(p')
    ensures forall i :: |es| <= i < |es'| ==> es'[i].index == |h| && SourceOf(c) == Some(es'[i].source)
    ensures forall i :: 0 <= i < |es| ==> es[i].index < |h|
  {
    hide Walk, Elements, UseConsistent, PendingConsistent, BoardSound, SourceOk, AnchoredAt, LegacyBindingsOk,
      UnknownFromRoot, InitsOnRoot, PendingChained, StampedRounds, Ordered, Posted?, RawsOk;
    assert (h + [c])[..|h|] == h;
    assert raws == raws'[..|raws|];
    ElementsPrefix(s, root, raws', |raws|);
    forall i | 0 <= i < |es'| ensures es'[i].index == raws'[i].index && es'[i].source == raws'[i].source {
      ElementsMatchRaws(s, root, raws', i);
    }
    WalkOf(s, root, h, raws, es, p);
  }

  /** One more comment, a candidate link or anything else that posts no link, keeps old boards in force. */
  lemma StillInForce(
    root: Identity, es: seq<Element>, es': seq<Element>, h: History, c: Comment, p: Progress, p': Progress)
    requires es <= es' && LinksInForce(root, es, h, p.inits)
    requires forall i :: |es| <= i < |es'| ==> es'[i].index == |h| && SourceOf(c) == Some(es'[i].source)
    requires |es'| <= |es| + 1 && forall i :: 0 <= i < |es| ==> es[i].index < |h|
    requires Walk(root, es, h) == Accepted(p) && Walk(root, es', h + [c]) == Accepted(p')
    requires c.LinkComment? ==> c.link.oldBoard == ApplyInits(IdentityAfter(root, es), p.inits)
    ensures LinksInForce(root, es', h + [c], p'.inits)
  {
    InForceStays(root, es, es', h, c, p, p');
    KnownStays(root, es, es', h, c, p, p', |h|);
    hide Walk, ApplyInits, KnownBefore, IdentityAfter;
    forall k | 0 <= k < |es'|
      ensures es'[k].index <= |h + [c]|
      ensures es'[k].source.FromLink? ==> es'[k].source.link.oldBoard == InForce(root, es', h + [c], p'.inits, k)
    {
      if k == |es| { assert es'[..k] == es; }
    }
  }

  /** In a grown history every link's old board is the board in force when it was posted. */
  lemma {:induction false} GrownInForce(s: Surface, root: Identity, actions: seq<Action>)
    requires RootOk(s, root) && Grown(s, root, actions)
    ensures var h := After(s, root, actions).history;
            && Resolve(s, root, h).Accepted?
            && var l := Resolve(s, root, h).value;
               l.root == root && LinksInForce(root, l.elements, h, l.inits)
    decreases |actions|
  {
    hide Inv, RunInv, RunOk, Resolve, RootOk, Walk, WellFormed, LinksInForce, Enabled, StampedFor, CandidateLink;
    var raws', es', p' := GrownInv(s, root, actions);
    var h' := After(s, root, actions).history;
    var l' := LineageOf(s, root, h', raws', es', p');
    if actions == [] {
      NoLinks(s, root, raws', es', p');
    } else {
      var front := actions[..|actions| - 1];
      GrownInForce(s, root, front);
      var raws, es, p := GrownInv(s, root, front);
      var h := After(s, root, front).history;
      var l := LineageOf(s, root, h, raws, es, p);
      if |h'| > |h| {
        var c := h'[|h|];
        assert h' == h + [c];
        ElementsGrow(s, root, h, raws, es, p, c, raws', es', p');
        assert |es'| <= |es| + 1 by { OneMore(s, root, h, raws, es, p, c, raws', es', p'); }
        if c.LinkComment? {
          assert actions[|actions| - 1].PostLink?;
          NewLink(l, actions[|actions| - 1].configured, h);
        }
        StillInForce(root, es, es', h, c, p, p');
      }
    }
  }

  lemma NoLinks(s: Surface, root: Identity, raws: seq<Raw>, es: seq<Element>, p: Progress)
    requires Inv(s, root, [], raws, es, p)
    ensures LinksInForce(root, es, [], p.inits)
  {
    hide Walk, UseConsistent, PendingConsistent, BoardSound, SourceOk, AnchoredAt, LegacyBindingsOk,
      UnknownFromRoot, InitsOnRoot, PendingChained, StampedRounds, Ordered, RawsOk;
  }

  lemma OneMore(
    s: Surface, root: Identity, h: History, raws: seq<Raw>, es: seq<Element>, p: Progress, c: Comment,
    raws': seq<Raw>, es': seq<Element>, p': Progress)
    requires Inv(s, root, h, raws, es, p) && Inv(s, root, h + [c], raws', es', p')
    ensures |es'| <= |es| + 1
  {
    hide Walk, NextElement, UseConsistent, PendingConsistent, BoardSound, SourceOk, AnchoredAt, LegacyBindingsOk,
      UnknownFromRoot, InitsOnRoot, PendingChained, StampedRounds, Ordered, Posted?, RawsOk;
    assert (h + [c])[..|h|] == h;
  }

  // --- Freshness, by the boards in force -----------------------------------------------------

  /** Going from the board in force to its own, element `k` makes the seat approve afresh. */
  ghost predicate RefreshedInForce(l: Lineage, h: History, k: nat, name: string) {
    && k < |l.elements| && l.elements[k].index <= |h|
    && Refreshes(InForce(l.root, l.elements, h, l.inits, k), l.elements[k], name)
  }

  lemma SameRefresh(l: Lineage, h: History, k: nat, name: string)
    requires LinksInForce(l.root, l.elements, h, l.inits)
    ensures RefreshedInForce(l, h, k, name) <==> RefreshedAt(l, k, name)
  {
    hide Rebinds, MovesPrimary;
    if k < |l.elements| && !l.elements[k].source.FromLink? {
      assert BoardNames(InForce(l.root, l.elements, h, l.inits, k)) == BoardNames(BoardBefore(l, k));
    }
  }

  /**
   * In a grown history a seat on the current board must approve afresh from the highest effective round among the
   * elements that, compared with the board in force before them, brought it on, rebound it, or moved the primary
   * role from or to it; and its earlier approvals count exactly when there is none.
   */
  lemma GrownFreshExact(s: Surface, root: Identity, actions: seq<Action>, name: string)
    requires RootOk(s, root) && Grown(s, root, actions)
    ensures var h := After(s, root, actions).history;
            && Resolve(s, root, h).Accepted?
            && var l := Resolve(s, root, h).value;
               && (name in FreshFromRounds(l)
                   <==> name in BoardNames(l.Current()) && exists k: nat :: RefreshedInForce(l, h, k, name))
               && (name in FreshFromRounds(l) ==>
                     && (exists k: nat :: RefreshedInForce(l, h, k, name)
                                          && l.elements[k].Effective() == FreshFromRounds(l)[name])
                     && forall k: nat :: RefreshedInForce(l, h, k, name) ==>
                          l.elements[k].Effective() <= FreshFromRounds(l)[name])
  {
    var h := After(s, root, actions).history;
    GrownInForce(s, root, actions);
    FreshExact(s, root, h, name);
    hide Resolve, FreshFromRounds, LinksInForce, RefreshedInForce, RefreshedAt, After, Grown, OnSurface;
    var l := Resolve(s, root, h).value;
    forall k: nat ensures RefreshedInForce(l, h, k, name) <==> RefreshedAt(l, k, name) {
      SameRefresh(l, h, k, name);
    }
    ElementsOnly(l, h, name);
  }

  lemma ElementsOnly(l: Lineage, h: History, name: string)
    ensures forall k: nat :: RefreshedInForce(l, h, k, name) ==> k < |l.elements|
  {
    hide Refreshes, InForce;
  }
}
