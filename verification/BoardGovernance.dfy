/** Which element governs each round record, in any accepted history. */
module BoardGovernance {
  import opened Common
  import opened BoardAmendment
  import opened BoardIdentity
  import opened BoardLineage
  import opened BoardFacts

  /** The intermediate results of an accepted resolution. */
  ghost predicate Parts(s: Surface, root: Identity, h: History, raws: seq<Raw>, es: seq<Element>, p: Progress) {
    && Collect(s, h) == Accepted(raws)
    && AnchoredAt(h, root) && root.policy in s.policies && s.contractOk(ContractOf(root))
    && Elements(s, root, raws) == Accepted(es)
    && LegacyBindingsOk(h)
    && Walk(root, es, h) == Accepted(p)
    && UseConsistent(es, p.carried) && PendingConsistent(h, es, p.carried)
  }

  lemma ResolveHasParts(s: Surface, legacyRoot: Identity, h: History) returns (raws: seq<Raw>)
    requires Resolve(s, legacyRoot, h).Accepted?
    ensures var l := Resolve(s, legacyRoot, h).value;
            && Parts(s, l.root, h, raws, l.elements, Progress(l.inits, l.carried))
            && RawsOk(s, h, raws) && Ordered(l.elements) && |raws| == |l.elements|
  {
    hide Collect, AnchoredAt, Elements, LegacyBindingsOk, Walk, UseConsistent, PendingConsistent, Ordered, RawsOk,
      FirstAnchor;
    raws := Collect(s, h).value;
    CollectOk(s, h);
    ElementsOrdered(s, Resolve(s, legacyRoot, h).value.root, h, raws);
  }

  lemma {:induction false} FirstAnchorAgrees(h: History, root: Identity)
    requires AnchoredAt(h, root)
    ensures FirstAnchor(h).Some? ==> FirstAnchor(h).value == root
    decreases |h|
  {
    if h != [] {
      forall i | 0 <= i < |h[1..]|
        ensures RecordShapeOk(h[1..][i]) && (AnchorOf(h[1..][i]).Some? ==> AnchorOf(h[1..][i]).value == root) {
        assert h[1..][i] == h[i + 1];
      }
      FirstAnchorAgrees(h[1..], root);
    }
  }

  lemma PartsResolve(s: Surface, root: Identity, h: History, raws: seq<Raw>, es: seq<Element>, p: Progress)
    requires Parts(s, root, h, raws, es, p)
    ensures Resolve(s, root, h) == Accepted(Lineage(root, FirstAnchor(h).Some?, es, p.carried, p.inits))
  {
    hide Collect, AnchoredAt, Elements, LegacyBindingsOk, Walk, UseConsistent, PendingConsistent, FirstAnchor;
    FirstAnchorAgrees(h, root);
  }

  lemma {:induction false} FirstAnchorAppend(h: History, c: Comment)
    ensures FirstAnchor(h + [c]) == if FirstAnchor(h).Some? then FirstAnchor(h) else AnchorOf(c)
    decreases |h|
  {
    if h == [] {
      assert h + [c] == [c] && [c][1..] == [];
    } else {
      assert (h + [c])[1..] == h[1..] + [c];
      FirstAnchorAppend(h[1..], c);
    }
  }

  // --- The governing test ---------------------------------------------------------------

  /** The elements that pass the governing test for a record form a prefix of the lineage. */
  lemma GoverningIsPrefix(es: seq<Element>, index: nat, round: int, i: nat)
    requires Ordered(es) && i < |es|
    ensures Governs(es[i], index, round) <==> i < GoverningCount(es, index, round)
  {
    hide GoverningCount, Superseded;
    var n := GoverningCount(es, index, round);
    if i + 1 < n { assert es[i].index < es[n - 1].index && es[i].Effective() <= es[n - 1].Effective(); }
  }

  /** A later record, in position and in round, is never governed by an earlier element. */
  lemma GovernanceMonotone(es: seq<Element>, index: nat, round: int, index': nat, round': int)
    requires Ordered(es) && index <= index' && round <= round'
    ensures GoverningCount(es, index, round) <= GoverningCount(es, index', round')
  {
    var n := GoverningCount(es, index, round);
    if n > 0 { GoverningIsPrefix(es, index', round', n - 1); }
  }

  lemma {:induction false} GoverningIgnoresLater(es: seq<Element>, n: nat, index: nat, round: int)
    requires n <= |es| && forall i :: n <= i < |es| ==> index <= es[i].index
    ensures GoverningCount(es, index, round) == GoverningCount(es[..n], index, round)
    decreases |es|
  {
    if n == |es| {
      assert es[..n] == es;
    } else {
      GoverningIgnoresLater(es[..|es| - 1], n, index, round);
      assert es[..|es| - 1][..n] == es[..n];
    }
  }

  // --- The walk -----------------------------------------------------------------------------

  lemma {:induction false} WalkPrefix(root: Identity, es: seq<Element>, h: History, n: nat)
    requires n <= |h| && Walk(root, es, h).Accepted?
    ensures Walk(root, es, h[..n]).Accepted?
    ensures Walk(root, es, h[..n]).value.carried <= Walk(root, es, h).value.carried
    decreases |h|
  {
    if n == |h| {
      assert h[..n] == h;
    } else {
      var front := h[..|h| - 1];
      WalkPrefix(root, es, front, n);
      assert front[..n] == h[..n];
      CommentStepCarries(root, es, |h| - 1, h[|h| - 1], Walk(root, es, front).value);
    }
  }

  lemma CommentStepCarries(root: Identity, es: seq<Element>, index: nat, c: Comment, p: Progress)
    requires CommentStep(root, es, index, c, p).Accepted?
    ensures p.carried <= CommentStep(root, es, index, c, p).value.carried
    ensures !c.RecordComment? ==> CommentStep(root, es, index, c, p).value.carried == p.carried
    ensures c.RecordComment? ==>
      forall d :: d in CommentStep(root, es, index, c, p).value.carried && d !in p.carried ==>
        var n := GoverningCount(es, index, c.record.round);
        n > 0 && d == es[n - 1].Digest()
    ensures c.RecordComment? && (c.record.root.Present? || !c.record.neutral) ==>
        var n := GoverningCount(es, index, c.record.round);
        n > 0 && es[n - 1].IsLink() ==> es[n - 1].Digest() in CommentStep(root, es, index, c, p).value.carried
  {
    hide ParseInits, MergeAllowed, ApplyInits, SeatBinding, WellFormed, Before, LinkStep, ElementAt, GoverningCount;
    if c.RecordComment? {
      var n := GoverningCount(es, index, c.record.round);
      if n > 0 { assert es[..n][|es[..n]| - 1] == es[n - 1]; }
    } else if c.LinkComment? && ElementAt(es, index) {
      LinkStepCarries(root, Before(es, index), c.link, p);
    }
  }

  lemma LinkStepCarries(root: Identity, before: seq<Element>, link: Link, p: Progress)
    requires LinkStep(root, before, link, p).Accepted?
    ensures LinkStep(root, before, link, p).value.carried == p.carried
  {
    hide ParseInits, MergeAllowed, ApplyInits, SeatBinding, BindingCompatible;
  }

  lemma {:induction false} WalkStep(root: Identity, es: seq<Element>, h: History, i: nat)
    requires i < |h| && Walk(root, es, h).Accepted?
    ensures Walk(root, es, h[..i]).Accepted? && Walk(root, es, h[..i + 1]).Accepted?
    ensures CommentStep(root, es, i, h[i], Walk(root, es, h[..i]).value) == Walk(root, es, h[..i + 1])
  {
    hide CommentStep;
    WalkPrefix(root, es, h, i + 1);
    assert h[..i + 1][..i] == h[..i];
    WalkPrefix(root, es, h, i);
  }

  /** An element is only ever carried by a record in a round it covers. */
  lemma {:induction false} CarriedByRecord(root: Identity, es: seq<Element>, h: History, k: nat)
    requires Ordered(es) && k < |es| && Walk(root, es, h).Accepted?
    requires es[k].Digest() in Walk(root, es, h).value.carried
    ensures exists i :: 0 <= i < |h| && h[i].RecordComment? && Governs(es[k], i, h[i].record.round)
    decreases |h|
  {
    hide CommentStep, Before;
    var front, last := h[..|h| - 1], h[|h| - 1];
    var p := Walk(root, es, front).value;
    CommentStepCarries(root, es, |h| - 1, last, p);
    if es[k].Digest() in p.carried {
      CarriedByRecord(root, es, front, k);
      var i :| 0 <= i < |front| && front[i].RecordComment? && Governs(es[k], i, front[i].record.round);
      assert h[i] == front[i];
    } else {
      var n := GoverningCount(es, |h| - 1, last.record.round);
      assert k == n - 1;
      assert h[|h| - 1].RecordComment? && Governs(es[k], |h| - 1, h[|h| - 1].record.round);
    }
  }

  /** In an accepted history no record, save a neutral summary, is governed by a superseded link. */
  lemma {:induction false} NoRecordUnderSuperseded(s: Surface, legacyRoot: Identity, h: History, i: nat)
    requires Resolve(s, legacyRoot, h).Accepted?
    requires i < |h| && h[i].RecordComment? && (h[i].record.root.Present? || !h[i].record.neutral)
    ensures var es := Resolve(s, legacyRoot, h).value.elements;
            var n := GoverningCount(es, i, h[i].record.round);
            n == 0 || !Superseded(es, n - 1)
  {
    hide Resolve, CommentStep, Collect, Elements, Walk, PendingConsistent, GoverningCount;
    var raws := ResolveHasParts(s, legacyRoot, h);
    var l := Resolve(s, legacyRoot, h).value;
    var n := GoverningCount(l.elements, i, h[i].record.round);
    if n > 0 && Superseded(l.elements, n - 1) {
      WalkStep(l.root, l.elements, h, i);
      WalkPrefix(l.root, l.elements, h, i + 1);
      CommentStepCarries(l.root, l.elements, i, h[i], Walk(l.root, l.elements, h[..i]).value);
    }
  }

  // --- Appending a comment ------------------------------------------------------------------------

  lemma {:induction false} BeforeIgnoresLater(es: seq<Element>, n: nat, index: nat)
    requires n <= |es| && forall i :: n <= i < |es| ==> index <= es[i].index
    ensures Before(es, index) == Before(es[..n], index)
    decreases |es|
  {
    if n == |es| {
      assert es[..n] == es;
    } else {
      BeforeIgnoresLater(es[..|es| - 1], n, index);
      assert es[..|es| - 1][..n] == es[..n];
    }
  }

  /** Elements posted at or after the end of `h` do not matter to walking `h`. */
  lemma {:induction false} WalkIgnoresLater(root: Identity, es: seq<Element>, n: nat, h: History)
    requires n <= |es| && forall i :: n <= i < |es| ==> |h| <= es[i].index
    ensures Walk(root, es, h) == Walk(root, es[..n], h)
    decreases |h|
  {
    if h != [] {
      var front, c, index := h[..|h| - 1], h[|h| - 1], |h| - 1;
      WalkIgnoresLater(root, es, n, front);
      CommentStepIgnoresLater(root, es, n, index, c, Progress(map[], {}));
      forall p ensures CommentStep(root, es, index, c, p) == CommentStep(root, es[..n], index, c, p) {
        CommentStepIgnoresLater(root, es, n, index, c, p);
      }
    }
  }

  lemma CommentStepIgnoresLater(root: Identity, es: seq<Element>, n: nat, index: nat, c: Comment, p: Progress)
    requires n <= |es| && forall i :: n <= i < |es| ==> index < es[i].index
    ensures CommentStep(root, es, index, c, p) == CommentStep(root, es[..n], index, c, p)
  {
    hide StampedRecord, LegacyRecord, LinkStep, Before, GoverningCount;
    if c.RecordComment? {
      GoverningIgnoresLater(es, n, index, c.record.round);
      var k := GoverningCount(es[..n], index, c.record.round);
      assert es[..k] == es[..n][..k];
    } else if c.LinkComment? {
      BeforeIgnoresLater(es, n, index);
      assert ElementAt(es, index) <==> ElementAt(es[..n], index) by {
        if ElementAt(es, index) {
          var i :| 0 <= i < |es| && es[i].index == index;
          assert es[..n][i].index == index;
        }
        if ElementAt(es[..n], index) {
          var i :| 0 <= i < |es[..n]| && es[..n][i].index == index;
          assert es[i].index == index;
        }
      }
    }
  }

  lemma SameRoot(s: Surface, legacyRoot: Identity, h: History, c: Comment)
    requires Resolve(s, legacyRoot, h).Accepted? && Resolve(s, legacyRoot, h + [c]).Accepted?
    requires AnchorOf(c).Some? ==> AnchorOf(c).value == Resolve(s, legacyRoot, h).value.root
    ensures Resolve(s, legacyRoot, h + [c]).value.root == Resolve(s, legacyRoot, h).value.root
  {
    hide Collect, Elements, Walk, PendingConsistent, UseConsistent, AnchoredAt, LegacyBindingsOk, FirstAnchor;
    FirstAnchorAppend(h, c);
  }

  /** Appending a comment keeps the element list as a prefix, so no earlier record changes hands. */
  lemma AppendNeverRegoverns(s: Surface, legacyRoot: Identity, h: History, c: Comment, i: nat)
    requires Resolve(s, legacyRoot, h).Accepted? && Resolve(s, legacyRoot, h + [c]).Accepted?
    requires AnchorOf(c).Some? ==> AnchorOf(c).value == Resolve(s, legacyRoot, h).value.root
    requires i < |h| && h[i].RecordComment?
    ensures var was, now := Resolve(s, legacyRoot, h).value.elements, Resolve(s, legacyRoot, h + [c]).value.elements;
            && was <= now
            && GoverningCount(now, i, h[i].record.round) == GoverningCount(was, i, h[i].record.round)
  {
    hide Resolve, Elements, Walk, PendingConsistent, GoverningCount, UseConsistent, AnchoredAt, LegacyBindingsOk,
      SourceOk;
    var raws := ResolveHasParts(s, legacyRoot, h);
    var raws' := ResolveHasParts(s, legacyRoot, h + [c]);
    var l, l' := Resolve(s, legacyRoot, h).value, Resolve(s, legacyRoot, h + [c]).value;
    SameRoot(s, legacyRoot, h, c);
    assert (h + [c])[..|h|] == h;
    assert raws == raws'[..|raws|];
    ElementsPrefix(s, l.root, raws', |raws|);
    forall k | |raws| <= k < |raws'| ensures i <= l'.elements[k].index {
      ElementsMatchRaws(s, l.root, raws', k);
    }
    GoverningIgnoresLater(l'.elements, |raws|, i, h[i].record.round);
  }
}
