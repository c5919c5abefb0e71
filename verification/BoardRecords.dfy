/** What an accepted history says about each of its records, read off the record and the elements alone. */
module BoardRecords {
  import opened Common
  import opened BoardAmendment
  import opened BoardIdentity
  import opened BoardLineage
  import opened BoardFacts
  import opened BoardGovernance

  // --- Which elements have taken effect -----------------------------------------------------

  /** Element `k` is the last one that governs a record at this position and round. */
  ghost predicate GovernedBy(es: seq<Element>, k: nat, index: nat, round: int) {
    && k < |es| && Governs(es[k], index, round)
    && forall j :: k < j < |es| ==> !Governs(es[j], index, round)
  }

  /** A record that puts its governing element to use: a stamped one, or a substantive one with a contract. */
  predicate Carries(c: Comment): (r: bool)
    ensures r ==> c.RecordComment?
  {
    c.RecordComment? && (c.record.root.Present? || (!c.record.neutral && c.record.contract.Some?))
  }

  /** Some record put element `k` to use. */
  ghost predicate TookEffect(es: seq<Element>, h: History, k: nat) {
    exists i :: 0 <= i < |h| && Carries(h[i]) && GovernedBy(es, k, i, h[i].record.round)
  }

  /** No record that would put element `k`, or a later one, to use has been posted. */
  ghost predicate Waiting(es: seq<Element>, h: History, k: nat)
    requires k < |es|
  {
    forall i :: 0 <= i < |h| && Carries(h[i]) ==> !Governs(es[k], i, h[i].record.round)
  }

  lemma StepCarriesExact(root: Identity, es: seq<Element>, index: nat, c: Comment, p: Progress)
    requires CommentStep(root, es, index, c, p).Accepted?
    ensures var n := if c.RecordComment? then GoverningCount(es, index, c.record.round) else 0;
            CommentStep(root, es, index, c, p).value.carried
            == p.carried + if Carries(c) && n > 0 then {es[n - 1].Digest()} else {}
  {
    hide ParseInits, MergeAllowed, ApplyInits, SeatBinding, WellFormed, Before, LinkStep, ElementAt, GoverningCount;
    if c.RecordComment? {
      var n := GoverningCount(es, index, c.record.round);
      if n > 0 { assert es[..n][|es[..n]| - 1] == es[n - 1]; }
    } else if c.LinkComment? && ElementAt(es, index) {
      LinkStepCarries(root, Before(es, index), c.link, p);
    }
  }

  lemma {:induction false} WalkCarriesExact(root: Identity, es: seq<Element>, h: History, k: nat)
    requires Ordered(es) && k < |es| && Walk(root, es, h).Accepted?
    ensures es[k].Digest() in Walk(root, es, h).value.carried <==> TookEffect(es, h, k)
    decreases |h|
  {
    hide CommentStep, Carries, TookEffect, GovernedBy, Ordered;
    if h == [] {
      NothingTookEffect(es, h, k);
    } else {
      var front, n := h[..|h| - 1], |h| - 1;
      WalkCarriesExact(root, es, front, k);
      StepCarriesExact(root, es, n, h[n], Walk(root, es, front).value);
      EffectMore(es, h, k);
      if Carries(h[n]) {
        GovernedMeans(es, k, n, h[n].record.round);
        OwnDigest(es, k, GoverningCount(es, n, h[n].record.round));
      }
    }
  }

  lemma OwnDigest(es: seq<Element>, k: nat, n: nat)
    requires Ordered(es) && k < |es| && n <= |es|
    ensures n > 0 && es[n - 1].Digest() == es[k].Digest() <==> k + 1 == n
  {
    hide Superseded;
  }

  lemma NothingTookEffect(es: seq<Element>, h: History, k: nat)
    requires h == []
    ensures !TookEffect(es, h, k)
  {
  }

  lemma GovernedMeans(es: seq<Element>, k: nat, index: nat, round: int)
    ensures GovernedBy(es, k, index, round) <==> k + 1 == GoverningCount(es, index, round)
  {
    hide Governs;
  }

  lemma EffectMore(es: seq<Element>, h: History, k: nat)
    requires h != []
    ensures var n := |h| - 1;
            TookEffect(es, h, k)
            <==> TookEffect(es, h[..n], k) || (Carries(h[n]) && GovernedBy(es, k, n, h[n].record.round))
  {
    hide Carries, GovernedBy;
    var front, n := h[..|h| - 1], |h| - 1;
    if TookEffect(es, front, k) {
      var i :| 0 <= i < n && Carries(front[i]) && GovernedBy(es, k, i, front[i].record.round);
      assert Carries(h[i]) && GovernedBy(es, k, i, h[i].record.round);
    }
    if TookEffect(es, h, k) {
      var i :| 0 <= i < |h| && Carries(h[i]) && GovernedBy(es, k, i, h[i].record.round);
      if i < n { assert Carries(front[i]) && GovernedBy(es, k, i, front[i].record.round); }
    }
  }

  /** An element is carried exactly when some record that puts its governing element to use is governed by it. */
  lemma CarriedExact(s: Surface, legacyRoot: Identity, h: History, k: nat)
    requires Resolve(s, legacyRoot, h).Accepted? && k < |Resolve(s, legacyRoot, h).value.elements|
    ensures var l := Resolve(s, legacyRoot, h).value;
            l.elements[k].Digest() in l.carried <==> TookEffect(l.elements, h, k)
  {
    hide Resolve, Collect, Elements, Walk, PendingConsistent, UseConsistent, TookEffect, Ordered;
    var raws := ResolveHasParts(s, legacyRoot, h);
    var l := Resolve(s, legacyRoot, h).value;
    WalkCarriesExact(l.root, l.elements, h, k);
  }

  /** `carried` are the elements that took effect. */
  ghost predicate AreCarried(es: seq<Element>, h: History, carried: set<Digest>) {
    forall k :: 0 <= k < |es| ==> (es[k].Digest() in carried <==> TookEffect(es, h, k))
  }

  /** The trailing elements are those that no record posted so far would put to use. */
  lemma TrailingMeans(es: seq<Element>, h: History, carried: set<Digest>, k: nat)
    requires Ordered(es) && AreCarried(es, h, carried) && k < |es|
    ensures TrailingStart(es, carried) <= k <==> Waiting(es, h, k)
  {
    hide Ordered, Governs, Carries;
    var start := TrailingStart(es, carried);
    if start <= k {
      forall i | 0 <= i < |h| && Carries(h[i]) ensures !Governs(es[k], i, h[i].record.round) {
        var n := GoverningCount(es, i, h[i].record.round);
        if n > 0 {
          assert GovernedBy(es, n - 1, i, h[i].record.round);
          assert TookEffect(es, h, n - 1);
        }
      }
    } else {
      assert TookEffect(es, h, start - 1);
      var i :| 0 <= i < |h| && Carries(h[i]) && GovernedBy(es, start - 1, i, h[i].record.round);
      GoverningIsPrefix(es, i, h[i].record.round, k);
      GoverningIsPrefix(es, i, h[i].record.round, start - 1);
    }
  }

  lemma TrailingExact(s: Surface, legacyRoot: Identity, h: History, k: nat)
    requires Resolve(s, legacyRoot, h).Accepted? && k < |Resolve(s, legacyRoot, h).value.elements|
    ensures var l := Resolve(s, legacyRoot, h).value;
            TrailingStart(l.elements, l.carried) <= k <==> Waiting(l.elements, h, k)
  {
    hide Resolve, Collect, Elements, Walk, PendingConsistent, UseConsistent, Ordered, Governs, Carries, TookEffect,
      Waiting;
    var raws := ResolveHasParts(s, legacyRoot, h);
    var l := Resolve(s, legacyRoot, h).value;
    forall j | 0 <= j < |l.elements|
      ensures l.elements[j].Digest() in l.carried <==> TookEffect(l.elements, h, j)
    {
      CarriedExact(s, legacyRoot, h, j);
    }
    TrailingMeans(l.elements, h, l.carried, k);
  }

  /** An amendment or a link is pending exactly when no record that reads the board was posted after it in its
      rounds. */
  lemma PendingExact(s: Surface, legacyRoot: Identity, h: History)
    requires Resolve(s, legacyRoot, h).Accepted?
    ensures var l := Resolve(s, legacyRoot, h).value;
            && (l.HasPendingAmendment()
                <==> exists k :: 0 <= k < |l.elements| && !l.elements[k].IsLink() && Waiting(l.elements, h, k))
            && (l.HasPendingLink()
                <==> exists k :: 0 <= k < |l.elements| && l.elements[k].IsLink() && Waiting(l.elements, h, k))
  {
    hide Resolve, Waiting;
    var l := Resolve(s, legacyRoot, h).value;
    forall k | 0 <= k < |l.elements|
      ensures TrailingStart(l.elements, l.carried) <= k <==> Waiting(l.elements, h, k)
    {
      TrailingExact(s, legacyRoot, h, k);
    }
  }
}
