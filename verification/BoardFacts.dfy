/** What holds of every accepted lineage: its order, its boards, and who governs what. */
module BoardFacts {
  import opened Common
  import opened BoardAmendment
  import opened BoardIdentity
  import opened BoardLineage

  // --- Collection ---------------------------------------------------------------------

  ghost predicate RawsOk(s: Surface, h: History, raws: seq<Raw>) {
    && (forall i :: 0 <= i < |raws| ==> raws[i].index < |h| && SourceOf(h[raws[i].index]) == Some(raws[i].source)
                                        && SourceOk(s, raws[i].source))
    && (forall i, j :: 0 <= i < j < |raws| ==> raws[i].index < raws[j].index && raws[i].source != raws[j].source)
  }

  lemma {:induction false} CollectOk(s: Surface, h: History)
    requires Collect(s, h).Accepted?
    ensures RawsOk(s, h, Collect(s, h).value)
    decreases |h|
  {
    hide SourceOk;
    if h != [] {
      var front := h[..|h| - 1];
      CollectOk(s, front);
      var raws := Collect(s, front).value;
      forall i | 0 <= i < |raws| ensures SourceOf(h[raws[i].index]) == Some(raws[i].source) {
        assert h[raws[i].index] == front[raws[i].index];
      }
    }
  }

  // --- Elements ---------------------------------------------------------------------------

  lemma {:induction false} ElementsPrefix(s: Surface, root: Identity, raws: seq<Raw>, n: nat)
    requires n <= |raws| && Elements(s, root, raws).Accepted?
    ensures Elements(s, root, raws[..n]) == Accepted(Elements(s, root, raws).value[..n])
    decreases |raws|
  {
    hide NextElement;
    var es := Elements(s, root, raws).value;
    if n == |raws| {
      assert raws[..n] == raws && es[..n] == es;
    } else {
      var front := raws[..|raws| - 1];
      ElementsPrefix(s, root, front, n);
      assert front[..n] == raws[..n];
      assert es[..|front|] == Elements(s, root, front).value;
      assert es[..n] == es[..|front|][..n];
    }
  }

  lemma {:induction false} ElementsStep(s: Surface, root: Identity, raws: seq<Raw>, i: nat)
    requires i < |raws| && Elements(s, root, raws).Accepted?
    ensures var es := Elements(s, root, raws).value;
            NextElement(s, root, es[..i], raws[i]) == Accepted(es[i])
  {
    hide NextElement;
    ElementsPrefix(s, root, raws, i + 1);
    ElementsPrefix(s, root, raws, i);
    var es, upTo := Elements(s, root, raws).value, raws[..i + 1];
    assert upTo[..|upTo| - 1] == raws[..i] && upTo[|upTo| - 1] == raws[i];
    assert es[..i + 1][|es[..i + 1]| - 1] == es[i];
  }

  /** Elements in comment order; rounds rise, except from a link to the link superseding it. */
  ghost predicate Ordered(es: seq<Element>) {
    forall i, j :: 0 <= i < j < |es| ==>
      && es[i].index < es[j].index && es[i].Digest() != es[j].Digest()
      && es[i].Effective() <= es[j].Effective()
      && (es[i].Effective() == es[j].Effective() ==> Superseded(es, i) && es[j].IsLink())
  }

  lemma EffectiveStep(s: Surface, root: Identity, raws: seq<Raw>, i: nat)
    requires i + 1 < |raws| && Elements(s, root, raws).Accepted?
    ensures var es := Elements(s, root, raws).value;
            es[i].Effective() < es[i + 1].Effective() || Superseded(es, i)
  {
    ElementsStep(s, root, raws, i + 1);
  }

  lemma {:induction false} EffectiveRises(s: Surface, root: Identity, raws: seq<Raw>, i: nat, j: nat)
    requires i < j < |raws| && Elements(s, root, raws).Accepted?
    ensures var es := Elements(s, root, raws).value;
            && es[i].Effective() <= es[j].Effective()
            && (es[i].Effective() == es[j].Effective() ==> Superseded(es, i) && es[j].IsLink())
    decreases j
  {
    hide NextElement, LinkElement, AmendmentElement, Elements;
    EffectiveStep(s, root, raws, j - 1);
    if i < j - 1 { EffectiveRises(s, root, raws, i, j - 1); }
  }

  lemma {:induction false} ElementsMatchRaws(s: Surface, root: Identity, raws: seq<Raw>, i: nat)
    requires i < |raws| && Elements(s, root, raws).Accepted?
    ensures Elements(s, root, raws).value[i].index == raws[i].index
    ensures Elements(s, root, raws).value[i].source == raws[i].source
  {
    ElementsStep(s, root, raws, i);
  }

  lemma ElementsOrdered(s: Surface, root: Identity, h: History, raws: seq<Raw>)
    requires RawsOk(s, h, raws) && Elements(s, root, raws).Accepted?
    ensures Ordered(Elements(s, root, raws).value)
  {
    hide NextElement, LinkElement, AmendmentElement, Elements;
    var es := Elements(s, root, raws).value;
    forall i, j | 0 <= i < j < |es|
      ensures es[i].index < es[j].index && es[i].Digest() != es[j].Digest()
      ensures es[i].Effective() <= es[j].Effective()
      ensures es[i].Effective() == es[j].Effective() ==> Superseded(es, i) && es[j].IsLink()
    {
      ElementsMatchRaws(s, root, raws, i);
      ElementsMatchRaws(s, root, raws, j);
      EffectiveRises(s, root, raws, i, j);
    }
  }

  // --- Boards ---------------------------------------------------------------------------------

  /** The board in force is well formed, drawn from its segment's base, under the root's policy and rules. */
  ghost predicate BoardSound(root: Identity, es: seq<Element>) {
    var identity, base := IdentityAfter(root, es), BaseAfter(root, es);
    && WellFormed(identity) && WellFormed(base)
    && ContractAfter(root, es) == ContractOf(identity)
    && (forall seat :: seat in identity.seats ==> seat in base.seats)
    && identity.policy == root.policy && identity.rules == root.rules
    && (es != [] && es[|es| - 1].IsLink() ==> identity == base == es[|es| - 1].source.link.newBoard)
  }

  lemma {:induction false} LastSeenOnBase(s: Surface, root: Identity, raws: seq<Raw>, name: string)
    requires Elements(s, root, raws).Accepted?
    requires name in BoardNames(BaseAfter(root, Elements(s, root, raws).value))
    ensures var es := Elements(s, root, raws).value;
            LastSeen(root, es, name) == FindSeat(BaseAfter(root, es).seats, name)
    decreases |raws|
  {
    hide AmendContract, AmendedSeats, Segment, RemovedBy, SeatBinding, Valid;
    if raws != [] {
      var es, front := Elements(s, root, raws).value, raws[..|raws| - 1];
      ElementsStep(s, root, raws, |front|);
      if !es[|front|].IsLink() {
        LastSeenOnBase(s, root, front, name);
        assert es[..|front|] == Elements(s, root, front).value;
      }
    }
  }

  /** Every seat of an amended board comes from the segment base, in board order. */
  lemma {:induction false} AmendedSeatsOnBase(s: Surface, root: Identity, raws: seq<Raw>, names: seq<string>)
    requires Elements(s, root, raws).Accepted?
    requires forall seat :: seat in IdentityAfter(root, Elements(s, root, raws).value).seats ==>
               seat in BaseAfter(root, Elements(s, root, raws).value).seats
    requires forall name :: name in names ==> name in BoardNames(BaseAfter(root, Elements(s, root, raws).value))
    ensures var es := Elements(s, root, raws).value;
            var seats := AmendedSeats(root, es, names);
            && seats.Some? && Names(seats.value) == names
            && forall seat :: seat in seats.value ==> seat in BaseAfter(root, es).seats
    decreases |names|
  {
    hide Elements, BoardSound, LastSeen;
    if names != [] {
      var es := Elements(s, root, raws).value;
      var front, name := names[..|names| - 1], names[|names| - 1];
      assert name in names;
      AmendedSeatsOnBase(s, root, raws, front);
      LastSeenOnBase(s, root, raws, name);
      var seats := AmendedSeats(root, es, names).value;
      assert Names(seats) == Names(AmendedSeats(root, es, front).value) + [seats[|front|].id];
    }
  }

  lemma AmendContractFacts(
    contractOk: Contract -> bool, current: Contract, a: Amendment, baseBoard: seq<string>,
    previouslyRemoved: set<string>)
    requires AmendContract(contractOk, current, a, baseBoard, previouslyRemoved).Accepted?
    requires NoDup(baseBoard) && (forall name :: name in current.names ==> name in baseBoard)
    requires current.primary.Some? ==> current.primary.value in current.names
    ensures var amended := AmendContract(contractOk, current, a, baseBoard, previouslyRemoved).value;
            && NoDup(amended.names) && amended.names != []
            && (forall name :: name in amended.names ==> name in baseBoard)
            && amended == current.(names := amended.names)
            && (amended.primary.Some? ==> amended.primary.value in amended.names)
            && (forall name :: name in amended.names && name !in current.names ==> name in a.restored)
  {
    KeepNoDup(baseBoard, Elems(a.original) - Elems(a.removed) + Elems(a.restored));
  }

  lemma NamesOfSeats(seats: seq<Seat>, base: seq<Seat>)
    requires forall seat :: seat in seats ==> seat in base
    ensures forall name :: name in Names(seats) ==> name in Names(base)
  {
    forall name | name in Names(seats) ensures name in Names(base) {
      var i :| 0 <= i < |seats| && Names(seats)[i] == name;
      assert seats[i] in seats;
      var j :| 0 <= j < |base| && base[j] == seats[i];
      assert Names(base)[j] == name;
    }
  }

  /** A permitted amendment always yields a board: its bindings are never unknown. */
  lemma AmendmentElementSound(s: Surface, root: Identity, raws: seq<Raw>, index: nat, a: Amendment)
    requires Elements(s, root, raws).Accepted? && BoardSound(root, Elements(s, root, raws).value)
    ensures var es := Elements(s, root, raws).value;
            var base := BaseAfter(root, es);
            var contract := AmendContract(s.contractOk, ContractAfter(root, es), a, BoardNames(base),
              RemovedBy(Segment(es)));
            var element := AmendmentElement(s, root, es, index, a);
            && (element.Accepted? <==> (es != [] ==> es[|es| - 1].Effective() < a.effective)
                                       && contract.Accepted? && s.outageOk(a, SeatBinding(base)))
            && (element.Accepted? ==> element.value.contract == contract.value
                                      && BoardSound(root, es + [element.value]))
  {
    hide AmendContract, AmendedSeats, LastSeen, Segment, RemovedBy, SeatBinding, Elements;
    var es := Elements(s, root, raws).value;
    var identity, base := IdentityAfter(root, es), BaseAfter(root, es);
    var contract := AmendContract(s.contractOk, ContractAfter(root, es), a, BoardNames(base), RemovedBy(Segment(es)));
    if contract.Accepted? {
      NamesOfSeats(identity.seats, base.seats);
      AmendContractFacts(s.contractOk, ContractAfter(root, es), a, BoardNames(base), RemovedBy(Segment(es)));
      AmendedSeatsOnBase(s, root, raws, contract.value.names);
      var seats := AmendedSeats(root, es, contract.value.names).value;
      var amended := Identity(contract.value.policy, contract.value.primary, contract.value.rules, seats);
      assert Valid(amended);
    }
  }

  lemma {:induction false} BoardsSound(s: Surface, root: Identity, h: History, raws: seq<Raw>)
    requires WellFormed(root) && Elements(s, root, raws).Accepted? && RawsOk(s, h, raws)
    ensures BoardSound(root, Elements(s, root, raws).value)
    decreases |raws|
  {
    hide AmendmentElement, Segment, LastSeen, AmendedSeats;
    if raws != [] {
      var front, raw := raws[..|raws| - 1], raws[|raws| - 1];
      assert RawsOk(s, h, front);
      BoardsSound(s, root, h, front);
      var es := Elements(s, root, front).value;
      if raw.source.FromAmendment? {
        AmendmentElementSound(s, root, front, raw.index, raw.source.amendment);
      } else {
        assert SourceOk(s, raws[|front|].source);
      }
    }
  }
}
