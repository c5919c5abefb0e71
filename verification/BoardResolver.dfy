/** The resolver in its own two-pass form, proved to compute `BoardLineage.Resolve`. */
module BoardResolver {
  import opened Common
  import opened BoardAmendment
  import opened BoardIdentity
  import opened BoardLineage
  import opened BoardFacts

  // --- Segments of signed amendments -------------------------------------------------------------

  function PostedOf(raw: Raw): Posted
    requires raw.source.FromAmendment?
  {
    Posted(raw.index, raw.source.amendment)
  }

  ghost predicate AllAmendments(raws: seq<Raw>, from: nat, end: nat) {
    from <= end <= |raws| && forall i :: from <= i < end ==> raws[i].source.FromAmendment?
  }

  function PostedBetween(raws: seq<Raw>, from: nat, end: nat): (r: seq<Posted>)
    requires AllAmendments(raws, from, end)
    ensures |r| == end - from
  {
    seq(end - from, i requires 0 <= i < end - from => PostedOf(raws[from + i]))
  }

  ghost predicate Rising(raws: seq<Raw>) {
    forall i, j :: 0 <= i < j < |raws| ==> raws[i].index < raws[j].index
  }

  /** `es` extends `es0` by the amendments `from..to`, all of one segment. */
  ghost predicate InSegment(
    s: Surface, root: Identity, raws: seq<Raw>, from: nat, end: nat, es0: seq<Element>, es: seq<Element>)
  {
    && AllAmendments(raws, from, end)
    && Elements(s, root, raws[..from]) == Accepted(es0) && Elements(s, root, raws[..end]) == Accepted(es)
    && Segment(es) == PostedBetween(raws, from, end) && BaseAfter(root, es) == BaseAfter(root, es0)
    && |es| == end && es[..from] == es0
    && (from < end ==> !es[end - 1].IsLink() && es[end - 1].Effective() == raws[end - 1].source.amendment.effective)
  }

  lemma PostedStep(raws: seq<Raw>, from: nat, end: nat)
    requires from < end && AllAmendments(raws, from, end)
    ensures AllAmendments(raws, from, end - 1)
    ensures PostedBetween(raws, from, end) == PostedBetween(raws, from, end - 1) + [PostedOf(raws[end - 1])]
  {
  }

  /** The prefix of a segment, as elements and as a chain. */
  ghost predicate SegmentSoFar(
    s: Surface, root: Identity, raws: seq<Raw>, from: nat, end: nat, es0: seq<Element>, es: seq<Element>,
      contracts: seq<Contract>)
  {
    && InSegment(s, root, raws, from, end, es0, es) && BoardSound(root, es)
    && ApplyAll(s.contractOk, ContractAfter(root, es0), PostedBetween(raws, from, end)) == Accepted(contracts)
    && contracts[end - from] == ContractAfter(root, es)
    && (forall k :: from <= k < end ==> contracts[k - from + 1] == es[k].contract)
  }

  /** The checks the resolver makes of one amendment besides chaining it. */
  predicate AmendmentChecks(s: Surface, root: Identity, es0: seq<Element>, first: bool, a: Amendment) {
    s.outageOk(a, SeatBinding(BaseAfter(root, es0)))
      && (first && es0 != [] ==> es0[|es0| - 1].Effective() < a.effective)
  }

  lemma SegmentFollows(raws: seq<Raw>, from: nat, end: nat, es0: seq<Element>, es: seq<Element>)
    requires from <= end < |raws| && AllAmendments(raws, from, end + 1) && Rising(raws) && |es| == end
            && es[..from] == es0
    requires from < end ==> es[end - 1].Effective() == raws[end - 1].source.amendment.effective
    ensures var a := raws[end].source.amendment;
            (es != [] ==> es[|es| - 1].Effective() < a.effective)
            <==> Follows(PostedBetween(raws, from, end), PostedOf(raws[end]))
                 && (from == end && es0 != [] ==> es0[|es0| - 1].Effective() < a.effective)
  {
    var posted := PostedBetween(raws, from, end);
    if from < end { assert posted[|posted| - 1] == PostedOf(raws[end - 1]); }
  }

  /** One amendment accepted in sequence is one more step of the segment's chain, and conversely. */
  lemma SegmentStep(
    s: Surface, root: Identity, raws: seq<Raw>, from: nat, end: nat, es0: seq<Element>, es: seq<Element>,
    contracts: seq<Contract>)
    requires end < |raws| && AllAmendments(raws, from, end + 1) && Rising(raws)
    requires SegmentSoFar(s, root, raws, from, end, es0, es, contracts)
    requires ContractAfter(root, es0).names == BoardNames(BaseAfter(root, es0))
    ensures var chain := ApplyAll(s.contractOk, ContractAfter(root, es0), PostedBetween(raws, from, end + 1));
            var next := NextElement(s, root, es, raws[end]);
            && (next.Accepted? <==>
                  chain.Accepted? && AmendmentChecks(s, root, es0, from == end, raws[end].source.amendment))
            && (next.Accepted? ==>
                 chain == Accepted(contracts + [next.value.contract]) && BoardSound(root, es + [next.value]))
  {
    hide Elements, AmendContract, RemovedBy, BoardSound, SeatBinding, AmendmentElement, Follows, Segment,
      PostedBetween, Rising;
    var a := raws[end].source.amendment;
    AmendmentElementSound(s, root, raws[..end], raws[end].index, a);
    SegmentFollows(raws, from, end, es0, es);
    PostedStep(raws, from, end + 1);
    ChainStep(s.contractOk, ContractAfter(root, es0), PostedBetween(raws, from, end), PostedOf(raws[end]), contracts);
  }

  lemma SegmentGrows(
    s: Surface, root: Identity, raws: seq<Raw>, from: nat, end: nat, es0: seq<Element>, es: seq<Element>, next: Element)
    requires end < |raws| && AllAmendments(raws, from, end + 1)
    requires InSegment(s, root, raws, from, end, es0, es) && NextElement(s, root, es, raws[end]) == Accepted(next)
    ensures InSegment(s, root, raws, from, end + 1, es0, es + [next])
  {
    hide NextElement, Elements, PostedBetween;
    PostedStep(raws, from, end + 1);
    ElementsNext(s, root, raws, end, es, next);
    NextFields(s, root, es, raws[end]);
    var es' := es + [next];
    assert es'[..end] == es && es'[..from] == es0;
  }

  lemma SegmentParts(
    s: Surface, root: Identity, raws: seq<Raw>, from: nat, end: nat, es0: seq<Element>, es: seq<Element>,
      contracts: seq<Contract>)
    requires SegmentSoFar(s, root, raws, from, end, es0, es, contracts)
    ensures Elements(s, root, raws[..end]) == Accepted(es) && |es| == end
  {
  }

  lemma EmptySegment(s: Surface, root: Identity, raws: seq<Raw>, from: nat, es0: seq<Element>)
    requires from <= |raws| && Elements(s, root, raws[..from]) == Accepted(es0) && BoardSound(root, es0)
            && Segment(es0) == []
    ensures SegmentSoFar(s, root, raws, from, from, es0, es0, [ContractAfter(root, es0)])
  {
    hide Elements, BoardSound;
    assert PostedBetween(raws, from, from) == [];
    assert es0[..from] == es0;
  }

  lemma ElementsUnfold(s: Surface, root: Identity, raws: seq<Raw>, end: nat)
    requires 0 < end <= |raws|
    ensures var front := Elements(s, root, raws[..end - 1]);
            Elements(s, root, raws[..end]).Accepted?
            <==> front.Accepted? && NextElement(s, root, front.value, raws[end - 1]).Accepted?
  {
    hide NextElement;
    assert raws[..end][..end - 1] == raws[..end - 1];
  }

  lemma ChainUnfold(contractOk: Contract -> bool, base: Contract, front: seq<Posted>, next: Posted)
    ensures ApplyAll(contractOk, base, front + [next]).Accepted? ==> ApplyAll(contractOk, base, front).Accepted?
  {
    hide AmendContract, RemovedBy;
    assert (front + [next])[..|front|] == front;
  }

  /** A whole segment: in-order acceptance is exactly the chain builder's acceptance plus the side checks. */
  lemma {:induction false} SegmentChain(
    s: Surface, root: Identity, raws: seq<Raw>, from: nat, end: nat, es0: seq<Element>)
    returns (contracts: seq<Contract>, es: seq<Element>)
    requires AllAmendments(raws, from, end) && Rising(raws)
    requires Elements(s, root, raws[..from]) == Accepted(es0) && BoardSound(root, es0)
    requires Segment(es0) == [] && ContractAfter(root, es0).names == BoardNames(BaseAfter(root, es0))
    ensures Elements(s, root, raws[..end]).Accepted?
            <==> ApplyAll(s.contractOk, ContractAfter(root, es0), PostedBetween(raws, from, end)).Accepted?
                 && forall k :: from <= k < end ==> AmendmentChecks(s, root, es0, k == from, raws[k].source.amendment)
    ensures Elements(s, root, raws[..end]).Accepted? ==> SegmentSoFar(s, root, raws, from, end, es0, es, contracts)
    decreases end
  {
    hide NextElement, BoardSound, AmendmentChecks, Elements, ApplyAll, InSegment, PostedBetween, Rising;
    if from == end {
      contracts, es := [ContractAfter(root, es0)], es0;
      EmptySegment(s, root, raws, from, es0);
    } else {
      contracts, es := SegmentChain(s, root, raws, from, end - 1, es0);
      PostedStep(raws, from, end);
      ElementsUnfold(s, root, raws, end);
      ChainUnfold(s.contractOk, ContractAfter(root, es0), PostedBetween(raws, from, end - 1), PostedOf(raws[end - 1]));
      if Elements(s, root, raws[..end - 1]).Accepted? {
        SegmentParts(s, root, raws, from, end - 1, es0, es, contracts);
        SegmentStep(s, root, raws, from, end - 1, es0, es, contracts);
        var next := NextElement(s, root, es, raws[end - 1]);
        if next.Accepted? {
          SegmentGrows(s, root, raws, from, end - 1, es0, es, next.value);
          contracts, es := contracts + [next.value.contract], es + [next.value];
        }
      }
    }
  }

  lemma NextFields(s: Surface, root: Identity, es: seq<Element>, raw: Raw)
    requires raw.source.FromAmendment? && NextElement(s, root, es, raw).Accepted?
    ensures NextElement(s, root, es, raw).value.base == BaseAfter(root, es)
  {
    hide AmendContract, AmendedSeats, SeatBinding, RemovedBy, Segment, Valid;
  }

  lemma ElementsNext(s: Surface, root: Identity, raws: seq<Raw>, end: nat, es: seq<Element>, next: Element)
    requires end < |raws| && Elements(s, root, raws[..end]) == Accepted(es)
            && NextElement(s, root, es, raws[end]) == Accepted(next)
    ensures Elements(s, root, raws[..end + 1]) == Accepted(es + [next])
  {
    hide NextElement;
    assert raws[..end + 1][..end] == raws[..end];
  }

  lemma ChainStep(
    contractOk: Contract -> bool, base: Contract, chain: seq<Posted>, next: Posted, contracts: seq<Contract>)
    requires ApplyAll(contractOk, base, chain) == Accepted(contracts)
    ensures var amended := AmendContract(contractOk, contracts[|chain|], next.record, base.names, RemovedBy(chain));
            ApplyAll(contractOk, base, chain + [next])
            == if Follows(chain, next) && amended.Accepted? then Accepted(contracts + [amended.value]) else Refused
  {
    hide AmendContract, RemovedBy;
    assert (chain + [next])[..|chain|] == chain;
  }

  // --- The builder keeps comment order ----------------------------------------------------------------

  /** The builder reads a segment in comment order, whatever order it was handed. */
  lemma ChainIsSegment(contractOk: Contract -> bool, base: Contract, segment: seq<Posted>, chain: seq<Posted>)
    requires Increasing(segment) && multiset(chain) == multiset(segment) && ApplyAll(contractOk, base, chain).Accepted?
    ensures chain == segment
  {
    hide ApplyAll, Increasing;
    ChainIsIncreasing(contractOk, base, chain);
    IncreasingUnique(chain, segment);
  }

  // --- Pass 1: elements -------------------------------------------------------------------------------

  lemma {:induction false} CollectPrefixRefused(s: Surface, h: History, n: nat)
    requires n <= |h| && Collect(s, h[..n]).Refused?
    ensures Collect(s, h).Refused?
    decreases |h|
  {
    if n == |h| {
      assert h[..n] == h;
    } else {
      assert h[..|h| - 1][..n] == h[..n];
      CollectPrefixRefused(s, h[..|h| - 1], n);
    }
  }

  method CollectRaws(s: Surface, h: History) returns (r: Outcome<seq<Raw>>)
    ensures r == Collect(s, h)
  {
    hide SourceOk;
    var raws := [];
    for i := 0 to |h|
      invariant Collect(s, h[..i]) == Accepted(raws)
    {
      assert h[..i + 1][..i] == h[..i];
      var source := SourceOf(h[i]);
      if source.Some? {
        if !SourceOk(s, source.value) {
          CollectPrefixRefused(s, h, i + 1);
          return Refused;
        }
        if !Posted?(raws, source.value) { raws := raws + [Raw(i, source.value)]; }
      }
    }
    assert h[..|h|] == h;
    return Accepted(raws);
  }

  /** `lastSeen` holds what each name was last seen as. */
  ghost predicate SeenAs(root: Identity, es: seq<Element>, lastSeen: map<string, Seat>) {
    forall name :: LastSeen(root, es, name) == if name in lastSeen then Some(lastSeen[name]) else None
  }

  method NoteSeats(lastSeen: map<string, Seat>, seats: seq<Seat>) returns (r: map<string, Seat>)
    requires NoDup(Names(seats))
    ensures forall name :: (if name in r then Some(r[name]) else None) ==
              if FindSeat(seats, name).Some? then FindSeat(seats, name)
              else if name in lastSeen then Some(lastSeen[name]) else None
  {
    hide FindSeat;
    r := lastSeen;
    for i := 0 to |seats|
      invariant forall name :: name in r <==> name in lastSeen || name in Names(seats[..i])
      invariant forall j :: 0 <= j < i ==> seats[j].id in r && r[seats[j].id] == seats[j]
      invariant forall name :: name in lastSeen && name !in Names(seats[..i]) ==> r[name] == lastSeen[name]
    {
      assert Names(seats[..i + 1]) == Names(seats[..i]) + [seats[i].id];
      forall j | 0 <= j < i ensures seats[j].id != seats[i].id { assert Names(seats)[j] != Names(seats)[i]; }
      r := r[seats[i].id := seats[i]];
    }
    assert seats[..|seats|] == seats;
    forall j | 0 <= j < |seats| ensures FindSeat(seats, seats[j].id) == Some(seats[j]) {
      FindSeatUnique(seats, seats[j]);
    }
    forall name | FindSeat(seats, name).Some? ensures name in r && r[name] == FindSeat(seats, name).value {
      var seat := FindSeat(seats, name).value;
      var j :| 0 <= j < |seats| && seats[j] == seat;
    }
  }

  /** The seats of an amended board, from the current board or as last seen. */
  method ContractSeats(
    root: Identity, es: seq<Element>, current: Identity, lastSeen: map<string, Seat>, names: seq<string>)
    returns (seats: Option<seq<Seat>>)
    requires current == IdentityAfter(root, es) && SeenAs(root, es, lastSeen)
    ensures seats == AmendedSeats(root, es, names)
  {
    hide FindSeat, LastSeen;
    var found := [];
    for i := 0 to |names|
      invariant AmendedSeats(root, es, names[..i]) == Some(found)
    {
      assert names[..i + 1][..i] == names[..i];
      var seat := FindSeat(current.seats, names[i]);
      if seat.None? {
        if names[i] !in lastSeen {
          AmendedSeatsPrefix(root, es, names, i + 1);
          return None;
        }
        seat := Some(lastSeen[names[i]]);
      }
      found := found + [seat.value];
    }
    assert names[..|names|] == names;
    return Some(found);
  }

  lemma {:induction false} AmendedSeatsPrefix(root: Identity, es: seq<Element>, names: seq<string>, n: nat)
    requires n <= |names| && AmendedSeats(root, es, names[..n]).None?
    ensures AmendedSeats(root, es, names).None?
    decreases |names|
  {
    hide FindSeat, LastSeen;
    if n == |names| {
      assert names[..n] == names;
    } else {
      assert names[..|names| - 1][..n] == names[..n];
      AmendedSeatsPrefix(root, es, names[..|names| - 1], n);
    }
  }

  lemma {:induction false} ElementsPrefixRefused(s: Surface, root: Identity, raws: seq<Raw>, n: nat)
    requires n <= |raws| && Elements(s, root, raws[..n]).Refused?
    ensures Elements(s, root, raws).Refused?
    decreases |raws|
  {
    hide NextElement;
    if n == |raws| {
      assert raws[..n] == raws;
    } else {
      assert raws[..|raws| - 1][..n] == raws[..n];
      ElementsPrefixRefused(s, root, raws[..|raws| - 1], n);
    }
  }

  lemma SeenAfterAmendment(root: Identity, es: seq<Element>, e: Element, lastSeen: map<string, Seat>)
    requires SeenAs(root, es, lastSeen) && !e.IsLink()
    ensures SeenAs(root, es + [e], lastSeen)
  {
    hide FindSeat;
    assert (es + [e])[..|es|] == es;
  }

  lemma SeenAfterLink(
    root: Identity, es: seq<Element>, e: Element, lastSeen: map<string, Seat>, after: map<string, Seat>)
    requires SeenAs(root, es, lastSeen) && e.IsLink()
    requires forall name :: (if name in after then Some(after[name]) else None) ==
               if FindSeat(e.identity.seats, name).Some? then FindSeat(e.identity.seats, name)
               else if name in lastSeen then Some(lastSeen[name]) else None
    ensures SeenAs(root, es + [e], after)
  {
    hide FindSeat;
    assert (es + [e])[..|es|] == es;
  }

  /** What the chain builder and the side checks leave to construct for amendment `k` of a segment. */
  lemma SegmentElement(
    s: Surface, root: Identity, raws: seq<Raw>, from: nat, end: nat, es0: seq<Element>, es: seq<Element>,
    contracts: seq<Contract>, k: nat)
    requires SegmentSoFar(s, root, raws, from, end, es0, es, contracts) && from <= k < end
    ensures var contract := contracts[k - from + 1];
            var seats := AmendedSeats(root, es[..k], contract.names);
            && seats.Some? && !es[k].IsLink()
            && es[k] == Element(raws[k].index, raws[k].source,
                 Identity(contract.policy, contract.primary, contract.rules, seats.value),
                                contract, BaseAfter(root, es0))
    ensures es[..k + 1] == es[..k] + [es[k]]
  {
    hide AmendContract, RemovedBy, Segment, SeatBinding, BoardSound, AmendedSeats, Valid, Elements, PostedBetween,
      ApplyAll;
    ElementsStep(s, root, raws[..end], k);
    BaseInSegment(s, root, raws, from, end, es0, es, k);
  }

  lemma {:induction false} BaseInSegment(
    s: Surface, root: Identity, raws: seq<Raw>, from: nat, end: nat, es0: seq<Element>, es: seq<Element>, k: nat)
    requires AllAmendments(raws, from, end) && from <= k <= end && |es| == end && es[..from] == es0
    requires Elements(s, root, raws[..end]) == Accepted(es)
    ensures BaseAfter(root, es[..k]) == BaseAfter(root, es0)
    decreases k
  {
    hide Elements, NextElement;
    if k > from {
      BaseInSegment(s, root, raws, from, end, es0, es, k - 1);
      ElementsStep(s, root, raws[..end], k - 1);
      NextFields(s, root, es[..k - 1], raws[k - 1]);
      assert es[..k][k - 1] == es[k - 1];
    }
  }

  /** Where the segment starting at `from` ends. */
  method SegmentEnd(raws: seq<Raw>, from: nat) returns (end: nat, segment: seq<Posted>)
    requires from < |raws| && raws[from].source.FromAmendment?
    ensures from < end && AllAmendments(raws, from, end) && segment == PostedBetween(raws, from, end)
    ensures end == |raws| || raws[end].source.FromLink?
  {
    hide PostedBetween;
    end, segment := from, [];
    NoPosted(raws, from);
    while end < |raws| && raws[end].source.FromAmendment?
      invariant AllAmendments(raws, from, end) && segment == PostedBetween(raws, from, end)
      invariant from == end ==> raws[end].source.FromAmendment?
    {
      PostedStep(raws, from, end + 1);
      segment, end := segment + [PostedOf(raws[end])], end + 1;
    }
  }

  lemma NoPosted(raws: seq<Raw>, from: nat)
    requires from <= |raws|
    ensures PostedBetween(raws, from, from) == []
  {
  }

  lemma SegmentIncreasing(raws: seq<Raw>, from: nat, end: nat)
    requires AllAmendments(raws, from, end) && Rising(raws)
    ensures Increasing(PostedBetween(raws, from, end))
  {
    var posted := PostedBetween(raws, from, end);
    forall i, j | 0 <= i < j < |posted| ensures posted[i].index < posted[j].index {
      assert posted[i] == PostedOf(raws[from + i]) && posted[j] == PostedOf(raws[from + j]);
      assert raws[from + i].index < raws[from + j].index;
    }
  }

  /** One signed segment: chained by the builder, checked against its base, appended element by element. */
  method ResolveSegment(
    s: Surface, root: Identity, raws: seq<Raw>, from: nat, end: nat, segment: seq<Posted>,
    es0: seq<Element>, lastSeen: map<string, Seat>)
    returns (r: Outcome<seq<Element>>)
    requires from < end && AllAmendments(raws, from, end) && Rising(raws) && segment == PostedBetween(raws, from, end)
    requires Elements(s, root, raws[..from]) == Accepted(es0) && BoardSound(root, es0)
    requires Segment(es0) == [] && ContractAfter(root, es0).names == BoardNames(BaseAfter(root, es0))
    requires SeenAs(root, es0, lastSeen)
    ensures r == Elements(s, root, raws[..end])
    ensures r.Accepted? ==> SeenAs(root, r.value, lastSeen)
  {
    hide Elements, BoardSound, SeenAs, Segment, PostedBetween, AmendedSeats, ApplyAll, Rising, Increasing;
    ghost var specContracts, es := SegmentChain(s, root, raws, from, end, es0);
    var built := BuildAmendmentChain(s.contractOk, ContractAfter(root, es0), segment);
    if built.Refused? { return Refused; }
    var (contracts, chain) := built.value;
    SegmentIncreasing(raws, from, end);
    ChainIsSegment(s.contractOk, ContractAfter(root, es0), segment, chain);
    for k := from to end
      invariant forall j :: from <= j < k ==> AmendmentChecks(s, root, es0, j == from, raws[j].source.amendment)
    {
      if !AmendmentChecks(s, root, es0, k == from, raws[k].source.amendment) { return Refused; }
    }
    SegmentParts(s, root, raws, from, end, es0, es, contracts);
    var elements, current := es0, IdentityAfter(root, es0);
    assert es[..from] == es0;
    for k := from to end
      invariant elements == es[..k] && current == IdentityAfter(root, elements) && SeenAs(root, elements, lastSeen)
    {
      SegmentElement(s, root, raws, from, end, es0, es, contracts, k);
      var contract := contracts[k - from + 1];
      var seats := ContractSeats(root, elements, current, lastSeen, contract.names);
      current := Identity(contract.policy, contract.primary, contract.rules, seats.value);
      var element := Element(raws[k].index, raws[k].source, current, contract, BaseAfter(root, es0));
      SeenAfterAmendment(root, elements, element, lastSeen);
      elements := elements + [element];
    }
    assert es[..end] == es;
    return Accepted(elements);
  }

  lemma FreshSegment(root: Identity, es: seq<Element>)
    requires BoardSound(root, es) && (es == [] || es[|es| - 1].IsLink())
    ensures Segment(es) == [] && ContractAfter(root, es).names == BoardNames(BaseAfter(root, es))
  {
  }

  /** Pass 1: the elements in comment order, a link at a time or a whole signed segment at a time. */
  method ResolveElements(s: Surface, root: Identity, h: History, raws: seq<Raw>) returns (r: Outcome<seq<Element>>)
    requires RawsOk(s, h, raws) && WellFormed(root)
    ensures r == Elements(s, root, raws)
  {
    hide Elements, BoardSound, SeenAs, Segment, WellFormed, FindSeat, LinkElement, AmendmentElement, RawsOk, LinkOk;
    RawsRising(s, h, raws);
    var elements: seq<Element>, position := [], 0;
    var lastSeen := NoteRoot(root);
    NoElements(s, root, raws);
    while position < |raws|
      invariant position <= |raws| && Elements(s, root, raws[..position]) == Accepted(elements)
      invariant position < |raws| && raws[position].source.FromAmendment? ==>
        elements == [] || elements[|elements| - 1].IsLink()
      invariant SeenAs(root, elements, lastSeen)
    {
      PrefixOk(s, h, raws, position);
      BoardsSound(s, root, h, raws[..position]);
      if raws[position].source.FromAmendment? {
        FreshSegment(root, elements);
        var end, segment := SegmentEnd(raws, position);
        var resolved := ResolveSegment(s, root, raws, position, end, segment, elements, lastSeen);
        if resolved.Refused? {
          ElementsPrefixRefused(s, root, raws, end);
          return Refused;
        }
        elements, position := resolved.value, end;
      } else {
        var next := LinkElement(root, elements, raws[position].index, raws[position].source.link);
        ElementsAfter(s, root, raws, position, elements);
        if next.Refused? {
          ElementsPrefixRefused(s, root, raws, position + 1);
          return Refused;
        }
        LinkBoardNames(s, h, root, raws, elements, position);
        var seen := NoteSeats(lastSeen, next.value.identity.seats);
        SeenAfterLink(root, elements, next.value, lastSeen, seen);
        lastSeen, elements, position := seen, elements + [next.value], position + 1;
      }
    }
    assert raws[..|raws|] == raws;
    return Accepted(elements);
  }

  lemma NoElements(s: Surface, root: Identity, raws: seq<Raw>)
    ensures Elements(s, root, raws[..0]) == Accepted([])
  {
  }

  lemma RawsRising(s: Surface, h: History, raws: seq<Raw>)
    requires RawsOk(s, h, raws)
    ensures Rising(raws)
  {
  }

  lemma PrefixOk(s: Surface, h: History, raws: seq<Raw>, n: nat)
    requires RawsOk(s, h, raws) && n <= |raws|
    ensures RawsOk(s, h, raws[..n])
  {
    hide SourceOk;
  }

  lemma ElementsAfter(s: Surface, root: Identity, raws: seq<Raw>, n: nat, es: seq<Element>)
    requires n < |raws| && Elements(s, root, raws[..n]) == Accepted(es)
    ensures var next := NextElement(s, root, es, raws[n]);
            Elements(s, root, raws[..n + 1]) == if next.Accepted? then Accepted(es + [next.value]) else Refused
  {
    hide NextElement;
    assert raws[..n + 1][..n] == raws[..n];
  }

  lemma LinkBoardNames(s: Surface, h: History, root: Identity, raws: seq<Raw>, es: seq<Element>, n: nat)
    requires RawsOk(s, h, raws) && n < |raws| && raws[n].source.FromLink?
    requires LinkElement(root, es, raws[n].index, raws[n].source.link).Accepted?
    ensures var e := LinkElement(root, es, raws[n].index, raws[n].source.link).value;
            e.IsLink() && NoDup(Names(e.identity.seats))
  {
    assert SourceOk(s, raws[n].source);
  }

  method NoteRoot(root: Identity) returns (lastSeen: map<string, Seat>)
    requires WellFormed(root)
    ensures SeenAs(root, [], lastSeen)
  {
    lastSeen := NoteSeats(map[], root.seats);
  }

  // --- Pass 2: records -----------------------------------------------------------------------------------

  method GoverningElement(es: seq<Element>, index: nat, round: int) returns (n: nat)
    ensures n == GoverningCount(es, index, round)
  {
    n := 0;
    for i := 0 to |es|
      invariant n == GoverningCount(es[..i], index, round)
    {
      assert es[..i + 1][..i] == es[..i];
      if Governs(es[i], index, round) { n := i + 1; }
    }
    assert es[..|es|] == es;
  }

  lemma {:induction false} WalkPrefixRefused(root: Identity, es: seq<Element>, h: History, n: nat)
    requires n <= |h| && Walk(root, es, h[..n]).Refused?
    ensures Walk(root, es, h).Refused?
    decreases |h|
  {
    hide CommentStep;
    if n == |h| {
      assert h[..n] == h;
    } else {
      assert h[..|h| - 1][..n] == h[..n];
      WalkPrefixRefused(root, es, h[..|h| - 1], n);
    }
  }

  method WalkComments(root: Identity, es: seq<Element>, h: History) returns (r: Outcome<Progress>)
    ensures r == Walk(root, es, h)
  {
    hide StampedRecord, LegacyRecord, LinkStep, GoverningCount, Before;
    var p := Progress(map[], {});
    for i := 0 to |h|
      invariant Walk(root, es, h[..i]) == Accepted(p)
    {
      assert h[..i + 1][..i] == h[..i];
      var step := Accepted(p);
      match h[i] {
        case RecordComment(record) =>
          var n := GoverningElement(es, i, record.round);
          step := if record.root.Present? then StampedRecord(root, es[..n], record, p)
            else LegacyRecord(root, es[..n], record, p);
        case LinkComment(link) =>
          if ElementAt(es, i) { step := LinkStep(root, Before(es, i), link, p); }
        case _ =>
      }
      if step.Refused? {
        WalkPrefixRefused(root, es, h, i + 1);
        return Refused;
      }
      p := step.value;
    }
    assert h[..|h|] == h;
    return Accepted(p);
  }

  // --- Pending elements -----------------------------------------------------------------------------------

  method TrailingRun(es: seq<Element>, carried: set<Digest>) returns (start: nat)
    ensures start == TrailingStart(es, carried)
  {
    start := |es|;
    assert es[..start] == es;
    while start > 0 && es[start - 1].Digest() !in carried
      invariant start <= |es| && TrailingStart(es[..start], carried) == TrailingStart(es, carried)
    {
      assert es[..start][..start - 1] == es[..start - 1];
      start := start - 1;
    }
  }

  /** Superseded links were never carried, and every other uncarried link is still pending. */
  method CheckUse(es: seq<Element>, carried: set<Digest>, start: nat) returns (ok: bool)
    requires start == TrailingStart(es, carried)
    ensures ok == UseConsistent(es, carried)
  {
    hide TrailingStart, Superseded;
    for i := 0 to |es|
      invariant forall j :: 0 <= j < i && es[j].IsLink() ==>
        if Superseded(es, j) then es[j].Digest() !in carried else es[j].Digest() in carried || j >= start
    {
      if es[i].IsLink() {
        if Superseded(es, i) {
          if es[i].Digest() in carried { return false; }
        } else if es[i].Digest() !in carried && i < start { return false; }
      }
    }
    return true;
  }

  lemma {:induction false} AnchorExists(h: History) returns (i: nat)
    requires FirstAnchor(h).Some?
    ensures i < |h| && AnchorOf(h[i]) == FirstAnchor(h)
    decreases |h|
  {
    if AnchorOf(h[0]).Some? {
      i := 0;
    } else {
      i := AnchorExists(h[1..]);
      i := i + 1;
    }
  }

  lemma {:induction false} CollectChecksAll(s: Surface, h: History, i: nat)
    requires Collect(s, h).Accepted? && i < |h| && SourceOf(h[i]).Some?
    ensures SourceOk(s, SourceOf(h[i]).value)
    decreases |h|
  {
    hide SourceOk;
    if i < |h| - 1 { CollectChecksAll(s, h[..|h| - 1], i); }
  }

  lemma AnchorWellFormed(s: Surface, h: History, root: Identity)
    requires AnchoredAt(h, root) && Collect(s, h).Accepted? && FirstAnchor(h) == Some(root)
    ensures WellFormed(root)
  {
    hide Collect, WellFormed;
    var i := AnchorExists(h);
    if h[i].LinkComment? { CollectChecksAll(s, h, i); }
  }

  /** The resolver, pass by pass. */
  method ResolveBoardLineage(s: Surface, legacyRoot: Identity, h: History) returns (r: Outcome<Lineage>)
    requires WellFormed(legacyRoot)
    ensures r == Resolve(s, legacyRoot, h)
  {
    hide Collect, Elements, Walk, UseConsistent, PendingConsistent, LegacyBindingsOk, AnchoredAt, FirstAnchor,
      TrailingStart, WellFormed, RawsOk;
    var raws := CollectRaws(s, h);
    if raws.Refused? { return Refused; }
    CollectOk(s, h);
    var anchor := FirstAnchor(h);
    var root := if anchor.Some? then anchor.value else legacyRoot;
    if !AnchoredAt(h, root) || root.policy !in s.policies || !s.contractOk(ContractOf(root)) { return Refused; }
    if anchor.Some? { AnchorWellFormed(s, h, root); }
    var elements := ResolveElements(s, root, h, raws.value);
    if elements.Refused? || !LegacyBindingsOk(h) { return Refused; }
    var progress := WalkComments(root, elements.value, h);
    if progress.Refused? { return Refused; }
    var start := TrailingRun(elements.value, progress.value.carried);
    var used := CheckUse(elements.value, progress.value.carried, start);
    if !used || !PendingConsistent(h, elements.value, progress.value.carried) { return Refused; }
    return Accepted(Lineage(root, anchor.Some?, elements.value, progress.value.carried, progress.value.inits));
  }
}
