/** The lineage of a history without any of the resolver's passes: what its elements are, and when it exists. */
module BoardExact {
  import opened Common
  import opened BoardAmendment
  import opened BoardIdentity
  import opened BoardLineage
  import opened BoardFacts
  import opened BoardGovernance
  import opened BoardRecords
  import opened BoardExplained

  // --- The elements --------------------------------------------------------------------------

  /** Comment `i` posts an element, and it is not a repeat. */
  ghost predicate FirstPosted(h: History, i: nat) {
    && i < |h| && SourceOf(h[i]).Some?
    && forall j :: 0 <= j < i ==> SourceOf(h[j]) != SourceOf(h[i])
  }

  /** The elements are the links and amendments of the history, each at its first comment, in order. */
  ghost predicate ArePosted(h: History, es: seq<Element>) {
    && (forall k :: 0 <= k < |es| ==> FirstPosted(h, es[k].index) && SourceOf(h[es[k].index]) == Some(es[k].source))
    && (forall j, k :: 0 <= j < k < |es| ==> es[j].index < es[k].index)
    && (forall i: nat :: FirstPosted(h, i) ==> exists k :: 0 <= k < |es| && es[k].index == i)
  }

  /** Every link and amendment, repeats included, is well formed on this surface. */
  ghost predicate SourcesOk(s: Surface, h: History) {
    forall i :: 0 <= i < |h| && SourceOf(h[i]).Some? ==> SourceOk(s, SourceOf(h[i]).value)
  }

  /** A link extends the lineage: same root, next in the digest chain, later or replacing the previous link. */
  predicate LinkExtends(root: Identity, es: seq<Element>, link: Link) {
    && link.root == root
    && link.newBoard.policy == root.policy && link.newBoard.rules == root.rules
    && if es == [] then link.predecessor == OfIdentity(root)
       else match es[|es| - 1].source
            case FromLink(previous) =>
              && link.predecessor == OfLink(previous)
              && (previous.effective < link.effective
                  || (previous.effective == link.effective && previous.anchor == link.anchor
                      && previous.advance == link.advance))
            case FromAmendment(previous) =>
              link.predecessor == OfAmendment(previous) && previous.effective < link.effective
  }

  /** An amendment since the latest link of `es` removed `name`. */
  ghost predicate RemovedInSegment(es: seq<Element>, name: string) {
    exists j :: 0 <= j < |es| && (forall m :: j <= m < |es| ==> es[m].source.FromAmendment?)
                && name in es[j].source.amendment.removed
  }

  /** An amendment extends the lineage: it amends the board in force, within its segment's base, from a later round. */
  ghost predicate AmendmentExtends(s: Surface, root: Identity, es: seq<Element>, a: Amendment, contract: Contract) {
    var board := if es == [] then root else es[|es| - 1].identity;
    var base := if es == [] then root else es[|es| - 1].base;
    && (es != [] ==> es[|es| - 1].Effective() < a.effective)
    && a.original == BoardNames(board) && a.policy == board.policy && a.primary == board.primary
    && (forall name :: name in a.removed ==> name in BoardNames(board) && Some(name) != board.primary)
    && (forall name :: name in a.restored ==>
          name !in BoardNames(board) && name in BoardNames(base) && RemovedInSegment(es, name))
    && contract == Contract(board.policy, board.primary, board.rules, contract.names)
    && contract.names == Keep(BoardNames(base), Elems(BoardNames(board)) - Elems(a.removed) + Elems(a.restored))
    && contract.names != [] && s.contractOk(contract) && s.outageOk(a, SeatBinding(base))
  }

  /** `e` comes next after `es`; the seats of an amended board are those its segment's base has. */
  ghost predicate Extends(s: Surface, root: Identity, es: seq<Element>, e: Element) {
    && e.contract == ContractOf(e.identity)
    && match e.source
       case FromLink(link) => LinkExtends(root, es, link) && e.identity == link.newBoard && e.base == link.newBoard
       case FromAmendment(a) =>
         && AmendmentExtends(s, root, es, a, e.contract)
         && e.base == (if es == [] then root else es[|es| - 1].base)
         && forall seat :: seat in e.identity.seats ==> seat in e.base.seats
  }

  // --- The collection ------------------------------------------------------------------------

  ghost predicate Has(raws: seq<Raw>, index: nat) { exists k :: 0 <= k < |raws| && raws[k].index == index }

  ghost predicate Rising(raws: seq<Raw>) {
    forall i, j :: 0 <= i < j < |raws| ==> raws[i].index < raws[j].index
  }

  ghost predicate Within(a: seq<Raw>, b: seq<Raw>) { forall i :: 0 <= i < |a| ==> Has(b, a[i].index) }

  ghost predicate Holds(h: History, raw: Raw) {
    FirstPosted(h, raw.index) && SourceOf(h[raw.index]) == Some(raw.source)
  }

  /** `raws` are the first posts of `h`. */
  ghost predicate Covers(h: History, raws: seq<Raw>) {
    && (forall k :: 0 <= k < |raws| ==> Holds(h, raws[k]))
    && (forall i: nat :: FirstPosted(h, i) ==> Has(raws, i))
  }

  lemma FirstPostedFront(h: History, i: nat)
    requires h != [] && i < |h| - 1
    ensures FirstPosted(h[..|h| - 1], i) <==> FirstPosted(h, i)
  {
    hide SourceOf;
    var front := h[..|h| - 1];
    assert forall j :: 0 <= j < |front| ==> front[j] == h[j];
  }

  lemma HasMore(raws: seq<Raw>, raw: Raw, i: nat)
    ensures Has(raws + [raw], i) <==> Has(raws, i) || raw.index == i
  {
    if Has(raws, i) {
      var k :| 0 <= k < |raws| && raws[k].index == i;
      assert (raws + [raw])[k].index == i;
    }
    if raw.index == i { assert (raws + [raw])[|raws|].index == i; }
  }

  lemma PostedMore(raws: seq<Raw>, raw: Raw, source: Source)
    ensures Posted?(raws + [raw], source) <==> Posted?(raws, source) || raw.source == source
  {
    if Posted?(raws, source) {
      var k :| 0 <= k < |raws| && raws[k].source == source;
      assert (raws + [raw])[k].source == source;
    }
    if raw.source == source { assert (raws + [raw])[|raws|].source == source; }
  }

  ghost predicate Seen(h: History, source: Source) {
    exists i :: 0 <= i < |h| && SourceOf(h[i]) == Some(source)
  }

  lemma SeenMore(h: History, source: Source)
    requires h != []
    ensures Seen(h, source) <==> Seen(h[..|h| - 1], source) || SourceOf(h[|h| - 1]) == Some(source)
  {
    hide SourceOf;
    var front := h[..|h| - 1];
    if Seen(front, source) {
      var i :| 0 <= i < |front| && SourceOf(front[i]) == Some(source);
      assert SourceOf(h[i]) == Some(source);
    }
    if Seen(h, source) && SourceOf(h[|h| - 1]) != Some(source) {
      var i :| 0 <= i < |h| && SourceOf(h[i]) == Some(source);
      assert SourceOf(front[i]) == Some(source);
    }
  }

  lemma FirstMeansUnseen(h: History)
    requires h != [] && SourceOf(h[|h| - 1]).Some?
    ensures FirstPosted(h, |h| - 1) <==> !Seen(h[..|h| - 1], SourceOf(h[|h| - 1]).value)
  {
    hide SourceOf;
    var front := h[..|h| - 1];
    assert forall j :: 0 <= j < |front| ==> front[j] == h[j];
  }

  /** Collection accepts exactly well-formed posts, and yields the first of each. */
  lemma {:induction false} CollectMeans(s: Surface, h: History)
    ensures Collect(s, h).Accepted? <==> SourcesOk(s, h)
    ensures Collect(s, h).Accepted? ==>
              && Covers(h, Collect(s, h).value)
              && forall source :: Posted?(Collect(s, h).value, source) <==> Seen(h, source)
    decreases |h|
  {
    hide SourceOk, SourceOf, Posted?, Seen, Has, FirstPosted;
    if h == [] {
      NothingPosted(h);
    } else {
      var n := |h| - 1;
      var front := h[..n];
      CollectMeans(s, front);
      assert forall i :: 0 <= i < n ==> front[i] == h[i];
      if SourcesOk(s, h) || Collect(s, h).Accepted? {
        var raws, before := Collect(s, h).value, Collect(s, front).value;
        forall i: nat | i < n ensures FirstPosted(front, i) <==> FirstPosted(h, i) { FirstPostedFront(h, i); }
        forall source ensures Seen(h, source) <==> Seen(front, source) || SourceOf(h[n]) == Some(source) {
          SeenMore(h, source);
        }
        OutsideNotPosted(h);
        OutsideNotPosted(front);
        if SourceOf(h[n]).Some? {
          var raw := Raw(n, SourceOf(h[n]).value);
          FirstMeansUnseen(h);
          forall i: nat ensures Has(before + [raw], i) <==> Has(before, i) || raw.index == i {
            HasMore(before, raw, i);
          }
          forall source ensures Posted?(before + [raw], source) <==> Posted?(before, source) || raw.source == source {
            PostedMore(before, raw, source);
          }
          forall k | 0 <= k < |raws| ensures Holds(h, raws[k]) {
            if k < |before| { assert Holds(front, before[k]); }
          }
        } else {
          forall k | 0 <= k < |raws| ensures Holds(h, raws[k]) { assert Holds(front, before[k]); }
        }
      }
    }
  }

  lemma OutsideNotPosted(h: History)
    ensures forall i: nat :: FirstPosted(h, i) ==> i < |h| && SourceOf(h[i]).Some?
  {
  }

  lemma NothingPosted(h: History)
    requires h == []
    ensures forall i: nat :: !FirstPosted(h, i)
    ensures forall source :: !Seen(h, source) && !Posted?([], source)
  {
  }

  lemma {:induction false} RisingAgrees(a: seq<Raw>, b: seq<Raw>, k: nat)
    requires Rising(a) && Rising(b) && Within(a, b) && Within(b, a) && k <= |a| && k <= |b|
    ensures forall i :: 0 <= i < k ==> a[i].index == b[i].index
  {
    hide Has, Rising;
    if k > 0 {
      RisingAgrees(a, b, k - 1);
      assert Has(b, a[k - 1].index) && Has(a, b[k - 1].index);
      SameNext(a, b, k - 1);
    }
  }

  lemma SameNext(a: seq<Raw>, b: seq<Raw>, k: nat)
    requires Rising(a) && Rising(b) && k < |a| && k < |b| && Has(b, a[k].index) && Has(a, b[k].index)
    requires forall i :: 0 <= i < k ==> a[i].index == b[i].index
    ensures a[k].index == b[k].index
  {
    hide Rising;
    var j :| 0 <= j < |b| && b[j].index == a[k].index;
    var j' :| 0 <= j' < |a| && a[j'].index == b[k].index;
    RisesAt(a, b, k, j);
    RisesAt(b, a, k, j');
  }

  lemma RisesAt(a: seq<Raw>, b: seq<Raw>, k: nat, j: nat)
    requires Rising(a) && Rising(b) && k < |a| && k < |b| && j < |b| && b[j].index == a[k].index
    requires forall i :: 0 <= i < k ==> a[i].index == b[i].index
    ensures b[k].index <= a[k].index
  {
  }

  lemma NotHad(a: seq<Raw>, b: seq<Raw>)
    requires Rising(b) && |a| < |b| && forall i :: 0 <= i < |a| ==> a[i].index == b[i].index
    ensures !Has(a, b[|a|].index)
  {
    forall i | 0 <= i < |a| ensures a[i].index != b[|a|].index { assert b[i].index < b[|a|].index; }
  }

  lemma SameIndexes(a: seq<Raw>, b: seq<Raw>)
    requires Rising(a) && Rising(b) && Within(a, b) && Within(b, a) && |a| <= |b|
    ensures |a| == |b| && forall i :: 0 <= i < |a| ==> a[i].index == b[i].index
  {
    RisingAgrees(a, b, |a|);
    if |a| < |b| { NotHad(a, b); }
  }

  function RawsOf(es: seq<Element>): seq<Raw> {
    seq(|es|, k requires 0 <= k < |es| => Raw(es[k].index, es[k].source))
  }

  lemma PostedAreCovered(h: History, es: seq<Element>)
    ensures ArePosted(h, es) <==> Covers(h, RawsOf(es)) && Rising(RawsOf(es))
  {
    hide SourceOf, FirstPosted;
    var raws := RawsOf(es);
    OutsideNotPosted(h);
    forall i: nat ensures Has(raws, i) <==> exists k :: 0 <= k < |es| && es[k].index == i {
      if Has(raws, i) {
        var k :| 0 <= k < |raws| && raws[k].index == i;
        assert es[k].index == i;
      }
      if exists k :: 0 <= k < |es| && es[k].index == i {
        var k :| 0 <= k < |es| && es[k].index == i;
        assert raws[k].index == i;
      }
    }
    forall k | 0 <= k < |es|
      ensures Holds(h, raws[k])
              <==> FirstPosted(h, es[k].index) && SourceOf(h[es[k].index]) == Some(es[k].source) {}
    if Rising(raws) {
      forall j, k | 0 <= j < k < |es| ensures es[j].index < es[k].index { assert raws[j].index < raws[k].index; }
    }
  }

  lemma CoversOnce(h: History, a: seq<Raw>, b: seq<Raw>)
    requires Covers(h, a) && Covers(h, b) && Rising(a) && Rising(b)
    ensures a == b
  {
    hide FirstPosted, Rising, Has, SourceOf;
    assert Within(a, b) && Within(b, a) by {
      forall i | 0 <= i < |a| ensures Has(b, a[i].index) { assert Holds(h, a[i]); }
      forall i | 0 <= i < |b| ensures Has(a, b[i].index) { assert Holds(h, b[i]); }
    }
    if |a| <= |b| { SameIndexes(a, b); } else { SameIndexes(b, a); }
    forall i | 0 <= i < |a| ensures a[i] == b[i] { assert Holds(h, a[i]) && Holds(h, b[i]); }
  }

  /** What collection yields are the elements' sources and positions. */
  lemma CollectExact(s: Surface, h: History, es: seq<Element>)
    ensures Collect(s, h) == Accepted(RawsOf(es)) <==> SourcesOk(s, h) && ArePosted(h, es)
  {
    hide SourcesOk, ArePosted, Collect, Posted?, Covers, Seen;
    CollectMeans(s, h);
    PostedAreCovered(h, es);
    if Collect(s, h).Accepted? {
      CollectOk(s, h);
      RisingRaws(s, h, Collect(s, h).value);
      if ArePosted(h, es) { CoversOnce(h, Collect(s, h).value, RawsOf(es)); }
    }
  }

  lemma RisingRaws(s: Surface, h: History, raws: seq<Raw>)
    requires RawsOk(s, h, raws)
    ensures Rising(raws)
  {
    hide SourceOk, SourceOf;
  }

  // --- One element after another -------------------------------------------------------------

  lemma {:induction false} SegmentRemovals(es: seq<Element>, name: string)
    ensures name in RemovedBy(Segment(es)) <==> RemovedInSegment(es, name)
    decreases |es|
  {
    if es == [] || es[|es| - 1].IsLink() {
      assert es == [] || es[|es| - 1].source.FromLink?;
    } else {
      var n := |es| - 1;
      var front := es[..n];
      SegmentRemovals(front, name);
      RemovedMore(Segment(front), Posted(es[n].index, es[n].source.amendment));
      RemovedInMore(es, name);
      hide RemovedBy, RemovedInSegment;
    }
  }

  lemma RemovedInMore(es: seq<Element>, name: string)
    requires es != [] && es[|es| - 1].source.FromAmendment?
    ensures RemovedInSegment(es, name)
            <==> RemovedInSegment(es[..|es| - 1], name) || name in es[|es| - 1].source.amendment.removed
  {
    var n := |es| - 1;
    var front := es[..n];
    if RemovedInSegment(front, name) {
      var j :| 0 <= j < n && (forall m :: j <= m < n ==> front[m].source.FromAmendment?)
               && name in front[j].source.amendment.removed;
      assert forall m :: j <= m < |es| ==> es[m].source.FromAmendment?;
      assert name in es[j].source.amendment.removed;
    }
    if RemovedInSegment(es, name) {
      var j :| 0 <= j < |es| && (forall m :: j <= m < |es| ==> es[m].source.FromAmendment?)
               && name in es[j].source.amendment.removed;
      if j < n {
        assert forall m :: j <= m < n ==> front[m].source.FromAmendment?;
        assert name in front[j].source.amendment.removed;
      }
    }
    if name in es[n].source.amendment.removed { assert es[n].source.FromAmendment?; }
  }

  lemma RemovedMore(chain: seq<Posted>, posted: Posted)
    ensures RemovedBy(chain + [posted]) == RemovedBy(chain) + Elems(posted.record.removed)
  {
    var more := chain + [posted];
    forall name ensures name in RemovedBy(more) <==> name in RemovedBy(chain) || name in posted.record.removed {
      if name in RemovedBy(chain) {
        var i :| 0 <= i < |chain| && name in chain[i].record.removed;
        assert name in more[i].record.removed;
      }
      if name in posted.record.removed { assert name in more[|chain|].record.removed; }
      if name in RemovedBy(more) {
        var i :| 0 <= i < |more| && name in more[i].record.removed;
        if i < |chain| { assert name in chain[i].record.removed; }
      }
    }
  }

  lemma LinkExact(root: Identity, es: seq<Element>, link: Link, e: Element)
    requires e.source == FromLink(link)
    ensures LinkElement(root, es, e.index, link) == Accepted(e)
            <==> LinkExtends(root, es, link) && e.identity == link.newBoard && e.base == link.newBoard
                 && e.contract == ContractOf(e.identity)
  {
  }

  lemma SeatsDetermined(base: seq<Seat>, a: seq<Seat>, b: seq<Seat>)
    requires NoDup(Names(base)) && Names(a) == Names(b)
    requires (forall seat :: seat in a ==> seat in base) && (forall seat :: seat in b ==> seat in base)
    ensures a == b
  {
    assert |a| == |Names(a)| == |b|;
    forall i | 0 <= i < |a| ensures a[i] == b[i] {
      assert Names(a)[i] == Names(b)[i];
      FindSeatUnique(base, a[i]);
      FindSeatUnique(base, b[i]);
    }
  }

  lemma {:induction false} AmendMeans(
    contractOk: Contract -> bool, current: Contract, a: Amendment, base: seq<string>, gone: set<string>, r: Contract)
    ensures AmendContract(contractOk, current, a, base, gone) == Accepted(r)
            <==> && a.original == current.names && a.policy == current.policy && a.primary == current.primary
                 && (forall name :: name in a.removed ==> name in current.names && Some(name) != current.primary)
                 && (forall name :: name in a.restored ==> name !in current.names && name in base && name in gone)
                 && r == Contract(current.policy, current.primary, current.rules, r.names)
                 && r.names == Keep(base, Elems(current.names) - Elems(a.removed) + Elems(a.restored))
                 && r.names != [] && contractOk(r)
  {
    hide Keep, Elems;
  }

  /** The amended contract, in terms of the boards. */
  lemma {:induction false} AmendExact(s: Surface, root: Identity, es: seq<Element>, a: Amendment, contract: Contract)
    requires BoardSound(root, es)
    ensures AmendContract(s.contractOk, ContractAfter(root, es), a, BoardNames(BaseAfter(root, es)),
                          RemovedBy(Segment(es))) == Accepted(contract)
            && s.outageOk(a, SeatBinding(BaseAfter(root, es)))
            && (es != [] ==> es[|es| - 1].Effective() < a.effective)
            <==> AmendmentExtends(s, root, es, a, contract)
  {
    forall name ensures name in RemovedBy(Segment(es)) <==> RemovedInSegment(es, name) { SegmentRemovals(es, name); }
    AmendMeans(s.contractOk, ContractAfter(root, es), a, BoardNames(BaseAfter(root, es)), RemovedBy(Segment(es)),
      contract);
    assert ContractAfter(root, es) == ContractOf(IdentityAfter(root, es));
    hide RemovedBy, Segment, RemovedInSegment, WellFormed, SeatBinding, Keep, Names, AmendContract, BoardSound;
  }

  lemma AmendmentExact(s: Surface, root: Identity, raws: seq<Raw>, es: seq<Element>, a: Amendment, e: Element)
    requires Elements(s, root, raws) == Accepted(es) && BoardSound(root, es) && e.source == FromAmendment(a)
    ensures AmendmentElement(s, root, es, e.index, a) == Accepted(e)
            <==> && AmendmentExtends(s, root, es, a, e.contract) && e.base == BaseAfter(root, es)
                 && e.contract == ContractOf(e.identity)
                 && forall seat :: seat in e.identity.seats ==> seat in e.base.seats
  {
    AmendmentElementSound(s, root, raws, e.index, a);
    AmendExact(s, root, es, a, e.contract);
    BoardValid(BaseAfter(root, es));
    hide AmendContract, RemovedBy, Segment, SeatBinding, WellFormed, AmendmentExtends, Names, AmendedSeats, Elements;
    var made := AmendmentElement(s, root, es, e.index, a);
    if made.Accepted? {
      assert (es + [made.value])[|es|] == made.value;
      if AmendmentExtends(s, root, es, a, e.contract) && e.contract == ContractOf(e.identity)
         && e.base == BaseAfter(root, es) && forall seat :: seat in e.identity.seats ==> seat in e.base.seats {
        SeatsDetermined(e.base.seats, e.identity.seats, made.value.identity.seats);
      }
    }
  }

  lemma BoardValid(identity: Identity)
    requires WellFormed(identity)
    ensures Valid(identity)
  {
  }

  lemma NextExact(s: Surface, root: Identity, raws: seq<Raw>, es: seq<Element>, e: Element)
    requires Elements(s, root, raws) == Accepted(es) && BoardSound(root, es)
    ensures NextElement(s, root, es, Raw(e.index, e.source)) == Accepted(e) <==> Extends(s, root, es, e)
  {
    hide LinkElement, AmendmentElement, LinkExtends, AmendmentExtends, BoardSound, Elements;
    match e.source {
      case FromLink(link) => LinkExact(root, es, link, e);
      case FromAmendment(a) => AmendmentExact(s, root, raws, es, a, e);
    }
  }

  /** Each element extends those before it. */
  ghost predicate AllExtend(s: Surface, root: Identity, es: seq<Element>) {
    forall k :: 0 <= k < |es| ==> Extends(s, root, es[..k], es[k])
  }

  lemma {:induction false} ElementsExact(s: Surface, root: Identity, h: History, es: seq<Element>)
    requires WellFormed(root) && RawsOk(s, h, RawsOf(es))
    ensures Elements(s, root, RawsOf(es)) == Accepted(es) <==> AllExtend(s, root, es)
    decreases |es|
  {
    hide NextElement, Extends, WellFormed, BoardSound, SourceOk, SourceOf;
    var raws := RawsOf(es);
    if es == [] {
      assert raws == [];
    } else {
      var n := |es| - 1;
      var front := es[..n];
      assert raws[..n] == RawsOf(front) && raws[n] == Raw(es[n].index, es[n].source);
      PrefixOk(s, h, raws, n);
      ElementsExact(s, root, h, front);
      assert forall k :: 0 <= k < n ==> front[..k] == es[..k] && front[k] == es[k];
      assert AllExtend(s, root, es) <==> AllExtend(s, root, front) && Extends(s, root, front, es[n]);
      if Elements(s, root, RawsOf(front)) == Accepted(front) {
        BoardsSound(s, root, h, RawsOf(front));
        NextExact(s, root, RawsOf(front), front, es[n]);
        assert es == front + [es[n]];
        LastElement(s, root, raws, es);
      } else if Elements(s, root, raws) == Accepted(es) {
        ElementsPrefix(s, root, raws, n);
      }
    }
  }

  lemma LastElement(s: Surface, root: Identity, raws: seq<Raw>, es: seq<Element>)
    requires |raws| == |es| && es != []
    requires Elements(s, root, raws[..|raws| - 1]) == Accepted(es[..|es| - 1])
    ensures Elements(s, root, raws) == Accepted(es)
            <==> NextElement(s, root, es[..|es| - 1], raws[|raws| - 1]) == Accepted(es[|es| - 1])
  {
    hide NextElement;
    var front := es[..|es| - 1];
    assert es == front + [es[|es| - 1]];
    if Elements(s, root, raws) == Accepted(es) {
      assert Elements(s, root, raws).value[|front|] == es[|front|];
    }
  }

  lemma PrefixOk(s: Surface, h: History, raws: seq<Raw>, n: nat)
    requires RawsOk(s, h, raws) && n <= |raws|
    ensures RawsOk(s, h, raws[..n])
  {
    hide SourceOk, SourceOf;
  }
}
