/** A history is accepted exactly when each of its comments fits what was known when it was posted. */
module BoardExplained {
  import opened Common
  import opened BoardAmendment
  import opened BoardIdentity
  import opened BoardLineage
  import opened BoardFacts
  import opened BoardGovernance

  // --- What each comment initializes ---------------------------------------------------------

  /** The bindings a comment records: a stamped record its initializations, a newly posted link those it was given. */
  function Payload(es: seq<Element>, h: History, i: nat): map<string, InitEntry>
    requires i < |h|
  {
    match h[i]
    case RecordComment(r) => if r.root.Present? && r.init.Present? then r.init.value else map[]
    case LinkComment(link) => if ElementAt(es, i) then link.inits else map[]
    case _ => map[]
  }

  /** The elements that govern record `i`, or that link `i` follows. */
  function Under(es: seq<Element>, h: History, i: nat): (r: seq<Element>)
    requires i < |h|
    ensures |r| <= |es| && r == es[..|r|]
  {
    match h[i]
    case RecordComment(r) => es[..GoverningCount(es, i, r.round)]
    case _ => Before(es, i)
  }

  /** The board a comment's initializations are about. */
  function BoardOf(root: Identity, es: seq<Element>, h: History, i: nat): Identity
    requires i < |h|
  {
    if h[i].LinkComment? then h[i].link.newBoard else IdentityAfter(root, Under(es, h, i))
  }

  /** Some comment before `n` records a binding of `id`. */
  ghost predicate Recorded(es: seq<Element>, h: History, n: nat, id: string)
    requires n <= |h|
  {
    exists j :: 0 <= j < n && id in Payload(es, h, j)
  }

  /** The part of `inits` that comments before `n` record. */
  ghost function KnownBefore(es: seq<Element>, h: History, n: nat, inits: Inits): Inits
    requires n <= |h|
  {
    map id | id in inits && Recorded(es, h, n, id) :: inits[id]
  }

  /** An entry is a usable chain for a seat of the comment's board, and it is the binding `inits` has. */
  ghost predicate EntryFits(root: Identity, es: seq<Element>, h: History, i: nat, inits: Inits, id: string)
    requires i < |h| && id in Payload(es, h, i)
  {
    var seat, entry := FindSeat(BoardOf(root, es, h, i).seats, id), Payload(es, h, i)[id];
    && seat.Some? && ChainOk(entry.chain)
    && id in inits && inits[id] == Init(seat.value.backend, entry.chain, entry.effort)
    && (h[i].RecordComment? && !Recorded(es, h, i, id) ==> seat.value.chain.None?)
  }

  // --- What each comment must say ------------------------------------------------------------

  /** The digests a record names are those of the element that governs it. */
  predicate NamesGoverning(governing: seq<Element>, amendmentDigest: Option<Digest>, changeDigest: Option<Digest>) {
    if governing == [] then amendmentDigest == None && changeDigest == None
    else
      var last := governing[|governing| - 1];
      match last.source
      case FromLink(link) => amendmentDigest == None && changeDigest == Some(OfLink(link))
      case FromAmendment(a) => amendmentDigest == Some(OfAmendment(a)) && changeDigest == None
  }

  /** A stamped record shows its governing board with every binding known by then. */
  predicate StampFits(root: Identity, governing: seq<Element>, r: Record, known: Inits) {
    var board := ApplyInits(if governing == [] then root else governing[|governing| - 1].identity, known);
    var base := ApplyInits(if governing == [] then root else governing[|governing| - 1].base, known);
    && NamesGoverning(governing, r.amendmentDigest, r.changeDigest)
    && !r.init.Malformed?
    && r.identity == Present(board) && WellFormed(board)
    && r.binding in {SeatBinding(board), SeatBinding(base)}
    && (r.role.Reviewer? ==> r.agent in BoardNames(board) || r.agent in BoardNames(base))
    && (r.contract.Some? ==>
          r.contract.value == if governing == [] then ContractOf(root) else governing[|governing| - 1].contract)
  }

  /** A substantive unstamped record is never under a link, and names its amendment exactly with its contract. */
  predicate LegacyFits(root: Identity, governing: seq<Element>, r: Record) {
    r.neutral ||
    (&& (governing != [] ==> governing[|governing| - 1].source.FromAmendment?)
     && (if r.contract.None? then r.amendmentDigest == None
         else && r.contract.value == (if governing == [] then ContractOf(root)
                                      else governing[|governing| - 1].contract)
              && NamesGoverning(governing, r.amendmentDigest, None)))
  }

  /** A link names the board and the binding in force when it is posted. */
  predicate LinkFits(root: Identity, before: seq<Element>, link: Link, known: Inits) {
    var board := ApplyInits(if before == [] then root else before[|before| - 1].identity, known);
    var base := ApplyInits(if before == [] then root else before[|before| - 1].base, known);
    BindingCompatible(link.oldBoard, board) && link.oldBinding == SeatBinding(base)
  }

  ghost predicate CommentFits(root: Identity, es: seq<Element>, h: History, i: nat, inits: Inits)
    requires i < |h|
  {
    && (forall id :: id in Payload(es, h, i) ==> EntryFits(root, es, h, i, inits, id))
    && match h[i]
       case RecordComment(r) =>
         if r.root.Present? then StampFits(root, Under(es, h, i), r, KnownBefore(es, h, i + 1, inits))
         else LegacyFits(root, Under(es, h, i), r)
       case LinkComment(link) =>
         ElementAt(es, i) ==> LinkFits(root, Under(es, h, i), link, KnownBefore(es, h, i, inits))
       case _ => true
  }

  /** `inits` are exactly the bindings recorded in `h`, and every comment fits them. */
  ghost predicate Explains(root: Identity, es: seq<Element>, h: History, inits: Inits) {
    && (forall id :: id in inits ==> Recorded(es, h, |h|, id))
    && forall i :: 0 <= i < |h| ==> CommentFits(root, es, h, i, inits)
  }

  // --- One comment ---------------------------------------------------------------------------

  lemma NamesGoverningMeans(es: seq<Element>, amendmentDigest: Option<Digest>, changeDigest: Option<Digest>)
    ensures NamesGoverning(es, amendmentDigest, changeDigest)
            <==> amendmentDigest == AmendmentDigestAfter(es) && changeDigest == ChangeDigestAfter(es)
  {
  }

  /** All of `m` recorded in the payload, with the bindings of the seats on `board`. */
  ghost predicate Reads(payload: map<string, InitEntry>, board: Identity, own: Inits) {
    && own.Keys == payload.Keys
    && forall id :: id in payload ==>
         var seat := FindSeat(board.seats, id);
         seat.Some? && ChainOk(payload[id].chain)
         && own[id] == Init(seat.value.backend, payload[id].chain, payload[id].effort)
  }

  lemma ParseReads(payload: map<string, InitEntry>, board: Identity, own: Inits)
    ensures ParseInits(payload, board) == Accepted(own) <==> Reads(payload, board, own)
  {
    hide FindSeat, ChainOk;
    if Reads(payload, board, own) { assert ParseInits(payload, board).value == own; }
  }

  lemma {:induction false} FindInitialized(seats: seq<Seat>, seats': seq<Seat>, inits: Inits, id: string)
    requires |seats'| == |seats| && forall i :: 0 <= i < |seats| ==> seats'[i] == ApplyInit(seats[i], inits)
    ensures FindSeat(seats', id)
            == if FindSeat(seats, id).None? then None else Some(ApplyInit(FindSeat(seats, id).value, inits))
    decreases |seats|
  {
    if seats != [] && seats[0].id != id { FindInitialized(seats[1..], seats'[1..], inits, id); }
  }

  /** Over bindings already known, a first initialization is allowed exactly for a seat without a model chain. */
  lemma MergeMeans(known: Inits, own: Inits, board: Identity, id: string)
    requires id in own && id !in known
    ensures var seat := FindSeat(ApplyInits(board, known).seats, id);
            seat.Some? && seat.value.chain.None?
            <==> FindSeat(board.seats, id).Some? && FindSeat(board.seats, id).value.chain.None?
  {
    FindInitialized(board.seats, ApplyInits(board, known).seats, known, id);
  }

  lemma StampMeans(root: Identity, governing: seq<Element>, r: Record, p: Progress, own: Inits)
    requires Reads(if r.init.Present? then r.init.value else map[], IdentityAfter(root, governing), own)
    ensures StampedRecord(root, governing, r, p).Accepted?
            <==> MergeAllowed(p.inits, own, Some(ApplyInits(IdentityAfter(root, governing), p.inits)))
                 && StampFits(root, governing, r, p.inits + own)
    ensures StampedRecord(root, governing, r, p).Accepted? ==>
              StampedRecord(root, governing, r, p).value.inits == p.inits + own
  {
    ParseReads(if r.init.Present? then r.init.value else map[], IdentityAfter(root, governing), own);
    NamesGoverningMeans(governing, r.amendmentDigest, r.changeDigest);
    hide ParseInits, MergeAllowed, ApplyInits, SeatBinding, WellFormed, NamesGoverning, AmendmentDigestAfter,
      ChangeDigestAfter;
  }

  lemma StampReads(root: Identity, governing: seq<Element>, r: Record, p: Progress) returns (own: Inits)
    requires StampedRecord(root, governing, r, p).Accepted?
    ensures Reads(if r.init.Present? then r.init.value else map[], IdentityAfter(root, governing), own)
  {
    hide MergeAllowed, ApplyInits, SeatBinding, WellFormed, AmendmentDigestAfter, ChangeDigestAfter, ParseInits, Reads;
    var payload := if r.init.Present? then r.init.value else map[];
    own := ParseInits(payload, IdentityAfter(root, governing)).value;
    ParseReads(payload, IdentityAfter(root, governing), own);
  }

  lemma LegacyMeans(root: Identity, governing: seq<Element>, r: Record, p: Progress)
    ensures LegacyRecord(root, governing, r, p).Accepted? <==> LegacyFits(root, governing, r)
    ensures LegacyRecord(root, governing, r, p).Accepted? ==> LegacyRecord(root, governing, r, p).value.inits == p.inits
  {
  }

  lemma LinkMeans(root: Identity, before: seq<Element>, link: Link, p: Progress, own: Inits)
    requires Reads(link.inits, link.newBoard, own)
    ensures LinkStep(root, before, link, p).Accepted?
            <==> MergeAllowed(p.inits, own, None) && LinkFits(root, before, link, p.inits)
    ensures LinkStep(root, before, link, p).Accepted? ==>
              LinkStep(root, before, link, p).value.inits == p.inits + own
  {
    ParseReads(link.inits, link.newBoard, own);
    hide ParseInits, MergeAllowed, ApplyInits, SeatBinding, BindingCompatible;
  }

  lemma LinkReads(root: Identity, before: seq<Element>, link: Link, p: Progress) returns (own: Inits)
    requires LinkStep(root, before, link, p).Accepted?
    ensures Reads(link.inits, link.newBoard, own)
  {
    hide MergeAllowed, ApplyInits, SeatBinding, BindingCompatible, ParseInits, Reads;
    own := ParseInits(link.inits, link.newBoard).value;
    ParseReads(link.inits, link.newBoard, own);
  }

  /** The bindings comment `n` adds to those known, and when they may be added. */
  lemma OwnFits(root: Identity, es: seq<Element>, h: History, n: nat, known: Inits, own: Inits)
    requires n < |h| && Reads(Payload(es, h, n), BoardOf(root, es, h, n), own)
    requires known == KnownBefore(es, h, n, known + own) && (h[n].RecordComment? || h[n].LinkComment?)
    requires forall id :: id in known ==> Recorded(es, h, n, id)
    ensures (forall id :: id in Payload(es, h, n) ==> EntryFits(root, es, h, n, known + own, id))
            <==> (forall id :: id in own ==>
                    if id in known then known[id] == own[id]
                    else h[n].RecordComment? ==>
                      FindSeat(BoardOf(root, es, h, n).seats, id).value.chain.None?)
  {
    hide Payload, BoardOf, ChainOk, FindSeat;
    forall id | id in Payload(es, h, n)
      ensures EntryFits(root, es, h, n, known + own, id)
              <==> if id in known then known[id] == own[id]
                   else h[n].RecordComment? ==> FindSeat(BoardOf(root, es, h, n).seats, id).value.chain.None?
    {
    }
  }

  /** What comment `n` may add to the bindings known before it. */
  ghost predicate Adds(root: Identity, es: seq<Element>, h: History, n: nat, known: Inits, own: Inits)
    requires n < |h|
  {
    && Reads(Payload(es, h, n), BoardOf(root, es, h, n), own)
    && MergeAllowed(known, own,
                    if h[n].RecordComment? then Some(ApplyInits(BoardOf(root, es, h, n), known)) else None)
  }

  lemma AddsFits(root: Identity, es: seq<Element>, h: History, n: nat, known: Inits, own: Inits)
    requires n < |h| && Reads(Payload(es, h, n), BoardOf(root, es, h, n), own)
    requires known == KnownBefore(es, h, n, known + own) && (h[n].RecordComment? || h[n].LinkComment?)
    requires forall id :: id in known ==> Recorded(es, h, n, id)
    ensures Adds(root, es, h, n, known, own)
            <==> forall id :: id in Payload(es, h, n) ==> EntryFits(root, es, h, n, known + own, id)
  {
    OwnFits(root, es, h, n, known, own);
    hide Payload, BoardOf, ChainOk, FindSeat, ApplyInits, EntryFits, Recorded, KnownBefore;
    var board := BoardOf(root, es, h, n);
    forall id | id in own && id !in known
      ensures FindSeat(board.seats, id).Some?
      ensures var seat := FindSeat(ApplyInits(board, known).seats, id);
              seat.Some? && seat.value.chain.None? <==> FindSeat(board.seats, id).value.chain.None?
    {
      MergeMeans(known, own, board, id);
    }
  }

  /** The bindings of `inits` that comment `n` records. */
  lemma OwnOf(root: Identity, es: seq<Element>, h: History, n: nat, inits: Inits) returns (own: Inits)
    requires n + 1 == |h| && forall id :: id in inits ==> Recorded(es, h, |h|, id)
    requires forall id :: id in Payload(es, h, n) ==> EntryFits(root, es, h, n, inits, id)
    ensures Reads(Payload(es, h, n), BoardOf(root, es, h, n), own)
    ensures KnownBefore(es, h, n, inits) + own == inits && KnownBefore(es, h, |h|, inits) == inits
  {
    hide Payload, BoardOf, ChainOk, FindSeat;
    own := map id | id in Payload(es, h, n) :: inits[id];
    forall id | id in inits && id !in own ensures Recorded(es, h, n, id) {
      var j :| 0 <= j < |h| && id in Payload(es, h, j);
    }
    assert KnownBefore(es, h, n, inits) + own == inits;
  }

  lemma StampedStep(root: Identity, es: seq<Element>, h: History, n: nat, p: Progress, own: Inits)
    requires n + 1 == |h| && h[n].RecordComment? && h[n].record.root.Present?
    requires Reads(Payload(es, h, n), BoardOf(root, es, h, n), own)
    ensures var step := CommentStep(root, es, n, h[n], p);
            && (step.Accepted? <==> Adds(root, es, h, n, p.inits, own)
                                    && StampFits(root, Under(es, h, n), h[n].record, p.inits + own))
            && (step.Accepted? ==> step.value.inits == p.inits + own)
  {
    StampMeans(root, Under(es, h, n), h[n].record, p, own);
    hide StampedRecord, StampFits, MergeAllowed, ApplyInits, Reads, GoverningCount;
  }

  lemma LinkedStep(root: Identity, es: seq<Element>, h: History, n: nat, p: Progress, own: Inits)
    requires n + 1 == |h| && h[n].LinkComment? && ElementAt(es, n)
    requires Reads(Payload(es, h, n), BoardOf(root, es, h, n), own)
    ensures var step := CommentStep(root, es, n, h[n], p);
            && (step.Accepted? <==> Adds(root, es, h, n, p.inits, own)
                                    && LinkFits(root, Under(es, h, n), h[n].link, p.inits))
            && (step.Accepted? ==> step.value.inits == p.inits + own)
  {
    LinkMeans(root, Under(es, h, n), h[n].link, p, own);
    hide LinkStep, LinkFits, MergeAllowed, ApplyInits, Reads, Before;
  }

  lemma KnownFacts(es: seq<Element>, h: History, n: nat, inits: Inits)
    requires n <= |h|
    ensures forall id :: id in KnownBefore(es, h, n, inits) ==> Recorded(es, h, n, id)
    ensures (forall id :: id in inits ==> Recorded(es, h, |h|, id)) ==> KnownBefore(es, h, |h|, inits) == inits
  {
    hide Recorded;
  }

  lemma StampedMeans(root: Identity, es: seq<Element>, h: History, n: nat, p: Progress, inits: Inits)
    requires n + 1 == |h| && p.inits == KnownBefore(es, h, n, inits) && h[n].RecordComment? && h[n].record.root.Present?
    requires forall id :: id in inits ==> Recorded(es, h, |h|, id)
    ensures CommentFits(root, es, h, n, inits)
            <==> CommentStep(root, es, n, h[n], p).Accepted? && CommentStep(root, es, n, h[n], p).value.inits == inits
  {
    KnownFacts(es, h, n, inits);
    hide Recorded, KnownBefore, StampFits, EntryFits, StampedRecord, GoverningCount, Reads, MergeAllowed, ApplyInits,
      Adds;
    var step := CommentStep(root, es, n, h[n], p);
    if CommentFits(root, es, h, n, inits) {
      var own := OwnOf(root, es, h, n, inits);
      AddsFits(root, es, h, n, p.inits, own);
      StampedStep(root, es, h, n, p, own);
    }
    if step.Accepted? && step.value.inits == inits {
      var own := StampReads(root, Under(es, h, n), h[n].record, p);
      StampedStep(root, es, h, n, p, own);
      AddsFits(root, es, h, n, p.inits, own);
    }
  }

  lemma LinkedMeans(root: Identity, es: seq<Element>, h: History, n: nat, p: Progress, inits: Inits)
    requires n + 1 == |h| && p.inits == KnownBefore(es, h, n, inits) && h[n].LinkComment? && ElementAt(es, n)
    requires forall id :: id in inits ==> Recorded(es, h, |h|, id)
    ensures CommentFits(root, es, h, n, inits)
            <==> CommentStep(root, es, n, h[n], p).Accepted? && CommentStep(root, es, n, h[n], p).value.inits == inits
  {
    KnownFacts(es, h, n, inits);
    hide Recorded, KnownBefore, LinkFits, EntryFits, LinkStep, Before, Reads, MergeAllowed, ApplyInits, Adds;
    var step := CommentStep(root, es, n, h[n], p);
    if CommentFits(root, es, h, n, inits) {
      var own := OwnOf(root, es, h, n, inits);
      AddsFits(root, es, h, n, p.inits, own);
      LinkedStep(root, es, h, n, p, own);
    }
    if step.Accepted? && step.value.inits == inits {
      var own := LinkReads(root, Under(es, h, n), h[n].link, p);
      LinkedStep(root, es, h, n, p, own);
      AddsFits(root, es, h, n, p.inits, own);
    }
  }

  lemma RecordsNothing(es: seq<Element>, h: History, n: nat, inits: Inits)
    requires n + 1 == |h| && Payload(es, h, n) == map[]
    requires forall id :: id in inits ==> Recorded(es, h, |h|, id)
    ensures KnownBefore(es, h, n, inits) == inits
  {
    hide Payload;
    forall id | id in inits ensures Recorded(es, h, n, id) {
      var j :| 0 <= j < |h| && id in Payload(es, h, j);
    }
  }

  /** One comment passes, leaving `inits` known, exactly when it fits `inits`. */
  lemma CommentMeans(root: Identity, es: seq<Element>, h: History, n: nat, p: Progress, inits: Inits)
    requires n + 1 == |h| && p.inits == KnownBefore(es, h, n, inits)
    requires forall id :: id in inits ==> Recorded(es, h, |h|, id)
    ensures CommentFits(root, es, h, n, inits)
            <==> CommentStep(root, es, n, h[n], p).Accepted? && CommentStep(root, es, n, h[n], p).value.inits == inits
  {
    hide Recorded, KnownBefore, StampFits, LinkFits, EntryFits, StampedRecord, LinkStep, GoverningCount, Before,
      ElementAt, LegacyFits, LegacyRecord;
    if h[n].RecordComment? && h[n].record.root.Present? {
      StampedMeans(root, es, h, n, p, inits);
    } else if h[n].LinkComment? && ElementAt(es, n) {
      LinkedMeans(root, es, h, n, p, inits);
    } else {
      RecordsNothing(es, h, n, inits);
      if h[n].RecordComment? { LegacyMeans(root, Under(es, h, n), h[n].record, p); }
    }
  }

  // --- Whole histories -----------------------------------------------------------------------

  lemma RecordedFront(es: seq<Element>, h: History, front: History, n: nat, id: string)
    requires n <= |front| <= |h| && front == h[..|front|]
    ensures Recorded(es, front, n, id) <==> Recorded(es, h, n, id)
  {
    assert forall j :: 0 <= j < |front| ==> front[j] == h[j];
    assert forall j :: 0 <= j < |front| ==> Payload(es, front, j) == Payload(es, h, j);
  }

  lemma SameComment(root: Identity, es: seq<Element>, h: History, front: History, i: nat)
    requires i < |front| && i < |h| && front[i] == h[i]
    ensures Payload(es, front, i) == Payload(es, h, i) && Under(es, front, i) == Under(es, h, i)
    ensures BoardOf(root, es, front, i) == BoardOf(root, es, h, i)
  {
  }

  /** What an earlier comment must say depends only on what had been recorded by then. */
  lemma FitsBefore(root: Identity, es: seq<Element>, h: History, i: nat, inits: Inits, known: Inits)
    requires i < |h| - 1 && known == KnownBefore(es, h, |h| - 1, inits)
    ensures CommentFits(root, es, h[..|h| - 1], i, known) <==> CommentFits(root, es, h, i, inits)
  {
    var front := h[..|h| - 1];
    assert front[i] == h[i];
    forall n, id | 0 <= n <= i + 1 ensures Recorded(es, front, n, id) <==> Recorded(es, h, n, id) {
      RecordedFront(es, h, front, n, id);
    }
    forall n, id | 0 <= n <= |h| - 1 && Recorded(es, h, n, id) ensures Recorded(es, h, |h| - 1, id) {
      var j :| 0 <= j < n && id in Payload(es, h, j);
    }
    hide Payload, StampFits, LegacyFits, LinkFits, ElementAt, BoardOf;
    SameComment(root, es, h, front, i);
    assert KnownBefore(es, front, i + 1, known) == KnownBefore(es, h, i + 1, inits);
    assert KnownBefore(es, front, i, known) == KnownBefore(es, h, i, inits);
  }

  lemma NothingRecorded(es: seq<Element>, inits: Inits)
    requires forall id :: id in inits ==> Recorded(es, [], 0, id)
    ensures inits == map[]
  {
  }

  /** A comment keeps every known binding and adds only what it records. */
  lemma StepGrows(root: Identity, es: seq<Element>, h: History, n: nat, p: Progress)
    requires n + 1 == |h| && CommentStep(root, es, n, h[n], p).Accepted?
    ensures var inits := CommentStep(root, es, n, h[n], p).value.inits;
            && (forall id :: id in p.inits ==> id in inits && inits[id] == p.inits[id])
            && (forall id :: id in inits ==> id in p.inits || id in Payload(es, h, n))
  {
    hide StampedRecord, LinkStep, GoverningCount, Before, ElementAt, LegacyRecord, StampFits, LinkFits, ApplyInits,
      FindSeat, ChainOk;
    if h[n].RecordComment? && h[n].record.root.Present? {
      var own := StampReads(root, Under(es, h, n), h[n].record, p);
      StampedStep(root, es, h, n, p, own);
    } else if h[n].LinkComment? && ElementAt(es, n) {
      var own := LinkReads(root, Under(es, h, n), h[n].link, p);
      LinkedStep(root, es, h, n, p, own);
    } else if h[n].RecordComment? {
      LegacyMeans(root, Under(es, h, n), h[n].record, p);
    }
  }

  lemma StepKnown(root: Identity, es: seq<Element>, h: History, p: Progress)
    requires h != [] && Explains(root, es, h[..|h| - 1], p.inits)
    requires CommentStep(root, es, |h| - 1, h[|h| - 1], p).Accepted?
    ensures var inits := CommentStep(root, es, |h| - 1, h[|h| - 1], p).value.inits;
            && p.inits == KnownBefore(es, h, |h| - 1, inits)
            && forall id :: id in inits ==> Recorded(es, h, |h|, id)
  {
    hide CommentStep, Payload, BoardOf, FindSeat, ChainOk, StampFits, LegacyFits, LinkFits, ElementAt;
    var n := |h| - 1;
    var front := h[..n];
    var inits := CommentStep(root, es, n, h[n], p).value.inits;
    StepGrows(root, es, h, n, p);
    forall id ensures Recorded(es, front, n, id) <==> Recorded(es, h, n, id) { RecordedFront(es, h, front, n, id); }
    forall id | Recorded(es, front, n, id) ensures id in p.inits {
      var j :| 0 <= j < n && id in Payload(es, front, j);
      assert CommentFits(root, es, front, j, p.inits) && EntryFits(root, es, front, j, p.inits, id);
    }
    forall id | id in inits ensures Recorded(es, h, |h|, id) {
      if id in p.inits {
        var j :| 0 <= j < n && id in Payload(es, h, j);
      }
    }
  }

  /**
   * The walk over a history, comment by comment, accepts it and ends with the bindings `inits` exactly when
   * `inits` are the bindings recorded in it and every comment fits what was recorded up to it.
   */
  lemma {:induction false} WalkExact(root: Identity, es: seq<Element>, h: History, inits: Inits)
    ensures Walk(root, es, h).Accepted? && Walk(root, es, h).value.inits == inits <==> Explains(root, es, h, inits)
    decreases |h|
  {
    hide CommentStep, CommentFits, Recorded;
    if h == [] {
      if Explains(root, es, h, inits) { NothingRecorded(es, inits); }
    } else {
      var n := |h| - 1;
      var front := h[..n];
      if Walk(root, es, h).Accepted? && Walk(root, es, h).value.inits == inits {
        var p := Walk(root, es, front).value;
        WalkExact(root, es, front, p.inits);
        StepKnown(root, es, h, p);
        CommentMeans(root, es, h, n, p, inits);
        forall i | 0 <= i < n ensures CommentFits(root, es, h, i, inits) {
          assert CommentFits(root, es, front, i, p.inits);
          FitsBefore(root, es, h, i, inits, p.inits);
        }
      }
      if Explains(root, es, h, inits) {
        var known := KnownBefore(es, h, n, inits);
        forall i | 0 <= i < n ensures CommentFits(root, es, front, i, known) {
          FitsBefore(root, es, h, i, inits, known);
        }
        forall id | id in known ensures Recorded(es, front, n, id) { RecordedFront(es, h, front, n, id); }
        WalkExact(root, es, front, known);
        CommentMeans(root, es, h, n, Walk(root, es, front).value, inits);
      }
    }
  }
}
