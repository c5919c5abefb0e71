/** Board identities, seat bindings, and the durable initialization of unknown bindings. */
module BoardIdentity {
  import opened Common
  import opened BoardAmendment

  datatype Backend = Claude | Codex | Gemini | Antigravity

  /** A reviewer seat; `chain` is `None` while its model binding is unknown. */
  datatype Seat = Seat(id: string, backend: Backend, chain: Option<seq<Option<string>>>, effort: Option<string>)

  datatype Identity = Identity(policy: Policy, primary: Option<string>, rules: seq<string>, seats: seq<Seat>)

  function Names(seats: seq<Seat>): (r: seq<string>)
    ensures |r| == |seats|
  {
    seq(|seats|, i requires 0 <= i < |seats| => seats[i].id)
  }

  function BoardNames(identity: Identity): seq<string> { Names(identity.seats) }

  predicate Valid(identity: Identity) {
    && identity.seats != []
    && NoDup(BoardNames(identity))
    && (identity.primary.Some? ==> identity.primary.value in BoardNames(identity))
  }

  predicate NonBlank(text: string) {
    exists i :: 0 <= i < |text| && text[i] !in " \t\n\r"
  }

  predicate ChainOk(chain: seq<Option<string>>) {
    chain != [] && forall i :: 0 <= i < |chain| && chain[i].Some? ==> NonBlank(chain[i].value)
  }

  predicate SeatOk(seat: Seat) {
    NonBlank(seat.id) && (seat.chain.Some? ==> ChainOk(seat.chain.value))
  }

  /** What decoding a persisted identity accepts. */
  predicate WellFormed(identity: Identity) {
    Valid(identity) && forall seat :: seat in identity.seats ==> SeatOk(seat)
  }

  function FindSeat(seats: seq<Seat>, id: string): (r: Option<Seat>)
    ensures r.None? <==> id !in Names(seats)
    ensures r.Some? ==> r.value in seats && r.value.id == id
  {
    if seats == [] then None
    else if seats[0].id == id then
      assert Names(seats)[0] == id;
      Some(seats[0])
    else
      assert Names(seats) == [seats[0].id] + Names(seats[1..]);
      FindSeat(seats[1..], id)
  }

  lemma {:induction false} FindSeatUnique(seats: seq<Seat>, seat: Seat)
    requires NoDup(Names(seats)) && seat in seats
    ensures FindSeat(seats, seat.id) == Some(seat)
  {
    var found := FindSeat(seats, seat.id);
    var i :| 0 <= i < |seats| && seats[i] == seat;
    assert Names(seats)[i] == seat.id;
    var j :| 0 <= j < |seats| && seats[j] == found.value;
    assert Names(seats)[j] == seat.id;
  }

  function ContractOf(identity: Identity): Contract {
    Contract(identity.policy, identity.primary, identity.rules, BoardNames(identity))
  }

  function DisplayName(backend: Backend): string {
    match backend
    case Claude => "Claude"
    case Codex => "Codex"
    case Gemini => "Gemini"
    case Antigravity => "Antigravity"
  }

  /** Named boards persist their whole seat list; boards of plain seats persist none. */
  function SeatBinding(identity: Identity): Option<seq<Seat>> {
    if exists seat :: seat in identity.seats && seat.id != DisplayName(seat.backend) then Some(identity.seats) else None
  }

  predicate SeatsCompatible(a: Seat, b: Seat) {
    && a.id == b.id && a.backend == b.backend
    && (a.chain.None? || b.chain.None? || (a.chain == b.chain && a.effort == b.effort))
  }

  predicate BindingCompatible(a: Identity, b: Identity) {
    && a.policy == b.policy && a.primary == b.primary && a.rules == b.rules
    && BoardNames(a) == BoardNames(b)
    && forall i :: 0 <= i < |a.seats| && i < |b.seats| ==> SeatsCompatible(a.seats[i], b.seats[i])
  }

  // --- Binding initializations ---------------------------------------------------

  /** The first durable binding recorded for a seat whose binding was unknown. */
  datatype Init = Init(backend: Backend, chain: seq<Option<string>>, effort: Option<string>)
  datatype InitEntry = InitEntry(chain: seq<Option<string>>, effort: Option<string>)
  type Inits = map<string, Init>

  function ApplyInit(seat: Seat, inits: Inits): (r: Seat)
    ensures r.id == seat.id && r.backend == seat.backend
    ensures seat.chain.Some? ==> r == seat
  {
    if seat.chain.None? && seat.id in inits && inits[seat.id].backend == seat.backend
    then Seat(seat.id, seat.backend, Some(inits[seat.id].chain), inits[seat.id].effort)
    else seat
  }

  function ApplyInits(identity: Identity, inits: Inits): (r: Identity)
    ensures BoardNames(r) == BoardNames(identity)
    ensures |r.seats| == |identity.seats| && r == identity.(seats := r.seats)
  {
    var seats := seq(|identity.seats|, i requires 0 <= i < |identity.seats| => ApplyInit(identity.seats[i], inits));
    assert Names(seats) == Names(identity.seats);
    identity.(seats := seats)
  }

  /** The configured binding that would initialize seat `id` of `view`. */
  function PendingInit(view: Identity, configured: Identity, id: string): Option<Init> {
    var seat :- FindSeat(view.seats, id);
    var target :- FindSeat(configured.seats, id);
    if seat.chain.None? && target.backend == seat.backend && target.chain.Some?
    then Some(Init(target.backend, target.chain.value, target.effort))
    else None
  }

  function PendingInits(view: Identity, configured: Identity): Inits {
    map id | id in Elems(BoardNames(view)) && PendingInit(view, configured, id).Some? ::
      PendingInit(view, configured, id).value
  }

  function InitPayload(inits: Inits): map<string, InitEntry> {
    map id | id in inits :: InitEntry(inits[id].chain, inits[id].effort)
  }

  /** Every entry must name a seat of `board` and carry a usable model chain. */
  function ParseInits(entries: map<string, InitEntry>, board: Identity): Outcome<Inits> {
    if exists id :: id in entries && (FindSeat(board.seats, id).None? || !ChainOk(entries[id].chain)) then Refused
    else Accepted(map id | id in entries ::
      Init(FindSeat(board.seats, id).value.backend, entries[id].chain, entries[id].effort))
  }

  /** Whether `added` may be recorded over `inits`; `view`, when given, must still lack the binding. */
  predicate MergeAllowed(inits: Inits, added: Inits, view: Option<Identity>) {
    forall id :: id in added ==>
      if id in inits then inits[id] == added[id]
      else view.Some? ==>
        var seat := FindSeat(view.value.seats, id);
        seat.Some? && seat.value.chain.None?
  }

  method MergeInits(inits: Inits, added: Inits, view: Option<Identity>) returns (r: Outcome<Inits>)
    ensures r == if MergeAllowed(inits, added, view) then Accepted(inits + added) else Refused
  {
    hide FindSeat;
    var merged, todo := inits, added.Keys;
    while todo != {}
      invariant todo <= added.Keys
      invariant merged.Keys == inits.Keys + (added.Keys - todo)
      invariant forall id :: id in inits ==> merged[id] == inits[id]
      invariant forall id :: id in added && id !in todo ==> merged[id] == added[id]
      invariant forall id :: id in added && id !in todo && id !in inits && view.Some? ==>
                  FindSeat(view.value.seats, id).Some? && FindSeat(view.value.seats, id).value.chain.None?
    {
      var id :| id in todo;
      if id in merged {
        if merged[id] != added[id] { return Refused; }
      } else if view.Some? {
        var seat := FindSeat(view.value.seats, id);
        if seat.None? || seat.value.chain.Some? { return Refused; }
      }
      merged, todo := merged[id := added[id]], todo - {id};
    }
    assert merged == inits + added;
    return Accepted(merged);
  }

  // --- Facts about initialization --------------------------------------------------

  /** Applying further initializations on top of a view is applying them all at once. */
  lemma ApplyInitsTwice(identity: Identity, inits: Inits, added: Inits)
    requires forall id :: id in added && id in inits ==> added[id] == inits[id]
    ensures ApplyInits(ApplyInits(identity, inits), added) == ApplyInits(identity, inits + added)
  {
    var once, both := ApplyInits(identity, inits), ApplyInits(identity, inits + added);
    assert ApplyInits(once, added).seats == both.seats;
  }

  lemma ApplyInitsKnown(identity: Identity, inits: Inits)
    requires forall seat :: seat in identity.seats ==> seat.chain.Some?
    ensures ApplyInits(identity, inits) == identity
  {
    assert ApplyInits(identity, inits).seats == identity.seats;
  }

  predicate InitsOk(inits: Inits) {
    forall id :: id in inits ==> ChainOk(inits[id].chain)
  }

  lemma ApplyInitsWellFormed(identity: Identity, inits: Inits)
    requires WellFormed(identity) && InitsOk(inits)
    ensures WellFormed(ApplyInits(identity, inits))
  {
    forall seat | seat in ApplyInits(identity, inits).seats ensures SeatOk(seat) {
      var i :| 0 <= i < |identity.seats| && ApplyInit(identity.seats[i], inits) == seat;
      assert identity.seats[i] in identity.seats;
    }
  }

  /** The writer's payload of pending initializations reads back as those initializations. */
  lemma PendingInitsRoundTrip(view: Identity, configured: Identity, board: Identity)
    requires WellFormed(configured)
    requires forall id :: id in PendingInits(view, configured) ==>
      FindSeat(board.seats, id).Some?
        && FindSeat(board.seats, id).value.backend == PendingInits(view, configured)[id].backend
    ensures ParseInits(InitPayload(PendingInits(view, configured)), board) == Accepted(PendingInits(view, configured))
    ensures InitsOk(PendingInits(view, configured))
  {
    hide ChainOk, FindSeat;
    var added := PendingInits(view, configured);
    forall id | id in added ensures ChainOk(added[id].chain) { PendingChainOk(view, configured, id); }
    PayloadParses(added, board);
  }

  lemma PendingChainOk(view: Identity, configured: Identity, id: string)
    requires WellFormed(configured) && PendingInit(view, configured, id).Some?
    ensures ChainOk(PendingInit(view, configured, id).value.chain)
  {
    hide ChainOk;
    assert FindSeat(configured.seats, id).value in configured.seats;
  }

  lemma PayloadParses(added: Inits, board: Identity)
    requires InitsOk(added)
    requires forall id :: id in added ==>
      FindSeat(board.seats, id).Some? && FindSeat(board.seats, id).value.backend == added[id].backend
    ensures ParseInits(InitPayload(added), board) == Accepted(added)
  {
    hide ChainOk, FindSeat;
    assert ParseInits(InitPayload(added), board).value == added;
  }

  // --- What bindings mean -------------------------------------------------------------------------

  /** `c` is a known seat that `a` may turn out to be. */
  predicate MayBe(a: Seat, c: Seat) {
    c.chain.Some? && (a == c || (a.chain.None? && a.id == c.id && a.backend == c.backend))
  }

  /** Two seats are compatible exactly when they may turn out to be the same known seat. */
  lemma CompatibleExact(a: Seat, b: Seat)
    ensures SeatsCompatible(a, b) <==> exists c :: MayBe(a, c) && MayBe(b, c)
  {
    if SeatsCompatible(a, b) {
      var c := if a.chain.Some? then a else if b.chain.Some? then b else a.(chain := Some([]));
      assert MayBe(a, c) && MayBe(b, c);
    }
  }

  /** Boards are compatible exactly when policy, primary and rules agree and their seats pair off compatibly. */
  lemma BindingCompatibleExact(a: Identity, b: Identity)
    ensures BindingCompatible(a, b)
            <==> && (a.policy, a.primary, a.rules) == (b.policy, b.primary, b.rules) && |a.seats| == |b.seats|
                 && forall i :: 0 <= i < |a.seats| ==> SeatsCompatible(a.seats[i], b.seats[i])
  {
    if |a.seats| == |b.seats| && forall i :: 0 <= i < |a.seats| ==> SeatsCompatible(a.seats[i], b.seats[i]) {
      assert BoardNames(a) == BoardNames(b);
    }
    if BindingCompatible(a, b) { assert |BoardNames(a)| == |BoardNames(b)|; }
  }

  /** A board persists its seats exactly when one goes by another name than its backend's. */
  lemma SeatBindingExact(identity: Identity)
    ensures SeatBinding(identity) == None
            <==> forall i :: 0 <= i < |identity.seats| ==>
                   identity.seats[i].id == match identity.seats[i].backend
                                           case Claude => "Claude" case Codex => "Codex"
                                           case Gemini => "Gemini" case Antigravity => "Antigravity"
    ensures SeatBinding(identity) != None ==> SeatBinding(identity) == Some(identity.seats)
  {
    if forall i :: 0 <= i < |identity.seats| ==> identity.seats[i].id == DisplayName(identity.seats[i].backend) {
      forall seat | seat in identity.seats ensures seat.id == DisplayName(seat.backend) {
        var i :| 0 <= i < |identity.seats| && identity.seats[i] == seat;
      }
    } else {
      var i :| 0 <= i < |identity.seats| && identity.seats[i].id != DisplayName(identity.seats[i].backend);
      assert identity.seats[i] in identity.seats;
    }
  }

  /** The pending initializations make every seat whose binding was unknown the one the configured board knows for it,
      on the same backend, and leave all others alone. */
  lemma PendingCompletes(view: Identity, configured: Identity, i: nat)
    requires i < |view.seats|
    ensures var seat, target := view.seats[i], FindSeat(configured.seats, view.seats[i].id);
            var made := ApplyInits(view, PendingInits(view, configured)).seats[i];
            NoDup(BoardNames(view)) ==>
              made == if seat.chain.None? && target.Some? && target.value.backend == seat.backend
                         && target.value.chain.Some?
                      then target.value else seat
  {
    var seat := view.seats[i];
    assert BoardNames(view)[i] == seat.id;
    if NoDup(BoardNames(view)) {
      FindSeatUnique(view.seats, seat);
      hide Names, FindSeat, NoDup;
      var pending := PendingInit(view, configured, seat.id);
      assert seat.id in PendingInits(view, configured) <==> pending.Some?;
    }
  }
}
