/** The derived ledger view: removed reviewers' ownership of open findings, reassigned. */
module Ledger {
  import opened Common

  datatype Status = Blocking | SamePlan | SamePr | Inactive(text: string)
  datatype OwnerState = Pending | Cleared | Other(text: string)

  /** An unresolved finding; legacy items leave `owners` and `states` empty. */
  datatype Item = Item(
    id: string, reviewer: string, status: Status, converted: bool,
    owners: seq<string>, states: seq<(string, OwnerState)>,
    evidence: seq<(string, string)>, dispositions: seq<(string, string)>)

  datatype Reassignment = Reassignment(item: string, removed: seq<string>, newOwners: seq<string>)

  /** The last entry for `owner`, as a dictionary built from the pairs holds it. */
  function Lookup(states: seq<(string, OwnerState)>, owner: string): Option<OwnerState> {
    if states == [] then None
    else if states[|states| - 1].0 == owner then Some(states[|states| - 1].1)
    else Lookup(states[..|states| - 1], owner)
  }

  function Owners(item: Item): seq<string> {
    if item.owners == [] then [item.reviewer] else item.owners
  }

  /** An owner without a recorded state is pending. */
  function StateOf(item: Item, owner: string): OwnerState {
    var state := Lookup(item.states, owner);
    if state.Some? then state.value else Pending
  }

  predicate IsPending(item: Item, owner: string) {
    owner in Owners(item) && StateOf(item, owner) != Cleared
  }

  function States(owners: seq<string>, state: string -> OwnerState): seq<(string, OwnerState)> {
    seq(|owners|, i requires 0 <= i < |owners| => (owners[i], state(owners[i])))
  }

  function Without(pairs: seq<(string, string)>, removed: set<string>): seq<(string, string)> {
    if pairs == [] then []
    else
      var front := Without(pairs[..|pairs| - 1], removed);
      if pairs[|pairs| - 1].0 in removed then front else front + [pairs[|pairs| - 1]]
  }

  /** Whether the view rewrites `item` at all. */
  predicate Touched(item: Item, removed: set<string>) {
    !item.status.Inactive? && !item.converted && exists owner :: owner in Owners(item) && owner in removed
  }

  /** A removed reviewer was the last one the item was waiting for. */
  predicate Orphaned(item: Item, removed: set<string>) {
    && (exists owner :: owner in Owners(item) && owner in removed && StateOf(item, owner) != Cleared)
    && (forall owner :: owner in Owners(item) && owner !in removed ==> StateOf(item, owner) == Cleared)
  }

  function NewOwners(item: Item, removed: set<string>, successors: seq<string>): seq<string> {
    var kept := Drop(Owners(item), removed);
    if Orphaned(item, removed) then Dedup(kept + successors)
    else if kept == [] then successors
    else kept
  }

  function NewState(item: Item, removed: set<string>, successors: seq<string>, owner: string): OwnerState {
    if owner in successors && (Orphaned(item, removed) || Drop(Owners(item), removed) == []) then Pending
    else StateOf(item, owner)
  }

  /** `successors` is the primary, or every remaining reviewer when there is none. */
  function Reassign(item: Item, removed: set<string>, successors: seq<string>): Item {
    if !Touched(item, removed) then item
    else
      var owners := NewOwners(item, removed, successors);
      item.(owners := owners,
            states := States(owners, owner => NewState(item, removed, successors, owner)),
            evidence := Without(item.evidence, removed),
            dispositions := Without(item.dispositions, removed))
  }

  function Successors(primary: Option<string>, remaining: seq<string>): seq<string> {
    if primary.Some? then [primary.value] else remaining
  }

  function ReassignAll(items: seq<Item>, removed: set<string>, successors: seq<string>): seq<Item> {
    seq(|items|, i requires 0 <= i < |items| => Reassign(items[i], removed, successors))
  }

  function Entry(item: Item, removed: set<string>, successors: seq<string>): Reassignment {
    Reassignment(item.id, Keep(Owners(item), removed),
                 Drop(NewOwners(item, removed, successors), Elems(Drop(Owners(item), removed))))
  }

  function Entries(items: seq<Item>, removed: set<string>, successors: seq<string>): seq<Reassignment> {
    if items == [] then []
    else
      var front, last := Entries(items[..|items| - 1], removed, successors), items[|items| - 1];
      if Touched(last, removed) then front + [Entry(last, removed, successors)] else front
  }

  method ApplyBoardAmendmentToLedger(
    items: seq<Item>, removed: seq<string>, remaining: seq<string>, primary: Option<string>)
    returns (result: seq<Item>, reassignments: seq<Reassignment>)
    ensures result == ReassignAll(items, Elems(removed), Successors(primary, remaining))
    ensures reassignments == Entries(items, Elems(removed), Successors(primary, remaining))
  {
    hide Reassign, Touched, Entry;
    var gone, successors := Elems(removed), Successors(primary, remaining);
    result, reassignments := [], [];
    for i := 0 to |items|
      invariant result == ReassignAll(items[..i], gone, successors)
      invariant reassignments == Entries(items[..i], gone, successors)
    {
      assert items[..i + 1][..i] == items[..i];
      if Touched(items[i], gone) { reassignments := reassignments + [Entry(items[i], gone, successors)]; }
      result := result + [Reassign(items[i], gone, successors)];
    }
    assert items[..|items|] == items;
  }

  // --- What a rewritten item says -----------------------------------------------------------

  lemma {:induction false} LookupStates(owners: seq<string>, state: string -> OwnerState, owner: string)
    requires owner in owners
    ensures Lookup(States(owners, state), owner) == Some(state(owner))
  {
    var front, last := owners[..|owners| - 1], owners[|owners| - 1];
    assert States(owners, state)[..|owners| - 1] == States(front, state);
    if last != owner { LookupStates(front, state, owner); }
  }

  lemma ReassignedState(item: Item, removed: set<string>, successors: seq<string>, owner: string)
    requires Touched(item, removed) && owner in NewOwners(item, removed, successors)
    ensures StateOf(Reassign(item, removed, successors), owner) == NewState(item, removed, successors, owner)
  {
    hide NewOwners, NewState;
    LookupStates(NewOwners(item, removed, successors), o => NewState(item, removed, successors, o), owner);
  }

  lemma NewOwnersMembers(item: Item, removed: set<string>, successors: seq<string>, owner: string)
    requires successors != []
    ensures NewOwners(item, removed, successors) != []
    ensures owner in NewOwners(item, removed, successors)
            <==> (owner in Owners(item) && owner !in removed)
                 || (owner in successors && (Orphaned(item, removed) || Drop(Owners(item), removed) == []))
  {
    hide Orphaned;
    var kept := Drop(Owners(item), removed);
    assert owner in Dedup(kept + successors) <==> owner in Elems(Dedup(kept + successors));
    assert successors[0] in Elems(Dedup(kept + successors));
  }

  /** Removed reviewers own nothing, nothing pending is dropped, and a pending item keeps a pending owner. */
  lemma PendingNeverLost(item: Item, removed: set<string>, successors: seq<string>)
    requires !item.status.Inactive? && !item.converted
    requires successors != [] && Elems(successors) !! removed
    ensures var view := Reassign(item, removed, successors);
            && (forall owner :: owner in Owners(view) ==> owner !in removed)
            && (forall owner :: IsPending(item, owner) && owner !in removed ==> IsPending(view, owner))
            && ((exists owner :: IsPending(item, owner)) ==> exists owner :: IsPending(view, owner))
            && (forall owner :: owner in Owners(item) && owner !in removed && StateOf(item, owner) == Cleared ==>
                  StateOf(view, owner) == Cleared || Orphaned(item, removed))
  {
    hide NewOwners, Drop, Keep;
    if Touched(item, removed) {
      var view := Reassign(item, removed, successors);
      forall owner ensures owner in Owners(view) <==> owner in NewOwners(item, removed, successors) {
        NewOwnersMembers(item, removed, successors, owner);
      }
      forall owner | owner in Owners(view) ensures owner !in removed {
        NewOwnersMembers(item, removed, successors, owner);
        if owner in successors { assert owner in Elems(successors); }
      }
      forall owner | owner in Owners(item) && owner !in removed
        ensures owner in Owners(view) && StateOf(view, owner) == NewState(item, removed, successors, owner)
      {
        NewOwnersMembers(item, removed, successors, owner);
        ReassignedState(item, removed, successors, owner);
      }
      if exists owner :: IsPending(item, owner) {
        if Orphaned(item, removed) {
          NewOwnersMembers(item, removed, successors, successors[0]);
          ReassignedState(item, removed, successors, successors[0]);
          assert IsPending(view, successors[0]);
        } else {
          var owner :| IsPending(item, owner);
          if owner in removed {
            var other :| other in Owners(item) && other !in removed && StateOf(item, other) != Cleared;
            assert IsPending(view, other);
          } else {
            assert IsPending(view, owner);
          }
        }
      }
    }
  }

  /** Applying the same removal again changes nothing. */
  lemma ReassignIdempotent(item: Item, removed: set<string>, successors: seq<string>)
    requires successors != [] && Elems(successors) !! removed
    ensures Reassign(Reassign(item, removed, successors), removed, successors) == Reassign(item, removed, successors)
  {
    if Touched(item, removed) {
      PendingNeverLost(item, removed, successors);
    }
  }

  /** Same effective owners, in order, in the same states. */
  ghost predicate SameOwnership(a: Item, b: Item) {
    Owners(a) == Owners(b) && forall owner :: owner in Owners(a) ==> StateOf(a, owner) == StateOf(b, owner)
  }

  lemma NewOwnersTouch(item: Item, removed: set<string>, successors: seq<string>)
    requires !item.status.Inactive? && !item.converted && !Touched(item, removed)
    ensures Drop(Owners(item), removed) == Owners(item) && !Orphaned(item, removed)
  {
    DropNone(Owners(item), removed);
  }

  /** For an active item the rewrite can be read off `NewOwners` and `NewState`, touched or not. */
  lemma ReassignOwnership(item: Item, removed: set<string>, successors: seq<string>)
    requires !item.status.Inactive? && !item.converted && successors != []
    ensures Owners(Reassign(item, removed, successors)) == NewOwners(item, removed, successors)
    ensures forall owner :: owner in NewOwners(item, removed, successors) ==>
              StateOf(Reassign(item, removed, successors), owner) == NewState(item, removed, successors, owner)
  {
    if Touched(item, removed) {
      NewOwnersMembers(item, removed, successors, successors[0]);
      forall owner | owner in NewOwners(item, removed, successors)
        ensures StateOf(Reassign(item, removed, successors), owner) == NewState(item, removed, successors, owner)
      {
        ReassignedState(item, removed, successors, owner);
      }
    } else {
      NewOwnersTouch(item, removed, successors);
    }
  }

  /** How a first removal changes what a second one sees. */
  lemma OrphanedTwice(item: Item, r1: set<string>, r2: set<string>, s1: seq<string>, s2: seq<string>)
    requires !item.status.Inactive? && !item.converted
    requires s2 == Drop(s1, r2) && s2 != [] && Elems(s1) !! r1
    ensures var first := Reassign(item, r1, s1);
            && (Orphaned(item, r1 + r2) <==> Orphaned(item, r1) || Orphaned(first, r2))
            && !(Orphaned(item, r1) && Orphaned(first, r2))
            && Owners(first) == NewOwners(item, r1, s1)
            && (forall owner :: owner in Owners(first) ==> StateOf(first, owner) == NewState(item, r1, s1, owner))
  {
    hide NewOwners, Reassign, Drop;
    assert s2[0] in s1 && s2[0] !in r2;
    ReassignOwnership(item, r1, s1);
    forall owner ensures owner in NewOwners(item, r1, s1)
        <==> ((owner in Owners(item) && owner !in r1)
              || (owner in s1 && (Orphaned(item, r1) || Drop(Owners(item), r1) == []))) {
      NewOwnersMembers(item, r1, s1, owner);
    }
  }

  /**
   * Removals compose: with the successors fixed up to the second removal, taking
   * R1 away and then R2 leaves the same owners, in order, in the same states, as
   * taking R1 and R2 away together.
   */
  lemma ReassignComposes(item: Item, r1: set<string>, r2: set<string>, s1: seq<string>, s2: seq<string>)
    requires s2 == Drop(s1, r2) && s2 != [] && Elems(s1) !! r1
    ensures SameOwnership(Reassign(Reassign(item, r1, s1), r2, s2), Reassign(item, r1 + r2, s2))
  {
    hide NewOwners, NewState, Orphaned, StateOf, Drop;
    if item.status.Inactive? || item.converted { return; }
    var first := Reassign(item, r1, s1);
    assert s2[0] in s1;
    ReassignOwnership(item, r1, s1);
    ReassignOwnership(first, r2, s2);
    ReassignOwnership(item, r1 + r2, s2);
    OwnersCompose(item, r1, r2, s1, s2);
    StatesCompose(item, r1, r2, s1, s2);
  }

  lemma OwnersCompose(item: Item, r1: set<string>, r2: set<string>, s1: seq<string>, s2: seq<string>)
    requires !item.status.Inactive? && !item.converted
    requires s2 == Drop(s1, r2) && s2 != [] && Elems(s1) !! r1
    ensures NewOwners(Reassign(item, r1, s1), r2, s2) == NewOwners(item, r1 + r2, s2)
  {
    hide Orphaned, Reassign, Drop, NewState, StateOf, Lookup;
    var first := Reassign(item, r1, s1);
    OrphanedTwice(item, r1, r2, s1, s2);
    var kept := Drop(Owners(item), r1);
    DropTwice(Owners(item), r1, r2);
    if Orphaned(item, r1) {
      DropDedup(kept + s1, r2);
      DropConcat(kept, s1, r2);
      DedupHas(Drop(kept, r2), s2);
    } else if Orphaned(first, r2) {
      assert s2[0] in s1;
      FirstKept(item, r1, r2, s1);
    } else if kept == [] {
      DropEmpty(kept, r2);
    }
  }

  lemma NotOrphanedByPending(item: Item, removed: set<string>, owner: string)
    requires IsPending(item, owner) && owner !in removed
    ensures !Orphaned(item, removed)
  {
  }

  lemma DedupHas(xs: seq<string>, ys: seq<string>)
    requires ys != []
    ensures Dedup(xs + ys) != []
  {
    assert ys[0] in xs + ys;
    assert ys[0] in Elems(Dedup(xs + ys));
  }

  /** An item that a second removal orphans kept an owner through the first. */
  lemma FirstKept(item: Item, r1: set<string>, r2: set<string>, s1: seq<string>)
    requires !item.status.Inactive? && !item.converted && s1 != [] && Drop(s1, r2) != []
    requires !Orphaned(item, r1) && Orphaned(Reassign(item, r1, s1), r2)
    ensures Drop(Owners(item), r1) != []
  {
    hide Reassign, Drop;
    ReassignOwnership(item, r1, s1);
    if Drop(Owners(item), r1) == [] {
      NotOrphanedByPending(Reassign(item, r1, s1), r2, Drop(s1, r2)[0]);
    }
  }

  lemma StatesCompose(item: Item, r1: set<string>, r2: set<string>, s1: seq<string>, s2: seq<string>)
    requires !item.status.Inactive? && !item.converted
    requires s2 == Drop(s1, r2) && s2 != [] && Elems(s1) !! r1
    ensures forall owner :: owner in NewOwners(item, r1 + r2, s2) ==>
              NewState(Reassign(item, r1, s1), r2, s2, owner) == NewState(item, r1 + r2, s2, owner)
  {
    hide Reassign, Drop, NewOwners, Orphaned, StateOf;
    var first := Reassign(item, r1, s1);
    OrphanedTwice(item, r1, r2, s1, s2);
    OwnersCompose(item, r1, r2, s1, s2);
    DropTwice(Owners(item), r1, r2);
    forall owner | owner in NewOwners(item, r1 + r2, s2)
      ensures NewState(first, r2, s2, owner) == NewState(item, r1 + r2, s2, owner)
    {
      assert s2[0] in s1 && s2[0] !in r2;
      NewOwnersMembers(item, r1 + r2, s2, owner);
      NewOwnersMembers(item, r1, s1, owner);
      NewOwnersMembers(first, r2, s2, owner);
      NewOwnersMembers(item, r1, s1, s2[0]);
      assert owner in s2 ==> owner in s1 && owner !in r2;
      if Orphaned(first, r2) { FirstKept(item, r1, r2, s1); }
    }
  }

  /** The whole ledger: with a primary outside both removals, or the remaining board shrinking with them. */
  lemma LedgerComposes(
    items: seq<Item>, r1: set<string>, r2: set<string>, remaining: seq<string>, primary: Option<string>, i: nat)
    requires i < |items|
    requires if primary.Some? then primary.value !in r1 + r2 else Elems(remaining) !! r1 && Drop(remaining, r2) != []
    ensures var s1, s2 := Successors(primary, remaining), Successors(primary, Drop(remaining, r2));
            SameOwnership(ReassignAll(ReassignAll(items, r1, s1), r2, s2)[i], ReassignAll(items, r1 + r2, s2)[i])
  {
    hide Reassign, SameOwnership;
    var s1 := Successors(primary, remaining);
    if primary.Some? { DropNone(s1, r2); }
    ReassignComposes(items[i], r1, r2, s1, Successors(primary, Drop(remaining, r2)));
  }
}
