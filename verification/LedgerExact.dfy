/** What a reassigned item says, in full: its owners, their states, the words it keeps, and what is reported of it. */
module LedgerExact {
  import opened Common
  import opened Ledger

  // --- Owners and states -----------------------------------------------------------------------

  /** The amendment concerns the item: it is open, not converted, and a removed reviewer owns it. */
  predicate Concerned(item: Item, removed: set<string>) {
    && (item.status == Blocking || item.status == SamePlan || item.status == SamePr) && !item.converted
    && exists owner :: owner in Owners(item) && owner in removed
  }

  /** Only removed reviewers were still to clear the item, or only removed reviewers owned it. */
  predicate NeedsSuccessor(item: Item, removed: set<string>) {
    || ((exists owner :: owner in removed && IsPending(item, owner))
        && forall owner :: owner in Owners(item) && IsPending(item, owner) ==> owner in removed)
    || forall owner :: owner in Owners(item) ==> owner in removed
  }

  lemma ConcernedMeans(item: Item, removed: set<string>)
    ensures Touched(item, removed) <==> Concerned(item, removed)
  {
  }

  lemma NeedsMeans(item: Item, removed: set<string>)
    ensures Orphaned(item, removed) || Drop(Owners(item), removed) == [] <==> NeedsSuccessor(item, removed)
  {
    DropAll(Owners(item), removed);
    hide StateOf, Owners, Drop;
  }

  lemma DropAll(owners: seq<string>, removed: set<string>)
    ensures Drop(owners, removed) == [] <==> forall owner :: owner in owners ==> owner in removed
  {
    var kept := Drop(owners, removed);
    assert kept == [] <==> forall owner :: owner !in kept by {
      if kept != [] { assert kept[0] in kept; }
    }
  }

  /**
   * An item the amendment does not concern stays as it is.  Any other keeps its remaining owners in their states;
   * the successors join exactly when no remaining reviewer is left to clear it, and they start pending.
   */
  lemma ReassignExact(item: Item, removed: set<string>, successors: seq<string>, owner: string)
    requires successors != []
    ensures var view := Reassign(item, removed, successors);
            if !Concerned(item, removed) then view == item
            else
              && (owner in Owners(view)
                  <==> (owner in Owners(item) && owner !in removed)
                       || (owner in successors && NeedsSuccessor(item, removed)))
              && (owner in Owners(view) ==>
                    StateOf(view, owner)
                    == if owner in successors && NeedsSuccessor(item, removed) then Pending else StateOf(item, owner))
              && view.id == item.id && view.reviewer == item.reviewer && view.status == item.status && !view.converted
  {
    ConcernedMeans(item, removed);
    NeedsMeans(item, removed);
    if Touched(item, removed) {
      ReassignOwnership(item, removed, successors);
      NewOwnersMembers(item, removed, successors, owner);
    }
    hide Touched, Orphaned, NewOwners, Drop, StateOf, Concerned, NeedsSuccessor;
  }

  /** Remaining owners come first, in their order, and nobody is listed twice who was not before. */
  lemma OwnersInOrder(item: Item, removed: set<string>, successors: seq<string>)
    requires Concerned(item, removed) && successors != [] && NoDup(Owners(item)) && NoDup(successors)
    ensures var view := Reassign(item, removed, successors);
            NoDup(Owners(view)) && Drop(Owners(item), removed) <= Owners(view)
  {
    ConcernedMeans(item, removed);
    ReassignOwnership(item, removed, successors);
    var kept := Drop(Owners(item), removed);
    KeepNoDup(Owners(item), Elems(Owners(item)) - removed);
    DedupPrefix(kept, successors);
    hide Drop, Orphaned, Dedup;
  }

  lemma {:induction false} DedupPrefix(xs: seq<string>, ys: seq<string>)
    requires NoDup(xs)
    ensures xs <= Dedup(xs + ys)
    decreases |ys|
  {
    if ys == [] {
      assert xs + ys == xs;
      DedupDistinct(xs);
    } else {
      var n := |ys| - 1;
      DedupPrefix(xs, ys[..n]);
      assert xs + ys == (xs + ys[..n]) + [ys[n]];
      DedupLast(xs + ys[..n], ys[n]);
    }
  }

  lemma {:induction false} DedupDistinct(xs: seq<string>)
    requires NoDup(xs)
    ensures Dedup(xs) == xs
    decreases |xs|
  {
    if xs == [] {
      DedupEmpty(xs);
    } else {
      var n := |xs| - 1;
      DedupDistinct(xs[..n]);
      assert xs == xs[..n] + [xs[n]];
      DedupLast(xs[..n], xs[n]);
    }
  }

  // --- What is kept of evidence and dispositions -----------------------------------------------

  /** `kept` are the entries of `pairs` at the positions `at`: all that are not by a removed reviewer, in order. */
  ghost predicate KeepsOthers(
    pairs: seq<(string, string)>, removed: set<string>, kept: seq<(string, string)>, at: seq<nat>)
  {
    && |at| == |kept|
    && (forall i :: 0 <= i < |at| ==> at[i] < |pairs| && kept[i] == pairs[at[i]] && pairs[at[i]].0 !in removed)
    && (forall i, j :: 0 <= i < j < |at| ==> at[i] < at[j])
    && forall k: nat :: k < |pairs| && pairs[k].0 !in removed ==> Listed(at, k)
  }

  ghost predicate Listed(at: seq<nat>, k: nat) { k in at }

  lemma ListedMore(at: seq<nat>, n: nat)
    ensures forall k: nat :: Listed(at + [n], k) <==> Listed(at, k) || k == n
  {
  }

  lemma KeepsOthersMore(
    pairs: seq<(string, string)>, pair: (string, string), removed: set<string>, kept: seq<(string, string)>,
    at: seq<nat>)
    requires KeepsOthers(pairs, removed, kept, at)
    ensures if pair.0 in removed then KeepsOthers(pairs + [pair], removed, kept, at)
            else KeepsOthers(pairs + [pair], removed, kept + [pair], at + [|pairs|])
  {
    hide Listed;
    ListedMore(at, |pairs|);
  }

  lemma {:induction false} WithoutKeeps(pairs: seq<(string, string)>, removed: set<string>) returns (at: seq<nat>)
    ensures KeepsOthers(pairs, removed, Without(pairs, removed), at)
    decreases |pairs|
  {
    at := [];
    if pairs != [] {
      hide KeepsOthers;
      var n := |pairs| - 1;
      var front := WithoutKeeps(pairs[..n], removed);
      KeepsOthersMore(pairs[..n], pairs[n], removed, Without(pairs[..n], removed), front);
      assert pairs[..n] + [pairs[n]] == pairs;
      at := if pairs[n].0 in removed then front else front + [n];
    }
  }

  /** Evidence and dispositions of removed reviewers go; all others stay, in order. */
  lemma WordsKept(item: Item, removed: set<string>, successors: seq<string>)
    returns (evidence: seq<nat>, dispositions: seq<nat>)
    requires Concerned(item, removed)
    ensures KeepsOthers(item.evidence, removed, Reassign(item, removed, successors).evidence, evidence)
    ensures KeepsOthers(item.dispositions, removed, Reassign(item, removed, successors).dispositions, dispositions)
  {
    ConcernedMeans(item, removed);
    evidence := WithoutKeeps(item.evidence, removed);
    dispositions := WithoutKeeps(item.dispositions, removed);
    hide Without, KeepsOthers, NewOwners;
  }

  // --- What is reported ------------------------------------------------------------------------

  /** The report on one item: whom it lost, and whom it gained. */
  ghost predicate Reports(entry: Reassignment, item: Item, view: Item, removed: set<string>) {
    && entry.item == item.id
    && Elems(entry.removed) == Elems(Owners(item)) * removed
    && Elems(entry.newOwners) == Elems(Owners(view)) - (Elems(Owners(item)) - removed)
  }

  lemma EntryReports(item: Item, removed: set<string>, successors: seq<string>)
    requires Concerned(item, removed) && successors != []
    ensures Reports(Entry(item, removed, successors), item, Reassign(item, removed, successors), removed)
  {
    ConcernedMeans(item, removed);
    ReassignOwnership(item, removed, successors);
    hide NewOwners, Touched, Orphaned;
  }

  /** One report for each concerned item, in ledger order, and none for the others. */
  ghost predicate ReportsAt(
    entries: seq<Reassignment>, items: seq<Item>, removed: set<string>, successors: seq<string>, at: seq<nat>)
  {
    && |at| == |entries|
    && (forall i :: 0 <= i < |at| ==>
          && at[i] < |items| && Concerned(items[at[i]], removed)
          && Reports(entries[i], items[at[i]], Reassign(items[at[i]], removed, successors), removed))
    && (forall i, j :: 0 <= i < j < |at| ==> at[i] < at[j])
    && forall k: nat :: k < |items| && Concerned(items[k], removed) ==> Listed(at, k)
  }

  lemma ReportsMore(
    entries: seq<Reassignment>, items: seq<Item>, item: Item, removed: set<string>, successors: seq<string>,
    at: seq<nat>)
    requires successors != [] && ReportsAt(entries, items, removed, successors, at)
    ensures if !Concerned(item, removed) then ReportsAt(entries, items + [item], removed, successors, at)
            else ReportsAt(entries + [Entry(item, removed, successors)], items + [item], removed, successors,
                           at + [|items|])
  {
    hide Concerned, Reports, Reassign, Entry, Listed;
    ListedMore(at, |items|);
    if Concerned(item, removed) { EntryReports(item, removed, successors); }
  }

  lemma {:induction false} EntriesExact(items: seq<Item>, removed: set<string>, successors: seq<string>)
    returns (at: seq<nat>)
    requires successors != []
    ensures ReportsAt(Entries(items, removed, successors), items, removed, successors, at)
    decreases |items|
  {
    hide Concerned, Touched, Entry;
    at := [];
    if items != [] {
      hide ReportsAt;
      var n := |items| - 1;
      var front := EntriesExact(items[..n], removed, successors);
      ConcernedMeans(items[n], removed);
      ReportsMore(Entries(items[..n], removed, successors), items[..n], items[n], removed, successors, front);
      assert items[..n] + [items[n]] == items;
      at := if Concerned(items[n], removed) then front + [n] else front;
    }
  }
}
