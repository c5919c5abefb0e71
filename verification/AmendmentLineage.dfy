/** What a chained amendment history says about each reviewer of the original board. */
module AmendmentLineage {
  import opened Common
  import opened BoardAmendment

  datatype Event = Left | Rejoined

  /** Reviewer `name`'s departures and returns along `chain`. */
  function Events(chain: seq<Posted>, name: string): seq<Event>
    decreases |chain|
  {
    if chain == [] then []
    else
      var record := chain[|chain| - 1].record;
      Events(chain[..|chain| - 1], name)
      + (if name in record.removed then [Left] else [])
      + (if name in record.restored then [Rejoined] else [])
  }

  /** Left, Rejoined, Left, ... */
  function Alternating(n: nat): (r: seq<Event>)
    ensures |r| == n
  {
    if n == 0 then [] else Alternating(n - 1) + [if n % 2 == 1 then Left else Rejoined]
  }

  function Last(contracts: seq<Contract>): Contract
    requires contracts != []
  {
    contracts[|contracts| - 1]
  }

  lemma AlternatingAt(n: nat, i: nat)
    requires i < n
    ensures Alternating(n)[i] == if i % 2 == 0 then Left else Rejoined
  {
    if i < n - 1 { AlternatingAt(n - 1, i); }
  }

  lemma AlternatingStep(n: nat)
    ensures Alternating(n) == if n == 0 then [] else Alternating(n - 1) + [if n % 2 == 1 then Left else Rejoined]
  {
  }

  /** What the last record of a chain adds to a reviewer's events, a record never both removing and restoring one. */
  lemma EventsStep(chain: seq<Posted>, name: string)
    ensures chain == [] ==> Events(chain, name) == []
    ensures chain != [] ==>
              var before, record := Events(chain[..|chain| - 1], name), chain[|chain| - 1].record;
              !(name in record.removed && name in record.restored) ==>
                Events(chain, name) == if name in record.removed then before + [Left]
                                       else if name in record.restored then before + [Rejoined] else before
  {
  }

  lemma RemovedByStep(chain: seq<Posted>, name: string)
    requires chain != []
    ensures name in RemovedBy(chain)
            <==> name in RemovedBy(chain[..|chain| - 1]) || name in chain[|chain| - 1].record.removed
  {
    var front := chain[..|chain| - 1];
    if name in RemovedBy(chain) && name !in chain[|chain| - 1].record.removed {
      var i :| 0 <= i < |chain| && name in chain[i].record.removed;
      assert front[i] == chain[i];
    }
    if name in RemovedBy(front) {
      var i :| 0 <= i < |front| && name in front[i].record.removed;
      assert front[i] == chain[i];
    }
  }

  lemma NothingRemoved(name: string)
    ensures name !in RemovedBy([])
  {
  }

  lemma ApplyAllNothing(contractOk: Contract -> bool, base: Contract)
    ensures ApplyAll(contractOk, base, []) == Accepted([base])
  {
  }

  /** What one accepted amendment does to one reviewer. */
  lemma AmendEffect(
    contractOk: Contract -> bool, current: Contract, a: Amendment,
    baseBoard: seq<string>, previouslyRemoved: set<string>, name: string)
    requires AmendContract(contractOk, current, a, baseBoard, previouslyRemoved).Accepted?
    requires forall n :: n in current.names ==> n in baseBoard
    ensures name in a.removed ==> name in current.names && name !in a.restored && current.primary != Some(name)
    ensures name in a.restored ==> name !in current.names && name in previouslyRemoved && name in baseBoard
    ensures var amended := AmendContract(contractOk, current, a, baseBoard, previouslyRemoved).value;
            amended == current.(names := AmendedBoard(a, baseBoard)) && amended.names != []
              && a.original == current.names
    ensures name in AmendContract(contractOk, current, a, baseBoard, previouslyRemoved).value.names
            <==> (name in current.names && name !in a.removed) || name in a.restored
  {
  }

  lemma BoardsWithinBase(contractOk: Contract -> bool, base: Contract, chain: seq<Posted>, i: nat, name: string)
    requires ApplyAll(contractOk, base, chain).Accepted? && i <= |chain|
    requires name in ApplyAll(contractOk, base, chain).value[i].names
    ensures name in base.names
  {
    if i > 0 { ApplyAllStep(contractOk, base, chain, i - 1); }
  }

  /** `AmendEffect` for the last record of a chain. */
  lemma LastStep(contractOk: Contract -> bool, base: Contract, chain: seq<Posted>, name: string)
    requires ApplyAll(contractOk, base, chain).Accepted? && chain != []
    ensures var front, record := chain[..|chain| - 1], chain[|chain| - 1].record;
            && ApplyAll(contractOk, base, front).Accepted?
            && var before := Last(ApplyAll(contractOk, base, front).value);
               var after := Last(ApplyAll(contractOk, base, chain).value);
               && (name in record.removed ==> name in before.names && name !in record.restored)
               && (name in record.restored ==> name !in before.names && name in RemovedBy(front) && name in base.names)
               && (name in after.names
                   <==> (name in before.names && name !in record.removed) || name in record.restored)
               && (before.primary == Some(name) ==> name !in record.removed)
               && after.names == AmendedBoard(record, base.names) != []
               && after == before.(names := after.names)
               && record.original == before.names
  {
    hide AmendContract, RemovedBy, AmendedBoard, ApplyAll;
    var front := chain[..|chain| - 1];
    ApplyAllPrefix(contractOk, base, chain, |front|);
    ApplyAllStep(contractOk, base, chain, |front|);
    var before := ApplyAll(contractOk, base, chain).value[|front|];
    forall n | n in before.names ensures n in base.names {
      BoardsWithinBase(contractOk, base, chain, |front|, n);
    }
    AmendEffect(contractOk, before, chain[|front|].record, base.names, RemovedBy(front), name);
  }

  /**
   * Every reviewer's events alternate, starting with a departure, and the
   * parity of their number decides whether the reviewer is on the board.
   */
  lemma {:induction false} EventsAlternate(
    contractOk: Contract -> bool, base: Contract, chain: seq<Posted>, name: string)
    requires ApplyAll(contractOk, base, chain).Accepted?
    ensures var events := Events(chain, name);
            && events == Alternating(|events|)
            && (events != [] ==> name in base.names)
            && (name in RemovedBy(chain) <==> events != [])
            && (name in Last(ApplyAll(contractOk, base, chain).value).names
                <==> name in base.names && |events| % 2 == 0)
    decreases |chain|
  {
    hide AmendContract, RemovedBy, AmendedBoard, ApplyAll, Events, Alternating;
    EventsStep(chain, name);
    AlternatingStep(|Events(chain, name)|);
    if chain == [] {
      ApplyAllNothing(contractOk, base);
      NothingRemoved(name);
    } else {
      LastStep(contractOk, base, chain, name);
      EventsAlternate(contractOk, base, chain[..|chain| - 1], name);
      RemovedByStep(chain, name);
    }
  }

  /** The reviewers whose last event along `chain` is a departure. */
  function Departed(base: Contract, chain: seq<Posted>): set<string> {
    set name | name in base.names && |Events(chain, name)| % 2 == 1
  }

  /**
   * The current board is C0 without the reviewers whose last event is a
   * departure, in C0's order; it is never empty and never loses the primary.
   */
  lemma {:induction false} BoardIsBaseMinusDeparted(contractOk: Contract -> bool, base: Contract, chain: seq<Posted>)
    requires ApplyAll(contractOk, base, chain).Accepted?
    requires base.names != [] && (base.primary.Some? ==> base.primary.value in base.names)
    ensures var current := Last(ApplyAll(contractOk, base, chain).value);
            && current.names == Drop(base.names, Departed(base, chain))
            && current.names != []
            && current == base.(names := current.names)
            && (base.primary.Some? ==> base.primary.value in current.names)
    decreases |chain|
  {
    forall name ensures name in base.names ==> (name in Elems(base.names) - Departed(base, chain)
                        <==> name in Last(ApplyAll(contractOk, base, chain).value).names) {
      EventsAlternate(contractOk, base, chain, name);
    }
    if chain == [] {
      KeepAll(base.names, Elems(base.names) - Departed(base, chain));
    } else {
      var front, record := chain[..|chain| - 1], chain[|chain| - 1].record;
      BoardIsBaseMinusDeparted(contractOk, base, front);
      LastStep(contractOk, base, chain, if base.primary.Some? then base.primary.value else "");
      KeepAgree(base.names, Elems(record.original) - Elems(record.removed) + Elems(record.restored),
                Elems(base.names) - Departed(base, chain));
    }
  }

  // --- Derived reports -----------------------------------------------------------

  function RemovedInOrder(chain: seq<Posted>): seq<string>
    decreases |chain|
  {
    if chain == [] then [] else RemovedInOrder(chain[..|chain| - 1]) + chain[|chain| - 1].record.removed
  }

  /** Reviewers the chain removed that are still off `board`, in removal order. */
  function RemovedReviewers(chain: seq<Posted>, board: seq<string>): seq<string> {
    Dedup(Drop(RemovedInOrder(chain), Elems(board)))
  }

  lemma {:induction false} RemovedInOrderElems(chain: seq<Posted>)
    ensures Elems(RemovedInOrder(chain)) == RemovedBy(chain)
    decreases |chain|
  {
    if chain != [] {
      RemovedInOrderElems(chain[..|chain| - 1]);
      forall name ensures name in Elems(RemovedInOrder(chain)) <==> name in RemovedBy(chain) {
        RemovedByStep(chain, name);
      }
    }
  }

  /** The reported removed reviewers are exactly C0 minus the current board, each named once. */
  lemma {:induction false} RemovedReviewersExact(contractOk: Contract -> bool, base: Contract, chain: seq<Posted>)
    requires ApplyAll(contractOk, base, chain).Accepted?
    ensures var board := Last(ApplyAll(contractOk, base, chain).value).names;
            && NoDup(RemovedReviewers(chain, board))
            && Elems(RemovedReviewers(chain, board)) == Elems(base.names) - Elems(board)
  {
    var board := Last(ApplyAll(contractOk, base, chain).value).names;
    RemovedInOrderElems(chain);
    forall name ensures name in RemovedReviewers(chain, board) <==> name in Elems(base.names) - Elems(board) {
      EventsAlternate(contractOk, base, chain, name);
      assert name in RemovedReviewers(chain, board) <==> name in Elems(RemovedReviewers(chain, board));
      assert name in RemovedInOrder(chain) <==> name in Elems(RemovedInOrder(chain));
    }
  }

  function WithRounds(rounds: map<string, int>, names: set<string>, round: int): map<string, int> {
    rounds + map name | name in names :: round
  }

  /** Restored reviewers on `board`, with the round of the restoration recorded last. */
  function RestorationRounds(chain: seq<Posted>, board: seq<string>): map<string, int>
    decreases |chain|
  {
    if chain == [] then map[]
    else
      var record := chain[|chain| - 1].record;
      WithRounds(RestorationRounds(chain[..|chain| - 1], board), Elems(record.restored) * Elems(board),
        record.effective)
  }

  function Max(a: int, b: int): int { if a < b then b else a }

  function GateStep(rounds: map<string, int>, record: Amendment): map<string, int> {
    rounds + map name | name in Elems(record.restored) ::
      Max(if name in rounds then rounds[name] else 0, record.effective)
  }

  /** The same report read from the signed posts alone, without chaining them. */
  function GateRounds(posts: seq<Posted>, flow: Flow): map<string, int>
    decreases |posts|
  {
    if posts == [] then map[]
    else
      var rounds, record := GateRounds(posts[..|posts| - 1], flow), posts[|posts| - 1].record;
      if record.flow == flow then GateStep(rounds, record) else rounds
  }

  method WithGateRounds(rounds: map<string, int>, record: Amendment) returns (r: map<string, int>)
    ensures r == GateStep(rounds, record)
  {
    r := rounds;
    for j := 0 to |record.restored|
      invariant r.Keys == rounds.Keys + Elems(record.restored[..j])
      invariant forall name :: name in r ==>
        r[name] == (var was := if name in rounds then rounds[name] else 0;
                    if name in Elems(record.restored[..j]) then Max(was, record.effective) else was)
    {
      var name := record.restored[j];
      assert Elems(record.restored[..j + 1]) == Elems(record.restored[..j]) + {name};
      r := r[name := Max(if name in r then r[name] else 0, record.effective)];
    }
    assert record.restored[..|record.restored|] == record.restored;
  }

  method RestorationRoundsFromComments(posts: seq<Posted>, flow: Flow) returns (rounds: map<string, int>)
    ensures rounds == GateRounds(posts, flow)
  {
    rounds := map[];
    for i := 0 to |posts|
      invariant rounds == GateRounds(posts[..i], flow)
    {
      assert posts[..i + 1][..i] == posts[..i];
      if posts[i].record.flow == flow {
        rounds := WithGateRounds(rounds, posts[i].record);
      }
    }
    assert posts[..|posts|] == posts;
  }

  /** `record` is among `posts` and restores `name` on `flow`. */
  ghost predicate Restores(posts: seq<Posted>, flow: Flow, name: string, record: Amendment) {
    record.flow == flow && name in record.restored && exists p :: p in posts && p.record == record
  }

  lemma {:induction false} GateRoundsIsLatest(posts: seq<Posted>, flow: Flow, name: string)
    requires forall p :: p in posts ==> p.record.effective >= 1
    ensures name in GateRounds(posts, flow) <==> exists record :: Restores(posts, flow, name, record)
    ensures name in GateRounds(posts, flow) ==>
              && (exists record :: Restores(posts, flow, name, record)
                   && record.effective == GateRounds(posts, flow)[name])
              && (forall record :: Restores(posts, flow, name, record) ==>
                   record.effective <= GateRounds(posts, flow)[name])
    decreases |posts|
  {
    if posts != [] {
      var front, last := posts[..|posts| - 1], posts[|posts| - 1];
      assert posts == front + [last];
      GateRoundsIsLatest(front, flow, name);
      forall record ensures Restores(posts, flow, name, record)
          <==> (Restores(front, flow, name, record)
                || (record == last.record && record.flow == flow && name in record.restored)) {
        if record == last.record { assert last in posts; }
      }
    }
  }

  lemma {:induction false} RestorationRoundsIsLatest(
    contractOk: Contract -> bool, base: Contract, chain: seq<Posted>, board: seq<string>, flow: Flow, name: string)
    requires ApplyAll(contractOk, base, chain).Accepted?
    requires forall p :: p in chain ==> p.record.flow == flow
    requires name in board
    ensures var rounds := RestorationRounds(chain, board);
            && (name in rounds <==> exists record :: Restores(chain, flow, name, record))
            && (name in rounds ==>
                && (exists record :: Restores(chain, flow, name, record) && record.effective == rounds[name])
                && (forall record :: Restores(chain, flow, name, record) ==> record.effective <= rounds[name]))
    decreases |chain|
  {
    hide ApplyAll;
    if chain != [] {
      var front, last := chain[..|chain| - 1], chain[|chain| - 1];
      assert chain == front + [last];
      ApplyAllPrefix(contractOk, base, chain, |front|);
      RestorationRoundsIsLatest(contractOk, base, front, board, flow, name);
      forall record ensures Restores(chain, flow, name, record)
          <==> Restores(front, flow, name, record) || (record == last.record && name in record.restored) {
        if record == last.record { assert last in chain; }
      }
      forall record | Restores(front, flow, name, record) ensures record.effective < last.record.effective {
        var p :| p in front && p.record == record;
        var i :| 0 <= i < |front| && front[i] == p;
        ChainIncreases(contractOk, base, chain, i, |front|);
      }
    }
  }

  // --- Collection, the lineage-free gate, activation ----------------------------------

  /** Discovery on one surface: another flow's record refuses; repeats keep the earliest post. */
  function CollectAmendments(posts: seq<Posted>, flow: Flow): Outcome<seq<Posted>>
    decreases |posts|
  {
    if posts == [] then Accepted([])
    else
      var front :- CollectAmendments(posts[..|posts| - 1], flow);
      var last := posts[|posts| - 1];
      if last.record.flow != flow then Refused
      else if exists q :: q in front && q.record == last.record then Accepted(front)
      else Accepted(front + [last])
  }

  lemma {:induction false} CollectKeepsRecords(posts: seq<Posted>, flow: Flow, name: string, record: Amendment)
    requires CollectAmendments(posts, flow).Accepted?
    ensures forall p :: p in posts ==> p.record.flow == flow
    ensures forall p :: p in CollectAmendments(posts, flow).value ==> p in posts
    ensures Restores(posts, flow, name, record) <==> Restores(CollectAmendments(posts, flow).value, flow, name, record)
    decreases |posts|
  {
    if posts != [] {
      var front, last := posts[..|posts| - 1], posts[|posts| - 1];
      CollectKeepsRecords(front, flow, name, record);
      assert posts == front + [last];
      if last.record == record && record.flow == flow && name in record.restored {
        var found := CollectAmendments(front, flow).value;
        if !exists q :: q in found && q.record == record {
          assert CollectAmendments(posts, flow).value == found + [last];
        }
      }
    }
  }

  /** Post `k` is the first of its record. */
  ghost predicate FirstOfRecord(posts: seq<Posted>, k: nat) {
    k < |posts| && forall j :: 0 <= j < k ==> posts[j].record != posts[k].record
  }

  /** `found` are the first posts of each record, at the positions `at`. */
  ghost predicate FirstPosts(posts: seq<Posted>, found: seq<Posted>, at: seq<nat>) {
    && |at| == |found|
    && (forall i :: 0 <= i < |at| ==> FirstOfRecord(posts, at[i]) && found[i] == posts[at[i]])
    && (forall i, j :: 0 <= i < j < |at| ==> at[i] < at[j])
    && forall k: nat :: FirstOfRecord(posts, k) ==> Listed(at, k)
  }

  ghost predicate Listed(at: seq<nat>, k: nat) { k in at }

  lemma ListedMore(at: seq<nat>, n: nat, k: nat)
    ensures Listed(at + [n], k) <==> Listed(at, k) || k == n
  {
  }

  lemma FirstOfMore(front: seq<Posted>, p: Posted, k: nat)
    ensures k < |front| ==> (FirstOfRecord(front + [p], k) <==> FirstOfRecord(front, k))
    ensures FirstOfRecord(front + [p], |front|) <==> !exists j :: 0 <= j < |front| && front[j].record == p.record
    ensures FirstOfRecord(front + [p], k) ==> k <= |front|
  {
    assert forall j :: 0 <= j < |front| ==> (front + [p])[j] == front[j];
  }

  lemma FirstPostsMore(front: seq<Posted>, p: Posted, found: seq<Posted>, at: seq<nat>) returns (more: seq<nat>)
    requires FirstPosts(front, found, at)
    ensures FirstPosts(front + [p], if exists q :: q in found && q.record == p.record then found else found + [p], more)
  {
    hide FirstOfRecord, Listed;
    var posts, n := front + [p], |front|;
    SeenBefore(front, found, at, p.record);
    OnlyPosts(front);
    forall k: nat
      ensures k < n ==> (FirstOfRecord(posts, k) <==> FirstOfRecord(front, k))
      ensures FirstOfRecord(posts, k) ==> k <= n
    {
      FirstOfMore(front, p, k);
    }
    FirstOfMore(front, p, n);
    forall k: nat ensures Listed(at + [n], k) <==> Listed(at, k) || k == n { ListedMore(at, n, k); }
    more := if FirstOfRecord(posts, n) then at + [n] else at;
  }

  lemma OnlyPosts(posts: seq<Posted>)
    ensures forall k: nat :: FirstOfRecord(posts, k) ==> k < |posts|
  {
  }

  /** Discovery succeeds exactly when every record is of this flow, and keeps, in order, the first post of each. */
  lemma {:induction false} CollectExact(posts: seq<Posted>, flow: Flow) returns (at: seq<nat>)
    ensures CollectAmendments(posts, flow).Accepted? <==> forall p :: p in posts ==> p.record.flow == flow
    ensures CollectAmendments(posts, flow).Accepted? ==> FirstPosts(posts, CollectAmendments(posts, flow).value, at)
    decreases |posts|
  {
    at := [];
    if posts != [] {
      var n := |posts| - 1;
      at := CollectExact(posts[..n], flow);
      assert posts == posts[..n] + [posts[n]];
      hide FirstPosts;
      if CollectAmendments(posts, flow).Accepted? {
        at := FirstPostsMore(posts[..n], posts[n], CollectAmendments(posts[..n], flow).value, at);
      }
    }
  }

  lemma SeenBefore(posts: seq<Posted>, found: seq<Posted>, at: seq<nat>, record: Amendment)
    requires |at| == |found| && forall i :: 0 <= i < |at| ==> FirstOfRecord(posts, at[i]) && found[i] == posts[at[i]]
    requires forall k: nat :: FirstOfRecord(posts, k) ==> Listed(at, k)
    ensures (exists q :: q in found && q.record == record)
            <==> exists j :: 0 <= j < |posts| && posts[j].record == record
  {
    if exists q :: q in found && q.record == record {
      var q :| q in found && q.record == record;
      var i :| 0 <= i < |found| && found[i] == q;
      assert posts[at[i]].record == record;
    }
    if exists j :: 0 <= j < |posts| && posts[j].record == record {
      var k := FirstWith(posts, record, |posts|);
      assert Listed(at, k);
      var i :| 0 <= i < |at| && at[i] == k;
      assert found[i] in found;
    }
  }

  lemma {:induction false} FirstWith(posts: seq<Posted>, record: Amendment, n: nat) returns (k: nat)
    requires n <= |posts| && exists j :: 0 <= j < n && posts[j].record == record
    ensures FirstOfRecord(posts, k) && posts[k].record == record
    decreases n
  {
    if exists j :: 0 <= j < n - 1 && posts[j].record == record {
      k := FirstWith(posts, record, n - 1);
    } else {
      k := n - 1;
    }
  }

  /**
   * When collection and chaining succeed, the gate that reads comments alone
   * gives every currently required reviewer the lineage's restoration round.
   */
  lemma {:induction false} GateRefinesLineage(
    contractOk: Contract -> bool, base: Contract, posts: seq<Posted>, chain: seq<Posted>, flow: Flow, name: string)
    requires forall p :: p in posts ==> p.record.effective >= 1
    requires CollectAmendments(posts, flow).Accepted?
    requires IsChainOf(contractOk, base, CollectAmendments(posts, flow).value, chain)
    requires name in Last(ApplyAll(contractOk, base, chain).value).names
    ensures var rounds := RestorationRounds(chain, Last(ApplyAll(contractOk, base, chain).value).names);
            && (name in GateRounds(posts, flow) <==> name in rounds)
            && (name in rounds ==> GateRounds(posts, flow)[name] == rounds[name])
  {
    var board, found := Last(ApplyAll(contractOk, base, chain).value).names, CollectAmendments(posts, flow).value;
    SameMembers(chain, found);
    forall record ensures Restores(posts, flow, name, record) <==> Restores(chain, flow, name, record) {
      CollectKeepsRecords(posts, flow, name, record);
    }
    CollectKeepsRecords(posts, flow, name, Amendment(flow, [], AllReviewers, None, [], [], 0, "", ""));
    GateRoundsIsLatest(posts, flow, name);
    RestorationRoundsIsLatest(contractOk, base, chain, board, flow, name);
  }

  lemma SameMembers(a: seq<Posted>, b: seq<Posted>)
    requires multiset(a) == multiset(b)
    ensures forall p :: p in a <==> p in b
  {
    forall p ensures p in a <==> p in b {
      assert p in a <==> p in multiset(a);
      assert p in b <==> p in multiset(b);
    }
  }

  /** The chained amendments no digest-bound record has used yet. */
  function Pending(chain: seq<Posted>, used: set<Amendment>): seq<Posted> {
    Keep(chain, set p | p in chain && p.record !in used)
  }

  predicate ActivationAllowed(pending: seq<Posted>, startRound: int) {
    forall p :: p in pending ==> p.record.effective == startRound
  }

  /** Activation passes only with nothing pending, or one amendment effective at the resumed round. */
  lemma {:induction false} ActivationNeedsOnePending(
    contractOk: Contract -> bool, base: Contract, chain: seq<Posted>, used: set<Amendment>, startRound: int)
    requires ApplyAll(contractOk, base, chain).Accepted?
    ensures var pending := Pending(chain, used);
            ActivationAllowed(pending, startRound)
            <==> pending == [] || (|pending| == 1 && pending[0].record.effective == startRound)
  {
    var pending := Pending(chain, used);
    forall i, j | 0 <= i < j < |chain| ensures chain[i] != chain[j] {
      ChainIncreases(contractOk, base, chain, i, j);
    }
    KeepNoDup(chain, set p | p in chain && p.record !in used);
    if ActivationAllowed(pending, startRound) && |pending| > 1 {
      assert pending[0] in pending && pending[1] in pending;
      var i :| 0 <= i < |chain| && chain[i] == pending[0];
      var j :| 0 <= j < |chain| && chain[j] == pending[1];
      if i < j {
        ChainIncreases(contractOk, base, chain, i, j);
      } else {
        ChainIncreases(contractOk, base, chain, j, i);
      }
    }
  }
}
