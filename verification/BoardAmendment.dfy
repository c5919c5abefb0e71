/** Signed reviewer-board amendments: applying one to a contract, and chaining them. */
module BoardAmendment {
  import opened Common

  datatype Policy = AllReviewers | SelectiveIntermediate | PrimaryThenPanel

  /** A scheduler contract; its own constructor checks are the `contractOk` parameters below. */
  datatype Contract = Contract(policy: Policy, primary: Option<string>, rules: seq<string>, names: seq<string>)

  datatype Flow = PlanFlow | PrFlow

  /** One signed record.  Its digest covers exactly these fields. */
  datatype Amendment = Amendment(
    flow: Flow,
    original: seq<string>, policy: Policy, primary: Option<string>,
    removed: seq<string>, restored: seq<string>, effective: int,
    reason: string, rationale: string)

  /** A record together with the position of the comment that carries it. */
  datatype Posted = Posted(index: int, record: Amendment)

  function AmendedBoard(a: Amendment, baseBoard: seq<string>): seq<string> {
    Keep(baseBoard, Elems(a.original) - Elems(a.removed) + Elems(a.restored))
  }

  function AmendContract(
    contractOk: Contract -> bool, current: Contract, a: Amendment,
    baseBoard: seq<string>, previouslyRemoved: set<string>): (r: Outcome<Contract>)
  {
    if a.original != current.names || a.policy != current.policy || a.primary != current.primary then Refused
    else if exists name :: name in a.removed && name !in current.names then Refused
    else if a.primary.Some? && a.primary.value in a.removed then Refused
    else if exists name :: name in a.restored && name in current.names then Refused
    else if exists name :: name in a.restored && (name !in previouslyRemoved || name !in baseBoard) then Refused
    else
      var remaining := AmendedBoard(a, baseBoard);
      if remaining == [] then Refused
      else
        var amended := current.(names := remaining);
        if contractOk(amended) then Accepted(amended) else Refused
  }

  // --- The chain, read in comment order ---------------------------------------

  function RemovedBy(chain: seq<Posted>): set<string> {
    set i, name | 0 <= i < |chain| && name in chain[i].record.removed :: name
  }

  predicate Follows(chain: seq<Posted>, next: Posted) {
    chain == [] || (chain[|chain| - 1].record.effective < next.record.effective
                    && chain[|chain| - 1].index < next.index)
  }

  /**
   * The contracts C0..Cn obtained by applying `chain` one record after another,
   * each strictly later in comment position and effective round than the one before.
   */
  function ApplyAll(contractOk: Contract -> bool, base: Contract, chain: seq<Posted>): (r: Outcome<seq<Contract>>)
    ensures r.Accepted? ==> |r.value| == |chain| + 1 && r.value[0] == base
    decreases |chain|
  {
    if chain == [] then Accepted([base])
    else
      var front, next := chain[..|chain| - 1], chain[|chain| - 1];
      var contracts :- ApplyAll(contractOk, base, front);
      if !Follows(front, next) then Refused
      else
        var amended :- AmendContract(contractOk, contracts[|front|], next.record, base.names, RemovedBy(front));
        Accepted(contracts + [amended])
  }

  /** `chain` is `records` in some order, and applies from `base`. */
  ghost predicate IsChainOf(contractOk: Contract -> bool, base: Contract, records: seq<Posted>, chain: seq<Posted>) {
    multiset(chain) == multiset(records) && ApplyAll(contractOk, base, chain).Accepted?
  }

  lemma {:induction false} ApplyAllPrefix(contractOk: Contract -> bool, base: Contract, chain: seq<Posted>, n: nat)
    requires n <= |chain|
    requires ApplyAll(contractOk, base, chain).Accepted?
    ensures ApplyAll(contractOk, base, chain[..n]).Accepted?
    ensures ApplyAll(contractOk, base, chain[..n]).value == ApplyAll(contractOk, base, chain).value[..n + 1]
    decreases |chain|
  {
    if n == |chain| {
      assert chain[..n] == chain;
    } else {
      var front := chain[..|chain| - 1];
      ApplyAllPrefix(contractOk, base, front, n);
      assert front[..n] == chain[..n];
    }
  }

  /** What each accepted step of a chain checked. */
  lemma {:induction false} ApplyAllStep(contractOk: Contract -> bool, base: Contract, chain: seq<Posted>, i: nat)
    requires i < |chain|
    requires ApplyAll(contractOk, base, chain).Accepted?
    ensures var contracts := ApplyAll(contractOk, base, chain).value;
            Follows(chain[..i], chain[i])
            && AmendContract(contractOk, contracts[i], chain[i].record, base.names, RemovedBy(chain[..i]))
               == Accepted(contracts[i + 1])
  {
    hide AmendContract, RemovedBy;
    ApplyAllPrefix(contractOk, base, chain, i + 1);
    ApplyAllPrefix(contractOk, base, chain, i);
    assert chain[..i + 1][..i] == chain[..i];
  }

  /** Comment positions and effective rounds both increase strictly along a chain. */
  lemma {:induction false} ChainIncreases(
    contractOk: Contract -> bool, base: Contract, chain: seq<Posted>, i: nat, j: nat)
    requires i < j < |chain|
    requires ApplyAll(contractOk, base, chain).Accepted?
    ensures chain[i].index < chain[j].index
    ensures chain[i].record.effective < chain[j].record.effective
    decreases j
  {
    hide AmendContract, RemovedBy, ApplyAll;
    ApplyAllStep(contractOk, base, chain, j);
    if i < j - 1 {
      ChainIncreases(contractOk, base, chain, i, j - 1);
    }
  }

  ghost predicate Increasing(posted: seq<Posted>) {
    forall i, j :: 0 <= i < j < |posted| ==> posted[i].index < posted[j].index
  }

  lemma LastIsLatest(posted: seq<Posted>, x: Posted)
    requires x in posted && Increasing(posted)
    ensures x == posted[|posted| - 1] || x.index < posted[|posted| - 1].index
  {
  }

  lemma FrontMultiset(xs: seq<Posted>)
    requires xs != []
    ensures multiset(xs[..|xs| - 1]) == multiset(xs) - multiset{xs[|xs| - 1]}
  {
    assert xs == xs[..|xs| - 1] + [xs[|xs| - 1]];
  }

  lemma SameLast(a: seq<Posted>, b: seq<Posted>)
    requires Increasing(a) && Increasing(b) && multiset(a) == multiset(b) && a != [] && b != []
    ensures a[|a| - 1] == b[|b| - 1]
  {
    hide Increasing;
    var x, y := a[|a| - 1], b[|b| - 1];
    assert x in multiset(a) && y in multiset(b);
    assert x in b && y in a;
    LastIsLatest(b, x);
    LastIsLatest(a, y);
  }

  lemma IncreasingFront(posted: seq<Posted>)
    requires Increasing(posted) && posted != []
    ensures Increasing(posted[..|posted| - 1])
  {
  }

  /** Comment position orders a collection of records in at most one way. */
  lemma {:induction false} IncreasingUnique(a: seq<Posted>, b: seq<Posted>)
    requires Increasing(a) && Increasing(b) && multiset(a) == multiset(b)
    ensures a == b
    decreases |a|
  {
    hide Increasing;
    assert |a| == |multiset(a)| == |multiset(b)| == |b|;
    if a != [] {
      var n := |a| - 1;
      SameLast(a, b);
      FrontMultiset(a);
      FrontMultiset(b);
      IncreasingFront(a);
      IncreasingFront(b);
      IncreasingUnique(a[..n], b[..n]);
      assert a == a[..n] + [a[n]] && b == b[..n] + [b[n]];
    }
  }

  lemma ChainIsIncreasing(contractOk: Contract -> bool, base: Contract, chain: seq<Posted>)
    requires ApplyAll(contractOk, base, chain).Accepted?
    ensures Increasing(chain)
  {
    hide ApplyAll;
    forall i, j | 0 <= i < j < |chain| ensures chain[i].index < chain[j].index {
      ChainIncreases(contractOk, base, chain, i, j);
    }
  }

  /** There is at most one way to chain a given collection of records. */
  lemma ChainUnique(contractOk: Contract -> bool, base: Contract, a: seq<Posted>, b: seq<Posted>)
    requires multiset(a) == multiset(b)
    requires ApplyAll(contractOk, base, a).Accepted? && ApplyAll(contractOk, base, b).Accepted?
    ensures a == b
  {
    hide ApplyAll, Increasing;
    ChainIsIncreasing(contractOk, base, a);
    ChainIsIncreasing(contractOk, base, b);
    IncreasingUnique(a, b);
  }

  lemma MultisetCancel(common: multiset<Posted>, a: multiset<Posted>, b: multiset<Posted>)
    requires common + a == common + b
    ensures a == b
  {
    forall x ensures a[x] == b[x] {
      assert (common + a)[x] == common[x] + a[x];
      assert (common + b)[x] == common[x] + b[x];
    }
  }

  // --- The chain builder --------------------------------------------------------

  /** Position of the earliest-posted record of `remaining` amending `board`, if any. */
  method EarliestMatch(remaining: seq<Posted>, board: seq<string>) returns (k: Option<nat>)
    ensures k.None? ==> forall r :: r in remaining ==> r.record.original != board
    ensures k.Some? ==> k.value < |remaining| && remaining[k.value].record.original == board
    ensures k.Some? ==> forall r :: r in remaining && r.record.original == board ==> remaining[k.value].index <= r.index
  {
    k := None;
    for i := 0 to |remaining|
      invariant k.None? ==> forall r :: r in remaining[..i] ==> r.record.original != board
      invariant k.Some? ==> k.value < |remaining| && remaining[k.value].record.original == board
      invariant k.Some? ==> forall r :: r in remaining[..i] && r.record.original == board ==>
        remaining[k.value].index <= r.index
    {
      assert remaining[..i + 1] == remaining[..i] + [remaining[i]];
      if remaining[i].record.original == board && (k.None? || remaining[i].index < remaining[k.value].index) {
        k := Some(i);
      }
    }
    assert remaining[..|remaining|] == remaining;
  }

  /** Every chain of `records` starts with what the builder has consumed so far. */
  ghost predicate Forced(contractOk: Contract -> bool, base: Contract, records: seq<Posted>, chain: seq<Posted>) {
    forall target :: IsChainOf(contractOk, base, records, target) ==> chain <= target
  }

  /** The next record of any chain of all records is the earliest one still matching the board. */
  lemma {:induction false} NextIsForced(
    contractOk: Contract -> bool, base: Contract, records: seq<Posted>, chain: seq<Posted>,
    remaining: seq<Posted>, target: seq<Posted>)
    requires multiset(chain) + multiset(remaining) == multiset(records)
    requires IsChainOf(contractOk, base, records, target) && chain <= target && remaining != []
    ensures |chain| < |target|
    ensures ApplyAll(contractOk, base, chain).Accepted?
    ensures target[|chain|] in remaining
    ensures target[|chain|].record.original == ApplyAll(contractOk, base, chain).value[|chain|].names
    ensures Follows(chain, target[|chain|])
    ensures AmendContract(contractOk, ApplyAll(contractOk, base, chain).value[|chain|], target[|chain|].record,
                          base.names, RemovedBy(chain)).Accepted?
    ensures forall r :: r in remaining && r.index <= target[|chain|].index ==> r == target[|chain|]
  {
    var n := |chain|;
    assert |target| == |multiset(target)| == |multiset(records)| == |multiset(chain)| + |multiset(remaining)|;
    assert |multiset(chain)| == n && |multiset(remaining)| == |remaining|;
    assert chain == target[..n];
    assert target == target[..n] + target[n..];
    assert multiset(target) == multiset(chain) + multiset(target[n..]);
    MultisetCancel(multiset(chain), multiset(remaining), multiset(target[n..]));
    ApplyAllPrefix(contractOk, base, target, n);
    ApplyAllStep(contractOk, base, target, n);
    assert target[n..][0] in multiset(target[n..]);
    forall r | r in remaining && r.index <= target[n].index ensures r == target[n] {
      assert r in multiset(target[n..]);
      var i :| 0 <= i < |target[n..]| && target[n..][i] == r;
      if i > 0 { ChainIncreases(contractOk, base, target, n, n + i); }
    }
  }

  /** What the builder knows after consuming `chain` and leaving `remaining`. */
  ghost predicate Consumed(
    contractOk: Contract -> bool, base: Contract, records: seq<Posted>,
    contracts: seq<Contract>, chain: seq<Posted>, remaining: seq<Posted>)
  {
    && multiset(chain) + multiset(remaining) == multiset(records)
    && ApplyAll(contractOk, base, chain) == Accepted(contracts)
    && Forced(contractOk, base, records, chain)
  }

  ghost predicate NoChain(contractOk: Contract -> bool, base: Contract, records: seq<Posted>) {
    forall chain :: multiset(chain) == multiset(records) ==> ApplyAll(contractOk, base, chain).Refused?
  }

  lemma {:induction false} NoMatchNoChain(
    contractOk: Contract -> bool, base: Contract, records: seq<Posted>,
    contracts: seq<Contract>, chain: seq<Posted>, remaining: seq<Posted>)
    requires Consumed(contractOk, base, records, contracts, chain, remaining) && remaining != []
    requires forall r :: r in remaining ==> r.record.original != contracts[|chain|].names
    ensures NoChain(contractOk, base, records)
  {
    forall target | multiset(target) == multiset(records) ensures ApplyAll(contractOk, base, target).Refused? {
      if ApplyAll(contractOk, base, target).Accepted? {
        assert IsChainOf(contractOk, base, records, target);
        NextIsForced(contractOk, base, records, chain, remaining, target);
      }
    }
  }

  lemma MoveOne(chain: seq<Posted>, remaining: seq<Posted>, k: nat)
    requires k < |remaining|
    ensures multiset(chain + [remaining[k]]) + multiset(remaining[..k] + remaining[k + 1..])
            == multiset(chain) + multiset(remaining)
  {
    assert remaining == remaining[..k] + [remaining[k]] + remaining[k + 1..];
  }

  /** Only the earliest match can come next, and it must pass every check. */
  lemma {:induction false} EarliestMatchForced(
    contractOk: Contract -> bool, base: Contract, records: seq<Posted>,
    contracts: seq<Contract>, chain: seq<Posted>, remaining: seq<Posted>, k: nat, target: seq<Posted>)
    requires Consumed(contractOk, base, records, contracts, chain, remaining)
    requires k < |remaining| && remaining[k].record.original == contracts[|chain|].names
    requires forall r :: r in remaining && r.record.original == contracts[|chain|].names ==>
            remaining[k].index <= r.index
    requires IsChainOf(contractOk, base, records, target)
    ensures chain + [remaining[k]] <= target
    ensures Follows(chain, remaining[k])
    ensures AmendContract(contractOk, contracts[|chain|], remaining[k].record, base.names, RemovedBy(chain)).Accepted?
  {
    NextIsForced(contractOk, base, records, chain, remaining, target);
    assert target[|chain|] == remaining[k];
  }

  lemma ApplyAllMore(contractOk: Contract -> bool, base: Contract, chain: seq<Posted>, next: Posted)
    requires ApplyAll(contractOk, base, chain).Accepted? && Follows(chain, next)
    ensures var contracts := ApplyAll(contractOk, base, chain).value;
            var amended := AmendContract(contractOk, contracts[|chain|], next.record, base.names, RemovedBy(chain));
            amended.Accepted? ==> ApplyAll(contractOk, base, chain + [next]) == Accepted(contracts + [amended.value])
  {
    hide AmendContract, RemovedBy;
    assert (chain + [next])[..|chain|] == chain;
  }

  lemma {:induction false} BuilderStep(
    contractOk: Contract -> bool, base: Contract, records: seq<Posted>,
    contracts: seq<Contract>, chain: seq<Posted>, remaining: seq<Posted>, k: nat)
    requires Consumed(contractOk, base, records, contracts, chain, remaining)
    requires k < |remaining| && remaining[k].record.original == contracts[|chain|].names
    requires forall r :: r in remaining && r.record.original == contracts[|chain|].names ==>
            remaining[k].index <= r.index
    ensures var amended := AmendContract(contractOk, contracts[|chain|], remaining[k].record, base.names,
            RemovedBy(chain));
            if Follows(chain, remaining[k]) && amended.Accepted? then
              Consumed(contractOk, base, records, contracts + [amended.value], chain + [remaining[k]],
                       remaining[..k] + remaining[k + 1..])
            else NoChain(contractOk, base, records)
  {
    hide ApplyAll, AmendContract, RemovedBy, Follows;
    var amended := AmendContract(contractOk, contracts[|chain|], remaining[k].record, base.names, RemovedBy(chain));
    if Follows(chain, remaining[k]) && amended.Accepted? {
      MoveOne(chain, remaining, k);
      ApplyAllMore(contractOk, base, chain, remaining[k]);
      forall target | IsChainOf(contractOk, base, records, target) ensures chain + [remaining[k]] <= target {
        EarliestMatchForced(contractOk, base, records, contracts, chain, remaining, k, target);
      }
    } else {
      forall target | multiset(target) == multiset(records) ensures ApplyAll(contractOk, base, target).Refused? {
        if ApplyAll(contractOk, base, target).Accepted? {
          EarliestMatchForced(contractOk, base, records, contracts, chain, remaining, k, target);
        }
      }
    }
  }

  /**
   * Orders `records` into one linear chain.  It succeeds exactly when some
   * arrangement of all the records applies, and then returns that arrangement;
   * by `ChainUnique` the input order never matters.
   */
  method BuildAmendmentChain(contractOk: Contract -> bool, base: Contract, records: seq<Posted>)
    returns (r: Outcome<(seq<Contract>, seq<Posted>)>)
    ensures r.Accepted? ==> multiset(r.value.1) == multiset(records)
                            && ApplyAll(contractOk, base, r.value.1) == Accepted(r.value.0)
    ensures r.Refused? ==> NoChain(contractOk, base, records)
  {
    var contracts, chain, remaining := [base], [], records;
    while remaining != []
      invariant Consumed(contractOk, base, records, contracts, chain, remaining)
      decreases |remaining|
    {
      var k := EarliestMatch(remaining, contracts[|contracts| - 1].names);
      if k.None? {
        NoMatchNoChain(contractOk, base, records, contracts, chain, remaining);
        return Refused;
      }
      BuilderStep(contractOk, base, records, contracts, chain, remaining, k.value);
      var record := remaining[k.value];
      if !Follows(chain, record) { return Refused; }
      var amended := AmendContract(contractOk, contracts[|contracts| - 1], record.record, base.names, RemovedBy(chain));
      if amended.Refused? { return Refused; }
      contracts, chain := contracts + [amended.value], chain + [record];
      remaining := remaining[..k.value] + remaining[k.value + 1..];
    }
    return Accepted((contracts, chain));
  }
}
