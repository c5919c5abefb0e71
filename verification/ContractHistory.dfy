/** Contract-bearing round records judged against the signed amendment chain. */
module ContractHistory {
  import opened Common
  import opened BoardAmendment
  import opened AmendmentLineage

  /** A posted round record, with its decoded scheduler contract when it carries one. */
  datatype RoundRecord = RoundRecord(index: int, round: int, contract: Option<Contract>, digest: Option<Amendment>)

  datatype ContractLineage = ContractLineage(contracts: seq<Contract>, chain: seq<Posted>, pending: seq<Posted>)

  // --- Governance ------------------------------------------------------------------------------

  predicate Governs(a: Posted, r: RoundRecord) { a.index < r.index && r.round >= a.record.effective }

  /** How far along the chain the record's governing link is; 0 is the base contract. */
  function Governing(chain: seq<Posted>, r: RoundRecord): (g: nat)
    ensures g <= |chain|
  {
    if chain == [] then 0
    else if Governs(chain[|chain| - 1], r) then |chain| else Governing(chain[..|chain| - 1], r)
  }

  /** Along a chain the links that govern a record are exactly those up to its governing link. */
  lemma {:induction false} GoverningIsPrefix(
    contractOk: Contract -> bool, base: Contract, chain: seq<Posted>, r: RoundRecord, i: nat)
    requires ApplyAll(contractOk, base, chain).Accepted? && i < |chain|
    ensures Governs(chain[i], r) <==> i < Governing(chain, r)
    decreases |chain|
  {
    hide ApplyAll;
    var n := |chain| - 1;
    if Governs(chain[n], r) {
      if i < n { ChainIncreases(contractOk, base, chain, i, n); }
    } else if i < n {
      ApplyAllPrefix(contractOk, base, chain, n);
      GoverningIsPrefix(contractOk, base, chain[..n], r, i);
    }
  }

  // --- Resolution ------------------------------------------------------------------------------

  /** The record carries exactly its governing link's contract and digest. */
  predicate Matches(contracts: seq<Contract>, chain: seq<Posted>, r: RoundRecord)
    requires |contracts| == |chain| + 1
  {
    var g := Governing(chain, r);
    r.contract == Some(contracts[g]) && r.digest == if g == 0 then None else Some(chain[g - 1].record)
  }

  predicate RecordOk(contracts: seq<Contract>, chain: seq<Posted>, r: RoundRecord)
    requires |contracts| == |chain| + 1
  {
    if r.contract.Some? then Matches(contracts, chain, r) else r.digest.None?
  }

  function FirstBearing(records: seq<RoundRecord>): Option<Contract> {
    if records == [] then None
    else if records[0].contract.Some? then records[0].contract else FirstBearing(records[1..])
  }

  function UsedBy(records: seq<RoundRecord>): set<Amendment> {
    set r | r in records && r.contract.Some? && r.digest.Some? :: r.digest.value
  }

  predicate ConfiguredOk(contracts: seq<Contract>, configured: Option<Contract>, acceptBase: bool)
    requires contracts != []
  {
    || configured == Some(contracts[|contracts| - 1])
    || (acceptBase && |contracts| > 1 && configured == Some(contracts[0]))
  }

  /** What a resolved lineage is, for records in comment order. */
  ghost predicate Resolves(
    contractOk: Contract -> bool, records: seq<RoundRecord>, amendments: seq<Posted>,
    configured: Option<Contract>, acceptBase: bool, l: ContractLineage)
  {
    match FirstBearing(records)
    case None =>
      && (forall r :: r in records ==> r.digest.None?) && amendments == []
      && l == ContractLineage(if configured.Some? then [configured.value] else [], [], [])
    case Some(base) =>
      && multiset(l.chain) == multiset(amendments)
      && ApplyAll(contractOk, base, l.chain) == Accepted(l.contracts)
      && (forall r :: r in records ==> RecordOk(l.contracts, l.chain, r))
      && ConfiguredOk(l.contracts, configured, acceptBase)
      && l.pending == Pending(l.chain, UsedBy(records))
  }

  /** At most one lineage explains a history, in whatever order its amendments were read. */
  lemma ResolvesUnique(contractOk: Contract -> bool, records: seq<RoundRecord>, a: seq<Posted>, b: seq<Posted>,
                       configured: Option<Contract>, acceptBase: bool, l: ContractLineage, m: ContractLineage)
    requires multiset(a) == multiset(b)
    requires Resolves(contractOk, records, a, configured, acceptBase, l)
    requires Resolves(contractOk, records, b, configured, acceptBase, m)
    ensures l == m
  {
    hide ApplyAll, RecordOk, ConfiguredOk, Pending, UsedBy;
    if FirstBearing(records).Some? {
      ChainUnique(contractOk, FirstBearing(records).value, l.chain, m.chain);
    }
  }

  /** The last link that precedes the record and is in effect in its round. */
  method FindGoverning(chain: seq<Posted>, r: RoundRecord) returns (governing: nat)
    ensures governing == Governing(chain, r)
  {
    governing := 0;
    for position := 0 to |chain|
      invariant governing == Governing(chain[..position], r)
    {
      assert chain[..position + 1][..position] == chain[..position];
      if chain[position].index < r.index && r.round >= chain[position].record.effective { governing := position + 1; }
    }
    assert chain[..|chain|] == chain;
  }

  /** The contract-bearing records in order; refused when a neutral record carries a digest. */
  method BearingRecords(records: seq<RoundRecord>) returns (bearing: Outcome<seq<RoundRecord>>)
    ensures bearing.Accepted? <==> forall r :: r in records && r.contract.None? ==> r.digest.None?
    ensures bearing.Accepted? ==> forall r :: r in bearing.value <==> r in records && r.contract.Some?
    ensures bearing.Accepted? ==>
              FirstBearing(records) == if bearing.value == [] then None else bearing.value[0].contract
  {
    var found := [];
    for i := 0 to |records|
      invariant forall r :: r in records[..i] && r.contract.None? ==> r.digest.None?
      invariant forall r :: r in found <==> r in records[..i] && r.contract.Some?
      invariant FirstBearing(records) == if found == [] then FirstBearing(records[i..]) else found[0].contract
    {
      assert records[..i + 1] == records[..i] + [records[i]] && records[i] in records[..i + 1];
      assert records[i..][1..] == records[i + 1..];
      if records[i].contract.Some? {
        found := found + [records[i]];
      } else if records[i].digest.Some? {
        return Refused;
      }
    }
    assert records[..|records|] == records;
    return Accepted(found);
  }

  /** Accepted with the one lineage that explains the history, or refused when none does. */
  method ResolveContractLineage(
    contractOk: Contract -> bool, records: seq<RoundRecord>, amendments: seq<Posted>,
    configured: Option<Contract>, acceptBase: bool) returns (result: Outcome<ContractLineage>)
    ensures result.Accepted? ==> Resolves(contractOk, records, amendments, configured, acceptBase, result.value)
    ensures result.Refused? ==> forall l :: !Resolves(contractOk, records, amendments, configured, acceptBase, l)
  {
    hide ApplyAll, FirstBearing, Governing, Pending;
    var found := BearingRecords(records);
    if found.Refused? {
      RefusedByNeutral(contractOk, records, amendments, configured, acceptBase);
      return Refused;
    }
    var bearing := found.value;
    if bearing == [] {
      if amendments != [] { return Refused; }
      assert forall r :: r in records ==> r.contract.None?;
      return Accepted(ContractLineage(if configured.Some? then [configured.value] else [], [], []));
    }
    var base := bearing[0].contract.value;
    assert FirstBearing(records) == Some(base);
    var built := BuildAmendmentChain(contractOk, base, amendments);
    if built.Refused? {
      return Refused;
    }
    var (contracts, chain) := built.value;
    forall l | Resolves(contractOk, records, amendments, configured, acceptBase, l)
      ensures l.chain == chain && l.contracts == contracts
    {
      ChainUnique(contractOk, base, l.chain, chain);
    }
    var used: set<Amendment> := {};
    for i := 0 to |bearing|
      invariant forall r :: r in bearing[..i] ==> Matches(contracts, chain, r)
      invariant used == set r | r in bearing[..i] && r.digest.Some? :: r.digest.value
    {
      var r := bearing[i];
      assert bearing[..i + 1] == bearing[..i] + [r] && r in records;
      var governing := FindGoverning(chain, r);
      var digest := if governing == 0 then None else Some(chain[governing - 1].record);
      if r.contract != Some(contracts[governing]) || r.digest != digest {
        assert !RecordOk(contracts, chain, r);
        return Refused;
      }
      if r.digest.Some? { used := used + {r.digest.value}; }
    }
    assert bearing[..|bearing|] == bearing;
    assert used == UsedBy(records);
    if configured != Some(contracts[|contracts| - 1])
      && !(acceptBase && chain != [] && configured == Some(contracts[0])) {
      return Refused;
    }
    return Accepted(ContractLineage(contracts, chain, Pending(chain, used)));
  }

  lemma RefusedByNeutral(contractOk: Contract -> bool, records: seq<RoundRecord>, amendments: seq<Posted>,
                         configured: Option<Contract>, acceptBase: bool)
    requires exists r :: r in records && r.contract.None? && r.digest.Some?
    ensures forall l :: !Resolves(contractOk, records, amendments, configured, acceptBase, l)
  {
    hide ApplyAll, Matches, Pending;
  }

  // --- Growth ----------------------------------------------------------------------------------

  lemma {:induction false} FirstBearingAppend(records: seq<RoundRecord>, r: RoundRecord)
    ensures FirstBearing(records + [r]) == if FirstBearing(records).Some? then FirstBearing(records) else r.contract
    decreases |records|
  {
    if records != [] {
      assert (records + [r])[1..] == records[1..] + [r];
      FirstBearingAppend(records[1..], r);
    } else {
      assert FirstBearing([r][1..]) == None;
    }
  }

  /** A record that carries its governing contract and digest is accepted, and uses up that amendment alone. */
  lemma RecordAccepted(contractOk: Contract -> bool, records: seq<RoundRecord>, amendments: seq<Posted>,
                       configured: Option<Contract>, acceptBase: bool, l: ContractLineage, r: RoundRecord)
    requires Resolves(contractOk, records, amendments, configured, acceptBase, l) && FirstBearing(records).Some?
    requires r.contract.Some? && Matches(l.contracts, l.chain, r)
    ensures var pending := Pending(l.chain, UsedBy(records) + if r.digest.Some? then {r.digest.value} else {});
            Resolves(contractOk, records + [r], amendments, configured, acceptBase, l.(pending := pending))
  {
    hide ApplyAll, Matches, Pending, ConfiguredOk;
    FirstBearingAppend(records, r);
    assert UsedBy(records + [r]) == UsedBy(records) + if r.digest.Some? then {r.digest.value} else {};
  }

  lemma LaterDoesNotGovern(chain: seq<Posted>, a: Posted, r: RoundRecord)
    requires !Governs(a, r)
    ensures Governing(chain + [a], r) == Governing(chain, r)
  {
    assert (chain + [a])[..|chain|] == chain;
  }

  lemma StillMatches(contracts: seq<Contract>, chain: seq<Posted>, more: Contract, a: Posted, r: RoundRecord)
    requires |contracts| == |chain| + 1 && RecordOk(contracts, chain, r) && !Governs(a, r)
    ensures RecordOk(contracts + [more], chain + [a], r)
  {
    LaterDoesNotGovern(chain, a, r);
  }

  /** An amendment of the current contract, posted after every record and effective later than the chain, is
      accepted with the contract it yields, re-governs nothing, and is then pending. */
  lemma AmendmentAccepted(contractOk: Contract -> bool, records: seq<RoundRecord>, amendments: seq<Posted>,
                          configured: Option<Contract>, acceptBase: bool, l: ContractLineage, a: Posted)
    requires Resolves(contractOk, records, amendments, configured, acceptBase, l) && FirstBearing(records).Some?
    requires (forall r :: r in records ==> r.index <= a.index) && Follows(l.chain, a)
    requires var base := FirstBearing(records).value;
             AmendContract(contractOk, l.contracts[|l.chain|], a.record, base.names, RemovedBy(l.chain)).Accepted?
    ensures var base := FirstBearing(records).value;
            var amended := AmendContract(contractOk, l.contracts[|l.chain|], a.record, base.names,
              RemovedBy(l.chain)).value;
            var m := ContractLineage(l.contracts + [amended], l.chain + [a], Pending(l.chain + [a], UsedBy(records)));
            && Resolves(contractOk, records, amendments + [a], Some(amended), acceptBase, m)
            && (a.record !in UsedBy(records) ==> m.pending == l.pending + [a])
  {
    hide Matches, AmendContract, RemovedBy, ApplyAll, Pending, FirstBearing, Governing;
    var base := FirstBearing(records).value;
    ApplyAllMore(contractOk, base, l.chain, a);
    var amended := AmendContract(contractOk, l.contracts[|l.chain|], a.record, base.names, RemovedBy(l.chain)).value;
    var chain := l.chain + [a];
    assert multiset(chain) == multiset(amendments + [a]);
    forall r | r in records ensures RecordOk(l.contracts + [amended], chain, r) {
      StillMatches(l.contracts, l.chain, amended, a, r);
    }
    PendingGrows(l.chain, a, UsedBy(records));
  }

  lemma PendingGrows(chain: seq<Posted>, a: Posted, used: set<Amendment>)
    ensures a.record !in used ==> Pending(chain + [a], used) == Pending(chain, used) + [a]
  {
    assert (chain + [a])[..|chain|] == chain;
    var keep, keep' := set p | p in chain && p.record !in used, set p | p in chain + [a] && p.record !in used;
    if a.record !in used {
      assert a in chain + [a];
      KeepAgree(chain, keep, keep');
    }
  }

  // --- What an explanation says ----------------------------------------------------------------

  /** Record `i` is the first that carries a contract, and it is `base`. */
  ghost predicate FirstContract(records: seq<RoundRecord>, i: nat, base: Contract) {
    && i < |records| && records[i].contract == Some(base)
    && forall j :: 0 <= j < i ==> records[j].contract == None
  }

  /** Exactly the first `g` amendments were posted before the record and are in effect in its round. */
  ghost predicate InEffect(chain: seq<Posted>, r: RoundRecord, g: nat) {
    && g <= |chain|
    && forall k :: 0 <= k < |chain| ==>
         (k < g <==> chain[k].index < r.index && chain[k].record.effective <= r.round)
  }

  /** The record shows the contract in effect when it was posted, and the amendment that brought it. */
  ghost predicate ShowsContract(contracts: seq<Contract>, chain: seq<Posted>, r: RoundRecord) {
    && |contracts| == |chain| + 1
    && exists g: nat ::
         && InEffect(chain, r, g) && r.contract == Some(contracts[g])
         && if g == 0 then r.digest == None else r.digest == Some(chain[g - 1].record)
  }

  /** `l` explains the records, on a base contract. */
  ghost predicate Explains(
    contractOk: Contract -> bool, records: seq<RoundRecord>, amendments: seq<Posted>, configured: Option<Contract>,
    acceptBase: bool, base: Contract, l: ContractLineage)
  {
    && multiset(l.chain) == multiset(amendments) && ApplyAll(contractOk, base, l.chain) == Accepted(l.contracts)
    && (forall r :: r in records ==>
          if r.contract == None then r.digest == None else ShowsContract(l.contracts, l.chain, r))
    && (configured == Some(l.contracts[|l.chain|]) || (acceptBase && l.chain != [] && configured == Some(base)))
    && l.pending == Keep(l.chain, set p | p in l.chain
                                          && !exists r :: r in records && r.contract != None
                                                          && r.digest == Some(p.record))
  }

  lemma {:induction false} FirstBearingMeans(records: seq<RoundRecord>, base: Contract)
    ensures FirstBearing(records) == Some(base) <==> exists i: nat :: FirstContract(records, i, base)
    decreases |records|
  {
    if records != [] {
      FirstBearingMeans(records[1..], base);
      assert forall j :: 0 <= j < |records| - 1 ==> records[1..][j] == records[j + 1];
      if records[0].contract.Some? {
        if records[0].contract == Some(base) { assert FirstContract(records, 0, base); }
      } else {
        if FirstBearing(records[1..]) == Some(base) {
          var i: nat :| FirstContract(records[1..], i, base);
          assert FirstContract(records, i + 1, base);
        }
        if exists i: nat :: FirstContract(records, i, base) {
          var i: nat :| FirstContract(records, i, base);
          assert FirstContract(records[1..], i - 1, base);
        }
      }
    }
  }

  lemma InEffectExact(contractOk: Contract -> bool, base: Contract, chain: seq<Posted>, r: RoundRecord, g: nat)
    requires ApplyAll(contractOk, base, chain).Accepted?
    ensures InEffect(chain, r, g) <==> g == Governing(chain, r)
  {
    hide ApplyAll;
    var n := Governing(chain, r);
    forall k | 0 <= k < |chain|
      ensures k < n <==> chain[k].index < r.index && chain[k].record.effective <= r.round
    {
      GoverningIsPrefix(contractOk, base, chain, r, k);
    }
    var k := if g < n then g else n;
    if k < |chain| { assert Governs(chain[k], r) <==> k < n; }
  }

  lemma MatchesMeans(
    contractOk: Contract -> bool, base: Contract, contracts: seq<Contract>, chain: seq<Posted>, r: RoundRecord)
    requires ApplyAll(contractOk, base, chain) == Accepted(contracts)
    ensures |contracts| == |chain| + 1 && (Matches(contracts, chain, r) <==> ShowsContract(contracts, chain, r))
  {
    hide ApplyAll;
    InEffectExact(contractOk, base, chain, r, Governing(chain, r));
    forall g: nat ensures InEffect(chain, r, g) <==> g == Governing(chain, r) {
      InEffectExact(contractOk, base, chain, r, g);
    }
    hide Governing, InEffect;
  }

  lemma PendingMeans(records: seq<RoundRecord>, chain: seq<Posted>)
    ensures Pending(chain, UsedBy(records))
            == Keep(chain, set p | p in chain && !exists r :: r in records && r.contract != None
                                                              && r.digest == Some(p.record))
  {
    forall a ensures a in UsedBy(records) <==> exists r :: r in records && r.contract != None && r.digest == Some(a) {
      if exists r :: r in records && r.contract != None && r.digest == Some(a) {
        var r :| r in records && r.contract != None && r.digest == Some(a);
        assert r.digest.value in UsedBy(records);
      }
    }
    hide UsedBy, Keep;
    assert (set p | p in chain && p.record !in UsedBy(records))
           == set p | p in chain && !exists r :: r in records && r.contract != None && r.digest == Some(p.record);
  }

  /**
   * A lineage resolves a history exactly when, on the first contract any record carries, its chain orders all the
   * amendments, every record shows the contract in effect when it was posted, the configured contract is the last
   * one (or the base, where that is accepted), and pending are the amendments no contract-bearing record names.
   */
  lemma ResolvesExact(
    contractOk: Contract -> bool, records: seq<RoundRecord>, amendments: seq<Posted>, configured: Option<Contract>,
    acceptBase: bool, l: ContractLineage, i: nat, base: Contract)
    requires FirstContract(records, i, base)
    ensures Resolves(contractOk, records, amendments, configured, acceptBase, l)
            <==> Explains(contractOk, records, amendments, configured, acceptBase, base, l)
  {
    FirstBearingMeans(records, base);
    PendingMeans(records, l.chain);
    hide ApplyAll, FirstBearing, Pending, UsedBy, Keep, Matches, ShowsContract, FirstContract;
    if ApplyAll(contractOk, base, l.chain) == Accepted(l.contracts) {
      forall r ensures Matches(l.contracts, l.chain, r) <==> ShowsContract(l.contracts, l.chain, r) {
        MatchesMeans(contractOk, base, l.contracts, l.chain, r);
      }
    }
  }

  /** Without any contract there is nothing to explain: no digest, no amendment, and the configured contract. */
  lemma ResolvesNothing(
    contractOk: Contract -> bool, records: seq<RoundRecord>, amendments: seq<Posted>, configured: Option<Contract>,
    acceptBase: bool, l: ContractLineage)
    requires forall r :: r in records ==> r.contract == None
    ensures Resolves(contractOk, records, amendments, configured, acceptBase, l)
            <==> && amendments == [] && (forall r :: r in records ==> r.digest == None)
                 && l.chain == [] && l.pending == []
                 && match configured case Some(contract) => l.contracts == [contract] case None => l.contracts == []
  {
    NoneBearing(records);
    hide FirstBearing, ApplyAll, Pending;
  }

  lemma {:induction false} NoneBearing(records: seq<RoundRecord>)
    requires forall r :: r in records ==> r.contract == None
    ensures FirstBearing(records) == None
    decreases |records|
  {
    if records != [] {
      assert records[0] in records;
      NoneBearing(records[1..]);
    }
  }
}
