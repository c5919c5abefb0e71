/** What the collected observations, updates and groups are, and why semantic groups stay apart from textual ones. */
module EvidenceCollection {
  import opened Common
  import opened Decimals
  import opened Evidence
  import opened EvidenceGroups

  // --- Observations ----------------------------------------------------------------------------

  /** Claim `i` of a vote: its claims, and then its citations, which were only reported. */
  predicate Says(v: Vote, i: nat, claim: Claim) {
    if i < |v.claims| then claim == v.claims[i]
    else
      && i < |v.claims| + |v.citations|
      && claim.fact == v.citations[i - |v.claims|].fact && claim.source == v.citations[i - |v.claims|].source
      && claim.status == Reported
  }

  /** `o` is claim `i` of vote `v` of round `r`, rounds being numbered from 1 in ids. */
  predicate IsClaim(subject: string, rounds: seq<seq<Vote>>, o: Observation, r: nat, v: nat, i: nat) {
    && r < |rounds| && v < |rounds[r]| && rounds[r][v].structured && Says(rounds[r][v], i, o.claim)
    && o.id == ObservationId(subject, r + 1, rounds[r][v].reviewer, i)
    && o.round == r + 1 && o.reviewer == rounds[r][v].reviewer
  }

  lemma ClaimIsSaid(subject: string, rounds: seq<seq<Vote>>, o: Observation, r: nat, v: nat, i: nat)
    ensures IsClaim(subject, rounds, o, r, v, i)
            <==> && r < |rounds| && v < |rounds[r]|
                 && i < |VoteObservations(subject, r + 1, rounds[r][v])|
                 && VoteObservations(subject, r + 1, rounds[r][v])[i] == o
  {
    hide ObservationId;
  }

  predicate InVote(subject: string, round: nat, votes: seq<Vote>, o: Observation, v: nat) {
    v < |votes| && o in VoteObservations(subject, round, votes[v])
  }

  predicate InRound(subject: string, rounds: seq<seq<Vote>>, o: Observation, r: nat) {
    r < |rounds| && o in RoundObservations(subject, r + 1, rounds[r])
  }

  lemma {:induction false} RoundMembers(subject: string, round: nat, votes: seq<Vote>, o: Observation)
    ensures o in RoundObservations(subject, round, votes) <==> exists v: nat :: InVote(subject, round, votes, o, v)
    decreases |votes|
  {
    hide VoteObservations;
    if votes != [] {
      var n := |votes| - 1;
      RoundMembers(subject, round, votes[..n], o);
      forall v: nat ensures InVote(subject, round, votes, o, v)
        <==> InVote(subject, round, votes[..n], o, v) || (v == n && o in VoteObservations(subject, round, votes[n])) {}
      if o in VoteObservations(subject, round, votes[n]) { assert InVote(subject, round, votes, o, n); }
      if o in RoundObservations(subject, round, votes[..n]) {
        var v: nat :| InVote(subject, round, votes[..n], o, v);
        assert InVote(subject, round, votes, o, v);
      }
    }
  }

  lemma {:induction false} ObservationRound(subject: string, rounds: seq<seq<Vote>>, o: Observation)
    ensures o in Observations(subject, rounds) <==> exists r: nat :: InRound(subject, rounds, o, r)
    decreases |rounds|
  {
    hide RoundObservations;
    if rounds != [] {
      var n := |rounds| - 1;
      ObservationRound(subject, rounds[..n], o);
      forall r: nat ensures InRound(subject, rounds, o, r)
        <==> InRound(subject, rounds[..n], o, r) || (r == n && o in RoundObservations(subject, n + 1, rounds[n])) {}
      if o in RoundObservations(subject, n + 1, rounds[n]) { assert InRound(subject, rounds, o, n); }
      if o in Observations(subject, rounds[..n]) {
        var r: nat :| InRound(subject, rounds[..n], o, r);
        assert InRound(subject, rounds, o, r);
      }
    }
  }

  /** The observations are exactly the claims of the structured votes. */
  lemma ObservationsAreClaims(subject: string, rounds: seq<seq<Vote>>, o: Observation)
    ensures o in Observations(subject, rounds)
            <==> exists r: nat, v: nat, i: nat :: IsClaim(subject, rounds, o, r, v, i)
  {
    hide Observations, RoundObservations, VoteObservations, IsClaim;
    ObservationRound(subject, rounds, o);
    if o in Observations(subject, rounds) {
      var r: nat :| InRound(subject, rounds, o, r);
      RoundMembers(subject, r + 1, rounds[r], o);
      var v: nat :| InVote(subject, r + 1, rounds[r], o, v);
      var os := VoteObservations(subject, r + 1, rounds[r][v]);
      var i :| 0 <= i < |os| && os[i] == o;
      ClaimIsSaid(subject, rounds, o, r, v, i);
    }
    if exists r: nat, v: nat, i: nat :: IsClaim(subject, rounds, o, r, v, i) {
      var r: nat, v: nat, i: nat :| IsClaim(subject, rounds, o, r, v, i);
      ClaimIsSaid(subject, rounds, o, r, v, i);
      assert VoteObservations(subject, r + 1, rounds[r][v])[i] == o;
      RoundMembers(subject, r + 1, rounds[r], o);
      assert InVote(subject, r + 1, rounds[r], o, v) && InRound(subject, rounds, o, r);
    }
  }

  lemma {:induction false} RoundPrefix(subject: string, round: nat, votes: seq<Vote>, n: nat)
    requires n <= |votes|
    ensures RoundObservations(subject, round, votes[..n]) <= RoundObservations(subject, round, votes)
    decreases |votes|
  {
    hide VoteObservations;
    if n == |votes| {
      assert votes[..n] == votes;
    } else {
      RoundPrefix(subject, round, votes[..|votes| - 1], n);
      assert votes[..|votes| - 1][..n] == votes[..n];
    }
  }

  lemma {:induction false} ObservationsPrefix(subject: string, rounds: seq<seq<Vote>>, n: nat)
    requires n <= |rounds|
    ensures Observations(subject, rounds[..n]) <= Observations(subject, rounds)
    decreases |rounds|
  {
    hide RoundObservations;
    if n == |rounds| {
      assert rounds[..n] == rounds;
    } else {
      ObservationsPrefix(subject, rounds[..|rounds| - 1], n);
      assert rounds[..|rounds| - 1][..n] == rounds[..n];
    }
  }

  lemma PositionInRound(subject: string, round: nat, votes: seq<Vote>, v: nat, i: nat)
    requires v < |votes| && i < |VoteObservations(subject, round, votes[v])|
    ensures var at := |RoundObservations(subject, round, votes[..v])| + i;
            at < |RoundObservations(subject, round, votes)|
            && RoundObservations(subject, round, votes)[at] == VoteObservations(subject, round, votes[v])[i]
  {
    hide VoteObservations;
    var upTo := votes[..v + 1];
    assert upTo[..v] == votes[..v];
    RoundPrefix(subject, round, votes, v + 1);
    assert RoundObservations(subject, round, upTo)
           == RoundObservations(subject, round, votes[..v]) + VoteObservations(subject, round, votes[v]);
  }

  lemma PositionInHistory(subject: string, rounds: seq<seq<Vote>>, r: nat, i: nat)
    requires r < |rounds| && i < |RoundObservations(subject, r + 1, rounds[r])|
    ensures var at := |Observations(subject, rounds[..r])| + i;
            at < |Observations(subject, rounds)|
            && Observations(subject, rounds)[at] == RoundObservations(subject, r + 1, rounds[r])[i]
  {
    hide RoundObservations;
    var upTo := rounds[..r + 1];
    assert upTo[..r] == rounds[..r];
    ObservationsPrefix(subject, rounds, r + 1);
    assert Observations(subject, upTo)
      == Observations(subject, rounds[..r]) + RoundObservations(subject, r + 1, rounds[r]);
  }

  /** Posting order: a claim comes after those of earlier rounds, of earlier votes, and earlier in its vote. */
  lemma ClaimPosition(subject: string, rounds: seq<seq<Vote>>, o: Observation, r: nat, v: nat, i: nat)
    requires IsClaim(subject, rounds, o, r, v, i)
    ensures var at := |Observations(subject, rounds[..r])| + |RoundObservations(subject, r + 1, rounds[r][..v])| + i;
            at < |Observations(subject, rounds)| && Observations(subject, rounds)[at] == o
  {
    hide IsClaim, VoteObservations, Observations, RoundObservations;
    ClaimIsSaid(subject, rounds, o, r, v, i);
    PositionInRound(subject, r + 1, rounds[r], v, i);
    PositionInHistory(subject, rounds, r, |RoundObservations(subject, r + 1, rounds[r][..v])| + i);
  }

  lemma SplitAtDash(a: string, x: string, b: string, y: string)
    requires AllDigits(a) && AllDigits(b) && a + "-" + x == b + "-" + y
    ensures a == b && x == y
  {
    var s, t := a + "-" + x, b + "-" + y;
    assert s[|a|] == '-' && t[|b|] == '-';
    assert forall i :: 0 <= i < |a| ==> s[i] != '-';
    assert forall i :: 0 <= i < |b| ==> t[i] != '-';
    assert |a| == |b|;
    assert a == s[..|a|] && b == t[..|b|] && x == s[|a| + 1..] && y == t[|b| + 1..];
  }

  lemma SplitAtIndex(p: string, a: string, q: string, b: string)
    requires AllDigits(a) && AllDigits(b) && p + "-c" + a == q + "-c" + b
    ensures p == q && a == b
  {
    var s, t := p + "-c" + a, q + "-c" + b;
    assert s[|p| + 1] == 'c' && t[|q| + 1] == 'c';
    assert forall i :: |p| + 2 <= i < |s| ==> s[i] == a[i - |p| - 2];
    assert forall i :: |q| + 2 <= i < |t| ==> t[i] == b[i - |q| - 2];
    assert |p| == |q|;
    assert p == s[..|p|] && q == t[..|q|] && a == s[|p| + 2..] && b == t[|q| + 2..];
  }

  /** An observation id determines its round, reviewer and index. */
  lemma IdDetermines(subject: string, r: nat, reviewer: string, i: nat, r': nat, reviewer': string, i': nat)
    requires ObservationId(subject, r, reviewer, i) == ObservationId(subject, r', reviewer', i')
    ensures r == r' && reviewer == reviewer' && i == i'
  {
    hide Decimal;
    var head := subject + "-r";
    var tail, tail' := reviewer + "-c" + Decimal(i), reviewer' + "-c" + Decimal(i');
    var id := ObservationId(subject, r, reviewer, i);
    assert id == head + (Decimal(r) + "-" + tail) && id == head + (Decimal(r') + "-" + tail');
    assert Decimal(r) + "-" + tail == id[|head|..] == Decimal(r') + "-" + tail';
    SplitAtDash(Decimal(r), tail, Decimal(r'), tail');
    SplitAtIndex(reviewer, Decimal(i), reviewer', Decimal(i'));
    DecimalReads(r);
    DecimalReads(r');
    DecimalReads(i);
    DecimalReads(i');
  }

  /** No reviewer votes twice in a round. */
  predicate OneVoteEach(votes: seq<Vote>) {
    forall i, j :: 0 <= i < j < |votes| && votes[i].structured && votes[j].structured ==>
      votes[i].reviewer != votes[j].reviewer
  }

  predicate Distinct(os: seq<Observation>) { forall i, j :: 0 <= i < j < |os| ==> os[i].id != os[j].id }
  predicate RoundsRise(os: seq<Observation>) { forall i, j :: 0 <= i < j < |os| ==> os[i].round <= os[j].round }

  lemma DistinctConcat(a: seq<Observation>, b: seq<Observation>)
    requires Distinct(a) && Distinct(b) && forall o, p :: o in a && p in b ==> o.id != p.id
    ensures Distinct(a + b)
  {
    var all := a + b;
    forall i, j | 0 <= i < j < |all| ensures all[i].id != all[j].id {
      if i < |a| <= j { assert a[i] in a && b[j - |a|] in b; }
    }
  }

  lemma VoteIds(subject: string, round: nat, v: Vote)
    ensures Distinct(VoteObservations(subject, round, v))
    ensures forall o :: o in VoteObservations(subject, round, v) ==>
              o.round == round && v.structured && o.reviewer == v.reviewer
              && exists i: nat :: o.id == ObservationId(subject, round, v.reviewer, i)
  {
    hide ObservationId;
    var os := VoteObservations(subject, round, v);
    forall i: nat, j: nat | i < j < |os| ensures os[i].id != os[j].id {
      if os[i].id == os[j].id { IdDetermines(subject, round, v.reviewer, i, round, v.reviewer, j); }
    }
  }

  lemma {:induction false} RoundIds(subject: string, round: nat, votes: seq<Vote>)
    requires OneVoteEach(votes)
    ensures Distinct(RoundObservations(subject, round, votes))
    ensures forall o :: o in RoundObservations(subject, round, votes) ==>
              o.round == round && exists i: nat :: o.id == ObservationId(subject, round, o.reviewer, i)
    decreases |votes|
  {
    hide ObservationId, VoteObservations, Distinct;
    if votes == [] {
      NoneDistinct();
    } else {
      var n := |votes| - 1;
      var front, last := RoundObservations(subject, round, votes[..n]), VoteObservations(subject, round, votes[n]);
      RoundIds(subject, round, votes[..n]);
      VoteIds(subject, round, votes[n]);
      forall o, p | o in front && p in last ensures o.id != p.id {
        RoundMembers(subject, round, votes[..n], o);
        var v: nat :| InVote(subject, round, votes[..n], o, v);
        VoteIds(subject, round, votes[v]);
        var i: nat :| o.id == ObservationId(subject, round, votes[v].reviewer, i);
        var j: nat :| p.id == ObservationId(subject, round, votes[n].reviewer, j);
        if o.id == p.id { IdDetermines(subject, round, votes[v].reviewer, i, round, votes[n].reviewer, j); }
      }
      DistinctConcat(front, last);
    }
  }

  lemma NoneDistinct()
    ensures Distinct([]) && RoundsRise([])
  {
  }

  /** Ids are distinct and rounds rise in posting order, whenever no reviewer votes twice in a round. */
  lemma {:induction false} ObservationsDistinct(subject: string, rounds: seq<seq<Vote>>)
    requires forall r :: 0 <= r < |rounds| ==> OneVoteEach(rounds[r])
    ensures var os := Observations(subject, rounds);
            && Distinct(os) && RoundsRise(os)
            && forall o :: o in os ==>
                 1 <= o.round <= |rounds| && exists i: nat :: o.id == ObservationId(subject, o.round, o.reviewer, i)
    decreases |rounds|
  {
    hide ObservationId, RoundObservations, Distinct, OneVoteEach;
    if rounds == [] {
      NoneDistinct();
    } else {
      var n := |rounds| - 1;
      var front, last := Observations(subject, rounds[..n]), RoundObservations(subject, n + 1, rounds[n]);
      ObservationsDistinct(subject, rounds[..n]);
      RoundIds(subject, n + 1, rounds[n]);
      forall o, p | o in front && p in last ensures o.id != p.id {
        var i: nat :| o.id == ObservationId(subject, o.round, o.reviewer, i);
        var j: nat :| p.id == ObservationId(subject, n + 1, p.reviewer, j);
        if o.id == p.id { IdDetermines(subject, o.round, o.reviewer, i, n + 1, p.reviewer, j); }
      }
      DistinctConcat(front, last);
    }
  }

  // --- Updates ---------------------------------------------------------------------------------

  lemma {:induction false} RoundUpdatesPrefix(round: nat, votes: seq<Vote>, n: nat)
    requires n <= |votes|
    ensures RoundUpdates(round, votes[..n]) <= RoundUpdates(round, votes)
    decreases |votes|
  {
    hide VoteUpdates;
    if n == |votes| {
      assert votes[..n] == votes;
    } else {
      RoundUpdatesPrefix(round, votes[..|votes| - 1], n);
      assert votes[..|votes| - 1][..n] == votes[..n];
    }
  }

  lemma {:induction false} UpdatesPrefix(rounds: seq<seq<Vote>>, n: nat)
    requires n <= |rounds|
    ensures Updates(rounds[..n]) <= Updates(rounds)
    decreases |rounds|
  {
    hide RoundUpdates;
    if n == |rounds| {
      assert rounds[..n] == rounds;
    } else {
      UpdatesPrefix(rounds[..|rounds| - 1], n);
      assert rounds[..|rounds| - 1][..n] == rounds[..n];
    }
  }

  /** How many revisions the structured votes among these make. */
  function RevisionCount(votes: seq<Vote>): nat {
    if votes == [] then 0
    else RevisionCount(votes[..|votes| - 1])
         + if votes[|votes| - 1].structured then |votes[|votes| - 1].revisions| else 0
  }

  function RevisionsBefore(rounds: seq<seq<Vote>>): nat {
    if rounds == [] then 0 else RevisionsBefore(rounds[..|rounds| - 1]) + RevisionCount(rounds[|rounds| - 1])
  }

  lemma {:induction false} RoundUpdatesCount(round: nat, votes: seq<Vote>)
    ensures |RoundUpdates(round, votes)| == RevisionCount(votes)
    decreases |votes|
  {
    if votes != [] { RoundUpdatesCount(round, votes[..|votes| - 1]); }
  }

  /** There is one update for every revision of a structured vote. */
  lemma {:induction false} UpdatesCount(rounds: seq<seq<Vote>>)
    ensures |Updates(rounds)| == RevisionsBefore(rounds)
    decreases |rounds|
  {
    if rounds != [] {
      UpdatesCount(rounds[..|rounds| - 1]);
      RoundUpdatesCount(|rounds|, rounds[|rounds| - 1]);
    }
  }

  lemma UpdateInRound(round: nat, votes: seq<Vote>, v: nat, i: nat)
    requires v < |votes| && votes[v].structured && i < |votes[v].revisions|
    ensures var at := RevisionCount(votes[..v]) + i;
            at < |RoundUpdates(round, votes)|
            && RoundUpdates(round, votes)[at] == Update(round, votes[v].reviewer, votes[v].revisions[i])
  {
    hide RevisionCount;
    var upTo := votes[..v + 1];
    assert upTo[..v] == votes[..v];
    RoundUpdatesCount(round, votes[..v]);
    RoundUpdatesPrefix(round, votes, v + 1);
    assert RoundUpdates(round, upTo) == RoundUpdates(round, votes[..v]) + VoteUpdates(round, votes[v]);
  }

  lemma UpdateInHistory(rounds: seq<seq<Vote>>, r: nat, i: nat)
    requires r < |rounds| && i < |RoundUpdates(r + 1, rounds[r])|
    ensures var at := RevisionsBefore(rounds[..r]) + i;
            at < |Updates(rounds)| && Updates(rounds)[at] == RoundUpdates(r + 1, rounds[r])[i]
  {
    hide RoundUpdates, RevisionsBefore;
    var upTo := rounds[..r + 1];
    assert upTo[..r] == rounds[..r];
    UpdatesCount(rounds[..r]);
    UpdatesPrefix(rounds, r + 1);
    assert Updates(upTo) == Updates(rounds[..r]) + RoundUpdates(r + 1, rounds[r]);
  }

  /** Each revision of a structured vote is an update by its reviewer in its round, in posting order: behind those of
      earlier rounds, of earlier votes, and before it in its vote. */
  lemma RevisionPosition(rounds: seq<seq<Vote>>, r: nat, v: nat, i: nat)
    requires r < |rounds| && v < |rounds[r]| && rounds[r][v].structured && i < |rounds[r][v].revisions|
    ensures var at := RevisionsBefore(rounds[..r]) + RevisionCount(rounds[r][..v]) + i;
            at < |Updates(rounds)|
            && Updates(rounds)[at] == Update(r + 1, rounds[r][v].reviewer, rounds[r][v].revisions[i])
  {
    hide RevisionCount, RevisionsBefore, Updates, RoundUpdates;
    UpdateInRound(r + 1, rounds[r], v, i);
    UpdateInHistory(rounds, r, RevisionCount(rounds[r][..v]) + i);
  }

  method CollectVote(subject: string, round: nat, vote: Vote)
    returns (observations: seq<Observation>, updates: seq<Update>)
    ensures observations == VoteObservations(subject, round, vote) && updates == VoteUpdates(round, vote)
  {
    hide ObservationId;
    observations, updates := [], [];
    if !vote.structured { return; }
    var claims := ClaimsOf(vote);
    for i := 0 to |claims|
      invariant observations == VoteObservations(subject, round, vote)[..i]
    {
      observations := observations
        + [Observation(ObservationId(subject, round, vote.reviewer, i), round, vote.reviewer, claims[i])];
    }
    for i := 0 to |vote.revisions|
      invariant updates == VoteUpdates(round, vote)[..i]
    {
      updates := updates + [Update(round, vote.reviewer, vote.revisions[i])];
    }
  }

  method CollectRound(subject: string, round: nat, votes: seq<Vote>)
    returns (observations: seq<Observation>, updates: seq<Update>)
    ensures observations == RoundObservations(subject, round, votes) && updates == RoundUpdates(round, votes)
  {
    hide VoteObservations, VoteUpdates;
    observations, updates := [], [];
    for v := 0 to |votes|
      invariant observations == RoundObservations(subject, round, votes[..v])
      invariant updates == RoundUpdates(round, votes[..v])
    {
      assert votes[..v + 1][..v] == votes[..v];
      var os, us := CollectVote(subject, round, votes[v]);
      observations, updates := observations + os, updates + us;
    }
    assert votes[..|votes|] == votes;
  }

  /** Claims and updates in posting order. */
  method CollectEvidence(subject: string, rounds: seq<seq<Vote>>)
    returns (observations: seq<Observation>, updates: seq<Update>)
    ensures observations == Observations(subject, rounds) && updates == Updates(rounds)
    ensures forall o :: o in observations <==> exists r: nat, v: nat, i: nat :: IsClaim(subject, rounds, o, r, v, i)
    ensures (forall r :: 0 <= r < |rounds| ==> OneVoteEach(rounds[r])) ==>
            Distinct(observations) && RoundsRise(observations)
  {
    hide RoundObservations, RoundUpdates, IsClaim, Distinct, OneVoteEach, RoundsRise;
    observations, updates := [], [];
    for r := 0 to |rounds|
      invariant observations == Observations(subject, rounds[..r]) && updates == Updates(rounds[..r])
    {
      assert rounds[..r + 1][..r] == rounds[..r];
      var os, us := CollectRound(subject, r + 1, rounds[r]);
      observations, updates := observations + os, updates + us;
    }
    assert rounds[..|rounds|] == rounds;
    forall o ensures o in observations <==> exists r: nat, v: nat, i: nat :: IsClaim(subject, rounds, o, r, v, i) {
      ObservationsAreClaims(subject, rounds, o);
    }
    if forall r :: 0 <= r < |rounds| ==> OneVoteEach(rounds[r]) { ObservationsDistinct(subject, rounds); }
  }

  // --- Updates and aliases ---------------------------------------------------------------------

  /** Update `k` is the last one that names `id`. */
  predicate LastFor(updates: seq<Update>, id: string, k: nat) {
    && k < |updates| && updates[k].revision.target == id
    && forall j :: k < j < |updates| ==> updates[j].revision.target != id
  }

  /** An observation is withdrawn by the last update that names it, and only an observed one is. */
  lemma {:induction false} InactiveIsLast(updates: seq<Update>, ids: set<string>, id: string)
    ensures id in Inactive(updates, ids) <==> id in ids && exists k: nat :: LastFor(updates, id, k)
    ensures forall k: nat :: LastFor(updates, id, k) && id in ids ==> Inactive(updates, ids)[id] == updates[k]
    decreases |updates|
  {
    if updates != [] {
      var n := |updates| - 1;
      InactiveIsLast(updates[..n], ids, id);
      if updates[n].revision.target == id {
        assert LastFor(updates, id, n);
      } else {
        forall k: nat ensures LastFor(updates, id, k) <==> LastFor(updates[..n], id, k) {}
      }
    }
  }

  /** Group `k` is the last one that contains `id`. */
  predicate LastGroupOf(groups: seq<seq<string>>, id: string, k: nat) {
    && k < |groups| && id in groups[k] && forall j :: k < j < |groups| ==> id !in groups[j]
  }

  lemma {:induction false} AliasGroupAdds(
    aliases: map<string, string>, leader: string, members: seq<string>, id: string)
    ensures var r := AliasGroup(aliases, leader, members);
            && (id in r <==> id in members || id in aliases)
            && (id in members ==> r[id] == leader) && (id !in members && id in aliases ==> r[id] == aliases[id])
    decreases |members|
  {
    if members != [] {
      var n := |members| - 1;
      AliasGroupAdds(aliases, leader, members[..n], id);
      assert members == members[..n] + [members[n]];
    }
  }

  /** An id stands under the leader of the last group that contains it. */
  lemma {:induction false} AliasIsLastLeader(groups: seq<seq<string>>, id: string)
    ensures id in Aliases(groups) <==> exists k: nat :: LastGroupOf(groups, id, k)
    ensures forall k: nat :: LastGroupOf(groups, id, k) ==> Aliases(groups)[id] == groups[k][0]
    decreases |groups|
  {
    hide AliasGroup;
    if groups != [] {
      var n := |groups| - 1;
      AliasIsLastLeader(groups[..n], id);
      if groups[n] != [] { AliasGroupAdds(Aliases(groups[..n]), groups[n][0], groups[n], id); }
      if id in groups[n] {
        assert LastGroupOf(groups, id, n);
      } else {
        forall k: nat ensures LastGroupOf(groups, id, k) <==> LastGroupOf(groups[..n], id, k) {}
      }
    }
  }

  /** The last update of each observed target; the others only warn. */
  method ApplyUpdates(updates: seq<Update>, ids: set<string>)
    returns (inactive: map<string, Update>, warnings: seq<string>)
    ensures inactive == Inactive(updates, ids) && |warnings| + |TargetsIn(updates, ids)| == |updates|
    ensures forall id :: id in inactive <==> id in ids && exists k: nat :: LastFor(updates, id, k)
    ensures forall id, k: nat :: id in ids && LastFor(updates, id, k) ==> inactive[id] == updates[k]
  {
    inactive, warnings := map[], [];
    for i := 0 to |updates|
      invariant inactive == Inactive(updates[..i], ids)
      invariant |warnings| + |TargetsIn(updates[..i], ids)| == i
    {
      assert updates[..i + 1][..i] == updates[..i];
      var target := updates[i].revision.target;
      if target !in ids {
        warnings := warnings + [target];
        continue;
      }
      inactive := inactive[target := updates[i]];
    }
    assert updates[..|updates|] == updates;
    forall id ensures (id in inactive <==> id in ids && exists k: nat :: LastFor(updates, id, k))
                      && forall k: nat :: id in ids && LastFor(updates, id, k) ==> inactive[id] == updates[k] {
      InactiveIsLast(updates, ids, id);
    }
  }

  method ReadAliases(semantic: seq<seq<string>>) returns (aliases: map<string, string>)
    ensures aliases == Aliases(semantic)
    ensures forall id :: id in aliases <==> exists k: nat :: LastGroupOf(semantic, id, k)
    ensures forall id, k: nat :: LastGroupOf(semantic, id, k) ==> aliases[id] == semantic[k][0]
  {
    aliases := map[];
    for i := 0 to |semantic|
      invariant aliases == Aliases(semantic[..i])
    {
      assert semantic[..i + 1][..i] == semantic[..i];
      var group := semantic[i];
      if group != [] {
        ghost var before := aliases;
        for j := 0 to |group|
          invariant aliases == AliasGroup(before, group[0], group[..j])
        {
          assert group[..j + 1][..j] == group[..j];
          aliases := aliases[group[j] := group[0]];
        }
        assert group[..|group|] == group;
      }
    }
    assert semantic[..|semantic|] == semantic;
    forall id ensures (id in aliases <==> exists k: nat :: LastGroupOf(semantic, id, k))
                      && forall k: nat :: LastGroupOf(semantic, id, k) ==> aliases[id] == semantic[k][0] {
      AliasIsLastLeader(semantic, id);
    }
  }

  // --- Semantic groups stay apart --------------------------------------------------------------

  predicate Capital(c: char) { 'A' <= c <= 'Z' }
  predicate HasCapital(s: string) { exists i :: 0 <= i < |s| && Capital(s[i]) }

  /** Normalization folds case: no capital letter is left. */
  ghost predicate FoldsCase(x: Text) { forall s: string :: !HasCapital(x.normal(s)) }

  /** Reviewers go by the display names of their backends, which are capitalised. */
  ghost predicate Capitalised(rounds: seq<seq<Vote>>) {
    forall r, v :: 0 <= r < |rounds| && 0 <= v < |rounds[r]| && rounds[r][v].structured ==>
      HasCapital(rounds[r][v].reviewer)
  }

  lemma IdCapital(subject: string, round: nat, reviewer: string, index: nat)
    requires HasCapital(reviewer)
    ensures HasCapital(ObservationId(subject, round, reviewer, index))
  {
    hide Decimal;
    var i :| 0 <= i < |reviewer| && Capital(reviewer[i]);
    var head := subject + "-r" + Decimal(round) + "-";
    var id := ObservationId(subject, round, reviewer, index);
    assert id == head + reviewer + ("-c" + Decimal(index));
    assert id[|head| + i] == reviewer[i];
  }

  /** Every semantic group names observations only, as the analyzer's answer is checked to do. */
  ghost predicate GroupsKnown(subject: string, rounds: seq<seq<Vote>>, semantic: seq<seq<string>>) {
    forall g, id :: g in semantic && id in g ==> exists o :: o in Observations(subject, rounds) && o.id == id
  }

  lemma LeaderCapital(subject: string, rounds: seq<seq<Vote>>, semantic: seq<seq<string>>, id: string)
    requires Capitalised(rounds) && GroupsKnown(subject, rounds, semantic) && id in Aliases(semantic)
    ensures HasCapital(Aliases(semantic)[id])
  {
    hide Observations, ObservationId, HasCapital, Aliases, ClaimsOf;
    AliasIsLastLeader(semantic, id);
    var k: nat :| LastGroupOf(semantic, id, k);
    var leader := semantic[k][0];
    assert semantic[k] in semantic && leader in semantic[k];
    var o :| o in Observations(subject, rounds) && o.id == leader;
    ObservationsAreClaims(subject, rounds, o);
    var r: nat, v: nat, i: nat :| IsClaim(subject, rounds, o, r, v, i);
    IdCapital(subject, r + 1, rounds[r][v].reviewer, i);
  }

  /** A semantic group never takes in an observation that no group names, whatever its text and source say. */
  lemma KeysNeverMeet(
    subject: string, rounds: seq<seq<Vote>>, semantic: seq<seq<string>>, a: Observation, b: Observation, x: Text)
    requires FoldsCase(x) && Capitalised(rounds) && GroupsKnown(subject, rounds, semantic)
    requires a.id in Aliases(semantic) && b.id !in Aliases(semantic)
    ensures KeyOf(a, Aliases(semantic), x) != KeyOf(b, Aliases(semantic), x)
  {
    hide HasCapital, Aliases, Capitalised, GroupsKnown;
    LeaderCapital(subject, rounds, semantic, a.id);
    var source := if b.claim.source.Some? then b.claim.source.value else "";
    assert !HasCapital(x.normal(source));
  }

  /** The members of a semantic group are exactly the active observations its leader stands for, of its status. */
  lemma {:induction false} SemanticMembers(
    subject: string, rounds: seq<seq<Vote>>, semantic: seq<seq<string>>, os: seq<Observation>,
    inactive: map<string, Update>,
    x: Text, a: Observation, o: Observation)
    requires FoldsCase(x) && Capitalised(rounds) && GroupsKnown(subject, rounds, semantic) && a.id in Aliases(semantic)
    ensures var aliases := Aliases(semantic);
            o in Members(os, inactive, aliases, x, KeyOf(a, aliases, x))
            <==> && o in os && o.id !in inactive && o.id in aliases
                 && aliases[o.id] == aliases[a.id] && o.claim.status == a.claim.status
    decreases |os|
  {
    hide FoldsCase, Capitalised, GroupsKnown, Aliases;
    if os != [] {
      var n := |os| - 1;
      assert os == os[..n] + [os[n]];
      SemanticMembers(subject, rounds, semantic, os[..n], inactive, x, a, o);
      if os[n].id !in Aliases(semantic) { KeysNeverMeet(subject, rounds, semantic, a, os[n], x); }
    }
  }
}
