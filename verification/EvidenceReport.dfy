/** The reconciled report: sorted groups and history, the rendered list, the candidates, and what each leaves out. */
module EvidenceReport {
  import opened Common
  import opened Lexical
  import opened Evidence
  import opened EvidenceGroups
  import opened EvidenceBudget
  import opened EvidenceCollection

  // --- Order -----------------------------------------------------------------------------------

  function Rank(s: Status): nat { match s case Verified => 0 case Reported => 1 case Missing => 2 }

  function Latest(rounds: seq<nat>): nat {
    if rounds == [] then 0
    else
      var front, last := Latest(rounds[..|rounds| - 1]), rounds[|rounds| - 1];
      if last > front then last else front
  }

  /** Groups by status, then newest first, then by fact; history newest first, then by id. */
  predicate Le(a: Shown, b: Shown) {
    match (a, b)
    case (Current(g), Current(h)) =>
      || Rank(g.status) < Rank(h.status)
      || (g.status == h.status
          && (Latest(g.rounds) > Latest(h.rounds) || (Latest(g.rounds) == Latest(h.rounds) && LexLe(g.fact, h.fact))))
    case (Former(p), Former(q)) => p.round > q.round || (p.round == q.round && LexLe(p.id, q.id))
    case (Current(_), Former(_)) => true
    case (Former(_), Current(_)) => false
  }

  lemma LeTotal(a: Shown, b: Shown)
    ensures Le(a, b) || Le(b, a)
  {
    if a.Current? && b.Current? { LexTotal(a.group.fact, b.group.fact); }
    if a.Former? && b.Former? { LexTotal(a.past.id, b.past.id); }
  }

  lemma LeTransitive(a: Shown, b: Shown, c: Shown)
    requires Le(a, b) && Le(b, c)
    ensures Le(a, c)
  {
    if a.Current? && b.Current? && c.Current? && LexLe(a.group.fact, b.group.fact)
      && LexLe(b.group.fact, c.group.fact) {
      LexTransitive(a.group.fact, b.group.fact, c.group.fact);
    }
    if a.Former? && b.Former? && c.Former? && LexLe(a.past.id, b.past.id) && LexLe(b.past.id, c.past.id) {
      LexTransitive(a.past.id, b.past.id, c.past.id);
    }
  }

  /** The newest of the rounds. */
  ghost predicate IsNewest(rounds: seq<nat>, n: nat) {
    n in rounds && forall r :: r in rounds ==> r <= n
  }

  lemma {:induction false} LatestIsNewest(rounds: seq<nat>)
    requires rounds != []
    ensures IsNewest(rounds, Latest(rounds))
    decreases |rounds|
  {
    var n := |rounds| - 1;
    assert rounds == rounds[..n] + [rounds[n]];
    if n > 0 { LatestIsNewest(rounds[..n]); }
  }

  /** Verified before reported before missing. */
  predicate StatusBefore(a: Status, b: Status) {
    (a == Verified && b != Verified) || (a == Reported && b == Missing)
  }

  /** Groups before history; groups by status, then newest round first, then by fact; history by round observed,
      newest first, then by id. */
  ghost predicate InOrder(a: Shown, b: Shown) {
    match (a, b)
    case (Current(g), Current(h)) =>
      || StatusBefore(g.status, h.status)
      || (g.status == h.status
          && forall m, n :: IsNewest(g.rounds, m) && IsNewest(h.rounds, n) ==>
               n < m || (n == m && LexLe(g.fact, h.fact)))
    case (Former(p), Former(q)) => q.round < p.round || (q.round == p.round && LexLe(p.id, q.id))
    case (Current(_), Former(_)) => true
    case (Former(_), Current(_)) => false
  }

  /** Sorted items are in order, one after another. */
  lemma SortedInOrder(items: seq<Shown>, i: nat, j: nat)
    requires Sorted(items) && i < j < |items|
    ensures InOrder(items[i], items[j])
  {
    hide Latest;
    assert Le(items[i], items[j]);
    if items[i].Current? && items[j].Current? {
      var g, h := items[i].group, items[j].group;
      forall m, n | IsNewest(g.rounds, m) && IsNewest(h.rounds, n)
        ensures m == Latest(g.rounds) && n == Latest(h.rounds)
      {
        LatestIsNewest(g.rounds);
        LatestIsNewest(h.rounds);
      }
    }
  }

  function Insert(x: Shown, xs: seq<Shown>): seq<Shown> {
    if xs == [] then [x] else if Le(x, xs[0]) then [x] + xs else [xs[0]] + Insert(x, xs[1..])
  }

  function Sort(xs: seq<Shown>): seq<Shown> {
    if xs == [] then [] else Insert(xs[0], Sort(xs[1..]))
  }

  predicate Sorted(xs: seq<Shown>) { forall i, j :: 0 <= i < j < |xs| ==> Le(xs[i], xs[j]) }

  lemma {:induction false} InsertPermutes(x: Shown, xs: seq<Shown>)
    ensures multiset(Insert(x, xs)) == multiset(xs) + multiset{x}
    decreases |xs|
  {
    hide Le;
    if xs != [] {
      assert xs == [xs[0]] + xs[1..];
      InsertPermutes(x, xs[1..]);
    }
  }

  lemma {:induction false} InsertSorts(x: Shown, xs: seq<Shown>)
    requires Sorted(xs)
    ensures Sorted(Insert(x, xs))
    decreases |xs|
  {
    hide Le;
    if xs != [] {
      LeTotal(x, xs[0]);
      if Le(x, xs[0]) {
        forall j | 0 <= j < |xs| ensures Le(x, xs[j]) { if j > 0 { LeTransitive(x, xs[0], xs[j]); } }
      } else {
        InsertSorts(x, xs[1..]);
        InsertPermutes(x, xs[1..]);
        var rest := Insert(x, xs[1..]);
        forall j | 0 <= j < |rest| ensures Le(xs[0], rest[j]) {
          assert rest[j] in multiset(rest);
          assert rest[j] == x || rest[j] in xs[1..];
        }
      }
    }
  }

  lemma {:induction false} SortSorts(xs: seq<Shown>)
    ensures Sorted(Sort(xs)) && multiset(Sort(xs)) == multiset(xs) && |Sort(xs)| == |xs|
    decreases |xs|
  {
    hide Insert, Le;
    if xs != [] {
      assert xs == [xs[0]] + xs[1..];
      SortSorts(xs[1..]);
      InsertSorts(xs[0], Sort(xs[1..]));
      InsertPermutes(xs[0], Sort(xs[1..]));
      assert |multiset(Sort(xs))| == |multiset(xs)|;
    }
  }

  // --- The report ------------------------------------------------------------------------------

  function Currents(keys: seq<Key>, groups: map<Key, Group>): seq<Shown>
    requires forall k :: k in keys ==> k in groups
  {
    if keys == [] then [] else Currents(keys[..|keys| - 1], groups) + [Current(groups[keys[|keys| - 1]])]
  }

  function Formers(history: seq<Past>): seq<Shown> {
    if history == [] then [] else Formers(history[..|history| - 1]) + [Former(history[|history| - 1])]
  }

  /** The observations an item stands for. */
  function Standing(item: Shown): multiset<string> {
    match item case Current(g) => multiset(g.ids) case Former(p) => multiset{p.id}
  }

  function AllStanding(items: seq<Shown>): multiset<string> {
    if items == [] then multiset{} else AllStanding(items[..|items| - 1]) + Standing(items[|items| - 1])
  }

  lemma {:induction false} StandingAppend(xs: seq<Shown>, ys: seq<Shown>)
    ensures AllStanding(xs + ys) == AllStanding(xs) + AllStanding(ys)
    decreases |ys|
  {
    hide Standing;
    if ys == [] {
      assert xs + ys == xs;
    } else {
      var n := |ys| - 1;
      assert (xs + ys)[..|xs| + n] == xs + ys[..n];
      StandingAppend(xs, ys[..n]);
    }
  }

  lemma {:induction false} StandingInsert(x: Shown, xs: seq<Shown>)
    ensures AllStanding(Insert(x, xs)) == AllStanding(xs) + Standing(x)
    decreases |xs|
  {
    hide Standing, Le, AllStanding;
    StandingOne(x);
    if xs == [] {
      StandingNone();
    } else {
      assert xs == [xs[0]] + xs[1..];
      StandingAppend([x], xs);
      StandingAppend([xs[0]], xs[1..]);
      StandingInsert(x, xs[1..]);
      StandingAppend([xs[0]], Insert(x, xs[1..]));
    }
  }

  lemma StandingOne(x: Shown)
    ensures AllStanding([x]) == Standing(x)
  {
    assert [x][..0] == [];
  }

  lemma StandingNone()
    ensures AllStanding([]) == multiset{}
  {
  }

  lemma {:induction false} StandingSort(xs: seq<Shown>)
    ensures AllStanding(Sort(xs)) == AllStanding(xs)
    decreases |xs|
  {
    hide Standing, Insert, AllStanding;
    if xs != [] {
      StandingSort(xs[1..]);
      StandingInsert(xs[0], Sort(xs[1..]));
      assert xs == [xs[0]] + xs[1..];
      StandingAppend([xs[0]], xs[1..]);
      StandingOne(xs[0]);
    }
  }

  lemma {:induction false} CurrentsStand(keys: seq<Key>, groups: map<Key, Group>)
    requires forall k :: k in keys ==> k in groups
    ensures AllStanding(Currents(keys, groups)) == IdsIn(keys, groups) && |Currents(keys, groups)| == |keys|
    decreases |keys|
  {
    if keys != [] {
      var n := |keys| - 1;
      CurrentsStand(keys[..n], groups);
      StandingAppend(Currents(keys[..n], groups), [Current(groups[keys[n]])]);
      StandingOne(Current(groups[keys[n]]));
    }
  }

  lemma {:induction false} FormersStand(history: seq<Past>)
    ensures AllStanding(Formers(history)) == PastIds(history)
    decreases |history|
  {
    if history != [] {
      var n := |history| - 1;
      FormersStand(history[..n]);
      StandingAppend(Formers(history[..n]), [Former(history[n])]);
      StandingOne(Former(history[n]));
    }
  }

  datatype Report = Report(
    entries: seq<Shown>, history: seq<Shown>, rendered: seq<Shown>, omitted: int,
    candidates: seq<Observation>, candidatesOmitted: int)

  /** The report accounts for every observation once, shows a maximal part of it, and counts what it leaves out. */
  ghost predicate Accounts(r: Report, os: seq<Observation>, updates: seq<Update>, x: Text) {
    && AllStanding(r.entries + r.history) == multiset(Ids(os))
    && Sorted(r.entries + r.history)
    && (forall e :: e in r.entries ==> e.Current?) && (forall h :: h in r.history ==> h.Former?)
    && r.rendered == Rendered(r.entries + r.history, x)
    && r.omitted == |r.entries| + |r.history| - |r.rendered| && r.omitted >= 0
    && r.candidates == Selected(Priority(os, updates), ById(os), x)
    && r.candidatesOmitted == |os| - |r.candidates|
  }

  lemma {:induction false} CurrentsAre(keys: seq<Key>, groups: map<Key, Group>)
    requires forall k :: k in keys ==> k in groups
    ensures forall e :: e in Currents(keys, groups) ==> e.Current?
    decreases |keys|
  {
    if keys != [] { CurrentsAre(keys[..|keys| - 1], groups); }
  }

  lemma {:induction false} FormersAre(history: seq<Past>)
    ensures forall e :: e in Formers(history) ==> e.Former?
    decreases |history|
  {
    if history != [] { FormersAre(history[..|history| - 1]); }
  }

  lemma SortMembers(xs: seq<Shown>)
    ensures forall y :: y in Sort(xs) <==> y in xs
  {
    SortSorts(xs);
    hide Sort;
    forall y ensures y in Sort(xs) <==> y in xs { assert y in multiset(Sort(xs)) <==> y in multiset(xs); }
  }

  lemma SortedConcat(entries: seq<Shown>, history: seq<Shown>)
    requires Sorted(entries) && Sorted(history)
    requires (forall e :: e in entries ==> e.Current?) && (forall h :: h in history ==> h.Former?)
    ensures Sorted(entries + history)
  {
    var all := entries + history;
    forall i, j | 0 <= i < j < |all| ensures Le(all[i], all[j]) {
      if i < |entries| <= j { assert entries[i] in entries && history[j - |entries|] in history; }
    }
  }

  lemma ReportAccounts(os: seq<Observation>, inactive: map<string, Update>, aliases: map<string, string>, x: Text)
    ensures var t := Grouped(os, inactive, aliases, x);
            && WellFormed(t)
            && var entries, history := Sort(Currents(t.keys, t.groups)), Sort(Formers(History(os, inactive, x)));
            && AllStanding(entries + history) == multiset(Ids(os)) && Sorted(entries + history)
            && (forall e :: e in entries ==> e.Current?) && (forall h :: h in history ==> h.Former?)
  {
    Conserved(os, inactive, aliases, x);
    var t, past := Grouped(os, inactive, aliases, x), History(os, inactive, x);
    var entries, history := Sort(Currents(t.keys, t.groups)), Sort(Formers(past));
    hide Sort, Grouped, History, Le, Standing, AllStanding, Currents, Formers, IdsIn, PastIds, Ids;
    CurrentsStand(t.keys, t.groups);
    FormersStand(past);
    StandingSort(Currents(t.keys, t.groups));
    StandingSort(Formers(past));
    StandingAppend(entries, history);
    CurrentsAre(t.keys, t.groups);
    FormersAre(past);
    SortMembers(Currents(t.keys, t.groups));
    SortMembers(Formers(past));
    SortSorts(Currents(t.keys, t.groups));
    SortSorts(Formers(past));
    SortedConcat(entries, history);
  }

  /** The report's entries are the sorted groups, and its history the sorted withdrawn observations. */
  ghost predicate Shows(r: Report, os: seq<Observation>, updates: seq<Update>, semantic: seq<seq<string>>, x: Text) {
    var inactive := Inactive(updates, set o | o in os :: o.id);
    var t := Grouped(os, inactive, Aliases(semantic), x);
    WellFormed(t) && r.entries == Sort(Currents(t.keys, t.groups))
      && r.history == Sort(Formers(History(os, inactive, x)))
  }

  /** Collects, groups, sorts and renders. */
  method ReconcileEvidence(subject: string, rounds: seq<seq<Vote>>, semantic: seq<seq<string>>, x: Text)
    returns (report: Report, warnings: seq<string>)
    ensures Accounts(report, Observations(subject, rounds), Updates(rounds), x)
    ensures Shows(report, Observations(subject, rounds), Updates(rounds), semantic, x)
    ensures forall i, j :: 0 <= i < j < |report.entries + report.history| ==>
              InOrder((report.entries + report.history)[i], (report.entries + report.history)[j])
    ensures var ids := set o | o in Observations(subject, rounds) :: o.id;
            |warnings| == |Updates(rounds)| - |TargetsIn(Updates(rounds), ids)|
  {
    hide Observations, Updates, Inactive, Aliases, Grouped, History, Sort, Sorted, AllStanding, Ids, Rendered,
      Selected, ById, InOrder;
    var os, updates := CollectEvidence(subject, rounds);
    var inactive, aliases, table, past;
    inactive, warnings := ApplyUpdates(updates, set o | o in os :: o.id);
    aliases := ReadAliases(semantic);
    table, past := GroupObservations(os, inactive, aliases, x);
    ReportAccounts(os, inactive, aliases, x);
    var entries := Sort(Currents(table.keys, table.groups));
    var history := Sort(Formers(past));
    var candidates := BoundedCandidates(os, updates, x);
    var rendered := RenderEvidence(entries + history, x);
    RenderedMaximal(entries + history, x);
    FewerShown(rendered, entries + history);
    forall i, j | 0 <= i < j < |entries + history|
      ensures InOrder((entries + history)[i], (entries + history)[j])
    {
      SortedInOrder(entries + history, i, j);
    }
    report := Report(entries, history, rendered, |entries| + |history| - |rendered|, candidates, |os| - |candidates|);
  }

  lemma FewerShown(a: seq<Shown>, b: seq<Shown>)
    requires multiset(a) <= multiset(b)
    ensures |a| <= |b|
  {
    assert |multiset(b)| == |multiset(a)| + |multiset(b) - multiset(a)|;
  }
}
