/** Evidence reconciliation: observations into groups and history, and the two bounded lists shown to analysts. */
module Evidence {
  import opened Common
  import opened Decimals

  const MAX_CANDIDATES := 64
  const MAX_CANDIDATE_BYTES := 24_000
  const MAX_RENDERED := 50
  const MAX_RENDERED_BYTES := 16_000
  const MAX_FACT_BYTES := 512
  const MAX_SOURCE_BYTES := 256
  const MAX_REASON_BYTES := 512

  datatype Status = Verified | Reported | Missing

  datatype Claim = Claim(fact: string, status: Status, source: Option<string>)
  datatype Citation = Citation(fact: string, source: Option<string>)
  datatype Revision = Revision(action: string, target: string, reason: string, replacement: Option<nat>)

  /** A parsed response; only structured ones carry evidence. */
  datatype Vote = Vote(reviewer: string, structured: bool, claims: seq<Claim>, citations: seq<Citation>,
    revisions: seq<Revision>)

  datatype Observation = Observation(id: string, round: nat, reviewer: string, claim: Claim)
  datatype Update = Update(round: nat, reviewer: string, revision: Revision)

  /** Byte clipping, text normalization and JSON sizes, as the reconciler uses them. */
  datatype Text = Text(clip: (string, nat) -> string, normal: string -> string,
                       candidateSize: Observation -> nat, shownSize: Shown -> nat)

  datatype Group = Group(ids: seq<string>, fact: string, status: Status, sources: seq<string>,
                         contributors: seq<string>, rounds: seq<nat>)
  datatype Past = Past(id: string, fact: string, update: Update, reason: string, round: nat, reviewer: string)
  datatype Shown = Current(group: Group) | Former(past: Past)

  // --- Collection ------------------------------------------------------------------------------

  function ObservationId(subject: string, round: nat, reviewer: string, index: nat): string {
    subject + "-r" + Decimal(round) + "-" + reviewer + "-c" + Decimal(index)
  }

  /** A vote's claims; plain citations count as reported, never as verified. */
  function ClaimsOf(v: Vote): seq<Claim> {
    v.claims + seq(|v.citations|,
      i requires 0 <= i < |v.citations| => Claim(v.citations[i].fact, Reported, v.citations[i].source))
  }

  function VoteObservations(subject: string, round: nat, v: Vote): seq<Observation> {
    if !v.structured then []
    else
      var claims := ClaimsOf(v);
      seq(|claims|, i requires 0 <= i < |claims| =>
        Observation(ObservationId(subject, round, v.reviewer, i), round, v.reviewer, claims[i]))
  }

  function VoteUpdates(round: nat, v: Vote): seq<Update> {
    if !v.structured then []
    else seq(|v.revisions|, i requires 0 <= i < |v.revisions| => Update(round, v.reviewer, v.revisions[i]))
  }

  function RoundObservations(subject: string, round: nat, votes: seq<Vote>): seq<Observation> {
    if votes == [] then []
    else RoundObservations(subject, round, votes[..|votes| - 1]) + VoteObservations(subject, round, votes[|votes| - 1])
  }

  function RoundUpdates(round: nat, votes: seq<Vote>): seq<Update> {
    if votes == [] then []
    else RoundUpdates(round, votes[..|votes| - 1]) + VoteUpdates(round, votes[|votes| - 1])
  }

  function Observations(subject: string, rounds: seq<seq<Vote>>): seq<Observation> {
    if rounds == [] then []
    else Observations(subject, rounds[..|rounds| - 1]) + RoundObservations(subject, |rounds|, rounds[|rounds| - 1])
  }

  function Updates(rounds: seq<seq<Vote>>): seq<Update> {
    if rounds == [] then []
    else Updates(rounds[..|rounds| - 1]) + RoundUpdates(|rounds|, rounds[|rounds| - 1])
  }

  // --- Grouping --------------------------------------------------------------------------------

  type Key = (string, string, Status)

  /** Groups by key, with the keys in the order they first appeared. */
  datatype Table = Table(keys: seq<Key>, groups: map<Key, Group>)

  function KeyOf(o: Observation, aliases: map<string, string>, x: Text): Key {
    if o.id in aliases then ("semantic", aliases[o.id], o.claim.status)
    else (x.normal(o.claim.fact), x.normal(if o.claim.source.Some? then o.claim.source.value else ""), o.claim.status)
  }

  function Include<T(==)>(xs: seq<T>, x: T): seq<T> { if x in xs then xs else xs + [x] }

  /** The group with one more member; a source is compared before it is clipped. */
  function Joined(g: Group, o: Observation, x: Text): Group {
    var source := o.claim.source;
    g.(ids := g.ids + [o.id],
       sources := if source.Some? && source.value != "" && source.value !in g.sources
                  then g.sources + [x.clip(source.value, MAX_SOURCE_BYTES)] else g.sources,
       contributors := Include(g.contributors, o.reviewer),
       rounds := Include(g.rounds, o.round))
  }

  function Place(t: Table, k: Key, o: Observation, x: Text): Table {
    if k in t.groups then Table(t.keys, t.groups[k := Joined(t.groups[k], o, x)])
    else
      var fresh' := Group([], x.clip(o.claim.fact, MAX_FACT_BYTES), o.claim.status, [], [], []);
      Table(t.keys + [k], t.groups[k := Joined(fresh', o, x)])
  }

  function Inactive(updates: seq<Update>, ids: set<string>): map<string, Update> {
    if updates == [] then map[]
    else
      var u := updates[|updates| - 1];
      var front := Inactive(updates[..|updates| - 1], ids);
      if u.revision.target in ids then front[u.revision.target := u] else front
  }

  function AliasGroup(aliases: map<string, string>, leader: string, members: seq<string>): map<string, string> {
    if members == [] then aliases
    else AliasGroup(aliases, leader, members[..|members| - 1])[members[|members| - 1] := leader]
  }

  function Aliases(groups: seq<seq<string>>): map<string, string> {
    if groups == [] then map[]
    else
      var g := groups[|groups| - 1];
      var front := Aliases(groups[..|groups| - 1]);
      if g == [] then front else AliasGroup(front, g[0], g)
  }

  function Grouped(os: seq<Observation>, inactive: map<string, Update>, aliases: map<string, string>, x: Text): Table {
    if os == [] then Table([], map[])
    else
      var o := os[|os| - 1];
      var front := Grouped(os[..|os| - 1], inactive, aliases, x);
      if o.id in inactive then front else Place(front, KeyOf(o, aliases, x), o, x)
  }

  function PastOf(o: Observation, u: Update, x: Text): Past {
    Past(o.id, x.clip(o.claim.fact, MAX_FACT_BYTES), u, x.clip(u.revision.reason, MAX_REASON_BYTES), o.round,
      o.reviewer)
  }

  function History(os: seq<Observation>, inactive: map<string, Update>, x: Text): seq<Past> {
    if os == [] then []
    else
      var o := os[|os| - 1];
      var front := History(os[..|os| - 1], inactive, x);
      if o.id in inactive then front + [PastOf(o, inactive[o.id], x)] else front
  }

  /** The updates whose target was observed. */
  function TargetsIn(updates: seq<Update>, ids: set<string>): (r: seq<Update>)
    ensures |r| <= |updates|
  {
    if updates == [] then []
    else
      var front := TargetsIn(updates[..|updates| - 1], ids);
      if updates[|updates| - 1].revision.target in ids then front + [updates[|updates| - 1]] else front
  }

  /** Withdrawn and revised observations into history, the others into groups by key. */
  method GroupObservations(os: seq<Observation>, inactive: map<string, Update>, aliases: map<string, string>, x: Text)
    returns (table: Table, history: seq<Past>)
    ensures table == Grouped(os, inactive, aliases, x) && history == History(os, inactive, x)
  {
    hide Place, KeyOf, PastOf;
    table, history := Table([], map[]), [];
    for i := 0 to |os|
      invariant table == Grouped(os[..i], inactive, aliases, x) && history == History(os[..i], inactive, x)
    {
      assert os[..i + 1][..i] == os[..i];
      var o := os[i];
      if o.id in inactive {
        history := history + [PastOf(o, inactive[o.id], x)];
        continue;
      }
      table := Place(table, KeyOf(o, aliases, x), o, x);
    }
    assert os[..|os|] == os;
  }
}
