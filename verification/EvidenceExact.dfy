/** Which observations share a group, what a group lists, and what history keeps, told from the observations. */
module EvidenceExact {
  import opened Common
  import opened Evidence
  import opened EvidenceGroups
  import opened EvidenceCollection

  // --- Who shares a group ----------------------------------------------------------------------

  /** Some group holds both ids. */
  ghost predicate Together(t: Table, a: string, b: string) {
    exists k :: k in t.groups && a in t.groups[k].ids && b in t.groups[k].ids
  }

  /** An active observation of this id and key. */
  ghost predicate IsMember(
    o: Observation, inactive: map<string, Update>, aliases: map<string, string>, x: Text, k: Key, id: string)
  {
    o.id == id && id !in inactive && KeyOf(o, aliases, x) == k
  }

  ghost predicate HasMember(
    os: seq<Observation>, inactive: map<string, Update>, aliases: map<string, string>, x: Text, k: Key, id: string)
  {
    exists i :: 0 <= i < |os| && IsMember(os[i], inactive, aliases, x, k, id)
  }

  lemma HasMemberMore(
    front: seq<Observation>, o: Observation, inactive: map<string, Update>, aliases: map<string, string>, x: Text,
    k: Key, id: string)
    ensures HasMember(front + [o], inactive, aliases, x, k, id)
            <==> HasMember(front, inactive, aliases, x, k, id) || IsMember(o, inactive, aliases, x, k, id)
  {
    hide IsMember;
    var os := front + [o];
    if HasMember(front, inactive, aliases, x, k, id) {
      var i :| 0 <= i < |front| && IsMember(front[i], inactive, aliases, x, k, id);
      assert os[i] == front[i];
    }
    if IsMember(o, inactive, aliases, x, k, id) { assert os[|front|] == o; }
  }

  lemma {:induction false} MemberIds(
    os: seq<Observation>, inactive: map<string, Update>, aliases: map<string, string>, x: Text, k: Key, id: string)
    ensures id in Ids(Members(os, inactive, aliases, x, k)) <==> HasMember(os, inactive, aliases, x, k, id)
    decreases |os|
  {
    hide KeyOf, HasMember;
    if os == [] {
      NoMember(inactive, aliases, x, k, id);
    } else {
      var n := |os| - 1;
      var front, o := os[..n], os[n];
      MemberIds(front, inactive, aliases, x, k, id);
      assert os == front + [o];
      HasMemberMore(front, o, inactive, aliases, x, k, id);
      OneMore(Members(front, inactive, aliases, x, k), o);
      hide Ids;
    }
  }

  lemma NoMember(inactive: map<string, Update>, aliases: map<string, string>, x: Text, k: Key, id: string)
    ensures !HasMember([], inactive, aliases, x, k, id) && Ids([]) == []
  {
  }

  lemma SameObservation(os: seq<Observation>, a: Observation, b: Observation)
    requires Distinct(os) && a in os && b in os && a.id == b.id
    ensures a == b
  {
    var i :| 0 <= i < |os| && os[i] == a;
    var j :| 0 <= j < |os| && os[j] == b;
  }

  /** An active observation is in exactly the group of its key. */
  lemma GroupOf(
    os: seq<Observation>, inactive: map<string, Update>, aliases: map<string, string>, x: Text, a: Observation, k: Key)
    requires Distinct(os) && a in os && a.id !in inactive
    ensures var t := Grouped(os, inactive, aliases, x);
            k in t.groups && a.id in t.groups[k].ids <==> k == KeyOf(a, aliases, x)
  {
    GroupsExact(os, inactive, aliases, x);
    MemberIds(os, inactive, aliases, x, k, a.id);
    assert Ids([]) == [];
    hide KeyOf, Grouped, Members, Ids, Distinct;
    var i :| 0 <= i < |os| && os[i] == a;
    assert IsMember(os[i], inactive, aliases, x, KeyOf(a, aliases, x), a.id);
    forall j | 0 <= j < |os| && os[j].id == a.id ensures os[j] == a { SameObservation(os, os[j], a); }
  }

  lemma TogetherByKey(
    os: seq<Observation>, inactive: map<string, Update>, aliases: map<string, string>, x: Text, a: Observation,
    b: Observation)
    requires Distinct(os) && a in os && b in os && a.id !in inactive && b.id !in inactive
    ensures Together(Grouped(os, inactive, aliases, x), a.id, b.id) <==> KeyOf(a, aliases, x) == KeyOf(b, aliases, x)
  {
    hide KeyOf, Grouped, Distinct;
    var t, key := Grouped(os, inactive, aliases, x), KeyOf(a, aliases, x);
    GroupOf(os, inactive, aliases, x, a, key);
    GroupOf(os, inactive, aliases, x, b, key);
    if Together(t, a.id, b.id) {
      var k :| k in t.groups && a.id in t.groups[k].ids && b.id in t.groups[k].ids;
      GroupOf(os, inactive, aliases, x, a, k);
      GroupOf(os, inactive, aliases, x, b, k);
    }
  }

  /** The source an observation is compared by: none is the empty one. */
  function SourceText(o: Observation): string {
    match o.claim.source case Some(source) => source case None => ""
  }

  /** No semantic group contains the id. */
  predicate Ungrouped(semantic: seq<seq<string>>, id: string) {
    forall k :: 0 <= k < |semantic| ==> id !in semantic[k]
  }

  lemma UngroupedMeans(semantic: seq<seq<string>>, id: string)
    ensures id in Aliases(semantic) <==> !Ungrouped(semantic, id)
  {
    AliasIsLastLeader(semantic, id);
    hide Aliases;
    if !Ungrouped(semantic, id) { var k := LastContaining(semantic, id, |semantic|); }
  }

  lemma {:induction false} LastContaining(semantic: seq<seq<string>>, id: string, n: nat) returns (k: nat)
    requires n <= |semantic| && exists j :: 0 <= j < n && id in semantic[j]
    requires forall j :: n <= j < |semantic| ==> id !in semantic[j]
    ensures LastGroupOf(semantic, id, k)
    decreases n
  {
    if id in semantic[n - 1] { k := n - 1; } else { k := LastContaining(semantic, id, n - 1); }
  }

  /** Two active observations that no semantic group names share a group exactly when normalized fact, normalized
      source and status all agree. */
  lemma TextualTogether(
    os: seq<Observation>, inactive: map<string, Update>, semantic: seq<seq<string>>, x: Text, a: Observation,
    b: Observation)
    requires Distinct(os) && a in os && b in os && a.id !in inactive && b.id !in inactive
    requires Ungrouped(semantic, a.id) && Ungrouped(semantic, b.id)
    ensures Together(Grouped(os, inactive, Aliases(semantic), x), a.id, b.id)
            <==> && x.normal(a.claim.fact) == x.normal(b.claim.fact)
                 && x.normal(SourceText(a)) == x.normal(SourceText(b)) && a.claim.status == b.claim.status
  {
    UngroupedMeans(semantic, a.id);
    UngroupedMeans(semantic, b.id);
    TogetherByKey(os, inactive, Aliases(semantic), x, a, b);
    hide Grouped, Aliases, Distinct, Together;
  }

  /** Two active observations that semantic groups name share a group exactly when the last groups naming them have
      the same leader and their statuses agree. */
  lemma SemanticTogether(
    os: seq<Observation>, inactive: map<string, Update>, semantic: seq<seq<string>>, x: Text, a: Observation,
    b: Observation, i: nat, j: nat)
    requires Distinct(os) && a in os && b in os && a.id !in inactive && b.id !in inactive
    requires LastGroupOf(semantic, a.id, i) && LastGroupOf(semantic, b.id, j)
    ensures Together(Grouped(os, inactive, Aliases(semantic), x), a.id, b.id)
            <==> semantic[i][0] == semantic[j][0] && a.claim.status == b.claim.status
  {
    AliasIsLastLeader(semantic, a.id);
    AliasIsLastLeader(semantic, b.id);
    TogetherByKey(os, inactive, Aliases(semantic), x, a, b);
    hide Grouped, Aliases, Distinct, Together;
  }

  /** A named observation never shares a group with one no semantic group names. */
  lemma NeverTogether(
    subject: string, rounds: seq<seq<Vote>>, inactive: map<string, Update>, semantic: seq<seq<string>>, x: Text,
    a: Observation, b: Observation)
    requires var os := Observations(subject, rounds);
             Distinct(os) && a in os && b in os && a.id !in inactive && b.id !in inactive
    requires FoldsCase(x) && Capitalised(rounds) && GroupsKnown(subject, rounds, semantic)
    requires !Ungrouped(semantic, a.id) && Ungrouped(semantic, b.id)
    ensures !Together(Grouped(Observations(subject, rounds), inactive, Aliases(semantic), x), a.id, b.id)
  {
    hide Grouped, Aliases, Distinct, Together, Observations, KeyOf, FoldsCase, Capitalised, GroupsKnown, Ungrouped;
    UngroupedMeans(semantic, a.id);
    UngroupedMeans(semantic, b.id);
    TogetherByKey(Observations(subject, rounds), inactive, Aliases(semantic), x, a, b);
    KeysNeverMeet(subject, rounds, semantic, a, b, x);
  }

  // --- What a group lists ----------------------------------------------------------------------

  /** Clipping a clipped source changes nothing: the clip respects its own limit. */
  ghost predicate ClipsOnce(x: Text) {
    forall s: string :: x.clip(x.clip(s, MAX_SOURCE_BYTES), MAX_SOURCE_BYTES) == x.clip(s, MAX_SOURCE_BYTES)
  }

  function Clipped(o: Observation, x: Text): string { x.clip(SourceText(o), MAX_SOURCE_BYTES) }

  /** Member `j` has a source, and no earlier member's source clips to it. */
  ghost predicate ListsSource(members: seq<Observation>, x: Text, j: nat) {
    && j < |members| && SourceText(members[j]) != ""
    && forall i :: 0 <= i < j && SourceText(members[i]) != "" ==> Clipped(members[i], x) != SourceText(members[j])
  }

  /** The clipped sources of the members that list one, in order. */
  ghost function Listed(members: seq<Observation>, x: Text): (r: seq<string>)
    decreases |members|
  {
    if members == [] then []
    else
      var n := |members| - 1;
      Listed(members[..n], x) + if ListsSource(members, x, n) then [Clipped(members[n], x)] else []
  }

  lemma {:induction false} ListedHas(members: seq<Observation>, x: Text, s: string)
    ensures s in Listed(members, x) <==> exists j: nat :: ListsSource(members, x, j) && Clipped(members[j], x) == s
    decreases |members|
  {
    if members != [] {
      var n := |members| - 1;
      ListedHas(members[..n], x, s);
      forall j: nat ensures j < n ==> (ListsSource(members, x, j) <==> ListsSource(members[..n], x, j))
                    ensures ListsSource(members, x, j) ==> j <= n
      {
        ListsFront(members, x, j);
      }
      hide ListsSource, Clipped;
    }
  }

  lemma ListsFront(members: seq<Observation>, x: Text, j: nat)
    requires members != []
    ensures j < |members| - 1 ==> (ListsSource(members, x, j) <==> ListsSource(members[..|members| - 1], x, j))
    ensures ListsSource(members, x, j) ==> j <= |members| - 1
  {
    hide Clipped, SourceText;
  }

  lemma LatestSource(members: seq<Observation>, x: Text, s: string)
    requires ClipsOnce(x)
    ensures s in Listed(members, x)
            <==> exists i :: 0 <= i < |members| && SourceText(members[i]) != "" && Clipped(members[i], x) == s
  {
    ListedHas(members, x, s);
    if exists i :: 0 <= i < |members| && SourceText(members[i]) != "" && Clipped(members[i], x) == s {
      var i := FirstClip(members, x, s, |members|);
      assert ListsSource(members, x, i) by {
        forall h | 0 <= h < i && SourceText(members[h]) != ""
          ensures Clipped(members[h], x) != SourceText(members[i])
        {
          assert x.clip(Clipped(members[h], x), MAX_SOURCE_BYTES) == Clipped(members[h], x);
        }
      }
    }
  }

  lemma {:induction false} FirstClip(members: seq<Observation>, x: Text, s: string, n: nat) returns (i: nat)
    requires n <= |members|
    requires exists j :: 0 <= j < n && SourceText(members[j]) != "" && Clipped(members[j], x) == s
    ensures i < |members| && SourceText(members[i]) != "" && Clipped(members[i], x) == s
    ensures forall h :: 0 <= h < i && SourceText(members[h]) != "" ==> Clipped(members[h], x) != s
    decreases n
  {
    if exists j :: 0 <= j < n - 1 && SourceText(members[j]) != "" && Clipped(members[j], x) == s {
      i := FirstClip(members, x, s, n - 1);
    } else {
      i := n - 1;
    }
  }

  lemma ListedMore(members: seq<Observation>, o: Observation, x: Text)
    requires ClipsOnce(x)
    ensures Listed(members + [o], x)
            == Listed(members, x)
               + if SourceText(o) != "" && SourceText(o) !in Listed(members, x) then [Clipped(o, x)] else []
  {
    var more := members + [o];
    assert more[..|members|] == members;
    LatestSource(members, x, SourceText(o));
    assert forall i :: 0 <= i < |members| ==> more[i] == members[i];
    hide Listed, ClipsOnce, Clipped;
    assert Listed(more, x) == Listed(members, x) + if ListsSource(more, x, |members|) then [Clipped(o, x)] else [] by {
      hide *;
      ListedLast(more, x);
    }
  }

  lemma ListedLast(members: seq<Observation>, x: Text)
    requires members != []
    ensures var n := |members| - 1;
            Listed(members, x)
            == Listed(members[..n], x) + if ListsSource(members, x, n) then [Clipped(members[n], x)] else []
  {
  }

  ghost predicate SourcesAre(
    t: Table, os: seq<Observation>, inactive: map<string, Update>, aliases: map<string, string>, x: Text)
  {
    forall k :: k in t.groups ==> t.groups[k].sources == Listed(Members(os, inactive, aliases, x, k), x)
  }

  lemma JoinedSources(g: Group, o: Observation, x: Text)
    ensures Joined(g, o, x).sources
            == g.sources + if SourceText(o) != "" && SourceText(o) !in g.sources then [Clipped(o, x)] else []
  {
  }

  function Base(t: Table, k: Key, o: Observation, x: Text): Group {
    if k in t.groups then t.groups[k] else Group([], x.clip(o.claim.fact, MAX_FACT_BYTES), o.claim.status, [], [], [])
  }

  lemma PlacedAt(t: Table, k: Key, o: Observation, x: Text)
    ensures Place(t, k, o, x).groups == t.groups[k := Joined(Base(t, k, o, x), o, x)]
  {
  }

  lemma BaseSources(
    t: Table, os: seq<Observation>, inactive: map<string, Update>, aliases: map<string, string>, x: Text, k: Key,
    o: Observation)
    requires GroupsAre(t, os, inactive, aliases, x) && SourcesAre(t, os, inactive, aliases, x)
    ensures Base(t, k, o, x).sources == Listed(Members(os, inactive, aliases, x, k), x)
  {
    hide Members, Summarizes, WellFormed;
    ListedNone(x);
  }

  lemma MemberMore(
    os: seq<Observation>, inactive: map<string, Update>, aliases: map<string, string>, x: Text, k: Key)
    requires os != [] && os[|os| - 1].id !in inactive
    ensures var front, o := os[..|os| - 1], os[|os| - 1];
            Members(os, inactive, aliases, x, k)
            == Members(front, inactive, aliases, x, k) + if KeyOf(o, aliases, x) == k then [o] else []
  {
  }

  lemma PlaceSources(
    t: Table, os: seq<Observation>, inactive: map<string, Update>, aliases: map<string, string>, x: Text)
    requires ClipsOnce(x) && os != [] && os[|os| - 1].id !in inactive
    requires GroupsAre(t, os[..|os| - 1], inactive, aliases, x) && SourcesAre(t, os[..|os| - 1], inactive, aliases, x)
    ensures var o := os[|os| - 1]; SourcesAre(Place(t, KeyOf(o, aliases, x), o, x), os, inactive, aliases, x)
  {
    var front, o := os[..|os| - 1], os[|os| - 1];
    var key := KeyOf(o, aliases, x);
    var members := Members(front, inactive, aliases, x, key);
    ListedMore(members, o, x);
    BaseSources(t, front, inactive, aliases, x, key, o);
    PlacedAt(t, key, o, x);
    JoinedSources(Base(t, key, o, x), o, x);
    hide Listed, ClipsOnce, Clipped, KeyOf, Joined, GroupsAre, Members, Place, Base, SourceText;
    var r := Place(t, key, o, x);
    forall k | k in r.groups ensures r.groups[k].sources == Listed(Members(os, inactive, aliases, x, k), x) {
      MemberMore(os, inactive, aliases, x, k);
    }
  }

  /** A group lists, in order, the clipped source of each member that has one no earlier member's source clips to. */
  lemma {:induction false} SourcesExact(
    os: seq<Observation>, inactive: map<string, Update>, aliases: map<string, string>, x: Text)
    requires ClipsOnce(x)
    ensures SourcesAre(Grouped(os, inactive, aliases, x), os, inactive, aliases, x)
    decreases |os|
  {
    hide Place, KeyOf, ClipsOnce;
    if os != [] {
      var n := |os| - 1;
      SourcesExact(os[..n], inactive, aliases, x);
      GroupsExact(os[..n], inactive, aliases, x);
      hide GroupsAre;
      if os[n].id in inactive {
        SameMembers(os, inactive, aliases, x);
      } else {
        PlaceSources(Grouped(os[..n], inactive, aliases, x), os, inactive, aliases, x);
      }
    }
  }

  lemma SameMembers(os: seq<Observation>, inactive: map<string, Update>, aliases: map<string, string>, x: Text)
    requires os != [] && os[|os| - 1].id in inactive
    ensures forall k :: Members(os, inactive, aliases, x, k) == Members(os[..|os| - 1], inactive, aliases, x, k)
  {
  }

  lemma ListedNone(x: Text)
    ensures Listed([], x) == []
  {
  }

  /** The source is longer than its cap. */
  predicate IsCut(o: Observation, x: Text) { Clipped(o, x) != SourceText(o) }

  /** Member `j` has a cut source whose clipped text an earlier member's source has too. */
  ghost predicate Recut(members: seq<Observation>, x: Text, i: nat, j: nat) {
    && i < j < |members| && SourceText(members[i]) != "" && SourceText(members[j]) != ""
    && IsCut(members[j], x) && Clipped(members[i], x) == Clipped(members[j], x)
  }

  lemma CutIsListed(members: seq<Observation>, x: Text, j: nat)
    requires ClipsOnce(x) && j < |members| && SourceText(members[j]) != "" && IsCut(members[j], x)
    ensures ListsSource(members, x, j)
  {
    forall i | 0 <= i < j && SourceText(members[i]) != ""
      ensures Clipped(members[i], x) != SourceText(members[j])
    {
      assert x.clip(Clipped(members[i], x), MAX_SOURCE_BYTES) == Clipped(members[i], x);
    }
  }

  /** A group lists a source twice exactly when a cut source comes again. */
  lemma {:induction false} ListedTwice(members: seq<Observation>, x: Text)
    requires ClipsOnce(x)
    ensures NoDup(Listed(members, x)) <==> !exists i: nat, j: nat :: Recut(members, x, i, j)
    decreases |members|
  {
    if members != [] {
      var n := |members| - 1;
      var front, o := members[..n], members[n];
      ListedTwice(front, x);
      assert members == front + [o];
      ListedMore(front, o, x);
      NoDupMore(Listed(front, x), Clipped(o, x));
      NewRecut(members, x);
      RecutMore(members, x);
      assert Listed(front, x) + [] == Listed(front, x);
      hide Listed, ClipsOnce, Recut, NoDup, Clipped, SourceText;
    }
  }

  lemma RecutMore(members: seq<Observation>, x: Text)
    requires members != []
    ensures var n := |members| - 1;
            (exists i: nat, j: nat :: Recut(members, x, i, j))
            <==> (exists i: nat, j: nat :: Recut(members[..n], x, i, j)) || exists i: nat :: Recut(members, x, i, n)
  {
    var n := |members| - 1;
    forall i: nat, j: nat | j < n ensures Recut(members, x, i, j) <==> Recut(members[..n], x, i, j) {}
    hide Clipped, SourceText, IsCut;
    if exists i: nat, j: nat :: Recut(members, x, i, j) {
      var i: nat, j: nat :| Recut(members, x, i, j);
      if j < n { assert Recut(members[..n], x, i, j); }
    }
    if exists i: nat, j: nat :: Recut(members[..n], x, i, j) {
      var i: nat, j: nat :| Recut(members[..n], x, i, j);
      assert Recut(members, x, i, j);
    }
  }

  /** The last member brings a repeat exactly when it is listed over an entry that is already there. */
  lemma NewRecut(members: seq<Observation>, x: Text)
    requires ClipsOnce(x) && members != []
    ensures var n := |members| - 1;
            var front, o := members[..n], members[n];
            (exists i: nat :: Recut(members, x, i, n))
            <==> SourceText(o) != "" && SourceText(o) !in Listed(front, x) && Clipped(o, x) in Listed(front, x)
  {
    var n := |members| - 1;
    var front, o := members[..n], members[n];
    LatestSource(front, x, Clipped(o, x));
    LatestSource(front, x, SourceText(o));
    if SourceText(o) != "" && IsCut(o, x) { CutIsListed(members, x, n); }
    hide Listed, ClipsOnce;
    forall i: nat ensures Recut(members, x, i, n)
      <==> i < n && SourceText(front[i]) != "" && SourceText(o) != "" && IsCut(o, x)
           && Clipped(front[i], x) == Clipped(o, x) {}
  }

  lemma NoDupMore(xs: seq<string>, s: string)
    ensures NoDup(xs + [s]) <==> NoDup(xs) && s !in xs
  {
    var more := xs + [s];
    if NoDup(more) {
      forall i, j | 0 <= i < j < |xs| ensures xs[i] != xs[j] { assert more[i] != more[j]; }
      forall i | 0 <= i < |xs| ensures xs[i] != s { assert more[i] != more[|xs|]; }
    }
  }

  /** Two observations of one fact from one source over the cap: their group lists the clipped source twice. */
  lemma SourceListedTwice(x: Text, fact: string, source: string)
    requires source != "" && x.clip(source, MAX_SOURCE_BYTES) != source
    ensures var a := Observation("a", 1, "Claude", Claim(fact, Verified, Some(source)));
            var b := Observation("b", 2, "Claude", Claim(fact, Verified, Some(source)));
            var t, k := Grouped([a, b], map[], map[], x), (x.normal(fact), x.normal(source), Verified);
            var cut := x.clip(source, MAX_SOURCE_BYTES);
            k in t.groups && t.groups[k].ids == ["a", "b"] && t.groups[k].sources == [cut, cut]
  {
    var a := Observation("a", 1, "Claude", Claim(fact, Verified, Some(source)));
    var b := Observation("b", 2, "Claude", Claim(fact, Verified, Some(source)));
    assert [a, b][..1] == [a] && [a][..0] == [];
    assert Grouped([], map[], map[], x) == Table([], map[]);
    var k := (x.normal(fact), x.normal(source), Verified);
    assert KeyOf(a, map[], x) == k && KeyOf(b, map[], x) == k;
  }

  /** Such a source: three hundred characters, clipped to 253 and an ellipsis. */
  lemma LongSource()
    ensures var x := Text((s, n: nat) => if |s| <= n || n < 3 then s else s[..n - 3] + "...", s => s, o => 0, s => 0);
            var source := seq(300, _ => 'a');
            ClipsOnce(x) && source != "" && x.clip(source, MAX_SOURCE_BYTES) != source
  {
    var source := seq(300, _ => 'a');
    assert (source[..253] + "...")[253] == '.' && source[253] == 'a';
  }

  // --- What history keeps ----------------------------------------------------------------------

  /** The entry history keeps of `o`, withdrawn by `u`: facts and reasons clipped, the rest as it was. */
  predicate Keeps(p: Past, o: Observation, u: Update, x: Text) {
    && p.id == o.id && p.round == o.round && p.reviewer == o.reviewer && p.update == u
    && p.fact == x.clip(o.claim.fact, MAX_FACT_BYTES) && p.reason == x.clip(u.revision.reason, MAX_REASON_BYTES)
  }

  /** How many of the first `n` observations are withdrawn. */
  ghost function Withdrawn(os: seq<Observation>, inactive: map<string, Update>, n: nat): nat
    requires n <= |os|
  {
    if n == 0 then 0 else Withdrawn(os, inactive, n - 1) + if os[n - 1].id in inactive then 1 else 0
  }

  lemma {:induction false} WithdrawnFront(os: seq<Observation>, inactive: map<string, Update>, m: nat, n: nat)
    requires n <= m <= |os|
    ensures Withdrawn(os[..m], inactive, n) == Withdrawn(os, inactive, n) <= Withdrawn(os, inactive, m)
    decreases m, n
  {
    if n > 0 { WithdrawnFront(os, inactive, m, n - 1); }
    if n < m { WithdrawnFront(os, inactive, m - 1, n); }
  }

  /** History keeps each withdrawn observation once, in posting order, with the last update that names it. */
  lemma {:induction false} HistoryExact(
    os: seq<Observation>, updates: seq<Update>, ids: set<string>, x: Text, i: nat, k: nat)
    requires i < |os| && os[i].id in ids && LastFor(updates, os[i].id, k)
    ensures var inactive := Inactive(updates, ids);
            var history, at := History(os, inactive, x), Withdrawn(os, inactive, i);
            && |history| == Withdrawn(os, inactive, |os|)
            && at < |history| && Keeps(history[at], os[i], updates[k], x)
  {
    var inactive := Inactive(updates, ids);
    InactiveIsLast(updates, ids, os[i].id);
    hide Inactive, LastFor;
    HistoryAt(os, inactive, x, i);
  }

  lemma {:induction false} HistoryAt(os: seq<Observation>, inactive: map<string, Update>, x: Text, i: nat)
    requires i < |os| && os[i].id in inactive
    ensures var history, at := History(os, inactive, x), Withdrawn(os, inactive, i);
            && |history| == Withdrawn(os, inactive, |os|)
            && at < |history| && Keeps(history[at], os[i], inactive[os[i].id], x)
    decreases |os|
  {
    var n := |os| - 1;
    HistorySize(os, inactive, x);
    HistorySize(os[..n], inactive, x);
    WithdrawnFront(os, inactive, n, n);
    WithdrawnFront(os, inactive, n, i);
    if i < n { HistoryAt(os[..n], inactive, x, i); }
  }

  lemma {:induction false} HistorySize(os: seq<Observation>, inactive: map<string, Update>, x: Text)
    ensures |History(os, inactive, x)| == Withdrawn(os, inactive, |os|)
    decreases |os|
  {
    if os != [] {
      var n := |os| - 1;
      HistorySize(os[..n], inactive, x);
      WithdrawnFront(os, inactive, n, n);
    }
  }
}
