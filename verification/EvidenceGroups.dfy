/** No observation is lost or doubled, and a group is exactly the observations of its key. */
module EvidenceGroups {
  import opened Common
  import opened Evidence

  /** The observations that are still active and have this key, in order. */
  function Members(
    os: seq<Observation>, inactive: map<string, Update>, aliases: map<string, string>, x: Text, k: Key)
    : seq<Observation>
  {
    if os == [] then []
    else
      var o := os[|os| - 1];
      var front := Members(os[..|os| - 1], inactive, aliases, x, k);
      if o.id !in inactive && KeyOf(o, aliases, x) == k then front + [o] else front
  }

  function Ids(os: seq<Observation>): seq<string> {
    if os == [] then [] else Ids(os[..|os| - 1]) + [os[|os| - 1].id]
  }
  function Reviewers(os: seq<Observation>): seq<string> {
    if os == [] then [] else Reviewers(os[..|os| - 1]) + [os[|os| - 1].reviewer]
  }
  function Rounds(os: seq<Observation>): seq<nat> {
    if os == [] then [] else Rounds(os[..|os| - 1]) + [os[|os| - 1].round]
  }

  /** The group says exactly what its members say. */
  predicate Summarizes(g: Group, members: seq<Observation>, k: Key, x: Text) {
    && members != []
    && g.ids == Ids(members) && g.status == k.2
    && g.fact == x.clip(members[0].claim.fact, MAX_FACT_BYTES)
    && g.contributors == Dedup(Reviewers(members)) && g.rounds == Dedup(Rounds(members))
  }

  ghost predicate WellFormed(t: Table) { NoDup(t.keys) && forall k :: k in t.keys <==> k in t.groups }

  lemma OneMore(members: seq<Observation>, o: Observation)
    ensures Ids(members + [o]) == Ids(members) + [o.id]
    ensures Reviewers(members + [o]) == Reviewers(members) + [o.reviewer]
    ensures Rounds(members + [o]) == Rounds(members) + [o.round]
  {
    assert (members + [o])[..|members|] == members;
  }

  lemma JoinedSummarizes(g: Group, members: seq<Observation>, o: Observation, k: Key, x: Text)
    requires Summarizes(g, members, k, x)
    ensures Summarizes(Joined(g, o, x), members + [o], k, x)
  {
    OneMore(members, o);
    DedupLast(Reviewers(members), o.reviewer);
    DedupLast(Rounds(members), o.round);
    DedupIn(Reviewers(members), o.reviewer);
    DedupIn(Rounds(members), o.round);
    hide Dedup, Ids, Reviewers, Rounds;
  }

  lemma DedupIn<T(!new)>(xs: seq<T>, y: T)
    ensures y in Dedup(xs) <==> y in xs
  {
    assert y in Elems(Dedup(xs)) <==> y in Elems(xs);
  }

  lemma NewSummarizes(o: Observation, k: Key, x: Text)
    requires k.2 == o.claim.status
    ensures Summarizes(Joined(Group([], x.clip(o.claim.fact, MAX_FACT_BYTES), o.claim.status, [], [], []), o, x), [o],
            k, x)
  {
    assert [o] == [] + [o];
    OneMore([], o);
    DedupLast([], o.reviewer);
    DedupLast([], o.round);
    DedupEmpty<string>([]);
    DedupEmpty<nat>([]);
    assert Reviewers([]) == [] && Rounds([]) == [] && Ids([]) == [];
    hide Dedup, Ids, Reviewers, Rounds;
  }

  ghost predicate GroupsAre(
    t: Table, os: seq<Observation>, inactive: map<string, Update>, aliases: map<string, string>, x: Text)
  {
    && WellFormed(t)
    && forall k :: if k in t.groups then Summarizes(t.groups[k], Members(os, inactive, aliases, x, k), k, x)
                   else Members(os, inactive, aliases, x, k) == []
  }

  /** There is a group for exactly the keys that have members, and it holds exactly those members, of one status. */
  lemma {:induction false} GroupsExact(
    os: seq<Observation>, inactive: map<string, Update>, aliases: map<string, string>, x: Text)
    ensures GroupsAre(Grouped(os, inactive, aliases, x), os, inactive, aliases, x)
    decreases |os|
  {
    hide Summarizes, Joined, Place, KeyOf;
    if os != [] {
      var n := |os| - 1;
      var o := os[n];
      GroupsExact(os[..n], inactive, aliases, x);
      var t := Grouped(os[..n], inactive, aliases, x);
      if o.id !in inactive { PlaceExact(t, os, inactive, aliases, x); }
    }
  }

  lemma PlaceExact(t: Table, os: seq<Observation>, inactive: map<string, Update>, aliases: map<string, string>, x: Text)
    requires os != [] && os[|os| - 1].id !in inactive
    requires GroupsAre(t, os[..|os| - 1], inactive, aliases, x)
    ensures var o := os[|os| - 1]; GroupsAre(Place(t, KeyOf(o, aliases, x), o, x), os, inactive, aliases, x)
  {
    hide Summarizes, Joined;
    var o, front := os[|os| - 1], os[..|os| - 1];
    var key := KeyOf(o, aliases, x);
    var r := Place(t, key, o, x);
    forall k
      ensures if k in r.groups then Summarizes(r.groups[k], Members(os, inactive, aliases, x, k), k, x)
              else Members(os, inactive, aliases, x, k) == []
    {
      if k == key {
        var members := Members(front, inactive, aliases, x, key);
        if key in t.groups {
          JoinedSummarizes(t.groups[key], members, o, key, x);
        } else {
          NewSummarizes(o, key, x);
          assert members + [o] == [o];
        }
      }
    }
  }

  // --- Conservation ----------------------------------------------------------------------------

  function IdsIn(keys: seq<Key>, groups: map<Key, Group>): multiset<string>
    requires forall k :: k in keys ==> k in groups
  {
    if keys == [] then multiset{} else IdsIn(keys[..|keys| - 1], groups) + multiset(groups[keys[|keys| - 1]].ids)
  }

  function PastIds(history: seq<Past>): multiset<string> {
    if history == [] then multiset{} else PastIds(history[..|history| - 1]) + multiset{history[|history| - 1].id}
  }

  lemma {:induction false} IdsUnchanged(keys: seq<Key>, groups: map<Key, Group>, k: Key, g: Group)
    requires (forall j :: j in keys ==> j in groups) && k !in keys
    ensures IdsIn(keys, groups[k := g]) == IdsIn(keys, groups)
    decreases |keys|
  {
    if keys != [] { IdsUnchanged(keys[..|keys| - 1], groups, k, g); }
  }

  lemma {:induction false} IdsGrow(keys: seq<Key>, groups: map<Key, Group>, k: Key, g: Group, id: string)
    requires NoDup(keys) && k in keys && (forall j :: j in keys ==> j in groups) && g.ids == groups[k].ids + [id]
    ensures IdsIn(keys, groups[k := g]) == IdsIn(keys, groups) + multiset{id}
    decreases |keys|
  {
    var n := |keys| - 1;
    if keys[n] == k {
      IdsUnchanged(keys[..n], groups, k, g);
      assert multiset(g.ids) == multiset(groups[k].ids) + multiset{id};
    } else {
      assert k in keys[..n] by { var i :| 0 <= i < |keys| && keys[i] == k; assert keys[..n][i] == k; }
      IdsGrow(keys[..n], groups, k, g, id);
    }
  }

  lemma PlaceGrows(t: Table, k: Key, o: Observation, x: Text)
    requires WellFormed(t)
    ensures WellFormed(Place(t, k, o, x))
    ensures IdsIn(Place(t, k, o, x).keys, Place(t, k, o, x).groups) == IdsIn(t.keys, t.groups) + multiset{o.id}
  {
    var r := Place(t, k, o, x);
    if k in t.groups {
      IdsGrow(t.keys, t.groups, k, r.groups[k], o.id);
    } else {
      IdsUnchanged(t.keys, t.groups, k, r.groups[k]);
      assert r.keys[..|t.keys|] == t.keys;
      assert r.groups[k].ids == [o.id];
    }
  }

  lemma IdsLast(os: seq<Observation>)
    requires os != []
    ensures multiset(Ids(os)) == multiset(Ids(os[..|os| - 1])) + multiset{os[|os| - 1].id}
  {
  }

  lemma PastLast(history: seq<Past>, p: Past)
    ensures PastIds(history + [p]) == PastIds(history) + multiset{p.id}
  {
    assert (history + [p])[..|history|] == history;
  }

  /** Every observation lands exactly once, in one group or in history. */
  lemma {:induction false} Conserved(
    os: seq<Observation>, inactive: map<string, Update>, aliases: map<string, string>, x: Text)
    ensures var t := Grouped(os, inactive, aliases, x);
            && WellFormed(t)
            && IdsIn(t.keys, t.groups) + PastIds(History(os, inactive, x)) == multiset(Ids(os))
    decreases |os|
  {
    if os == [] {
      NothingGrouped();
    } else {
      var n := |os| - 1;
      var o := os[n];
      Conserved(os[..n], inactive, aliases, x);
      hide Place, KeyOf, WellFormed, IdsIn, PastIds, Ids;
      IdsLast(os);
      if o.id in inactive {
        PastLast(History(os[..n], inactive, x), PastOf(o, inactive[o.id], x));
      } else {
        PlaceGrows(Grouped(os[..n], inactive, aliases, x), KeyOf(o, aliases, x), o, x);
      }
    }
  }

  lemma NothingGrouped()
    ensures WellFormed(Table([], map[])) && IdsIn([], map[]) == multiset{}
  {
  }
}
