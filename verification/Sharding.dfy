/** Duration-balanced sharding: the greedy allocator, and that it covers every test exactly once. */
module Sharding {
  import opened Common
  import opened Lexical

  type Id = string

  // --- Orders on test ids -------------------------------------------------------------

  /** By id, or heaviest first with ties by id. */
  datatype Order = ById | ByWeight(weights: Weights)

  /** Recorded durations, and the weight of a test without one. */
  datatype Weights = Weights(durations: map<Id, real>, default: real) {
    function Of(id: Id): real { if id in durations then durations[id] else default }
  }

  predicate Le(o: Order, a: Id, b: Id) {
    match o
    case ById => LexLe(a, b)
    case ByWeight(w) => w.Of(a) > w.Of(b) || (w.Of(a) == w.Of(b) && LexLe(a, b))
  }

  lemma LeTotal(o: Order, a: Id, b: Id)
    ensures Le(o, a, b) || Le(o, b, a)
    ensures Le(o, a, b) && Le(o, b, a) ==> a == b
  {
    LexTotal(a, b);
  }

  lemma LeTransitive(o: Order, a: Id, b: Id, c: Id)
    requires Le(o, a, b) && Le(o, b, c)
    ensures Le(o, a, c)
  {
    if LexLe(a, b) && LexLe(b, c) { LexTransitive(a, b, c); }
  }

  function Insert(o: Order, x: Id, xs: seq<Id>): seq<Id> {
    if xs == [] then [x]
    else if Le(o, x, xs[0]) then [x] + xs
    else [xs[0]] + Insert(o, x, xs[1..])
  }

  function Sort(o: Order, xs: seq<Id>): seq<Id> {
    if xs == [] then [] else Insert(o, xs[0], Sort(o, xs[1..]))
  }

  predicate Sorted(o: Order, xs: seq<Id>) {
    forall i, j :: 0 <= i < j < |xs| ==> Le(o, xs[i], xs[j])
  }

  lemma {:induction false} InsertElems(o: Order, x: Id, xs: seq<Id>)
    ensures forall y :: y in Insert(o, x, xs) <==> y == x || y in xs
    ensures |Insert(o, x, xs)| == |xs| + 1
    ensures NoDup(xs) && x !in xs ==> NoDup(Insert(o, x, xs))
  {
    hide Le;
    if xs != [] {
      InsertElems(o, x, xs[1..]);
      assert xs == [xs[0]] + xs[1..];
      if NoDup(xs) && x !in xs {
        TailElems(xs);
        NoDupCons(x, xs);
        NoDupCons(xs[0], Insert(o, x, xs[1..]));
      }
    }
  }

  lemma NoDupCons(x: Id, xs: seq<Id>)
    requires NoDup(xs) && x !in xs
    ensures NoDup([x] + xs)
  {
  }

  lemma {:induction false} InsertSorts(o: Order, x: Id, xs: seq<Id>)
    requires Sorted(o, xs)
    ensures Sorted(o, Insert(o, x, xs))
  {
    hide Le;
    if xs != [] {
      LeTotal(o, x, xs[0]);
      if Le(o, x, xs[0]) {
        forall j | 0 <= j < |xs| ensures Le(o, x, xs[j]) {
          if j > 0 { LeTransitive(o, x, xs[0], xs[j]); }
        }
      } else {
        var rest := Insert(o, x, xs[1..]);
        InsertSorts(o, x, xs[1..]);
        InsertElems(o, x, xs[1..]);
        forall j | 0 <= j < |rest| ensures Le(o, xs[0], rest[j]) {
          assert rest[j] in rest;
        }
      }
    }
  }

  lemma {:induction false} SortSorts(o: Order, xs: seq<Id>)
    ensures Sorted(o, Sort(o, xs)) && |Sort(o, xs)| == |xs|
    ensures forall y :: y in Sort(o, xs) <==> y in xs
    ensures NoDup(xs) ==> NoDup(Sort(o, xs))
  {
    hide Le, Insert;
    if xs != [] {
      SortSorts(o, xs[1..]);
      InsertSorts(o, xs[0], Sort(o, xs[1..]));
      InsertElems(o, xs[0], Sort(o, xs[1..]));
      assert xs == [xs[0]] + xs[1..];
      if NoDup(xs) { TailElems(xs); }
    }
  }

  lemma SameHead(o: Order, a: seq<Id>, b: seq<Id>)
    requires Sorted(o, a) && Sorted(o, b) && Elems(a) == Elems(b) && a != [] && b != []
    ensures a[0] == b[0]
  {
    hide Le;
    assert a[0] in Elems(b) && b[0] in Elems(a);
    var i :| 0 <= i < |b| && b[i] == a[0];
    var j :| 0 <= j < |a| && a[j] == b[0];
    LeTotal(o, a[0], b[0]);
  }

  lemma EmptyElems(a: seq<Id>)
    ensures Elems(a) == {} <==> a == []
  {
    if a != [] { assert a[0] in Elems(a); }
  }

  /** A sorted list without repeats is determined by its members. */
  lemma {:induction false} SortedUnique(o: Order, a: seq<Id>, b: seq<Id>)
    requires Sorted(o, a) && Sorted(o, b) && NoDup(a) && NoDup(b) && Elems(a) == Elems(b)
    ensures a == b
  {
    hide Le;
    EmptyElems(a);
    EmptyElems(b);
    if a != [] {
      SameHead(o, a, b);
      TailElems(a);
      TailElems(b);
      SortedUnique(o, a[1..], b[1..]);
      assert a == [a[0]] + a[1..] && b == [b[0]] + b[1..];
    }
  }

  lemma TailElems(a: seq<Id>)
    requires a != [] && NoDup(a)
    ensures Elems(a[1..]) == Elems(a) - {a[0]} && NoDup(a[1..]) && a[0] !in a[1..]
  {
    forall x ensures x in Elems(a[1..]) <==> x in Elems(a) - {a[0]} {
      assert a == [a[0]] + a[1..];
      if x in a[1..] {
        var i :| 0 <= i < |a[1..]| && a[1..][i] == x;
        assert a[0] != a[i + 1];
      }
    }
  }

  /** `sorted(set(ids))`. */
  function SortedIds(ids: seq<Id>): seq<Id> { Sort(ById, Dedup(ids)) }

  lemma SortedIdsFacts(o: Order, ids: seq<Id>)
    requires NoDup(ids)
    ensures Sorted(o, Sort(o, ids)) && NoDup(Sort(o, ids)) && Elems(Sort(o, ids)) == Elems(ids)
            && |Sort(o, ids)| == |ids|
  {
    SortSorts(o, ids);
  }

  lemma SortedIdsByMembers(a: seq<Id>, b: seq<Id>)
    requires Elems(a) == Elems(b)
    ensures SortedIds(a) == SortedIds(b)
  {
    hide Sorted, Sort;
    SortedIdsFacts(ById, Dedup(a));
    SortedIdsFacts(ById, Dedup(b));
    SortedUnique(ById, SortedIds(a), SortedIds(b));
  }

  // --- The greedy allocator -----------------------------------------------------------------

  function Sum(ws: seq<real>): real {
    if ws == [] then 0.0 else Sum(ws[..|ws| - 1]) + ws[|ws| - 1]
  }

  /** The total of the weights sent to shard `k`. */
  function Load(ws: seq<real>, targets: seq<nat>, k: nat): real
    requires |ws| == |targets|
    decreases |ws|
  {
    if ws == [] then 0.0
    else
      var n := |ws| - 1;
      Load(ws[..n], targets[..n], k) + if targets[n] == k then ws[n] else 0.0
  }

  /** The first of the least loads. */
  function ArgMin(loads: seq<real>): (k: nat)
    requires loads != []
    ensures k < |loads|
    ensures forall i :: 0 <= i < |loads| ==> loads[k] <= loads[i]
    ensures forall i :: 0 <= i < k ==> loads[k] < loads[i]
  {
    if |loads| == 1 then 0
    else
      var best := ArgMin(loads[..|loads| - 1]);
      if loads[|loads| - 1] < loads[best] then |loads| - 1 else best
  }

  function Loads(ws: seq<real>, targets: seq<nat>, count: nat): (r: seq<real>)
    requires |ws| == |targets|
    ensures |r| == count
  {
    seq(count, k requires 0 <= k < count => Load(ws, targets, k))
  }

  /** Each weight in turn goes to the shard that is lightest so far. */
  function Targets(ws: seq<real>, count: nat): (targets: seq<nat>)
    requires count >= 1
    ensures |targets| == |ws| && forall t :: 0 <= t < |targets| ==> targets[t] < count
  {
    if ws == [] then []
    else
      var front := ws[..|ws| - 1];
      Targets(front, count) + [ArgMin(Loads(front, Targets(front, count), count))]
  }

  /** The ids sent to shard `k`, in the order they were placed. */
  function Group(ids: seq<Id>, targets: seq<nat>, k: nat): seq<Id>
    requires |ids| == |targets|
  {
    if ids == [] then []
    else
      var n := |ids| - 1;
      Group(ids[..n], targets[..n], k) + if targets[n] == k then [ids[n]] else []
  }

  function WeightsFor(w: Weights, ids: seq<Id>): (r: seq<real>)
    ensures |r| == |ids|
  {
    seq(|ids|, i requires 0 <= i < |ids| => w.Of(ids[i]))
  }

  /** The recorded durations, with their mean (or 1 when none is known) for tests without one. */
  function WeightsOf(ids: seq<Id>, durations: map<Id, real>): Weights {
    var known := Keep(ids, durations.Keys);
    var values := seq(|known|, i requires 0 <= i < |known| =>
      assert known[i] in known; durations[known[i]]);
    Weights(durations, if known == [] then 1.0 else Sum(values) / (|known| as real))
  }

  /** The order in which the allocator places the tests. */
  function Placement(nodeIds: seq<Id>, durations: map<Id, real>): seq<Id> {
    var ids := SortedIds(nodeIds);
    Sort(ByWeight(WeightsOf(ids, durations)), ids)
  }

  function PlacementTargets(nodeIds: seq<Id>, durations: map<Id, real>, count: nat): seq<nat>
    requires count >= 1
    ensures |PlacementTargets(nodeIds, durations, count)| == |Placement(nodeIds, durations)|
  {
    Targets(WeightsFor(WeightsOf(SortedIds(nodeIds), durations), Placement(nodeIds, durations)), count)
  }

  function Groups(nodeIds: seq<Id>, durations: map<Id, real>, count: nat): (groups: seq<seq<Id>>)
    requires count >= 1
    ensures |groups| == count
  {
    var order, targets := Placement(nodeIds, durations), PlacementTargets(nodeIds, durations, count);
    seq(count, k requires 0 <= k < count => Sort(ById, Group(order, targets, k)))
  }

  method Lightest(loads: array<real>) returns (k: nat)
    requires loads.Length > 0
    ensures k == ArgMin(loads[..])
  {
    k := 0;
    for i := 1 to loads.Length
      invariant k == ArgMin(loads[..i])
    {
      assert loads[..i + 1][..i] == loads[..i];
      if loads[i] < loads[k] { k := i; }
    }
    assert loads[..loads.Length] == loads[..];
  }

  lemma LoadStep(ws: seq<real>, targets: seq<nat>, w: real, target: nat, k: nat)
    requires |ws| == |targets|
    ensures Load(ws + [w], targets + [target], k) == Load(ws, targets, k) + if target == k then w else 0.0
  {
    assert (ws + [w])[..|ws|] == ws && (targets + [target])[..|ws|] == targets;
  }

  lemma GroupStep(ids: seq<Id>, targets: seq<nat>, id: Id, target: nat, k: nat)
    requires |ids| == |targets|
    ensures Group(ids + [id], targets + [target], k) == Group(ids, targets, k) + if target == k then [id] else []
  {
    assert (ids + [id])[..|ids|] == ids && (targets + [target])[..|ids|] == targets;
  }

  lemma TargetsStep(ws: seq<real>, w: real, count: nat)
    requires count >= 1
    ensures Targets(ws + [w], count) == Targets(ws, count) + [ArgMin(Loads(ws, Targets(ws, count), count))]
  {
    assert (ws + [w])[..|ws|] == ws;
  }

  method Partition(nodeIds: seq<Id>, durations: map<Id, real>, count: nat) returns (result: seq<seq<Id>>)
    requires count >= 1
    ensures result == Groups(nodeIds, durations, count)
  {
    hide Load, Group, Targets, ArgMin, Sort, SortedIds;
    var ids := SortedIds(nodeIds);
    var w := WeightsOf(ids, durations);
    var order := Sort(ByWeight(w), ids);
    var loads := new real[count](_ => 0.0);
    var groups := new seq<Id>[count](_ => []);
    ghost var ws := WeightsFor(w, order);
    Started(count);
    for i := 0 to |order|
      invariant loads[..] == Loads(ws[..i], Targets(ws[..i], count), count)
      invariant forall k :: 0 <= k < count ==> groups[k] == Group(order[..i], Targets(ws[..i], count), k)
    {
      var target := Lightest(loads);
      ghost var placed := Targets(ws[..i], count);
      TargetsStep(ws[..i], ws[i], count);
      assert ws[..i + 1] == ws[..i] + [ws[i]] && order[..i + 1] == order[..i] + [order[i]];
      forall k | 0 <= k < count
        ensures Load(ws[..i + 1], placed + [target], k) == loads[k] + if target == k then ws[i] else 0.0
        ensures Group(order[..i + 1], placed + [target], k) == groups[k] + if target == k then [order[i]] else []
      {
        assert loads[k] == loads[..][k];
        LoadStep(ws[..i], placed, ws[i], target, k);
        GroupStep(order[..i], placed, order[i], target, k);
      }
      groups[target] := groups[target] + [order[i]];
      loads[target] := loads[target] + w.Of(order[i]);
      assert loads[..] == Loads(ws[..i + 1], Targets(ws[..i + 1], count), count);
    }
    assert ws[..|order|] == ws && order[..|order|] == order;
    result := [];
    for k := 0 to count
      invariant |result| == k && forall j :: 0 <= j < k ==> result[j] == Sort(ById, groups[j])
    {
      result := result + [Sort(ById, groups[k])];
    }
  }

  lemma Started(count: nat)
    requires count >= 1
    ensures Targets([], count) == [] && forall k :: 0 <= k < count ==> Load([], [], k) == 0.0 && Group([], [], k) == []
  {
  }

  // --- Coverage ----------------------------------------------------------------------------------

  function Flatten(groups: seq<seq<Id>>): seq<Id> {
    if groups == [] then [] else Flatten(groups[..|groups| - 1]) + groups[|groups| - 1]
  }

  /** `check_exactly_once` passes: no id twice, and exactly the collected ids. */
  predicate ExactlyOnce(groups: seq<seq<Id>>, full: seq<Id>) {
    NoDup(Flatten(groups)) && Elems(Flatten(groups)) == Elems(full)
  }

  lemma NoDupConcat(xs: seq<Id>, ys: seq<Id>)
    requires NoDup(xs) && NoDup(ys) && forall x :: x in xs ==> x !in ys
    ensures NoDup(xs + ys)
  {
    var both := xs + ys;
    forall i, j | 0 <= i < j < |both| ensures both[i] != both[j] {
      if i < |xs| <= j { assert both[i] in xs && both[j] == ys[j - |xs|]; }
    }
  }

  lemma NoDupFront(ids: seq<Id>)
    requires NoDup(ids) && ids != []
    ensures NoDup(ids[..|ids| - 1]) && ids[|ids| - 1] !in ids[..|ids| - 1]
  {
  }

  lemma {:induction false} GroupNoDup(ids: seq<Id>, targets: seq<nat>, k: nat)
    requires |ids| == |targets| && NoDup(ids)
    ensures NoDup(Group(ids, targets, k))
    ensures forall x :: x in Group(ids, targets, k) ==> x in ids
    decreases |ids|
  {
    if ids != [] {
      var n := |ids| - 1;
      NoDupFront(ids);
      GroupNoDup(ids[..n], targets[..n], k);
      NoDupConcat(Group(ids[..n], targets[..n], k), [ids[n]]);
    }
  }

  /** Where an id was placed. */
  function ShardOf(ids: seq<Id>, targets: seq<nat>, x: Id): nat
    requires |ids| == |targets| && x in ids
  {
    if ids[|ids| - 1] == x then targets[|ids| - 1]
    else
      assert x in ids[..|ids| - 1];
      ShardOf(ids[..|ids| - 1], targets[..|ids| - 1], x)
  }

  lemma {:induction false} ShardOfGroup(ids: seq<Id>, targets: seq<nat>, x: Id, k: nat)
    requires |ids| == |targets| && NoDup(ids)
    ensures x in Group(ids, targets, k) <==> x in ids && ShardOf(ids, targets, x) == k
    decreases |ids|
  {
    if ids != [] {
      var n := |ids| - 1;
      assert ids == ids[..n] + [ids[n]];
      NoDupFront(ids);
      ShardOfGroup(ids[..n], targets[..n], x, k);
    }
  }

  lemma {:induction false} FlattenGroups(ids: seq<Id>, targets: seq<nat>, groups: seq<seq<Id>>, n: nat)
    requires |ids| == |targets| && NoDup(ids) && n <= |groups|
    requires forall k :: 0 <= k < |groups| ==> groups[k] == Sort(ById, Group(ids, targets, k))
    ensures NoDup(Flatten(groups[..n]))
    ensures forall x :: x in Flatten(groups[..n]) <==> x in ids && ShardOf(ids, targets, x) < n
  {
    hide Sort, Group, ShardOf;
    if n > 0 {
      FlattenGroups(ids, targets, groups, n - 1);
      assert groups[..n][..n - 1] == groups[..n - 1];
      var last := Group(ids, targets, n - 1);
      GroupNoDup(ids, targets, n - 1);
      SortSorts(ById, last);
      forall x ensures x in groups[n - 1] <==> x in ids && ShardOf(ids, targets, x) == n - 1 {
        ShardOfGroup(ids, targets, x, n - 1);
      }
      NoDupConcat(Flatten(groups[..n - 1]), groups[n - 1]);
    }
  }

  lemma PlacementFacts(nodeIds: seq<Id>, durations: map<Id, real>)
    ensures var order := Placement(nodeIds, durations);
            && NoDup(order) && Elems(order) == Elems(nodeIds)
            && Sorted(ByWeight(WeightsOf(SortedIds(nodeIds), durations)), order)
  {
    hide Sort, WeightsOf, Sorted;
    SortSorts(ById, Dedup(nodeIds));
    var ids := SortedIds(nodeIds);
    SortSorts(ByWeight(WeightsOf(ids, durations)), ids);
    assert forall x :: x in ids <==> x in Elems(Dedup(nodeIds));
  }

  /** The shards always cover the collection, each test exactly once. */
  lemma PartitionCovers(nodeIds: seq<Id>, durations: map<Id, real>, count: nat)
    requires count >= 1
    ensures ExactlyOnce(Groups(nodeIds, durations, count), nodeIds)
    ensures forall k :: 0 <= k < count ==> Sorted(ById, Groups(nodeIds, durations, count)[k])
  {
    hide Sort, Group, ShardOf, Placement, Targets, Le, Sorted, SortedIds, WeightsOf, PlacementTargets;
    var order, targets := Placement(nodeIds, durations), PlacementTargets(nodeIds, durations, count);
    var groups := Groups(nodeIds, durations, count);
    PlacementFacts(nodeIds, durations);
    FlattenGroups(order, targets, groups, count);
    assert groups[..count] == groups;
    TargetsBelow(nodeIds, durations, count);
    forall x ensures x in Flatten(groups) <==> x in nodeIds {
      assert x in order <==> x in Elems(order);
      if x in order { ShardBelow(order, targets, count, x); }
    }
    forall k | 0 <= k < count ensures Sorted(ById, groups[k]) { SortSorts(ById, Group(order, targets, k)); }
  }

  lemma TargetsBelow(nodeIds: seq<Id>, durations: map<Id, real>, count: nat)
    requires count >= 1
    ensures forall t :: 0 <= t < |PlacementTargets(nodeIds, durations, count)| ==>
            PlacementTargets(nodeIds, durations, count)[t] < count
  {
    hide Placement, WeightsOf, SortedIds;
  }

  lemma {:induction false} ShardBelow(ids: seq<Id>, targets: seq<nat>, count: nat, x: Id)
    requires |ids| == |targets| && x in ids && forall t :: 0 <= t < |targets| ==> targets[t] < count
    ensures ShardOf(ids, targets, x) < count
    decreases |ids|
  {
    if ids[|ids| - 1] != x {
      assert x in ids[..|ids| - 1];
      ShardBelow(ids[..|ids| - 1], targets[..|ids| - 1], count, x);
    }
  }

  /** Neither the order of the collection nor repeats in it matter. */
  lemma PartitionByMembers(a: seq<Id>, b: seq<Id>, durations: map<Id, real>, count: nat)
    requires count >= 1 && Elems(a) == Elems(b)
    ensures Groups(a, durations, count) == Groups(b, durations, count)
  {
    hide SortedIds, Sort, Targets, Group, WeightsOf;
    SortedIdsByMembers(a, b);
  }

  // --- Tests without a record --------------------------------------------------------------------

  lemma WeightsMore(w: Weights, ids: seq<Id>, id: Id)
    ensures Sum(WeightsFor(w, ids + [id])) == Sum(WeightsFor(w, ids)) + w.Of(id)
  {
    var more := WeightsFor(w, ids + [id]);
    assert more[..|ids|] == WeightsFor(w, ids);
  }

  lemma KeepMore(ids: seq<Id>, id: Id, keep: set<Id>)
    ensures Keep(ids + [id], keep) == if id in keep then Keep(ids, keep) + [id] else Keep(ids, keep)
  {
    assert (ids + [id])[..|ids|] == ids;
  }

  lemma OneMoreTime(n: int, x: real)
    ensures ((n + 1) as real) * x == (n as real) * x + x
  {
    assert (n + 1) as real == (n as real) + 1.0;
  }

  lemma {:induction false} WeightSum(w: Weights, ids: seq<Id>)
    ensures var known := Keep(ids, w.durations.Keys);
            Sum(WeightsFor(w, ids)) == Sum(WeightsFor(w, known)) + ((|ids| - |known|) as real) * w.default
    decreases |ids|
  {
    hide WeightsFor, Keep, Sum;
    if ids == [] {
      assert Keep(ids, w.durations.Keys) == [];
    } else {
      var n := |ids| - 1;
      var front, known := ids[..n], Keep(ids[..n], w.durations.Keys);
      assert ids == front + [ids[n]];
      WeightSum(w, front);
      WeightsMore(w, front, ids[n]);
      KeepMore(front, ids[n], w.durations.Keys);
      WeightsMore(w, known, ids[n]);
      OneMoreTime(n - |known|, w.default);
    }
  }

  lemma MeanOfKnown(ids: seq<Id>, durations: map<Id, real>)
    requires Keep(ids, durations.Keys) != []
    ensures var w, known := WeightsOf(ids, durations), Keep(ids, durations.Keys);
            (|known| as real) * w.default == Sum(WeightsFor(w, known))
  {
    hide Keep, Sum;
    var w, known := WeightsOf(ids, durations), Keep(ids, durations.Keys);
    var values := seq(|known|, i requires 0 <= i < |known| => assert known[i] in known; durations[known[i]]);
    assert forall i :: 0 <= i < |known| ==> known[i] in known;
    assert WeightsFor(w, known) == values;
    MeanTimesCount(Sum(values), |known| as real);
  }

  lemma NoneKnown(ids: seq<Id>, keep: set<Id>)
    ensures Keep(ids, keep) == [] <==> !exists id :: id in ids && id in keep
  {
    var known := Keep(ids, keep);
    if known != [] { assert known[0] in known; }
  }

  lemma AverageWeight(ids: seq<Id>, durations: map<Id, real>)
    requires exists id :: id in ids && id in durations
    ensures var w := WeightsOf(ids, durations);
            Sum(WeightsFor(w, ids)) == (|ids| as real) * w.default
  {
    hide WeightsFor, Keep, Sum, WeightsOf;
    var w, known := WeightsOf(ids, durations), Keep(ids, durations.Keys);
    NoneKnown(ids, durations.Keys);
    assert w.durations == durations by { TheirDurations(ids, durations); }
    WeightSum(w, ids);
    MeanOfKnown(ids, durations);
    Distributes(|known|, |ids|, w.default);
  }

  lemma TheirDurations(ids: seq<Id>, durations: map<Id, real>)
    ensures WeightsOf(ids, durations).durations == durations
    ensures !(exists id :: id in ids && id in durations) ==> WeightsOf(ids, durations).default == 1.0
  {
    hide Keep, Sum;
    NoneKnown(ids, durations.Keys);
  }

  /** A recorded test weighs its duration; any other weighs the average over the whole collection, or 1 when no test
      of it has a record. */
  lemma UnrecordedIsAverage(ids: seq<Id>, durations: map<Id, real>)
    ensures var w := WeightsOf(ids, durations);
            && (forall id :: id in durations ==> w.Of(id) == durations[id])
            && (forall id :: id !in durations ==> w.Of(id) == w.default)
            && if exists id :: id in ids && id in durations
               then Sum(WeightsFor(w, ids)) == (|ids| as real) * w.default
               else w.default == 1.0
  {
    hide WeightsFor, Keep, Sum, WeightsOf;
    TheirDurations(ids, durations);
    if exists id :: id in ids && id in durations { AverageWeight(ids, durations); }
  }

  lemma Distributes(m: nat, n: nat, x: real)
    requires m <= n
    ensures (m as real) * x + ((n - m) as real) * x == (n as real) * x
  {
    assert (n - m) as real == (n as real) - (m as real);
  }

  lemma MeanTimesCount(total: real, count: real)
    requires count > 0.0
    ensures count * (total / count) == total
  {
  }
}
