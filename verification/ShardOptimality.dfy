/** The allocator's shards against every other way of splitting the same tests. */
module ShardOptimality {
  import opened Common
  import opened Sharding
  import opened ShardBounds

  function Weight(w: Weights, ids: seq<Id>): real {
    if ids == [] then 0.0 else w.Of(ids[0]) + Weight(w, ids[1..])
  }

  lemma {:induction false} WeightSnoc(w: Weights, ids: seq<Id>, x: Id)
    ensures Weight(w, ids + [x]) == Weight(w, ids) + w.Of(x)
  {
    if ids == [] {
      assert [] + [x] == [x];
    } else {
      assert (ids + [x])[1..] == ids[1..] + [x];
      WeightSnoc(w, ids[1..], x);
    }
  }

  lemma {:induction false} WeightInsert(w: Weights, o: Order, x: Id, xs: seq<Id>)
    ensures Weight(w, Insert(o, x, xs)) == w.Of(x) + Weight(w, xs)
  {
    hide Le;
    if xs == [] {
      assert [x][1..] == [];
    } else if Le(o, x, xs[0]) {
      assert ([x] + xs)[1..] == xs;
    } else {
      WeightInsert(w, o, x, xs[1..]);
      assert ([xs[0]] + Insert(o, x, xs[1..]))[1..] == Insert(o, x, xs[1..]);
    }
  }

  lemma {:induction false} WeightSort(w: Weights, o: Order, xs: seq<Id>)
    ensures Weight(w, Sort(o, xs)) == Weight(w, xs)
  {
    hide Insert;
    if xs != [] {
      WeightSort(w, o, xs[1..]);
      WeightInsert(w, o, xs[0], Sort(o, xs[1..]));
    }
  }

  /** Two lists of the same tests, each named once, weigh the same. */
  lemma WeightOfMembers(w: Weights, a: seq<Id>, b: seq<Id>)
    requires NoDup(a) && NoDup(b) && Elems(a) == Elems(b)
    ensures Weight(w, a) == Weight(w, b) && |a| == |b|
  {
    hide Sort, Sorted, Weight;
    SortedIdsFacts(ById, a);
    SortedIdsFacts(ById, b);
    SortedUnique(ById, Sort(ById, a), Sort(ById, b));
    WeightSort(w, ById, a);
    WeightSort(w, ById, b);
  }

  lemma {:induction false} GroupLoad(w: Weights, ids: seq<Id>, targets: seq<nat>, k: nat)
    requires |ids| == |targets|
    ensures Weight(w, Group(ids, targets, k)) == Load(WeightsFor(w, ids), targets, k)
    ensures |Group(ids, targets, k)| == Count(targets, k)
    decreases |ids|
  {
    if ids != [] {
      var n := |ids| - 1;
      GroupLoad(w, ids[..n], targets[..n], k);
      var front := Group(ids[..n], targets[..n], k);
      WeightSnoc(w, front, ids[n]);
      assert targets[n] != k ==> Group(ids, targets, k) == front;
      assert WeightsFor(w, ids)[..n] == WeightsFor(w, ids[..n]);
    }
  }

  // --- Any other split, as targets ------------------------------------------------------------

  /** The last group that holds `x`. */
  function IndexIn(groups: seq<seq<Id>>, x: Id): (j: nat)
    requires x in Flatten(groups)
    ensures j < |groups| && x in groups[j]
  {
    if x in groups[|groups| - 1] then |groups| - 1 else IndexIn(groups[..|groups| - 1], x)
  }

  lemma {:induction false} InFlatten(groups: seq<seq<Id>>, j: nat, x: Id)
    requires j < |groups| && x in groups[j]
    ensures x in Flatten(groups)
    decreases |groups|
  {
    if j < |groups| - 1 { InFlatten(groups[..|groups| - 1], j, x); }
  }

  lemma NoDupParts(xs: seq<Id>, ys: seq<Id>)
    requires NoDup(xs + ys)
    ensures NoDup(xs) && NoDup(ys) && forall x :: x in xs ==> x !in ys
  {
    var both := xs + ys;
    forall i, j | 0 <= i < j < |xs| ensures xs[i] != xs[j] { assert both[i] != both[j]; }
    forall i, j | 0 <= i < j < |ys| ensures ys[i] != ys[j] { assert both[|xs| + i] != both[|xs| + j]; }
    forall i, j | 0 <= i < |xs| && 0 <= j < |ys| ensures xs[i] != ys[j] { assert both[i] != both[|xs| + j]; }
  }

  /** Groups covering each test once hold it in exactly one place. */
  lemma {:induction false} IndexUnique(groups: seq<seq<Id>>, j: nat, x: Id)
    requires NoDup(Flatten(groups)) && j < |groups|
    ensures NoDup(groups[j])
    ensures x in groups[j] <==> x in Flatten(groups) && IndexIn(groups, x) == j
    decreases |groups|
  {
    var n := |groups| - 1;
    NoDupParts(Flatten(groups[..n]), groups[n]);
    if j < n {
      IndexUnique(groups[..n], j, x);
      if x in groups[j] { InFlatten(groups[..n], j, x); }
    }
  }

  function TargetsOf(ids: seq<Id>, groups: seq<seq<Id>>): (alt: seq<nat>)
    requires forall x :: x in ids ==> x in Flatten(groups)
    ensures |alt| == |ids| && forall t :: 0 <= t < |ids| ==> alt[t] == IndexIn(groups, ids[t])
  {
    seq(|ids|, t requires 0 <= t < |ids| => assert ids[t] in ids; IndexIn(groups, ids[t]))
  }

  lemma {:induction false} ShardOfTargets(ids: seq<Id>, targets: seq<nat>, x: Id) returns (t: nat)
    requires |ids| == |targets| && x in ids
    ensures t < |ids| && ids[t] == x && ShardOf(ids, targets, x) == targets[t]
    decreases |ids|
  {
    var n := |ids| - 1;
    if ids[n] == x {
      t := n;
    } else {
      assert ids == ids[..n] + [ids[n]];
      t := ShardOfTargets(ids[..n], targets[..n], x);
    }
  }

  /** Another split of the same tests puts on each target exactly its group's weight. */
  lemma SplitLoads(w: Weights, ids: seq<Id>, groups: seq<seq<Id>>, j: nat)
    requires NoDup(ids) && NoDup(Flatten(groups)) && Elems(ids) == Elems(Flatten(groups)) && j < |groups|
    requires forall x :: x in ids ==> x in Flatten(groups)
    ensures Load(WeightsFor(w, ids), TargetsOf(ids, groups), j) == Weight(w, groups[j])
  {
    hide Weight, Load, Group, Flatten, IndexIn, ShardOf;
    var alt := TargetsOf(ids, groups);
    var placed := Group(ids, alt, j);
    GroupLoad(w, ids, alt, j);
    GroupNoDup(ids, alt, j);
    if groups[j] == [] { IndexUnique(groups, j, ""); }
    forall x ensures x in Elems(placed) <==> x in Elems(groups[j]) {
      IndexUnique(groups, j, x);
      ShardOfGroup(ids, alt, x, j);
      assert x in ids <==> x in Elems(ids);
      assert x in Flatten(groups) <==> x in Elems(Flatten(groups));
      if x in ids { var t := ShardOfTargets(ids, alt, x); }
    }
    IndexUnique(groups, j, "");
    WeightOfMembers(w, placed, groups[j]);
  }

  // --- The bounds, for the shards themselves -----------------------------------------------------

  function CollectionWeights(nodeIds: seq<Id>, durations: map<Id, real>): Weights {
    WeightsOf(SortedIds(nodeIds), durations)
  }

  /** `other` splits the same tests into as many shards, none heavier than `limit`. */
  predicate Split(nodeIds: seq<Id>, w: Weights, count: nat, other: seq<seq<Id>>, limit: real) {
    |other| == count && ExactlyOnce(other, nodeIds) && forall j :: 0 <= j < count ==> Weight(w, other[j]) <= limit
  }

  lemma {:induction false} SumNonNegative(ws: seq<real>)
    requires NonNegative(ws)
    ensures Sum(ws) >= 0.0
  {
    if ws != [] { SumNonNegative(ws[..|ws| - 1]); }
  }

  lemma WeightsNonNegative(ids: seq<Id>, durations: map<Id, real>, order: seq<Id>)
    requires forall id :: id in durations ==> durations[id] >= 0.0
    ensures NonNegative(WeightsFor(WeightsOf(ids, durations), order))
  {
    var known := Keep(ids, durations.Keys);
    var values := seq(|known|, i requires 0 <= i < |known| => assert known[i] in known; durations[known[i]]);
    SumNonNegative(values);
    if known != [] { DivisionNonNegative(Sum(values), |known|); }
  }

  lemma DivisionNonNegative(a: real, n: nat)
    requires a >= 0.0 && n > 0
    ensures a / (n as real) >= 0.0
  {
  }

  lemma SortedDescends(w: Weights, order: seq<Id>)
    requires Sorted(ByWeight(w), order)
    ensures Descending(WeightsFor(w, order))
  {
    forall i, j | 0 <= i < j < |order| ensures w.Of(order[i]) >= w.Of(order[j]) {
      assert Le(ByWeight(w), order[i], order[j]);
    }
  }

  /** Any other split is a schedule of the placement order. */
  lemma SplitIsSchedule(nodeIds: seq<Id>, durations: map<Id, real>, count: nat, other: seq<seq<Id>>, limit: real)
    returns (alt: seq<nat>)
    requires Split(nodeIds, CollectionWeights(nodeIds, durations), count, other, limit)
    ensures Schedule(WeightsFor(CollectionWeights(nodeIds, durations), Placement(nodeIds, durations)), alt, count,
            limit)
  {
    hide Placement, Weight, Load, Flatten, IndexIn, WeightsOf, SortedIds;
    var w, order := CollectionWeights(nodeIds, durations), Placement(nodeIds, durations);
    PlacementFacts(nodeIds, durations);
    forall x | x in order ensures x in Flatten(other) { assert x in Elems(order) && x in Elems(Flatten(other)); }
    alt := TargetsOf(order, other);
    forall j | 0 <= j < count ensures Load(WeightsFor(w, order), alt, j) <= limit { SplitLoads(w, order, other, j); }
  }

  lemma ShardWeight(nodeIds: seq<Id>, durations: map<Id, real>, count: nat, k: nat)
    requires k < count
    ensures var w := CollectionWeights(nodeIds, durations);
            var ws := WeightsFor(w, Placement(nodeIds, durations));
            && Weight(w, Groups(nodeIds, durations, count)[k]) == Load(ws, Targets(ws, count), k)
            && |Groups(nodeIds, durations, count)[k]| == Count(Targets(ws, count), k)
  {
    hide Placement, Weight, Load, Targets, Group, Sort, WeightsOf, SortedIds, Count;
    var w, order := CollectionWeights(nodeIds, durations), Placement(nodeIds, durations);
    var targets := PlacementTargets(nodeIds, durations, count);
    GroupLoad(w, order, targets, k);
    WeightSort(w, ById, Group(order, targets, k));
    SortSorts(ById, Group(order, targets, k));
  }

  /**
   * No split of the collection into as many shards has a heaviest shard much lighter:
   * every shard is within 4/3 - 1/(3m) of it, and a shard of c tests within mc/(mc - m + 1).
   */
  lemma PartitionNearOptimal(
    nodeIds: seq<Id>, durations: map<Id, real>, count: nat, k: nat, other: seq<seq<Id>>, limit: real)
    requires k < count && forall id :: id in durations ==> durations[id] >= 0.0
    requires Split(nodeIds, CollectionWeights(nodeIds, durations), count, other, limit)
    ensures var shard := Groups(nodeIds, durations, count)[k];
            var load := Weight(CollectionWeights(nodeIds, durations), shard);
            && 3.0 * (count as real) * load <= ((4 * count - 1) as real) * limit
            && (count as real) * load <= ((2 * count - 1) as real) * limit
            && (shard != [] ==> load * ((count * |shard| - count + 1) as real) <= ((count * |shard|) as real) * limit)
  {
    hide Placement, Weight, Load, Targets, WeightsOf, SortedIds, Count, Groups, Split, Schedule, Sorted;
    var w, order := CollectionWeights(nodeIds, durations), Placement(nodeIds, durations);
    var ws := WeightsFor(w, order);
    var alt := SplitIsSchedule(nodeIds, durations, count, other, limit);
    WeightsNonNegative(SortedIds(nodeIds), durations, order);
    PlacementFacts(nodeIds, durations);
    SortedDescends(w, order);
    ShardWeight(nodeIds, durations, count, k);
    LongestFirstBound(ws, count, alt, limit, k);
    ListSchedulingBound(ws, count, alt, limit, k);
    if Groups(nodeIds, durations, count)[k] != [] { CountBound(ws, count, alt, limit, k); }
  }
}
