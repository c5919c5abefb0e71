/** Manifests written from the partition are accepted, and acceptance means exact coverage. */
module ShardEndToEnd {
  import opened Common
  import opened Sharding
  import opened ShardVerify

  // --- The chosen manifests --------------------------------------------------------------

  lemma {:induction false} BestFacts(ms: seq<Manifest>)
    ensures forall k :: k in Best(ms) ==> Best(ms)[k] in ms && Best(ms)[k].index == k
    ensures forall m :: m in ms ==> m.index in Best(ms) && m.attempt <= Best(ms)[m.index].attempt
  {
    if ms != [] {
      BestFacts(ms[..|ms| - 1]);
      assert ms == ms[..|ms| - 1] + [ms[|ms| - 1]];
    }
  }

  /** The manifest chosen for a shard is the only one at its highest attempt, wherever it was read. */
  lemma {:induction false} ChosenIsUniqueHighest(ms: seq<Manifest>, k: int) returns (i: nat)
    requires TieFree(ms) && k in Best(ms)
    ensures i < |ms| && ms[i] == Best(ms)[k]
    ensures forall j :: 0 <= j < |ms| && j != i && ms[j].index == k ==> ms[j].attempt < ms[i].attempt
    decreases |ms|
  {
    var n := |ms| - 1;
    var front, m := ms[..n], ms[n];
    assert ms == front + [m];
    BestFacts(front);
    if m.index == k && (k !in Best(front) || m.attempt > Best(front)[k].attempt) {
      i := n;
      forall j | 0 <= j < n && ms[j].index == k ensures ms[j].attempt < m.attempt {
        assert front[j] == ms[j] && front[j] in front;
      }
    } else {
      i := ChosenIsUniqueHighest(front, k);
      assert forall j :: 0 <= j < n ==> front[j] == ms[j];
    }
  }

  lemma SameMembersSameSort(a: seq<Id>, b: seq<Id>)
    requires NoDup(a) && NoDup(b)
    ensures Elems(a) == Elems(b) <==> Sort(ById, a) == Sort(ById, b)
    ensures Elems(a) == Elems(b) ==> |a| == |b|
  {
    hide Sort, Sorted;
    SortedIdsFacts(ById, a);
    SortedIdsFacts(ById, b);
    if Elems(a) == Elems(b) { SortedUnique(ById, Sort(ById, a), Sort(ById, b)); }
  }

  /** For manifests of one collection, the final checks say exactly that the shards cover it, each test once. */
  lemma ChosenOkMeansCover(run: Run, chosen: seq<Manifest>, full: seq<Id>)
    requires chosen != [] && NoDup(full)
    requires forall i :: 0 <= i < |chosen| ==>
               chosen[i].count == run.count && chosen[i].size == |full| && chosen[i].digest == CollectionDigest(full)
    ensures ChosenOk(run, chosen) <==> ExactlyOnce(SelectedIds(chosen), full)
  {
    hide Sort, Flatten;
    var union := Flatten(SelectedIds(chosen));
    if NoDup(union) { SameMembersSameSort(union, full); }
  }

  /** An accepted set of manifests is a disjoint, exact cover of the collection its shards saw. */
  lemma AcceptanceCovers(run: Run, files: seq<File>, full: seq<Id>)
    requires Accepts(run, files) && NoDup(full)
    requires Chosen(Best(Manifests(files)), run.count)[0].digest == CollectionDigest(full)
    ensures var chosen := Chosen(Best(Manifests(files)), run.count);
            && ExactlyOnce(SelectedIds(chosen), full) && chosen[0].size == |full|
            && forall k :: 0 <= k < run.count ==> chosen[k].index == k + 1 && chosen[k].selected.Some?
  {
    hide Sort, Flatten, Best, TieFree;
    var ms := Manifests(files);
    var chosen := Chosen(Best(ms), run.count);
    SameMembersSameSort(Flatten(SelectedIds(chosen)), full);
    BestFacts(ms);
    forall k | 0 <= k < run.count ensures chosen[k].index == k + 1 && chosen[k].selected.Some? {
      assert k + 1 in Best(ms);
      var m := Best(ms)[k + 1];
      assert m in ms;
      var i :| 0 <= i < |ms| && ms[i] == m;
      assert Problems(run, files[i].manifest) == [];
    }
  }

  // --- Acceptance, in full -----------------------------------------------------------------------

  /** A readable manifest of this run and head that selects each of its tests once. */
  predicate Belongs(run: Run, file: File) {
    && file.Parsed? && file.manifest.runId == run.runId && file.manifest.head == run.head
    && file.manifest.selected.Some? && NoDup(file.manifest.selected.value)
  }

  predicate HasShard(ms: seq<Manifest>, k: int) { exists i :: 0 <= i < |ms| && ms[i].index == k }

  /** What the chosen manifests select, shard by shard. */
  function Selections(best: map<int, Manifest>, count: nat): (r: seq<seq<Id>>)
    requires forall k :: 1 <= k <= count ==> k in best
    ensures |r| == count
  {
    seq(count, i requires 0 <= i < count =>
      if best[i + 1].selected.Some? then best[i + 1].selected.value else [])
  }

  /** The highest attempt of each shard describes the same collection `full`, and together they select it once. */
  ghost predicate CoverOneCollection(run: Run, best: map<int, Manifest>, full: seq<Id>) {
    && (forall k :: 1 <= k <= run.count ==> k in best)
    && (forall k :: 1 <= k <= run.count ==>
          best[k].count == run.count && best[k].size == |full| && best[k].digest == CollectionDigest(full))
    && NoDup(full) && ExactlyOnce(Selections(best, run.count), full)
  }

  lemma BelongsMeans(run: Run, file: File)
    ensures Belongs(run, file) <==> file.Parsed? && Problems(run, file.manifest) == []
  {
  }

  lemma HasShardMeans(ms: seq<Manifest>, k: int)
    ensures k in Best(ms) <==> HasShard(ms, k)
  {
    hide Best;
    BestFacts(ms);
    if k in Best(ms) {
      var i :| 0 <= i < |ms| && ms[i] == Best(ms)[k];
    }
    if HasShard(ms, k) {
      var i :| 0 <= i < |ms| && ms[i].index == k;
      assert ms[i] in ms;
    }
  }

  lemma ShardsMean(run: Run, ms: seq<Manifest>)
    ensures Best(ms).Keys == Indexes(run.count)
            <==> (forall i :: 0 <= i < |ms| ==> 1 <= ms[i].index <= run.count)
                 && forall k :: 1 <= k <= run.count ==> HasShard(ms, k)
  {
    hide Best, HasShard;
    forall k ensures k in Best(ms) <==> HasShard(ms, k) { HasShardMeans(ms, k); }
    forall i | 0 <= i < |ms| ensures HasShard(ms, ms[i].index) { hide *; OwnShard(ms, i); }
    forall k | HasShard(ms, k) ensures exists i :: 0 <= i < |ms| && ms[i].index == k { hide *; SomeShard(ms, k); }
    if Best(ms).Keys == Indexes(run.count) {
      forall i | 0 <= i < |ms| ensures 1 <= ms[i].index <= run.count { assert ms[i].index in Best(ms).Keys; }
    }
  }

  lemma OwnShard(ms: seq<Manifest>, i: nat)
    requires i < |ms|
    ensures HasShard(ms, ms[i].index)
  {
  }

  lemma SomeShard(ms: seq<Manifest>, k: int)
    requires HasShard(ms, k)
    ensures exists i :: 0 <= i < |ms| && ms[i].index == k
  {
  }

  lemma AllShards(best: map<int, Manifest>, count: nat)
    requires best.Keys == Indexes(count)
    ensures forall k :: 1 <= k <= count ==> k in best
  {
    assert forall k :: 1 <= k <= count ==> k in Indexes(count);
  }

  lemma SelectionsAre(best: map<int, Manifest>, count: nat)
    requires best.Keys == Indexes(count)
    ensures (forall k :: 1 <= k <= count ==> k in best)
    ensures SelectedIds(Chosen(best, count)) == Selections(best, count)
  {
    AllShards(best, count);
    var a, b := SelectedIds(Chosen(best, count)), Selections(best, count);
    forall i | 0 <= i < count ensures a[i] == b[i] {}
  }

  lemma AllDescribe(run: Run, best: map<int, Manifest>, full: seq<Id>)
    requires best.Keys == Indexes(run.count)
    ensures forall k :: 1 <= k <= run.count ==> k in best
    ensures var chosen := Chosen(best, run.count);
            (forall k :: 1 <= k <= run.count ==>
               best[k].count == run.count && best[k].size == |full| && best[k].digest == CollectionDigest(full))
            <==> forall i :: 0 <= i < run.count ==>
                   && chosen[i].count == run.count && chosen[i].size == |full|
                   && chosen[i].digest == CollectionDigest(full)
  {
    hide CollectionDigest;
    AllShards(best, run.count);
    var chosen := Chosen(best, run.count);
    assert forall k :: 1 <= k <= run.count ==> best[k] == chosen[k - 1];
  }

  lemma CoverMeans(run: Run, best: map<int, Manifest>, full: seq<Id>)
    requires best.Keys == Indexes(run.count)
    ensures var chosen := Chosen(best, run.count);
            CoverOneCollection(run, best, full)
            <==> && NoDup(full) && ExactlyOnce(SelectedIds(chosen), full)
                 && forall i :: 0 <= i < run.count ==>
                      && chosen[i].count == run.count && chosen[i].size == |full|
                      && chosen[i].digest == CollectionDigest(full)
  {
    SelectionsAre(best, run.count);
    AllDescribe(run, best, full);
    hide CollectionDigest, ExactlyOnce, NoDup, Indexes, SelectedIds, Selections;
  }

  lemma ChosenMeans(run: Run, best: map<int, Manifest>)
    requires best.Keys == Indexes(run.count)
    ensures ChosenOk(run, Chosen(best, run.count))
            <==> run.count >= 1 && exists full :: CoverOneCollection(run, best, full)
  {
    hide Sort, Flatten, CoverOneCollection;
    var chosen := Chosen(best, run.count);
    if ChosenOk(run, chosen) {
      CoverMeans(run, best, Flatten(SelectedIds(chosen)));
    }
    if run.count >= 1 && exists full :: CoverOneCollection(run, best, full) {
      var full :| CoverOneCollection(run, best, full);
      CoverMeans(run, best, full);
      ChosenOkMeansCover(run, chosen, full);
    }
  }

  /**
   * The shards qualify exactly when the matrix succeeded, every file is a manifest of this run and head, no repeat
   * was met, the manifests name exactly the shards 1 to `count`, and the chosen ones describe one collection that
   * they select exactly once between them.
   */
  lemma AcceptsExact(run: Run, files: seq<File>)
    ensures Accepts(run, files)
            <==> && run.result == "success"
                 && (forall i :: 0 <= i < |files| ==> Belongs(run, files[i]))
                 && TieFree(Manifests(files))
                 && (forall i :: 0 <= i < |files| ==> 1 <= files[i].manifest.index <= run.count)
                 && (forall k :: 1 <= k <= run.count ==> HasShard(Manifests(files), k))
                 && run.count >= 1 && exists full :: CoverOneCollection(run, Best(Manifests(files)), full)
  {
    forall i | 0 <= i < |files|
      ensures Belongs(run, files[i]) <==> files[i].Parsed? && Problems(run, files[i].manifest) == []
    {
      BelongsMeans(run, files[i]);
    }
    hide Best, TieFree, ChosenOk, Problems, CoverOneCollection, Belongs, HasShard;
    if forall i :: 0 <= i < |files| ==> files[i].Parsed? {
      var ms := Manifests(files);
      assert forall i :: 0 <= i < |files| ==> ms[i] == files[i].manifest;
      ShardsMean(run, ms);
      if Best(ms).Keys == Indexes(run.count) { ChosenMeans(run, Best(ms)); }
    }
  }

  // --- From the partition -------------------------------------------------------------------

  /** The manifest shard `k` (from 1) writes. */
  function ManifestFor(run: Run, nodeIds: seq<Id>, durations: map<Id, real>, k: nat, attempt: int): Manifest
    requires 1 <= k <= run.count
  {
    var full := SortedIds(nodeIds);
    Manifest(k, run.count, |full|, CollectionDigest(full), Some(Groups(full, durations, run.count)[k - 1]),
             run.head, run.runId, attempt)
  }

  /** No two of the manifests are from the same attempt of the same shard. */
  ghost predicate DistinctAttempts(ms: seq<Manifest>) {
    forall i, j :: 0 <= i < j < |ms| ==> ms[i].index != ms[j].index || ms[i].attempt != ms[j].attempt
  }

  /** Every shard's manifests, from any number of distinct attempts, in any file order. */
  ghost predicate FromPartition(
    run: Run, nodeIds: seq<Id>, durations: map<Id, real>, files: seq<File>, shards: seq<nat>)
  {
    && |shards| == |files| && Elems(shards) == (set k: nat | k in Indexes(run.count))
    && (forall i :: 0 <= i < |files| ==>
          && shards[i] in Indexes(run.count)
          && files[i].Parsed?
          && files[i].manifest == ManifestFor(run, nodeIds, durations, shards[i], files[i].manifest.attempt))
    && DistinctAttempts(Manifests(files))
  }

  lemma {:induction false} DistinctTieFree(ms: seq<Manifest>)
    requires DistinctAttempts(ms)
    ensures TieFree(ms)
    decreases |ms|
  {
    if ms != [] {
      var n := |ms| - 1;
      var front, m := ms[..n], ms[n];
      assert forall i :: 0 <= i < n ==> front[i] == ms[i];
      DistinctTieFree(front);
      BestFacts(front);
    }
  }

  lemma PartitionBest(run: Run, nodeIds: seq<Id>, durations: map<Id, real>, files: seq<File>, shards: seq<nat>, k: nat)
    requires FromPartition(run, nodeIds, durations, files, shards) && 1 <= k <= run.count
    ensures var best := Best(Manifests(files));
            k in best && best[k] == ManifestFor(run, nodeIds, durations, k, best[k].attempt)
    ensures TieFree(Manifests(files))
  {
    hide Best, TieFree, Groups, SortedIds, CollectionDigest, DistinctAttempts;
    var ms := Manifests(files);
    BestFacts(ms);
    DistinctTieFree(ms);
    assert k in Indexes(run.count);
    assert k in Elems(shards);
    var i :| 0 <= i < |shards| && shards[i] == k;
    assert ms[i] in ms && ms[i].index == k;
    var j :| 0 <= j < |ms| && ms[j] == Best(ms)[k];
  }

  lemma PartitionBestKeys(run: Run, nodeIds: seq<Id>, durations: map<Id, real>, files: seq<File>, shards: seq<nat>)
    requires FromPartition(run, nodeIds, durations, files, shards)
    ensures Best(Manifests(files)).Keys == Indexes(run.count)
  {
    hide Best, TieFree, Groups, SortedIds, CollectionDigest;
    var ms := Manifests(files);
    BestFacts(ms);
    forall k ensures k in Best(ms) <==> k in Indexes(run.count) {
      if k in Indexes(run.count) { PartitionBest(run, nodeIds, durations, files, shards, k); }
      if k in Best(ms) {
        var i :| 0 <= i < |ms| && ms[i] == Best(ms)[k];
        assert shards[i] in Indexes(run.count);
      }
    }
  }

  lemma PartitionFilesValid(
    run: Run, nodeIds: seq<Id>, durations: map<Id, real>, files: seq<File>, shards: seq<nat>, i: nat)
    requires FromPartition(run, nodeIds, durations, files, shards) && i < |files|
    ensures files[i].Parsed? && Problems(run, files[i].manifest) == []
  {
    hide SortedIds, CollectionDigest, Groups;
    assert shards[i] in Indexes(run.count);
    GroupsNoDup(SortedIds(nodeIds), durations, run.count, shards[i] - 1);
  }

  /** The manifests of one partitioned collection are accepted, whatever order their files are read in. */
  lemma PartitionAccepted(run: Run, nodeIds: seq<Id>, durations: map<Id, real>, files: seq<File>, shards: seq<nat>)
    requires run.count >= 1 && run.result == "success"
    requires FromPartition(run, nodeIds, durations, files, shards)
    ensures Accepts(run, files)
  {
    hide Best, TieFree, Groups, SortedIds, Flatten, CollectionDigest, Sort, Problems, ChosenOk, ExactlyOnce,
      FromPartition;
    var full := SortedIds(nodeIds);
    var groups := Groups(full, durations, run.count);
    CollectionFacts(nodeIds);
    PartitionCovers(full, durations, run.count);
    forall i | 0 <= i < |files| ensures files[i].Parsed? && Problems(run, files[i].manifest) == [] {
      PartitionSizes(run, nodeIds, durations, files, shards);
      PartitionFilesValid(run, nodeIds, durations, files, shards, i);
    }
    PartitionSizes(run, nodeIds, durations, files, shards);
    PartitionBestKeys(run, nodeIds, durations, files, shards);
    PartitionBest(run, nodeIds, durations, files, shards, 1);
    var chosen := Chosen(Best(Manifests(files)), run.count);
    forall k | 0 <= k < run.count
      ensures chosen[k] == ManifestFor(run, nodeIds, durations, k + 1, chosen[k].attempt)
    {
      PartitionBest(run, nodeIds, durations, files, shards, k + 1);
    }
    assert SelectedIds(chosen) == groups;
    ChosenOkMeansCover(run, chosen, full);
  }

  lemma PartitionSizes(run: Run, nodeIds: seq<Id>, durations: map<Id, real>, files: seq<File>, shards: seq<nat>)
    requires FromPartition(run, nodeIds, durations, files, shards)
    ensures forall i :: 0 <= i < |files| ==> files[i].Parsed?
  {
  }

  lemma CollectionFacts(nodeIds: seq<Id>)
    ensures NoDup(SortedIds(nodeIds))
  {
    hide Sort;
    SortedIdsFacts(ById, Dedup(nodeIds));
  }

  lemma GroupsNoDup(nodeIds: seq<Id>, durations: map<Id, real>, count: nat, k: nat)
    requires k < count
    ensures NoDup(Groups(nodeIds, durations, count)[k])
  {
    hide Sort, Placement, PlacementTargets, Group;
    PlacementFacts(nodeIds, durations);
    GroupNoDup(Placement(nodeIds, durations), PlacementTargets(nodeIds, durations, count), k);
    SortSorts(ById, Group(Placement(nodeIds, durations), PlacementTargets(nodeIds, durations, count), k));
  }
}
