/** The aggregate check of shard manifests, and what its acceptance means. */
module ShardVerify {
  import opened Common
  import opened Sharding

  /** The digest of a collection: injective in the sorted list of its ids. */
  datatype Digest = Digest(sorted: seq<Id>)

  function CollectionDigest(ids: seq<Id>): Digest { Digest(Sort(ById, ids)) }

  /** `selected` is `None` when the field is not a list of strings. */
  datatype Manifest = Manifest(
    index: int, count: int, size: int, digest: Digest, selected: Option<seq<Id>>,
    head: string, runId: string, attempt: int)

  datatype File = Unreadable | UnsupportedSchema | LacksFields | Parsed(manifest: Manifest)

  datatype Run = Run(count: nat, head: string, runId: string, result: string)

  datatype Problem =
    | MatrixFailed | BadFile(file: File) | OtherRun(index: int) | OtherHead(index: int) | BadIds(index: int)
    | RepeatedIds(index: int) | TwoManifests(index: int, attempt: int) | MissingShards(indexes: set<int>)
    | UnexpectedShards(indexes: set<int>) | CountDisagrees | DifferentCollections
    | SelectedTwice(id: Id) | SizeDiffers | DigestDiffers

  // --- The specification ----------------------------------------------------------------

  function Problems(run: Run, m: Manifest): seq<Problem> {
    if m.runId != run.runId then [OtherRun(m.index)]
    else if m.head != run.head then [OtherHead(m.index)]
    else if m.selected.None? then [BadIds(m.index)]
    else if !NoDup(m.selected.value) then [RepeatedIds(m.index)]
    else []
  }

  /** The latest attempt seen for each shard; the first of equal attempts stays. */
  function Best(ms: seq<Manifest>): map<int, Manifest> {
    if ms == [] then map[]
    else
      var best, m := Best(ms[..|ms| - 1]), ms[|ms| - 1];
      if m.index !in best || m.attempt > best[m.index].attempt then best[m.index := m] else best
  }

  /** A manifest repeats the attempt that leads when it is read. */
  predicate Ties(ms: seq<Manifest>, m: Manifest) {
    m.index in Best(ms) && Best(ms)[m.index].attempt == m.attempt
  }

  predicate TieFree(ms: seq<Manifest>) {
    ms == [] || (TieFree(ms[..|ms| - 1]) && !Ties(ms[..|ms| - 1], ms[|ms| - 1]))
  }

  /** The expected shard indexes, 1 to `count`. */
  function Indexes(count: nat): (r: set<int>)
    ensures forall k :: k in r <==> 1 <= k <= count
  {
    if count == 0 then {} else Indexes(count - 1) + {count}
  }

  function Chosen(best: map<int, Manifest>, count: nat): (r: seq<Manifest>)
    requires best.Keys == Indexes(count)
    ensures |r| == count && forall i :: 0 <= i < count ==> r[i] == best[i + 1]
  {
    seq(count, i requires 0 <= i < count => assert i + 1 in Indexes(count); best[i + 1])
  }

  predicate SameCollection(chosen: seq<Manifest>) {
    chosen != [] && forall i :: 0 <= i < |chosen| ==>
      chosen[i].size == chosen[0].size && chosen[i].digest == chosen[0].digest
  }

  function SelectedIds(ms: seq<Manifest>): seq<seq<Id>> {
    seq(|ms|, i requires 0 <= i < |ms| => if ms[i].selected.Some? then ms[i].selected.value else [])
  }

  function Manifests(files: seq<File>): seq<Manifest>
    requires forall i :: 0 <= i < |files| ==> files[i].Parsed?
  {
    seq(|files|, i requires 0 <= i < |files| => files[i].manifest)
  }

  predicate ChosenOk(run: Run, chosen: seq<Manifest>) {
    && (forall i :: 0 <= i < |chosen| ==> chosen[i].count == run.count)
    && SameCollection(chosen)
    && var union := Flatten(SelectedIds(chosen));
       NoDup(union) && |union| == chosen[0].size && CollectionDigest(union) == chosen[0].digest
  }

  /** When the shards qualify. */
  predicate Accepts(run: Run, files: seq<File>) {
    && run.result == "success"
    && (forall i :: 0 <= i < |files| ==> files[i].Parsed? && Problems(run, files[i].manifest) == [])
    && TieFree(Manifests(files))
    && Best(Manifests(files)).Keys == Indexes(run.count)
    && ChosenOk(run, Chosen(Best(Manifests(files)), run.count))
  }

  // --- The verifier ---------------------------------------------------------------------------

  method LoadManifests(files: seq<File>) returns (manifests: seq<Manifest>, errors: seq<Problem>)
    ensures errors == [] <==> forall i :: 0 <= i < |files| ==> files[i].Parsed?
    ensures errors == [] ==> manifests == Manifests(files)
  {
    manifests, errors := [], [];
    for i := 0 to |files|
      invariant errors == [] <==> forall j :: 0 <= j < i ==> files[j].Parsed?
      invariant errors == [] ==> manifests == Manifests(files[..i])
    {
      if files[i].Parsed? {
        manifests := manifests + [files[i].manifest];
      } else {
        errors := errors + [BadFile(files[i])];
      }
    }
    assert files[..|files|] == files;
  }

  method ValidManifests(run: Run, manifests: seq<Manifest>) returns (valid: seq<Manifest>, errors: seq<Problem>)
    ensures errors == [] <==> forall i :: 0 <= i < |manifests| ==> Problems(run, manifests[i]) == []
    ensures errors == [] ==> valid == manifests
  {
    valid, errors := [], [];
    for i := 0 to |manifests|
      invariant errors == [] <==> forall j :: 0 <= j < i ==> Problems(run, manifests[j]) == []
      invariant errors == [] ==> valid == manifests[..i]
    {
      var problems := Problems(run, manifests[i]);
      if problems == [] { valid := valid + [manifests[i]]; }
      errors := errors + problems;
    }
    assert manifests[..|manifests|] == manifests;
  }

  method BestManifests(valid: seq<Manifest>) returns (best: map<int, Manifest>, errors: seq<Problem>)
    ensures best == Best(valid)
    ensures errors == [] <==> TieFree(valid)
  {
    hide Best, TieFree;
    best, errors := map[], [];
    NoneYet();
    for i := 0 to |valid|
      invariant best == Best(valid[..i])
      invariant errors == [] <==> TieFree(valid[..i])
    {
      var m := valid[i];
      BestStep(valid[..i], m);
      assert valid[..i + 1] == valid[..i] + [m];
      if m.index in best && best[m.index].attempt == m.attempt {
        errors := errors + [TwoManifests(m.index, m.attempt)];
      }
      if m.index !in best || m.attempt > best[m.index].attempt {
        best := best[m.index := m];
      }
    }
    assert valid[..|valid|] == valid;
  }

  lemma NoneYet()
    ensures Best([]) == map[] && TieFree([])
  {
  }

  lemma BestStep(ms: seq<Manifest>, m: Manifest)
    ensures Best(ms + [m]) == if m.index !in Best(ms) || m.attempt > Best(ms)[m.index].attempt
            then Best(ms)[m.index := m] else Best(ms)
    ensures TieFree(ms + [m]) <==> TieFree(ms) && !Ties(ms, m)
  {
    assert (ms + [m])[..|ms|] == ms;
  }

  /** The ids of all chosen manifests in order, and an error for each id met before. */
  method Union(chosen: seq<Manifest>) returns (union: seq<Id>, errors: seq<Problem>)
    ensures union == Flatten(SelectedIds(chosen))
    ensures errors == [] <==> NoDup(union)
  {
    hide NoDup;
    union, errors := [], [];
    var seen: set<Id> := {};
    NoDupEmpty();
    ghost var groups := SelectedIds(chosen);
    for i := 0 to |chosen|
      invariant union == Flatten(groups[..i]) && seen == Elems(union)
      invariant errors == [] <==> NoDup(union)
    {
      var ids := if chosen[i].selected.Some? then chosen[i].selected.value else [];
      ghost var before := union;
      for j := 0 to |ids|
        invariant union == before + ids[..j] && seen == Elems(union)
        invariant errors == [] <==> NoDup(union)
      {
        NoDupSnoc(union, ids[j]);
        if ids[j] in seen { errors := errors + [SelectedTwice(ids[j])]; }
        assert Elems(union + [ids[j]]) == Elems(union) + {ids[j]};
        assert before + ids[..j + 1] == before + ids[..j] + [ids[j]];
        seen, union := seen + {ids[j]}, union + [ids[j]];
      }
      assert ids[..|ids|] == ids;
      assert groups[..i + 1][..i] == groups[..i] && groups[i] == ids;
    }
    assert groups[..|chosen|] == groups;
  }

  lemma NoDupEmpty()
    ensures NoDup<Id>([])
  {
  }

  lemma NoDupSnoc(xs: seq<Id>, x: Id)
    ensures NoDup(xs + [x]) <==> NoDup(xs) && x !in Elems(xs)
  {
    var both := xs + [x];
    if NoDup(both) {
      forall i, j | 0 <= i < j < |xs| ensures xs[i] != xs[j] { assert both[i] != both[j]; }
      forall i | 0 <= i < |xs| ensures xs[i] != x { assert both[i] != both[|xs|]; }
    }
  }

  method CheckChosen(run: Run, chosen: seq<Manifest>) returns (errors: seq<Problem>)
    ensures errors == [] <==> ChosenOk(run, chosen)
  {
    hide Flatten, Sort, NoDup;
    errors := [];
    if exists i :: 0 <= i < |chosen| && chosen[i].count != run.count { errors := errors + [CountDisagrees]; }
    if !SameCollection(chosen) { errors := errors + [DifferentCollections]; }
    if errors != [] { return; }
    var union, repeated := Union(chosen);
    if repeated != [] { return repeated[..if |repeated| < 20 then |repeated| else 20]; }
    if |union| != chosen[0].size {
      errors := [SizeDiffers];
    } else if CollectionDigest(union) != chosen[0].digest {
      errors := [DigestDiffers];
    }
  }

  /** The problems found; empty means the shards qualify. */
  method Verify(run: Run, files: seq<File>) returns (errors: seq<Problem>)
    ensures errors == [] <==> Accepts(run, files)
  {
    hide Best, TieFree, ChosenOk, Problems;
    if run.result != "success" { return [MatrixFailed]; }
    var manifests, unread := LoadManifests(files);
    var valid, invalid := ValidManifests(run, manifests);
    var best, ties := BestManifests(valid);
    errors := unread + invalid + ties;
    if unread == [] {
      assert forall i :: 0 <= i < |files| ==> manifests[i] == files[i].manifest;
    }
    var expected := Indexes(run.count);
    if expected - best.Keys != {} { errors := errors + [MissingShards(expected - best.Keys)]; }
    if best.Keys - expected != {} { errors := errors + [UnexpectedShards(best.Keys - expected)]; }
    if best.Keys != expected {
      SetDifference(best.Keys, expected);
      return;
    }
    if errors != [] { return; }
    errors := CheckChosen(run, Chosen(best, run.count));
  }

  lemma SetDifference(a: set<int>, b: set<int>)
    requires a != b
    ensures a - b != {} || b - a != {}
  {
    assert a == (a - b) + (a * b) && b == (b - a) + (a * b);
  }
}
