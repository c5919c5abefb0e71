/** How the order in which manifest files are read bears on the verdict. */
module ShardFileOrder {
  import opened Common
  import opened Sharding
  import opened ShardVerify
  import opened ShardEndToEnd

  predicate SameAttempt(a: Manifest, b: Manifest) { a.index == b.index && a.attempt == b.attempt }
  predicate Outranks(a: Manifest, b: Manifest) { a.index == b.index && a.attempt > b.attempt }

  /** Whether the order in which files are read can change the verdict. */
  ghost predicate AcceptedInEveryOrder(run: Run, files: seq<File>) {
    forall other: seq<File> :: multiset(other) == multiset(files) ==> Accepts(run, other)
  }

  lemma {:induction false} TwoPositions(xs: seq<File>, x: File) returns (i: nat, j: nat)
    requires multiset(xs)[x] >= 2
    ensures i < j < |xs| && xs[i] == x && xs[j] == x
    decreases |xs|
  {
    var n := |xs| - 1;
    assert xs == xs[..n] + [xs[n]];
    if xs[n] == x {
      assert multiset(xs[..n])[x] >= 1;
      assert x in xs[..n];
      i :| 0 <= i < n && xs[..n][i] == x;
      j := n;
    } else {
      i, j := TwoPositions(xs[..n], x);
    }
  }

  lemma TwiceCounts(xs: seq<File>, i: nat, j: nat)
    requires i < j < |xs| && xs[i] == xs[j]
    ensures multiset(xs)[xs[i]] >= 2
  {
    assert xs == xs[..i] + [xs[i]] + xs[i + 1..j] + [xs[j]] + xs[j + 1..];
  }

  lemma AllParsed(a: seq<File>, b: seq<File>)
    requires multiset(a) == multiset(b)
    ensures forall f :: f in a <==> f in b
    ensures (forall i :: 0 <= i < |a| ==> a[i].Parsed?) ==> forall i :: 0 <= i < |b| ==> b[i].Parsed?
  {
    forall f ensures f in a <==> f in b {
      assert f in a <==> f in multiset(a);
      assert f in b <==> f in multiset(b);
    }
    forall i | 0 <= i < |b| && (forall i :: 0 <= i < |a| ==> a[i].Parsed?) ensures b[i].Parsed? {
      assert b[i] in b && b[i] in a;
    }
  }

  lemma DistinctInAnyOrder(a: seq<File>, b: seq<File>)
    requires multiset(a) == multiset(b) && (forall i :: 0 <= i < |a| ==> a[i].Parsed?)
            && (forall i :: 0 <= i < |b| ==> b[i].Parsed?)
    requires DistinctAttempts(Manifests(a))
    ensures DistinctAttempts(Manifests(b))
  {
    var x, y := Manifests(a), Manifests(b);
    AllParsed(a, b);
    forall i, j | 0 <= i < j < |y| ensures y[i].index != y[j].index || y[i].attempt != y[j].attempt {
      assert b[i] in a && b[j] in a;
      var k :| 0 <= k < |a| && a[k] == b[i];
      var l :| 0 <= l < |a| && a[l] == b[j];
      if b[i] == b[j] {
        TwiceCounts(b, i, j);
        k, l := TwoPositions(a, b[i]);
      }
      assert x[k] == y[i] && x[l] == y[j] && k != l;
      if k < l { assert x[k].index != x[l].index || x[k].attempt != x[l].attempt; }
      else { assert x[l].index != x[k].index || x[l].attempt != x[k].attempt; }
    }
  }

  lemma SameBest(a: seq<File>, b: seq<File>)
    requires multiset(a) == multiset(b) && (forall i :: 0 <= i < |a| ==> a[i].Parsed?)
            && (forall i :: 0 <= i < |b| ==> b[i].Parsed?)
    requires DistinctAttempts(Manifests(a))
    ensures Best(Manifests(a)) == Best(Manifests(b))
  {
    hide Best;
    var x, y := Manifests(a), Manifests(b);
    BestFacts(x);
    BestFacts(y);
    AllParsed(a, b);
    forall m ensures m in x <==> m in y {
      if m in x {
        var i :| 0 <= i < |x| && x[i] == m;
        assert a[i] in b;
        var j :| 0 <= j < |b| && b[j] == a[i];
        assert y[j] == m;
      }
      if m in y {
        var j :| 0 <= j < |y| && y[j] == m;
        assert b[j] in a;
        var i :| 0 <= i < |a| && a[i] == b[j];
        assert x[i] == m;
      }
    }
    forall k ensures k in Best(x) <==> k in Best(y) {
      if k in Best(x) { assert Best(x)[k] in y; }
      if k in Best(y) { assert Best(y)[k] in x; }
    }
    forall k | k in Best(x) ensures Best(x)[k] == Best(y)[k] {
      SameAttemptSame(x, Best(x)[k], Best(y)[k]);
    }
  }

  lemma SameAttemptSame(ms: seq<Manifest>, m: Manifest, m': Manifest)
    requires DistinctAttempts(ms) && m in ms && m' in ms && m.index == m'.index && m.attempt == m'.attempt
    ensures m == m'
  {
    var i :| 0 <= i < |ms| && ms[i] == m;
    var j :| 0 <= j < |ms| && ms[j] == m';
  }

  lemma {:induction false} TieFreePrefix(ms: seq<Manifest>, n: nat)
    requires TieFree(ms) && n <= |ms|
    ensures TieFree(ms[..n])
    decreases |ms|
  {
    if n == |ms| {
      assert ms[..n] == ms;
    } else {
      assert ms[..|ms| - 1][..n] == ms[..n];
      TieFreePrefix(ms[..|ms| - 1], n);
    }
  }

  /** Two manifests of one attempt, read first, are a tie. */
  lemma TieFirst(ms: seq<Manifest>)
    requires |ms| >= 2 && ms[0].index == ms[1].index && ms[0].attempt == ms[1].attempt
    ensures !TieFree(ms)
  {
    var one, two := ms[..1], ms[..2];
    assert one[..0] == [] && two[..1] == one && two[1] == ms[1];
    assert Best(one[..0]) == map[];
    assert Best(one) == map[ms[0].index := ms[0]];
    assert !TieFree(two);
    if TieFree(ms) { TieFreePrefix(ms, 2); }
  }

  function TwoFirst(files: seq<File>, i: nat, j: nat): seq<File>
    requires i < j < |files|
  {
    [files[i], files[j]] + files[..i] + files[i + 1..j] + files[j + 1..]
  }

  lemma TwoFirstReorders(files: seq<File>, i: nat, j: nat)
    requires i < j < |files|
    ensures multiset(TwoFirst(files, i, j)) == multiset(files)
  {
    assert files == files[..i] + [files[i]] + files[i + 1..j] + [files[j]] + files[j + 1..];
  }

  /** Attempts 1, 1, 2 of one empty shard are refused; read as 2, 1, 1 they are accepted. */
  lemma FileOrderMatters()
    ensures var run := Run(1, "head", "run", "success");
            var first := Parsed(Manifest(1, 1, 0, CollectionDigest([]), Some([]), "head", "run", 1));
            var second := Parsed(Manifest(1, 1, 0, CollectionDigest([]), Some([]), "head", "run", 2));
            !Accepts(run, [first, first, second]) && Accepts(run, [second, first, first])
  {
    hide Best, TieFree, CollectionDigest, Sort;
    var m1 := Manifest(1, 1, 0, CollectionDigest([]), Some([]), "head", "run", 1);
    var m2 := m1.(attempt := 2);
    var early, late := [m1, m1, m2], [m2, m1, m1];
    assert Manifests([Parsed(m1), Parsed(m1), Parsed(m2)]) == early;
    assert Manifests([Parsed(m2), Parsed(m1), Parsed(m1)]) == late;
    TieFirst(early);
    LaterIgnored(m2, m1);
    assert Indexes(1) == {1};
    assert Chosen(Best(late), 1) == [m2];
    CoversNothing(m2);
  }

  lemma LaterIgnored(m: Manifest, earlier: Manifest)
    requires Outranks(m, earlier)
    ensures Best([m, earlier, earlier]) == map[m.index := m] && TieFree([m, earlier, earlier])
  {
    hide Best, TieFree;
    NoneYet();
    BestStep([], m);
    BestStep([m], earlier);
    BestStep([m, earlier], earlier);
    assert [] + [m] == [m] && [m] + [earlier] == [m, earlier] && [m, earlier] + [earlier] == [m, earlier, earlier];
  }

  lemma CoversNothing(m: Manifest)
    requires m.selected == Some([])
    ensures SelectedIds([m]) == [[]] && Flatten(SelectedIds([m])) == []
  {
    var none: seq<seq<Id>> := [[]];
    assert none[..0] == [] && Flatten(none) == [];
  }

  /**
   * The verdict can depend on the order of the files: a repeated attempt is only
   * noticed while it leads.  A set of files is accepted in every order exactly when
   * it is accepted in this one and no attempt of a shard is repeated.
   */
  lemma AcceptedInEveryOrderExact(run: Run, files: seq<File>)
    ensures AcceptedInEveryOrder(run, files) <==> Accepts(run, files) && DistinctAttempts(Manifests(files))
  {
    hide Best, TieFree, ChosenOk, Problems, DistinctAttempts;
    if Accepts(run, files) && DistinctAttempts(Manifests(files)) {
      forall other: seq<File> | multiset(other) == multiset(files) ensures Accepts(run, other) {
        AllParsed(files, other);
        DistinctInAnyOrder(files, other);
        DistinctTieFree(Manifests(other));
        SameBest(files, other);
        forall i | 0 <= i < |other| ensures Problems(run, other[i].manifest) == [] {
          assert other[i] in files;
          var j :| 0 <= j < |files| && files[j] == other[i];
        }
      }
    }
    if AcceptedInEveryOrder(run, files) {
      assert Accepts(run, files);
      var ms := Manifests(files);
      forall i, j | 0 <= i < j < |ms| ensures ms[i].index != ms[j].index || ms[i].attempt != ms[j].attempt {
        var other := TwoFirst(files, i, j);
        TwoFirstReorders(files, i, j);
        assert Accepts(run, other);
        if ms[i].index == ms[j].index && ms[i].attempt == ms[j].attempt { TieFirst(Manifests(other)); }
      }
      IsDistinct(ms);
    }
  }

  lemma IsDistinct(ms: seq<Manifest>)
    requires forall i, j :: 0 <= i < j < |ms| ==> ms[i].index != ms[j].index || ms[i].attempt != ms[j].attempt
    ensures DistinctAttempts(ms)
  {
  }

  // --- Accepted in some order ------------------------------------------------------------------

  ghost predicate AcceptedInSomeOrder(run: Run, files: seq<File>) {
    exists other: seq<File> :: multiset(other) == multiset(files) && Accepts(run, other)
  }

  function AttemptOf(f: File): int { if f.Parsed? then f.manifest.attempt else 0 }

  function InsertFile(f: File, files: seq<File>): seq<File> {
    if files == [] then [f]
    else if AttemptOf(f) >= AttemptOf(files[0]) then [f] + files
    else [files[0]] + InsertFile(f, files[1..])
  }

  /** The files with the highest attempts first. */
  function HighestFirst(files: seq<File>): seq<File> {
    if files == [] then [] else InsertFile(files[0], HighestFirst(files[1..]))
  }

  predicate Falling(files: seq<File>) {
    forall i, j :: 0 <= i < j < |files| ==> AttemptOf(files[i]) >= AttemptOf(files[j])
  }

  lemma {:induction false} InsertPermutes(f: File, files: seq<File>)
    ensures multiset(InsertFile(f, files)) == multiset(files) + multiset{f}
    decreases |files|
  {
    hide AttemptOf;
    if files != [] {
      assert files == [files[0]] + files[1..];
      InsertPermutes(f, files[1..]);
    }
  }

  lemma {:induction false} InsertFalls(f: File, files: seq<File>)
    requires Falling(files)
    ensures Falling(InsertFile(f, files))
    decreases |files|
  {
    hide AttemptOf;
    if files != [] && AttemptOf(f) < AttemptOf(files[0]) {
      InsertFalls(f, files[1..]);
      InsertPermutes(f, files[1..]);
      var rest := InsertFile(f, files[1..]);
      forall j | 0 <= j < |rest| ensures AttemptOf(files[0]) >= AttemptOf(rest[j]) {
        assert rest[j] in multiset(rest);
        assert rest[j] == f || rest[j] in files[1..];
      }
    }
  }

  lemma {:induction false} HighestFirstFalls(files: seq<File>)
    ensures multiset(HighestFirst(files)) == multiset(files) && Falling(HighestFirst(files))
    decreases |files|
  {
    hide Falling, InsertFile;
    if files == [] {
      NothingFalls();
    } else {
      assert files == [files[0]] + files[1..];
      HighestFirstFalls(files[1..]);
      InsertFalls(files[0], HighestFirst(files[1..]));
      InsertPermutes(files[0], HighestFirst(files[1..]));
    }
  }

  lemma NothingFalls()
    ensures Falling([])
  {
  }

  /** A repeated attempt of a shard is never its highest. */
  ghost predicate TopOnce(ms: seq<Manifest>) {
    forall i, j :: 0 <= i < j < |ms| && SameAttempt(ms[i], ms[j]) ==> exists m :: m in ms && Outranks(m, ms[i])
  }

  lemma TieFreeTopOnce(ms: seq<Manifest>)
    requires TieFree(ms)
    ensures TopOnce(ms)
  {
    hide TieFree, Best;
    BestFacts(ms);
    forall i, j | 0 <= i < j < |ms| && SameAttempt(ms[i], ms[j]) ensures exists m :: m in ms && Outranks(m, ms[i]) {
      assert ms[i] in ms;
      var top := ChosenIsUniqueHighest(ms, ms[i].index);
      assert ms[top] in ms && Outranks(ms[top], ms[i]);
    }
  }

  ghost predicate AllParsedIn(files: seq<File>) { forall i :: 0 <= i < |files| ==> files[i].Parsed? }

  lemma ManifestIn(files: seq<File>, other: seq<File>, m: Manifest)
    requires multiset(files) == multiset(other) && AllParsedIn(files) && AllParsedIn(other) && m in Manifests(files)
    ensures m in Manifests(other)
  {
    var i :| 0 <= i < |files| && Manifests(files)[i] == m;
    assert files[i] in multiset(other);
    var j :| 0 <= j < |other| && other[j] == files[i];
    assert Manifests(other)[j] == m;
  }

  lemma TopOnceInAnyOrder(files: seq<File>, other: seq<File>)
    requires multiset(files) == multiset(other) && AllParsedIn(files) && AllParsedIn(other)
    requires TopOnce(Manifests(files))
    ensures TopOnce(Manifests(other))
  {
    var x, y := Manifests(files), Manifests(other);
    forall i, j | 0 <= i < j < |y| && SameAttempt(y[i], y[j]) ensures exists m :: m in y && Outranks(m, y[i]) {
      var k, l := SamePair(files, other, i, j);
      assert (x[k] == y[i] && x[l] == y[j]) || (x[k] == y[j] && x[l] == y[i]);
      assert SameAttempt(x[k], x[l]);
      var m :| m in x && Outranks(m, x[k]);
      ManifestIn(files, other, m);
      assert m in y && Outranks(m, y[i]);
    }
  }

  /** Two positions of one order, found again in another. */
  lemma SamePair(files: seq<File>, other: seq<File>, i: nat, j: nat) returns (k: nat, l: nat)
    requires multiset(files) == multiset(other) && i < j < |other|
    ensures k < l < |files|
    ensures (files[k] == other[i] && files[l] == other[j]) || (files[k] == other[j] && files[l] == other[i])
  {
    assert other[i] in multiset(files) && other[j] in multiset(files);
    if other[i] == other[j] {
      TwiceCounts(other, i, j);
      k, l := TwoPositions(files, other[i]);
    } else {
      k :| 0 <= k < |files| && files[k] == other[i];
      l :| 0 <= l < |files| && files[l] == other[j];
      if l < k { k, l := l, k; }
    }
  }

  lemma PrefixTopOnce(files: seq<File>, n: nat)
    requires AllParsedIn(files) && Falling(files) && TopOnce(Manifests(files)) && n <= |files|
    ensures TopOnce(Manifests(files[..n]))
  {
    var ms, front := Manifests(files), Manifests(files[..n]);
    forall i, j | 0 <= i < j < n && SameAttempt(front[i], front[j])
      ensures exists m :: m in front && Outranks(m, front[i]) {
      assert SameAttempt(ms[i], ms[j]);
      var m :| m in ms && Outranks(m, ms[i]);
      OutranksEarlier(files, m, i, n);
    }
  }

  lemma LastTiesNone(files: seq<File>)
    requires AllParsedIn(files) && Falling(files) && TopOnce(Manifests(files)) && files != []
    ensures var n := |files| - 1; !Ties(Manifests(files[..n]), Manifests(files)[n])
  {
    hide Best, Falling;
    var n, ms := |files| - 1, Manifests(files);
    var front := Manifests(files[..n]);
    BestFacts(front);
    forall b | b in front && SameAttempt(b, ms[n]) ensures exists m :: m in front && Outranks(m, b) {
      var i :| 0 <= i < n && front[i] == b;
      assert SameAttempt(ms[i], ms[n]);
      var m :| m in ms && Outranks(m, ms[i]);
      OutranksEarlier(files, m, i, n);
    }
  }

  /** Read from the highest attempt down, only a repeated highest attempt is a tie. */
  lemma {:induction false} FallingTieFree(files: seq<File>)
    requires AllParsedIn(files) && Falling(files) && TopOnce(Manifests(files))
    ensures TieFree(Manifests(files))
    decreases |files|
  {
    hide TopOnce, Ties;
    if files != [] {
      var n := |files| - 1;
      assert Manifests(files)[..n] == Manifests(files[..n]);
      PrefixTopOnce(files, n);
      FallingTieFree(files[..n]);
      LastTiesNone(files);
    }
  }

  lemma OutranksEarlier(files: seq<File>, m: Manifest, i: nat, n: nat)
    requires AllParsedIn(files) && Falling(files) && i < n <= |files|
    requires m in Manifests(files) && Outranks(m, files[i].manifest)
    ensures m in Manifests(files[..n])
  {
    var k :| 0 <= k < |files| && Manifests(files)[k] == m;
    assert AttemptOf(files[k]) > AttemptOf(files[i]);
    assert k < i;
    assert Manifests(files[..n])[k] == m;
  }

  lemma SameTops(files: seq<File>, other: seq<File>)
    requires multiset(files) == multiset(other) && AllParsedIn(files) && AllParsedIn(other) && TopOnce(Manifests(files))
    ensures Best(Manifests(files)) == Best(Manifests(other))
  {
    hide Best, TopOnce;
    var x, y := Manifests(files), Manifests(other);
    BestFacts(x);
    BestFacts(y);
    forall m ensures m in x <==> m in y {
      if m in x { ManifestIn(files, other, m); }
      if m in y { ManifestIn(other, files, m); }
    }
    forall k ensures k in Best(x) <==> k in Best(y) {
      if k in Best(x) { assert Best(x)[k] in y; }
      if k in Best(y) { assert Best(y)[k] in x; }
    }
    forall k | k in Best(x) ensures Best(x)[k] == Best(y)[k] {
      TopIsUnique(x, Best(x)[k], Best(y)[k]);
    }
  }

  lemma TopIsUnique(ms: seq<Manifest>, a: Manifest, b: Manifest)
    requires TopOnce(ms) && a in ms && b in ms && SameAttempt(a, b) && forall m :: m in ms ==> !Outranks(m, a)
    ensures a == b
  {
    var i :| 0 <= i < |ms| && ms[i] == a;
    var j :| 0 <= j < |ms| && ms[j] == b;
  }

  /** Some order is accepted exactly when reading the highest attempts first is; else every order is refused. */
  lemma AcceptedInSomeOrderExact(run: Run, files: seq<File>)
    ensures AcceptedInSomeOrder(run, files) <==> Accepts(run, HighestFirst(files))
  {
    hide Best, TieFree, ChosenOk, Problems, TopOnce, Falling, HighestFirst;
    HighestFirstFalls(files);
    var first := HighestFirst(files);
    if AcceptedInSomeOrder(run, files) {
      var other :| multiset(other) == multiset(files) && Accepts(run, other);
      AllParsed(other, first);
      TieFreeTopOnce(Manifests(other));
      TopOnceInAnyOrder(other, first);
      FallingTieFree(first);
      SameTops(other, first);
      forall i | 0 <= i < |first| ensures Problems(run, first[i].manifest) == [] {
        assert first[i] in other;
        var j :| 0 <= j < |other| && other[j] == first[i];
      }
    }
  }
}
