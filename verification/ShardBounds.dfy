/** How far the greedy allocation can be from the best one. */
module ShardBounds {
  import opened Common
  import opened Sharding

  predicate NonNegative(ws: seq<real>) {
    forall i :: 0 <= i < |ws| ==> ws[i] >= 0.0
  }

  predicate Descending(ws: seq<real>) {
    forall i, j :: 0 <= i < j < |ws| ==> ws[i] >= ws[j]
  }

  /** `alt` sends every test to one of `m` shards, none heavier than `limit`. */
  predicate Schedule(ws: seq<real>, alt: seq<nat>, m: nat, limit: real) {
    && |alt| == |ws| && (forall t :: 0 <= t < |alt| ==> alt[t] < m)
    && (forall k :: 0 <= k < m ==> Load(ws, alt, k) <= limit)
  }

  function Count(targets: seq<nat>, k: nat): nat {
    if targets == [] then 0
    else Count(targets[..|targets| - 1], k) + if targets[|targets| - 1] == k then 1 else 0
  }

  function Scale(n: nat, x: real): real { (n as real) * x }

  lemma ScaleStep(n: nat, x: real)
    requires n >= 1
    ensures Scale(n, x) == Scale(n - 1, x) + x
  {
  }

  lemma ScaleZero(x: real)
    ensures Scale(0, x) == 0.0
  {
  }

  // --- Sums over shards -------------------------------------------------------------------

  function SumLoads(ws: seq<real>, targets: seq<nat>, m: nat): real
    requires |ws| == |targets|
  {
    if m == 0 then 0.0 else SumLoads(ws, targets, m - 1) + Load(ws, targets, m - 1)
  }

  lemma {:induction false} SumLoadsStep(ws: seq<real>, targets: seq<nat>, m: nat)
    requires |ws| == |targets| && ws != []
    ensures var n := |ws| - 1;
            SumLoads(ws, targets, m) == SumLoads(ws[..n], targets[..n], m) + if targets[n] < m then ws[n] else 0.0
    decreases m
  {
    if m > 0 { SumLoadsStep(ws, targets, m - 1); }
  }

  lemma {:induction false} NoLoads(m: nat)
    ensures SumLoads([], [], m) == 0.0
  {
    if m > 0 { NoLoads(m - 1); }
  }

  /** Every test is on some shard, so the loads add up to the total weight. */
  lemma {:induction false} SumLoadsIsTotal(ws: seq<real>, targets: seq<nat>, m: nat)
    requires |ws| == |targets| && forall t :: 0 <= t < |targets| ==> targets[t] < m
    ensures SumLoads(ws, targets, m) == Sum(ws)
    decreases |ws|
  {
    if ws == [] {
      NoLoads(m);
    } else {
      var n := |ws| - 1;
      SumLoadsStep(ws, targets, m);
      SumLoadsIsTotal(ws[..n], targets[..n], m);
    }
  }

  lemma {:induction false} SumLoadsAtLeast(ws: seq<real>, targets: seq<nat>, m: nat, low: real)
    requires |ws| == |targets| && forall k :: 0 <= k < m ==> Load(ws, targets, k) >= low
    ensures SumLoads(ws, targets, m) >= Scale(m, low)
  {
    hide Scale, Load;
    if m == 0 {
      ScaleZero(low);
    } else {
      SumLoadsAtLeast(ws, targets, m - 1, low);
      ScaleStep(m, low);
    }
  }

  lemma {:induction false} SumLoadsAtMost(ws: seq<real>, targets: seq<nat>, m: nat, high: real)
    requires |ws| == |targets| && forall k :: 0 <= k < m ==> Load(ws, targets, k) <= high
    ensures SumLoads(ws, targets, m) <= Scale(m, high)
  {
    hide Scale, Load;
    if m == 0 {
      ScaleZero(high);
    } else {
      SumLoadsAtMost(ws, targets, m - 1, high);
      ScaleStep(m, high);
    }
  }

  // --- Prefixes -----------------------------------------------------------------------------

  lemma {:induction false} LoadGrows(ws: seq<real>, targets: seq<nat>, n: nat, k: nat)
    requires |ws| == |targets| && n <= |ws| && NonNegative(ws)
    ensures 0.0 <= Load(ws[..n], targets[..n], k) <= Load(ws, targets, k)
    ensures Sum(ws[..n]) <= Sum(ws)
    decreases |ws|
  {
    var l := |ws| - 1;
    if n == |ws| {
      assert ws[..n] == ws && targets[..n] == targets;
      if n > 0 { LoadGrows(ws[..l], targets[..l], 0, k); assert ws[..l][..0] == [] && targets[..l][..0] == []; }
    } else {
      LoadGrows(ws[..l], targets[..l], n, k);
      assert ws[..l][..n] == ws[..n] && targets[..l][..n] == targets[..n];
    }
  }

  lemma {:induction false} LoadHolds(ws: seq<real>, targets: seq<nat>, j: nat)
    requires |ws| == |targets| && j < |ws| && NonNegative(ws)
    ensures ws[j] <= Load(ws, targets, targets[j])
  {
    LoadGrows(ws, targets, j + 1, targets[j]);
    LoadGrows(ws[..j + 1], targets[..j + 1], j, targets[j]);
    assert ws[..j + 1][..j] == ws[..j] && targets[..j + 1][..j] == targets[..j];
  }

  lemma {:induction false} TargetsPrefix(ws: seq<real>, m: nat, n: nat)
    requires m >= 1 && n <= |ws|
    ensures Targets(ws, m)[..n] == Targets(ws[..n], m)
    decreases |ws|
  {
    if n == |ws| {
      assert ws[..n] == ws;
    } else {
      var l := |ws| - 1;
      TargetsPrefix(ws[..l], m, n);
      assert ws[..l][..n] == ws[..n];
      assert Targets(ws, m)[..l] == Targets(ws[..l], m);
      assert Targets(ws, m)[..n] == Targets(ws, m)[..l][..n];
    }
  }

  /** The last test placed on shard `k`; after it the shard never changes. */
  lemma {:induction false} LastOn(ws: seq<real>, targets: seq<nat>, k: nat) returns (j: nat)
    requires |ws| == |targets| && Count(targets, k) > 0
    ensures j < |ws| && targets[j] == k
    ensures Load(ws, targets, k) == Load(ws[..j], targets[..j], k) + ws[j]
    ensures forall i :: 0 <= i < |ws| && targets[i] == k ==> i <= j
    decreases |ws|
  {
    var l := |ws| - 1;
    if targets[l] == k {
      j := l;
    } else {
      j := LastOn(ws[..l], targets[..l], k);
      assert ws[..l][..j] == ws[..j] && targets[..l][..j] == targets[..j];
      assert forall i :: 0 <= i < l ==> targets[..l][i] == targets[i];
    }
  }

  /** When a test is placed, its shard is the lightest. */
  lemma PlacedOnLightest(ws: seq<real>, m: nat, j: nat, k: nat)
    requires m >= 1 && j < |ws| && k < m
    ensures Targets(ws, m)[j] < m
    ensures Load(ws[..j], Targets(ws[..j], m), Targets(ws, m)[j]) <= Load(ws[..j], Targets(ws[..j], m), k)
  {
    TargetsPrefix(ws, m, j + 1);
    var upTo := ws[..j + 1];
    assert upTo[..j] == ws[..j];
    var loads := Loads(ws[..j], Targets(ws[..j], m), m);
    var best := ArgMin(loads);
    assert Targets(ws, m)[j] == Targets(ws, m)[..j + 1][j] == best;
    assert loads[best] <= loads[k];
  }

  lemma SumStep(ws: seq<real>, j: nat)
    requires j < |ws|
    ensures Sum(ws[..j + 1]) == Sum(ws[..j]) + ws[j]
  {
    assert ws[..j + 1][..j] == ws[..j];
  }

  /** The last test of a shard joined it when it was lightest, so its load there is at most the average. */
  lemma LastJobBound(ws: seq<real>, m: nat, alt: seq<nat>, limit: real, j: nat)
    requires m >= 1 && j < |ws| && NonNegative(ws) && Schedule(ws, alt, m, limit)
    ensures var targets := Targets(ws, m);
            Scale(m, Load(ws[..j], targets[..j], targets[j])) + ws[j] <= Scale(m, limit)
  {
    hide Scale, Load, Sum, SumLoads, Targets;
    var targets := Targets(ws, m);
    TargetsPrefix(ws, m, j);
    var pre, preTargets := ws[..j], Targets(ws[..j], m);
    var low := Load(pre, preTargets, targets[j]);
    forall k | 0 <= k < m ensures Load(pre, preTargets, k) >= low { PlacedOnLightest(ws, m, j, k); }
    SumLoadsAtLeast(pre, preTargets, m, low);
    SumLoadsIsTotal(pre, preTargets, m);
    SumLoadsAtMost(ws, alt, m, limit);
    SumLoadsIsTotal(ws, alt, m);
    LoadGrows(ws, alt, j + 1, 0);
    SumStep(ws, j);
  }

  lemma {:induction false} EmptyShard(ws: seq<real>, targets: seq<nat>, k: nat)
    requires |ws| == |targets| && Count(targets, k) == 0
    ensures Load(ws, targets, k) == 0.0
    decreases |ws|
  {
    if ws != [] { EmptyShard(ws[..|ws| - 1], targets[..|ws| - 1], k); }
  }

  lemma LimitNonNegative(ws: seq<real>, alt: seq<nat>, m: nat, limit: real)
    requires m >= 1 && NonNegative(ws) && Schedule(ws, alt, m, limit)
    ensures limit >= 0.0
  {
    LoadGrows(ws, alt, 0, 0);
    assert Load(ws, alt, 0) <= limit;
  }

  /** One test fits on the shard the alternative gives it. */
  lemma TestFits(ws: seq<real>, alt: seq<nat>, m: nat, limit: real, j: nat)
    requires m >= 1 && j < |ws| && NonNegative(ws) && Schedule(ws, alt, m, limit)
    ensures ws[j] <= limit
  {
    LoadHolds(ws, alt, j);
  }

  lemma ListArithmetic(m: nat, load: real, last: real, limit: real)
    requires m >= 1 && last <= limit && Scale(m, load - last) + last <= Scale(m, limit)
    ensures (m as real) * load <= ((2 * m - 1) as real) * limit
  {
    assert (m as real) * load <= (m as real) * limit + ((m - 1) as real) * last;
    assert ((m - 1) as real) * last <= ((m - 1) as real) * limit;
  }

  /**
   * Greedy list scheduling: with m shards the heaviest is at most (2 - 1/m) times
   * the best possible, whatever the order.
   */
  lemma ListSchedulingBound(ws: seq<real>, m: nat, alt: seq<nat>, limit: real, k: nat)
    requires m >= 1 && k < m && NonNegative(ws) && Schedule(ws, alt, m, limit)
    ensures (m as real) * Load(ws, Targets(ws, m), k) <= ((2 * m - 1) as real) * limit
  {
    hide Scale, Load, Targets, Schedule, NonNegative;
    var targets := Targets(ws, m);
    LimitNonNegative(ws, alt, m, limit);
    if Count(targets, k) == 0 {
      EmptyShard(ws, targets, k);
    } else {
      var j := LastOn(ws, targets, k);
      LastJobBound(ws, m, alt, limit, j);
      TestFits(ws, alt, m, limit, j);
      ListArithmetic(m, Load(ws, targets, k), ws[j], limit);
    }
  }

  lemma {:induction false} SmallestTimesCount(ws: seq<real>, targets: seq<nat>, k: nat, w: real)
    requires |ws| == |targets| && forall i :: 0 <= i < |ws| && targets[i] == k ==> w <= ws[i]
    ensures Scale(Count(targets, k), w) <= Load(ws, targets, k)
    decreases |ws|
  {
    hide Scale;
    if ws == [] {
      ScaleZero(w);
    } else {
      var l := |ws| - 1;
      SmallestTimesCount(ws[..l], targets[..l], k, w);
      if targets[l] == k { ScaleStep(Count(targets, k), w); }
    }
  }

  lemma CountArithmetic(m: nat, c: nat, load: real, last: real, limit: real)
    requires m >= 1 && Scale(c, last) <= load
    requires Scale(m, load - last) + last <= Scale(m, limit)
    ensures load * ((m * c - m + 1) as real) <= ((m * c) as real) * limit
  {
    var mr, cr := m as real, c as real;
    assert mr * load <= mr * limit + (mr - 1.0) * last;
    assert cr * (mr * load) <= cr * (mr * limit + (mr - 1.0) * last);
    assert (mr - 1.0) * (cr * last) <= (mr - 1.0) * load;
    assert cr * (mr * limit + (mr - 1.0) * last) == (mr * cr) * limit + (mr - 1.0) * (cr * last);
    assert (m * c) as real == mr * cr;
  }

  /** With the heaviest tests first, a shard of c tests and load L obeys L(mc - m + 1) <= mc * best. */
  lemma CountBound(ws: seq<real>, m: nat, alt: seq<nat>, limit: real, k: nat)
    requires m >= 1 && k < m && NonNegative(ws) && Descending(ws) && Schedule(ws, alt, m, limit)
    requires Count(Targets(ws, m), k) > 0
    ensures var c := Count(Targets(ws, m), k);
            Load(ws, Targets(ws, m), k) * ((m * c - m + 1) as real) <= ((m * c) as real) * limit
  {
    hide Scale, Load, Targets, Schedule, NonNegative, Count;
    var targets := Targets(ws, m);
    var j := LastOn(ws, targets, k);
    LastJobBound(ws, m, alt, limit, j);
    SmallestTimesCount(ws, targets, k, ws[j]);
    CountArithmetic(m, Count(targets, k), Load(ws, targets, k), ws[j], limit);
  }

  // --- Graham's bound ------------------------------------------------------------------------------

  /** A test scores 2 when it is at least `low` heavy, and 1 otherwise. */
  function Scores(ws: seq<real>, low: real): (r: seq<real>)
    ensures |r| == |ws|
  {
    seq(|ws|, i requires 0 <= i < |ws| => if ws[i] >= low then 2.0 else 1.0)
  }

  lemma ScoresPrefix(ws: seq<real>, low: real, n: nat)
    requires n <= |ws|
    ensures Scores(ws, low)[..n] == Scores(ws[..n], low)
  {
  }

  /** A shard at least `low` > 0 heavy scores at least 2. */
  lemma {:induction false} HeavyScores(ws: seq<real>, targets: seq<nat>, k: nat, low: real)
    requires |ws| == |targets|
    ensures var score, load := Load(Scores(ws, low), targets, k), Load(ws, targets, k);
            (score == 0.0 && load == 0.0) || (score == 1.0 && load < low) || score >= 2.0
    decreases |ws|
  {
    if ws != [] {
      var l := |ws| - 1;
      ScoresPrefix(ws, low, l);
      HeavyScores(ws[..l], targets[..l], k, low);
    }
  }

  /** When three tests, or a heavy one with any other, exceed `limit`, a shard within `limit` scores at most 2. */
  lemma {:induction false} LightScores(ws: seq<real>, targets: seq<nat>, k: nat, low: real, least: real, limit: real)
    requires |ws| == |targets| && (forall i :: 0 <= i < |ws| ==> least <= ws[i])
    requires least >= 0.0 && 3.0 * least > limit && low + least > limit
    ensures var score, load := Load(Scores(ws, low), targets, k), Load(ws, targets, k);
            || (score == 0.0 && load == 0.0) || (score == 1.0 && load >= least)
            || (score == 2.0 && (load >= 2.0 * least || load >= low)) || (score > 2.0 && load > limit)
    decreases |ws|
  {
    if ws != [] {
      var l := |ws| - 1;
      ScoresPrefix(ws, low, l);
      LightScores(ws[..l], targets[..l], k, low, least, limit);
    }
  }

  /** Before test j every shard scores at least 2, so the tests so far score at least 2m. */
  lemma ScoresBefore(ws: seq<real>, m: nat, j: nat, low: real)
    requires m >= 1 && j < |ws| && low > 0.0
    requires low == Load(ws[..j], Targets(ws, m)[..j], Targets(ws, m)[j])
    ensures Sum(Scores(ws, low)[..j]) >= Scale(m, 2.0)
  {
    hide Scale, Load, Targets, Sum, SumLoads, Scores;
    TargetsPrefix(ws, m, j);
    ScoresPrefix(ws, low, j);
    var scores, targets := Scores(ws[..j], low), Targets(ws[..j], m);
    forall k | 0 <= k < m ensures Load(scores, targets, k) >= 2.0 {
      PlacedOnLightest(ws, m, j, k);
      HeavyScores(ws[..j], targets, k, low);
    }
    SumLoadsAtLeast(scores, targets, m, 2.0);
    SumLoadsIsTotal(scores, targets, m);
  }

  /** No shard of the alternative scores more than 2, so the tests up to j score at most 2m. */
  lemma ScoresAfter(ws: seq<real>, m: nat, alt: seq<nat>, limit: real, j: nat, low: real)
    requires j < |ws| && NonNegative(ws) && Descending(ws) && Schedule(ws, alt, m, limit)
    requires 3.0 * ws[j] > limit && low + ws[j] > limit
    ensures Sum(Scores(ws, low)[..j + 1]) <= Scale(m, 2.0)
  {
    hide Scale, Load, Sum, SumLoads, Scores;
    ScoresPrefix(ws, low, j + 1);
    var scores, targets := Scores(ws[..j + 1], low), alt[..j + 1];
    forall k | 0 <= k < m ensures Load(scores, targets, k) <= 2.0 {
      LightScores(ws[..j + 1], targets, k, low, ws[j], limit);
      LoadGrows(ws, alt, j + 1, k);
    }
    SumLoadsAtMost(scores, targets, m, 2.0);
    SumLoadsIsTotal(scores, targets, m);
  }

  /** When three of the placed tests never fit together, the shard just filled is within the best possible. */
  lemma BigJobsFit(ws: seq<real>, m: nat, alt: seq<nat>, limit: real, j: nat)
    requires m >= 1 && j < |ws| && NonNegative(ws) && Descending(ws) && Schedule(ws, alt, m, limit)
    requires 3.0 * ws[j] > limit
    ensures Load(ws[..j], Targets(ws, m)[..j], Targets(ws, m)[j]) + ws[j] <= limit
  {
    hide Scale, Load, Targets, Sum, Schedule, NonNegative, Descending;
    var low := Load(ws[..j], Targets(ws, m)[..j], Targets(ws, m)[j]);
    if low + ws[j] > limit {
      TestFits(ws, alt, m, limit, j);
      ScoresBefore(ws, m, j, low);
      SumStep(Scores(ws, low), j);
      ScoresAfter(ws, m, alt, limit, j, low);
    }
  }

  lemma LongestArithmetic(m: nat, load: real, last: real, limit: real)
    requires m >= 1 && 3.0 * last <= limit && Scale(m, load - last) + last <= Scale(m, limit)
    ensures 3.0 * (m as real) * load <= ((4 * m - 1) as real) * limit
  {
    assert (m as real) * load <= (m as real) * limit + ((m - 1) as real) * last;
    assert ((m - 1) as real) * (3.0 * last) <= ((m - 1) as real) * limit;
  }

  lemma WithinArithmetic(m: nat, load: real, limit: real)
    requires m >= 1 && load <= limit && limit >= 0.0
    ensures 3.0 * (m as real) * load <= ((4 * m - 1) as real) * limit
  {
    assert (m as real) * load <= (m as real) * limit;
    assert ((m - 1) as real) * limit >= 0.0;
  }

  /**
   * Longest-processing-time order: with m shards the heaviest is at most
   * (4/3 - 1/(3m)) times the best possible.
   */
  lemma LongestFirstBound(ws: seq<real>, m: nat, alt: seq<nat>, limit: real, k: nat)
    requires m >= 1 && k < m && NonNegative(ws) && Descending(ws) && Schedule(ws, alt, m, limit)
    ensures 3.0 * (m as real) * Load(ws, Targets(ws, m), k) <= ((4 * m - 1) as real) * limit
  {
    hide Scale, Load, Targets, Schedule, NonNegative, Descending, Count;
    var targets := Targets(ws, m);
    LimitNonNegative(ws, alt, m, limit);
    if Count(targets, k) == 0 {
      EmptyShard(ws, targets, k);
      WithinArithmetic(m, Load(ws, targets, k), limit);
    } else {
      var j := LastOn(ws, targets, k);
      if 3.0 * ws[j] > limit {
        BigJobsFit(ws, m, alt, limit, j);
        WithinArithmetic(m, Load(ws, targets, k), limit);
      } else {
        LastJobBound(ws, m, alt, limit, j);
        LongestArithmetic(m, Load(ws, targets, k), ws[j], limit);
      }
    }
  }
}
