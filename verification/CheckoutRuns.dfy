/** What every run of ledger operations keeps, for every path at once. */
module CheckoutRuns {
  import opened Common
  import opened CheckoutLedger

  datatype Op =
    | Establish(sight: Sight)
    | Record(sight: Sight)
    | Verify(sight: Sight)
    | Refresh(sight: Sight)
    | Gate(sight: Sight, after: Option<Fingerprint>)
    | Poison(root: Option<nat>)
    | Forget

  datatype Event = Event(path: Path, op: Op, result: Result)

  function Step(s: State, path: Path, op: Op): (State, Result) {
    match op
    case Establish(sight) => EstablishStep(s, path, sight)
    case Record(sight) => RecordStep(s, path, sight)
    case Verify(sight) => VerifyStep(s, path, sight)
    case Refresh(sight) => RefreshStep(s, path, sight)
    case Gate(sight, after) => GateStep(s, path, sight, after)
    case Poison(root) => PoisonStep(s, path, root)
    case Forget => ForgetStep(s, path)
  }

  type Script = seq<(Path, Op)>

  function After(s: State, script: Script): State {
    if script == [] then s
    else
      var n := |script| - 1;
      Step(After(s, script[..n]), script[n].0, script[n].1).0
  }

  function Log(s: State, script: Script): (log: seq<Event>)
    ensures |log| == |script|
  {
    if script == [] then []
    else
      var n := |script| - 1;
      var result := Step(After(s, script[..n]), script[n].0, script[n].1).1;
      Log(s, script[..n]) + [Event(script[n].0, script[n].1, result)]
  }

  const EMPTY := State(map[], map[])

  // --- What the log alone says -----------------------------------------------------------------

  /** The event starts the path afresh: it was forgotten, or established at startup. */
  predicate Clears(e: Event) { e.op.Forget? || (e.op.Establish? && e.result.Accepts?) }

  /** The fingerprint last accepted for the path since it was last forgotten. */
  function LastAccepted(log: seq<Event>, path: Path): Option<Fingerprint> {
    if log == [] then None
    else
      var e := log[|log| - 1];
      if e.path == path && e.op.Forget? then None
      else if e.path == path && e.result.Accepts? then Some(e.result.fingerprint)
      else LastAccepted(log[..|log| - 1], path)
  }

  /** The path was poisoned and has not been cleared since. */
  predicate Tainted(log: seq<Event>, path: Path) {
    log != [] &&
    var e := log[|log| - 1];
    if e.path == path && Clears(e) then false
    else if e.path == path && e.result.Poisons? then true
    else Tainted(log[..|log| - 1], path)
  }

  lemma StepElsewhere(s: State, path: Path, op: Op, other: Path)
    requires other != path
    ensures var r := Step(s, path, op).0;
            && (other in r.entries <==> other in s.entries)
                 && (other in s.entries ==> r.entries[other] == s.entries[other])
            && (other in r.roots <==> other in s.roots) && (other in s.roots ==> r.roots[other] == s.roots[other])
  {
  }

  predicate EntryIs(s: State, path: Path, tainted: bool, last: Option<Fingerprint>) {
    if tainted then s.IsPoisoned(path)
    else if last.Some? then path in s.entries && s.entries[path] == Expected(last.value)
    else path !in s.entries
  }

  lemma StepEntry(s: State, path: Path, op: Op, tainted: bool, last: Option<Fingerprint>)
    requires EntryIs(s, path, tainted, last)
    ensures var (r, result) := Step(s, path, op);
            var e := Event(path, op, result);
            && (Clears(e) ==> EntryIs(r, path, false, if result.Accepts? then Some(result.fingerprint) else None))
            && (!Clears(e) && result.Poisons? ==> r.IsPoisoned(path))
            && (!Clears(e) && result.Accepts? ==> !tainted && EntryIs(r, path, false, Some(result.fingerprint)))
            && (!Clears(e) && !result.Poisons? && !result.Accepts? ==> EntryIs(r, path, tainted, last))
  {
    hide Extends;
  }

  lemma LastEvent(log: seq<Event>, path: Path)
    requires log != [] && log[|log| - 1].path == path
    ensures var e, front := log[|log| - 1], log[..|log| - 1];
            && Tainted(log, path) == (!Clears(e) && (e.result.Poisons? || Tainted(front, path)))
            && LastAccepted(log, path)
               == if e.op.Forget? then None
                  else if e.result.Accepts? then Some(e.result.fingerprint) else LastAccepted(front, path)
  {
  }

  lemma ForgetAcceptsNothing(s: State, path: Path, op: Op)
    ensures op.Forget? ==> Step(s, path, op).1 == Nothing
  {
  }

  /** The ledger remembers exactly what the log says: poisoned when tainted, else the last accepted fingerprint. */
  lemma {:induction false} EntryFollowsLog(script: Script, path: Path)
    ensures EntryIs(After(EMPTY, script), path, Tainted(Log(EMPTY, script), path),
            LastAccepted(Log(EMPTY, script), path))
    decreases |script|
  {
    hide Step;
    if script != [] {
      var n := |script| - 1;
      var s, log := After(EMPTY, script[..n]), Log(EMPTY, script);
      EntryFollowsLog(script[..n], path);
      var (p, op) := script[n];
      assert log[..|log| - 1] == Log(EMPTY, script[..n]);
      assert log[|log| - 1] == Event(p, op, Step(s, p, op).1);
      if p == path {
        LastEvent(log, path);
        ForgetAcceptsNothing(s, path, op);
        StepEntry(s, path, op, Tainted(log[..n], path), LastAccepted(log[..n], path));
      } else {
        StepElsewhere(s, p, op, path);
      }
    }
  }

  predicate RootsHaveEntries(s: State) { s.roots.Keys <= s.entries.Keys }

  lemma StepRoots(s: State, path: Path, op: Op)
    requires RootsHaveEntries(s)
    ensures var (r, result) := Step(s, path, op);
            && RootsHaveEntries(r)
            && (path in s.roots && !Clears(Event(path, op, result)) ==>
                  && path in r.roots && r.roots[path] == s.roots[path]
                  && ((op.Verify? || op.Gate?) && result.Accepts? ==> op.sight.root == Some(s.roots[path])))
  {
    hide Extends;
  }

  lemma {:induction false} RootsFollowEntries(script: Script)
    ensures RootsHaveEntries(After(EMPTY, script))
    decreases |script|
  {
    hide Step;
    if script != [] {
      var n := |script| - 1;
      RootsFollowEntries(script[..n]);
      StepRoots(After(EMPTY, script[..n]), script[n].0, script[n].1);
    }
  }

  // --- What each operation decides ---------------------------------------------------------------

  /** The log knows the path: it is poisoned, or something was accepted for it. */
  predicate InLog(log: seq<Event>, path: Path) { Tainted(log, path) || LastAccepted(log, path).Some? }

  /** The roots after a first one may have been recorded for the path. */
  function FirstRoot(roots: map<Path, nat>, path: Path, root: Option<nat>): map<Path, nat> {
    if path in roots || root.None? then roots else roots[path := root.value]
  }

  /** A verification passes exactly when nothing is in doubt, the directory is the recorded one, and the checkout is
      the one last accepted for the path, or, when there is none, a clean first observation; unhealthy sources
      poison; and only a first observation records a root. */
  lemma VerifyExact(script: Script, path: Path, sight: Sight, f: Fingerprint)
    ensures var s, log := After(EMPTY, script), Log(EMPTY, script);
            var (r, result) := Step(s, path, Verify(sight));
            && (result == Accepts(f)
                <==> && sight.healthy && sight.ready && sight.capture == Some(f) && !Tainted(log, path)
                     && (path in s.roots ==> sight.root == Some(s.roots[path]))
                     && (LastAccepted(log, path) == Some(f)
                         || (LastAccepted(log, path) == None && f.entries == map[] && f.staged == [])))
            && (result == Poisons <==> !sight.healthy && !Tainted(log, path))
            && (result.Accepts? || result.Poisons? || result.Refuses?)
            && r.roots == if result.Poisons? || (result.Accepts? && !InLog(log, path))
                          then FirstRoot(s.roots, path, sight.root) else s.roots
  {
    EntryFollowsLog(script, path);
    RootsFollowEntries(script);
    hide After, Log, Tainted, LastAccepted;
  }

  /** A refresh after a turn does nothing to a tainted path, poisons a trusted one unless sources, environment and
      capture are all sound, and otherwise accepts what it captured; it records at most a first root. */
  lemma RecordExact(script: Script, path: Path, sight: Sight, f: Fingerprint)
    ensures var s, log := After(EMPTY, script), Log(EMPTY, script);
            var (r, result) := Step(s, path, Record(sight));
            && (result == Nothing <==> Tainted(log, path))
            && (result == Poisons
                <==> !Tainted(log, path) && (!sight.healthy || !sight.ready || sight.capture == None))
            && (result == Accepts(f)
                <==> !Tainted(log, path) && sight.healthy && sight.ready && sight.capture == Some(f))
            && r.roots == if Tainted(log, path) then s.roots else FirstRoot(s.roots, path, sight.root)
  {
    EntryFollowsLog(script, path);
    hide After, Log, Tainted, LastAccepted;
  }

  /** A startup establishment accepts exactly what it captures in a ready environment, whatever the log says, and
      the recorded root is then the one it saw. */
  lemma EstablishExact(script: Script, path: Path, sight: Sight, f: Fingerprint)
    ensures var s := After(EMPTY, script);
            var (r, result) := Step(s, path, Establish(sight));
            && (result == Accepts(f) <==> sight.ready && sight.capture == Some(f))
            && (result.Accepts? || (result == Refuses && r == s))
            && (result.Accepts? ==>
                  r.roots == if sight.root.Some? then s.roots[path := sight.root.value] else s.roots)
  {
    hide After;
  }

  /** After a sync a path the log knows is refreshed, and poisoned when its environment cannot be reconciled; one it
      does not know is established, without a look at shared sources. */
  lemma RefreshExact(script: Script, path: Path, sight: Sight, f: Fingerprint)
    ensures var s, log := After(EMPTY, script), Log(EMPTY, script);
            var (r, result) := Step(s, path, Refresh(sight));
            && (result == Nothing <==> Tainted(log, path))
            && (result == Poisons
                <==> LastAccepted(log, path).Some? && !Tainted(log, path)
                     && (!sight.healthy || !sight.ready || sight.capture == None))
            && (result == Refuses <==> !InLog(log, path) && (!sight.ready || sight.capture == None))
            && (result == Accepts(f)
                <==> !Tainted(log, path) && sight.ready && sight.capture == Some(f)
                     && (LastAccepted(log, path).Some? ==> sight.healthy))
            && r.roots == if result.Accepts? || result.Poisons? then FirstRoot(s.roots, path, sight.root) else s.roots
  {
    EntryFollowsLog(script, path);
    RootsFollowEntries(script);
    hide After, Log, Tainted, LastAccepted;
  }

  /** A gate accepts what it left behind exactly when the verification before it passed and branch, HEAD, staged
      state and every dirty entry are as that verification found them; any other end of a begun gate poisons. */
  lemma GateExact(script: Script, path: Path, sight: Sight, after: Option<Fingerprint>, g: Fingerprint)
    ensures var s := After(EMPTY, script);
            var begun, result := Step(s, path, Verify(sight)), Step(s, path, Gate(sight, after));
            && (result.1 == Accepts(g)
                <==> && begun.1.Accepts? && after == Some(g)
                     && var f := begun.1.fingerprint;
                        && g.branch == f.branch && g.sha == f.sha && g.staged == f.staged
                        && forall name :: name in f.entries ==> name in g.entries && g.entries[name] == f.entries[name])
            && (begun.1.Accepts? ==> result.1.Accepts? || result.1 == Poisons)
            && (!begun.1.Accepts? ==> result == begun)
            && (result.1.Accepts? ==> result.0.roots == begun.0.roots)
  {
    hide After;
  }

  /** Poison from outside is taken as it comes; a forgotten path leaves nothing behind. */
  lemma PoisonForgetExact(script: Script, path: Path, root: Option<nat>)
    ensures var s := After(EMPTY, script);
            && Step(s, path, Poison(root))
               == (State(s.entries[path := Poisoned], FirstRoot(s.roots, path, root)), Poisons)
            && path !in Step(s, path, Forget).0.roots && path !in Step(s, path, Forget).0.entries
  {
    hide After;
  }

  // --- Sticky poison ---------------------------------------------------------------------------

  ghost predicate Uncleared(log: seq<Event>, path: Path) {
    forall e :: e in log && e.path == path ==> !Clears(e)
  }

  lemma StepKeepsPoison(s: State, path: Path, op: Op)
    requires s.IsPoisoned(path)
    ensures var (r, result) := Step(s, path, op);
            !Clears(Event(path, op, result)) ==> r.IsPoisoned(path) && !result.Accepts?
  {
  }

  /** Once poisoned, a path stays poisoned and nothing is accepted for it, until it is established at startup
      or forgotten. */
  lemma {:induction false} PoisonIsSticky(s: State, script: Script, path: Path)
    requires s.IsPoisoned(path) && Uncleared(Log(s, script), path)
    ensures After(s, script).IsPoisoned(path)
    ensures forall e :: e in Log(s, script) && e.path == path ==> !e.result.Accepts?
    decreases |script|
  {
    hide Step, Clears;
    if script != [] {
      var n := |script| - 1;
      var (p, op) := script[n];
      var before, log := Log(s, script[..n]), Log(s, script);
      assert forall e :: e in before ==> e in log;
      PoisonIsSticky(s, script[..n], path);
      assert log[n] in log;
      if p == path {
        StepKeepsPoison(After(s, script[..n]), path, op);
      } else {
        StepElsewhere(After(s, script[..n]), p, op, path);
      }
    }
  }

  // --- Gates only add --------------------------------------------------------------------------

  lemma ExtendsTrans(a: Fingerprint, b: Fingerprint, c: Fingerprint)
    requires Extends(a, b) && Extends(b, c)
    ensures Extends(a, c)
  {
  }

  /** Only passing gates and verifications touch the path. */
  ghost predicate GatesOnly(log: seq<Event>, path: Path) {
    forall e :: e in log && e.path == path ==> (e.op.Gate? || e.op.Verify?) && e.result.Accepts?
  }

  /** Any run of passing gates keeps branch, HEAD, staged state and every earlier dirty entry; it only adds entries. */
  lemma {:induction false} GatesOnlyAdd(s: State, script: Script, path: Path)
    requires path in s.entries && s.entries[path].Expected? && GatesOnly(Log(s, script), path)
    ensures var r := After(s, script);
            path in r.entries && r.entries[path].Expected?
              && Extends(s.entries[path].fingerprint, r.entries[path].fingerprint)
    decreases |script|
  {
    if script != [] {
      var n := |script| - 1;
      var (p, op) := script[n];
      var before, log := Log(s, script[..n]), Log(s, script);
      assert forall e :: e in before ==> e in log;
      GatesOnlyAdd(s, script[..n], path);
      assert log[n] in log;
      var mid := After(s, script[..n]);
      if p == path {
        GateExtends(mid, path, op);
        ExtendsTrans(s.entries[path].fingerprint, mid.entries[path].fingerprint,
          After(s, script).entries[path].fingerprint);
      } else {
        StepElsewhere(mid, p, op, path);
      }
    }
  }

  lemma GateExtends(s: State, path: Path, op: Op)
    requires path in s.entries && s.entries[path].Expected? && (op.Gate? || op.Verify?) && Step(s, path, op).1.Accepts?
    ensures var r := Step(s, path, op).0;
            path in r.entries && r.entries[path].Expected?
              && Extends(s.entries[path].fingerprint, r.entries[path].fingerprint)
  {
  }

  // --- Roots -----------------------------------------------------------------------------------

  /** A recorded root is never rewritten by anything but a startup establishment or a forget, and meanwhile no
      verification or gate passes on another directory. */
  lemma {:induction false} RootIsPinned(s: State, script: Script, path: Path)
    requires RootsHaveEntries(s) && path in s.roots && Uncleared(Log(s, script), path)
    ensures RootsHaveEntries(After(s, script))
    ensures path in After(s, script).roots && After(s, script).roots[path] == s.roots[path]
    ensures forall e :: e in Log(s, script) && e.path == path && (e.op.Verify? || e.op.Gate?) && e.result.Accepts? ==>
              e.op.sight.root == Some(s.roots[path])
    decreases |script|
  {
    hide Step, Clears;
    if script != [] {
      var n := |script| - 1;
      var (p, op) := script[n];
      var before, log := Log(s, script[..n]), Log(s, script);
      assert forall e :: e in before ==> e in log;
      RootIsPinned(s, script[..n], path);
      assert log[n] in log;
      StepRoots(After(s, script[..n]), p, op);
      if p != path { StepElsewhere(After(s, script[..n]), p, op, path); }
    }
  }

  // --- Open gate windows -----------------------------------------------------------------------

  /** A gate window taken apart: a verification opens it, other operations run, and its end adopts what is there.
      Poison that arrived in the window survives that end exactly when the gate's own capture failed or changed
      what the verification had accepted. */
  lemma PoisonInsideGate(
    script: Script, window: Script, path: Path, sight: Sight, after: Option<Fingerprint>, root: Option<nat>)
    requires Step(After(EMPTY, script), path, Verify(sight)).1.Accepts?
    requires Tainted(Log(EMPTY, script + [(path, Verify(sight))] + window), path)
    ensures var before := Step(After(EMPTY, script), path, Verify(sight)).1.fingerprint;
            var s := After(EMPTY, script + [(path, Verify(sight))] + window);
            && s.IsPoisoned(path)
            && (AdoptStep(s, path, before, after, root).0.IsPoisoned(path) <==>
                  after == None || !Extends(before, after.value))
  {
    EntryFollowsLog(script + [(path, Verify(sight))] + window, path);
    hide After, Log, Tainted, LastAccepted, Extends, Step;
  }

  /** Baseline, verification, poison, and a gate that left one new file: the path is trusted again. */
  lemma PoisonForgiven()
    ensures var clean := Fingerprint("main", "head", [], map[]);
            var built := clean.(entries := map["out" := "file"]);
            var sight := Sight(true, true, Some(clean), Some(1));
            var start, begun: Script := [("p", Establish(sight))], [("p", Establish(sight)), ("p", Verify(sight))];
            var poisoned := begun + [("p", Poison(Some(1)))];
            && Step(After(EMPTY, start), "p", Verify(sight)).1 == Accepts(clean)
            && Step(After(EMPTY, begun), "p", Poison(Some(1))).1 == Poisons && After(EMPTY, poisoned).IsPoisoned("p")
            && AdoptStep(After(EMPTY, poisoned), "p", clean, Some(built), Some(1)).1 == Accepts(built)
            && !AdoptStep(After(EMPTY, poisoned), "p", clean, Some(built), Some(1)).0.IsPoisoned("p")
  {
    var clean := Fingerprint("main", "head", [], map[]);
    var sight := Sight(true, true, Some(clean), Some(1));
    var start, begun: Script := [("p", Establish(sight))], [("p", Establish(sight)), ("p", Verify(sight))];
    var poisoned := begun + [("p", Poison(Some(1)))];
    assert start[..0] == [] && begun[..1] == start && poisoned[..2] == begun;
    assert After(EMPTY, []) == EMPTY;
    assert After(EMPTY, start) == State(map["p" := Expected(clean)], map["p" := 1]);
    assert After(EMPTY, begun) == After(EMPTY, start);
  }
}
