/** The checkout ledger: per path absent, expected or poisoned, with the root directory it was recorded for. */
module CheckoutLedger {
  import opened Common

  type Path = string

  /** A captured checkout: branch, HEAD, staged state, and the dirty entries by name. */
  datatype Fingerprint = Fingerprint(
    branch: string, sha: string, staged: seq<(string, string)>, entries: map<string, string>)
  {
    predicate IsClean() { entries == map[] && staged == [] }
  }

  datatype Entry = Expected(fingerprint: Fingerprint) | Poisoned

  datatype State = State(entries: map<Path, Entry>, roots: map<Path, nat>) {
    predicate IsPoisoned(path: Path) { path in entries && entries[path].Poisoned? }
  }

  /** What the world shows an operation: shared sources healthy, environment reconciled or recovered,
      the captured fingerprint, and the identity of the root directory. */
  datatype Sight = Sight(healthy: bool, ready: bool, capture: Option<Fingerprint>, root: Option<nat>)

  /** What an operation did: accepted a fingerprint, raised, poisoned the entry, or left things alone. */
  datatype Result = Accepts(fingerprint: Fingerprint) | Refuses | Poisons | Nothing

  // --- What each operation does ----------------------------------------------------------------

  /** Records the root's identity when it has one; an existing record is only rewritten at startup. */
  function Remember(roots: map<Path, nat>, path: Path, root: Option<nat>, overwrite: bool): map<Path, nat> {
    if root.Some? && (overwrite || path !in roots) then roots[path := root.value] else roots
  }

  function PoisonStep(s: State, path: Path, root: Option<nat>): (State, Result) {
    (State(s.entries[path := Poisoned], Remember(s.roots, path, root, false)), Poisons)
  }

  function EstablishStep(s: State, path: Path, sight: Sight): (State, Result) {
    if !sight.ready || sight.capture.None? then (s, Refuses)
    else (State(s.entries[path := Expected(sight.capture.value)], Remember(s.roots, path, sight.root, true)),
          Accepts(sight.capture.value))
  }

  function RecordStep(s: State, path: Path, sight: Sight): (State, Result) {
    if s.IsPoisoned(path) then (s, Nothing)
    else if !sight.healthy || !sight.ready || sight.capture.None? then PoisonStep(s, path, sight.root)
    else (State(s.entries[path := Expected(sight.capture.value)], Remember(s.roots, path, sight.root, false)),
          Accepts(sight.capture.value))
  }

  predicate RootTrusted(s: State, path: Path, root: Option<nat>) {
    path in s.entries && path in s.roots ==> root == Some(s.roots[path])
  }

  function VerifyStep(s: State, path: Path, sight: Sight): (State, Result) {
    if s.IsPoisoned(path) then (s, Refuses)
    else if !sight.healthy then PoisonStep(s, path, sight.root)
    else if !RootTrusted(s, path, sight.root) || !sight.ready || sight.capture.None? then (s, Refuses)
    else
      var observed := sight.capture.value;
      if path in s.entries then (s, if s.entries[path] == Expected(observed) then Accepts(observed) else Refuses)
      else if observed.IsClean() then
        (State(s.entries[path := Expected(observed)], Remember(s.roots, path, sight.root, false)), Accepts(observed))
      else (s, Refuses)
  }

  function RefreshStep(s: State, path: Path, sight: Sight): (State, Result) {
    if path !in s.entries then EstablishStep(s, path, sight)
    else if !s.IsPoisoned(path) && !sight.ready then PoisonStep(s, path, sight.root)
    else RecordStep(s, path, sight)
  }

  /** The gate left everything that was there as it was; it may have added entries. */
  predicate Extends(before: Fingerprint, after: Fingerprint) {
    && after.branch == before.branch && after.sha == before.sha && after.staged == before.staged
    && forall name :: name in before.entries ==> name in after.entries && after.entries[name] == before.entries[name]
  }

  /** The end of a gate window that began with `before`. */
  function AdoptStep(
    s: State, path: Path, before: Fingerprint, after: Option<Fingerprint>, root: Option<nat>): (State, Result)
  {
    if after.None? || !Extends(before, after.value) then PoisonStep(s, path, root)
    else (s.(entries := s.entries[path := Expected(after.value)]), Accepts(after.value))
  }

  function GateStep(s: State, path: Path, sight: Sight, after: Option<Fingerprint>): (State, Result) {
    var (begun, result) := VerifyStep(s, path, sight);
    if result.Accepts? then AdoptStep(begun, path, result.fingerprint, after, sight.root) else (begun, result)
  }

  function ForgetStep(s: State, path: Path): (State, Result) {
    (State(s.entries - {path}, s.roots - {path}), Nothing)
  }

  // --- The ledger itself -----------------------------------------------------------------------

  class Ledger {
    var entries: map<Path, Entry>
    var roots: map<Path, nat>

    function Contents(): State reads this { State(entries, roots) }

    constructor ()
      ensures Contents() == State(map[], map[])
    {
      entries, roots := map[], map[];
    }

    predicate HasPoisonedEntry(path: Path) reads this { path in entries && entries[path].Poisoned? }

    method RememberRoot(path: Path, root: Option<nat>, overwrite: bool)
      modifies this`roots
      ensures roots == Remember(old(roots), path, root, overwrite)
    {
      if root.None? { return; }
      if overwrite { roots := roots[path := root.value]; }
      else if path !in roots { roots := roots[path := root.value]; }
    }

    method PoisonCheckout(path: Path, root: Option<nat>) returns (result: Result)
      modifies this
      ensures (Contents(), result) == PoisonStep(old(Contents()), path, root)
    {
      entries := entries[path := Poisoned];
      RememberRoot(path, root, false);
      result := Poisons;
    }

    /** Re-reads shared health; an unhealthy source poisons a path that is not poisoned yet. */
    method CheckSharedHealth(path: Path, sight: Sight) returns (poisoned: bool)
      modifies this
      ensures poisoned <==> !sight.healthy && !old(Contents()).IsPoisoned(path)
      ensures Contents() == if poisoned then PoisonStep(old(Contents()), path, sight.root).0 else old(Contents())
    {
      poisoned := false;
      if !sight.healthy && !HasPoisonedEntry(path) {
        var _ := PoisonCheckout(path, sight.root);
        poisoned := true;
      }
    }

    method EstablishInitialBaseline(path: Path, sight: Sight) returns (result: Result)
      modifies this
      ensures (Contents(), result) == EstablishStep(old(Contents()), path, sight)
    {
      if !sight.ready { return Refuses; }
      if sight.capture.None? { return Refuses; }
      entries := entries[path := Expected(sight.capture.value)];
      RememberRoot(path, sight.root, true);
      return Accepts(sight.capture.value);
    }

    method RecordCheckoutBaseline(path: Path, sight: Sight) returns (result: Result)
      modifies this
      ensures (Contents(), result) == RecordStep(old(Contents()), path, sight)
    {
      var poisoned := CheckSharedHealth(path, sight);
      if HasPoisonedEntry(path) { return if poisoned then Poisons else Nothing; }
      if !sight.ready {
        result := PoisonCheckout(path, sight.root);
        return;
      }
      if sight.capture.None? {
        result := PoisonCheckout(path, sight.root);
        return;
      }
      entries := entries[path := Expected(sight.capture.value)];
      RememberRoot(path, sight.root, false);
      return Accepts(sight.capture.value);
    }

    method VerifyCheckout(path: Path, sight: Sight) returns (result: Result)
      modifies this
      ensures (Contents(), result) == VerifyStep(old(Contents()), path, sight)
    {
      var poisoned := CheckSharedHealth(path, sight);
      if poisoned { return Poisons; }
      if !sight.healthy { return Refuses; }
      if path in entries {
        if entries[path].Poisoned? { return Refuses; }
        if path in roots && sight.root != Some(roots[path]) { return Refuses; }
      }
      if !sight.ready { return Refuses; }
      if sight.capture.None? { return Refuses; }
      var observed := sight.capture.value;
      if path !in entries && observed.IsClean() {
        entries := entries[path := Expected(observed)];
        RememberRoot(path, sight.root, false);
        return Accepts(observed);
      }
      if path !in entries { return Refuses; }
      if observed != entries[path].fingerprint { return Refuses; }
      return Accepts(observed);
    }

    method RefreshAfterSync(path: Path, sight: Sight) returns (result: Result)
      modifies this
      ensures (Contents(), result) == RefreshStep(old(Contents()), path, sight)
    {
      if path in entries {
        if HasPoisonedEntry(path) { return Nothing; }
        if !sight.ready {
          result := PoisonCheckout(path, sight.root);
          return;
        }
        result := RecordCheckoutBaseline(path, sight);
      } else {
        result := EstablishInitialBaseline(path, sight);
      }
    }

    /** Looks for changed entries one by one. */
    method AdoptGateArtifacts(path: Path, before: Fingerprint, capture: Option<Fingerprint>, root: Option<nat>)
      returns (result: Result)
      modifies this
      ensures (Contents(), result) == AdoptStep(old(Contents()), path, before, capture, root)
    {
      if capture.None? {
        result := PoisonCheckout(path, root);
        return;
      }
      var after := capture.value;
      var changed: set<string> := {};
      var left := before.entries.Keys;
      while left != {}
        invariant left <= before.entries.Keys
        invariant changed == set name | name in before.entries && name !in left
                                        && !(name in after.entries && after.entries[name] == before.entries[name])
        decreases |left|
      {
        var name :| name in left;
        left := left - {name};
        if name !in after.entries || after.entries[name] != before.entries[name] { changed := changed + {name}; }
      }
      if after.branch != before.branch || after.sha != before.sha || after.staged != before.staged || changed != {} {
        result := PoisonCheckout(path, root);
        return;
      }
      assert forall name :: name in before.entries ==> name !in changed;
      entries := entries[path := Expected(after)];
      return Accepts(after);
    }

    /** A whole gate window, the gate itself taken as atomic: `capture` is what it left behind. */
    method GateWindow(path: Path, sight: Sight, capture: Option<Fingerprint>) returns (result: Result)
      modifies this
      ensures (Contents(), result) == GateStep(old(Contents()), path, sight, capture)
    {
      result := VerifyCheckout(path, sight);
      if result.Accepts? { result := AdoptGateArtifacts(path, result.fingerprint, capture, sight.root); }
    }

    method ForgetCheckout(path: Path) returns (result: Result)
      modifies this
      ensures (Contents(), result) == ForgetStep(old(Contents()), path)
    {
      entries := entries - {path};
      roots := roots - {path};
      result := Nothing;
    }
  }
}
