/** What the attestation verdict does not depend on, and when an honest run passes. */
module AttestationVerdict {
  import opened Common
  import opened ArtifactNames
  import opened Decimals
  import opened Attestation
  import opened AttestationVerify

  lemma {:induction false} ClaimsAppend(xs: seq<Artifact>, ys: seq<Artifact>, run: Run, id: string)
    ensures Claims(xs + ys, run, id) == Claims(xs, run, id) + Claims(ys, run, id)
    decreases |ys|
  {
    hide ClaimOf;
    if ys == [] {
      assert xs + ys == xs;
    } else {
      var n := |ys| - 1;
      assert (xs + ys)[..|xs| + n] == xs + ys[..n];
      ClaimsAppend(xs, ys[..n], run, id);
    }
  }

  lemma MultisetWithout<T>(ys: seq<T>, k: nat)
    requires k < |ys|
    ensures multiset(ys[..k] + ys[k + 1..]) == multiset(ys) - multiset{ys[k]}
  {
    assert ys == ys[..k] + [ys[k]] + ys[k + 1..];
  }

  lemma {:induction false} ClaimsPermute(xs: seq<Artifact>, ys: seq<Artifact>, run: Run, id: string)
    requires multiset(xs) == multiset(ys)
    ensures Claims(xs, run, id) == Claims(ys, run, id)
    decreases |xs|
  {
    hide ClaimOf, Claims;
    if xs == [] {
      assert |multiset(ys)| == 0;
    } else {
      var n := |xs| - 1;
      var a := xs[n];
      assert xs == xs[..n] + [a];
      assert a in multiset(ys);
      var k :| 0 <= k < |ys| && ys[k] == a;
      assert ys == ys[..k] + [a] + ys[k + 1..];
      MultisetWithout(ys, k);
      MultisetWithout(xs, n);
      assert xs[..n] + xs[n + 1..] == xs[..n];
      ClaimsPermute(xs[..n], ys[..k] + ys[k + 1..], run, id);
      ClaimsAppend(ys[..k], ys[k + 1..], run, id);
      ClaimsAppend(ys[..k] + [a], ys[k + 1..], run, id);
      ClaimsAppend(ys[..k], [a], run, id);
      ClaimsAppend(xs[..n], [a], run, id);
    }
  }

  /** The verdict ignores the order in which artifacts were listed. */
  lemma OrderIgnored(
    decode: Decoder, expected: Json, xs: seq<Artifact>, ys: seq<Artifact>, jobs: Json, needs: Json, run: Run)
    requires multiset(xs) == multiset(ys)
    ensures Accepts(decode, expected, xs, jobs, needs, run) <==> Accepts(decode, expected, ys, jobs, needs, run)
  {
    hide Claims, ArtifactOk, Lists, RunOk, JobsOk, NeedsOk;
    forall id ensures Claims(xs, run, id) == Claims(ys, run, id) { ClaimsPermute(xs, ys, run, id); }
    forall a ensures a in xs <==> a in ys { assert a in multiset(xs) <==> a in multiset(ys); }
  }

  /** An artifact of somebody else, or of an earlier attempt of this run. */
  predicate Irrelevant(a: Artifact, run: Run) {
    Attests(a.name) ==> Parse(a.name).Some? && Parse(a.name).value.1 < run.attempt
  }

  /** Artifacts of earlier attempts change nothing, wherever they appear. */
  lemma EarlierAttemptsIgnored(decode: Decoder, expected: Json, xs: seq<Artifact>, a: Artifact, ys: seq<Artifact>,
                               jobs: Json, needs: Json, run: Run)
    requires Irrelevant(a, run)
    ensures Accepts(decode, expected, xs + [a] + ys, jobs, needs, run)
            <==> Accepts(decode, expected, xs + ys, jobs, needs, run)
  {
    assert ClaimOf(a, run) == None;
    assert forall entries :: ArtifactOk(decode, entries, a, run);
    forall id ensures Claims(xs + [a] + ys, run, id) == Claims(xs + ys, run, id) {
      ClaimsAppend(xs + [a], ys, run, id);
      ClaimsAppend(xs, [a], run, id);
      ClaimsAppend(xs, ys, run, id);
      assert Claims([a], run, id) == 0 by { assert [a][..0] == []; }
    }
    hide Claims, ArtifactOk, Lists, RunOk, JobsOk, NeedsOk, ClaimOf;
  }

  /** What an honest run uploads: one artifact for each entry, written by its job in this attempt. */
  function Honest(entries: seq<Entry>, run: Run, payload: Entry -> string): seq<Artifact>
    requires run.attempt >= 0
  {
    if entries == [] then []
    else
      var n := |entries| - 1;
      Honest(entries[..n], run, payload)
      + [Artifact(Name(entries[n].id, run.attempt), Some(map[RECORD_FILENAME := payload(entries[n])]))]
  }

  lemma {:induction false} HonestMembers(entries: seq<Entry>, run: Run, payload: Entry -> string, a: Artifact)
    requires run.attempt >= 0
    ensures a in Honest(entries, run, payload)
            <==> exists e :: && e in entries
                             && a == Artifact(Name(e.id, run.attempt), Some(map[RECORD_FILENAME := payload(e)]))
    decreases |entries|
  {
    hide Name;
    if entries != [] {
      var n := |entries| - 1;
      assert entries == entries[..n] + [entries[n]];
      HonestMembers(entries[..n], run, payload, a);
    }
  }

  lemma HonestClaim(e: Entry, run: Run, files: map<string, string>)
    requires IdOk(e.id) && 1 <= run.attempt <= 999_999
    ensures ClaimOf(Artifact(Name(e.id, run.attempt), Some(files)), run) == Some(e.id)
    ensures NameOk(Artifact(Name(e.id, run.attempt), Some(files)), run)
  {
    ParseExact(Name(e.id, run.attempt), e.id, run.attempt);
    assert PREFIX <= Name(e.id, run.attempt);
  }

  lemma {:induction false} HonestClaims(entries: seq<Entry>, run: Run, payload: Entry -> string, id: string)
    requires EntriesOk(entries) && 1 <= run.attempt <= 999_999
    ensures Claims(Honest(entries, run, payload), run, id) == if exists e :: e in entries && e.id == id then 1 else 0
    decreases |entries|
  {
    hide Name, ClaimOf, IdOk, JobNameOk;
    if entries != [] {
      var n := |entries| - 1;
      var last := entries[n];
      assert entries == entries[..n] + [last];
      HonestClaims(entries[..n], run, payload, id);
      HonestClaim(last, run, map[RECORD_FILENAME := payload(last)]);
      var front := Honest(entries[..n], run, payload);
      var a := Artifact(Name(last.id, run.attempt), Some(map[RECORD_FILENAME := payload(last)]));
      assert (front + [a])[..|front|] == front;
      if last.id == id {
        assert forall k :: 0 <= k < n ==> entries[..n][k].id != last.id;
        assert last in entries;
      }
    }
  }

  /** An honest, green run passes exactly while its attempt number fits the six digits of a name. */
  lemma HonestRunAccepted(decode: Decoder, expected: Json, entries: seq<Entry>, payload: Entry -> string,
                          status: Entry -> string, jobs: Json, needs: Json, run: Run)
    requires Lists(expected, entries) && RunOk(run) && JobsOk(entries, jobs) && NeedsOk(entries, needs)
    requires forall e :: e in entries ==> decode(payload(e)) == Some(Object(BuildRecord(e, run, status(e))))
    ensures Accepts(decode, expected, Honest(entries, run, payload), jobs, needs, run) <==> run.attempt <= 999_999
  {
    hide Name, ClaimOf, NameOk, IdOk, JobNameOk, Lists, JobsOk, NeedsOk, Claims, Honest, ShaOk, RepoOk;
    var artifacts := Honest(entries, run, payload);
    ListedOk(expected, entries);
    AcceptsListed(decode, expected, entries, artifacts, jobs, needs, run);
    if run.attempt <= 999_999 {
      forall a | a in artifacts ensures ArtifactOk(decode, entries, a, run) {
        HonestMembers(entries, run, payload, a);
        var e :| e in entries && a == Artifact(Name(e.id, run.attempt), Some(map[RECORD_FILENAME := payload(e)]));
        HonestClaim(e, run, a.files.value);
        assert Genuine(decode, a, e, run);
      }
      forall e | e in entries ensures Claims(artifacts, run, e.id) == 1 { HonestClaims(entries, run, payload, e.id); }
    } else {
      NonEmpty(expected, entries);
      var e := entries[0];
      var a := Artifact(Name(e.id, run.attempt), Some(map[RECORD_FILENAME := payload(e)]));
      HonestMembers(entries, run, payload, a);
      LateNameBad(a, e.id, run);
      assert !ArtifactOk(decode, entries, a, run);
    }
  }

  lemma NonEmpty(expected: Json, entries: seq<Entry>)
    requires Lists(expected, entries)
    ensures entries != []
  {
    hide ReadEntry;
  }

  lemma LateNameBad(a: Artifact, id: string, run: Run)
    requires run.attempt > 999_999 && a.name == Name(id, run.attempt)
    ensures !NameOk(a, run)
  {
    assert PREFIX <= a.name;
    if Parse(a.name).Some? {
      var (other, attempt) := Parse(a.name).value;
      ParseExact(a.name, other, attempt);
      NamesDiffer(id, run.attempt, other, attempt);
    }
  }

  /** Printed names determine their id and attempt, valid or not. */
  lemma NamesDiffer(id: string, n: nat, other: string, m: nat)
    requires Name(id, n) == Name(other, m)
    ensures id == other && n == m
  {
    hide Decimal;
    var name := Name(id, n);
    DecimalReads(n);
    DecimalReads(m);
    TailDigits(id, n);
    TailDigits(other, m);
    assert |id| == |other|;
    assert name[|PREFIX|..|PREFIX| + |id|] == id && name[|PREFIX|..|PREFIX| + |id|] == other;
    assert name[|PREFIX| + |id| + |MIDDLE|..] == Decimal(n) && name[|PREFIX| + |id| + |MIDDLE|..] == Decimal(m);
  }

  lemma TailDigits(id: string, n: nat)
    ensures var name, at := Name(id, n), |PREFIX| + |id| + |MIDDLE|;
            at <= |name| && name[at - 1] == '-' && forall i :: at <= i < |name| ==> Digit(name[i])
  {
    hide Decimal;
    var name, at := Name(id, n), |PREFIX| + |id| + |MIDDLE|;
    assert name[at..] == Decimal(n);
    forall i | at <= i < |name| ensures Digit(name[i]) { assert name[i] == name[at..][i - at]; }
  }
}
