/** The verdict on a run, spelled out in the decoded JSON and the artifact names alone. */
module AttestationMeaning {
  import opened Common
  import opened Decimals
  import opened ArtifactNames
  import opened Attestation
  import opened AttestationText
  import opened AttestationVerify

  // --- The definition --------------------------------------------------------------------------

  predicate IsId(id: string) {
    1 <= |id| <= 64 && id[0] in LOWERCASE + DIGITS && Over(id, LOWERCASE + DIGITS + "._-")
  }

  predicate IsKey(s: string) {
    s != "" && s[0] in UPPERCASE + LOWERCASE + "_" && Over(s, UPPERCASE + LOWERCASE + DIGITS + "_-")
  }

  /** The object has this text under the key. */
  predicate Says(j: Json, key: string, text: string) {
    j.Object? && key in j.fields && j.fields[key] == Json.Text(text)
  }

  /** An item of the expected set: an object of exactly these three texts, each well formed. */
  predicate Reads(j: Json, e: Entry) {
    && j == Object(map["attestation_id" := Json.Text(e.id), "job_name" := Json.Text(e.jobName),
                       "needs_key" := Json.Text(e.needsKey)])
    && IsId(e.id) && 1 <= |e.jobName| <= 256 && IsKey(e.needsKey)
  }

  /** The expected set lists these entries: 1 to 256, with distinct ids and distinct job names. */
  ghost predicate Expects(expected: Json, entries: seq<Entry>) {
    && expected.List? && |expected.items| == |entries| && 1 <= |entries| <= 256
    && (forall k :: 0 <= k < |entries| ==> Reads(expected.items[k], entries[k]))
    && forall j, k :: 0 <= j < |entries| && 0 <= k < |entries| && j != k ==>
         entries[j].id != entries[k].id && entries[j].jobName != entries[k].jobName
  }

  /** The `i`-th job is the only one of this name, and it succeeded. */
  ghost predicate OnlyJob(jobs: seq<Json>, name: string, i: nat) {
    && i < |jobs| && Says(jobs[i], "name", name) && Says(jobs[i], "conclusion", "success")
    && forall j :: 0 <= j < |jobs| && j != i ==> !Says(jobs[j], "name", name)
  }

  /** The job has a name. */
  ghost predicate Titled(job: Json) { exists name :: Says(job, "name", name) }

  /** Exactly one job has this name, and it succeeded. */
  ghost predicate GreenOnce(jobs: seq<Json>, name: string) { exists i: nat :: OnlyJob(jobs, name, i) }

  /** Every job has a name, and each entry's job is there once and green. */
  ghost predicate JobsGreen(entries: seq<Entry>, jobs: Json) {
    && jobs.List?
    && (forall i :: 0 <= i < |jobs.items| ==> Titled(jobs.items[i]))
    && forall e :: e in entries ==> GreenOnce(jobs.items, e.jobName)
  }

  /** There are needs, all green, and each entry's key is one of them. */
  ghost predicate NeedsGreen(entries: seq<Entry>, needs: Json) {
    && needs.Object? && needs.fields.Keys != {}
    && (forall key :: key in needs.fields ==> Says(needs.fields[key], "result", "success"))
    && forall e :: e in entries ==> e.needsKey in needs.fields
  }

  /** The name is that of an attestation of `id` in `attempt`. */
  predicate Names(name: string, id: string, attempt: nat) {
    IsId(id) && 1 <= attempt <= 999_999 && name == "managed-ci-attest-" + id + "-attempt-" + Decimal(attempt)
  }

  /** An artifact is nobody's attestation, one of an earlier attempt, or the genuine one of an expected entry. */
  ghost predicate Belongs(decode: Decoder, entries: seq<Entry>, a: Artifact, run: Run) {
    "managed-ci-attest-" <= a.name ==>
      exists id, attempt: nat ::
        && Names(a.name, id, attempt) && attempt <= run.attempt
        && (attempt == run.attempt ==> exists e :: e in entries && e.id == id && Genuine(decode, a, e, run))
  }

  /** The `i`-th artifact is the only one that attests `id` in this attempt. */
  ghost predicate OnlyAttestation(artifacts: seq<Artifact>, run: Run, id: string, i: nat) {
    && run.attempt >= 1 && i < |artifacts| && Names(artifacts[i].name, id, run.attempt)
    && forall j :: 0 <= j < |artifacts| && j != i ==> !Names(artifacts[j].name, id, run.attempt)
  }

  /** The run passes: it is well formed, every entry of the expected set is attested by exactly one artifact, every
      artifact belongs, and jobs and needs are green. */
  ghost predicate Passes(
    decode: Decoder, expected: Json, entries: seq<Entry>, artifacts: seq<Artifact>, jobs: Json, needs: Json, run: Run)
  {
    && run.id >= 1 && run.attempt >= 1 && |run.sha| == 40 && Over(run.sha, "0123456789abcdef")
    && (exists owner, name :: run.repository == owner + "/" + name && IsSlug(owner) && IsSlug(name))
    && Expects(expected, entries)
    && (forall a :: a in artifacts ==> Belongs(decode, entries, a, run))
    && (forall e :: e in entries ==> exists i: nat :: OnlyAttestation(artifacts, run, e.id, i))
    && JobsGreen(entries, jobs) && NeedsGreen(entries, needs)
  }

  // --- Part by part ----------------------------------------------------------------------------

  lemma ReadsMeans(j: Json, e: Entry)
    ensures ReadEntry(j) == Some(e) <==> Reads(j, e)
  {
    IdMeans(e.id);
    KeyMeans(e.needsKey);
    hide IdOk, NeedsKeyOk, IsId, IsKey;
    var fields := map["attestation_id" := Json.Text(e.id), "job_name" := Json.Text(e.jobName),
                      "needs_key" := Json.Text(e.needsKey)];
    if ReadEntry(j) == Some(e) { assert j.fields == fields; }
    if j == Object(fields) { assert fields.Keys == EXPECTED_FIELDS; }
  }

  lemma IdMeans(id: string)
    ensures IdOk(id) <==> IsId(id)
  {
    IdPattern(id);
  }

  lemma KeyMeans(s: string)
    ensures NeedsKeyOk(s) <==> IsKey(s)
  {
    NeedsKeyPattern(s);
  }

  lemma ExpectsMeans(expected: Json, entries: seq<Entry>)
    ensures Lists(expected, entries) <==> Expects(expected, entries)
  {
    forall j, e ensures ReadEntry(j) == Some(e) <==> Reads(j, e) { ReadsMeans(j, e); }
    hide ReadEntry, Reads;
  }

  lemma {:induction false} NamedCount(jobs: seq<Json>, name: string)
    ensures Named(jobs, name) == [] <==> forall i :: 0 <= i < |jobs| ==> !Says(jobs[i], "name", name)
    ensures |Named(jobs, name)| == 1 <==> exists i: nat :: OnlyNamed(jobs, name, i)
    ensures forall i: nat :: OnlyNamed(jobs, name, i) ==> i < |jobs| && Named(jobs, name) == [jobs[i]]
    decreases |jobs|
  {
    if jobs != [] {
      hide OnlyNamed, Says;
      var n := |jobs| - 1;
      NamedCount(jobs[..n], name);
      OnlyNamedMore(jobs[..n], jobs[n], name);
      assert jobs[..n] + [jobs[n]] == jobs;
      if Says(jobs[n], "name", name) && Named(jobs[..n], name) == [] { assert OnlyNamed(jobs, name, n); }
      if i: nat :| OnlyNamed(jobs[..n], name, i) && !Says(jobs[n], "name", name) { assert OnlyNamed(jobs, name, i); }
    }
  }

  lemma OnlyNamedMore(jobs: seq<Json>, job: Json, name: string)
    ensures Says(job, "name", name) ==>
              forall i: nat :: OnlyNamed(jobs + [job], name, i) <==>
                               (i == |jobs| && forall j :: 0 <= j < |jobs| ==> !Says(jobs[j], "name", name))
    ensures !Says(job, "name", name) ==>
              forall i: nat :: OnlyNamed(jobs + [job], name, i) <==> OnlyNamed(jobs, name, i)
  {
    hide Says;
    var all := jobs + [job];
    assert all[|jobs|] == job && forall j :: 0 <= j < |jobs| ==> all[j] == jobs[j];
  }

  /** The `i`-th job is the only one of this name. */
  ghost predicate OnlyNamed(jobs: seq<Json>, name: string, i: nat) {
    && i < |jobs| && Says(jobs[i], "name", name)
    && forall j :: 0 <= j < |jobs| && j != i ==> !Says(jobs[j], "name", name)
  }

  lemma OneJob(jobs: seq<Json>, name: string)
    ensures |Named(jobs, name)| == 1 && Succeeded(Named(jobs, name)[0]) <==> GreenOnce(jobs, name)
  {
    NamedCount(jobs, name);
    forall i: nat ensures OnlyJob(jobs, name, i) <==> OnlyNamed(jobs, name, i) && Succeeded(jobs[i]) {}
    hide Named;
    if exists i: nat :: OnlyNamed(jobs, name, i) {
      var i: nat :| OnlyNamed(jobs, name, i);
      assert Named(jobs, name) == [jobs[i]];
    }
  }

  lemma JobsMean(entries: seq<Entry>, jobs: Json)
    ensures JobsOk(entries, jobs) <==> JobsGreen(entries, jobs)
  {
    hide Named, Succeeded, HasName, GreenOnce, Titled;
    if jobs.List? {
      forall e: Entry
        ensures |Named(jobs.items, e.jobName)| == 1 && Succeeded(Named(jobs.items, e.jobName)[0])
                <==> GreenOnce(jobs.items, e.jobName)
      {
        OneJob(jobs.items, e.jobName);
      }
      forall i | 0 <= i < |jobs.items| ensures HasName(jobs.items[i]) <==> Titled(jobs.items[i]) {
        TitledMeans(jobs.items[i]);
      }
      assert (forall j :: j in jobs.items ==> HasName(j))
             <==> forall i :: 0 <= i < |jobs.items| ==> HasName(jobs.items[i]);
    }
  }

  lemma TitledMeans(job: Json)
    ensures HasName(job) <==> Titled(job)
  {
    if HasName(job) { assert Says(job, "name", job.fields["name"].text); }
  }

  lemma NeedsMean(entries: seq<Entry>, needs: Json)
    ensures NeedsOk(entries, needs) <==> NeedsGreen(entries, needs)
  {
    forall j ensures NeedOk(j) <==> Says(j, "result", "success") {}
    if needs.Object? { assert needs.fields == map[] <==> needs.fields.Keys == {}; }
    hide NeedOk, Says;
  }

  lemma NamesMeans(name: string, id: string, attempt: nat)
    ensures Parse(name) == Some((id, attempt)) <==> Names(name, id, attempt)
  {
    ParseExact(name, id, attempt);
    IdMeans(id);
    hide IdOk, IsId, Parse, Decimal;
  }

  lemma ClaimMeans(a: Artifact, run: Run, id: string)
    requires run.attempt >= 1
    ensures ClaimOf(a, run) == Some(id) <==> Names(a.name, id, run.attempt)
  {
    NamesMeans(a.name, id, run.attempt);
    hide Parse, IsId;
    if Names(a.name, id, run.attempt) {
      assert a.name[..|PREFIX|] == PREFIX;
    }
  }

  lemma {:induction false} ClaimsOnce(artifacts: seq<Artifact>, run: Run, id: string)
    requires run.attempt >= 1
    ensures Claims(artifacts, run, id) == 0
            <==> forall i :: 0 <= i < |artifacts| ==> !Names(artifacts[i].name, id, run.attempt)
    ensures Claims(artifacts, run, id) == 1 <==> exists i: nat :: OnlyAttestation(artifacts, run, id, i)
    decreases |artifacts|
  {
    hide Names, ClaimOf;
    if artifacts != [] {
      var n := |artifacts| - 1;
      ClaimsOnce(artifacts[..n], run, id);
      ClaimMeans(artifacts[n], run, id);
      forall i: nat | i < n
        ensures OnlyAttestation(artifacts, run, id, i)
                <==> OnlyAttestation(artifacts[..n], run, id, i) && !Names(artifacts[n].name, id, run.attempt)
      {
        assert forall j :: 0 <= j < n ==> artifacts[..n][j] == artifacts[j];
      }
      if Names(artifacts[n].name, id, run.attempt) && Claims(artifacts[..n], run, id) == 0 {
        assert OnlyAttestation(artifacts, run, id, n);
      }
    }
  }

  lemma BelongsMeans(decode: Decoder, entries: seq<Entry>, a: Artifact, run: Run)
    requires run.attempt >= 1
    ensures ArtifactOk(decode, entries, a, run) <==> Belongs(decode, entries, a, run)
  {
    hide Genuine, Names, Parse;
    if Attests(a.name) {
      forall id, attempt: nat ensures Parse(a.name) == Some((id, attempt)) <==> Names(a.name, id, attempt) {
        NamesMeans(a.name, id, attempt);
      }
      if Parse(a.name).Some? {
        var (id, attempt) := Parse(a.name).value;
        assert Names(a.name, id, attempt);
      }
    }
  }

  lemma RunMeans(run: Run)
    ensures RunOk(run)
            <==> && run.id >= 1 && run.attempt >= 1 && |run.sha| == 40 && Over(run.sha, "0123456789abcdef")
                 && exists owner, name :: run.repository == owner + "/" + name && IsSlug(owner) && IsSlug(name)
  {
    ShaPattern(run.sha);
    RepoPattern(run.repository);
    hide ShaOk, RepoOk, Over, IsSlug;
  }

  /** The verdict accepts exactly the runs that pass, for the entries the expected set lists. */
  lemma AcceptsExact(
    decode: Decoder, expected: Json, artifacts: seq<Artifact>, jobs: Json, needs: Json, run: Run)
    ensures Accepts(decode, expected, artifacts, jobs, needs, run)
            <==> exists entries :: Passes(decode, expected, entries, artifacts, jobs, needs, run)
  {
    hide RunOk, Lists, AcceptsEntries, Passes, Over, IsSlug;
    if RunOk(run) {
      forall entries
        ensures Lists(expected, entries) && AcceptsEntries(decode, entries, artifacts, jobs, needs, run)
                <==> Passes(decode, expected, entries, artifacts, jobs, needs, run)
      {
        EntriesMean(decode, expected, entries, artifacts, jobs, needs, run);
      }
    }
    forall entries | Passes(decode, expected, entries, artifacts, jobs, needs, run) ensures RunOk(run) {
      PassingRun(decode, expected, entries, artifacts, jobs, needs, run);
    }
  }

  lemma PassingRun(
    decode: Decoder, expected: Json, entries: seq<Entry>, artifacts: seq<Artifact>, jobs: Json, needs: Json, run: Run)
    requires Passes(decode, expected, entries, artifacts, jobs, needs, run)
    ensures RunOk(run)
  {
    hide RunOk, Expects, Belongs, OnlyAttestation, JobsGreen, NeedsGreen, Over, IsSlug;
    RunMeans(run);
  }

  lemma EntriesMean(
    decode: Decoder, expected: Json, entries: seq<Entry>, artifacts: seq<Artifact>, jobs: Json, needs: Json, run: Run)
    requires RunOk(run)
    ensures Lists(expected, entries) && AcceptsEntries(decode, entries, artifacts, jobs, needs, run)
            <==> Passes(decode, expected, entries, artifacts, jobs, needs, run)
  {
    RunMeans(run);
    ExpectsMeans(expected, entries);
    JobsMean(entries, jobs);
    NeedsMean(entries, needs);
    forall a ensures ArtifactOk(decode, entries, a, run) <==> Belongs(decode, entries, a, run) {
      BelongsMeans(decode, entries, a, run);
    }
    forall id
      ensures Claims(artifacts, run, id) == 1 <==> exists i: nat :: OnlyAttestation(artifacts, run, id, i)
    {
      ClaimsOnce(artifacts, run, id);
    }
    hide RunOk, Lists, Expects, Belongs, ArtifactOk, OnlyAttestation, Claims, JobsGreen, JobsOk, NeedsGreen, NeedsOk,
      Over, IsSlug;
  }

  // --- One record ------------------------------------------------------------------------------

  ghost predicate IsRepo(s: string) { exists owner, name :: s == owner + "/" + name && IsSlug(owner) && IsSlug(name) }

  /** What a record says, field by field. */
  datatype Content = Content(
    id: string, jobName: string, target: string, head: string, runId: int, attempt: int, repository: string,
    status: string)

  function Written(c: Content): Json {
    Object(map["schema" := Json.Text("managed-ci-attestation/1"), "attestation_id" := Json.Text(c.id),
               "job_name" := Json.Text(c.jobName), "target_sha" := Json.Text(c.target),
               "head_sha" := Json.Text(c.head), "run_id" := Number(c.runId), "run_attempt" := Number(c.attempt),
               "repository" := Json.Text(c.repository), "job_status" := Json.Text(c.status)])
  }

  ghost predicate ContentOk(c: Content) {
    && IsId(c.id) && 1 <= |c.jobName| <= 256
    && |c.target| == 40 && Over(c.target, "0123456789abcdef") && |c.head| == 40 && Over(c.head, "0123456789abcdef")
    && c.runId >= 1 && c.attempt >= 1 && IsRepo(c.repository)
  }

  lemma ContentMeans(c: Content)
    ensures RecordOk(Written(c)) <==> ContentOk(c)
  {
    IdMeans(c.id);
    ShaPattern(c.target);
    ShaPattern(c.head);
    RepoPattern(c.repository);
    hide IdOk, IsId, ShaOk, RepoOk, Over, IsSlug;
    assert Written(c).fields.Keys == RECORD_FIELDS;
  }

  lemma RecordWritten(j: Json) returns (c: Content)
    requires RecordOk(j)
    ensures j == Written(c)
  {
    hide IdOk, ShaOk, RepoOk, JobNameOk;
    var r := j.fields;
    c := Content(r["attestation_id"].text, r["job_name"].text, r["target_sha"].text, r["head_sha"].text,
                 r["run_id"].value, r["run_attempt"].value, r["repository"].text, r["job_status"].text);
    assert Written(c).fields.Keys == RECORD_FIELDS;
    assert r == Written(c).fields;
  }

  /** A record is valid exactly when it is these nine fields and no others, each well formed. */
  lemma RecordExact(j: Json)
    ensures RecordOk(j) <==> exists c :: j == Written(c) && ContentOk(c)
  {
    hide RecordOk, ContentOk, Written;
    if RecordOk(j) {
      var c := RecordWritten(j);
      ContentMeans(c);
    }
    if exists c :: j == Written(c) && ContentOk(c) {
      var c :| j == Written(c) && ContentOk(c);
      ContentMeans(c);
    }
  }

  /** A claim's record fits exactly when its artifact is one file that decodes to a valid record of the claimed id in
      this attempt. */
  lemma FitsExact(decode: Decoder, claim: Claim, run: Run)
    ensures RecordFits(decode, claim, run)
            <==> exists text, c :: && claim.artifact.files == Some(map["attestation.json" := text])
                                   && decode(text) == Some(Written(c)) && ContentOk(c)
                                   && c.id == claim.id && c.attempt == run.attempt
  {
    hide RecordOk, ContentOk;
    if RecordFits(decode, claim, run) {
      var files := claim.artifact.files.value;
      var text := files["attestation.json"];
      assert files == map["attestation.json" := text];
      var c := RecordWritten(decode(text).value);
      ContentMeans(c);
    }
    if exists text, c :: && claim.artifact.files == Some(map["attestation.json" := text])
                         && decode(text) == Some(Written(c)) && ContentOk(c)
                         && c.id == claim.id && c.attempt == run.attempt {
      var text, c :| && claim.artifact.files == Some(map["attestation.json" := text])
                     && decode(text) == Some(Written(c)) && ContentOk(c)
                     && c.id == claim.id && c.attempt == run.attempt;
      ContentMeans(c);
      assert claim.artifact.files.value.Keys == {RECORD_FILENAME};
    }
  }
}
