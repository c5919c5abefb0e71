/** The fail-closed verifier of a managed CI run's attestations. */
module Attestation {
  import opened Common
  import opened ArtifactNames
  import opened Decimals

  // --- Inputs ----------------------------------------------------------------------------------

  /** Decoded JSON; booleans, nulls and fractions are `Other`. */
  datatype Json =
    | Text(text: string)
    | Number(value: int)
    | Object(fields: map<string, Json>)
    | List(items: seq<Json>)
    | Other

  /** A downloaded artifact: its files by path, or `None` for a stray non-directory. */
  datatype Artifact = Artifact(name: string, files: Option<map<string, string>>)

  /** The run being published. */
  datatype Run = Run(id: int, attempt: int, sha: string, repository: string)

  /** One required attestation: its id, the job that writes it, and the job's key in `needs`. */
  datatype Entry = Entry(id: string, jobName: string, needsKey: string)

  datatype Problem =
    | Malformed(what: string)
    | LaterAttempt(name: string)
    | BadRecord(name: string)
    | Duplicate(id: string)
    | Unexpected(id: string)
    | Missing(id: string)
    | Mismatch(id: string, key: string)
    | JobNotSuccessful(id: string)
    | NeedNotSuccessful(key: string)

  /** JSON decoding of an attestation file: `None` over the size cap or when it is not UTF-8 JSON. */
  type Decoder = string -> Option<Json>

  const SCHEMA := "managed-ci-attestation/1"
  const RECORD_FILENAME := "attestation.json"
  const MAX_EXPECTED := 256
  const RECORD_FIELDS := {"schema", "attestation_id", "job_name", "target_sha", "head_sha", "run_id",
                          "run_attempt", "repository", "job_status"}
  const EXPECTED_FIELDS := {"attestation_id", "job_name", "needs_key"}

  predicate Upper(c: char) { 'A' <= c <= 'Z' }
  predicate ShaOk(s: string) { |s| == 40 && forall i :: 0 <= i < 40 ==> Digit(s[i]) || 'a' <= s[i] <= 'f' }
  predicate SlugOk(s: string) {
    s != "" && forall i :: 0 <= i < |s| ==> Upper(s[i]) || Lower(s[i]) || Digit(s[i]) || s[i] in "._-"
  }
  predicate RepoOk(s: string) { exists i :: 0 <= i < |s| && s[i] == '/' && SlugOk(s[..i]) && SlugOk(s[i + 1..]) }
  predicate JobNameOk(s: string) { 0 < |s| <= 256 }
  predicate NeedsKeyOk(s: string) {
    && s != "" && (Upper(s[0]) || Lower(s[0]) || s[0] == '_')
    && forall i :: 0 <= i < |s| ==> Upper(s[i]) || Lower(s[i]) || Digit(s[i]) || s[i] in "_-"
  }

  // --- What acceptance means --------------------------------------------------------------------

  /** The record a job of this run writes in its final step. */
  function BuildRecord(e: Entry, run: Run, status: string): map<string, Json> {
    map["schema" := Text(SCHEMA), "attestation_id" := Text(e.id), "job_name" := Text(e.jobName),
        "target_sha" := Text(run.sha), "head_sha" := Text(run.sha), "run_id" := Number(run.id),
        "run_attempt" := Number(run.attempt), "repository" := Text(run.repository), "job_status" := Text(status)]
  }

  /** The artifact holds nothing but the record this entry's job would have written in this run. */
  ghost predicate Genuine(decode: Decoder, a: Artifact, e: Entry, run: Run) {
    && a.files.Some? && a.files.value.Keys == {RECORD_FILENAME}
    && exists status :: decode(a.files.value[RECORD_FILENAME]) == Some(Object(BuildRecord(e, run, status)))
  }

  predicate Attests(name: string) { PREFIX <= name }

  /** The id an artifact claims in this attempt. */
  function ClaimOf(a: Artifact, run: Run): Option<string> {
    if !Attests(a.name) then None
    else
      match Parse(a.name)
      case None => None
      case Some(parsed) => if parsed.1 == run.attempt then Some(parsed.0) else None
  }

  /** The name is someone else's, or it names an attempt up to this one. */
  predicate NameOk(a: Artifact, run: Run) {
    Attests(a.name) ==> Parse(a.name).Some? && Parse(a.name).value.1 <= run.attempt
  }

  function Claims(artifacts: seq<Artifact>, run: Run, id: string): nat {
    if artifacts == [] then 0
    else
      var n := |artifacts| - 1;
      Claims(artifacts[..n], run, id) + if ClaimOf(artifacts[n], run) == Some(id) then 1 else 0
  }

  function TextAt(fields: map<string, Json>, key: string): Option<string> {
    if key in fields && fields[key].Text? then Some(fields[key].text) else None
  }

  function ReadEntry(j: Json): Option<Entry> {
    if !j.Object? || j.fields.Keys != EXPECTED_FIELDS then None
    else
      match (TextAt(j.fields, "attestation_id"), TextAt(j.fields, "job_name"), TextAt(j.fields, "needs_key"))
      case (Some(id), Some(name), Some(key)) =>
        if IdOk(id) && JobNameOk(name) && NeedsKeyOk(key) then Some(Entry(id, name, key)) else None
      case _ => None
  }

  ghost predicate AllRead(items: seq<Json>, entries: seq<Entry>) {
    |entries| == |items| && forall k :: 0 <= k < |items| ==> ReadEntry(items[k]) == Some(entries[k])
  }

  ghost predicate Distinct(entries: seq<Entry>) {
    forall j, k :: 0 <= j < k < |entries| ==> entries[j].id != entries[k].id && entries[j].jobName != entries[k].jobName
  }

  /** `expected` lists these entries: 1 to 256 of them, with distinct ids and distinct job names. */
  ghost predicate Lists(expected: Json, entries: seq<Entry>) {
    expected.List? && 0 < |expected.items| <= MAX_EXPECTED && AllRead(expected.items, entries) && Distinct(entries)
  }

  function Named(jobs: seq<Json>, name: string): seq<Json> {
    if jobs == [] then []
    else
      var n := |jobs| - 1;
      Named(jobs[..n], name)
      + if jobs[n].Object? && TextAt(jobs[n].fields, "name") == Some(name) then [jobs[n]] else []
  }

  predicate HasName(job: Json) { job.Object? && TextAt(job.fields, "name").Some? }
  predicate Succeeded(job: Json) { job.Object? && TextAt(job.fields, "conclusion") == Some("success") }
  predicate NeedOk(need: Json) { need.Object? && TextAt(need.fields, "result") == Some("success") }

  /** Every job is named, and each entry has exactly one job of its name, which succeeded. */
  ghost predicate JobsOk(entries: seq<Entry>, jobs: Json) {
    && jobs.List? && (forall j :: j in jobs.items ==> HasName(j))
    && forall e :: e in entries ==> |Named(jobs.items, e.jobName)| == 1 && Succeeded(Named(jobs.items, e.jobName)[0])
  }

  /** Every need succeeded, and every entry's key is among them. */
  ghost predicate NeedsOk(entries: seq<Entry>, needs: Json) {
    && needs.Object? && needs.fields != map[] && (forall k :: k in needs.fields ==> NeedOk(needs.fields[k]))
    && forall e :: e in entries ==> e.needsKey in needs.fields
  }

  /** Every artifact that claims this attempt is a genuine one of an expected entry. */
  ghost predicate ArtifactOk(decode: Decoder, entries: seq<Entry>, a: Artifact, run: Run) {
    && NameOk(a, run)
    && (ClaimOf(a, run).Some? ==>
          exists e :: e in entries && ClaimOf(a, run) == Some(e.id) && Genuine(decode, a, e, run))
  }

  predicate RunOk(run: Run) { run.id > 0 && run.attempt > 0 && ShaOk(run.sha) && RepoOk(run.repository) }

  /** Each expected entry is attested exactly once in this attempt, and nothing else is attested. */
  ghost predicate ArtifactsOk(decode: Decoder, entries: seq<Entry>, artifacts: seq<Artifact>, run: Run) {
    && (forall a :: a in artifacts ==> ArtifactOk(decode, entries, a, run))
    && (forall e :: e in entries ==> Claims(artifacts, run, e.id) == 1)
  }

  ghost predicate AcceptsEntries(decode: Decoder, entries: seq<Entry>, artifacts: seq<Artifact>, jobs: Json,
                                 needs: Json, run: Run) {
    && ArtifactsOk(decode, entries, artifacts, run)
    && JobsOk(entries, jobs) && NeedsOk(entries, needs)
  }

  /** The whole verdict: each expected entry attested exactly once, nothing else, all jobs and needs green. */
  ghost predicate Accepts(
    decode: Decoder, expected: Json, artifacts: seq<Artifact>, jobs: Json, needs: Json, run: Run)
  {
    && RunOk(run)
    && exists entries :: Lists(expected, entries) && AcceptsEntries(decode, entries, artifacts, jobs, needs, run)
  }
}
