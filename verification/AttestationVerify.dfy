/** The verifier itself, loop by loop, and its equality with the declarative verdict. */
module AttestationVerify {
  import opened Common
  import opened ArtifactNames
  import opened Decimals
  import opened Attestation

  // --- The expected set ------------------------------------------------------------------------

  lemma ListsExtends(items: seq<Json>, entries: seq<Entry>, es: seq<Entry>, i: nat)
    requires i <= |items| && AllRead(items[..i], entries) && AllRead(items, es)
    ensures es[..i] == entries
  {
    forall k | 0 <= k < i ensures es[k] == entries[k] { assert items[..i][k] == items[k]; }
  }

  /** An entry that does not read, or repeats an id or a job name, leaves the set without a reading. */
  lemma BadEntry(expected: Json, read: seq<Entry>, es: seq<Entry>, i: nat)
    requires expected.List? && i < |expected.items| && AllRead(expected.items[..i], read)
    requires var entry := ReadEntry(expected.items[i]);
             entry.Some? ==> exists e :: e in read && (e.id == entry.value.id || e.jobName == entry.value.jobName)
    ensures !Lists(expected, es)
  {
    hide ReadEntry;
    if Lists(expected, es) {
      ListsExtends(expected.items, read, es, i);
    }
  }

  /** Every shape error is reported; none is left exactly when the set lists entries. */
  method ValidateExpected(expected: Json) returns (errors: seq<Problem>, entries: seq<Entry>)
    ensures errors == [] ==> Lists(expected, entries)
    ensures errors != [] ==> forall es :: !Lists(expected, es)
  {
    hide IdOk, JobNameOk, NeedsKeyOk;
    errors, entries := [], [];
    if !expected.List? || expected.items == [] { return [Malformed("expected set")], []; }
    if |expected.items| > MAX_EXPECTED { return [Malformed("expected set size")], []; }
    var items := expected.items;
    var ids: set<string>, names: set<string> := {}, {};
    for i := 0 to |items|
      invariant errors == [] ==>
        && AllRead(items[..i], entries) && Distinct(entries)
        && ids == (set e | e in entries :: e.id) && names == (set e | e in entries :: e.jobName)
      invariant errors != [] ==> forall es :: !Lists(expected, es)
    {
      ghost var before := errors;
      ghost var read := entries;
      var j := items[i];
      assert items[..i + 1] == items[..i] + [j];
      if !j.Object? || j.fields.Keys != EXPECTED_FIELDS {
        errors := errors + [Malformed("expected entry")];
        assert ReadEntry(j) == None;
      } else {
        var id, name := TextAt(j.fields, "attestation_id"), TextAt(j.fields, "job_name");
        var key := TextAt(j.fields, "needs_key");
        if id.None? || !IdOk(id.value) { errors := errors + [Malformed("attestation_id")]; }
        else if id.value in ids { errors := errors + [Malformed("duplicate attestation_id")]; }
        else { ids := ids + {id.value}; }
        if name.None? || !JobNameOk(name.value) { errors := errors + [Malformed("job_name")]; }
        else if name.value in names { errors := errors + [Malformed("duplicate job_name")]; }
        else { names := names + {name.value}; }
        if key.None? || !NeedsKeyOk(key.value) { errors := errors + [Malformed("needs_key")]; }
        if id.Some? && name.Some? && key.Some? {
          entries := entries + [Entry(id.value, name.value, key.value)];
        }
      }
      if before == [] && errors != [] {
        forall es ensures !Lists(expected, es) { BadEntry(expected, read, es, i); }
      }
    }
    assert items[..|items|] == items;
  }

  // --- Selecting this attempt's artifacts ------------------------------------------------------

  /** An artifact that claims an id in this attempt. */
  datatype Claim = Claim(id: string, artifact: Artifact)

  function Selected(artifacts: seq<Artifact>, run: Run): seq<Claim> {
    if artifacts == [] then []
    else
      var n := |artifacts| - 1;
      var claim := ClaimOf(artifacts[n], run);
      var front := Selected(artifacts[..n], run);
      if claim.Some? then front + [Claim(claim.value, artifacts[n])] else front
  }

  method SelectCurrent(artifacts: seq<Artifact>, run: Run) returns (errors: seq<Problem>, selected: seq<Claim>)
    ensures errors == [] <==> forall a :: a in artifacts ==> NameOk(a, run)
    ensures selected == Selected(artifacts, run)
  {
    errors, selected := [], [];
    for i := 0 to |artifacts|
      invariant errors == [] <==> forall a :: a in artifacts[..i] ==> NameOk(a, run)
      invariant selected == Selected(artifacts[..i], run)
    {
      var a := artifacts[i];
      assert artifacts[..i + 1] == artifacts[..i] + [a];
      assert artifacts[..i + 1][..i] == artifacts[..i];
      assert a in artifacts[..i + 1];
      if !Attests(a.name) { continue; }
      var parsed := Parse(a.name);
      if parsed.None? {
        errors := errors + [Malformed(a.name)];
        continue;
      }
      if parsed.value.1 < run.attempt { continue; }
      if parsed.value.1 > run.attempt {
        errors := errors + [LaterAttempt(a.name)];
        continue;
      }
      selected := selected + [Claim(parsed.value.0, a)];
    }
    assert artifacts[..|artifacts|] == artifacts;
  }

  // --- Reading their records -------------------------------------------------------------------

  predicate RecordOk(j: Json) {
    && j.Object? && j.fields.Keys == RECORD_FIELDS
    && var r := j.fields;
    && r["schema"] == Text(SCHEMA)
    && r["attestation_id"].Text? && IdOk(r["attestation_id"].text)
    && r["job_name"].Text? && JobNameOk(r["job_name"].text)
    && r["target_sha"].Text? && ShaOk(r["target_sha"].text)
    && r["head_sha"].Text? && ShaOk(r["head_sha"].text)
    && r["run_id"].Number? && r["run_id"].value > 0
    && r["run_attempt"].Number? && r["run_attempt"].value > 0
    && r["repository"].Text? && RepoOk(r["repository"].text)
    && r["job_status"].Text?
  }

  method ValidateRecord(j: Json) returns (errors: seq<Problem>)
    ensures errors == [] <==> RecordOk(j)
  {
    hide IdOk, JobNameOk, ShaOk, RepoOk;
    if !j.Object? { return [Malformed("record")]; }
    var r := j.fields;
    errors := [];
    if RECORD_FIELDS - r.Keys != {} { errors := errors + [Malformed("missing fields")]; }
    if r.Keys - RECORD_FIELDS != {} { errors := errors + [Malformed("unknown fields")]; }
    if errors != [] { return; }
    assert r.Keys == RECORD_FIELDS;
    if r["schema"] != Text(SCHEMA) { errors := errors + [Malformed("schema")]; }
    if !(r["attestation_id"].Text? && IdOk(r["attestation_id"].text)) {
      errors := errors + [Malformed("attestation_id")];
    }
    if !(r["job_name"].Text? && JobNameOk(r["job_name"].text)) { errors := errors + [Malformed("job_name")]; }
    if !(r["target_sha"].Text? && ShaOk(r["target_sha"].text)) { errors := errors + [Malformed("target_sha")]; }
    if !(r["head_sha"].Text? && ShaOk(r["head_sha"].text)) { errors := errors + [Malformed("head_sha")]; }
    if !(r["run_id"].Number? && r["run_id"].value > 0) { errors := errors + [Malformed("run_id")]; }
    if !(r["run_attempt"].Number? && r["run_attempt"].value > 0) { errors := errors + [Malformed("run_attempt")]; }
    if !(r["repository"].Text? && RepoOk(r["repository"].text)) { errors := errors + [Malformed("repository")]; }
    if !r["job_status"].Text? { errors := errors + [Malformed("job_status")]; }
  }

  /** The claim's record: `None` unless the artifact is exactly one decodable record file. */
  function RecordOf(decode: Decoder, a: Artifact): Option<Json> {
    if a.files.Some? && a.files.value.Keys == {RECORD_FILENAME} then decode(a.files.value[RECORD_FILENAME]) else None
  }

  predicate RecordFits(decode: Decoder, c: Claim, run: Run) {
    var record := RecordOf(decode, c.artifact);
    && record.Some? && RecordOk(record.value)
    && record.value.fields["attestation_id"].text == c.id
    && record.value.fields["run_attempt"].value == run.attempt
  }

  predicate DistinctIds(claims: seq<Claim>) {
    forall j, k :: 0 <= j < k < |claims| ==> claims[j].id != claims[k].id
  }

  /** The record in a claim's artifact, when it is valid and names the claim's id and attempt. */
  method ReadRecord(decode: Decoder, c: Claim, run: Run) returns (record: Option<map<string, Json>>)
    ensures record.Some? <==> RecordFits(decode, c, run)
    ensures record.Some? ==>
            RecordOf(decode, c.artifact) == Some(Object(record.value)) && RecordOk(Object(record.value))
  {
    hide RecordOk;
    if c.artifact.files.None? || c.artifact.files.value.Keys != {RECORD_FILENAME} { return None; }
    var decoded := decode(c.artifact.files.value[RECORD_FILENAME]);
    if decoded.None? { return None; }
    var problems := ValidateRecord(decoded.value);
    if problems != [] { return None; }
    RecordOkFields(decoded.value);
    var fields := decoded.value.fields;
    if fields["attestation_id"] != Text(c.id) || fields["run_attempt"] != Number(run.attempt) { return None; }
    assert Object(fields) == decoded.value;
    return Some(fields);
  }

  /** Every claim has its own valid record, under an expected id. */
  ghost predicate AllFit(decode: Decoder, claims: seq<Claim>, ids: set<string>, run: Run) {
    (forall c :: c in claims ==> RecordFits(decode, c, run) && c.id in ids) && DistinctIds(claims)
  }

  function IdsOf(claims: seq<Claim>): set<string> { set c | c in claims :: c.id }

  /** The records read so far, one for each claim. */
  ghost predicate Loaded(decode: Decoder, claims: seq<Claim>, records: map<string, map<string, Json>>) {
    && records.Keys == IdsOf(claims)
    && forall c :: c in claims ==> RecordOf(decode, c.artifact) == Some(Object(records[c.id]))
  }

  lemma AllFitStep(decode: Decoder, claims: seq<Claim>, c: Claim, ids: set<string>, run: Run)
    ensures AllFit(decode, claims + [c], ids, run)
            <==> AllFit(decode, claims, ids, run) && RecordFits(decode, c, run) && c.id in ids && c.id !in IdsOf(claims)
  {
    hide RecordFits;
    var all := claims + [c];
    assert c in all;
    if AllFit(decode, all, ids, run) && c.id in IdsOf(claims) {
      var k :| 0 <= k < |claims| && claims[k].id == c.id;
      assert all[k].id == all[|claims|].id;
    }
    if DistinctIds(all) {
      forall j, k | 0 <= j < k < |claims| ensures claims[j].id != claims[k].id { assert all[j].id != all[k].id; }
    }
  }

  /** The valid records by id; no error exactly when every claim has its own valid record. */
  method ReadRecords(decode: Decoder, selected: seq<Claim>, ids: set<string>, run: Run)
    returns (errors: seq<Problem>, records: map<string, map<string, Json>>)
    ensures errors == [] <==> AllFit(decode, selected, ids, run)
    ensures errors == [] ==> Loaded(decode, selected, records)
    ensures forall id :: id in records ==> RecordOk(Object(records[id]))
  {
    hide RecordOk, RecordFits, RecordOf, AllFit;
    errors, records := [], map[];
    assert AllFit(decode, [], ids, run) by { NoneFit(decode, ids, run); }
    for i := 0 to |selected|
      invariant errors == [] <==> AllFit(decode, selected[..i], ids, run)
      invariant errors == [] ==> Loaded(decode, selected[..i], records)
      invariant forall id :: id in records ==> RecordOk(Object(records[id]))
    {
      var c := selected[i];
      assert selected[..i + 1] == selected[..i] + [c];
      AllFitStep(decode, selected[..i], c, ids, run);
      var record := ReadRecord(decode, c, run);
      if record.None? {
        errors := errors + [BadRecord(c.artifact.name)];
        continue;
      }
      if c.id in records {
        errors := errors + [Duplicate(c.id)];
        continue;
      }
      if c.id !in ids {
        errors := errors + [Unexpected(c.id)];
        continue;
      }
      records := records[c.id := record.value];
    }
    assert selected[..|selected|] == selected;
  }

  lemma NoneFit(decode: Decoder, ids: set<string>, run: Run)
    ensures AllFit(decode, [], ids, run)
  {
  }

  lemma RecordOkFields(j: Json)
    requires RecordOk(j)
    ensures j.Object? && j.fields.Keys == RECORD_FIELDS && j.fields["attestation_id"].Text?
            && j.fields["run_attempt"].Number?
  {
  }

  /** Names every id claimed twice that is not yet reported. */
  method MarkDuplicates(selected: seq<Claim>, before: seq<Problem>) returns (errors: seq<Problem>)
    ensures errors == [] <==> before == [] && DistinctIds(selected)
  {
    errors := before;
    for i := 0 to |selected|
      invariant errors == [] <==>
        before == [] && forall j, k :: 0 <= j < k < |selected| && j < i ==> selected[j].id != selected[k].id
    {
      var again := false;
      for k := 0 to |selected|
        invariant again <==> exists m :: 0 <= m < k && m != i && selected[m].id == selected[i].id
      {
        if k != i && selected[k].id == selected[i].id { again := true; }
      }
      if again && Duplicate(selected[i].id) !in errors {
        errors := errors + [Duplicate(selected[i].id)];
      }
    }
  }

  /** The record speaks of this entry's job, on this commit, in this run. */
  predicate Matches(r: map<string, Json>, e: Entry, run: Run) {
    && RecordOk(Object(r))
    && r["job_name"] == Text(e.jobName) && r["target_sha"] == Text(run.sha) && r["head_sha"] == Text(run.sha)
    && r["run_id"] == Number(run.id) && r["run_attempt"] == Number(run.attempt)
    && r["repository"] == Text(run.repository)
  }

  /** Entry by entry; an entry with no valid record is passed over when its artifact was seen. */
  method CheckEntries(entries: seq<Entry>, records: map<string, map<string, Json>>, seen: set<string>, run: Run)
    returns (errors: seq<Problem>)
    requires forall id :: id in records ==> RecordOk(Object(records[id]))
    ensures errors == [] <==>
      forall e :: e in entries ==> if e.id in records then Matches(records[e.id], e, run) else e.id in seen
  {
    hide RecordOk;
    errors := [];
    for i := 0 to |entries|
      invariant errors == [] <==>
        forall e :: e in entries[..i] ==> if e.id in records then Matches(records[e.id], e, run) else e.id in seen
    {
      var e := entries[i];
      assert entries[..i + 1] == entries[..i] + [e] && e in entries[..i + 1];
      if e.id !in records {
        if e.id !in seen { errors := errors + [Missing(e.id)]; }
        continue;
      }
      var r := records[e.id];
      RecordHasFields(r);
      if r["job_name"] != Text(e.jobName) { errors := errors + [Mismatch(e.id, "job_name")]; }
      if r["target_sha"] != Text(run.sha) { errors := errors + [Mismatch(e.id, "target_sha")]; }
      if r["head_sha"] != Text(run.sha) { errors := errors + [Mismatch(e.id, "head_sha")]; }
      if r["run_id"] != Number(run.id) { errors := errors + [Mismatch(e.id, "run_id")]; }
      if r["run_attempt"] != Number(run.attempt) { errors := errors + [Mismatch(e.id, "run_attempt")]; }
      if r["repository"] != Text(run.repository) { errors := errors + [Mismatch(e.id, "repository")]; }
    }
    assert entries[..|entries|] == entries;
  }

  lemma RecordHasFields(r: map<string, Json>)
    requires RecordOk(Object(r))
    ensures r.Keys == RECORD_FIELDS
  {
  }

  method VerifyApiJobs(entries: seq<Entry>, jobs: Json) returns (errors: seq<Problem>)
    ensures errors == [] <==> JobsOk(entries, jobs)
  {
    if !jobs.List? || exists j :: j in jobs.items && !HasName(j) { return [Malformed("jobs API listing")]; }
    errors := [];
    for i := 0 to |entries|
      invariant errors == [] <==> JobsOk(entries[..i], jobs)
    {
      var e := entries[i];
      assert entries[..i + 1] == entries[..i] + [e] && e in entries[..i + 1];
      var matches := [];
      for k := 0 to |jobs.items|
        invariant matches == Named(jobs.items[..k], e.jobName)
      {
        assert jobs.items[..k + 1][..k] == jobs.items[..k] && HasName(jobs.items[k]);
        if TextAt(jobs.items[k].fields, "name") == Some(e.jobName) { matches := matches + [jobs.items[k]]; }
      }
      assert jobs.items[..|jobs.items|] == jobs.items;
      if |matches| != 1 || !Succeeded(matches[0]) { errors := errors + [JobNotSuccessful(e.id)]; }
    }
    assert entries[..|entries|] == entries;
  }

  method VerifyNeeds(entries: seq<Entry>, needs: Json) returns (errors: seq<Problem>)
    ensures errors == [] <==> NeedsOk(entries, needs)
  {
    if !needs.Object? || needs.fields == map[] { return [Malformed("needs results")]; }
    errors := [];
    var left := needs.fields.Keys;
    while left != {}
      invariant left <= needs.fields.Keys
      invariant errors == [] <==> forall k :: k in needs.fields.Keys - left ==> NeedOk(needs.fields[k])
      decreases |left|
    {
      var key :| key in left;
      left := left - {key};
      assert key in needs.fields.Keys - left;
      if !NeedOk(needs.fields[key]) { errors := errors + [NeedNotSuccessful(key)]; }
    }
    assert needs.fields.Keys - {} == needs.fields.Keys;
    for i := 0 to |entries|
      invariant errors == [] <==>
        && (forall k :: k in needs.fields ==> NeedOk(needs.fields[k]))
        && forall e :: e in entries[..i] ==> e.needsKey in needs.fields
    {
      assert entries[..i + 1] == entries[..i] + [entries[i]] && entries[i] in entries[..i + 1];
      if entries[i].needsKey !in needs.fields { errors := errors + [NeedNotSuccessful(entries[i].needsKey)]; }
    }
    assert entries[..|entries|] == entries;
  }

  // --- The loops add up to the declarative verdict -----------------------------------------------

  /** A record that fits the artifact's name and matches the entry is the one the entry's job writes. */
  lemma RecordExact(j: Json, e: Entry, run: Run)
    requires IdOk(e.id) && JobNameOk(e.jobName) && RunOk(run)
    ensures RecordOk(j) && j.fields["attestation_id"] == Text(e.id) && Matches(j.fields, e, run)
            <==> exists status :: j == Object(BuildRecord(e, run, status))
  {
    hide IdOk, JobNameOk, ShaOk, RepoOk;
    if RecordOk(j) && j.fields["attestation_id"] == Text(e.id) && Matches(j.fields, e, run) {
      assert j.fields == BuildRecord(e, run, j.fields["job_status"].text);
    }
  }

  lemma {:induction false} SelectedClaims(artifacts: seq<Artifact>, run: Run)
    ensures forall c :: c in Selected(artifacts, run) <==>
              c.artifact in artifacts && ClaimOf(c.artifact, run) == Some(c.id)
    decreases |artifacts|
  {
    hide ClaimOf;
    if artifacts != [] {
      var n := |artifacts| - 1;
      assert artifacts == artifacts[..n] + [artifacts[n]];
      SelectedClaims(artifacts[..n], run);
    }
  }

  function CountId(claims: seq<Claim>, id: string): nat {
    if claims == [] then 0
    else
      var n := |claims| - 1;
      CountId(claims[..n], id) + if claims[n].id == id then 1 else 0
  }

  lemma CountAppend(claims: seq<Claim>, c: Claim, id: string)
    ensures CountId(claims + [c], id) == CountId(claims, id) + if c.id == id then 1 else 0
  {
    assert (claims + [c])[..|claims|] == claims;
  }

  lemma CountNothing(id: string)
    ensures CountId([], id) == 0
  {
  }

  lemma {:induction false} ClaimsCounted(artifacts: seq<Artifact>, run: Run, id: string)
    ensures Claims(artifacts, run, id) == CountId(Selected(artifacts, run), id)
    decreases |artifacts|
  {
    hide ClaimOf, CountId;
    if artifacts == [] {
      CountNothing(id);
    } else {
      var n := |artifacts| - 1;
      ClaimsCounted(artifacts[..n], run, id);
      var claim := ClaimOf(artifacts[n], run);
      if claim.Some? { CountAppend(Selected(artifacts[..n], run), Claim(claim.value, artifacts[n]), id); }
    }
  }

  lemma {:induction false} CountPresent(claims: seq<Claim>, id: string)
    ensures CountId(claims, id) > 0 <==> exists c :: c in claims && c.id == id
    decreases |claims|
  {
    if claims != [] {
      var n := |claims| - 1;
      CountPresent(claims[..n], id);
      assert claims == claims[..n] + [claims[n]];
      if CountId(claims[..n], id) > 0 {
        var c :| c in claims[..n] && c.id == id;
        assert c in claims;
      }
    }
  }

  /** Ids are distinct exactly when none is counted twice. */
  lemma {:induction false} CountDistinct(claims: seq<Claim>)
    ensures DistinctIds(claims) <==> forall c :: c in claims ==> CountId(claims, c.id) == 1
    decreases |claims|
  {
    if claims != [] {
      var n := |claims| - 1;
      var front, last := claims[..n], claims[n];
      assert claims == front + [last];
      CountDistinct(front);
      CountPresent(front, last.id);
      if DistinctIds(claims) {
        forall c | c in claims ensures CountId(claims, c.id) == 1 {
          if c in front { CountPresent(front, c.id); }
        }
      } else if DistinctIds(front) {
        assert CountId(front, last.id) > 0;
        assert last in claims;
      } else {
        var c :| c in front && CountId(front, c.id) != 1;
        CountPresent(front, c.id);
        assert c in claims;
      }
    }
  }

  ghost predicate EntriesOk(entries: seq<Entry>) {
    Distinct(entries) && forall e :: e in entries ==> IdOk(e.id) && JobNameOk(e.jobName)
  }

  lemma ListedOk(expected: Json, entries: seq<Entry>)
    requires Lists(expected, entries)
    ensures EntriesOk(entries)
  {
    hide IdOk, JobNameOk, NeedsKeyOk;
    forall e | e in entries ensures IdOk(e.id) && JobNameOk(e.jobName) {
      var k :| 0 <= k < |entries| && entries[k] == e;
      assert ReadEntry(expected.items[k]) == Some(e);
    }
  }

  predicate ClaimMatches(decode: Decoder, a: Artifact, e: Entry, run: Run) {
    var record := RecordOf(decode, a);
    record.Some? && record.value.Object? && Matches(record.value.fields, e, run)
  }

  ghost predicate IsAttested(decode: Decoder, selected: seq<Claim>, e: Entry, run: Run) {
    exists c :: c in selected && c.id == e.id && ClaimMatches(decode, c.artifact, e, run)
  }

  /** What the record loops leave without an error. */
  ghost predicate Attested(decode: Decoder, entries: seq<Entry>, selected: seq<Claim>, run: Run) {
    && (forall c :: c in selected ==> RecordFits(decode, c, run) && exists e :: e in entries && e.id == c.id)
    && DistinctIds(selected)
    && forall e :: e in entries ==> IsAttested(decode, selected, e, run)
  }

  lemma EntryById(entries: seq<Entry>, e: Entry, f: Entry)
    requires Distinct(entries) && e in entries && f in entries && e.id == f.id
    ensures e == f
  {
  }

  lemma GenuineRecord(decode: Decoder, a: Artifact, e: Entry, run: Run)
    requires IdOk(e.id) && JobNameOk(e.jobName) && RunOk(run)
    ensures Genuine(decode, a, e, run)
            <==> RecordFits(decode, Claim(e.id, a), run) && ClaimMatches(decode, a, e, run)
  {
    hide IdOk, JobNameOk, RunOk, RecordOk;
    var record := RecordOf(decode, a);
    if record.Some? {
      RecordExact(record.value, e, run);
      if RecordOk(record.value) { RecordOkFields(record.value); }
      if Genuine(decode, a, e, run) {
        assert RecordOk(record.value);
        assert record.value.fields["run_attempt"] == Number(run.attempt);
      }
      if RecordFits(decode, Claim(e.id, a), run) { assert record.value == Object(record.value.fields); }
    }
  }

  lemma AttestedAccepts(decode: Decoder, entries: seq<Entry>, artifacts: seq<Artifact>, run: Run)
    requires EntriesOk(entries) && RunOk(run)
    requires forall a :: a in artifacts ==> NameOk(a, run)
    requires Attested(decode, entries, Selected(artifacts, run), run)
    ensures forall a :: a in artifacts ==> ArtifactOk(decode, entries, a, run)
    ensures forall e :: e in entries ==> Claims(artifacts, run, e.id) == 1
  {
    hide NameOk, ClaimOf, Genuine, RecordFits, ClaimMatches, RunOk, IdOk, JobNameOk;
    var selected := Selected(artifacts, run);
    SelectedClaims(artifacts, run);
    CountDistinct(selected);
    forall a | a in artifacts ensures ArtifactOk(decode, entries, a, run) {
      if ClaimOf(a, run).Some? {
        var c := Claim(ClaimOf(a, run).value, a);
        assert c in selected;
        var e :| e in entries && e.id == c.id;
        var d :| d in selected && d.id == e.id && ClaimMatches(decode, d.artifact, e, run);
        assert d == c;
        GenuineRecord(decode, a, e, run);
      }
    }
    forall e | e in entries ensures Claims(artifacts, run, e.id) == 1 {
      var c :| c in selected && c.id == e.id;
      ClaimsCounted(artifacts, run, e.id);
    }
  }

  lemma AcceptedAttests(decode: Decoder, entries: seq<Entry>, artifacts: seq<Artifact>, run: Run)
    requires EntriesOk(entries) && RunOk(run)
    requires forall a :: a in artifacts ==> ArtifactOk(decode, entries, a, run)
    requires forall e :: e in entries ==> Claims(artifacts, run, e.id) == 1
    ensures Attested(decode, entries, Selected(artifacts, run), run)
  {
    hide NameOk, ClaimOf, Genuine, RecordFits, ClaimMatches, RunOk, IdOk, JobNameOk, RecordOf;
    var selected := Selected(artifacts, run);
    SelectedClaims(artifacts, run);
    forall c | c in selected
      ensures RecordFits(decode, c, run)
      ensures exists e :: e in entries && e.id == c.id && CountId(selected, c.id) == 1
                          && ClaimMatches(decode, c.artifact, e, run)
    {
      var e :| e in entries && ClaimOf(c.artifact, run) == Some(e.id) && Genuine(decode, c.artifact, e, run);
      GenuineRecord(decode, c.artifact, e, run);
      assert c == Claim(e.id, c.artifact);
      ClaimsCounted(artifacts, run, e.id);
    }
    CountDistinct(selected);
    forall e | e in entries
      ensures IsAttested(decode, selected, e, run)
    {
      ClaimsCounted(artifacts, run, e.id);
      CountPresent(selected, e.id);
      var c :| c in selected && c.id == e.id;
      var f :| f in entries && f.id == c.id && ClaimMatches(decode, c.artifact, f, run);
      EntryById(entries, e, f);
    }
  }

  /** The record loops find no error exactly when the artifacts are as the verdict wants them. */
  lemma ArtifactsMean(decode: Decoder, entries: seq<Entry>, artifacts: seq<Artifact>, run: Run)
    requires EntriesOk(entries) && RunOk(run)
    ensures (forall a :: a in artifacts ==> NameOk(a, run)) && Attested(decode, entries, Selected(artifacts, run), run)
            <==> ArtifactsOk(decode, entries, artifacts, run)
  {
    hide NameOk, Attested, Claims, ClaimOf, Genuine, EntriesOk, RunOk;
    if (forall a :: a in artifacts ==> NameOk(a, run)) && Attested(decode, entries, Selected(artifacts, run), run) {
      AttestedAccepts(decode, entries, artifacts, run);
    }
    if ArtifactsOk(decode, entries, artifacts, run) {
      AcceptedAttests(decode, entries, artifacts, run);
    }
  }

  lemma AttestedFit(decode: Decoder, entries: seq<Entry>, selected: seq<Claim>, run: Run)
    requires Attested(decode, entries, selected, run)
    ensures AllFit(decode, selected, (set e | e in entries :: e.id), run)
  {
  }

  lemma RecordMatches(decode: Decoder, a: Artifact, e: Entry, run: Run, r: map<string, Json>)
    requires RecordOf(decode, a) == Some(Object(r))
    ensures ClaimMatches(decode, a, e, run) <==> Matches(r, e, run)
  {
  }

  lemma EntryAttested(
    decode: Decoder, e: Entry, selected: seq<Claim>, run: Run, records: map<string, map<string, Json>>)
    requires Loaded(decode, selected, records)
    ensures IsAttested(decode, selected, e, run)
            <==> e.id in records && Matches(records[e.id], e, run)
  {
    hide Matches, RecordOf, ClaimMatches;
    if e.id in records {
      forall c | c in selected && c.id == e.id
        ensures ClaimMatches(decode, c.artifact, e, run) <==> Matches(records[e.id], e, run)
      {
        RecordMatches(decode, c.artifact, e, run, records[e.id]);
      }
      var c :| c in selected && c.id == e.id;
    }
  }

  lemma RecordsAttest(decode: Decoder, entries: seq<Entry>, selected: seq<Claim>, run: Run,
                      records: map<string, map<string, Json>>)
    requires AllFit(decode, selected, (set e | e in entries :: e.id), run) && Loaded(decode, selected, records)
    ensures Attested(decode, entries, selected, run)
            <==> forall e :: e in entries ==> e.id in records && Matches(records[e.id], e, run)
  {
    hide IsAttested, Loaded, RecordFits, Matches, RecordOf, ClaimMatches, DistinctIds;
    forall e | e in entries
      ensures IsAttested(decode, selected, e, run)
              <==> e.id in records && Matches(records[e.id], e, run)
    {
      EntryAttested(decode, e, selected, run, records);
    }
  }

  lemma NoReading(expected: Json, es: seq<Entry>, entries: seq<Entry>)
    requires Lists(expected, entries) && Lists(expected, es)
    ensures es == entries
  {
    hide ReadEntry;
  }

  /** Selection, records and entries: no error exactly when the artifacts are as the verdict wants them. */
  method VerifyArtifacts(decode: Decoder, entries: seq<Entry>, artifacts: seq<Artifact>, run: Run)
    returns (errors: seq<Problem>)
    requires EntriesOk(entries) && RunOk(run)
    ensures errors == [] <==> ArtifactsOk(decode, entries, artifacts, run)
  {
    hide NameOk, Matches, RecordFits, DistinctIds, ArtifactsOk, ClaimMatches, RecordOf, Selected, RecordOk, EntriesOk,
      RunOk;
    var ids := set e | e in entries :: e.id;
    var selected, more, records;
    errors, selected := SelectCurrent(artifacts, run);
    more, records := ReadRecords(decode, selected, ids, run);
    errors := errors + more;
    errors := MarkDuplicates(selected, errors);
    more := CheckEntries(entries, records, IdsOf(selected), run);
    if errors == [] { RecordsAttest(decode, entries, selected, run, records); }
    if Attested(decode, entries, selected, run) { AttestedFit(decode, entries, selected, run); }
    hide AllFit, Attested;
    errors := errors + more;
    ArtifactsMean(decode, entries, artifacts, run);
  }

  lemma AcceptsListed(decode: Decoder, expected: Json, entries: seq<Entry>, artifacts: seq<Artifact>, jobs: Json,
                      needs: Json, run: Run)
    requires Lists(expected, entries)
    ensures Accepts(decode, expected, artifacts, jobs, needs, run)
            <==> RunOk(run) && AcceptsEntries(decode, entries, artifacts, jobs, needs, run)
  {
    hide RunOk, AcceptsEntries, Lists;
    forall es | Lists(expected, es) ensures es == entries { NoReading(expected, es, entries); }
  }

  /** Every failure reason; none exactly when the declarative verdict accepts. */
  method Verify(decode: Decoder, expected: Json, artifacts: seq<Artifact>, jobs: Json, needs: Json, run: Run)
    returns (errors: seq<Problem>)
    ensures errors == [] <==> Accepts(decode, expected, artifacts, jobs, needs, run)
  {
    hide Lists, JobsOk, NeedsOk, ArtifactsOk, ShaOk, RepoOk, EntriesOk;
    var entries;
    errors, entries := ValidateExpected(expected);
    if errors != [] { return; }
    AcceptsListed(decode, expected, entries, artifacts, jobs, needs, run);
    hide Accepts;
    if run.id <= 0 || run.attempt <= 0 { return [Malformed("run_id and run_attempt")]; }
    if !ShaOk(run.sha) { return [Malformed("target_sha")]; }
    if !RepoOk(run.repository) { return [Malformed("repository")]; }
    ListedOk(expected, entries);
    errors := VerifyArtifacts(decode, entries, artifacts, run);
    var more := VerifyApiJobs(entries, jobs);
    errors := errors + more;
    more := VerifyNeeds(entries, needs);
    errors := errors + more;
  }
}
