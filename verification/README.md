# Proofs about the coding review agent loop

The agent loop drives coder and reviewer agents over a pull request or a plan. Its decisions that need no GitHub, git
or file access are modelled here, and their properties are proved for all inputs and all runs.

- **Reviewer boards** (`BoardAmendment`, `AmendmentLineage`, `ContractHistory`, `BoardIdentity`, `BoardLineage`,
  `BoardFacts`, `BoardGovernance`, `BoardRecords`, `BoardExplained`, `BoardExact`, `BoardMeaning`, `BoardProtocol`,
  `BoardConvergence`, `BoardWitness`, `BoardFreshness`, `BoardInForce`, `BoardResolver`, `Ledger`, `LedgerExact`). A
  run's history is an append-only list of comments: round records stamped with the board they were produced under,
  digest-chained board-change links, and signed removals and restorations. `BoardLineage.Resolve` resolves it in two
  passes; `BoardMeaning.IsLineage` says what it means without any pass, and the two agree on every history;
  `BoardResolver` is the resolver's own code with its loops, equal to `Resolve`; `BoardProtocol` is the transition
  system of the writers: a run starts, takes one stamp from the lineage it resolved, and posts all its records with
  it, while links and signed amendments come in between. The central theorem is that whatever the writers post, the
  resolver accepts. Removing a reviewer also rewrites the ownership of open items, in `Ledger`.
- **Sharding** (`Sharding`, `ShardBounds`, `ShardOptimality`, `ShardVerify`, `ShardEndToEnd`, `ShardFileOrder`). The
  greedy allocator of tests to CI shards with its approximation bounds, and the independent checker of the manifests.
- **Prompt budget and membership** (`Listing`, `Renderer`, `RenderBudget`, `RenderExact`, `Membership`). How
  architecture snapshots are cut to a character budget, and which documents belong to the architecture set.
- **Attestations** (`ArtifactNames`, `Attestation`, `AttestationText`, `AttestationMeaning`, `AttestationVerify`,
  `AttestationVerdict`). The fail-closed verifier of a managed CI run, equal to a short declarative verdict.
- **Checkout ledger** (`CheckoutLedger`, `CheckoutRuns`). Absent, expected or poisoned, per assigned path.
- **Command guard** (`FlagParser`, `FlagSpellings`, `CommandGuard`). The tokenizer of `gh` command lines and the
  verdict on CI-triggering commands.
- **Evidence** (`Evidence`, `EvidenceCollection`, `EvidenceGroups`, `EvidenceExact`, `EvidenceBudget`,
  `EvidenceReport`). Grouping and bounding of the observations reviewers report.

`Common`, `Lexical` and `Decimals` hold shared vocabulary. Digests are values of free datatypes, so equal digests mean
equal contents. `Outcome.Refused` stands for every raised error. Where the original updates state in place (the
checkout ledger, the allocator's loads and groups) the model does too; its loops are loops here, each proved equal to
a function of its inputs or to the property it promises.

## Findings

Places where the code does less than its documentation or its names suggest. Each is a theorem that says exactly when
the behaviour is right.

- The shard checker's verdict can depend on the order in which manifest files are read: a repeated attempt is noticed
  only while it leads (`ShardFileOrder.FileOrderMatters`). A set of files is accepted in every order exactly without
  repeated attempts, and in some order exactly when reading the highest attempts first accepts it
  (`ShardFileOrder.AcceptedInEveryOrderExact`, `ShardFileOrder.AcceptedInSomeOrderExact`).
- A signed amendment posted while a board-change link is pending is admitted by the resolver, and then no run started
  on it can post a record; without a pending link one always can (`BoardConvergence.AmendmentMustWaitForLink`,
  `BoardWitness.WedgedHistory`).
- A root document without detail members is never shown in part: an overview that does not fit disappears altogether
  (`RenderBudget.RootOnlyAllOrNothing`), while beside a member index it is cut to fill the budget.
- Poison is sticky across whole operations, but the end of a gate window overwrites an entry that was poisoned while
  the gate was running (`CheckoutRuns.PoisonInsideGate`, `CheckoutRuns.PoisonForgiven`).
- A green run stops passing once its attempt number has seven digits, because no such artifact name parses
  (`AttestationVerdict.HonestRunAccepted`).
- An evidence group lists a source once for every observation that cites it when the source is over its cap, because
  the full text is compared with the clipped ones; any other source is listed once (`EvidenceExact.ListedTwice`,
  `EvidenceExact.SourceListedTwice`).

## Model

| member | source | states |
|---|---|---|
| `BoardAmendment.BuildAmendmentChain` | src/coding_review_agent_loop/board_amendment.py:654-734 | Succeeds exactly when some arrangement of all the records applies one after another, and returns that arrangement with its contracts; refused only when no arrangement applies. |
| `BoardAmendment.ChainUnique` | src/coding_review_agent_loop/board_amendment.py:654-734 | A collection of records chains in at most one way, so the order they were read in never matters. |
| `BoardAmendment.ChainIncreases` | src/coding_review_agent_loop/board_amendment.py:689-704 | Comment position and effective round both rise strictly along every accepted chain. |
| `BoardAmendment.NextIsForced` | src/coding_review_agent_loop/board_amendment.py:675-716 | At every step of the builder the next record of any chain is the earliest-posted one that names the current board. |
| `AmendmentLineage.EventsAlternate` | src/coding_review_agent_loop/board_amendment.py:584-651 | Each reviewer is removed, restored, removed, ... in turn, and the parity of the events decides membership. |
| `AmendmentLineage.BoardIsBaseMinusDeparted` | src/coding_review_agent_loop/board_amendment.py:97-106 | The current board is the original one, in its order, without those whose last event is a removal; never empty, never without the primary. |
| `AmendmentLineage.RemovedReviewersExact` | src/coding_review_agent_loop/board_amendment.py:134-149 | The reported removed reviewers are the original board minus the current one, each named once. |
| `AmendmentLineage.GateRefinesLineage` | src/coding_review_agent_loop/board_amendment.py:152-165 | The comment-only restoration gate gives every required reviewer the round the full lineage gives, whenever collection and chaining succeed. |
| `AmendmentLineage.RestorationRoundsFromComments` | src/coding_review_agent_loop/board_amendment.py:1074-1097 | The gate loop computes the latest restoration round of each reviewer on this surface. |
| `AmendmentLineage.GateRoundsIsLatest` | src/coding_review_agent_loop/board_amendment.py:1074-1097 | What the gate computes is the highest effective round among the records that restore the reviewer. |
| `AmendmentLineage.ActivationNeedsOnePending` | src/coding_review_agent_loop/board_amendment.py:868-890 | Activation passes exactly with nothing pending, or with one pending amendment effective at the resumed round. |
| `AmendmentLineage.CollectExact` | src/coding_review_agent_loop/board_amendment.py:487-554 | Discovery succeeds exactly when every record is of this flow, and keeps, in order, the first post of each. |
| `ContractHistory.ResolveContractLineage` | src/coding_review_agent_loop/board_amendment.py:760-865 | Returns the one lineage under which every record carries its governing contract and digest and the configured contract fits; refused exactly when there is none. |
| `ContractHistory.ResolvesUnique` | src/coding_review_agent_loop/board_amendment.py:760-865 | At most one lineage explains a history, in whatever order its amendments were read. |
| `ContractHistory.GoverningIsPrefix` | src/coding_review_agent_loop/board_amendment.py:803-815 | The amendments that govern a record are a prefix of the chain. |
| `ContractHistory.RecordAccepted` | src/coding_review_agent_loop/board_amendment.py:809-865 | A record with its governing contract and digest is accepted, and takes exactly that amendment out of the pending ones. |
| `ContractHistory.AmendmentAccepted` | src/coding_review_agent_loop/board_amendment.py:800-865 | A valid amendment posted after all records is accepted with its contract, re-governs no earlier record and is then pending. |
| `ContractHistory.ResolvesExact` | src/coding_review_agent_loop/board_amendment.py:760-865 | A lineage resolves a history exactly when every record shows the contract of the amendments posted before it and in effect in its round, the configured contract is the last (or the base where accepted), and pending are the amendments no contract-bearing record names. |
| `Ledger.ApplyBoardAmendmentToLedger` | src/coding_review_agent_loop/board_amendment.py:903-981 | The rewrite loop computes the specified items and one reassignment per touched item. |
| `Ledger.PendingNeverLost` | src/coding_review_agent_loop/board_amendment.py:893-981 | Removed reviewers own nothing, no pending owner is dropped, and a pending item keeps a pending owner. |
| `Ledger.ReassignIdempotent` | src/coding_review_agent_loop/board_amendment.py:903-981 | Applying the same removal again changes nothing. |
| `Ledger.ReassignComposes` | src/coding_review_agent_loop/board_amendment.py:903-981 | Removing R1 and then R2 leaves the owners and states that removing both together leaves. |
| `Ledger.LedgerComposes` | src/coding_review_agent_loop/board_amendment.py:903-981 | The same for a whole ledger, with a primary outside both removals or the board shrinking with them. |
| `LedgerExact.ReassignExact` | src/coding_review_agent_loop/board_amendment.py:893-981 | Who owns a rewritten item and in which state: remaining owners keep theirs, and the successors join, pending, exactly when no remaining reviewer is left to clear it; an item the amendment does not concern is unchanged. |
| `LedgerExact.OwnersInOrder` | src/coding_review_agent_loop/board_amendment.py:928-948 | Remaining owners come first, in their order, and nobody is listed twice. |
| `LedgerExact.WordsKept` | src/coding_review_agent_loop/board_amendment.py:949-966 | Evidence and dispositions of removed reviewers go; all others stay, in order. |
| `LedgerExact.EntriesExact` | src/coding_review_agent_loop/board_amendment.py:967-981 | One report for each concerned item, in ledger order, naming whom it lost and whom it gained. |
| `BoardIdentity.MergeInits` | src/coding_review_agent_loop/board_change.py:1666-1687 | Initializations merge exactly when none contradicts one already recorded or the seat in view; the merged map is their union. |
| `BoardIdentity.ApplyInitsTwice` | src/coding_review_agent_loop/board_change.py:460-471 | Applying later initializations on top of earlier ones is applying them all at once. |
| `BoardIdentity.PendingInitsRoundTrip` | src/coding_review_agent_loop/board_change.py:474-515 | The written payload of pending initializations reads back as those initializations. |
| `BoardIdentity.PendingCompletes` | src/coding_review_agent_loop/board_change.py:460-515 | Applying the pending initializations makes every seat whose binding was unknown the one the configured board knows for it on the same backend, and leaves the others alone. |
| `BoardIdentity.CompatibleExact` | src/coding_review_agent_loop/board_change.py:440-446 | Two seats are compatible exactly when they may turn out to be the same known seat. |
| `BoardIdentity.BindingCompatibleExact` | src/coding_review_agent_loop/board_change.py:449-457 | Boards are compatible exactly when policy, primary and rules agree and their seats pair off compatibly. |
| `BoardIdentity.SeatBindingExact` | src/coding_review_agent_loop/board_change.py:298-318 | A board persists its seats exactly when one goes by another name than its backend's. |
| `BoardResolver.ResolveBoardLineage` | src/coding_review_agent_loop/board_change.py:1193-1626 | The two-pass resolver with its loops computes exactly the declarative resolution. |
| `BoardResolver.ResolveElements` | src/coding_review_agent_loop/board_change.py:1270-1378 | The first pass, link by link and signed segment by signed segment, yields the elements that the one-at-a-time definition yields. |
| `BoardResolver.SegmentChain` | src/coding_review_agent_loop/board_change.py:1287-1320 | A segment read one amendment at a time is accepted exactly when the chain builder and the segment checks accept it as a whole. |
| `BoardResolver.WalkComments` | src/coding_review_agent_loop/board_change.py:1389-1556 | The second pass over records and links accumulates exactly the specified initializations and carried elements, or refuses. |
| `BoardResolver.CheckUse` | src/coding_review_agent_loop/board_change.py:1559-1584 | Accepts exactly when no superseded link was carried and every other uncarried link is pending. |
| `BoardFacts.ElementsOrdered` | src/coding_review_agent_loop/board_change.py:1285-1378 | Along an accepted lineage comment positions rise and effective rounds never fall, equal only where a link supersedes one. |
| `BoardGovernance.GoverningIsPrefix` | src/coding_review_agent_loop/board_change.py:1424-1427 | The elements that pass the governing test for a record are a prefix of the lineage. |
| `BoardGovernance.GovernanceMonotone` | src/coding_review_agent_loop/board_change.py:975-983 | A later record, in position and in round, is never governed by an earlier element. |
| `BoardGovernance.AppendNeverRegoverns` | src/coding_review_agent_loop/board_change.py:1424-1427 | Appending a comment keeps the elements as a prefix and every earlier record under the element that governed it. |
| `BoardGovernance.NoRecordUnderSuperseded` | src/coding_review_agent_loop/board_change.py:1515-1566 | In an accepted history no record, neutral summaries aside, is governed by a superseded link. |
| `BoardProtocol.GrownHistoriesAccepted` | src/coding_review_agent_loop/board_change.py:1193-1873 | Every history grown from a valid root by runs that each post any number of records under the one stamp they took, by candidate links and by signed amendments posted when enabled, is accepted by the resolver, on the same root. |
| `BoardProtocol.StampAccepted` | src/coding_review_agent_loop/board_change.py:1830-1873 | A stamp is what the resolver expects of a record under the element it was taken under, the first time and, as a no-op on initializations, every time after. |
| `BoardProtocol.StampSays` | src/coding_review_agent_loop/board_change.py:1825-1884 | What a stamp carries: initializations when there are any, the binding of the board or of its segment base, and the contract in force when the record bears one. |
| `BoardProtocol.DiffersExact` | src/coding_review_agent_loop/board_change.py:1727-1735 | Under one policy and one set of rules a configured board is a change exactly when it is not compatible with the view. |
| `BoardProtocol.CandidateIsNew` | src/coding_review_agent_loop/board_change.py:1742-1793 | A candidate link repeats no earlier link. |
| `BoardConvergence.RecordingConverges` | src/coding_review_agent_loop/board_change.py:1727-1793 | Over any resolved history, written by anybody, the candidate link resolves exactly when its initializations contradict none recorded; the configured board is then current and no second link is proposed. |
| `BoardConvergence.GrownRecordingConverges` | src/coding_review_agent_loop/board_change.py:1727-1793 | Over every grown history the candidate link always resolves, makes the configured board current and leaves nothing to propose. |
| `BoardWitness.ConflictingHistory` | src/coding_review_agent_loop/board_change.py:1666-1687 | A concrete accepted history, with a link written by hand, over which the candidate link is refused: the condition of the general theorem is needed. |
| `BoardConvergence.StampedRecordExact` | src/coding_review_agent_loop/board_change.py:1424-1556 | A record of the run under way is accepted exactly in the rounds its stamp covers: from its element on, and before an amendment posted since takes effect. |
| `BoardConvergence.NeverStuck` | src/coding_review_agent_loop/board_change.py:1193-1873 | From every grown history a run started under any configured board can post a coder record that is accepted. |
| `BoardConvergence.AmendmentMustWaitForLink` | src/coding_review_agent_loop/board_change.py:1567-1584 | An amendment valid on the current board of a grown history is always admitted, and a run started on it can post an accepted record exactly when no link was pending. |
| `BoardWitness.WedgedHistory` | src/coding_review_agent_loop/board_change.py:1567-1584 | A concrete link and removal, both accepted, after which no run can post a record. |
| `BoardFreshness.AbsenceNeverForgiven` | src/coding_review_agent_loop/board_change.py:925-952 | A seat that was off the board has a freshness round no earlier than the element that last brought it back, across links, supersessions and restorations. |
| `BoardFreshness.FreshExact` | src/coding_review_agent_loop/board_change.py:925-952 | The freshness round of a seat is the highest effective round among the elements that brought it onto the board, rebound it against the old board they record, or moved the primary role from or to it; without one, or off the board, it has none. |
| `BoardFreshness.ChangeExact` | src/coding_review_agent_loop/board_change.py:550-564 | A described change lists exactly the seats that came, that went, and that stayed but were rebound, each once. |
| `BoardInForce.GrownInForce` | src/coding_review_agent_loop/board_change.py:1732-1795 | Over grown histories every link records as its old board the board in force, with all bindings recorded by then. |
| `BoardInForce.GrownFreshExact` | src/coding_review_agent_loop/board_change.py:925-952 | Over grown histories the same freshness round, told by comparing each element with the board in force before it. |
| `BoardRecords.CarriedExact` | src/coding_review_agent_loop/board_change.py:1424-1556 | An element is carried exactly when some record that is stamped, or of substance with a contract, has it as the last element that governs it. |
| `BoardRecords.PendingExact` | src/coding_review_agent_loop/board_change.py:1558-1614 | A signed amendment, or a link, is pending exactly when no such record was posted after it in its rounds. |
| `BoardExplained.WalkExact` | src/coding_review_agent_loop/board_change.py:1389-1556 | The second pass accepts a history and ends with given bindings exactly when these are the bindings recorded in it and every comment fits what was recorded up to it. |
| `BoardExact.CollectExact` | src/coding_review_agent_loop/board_change.py:755-800 | Collection accepts exactly well-formed links and amendments and keeps, in comment order, the first post of each. |
| `BoardExact.ElementsExact` | src/coding_review_agent_loop/board_change.py:1270-1378 | The elements are accepted exactly when each extends those before it: a link by root, digest and round, an amendment within its segment base; an amended board has the base's seats. |
| `BoardMeaning.ResolveExact` | src/coding_review_agent_loop/board_change.py:1193-1626 | Resolving a history yields exactly the one lineage it means, by a definition without passes or loops, and refuses exactly a history that means none. |
| `Sharding.Partition` | ci/managed/ci_shard_plugin.py:116-128 | The allocation loop over loads and groups computes the specified groups, sorted. |
| `Sharding.PartitionCovers` | ci/managed/ci_shard_plugin.py:116-134 | The groups always pass the exactly-once check. |
| `Sharding.PartitionByMembers` | ci/managed/ci_shard_plugin.py:116-128 | The partition depends only on the set of ids. |
| `ShardBounds.ListSchedulingBound` | ci/managed/ci_shard_plugin.py:123-127 | In any order the heaviest of m shards is at most (2 - 1/m) times the best possible. |
| `ShardBounds.CountBound` | ci/managed/ci_shard_plugin.py:123-127 | Heaviest first, a shard of c tests and load L has L(mc - m + 1) <= mc times the best possible. |
| `ShardBounds.LongestFirstBound` | ci/managed/ci_shard_plugin.py:123-127 | Heaviest first, the heaviest shard is at most (4/3 - 1/(3m)) times the best possible. |
| `ShardOptimality.PartitionNearOptimal` | ci/managed/ci_shard_plugin.py:116-128 | All three bounds for the real shards against every other split of the collection. |
| `Sharding.UnrecordedIsAverage` | ci/managed/ci_shard_plugin.py:116-121 | A recorded test weighs its duration; any other weighs the average over the whole collection, or 1 when no test of it has a record. |
| `ShardVerify.Verify` | ci/managed/ci_shard_verify.py:61-133 | No problem is reported exactly when the run succeeded, every file is a manifest of it, the highest attempts are the shards 1..count, agree on the collection and cover it. |
| `ShardVerify.BestManifests` | ci/managed/ci_shard_verify.py:85-93 | The selection loop keeps the first manifest of each highest attempt and reports exactly the ties it meets. |
| `ShardEndToEnd.ChosenIsUniqueHighest` | ci/managed/ci_shard_verify.py:85-93 | Without a tie, a chosen manifest is the only one of its shard at the highest attempt. |
| `ShardEndToEnd.ChosenOkMeansCover` | ci/managed/ci_shard_verify.py:107-133 | For manifests of one collection the final checks say exactly that the shards cover it, each test once. |
| `ShardEndToEnd.AcceptanceCovers` | ci/managed/ci_shard_verify.py:61-133 | Acceptance implies that the chosen manifests are a disjoint exact cover of the collection that the first of them names. |
| `ShardEndToEnd.AcceptsExact` | ci/managed/ci_shard_verify.py:61-133 | The shards qualify exactly when the matrix succeeded, every file is a manifest of this run and head without repeats in its list, no repeated attempt was met, the manifests name exactly the shards 1 to N, and the chosen ones describe one collection that they select exactly once between them. |
| `ShardEndToEnd.PartitionAccepted` | ci/managed/ci_shard_plugin.py:237-262 | Manifests built from one partition are accepted, each shard having written any number of distinct attempts, in whatever order their files are read. |
| `ShardFileOrder.FileOrderMatters` | ci/managed/ci_shard_verify.py:85-93 | Attempts 1, 1, 2 of a shard are refused and 2, 1, 1 accepted: the verdict depends on file order. |
| `ShardFileOrder.AcceptedInEveryOrderExact` | ci/managed/ci_shard_verify.py:61-133 | A set of files is accepted in every order exactly when it is accepted in this one and repeats no attempt of a shard. |
| `ShardFileOrder.AcceptedInSomeOrderExact` | ci/managed/ci_shard_verify.py:61-133 | A set of files is accepted in some order exactly when it is accepted with the highest attempts read first; otherwise every order is refused. |
| `FlagParser.ParseFlags` | src/coding_review_agent_loop/coder_ci_guard.py:79-127 | The tokenizer loop over argv and short groups computes the specified positionals, flags and indexes. |
| `FlagSpellings.SpellingsReadBack` | src/coding_review_agent_loop/coder_ci_guard.py:79-127 | Any mix of grouped, attached, equals, separate and long spellings reads back as exactly the flags and positionals it was written from. |
| `FlagSpellings.EveryArgvIsSpelled` | src/coding_review_agent_loop/coder_ci_guard.py:79-127 | Every command line is some spelling, so the round trip covers all inputs. |
| `FlagSpellings.IndexesPoint` | src/coding_review_agent_loop/coder_ci_guard.py:84-85 | Every reported index increases and points at its positional in argv. |
| `CommandGuard.ClassifyCiTrigger` | src/coding_review_agent_loop/coder_ci_guard.py:148-162 | The classifier computes the specified verdict. |
| `CommandGuard.ClassifyApi` | src/coding_review_agent_loop/coder_ci_guard.py:130-145 | The flag loop finds the last method and whether a body flag occurs. |
| `CommandGuard.ApiCommandVerdict` | src/coding_review_agent_loop/coder_ci_guard.py:148-162 | A gh api command is judged on what its own argv says, however it and the flags before it are spelled. |
| `CommandGuard.ApiSpellingsAgree` | src/coding_review_agent_loop/coder_ci_guard.py:130-162 | Two spellings of a gh api command with the same positionals and flag roles get one verdict. |
| `CommandGuard.PlainSpellingsAgree` | src/coding_review_agent_loop/coder_ci_guard.py:148-162 | Outside gh api only the positionals decide, in any spelling. |
| `CommandGuard.PlainVerdict` | src/coding_review_agent_loop/coder_ci_guard.py:144-162 | For every written command line: workflow run exactly when its first two words say so, run rerun likewise, an API trigger only behind api, and nothing else. |
| `CommandGuard.ApiVerdictExact` | src/coding_review_agent_loop/coder_ci_guard.py:126-143 | An api command triggers exactly when its endpoint dispatches and the verb named last, or else POST with a body and GET without, upper-cases to POST. |
| `CommandGuard.ApiLongFlags` | src/coding_review_agent_loop/coder_ci_guard.py:61-71 | After a long flag of gh api the next word is its value exactly for the value flags there are. |
| `CommandGuard.ApiShortFlags` | src/coding_review_agent_loop/coder_ci_guard.py:61-71 | The same for the shorthands of gh api. |
| `CommandGuard.MainFlags` | src/coding_review_agent_loop/coder_ci_guard.py:61-66 | Before the command word only -R and --repo take a value. |
| `ArtifactNames.ParseExact` | ci/managed/attestation.py:45-60 | Parsing an artifact name yields an id and attempt exactly when the id is valid, the attempt is 1 to 999999 and the name is the one printed for them, even if the id contains "-attempt-". |
| `AttestationVerify.ValidateExpected` | ci/managed/attestation.py:114-142 | No error exactly when the expected set reads as 1 to 256 entries with distinct ids and job names. |
| `AttestationVerify.ValidateRecord` | ci/managed/attestation.py:67-98 | No error exactly for a record of the exact schema. |
| `AttestationVerify.SelectCurrent` | ci/managed/attestation.py:170-185 | Selects exactly the artifacts that claim an id in this attempt; no error exactly when every attestation name parses to an attempt up to this one. |
| `AttestationVerify.MarkDuplicates` | ci/managed/attestation.py:214-218 | No error is left exactly when there was none and no id is claimed twice. |
| `AttestationVerify.ReadRecords` | ci/managed/attestation.py:187-213 | No error exactly when every selected artifact is one valid record of its own expected id. |
| `AttestationVerify.CheckEntries` | ci/managed/attestation.py:220-237 | Entry checks; an entry without a record is passed over exactly when its artifact was seen. |
| `AttestationVerify.VerifyApiJobs` | ci/managed/attestation.py:244-256 | No error exactly when every job is named and each entry has one successful job of its name. |
| `AttestationVerify.VerifyNeeds` | ci/managed/attestation.py:259-271 | No error exactly when every need succeeded and every expected key is present. |
| `AttestationVerify.RecordExact` | ci/managed/attestation.py:67-98 | A record that fits the name and matches the entry is, field by field, the one that entry's job writes. |
| `AttestationVerify.Verify` | ci/managed/attestation.py:151-241 | The loops report nothing exactly when the declarative verdict holds: each expected entry attested once by its own genuine record, nothing else, all jobs and needs green. |
| `AttestationVerdict.OrderIgnored` | ci/managed/attestation.py:151-241 | The verdict does not depend on artifact order. |
| `AttestationVerdict.EarlierAttemptsIgnored` | ci/managed/attestation.py:170-185 | Artifacts of earlier attempts, or of somebody else, change nothing wherever they appear. |
| `AttestationVerdict.HonestRunAccepted` | ci/managed/attestation.py:274-285 | A green run whose jobs all wrote their records passes exactly while its attempt number fits six digits. |
| `AttestationMeaning.AcceptsExact` | ci/managed/attestation.py:114-271 | The verdict, spelled out in the decoded JSON and the artifact names: the expected set reads as distinct entries, each attested by exactly one artifact of this attempt, every other attestation is of an earlier attempt, each job is there once and green, and all needs are green. |
| `AttestationMeaning.RecordExact` | ci/managed/attestation.py:67-98 | A record is valid exactly when it is the nine schema fields and no others, each well formed. |
| `AttestationMeaning.FitsExact` | ci/managed/attestation.py:187-213 | A record fits its claim exactly when the artifact is one file that decodes to a valid record of that id and attempt. |
| `AttestationText.IdPattern` | ci/managed/attestation.py:45 | Which texts are attestation ids, by their characters. |
| `AttestationText.ShaPattern` | ci/managed/attestation.py:46 | Which texts are commit ids. |
| `AttestationText.RepoPattern` | ci/managed/attestation.py:47 | Which texts name a repository. |
| `AttestationText.NeedsKeyPattern` | ci/managed/attestation.py:49 | Which texts are keys of needs. |
| `Listing.BoundedTextExact` | src/coding_review_agent_loop/architecture_context.py:896-902 | A text that does not fit is cut to exactly its limit. |
| `Listing.FitListing` | src/coding_review_agent_loop/architecture_context.py:924-942 | The prefix-sum loop returns the specified listing. |
| `Listing.FitExact` | src/coding_review_agent_loop/architecture_context.py:924-942 | A listing is never over budget, is complete exactly when the complete one fits, and otherwise shows as many lines as can fit with the count of the rest. |
| `RenderBudget.MemberIndexExact` | src/coding_review_agent_loop/architecture_context.py:974-988 | The member index is the full one exactly when that fits, and never over budget. |
| `RenderBudget.OverviewCases` | src/coding_review_agent_loop/architecture_context.py:1084-1106 | The four ways the overview can end, and when. |
| `RenderBudget.CompleteExact` | src/coding_review_agent_loop/architecture_context.py:1050-1106 | Nothing optional is lost exactly when identity, both indexes and the overview with its reserve fit; then everything is shown. |
| `RenderBudget.RootOnlyAllOrNothing` | src/coding_review_agent_loop/architecture_context.py:1072-1106 | Without a member index a long overview is never shown in part: it collapses to the identity and a status line. |
| `RenderBudget.CutOverviewFills` | src/coding_review_agent_loop/architecture_context.py:1072-1106 | Beside a member index a long overview is cut so that the rendering fills the budget exactly. |
| `RenderBudget.OversizedBounded` | src/coding_review_agent_loop/architecture_context.py:1005-1025 | An oversized snapshot stays within budget with its identity in front; nothing is lost exactly when every index it has fits, with or without headings, and then all of it is shown. |
| `RenderBudget.RenderBounded` | src/coding_review_agent_loop/architecture_context.py:1028-1047 | For every snapshot and budget the rendering is within it and starts with the whole identity whenever that fits. |
| `RenderBudget.SummariesAreFree` | src/coding_review_agent_loop/architecture_context.py:1041-1047 | Member summaries appear only in a complete rendering and never cost other material. |
| `RenderBudget.PairKeepsIdentities` | src/coding_review_agent_loop/architecture_context.py:1140-1172 | A pair renders exactly when the comparison and both identities fit, keeps all three within the budget, and never reaches the structural error. |
| `RenderExact.MemberIndexShows` | src/coding_review_agent_loop/architecture_context.py:974-988 | The member index shows as many members as fit beside the count of the rest, else a notice of how many there are, else nothing. |
| `RenderExact.MembersOutlastSections` | src/coding_review_agent_loop/architecture_context.py:1050-1106 | The section index goes before any member: when everything but the sections fits with the reserve, all members are listed beside an overview. |
| `RenderExact.OverviewOutlastsMembers` | src/coding_review_agent_loop/architecture_context.py:1072-1106 | Members yield before the overview: as long as a notice of them leaves room for it, an overview is shown. |
| `RenderExact.OversizedShows` | src/coding_review_agent_loop/architecture_context.py:1005-1025 | An oversized snapshot shows its members, then as many sections as fit in what is left, else the notice that there are some, else nothing. |
| `RenderExact.OversizedSummariesAreFree` | src/coding_review_agent_loop/architecture_context.py:991-1002 | Summaries of an oversized snapshot appear exactly when nothing at all is lost with them. |
| `RenderExact.PairShowsBoth` | src/coding_review_agent_loop/architecture_context.py:1140-1172 | A pair shows each side complete whenever each fits its identity and half of what the mandatory parts leave over. |
| `Membership.MatchesByComponents` | src/coding_review_agent_loop/architecture_context.py:146-150 | The text test for an exclusion agrees with matching component by component. |
| `Membership.ExtensionExcluded` | src/coding_review_agent_loop/architecture_context.py:146-150 | An excluded path stays excluded under any extension. |
| `Membership.RefusedExactlyWhenBarren` | src/coding_review_agent_loop/architecture_context.py:180-200 | A detail directory is excluded exactly when no member could lie in it. |
| `Membership.ConstructExact` | src/coding_review_agent_loop/architecture_context.py:166-189 | A policy is accepted exactly when its lists are within their caps and every detail directory can contribute a member. |
| `Membership.MemberExact` | src/coding_review_agent_loop/architecture_context.py:194-200 | A member is a Markdown file other than the root, inside a detail directory and outside every exclusion. |
| `CheckoutLedger.Ledger.VerifyCheckout` | src/coding_review_agent_loop/checkout_verification.py:831-873 | New ledger and result of a verification, including self-establishment on a clean first observation and poisoning on unhealthy sources. |
| `CheckoutLedger.Ledger.RecordCheckoutBaseline` | src/coding_review_agent_loop/checkout_verification.py:798-828 | New ledger and result of a refresh; poison is kept, a failed capture poisons. |
| `CheckoutLedger.Ledger.EstablishInitialBaseline` | src/coding_review_agent_loop/checkout_verification.py:787-795 | New ledger and result of a startup establishment, which alone rewrites the root identity. |
| `CheckoutLedger.Ledger.RefreshAfterSync` | src/coding_review_agent_loop/checkout_verification.py:897-912 | New ledger and result after a sync. |
| `CheckoutLedger.Ledger.GateWindow` | src/coding_review_agent_loop/checkout_verification.py:915-933 | New ledger and result of a whole gate window. |
| `CheckoutLedger.Ledger.AdoptGateArtifacts` | src/coding_review_agent_loop/checkout_verification.py:936-961 | Adopts what a gate left behind exactly when it only added entries, and poisons otherwise. |
| `CheckoutLedger.Ledger.PoisonCheckout` | src/coding_review_agent_loop/checkout_verification.py:485-488 | Poisons the entry and records a first root identity. |
| `CheckoutLedger.Ledger.ForgetCheckout` | src/coding_review_agent_loop/checkout_verification.py:466-472 | Drops the entry and its root identity. |
| `CheckoutRuns.EntryFollowsLog` | src/coding_review_agent_loop/checkout_verification.py:787-961 | After every sequence of operations the ledger holds exactly what the log says: poisoned when tainted, else the last accepted fingerprint. |
| `CheckoutRuns.VerifyExact` | src/coding_review_agent_loop/checkout_verification.py:831-873 | A verification passes exactly when the sources are healthy, the path is untainted, the root is the recorded one, and the checkout is the one last accepted or a clean first observation. |
| `CheckoutRuns.RecordExact` | src/coding_review_agent_loop/checkout_verification.py:798-828 | Over every run: a refresh does nothing to a tainted path, poisons a trusted one unless sources, environment and capture are all sound, and otherwise accepts the capture; it records at most a first root. |
| `CheckoutRuns.EstablishExact` | src/coding_review_agent_loop/checkout_verification.py:787-795 | Over every run: a startup establishment accepts exactly what it captures in a ready environment, and the recorded root is then the one it saw. |
| `CheckoutRuns.RefreshExact` | src/coding_review_agent_loop/checkout_verification.py:897-912 | Over every run: after a sync a known path is refreshed, and poisoned when that fails; an unknown one is established. |
| `CheckoutRuns.GateExact` | src/coding_review_agent_loop/checkout_verification.py:915-961 | Over every run: a gate is adopted exactly when its verification passed and it changed nothing that was there; any other end of a begun gate poisons. |
| `CheckoutRuns.PoisonForgetExact` | src/coding_review_agent_loop/checkout_verification.py:466-488 | Over every run: poison is taken as it comes, with a first root; a forgotten path leaves nothing behind. |
| `CheckoutRuns.PoisonIsSticky` | src/coding_review_agent_loop/checkout_verification.py:798-912 | Once poisoned, nothing is accepted for a path until a startup establishment or a forget. |
| `CheckoutRuns.GatesOnlyAdd` | src/coding_review_agent_loop/checkout_verification.py:915-961 | Any run of passing gates keeps branch, HEAD, staged state and every earlier dirty entry. |
| `CheckoutRuns.RootIsPinned` | src/coding_review_agent_loop/checkout_verification.py:86-122 | A recorded root identity is not rewritten, and no verification passes on another directory, until the path is cleared. |
| `CheckoutRuns.PoisonInsideGate` | src/coding_review_agent_loop/checkout_verification.py:915-961 | Taken apart, a gate window forgives poison that arrives between the verification that opened it and its end, unless its own capture failed or changed what that verification accepted. |
| `CheckoutRuns.PoisonForgiven` | src/coding_review_agent_loop/checkout_verification.py:936-961 | A concrete run: baseline, verification, poison, adoption of one new file, and the path is trusted again. |
| `EvidenceCollection.CollectEvidence` | src/coding_review_agent_loop/evidence_reconciliation.py:52-81 | The collected observations are exactly the claims of the structured votes, citations only as reported; when no reviewer votes twice in a round, ids are distinct and rounds rise. |
| `EvidenceCollection.ClaimPosition` | src/coding_review_agent_loop/evidence_reconciliation.py:58-75 | Posting order: each claim stands behind those of earlier rounds, of earlier votes, and before it in its vote. |
| `EvidenceCollection.IdDetermines` | src/coding_review_agent_loop/evidence_reconciliation.py:48-49 | An observation id determines its round, reviewer and index. |
| `EvidenceCollection.RevisionPosition` | src/coding_review_agent_loop/evidence_reconciliation.py:76-80 | Each revision of a structured vote is one update by its reviewer in its round, in posting order. |
| `EvidenceCollection.ApplyUpdates` | src/coding_review_agent_loop/evidence_reconciliation.py:118-126 | An observed id is inactive exactly when some update names it, under the last update that does; every update of an unknown id warns. |
| `EvidenceCollection.ReadAliases` | src/coding_review_agent_loop/evidence_reconciliation.py:127-136 | An id is aliased exactly when some group contains it, to the first member of the last group that does. |
| `Evidence.GroupObservations` | src/coding_review_agent_loop/evidence_reconciliation.py:137-160 | The grouping loop computes the specified table and history. |
| `EvidenceGroups.GroupsExact` | src/coding_review_agent_loop/evidence_reconciliation.py:137-160 | There is a group for exactly the keys with active observations; it holds exactly those, with one status and each contributor and round once. |
| `EvidenceGroups.Conserved` | src/coding_review_agent_loop/evidence_reconciliation.py:137-160 | Every observation lands exactly once, in one group or in history. |
| `EvidenceCollection.KeysNeverMeet` | src/coding_review_agent_loop/evidence_reconciliation.py:147-151 | No observation outside the semantic groups ever shares a key with one inside: normalized text has no capital letter, and every leader id carries a capitalised reviewer name. |
| `EvidenceCollection.SemanticMembers` | src/coding_review_agent_loop/evidence_reconciliation.py:137-160 | A semantic group holds exactly the active observations that stand under its leader and have its status. |
| `EvidenceExact.TextualTogether` | src/coding_review_agent_loop/evidence_reconciliation.py:147-153 | Two active observations that no semantic group names share a group exactly when normalized fact, normalized source and status all agree. |
| `EvidenceExact.SemanticTogether` | src/coding_review_agent_loop/evidence_reconciliation.py:127-153 | Two that semantic groups name share a group exactly when the last groups naming them have one leader and their statuses agree. |
| `EvidenceExact.NeverTogether` | src/coding_review_agent_loop/evidence_reconciliation.py:144-153 | One of each never share a group. |
| `EvidenceExact.SourcesExact` | src/coding_review_agent_loop/evidence_reconciliation.py:155-156 | A group lists, in order, the clipped source of each member that has one no earlier member's source clips to. |
| `EvidenceExact.ListedTwice` | src/coding_review_agent_loop/evidence_reconciliation.py:155-156 | A group lists a source twice exactly when a source over the cap comes again. |
| `EvidenceExact.SourceListedTwice` | src/coding_review_agent_loop/evidence_reconciliation.py:155-156 | Two observations of one fact from one source over the cap: their group lists the clipped source twice. |
| `EvidenceExact.HistoryExact` | src/coding_review_agent_loop/evidence_reconciliation.py:137-143 | History keeps each withdrawn observation once, in posting order, with the last update that names it. |
| `EvidenceBudget.RenderEvidence` | src/coding_review_agent_loop/evidence_reconciliation.py:169-176 | The rendering loop computes the specified list. |
| `EvidenceBudget.RenderedMaximal` | src/coding_review_agent_loop/evidence_reconciliation.py:169-176 | At most 50 items and 16000 bytes, and nothing left out would still fit at the end. |
| `EvidenceBudget.RenderedInOrder` | src/coding_review_agent_loop/evidence_reconciliation.py:169-176 | What is rendered stands in the order of the report. |
| `EvidenceBudget.BoundedCandidates` | src/coding_review_agent_loop/evidence_reconciliation.py:84-110 | The selection loop computes the specified candidates. |
| `EvidenceBudget.SelectedMaximal` | src/coding_review_agent_loop/evidence_reconciliation.py:84-110 | At most 64 distinct candidates and 24000 bytes, and none left out would still fit at the end. |
| `EvidenceBudget.CandidatesMaximal` | src/coding_review_agent_loop/evidence_reconciliation.py:84-110 | The candidates are distinct observations within both caps, and no observation left out would still fit at the end. |
| `EvidenceBudget.NewestFirst` | src/coding_review_agent_loop/evidence_reconciliation.py:84-110 | Targets of updates come first, latest update first, then the other observations, newest first. |
| `EvidenceReport.ReconcileEvidence` | src/coding_review_agent_loop/evidence_reconciliation.py:113-183 | The report is sorted, accounts for every observation once, shows a maximal part and counts what it omits; one warning for each dangling update. |
| `EvidenceReport.SortedInOrder` | src/coding_review_agent_loop/evidence_reconciliation.py:161-166 | Groups stand by status, then newest round first, then fact; history by round, newest first, then id. |

## Left out

- Fetching comments, author checks, base64 and JSON transport, comment wording: a history is a sequence of decoded records, links and amendments; several records in one comment are separate comments here.
- Surface numbers, `kind` and `schema` fields of links and records: transport checks that refuse before the modelled logic.
- Hashing and canonical JSON: digests are injective.
- The contracts' own constructor checks and the check of named outage amendments: opaque predicates `contractOk` and `outageOk`.
- Normalization of broad-path rules, repository paths and directories: inputs are already normalized.
- Which error is raised and its message: only acceptance and refusal; findings of verifiers are kept as problem values without their wording or order.
- Legacy root derivation, carried-over anchors and pre-epoch panels in `board_change.py`: a root is given, and neutral staged summaries are a flag on the record.
- Floor authorizations, posters and the `last_seen` output of a resolved lineage: not part of the lineage value.
- Two runs under way at once on one surface: posting a link, which belongs to starting up, ends the run before it.
- Comment positions in `ContractHistory`: records arrive sorted by comment, as the original sorts them first.
- Floating-point rounding of durations: weights are reals.
- Manifests whose `shard_index` or `run_attempt` is not an integer: such a manifest is outside the model.
- `CommandGuard`: the dispatch-endpoint pattern and upper-casing are parameters of the verdict, so their own definitions are not modelled.
- `AttestationVerify.Verify`: decoding of a record file, with its size cap, is a parameter, and identities whose type is wrong altogether (a run id that is a string) are outside the model.
- Text sanitizing, headings, member lines and the identity block in the renderer: inputs, already sanitized and sorted.
- `CheckoutRuns.GatesOnlyAdd`: gates are atomic; `CheckoutRuns.PoisonInsideGate` says what is lost when they are not.
- Git probes, file hashing, worktree links and shared-source health in `checkout_verification.py`: what they find is the `Sight` given to each operation. Dry runs, which do nothing, are not modelled.
- Locks, and changes of the world during an operation: every ledger operation is one step that sees one state of the checkout and of its root.
- Byte clipping, text normalization and JSON sizes in evidence: parameters, of which only the case folding and the idempotence of clipping are used; the statuses are the three the protocol parser admits. Discussions take no named seats, so reviewers go by capitalised backend names (`src/coding_review_agent_loop/cli.py:2949`).
- `agent_permissions.py`, `agent_executable.py`, `agent_failure.py`, `checks.py`, `ci_health.py`, capture and plan-resume modules: process launching, wording and flat tables.
