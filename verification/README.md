# ATLAS and Foreman: a verified model

This project models, in Dafny, the parts of the repository whose behaviour is decided by its own
code rather than by a library: the ingest of growing transcripts and ledgers into the warehouse
(`atlas/ingest`), the trust-gated query facade (`atlas/query/facade.py`), the resolution of paths
to declared components and the freeze gate built on it (`bollard`, `atlas/registry`,
`atlas/hookclient`), and three small state machines (the turn gate, the review binding and the
reconciliation of the gaming families). Nothing was executed: every statement below is a theorem
about the model, and the model follows the cited lines.

`dafny verify dfyconfig.toml` checks the whole project.

## What is proved

**Ingest** (`Sequences`, `StreamTail`, `TailRuns`, `Transcript`, `TranscriptStore`, `SessionPull`,
`SessionRuns`, `SubagentPull`, `SubagentRuns`, `LateVerdicts`, `LateVerdictRuns`, `CredentialAcks`,
`PlaneListings`, `RebuildRuns`, `QuarantineLog`). Files are byte sequences that other processes only append to; the tables are maps;
the connection is a pair of states, committed and working.

- A file tailed in any number of passes, cut at any bytes, leaves the tables of one pass over its
  final bytes, and every complete line in exactly one counter of one pass's report. A pass raises
  exactly when it meets a faulting line, and then meets it for ever.
- After any history of session pulls, whatever crashes at whatever line and wherever a run is
  killed, every transcript's durable calls, texts and blocks are exactly the first occurrences below
  its watermark. The replay alarm and the key collision never fire, and a rollback takes whole files.
- Such a pull fails exactly where a crash is injected, a line raises beyond the guard, or a row that is
  no repeat holds a column the table does not take; the transcript then stays where it is for good.
- The subagent pull lacks that. A transcript can be read past if and only if no new line raises by
  itself, in decoding, in mapping or at a column its table does not take, and no row of a new line is
  stored; an exception between any two statements spoils that if
  and only if a text or a call had been inserted; and once it is spoiled no later pull succeeds, every
  run that comes to the transcript ends in error, and what follows it in the order is not read.
- Late verdicts are confluent: however appends, verdicts, pulls with stale verdict sets, pulls broken
  off and reconciliations interleave, a final reconciliation leaves what one pull with all verdicts
  stores of the rows inserted so far.
- A rebuild restores acknowledgements exactly, call by call, if and only if no call carries two
  differently hashed saved payloads. The count after rebuilding, re-pulling under any new row ids and
  restoring is given exactly after any history, broken-off pulls included: besides what transcripts that
  were not read to their end both times hold, it can rise only by remedies the earlier plane still lacked
  and by calls with two saved payloads. With every transcript read and reconciled it never does.
- The quarantine log reads back what it held first and then, in order, what landed of each record if
  and only if no bytes of a record land behind a torn tail that its writer had not seen; every record
  that then landed whole is a whole line.

**Queries** (`ViewClosure`, `QueryFacade`). The closure with its path-local visited set is exactly
the set of base tables reachable through no plumbing view, on any finite graph, cyclic or not. A
guarded fetch is one version's answer although a writer may commit before each of its reads.

**Components and the freeze gate** (`ComponentBlocks`, `ComponentResolvers`, `EdgeIds`, `GoalsPath`,
`FreezeGate`, `RootMatching`, `BashTargets`). The two block parsers agree, rendered maps parse back,
the two resolvers differ exactly on paths that fall between two readings of a declaration, two
components share a criteria file exactly when their unshared roots spell one directory two ways
(through ".", "..", doubled slashes or, on a disk that folds it, letter case) or their shared roots and
their own names are one on such a disk, the gate's three passes have a closed form on the set of
targets, and the Bash extractor emits what a shell that runs the segments in order writes, less exactly
the relative targets after a `cd` it could not follow.

**State machines** (`TurnGate`, `ReviewBinding`, `GamingFamilies`). Allowed orchestrator stops never
outnumber the evidence written; blocks in a row are bounded by the ceiling plus the state writes that
failed; a review is bound exactly when it is what was last stamped and its last label outside code
names the architecture as it is; the families reconcile exactly when claimed events have unique keys.

## Assumptions

- SQLite: a deferred transaction pins its snapshot at its first read, a read outside one sees the
  latest commit, and the first write opens a transaction that `rollback` undoes whole.
- SHA-256 is collision free. Stream identities are therefore the digested bytes themselves; the
  freeze gate and the review binding take an injective hash as a premise where they need one.
- JSON decoding and encoding, regular expressions over SQL and shell text, `Path.resolve` and the
  character classes are parameters. What a round trip needs of them is a named premise, as is that
  `json.loads` ignores the newline that `readline` leaves on a line. A value that was decoded can be
  encoded again, and is no NaN or infinity.
- sqlite3 binds everything but lists, objects, integers past 64 bits and text with a lone surrogate.
  The NOT NULL and CHECK constraints of the text, call and block tables are a parameter (their DDL is
  not part of this model); the result tables refuse a row only for its key.
- Transcripts and ledgers only grow, except where a theorem says that a file is replaced. Numeric
  tool-use ids and record uuids are compared as JSON values.
- The directories that declarations name exist and are not symbolic links, so that ".." leads back out
  of the directory before it.
- The result tables are keyed by (transcript, tool-use id), as
  `atlas/ingest/tests/test_credential_scan_deny_text.py` declares them.
- A disk that does not tell letter case (`bollard/component_coupling.py:626-628` names one) folds names
  letter by letter; a disk that does is the fold that changes nothing.
- Evidence files carry no time later than the stop that sees them, and the clock does not go back.

## Where the code and its documentation differ

The model follows the code. These are theorems, not remarks.

- `tail` promises never to raise on a malformed line (`atlas/ingest/stream.py:207-208`) but catches
  only `JSONDecodeError` (line 269): a line that is not UTF-8 leaves by `UnicodeDecodeError`, the
  watermark stays, and every later pass meets it again (`TailRuns.FaultyLineIsATrap`).
- `tail` digests the first 4096 bytes, so a shorter file changes identity when it grows and is read a
  second time from zero (`TailRuns.ShortFileIsReadTwice`); `transcript_parse.stream_id_of_path` does
  not have this (`Transcript.IdentityIsStable`).
- The session pull says that a rollback discards exactly the crashed file's work
  (`atlas/ingest/session_pull.py:49-52`), but a file that stored only blocks or moved only its
  watermark is not committed (line 474) and can be rolled back by a later file's crash
  (`SessionRuns.CrashCanTakeAnEarlierFile`); it is always whole files that go.
- Text holding a lone surrogate raises `UnicodeEncodeError`, which the per-line guard
  (`atlas/ingest/session_pull.py:247-251`) does not catch, and a list, an object or an integer past 64
  bits in a copied column raises at the unguarded INSERT: the transcript is stuck at that line
  (`SessionRuns.UncaughtLineIsATrap`).
- The subagent pull's error path commits the rows of the crashed file without its watermark
  (`atlas/ingest/subagent_pull.py:687-701`), the defect the session pull was cured of
  (`SubagentPull.CrashTrapsIff`, `SubagentPull.TrappedForEver`).
- The subagent pull says it never raises on a malformed line (`atlas/ingest/subagent_pull.py:345`), but
  it guards only the decoding: a JSON object of another shape, or text holding a lone surrogate, raises
  out of the mapping at line 409, and a list for a timestamp maps without complaint and raises at the
  INSERT. Either traps the transcript, and with it the run, for good (`SubagentPull.ReadableIff`,
  `SubagentPull.ListTimestampRaises`, `SubagentRuns.TrappedFailsEveryRun`).
- The subagent pull says a file whose head changed is re-read from zero
  (`atlas/ingest/subagent_pull.py:367-371`). If that pull fails, the new identity is on record with the
  old watermark, and the lines below it are never read (`SubagentPull.ReplacedFileLosesItsHead`).
- `reconcile_deny_text` says unreadable lines are not retried (`atlas/ingest/subagent_pull.py:161-164`);
  their rows stay candidates, so they are (`LateVerdicts.UnreadableIsTriedAgain`).
- The freeze gate is described as failing towards deny, but a criteria file that is JSON of another
  shape, or not UTF-8, raises and `run_body` then lets the tool proceed. Beside a target that would be
  denied, the order of the targets decides (`FreezeGate.ContestedOrderMatters`).
- The orchestrator branch passes a `claimed_at` of NaN through `float`
  (`bollard/pdp_turn_gate.py:545-560`); Python's `max` then drops it and the first-turn floor with it (`TurnGate.NaNClaimHasNoFloor`).
- `edge_canonical_id` calls colon-joining safe because names hold no colon; the repo and the direction
  may, and then two edges share an id (`EdgeIds.ColonCollides`).

## Model

| member | source | states |
|---|---|---|
| Sequences.LinesOfGrown | atlas/ingest/stream.py:56-67 | the complete lines of a longer file are those of the shorter one and then those past its watermark: a partial line is read once, when it is whole |
| Sequences.SplitReadsLines | atlas/ingest/transcript_parse.py:104-114 | splitting the bytes past any seek on newlines gives exactly the complete lines from there, and the consumed size is the distance to the last newline |
| Sequences.LinesAreWhereTheySay | atlas/ingest/stream.py:251-253 | each line's accumulated offset is where its bytes stand in the file, newline included |
| Sequences.ReadFrom | atlas/ingest/stream.py:250-256 | seeking to the watermark, reading and splitting yields the new complete lines and the new watermark, also past the end of the file |
| StreamTail.IdentityKept | atlas/ingest/stream.py:42-49 | growth keeps the tailer's stream identity if and only if the digested head was full or nothing was added |
| StreamTail.ClassIs | atlas/ingest/stream.py:262-378 | when a line is blank, malformed, rejected, quarantined for a field that SQLite cannot bind or for a CHECK or NOT NULL of its own, or accepted, each by what its bytes decode to |
| StreamTail.FaultIs | atlas/ingest/stream.py:262-378 | a line faults exactly when it is not UTF-8, the mapper raises, or a bindable row meets a store failure, an unnamed constraint, or a constraint other than CHECK and NOT NULL |
| StreamTail.PipelineViolationsFault | atlas/ingest/stream.py:74-129 | a primary key, a unique or a foreign key violation of a bindable row is always a fault, never quarantined |
| StreamTail.StreamIdIs | atlas/ingest/stream.py:42-49 | the tailer identifies a file by its first 4096 bytes, or all of a shorter one |
| StreamTail.Warehouse.Tail | atlas/ingest/stream.py:197-406 | a pass either commits every accepted row under its true offset, the tally and the watermark at once, or raises with nothing committed and no watermark moved; it raises exactly when a line faults or a key is taken |
| StreamTail.Warehouse.IngestLine | atlas/ingest/stream.py:262-378 | each line lands in exactly one class and one counter, and only an accepted line changes the table |
| StreamTail.RowKeysAreOffsets | atlas/ingest/stream.py:259-261 | every stored key is the offset of some accepted line, so a later line's key is never taken |
| StreamTail.HistoryIs | atlas/ingest/stream.py:219-240 | a pass adds one line of history unless the identity is the recorded one: first seen, a truncation exactly when the file is shorter than the recorded watermark, else a rotation, with the earlier identity and watermark |
| TailRuns.IncrementalEqualsOnePass | atlas/ingest/stream.py:215-267 | any number of passes over a growing file, cut at any bytes, leave the tables of one pass over the final bytes, as long as the stream identity holds |
| TailRuns.RaisesExactlyOnFaultyLine | atlas/ingest/stream.py:300-378 | a pass of such a run raises if and only if a line it has not passed yet faults by itself; the primary-key branch is unreachable |
| TailRuns.FaultyLineIsATrap | atlas/ingest/stream.py:266-270 | once a pass raises, every later pass over the grown file raises too |
| TailRuns.EveryLineCountedOnce | atlas/ingest/stream.py:258-378 | without a fault, blank, inserted, skipped, rejected and quarantined add up to the number of complete lines |
| TailRuns.RowsAreAcceptedLines | atlas/ingest/stream.py:300-302 | the stored rows are exactly the accepted lines of the file, each under its own offset |
| TailRuns.ReportsAddUp | atlas/ingest/stream.py:258-406 | the reports of a run's passes add up, counter by counter, to the report of one pass over the final bytes |
| TailRuns.RunAccountsForEveryLine | atlas/ingest/stream.py:258-406 | after any run the reported counters add up to the complete lines of the file, the inserted ones are the rows stored for the stream, and `rows_ingested` is their number |
| TailRuns.ShortFileIsReadTwice | atlas/ingest/stream.py:216-248 | a file shorter than the digested head that grows has its accepted lines stored a second time under the new identity |
| Transcript.IdentityIs | atlas/ingest/transcript_parse.py:72-101 | the identity is the first line if it ends within the first 4096 bytes, those bytes if no newline is among them, and nothing yet of a shorter file without one |
| Transcript.IdentityIsStable | atlas/ingest/transcript_parse.py:72-101 | once a transcript has an identity, no append changes it |
| Transcript.NoIdentityNoLine | atlas/ingest/transcript_parse.py:72-101 | a transcript without an identity has no complete line to miss |
| Transcript.LineRowsArePlaced | atlas/ingest/transcript_parse.py:117-249 | a mapped record gives one structural row for every position of its content list and places every call and text at its own position, all with the line's offset and uuid |
| Transcript.RowsMirrorTheContent | atlas/ingest/transcript_parse.py:117-249 | a record's rows mirror its own content list both ways: a call with its encoded input for every tool_use block and only those, a text for every text block of an assistant record, a result for every call a tool_result names, a block row with the type found at every position; a record without such a list gives no rows, or raises when its message is something and no object |
| Transcript.RecordRaisesIff | atlas/ingest/transcript_parse.py:122-249 | a record with a content list maps if and only if none of its blocks has another shape or an input that cannot be encoded |
| Transcript.RaisesOnItsFirstBadBlock | atlas/ingest/transcript_parse.py:142-249 | the first block of the content that cannot be mapped decides with which kind of exception the record raises |
| Transcript.VerdictsOnlyAddRemedies | atlas/ingest/transcript_parse.py:214-248 | a larger verdict set changes nothing of a line's rows but remedies that were missing, and never the deny flag |
| Transcript.DenyIsAnOpening | atlas/ingest/transcript_parse.py:214-269 | a body is a deny if and only if what follows its wrapping characters begins with one of the five openings; the remedy is the first 4096 characters of that, also when only the ledger names the call and the body is not empty, and nothing otherwise |
| Transcript.DenyTextGrows | atlas/ingest/transcript_parse.py:214-269 | a remedy found with fewer verdicts is the same with more |
| Transcript.RefusedIs | atlas/ingest/transcript_parse.py:117-248 | a mapped record has a row that the subagent INSERT fails on by itself if and only if one of the blocks of its content list brings columns that cannot be bound or that the table refuses |
| TranscriptStore.ReadLineIs | atlas/ingest/session_pull.py:236-252 | a line gives rows exactly when it is no white space, decodes, is a JSON object and maps; what raises otherwise than by not decoding, or cannot be encoded, passes the guard, and anything else only counts as malformed |
| TranscriptStore.RowsOfLinesAre | atlas/ingest/session_pull.py:232-311 | the rows of a file are those of its lines that map, line after line, and no others |
| TranscriptStore.CheckIsSeenBefore | atlas/ingest/session_pull.py:90-119 | in file order the replay lookup answers exactly whether the record and position were seen before; it never alarms and never collides, and a row is refused only if its uuid cannot be looked up or it is no repeat and its columns cannot be stored |
| TranscriptStore.AdmitsFirstOccurrences | atlas/ingest/session_pull.py:253-311 | inserting rows in file order raises if and only if a row fails by itself, and otherwise stores exactly the first occurrences and every row without a uuid |
| SessionPull.Connection.PullSession | atlas/ingest/session_pull.py:179-369 | one pull changes only its own transcript's tables, to those of the specified pull, or raises leaving the transaction to be rolled back |
| SessionPull.Connection.PullNewLines | atlas/ingest/session_pull.py:232-311 | the line loop fails if and only if a crash fires or a line fails, and otherwise stores every line's rows in order |
| SessionPull.Connection.Run | atlas/ingest/session_pull.py:450-476 | a run leaves durable what the fold over its files leaves, with rollback on a crash and a commit only after calls, results or texts; every file is read, skipped or counted as an error |
| SessionRuns.PullKeepsInv | atlas/ingest/session_pull.py:218-369 | a pull keeps "rows are exactly those below the watermark", fails if and only if a crash is injected, a new line raises by itself or a new row cannot be stored, and keeps the first result of each call |
| SessionRuns.StoredAreFirstOccurrences | atlas/ingest/session_pull.py:90-119 | each table holds exactly the first occurrence of every (record, position) below the watermark, and every row of a record without a uuid |
| SessionRuns.UncaughtLineIsATrap | atlas/ingest/session_pull.py:247-340 | a line that raises past the guard, or one with a row that is no repeat and cannot be stored, stops its transcript for good |
| SessionRuns.RunKeepsWholeFiles | atlas/ingest/session_pull.py:450-476 | after a run each transcript is either wholly as its pull left it or wholly as before, the latter exactly when it crashed or a later crash came before any commit |
| SessionRuns.CrashCanTakeAnEarlierFile | atlas/ingest/session_pull.py:474-475 | an earlier file that stored neither calls, results nor texts is rolled back by the next file's crash |
| SessionRuns.RunKeepsInv | atlas/ingest/session_pull.py:417-476 | what every run leaves durable, finished or killed during any visit, keeps the invariant of every transcript |
| SessionRuns.EveryPointIsSound | atlas/ingest/session_pull.py:450-476 | after any number of visits both what is committed and what the open transaction holds keep it |
| SessionRuns.HistoryKeepsInv | atlas/ingest/session_pull.py:417-476 | so does every history of finished and killed runs between which the transcripts grow |
| SubagentPull.SubConnection.PullTranscript | atlas/ingest/subagent_pull.py:340-454 | one pull does the steps of its new lines up to the first exception, wherever between two statements it comes, and moves the watermark only if there is none |
| SubagentPull.SubConnection.Run | atlas/ingest/subagent_pull.py:643-701 | a run commits after each file that inserted something, stops at the first exception, and then commits what that file had inserted |
| SubagentPull.PullStoresTheRows | atlas/ingest/subagent_pull.py:372-454 | a pull that gets through stores exactly the rows its new lines map to, each under its key and with its content, leaves what was there, keeps the first result of a call, and counts the texts and calls |
| SubagentRuns.DurableIsTheLastCommit | atlas/ingest/subagent_pull.py:643-701 | at any point of a run what is durable is what the connection held after the last visit that inserted a call, a result or a text or was broken off |
| SubagentPull.ReadableIff | atlas/ingest/subagent_pull.py:372-454 | a pull without outside accident reads through and moves the watermark past every complete line if and only if it is not trapped, whatever the verdicts and also for a replaced file read from zero |
| SubagentPull.TrappedIs | atlas/ingest/subagent_pull.py:408-446 | a transcript is trapped if and only if some line past the watermark raises by itself, in decoding, in mapping or at a row its table does not take, or has a text or a call already stored |
| SubagentPull.ListTimestampRaises | atlas/ingest/subagent_pull.py:410-418 | a record whose timestamp is a list maps without complaint and raises at its INSERT |
| SubagentPull.CrashTrapsIff | atlas/ingest/subagent_pull.py:687-701 | an exception after any number of statements leaves the transcript trapped if and only if it was trapped before or a text or a call had been inserted |
| SubagentPull.TrappedForEver | atlas/ingest/subagent_pull.py:408-431 | once a transcript is trapped every later pull of the growing file fails and the watermark never moves |
| SubagentPull.ReplacedFileLosesItsHead | atlas/ingest/subagent_pull.py:327-337 | after a failed pull of a replaced file the next one starts at the old file's watermark, and the new lines below it are never read |
| SubagentRuns.RunSpoilsAtMostOne | atlas/ingest/subagent_pull.py:643-701 | at any point of a run every durable transcript has its rows below its watermark, a kill included; only an exception can spoil one, the one whose pull raised |
| SubagentRuns.BelowIsReadable | atlas/ingest/subagent_pull.py:372-446 | a transcript whose rows lie below its watermark is trapped only by a line that raises by itself, its rows' columns included |
| SubagentRuns.FromNothingReadableIff | atlas/ingest/subagent_pull.py:722-756 | from nothing, as after a rebuild, a transcript is read through if and only if none of its complete lines raises by itself |
| SubagentRuns.TrappedFailsEveryRun | atlas/ingest/subagent_pull.py:643-701 | every run that has a trapped transcript among its files ends in error, reads nothing that follows it, and leaves it trapped at the same watermark |
| LateVerdicts.ResultTable.ReconcileDenyText | atlas/ingest/subagent_pull.py:166-201 | a reconciliation re-reads exactly the rows without a remedy that the ledger calls denies, fills what the line now yields, counts them, and touches no other row |
| LateVerdicts.UnreadableIsTriedAgain | atlas/ingest/subagent_pull.py:161-186 | a row whose line was unreadable is a candidate again next time |
| LateVerdicts.RereadGivesOneShot | atlas/ingest/subagent_pull.py:180-196 | re-reading a lagging row with the current verdicts gives the row a pull with those verdicts would have stored |
| LateVerdictRuns.RunKeepsInv | atlas/ingest/subagent_pull.py:97-201 | in every reachable state, broken-off pulls included, a transcript's result rows are those of one pull of the rows inserted so far, all those below the watermark among them, some remedies still missing |
| LateVerdictRuns.FinalReconcileIsConfluent | atlas/ingest/subagent_pull.py:109-201 | after any interleaving, a reconciliation that can read every transcript cannot raise, leaves the rows of one pull with all verdicts of what was inserted, that is of the bytes below the watermark unless a broken-off pull left more, and changes nothing when repeated |
| LateVerdictRuns.PullReadsAll | atlas/ingest/subagent_pull.py:432-453 | a pull that gets through has every result of the complete lines in and its watermark past them, whatever broken-off pulls left before |
| LateVerdictRuns.DenyFlagNeverChanges | atlas/ingest/subagent_pull.py:432-446 | no event changes a stored deny flag or a remedy already present |
| CredentialAcks.Plane.UnacknowledgedHits | atlas/ingest/subagent_pull.py:457-534 | the scan counts the stored payloads that match a pattern and have no acknowledgement of their hash, payloads without a call always |
| CredentialAcks.CandidatesAreTheStoredPayloads | atlas/ingest/subagent_pull.py:523-534 | what is scanned is every stored tool input under its call and every remedy under each call it joins, or under no call when it joins none |
| CredentialAcks.HitsAre | atlas/ingest/subagent_pull.py:457-482 | the count of a scan is that of the places whose payload is something, matches and is not acknowledged under its call and hash |
| CredentialAcks.Plane.Rebuild | atlas/ingest/subagent_pull.py:722-756 | the plane is emptied, watermarks included, and every acknowledgement is handed back, none invented |
| CredentialAcks.Plane.RestoreCredentialAcks | atlas/ingest/subagent_pull.py:759-801 | each saved acknowledgement goes to every call carrying its payload's hash, the last one winning; the rest are counted as orphans |
| CredentialAcks.LastSavedWins | atlas/ingest/subagent_pull.py:779-799 | a restored call holds the last saved acknowledgement of a hash it carries, and one that carries none keeps what it had |
| CredentialAcks.AttachmentsAre | atlas/ingest/subagent_pull.py:779-801 | the restored number is that of the pairs of a saved acknowledgement and a call that carries its hash |
| CredentialAcks.OrphansAre | atlas/ingest/subagent_pull.py:779-801 | the orphaned number is that of the saved acknowledgements whose hash no call carries |
| CredentialAcks.RestoreIsExactIffOneSavedPayload | atlas/ingest/subagent_pull.py:779-799 | for a call, the restore silences exactly the payloads whose hash was saved if and only if it does not carry two of them |
| PlaneListings.ListingDoesNotMatter | atlas/ingest/subagent_pull.py:523-534 | what a scan counts of the payloads no saved acknowledgement names is the same under any call and transcript ids and in any row order |
| PlaneListings.ScanSplits | atlas/ingest/subagent_pull.py:523-534 | that count is the sum over any division of the transcripts in two, because a remedy joins only calls of its own transcript |
| RebuildRuns.PlaneHolds | atlas/ingest/subagent_pull.py:340-454 | after any history of appends, verdicts, pulls, broken-off pulls and reconciliations the plane holds, for each transcript, the texts and calls of one pass through a first part of its steps, all those below the watermark among them, and its part of the shared results |
| RebuildRuns.RepullFindsTheSame | atlas/ingest/subagent_pull.py:722-756 | a re-pull from an empty plane finds, for every transcript read to its end before and again, the same calls, and the same results up to remedies that the earlier plane still lacked |
| RebuildRuns.Rerun | atlas/ingest/subagent_pull.py:410-446 | doing the steps past the watermark again from where a broken-off pull left the tables either stops at a key already taken or idles up to there and goes on; it never falls back |
| RebuildRuns.RebuildCount | atlas/ingest/subagent_pull.py:722-801 | after any history and under any new row ids, the count after rebuild, re-pull and restore is the count before, less the saved payloads that count had included and what the changed transcripts held, plus the late remedies of the unchanged ones, what the changed ones hold now, and the saved payloads the restore does not silence |
| RebuildRuns.RebuildNeverRaisesTheCount | atlas/ingest/subagent_pull.py:722-801 | when every transcript had been read to its end and reconciled and no call carries two differently hashed saved payloads, the re-pull gets through and the count becomes the number of matching payloads no acknowledgement named, never more than before |
| CredentialAcks.TwoSavedPayloadsRearmOne | atlas/ingest/subagent_pull.py:505-513 | a call with two matching payloads whose different hashes were both saved has one of them counted again |
| PlaneListings.PlaneRowsAre | atlas/ingest/subagent_pull.py:523-534 | the scanned tables have one row for every listed call and result, holding the input or the remedy that is stored under its key |
| QuarantineLog.Log.RecordQuarantine | atlas/ingest/stream.py:146-194 | one write, starting with a newline exactly when the probed tail lacked one, cut anywhere |
| QuarantineLog.LogReadsBack | atlas/ingest/stream.py:160-191 | the log's non-empty lines are its first ones and then, in order, what landed of each record, if and only if no bytes of a record land behind a torn tail that its writer had not seen |
| QuarantineLog.EntriesAndMerges | atlas/ingest/stream.py:160-191 | in every history the lines and the records merged into a torn line together are the first lines and the landed records |
| QuarantineLog.WrittenRecordsStay | atlas/ingest/stream.py:160-191 | in such a history a record that landed in full stays a whole line whatever is appended or cut later |
| QuarantineLog.OneProcessIsHealed | atlas/ingest/stream.py:160-186 | a single process always sees the tail it writes to |
| QuarantineLog.WholeWritesAreHealed | atlas/ingest/stream.py:187-191 | so do any number of processes as long as no write is cut short |
| QuarantineLog.UnseenTearMerges | atlas/ingest/stream.py:160-167 | without the healing newline the torn line swallows what lands of the next record, cut anywhere |
| ViewClosure.ComputeTransitiveBaseTables | atlas/query/facade.py:205-247 | the recursion returns exactly the tables reachable along mentions through no plumbing view and no name already on the path, whatever order the mentions are taken in |
| ViewClosure.LeaveForGood | atlas/query/facade.py:220-246 | a walk leaves a view for good at its last visit, so the path-local set loses nothing on cyclic graphs |
| ViewClosure.ClosureSolvesItsEquation | atlas/query/facade.py:205-247 | plumbing contributes nothing, a table itself, and a view the union of what it mentions, cycles included |
| ViewClosure.CyclesShareOneClosure | atlas/query/facade.py:205-247 | views that reach each other have one closure |
| ViewClosure.SourcesAre | atlas/query/facade.py:250-266 | a view's sources are the base tables it reaches that the gate knows, under the names they are declared by |
| ViewClosure.BlockSpreadsToMentioningViews | atlas/query/facade.py:250-266 | a view's translated sources include those of everything it reaches, so what blocks the one blocks the other |
| ViewClosure.PlumbingHidesABlock | atlas/query/facade.py:178-181 | through a plumbing view nothing is inherited |
| QueryFacade.Facade.Fetch | atlas/query/facade.py:529-580 | although a writer may commit before every read, the outcome is the answer of one version no older than the call, and no transaction is left open on any way out |
| QueryFacade.ServedIffTrusted | atlas/query/facade.py:423-454 | a version serves a view exactly if it is declared, its run is 'ok' with checks evaluated, every source is queryable, the view exists and the limit is valid; the rows are that view's first ones |
| QueryFacade.RefusalIs | atlas/query/facade.py:529-580 | each refusal by what the version holds, in the order they are made: an unknown view, a run that is not clean and why, undeclared sources, unqueryable ones with their trust figures, a limit that is none, and what SQLite itself does not accept |
| QueryFacade.Facade.BlockedDetails | atlas/query/facade.py:516-527 | the refusal's figures for every blocked source come from the same version |
| QueryFacade.Facade.FetchLive | atlas/query/facade.py:474-506 | without a transaction the live gate's version may be older than the rows' |
| QueryFacade.LiveServedIff | atlas/query/facade.py:474-506 | live rows come out exactly for a live view whose first read said live and whose limit is one, and are the second read's first rows |
| QueryFacade.UnguardedServedIff | atlas/query/facade.py:541-580 | what an unguarded fetch asks of each of the three versions it reads before it serves the first rows of the last |
| QueryFacade.UnguardedTears | atlas/query/facade.py:541-547 | the three reads without a transaction serve rows that neither version would have served |
| QueryFacade.UnguardedIsLastAnswerIffTrusted | atlas/query/facade.py:541-547 | what an unguarded fetch serves is the last version's answer if and only if that version is trusted |
| ComponentBlocks.ParseComponents | atlas/registry/architecture_parse.py:150-223 | the strict parser's loops compute the specified result, stopping at the first bad line |
| ComponentBlocks.ParseComponentMap | bollard/component_coupling.py:232-282 | the lenient parser's loop computes the specified map and complaints |
| ComponentBlocks.EntryIs | atlas/registry/architecture_parse.py:60-67 | the entry pattern takes exactly a name, a colon, white space and a bracketed rest, and takes a line apart in one way |
| ComponentBlocks.BodyIs | atlas/registry/architecture_parse.py:150-177 | the strict parser reads, under its number, every line inside a block but the closing fence |
| ComponentBlocks.InsideIs | atlas/registry/architecture_parse.py:150-177 | a block is open exactly when a line outside every block opened it and no fence has come since |
| ComponentBlocks.DeclaredIffEntryLine | atlas/registry/architecture_parse.py:60-67 | a line declares a component if and only if it is a name, a colon, white space and a bracketed JSON array of strings |
| ComponentBlocks.StrictIffSound | atlas/registry/architecture_parse.py:180-209 | strict parsing succeeds if and only if a block opens, every line in a block is blank, a comment or a sound entry, and no name repeats; the map is what the lines declare, in order |
| ComponentBlocks.MalformedIs | atlas/registry/architecture_parse.py:180-209 | the reported line is the first, neither blank nor a comment, that is no entry, holds no JSON, holds something else than strings, or declares a name again, and the reported reason is that one |
| ComponentBlocks.LenientReadsItsLines | bollard/component_coupling.py:232-282 | on any document the lenient parser returns what the lines of its blocks declare and complains of the others |
| ComponentBlocks.LenientInsideIs | bollard/component_coupling.py:247-262 | for the lenient parser a block is open exactly when some line opened one and every fence since opened one too |
| ComponentBlocks.LastDeclarationWins | bollard/component_coupling.py:232-282 | the lenient map holds every declared name once, with what was declared for it last |
| ComponentBlocks.ComplaintsAre | bollard/component_coupling.py:263-281 | it complains of exactly the entries whose brackets hold no JSON or something else than strings, naming which |
| ComponentBlocks.LenientReadsTheSameLines | bollard/component_coupling.py:247-282 | without nested openings the lenient parser reads the same lines, later declarations winning, every bad value reported |
| ComponentBlocks.StrictAgreesWithLenient | bollard/component_coupling.py:232-282 | whenever the strict parser returns a map the lenient one returns it too and reports nothing |
| ComponentBlocks.NestedOpeningDisagrees | bollard/component_coupling.py:250-252 | an opening inside an open block closes it for one parser only, and they disagree |
| ComponentBlocks.RenderedMapParsesBack | atlas/registry/architecture_parse.py:150-223 | a map of distinct names spread over any blocks among other text parses back to itself |
| ComponentResolvers.ComponentOfRaw | bollard/component_coupling.py:539-550 | the nested loops find the first declaration of greatest raw length |
| ComponentResolvers.ComponentOfBoundary | atlas/registry/architecture_parse.py:131-147 | the nested loops find the first declaration of greatest specificity |
| ComponentResolvers.BestOfIsFirstLongest | bollard/component_coupling.py:542-550 | the loop's winner is the first of the longest matches, and None means that nothing matches |
| ComponentResolvers.MatchesDifferIffBetween | atlas/registry/architecture_parse.py:114-128 | on a normalised path one well-shaped declaration is read differently by the two exactly if the path is the declared directory or a file declaration stops short of it |
| ComponentResolvers.ResolversAgree | bollard/component_coupling.py:534-550 | where no declaration is read differently both resolvers name the same component, ties included |
| ComponentResolvers.BetweenPartsThem | bollard/component_coupling.py:534-550 | for a single declaration they agree if and only if the path does not fall between |
| ComponentResolvers.GlobMatchesIsComponentPrefix | atlas/registry/architecture_parse.py:101-128 | matching a wildcard glob on the string is matching a prefix of the list of path components |
| ComponentResolvers.NormalizeIs | atlas/registry/architecture_parse.py:93-98 | normalising turns backslashes into slashes and takes off leading "./" pairs, then leading slashes, and trailing ones, and nothing else |
| EdgeIds.ColonFreeIdsAreInjective | atlas/registry/architecture_parse.py:314-331 | where repo, direction and name hold no colon the id determines all four fields |
| EdgeIds.ColonCollides | atlas/registry/architecture_parse.py:331-331 | a colon in the repo or the direction always leaves a second edge with the same id |
| GoalsPath.SharedComponentRoots | bollard/component_coupling.py:602-618 | the roots found are exactly those of two or more components, each with all its members |
| GoalsPath.GoalsJsonPath | bollard/component_coupling.py:576-599 | a component gets the keyed file name exactly when its root is shared |
| GoalsPath.RootOfADirectory | bollard/component_coupling.py:534-573 | a directory declaration is rooted at that directory, as spelled |
| GoalsPath.RootOfAFile | bollard/component_coupling.py:556-573 | a file declaration is rooted at the directory it stands in, never at the file, and at the project itself for a top-level file |
| GoalsPath.AnchorIs | bollard/component_coupling.py:553-573 | the roots of two leading slashes and no more keep both, any other number is one |
| GoalsPath.LocationIs | bollard/component_coupling.py:596-599 | a root with a leading slash leaves the project behind, any other is opened under it |
| GoalsPath.CollideIffSpelledApart | bollard/component_coupling.py:553-599 | on a disk with any case folding, two components are judged against one file if and only if their roots lead to one directory and are either spelled differently and both unshared, or both shared while the component names are one on that disk |
| GoalsPath.NormalGlobsCollideIffCaseApart | bollard/component_coupling.py:553-599 | with first globs that hold no empty, "." or ".." part, two components share a criteria file exactly when letter case that the disk does not tell is all that keeps their roots, or their names under one root, apart |
| GoalsPath.NormalGlobsNeverCollide | bollard/component_coupling.py:553-599 | so on a disk where letter case counts no two components with such first globs share a criteria file |
| GoalsPath.RespelledDirectoryCollides | bollard/component_coupling.py:534-599 | any other spelling of any directory as one component's first glob, with a second glob by which that component owns paths, puts it on the criteria file of the component declared there |
| GoalsPath.DotSlashCollides | bollard/component_coupling.py:553-599 | "./hooks/**" and "bollard/../hooks/**" are such spellings of "hooks/**" |
| GoalsPath.CapitalCollides | bollard/component_coupling.py:553-628 | and so is "Hooks/**" on a disk that does not tell letter case |
| FreezeGate.FreezeBindsTheCriteria | bollard/goals_freeze_gate.py:69-132 | after a freeze, an edit that leaves the record alone keeps the gate open exactly while the criteria are unchanged |
| FreezeGate.CheckIs | bollard/goals_freeze_gate.py:72-132 | one gated target passes if and only if its criteria file is an object with a truthy freeze date and the hash of the criteria it holds on record; it raises if and only if the file is not UTF-8, no object, or its integrity is something and no object; it is denied otherwise, a missing, an unreadable and a never frozen file included |
| FreezeGate.Hook.Run | bollard/goals_freeze_gate.py:289-352 | a payload emits the deny of the specified decision and nothing else, so at most one |
| FreezeGate.ClassifyTargets | bollard/goals_freeze_gate.py:251-286 | targets are grouped by owning project in order of first mention, unless classifying one raises |
| FreezeGate.GroupsPartition | bollard/goals_freeze_gate.py:268-286 | every target inside a project is in that project's one group, gated or not, and nothing else is |
| FreezeGate.GroupsKeepOrder | bollard/goals_freeze_gate.py:268-286 | projects stand in order of first mention, and each holds its targets in the payload's order |
| FreezeGate.DenyClosedForm | bollard/goals_freeze_gate.py:319-352 | unless something raises, the gate denies exactly when some project hides a target behind a malformed declaration, is strict about an undeclared one, or has a gated one whose criteria file is not frozen as recorded, all of it read off the projects and their files |
| FreezeGate.DenyIsSound | bollard/goals_freeze_gate.py:319-352 | the deny names a target of the payload, its own project and a reason that holds of it there |
| FreezeGate.OrderDoesNotMatter | bollard/goals_freeze_gate.py:319-352 | outside the contested case the verdict depends on the set of targets alone |
| FreezeGate.ContestedOrderMatters | bollard/hook_common.py:431-457 | when one gated check would deny and another raises, the same targets are denied in one order and let through in another |
| FreezeGate.DenyIsOneUnmaskedTarget | bollard/goals_freeze_gate.py:319-340 | a payload is denied exactly when some target would be denied alone and is not masked by a gated target of the same malformed project |
| FreezeGate.SoundMapsDenyByOr | bollard/goals_freeze_gate.py:319-352 | without malformed declarations the verdict is the OR of the single-target verdicts |
| BashTargets.QuotedSpans | bollard/component_coupling.py:861-896 | the spans are in order, apart and in bounds, and cover exactly the characters a one-character-at-a-time reader calls quoted, unterminated quotes included |
| BashTargets.ExtractBashWriteTargets | bollard/component_coupling.py:991-1115 | the two loops emit what the fold over the segments with its cd state emits |
| BashTargets.SegmentsCutTheCommand | bollard/component_coupling.py:991-991 | the segments laid end to end, one character apart, are the command, and the characters between them are exactly its semicolons, ampersands, bars and newlines |
| BashTargets.OneCut | bollard/component_coupling.py:991-991 | a command can be cut so in one way only |
| BashTargets.SegmentsHoldNoSeparator | bollard/component_coupling.py:991-991 | no separator survives inside a segment, quoted or not |
| BashTargets.CdIs | bollard/component_coupling.py:851-851 | a segment is a cd when that word comes first, after any white space, and ends there |
| BashTargets.CdTargetIs | bollard/component_coupling.py:996-1011 | a cd goes where its first word, quotes stripped, resolves to if that is absolute, and it is not known where if it is relative |
| BashTargets.CdWithoutDirectory | bollard/component_coupling.py:996-1011 | a cd with nothing but white space after it is one to nowhere known |
| BashTargets.PlainCdIsRead | bollard/component_coupling.py:851-858 | a plain cd to an absolute directory is recognised and goes where that directory resolves to |
| BashTargets.CdStateIsTheShells | bollard/component_coupling.py:996-1011 | wherever the shell's directory is known the cd state holds it |
| BashTargets.TargetLands | bollard/component_coupling.py:1013-1115 | a found target is stripped of white space and then of quotes; it lands nowhere without a name or when it is relative and the latest cd is not known, else at its absolute path, in the cd's directory or in the session's, flagged when it cannot be resolved |
| BashTargets.ExtractRefinesTheShell | bollard/component_coupling.py:991-1115 | for every command: whatever relative cds do, what is emitted is what a shell that cuts the command at its separators writes, each target the path its directory gives, less exactly the relative ones after a latest cd that was not to a known absolute directory |
| RootMatching.ResolveCwdAgainstRoots | atlas/hookclient/matching.py:28-54 | in any order of the roots the candidates are exactly the prefixes of the deepest well-formed matching roots; unique means one, unregistered none |
| RootMatching.RootMatchesIs | atlas/hookclient/matching.py:20-25 | a root matches itself and what lies under it, component by component |
| RootMatching.CandidateIs | atlas/hookclient/matching.py:28-54 | a candidate is a prefix of an item that is well formed, matches, and has as many path components as any other that does |
| RootMatching.OrderDoesNotMatter | atlas/hookclient/matching.py:36-47 | permuting the roots changes no candidate |
| RootMatching.TiedRootsAreOnePath | atlas/hookclient/matching.py:20-25 | two roots tied for deepest have one component list |
| RootMatching.UnregisteredIffDeepestEmpty | atlas/hookclient/matching.py:42-50 | a directory is unregistered exactly when its deepest roots offer no prefix, whatever shorter roots offer |
| RootMatching.RegisteredRootServesItsTree | atlas/hookclient/matching.py:28-54 | a deepest root spelled one way serves exactly its own prefixes |
| TurnGate.Gate.OnStop | bollard/pdp_turn_gate.py:614-620 | a stop takes one branch and leaves the state file and the decision of that branch |
| TurnGate.Gate.RunAuthorityBranch | bollard/pdp_turn_gate.py:307-442 | the authority branch's exits give the specified decision and counter, other sessions' entries untouched, an exception before or after the state write included |
| TurnGate.Gate.RunOrchestratorBranch | bollard/pdp_turn_gate.py:532-607 | the orchestrator branch records the stop except on a malformed claim or an exception before the write; an exception, before or after it, refuses |
| TurnGate.OrchestratorDecides | bollard/pdp_turn_gate.py:532-607 | an orchestrator stop is allowed if and only if nothing raises, the claim and the state can be read, the message is short enough and some evidence is newer than the last stop and the claim; and what is then on record |
| TurnGate.AuthorityDecides | bollard/pdp_turn_gate.py:307-442 | an authority stop is blocked if and only if nothing raises, the session holds the authority, fewer than two blocks came before it in a row, and its message is too long or it has no reason to stop; and what is then on record |
| TurnGate.AllowedStopHasNewEvidence | bollard/pdp_turn_gate.py:282-304 | the evidence that allows a stop is newer than the last recorded stop and than the claim |
| TurnGate.WitnessesAreApart | bollard/pdp_turn_gate.py:555-560 | no two allowed stops of a session share their evidence |
| TurnGate.AllowedStopsNeverOutnumberEvidence | bollard/pdp_turn_gate.py:282-304 | over any run of all sessions, a session's allowed orchestrator stops are at most the writes of evidence there were |
| TurnGate.FailedWriteReusesEvidence | bollard/pdp_turn_gate.py:146-154 | a state write that fails lets the same evidence allow the next stop |
| TurnGate.NaNClaimHasNoFloor | bollard/pdp_turn_gate.py:545-560 | a NaN claim time lets evidence from before the claim through where every real time later than it would not |
| TurnGate.BlocksInARowAreBounded | bollard/pdp_turn_gate.py:358-366 | with other sessions interleaved, blocks in a row are at most the ceiling plus the state writes that failed |
| TurnGate.UnwritableStateBlocksForever | bollard/pdp_turn_gate.py:146-154 | with an unwritable state file every stop without a way out is blocked, without end |
| ReviewBinding.BlankCodeRegions | bollard/foreman_evidence.py:44-88 | the line loop blanks fences and inline spans as the recursive definition does |
| ReviewBinding.FenceIs | bollard/foreman_evidence.py:64-84 | a fence is open exactly when some line outside every fence opened it and its marker has not come again |
| ReviewBinding.FenceMarkIs | bollard/foreman_evidence.py:64-74 | a line marks a fence when it starts, white space aside, with three backticks or three tildes |
| ReviewBinding.BlankedAt | bollard/foreman_evidence.py:41-88 | a line inside a fence or at its ends becomes empty; any other keeps its length and every character outside inline code, read one character at a time, and has blanks for the rest |
| ReviewBinding.LastMatchIsLast | bollard/foreman_evidence.py:110-112 | the extracted label is that of the match furthest on in the text, and none only if nothing matches |
| ReviewBinding.LabelIs | bollard/foreman_evidence.py:91-109 | the extracted digest is that of the last place in the blanked text where the label stands in bold, then white space, then sha256 and sixty-four hexadecimal digits |
| ReviewBinding.AppendedPassWins | bollard/foreman_evidence.py:91-112 | a label line appended outside every fence is the one that counts, whatever earlier passes claim |
| ReviewBinding.LabelIgnoresFencedText | bollard/foreman_evidence.py:44-112 | rewriting lines inside fences without closing them never changes the extracted label |
| ReviewBinding.LabelReadsOutsideFencesOnly | bollard/foreman_evidence.py:61-63 | the label is a function of the text outside fences, an unterminated fence running to the end |
| ReviewBinding.InlineTextIsBlank | bollard/foreman_evidence.py:41-41 | what a line's first code span says does not matter, its length aside |
| ReviewBinding.ReviewBindsArchitectureViaLedger | bollard/foreman_evidence.py:192-311 | the ledger scan and the two comparisons give the specified verdict, and a ledger that is not UTF-8 raises |
| ReviewBinding.VerdictIs | bollard/foreman_evidence.py:192-311 | each verdict by what the files hold: errors, what raises, which mismatch is found before which, unbound and bound |
| ReviewBinding.BoundIffStampedAndCurrent | bollard/foreman_evidence.py:192-311 | after any history the verdict is bound if and only if no ledger line is malformed or undecodable, the review is what it was when last stamped, and its last label outside code is the architecture's current hash |
| ReviewBinding.EditUnbinds | bollard/foreman_evidence.py:277-301 | changing either file after the stamp turns bound into mismatch |
| GamingFamilies.WriteThenExecuteEvidence | atlas/gaming_family/classifier.py:176-197 | the loop finds whether one of the five calls before wrote a file the denied command names |
| GamingFamilies.EvidenceIs | atlas/gaming_family/classifier.py:135-197 | there is evidence exactly when the first call of the id runs a Bash command that contains the file name, if it is not empty, of what one of the five calls before it wrote |
| GamingFamilies.IsStopped | atlas/gaming_family/classifier.py:204-225 | an event escaped exactly if one of the next three calls is of the same tool and uncontested |
| GamingFamilies.EscapedIs | atlas/gaming_family/classifier.py:204-225 | an event of a known session escaped exactly when one of the three calls after its first call is of its tool and met no deny and no ask |
| GamingFamilies.FamiliesAre | atlas/gaming_family/classifier.py:153-173 | the population and the four families, each by what is required of a verdict, landed retries being those whose key none of the others claims |
| GamingFamilies.ClassifyWarehouse | atlas/gaming_family/classifier.py:232-305 | the report counts the four families, and stopped and escaped add up to caught in each |
| GamingFamilies.ReconcilesIffClaimedKeysUnique | atlas/gaming_family/classifier.py:281-304 | the report's check holds if and only if no two claimed events share a key |
| GamingFamilies.OverlapIsTheIntersection | atlas/gaming_family/classifier.py:290-292 | with unique event keys the reported overlap is the number of write-then-execute events that the other two families also claim |

## Left out

- SubagentPull.SubConnection.PullTranscript: does not model the sidecar and attribution columns, and reads head, size and bytes of a file at one moment; the columns copied from a record are modelled as far as they decide whether its row can be stored.
- SessionPull.Connection.PullSession: stored rows carry only the columns that decide dedup, results and remedies; timestamps, cwd and branch are modelled as far as they decide whether a row can be stored, and texts are not cut at their caps, nor sizes and truncation flags kept.
- SessionRuns.HistoryKeepsInv: does not cover rotated session transcripts, where re-reading from zero can meet offsets already stored under the same transcript.
- TailRuns.IncrementalEqualsOnePass: is restricted to histories whose stream identity is constant, because the resume lookup goes by source name alone; `ShortFileIsReadTwice` shows what happens otherwise.
- Transcript.DenyTextGrows: `DENY_TEXT_CAP_BYTES` is applied to characters, as the code's slice does.
- QuarantineLog.Log.RecordQuarantine: records are newline-free bytes (JSON strings must escape a newline, section 7 of RFC 8259); failures to open the file are not modelled.
- RebuildRuns.RebuildCount: the re-pull knows the verdicts landed by the time of the rebuild, and files do not grow during it.
- LateVerdictRuns.FinalReconcileIsConfluent: the events of the session pull are those of a transcript without broken-off pulls, because its rollback leaves none.
- QueryFacade.Facade.Fetch: the rows of a view are taken in one order per version; SQL text and the view bodies are not modelled.
- ViewClosure.ComputeTransitiveBaseTables: names in sqlite_master are unique; the comment-stripping, word-boundary search is a parameter.
- ComponentBlocks.ParseComponents: documents are lists of stripped lines; line splitting and stripping are common to both parsers.
- ComponentResolvers.ResolversAgree: asks every glob to be a directory with stars, all stars, or a normalised file; for other shapes nothing is claimed.
- FreezeGate.ClassifyTargets: which project and component own a target are functions of the target, as below.
- FreezeGate.Hook.Run: how a target finds its project and its component, and whether it is undeclared, are parameters (symlinks and letter case are the disk's); the per-payload cache is a function of the project.
- BashTargets.ExtractBashWriteTargets: the write patterns that find targets in one segment are a parameter; the destination guess for `ln` into a directory depends on the disk and is left out, and a cd to an absolute directory is taken to succeed.
- RootMatching.ResolveCwdAgainstRoots: returns the candidates as a set; the final sort is not modelled, and prefixes are strings.
- TurnGate.Gate.OnStop: concurrent stops that overwrite each other's state file are not modelled, nor a claim time of minus infinity.
- ReviewBinding.ReviewBindsArchitectureViaLedger: lines end in "\n" only; the label holds no asterisk, so matches cannot overlap; entries for the artifact come only from stamping, whose script is not part of this model.
- GamingFamilies.ClassifyWarehouse: one snapshot of the warehouse; the call cache is that snapshot's function, JSON inputs arrive decoded, and the prevention rate and evidence rows are not modelled.
- `run_pull.run`, `migrate`, `dq_runner`, `atlas.resolve` and `tessera` internals: outside this model.
- Message texts, rule ids, audit rows, report writers, the command lines and the SQL view bodies.
- Hooks that are one predicate and a deny, the coverage report, and the numeric and second-derivation labels.
- Bash forms the extractor declares it cannot see: heredocs, interpreters, substitution.
