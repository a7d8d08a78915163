# A verified model of electerm's stateful algorithms

This project models, in Dafny, the algorithms of electerm's server and store
code that keep an invariant over every run, and proves what they keep. Code
that changes objects in place is modelled as classes whose methods are proved
against specification functions on values; what the code promises is then
proved about those functions, over whole runs and in every interleaving.

`dafny verify dfyconfig.toml` checks all of it.

## The parts

* **Parallel file copy** (`ParallelCopy.dfy`, `ParallelCopyLaws.dfy`,
  `ParallelCopyRuns.dfy`, `ParallelCopyProgress.dfy`). Several read/write
  pipelines share one buffer and one cursor. The handlers are methods of
  `Transfer`; a run is any sequence of callbacks, pauses, resumes and a
  destruction. The invariant `ParallelCopyLaws.Inv` says that operations in
  flight are disjoint in the buffer and in the file, that written ranges and
  ranges in flight tile `[0, pdst)`, and that whatever is written is right.
* **Incremental persistence** (`DataCompare.dfy`, `RowStore.dfy`,
  `Persistence.dfy`, `InitData.dfy`, `WatchSync.dfy`). The diff of two arrays,
  the rows of the main process, the queued writes, and rebuilding the array.
* **Host-key file** (`KnownHosts.dfy`, `KnownHostsSafety.dfy`): parsing,
  matching, appending, removing and replacing in the known_hosts text.
* **Agent authorisation** (`ApprovalScopes.dfy`, `CapabilityTokens.dfy`,
  `Approvals.dfy`) and the **execution ledger** (`ExecutionLedger.dfy`). The
  MAC is ideal and ids are fresh. Runs are sequences of calls with a log of
  what each returned; every statement is about that log.
* **Streams that must not depend on chunking**: the SSE parser
  (`SseParser.dfy`, `JsText.dfy`), the tool-call assembler (`ToolCalls.dfy`),
  the terminal-escape cleaner (`TerminalCleaner.dfy`), stream progress
  (`StreamProgress.dfy`), the bounded capture (`BoundedCapture.dfy`), and the
  terminal output coalescer with its pre-attach buffer (`TerminalOutput.dfy`).
* **Codecs**: strict base64 (`Base64.dfy`) and the encrypted local storage
  (`SafeStorage.dfy`).
* **Graph and quota algorithms**: the dependency installer
  (`PackageInstaller.dfy`), evidence eviction (`EvidenceStore.dfy`) and
  bookmark groups (`BookmarkGroups.dfy`, `BookmarkGroupLaws.dfy`).
* Shared vocabulary: `Options.dfy`, `Sequences.dfy`, `Sorting.dfy` (a stable
  sort standing for the platform's).

## Where the code does less than one would expect

Each of these is proved, with the exact condition.

* A file copy whose reads keep coming back with no bytes makes no progress:
  the same read is tried again from the same state (`EmptyReadRepeats`). With
  reads of at least one byte the copy finishes, however often it is paused and
  resumed (`CopyFinishes`).
* The bounded capture repeats bytes when the stream is longer than 32 KiB and
  shorter than 96 KiB; its value is the stream itself exactly up to 32 KiB and
  at 96 KiB (`ValueIsStreamIff`, `OverlapIsRepeated`).
* `decrypt(encrypt(s))` is `s` exactly unless a key is set and `s` starts with
  U+FEFF, which is lost, or has a lone surrogate, which becomes U+FFFD
  (`RoundTripIff`).
* The terminal cleaner shows the contents of SOS, PM and APC strings, so it
  agrees with ECMA-48 exactly as far as those hold nothing visible
  (`CleanIsStandardIff`).
* A host key is accepted and written for names that the file format cannot
  hold as one plain name (`#build`, a name with a comma), and is not found
  again (`AcceptedIsFoundIff`, `CommentHostIsForgotten`). If the file changes
  while the user is asked, an unknown key that was revoked meanwhile is
  accepted and stays revoked (`LateAnswerIff`). Lines that survive a rewrite
  may lose a trailing carriage return (`SameLines`). An entry written for port
  22 holds the bare host name and so covers every port of it (`CoversPortIff`).
* Grant keys join their parts with `:`, so revoking a task id also removes the
  grants of ids that continue it after a colon (`RevokedIff`,
  `ColonSpillsOver`). Ids that the approval manager accepts have no colon, so
  there revoking is exact (`RevokeIsExact`).
* `verify` and `verifyExternal` consume separately: a consumed token passes
  again exactly on the other channel, as far as it fits and is open there
  (`SecondUseIff`, `ConsumedOnBothChannels`). Reusing a token id makes an old
  token pass again as far as it fits (`ReusedIdReplays`).
* At the boundary of the approval manager an R5 request never offers a single
  approval but does offer a task-wide one if its policy lists that scope: only
  R4 is excluded (`TaskScopeIff`, `R5TaskApproval`). The policy engine lists
  no scope for R5 (`src/app/agent/policy/policy-engine.js:60-62`), so this
  does not arise through it.
* If setting up an invocation throws, its executor is never started, and every
  later call gets an error, with the same digest because the invocation counts
  as under way for ever (`NeverStartsIff`, `FailedSetupIsFinal`). The same
  holds after a result that its schema rejects (`InvalidResultIsFinal`).
* An interrupted installation is taken for a complete one by the next call
  (`RetryAfterFailure`); in general a success report means that everything is
  there exactly if what was there before was closed (`CompleteIff`).
* A refused evidence write has already removed the files of every record that
  takes room, while the manifest still lists them (`RefusedWriteLosesFiles`);
  manifest and files stay in step exactly as long as this does not happen
  (`InStepIff`, `RunStaysInStep`).
* Deleting a bookmark group that is its own heir loses its bookmarks
  (`DeleteKeepsGroupedIff`); after a repair this cannot happen
  (`DeleteAfterRepair`). A deleted group stays listed as a child exactly if
  another group lists it or it lists itself (`StaysListedIff`).
* When firings of one watcher overlap, an older order can be stored last, and
  loading gives the array in that order (`OrderIsOvertaken`). In general the
  order of the firing that continued last wins (`LastContinueWins`), and the
  array comes back exactly if its ids follow it (`RestoredIff`). That holds
  when firings do not overlap (`Restored`), and when the last one continues
  last (`RestoredIfLastContinuesLast`).
* A firing without an array empties the snapshot but removes no rows
  (`MissingArrayIff`). Items with an old encrypted password are decoded on
  loading: the loaded array and its table always agree once decoded
  (`LoadedReadsTheSame`), and as they are exactly if there is no such item
  (`LoadedIff`, `DecodedIff`).

## Model

| member | source | states |
|---|---|---|
| ParallelCopy.Transfer.OnDstOpen | src/app/server/transfer.js:213-317 | opening the destination: an empty file ends at once, otherwise buffer and pipelines are sized and the buffer allocated; the first reads are issued at once, or only after the file mode was set, exactly as `Start` says |
| ParallelCopy.Transfer.OnModeSet | src/app/server/transfer.js:303-317 | once setting the mode has returned, however it went, the first reads are issued |
| ParallelCopy.Transfer.SizeBuffer | src/app/server/transfer.js:222-298 | the sizing loop ends with the buffer size and pipeline number of `Sized` |
| ParallelCopy.SizedIsPositive | src/app/server/transfer.js:289-296 | for every file and chunk size the buffer is not empty, no larger than the file, and has a slot of a chunk's size for each pipeline, or is one slot of the file's size; one pipeline more would not fit |
| ParallelCopy.Transfer.ReadAhead | src/app/server/transfer.js:390-400 | the loop of first reads issues one read per pipeline as `StartReads` says |
| ParallelCopy.Transfer.IssueRead | src/app/server/transfer.js:370-388 | a read is dropped after an end or destruction, put off while paused, otherwise issued |
| ParallelCopy.Transfer.OnRead | src/app/server/transfer.js:319-334 | a returning read ends the run on failure, is dropped after destruction, otherwise its bytes are written from the same slot to the same position |
| ParallelCopy.Transfer.OnWrite | src/app/server/transfer.js:335-361 | a returning write stores its bytes, then ends on failure, continues a short read, completes, retires or moves on to the next chunk |
| ParallelCopy.Transfer.AfterWrite | src/app/server/transfer.js:343-360 | the decision after a counted write: rest of the chunk, success, nothing left, or the next chunk in the freed slot |
| ParallelCopy.Transfer.OnTimer | src/app/server/transfer.js:374-378 | the timer of a paused read tries the same read again |
| ParallelCopy.Transfer.Fail | src/app/server/transfer.js:242-282 | only the first end or error counts; it is reported at once if there is no handle to close, and else once all handles are closed |
| ParallelCopy.Transfer.OnClose | src/app/server/transfer.js:254-261 | the report follows the last close |
| ParallelCopyLaws.WritePiece | src/app/server/transfer.js:319-334 | filling one operation's slot disturbs no other operation: disjointness, right bytes and tiling all survive |
| ParallelCopyLaws.ContinuePiece | src/app/server/transfer.js:346-348 | after a short read, storing the bytes and re-reading the rest keeps disjointness, right bytes and tiling |
| ParallelCopyLaws.MovePiece | src/app/server/transfer.js:354-360 | the next chunk through the freed slot keeps disjointness, right bytes and tiling, for the cursor advanced by that chunk |
| ParallelCopyLaws.AllWritten | src/app/server/transfer.js:350-352 | as many right bytes as the file is long are all of the file, so counting bytes is enough to decide success |
| ParallelCopyLaws.ReadKeeps | src/app/server/transfer.js:319-334 | a returning read, failed or not, short or not, keeps the invariant |
| ParallelCopyLaws.WriteKeeps | src/app/server/transfer.js:335-361 | a returning write keeps the invariant in each of its branches |
| ParallelCopyLaws.TimerKeeps | src/app/server/transfer.js:370-379 | a put-off read that is tried again keeps the invariant |
| ParallelCopyRuns.StartKeeps | src/app/server/transfer.js:284-317 | opening establishes the invariant for every file size, with or without a mode to be set, also when it fails or was destroyed before |
| ParallelCopyRuns.ModeSetKeeps | src/app/server/transfer.js:303-317 | the late first reads keep the invariant, also if the copy was paused or destroyed while the mode was being set |
| ParallelCopyRuns.StepKeeps | src/app/server/transfer.js:213-401 | every callback in every reachable state keeps the invariant |
| ParallelCopyRuns.RunKeeps | src/app/server/transfer.js:213-401 | the invariant holds after every run |
| ParallelCopyRuns.SuccessIsCopied | src/app/server/transfer.js:242-282 | in every run, if success was reported the destination is exactly the source's first fsize bytes |
| ParallelCopyRuns.ReportedOnce | src/app/server/transfer.js:242-282 | at most one end or error report is made in a run |
| ParallelCopyRuns.ReportsStay | src/app/server/transfer.js:242-282 | what was reported stays reported, whatever callbacks still come |
| ParallelCopyRuns.ReportedWhenClosed | src/app/server/transfer.js:242-282 | in every run: nothing is reported before something is decided; from then on as many closes return as there were handles, whatever comes in between, and with the last, or at once if there was none, exactly the decision is reported: success for an empty file and for the write of the last byte, failure for a failed read, write or allocation |
| ParallelCopyRuns.ReportedAfterCloses | src/app/server/transfer.js:242-282 | the same of the events after the deciding one: with n closes among them, there is a report exactly if n is the number of handles, and a further close can come exactly if it is smaller |
| ParallelCopyRuns.PausedReadsNothing | src/app/server/transfer.js:370-379 | while the copy is paused no event starts a read |
| ParallelCopyRuns.OverStartsNothing | src/app/server/transfer.js:370-379 | once it is destroyed, decided or without memory, no event starts anything |
| ParallelCopyRuns.NothingBeforeTheMode | src/app/server/transfer.js:213-317 | in every run nothing is read or written before the destination is open and its mode is set |
| ParallelCopyRuns.WrittenOrInFlight | src/app/server/transfer.js:319-401 | while a run is live, each position below the cursor is written with the right byte or in flight in exactly one operation, never both, and `total` is the number of bytes written |
| ParallelCopyRuns.RegionsAreDisjoint | src/app/server/transfer.js:289-298 | in every run outstanding operations have disjoint regions inside the shared buffer, so the slots hold every chunk ever issued |
| ParallelCopyRuns.BufferHolds | src/app/server/transfer.js:319-388 | in every run an outstanding read has room in the buffer for all it may bring, and a write has all its bytes there |
| ParallelCopyProgress.GoodStep | src/app/server/transfer.js:319-388 | each returning read or write, and each timer of a copy that is not paused, strictly lowers a measure built from fsize - total, until success is decided; pausing, resuming and the timers of a paused copy leave it as it is |
| ParallelCopyProgress.NeverStuck | src/app/server/transfer.js:319-388 | a copy that is not over has an operation outstanding whose callback can come, paused or not, and a productive one if it is not paused |
| ParallelCopyProgress.CopyFinishes | src/app/server/transfer.js:213-401 | with non-empty reads and no error, and however often the user pauses and resumes, a run has at most `Measure` productive callbacks; unless paused another one can come until success is decided and every byte is copied |
| ParallelCopyProgress.OpenedIsGoing | src/app/server/transfer.js:284-317 | an opened copy of a non-empty file, paused or not, is in the state from which it finishes |
| ParallelCopyProgress.FirstReadsAreGoing | src/app/server/transfer.js:303-317 | so is a copy whose file mode has just been set |
| ParallelCopyProgress.EmptyReadRepeats | src/app/server/transfer.js:345-348 | a read of no bytes leads back to the same state with the same read tried again, whether the copy is paused or resumed in between or not |
| DataCompare.Compare | src/client/common/data-compare.js:10-58 | the two loops compute the diff: items whose id is known but content differs, items of unknown id, items whose id is gone; a missing array gives an empty diff |
| DataCompare.ByIdHas | src/client/common/data-compare.js:19-24 | the id map holds exactly the ids of the array, each with an item of that id |
| RowStore.Database.Write | src/app/lib/sqlite.js:126-184 | insert-or-replace, delete and update (with or without upsert) change exactly their rows of exactly one table; an unknown table changes nothing |
| RowStore.Database.Find | src/app/lib/sqlite.js:137-141 | every row is listed as one document, in some order |
| RowStore.ReadBackIff | src/app/lib/sqlite.js:77-124 | a written record is read back exactly unless it was encrypted and no decryption is configured |
| RowStore.AtRestStays | src/app/lib/sqlite.js:12-124 | every statement keeps this: in a database that encrypts, exactly the records of five tables and the user's configuration are stored encrypted; in one that does not, none |
| Persistence.DiffAt | src/client/common/data-compare.js:26-51 | for arrays with distinct ids: which of the three lists an id is in, from which arrays hold it |
| Persistence.DiffIsExact | src/client/common/data-compare.js:26-51 | an item is written as an update exactly if its id was there with other content, as an addition exactly if its id is new; removed are exactly the items whose id is gone |
| Persistence.NothingChanged | src/client/common/data-compare.js:26-51 | an array that has not changed causes no writes |
| Persistence.PatchedAt | src/client/store/watch.js:38-42 | after removals, updates and insert in queue order: exactly which ids have rows and which rows are untouched |
| Persistence.PatchedItem | src/client/store/watch.js:38-42 | ... and an updated or added item has its own row |
| Persistence.DiffPatches | src/client/store/watch.js:28-42 | the writes of a diff turn the table of the old array into the table that stores the whole new array |
| Persistence.DrainSame | src/app/lib/sqlite.js:126-184 | tables that read the same, with or without decoding old passwords, still do after the same writes |
| Persistence.DecEncoded | src/client/common/pass-enc.js:1-8 | decoding is the inverse, both ways, of the encoding that moves the unit at position i up by i + 1, modulo 65536 |
| Persistence.LoadsAsIff | src/client/common/pass-enc.js:14-20 | a document that holds the old encoding of a non-empty password may load as that password without the flag, and as nothing else |
| InitData.FetchesIff | src/client/common/db.js:160-171 | from the table of an array, every listing of its rows gives back the decoded array in order exactly if its ids follow the stored order |
| InitData.FetchSorts | src/client/common/db.js:160-171 | a missing or empty stored order is the same as sorting by it |
| InitData.GetOrder | src/client/common/db.js:148-153 | reads back the stored order row, or nothing if there is none |
| InitData.IndexIsFirst | src/client/common/db.js:163-168 | an id is placed by its first position in the stored order |
| InitData.OtherOrdersStay | src/client/store/watch.js:43-47 | storing the order of one table leaves the orders of the others and the user's configuration as they are |
| InitData.FetchInitData | src/client/common/db.js:132-171 | gives some listing of the rows, decoded and sorted by the stored order; where every listing gives the same array, that array; in any case one item per row, in which an old password is the text that it was the encoding of, without its flag, and which otherwise is the row's document |
| InitData.FetchesSame | src/client/common/db.js:132-171 | what loading gives depends on the decoded documents of a table only |
| InitData.OwnOrder | src/client/common/db.js:163-168 | an array with distinct ids follows its own order |
| InitData.DecodedIff | src/client/common/pass-enc.js:14-20 | decoding leaves an array as it is exactly if no item has a flagged, non-empty password |
| InitData.LoadedIff | src/client/store/load-data.js:248-265 | just loaded, the snapshot reads like its table exactly if no document has an old password |
| InitData.LoadedReadsTheSame | src/client/store/load-data.js:248-265 | just loaded, the snapshot always reads like its table once both are decoded |
| WatchSync.Watcher.OnChange | src/client/store/watch.js:23-42 | a firing replaces the snapshot and queues the removals, updates and insert of the diff in that order; nothing happens while migrating |
| WatchSync.Watcher.OnAcknowledged | src/client/store/watch.js:43-47 | when its writes are acknowledged a firing queues the write of the order it saw |
| WatchSync.Watcher.ExecuteNext | src/app/lib/sqlite.js:126-184 | the main process executes the oldest queued statement |
| WatchSync.QueueAgrees | src/client/store/watch.js:22-47 | in every run, overlapping firings included, executing the pending writes gives a table that reads like the latest snapshot stored as a whole; after decoding from every start, and without decoding from a table without old passwords |
| WatchSync.MissingArrayIff | src/client/store/watch.js:24-37 | a firing without an array keeps that agreement exactly if the snapshot was empty |
| WatchSync.WritesNoRows | src/client/store/watch.js:22-42 | a firing while the data is migrated, or of an array that has not changed, queues no row write; the first leaves everything as it is |
| WatchSync.LastContinueWins | src/client/store/watch.js:43-47 | each event leaves the order that will end up stored as it is, except a firing that continues, which sets it to its own |
| WatchSync.RestoredIff | src/client/common/db.js:160-171 | from every loaded state, old passwords included: after any run at rest, loading gives back the current array exactly if its ids follow the stored order |
| WatchSync.Restored | src/client/store/watch.js:22-47 | if firings do not overlap, after the first one and at rest the table, the stored order and what loading gives are those of the current array |
| WatchSync.RestoredIfLastContinuesLast | src/client/store/watch.js:38-47 | firings may overlap as long as the last one is the last to queue its order: at rest the current array comes back |
| WatchSync.OrderIsOvertaken | src/client/store/watch.js:38-47 | two overlapping firings after which the array does not come back |
| KnownHosts.MatchesKnownHostField | src/app/server/ssh-known-hosts.js:76-92 | the loop over tokens: a negated match decides against, otherwise some token must match a candidate |
| KnownHosts.KnownHostsFile.CheckKnownHosts | src/app/server/ssh-known-hosts.js:149-200 | the verdict over all lines: match, revoked, mismatch or not found, as `Check` says |
| KnownHosts.KnownHostsFile.AppendKnownHost | src/app/server/ssh-known-hosts.js:202-224 | the text with its last line ended and the new line behind it |
| KnownHosts.KnownHostsFile.RemoveKnownHost | src/app/server/ssh-known-hosts.js:226-254 | the text without the lines of this host and key type |
| KnownHosts.KnownHostsFile.ReplaceKnownHost | src/app/server/ssh-known-hosts.js:256-276 | removal followed by appending |
| KnownHosts.KnownHostsFile.Verify | src/app/server/ssh-known-hosts.js:353-433 | one run of the verifier when nothing else changes the file: a key is accepted exactly if it matches, or if it is unknown or changed and the user agrees; a refused or matching key leaves the file as it is; an unreadable key is refused |
| KnownHosts.KnownHostsFile.Finish | src/app/server/ssh-known-hosts.js:365-433 | the part of the verifier after the verdict and the user's answer, on the file as it is then: accepted exactly for a match, or an unknown or changed key that the user agreed to; otherwise, and for a match, the file stays as it is |
| KnownHostsSafety.NotFoundIff | src/app/server/ssh-known-hosts.js:149-200 | not found exactly if no entry concerns the host and key type |
| KnownHostsSafety.AppendedIsFoundIff | src/app/server/ssh-known-hosts.js:202-224 | an unknown key that is appended is found exactly if the host's name is one plain name of the format |
| KnownHostsSafety.AcceptedIsFoundIff | src/app/server/ssh-known-hosts.js:353-433 | a key accepted by any route checks as a match afterwards exactly if it matched before or the name is plain |
| KnownHostsSafety.LateAppendIff | src/app/server/ssh-known-hosts.js:202-224 | appending to any text: the key is found afterwards exactly if it was found there, or is not revoked there and the name is plain |
| KnownHostsSafety.LateAnswerIff | src/app/server/ssh-known-hosts.js:365-433 | the same for an accepted key when the file changed between verdict and answer, as when two verifiers overlap |
| KnownHostsSafety.CommentHostIsForgotten | src/app/server/ssh-known-hosts.js:94-100 | a name that starts with a comment sign is accepted, written and not found |
| KnownHostsSafety.EntriesOfRemoved | src/app/server/ssh-known-hosts.js:226-254 | after removal exactly the entries for this host and key type are gone, the others stay in order |
| KnownHostsSafety.ReplaceKeepsLines | src/app/server/ssh-known-hosts.js:256-276 | replacing keeps every other line in order, up to a trailing carriage return, and ends with the new line |
| KnownHostsSafety.AppendKeepsLines | src/app/server/ssh-known-hosts.js:202-224 | appending keeps every line and puts the new one last |
| KnownHostsSafety.AnswerKeepsLines | src/app/server/ssh-known-hosts.js:365-433 | what an answer leaves: an accepted unknown key adds its line behind all others, an accepted changed one behind all that are no entry for this host and key type; every other answer leaves the text as it is |
| KnownHostsSafety.FirstExactDecides | src/app/server/ssh-known-hosts.js:165-184 | the first entry for the host with exactly this key decides: revoked if it is marked so, else a match |
| KnownHostsSafety.MismatchIff | src/app/server/ssh-known-hosts.js:165-200 | the key has changed exactly if there are entries for host and key type and none of them has this key |
| KnownHostsSafety.PlainLine | src/app/server/ssh-known-hosts.js:94-120 | three or more words, the first neither a comment nor a marker, are an entry of the first three |
| KnownHostsSafety.MarkedLine | src/app/server/ssh-known-hosts.js:94-120 | with a marker in front, they are an entry with that marker |
| KnownHostsSafety.NoEntryIff | src/app/server/ssh-known-hosts.js:94-120 | a line is no entry exactly if it has too few words or is a comment |
| KnownHostsSafety.ListedMatchesIff | src/app/server/ssh-known-hosts.js:21-92 | a list of patterns covers a host exactly if a plain one stands for the host or for the host with its port, by its hash, as a wildcard or literally, and no negated one does |
| KnownHostsSafety.CoversPortIff | src/app/server/ssh-known-hosts.js:21-27 | an entry written for one port of a host covers another exactly if the ports are the same, or it was written for port 22 |
| KnownHostsSafety.OddHostNeverMatches | src/app/server/ssh-known-hosts.js:58-92 | a host name with a space or comma is matched by no literal field |
| ApprovalScopes.ApprovalScopeStore.RevokeTask | src/app/agent/approval/approval-scope.js:18-22 | removes exactly the grants whose key starts with the id and a colon |
| ApprovalScopes.ApprovalScopeStore.Get | src/app/agent/approval/approval-scope.js:14-16 | the request under which exactly this key was granted, if any |
| ApprovalScopes.RevokedIff | src/app/agent/approval/approval-scope.js:6-22 | for every id: a grant goes exactly if the id stands before one of the colons of its key, which for an id without colons means before the first one; other grants keep their value |
| ApprovalScopes.ColonSpillsOver | src/app/agent/approval/approval-scope.js:6-22 | an id that continues the revoked one after a colon loses its grant |
| ApprovalScopes.KeysDiffer | src/app/agent/approval/approval-scope.js:6-8 | without colons in the first three parts, different actions have different keys |
| ApprovalScopes.KeysOfOneShape | src/app/agent/approval/approval-scope.js:6-8 | with ids free of colons and digests and fingerprints of one length, different actions have different keys, whatever the rest holds |
| CapabilityTokens.CapabilityTokenManager.IssueToken | src/app/agent/approval/capability-token.js:21-38 | a signed token with the given fields, valid for the smaller of its ttl and 60 s, remembered as issued |
| CapabilityTokens.CapabilityTokenManager.VerifySignature | src/app/agent/approval/capability-token.js:55-72 | which error or claims a token gives, in the order of the checks |
| CapabilityTokens.CapabilityTokenManager.VerifyToken | src/app/agent/approval/capability-token.js:40-46 | local verification: only while issued and unconsumed, consuming on demand |
| CapabilityTokens.CapabilityTokenManager.VerifyExternalToken | src/app/agent/approval/capability-token.js:48-53 | external verification, with its own record of what was consumed |
| CapabilityTokens.StepSound | src/app/agent/approval/capability-token.js:21-78 | in every run, with tokens issued here or by another holder of the secret, what each call gives is exactly what an independent reading of the calls before it says |
| CapabilityTokens.PassesIff | src/app/agent/approval/capability-token.js:40-78 | in every run a verification passes exactly if the token is genuine, in time and for the five fields, and was not consumed on that channel and, locally, was issued here and neither revoked nor found expired |
| CapabilityTokens.RefusedIff | src/app/agent/approval/capability-token.js:40-72 | in every run, which error a refused token gets: invalid exactly if not genuine, expired exactly if genuine and its time is over, a mismatch exactly if in time but for other fields, a replay exactly if it fits and its channel is closed |
| CapabilityTokens.ForgetsIff | src/app/agent/approval/capability-token.js:55-72 | a verification forgets exactly the token asked about, and only if it is genuine and its time is over |
| CapabilityTokens.InTimeIff | src/app/agent/approval/capability-token.js:21-34 | a token is in time for the life it was asked for, but for 60 s at most |
| CapabilityTokens.ConsumedOnce | src/app/agent/approval/capability-token.js:40-53 | in every run a token once consumed never passes again on that channel, also at a verifier that issues nothing itself |
| CapabilityTokens.PassesOnlyAsIssued | src/app/agent/approval/capability-token.js:55-72 | what passes was issued earlier with exactly the five fields asked about, and less than min(ttl, 60 s) ago: locally by this manager, externally by any holder of the secret |
| CapabilityTokens.RevokedNeverPasses | src/app/agent/approval/capability-token.js:74-78 | after a revocation no earlier token of that task id passes local verification |
| CapabilityTokens.SecondUseIff | src/app/agent/approval/capability-token.js:40-53 | a token that was consumed passes again exactly on the other channel, if it still fits and that channel is open for it |
| CapabilityTokens.ConsumedOnBothChannels | src/app/agent/approval/capability-token.js:40-53 | one token consumed once on each channel |
| CapabilityTokens.ReusedIdReplays | src/app/agent/approval/capability-token.js:21-46 | issuing again under the id of any consumed token lets that token pass exactly as far as it still fits |
| Approvals.ApprovalManager.CreateRequest | src/app/agent/approval/approval-manager.js:18-61 | a new request with its allowed choices and expiry, or an error for invalid fields |
| Approvals.ApprovalManager.TaskGrant | src/app/agent/approval/approval-manager.js:14-16 | whether a task-wide grant covers this action |
| Approvals.ApprovalManager.ResolveRequest | src/app/agent/approval/approval-manager.js:63-109 | the checks in order, then decline, hand-off, or a grant and a token |
| Approvals.ApprovalManager.ExpireRequest | src/app/agent/approval/approval-manager.js:111-120 | an open request of this task is closed, any other is left alone |
| Approvals.ApprovalManager.SupersedeRequest | src/app/agent/approval/approval-manager.js:122-128 | an open request of this task and digest is closed, for any other the call fails |
| Approvals.ApprovalManager.Revoke | src/app/agent/approval/approval-manager.js:130-136 | the task's capabilities and grants are withdrawn and its requests closed, what follows for later verifications being stated by `RevokedCapabilityNeverPasses` |
| Approvals.StepSound | src/app/agent/approval/approval-manager.js:18-137 | in every run, exactly when a decision is approved, handed off, declined or late, and exactly when a request is created, expired or superseded, read off the calls before it |
| Approvals.ApprovedIff | src/app/agent/approval/approval-manager.js:63-109 | a decision gives a capability exactly if its request was made before, neither decided nor revoked since, is for the same task, session and digest, has time left, offers the choice, and is not interactive |
| Approvals.DecidedOnce | src/app/agent/approval/approval-manager.js:63-128 | a request is decided at most once in a run, so it yields at most one capability |
| Approvals.RevokedIsNeverDecided | src/app/agent/approval/approval-manager.js:130-137 | a request whose task id was revoked is never decided afterwards |
| Approvals.ApprovedOnlyAsRequested | src/app/agent/approval/approval-manager.js:63-109 | a capability stems from an earlier, non-interactive, unexpired request of the same session and digest that allows the choice, never task-wide for R4, and is bound to that request's fields |
| Approvals.GrantsAreApproved | src/app/agent/approval/approval-manager.js:90-109 | in every reachable state each grant stems from a task-wide approval of a non-interactive request that is not R4 |
| Approvals.HasTaskGrantIff | src/app/agent/approval/approval-manager.js:14-16 | in every reachable state an action counts as granted exactly if a request for this task, digest, session and policy version is active |
| Approvals.ActiveIff | src/app/agent/approval/approval-manager.js:90-109 | a request is active exactly if some step approved it task-wide and no later one revoked its grant |
| Approvals.RevokeIsExact | src/app/agent/approval/approval-manager.js:130-137 | after a revocation no grant of that task id is left and every other grant is as before |
| Approvals.CapabilityPassesIff | src/app/agent/approval/approval-manager.js:63-137 | in every run, whatever else is done at the approval manager and at the token manager: the capability of an approval passes local verification exactly if it is not overlong, 60 s have not gone by since the approval, it is used for its request's five fields, and no step since has revoked its task, used it up or found it expired |
| Approvals.RevokedCapabilityNeverPasses | src/app/agent/approval/approval-manager.js:130-137 | so once its task is revoked at the approval manager, a capability never passes local verification again |
| Approvals.TimeLeftIff | src/app/agent/approval/approval-manager.js:18-25 | a request can be decided until ten minutes have gone by or the session's deadline has come |
| Approvals.TaskScopeIff | src/app/agent/approval/approval-manager.js:22-24 | which requests offer task-wide and which offer single approval; rejecting and cancelling are always offered |
| Approvals.R5TaskApproval | src/app/agent/approval/approval-manager.js:22-109 | a run in which an R5 request is approved task-wide, for every policy that lists that scope |
| ExecutionLedger.ExecutionRuntime.Execute | src/app/agent/execution/execution-runtime.js:20-66 | a call up to its executor: mismatch, replay, error while running, or a start |
| ExecutionLedger.ExecutionRuntime.Resume | src/app/agent/execution/execution-runtime.js:66-131 | after the executor settles: the one retry of a read that never began, or the stored result |
| ExecutionLedger.StepSound | src/app/agent/execution/execution-runtime.js:20-131 | in every interleaving what a call or a settling executor gives is exactly what the history of its invocation says |
| ExecutionLedger.StartedByOneCall | src/app/agent/execution/execution-runtime.js:20-131 | two starts of one invocation come from one call, the second being its retry of a read that never began |
| ExecutionLedger.MutatingStartsOnce | src/app/agent/execution/execution-runtime.js:20-131 | a mutating executor starts at most once |
| ExecutionLedger.StartsAtMostTwice | src/app/agent/execution/execution-runtime.js:20-131 | no executor starts three times |
| ExecutionLedger.LaterCallsReplay | src/app/agent/execution/execution-runtime.js:20-31 | a later call of an invocation starts nothing: another digest is an error, the same one returns exactly a result that was stored before, and is an error while there is none |
| ExecutionLedger.StoredResultIsReplayed | src/app/agent/execution/execution-runtime.js:20-131 | once stored, every later call with that digest returns that very result |
| ExecutionLedger.StoredIff | src/app/agent/execution/execution-runtime.js:20-131 | a result is remembered exactly if a step stored it |
| ExecutionLedger.NeverStartsIff | src/app/agent/execution/execution-runtime.js:20-66 | the executor of an invocation is never started in a run exactly if setting up its first call failed |
| ExecutionLedger.FailedSetupIsFinal | src/app/agent/execution/execution-runtime.js:20-66 | after a failed set-up every later call is an error |
| ExecutionLedger.InvalidResultIsFinal | src/app/agent/execution/execution-runtime.js:66-131 | so it is after a result that its schema rejected |
| SseParser.ParseChunks | src/app/lib/ai.js:320-364 | payloads and outcome depend on the concatenated text only, for every way of cutting it, also between CR and LF |
| SseParser.OutcomeOfText | src/app/lib/ai.js:320-364 | payloads up to the first frame that ends the stream, and that frame's verdict |
| SseParser.InterruptedIff | src/app/lib/ai.js:354-364 | interruption exactly if it was asked for, some frame came and none ended the stream |
| SseParser.EncodedFrames | src/app/lib/ai.js:325-352 | what a server writes frame by frame, with either line ending, comes out frame by frame |
| SseParser.ManyLinesOneFrame | src/app/lib/ai.js:325-352 | a frame of several lines, sent as one `data:` line each, comes out with its line feeds |
| ToolCalls.Assembler.MergeDelta | src/app/lib/ai.js:440-453 | a fragment creates or extends the call of its index |
| ToolCalls.AssembleAll | src/app/lib/ai.js:139-145 | the assembled calls are the calls of the map, strictly sorted by index |
| ToolCalls.MergedByIndex | src/app/lib/ai.js:440-453 | there is a call for exactly the indices that occur, a fragment without an index counting for call 0, with name and arguments its own fragments in arrival order |
| ToolCalls.AssemblyIsUnique | src/app/lib/ai.js:145 | there is only one such listing |
| ToolCalls.OnlyPerIndexOrderMatters | src/app/lib/ai.js:440-453 | any reordering that keeps the order per index gives the same calls |
| TerminalCleaner.StreamingTerminalCleaner.Push | src/app/agent/execution/execution-runtime.js:253-279 | a push gives the visible text from the current state, and moves to the state after it |
| TerminalCleaner.StreamingTerminalCleaner.Preview | src/app/agent/execution/execution-runtime.js:247-251 | a preview gives the same text and leaves the state alone |
| TerminalCleaner.PushAll | src/app/agent/execution/execution-runtime.js:242-280 | chunk by chunk gives the text and state of one push of the whole |
| TerminalCleaner.OutputIsSafe | src/app/agent/execution/execution-runtime.js:253-279 | by code point: only tab, line feed, carriage return and what is neither C0 control nor DEL comes out, and nothing that did not go in |
| TerminalCleaner.PlainIsShown | src/app/agent/execution/execution-runtime.js:253-279 | text without an ESC comes out as it is, but for exactly those other controls |
| TerminalCleaner.CleanIsVisibleText | src/app/agent/execution/execution-runtime.js:253-279 | the state machine shows exactly the text outside CSI, OSC, DCS and two-character sequences (ECMA-48, 7-bit forms), given by an independent definition that looks for the end of each sequence |
| TerminalCleaner.CleanIsStandardIff | src/app/agent/execution/execution-runtime.js:253-279 | it shows exactly the text outside all sequences of the standard, the five control strings of section 5.6 included, if and only if the SOS, PM and APC strings hold nothing visible |
| TerminalCleaner.OtherIsShown | src/app/agent/execution/execution-runtime.js:253-279 | of an SOS, PM or APC string the contents are shown, and after it the machine is in step with the standard again |
| StreamProgress.Progress.Consume | src/app/agent/execution/execution-runtime.js:169-227 | which chunk is accepted and how counters change |
| StreamProgress.AcceptedAreConsecutive | src/app/agent/execution/execution-runtime.js:169-227 | in every run the accepted numbered chunks are 1 to lastSequence in order, and the byte counts are their lengths per stream |
| StreamProgress.AcceptedNextIff | src/app/agent/execution/execution-runtime.js:175-186 | after any run, a chunk is accepted exactly if it is of this invocation or names none, is strict base64 of the announced length, and carries the next number or none; otherwise nothing changes |
| StreamProgress.ForeignIsIgnored | src/app/agent/execution/execution-runtime.js:175-183 | chunks of another invocation, of no strict base64 or of another length than announced make no difference, wherever they arrive |
| StreamProgress.AcceptedIsPrefixOfWritten | src/app/server/session-common.js:146-158 | whatever is dropped, repeated or reordered on the way, what is accepted is a prefix of what was written |
| StreamProgress.InOrderIsAllAccepted | src/app/server/session-common.js:146-158 | delivered in order, everything is accepted |
| BoundedCapture.Capture.Append | src/app/server/session-common.js:13-22 | a chunk extends the captured stream, of which head and tail are kept |
| BoundedCapture.Capture.Result | src/app/server/session-common.js:23-29 | value, total and omitted count of the stream so far |
| BoundedCapture.CaptureChunks | src/app/server/session-common.js:8-29 | the result depends on the concatenated bytes only |
| BoundedCapture.ValueIsStreamIff | src/app/server/session-common.js:23-29 | the value is the stream exactly up to 32 KiB and at 96 KiB |
| BoundedCapture.OverlapIsRepeated | src/app/server/session-common.js:13-29 | in between, the overlap of head and tail appears twice and nothing counts as omitted |
| BoundedCapture.NothingLost | src/app/server/session-common.js:13-29 | from 96 KiB on, head, omitted count and tail account for every byte |
| PreAttachBuffer.RetainedStepwise | src/app/server/session-ssh.js:916-930 | dropping as chunks come keeps the same as dropping at the end |
| PreAttachBuffer.RetainedIsLongestSuffix | src/app/server/session-ssh.js:916-930 | what is kept is a chunk-aligned suffix: everything if it fits 256 KiB, otherwise the longest that fits, never less than the last chunk |
| PreAttachBuffer.PreWsBuffer.OnData | src/app/server/session-ssh.js:904-934 | the dropping loop keeps exactly `Retained` of the early output |
| PreAttachBuffer.PreWsBuffer.Attach | src/app/server/session-ssh.js:935-953 | the first client is handed exactly what was kept |
| TerminalCoalescer.DataHandler.FlushBufferedData | src/app/server/session-server.js:73-101 | a flush logs the whole buffer in order and empties it; it goes to the client as one message exactly if neither transfer handler takes it |
| TerminalCoalescer.DataHandler.Deliver | src/app/server/session-server.js:82-101 | a piece goes to the client exactly if neither transfer handler takes it, and in any case to the log |
| TerminalCoalescer.DataHandler.OnData | src/app/server/session-server.js:109-172 | for every chunk, whatever the transfer handlers answer: logged bytes followed by the buffer are what was received, and a timer is armed exactly while the buffer is not empty; exactly what is sent to the client, from the answers, the chunk's size and the time since the last flush; and whether a transfer is active then |
| TerminalCoalescer.Session | src/app/server/session-server.js:64-172 | a whole session, every chunk handed over or arriving at its own time and with its own answers: log followed by buffer is the kept early output followed by all that arrived; without transfers so is the client's output; a non-empty buffer has an armed timer |
| Base64.DecodeEncode | src/app/agent/execution/execution-runtime.js:282-285 | every encoding (RFC 4648 section 4) is well formed and decodes to its bytes |
| Base64.Alphabet | src/client/common/safe-local-storage.js:23-38 | the alphabet of RFC 4648, table 1 |
| Base64.GroupSpells | src/client/common/safe-local-storage.js:23-38 | three bytes are spelled as the four digits of their 24-bit number to the base 64 |
| Base64.SingleSpells | src/client/common/safe-local-storage.js:23-38 | a last byte on its own is spelled like three that end in zeros, with '=' for the characters that carry none of its bits |
| Base64.DoubleSpells | src/client/common/safe-local-storage.js:23-38 | ... and two last bytes likewise |
| Base64.EncodeAt | src/client/common/safe-local-storage.js:23-38 | every group of three bytes has its own four characters, in order |
| Base64.StrictIffEncoded | src/app/agent/execution/execution-runtime.js:282-285 | the strict test accepts exactly the encodings |
| Base64.StrictHasOnePreimage | src/app/agent/execution/execution-runtime.js:282-285 | an accepted text is the encoding of one byte string only |
| Base64.StrictIffNoStrayBits | src/app/agent/execution/execution-runtime.js:282-285 | strictness adds to the pattern that the bits dropped before the padding are zero (RFC 4648 section 3.5) |
| SafeStorage.Encrypt | src/client/common/safe-local-storage.js:23-38 | the loop over bytes computes the XOR with the repeated key, encoded and marked, what that is bit by bit being stated by `StoredBits`; an empty key or text is stored as it is |
| SafeStorage.Decrypt | src/client/common/safe-local-storage.js:40-57 | the reverse, with legacy values and malformed base64 passed through; unpadded base64 and white space are accepted as `atob` does |
| SafeStorage.StoredBits | src/client/common/safe-local-storage.js:22-38 | behind `enc1:` stands the base64 of as many bytes as the text has in UTF-8, of which bit k of byte i is turned over exactly if bit k of byte i modulo the key's length of the key is 1 |
| SafeStorage.PassesThrough | src/client/common/safe-local-storage.js:40-57 | what is not marked, does not decode, or has no key to be read with, comes back as it is |
| Utf8.EncodedForm | src/client/common/safe-local-storage.js:26-29 | the shortest forms of RFC 3629, section 3, with their marks and the bits they carry |
| Utf8.DecodeStep | src/client/common/safe-local-storage.js:51 | an encoded character at the front is decoded, and decoding goes on behind it |
| Utf8.DecodeError | src/client/common/safe-local-storage.js:51 | malformed UTF-8: one U+FFFD stands for the longest beginning of a character, or for one byte that begins none (The Unicode Standard, section 3.9) |
| SafeStorage.DecryptEncrypt | src/client/common/safe-local-storage.js:23-57 | the outcome of a round trip for every UTF-16 text and key |
| SafeStorage.TextDecodeEncode | src/client/common/safe-local-storage.js:23-57 | what the platform's encoder and decoder make of a text: a leading mark is dropped and lone surrogates are replaced |
| Utf16.UnitsOfCharsIff | src/client/common/safe-local-storage.js:23-57 | going through characters keeps the length of a text, and the text itself exactly if it has no lone surrogate |
| Atob.DecodesWellFormed | src/client/common/safe-local-storage.js:40-57 | on padded text the forgiving decoder is the decoder of RFC 4648 |
| Atob.DecodesUnpadded | src/client/common/safe-local-storage.js:40-57 | without its padding the same text decodes to the same bytes |
| Atob.DecodesIff | src/client/common/safe-local-storage.js:45 | white space aside, text is decoded exactly if its quads are properly padded or its padding is missing altogether |
| Atob.SpaceIsIgnored | src/client/common/safe-local-storage.js:45 | ASCII white space does not matter, wherever it stands |
| SafeStorage.RoundTripIff | src/client/common/safe-local-storage.js:23-57 | it is the text itself exactly unless a key is set and the text starts with U+FEFF or has a lone surrogate |
| SafeStorage.EncryptedIsMarked | src/client/common/safe-local-storage.js:23-57 | an encrypted value is marked and strictly encoded, so never taken for a legacy one |
| PackageInstaller.Installer.InstallPackage | src/app/lib/npm.js:25-53 | the walk ends on every finite graph; it visits reachable packages only, is closed when it completes, and stops only at a package that cannot be downloaded |
| PackageInstaller.DownloadPackage | src/app/lib/npm.js:25-64 | succeeds exactly if all packages reached are there or downloadable; the folder then holds exactly those besides what it held, and everything needed exactly under the condition of `CompleteIff`; nothing is downloaded twice; a download that breaks off leaves its folder |
| PackageInstaller.CompleteIff | src/app/lib/npm.js:25-64 | a success report means that the package is there with all it depends on exactly if each dependency of a needed package that was there before was there too or is reached by the walk |
| PackageInstaller.RetryAfterFailure | src/app/lib/npm.js:25-64 | from an empty folder: the second call succeeds exactly if the first left the package's folder, then downloads nothing, and some package that is needed was never installed completely exactly if the first call failed |
| EvidenceStore.Store.Evict | src/app/agent/evidence/evidence-store.js:116-130 | the eviction loop removes exactly the records and files of `Gone` |
| EvidenceStore.Store.Write | src/app/agent/evidence/evidence-store.js:52-58 | a write evicts, then stores record and file or is refused with the manifest unchanged |
| EvidenceStore.FitsIff | src/app/agent/evidence/evidence-store.js:52-58 | a write succeeds exactly if the record alone is within the quota |
| EvidenceStore.StoredWithinQuota | src/app/agent/evidence/evidence-store.js:52-58 | after a write that succeeds the stored bytes are within the quota |
| EvidenceStore.EvictsShortestPrefix | src/app/agent/evidence/evidence-store.js:116-130 | the evicted records are the shortest sufficient prefix of the eviction order |
| EvidenceStore.EvictsInOrder | src/app/agent/evidence/evidence-store.js:116-130 | non-critical before critical, then least recently used: a critical record goes only after every non-critical one |
| EvidenceStore.RefusedWriteLosesFiles | src/app/agent/evidence/evidence-store.js:52-58 | a refused write has removed the file of every record that takes room |
| EvidenceStore.RefusedWriteKeepsIff | src/app/agent/evidence/evidence-store.js:116-130 | of a refused write exactly those files survive from which on, in the order of eviction, nothing takes room, if they and the new record are critical |
| EvidenceStore.WrittenIsListed | src/app/agent/evidence/evidence-store.js:52-58 | a write that succeeds lists the new record last, as it came in, behind the kept records as they were |
| EvidenceStore.InStepIff | src/app/agent/evidence/evidence-store.js:52-58 | a write keeps manifest and files in step exactly unless it is refused after something was evicted |
| EvidenceStore.RunStaysInStep | src/app/agent/evidence/evidence-store.js:52-58 | in every run of writes none of which is larger than the quota, the manifest lists exactly the files there are, within the quota |
| BookmarkGroups.BookmarkStore.FixBookmarkGroups | src/client/store/bookmark-group.js:109-198 | the repair in its steps: default group, cleaning, stray bookmarks, stray groups |
| BookmarkGroups.BookmarkStore.DelBookmarkGroup | src/client/store/bookmark-group.js:47-107 | a deletion hands members to the parent or the default group, removes the group and moves the current group; groups in the legacy text form stay as they are |
| BookmarkGroups.FoundStored | src/client/store/bookmark-group.js:56-77 | searching a list with legacy text groups finds the same group as searching the others alone |
| BookmarkGroupLaws.RepairRepairs | src/client/store/bookmark-group.js:109-198 | no dangling or self references, every bookmark in a group, every non-default level-2 group under a parent, all groups kept in order |
| BookmarkGroupLaws.RepairIsIdempotent | src/client/store/bookmark-group.js:109-198 | running it again changes nothing |
| BookmarkGroupLaws.RepairKeepsMembers | src/client/store/bookmark-group.js:109-198 | a group keeps each of its bookmarks that exists |
| BookmarkGroupLaws.RepairedMembersIff | src/client/store/bookmark-group.js:109-172 | after a repair a group holds exactly the existing bookmarks that it held before, and the default group also those that no group held |
| BookmarkGroupLaws.RepairedChildrenIff | src/client/store/bookmark-group.js:109-198 | ... and lists exactly the existing other groups that it listed before, and the default group also each child group that no other group lists |
| BookmarkGroupLaws.NormalizedAt | src/client/store/bookmark-group.js:114-123 | a repair starts from every stored group in order, objects and texts that parse |
| BookmarkGroupLaws.WithDefaultIs | src/client/store/bookmark-group.js:125-132 | ... with an empty default group in front if there is none |
| BookmarkGroupLaws.DeletionHandsOver | src/client/store/bookmark-group.js:47-107 | after a deletion the first group that lists the deleted child, or the default group if none does or it is no child, holds its bookmarks and children too and is current in its place; every other group stands as it was |
| BookmarkGroupLaws.NotDeletedIff | src/client/store/bookmark-group.js:47-72 | nothing is deleted if it is the default group or no group, or fails if nobody can take over |
| BookmarkGroupLaws.MergedInOrder | src/client/store/bookmark-group.js:82-94 | the lists of the group that takes over keep their order in front and get nothing twice |
| BookmarkGroupLaws.DeleteKeepsGroupedIff | src/client/store/bookmark-group.js:47-107 | the set of grouped bookmarks stays exactly unless the group is its own heir and alone holds some |
| BookmarkGroupLaws.DeleteKeepsCurrentIff | src/client/store/bookmark-group.js:47-107 | the current group stays valid exactly unless it is deleted while its own heir |
| BookmarkGroupLaws.DeleteFromRepaired | src/client/store/bookmark-group.js:47-107 | in groups in good order every deletion is safe |
| BookmarkGroupLaws.DeleteAfterRepair | src/client/store/bookmark-group.js:47-198 | so it is after every repair |
| BookmarkGroupLaws.StaysListedIff | src/client/store/bookmark-group.js:47-107 | a deletion leaves a reference to the deleted group exactly if another group lists it, or it lists itself and another group inherits its children |
| BookmarkGroupLaws.DeletedChildStaysListed | src/client/store/bookmark-group.js:60-107 | a deleted child stays listed under its parent |

## Left out

* Electron, sockets, the SSH and SFTP libraries, the file system, HTTP, tar,
  real timer durations, JSON text and the user interface: callbacks, maps,
  parameters or abstract values stand for them.
* Cryptography: MACs, the row cipher and hashed known_hosts tokens are ideal
  or uninterpreted. Wildcard tokens are uninterpreted as well.
- KnownHostsSafety.AcceptedIsFoundIff: does not cover host names or keys that contain `*`, `?` or `|`, whose tokens are matched by the uninterpreted predicates.
- KnownHostsSafety.AppendedIsFoundIff: leaves out the same names, for the same reason.
- KnownHostsSafety.LateAppendIff: leaves out the same names, for the same reason.
- KnownHostsSafety.LateAnswerIff: leaves out the same names; a removal and the append that follows it are one step.
- KnownHosts.KnownHostsFile.Verify: the file does not change between verdict and answer; `Finish` with `LateAnswerIff` covers that it does.
* Redaction, the policy engine, the gateway and the intent normaliser: what is
  stated about text is stated before redaction.
* Parallel copy: the fallback of `fstat` to `stat`, scp and folder transfers,
  and what `destroy` does to timers and handles. A failed write stores
  nothing; reads put bytes of an unchanging source into their region.
- RowStore.Database.Write: covers records with an id; drawing one for a record that has none happens before it.
* Persistence: failing statements, and the uploads after a firing. A record's
  JSON text is a value; two texts are equal exactly if the values are.
* Approval display fields and schema checks other than those that decide what
  is accepted.
* Execution: contents of results, evidence and progress messages; time-outs
  and cancellation are the `aborted` flag of a settlement.
* Decoding UTF-8 at cut points in capture, progress and the SSE parser: bytes
  are bytes, text is text after decoding.
- BoundedCapture.Capture.Result: counts omitted bytes against the bytes shown; the source counts them against the decoded text, which differs when a cut or the output itself is no valid UTF-8.
* Local storage: clearing and quotas.
* The terminal: protocol internals of the file transfers (a handler answers
  whether it takes a piece and whether it is active afterwards), a second
  client of one terminal, and the 8-bit forms of control sequences.
* The installer: fetching manifests, unpacking, and version ranges.
* Evidence: reading, deleting, clean-up by age, hashes and compression.
* Small helpers, defaults, themes, titles and the tool registration table,
  which would only add easy members.
