# Verification of interactive-process-mcp

A Dafny model of the parts of interactive-process-mcp where correctness depends on
interleavings, on text transformations, or on what a crash leaves on disk, with proofs
about every run and every input. Verify it with `dafny verify dfyconfig.toml`.

## What is modelled

**The multi-reader output buffer** (`internal/buffer/buffer.go`). `Ring` is the overwriting
byte ring, as a circular array. `LogSpec` is what the buffer means: one log of accepted
bytes and a cursor per reader. `Buffer` is the class over rings, each of whose methods is
proved to do to the log what `LogSpec` says. `ReadProtocol` is the same buffer as a
labelled transition system with the mutex, the condition variable, any number of `Read`
calls and their timer goroutines; `ReadGuarantees`, `ReadLedger` and `ReadProgress` hold its
theorems.

**The text pipeline** (`internal/ansi`, `readOutput`). `Strip` gives leftmost-first
meaning to the escape-sequence expression and proves a scanner without backtracking equal
to it; `StripForms` spells out what is removed, and `StripLaws` when stripping twice, or in
pieces, is stripping once. `Compact` holds the loops of the normaliser, `CompactLaws` its
laws, and `Output` the line limit and the composition of the three stages.

**The session lifecycle and registry** (`internal/session`). `Lifecycle` is the exit
goroutine against any number of `Terminate` calls, and `Termination` the reasons for what a
`Terminate` does; `OutputPump` holds the goroutines that feed the buffer, and `Pipeline`
composes them with the buffer's transition system, from what a process writes to what Reads
return. `RegistryLocks` is the registry under its read-write mutex, `RegistryList` which
session list ends up on disk, and `Registry` the data flow of `Create`, `Delete` and
`CleanupAll`.

**The message log and command quoting** (`internal/message`, `internal/storage`,
`shellQuote`). `Storage` is the store and `Append` on their own, `MessageLog` any number
of concurrent `Append`s with failing file operations and process crashes,
`MessageProgress` that they all come back, `Paths` the map from records to file names,
`ShellQuote` a printer with its parser, and `QuoteLaws` what the quoting protects.

## Where the code and its documentation disagree

The model follows the code; each point is a theorem.

- A `Read` can outlive its deadline for ever (`LostWakeUpRun`), although CHANGELOG.md:65
  and CHANGELOG.md:75 promise that reads return after the timeout: the timer goroutine
  broadcasts once, without the mutex (internal/buffer/buffer.go:119), and that broadcast
  can fall between Read's last test and its wait. From then on it waits for as long as
  nobody else broadcasts (`LostUntilRescued`). This is the only way to lose a wake-up
  (`LostExactlyWhenFiredInWindow`), and taking the mutex first removes it
  (`UnderLockNeverLoses`, `RaisedReadsReturn`).
- The exit goroutine is not the single authority for the exit code (README.md:113,
  CHANGELOG.md:83): `Terminate`'s fallback can record -1 for a process that is already done
  (`FallbackCanBeatExitGoroutine`). `FirstClaimDecides` says exactly when.
- `CleanupAll` waits for all sessions to exit "before persisting" (CHANGELOG.md:85), but
  stores the list it captured before terminating them (`Registry.Manager.CleanupAll`;
  `StoredStillRunning` is a session that exits and stays stored as running). That
  capture also takes a second read lock inside the first
  (internal/session/manager.go:97-104), and a writer arriving in between blocks both
  for ever (`CleanupCanDeadlock`, `CaughtForEver`).
- A failed index load replaces the index by the new entry alone
  (internal/message/message.go:53-56): `LosesExactlyAfterFailedLoad`, `LoadErrorForgets`.
- The normaliser's comment promises to trim trailing blank lines
  (internal/ansi/compact.go:10-13); text that is otherwise clean and ends in a blank line
  takes the fast path and keeps it (`FastAgainstSlow`). `BlankEndStays` says exactly when a
  result ends in a blank line, and `BlankEndKept` is an input.
- The saved session list can go back in time: a goroutine lists under the read lock and
  saves after releasing it (internal/session/manager.go:126-136), so a deleted session can
  return to the disk as running (`DeletedComesBack`). `SavedList` says exactly when the
  list on disk is the registry's.
- Stripping is neither idempotent nor indifferent to where a Read cuts the output
  (internal/ansi/strip.go:16-18, internal/session/session.go:193-201):
  `StripIsNotIdempotent` and `CutSequenceLeaks` are inputs, `StripTwice` and
  `StripInPieces` the exact conditions under which each is harmless.
- The last output of a process can be lost: the exit path closes the buffer while a pump
  still has bytes to write (`CloseDropsOutput`, `ShareAfterClose`).
- A reader registered late starts with nothing (internal/buffer/buffer.go:53-57,
  `NewReaderViews`); README.md:178 shows one that reads from the beginning.
- A failed rename leaves the temporary file behind (internal/storage/store.go:68,
  `Storage.Store.AtomicWriteFile`), unlike every other failure; `TempsAccounted` says that
  only this and a crash leave one.

## Model

| member | source | states |
|---|---|---|
| Ring.Ring.Write | internal/buffer/buffer.go:55-57 | in overwrite mode a write of any length leaves the last `capacity` bytes of what was there plus the chunk |
| Ring.Ring.Drain | internal/buffer/buffer.go:161-168 | a drain returns every unread byte, oldest first, across the wrap-around, and empties the ring |
| LogSpec.WriteViews | internal/buffer/buffer.go:70-84 | on the log view, a write pushes the chunk into every reader's pending bytes, keeping the last `size`; a closed buffer is unchanged |
| LogSpec.DrainViews | internal/buffer/buffer.go:159-168 | one reader's drain empties its own view and changes no other reader's |
| LogSpec.NewReaderViews | internal/buffer/buffer.go:47-59 | on an open buffer exactly one reader is added, empty, under an unused id; no other view changes |
| LogSpec.UnregisterViews | internal/buffer/buffer.go:62-67 | exactly this reader is gone and no other view changes |
| LogSpec.Conservation | internal/buffer/buffer.go:70-168 | delivered + overwritten + pending bytes equal the bytes written since registration |
| LogSpec.SegmentsIncrease | internal/buffer/buffer.go:90-168 | on the log view, the segments delivered to a reader are disjoint and increasing, and a gap occurs only before a segment that fills the ring; `ReadLedger.RunKeepsLedger` shows that these segments are what Reads returned |
| Buffer.WriteAll | internal/buffer/buffer.go:79-81 | the loop over the reader map gives every ring the chunk, in whatever order it visits them |
| Buffer.Buffer.constructor | internal/buffer/buffer.go:33-43 | a new buffer is the empty log, with the default size for a non-positive one |
| Buffer.Buffer.NewReader | internal/buffer/buffer.go:47-59 | refines the log's registration; fails exactly on a closed buffer |
| Buffer.Buffer.Unregister | internal/buffer/buffer.go:62-67 | refines the log's unregistration, also for unknown ids |
| Buffer.Buffer.Write | internal/buffer/buffer.go:70-84 | refines the log's append; an empty chunk succeeds even on a closed buffer, others fail there |
| Buffer.Buffer.Drain | internal/buffer/buffer.go:159-168 | returns exactly the reader's pending bytes and moves only its cursor |
| Buffer.Buffer.ReadEntry | internal/buffer/buffer.go:90-111 | up to the wait, in order: unknown id, pending data, closed buffer, non-positive timeout, must wait |
| Buffer.Buffer.HasMore | internal/buffer/buffer.go:171-179 | true exactly for a registered reader with pending bytes |
| Buffer.Buffer.Close | internal/buffer/buffer.go:182-187 | closes the log and changes no view |
| ReadGuarantees.RunKeeps | internal/buffer/buffer.go:47-187 | in every state of every interleaving: rings equal to the log view, the mutex discipline, exact outcomes, owed broadcasts and disjoint results |
| ReadGuarantees.Conservation | internal/buffer/buffer.go:47-168 | in every run each reader's ring is the last min(size, n) of the n bytes since its cursor, and the log view accounts for all bytes since registration |
| ReadLedger.RunKeepsLedger | internal/buffer/buffer.go:90-168 | in every run the segments delivered to a registered reader and the data its Reads returned are the same: each segment was returned by a call, each result is a segment, and the byte counts agree |
| ReadLedger.OutcomesConserve | internal/buffer/buffer.go:70-168 | in every run the bytes returned by all Reads of a reader, the overwritten ones and the ones in its ring add up to everything written since it registered |
| ReadLedger.GapsAreExact | internal/buffer/buffer.go:70-168 | each result is the last min(size, n) of the n bytes written since the nearest earlier result of that reader, or since it registered |
| ReadLedger.ReturnsInOrder | internal/buffer/buffer.go:90-168 | what a Read returns lies in the log after everything that Reads of the same reader had returned before |
| ReadGuarantees.ReadsAreDisjoint | internal/buffer/buffer.go:90-168 | overlapping Reads on one id return disjoint stretches of the log |
| ReadGuarantees.OutcomeIsExact | internal/buffer/buffer.go:92-156 | data only from a ring registered at the drain, and all of it; EOF only when closed and empty; (nil, nil) only from an open, empty, registered reader and only for a reason: not to wait, a passed deadline at its test, a cancelled context at its poll; the final nil, nil is unreachable |
| ReadGuarantees.ReturnsExactly | internal/buffer/buffer.go:90-156 | when a step ends a Read: at once for an unknown id, data, a closed buffer or a timeout that is not positive; at the loop for data or a passed deadline; at the poll for a cancelled context; on waking for an unregistered id; and in no other case |
| ReadGuarantees.CapturedRing | internal/buffer/buffer.go:92-147 | the ring captured at entry stays the one its id maps to until unregistration |
| ReadGuarantees.ParkedIsOwed | internal/buffer/buffer.go:127-145 | a parked Read has an empty ring, and if Close or Unregister falsified its condition a Broadcast that needs no lock is still owed and wakes it |
| ReadGuarantees.UnderLockNeverLoses | internal/buffer/buffer.go:116-124 | if the timer goroutine broadcasts under the mutex, no run loses a wake-up |
| ReadGuarantees.LostExactlyWhenFiredInWindow | internal/buffer/buffer.go:113-145 | as written, a parked Read's wake-up is lost if and only if its goroutine's broadcast fell between a test and the wait that followed |
| ReadProgress.LostWakeUpRun | internal/buffer/buffer.go:113-140 | a concrete run in which the deadline passes, the one broadcast is spent and the Read parks afterwards |
| ReadProgress.OnlyOthersRescue | internal/buffer/buffer.go:62-84 | a step ends such a wait if and only if it is a Close or Unregister broadcast, an accepted Write, or the broadcast of another call's goroutine |
| ReadProgress.LostUntilRescued | internal/buffer/buffer.go:113-145 | in every continuation without such a step the Read stays parked with its deadline or context fired |
| ReadProgress.QuietMeansWaiting | internal/buffer/buffer.go:127-156 | no deadlock: when nothing can move, every Read has returned or waits on an open, empty, registered reader, with its deadline unfired unless its wake-up was lost |
| ReadProgress.InternalStepsRunOut | internal/buffer/buffer.go:113-156 | left alone, the goroutines come to rest within a number of steps bounded by a measure of the state |
| ReadProgress.RaisedReadsReturn | internal/buffer/buffer.go:113-156 | with the broadcast under the mutex, a Read whose deadline or context fired has returned by the time everything rests, within a bounded number of steps |
| ReadProgress.EventRaises | internal/buffer/buffer.go:113-139 | a deadline that has passed or a cancellation stays raised for ever |
| Compact.NeedsCompact | internal/ansi/compact.go:61-99 | false exactly when the text has no control byte, no carriage return, no blank before a newline or the end, no three newlines in a row and no leading newline |
| CompactLaws.CleanMeans | internal/ansi/compact.go:68-98 | the same condition in byte values |
| Compact.CountRun | internal/ansi/compact.go:84-91 | the two counters detect a run of three newlines exactly |
| Compact.FilterBytes | internal/ansi/compact.go:24-36 | what is kept is the text at strictly increasing positions, and these are exactly the positions of tab, newline, carriage return, printable ASCII and bytes beyond ASCII |
| Compact.CleanEachLine | internal/ansi/compact.go:40-48 | cuts each line to what follows its last carriage return, without trailing blanks |
| Compact.Compact | internal/ansi/compact.go:14-59 | returns clean text as it is and puts anything else through all stages |
| CompactLaws.CleanLineKeeps | internal/ansi/compact.go:42-48 | the kept part of a line is exactly the stretch between the last carriage return and the trailing blanks |
| CompactLaws.Overwrites | internal/ansi/compact.go:26-48 | on one line, what follows a carriage return replaces what precedes it, through all three stages |
| CompactLaws.TrimsExactly | internal/ansi/compact.go:51-56 | after the per-line stage the text is folded by the expression, loses its leading newlines, and loses its trailing ones exactly if it would end in a blank line |
| CompactLaws.FoldIsReplace | internal/ansi/compact.go:8 | folding is the leftmost-first replacement of three or more newlines by two |
| CompactLaws.CrLfIsReplace | internal/ansi/compact.go:38 | the CRLF stage is the left-to-right replacement of every CR NL by NL |
| CompactLaws.SlowIsClean | internal/ansi/compact.go:24-58 | for every input the stages end in clean text that does not end in a blank line |
| CompactLaws.CompactIsClean | internal/ansi/compact.go:14-59 | for every input the result is clean |
| CompactLaws.CompactIdempotent | internal/ansi/compact.go:14-59 | compacting twice is compacting once |
| CompactLaws.FixedPoints | internal/ansi/compact.go:19-22 | Compact returns its input if and only if the fast test finds nothing to do |
| CompactLaws.FastAgainstSlow | internal/ansi/compact.go:19-58 | on clean text the stages return the input if and only if it does not end in two newlines, and otherwise the input without its trailing newlines |
| CompactLaws.BlankEndStays | internal/ansi/compact.go:19-58 | a result of Compact ends in a blank line if and only if its input is clean and ends in one |
| CompactLaws.BlankEndKept | internal/ansi/compact.go:19-22 | an input whose final blank line the fast path keeps and the stages remove |
| CompactLaws.LineByLine | internal/ansi/compact.go:24-49 | for every a and b the filter, CRLF and per-line stages treat the parts before and after a newline independently, once one carriage return at the end of the filtered a is dropped |
| CompactLaws.LineHomomorphism | internal/ansi/compact.go:24-49 | N(a + newline + b) = N(a) + newline + N(b) whenever the filtered a does not end in a carriage return |
| Strip.FirstIsAMatch | internal/ansi/strip.go:7-13 | the preference-ordered search finds a match exactly when one exists |
| Strip.ScanIsStrip | internal/ansi/strip.go:7-18 | the scanner without backtracking and the leftmost-first expression agree on every input |
| Strip.MatchedIffShortMatches | internal/ansi/strip.go:8-13 | an ESC is removed if and only if the fourth alternative matches there |
| Strip.CharsetIsRedundant | internal/ansi/strip.go:11 | without the third alternative every input is stripped to the same text |
| StripForms.PlainKept | internal/ansi/strip.go:16-18 | a byte other than ESC is kept |
| StripForms.CsiRemoved | internal/ansi/strip.go:9 | ESC, [ or (, parameter bytes 0x30-0x3F, intermediate bytes 0x20-0x2F and a final byte 0x40-0x7E are removed together |
| StripForms.CsiUnfinished | internal/ansi/strip.go:9-12 | without a final byte only ESC [ goes, or ESC ( and a parameter, or ESC ( up to a byte that ends a short sequence |
| StripForms.OscRemoved | internal/ansi/strip.go:10 | ESC ] goes up to the first BEL or ESC \ on its line |
| StripForms.OscUnfinished | internal/ansi/strip.go:10-12 | without one, only ESC ] goes |
| StripForms.ShortRemoved | internal/ansi/strip.go:12 | another ESC goes with intermediate bytes and one byte 0x30-0x7E |
| StripForms.EscKept | internal/ansi/strip.go:7-13 | an ESC that none of these follows is kept |
| StripLaws.StripTwice | internal/ansi/strip.go:16-18 | a second strip changes nothing if and only if no ESC that the first one keeps meets, as the first kept byte that is not intermediate, one that ends a short sequence; one scan of the input decides it |
| StripLaws.StripIsNotIdempotent | internal/ansi/strip.go:16-18 | an input whose stripped text contains a sequence that a second strip removes |
| StripLaws.StripInPieces | internal/session/session.go:193-201 | stripping two pieces apart is stripping them together if and only if along the scan every sequence ends inside the first piece, or reaches into the second with both its parts made of whole sequences of their piece |
| StripLaws.CutSequenceLeaks | internal/session/session.go:193-201 | a colour code cut by a read boundary leaves both its halves in the output |
| Output.ReadOutput | internal/session/session.go:192-212 | the value is the data read, or Compact of Strip of it, whole without a limit and with one cut in front of the newline that is one too many; EOF reads as no data; other errors pass through unlogged; exactly a non-empty value is logged |
| Output.LimitIsExact | internal/session/session.go:202-207 | the limit keeps a prefix with at most k - 1 newlines and cuts only in front of the newline that would be one too many |
| Output.StrippedOutputIsClean | internal/session/session.go:197-207 | with stripping on, the output has no ESC, is clean, and is a fixed point of Compact even after the cut |
| Lifecycle.RunKeeps | internal/session/session.go:137-258 | in every interleaving of the exit goroutine, any Terminates and the environment, both onces, the mutex and the finishing body are consistent |
| Lifecycle.ExitState | internal/session/session.go:139-152 | whenever the finisher does not hold the mutex the exit code is present if and only if the status is exited; it is the process's code or, after Close, -1; at most one exit message |
| Lifecycle.FinalStateIsFinal | internal/session/session.go:140-152 | status, exit code, messages and closed buffer never change back |
| Lifecycle.FirstClaimDecides | internal/session/session.go:244-256 | the recorded code is the process's if and only if the exit goroutine claimed exitOnce; a fallback claims only after Close |
| Lifecycle.FallbackCanBeatExitGoroutine | internal/session/session.go:237-256 | a run in which the process is done with code 0 and -1 is recorded |
| Lifecycle.TerminateReturns | internal/session/session.go:226-258 | a Terminate that returned, first or repeated, leaves the process done if nobody closed the exec session, and otherwise the session exited with code, closed buffer and one message |
| Lifecycle.QuietMeansFinished | internal/session/session.go:137-258 | no deadlock: when nothing can move every Terminate has returned, and a done process has its session exited, its buffer closed and one message |
| Lifecycle.TerminatesReturn | internal/session/session.go:226-258 | every Terminate returns: left alone, the goroutines and their timers come to rest within a number of steps bounded by a measure of the state, with every call returned |
| Termination.CloseHasReason | internal/session/session.go:228-237 | the exec session is closed only by a Terminate that was forced, or that was graceful, has signalled and whose grace period ran out |
| Termination.GracefulKeepsCode | internal/session/session.go:228-235 | if no Terminate is forced and no grace period runs out, nothing is closed and a recorded code is the process's |
| Termination.FallbackHasReason | internal/session/session.go:237-244 | a fallback claims the exit only after such a Close, with the process done or waited for |
| Termination.SignalExactly | internal/session/session.go:228-229 | a graceful Terminate past its start has sent SIGTERM, and it is sent for no other reason |
| OutputPump.LogMergesPrefixes | internal/session/session.go:111-135 | in every run the log's bytes from each pipe are a prefix of that pipe's stream, in order, and all that was read while the buffer is open |
| OutputPump.OnlyClosingDrops | internal/session/session.go:113-129 | before a read error, done or Close, a pump runs and nothing it read is missing |
| OutputPump.StoppedPumpDelivered | internal/session/session.go:115-127 | a stopped pump has everything it read in the log if the buffer is still open |
| OutputPump.FailedPumpStops | internal/session/session.go:115-123 | after a read error a pump delivers what came with it, stops, and never reads again |
| OutputPump.OneMoreRead | internal/session/session.go:124-128 | once the done channel is closed a pump reads at most once more |
| OutputPump.DrainingStep | internal/session/session.go:115-128 | and each of its steps then is possible and brings it nearer to stopping |
| OutputPump.ShareAfterClose | internal/session/session.go:115-147 | after Close each pipe's share of the log is for ever exactly what its pump had read by then, less the chunk in its hands |
| OutputPump.CloseDropsOutput | internal/session/session.go:115-147 | a run in which the only byte a process wrote is read and still never reaches the log |
| Pipeline.RunKeeps | internal/session/session.go:111-135 | in every run of the pumps and the buffer together, both see one log and keep all their invariants |
| Pipeline.LogMerges | internal/session/session.go:111-135 | for any number of pumps, every stretch of the log is a merge: each byte comes from some pump, and each pump's bytes are, in order, its stream from where the log had got to at the start of the stretch to where it had got to at its end |
| Pipeline.ResultsAreOutput | internal/session/session.go:111-135 | every result of a Read is a stretch of the log, and so a merge of stretches of what the process wrote to its pipes |
| Pipeline.ResultsJoinUp | internal/session/session.go:111-135 | the results of a reader that lost nothing to overwriting join up to a merge of what the process wrote to each pipe from the reader's registration to its last result, nothing missing and nothing twice |
| Pipeline.OnePipeJoinsUp | internal/session/session.go:111-135 | if the process wrote to one pipe only, they join up to exactly what it wrote in between |
| RegistryLocks.AbsentMeansExited | internal/session/manager.go:76-93 | in every run a session once registered and now absent has exited |
| RegistryLocks.OnlyDeleteRemoves | internal/session/manager.go:78-93 | a session leaves the registry only in Delete, under the write lock, while exited |
| RegistryLocks.SecondReadLock | internal/session/manager.go:97-104 | between CleanupAll's two read locks it can continue if and only if no writer waits |
| RegistryLocks.CaughtForEver | internal/session/manager.go:97-104 | otherwise, in every continuation of the run, neither it nor the writer ever moves and nobody else gets a read lock |
| RegistryLocks.CleanupCanDeadlock | internal/session/manager.go:97-104 | a concrete run that reaches that state |
| RegistryLocks.OnlyCleanupDeadlocks | internal/session/manager.go:33-137 | in every reachable state in which nothing can move, every goroutine has ended or a CleanupAll is caught like this |
| RegistryLocks.DeleteDecides | internal/session/manager.go:78-93 | Delete ends at once for an unknown session, refuses a running one and removes an exited one |
| RegistryLocks.TerminateDecides | internal/session/manager.go:66-74 | Terminate saves for a registered session and does nothing for an unknown one |
| RegistryLocks.OneLockAtATime | internal/session/manager.go:54-124 | read locks are taken and given back one at a time |
| RegistryList.SavedList | internal/session/manager.go:126-136 | the saved list is the one some goroutine took at an earlier step, and it is the registry's list now if and only if every session registered, removed or exited since that step has both come and gone |
| RegistryList.ChangeIsSaved | internal/session/manager.go:33-93 | whoever registers, removes or terminates a session has listed the registry after that and saved the list by the time it is done |
| RegistryList.DeletedComesBack | internal/session/manager.go:33-45 | a run that ends at rest with an empty registry and a saved list showing the deleted session as running |
| Registry.Manager.Create | internal/session/manager.go:33-45 | registers a fresh running session under the id and stores the list with it |
| Registry.Manager.Delete | internal/session/manager.go:78-93 | refuses exactly a registered running session, removes nothing else, and stores the remaining list |
| Registry.Manager.CleanupAll | internal/session/manager.go:96-124 | tells every session to terminate; stores the list as it was before that, so it shows only exited sessions if and only if all had exited at the start, while the wait loop's success would have made a later snapshot all exited |
| Registry.StoredStillRunning | internal/session/manager.go:103-123 | a concrete sequence after which the only session has exited and the stored list shows it running |
| Registry.Manager.AllExited | internal/session/manager.go:111-117 | the poll is true exactly when every session has exited |
| Paths.PathsAreInjective | internal/storage/store.go:15-25 | for accepted ids two different records never share a path |
| Paths.TempIsNoTarget | internal/storage/store.go:45 | no temporary name is a record's path |
| Paths.Layout | internal/storage/store.go:80-165 | the paths of the session list, an index and a message, as README.md:109-111 lays them out |
| Paths.IdCharsAre | internal/storage/store.go:17 | the whitelisted characters are the ASCII letters and digits, underscore and hyphen |
| Storage.Store.AtomicWriteFile | internal/storage/store.go:43-69 | success replaces exactly the target; any failure leaves every file as it was, except that a failed rename leaves the temporary file |
| Storage.Store.SaveMessage | internal/storage/store.go:151-171 | stores exactly this record, or changes no record and says whether an id or the disk was at fault |
| Storage.Store.SaveMessageIndex | internal/storage/store.go:108-125 | stores exactly this session's index, or changes no record |
| Storage.Store.LoadMessageIndex | internal/storage/store.go:128-148 | a missing index is the empty one; an unreadable one is an error |
| Storage.Store.LoadMessage | internal/storage/store.go:174-194 | succeeds exactly for valid ids with a stored message, and returns it; the errors tell an invalid id, a missing file and an unreadable one apart |
| Storage.Store.LoadMessages | internal/storage/store.go:197-207 | returns the messages found, in the order asked, skipping the others |
| Storage.FoundInParts | internal/storage/store.go:199-204 | a list of ids is looked up part by part, so one that is missing stops nothing |
| Storage.FoundOne | internal/storage/store.go:199-204 | a valid id with a stored message gives that message, any other gives nothing |
| Storage.Manager.SessionLock | internal/message/message.go:24-33 | one mutex per session, the same one on every call |
| Storage.Manager.Append | internal/message/message.go:36-67 | undisturbed, success means the message is stored and its entry, with its id, type, time and length, ends the index; an error leaves the index alone; no other record changes; the session has its mutex |
| Storage.LoadErrorForgets | internal/message/message.go:53-56 | a concrete sequence in which an unreadable index makes Append drop an earlier entry |
| MessageLog.RunKeeps | internal/message/message.go:36-67 | through every step, fault and crash in any interleaving of Appends all records are whole, indexes name stored messages, and the locks are exclusive |
| MessageProgress.HeldByAWorkingCall | internal/message/message.go:49-51 | in every run a session's mutex is held only by an Append between its load and its rename: one that succeeded or failed has given it back |
| MessageProgress.SavesExclude | internal/storage/store.go:112-159 | while a call writes a file no other call writes or loads |
| MessageProgress.FailsExactly | internal/message/message.go:45-65 | an Append fails exactly when one of its file operations does or an id is invalid; a failed index load is no reason |
| MessageProgress.AppendsReturn | internal/message/message.go:36-67 | left alone, the Appends come to rest within a number of steps bounded by a measure of the state, and at rest each has succeeded or failed |
| MessageProgress.TempsAccounted | internal/storage/store.go:43-69 | in every run a temporary file is being written or was abandoned by a crash or a failed rename, and the next name is unused |
| MessageProgress.CrashStops | internal/message/message.go:14-22 | a crash keeps the files and leaves neither an Append nor a lock |
| MessageLog.DiskIsAlwaysWhole | internal/storage/store.go:43-69 | in every reachable state every record file is complete, and every index entry names a stored message of the same type, size and time, once |
| MessageLog.OldOrNew | internal/storage/store.go:43-69 | at every step of every run each record keeps its content, or the step is a rename of which it is the one target and it holds the complete new content: a message that had no file, or an index whose new last entry follows the entries that were loaded, none after a failed load |
| MessageLog.IndexIsHistory | internal/message/message.go:49-66 | in every run the index is the list of finished Appends, in finishing order, since the last one whose load failed: none lost, reordered or repeated |
| MessageLog.FinisherTook | internal/message/message.go:49-51 | every finishing Append took its session's mutex at some step and has held it since |
| MessageLog.FinishOrderIsLockOrder | internal/message/message.go:49-66 | the Appends to a session finish in the order in which they took its mutex, each before the next takes it |
| MessageLog.IndexIsFinished | internal/message/message.go:49-66 | without load errors the index is exactly the entries of all finished Appends |
| MessageLog.IndexOnlyGrows | internal/message/message.go:49-66 | without load errors an earlier index is always a prefix of a later one |
| MessageLog.LosesExactlyAfterFailedLoad | internal/message/message.go:53-66 | a step loses index entries if and only if it finishes an Append whose load failed on a non-empty index |
| MessageLog.SuccessIsListed | internal/message/message.go:36-67 | without load errors a successful Append's message is stored and listed ever after, crashes included |
| MessageLog.OneIndexer | internal/message/message.go:24-51 | two Appends to one session are never both between load and rename |
| MessageLog.ListThenGetMany | internal/message/message.go:70-82 | every message listed at one moment is found at any later one, in order, with the listed type, size and time, whatever Appends, faults and crashes come in between |
| ShellQuote.ShellQuote | internal/sshclient/client.go:154-160 | for words of any bytes, prints the command and its arguments, each quoted if needed, separated by single blanks |
| ShellQuote.ParseCommandLine | internal/sshclient/client.go:154-167 | every printed line parses, into exactly the words that `Arrived` gives: empty words vanish, unquoted ones split at the parser's blanks, and non-printable characters of quoted ones stay escaped |
| ShellQuote.RoundTripExactly | internal/sshclient/client.go:154-167 | for words of any bytes, parsing returns the words that were printed if and only if each is non-empty, printable where it is quoted and free of the parser's blanks where it is not |
| ShellQuote.PrintableWordsRoundTrip | internal/sshclient/client.go:154-167 | lists of non-empty printable ASCII words come back unchanged, whatever control bytes the parser takes for blanks |
| ShellQuote.CommandLineInjective | internal/sshclient/client.go:154-167 | no two lists of such words print alike |
| ShellQuote.EmptyWordIsLost | internal/sshclient/client.go:162-167 | an empty argument vanishes |
| ShellQuote.TabIsAltered | internal/sshclient/client.go:162-167 | a tab arrives as a backslash and a t |
| ShellQuote.CarriageReturnSplits | internal/sshclient/client.go:162-167 | a carriage return is not quoted and separates words if the parser takes it for a blank |
| QuoteLaws.QuotedExactly | internal/sshclient/client.go:162-167 | a word is printed as it is if and only if it has none of the bytes the source looks for |
| QuoteLaws.OperatorsAreQuoted | internal/sshclient/client.go:153-160 | in every printed line every such byte but the separating blanks is inside double quotes, and every quote is closed |
| QuoteLaws.QuotedIsLiteral | internal/sshclient/client.go:164 | what stands between the quotes is a Go string literal that decodes to the word, for words of any bytes |
| QuoteLaws.Utf8OfCodePoint | internal/sshclient/client.go:164 | a recognised character is the UTF-8 form of its code point, which is no surrogate |
| QuoteLaws.Utf8IsFound | internal/sshclient/client.go:164 | the UTF-8 form of every code point beyond ASCII is recognised |

## Left out

- The SSH server and client, PTYs, signals and host keys: the process is the events "produces bytes", "is done" and an exit code.
- MCP tool registration, argument parsing, configuration, flags and main: single-branch facts.
- SFTP transfers and the delayed close of the SFTP connection; SendInput, ResizePty and Info, whose interleaving with the lifecycle is only that they take the session's mutex.
- Real time, message ids and JSON: deadlines and cancellations are events that may happen at any moment, ids are fresh (uniqueness of a truncated UUID is assumed), and the codec is assumed lossless.
- Power failure: rename is atomic and only process crashes are modelled, because no directory is synced.
- The ring library and the tokeniser on the far side of the SSH session: the ring's overwrite contract is implemented and proved in `Ring`, and the tokeniser in `ShellQuote` follows section 2.2 of the POSIX Shell Command Language, with the space and any set of control bytes as its blanks; that the server's tokeniser is one of these is assumed, which includes that it reads bytes (or leaves every byte above ASCII alone) and takes no character beyond ASCII for a blank.
- The meaning of the regular-expression package beyond the constructs the two expressions use: literals, classes, greedy and lazy repetition of a class, and alternation.
- Buffer.Buffer.ReadEntry: stops where Read starts to wait; the wait loop is in `ReadProtocol`, whose steps use the same log view.
- Read's wait loop, Session, concurrent Append and the registry's locking are transition systems over values rather than methods over objects, because what matters there is which statements other goroutines run in between; object identity and aliasing are covered only by the classes in `Ring`, `Buffer`, `Registry` and `Storage`.
- Lifecycle.RunKeeps: a label "Other" stands for every other user of the session's mutex, and steps are single statements, so the memory model is sequentially consistent.
- RegistryList.SavedList: a list is taken in one step, although the source reads the sessions' statuses one after another; a status can change in between.
- RegistryLocks.AbsentMeansExited: Manager.Get and Manager.ListAll, which take the read lock for one step and save nothing, are not separate processes; what Manager.Terminate does to the session between its lookup and its save is in `Lifecycle`; `Exits` stands for the session's own lifecycle.
- Registry.Manager.CleanupAll: sessions may exit at any poll; its locks are in `RegistryLocks`, and saving is assumed to succeed because the source ignores the error.
- ShellQuote.ParseCommandLine: which characters beyond ASCII are printable (unicode.IsPrint) is a parameter; the theorems hold for every choice.
- Storage.Manager.Append: by itself; interleavings, faults between steps and crashes are in `MessageLog`.
- MessageLog.RunKeeps: making directories and encoding count as part of creating the temporary file.
- Other files: internal/sshserver, internal/mcp, internal/config and cmd are not part of this model.
