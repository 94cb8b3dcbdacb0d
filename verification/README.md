# The orchestrator's protocols and text formats, modelled and proved

The orchestrator polls GitHub issues and drives coding agents. What can go wrong quietly in it is not the
plumbing but the agreements: which process may write for an issue, which may sweep a host's artifacts, what a
comment on a public thread is taken for, and whether two owners of one file format read it alike. This project
states those agreements and proves them.

Eight areas, a few modules each:

- **Issue writer claims** - `ClaimRecords` (what a claim file's text can say), `ClaimProtocol` (every process of
  a host over one key, as a transition system with torn writes, deaths and restarts), `ClaimPrecision` (when what
  a holder is told is exact), `ClaimThreads` (which of one process's threads are inside, over a run) and
  `WriterClaims` (the in-process counting and the file, as classes tied to that protocol).
- **Host exclusion** - `HostExclusion` (polling and one-shot processes over one lock, each with a scheduler),
  `HostMoves` (one process's moves among the others') and `HostLock` (the lock's methods, the maintenance pass and
  the one-shot run, as such moves).
- **The issue scheduler** - `SchedulerModel` (its critical sections as steps) and `SchedulerService` (the class).
- **Audit log read-back** - `EventLog` (the streaming line filter) and `LogRotation` (list, read, list again,
  under a rotation).
- **Pinned state** - `JsonNumbers`, `Json` and `JsonText` (sections 6 and 7 of RFC 8259 and the rest of what `json`
  writes and reads),
  `PinnedBody` (rendering and recognizer), `Nesting` (the level-by-level walk), `PinnedRecords` (admission) and
  `PinnedThread` (the two writers).
- **Self-proving comments** - `VerificationEvidence`, `VerificationPayloads`, `CommentHeaders`,
  `DeveloperReports`, `VerificationArtifacts` and `Publication`.
- **The split graph** - `SplitContract`.
- **`.env` and `REPOS`** - `PythonLines`, `DotenvText`, `ReposEntries` and `AddRepo`.

`Text`, `PythonText`, `Decimal` and `Threads` hold what several of them share.

Owners whose methods update fields are classes here, and loops that update variables are methods with
invariants; each is proved against a function of its inputs or of the old state, and the theorems are about that
function or about every run of such steps. Patterns are scanners that take the branches the patterns take: every
quantifier in them is possessive, or is closed by a character its class does not hold, so nothing is ever given
back.

## What came out false, and exactly when it holds

- **A record does not always read back.** `json` spells each surrogate of a string on its own, and reads a high
  one followed by a low one as a single character. A state whose strings hold such a pair side by side reads back
  as another state, and two such states can be spelled alike. `JsonText.SplitPairReadsOtherwise` gives the
  smallest; `JsonText.RoundTrip`, `PinnedBody.BodyReadsBack` and `PinnedRecords.WrittenReading` say it holds
  exactly where none does, `PinnedRecords.SpelledAlikeIs` what comparing spellings compares, and
  `JsonText.LoadsUnsplit` that no value read from JSON ever has one, so a record read and written again is always
  safe (`PinnedRecords.RewriteStable`).
- **An answered whole-state write is not always the next reading.** `write_pinned_state` walks past a supported
  record its state does not name, as `PinnedThread.WrittenBehindUnnamed` shows for a state that names none.
  `PinnedThread.WrittenReadsBack` says the next reader takes what was written exactly where no other record
  stands ahead of it.
- **A refused record can be overwritten.** The whole-state writer never overwrites one its walk met
  (`PinnedThread.WriteSpares`), and none at all with nobody else at the thread (`PinnedThread.RefusedStands`); but
  nothing is asked between the walk and the request, as `PinnedThread.RefusedSinceOverwritten` shows.
  `PinnedThread.WriteChanges` says a refused record there when the request arrives is overwritten exactly where it is
  the one named, at the walk that was a supported record behind no refused one, the request reached the thread, and
  another body is stored than it carried.
- **Reading a developer report can raise.** `developer_report_from_comment` documents None for whatever is no
  report, but renders what a comment claims outside its `try`. A comment short enough to post that claims a
  report too long to render raises `ReportRefusedError`. `DeveloperReports.RaisesExactly` says where, and
  `DeveloperReports.SomeReportRaises` gives one. The artifact reader compares an unbounded body and never does.
- **A holder can be told of a hold there never was.** That is the side the claim errs on: an empty file, a hold
  never stamped and one torn at its end are all read as having ended just now, as for the first hold of all
  (`ClaimPrecision.FirstHolderDisturbed`). `ClaimPrecision.UndisturbedTruly` says its answers are exact if and only
  if, for each end its own holds were told of, some other process's hold of this boot ended then or later;
  `ClaimPrecision.UndisturbedExact` that this is so where nothing was taken over unstamped.
- **A completed future can be reaped twice.** A signal's handler runs on the main thread and re-enters the
  scheduler's lock, so a shutdown landing between a reap's reading its batch and clearing it reaps that batch too
  (`SchedulerModel.SomeReapedTwice`). `SchedulerModel.ReapedTwice` says this happens to that batch and to nothing
  else of the scheduler.
- **`add_repo` over a value with no entries** turns a file the parser aborted over into one it accepts;
  `AddRepo.AddedParses` states the result for every old value, aborting ones included.

## Model

| member | source | states |
|---|---|---|
| ClaimRecords.DescribedRead | orchestrator/scheduler/writer_claims.py:163-200 | A file a hold signed, whatever was torn on it, is read as that signer's, with no stamp but the hold's own and no note it did not write |
| ClaimRecords.WholeLanded | orchestrator/scheduler/writer_claims.py:242-260 | One more whole record keeps the file describing its hold, now with that note or stamp |
| ClaimRecords.TornLanded | orchestrator/scheduler/writer_claims.py:242-260 | A record cut anywhere, its cut back failed, keeps the file describing the same hold: remains are read as nothing |
| ClaimRecords.RunTogether | orchestrator/scheduler/writer_claims.py:163-187 | A record run into remains is a line no reader takes for a stamp or a note |
| ClaimRecords.PrefixDescribed | orchestrator/scheduler/claim_notes.py:81-100 | A file read while it is written, cut anywhere, shows only whole lines of its text, or is unsigned |
| ClaimRecords.CleanNoteReadsBack | orchestrator/scheduler/claim_notes.py:58-100 | A contender reads the latest whole note of a standing hold back exactly |
| ClaimRecords.NothingNoted | orchestrator/scheduler/claim_notes.py:81-100 | A hold with nothing noted, or one whose release is stamped, tells a contender of no cycle |
| ClaimRecords.CleanReleaseReadsBack | orchestrator/scheduler/writer_claims.py:169-187 | A hold that let go whole ends, for another process, at its own stamp, and for its own process is nothing |
| ClaimProtocol.StepKeeps | orchestrator/scheduler/writer_claims.py:204-379 | Every step of every process - locking, reading, raising, emptying, signing whole or torn, noting, stamping, unlocking, dying, restarting - keeps the invariant |
| ClaimProtocol.ReachedInv | orchestrator/scheduler/writer_claims.py:204-379 | The invariant holds after every run from a namespace never used |
| ClaimProtocol.OneClaimant | orchestrator/scheduler/writer_claims.py:211-240 | Over every run one process at a time is anywhere between its lock and its unlock |
| ClaimProtocol.UndisturbedSound | orchestrator/scheduler/writer_claims.py:326-338 | Over every run, a process inside its claim told it was undisturbed since a moment knows that every other process's hold is of an earlier boot or ended before that moment |
| ClaimProtocol.NotedSound | orchestrator/scheduler/claim_notes.py:81-100 | Over every run and every cut of the read, a cycle a contender is told of is one the hold that signed the file wrote as a whole note |
| ClaimThreads.ReachedTallied | orchestrator/scheduler/writer_claims.py:287-366 | Over every run in which each thread goes out in the mode it came in: a process's claim counts its threads inside, says one writes exactly where one of them came in to write, and never two did |
| ClaimThreads.JoinsExactly | orchestrator/scheduler/writer_claims.py:287-324 | So over every run a thread can join a key its process holds exactly where it comes in beside the rest or no writer is inside, and a note can be written on it exactly where one is |
| ClaimPrecision.ReachedPrecise | orchestrator/scheduler/writer_claims.py:163-187 | Over every run, the file tells of the latest hold, and what its holder read of the one before, as far as that hold's own records landed; and what a process knows is the latest end any of its holds was told of |
| ClaimPrecision.UndisturbedTruly | orchestrator/scheduler/writer_claims.py:326-338 | Over every run: a holder is told it was undisturbed since exactly the moments that every other process's hold of this boot ended before, if and only if for each end its own holds were told of - the stamp of the hold taken over, or the moment it was found where it was not stamped whole - such a hold ended then or later |
| ClaimPrecision.UndisturbedExact | orchestrator/scheduler/writer_claims.py:326-338 | So wherever each hold of a process was taken over from one it signed itself or one another process of this boot stamped whole, what it is told is exact |
| ClaimPrecision.FirstHolderDisturbed | orchestrator/scheduler/writer_claims.py:169-187 | The first hold there ever is on a key is told of one that ended as it began, with no other to tell of |
| ClaimPrecision.EarlierBootIgnored | orchestrator/scheduler/writer_claims.py:368-379 | A run in which a hold is stamped and the host restarts before its clock has come to that moment again: the next process to hold the key is told of nothing |
| WriterClaims.ClaimFile.Recorded | orchestrator/scheduler/writer_claims.py:242-260 | A record lands whole, or is raised with its cut remains left or cut back, and nothing else of the file moves |
| WriterClaims.Holdings.Found | orchestrator/scheduler/writer_claims.py:368-379 | What is known of others' ends moves exactly as one find action moves it |
| WriterClaims.Holdings.Join | orchestrator/scheduler/writer_claims.py:287-308 | Over the modes of the threads inside: one is answered HeldHere exactly where it comes to write and a writer is inside, a key nobody here holds by whether another process does and what goes wrong, and what is held then counts those inside and says one writes exactly where one came to; and the side and file it leaves are those of the attempt's actions |
| WriterClaims.Holdings.Noted | orchestrator/scheduler/writer_claims.py:310-324 | A note is written, or raised, only where a thread inside came to write, and then as one note action |
| WriterClaims.Holdings.Leave | orchestrator/scheduler/writer_claims.py:340-366 | One thread goes out: where it came in as it goes, what is held still counts the rest and says one writes exactly where one of them came to, and the key is let go exactly behind the last; then it is stamped and unlocked, and any other leave only counts one out |
| WriterClaims.Holdings.Undisturbed | orchestrator/scheduler/writer_claims.py:326-338 | True exactly where every other's end found here is before the moment |
| WriterClaims.JoinPlayed | orchestrator/scheduler/writer_claims.py:287-308 | The side a join leaves is what the actions of its attempt come to |
| WriterClaims.LeavePlayed | orchestrator/scheduler/writer_claims.py:340-366 | The side a leave leaves is what its actions come to |
| WriterClaims.PlayedOnHost | orchestrator/scheduler/writer_claims.py:287-379 | What a method plays over one process's side is a run of the whole host, whatever other processes do and however the clock moves between its actions, so long as its lock finds the file it found and its reading of the clock that moment: no action is ever stuck, and process and file end as played |
| WriterClaims.PlayedAtOnce | orchestrator/scheduler/writer_claims.py:287-379 | With nothing between its actions, what can be played on a host as it stands goes through on it |
| HostExclusion.StepKeeps | orchestrator/runtime/exclusion.py:83-98 | Every step of any polling or one-shot process - presence, handover, the try for the host, restoring, draining, departing, crashing - keeps the invariant |
| HostExclusion.ReachedInv | orchestrator/runtime/exclusion.py:134-260 | The invariant holds after every run of any number of processes |
| HostExclusion.MaintenanceAlone | orchestrator/runtime/artifacts.py:320-342 | While one process is inside maintenance it holds the host alone, nothing of any live process is in flight or can be admitted, its own included, and no other pass is acting |
| HostExclusion.WorkIsAnnounced | orchestrator/cli.py:151-162 | A process with work in flight, or one that could be given some, is on the lock for others to see |
| HostExclusion.ThreadsUnder | orchestrator/scheduler/service.py:259-309 | What a process's other threads do leaves the pass's hold where it was, and under it an empty scheduler empty |
| HostExclusion.SomePollingPass | orchestrator/runtime/artifacts.py:281-342 | A run in which a polling process maintains, and is back where it was with its presence behind it |
| HostExclusion.SomeOneShotPass | orchestrator/cli.py:168-214 | A run in which a one-shot process does |
| HostLock.LockFile.Taken | orchestrator/runtime/host_lock.py:86-103 | The request is granted exactly where no other process's hold excludes it, and the lock then stands as that grant leaves it |
| HostLock.LockFile.Waited | orchestrator/runtime/host_lock.py:106-130 | Asks until granted, the others' holds whatever they were before each retry: granted at the first ask it could be, with the lock as that grant leaves it |
| HostLock.LockFile.HandedOver | orchestrator/runtime/exclusion.py:83-92 | The presence is given up and the host tried for once in its place |
| HostLock.LockFile.Restored | orchestrator/runtime/exclusion.py:94-99 | The host is given back if it was taken, and the presence is taken again at the first ask it can be |
| HostLock.RunMaintenancePass | orchestrator/runtime/artifacts.py:281-342 | Under any claim on the host, whatever threads and other processes do around it. It acts exactly where it is going, has a claim, was answered quiet, has the host or nobody else is on it, and the gate lets it; it is deferred, contended or closed by the gate exactly where the first of those to fail is that one; nothing is begun where the gate is closed. The pass is moves of its process on the host, from running to running again or to the wait for its presence, begun with the host held alone; and it never leaves work where there was none |
| HostLock.MaintenanceRun | orchestrator/cli.py:168-214 | The one-shot run is moves of its process from outside the host until it is gone again, the lock left as it was found; it acts exactly where the host was free, it was not stopped first and it has clients, and then alone |
| HostMoves.PlayedOnHost | orchestrator/runtime/exclusion.py:134-260 | Moves a process can make on its own side are a run of any host it stands on, whatever the others do between them so long as each look at the lock finds it as told: no move is ever stuck and the process ends as was played |
| HostMoves.BegunAlone | orchestrator/runtime/artifacts.py:320-342 | Woven into any run, a pass that has just begun to act has the host alone, with nothing of any live process in flight or admissible |
| SchedulerModel.StepKeeps | orchestrator/scheduler/service.py:87-391 | Every critical section keeps the representation invariant |
| SchedulerModel.RunKeeps | orchestrator/scheduler/service.py:87-391 | The invariant over every interleaving of critical sections |
| SchedulerModel.RunAccounts | orchestrator/scheduler/service.py:206-237 | After any run of a new scheduler: active and tracked disjoint, active within the global cap it was built with or one, each repository's count its number of active keys and none at zero, one family submission a repository at most, each accepted future in one place exactly once |
| SchedulerModel.RunCap | orchestrator/scheduler/service.py:125-134 | No run from any state in order ever holds more active submissions than the global cap, which no step moves |
| SchedulerModel.AcceptedCapped | orchestrator/scheduler/service.py:125-165 | An accepted submission takes one free slot, within the global cap and the cap the request came with, or the scheduler's where it came with none, and one at the least |
| SchedulerModel.AcceptedExactly | orchestrator/scheduler/service.py:125-165 | A submission is accepted exactly where the scheduler is open and admits work, its key is neither running nor claimed, a counted one has room under both caps, and a family one finds no family submission of its repository running; and what then runs is that request, and nothing else moved |
| SchedulerModel.ReasonExactly | orchestrator/scheduler/service.py:125-165 | Each reason is given exactly where its own condition holds and none ahead of it does, over the futures that run and the claims that stand |
| SchedulerModel.ClaimedExactly | orchestrator/scheduler/service.py:88-106 | A temporary claim is admitted exactly where no hold stands and its key is neither running nor claimed, and then it alone is added; its end takes it alone away |
| SchedulerModel.HoldExactly | orchestrator/scheduler/service.py:259-309 | A hold is given exactly where the scheduler is open and nobody has one, and giving it back undoes it |
| SchedulerModel.NewExactly | orchestrator/scheduler/service.py:397-420 | A scheduler is built open, empty, and with caps of at least one |
| SchedulerModel.RefusalGivesBack | orchestrator/scheduler/service.py:362-382 | An executor that refuses admitted work leaves the scheduler exactly as it was |
| SchedulerModel.CompletionGivesBack | orchestrator/scheduler/service.py:384-391 | A worker that completes gives its slot, its count and its family back exactly |
| SchedulerModel.QuietMeans | orchestrator/scheduler/service.py:288-309 | A holder is answered True exactly where nothing is running, nothing is claimed and the scheduler is open |
| SchedulerModel.QuietStays | orchestrator/scheduler/service.py:259-309 | Once answered True, nothing is in flight and nothing more is admitted under any later submits, claims, completions, reaps or shutdown until that hold is given back |
| SchedulerModel.HoldReverses | orchestrator/scheduler/service.py:259-282 | Whatever ran under a hold, giving it back leaves exactly the scheduler that the completions, ends of claims, reaps and close among it would have left with no hold ever taken |
| SchedulerService.HoldStays | orchestrator/scheduler/service.py:259-282 | Nobody but its holder gives a hold back |
| SchedulerService.IssueScheduler.ReserveSlot | orchestrator/scheduler/service.py:206-216 | Reserving is the model's reservation on the whole state |
| SchedulerService.IssueScheduler.ReleaseSlot | orchestrator/scheduler/service.py:218-237 | Releasing is the model's release, a count that reaches zero dropped |
| SchedulerService.IssueScheduler.SkipReasonLocked | orchestrator/scheduler/service.py:125-165 | The first reason that applies, in the source's order, or none |
| SchedulerService.IssueScheduler.Submit | orchestrator/scheduler/service.py:325-337 | One submit is the model's step, executor refusal included, and keeps the invariant |
| SchedulerService.IssueScheduler.OnWorkerDone | orchestrator/scheduler/service.py:384-391 | A completion is the model's step and keeps the invariant |
| SchedulerService.IssueScheduler.Drain | orchestrator/scheduler/service.py:339-348 | The completed futures are taken once, all of them, where no signal lands inside |
| SchedulerService.IssueScheduler.DrainAcross | orchestrator/scheduler/service.py:339-360 | A drain the signal handler's shutdown runs inside, between its reading the batch and clearing it: the whole state it leaves and the number it answers |
| SchedulerModel.ReapedTwice | orchestrator/scheduler/service.py:339-360 | What such a drain leaves is one close and one reap, but that each future of the batch, and no other, is reaped twice: each accepted future still stands in one place once exactly where the batch was empty |
| SchedulerModel.SomeReapedTwice | orchestrator/scheduler/service.py:339-360 | One such batch: a single worker's |
| SchedulerModel.SubmitAcross | orchestrator/scheduler/service.py:325-382 | A submit the handler's shutdown runs inside, behind its checks or behind its reservation, leaves what it would have left had the handler run first |
| SchedulerService.IssueScheduler.Close | orchestrator/scheduler/service.py:350-357 | The close itself is the model's step: it closes admission and moves nothing else |
| SchedulerService.IssueScheduler.Shutdown | orchestrator/scheduler/service.py:350-360 | Shutdown closes, stops the executors under whatever other threads still do, and reaps; waiting, it leaves nothing running and every future ever accepted reaped exactly once |
| SchedulerService.IssueScheduler.Claim | orchestrator/scheduler/service.py:88-106 | A temporary claim is admitted exactly where the key is free and no barrier stands |
| SchedulerService.IssueScheduler.Unclaim | orchestrator/scheduler/service.py:88-106 | A claim's end takes away that claim alone |
| SchedulerService.IssueScheduler.TakeBarrier | orchestrator/scheduler/service.py:259-282 | One holder at a time, and what it closes |
| SchedulerService.IssueScheduler.GiveBarrier | orchestrator/scheduler/service.py:259-282 | The holder's hold is given back |
| SchedulerService.IssueScheduler.WaitQuiet | orchestrator/scheduler/service.py:288-309 | Over any steps of other threads between wakes, the answer is True exactly where the scheduler is then empty and open; deadline and close answer False |
| SchedulerService.IssueScheduler.ActiveCount | orchestrator/scheduler/service.py:63-68 | The number of active submissions, or of one repository's |
| SchedulerService.IssueScheduler.IsActive | orchestrator/scheduler/service.py:70-74 | Whether a key is running or claimed |
| EventLog.NamedLines | orchestrator/github/event_log.py:172-188 | For every partition of a stream into blocks and every name without a line end, exactly the stream's lines that hold the name, in order |
| EventLog.OneChunk | orchestrator/github/event_log.py:172-188 | Searching a chunk whole and splitting it only where it holds the name keeps the same lines |
| EventLog.NamingNone | orchestrator/github/event_log.py:172-188 | A stream that does not hold the name has no line that does |
| EventLog.NamingHas | orchestrator/github/event_log.py:172-188 | The naive filter keeps exactly the lines that hold the name |
| LogRotation.NothingMissed | orchestrator/github/event_log.py:100-147 | A reading that counts includes every whole line naming the event that stood on the log or a copy when it began, whatever renames, creates, copies, truncations and appends ran under it |
| LogRotation.StillCounts | orchestrator/github/event_log.py:124-147 | A reading under which nothing was renamed, made or copied counts, whatever was written or truncated |
| LogRotation.AtOnceCounts | orchestrator/github/event_log.py:100-147 | A reading of what every name holds at one moment is in order, true and counts, in every run |
| LogRotation.TruncatedReads | orchestrator/github/event_log.py:124-147 | A file truncated while it was read may have been read as anything, and the reading is still one the theorem is about |
| LogRotation.SomeCopying | orchestrator/github/event_log.py:100-122 | A rotation that copies and truncates is a run, and what it leaves |
| LogRotation.SomeRenaming | orchestrator/github/event_log.py:100-122 | A rotation that renames and makes the log afresh is a run, and what it leaves |
| LogRotation.SameFile | orchestrator/github/event_log.py:100-147 | A name that named one file in both listings named it throughout |
| LogRotation.ReadWhereItStood | orchestrator/github/event_log.py:100-147 | In a reading that counts, a file in the directory by the second listing was read at the one name it kept |
| LogRotation.LineStays | orchestrator/github/event_log.py:100-122 | A line that stood on a file stands on it still, the file only grown, or is whole on a copy |
| LogRotation.StoodStays | orchestrator/github/event_log.py:124-147 | A name a file stood at it stands at still or has left for good |
| JsonNumbers.NumberRead | orchestrator/github/pinned_state.py:532-538 | Section 6 of RFC 8259 as `json` reads it: a number of any form reads back as its own parts, whatever stands behind it that no number runs into |
| JsonNumbers.OverflowsExactly | orchestrator/github/pinned_state.py:226-252 | Which literals come out infinite: those whose digits, each at its own place, are worth 2 to the 1024 less half a last place or more |
| JsonNumbers.ExponentExactly | orchestrator/github/pinned_state.py:278-279 | What an exponent counts for, with either letter, any sign and any digits |
| Json.SpellCodesRead | orchestrator/github/pinned_state.py:532-535 | Section 7 of RFC 8259 as `json` reads it: a serialized string, whatever is escaped and whatever follows, reads back with only adjacent surrogates merged |
| JsonText.LoadsSpelling | orchestrator/github/pinned_state.py:532-538 | Every serialized value reads back, in any separators and any hiding of characters, as itself with surrogates merged |
| JsonText.RoundTrip | orchestrator/github/pinned_state.py:532-538 | It reads back as itself exactly where no string in it has a low surrogate right behind a high one |
| JsonText.SplitPairReadsOtherwise | orchestrator/github/pinned_state.py:532-538 | Such a pair at its smallest: two surrogates that read back as the one character they make |
| JsonText.LoadsUnsplit | orchestrator/github/pinned_state.py:278-279 | No value read from any text has such a pair |
| JsonText.ReadAsWorth | orchestrator/github/pinned_state.py:278-279 | A literal with neither fraction nor exponent is read as its integer, of at most 4300 digits; any other as itself, or as an infinity of its sign exactly where it is worth more than any float |
| PinnedBody.ReplacedIsSpelling | orchestrator/github/pinned_state.py:110-115 | Replacing the terminator in the serialized text is the same as spelling its last character as an escape |
| PinnedBody.ClosedOnlyAtItsEnd | orchestrator/github/pinned_state.py:499-538 | The escaped rendering of any object holds `-->` at its end and nowhere else |
| PinnedBody.ObjectRecognized | orchestrator/github/pinned_state.py:94-106 | Any rendering of an object is recognized, with exactly the serialized payload as its group, whatever its strings quote |
| PinnedBody.BodyDecoded | orchestrator/github/pinned_state.py:94-106 | What either rendering decodes to |
| PinnedBody.BodyReadsBack | orchestrator/github/pinned_state.py:499-538 | Either rendering decodes back to the very object exactly where no string of it has adjacent surrogates |
| PinnedBody.BodyRendering | orchestrator/github/pinned_state.py:532-538 | Which rendering is written: the escaped one unless that alone puts it past a comment's length |
| PinnedBody.RecognizedIsWhole | orchestrator/github/pinned_state.py:94-106 | A recognized body is blanks, the marker, blanks, the payload, the terminator and blanks, and nothing else |
| PinnedBody.OrdinaryNeverRecognized | orchestrator/github/pinned_state.py:94-106 | A comment ending on the ordinary marker is no record, whatever its text opens on |
| PinnedBody.CutRecognized | orchestrator/github/pinned_state.py:94-106 | Either rendering of any value, cut short anywhere, inside a string or an escape too, and closed with the terminator is recognized with exactly what was left as its payload, unless that ends on the ordinary marker |
| Nesting.Walk | orchestrator/github/pinned_state.py:226-252 | The level-by-level loop takes exactly the values whose recursive container depth is within the limit and whose nested floats are all finite, and raises over a number exactly where one within the limit is not finite |
| PinnedRecords.Refuse | orchestrator/github/pinned_state.py:201-223 | The payload rule by its walk: the refusal of a missing, boolean, other or unsupported version, or of a value the walk or the encoder will not take, and of nothing else |
| PinnedRecords.Evaluate | orchestrator/github/pinned_state.py:270-332 | What a payload is admitted as, its decoded value walked first: malformed, unsupported with its refusal, or supported |
| PinnedRecords.RefusalExactly | orchestrator/github/pinned_state.py:201-252 | No refusal exactly where the record answers the integer 1 under its schema version, nests within the limit with every float finite, and every integer is convertible; and each refusal exactly where its own rule is broken and none ahead of it is |
| PinnedRecords.EvaluatedExactly | orchestrator/github/pinned_state.py:270-332 | A payload is malformed exactly where it is no object of such depth and numbers, supported exactly where that object is not refused, and is then that object |
| PinnedRecords.SupportedExactly | orchestrator/github/pinned_state.py:255-332 | A comment reads as a supported record exactly where it is ours, its whole body is the marker around that object, and the object answers the integer 1 and can be spelled |
| PinnedRecords.NoCommentExactly | orchestrator/github/pinned_state.py:255-268 | A comment is no reading exactly where it is not ours or its body is not the marker around a payload |
| PinnedRecords.StampedAnswers | orchestrator/github/pinned_state.py:490-496 | Stamping gives a record without a version the version 1 and changes no other answer |
| Nesting.FiniteWithin | orchestrator/github/pinned_state.py:226-252 | A bounded look at a value within its own height sees every float |
| PinnedRecords.PutGet | orchestrator/github/pinned_state.py:490-496 | What a record answers under a key after one assignment |
| PinnedRecords.ReadCanonical | orchestrator/github/pinned_state.py:278-279 | Every decoded value read as dictionaries has its keys in order and once each, at every depth |
| PinnedRecords.WrittenReading | orchestrator/github/pinned_state.py:255-332 | The comment an admissible record is written as is always taken for a record, and admitted as that record exactly where no string of it has adjacent surrogates |
| PinnedRecords.ReadingAdmissible | orchestrator/github/pinned_state.py:270-332 | Every admitted record passes the payload rule and has no adjacent surrogates |
| PinnedRecords.RewriteStable | orchestrator/github/pinned_state.py:255-332 | A record read and written again, in either rendering, reads as it was read |
| PinnedRecords.SpelledAlikeIs | orchestrator/github/pinned_state.py:478-488 | Two states are spelled alike exactly where they are one state once adjacent surrogates are merged |
| PinnedRecords.SpelledAlikeEqual | orchestrator/github/pinned_state.py:478-488 | So of states a reading can give, only the very same compare equal as their JSON spells them |
| PinnedThread.SentOverReading | orchestrator/github/pinned_state.py:664-719 | A strict edit sends only where the comment it names is the one `read_pinned_state` takes, supported, and spelled as `over` |
| PinnedThread.SentOverExactly | orchestrator/github/pinned_state.py:664-719 | Where `over` is itself a reading, what stood there is that very record |
| PinnedThread.EditedReadsBack | orchestrator/github/pinned_state.py:704-728 | After EDITED, whatever others did between the walk and the edit: which comment carries the state, when it reads as it, and exactly when it is the one the next reader takes |
| PinnedThread.EditedIsNextReading | orchestrator/github/pinned_state.py:704-728 | With nobody else at the thread meanwhile, the next reader takes the new state from the same comment |
| PinnedThread.AuthoritativeIs | orchestrator/github/pinned_state.py:778-819 | The strict walk finds the comment every reader takes, where it is refused or the one named, and else none |
| PinnedThread.LocatedIs | orchestrator/github/pinned_state.py:778-819 | The whole-state walk finds the first comment that is refused, or a record and the one named |
| PinnedThread.WriteSpares | orchestrator/github/pinned_state.py:603-662 | Whatever others do between the walk and the request, and whatever becomes of it: every comment keeps its place, id and author; the one that changes is the one named, which at the walk was a supported record behind no refused one; and a comment is posted only where the walk met no refused record and the named comment was none |
| PinnedThread.RefusedStands | orchestrator/github/pinned_state.py:603-662 | With nobody else at the thread, every refused record on it stays as it was |
| PinnedThread.WriteChanges | orchestrator/github/pinned_state.py:644-662 | Exactly which comment a whole-state write changes, refused or not, on any thread and under any delivery: the one named, where at the walk it was a supported record behind no refused one, the request reached the thread, and what is stored is not what it carried by then |
| PinnedThread.RefusedSinceOverwritten | orchestrator/github/pinned_state.py:644-662 | The smallest such change of a refused record: a named one that became refused between the walk and the request |
| PinnedThread.WrittenReadsBack | orchestrator/github/pinned_state.py:603-662 | What any answered write leaves, other comments moved or not: ours carries the stored body, reads as the state exactly where that is the body sent and no string of the state has adjacent surrogates, and is the next reading exactly where it is a record and none stands ahead |
| PinnedThread.WrittenBehindUnnamed | orchestrator/github/pinned_state.py:603-662 | A state naming no comment, written over a thread that carries a record, posts a second one the next reader passes by |
| PinnedThread.Issue.ReadPinned | orchestrator/github/pinned_state.py:587-601 | The first comment that is a record, and what it reads as |
| PinnedThread.Issue.PinnedComment | orchestrator/github/pinned_state.py:778-819 | The walk's loop finds what its specification does |
| PinnedThread.Issue.Edit | orchestrator/github/pinned_state.py:664-728 | The strict edit's answer, the thread it leaves and the stamped state, for every reading, question, delivery and interference |
| PinnedThread.Issue.Write | orchestrator/github/pinned_state.py:603-662 | The whole-state write's answer, the thread, the id, the synced spelling and the stamped state |
| PinnedThread.EditAnswers | orchestrator/github/pinned_state.py:664-728 | What a strict edit answers with nothing sent: the first that holds of a state refused, a thread unread, no record or another's id on it, one that does not parse, one refused, one not spelled as what was read, a question that fell; and none where none does |
| PinnedThread.WriteAnswers | orchestrator/github/pinned_state.py:603-662 | What a whole-state write answers with nothing sent: the first that holds of a state withheld, no login, a refused record ahead of the one it names, its own state refused; and none where none does |
| PinnedThread.DeliverySays | orchestrator/github/pinned_state.py:644-662 | What the request does to the thread under each delivery, one comment more or one body changed, and when it is answered |
| PinnedThread.EditTold | orchestrator/github/pinned_state.py:704-728 | What an edit is told back: the body stored, exactly where it reached the comment and was heard of |
| VerificationEvidence.RenderInjective | orchestrator/github/verification_evidence.py:113-162 | Renderings of accepted commands are equal exactly where the commands are, repeats, empty outputs and the empty sequence included |
| VerificationEvidence.CommandRead | orchestrator/github/verification_evidence.py:113-121 | A rendered command reads back from the front of any rendering |
| VerificationEvidence.FenceLine | orchestrator/github/verification_evidence.py:135-146 | A fence right behind a newline opens a line of its own however the text around it breaks |
| VerificationEvidence.FenceWouldCollide | orchestrator/github/verification_evidence.py:135-146 | Without the refusal of fences two different sequences would render alike |
| VerificationEvidence.AcceptedExactly | orchestrator/github/verification_evidence.py:122-146 | A command is accepted exactly where it is not blank, has no backtick or line end, carries no marker nor does its transcript, and no line of that, broken at any line end, is blanks and then a fence |
| VerificationPayloads.DecodeEncode | orchestrator/github/verification_payloads.py:70-118 | Decoding an encoded payload gives the commands back, in order, repeats and all |
| VerificationPayloads.DecodesExactly | orchestrator/github/verification_payloads.py:102-118 | A payload decodes to commands exactly where each is accepted and it is the payload they encode to |
| VerificationPayloads.EncodeInjective | orchestrator/github/verification_payloads.py:70-100 | Evidence that encodes alike is the same evidence |
| VerificationPayloads.PayloadSafe | orchestrator/github/verification_payloads.py:65-100 | No angle bracket stands in a payload |
| VerificationPayloads.ValueTranslated | orchestrator/github/verification_payloads.py:65-67 | Translating the brackets out of a serialized value is spelling it with them escaped |
| CommentHeaders.FieldsRead | orchestrator/github/verification_artifacts.py:79-90 | A header reads back as the fields it was written with, whatever follows |
| CommentHeaders.ClaimedBehind | orchestrator/github/verification_artifacts.py:79-90 | The header claimed is the leftmost place the pattern matches |
| CommentHeaders.ReceiptCloses | orchestrator/github/developer_reports.py:38-43 | The delimiter closes a receipt: a header opens on a receipt's scope only where it names that very receipt |
| CommentHeaders.ScopeStands | orchestrator/github/comments.py:154-171 | A receipt's scope stands in a body exactly where it opens the body's own header |
| CommentHeaders.CarriedSpelled | orchestrator/github/verification_artifacts.py:93-110 | Which tokens, counts and commits a header can carry, character by character |
| DeveloperReports.ReportReadsBack | orchestrator/github/developer_reports.py:120-182 | A report that fits, on a comment of ours, reads back as itself, text ending in separators or half a marker too |
| DeveloperReports.ReadsExactly | orchestrator/github/developer_reports.py:150-182 | A comment reads as a report exactly where it is ours and carries that report's one body, accepted and within the limit |
| DeveloperReports.BodyInjective | orchestrator/github/developer_reports.py:120-147 | No two accepted reports are spelled as one body |
| DeveloperReports.BodyCandidate | orchestrator/github/developer_reports.py:150-182 | The body of a report claims that report, however long it is |
| DeveloperReports.BodySpelled | orchestrator/github/developer_reports.py:120-147 | A report's body from end to end: what is said of its revision, commit and requirements, its text, its header, the ordinary marker |
| DeveloperReports.AcceptedExactly | orchestrator/github/developer_reports.py:185-213 | A report is accepted exactly where its counts, commit and tokens can be carried and its text is not blank and carries no marker |
| DeveloperReports.ReceiptFound | orchestrator/github/developer_reports.py:105-107 | A report's receipt scope occurs in another's body exactly where their receipts are equal |
| DeveloperReports.RaisesExactly | orchestrator/github/developer_reports.py:162-182 | Reading raises rather than answers exactly where a comment that fits claims a report that renders past one comment's length - a length known from the claim, without its digest |
| DeveloperReports.ShortenedRaises | orchestrator/github/developer_reports.py:162-182 | Every report at most 92 characters too long has such a comment |
| DeveloperReports.SomeReportRaises | orchestrator/github/developer_reports.py:162-182 | One such comment, for any wording that leaves room for a report |
| VerificationArtifacts.ArtifactReadsBack | orchestrator/github/verification_artifacts.py:207-259 | A rendered artifact that fits reads back as itself, every command and transcript of it |
| VerificationArtifacts.ReadsExactly | orchestrator/github/verification_artifacts.py:223-259 | A comment reads as an artifact exactly where it is ours and carries its one body, accepted and within the limit |
| VerificationArtifacts.BodyInjective | orchestrator/github/verification_compact_artifacts.py:112-122 | No two artifacts are spelled as one body |
| VerificationArtifacts.BodyCandidate | orchestrator/github/verification_compact_artifacts.py:112-134 | The body of an artifact claims it, evidence and all, however long |
| VerificationArtifacts.EvidenceFound | orchestrator/github/verification_compact_artifacts.py:125-134 | The commands ahead of a body's header decode to the artifact's own |
| VerificationArtifacts.OutcomeMeans | orchestrator/github/verification_compact_artifacts.py:137-144 | Passed is at least one check and every one exiting 0, failed any that did not, absent none at all |
| VerificationArtifacts.BodySays | orchestrator/github/verification_compact_artifacts.py:98-145 | Of a body, from end to end: behind its revision stand the passed wording with the number of commands exactly where there are some and every status is 0, the failed wording with the number of those that are not exactly where there is one, the absent wording exactly where there is none; then who witnessed it, the evidence, and whether the head answered for is the commit tested |
| VerificationArtifacts.HeaderSpelled | orchestrator/github/verification_artifacts.py:178-194 | A header from end to end, each value behind its own name |
| VerificationArtifacts.AcceptedExactly | orchestrator/github/verification_artifacts.py:292-324 | An artifact is accepted exactly where its repository, counts, commits and tokens can be carried and every command is |
| VerificationArtifacts.ReceiptFound | orchestrator/github/verification_artifacts.py:146-150 | An artifact's receipt scope occurs in another's body exactly where their receipts are equal |
| Publication.BodyClaims | orchestrator/github/pull_request_reports.py:235-254 | A published body of either kind claims its own transaction and no other |
| Publication.PublishedOnce | orchestrator/github/pull_request_reports.py:113-169 | Over any sequence of attempts, with unreadable threads and posts lost before or after landing, and of others' comments between them, at most one comment of ours per receipt lands and no earlier comment changes |
| Publication.EventKeeps | orchestrator/github/pull_request_verification.py:71-139 | One attempt adds one comment at most, changes none, and keeps every transaction to one |
| Publication.RetryFinds | orchestrator/github/pull_request_reports.py:145-169 | A landed item is found where it landed by every later reading, whether its post was heard of or not |
| Publication.PresentIsExact | orchestrator/github/pull_request_verification.py:199-229 | PRESENT is answered only of our own comment whose text is the item's one body |
| Publication.AttemptExactly | orchestrator/github/pull_request_verification.py:108-229 | One attempt on any thread: refused for another pull request's item or a report that does not fit, UNCONFIRMED unread, PRESENT at the first comment that is the item, CHANGED at the first other claimant, and only where there is neither one comment more, with what is told under each delivery |
| Publication.PullRequest.PublishReport | orchestrator/github/pull_request_reports.py:145-169 | Rendered before any request, read, and posted only on ABSENT |
| Publication.PullRequest.PublishArtifact | orchestrator/github/pull_request_verification.py:108-139 | Read, and rendered and posted only on ABSENT |
| SplitContract.IsAcyclic | fuzz/split_contract.py:89-100 | Terminates, and answers True exactly where no directed cycle is drawn |
| SplitContract.RankedIsAcyclic | fuzz/split_contract.py:89-100 | Ranks that fall along every edge leave no cycle |
| SplitContract.StuckHasCycle | fuzz/split_contract.py:89-100 | Where every child left waits on another, following any of them comes round to a cycle |
| SplitContract.Dependencies | fuzz/split_contract.py:70-80 | A child's prerequisites are given exactly where it is whole, and are then the children it states |
| SplitContract.IsValidSplit | fuzz/split_contract.py:45-57 | True exactly where the manifest is a split of one to ten whole children without a cycle |
| SplitContract.ValidExactly | fuzz/split_contract.py:45-57 | What a split is: one to ten whole children, a boolean umbrella or none, and no cycle among them |
| SplitContract.WholeExactly | fuzz/split_contract.py:70-86 | What a whole child is: a title and a body that are text and not empty, and a stated list of other children, each an integer in range and not itself |
| SplitContract.BrokenListingsAre | fuzz/split_contract.py:103-105 | What a child's list is broken into: unstated, each of three values that are no list, and itself with each foreign entry behind |
| SplitContract.BrokenChildrenAre | fuzz/split_contract.py:60-67 | What is yielded is every child's list broken every way, every distinct edge drawn back, and nothing else |
| SplitContract.BrokenListingRefused | fuzz/split_contract.py:103-116 | A list broken any of those ways is no valid split |
| SplitContract.ReversedRefused | fuzz/split_contract.py:60-67 | An edge drawn back along one there closes a cycle, whatever else the graph holds |
| SplitContract.BrokenRefused | fuzz/split_contract.py:60-67 | No variant derived from the children of a valid split is a valid split |
| PythonLines.LinesKept | orchestrator/service/dotenv_text.py:67-72 | A text is its lines with their ends, and those stand |
| PythonLines.KeptLines | orchestrator/service/dotenv_text.py:67-72 | Lines that stand are the lines of the text they make |
| PythonLines.UniversalLines | orchestrator/config/_dotenv.py:90-91 | Reading line ends as newlines changes no line |
| DotenvText.LoadDotenv | orchestrator/config/_dotenv.py:79-91 | The loader's loop loads every line in turn |
| DotenvText.LoadedFirst | orchestrator/config/_dotenv.py:49-69 | Loading gives each key not there before what the first line setting it spells, no secret key, and nothing else |
| DotenvText.ReadersAgree | orchestrator/service/dotenv_text.py:29-45 | On every text and key that is no secret, what the configuration loads is what a setup reads |
| DotenvText.LoadedExactly | orchestrator/config/_dotenv.py:49-69 | What one line loads: nothing where it is a comment, names a secret or a key there already, and else the key with its value unquoted |
| DotenvText.StripQuotesExactly | orchestrator/config/_dotenv.py:38-46 | A value loses one pair of quotes of one kind around it, and nothing where it has none |
| DotenvText.SecretExactly | orchestrator/config/_dotenv.py:27-34 | The keys that are secrets |
| DotenvText.WritableIs | orchestrator/service/dotenv_text.py:48-58 | A setting is written exactly where it has no line end, no blank at either end and no pair of quotes around it |
| DotenvText.KeyClean | orchestrator/service/dotenv_text.py:29-34 | Whatever line is found to set a key, the key can be written back |
| DotenvText.AssignmentReads | orchestrator/service/dotenv_text.py:48-58 | A line written reads as it was meant |
| DotenvText.Assign | orchestrator/service/dotenv_text.py:61-73 | The loop edits the line in effect, or refuses, as its specification does |
| DotenvText.AssignChangesOne | orchestrator/service/dotenv_text.py:61-73 | An edit changes the line in effect and no other, content or line end, and is refused exactly where no line sets the key or the setting would not read back |
| DotenvText.AssignReads | orchestrator/service/dotenv_text.py:61-73 | After an edit the key reads as the new setting and every other key as before |
| ReposEntries.WritableIs | orchestrator/service/repos_entry.py:40-50 | A field is writable exactly where it is not empty and holds no separator, line end or outer blank |
| ReposEntries.Render | orchestrator/service/repos_entry.py:88-103 | The entry's fields in order, the remote and limit where they are needed, or none where any is refused |
| ReposEntries.RendersExactly | orchestrator/service/repos_entry.py:40-103 | An entry is written exactly where its repository is an owner and a name of the letters a name may have, its limit is one or more and short enough to spell, and each field written has no separator, line end or outer blank and is not empty |
| ReposEntries.EntryParses | orchestrator/config/repositories.py:79-150 | The entry written parses back as exactly what it names |
| ReposEntries.LimitRead | orchestrator/config/repositories.py:122-150 | A written limit reads back as itself |
| ReposEntries.ParseReposEnv | orchestrator/config/repositories.py:153-206 | The parser's loop gives what its specification does, duplicates and no entry at all refused |
| ReposEntries.ParsedExactly | orchestrator/config/repositories.py:153-206 | A value is parsed exactly where it has an entry, every entry parses, and no two are of one repository; and to what they parse to, in order |
| ReposEntries.EntriesAre | orchestrator/config/repositories.py:44-51 | A line is an entry, stripped, unless that leaves nothing or it opens on `#` |
| ReposEntries.EntryExactly | orchestrator/config/repositories.py:54-119 | A line parses exactly where it has three to five fields, the first an owner and a name, and those given are not empty; and to what each field says |
| ReposEntries.LimitExactly | orchestrator/config/repositories.py:122-150 | A limit is the default where none is written, and else an integer of one or more |
| ReposEntries.ReadIntExactly | orchestrator/config/repositories.py:122-150 | `int` takes a sign, and runs of digits with one underscore between them, no longer than Python converts |
| ReposEntries.ParseJoined | orchestrator/config/repositories.py:176-198 | Entries parse on as if those ahead had been parsed alone, their slugs seen |
| AddRepo.Extend | orchestrator/service/add_repo.py:93-109 | The value extended, or the refusal of a repository listed already in any case |
| AddRepo.Add | orchestrator/service/add_repo.py:134-147 | What is written, or why nothing is, in the source's order |
| AddRepo.AddedExactly | orchestrator/service/add_repo.py:121-148 | Which outcome there is, by the text and the entry alone: no line sets `REPOS`, it lists the repository in any case, a field or the value would not read back, or it is written |
| AddRepo.ExtendedEntries | orchestrator/service/add_repo.py:107-109 | The extended value has the entries it had and then the new one |
| AddRepo.UnlistedApart | orchestrator/service/add_repo.py:102-106 | A repository not listed in any case is none the entries parse to |
| AddRepo.ExtendedParses | orchestrator/config/repositories.py:44-51 | Parsing the extended value gives what the old entries parsed to and the new one behind them |
| AddRepo.AddedParses | orchestrator/service/add_repo.py:121-148 | After it writes, loading the file and parsing `REPOS` gives the entries parsed before and exactly the new one, and aborts exactly where an old entry made it abort |
| AddRepo.AddedSpares | orchestrator/service/add_repo.py:121-148 | Every other setting loads as before and every other line stands, ends and all |

## Left out

- WriterClaims.Holdings.Join: one key and its file; which path a repository and issue number lead to, and files of several keys, are not modelled, and what the file system does under an exception beside a torn write is raised as one.
- ClaimProtocol.UndisturbedSound: a restart loses every process and begins the clock again; a file that reverts to an older text on power loss is not modelled, and a read of the file under the lock is one instant's text.
- ClaimProtocol.NotedSound: a read without the lock is any prefix of one instant's text; decimal digits outside ASCII are not modelled.
- HostLock.LockFile.Waited: waits as long as it takes in the source; here it retries a given number of times, and running out is the run interrupted while it waits.
- HostLock.RunMaintenancePass: what `_maintained` does to each candidate, the schedule's gate and the log lines are not modelled, nor is a lock file that stops working half way: its claim is one of none, and its process is outside the theorem.
- HostLock.MaintenanceRun: connecting clients and the signal handler are arguments: whether there are clients, and whether the scheduler was closed ahead of the pass.
- HostExclusion.MaintenanceAlone: is about work the scheduler tracks in live processes, not agent children that outlive a dead poller.
- SchedulerModel.RunAccounts: every critical section is one step; the signal handler, which re-enters the lock on the main thread, is modelled inside `reap` (`SchedulerModel.ReapedTwice`) and `submit` (`SchedulerModel.SubmitAcross`), not inside the other sections or inside the executors' own calls.
- SchedulerService.IssueScheduler.WaitQuiet: wall-clock deadlines are a number of wakes; condition variables wake only between critical sections.
- LogRotation.NothingMissed: nothing is deleted, no inode is reused and no copy is compressed; the three readings `logged` takes and the parsing of kept lines as JSON are left out.
- JsonText.RoundTrip: a float is the literal it was read from; Python's rounding to a double and its shortest respelling are not modelled, so a float is written back as it was read, nor is the decoder's own recursion limit.
- PinnedRecords.WrittenReading: a payload whose version is an integer too long for Python to spell raises out of `payload_refusal`'s message in the source; here it is refused like any other version.
- PinnedThread.Issue.Edit: the reading under way that fails is one flag, and the caller's question another.
- VerificationEvidence.RenderInjective: text is Unicode scalar values; a Python string with a lone surrogate has no UTF-8 bytes, so the evidence it would be in has no revision and no artifact.
- DeveloperReports.RaisesExactly: text is Unicode scalar values here too; a body with a lone surrogate that claims a report also raises, from taking the digest of its content.
- VerificationArtifacts.ArtifactReadsBack: the wording of the summary, like that of the report's preamble, is a parameter: any wording without angle brackets, of which the published one is an instance. A repository is its owner and name rather than the two joined.
- VerificationPayloads.DecodeEncode: SHA-256 is any function to sixty-four hexadecimal digits.
- Publication.PublishedOnce: attempts are one after another, and nobody edits or deletes our comments or posts our receipts as us; the rereading of a settled location is left out.
- ReposEntries.Render: a clone is the text its path spells; `validate_repository` is not part of this model, and its `owner/name` is two components of letters, digits, `_`, `.` and `-`.
- ReposEntries.ParseReposEnv: aborts are one outcome, without the entry number and message; integers are spelled in ASCII digits.
- AddRepo.Add: the entry is given; reading it off a clone, the file's own path, symbolic links, permissions and encoding are left out. `str.lower` is any function.
- GitHub requests, pagination and labels: a thread is a sequence of comments, and a failure an outcome.
- Git, systemd, agent subprocesses, tokens, redaction, dashboards, analytics and logging: foreign calls with nothing to prove here.
- Workflow stages and per-candidate maintenance: they would add members about code these agreements do not rest on.
