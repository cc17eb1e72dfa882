# labmail: a verified model of the mail store, the change protocol and the SMTP server

labmail is a mail trap: an SMTP server puts messages into a bounded in-memory inbox, and a control
plane plans, applies and resets its configuration. This project models the stateful core of that
program in Dafny and proves what the program promises about it over all inputs and all runs.

`dafny verify dfyconfig.toml` checks everything.

## How it is laid out

| file | what it models |
|---|---|
| `InboxSpec.dfy`, `InboxLaws.dfy` | the inbox as a value: caps, eviction, epochs, generations, and runs of operations; what each operation does, message by message |
| `Paging.dfy`, `ListingLaws.dfy` | list pages, filters, and cursor walks interleaved with other callers; what filters, page sizes and cursors mean to a reader |
| `Spill.dfy`, `Memory.dfy` | the inbox as the program keeps it: index, order list, byte counter and spill files on a disk whose writes, renames and reads can fail; the class refines the value |
| `StoreRuns.dfy` | any sequence of calls on one store from its construction on, and what is on its disk |
| `Compat.dfy` | the MailDev-compatible full listing under its page budget |
| `Lru.dfy`, `LruRuns.dfy` | the idempotency cache: a map and a doubly linked list refining a bounded sequence; recency over runs |
| `Protocol.dfy`, `AppSpec.dfy`, `ChangeLaws.dfy`, `AppProperties.dfy`, `App.dfy` | Plan, Apply, Reset and Boot as steps of one value, when each succeeds and what it installs, their properties over runs, and the class that refines them |
| `Codec.dfy`, `SmtpSpec.dfy`, `SmtpLaws.dfy`, `Session.dfy` | lines and dot transparency, the session as a state machine with what its client sees of it, when each command is accepted, and the session object |
| `Gate.dfy`, `Server.dfy`, `GateLaws.dfy` | admission counters, any interleaving of sessions, wipes and other inbox callers, and when it turns one away |
| `JsonTree.dfy`, `Diff.dfy`, `DiffFine.dfy`, `DiffText.dfy` | the structural diff of two configurations as a patch, why no other is as fine, and its text: rendered paths, sorting, lines for a reader |
| `Text.dfy`, `Decimal.dfy`, `Units.dfy`, `UnitLaws.dfy`, `Wire.dfy` | byte sizes and durations as text, what they mean, and both conversions of whole trees |
| `Limiter.dfy`, `Histogram.dfy` | the token-bucket limiter with idle eviction, and the cumulative histogram |

## How the model reads the program

- What the program changes in place is a class whose methods are proved against a function on values;
  lemmas and run invariants are about those functions. `Memory.State()`, `IdempCache.view`,
  `App.State()`, `Session.View()` and `AdmissionGate.State()` tie the two together.
- Concurrency is interleaving. What the program does under separate locks is separate methods, with
  `Valid()` between any two calls: `Memory.Prepare` and `Commit` make up an insert, `GetSnapshot`,
  `GetLoad` and `GetFinish` a read, `Scan` and `LoadListed` a listing, `App.StartApply` and `FinishApply` an apply. `ApplyStep` takes what
  other callers do to the inbox in between; a step of `Server` takes at most one lock.
- SHA-256 revisions and request fingerprints are injective: a revision *is* the canonical state it
  hashes. ULIDs are fresh numbers in their text order. Time is a number that never goes back.
- Generations, epochs and counters do not wrap around. Sizes and durations are 64-bit, with the one
  negation that overflows written out.
- The answers of the outside world (file contents, the long field-by-field validation, the TLS
  handshake, the credential check, a parsed MIME tree) are parameters. An SMTP command reads one
  policy, DATA one at its start and one at its end; it may differ from one to the next.
- Characters fold case as ASCII does, plus the two other letters that Go lower-cases into ASCII.

## What turned out not to hold as stated

- **An applied idempotency key can be reopened.** Apply under a key never swaps twice while the key's
  result is cached, but a Plan repeated under the same key drops that result exactly when no plan was
  stored and the active revision has moved on. Once the state is changed back, the same Apply swaps
  again (`PlanForgetsAppliedExactlyWhenStale`, `PlanCanReopenAnAppliedKey`).
- **A walk over unread mail can mix two states.** Marking read leaves the generation alone, so the
  stale-cursor check does not see it. A completed walk returns its first page's listing exactly when
  its filter does not test the read bit, or none of the marks between its pages was set on mail that
  the rest of the filter matches and the walk had not come to yet (`Undisturbed`,
  `CursorWalkIsExact`). `UnreadWalkMixesStates` is a walk that mixes two states. It still never
  repeats a message.
- **A size prints and parses back exactly when it is not negative**; a negative one prints with a sign
  the parser refuses (`SizeRoundTrip`). `FormatDuration` returns for every duration but the minimum
  64-bit integer, which is its own negation (`PrinterReturnsIffAboveMinimum`).
- **DATA is not bounded by its limit plus the discard slack plus a line.** The program counts bytes after
  dot-unstuffing, so a message, delivered or refused, keeps to that bound exactly when those of its lines
  that are read hold no more dot-led ones than the bound leaves over (`Taken`, `PlainBoundIffFewDots`;
  `StuffedDotsExceedThePlainBound` is a family that does not). For any stream the bound holds with one byte more for each dot-led line
  (`ReadingIsBoundedByDots`), so as it stands when there is none; or four thirds of it
  (`ReadingIsBounded`). Only an overlong line is outside it: that is drained to its end, however long
  (`OverlongLineIsDrained`).
- **The limiter's window bound needs a burst that is not negative** (`PlainBoundNeedsABurst`): with a
  negative one nothing is let through, which is still more than burst plus rate times a short window.
  A loaded configuration cannot have one (`internal/config/validate.go:411` wants a positive burst);
  `WindowIsBounded` reads it as zero.

The text of a diff does tell its entries apart, for every configuration: only `metadata.labels` has keys
of the user's choosing, and its values are text (`RenderedPathsDiffer`, `SortedDiffIsDetermined`). Of
arbitrary trees that is not true; `DottedKeysAreAmbiguous` is a pair no configuration has.

## Model

| member | source | states |
|---|---|---|
| InboxSpec.ExcessIsLeast | internal/store/memory.go:302-324 | dropping from the old end, the eviction loop stops at the first suffix within the limits and no earlier; with limits at least zero it always gets there |
| InboxSpec.EvictOldestRefusesOnlyOversize | internal/store/memory.go:273-300 | under evict_oldest the dry run accepts a candidate if and only if it is no larger than maxBytes |
| InboxSpec.EvictForIsShortestPrefix | internal/store/memory.go:269-310 | whenever the dry run accepts, the real loop succeeds and removes exactly the shortest oldest prefix that makes room |
| InboxSpec.PlacedKeepsOrder | internal/store/memory.go:326-342 | placing a fresh message keeps the order list sorted by arrival and id, duplicate-free, and adds its size to the total |
| InboxSpec.PlacedAddsOne | internal/store/memory.go:326-342 | placing adds that message and loses none |
| InboxSpec.NextKeepsWellFormed | internal/store/memory.go:182-759 | each insert, delete, read mark, wipe, reset and cap change keeps the order sorted, the ids distinct and both caps respected |
| InboxSpec.RunKeepsWellFormed | internal/store/memory.go:182-759 | the same over every run |
| InboxSpec.NextMovesGeneration | internal/store/memory.go:182-759 | the generation never falls and stands still only while membership and order do |
| InboxSpec.EqualGenerationEqualMail | internal/store/memory.go:380-432 | two states of one run with equal generation hold the same messages in the same order, up to read bits |
| InboxLaws.DeleteTakesOutTheNamed | internal/store/memory.go:469-480 | after a delete no message bears the id, every other message is there unchanged and in order, and the generation has moved by one exactly if the id was there |
| InboxLaws.TakesOutKeepsOthers | internal/store/memory.go:761-808 | a message is there afterwards if and only if it was there under another id |
| InboxLaws.MarkReadSetsTheNamedBit | internal/store/memory.go:505-514 | the read bit of the message with that id is set and nothing else is different |
| InboxLaws.MarkAllReadSetsEveryBit | internal/store/memory.go:517-528 | every read bit is set and nothing else is different |
| InboxLaws.UnreadIsCounted | internal/store/memory.go:619-636 | the unread count is the number of messages whose bit is not set |
| InboxLaws.EmptyingCounts | internal/store/memory.go:483-759 | delete-all, wipe and reset all leave no mail and are told apart by epoch, generation and caps |
| InboxLaws.ReplaceCapsKeepsTheNewest | internal/store/memory.go:639-662 | caps the inbox exceeds are refused under reject without force; otherwise the newest messages that fit them stay, as many as fit |
| InboxLaws.CommitRefusals | internal/store/memory.go:229-241 | an insertion is stale exactly in another epoch, and full exactly when it does not fit: alone under evict_oldest, with all that is there under reject |
| InboxLaws.CommitAdds | internal/store/memory.go:243-266 | otherwise the message joins what is left after dropping no more of the oldest than it needs, sorted; under reject nothing is dropped |
| InboxLaws.OldestFirst | internal/store/memory.go:326-342 | arrival decides the order, and the id between messages of one moment |
| InboxLaws.ResidentCountsContents | internal/model/message.go:106-125 | what a message counts for is the number of bytes of its raw, text, html and attachment contents |
| InboxLaws.SpillingKeepsWeight | internal/model/message.go:106-125 | a part moved to disk counts as it did in memory |
| Paging.NewestFirstIsExact | internal/store/memory.go:380-432 | the listing has exactly the messages the filter matches, strictly newest first |
| Paging.PageThenRest | internal/store/memory.go:400-432 | a full page followed by the listing below its cursor is the whole listing; a page without a cursor is the rest of it |
| Paging.WalkFromCursor | internal/store/memory.go:440-466 | from a live cursor a completed walk returns the listing below that message at the cursor's own state if and only if its filter does not test the read bit or nothing the walk still had to list was marked read; to the last bit when nothing was marked at all |
| Paging.CursorWalkIsExact | internal/control/rest/messages.go:35-51 | a walk that completes without a stale cursor returns exactly the messages matching at its first page's state, in order, if and only if its filter does not test the read bit or nothing it still had to list was marked read between its pages |
| Paging.CursorWalkNeverRepeats | internal/control/rest/messages.go:35-51 | with any filter a completed walk descends strictly through the first page's messages |
| Paging.UnreadWalkMixesStates | internal/store/memory.go:505-528 | a concrete run in which a completed walk over unread mail, disturbed once, equals the listing of no state it passed through |
| ListingLaws.TestsAreIndependent | internal/store/memory.go:1007-1039 | a message passes a filter if and only if it passes each of its seven tests alone |
| ListingLaws.MomentSplits | internal/store/memory.go:1007-1039 | after and before leave out the moment itself, and every message is on one side of it or at it |
| ListingLaws.UnreadSplits | internal/store/memory.go:1007-1039 | of the two unread filters each message passes the one that names its state |
| ListingLaws.SubjectTests | internal/store/memory.go:1007-1061 | a subject contains a text when the text stands in it up to case; the exact test is by the letter |
| ListingLaws.AddressTests | internal/store/memory.go:1041-1057 | an address filter finds exactly mail that has the address in the envelope, up to case and blanks, or in the header |
| ListingLaws.FoundByItsRecipients | internal/store/memory.go:1041-1057 | mail is found by each address it was sent to |
| Text.TrimIsTheMiddle | internal/store/memory.go:1041-1057 | trimming takes the blanks at both ends and nothing else |
| ListingLaws.PageSize | internal/store/memory.go:380-388 | a page has what was asked for, fifty when nothing was, two hundred at most, or all that is left, and a successor exactly when more is left |
| ListingLaws.LiveCursorResumes | internal/store/memory.go:400-432 | from a live cursor exactly the matching messages the order puts after its own are listed |
| ListingLaws.LostCursorResumes | internal/store/memory.go:440-466 | from a cursor whose message is gone exactly the matching messages received no later than its stamp are listed |
| ListingLaws.StampOfUlid | internal/store/memory.go:440-456 | that stamp is the millisecond its ULID was made in, whatever the random part |
| ListingLaws.QuietWalkCompletes | internal/control/rest/messages.go:35-51 | while the generation stands still no cursor is stale, and one request more than there are messages completes the walk |
| Spill.LoadedIsWhole | internal/store/memory.go:818-846 | loading a record's files gives back the inserted message, whichever parts were spilled |
| Spill.WriteSpillTemps | internal/store/memory.go:848-880 | on success the message's files are exactly the job's temporaries with their bytes, one for each part of at least the threshold and no other; on failure the disk is as before |
| Spill.WriteAttachmentTemps | internal/store/memory.go:864-879 | a failed attachment write leaves no file of the message behind |
| Spill.RenameMovesName | internal/store/memory.go:897-909 | one attachment's rename hands one path from job to record; together they still own exactly the message's files |
| Spill.RawMoves | internal/store/memory.go:886-893 | the same for the raw body |
| Spill.CommitSpill | internal/store/memory.go:882-911 | after success the record owns exactly the message's files; after a failure only the job does |
| Spill.UnlinkSpillJob | internal/store/memory.go:913-927 | no file of the insertion is left and no other message's file is touched |
| Spill.UnlinkRecord | internal/store/memory.go:953-967 | removes the record's files and no others |
| MemoryStore.NormalizeOptions | internal/store/memory.go:77-95 | accepts exactly positive caps with a known policy, and does not change what the caps mean |
| MemoryStore.NormalizeIsIdempotent | internal/store/memory.go:160-169 | options that passed the check pass again unchanged, so a reset after it cannot fail |
| MemoryStore.NormalizeFillsDefaults | internal/store/memory.go:77-95 | what passes keeps its caps and directory; a missing policy reads as reject, and a directory without a threshold gets the default one |
| MemoryStore.PreparedKeepsContent | internal/store/memory.go:194-213 | what is stored is the message as it came, with its id, and arrival and sizes where they were missing |
| MemoryStore.QuietDiskHoldsLiveFilesOnly | internal/store/memory.go:215-266 | with no insertion in flight the disk holds exactly the live records' files, with the messages' bytes, besides what other directories held when the store was built |
| MemoryStore.Memory.constructor | internal/store/memory.go:98-118 | an empty inbox under the given caps; of the files found, exactly those outside its own spill directory are left |
| StoreRuns.RunCalls | internal/store/memory.go:98-967 | for every sequence of calls from construction on, with the steps of insertions, reads and listings of several callers interleaved: the inbox goes through specified operations; each read or page that succeeds is what the inbox held under that id, or on that page, at one moment of the run; the disk holds live messages' files with their bytes, temporaries of insertions in flight, what other directories held at the start, and nothing else; from an empty disk, an empty inbox leaves an empty disk |
| StoreRuns.DiskIsAccountedFor | internal/store/memory.go:818-967 | in every state each file has its owner and each file the inbox counts on is there |
| MemoryStore.Memory.CanAcceptLocked | internal/store/memory.go:273-300 | the loop over running totals decides whether some suffix has room, without removing anything |
| MemoryStore.Memory.EvictUntilFitsLocked | internal/store/memory.go:302-310 | removes the least oldest prefix; its late error is unreachable after the dry run accepted |
| MemoryStore.Memory.InsertPosition | internal/store/memory.go:326-342 | finds the place before the first message the new one precedes |
| MemoryStore.Memory.Prepare | internal/store/memory.go:194-221 | the unlocked half: refuses oversize and failed spills with inbox and disk unchanged, otherwise leaves exactly its temporaries |
| MemoryStore.Memory.Commit | internal/store/memory.go:229-266 | the locked half, after any other calls: stale epoch and full are refused with nothing changed and no file left; success evicts, places and counts |
| MemoryStore.Memory.CommitAccepted | internal/store/memory.go:243-265 | past the checks the only failure is a rename, and it leaves neither entry nor file |
| MemoryStore.Memory.Insert | internal/store/memory.go:182-267 | both halves: which error comes out for which state, and the exact inbox afterwards |
| MemoryStore.Memory.RemoveLocked | internal/store/memory.go:761-808 | index, order, bytes and files lose one message together |
| MemoryStore.Memory.GetSnapshot | internal/store/memory.go:346-353 | the record under the id, if there is one, standing for the message |
| MemoryStore.Memory.GetLoad | internal/store/memory.go:354-363 | at any later time a read that succeeds gives back all of the message as long as the inbox has it, whichever parts were spilled; a record that names no file cannot fail |
| MemoryStore.Memory.GetFinish | internal/store/memory.go:355-376 | a message gone meanwhile is not found; otherwise what was loaded comes back and markRead flips that bit only |
| MemoryStore.SnapshotStaysTrue | internal/store/memory.go:345-377 | whatever ran since the snapshot, its id bears that message or none, and once gone stays gone |
| MemoryStore.Memory.Get | internal/store/memory.go:345-377 | the steps together return the inserted message whole, spilled or not, and cannot fail when nothing of it was spilled; markRead flips that bit only |
| MemoryStore.Memory.MarkRead | internal/store/memory.go:505-514 | sets the read bit of the message with that id and leaves every other message as it was; reports whether the id is present |
| MemoryStore.Memory.MarkAllRead | internal/store/memory.go:517-528 | sets every read bit and returns how many were unset |
| MemoryStore.Memory.List | internal/store/memory.go:380-438 | the page is the specified cut of the listing below the cursor, with full contents; it cannot fail when nothing is spilled |
| MemoryStore.Memory.Scan | internal/store/memory.go:400-432 | the backward scan with its resume flag chooses that page's records and next cursor |
| MemoryStore.Memory.LoadListed | internal/store/memory.go:430-437 | at any later time a page that loads is the chosen messages as they were listed; a page that names no file loads |
| MemoryStore.Memory.GetStats | internal/store/memory.go:619-636 | count, bytes, unread, generation, epoch and evictions agree with the messages held |
| MemoryStore.Memory.Delete | internal/store/memory.go:469-480 | takes out the message with that id and no other, leaving the rest in order; reports whether it was there |
| MemoryStore.Memory.DeleteAll | internal/store/memory.go:483-502 | empties the inbox, counts one generation per message, keeps the epoch |
| MemoryStore.Memory.Wipe | internal/store/memory.go:737-759 | empties inbox and spill directory and starts a new epoch |
| MemoryStore.Memory.ResetTo | internal/store/memory.go:701-734 | fails exactly when the options do not normalise, changing nothing; otherwise wipes and installs the caps |
| MemoryStore.Memory.ReplaceCaps | internal/store/memory.go:639-662 | refuses exactly an over-full inbox under reject without force, changing nothing; otherwise evicts down to the new caps, and its late error is unreachable |
| Compat.BudgetCoversInbox | internal/control/compat/email.go:215-220 | any filtered listing is shorter than the pages the budget allows |
| Compat.ListAll | internal/control/compat/email.go:190-213 | under the store's own cap returns the complete listing newest first; under any cap, its newest part of budget times page size |
| Idempotency.IdempCache.constructor | internal/app/idempotency.go:31-39 | an empty cache with the given bound, or the default for none |
| Idempotency.IdempCache.Find | internal/app/idempotency.go:41-56 | a hit is the entry found, now first; other fingerprints conflict; view and list as specified |
| Idempotency.IdempCache.StorePlan | internal/app/idempotency.go:58-70 | updates in place and moves to front, or replaces and prepends, dropping the last beyond the bound |
| Idempotency.IdempCache.StoreApply | internal/app/idempotency.go:72-84 | the same for apply results |
| Idempotency.IdempCache.Evict | internal/app/idempotency.go:86-95 | drops that key's entry and no other |
| Idempotency.IdempCache.Clear | internal/app/idempotency.go:97-106 | empties map and list |
| Idempotency.IdempCache.ViewHasDistinctKeys | internal/app/idempotency.go:13-39 | in every state one entry a key, no more than the bound, and the map has exactly the listed keys |
| LruRuns.HitComesFirst | internal/app/idempotency.go:41-56 | a hit is the entry of that key and fingerprint and comes first, the others following in their order; another fingerprint is a conflict, and neither that nor a miss moves anything |
| LruRuns.StoredPlanComesFirst | internal/app/idempotency.go:58-70 | a stored plan comes first, beside the result of the same request if one was stored, and the others follow in their order |
| LruRuns.StoredApplyComesFirst | internal/app/idempotency.go:72-84 | the same for a stored result beside its plan |
| LruRuns.EvictDropsTheKey | internal/app/idempotency.go:86-95 | the key's entry goes and the others stay in their order |
| LruRuns.RunsKeepRecency | internal/app/idempotency.go:41-141 | after every run of calls the entries stand in the order of their last hit or store, the latest first |
| LruRuns.PushedOutIsLeastRecentlyUsed | internal/app/idempotency.go:108-125 | over every run: a store costs another key its entry if and only if the cache is full, the stored key is new, and that entry was last used before all others |
| Idempotency.IdempCache.UnlinkLocked | internal/app/idempotency.go:151-171 | the pointer surgery takes one node out and leaves a well-linked list: acyclic, prev and next inverse, head and tail at the ends |
| Idempotency.IdempCache.MoveFrontLocked | internal/app/idempotency.go:127-141 | the list is the old one with that node first, the map as before |
| Idempotency.IdempCache.InsertFrontLocked | internal/app/idempotency.go:108-125 | replaces the key's node, prepends the new one and trims to the bound |
| Protocol.OtherOperationsLeaveStore | internal/app/operations.go:10-72 | an operation list without replaceStoreCaps leaves the store's part of the state alone |
| ChangeLaws.LastOperationWins | internal/app/operations.go:10-63 | each part of the resulting state is the argument of the last operation naming it and the old part when none does; caps leave the spill settings alone, and absent extensions read as none |
| ChangeLaws.OperationsApplyIffComplete | internal/app/operations.go:10-63 | operations apply if and only if each is of a known kind with its argument |
| Protocol.ValidStoreNormalizes | internal/store/memory.go:34-95 | a store spec that compiles always normalises, with an empty policy read as reject |
| AppSpec.PlanKeepsHost | internal/app/mutate.go:35-56 | a plan, cached or fresh, keeps the host invariant, changes only the cache, and answers its own request |
| AppSpec.ApplyKeepsHost | internal/app/mutate.go:75-130 | an apply keeps the host invariant with any other inbox traffic between its check and its commit |
| AppSpec.ResetKeepsHost | internal/app/reset.go:36-113 | a reset keeps it |
| AppSpec.RunsKeepHost | internal/app/mutate.go:35-130 | over every run the inbox caps are the active snapshot's store spec, its bootstrap revision the installed bootstrap's, and each cached answer the answer to its own request |
| AppSpec.BootStartsConsistent | internal/app/svc.go:93-122 | a boot that succeeds starts in the invariant, undrifted |
| AppSpec.PushKeepsCache | internal/app/idempotency.go:108-125 | storing under a key keeps keys distinct, the bound, and every other entry except a least recently used one pushed out of a full cache |
| AppProperties.ApplyIsAllOrNothing | internal/app/mutate.go:75-130 | an apply error leaves snapshots untouched and the inbox as other callers left it; a success raises the generation by one and makes the planned revision active |
| AppProperties.ApplyEvictsOnlyTheExcess | internal/app/mutate.go:234-269 | a fresh apply cuts the inbox at the old end down to the new caps, or leaves it alone when no caps were named |
| ChangeLaws.ApplySucceedsIff | internal/app/mutate.go:75-130 | an apply the cache does not answer succeeds if and only if it expects the active revision, its operations are complete, the state they lead to compiles, and caps they name can be installed on the inbox as checked and as it has become |
| ChangeLaws.ApplyInstallsWhatIsNamed | internal/app/mutate.go:108-130 | the active state then has each part named last, and the inbox the caps named last with the newest messages that fit; without named caps it is left alone |
| ChangeLaws.AnswersTellTheTruth | internal/app/mutate.go:108-130 | a fresh answer names the revision it started from, the one it leads to and made active, its generation, and drift exactly when that state is not the bootstrap |
| ChangeLaws.PlanForetellsApply | internal/app/mutate.go:35-130 | a plan and an apply of one request on one state succeed or fail alike and name one candidate, and the plan warns of evictions if and only if the apply evicts |
| ChangeLaws.ResetInstallsTheSource | internal/app/reset.go:36-155 | a reset succeeds if and only if its source (the file if there is a path, else the installed bootstrap) is there and passes every check, and then that is the active state and its caps are installed |
| ChangeLaws.BootInstallsTheFile | internal/app/svc.go:93-122 | a boot succeeds if and only if the file is there and compiles, and then it is active and bootstrap, over an empty inbox under its caps |
| AppProperties.ResetIsAllOrNothing | internal/app/reset.go:36-112 | a failed reset changes nothing; a success wipes, installs candidate as active and bootstrap, raises the generation by one, and ends undrifted with an empty cache |
| AppProperties.DriftIsDifference | internal/snapshot/store.go:29-74 | over every run drift holds exactly when active and bootstrap contents differ, and the caps follow the active snapshot |
| AppProperties.SameRequestSameCandidate | internal/app/mutate.go:193-232 | any two answers, each of a Plan or an Apply, for one expected revision and one operation list start from that revision and name the same candidate, whatever ran between and whether cached |
| AppProperties.AppliedKeyNeverSwapsAgain | internal/app/mutate.go:82-103 | while a key holds an apply result, Apply with it replays or reports a conflict, swaps nothing and keeps the entry |
| AppProperties.PlanForgetsAppliedExactlyWhenStale | internal/app/mutate.go:35-56 | a Plan under that key drops the entry if and only if it repeats the request, no plan was stored and the revision has moved on |
| AppProperties.AppliedEntryStays | internal/app/mutate.go:297-303 | every other step keeps it: only a reset, that Plan, or being pushed out of a full cache can remove it |
| AppProperties.PlanIsReplayed | internal/app/mutate.go:35-44 | the same plan again is answered as before whatever else has changed, and any other request under the key is refused; neither changes anything |
| AppProperties.SameFingerprintSameRequest | internal/app/idempotency.go:173-185 | fingerprints are equal if and only if the requests are, but for their keys |
| AppProperties.StepIsItsCalls | internal/app/mutate.go:35-130 | what a step does to the cache is what its calls on it do, in order |
| AppProperties.PushedOutIsOldest | internal/app/idempotency.go:108-125 | over every run from a boot, an entry that is pushed out was used less recently than every other |
| AppProperties.PlanCanReopenAnAppliedKey | internal/app/mutate.go:297-303 | a concrete run in which the same Apply swaps twice, and does not without the Plan in between |
| App.SnapshotStore.Swap | internal/snapshot/store.go:29-38 | installs the new snapshot, remembers the old one if there was one, leaves the bootstrap alone |
| App.SnapshotStore.InstallBootstrap | internal/snapshot/store.go:68-74 | active and bootstrap become the same snapshot |
| App.App.constructor | internal/app/svc.go:93-122 | the booted object is the boot state of the protocol |
| AppSpec.ApplyIsStartThenCommit | internal/app/mutate.go:75-130 | the occupancy check, any other inbox traffic, and the commit make up one apply step |
| App.App.CheckStoreCaps | internal/app/mutate.go:234-262 | the verdict is that of the specified check on the inbox as it is, which stays as it is |
| App.App.InstallStoreCaps | internal/app/mutate.go:243-279 | on the inbox as it has become: installs the caps as specified, or refuses and changes nothing |
| App.App.StartApply | internal/app/mutate.go:75-110 | state and answer of the protocol's first part; a candidate that passes is the one its request builds |
| App.App.FinishApply | internal/app/mutate.go:108-130 | on whatever the inbox has become since: caps, swap and cache as in the protocol's commit |
| App.App.Plan | internal/app/mutate.go:35-56 | the object's state and answer are the protocol's plan step |
| App.App.Apply | internal/app/mutate.go:75-130 | both parts with nothing between are the protocol's apply step |
| App.App.Reset | internal/app/reset.go:36-113 | the object's state and answer are the protocol's reset step; nothing after the checks can fail |
| Codec.UnstuffUndoesStuff | internal/smtp/codec/line.go:88-96 | unstuffing a stuffed line returns it and never takes it for the terminator (section 4.5.2 of RFC 5321) |
| Codec.AnyLineUnstuffs | internal/smtp/codec/line.go:88-96 | of any line, stuffed or not, a dot alone ends the body, another leading dot is dropped, and the rest stays |
| Codec.LineEnds | internal/smtp/codec/line.go:53-85 | any text up to an LF is a line, less one CR before it, if with its ending it is within the cap; otherwise it is too long; either way it is consumed through the LF |
| Codec.NoLineWithoutLF | internal/smtp/codec/line.go:53-85 | a stream without an LF gives no line, but too long, end, or unexpected end |
| Codec.StuffedLinesComeBack | internal/smtp/server/session.go:406-445 | dot-stuffed lines within the line limit come back joined by CRLF exactly when they fit the size limit, with the reader just past the terminator; otherwise no body is delivered |
| Codec.PlainBoundIffFewDots | internal/smtp/server/session.go:406-445 | any message a client can send, delivered, too large or cut off, is read within limit, slack and one line if and only if the dot-led ones among its lines that are read number at most what those leave over; the receiver stops early exactly when the discard budget runs out |
| Codec.ReadingIsBoundedByDots | internal/smtp/server/session.go:406-445 | for any stream, what is read before the last line is at most limit plus slack plus one byte for each dot-led line, and the last line is at most a line unless it is overlong |
| Codec.ReadingIsBounded | internal/smtp/server/session.go:406-445 | for any stream the body is within the limit and what is read before the last line is at most four thirds of limit plus slack |
| Codec.StuffedDotsExceedThePlainBound | internal/smtp/server/session.go:425-441 | a body of stuffed dots that is delivered takes more stream than limit, slack and one line together |
| Codec.OverlongLineIsDrained | internal/smtp/codec/line.go:68-75 | a line over the cap ends the body as too long and is consumed whole, whatever its length |
| Codec.Reader.ReadLine | internal/smtp/codec/line.go:53-85 | consumes through the first LF on success and on overflow alike, and strips one CR |
| Codec.Reader.Drain | internal/smtp/codec/line.go:68-75 | reads through the next LF or to the end |
| SmtpSpec.ReachedAgrees | internal/smtp/server/session.go:136-372 | over every conversation the session's phase, sender, recipients, name, TLS and login are what the client's own record of commands and replies says |
| SmtpSpec.EnvelopeIsOpenTransaction | internal/smtp/server/session.go:331-343 | the envelope is the sender of the last accepted MAIL and the recipients accepted since, in order, with no accepted HELO, EHLO, RSET or upgrade between; and the conversation shows the TLS and login its policy demands |
| SmtpSpec.ReceivingIsAllowed | internal/smtp/server/session.go:272-304 | a message is only ever being received after a DATA its policy allowed |
| SmtpSpec.FinalReplyTellsStorage | internal/smtp/server/session.go:305-372 | the end of DATA gets at most one reply, below 400 exactly when the message was stored |
| SmtpLaws.HelloAcceptedIff | internal/smtp/server/session.go:136-167 | over every conversation a HELO or EHLO is accepted if and only if it has a name and no override refuses it |
| SmtpLaws.RsetAcceptedIff | internal/smtp/server/session.go:447-463 | a RSET is accepted unless an override refuses it |
| SmtpLaws.MailAcceptedIff | internal/smtp/server/session.go:194-237 | a MAIL is accepted if and only if a name is given, no transaction is open, no override refuses it, the policy is met, it is well formed and its declared size within the limit; else the reply is that of the first of these that fails |
| SmtpLaws.RcptAcceptedIff | internal/smtp/server/session.go:239-270 | a RCPT is accepted if and only if a transaction is open, no override refuses it, the policy is met, it is well formed and the recipients so far are fewer than allowed; else the reply is that of the first of these that fails |
| SmtpLaws.DataAcceptedIff | internal/smtp/server/session.go:272-304 | a DATA is accepted if and only if the open transaction has recipients, no override refuses it, the policy is met and the gate admits; else the reply is that of the first of these that fails |
| SmtpLaws.RefusalTellsWhetherToRetry | internal/smtp/server/session.go:304-372 | after the end of DATA a refusal is permanent if and only if the message or one of its lines is too large, and 452 if and only if the inbox is full |
| SmtpLaws.LoggedInIff | internal/smtp/server/auth.go:21-151 | a session is logged in after an AUTH if and only if it was, or login is offered, the TLS it wants is up, the session is at rest and the exchange was accepted |
| SmtpLaws.UpgradedIff | internal/smtp/server/starttls.go:12-56 | TLS is up after a STARTTLS if and only if it was, or it is offered, the session is at rest and kept open, and the handshake went through |
| SmtpLaws.KeptOpenIff | internal/smtp/server/behavior.go:22-56 | an accepted command keeps the session open unless its verb is the one to close after; a refusal of its own always does |
| SmtpLaws.AcceptedRcptHadRoom | internal/smtp/server/session.go:259-262 | in every conversation an accepted RCPT had fewer recipients open before it than its policy allows |
| SmtpLaws.RecipientsWithinLimit | internal/smtp/server/session.go:259-262 | so no open transaction exceeds the largest limit its conversation met |
| Session.Session.ReplyKeyed | internal/smtp/server/behavior.go:22-39 | sends the configured code or the default, and closes exactly after the configured verb |
| Session.Session.ApplyErrorOverride | internal/smtp/server/behavior.go:43-56 | handles the command exactly when a 4xx or 5xx line is configured |
| Session.Session.Dispatch | internal/smtp/server/session.go:86-134 | every command but DATA leaves the session, the replies sent and the open flag of its specified step |
| Session.Session.CmdMail | internal/smtp/server/session.go:194-237 | refuses out of order, over policy and over size in that order; otherwise opens a transaction |
| Session.Session.CmdRcpt | internal/smtp/server/session.go:239-270 | appends one recipient or refuses, changing nothing |
| Session.Session.CmdStartTls | internal/smtp/server/starttls.go:12-56 | after the handshake everything said before it is forgotten (section 4.2 of RFC 3207); without it nothing is |
| Session.Session.CmdAuth | internal/smtp/server/auth.go:21-151 | a login counts exactly when its exchange was accepted, and never before the TLS the policy requires |
| Session.Session.ReadData | internal/smtp/server/session.go:406-445 | the loop's result and the reader's final position are those of the specified collection, for any stream |
| Session.Session.BeginData | internal/smtp/server/session.go:272-304 | holds a reservation exactly when a body follows (command allowed, gate admits, session not closed by the reply), and captures the size limit and the store's epoch |
| Session.Session.EndData | internal/smtp/server/session.go:289-372 | under any earlier epoch: stores a message of the received bytes with this session's envelope exactly when it replies so, gives the reservation back on every path, forgets the transaction |
| Session.SendThenGet | internal/smtp/server/session.go:304-348 | dot-stuffed lines sent through DATA and stored fitted the limit, and getting the message gives back those lines joined by CRLF, their size and the session's envelope; with no spill directory the read cannot fail |
| Gate.ReserveBytes | internal/smtp/server/session.go:286-287 | a reservation is never negative, never above the limit, and positive when the limit is |
| GateLaws.ReservesWhatMayCome | internal/smtp/server/session.go:286-287 | the declared size where that is within the limit, the whole limit where it is not or is not given |
| Gate.AdmissionGate.Acquire | internal/smtp/server/admit.go:30-44 | counts the session and its address, or refuses at a cap and changes nothing |
| Gate.AdmissionGate.Release | internal/smtp/server/admit.go:55-69 | gives both back and drops an address's entry with its last session |
| Gate.AdmissionGate.ReserveData | internal/smtp/server/admit.go:71-86 | which cap refuses, and what is added when none does |
| Gate.AdmissionGate.ReleaseData | internal/smtp/server/admit.go:88-101 | takes the reservation back, clamped at zero |
| Server.GateBooksAreExact | internal/smtp/server/server.go:260-299 | over every interleaving the gate's four counts are the open sessions, those of each address, the messages in flight and the bytes they reserved, with no zero entry; the addresses' counts and the sessions without a valid address make up the sessions |
| Server.NoClampFires | internal/smtp/server/admit.go:55-101 | no release in any reachable state meets its clamp |
| Server.RunsStayWithinCaps | internal/smtp/server/admit.go:30-86 | under one admission spec all four caps hold in every state of every run |
| Server.StoredMailIsAccountedFor | internal/smtp/server/session.go:296-348 | over every interleaving of sessions, wipes and resets each stored message was begun after the last wipe, is byte for byte the body its session received, carries the transaction its conversation had open, and shows the TLS and login its DATA's policy demanded |
| Server.StoredMailWithinRecipientLimit | internal/smtp/server/session.go:259-343 | nor does the envelope of any stored message, over every interleaving |
| GateLaws.ConnectRefusedIff | internal/smtp/server/admit.go:30-44 | in every sound state a connection is refused if and only if as many sessions are open, in all or from its address, as allowed; otherwise it is the newest session |
| GateLaws.ReservationRefusedIff | internal/smtp/server/admit.go:71-86 | a reservation is refused if and only if the messages in flight are as many as allowed or its bytes would exceed theirs, and which of the two it is |
| Server.ReplyTellsInbox | internal/smtp/server/session.go:348-371 | in the shared inbox: replied below 400 exactly when the message is there afterwards, otherwise the inbox is unchanged |
| Server.RunsStaySound | internal/smtp/server/server.go:260-299 | the books, the trace of every stored message and the inbox's own invariant survive every step |
| Diff.Collector.Walk | internal/app/diff.go:47-102 | appends one entry for each path where the two trees differ, in whatever order children are visited, and no path twice |
| DiffFine.ChangesAreJustified | internal/app/diff.go:47-102 | no replacement has two objects or two arrays as its sides, and both are what the trees have there; an addition or removal is of a child that one of two like containers has and the other has not |
| DiffFine.DiffIsTheOnlyFinePatch | internal/app/diff.go:47-102 | a list of entries is the diff if and only if no path comes twice, every entry is justified in that sense, and together they turn the first tree into the second |
| Diff.ChangesAreApart | internal/app/diff.go:47-102 | no entry's path lies at or below another's |
| Diff.DiffIsThePatch | internal/app/diff.go:15-102 | applying all entries at once, in any order, to the first tree gives the second and no other tree |
| Diff.InvertedDiff | internal/app/diff.go:15-102 | the inverted entries are the diff the other way round, so they lead back |
| Diff.EmptyDiffMeansEqual | internal/app/diff.go:47-50 | empty if and only if the trees are equal |
| DiffText.RenderInjective | internal/app/diff.go:108-113 | with plain keys different paths render as different text |
| DiffText.RenderedPathsDiffer | internal/app/diff.go:26 | the entries of one diff render as different text, in trees where an object with a dotted, bracketed or empty key holds only scalars |
| DiffText.StateIsTextSafe | internal/model/state.go:10-23 | every configuration's tree is of that kind: its only free keys are label names and their values are text |
| DiffText.SortByText | internal/app/diff.go:26 | the same entries, none before one with a smaller text |
| DiffText.FirstDifferenceDecides | internal/app/diff.go:26 | a text comes before what extends it, and otherwise the first character that differs decides |
| DiffText.OneLineEach | internal/app/diff.go:115-124 | each entry has its line, in the order of the entries: what happened, a blank, the path |
| DiffText.ExamplePath | internal/app/diff.go:108-113 | keys are joined by dots and an index stands in brackets |
| DiffText.SortedDiffIsDetermined | internal/app/diff.go:15-28 | for any two configurations there is one sorted listing of their diff |
| DiffText.DiffStates | internal/app/diff.go:15-28 | the list is the whole diff, sorted, with its lines; it is empty exactly when the trees are equal |
| Limiter.Limiter.EvictIdleLocked | internal/control/rest/auth.go:213-229 | drops exactly the buckets idle longer than the threshold |
| Limiter.Limiter.Allow | internal/control/rest/auth.go:183-211 | the answer and the buckets left are those of refill, cap and spend after eviction |
| Limiter.SettingsMean | internal/control/rest/auth.go:170-181 | a negative rate is no limiter, a zero rate or burst stands for its default, all else is taken as given |
| Limiter.IdleIsFull | internal/control/rest/auth.go:213-229 | a bucket idle that long has refilled to the burst |
| Limiter.EvictionIsUnobservable | internal/control/rest/auth.go:183-229 | from matching states the evicting limiter answers every request as one that never evicts |
| Limiter.EvictingRunAnswersAlike | internal/control/rest/auth.go:183-229 | so does every run from a new limiter |
| Limiter.WindowIsBounded | internal/control/rest/auth.go:183-211 | in any window of any run one source gets at most the burst (zero if negative) plus the rate times the window's length |
| Limiter.LevelIsTheRoom | internal/control/rest/auth.go:183-211 | after every run a source has x tokens if and only if the burst allows x and so does every stretch of the run up to now, with what it granted and earned |
| Limiter.AdmitsExactlyWhenThereIsRoom | internal/control/rest/auth.go:183-229 | in every run from a new limiter a request is let through if and only if one more keeps its source within burst and earnings over every stretch that ends with it |
| Limiter.PlainBoundNeedsABurst | internal/control/rest/auth.go:170-211 | the bound without that reading holds of a single request if and only if the burst is not negative |
| Units.ParseByteSize | internal/config/bytesize.go:26-65 | the scanning loop parses as specified: digits, then a unit, or which error |
| Units.EveryTextSplits | internal/config/bytesize.go:27-34 | every text is, between its blanks, digits and a rest not beginning with one |
| Units.SizeAcceptedIffFits | internal/config/bytesize.go:26-65 | so split, any text is accepted exactly when it is digits and a unit whose product fits in 64 bits, and means that product; otherwise which error it gets |
| Units.SizeRoundTrip | internal/config/bytesize.go:68-93 | printing then parsing gives the size back if and only if it is not negative |
| UnitLaws.SizeMeans | internal/config/bytesize.go:26-65 | a number with the k-th unit, in any case, means that many times the k-th power of 1024, or overflows |
| UnitLaws.SizePrintsInLargestUnit | internal/config/bytesize.go:68-93 | a positive size is printed as one number of the largest unit that divides it |
| UnitLaws.ValueOfTwo | internal/config/bytesize.go:36-44 | digits in a row are read in base ten |
| UnitLaws.NoLeadingZero | internal/config/bytesize.go:68-93 | and printed without a leading zero |
| Units.DurationRoundTrip | internal/config/duration.go:118-141 | printing then parsing gives back every duration above the minimum |
| UnitLaws.DurationMeansTheSum | internal/config/duration.go:49-78 | numbers with units in a row mean their sum, an hour being sixty minutes, a minute sixty seconds, a second a thousand milliseconds and so on; signed, and refused when it does not fit |
| UnitLaws.DurationPrintsInLargestUnit | internal/config/duration.go:118-141 | a positive duration is printed as one number of the largest unit that divides it |
| Units.PrinterReturnsIffAboveMinimum | internal/config/duration.go:118-141 | the printer as written returns if and only if the duration is not the minimum, and then calls itself at most once |
| Units.OnlyTheMinimumNegatesToItself | internal/config/duration.go:122-124 | its argument's negation is again negative exactly at the minimum |
| Wire.WireRoundTrip | internal/config/wire.go:12-15 | on a whole tree parsing undoes printing if and only if every size key holds null or a non-negative 64-bit integer and every duration key null or a 64-bit integer |
| Wire.TreeRoundTrip | internal/config/wire.go:160-163 | the same with the acceptance of each pass spelled out |
| Wire.FieldRoundTrip | internal/config/bytesize.go:121-169 | for the value of one size or duration key, after all four passes |
| Wire.FieldsTaken | internal/config/bytesize.go:121-151 | under a size or duration key null and text that parses are taken, and of bare numbers only a duration of zero; what is taken is null or a 64-bit integer, what is not stays as it was |
| Histogram.CumulativeIsAtMost | internal/observability/registry.go:369-379 | the counts up to a bound add up to the values at most that bound |
| Histogram.EveryValueIsTallied | internal/observability/registry.go:353-367 | buckets and overflow together hold every observation once |
| Histogram.Hist.Add | internal/observability/registry.go:353-367 | one more observation, in the first bucket that takes it |
| Histogram.Hist.Snapshot | internal/observability/registry.go:369-379 | each scraped count is the number of observations at most its bound, the last one all of them |

## Left out

- MemoryStore.Memory.Wipe: unlinking files is taken to succeed; the error the program would return for a failed unlink, and the file it would leave, are not modelled.
- MemoryStore.Memory.ResetTo: creating the new spill directory is part of the checks before it, not of the call, so its failure between check and install is not modelled.
- MemoryStore.Memory.Insert: the nil, cancelled-context and Message-ID default paths, attachment ids, and the parse of a message that comes unparsed are not modelled.
- MemoryStore.Memory.List: an unreadable spill file is an error without its cause; text cursors that are not ULIDs skip everything, as the time they decode to makes them do.
- MemoryStore.Memory.Prepare: an insertion writes its temporaries in one step; a wipe between two of its writes is not modelled.
- App.App.Plan: the plan's diff and warnings text are not attached to the modelled plan; Diff.dfy and DiffText.dfy prove what the diff is.
- AppProperties.ApplyIsAllOrNothing: an error leaves the inbox as other callers left it, since an insert between check and commit can be what makes the new caps refuse.
- Codec.ReadingIsBounded: does not bound the last line; ReadingIsBoundedByDots does, unless it is overlong.
- Codec.Reader.ReadLine: read errors other than end of input, and caps below two bytes, which no caller passes, are not modelled.
- Session.Session.EndData: a timeout's 451 reply is not told apart from a disconnect, and the MIME tree comes from a function parameter.
- Session.Session.CmdAuth: base64 and the PLAIN and LOGIN dialogues are an outcome with a number of challenges.
- Session.Session.CmdStartTls: the change of connection and the leftover bytes are not modelled.
- Session.Session.Dispatch: reply texts and the EHLO extension list are left out; replies are codes, and writing one is taken to succeed.
- Server.GateBooksAreExact: a session that fails on the greeting, and delays, are disconnects.
- Diff.Collector.Walk: children are visited in any order rather than by sorted key; the later sort by text makes the order unobservable.
- DiffText.SortByText: stands for the library's sort, whose own steps are not modelled.
- Limiter.Limiter.Allow: reals for floating-point seconds and tokens; how an address is split is the library's, and its outcome a parameter. The copy in internal/control/mcp/auth.go is the same code.
- Units.DurationRoundTrip: durations with fractions are outside the modelled parser; the printer never writes one.
- Wire.WireRoundTrip: trees are values, so the rewriting of shared maps in place is not modelled; violations are counted as none or some, without their paths and messages.
- Wire.FieldRoundTrip: floating-point values, which the decoder never produces, are left out.
- Histogram.Hist.Add: NaN and floating-point rounding of the sum are left out.
- The metric series table and its cardinality cap: it would only add counters that never fall.
- Case-folding of wire keys before coercion: a renaming table.
- Wait, subscriptions and events of the store, audit records and logging.
- `Configure` with another spill directory, which the app never calls.
- HTTP, MCP and SSE transport, YAML decoding, schema validation, MIME parsing, the web UI and the CLI.
