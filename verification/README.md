# EmilyOS policy kernel: a verified model

This project models the parts of EmilyOS that carry state, and proves what they keep over whole
runs. `dafny verify dfyconfig.toml` checks all of it.

| files | what they model |
|---|---|
| `Common.dfy` | what several modules share |
| `Lines.dfy`, `Kernel.dfy`, `LineReader.dfy` | the PARENA runtime's buffered line reader and its read-all, over a kernel whose reads may be short or fail |
| `Vec.dfy` | the PARENA runtime's doubling vector |
| `Text.dfy`, `Audit.dfy`, `Logger.dfy` | the hash-chained audit log: hash input, verification, writing, sessions |
| `Posture.dfy`, `PostureAda.dfy` | the posture machine with its file, and its Ada port |
| `Policy.dfy`, `CallTree.dfy`, `Dispatcher.dfy` | role and posture checks, the dispatcher with handlers that dispatch, and the call tree in the log |
| `Concurrent.dfy` | interleaved dispatches and posture transitions on one logger |
| `PostureSet.dfy` | the `posture set` command and the log as its move history |
| `JsonTexts.dfy`, `SnapshotHash.dfy`, `Snapshots.dfy` | policy snapshots: what their hash covers, the store, and its chain of predecessors |

## Main results

- **Buffered reading is byte-at-a-time reading.** For every interleaving of opens, end-of-file
  tests, line reads, read-alls and closes, over any number of descriptors (more than 32, reused
  numbers, numbers that are not open), and every way the kernel splits its reads, the 32-slot
  buffered reader gives the results of the reader that takes one byte at a time if and only if every
  read-all found its descriptor's buffer empty, which it does unless an end-of-file test or a line
  read of the descriptor came before it with no close between (`LineReader.Runtime.Run`). An
  operation in which no read or close failed is exact even if others failed. If reads fail on the way
  or a read-all reads past a buffer, what was returned and what is still owed remain, newlines aside,
  exactly the bytes that were owed at the start, and in order where no read-all read past a buffer
  (`LineReader.RunsConserve`).
- **The last hash fixes the hash inputs, and the history if no hashed string has a newline.** Two
  accepted logs with the same last hash have, short of a SHA-256 collision between their own hash
  inputs, equal length and equal hash inputs (`Audit.FinalHashFixesHistory`). They can still be
  different histories: a newline in a hashed string of an accepted log lets that event be altered
  with all hashes kept (`Audit.AlteredLog`). The last hash fixes the history if and only if every
  hashed string of the log is on one line (`Audit.LastHashDecidesIffPlain`).
- **Sessions keep the log.** Over every run of opens, appends with any faults, and closes, the file
  verifies and is numbered from 0 if and only if no logger put a line into it past its own failed
  sync without reopening (`Logger.SessionsKeepTheLog`). Verification alone accepts it if and only if
  every such line came after one that is linked to its own hash (`Logger.ChainOverRuns`,
  `Logger.LoggingPastFailedSync`).
- **The log is the call tree.** A log parses to a forest of nested dispatches if and only if that
  forest writes the log (`CallTree.ParseInvertsEmit`). With appends failing in their write or their
  sync, the attempts, posture and error of a dispatch with nested dispatches are exactly specified
  (`Dispatcher.Dispatcher.Dispatch`); its new events parse if and only if no closing event was lost
  and no pending event failed in its sync (`Dispatcher.ParsesIffBracketed`), and to the whole call
  tree if and only if, besides, no first event that was attempted was lost
  (`Dispatcher.ParsesIffKept`).
- **Concurrency.** In every interleaving, on any log and with any faults, the log holds of every
  dispatch exactly what it should have written, less the event whose own write failed
  (`Concurrent.RunsAccount`); without faults every finished dispatch has its whole record
  (`Concurrent.WholeRecords`). The log is a valid numbered chain if and only if it was one at the
  start and no line was put past one whose sync failed (`Concurrent.RunsKeepChain`). Every dispatch that went on was permitted,
  and every denied one was not, at an instant inside it (`Concurrent.DecisionsAreJustified`). A
  running handler is permitted now if and only if the posture of now lets it through
  (`Concurrent.StandingPermission`), and a denial names the posture that denied if and only if the
  posture was the same at the dispatch's two readings (`Concurrent.DenialJoinsTwoReadings`).
- **Posture over restarts.** Each step of every run is a permitted move or none, EXITED is never left,
  and a restart finds the posture in memory if and only if the last write that changed the file
  neither spoilt it nor failed after writing it with no restart since (`Posture.RestartsOverRuns`).
- **Event sourcing.** Replaying the log gives the stored posture, unless a failed write spoilt the
  posture file, at every point of a run if and only if no command of the run moves the stored posture
  without an allow event (`PostureSet.ReplayGivesStoredPosture`).
- **What a snapshot's hash covers.** Nothing separates predecessor, roles, capabilities and posture
  policy in the hash input, so as mere texts they can be cut differently (`SnapshotHash.RecutTwin`).
  But no JSON text of a map ends with that of another (`JsonTexts.MapTextsSuffixFree`), so, short of a
  collision and with the first five fields on one line, equal hashes are those of equal contents
  (`SnapshotHash.HashCoversAll`).
- **Snapshots.** Names of generated ids sort chronologically. After every run of captures, failing
  ones included, the store is one chain of predecessors if and only if those that stored anything
  were whole and each in a later second than the one before; the run may start with any captures in
  one second, if the last of them left a spoilt file and the next, in that second, captured it anew
  (`Snapshots.CapturesChainIffStraight`). A spoilt snapshot beside one of another second breaks the
  chain for good (`Snapshots.SpoiltForGood`).

## How the model is built

- SHA-256 is a parameter: any function from text to 64 hex digits. Collision-freedom is assumed
  only where a lemma says so, and only between the texts of the two logs in question.
- The audit file is a sequence of events, which is what JSON lines of valid UTF-8 strings read back
  to. `meta` maps strings to strings. Clocks, random choices of the kernel and the outcomes of
  writes are parameters or nondeterministic choices.
- `read` returns -1 on a descriptor that is not open or on a fault, 0 at the end, and otherwise any
  number of bytes from 1 up to what was asked for. File contents do not change while a file is open.
- A snapshot's `createdAt` is the text that is hashed, to the second. Marshalled maps are compact JSON
  objects, with any keys and values, or null.
- Read-line and read-all results carry their closing NUL; a caller that treats the result as a C
  string sees it up to its first NUL byte.
- A handler is whatever it does in one run: posture moves and further dispatches, and an outcome,
  which includes what it leaves in the metadata map that it shares with the closing event.

Where code and prose differ, the model follows the code:

- `internal/fsaclmod/parena_runtime.h:327-334` says that mixing read-all with line reads drops or
  duplicates what is buffered; as long as the descriptor stays open each byte is delivered once, but
  out of order (`LineReader.RunsConserve`).
- `docs/POSTURE.md` says INCIDENT grants `cap.export` even to a role that lacks it; the dispatcher
  checks the role first (`Concurrent.NoPostureRescues`).
- `internal/posture/machine.go:73` and `ada/posture/posture-machine.ads:39-42` say EXITED's lockout is
  enforced elsewhere; the dispatcher has no such check (`Policy.ExitedDecidesLikeNormal`).
- `docs/POSTURE.md` contradicts itself on SIEGE: line 41 lists the move to GAME, line 103 says that
  RESUME is the only way out. The code has the move.
- `docs/AUDIT.md` contradicts itself on the hash input: line 57 puts `prev_hash` last, line 68 first.
  The code puts it last (`Audit.CanonicalLayout`). It promises monotonic `seq`; verification does not
  look at it (`Logger.NumberingIsNotVerified`).

## Model

| member | source | states |
|---|---|---|
| `Lines.ReadLineSplits` | internal/fsaclmod/parena_runtime.h:413-421 | the line is the newline-free part before the first newline; line, newline and rest rebuild the stream |
| `Lines.ReadLinesNewlineFree` | internal/fsaclmod/parena_runtime.h:413-455 | no line that a scan yields contains a newline |
| `Lines.RejoinedLines` | internal/fsaclmod/parena_runtime.h:394-455 | rejoining all lines rebuilds the file, up to one missing final newline |
| `Lines.LinesRoundTrip` | internal/fsaclmod/parena_runtime.h:394-455 | newline-free lines joined by newlines are read back exactly |
| `LineReader.OtherSlotsUntouched` | internal/fsaclmod/parena_runtime.h:346-365 | rewriting one buffer is invisible to every descriptor it serves neither before nor after |
| `LineReader.ClaimedSlot` | internal/fsaclmod/parena_runtime.h:355-362 | claiming a free buffer keeps descriptors distinct and changes no stream |
| `LineReader.OnlyThisStream` | internal/fsaclmod/parena_runtime.h:430-436 | a refill or a taken byte changes the stream of its own descriptor only |
| `LineReader.OneSlotChanged` | internal/fsaclmod/parena_runtime.h:346-381 | rewriting the buffer of one descriptor leaves what is buffered for every other |
| `LineReader.ReleasedOpen` | internal/fsaclmod/parena_runtime.h:374-386 | a descriptor that stays open after its buffer was released owes the file from the OS offset: what it lost is what was buffered |
| `LineReader.ReleasedClosed` | internal/fsaclmod/parena_runtime.h:374-386 | releasing the buffer and closing ends exactly this stream |
| `LineReader.DrainedBehind` | internal/fsaclmod/parena_runtime.h:289-309 | what is read off the descriptor is taken from behind its buffered bytes |
| `LineReader.ConsumedIsRead` | internal/fsaclmod/parena_runtime.h:427-450 | bytes consumed up to a newline or the end are what the byte-at-a-time reader returns |
| `LineReader.Runtime.IoBufFor` | internal/fsaclmod/parena_runtime.h:351-365 | gives the descriptor's buffer, claiming one if there is room, -1 exactly when the table is full; no stream changes |
| `LineReader.Runtime.IoBufRelease` | internal/fsaclmod/parena_runtime.h:374-381 | the descriptor has no buffer afterwards; every other stream is unchanged |
| `LineReader.Runtime.Close` | internal/fsaclmod/parena_runtime.h:383-386 | ends exactly this stream; with no failure in it, returns 0 if and only if the descriptor was open; after a failed close that leaves it open, the stream is what it was if and only if nothing was buffered |
| `LineReader.Runtime.Refill` | internal/fsaclmod/parena_runtime.h:406-409 | a read into a dry buffer leaves every stream as it was, and a full-length read saves one later read |
| `LineReader.Runtime.PeekUnbuffered` | internal/fsaclmod/parena_runtime.h:396-404 | the one-byte peek with a step back tells the end and moves nothing |
| `LineReader.Runtime.PeekBuffered` | internal/fsaclmod/parena_runtime.h:405-410 | the buffered test tells the end, moves nothing, and reads only when the buffer is dry |
| `LineReader.Runtime.AtEof` | internal/fsaclmod/parena_runtime.h:394-411 | answers as the byte-at-a-time reader does, with or without a buffer; no stream changes |
| `LineReader.Runtime.NextByte` | internal/fsaclmod/parena_runtime.h:428-440 | consumes exactly the next byte of the stream, buffered or not |
| `LineReader.Runtime.Store` | internal/fsaclmod/parena_runtime.h:442-449 | appends one byte, doubling a full buffer; the arena bytes taken are determined by its size |
| `LineReader.Runtime.Gather` | internal/fsaclmod/parena_runtime.h:427-450 | the loop consumes exactly the gathered line and its newline; terminates; bounded arena use |
| `LineReader.Runtime.ReadLine` | internal/fsaclmod/parena_runtime.h:422-455 | the byte-at-a-time line when reads do not fail; no byte lost when they do; at most 5m+129 arena bytes for m bytes; closing NUL |
| `LineReader.Runtime.Perform` | internal/fsaclmod/parena_runtime.h:289-455 | each operation, on any descriptor number and with no failure in it, gives what the byte-at-a-time reader gives if and only if it is not a read-all past buffered bytes; with failing reads and closes, what a stream loses goes to the caller, but for the front of its own stream at a failed close; other descriptors' buffers stay, and a close leaves nothing buffered |
| `LineReader.Runtime.PerformReadAll` | internal/fsaclmod/parena_runtime.h:289-309 | a read-all takes what is behind the buffer, and gives what the byte-at-a-time reader gives if and only if the buffer was empty |
| `LineReader.RunIsSimple` | internal/fsaclmod/parena_runtime.h:289-455 | a run of steps of which none failed gives the results of the byte-at-a-time reader if and only if every read-all found its buffer empty |
| `LineReader.HoldsOnlyStep` | internal/fsaclmod/parena_runtime.h:335-455 | bytes are buffered for a descriptor only after an end-of-file test or a line read of it with no close since |
| `LineReader.Runtime.Run` | internal/fsaclmod/parena_runtime.h:289-455 | every sequence of operations gives the results of the byte-at-a-time reader if and only if every read-all found its buffer empty, and then its streams; a buffer can be found nonempty only after an end-of-file test or a line read of its descriptor with no close since; each step is one of those described, and exact if nothing failed in it |
| `LineReader.OpenAndReadAll` | internal/fsaclmod/parena_runtime.h:289-309 | a file that is read as a whole after being opened gives its contents |
| `LineReader.RunsConserve` | internal/fsaclmod/parena_runtime.h:289-455 | over whole runs, failing reads and read-alls included, what was delivered and what is owed are, newlines aside, each byte owed at the start once; in order if no read-all read past buffered bytes |
| `LineReader.Runtime.Scan` | internal/fsaclmod/parena_runtime.h:394-455 | yields exactly the lines, terminates, and through a buffer takes exactly ceil(n/4096)+1 full-length reads, plus one if the last line is open |
| `LineReader.Runtime.SlurpBlock` | internal/fsaclmod/parena_runtime.h:301-303 | each read lands inside the buffer, behind what was read before |
| `LineReader.Runtime.Regrown` | internal/fsaclmod/parena_runtime.h:294-300 | one block larger, same contents, room for a whole read |
| `LineReader.Runtime.Slurp` | internal/fsaclmod/parena_runtime.h:290-304 | reads to the end; the buffer has grown once per started block however the reads were split |
| `LineReader.RegrowthsClosedForm` | internal/fsaclmod/parena_runtime.h:290-300 | k regrowths take 4096(k+1)(k+2)/2 arena bytes |
| `LineReader.Runtime.ReadAll` | internal/fsaclmod/parena_runtime.h:289-309 | everything from the OS offset, at an exact arena cost; it is all that the descriptor owed if and only if its buffer was empty |
| `Vec.ToInt32` | internal/fsaclmod/parena_runtime.h:185-187 | the cast keeps the low 32 bits and is exact if and only if the count is below 2^31 |
| `Vec.GrowthStep` | internal/fsaclmod/parena_runtime.h:170-176 | doubling a full array keeps capacity 4*2^k and the cost laws |
| `Vec.AmortisedCost` | internal/fsaclmod/parena_runtime.h:169-178 | in all at most 4 slots taken and fewer than 2 copies per item |
| `Vec.Vec.constructor` | internal/fsaclmod/parena_runtime.h:160-167 | an empty vector |
| `Vec.Vec.Push` | internal/fsaclmod/parena_runtime.h:169-178 | appends exactly the item, within the amortised cost |
| `Vec.Vec.Get` | internal/fsaclmod/parena_runtime.h:180-183 | the item at the index, nothing out of range |
| `Vec.Vec.Len` | internal/fsaclmod/parena_runtime.h:185-187 | the number of items modulo 2^32, exact if and only if below 2^31 |
| `Vec.Vec.SetAt` | internal/fsaclmod/parena_runtime.h:200-203 | replaces one item in range, changes nothing out of range |
| `Text.DecimalInjective` | internal/audit/log.go:228-229 | %d tells all integers apart |
| `Text.JoinUnique` | internal/audit/log.go:228-239 | no other list of at least as many fields joins to the text of one-line fields |
| `Text.JoinShift` | internal/audit/log.go:228-239 | moving text across a separator keeps the joined text |
| `Audit.ComputeHash` | internal/audit/log.go:225-241 | the hash has 71 characters on one line |
| `Audit.CanonicalLayout` | internal/audit/log.go:228-239 | the hash input is the ten fields in their order, newline separated, PrevHash last |
| `Audit.NeverGenesis` | internal/audit/log.go:225-241 | no computed hash is the genesis string |
| `Audit.NewlineMakesTwins` | internal/audit/log.go:225-241 | an event with a newline in a hashed string shares its hash input with a different event, of the same link unless the newline is in the link |
| `Audit.UnambiguousIffPlain` | internal/audit/log.go:225-241 | the hash input belongs to one event's fields if and only if every hashed string is on one line |
| `Audit.SeparableInjective` | internal/audit/log.go:225-241 | between events whose fields other than Result are on one line, the hash input determines every hashed field |
| `Audit.EndsPinned` | internal/audit/log.go:225-241 | the hash input fixes the sequence number and, between one-line links, the link, whatever the other fields hold |
| `Audit.VerifyEvents` | internal/audit/log.go:198-221 | accepts exactly the valid chains; a rejection carries the number of the first unsound event and says, with the values, whether it is a first event not linked to genesis, else one whose hash does not recompute, else one not linked to the event before |
| `Audit.PrefixValid` | internal/audit/log.go:198-221 | every prefix of an accepted list is accepted |
| `Audit.ChainExtends` | internal/audit/log.go:207-219 | one more event is accepted if and only if it links to the last hash and carries its own hash |
| `Audit.WalkBack` | internal/audit/log.go:198-241 | equal hashes inside two chains are at equal positions, with equal hashes before them |
| `Audit.FinalHashFixesHistory` | internal/audit/log.go:198-241 | accepted logs with the same last hash and no collision have equal length and equal hash inputs, numbers, links and hashes; they agree on the hashed fields of each event whose fields other than Result are on one line in both |
| `Audit.OtherHistoryNeedsCollision` | internal/audit/log.go:198-241 | a different accepted history with the same last hash exhibits a digest collision, or differs in an event with a newline in a hashed field, in one of the two logs in a field other than Result |
| `Audit.FinalHashFixesPlainHistory` | internal/audit/log.go:198-241 | against a log of any content, the last hash fixes the history of a log whose hashed strings are all on one line |
| `Audit.TwinStandsIn` | internal/audit/log.go:198-241 | an event can be replaced in an accepted log by one with the same hash input, link and hash |
| `Audit.AlteredLog` | internal/audit/log.go:198-241 | an accepted log with a newline in a hashed string can have that event altered to another accepted log with the same length, hash inputs and hashes |
| `Audit.LastHashDecidesIffPlain` | internal/audit/log.go:198-241 | short of a collision, the last hash of an accepted log fixes its history if and only if every hashed string in it is on one line |
| `Logger.Stamp` | internal/audit/log.go:105-108 | seq, ts, prev_hash and hash are the logger's; the rest is the caller's |
| `Logger.StampExtends` | internal/audit/log.go:101-125 | an append at the file's end keeps a valid chain numbered from 0 and stays at its end |
| `Logger.NumberingIsNotVerified` | internal/audit/log.go:198-221 | verification accepts any number on an event; only the file's length keeps the numbering |
| `Logger.Logger.constructor` | internal/audit/log.go:74-96 | opening takes seq and hash from the last event of the file |
| `Logger.Logger.Log` | internal/audit/log.go:101-125 | file and memory after success, failed write and failed sync; the log stays well kept unless the sync failed |
| `Logger.Logger.Allow` | internal/audit/log.go:128-139 | appends an allow event with the given result |
| `Logger.Logger.Deny` | internal/audit/log.go:142-154 | appends a deny event with the reason and result "failure" |
| `Logger.LoggerPosition` | internal/audit/log.go:74-125 | in every run the open logger is at the file's end or, past a failed sync, where the last line was written from |
| `Logger.AppendAt` | internal/audit/log.go:101-125 | an append from the file's end keeps chain and numbering; from behind it breaks the numbering, and keeps the chain if and only if the last line is linked to its own hash |
| `Logger.AppendFrom` | internal/audit/log.go:101-125 | so at every point of every run of sessions |
| `Logger.SessionsKeepTheLog` | internal/audit/log.go:74-125 | over every run with any faults, the file verifies and has seq 0..n-1 if and only if no logger appended past its own failed sync without reopening |
| `Logger.ChainOverRuns` | internal/audit/log.go:74-125 | over every run, verification accepts the file if and only if every such append came after a line linked to its own hash |
| `Logger.LoggingPastFailedSync` | internal/audit/log.go:115-123 | where no stored line is linked to its own hash, verification accepts the file if and only if there was no such append |
| `Logger.AppendAllKeeps` | internal/audit/log.go:101-125 | through any appends of a logger that starts at the file's end, the log stays well kept if and only if none puts a line past one whose sync failed |
| `Logger.AppendAllVerifies` | internal/audit/log.go:101-125 | so for verification alone, where no line that was put there is linked to its own hash |
| `Posture.NextMoves` | internal/posture/machine.go:77-83 | a request changes the state if and only if it is permitted, and stays within the six states |
| `Posture.PermittedByState` | internal/posture/machine.go:77-83 | exactly the permitted requests of each state and where they lead; GAME in GAME leads to NORMAL |
| `Posture.OverridesByVerdict` | internal/posture/machine.go:52-74 | for each verdict, exactly the capabilities and postures that get it |
| `Posture.Machine.New` | internal/posture/machine.go:101-118 | no machine if and only if the file does not parse; otherwise the stored posture, NORMAL without a file or with an unknown state |
| `Posture.Machine.Transition` | internal/posture/machine.go:129-154 | state, file, returned old state and which error for every request and every way the write can go |
| `Posture.Machine.Verdict` | internal/posture/machine.go:157-169 | which capabilities the current posture forces off, forces on, pins, or keeps to the game domain |
| `Posture.StepKeepsClose` | internal/posture/machine.go:101-154 | the file stays at most one permitted move ahead of memory, and every step, restarts included, is a permitted move or none |
| `Posture.RunsMakePermittedMoves` | internal/posture/machine.go:101-154 | so on every run with any failed writes; EXITED is never left, restarts included |
| `Posture.IncidentOnlyThroughNormal` | internal/posture/machine.go:77-83 | no run gets from SIEGE, MERCY or GAME to INCIDENT without NORMAL in between |
| `Posture.StepReload` | internal/posture/machine.go:147-152 | what each step does to what a reload finds |
| `Posture.RestartsOverRuns` | internal/posture/machine.go:101-154 | at every point of every run a restart fails if and only if the last write that changed the file spoilt it, and reloads the posture in memory if and only if that write neither spoilt the file nor failed after writing it with no restart since |
| `PostureAda.GuardedState.Set` | ada/posture/posture-machine.adb:75-101 | old state, success and new state are those of the Go machine |
| `PostureAda.Agrees` | ada/posture/posture-machine.adb:23-34 | the Ada table and toggle permit what the Go table permits |
| `PostureAda.PortsAgree` | ada/posture/posture-machine.adb:75-101 | for every sequence of requested strings both give the same answers; Go refuses others without moving |
| `PostureAda.VerdictsAgree` | ada/posture/posture-machine.adb:44-61 | equal verdicts on every shared capability in every state |
| `Policy.AdminHoldsAll` | internal/policy/rbac.go:41-72 | Admin holds what any role holds, and exactly six capabilities are Admin's alone |
| `Policy.RolesByCapability` | internal/policy/rbac.go:41-81 | exactly what Operator and Auditor hold; they share nothing, and an unknown role holds nothing |
| `Policy.PermitsInWords` | internal/verb/dispatch.go:83-113 | permitted if and only if the verb is known, the role has its capability, and it is none of: network in SIEGE, INCIDENT or GAME; execution in MERCY or INCIDENT; starting domains in SIEGE, MERCY or INCIDENT; either of the last two in GAME outside the game domain |
| `Policy.PostureReasonInjective` | internal/verb/dispatch.go:94-105 | with one verdict, reason codes tell postures apart |
| `Policy.ExitedDecidesLikeNormal` | internal/verb/dispatch.go:74-132 | in EXITED a dispatch is decided by the role alone, as in NORMAL |
| `CallTree.ResultTextReadsBack` | internal/verb/dispatch.go:115-130 | a closing result tells its outcome and is never "pending" |
| `CallTree.ReadEmittedAll` | internal/verb/dispatch.go:74-131 | reading what a forest wrote adds exactly that forest |
| `CallTree.ReadAllRebuilds` | internal/verb/dispatch.go:74-131 | what was read can be rebuilt from the trees read so far |
| `CallTree.ParseInvertsEmit` | internal/verb/dispatch.go:74-131 | a log parses to a forest if and only if that forest writes it: well-bracketed, with verbs, objects and outcomes; a closing event may carry other metadata than its pending one |
| `Dispatcher.Dispatcher.constructor` | internal/verb/dispatch.go:56-62 | a dispatcher with no verbs |
| `Dispatcher.Dispatcher.Register` | internal/verb/dispatch.go:65-67 | one verb's capability is set, the others stay |
| `Dispatcher.ReasonInWords` | internal/verb/dispatch.go:76-107 | the reason code of every denial, word by word |
| `Dispatcher.Dispatcher.Judge` | internal/verb/dispatch.go:75-113 | no denial if and only if verb, role, posture and object permit, in the words of the tables; otherwise the literal reason code |
| `Dispatcher.EffectInWords` | internal/verb/dispatch.go:74-132 | the attempted events field by field, the posture and the error of a denied, an unannounced and a run dispatch |
| `Dispatcher.BodyInOrder` | internal/verb/dispatch.go:121-122 | a handler's actions take effect one after the other, each in the posture that the one before left |
| `Dispatcher.BodyOfOne` | internal/verb/dispatch.go:121-122 | what a single action of a handler does |
| `Dispatcher.KeptEffect` | internal/verb/dispatch.go:74-132 | where every attempted append is kept, trees in the log, posture and error are those of the call tree |
| `Dispatcher.TracedIsStored` | internal/verb/dispatch.go:74-132 | a dispatch that leaves the log well bracketed stores exactly the forest of the dispatches whose first event was not lost |
| `Dispatcher.SurplusOfEffect` | internal/verb/dispatch.go:74-132 | the log never shows more runs closed than opened, and shows none left open if and only if no closing event was lost and no pending event failed in its sync |
| `Dispatcher.WholeTreeKept` | internal/verb/dispatch.go:74-132 | a dispatch that leaves its whole call tree in the log lost nothing, at any depth |
| `Dispatcher.ParsesIffBracketed` | internal/verb/dispatch.go:74-132 | with any failing appends, the stored events parse if and only if no closing event was lost and no pending event failed in its sync; then to the forest of traced dispatches |
| `Dispatcher.ParsesIffKept` | internal/verb/dispatch.go:74-132 | they parse to the whole call tree if and only if, besides, no attempted first event was lost |
| `Dispatcher.DispatchOnLog` | internal/verb/dispatch.go:74-132 | from any state of the log: what is new parses to the call tree if and only if every attempt was kept, and a well-kept log stays so if and only if no line went past a failed sync |
| `Dispatcher.RecordBeforeAction` | internal/verb/dispatch.go:115-130 | at any depth and whatever appends fail, the j-th closing event of a request comes after j stored pending events of it, each of which gets its closing event, and no posture moves without one |
| `Dispatcher.Dispatcher.Execute` | internal/verb/dispatch.go:115-131 | pending, the handler's own calls, and the outcome, in this order, however their appends go; nothing more when the pending event cannot be appended |
| `Dispatcher.Dispatcher.Dispatch` | internal/verb/dispatch.go:74-132 | with any failing appends and from any state of the log, attempts, posture and error are exactly specified; a run dispatch returns its handler's error, and none if and only if that ended well; the new events parse back to the call tree if and only if every attempt was kept; the log stays well kept if and only if no line went past a failed sync |
| `Dispatcher.Dispatcher.RunBody` | internal/verb/dispatch.go:121-122 | what handlers that dispatch and move the posture append and leave |
| `Concurrent.StepAccounts` | internal/verb/dispatch.go:74-132 | every atomic step, with any fault, keeps the exact account of every dispatch |
| `Concurrent.RunsAccount` | internal/verb/dispatch.go:74-132 | in every interleaving, with any faults, the log holds of each dispatch exactly what it should have written, less the event whose own write failed; a handler runs only after a pending event that was appended without a fault |
| `Concurrent.WholeRecords` | internal/verb/dispatch.go:74-132 | where no append fails, a finished dispatch has written its denial, or its pending and closing events, and nothing else |
| `Concurrent.RunIsOneSession` | internal/verb/dispatch.go:74-132 | the log of every interleaving, on any log, is that of one logger making the same appends one after the other |
| `Concurrent.RunsKeepChain` | internal/verb/dispatch.go:74-132 | in every interleaving with any faults the log is a valid chain numbered from 0 if and only if it was one at the start and no line was put past one whose sync failed |
| `Concurrent.RunsVerify` | internal/verb/dispatch.go:74-132 | the same of verification alone, where no line that the run stored is linked to its own hash |
| `Concurrent.HandlerHasRecord` | internal/verb/dispatch.go:115-122 | whatever faults there were, a running handler has its own pending event, already in the log |
| `Concurrent.ThreadIsSpawned` | internal/verb/dispatch.go:74-74 | every thread has the request and role with which its caller started it |
| `Concurrent.OutcomeIsReturned` | internal/verb/dispatch.go:121-130 | every recorded outcome is the one with which the handler ended while running |
| `Concurrent.PostureOfRun` | internal/posture/machine.go:129-154 | the posture of a run is what the requests to move lead to from the one at the start; no dispatch moves it |
| `Concurrent.StepsGetOn` | internal/verb/dispatch.go:74-132 | every step of a dispatch brings it nearer to its end, a running handler only its return, and no other step moves it |
| `Concurrent.DecisionsAreJustified` | internal/verb/dispatch.go:83-113 | accepted dispatches were permitted, denied ones were not, by the request and role of their caller, at an instant after they were started |
| `Concurrent.StandingPermission` | internal/verb/dispatch.go:83-122 | an accepted dispatch keeps its role permission, and is permitted now if and only if the posture of now lets it through |
| `Concurrent.NoPostureRescues` | internal/verb/dispatch.go:75-113 | in every run, whatever the postures, a dispatch started for an unknown verb or by a role without the capability gets no verdict, never runs, and is denied as "verb.unknown" or "rbac.<capability>.missing" |
| `Concurrent.JudgedEarlier` | internal/verb/dispatch.go:90-92 | a verdict is that of the posture at an instant at which the thread was in Begin |
| `Concurrent.DenialJoinsTwoReadings` | internal/verb/dispatch.go:90-107 | a posture denial takes its verdict at one instant of the thread and its name at a later one; the name is that of the denying posture if and only if the posture was the same at both |
| `Concurrent.ReasonCanMisname` | internal/verb/dispatch.go:90-107 | both cases are reachable: with a request to move between the readings the name is right if and only if the move is not permitted |
| `Concurrent.HandlerCanOutlivePermission` | internal/verb/dispatch.go:90-122 | both cases are reachable: a handler can run in the posture that any request leads to, permitted if and only if that posture permits it |
| `Concurrent.PosturesDisagree` | internal/posture/machine.go:52-57 | SIEGE denies a network verb that NORMAL permits, and each leads to the other |
| `PostureSet.StepInWords` | cmd/emilyos/main.go:123-146 | what one command does to posture file and log, field by field |
| `PostureSet.SetPosture` | cmd/emilyos/main.go:116-146 | posture file and log after the command, for every caller, target, write outcome and log fault; exactly one event for an admin, field by field: an allow with the move if it was permitted and written, else a deny with the reason; nothing for others |
| `PostureSet.RecordedHistory` | cmd/emilyos/main.go:138-145 | an append keeps the log valid and truthful, and replays to the moved state |
| `PostureSet.InSyncUnlessMoveLost` | cmd/emilyos/main.go:137-145 | a command keeps log and posture in step if and only if it does not move the stored posture without an allow event, by losing the event or by a posture write that fails after writing |
| `PostureSet.ReplayGivesStoredPosture` | cmd/emilyos/main.go:123-146 | at every point of a run the log verifies, each "from" is the state before, and replaying gives the stored posture unless its file is spoilt, if and only if no command moves the stored posture without an allow event |
| `PostureSet.History` | cmd/emilyos/main.go:488-510 | the last n of the rows in log order, or all of them |
| `PostureSet.RowsInWords` | cmd/emilyos/main.go:488-503 | each posture.set event adds one row at the end, with its number, time, actor and states; no other event does |
| `PostureSet.HistoryJoinsUp` | cmd/emilyos/main.go:489-502 | successive moves' rows join up, "to" with "from", except exactly after leaving GAME by asking for GAME |
| `SnapshotHash.ComputeSnapshotHash` | internal/policy/snapshot.go:108-125 | "sha256:" and the digest of the hash input |
| `SnapshotHash.HashInputLayout` | internal/policy/snapshot.go:108-125 | the hash input is id, time, actor, build and commit, each with a newline after it, then predecessor, roles, capabilities and posture policy with nothing between |
| `SnapshotHash.HashCovers` | internal/policy/snapshot.go:108-125 | with the first five fields on one line and no collision, hashes are equal if and only if these fields and the remaining text are |
| `SnapshotHash.HeadFixedIffOneLine` | internal/policy/snapshot.go:108-125 | against any snapshot, the hash input fixes the first five fields and the remaining text if and only if all are on one line |
| `SnapshotHash.RecutTwin` | internal/policy/snapshot.go:108-125 | any nonempty remaining text can be cut into other texts with the same hash input |
| `SnapshotHash.PoliciesFixedIffEmpty` | internal/policy/snapshot.go:108-125 | as mere texts the last four are fixed by the hash input if and only if they are empty |
| `JsonTexts.LevelText` | internal/policy/snapshot.go:118-123 | a JSON text closes all brackets and quotes that it opens, and none before |
| `JsonTexts.MapTextsSuffixFree` | internal/policy/snapshot.go:118-123 | no marshalled map ends with the text of another |
| `SnapshotHash.PoliciesFixed` | internal/policy/snapshot.go:117-123 | predecessor and marshalled maps are determined by their concatenation |
| `SnapshotHash.HashCoversAll` | internal/policy/snapshot.go:108-125 | with marshalled maps, the first five fields on one line and no collision, hashes are equal if and only if the snapshots are |
| `Snapshots.FormatOrder` | internal/policy/snapshot.go:98-100 | the formatted timestamps sort chronologically |
| `Snapshots.IdOrder` | internal/policy/snapshot.go:98-100 | generated ids sort chronologically and tell times apart |
| `Snapshots.SnapshotStore.Write` | internal/policy/snapshot.go:47-58 | stored under its id with a hash that recomputes over what `SnapshotHash.HashInputLayout` names, and read back; the directory after each way of failing |
| `Snapshots.SnapshotStore.JsonNames` | internal/policy/snapshot.go:83-88 | exactly the names of `.json` files |
| `Snapshots.SortStrings` | internal/policy/snapshot.go:92-92 | ascending, and a permutation |
| `Snapshots.GreatestExists` | internal/policy/snapshot.go:92-93 | as soon as there is a `.json` name there is a greatest one |
| `Snapshots.SnapshotStore.Latest` | internal/policy/snapshot.go:78-95 | the snapshot under the greatest `.json` name, which exists if any does; none if and only if there is none |
| `Snapshots.GreatestIsNewest` | internal/policy/snapshot.go:78-95 | for any set of generated ids the greatest name is that of the latest time |
| `Snapshots.LatestIsNewest` | internal/policy/snapshot.go:78-95 | for any set of generated ids Latest gives the snapshot of the greatest time |
| `Snapshots.SnapshotStore.Capture` | cmd/emilyos/main.go:551-568 | stores a snapshot that points at the latest one, or at nothing if there is none or it is spoilt; what is left for each way that storing fails |
| `Snapshots.ChainedPrev` | cmd/emilyos/main.go:553-556 | in a chained store a capture points at the last of the chain |
| `Snapshots.ChainedOneMore` | cmd/emilyos/main.go:553-566 | a later capture extends the chain |
| `Snapshots.CaptureChainsIffLater` | cmd/emilyos/main.go:553-566 | a capture leaves a chain if and only if its id sorts after the latest one's |
| `Snapshots.PrevIsLast` | cmd/emilyos/main.go:553-556 | where something is stored, a capture points at the greatest id, or at nothing if that one is spoilt |
| `Snapshots.AttemptAfterChain` | cmd/emilyos/main.go:553-566 | what an attempt leaves of a chain: a longer one if whole and later; otherwise one entry that is no chain, or a tangle |
| `Snapshots.AttemptAfterAlone` | cmd/emilyos/main.go:553-566 | a lone spoilt snapshot is repaired by a whole capture in its own second and by no other single attempt; one that points at itself by none |
| `Snapshots.TangledStays` | cmd/emilyos/main.go:553-566 | no later attempt repairs a store with a spoilt or backward snapshot beside another, or with a second snapshot that points at nothing |
| `Snapshots.CapturesLeave` | cmd/emilyos/main.go:551-569 | after any attempts the store is a chain of known seconds, one entry that is no chain, or a tangle, as the attempts determine |
| `Snapshots.CapturesChainIffStraight` | cmd/emilyos/main.go:551-569 | over every run of attempts the store is a chain if and only if those that stored anything were whole and in ever later seconds; before them there may be any captures in the second of the first, the last of them spoilt |
| `Snapshots.CapturesChainIffIncreasing` | cmd/emilyos/main.go:551-569 | where no file was spoilt, the store is a chain if and only if each stored capture was in a later second than the one before |
| `Snapshots.SpoiltForGood` | cmd/emilyos/main.go:551-569 | a spoilt snapshot after one of another second breaks the chain for good, whatever is captured later |
| `Snapshots.CaptureAll` | cmd/emilyos/main.go:551-569 | the loop of attempts into a new store leaves the specified store |
| `Snapshots.Follow` | cmd/emilyos/main.go:551-569 | following PrevSnapshotID visits every snapshot once, newest first |
| `Snapshots.FollowChain` | cmd/emilyos/main.go:551-569 | starting from Latest it reaches every stored snapshot and ends at the empty id |
| `Snapshots.CaptureAndFollow` | cmd/emilyos/main.go:551-569 | stored captures in ever later seconds, then the walk from Latest: every one of them once, newest first |

## Left out

- JSON beyond the shape of its compact texts, SHA-256, tar, gzip: library code; events and digests are abstract.
- Descriptors opened for writing, `write`, and files that change while they are open: not modelled.
- `lseek` on pipes and terminals: the unbuffered peek is modelled for seekable files, as the source says.
- Wrap-around of `size_t` sizes and of `int64` sequence numbers: numbers are unbounded, except in `Vec.Vec.Len`.
- Several processes appending to one audit file, and a failed write that leaves half a line: outside what the code keeps.
- Concurrent registration of verbs: `Register` is not synchronised in the source, so verbs are fixed during a concurrent run.
- One metadata map shared by concurrent dispatches: unsynchronised in the source; in `Concurrent` each dispatch has its own.
- Snapshots.IdOrder: years of at most four digits; beyond them the format is wider and names no longer sort by time.
- Snapshots.SortStrings: works on a sequence value, not in place; only the sorted result is used.
- Snapshot rollback, audit export, bundle and tail, environment lookup and printing in `cmd/emilyos/main.go`: plumbing around the modelled operations. `fs grant` and `fs revoke` record their snapshot as `snapshot capture` does.
- The file ACL verbs in `internal/fsacl` and `internal/fsaclmod`: subprocess calls.
- `arena_alloc`: allocation gives a fresh block; only the requested bytes are counted.
- `raw_open_impl`, `raw_write_impl`, `raw_read_f64_impl`, `string_concat`, `vec_box_*`, Result and Option helpers: thin wrappers.
