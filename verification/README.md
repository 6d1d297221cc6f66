# port-manager: a verified model

port-manager is a dashboard that lists the TCP listeners of one user, labels
them, kills them and restarts what it killed. This project models the parts of
it whose correctness is hard to see by reading and proves what they promise.
`dafny verify dfyconfig.toml` checks all of it.

| module | what it models |
|---|---|
| `Sequences`, `Listeners` | searching, counting, splitting, joining and sorting, and what a scan reports; shared by the others |
| `Retention`, `LabelKeys`, `ByteBits`, `Ulid`, `Store` | the state file: labels and remembered listeners, three stages of eviction, label keys, identifiers |
| `AtomicFile`, `Recovery` | replacing a file by way of a temporary, with crashes at every step, and what the store then opens |
| `RateLimiter`, `LoginFlow` | the sliding-window login limiter and the login route that drives it |
| `KillProtocol`, `Restart` | scan, inspect, re-scan, SIGTERM, delayed SIGKILL, remember, restart |
| `ViewModels` | building the dashboard rows in parallel |
| `Addresses`, `Lsof` | decimal numbers, host:port text, and the lsof line parser |
| `Procargs` | reading an environment out of a kernel argument buffer |
| `EnvFile`, `ConfigLoad` | rewriting `.env` in place, and the secrets part of loading the configuration |
| `Cookies` | redacting the session cookie in a logged header |

## How the model is made

Code that updates state is a class or a method with the same fields, loops and
branches, proved against a specification function or predicate; the properties
are then proved of that specification. Code that runs concurrently is a machine
of atomic steps (a critical section, a system call, a channel operation), and
its properties hold in every reachable state of every interleaving.
`KillProtocol.Dashboard`, `LoginFlow.Login` and `AtomicFile.Writer` are the
sequential code, each statement a step of the corresponding machine.

What the code takes from outside is a parameter: the clock, random bytes, the
outcome of each file operation, scans and inspections, the SHA-256 digest
behind label keys, JSON encoding (`Store.Codec`, with decoding undoing encoding
and the empty document fitting in 262144 bytes), and the value syntax of the
`.env` reader. Go's map iteration order is an arbitrary choice, so every result
holds for each order.

## Where the code and its documentation differ

- `internal/auth/auth.go:30-33` and `:155-160` say that making room evicts an
  address without live failures and never resets a live attacker. The code
  evicts the address whose newest failure is least recent;
  every address it evicts still has a live failure, because the sweep has just
  removed the others. Live counters are safe exactly under the condition of
  `RateLimiter.RecordingSparesOthers`, and `RateLimiter.EvictionLiftsLockout`
  is a run that lifts a lockout. In every run the limiter decides as if it
  counted the failures since the last success or eviction of the address
  (`RateLimiter.CheckMatchesRecord`).
- Five failures per window is the advertised capacity. Check and record are
  separate critical sections, so with `n` overlapping requests of an address
  4 + n failures are possible. Counted since the last success or eviction, five
  is the bound if and only if they never overlap (`LoginFlow.FiveExactlyWhenSerial`);
  counted since the last success alone, that holds of addresses that are never
  evicted (`LoginFlow.FiveUnlessEvicted`).
- `Retry-After` is rounded down, so a client that waits exactly as told may be
  refused once more: exactly when the fifth newest failure is still live by then
  (`RateLimiter.RetryAsTold`). With five live failures that means that the wait
  was over a second and not whole (`RateLimiter.RetryAsToldAfterFive`, and the run
  `RateLimiter.RefusedAgain`). Overlapping requests can leave more than five, and
  then a whole wait can be too short as well, because it is counted from the
  oldest (`RateLimiter.RefusedAgainAfterSix`).
- The store's file writer does not fsync the directory: a write that succeeded
  can be undone by a crash (`AtomicFile.WithoutDirSyncAWriteCanBeLost`; exactly
  when, says `AtomicFile.SafeExactlyWhenForcedOut`). The configuration's writer
  promises durability when it returns nil, but `internal/config/config.go:357-363`
  ignores a directory that cannot be opened or synced. After success nothing can be
  lost if and only if that fsync succeeded or everything since the last one that
  did has the same content (`AtomicFile.Writer.AtomicWriteFile`).
- The comment before `internal/server/mutation_handlers.go:32` speaks of
  remembering and then dispatching the kill; the code remembers after it.
- Restart promises to replay the environment verbatim. A listener whose
  environment could not be read, or was empty, restarts with the dashboard's
  own (`Restart.KillThenRestart` has the exact condition,
  `Restart.EmptyEnvironmentNotReplayed` a run).
- The argument-buffer layout allows an empty first argument; the parser takes it
  for padding and loses one environment entry for each leading empty argument
  (`Procargs.LostEntries`, `Procargs.RoundTripExactly`,
  `Procargs.EmptyArgumentLosesEntry`).
- `internal/config/config.go:313` means to drop the empty line that splitting
  introduces. It stays: appending to a file that is empty or ends in a newline
  leaves a blank line before the new keys, and only then (`EnvFile.BlankLineBefore`,
  `EnvFile.BlankLineAppears`).

## Model

| member | source | states |
|---|---|---|
| Store.Store.Open | internal/store/store.go:95-140 | opening fails without a home or state directory and on an unreadable or unparsable file; otherwise it yields the decoded state, or the empty one when there is no file |
| Store.Store.EvictPerKey | internal/store/store.go:304-324 | the two loops leave exactly the entries with fewer than five later ones of the key, in order; other keys are untouched |
| Store.Store.EvictGlobal | internal/store/store.go:328-334 | the newest hundred stay |
| Store.Store.EvictOldestLabel | internal/store/store.go:338-354 | one label that none predates goes, whatever order the map is walked in; false only without labels |
| Store.Store.EvictOne | internal/store/store.go:371-379 | one eviction: the oldest remembered entry, or a label only when none is left; false only for the empty state |
| Store.Store.Persist | internal/store/store.go:362-380 | terminates; labels go only when no remembered entry is left, oldest first; each intermediate state was too big; what is written fits and is what memory holds; a failed write leaves the file alone |
| Store.Store.SetLabel | internal/store/store.go:173-191 | more than 64 characters change nothing; otherwise the label is set or cleared and persisted |
| Store.Fill | internal/store/store.go:200-212 | key, time and identifier are derived exactly when the caller left them out |
| Store.Store.Remember | internal/store/store.go:197-223 | a failing random source changes nothing; otherwise one append with both trims, then persist |
| Store.Store.DeleteRemembered | internal/store/store.go:272-289 | entries with the id go, the rest keep their order; an unknown id neither changes nor writes anything |
| Store.LabelReadsLastSet | internal/store/store.go:156-191 | in every run from an empty store a reader gets the text last set for the key or none, never an older one; and exactly that text if no edit outgrew the limit |
| Store.Store.FindRemembered | internal/store/store.go:258-268 | the first entry with the id |
| Retention.RetainedStep | internal/store/store.go:304-324 | trimming the unbounded history per key commutes with appending |
| Retention.AppendExact | internal/store/store.go:217-219 | cutting to a hundred before the next append loses nothing that one batch trim would keep |
| Retention.AppendKeepsCaps | internal/store/store.go:215-220 | both caps hold after an append and the new entry is last |
| Store.HistoryRefinement | internal/store/store.go:193-223 | in every run from an empty store without deletions the list is a suffix of the whole history trimmed per key |
| Store.HistoryExact | internal/store/store.go:193-223 | if size eviction never fires it is exactly the last hundred of that |
| Store.DeletionKeepsRefinement | internal/store/store.go:272-289 | a deletion keeps the list a suffix of the trimmed history if and only if no entry it keeps precedes one it removes |
| Store.RefinementWithDeletions | internal/store/store.go:193-289 | in a run from an empty store whose deletions do not outgrow the limit, every state is a suffix of its trimmed history if and only if every deletion is of that kind |
| Store.DeletionBreaksSuffix | internal/store/store.go:272-289 | a concrete run with a deletion that is not, and the suffix property fails |
| Store.CapsAndOrder | internal/store/store.go:193-289 | with deletions and from any start within the caps: both caps, and an ordered part of start and history |
| Store.NeverSizeExceeded | internal/store/store.go:50-54 | the defensive size error is unreachable |
| Store.LongestListKept | internal/store/store.go:371-374 | the kept list is the longest suffix that is not too big beside the labels, by an independent definition |
| Store.PersistDetermined | internal/store/store.go:336-380 | with distinct label times the state left is determined: that list, and then a set of newest labels that contains every other one that would fit |
| Store.ReopenSeesLastWritten | internal/store/store.go:362-372 | after any run, failed writes included, reopening reads the state after the last event that wrote, or the one the run started from; what was written is at most 262144 bytes |
| Store.RememberFresh | internal/store/store.go:193-223 | after success the new entry is last or the list is empty, and then even that entry alone was too big beside the labels |
| Store.LabelFresh | internal/store/store.go:168-191 | after success a strictly newest label is found, or the store is empty |
| LabelKeys.UnsplitPreimage | internal/store/store.go:142-154 | a splitter reads directory and arguments back from what is digested |
| LabelKeys.PreimageInjective | internal/store/store.go:142-154 | equal preimages mean equal inputs, except that no argument and one empty argument collide |
| Ulid.PackGroup | internal/store/store.go:434-441 | the masks, shifts and ors on five bytes give their eight 5-bit digits |
| Ulid.PackDigits | internal/store/store.go:431-457 | the 26 digits, unrolled byte by byte, have the value of the 16 bytes |
| Ulid.Pack | internal/store/store.go:431-457 | the 26 characters are the base-32 numeral of the 16 bytes |
| Ulid.NewUlid | internal/store/store.go:417-430 | the numeral of the 48-bit millisecond followed by ten random bytes |
| Ulid.UnpackUndoesPack | internal/store/store.go:431-457 | a decoder recovers all 128 bits |
| Ulid.FirstCharacter | internal/store/store.go:432-432 | the first character is at most '7' |
| Ulid.PackOrder | internal/store/store.go:413-416 | text order is byte order, and equal texts mean equal bytes |
| Ulid.TimeOrder | internal/store/store.go:413-416 | a smaller millisecond gives a smaller identifier |
| AtomicFile.StepKeepsInv | internal/store/store.go:385-411 | every file step, write-back, journal flush and crash keeps the invariant |
| AtomicFile.CrashConsistency | internal/store/store.go:382-411 | over any sequence of writes, failures and crashes, with a stale temporary, a crash leaves one complete version that was asked for, no older than the last forced out |
| AtomicFile.ReadsLatest | internal/store/store.go:407-410 | without a crash the file reads as the last committed content |
| AtomicFile.NeverWritesTarget | internal/store/store.go:386-387 | the inode being written is never the one the file names, now or after a crash |
| AtomicFile.SyncedVersionSurvives | internal/config/config.go:355-363 | after the directory fsync that content or a newer one survives every later crash |
| AtomicFile.SafeExactlyWhenForcedOut | internal/store/store.go:407-410 | a crash loses nothing if and only if every content since the last one forced out equals the current one |
| AtomicFile.WithoutDirSyncAWriteCanBeLost | internal/store/store.go:407-410 | after a write without directory fsync some crash brings the previous content back |
| AtomicFile.Writer.WriteAtomic | internal/store/store.go:385-411 | success replaces the content, any failure leaves it; and when exactly the new content is safe from crashes |
| AtomicFile.Writer.AtomicWriteFile | internal/config/config.go:326-364 | the same replacement; after success a crash can lose nothing if and only if the directory fsync succeeded or nothing since the last one that did differs |
| Recovery.ReopenAfterCrash | internal/store/store.go:382-411 | wherever a crash strikes, opening succeeds with the state of one of the writes from the last one forced out on; of the last write, if that was forced out |
| RateLimiter.Limiter.KeepLive | internal/auth/auth.go:184-190 | keeps exactly the failures inside the window |
| RateLimiter.Limiter.Prune | internal/auth/auth.go:179-197 | the address keeps its live failures, or leaves the table |
| RateLimiter.Limiter.SweepExpired | internal/auth/auth.go:202-209 | exactly the addresses whose newest failure is live stay, for any walk |
| RateLimiter.Limiter.EvictOldest | internal/auth/auth.go:214-235 | one address with the least recent newest failure goes |
| RateLimiter.Limiter.RateLimitCheck | internal/auth/auth.go:131-145 | the decision and wait for the live failures; only the address itself is pruned |
| RateLimiter.Limiter.RateLimitRecordFailure | internal/auth/auth.go:149-167 | prune, make room by sweep and then eviction, append |
| RateLimiter.Limiter.RateLimitRecordSuccess | internal/auth/auth.go:171-175 | the address is forgotten |
| RateLimiter.RunTracks | internal/auth/auth.go:127-235 | in every reachable state each list is the record since the last success or eviction without a head that has expired |
| RateLimiter.ReachableTablesOk | internal/auth/auth.go:30-34 | at most 10000 addresses, lists non-empty and sorted |
| RateLimiter.CheckMatchesRecord | internal/auth/auth.go:131-145 | in every run and for every address a check refuses exactly when five failures since the last success or eviction are in the window, and with that wait |
| RateLimiter.EvictionCutsLog | internal/auth/auth.go:211-235 | that record is the log since the last success without a head no later than the last eviction |
| RateLimiter.CheckMatchesLog | internal/auth/auth.go:131-145 | so unless an eviction of the address still matters a check decides as counting since the last success does |
| RateLimiter.RefusalIsJustified | internal/auth/auth.go:155-166 | eviction never makes the limiter refuse where the log would allow |
| RateLimiter.SweepIsInvisible | internal/auth/auth.go:199-209 | sweeping never changes a later answer |
| RateLimiter.RecordingSparesOthers | internal/auth/auth.go:155-166 | recording a failure leaves every other live counter alone if and only if the address is live already or fewer than 10000 others are |
| RateLimiter.EvictionLiftsLockout | internal/auth/auth.go:211-235 | a run in which an address with five live failures is refused before a newcomer is recorded and allowed after |
| RateLimiter.LockoutLasts | internal/auth/auth.go:127-145 | after a refusal every check before the fifth newest failure expires is refused, so every one before t + d, whatever failures follow, until a success or eviction |
| RateLimiter.RefusalBounds | internal/auth/auth.go:136-142 | the wait is positive, at most the window, and ends when the oldest live failure expires |
| RateLimiter.LockoutEnds | internal/auth/auth.go:127-145 | with no failure added, every check from then on is allowed, whatever else happens |
| RateLimiter.FirstAllowedInstant | internal/auth/auth.go:127-145 | in every run that adds none and clears none a check is refused exactly until the fifth newest failure expires |
| RateLimiter.AnnouncedInstant | internal/auth/auth.go:127-145 | with exactly five live failures, exactly before the announced t + d |
| RateLimiter.RetryAsTold | internal/server/middleware.go:267-272 | the header is within a second of the wait, and a check made after waiting as told is refused if and only if the fifth newest failure is still live by then |
| RateLimiter.RetryAsToldAfterFive | internal/server/middleware.go:267-272 | with exactly five live failures, if and only if the wait was over a second and not whole |
| RateLimiter.RefusedAgain | internal/server/middleware.go:267-272 | a run refused again for the rounding |
| RateLimiter.RefusedAgainAfterSix | internal/auth/auth.go:136-142 | a run with six live failures refused again after a whole wait |
| LoginFlow.WithRateLimit | internal/server/middleware.go:259-278 | refused requests get the rounded wait, others pass |
| LoginFlow.HandleLoginPost | internal/server/handlers.go:58-102 | the status, and which failure or success is recorded |
| LoginFlow.Login | internal/server/handlers.go:58-102 | an undisturbed request is one or two moves of the concurrent flow |
| LoginFlow.FlowBounded | internal/server/middleware.go:259-278 | in every reachable state failures since the last success or eviction in one window and undecided requests of an address together stay at most 4 + n |
| LoginFlow.LoginBound | internal/server/middleware.go:259-278 | with at most n overlapping requests no window holds more than 4 + n failures since the last success or eviction |
| LoginFlow.LoginBoundUnlessEvicted | internal/server/middleware.go:259-278 | the same since the last success alone, of an address that is never evicted |
| LoginFlow.BoundIsReached | internal/server/handlers.go:70-75 | for every n some flow without evictions reaches 4 + n |
| LoginFlow.FiveExactlyWhenSerial | internal/auth/auth.go:27-29 | five per window since the last success or eviction is the bound if and only if requests never overlap |
| LoginFlow.FiveUnlessEvicted | internal/auth/auth.go:27-29 | the same since the last success alone, over the addresses that are never evicted |
| KillProtocol.ResolvePidForPort | internal/server/mutation_handlers.go:221-232 | the first listener on the port, none, or a failed scan |
| KillProtocol.VerifyLive | internal/process/process.go:164-184 | confirmed exactly when the scan has the PID and it is not the dashboard's |
| KillProtocol.GraceMs | internal/process/process.go:105-108 | the configured grace period if it is positive, else three seconds; never shorter than configured, never zero |
| KillProtocol.StepKeepsInv | internal/process/process.go:137-199 | every step of every call keeps the invariant |
| KillProtocol.KillSafety | internal/process/process.go:127-199 | over all interleavings: who may be signalled, after which scan, SIGKILL after the grace period and once, remembering only after an error-free SIGTERM to the inspected process |
| KillProtocol.Dashboard.Kill | internal/process/process.go:137-159 | the result, the exact scans and signals, and the escalation that is started |
| KillProtocol.Dashboard.HandleKillMutation | internal/server/mutation_handlers.go:54-110 | the status and the exact trace: inspect before kill, hand over after it, only on success and only to a store that is there; its answer is ignored |
| KillProtocol.Dashboard.Escalate | internal/process/process.go:189-199 | one SIGKILL to the same process if it is alive |
| Restart.Manager.Restart | internal/process/process.go:218-234 | spawns the stored command, directory and environment, or says why not |
| Restart.KillThenRestart | internal/server/mutation_handlers.go:73-107 | at any later time the id finds the entry or nothing; restarting it runs what was inspected before the kill if that had a command, with the same environment exactly when it was not empty or the dashboard's is |
| Restart.EmptyEnvironmentNotReplayed | internal/process/process.go:250-262 | a run that remembers a process with an empty environment and restarts it with the dashboard's |
| ViewModels.StepKeepsInv | internal/model/viewmodel.go:74-89 | every move of main and workers keeps the invariant of semaphore, group and slots |
| ViewModels.InspectionsBounded | internal/model/viewmodel.go:48-50 | at most eight inspections are in flight |
| ViewModels.NoDeadlock | internal/model/viewmodel.go:74-89 | some move is possible until the function returns |
| ViewModels.StepDecreases | internal/model/viewmodel.go:74-89 | every move decreases a measure |
| ViewModels.ParallelIsSequential | internal/model/viewmodel.go:77-98 | whatever the schedule, the kept slots are the rows of the plain loop in its order |
| ViewModels.EverySchedule | internal/model/viewmodel.go:62-101 | every schedule has at most 5n + 2 moves and, once stuck, has returned the sequential rows |
| ViewModels.BuildViewModels | internal/model/viewmodel.go:62-101 | the result is the sequential rows, sorted by port |
| ViewModels.ResultUnique | internal/model/viewmodel.go:99-100 | with distinct ports the result is determined |
| Addresses.AtoiItoa | internal/scanner/lsof.go:180-180 | parsing undoes printing on every 64-bit number |
| Addresses.SplitJoinHostPort | internal/scanner/lsof.go:203-229 | a joined address splits into the same host and port if and only if the host is neither "*" nor a bracketed name without a colon |
| Addresses.WildcardSplit | internal/scanner/lsof.go:220-222 | "*" reads as 0.0.0.0 |
| Lsof.TakeLine | internal/scanner/lsof.go:137-181 | one line moves the cursor or adds one address, as the line grammar says |
| Lsof.ParseLsofF | internal/scanner/lsof.go:130-196 | one record per process and port, strictly ordered by port and PID, whose sorted addresses are those of the qualifying lines |
| Lsof.ListedInRange | internal/scanner/lsof.go:153-167 | every port is in range and no process is the excluded one or zero |
| Lsof.ListingUnique | internal/scanner/lsof.go:184-195 | the listing is determined by the multiset of qualifying lines, so map order does not show |
| Lsof.ProtocolNeedsProcess | internal/scanner/lsof.go:145-155 | after an unreadable process line the protocol still in force makes no difference |
| Lsof.BlockOrderIrrelevant | internal/scanner/lsof.go:127-129 | permuting whole process blocks, between lines that open none and lines that name no node, does not change the listing |
| Lsof.PrintedBlocksPermute | internal/scanner/lsof.go:120-129 | in particular for newline-terminated output |
| Procargs.ParseProcargs | internal/inspector/envp_darwin.go:133-181 | the cursor loops stay in bounds, terminate and compute the specification |
| Procargs.RoundTrip | internal/inspector/envp_darwin.go:120-132 | parsing a printed buffer returns the environment, with any padding and any bytes after the terminator |
| Procargs.LostEntries | internal/inspector/envp_darwin.go:146-163 | the exact result for every printed buffer, whatever follows its terminator |
| Procargs.RoundTripExactly | internal/inspector/envp_darwin.go:146-163 | when exactly a printed buffer reads back, for every tail |
| Procargs.FirstArgumentDecides | internal/inspector/envp_darwin.go:146-163 | with at least as many entries as leading empty arguments: if and only if the first argument, if any, is not empty |
| Procargs.EmptyArgumentLosesEntry | internal/inspector/envp_darwin.go:146-163 | a buffer that does not |
| Procargs.TailTakenForEnvironment | internal/inspector/envp_darwin.go:149-151 | with neither arguments nor environment, bytes after the terminator are read as entries |
| Procargs.ParseSound | internal/inspector/envp_darwin.go:165-180 | for every buffer the entries are non-empty, NUL-free and consecutive in it |
| EnvFile.RewriteOne | internal/config/config.go:279-306 | one line, as the code reads and rewrites it, with its export prefix kept |
| EnvFile.RewriteLines | internal/config/config.go:278-306 | every line is rewritten in place and the keys met are exactly those assigned |
| EnvFile.PersistGenerated | internal/config/config.go:270-318 | the new content, for some order of the absent keys |
| EnvFile.ClassifyPrinted | internal/config/config.go:284-304 | a printed line reads back as the assignment it prints |
| EnvFile.OtherLinesKept | internal/config/config.go:264-266 | lines that assign no generated key keep their bytes and positions; every new line assigns one or is empty |
| EnvFile.GeneratedKeysWritten | internal/config/config.go:264-266 | every line assigning a generated key holds its value; an absent key gets exactly one line, a present one none |
| EnvFile.BothReadersSee | internal/config/config.go:258-261 | first-wins and last-wins readers both see the generated value |
| EnvFile.OtherKeysUnmoved | internal/config/config.go:264-266 | readers of any other key see what they saw before |
| EnvFile.RewriteSettles | internal/config/config.go:258-318 | rewriting what was rewritten is the identity |
| EnvFile.BlankLineBefore | internal/config/config.go:307-317 | the line before the first appended key is blank if and only if the file existed and was empty or ended in a newline |
| EnvFile.BlankLineAppears | internal/config/config.go:307-317 | the resulting text for a file of one other line |
| ConfigLoad.Loader.Load | internal/config/config.go:126-224 | look up, generate what is missing, validate, and only then persist and print |
| ConfigLoad.GeneratedArePlain | internal/config/config.go:250-256 | generated secrets are 64 hexadecimal characters, safe to print on a line |
| ConfigLoad.SecondLoadIsQuiet | internal/config/config.go:122-224 | a second load returns the same configuration and generates, writes and prints nothing; a failed one leaves everything as it was |
| Cookies.RedactCookieHeader | internal/server/middleware.go:162-175 | split, edit in place and join compute the specification |
| Cookies.OtherSegmentsKept | internal/server/middleware.go:152-175 | other segments keep their bytes and order; a session segment keeps only what precedes its value |
| Cookies.RevealsOnlyTheRest | internal/server/middleware.go:152-175 | two headers redact alike if and only if they differ at most in session values |
| Cookies.RedactSettles | internal/server/middleware.go:162-175 | redaction is idempotent |
| Sequences.JoinSplit | internal/server/middleware.go:166-174 | joining undoes splitting |
| Sequences.SplitJoin | internal/server/middleware.go:166-174 | splitting undoes joining separator-free parts |

## Left out

- The foreign calls behind scans, inspections and signals (libproc, sysctl, running lsof, spawning and reaping): their results are parameters.
- HTTP routing, templates, request logging, panic recovery, flags and the user interface: input and output without deep invariants.
- JSON, base64, SHA-256, HMAC, session cookies and bearer comparison: library code and one-line checks; only the facts named above are used.
- Text is a sequence of Unicode characters; invalid UTF-8 and byte lengths of labels or tokens are not part of this model.
- Slices are values: in-place filtering that reuses a backing array, and the defensive copies the store makes, are not distinguished from fresh lists.
- Deadlines and scan budgets: a call succeeds or fails, and how long it takes is not part of this model.
- A store's runs stay within one process; opening the file again, after a run or after a crash, is `Store.ReopenSeesLastWritten` and `Recovery.ReopenAfterCrash`.
- Caps after opening a foreign state file: opening does not enforce them, so they are stated from a start that meets them.
- Listing remembered entries newest first, uptime formatting, port-range parsing, validation rules and label checks: they would only add easy members.
- Each file has a single writer at a time, as the store's lock and start-up ensure; two processes sharing one temporary are not part of this model.
- godotenv beyond the line grammar of the rewriter: quoting, expansion, multi-line values and `KEY: value` lines; which lines it accepts and how it reads a value are parameters.
- Whether a PID still names the same process after the grace period: the model claims only what the dashboard can see.
- Ulid.NewUlid: the shifts and truncations that cut the millisecond into bytes are divisions and remainders.
- RateLimiter.RetryAsTold: durations are whole nanoseconds, and the floating-point rounding of seconds is not modelled.
- Store.CapsAndOrder: with deletions the list is not always tied to the history trimmed per key (`Store.DeletionBreaksSuffix`); `Store.RefinementWithDeletions` says exactly when it is.
- Store.RefinementWithDeletions: a deletion that has to evict in order to fit is not covered; JSON only shrinks when entries go, but the encoder here is any function.
