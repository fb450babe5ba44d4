# A verified model of vaulthalla's protocol, storage and client cores

Vaulthalla is a self-hosted file vault: a C++ daemon, a command line client, and Python tools that guard its websocket
contract. This Dafny project models the parts of it that are hardest to get right and proves what they promise. `dafny
verify dfyconfig.toml` checks the whole project.

## What is modelled

- **Wire-protocol compatibility** (`Compat*.dfy`). The normalized websocket surface gets a meaning: which JSON
  requests a server accepts and which answers a client can read. The checker's loops are methods over a `Diff`, proved
  to record no break exactly when two surfaces are compatible. `CompatChanges` reads the same off place by place, as
  the list of breaking changes, and shows that additions always pass. Compatibility is then shown to be a simulation
  in opposite directions for requests and responses, through cyclic models. The side conditions are stated in
  `CompatSoundness`, for each side alone: what that side reads keeps its kind (`SurfaceKept`), and alternatives of a
  union differ in signature. Requests also need that every model they reach in the base is declared (`Closed`) and
  that no command starts to want the token (`TokensKept`). Only histories, where both sides matter, ask for all of it.
  `CompatLimits` shows what happens without these conditions.
- **Identities** (`SpinRegister.dfy`, `Identities.dfy`, `IdentityOutcomes.dfy`, `Seqlock.dfy`). The spinlock register
  under every interleaving; one publication of users and groups and what it makes of each object; readers of
  authorization views against publications, who never see a dropped user as authorized. Atomics are sequentially
  consistent.
- **Recovery store** (`Recovery*.dfy`). Captures, removals and sweeps as a transition system whose steps are single
  system calls or database statements, with crashes anywhere, and with callers that replace a file once its capture is
  committed. The safety theorem holds for runs in which no step poses one of three hazards: a commit that inserts a
  row while its caller is told that it failed, a commit past the sweep's age limit that inserts a row whose file a
  sweep has taken or is about to take, and writing a file under a name that a row still has or that another capture, a
  removal or a sweep may still unlink. `RecoveryExact` shows that each condition is exact: in every state that the
  invariant allows, the step can be followed, without any further hazard, by the loss of a committed row's file if and
  only if it poses the hazard. A caller who commits within the age limit never poses the second one (`ExposedIsLate`),
  and one who does not may lose the file to sweeps that run before the commit (`LateExactly`). `RecoveryLimits` shows
  that each hazard does come up at the end of a run without one. So the promise of the header comment, taken without
  these conditions, does not hold of the code. `RecoveryTidy` shows what is cleaned up.
- **Connection pool and transactions** (`PoolRuns.dfy`, `PoolLimits.dfy`, `Pool.dfy`, `Transactions.dfy`). The pool's
  critical sections under every interleaving, and the pool, its leases and the two transaction helpers as objects.
  What libpqxx and the server do is a script given as a parameter; so are the clock and whether a reconnect succeeds.
- **File transfer** (`Base64.dfy`, `Transfer.dfy`). The chunk codec, and the client's sides of `vh fs get` and
  `vh fs put`. The daemon's frames, the local disk and the socket are parameters.
- **Quoting** (`Quoting.dfy`, `ShellLine.dfy`, `ShellTokens.dfy`). Command lines for a POSIX shell, the line sent to
  the daemon, and the daemon's tokenizer.
- **MCP loop** (`Mcp.dfy`, `McpLines.dfy`). `vh mcp` under every interleaving of input lines, workers, cancellations
  and failed writes.
- **Codecs and reconciliation** (`Codecs.dfy`, `Cookie.dfy`, `BoardOptions.dfy`, `BoardPlans.dfy`). Durations, hours
  and sizes; cookie lookup; the option planner of the project board.

## Where code and documentation differ

The model follows the code.

- `Token.hpp` says that `-abc` stands for the flags a, b and c. The code drops the first letter (`BundleLosesFirst`).
- The daemon's tokenizer treats a single quote as a quote; the client does not quote arguments for it. It also cuts a
  root alias off the start of the line, even where it is only the beginning of a word. `ArrivesExactly` says exactly
  which words, flags and options arrive.
- The compatibility check is not transitive on responses: `StepsCompose` says exactly when two accepted steps make an
  accepted one. A history of refreshes is safe all the same (`HistoryServes`). The check does not see the whole
  meaning of member lists and of unions (`MemberListExact`, `UnionExact`).
- The counter of consecutive reconnect failures is 32 bits wide. After a multiple of 2^32 failures one more failure
  cuts the window to its shortest (`WrapRestarts`), and a thread can then try again inside the window of an earlier
  failure; `SpacedExactly` says between which failures that can happen.
- Planning a board's options again on the board the plan was applied to can change it again: `ReplanExactly` says
  when.
- `exec` remembers that an error poisons the session, but not for the second BEGIN, so that session can go back to the
  pool as healthy (`Trusted` in `Transactions.dfy`).
- `durationToString` prints durations that `parseDuration` refuses: negative ones, and those of ten digits or more in
  their largest unit (`DurationExact`).

## Model

| member | source | states |
|---|---|---|
| `CompatCheck.BySignature` | tools/contracts/protocol_compat.py:177-178 | the alternatives by signature: every signature of the list is found, with an alternative of the list |
| `CompatCheck.CompareEnums` | tools/contracts/protocol_compat.py:154-166 | records no new break exactly when no value is removed and a request is not newly restricted |
| `CompatCheck.CompareTypes` | tools/contracts/protocol_compat.py:141-148 | no new break exactly when a request loses no type and a response gains none |
| `CompatCheck.CompareFlat` | tools/contracts/protocol_compat.py:132-166 | no new break exactly when requiredness, types, references and enums are compatible on that side |
| `CompatCheck.CompareField` | tools/contracts/protocol_compat.py:132-189 | no new break exactly when the fields are compatible on that side, at every depth |
| `CompatCheck.CompareNested` | tools/contracts/protocol_compat.py:170-174 | no new break exactly when both or neither have the shape and it is compatible |
| `CompatCheck.CompareAlternatives` | tools/contracts/protocol_compat.py:176-183 | no new break exactly when every alternative is matched as its side needs |
| `CompatCheck.CompareNewAlternatives` | tools/contracts/protocol_compat.py:184-189 | no new break exactly when a response gains no alternative |
| `CompatCheck.CompareFields` | tools/contracts/protocol_compat.py:192-206 | no new break exactly when no member is lost, each kept one is compatible and no new one is required of requests |
| `CompatContexts.WalkField` | tools/contracts/protocol_compat.py:214-222 | adds exactly the models named in the field at any depth |
| `CompatContexts.WalkModels` | tools/contracts/protocol_compat.py:209-211 | adds exactly the models named in the fields |
| `CompatContexts.DirectModels` | tools/contracts/protocol_compat.py:227-238 | the models named by commands, variants, response models and the envelope on one side |
| `CompatContexts.SideContexts` | tools/contracts/protocol_compat.py:240-250 | the worklist stops on every model graph, cyclic ones too, with exactly the models reachable on that side |
| `CompatContexts.ModelContexts` | tools/contracts/protocol_compat.py:225-251 | a model is listed for a side exactly when it is reachable on it |
| `CompatSurface.CompareCommand` | tools/contracts/protocol_compat.py:265-277 | no new break exactly when input, payload, response, response model and variants are compatible |
| `CompatSurface.CompareCommands` | tools/contracts/protocol_compat.py:260-277 | no new break exactly when every command is kept and compatible |
| `CompatSurface.CompareModel` | tools/contracts/protocol_compat.py:286-291 | one model on the sides it is read on |
| `CompatSurface.CompareModels` | tools/contracts/protocol_compat.py:283-291 | no new break exactly when every model is compatible on its sides, or gone and no longer referenced |
| `CompatSurface.Compare` | tools/contracts/protocol_compat.py:258-306 | no break exactly when the surfaces are compatible |
| `CompatSurface.Baselines.Write` | tools/contracts/protocol_compat.py:393-410 | a baseline is replaced exactly when there was none or the change has no break; otherwise it stays and the exit status is 1 |
| `CompatChanges.BreaksExactly` | tools/contracts/protocol_compat.py:10-22 | a refresh is refused exactly when one of the listed breaking changes occurs at some place of the two surfaces |
| `CompatChanges.FieldExactly` | tools/contracts/protocol_compat.py:132-189 | two fields are compatible exactly when nothing is broken at any path they share |
| `CompatChanges.LastOfKind` | tools/contracts/protocol_compat.py:128-129 | alternatives are told apart by types, model and element type, and the last of a kind counts |
| `CompatChanges.AdditionsPass` | tools/contracts/protocol_compat.py:21-22 | a surface that only gains commands, variants, members (optional in requests), enumeration values at any depth, models, error codes and capabilities passes |
| `CompatSoundness.ValueRefines` | tools/contracts/protocol_compat.py:132-189 | a value of a field is a value of every field that simulates it, by induction on the value, through cyclic models |
| `CompatSoundness.FieldSimulates` | tools/contracts/protocol_compat.py:132-189 | compatible fields simulate each other in the direction of their side |
| `CompatSoundness.FieldsSimulate` | tools/contracts/protocol_compat.py:192-206 | the same for member lists |
| `CompatSoundness.AlternativesSimulate` | tools/contracts/protocol_compat.py:176-189 | the same for unions with distinct signatures |
| `CompatTheorems.ModelsSimulate` | tools/contracts/protocol_compat.py:283-291 | after a comparison without breaks every model read on a side is simulated on it, under that side's conditions alone |
| `CompatTheorems.RequestsStayValid` | tools/contracts/protocol_compat.py:258-296 | every request valid under the base, of any command or variant and with any nesting, is valid under the current surface, whatever the response side does |
| `CompatTheorems.AnswersStayReadable` | tools/contracts/protocol_compat.py:258-296 | every answer the current surface can send to a command of the base is readable under the base, whatever the request side does |
| `CompatTheorems.ErrorFramesStayReadable` | tools/contracts/protocol_compat.py:295-296 | the same for error frames |
| `CompatTheorems.RequestModelsStayReferenced` | tools/contracts/protocol_compat.py:283-291 | every model reachable on the base's request side is still referenced |
| `CompatTheorems.RefreshServes` | tools/contracts/protocol_compat.py:393-410 | one refresh keeps serving what was served, error frames included |
| `CompatTheorems.HistoryServes` | tools/contracts/protocol_compat.py:393-410 | over any chain of refreshes requests stay valid, answers and error frames stay readable, and commands, error codes and capabilities only grow |
| `CompatLimits.SurfaceUnchanged` | tools/contracts/protocol_compat.py:258-306 | every surface is compatible with itself |
| `CompatLimits.StepsCompose` | tools/contracts/protocol_compat.py:132-189 | two accepted steps of a field make an accepted one on requests, and on responses exactly when no enumeration at any depth was lifted and redrawn without a value it had |
| `CompatLimits.NotTransitive` | tools/contracts/protocol_compat.py:154-166 | three response fields, each step accepted and the whole refused |
| `CompatLimits.MemberListPasses` | tools/contracts/protocol_compat.py:192-206 | a plain request field may gain a member list exactly when all members are optional |
| `CompatLimits.MemberListExact` | tools/contracts/protocol_compat.py:168-169 | a change of a plain request field that passes keeps every request valid exactly when it adds no member list or the field never was an object or array |
| `CompatLimits.UnionPasses` | tools/contracts/protocol_compat.py:176-189 | a plain field may be split into any union on the accepting side |
| `CompatLimits.UnionExact` | tools/contracts/protocol_compat.py:176-189 | such a split into plain alternatives keeps every value exactly when the alternatives cover the field's types |
| `CompatLimits.SharedSignatureLimit` | tools/contracts/protocol_compat.py:177-178 | with two alternatives of one signature the check passes a change that refuses an old request |
| `CompatLimits.UndeclaredModelLimit` | tools/contracts/protocol_compat.py:285-291 | with an undeclared model the check passes a change that refuses an old request |
| `CompatLimits.TokenInputLimit` | tools/contracts/protocol_compat.py:265-266 | a command without input may start to need the token: no break, and an old request is refused |
| `SpinRegister.RunsLinearizable` | core/include/concurrency/AtomicSharedPtr.hpp:32-69 | under every interleaving at most one thread is in the critical section, and there is an order that respects real time in which every result is what the last store or exchange before it wrote, or the initial pointer |
| `SpinRegister.WrittenOnce` | core/include/concurrency/AtomicSharedPtr.hpp:32-49 | there is only one pointer that was written last |
| `SpinRegister.DropsOutsideTheLock` | core/include/concurrency/AtomicSharedPtr.hpp:37-43 | a store gives up the pointer it replaced, and only after it has unlocked |
| `SpinRegister.StoresDrop` | core/include/concurrency/AtomicSharedPtr.hpp:37-43 | a store that returns gives up one pointer, a load or exchange none |
| `Identities.PerformAdvances` | core/src/identities/Manager.cpp:260-306 | one write of a publication lowers no object's revision and keeps the index sound |
| `Identities.SettledAll` | core/src/identities/Manager.cpp:258-315 | later writes of the same publication do not undo an earlier one |
| `Identities.ApplyPublishes` | core/src/identities/Manager.cpp:250-316 | after a publication every record of the snapshot is indexed at its revision or newer, and what is gone from it is unindexed unless newer |
| `IdentityOutcomes.ApplyBuries` | core/src/identities/Manager.cpp:40-57 | what a publication drops, unless newer than the snapshot, ends deleted and not authorizing, a user inactive and in no group, and is unindexed |
| `IdentityOutcomes.ApplyPuts` | core/src/identities/Manager.cpp:258-300 | what it puts, unless older than what was published, ends in its record's state, a user in the groups that its memberships resolve to |
| `IdentityOutcomes.ResolveExactly` | core/src/identities/Manager.cpp:290-292 | those are the canonical objects of exactly the memberships that the final index of groups has, in order |
| `IdentityOutcomes.NewerStays` | core/src/identities/Manager.cpp:258-306 | what no write concerns, or is newer than all that do, stays as it is |
| `Seqlock.ViewsAreCoherent` | core/src/identities/User.cpp:130-149 | a view that the reader accepts holds the user's and groups' states of one finished publication, and later views never go back to an earlier one |
| `Seqlock.RevisionsOnlyGrow` | core/include/identities/Manager.hpp:24-27 | no object's revision ever decreases, over any run |
| `Seqlock.ViewExactly` | core/src/identities/User.cpp:139-145 | a view has the user's state, no groups if the user is deleted or inactive, and else exactly the groups that are not deleted, in order |
| `Seqlock.DroppedNeverAuthorizes` | core/src/identities/User.cpp:130-149 | once a publication has dropped a user, no view accepted after it authorizes that user's object |
| `Seqlock.DroppedGroupsLeave` | core/src/identities/User.cpp:141-144 | a dropped group is deleted in the version of every view accepted after it |
| `RecoverySafety.RunKeeps` | core/src/recovery/Store.cpp:145-372 | every run without a hazard keeps the invariant of files, rows, captures, removals and sweeps |
| `RecoverySafety.RunsKeepBytes` | core/include/recovery/Store.hpp:24-35 | at every point of such a run every committed row has its durable file with its bytes, a keyed generation has one row, every reference is intact, and every content that any path ever had is in place, or was captured by a commit that still refers to it or has been released |
| `RecoverySafety.UnlinksOrphansOnly` | core/src/recovery/Store.cpp:297-332 | a file that disappears other than in a crash is named by no row and is not one that another capture can still commit in time |
| `RecoverySafety.CommitKeeps` | core/src/recovery/Store.cpp:274-295 | committing an attached capture, however late, keeps the invariant if the file of a row it inserts is there, durable and not about to be swept |
| `RecoverySafety.ExposedIsLate` | core/src/recovery/Store.cpp:461-473 | within the age limit that file is there, durable and not about to be swept |
| `RecoverySafety.StageKeeps` | core/src/recovery/Store.cpp:170-217 | staging under a clear name keeps it |
| `RecoverySafety.DropKeeps` | core/src/recovery/Store.cpp:304-310 | dropping a redundant file keeps it |
| `RecoverySafety.UnlinkOriginKeeps` | core/src/recovery/Store.cpp:311-314 | unlinking the origin after the commit keeps it |
| `RecoverySafety.ReplaceKeeps` | core/include/recovery/Store.hpp:109-111 | replacing a captured file after the commit keeps it |
| `RecoverySafety.DoubtKeeps` | core/src/recovery/Store.cpp:274-295 | a commit in doubt that reuses a row keeps it |
| `RecoverySafety.AbortKeeps` | core/src/recovery/Store.cpp:321-332 | aborting keeps it |
| `RecoverySafety.DeleteRowKeeps` | core/src/db/query/recovery/Blob.cpp:85-90 | deleting an unreferenced row keeps it |
| `RecoverySafety.SweepKeeps` | core/src/recovery/Store.cpp:461-473 | a sweep's unlink keeps it |
| `RecoveryTidy.NoOrphans` | core/include/recovery/Store.hpp:31-34 | crashes apart, every file has a row, or a capture or a removal that will unlink it |
| `RecoveryTidy.QuietIsExact` | core/include/recovery/Store.hpp:31-33 | when nobody is at work any more the files are exactly those of the rows |
| `RecoveryTidy.SweepTakesOrphan` | core/src/recovery/Store.cpp:461-473 | a file without a row that is old enough is taken by a sweep, and no other |
| `RecoveryTidy.OriginsChange` | core/include/recovery/Store.hpp:31-33 | a path goes or changes only by a committed move's unlink or the caller's replacement after a commit; an abort leaves it |
| `RecoveryTidy.FoundStagesNothing` | core/src/recovery/Store.cpp:152-161 | a capture that finds its generation's row and file never writes a file |
| `RecoveryTidy.SharesOnlyKeyed` | core/src/recovery/Store.cpp:274-295 | a row is reused only for the same keyed generation, and inserted only without one |
| `RecoveryExact.DoubtExactly` | core/src/recovery/Store.cpp:274-332 | from every state of the invariant, a commit in doubt can be followed by the loss of a row exactly when it inserted one |
| `RecoveryExact.CommitExactly` | core/src/recovery/Store.cpp:274-295 | from every state of the invariant, a commit can be followed by the loss of a row exactly when it inserts one whose file is missing, not durable or about to be swept, and that is when it poses the hazard |
| `RecoveryExact.LateExactly` | core/src/recovery/Store.cpp:461-473 | if sweeps may run before and after it, the row a commit inserts can lose its file to them exactly when the file is past the age limit |
| `RecoveryExact.ReusedExactly` | core/src/recovery/Store.cpp:170-217 | writing under a name can be followed by the loss of a row exactly when a row has the name, or a capture, removal or sweep may still unlink it |
| `RecoveryLimits.HazardsComeUp` | core/src/recovery/Store.cpp:145-332 | for each hazard a run without any ends in a state where the next step can pose it |
| `PoolRuns.RunsConserve` | core/include/db/DBPool.hpp:107-131 | at every point of every interleaving each of the `size` connections is idle once or held by one thread |
| `PoolRuns.Fifo` | core/include/db/DBPool.hpp:122-124 | a connection with k ahead of it is handed out by the (k+1)-th acquire |
| `PoolRuns.AttemptsAreSpaced` | core/src/db/DBPool.cpp:7-38 | no reconnect starts inside the window of an earlier failure unless one succeeded in between or the latest failure's window is shorter |
| `PoolRuns.SpacedBetweenWraps` | core/src/db/DBPool.cpp:7-38 | nor while the counter of failures does not wrap |
| `PoolRuns.WrapRestarts` | core/src/db/DBPool.cpp:23-26 | after a positive multiple of 2^32 failures in a row, one more sets the window to 250 ms |
| `PoolRuns.BackoffShrinks` | core/src/db/DBPool.cpp:23-25 | the window shrinks from one failure to the next exactly after a multiple of 2^32 of them |
| `PoolLimits.SpacedExactly` | core/src/db/DBPool.cpp:7-38 | when the n-th failure in a row is followed by others up to the m-th, every run keeps the window of the n-th exactly when that of the m-th is not shorter |
| `PoolRuns.BackoffGrows` | core/src/db/DBPool.cpp:24-25 | the window never shrinks while the counter does not wrap |
| `PoolRuns.Windows` | core/include/db/DBPool.hpp:46-47 | 250 ms doubling to 4000 ms and then 5000 ms |
| `PoolRuns.HandsOutHealthy` | core/include/db/DBPool.hpp:127-131 | a connection is handed out only when it is not broken |
| `PoolRuns.SuccessCloses` | core/src/db/DBPool.cpp:32-38 | a success resets the counter of failures and closes the window |
| `PoolRuns.StatisticsCount` | core/include/db/DBPool.hpp:137-150 | the counters are the numbers of reconnects, failures and timeouts |
| `Pool.DBPool.constructor` | core/include/db/DBPool.hpp:92-98 | `size` distinct healthy connections, all idle |
| `Pool.DBPool.ReplaceBroken` | core/src/db/DBPool.cpp:7-41 | fails fast inside the window; otherwise a healthy connection and no window, or an unhealthy one and the next window |
| `Pool.DBPool.Acquire` | core/include/db/DBPool.hpp:107-131 | the longest idle connection, healthy, or a refusal that leaves every slot in the pool; exactly when which |
| `Pool.DBPool.Release` | core/include/db/DBPool.hpp:171-177 | the connection is at the back and no longer leased |
| `Pool.DBPool.Stats` | core/include/db/DBPool.hpp:137-150 | the numbers in use are the leased ones, the broken ones those idle and unhealthy |
| `Pool.Lease.Reset` | core/include/db/DBPool.hpp:76-80 | gives the connection back, and only once |
| `Pool.Lease.MoveFrom` | core/include/db/DBPool.hpp:61-68 | the old connection is back, the new one is held by one lease |
| `Transactions.Exec` | core/include/db/Transactions.hpp:29-95 | the function runs at most once, BEGIN at most twice and again only when the session was found dead; the work is applied at most once, and exactly when the call succeeds unless COMMIT failed; the transaction is over before the slot is back, on every path; the connection goes back healthy exactly when its last error does not end the session, or was met by the second BEGIN and left it open |
| `Transactions.ExecOn` | core/include/db/Transactions.hpp:44-94 | the function runs exactly when BEGIN got through, at once or after a repair; the same about the health of the connection |
| `Transactions.RunWork` | core/include/db/Transactions.hpp:63-94 | the work is applied only by its commit; the transaction is over afterwards, and the session untrusted exactly after an error that poisons or ends it |
| `Transactions.Read` | core/include/db/Transactions.hpp:102-123 | at most two tries, success exactly when the last one was complete, the slot back on every path, healthy exactly if the last error does not end the session |
| `Transactions.ReadOn` | core/include/db/Transactions.hpp:107-122 | a second try exactly after a broken connection that was unhealthy and could be replaced; the same about the health of the connection |
| `Base64.Encode` | core/include/protocols/shell/Transfer.hpp:64-83 | computes the padded encoding |
| `Base64.DecodeChunk` | core/include/protocols/shell/Transfer.hpp:87-112 | computes the strict decoding |
| `Base64.DecodeEncode` | core/include/protocols/shell/Transfer.hpp:64-112 | decoding undoes encoding |
| `Base64.EncodeDecode` | core/include/protocols/shell/Transfer.hpp:85-112 | only the canonical encoding decodes |
| `Base64.ChunkExact` | core/include/protocols/shell/Transfer.hpp:85-112 | a text is accepted exactly when it encodes at most 256 KiB, and as those bytes |
| `Base64.AlphabetExactly` | core/include/protocols/shell/Transfer.hpp:64-112 | the digits are those of section 4 of RFC 4648 |
| `Transfer.KeptExactly` | core/main/cli.cpp:726-781 | a download is kept exactly when it was announced, sent in canonical numbered chunks of that total, and ended well; it is then the chunks, joined |
| `Transfer.ExitCodeExactly` | core/main/cli.cpp:568-576 | the exit status of a verdict; only a zero code, or ok without a code, is a success |
| `Transfer.MalformedIsRefused` | core/main/cli.cpp:726-781 | what ends a download without its being kept, and with which status |
| `Transfer.RefusalIsPassedOn` | core/main/cli.cpp:763-765 | a failing verdict's status is passed on |
| `Transfer.RunGet` | core/main/cli.cpp:726-781 | exit 0 exactly when the frames are to be kept and the disk takes them; otherwise only the temporary file has changed, and the status says why |
| `Transfer.Get` | core/main/cli.cpp:583-649 | the target holds exactly the delivered bytes with exit 0, or the disk is as it was; the temporary file is gone |
| `Transfer.GetSink.Write` | core/main/cli.cpp:619-628 | writes everything through short writes, or fails with a prefix |
| `Transfer.GetSink.Commit` | core/main/cli.cpp:630-648 | replaces the target exactly when finishing and renaming succeed |
| `Transfer.Stream` | core/main/cli.cpp:806-829 | for every pattern of short reads and interruptions, the numbered chunks of a prefix of the file, each as long as it can be; the end mark exactly for all announced bytes, the abort mark exactly for a file that cannot be read so far |
| `Transfer.UndisturbedIsWhole` | core/main/cli.cpp:806-829 | an undisturbed stream is all of the announced bytes and the end mark |
| `Transfer.StreamSends` | core/main/cli.cpp:806-829 | the chunks of a stream are what a receiver takes: not empty and at most 256 KiB |
| `Transfer.PutThenGet` | core/main/cli.cpp:783-832 | a complete stream, relayed as a download, is kept as the file's bytes |
| `Transfer.RunPut` | core/main/cli.cpp:783-832 | each request for the file is answered by one such stream; the exit status is the verdict's, or says what ended the upload before it |
| `Quoting.ShellQuote` | core/main/cli.cpp:366-374 | builds the quoted text |
| `Quoting.QuotedIsOneWord` | core/main/cli.cpp:366-374 | a POSIX shell reads the quoted text as one word, the original |
| `Quoting.QuoteArgument` | core/main/cli_skill.cpp:117-127 | leaves safe arguments as they are and quotes the others |
| `Quoting.ArgumentBare` | core/main/cli_skill.cpp:118-120 | an argument is left as it is exactly when it is not empty and all its characters are safe |
| `Quoting.CommandText` | core/main/cli_skill.cpp:129-133 | builds the command line |
| `Quoting.TextIsUndone` | core/main/cli_skill.cpp:117-133 | a POSIX shell splits the line into exactly the arguments |
| `Quoting.CommandExactly` | core/main/cli_skill.cpp:117-133 | the first of them is taken as the command exactly when it is not an unquoted reserved word or assignment |
| `ShellLine.DqQuote` | core/main/cli.cpp:90-100 | builds the double-quoted token |
| `ShellLine.BuildLine` | core/main/cli.cpp:165-172 | builds the line |
| `ShellLine.RenderedBare` | core/main/cli.cpp:85-100 | a token is left as it is exactly when it is not empty and has no blank, tab, double quote or backslash |
| `ShellLine.LineIsUndone` | core/main/cli.cpp:85-100 | a reader gets every token list back from its line, empty tokens included |
| `ShellTokens.Tokenize` | core/include/protocols/shell/Token.hpp:81-205 | the pointer loops compute the tokens |
| `ShellTokens.SplitsExactly` | core/include/protocols/shell/Token.hpp:99-205 | words, flags and options are split as they were put together exactly when none that goes unquoted has a single quote |
| `ShellTokens.ArrivesExactly` | core/include/protocols/shell/Token.hpp:81-205 | they arrive from the whole tokenizer exactly when, besides, no alias starts the line |
| `ShellTokens.PositionalMean` | core/include/protocols/shell/Token.hpp:99-205 | positional arguments are meant to arrive as themselves |
| `ShellTokens.ShortMeans` | core/include/protocols/shell/Token.hpp:161-164 | a dash and a letter is that flag, or a word as the first token |
| `ShellTokens.LongMeans` | core/include/protocols/shell/Token.hpp:141-157 | two dashes and a name is that flag, with an equals sign followed by its value as a word |
| `ShellTokens.GluedMeans` | core/include/protocols/shell/Token.hpp:166-173 | a letter with a value glued to it is the flag and the value |
| `ShellTokens.NumbersMean` | core/include/protocols/shell/Token.hpp:134-139 | a negative number is a word |
| `ShellTokens.BundleLosesFirst` | core/include/protocols/shell/Token.hpp:161-178 | every bundle of short flags loses its first letter |
| `Mcp.CallsAreAnswered` | core/main/cli_mcp.cpp:103-205 | at most eight calls run, with distinct ids; each accepted one is answered at most once, and once done exactly if there was a response, no cancel was seen and its write succeeded; each refused one has exactly one error if its write succeeded, else none; all workers are joined at return |
| `Mcp.LostExactly` | core/main/cli_mcp.cpp:66-71 | a response or error is lost exactly when a write of it failed |
| `Mcp.LostRefusalIsLast` | core/main/cli_mcp.cpp:139-191 | a refused call without its error is the last call, and the loop is on its way out |
| `Mcp.CancelledIsSilent` | core/main/cli_mcp.cpp:174-185 | a call cancelled before its worker looked at the flag is never answered |
| `McpLines.CancelledExactly` | core/main/cli_mcp.cpp:151-159 | a call is cancelled exactly when a line named the id it was listed under, or the loop gave up while it was listed |
| `McpLines.CancelSilences` | core/main/cli_mcp.cpp:151-185 | a call so cancelled before its worker looked at the flag is never answered |
| `McpLines.CancelLine` | core/main/cli_mcp.cpp:151-159 | a cancel line changes nothing else |
| `McpLines.ShutdownCancels` | core/main/cli_mcp.cpp:193-197 | at the end every call still listed is cancelled |
| `McpLines.UncancelledIsAnswered` | core/main/cli_mcp.cpp:174-185 | a call that nobody cancelled and whose handler replied is answered once, unless the write failed |
| `McpLines.CallsAreDecided` | core/main/cli_mcp.cpp:161-187 | a call is refused with -32600 if one of its id is not joined yet, else with -32000 if eight are not, and else gets a thread |
| `McpLines.FinishedAreJoined` | core/main/cli_mcp.cpp:112-125 | before a line is handled every call that was done is joined |
| `McpLines.LoopAnswers` | core/main/cli_mcp.cpp:143-190 | the loop answers each line that does not parse, and each request it handles itself, once if the write succeeds |
| `McpLines.LoopEnds` | core/main/cli_mcp.cpp:138-191 | the loop ends with the input or with a failed write of its own |
| `Codecs.DurationExact` | core/include/config/util.hpp:16-43 | a duration printed and parsed comes back exactly when it is not negative and has at most nine digits in its largest unit |
| `Codecs.DurationNormal` | core/include/config/util.hpp:16-43 | every accepted text's duration survives printing and parsing |
| `Codecs.DurationForm` | core/include/config/util.hpp:16-24 | accepted are up to nine digits, alone or with one letter of a unit |
| `Codecs.DurationText` | core/include/config/util.hpp:25-31 | the letters stand for seconds, minutes, hours, days and weeks, in either case |
| `Codecs.DurationNumber` | core/include/config/util.hpp:26 | a number alone is seconds |
| `Codecs.LargestExactly` | core/include/config/util.hpp:36-43 | a duration is printed in the largest unit that states it exactly |
| `Codecs.HoursRoundTrip` | core/include/config/util.hpp:45-61 | every 64-bit number of hours comes back |
| `Codecs.HoursText` | core/include/config/util.hpp:48-56 | days and hours, in either case |
| `Codecs.HoursNumber` | core/include/config/util.hpp:58-60 | a number alone is hours |
| `Codecs.UnitsPrinted` | core/include/config/util.hpp:91-99 | days and gigabytes are printed exactly for whole ones |
| `Codecs.SizeRoundTrip` | core/include/config/util.hpp:63-94 | every 64-bit size comes back rounded down to a MiB |
| `Codecs.SizeText` | core/include/config/util.hpp:63-89 | gigabytes and megabytes in every spelling, and megabytes without a unit |
| `Cookie.Trim` | core/include/protocols/cookie.hpp:8-11 | both loops together trim the text |
| `Cookie.TrimmedExactly` | core/include/protocols/cookie.hpp:8-11 | the text without the blanks and tabs at its ends |
| `Cookie.ExtractCookie` | core/include/protocols/cookie.hpp:13-47 | the loop ends with the looked-up value |
| `Cookie.LooksUpFirst` | core/include/protocols/cookie.hpp:13-47 | for every header of section 4.2.1 of RFC 6265, with extra blanks, the first pair's value without quotes, or the empty string |
| `BoardOptions.OptionUsage` | tools/project/board.py:178-185 | the count of a name in a field is the number of its occurrences in the items |
| `BoardOptions.HeldHolds` | tools/project/board.py:178-185 | that number is positive exactly when some item holds the name |
| `BoardOptions.PlanOptions` | tools/project/board.py:195-223 | computes the plan, with one warning for each option left over: held by how many items if retired, else not in the schema |
| `BoardPlans.ChoosesFirst` | tools/project/board.py:204-212 | the i-th entry is the i-th option of the schema under the id of the last option on the board with its name, or else the first of its former names, that no earlier entry took; else it is new |
| `BoardPlans.LeavesTheRest` | tools/project/board.py:213-222 | then come, in order and unchanged, exactly the board's other options that are not retired or are held by an item |
| `BoardPlans.DifferExactly` | tools/project/board.py:226-228 | a plan differs from the board exactly in ids, names, colors, descriptions or number |
| `BoardOptions.PlanKeepsIds` | tools/project/board.py:195-223 | the schema's options in order under their own or a former option's id; no id twice; only retired unused options dropped; every id from the board |
| `BoardOptions.HeldIsKept` | tools/project/board.py:178-223 | the id of every option that an item holds survives |
| `BoardOptions.ReplanExactly` | tools/project/board.py:195-228 | on a board that holds the schema's options first, planning changes nothing exactly when no later option has the name of one of them and no retired option has become unused |
| `BoardOptions.ReplanIsStable` | tools/project/board.py:195-228 | planning again on the applied board changes nothing when the schema's names are distinct and none stands twice on the board |
| `BoardOptions.NamesMatter` | tools/project/board.py:202-211 | a board on which two options of one schema name change places with every plan |

## Left out

- RunsKeepBytes: holds for runs without the three hazards, which the lemmas of `RecoveryExact` show to be exact step by step.
- RunsKeepBytes: a caller replaces a file only after it has committed a capture of what the path holds, and while no delete of the path is under way; temporary staging files are not modelled.
- ReusedExactly: for a positive age limit; the source's is one hour.
- UnlinksOrphansOnly: unlinks take effect at once; an unlink undone by a crash only brings back a file without a row.
- AttemptsAreSpaced: fails where the 32-bit counter of failures has wrapped to a shorter window; `SpacedExactly` has the exact condition.
- PlanOptions: a warning is its kind, name and count, not its sentence.
- LooksUpFirst: one Cookie header field; the source looks at the first one only.
- TextIsUndone: token recognition only; `CommandExactly` adds reserved words and assignments. Shell aliases are not modelled.
- ArrivesExactly: for root aliases without blanks, quotes and backslashes, and starting with a dash only if the line does not start with a flag.
- RunPut: what the daemon stores is not modelled, only what is sent and what its verdict does.
- `norm_field` and `surface`, which drop prose and `partial`; the model starts from the normalized form.
- Message texts and order of breaks, and the additions the checker reports.
- Weak memory orderings, sockets, polling, terminals, encryption, hashing and the database engine.
- The secondary indexes of identities (by name, uid and gid) and negative entries, which follow the published states.
- `normalize_tokens`, option parsing after tokenizing, and the daemon's side of transfers.
- The YAML and JSON configuration codecs, deployment and lab tools, the web console, sync, shares and pairing.
