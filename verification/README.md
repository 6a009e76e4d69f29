# Verified model of okoscope

Okoscope watches Linux workloads from a node agent and groups what it sees on a server. This project models the
stateful core of both sides in Dafny and proves what that core promises over whole histories: counters that balance,
an index that never drifts, events that arrive exactly once, parsers that read exactly what they need, identities
that are never confused, and encodings that never collide.

Each part follows its source file. State that the source updates in place is a class whose methods are proved
against a specification on values. Loops stay loops. What the source computes by expressions is a function. The
theorems are about the specifications, so they hold for the classes too.

| part | files |
|---|---|
| Thread accounting per process: starts, snapshots, renames, exits, minute windows, and the window's validation and wire form | `TaskLifecycle*.dfy`, `ThreadWindow.dfy`, `ThreadWire.dfy` |
| Delivery from the agent's buffer to the server's table, and the rate limiter | `Delivery*.dfy`, `EventBuffer.dfy`, `Ingestion.dfy`, `RateLimiter.dfy` |
| DNS: message parsing, stream reassembly, query matching and the address cache | `Dns*.dfy` |
| Process generations and exits matched to the right executable | `Generation*.dfy`, `ProcessGenerationStore.dfy` |
| Resource sampling into minute aggregates | `Resource*.dfy` |
| Group fingerprints | `Fingerprint*.dfy`, `CanonicalEncoder.dfy` |
| Release identities | `Release*.dfy` |
| Normalised file paths | `FilePaths.dfy` |
| Shared: bytes and text, sorting, counting | `Text.dfy`, `Sorting.dfy`, `Counting.dfy` |

`dafny verify dfyconfig.toml` checks all of it.

## Conventions

- Times are integers in nanoseconds and come in as parameters; clocks are not modelled. A theorem that needs time not
  to step back says so in its `requires`.
- Identifiers are opaque. SHA-256 is a parameter or is replaced by the bytes fed to it, and the theorems are about
  those bytes.
- A directory listing, a readable or unreadable process directory, a resolved or unresolved attribution and the
  result of a server-side check are inputs.
- Counters are natural numbers. Where the source checks for 64-bit overflow the model does too; where it saturates
  the model counts on.
- Strings are sequences of Unicode scalar values, with UTF-8 written out wherever the source counts or compares bytes.
- Most lemmas carry `{:induction false}`: their proofs are written out.

## Where the code does less than one might expect

Five promises fail on some inputs. The model keeps the code as it is, shows an input, and states when the promise holds.

- Bootstrapping a process can orphan a thread of another container with the same process id
  (`TaskLifecycleRuns.UnsafeBootstrapBreaksTheIndex`); it keeps the index exactly when the listing is clear
  (`TaskLifecycleBootstrap.BootstrapExact`).
- A flush of resource aggregates that stops at the first late key can leave an expired one behind
  (`ResourceExamples.ClockStepBackStrandsAnAggregate`); it is exact exactly when the open keys do not straddle the
  boundary (`Resource.FlushExact`), and along every run of non-decreasing times they never do
  (`ResourceRuns.EveryFlushExact`).
- A minute of coverage can be overfilled, although a unit case in `crates/agent/src/resource.rs` is named for the
  opposite (`ResourceExamples.LateSampleOverfillsTheMinute`); it always stays under a minute plus the sample interval
  (`ResourceRuns.RunCoverage`) and within the minute exactly when the sample times around the bucket's boundary allow it
  (`ResourceRuns.RunMinuteExact`), which periodic samples always do (`ResourceRuns.PeriodicRunFits`).
- Registering a DNS query again while it is queued keeps a timed-out query behind it alive
  (`DnsQueries.ReRegisteringDelaysExpiry`); expiry is exact exactly when no timed-out query stands only behind a young
  one (`DnsQueries.ExpireExactlyUnlessShielded`), which holds while keys are not registered again (`DnsQueries.ExpireExact`).
- An invalid thread window can decode as a valid one, because a time outside 64-bit nanoseconds is sent as the epoch
  (`ThreadWire.InvalidWindowComesBackValid`); `ThreadWire.RoundTripExact` says what every window decodes to.

## Model

| member | source | states |
|---|---|---|
| ThreadWindow.ValidateExact | crates/event-model/src/lifecycle.rs:115-177 | `validate` accepts a window if and only if it is coherent (leader, valid generation, bounds one minute apart, totals that balance without 64-bit overflow, at most 66 distinct valid names whose totals equal the process totals, and a complete baseline only without gaps or missing provenance), and names the first thing that is wrong with any other, in this order |
| ThreadWindow.ValidateNames | crates/event-model/src/lifecycle.rs:165-176 | the set-filling loop over names stops at the first bad or repeated name, exactly as the specification's verdict says |
| ThreadWindow.CheckedSumTotal | crates/event-model/src/lifecycle.rs:179-184 | the overflow-checked sum is the true sum when it fits 64 bits and an error otherwise |
| ThreadWindow.GapCheckExact | crates/event-model/src/lifecycle.rs:156-161 | sorting a copy of the gaps, dropping equal neighbours and comparing lengths detects exactly the repeated reasons |
| ThreadWire.RoundTripExact | crates/protocol/src/lib.rs:526-656 | for every window: on the wire a bound outside 64-bit nanoseconds becomes the epoch, and decoding gives that window if it is valid and rejects it otherwise; so a window comes back unchanged if and only if it is valid and its bounds fit, a valid one that does not fit is rejected, and so is an invalid one that fits |
| ThreadWire.InvalidWindowComesBackValid | crates/protocol/src/lib.rs:526-656 | a concrete invalid window, with an end past 64-bit nanoseconds, that decodes to a different, valid one |
| ThreadWire.DecodeExact | crates/protocol/src/lib.rs:586-656 | a wire message with 64-bit times is accepted as a window if and only if that window is coherent, its times fit and it encodes to that very message; otherwise a missing generation, an unknown baseline and an unknown gap are each named exactly when they come first |
| ThreadWire.GapsRoundTrip | crates/protocol/src/lib.rs:526-584 | the list of gaps survives encoding and decoding |
| ThreadWire.IdNotNil | crates/agent/src/task_lifecycle.rs:509-530 | the derived window identifier is never the nil identifier |
| ThreadWire.IdPreimageInjective | crates/agent/src/task_lifecycle.rs:509-530 | the bytes hashed into a window identifier are equal for two windows if and only if cgroup, process id, generation, epoch and window start are |
| TaskLifecycleInvariant.ActivePositive | crates/agent/src/task_lifecycle.rs:263-294 | the active counter of a live task's name is positive, so the saturating subtraction never saturates |
| TaskLifecycleInvariant.AddTaskInv | crates/agent/src/task_lifecycle.rs:114-158 | recording a thread keeps the process state's balance: start + created - exited is the number of tasks, the peak lies between, each name's active count is its number of tasks, and name totals are process totals |
| TaskLifecycleInvariant.AdoptTaskInv | crates/agent/src/task_lifecycle.rs:189-227 | seeding a thread from the snapshot keeps the name counters exact |
| TaskLifecycleInvariant.DropTaskInv | crates/agent/src/task_lifecycle.rs:263-294 | taking a thread out by its exit keeps the balance |
| TaskLifecycleInvariant.RenameTaskInv | crates/agent/src/task_lifecycle.rs:229-261 | a rename moves one active count between names and keeps the balance |
| TaskLifecycleInvariant.RetireInv | crates/agent/src/task_lifecycle.rs:296-313 | a process exit counts every remaining thread as exited and keeps the balance |
| TaskLifecycleInvariant.FlushedInv | crates/agent/src/task_lifecycle.rs:481-493 | resetting the window keeps the balance, with the live threads as the new start |
| TaskLifecycleInvariant.OwnLocators | crates/agent/src/task_lifecycle.rs:389-395 | the locators removed with a process are exactly the index entries that point to it |
| TaskLifecycleInvariant.ProcessStartInv | crates/agent/src/task_lifecycle.rs:82-112 | a process start keeps the store invariant: index and tasks in one-to-one correspondence, within capacity, every state balanced |
| TaskLifecycleInvariant.EnsureStateInv | crates/agent/src/task_lifecycle.rs:332-358 | finding or creating the state of a process keeps the store invariant |
| TaskLifecycleInvariant.RetireReusedInv | crates/agent/src/task_lifecycle.rs:370-387 | taking out the thread whose id is reused keeps the store invariant; an indexed thread is always there |
| TaskLifecycleInvariant.ThreadStartInv | crates/agent/src/task_lifecycle.rs:114-158 | a thread start keeps the store invariant in every branch |
| TaskLifecycleInvariant.RenameInv | crates/agent/src/task_lifecycle.rs:229-261 | a rename keeps the store invariant |
| TaskLifecycleInvariant.ThreadExitInv | crates/agent/src/task_lifecycle.rs:263-294 | a thread exit keeps the store invariant |
| TaskLifecycleInvariant.ProcessExitInv | crates/agent/src/task_lifecycle.rs:296-313 | a process exit keeps the store invariant |
| TaskLifecycleInvariant.FlushDueInv | crates/agent/src/task_lifecycle.rs:315-330 | a flush keeps the store invariant: the retired states it forgets hold no task, so no index entry leaks |
| TaskLifecycleBootstrap.SeedExact | crates/agent/src/task_lifecycle.rs:189-227 | seeding a listing keeps index and tasks in correspondence if the listing is clear (no thread id repeated or already indexed while there is room), and otherwise leaves a task without its index entry |
| TaskLifecycleBootstrap.BootstrapExact | crates/agent/src/task_lifecycle.rs:160-227 | bootstrapping keeps the store invariant if and only if the listing it would seed is clear |
| TaskLifecycleBootstrap.SeedListed | crates/agent/src/task_lifecycle.rs:189-227 | after seeding a clear listing the index has what it had and exactly the listed threads other than the leader, all of them unless the store filled up |
| TaskLifecycleBootstrap.FreshListingClear | crates/agent/src/task_lifecycle.rs:189-227 | a listing without repetitions is clear when nothing is indexed under the process id |
| TaskLifecycleRuns.RunExact | crates/agent/src/task_lifecycle.rs:82-395 | over every run, the store invariant holds after every step if and only if every bootstrap in the run was safe |
| TaskLifecycleRuns.ReachableInv | crates/agent/src/task_lifecycle.rs:73-395 | every state any run reaches from an empty store has exact counters, and after a safe run its index is exact too |
| TaskLifecycleRuns.RunCounted | crates/agent/src/task_lifecycle.rs:82-395 | exact counters in every process, task keys below the next generation and an index within capacity are kept by every run, safe or not |
| TaskLifecycleRuns.RunBalanced | crates/agent/src/task_lifecycle.rs:82-395 | in every state of every run, safe or not: start + created - exited is the number of tasks, the peak lies between, every name's active count is its number of tasks, the name totals are the process totals, and no saturating subtraction has less to take from than it takes |
| TaskLifecycleCounters.BootstrapCounted | crates/agent/src/task_lifecycle.rs:160-227 | bootstrapping keeps the counters exact whatever the listing holds |
| TaskLifecycleCounters.ThreadStartCounted | crates/agent/src/task_lifecycle.rs:114-158 | a thread start keeps the counters exact whatever the index says |
| TaskLifecycleCounters.ThreadExitCounted | crates/agent/src/task_lifecycle.rs:263-294 | a thread exit keeps the counters exact even when the indexed task is gone |
| TaskLifecycleRuns.WindowProgress | crates/agent/src/task_lifecycle.rs:114-313 | inside a window, under every operation of any run, the peak is the running maximum of live threads, only recorded starts count as created, and exits, overflow and gaps only accumulate |
| TaskLifecycleRuns.TaskBound | crates/agent/src/task_lifecycle.rs:82-395 | the index lists every thread of every process exactly once, and never more than the capacity |
| TaskLifecycleRuns.ListTotals | crates/agent/src/task_lifecycle.rs:437-479 | whatever order the name map is walked in, the reported name totals are the sums over the map |
| TaskLifecycleRuns.ReportExact | crates/agent/src/task_lifecycle.rs:437-479 | the window a balanced process reports validates if and only if process, generation and every thread name are valid: the counters never fail |
| TaskLifecycleRuns.RunNameable | crates/agent/src/task_lifecycle.rs:82-395 | valid names in, valid names kept, over every run |
| TaskLifecycleRuns.EveryWindowAccepted | crates/agent/src/task_lifecycle.rs:315-330 | in every run with valid inputs, unsafe bootstraps included, every window a flush reports validates, is accepted by the server's check and, when its bounds fit, survives the wire unchanged |
| TaskLifecycleRuns.UnsafeBootstrapBreaksTheIndex | crates/agent/src/task_lifecycle.rs:189-227 | a concrete reachable store and listing after which a task is orphaned |
| TaskLifecycleLive.ProcessStartLive | crates/agent/src/task_lifecycle.rs:82-112 | on the flat table of live threads, a process start removes exactly the threads of that process |
| TaskLifecycleLive.EnsureStateLive | crates/agent/src/task_lifecycle.rs:332-358 | a new generation removes the old threads of the process and nothing else |
| TaskLifecycleLive.RetireReusedLive | crates/agent/src/task_lifecycle.rs:370-387 | a reused thread id loses its old thread and nothing else changes |
| TaskLifecycleLive.StartTaskLive | crates/agent/src/task_lifecycle.rs:114-158 | a start is ignored, refused or recorded exactly as a table of live threads would do it |
| TaskLifecycleLive.ThreadStartLive | crates/agent/src/task_lifecycle.rs:114-158 | the same for the whole operation, with the process's state ensured first |
| TaskLifecycleLive.RenameLive | crates/agent/src/task_lifecycle.rs:229-261 | a rename that is not older than its thread changes the name it is counted under and nothing else |
| TaskLifecycleLive.ThreadExitLive | crates/agent/src/task_lifecycle.rs:263-294 | an exit removes exactly the thread of that process if it started no later |
| TaskLifecycleLive.ProcessExitLive | crates/agent/src/task_lifecycle.rs:296-313 | a process exit removes exactly the threads of that process |
| TaskLifecycleLive.FlushDueLive | crates/agent/src/task_lifecycle.rs:315-330 | a flush changes no live thread |
| TaskLifecycleRefinement.BootstrapFlat | crates/agent/src/task_lifecycle.rs:160-227 | a safe bootstrap does to the flat model what a listing says: the listed threads other than the leader appear in order, started at zero, under the name they were listed with, as unknown, or as overflow, until the table is full, and every entry that could not be used leaves its gap |
| TaskLifecycleRefinement.StepFlat | crates/agent/src/task_lifecycle.rs:82-395 | every safe operation of the store is one step of the flat model: one table of live threads, and per process only what its next window will say, with live threads counted in the table |
| TaskLifecycleRefinement.ReachableFlat | crates/agent/src/task_lifecycle.rs:73-395 | after every safe run from an empty store, the store shows exactly the live threads, names, tallies, gaps and flags that the flat model computes from the same operations |
| TaskLifecycleRefinement.ReachableSays | crates/agent/src/task_lifecycle.rs:437-479 | in every safe run, every field of every reported window is what the flat model says: bounds, created, exited, live at start and end, peak, each name's tallies and the threads that bear it, overflow, gaps, baseline and completeness |
| TaskLifecycleGaps.WindowGapsExactly | crates/agent/src/task_lifecycle.rs:82-395 | in every safe run, told from the operations and the table of live threads: a reported window lists a kernel loss if and only if, since it began, a live thread of its process vanished other than by its own exit; a capacity gap if and only if a start was refused; a snapshot gap if and only if the listing was unreadable, had an unclear entry or was cut short; and it is complete if and only if the process began with its start observed or a snapshot that missed nothing, has lost no thread since, and the window has no gap |
| TaskLifecycleGaps.StepGaps | crates/agent/src/task_lifecycle.rs:82-395 | the same for one operation: which gaps it adds, which it clears, and when completeness ends |
| TaskLifecycleFlat.FirstWindow | crates/agent/src/task_lifecycle.rs:397-431 | a process's first window starts on a whole minute and holds the observation that began it |
| TaskLifecycleStore.TaskLifecycleStore.constructor | crates/agent/src/task_lifecycle.rs:73-80 | starts empty |
| TaskLifecycleStore.TaskLifecycleStore.RemoveProcessState | crates/agent/src/task_lifecycle.rs:389-395 | the loop over a process's tasks removes its index entries and then its state, as specified |
| TaskLifecycleStore.TaskLifecycleStore.ObserveProcessStart | crates/agent/src/task_lifecycle.rs:82-112 | the new store is the specification's; an event is reported if and only if the start is valid |
| TaskLifecycleStore.TaskLifecycleStore.EnsureState | crates/agent/src/task_lifecycle.rs:332-358 | the new store and the flag are the specification's |
| TaskLifecycleStore.TaskLifecycleStore.NextTaskKey | crates/agent/src/task_lifecycle.rs:360-368 | a new key carries the next generation, which advances |
| TaskLifecycleStore.TaskLifecycleStore.RetireReusedTask | crates/agent/src/task_lifecycle.rs:370-387 | the new store is the specification's |
| TaskLifecycleStore.TaskLifecycleStore.ObserveThreadStart | crates/agent/src/task_lifecycle.rs:114-158 | the new store is the specification's in every branch |
| TaskLifecycleStore.TaskLifecycleStore.BootstrapProcess | crates/agent/src/task_lifecycle.rs:160-187 | the new store is the specification's, readable directory or not |
| TaskLifecycleStore.TaskLifecycleStore.SeedSnapshot | crates/agent/src/task_lifecycle.rs:189-227 | the loop over directory entries fills state and index as specified, stopping when the store is full |
| TaskLifecycleStore.TaskLifecycleStore.ObserveRename | crates/agent/src/task_lifecycle.rs:229-261 | the new store is the specification's |
| TaskLifecycleStore.TaskLifecycleStore.ObserveThreadExit | crates/agent/src/task_lifecycle.rs:263-294 | the new store is the specification's |
| TaskLifecycleStore.TaskLifecycleStore.ObserveProcessExit | crates/agent/src/task_lifecycle.rs:296-313 | the new store is the specification's, with the loop over the remaining tasks |
| TaskLifecycleStore.TaskLifecycleStore.FlushDue | crates/agent/src/task_lifecycle.rs:315-330 | every due window is reported once, every state is reset and retired states are forgotten, in whatever order the map is walked |
| TaskLifecycleStore.ListNames | crates/agent/src/task_lifecycle.rs:437-479 | the reported names list the name map, each entry once |
| TaskLifecycleStore.ListGaps | crates/agent/src/task_lifecycle.rs:437-479 | the reported gaps list the set of gaps, each once |
| TaskLifecycleStore.FlushState | crates/agent/src/task_lifecycle.rs:437-493 | nothing before the window ends; then a window that reports the state, and the reset state |
| TaskLifecycleStore.ExitNames | crates/agent/src/task_lifecycle.rs:296-313 | the loop that counts the remaining tasks as exited gives the specified counters |
| EventBuffer.EventBuffer.PendingEvents | crates/agent/src/delivery.rs:74-87 | the sum over pending batches |
| EventBuffer.EventBuffer.Push | crates/agent/src/delivery.rs:74-87 | accepts exactly when occupancy is below capacity, appends to the queue, counts a drop otherwise |
| EventBuffer.EventBuffer.NextBatch | crates/agent/src/delivery.rs:89-105 | takes the next numbered batch off the queue into the pending map, and counts it as sent |
| EventBuffer.EventBuffer.Acknowledge | crates/agent/src/delivery.rs:107-116 | removes the batch, counts its events, and reports whether it was pending |
| EventBuffer.EventBuffer.ReplayPending | crates/agent/src/delivery.rs:118-133 | returns exactly the pending batches in ascending order and counts the replay, changing nothing else |
| DeliveryRuns.RunAccounted | crates/agent/src/delivery.rs:61-133 | in every run: accepted events in push order are the batches in sequence order followed by the queue, numbers are never reused, pending are exactly the unacknowledged batches, occupancy stays within capacity, and sent = acknowledged + pending |
| DeliveryRuns.EveryPushCounted | crates/agent/src/delivery.rs:74-87 | every push is either accepted or counted as dropped |
| DeliveryRuns.PushInv | crates/agent/src/delivery.rs:74-87 | a push keeps the buffer invariant |
| DeliveryRuns.TakeInv | crates/agent/src/delivery.rs:89-105 | taking a batch keeps the buffer invariant and moves its events from the queue to pending; the batch is full or empties the queue |
| DeliveryRuns.AckInv | crates/agent/src/delivery.rs:107-116 | an acknowledgement keeps the buffer invariant and frees exactly the batch's events |
| Ingestion.PersistApplicationBatch | crates/server/src/ingestion.rs:58-94 | a batch of another organisation is refused, then one under a revoked credential, then one in which an unexpired event fails its check, with the first such failure as the reason, each leaving the server unchanged; otherwise the batch commits as a whole, with every event inserted, skipped as known or skipped as expired, and the counts say how many |
| Ingestion.PersistSettles | crates/server/src/ingestion.rs:173-208 | after a commit every event of the batch is stored or closed over by retention |
| Ingestion.PersistSettled | crates/server/src/ingestion.rs:173-208 | ingesting events that are already settled changes nothing |
| Ingestion.PersistIdempotent | crates/server/src/ingestion.rs:173-208 | ingesting the same batch twice is ingesting it once |
| Ingestion.PersistExact | crates/server/src/ingestion.rs:173-208 | a batch inserts exactly the events whose identifier is new, also among the earlier ones of the batch, and that are not before the retention boundary, in order; no other row changes |
| Ingestion.CommitExact | crates/server/src/ingestion.rs:58-94 | a batch that is not refused reports how many rows it added and how many events were too old |
| Ingestion.RefusalOrder | crates/server/src/ingestion.rs:58-94 | a batch of another organization is refused for ownership, an owned one with an inactive credential for the credential, both before any event is looked at |
| Ingestion.RefusalExact | crates/server/src/ingestion.rs:58-94 | a batch is refused for its first event that is not too old and fails its check |
| Ingestion.CloseExact | crates/server/src/ingestion.rs:173-208 | as the commit sees it, the retention boundary never moves back and only rows before it can go |
| DeliveryProtocol.DeliverChannel | crates/server/src/session.rs:149-158 | what a connection delivers next is either the first uncommitted batch or one committed before |
| DeliveryProtocol.ReplayChannel | crates/agent/src/multi_stream.rs:256-260 | replaying on a new connection puts every uncommitted batch on it, in order |
| DeliveryProtocol.RepeatInv | crates/server/src/ingestion.rs:173-208 | a batch delivered again changes nothing at the server |
| DeliveryProtocol.CommitInv | crates/server/src/ingestion.rs:58-94 | committing the next batch keeps the end-to-end invariant |
| DeliveryProtocol.AckStepInv | crates/agent/src/multi_stream.rs:628-640 | an acknowledgement, late or repeated, keeps the end-to-end invariant |
| DeliveryGuarantee.RunInv | crates/agent/src/multi_stream.rs:238-329 | the end-to-end invariant holds over every interleaving of pushes, sends, disconnects, replays, commits, lost or late acknowledgements and retention |
| DeliveryGuarantee.InvMeaning | crates/agent/src/multi_stream.rs:238-329 | under the invariant every accepted event is queued, pending, stored or expired, and what the server inserted is a subsequence of the committed batches with distinct identifiers |
| DeliveryGuarantee.ExactlyOnceInOrder | crates/agent/src/multi_stream.rs:238-329 | over every such run: nothing accepted is lost, no identifier is ever inserted twice, rows are inserted in push order, occupancy stays within capacity |
| DeliveryGuarantee.DrainedRunSettled | crates/agent/src/multi_stream.rs:238-329 | over every such run: once the agent is connected, its queue is empty and its connection has delivered everything, every accepted event is stored or expired |
| DeliveryGuarantee.InsertedOnceExact | crates/server/src/ingestion.rs:173-208 | for any events arriving in any order: under every schedule of retention no identifier is inserted twice, if and only if no event was observed later than the first one with its identifier |
| DeliveryGuarantee.SharedIdentifierInsertedTwice | crates/server/src/ingestion.rs:173-208 | a concrete history in which an event observed later than the first with its identifier is inserted beside it |
| RateLimiter.EventRateLimiter.AllowAt | crates/agent/src/delivery.rs:39-50 | the answer and the new counter are the specification's |
| RateLimiter.WithinAllowance | crates/agent/src/delivery.rs:24-50 | what a run can still add to any one-second interval is bounded by the current window's remainder plus at most one more window |
| RateLimiter.AnySecondBounded | crates/agent/src/delivery.rs:24-50 | any run in time order accepts at most twice the configured number in any half-open second, wherever it starts |
| RateLimiter.OwnWindowBounded | crates/agent/src/delivery.rs:39-50 | within the limiter's own window the configured number is the bound |
| RateLimiter.TwiceIsReached | crates/agent/src/delivery.rs:39-50 | for every positive limit, twice the limit is reached within one second by a run in time order |
| DnsName.Classify | crates/agent/src/dns.rs:140-183 | the checks of one decoding step, in the source's order |
| DnsName.DecodeNameLoop | crates/agent/src/dns.rs:140-183 | the loop over labels and pointers computes the specified name, end and error |
| DnsName.DecodeReach | crates/agent/src/dns.rs:140-183 | a decoded name depends only on the bytes before its end, wherever its pointers lead |
| DnsName.DecodeCut | crates/agent/src/dns.rs:140-183 | cut before its end, the name is rejected as truncated |
| DnsName.DecodeNameExact | crates/agent/src/dns.rs:140-183 | a name decodes from a prefix of n bytes, with the same result, if and only if n reaches its end |
| DnsMessage.AbsorbRecord | crates/agent/src/dns.rs:83-124 | keeping or skipping one answer record is as specified |
| DnsMessage.ReadRecordHead | crates/agent/src/dns.rs:70-82 | reading a record's owner, type, class, TTL and length is as specified |
| DnsMessage.ParseMessage | crates/agent/src/dns.rs:43-138 | the whole parser, with its answer loop, computes the specified message or error |
| DnsAcceptance.AcceptsExactly | crates/agent/src/dns.rs:43-138 | the parser accepts exactly the well-formed messages: opcode 0, one question of type A or AAAA and class IN, at most 24 answers, a response code of at most 5, and as many records as announced, each with a readable owner and, if it counts, with data of the right length, room for it, or a readable alias; the TTL limit matters only when it is over a day, and then no record that counts may outlive a day |
| DnsAcceptance.LabelExact | crates/event-model/src/lib.rs:441-465 | a label is valid if and only if it is one to 63 letters, digits and hyphens with no hyphen at either end |
| DnsAcceptance.NameExact | crates/agent/src/dns.rs:140-183 | a name is read if and only if a valid name stands there in a compressed form of at most 16 steps, and it is read as that name |
| DnsAcceptance.HeaderRead | crates/agent/src/dns.rs:43-69 | what an accepted message says is what the bits of its header and its question say |
| DnsAcceptance.UnsupportedExactly | crates/agent/src/dns.rs:43-69 | another opcode, another number of questions than one and more than 24 answers are always refused as unsupported, and so is a response code above 5 behind a readable question |
| DnsReach.ParseExact | crates/agent/src/dns.rs:43-138 | a message that parses gives the same result on every prefix holding the bytes it reaches and is rejected as truncated on every shorter one; the reach is the end of its last record, or up to two bytes more for a CNAME shorter than the pointer it starts with |
| DnsReach.ParseAppend | crates/agent/src/dns.rs:43-138 | appending any bytes leaves the result of a successful parse unchanged |
| DnsReach.PointerFirst | crates/agent/src/dns.rs:109-113 | a name that begins with a pointer ends right after it, which is where the length check is skipped |
| DnsReach.MessageReach | crates/agent/src/dns.rs:43-138 | two inputs that agree up to the reach parse alike |
| DnsReach.MessageCut | crates/agent/src/dns.rs:43-138 | every input cut before the reach is rejected |
| DnsWireName.LoweredCanonical | crates/event-model/src/lib.rs:441-465 | the lower-cased labels of a valid name join to a name that the name constructor accepts unchanged |
| DnsWireName.CompressedNameExact | crates/agent/src/dns.rs:140-183 | a valid name in any compressed form, with labels and pointers mixed in any way the format allows, decodes to its lower-cased form and ends where the form ends, if and only if reading it takes at most 16 steps |
| DnsWireName.PlainNameExact | crates/agent/src/dns.rs:140-183 | written out in full, a valid name decodes to its lower-cased form if and only if it has at most 15 labels, and otherwise is rejected |
| DnsWireName.PointerNameExact | crates/agent/src/dns.rs:140-183 | as any number of labels followed by a pointer to any suffix of a name written out earlier, if and only if the whole name has at most 14 labels, and otherwise is rejected |
| DnsRoundTrip.RecordRoundTrip | crates/agent/src/dns.rs:70-125 | one answer record standing in any bytes, its names in any compressed form, is read back and kept as specified |
| DnsRoundTrip.ParseCarried | crates/agent/src/dns.rs:43-138 | any bytes that carry a query or response per sections 4.1.1 to 4.1.4 of RFC 1035, every name compressed in any readable way and whatever follows, parse to what they carry |
| DnsEncoding.ParseEncode | crates/agent/src/dns.rs:43-138 | parsing undoes an encoder that writes every owner and alias in full or as labels and a pointer into the question's name, for every valid query or response |
| DnsEncoding.EncodeCarries | crates/agent/src/dns.rs:43-138 | what the encoder writes carries its message |
| DnsRoundTrip.KeptExactly | crates/agent/src/dns.rs:83-124 | bytes that carry a message are rejected if and only if more than 16 of its address records count; otherwise all of them come back, with the first 8 aliases and the smallest kept TTL |
| DnsTcp.VerdictOfPrefix | crates/agent/src/dns_tcp.rs:78-95 | a proper prefix of a frame is neither complete nor malformed, and the frame itself is the message |
| DnsTcp.EverySplitReassembles | crates/agent/src/dns_tcp.rs:47-104 | for every split of a frame into non-empty in-order segments, every starting sequence number and any interleaving with other streams, every segment but the last is pending and the last returns exactly the message |
| DnsTcp.OnlyWholeFrames | crates/agent/src/dns_tcp.rs:47-104 | conversely, in one step: a message is returned only when the segments taken on that key since its stream began are contiguous and are its frame |
| DnsTcp.OnlyInputFrames | crates/agent/src/dns_tcp.rs:47-104 | over every input from an empty reassembler: whenever a message is returned, the last segments with a payload on that key, up to this one, are contiguous and are exactly that message's frame |
| DnsTcpReference.EveryOutcomeExact | crates/agent/src/dns_tcp.rs:47-104 | over every input from an empty reassembler, every outcome is that of a reference that keeps segments: an unfinished message is continued only while it is recent, an old one takes up no room, and a segment is refused for capacity, sequence or size, pending, complete or malformed exactly as the segments together begin a frame, are one, or neither |
| DnsTcpReference.VerdictExact | crates/agent/src/dns_tcp.rs:78-95 | two bytes or more are the whole frame of a message that may be sent, the beginning of one, or neither, and are judged accordingly |
| DnsTcp.FrameBack | crates/agent/src/dns_tcp.rs:81-95 | a stream yields a message only if its bytes are exactly that message's frame, within the size limit |
| DnsTcp.TcpDnsReassembler.ExpireAt | crates/agent/src/dns_tcp.rs:98-104 | removes exactly the streams past the timeout and counts them |
| DnsTcp.TcpDnsReassembler.PushSegment | crates/agent/src/dns_tcp.rs:47-96 | the outcome and the new streams are the specification's |
| DnsCache.LearnSlot | crates/agent/src/dns_state.rs:92-122 | learning an answer keeps a slot a faithful, bounded, distinct view of the latest unexpired answers |
| DnsCache.LearnAllRefines | crates/agent/src/dns_state.rs:92-122 | learning all answers of a response keeps the cache a refinement of the map from cgroup, address and name to the latest answer |
| DnsCache.TidyIs | crates/agent/src/dns_state.rs:124-143 | sorting and removing duplicates leaves the live entries, each once, in the order of their names |
| DnsCache.ContextSlot | crates/agent/src/dns_state.rs:124-143 | the context of a slot is present if and only if some name is live, lists exactly the live names in order, and always passes the context constructor |
| DnsState.RunRefines | crates/agent/src/dns_state.rs:92-143 | over every run in time order the cache refines the reference map |
| DnsState.ContextMatchesReference | crates/agent/src/dns_state.rs:124-143 | after every such run a context answers as the reference does: present if and only if a name learnt for that cgroup and address, when its slot had room for it, is live; all of those and no others, sorted and distinct; building it never fails |
| DnsCache.AskForgets | crates/agent/src/dns_state.rs:124-143 | asking for a context keeps exactly the live answers of that key, drops the key when none is live, and leaves every other key alone |
| DnsCacheHistory.ContextFromResponses | crates/agent/src/dns_state.rs:92-143 | told from the correlated responses alone: a name is in the context if and only if its latest answer for that cgroup and address found room and neither its own time to live nor the longest allowed is over; the context was observed at the latest and expires at the earliest of those times |
| DnsQueries.ExpireQueued | crates/agent/src/dns_state.rs:145-157 | every pending query stays in the queue, and their number stays within the limit |
| DnsQueries.RegisterFaithful | crates/agent/src/dns_state.rs:71-90 | a registration that is taken is pending for its own process, and one that is refused changes no match |
| DnsQueries.TakeFaithful | crates/agent/src/dns_state.rs:99-102 | a response is matched to the process of the latest unanswered registration of its key, and to no other |
| DnsQueries.ExpireExact | crates/agent/src/dns_state.rs:145-157 | while no key is registered again before it has left the queue, exactly the timed-out queries expire |
| DnsQueries.ExpireExactlyUnlessShielded | crates/agent/src/dns_state.rs:145-157 | exactly the timed-out queries expire if and only if none of them stands in the queue only behind a young one |
| DnsQueries.RegisterInOrder | crates/agent/src/dns_state.rs:71-90 | registering a key that is not queued keeps that order |
| DnsQueries.TakeInOrder | crates/agent/src/dns_state.rs:99-102 | matching a response keeps that order |
| DnsQueries.RunRefers | crates/agent/src/dns_state.rs:71-157 | over every run in time order in which no key is registered while it is queued, the pending queries are exactly those of a reference map without a queue, which at every step forgets precisely what has timed out |
| DnsQueries.MatchesReference | crates/agent/src/dns_state.rs:71-157 | so after every such run from an empty state the queries that a response can still match at any time are exactly the reference's |
| DnsQueries.ReRegisteringDelaysExpiry | crates/agent/src/dns_state.rs:145-157 | a concrete history in which re-registering a queued key keeps a timed-out query alive |
| DnsState.DnsState.ExpirePending | crates/agent/src/dns_state.rs:145-157 | the loop over the queue's head leaves the specified queries |
| DnsState.DnsState.RegisterQuery | crates/agent/src/dns_state.rs:71-90 | the new state is the specification's |
| DnsState.DnsState.LearnAnswers | crates/agent/src/dns_state.rs:103-120 | the loop over answers leaves the specified slots |
| DnsState.DnsState.CorrelateResponse | crates/agent/src/dns_state.rs:92-122 | nothing is learnt for a response that matches no pending query; otherwise its answers are, under the cgroup and the name of the matched query, and its process is returned |
| DnsState.DnsState.ContextFor | crates/agent/src/dns_state.rs:124-143 | the returned context is the specification's |
| Generations.TrimExact | crates/agent/src/process_runtime.rs:154-167 | enforcing the capacity always reaches it, keeps every live pair queued in strictly increasing order, and evicts exactly the oldest live generations |
| Generations.NewestKept | crates/agent/src/process_runtime.rs:154-167 | the generation just allocated is evicted only when the capacity is zero |
| Generations.AllocateInv | crates/agent/src/process_runtime.rs:127-152 | allocation keeps the invariant: queue order and coverage, table within capacity, live and evicted keys disjoint; and says exactly which entries remain |
| Generations.StepInv | crates/agent/src/process_runtime.rs:54-125 | every operation keeps the invariant, and the generation counter never goes back |
| Generations.RunInv | crates/agent/src/process_runtime.rs:54-173 | the invariant holds in every state of every run |
| Generations.ExitNamesItsOwnExec | crates/agent/src/process_runtime.rs:95-125 | over every run: an exit that reports an observed generation names an earlier exec of the same key, given that same generation, with no start, exec, consumed exit or eviction of the key in between |
| GenerationHistory.ExitAnswersExactly | crates/agent/src/process_runtime.rs:95-125 | over every run, told from the events before it: an exit answers evicted if and only if its key was evicted and neither forgotten nor seen since, mismatch if and only if the process was first seen after the exit's time, otherwise an exec if and only if that exec is the last thing that happened to the process, and before-observation if and only if none of these; and when it returns an identity |
| GenerationHistory.IdentityExactly | crates/agent/src/process_runtime.rs:54-93 | over every run: a start gets a new generation marked as observed, any other operation the identity of the process it belongs to, or a new one not marked |
| GenerationHistory.EvictsExactly | crates/agent/src/process_runtime.rs:127-173 | over every run: keys are evicted only when a generation is needed and the table is full, no more than needed and the oldest, and of the evicted keys only as many are forgotten as are too many |
| Generations.CorrelationNeverFails | crates/agent/src/process_runtime.rs:107-120 | given valid executables, building the correlation of a stored entry never fails |
| Generations.CorrelationFailsExactly | crates/agent/src/process_runtime.rs:77-125 | an exit that ends the generation of the exec just before it has no correlation to give (the source panics) if and only if that executable is empty, longer than 256 bytes or holds a NUL |
| Generations.GenerationsIncrease | crates/agent/src/process_runtime.rs:127-134 | generations handed out along a run strictly increase |
| ProcessGenerationStore.ProcessGenerationStore.constructor | crates/agent/src/process_runtime.rs:43-52 | starts empty, at generation 1 |
| ProcessGenerationStore.ProcessGenerationStore.EvictOldest | crates/agent/src/process_runtime.rs:154-167 | the first loop of the capacity check computes the specified trimming |
| ProcessGenerationStore.ProcessGenerationStore.ForgetEvicted | crates/agent/src/process_runtime.rs:168-173 | the second loop forgets just enough evicted keys |
| ProcessGenerationStore.ProcessGenerationStore.Allocate | crates/agent/src/process_runtime.rs:127-152 | takes one allocation step and returns its identity |
| ProcessGenerationStore.ProcessGenerationStore.ObserveStart | crates/agent/src/process_runtime.rs:54-61 | takes a start step |
| ProcessGenerationStore.ProcessGenerationStore.EnsureGeneration | crates/agent/src/process_runtime.rs:63-74 | returns the live identity unchanged or allocates |
| ProcessGenerationStore.ProcessGenerationStore.ObserveExec | crates/agent/src/process_runtime.rs:76-93 | takes an exec step |
| ProcessGenerationStore.ProcessGenerationStore.ConsumeExit | crates/agent/src/process_runtime.rs:95-125 | takes an exit step; the correlation always builds in a store that keeps the invariant |
| Resource.FlushExact | crates/agent/src/resource.rs:289-294 | the flush that stops at the first late key takes what a full filter would take if and only if no late key of an earlier route precedes an expired one |
| ResourceCoverage.MinuteBound | crates/agent/src/resource.rs:328-346 | for any chain of contributions one lifetime covers less than a minute plus the sample interval in any bucket |
| ResourceCoverage.SpentBounded | crates/agent/src/resource.rs:328-346 | by any time within a bucket, at most the time since the bucket began plus one interval |
| ResourceMinute.MinuteExact | crates/agent/src/resource.rs:328-346 | for any chain of contributions a lifetime covers at most the minute of a bucket if and only if its sample times there allow it: the first sample follows one in the same bucket, or the counted part of the step across the boundary and the counted time after it come to at most a minute |
| ResourceMinute.GapFreeMinuteExact | crates/agent/src/resource.rs:328-346 | without gaps, if and only if that first sample follows one in the bucket, or the time from it to the last sample and the counted part of its step fit in the minute |
| ResourceMinute.PeriodicMinuteBound | crates/agent/src/resource.rs:328-346 | when spans are whole intervals and the interval divides a minute, the condition holds: at most a minute |
| ResourceCoverage.TotalsMeaning | crates/agent/src/resource.rs:242-286 | an aggregate's containers are exactly the contributing lifetimes and its coverage is the sum of theirs |
| ResourceCoverage.TotalsCounted | crates/agent/src/resource.rs:599-640 | an aggregate's value of a counter is the sum of the contributed differences |
| ResourceRuns.EveryFlushExact | crates/agent/src/resource.rs:140-165 | along every run of non-decreasing sample times the open aggregates share one bucket before each sample, and every flush takes exactly what a full filter would take |
| ResourceRuns.ReportedOnce | crates/agent/src/resource.rs:140-165 | along such a run no aggregate is reported twice, reported and open aggregates hold exactly the contributions made to them in the whole run, and every contribution is in one of them |
| ResourceReadings.AggregatesSumReadings | crates/agent/src/resource.rs:168-286 | along such a run, told from the listings: each counter of an aggregate is the sum of later minus earlier readings over the pairs of consecutive readings that count for it, its coverage the sum of what they cover, its samples their number, and its containers and missing sources theirs |
| ResourceReadings.BackwardContribution | crates/agent/src/resource.rs:327-346 | after the clock stepped back a sample contributes if and only if it did so by less than a microsecond and no shared counter fell, and then it covers no time |
| ResourceReadings.ContributionIs | crates/agent/src/resource.rs:328-346 | a sample contributes if and only if no shared counter fell and the readings lie in one minute or at most two seconds more than an interval apart; what it contributes are the differences |
| ResourceReadings.LinkedTelescope | crates/agent/src/resource.rs:550-598 | readings that follow one another telescope: the counter rose by the last reading less the first |
| ResourceReadings.RiseByLifetime | crates/agent/src/resource.rs:168-286 | the sum splits by lifetime into the sums over each lifetime's own pairs |
| ResourceReadings.LastReading | crates/agent/src/resource.rs:140-165 | the earlier reading of a pair was taken by the last listing that did not fail |
| ResourceRuns.RunCoverage | crates/agent/src/resource.rs:168-238 | along such a run a lifetime covers less than a minute plus the interval per bucket |
| ResourceRuns.RunMinuteExact | crates/agent/src/resource.rs:168-238 | along such a run a lifetime covers at most the minute of a bucket if and only if its sample times satisfy that condition |
| ResourceRuns.FittingReportAccepted | crates/event-model/src/resource.rs:92-110 | and when they do for every lifetime, the reported aggregate passes the receiver's coverage and emptiness checks |
| ResourceRuns.AggregateCoverage | crates/event-model/src/resource.rs:92-110 | a reported aggregate is never empty and covers less than that for each of its containers |
| ResourceRuns.PeriodicRunFits | crates/event-model/src/resource.rs:92-110 | with sample times whole intervals apart and an interval dividing a minute, every reported aggregate passes the receiver's coverage and emptiness checks |
| ResourceRuns.RunGood | crates/agent/src/resource.rs:140-326 | both tables stay within their limits over every run, and the bookkeeping invariant holds when time does not step back |
| ResourceExamples.ClockStepBackStrandsAnAggregate | crates/agent/src/resource.rs:289-294 | a concrete run with a clock that steps back, after which a flush leaves an expired aggregate open |
| ResourceExamples.LateSampleOverfillsTheMinute | crates/agent/src/resource.rs:328-346 | a concrete forward run with one late sample whose report covers 64 seconds of one container's minute and fails the receiver's check |
| ResourceSampler.ResourceSampler.constructor | crates/agent/src/resource.rs:130-138 | starts empty |
| ResourceSampler.ResourceSampler.KeysBefore | crates/agent/src/resource.rs:289-294 | the keys taken are the specified set, each once, in order |
| ResourceSampler.ResourceSampler.FlushBefore | crates/agent/src/resource.rs:288-324 | reports each taken aggregate once, in order, and removes it |
| ResourceSampler.ResourceSampler.Record | crates/agent/src/resource.rs:242-286 | absorbs the contribution, or drops it at the aggregate limit |
| ResourceSampler.ResourceSampler.SampleCgroup | crates/agent/src/resource.rs:168-239 | the new state, the contribution and the seen set are the specification's in every branch |
| ResourceSampler.ResourceSampler.Sample | crates/agent/src/resource.rs:140-165 | takes one sampling step: flush, then every cgroup in turn, then forgetting the unseen |
| FingerprintExact.TrimIs | crates/server/src/grouping.rs:505-513 | normalising takes off only null and whitespace characters, and all of them at either end |
| FingerprintExact.TrimUnique | crates/server/src/grouping.rs:505-513 | so texts that differ only at such ends are normalised alike |
| FingerprintExact.EncodeInjective | crates/server/src/grouping.rs:523-527 | the length-prefixed encoding determines the list of fields |
| FingerprintExact.KindNamesForm | crates/event-model/src/lib.rs:41-60 | the fifteen event kinds are distinct names |
| FingerprintExact.RenamedExact | crates/server/src/grouping.rs:450-475 | a rename's fields determine both paths and whether, and to what, the replaced flag is known |
| FingerprintExact.IdentityExact | crates/server/src/grouping.rs:257-438 | within each kind the fields determine the normalised identity |
| FingerprintExact.PreimageExact | crates/server/src/grouping.rs:237-448 | two events feed the digest the same bytes if and only if their scopes and identities are equal after normalisation, over all event kinds |
| FingerprintRelation.GroupingExact | crates/server/src/grouping.rs:237-448 | two raw events that are not refused feed the digest the same bytes if and only if their scopes agree and they are of one kind whose own fields agree after trimming, kind by kind; all other fields are ignored |
| FingerprintRelation.RefusalExact | crates/server/src/grouping.rs:237-448 | an event has no fingerprint if and only if a text its scope or kind needs is blank or its kind is not grouped, and the error names the first |
| FingerprintExact.KindIsEventKind | crates/event-model/src/lib.rs:41-60 | the kind in the digest's input is the event's own |
| CanonicalEncoder.CanonicalEncoder.Field | crates/server/src/grouping.rs:523-527 | adds one length-prefixed field |
| CanonicalEncoder.CanonicalEncoder.InboundEndpoint | crates/server/src/grouping.rs:477-503 | adds the fields of a listening or accepting endpoint |
| CanonicalEncoder.CanonicalEncoder.FileSemantic | crates/server/src/grouping.rs:450-475 | adds the fields of a file operation, or returns the missing field |
| CanonicalEncoder.CanonicalEncoder.ScopeHeader | crates/server/src/grouping.rs:241-254 | checks the three scope names in order and adds the header |
| CanonicalEncoder.CanonicalEncoder.PayloadFields | crates/server/src/grouping.rs:257-438 | for every payload kind, adds the identity's fields or returns its first error |
| CanonicalEncoder.FingerprintV1 | crates/server/src/grouping.rs:237-448 | the result is the first error in the source's order, or the hash of the group's encoded fields |
| ReleaseOrder.LeqIsTotal | crates/event-model/src/release.rs:11-24 | the derived comparison of components is a total order |
| ReleaseOrder.NeighboursSuffice | crates/event-model/src/release.rs:133-139 | after sorting, comparing neighbours finds a duplicate name if and only if there is one anywhere |
| ReleaseOrder.ArrangeExact | crates/event-model/src/release.rs:116-141 | components are refused as duplicates if and only if two share category and name and nothing was wrong before; otherwise they come back sorted, the same elements |
| ReleaseOrder.FromImagesPermutation | crates/event-model/src/release.rs:77-101 | every permutation of the reported images gives the same release or the same error |
| ReleaseOrder.FromImagesValid | crates/event-model/src/release.rs:103-113 | what is constructed passes validation |
| ReleaseOrder.ValidateExact | crates/event-model/src/release.rs:103-113 | a release is valid if and only if it is what its own containers build |
| ReleaseOrder.ValidMeaning | crates/event-model/src/release.rs:103-113 | a valid release lists its containers in order, without duplicates, within the limits, under their digest |
| ReleaseOrder.PreimageExact | crates/event-model/src/release.rs:160-173 | the digest's input is equal for two lists of components if and only if the components are, up to the image text |
| ReleaseVerdict.FromImagesExact | crates/event-model/src/release.rs:77-101 | which reason reported images are refused for, the first of: an unreadable image id, a count outside 1 to 64, a name that is empty or over 253 bytes, an image that is empty, over 512 bytes or has space at an end, a repeated name; otherwise the release holds all of them in order under the hash of the specified bytes |
| ReleaseVerdict.OrderExact | crates/event-model/src/release.rs:11-24 | components come by category, then by the bytes of the name, then by image with none first, then by digest |
| ReleaseVerdict.ImageIdExact | crates/event-model/src/release.rs:143-158 | an image id is read if and only if it ends in the mark and 64 digits of either case, and as the digest they spell |
| ReleaseIdentity.ImageIdRoundTrip | crates/event-model/src/release.rs:143-158 | every digest is read back from an image id, whatever stands before the mark |
| ReleaseIdentity.ParseId | crates/event-model/src/release.rs:143-158 | the loop over digit pairs computes the specified digest or error |
| ReleaseIdentity.ValidateComponents | crates/event-model/src/release.rs:116-141 | sorts the array in place into the specified order, or returns the specified error |
| ReleaseIdentity.DigestComponents | crates/event-model/src/release.rs:160-173 | the loop feeds the hash exactly the specified bytes |
| ReleaseIdentity.BuildRelease | crates/event-model/src/release.rs:52-101 | construction from images, or from image ids alone, gives the specified release or error |
| ReleaseIdentity.Check | crates/event-model/src/release.rs:103-113 | validation gives the specified verdict |
| FilePaths.RenderNormal | crates/event-model/src/lib.rs:179-199 | rendering any list of names gives a normalised path with exactly those components |
| FilePaths.NormalizedExact | crates/event-model/src/lib.rs:179-199 | a path is accepted as normalised if and only if it is the rendering of its components and these are names |
| FilePaths.NewPathExact | crates/event-model/src/lib.rs:149-158 | a text is taken as a path if and only if it has at most 1024 bytes and renders some list of names; the length is checked first |
| FilePaths.DescendantExact | crates/event-model/src/lib.rs:164-170 | on normalised paths the text test holds if and only if the prefix's component list is a prefix of the path's |
| FilePaths.DescendantOrder | crates/event-model/src/lib.rs:164-170 | so it is a partial order with the root above everything |

## Left out

- FingerprintExact.PreimageExact: for fields shorter than 2^64 bytes, which memory guarantees.
- TaskLifecycleRuns.EveryWindowAccepted: for runs that create fewer than 2^64 threads, and with the survival on the wire for bounds that fit 64-bit nanoseconds.
- A bound on the number of process states: a process start inserts a state without a capacity check, so only the bound on threads holds.
- Validity of thread names as a theorem: decoding of kernel names admits control characters and 16 bytes, so valid names are an input condition of `TaskLifecycleRuns.EveryWindowAccepted`; trimming of names read from the process directory is left to the listing.
- A bound on the queue of process generations: stale pairs leave it only when the table is over capacity.
- Validity of stored executables as a theorem: it is an input condition of `Generations.CorrelationNeverFails`, and a necessary one (`Generations.CorrelationFailsExactly`).
- Saturation of generation, sequence and sample counters at 2^64: histories are taken to be shorter.
- Full name acceptance of RFC 1035: decoding takes at most 16 steps, and the model states what that means for every form of a name.
- Gauges, limits and their minimum, maximum and latest-value merging in resource aggregates, the node name and release identity they carry, and the parsing of control-group files: field-by-field copies and text parsing.
- The order among resource keys of one route and bucket: it makes no difference to the flush.
- The limits on identity fields and CPU quota pairs of a resource aggregate: an unlimited quota gives a period without a quota, so not every aggregate passes them.
- Resource batches, release observations and heartbeats on the agent's stream: the sequence number of a resource batch does not advance when its send fails, so no loss-freedom holds there.
- The server's database, retention worker, projections and acknowledgement sender: represented by an atomic commit that skips known identifiers and times before the retention boundary, and by acknowledgements sent after it.
- The human-readable summary stored with a fingerprint, and the assignment of events to groups.
- The textual form of UUIDs, and the hash function itself; lengths in the release digest are eight bytes, as on 64-bit platforms.
- Wait-status decoding and the other payload encoders: finite domains or field-by-field copies.
- The aggregator of file modifications and the store of container lifecycles: smaller stores with easier invariants.
- Kernel programs, the observer, control-group and process-directory reading, Kubernetes watches, gRPC and TLS sessions, HTTP interfaces, access control, credentials, metrics and benchmarks.
