# MVGAL: verified models

MVGAL presents several GPUs as one device. This project models the parts of it that
are real state machines or real arithmetic, and proves what they keep: the NT
synchronisation objects offered to Wine and Proton, the daemon's peer discovery, the
frame pacer, kernel and daemon power control, the kernel's workload dispatcher, and the
message checksum.

`dafny verify dfyconfig.toml` checks the whole project (Dafny 4.11).

## How the models are built

Each component is one module in one file. Concurrent components are machines on values:
a `State`, the `Event`s (one atomic access or one critical section each), a predicate
`Enabled`, a function `Step`, and runs, which are sequences of states and events of any
length. Threads, timeouts, spurious wake-ups, the order in which an unordered table is
walked, the clock and vendor results are choices recorded in the events, so a statement
about every run is a statement about every interleaving. Beside the machine stands the
object the source mutates, as a class whose methods follow the source statement by
statement and are proved to take exactly one `Step`. The table lists those methods that
have a loop, an array or several branches; the others are single critical sections.

- `NtSemaphore`, `NtMutex`, `NtEvent`, `NtMultiWait`: compat/windows/mvgal_ntsync.c.
  Condition variables follow POSIX.1 (IEEE Std 1003.1-2017, pthread_cond_signal and
  pthread_cond_timedwait): a signal unblocks at least one sleeper, wake-ups may be
  spurious, and a sleeper that times out has consumed no signal.
- `PeerDiscovery`, `DiscoveryWire`: runtime/daemon/ipc_server.cpp and the remote GPU list
  of runtime/daemon/device_registry.cpp.
- `FramePacer`: steam/mvgal_frame_pacer.c.
- `DvfsThermal`, `PowerBudget`: kernel/mvgal_power.c.
- `IdleManager`, `PowerCurve`: runtime/daemon/power_manager.cpp.
- `Dispatcher`: kernel/mvgal_scheduler.c.
- `XorChecksum`: include/mvgal/mvgal_network.h.
- `Common`: definitions shared by several of them.

## What the models say about the code

Some properties one would expect are false of the code. The lemmas named here say when
they hold, or what happens instead.

- Mutual exclusion of the NT mutex needs three things of its callers, and each has its
  exact condition: a compare-and-swap must not fall between a blocking acquirer's load and
  store (`StealIsSafeIffNoWindow`); an unlock must come from the holder
  (`UnlockTestIsSafeIff` and the conditions of its later steps, `UnlockLoadIsSafeIff` and
  `UnlockStoreIsSafeIff`; `UnlockOfFreeIsSafeIff`); and a nested lock must not be the
  2^32-th (`NestingIsSafeIffCountFits`). Runs from creation show each failure
  (`StealFromStart`, `ForeignUnlockFromStart`, `DeepNestingFromStart`). Increment and
  decrement of the recursion count are unlocked against each other: a stranger's decrement
  that crosses the owner's increment is erased or cuts the count short, depending on who
  stores first (`ErasedUnlockFromStart`, `TornUnlockFromStart`). The absence of lost
  wake-ups needs none of the rules.
- A semaphore release whose 32-bit sum wraps is accepted and destroys tokens; the books
  balance exactly if and only if that has not happened (`ExactUnlessWrapped`). Lost
  wake-ups do not occur even then.
- The header says a pulse wakes the current waiters. Waits only poll, so pulses never
  end one (`PulseWakesNobody`), while one set does (`OneSetEndsTheWait`).
- `abandoned` is never set, so WAIT_ABANDONED is never returned by a lock call
  (`GuardIsExclusiveAndNeverAbandoned`).
- A multi-wait for all with a NULL entry never succeeds (`WaitAllMeansAll`), and one that
  times out keeps what it took (`TimedOutAllKeepsIffNothingToTake`), so that signals which
  were all sent may never be seen together (`SetsTakenApart`).
- A peer that has said goodbye stays DISCONNECTED while it keeps announcing itself
  (`PeersOnlyMoveForward`), and pruning a peer leaves its GPUs registered
  (`RegistryCountsIntroductions`). A heartbeat from an unknown node locks m_peerMutex
  twice; the model gives it the effect it is written for.
- The TCP port is a 32-bit field swapped as 16 bits; between hosts of different byte
  order it always arrives as 0 (`RoundTrip`).
- Frames submitted in a burst share one presentation target (`BurstSharesTarget`).
- A thermal check at the critical temperature has no effect on the frequency, now or later
  (`CriticalChecksAreInvisible`, `OverheatedGpuRampsUp`), and a boost to performance
  undoes a cap (`CapHoldsIffNoEarlyBoost`). Thresholds are changed without a lock, so a
  check can divide by zero (`ZeroDivisionIff`).
- Idle timeouts whose 32-bit sum wraps leave GPUs in too deep a state; how much of the sum
  must fit depends on the clock and on configuration changes (`SafeIffSumsFit`,
  `SafeWhenFixedIff`, `SafeWithAnyClockIff`).
- A power distribution stays within the budget if and only if 50 W per GPU fit
  (`AllocationWithinBudgetIffFloorFits`).
- A dispatch pass ends, with an unchanging GPU list, if and only if every pending workload
  has a suitable GPU, and then serves the stable priority order
  (`FixedPassEndsIffAllMatch`); with a changing one, retries keep the order exactly when
  they come in whole rounds (`PassOrder`). After it requeues a workload the code continues
  its loop without the lock; the model takes each queue operation as one step.
- The guard for an empty span in the power curve can never fire: the interpolation agrees
  with a definition that has no such case (`InterpolatePowerLimit`).

## Model

| member | source | states |
|---|---|---|
| NtSemaphore.NoLostWakeUp | compat/windows/mvgal_ntsync.c:383-458 | In every run of releases, timed and infinite waits, timeouts, spurious wakes and multi-wait probes, wrapped releases included: while a thread sleeps the count is at most the number of woken waiters yet to run; so with none of those left a positive count means nobody sleeps, and otherwise some woken waiter will get a token. |
| NtSemaphore.PostLoopDecrementIsSafe | compat/windows/mvgal_ntsync.c:454-457 | Over every run the decrement after the waiting loop never underflows, the TIMEOUT computed from it is unreachable, and the count stays within the maximum. |
| NtSemaphore.Conservation | compat/windows/mvgal_ntsync.c:395-401 | Count plus tokens handed out plus 2^32 per wrapped release equals the initial count plus the amounts of the accepted releases, over every run. |
| NtSemaphore.ExactUnlessWrapped | compat/windows/mvgal_ntsync.c:395-401 | Tokens are conserved exactly if and only if no accepted release has wrapped. |
| NtSemaphore.BalancedModulo | compat/windows/mvgal_ntsync.c:395-401 | Tokens are always conserved modulo 2^32. |
| NtSemaphore.ReleaseLosesIffWraps | compat/windows/mvgal_ntsync.c:395-401 | An accepted release leaves fewer tokens than it found if and only if its 32-bit sum wraps. |
| NtSemaphore.WrappingReleaseLosesTokens | compat/windows/mvgal_ntsync.c:395-399 | From every new semaphore that has tokens, a release of 2^32 - 1 is accepted and takes one token away. |
| NtSemaphore.OnlyTimedWaitsExpire | compat/windows/mvgal_ntsync.c:436-452 | A blocked wait that returns TIMEOUT belongs to a call that gave a finite timeout. |
| NtSemaphore.ReleaseAcceptedIffRoom | compat/windows/mvgal_ntsync.c:388-401 | In every run a release that does not overflow is accepted exactly if the semaphore has room for all of it, and changes nothing otherwise; a release of just the room there is fills the semaphore. |
| NtSemaphore.EntryIsExact | compat/windows/mvgal_ntsync.c:420-452 | In every run: a wait call or probe takes one token and succeeds exactly if there is one; without one, a call with timeout 0 reports TIMEOUT and any other sleeps, with a deadline exactly if its timeout is finite; no other TIMEOUT exists but that of a timed-out sleeper. |
| NtSemaphore.Semaphore.Create | compat/windows/mvgal_ntsync.c:348-374 | Refuses exactly a zero maximum or an initial count above it. |
| NtSemaphore.Semaphore.Signal | compat/windows/mvgal_ntsync.c:406 | One signal unblocks some sleepers, at least one if there is any. |
| NtSemaphore.Semaphore.WakeUp | compat/windows/mvgal_ntsync.c:403-408 | The wake-up loop unblocks at least as many sleepers as it signals, or all of them. |
| NtSemaphore.Semaphore.Release | compat/windows/mvgal_ntsync.c:383-412 | Without overflow accepted exactly for positive amounts up to the maximum less the count, with overflow exactly if the sum less 2^32 is within the maximum; the count becomes that sum, or nothing changes; reports the previous count (none for an amount of 0), wakes enough sleepers and keeps the invariant. |
| NtMutex.NoLostWakeUp | compat/windows/mvgal_ntsync.c:281-327 | In every run at all, disciplined or not: whenever the word is 0, a thread sleeps and no unlock is about to signal, some woken waiter is yet to run. |
| NtMutex.SleepersMayExpireIffTimed | compat/windows/mvgal_ntsync.c:261-292 | In every run a sleeping thread is in a call with a nonzero timeout, and its deadline can pass exactly if that timeout is finite. |
| NtMutex.LockResultsAreEarned | compat/windows/mvgal_ntsync.c:256-304 | In every run a lock call reports TIMEOUT only if its timeout was finite, or 0 with the word taken; a timed-out sleeper had a finite one; success is reported exactly when the caller gains one level; WAIT_ABANDONED never. |
| NtMutex.GuardIsExclusiveAndNeverAbandoned | compat/windows/mvgal_ntsync.c:281-304 | At most one thread is inside the pthread lock and `abandoned` is never true, over every run. |
| NtMutex.MutualExclusion | compat/windows/mvgal_ntsync.c:247-327 | In every disciplined run, across re-entry, compare-and-swap and blocking paths: at most one thread has the mutex, the word is 1 exactly while one has it, the owner field names exactly the thread whose acquire completed, and the recursion count is its locks minus its unlocks. |
| NtMutex.StealInWindowBreaksExclusion | compat/windows/mvgal_ntsync.c:264-297 | A compare-and-swap, of a try-lock or a multi-wait, that succeeds between a blocking acquirer's load and store always leaves two holders after that acquirer's next step. |
| NtMutex.StealIsSafeIffNoWindow | compat/windows/mvgal_ntsync.c:264-297 | A successful compare-and-swap keeps exclusion in all disciplined continuations if and only if no acquirer is between load and store; otherwise some continuation has two holders. |
| NtMutex.StealFromStart | compat/windows/mvgal_ntsync.c:281-297 | From every new mutex without an owner, five steps of any two threads leave both holding it. |
| NtMutex.UnlockTestIsSafeIff | compat/windows/mvgal_ntsync.c:310-319 | The test that begins the unlock of a held mutex, at any nesting depth, keeps exclusion if and only if the caller holds it, or the count is nested and the owner has read 2^32 - 1; otherwise some continuation has two holders. |
| NtMutex.UnlockLoadIsSafeIff | compat/windows/mvgal_ntsync.c:313 | The load of a nested unlock keeps exclusion if and only if the caller holds the mutex or the owner has read 2^32 - 1, so that it cannot store between this load and the store. |
| NtMutex.UnlockStoreIsSafeIff | compat/windows/mvgal_ntsync.c:313 | The store of a nested unlock keeps exclusion in all disciplined continuations if and only if the caller holds the mutex or the owner is between its own unlocked load and store of the count, which then erases it. |
| NtMutex.UnlockOfFreeIsSafeIff | compat/windows/mvgal_ntsync.c:307-327 | An unlock of a free mutex keeps exclusion if and only if no other thread can swap the word before it is cleared; otherwise some continuation has two holders. |
| NtMutex.ForeignUnlockFromStart | compat/windows/mvgal_ntsync.c:307-327 | Any thread but the creator can unlock a mutex created with an owner, and then two threads can hold it. |
| NtMutex.CrossingFromStart | compat/windows/mvgal_ntsync.c:256-316 | A disciplined run leads to the state in which the stranger begins, and its two reads lead to the crossing both outcomes start from. |
| NtMutex.ErasedUnlockFromStart | compat/windows/mvgal_ntsync.c:256-316 | The same two reads, but the stranger stores first: the owner's store erases that and exclusion holds from there on. |
| NtMutex.TornUnlockFromStart | compat/windows/mvgal_ntsync.c:256-316 | From creation with an owner: the owner two deep reads 2, a stranger's unlock reads 2, the owner stores 3, the stranger stores 1; then two threads can hold the mutex. |
| NtMutex.NestingIsSafeIffCountFits | compat/windows/mvgal_ntsync.c:256-259 | A nested lock keeps exclusion in all disciplined continuations if and only if the incremented count fits in 32 bits or no other thread exists; otherwise some continuation has two holders. |
| NtMutex.DeepNestingFromStart | compat/windows/mvgal_ntsync.c:256-259 | A disciplined run of the creator's nested locks leads to the nesting that lets a second thread in. |
| NtEvent.SignalConservation | compat/windows/mvgal_ntsync.c:146-204 | Over every run of an auto-reset event, initial signal plus sets equals signals reported plus sets absorbed plus signals discarded by reset or pulse plus the pending one. |
| NtEvent.ConsumptionsBounded | compat/windows/mvgal_ntsync.c:191-204 | Readers of an auto-reset event never see more signals than its initial one and its sets. |
| NtEvent.ManualResetReportsToAll | compat/windows/mvgal_ntsync.c:146-204 | A manual-reset event is signaled exactly when the latest set, reset or pulse was a set, however often it is read. |
| NtMultiWait.WaitAnyIsExact | compat/windows/mvgal_ntsync.c:677-780 | Under arbitrary interference, over all passes: a WAIT_ANY call that reports entry i found it available and took one unit from it (a manual-reset event keeps its signal, a mutex becomes the caller's), its earlier inspections changed nothing, and each lower non-null entry was inspected in the last pass and found unavailable; a call that times out changed nothing; only an empty call fails. |
| NtMultiWait.UndisturbedAnyFindsFirst | compat/windows/mvgal_ntsync.c:702-760 | Without interference WAIT_ANY hits the lowest available entry of the initial world and changes only that object; until it hits, or when it times out, nothing has changed. |
| NtMultiWait.SuccessCodesAreDistinct | compat/windows/mvgal_ntsync.h:91-96 | Some success code equals WAIT_TIMEOUT if and only if more than 0x102 objects are listed, and WAIT_ABANDONED if and only if more than 0x80 are; none equals WAIT_FAILED. |
| NtMultiWait.WaitAllMeansAll | compat/windows/mvgal_ntsync.c:702-763 | Under arbitrary interference a WAIT_ALL call that has ended, or goes on to another pass, has succeeded if and only if every entry is non-null and was found available in its last pass. |
| NtMultiWait.PassEndIsExact | compat/windows/mvgal_ntsync.c:762-778 | Under arbitrary interference, at the end of a pass: success of WAIT_ALL exactly if every entry was found in it; otherwise TIMEOUT exactly if the call may not wait or its deadline is reached; otherwise another pass. |
| NtMultiWait.UndisturbedAllSucceeds | compat/windows/mvgal_ntsync.c:702-763 | A WAIT_ALL call that nobody disturbs, on different objects that are all available, succeeds in its first pass, whatever its timeout. |
| NtMultiWait.TimedOutAllKeepsIffNothingToTake | compat/windows/mvgal_ntsync.c:702-775 | A WAIT_ALL call that nobody disturbs and that times out, after any number of passes, leaves the objects unchanged if and only if none of them had anything to give. |
| NtMultiWait.NothingFoundFrom | compat/windows/mvgal_ntsync.c:702-763 | From any state of any run in which nothing listed is signaled and nothing has been found in the current pass, a call never succeeds as long as nobody sets a listed event. |
| NtMultiWait.SetsTakenApart | compat/windows/mvgal_ntsync.c:702-763 | A run in which two auto-reset events are each set once after a WAIT_ALL call has started, and the call takes them in different passes and goes on polling. |
| NtMultiWait.PulseWakesNobody | compat/windows/mvgal_ntsync.c:174-189 | A wait for any or all of some unsignaled events never succeeds in any run in which other threads pulse, reset and read these events in any way but do not set them. |
| NtMultiWait.OneSetEndsTheWait | compat/windows/mvgal_ntsync.c:641-648 | From every state in which a wait for any with a nonzero timeout is still polling, one set of a listed event is enough to end it with a hit. |
| NtMultiWait.InspectPass | compat/windows/mvgal_ntsync.c:703-763 | One undisturbed pass. For any: it stops at the first available entry and changes nothing else. For all: with distinct objects it counts every entry as signaled exactly when all are available, and it leaves the objects unchanged exactly when none had anything to give, so a failed pass keeps what it took. |
| PeerDiscovery.TableIsConsistent | runtime/daemon/ipc_server.cpp:1083-1274 | In every reachable table the local node is no peer, each entry is filed under its node id, and a peer with an open socket is past DISCOVERED. |
| PeerDiscovery.PeersOnlyMoveForward | runtime/daemon/ipc_server.cpp:1083-1274 | While an entry is not erased its state never decreases in the order DISCOVERED, CONNECTED, ACTIVE, DISCONNECTED, over every run. |
| PeerDiscovery.DescriptorsAreConserved | runtime/daemon/ipc_server.cpp:1227-1274 | Every accepted descriptor has been closed or is attached to exactly one live peer, over every run. |
| PeerDiscovery.PruneIsExact | runtime/daemon/ipc_server.cpp:1388-1418 | A prune erases exactly the peers silent for longer than the timeout or with more than 24 missed heartbeats, keeps the others unchanged, and closes exactly the sockets of the erased. |
| PeerDiscovery.PeerFollowsMessages | runtime/daemon/ipc_server.cpp:1083-1200 | A live peer carries the time of the latest announcement, heartbeat or acknowledgement of its node and counts, modulo 2^32, the ticks since then at which it was CONNECTED or ACTIVE. |
| PeerDiscovery.PruneFollowsMessages | runtime/daemon/ipc_server.cpp:1388-1418 | Which peers a prune erases, from the messages and ticks alone; a peer heard from within the timeout and within the last 24 ticks survives. |
| PeerDiscovery.MembershipFollowsEvents | runtime/daemon/ipc_server.cpp:1083-1181 | A node other than the local one becomes known exactly by an announcement or a heartbeat, and only a prune makes it unknown. |
| PeerDiscovery.HeartbeatConfirms | runtime/daemon/ipc_server.cpp:1158-1200 | A heartbeat or acknowledgement of a known peer makes it ACTIVE if it was CONNECTED, refreshes it, and changes nothing else. |
| PeerDiscovery.AnnouncementIsExact | runtime/daemon/ipc_server.cpp:1083-1132 | An announcement gives a known peer the announced address, port and GPU count and connects a DISCOVERED one; an announcement or heartbeat of an unknown node creates a DISCOVERED peer and its numbered GPUs; the local node is ignored. |
| PeerDiscovery.AcceptIsExact | runtime/daemon/ipc_server.cpp:1256-1273 | A connection goes to a peer of its address without a socket and connects a DISCOVERED one, or is closed if there is none; no other peer changes. |
| PeerDiscovery.StateFollowsEvents | runtime/daemon/ipc_server.cpp:1083-1274 | The state of a live peer from the events since it became known: DISCONNECTED once it said goodbye; otherwise ACTIVE once a heartbeat or acknowledgement followed a further announcement or a connection, CONNECTED once there was one of those, DISCOVERED before. |
| PeerDiscovery.RegistryCountsIntroductions | runtime/daemon/ipc_server.cpp:1276-1300 | The registry's entries for a node equal the sum of the GPU counts announced each time the node went from unknown to known, over every run. |
| PeerDiscovery.PeerTable.NotifyRemoteGpus | runtime/daemon/ipc_server.cpp:1276-1300 | Appends one entry per advertised GPU, numbered from 0. |
| PeerDiscovery.PeerTable.HandleAnnouncement | runtime/daemon/ipc_server.cpp:1083-1132 | Ignores the local node, refreshes a known peer and moves it past DISCOVERED, registers an unknown one with its GPUs. |
| PeerDiscovery.PeerTable.ProcessMessage | runtime/daemon/ipc_server.cpp:1134-1225 | Codes 0, 1 and 5 have the effect of an announcement, 2 of a heartbeat, 3 of an acknowledgement, 4 of a goodbye, all others none. |
| PeerDiscovery.PeerTable.AcceptPeer | runtime/daemon/ipc_server.cpp:1227-1274 | Attaches the socket to some peer of that address without one, or closes it if there is none. |
| PeerDiscovery.PeerTable.HeartbeatTick | runtime/daemon/ipc_server.cpp:1330-1344 | Whatever the order of the walk and the clock readings, counts one more missed heartbeat for exactly the CONNECTED and ACTIVE peers. |
| PeerDiscovery.PeerTable.CollectStale | runtime/daemon/ipc_server.cpp:1395-1405 | The loop collects exactly the stale peers. |
| PeerDiscovery.PeerTable.EraseAll | runtime/daemon/ipc_server.cpp:1407-1417 | The second loop erases exactly the collected peers and closes each of their sockets once. |
| PeerDiscovery.PeerTable.PruneStale | runtime/daemon/ipc_server.cpp:1388-1418 | The two loops together erase exactly the stale peers and close exactly their sockets. |
| DiscoveryWire.FieldRoundTrip | runtime/daemon/ipc_server.cpp:1016-1024 | A field swapped at its own width survives the trip between hosts of any byte orders. |
| DiscoveryWire.WireIsBigEndian | runtime/daemon/ipc_server.cpp:1016-1024 | A field swapped at its own width lies most significant byte first on the wire, whatever the host. |
| DiscoveryWire.PortRoundTrip | runtime/daemon/ipc_server.cpp:1022 | The port arrives unchanged between hosts of one byte order, and as 0 otherwise. |
| DiscoveryWire.Layout | runtime/daemon/ipc_server.hpp:145-156 | Magic, type, node id, GPU count and port lie at bytes 0, 8, 12, 20 and 24 of every encoded message, with anything after the header. |
| DiscoveryWire.RoundTrip | runtime/daemon/ipc_server.cpp:1142-1147 | Decoding an encoded announcement, whatever follows it in the datagram, gives back type, node id and GPU count between any hosts, and the port if and only if the byte orders agree or the port is 0. |
| DiscoveryWire.DroppedIffMagicDiffers | runtime/daemon/ipc_server.cpp:1360-1367 | A complete message is dropped if and only if its magic number differs, on every host. |
| FramePacer.PacerIsFifo | steam/mvgal_frame_pacer.c:98-232 | Under every interleaving the accepted frames are those shown, then the one in flight, then the ring, in submission order; submissions are dropped, paced, in flight or queued; head is tail plus count modulo 8. |
| FramePacer.SleepingMeansIdle | steam/mvgal_frame_pacer.c:106-107 | A sleeping pacer means an empty ring and `running` still true. |
| FramePacer.PresentationTimes | steam/mvgal_frame_pacer.c:124-131 | Presentation times never decrease, the last one never passes the clock, and the total jitter is the sum over the shown frames of their distance to their targets. |
| FramePacer.TargetWithinOneInterval | steam/mvgal_frame_pacer.c:211-224 | Every accepted frame carries its id and GPU and is aimed between its ready time and one current interval later, whatever refresh changes came before. |
| FramePacer.TargetIsExact | steam/mvgal_frame_pacer.c:211-217 | An accepted frame is aimed one interval after the last frame shown, if there is one and the frame is ready by then, and otherwise one interval after it is ready. |
| FramePacer.IntervalIsOnePeriod | steam/mvgal_frame_pacer.c:249-256 | In every run the interval is the whole nanoseconds of one period of the nonzero refresh rate set last. |
| FramePacer.NothingTakenAfterDestroy | steam/mvgal_frame_pacer.c:102-112 | Once destroyed, the pacer takes no frame out of the ring; at most the frame it holds is still shown. |
| FramePacer.FullSleepsNeverEarly | steam/mvgal_frame_pacer.c:82-92 | Over every run in which no nanosleep is cut short, no frame is shown before its target: the clock reading, the early return and the relative sleep in seconds and nanoseconds are separate from the presentation time. |
| FramePacer.NapsEndAtTarget | steam/mvgal_frame_pacer.c:84-91 | In every run each relative sleep has less than a second of nanoseconds and ends exactly at the target of the frame in flight. |
| FramePacer.EarlyIffTooLittleTime | steam/mvgal_frame_pacer.c:82-125 | A frame is presented early if and only if less time passes between the start of its sleep and its presentation than the sleep asked for; it is early by just the difference, and then its sleep was cut short. |
| FramePacer.Pacer.BeginSleep | steam/mvgal_frame_pacer.c:82-91 | Sleeps exactly when the target lies ahead, for a valid timespec that adds up to the target. |
| FramePacer.BurstSharesTarget | steam/mvgal_frame_pacer.c:213-217 | Two frames accepted with no presentation or refresh change in between have the same target if and only if they are ready at the same time, or something has been presented and the second is ready within one interval of the last presentation. |
| FramePacer.Pacer.SubmitFrame | steam/mvgal_frame_pacer.c:197-232 | On the ring array: drops the frame exactly when eight are queued, otherwise stores it with its target at the head and wakes the pacer. |
| FramePacer.Pacer.TakeNextFrame | steam/mvgal_frame_pacer.c:103-119 | Stops, sleeps, or hands out the frame at the tail of the ring array. |
| DvfsThermal.ControllersAgree | kernel/mvgal_power.c:120-185 | In every interleaving of DVFS ticks, mode changes, thermal checks and threshold changes, checks that read half of a change included, target equals current and both stay within the policy. |
| DvfsThermal.CapIsAntitone | kernel/mvgal_power.c:364-372 | The thermal cap never rises with temperature below critical. |
| DvfsThermal.TickIsExact | kernel/mvgal_power.c:142-178 | One tick in every state of every run: 2000 MHz in performance, 300 in powersave, in balanced mode 100 up from 80 percent load on and 100 down up to 30 percent, within the limits; otherwise unchanged. |
| DvfsThermal.ModeChangeIsExact | kernel/mvgal_power.c:246-264 | A change to performance or powersave applies 2000 or 300 MHz at once; others leave the frequency alone. |
| DvfsThermal.IdleGpuRampsDown | kernel/mvgal_power.c:158-164 | A balanced GPU that sees k idle ticks has exactly max(300, start - 100 k) MHz. |
| DvfsThermal.CapIsPercentage | kernel/mvgal_power.c:364-372 | The throttle level is the whole percentage of the way from throttle to critical temperature, and the cap that much less than 2000 MHz, but at least 300. |
| DvfsThermal.CheckIsExact | kernel/mvgal_power.c:335-385 | A check below critical sets the frequency to the minimum of itself and the cap; at or above critical it leaves it unchanged. |
| DvfsThermal.CapHoldsIffNoEarlyBoost | kernel/mvgal_power.c:142-165 | The bound cap + 100 k holds at every point after a below-critical check if and only if every boost to the maximum in between (a switch to performance mode, or a tick in it) comes when the bound has already reached the maximum. |
| DvfsThermal.CapWearsOffSlowly | kernel/mvgal_power.c:151-165 | Outside performance mode the frequency is, after a below-critical check, at most min(max, cap + 100 k) after k balanced ticks, with any checks and changes in between. |
| DvfsThermal.ZeroDivisionIff | kernel/mvgal_power.c:453-454 | During one unlocked change of valid thresholds to valid thresholds some order of its two stores and a check's reads divides by zero if and only if the temperature throttles under the old ones and the new throttle temperature is the old critical one or the new critical one the old throttle one. |
| DvfsThermal.ConsistentReads | kernel/mvgal_power.c:355-380 | A check whose five reads of the thresholds agree is the ordinary check, C division and unsigned conversion included. |
| DvfsThermal.CriticalChecksAreInvisible | kernel/mvgal_power.c:355-363 | From any state, any sequence of events leads to the same mode, frequencies and thresholds as the sequence without its critical checks. |
| DvfsThermal.OverheatedGpuRampsUp | kernel/mvgal_power.c:151-157 | A GPU in balanced mode that sees only busy ticks and critical checks has, after k ticks, exactly min(max, start + 100 k): it is never slowed down. |
| DvfsThermal.LimitBounds | kernel/mvgal_power.c:729-736 | A throttle level up to 100 percent gives that much less than the maximum, never below the minimum, without 32-bit overflow. |
| DvfsThermal.Gpu.DvfsWork | kernel/mvgal_power.c:120-185 | Moves the frequency as the mode and the utilisation demand and keeps target and current equal and within the policy. |
| DvfsThermal.Gpu.SetFreqLimit | kernel/mvgal_power.c:717-751 | Lowers target and current to the limit of any 32-bit throttle level. |
| DvfsThermal.Gpu.ThermalWork | kernel/mvgal_power.c:335-385 | Caps the frequency below critical, only reports at critical, and keeps target and current equal and within the policy. |
| PowerBudget.LimitsStayBelowMaximum | kernel/mvgal_power.c:500-600 | On every run of register, unregister, distribute and budget changes, wrap-around included, no limit exceeds its maximum. |
| PowerBudget.GrantsSumToAllocationIffDistinct | kernel/mvgal_power.c:578-595 | For any priority, budget and up to 2^32/15 indices, wrapped products included: a distribution touches only the first eight listed GPUs, and their minima sum to the recorded allocation if and only if no GPU is listed twice. |
| PowerBudget.AllocationWithinBudgetIffFloorFits | kernel/mvgal_power.c:578-595 | For priorities up to 15, even if the product of priority and watts wraps, the allocation is within total minus headroom if and only if 50 W per GPU are. |
| PowerBudget.AllocationWithinBudgetIff | kernel/mvgal_power.c:578-595 | For every priority, wrapped products included, the allocation is within total minus headroom a if and only if 50 W for each of the n GPUs are and the 32-bit product of priority and a is less than 15 n (a / n + 1). |
| PowerBudget.DistributionIsExact | kernel/mvgal_power.c:578-595 | Each GPU reached gets the share as minimum and min(2 share, max) as limit, and the allocation is share times n; the share is the largest q with 15 n q at most the 32-bit product of priority and available watts, or 50 if that is more. |
| PowerBudget.BudgetFollowsSettings | kernel/mvgal_power.c:626-664 | In every run total and headroom are those set last, 500 W and 50 W at first. |
| PowerBudget.PowerManager.Grant | kernel/mvgal_power.c:584-593 | The loop grants the share to the first eight listed GPUs, in place. |
| PowerBudget.PowerManager.PerGpu | kernel/mvgal_power.c:578-582 | Computes the share of each GPU; 15 times a nonzero 32-bit count is never 0, so the division is defined. |
| PowerBudget.PowerManager.DistributePower | kernel/mvgal_power.c:563-600 | Fails exactly for an empty list; otherwise records the allocation and grants the share to the first eight listed GPUs. |
| IdleManager.ThrottledIsActive | runtime/daemon/power_manager.cpp:368-397 | A throttled GPU is ACTIVE, over every run. |
| IdleManager.GpuFollowsEvents | runtime/daemon/power_manager.cpp:213-256 | In every run a GPU is throttled exactly if the latest temperature poll found it at or above a threshold of that moment, carries the time of its latest activity, and is enabled and configured as it was told last. |
| IdleManager.PollNeverTooDeep | runtime/daemon/power_manager.cpp:313-366 | When the timeouts add up in 32 bits, an idle poll leaves an enabled unthrottled GPU no deeper than its idle time allows, at most one level deeper than before, and newly in PARK only with aggressive power-down. |
| IdleManager.PollIsExact | runtime/daemon/power_manager.cpp:317-365 | A poll leaves a disabled or throttled GPU alone; another wakes up if it is deeper than its idle time allows, and otherwise goes one level deeper if that is allowed, to PARK only with aggressive power-down. |
| IdleManager.ElapsedIsWholeMs | runtime/daemon/power_manager.cpp:324-325 | Idle time is in whole milliseconds, rounded towards zero also when the clock went back. |
| IdleManager.ParkOnlyWhenAggressive | runtime/daemon/power_manager.cpp:342-348 | No event but an idle poll with aggressive power-down enters PARK. |
| IdleManager.SafeIffSumsFit | runtime/daemon/power_manager.cpp:329-360 | No poll under a configuration leaves a GPU deeper than its idle time allows, in any run from start-up with a steady clock, if and only if the three timeouts can be added in 32 bits. |
| IdleManager.SafeWhenFixedIff | runtime/daemon/power_manager.cpp:329-360 | The same for runs that keep the configuration, with a steady clock: if and only if the first two timeouts fit, and all three when power-down is aggressive. |
| IdleManager.SafeWithAnyClockIff | runtime/daemon/power_manager.cpp:324-360 | The same for runs that keep the configuration while the clock may be set back: if and only if all three timeouts fit. |
| IdleManager.QuietGpuSinks | runtime/daemon/power_manager.cpp:313-366 | A GPU with no activity of its own sinks exactly one level per poll past its full timeout, down to PARK with aggressive power-down and to IDLE without, whatever happens to other GPUs in between. |
| IdleManager.ThreeQuietPolls | runtime/daemon/power_manager.cpp:313-366 | Three quiet polls past the full timeout reach PARK with aggressive power-down, and leave a GPU that was not parked IDLE without. |
| IdleManager.ActivityWakes | runtime/daemon/power_manager.cpp:219-247 | Activity leaves its GPU ACTIVE and all others unchanged. |
| IdleManager.PowerManager.CheckIdleTimeouts | runtime/daemon/power_manager.cpp:313-366 | The loop moves every enabled unthrottled GPU to the state its idle time demands and leaves the others alone. |
| IdleManager.PowerManager.CheckThermalState | runtime/daemon/power_manager.cpp:368-397 | The loop throttles exactly the GPUs at or above a threshold and makes them ACTIVE. |
| PowerCurve.ExactAtKnots | runtime/daemon/power_manager.cpp:686-710 | At every knot of an ordered curve the result is the knot's limit, despite integer division. |
| PowerCurve.BetweenNeighbours | runtime/daemon/power_manager.cpp:695-707 | Between two neighbouring knots the result lies between their limits, on rising and falling segments. |
| PowerCurve.RisingCurveIsMonotone | runtime/daemon/power_manager.cpp:686-710 | On a rising curve up to 100 the result is monotone in utilisation across all segments and at most 100. |
| PowerCurve.SegmentBounds | runtime/daemon/power_manager.cpp:699-706 | On one segment, rising or falling, the interpolated value meets both ends, stays between them and needs no 8-bit wrap-around. |
| PowerCurve.DistanceToLine | runtime/daemon/power_manager.cpp:699-706 | The interpolated value is less than one unit from the straight line through the two knots, below it where the curve rises and above it where it falls. |
| PowerCurve.CurveFollowsLine | runtime/daemon/power_manager.cpp:686-710 | An ordered curve gives the rounded line of the segment the utilisation lies in, the first or last limit outside, and 100 when empty. |
| PowerCurve.InterpolatePowerLimit | runtime/daemon/power_manager.cpp:686-710 | The loop computes the segment-wise limit for every curve, ordered or not, and 100 for an empty one. |
| Dispatcher.FindAvailableGpu | kernel/mvgal_scheduler.c:235-263 | Returns an enabled, available GPU of the mask, the first of the least utilised such GPUs, and none exactly when there is none below INT_MAX. |
| Dispatcher.ClassOf | kernel/mvgal_scheduler.c:107-116 | Class c holds the priorities from 4 c to 4 c + 3, everything above 15 counting as 15. |
| Dispatcher.ByClassIsStableSort | kernel/mvgal_scheduler.c:184-189 | Taking the classes from high to low puts the more urgent quarter of the priority range first and keeps the order of arrival within each quarter. |
| Dispatcher.StableSortIsPermutation | kernel/mvgal_scheduler.c:184-229 | A stable sort contains every workload exactly as often as the input. |
| Dispatcher.StableSortIsUnique | kernel/mvgal_scheduler.c:184-229 | There is only one stable sort of a sequence of workloads. |
| Dispatcher.DrainEndsIffAllMatch | kernel/mvgal_scheduler.c:188-202 | With a fixed GPU list, the drain of one queue with its retries ends if and only if every workload has a suitable GPU. |
| Dispatcher.FixedPassEndsIffAllMatch | kernel/mvgal_scheduler.c:177-230 | With a fixed GPU list a whole pass ends if and only if every pending workload has a suitable GPU, and a pass that ends has served them all in the stable priority order. |
| Dispatcher.StraightPass | kernel/mvgal_scheduler.c:177-230 | With a GPU list that may change at every turn, a pass goes through without a failed turn if and only if, in the stable priority order, each workload finds a suitable GPU at its own turn; it then ends and serves exactly that order. |
| Dispatcher.TurnsConserve | kernel/mvgal_scheduler.c:188-202 | After any turns, served and still queued workloads together are those of the original queue, each as often. |
| Dispatcher.DrainKeepsOrderIff | kernel/mvgal_scheduler.c:188-226 | Under any changes of the GPU list, a drain serves different workloads in queue order if and only if each success comes after a number of failed tries divisible by the length of the queue at that moment. |
| Dispatcher.PassOrder | kernel/mvgal_scheduler.c:184-229 | A pass that ends serves every workload once, the more urgent quarter of the priority range first; different workloads come out in the stable priority order if and only if in every class each success comes after a whole number of failed rounds. |
| Dispatcher.Scheduler.Submit | kernel/mvgal_scheduler.c:99-129 | Appends the workload, priority clamped to 15, to the queue of its class, keeping arrival order. |
| Dispatcher.Scheduler.Drain | kernel/mvgal_scheduler.c:186-228 | The loop with its retry branch, under a changing GPU list: whenever it ends it has served the queue in the order of the retry rule, each workload on the first least utilised eligible GPU of its own turn, signaled with the vendor's result. |
| Dispatcher.Scheduler.DrainAll | kernel/mvgal_scheduler.c:184-229 | The outer loop, from the highest class down, empties all queues, each class starting where the previous one stopped. |
| Dispatcher.Scheduler.Dispatch | kernel/mvgal_scheduler.c:177-230 | If in the stable priority order each pending workload finds a suitable GPU at its own turn, the pass ends, empties the queues and signals the workloads, those of a more urgent quarter first and those of one quarter in order of arrival, each on the first least utilised eligible GPU of its turn. |
| Dispatcher.Scheduler.DispatchFixed | kernel/mvgal_scheduler.c:177-230 | If the GPUs do not change and every pending workload has a suitable one, the pass ends, empties the queues and signals the workloads, those of a more urgent quarter first and those of one quarter in order of arrival. |
| Dispatcher.Scheduler.DispatchWithRetries | kernel/mvgal_scheduler.c:177-230 | The same pass with any number of retries, whenever it ends: empty queues, every pending workload signaled once, in the order PassOrder describes. |
| XorChecksum.ChecksumXor | include/mvgal/mvgal_network.h:340-347 | The byte loop computes the XOR of the little-endian words of the zero-padded data. |
| XorChecksum.ChecksumIsXorOfWords | include/mvgal/mvgal_network.h:340-347 | For every byte string the bytewise checksum equals the XOR of its padded words. |
| XorChecksum.ChecksumLanes | include/mvgal/mvgal_network.h:340-347 | The checksum is the four byte lanes side by side, each the XOR of every fourth byte. |
| XorChecksum.ChecksumOfConcat | include/mvgal/mvgal_network.h:340-347 | The checksum of a concatenation split at a word boundary is the XOR of the two checksums. |
| XorChecksum.CollisionIffLanesAgree | include/mvgal/mvgal_network.h:340-347 | Two strings collide if and only if the XOR of their bytes agrees in each of the four lanes. |
| XorChecksum.ShortErrorsAreDetected | include/mvgal/mvgal_network.h:340-347 | Any change confined to four consecutive bytes of a string of the same length changes the checksum. |

## Left out

- NT timers: their state lives in the kernel's timerfd; `mvgal_nt_timer_*` and the timer arm of the multi-wait are not modelled.
- Object creation failures and NULL handles of single-object calls: out-of-memory paths and immediate -1 returns.
- Destroying an object that is in use, and data races as undefined behaviour: each plain access to a racing field is taken as one indivisible step.
- NtMutex: the interleaved machine is on values; the class covers the steps that write several fields, the remaining steps are single reads or moves of a program counter.
- NtMultiWait.InspectPass: models one pass without interference; whole calls, with interference and the deadline, are the machine of that module.
- `updatePeerState`, an unrestricted setter, and `finiNetworkDiscovery`, which clears the table without closing its sockets, are not events of the runs.
- `removeRemoteGpu` and `updateRemoteGpuHealth`: nothing in the protocol calls them.
- Remote GPU registration without a daemon object (`m_daemon` null), where nothing is registered, and the constant capability fields of a remote GPU.
- Sending datagrams, sockets, poll, thread creation and the timing of the discovery loop: environment.
- FramePacer: 64-bit overflow of times and counters, `get_stats`, and the `enabled` flag, which creation sets and nothing clears.
- DVFS and thermal start, stop and disabled states, and the vendor call that powers a GPU off at the critical temperature.
- DvfsThermal.Gpu.ThermalWork: signed 32-bit overflow in the throttle computation is excluded, being undefined in C.
- Two threshold changes at the same time, which could leave the throttle temperature of one with the critical temperature of the other.
- PowerBudget.PowerManager.DistributePower: indices of 8 or more are excluded, since the code writes outside its array for them.
- PowerBudget.GrantsSumToAllocationIffDistinct: lists of 2^32/15 indices and more are excluded, for which the divisor itself wraps.
- PowerBudget.AllocationWithinBudgetIffFloorFits: is for the documented priorities up to 15, the others being covered by AllocationWithinBudgetIff; lists for which 50 W per GPU do not fit in 32 bits are excluded from both.
- Power budget calls before initialisation, which return an error, and the getter.
- IdleManager: energy and time statistics, the WARN and HOT labels of the thermal state, and explicit `setPowerState` calls.
- Fan curves, PSU headroom, the daemon's own frequency scaling and `applyPowerCurves`.
- Dispatcher.Scheduler.Dispatch: workloads arriving during the pass are not modelled.
- Dispatcher.Scheduler.Drain: speaks of drains that end, given by the log of their turns, as do DrainAll and DispatchWithRetries; FixedPassEndsIffAllMatch and StraightPass say when passes end.
- Dispatcher.Scheduler.DrainAll: see Drain.
- Dispatcher.Scheduler.DispatchWithRetries: see Drain.
- Kernel ioctl handling, device enumeration, memory and fence code, the vendor back ends, and the user-space tools, bindings and layers: plumbing, stubs, or only easy facts.
