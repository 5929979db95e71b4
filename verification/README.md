# A model of rs-matter-stack

`rs-matter-stack` assembles the `rs-matter` crate into a Matter device: it boxes its big futures in
a bump arena, runs the stack over Ethernet, Wi-Fi or Thread, commissions the device over BLE, keeps
mDNS in step with the network interface and wraps a random generator that is seeded anew from time
to time. This project models the four parts of it whose correctness is not visible from any one
function, and proves what they are there for.

* **The bump arena** (`placement.dfy`, `arena.dfy`, `bump.dfy`; source `src/bump.rs`). Clients of the
  arena cannot tell it from a plain heap, over every interleaving of reserving, constructing, writing,
  reading, dropping and resetting, from every base address. The arena runs out of memory exactly when
  no in-order placement fits; an arena as large as the sizes plus worst paddings serves every order in
  which nested futures can be polled. What a client may do, and what it reads, is also said in terms of
  its own operations alone.
* **The life of a run** (`run_lifecycle.dfy`; `src/eth.rs`, `src/wireless/wifi.rs`,
  `src/wireless/thread.rs`). Any number of callers of `run`, left in any way, reset the arena only
  while no box is live and while they hold the run lock; so the arena stays a plain heap across runs,
  and a box that does not fit does no more than unwind the call that wanted it. Boxes that fit are never
  refused: an Ethernet run gets to box its whole tree of futures; and every call can be left from
  wherever it stands.
* **Commissioning** (`comm_window.dfy`, `handover.dfy`; `src/wireless.rs`, `src/wireless/*.rs`,
  `src/lib.rs`). Waiting for the commissioning window loses no wakeup; BLE follows the device's own
  windows; the store is loaded by the first Interaction Model only; the deferred connect is fresh and
  finds its credentials; the radio does not bounce; a run can make exactly as many BLE phases as fit.
  Nothing gets stuck: a quiet window lets every watcher settle, and a run can always go on.
* **Reseeding** (`reseeding.dfy`; `src/rand/reseeding.rs`) and **mDNS** (`netif.dfy`; `src/lib.rs`).

`lts.dfy` holds the labelled transition systems in which the protocols are written: a label carries
all the nondeterminism of a step, so a theorem about all label sequences is about every schedule,
every environment and every failure. What works on fields and buffers in the source is a class here,
and its methods are proved against the functions that the theorems are about.

## Where the code and its remarks part

The model follows the code. Five remarks or expectations go further than the code does; each has a
lemma with a run that shows it, next to the exact condition under which it holds.

* "`is_prov_ready()` is true only in this pending non-concurrent case" (`src/wireless/thread.rs:573-577`).
  A network switch in an operational phase makes the next one perform a "deferred" connect, with no BLE
  phase ever: `Handover.ConnectWithoutBle`. The connect is made exactly when the latest verdict since
  the latest BLE reset is a ready one: `Handover.DeferredConnectIsFresh`. It is that of a pending
  commissioning exactly if there was no scan or connect outside BLE since the latest BLE phase began, or
  since boot: `Handover.ConnectIsPendingExactlyIf`; so right after a BLE phase it always is:
  `Handover.ConnectAfterBleIsPending`.
* The radio is handed back for the *next* window only (`src/wireless/thread.rs:627-631`). A task of the
  operational phase that returns without an error sends the loop back to BLE for the window it has just
  left, in the middle of a commissioning: `Handover.WindowCanBounce`; exactly if that window has not
  closed by then: `Handover.BouncesExactlyIf`.
* "The peripheral stays down" for a window opened over CASE (`src/wireless.rs:799-801`). Not if that
  window opens before the loop has noticed that the one before closed:
  `CommWindow.MissedClosingMisleadsBle`. The loop is right exactly if the window was not closed since the
  read it acts on, or the present one is of the same kind: `CommWindow.BleFollowsOwnWindow`.
* The flag `im_hydrated` is set before loading, so a startup that is dropped is never made up for in
  this boot: `Handover.StartupCanBeLost`. The store can still be loaded exactly if no Interaction Model
  has started or one is loading: `Handover.InterruptedStartupIsFinal`.
* "`threshold` of 0 means never reseed" (`src/rand/reseeding.rs:55`). It means not before `i64::MAX`
  bytes. Without manual reseeds there is a periodic one exactly if the requests before the last come to
  that: `Reseeding.ThresholdZeroReseeds`; with them, a request makes one exactly if those since the counter
  was last set do: `Reseeding.ReseedsExactlyWhenDue`.

## Assumptions about code outside the repository

* `slice::align_to_mut` takes the least leading part and as many whole items as fit.
* A subscription to window changes fires for every change made after it; the opener of a window does
  not change while it is open; a window is replaced by another only through being closed.
* A verdict is ready if it records success and names a network. Of this the proofs only use that a
  cleared verdict is not ready. Verdicts are written by scans and connects only.
* The networks store is a map. Loading replaces it, in any number of steps with any contents; commands
  set or remove one network, a factory reset empties it.
* A Wi-Fi or Thread driver runs the task it is handed at most once per phase. It may return without
  having run it.
* The deferred connect may end in any way and leave any verdict. This allows more than the code does,
  which fails before it connects if the network is not in the store.
* Boxes do not outlive the box or frame that owns them (no `mem::forget` of the futures), and dropping a
  future drops what it owns.

## Model

| member | source | states |
|---|---|---|
| Placement.BumpEndsFirst | src/bump.rs:159-195 | no in-order, aligned, non-overlapping placement of the same requests ends before the one the allocator makes |
| Placement.OutOfMemoryIffNothingFits | src/bump.rs:274-277 | the allocator panics exactly when no in-order placement fits into the arena |
| Placement.NoPollOrderPanics | src/bump.rs:163-194 | a capacity of sizes plus worst paddings serves every subset of the boxes in every order from every base address; less than the sizes of all boxes serves no order of them |
| Placement.OffsetWithinBudget | src/bump.rs:186-191 | the offset lies between the sum of sizes and that sum plus one pad, smaller than the alignment, per request |
| Placement.RepeatedGrowth | src/bump.rs:186-191 | allocations of one type need one leading pad and nothing but their sizes after it |
| Placement.CapacityExact | src/bump.rs:274-277 | the exact number of allocations of one type that succeed from an offset on |
| BumpAllocator.AlignMin | src/bump.rs:266-292 | it panics exactly when the items do not fit; otherwise both splits agree, the three assertions hold, and the pieces partition the buffer; zero-size types take nothing even from an empty one |
| BumpAllocator.Bump.ReserveSlot | src/bump.rs:159-195 | the slot and the new offset are those of the specification; on a panic nothing has changed |
| BumpAllocator.Bump.AllocWith | src/bump.rs:136-156 | reserving and constructing in place, as the specification says |
| BumpAllocator.AllocationIsLocal | src/bump.rs:136-156 | the new box holds its value, apart from every box handed out before, and each of those keeps its own value |
| BumpAllocator.Bump.WriteBox | src/bump.rs:222-226 | a write through a box changes the bytes it names and no others |
| BumpAllocator.Bump.ReadBox | src/bump.rs:214-220 | a read through a box returns its bytes |
| BumpAllocator.Bump.Reset | src/bump.rs:66-68 | the offset goes back to 0 and no byte of the arena changes |
| BumpAllocator.Bump.BoxHandlers | src/lib.rs:790-816 | the handlers of a responder are boxed back to back, aligned, inside the arena, apart from each other and from all there was; it panics exactly when they do not fit |
| BumpAllocator.EthRunNeverPanics | src/eth.rs:395-418 | an arena size that is enough for an Ethernet run in every poll order |
| Arena.StepRefines | src/bump.rs:136-237 | one step of the arena does what the plain heap does, or is an allocation that does not fit |
| Arena.ArenaRefinesHeap | src/bump.rs:136-237 | over every allowed run all live slots are aligned, inside the arena, below the offset and disjoint, and every read returns what was last written to that box |
| Arena.OnlyExhaustionStops | src/bump.rs:274-277 | nothing but an allocation without room for it ever stops an allowed run |
| Arena.ResetUnderLiveBoxCorrupts | src/bump.rs:58-68 | the contract of `reset` is needed: resetting under a live box lets the next box overwrite it |
| RunLifecycle.EveryBoxIsUnderTheRoot | src/wireless/thread.rs:171-176 | whoever still has a root box owns, through it, every live box |
| Arena.HeapAdmitsExactly | src/bump.rs:136-237 | the plain heap allows exactly what the client's own operations so far entitle it to: using what it reserved, built and did not drop, within bounds |
| Arena.ReadsReturnLastWritten | src/bump.rs:214-226 | a box that may be read can be read from the arena, and each byte that comes back is the last one put there |
| RunLifecycle.NothingLiveAtGuard | src/wireless/wifi.rs:163-167 | in every state in which a guard is about to run no box is live and its call holds the run lock |
| RunLifecycle.ResetOnlyWhenNothingIsLive | src/wireless/thread.rs:156-177 | for all callers, schedules and exits: the arena is reset only with no box live and the run lock held before and after |
| RunLifecycle.HeapSurvivesAllRuns | src/eth.rs:293-311 | all operations of all runs of all callers together are a run of the plain heap, which the real arena, stepped along, refines at every moment; so every read in every run is right |
| RunLifecycle.OnlyFullArenaUnwinds | src/bump.rs:274-277 | using a box goes through wherever the plain heap allows it; boxing goes through or, exactly if there is no room, unwinds the call and leaves the arena as it was |
| RunLifecycle.BoxingGoesThrough | src/eth.rs:395-414 | in every reachable state a running call can box a future inside any live box; if it fits, the new box is live and owned by that one |
| RunLifecycle.BoxesCanBeDropped | src/bump.rs:228-237 | any box but the root can be dropped, with just what it owns |
| RunLifecycle.RootNeedsTransport | src/eth.rs:303-308 | a call boxes its root only after resetting the transport without an error |
| RunLifecycle.EveryCallCanEnd | src/wireless/thread.rs:156-177 | from wherever it stands a call can be left and unwound with nobody's help; then the lock is free and the arena whole |
| RunLifecycle.CallsCanBegin | src/wireless/wifi.rs:156-177 | a call waiting for a free run lock gets to boxing its root |
| RunLifecycle.EthRunBoxesItsTree | src/eth.rs:395-418 | after any history, a run in an arena with room boxes all the futures of the source, each inside the one that boxes it there |
| RunLifecycle.NoPollOrderUnwinds | src/lib.rs:719-722 | in any reachable state of all callers a box fits, and its call is not unwound, if it and those boxed since the latest reset are among boxes whose sizes plus worst paddings the arena holds |
| RunLifecycle.EthRunNeverUnwinds | src/eth.rs:395-418 | the same for the ten kinds of boxes of an Ethernet run and any number of handlers |
| RunLifecycle.EveryRunStartsWithTheWholeArena | src/eth.rs:297-308 | a run about to box its root, and an idle stack, have the whole arena, however earlier runs ended |
| CommWindow.NoLostWakeup | src/wireless.rs:874-890 | a watcher asleep with no signal pending is not waiting for the current state, and cannot move; what it returns satisfies its predicate and held during the call |
| CommWindow.WatcherSettles | src/wireless.rs:874-890 | once nothing changes any more, a watcher goes on of itself until it sleeps or resolves, and resolves if the present state is awaited |
| CommWindow.SwappedWatcherOversleeps | src/wireless.rs:879-882 | reading before subscribing can sleep over the awaited state, whatever it is; the order in the code is needed |
| CommWindow.WaitCommWindow | src/wireless.rs:874-890 | the loop, with changes at every point of it, runs as the watcher does, lives through exactly the changes up to where it ends, and ends resolved, or asleep after all of them and rightly so |
| CommWindow.WaitNextCommWindow | src/wireless.rs:845-850 | it resolves only after seeing no all-transport window and later one; asleep, it has lived through all the changes and waits for what is not there |
| CommWindow.PeripheralStartsOnlyForOwnWindow | src/wireless.rs:807-820 | the peripheral is started exactly by a test, in the wait for any window, of a state without an opener that the window really had since the subscription of that round |
| CommWindow.BleFollowsOwnWindow | src/wireless.rs:790-833 | asleep with a running peripheral means a window is open; asleep, running is the same as open on all transports if and only if the window was not closed since the read the loop acts on, or the present one is of the same kind as the one read then |
| CommWindow.GateSettles | src/wireless.rs:797-832 | once nothing changes any more the loop goes on of itself until it sleeps, waiting for a window exactly if there is none |
| CommWindow.OnlyPeripheralErrorsEndTheLoop | src/wireless.rs:820-828 | the loop ends exactly on an error of a running peripheral; one that returns without an error sends it back to waiting |
| CommWindow.MissedClosingMisleadsBle | src/wireless.rs:799-815 | after one missed closing the peripheral can run for a window opened over CASE, or be off for one of the device's own |
| Handover.StackFields.ResetNetCtlState | src/wireless.rs:861-869 | it clears the verdict, after which it is not ready, and nothing else |
| Handover.StackFields.StartupIm | src/lib.rs:732-746 | the first call leaves in the store what was loaded last and reports the outcome; no other call touches the store; the flag stays set whatever becomes of the loading |
| Handover.OnlyTheFirstLoads | src/lib.rs:732-746 | an Interaction Model loads the store exactly if none was started before it, in any run or phase |
| Handover.HydratesAtMostOnce | src/lib.rs:255-270 | once a second one has started nothing loads the store again |
| Handover.InterruptedStartupIsFinal | src/lib.rs:741-745 | some continuation loads the store if and only if no Interaction Model has started yet or one is loading |
| Handover.StartupCanBeLost | src/lib.rs:741-745 | a run from boot that is dropped during its first startup, with the store as it was at boot and no continuation that loads it |
| Handover.StartupInSteps | src/lib.rs:732-746 | a run that starts up step by step ends where `StartupIm` does |
| Handover.StoreIsLastWritten | src/lib.rs:265-269 | over all runs and phases the last load, command about it or factory reset decides what the store holds for a network, and nothing else touches it |
| Handover.LastLoadStands | src/lib.rs:743-745 | a load that no command and no reset followed is what the store holds |
| Handover.LastCommandStands | src/lib.rs:265-269 | the last command about a network decides what the store holds for it, whatever runs, concurrent ones included, and startups came between |
| Handover.DeferredConnectIsFresh | src/wireless/thread.rs:578-589 | the one-shot connect to a network is made exactly if the latest verdict since boot and since the latest BLE reset is ready and names it |
| Handover.DeferredConnectFindsCredentials | src/wireless/wifi.rs:557-568 | the credentials it looks up are those of the last command about that network |
| Handover.DeferredConnectLooksUpStore | src/wireless/thread.rs:578-588 | whatever the history, it names a network and looks up what the store holds for that |
| Handover.ServesOnlyConnected | src/wireless/thread.rs:583-589 | an operational phase serves only if the connect it owed was made and succeeded |
| Handover.FailedConnectEndsRun | src/wireless/thread.rs:588 | a failed connect ends the run and leaves its verdict, a successful one leads to serving |
| Handover.ConnectAfterBleIsPending | src/wireless/thread.rs:573-577 | right after a BLE phase the connect replays the latest verdict, which was written in that very phase |
| Handover.ConnectIsPendingExactlyIf | src/wireless/thread.rs:573-577 | a connect replays a ready verdict of the latest BLE phase if and only if there was no scan or connect outside BLE since that phase began, or since boot |
| Handover.ConnectWithoutBle | src/wireless/thread.rs:575-577 | a device that never had a BLE phase can perform a "deferred" connect |
| Handover.BleEndsOnItsOwnVerdict | src/wireless.rs:852-869 | a BLE phase that ends for readiness had a ready verdict of its own, none left over from an earlier commissioning |
| Handover.BleEndsOnItsOwnWindow | src/wireless.rs:754-763 | a BLE phase that ends for want of a window saw that want during itself |
| Handover.OperEndsOnNextWindow | src/wireless.rs:845-850 | an operational phase that ends for the next window saw, during itself, no window of the device's own and later one |
| Handover.RunsCanGoOn | src/wireless/thread.rs:229-281 | from wherever it is a run can reach its next decision without being stopped |
| Handover.RunsStartExactlyIf | src/wireless/thread.rs:171-176 | a run starts if none is under way and reaches a decision exactly if its root future fits |
| Handover.NoRadioBouncing | src/wireless/wifi.rs:228-269 | with operational phases ended only by the watcher, BLE phases have distinct, ever later windows, and are no more than the times the device opened one for itself |
| Handover.BouncesExactlyIf | src/wireless/thread.rs:624-642 | the loop returns to BLE for the same window exactly if the phase was ended by a task of its own without an error and that window never closed, the winding up after the phase included |
| Handover.WindowCanBounce | src/wireless/thread.rs:627-631 | a run from boot in which a commissioner handed over the credentials and the radio returns to BLE for the same window |
| Handover.ArenaGrowthIsExact | src/wireless.rs:746-749 | after k BLE phases (but for those the driver skipped) the offset of a non-concurrent run is that of the root box, one leading pad and k peripheral futures, and k is at most the number that fit |
| Handover.PeripheralPanicsExactlyAt | src/bump.rs:186-191 | BLE phase number k panics when it boxes its peripheral exactly if k - 1 futures are all that fit |
| Handover.PhasesPossibleIffTheyFit | src/wireless/thread.rs:229-281 | some run makes k BLE phases, each for a window of its own, if and only if k peripheral futures fit |
| Handover.WindowsBoundMemory | src/wireless/thread.rs:229-281 | an arena with room for as many peripheral futures as windows were opened never fails a run that does not bounce |
| Reseeding.ReseedingRng.New | src/rand/reseeding.rs:56-71 | the object has the first seed and the clamped threshold; there is none exactly if seeding fails |
| Reseeding.ReseedingRng.Reseed | src/rand/reseeding.rs:74-79 | success replaces generator and counter; failure leaves both and is reported |
| Reseeding.ReseedingRng.ReseedAtThreshold | src/rand/reseeding.rs:92-102 | failure keeps the generator and restarts the counter |
| Reseeding.ReseedingRng.Generate | src/rand/reseeding.rs:83-127 | generator and counter after a request, without overflow of the 64-bit counter |
| Reseeding.ReseedingRng.Clone | src/rand/reseeding.rs:137-149 | the copy has the same generator and will reseed on first use |
| Reseeding.CounterNeverOverflows | src/rand/reseeding.rs:57-89 | over every run the counter stays in range and equals the threshold less the bytes asked for since it was set |
| Reseeding.ReseedsExactlyWhenDue | src/rand/reseeding.rs:83-89 | a request reseeds exactly when the bytes since the last setting reached the threshold, or on first use of a clone, and changes the generator exactly when seeding succeeds |
| Reseeding.ReseedRate | src/rand/reseeding.rs:22-30 | bounds from both sides on how often a whole run reseeds, with manual and failing reseeds anywhere |
| Reseeding.PeriodicExactlyIf | src/rand/reseeding.rs:56-71 | for every threshold: without manual reseeds a periodic one was made by the end of any list of requests if and only if all but the last come to that threshold, or to `i64::MAX` if it is 0 or more than that |
| Reseeding.CloneReseedsFirst | src/rand/reseeding.rs:137-149 | the first request to a clone makes a periodic attempt and is answered by the new generator, or by the old one if that fails |
| Reseeding.BytesAreCounted | src/rand/reseeding.rs:112-127 | the bytes counted are the bytes answered, and those asked of a generator that failed |
| Reseeding.NewIsSplicedFromSeeds | src/rand/reseeding.rs:56-71 | the generators of a new wrapper are those of all successful seedings from the first on |
| Reseeding.ThresholdZeroReseeds | src/rand/reseeding.rs:55-61 | with a threshold of 0 and no manual reseeds, a periodic one was made by the end of any list of requests if and only if all but the last come to `i64::MAX` bytes |
| Reseeding.ThresholdZeroIsQuiet | src/rand/reseeding.rs:55-61 | with manual reseeds anywhere, none is made before that many bytes |
| Reseeding.OutputIsSpliced | src/rand/reseeding.rs:74-127 | the answers of any run are those of the successively seeded generators to consecutive parts of the requests, without loss or repetition |
| Netif.NetifState.Load | src/lib.rs:553-590 | from any dirty buffer, the loaded state is that of the specification; only the old index can survive |
| Netif.NetifState.LoadAddrs | src/lib.rs:565-578 | the buffer ends up with the first four usable addresses |
| Netif.LoadedIsLastQualifying | src/lib.rs:562-589 | the last qualifying interface decides; without one the state is cleared but for the index |
| Netif.LoadedFromLast | src/lib.rs:562-585 | the loaded state has the index, MAC and first IPv4 address of the last operational interface with IPv6, and the first four of its distinct specified IPv6 addresses |
| Netif.LoadedFromNone | src/lib.rs:557-560 | with no such interface every field is cleared but the index |
| Netif.UsableIsTheOnlyOne | src/lib.rs:566-569 | the usable addresses are the only sequence that holds each specified address once, in order of first occurrence |
| Netif.WaitChanged | src/lib.rs:592-614 | it ends with a state that differs from the current one, on an error, or sleeps with the current state loaded |
| Netif.RunOperNetifMdns | src/lib.rs:620-664 | the configurations of mDNS are the loaded snapshots without consecutive repeats; when parked the active one is the last loaded |
| Netif.HistoryTracksLoads | src/lib.rs:623-663 | neighbouring configurations differ, after each load the active one is what was loaded, and mDNS is restarted exactly when a load differs from the one before |

## Left out

- The phases and `run` itself are written as transition systems rather than methods, because what matters in them is the interleaving with other callers, the commissioner and the window.
- Wi-Fi and Thread are modelled once; their loops and tasks differ in names only.
- Closures of `alloc_with`: construction is a separate step, so whatever they allocate comes between; Dafny has no closures that change state. `BumpAllocator.Bump.AllocWith` is the case of one that allocates nothing.
- Pinning, the mutex inside `Bump`, uninitialised memory and Rust's aliasing rules: memory is bytes, and each operation on the arena is one step.
- Order of drops within a subtree of boxes: a subtree is dropped in one step.
- The concurrent (`run_coex`) run appears in the handover model only for what it does to the shared state. Its tree of boxes is covered by `RunLifecycle.NoPollOrderUnwinds`, not spelled out like the Ethernet one.
- What a scan, a connect, BTP, the Interaction Model or a driver does; timers (any delay); sockets, GATT and mDNS back ends.
- Fair scheduling: that a task which can go on is in the end let go on, and with that, that every window gets its BLE phase.
- Whether a change of the network interface between loading its state and waiting for a change is noticed depends on the platform's notification, which is not part of this model.
- `WirelessNetCtl`, `RngAdaptor`, the forwarding implementations, feature-selected constants (parameters here), formatting and logging.
- Random generators and their seeding: any functions; `u64` and `usize` are naturals with their bounds where they matter.
