# Verified models of Buck2's hard parts

This project models the parts of the Buck2 repository whose correctness is hard to see from the
code: search, concurrent protocols, sharing-preserving encodings, sweep lines and invertible
printers. Each part is a model of what the code does, stated in Dafny, with proofs for every input,
every run or every interleaving. `dafny verify dfyconfig.toml` checks all of it.

| files | part of the repository |
|---|---|
| `SokobanGrid`, `SokobanState`, `SokobanSearch`, `SokobanSolutions`, `SokobanRoom`, `SokobanLevel`, `Layers` | the Sokoban level generator: room carving, flood fills, canonical states, and the layered reverse search whose levels are promised to be solvable |
| `PagableArc`, `PagableArcObjects`, `PagableArcSteps`, `PagableArcRaces`, `PagableArcFailures`, `PagableArcAlone` | the pin/evict protocol of `PagableArc`: completed operations as a specification and as objects, then every interleaving of atomic and locking steps, the three windows in which the protocol can be overtaken, from where its failures can be reached, and that an operation nobody interrupts is the completed one |
| `HostSharing`, `HostSharingBroker` | the host-sharing broker: permits, the order tokens are taken in, and any number of requests under any schedule |
| `ArcSerializer`, `ArcSerializerObjects`, `ArcSerializerSizes` | the inline arc serializer, which writes each shared allocation once |
| `DeferredValue`, `DeferredLoads` | on-demand fields and the arc cache behind them, as steps of any number of threads |
| `ActionParallelism` | the concurrency distribution of a build |
| `FlameGraphs`, `FlameArena`, `FlameBuilder`, `FlameStacks`, `FlameConservation`, `FlameBuilderObjects` | the memory flame graph: merging, the tree arena, the stack-of-stacks builder and what its totals mean |
| `PrepareAll`, `ConsoleOutput` | the batch worker pool and the non-blocking console output |
| `StableNames`, `FormatMarkers` | composed type names, and the marker rewrite of the formatter script |
| `Options` | the option type they share |

How the source is read:

- Concurrency is sequentially consistent: a protocol is a function from a state and a step to the
  next state, `None` where the step is not possible; theorems quantify over every sequence of steps.
  A panic is an outcome of its own, never a precondition on the step systems.
- State that the source updates in place is a class whose methods are proved against those
  functions; loops stay loops.
- Random draws, the clock, storage contents, write errors and the schedule are inputs, so results
  hold for all of them.
- Integers are unbounded except where the source checks for overflow (`ActionParallelism.Window`).

Where the code does not do what its documentation says, the model follows the code, shows a run or
an input on which they part, and proves when they agree:

- Two releases of a keyless `PagableArc` that overlap can panic, although each holds its own pin
  (`PagableArcRaces.DocumentedOperationsCanPanic`). A panicking run exists from exactly those states
  in which no key is set or about to be set (`PagableArcFailures.PanicReachableIff`).
- Page-in drops its lock before counting its pin, so an eviction can leave a counted pin on a
  paged-out value (`PagableArcRaces.PageInGapReachable`). `pin` sets the handle's flag before adding
  its pin, so a concurrent `unpin` of the same handle can release that pin before it is added. The
  assertion of the pending `pin` can then fail if and only if its thread owns no second pin
  (`PagableArcFailures.OvertakenPinFailsIff`). A run is safe throughout if and only if no step
  overtakes a page-in or a pin in these two places (`PagableArcRaces.UndisturbedIff`).
- Concurrent callers for one key are promised to page it in once between them. They do in every run
  that keeps the cache entry (`DeferredLoads.PagedInOnce`); if it is dropped meanwhile, a second
  thread pages the key in beside the first (`DeferredLoads.LostEntryPagesTwice`).
- A flame graph's total exceeds the memory visited by what is entered inline under stacks that are
  also entered as unique pointers, and by what nodes declared smaller than their inline children are
  missing. The total is the memory visited if and only if no stack is entered in both ways with
  something inside, and no stack is smaller than what is entered inside it
  (`FlameBuilderObjects.BuildFlameGraph`, `FlameConservation.FitsIff`).
- `prepare_all` sizes batches to keep its tasks busy, but for some short lists tasks are missing
  although there are items for them (`PrepareAll.EveryTaskBusyIff`, `PrepareAll.SeventeenItems`).
- A frame passed to `output` is not shown when that call returns an earlier write's error
  (`ConsoleOutput.OutputFailsIff`).
- The formatter's internal form and back is the identity exactly on the lines `FormatMarkers.Exported`
  describes; a line with both markers is not one of them (`FormatMarkers.BothMarkers`).

## Model

| member | source | states |
|---|---|---|
| SokobanState.CornerEqualIffReach | games/bin/sokoban_gen.rs:288-314 | two players get the same canonical cell exactly when one can walk to the other |
| SokobanState.Spread | games/bin/sokoban_gen.rs:302-311 | one round of a flood fill adds exactly the free unvisited neighbours, to the visited set and to the queue |
| SokobanState.Flood | games/bin/sokoban_gen.rs:340-361 | a flood fill lists exactly the cells walkable from its start, each once |
| SokobanState.NormalizePlayer | games/bin/sokoban_gen.rs:288-314 | the result is the top-left-most cell the player can walk to |
| SokobanState.Sort | games/bin/sokoban_gen.rs:317-318 | sorting gives an ordered arrangement of the same boxes |
| SokobanState.SortedUnique | games/bin/sokoban_gen.rs:317-318 | there is only one ordered arrangement of given boxes |
| SokobanState.MakeState | games/bin/sokoban_gen.rs:316-325 | a state is the ordered boxes and the canonical player cell |
| SokobanState.StatesEqualIff | games/bin/sokoban_gen.rs:316-325 | two positions get equal states exactly when they hold the same boxes and their players are mutually reachable |
| SokobanSearch.PushesUndoPull | games/bin/sokoban_gen.rs:384-424 | as many pushes as pulls bring a pulled box back, with the player where the pull began, by legal moves of the forward game |
| SokobanSolutions.PushIsPull | games/bin/sokoban_gen.rs:384-424 | the converse: a straight run of pushes of one box from any position is a box line of the reverse search read backwards |
| SokobanSearch.PulledStateValid | games/bin/sokoban_gen.rs:334-430 | a box line leads from a valid state to a valid state with as many boxes |
| SokobanSearch.PulledStateSolvable | games/bin/sokoban_gen.rs:334-430 | a state one box line away from a solvable state is solvable by walking and pushing |
| SokobanSearch.LinesFromSolvable | games/bin/sokoban_gen.rs:22-23 | every state any number of box lines away from a solved position can be solved |
| SokobanSolutions.SolutionIsPulls | games/bin/sokoban_gen.rs:327-430 | every solution in n box lines of the forward game, whatever walking lies between them, is n box lines of the reverse search from a solved state |
| SokobanSolutions.PullsAreSolution | games/bin/sokoban_gen.rs:327-430 | and every state n box lines from a solved one has a solution in n box lines |
| SokobanSearch.PullLine | games/bin/sokoban_gen.rs:384-424 | the pull loop yields one state for every distance the box can be pulled, and no other |
| SokobanSearch.PullBox | games/bin/sokoban_gen.rs:362-425 | with the checks before the loop, exactly the box lines of one box in one direction |
| SokobanSearch.ExpandBoxLines | games/bin/sokoban_gen.rs:334-430 | the expansion of a set of states is exactly the set of states one box line away |
| SokobanSearch.MakeStartSet | games/bin/sokoban_gen.rs:443-480 | the start set holds one state per region that the boxes on the goals leave |
| Layers.NextLayer | games/bin/sokoban_gen.rs:493-512 | the unseen part of a layer's expansion is exactly the states one step further, by shortest distance |
| Layers.EmptyLayerEnds | games/bin/sokoban_gen.rs:504-506 | after an empty layer nothing new is reachable |
| SokobanSearch.FindFarthest | games/bin/sokoban_gen.rs:436-519 | for any grid, goals and early stop: the states returned at depth d are exactly those d box lines from a solved position and no fewer, every one is solvable, no deeper layer within the time exists, and nothing is returned only if no layer was reached |
| SokobanSolutions.DepthIsLeastLines | games/bin/sokoban_gen.rs:436-519 | so the depth the search gives a state is the least number of box lines in any solution of it |
| SokobanRoom.Carve | games/bin/sokoban_gen.rs:42-77 | the carved room is walls in the border templates, and in every other template exactly the cells its draw opens: none, all four, the upper, lower, left or right two |
| SokobanRoom.LargestRegion | games/bin/sokoban_gen.rs:82-113 | the region kept is a connected component of the floor and none is larger |
| SokobanRoom.Fill | games/bin/sokoban_gen.rs:115-123 | exactly the floor of the kept region stays open |
| SokobanRoom.HasDeadEnd | games/bin/sokoban_gen.rs:132-149 | the room is refused exactly when some open cell has three or more wall neighbours |
| SokobanRoom.FindBlock | games/bin/sokoban_gen.rs:151-167 | the scan finds an open rectangle of the given size exactly when there is one |
| SokobanRoom.Window | games/bin/sokoban_gen.rs:169-184 | the window lies in the room and leaves a margin around all floor |
| SokobanRoom.CopyWindow | games/bin/sokoban_gen.rs:186-199 | the copy is open exactly where the window is |
| SokobanRoom.ListFloor | games/bin/sokoban_gen.rs:201-210 | the floor list holds every open cell exactly once |
| SokobanRoom.TrimmedOk | games/bin/sokoban_gen.rs:115-222 | translating the kept region keeps connectivity, size, absence of dead ends and of large open rectangles |
| SokobanRoom.GenerateRoom | games/bin/sokoban_gen.rs:42-222 | for every draw: a returned floor is a translate of a largest component of the carved room, mutually reachable, walled in, without dead ends or large open rectangles and large enough; otherwise some largest region failed validation |
| SokobanLevel.PickGoals | games/bin/sokoban_gen.rs:560-583 | every goal is the first of its hundred draws that is no earlier goal, and the placement is dropped exactly when all hundred draws of some goal are earlier goals |
| SokobanLevel.TryRoom | games/bin/sokoban_gen.rs:553-601 | the level kept is solvable and at least as deep as the search for each of the first five hundred placements in the room, and is replaced only by a deeper one |
| SokobanLevel.GenerateLevel | games/bin/sokoban_gen.rs:522-606 | whatever the draws and the clock do, a returned level is solvable, its depth is the least number of box lines in any solution of it, and no search in any of the rooms got deeper |
| PagableArc.ApplyKeepsInv | pagable/src/pagable_arc.rs:257-280 | every completed operation on any handle does to the handles and the key what it says, keeps the count equal to the pinned handles and the value where handles and key say; it fails exactly when a lost value is pinned, and none of the asserts and unwraps fails |
| PagableArc.RunKeepsInv | pagable/src/pagable_arc.rs:83-99 | so does every sequence of operations, failed pins included: handles, key and keyless last releases are those of the operations without count and value |
| PagableArc.EveryRun | pagable/src/pagable_arc.rs:83-99 | after every sequence of operations from a fresh allocation, `pinned_count` is the number of pinned handles, the key is the last one set, every live pin reads the original value across any evictions and reloads, and once the last pin is gone the value is paged out if a key was set and unpinned if not |
| PagableArcObjects.ArcInner.TryAllocPinned | pagable/src/pagable_arc.rs:847-868 | succeeds exactly while a pin is counted or the value is in memory, and then counts one more pin and has the value pinned |
| PagableArcObjects.ArcInner.AllocPinned | pagable/src/pagable_arc.rs:801-828 | fails, changing nothing, exactly for a paged-out value storage has lost, and otherwise counts one more pin on the resident or reloaded value |
| PagableArcObjects.ArcInner.ReleasePin | pagable/src/pagable_arc.rs:884-899 | counts one pin less; the last one pages the value out under its key, or without a key leaves it unpinned and schedules it |
| PagableArcObjects.ArcInner.SetDataKey | pagable/src/pagable_arc.rs:914-924 | stores the key, leaves a pinned value and pages any other out, and keeps the allocation in order |
| PagableArcObjects.NewArc | pagable/src/pagable_arc.rs:344-350 | a new allocation has one handle, pinned, and the count is right |
| PagableArcObjects.NewPagedOutArc | pagable/src/pagable_arc.rs:352-358 | one made from a key has one handle, unpinned, and no value |
| PagableArcObjects.NewPinnedArc | pagable/src/pagable_arc.rs:557-560 | a new pin owns its allocation, with the count right and no handle |
| PagableArcObjects.Arc.Clone | pagable/src/pagable_arc.rs:257-280 | a clone is pinned exactly when its original is, and the count stays the number of pinned handles |
| PagableArcObjects.Arc.Pin | pagable/src/pagable_arc.rs:379-416 | pinning fails exactly for a paged-out value storage lost, and otherwise leaves this handle pinned and one new pin on the resident value |
| PagableArcObjects.Arc.Unpin | pagable/src/pagable_arc.rs:432-436 | the handle is unpinned; the last pin pages the value out under its key or leaves it unpinned, and otherwise value and key stay |
| PagableArcObjects.Arc.Drop | pagable/src/pagable_arc.rs:469-476 | dropping removes the handle and its pin, with the same effect of the last pin on the value, and nothing else |
| PagableArcObjects.PinnedArc.Deref | pagable/src/pagable_arc.rs:633-639 | a live pin can always be read |
| PagableArcObjects.PinnedArc.IntoPagable | pagable/src/pagable_arc.rs:606-616 | the pin becomes a pinned handle and the value stays resident throughout |
| PagableArcSteps.StepKeepsSafe | pagable/src/pagable_arc.rs:787-924 | every atomic or locking step of any thread, in page-in and in `pin` and `unpin` of a shared handle too, where swapping the flag and adding or releasing its pin are steps of their own, keeps count, residency, key, lock and flag in order, unless it overtakes: it evicts while a page-in is between storing and counting, counts that pin while a thread is evicting, or releases the flag's pin while every flag set or being given back is still uncounted |
| PagableArcSteps.EveryInterleaving | pagable/src/pagable_arc.rs:787-924 | in every interleaving of `try_alloc_pinned`, `add_pinned_unchecked` by a holder, `set_data_key` and `release_pin` by any threads, a positive count implies `Pinned`, and `PagedOut` implies a key |
| PagableArcSteps.PanicsIff | pagable/src/pagable_arc.rs:686-741 | a step from a safe state panics exactly when it evicts a keyless value that another release already unpinned; no assertion on the count fails |
| PagableArcSteps.SerialReleasesNeverPanic | pagable/src/pagable_arc.rs:884-899 | if no two releases overlap, no documented step panics |
| PagableArcSteps.KeyedNeverPanics | pagable/src/pagable_arc.rs:686-697 | once a key is set, or a thread is about to set one under the lock, no documented run panics |
| PagableArcRaces.UndisturbedSafe | pagable/src/pagable_arc.rs:379-436 | in every run over all operations by any threads in which no step overtakes a page-in or a pin, a positive count implies `Pinned`, `PagedOut` implies a key, and no assertion on the count can fail |
| PagableArcRaces.UndisturbedIff | pagable/src/pagable_arc.rs:801-828 | a run stays safe throughout if and only if none of its steps overtakes a page-in or a pin |
| PagableArcRaces.EvictionSafeIff | pagable/src/pagable_arc.rs:819-824 | an eviction keeps the protocol safe if and only if no page-in is between storing the value and counting its pin |
| PagableArcRaces.GapAddSafeIff | pagable/src/pagable_arc.rs:819-824 | counting the pin then keeps it safe if and only if no thread is evicting |
| PagableArcRaces.FlagReleaseSafeIff | pagable/src/pagable_arc.rs:411-436 | releasing the flag's pin keeps it safe if and only if not every flag set or being given back is still uncounted; swapping the flag is always safe |
| PagableArcRaces.OvertakenPageIn | pagable/src/pagable_arc.rs:819-824 | a page-in in the gap and a thread evicting, in either order, leave a counted pin without its value |
| PagableArcRaces.PageInGapReachable | pagable/src/pagable_arc.rs:819-824 | such a run exists, from a paged-out allocation |
| PagableArcRaces.OverlappingReleasesPanic | pagable/src/pagable_arc.rs:884-897 | whenever two keyless releases have both seen zero, some order of their remaining steps panics |
| PagableArcRaces.DocumentedOperationsCanPanic | pagable/src/pagable_arc.rs:884-897 | such a run exists, from a fresh allocation |
| PagableArcFailures.PanicReachableIff | pagable/src/pagable_arc.rs:884-924 | from any state of the documented operations, a run of them that panics exists if and only if no key is set or about to be set |
| PagableArcFailures.PinFailsIff | pagable/src/pagable_arc.rs:411-416 | from any state in which the count adds up, overtaken or not, a run without another step of the thread exists after which the assertion of its pending `pin` fails, if and only if the thread owns no second pin |
| PagableArcFailures.OvertakenPinFailsIff | pagable/src/pagable_arc.rs:411-436 | so it is for each pending `pin` after an `unpin` of the same handle overtook it |
| PagableArcAlone.TryAllocAlone | pagable/src/pagable_arc.rs:847-868 | the steps of `try_alloc_pinned`, uninterrupted, do what the completed operation does |
| PagableArcAlone.AllocAlone | pagable/src/pagable_arc.rs:801-828 | likewise for `alloc_pinned_async`, whether storage has the value or not |
| PagableArcAlone.AddAlone | pagable/src/pagable_arc.rs:787-790 | likewise for `add_pinned_unchecked` by the owner of a pin |
| PagableArcAlone.ReleaseAlone | pagable/src/pagable_arc.rs:884-899 | likewise for `release_pin`, down to where the last pin leaves the value |
| PagableArcAlone.SetKeyAlone | pagable/src/pagable_arc.rs:914-924 | likewise for `set_data_key` |
| PagableArcAlone.SetFlagAlone | pagable/src/pagable_arc.rs:411-416 | likewise for the end of `pin`: an unset flag is set and counted |
| PagableArcAlone.TakeFlagAlone | pagable/src/pagable_arc.rs:432-436 | likewise for `unpin`: a set flag is taken back and its pin released |
| PagableArcAlone.OneWayOn | pagable/src/pagable_arc.rs:787-924 | within an operation a thread has one next step, but for the answer of storage, so these are the only ways it ends uninterrupted |
| PagableArcRaces.FlagWindowReachable | pagable/src/pagable_arc.rs:411-415 | that window is reached by pinning a paged-out value, by a thread that owns no other pin |
| HostSharing.TryNewPercentage | host_sharing/src/host_sharing.rs:54-81 | a percentage is accepted exactly from 0 to 100, as given |
| HostSharing.PercentageIsLeastShare | host_sharing/src/host_sharing.rs:141-166 | a percentage is the least number of permits that is at least that share of the machine and never more than the machine |
| HostSharing.NamesToTake | host_sharing/src/host_sharing.rs:226-255 | every token is taken once, in strictly increasing order |
| HostSharing.MakePlan | host_sharing/src/host_sharing.rs:199-225 | what each kind of request takes: its tokens once each in increasing order, and the permits it asks for, or the least number that is at least its percentage, but no more than the machine has; exclusive access takes them all |
| HostSharing.NamedSemaphores.Get | host_sharing/src/named_semaphores.rs:26-37 | one single-permit semaphore per name, the same on every call |
| HostSharingBroker.EveryReachableState | host_sharing/src/host_sharing.rs:153-255 | in every reachable state a token has at most one holder, free and held permits add up to the machine, and a holder of all permits leaves other running requests with none |
| HostSharingBroker.HolderWantsMore | host_sharing/src/host_sharing.rs:226-255 | a request waiting for a token holds only smaller ones |
| HostSharingBroker.GreatestIsFree | host_sharing/src/host_sharing.rs:226-255 | when everyone waits for tokens, the greatest wanted one is free |
| HostSharingBroker.NeverDeadlocks | host_sharing/src/host_sharing.rs:226-255 | while some request is unfinished, some request can move on |
| HostSharingBroker.ServedInOrder | host_sharing/src/host_sharing.rs:168-178 | a token, and with the fair strategy the host permits too, go to the waiting request that joined its line first |
| HostSharingBroker.EveryRunFinishes | host_sharing/src/host_sharing.rs:226-255 | every run is bounded, and one that cannot go on has finished every request and returned every token and permit |
| HostSharingBroker.UnsortedPlansDeadlock | host_sharing/src/host_sharing.rs:231-237 | without the common order two requests can stop for good |
| ArcSerializer.ReadBack | pagable/src/testing.rs:111-240 | reading what was written for a value, from any point at which reader and writer are in step, gives the value back and leaves them in step, although the writer marks an arc before its body and the reader after |
| ArcSerializer.AddAllocation | pagable/src/testing.rs:228-239 | recording a rebuilt arc keeps one allocation per arc with that arc's type and contents |
| ArcSerializer.RoundTrip | pagable/src/testing.rs:111-240 | for every acyclic heap, reading back gives an isomorphic graph: all input read, exactly the reachable arcs rebuilt, each once with its contents, shared exactly when they were the same arc |
| ArcSerializerSizes.WrittenOnce | pagable/src/testing.rs:111-135 | the output has the length of the value and, once each, of the contents of exactly the arcs reached, and the count is that of all arcs written |
| ArcSerializer.SerializesIff | pagable/src/testing.rs:122-131 | writing fails exactly when a reachable arc answers with the key of a stored copy |
| ArcSerializerObjects.TestingSerializer.SerializeArc | pagable/src/testing.rs:111-135 | the method changes the output, the seen arcs and the count as specified |
| ArcSerializerObjects.TestingDeserializer.DeserializeArc | pagable/src/testing.rs:216-240 | the method reads, allocates and records as specified |
| ArcSerializerObjects.Copy | pagable/src/testing.rs:69-240 | writing with a new serializer and reading with a new deserializer succeeds exactly when every reachable arc is inline, and then gives an isomorphic graph |
| DeferredValue.NextKeeps | pagable/src/deferred_value.rs:120-163 | every atomic step of `read`, `get_or_try_init`, the loader lock and the arc cache, by any thread, keeps the invariant |
| DeferredValue.CacheKeeps | pagable/src/storage/traits.rs:213-292 | so does a cache entry being bound, dying or being dropped under the threads |
| DeferredValue.EveryRun | pagable/src/deferred_value.rs:120-232 | the invariant holds after every sequence of steps of any number of threads |
| DeferredValue.FieldWaiterOwnsNothing | pagable/src/deferred_value.rs:138-146 | a thread waiting on a field owns no field, no loader lock and no cache entry |
| DeferredValue.WaitsDescend | pagable/src/storage/traits.rs:213-263 | waits lead from fields to arcs and from arcs to arcs nested below them |
| DeferredValue.StuckIffWaiting | pagable/src/deferred_value.rs:214-232 | an unfinished thread cannot take a step exactly when it waits for a particular thread |
| DeferredValue.NoWaitCycle | pagable/src/deferred_value.rs:138-145 | no threads wait for each other in a circle |
| DeferredValue.SomeoneMoves | pagable/src/deferred_value.rs:138-145 | from any state that satisfies the invariant, while a thread is unfinished, one can move |
| DeferredValue.EveryReachableState | pagable/src/deferred_value.rs:120-232 | in every reachable state "no loader" was never reached, no field loaded twice, and no wait cycle exists |
| DeferredValue.NeverDeadlocks | pagable/src/deferred_value.rs:138-145 | in every reachable state with an unfinished thread some unfinished thread can take a step |
| DeferredValue.LoadsAtMostOnce | pagable/src/deferred_value.rs:120-130 | a successful load happens at most once, a resolved field has had exactly one, and an unresolved idle one keeps its loader |
| DeferredLoads.ValueIsLoaded | pagable/src/deferred_value.rs:120-130 | in every run at most one load of a field succeeds, and a resolved field holds what that load returned |
| DeferredLoads.LoadResolves | pagable/src/deferred_value.rs:209-232 | a load that returns a value resolves its field to it with the thread's next step, whatever other threads do before it |
| DeferredValue.ValueStaysForever | pagable/src/deferred_value.rs:209-232 | a resolved field keeps its value whatever runs |
| DeferredValue.ColdFieldLoads | pagable/src/deferred_value.rs:209-210 | after failures any idle thread can load the field again |
| DeferredLoads.PagedInOnce | pagable/src/storage/traits.rs:213-263 | in every run that keeps the entry of a key, at most one thread at a time pages the key in, at most one page-in succeeds, and then the key is bound or about to be |
| DeferredLoads.LostEntryPagesTwice | pagable/src/storage/traits.rs:213-263 | if the entry is dropped meanwhile, a second thread pages the key in beside the first |
| DeferredLoads.EntryIsHeld | pagable/src/storage/traits.rs:251-262 | in every reachable state an entry that makes callers wait belongs to a page-in under way, so a failed one leaves its key to the next caller |
| DeferredValue.UnrefusedReadsDeadlock | pagable/src/deferred_value.rs:219-224 | without the refusal two loaders reading each other's field block each other for good |
| ActionParallelism.Window | app/buck2_action_parallelism/src/lib.rs:98-116 | a window starts at the start time and lasts for the execution time, in microseconds rounded down, negative times counting as zero; there is none exactly when a value leaves 64 bits |
| ActionParallelism.TimeWithCounts | app/buck2_action_parallelism/src/lib.rs:137-138 | the measure used is the number of microseconds at which the count of running actions lies in a range |
| ActionParallelism.NetIsRunning | app/buck2_action_parallelism/src/lib.rs:129-133 | the events up to a moment add up to the number of actions running at it |
| ActionParallelism.Sort | app/buck2_action_parallelism/src/lib.rs:134-135 | the events sorted by time, ends first, are the same events |
| ActionParallelism.AddToAdds | app/buck2_action_parallelism/src/lib.rs:145-148 | adding to an entry adds to exactly that level |
| ActionParallelism.Sweep | app/buck2_action_parallelism/src/lib.rs:137-153 | the sweep gives every range of positive levels exactly the time spent in it, and the weighted sum is the area under the count |
| ActionParallelism.Durations | app/buck2_action_parallelism/src/lib.rs:129-153 | the duration of each positive level is the number of microseconds at which exactly that many intervals run, and levels times durations add up to the lengths of the intervals |
| ActionParallelism.PercentileLevel | app/buck2_action_parallelism/src/lib.rs:180-194 | the least level whose cumulative duration reaches the share, or else the greatest |
| ActionParallelism.PercentileMeaning | app/buck2_action_parallelism/src/lib.rs:180-194 | in terms of the intervals: at least that percentage of busy time is at or below the level, less below any lower level that occurs, and from 100 on it is the greatest |
| ActionParallelism.PercentilesMonotone | app/buck2_action_parallelism/src/lib.rs:180-194 | percentiles are unique and monotone |
| ActionParallelism.TotalIsBusy | app/buck2_action_parallelism/src/lib.rs:155 | the sum of the durations is the time at least one action ran |
| ActionParallelism.BusyIff | app/buck2_action_parallelism/src/lib.rs:156-158 | it is zero exactly when every interval is empty |
| ActionParallelism.DurationsFit | app/buck2_action_parallelism/src/lib.rs:137-155 | if the intervals span less than 64 bits, so do all durations and their sum |
| ActionParallelism.Compute | app/buck2_action_parallelism/src/lib.rs:124-178 | total, average and every requested percentile are those of the pointwise count of running actions; the empty result is reported exactly when nothing ran |
| FlameGraphs.CacheIsRight | allocative/allocative/src/flamegraph.rs:39-41 | where caches are in order the total size is the sum of all node sizes |
| FlameGraphs.AddKeepsCache | allocative/allocative/src/flamegraph.rs:43-49 | merging keeps the cached size equal to the sum of child totals at every depth, and totals add up |
| FlameGraphs.AddChildKeepsCache | allocative/allocative/src/flamegraph.rs:51-62 | so does adding or merging a child |
| FlameGraphs.AddSizes | allocative/allocative/src/flamegraph.rs:43-49 | at every stack the size of a merge is the sum of the two sizes there |
| FlameGraphs.AddChildSizes | allocative/allocative/src/flamegraph.rs:51-62 | adding a child changes the sizes under its key, by the child's, and no others |
| FlameArena.FlameTotal | allocative/allocative/src/flamegraph.rs:145-178 | the graph of a node totals its size, what is charged below it and what oversize nodes are missing |
| FlameArena.FlameSizes | allocative/allocative/src/flamegraph.rs:145-178 | the graph shows at every stack what is left to the node reached by that stack |
| FlameArena.GrowCharge | allocative/allocative/src/flamegraph.rs:444-456 | entering a size at a node charges it once, if its parent is the root or unique |
| FlameBuilder.Restores | allocative/allocative/src/visitor.rs:72-118 | every nested visit, with first and repeated shared pointers at any depth, ends with the current and shared stacks as they were, and no assertion fails |
| FlameBuilder.RootsRestore | allocative/allocative/src/flamegraph.rs:352-387 | after any visits to any roots the assertions of `finish` hold |
| FlameStacks.SizesByStack | allocative/allocative/src/flamegraph.rs:252-275 | after any visits the sizes at every stack and directly below it are the sums of the sizes entered there, pointees counted from the root the first time, and the stack is marked unique exactly if some visit entered it so |
| FlameConservation.VisitsCharge | allocative/allocative/src/flamegraph.rs:444-481 | any visits charge exactly the sizes entered under root, unique and first-visited shared nodes, plus those entered under an inline node at a stack that is also entered as unique |
| FlameConservation.ChargeIsVisitedIff | allocative/allocative/src/flamegraph.rs:444-481 | so the charge is the memory visited if and only if nothing is entered inline under such a stack |
| FlameConservation.FitsIff | allocative/allocative/src/flamegraph.rs:145-178 | no node is oversize if and only if, below the root, at least as much was entered at every stack never entered as unique as from it into the stacks below |
| FlameConservation.InlineAndUnique | allocative/allocative/src/flamegraph.rs:453 | an example: 18 visited, 22 charged |
| FlameBuilderObjects.FlameGraphBuilder.Descend | allocative/allocative/src/flamegraph.rs:252-265 | the method finds or creates the child and pushes the parent |
| FlameBuilderObjects.FlameGraphBuilder.ExitNode | allocative/allocative/src/flamegraph.rs:429-441 | the method pops the current stack, or the last shared one, or leaves the root |
| FlameBuilderObjects.FlameGraphBuilder.EnterSharedPointer | allocative/allocative/src/flamegraph.rs:458-481 | a first pointer starts a new stack at the root, a repeated one is left at once |
| FlameBuilderObjects.FlameGraphBuilder.UpdateSizes | allocative/allocative/src/flamegraph.rs:402-420 | the size left to each node is set at the node and everywhere below, and nothing else changes |
| FlameBuilderObjects.FlameGraphBuilder.Finish | allocative/allocative/src/flamegraph.rs:376-397 | the graph returned totals what was charged plus what oversize nodes are missing |
| FlameBuilderObjects.BuildFlameGraph | allocative/allocative/src/flamegraph.rs:361-397 | end to end, for any visits: sizes and unique marks by stack; the graph shows at every stack what was entered there less what was entered inside it, unless unique; its total is the memory visited with each shared pointee counted once, plus what lies inline under stacks also unique, plus what oversize nodes are missing; and it is the memory visited if and only if neither is there |
| PrepareAll.MakeBatches | pagable/src/prepare.rs:46-52 | the batches are consecutive, numbered, within the size limit and make up all items |
| PrepareAll.EverySchedule | pagable/src/prepare.rs:53-77 | under every schedule each batch is waiting, held by one worker, or its slot filled once with its results |
| PrepareAll.ScheduleIndependent | pagable/src/prepare.rs:28-94 | under every schedule in which all tasks return, every slot was filled exactly once and the results are those of preparing the items in order |
| PrepareAll.Gather | pagable/src/prepare.rs:78-94 | the call fails exactly when a task panicked and otherwise concatenates the slots |
| PrepareAll.EveryRunJoins | pagable/src/prepare.rs:61-83 | under every schedule the number of steps is bounded, and when no task can go on all have joined |
| PrepareAll.EveryTaskBusyIff | pagable/src/prepare.rs:31-33 | there is a batch for every task exactly when quotient and remainder of dividing one item less by sixteen add up to fifteen or more |
| PrepareAll.BatchSize | pagable/src/prepare.rs:46 | the least size at which the tasks get through the items with a batch each, or sixty-four if that is not enough |
| PrepareAll.AllAtWork | pagable/src/prepare.rs:59-65 | sixteen tasks, or as many as there are batches, can all be at work at once on batches of their own |
| ConsoleOutput.EveryRun | superconsole/src/output.rs:160-251 | every step of producer and writer keeps frames, errors and the promise of `should_render` in order |
| ConsoleOutput.FramesInOrder | superconsole/src/output.rs:168-197 | the frames given to calls of `output_to` that sent them are, in order, those written to their own streams, as many as there were writes, the one in hand and those in the channel |
| ConsoleOutput.PromisedOutputNeverBlocks | superconsole/src/output.rs:204-224 | the first `output_to` after `should_render` returned true never waits, whatever the writer does |
| ConsoleOutput.ShouldRenderIff | superconsole/src/output.rs:204-206 | `should_render` answers true exactly when a write error was not returned yet or every sent frame has left the channel |
| ConsoleOutput.FinalizeDrains | superconsole/src/output.rs:231-251 | after `finalize` every frame a call of `output_to` sent was attempted in order on its own stream, and it fails exactly when a write error was not returned before, with the first such error |
| ConsoleOutput.OutputFailsIff | superconsole/src/output.rs:214-224 | `output_to` returns the first write error not returned before and then does not send; if there is none it goes on to send exactly its frame |
| ConsoleOutput.FinalizeEnds | superconsole/src/output.rs:231-251 | once `finalize` began, every run has a bounded number of further steps, and one that cannot go on has returned from it |
| StableNames.NamesInjective | pagable/src/typetag.rs:89-119 | different types have different composed names |
| StableNames.ReadsOneWay | pagable_derive/src/derive_pagable.rs:376-411 | an argument's name followed by the end of an argument can be read in one way only |
| StableNames.NumberReadsBack | pagable_derive/src/derive_pagable.rs:392-398 | integers are displayed as decimal numerals: reading one gives the integer back, and there are no leading zeros |
| StableNames.NumberInjective | pagable_derive/src/derive_pagable.rs:392-398 | different integers are displayed differently |
| StableNames.PinnedNames | pagable/src/typetag.rs:1103-1139 | the composed form: arguments in angle brackets, separated by a comma and a space |
| StableNames.NameCache.StableName | pagable/src/typetag.rs:128-153 | the memoized name is the composed name, re-entering for the arguments |
| StableNames.Register | pagable/src/typetag.rs:294-313 | registering types by name fails exactly when a type is registered twice |
| FormatMarkers.LiveIff | fmt.py:113-117 | the pattern of `comment_line` matches exactly the live lines, in one way |
| FormatMarkers.DeadIff | fmt.py:125-133 | the pattern of `uncomment_line` matches exactly the commented-out lines, in one way |
| FormatMarkers.UncommentUndoesComment | fmt.py:113-134 | `uncomment_line` undoes `comment_line` on every line it rewrites |
| FormatMarkers.CommentUndoesUncommentIff | fmt.py:113-134 | the other way round holds exactly for contents that neither start nor end with whitespace |
| FormatMarkers.LineRoundTripIff | fmt.py:137-152 | a line comes back from its internal form exactly when it is in exported form without a disabling marker before an enabling one |
| FormatMarkers.TextRoundTripIff | fmt.py:137-152 | a text comes back exactly when each of its lines does |
| FormatMarkers.BothMarkers | fmt.py:137-152 | a line carrying both markers, disabling first, does not |

## Left out

- Level printing, the command line and the search for good time limits of the Sokoban generator; its clock and random draws are inputs.
- Weak memory orderings and the unsafe cells of `PagableArc`; atomics are sequentially consistent, and a count going below zero is not wrapped.
- HostSharingBroker.NeverDeadlocks: requests are not cancelled while they wait, and a running request is taken to finish.
- ArcSerializer.RoundTrip: the byte encoding of numbers, tags and lengths (postcard) is one word each; seeking and recipes are not modelled.
- DeferredValue.NoWaitCycle: that rows nest downwards by key is taken from the cache's comment on content hashes; loaders and page-ins are taken to return; runtimes that cannot block, which refuse a read before anything happens, are not modelled.
- ActionParallelism.Compute: what the sweep does when the intervals span more than 64 bits of microseconds and the rounding of the floating-point average are not modelled; which actions count as executed is not part of this model.
- FlameGraphs.AddKeepsCache: merging updates the receiver in place; it is modelled on values.
- FlameBuilderObjects.BuildFlameGraph: the text of warnings and of the folded-stack output, and saturating subtraction at the ends of the integer range.
- FlameBuilder.Restores: what `Allocative` implementations visit is an input; the visitor's helper methods that only combine enter and exit are not listed one by one.
- PrepareAll.ScheduleIndependent: a lone item runs inline and needs no schedule; the runtime's thread pool is any schedule.
- ConsoleOutput.FinalizeDrains: a panic of the writer thread and terminal handling are not modelled.
- StableNames.NamesInjective: identifiers are taken to be free of `<`, `>`, comma and space and paths to contain `::`; character constants as generic arguments and types declared inside functions are not modelled.
- StableNames.NameCache.StableName: threads racing to build the same name are not modelled; the loser's string is dropped.
- The formatter's driver, file selection and carriage-return handling.
- Storage backends, the page-out pipeline and key assignment; storage is a map from keys to values.
- Everything else in the repository.
