# LiveFlowBus event core, modelled in Dafny

This project models the in-memory event bus of the `liveflow` package, plus one small array
routine from the `interview` package:

- **`LiveEvent`**: a node of an append-only event log. It holds a sticky flag, a timestamp
  and a value. The value is either eager or (for updates) computed from the previous node.
- **`LiveSlot`**: one consumer's cursor into the log. It carries a wake-up cell that is
  `EMITTING`, `PENDING`, a parked continuation, or null once freed.
- **`MutableEventFlow`**: publishing with `tryEmit`/`tryUpdate`, and a notification pass
  over the live slots. It also has two consumption loops. `collectAll` walks every node from
  the head it first saw. `collectLatest` jumps to the current event.
- **`RecyclableEventFlow`**: a 64-bit reference count with a `RECYCLED` sentinel. It
  supports `obtain`, `tryObtain`, `free`, `tryRecycle` and `isRecyclable`.
- **`LocalLiveFlowBus`**: the registry from event-type key to channel, created lazily. A
  second registry maps a key to its dispatch scope. With `autoClear` on (off by default), a
  channel is removed when a subscriber's release leaves it with no references and a
  non-sticky current event; a publish never removes one.
- **`Sink0.sink`**: pushes the zeros of an `IntArray` to its end by adjacent swaps.

The model is sequential and linearised: one operation at a time. A publish is one append plus
one notification pass, which is what the compare-and-set loops do when no thread competes. A
consumption loop is modelled one iteration at a time, as a function from flow state to flow
state plus what that iteration saw. The log is a `seq` of nodes, and a node's identity is its
index. The clock is an input. Keys, dispatch scopes and event values are type parameters.

Files: `wrappers.dfy` (nullable values), `live_event.dfy`, `live_slot.dfy`,
`mutable_event_flow.dfy`, `event_collectors.dfy` (the two loops of MutableEventFlow.kt),
`recyclable_event_flow.dfy`, `local_live_flow_bus.dfy`, `sink0.dfy`.

Three behaviours of the code that are easy to misread:

- `makePending` on a parked slot swaps the cell to `EMITTING` and resumes the continuation.
  It then goes round its loop again, finds `EMITTING`, and leaves `PENDING`. So in a
  sequential run the slot ends `PENDING`, and the resumed consumer makes one extra iteration.
- `collectLatest` compares nodes with data-class equality (`!=`), while `makePending` uses
  identity (`===`). In Kotlin two distinct nodes never compare equal, because `equals`
  recurses through `nextEvent` and an older node's chain is strictly longer. The model's
  counterpart is `MutableEventFlow.StructuralEqualityIsIdentity`: in a linked log the stored
  `nextEvent` index already tells two positions apart. So the model uses the index for both.
- `obtainEventFlow`'s fast path increments the count even when it fails. A registered count
  of -1 is therefore revived by the second attempt under the lock. The model keeps this.

## Model

| member | source | states |
|---|---|---|
| LiveEvents.NewEvent | BaseComponents/src/main/java/com/idea/basecomponents/liveflow/EventFlow.kt:52-79 | a new node has no successor and carries the given sticky flag and timestamp; sticky defaults to true |
| LiveEvents.GetValue | BaseComponents/src/main/java/com/idea/basecomponents/liveflow/EventFlow.kt:85-87 | the eager value if non-null, else the lazy value, else null |
| LiveEvents.DefaultEvent | BaseComponents/src/main/java/com/idea/basecomponents/liveflow/EventFlow.kt:57-82 | a node built from a clock reading alone is sticky, has no successor, no value, and a timestamp above WHEN_NOTHING (-1) |
| LiveSlots.MakePendingStep | BaseComponents/src/main/java/com/idea/basecomponents/liveflow/MutableEventFlow.kt:198-217 | one loop pass: no-op if the slot already holds the announced node; EMITTING becomes PENDING; parked becomes EMITTING with a resume; PENDING and null return |
| LiveSlots.MakePending | BaseComponents/src/main/java/com/idea/basecomponents/liveflow/MutableEventFlow.kt:197-219 | the whole loop: resumes exactly when the slot was parked and behind; a slot behind ends PENDING; a slot already current, PENDING or freed is unchanged |
| LiveSlots.TakePending | BaseComponents/src/main/java/com/idea/basecomponents/liveflow/MutableEventFlow.kt:221-223 | sets EMITTING and returns true iff the prior state was PENDING |
| LiveSlots.AwaitValue | BaseComponents/src/main/java/com/idea/basecomponents/liveflow/MutableEventFlow.kt:225-230 | parks iff the state is EMITTING, otherwise continues at once with the cell unchanged |
| LiveSlots.Free | BaseComponents/src/main/java/com/idea/basecomponents/liveflow/MutableEventFlow.kt:191-192 | freeing sets the cell to null and keeps the cursor |
| LiveSlots.FreedSlotIgnoresNotification | BaseComponents/src/main/java/com/idea/basecomponents/liveflow/MutableEventFlow.kt:214-216 | a notifier reaching a freed slot changes nothing and resumes nobody |
| LiveSlots.NoLostWakeup | BaseComponents/src/main/java/com/idea/basecomponents/liveflow/MutableEventFlow.kt:197-230 | wherever a notification falls in a consumer's idle iteration (before takePending, between it and awaitValue, or after parking), a consumer that was running or already had a notification pending is not left parked |
| MutableEventFlow.NewEventFlow | BaseComponents/src/main/java/com/idea/basecomponents/liveflow/MutableEventFlow.kt:36-43 | a new flow holds only the non-sticky WHEN_NOTHING placeholder with no value, and no slots |
| MutableEventFlow.Append | BaseComponents/src/main/java/com/idea/basecomponents/liveflow/MutableEventFlow.kt:135-137 | the successful compare-and-set: the new node is current, the old current links to it, earlier nodes unchanged |
| MutableEventFlow.NotifyChanges | BaseComponents/src/main/java/com/idea/basecomponents/liveflow/MutableEventFlow.kt:169-183 | one pass over the slots: cursors kept; slots already current unchanged; every other slot PENDING; the resumed set is exactly the parked slots that were behind |
| MutableEventFlow.Publish | BaseComponents/src/main/java/com/idea/basecomponents/liveflow/MutableEventFlow.kt:129-141 | append then notify: one node more, prefix kept, every live slot left PENDING with its cursor |
| MutableEventFlow.TryEmit | BaseComponents/src/main/java/com/idea/basecomponents/liveflow/MutableEventFlow.kt:126-143 | appends exactly one node with the given sticky flag, value and time, which becomes current; the previous current links to it; no slot stays parked; returns true |
| MutableEventFlow.TryUpdate | BaseComponents/src/main/java/com/idea/basecomponents/liveflow/MutableEventFlow.kt:145-167 | as TryEmit, but the new node's value is block applied to the previous current value |
| MutableEventFlow.HoldsSticky | BaseComponents/src/main/java/com/idea/basecomponents/liveflow/LocalLiveFlowBus.kt:238 | `event?.sticky == true`: true iff the current event was published sticky |
| MutableEventFlow.StickinessFollowsLastPublish | BaseComponents/src/main/java/com/idea/basecomponents/liveflow/LocalLiveFlowBus.kt:257 | the stickiness a clear attempt reads is the flag of the latest tryEmit or tryUpdate, and allocating or freeing a slot leaves it unchanged |
| MutableEventFlow.AllocateSlot | BaseComponents/src/main/java/com/idea/basecomponents/liveflow/MutableEventFlow.kt:185-189 | adds one fresh EMITTING slot with no cursor under a new id; the log is unchanged |
| MutableEventFlow.FreeSlot | BaseComponents/src/main/java/com/idea/basecomponents/liveflow/MutableEventFlow.kt:191-194 | removes exactly that slot from the live list; the others and the log are unchanged |
| MutableEventFlow.AllocateThenFree | BaseComponents/src/main/java/com/idea/basecomponents/liveflow/MutableEventFlow.kt:185-194 | freeing a just-allocated slot restores the live list |
| MutableEventFlow.StructuralEqualityIsIdentity | BaseComponents/src/main/java/com/idea/basecomponents/liveflow/MutableEventFlow.kt:106 | two different nodes of a valid log never compare equal as data-class values |
| MutableEventFlow.PublishKeepsChronological | BaseComponents/src/main/java/com/idea/basecomponents/liveflow/EventFlow.kt:68 | publishing with a non-decreasing clock keeps the timestamps of published nodes ordered |
| EventCollectors.Deliver | BaseComponents/src/main/java/com/idea/basecomponents/liveflow/MutableEventFlow.kt:72-76 | a node reaches the collector iff (its timestamp is at or after the subscription time, or replay was asked and the node is sticky) and the filter is absent or accepts the transformed value, which is what is delivered |
| EventCollectors.CollectAllStep | BaseComponents/src/main/java/com/idea/basecomponents/liveflow/MutableEventFlow.kt:62-85 | one collectAll iteration: the first reads the current head, later ones the cursor's successor; a candidate is consumed whether or not delivered; with no candidate the slot takes a pending notification or parks |
| EventCollectors.DrainAll | BaseComponents/src/main/java/com/idea/basecomponents/liveflow/MutableEventFlow.kt:62-85 | run until nothing is next, collectAll visits every later node once, in log order, delivers exactly DeliveriesOf them, and ends on the current event |
| EventCollectors.CollectAllStartsAtHead | BaseComponents/src/main/java/com/idea/basecomponents/liveflow/MutableEventFlow.kt:63-68 | a fresh collectAll slot reads the current head first, so older nodes are never visited |
| EventCollectors.ValuesOf | BaseComponents/src/main/java/com/idea/basecomponents/liveflow/MutableEventFlow.kt:130-154 | the values a run of publishes gives its nodes: an emit its own value, an update its block of the value just before it, each from the previous one in turn |
| EventCollectors.EmitsGiveTheirValues | BaseComponents/src/main/java/com/idea/basecomponents/liveflow/MutableEventFlow.kt:126-133 | in a run of tryEmit calls every node carries exactly its emitted value, whatever came before |
| EventCollectors.PublishOne | BaseComponents/src/main/java/com/idea/basecomponents/liveflow/MutableEventFlow.kt:126-167 | one tryEmit or tryUpdate: one node more with the call's clock reading and flag, whose value is the publication's value after the previous current value; the old current links to it; cursors kept |
| EventCollectors.PublishAll | BaseComponents/src/main/java/com/idea/basecomponents/liveflow/MutableEventFlow.kt:126-167 | a run of tryEmit and tryUpdate calls adds one node per call after the old ones, leaves the old nodes (bar the head's link) as they were, and keeps every slot's cursor |
| EventCollectors.PublishedNodes | BaseComponents/src/main/java/com/idea/basecomponents/liveflow/MutableEventFlow.kt:126-167 | the nodes of a run follow in call order, each with its call's clock reading, flag, and the value ValuesOf gives it |
| EventCollectors.EveryLaterEventDelivered | BaseComponents/src/main/java/com/idea/basecomponents/liveflow/MutableEventFlow.kt:62-85 | every event published by tryEmit or tryUpdate after a collectAll subscriber caught up, at any clock readings not before its collect time, reaches it once, in order, filtered, with the value the run gives it: none lost, duplicated or reordered |
| EventCollectors.StickyReplayOnce | BaseComponents/src/main/java/com/idea/basecomponents/liveflow/MutableEventFlow.kt:64-78 | a replaying subscriber arriving on a sticky current event gets it first, and only once |
| EventCollectors.CollectLatestStep | BaseComponents/src/main/java/com/idea/basecomponents/liveflow/MutableEventFlow.kt:101-117 | one collectLatest iteration reads the current event iff it differs from the last seen, and then the cursor is the current event; then it takes a pending notification or parks |
| EventCollectors.LatestNeverRepeats | BaseComponents/src/main/java/com/idea/basecomponents/liveflow/MutableEventFlow.kt:102-114 | with no publish in between, a second collectLatest iteration reads nothing and parks |
| EventCollectors.LatestSkipsToNewest | BaseComponents/src/main/java/com/idea/basecomponents/liveflow/MutableEventFlow.kt:102-114 | after any run of one or more tryEmit and tryUpdate calls, the next collectLatest iteration reads the newest node only |
| EventCollectors.LatestReadsUnseenHead | BaseComponents/src/main/java/com/idea/basecomponents/liveflow/MutableEventFlow.kt:102-114 | a collectLatest slot whose cursor is not on the current event reads the current event, and delivers what the subscription accepts of it |
| EventCollectors.StickyByDefault | BaseComponents/src/main/java/com/idea/basecomponents/liveflow/EventFlow.kt:21-48 | tryEmit, tryUpdate and both collectors are sticky by default; the filter defaults to none |
| EventCollectors.InitialEventWithheld | BaseComponents/src/main/java/com/idea/basecomponents/liveflow/MutableEventFlow.kt:38-43 | the placeholder event is withheld from any subscription with a real clock reading |
| EventCollectors.NothingFromNewFlow | BaseComponents/src/main/java/com/idea/basecomponents/liveflow/MutableEventFlow.kt:62-117 | on a flow nothing was published to, neither collector delivers anything |
| EventCollectors.LatestScenario | BaseComponents/src/main/java/com/idea/basecomponents/liveflow/MutableEventFlow.kt:101-117 | sticky 1 then non-sticky 2 and 3: a replaying latest-subscriber gets 1 then 3; a later subscriber gets nothing |
| RecyclableEventFlow.Inc | BaseComponents/src/main/java/com/idea/basecomponents/liveflow/RecyclableEventFlow.kt:25 | 64-bit increment that wraps Long.MAX_VALUE to Long.MIN_VALUE |
| RecyclableEventFlow.Dec | BaseComponents/src/main/java/com/idea/basecomponents/liveflow/RecyclableEventFlow.kt:44 | 64-bit decrement that wraps Long.MIN_VALUE to Long.MAX_VALUE |
| RecyclableEventFlow.IncDecInverse | BaseComponents/src/main/java/com/idea/basecomponents/liveflow/RecyclableEventFlow.kt:36-44 | increment and decrement undo each other, wrap-around included |
| RecyclableEventFlow.NewRecyclable | BaseComponents/src/main/java/com/idea/basecomponents/liveflow/RecyclableEventFlow.kt:16-19 | a new instance has count NONE, so it is recyclable |
| RecyclableEventFlow.TryObtain | BaseComponents/src/main/java/com/idea/basecomponents/liveflow/RecyclableEventFlow.kt:24-30 | always increments; hands out the instance iff the count before was not negative |
| RecyclableEventFlow.Obtain | BaseComponents/src/main/java/com/idea/basecomponents/liveflow/RecyclableEventFlow.kt:35-38 | increments the count by one and hands out the instance; at Long.MAX_VALUE the count wraps to Long.MIN_VALUE |
| RecyclableEventFlow.Free | BaseComponents/src/main/java/com/idea/basecomponents/liveflow/RecyclableEventFlow.kt:43-45 | decrements the count by one; at Long.MIN_VALUE the count wraps to Long.MAX_VALUE |
| RecyclableEventFlow.IsRecyclable | BaseComponents/src/main/java/com/idea/basecomponents/liveflow/RecyclableEventFlow.kt:62-65 | true iff the count is NONE, which is exactly when a recycle attempt whose block agrees succeeds; a recyclable instance can still be obtained |
| RecyclableEventFlow.TryRecycle | BaseComponents/src/main/java/com/idea/basecomponents/liveflow/RecyclableEventFlow.kt:50-60 | succeeds iff the count was NONE and the block agrees, leaving RECYCLED; otherwise the instance is unchanged (a refused block resets the count to NONE) |
| RecyclableEventFlow.ObtainThenFree | BaseComponents/src/main/java/com/idea/basecomponents/liveflow/RecyclableEventFlow.kt:24-45 | obtain or tryObtain followed by free leaves the instance as it was |
| RecyclableEventFlow.RecycledRefusesObtain | BaseComponents/src/main/java/com/idea/basecomponents/liveflow/RecyclableEventFlow.kt:15-30 | while increments keep the count negative, every tryObtain returns null, and the count rises by one per call |
| RecyclableEventFlow.SuccessfulRecycleRefusesObtain | BaseComponents/src/main/java/com/idea/basecomponents/liveflow/RecyclableEventFlow.kt:50-54 | after a successful recycle, up to 2^63 tryObtain calls all return null |
| LocalLiveFlowBus.NewBus | BaseComponents/src/main/java/com/idea/basecomponents/liveflow/LocalLiveFlowBus.kt:28-46 | a new bus has no channels and no scopes, and keeps the given auto-clear switch (off by default) and default dispatch scope |
| LocalLiveFlowBus.DispatchScopeOf | BaseComponents/src/main/java/com/idea/basecomponents/liveflow/LocalLiveFlowBus.kt:271-273 | the key's configured scope, else the default |
| LocalLiveFlowBus.ConfigureDispatchScope | BaseComponents/src/main/java/com/idea/basecomponents/liveflow/LocalLiveFlowBus.kt:48-56 | null removes the key's scope, so the default applies; a scope installs it; other keys and the channels are unchanged |
| LocalLiveFlowBus.GetEventFlowOrNull | BaseComponents/src/main/java/com/idea/basecomponents/liveflow/LocalLiveFlowBus.kt:192-194 | the registered flow iff the key is registered |
| LocalLiveFlowBus.ValueOf | BaseComponents/src/main/java/com/idea/basecomponents/liveflow/LocalLiveFlowBus.kt:139-141 | the current event's value of the key's channel, or null with no channel; it never creates one |
| LocalLiveFlowBus.ObtainEventFlow | BaseComponents/src/main/java/com/idea/basecomponents/liveflow/LocalLiveFlowBus.kt:204-219 | a live registered channel gains one reference; a channel at -1 is revived with count 1; otherwise a fresh channel holding one reference is installed; other keys and scopes unchanged |
| LocalLiveFlowBus.TryClearEventFlow | BaseComponents/src/main/java/com/idea/basecomponents/liveflow/LocalLiveFlowBus.kt:249-265 | nothing when auto-clear is off; otherwise removes the key iff its channel holds no reference and no sticky current event; else unchanged |
| LocalLiveFlowBus.Release | BaseComponents/src/main/java/com/idea/basecomponents/liveflow/LocalLiveFlowBus.kt:232-241 | frees the reference: a kept channel is the freed one and every other key is untouched; the key is removed iff tryClear and auto-clear are on, this was the last reference, and the current event is not sticky |
| LocalLiveFlowBus.WithEventFlowOf | BaseComponents/src/main/java/com/idea/basecomponents/liveflow/LocalLiveFlowBus.kt:224-243 | obtain, run the block on the flow, release; other keys untouched; with tryClear off no key is removed |
| LocalLiveFlowBus.WithEventFlowOfNetZero | BaseComponents/src/main/java/com/idea/basecomponents/liveflow/LocalLiveFlowBus.kt:229-233 | the key's reference count is the same before and after, and no recycled channel is left registered |
| LocalLiveFlowBus.Dispatch | BaseComponents/src/main/java/com/idea/basecomponents/liveflow/LocalLiveFlowBus.kt:113-124 | runs on the key's dispatch scope and never reclaims: the registered keys become the old ones plus this key; the key's flow is exactly one tryEmit of the value and flag on the obtained flow; every other channel, the scope registry, the auto-clear switch and the default scope are unchanged |
| LocalLiveFlowBus.Update | BaseComponents/src/main/java/com/idea/basecomponents/liveflow/LocalLiveFlowBus.kt:126-137 | as Dispatch, but the key's flow is exactly one tryUpdate of the block and flag on the obtained flow |
| LocalLiveFlowBus.DispatchNetZero | BaseComponents/src/main/java/com/idea/basecomponents/liveflow/LocalLiveFlowBus.kt:113-124 | dispatch gives back the reference it took: the key's count is as before (an absent channel counting as none), and no recycled channel is left registered |
| LocalLiveFlowBus.UpdateNetZero | BaseComponents/src/main/java/com/idea/basecomponents/liveflow/LocalLiveFlowBus.kt:126-137 | the same for update |
| LocalLiveFlowBus.DispatchThenValueOf | BaseComponents/src/main/java/com/idea/basecomponents/liveflow/LocalLiveFlowBus.kt:109-141 | valueOf after dispatch reads the dispatched value |
| LocalLiveFlowBus.UpdateThenValueOf | BaseComponents/src/main/java/com/idea/basecomponents/liveflow/LocalLiveFlowBus.kt:126-141 | valueOf after update reads block of the value before |
| LocalLiveFlowBus.Subscribe | BaseComponents/src/main/java/com/idea/basecomponents/liveflow/LocalLiveFlowBus.kt:161-162 | a collection obtains the key's channel (one reference more on a live channel, a channel at -1 revived with count 1, a fresh channel with one reference otherwise) and adds one fresh EMITTING slot under an unused id; the log and every other key are unchanged |
| LocalLiveFlowBus.Unsubscribe | BaseComponents/src/main/java/com/idea/basecomponents/liveflow/LocalLiveFlowBus.kt:162-166 | ending a collection removes the channel iff auto-clear is on, it was the last reference, and the current event is not sticky; a kept channel loses exactly that slot and one reference, and every other key is untouched |
| LocalLiveFlowBus.SubscribeUnsubscribeNetZero | BaseComponents/src/main/java/com/idea/basecomponents/liveflow/LocalLiveFlowBus.kt:161-166 | a collection that starts and ends gives back its reference: the key's count is as before, and no recycled channel stays registered |
| LocalLiveFlowBus.SubscribeUnsubscribeRestoresSlots | BaseComponents/src/main/java/com/idea/basecomponents/liveflow/LocalLiveFlowBus.kt:161-166 | a live channel kept through a collection that starts and ends has exactly the live slots it had before |
| LocalLiveFlowBus.StickyChannelNeverReclaimed | BaseComponents/src/main/java/com/idea/basecomponents/liveflow/LocalLiveFlowBus.kt:238-263 | a channel whose current event is sticky survives every clear attempt and every release |
| LocalLiveFlowBus.LastSubscriberReclaims | BaseComponents/src/main/java/com/idea/basecomponents/liveflow/LocalLiveFlowBus.kt:180-183 | with auto-clear on, a lone subscriber of an unused key leaving removes the channel |
| LocalLiveFlowBus.StickyPublishSurvivesUnsubscribe | BaseComponents/src/main/java/com/idea/basecomponents/liveflow/LocalLiveFlowBus.kt:235-239 | after a sticky dispatch, the last subscriber leaving does not remove the channel |
| Sink0.SkinRecursion | app/src/main/java/com/idea/office/interview/Sink0.kt:41-49 | moves a[i] to last0 and shifts a[i+1..last0] one place left; elements outside [i, last0] unchanged; i == last0 changes nothing |
| Sink0.SkinRecursionRotates | app/src/main/java/com/idea/office/interview/Sink0.kt:41-49 | the same rotation as one concatenation of slices |
| Sink0.RetireZero | app/src/main/java/com/idea/office/interview/Sink0.kt:29-31 | carrying a zero to last0 keeps the multiset and the order of non-zeros |
| Sink0.Sink | app/src/main/java/com/idea/office/interview/Sink0.kt:24-38 | terminates; the result is a permutation of the input; every non-zero precedes every zero; the non-zeros keep their relative order |

## Left out

- Concurrency. The compare-and-set retry loops of `tryEmit`/`tryUpdate`/`makePending`, the
  `sequence` counter that coalesces notification passes, and the `lock` of the bus registry
  exist for thread contention. Each publish is one atomic append plus one pass.
- `LazyThreadSafetyMode.PUBLICATION`, which may run the update block more than once under
  concurrent first access and keeps the first result, and `updateImmediately`. The block is
  treated as pure, so the lazy value is stored as its result and repeated runs are not visible.
- `SystemClock.elapsedRealtime()`: clock readings are parameters.
- Coroutine suspension, resumption, cancellation (`ensureActive`, `isActive`) and
  `launch`. Only the slot cell transitions are kept. Dispatch reports the scope it would
  launch on.
- A throwing update block under `updateImmediately` (MutableEventFlow.kt:156-165). The new
  node is already appended when the block throws, so `notifyChanges` is skipped and every
  later `getValue` on that node rethrows. The model treats blocks as total and does not model
  this path.
- Exceptions from a `withEventFlowOf` block. The `finally` runs the same release either
  way, so the model has one path.
- The collector callback and the Kotlin `Flow`/`LiveData` wrappers (`sharedFlowOf`,
  `stateFlowOf`, `liveDataOf`, `distinctUntilChanged`). Collection is modelled by
  `EventCollectors`, with the delivered values as results.
- `clear()` is private and never called.
- Per-key value types: every key carries the same value type.
- `LiveEventFlow`, the concrete class `createEventFlow` builds, is not part of this model.
  A channel is modelled as a reference count around a `MutableEventFlow`.
- `Sink0.main` prints; it is not modelled. The in-place `IntArray` is modelled as a value.
- `skinRecursion` in Sink0.kt is not `tailrec`, so on the JVM a long array with an early zero
  overflows the call stack. The model's recursion has no depth limit and does not model that
  failure.
