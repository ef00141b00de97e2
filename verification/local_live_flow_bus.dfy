/**
 A model of `LocalLiveFlowBus` (LocalLiveFlowBus.kt): the registry from an event-type key to
 its reference-counted event flow, the registry from a key to its dispatch scope, and the
 automatic reclamation of unused channels.

 The lock and the double-checked fast path are sequential here; a publish launched on a
 dispatch scope happens as one step, and the functions report which scope it was launched on.
 All keys share one value type `T`.
 */
module LocalLiveFlowBus {
  import opened Wrappers
  import opened LiveEvents
  import opened MutableEventFlow
  import opened RecyclableEventFlow
  import LiveSlots

  type Channel<T> = Recyclable<Flow<T>>

  datatype Bus<K, S, T> = Bus(
    defaultDispatchScope: S,
    autoClear: bool,
    eventFlowMap: map<K, Channel<T>>,
    dispatchScopeMap: map<K, S>)

  /** A new bus: nothing registered; reclamation off unless asked for. */
  function NewBus<K, S, T>(defaultDispatchScope: S, autoClear: bool := false): (b: Bus<K, S, T>)
    ensures b.eventFlowMap == map[] && b.dispatchScopeMap == map[]
    ensures b.autoClear == autoClear && b.defaultDispatchScope == defaultDispatchScope
  {
    Bus(defaultDispatchScope, autoClear, map[], map[])
  }

  /** No recycled channel stays registered. */
  ghost predicate Live<K, S, T>(b: Bus<K, S, T>) {
    forall k :: k in b.eventFlowMap ==> b.eventFlowMap[k].refCount >= NoRefs
  }

  /** `dispatchScopeOf(clazz)`: the key's configured scope, else the default. */
  function DispatchScopeOf<K, S, T>(b: Bus<K, S, T>, key: K): (s: S)
    ensures key in b.dispatchScopeMap ==> s == b.dispatchScopeMap[key]
    ensures key !in b.dispatchScopeMap ==> s == b.defaultDispatchScope
  {
    if key in b.dispatchScopeMap then b.dispatchScopeMap[key] else b.defaultDispatchScope
  }

  /**
   `configureDispatchScope(clazz, scope)`: a scope installs it for the key, null removes the
   key's scope so the default applies again; nothing else changes.
   */
  function ConfigureDispatchScope<K, S, T>(b: Bus<K, S, T>, key: K, scope: Option<S>): (r: Bus<K, S, T>)
    ensures r.eventFlowMap == b.eventFlowMap && r.defaultDispatchScope == b.defaultDispatchScope
    ensures r.autoClear == b.autoClear
    ensures DispatchScopeOf(r, key) == scope.GetOr(b.defaultDispatchScope)
    ensures scope.None? ==> key !in r.dispatchScopeMap
    ensures r.dispatchScopeMap - {key} == b.dispatchScopeMap - {key}
  {
    match scope
    case None => b.(dispatchScopeMap := b.dispatchScopeMap - {key})
    case Some(s) => b.(dispatchScopeMap := b.dispatchScopeMap[key := s])
  }

  /** `getEventFlowOrNull(clazz)`: the registered flow, or null. */
  function GetEventFlowOrNull<K, S, T>(b: Bus<K, S, T>, key: K): (r: Option<Flow<T>>)
    ensures r.Some? <==> key in b.eventFlowMap
    ensures r.Some? ==> r.value == b.eventFlowMap[key].flow
  {
    if key in b.eventFlowMap then Some(b.eventFlowMap[key].flow) else None
  }

  /** `valueOf(clazz)`: the current event's value, or null when no channel is registered. */
  function ValueOf<K, S, T>(b: Bus<K, S, T>, key: K): (r: Option<T>)
    ensures key !in b.eventFlowMap ==> r == None
    ensures key in b.eventFlowMap ==> r == GetValue(Current(b.eventFlowMap[key].flow))
  {
    match GetEventFlowOrNull(b, key)
    case Some(f) => GetValue(Current(f))
    case None => None
  }

  /** The reference count a key's channel holds, with an absent channel counting as none. */
  function RefCountOf<K, S, T>(b: Bus<K, S, T>, key: K): int {
    if key in b.eventFlowMap then b.eventFlowMap[key].refCount else 0
  }

  /**
   `obtainEventFlow(clazz)`: when the registered channel's `tryObtain` succeeds (fast path, or
   again under the lock) that channel is used, one reference more; otherwise a fresh channel
   holding one reference replaces whatever was registered. Nothing else changes. A failed
   fast-path attempt still increments, so a count of -1 is revived by the second attempt.
   */
  function ObtainEventFlow<K, S, T>(b: Bus<K, S, T>, key: K): (r: Bus<K, S, T>)
    ensures key in r.eventFlowMap
    ensures key in b.eventFlowMap && b.eventFlowMap[key].refCount >= NoRefs ==>
              r.eventFlowMap[key] == b.eventFlowMap[key].(refCount := Inc(b.eventFlowMap[key].refCount))
    ensures key in b.eventFlowMap && b.eventFlowMap[key].refCount == -1 ==>
              r.eventFlowMap[key] == b.eventFlowMap[key].(refCount := 1)
    ensures !(key in b.eventFlowMap && b.eventFlowMap[key].refCount >= -1) ==>
              r.eventFlowMap[key] == Recyclable(1, NewEventFlow())
    ensures forall k :: k in b.eventFlowMap && k != key ==>
              k in r.eventFlowMap && r.eventFlowMap[k] == b.eventFlowMap[k]
    ensures r.eventFlowMap.Keys == b.eventFlowMap.Keys + {key}
    ensures r.dispatchScopeMap == b.dispatchScopeMap && r.autoClear == b.autoClear
    ensures r.defaultDispatchScope == b.defaultDispatchScope
  {
    if key in b.eventFlowMap && TryObtain(b.eventFlowMap[key]).1 then
      b.(eventFlowMap := b.eventFlowMap[key := TryObtain(b.eventFlowMap[key]).0])
    else
      // the fast path's failed attempt still incremented the registered count
      var b1 := if key in b.eventFlowMap then b.(eventFlowMap := b.eventFlowMap[key := TryObtain(b.eventFlowMap[key]).0]) else b;
      if key in b1.eventFlowMap && TryObtain(b1.eventFlowMap[key]).1 then
        b1.(eventFlowMap := b1.eventFlowMap[key := TryObtain(b1.eventFlowMap[key]).0])
      else
        b1.(eventFlowMap := b1.eventFlowMap[key := Obtain(NewRecyclable(NewEventFlow()))])
  }

  /**
   `tryClearEventFlow(clazz)`: with reclamation on, the registered channel is removed exactly
   when `tryRecycle` succeeds, that is, it holds no reference and its current event is not
   sticky. In every other case the registry is left as it was.
   */
  function TryClearEventFlow<K, S, T>(b: Bus<K, S, T>, key: K): (r: Bus<K, S, T>)
    ensures !b.autoClear ==> r == b
    ensures r == (if b.autoClear && key in b.eventFlowMap && IsRecyclable(b.eventFlowMap[key]) &&
                     !HoldsSticky(b.eventFlowMap[key].flow)
                  then b.(eventFlowMap := b.eventFlowMap - {key}) else b)
  {
    if !b.autoClear then b
    else if key !in b.eventFlowMap then b
    else
      var (c, recycled) := TryRecycle(b.eventFlowMap[key], (f: Flow<T>) => !HoldsSticky(f));
      if recycled then b.(eventFlowMap := b.eventFlowMap - {key})
      else b.(eventFlowMap := b.eventFlowMap[key := c])
  }

  /**
   The `finally` of `withEventFlowOf`: free the reference taken, then, when the caller allows
   it, reclamation is on, the count is back to `NONE` and the current event is not sticky,
   try to clear the channel.
   */
  function Release<K, S, T>(b: Bus<K, S, T>, key: K, tryClear: bool): (r: Bus<K, S, T>)
    requires key in b.eventFlowMap
    ensures !tryClear ==> r == b.(eventFlowMap := b.eventFlowMap[key := Free(b.eventFlowMap[key])])
    ensures key in r.eventFlowMap ==> r.eventFlowMap[key] == Free(b.eventFlowMap[key])
    ensures forall k :: k in b.eventFlowMap && k != key ==>
              k in r.eventFlowMap && r.eventFlowMap[k] == b.eventFlowMap[k]
    ensures r.dispatchScopeMap == b.dispatchScopeMap && r.autoClear == b.autoClear
    ensures r.eventFlowMap.Keys <= b.eventFlowMap.Keys
    ensures key !in r.eventFlowMap <==>
              tryClear && b.autoClear && b.eventFlowMap[key].refCount == 1 &&
              !HoldsSticky(b.eventFlowMap[key].flow)
  {
    var freed := Free(b.eventFlowMap[key]);
    var b1 := b.(eventFlowMap := b.eventFlowMap[key := freed]);
    if tryClear && b.autoClear && IsRecyclable(freed) && !HoldsSticky(freed.flow) then
      TryClearEventFlow(b1, key)
    else b1
  }

  /** `withEventFlowOf(clazz, tryClear, block)`: obtain the channel, run `block` on its flow, release. */
  function WithEventFlowOf<K, S, T>(b: Bus<K, S, T>, key: K, tryClear: bool, block: Flow<T> -> Flow<T>): (r: Bus<K, S, T>)
    ensures forall k :: k in b.eventFlowMap && k != key ==>
              k in r.eventFlowMap && r.eventFlowMap[k] == b.eventFlowMap[k]
    ensures r.eventFlowMap.Keys <= b.eventFlowMap.Keys + {key}
    ensures !tryClear ==> r.eventFlowMap.Keys == b.eventFlowMap.Keys + {key}
    ensures !tryClear ==> r.eventFlowMap[key].flow == block(ObtainEventFlow(b, key).eventFlowMap[key].flow)
    ensures r.dispatchScopeMap == b.dispatchScopeMap
    ensures r.autoClear == b.autoClear
    ensures r.defaultDispatchScope == b.defaultDispatchScope
  {
    var b1 := ObtainEventFlow(b, key);
    var c := b1.eventFlowMap[key];
    Release(b1.(eventFlowMap := b1.eventFlowMap[key := c.(flow := block(c.flow))]), key, tryClear)
  }

  /**
   Every call of `withEventFlowOf` gives back the reference it took, so the key's count is the
   same afterwards (with an absent channel counting as none), whether the channel was kept or
   reclaimed, and whatever `block` did.
   */
  lemma {:induction false} WithEventFlowOfNetZero<K, S, T>(b: Bus<K, S, T>, key: K, tryClear: bool, block: Flow<T> -> Flow<T>)
    requires Live(b)
    requires key in b.eventFlowMap ==> b.eventFlowMap[key].refCount < LongMax
    ensures RefCountOf(WithEventFlowOf(b, key, tryClear, block), key) == RefCountOf(b, key)
    ensures Live(WithEventFlowOf(b, key, tryClear, block))
  {
    var b1 := ObtainEventFlow(b, key);
    var c := b1.eventFlowMap[key];
    var b2 := b1.(eventFlowMap := b1.eventFlowMap[key := c.(flow := block(c.flow))]);
    assert c.refCount == RefCountOf(b, key) + 1;
    var r := Release(b2, key, tryClear);
    assert r == WithEventFlowOf(b, key, tryClear, block);
    if key in r.eventFlowMap {
      if tryClear && b2.autoClear && IsRecyclable(Free(c)) && !HoldsSticky(Free(c).flow) {
        assert r.eventFlowMap[key] == Free(c).(flow := block(c.flow));
      } else {
        assert r.eventFlowMap[key] == Free(c.(flow := block(c.flow)));
      }
    }
    assert RefCountOf(r, key) == RefCountOf(b, key);
    forall k | k in r.eventFlowMap
      ensures r.eventFlowMap[k].refCount >= NoRefs
    {
      if k != key {
        assert r.eventFlowMap[k] == b.eventFlowMap[k];
      }
    }
  }

  /** The flow `tryEmit` leaves behind (its success flag is always true). */
  function EmitOn<T>(f: Flow<T>, now: Clock, value: Option<T>, sticky: bool): Flow<T> {
    TryEmit(f, now, value, sticky).0
  }

  /** The flow `tryUpdate` leaves behind. */
  function UpdateOn<T>(f: Flow<T>, now: Clock, block: Option<T> -> Option<T>, sticky: bool): Flow<T> {
    TryUpdate(f, now, block, sticky).0
  }

  /** The block `dispatch` hands to `withEventFlowOf`. */
  function EmitBlock<T>(now: Clock, value: Option<T>, sticky: bool): Flow<T> -> Flow<T> {
    (f: Flow<T>) => EmitOn(f, now, value, sticky)
  }

  /** The block `update` hands to `withEventFlowOf`. */
  function UpdateBlock<T>(now: Clock, block: Option<T> -> Option<T>, sticky: bool): Flow<T> -> Flow<T> {
    (f: Flow<T>) => UpdateOn(f, now, block, sticky)
  }

  /**
   `dispatch(sticky, clazz, value)`: launched on the key's dispatch scope, it emits `value` on
   the key's channel (creating it if needed) with `tryClear = false`, so it never reclaims.
   Returns the bus and the scope the publish ran on.
   */
  function Dispatch<K, S, T>(b: Bus<K, S, T>, key: K, now: Clock, value: Option<T>, sticky: bool := true): (r: (Bus<K, S, T>, S))
    ensures r.1 == DispatchScopeOf(b, key)
    ensures r.0.eventFlowMap.Keys == b.eventFlowMap.Keys + {key}
    ensures r.0.dispatchScopeMap == b.dispatchScopeMap
    ensures r.0.autoClear == b.autoClear
    ensures r.0.defaultDispatchScope == b.defaultDispatchScope
    ensures r.0.eventFlowMap[key].flow == TryEmit(ObtainEventFlow(b, key).eventFlowMap[key].flow, now, value, sticky).0
    ensures forall k :: k in b.eventFlowMap && k != key ==> r.0.eventFlowMap[k] == b.eventFlowMap[k]
  {
    (WithEventFlowOf(b, key, false, EmitBlock(now, value, sticky)), DispatchScopeOf(b, key))
  }

  /** `update(sticky, clazz, block)`: as `dispatch`, publishing `block` of the previous value. */
  function Update<K, S, T>(b: Bus<K, S, T>, key: K, now: Clock, block: Option<T> -> Option<T>, sticky: bool := true): (r: (Bus<K, S, T>, S))
    ensures r.1 == DispatchScopeOf(b, key)
    ensures r.0.eventFlowMap.Keys == b.eventFlowMap.Keys + {key}
    ensures r.0.dispatchScopeMap == b.dispatchScopeMap
    ensures r.0.autoClear == b.autoClear
    ensures r.0.defaultDispatchScope == b.defaultDispatchScope
    ensures r.0.eventFlowMap[key].flow == TryUpdate(ObtainEventFlow(b, key).eventFlowMap[key].flow, now, block, sticky).0
    ensures forall k :: k in b.eventFlowMap && k != key ==> r.0.eventFlowMap[k] == b.eventFlowMap[k]
  {
    (WithEventFlowOf(b, key, false, UpdateBlock(now, block, sticky)), DispatchScopeOf(b, key))
  }

  /** `dispatch` gives back the reference it took, and leaves no recycled channel registered. */
  lemma DispatchNetZero<K, S, T>(b: Bus<K, S, T>, key: K, now: Clock, value: Option<T>, sticky: bool)
    requires Live(b)
    requires key in b.eventFlowMap ==> b.eventFlowMap[key].refCount < LongMax
    ensures RefCountOf(Dispatch(b, key, now, value, sticky).0, key) == RefCountOf(b, key)
    ensures Live(Dispatch(b, key, now, value, sticky).0)
  {
    var blk := EmitBlock(now, value, sticky);
    WithEventFlowOfNetZero(b, key, false, blk);
    assert WithEventFlowOf(b, key, false, blk) == Dispatch(b, key, now, value, sticky).0;
  }

  /** `update` gives back the reference it took, and leaves no recycled channel registered. */
  lemma UpdateNetZero<K, S, T>(b: Bus<K, S, T>, key: K, now: Clock, block: Option<T> -> Option<T>, sticky: bool)
    requires Live(b)
    requires key in b.eventFlowMap ==> b.eventFlowMap[key].refCount < LongMax
    ensures RefCountOf(Update(b, key, now, block, sticky).0, key) == RefCountOf(b, key)
    ensures Live(Update(b, key, now, block, sticky).0)
  {
    var blk := UpdateBlock(now, block, sticky);
    WithEventFlowOfNetZero(b, key, false, blk);
    assert WithEventFlowOf(b, key, false, blk) == Update(b, key, now, block, sticky).0;
  }

  /** A dispatched value is what `valueOf` reads next. */
  lemma DispatchThenValueOf<K, S, T>(b: Bus<K, S, T>, key: K, now: Clock, value: Option<T>, sticky: bool)
    ensures ValueOf(Dispatch(b, key, now, value, sticky).0, key) == value
  {
  }

  /** On a bus with no recycled channel, `valueOf` after `update` reads `block` of the value before. */
  lemma UpdateThenValueOf<K, S, T>(b: Bus<K, S, T>, key: K, now: Clock, block: Option<T> -> Option<T>, sticky: bool)
    requires Live(b)
    ensures ValueOf(Update(b, key, now, block, sticky).0, key) == block(ValueOf(b, key))
  {
    var previous := ObtainEventFlow(b, key).eventFlowMap[key].flow;
    assert GetValue(Current(previous)) == ValueOf(b, key);
    var r := Update(b, key, now, block, sticky).0;
    assert r.eventFlowMap[key].flow == TryUpdate(previous, now, block, sticky).0;
  }

  /**
   The start of a `sharedFlowOf` / `stateFlowOf` collection: `withEventFlowOf(clazz, true)`
   obtains the channel and the collector allocates its slot. The collection loop then runs
   on the channel's flow.
   */
  function Subscribe<K, S, T>(b: Bus<K, S, T>, key: K): (r: (Bus<K, S, T>, SlotId))
    ensures key in r.0.eventFlowMap && r.1 in r.0.eventFlowMap[key].flow.liveSlots
    ensures var obtained := ObtainEventFlow(b, key).eventFlowMap[key];
            && r.0.eventFlowMap[key].refCount == obtained.refCount
            && r.0.eventFlowMap[key].flow.log == obtained.flow.log
            && r.1 !in obtained.flow.liveSlots
            && r.0.eventFlowMap[key].flow.liveSlots == obtained.flow.liveSlots[r.1 := LiveSlots.NewSlot]
    ensures key in b.eventFlowMap && NoRefs <= b.eventFlowMap[key].refCount < LongMax ==>
              && r.0.eventFlowMap[key].refCount == b.eventFlowMap[key].refCount + 1
              && r.0.eventFlowMap[key].flow.log == b.eventFlowMap[key].flow.log
              && r.1 !in b.eventFlowMap[key].flow.liveSlots
              && r.0.eventFlowMap[key].flow.liveSlots == b.eventFlowMap[key].flow.liveSlots[r.1 := LiveSlots.NewSlot]
    ensures !(key in b.eventFlowMap && b.eventFlowMap[key].refCount >= -1) ==>
              && r.0.eventFlowMap[key].refCount == 1
              && r.0.eventFlowMap[key].flow.log == [InitialEvent()]
              && r.0.eventFlowMap[key].flow.liveSlots == map[r.1 := LiveSlots.NewSlot]
    ensures forall k :: k in b.eventFlowMap && k != key ==>
              k in r.0.eventFlowMap && r.0.eventFlowMap[k] == b.eventFlowMap[k]
    ensures r.0.eventFlowMap.Keys == b.eventFlowMap.Keys + {key}
  {
    var b1 := ObtainEventFlow(b, key);
    var c := b1.eventFlowMap[key];
    var (f, id) := AllocateSlot(c.flow);
    (b1.(eventFlowMap := b1.eventFlowMap[key := c.(flow := f)]), id)
  }

  /**
   The end of a collection (completion or cancellation): the slot is freed, then the channel is
   released with `tryClear = true`, so it may be reclaimed.
   */
  function Unsubscribe<K, S, T>(b: Bus<K, S, T>, key: K, id: SlotId): (r: Bus<K, S, T>)
    requires key in b.eventFlowMap
    ensures key !in r.eventFlowMap <==>
              b.autoClear && b.eventFlowMap[key].refCount == 1 && !HoldsSticky(b.eventFlowMap[key].flow)
    ensures key in r.eventFlowMap ==>
              && r.eventFlowMap[key].refCount == Dec(b.eventFlowMap[key].refCount)
              && r.eventFlowMap[key].flow.log == b.eventFlowMap[key].flow.log
              && r.eventFlowMap[key].flow.liveSlots == b.eventFlowMap[key].flow.liveSlots - {id}
    ensures forall k :: k in b.eventFlowMap && k != key ==>
              k in r.eventFlowMap && r.eventFlowMap[k] == b.eventFlowMap[k]
    ensures r.eventFlowMap.Keys <= b.eventFlowMap.Keys
  {
    var c := b.eventFlowMap[key];
    Release(b.(eventFlowMap := b.eventFlowMap[key := c.(flow := FreeSlot(c.flow, id))]), key, true)
  }

  /** A channel whose current event is sticky survives every release and every clear attempt. */
  lemma StickyChannelNeverReclaimed<K, S, T>(b: Bus<K, S, T>, key: K, tryClear: bool)
    requires key in b.eventFlowMap && HoldsSticky(b.eventFlowMap[key].flow)
    ensures key in TryClearEventFlow(b, key).eventFlowMap
    ensures key in Release(b, key, tryClear).eventFlowMap
  {
  }

  /**
   A collection that starts and ends gives back the reference `withEventFlowOf(clazz, true)`
   took: the key's count is the same afterwards (an absent channel counting as none), and no
   recycled channel stays registered.
   */
  lemma SubscribeUnsubscribeNetZero<K, S, T>(b: Bus<K, S, T>, key: K)
    requires Live(b)
    requires key in b.eventFlowMap ==> b.eventFlowMap[key].refCount < LongMax
    ensures var (b1, id) := Subscribe(b, key);
            var r := Unsubscribe(b1, key, id);
            RefCountOf(r, key) == RefCountOf(b, key) && Live(r)
  {
    var (b1, id) := Subscribe(b, key);
    var c1 := b1.eventFlowMap[key];
    assert c1.refCount == RefCountOf(b, key) + 1;
    var r := Unsubscribe(b1, key, id);
    if key in r.eventFlowMap {
      assert r.eventFlowMap[key].refCount == c1.refCount - 1;
    }
    assert RefCountOf(r, key) == RefCountOf(b, key);
    forall k | k in r.eventFlowMap
      ensures r.eventFlowMap[k].refCount >= NoRefs
    {
      if k != key {
        assert r.eventFlowMap[k] == b1.eventFlowMap[k] == b.eventFlowMap[k];
      }
    }
  }

  /** A channel kept through a collection that starts and ends has the live slots it had before. */
  lemma SubscribeUnsubscribeRestoresSlots<K, S, T>(b: Bus<K, S, T>, key: K)
    requires key in b.eventFlowMap && NoRefs <= b.eventFlowMap[key].refCount < LongMax
    ensures var (b1, id) := Subscribe(b, key);
            var r := Unsubscribe(b1, key, id);
            key in r.eventFlowMap ==> r.eventFlowMap[key].flow.liveSlots == b.eventFlowMap[key].flow.liveSlots
  {
    var (b1, id) := Subscribe(b, key);
    var before := b.eventFlowMap[key].flow.liveSlots;
    assert b1.eventFlowMap[key].flow.liveSlots == before[id := LiveSlots.NewSlot] && id !in before;
    var r := Unsubscribe(b1, key, id);
    if key in r.eventFlowMap {
      assert r.eventFlowMap[key].flow.liveSlots == before[id := LiveSlots.NewSlot] - {id};
    }
  }

  /**
   Reclamation: with reclamation on, the only subscriber of a key that nobody published to
   leaves, and the channel is removed from the registry.
   */
  lemma LastSubscriberReclaims<K, S, T>(b: Bus<K, S, T>, key: K)
    requires b.autoClear && key !in b.eventFlowMap
    ensures var (b1, id) := Subscribe(b, key);
            key !in Unsubscribe(b1, key, id).eventFlowMap
  {
  }

  /** A sticky publish keeps the channel registered even after its last subscriber leaves. */
  lemma StickyPublishSurvivesUnsubscribe<K, S, T>(b: Bus<K, S, T>, key: K, now: Clock, value: Option<T>)
    requires key !in b.eventFlowMap
    ensures var (b1, id) := Subscribe(b, key);
            var b2 := Dispatch(b1, key, now, value, true).0;
            key in Unsubscribe(b2, key, id).eventFlowMap
  {
  }
}
