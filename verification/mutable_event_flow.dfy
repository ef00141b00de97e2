/**
 A model of the publish side of `MutableEventFlow` (MutableEventFlow.kt): the append-only log of
 `LiveEvent` nodes, the current event, the list of live slots and the notification pass.

 The model is linearised: a publish is one atomic append followed by one notification pass
 over the slots, which is what the compare-and-set loops amount to when no other thread
 competes. The last node of the log is the current event (`currentEvent`).
 */
module MutableEventFlow {
  import opened Wrappers
  import opened LiveEvents
  import opened LiveSlots

  type SlotId = nat

  datatype EventFlow<T> = EventFlow(
    log: seq<LiveEvent<T>>,
    liveSlots: map<SlotId, LiveSlot>,
    nextSlotId: SlotId)

  /** The node `currentEvent` starts with: not sticky, stamped `WHEN_NOTHING`, no value. */
  function InitialEvent<T>(): LiveEvent<T> {
    NewEvent(WhenNothing, false)
  }

  /** Every node links to the node appended after it, and the newest node has no successor. */
  ghost predicate Linked<T>(log: seq<LiveEvent<T>>) {
    forall k :: 0 <= k < |log| ==> log[k].nextEvent == (if k + 1 < |log| then Some(k + 1) else None)
  }

  /** A slot in the live list: not freed, and its cursor (if any) names a node of the log. */
  ghost predicate SlotIn(s: LiveSlot, logLength: nat) {
    s.state != Freed && (s.event.None? || s.event.value < logLength)
  }

  ghost predicate Valid<T>(f: EventFlow<T>) {
    && |f.log| > 0
    && f.log[0].(nextEvent := None) == InitialEvent()
    && Linked(f.log)
    && forall id :: id in f.liveSlots ==> id < f.nextSlotId && SlotIn(f.liveSlots[id], |f.log|)
  }

  /** The states a flow can reach. */
  type Flow<T> = f: EventFlow<T> | Valid(f) witness EventFlow([InitialEvent()], map[], 0)

  /** Index of `currentEvent`. */
  function Head<T>(f: Flow<T>): nat {
    |f.log| - 1
  }

  function Current<T>(f: Flow<T>): LiveEvent<T> {
    f.log[Head(f)]
  }

  /** `event?.sticky == true`: the current event was published sticky. */
  function HoldsSticky<T>(f: Flow<T>): (r: bool)
    ensures r <==> Current(f).sticky
  {
    f.log[|f.log| - 1].sticky
  }

  /** A new flow: only the placeholder event, no slots. */
  function NewEventFlow<T>(): (f: Flow<T>)
    ensures |f.log| == 1 && Current(f) == InitialEvent()
    ensures f.liveSlots == map[]
  {
    EventFlow([InitialEvent()], map[], 0)
  }

  /** The flow with slot `id` replaced by `s`, which keeps the slot's cursor. */
  function SetSlot<T>(f: Flow<T>, id: SlotId, s: LiveSlot): (r: Flow<T>)
    requires id in f.liveSlots && s.event == f.liveSlots[id].event && s.state != Freed
    ensures r.log == f.log && r.liveSlots == f.liveSlots[id := s]
  {
    f.(liveSlots := f.liveSlots[id := s])
  }

  /** The successful compare-and-set: `e` becomes current and the old current links to it. */
  function Append<T>(f: Flow<T>, e: LiveEvent<T>): (r: Flow<T>)
    requires e.nextEvent == None
    ensures |r.log| == |f.log| + 1
    ensures r.log[..Head(f)] == f.log[..Head(f)]
    ensures r.log[Head(f)] == Current(f).(nextEvent := Some(Head(r)))
    ensures Current(r) == e
    ensures r.liveSlots == f.liveSlots && r.nextSlotId == f.nextSlotId
  {
    var last := Head(f);
    var log := f.log[last := f.log[last].(nextEvent := Some(|f.log|))] + [e];
    assert Linked(log) by {
      forall k | 0 <= k < |log|
        ensures log[k].nextEvent == (if k + 1 < |log| then Some(k + 1) else None)
      {
        if k < last {
          assert log[k] == f.log[k];
        }
      }
    }
    f.(log := log)
  }

  /**
   `notifyChanges()`, one pass: every live slot is told about the current event. A slot that
   already consumed it is left alone; every other slot ends `PENDING`, and the parked ones are
   resumed on the way. Returns the resumed slots.
   */
  function NotifyChanges<T>(f: Flow<T>): (r: (Flow<T>, set<SlotId>))
    ensures r.0.log == f.log && r.0.nextSlotId == f.nextSlotId
    ensures r.0.liveSlots.Keys == f.liveSlots.Keys
    ensures forall id :: id in r.0.liveSlots ==> r.0.liveSlots[id].event == f.liveSlots[id].event
    ensures forall id :: id in f.liveSlots && f.liveSlots[id].event == Some(Head(f)) ==>
              r.0.liveSlots[id] == f.liveSlots[id]
    ensures forall id :: id in f.liveSlots && f.liveSlots[id].event != Some(Head(f)) ==>
              r.0.liveSlots[id].state == Pending
    ensures forall id :: id in r.1 <==>
              id in f.liveSlots && f.liveSlots[id].state == Parked && f.liveSlots[id].event != Some(Head(f))
  {
    var h := Head(f);
    var slots := map id | id in f.liveSlots :: MakePending(f.liveSlots[id], h).0;
    var resumed := set id | id in f.liveSlots && MakePending(f.liveSlots[id], h).1;
    (f.(liveSlots := slots), resumed)
  }

  /** One publish: append `e`, then notify. */
  function Publish<T>(f: Flow<T>, e: LiveEvent<T>): (r: Flow<T>)
    requires e.nextEvent == None
    ensures |r.log| == |f.log| + 1
    ensures r.log[..Head(f)] == f.log[..Head(f)]
    ensures r.log[Head(f)] == Current(f).(nextEvent := Some(Head(r)))
    ensures Current(r) == e
    ensures r.liveSlots.Keys == f.liveSlots.Keys && r.nextSlotId == f.nextSlotId
    ensures forall id :: id in r.liveSlots ==>
              r.liveSlots[id].event == f.liveSlots[id].event && r.liveSlots[id].state == Pending
  {
    var g := Append(f, e);
    forall id | id in g.liveSlots
      ensures g.liveSlots[id].event != Some(Head(g))
    {
      assert SlotIn(f.liveSlots[id], |f.log|);
    }
    NotifyChanges(g).0
  }

  /**
   `tryEmit(sticky, value)`: appends exactly one node carrying `sticky` and `value`, stamped
   `now`, which becomes the current event; the previous current node links to it, earlier
   nodes are untouched, every live slot keeps its cursor and is left `PENDING` (none stays
   parked), and the call reports success.
   */
  function TryEmit<T>(f: Flow<T>, now: Clock, value: Option<T>, sticky: bool := true): (r: (Flow<T>, bool))
    ensures r.1
    ensures |r.0.log| == |f.log| + 1
    ensures r.0.log[..Head(f)] == f.log[..Head(f)]
    ensures r.0.log[Head(f)] == Current(f).(nextEvent := Some(Head(r.0)))
    ensures Current(r.0).sticky == sticky && Current(r.0).whenMs == now
    ensures Current(r.0).nextEvent == None
    ensures GetValue(Current(r.0)) == value
    ensures r.0.liveSlots.Keys == f.liveSlots.Keys && r.0.nextSlotId == f.nextSlotId
    ensures forall id :: id in r.0.liveSlots ==>
              r.0.liveSlots[id].event == f.liveSlots[id].event && r.0.liveSlots[id].state == Pending
  {
    (Publish(f, NewEvent(now, sticky, value)), true)
  }

  /**
   `tryUpdate(sticky, block)`: like `tryEmit`, but the new node's value is `block` applied to
   the previous current node's value.
   */
  function TryUpdate<T>(f: Flow<T>, now: Clock, block: Option<T> -> Option<T>, sticky: bool := true): (r: (Flow<T>, bool))
    ensures r.1
    ensures |r.0.log| == |f.log| + 1
    ensures r.0.log[..Head(f)] == f.log[..Head(f)]
    ensures r.0.log[Head(f)] == Current(f).(nextEvent := Some(Head(r.0)))
    ensures Current(r.0).sticky == sticky && Current(r.0).whenMs == now
    ensures Current(r.0).nextEvent == None
    ensures GetValue(Current(r.0)) == block(GetValue(Current(f)))
    ensures r.0.liveSlots.Keys == f.liveSlots.Keys && r.0.nextSlotId == f.nextSlotId
    ensures forall id :: id in r.0.liveSlots ==>
              r.0.liveSlots[id].event == f.liveSlots[id].event && r.0.liveSlots[id].state == Pending
  {
    var previous := Current(f);
    (Publish(f, NewEvent(now, sticky, None, Some(Lazy(block(GetValue(previous)))))), true)
  }

  /** `allocateSlot()`: a fresh `EMITTING` slot with no cursor joins the live list. */
  function AllocateSlot<T>(f: Flow<T>): (r: (Flow<T>, SlotId))
    ensures r.1 !in f.liveSlots
    ensures r.0.liveSlots == f.liveSlots[r.1 := NewSlot]
    ensures r.0.log == f.log
  {
    var id := f.nextSlotId;
    (f.(liveSlots := f.liveSlots[id := NewSlot], nextSlotId := id + 1), id)
  }

  /** `freeSlot(slot)`: the slot leaves the live list, so no later notification reaches it. */
  function FreeSlot<T>(f: Flow<T>, id: SlotId): (r: Flow<T>)
    ensures id !in r.liveSlots
    ensures forall other :: other in f.liveSlots && other != id ==>
              other in r.liveSlots && r.liveSlots[other] == f.liveSlots[other]
    ensures r.liveSlots.Keys == f.liveSlots.Keys - {id}
    ensures r.log == f.log
  {
    f.(liveSlots := f.liveSlots - {id})
  }

  /** Freeing a slot right after allocating it restores the live list. */
  lemma AllocateThenFree<T>(f: Flow<T>)
    ensures var (g, id) := AllocateSlot(f); FreeSlot(g, id).liveSlots == f.liveSlots
  {
    var (g, id) := AllocateSlot(f);
    assert FreeSlot(g, id).liveSlots == f.liveSlots;
  }

  /** The log cannot hold two different nodes that compare equal as data-class values. */
  lemma {:induction false} StructuralEqualityIsIdentity<T>(f: Flow<T>, i: nat, j: nat)
    requires i < j < |f.log|
    ensures f.log[i] != f.log[j]
  {
    assert f.log[i].nextEvent == Some(i + 1);
    if j + 1 < |f.log| {
      assert f.log[j].nextEvent == Some(j + 1);
    } else {
      assert f.log[j].nextEvent == None;
    }
  }

  /** Timestamps of published nodes are clock readings that never go backwards. */
  ghost predicate Chronological<T>(log: seq<LiveEvent<T>>) {
    && (forall k :: 1 <= k < |log| ==> log[k].whenMs >= 0)
    && (forall k :: 1 <= k < |log| - 1 ==> log[k].whenMs <= log[k + 1].whenMs)
  }

  /** Publishing with a clock that has not gone backwards keeps the log chronological. */
  lemma {:induction false} PublishKeepsChronological<T>(f: Flow<T>, e: LiveEvent<T>)
    requires e.nextEvent == None
    requires Chronological(f.log)
    requires e.whenMs >= 0 && (Head(f) > 0 ==> e.whenMs >= Current(f).whenMs)
    ensures Chronological(Publish(f, e).log)
  {
    var r := Publish(f, e);
    forall k | 1 <= k < |r.log|
      ensures r.log[k].whenMs >= 0
    {
      if k < Head(f) {
        assert r.log[k] == r.log[..Head(f)][k] == f.log[k];
      }
    }
    forall k | 1 <= k < |r.log| - 1
      ensures r.log[k].whenMs <= r.log[k + 1].whenMs
    {
      if k + 1 < Head(f) {
        assert r.log[k] == r.log[..Head(f)][k] == f.log[k];
        assert r.log[k + 1] == r.log[..Head(f)][k + 1] == f.log[k + 1];
      } else if k + 1 == Head(f) {
        assert r.log[k] == r.log[..Head(f)][k] == f.log[k];
      }
    }
  }

  /**
   Stickiness belongs to the last publish: it is the flag the latest `tryEmit` or `tryUpdate`
   was given, and subscribing or unsubscribing does not change it.
   */
  lemma StickinessFollowsLastPublish<T>(f: Flow<T>, now: Clock, value: Option<T>,
                                        block: Option<T> -> Option<T>, sticky: bool, id: SlotId)
    ensures HoldsSticky(TryEmit(f, now, value, sticky).0) == sticky
    ensures HoldsSticky(TryUpdate(f, now, block, sticky).0) == sticky
    ensures HoldsSticky(AllocateSlot(f).0) == HoldsSticky(f)
    ensures HoldsSticky(FreeSlot(f, id)) == HoldsSticky(f)
  {
  }
}
