/**
 A model of `LiveSlot` and its wake-up cell from MutableEventFlow.kt: a consumer's cursor into
 the log and the three-state cell (`EMITTING`, `PENDING`, a parked continuation) that a
 notifier and the consumer hand back and forth. `Freed` is the null that `freeSlot` stores.
 Each operation is one sequential transition; the compare-and-set retries are collapsed.
 */
module LiveSlots {
  import opened Wrappers

  datatype SlotState = Emitting | Pending | Parked | Freed

  /** `event` is the index of the last node this slot consumed (null before the first). */
  datatype LiveSlot = LiveSlot(state: SlotState, event: Option<nat>)

  /** A freshly allocated slot: `EMITTING`, nothing consumed. */
  const NewSlot: LiveSlot := LiveSlot(Emitting, None)

  /** One pass of the loop in `makePending`. */
  datatype PendingStep = Return(slot: LiveSlot) | Resume(slot: LiveSlot)

  function MakePendingStep(s: LiveSlot, announced: nat): (r: PendingStep)
    ensures r.slot.event == s.event
    ensures r.Resume? <==> s.event != Some(announced) && s.state == Parked
    ensures r.Resume? ==> r.slot.state == Emitting
    ensures r.Return? && s.event != Some(announced) && s.state == Emitting ==> r.slot.state == Pending
    ensures r.Return? && !(s.event != Some(announced) && s.state == Emitting) ==> r.slot == s
  {
    if s.event == Some(announced) then Return(s)
    else match s.state
      case Emitting => Return(s.(state := Pending))
      case Parked => Resume(s.(state := Emitting))
      case _ => Return(s)
  }

  function Rank(st: SlotState): nat {
    if st == Parked then 1 else 0
  }

  /**
   `makePending(event)`: the whole loop. The result's flag tells whether a parked consumer was
   resumed. After a resume the loop goes round again, finds `EMITTING` and leaves `PENDING`.
   */
  function MakePending(s: LiveSlot, announced: nat): (r: (LiveSlot, bool))
    decreases Rank(s.state)
    ensures r.0.event == s.event
    ensures r.1 <==> s.event != Some(announced) && s.state == Parked
    ensures s.event == Some(announced) ==> r.0 == s
    ensures s.event != Some(announced) && (s.state == Emitting || s.state == Parked) ==> r.0.state == Pending
    ensures s.state == Pending || s.state == Freed ==> r.0 == s
  {
    match MakePendingStep(s, announced)
    case Return(s') => (s', false)
    case Resume(s') => (MakePending(s', announced).0, true)
  }

  /** `takePending()`: set `EMITTING`; report whether a notification was pending. */
  function TakePending(s: LiveSlot): (r: (LiveSlot, bool))
    ensures r.0.state == Emitting && r.0.event == s.event
    ensures r.1 <==> s.state == Pending
  {
    (s.(state := Emitting), s.state == Pending)
  }

  /**
   `awaitValue()`: park only when the cell is `EMITTING`; otherwise a notifier got in first and
   the consumer carries on at once. The flag tells whether the consumer parked.
   */
  function AwaitValue(s: LiveSlot): (r: (LiveSlot, bool))
    ensures r.1 <==> s.state == Emitting
    ensures r.1 ==> r.0 == s.(state := Parked)
    ensures !r.1 ==> r.0 == s
  {
    if s.state == Emitting then (s.(state := Parked), true) else (s, false)
  }

  /** What `freeSlot` does to the slot itself: the state becomes null. */
  function Free(s: LiveSlot): (r: LiveSlot)
    ensures r.state == Freed && r.event == s.event
  {
    s.(state := Freed)
  }

  /** A notifier that reaches a freed slot leaves it alone. */
  lemma FreedSlotIgnoresNotification(s: LiveSlot, announced: nat)
    ensures MakePending(Free(s), announced) == (Free(s), false)
  {
  }

  /**
   The consumer's side of an idle iteration, with the notifier's announcement placed at one of
   the three points it can fall: 0 before `takePending`, 1 between `takePending` and
   `awaitValue`, 2 after `awaitValue`. Returns the final cell and whether the consumer is left
   parked without having been resumed.
   */
  function IdleIteration(s: LiveSlot, announced: nat, at: nat): (r: (LiveSlot, bool))
    requires at <= 2
  {
    var s0 := if at == 0 then MakePending(s, announced).0 else s;
    var (s1, pending) := TakePending(s0);
    if pending then (s1, false)
    else
      var s2 := if at == 1 then MakePending(s1, announced).0 else s1;
      var (s3, parked) := AwaitValue(s2);
      if at == 2 then
        var (s4, resumed) := MakePending(s3, announced);
        (s4, parked && !resumed)
      else (s3, parked)
  }

  /**
   No lost wake-up: when the consumer has not yet seen the announced node and is running
   (`EMITTING`, or already `PENDING` from an earlier notification), then wherever the
   notification falls, the consumer does not stay parked.
   */
  lemma {:induction false} NoLostWakeup(s: LiveSlot, announced: nat, at: nat)
    requires at <= 2
    requires (s.state == Emitting || s.state == Pending) && s.event != Some(announced)
    ensures !IdleIteration(s, announced, at).1
  {
    if s.state == Pending {
      assert at == 0 ==> MakePending(s, announced).0 == s;
      assert TakePending(s).1;
    } else if at == 0 {
      assert MakePending(s, announced).0.state == Pending;
    } else if at == 1 {
      var s1 := TakePending(s).0;
      assert MakePending(s1, announced).0.state == Pending;
    } else {
      var s1 := TakePending(s).0;
      var s3 := AwaitValue(s1).0;
      assert s3.state == Parked && s3.event == s.event;
      assert MakePending(s3, announced).1;
    }
  }
}
