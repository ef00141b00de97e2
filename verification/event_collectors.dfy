/**
 A model of the two consumption loops of `MutableEventFlow` (MutableEventFlow.kt):
 `collectAll`, which walks the log one node at a time, and `collectLatest`, which jumps to the
 current event. Each loop is modelled by one function per iteration; cancellation checks and
 the suspension machinery itself are not modelled, only the slot transitions they make.
 */
module EventCollectors {
  import opened Wrappers
  import opened LiveEvents
  import opened LiveSlots
  import opened MutableEventFlow

  /**
   The parameters of one `collectAll` / `collectLatest` call: the clock reading taken at
   subscription, the transform, whether sticky replay is wanted (by default it is) and the
   optional filter (none by default).
   */
  datatype Subscription<!T, !R> = Subscription(
    collectTimeMs: int,
    transform: Option<T> -> Option<R>,
    sticky: bool := true,
    filter: Option<Option<R> -> bool> := None)

  /** The timestamp/sticky rule: a node counts if it is not older than the subscription, or it is sticky and replay was asked for. */
  predicate Admits<T, R>(sub: Subscription<T, R>, e: LiveEvent<T>) {
    e.whenMs >= sub.collectTimeMs || (sub.sticky && e.sticky)
  }

  /** `filter == null || filter(value)`. */
  predicate Accepts<T, R>(sub: Subscription<T, R>, v: Option<R>) {
    sub.filter.None? || sub.filter.value(v)
  }

  datatype Delivery<R> = Delivered(value: Option<R>) | Withheld

  /** What one visited node hands to the collector. */
  function Deliver<T, R>(sub: Subscription<T, R>, e: LiveEvent<T>): (d: Delivery<R>)
    ensures d.Delivered? <==> Admits(sub, e) && Accepts(sub, sub.transform(GetValue(e)))
    ensures d.Delivered? ==> d.value == sub.transform(GetValue(e))
  {
    if Admits(sub, e) then
      var v := sub.transform(GetValue(e));
      if Accepts(sub, v) then Delivered(v) else Withheld
    else Withheld
  }

  function Values<R>(d: Delivery<R>): seq<Option<R>> {
    match d
    case Delivered(v) => [v]
    case Withheld => []
  }

  /** Reference definition: the values a collector receives for a run of visited nodes, in order. */
  function DeliveriesOf<T, R>(sub: Subscription<T, R>, events: seq<LiveEvent<T>>): seq<Option<R>> {
    if |events| == 0 then [] else Values(Deliver(sub, events[0])) + DeliveriesOf(sub, events[1..])
  }

  /** Reference definition: the values delivered for published values that are all admitted. */
  function AcceptedOf<T, R>(sub: Subscription<T, R>, values: seq<Option<T>>): seq<Option<R>> {
    if |values| == 0 then []
    else
      var v := sub.transform(values[0]);
      (if Accepts(sub, v) then [v] else []) + AcceptedOf(sub, values[1..])
  }

  datatype AllOutcome<R> =
    | Visited(node: nat, delivery: Delivery<R>)  // a node was read, and maybe delivered
    | Rechecked                                  // nothing new, but a notification was pending
    | Suspended                                  // nothing new: the consumer parked

  /**
   One iteration of `collectAll`. The candidate is the current event on the first iteration
   and the cursor's `nextEvent` afterwards. A candidate is always consumed, delivered or not;
   with no candidate the slot takes a pending notification or parks.
   */
  function CollectAllStep<T, R>(f: Flow<T>, id: SlotId, sub: Subscription<T, R>): (r: (Flow<T>, AllOutcome<R>))
    requires id in f.liveSlots
    ensures r.0.log == f.log && r.0.liveSlots.Keys == f.liveSlots.Keys && r.0.nextSlotId == f.nextSlotId
    ensures forall other :: other in f.liveSlots && other != id ==> r.0.liveSlots[other] == f.liveSlots[other]
    ensures var c := f.liveSlots[id].event;
            r.1.Visited? <==> c.None? || c.value + 1 < |f.log|
    ensures var c := f.liveSlots[id].event;
            r.1.Visited? ==>
              && r.1.node == (if c.None? then Head(f) else c.value + 1)
              && r.0.liveSlots[id] == f.liveSlots[id].(event := Some(r.1.node))
              && r.1.delivery == Deliver(sub, f.log[r.1.node])
    ensures r.1.Rechecked? <==> !r.1.Visited? && f.liveSlots[id].state == Pending
    ensures r.1.Rechecked? ==> r.0.liveSlots[id] == f.liveSlots[id].(state := Emitting)
    ensures r.1.Suspended? ==> r.0.liveSlots[id] == f.liveSlots[id].(state := Parked)
  {
    var slot := f.liveSlots[id];
    var candidate := match slot.event
      case None => Some(Head(f))
      case Some(c) => f.log[c].nextEvent;
    match candidate
    case Some(n) =>
      (f.(liveSlots := f.liveSlots[id := slot.(event := Some(n))]), Visited(n, Deliver(sub, f.log[n])))
    case None =>
      var (s1, pending) := TakePending(slot);
      if pending then (SetSlot(f, id, s1), Rechecked)
      else (SetSlot(f, id, AwaitValue(s1).0), Suspended)
  }

  /**
   `collectAll` run for as long as it finds a next node. Starting from a cursor, it visits every
   later node of the log exactly once, in log order, and hands the collector exactly
   `DeliveriesOf` those nodes; it ends with the cursor on the current event.
   */
  function DrainAll<T, R>(f: Flow<T>, id: SlotId, sub: Subscription<T, R>): (r: (Flow<T>, seq<Option<R>>))
    requires id in f.liveSlots && f.liveSlots[id].event.Some?
    decreases |f.log| - f.liveSlots[id].event.value
    ensures r.0.log == f.log && id in r.0.liveSlots
    ensures r.0.liveSlots[id].event == Some(Head(f))
    ensures r.1 == DeliveriesOf(sub, f.log[f.liveSlots[id].event.value + 1..])
  {
    var c := f.liveSlots[id].event.value;
    assert SlotIn(f.liveSlots[id], |f.log|);
    var step := CollectAllStep(f, id, sub);
    assert id in step.0.liveSlots;
    if step.1.Visited? then
      assert step.1.node == c + 1 && step.0.liveSlots[id].event == Some(c + 1);
      var rest := DrainAll(step.0, id, sub);
      DeliveriesUnfold(sub, f.log, c);
      (rest.0, Values(step.1.delivery) + rest.1)
    else
      assert c == Head(f);
      (step.0, [])
  }

  /** The deliveries for the nodes after `c`: those of node `c + 1`, then those after it. */
  lemma DeliveriesUnfold<T, R>(sub: Subscription<T, R>, log: seq<LiveEvent<T>>, c: nat)
    requires c + 1 < |log|
    ensures DeliveriesOf(sub, log[c + 1..]) == Values(Deliver(sub, log[c + 1])) + DeliveriesOf(sub, log[c + 2..])
  {
    assert log[c + 1..][1..] == log[c + 2..];
  }

  /** On its first iteration `collectAll` reads the current event, so no older node is ever visited. */
  lemma CollectAllStartsAtHead<T, R>(f: Flow<T>, sub: Subscription<T, R>)
    ensures var (g, id) := AllocateSlot(f);
            var (h, o) := CollectAllStep(g, id, sub);
            o == Visited(Head(f), Deliver(sub, Current(f))) && h.liveSlots[id].event == Some(Head(f))
  {
  }

  /**
   One publish: a `tryEmit` of a value or a `tryUpdate` with a block, each with the clock reading
   it was made at and its sticky flag.
   */
  datatype Publication<!T> =
    | Emitted(whenMs: Clock, sticky: bool, value: Option<T>)
    | Updated(whenMs: Clock, sticky: bool, block: Option<T> -> Option<T>)
  {
    /** The value the published node reads, given the value of the node before it. */
    function After(previous: Option<T>): Option<T> {
      match this
      case Emitted(_, _, v) => v
      case Updated(_, _, block) => block(previous)
    }
  }

  /**
   The values a run of publishes gives its nodes, starting after a node whose value is
   `previous`: an emit gives its value, an update gives its block of the value just before.
   */
  function ValuesOf<T>(previous: Option<T>, ps: seq<Publication<T>>): (vs: seq<Option<T>>)
    decreases |ps|
    ensures |vs| == |ps|
    ensures |ps| > 0 ==> vs[0] == ps[0].After(previous)
    ensures forall k :: 0 < k < |ps| ==> vs[k] == ps[k].After(vs[k - 1])
  {
    if |ps| == 0 then []
    else
      var v := ps[0].After(previous);
      var rest := ValuesOf(v, ps[1..]);
      assert forall k :: 1 < k < |ps| ==> ps[1..][k - 1] == ps[k] && rest[k - 1] == ps[k].After(rest[k - 2]);
      [v] + rest
  }

  /** An emit-only run gives each node exactly the emitted value, whatever came before. */
  lemma {:induction false} EmitsGiveTheirValues<T>(previous: Option<T>, ps: seq<Publication<T>>)
    requires forall k :: 0 <= k < |ps| ==> ps[k].Emitted?
    ensures forall k :: 0 <= k < |ps| ==> ValuesOf(previous, ps)[k] == ps[k].value
  {
    var vs := ValuesOf(previous, ps);
    forall k | 0 <= k < |ps|
      ensures vs[k] == ps[k].value
    {
      if k > 0 {
        assert vs[k] == ps[k].After(vs[k - 1]);
      }
    }
  }

  /** One publish on a flow: `tryEmit` or `tryUpdate`, as the publication says. */
  function PublishOne<T>(f: Flow<T>, p: Publication<T>): (r: Flow<T>)
    ensures |r.log| == |f.log| + 1
    ensures r.log[..Head(f)] == f.log[..Head(f)]
    ensures r.log[Head(f)] == Current(f).(nextEvent := Some(Head(r)))
    ensures Current(r).sticky == p.sticky && Current(r).whenMs == p.whenMs
    ensures GetValue(Current(r)) == p.After(GetValue(Current(f)))
    ensures r.liveSlots.Keys == f.liveSlots.Keys
    ensures forall id :: id in r.liveSlots ==> r.liveSlots[id].event == f.liveSlots[id].event
  {
    match p
    case Emitted(when, sticky, value) => TryEmit(f, when, value, sticky).0
    case Updated(when, sticky, block) => TryUpdate(f, when, block, sticky).0
  }

  /**
   A run of publishes. The old nodes stay where they were and one new node follows per call;
   slots keep their cursors. `PublishedNodes` states what each new node carries.
   */
  function PublishAll<T>(f: Flow<T>, ps: seq<Publication<T>>): (r: Flow<T>)
    decreases |ps|
    ensures |r.log| == |f.log| + |ps|
    ensures r.log[..Head(f)] == f.log[..Head(f)]
    ensures r.log[Head(f)].(nextEvent := None) == Current(f)
    ensures r.liveSlots.Keys == f.liveSlots.Keys
    ensures forall id :: id in r.liveSlots ==> r.liveSlots[id].event == f.liveSlots[id].event
  {
    if |ps| == 0 then f
    else
      var g := PublishOne(f, ps[0]);
      var r := PublishAll(g, ps[1..]);
      PrefixThroughPublish(f, g, r);
      r
  }

  /**
   The new nodes of a run of publishes follow in call order, each carrying its call's clock
   reading and sticky flag and the value the run computes for it.
   */
  lemma {:induction false} PublishedNodes<T>(f: Flow<T>, ps: seq<Publication<T>>)
    decreases |ps|
    ensures var r := PublishAll(f, ps);
            forall k :: 0 <= k < |ps| ==>
              r.log[|f.log| + k].sticky == ps[k].sticky && r.log[|f.log| + k].whenMs == ps[k].whenMs &&
              GetValue(r.log[|f.log| + k]) == ValuesOf(GetValue(Current(f)), ps)[k]
  {
    if |ps| > 0 {
      var g := PublishOne(f, ps[0]);
      PublishedNodes(g, ps[1..]);
      assert [ps[0]] + ps[1..] == ps;
      NewNodesThroughPublish(f, g, PublishAll(f, ps), ps[0], ps[1..]);
    }
  }

  /** The nodes before the head survive a publish and a run after it; so does the head, bar its link. */
  lemma {:induction false} PrefixThroughPublish<T>(f: Flow<T>, g: Flow<T>, r: Flow<T>)
    requires |g.log| == |f.log| + 1 && |r.log| >= |g.log|
    requires g.log[..Head(f)] == f.log[..Head(f)]
    requires g.log[Head(f)] == Current(f).(nextEvent := Some(Head(g)))
    requires r.log[..Head(g)] == g.log[..Head(g)]
    ensures r.log[..Head(f)] == f.log[..Head(f)]
    ensures r.log[Head(f)].(nextEvent := None) == Current(f)
  {
    assert r.log[..Head(f)] == r.log[..Head(g)][..Head(f)];
    assert g.log[..Head(g)][..Head(f)] == g.log[..Head(f)];
    assert r.log[Head(f)] == r.log[..Head(g)][Head(f)];
    assert Current(f).nextEvent == None;
  }

  /**
   The first publish `p` of a run makes node `|f.log|`; the rest of the run, started after it,
   makes the nodes from `|f.log| + 1` on. Together they carry the whole run's flags, times and
   values.
   */
  lemma {:induction false} NewNodesThroughPublish<T>(f: Flow<T>, g: Flow<T>, r: Flow<T>,
                                                     p: Publication<T>, rest: seq<Publication<T>>)
    requires |g.log| == |f.log| + 1 && |r.log| == |g.log| + |rest|
    requires Current(g).sticky == p.sticky && Current(g).whenMs == p.whenMs
    requires GetValue(Current(g)) == p.After(GetValue(Current(f)))
    requires r.log[Head(g)].(nextEvent := None) == Current(g)
    requires forall k :: 0 <= k < |rest| ==>
               r.log[|g.log| + k].sticky == rest[k].sticky && r.log[|g.log| + k].whenMs == rest[k].whenMs &&
               GetValue(r.log[|g.log| + k]) == ValuesOf(GetValue(Current(g)), rest)[k]
    ensures var ps := [p] + rest;
            forall k :: 0 <= k < |ps| ==>
              r.log[|f.log| + k].sticky == ps[k].sticky && r.log[|f.log| + k].whenMs == ps[k].whenMs &&
              GetValue(r.log[|f.log| + k]) == ValuesOf(GetValue(Current(f)), ps)[k]
  {
    var ps := [p] + rest;
    var vs := ValuesOf(GetValue(Current(f)), ps);
    assert ps[1..] == rest;
    assert vs == [GetValue(Current(g))] + ValuesOf(GetValue(Current(g)), rest);
    forall k | 0 <= k < |ps|
      ensures r.log[|f.log| + k].sticky == ps[k].sticky && r.log[|f.log| + k].whenMs == ps[k].whenMs
      ensures GetValue(r.log[|f.log| + k]) == vs[k]
    {
      if k > 0 {
        assert ps[k] == rest[k - 1];
        assert |g.log| + (k - 1) == |f.log| + k;
      }
    }
  }

  /** Nodes that are all admitted deliver exactly the accepted transforms of their values. */
  lemma {:induction false} AdmittedDeliveries<T, R>(sub: Subscription<T, R>, events: seq<LiveEvent<T>>, values: seq<Option<T>>)
    requires |events| == |values|
    requires forall k :: 0 <= k < |values| ==> Admits(sub, events[k]) && GetValue(events[k]) == values[k]
    ensures DeliveriesOf(sub, events) == AcceptedOf(sub, values)
  {
    if |values| > 0 {
      AdmittedDeliveries(sub, events[1..], values[1..]);
    }
  }

  /**
   Every event published after a `collectAll` subscriber has caught up, by `tryEmit` or by
   `tryUpdate`, reaches it exactly once, in publish order, filtered by the subscriber's filter:
   nothing is lost, duplicated or reordered.
   */
  lemma EveryLaterEventDelivered<T, R>(f: Flow<T>, id: SlotId, sub: Subscription<T, R>, ps: seq<Publication<T>>)
    requires id in f.liveSlots && f.liveSlots[id].event == Some(Head(f))
    requires forall k :: 0 <= k < |ps| ==> sub.collectTimeMs <= ps[k].whenMs
    ensures DrainAll(PublishAll(f, ps), id, sub).1 == AcceptedOf(sub, ValuesOf(GetValue(Current(f)), ps))
  {
    var g := PublishAll(f, ps);
    assert g.liveSlots[id].event == Some(Head(f));
    PublishedNodesAdmitted(f, sub, ps);
    AdmittedDeliveries(sub, g.log[|f.log|..], ValuesOf(GetValue(Current(f)), ps));
  }

  /** The nodes a run of publishes appends, none before the subscriber's collect time, are all admitted. */
  lemma PublishedNodesAdmitted<T, R>(f: Flow<T>, sub: Subscription<T, R>, ps: seq<Publication<T>>)
    requires forall k :: 0 <= k < |ps| ==> sub.collectTimeMs <= ps[k].whenMs
    ensures var tail := PublishAll(f, ps).log[|f.log|..];
            var vs := ValuesOf(GetValue(Current(f)), ps);
            && |tail| == |ps|
            && forall k :: 0 <= k < |ps| ==> Admits(sub, tail[k]) && GetValue(tail[k]) == vs[k]
  {
    var g := PublishAll(f, ps);
    PublishedNodes(f, ps);
    var tail := g.log[|f.log|..];
    forall k | 0 <= k < |ps|
      ensures Admits(sub, tail[k]) && GetValue(tail[k]) == ValuesOf(GetValue(Current(f)), ps)[k]
    {
      assert tail[k] == g.log[|f.log| + k];
      assert g.log[|f.log| + k].sticky == ps[k].sticky && g.log[|f.log| + k].whenMs == ps[k].whenMs;
    }
  }

  /**
   Sticky replay: a subscriber asking for replay, arriving while the current event is sticky,
   gets that event's value first (when its filter accepts it), and only once.
   */
  lemma StickyReplayOnce<T, R>(f: Flow<T>, sub: Subscription<T, R>)
    requires Current(f).sticky && sub.sticky
    requires Accepts(sub, sub.transform(GetValue(Current(f))))
    ensures var (g, id) := AllocateSlot(f);
            var (h, o) := CollectAllStep(g, id, sub);
            && o == Visited(Head(f), Delivered(sub.transform(GetValue(Current(f)))))
            && !CollectAllStep(h, id, sub).1.Visited?
  {
  }

  /** What one iteration of `collectLatest` observed. */
  datatype LatestOutcome<R> = LatestOutcome(node: Option<nat>, delivery: Delivery<R>, parked: bool)

  /**
   One iteration of `collectLatest`: when the current event differs from the slot's last-seen
   node it is read (and maybe delivered) and becomes the cursor, skipping anything in between;
   then the slot takes a pending notification or parks.
   */
  function CollectLatestStep<T, R>(f: Flow<T>, id: SlotId, sub: Subscription<T, R>): (r: (Flow<T>, LatestOutcome<R>))
    requires id in f.liveSlots
    ensures r.0.log == f.log && r.0.liveSlots.Keys == f.liveSlots.Keys && r.0.nextSlotId == f.nextSlotId
    ensures forall other :: other in f.liveSlots && other != id ==> r.0.liveSlots[other] == f.liveSlots[other]
    ensures r.0.liveSlots[id].event == Some(Head(f))
    ensures r.1.node.Some? <==> f.liveSlots[id].event != Some(Head(f))
    ensures r.1.node.Some? ==> r.1.node.value == Head(f) && r.1.delivery == Deliver(sub, Current(f))
    ensures r.1.node.None? ==> r.1.delivery == Withheld
    ensures r.1.parked <==> f.liveSlots[id].state != Pending
    ensures r.0.liveSlots[id].state == (if r.1.parked then Parked else Emitting)
  {
    var slot := f.liveSlots[id];
    var h := Head(f);
    var changed := slot.event != Some(h);
    var s1 := if changed then slot.(event := Some(h)) else slot;
    var delivery := if changed then Deliver(sub, Current(f)) else Withheld;
    var (s2, pending) := TakePending(s1);
    var (s3, parked) := if pending then (s2, false) else AwaitValue(s2);
    (f.(liveSlots := f.liveSlots[id := s3]), LatestOutcome(if changed then Some(h) else None, delivery, parked))
  }

  /** `collectLatest` never reads the same node twice: with no publish in between, a second iteration reads nothing. */
  lemma LatestNeverRepeats<T, R>(f: Flow<T>, id: SlotId, sub: Subscription<T, R>)
    requires id in f.liveSlots
    ensures var g := CollectLatestStep(f, id, sub).0;
            CollectLatestStep(g, id, sub).1 == LatestOutcome(None, Withheld, true)
  {
  }

  /**
   Coalescing: whatever a `collectLatest` subscriber saw last, after one or more publishes its
   next iteration reads the newest event and no intermediate one.
   */
  lemma LatestSkipsToNewest<T, R>(f: Flow<T>, id: SlotId, sub: Subscription<T, R>, ps: seq<Publication<T>>)
    requires id in f.liveSlots && |ps| > 0
    ensures var g := PublishAll(f, ps);
            var o := CollectLatestStep(g, id, sub).1;
            && Head(g) == |f.log| + |ps| - 1
            && o.node == Some(Head(g))
            && o.delivery == Deliver(sub, Current(g))
  {
    var g := PublishAll(f, ps);
    assert SlotIn(f.liveSlots[id], |f.log|);
    assert g.liveSlots[id].event == f.liveSlots[id].event;
    LatestReadsUnseenHead(g, id, sub);
  }

  /** A `collectLatest` slot whose cursor is not on the current event reads that event. */
  lemma LatestReadsUnseenHead<T, R>(g: Flow<T>, id: SlotId, sub: Subscription<T, R>)
    requires id in g.liveSlots && g.liveSlots[id].event != Some(Head(g))
    ensures var o := CollectLatestStep(g, id, sub).1;
            o.node == Some(Head(g)) && o.delivery == Deliver(sub, Current(g))
  {
  }

  /** Publishing and subscribing are sticky unless the caller says otherwise; there is no filter by default. */
  lemma StickyByDefault<T, R>(f: Flow<T>, now: Clock, value: Option<T>, block: Option<T> -> Option<T>,
                              transform: Option<T> -> Option<R>)
    ensures Current(TryEmit(f, now, value).0).sticky
    ensures Current(TryUpdate(f, now, block).0).sticky
    ensures Subscription(now, transform).sticky && Subscription(now, transform).filter.None?
  {
  }

  /** The placeholder event is never delivered to a subscriber whose clock reading is a real one. */
  lemma InitialEventWithheld<T, R>(sub: Subscription<T, R>)
    requires sub.collectTimeMs >= 0
    ensures Deliver(sub, InitialEvent<T>()) == Withheld
  {
  }

  /** Neither collector delivers anything on a flow nothing was published to. */
  lemma NothingFromNewFlow<T, R>(sub: Subscription<T, R>)
    requires sub.collectTimeMs >= 0
    ensures var (f, id) := AllocateSlot(NewEventFlow<T>());
            && CollectAllStep(f, id, sub).1 == Visited(0, Withheld)
            && CollectLatestStep(f, id, sub).1.delivery == Withheld
  {
    InitialEventWithheld<T, R>(sub);
  }

  /**
   A sticky 1 is published; a `collectLatest` subscriber with replay gets 1. Then non-sticky 2
   and 3 are published; its next delivery is 3. A second subscriber arriving later, with
   replay but no sticky current event, gets nothing.
   */
  lemma LatestScenario()
    ensures var sub := Subscription(20, (x: Option<int>) => x);
            var (f1, id) := AllocateSlot(TryEmit(NewEventFlow<int>(), 10, Some(1)).0);
            var (f2, first) := CollectLatestStep(f1, id, sub);
            var f3 := TryEmit(TryEmit(f2, 30, Some(2), false).0, 31, Some(3), false).0;
            var (f4, second) := CollectLatestStep(f3, id, sub);
            var (f5, late) := AllocateSlot(f4);
            && first.delivery == Delivered(Some(1))
            && second.delivery == Delivered(Some(3))
            && CollectLatestStep(f5, late, sub.(collectTimeMs := 40)).1.delivery == Withheld
  {
  }
}
