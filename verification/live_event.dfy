/**
 A model of `LiveEvent` from EventFlow.kt: one node of the append-only event log.

 The log is a sequence of nodes and a node's identity is its index in that sequence,
 so the `nextEvent` link is stored as the index of the successor.
 */
module LiveEvents {
  import opened Wrappers

  /** `LiveEvent.WHEN_NOTHING`: the timestamp of the placeholder event that exists before any publish. */
  const WhenNothing: int := -1

  /** A reading of the monotonic clock `SystemClock.elapsedRealtime()`, which is never negative. */
  type Clock = t: int | t >= 0

  /**
   The memoised result of an update's `Lazy`. The update block is a pure function of the
   previous value, so forcing the lazy value always yields the same result; the model keeps
   that result.
   */
  datatype Lazy<T> = Lazy(result: Option<T>)

  datatype LiveEvent<T> = LiveEvent(
    sticky: bool,
    nextEvent: Option<nat>,
    whenMs: int,
    value: Option<T>,
    lazyValue: Option<Lazy<T>>)

  /**
   The data-class constructor with its defaults: sticky, no successor yet, no eager and no lazy
   value. The timestamp default is the current clock reading, which the caller passes in.
   */
  function NewEvent<T>(whenMs: int, sticky: bool := true, value: Option<T> := None,
                       lazyValue: Option<Lazy<T>> := None): (e: LiveEvent<T>)
    ensures e.nextEvent == None
    ensures e.sticky == sticky && e.whenMs == whenMs
  {
    LiveEvent(sticky, None, whenMs, value, lazyValue)
  }

  /** `getValue()`: the eager value when it is non-null, else the lazy value, else null. */
  function GetValue<T>(e: LiveEvent<T>): (r: Option<T>)
    ensures e.value.Some? ==> r == e.value
    ensures e.value.None? && e.lazyValue.Some? ==> r == e.lazyValue.value.result
    ensures e.value.None? && e.lazyValue.None? ==> r == None
  {
    e.value.OrElse(match e.lazyValue case Some(l) => l.result case None => None)
  }

  /** The defaults of a node built with only a clock reading. */
  lemma DefaultEvent<T>(now: Clock)
    ensures NewEvent<T>(now).sticky
    ensures NewEvent<T>(now).nextEvent == None
    ensures NewEvent<T>(now).whenMs == now
    ensures GetValue(NewEvent<T>(now)) == None
    ensures WhenNothing < NewEvent<T>(now).whenMs
  {
  }
}
