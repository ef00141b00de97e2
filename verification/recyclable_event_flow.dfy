/**
 A model of the reference count of `RecyclableEventFlow` (RecyclableEventFlow.kt). The count is
 a Kotlin `Long` held in an `AtomicLong`, so increments and decrements wrap around in 64-bit
 two's complement; `RECYCLED` is `Long.MIN_VALUE` and `NONE` is 0.
 */
module RecyclableEventFlow {

  const LongMin: int := -0x8000_0000_0000_0000
  const LongMax: int := 0x7FFF_FFFF_FFFF_FFFF

  type Long = x: int | LongMin <= x <= LongMax

  /** `RECYCLED`: the count of an instance that has been reclaimed. */
  const Recycled: Long := LongMin

  /** `NONE`: no reference held. */
  const NoRefs: Long := 0

  /** `getAndIncrement`'s effect on the stored value. */
  function Inc(x: Long): (r: Long)
    ensures x < LongMax ==> r == x + 1
    ensures x == LongMax ==> r == LongMin
  {
    if x == LongMax then LongMin else x + 1
  }

  /** `getAndDecrement`'s effect on the stored value. */
  function Dec(x: Long): (r: Long)
    ensures x > LongMin ==> r == x - 1
    ensures x == LongMin ==> r == LongMax
  {
    if x == LongMin then LongMax else x - 1
  }

  lemma IncDecInverse(x: Long)
    ensures Dec(Inc(x)) == x && Inc(Dec(x)) == x
  {
  }

  /** The counted wrapper around a flow of type `F`. */
  datatype Recyclable<F> = Recyclable(refCount: Long, flow: F)

  /** A new instance holds no reference. */
  function NewRecyclable<F>(flow: F): (c: Recyclable<F>)
    ensures IsRecyclable(c) && c.flow == flow
  {
    Recyclable(NoRefs, flow)
  }

  /**
   `tryObtain()`: the count is always incremented; the instance is handed out (true) unless
   the count before the increment was negative, that is, the instance was recycled (false,
   the source's null).
   */
  function TryObtain<F>(c: Recyclable<F>): (r: (Recyclable<F>, bool))
    ensures r.0 == c.(refCount := Inc(c.refCount))
    ensures r.1 <==> c.refCount >= NoRefs
  {
    (c.(refCount := Inc(c.refCount)), !(c.refCount < NoRefs))
  }

  /** `obtain()`: increment unconditionally; the instance is always handed out. */
  function Obtain<F>(c: Recyclable<F>): (r: Recyclable<F>)
    ensures r.flow == c.flow
    ensures c.refCount < LongMax ==> r.refCount == c.refCount + 1
    ensures c.refCount == LongMax ==> r.refCount == LongMin
  {
    c.(refCount := Inc(c.refCount))
  }

  /** `free()`: decrement. */
  function Free<F>(c: Recyclable<F>): (r: Recyclable<F>)
    ensures r.flow == c.flow
    ensures c.refCount > LongMin ==> r.refCount == c.refCount - 1
    ensures c.refCount == LongMin ==> r.refCount == LongMax
  {
    c.(refCount := Dec(c.refCount))
  }

  /**
   `isRecyclable()`: the count is exactly `NONE`, so nobody holds a reference and the instance
   was not recycled yet; exactly then a recycle attempt whose block agrees succeeds.
   */
  function IsRecyclable<F>(c: Recyclable<F>): (r: bool)
    ensures r <==> c.refCount == NoRefs
    ensures r <==> TryRecycle(c, (_: F) => true).1
    ensures r ==> TryObtain(c).1
  {
    c.refCount == NoRefs
  }

  /**
   `tryRecycle(block)`: when the count is `NONE` it is swapped to `RECYCLED` and `block` decides;
   if `block` refuses, the count goes back to `NONE`. When the count is not `NONE`, `block` is
   not consulted and nothing changes.
   */
  function TryRecycle<F>(c: Recyclable<F>, block: F -> bool): (r: (Recyclable<F>, bool))
    ensures r.1 <==> c.refCount == NoRefs && block(c.flow)
    ensures r.1 ==> r.0 == c.(refCount := Recycled)
    ensures !r.1 ==> r.0 == c
  {
    if c.refCount == NoRefs then
      var swapped := c.(refCount := Recycled);
      if block(swapped.flow) then (swapped, true) else (swapped.(refCount := NoRefs), false)
    else (c, false)
  }

  /** An `obtain()` followed by a `free()` leaves the instance as it was. */
  lemma ObtainThenFree<F>(c: Recyclable<F>)
    ensures Free(Obtain(c)) == c
    ensures Free(TryObtain(c).0) == c
  {
    IncDecInverse(c.refCount);
  }

  /** `n` successive `tryObtain()` calls: the final instance and each call's outcome. */
  function TryObtainTimes<F>(c: Recyclable<F>, n: nat): (r: (Recyclable<F>, seq<bool>))
    decreases n
    ensures |r.1| == n
  {
    if n == 0 then (c, [])
    else
      var (c1, ok) := TryObtain(c);
      var (c2, oks) := TryObtainTimes(c1, n - 1);
      (c2, [ok] + oks)
  }

  /**
   Once recycled, an instance refuses every `tryObtain()` for as long as the increments keep
   the count negative: up to 2^63 attempts.
   */
  lemma {:induction false} RecycledRefusesObtain<F>(c: Recyclable<F>, n: nat)
    requires c.refCount < NoRefs && c.refCount + n <= NoRefs
    decreases n
    ensures TryObtainTimes(c, n).0.refCount == c.refCount + n
    ensures forall k :: 0 <= k < n ==> !TryObtainTimes(c, n).1[k]
  {
    if n > 0 {
      var c1 := TryObtain(c).0;
      if c1.refCount < NoRefs {
        RecycledRefusesObtain(c1, n - 1);
      } else {
        assert n == 1;
      }
    }
  }

  lemma SuccessfulRecycleRefusesObtain<F>(c: Recyclable<F>, block: F -> bool, n: nat)
    requires TryRecycle(c, block).1 && n <= -LongMin
    ensures forall k :: 0 <= k < n ==> !TryObtainTimes(TryRecycle(c, block).0, n).1[k]
  {
    RecycledRefusesObtain(TryRecycle(c, block).0, n);
  }
}
