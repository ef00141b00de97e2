/**
 A model of `Sink0` (Sink0.kt): moving every zero of an `IntArray` to its end by repeated
 adjacent swaps. The array is modelled as a value: each operation returns the new contents.
 */
module Sink0 {

  /** The non-zero elements in order. */
  function NonZeros(s: seq<int>): seq<int> {
    if |s| == 0 then [] else (if s[0] != 0 then [s[0]] else []) + NonZeros(s[1..])
  }

  lemma {:induction false} NonZerosConcat(a: seq<int>, b: seq<int>)
    ensures NonZeros(a + b) == NonZeros(a) + NonZeros(b)
  {
    if |a| > 0 {
      assert (a + b)[1..] == a[1..] + b;
      NonZerosConcat(a[1..], b);
    } else {
      assert a + b == b;
    }
  }

  /**
   `skinRecursion(intArray, i, last0)`: swapping neighbours from `i` up to `last0` carries
   `s[i]` to index `last0` and shifts `s[i+1..last0]` one place left; elements outside
   `[i, last0]` stay, and `i == last0` changes nothing.
   */
  function SkinRecursion(s: seq<int>, i: nat, last0: nat): (r: seq<int>)
    requires i <= last0 < |s|
    decreases last0 - i
    ensures |r| == |s|
    ensures r[last0] == s[i]
    ensures forall k :: i <= k < last0 ==> r[k] == s[k + 1]
    ensures forall k :: 0 <= k < |s| && (k < i || last0 < k) ==> r[k] == s[k]
  {
    if i == last0 then s
    else
      var temp := s[i];
      SkinRecursion(s[i := s[i + 1]][i + 1 := temp], i + 1, last0)
  }

  /** The rotation `SkinRecursion` performs, as a concatenation. */
  lemma SkinRecursionRotates(s: seq<int>, i: nat, last0: nat)
    requires i <= last0 < |s|
    ensures SkinRecursion(s, i, last0) == s[..i] + s[i + 1..last0 + 1] + [s[i]] + s[last0 + 1..]
  {
    var r := SkinRecursion(s, i, last0);
    var t := s[..i] + s[i + 1..last0 + 1] + [s[i]] + s[last0 + 1..];
    assert |r| == |t|;
    forall k | 0 <= k < |r|
      ensures r[k] == t[k]
    {
      if k < i {
      } else if k < last0 {
        assert t[k] == s[i + 1..last0 + 1][k - i];
      } else if k == last0 {
      } else {
        assert t[k] == s[last0 + 1..][k - last0 - 1];
      }
    }
  }

  /** A zero contributes nothing to `NonZeros`. */
  lemma NonZerosDropZero(x: seq<int>, y: seq<int>)
    ensures NonZeros(x + [0] + y) == NonZeros(x + y)
  {
    NonZerosConcat(x + [0], y);
    NonZerosConcat(x, [0]);
    NonZerosConcat(x, y);
    assert NonZeros([0]) == [];
  }

  /** Carrying a zero to `last0` only reorders, and leaves the non-zeros in order. */
  lemma RetireZero(s: seq<int>, i: nat, last0: nat)
    requires i <= last0 < |s| && s[i] == 0
    ensures multiset(SkinRecursion(s, i, last0)) == multiset(s)
    ensures NonZeros(SkinRecursion(s, i, last0)) == NonZeros(s)
  {
    var p, m, q := s[..i], s[i + 1..last0 + 1], s[last0 + 1..];
    SplitAround(s, i, last0);
    SkinRecursionRotates(s, i, last0);
    ZeroMoved(p, m, q);
  }

  /** `s` cut around index `i` and after index `last0`. */
  lemma SplitAround(s: seq<int>, i: nat, last0: nat)
    requires i <= last0 < |s|
    ensures s == s[..i] + [s[i]] + (s[i + 1..last0 + 1] + s[last0 + 1..])
  {
    assert s[i + 1..] == s[i + 1..last0 + 1] + s[last0 + 1..];
    assert s == s[..i] + [s[i]] + s[i + 1..];
  }

  /** Moving a zero from before `m` to after it changes neither the elements nor the non-zeros. */
  lemma ZeroMoved(p: seq<int>, m: seq<int>, q: seq<int>)
    ensures multiset(p + m + [0] + q) == multiset(p + [0] + (m + q))
    ensures NonZeros(p + m + [0] + q) == NonZeros(p + [0] + (m + q))
  {
    NonZerosDropZero(p, m + q);
    NonZerosDropZero(p + m, q);
    assert p + (m + q) == (p + m) + q;
  }

  /** Every zero of `s` comes after every non-zero. */
  predicate ZerosLast(s: seq<int>) {
    forall j, k :: 0 <= j < k < |s| && s[j] == 0 ==> s[k] == 0
  }

  /**
   `sink(intArray)`: the result is a permutation of the input in which every non-zero comes
   before every zero and the non-zeros keep their order. The loop ends because every round
   either retires a zero (`last0` falls) or passes a non-zero (`i` rises).
   */
  method Sink(a: seq<int>) returns (r: seq<int>)
    ensures |r| == |a|
    ensures multiset(r) == multiset(a)
    ensures ZerosLast(r)
    ensures NonZeros(r) == NonZeros(a)
  {
    r := a;
    var last0 := |r| - 1;
    var i := 0;
    while i < last0
      invariant -1 <= last0 < |r| == |a|
      invariant 0 <= i <= last0 + 1
      invariant forall k :: 0 <= k < i ==> r[k] != 0
      invariant forall k :: last0 < k < |r| ==> r[k] == 0
      invariant multiset(r) == multiset(a)
      invariant NonZeros(r) == NonZeros(a)
      decreases last0 - i
    {
      var value := r[i];
      if value == 0 {
        RetireZero(r, i, last0);
        r := SkinRecursion(r, i, last0);
        last0 := last0 - 1;
      }
      value := r[i];
      if value != 0 {
        i := i + 1;
      }
    }
  }
}
