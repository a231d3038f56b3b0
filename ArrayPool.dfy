/** src/Pooling/ArrayPool.cs: a pool of reusable arrays, one queue per array
    length. Queue `j` of `pool` holds arrays of length `j + 1`, front first.
    Arrays hold runtime values; clearing writes null into every slot. */
module Pooling {
  import opened Wrappers
  import opened Runtime

  class ArrayPool {
    const InitialPooledItems: int
    const MaxArrayLength: int
    const MaxPooledArrays: int
    /** The shared zero-length array `Get(0)` returns. */
    const Empty: array<Value>
    var pool: seq<seq<array<Value>>>

    /** The constructor's checks hold, there are at most `MaxArrayLength`
        queues, and every queue holds at most `MaxPooledArrays` arrays, each
        of that queue's exact length. */
    ghost predicate Valid()
      reads this
    {
      && MaxArrayLength >= 1 && MaxPooledArrays >= 5 && 0 <= InitialPooledItems <= MaxPooledArrays
      && Empty.Length == 0
      && |pool| <= MaxArrayLength
      && forall j :: 0 <= j < |pool| ==> QueueValid(pool[j], j + 1)
    }

    ghost predicate QueueValid(q: seq<array<Value>>, length: int)
    {
      |q| <= MaxPooledArrays && forall a :: a in q ==> a.Length == length
    }

    /** The constructor (lines 30-66), given the number of queues it builds. */
    constructor Init(initialArrayCount: int, maxArrayLength: int, maxPooledArrays: int, queueCount: nat)
      requires maxArrayLength >= 1 && maxPooledArrays >= 5 && 0 <= initialArrayCount <= maxPooledArrays
      requires queueCount <= maxArrayLength
      ensures InitialPooledItems == initialArrayCount && MaxArrayLength == maxArrayLength
      ensures MaxPooledArrays == maxPooledArrays && |pool| == queueCount
      ensures forall j :: 0 <= j < |pool| ==> |pool[j]| == initialArrayCount
      ensures Valid() && fresh(Empty)
    {
      InitialPooledItems := initialArrayCount;
      MaxArrayLength := maxArrayLength;
      MaxPooledArrays := maxPooledArrays;
      Empty := new Value[0];
      pool := [];
      new;
      for i := 1 to queueCount + 1
        invariant |pool| == i - 1
        invariant forall j :: 0 <= j < |pool| ==> QueueValid(pool[j], j + 1) && |pool[j]| == initialArrayCount
      {
        var queue := Setup(i, []);
        pool := pool + [queue];
      }
    }

    /** `Setup` (lines 133-139): tops a queue up to `InitialPooledItems` fresh
        arrays of the given length; a fuller queue is left alone. */
    method Setup(length: nat, queue: seq<array<Value>>) returns (q: seq<array<Value>>)
      ensures |q| == if |queue| < InitialPooledItems then InitialPooledItems else |queue|
      ensures q[..|queue|] == queue
      ensures forall k :: |queue| <= k < |q| ==> fresh(q[k]) && q[k].Length == length
    {
      q := queue;
      while |q| < InitialPooledItems
        invariant |queue| <= |q| <= if |queue| < InitialPooledItems then InitialPooledItems else |queue|
        invariant q[..|queue|] == queue
        invariant forall k :: |queue| <= k < |q| ==> fresh(q[k]) && q[k].Length == length
        decreases InitialPooledItems - |q|
      {
        var a := new Value[length];
        q := q + [a];
      }
    }

    /** `Get` (lines 69-98). A negative length is rejected, length 0 yields
        `Empty`, a length above the maximum a fresh array outside the pool.
        Otherwise the queue for the length is refilled when empty and its
        front array is taken; a queue still empty (no initial items) makes
        `Dequeue` throw, and a length with no queue is an index error. */
    method Get(length: int) returns (r: Result<array<Value>>)
      requires Valid()
      modifies this
      ensures Valid()
      ensures r.Success? ==> r.value.Length == length
      ensures |old(pool)| == MaxArrayLength && InitialPooledItems > 0 && length >= 0 ==> r.Success?
      ensures length < 0 ==> r == Failure(Argument("length")) && pool == old(pool)
      ensures length == 0 ==> r == Success(Empty) && pool == old(pool)
      ensures length > MaxArrayLength ==> r.Success? && fresh(r.value) && pool == old(pool)
      ensures 0 < length <= MaxArrayLength && length > |old(pool)| ==>
        r == Failure(ArgumentOutOfRange) && pool == old(pool)
      ensures 0 < length <= |old(pool)| ==>
        var q := old(pool)[length - 1];
        && (|q| > 0 ==> r == Success(q[0]) && pool == old(pool)[length - 1 := q[1..]])
        && (|q| == 0 && InitialPooledItems == 0 ==> r == Failure(InvalidOperation) && pool == old(pool))
        && (|q| == 0 && InitialPooledItems > 0 ==>
              && r.Success? && fresh(r.value) && |pool| == |old(pool)|
              && |pool[length - 1]| == InitialPooledItems - 1
              && pool == old(pool)[length - 1 := pool[length - 1]])
    {
      if length < 0 {
        return Failure(Argument("length"));
      }
      if length == 0 {
        return Success(Empty);
      }
      if length > MaxArrayLength {
        var a := new Value[length];
        return Success(a);
      }
      if length - 1 >= |pool| {
        return Failure(ArgumentOutOfRange);
      }
      var queue := pool[length - 1];
      if |queue| == 0 {
        queue := Setup(length, queue);
        pool := pool[length - 1 := queue];
      }
      if |queue| == 0 {
        return Failure(InvalidOperation);
      }
      r := Success(queue[0]);
      pool := pool[length - 1 := queue[1..]];
    }

    /** `Free` (lines 101-131). Null and empty arrays are ignored. Any other
        array is cleared; it rejoins the queue for its length when it has one
        and that queue holds fewer than `MaxPooledArrays` arrays. A length
        with no queue is an index error. */
    method Free(a: array?<Value>) returns (r: Outcome)
      requires Valid()
      modifies this, a
      ensures Valid()
      ensures a != null ==> forall i :: 0 <= i < a.Length ==> a[i] == Null
      ensures a == null || a.Length == 0 || a.Length > MaxArrayLength ==> r == Pass && pool == old(pool)
      ensures a != null && 0 < a.Length <= MaxArrayLength && a.Length > |old(pool)| ==>
        r == Fail(ArgumentOutOfRange) && pool == old(pool)
      ensures a != null && 0 < a.Length <= |old(pool)| ==>
        var q := old(pool)[a.Length - 1];
        && r == Pass
        && pool == old(pool)[a.Length - 1 := if |q| >= MaxPooledArrays then q else q + [a]]
    {
      if a == null || a.Length == 0 {
        return Pass;
      }
      for i := 0 to a.Length
        invariant forall k :: 0 <= k < i ==> a[k] == Null
        modifies a
      {
        a[i] := Null;
      }
      if a.Length > MaxArrayLength {
        return Pass;
      }
      if a.Length - 1 >= |pool| {
        return Fail(ArgumentOutOfRange);
      }
      var queue := pool[a.Length - 1];
      if |queue| >= MaxPooledArrays {
        return Pass;
      }
      pool := pool[a.Length - 1 := queue + [a]];
      return Pass;
    }
  }

  /** The argument checks of the constructor (lines 32-50), in order. */
  function ConstructionError(initialArrayCount: int, maxArrayLength: int, maxPooledArrays: int): (r: Option<Error>)
    ensures r.None? <==> maxArrayLength >= 1 && 0 <= initialArrayCount <= maxPooledArrays && maxPooledArrays >= 5
  {
    if maxArrayLength < 1 then Some(Argument("maxArrayLength"))
    else if initialArrayCount < 0 then Some(Argument("initialArrayCount"))
    else if maxPooledArrays < 5 then Some(Argument("maxPooledArrays"))
    else if initialArrayCount > maxPooledArrays then Some(Argument("initialArrayCount & maxPooledArrays"))
    else None
  }

  /** The constructor as written: the loop of lines 60-65 runs for lengths
      1 to `MaxArrayLength - 1` only, so no queue exists for arrays of the
      maximum length, which `Get` and `Free` nevertheless index. */
  method Create(initialArrayCount: int, maxArrayLength: int, maxPooledArrays: int) returns (r: Result<ArrayPool>)
    ensures ConstructionError(initialArrayCount, maxArrayLength, maxPooledArrays).Some? ==>
      r == Failure(ConstructionError(initialArrayCount, maxArrayLength, maxPooledArrays).value)
    ensures ConstructionError(initialArrayCount, maxArrayLength, maxPooledArrays).None? ==>
      && r.Success? && fresh(r.value) && r.value.Valid()
      && r.value.InitialPooledItems == initialArrayCount && r.value.MaxArrayLength == maxArrayLength
      && r.value.MaxPooledArrays == maxPooledArrays
      && |r.value.pool| == maxArrayLength - 1
      && forall j :: 0 <= j < |r.value.pool| ==> |r.value.pool[j]| == initialArrayCount
  {
    var error := ConstructionError(initialArrayCount, maxArrayLength, maxPooledArrays);
    if error.Some? {
      return Failure(error.value);
    }
    var p := new ArrayPool.Init(initialArrayCount, maxArrayLength, maxPooledArrays, maxArrayLength - 1);
    return Success(p);
  }

  /** The constructor as evidently intended: one queue for every length from
      1 to `MaxArrayLength`. */
  method CreateCorrected(initialArrayCount: int, maxArrayLength: int, maxPooledArrays: int) returns (r: Result<ArrayPool>)
    ensures ConstructionError(initialArrayCount, maxArrayLength, maxPooledArrays).Some? ==>
      r == Failure(ConstructionError(initialArrayCount, maxArrayLength, maxPooledArrays).value)
    ensures ConstructionError(initialArrayCount, maxArrayLength, maxPooledArrays).None? ==>
      && r.Success? && fresh(r.value) && r.value.Valid()
      && r.value.InitialPooledItems == initialArrayCount && r.value.MaxArrayLength == maxArrayLength
      && r.value.MaxPooledArrays == maxPooledArrays
      && |r.value.pool| == maxArrayLength
      && forall j :: 0 <= j < |r.value.pool| ==> |r.value.pool[j]| == initialArrayCount
  {
    var error := ConstructionError(initialArrayCount, maxArrayLength, maxPooledArrays);
    if error.Some? {
      return Failure(error.value);
    }
    var p := new ArrayPool.Init(initialArrayCount, maxArrayLength, maxPooledArrays, maxArrayLength);
    return Success(p);
  }

  /** The helper pool the static `Pool` registry builds (src/Pooling/Pool.cs:22,
      initial count 1, maximum length 1, at most 20 arrays) has no queue at
      all, so the one length it is used for, 1, is an index error. */
  method HelperPoolGetFails() returns (r: Result<array<Value>>)
    ensures r == Failure(ArgumentOutOfRange)
  {
    var created := Create(1, 1, 20);
    var helper := created.value;
    r := helper.Get(1);
  }

  /** With the intended queue count the same helper pool serves length 1. */
  method HelperPoolGetCorrected() returns (r: Result<array<Value>>)
    ensures r.Success? && r.value.Length == 1
  {
    var created := CreateCorrected(1, 1, 20);
    var helper := created.value;
    r := helper.Get(1);
  }
}
