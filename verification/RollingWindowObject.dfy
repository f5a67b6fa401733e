/** The circular buffer of counters that implements the rolling window. */
module RollingWindowObject {
  import opened Prelude
  import M = WindowModel

  datatype Bucket = Bucket(successes: nat, failures: nat)

  const EMPTY := Bucket(0, 0)

  /** The index of the bucket `k` steps behind the current one. */
  function Slot(current: nat, k: nat, size: nat): (i: nat)
    requires current < size && k < size
    ensures i < size
    ensures k == 0 <==> i == current
  {
    if k <= current then current - k else current + size - k
  }

  /** The counters of the slice `k` steps behind a start. */
  function SliceBucket(log: seq<M.Event>, start: int, width: nat, k: nat): Bucket {
    Bucket(M.SliceCount(log, start, width, k, false), M.SliceCount(log, start, width, k, true))
  }

  /** The buffer holds the counters of the slices, newest at `current` and older ones behind it, wrapping around. */
  ghost predicate Mirrors(buckets: seq<Bucket>, current: nat, log: seq<M.Event>, start: int, width: nat) {
    && current < |buckets|
    && forall k :: 0 <= k < |buckets| ==> buckets[Slot(current, k, |buckets|)] == SliceBucket(log, start, width, k)
  }

  lemma SlotNext(current: nat, k: nat, size: nat)
    requires current < size && 1 <= k < size
    ensures Slot((current + 1) % size, k, size) == Slot(current, k - 1, size)
  {
    if current + 1 < size {
      assert (current + 1) % size == current + 1;
    } else {
      assert (current + 1) % size == 0;
    }
  }

  /** Moving on by one slice clears the bucket that becomes current and shifts the age of the others. */
  lemma StepMirrors(buckets: seq<Bucket>, current: nat, log: seq<M.Event>, start: nat, width: nat)
    requires 1 <= width && Mirrors(buckets, current, log, start, width)
    requires forall i :: 0 <= i < |log| ==> log[i].at < start + width
    ensures var next := (current + 1) % |buckets|;
            next < |buckets| && Mirrors(buckets[next := EMPTY], next, log, start + width, width)
  {
    var size, next := |buckets|, (current + 1) % |buckets|;
    forall k | 0 <= k < size
      ensures buckets[next := EMPTY][Slot(next, k, size)] == SliceBucket(log, start + width, width, k)
    {
      if k == 0 {
        M.CountNone(log, start + width, start + width + width, false);
        M.CountNone(log, start + width, start + width + width, true);
      } else {
        SlotNext(current, k, size);
        M.SliceSteps(start, width, k - 1);
        assert buckets[Slot(current, k - 1, size)] == SliceBucket(log, start, width, k - 1);
      }
    }
  }

  /** A window older than its whole age holds nothing. */
  lemma ResetMirrors(buckets: seq<Bucket>, log: seq<M.Event>, start: nat, width: nat, now: nat)
    requires 1 <= width && 1 <= |buckets| && now >= start + |buckets| * width
    requires forall i :: 0 <= i < |log| ==> log[i].at < start + width
    requires forall i :: 0 <= i < |buckets| ==> buckets[i] == EMPTY
    ensures Mirrors(buckets, 0, log, now, width)
  {
    forall k | 0 <= k < |buckets|
      ensures SliceBucket(log, now, width, k) == EMPTY
    {
      ExpiredBy(start, width, |buckets|, k, now);
      M.CountNone(log, M.SliceStart(now, width, k), M.SliceStart(now, width, k) + width, false);
      M.CountNone(log, M.SliceStart(now, width, k), M.SliceStart(now, width, k) + width, true);
    }
  }

  lemma ExpiredBy(start: nat, width: nat, size: nat, k: nat, now: nat)
    requires k < size && now >= start + size * width
    ensures start + width <= M.SliceStart(now, width, k)
  {
    WidthsMonotone(k + 1, size, width);
    assert (k + 1) * width == k * width + width;
  }

  lemma WidthsMonotone(a: nat, b: nat, width: nat)
    requires a <= b
    ensures a * width <= b * width
  {
    assert b * width == a * width + (b - a) * width;
  }

  /** Recording adds one to the current bucket alone. */
  lemma RecordMirrors(buckets: seq<Bucket>, current: nat, log: seq<M.Event>, start: nat, width: nat, e: M.Event)
    requires 1 <= width && Mirrors(buckets, current, log, start, width) && start <= e.at < start + width
    ensures var b := buckets[current];
            var b' := if e.failure then b.(failures := Min(U32_MAX, b.failures + 1))
                      else b.(successes := Min(U32_MAX, b.successes + 1));
            Mirrors(buckets[current := b'], current, log + [e], start, width)
  {
    var size := |buckets|;
    forall k | 0 <= k < size
      ensures SliceBucket(log + [e], start, width, k).successes
              == if k == 0 && !e.failure then Min(U32_MAX, SliceBucket(log, start, width, k).successes + 1)
                 else SliceBucket(log, start, width, k).successes
      ensures SliceBucket(log + [e], start, width, k).failures
              == if k == 0 && e.failure then Min(U32_MAX, SliceBucket(log, start, width, k).failures + 1)
                 else SliceBucket(log, start, width, k).failures
    {
      var lo := M.SliceStart(start, width, k);
      if k > 0 {
        M.SliceSteps(start, width, k - 1);
        M.SlicesTile(log, start, width, k, false);
      }
      M.CountAppend(log, e, lo, lo + width, false);
      M.CountAppend(log, e, lo, lo + width, true);
    }
    forall k | 0 <= k < size
      ensures buckets[Slot(current, k, size)] == SliceBucket(log, start, width, k)
      ensures Slot(current, k, size) == current <==> k == 0
    {
    }
  }

  // ---------------------------------------------------------------------------------------------
  // Summing in buffer order

  function Pick(b: Bucket, failure: bool): nat {
    if failure then b.failures else b.successes
  }

  /** The counters of one kind added up in buffer order. */
  function SumBuckets(buckets: seq<Bucket>, failure: bool): nat {
    if buckets == [] then 0
    else SumBuckets(buckets[..|buckets| - 1], failure) + Pick(buckets[|buckets| - 1], failure)
  }

  lemma {:induction false} SumBucketsHead(buckets: seq<Bucket>, failure: bool)
    requires buckets != []
    ensures SumBuckets(buckets, failure) == Pick(buckets[0], failure) + SumBuckets(buckets[1..], failure)
  {
    var n := |buckets|;
    if n == 1 {
      assert buckets[..0] == [] && buckets[1..] == [];
    } else {
      SumBucketsHead(buckets[..n - 1], failure);
      assert buckets[1..][..n - 2] == buckets[..n - 1][1..];
    }
  }

  lemma {:induction false} SumBucketsConcat(a: seq<Bucket>, b: seq<Bucket>, failure: bool)
    ensures SumBuckets(a + b, failure) == SumBuckets(a, failure) + SumBuckets(b, failure)
  {
    if b == [] {
      assert a + b == a;
    } else {
      assert (a + b)[..|a + b| - 1] == a + b[..|b| - 1];
      SumBucketsConcat(a, b[..|b| - 1], failure);
    }
  }

  /** The `k` newest buckets added up: backwards from the current one, then backwards from the end of the buffer. */
  function NewestSum(buckets: seq<Bucket>, current: nat, k: nat, failure: bool): nat
    requires current < |buckets| && k <= |buckets|
  {
    if k <= current + 1 then SumBuckets(buckets[current + 1 - k..current + 1], failure)
    else SumBuckets(buckets[..current + 1], failure) + SumBuckets(buckets[current + 1 + |buckets| - k..], failure)
  }

  lemma NewestSumNext(buckets: seq<Bucket>, current: nat, k: nat, failure: bool)
    requires current < |buckets| && k < |buckets|
    ensures NewestSum(buckets, current, k + 1, failure)
            == NewestSum(buckets, current, k, failure) + Pick(buckets[Slot(current, k, |buckets|)], failure)
  {
    var n := |buckets|;
    if k <= current {
      var part := buckets[current - k..current + 1];
      SumBucketsHead(part, failure);
      assert part[1..] == buckets[current + 1 - k..current + 1];
    } else {
      var part := buckets[current + n - k..];
      SumBucketsHead(part, failure);
      assert part[1..] == buckets[current + 1 + n - k..];
      if k == current + 1 {
        assert buckets[0..current + 1] == buckets[..current + 1];
        assert part[1..] == [];
      }
    }
  }

  /** The newest slices of the log are the newest buckets. */
  lemma {:induction false} NewestSlicesSum(
    buckets: seq<Bucket>, current: nat, log: seq<M.Event>, start: int, width: nat, k: nat, failure: bool)
    requires Mirrors(buckets, current, log, start, width) && k <= |buckets|
    ensures M.SumSlices(log, start, width, k, failure) == NewestSum(buckets, current, k, failure)
  {
    if k == 0 {
      assert buckets[current + 1..current + 1] == [];
    } else {
      NewestSlicesSum(buckets, current, log, start, width, k - 1, failure);
      NewestSumNext(buckets, current, k - 1, failure);
      assert buckets[Slot(current, k - 1, |buckets|)] == SliceBucket(log, start, width, k - 1);
      assert Pick(SliceBucket(log, start, width, k - 1), failure) == M.SliceCount(log, start, width, k - 1, failure);
    }
  }

  lemma BufferSum(buckets: seq<Bucket>, current: nat, log: seq<M.Event>, start: int, width: nat, failure: bool)
    requires Mirrors(buckets, current, log, start, width)
    ensures SumBuckets(buckets, failure) == M.SumSlices(log, start, width, |buckets|, failure)
  {
    NewestSlicesSum(buckets, current, log, start, width, |buckets|, failure);
    SumBucketsConcat(buckets[..current + 1], buckets[current + 1..], failure);
    assert buckets[..current + 1] + buckets[current + 1..] == buckets;
    assert buckets[0..current + 1] == buckets[..current + 1];
    if |buckets| == current + 1 {
      assert buckets[current + 1..] == [];
    }
  }

  // ---------------------------------------------------------------------------------------------

  class RollingWindow {
    const buckets: array<Bucket>
    var current: nat
    var currentStart: nat
    const bucketWidth: nat
    /** The latest time the window was told, and every outcome it recorded. */
    ghost var clock: nat
    ghost var log: seq<M.Event>

    ghost function Model(): M.Window
      reads this
    {
      M.Window(bucketWidth, buckets.Length, currentStart, clock, log)
    }

    ghost predicate Valid()
      reads this, buckets
    {
      M.Valid(Model()) && Mirrors(buckets[..], current, log, currentStart, bucketWidth)
    }

    constructor (window: nat, size: nat, now: nat)
      requires 1 <= size
      ensures Valid() && fresh(buckets) && Model() == M.New(window, size, now)
    {
      buckets := new Bucket[size](_ => EMPTY);
      current, currentStart := 0, now;
      bucketWidth := Max(window / size, 1);
      clock, log := now, [];
    }

    /** Expires the slices that `now` has left behind. */
    method Advance(now: nat)
      requires Valid()
      modifies this`current, this`currentStart, this`clock, buckets
      ensures Valid() && Model() == M.Advance(old(Model()), now)
    {
      M.AdvanceValid(Model(), now);
      var steps := M.Steps(currentStart, bucketWidth, now);
      if steps == 0 {
        assert steps * bucketWidth == 0;
      } else if steps >= buckets.Length {
        M.StepsFit(currentStart, bucketWidth, now);
        Reset(now, steps);
      } else {
        RotateBy(steps);
      }
      clock := Max(clock, now);
    }

    /** Moves on by fewer slices than the buffer has. */
    method RotateBy(steps: nat)
      requires Valid()
      modifies this`current, this`currentStart, buckets
      ensures Mirrors(buckets[..], current, log, currentStart, bucketWidth)
      ensures currentStart == old(currentStart) + steps * bucketWidth
    {
      for i := 0 to steps
        invariant currentStart == old(currentStart) + i * bucketWidth
        invariant Mirrors(buckets[..], current, log, currentStart, bucketWidth)
        invariant forall j :: 0 <= j < |log| ==> log[j].at < currentStart + bucketWidth
      {
        assert (i + 1) * bucketWidth == i * bucketWidth + bucketWidth;
        Rotate();
      }
    }

    /** Clears every bucket and restarts the grid at `now`. */
    method Reset(now: nat, ghost steps: nat)
      requires Valid() && buckets.Length <= steps && currentStart + steps * bucketWidth <= now
      modifies this`current, this`currentStart, buckets
      ensures Mirrors(buckets[..], current, log, currentStart, bucketWidth) && currentStart == now
    {
      forall i | 0 <= i < buckets.Length {
        buckets[i] := EMPTY;
      }
      WidthsMonotone(buckets.Length, steps, bucketWidth);
      ResetMirrors(buckets[..], log, currentStart, bucketWidth, now);
      current, currentStart := 0, now;
    }

    /** Moves on by one slice. */
    method Rotate()
      requires 1 <= bucketWidth && Mirrors(buckets[..], current, log, currentStart, bucketWidth)
      requires forall j :: 0 <= j < |log| ==> log[j].at < currentStart + bucketWidth
      modifies this`current, this`currentStart, buckets
      ensures Mirrors(buckets[..], current, log, currentStart, bucketWidth)
      ensures currentStart == old(currentStart) + bucketWidth
    {
      StepMirrors(buckets[..], current, log, currentStart, bucketWidth);
      current := (current + 1) % buckets.Length;
      ghost var before := buckets[..];
      buckets[current] := EMPTY;
      assert buckets[..] == before[current := EMPTY];
      currentStart := currentStart + bucketWidth;
    }

    method RecordSuccess()
      requires Valid()
      modifies this`log, buckets
      ensures Valid() && Model() == M.Record(old(Model()), false)
    {
      RecordMirrors(buckets[..], current, log, currentStart, bucketWidth, M.Event(clock, false));
      ghost var before := buckets[..];
      buckets[current] := buckets[current].(successes := Min(U32_MAX, buckets[current].successes + 1));
      assert buckets[..] == before[current := buckets[current]];
      log := log + [M.Event(clock, false)];
    }

    method RecordFailure()
      requires Valid()
      modifies this`log, buckets
      ensures Valid() && Model() == M.Record(old(Model()), true)
    {
      RecordMirrors(buckets[..], current, log, currentStart, bucketWidth, M.Event(clock, true));
      ghost var before := buckets[..];
      buckets[current] := buckets[current].(failures := Min(U32_MAX, buckets[current].failures + 1));
      assert buckets[..] == before[current := buckets[current]];
      log := log + [M.Event(clock, true)];
    }

    /** Folds over the buffer; the sums are the window's counts whatever the rotation. */
    method Counts() returns (successes: nat, failures: nat)
      requires Valid()
      ensures successes == M.Counts(Model(), false) && failures == M.Counts(Model(), true)
    {
      successes, failures := 0, 0;
      for i := 0 to buckets.Length
        invariant successes == SumBuckets(buckets[..i], false) && failures == SumBuckets(buckets[..i], true)
      {
        assert buckets[..i + 1][..i] == buckets[..i];
        successes, failures := successes + buckets[i].successes, failures + buckets[i].failures;
      }
      assert buckets[..buckets.Length] == buckets[..];
      BufferSum(buckets[..], current, log, currentStart, bucketWidth, false);
      BufferSum(buckets[..], current, log, currentStart, bucketWidth, true);
    }
  }
}
