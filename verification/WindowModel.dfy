/** The rolling window as a log of timestamped outcomes and a grid of equal slices of time. */
module WindowModel {
  import opened Prelude

  datatype Event = Event(at: nat, failure: bool)

  /**
   * `start` is when the newest slice began, `clock` the latest time the window was told, and `log` every outcome
   * ever recorded, stamped with the clock of its recording.
   */
  datatype Window = Window(width: nat, size: nat, start: nat, clock: nat, log: seq<Event>)

  ghost predicate Valid(w: Window) {
    && 1 <= w.width && 1 <= w.size
    && w.start <= w.clock < w.start + w.width
    && forall i :: 0 <= i < |w.log| ==> w.log[i].at <= w.clock
  }

  /** Splits a window of time into slices of at least one nanosecond. */
  function New(window: nat, buckets: nat, now: nat): (w: Window)
    requires 1 <= buckets
    ensures Valid(w) && w.size == buckets
  {
    Window(Max(window / buckets, 1), buckets, now, now, [])
  }

  function Steps(start: nat, width: nat, now: nat): nat
    requires 1 <= width
  {
    if now < start then 0 else (now - start) / width
  }

  /** Where the newest slice begins at `now`: whole widths ahead, or at `now` itself once every slice has expired. */
  function AlignedStart(start: nat, width: nat, size: nat, now: nat): nat
    requires 1 <= width
  {
    var steps := Steps(start, width, now);
    if steps >= size then Max(now, start) else start + steps * width
  }

  function Advance(w: Window, now: nat): Window
    requires 1 <= w.width
  {
    w.(start := AlignedStart(w.start, w.width, w.size, now), clock := Max(w.clock, now))
  }

  function Record(w: Window, failure: bool): Window {
    w.(log := w.log + [Event(w.clock, failure)])
  }

  /** How many outcomes of one kind fall in a half-open interval of time. */
  function CountIn(log: seq<Event>, lo: int, hi: int, failure: bool): (n: nat)
    ensures n <= |log|
  {
    if log == [] then 0
    else
      var last := log[|log| - 1];
      CountIn(log[..|log| - 1], lo, hi, failure) + if lo <= last.at < hi && last.failure == failure then 1 else 0
  }

  /** Where the slice `k` steps behind the newest one begins. */
  function SliceStart(start: int, width: nat, k: nat): int {
    start - k * width
  }

  /** A slice counts in 32 bits and saturates. */
  function SliceCount(log: seq<Event>, start: int, width: nat, k: nat, failure: bool): nat {
    Min(U32_MAX, CountIn(log, SliceStart(start, width, k), SliceStart(start, width, k) + width, failure))
  }

  /** The sum over the `size` newest slices. */
  function SumSlices(log: seq<Event>, start: int, width: nat, size: nat, failure: bool): nat {
    if size == 0 then 0
    else SumSlices(log, start, width, size - 1, failure) + SliceCount(log, start, width, size - 1, failure)
  }

  /** What the window reports. */
  function Counts(w: Window, failure: bool): nat {
    SumSlices(w.log, w.start, w.width, w.size, failure)
  }

  /** The oldest time still covered. */
  function Horizon(w: Window): int
    requires 1 <= w.size
  {
    SliceStart(w.start, w.width, w.size - 1)
  }

  /** The outcomes of one kind that a window of this age should still hold. */
  function Retained(w: Window, failure: bool): nat
    requires 1 <= w.size
  {
    CountIn(w.log, Horizon(w), w.clock + 1, failure)
  }

  // ---------------------------------------------------------------------------------------------

  lemma StepsFit(start: nat, width: nat, now: nat)
    requires 1 <= width && 0 < Steps(start, width, now)
    ensures start + Steps(start, width, now) * width <= now
  {
    assert now - start == (now - start) / width * width + (now - start) % width;
  }

  lemma QuotientBounds(n: nat, width: nat)
    requires 1 <= width
    ensures n / width * width <= n < n / width * width + width
  {
    assert n == n / width * width + n % width;
  }

  lemma AdvanceValid(w: Window, now: nat)
    requires Valid(w)
    ensures Valid(Advance(w, now))
  {
    if w.start <= now {
      var steps := Steps(w.start, w.width, now);
      QuotientBounds(now - w.start, w.width);
      if steps > 0 { WidthsCover(w.width, steps); }
    }
  }

  lemma WidthsCover(width: nat, steps: nat)
    requires 1 <= steps
    ensures width <= steps * width
  {
    assert steps * width == width + (steps - 1) * width;
  }

  lemma RecordValid(w: Window, failure: bool)
    requires Valid(w)
    ensures Valid(Record(w, failure))
  {
  }

  lemma SliceSteps(start: int, width: nat, k: nat)
    ensures SliceStart(start + width, width, k + 1) == SliceStart(start, width, k)
    ensures SliceStart(start, width, k + 1) + width == SliceStart(start, width, k)
  {
  }

  lemma {:induction false} CountSplits(log: seq<Event>, lo: int, mid: int, hi: int, failure: bool)
    requires lo <= mid <= hi
    ensures CountIn(log, lo, hi, failure) == CountIn(log, lo, mid, failure) + CountIn(log, mid, hi, failure)
  {
    if log != [] {
      CountSplits(log[..|log| - 1], lo, mid, hi, failure);
    }
  }

  lemma {:induction false} CountNone(log: seq<Event>, lo: int, hi: int, failure: bool)
    requires forall i :: 0 <= i < |log| ==> log[i].at < lo || hi <= log[i].at
    ensures CountIn(log, lo, hi, failure) == 0
  {
    if log != [] {
      CountNone(log[..|log| - 1], lo, hi, failure);
    }
  }

  lemma CountAppend(log: seq<Event>, e: Event, lo: int, hi: int, failure: bool)
    ensures CountIn(log + [e], lo, hi, failure)
            == CountIn(log, lo, hi, failure) + if lo <= e.at < hi && e.failure == failure then 1 else 0
  {
    assert (log + [e])[..|log|] == log;
  }

  /** The slices tile the covered time, so their uncapped counts add up; a capped slice only loses. */
  lemma {:induction false} SlicesTile(log: seq<Event>, start: int, width: nat, size: nat, failure: bool)
    requires 1 <= size
    ensures SliceStart(start, width, size - 1) <= start
    ensures SumSlices(log, start, width, size, failure)
            <= CountIn(log, SliceStart(start, width, size - 1), start + width, failure)
    ensures SumSlices(log, start, width, size, failure)
            == CountIn(log, SliceStart(start, width, size - 1), start + width, failure)
            <==> forall k :: 0 <= k < size ==> Unsaturated(log, start, width, k, failure)
  {
    if size == 1 {
      assert SumSlices(log, start, width, 0, failure) == 0;
      assert SliceStart(start, width, 0) == start;
      assert Unsaturated(log, start, width, 0, failure) || !Unsaturated(log, start, width, 0, failure);
    } else {
      SlicesTile(log, start, width, size - 1, failure);
      SliceSteps(start, width, size - 2);
      CountSplits(log, SliceStart(start, width, size - 1), SliceStart(start, width, size - 2), start + width, failure);
      assert (forall k :: 0 <= k < size ==> Unsaturated(log, start, width, k, failure))
          <==> Unsaturated(log, start, width, size - 1, failure)
               && forall k :: 0 <= k < size - 1 ==> Unsaturated(log, start, width, k, failure);
    }
  }

  predicate Unsaturated(log: seq<Event>, start: int, width: nat, k: nat, failure: bool) {
    CountIn(log, SliceStart(start, width, k), SliceStart(start, width, k) + width, failure) <= U32_MAX
  }

  /**
   * The window reports the number of retained outcomes, and never more; it is exact if and only if no slice holds
   * more than 2^32 - 1 of them.
   */
  lemma CountsRetained(w: Window, failure: bool)
    requires Valid(w)
    ensures Counts(w, failure) <= Retained(w, failure)
    ensures Counts(w, failure) == Retained(w, failure)
            <==> forall k :: 0 <= k < w.size ==> Unsaturated(w.log, w.start, w.width, k, failure)
  {
    SlicesTile(w.log, w.start, w.width, w.size, failure);
    CountSplits(w.log, Horizon(w), w.clock + 1, w.start + w.width, failure);
    CountNone(w.log, w.clock + 1, w.start + w.width, failure);
  }

  /** An outcome is covered only below the full age of the window, and always up to one slice short of it. */
  lemma CoverageByAge(w: Window, i: nat)
    requires Valid(w) && i < |w.log|
    ensures Horizon(w) <= w.log[i].at ==> w.clock - w.log[i].at < w.size * w.width
    ensures w.clock - w.log[i].at <= (w.size - 1) * w.width ==> Horizon(w) <= w.log[i].at
  {
    assert w.size * w.width == (w.size - 1) * w.width + w.width;
  }

  /** The places of the outcomes of one kind in a half-open interval of time. */
  ghost function Matching(log: seq<Event>, lo: int, hi: int, failure: bool): set<int> {
    set i | 0 <= i < |log| && lo <= log[i].at < hi && log[i].failure == failure
  }

  lemma MatchingAppend(log: seq<Event>, e: Event, lo: int, hi: int, failure: bool)
    ensures Matching(log + [e], lo, hi, failure)
            == Matching(log, lo, hi, failure) + if lo <= e.at < hi && e.failure == failure then {|log|} else {}
  {
  }

  /** A count is the number of such places. */
  lemma {:induction false} CountIsCardinality(log: seq<Event>, lo: int, hi: int, failure: bool)
    ensures CountIn(log, lo, hi, failure) == |Matching(log, lo, hi, failure)|
  {
    if log != [] {
      var last, front := log[|log| - 1], log[..|log| - 1];
      CountIsCardinality(front, lo, hi, failure);
      MatchingAppend(front, last, lo, hi, failure);
      assert front + [last] == log;
    }
  }

  /** Slices move by whole widths, unless every one of them has expired, and then the newest begins at once. */
  lemma AdvanceMovesGrid(w: Window, now: nat)
    requires Valid(w)
    ensures var w' := Advance(w, now);
            && w'.log == w.log && w'.width == w.width && w'.size == w.size
            && (now < w.start + w.size * w.width ==> exists k: nat :: SliceStart(w'.start, w.width, k) == w.start)
            && (now >= w.start + w.size * w.width ==> w'.start == now)
  {
    var steps := Steps(w.start, w.width, now);
    if w.start <= now {
      QuotientBounds(now - w.start, w.width);
      if steps >= w.size {
        Product(w.size, steps, w.width);
      } else {
        Product(steps + 1, w.size, w.width);
        assert (steps + 1) * w.width == steps * w.width + w.width;
      }
    }
    if steps < w.size { assert SliceStart(Advance(w, now).start, w.width, steps) == w.start; }
  }

  lemma Product(small: nat, large: nat, width: nat)
    requires small <= large
    ensures small * width <= large * width
  {
  }
}
