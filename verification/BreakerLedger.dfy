/** A breaker read against the ledger of what its permits came to: what opens it, closes it, and leaves it alone. */
module BreakerLedger {
  import opened Prelude
  import opened BreakerModel
  import opened BreakerTheorems
  import W = WindowModel

  /** The outcomes held against an endpoint: it could not be reached, did not answer in time, or failed itself. */
  predicate HeldAgainst(o: Outcome) {
    o.FailedWith?
    && o.failure in {Connect, Transport, Timeout, Unavailable, RemoteServer, RemoteFailure, ProtocolFailure}
  }

  /** An answer is a success, even one in which the application refuses. */
  predicate CountsForIt(o: Outcome) {
    o.Succeeded? || o == FailedWith(Application)
  }

  /** An abandoned permit, a released one, and a failure of the caller's own side count neither way. */
  lemma OutcomesCount(o: Outcome)
    ensures ImpactOf(o).Failure? <==> HeldAgainst(o)
    ensures ImpactOf(o).Success? <==> CountsForIt(o)
    ensures !(HeldAgainst(o) && CountsForIt(o))
    ensures o.Abandoned? || o.Released? ==> !HeldAgainst(o) && !CountsForIt(o)
  {
  }

  // ---------------------------------------------------------------------------------------------
  // The ledger

  /** What happened since the breaker was last closed: the latest clock reading, and each outcome that counts. */
  datatype Ledger = Ledger(clock: nat, entries: seq<W.Event>)

  function Later(l: Ledger, now: nat): Ledger {
    l.(clock := if l.clock < now then now else l.clock)
  }

  /** The ledger after one step of a run, from the breakers' phases, the permit and its outcome alone. */
  ghost function Entered(s: System, step: Step, t: System, l: Ledger): Ledger {
    match step
    case Acquire(now) => if s.breaker.machine.Closed? then Later(l, now) else l
    case Finish(id, outcome, now) =>
      if id !in s.permits || s.permits[id].epoch != s.breaker.epoch then l
      else if !s.breaker.machine.Closed? then
        if t.breaker.machine.Closed? then Ledger(now, []) else l
      else
        var l' := Later(l, now);
        if HeldAgainst(outcome) || CountsForIt(outcome) then
          l'.(entries := l'.entries + [W.Event(l'.clock, HeldAgainst(outcome))])
        else l'
  }

  ghost function Ledgered(c: Config, s: System, steps: seq<Step>, l: Ledger): Ledger
    requires ValidConfig(c) && Inv(c, s) && Run(c, s, steps).Some?
    decreases |steps|
  {
    if steps == [] then l
    else
      ApplyKeepsInv(c, s, steps[0]);
      var t := Apply(c, s, steps[0]).value;
      Ledgered(c, t, steps[1..], Entered(s, steps[0], t, l))
  }

  /** A closed breaker's window holds exactly the ledger, cut into the configured number of slices. */
  ghost predicate Keeps(c: Config, b: Breaker, l: Ledger)
    requires ValidConfig(c)
  {
    b.machine.Closed? ==>
      && b.machine.window.log == l.entries && b.machine.window.clock == l.clock
      && b.machine.window.size == c.buckets && b.machine.window.width == W.New(c.window, c.buckets, 0).width
  }

  lemma WidthOf(window: nat, buckets: nat)
    requires 1 <= buckets
    ensures W.New(window, buckets, 0).width == if window < buckets then 1 else window / buckets
  {
    if window >= buckets { WholeQuotient(window, buckets); } else { NoQuotient(window, buckets); }
  }

  lemma WholeQuotient(window: nat, buckets: nat)
    requires 1 <= buckets <= window
    ensures 1 <= window / buckets
  {
    assert window == window / buckets * buckets + window % buckets;
  }

  lemma NoQuotient(window: nat, buckets: nat)
    requires window < buckets
    ensures window / buckets == 0
  {
  }

  lemma ClosedEnteringKeeps(c: Config, s: System, id: nat, outcome: Outcome, now: nat, l: Ledger)
    requires ValidConfig(c) && WindowReady(s.breaker) && Keeps(c, s.breaker, l) && s.breaker.machine.Closed?
    requires id in s.permits && s.permits[id] == Token(s.breaker.epoch, IssuedClosed)
    ensures var t := Apply(c, s, Finish(id, outcome, now)).value;
            Keeps(c, t.breaker, Entered(s, Finish(id, outcome, now), t, l))
  {
    OutcomesCount(outcome);
  }

  lemma EnteringKeeps(c: Config, s: System, step: Step, l: Ledger)
    requires ValidConfig(c) && Inv(c, s) && Keeps(c, s.breaker, l) && Apply(c, s, step).Some?
    ensures Keeps(c, Apply(c, s, step).value.breaker, Entered(s, step, Apply(c, s, step).value, l))
  {
    match step {
      case Acquire(_) =>
      case Finish(id, outcome, now) =>
        if s.breaker.machine.Closed? && s.permits[id].epoch == s.breaker.epoch {
          ClosedEnteringKeeps(c, s, id, outcome, now, l);
        }
    }
  }

  lemma {:induction false} RunKeepsLedger(c: Config, s: System, steps: seq<Step>, l: Ledger)
    requires ValidConfig(c) && Inv(c, s) && Keeps(c, s.breaker, l) && Run(c, s, steps).Some?
    ensures Keeps(c, Run(c, s, steps).value.breaker, Ledgered(c, s, steps, l))
    decreases |steps|
  {
    if steps != [] {
      var t := Apply(c, s, steps[0]).value;
      ApplyKeepsInv(c, s, steps[0]);
      EnteringKeeps(c, s, steps[0], l);
      RunKeepsLedger(c, t, steps[1..], Entered(s, steps[0], t, l));
    }
  }

  /** In every run a closed breaker's window is the ledger of the outcomes since it was last closed. */
  lemma WindowIsLedger(c: Config, start: nat, steps: seq<Step>)
    requires ValidConfig(c) && Inv(c, InitSystem(c, start)) && Run(c, InitSystem(c, start), steps).Some?
    ensures var s, l := Run(c, InitSystem(c, start), steps).value,
                        Ledgered(c, InitSystem(c, start), steps, Ledger(start, []));
            s.breaker.machine.Closed? ==>
              && s.breaker.machine.window.log == l.entries && s.breaker.machine.window.clock == l.clock
              && s.breaker.machine.window.size == c.buckets
              && s.breaker.machine.window.width == if c.window < c.buckets then 1 else c.window / c.buckets
  {
    WidthOf(c.window, c.buckets);
    RunKeepsLedger(c, InitSystem(c, start), steps, Ledger(start, []));
  }

  /** A slice is as long as the window divided by the slices, rounded down, and together they never exceed it. */
  lemma SlicesFillWindow(c: Config, start: nat)
    requires ValidConfig(c) && c.buckets <= c.window
    ensures var w := W.New(c.window, c.buckets, start);
            w.size * w.width <= c.window < w.size * (w.width + 1)
  {
    WidthOf(c.window, c.buckets);
    var q := c.window / c.buckets;
    assert c.window == q * c.buckets + c.window % c.buckets;
    assert c.buckets * (q + 1) == q * c.buckets + c.buckets;
  }

  // ---------------------------------------------------------------------------------------------
  // Completions

  lemma Scaled(one: real, other: real, n: real)
    requires 0.0 < n
    ensures one >= other <==> one * n >= other * n
  {
  }

  /** Comparing the quotient to the ratio is comparing the failures to that share of the samples. */
  lemma ThresholdIsShare(c: Config, successes: nat, failures: nat)
    requires ValidConfig(c) && failures > 0
    ensures var samples := failures + successes;
            ThresholdExceeded(c, successes, failures)
            <==> samples >= c.minimumSamples && failures as real >= c.failureRatio * samples as real
  {
    var n := (successes + failures) as real;
    Scaled(failures as real / n, c.failureRatio, n);
    assert failures as real / n * n == failures as real;
  }

  /** A completion of a closed permit opens the breaker when what the window reports exceeds the threshold. */
  lemma OpensOverThreshold(c: Config, b: Breaker, token: Token, outcome: Outcome, now: nat)
    requires ValidConfig(c) && b.machine.Closed? && W.Valid(b.machine.window)
    requires token == Token(b.epoch, IssuedClosed)
    ensures var w := W.Record(W.Advance(b.machine.window, now), true);
            Complete(c, b, token, outcome, now).breaker.machine.Open?
            <==> ImpactOf(outcome).Failure? && ThresholdExceeded(c, W.Counts(w, false), W.Counts(w, true))
  {
  }

  /** Unless a slice has saturated, the window reports what it should still hold, the completing failure included. */
  lemma RecordedIsRetained(window: W.Window, now: nat)
    requires W.Valid(window)
    requires var w := W.Record(W.Advance(window, now), true);
             forall k, kind :: 0 <= k < w.size ==> W.Unsaturated(w.log, w.start, w.width, k, kind)
    ensures var w := W.Record(W.Advance(window, now), true);
            && W.Valid(w) && W.Retained(w, true) > 0
            && W.Counts(w, true) == W.Retained(w, true) && W.Counts(w, false) == W.Retained(w, false)
  {
    var advanced := W.Advance(window, now);
    W.AdvanceValid(window, now);
    W.RecordValid(advanced, true);
    var w := W.Record(advanced, true);
    W.CountsRetained(w, false);
    W.CountsRetained(w, true);
    W.CountAppend(advanced.log, W.Event(advanced.clock, true), W.Horizon(w), w.clock + 1, true);
    W.SlicesTile(w.log, w.start, w.width, w.size, true);
  }

  /**
   * A closed breaker opens on an outcome if and only if it is held against the endpoint and leaves enough retained
   * samples of which at least the failure ratio are failures, as long as no slice has saturated. Nothing but a
   * completing failure is ever compared to the ratio.
   */
  lemma OpensOnRetainedFailures(c: Config, b: Breaker, token: Token, outcome: Outcome, now: nat)
    requires ValidConfig(c) && b.machine.Closed? && W.Valid(b.machine.window)
    requires token == Token(b.epoch, IssuedClosed)
    requires var w := W.Record(W.Advance(b.machine.window, now), true);
             forall k, kind :: 0 <= k < w.size ==> W.Unsaturated(w.log, w.start, w.width, k, kind)
    ensures var w := W.Record(W.Advance(b.machine.window, now), true);
            var failures, samples := W.Retained(w, true), W.Retained(w, true) + W.Retained(w, false);
            Complete(c, b, token, outcome, now).breaker.machine.Open?
            <==> HeldAgainst(outcome) && samples >= c.minimumSamples
                 && failures as real >= c.failureRatio * samples as real
  {
    var w := W.Record(W.Advance(b.machine.window, now), true);
    RecordedIsRetained(b.machine.window, now);
    ThresholdIsShare(c, W.Retained(w, false), W.Retained(w, true));
    OpensOverThreshold(c, b, token, outcome, now);
    OutcomesCount(outcome);
  }

  /** A closed breaker never does anything else on an outcome than open; what does not count is not recorded. */
  lemma ClosedCompletions(c: Config, s: System, id: nat, outcome: Outcome, now: nat)
    requires ValidConfig(c) && Inv(c, s)
    requires id in Out(s.permits, s.breaker.epoch) && s.breaker.machine.Closed?
    ensures var b := Complete(c, s.breaker, s.permits[id], outcome, now).breaker;
            && !b.machine.HalfOpen?
            && (b.machine.Closed? ==> b.epoch == s.breaker.epoch)
            && (!HeldAgainst(outcome) ==> b.machine.Closed?)
            && (!HeldAgainst(outcome) && !CountsForIt(outcome) ==>
                  b.machine.Closed? && b.machine.window.log == s.breaker.machine.window.log)
  {
    OutcomesCount(outcome);
  }

  /**
   * A half-open period ends at the first outcome held against the endpoint, which opens the breaker again, or at the
   * last of the required successes, which closes it with an empty window; any other outcome gives its probe back.
   */
  lemma HalfOpenCompletions(c: Config, s: System, id: nat, outcome: Outcome, now: nat)
    requires ValidConfig(c) && Inv(c, s)
    requires id in Out(s.permits, s.breaker.epoch) && s.breaker.machine.HalfOpen?
    ensures var t, out := Apply(c, s, Finish(id, outcome, now)).value, Out(s.permits, s.breaker.epoch);
            && (t.breaker.machine.Open? <==> HeldAgainst(outcome))
            && (t.breaker.machine.Closed? <==> CountsForIt(outcome) && s.probed + 1 >= c.closeSuccesses)
            && (t.breaker.machine.Closed? ==> t.breaker.machine.window.log == [] && t.reopened == 0)
            && (t.breaker.machine.HalfOpen? ==>
                  && t.breaker.epoch == s.breaker.epoch && t.breaker.machine.inFlight == |out - {id}| == |out| - 1
                  && t.probed == s.probed + (if CountsForIt(outcome) then 1 else 0)
                  && t.breaker.machine.previous == s.breaker.machine.previous)
  {
    OutcomesCount(outcome);
    FinishKeepsInv(c, s, id, outcome, now);
    OutShrinks(s.permits, id, s.breaker.epoch);
  }

  function PhaseOf(b: Breaker): Phase {
    match b.machine
    case Closed(_) => ClosedPhase
    case Open(_, _) => OpenPhase
    case HalfOpen(_, _, _) => HalfOpenPhase
  }

  /** The observer is told of a phase exactly when the breaker enters another one, and each is a new epoch. */
  lemma TransitionsAreReported(c: Config, s: System, id: nat, outcome: Outcome, now: nat)
    requires ValidConfig(c) && Inv(c, s) && id in s.permits
    ensures var r := TryAcquire(c, s.breaker, now);
            && r.transition == (if PhaseOf(r.breaker) == PhaseOf(s.breaker) then None else Some(PhaseOf(r.breaker)))
            && r.breaker.epoch == s.breaker.epoch + (if PhaseOf(r.breaker) == PhaseOf(s.breaker) then 0 else 1)
    ensures var r := Complete(c, s.breaker, s.permits[id], outcome, now);
            && r.transition == (if PhaseOf(r.breaker) == PhaseOf(s.breaker) then None else Some(PhaseOf(r.breaker)))
            && r.breaker.epoch == s.breaker.epoch + (if PhaseOf(r.breaker) == PhaseOf(s.breaker) then 0 else 1)
  {
  }
}
