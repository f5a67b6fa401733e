/** What every run of acquisitions and completions keeps: permits, epochs, open intervals and recovery. */
module BreakerTheorems {
  import opened Prelude
  import opened BreakerModel
  import W = WindowModel

  /**
   * A breaker with the permits that are out. `reopened` counts the half-open periods that failed since the breaker
   * was last closed, and `probed` the successes completed in the present half-open period.
   */
  datatype System = System(breaker: Breaker, permits: map<nat, Token>, issued: nat, reopened: nat, probed: nat)

  /** A permit is consumed by its one completion, as dropping it is a completion too. */
  datatype Step = Acquire(now: nat) | Finish(permit: nat, outcome: Outcome, now: nat)

  ghost predicate WindowReady(b: Breaker) {
    b.machine.Closed? ==> W.Valid(b.machine.window)
  }

  function InitSystem(c: Config, now: nat): System
    requires 1 <= c.buckets
  {
    System(Init(c, now), map[], 0, 0, 0)
  }

  ghost function Apply(c: Config, s: System, step: Step): Option<System>
    requires ValidConfig(c) && WindowReady(s.breaker)
  {
    match step
    case Acquire(now) =>
      var r := TryAcquire(c, s.breaker, now);
      var s' := s.(breaker := r.breaker, probed := if r.transition.Some? then 0 else s.probed);
      Some(match r.answer
           case Err(_) => s'
           case Ok(token) => s'.(permits := s.permits[s.issued := token], issued := s.issued + 1))
    case Finish(id, outcome, now) =>
      if id !in s.permits then None
      else
        var token := s.permits[id];
        var r := Complete(c, s.breaker, token, outcome, now);
        var succeeded := token.epoch == s.breaker.epoch && token.phase.IssuedHalfOpen? && ImpactOf(outcome).Success?;
        Some(System(r.breaker, s.permits - {id}, s.issued,
                    Reopened(s.reopened, token.phase, r.transition),
                    if r.transition.Some? then 0 else if succeeded then s.probed + 1 else s.probed))
  }

  /** Opening from closed starts the count over, opening from half-open adds one, and closing clears it. */
  function Reopened(reopened: nat, phase: PermitPhase, transition: Option<Phase>): nat {
    match transition
    case Some(OpenPhase) => if phase.IssuedHalfOpen? then reopened + 1 else 0
    case Some(ClosedPhase) => 0
    case _ => reopened
  }

  /** The permits of one epoch that are still out. */
  function Out(permits: map<nat, Token>, epoch: nat): set<nat> {
    set id | id in permits && permits[id].epoch == epoch
  }

  function Power2(k: nat): nat {
    if k == 0 then 1 else 2 * Power2(k - 1)
  }

  /** How long the breaker stays open after `k` failed half-open periods in a row. */
  function OpenDurationAfter(c: Config, k: nat): nat {
    Min(c.openDuration * Power2(k), c.maxOpenDuration)
  }

  ghost predicate Inv(c: Config, s: System) {
    && WindowReady(s.breaker)
    && (forall id :: id in s.permits ==> id < s.issued && s.permits[id].epoch <= s.breaker.epoch)
    && (forall id :: id in s.permits && s.permits[id].epoch == s.breaker.epoch ==>
          match s.permits[id].phase
          case IssuedClosed => s.breaker.machine.Closed?
          case IssuedHalfOpen => s.breaker.machine.HalfOpen?)
    && match s.breaker.machine
       case Closed(_) => s.reopened == 0
       case Open(_, duration) => duration == OpenDurationAfter(c, s.reopened)
       case HalfOpen(inFlight, successes, previous) =>
         && inFlight == |Out(s.permits, s.breaker.epoch)| <= c.halfOpenConcurrency
         && successes == s.probed < c.closeSuccesses
         && previous == OpenDurationAfter(c, s.reopened)
  }

  ghost function Run(c: Config, s: System, steps: seq<Step>): Option<System>
    requires ValidConfig(c) && Inv(c, s)
    decreases |steps|
  {
    if steps == [] then Some(s)
    else
      ApplyKeepsInv(c, s, steps[0]);
      match Apply(c, s, steps[0])
      case None => None
      case Some(s') => Run(c, s', steps[1..])
  }

  // ---------------------------------------------------------------------------------------------

  lemma OpenDurationDoubles(c: Config, k: nat)
    requires ValidConfig(c)
    ensures NextOpenDuration(c, OpenDurationAfter(c, k)) == OpenDurationAfter(c, k + 1)
    ensures OpenDurationAfter(c, 0) == InitialOpenDuration(c)
  {
    assert c.openDuration * Power2(k + 1) == 2 * (c.openDuration * Power2(k));
  }

  lemma OutGrows(permits: map<nat, Token>, id: nat, token: Token, epoch: nat)
    requires id !in permits
    ensures Out(permits[id := token], epoch)
            == if token.epoch == epoch then Out(permits, epoch) + {id} else Out(permits, epoch)
  {
  }

  lemma OutShrinks(permits: map<nat, Token>, id: nat, epoch: nat)
    requires id in permits
    ensures Out(permits - {id}, epoch) == Out(permits, epoch) - {id}
    ensures permits[id].epoch == epoch ==> |Out(permits - {id}, epoch)| == |Out(permits, epoch)| - 1
  {
    assert permits[id].epoch == epoch ==> id in Out(permits, epoch);
  }

  /** A closed breaker issues a permit of its epoch. */
  lemma ClosedAcquireKeepsInv(c: Config, s: System, now: nat)
    requires ValidConfig(c) && Inv(c, s) && s.breaker.machine.Closed?
    ensures Inv(c, Apply(c, s, Acquire(now)).value)
  {
    W.AdvanceValid(s.breaker.machine.window, now);
  }

  /** An open breaker past its deadline starts a half-open period nobody has a permit of. */
  lemma HalfOpeningKeepsInv(c: Config, s: System)
    requires ValidConfig(c) && Inv(c, s) && s.breaker.machine.Open?
    ensures Inv(c, s.(breaker := Breaker(s.breaker.epoch + 1, HalfOpen(0, 0, s.breaker.machine.duration)), probed := 0))
  {
    assert Out(s.permits, s.breaker.epoch + 1) == {};
  }

  lemma ProbeKeepsInv(c: Config, s: System, transition: Option<Phase>)
    requires ValidConfig(c) && Inv(c, s) && s.breaker.machine.HalfOpen?
    ensures var r := Probe(c, s.breaker, transition);
            Inv(c, match r.answer
                   case Err(_) => s
                   case Ok(token) =>
                     s.(breaker := r.breaker, permits := s.permits[s.issued := token], issued := s.issued + 1))
  {
    var r := Probe(c, s.breaker, transition);
    if r.answer.Ok? {
      OutGrows(s.permits, s.issued, r.answer.value, s.breaker.epoch);
    }
  }

  lemma AcquireKeepsInv(c: Config, s: System, now: nat)
    requires ValidConfig(c) && Inv(c, s)
    ensures Inv(c, Apply(c, s, Acquire(now)).value)
  {
    match s.breaker.machine {
      case Closed(_) => ClosedAcquireKeepsInv(c, s, now);
      case HalfOpen(_, _, _) => ProbeKeepsInv(c, s, None);
      case Open(until, duration) =>
        if now >= until {
          HalfOpeningKeepsInv(c, s);
          var probing := s.(breaker := Breaker(s.breaker.epoch + 1, HalfOpen(0, 0, duration)), probed := 0);
          ProbeKeepsInv(c, probing, Some(HalfOpenPhase));
        }
    }
  }

  lemma FinishKeepsInv(c: Config, s: System, id: nat, outcome: Outcome, now: nat)
    requires ValidConfig(c) && Inv(c, s) && id in s.permits
    ensures Inv(c, Apply(c, s, Finish(id, outcome, now)).value)
  {
    OutShrinks(s.permits, id, s.breaker.epoch);
    OpenDurationDoubles(c, s.reopened);
    OpenDurationDoubles(c, 0);
    if s.breaker.machine.Closed? {
      W.AdvanceValid(s.breaker.machine.window, now);
    }
  }

  /** Every acquisition and completion keeps the invariant. */
  lemma ApplyKeepsInv(c: Config, s: System, step: Step)
    requires ValidConfig(c) && Inv(c, s)
    ensures Apply(c, s, step).Some? ==> Inv(c, Apply(c, s, step).value)
  {
    match step {
      case Acquire(now) => AcquireKeepsInv(c, s, now);
      case Finish(id, outcome, now) =>
        if id in s.permits {
          FinishKeepsInv(c, s, id, outcome, now);
        }
    }
  }

  lemma {:induction false} RunKeepsInv(c: Config, s: System, steps: seq<Step>)
    requires ValidConfig(c) && Inv(c, s) && Run(c, s, steps).Some?
    ensures Inv(c, Run(c, s, steps).value)
    ensures s.breaker.epoch <= Run(c, s, steps).value.breaker.epoch
    decreases |steps|
  {
    if steps != [] {
      ApplyKeepsInv(c, s, steps[0]);
      RunKeepsInv(c, Apply(c, s, steps[0]).value, steps[1..]);
    }
  }

  ghost predicate RunsFromStart(c: Config, start: nat, steps: seq<Step>, s: System)
    requires ValidConfig(c)
  {
    InitInv(c, start);
    Run(c, InitSystem(c, start), steps) == Some(s)
  }

  /** A breaker at the end of some run from its creation. */
  ghost predicate Reachable(c: Config, s: System)
    requires ValidConfig(c)
  {
    exists start: nat, steps: seq<Step> :: RunsFromStart(c, start, steps, s)
  }

  lemma ReachableInv(c: Config, s: System)
    requires ValidConfig(c) && Reachable(c, s)
    ensures Inv(c, s)
  {
    var start: nat, steps: seq<Step> :| RunsFromStart(c, start, steps, s);
    InitInv(c, start);
    RunKeepsInv(c, InitSystem(c, start), steps);
  }

  lemma InitInv(c: Config, now: nat)
    requires ValidConfig(c)
    ensures Inv(c, InitSystem(c, now))
  {
  }

  /**
   * Permit conservation: half-open permits in flight are exactly the ones out, within the probe limit, and the
   * successes counted are those of this period; a permit of the present epoch has the phase of the machine.
   */
  lemma PermitsAreConserved(c: Config, s: System)
    requires ValidConfig(c) && Reachable(c, s)
    ensures s.breaker.machine.HalfOpen? ==>
              && s.breaker.machine.inFlight == |Out(s.permits, s.breaker.epoch)| <= c.halfOpenConcurrency
              && s.breaker.machine.successes == s.probed < c.closeSuccesses
    ensures s.breaker.machine.Open? ==> Out(s.permits, s.breaker.epoch) == {}
    ensures forall id :: id in Out(s.permits, s.breaker.epoch) ==>
              (s.permits[id].phase.IssuedHalfOpen? <==> s.breaker.machine.HalfOpen?)
  {
    ReachableInv(c, s);
  }

  /** Finishing a half-open permit never hits the floor of the in-flight count. */
  lemma InFlightNeverSaturates(c: Config, s: System, id: nat)
    requires ValidConfig(c) && Reachable(c, s)
    requires id in Out(s.permits, s.breaker.epoch) && s.permits[id].phase.IssuedHalfOpen?
    ensures s.breaker.machine.HalfOpen? && 1 <= s.breaker.machine.inFlight
  {
    ReachableInv(c, s);
    assert |Out(s.permits, s.breaker.epoch) - {id}| < |Out(s.permits, s.breaker.epoch)|;
  }

  /**
   * A permit outlives its epoch harmlessly: once the breaker has left that epoch, however long the run, completing
   * the permit changes nothing but its own disappearance.
   */
  lemma StalePermitIsInert(c: Config, s: System, steps: seq<Step>, id: nat, outcome: Outcome, now: nat)
    requires ValidConfig(c) && Inv(c, s) && Run(c, s, steps).Some?
    requires var t := Run(c, s, steps).value; id in t.permits && t.permits[id].epoch < s.breaker.epoch
    ensures var t := Run(c, s, steps).value;
            && Inv(c, t)
            && Apply(c, t, Finish(id, outcome, now)) == Some(t.(permits := t.permits - {id}))
  {
    RunKeepsInv(c, s, steps);
  }

  /**
   * Whatever maximum is requested, after `k` failed half-open periods in a row the breaker is open for
   * min(open * 2^k, min(requested maximum, 120 s)).
   */
  lemma OpenDurationLaw(requested: Config, s: System)
    requires ValidRequest(requested) && Reachable(NewConfig(requested), s)
    requires s.breaker.machine.Open?
    ensures s.breaker.machine.duration
            == Min(requested.openDuration * Power2(s.reopened), Min(requested.maxOpenDuration, 120_000_000_000))
  {
    ReachableInv(NewConfig(requested), s);
  }

  /** Every accepted request leads to a valid configuration. */
  lemma EveryRequestIsValid(requested: Config)
    requires ValidRequest(requested)
    ensures ValidConfig(NewConfig(requested))
  {
  }

  /** Every opening, from a run's point of view, lasts its duration from the clock reading that caused it. */
  lemma OpeningSetsDeadline(c: Config, s: System, step: Step)
    requires ValidConfig(c) && Inv(c, s) && !s.breaker.machine.Open?
    requires Apply(c, s, step).Some? && Apply(c, s, step).value.breaker.machine.Open?
    ensures var t := Apply(c, s, step).value;
            && step.Finish? && ImpactOf(step.outcome).Failure?
            && t.breaker.machine.until == step.now + OpenDurationAfter(c, t.reopened)
            && t.reopened == (if s.breaker.machine.HalfOpen? then s.reopened + 1 else 0)
            && t.breaker.epoch == s.breaker.epoch + 1
  {
    OpenDurationDoubles(c, s.reopened);
    OpenDurationDoubles(c, 0);
  }

  /** A permit is issued exactly when the clock has reached the deadline and the probe limit leaves room. */
  lemma PermitIssuedIff(c: Config, s: System, now: nat)
    requires ValidConfig(c) && Inv(c, s)
    ensures TryAcquire(c, s.breaker, now).answer.Ok?
            <==> match s.breaker.machine
                 case Closed(_) => true
                 case Open(until, _) => until <= now
                 case HalfOpen(_, _, _) => |Out(s.permits, s.breaker.epoch)| < c.halfOpenConcurrency
    ensures s.breaker.machine.Open? && now < s.breaker.machine.until ==>
              Apply(c, s, Acquire(now)) == Some(s)
              && TryAcquire(c, s.breaker, now).answer == Err(StillOpen(s.breaker.machine.until - now))
  {
  }

  // ---------------------------------------------------------------------------------------------
  // Recovery

  /** One caller that acquires a permit and succeeds, each at its own clock reading. */
  datatype Round = Round(acquired: nat, finished: nat)

  function Rounds(times: seq<Round>, firstPermit: nat): seq<Step> {
    if times == [] then []
    else
      [Acquire(times[0].acquired), Finish(firstPermit, Succeeded, times[0].finished)] + Rounds(times[1..], firstPermit + 1)
  }

  lemma RunTwo(c: Config, s: System, a: Step, b: Step, rest: seq<Step>)
    requires ValidConfig(c) && Inv(c, s)
    requires Apply(c, s, a).Some? && Inv(c, Apply(c, s, a).value) && Apply(c, Apply(c, s, a).value, b).Some?
    ensures Inv(c, Apply(c, Apply(c, s, a).value, b).value)
    ensures Run(c, s, [a, b] + rest) == Run(c, Apply(c, Apply(c, s, a).value, b).value, rest)
  {
    ApplyKeepsInv(c, Apply(c, s, a).value, b);
    assert ([a, b] + rest)[1..] == [b] + rest;
    assert ([b] + rest)[1..] == rest;
  }

  /** The state one successful round leaves behind. */
  lemma RoundAdvances(c: Config, s: System, now: nat, later: nat)
    requires ValidConfig(c) && Inv(c, s)
    requires s.breaker.machine.Open? ==> s.breaker.machine.until <= now
    requires !s.breaker.machine.Closed? && Out(s.permits, s.breaker.epoch) == {}
    ensures Apply(c, s, Acquire(now)).Some?
    ensures var a := Apply(c, s, Acquire(now)).value;
            && Inv(c, a) && Apply(c, a, Finish(s.issued, Succeeded, later)).Some?
            && var t := Apply(c, a, Finish(s.issued, Succeeded, later)).value;
               && Inv(c, t) && t.issued == s.issued + 1 && t.permits == s.permits
               && Out(t.permits, t.breaker.epoch) == {}
               && var won := if s.breaker.machine.Open? then 1 else s.breaker.machine.successes + 1;
                  if won >= c.closeSuccesses then t.breaker.machine == Closed(W.New(c.window, c.buckets, later))
                  else t.breaker.machine.HalfOpen? && t.breaker.machine.successes == won
  {
    ApplyKeepsInv(c, s, Acquire(now));
    assert Out(s.permits, s.breaker.epoch + 1) == {} && Out(s.permits, s.breaker.epoch + 2) == {};
    var a := Apply(c, s, Acquire(now)).value;
    OutGrows(s.permits, s.issued, a.permits[s.issued], a.breaker.epoch);
    assert Out(a.permits, a.breaker.epoch) == {s.issued};
    assert a.permits - {s.issued} == s.permits;
    ApplyKeepsInv(c, a, Finish(s.issued, Succeeded, later));
  }

  /** How many successes a breaker that is not closed still needs. */
  function Needed(c: Config, b: Breaker): int {
    match b.machine
    case Closed(_) => 0
    case Open(_, _) => c.closeSuccesses
    case HalfOpen(_, successes, _) => c.closeSuccesses - successes
  }

  /**
   * Recovery: with no half-open permit out, the needed number of successful rounds, the first of them past the
   * deadline, closes the breaker with an empty window.
   */
  lemma {:induction false} Recovers(c: Config, s: System, times: seq<Round>)
    requires ValidConfig(c) && Inv(c, s)
    requires !s.breaker.machine.Closed? && Out(s.permits, s.breaker.epoch) == {}
    requires |times| == Needed(c, s.breaker)
    requires s.breaker.machine.Open? ==> s.breaker.machine.until <= times[0].acquired
    ensures Run(c, s, Rounds(times, s.issued)).Some?
    ensures Run(c, s, Rounds(times, s.issued)).value.breaker.machine
            == Closed(W.New(c.window, c.buckets, times[|times| - 1].finished))
    decreases |times|
  {
    RoundAdvances(c, s, times[0].acquired, times[0].finished);
    var acquire, finish := Acquire(times[0].acquired), Finish(s.issued, Succeeded, times[0].finished);
    var t := Apply(c, Apply(c, s, acquire).value, finish).value;
    RunTwo(c, s, acquire, finish, Rounds(times[1..], s.issued + 1));
    if |times| > 1 {
      Recovers(c, t, times[1..]);
    } else {
      assert times[1..] == [] && Rounds(times[1..], s.issued + 1) == [];
    }
  }

  /** From any reachable open state the required successes, begun past the deadline, close the breaker. */
  lemma OpenBreakerRecovers(c: Config, s: System, times: seq<Round>)
    requires ValidConfig(c) && Reachable(c, s) && s.breaker.machine.Open?
    requires |times| == c.closeSuccesses && s.breaker.machine.until <= times[0].acquired
    ensures Inv(c, s)
    ensures var r := Run(c, s, Rounds(times, s.issued));
            r.Some? && r.value.breaker.machine == Closed(W.New(c.window, c.buckets, times[|times| - 1].finished))
  {
    ReachableInv(c, s);
    assert Out(s.permits, s.breaker.epoch) == {};
    Recovers(c, s, times);
  }
}
