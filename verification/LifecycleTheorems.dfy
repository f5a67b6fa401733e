/** The contract of the lifecycle: work at most once, cleanup exactly once, one shared result, and nobody hangs. */
module LifecycleTheorems {
  import opened Prelude
  import opened LifecycleProtocol
  import opened LifecycleSafety

  /** A state some schedule of calls and worker steps leads to. */
  ghost predicate Reachable(s: State) {
    exists protocol: Protocol, steps: seq<Step> :: Run(Init(protocol), steps) == Some(s)
  }

  lemma ReachableInv(s: State)
    requires Reachable(s)
    ensures Inv(s)
  {
    var protocol: Protocol, steps: seq<Step> :| Run(Init(protocol), steps) == Some(s);
    InitInv(protocol);
    RunKeepsInv(Init(protocol), steps);
  }

  // ---------------------------------------------------------------------------------------------
  // Safety

  /**
   * Activation and cleanup each start at most once; cleanup starts only after a started activation has published its
   * result; and a handle that finished without a worker never touched the provider.
   */
  lemma ProviderWorkAtMostOnce(s: State)
    requires Reachable(s)
    ensures s.tally.spawned <= 1 && s.tally.activations <= 1 && s.tally.cleanups <= 1
    ensures s.tally.cleanups == 1 ==> s.tally.activations == 1 && s.cell.activation.Some?
    ensures s.cell.start.Finished? ==> s.tally.spawned == s.tally.activations == s.tally.cleanups == 0
  {
    ReachableInv(s);
  }

  /** A worker that ran to its end, not aborted, called cleanup once, whatever activation came to. */
  lemma EndedWorkerCleanedUp(s: State)
    requires Reachable(s) && s.worker == Exited(false)
    ensures s.tally.activations == 1 && s.tally.cleanups == 1
    ensures s.cell.activation.Some? && s.cell.close.Some?
  {
    ReachableInv(s);
  }

  /** An aborted worker still leaves both results behind. */
  lemma AbortedWorkerPublishes(s: State)
    requires Reachable(s) && s.worker == Exited(true)
    ensures s.cell.activation.Some? && s.cell.close.Some?
    ensures s.protocol.Config? ==> s.cell.publisherClosed
  {
    ReachableInv(s);
  }

  /** Outside the critical section the start state decides which results exist. */
  lemma ResultsFollowStart(s: State)
    requires Reachable(s) && s.lock.None?
    ensures s.cell.start.Prepared? ==> s.cell.activation.None? && s.cell.close.None?
    ensures s.cell.start.Finished? ==> s.cell.activation.Some? && s.cell.activation.value.Failed?
    ensures s.cell.start.Finished? ==> s.cell.close == Some(Succeeded)
    ensures s.cell.start.Started? ==> !s.worker.NoWorker? && (s.cell.close.Some? <==> s.worker.Exited?)
    ensures s.cell.close.Some? ==> s.cell.activation.Some? && s.cell.publisherClosed == s.protocol.Config?
  {
    ReachableInv(s);
  }

  /** Success is published only by a worker whose check saw no close request. */
  lemma SuccessWasOpenAtTheCheck(s: State)
    requires Reachable(s) && s.cell.activation == Some(Succeeded)
    ensures s.tally.activations == 1 && s.tally.checkSawClose == Some(false)
  {
    ReachableInv(s);
  }

  lemma AdvanceGrows(s: State, i: nat)
    requires Inv(s) && i < |s.callers| && Apply(s, Advance(i)).Some?
    ensures CellGrows(s.cell, Apply(s, Advance(i)).value.cell)
  {
    assert CallerInv(s.protocol, s.cell, s.callers[i]);
    assert HoldsLock(s.callers[i]) ==> s.lock == Some(i);
    EffectIsLocal(s.protocol, s.cell, Holder(s), s.worker, s.tally, s.callers[i]);
  }

  lemma WorkGrows(s: State, verdict: Verdict)
    requires Inv(s) && Apply(s, Work(verdict)).Some?
    ensures CellGrows(s.cell, Apply(s, Work(verdict)).value.cell)
  {
    WorkIsLocal(s.protocol, s.cell, s.worker, s.tally, s.signalAtSpawn, verdict);
  }

  lemma ApplyGrows(s: State, step: Step)
    requires Inv(s) && Apply(s, step).Some?
    ensures CellGrows(s.cell, Apply(s, step).value.cell)
  {
    match step {
      case Advance(i) => AdvanceGrows(s, i);
      case Work(verdict) => WorkGrows(s, verdict);
      case FactoryPanics => PanicAndAbortAreLocal(s.protocol, s.cell, s.worker, s.tally);
      case Abort => PanicAndAbortAreLocal(s.protocol, s.cell, s.worker, s.tally);
      case _ =>
    }
  }

  /** Results, the close request and the start decision never change once made, over any further schedule. */
  lemma {:induction false} DecisionsAreFinal(s: State, steps: seq<Step>)
    requires Inv(s) && Run(s, steps).Some?
    ensures CellGrows(s.cell, Run(s, steps).value.cell)
    decreases |steps|
  {
    if steps != [] {
      ApplyGrows(s, steps[0]);
      ApplyKeepsInv(s, steps[0]);
      DecisionsAreFinal(Apply(s, steps[0]).value, steps[1..]);
    }
  }

  /** Once no requester is in flight, a requested close has finished the handle unstarted or signalled its worker. */
  lemma NoCloseIsLost(s: State)
    requires Reachable(s) && s.cell.closeRequested && !SomeSignalling(s) && !SomeLocking(s)
    ensures !s.cell.start.Prepared?
    ensures s.cell.start.Finished? || (s.cell.closeSignal && !s.worker.NoWorker?)
  {
    ReachableInv(s);
  }

  // ---------------------------------------------------------------------------------------------
  // Waiters

  /** The counter equals the live waiters; abandoning all of them unobserved has requested, or is requesting, a close. */
  lemma AbandonedActivationCloses(s: State)
    requires Reachable(s) && s.protocol.Registry?
    ensures s.cell.waiters == Total(RegisteredCount, s.callers)
    ensures s.tally.created && s.cell.waiters == 0 && !s.cell.observed && !SomeDeciding(s) ==> s.cell.closeRequested
  {
    ReachableInv(s);
  }

  lemma {:induction false} TwoMembers(f: Caller -> nat, callers: seq<Caller>, i: nat, j: nat)
    requires i < j < |callers|
    ensures f(callers[i]) + f(callers[j]) <= Total(f, callers)
  {
    if i == 0 {
      TotalMember(f, callers[1..], j - 1);
    } else {
      TwoMembers(f, callers[1..], i - 1, j - 1);
    }
  }

  /** Cancelling one of several waiters only uncounts it. */
  lemma CancellingOneOfSeveralIsQuiet(s: State, i: nat, j: nat)
    requires Reachable(s) && s.protocol.Registry? && i < |s.callers| && j < |s.callers| && i != j
    requires s.callers[i] == Releasing(false) && Registered(s.callers[j])
    ensures s.cell.waiters > 1
    ensures Apply(s, Advance(i))
            == Some(s.(callers := s.callers[i := Returned], cell := s.cell.(waiters := s.cell.waiters - 1)))
  {
    ReachableInv(s);
    TwoMembers(RegisteredCount, s.callers, if i < j then i else j, if i < j then j else i);
  }

  // ---------------------------------------------------------------------------------------------
  // Progress

  const WORKER_STEPS: nat := 10

  function NextRank(next: Next): nat {
    match next
    case ThenWait => 12
    case ThenObserve => 11
    case ThenReturn => 0
    case ThenAwaitClose => 1
  }

  /** How many more steps a caller can take, the worker it may spawn included. */
  function CallerRank(c: Caller): nat {
    match c
    case Created => 17 + WORKER_STEPS
    case Polled => 16 + WORKER_STEPS
    case WithoutRuntime => 16 + WORKER_STEPS
    case Starting => 15 + WORKER_STEPS
    case Spawning => 14 + WORKER_STEPS
    case Spawned => 13
    case Waiting => 12
    case Observing => 11
    case Releasing(_) => 10
    case Deciding => 9
    case Swapping(_) => 8
    case Signalling(_) => 7
    case Locking(_) => 6
    case ClosePublisher(_, next) => 3 + NextRank(next)
    case PublishActivation(_, next) => 2 + NextRank(next)
    case PublishClose(next) => 1 + NextRank(next)
    case AwaitingResult => 1
    case Returned => 0
  }

  function WorkerRank(w: Worker): nat {
    match w
    case Queued => WORKER_STEPS
    case Activating => 9
    case Activated(_) => 8
    case Checked(_) => 7
    case Published => 6
    case AwaitingClose => 5
    case Cleanup => 4
    case Cleaning => 3
    case Cleaned(_) => 2
    case ClosedPublisher(_) => 1
    case Dropping(_) => 2
    case DroppedActivation => 1
    case NoWorker => 0
    case Exited(_) => 0
  }

  function Measure(s: State): nat {
    Total(CallerRank, s.callers) + WorkerRank(s.worker)
  }

  lemma EffectLowersRank(protocol: Protocol, cell: Shared, free: bool, c: Caller)
    requires CallerEffect(protocol, cell, free, c).Some?
    ensures var e := CallerEffect(protocol, cell, free, c).value;
            CallerRank(e.caller) + (if e.spawns then WORKER_STEPS else 0) < CallerRank(c)
  {
  }

  lemma PollDescends(s: State, i: nat, runtime: bool)
    requires i < |s.callers| && Apply(s, Poll(i, runtime)).Some?
    ensures Measure(Apply(s, Poll(i, runtime)).value) < Measure(s)
  {
    TotalUpdate(CallerRank, s.callers, i, FirstPoll(s.cell, s.callers[i], runtime).value);
  }

  lemma AdvanceDescends(s: State, i: nat)
    requires i < |s.callers| && Inv(s) && Apply(s, Advance(i)).Some?
    ensures Measure(Apply(s, Advance(i)).value) < Measure(s)
  {
    var e := CallerEffect(s.protocol, s.cell, s.lock.None?, s.callers[i]).value;
    assert Apply(s, Advance(i)).value == Take(s, i, e);
    assert HoldsLock(s.callers[i]) ==> s.lock == Some(i);
    EffectLowersRank(s.protocol, s.cell, s.lock.None?, s.callers[i]);
    TotalUpdate(CallerRank, s.callers, i, e.caller);
  }

  lemma WorkDescends(s: State, step: Step)
    requires (step.Work? || step.FactoryPanics?) && Apply(s, step).Some?
    ensures Measure(Apply(s, step).value) < Measure(s)
  {
  }

  /** Every step the protocol takes on its own lowers the measure. */
  lemma ProtocolStepsDescend(s: State, step: Step)
    requires Inv(s) && IsProtocolStep(step) && Apply(s, step).Some?
    ensures Measure(Apply(s, step).value) < Measure(s)
  {
    match step {
      case Poll(i, runtime) => PollDescends(s, i, runtime);
      case Advance(i) => AdvanceDescends(s, i);
      case Work(_) => WorkDescends(s, step);
      case FactoryPanics => WorkDescends(s, step);
    }
  }

  lemma {:induction false} ProtocolRunsAreBounded(s: State, steps: seq<Step>)
    requires Inv(s) && Run(s, steps).Some? && forall k :: 0 <= k < |steps| ==> IsProtocolStep(steps[k])
    ensures |steps| + Measure(Run(s, steps).value) <= Measure(s)
    decreases |steps|
  {
    if steps != [] {
      ProtocolStepsDescend(s, steps[0]);
      ApplyKeepsInv(s, steps[0]);
      ProtocolRunsAreBounded(Apply(s, steps[0]).value, steps[1..]);
    }
  }

  /** Every call has returned; a requested close has both results; an unclosed handle is unstarted or being served. */
  ghost predicate Settled(s: State) {
    && AllReturned(s) && s.lock.None?
    && (s.cell.closeRequested ==> s.cell.activation.Some? && s.cell.close.Some?)
    && (s.worker.NoWorker? || s.worker.AwaitingClose? || s.worker.Exited?)
  }

  /** The worker can take a step, given an answer from its provider. */
  predicate WorkerCanStep(s: State) {
    !s.worker.NoWorker? && !s.worker.Exited? && (s.worker.AwaitingClose? ==> s.cell.closeSignal)
  }

  /** A caller outside the critical section that still has something to do can do it when nobody else comes first. */
  lemma IdleCallerCanStep(s: State, i: nat)
    requires Inv(s) && s.lock.None? && !WorkerCanStep(s)
    requires i < |s.callers| && !s.callers[i].Returned? && !s.callers[i].Created?
    requires s.callers[i].AwaitingResult? ==> !SomeSignalling(s)
    ensures Apply(s, Advance(i)).Some?
  {
    assert CallerInv(s.protocol, s.cell, s.callers[i]);
    assert !HoldsLock(s.callers[i]);
    if s.callers[i].Releasing? {
      TotalMember(RegisteredCount, s.callers, i);
    }
  }

  /** Nobody hangs: as long as the protocol has not settled it can take a step of its own. */
  lemma UnsettledCanStep(s: State) returns (step: Step)
    requires Inv(s) && !Settled(s)
    ensures IsProtocolStep(step) && Apply(s, step).Some?
  {
    if s.lock.Some? {
      return Advance(s.lock.value);
    }
    if WorkerCanStep(s) {
      return Work(Succeeded);
    }
    if SomeSignalling(s) {
      var i: nat :| i < |s.callers| && s.callers[i].Signalling?;
      return Advance(i);
    }
    if i: nat :| i < |s.callers| && s.callers[i].Created? {
      return Poll(i, true);
    }
    if i: nat :| i < |s.callers| && !s.callers[i].Returned? {
      IdleCallerCanStep(s, i);
      return Advance(i);
    }
    assert false;
  }

  /** From any reachable state the protocol settles within its measure, providers permitting, and stays within it. */
  lemma {:induction false} ProtocolSettles(s: State) returns (steps: seq<Step>)
    requires Inv(s)
    ensures Run(s, steps).Some? && Settled(Run(s, steps).value)
    ensures |steps| <= Measure(s) && forall k :: 0 <= k < |steps| ==> IsProtocolStep(steps[k])
    decreases Measure(s)
  {
    if Settled(s) {
      return [];
    }
    var step := UnsettledCanStep(s);
    ApplyKeepsInv(s, step);
    ProtocolStepsDescend(s, step);
    var rest := ProtocolSettles(Apply(s, step).value);
    steps := [step] + rest;
    assert steps[1..] == rest;
  }
}
