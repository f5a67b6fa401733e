/** What the two shared results of a lifecycle say: the provider's own outcomes, unless something named came between. */
module LifecycleResults {
  import opened Prelude
  import opened LifecycleProtocol
  import opened LifecycleSafety
  import opened LifecycleTheorems

  /**
   * What happened in a run: how the activation future ended and whether the publisher was closed then, whether a close
   * was signalled when the worker looked, how cleanup ended, whether an abort came before the activation result, and
   * why a handle was finished without a worker.
   */
  datatype Record = Record(
    activation: Option<Verdict>,
    publisherWasClosed: bool,
    sawClose: bool,
    cleanup: Option<Verdict>,
    abortedEarly: bool,
    unstarted: Option<Failure>)

  const NOTHING := Record(None, false, false, None, false, None)

  /** What a step of the worker adds. */
  function NotedWork(cell: Shared, worker: Worker, step: Step, r: Record): Record {
    if step.Work? && worker.Activating? then
      r.(activation := Some(step.verdict), publisherWasClosed := cell.publisherClosed)
    else if step.Work? && worker.Activated? then r.(sawClose := cell.closeSignal)
    else if step.Work? && worker.Cleaning? then r.(cleanup := Some(step.verdict))
    else if step.FactoryPanics? then r.(cleanup := Some(Failed(ProviderPanicked)))
    else if step.Abort? then r.(abortedEarly := cell.activation.None?)
    else r
  }

  /** A caller without a runtime to spawn on finishes the handle for that reason, any other because of a close. */
  function Reason(c: Caller): Failure {
    if c.WithoutRuntime? then NoRuntime else ClosedBeforeActivation
  }

  /** What a step of a caller adds, from the cells before and after it. */
  function NotedCaller(before: Shared, after: Shared, c: Caller, r: Record): Record {
    if before.start.Prepared? && after.start.Finished? then r.(unstarted := Some(Reason(c))) else r
  }

  /** One more step, from the states before and after it. */
  function Noted(s: State, step: Step, t: State, r: Record): Record {
    if step.Advance? && step.caller < |s.callers| then NotedCaller(s.cell, t.cell, s.callers[step.caller], r)
    else NotedWork(s.cell, s.worker, step, r)
  }

  function Recount(s: State, steps: seq<Step>, r: Record): Record
    requires Run(s, steps).Some?
    decreases |steps|
  {
    if steps == [] then r
    else
      var t := Apply(s, steps[0]).value;
      Recount(t, steps[1..], Noted(s, steps[0], t, r))
  }

  /** A success that could not be published any more is a failure. */
  function Accepted(protocol: Protocol, r: Record): Verdict
    requires r.activation.Some?
  {
    if r.activation.value.Succeeded? && protocol.Config? && r.publisherWasClosed then Failed(PublisherClosed)
    else r.activation.value
  }

  /** So is a success that comes too late; a failure is announced as it is. */
  function Announced(protocol: Protocol, r: Record): Verdict
    requires r.activation.Some?
  {
    if Accepted(protocol, r).Succeeded? && r.sawClose then Failed(ClosedDuringActivation) else Accepted(protocol, r)
  }

  predicate ActivationTold(protocol: Protocol, cell: Shared, r: Record) {
    r.activation.Some? && cell.activation == Some(Announced(protocol, r))
  }

  predicate AbortTold(protocol: Protocol, cell: Shared, r: Record) {
    if r.abortedEarly then cell.activation == Some(Failed(ActivationAborted)) else ActivationTold(protocol, cell, r)
  }

  /** What the worker still carries, and what it has announced. */
  predicate WorkerTells(protocol: Protocol, cell: Shared, worker: Worker, r: Record) {
    match worker
    case NoWorker => cell.close.Some? ==> cell.close == Some(Succeeded)
    case Queued => true
    case Activating => true
    case Activated(v) => r.activation.Some? && v == Accepted(protocol, r)
    case Checked(v) => r.activation.Some? && v == Announced(protocol, r)
    case Published => ActivationTold(protocol, cell, r)
    case AwaitingClose => ActivationTold(protocol, cell, r)
    case Cleanup => ActivationTold(protocol, cell, r)
    case Cleaning => ActivationTold(protocol, cell, r)
    case Cleaned(v) => ActivationTold(protocol, cell, r) && r.cleanup == Some(v)
    case ClosedPublisher(v) => ActivationTold(protocol, cell, r) && r.cleanup == Some(v)
    case Dropping(published) => published == !r.abortedEarly && (published ==> ActivationTold(protocol, cell, r))
    case DroppedActivation => AbortTold(protocol, cell, r)
    case Exited(aborted) =>
      if aborted then AbortTold(protocol, cell, r) && cell.close == Some(Failed(CleanupAborted))
      else ActivationTold(protocol, cell, r) && r.cleanup.Some? && cell.close == r.cleanup
  }

  /** A handle without a worker announces why it was never started. */
  predicate UnstartedTells(cell: Shared, worker: Worker, r: Record) {
    worker.NoWorker? && cell.activation.Some? ==>
      r.unstarted.Some? && cell.activation == Some(Failed(r.unstarted.value))
  }

  predicate CallerTells(c: Caller, r: Record) {
    c.ClosePublisher? || c.PublishActivation? ==> r.unstarted.Some? && c.verdict == Failed(r.unstarted.value)
  }

  ghost predicate Tells(s: State, r: Record) {
    && WorkerTells(s.protocol, s.cell, s.worker, r)
    && UnstartedTells(s.cell, s.worker, r)
    && forall i :: 0 <= i < |s.callers| ==> CallerTells(s.callers[i], r)
  }

  // ---------------------------------------------------------------------------------------------

  lemma WorkerStepTells(
      protocol: Protocol, cell: Shared, worker: Worker, tally: Tally, signalled: bool, verdict: Verdict, r: Record)
    requires WorkerTells(protocol, cell, worker, r)
    requires WorkerEffect(protocol, cell, worker, tally, signalled, verdict).Some?
    ensures var p := WorkerEffect(protocol, cell, worker, tally, signalled, verdict).value;
            WorkerTells(protocol, p.cell, p.worker, NotedWork(cell, worker, Work(verdict), r)) && !p.worker.NoWorker?
  {
  }

  lemma WorkerEndTells(protocol: Protocol, cell: Shared, worker: Worker, tally: Tally, r: Record)
    requires WorkerTells(protocol, cell, worker, r)
    requires !worker.NoWorker? ==> (cell.activation.None? <==> BeforeActivation(worker))
    ensures FactoryPanic(cell, worker, tally).Some? ==>
              var p := FactoryPanic(cell, worker, tally).value;
              WorkerTells(protocol, p.cell, p.worker, NotedWork(cell, worker, FactoryPanics, r)) && !p.worker.NoWorker?
    ensures AbortEffect(cell, worker, tally).Some? ==>
              var p := AbortEffect(cell, worker, tally).value;
              WorkerTells(protocol, p.cell, p.worker, NotedWork(cell, worker, Abort, r)) && !p.worker.NoWorker?
  {
  }

  /** A worker's own step leaves the callers, and why the handle was not started, as they were. */
  lemma CarryTells(s: State, p: Progress, r: Record, r': Record)
    requires Tells(s, r) && r'.unstarted == r.unstarted && !p.worker.NoWorker?
    requires WorkerTells(s.protocol, p.cell, p.worker, r')
    ensures Tells(Carry(s, Some(p)).value, r')
  {
    var t := Carry(s, Some(p)).value;
    forall i | 0 <= i < |t.callers| ensures CallerTells(t.callers[i], r') {
      assert CallerTells(s.callers[i], r);
    }
  }

  /** A caller publishes a result only where it is about to. */
  lemma CallerResults(protocol: Protocol, cell: Shared, free: bool, c: Caller)
    requires CallerEffect(protocol, cell, free, c).Some?
    ensures var e := CallerEffect(protocol, cell, free, c).value;
            && e.cell.activation == (if c.PublishActivation? then Some(c.verdict) else cell.activation)
            && e.cell.close == (if c.PublishClose? then Some(Succeeded) else cell.close)
            && (e.spawns <==> c.Spawning?)
  {
  }

  /** Finishing an unstarted handle is where its reason arises; it is carried on unchanged. */
  lemma CallerFinishes(protocol: Protocol, cell: Shared, free: bool, c: Caller)
    requires CallerEffect(protocol, cell, free, c).Some?
    requires c.Starting? ==> cell.start.Prepared?
    requires PublishesUnstarted(c) ==> cell.start.Finished?
    ensures var e := CallerEffect(protocol, cell, free, c).value;
            && (cell.start.Prepared? && e.cell.start.Finished? ==>
                  (HoldsLock(c) || free) && (e.caller.ClosePublisher? || e.caller.PublishActivation?)
                  && e.caller.verdict == Failed(Reason(c)))
            && (!(cell.start.Prepared? && e.cell.start.Finished?)
                && (e.caller.ClosePublisher? || e.caller.PublishActivation?) ==>
                  (c.ClosePublisher? || c.PublishActivation?) && e.caller.verdict == c.verdict)
  {
  }

  /** The worker's part reads nothing of a caller's step but the two results. */
  lemma WorkerTellsFrame(protocol: Protocol, cell: Shared, cell': Shared, worker: Worker, r: Record, r': Record)
    requires WorkerTells(protocol, cell, worker, r) && r' == r.(unstarted := r'.unstarted)
    requires cell'.activation == cell.activation && cell'.close == cell.close
    ensures WorkerTells(protocol, cell', worker, r')
  {
  }

  /** What the caller that steps may rely on about the start. */
  lemma HolderStarts(protocol: Protocol, cell: Shared, holder: Option<Caller>, worker: Worker, tally: Tally, c: Caller)
    requires CoreInv(protocol, cell, holder, worker, tally) && (HoldsLock(c) ==> holder == Some(c))
    ensures PublishesUnstarted(c) ==> cell.start.Finished? && worker.NoWorker?
    ensures c.Starting? || c.Spawning? ==> cell.start.Prepared? && worker.NoWorker?
    ensures cell.start.Prepared? ==> !(holder.Some? && PublishesUnstarted(holder.value))
    ensures cell.start.Prepared? && worker.NoWorker? ==> cell.activation.None? && cell.close.None?
  {
  }

  lemma CallerStepTells(
      protocol: Protocol, cell: Shared, holder: Option<Caller>, worker: Worker, tally: Tally, c: Caller, r: Record)
    requires CoreInv(protocol, cell, holder, worker, tally) && (HoldsLock(c) ==> holder == Some(c))
    requires WorkerTells(protocol, cell, worker, r) && UnstartedTells(cell, worker, r) && CallerTells(c, r)
    requires CallerEffect(protocol, cell, holder.None?, c).Some?
    ensures var e := CallerEffect(protocol, cell, holder.None?, c).value;
            var worker', r' := if e.spawns then Queued else worker, NotedCaller(cell, e.cell, c, r);
            && WorkerTells(protocol, e.cell, worker', r') && UnstartedTells(e.cell, worker', r')
            && CallerTells(e.caller, r')
            && (r' == r || !(holder.Some? && PublishesUnstarted(holder.value)))
  {
    var e := CallerEffect(protocol, cell, holder.None?, c).value;
    CallerResults(protocol, cell, holder.None?, c);
    HolderStarts(protocol, cell, holder, worker, tally, c);
    CallerFinishes(protocol, cell, holder.None?, c);
    if !worker.NoWorker? { WorkerTellsFrame(protocol, cell, e.cell, worker, r, NotedCaller(cell, e.cell, c, r)); }
  }

  /** One caller's move, with the worker's part and the other callers' parts carried over. */
  lemma TakeTells(s: State, i: nat, e: Effect, r: Record, r': Record)
    requires i < |s.callers| && LockInv(s) && Tells(s, r)
    requires var worker := if e.spawns then Queued else s.worker;
             WorkerTells(s.protocol, e.cell, worker, r') && UnstartedTells(e.cell, worker, r')
    requires CallerTells(e.caller, r')
    requires r' == r || !(Holder(s).Some? && PublishesUnstarted(Holder(s).value))
    ensures Tells(Take(s, i, e), r')
  {
    var t := Take(s, i, e);
    forall k | 0 <= k < |t.callers| ensures CallerTells(t.callers[k], r') {
      if k != i {
        assert CallerTells(s.callers[k], r);
        assert HoldsLock(s.callers[k]) ==> s.lock == Some(k);
      }
    }
  }

  lemma AdvanceTells(s: State, i: nat, r: Record)
    requires Inv(s) && Tells(s, r) && Apply(s, Advance(i)).Some?
    ensures Tells(Apply(s, Advance(i)).value, Noted(s, Advance(i), Apply(s, Advance(i)).value, r))
  {
    var c := s.callers[i];
    assert HoldsLock(c) ==> s.lock == Some(i) && Holder(s) == Some(c);
    assert s.lock.None? <==> Holder(s).None?;
    var e := CallerEffect(s.protocol, s.cell, s.lock.None?, c).value;
    assert CallerTells(c, r);
    CallerStepTells(s.protocol, s.cell, Holder(s), s.worker, s.tally, c, r);
    TakeTells(s, i, e, r, NotedCaller(s.cell, e.cell, c, r));
  }

  /** The environment, and the first poll of an activation, publish nothing. */
  lemma EnvironmentTells(s: State, step: Step, r: Record)
    requires Tells(s, r) && Apply(s, step).Some?
    requires !step.Advance? && !step.Work? && !step.FactoryPanics? && !step.Abort?
    ensures Tells(Apply(s, step).value, r)
  {
    var t := Apply(s, step).value;
    assert t.worker == s.worker && t.protocol == s.protocol;
    WorkerTellsFrame(s.protocol, s.cell, t.cell, s.worker, r, r);
    forall k | 0 <= k < |t.callers| ensures CallerTells(t.callers[k], r) {
      assert k < |s.callers| ==> CallerTells(s.callers[k], r);
    }
  }

  lemma StepTells(s: State, step: Step, r: Record)
    requires Inv(s) && Tells(s, r) && Apply(s, step).Some?
    ensures Tells(Apply(s, step).value, Noted(s, step, Apply(s, step).value, r))
  {
    var r' := NotedWork(s.cell, s.worker, step, r);
    match step {
      case Advance(i) => AdvanceTells(s, i, r);
      case Work(verdict) =>
        WorkerStepTells(s.protocol, s.cell, s.worker, s.tally, s.signalAtSpawn, verdict, r);
        CarryTells(s, WorkerEffect(s.protocol, s.cell, s.worker, s.tally, s.signalAtSpawn, verdict).value, r, r');
      case FactoryPanics =>
        WorkerEndTells(s.protocol, s.cell, s.worker, s.tally, r);
        CarryTells(s, FactoryPanic(s.cell, s.worker, s.tally).value, r, r');
      case Abort =>
        WorkerEndTells(s.protocol, s.cell, s.worker, s.tally, r);
        CarryTells(s, AbortEffect(s.cell, s.worker, s.tally).value, r, r');
      case _ => EnvironmentTells(s, step, r);
    }
  }

  lemma {:induction false} RunTells(s: State, steps: seq<Step>, r: Record)
    requires Inv(s) && Tells(s, r) && Run(s, steps).Some?
    ensures Tells(Run(s, steps).value, Recount(s, steps, r))
    decreases |steps|
  {
    if steps != [] {
      var t := Apply(s, steps[0]).value;
      StepTells(s, steps[0], r);
      ApplyKeepsInv(s, steps[0]);
      RunTells(t, steps[1..], Noted(s, steps[0], t, r));
    }
  }

  // ---------------------------------------------------------------------------------------------

  /**
   * A worker that ran to its end has announced the activation future's own outcome, unless a success met a closed
   * publisher or a signalled close, and exactly how cleanup ended.
   */
  lemma EndedWorkerTellsOutcomes(protocol: Protocol, steps: seq<Step>)
    requires Run(Init(protocol), steps).Some? && Run(Init(protocol), steps).value.worker == Exited(false)
    ensures var s, r := Run(Init(protocol), steps).value, Recount(Init(protocol), steps, NOTHING);
            && r.activation.Some? && r.cleanup.Some? && s.cell.close == r.cleanup
            && s.cell.activation
               == Some(if r.activation.value.Failed? then r.activation.value
                       else if protocol.Config? && r.publisherWasClosed then Failed(PublisherClosed)
                       else if r.sawClose then Failed(ClosedDuringActivation) else Succeeded)
  {
    InitInv(protocol);
    RunTells(Init(protocol), steps, NOTHING);
    ProtocolStays(Init(protocol), steps);
  }

  /** An activation result is announced the same way before the end: it never waits for the close. */
  lemma LiveWorkerTellsActivation(protocol: Protocol, steps: seq<Step>)
    requires Run(Init(protocol), steps).Some?
    requires var s := Run(Init(protocol), steps).value;
             s.cell.activation.Some? && !s.worker.NoWorker? && !IsDropping(s.worker)
    ensures var s, r := Run(Init(protocol), steps).value, Recount(Init(protocol), steps, NOTHING);
            r.activation.Some? && s.cell.activation == Some(Announced(protocol, r))
  {
    InitInv(protocol);
    RunKeepsInv(Init(protocol), steps);
    RunTells(Init(protocol), steps, NOTHING);
    ProtocolStays(Init(protocol), steps);
  }

  /** An aborted worker announces that cleanup was, and that activation was unless its result was out already. */
  lemma AbortedWorkerTellsAborts(protocol: Protocol, steps: seq<Step>)
    requires Run(Init(protocol), steps).Some? && Run(Init(protocol), steps).value.worker == Exited(true)
    ensures var s, r := Run(Init(protocol), steps).value, Recount(Init(protocol), steps, NOTHING);
            && s.cell.close == Some(Failed(CleanupAborted))
            && (r.abortedEarly ==> s.cell.activation == Some(Failed(ActivationAborted)))
            && (!r.abortedEarly ==> r.activation.Some? && s.cell.activation == Some(Announced(protocol, r)))
  {
    InitInv(protocol);
    RunTells(Init(protocol), steps, NOTHING);
    ProtocolStays(Init(protocol), steps);
  }

  /** A handle finished without a worker announces a clean close, and the reason it was not started. */
  lemma UnstartedHandleTellsReason(protocol: Protocol, steps: seq<Step>)
    requires Run(Init(protocol), steps).Some? && Run(Init(protocol), steps).value.worker.NoWorker?
    ensures var s, r := Run(Init(protocol), steps).value, Recount(Init(protocol), steps, NOTHING);
            && (s.cell.close.Some? ==> s.cell.close == Some(Succeeded))
            && (s.cell.activation.Some? ==>
                  r.unstarted.Some? && s.cell.activation == Some(Failed(r.unstarted.value)))
  {
    InitInv(protocol);
    RunTells(Init(protocol), steps, NOTHING);
  }

  lemma {:induction false} ProtocolStays(s: State, steps: seq<Step>)
    requires Run(s, steps).Some?
    ensures Run(s, steps).value.protocol == s.protocol
    decreases |steps|
  {
    if steps != [] { ProtocolStays(Apply(s, steps[0]).value, steps[1..]); }
  }

  /** A call that waits for a result goes on exactly when the result is there. */
  lemma WaitersSeeResults(s: State, i: nat)
    requires i < |s.callers|
    ensures s.callers[i].Waiting? ==> (Apply(s, Advance(i)).Some? <==> s.cell.activation.Some?)
    ensures s.callers[i].AwaitingResult? ==> (Apply(s, Advance(i)).Some? <==> s.cell.close.Some?)
  {
  }

  /** A call to activate that still owes its caller the shared result. */
  predicate OwesActivation(c: Caller) {
    || c.Polled? || c.Starting? || c.Spawning? || c.Spawned? || c.Waiting?
    || (c.ClosePublisher? && IsActivation(c.next))
    || (c.PublishActivation? && IsActivation(c.next))
    || (c.PublishClose? && IsActivation(c.next))
  }

  /** A call to close, as opposed to a mere request. */
  predicate OwesClose(c: Caller) {
    || ((c.Swapping? || c.Signalling? || c.Locking?) && c.awaits) || c.AwaitingResult?
    || (c.ClosePublisher? && c.next.ThenAwaitClose?)
    || (c.PublishActivation? && c.next.ThenAwaitClose?)
    || (c.PublishClose? && c.next.ThenAwaitClose?)
  }

  lemma StepPaysDebts(
      protocol: Protocol, cell: Shared, holder: Option<Caller>, worker: Worker, tally: Tally, c: Caller)
    requires CoreInv(protocol, cell, holder, worker, tally) && (HoldsLock(c) ==> holder == Some(c))
    requires CallerEffect(protocol, cell, holder.None?, c).Some?
    ensures var e := CallerEffect(protocol, cell, holder.None?, c).value;
            && (OwesActivation(c) ==> OwesActivation(e.caller) || e.cell.activation.Some?)
            && (OwesClose(c) ==> OwesClose(e.caller) || e.cell.close.Some?)
  {
  }

  /** A call leaves off waiting by its own step only with the result it came for published. */
  lemma CallsReturnWithResults(s: State, i: nat)
    requires Reachable(s) && Apply(s, Advance(i)).Some?
    ensures var c, t := s.callers[i], Apply(s, Advance(i)).value;
            && (OwesActivation(c) && !OwesActivation(t.callers[i]) ==> t.cell.activation.Some?)
            && (OwesClose(c) && !OwesClose(t.callers[i]) ==> t.cell.close.Some? && t.cell.closeRequested)
  {
    ReachableInv(s);
    var c := s.callers[i];
    assert HoldsLock(c) ==> s.lock == Some(i) && Holder(s) == Some(c);
    assert s.lock.None? <==> Holder(s).None?;
    assert CallerInv(s.protocol, s.cell, c);
    StepPaysDebts(s.protocol, s.cell, Holder(s), s.worker, s.tally, c);
    AdvanceGrows(s, i);
  }

  // ---------------------------------------------------------------------------------------------
  // Why a close was requested

  /** A close is requested, or about to be. */
  ghost predicate IsClosing(s: State) {
    s.cell.closeRequested || exists i :: 0 <= i < |s.callers| && s.callers[i].Swapping?
  }

  /** A close was called for, the last handle's lifecycle was dropped, or an activation was given up unobserved. */
  predicate CallsForClose(s: State, step: Step) {
    || step.Close? || step.DropLifecycle?
    || (step.Advance? && step.caller < |s.callers| && s.callers[step.caller].Deciding? && !s.cell.observed)
  }

  /** Only the last live waiter, released without a result, is ever in the position to give an activation up. */
  predicate GivesUp(s: State, step: Step) {
    && step.Advance? && step.caller < |s.callers| && s.callers[step.caller] == Releasing(false) && s.cell.waiters == 1
  }

  lemma RequestsHaveReason(protocol: Protocol, cell: Shared, free: bool, c: Caller)
    requires CallerEffect(protocol, cell, free, c).Some?
    ensures var e := CallerEffect(protocol, cell, free, c).value;
            && (e.caller.Swapping? ==> c.Deciding? && !cell.observed)
            && (e.cell.closeRequested && !cell.closeRequested ==> c.Swapping?)
            && (e.caller.Deciding? ==> c == Releasing(false) && cell.waiters == 1)
  {
  }

  lemma StepHasReason(s: State, step: Step)
    requires Apply(s, step).Some? && !IsClosing(s) && IsClosing(Apply(s, step).value)
    ensures CallsForClose(s, step)
  {
    var t := Apply(s, step).value;
    if step.Advance? {
      RequestsHaveReason(s.protocol, s.cell, s.lock.None?, s.callers[step.caller]);
    }
    forall i | 0 <= i < |t.callers| && t.callers[i].Swapping?
      ensures CallsForClose(s, step) || (i < |s.callers| && s.callers[i].Swapping?)
    {
    }
  }

  lemma OnlyReleasesDecide(s: State, step: Step, i: nat)
    requires Apply(s, step).Some? && i < |Apply(s, step).value.callers| && Apply(s, step).value.callers[i].Deciding?
    ensures (i < |s.callers| && s.callers[i].Deciding?) || (step == Advance(i) && GivesUp(s, step))
  {
    if step.Advance? {
      RequestsHaveReason(s.protocol, s.cell, s.lock.None?, s.callers[step.caller]);
    }
  }

  /** No handle is closed for nothing: some step of the run called for it. */
  lemma {:induction false} CloseHasReason(s: State, steps: seq<Step>) returns (k: nat)
    requires Run(s, steps).Some? && !IsClosing(s) && IsClosing(Run(s, steps).value)
    ensures k < |steps| && Run(s, steps[..k]).Some? && CallsForClose(Run(s, steps[..k]).value, steps[k])
    decreases |steps|
  {
    var t := Apply(s, steps[0]).value;
    if IsClosing(t) {
      StepHasReason(s, steps[0]);
      assert steps[..0] == [];
      return 0;
    }
    var rest := CloseHasReason(t, steps[1..]);
    k := rest + 1;
    assert steps[..k][0] == steps[0] && steps[..k][1..] == steps[1..][..rest];
  }

  /** An activation is given up only by the last waiter there was, and only when it left without a result. */
  lemma {:induction false} DecidingHasReason(s: State, steps: seq<Step>, i: nat) returns (k: nat)
    requires Run(s, steps).Some? && i < |Run(s, steps).value.callers| && Run(s, steps).value.callers[i].Deciding?
    requires i < |s.callers| ==> !s.callers[i].Deciding?
    ensures k < |steps| && steps[k] == Advance(i)
    ensures Run(s, steps[..k]).Some? && GivesUp(Run(s, steps[..k]).value, steps[k])
    decreases |steps|
  {
    var t := Apply(s, steps[0]).value;
    if i < |t.callers| && t.callers[i].Deciding? {
      OnlyReleasesDecide(s, steps[0], i);
      assert steps[..0] == [];
      return 0;
    }
    var rest := DecidingHasReason(t, steps[1..], i);
    k := rest + 1;
    assert steps[..k][0] == steps[0] && steps[..k][1..] == steps[1..][..rest];
  }
}
