/** What every interleaving of calls, cancellations, destructors, worker steps and aborts keeps. */
module LifecycleSafety {
  import opened Prelude
  import opened LifecycleProtocol

  // ---------------------------------------------------------------------------------------------
  // The start lock, the worker and the two results

  /** The caller inside the critical section, if there is one. */
  function Holder(s: State): Option<Caller> {
    if s.lock.Some? && s.lock.value < |s.callers| then Some(s.callers[s.lock.value]) else None
  }

  /** The lock is held by at most one caller, and exactly by those inside the critical section. */
  ghost predicate LockInv(s: State) {
    && (s.lock.Some? ==> s.lock.value < |s.callers| && HoldsLock(s.callers[s.lock.value]))
    && forall i :: 0 <= i < |s.callers| && HoldsLock(s.callers[i]) ==> s.lock == Some(i)
  }

  predicate PublishesUnstarted(c: Caller) {
    c.ClosePublisher? || c.PublishActivation? || c.PublishClose?
  }

  /** How the start state, the lock holder and the worker agree. */
  predicate StartInv(cell: Shared, holder: Option<Caller>, worker: Worker) {
    match cell.start
    case Prepared =>
      && (holder.Some? ==> !PublishesUnstarted(holder.value))
      && (worker.NoWorker? <==> !(holder.Some? && holder.value.Spawned?))
    case Started => holder.None? && !worker.NoWorker?
    case Finished => (holder.Some? ==> PublishesUnstarted(holder.value)) && worker.NoWorker?
  }

  /** The results of a handle that no worker serves: none while prepared, then a failed activation and a clean close. */
  predicate UnstartedInv(protocol: Protocol, cell: Shared, holder: Option<Caller>, tally: Tally) {
    && tally == Tally(0, 0, 0, tally.created, None)
    && (cell.start.Prepared? || (holder.Some? && (holder.value.ClosePublisher? || holder.value.PublishActivation?))
        <==> cell.activation.None?)
    && (cell.start.Prepared? || (holder.Some? && PublishesUnstarted(holder.value)) <==> cell.close.None?)
    && (cell.activation.Some? ==> cell.activation.value.Failed?)
    && (cell.close.Some? ==> cell.close.value.Succeeded?)
    && (holder.Some? && holder.value.ClosePublisher? ==> protocol.Config? && holder.value.verdict.Failed?)
    && (holder.Some? && holder.value.PublishActivation? ==> holder.value.verdict.Failed?)
    && (cell.publisherClosed <==>
          protocol.Config? && !cell.start.Prepared? && !(holder.Some? && holder.value.ClosePublisher?))
  }

  /** The worker has not sent the activation result yet. */
  predicate BeforeActivation(w: Worker) {
    w.Queued? || w.Activating? || w.Activated? || w.Checked? || (w.Dropping? && !w.activationPublished)
  }

  /** The worker has looked at the close signal. */
  predicate HasChecked(w: Worker) {
    || w.Checked? || w.Published? || w.AwaitingClose? || w.Cleanup? || w.Cleaning? || w.Cleaned? || w.ClosedPublisher?
    || (w.Dropping? && w.activationPublished) || (w.Exited? && !w.aborted)
  }

  predicate HasCleaned(w: Worker) {
    w.Cleaning? || w.Cleaned? || w.ClosedPublisher? || (w.Exited? && !w.aborted)
  }

  predicate IsDropping(w: Worker) {
    w.Dropping? || w.DroppedActivation? || (w.Exited? && w.aborted)
  }

  /** The worker's progress through its one activation, its one cleanup and its two results. */
  predicate WorkerInv(protocol: Protocol, cell: Shared, worker: Worker, tally: Tally) {
    && tally.spawned == 1
    && tally.activations <= 1 && (worker.Queued? ==> tally.activations == 0)
    && (!worker.Queued? && !IsDropping(worker) ==> tally.activations == 1)
    && tally.cleanups <= 1 && (HasCleaned(worker) ==> tally.cleanups == 1)
    && (!HasCleaned(worker) && !IsDropping(worker) ==> tally.cleanups == 0)
    && (tally.cleanups == 1 ==> tally.activations == 1 && cell.activation.Some? && tally.checkSawClose.Some?)
    && (cell.activation.None? <==> BeforeActivation(worker))
    && (cell.close.Some? <==> worker.Exited?)
    && (cell.publisherClosed <==>
          protocol.Config? && (worker.ClosedPublisher? || worker.DroppedActivation? || worker.Exited?))
    && (HasChecked(worker) ==> tally.checkSawClose.Some?)
    && (tally.checkSawClose.Some? ==> tally.activations == 1)
    && (worker.Checked? && worker.verdict.Succeeded? ==> tally.checkSawClose == Some(false))
    && (cell.activation == Some(Succeeded) ==> tally.checkSawClose == Some(false))
  }

  predicate CoreInv(protocol: Protocol, cell: Shared, holder: Option<Caller>, worker: Worker, tally: Tally) {
    && StartInv(cell, holder, worker)
    && (if worker.NoWorker? then UnstartedInv(protocol, cell, holder, tally)
        else WorkerInv(protocol, cell, worker, tally))
  }

  // ---------------------------------------------------------------------------------------------
  // Close requests

  ghost predicate SomeSignalling(s: State) {
    exists i :: 0 <= i < |s.callers| && s.callers[i].Signalling?
  }

  ghost predicate SomeLocking(s: State) {
    exists i :: 0 <= i < |s.callers| && s.callers[i].Locking?
  }

  /** Some caller is about to swap the close flag, or to decide whether the last waiter's loss makes it swap. */
  ghost predicate SomeDeciding(s: State) {
    exists i :: 0 <= i < |s.callers| && (s.callers[i].Deciding? || s.callers[i].Swapping?)
  }

  /** No close request is lost between the swap, the signal and the start lock. */
  ghost predicate CloseInv(s: State) {
    && (s.cell.closeSignal ==> s.cell.closeRequested)
    && (s.cell.closeRequested && !s.cell.closeSignal ==> SomeSignalling(s))
    && (s.cell.closeRequested && s.cell.start.Prepared? ==> SomeSignalling(s) || SomeLocking(s))
    && (!s.worker.NoWorker? && s.signalAtSpawn ==> s.cell.closeSignal)
    && (s.worker.AwaitingClose? ==> !s.signalAtSpawn)
    && (s.worker.Cleanup? || s.worker.Cleaning? ==> s.cell.closeSignal)
  }

  // ---------------------------------------------------------------------------------------------
  // Callers

  /** What each kind of caller may rely on. */
  predicate CallerInv(protocol: Protocol, cell: Shared, c: Caller) {
    && (c.Waiting? ==> cell.activation.Some? || !cell.start.Prepared?)
    && (c.Signalling? || c.Locking? || c.AwaitingResult? ==> cell.closeRequested)
    && (c.AwaitingResult? ==> !cell.start.Prepared?)
    && (c.ClosePublisher? || c.PublishActivation? || c.PublishClose? ==>
          c.next.ThenWait? || c.next.ThenObserve? || cell.closeRequested)
    && (c.Releasing? && c.completed ==> cell.observed)
    && (protocol.Config? ==> !c.Observing? && !c.Releasing? && !c.Deciding?)
  }

  ghost predicate CallersInv(s: State) {
    forall i :: 0 <= i < |s.callers| ==> CallerInv(s.protocol, s.cell, s.callers[i])
  }

  function RegisteredCount(c: Caller): nat {
    if Registered(c) then 1 else 0
  }

  /** The waiter count is the number of live waiters, and losing the last one unobserved requests a close. */
  ghost predicate WaiterInv(s: State) {
    s.protocol.Registry? ==>
      && s.cell.waiters == Total(RegisteredCount, s.callers)
      && (s.tally.created && s.cell.waiters == 0 ==> s.cell.observed || s.cell.closeRequested || SomeDeciding(s))
  }

  ghost predicate Inv(s: State) {
    && LockInv(s)
    && CoreInv(s.protocol, s.cell, Holder(s), s.worker, s.tally)
    && CloseInv(s) && CallersInv(s) && WaiterInv(s)
  }

  lemma InitInv(protocol: Protocol)
    ensures Inv(Init(protocol))
  {
  }

  // ---------------------------------------------------------------------------------------------
  // Witnesses and counts under the move or arrival of one caller

  /** Witnesses other than the moving caller survive its move, and it becomes one itself by moving there. */
  lemma MoveKeepsSome(s: State, t: State, i: nat, c: Caller)
    requires i < |s.callers| && t.callers == s.callers[i := c]
    ensures SomeSignalling(s) && !s.callers[i].Signalling? ==> SomeSignalling(t)
    ensures SomeLocking(s) && !s.callers[i].Locking? ==> SomeLocking(t)
    ensures SomeDeciding(s) && !s.callers[i].Deciding? && !s.callers[i].Swapping? ==> SomeDeciding(t)
    ensures c.Signalling? ==> SomeSignalling(t)
    ensures c.Locking? ==> SomeLocking(t)
    ensures c.Deciding? || c.Swapping? ==> SomeDeciding(t)
  {
    assert t.callers[i] == c;
    forall j | 0 <= j < |s.callers| && j != i ensures t.callers[j] == s.callers[j] {}
    if j :| 0 <= j < |s.callers| && s.callers[j].Signalling? && j != i { assert t.callers[j].Signalling?; }
    if j :| 0 <= j < |s.callers| && s.callers[j].Locking? && j != i { assert t.callers[j].Locking?; }
    if j :| 0 <= j < |s.callers| && (s.callers[j].Deciding? || s.callers[j].Swapping?) && j != i {
      assert t.callers[j].Deciding? || t.callers[j].Swapping?;
    }
  }

  lemma ArrivalKeepsSome(s: State, t: State, c: Caller)
    requires t.callers == s.callers + [c]
    ensures SomeSignalling(s) ==> SomeSignalling(t)
    ensures SomeLocking(s) ==> SomeLocking(t)
    ensures SomeDeciding(s) || c.Swapping? ==> SomeDeciding(t)
  {
    assert t.callers[|s.callers|] == c;
    forall j | 0 <= j < |s.callers| ensures t.callers[j] == s.callers[j] {}
    if j :| 0 <= j < |s.callers| && s.callers[j].Signalling? { assert t.callers[j].Signalling?; }
    if j :| 0 <= j < |s.callers| && s.callers[j].Locking? { assert t.callers[j].Locking?; }
    if j :| 0 <= j < |s.callers| && (s.callers[j].Deciding? || s.callers[j].Swapping?) {
      assert t.callers[j].Deciding? || t.callers[j].Swapping?;
    }
  }

  lemma MoveRecounts(s: State, i: nat, c: Caller)
    requires i < |s.callers|
    ensures Total(RegisteredCount, s.callers[i := c]) + RegisteredCount(s.callers[i])
            == Total(RegisteredCount, s.callers) + RegisteredCount(c)
    ensures RegisteredCount(s.callers[i]) <= Total(RegisteredCount, s.callers)
  {
    TotalUpdate(RegisteredCount, s.callers, i, c);
    TotalMember(RegisteredCount, s.callers, i);
  }

  // ---------------------------------------------------------------------------------------------
  // Steps of callers

  /** What the cells of a caller's step may do to the promises made to other callers. */
  predicate CellGrows(before: Shared, after: Shared) {
    && (before.activation.Some? ==> after.activation == before.activation)
    && (before.close.Some? ==> after.close == before.close)
    && (!before.start.Prepared? ==> after.start == before.start)
    && (before.closeRequested ==> after.closeRequested)
    && (before.closeSignal ==> after.closeSignal)
    && (before.observed ==> after.observed)
    && (before.publisherClosed ==> after.publisherClosed)
  }

  /** The lock follows the critical section, and no promise is withdrawn, in one caller's step. */
  lemma EffectIsLocal(protocol: Protocol, cell: Shared, holder: Option<Caller>, worker: Worker, tally: Tally, c: Caller)
    requires CoreInv(protocol, cell, holder, worker, tally) && CallerInv(protocol, cell, c)
    requires HoldsLock(c) ==> holder == Some(c)
    requires CallerEffect(protocol, cell, holder.None?, c).Some?
    ensures var e := CallerEffect(protocol, cell, holder.None?, c).value;
            && CellGrows(cell, e.cell) && CallerInv(protocol, e.cell, e.caller)
            && (HoldsLock(c) ==> !e.lock.Acquire? && (HoldsLock(e.caller) <==> e.lock.Keep?))
            && (!HoldsLock(c) ==> !e.lock.Release? && (HoldsLock(e.caller) <==> e.lock.Acquire?))
            && (e.lock.Acquire? ==> holder.None?)
  {
  }

  /** The step of a caller in or entering the critical section keeps the core. */
  lemma HolderKeepsCore(protocol: Protocol, cell: Shared, holder: Option<Caller>, worker: Worker, tally: Tally, c: Caller)
    requires CoreInv(protocol, cell, holder, worker, tally)
    requires HoldsLock(c) ==> holder == Some(c)
    requires CallerEffect(protocol, cell, holder.None?, c).Some?
    ensures var e := CallerEffect(protocol, cell, holder.None?, c).value;
            && (HoldsLock(c) || e.lock.Acquire? ==>
                  CoreInv(protocol, e.cell, if HoldsLock(e.caller) then Some(e.caller) else None,
                          if e.spawns then Queued else worker,
                          if e.spawns then tally.(spawned := tally.spawned + 1) else tally))
            && (!HoldsLock(c) && e.lock.Keep? ==> CoreInv(protocol, e.cell, holder, worker, tally) && !e.spawns)
  {
  }

  lemma AdvanceKeepsCore(s: State, i: nat)
    requires Inv(s) && i < |s.callers| && AdvanceCaller(s, i).Some?
    ensures var t := AdvanceCaller(s, i).value;
            LockInv(t) && CoreInv(t.protocol, t.cell, Holder(t), t.worker, t.tally) && CallersInv(t)
  {
    var c, t := s.callers[i], AdvanceCaller(s, i).value;
    assert CallerInv(s.protocol, s.cell, c);
    assert HoldsLock(c) ==> s.lock == Some(i);
    EffectIsLocal(s.protocol, s.cell, Holder(s), s.worker, s.tally, c);
    HolderKeepsCore(s.protocol, s.cell, Holder(s), s.worker, s.tally, c);
    forall j | 0 <= j < |t.callers|
      ensures CallerInv(t.protocol, t.cell, t.callers[j])
    {
      assert j != i ==> t.callers[j] == s.callers[j] && CallerInv(s.protocol, s.cell, s.callers[j]);
    }
  }

  lemma AdvanceKeepsCloses(s: State, i: nat)
    requires Inv(s) && i < |s.callers| && AdvanceCaller(s, i).Some?
    ensures CloseInv(AdvanceCaller(s, i).value)
  {
    var c, t := s.callers[i], AdvanceCaller(s, i).value;
    var e := CallerEffect(s.protocol, s.cell, s.lock.None?, c).value;
    assert CallerInv(s.protocol, s.cell, c);
    assert HoldsLock(c) ==> s.lock == Some(i);
    MoveKeepsSome(s, t, i, e.caller);
    CloseEffect(s.protocol, s.cell, s.lock.None?, c);
  }

  /** How one caller's step may change the close cells and the start state. */
  lemma CloseEffect(protocol: Protocol, cell: Shared, free: bool, c: Caller)
    requires CallerEffect(protocol, cell, free, c).Some?
    ensures var e := CallerEffect(protocol, cell, free, c).value;
            && (e.cell.closeRequested != cell.closeRequested ==> c.Swapping? && e.caller.Signalling?)
            && (e.cell.closeSignal != cell.closeSignal ==> c.Signalling?)
            && (c.Signalling? ==> e.cell.closeSignal && e.caller.Locking? && e.cell.closeRequested == cell.closeRequested)
            && (c.Locking? ==> !e.cell.start.Prepared?)
            && (e.cell.start.Prepared? ==> cell.start.Prepared?)
            && (e.spawns ==> c.Spawning?)
            && (e.cell.observed != cell.observed ==> c.Observing?)
            && (c.Swapping? ==> e.cell.closeRequested)
  {
  }

  /** How one caller's step may change the waiter count. */
  lemma WaiterEffect(cell: Shared, free: bool, c: Caller)
    requires CallerEffect(Registry, cell, free, c).Some? && CallerInv(Registry, cell, c)
    ensures var e := CallerEffect(Registry, cell, free, c).value;
            && e.cell.waiters + RegisteredCount(c) == cell.waiters + RegisteredCount(e.caller)
            && (e.cell.waiters == 0 && cell.waiters > 0 ==> e.cell.observed || e.caller.Deciding?)
            && (c.Deciding? || c.Swapping? ==> e.cell.observed || e.cell.closeRequested || e.caller.Swapping?)
  {
  }

  lemma AdvanceKeepsWaiters(s: State, i: nat)
    requires Inv(s) && i < |s.callers| && AdvanceCaller(s, i).Some?
    ensures WaiterInv(AdvanceCaller(s, i).value)
  {
    var c, t := s.callers[i], AdvanceCaller(s, i).value;
    var e := CallerEffect(s.protocol, s.cell, s.lock.None?, c).value;
    assert CallerInv(s.protocol, s.cell, c);
    assert HoldsLock(c) ==> s.lock == Some(i);
    if s.protocol.Registry? {
      MoveRecounts(s, i, e.caller);
      MoveKeepsSome(s, t, i, e.caller);
      WaiterEffect(s.cell, s.lock.None?, c);
      EffectIsLocal(s.protocol, s.cell, Holder(s), s.worker, s.tally, c);
    }
  }

  // ---------------------------------------------------------------------------------------------
  // Steps of the worker

  /** What a step of the worker, its abort or a panicking cleanup factory leaves as it was. */
  predicate KeepsCallerSide(cell: Shared, worker: Worker, tally: Tally, p: Progress) {
    && !worker.NoWorker? && !p.worker.NoWorker?
    && p.cell == cell.(activation := p.cell.activation, close := p.cell.close, publisherClosed := p.cell.publisherClosed)
    && CellGrows(cell, p.cell)
    && p.tally.created == tally.created
    && (p.worker.AwaitingClose? ==> worker.AwaitingClose? || !cell.closeSignal)
    && (p.worker.Cleanup? || p.worker.Cleaning? ==> cell.closeSignal || worker.Cleanup?)
  }

  lemma WorkIsLocal(protocol: Protocol, cell: Shared, worker: Worker, tally: Tally, signalled: bool, verdict: Verdict)
    requires worker.NoWorker? || WorkerInv(protocol, cell, worker, tally)
    requires WorkerEffect(protocol, cell, worker, tally, signalled, verdict).Some?
    ensures var p := WorkerEffect(protocol, cell, worker, tally, signalled, verdict).value;
            KeepsCallerSide(cell, worker, tally, p) && WorkerInv(protocol, p.cell, p.worker, p.tally)
  {
  }

  lemma PanicAndAbortAreLocal(protocol: Protocol, cell: Shared, worker: Worker, tally: Tally)
    requires worker.NoWorker? || WorkerInv(protocol, cell, worker, tally)
    ensures var p := FactoryPanic(cell, worker, tally);
            p.Some? ==>
              KeepsCallerSide(cell, worker, tally, p.value)
              && WorkerInv(protocol, p.value.cell, p.value.worker, p.value.tally)
    ensures var p := AbortEffect(cell, worker, tally);
            p.Some? ==>
              KeepsCallerSide(cell, worker, tally, p.value)
              && WorkerInv(protocol, p.value.cell, p.value.worker, p.value.tally)
  {
  }

  lemma CarryKeepsInv(s: State, p: Progress)
    requires Inv(s) && KeepsCallerSide(s.cell, s.worker, s.tally, p) && WorkerInv(s.protocol, p.cell, p.worker, p.tally)
    ensures Inv(Carry(s, Some(p)).value)
  {
    var t := Carry(s, Some(p)).value;
    forall j | 0 <= j < |t.callers| ensures CallerInv(t.protocol, t.cell, t.callers[j]) {
      assert CallerInv(s.protocol, s.cell, s.callers[j]);
    }
    assert SomeSignalling(s) ==> SomeSignalling(t);
    assert SomeLocking(s) ==> SomeLocking(t);
    assert SomeDeciding(s) ==> SomeDeciding(t);
  }

  // ---------------------------------------------------------------------------------------------
  // Arrivals and departures

  lemma ArrivalKeepsInv(s: State, c: Caller)
    requires Inv(s) && (c.Created? || c.Swapping?)
    ensures Inv(Arrive(s, c))
  {
    var t := Arrive(s, c);
    TotalAppend(RegisteredCount, s.callers, c);
    ArrivalKeepsSome(s, t, c);
    forall j | 0 <= j < |t.callers| ensures CallerInv(t.protocol, t.cell, t.callers[j]) {
      assert j < |s.callers| ==> t.callers[j] == s.callers[j] && CallerInv(s.protocol, s.cell, s.callers[j]);
    }
  }

  /** A caller outside the critical section moves without touching a cell. */
  lemma DepartureKeepsInv(s: State, i: nat, c: Caller)
    requires Inv(s) && i < |s.callers| && !HoldsLock(s.callers[i]) && !HoldsLock(c)
    requires CallerInv(s.protocol, s.cell, c)
    requires !s.callers[i].Signalling? && !s.callers[i].Locking? && !s.callers[i].Deciding? && !s.callers[i].Swapping?
    requires RegisteredCount(c) == RegisteredCount(s.callers[i]) || s.protocol.Config?
    ensures Inv(s.(callers := s.callers[i := c]))
  {
    var t := s.(callers := s.callers[i := c]);
    MoveRecounts(s, i, c);
    MoveKeepsSome(s, t, i, c);
    forall j | 0 <= j < |t.callers| ensures CallerInv(t.protocol, t.cell, t.callers[j]) {
      assert j != i ==> t.callers[j] == s.callers[j] && CallerInv(s.protocol, s.cell, s.callers[j]);
    }
  }

  lemma DropKeepsInv(s: State, t: State)
    requires Inv(s) && t == s.(handles := t.handles, dropped := t.dropped)
    ensures Inv(t)
  {
    forall j | 0 <= j < |t.callers| ensures CallerInv(t.protocol, t.cell, t.callers[j]) {
      assert CallerInv(s.protocol, s.cell, s.callers[j]);
    }
    assert SomeSignalling(s) ==> SomeSignalling(t);
    assert SomeLocking(s) ==> SomeLocking(t);
    assert SomeDeciding(s) ==> SomeDeciding(t);
  }

  /** A step of the environment keeps the invariant. */
  lemma EnvironmentKeepsInv(s: State, step: Step)
    requires Inv(s) && Apply(s, step).Some? && !IsProtocolStep(step) && !step.Abort?
    ensures Inv(Apply(s, step).value)
  {
    var t := Apply(s, step).value;
    match step {
      case Activate => ArrivalKeepsInv(s, Created);
      case Close(awaits) => ArrivalKeepsInv(s, Swapping(awaits));
      case DropLifecycle =>
        ArrivalKeepsInv(s, Swapping(false));
        DropKeepsInv(Arrive(s, Swapping(false)), t);
      case Cancel(i) =>
        assert CallerInv(s.protocol, s.cell, s.callers[i]);
        DepartureKeepsInv(s, i, Cancelled(s.protocol, s.callers[i]).value);
      case CloneHandle => DropKeepsInv(s, t);
      case DropHandle => DropKeepsInv(s, t);
    }
  }

  /** Every step keeps the invariant. */
  lemma ApplyKeepsInv(s: State, step: Step)
    requires Inv(s) && Apply(s, step).Some?
    ensures Inv(Apply(s, step).value)
  {
    match step {
      case Advance(i) =>
        AdvanceKeepsCore(s, i);
        AdvanceKeepsCloses(s, i);
        AdvanceKeepsWaiters(s, i);
      case Work(verdict) =>
        WorkIsLocal(s.protocol, s.cell, s.worker, s.tally, s.signalAtSpawn, verdict);
        CarryKeepsInv(s, WorkerEffect(s.protocol, s.cell, s.worker, s.tally, s.signalAtSpawn, verdict).value);
      case FactoryPanics =>
        PanicAndAbortAreLocal(s.protocol, s.cell, s.worker, s.tally);
        CarryKeepsInv(s, FactoryPanic(s.cell, s.worker, s.tally).value);
      case Abort =>
        PanicAndAbortAreLocal(s.protocol, s.cell, s.worker, s.tally);
        CarryKeepsInv(s, AbortEffect(s.cell, s.worker, s.tally).value);
      case Poll(i, runtime) => DepartureKeepsInv(s, i, FirstPoll(s.cell, s.callers[i], runtime).value);
      case _ => EnvironmentKeepsInv(s, step);
    }
  }

  /** Every reachable state satisfies the invariant. */
  lemma {:induction false} RunKeepsInv(s: State, steps: seq<Step>)
    requires Inv(s) && Run(s, steps).Some?
    ensures Inv(Run(s, steps).value)
    decreases |steps|
  {
    if steps != [] {
      ApplyKeepsInv(s, steps[0]);
      RunKeepsInv(Apply(s, steps[0]).value, steps[1..]);
    }
  }
}
