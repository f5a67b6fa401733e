/** The handle's shared lifecycle and its activation waiters, as objects; each method is a schedule of the protocol. */
module LifecycleObjects {
  import opened Prelude
  import opened LifecycleProtocol
  import opened LifecycleTheorems

  /** Where a caller gets to when nobody interferes: the cells, its resting place and whether it spawned a worker. */
  datatype Solo = Solo(cell: Shared, caller: Caller, spawned: bool)

  /** A call rests when it has returned or only awaits a result. */
  predicate Rests(c: Caller) {
    c.Created? || c.Waiting? || c.Observing? || c.AwaitingResult? || c.Returned?
  }

  function RunAlone(protocol: Protocol, cell: Shared, c: Caller): Solo
    decreases CallerRank(c)
  {
    if Rests(c) then Solo(cell, c, false)
    else match CallerEffect(protocol, cell, true, c)
      case None => Solo(cell, c, false)
      case Some(e) =>
        EffectLowersRank(protocol, cell, true, c);
        var rest := RunAlone(protocol, e.cell, e.caller);
        rest.(spawned := rest.spawned || e.spawns)
  }

  /** Running alone is a schedule of the protocol in which only that caller moves. */
  lemma {:induction false} RunAloneIsASchedule(s: State, i: nat) returns (steps: seq<Step>)
    requires i < |s.callers| && (if HoldsLock(s.callers[i]) then s.lock == Some(i) else s.lock.None?)
    ensures forall k :: 0 <= k < |steps| ==> steps[k] == Advance(i)
    ensures Run(s, steps).Some?
    ensures var t := Run(s, steps).value;
            var solo := RunAlone(s.protocol, s.cell, s.callers[i]);
            && t.cell == solo.cell && t.callers == s.callers[i := solo.caller]
            && t.worker == (if solo.spawned then Queued else s.worker)
    decreases CallerRank(s.callers[i])
  {
    var c := s.callers[i];
    assert s.callers[i := c] == s.callers;
    if Rests(c) || CallerEffect(s.protocol, s.cell, true, c).None? {
      return [];
    }
    var e := CallerEffect(s.protocol, s.cell, true, c).value;
    assert CallerEffect(s.protocol, s.cell, s.lock.None?, c) == Some(e);
    EffectLowersRank(s.protocol, s.cell, true, c);
    var t := Take(s, i, e);
    var rest := RunAloneIsASchedule(t, i);
    steps := [Advance(i)] + rest;
    assert steps[1..] == rest;
  }

  /** The cells of a handle finished without a worker. */
  function FinishedCell(protocol: Protocol, cell: Shared, verdict: Verdict): Shared {
    EndPublisher(protocol, cell).(start := Finished, activation := Some(verdict), close := Some(Succeeded))
  }

  lemma FinishingAlone(protocol: Protocol, cell: Shared, lock: LockMove, verdict: Verdict, next: Next)
    ensures var e := FinishUnstarted(protocol, cell, lock, verdict, next);
            RunAlone(protocol, e.cell, e.caller) == Solo(FinishedCell(protocol, cell, verdict), Resume(protocol, next), false)
  {
    var ended := EndPublisher(protocol, cell.(start := Finished));
    var activated := ended.(activation := Some(verdict));
    var closed := activated.(close := Some(Succeeded));
    assert RunAlone(protocol, closed, Resume(protocol, next)) == Solo(closed, Resume(protocol, next), false);
    assert RunAlone(protocol, activated, PublishClose(next)) == Solo(closed, Resume(protocol, next), false);
    assert RunAlone(protocol, ended, PublishActivation(verdict, next)) == Solo(closed, Resume(protocol, next), false);
  }

  /** Alone, a close request raises both close cells and finishes a handle that was still prepared. */
  lemma ClosingAlone(protocol: Protocol, cell: Shared)
    requires cell.closeSignal ==> cell.closeRequested
    ensures var raised := cell.(closeRequested := true, closeSignal := cell.closeSignal || !cell.closeRequested);
            RunAlone(protocol, cell, Swapping(false))
            == Solo(if cell.start.Prepared? then FinishedCell(protocol, raised, Failed(ClosedBeforeActivation)) else raised,
                    Returned, false)
  {
    var raised := cell.(closeRequested := true, closeSignal := cell.closeSignal || !cell.closeRequested);
    var lock := CallerEffect(protocol, raised, true, Locking(false)).value;
    FinishingAlone(protocol, raised, Acquire, Failed(ClosedBeforeActivation), ThenReturn);
    assert RunAlone(protocol, raised, Locking(false)) == RunAlone(protocol, lock.cell, lock.caller);
    if !cell.closeRequested {
      var swapped := cell.(closeRequested := true);
      assert RunAlone(protocol, swapped, Signalling(false)) == RunAlone(protocol, raised, Locking(false));
    }
  }

  /** Alone, a polled activation finishes a closed handle, or starts the worker of an open one, if still prepared. */
  lemma StartingAlone(protocol: Protocol, cell: Shared)
    ensures RunAlone(protocol, cell, Polled)
            == if !cell.start.Prepared? then Solo(cell, Waiting, false)
               else if cell.closeRequested then
                 Solo(FinishedCell(protocol, cell, Failed(ClosedBeforeActivation)), Waiting, false)
               else Solo(cell.(start := Started), Waiting, true)
  {
    FinishingAlone(protocol, cell, Keep, Failed(ClosedBeforeActivation), ThenWait);
    if cell.start.Prepared? && !cell.closeRequested {
      var started := cell.(start := Started);
      assert RunAlone(protocol, started, Waiting) == Solo(started, Waiting, false);
      assert RunAlone(protocol, cell, Spawned) == Solo(started, Waiting, false);
      assert RunAlone(protocol, cell, Spawning) == Solo(started, Waiting, true);
      assert RunAlone(protocol, cell, Starting) == Solo(started, Waiting, true);
    }
  }

  /** Alone, an activation without a runtime finishes a prepared handle with that failure and leaves any other be. */
  lemma RefusingAlone(protocol: Protocol, cell: Shared)
    ensures RunAlone(protocol, cell, WithoutRuntime)
            == if !cell.start.Prepared? then Solo(cell, Completed(protocol), false)
               else Solo(FinishedCell(protocol, cell, Failed(NoRuntime)), Completed(protocol), false)
  {
    assert RunAlone(protocol, cell, Completed(protocol)) == Solo(cell, Completed(protocol), false);
    if cell.start.Prepared? {
      FinishingAlone(protocol, cell, Acquire, Failed(NoRuntime), ThenObserve);
      assert CallerEffect(protocol, cell, true, WithoutRuntime)
          == Some(FinishUnstarted(protocol, cell, Acquire, Failed(NoRuntime), ThenObserve));
    }
  }

  class Lifecycle {
    const protocol: Protocol
    var start: StartState
    var activationWaiters: nat
    var activationObserved: bool
    var closeRequested: bool
    var closeSignal: bool
    var activationResult: Option<Verdict>
    var closeResult: Option<Verdict>
    var publisherClosed: bool
    var worker: Worker

    constructor (protocol: Protocol)
      ensures this.protocol == protocol && Cell() == Init(protocol).cell && worker == NoWorker
    {
      this.protocol := protocol;
      start, activationWaiters, activationObserved := Prepared, 0, false;
      closeRequested, closeSignal, activationResult, closeResult := false, false, None, None;
      publisherClosed, worker := false, NoWorker;
    }

    ghost function Cell(): Shared
      reads this
    {
      Shared(start, activationWaiters, activationObserved, closeRequested, closeSignal, activationResult, closeResult,
             publisherClosed)
    }

    /** The object ends up as the protocol leaves the cells when `c` runs without interference. */
    twostate predicate Ran(before: Shared, c: Caller)
      reads this
    {
      var solo := RunAlone(protocol, before, c);
      Cell() == solo.cell && worker == (if solo.spawned then Queued else old(worker))
    }

    method RequestClose()
      requires closeSignal ==> closeRequested
      modifies this
      ensures Ran(old(Cell()), Swapping(false))
    {
      ghost var before := Cell();
      ClosingAlone(protocol, before);
      if !closeRequested {
        closeRequested := true;
        closeSignal := true;
      }
      if !start.Prepared? {
        return;
      }
      start := Finished;
      PublishPreActivationClose();
    }

    method PublishPreActivationClose()
      modifies this
      ensures Cell() == old(Cell()).(publisherClosed := old(publisherClosed) || protocol.Config?,
                                     activation := Some(Failed(ClosedBeforeActivation)), close := Some(Succeeded))
      ensures worker == old(worker)
    {
      if protocol.Config? {
        publisherClosed := true;
      }
      activationResult := Some(Failed(ClosedBeforeActivation));
      closeResult := Some(Succeeded);
    }

    method FinishBeforeStart(verdict: Verdict)
      requires verdict == Failed(NoRuntime)
      modifies this
      ensures Ran(old(Cell()), WithoutRuntime)
    {
      RefusingAlone(protocol, Cell());
      if !start.Prepared? {
        return;
      }
      start := Finished;
      if protocol.Config? {
        publisherClosed := true;
      }
      activationResult := Some(verdict);
      closeResult := Some(Succeeded);
    }

    /** Starts the worker at most once; false reports that the calling thread has no runtime. */
    method EnsureStarted(runtime: bool) returns (ok: bool)
      modifies this
      ensures Ran(old(Cell()), FirstPoll(old(Cell()), Created, runtime).value)
      ensures ok <==> runtime || old(activationResult).Some?
    {
      if activationResult.Some? {
        return true;
      }
      if !runtime {
        FinishBeforeStart(Failed(NoRuntime));
        return false;
      }
      StartingAlone(protocol, Cell());
      if !start.Prepared? {
        return true;
      }
      if closeRequested {
        start := Finished;
        PublishPreActivationClose();
        return true;
      }
      worker := Queued;
      start := Started;
      return true;
    }
  }

  /** Counts one activation call from its creation until its result is in hand or its future is dropped. */
  class ActivationWaiter {
    const lifecycle: Lifecycle
    var registered: bool
    var completed: bool

    constructor (lifecycle: Lifecycle)
      requires lifecycle.protocol.Registry?
      modifies lifecycle
      ensures this.lifecycle == lifecycle && registered && !completed
      ensures lifecycle.Cell() == old(lifecycle.Cell()).(waiters := old(lifecycle.activationWaiters) + 1)
      ensures lifecycle.worker == old(lifecycle.worker)
    {
      this.lifecycle := lifecycle;
      registered, completed := true, false;
      new;
      lifecycle.activationWaiters := lifecycle.activationWaiters + 1;
    }

    /** Records that a result was observed, which disarms the release of this and of every other waiter. */
    method Complete()
      requires lifecycle.protocol.Registry? && registered && lifecycle.activationWaiters > 0
      requires lifecycle.closeSignal ==> lifecycle.closeRequested
      modifies this, lifecycle
      ensures !registered && completed
      ensures lifecycle.Ran(old(lifecycle.Cell()).(observed := true), Releasing(true))
    {
      completed := true;
      lifecycle.activationObserved := true;
      Release();
    }

    /** Uncounts the waiter; a second release, as by a destructor after completion, does nothing. */
    method Release()
      requires lifecycle.protocol.Registry? && (registered ==> lifecycle.activationWaiters > 0)
      requires lifecycle.closeSignal ==> lifecycle.closeRequested
      modifies this, lifecycle
      ensures !registered && completed == old(completed)
      ensures if old(registered) then lifecycle.Ran(old(lifecycle.Cell()), Releasing(completed))
              else lifecycle.Cell() == old(lifecycle.Cell()) && lifecycle.worker == old(lifecycle.worker)
    {
      if !registered {
        return;
      }
      registered := false;
      var previous := lifecycle.activationWaiters;
      lifecycle.activationWaiters := previous - 1;
      if previous == 1 && !completed && !lifecycle.activationObserved {
        lifecycle.RequestClose();
      }
    }
  }
}
