/**
 * The provider lifecycle shared by registry handles and configuration handles, as a transition system. Its atomic
 * steps are single operations on the shared cells: an atomic load, swap or counter update, one send on a watch
 * channel, the acquisition of the start lock, and the worker's work between two await points.
 */
module LifecycleProtocol {
  import opened Prelude

  /** The two users of the protocol; only the registry counts activation waiters, only configuration publishes. */
  datatype Protocol = Registry | Config

  datatype Verdict = Succeeded | Failed(reason: Failure)

  datatype Failure =
    | ClosedBeforeActivation
    | ClosedDuringActivation
    | PublisherClosed
    | NoRuntime
    | ProviderError(code: nat)
    | ProviderPanicked
    | ActivationAborted
    | CleanupAborted

  datatype StartState = Prepared | Started | Finished

  /** The cells every clone of a handle shares. */
  datatype Shared = Shared(
    start: StartState,
    waiters: nat,
    observed: bool,
    closeRequested: bool,
    closeSignal: bool,
    activation: Option<Verdict>,
    close: Option<Verdict>,
    publisherClosed: bool)

  /** What a caller does after finishing a handle that never started. */
  datatype Next = ThenWait | ThenObserve | ThenReturn | ThenAwaitClose

  /** Where one call on a handle stands. Calls from `Starting` to `PublishClose` hold the start lock. */
  datatype Caller =
    // activate()
    | Created
    | Polled
    | WithoutRuntime
    | Starting
    | Spawning
    | Spawned
    | Waiting
    | Observing
    | Releasing(completed: bool)
    | Deciding
    // request_close(), on its own, inside close(), or from a destructor
    | Swapping(awaits: bool)
    | Signalling(awaits: bool)
    | Locking(awaits: bool)
    | AwaitingResult
    // finishing an unstarted handle
    | ClosePublisher(verdict: Verdict, next: Next)
    | PublishActivation(verdict: Verdict, next: Next)
    | PublishClose(next: Next)
    | Returned

  /** Where the spawned worker stands. `Dropping` and later are its destructor after an abort. */
  datatype Worker =
    | NoWorker
    | Queued
    | Activating
    | Activated(verdict: Verdict)
    | Checked(verdict: Verdict)
    | Published
    | AwaitingClose
    | Cleanup
    | Cleaning
    | Cleaned(verdict: Verdict)
    | ClosedPublisher(verdict: Verdict)
    | Dropping(activationPublished: bool)
    | DroppedActivation
    | Exited(aborted: bool)

  /** Counts of what the provider was asked to do, and what the worker saw when it checked for a close. */
  datatype Tally = Tally(spawned: nat, activations: nat, cleanups: nat, created: bool, checkSawClose: Option<bool>)

  datatype State = State(
    protocol: Protocol,
    cell: Shared,
    lock: Option<nat>,
    callers: seq<Caller>,
    worker: Worker,
    signalAtSpawn: bool,
    handles: nat,
    dropped: bool,
    tally: Tally)

  datatype Step =
    // the environment
    | CloneHandle
    | DropHandle
    | Activate
    | Close(awaits: bool)
    | DropLifecycle
    | Cancel(caller: nat)
    | Abort
    // the protocol
    | Poll(caller: nat, runtime: bool)
    | Advance(caller: nat)
    | Work(verdict: Verdict)
    | FactoryPanics

  function Init(protocol: Protocol): State {
    State(protocol, Shared(Prepared, 0, false, false, false, None, None, false), None, [], NoWorker, false, 1, false,
          Tally(0, 0, 0, false, None))
  }

  predicate HoldsLock(c: Caller) {
    c.Starting? || c.Spawning? || c.Spawned? || c.ClosePublisher? || c.PublishActivation? || c.PublishClose?
  }

  /** A live activation waiter, counted by the registry until its release. */
  predicate Registered(c: Caller) {
    || c.Created? || c.Polled? || c.WithoutRuntime? || c.Starting? || c.Spawning? || c.Spawned?
    || c.Waiting? || c.Observing? || c.Releasing?
    || (c.ClosePublisher? && IsActivation(c.next))
    || (c.PublishActivation? && IsActivation(c.next))
    || (c.PublishClose? && IsActivation(c.next))
  }

  predicate IsActivation(next: Next) {
    next.ThenWait? || next.ThenObserve?
  }

  /** The caller once an activation has its result in hand; configuration handles have no waiter to complete. */
  function Completed(protocol: Protocol): Caller {
    if protocol.Registry? then Observing else Returned
  }

  function Resume(protocol: Protocol, next: Next): Caller {
    match next
    case ThenWait => Waiting
    case ThenObserve => Completed(protocol)
    case ThenReturn => Returned
    case ThenAwaitClose => AwaitingResult
  }

  datatype LockMove = Keep | Acquire | Release

  /** What one step of a caller does: where it goes, the cells it writes, the lock, and whether it spawns. */
  datatype Effect = Effect(caller: Caller, cell: Shared, lock: LockMove, spawns: bool)

  /** Takes the lock of a prepared handle and marks it finished; publishing the results is left to later steps. */
  function FinishUnstarted(protocol: Protocol, cell: Shared, lock: LockMove, verdict: Verdict, next: Next): Effect {
    var c := if protocol.Config? then ClosePublisher(verdict, next) else PublishActivation(verdict, next);
    Effect(c, cell.(start := Finished), lock, false)
  }

  /** One step of a caller that does not depend on the environment, if it can take one; `free` is the start lock. */
  function CallerEffect(protocol: Protocol, cell: Shared, free: bool, c: Caller): Option<Effect> {
    match c
    case Polled =>
      if !free then None
      else if cell.start.Prepared? then Some(Effect(Starting, cell, Acquire, false))
      else Some(Effect(Waiting, cell, Keep, false))
    case WithoutRuntime =>
      if !free then None
      else if cell.start.Prepared? then Some(FinishUnstarted(protocol, cell, Acquire, Failed(NoRuntime), ThenObserve))
      else Some(Effect(Completed(protocol), cell, Keep, false))
    case Starting =>
      if cell.closeRequested then Some(FinishUnstarted(protocol, cell, Keep, Failed(ClosedBeforeActivation), ThenWait))
      else Some(Effect(Spawning, cell, Keep, false))
    case Spawning => Some(Effect(Spawned, cell, Keep, true))
    case Spawned => Some(Effect(Waiting, cell.(start := Started), Release, false))
    case Waiting => if cell.activation.None? then None else Some(Effect(Completed(protocol), cell, Keep, false))
    case Observing => Some(Effect(Releasing(true), cell.(observed := true), Keep, false))
    case Releasing(completed) =>
      if cell.waiters == 0 then None
      else
        var last := cell.waiters == 1 && !completed;
        Some(Effect(if last then Deciding else Returned, cell.(waiters := cell.waiters - 1), Keep, false))
    case Deciding => Some(Effect(if cell.observed then Returned else Swapping(false), cell, Keep, false))
    case Swapping(awaits) =>
      var next := if cell.closeRequested then Locking(awaits) else Signalling(awaits);
      Some(Effect(next, cell.(closeRequested := true), Keep, false))
    case Signalling(awaits) => Some(Effect(Locking(awaits), cell.(closeSignal := true), Keep, false))
    case Locking(awaits) =>
      var next := if awaits then ThenAwaitClose else ThenReturn;
      if !free then None
      else if cell.start.Prepared? then
        Some(FinishUnstarted(protocol, cell, Acquire, Failed(ClosedBeforeActivation), next))
      else Some(Effect(Resume(protocol, next), cell, Keep, false))
    case AwaitingResult => if cell.close.None? then None else Some(Effect(Returned, cell, Keep, false))
    case ClosePublisher(verdict, next) =>
      Some(Effect(PublishActivation(verdict, next), cell.(publisherClosed := true), Keep, false))
    case PublishActivation(verdict, next) =>
      Some(Effect(PublishClose(next), cell.(activation := Some(verdict)), Keep, false))
    case PublishClose(next) =>
      Some(Effect(Resume(protocol, next), cell.(close := Some(Succeeded)), Release, false))
    case Created => None
    case Returned => None
  }

  /** Carries out the effect of caller `i`'s step; a spawned worker subscribes to the close signal as it stands. */
  function Take(s: State, i: nat, e: Effect): State
    requires i < |s.callers|
  {
    s.(callers := s.callers[i := e.caller],
       cell := e.cell,
       lock := match e.lock case Keep => s.lock case Acquire => Some(i) case Release => None,
       worker := if e.spawns then Queued else s.worker,
       signalAtSpawn := if e.spawns then s.cell.closeSignal else s.signalAtSpawn,
       tally := if e.spawns then s.tally.(spawned := s.tally.spawned + 1) else s.tally)
  }

  function AdvanceCaller(s: State, i: nat): Option<State>
    requires i < |s.callers|
  {
    match CallerEffect(s.protocol, s.cell, s.lock.None?, s.callers[i])
    case None => None
    case Some(e) => Some(Take(s, i, e))
  }

  /** What a provider's future can end with. */
  predicate FromProvider(v: Verdict) {
    v.Succeeded? || v.reason.ProviderError? || v.reason.ProviderPanicked?
  }

  /** What one step of the worker does to itself, the cells and the tally. */
  datatype Progress = Progress(worker: Worker, cell: Shared, tally: Tally)

  /**
   * One step of the worker; `verdict` is the provider's outcome where the step ends a provider future, and
   * `signalled` says that the close signal was already up when the worker subscribed to it.
   */
  function WorkerEffect(
    protocol: Protocol, cell: Shared, worker: Worker, tally: Tally, signalled: bool, verdict: Verdict): Option<Progress>
  {
    match worker
    case Queued => Some(Progress(Activating, cell, tally.(activations := tally.activations + 1)))
    case Activating =>
      if !FromProvider(verdict) then None
      else
        var rejected := protocol.Config? && verdict.Succeeded? && cell.publisherClosed;
        Some(Progress(Activated(if rejected then Failed(PublisherClosed) else verdict), cell, tally))
    case Activated(v) =>
      Some(Progress(Checked(if cell.closeSignal && v.Succeeded? then Failed(ClosedDuringActivation) else v), cell,
                    tally.(checkSawClose := Some(cell.closeSignal))))
    case Checked(v) => Some(Progress(Published, cell.(activation := Some(v)), tally))
    case Published => Some(Progress(if cell.closeSignal then Cleanup else AwaitingClose, cell, tally))
    // The receiver wakes up on a send it has not seen since it subscribed.
    case AwaitingClose => if cell.closeSignal && !signalled then Some(Progress(Cleanup, cell, tally)) else None
    case Cleanup => Some(Progress(Cleaning, cell, tally.(cleanups := tally.cleanups + 1)))
    case Cleaning => if FromProvider(verdict) then Some(Progress(Cleaned(verdict), cell, tally)) else None
    case Cleaned(v) => Some(Progress(ClosedPublisher(v), EndPublisher(protocol, cell), tally))
    case ClosedPublisher(v) => Some(Progress(Exited(false), cell.(close := Some(v)), tally))
    case Dropping(published) =>
      var ended := EndPublisher(protocol, cell);
      var cell' := if published then ended else ended.(activation := Some(Failed(ActivationAborted)));
      Some(Progress(DroppedActivation, cell', tally))
    case DroppedActivation => Some(Progress(Exited(true), cell.(close := Some(Failed(CleanupAborted))), tally))
    case NoWorker => None
    case Exited(_) => None
  }

  /** A cleanup factory that panics has still been called. */
  function FactoryPanic(cell: Shared, worker: Worker, tally: Tally): Option<Progress> {
    if worker.Cleanup? then
      Some(Progress(Cleaned(Failed(ProviderPanicked)), cell, tally.(cleanups := tally.cleanups + 1)))
    else None
  }

  /** A worker can be dropped before its first poll and at its await points. */
  function AbortEffect(cell: Shared, worker: Worker, tally: Tally): Option<Progress> {
    match worker
    case Queued => Some(Progress(Dropping(false), cell, tally))
    case Activating => Some(Progress(Dropping(false), cell, tally))
    case AwaitingClose => Some(Progress(Dropping(true), cell, tally))
    case Cleaning => Some(Progress(Dropping(true), cell, tally))
    case _ => None
  }

  /** Only configuration handles have a publisher to end. */
  function EndPublisher(protocol: Protocol, cell: Shared): Shared {
    cell.(publisherClosed := cell.publisherClosed || protocol.Config?)
  }

  function Carry(s: State, progress: Option<Progress>): Option<State> {
    match progress
    case None => None
    case Some(p) => Some(s.(worker := p.worker, cell := p.cell, tally := p.tally))
  }

  predicate AllReturned(s: State) {
    forall i :: 0 <= i < |s.callers| ==> s.callers[i].Returned?
  }

  /** The transition relation, as a partial function of the step taken. */
  function Apply(s: State, step: Step): Option<State> {
    match step
    case CloneHandle => if s.handles == 0 then None else Some(s.(handles := s.handles + 1))
    case DropHandle => if s.handles == 0 then None else Some(s.(handles := s.handles - 1))
    case Activate => if s.handles == 0 then None else Some(Arrive(s, Created))
    case Close(awaits) => if s.handles == 0 then None else Some(Arrive(s, Swapping(awaits)))
    // Every call holds the shared lifecycle alive, so its destructor runs after the last one has returned.
    case DropLifecycle =>
      if s.handles > 0 || s.dropped || !AllReturned(s) then None else Some(Arrive(s, Swapping(false)).(dropped := true))
    case Cancel(i) => if i >= |s.callers| then None else MoveTo(s, i, Cancelled(s.protocol, s.callers[i]))
    case Poll(i, runtime) => if i >= |s.callers| then None else MoveTo(s, i, FirstPoll(s.cell, s.callers[i], runtime))
    case Advance(i) => if i >= |s.callers| then None else AdvanceCaller(s, i)
    case Abort => Carry(s, AbortEffect(s.cell, s.worker, s.tally))
    case Work(verdict) => Carry(s, WorkerEffect(s.protocol, s.cell, s.worker, s.tally, s.signalAtSpawn, verdict))
    case FactoryPanics => Carry(s, FactoryPanic(s.cell, s.worker, s.tally))
  }

  /** A new call; a registry activation registers its waiter before anything else. */
  function Arrive(s: State, c: Caller): State {
    var counted := c.Created? && s.protocol.Registry?;
    s.(callers := s.callers + [c],
       cell := s.cell.(waiters := s.cell.waiters + if counted then 1 else 0),
       tally := s.tally.(created := s.tally.created || c.Created?))
  }

  function MoveTo(s: State, i: nat, c: Option<Caller>): Option<State>
    requires i < |s.callers|
  {
    match c
    case None => None
    case Some(next) => Some(s.(callers := s.callers[i := next]))
  }

  /** A future dropped before its first poll or while it awaits a result. */
  function Cancelled(protocol: Protocol, c: Caller): Option<Caller> {
    if c.Created? || c.Waiting? then Some(if protocol.Registry? then Releasing(false) else Returned)
    else if c.AwaitingResult? then Some(Returned)
    else None
  }

  /** The first poll of an activation looks for a result, then for a runtime. */
  function FirstPoll(cell: Shared, c: Caller, runtime: bool): Option<Caller> {
    if !c.Created? then None
    else if cell.activation.Some? then Some(Waiting)
    else Some(if runtime then Polled else WithoutRuntime)
  }

  /** Runs a schedule; None when some step of it was not enabled. */
  function Run(s: State, steps: seq<Step>): Option<State>
    decreases |steps|
  {
    if steps == [] then Some(s)
    else match Apply(s, steps[0])
      case None => None
      case Some(s') => Run(s', steps[1..])
  }

  /** The steps the protocol takes on its own once providers answer; the environment's are excluded. */
  predicate IsProtocolStep(step: Step) {
    step.Poll? || step.Advance? || step.Work? || step.FactoryPanics?
  }

  function Total(f: Caller -> nat, callers: seq<Caller>): nat {
    if callers == [] then 0 else f(callers[0]) + Total(f, callers[1..])
  }

  lemma {:induction false} TotalUpdate(f: Caller -> nat, callers: seq<Caller>, i: nat, c: Caller)
    requires i < |callers|
    ensures Total(f, callers[i := c]) + f(callers[i]) == Total(f, callers) + f(c)
  {
    if i == 0 {
      assert callers[i := c][1..] == callers[1..];
    } else {
      assert callers[i := c][1..] == callers[1..][i - 1 := c];
      TotalUpdate(f, callers[1..], i - 1, c);
    }
  }

  lemma {:induction false} TotalAppend(f: Caller -> nat, callers: seq<Caller>, c: Caller)
    ensures Total(f, callers + [c]) == Total(f, callers) + f(c)
  {
    if callers == [] {
      assert callers + [c] == [c] && [c][1..] == [];
    } else {
      assert (callers + [c])[1..] == callers[1..] + [c];
      TotalAppend(f, callers[1..], c);
    }
  }

  lemma {:induction false} TotalMember(f: Caller -> nat, callers: seq<Caller>, i: nat)
    requires i < |callers|
    ensures f(callers[i]) <= Total(f, callers)
  {
    if i > 0 {
      TotalMember(f, callers[1..], i - 1);
    }
  }
}
